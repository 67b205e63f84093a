/** Every step at one end of a stream keeps the books of both ends. */
module SmuxPair {
  import opened Wrappers
  import opened Bytes
  import opened Ciphers
  import opened SmuxFrame
  import opened SmuxState
  import opened SmuxFlush
  import opened SmuxProtocol

  ghost predicate BookOk(cfg: Config, peerCfg: Config, c: StreamCipher, v: View, peer: History) {
    EndOk(cfg, c, v) && CreditOk(cfg, peerCfg, v, peer)
  }

  /** At most one frame, which carries neither data nor an update. */
  ghost predicate Silent(frames: seq<Frame>) {
    |frames| <= 1 && forall f :: f in frames ==> f.command.Fin? || f.command.Syn?
  }

  lemma SilentFrames(tx: seq<Frame>, frames: seq<Frame>)
    requires Silent(frames)
    ensures Data(tx + frames) == Data(tx) && Updates(tx + frames) == Updates(tx)
  {
    hide Data, Payloads;
    DataAppend(tx, frames);
    PayloadsAppend(tx, frames, Upd);
    if frames == [] {
      assert tx + frames == tx;
    } else {
      assert frames[0] in frames;
      assert frames == [frames[0]];
      DataOne(frames[0]);
    }
  }

  lemma OnlyDataFrames(tx: seq<Frame>, frames: seq<Frame>, id: u32)
    requires OnlyData(frames, id)
    ensures Updates(tx + frames) == Updates(tx)
  {
    hide Payloads;
    PayloadsAppend(tx, frames, Upd);
    NoUpdates(frames, id);
  }

  lemma {:induction false} NoUpdates(frames: seq<Frame>, id: u32)
    requires OnlyData(frames, id)
    ensures Payloads(frames, Upd) == []
    decreases |frames|
  {
    if frames != [] {
      assert frames[0] in frames;
      NoUpdates(frames[1..], id);
    }
  }

  lemma OnlyDataWellFormed(version: int, frames: seq<Frame>, id: u32)
    requires OnlyData(frames, id)
    ensures AllWellFormed(version, frames)
  {}

  // ----- reading from the socket

  lemma FlushKeepsBook(cfg: Config, peerCfg: Config, c: StreamCipher, id: u32, v: View, st: Stream, queued: seq<byte>,
                       known: nat)
    requires ConfigOk(peerCfg) && AllWellFormed(cfg.version, v.tx)
    requires |Data(v.tx)| <= |queued| && SendingOk(st, queued, |Data(v.tx)|)
    requires Data(v.tx) == EncAt(c, 0, queued[..|Data(v.tx)|])
    requires st.peerConsumed == Wrap32(known) && known <= |Data(v.tx)| && st.peerWindow <= Credit(peerCfg)
    requires cfg.version == 2 ==> |Data(v.tx)| - known <= Credit(peerCfg)
    ensures var (st', frames) := Flush(cfg, c, id, st);
            var n := |Data(v.tx + frames)|;
            && n <= |queued|
            && SendingOk(st', queued, n)
            && Data(v.tx + frames) == EncAt(c, 0, queued[..n])
            && WindowOk(cfg, st', known, st.peerWindow)
            && known <= n
            && (cfg.version == 2 ==> n - known <= Credit(peerCfg))
            && Updates(v.tx + frames) == Updates(v.tx)
            && AllWellFormed(cfg.version, v.tx + frames)
            && SameReceiving(st, st')
  {
    hide Flush, Data, PendingBytes, EncAt, Payloads, Updates, AvailablePeerWindow;
    var (st', frames) := Flush(cfg, c, id, st);
    FlushSpec(cfg, c, id, st);
    FlushKeepsSending(cfg, c, id, st, queued, v.tx);
    FlushKeepsCredit(cfg, peerCfg, c, id, st, |Data(v.tx)|, known);
    OnlyDataFrames(v.tx, frames, id);
    OnlyDataWellFormed(cfg.version, frames, id);
  }

  /** The receiving side of the two states is the same. */
  ghost predicate SameReceiving(st: Stream, st': Stream) {
    && st'.decPos == st.decPos
    && st'.pendingTcpWrites == st.pendingTcpWrites
    && st'.tcpWriteActive == st.tcpWriteActive
    && st'.numRead == st.numRead
    && st'.incr == st.incr
  }

  /** The sending side of the two states is the same. */
  ghost predicate SameSending(st: Stream, st': Stream) {
    && st'.closed == st.closed
    && st'.pendingOutbound == st.pendingOutbound
    && st'.encPos == st.encPos
    && st'.numWritten == st.numWritten
    && st'.peerConsumed == st.peerConsumed
    && st'.peerWindow == st.peerWindow
  }

  lemma ReceivingKept(c: StreamCipher, st: Stream, st': Stream, h: History, data: seq<byte>)
    requires h.out <= |h.enqueued| && SameReceiving(st, st') && ReceivingOk(c, st, h, data)
    ensures ReceivingOk(c, st', h, data)
  {}

  lemma WindowKept(cfg: Config, st: Stream, st': Stream, known: nat, window: nat)
    requires SameSending(st, st') && WindowOk(cfg, st, known, window)
    ensures WindowOk(cfg, st', known, window)
  {}

  lemma ReadKeeps(cfg: Config, peerCfg: Config, c: StreamCipher, id: u32, v: View, peer: History, data: ReadChunk)
    requires ConfigOk(peerCfg) && v.stream.Some? && BookOk(cfg, peerCfg, c, v, peer)
    ensures BookOk(cfg, peerCfg, c, ActView(cfg, c, id, v, Read(data)), peer)
  {
    hide Flush, Data, PendingBytes, EncAt, DecAt, Payloads, Concat, WritesOk, Updates, WindowOk;
    var st, queued := v.stream.value, v.history.queued + data;
    var st1 := if data == [] then st else st.(pendingOutbound := st.pendingOutbound + [Pending(data, 0)]);
    var n := |Data(v.tx)|;
    QueueKeepsSending(st, st1, v.history.queued, data, n);
    assert queued[..n] == v.history.queued[..n];
    WindowFields(cfg, peerCfg, v, peer);
    FlushKeepsBook(cfg, peerCfg, c, id, v, st1, queued, Known(v, peer));
    var (st', frames) := Flush(cfg, c, id, st1);
    var v' := ActView(cfg, c, id, v, Read(data));
    assert v' == View(Some(st'), None, v.history.(queued := queued), v.tx + frames, v.rx);
    ReceivingKept(c, st, st', v.history, Data(v.rx));
  }

  lemma QueueKeepsSending(st: Stream, st1: Stream, queued: seq<byte>, data: ReadChunk, n: nat)
    requires n <= |queued| && SendingOk(st, queued, n)
    requires st1 == if data == [] then st else st.(pendingOutbound := st.pendingOutbound + [Pending(data, 0)])
    ensures SendingOk(st1, queued + data, n)
  {
    hide PendingBytes;
    PendingAppend(st.pendingOutbound, data);
    assert (queued + data)[n..] == queued[n..] + data;
  }

  lemma WindowFields(cfg: Config, peerCfg: Config, v: View, peer: History)
    requires v.stream.Some? && CreditOk(cfg, peerCfg, v, peer)
    ensures v.stream.value.peerConsumed == Wrap32(Known(v, peer))
    ensures v.stream.value.peerWindow == Granted(peerCfg, v) <= Credit(peerCfg)
  {}

  // ----- writing to the socket

  lemma OneUpdate(tx: seq<Frame>, f: Frame)
    requires f.command.Upd?
    ensures Data(tx + [f]) == Data(tx) && Updates(tx + [f]) == Updates(tx) + [f.payload]
  {
    hide Data, Payloads;
    DataAppend(tx, [f]);
    PayloadsAppend(tx, [f], Upd);
    DataOne(f);
  }

  /** Counting touches the counters alone. */
  lemma MarkFields(cfg: Config, id: u32, st: Stream, bytes: nat)
    ensures var st' := MarkConsumed(cfg, id, st, bytes).0;
            st' == st.(numRead := st'.numRead, incr := st'.incr)
  {
    hide UpdatePayload;
  }

  /** The receiving side after a completed write, before the next one is started. */
  lemma WriteKeepsReceiving(cfg: Config, c: StreamCipher, id: u32, st: Stream, h: History, data: seq<byte>)
    requires st.pendingTcpWrites != [] && h.out <= |h.enqueued| && ReceivingOk(c, st, h, data)
    ensures var (st', frames) := SmuxState.WriteDone(cfg, id, st);
            var h' := Recorded(st, h, Event.WriteDone, frames);
            && h.out < h'.out <= |h.enqueued| && h'.enqueued == h.enqueued && h'.queued == h.queued
            && ReceivingOk(c, st', h', data)
            && SameSending(st, st')
  {
    hide DecAt, Concat, MarkConsumed, WritesOk;
    WritePops(st, h);
    MarkFields(cfg, id, st.(tcpWriteActive := false, pendingTcpWrites := st.pendingTcpWrites[1..]),
               |st.pendingTcpWrites[0]|);
  }

  lemma ReportsMore(cfg: Config, h: History, updates: seq<FramePayload>, payload: FramePayload, out: nat)
    requires ReportsOk(cfg, h, updates) && Nondecreasing(h.reports + [out], out) && Reported(cfg, payload, out)
    ensures ReportsOk(cfg, h.(out := out, reports := h.reports + [out]), updates + [payload])
  {
    hide Reported, Nondecreasing;
  }

  lemma ReportsKept(cfg: Config, h: History, updates: seq<FramePayload>, out: nat)
    requires ReportsOk(cfg, h, updates) && h.out <= out
    ensures ReportsOk(cfg, h.(out := out), updates)
  {
    hide Reported;
  }

  lemma ReportsAscend(cfg: Config, h: History, updates: seq<FramePayload>)
    requires ReportsOk(cfg, h, updates)
    ensures Nondecreasing(h.reports, h.out)
  {}

  lemma WriteKeepsBatch(cfg: Config, c: StreamCipher, id: u32, st: Stream, h: History, updates: seq<FramePayload>)
    requires st.pendingTcpWrites != [] && 0 < |st.pendingTcpWrites[0]| < U16 && ConfigOk(cfg)
    requires ReportsOk(cfg, h, updates) && (cfg.version == 2 ==> BatchOk(cfg, st, h))
    ensures var (st', frames) := SmuxState.WriteDone(cfg, id, st);
            var h' := Recorded(st, h, Event.WriteDone, frames);
            && (cfg.version == 2 ==> BatchOk(cfg, st', h'))
            && (frames == [] || (|frames| == 1 && frames[0].command.Upd? && WellFormed(cfg.version, frames[0])))
            && ReportsOk(cfg, h', updates + if frames == [] then [] else [frames[0].payload])
  {
    hide Reported, ReportsOk, Nondecreasing, BatchOk, MarkConsumed;
    var bytes := |st.pendingTcpWrites[0]|;
    var popped := st.(tcpWriteActive := false, pendingTcpWrites := st.pendingTcpWrites[1..]);
    assert updates + [] == updates;
    if cfg.version == 2 {
      ReportsAscend(cfg, h, updates);
      BatchFields(cfg, st, popped, h);
      MarkKeepsBatch(cfg, id, popped, h, bytes);
      var (marked, frames) := MarkConsumed(cfg, id, popped, bytes);
      BatchFields(cfg, marked, FlushTcp(marked), Recorded(st, h, Event.WriteDone, frames));
      if frames == [] {
        ReportsKept(cfg, h, updates, h.out + bytes);
      } else {
        ReportsMore(cfg, h, updates, frames[0].payload, h.out + bytes);
      }
    } else {
      Version1Counts(cfg, id, popped, bytes);
      ReportsKept(cfg, h, updates, h.out + bytes);
    }
  }

  lemma BatchFields(cfg: Config, st: Stream, st': Stream, h: History)
    requires BatchOk(cfg, st, h) && st'.numRead == st.numRead && st'.incr == st.incr
    ensures BatchOk(cfg, st', h)
  {}

  lemma Version1Counts(cfg: Config, id: u32, st: Stream, bytes: nat)
    requires cfg.version != 2
    ensures MarkConsumed(cfg, id, st, bytes) == (st, [])
  {}

  lemma WriteDoneKeeps(cfg: Config, peerCfg: Config, c: StreamCipher, id: u32, v: View, peer: History)
    requires ConfigOk(cfg) && v.stream.Some? && BookOk(cfg, peerCfg, c, v, peer)
    requires v.stream.value.tcpWriteActive
    ensures BookOk(cfg, peerCfg, c, ActView(cfg, c, id, v, Event.WriteDone), peer)
  {
    hide Data, PendingBytes, EncAt, DecAt, Payloads, Concat, Updates, WindowOk, ReportsOk, BatchOk, SmuxState.WriteDone;
    var st := v.stream.value;
    WriteKeepsReceiving(cfg, c, id, st, v.history, Data(v.rx));
    WriteKeepsBatch(cfg, c, id, st, v.history, Updates(v.tx));
    var (st', frames) := SmuxState.WriteDone(cfg, id, st);
    WindowKept(cfg, st, st', Known(v, peer), Granted(peerCfg, v));
    if frames == [] {
      assert v.tx + frames == v.tx;
      assert Updates(v.tx) + [] == Updates(v.tx);
    } else {
      assert frames == [frames[0]];
      OneUpdate(v.tx, frames[0]);
      UpdateWellFormed(cfg, v.tx, frames[0]);
    }
  }

  /** A write that completes after the stream has closed counts like any other; in a live session it may still be
      told. */
  lemma LateKeeps(cfg: Config, peerCfg: Config, c: StreamCipher, id: u32, v: View, peer: History, live: bool)
    requires ConfigOk(cfg) && v.late.Some? && BookOk(cfg, peerCfg, c, v, peer)
    ensures v.late.value.pendingTcpWrites != []
    ensures BookOk(cfg, peerCfg, c, LateView(cfg, id, v, live), peer)
  {
    hide Data, EncAt, DecAt, Payloads, Concat, Updates, WindowOk, ReportsOk, BatchOk, SmuxState.WriteDone, WritesOk;
    var st, h := v.late.value, v.history;
    WritePops(st, h);
    WriteKeepsBatch(cfg, c, id, st, h, Updates(v.tx));
    var frames := LateFrames(cfg, id, st, live);
    if frames == [] {
      assert v.tx + frames == v.tx;
      assert Updates(v.tx) + [] == Updates(v.tx);
      ReportsKept(cfg, h, Updates(v.tx), h.out + |st.pendingTcpWrites[0]|);
    } else {
      assert frames == [frames[0]];
      OneUpdate(v.tx, frames[0]);
      UpdateWellFormed(cfg, v.tx, frames[0]);
    }
  }

  lemma UpdateWellFormed(cfg: Config, tx: seq<Frame>, f: Frame)
    requires AllWellFormed(cfg.version, tx) && WellFormed(cfg.version, f)
    ensures AllWellFormed(cfg.version, tx + [f])
  {}

  // ----- the other events

  lemma QuietKeeps(cfg: Config, peerCfg: Config, c: StreamCipher, id: u32, v: View, peer: History, e: Event)
    requires v.stream.Some? && BookOk(cfg, peerCfg, c, v, peer)
    requires !e.Read? && !e.WriteDone? && Enabled(v.stream.value, e)
    ensures BookOk(cfg, peerCfg, c, ActView(cfg, c, id, v, e), peer)
  {
    hide Data, PendingBytes, EncAt, DecAt, Payloads, Concat, Updates, WindowOk, ReportsOk, WritesOk;
    var st := v.stream.value;
    var (st', frames) := Act(cfg, c, id, st, e);
    SilentFrames(v.tx, frames);
    if st'.Some? {
      WindowKept(cfg, st, st'.value, Known(v, peer), Granted(peerCfg, v));
    }
  }

  // ----- receiving a frame

  lemma DataPrefix(a: seq<Frame>, b: seq<Frame>)
    requires a <= b
    ensures Data(a) <= Data(b)
    ensures Updates(a) <= Updates(b)
  {
    hide Data, Payloads;
    assert b == a + b[|a|..];
    DataAppend(a, b[|a|..]);
    PayloadsAppend(a, b[|a|..], Upd);
  }

  lemma DecPrefix(c: StreamCipher, a: seq<byte>, b: seq<byte>)
    requires a <= b
    ensures DecAt(c, 0, a) <= DecAt(c, 0, b)
  {
    hide DecAt;
    assert b == a + b[|a|..];
    DecSplit(c, 0, a, b[|a|..]);
  }

  /** What one more frame does to the data and the updates received. */
  lemma OneReceived(rx: seq<Frame>, f: Frame)
    ensures Data(rx + [f]) == if f.command.Psh? then Data(rx) + f.payload else Data(rx)
    ensures Updates(rx + [f]) == if f.command.Upd? then Updates(rx) + [f.payload] else Updates(rx)
  {
    hide Data, Payloads;
    DataAppend(rx, [f]);
    PayloadsAppend(rx, [f], Upd);
    DataOne(f);
  }

  /** A report that was received counts bytes that were sent and written, and no fewer than the one before. */
  lemma ReportBound(cfg: Config, peerCfg: Config, c: StreamCipher, v: View, p: View, f: Frame)
    requires EndOk(peerCfg, c, p) && CreditOk(cfg, peerCfg, v, p.history)
    requires v.rx + [f] <= p.tx && p.rx <= v.tx
    ensures |Updates(v.rx + [f])| <= |p.history.reports|
    ensures var known := Last(p.history.reports[..|Updates(v.rx + [f])|]);
            Known(v, p.history) <= known <= |Data(v.tx)| && (!f.command.Upd? ==> known == Known(v, p.history))
    ensures f.command.Upd? ==>
      Reported(peerCfg, f.payload, Last(p.history.reports[..|Updates(v.rx + [f])|]))
  {
    hide Data, Payloads, Updates, EncAt, DecAt, Concat, Reported, SenderOk, ReceivingOk;
    var reports, k := p.history.reports, |Updates(v.rx)|;
    OneReceived(v.rx, f);
    DataPrefix(v.rx + [f], p.tx);
    DataPrefix(p.rx, v.tx);
    if f.command.Upd? {
      assert Updates(p.tx)[k] == f.payload;
      assert Last(reports[..k + 1]) == reports[k];
    }
  }

  /** The counters of the sender after a frame, whether or not it still has the stream. */
  ghost predicate CountersOk(cfg: Config, peerCfg: Config, v: View, peer: History) {
    && |Updates(v.rx)| <= |peer.reports|
    && Known(v, peer) <= |Data(v.tx)|
    && (cfg.version == 2 ==> |Data(v.tx)| - Known(v, peer) <= Credit(peerCfg))
  }

  lemma CountersKept(cfg: Config, peerCfg: Config, c: StreamCipher, v: View, p: View, f: Frame)
    requires EndOk(peerCfg, c, p) && CreditOk(cfg, peerCfg, v, p.history)
    requires v.rx + [f] <= p.tx && p.rx <= v.tx
    ensures CountersOk(cfg, peerCfg, v.(rx := v.rx + [f]), p.history)
  {
    hide Data, Updates, EndOk, Last;
    ReportBound(cfg, peerCfg, c, v, p, f);
  }

  lemma UpdateFields(peerCfg: Config, payload: FramePayload, consumed: nat)
    requires Reported(peerCfg, payload, consumed) && ConfigOk(peerCfg)
    ensures |payload| == SMUX_UPDATE_SIZE
    ensures FromLe32(payload) == Wrap32(consumed)
    ensures FromLe32(payload[4..]) == AtLeastOne(peerCfg.streamBuffer)
  {
    hide Le32, FromLe32;
    var window := AtLeastOne(peerCfg.streamBuffer);
    SmallWrap(window);
    Le32RoundTrip(Wrap32(consumed), Le32(window));
    Le32RoundTrip(window, []);
    assert payload[4..] == Le32(window) + [];
  }

  lemma GoneKeeps(cfg: Config, peerCfg: Config, c: StreamCipher, id: u32, v: View, p: View, f: Frame)
    requires v.stream.None? && !f.command.Syn? && WellFormed(cfg.version, f)
    requires BookOk(cfg, peerCfg, c, v, p.history) && EndOk(peerCfg, c, p)
    requires v.rx + [f] <= p.tx && p.rx <= v.tx
    ensures BookOk(cfg, peerCfg, c, AcceptView(cfg, c, id, v, f), p.history)
  {
    hide Data, Updates, DecAt, EncAt, ReportsOk, Last;
    CountersKept(cfg, peerCfg, c, v, p, f);
    OneReceived(v.rx, f);
    DecPrefix(c, Data(v.rx), Data(v.rx + [f]));
  }

  lemma UpdateKeeps(cfg: Config, peerCfg: Config, c: StreamCipher, id: u32, v: View, p: View, f: Frame)
    requires v.stream.Some? && f.command.Upd? && WellFormed(cfg.version, f) && ConfigOk(peerCfg)
    requires BookOk(cfg, peerCfg, c, v, p.history) && EndOk(peerCfg, c, p)
    requires v.rx + [f] <= p.tx && p.rx <= v.tx
    ensures BookOk(cfg, peerCfg, c, AcceptView(cfg, c, id, v, f), p.history)
  {
    hide Flush, Data, PendingBytes, EncAt, DecAt, Payloads, Concat, WritesOk, Updates, WindowOk, FromLe32, Last, Reported,
      ReportsOk;
    var st, v1 := v.stream.value, v.(rx := v.rx + [f]);
    CountersKept(cfg, peerCfg, c, v, p, f);
    ReportBound(cfg, peerCfg, c, v, p, f);
    OneReceived(v.rx, f);
    var known := Known(v1, p.history);
    UpdateFields(peerCfg, f.payload, known);
    var told := st.(peerConsumed := FromLe32(f.payload), peerWindow := FromLe32(f.payload[4..]));
    FlushKeepsBook(cfg, peerCfg, c, id, v, told, v.history.queued, known);
    var (st', frames) := Flush(cfg, c, id, told);
    assert AcceptView(cfg, c, id, v, f) == View(Some(st'), None, v.history, v.tx + frames, v1.rx);
    ReceivingKept(c, st, st', v.history, Data(v.rx));
  }

  lemma DataKeeps(cfg: Config, peerCfg: Config, c: StreamCipher, id: u32, v: View, p: View, f: Frame)
    requires v.stream.Some? && f.command.Psh? && WellFormed(cfg.version, f)
    requires BookOk(cfg, peerCfg, c, v, p.history) && EndOk(peerCfg, c, p)
    requires v.rx + [f] <= p.tx && p.rx <= v.tx
    ensures BookOk(cfg, peerCfg, c, AcceptView(cfg, c, id, v, f), p.history)
  {
    hide Data, PendingBytes, EncAt, DecAt, Payloads, Concat, WritesOk, Updates, WindowOk, Last, Reported, ReceivingOk;
    var st := v.stream.value;
    OneReceived(v.rx, f);
    DataReceived(c, st, v.history, v.rx, f);
    EnqueuedAll(c, OnData(c, st, f.payload), Delivered(c, st, v.history, f), Data(v.rx + [f]));
    WindowKept(cfg, st, OnData(c, st, f.payload), Known(v, p.history), Granted(peerCfg, v));
    assert v.tx + [] == v.tx;
  }

  lemma EnqueuedAll(c: StreamCipher, st: Stream, h: History, data: seq<byte>)
    requires h.out <= |h.enqueued| && ReceivingOk(c, st, h, data)
    ensures h.enqueued == DecAt(c, 0, data)
  {}

  lemma FinKeeps(cfg: Config, peerCfg: Config, c: StreamCipher, id: u32, v: View, p: View, f: Frame)
    requires v.stream.Some? && !f.command.Psh? && !f.command.Upd? && WellFormed(cfg.version, f)
    requires BookOk(cfg, peerCfg, c, v, p.history)
    ensures BookOk(cfg, peerCfg, c, AcceptView(cfg, c, id, v, f), p.history)
  {
    hide Data, PendingBytes, EncAt, DecAt, Payloads, Concat, WritesOk, Updates, WindowOk, Last, Reported;
    var st := v.stream.value;
    OneReceived(v.rx, f);
    WindowKept(cfg, st, st.(remoteFinReceived := true), Known(v, p.history), Granted(peerCfg, v));
    assert v.tx + [] == v.tx;
  }
}
