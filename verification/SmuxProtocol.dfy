/** One smux stream between its two ends: who opens it, its bytes, its credit. */
module SmuxProtocol {
  import opened Wrappers
  import opened Bytes
  import opened Ciphers
  import opened SmuxFrame
  import opened SmuxState
  import opened SmuxFlush

  /** What has happened at one end of a stream: the bytes read from its socket, the bytes handed over for writing,
      how many of these have been written, and how many had been each time the peer was told. */
  datatype History = History(queued: seq<byte>, enqueued: seq<byte>, out: nat, reports: seq<nat>)

  const NO_HISTORY := History([], [], 0, [])

  /** One end of a stream: its state while it is in the session, what is left of it while a socket write is still under
      way after its close, its history, the frames it sent and received. */
  datatype View = View(stream: Option<Stream>, late: Option<Stream>, history: History, tx: seq<Frame>, rx: seq<Frame>)

  const BLANK := View(None, None, NO_HISTORY, [], [])

  function Updates(frames: seq<Frame>): seq<FramePayload> {
    Payloads(frames, Upd)
  }

  /** The consumption that the last of the reports tells. */
  function Last(reports: seq<nat>): nat {
    if reports == [] then 0 else reports[|reports| - 1]
  }

  /** The largest credit a receiver ever grants. */
  function Credit(cfg: Config): nat {
    if INITIAL_PEER_WINDOW < AtLeastOne(cfg.streamBuffer) then AtLeastOne(cfg.streamBuffer) else INITIAL_PEER_WINDOW
  }

  /** The buffer size is a C++ int. */
  ghost predicate ConfigOk(cfg: Config) {
    cfg.streamBuffer < 0x8000_0000
  }

  // ----- invariants of one end

  /** What was sent is the encryption of what was read so far, up to what is still pending. */
  ghost predicate SenderOk(c: StreamCipher, v: View) {
    var n, queued := |Data(v.tx)|, v.history.queued;
    && n <= |queued|
    && Data(v.tx) == EncAt(c, 0, queued[..n])
    && (v.stream.Some? ==> SendingOk(v.stream.value, queued, n))
  }

  ghost predicate SendingOk(st: Stream, queued: seq<byte>, n: nat)
    requires n <= |queued|
  {
    && !st.closed
    && OffsetsOk(st.pendingOutbound)
    && st.encPos == n
    && PendingBytes(st.pendingOutbound) == queued[n..]
    && st.numWritten == Wrap32(n)
  }

  /** What was handed over is the decryption of what was received. */
  ghost predicate ReceiverOk(c: StreamCipher, v: View) {
    && v.history.enqueued <= DecAt(c, 0, Data(v.rx))
    && v.history.out <= |v.history.enqueued|
    && (v.stream.Some? ==> ReceivingOk(c, v.stream.value, v.history, Data(v.rx)))
  }

  ghost predicate ReceivingOk(c: StreamCipher, st: Stream, h: History, data: seq<byte>)
    requires h.out <= |h.enqueued|
  {
    && h.enqueued == DecAt(c, 0, data)
    && st.decPos == |data|
    && WritingOk(st, h)
  }

  /** What waits for the socket is what was handed over and not yet written. */
  ghost predicate WritingOk(st: Stream, h: History)
    requires h.out <= |h.enqueued|
  {
    && Concat(st.pendingTcpWrites) == h.enqueued[h.out..]
    && WritesOk(st.pendingTcpWrites)
    && (st.tcpWriteActive ==> st.pendingTcpWrites != [])
  }

  ghost predicate WritesOk(writes: seq<seq<byte>>) {
    forall k :: 0 <= k < |writes| ==> 0 < |writes[k]| < U16
  }

  ghost predicate Reported(cfg: Config, payload: FramePayload, consumed: nat) {
    payload == UpdatePayload(Wrap32(consumed), Wrap32(AtLeastOne(cfg.streamBuffer)))
  }

  ghost predicate Nondecreasing(reports: seq<nat>, top: nat) {
    && (forall k :: 0 <= k < |reports| ==> reports[k] <= top)
    && (forall j, k :: 0 <= j <= k < |reports| ==> reports[j] <= reports[k])
  }

  /** The updates sent tell what had been written, never less than before. */
  ghost predicate ReportsOk(cfg: Config, h: History, updates: seq<FramePayload>) {
    && |updates| == |h.reports|
    && (forall k :: 0 <= k < |updates| ==> Reported(cfg, updates[k], h.reports[k]))
    && Nondecreasing(h.reports, h.out)
  }

  /** The counters behind the batching of updates. */
  ghost predicate BatchOk(cfg: Config, st: Stream, h: History) {
    && st.numRead == Wrap32(h.out)
    && st.incr == h.out - Last(h.reports)
    && (st.incr > 0 ==> st.incr < AtLeastOne(cfg.streamBuffer / 2))
    && (h.out > 0 ==> h.reports != [])
  }

  /** A closed stream whose last write may still complete. */
  ghost predicate LateOk(cfg: Config, st: Stream, h: History)
    requires h.out <= |h.enqueued|
  {
    WritingOk(st, h) && st.tcpWriteActive && (cfg.version == 2 ==> BatchOk(cfg, st, h))
  }

  ghost predicate EndOk(cfg: Config, c: StreamCipher, v: View) {
    && AllWellFormed(cfg.version, v.tx)
    && SenderOk(c, v)
    && ReceiverOk(c, v)
    && ReportsOk(cfg, v.history, Updates(v.tx))
    && (cfg.version == 2 && v.stream.Some? ==> BatchOk(cfg, v.stream.value, v.history))
    && (v.late.Some? ==> v.stream.None? && LateOk(cfg, v.late.value, v.history))
  }

  // ----- what ties the two ends

  /** The consumption that the sender knows of. */
  function Known(v: View, peer: History): nat
    requires |Updates(v.rx)| <= |peer.reports|
  {
    Last(peer.reports[..|Updates(v.rx)|])
  }

  /** The window that the last update received grants. */
  function Granted(peerCfg: Config, v: View): nat {
    if Updates(v.rx) == [] then INITIAL_PEER_WINDOW else AtLeastOne(peerCfg.streamBuffer)
  }

  /** The sender stays within the credit, and stops only when the window is closed. */
  ghost predicate CreditOk(cfg: Config, peerCfg: Config, v: View, peer: History) {
    && |Updates(v.rx)| <= |peer.reports|
    && Known(v, peer) <= |Data(v.tx)|
    && (cfg.version == 2 ==> |Data(v.tx)| - Known(v, peer) <= Credit(peerCfg))
    && (v.stream.Some? ==> WindowOk(cfg, v.stream.value, Known(v, peer), Granted(peerCfg, v)))
  }

  ghost predicate WindowOk(cfg: Config, st: Stream, known: nat, window: nat) {
    && st.peerConsumed == Wrap32(known)
    && st.peerWindow == window
    && (st.pendingOutbound != [] ==> cfg.version == 2 && AvailablePeerWindow(st) <= 0)
  }

  ghost predicate NoSyn(frames: seq<Frame>) {
    forall f :: f in frames ==> !f.command.Syn?
  }

  /** The opener starts with a SYN; before that, and before the SYN has come, there is nothing at either end. */
  ghost predicate RolesOk(opener: View, acceptor: View) {
    && (opener.tx == [] ==> opener == BLANK)
    && (opener.tx != [] ==> opener.tx[0].command.Syn? && NoSyn(opener.tx[1..]))
    && (acceptor.rx == [] ==> acceptor == BLANK)
    && NoSyn(acceptor.tx)
  }

  /** Each end has received a prefix of what the other sent. */
  ghost predicate FifoOk(a: View, b: View) {
    a.rx <= b.tx && b.rx <= a.tx
  }

  ghost predicate PairOk(cfgA: Config, cfgB: Config, c: StreamCipher, a: View, b: View) {
    && EndOk(cfgA, c, a) && EndOk(cfgB, c, b)
    && FifoOk(a, b)
    && CreditOk(cfgA, cfgB, a, b.history) && CreditOk(cfgB, cfgA, b, a.history)
  }

  // ----- the steps of one end

  datatype Event =
    | Read(data: ReadChunk)
    | SocketReady
    | WriteDone
    | WriteFailed
    | LocalEnd
    | Close
    | Vanish

  /** The state after an event, or nothing when the stream has left the session, and the frames it sends. */
  function Act(cfg: Config, c: StreamCipher, id: u32, st: Stream, e: Event): (Option<Stream>, seq<Frame>)
    requires OffsetsOk(st.pendingOutbound)
    requires e.WriteDone? ==> st.pendingTcpWrites != []
  {
    match e
    case Read(data) => var (st', frames) := QueueAndFlush(cfg, c, id, st, data); (Some(st'), frames)
    case SocketReady => (Some(FlushTcp(st.(tcpReady := true))), [])
    case WriteDone => var (st', frames) := SmuxState.WriteDone(cfg, id, st); (Some(st'), frames)
    case WriteFailed => var (st', frames) := SendLocalFin(id, st.(tcpWriteActive := false)); (Some(st'), frames)
    case LocalEnd => var (st', frames) := SendLocalFin(id, st); (Some(st'), frames)
    case Close => (None, ClosedStream(id, st).1)
    case Vanish => (None, [])
  }

  /** What is left of a stream after an event: with a write under way a closed stream lives on until that completes. */
  function Lingering(id: u32, st: Stream, e: Event): Option<Stream> {
    if (e.Close? || e.Vanish?) && st.tcpWriteActive then Some(ClosedStream(id, st).0) else None
  }

  /** How an event on a stream extends its history. */
  function Recorded(st: Stream, h: History, e: Event, frames: seq<Frame>): History
    requires e.WriteDone? ==> st.pendingTcpWrites != []
  {
    match e
    case Read(data) => h.(queued := h.queued + data)
    case WriteDone =>
      var out := h.out + |st.pendingTcpWrites[0]|;
      h.(out := out, reports := if frames == [] then h.reports else h.reports + [out])
    case _ => h
  }

  ghost predicate Enabled(st: Stream, e: Event) {
    (e.WriteDone? || e.WriteFailed?) ==> st.tcpWriteActive
  }

  function Delivered(c: StreamCipher, st: Stream, h: History, f: Frame): History {
    if f.command.Psh? && !st.closed then h.(enqueued := h.enqueued + DecAt(c, st.decPos, f.payload)) else h
  }

  function ActView(cfg: Config, c: StreamCipher, id: u32, v: View, e: Event): View
    requires v.stream.Some? && OffsetsOk(v.stream.value.pendingOutbound)
    requires e.WriteDone? ==> v.stream.value.pendingTcpWrites != []
  {
    var (st', frames) := Act(cfg, c, id, v.stream.value, e);
    View(st', Lingering(id, v.stream.value, e), Recorded(v.stream.value, v.history, e, frames), v.tx + frames, v.rx)
  }

  /** The frames of a late write: a closed session sends nothing. */
  function LateFrames(cfg: Config, id: u32, st: Stream, live: bool): seq<Frame>
    requires st.pendingTcpWrites != []
  {
    if live then SmuxState.WriteDone(cfg, id, st).1 else []
  }

  /** The write that was under way when the stream closed has completed. */
  function LateView(cfg: Config, id: u32, v: View, live: bool): View
    requires v.late.Some? && v.late.value.pendingTcpWrites != []
  {
    var frames := LateFrames(cfg, id, v.late.value, live);
    v.(late := None, history := Recorded(v.late.value, v.history, Event.WriteDone, frames), tx := v.tx + frames)
  }

  function OpenView(id: u32, v: View): View {
    v.(stream := Some(NEW_STREAM), tx := v.tx + [Frame(Syn, id, [])])
  }

  function AcceptView(cfg: Config, c: StreamCipher, id: u32, v: View, f: Frame): View
    requires v.stream.Some? ==> OffsetsOk(v.stream.value.pendingOutbound)
    requires WellFormed(cfg.version, f)
  {
    if v.stream.Some? then
      var (st', frames) := Accept(cfg, c, id, v.stream.value, f);
      View(Some(st'), None, Delivered(c, v.stream.value, v.history, f), v.tx + frames, v.rx + [f])
    else
      v.(stream := if f.command.Syn? then Some(NEW_STREAM) else None, rx := v.rx + [f])
  }

  // ----- sending

  lemma InflightIs(n: nat, known: nat)
    requires known <= n && n - known < U32
    ensures Wrap32(Wrap32(n) - Wrap32(known)) == n - known
  {
    var k: int := Wrap32(known);
    WrapOnce(n, -k);
    WrapOnce(n, known);
    hide Wrap32;
    SmallWrap(n - known);
  }

  /** Within half of the number range, the wrapping counters give the window of unbounded counters. */
  lemma WindowExact(st: Stream, n: nat, known: nat)
    requires st.numWritten == Wrap32(n) && st.peerConsumed == Wrap32(known)
    requires known <= n && n - known < 0x8000_0000
    ensures AvailablePeerWindow(st) == st.peerWindow - (n - known)
  {
    hide Wrap32;
    InflightIs(n, known);
  }

  /** Flushing keeps the sender's book: what left is what was queued next. */
  lemma FlushKeepsSending(cfg: Config, c: StreamCipher, id: u32, st: Stream, queued: seq<byte>, tx: seq<Frame>)
    requires |Data(tx)| <= |queued| && SendingOk(st, queued, |Data(tx)|)
    requires Data(tx) == EncAt(c, 0, queued[..|Data(tx)|])
    ensures var (st', frames) := Flush(cfg, c, id, st);
            var n := |Data(tx + frames)|;
            && n == |Data(tx)| + |Data(frames)| <= |queued|
            && SendingOk(st', queued, n)
            && Data(tx + frames) == EncAt(c, 0, queued[..n])
  {
    hide Flush, Data, PendingBytes, EncAt, OnlyData;
    FlushSpec(cfg, c, id, st);
    var (st', frames) := Flush(cfg, c, id, st);
    DataAppend(tx, frames);
    var n, m := |Data(tx)|, |Data(frames)|;
    EncSplit(c, 0, queued[..n], queued[n..][..m]);
    assert queued[..n] + queued[n..][..m] == queued[..n + m];
    assert queued[n..][m..] == queued[n + m..];
    WrapOnce(n, m);
  }

  lemma FlushKeepsCredit(cfg: Config, peerCfg: Config, c: StreamCipher, id: u32, st: Stream, n: nat, known: nat)
    requires OffsetsOk(st.pendingOutbound) && ConfigOk(peerCfg)
    requires st.numWritten == Wrap32(n) && st.peerConsumed == Wrap32(known) && known <= n
    requires cfg.version == 2 ==> n - known <= Credit(peerCfg)
    requires st.peerWindow <= Credit(peerCfg)
    ensures var (st', frames) := Flush(cfg, c, id, st);
            && WindowOk(cfg, st', known, st.peerWindow)
            && (cfg.version == 2 ==> n + |Data(frames)| - known <= Credit(peerCfg))
  {
    hide Flush, Data, PendingBytes, EncAt, OnlyData, AvailablePeerWindow;
    FlushSpec(cfg, c, id, st);
    if cfg.version == 2 {
      WindowExact(st, n, known);
    }
  }

  // ----- receiving

  lemma {:induction false} ConcatSnoc(parts: seq<seq<byte>>, last: seq<byte>)
    ensures Concat(parts + [last]) == Concat(parts) + last
  {
    ConcatAppend(parts, [last]);
    assert Concat([last]) == last + Concat([last][1..]);
  }

  lemma DataReceived(c: StreamCipher, st: Stream, h: History, rx: seq<Frame>, f: Frame)
    requires f.command.Psh? && h.out <= |h.enqueued| && !st.closed
    requires ReceivingOk(c, st, h, Data(rx))
    ensures h.out <= |Delivered(c, st, h, f).enqueued|
    ensures ReceivingOk(c, OnData(c, st, f.payload), Delivered(c, st, h, f), Data(rx + [f]))
  {
    hide Data, DecAt, Concat;
    DataAppend(rx, [f]);
    DataOne(f);
    DecSplit(c, 0, Data(rx), f.payload);
    ConcatSnoc(st.pendingTcpWrites, DecAt(c, st.decPos, f.payload));
    assert Delivered(c, st, h, f).enqueued == h.enqueued + DecAt(c, st.decPos, f.payload);
    assert (h.enqueued + DecAt(c, st.decPos, f.payload))[h.out..] == h.enqueued[h.out..] + DecAt(c, st.decPos, f.payload);
    if f.payload == [] {
      assert DecAt(c, st.decPos, []) == [];
    }
  }

  lemma WritePops(st: Stream, h: History)
    requires st.pendingTcpWrites != [] && h.out <= |h.enqueued|
    requires WritingOk(st, h)
    ensures var out, rest := h.out + |st.pendingTcpWrites[0]|, st.pendingTcpWrites[1..];
            && out <= |h.enqueued|
            && Concat(rest) == h.enqueued[out..]
            && WritesOk(rest)
            && 0 < |st.pendingTcpWrites[0]| < U16
  {
    var first, rest := st.pendingTcpWrites[0], st.pendingTcpWrites[1..];
    assert Concat(st.pendingTcpWrites) == first + Concat(rest);
    assert h.enqueued[h.out + |first|..] == h.enqueued[h.out..][|first|..];
  }

  /** The batching of updates: the peer is told of every byte but for less than half a buffer. */
  lemma MarkKeepsBatch(cfg: Config, id: u32, st: Stream, h: History, bytes: nat)
    requires cfg.version == 2 && 0 < bytes < U16 && ConfigOk(cfg)
    requires BatchOk(cfg, st, h) && Nondecreasing(h.reports, h.out)
    ensures var (st', frames) := MarkConsumed(cfg, id, st, bytes);
            var out := h.out + bytes;
            var h' := h.(out := out, reports := if frames == [] then h.reports else h.reports + [out]);
            && BatchOk(cfg, st', h') && Nondecreasing(h'.reports, out)
            && (frames != [] ==> |frames| == 1 && frames[0].command.Upd? && frames[0].id == id
                                 && |frames[0].payload| == SMUX_UPDATE_SIZE && Reported(cfg, frames[0].payload, out))
  {
    hide UpdatePayload;
    WrapOnce(h.out, bytes);
    SmallWrap(st.incr + bytes);
  }
}
