/** What try_flush_outbound sends, and that the wrapping window test never lets it send more than the window. */
module SmuxFlush {
  import opened Bytes
  import opened Ciphers
  import opened SmuxFrame
  import opened SmuxState

  /** The queued bytes that have not been sent. */
  function PendingBytes(pending: seq<Pending>): seq<byte>
    requires OffsetsOk(pending)
  {
    if pending == [] then [] else pending[0].data[pending[0].offset..] + PendingBytes(pending[1..])
  }

  lemma {:induction false} PendingAppend(pending: seq<Pending>, data: ReadChunk)
    requires OffsetsOk(pending)
    ensures OffsetsOk(pending + [Pending(data, 0)])
    ensures PendingBytes(pending + [Pending(data, 0)]) == PendingBytes(pending) + data
    decreases |pending|
  {
    if pending == [] {
      assert [Pending(data, 0)][1..] == [];
    } else {
      PendingAppend(pending[1..], data);
      assert (pending + [Pending(data, 0)])[1..] == pending[1..] + [Pending(data, 0)];
    }
  }

  /** The payloads of the frames with the given command. */
  function Payloads(frames: seq<Frame>, command: Command): seq<FramePayload> {
    if frames == [] then []
    else (if frames[0].command == command then [frames[0].payload] else []) + Payloads(frames[1..], command)
  }

  lemma {:induction false} PayloadsAppend(a: seq<Frame>, b: seq<Frame>, command: Command)
    ensures Payloads(a + b, command) == Payloads(a, command) + Payloads(b, command)
    decreases |a|
  {
    if a == [] {
      assert a + b == b;
    } else {
      assert (a + b)[1..] == a[1..] + b;
      PayloadsAppend(a[1..], b, command);
    }
  }

  /** The stream bytes that the frames carry. */
  function Data(frames: seq<Frame>): seq<byte> {
    Concat(Payloads(frames, Psh))
  }

  lemma DataAppend(a: seq<Frame>, b: seq<Frame>)
    ensures Data(a + b) == Data(a) + Data(b)
  {
    PayloadsAppend(a, b, Psh);
    ConcatAppend(Payloads(a, Psh), Payloads(b, Psh));
  }

  lemma DataOne(f: Frame)
    ensures Data([f]) == if f.command.Psh? then f.payload else []
    ensures Payloads([f], Upd) == if f.command.Upd? then [f.payload] else []
  {
    assert Payloads([f][1..], Psh) == Payloads([f][1..], Upd) == [];
    if f.command.Psh? {
      assert Payloads([f], Psh) == [f.payload];
      assert Concat([f.payload]) == f.payload + Concat([f.payload][1..]);
    }
  }

  ghost predicate OnlyData(frames: seq<Frame>, id: u32) {
    forall f :: f in frames ==> f.command.Psh? && f.id == id
  }

  /** The in-flight count follows the chunk, in spite of the wrap. */
  lemma InflightGrows(written: int, consumed: int, n: nat)
    requires Wrap32(written - consumed) + n < U32
    ensures Wrap32(Wrap32(written + n) - consumed) == Wrap32(written - consumed) + n
  {
    WrapOnce(written + n, -consumed);
    WrapOnce(written - consumed, n);
    hide Wrap32;
    SmallWrap(Wrap32(written - consumed) + n);
    assert written + n - consumed == written - consumed + n;
  }

  lemma SmallWrap(v: int)
    requires 0 <= v < U32
    ensures Wrap32(v) == v
  {}

  /** One chunk takes at least its own length off the window, even across the sign bit. */
  lemma WindowShrinks(st: Stream, n: nat)
    requires OffsetsOk(st.pendingOutbound) && st.pendingOutbound != []
    requires n <= |st.pendingOutbound[0].data| - st.pendingOutbound[0].offset
    requires 0 < n <= AvailablePeerWindow(st)
    ensures AvailablePeerWindow(SendChunk(st, n)) <= AvailablePeerWindow(st) - n
  {
    hide OffsetsOk, FlushMeasure, Wrap32;
    InflightGrows(st.numWritten, st.peerConsumed, n);
  }

  /** The frames carry the next n queued bytes, encrypted where the stream stood, and nothing but counters moves. */
  ghost predicate Flushed(c: StreamCipher, id: u32, st: Stream, st': Stream, frames: seq<Frame>)
    requires OffsetsOk(st.pendingOutbound) && OffsetsOk(st'.pendingOutbound)
  {
    var n, bytes := |Data(frames)|, PendingBytes(st.pendingOutbound);
    && OnlyData(frames, id)
    && n <= |bytes|
    && Data(frames) == EncAt(c, st.encPos, bytes[..n])
    && PendingBytes(st'.pendingOutbound) == bytes[n..]
    && st' == st.(pendingOutbound := st'.pendingOutbound, numWritten := Wrap32(st.numWritten + n), encPos := st.encPos + n)
  }

  lemma FlushedNothing(c: StreamCipher, id: u32, st: Stream, st': Stream)
    requires OffsetsOk(st.pendingOutbound) && OffsetsOk(st'.pendingOutbound)
    requires st' == st.(pendingOutbound := st'.pendingOutbound)
    requires PendingBytes(st.pendingOutbound) == PendingBytes(st'.pendingOutbound)
    ensures Flushed(c, id, st, st', [])
  {}

  lemma ChunkBytes(st: Stream, n: nat)
    requires OffsetsOk(st.pendingOutbound) && st.pendingOutbound != []
    requires n <= |st.pendingOutbound[0].data| - st.pendingOutbound[0].offset
    ensures var front, bytes := st.pendingOutbound[0], PendingBytes(st.pendingOutbound);
            && n <= |bytes|
            && bytes[..n] == front.data[front.offset..front.offset + n]
            && PendingBytes(SendChunk(st, n).pendingOutbound) == bytes[n..]
  {
    var front, rest := st.pendingOutbound[0], st.pendingOutbound[1..];
    assert SendChunk(st, n).pendingOutbound[1..] == rest;
    var bytes := front.data[front.offset..] + PendingBytes(rest);
    assert bytes[n..] == front.data[front.offset + n..] + PendingBytes(rest);
  }

  lemma ChunkFlushed(c: StreamCipher, id: u32, st: Stream, n: nat)
    requires OffsetsOk(st.pendingOutbound) && st.pendingOutbound != []
    requires n <= |st.pendingOutbound[0].data| - st.pendingOutbound[0].offset
    ensures Flushed(c, id, st, SendChunk(st, n), [ChunkFrame(c, id, st, n)])
    ensures |Data([ChunkFrame(c, id, st, n)])| == n
  {
    hide PendingBytes, EncAt, Data, OffsetsOk, FlushMeasure;
    ChunkBytes(st, n);
    DataOne(ChunkFrame(c, id, st, n));
  }

  /** Sending n bytes and then m more is sending n + m. */
  lemma TakenTwice(c: StreamCipher, pos: nat, bytes: seq<byte>, n: nat, m: nat)
    requires n + m <= |bytes|
    ensures EncAt(c, pos, bytes[..n + m]) == EncAt(c, pos, bytes[..n]) + EncAt(c, pos + n, bytes[n..][..m])
    ensures bytes[n..][m..] == bytes[n + m..]
  {
    hide EncAt;
    EncSplit(c, pos, bytes[..n], bytes[n..][..m]);
    assert bytes[..n] + bytes[n..][..m] == bytes[..n + m];
  }

  lemma OnlyDataBoth(a: seq<Frame>, b: seq<Frame>, id: u32)
    requires OnlyData(a, id) && OnlyData(b, id)
    ensures OnlyData(a + b, id)
  {}

  lemma FlushedTwice(c: StreamCipher, id: u32, st: Stream, mid: Stream, st': Stream, a: seq<Frame>, b: seq<Frame>)
    requires OffsetsOk(st.pendingOutbound) && OffsetsOk(mid.pendingOutbound) && OffsetsOk(st'.pendingOutbound)
    requires Flushed(c, id, st, mid, a) && Flushed(c, id, mid, st', b)
    ensures Flushed(c, id, st, st', a + b)
    ensures |Data(a + b)| == |Data(a)| + |Data(b)|
  {
    hide Data, PendingBytes, EncAt, OffsetsOk, OnlyData, Wrap32;
    DataAppend(a, b);
    OnlyDataBoth(a, b, id);
    TakenTwice(c, st.encPos, PendingBytes(st.pendingOutbound), |Data(a)|, |Data(b)|);
    WrapOnce(st.numWritten + |Data(a)|, |Data(b)|);
  }

  /** try_flush_outbound: what it sends, that it stays within the window, and that it only stops on a closed one. */
  lemma {:induction false} FlushSpec(cfg: Config, c: StreamCipher, id: u32, st: Stream)
    requires OffsetsOk(st.pendingOutbound)
    ensures var (st', frames) := Flush(cfg, c, id, st);
            && Flushed(c, id, st, st', frames)
            && (st'.pendingOutbound != [] ==> cfg.version == 2 && AvailablePeerWindow(st') <= 0)
            && (cfg.version == 2 && |Data(frames)| > 0 ==> |Data(frames)| <= AvailablePeerWindow(st))
    decreases FlushMeasure(st.pendingOutbound)
  {
    hide Data, PendingBytes, EncAt, AvailablePeerWindow, Flushed, OnlyData;
    var pending := st.pendingOutbound;
    if pending == [] {
      FlushedNothing(c, id, st, st);
      assert Data([]) == [] by { NoData(); }
    } else if pending[0].offset == |pending[0].data| {
      var next := DropFront(st);
      FlushSpec(cfg, c, id, next);
      var (st', frames) := Flush(cfg, c, id, next);
      assert PendingBytes(pending) == PendingBytes(pending[1..]) by { PendingDone(pending); }
      FlushedNothing(c, id, st, next);
      FlushedTwice(c, id, st, next, st', [], frames);
      assert [] + frames == frames;
      NoData();
      SameWindow(st, next);
    } else {
      var n := NextChunkSize(cfg, st);
      if n == 0 {
        ZeroChunk(cfg, st);
        FlushedNothing(c, id, st, st);
        NoData();
      } else {
        var next := SendChunk(st, n);
        ChunkFlushed(c, id, st, n);
        FlushSpec(cfg, c, id, next);
        var (st', frames) := Flush(cfg, c, id, next);
        FlushedTwice(c, id, st, next, st', [ChunkFrame(c, id, st, n)], frames);
        if cfg.version == 2 {
          WindowShrinks(st, n);
        }
      }
    }
  }

  lemma NoData()
    ensures Data([]) == []
  {}

  lemma PendingDone(pending: seq<Pending>)
    requires OffsetsOk(pending) && pending != [] && pending[0].offset == |pending[0].data|
    ensures PendingBytes(pending) == PendingBytes(pending[1..])
  {}

  lemma SameWindow(st: Stream, next: Stream)
    requires next == st.(pendingOutbound := next.pendingOutbound)
    ensures AvailablePeerWindow(st) == AvailablePeerWindow(next)
  {}

  lemma ZeroChunk(cfg: Config, st: Stream)
    requires st.pendingOutbound != [] && st.pendingOutbound[0].offset < |st.pendingOutbound[0].data|
    requires NextChunkSize(cfg, st) == 0
    ensures cfg.version == 2 && AvailablePeerWindow(st) <= 0
  {}

  // ----- how long the frames are

  /** The most bytes that one frame takes. */
  function FrameLimit(cfg: Config): nat {
    if cfg.frameSize < 1 then 1 else cfg.frameSize
  }

  /** A frame of stream bytes carries some, and no more than the frame size. */
  predicate FrameFits(cfg: Config, f: Frame) {
    f.command.Psh? ==> 1 <= |f.payload| <= FrameLimit(cfg)
  }

  ghost predicate AllFit(cfg: Config, frames: seq<Frame>) {
    forall f :: f in frames ==> FrameFits(cfg, f)
  }

  /** The first n of the pending bytes are those of whole buffers. */
  ghost predicate EndsBuffer(pending: seq<Pending>, n: nat)
    requires OffsetsOk(pending)
    decreases |pending|
  {
    pending != [] &&
    var rest := |pending[0].data| - pending[0].offset;
    n == rest || (n > rest && EndsBuffer(pending[1..], n - rest))
  }

  /** Frame k is full, or ends its buffer, or is the last because it has used up the window. */
  ghost predicate FullOrLast(cfg: Config, pending: seq<Pending>, st': Stream, frames: seq<Frame>, k: nat)
    requires OffsetsOk(pending) && k < |frames|
  {
    || |frames[k].payload| == FrameLimit(cfg)
    || EndsBuffer(pending, |Data(frames[..k + 1])|)
    || (cfg.version == 2 && k == |frames| - 1 && AvailablePeerWindow(st') <= 0)
  }

  lemma {:induction false} ClosedWindowStops(cfg: Config, c: StreamCipher, id: u32, st: Stream)
    requires OffsetsOk(st.pendingOutbound) && cfg.version == 2 && AvailablePeerWindow(st) <= 0
    ensures Flush(cfg, c, id, st).1 == [] && AvailablePeerWindow(Flush(cfg, c, id, st).0) <= 0
    decreases FlushMeasure(st.pendingOutbound)
  {
    hide EncAt, AvailablePeerWindow;
    if st.pendingOutbound != [] && st.pendingOutbound[0].offset == |st.pendingOutbound[0].data| {
      SameWindow(st, DropFront(st));
      ClosedWindowStops(cfg, c, id, DropFront(st));
    }
  }

  /** The chunk that is sent next is full, or the rest of its buffer, or the whole window. */
  lemma ChunkFull(cfg: Config, st: Stream)
    requires st.pendingOutbound != [] && st.pendingOutbound[0].offset < |st.pendingOutbound[0].data|
    ensures var n, rest := NextChunkSize(cfg, st), |st.pendingOutbound[0].data| - st.pendingOutbound[0].offset;
            n == 0 || n == FrameLimit(cfg) || n == rest || (cfg.version == 2 && n == AvailablePeerWindow(st))
  {
    hide AvailablePeerWindow;
  }

  lemma DataBefore(first: Frame, frames: seq<Frame>, k: nat)
    requires k < |frames| && first.command.Psh?
    ensures |Data(([first] + frames)[..k + 2])| == |first.payload| + |Data(frames[..k + 1])|
  {
    hide Data;
    assert ([first] + frames)[..k + 2] == [first] + frames[..k + 1];
    DataAppend([first], frames[..k + 1]);
    DataOne(first);
  }

  lemma EndsAfterChunk(st: Stream, n: nat, m: nat)
    requires OffsetsOk(st.pendingOutbound) && st.pendingOutbound != []
    requires n <= |st.pendingOutbound[0].data| - st.pendingOutbound[0].offset
    requires EndsBuffer(SendChunk(st, n).pendingOutbound, m)
    ensures EndsBuffer(st.pendingOutbound, n + m)
  {
    hide FlushMeasure, Wrap32;
    assert SendChunk(st, n).pendingOutbound[1..] == st.pendingOutbound[1..];
  }

  lemma LaterFrame(cfg: Config, c: StreamCipher, id: u32, st: Stream, n: nat, st': Stream, frames: seq<Frame>, k: nat)
    requires OffsetsOk(st.pendingOutbound) && st.pendingOutbound != []
    requires n <= |st.pendingOutbound[0].data| - st.pendingOutbound[0].offset
    requires k < |frames| && FullOrLast(cfg, SendChunk(st, n).pendingOutbound, st', frames, k)
    ensures FullOrLast(cfg, st.pendingOutbound, st', [ChunkFrame(c, id, st, n)] + frames, k + 1)
  {
    hide Data, EncAt, EndsBuffer, SendChunk, OffsetsOk, AvailablePeerWindow;
    DataBefore(ChunkFrame(c, id, st, n), frames, k);
    if EndsBuffer(SendChunk(st, n).pendingOutbound, |Data(frames[..k + 1])|) {
      EndsAfterChunk(st, n, |Data(frames[..k + 1])|);
    }
  }

  lemma FirstFrame(cfg: Config, c: StreamCipher, id: u32, st: Stream, n: nat, st': Stream, frames: seq<Frame>)
    requires OffsetsOk(st.pendingOutbound) && st.pendingOutbound != []
    requires st.pendingOutbound[0].offset < |st.pendingOutbound[0].data| && n == NextChunkSize(cfg, st) > 0
    requires (st', frames) == Flush(cfg, c, id, SendChunk(st, n))
    ensures FullOrLast(cfg, st.pendingOutbound, st', [ChunkFrame(c, id, st, n)] + frames, 0)
  {
    hide Data, EncAt, SendChunk, OffsetsOk, AvailablePeerWindow, Flush, NextChunkSize;
    ChunkFull(cfg, st);
    var first := ChunkFrame(c, id, st, n);
    assert ([first] + frames)[..1] == [first];
    DataOne(first);
    if cfg.version == 2 && n == AvailablePeerWindow(st) {
      WindowShrinks(st, n);
      ClosedWindowStops(cfg, c, id, SendChunk(st, n));
    }
  }

  lemma EndsAfterDrop(st: Stream, n: nat)
    requires OffsetsOk(st.pendingOutbound) && st.pendingOutbound != [] && n > 0
    requires st.pendingOutbound[0].offset == |st.pendingOutbound[0].data|
    requires EndsBuffer(DropFront(st).pendingOutbound, n)
    ensures EndsBuffer(st.pendingOutbound, n)
  {}

  /** The frames carry data, fit, and none is shorter without need. */
  ghost predicate WellCut(cfg: Config, pending: seq<Pending>, st': Stream, frames: seq<Frame>)
    requires OffsetsOk(pending)
  {
    && (forall k :: 0 <= k < |frames| ==> frames[k].command.Psh? && FrameFits(cfg, frames[k]))
    && forall k :: 0 <= k < |frames| ==> FullOrLast(cfg, pending, st', frames, k)
  }

  lemma WellCutAfterDrop(cfg: Config, st: Stream, st': Stream, frames: seq<Frame>)
    requires OffsetsOk(st.pendingOutbound) && st.pendingOutbound != []
    requires st.pendingOutbound[0].offset == |st.pendingOutbound[0].data|
    requires WellCut(cfg, DropFront(st).pendingOutbound, st', frames)
    ensures WellCut(cfg, st.pendingOutbound, st', frames)
  {
    hide Data, EndsBuffer, AvailablePeerWindow, OffsetsOk, DropFront;
    forall k | 0 <= k < |frames| ensures FullOrLast(cfg, st.pendingOutbound, st', frames, k) {
      assert FullOrLast(cfg, DropFront(st).pendingOutbound, st', frames, k);
      assert frames[..k + 1] == frames[..k] + [frames[k]];
      DataAppend(frames[..k], [frames[k]]);
      DataOne(frames[k]);
      if EndsBuffer(DropFront(st).pendingOutbound, |Data(frames[..k + 1])|) {
        EndsAfterDrop(st, |Data(frames[..k + 1])|);
      }
    }
  }

  lemma WellCutAfterChunk(cfg: Config, c: StreamCipher, id: u32, st: Stream, n: nat, st': Stream, frames: seq<Frame>)
    requires OffsetsOk(st.pendingOutbound) && st.pendingOutbound != []
    requires st.pendingOutbound[0].offset < |st.pendingOutbound[0].data| && n == NextChunkSize(cfg, st) > 0
    requires (st', frames) == Flush(cfg, c, id, SendChunk(st, n))
    requires WellCut(cfg, SendChunk(st, n).pendingOutbound, st', frames)
    ensures WellCut(cfg, st.pendingOutbound, st', [ChunkFrame(c, id, st, n)] + frames)
  {
    hide FullOrLast, Flush, SendChunk, OffsetsOk, NextChunkSize;
    var all := [ChunkFrame(c, id, st, n)] + frames;
    FirstFrame(cfg, c, id, st, n, st', frames);
    forall k | 0 < k < |all| ensures FullOrLast(cfg, st.pendingOutbound, st', all, k) {
      assert FullOrLast(cfg, SendChunk(st, n).pendingOutbound, st', frames, k - 1);
      LaterFrame(cfg, c, id, st, n, st', frames, k - 1);
    }
  }

  /** No frame is empty or longer than the frame size, and each one shorter than that ends its buffer, or is the last
      because it has used up the window. */
  lemma {:induction false} FlushFrames(cfg: Config, c: StreamCipher, id: u32, st: Stream)
    requires OffsetsOk(st.pendingOutbound)
    ensures WellCut(cfg, st.pendingOutbound, Flush(cfg, c, id, st).0, Flush(cfg, c, id, st).1)
    decreases FlushMeasure(st.pendingOutbound)
  {
    hide WellCut, AvailablePeerWindow, NextChunkSize, EncAt;
    var pending := st.pendingOutbound;
    if pending == [] {
      NothingWellCut(cfg, pending, st);
    } else if pending[0].offset == |pending[0].data| {
      FlushFrames(cfg, c, id, DropFront(st));
      WellCutAfterDrop(cfg, st, Flush(cfg, c, id, DropFront(st)).0, Flush(cfg, c, id, DropFront(st)).1);
    } else {
      var n := NextChunkSize(cfg, st);
      if n > 0 {
        FlushFrames(cfg, c, id, SendChunk(st, n));
        var (st', frames) := Flush(cfg, c, id, SendChunk(st, n));
        WellCutAfterChunk(cfg, c, id, st, n, st', frames);
      } else {
        NothingWellCut(cfg, pending, st);
      }
    }
  }

  lemma NothingWellCut(cfg: Config, pending: seq<Pending>, st': Stream)
    requires OffsetsOk(pending)
    ensures WellCut(cfg, pending, st', [])
  {}

  /** All that a flush sends fits. */
  lemma FlushFits(cfg: Config, c: StreamCipher, id: u32, st: Stream)
    requires OffsetsOk(st.pendingOutbound)
    ensures AllFit(cfg, Flush(cfg, c, id, st).1)
  {
    hide Flush, FullOrLast, FrameFits;
    FlushFrames(cfg, c, id, st);
  }
}
