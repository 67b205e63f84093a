/** The state of smux streams and sessions, and what each handler of smux.cpp does to it. */
module SmuxState {
  import opened Wrappers
  import opened Bytes
  import opened Ciphers
  import opened SmuxFrame

  const INITIAL_PEER_WINDOW: u32 := 262144
  const READ_BUFFER: nat := 32 * 1024

  datatype Config = Config(version: int, frameSize: int, streamBuffer: int, smuxBuffer: int)

  /** A read from the socket, at most one read buffer long. */
  type ReadChunk = bytes: seq<byte> | |bytes| <= READ_BUFFER

  datatype Pending = Pending(data: ReadChunk, offset: nat)

  datatype Stream = Stream(pendingOutbound: seq<Pending>, pendingTcpWrites: seq<seq<byte>>,
                           numRead: u32, numWritten: u32, incr: u32, peerConsumed: u32, peerWindow: u32,
                           tcpReady: bool, tcpWriteActive: bool, localFinSent: bool, remoteFinReceived: bool,
                           closed: bool, encPos: nat, decPos: nat)

  const NEW_STREAM: Stream :=
    Stream([], [], 0, 0, 0, 0, INITIAL_PEER_WINDOW, false, false, false, false, false, 0, 0)

  lemma WrapOnce(a: int, b: int)
    ensures Wrap32(Wrap32(a) + b) == Wrap32(a + b)
    ensures Wrap32(a - Wrap32(b)) == Wrap32(a - b)
  {
    assert a == U32 * (a / U32) + Wrap32(a);
    assert b == U32 * (b / U32) + Wrap32(b);
  }

  function AtLeastOne(v: int): nat {
    if v < 1 then 1 else v
  }

  function Min(a: nat, b: nat): nat {
    if a < b then a else b
  }

  // ----- sending data

  /** The credit the peer has left, from counters that wrap and a check of the sign bit. */
  function AvailablePeerWindow(st: Stream): int {
    var inflight := Wrap32(st.numWritten - st.peerConsumed);
    if inflight >= 0x8000_0000 then 0 else st.peerWindow - inflight
  }

  ghost predicate OffsetsOk(pending: seq<Pending>) {
    forall k :: 0 <= k < |pending| ==> pending[k].offset <= |pending[k].data|
  }

  function FlushMeasure(pending: seq<Pending>): nat
    requires OffsetsOk(pending)
  {
    if pending == [] then 0 else |pending[0].data| - pending[0].offset + 1 + FlushMeasure(pending[1..])
  }

  /** How many bytes the next frame takes, zero when the window is closed. */
  function NextChunkSize(cfg: Config, st: Stream): (n: nat)
    requires st.pendingOutbound != [] && st.pendingOutbound[0].offset <= |st.pendingOutbound[0].data|
    ensures n <= |st.pendingOutbound[0].data| - st.pendingOutbound[0].offset
    ensures n > 0 ==> cfg.version != 2 || n <= AvailablePeerWindow(st)
    ensures n <= if cfg.frameSize < 1 then 1 else cfg.frameSize
  {
    var remaining := |st.pendingOutbound[0].data| - st.pendingOutbound[0].offset;
    var window := AvailablePeerWindow(st);
    if cfg.version == 2 && window <= 0 then 0
    else Min(if cfg.version == 2 then Min(remaining, window) else remaining, AtLeastOne(cfg.frameSize))
  }

  /** The stream after one chunk of n bytes has left. */
  function SendChunk(st: Stream, n: nat): (next: Stream)
    requires OffsetsOk(st.pendingOutbound) && st.pendingOutbound != []
    requires n <= |st.pendingOutbound[0].data| - st.pendingOutbound[0].offset
    ensures OffsetsOk(next.pendingOutbound)
    ensures FlushMeasure(next.pendingOutbound) == FlushMeasure(st.pendingOutbound) - n
  {
    var front := st.pendingOutbound[0];
    var pending := [Pending(front.data, front.offset + n)] + st.pendingOutbound[1..];
    assert pending[1..] == st.pendingOutbound[1..];
    st.(pendingOutbound := pending, numWritten := Wrap32(st.numWritten + n), encPos := st.encPos + n)
  }

  /** The stream after a buffer that has left completely is dropped. */
  function DropFront(st: Stream): (next: Stream)
    requires OffsetsOk(st.pendingOutbound) && st.pendingOutbound != []
    ensures OffsetsOk(next.pendingOutbound)
    ensures FlushMeasure(next.pendingOutbound) < FlushMeasure(st.pendingOutbound)
  {
    st.(pendingOutbound := st.pendingOutbound[1..])
  }

  function ChunkFrame(c: StreamCipher, id: u32, st: Stream, n: nat): Frame
    requires st.pendingOutbound != [] && st.pendingOutbound[0].offset + n <= |st.pendingOutbound[0].data|
  {
    var front := st.pendingOutbound[0];
    Frame(Psh, id, EncAt(c, st.encPos, front.data[front.offset..front.offset + n]))
  }

  /** try_flush_outbound on an open stream of a live session. */
  function Flush(cfg: Config, c: StreamCipher, id: u32, st: Stream): (r: (Stream, seq<Frame>))
    requires OffsetsOk(st.pendingOutbound)
    ensures OffsetsOk(r.0.pendingOutbound)
    decreases FlushMeasure(st.pendingOutbound)
  {
    if st.pendingOutbound == [] then (st, [])
    else if st.pendingOutbound[0].offset == |st.pendingOutbound[0].data| then
      Flush(cfg, c, id, DropFront(st))
    else
      var n := NextChunkSize(cfg, st);
      if n == 0 then (st, [])
      else
        var next := SendChunk(st, n);
        var (st', frames) := Flush(cfg, c, id, next);
        (st', [ChunkFrame(c, id, st, n)] + frames)
  }

  // ----- receiving data

  /** Starts a socket write when there is something to write. */
  function FlushTcp(st: Stream): Stream {
    if st.closed || !st.tcpReady || st.tcpWriteActive || st.pendingTcpWrites == [] then st
    else st.(tcpWriteActive := true)
  }

  function OnData(c: StreamCipher, st: Stream, payload: seq<byte>): Stream {
    if st.closed || payload == [] then st
    else
      FlushTcp(st.(pendingTcpWrites := st.pendingTcpWrites + [DecAt(c, st.decPos, payload)],
                   decPos := st.decPos + |payload|))
  }

  function UpdatePayload(consumed: u32, window: u32): (p: FramePayload)
    ensures |p| == SMUX_UPDATE_SIZE
  {
    Le32(consumed) + Le32(window)
  }

  /** The stream has written bytes to its socket; now and then the peer is told. */
  function MarkConsumed(cfg: Config, id: u32, st: Stream, bytes: nat): (Stream, seq<Frame>) {
    if cfg.version != 2 || bytes == 0 then (st, [])
    else
      var numRead, incr := Wrap32(st.numRead + bytes), Wrap32(st.incr + bytes);
      if incr >= AtLeastOne(cfg.streamBuffer / 2) || numRead == Wrap32(bytes) then
        (st.(numRead := numRead, incr := 0),
         [Frame(Upd, id, UpdatePayload(numRead, Wrap32(AtLeastOne(cfg.streamBuffer))))])
      else (st.(numRead := numRead, incr := incr), [])
  }

  /** A socket write has completed. */
  function WriteDone(cfg: Config, id: u32, st: Stream): (Stream, seq<Frame>)
    requires st.pendingTcpWrites != []
  {
    var popped := st.(tcpWriteActive := false, pendingTcpWrites := st.pendingTcpWrites[1..]);
    var (marked, frames) := MarkConsumed(cfg, id, popped, |st.pendingTcpWrites[0]|);
    (FlushTcp(marked), frames)
  }

  // ----- control

  function SendLocalFin(id: u32, st: Stream): (Stream, seq<Frame>) {
    if st.localFinSent || st.closed then (st, []) else (st.(localFinSent := true), [Frame(Fin, id, [])])
  }

  /** The stream after its close: the end is told once, unless it was before. */
  function ClosedStream(id: u32, st: Stream): (Stream, seq<Frame>) {
    var (told, frames) := SendLocalFin(id, st);
    (told.(closed := true), frames)
  }

  function OnUpdate(cfg: Config, c: StreamCipher, id: u32, st: Stream, consumed: u32, window: u32): (Stream, seq<Frame>)
    requires OffsetsOk(st.pendingOutbound)
  {
    var told := st.(peerConsumed := consumed, peerWindow := window);
    if st.closed then (told, []) else Flush(cfg, c, id, told)
  }

  /** queue_outbound and then try_flush_outbound, as a completed socket read does. */
  function QueueAndFlush(cfg: Config, c: StreamCipher, id: u32, st: Stream, data: ReadChunk): (Stream, seq<Frame>)
    requires OffsetsOk(st.pendingOutbound)
  {
    var queued := if data == [] then st else st.(pendingOutbound := st.pendingOutbound + [Pending(data, 0)]);
    if st.closed then (queued, []) else Flush(cfg, c, id, queued)
  }

  // ----- sessions

  datatype Session = Session(streams: map<u32, Stream>, receiveBuffer: seq<byte>, nextStreamId: u32, closed: bool,
                             sent: seq<Frame>)

  ghost predicate SessionOk(s: Session) {
    forall id :: id in s.streams ==> OffsetsOk(s.streams[id].pendingOutbound) && !s.streams[id].closed
  }

  /** The stream becomes what the handler left, and its frames leave unless the session is closed. */
  function Put(s: Session, id: u32, r: (Stream, seq<Frame>)): Session {
    s.(streams := s.streams[id := r.0], sent := if s.closed then s.sent else s.sent + r.1)
  }

  function OpenStream(s: Session): Result<(u32, Session)> {
    if s.closed then Failure("smux session is closed")
    else if Wrap32(s.nextStreamId + 2) < s.nextStreamId then Failure("smux stream id exhausted")
    else
      var id := s.nextStreamId + 2;
      Success((id, s.(nextStreamId := id, sent := s.sent + [Frame(Syn, id, [])],
                      streams := if id in s.streams then s.streams else s.streams[id := NEW_STREAM])))
  }

  function CloseSession(s: Session): Session {
    if s.closed then s else s.(closed := true, streams := map[])
  }

  /** What a frame does to a stream that the session has. */
  function Accept(cfg: Config, c: StreamCipher, id: u32, st: Stream, f: Frame): (Stream, seq<Frame>)
    requires OffsetsOk(st.pendingOutbound) && WellFormed(cfg.version, f)
  {
    match f.command
    case Nop => (st, [])
    case Syn => (st, [])
    case Fin => (st.(remoteFinReceived := true), [])
    case Psh => (OnData(c, st, f.payload), [])
    case Upd => OnUpdate(cfg, c, id, st, FromLe32(f.payload), FromLe32(f.payload[4..]))
  }

  /** The dispatch of one complete frame. */
  function HandleFrame(cfg: Config, c: StreamCipher, s: Session, f: Frame): Session
    requires SessionOk(s) && WellFormed(cfg.version, f)
  {
    if f.command.Nop? then s
    else if f.id in s.streams then Put(s, f.id, Accept(cfg, c, f.id, s.streams[f.id], f))
    else if f.command.Syn? then s.(streams := s.streams[f.id := NEW_STREAM])
    else s
  }
}
