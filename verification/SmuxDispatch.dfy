/** The receive buffer of a session: dispatching frames from bytes is parsing them all and handling one by one. */
module SmuxDispatch {
  import opened Wrappers
  import opened Bytes
  import opened Ciphers
  import opened SmuxFrame
  import opened SmuxState
  import opened SmuxFlush
  import opened SmuxTransport
  import SnappyStream

  lemma AcceptKeepsOk(cfg: Config, c: StreamCipher, id: u32, st: Stream, f: Frame)
    requires OffsetsOk(st.pendingOutbound) && WellFormed(cfg.version, f)
    ensures OffsetsOk(Accept(cfg, c, id, st, f).0.pendingOutbound)
    ensures Accept(cfg, c, id, st, f).0.closed == st.closed
  {
    hide Flush, OffsetsOk, Data, PendingBytes, EncAt, AvailablePeerWindow;
    if f.command.Upd? && !st.closed {
      var told := st.(peerConsumed := FromLe32(f.payload), peerWindow := FromLe32(f.payload[4..]));
      FlushSpec(cfg, c, id, told);
    }
  }

  lemma HandleKeepsOk(cfg: Config, c: StreamCipher, s: Session, f: Frame)
    requires SessionOk(s) && WellFormed(cfg.version, f)
    ensures SessionOk(HandleFrame(cfg, c, s, f))
    ensures HandleFrame(cfg, c, s, f).closed == s.closed
    ensures HandleFrame(cfg, c, s, f).receiveBuffer == s.receiveBuffer
  {
    hide Accept;
    if f.id in s.streams {
      AcceptKeepsOk(cfg, c, f.id, s.streams[f.id], f);
    }
  }

  lemma ParsedWellFormed(version: int, buffer: seq<byte>)
    requires |buffer| >= SMUX_HEADER_SIZE && ParseFrame(version, buffer).Got?
    ensures WellFormed(version, ParseFrame(version, buffer).frame)
  {
    hide FromLe32, NatOf, VersionByte, CommandOf;
  }

  /** The loop of consume_stream_bytes over the complete frames in the receive buffer. */
  ghost function Dispatch(cfg: Config, c: StreamCipher, s: Session): (r: Session)
    requires SessionOk(s)
    ensures SessionOk(r)
    decreases |s.receiveBuffer|
  {
    hide ParseFrame, HandleFrame, OffsetsOk;
    if s.closed || |s.receiveBuffer| < SMUX_HEADER_SIZE then s
    else
      match ParseFrame(cfg.version, s.receiveBuffer)
      case Wait => s
      case Bad(_) => CloseSession(s)
      case Got(f, size) =>
        ParsedWellFormed(cfg.version, s.receiveBuffer);
        HandleKeepsOk(cfg, c, s, f);
        Dispatch(cfg, c, HandleFrame(cfg, c, s, f).(receiveBuffer := s.receiveBuffer[size..]))
  }

  /** One turn of the loop in terms of the function. */
  lemma DispatchStep(cfg: Config, c: StreamCipher, s: Session)
    requires SessionOk(s)
    ensures s.closed || |s.receiveBuffer| < SMUX_HEADER_SIZE || ParseFrame(cfg.version, s.receiveBuffer).Wait? ==>
      Dispatch(cfg, c, s) == s
    ensures !s.closed && |s.receiveBuffer| >= SMUX_HEADER_SIZE && ParseFrame(cfg.version, s.receiveBuffer).Bad? ==>
      Dispatch(cfg, c, s) == CloseSession(s)
    ensures !s.closed && |s.receiveBuffer| >= SMUX_HEADER_SIZE && ParseFrame(cfg.version, s.receiveBuffer).Got? ==>
      var p := ParseFrame(cfg.version, s.receiveBuffer);
      && WellFormed(cfg.version, p.frame)
      && SessionOk(HandleFrame(cfg, c, s, p.frame).(receiveBuffer := s.receiveBuffer[p.size..]))
      && Dispatch(cfg, c, s) ==
         Dispatch(cfg, c, HandleFrame(cfg, c, s, p.frame).(receiveBuffer := s.receiveBuffer[p.size..]))
  {
    hide ParseFrame, HandleFrame, OffsetsOk, WellFormed;
    if |s.receiveBuffer| >= SMUX_HEADER_SIZE && ParseFrame(cfg.version, s.receiveBuffer).Got? {
      ParsedWellFormed(cfg.version, s.receiveBuffer);
      HandleKeepsOk(cfg, c, s, ParseFrame(cfg.version, s.receiveBuffer).frame);
    }
  }

  function Limit(cfg: Config): nat {
    AtLeastOne(cfg.smuxBuffer)
  }

  /** consume_stream_bytes. */
  ghost function Consume(cfg: Config, c: StreamCipher, s: Session, bytes: seq<byte>): (r: Session)
    requires SessionOk(s)
    ensures SessionOk(r)
  {
    if |s.receiveBuffer| + |bytes| > Limit(cfg) then CloseSession(s)
    else
      Dispatch(cfg, c, s.(receiveBuffer := s.receiveBuffer + bytes))
  }

  ghost function ConsumeAll(cfg: Config, c: StreamCipher, s: Session, chunks: seq<seq<byte>>): (r: Session)
    requires SessionOk(s)
    ensures SessionOk(r)
    decreases |chunks|
  {
    if chunks == [] then s else ConsumeAll(cfg, c, Consume(cfg, c, s, chunks[0]), chunks[1..])
  }

  /** The state of the decompressor. */
  datatype Inbound = Inbound(buffer: seq<byte>, saw: bool)

  /** on_transport_bytes. */
  ghost function OnTransportBytes(cfg: Config, c: StreamCipher, link: Link, s: Session, inbound: Inbound,
                                  bytes: seq<byte>): (r: (Session, Inbound))
    requires SessionOk(s)
    ensures SessionOk(r.0)
  {
    if s.closed || bytes == [] then (s, inbound)
    else if link.nocomp then (Consume(cfg, c, s, bytes), inbound)
    else
      var d := SnappyStream.Drain(link.lib, inbound.buffer + bytes, inbound.saw);
      (if d.error.Some? then CloseSession(s) else ConsumeAll(cfg, c, s, d.out), Inbound(d.rest, d.saw))
  }

  // ----- dispatching is parsing and then handling

  ghost function Handle(cfg: Config, c: StreamCipher, s: Session, frames: seq<Frame>): (r: Session)
    requires SessionOk(s) && AllWellFormed(cfg.version, frames)
    ensures SessionOk(r) && r.closed == s.closed && r.receiveBuffer == s.receiveBuffer
    decreases |frames|
  {
    hide HandleFrame, OffsetsOk, WellFormed;
    if frames == [] then s
    else
      assert frames[0] in frames;
      HandleKeepsOk(cfg, c, s, frames[0]);
      Handle(cfg, c, HandleFrame(cfg, c, s, frames[0]), frames[1..])
  }

  /** Handling a frame does not look at the receive buffer. */
  lemma HandleFrameBuffer(cfg: Config, c: StreamCipher, s: Session, f: Frame, buffer: seq<byte>)
    requires SessionOk(s) && WellFormed(cfg.version, f)
    ensures HandleFrame(cfg, c, s.(receiveBuffer := buffer), f) == HandleFrame(cfg, c, s, f).(receiveBuffer := buffer)
  {
    hide Accept;
  }

  lemma {:induction false} HandleBuffer(cfg: Config, c: StreamCipher, s: Session, frames: seq<Frame>, buffer: seq<byte>)
    requires SessionOk(s) && AllWellFormed(cfg.version, frames)
    ensures Handle(cfg, c, s.(receiveBuffer := buffer), frames) == Handle(cfg, c, s, frames).(receiveBuffer := buffer)
    decreases |frames|
  {
    hide HandleFrame, OffsetsOk, WellFormed;
    if frames != [] {
      assert frames[0] in frames;
      HandleKeepsOk(cfg, c, s, frames[0]);
      HandleFrameBuffer(cfg, c, s, frames[0], buffer);
      HandleBuffer(cfg, c, HandleFrame(cfg, c, s, frames[0]), frames[1..], buffer);
    }
  }

  lemma {:induction false} HandleAppend(cfg: Config, c: StreamCipher, s: Session, a: seq<Frame>, b: seq<Frame>)
    requires SessionOk(s) && AllWellFormed(cfg.version, a + b)
    requires AllWellFormed(cfg.version, a) && AllWellFormed(cfg.version, b)
    ensures Handle(cfg, c, s, a + b) == Handle(cfg, c, Handle(cfg, c, s, a), b)
    decreases |a|
  {
    hide HandleFrame, OffsetsOk, WellFormed;
    if a == [] {
      assert a + b == b;
    } else {
      assert (a + b)[0] in a + b && a[0] in a;
      assert (a + b)[1..] == a[1..] + b;
      HandleKeepsOk(cfg, c, s, a[0]);
      HandleAppend(cfg, c, HandleFrame(cfg, c, s, a[0]), a[1..], b);
    }
  }

  lemma {:induction false} SplitWellFormed(version: int, buffer: seq<byte>)
    ensures AllWellFormed(version, Split(version, buffer).frames)
    decreases |buffer|
  {
    hide ParseFrame, WellFormed, Split;
    SplitUnfold(version, buffer);
    if |buffer| >= SMUX_HEADER_SIZE && ParseFrame(version, buffer).Got? {
      var p := ParseFrame(version, buffer);
      ParsedWellFormed(version, buffer);
      SplitWellFormed(version, buffer[p.size..]);
    }
  }

  /** The interleaved loop does what parsing all frames first and then handling them does; a bad frame closes the
      session after all frames before it have been handled. */
  lemma {:induction false} DispatchIsSplit(cfg: Config, c: StreamCipher, s: Session)
    requires SessionOk(s) && !s.closed
    ensures var p := Split(cfg.version, s.receiveBuffer);
            && AllWellFormed(cfg.version, p.frames)
            && var handled := Handle(cfg, c, s, p.frames).(receiveBuffer := p.rest);
               Dispatch(cfg, c, s) == if p.error.Some? then CloseSession(handled) else handled
    decreases |s.receiveBuffer|
  {
    hide ParseFrame, HandleFrame, Split, OffsetsOk, WellFormed;
    var version, buffer := cfg.version, s.receiveBuffer;
    SplitUnfold(version, buffer);
    SplitWellFormed(version, buffer);
    if |buffer| >= SMUX_HEADER_SIZE && ParseFrame(version, buffer).Got? {
      var p := ParseFrame(version, buffer);
      var rest := Split(version, buffer[p.size..]);
      ParsedWellFormed(version, buffer);
      HandleKeepsOk(cfg, c, s, p.frame);
      var handled := HandleFrame(cfg, c, s, p.frame);
      DispatchIsSplit(cfg, c, handled.(receiveBuffer := buffer[p.size..]));
      HandleBuffer(cfg, c, handled, rest.frames, buffer[p.size..]);
      assert ([p.frame] + rest.frames)[1..] == rest.frames;
    }
  }

  /** A frame that the parser refuses closes the session: an open session stays open exactly if no refused frame comes
      to the front. */
  lemma ClosesOnRefusal(cfg: Config, c: StreamCipher, s: Session)
    requires SessionOk(s) && !s.closed
    ensures Dispatch(cfg, c, s).closed <==>
            var rest := Split(cfg.version, s.receiveBuffer).rest;
            |rest| >= SMUX_HEADER_SIZE && Refused(cfg.version, rest)
  {
    hide Handle, Split, OffsetsOk, WellFormed, Refused, Dispatch;
    DispatchIsSplit(cfg, c, s);
    SplitStops(cfg.version, s.receiveBuffer);
  }

  /** Splitting stops at a refused frame with an error, or at one that is not complete without. */
  lemma {:induction false} SplitStops(version: int, buffer: seq<byte>)
    ensures var p := Split(version, buffer);
            p.error.Some? <==> |p.rest| >= SMUX_HEADER_SIZE && Refused(version, p.rest)
    decreases |buffer|
  {
    hide ParseFrame, Split, Refused;
    SplitUnfold(version, buffer);
    if |buffer| >= SMUX_HEADER_SIZE {
      ParserRefuses(version, buffer);
      if ParseFrame(version, buffer).Got? {
        SplitStops(version, buffer[ParseFrame(version, buffer).size..]);
      }
    }
  }

  // ----- the receive buffer stays small, whatever arrives

  /** An open session holds no more than the configured buffer. */
  ghost predicate WithinBuffer(cfg: Config, s: Session) {
    !s.closed ==> |s.receiveBuffer| <= if cfg.smuxBuffer < 1 then 1 else cfg.smuxBuffer
  }

  lemma {:induction false} DispatchShrinks(cfg: Config, c: StreamCipher, s: Session)
    requires SessionOk(s)
    ensures |Dispatch(cfg, c, s).receiveBuffer| <= |s.receiveBuffer|
    decreases |s.receiveBuffer|
  {
    hide ParseFrame, HandleFrame, OffsetsOk, WellFormed, Dispatch;
    DispatchStep(cfg, c, s);
    if !s.closed && |s.receiveBuffer| >= SMUX_HEADER_SIZE && ParseFrame(cfg.version, s.receiveBuffer).Got? {
      var p := ParseFrame(cfg.version, s.receiveBuffer);
      DispatchShrinks(cfg, c, HandleFrame(cfg, c, s, p.frame).(receiveBuffer := s.receiveBuffer[p.size..]));
    }
  }

  /** Bytes that do not fit the buffer close the session, and none of them is looked at. */
  lemma ConsumeWithin(cfg: Config, c: StreamCipher, s: Session, bytes: seq<byte>)
    requires SessionOk(s)
    ensures WithinBuffer(cfg, Consume(cfg, c, s, bytes))
    ensures |s.receiveBuffer| + |bytes| > (if cfg.smuxBuffer < 1 then 1 else cfg.smuxBuffer) ==>
      Consume(cfg, c, s, bytes) == CloseSession(s)
  {
    hide Dispatch, OffsetsOk;
    DispatchShrinks(cfg, c, s.(receiveBuffer := s.receiveBuffer + bytes));
  }

  lemma {:induction false} ConsumeAllWithin(cfg: Config, c: StreamCipher, s: Session, chunks: seq<seq<byte>>)
    requires SessionOk(s) && WithinBuffer(cfg, s)
    ensures WithinBuffer(cfg, ConsumeAll(cfg, c, s, chunks))
    decreases |chunks|
  {
    hide Consume, OffsetsOk, WithinBuffer;
    if chunks != [] {
      ConsumeWithin(cfg, c, s, chunks[0]);
      ConsumeAllWithin(cfg, c, Consume(cfg, c, s, chunks[0]), chunks[1..]);
    }
  }

  lemma ClosedWithin(cfg: Config, s: Session)
    ensures WithinBuffer(cfg, CloseSession(s))
  {}

  /** One call after another, with whatever bytes. */
  ghost function TakeAll(cfg: Config, c: StreamCipher, link: Link, s: Session, inbound: Inbound, parts: seq<seq<byte>>)
    : (r: (Session, Inbound))
    requires SessionOk(s)
    ensures SessionOk(r.0)
    decreases |parts|
  {
    if parts == [] then (s, inbound)
    else
      var (s', inbound') := OnTransportBytes(cfg, c, link, s, inbound, parts[0]);
      TakeAll(cfg, c, link, s', inbound', parts[1..])
  }

  /** Whatever bytes arrive, however they are cut, an open session never holds more than its buffer. */
  lemma {:induction false} BufferStaysSmall(cfg: Config, c: StreamCipher, link: Link, s: Session, inbound: Inbound,
                                            parts: seq<seq<byte>>)
    requires SessionOk(s) && WithinBuffer(cfg, s)
    ensures WithinBuffer(cfg, TakeAll(cfg, c, link, s, inbound, parts).0)
    decreases |parts|
  {
    hide Consume, ConsumeAll, OffsetsOk, WithinBuffer, SnappyStream.Drain;
    if parts != [] {
      var bytes := parts[0];
      if !s.closed && bytes != [] {
        if link.nocomp {
          ConsumeWithin(cfg, c, s, bytes);
        } else {
          var d := SnappyStream.Drain(link.lib, inbound.buffer + bytes, inbound.saw);
          ClosedWithin(cfg, s);
          ConsumeAllWithin(cfg, c, s, d.out);
        }
      }
      var (s', inbound') := OnTransportBytes(cfg, c, link, s, inbound, bytes);
      BufferStaysSmall(cfg, c, link, s', inbound', parts[1..]);
    }
  }
}
