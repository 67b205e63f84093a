/** The objects of smux.cpp: a stream and its session, proved against the state functions of SmuxState. */
module Smux {
  import opened Wrappers
  import opened Bytes
  import opened Ciphers
  import opened SmuxFrame
  import opened SmuxState
  import opened SmuxFlush
  import opened SmuxTransport
  import opened SmuxDispatch
  import SnappyStream

  class SmuxStream {
    const id: u32
    var pendingOutbound: seq<Pending>
    var pendingTcpWrites: seq<seq<byte>>
    var numRead: u32
    var numWritten: u32
    var incr: u32
    var peerConsumed: u32
    var peerWindow: u32
    var tcpReady: bool
    var tcpWriteActive: bool
    var localFinSent: bool
    var remoteFinReceived: bool
    var closed: bool
    var encPos: nat
    var decPos: nat

    ghost function State(): Stream
      reads this
    {
      Stream(pendingOutbound, pendingTcpWrites, numRead, numWritten, incr, peerConsumed, peerWindow,
             tcpReady, tcpWriteActive, localFinSent, remoteFinReceived, closed, encPos, decPos)
    }

    ghost predicate Valid()
      reads this
    {
      OffsetsOk(pendingOutbound)
    }

    constructor (id: u32)
      ensures this.id == id && State() == NEW_STREAM && Valid()
    {
      this.id := id;
      pendingOutbound, pendingTcpWrites := [], [];
      numRead, numWritten, incr, peerConsumed, peerWindow := 0, 0, 0, 0, INITIAL_PEER_WINDOW;
      tcpReady, tcpWriteActive, localFinSent, remoteFinReceived, closed := false, false, false, false, false;
      encPos, decPos := 0, 0;
    }

    // ----- sending

    method QueueOutbound(payload: ReadChunk)
      requires Valid()
      modifies this`pendingOutbound
      ensures Valid()
      ensures pendingOutbound ==
              if payload == [] then old(pendingOutbound) else old(pendingOutbound) + [Pending(payload, 0)]
    {
      if payload == [] {
        return;
      }
      pendingOutbound := pendingOutbound + [Pending(payload, 0)];
    }

    method PeerWindow() returns (window: int)
      ensures window == AvailablePeerWindow(State())
    {
      var inflight := (numWritten - peerConsumed) % U32;
      if inflight >= 0x8000_0000 {
        return 0;
      }
      window := peerWindow - inflight;
    }

    /** How much of the front buffer may go into the next frame; nothing when the window is closed. */
    method ChunkSize(cfg: Config) returns (n: nat)
      requires pendingOutbound != [] && pendingOutbound[0].offset <= |pendingOutbound[0].data|
      ensures n == NextChunkSize(cfg, State())
      ensures n <= if cfg.frameSize < 1 then 1 else cfg.frameSize
    {
      hide AvailablePeerWindow;
      var maxFrame := AtLeastOne(cfg.frameSize);
      var allowed := |pendingOutbound[0].data| - pendingOutbound[0].offset;
      if cfg.version == 2 {
        var window := PeerWindow();
        if window <= 0 {
          return 0;
        }
        allowed := Min(allowed, window);
      }
      n := Min(allowed, maxFrame);
    }

    /** Sends n bytes of the front buffer in one frame. */
    method SendFront(session: SmuxSession, n: nat)
      requires Valid() && session.Valid() && pendingOutbound != []
      requires n <= |pendingOutbound[0].data| - pendingOutbound[0].offset
      modifies this`pendingOutbound, this`numWritten, this`encPos, session`wire, session`sent, session.encoder
      ensures Valid() && session.Valid() && State() == SendChunk(old(State()), n)
      ensures session.sent == old(session.sent) + session.Kept([ChunkFrame(session.cipher, id, old(State()), n)])
    {
      hide OffsetsOk, FlushMeasure, SmuxSession.Valid, AvailablePeerWindow;
      ghost var before := State();
      var front := pendingOutbound[0];
      var encrypted := EncAt(session.cipher, encPos, front.data[front.offset..front.offset + n]);
      session.SendFrame(Psh, id, encrypted);
      pendingOutbound := [Pending(front.data, front.offset + n)] + pendingOutbound[1..];
      encPos := encPos + n;
      numWritten := (numWritten + n) % U32;
      assert State() == SendChunk(before, n);
    }

    method TryFlushOutbound(session: SmuxSession)
      requires Valid() && session.Valid()
      modifies this`pendingOutbound, this`numWritten, this`encPos, session`wire, session`sent, session.encoder
      ensures Valid() && session.Valid()
      ensures closed ==> State() == old(State()) && session.sent == old(session.sent)
      ensures !closed ==>
        var r := Flush(session.cfg, session.cipher, id, old(State()));
        && State() == r.0 && session.sent == old(session.sent) + session.Kept(r.1)
        && WellCut(session.cfg, old(pendingOutbound), r.0, r.1)
    {
      hide Flush, EncAt, OffsetsOk, FlushMeasure, SmuxSession.Valid, AvailablePeerWindow, NextChunkSize,
        ChunkFrame, Remains, WellCut;
      if closed {
        return;
      }
      FlushFrames(session.cfg, session.cipher, id, State());
      ghost var cfg, c := session.cfg, session.cipher;
      ghost var whole, gone: seq<Frame> := Flush(cfg, c, id, State()), [];
      RemainsAll(cfg, c, id, State());
      while pendingOutbound != []
        invariant Valid() && session.Valid() && !closed
        invariant Remains(cfg, c, id, whole, gone, State())
        invariant session.sent == old(session.sent) + session.Kept(gone)
        decreases FlushMeasure(pendingOutbound)
      {
        FrontOk(pendingOutbound);
        ghost var before := State();
        if |pendingOutbound[0].data| == pendingOutbound[0].offset {
          RemainsAfterDrop(cfg, c, id, whole, gone, before);
          pendingOutbound := pendingOutbound[1..];
          assert State() == DropFront(before);
          continue;
        }
        var n := ChunkSize(session.cfg);
        if n == 0 {
          RemainsNothing(cfg, c, id, whole, gone, before);
          return;
        }
        RemainsAfterSend(cfg, c, id, whole, gone, before, n);
        SendFront(session, n);
        gone := gone + [ChunkFrame(c, id, before, n)];
      }
      RemainsNothing(cfg, c, id, whole, gone, State());
    }

    /** A completed socket read. */
    method ReadCompleted(session: SmuxSession, payload: ReadChunk)
      requires Valid() && session.Valid()
      modifies this, session`wire, session`sent, session.encoder
      ensures Valid() && session.Valid()
      ensures var r := QueueAndFlush(session.cfg, session.cipher, id, old(State()), payload);
              State() == r.0 && session.sent == old(session.sent) + session.Kept(r.1)
    {
      hide Wire, AllWellFormed, OffsetsOk;
      ghost var before := State();
      assert session.sent + [] == session.sent;
      QueueOutbound(payload);
      assert State() == if payload == [] then before
                        else before.(pendingOutbound := before.pendingOutbound + [Pending(payload, 0)]);
      TryFlushOutbound(session);
    }

    method OnUpdate(session: SmuxSession, consumed: u32, window: u32)
      requires Valid() && session.Valid()
      modifies this, session`wire, session`sent, session.encoder
      ensures Valid() && session.Valid()
      ensures var r := SmuxState.OnUpdate(session.cfg, session.cipher, id, old(State()), consumed, window);
              State() == r.0 && session.sent == old(session.sent) + session.Kept(r.1)
    {
      hide Wire, AllWellFormed, OffsetsOk;
      ghost var before := State();
      assert session.sent + [] == session.sent;
      peerConsumed := consumed;
      peerWindow := window;
      assert State() == before.(peerConsumed := consumed, peerWindow := window);
      TryFlushOutbound(session);
    }

    // ----- receiving

    method FlushTcpWrites()
      modifies this`tcpWriteActive
      ensures State() == FlushTcp(old(State()))
      ensures !closed && tcpReady && pendingTcpWrites != [] ==> tcpWriteActive
    {
      if closed || !tcpReady || tcpWriteActive || pendingTcpWrites == [] {
        return;
      }
      tcpWriteActive := true;
    }

    /** The socket of the stream is connected. */
    method SocketReady()
      modifies this`tcpReady, this`tcpWriteActive
      ensures State() == FlushTcp(old(State()).(tcpReady := true))
      ensures tcpReady && (!closed && pendingTcpWrites != [] ==> tcpWriteActive)
    {
      tcpReady := true;
      FlushTcpWrites();
    }

    method OnData(cipher: StreamCipher, payload: seq<byte>)
      modifies this
      ensures State() == SmuxState.OnData(cipher, old(State()), payload)
      ensures !closed && tcpReady && payload != [] ==> tcpWriteActive
    {
      hide DecAt;
      if closed || payload == [] {
        return;
      }
      var decoded := DecAt(cipher, decPos, payload);
      decPos := decPos + |payload|;
      pendingTcpWrites := pendingTcpWrites + [decoded];
      FlushTcpWrites();
    }

    method MarkPayloadConsumed(session: SmuxSession, bytes: nat)
      requires session.Valid()
      modifies this`numRead, this`incr, session`wire, session`sent, session.encoder
      ensures session.Valid()
      ensures var r := MarkConsumed(session.cfg, id, old(State()), bytes);
              State() == r.0 && session.sent == old(session.sent) + session.Kept(r.1)
    {
      hide Wire, AllWellFormed, UpdatePayload;
      assert session.sent + [] == session.sent;
      if session.cfg.version != 2 || bytes == 0 {
        return;
      }
      numRead := (numRead + bytes) % U32;
      incr := (incr + bytes) % U32;
      if incr >= AtLeastOne(session.cfg.streamBuffer / 2) || numRead == bytes % U32 {
        session.SendUpdate(id, numRead, Wrap32(AtLeastOne(session.cfg.streamBuffer)));
        incr := 0;
      }
    }

    /** A completed socket write: the front buffer has been written. */
    method WriteCompleted(session: SmuxSession)
      requires session.Valid() && pendingTcpWrites != []
      modifies this, session`wire, session`sent, session.encoder
      ensures session.Valid()
      ensures var r := WriteDone(session.cfg, id, old(State()));
              State() == r.0 && session.sent == old(session.sent) + session.Kept(r.1)
      ensures pendingTcpWrites == old(pendingTcpWrites)[1..]
      ensures !closed && tcpReady && pendingTcpWrites != [] ==> tcpWriteActive
    {
      hide MarkConsumed, Wire, AllWellFormed;
      tcpWriteActive := false;
      var bytes := |pendingTcpWrites[0]|;
      pendingTcpWrites := pendingTcpWrites[1..];
      MarkPayloadConsumed(session, bytes);
      FlushTcpWrites();
    }

    /** A failed socket write. */
    method WriteFailed(session: SmuxSession)
      requires session.Valid()
      modifies this, session`wire, session`sent, session.encoder
      ensures session.Valid()
      ensures var r := SmuxState.SendLocalFin(id, old(State()).(tcpWriteActive := false));
              State() == r.0 && session.sent == old(session.sent) + session.Kept(r.1)
    {
      hide Wire, AllWellFormed;
      tcpWriteActive := false;
      SendLocalFin(session);
    }

    /** The session passes a frame on. */
    method OnFrame(session: SmuxSession, f: Frame)
      requires Valid() && session.Valid() && WellFormed(session.cfg.version, f)
      modifies this, session`wire, session`sent, session.encoder
      ensures Valid() && session.Valid() && closed == old(closed)
      ensures var r := Accept(session.cfg, session.cipher, id, old(State()), f);
              State() == r.0 && session.sent == old(session.sent) + session.Kept(r.1)
    {
      hide OffsetsOk, Flush, SmuxState.OnData, SmuxState.OnUpdate, FromLe32, SmuxSession.Valid, WellFormed;
      AcceptKeepsOk(session.cfg, session.cipher, id, State(), f);
      assert session.sent + [] == session.sent;
      match f.command
      case Nop =>
      case Syn =>
      case Fin => OnFin();
      case Psh => OnData(session.cipher, f.payload);
      case Upd =>
        UpdateSize(session.cfg.version, f);
        OnUpdate(session, FromLe32(f.payload), FromLe32(f.payload[4..]));
    }

    // ----- the end of a stream

    method OnFin()
      modifies this`remoteFinReceived
      ensures remoteFinReceived
    {
      if remoteFinReceived {
        return;
      }
      remoteFinReceived := true;
    }

    method SendLocalFin(session: SmuxSession)
      requires session.Valid()
      modifies this`localFinSent, session`wire, session`sent, session.encoder
      ensures session.Valid()
      ensures var r := SmuxState.SendLocalFin(id, old(State()));
              State() == r.0 && session.sent == old(session.sent) + session.Kept(r.1)
    {
      hide Wire, AllWellFormed;
      assert session.sent + [] == session.sent;
      if localFinSent || closed {
        return;
      }
      localFinSent := true;
      session.SendFrame(Fin, id, []);
    }

    /** The stream takes leave of its session. */
    method Close(session: SmuxSession)
      requires session.Valid()
      modifies this, session`wire, session`sent, session`streams, session.encoder
      ensures session.Valid() && closed
      ensures var r := ClosedStream(id, old(State()));
              State() == r.0 && session.sent == old(session.sent) + session.Kept(r.1)
      ensures session.streams == if old(closed) then old(session.streams) else old(session.streams) - {id}
    {
      hide Wire, AllWellFormed;
      assert session.sent + [] == session.sent;
      if closed {
        return;
      }
      SendLocalFin(session);
      closed := true;
      session.StreamClosed(id);
    }
  }

  /** The frames gone so far, and what flushing the stream now would still do, make up the whole. */
  ghost predicate Remains(cfg: Config, c: StreamCipher, id: u32, whole: (Stream, seq<Frame>), gone: seq<Frame>, st: Stream)
    requires OffsetsOk(st.pendingOutbound)
  {
    Flush(cfg, c, id, st).0 == whole.0 && gone + Flush(cfg, c, id, st).1 == whole.1
  }

  lemma RemainsAll(cfg: Config, c: StreamCipher, id: u32, st: Stream)
    requires OffsetsOk(st.pendingOutbound)
    ensures Remains(cfg, c, id, Flush(cfg, c, id, st), [], st)
  {
    hide Flush;
    assert [] + Flush(cfg, c, id, st).1 == Flush(cfg, c, id, st).1;
  }

  lemma RemainsAfterDrop(cfg: Config, c: StreamCipher, id: u32, whole: (Stream, seq<Frame>), gone: seq<Frame>, st: Stream)
    requires OffsetsOk(st.pendingOutbound) && Remains(cfg, c, id, whole, gone, st)
    requires st.pendingOutbound != [] && st.pendingOutbound[0].offset == |st.pendingOutbound[0].data|
    ensures Remains(cfg, c, id, whole, gone, DropFront(st))
  {
    hide AvailablePeerWindow, EncAt;
  }

  lemma RemainsAfterSend(cfg: Config, c: StreamCipher, id: u32, whole: (Stream, seq<Frame>), gone: seq<Frame>, st: Stream,
                         n: nat)
    requires OffsetsOk(st.pendingOutbound) && Remains(cfg, c, id, whole, gone, st)
    requires st.pendingOutbound != [] && st.pendingOutbound[0].offset < |st.pendingOutbound[0].data|
    requires n == NextChunkSize(cfg, st) > 0
    ensures Remains(cfg, c, id, whole, gone + [ChunkFrame(c, id, st, n)], SendChunk(st, n))
  {
    hide AvailablePeerWindow, EncAt, NextChunkSize;
    var rest, frame := Flush(cfg, c, id, SendChunk(st, n)), ChunkFrame(c, id, st, n);
    assert gone + ([frame] + rest.1) == (gone + [frame]) + rest.1;
  }

  lemma RemainsNothing(cfg: Config, c: StreamCipher, id: u32, whole: (Stream, seq<Frame>), gone: seq<Frame>, st: Stream)
    requires OffsetsOk(st.pendingOutbound) && Remains(cfg, c, id, whole, gone, st)
    requires st.pendingOutbound == [] ||
             (st.pendingOutbound[0].offset < |st.pendingOutbound[0].data| && NextChunkSize(cfg, st) == 0)
    ensures whole == (st, gone)
  {
    hide AvailablePeerWindow, EncAt, NextChunkSize;
    assert gone + [] == gone;
  }

  lemma FrontOk(pending: seq<Pending>)
    requires OffsetsOk(pending) && pending != []
    ensures pending[0].offset <= |pending[0].data|
  {}

  ghost function StatesOf(streams: map<u32, SmuxStream>): map<u32, Stream>
    reads streams.Values
  {
    map id | id in streams :: streams[id].State()
  }

  /** Every stream is registered under its own number and open. */
  ghost predicate AllStreamsOk(streams: map<u32, SmuxStream>)
    reads streams.Values
  {
    forall id :: id in streams ==> streams[id].id == id && streams[id].Valid() && !streams[id].closed
  }

  class SmuxSession {
    const cfg: Config
    const cipher: StreamCipher
    const link: Link
    const encoder: SnappyStream.SnappyStreamEncoder
    const decoder: SnappyStream.SnappyStreamDecoder
    var streams: map<u32, SmuxStream>
    var receiveBuffer: seq<byte>
    var nextStreamId: u32
    var closed: bool
    /** The bytes handed to the transport. */
    var wire: seq<byte>
    /** The frames behind them. */
    ghost var sent: seq<Frame>

    /** The bytes on the wire are those of the frames sent. */
    ghost predicate Valid()
      reads this, encoder
    {
      && link.version == cfg.version
      && encoder.lib == link.lib && decoder.lib == link.lib
      && encoder.wroteIdentifier == (!link.nocomp && sent != [])
      && wire == Wire(link, sent)
      && AllWellFormed(cfg.version, sent)
    }

    /** A closed session sends nothing. */
    ghost function Kept(frames: seq<Frame>): seq<Frame>
      reads this
    {
      if closed then [] else frames
    }

    constructor (cfg: Config, cipher: StreamCipher, link: Link, client: bool)
      requires link.version == cfg.version
      ensures Valid() && StreamsOk() && fresh(encoder) && fresh(decoder)
      ensures State() == Session(map[], [], if client then 1 else 0, false, [])
      ensures this.cfg == cfg && this.cipher == cipher && this.link == link
    {
      this.cfg := cfg;
      this.cipher := cipher;
      this.link := link;
      encoder := new SnappyStream.SnappyStreamEncoder(link.lib);
      decoder := new SnappyStream.SnappyStreamDecoder(link.lib);
      streams, receiveBuffer, closed := map[], [], false;
      nextStreamId := if client then 1 else 0;
      wire, sent := [], [];
    }

    /** The session as a value. */
    ghost function State(): Session
      reads this, streams.Values
    {
      Session(StatesOf(streams), receiveBuffer, nextStreamId, closed, sent)
    }

    ghost predicate StreamsOk()
      reads this, streams.Values
    {
      AllStreamsOk(streams)
    }

    // ----- sending

    method SendFrame(command: Command, id: u32, payload: seq<byte>)
      requires Valid() && (command.Upd? ==> cfg.version == 2 && |payload| == SMUX_UPDATE_SIZE)
      modifies this`wire, this`sent, encoder
      ensures Valid()
      ensures sent == if closed || |payload| >= U16 then old(sent) else old(sent) + [Frame(command, id, payload)]
    {
      hide Wire, Concat, SnappyStream.EncodedAll, SnappyStream.Pieces, VersionByte, CommandByte, Le16, Le32;
      if closed || |payload| >= U16 {
        return;
      }
      ghost var f := Frame(command, id, payload);
      var frame := [VersionByte(cfg.version), CommandByte(command)] + Le16(|payload|) + Le32(id) + payload;
      assert frame == EncodedFrame(link.version, f);
      WireAppend(link, sent, f);
      ghost var before := wire;
      sent := sent + [f];
      if link.nocomp {
        wire := wire + frame;
        JustOne(frame);
        return;
      }
      var chunks := encoder.Encode(frame);
      SendChunks(chunks);
    }

    /** Hands the chunks to the transport one by one. */
    method SendChunks(chunks: seq<seq<byte>>)
      modifies this`wire
      ensures wire == old(wire) + Concat(chunks)
    {
      hide Concat;
      assert Concat(chunks[..0]) == [] by { NoParts(chunks); }
      for i := 0 to |chunks|
        invariant wire == old(wire) + Concat(chunks[..i])
      {
        ConcatNext(chunks, i);
        wire := wire + chunks[i];
      }
      assert chunks[..|chunks|] == chunks;
    }

    method SendUpdate(id: u32, consumed: u32, window: u32)
      requires Valid() && cfg.version == 2
      modifies this`wire, this`sent, encoder
      ensures Valid()
      ensures sent == old(sent) + Kept([Frame(Upd, id, UpdatePayload(consumed, window))])
    {
      hide Le32, Wire, AllWellFormed;
      SendFrame(Upd, id, Le32(consumed) + Le32(window));
    }

    // ----- streams

    method StreamClosed(id: u32)
      requires Valid()
      modifies this`streams
      ensures Valid() && streams == old(streams) - {id}
    {
      streams := streams - {id};
    }

    method OpenNewStream() returns (result: Result<SmuxStream>)
      requires Valid() && StreamsOk()
      modifies this, encoder
      ensures Valid() && StreamsOk()
      ensures result.Success? <==> OpenStream(old(State())).Success?
      ensures result.Success? <==> !old(closed) && old(nextStreamId) + 2 < U32
      ensures result.Failure? ==> State() == old(State()) && result.error == OpenStream(old(State())).error
      ensures result.Success? ==>
        && OpenStream(old(State())).value == (result.value.id, State())
        && fresh(result.value) && result.value.State() == NEW_STREAM && result.value.id == old(nextStreamId) + 2
        && sent == old(sent) + [Frame(Syn, result.value.id, [])]
        && result.value.id in streams && (result.value.id !in old(streams) ==> streams[result.value.id] == result.value)
    {
      hide Wire, AllWellFormed, OffsetsOk, StatesOf, AllStreamsOk;
      if closed {
        return Failure("smux session is closed");
      }
      if (nextStreamId + 2) % U32 < nextStreamId {
        return Failure("smux stream id exhausted");
      }
      nextStreamId := nextStreamId + 2;
      var id := nextStreamId;
      var stream := new SmuxStream(id);
      SendFrame(Syn, id, []);
      Emplace(id, stream);
      return Success(stream);
    }

    /** Adds a new stream unless there is one of that number. */
    method Emplace(id: u32, stream: SmuxStream)
      requires Valid() && StreamsOk() && stream.id == id && stream.State() == NEW_STREAM && stream.Valid()
      modifies this`streams
      ensures Valid() && StreamsOk()
      ensures streams == if id in old(streams) then old(streams) else old(streams)[id := stream]
      ensures streams.Values <= old(streams.Values) + {stream}
      ensures StatesOf(streams) == if id in StatesOf(old(streams)) then StatesOf(old(streams))
                                   else StatesOf(old(streams))[id := NEW_STREAM]
    {
      hide OffsetsOk, Wire, AllWellFormed;
      if id !in streams {
        streams := streams[id := stream];
        assert StatesOf(streams) == StatesOf(old(streams))[id := NEW_STREAM];
      }
    }

    /** Every stream is closed, silently since the session already is, and forgotten. */
    method Close()
      requires Valid() && StreamsOk()
      modifies this, encoder, streams.Values
      ensures Valid() && StreamsOk() && closed
      ensures State() == CloseSession(old(State()))
      ensures streams == if old(closed) then old(streams) else map[]
      ensures !old(closed) ==> forall id :: id in old(streams) ==> old(streams)[id].closed
    {
      hide Wire, AllWellFormed, OffsetsOk;
      if closed {
        return;
      }
      closed := true;
      var gone := streams;
      streams := map[];
      CloseAll(gone);
    }

    method CloseAll(gone: map<u32, SmuxStream>)
      requires Valid() && closed && streams == map[]
      modifies this, encoder, gone.Values
      ensures Valid() && closed && streams == map[] && sent == old(sent)
      ensures nextStreamId == old(nextStreamId) && receiveBuffer == old(receiveBuffer)
      ensures forall id :: id in gone ==> gone[id].closed
    {
      hide Valid;
      var ids := gone.Keys;
      while ids != {}
        invariant Valid() && closed && streams == map[] && sent == old(sent)
        invariant nextStreamId == old(nextStreamId) && receiveBuffer == old(receiveBuffer)
        invariant ids <= gone.Keys
        invariant forall id :: id in gone.Keys - ids ==> gone[id].closed
        decreases |ids|
      {
        var id :| id in ids;
        ids := ids - {id};
        gone[id].Close(this);
      }
    }

    // ----- receiving

    /** A frame for a stream that the session has. */
    method Deliver(f: Frame)
      requires Valid() && StreamsOk() && WellFormed(cfg.version, f) && f.id in streams
      modifies this`wire, this`sent, encoder, streams.Values
      ensures Valid() && StreamsOk()
      ensures f.id in StatesOf(old(streams)) && OffsetsOk(old(streams[f.id].pendingOutbound))
      ensures var r := Accept(cfg, cipher, f.id, old(streams[f.id].State()), f);
              && StatesOf(streams) == old(StatesOf(streams))[f.id := r.0]
              && sent == old(sent) + Kept(r.1)
    {
      hide OffsetsOk, Accept, Valid, StatesOf, AllStreamsOk, WellFormed;
      StatesFacts(streams);
      ghost var before := StatesOf(streams);
      streams[f.id].OnFrame(this, f);
      OneChanged(streams, before, f.id);
    }

    /** The dispatch of one complete frame. */
    method Handle(f: Frame)
      requires Valid() && StreamsOk() && WellFormed(cfg.version, f)
      modifies this`streams, this`wire, this`sent, encoder, streams.Values
      ensures Valid() && StreamsOk() && fresh(streams.Values - old(streams.Values))
      ensures SessionOk(old(State())) && State() == HandleFrame(cfg, cipher, old(State()), f)
    {
      hide OffsetsOk, Accept, Valid, StatesOf, AllStreamsOk, WellFormed;
      SameKeys(streams);
      StreamsAreOk();
      if f.command.Nop? {
        return;
      }
      if f.id in streams {
        Deliver(f);
      } else if f.command.Syn? {
        var stream := new SmuxStream(f.id);
        Emplace(f.id, stream);
      }
    }

    /** What is at the front of the receive buffer, checked in the order of the header. */
    method ParseFront() returns (p: Parsed)
      requires |receiveBuffer| >= SMUX_HEADER_SIZE
      ensures p == ParseFrame(cfg.version, receiveBuffer)
    {
      hide FromLe16, FromLe32, VersionByte;
      var length, id := FromLe16(receiveBuffer[2..]), FromLe32(receiveBuffer[4..]);
      if receiveBuffer[0] != VersionByte(cfg.version) {
        return Bad("smux protocol version mismatch");
      }
      if |receiveBuffer| < SMUX_HEADER_SIZE + length {
        return Wait;
      }
      var payload := receiveBuffer[SMUX_HEADER_SIZE..SMUX_HEADER_SIZE + length];
      var command := CommandOf(receiveBuffer[1]);
      match command
      case None => return Bad("invalid smux command");
      case Some(known) =>
        if known.Upd? && (cfg.version != 2 || length != SMUX_UPDATE_SIZE) {
          return Bad("invalid smux update frame");
        }
        return Got(Frame(known, id, payload), SMUX_HEADER_SIZE + length);
    }

    method SetBuffer(buffer: seq<byte>)
      requires Valid()
      modifies this`receiveBuffer
      ensures Valid() && State() == old(State()).(receiveBuffer := buffer)
    {
      receiveBuffer := buffer;
    }

    lemma StreamsAreOk()
      requires StreamsOk()
      ensures SessionOk(State())
    {}

    method ConsumeStreamBytes(bytes: seq<byte>)
      requires Valid() && StreamsOk()
      modifies this, encoder, streams.Values
      ensures Valid() && StreamsOk() && fresh(streams.Values - old(streams.Values))
      ensures SessionOk(old(State())) && State() == Consume(cfg, cipher, old(State()), bytes)
      ensures |old(receiveBuffer)| + |bytes| > (if cfg.smuxBuffer < 1 then 1 else cfg.smuxBuffer) ==> closed
    {
      hide ParseFrame, HandleFrame, Valid, OffsetsOk, Dispatch;
      StreamsAreOk();
      if |receiveBuffer| + |bytes| > Limit(cfg) {
        Close();
        return;
      }
      SetBuffer(receiveBuffer + bytes);
      StreamsAreOk();
      ghost var whole := Dispatch(cfg, cipher, State());
      while !closed && |receiveBuffer| >= SMUX_HEADER_SIZE
        invariant Valid() && StreamsOk() && fresh(streams.Values - old(streams.Values))
        invariant SessionOk(State()) && Dispatch(cfg, cipher, State()) == whole
        decreases |receiveBuffer|
      {
        DispatchStep(cfg, cipher, State());
        var p := ParseFront();
        match p
        case Wait => return;
        case Bad(_) =>
          Close();
          return;
        case Got(f, size) =>
          Handle(f);
          SetBuffer(receiveBuffer[size..]);
          StreamsAreOk();
      }
      DispatchStep(cfg, cipher, State());
    }

    /** The state of the decompressor. */
    ghost function Inflow(): Inbound
      reads decoder
    {
      Inbound(decoder.buffer, decoder.sawIdentifier)
    }

    method OnTransportBytes(bytes: seq<byte>)
      requires Valid() && StreamsOk()
      modifies this, encoder, decoder, streams.Values
      ensures Valid() && StreamsOk()
      ensures SessionOk(old(State()))
      ensures (State(), Inflow()) ==
              SmuxDispatch.OnTransportBytes(cfg, cipher, link, old(State()), old(Inflow()), bytes)
      ensures !old(closed) && bytes != [] && !link.nocomp ==>
        var inbound := old(Inflow());
        SnappyStream.Drain(link.lib, inbound.buffer + bytes, inbound.saw).error.Some? ==> closed
    {
      hide Consume, OffsetsOk, SnappyStream.Drain, Wire, AllWellFormed, StatesOf, AllStreamsOk;
      StreamsAreOk();
      if closed || bytes == [] {
        return;
      }
      if link.nocomp {
        ConsumeStreamBytes(bytes);
        return;
      }
      var decoded := decoder.Decode(bytes);
      match decoded
      case Failure(_) => Close();
      case Success(chunks) => ConsumeChunks(chunks);
    }

    method ConsumeChunks(chunks: seq<seq<byte>>)
      requires Valid() && StreamsOk()
      modifies this, encoder, streams.Values
      ensures Valid() && StreamsOk()
      ensures SessionOk(old(State())) && State() == ConsumeAll(cfg, cipher, old(State()), chunks)
    {
      hide Valid, Consume, OffsetsOk;
      StreamsAreOk();
      ghost var whole := ConsumeAll(cfg, cipher, State(), chunks);
      assert chunks[0..] == chunks;
      for i := 0 to |chunks|
        invariant Valid() && StreamsOk() && fresh(streams.Values - old(streams.Values))
        invariant SessionOk(State()) && ConsumeAll(cfg, cipher, State(), chunks[i..]) == whole
      {
        assert chunks[i..][1..] == chunks[i + 1..];
        ConsumeStreamBytes(chunks[i]);
        StreamsAreOk();
      }
      assert chunks[|chunks|..] == [];
    }
  }

  lemma SameKeys(streams: map<u32, SmuxStream>)
    ensures StatesOf(streams).Keys == streams.Keys
    ensures forall id :: id in streams ==> StatesOf(streams)[id] == streams[id].State()
  {}

  lemma UpdateSize(version: int, f: Frame)
    requires WellFormed(version, f) && f.command.Upd?
    ensures |f.payload| == SMUX_UPDATE_SIZE
  {}

  /** When only one stream has changed, so have the states. */
  lemma OneChanged(streams: map<u32, SmuxStream>, before: map<u32, Stream>, id: u32)
    requires id in streams && before.Keys == streams.Keys
    requires forall i :: i in streams && i != id ==> streams[i].State() == before[i]
    requires forall i :: i in streams ==> streams[i].id == i
    requires forall i :: i in streams ==> OffsetsOk(before[i].pendingOutbound) && !before[i].closed
    requires streams[id].Valid() && !streams[id].closed
    ensures AllStreamsOk(streams)
    ensures StatesOf(streams) == before[id := streams[id].State()]
  {
    hide OffsetsOk;
    assert forall i :: i in streams ==> streams[i].pendingOutbound == streams[i].State().pendingOutbound;
  }

  /** What AllStreamsOk says of the states. */
  lemma StatesFacts(streams: map<u32, SmuxStream>)
    requires AllStreamsOk(streams)
    ensures StatesOf(streams).Keys == streams.Keys
    ensures forall i :: i in streams ==> streams[i].id == i && StatesOf(streams)[i] == streams[i].State()
    ensures forall i :: i in streams ==>
      OffsetsOk(StatesOf(streams)[i].pendingOutbound) && !StatesOf(streams)[i].closed
  {
    hide OffsetsOk;
  }

  lemma JustOne(part: seq<byte>)
    ensures Concat([part]) == part
  {
    assert [part][1..] == [];
  }

  lemma NoParts(parts: seq<seq<byte>>)
    ensures Concat(parts[..0]) == []
  {}

  lemma ConcatNext(parts: seq<seq<byte>>, i: nat)
    requires i < |parts|
    ensures Concat(parts[..i + 1]) == Concat(parts[..i]) + parts[i]
  {
    assert parts[..i + 1] == parts[..i] + [parts[i]];
    ConcatAppend(parts[..i], [parts[i]]);
    JustOne(parts[i]);
  }
}
