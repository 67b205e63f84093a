/** Two smux sessions over a reliable channel of frames in each direction: every run keeps every stream's invariant. */
module SmuxSystem {
  import opened Wrappers
  import opened Bytes
  import opened Ciphers
  import opened SmuxFrame
  import opened SmuxState
  import opened SmuxFlush
  import opened SmuxProtocol
  import opened SmuxPair
  import opened SmuxStreamPair

  /** A session, how many of the peer's frames it has handled, what has happened to its streams, and the closed streams
      whose last socket write is still under way. */
  datatype Endpoint = Endpoint(session: Session, handled: nat, history: map<u32, History>, late: map<u32, Stream>)

  datatype World = World(client: Endpoint, server: Endpoint)

  datatype Setup = Setup(clientConfig: Config, serverConfig: Config, cipher: StreamCipher)

  ghost predicate SetupOk(setup: Setup) {
    && setup.clientConfig.version == setup.serverConfig.version
    && ConfigOk(setup.clientConfig) && ConfigOk(setup.serverConfig)
  }

  /** What can happen at one end. */
  datatype Move =
    | Open
    | OnStream(id: u32, e: Event)
    | LateWrite(id: u32)
    | Keepalive
    | Shut
    | Deliver

  // ----- one stream of a session

  /** The frames of one stream. */
  function Only(frames: seq<Frame>, id: u32): seq<Frame> {
    if frames == [] then []
    else (if frames[0].id == id && !frames[0].command.Nop? then [frames[0]] else []) + Only(frames[1..], id)
  }

  lemma {:induction false} OnlyAppend(a: seq<Frame>, b: seq<Frame>, id: u32)
    ensures Only(a + b, id) == Only(a, id) + Only(b, id)
    decreases |a|
  {
    if a == [] {
      assert a + b == b;
    } else {
      assert (a + b)[1..] == a[1..] + b;
      OnlyAppend(a[1..], b, id);
    }
  }

  /** All frames are of the given stream. */
  ghost predicate Of(frames: seq<Frame>, id: u32) {
    forall f :: f in frames ==> f.id == id && !f.command.Nop?
  }

  lemma {:induction false} OnlyOf(frames: seq<Frame>, id: u32, other: u32)
    requires Of(frames, id)
    ensures Only(frames, other) == if other == id then frames else []
    decreases |frames|
  {
    if frames != [] {
      assert frames[0] in frames;
      OnlyOf(frames[1..], id, other);
      assert frames == [frames[0]] + frames[1..];
    }
  }

  function HistoryOf(x: Endpoint, id: u32): History {
    if id in x.history then x.history[id] else NO_HISTORY
  }

  function StreamOf(x: Endpoint, id: u32): Option<Stream> {
    if id in x.session.streams then Some(x.session.streams[id]) else None
  }

  function LateOf(x: Endpoint, id: u32): Option<Stream> {
    if id in x.late then Some(x.late[id]) else None
  }

  function ViewOf(x: Endpoint, y: Endpoint, id: u32): View
    requires x.handled <= |y.session.sent|
  {
    View(StreamOf(x, id), LateOf(x, id), HistoryOf(x, id), Only(x.session.sent, id),
         Only(y.session.sent[..x.handled], id))
  }

  // ----- steps

  function Start(nextStreamId: u32): Endpoint {
    Endpoint(Session(map[], [], nextStreamId, false, []), 0, map[], map[])
  }

  const INITIAL: World := World(Start(1), Start(0))

  ghost predicate MoveOk(x: Endpoint, incoming: seq<Frame>, m: Move) {
    match m
    case Open => OpenStream(x.session).Success?
    case OnStream(id, e) => !e.Vanish? && id in x.session.streams && Enabled(x.session.streams[id], e)
    case LateWrite(id) => id in x.late
    case Keepalive => !x.session.closed
    case Shut => !x.session.closed
    case Deliver => !x.session.closed && x.handled < |incoming|
  }

  /** What the handlers rely on: sound offsets, and something to write while a write is active. */
  ghost predicate Ready(x: Endpoint) {
    && SessionOk(x.session)
    && (forall id :: id in x.session.streams && x.session.streams[id].tcpWriteActive ==>
          x.session.streams[id].pendingTcpWrites != [])
    && (forall id :: id in x.late ==> x.late[id].pendingTcpWrites != [] && id !in x.session.streams)
  }

  ghost predicate EndpointOk(cfg: Config, x: Endpoint, own: nat) {
    && (x.session.closed ==> x.session.streams == map[])
    && x.session.nextStreamId % 2 == own
    && (forall id: u32 :: id > x.session.nextStreamId && id % 2 == own ==> Only(x.session.sent, id) == [])
    && AllWellFormed(cfg.version, x.session.sent)
  }

  /** The invariant of one stream; the parity of its number tells who opens it. */
  ghost predicate StreamInv(cfgX: Config, cfgY: Config, c: StreamCipher, x: Endpoint, y: Endpoint, own: nat, id: u32)
    requires x.handled <= |y.session.sent| && y.handled <= |x.session.sent|
  {
    if id % 2 == own then StreamOk(cfgX, cfgY, c, ViewOf(x, y, id), ViewOf(y, x, id))
    else StreamOk(cfgY, cfgX, c, ViewOf(y, x, id), ViewOf(x, y, id))
  }

  ghost predicate EndsInv(cfgX: Config, cfgY: Config, c: StreamCipher, x: Endpoint, y: Endpoint, own: nat) {
    && x.handled <= |y.session.sent| && y.handled <= |x.session.sent|
    && EndpointOk(cfgX, x, own) && EndpointOk(cfgY, y, 1 - own)
    && forall id: u32 :: StreamInv(cfgX, cfgY, c, x, y, own, id)
  }

  ghost predicate Inv(setup: Setup, w: World) {
    EndsInv(setup.clientConfig, setup.serverConfig, setup.cipher, w.client, w.server, 1)
  }

  /** A stream can be opened exactly while the session is open and there are numbers left. */
  lemma OpenIsPossible(x: Endpoint, incoming: seq<Frame>)
    ensures MoveOk(x, incoming, Open) <==> !x.session.closed && x.session.nextStreamId + 2 < U32
  {
    if x.session.nextStreamId + 2 < U32 {
      SmallWrap(x.session.nextStreamId + 2);
    }
  }

  /** How a frame extends the histories of a session's streams. */
  function HistoryAfter(c: StreamCipher, s: Session, history: map<u32, History>, f: Frame): map<u32, History> {
    if f.id in s.streams && !f.command.Nop? then
      history[f.id := Delivered(c, s.streams[f.id], if f.id in history then history[f.id] else NO_HISTORY, f)]
    else history
  }

  /** The streams of a closing session that a socket write keeps alive. */
  function LateAll(streams: map<u32, Stream>): map<u32, Stream> {
    map id | id in streams && streams[id].tcpWriteActive :: ClosedStream(id, streams[id]).0
  }

  /** An end after a move: its session as the handlers leave it, and its histories. */
  function Moved(cfg: Config, c: StreamCipher, x: Endpoint, incoming: seq<Frame>, m: Move): Endpoint
    requires MoveOk(x, incoming, m) && Ready(x)
    requires m.Deliver? ==> WellFormed(cfg.version, incoming[x.handled])
  {
    match m
    case Open => x.(session := OpenStream(x.session).value.1)
    case OnStream(id, e) =>
      var st := x.session.streams[id];
      var (st', frames) := Act(cfg, c, id, st, e);
      var streams := if st'.Some? then x.session.streams[id := st'.value] else x.session.streams - {id};
      x.(session := x.session.(streams := streams, sent := x.session.sent + frames),
         history := x.history[id := Recorded(st, HistoryOf(x, id), e, frames)],
         late := if Lingering(id, st, e).Some? then x.late[id := Lingering(id, st, e).value] else x.late)
    case LateWrite(id) =>
      var st := x.late[id];
      var frames := LateFrames(cfg, id, st, !x.session.closed);
      x.(session := x.session.(sent := x.session.sent + frames), late := x.late - {id},
         history := x.history[id := Recorded(st, HistoryOf(x, id), Event.WriteDone, frames)])
    case Keepalive => x.(session := x.session.(sent := x.session.sent + [Frame(Nop, 0, [])]))
    case Shut => x.(session := CloseSession(x.session), late := x.late + LateAll(x.session.streams))
    case Deliver =>
      var f := incoming[x.handled];
      x.(session := HandleFrame(cfg, c, x.session, f), handled := x.handled + 1,
         history := HistoryAfter(c, x.session, x.history, f))
  }

  // ----- how a move shows in the views

  lemma FlushOf(cfg: Config, c: StreamCipher, id: u32, st: Stream)
    requires OffsetsOk(st.pendingOutbound)
    ensures Of(Flush(cfg, c, id, st).1, id)
  {
    hide Flush, Data, PendingBytes, EncAt, AvailablePeerWindow;
    FlushSpec(cfg, c, id, st);
  }

  lemma ActOf(cfg: Config, c: StreamCipher, id: u32, st: Stream, e: Event)
    requires OffsetsOk(st.pendingOutbound) && (e.WriteDone? ==> st.pendingTcpWrites != [])
    ensures Of(Act(cfg, c, id, st, e).1, id)
  {
    hide Flush;
    if e.Read? {
      FlushOf(cfg, c, id,
              if e.data == [] then st else st.(pendingOutbound := st.pendingOutbound + [Pending(e.data, 0)]));
    }
  }

  lemma AcceptOf(cfg: Config, c: StreamCipher, id: u32, st: Stream, f: Frame)
    requires OffsetsOk(st.pendingOutbound) && WellFormed(cfg.version, f)
    ensures Of(Accept(cfg, c, id, st, f).1, id)
  {
    hide Flush;
    if f.command.Upd? {
      FlushOf(cfg, c, id, st.(peerConsumed := FromLe32(f.payload), peerWindow := FromLe32(f.payload[4..])));
    }
  }

  /** The frames added at one end do not show at the other until they are handled. */
  lemma PeerView(x: Endpoint, x': Endpoint, y: Endpoint, id: u32)
    requires y.handled <= |x.session.sent| && x.session.sent <= x'.session.sent
    ensures ViewOf(y, x', id) == ViewOf(y, x, id)
  {
    assert x'.session.sent[..y.handled] == x.session.sent[..y.handled];
  }

  lemma SentView(x: Endpoint, x': Endpoint, frames: seq<Frame>, id0: u32, id: u32)
    requires x'.session.sent == x.session.sent + frames && Of(frames, id0)
    ensures Only(x'.session.sent, id) == if id == id0 then Only(x.session.sent, id) + frames else Only(x.session.sent, id)
  {
    OnlyAppend(x.session.sent, frames, id);
    OnlyOf(frames, id0, id);
  }

  lemma ActShows(cfg: Config, c: StreamCipher, x: Endpoint, y: Endpoint, id0: u32, e: Event, id: u32)
    requires MoveOk(x, [], OnStream(id0, e)) && Ready(x)
    requires x.handled <= |y.session.sent|
    ensures var x' := Moved(cfg, c, x, [], OnStream(id0, e));
            && x.session.sent <= x'.session.sent
            && ViewOf(x', y, id) == if id == id0 then ActView(cfg, c, id, ViewOf(x, y, id), e) else ViewOf(x, y, id)
  {
    hide Act, Recorded, Only, Of;
    var st := x.session.streams[id0];
    ActOf(cfg, c, id0, st, e);
    SentView(x, Moved(cfg, c, x, [], OnStream(id0, e)), Act(cfg, c, id0, st, e).1, id0, id);
  }

  lemma OpenShows(cfg: Config, c: StreamCipher, x: Endpoint, y: Endpoint, id: u32)
    requires MoveOk(x, [], Open) && Ready(x) && x.handled <= |y.session.sent|
    requires x.session.nextStreamId + 2 !in x.session.streams
    ensures var x' := Moved(cfg, c, x, [], Open);
            && x.session.sent <= x'.session.sent
            && x'.session.nextStreamId == x.session.nextStreamId + 2
            && ViewOf(x', y, id) ==
               if id == x.session.nextStreamId + 2 then OpenView(id, ViewOf(x, y, id)) else ViewOf(x, y, id)
  {
    hide Only;
    var id0 := x.session.nextStreamId + 2;
    SentView(x, Moved(cfg, c, x, [], Open), [Frame(Syn, id0, [])], id0, id);
  }

  lemma OneMoreHandled(x: Endpoint, y: Endpoint, id: u32)
    requires x.handled < |y.session.sent|
    ensures var f := y.session.sent[x.handled];
            Only(y.session.sent[..x.handled + 1], id) ==
            if f.id == id && !f.command.Nop? then Only(y.session.sent[..x.handled], id) + [f]
            else Only(y.session.sent[..x.handled], id)
  {
    var f := y.session.sent[x.handled];
    assert y.session.sent[..x.handled + 1] == y.session.sent[..x.handled] + [f];
    OnlyAppend(y.session.sent[..x.handled], [f], id);
    assert Only([f], id) == if f.id == id && !f.command.Nop? then [f] else [] by {
      assert Only([f][1..], id) == [];
    }
  }

  lemma DeliverShows(cfg: Config, c: StreamCipher, x: Endpoint, y: Endpoint, id: u32)
    requires MoveOk(x, y.session.sent, Deliver) && Ready(x)
    requires WellFormed(cfg.version, y.session.sent[x.handled])
    ensures var x', f := Moved(cfg, c, x, y.session.sent, Deliver), y.session.sent[x.handled];
            && x.session.sent <= x'.session.sent
            && ViewOf(x', y, id) ==
               if id == f.id && !f.command.Nop? then AcceptView(cfg, c, id, ViewOf(x, y, id), f) else ViewOf(x, y, id)
  {
    hide Only, Accept, Delivered, Of;
    var f := y.session.sent[x.handled];
    OneMoreHandled(x, y, id);
    if f.id in x.session.streams && !f.command.Nop? {
      var st := x.session.streams[f.id];
      AcceptOf(cfg, c, f.id, st, f);
      SentView(x, Moved(cfg, c, x, y.session.sent, Deliver), Accept(cfg, c, f.id, st, f).1, f.id, id);
    }
  }

  lemma KeepaliveShows(x: Endpoint, x': Endpoint, y: Endpoint, id: u32)
    requires x.handled <= |y.session.sent|
    requires x' == x.(session := x.session.(sent := x.session.sent + [Frame(Nop, 0, [])]))
    ensures ViewOf(x', y, id) == ViewOf(x, y, id)
  {
    OnlyAppend(x.session.sent, [Frame(Nop, 0, [])], id);
    assert Only([Frame(Nop, 0, [])], id) == [] by {
      assert Only([Frame(Nop, 0, [])][1..], id) == [];
    }
  }

  // ----- every move keeps every stream

  lemma EndsBook(cfgX: Config, cfgY: Config, c: StreamCipher, x: Endpoint, y: Endpoint, own: nat, id: u32)
    requires x.handled <= |y.session.sent| && y.handled <= |x.session.sent|
    requires StreamInv(cfgX, cfgY, c, x, y, own, id)
    ensures EndOk(cfgX, c, ViewOf(x, y, id))
    ensures id % 2 == own && (id in x.session.streams || id in x.late) ==> Only(x.session.sent, id) != []
  {
    hide Only, EndOk, CreditOk;
  }

  lemma StreamReady(cfgX: Config, cfgY: Config, c: StreamCipher, x: Endpoint, y: Endpoint, own: nat, id: u32)
    requires x.handled <= |y.session.sent| && y.handled <= |x.session.sent|
    requires StreamInv(cfgX, cfgY, c, x, y, own, id) && id in x.session.streams
    ensures OffsetsOk(x.session.streams[id].pendingOutbound) && !x.session.streams[id].closed
    ensures x.session.streams[id].tcpWriteActive ==> x.session.streams[id].pendingTcpWrites != []
    ensures id !in x.late
    ensures id % 2 == own ==> Only(x.session.sent, id) != []
  {
    hide Only, EndOk, StreamInv;
    EndsBook(cfgX, cfgY, c, x, y, own, id);
    var v := ViewOf(x, y, id);
    StreamFields(cfgX, c, v);
    if v.late.Some? {
      LateFields(cfgX, c, v);
    }
  }

  lemma LateReady(cfgX: Config, cfgY: Config, c: StreamCipher, x: Endpoint, y: Endpoint, own: nat, id: u32)
    requires x.handled <= |y.session.sent| && y.handled <= |x.session.sent|
    requires StreamInv(cfgX, cfgY, c, x, y, own, id) && id in x.late
    ensures x.late[id].pendingTcpWrites != []
    ensures id % 2 == own ==> Only(x.session.sent, id) != []
  {
    hide Only, EndOk, StreamInv;
    EndsBook(cfgX, cfgY, c, x, y, own, id);
    LateFields(cfgX, c, ViewOf(x, y, id));
  }

  lemma EndsReady(cfgX: Config, cfgY: Config, c: StreamCipher, x: Endpoint, y: Endpoint, own: nat)
    requires EndsInv(cfgX, cfgY, c, x, y, own)
    ensures Ready(x)
  {
    hide StreamInv, EndpointOk, OffsetsOk, Only;
    forall id | id in x.session.streams
      ensures OffsetsOk(x.session.streams[id].pendingOutbound) && !x.session.streams[id].closed && id !in x.late
      ensures x.session.streams[id].tcpWriteActive ==> x.session.streams[id].pendingTcpWrites != []
    {
      StreamReady(cfgX, cfgY, c, x, y, own, id);
    }
    forall id | id in x.late ensures x.late[id].pendingTcpWrites != [] {
      LateReady(cfgX, cfgY, c, x, y, own, id);
    }
  }

  /** A stream whose views have not changed keeps its invariant. */
  lemma Untouched(cfgX: Config, cfgY: Config, c: StreamCipher, x: Endpoint, x': Endpoint, y: Endpoint, own: nat, id: u32)
    requires x.handled <= |y.session.sent| && y.handled <= |x.session.sent|
    requires x'.handled <= |y.session.sent| && x.session.sent <= x'.session.sent
    requires ViewOf(x', y, id) == ViewOf(x, y, id) && StreamInv(cfgX, cfgY, c, x, y, own, id)
    ensures StreamInv(cfgX, cfgY, c, x', y, own, id)
  {
    hide ViewOf, StreamOk;
    PeerView(x, x', y, id);
  }

  lemma EventKeepsStream(cfgX: Config, cfgY: Config, c: StreamCipher, x: Endpoint, y: Endpoint, own: nat,
                         id0: u32, e: Event, id: u32)
    requires ConfigOk(cfgX) && ConfigOk(cfgY) && EndsInv(cfgX, cfgY, c, x, y, own) && Ready(x)
    requires MoveOk(x, [], OnStream(id0, e))
    ensures x.session.sent <= Moved(cfgX, c, x, [], OnStream(id0, e)).session.sent
    ensures StreamInv(cfgX, cfgY, c, Moved(cfgX, c, x, [], OnStream(id0, e)), y, own, id)
  {
    hide StreamOk, Act, Recorded, Only, EndpointOk, Moved, OffsetsOk;
    var x' := Moved(cfgX, c, x, [], OnStream(id0, e));
    EventKeepsHandled(cfgX, c, x, id0, e);
    ActShows(cfgX, c, x, y, id0, e, id);
    assert StreamInv(cfgX, cfgY, c, x, y, own, id);
    if id == id0 {
      PeerView(x, x', y, id);
      if id % 2 == own {
        OpenerActs(cfgX, cfgY, c, id, ViewOf(x, y, id), ViewOf(y, x, id), e);
      } else {
        AcceptorActs(cfgY, cfgX, c, id, ViewOf(y, x, id), ViewOf(x, y, id), e);
      }
    } else {
      Untouched(cfgX, cfgY, c, x, x', y, own, id);
    }
  }

  lemma EventKeepsHandled(cfg: Config, c: StreamCipher, x: Endpoint, id: u32, e: Event)
    requires MoveOk(x, [], OnStream(id, e)) && Ready(x)
    ensures Moved(cfg, c, x, [], OnStream(id, e)).handled == x.handled
    ensures Moved(cfg, c, x, [], OnStream(id, e)).session.nextStreamId == x.session.nextStreamId
    ensures Moved(cfg, c, x, [], OnStream(id, e)).session.closed == x.session.closed
  {
    hide Act, Recorded;
  }

  lemma OpenKeepsStream(cfgX: Config, cfgY: Config, c: StreamCipher, x: Endpoint, y: Endpoint, own: nat, id: u32)
    requires EndsInv(cfgX, cfgY, c, x, y, own) && Ready(x) && MoveOk(x, [], Open)
    ensures x.session.sent <= Moved(cfgX, c, x, [], Open).session.sent
    ensures StreamInv(cfgX, cfgY, c, Moved(cfgX, c, x, [], Open), y, own, id)
  {
    hide StreamOk, Only, OffsetsOk;
    var x', id0 := Moved(cfgX, c, x, [], Open), x.session.nextStreamId + 2;
    NextIsFree(cfgX, cfgY, c, x, y, own);
    OpenShows(cfgX, c, x, y, id);
    assert StreamInv(cfgX, cfgY, c, x, y, own, id);
    if id == id0 {
      PeerView(x, x', y, id);
      OpenerOpens(cfgX, cfgY, c, id, ViewOf(x, y, id), ViewOf(y, x, id));
    } else {
      Untouched(cfgX, cfgY, c, x, x', y, own, id);
    }
  }

  /** The number that open_stream takes has never been used. */
  lemma NextIsFree(cfgX: Config, cfgY: Config, c: StreamCipher, x: Endpoint, y: Endpoint, own: nat)
    requires EndsInv(cfgX, cfgY, c, x, y, own) && MoveOk(x, [], Open)
    ensures (x.session.nextStreamId + 2) % 2 == own && Only(x.session.sent, x.session.nextStreamId + 2) == []
    ensures x.session.nextStreamId + 2 !in x.session.streams
  {
    hide Only, StreamInv;
    var id0 := x.session.nextStreamId + 2;
    assert StreamInv(cfgX, cfgY, c, x, y, own, id0);
    if id0 in x.session.streams {
      StreamReady(cfgX, cfgY, c, x, y, own, id0);
    }
  }

  lemma NextReceived(x: Endpoint, y: Endpoint, id: u32)
    requires x.handled < |y.session.sent|
    requires y.session.sent[x.handled].id == id && !y.session.sent[x.handled].command.Nop?
    ensures Only(y.session.sent[..x.handled], id) + [y.session.sent[x.handled]] <= Only(y.session.sent, id)
  {
    var sent := y.session.sent;
    OneMoreHandled(x, y, id);
    assert sent == sent[..x.handled + 1] + sent[x.handled + 1..];
    OnlyAppend(sent[..x.handled + 1], sent[x.handled + 1..], id);
  }

  lemma DeliverKeepsStream(cfgX: Config, cfgY: Config, c: StreamCipher, x: Endpoint, y: Endpoint, own: nat, id: u32)
    requires ConfigOk(cfgX) && ConfigOk(cfgY) && cfgX.version == cfgY.version
    requires EndsInv(cfgX, cfgY, c, x, y, own) && Ready(x) && MoveOk(x, y.session.sent, Deliver)
    requires WellFormed(cfgX.version, y.session.sent[x.handled])
    ensures x.session.sent <= Moved(cfgX, c, x, y.session.sent, Deliver).session.sent
    ensures StreamInv(cfgX, cfgY, c, Moved(cfgX, c, x, y.session.sent, Deliver), y, own, id)
  {
    hide StreamOk, Only, OffsetsOk, EndpointOk, AcceptView, WellFormed, HandleFrame, Delivered;
    var x', f := Moved(cfgX, c, x, y.session.sent, Deliver), y.session.sent[x.handled];
    DeliverShows(cfgX, c, x, y, id);
    assert StreamInv(cfgX, cfgY, c, x, y, own, id);
    if id == f.id && !f.command.Nop? {
      PeerView(x, x', y, id);
      NextReceived(x, y, id);
      if id % 2 == own {
        OpenerAccepts(cfgX, cfgY, c, id, ViewOf(x, y, id), ViewOf(y, x, id), f);
      } else {
        AcceptorAccepts(cfgY, cfgX, c, id, ViewOf(y, x, id), ViewOf(x, y, id), f);
      }
    } else {
      Untouched(cfgX, cfgY, c, x, x', y, own, id);
    }
  }

  lemma ShutShows(cfg: Config, c: StreamCipher, x: Endpoint, y: Endpoint, id: u32)
    requires MoveOk(x, [], Shut) && Ready(x) && x.handled <= |y.session.sent|
    ensures var x', v := Moved(cfg, c, x, [], Shut), ViewOf(x, y, id);
            ViewOf(x', y, id) == if id in x.session.streams then ActView(cfg, c, id, v, Vanish) else v
  {
    hide Only, OffsetsOk;
    var v := ViewOf(x, y, id);
    assert v.tx + [] == v.tx;
  }

  lemma ShutKeepsStream(cfgX: Config, cfgY: Config, c: StreamCipher, x: Endpoint, y: Endpoint, own: nat, id: u32)
    requires ConfigOk(cfgX) && ConfigOk(cfgY) && EndsInv(cfgX, cfgY, c, x, y, own) && Ready(x) && MoveOk(x, [], Shut)
    ensures StreamInv(cfgX, cfgY, c, Moved(cfgX, c, x, [], Shut), y, own, id)
  {
    hide StreamOk, Only, EndpointOk, ViewOf, OffsetsOk;
    var x', v := Moved(cfgX, c, x, [], Shut), ViewOf(x, y, id);
    PeerView(x, x', y, id);
    ShutShows(cfgX, c, x, y, id);
    assert StreamInv(cfgX, cfgY, c, x, y, own, id);
    if id in x.session.streams {
      StreamIn(x, y, id);
      if id % 2 == own {
        OpenerActs(cfgX, cfgY, c, id, v, ViewOf(y, x, id), Vanish);
      } else {
        AcceptorActs(cfgY, cfgX, c, id, ViewOf(y, x, id), v, Vanish);
      }
    }
  }

  lemma StreamIn(x: Endpoint, y: Endpoint, id: u32)
    requires x.handled <= |y.session.sent|
    ensures id in x.session.streams ==> ViewOf(x, y, id).stream == Some(x.session.streams[id])
    ensures id in x.late ==> ViewOf(x, y, id).late == Some(x.late[id])
  {
    hide Only;
  }

  lemma LateOfFrames(cfg: Config, id: u32, st: Stream, live: bool)
    requires st.pendingTcpWrites != []
    ensures Of(LateFrames(cfg, id, st, live), id)
  {
    hide UpdatePayload;
  }

  lemma LateShows(cfg: Config, c: StreamCipher, x: Endpoint, y: Endpoint, id0: u32, id: u32)
    requires MoveOk(x, [], LateWrite(id0)) && Ready(x) && x.handled <= |y.session.sent|
    ensures var x', v := Moved(cfg, c, x, [], LateWrite(id0)), ViewOf(x, y, id);
            && x.session.sent <= x'.session.sent
            && ViewOf(x', y, id) == if id == id0 then LateView(cfg, id, v, !x.session.closed) else v
  {
    hide Only, OffsetsOk, LateFrames, Recorded, Of;
    var frames := LateFrames(cfg, id0, x.late[id0], !x.session.closed);
    LateOfFrames(cfg, id0, x.late[id0], !x.session.closed);
    SentView(x, Moved(cfg, c, x, [], LateWrite(id0)), frames, id0, id);
  }

  lemma LateKeepsStream(cfgX: Config, cfgY: Config, c: StreamCipher, x: Endpoint, y: Endpoint, own: nat, id0: u32,
                        id: u32)
    requires ConfigOk(cfgX) && ConfigOk(cfgY) && EndsInv(cfgX, cfgY, c, x, y, own) && Ready(x)
    requires MoveOk(x, [], LateWrite(id0))
    ensures x.session.sent <= Moved(cfgX, c, x, [], LateWrite(id0)).session.sent
    ensures StreamInv(cfgX, cfgY, c, Moved(cfgX, c, x, [], LateWrite(id0)), y, own, id)
  {
    hide StreamOk, Only, EndpointOk, ViewOf, OffsetsOk, LateFrames, Recorded, LateView;
    var x', v, live := Moved(cfgX, c, x, [], LateWrite(id0)), ViewOf(x, y, id), !x.session.closed;
    LateShows(cfgX, c, x, y, id0, id);
    assert StreamInv(cfgX, cfgY, c, x, y, own, id);
    if id == id0 {
      PeerView(x, x', y, id);
      StreamIn(x, y, id);
      if id % 2 == own {
        OpenerWritesLate(cfgX, cfgY, c, id, v, ViewOf(y, x, id), live);
      } else {
        AcceptorWritesLate(cfgY, cfgX, c, id, ViewOf(y, x, id), v, live);
      }
    } else {
      Untouched(cfgX, cfgY, c, x, x', y, own, id);
    }
  }

  // ----- every move keeps the ends

  lemma {:induction false} InOnly(frames: seq<Frame>, f: Frame)
    requires f in frames && !f.command.Nop?
    ensures f in Only(frames, f.id)
    decreases |frames|
  {
    if frames[0] != f {
      InOnly(frames[1..], f);
    }
  }

  /** The frames of a session are well formed because those of its streams are. */
  lemma SentIsWellFormed(cfgX: Config, cfgY: Config, c: StreamCipher, x: Endpoint, y: Endpoint, own: nat)
    requires x.handled <= |y.session.sent| && y.handled <= |x.session.sent|
    requires forall id: u32 :: StreamInv(cfgX, cfgY, c, x, y, own, id)
    ensures AllWellFormed(cfgX.version, x.session.sent)
  {
    hide Only, SenderOk, ReceiverOk, ReportsOk, BatchOk, CreditOk, RolesOk;
    forall f | f in x.session.sent ensures WellFormed(cfgX.version, f) {
      if !f.command.Nop? {
        InOnly(x.session.sent, f);
        assert StreamInv(cfgX, cfgY, c, x, y, own, f.id);
        assert AllWellFormed(cfgX.version, ViewOf(x, y, f.id).tx);
      }
    }
  }

  /** The session has the stream, or had it until a moment ago, or is opening it. */
  ghost predicate Has(x: Endpoint, x': Endpoint, id: u32) {
    id in x.session.streams || id in x.late || id == x'.session.nextStreamId
  }

  /** The frames that a move sends are those of one stream. */
  ghost predicate Sends(x: Endpoint, x': Endpoint) {
    || x'.session.sent == x.session.sent
    || x'.session.sent == x.session.sent + [Frame(Nop, 0, [])]
    || (exists id: u32, frames :: Has(x, x', id) && Of(frames, id) && x'.session.sent == x.session.sent + frames)
  }

  lemma SendsThese(x: Endpoint, x': Endpoint, id: u32, frames: seq<Frame>)
    requires Has(x, x', id) && Of(frames, id) && x'.session.sent == x.session.sent + frames
    ensures Sends(x, x')
  {
    hide Has, Of;
  }

  lemma MoveSends(cfg: Config, c: StreamCipher, x: Endpoint, incoming: seq<Frame>, m: Move)
    requires MoveOk(x, incoming, m) && Ready(x) && (m.Deliver? ==> WellFormed(cfg.version, incoming[x.handled]))
    ensures Sends(x, Moved(cfg, c, x, incoming, m))
  {
    hide Act, Recorded, Accept, Delivered, OffsetsOk, WellFormed, Of, LateFrames, Lingering, HistoryAfter, LateAll;
    var x' := Moved(cfg, c, x, incoming, m);
    if m.OnStream? {
      var st := x.session.streams[m.id];
      ActOf(cfg, c, m.id, st, m.e);
      SendsThese(x, x', m.id, Act(cfg, c, m.id, st, m.e).1);
    } else if m.Open? {
      SynOf(x'.session.nextStreamId);
      SendsThese(x, x', x'.session.nextStreamId, [Frame(Syn, x'.session.nextStreamId, [])]);
    } else if m.Deliver? {
      DeliverSends(cfg, c, x, incoming);
    } else if m.LateWrite? {
      LateOfFrames(cfg, m.id, x.late[m.id], !x.session.closed);
      SendsThese(x, x', m.id, LateFrames(cfg, m.id, x.late[m.id], !x.session.closed));
    }
  }

  lemma SynOf(id: u32)
    ensures Of([Frame(Syn, id, [])], id)
  {}

  lemma DeliverSends(cfg: Config, c: StreamCipher, x: Endpoint, incoming: seq<Frame>)
    requires MoveOk(x, incoming, Deliver) && Ready(x) && WellFormed(cfg.version, incoming[x.handled])
    ensures Sends(x, Moved(cfg, c, x, incoming, Deliver))
  {
    hide Accept, Delivered, OffsetsOk, WellFormed, Of, HistoryAfter, Sends;
    var f, x' := incoming[x.handled], Moved(cfg, c, x, incoming, Deliver);
    if f.id in x.session.streams && !f.command.Nop? {
      AcceptOf(cfg, c, f.id, x.session.streams[f.id], f);
      SendsThese(x, x', f.id, Accept(cfg, c, f.id, x.session.streams[f.id], f).1);
    } else {
      SendsNothing(x, x');
    }
  }

  lemma SendsNothing(x: Endpoint, x': Endpoint)
    requires x'.session.sent == x.session.sent
    ensures Sends(x, x')
  {}

  lemma MoveKeepsSession(cfg: Config, c: StreamCipher, x: Endpoint, incoming: seq<Frame>, m: Move)
    requires MoveOk(x, incoming, m) && Ready(x) && (m.Deliver? ==> WellFormed(cfg.version, incoming[x.handled]))
    requires x.session.closed ==> x.session.streams == map[]
    ensures var x' := Moved(cfg, c, x, incoming, m);
            && (x'.session.closed ==> x'.session.streams == map[])
            && x'.session.nextStreamId == (if m.Open? then x.session.nextStreamId + 2 else x.session.nextStreamId)
            && x'.handled == if m.Deliver? then x.handled + 1 else x.handled
  {
    hide Act, Recorded, Accept, Delivered, OffsetsOk, WellFormed, LateFrames, Lingering, HistoryAfter, LateAll;
  }

  lemma UnusedKept(cfgX: Config, cfgY: Config, c: StreamCipher, x: Endpoint, x': Endpoint, y: Endpoint, own: nat, id: u32)
    requires EndsInv(cfgX, cfgY, c, x, y, own) && Sends(x, x')
    requires x.session.nextStreamId <= x'.session.nextStreamId
    requires id > x'.session.nextStreamId && id % 2 == own
    ensures Only(x'.session.sent, id) == []
  {
    hide Only, StreamInv, Of, AllWellFormed;
    if x'.session.sent == x.session.sent {
    } else if x'.session.sent == x.session.sent + [Frame(Nop, 0, [])] {
      OnlyAppend(x.session.sent, [Frame(Nop, 0, [])], id);
      NopShowsNowhere(id);
    } else {
      var id0: u32, frames :|
        Has(x, x', id0) && Of(frames, id0) && x'.session.sent == x.session.sent + frames;
      SentView(x, x', frames, id0, id);
      assert StreamInv(cfgX, cfgY, c, x, y, own, id0);
      EndsBook(cfgX, cfgY, c, x, y, own, id0);
    }
  }

  lemma NopShowsNowhere(id: u32)
    ensures Only([Frame(Nop, 0, [])], id) == []
  {
    assert Only([Frame(Nop, 0, [])][1..], id) == [];
  }

  lemma MoveKeepsStreams(cfgX: Config, cfgY: Config, c: StreamCipher, x: Endpoint, y: Endpoint, own: nat, m: Move,
                         id: u32)
    requires ConfigOk(cfgX) && ConfigOk(cfgY) && cfgX.version == cfgY.version
    requires EndsInv(cfgX, cfgY, c, x, y, own) && Ready(x) && MoveOk(x, y.session.sent, m)
    requires m.Deliver? ==> WellFormed(cfgX.version, y.session.sent[x.handled])
    ensures x.session.sent <= Moved(cfgX, c, x, y.session.sent, m).session.sent
    ensures Moved(cfgX, c, x, y.session.sent, m).handled <= |y.session.sent|
    ensures StreamInv(cfgX, cfgY, c, Moved(cfgX, c, x, y.session.sent, m), y, own, id)
  {
    hide StreamOk, Only, OffsetsOk, WellFormed, Act, Recorded, Accept, Delivered, ViewOf, AllWellFormed, Enabled,
      LateFrames, Lingering, HistoryAfter, LateAll;
    match m
    case Open => OpenKeepsStream(cfgX, cfgY, c, x, y, own, id);
    case OnStream(id0, e) => EventKeepsStream(cfgX, cfgY, c, x, y, own, id0, e, id);
    case LateWrite(id0) => LateKeepsStream(cfgX, cfgY, c, x, y, own, id0, id);
    case Keepalive =>
      var x' := Moved(cfgX, c, x, y.session.sent, m);
      KeepaliveShows(x, x', y, id);
      assert StreamInv(cfgX, cfgY, c, x, y, own, id);
      Untouched(cfgX, cfgY, c, x, x', y, own, id);
    case Shut => ShutKeepsStream(cfgX, cfgY, c, x, y, own, id);
    case Deliver => DeliverKeepsStream(cfgX, cfgY, c, x, y, own, id);
  }

  lemma MoveKeepsEnds(cfgX: Config, cfgY: Config, c: StreamCipher, x: Endpoint, y: Endpoint, own: nat, m: Move)
    requires ConfigOk(cfgX) && ConfigOk(cfgY) && cfgX.version == cfgY.version && own <= 1
    requires EndsInv(cfgX, cfgY, c, x, y, own) && MoveOk(x, y.session.sent, m)
    ensures Ready(x) && (m.Deliver? ==> WellFormed(cfgX.version, y.session.sent[x.handled]))
    ensures EndsInv(cfgX, cfgY, c, Moved(cfgX, c, x, y.session.sent, m), y, own)
  {
    hide StreamInv, Only, OffsetsOk, WellFormed, Moved, Sends, Ready;
    EndsReady(cfgX, cfgY, c, x, y, own);
    assert m.Deliver? ==> y.session.sent[x.handled] in y.session.sent;
    var x' := Moved(cfgX, c, x, y.session.sent, m);
    MoveKeepsStreams(cfgX, cfgY, c, x, y, own, m, 0);
    forall id: u32 ensures StreamInv(cfgX, cfgY, c, x', y, own, id) {
      MoveKeepsStreams(cfgX, cfgY, c, x, y, own, m, id);
    }
    SentIsWellFormed(cfgX, cfgY, c, x', y, own);
    MoveSends(cfgX, c, x, y.session.sent, m);
    MoveKeepsSession(cfgX, c, x, y.session.sent, m);
    forall id: u32 | id > x'.session.nextStreamId && id % 2 == own ensures Only(x'.session.sent, id) == [] {
      UnusedKept(cfgX, cfgY, c, x, x', y, own, id);
    }
  }

  lemma EndsSwap(cfgX: Config, cfgY: Config, c: StreamCipher, x: Endpoint, y: Endpoint, own: nat)
    requires own <= 1 && EndsInv(cfgX, cfgY, c, x, y, own)
    ensures EndsInv(cfgY, cfgX, c, y, x, 1 - own)
  {
    hide StreamOk, ViewOf, EndpointOk;
    var other := 1 - own;
    forall id: u32 ensures StreamInv(cfgY, cfgX, c, y, x, other, id) {
      assert StreamInv(cfgX, cfgY, c, x, y, own, id);
    }
  }

  // ----- runs

  /** Something happens at one of the ends. */
  datatype Turn = Turn(atClient: bool, move: Move)

  lemma InitialInv(setup: Setup)
    ensures Inv(setup, INITIAL)
  {
    hide StreamOk;
    BlankOk(setup.clientConfig, setup.serverConfig, setup.cipher);
    BlankOk(setup.serverConfig, setup.clientConfig, setup.cipher);
  }

  /** A turn that is not possible changes nothing. */
  ghost function Next(setup: Setup, w: World, t: Turn): (w': World)
    requires SetupOk(setup) && Inv(setup, w)
    ensures Inv(setup, w')
  {
    hide EndsInv, Moved, MoveOk;
    var cfgC, cfgS, c := setup.clientConfig, setup.serverConfig, setup.cipher;
    if t.atClient then
      if MoveOk(w.client, w.server.session.sent, t.move) then
        MoveKeepsEnds(cfgC, cfgS, c, w.client, w.server, 1, t.move);
        w.(client := Moved(cfgC, c, w.client, w.server.session.sent, t.move))
      else w
    else if MoveOk(w.server, w.client.session.sent, t.move) then
      EndsSwap(cfgC, cfgS, c, w.client, w.server, 1);
      MoveKeepsEnds(cfgS, cfgC, c, w.server, w.client, 0, t.move);
      EndsSwap(cfgS, cfgC, c, Moved(cfgS, c, w.server, w.client.session.sent, t.move), w.client, 0);
      w.(server := Moved(cfgS, c, w.server, w.client.session.sent, t.move))
    else w
  }

  ghost function Run(setup: Setup, turns: seq<Turn>): (w: World)
    requires SetupOk(setup)
    ensures Inv(setup, w)
    decreases |turns|
  {
    if turns == [] then InitialInv(setup); INITIAL
    else Next(setup, Run(setup, turns[..|turns| - 1]), turns[|turns| - 1])
  }

  function EndAt(w: World, client: bool): Endpoint {
    if client then w.client else w.server
  }

  function ConfigAt(setup: Setup, client: bool): Config {
    if client then setup.clientConfig else setup.serverConfig
  }

  lemma RunViews(setup: Setup, turns: seq<Turn>, fromClient: bool, id: u32) returns (a: View, b: View)
    requires SetupOk(setup)
    ensures var w := Run(setup, turns);
            var x, y := EndAt(w, fromClient), EndAt(w, !fromClient);
            && x.handled <= |y.session.sent| && y.handled <= |x.session.sent|
            && a == ViewOf(x, y, id) && b == ViewOf(y, x, id)
            && PairOk(ConfigAt(setup, fromClient), ConfigAt(setup, !fromClient), setup.cipher, a, b)
  {
    hide EndOk, CreditOk, ViewOf, Next, RolesOk;
    var w := Run(setup, turns);
    var x, y := EndAt(w, fromClient), EndAt(w, !fromClient);
    a, b := ViewOf(x, y, id), ViewOf(y, x, id);
    assert StreamInv(setup.clientConfig, setup.serverConfig, setup.cipher, w.client, w.server, 1, id);
    if fromClient != (id % 2 == 1) {
      PairSwap(ConfigAt(setup, !fromClient), ConfigAt(setup, fromClient), setup.cipher, b, a);
    }
  }

  lemma RunSnoc(setup: Setup, turns: seq<Turn>, t: Turn)
    requires SetupOk(setup)
    ensures Run(setup, turns + [t]) == Next(setup, Run(setup, turns), t)
  {
    hide Next, Inv;
    assert (turns + [t])[..|turns|] == turns;
  }

  /** The facts about a run for one end and its peer. */
  lemma RunEnds(setup: Setup, turns: seq<Turn>, client: bool)
    requires SetupOk(setup)
    ensures var w := Run(setup, turns);
            var x, y := EndAt(w, client), EndAt(w, !client);
            && Ready(x) && x.handled <= |y.session.sent|
            && AllWellFormed(setup.clientConfig.version, y.session.sent)
  {
    hide Run, Ready, StreamInv;
    var w := Run(setup, turns);
    var cfgC, cfgS := setup.clientConfig, setup.serverConfig;
    if client {
      EndsReady(cfgC, cfgS, setup.cipher, w.client, w.server, 1);
    } else {
      EndsSwap(cfgC, cfgS, setup.cipher, w.client, w.server, 1);
      EndsReady(cfgS, cfgC, setup.cipher, w.server, w.client, 0);
    }
  }

  /** A turn at one end in terms of that end. */
  lemma NextAt(setup: Setup, w: World, client: bool, m: Move)
    requires SetupOk(setup) && Inv(setup, w)
    requires var x, y := EndAt(w, client), EndAt(w, !client);
             Ready(x) && (m.Deliver? && x.handled < |y.session.sent| ==>
               WellFormed(ConfigAt(setup, client).version, y.session.sent[x.handled]))
    ensures var x, y, w' := EndAt(w, client), EndAt(w, !client), Next(setup, w, Turn(client, m));
            && EndAt(w', !client) == y
            && EndAt(w', client) == if MoveOk(x, y.session.sent, m)
                                    then Moved(ConfigAt(setup, client), setup.cipher, x, y.session.sent, m) else x
  {
    hide Inv, Moved, Ready, WellFormed, MoveOk;
    DeliverPossible(EndAt(w, client), EndAt(w, !client), m);
  }

  lemma DeliverPossible(x: Endpoint, y: Endpoint, m: Move)
    ensures MoveOk(x, y.session.sent, m) && m.Deliver? ==> x.handled < |y.session.sent| && !x.session.closed
    ensures m.Deliver? && x.handled < |y.session.sent| && !x.session.closed ==> MoveOk(x, y.session.sent, m)
  {}

  lemma SentOk(version: int, sent: seq<Frame>, h: nat)
    requires AllWellFormed(version, sent)
    ensures h < |sent| ==> WellFormed(version, sent[h])
  {}

  /** One more turn of a run: the end where it happens moves, if the turn is possible, and the other does not. */
  lemma RunMore(setup: Setup, turns: seq<Turn>, client: bool, m: Move)
    requires SetupOk(setup)
    ensures var w, w' := Run(setup, turns), Run(setup, turns + [Turn(client, m)]);
            var x, y := EndAt(w, client), EndAt(w, !client);
            && Ready(x) && x.handled <= |y.session.sent| && EndAt(w', !client) == y
            && (m.Deliver? && x.handled < |y.session.sent| ==>
                  WellFormed(ConfigAt(setup, client).version, y.session.sent[x.handled]))
            && EndAt(w', client) == if MoveOk(x, y.session.sent, m)
                                    then Moved(ConfigAt(setup, client), setup.cipher, x, y.session.sent, m) else x
  {
    hide Run, Ready, Moved, MoveOk, WellFormed, AllWellFormed, Inv, Next;
    var w := Run(setup, turns);
    RunEnds(setup, turns, client);
    SentOk(setup.clientConfig.version, EndAt(w, !client).session.sent, EndAt(w, client).handled);
    NextAt(setup, w, client, m);
    RunSnoc(setup, turns, Turn(client, m));
  }

  /** End to end: whatever happens, in either direction, the plaintext that a stream hands to its socket is a prefix of
      what the peer's stream has read from its own. */
  lemma SmuxDeliversPrefix(setup: Setup, turns: seq<Turn>, fromClient: bool, id: u32)
    requires SetupOk(setup) && LawfulCipher(setup.cipher)
    ensures var w := Run(setup, turns);
            HistoryOf(EndAt(w, !fromClient), id).enqueued <= HistoryOf(EndAt(w, fromClient), id).queued
  {
    hide PairOk, Run, LawfulCipher;
    var a, b := RunViews(setup, turns, fromClient, id);
    EnqueuedIsPrefix(ConfigAt(setup, fromClient), ConfigAt(setup, !fromClient), setup.cipher, a, b);
  }

  /** Version 2: the bytes sent on a stream and not yet written out by the peer stay within the credit. */
  lemma SmuxWindowSafety(setup: Setup, turns: seq<Turn>, fromClient: bool, id: u32)
    requires SetupOk(setup) && setup.clientConfig.version == 2
    ensures var w := Run(setup, turns);
            |Data(Only(EndAt(w, fromClient).session.sent, id))| - HistoryOf(EndAt(w, !fromClient), id).out
            <= Credit(ConfigAt(setup, !fromClient))
  {
    hide PairOk, Run, Data, Only;
    var a, b := RunViews(setup, turns, fromClient, id);
    WindowSafety(ConfigAt(setup, fromClient), ConfigAt(setup, !fromClient), setup.cipher, a, b);
  }

  /** Version 2: however long the stream, the window from the wrapping counters and the sign check is the granted one
      less the bytes sent and not yet reported as written, counted without bound. */
  lemma SmuxWindowExact(setup: Setup, turns: seq<Turn>, fromClient: bool, id: u32) returns (known: nat)
    requires SetupOk(setup) && setup.clientConfig.version == 2
    requires id in EndAt(Run(setup, turns), fromClient).session.streams
    ensures var w := Run(setup, turns);
            var x, y := EndAt(w, fromClient), EndAt(w, !fromClient);
            var reports := HistoryOf(y, id).reports;
            var told := |Updates(Only(y.session.sent[..x.handled], id))|;
            && x.handled <= |y.session.sent| && told <= |reports|
            && known == Last(reports[..told]) <= HistoryOf(y, id).out
            && AvailablePeerWindow(x.session.streams[id])
               == x.session.streams[id].peerWindow - (|Data(Only(x.session.sent, id))| - known)
  {
    hide Run, Data, Only, AvailablePeerWindow, SenderOk, ReceivingOk, BatchOk, AllWellFormed, Updates, RolesOk;
    var a, b := RunViews(setup, turns, fromClient, id);
    known := Known(a, b.history);
    WindowIsExact(ConfigAt(setup, fromClient), ConfigAt(setup, !fromClient), setup.cipher, a, b);
  }

  /** When nothing is under way and the receiver has written out all it got, the sender has credit and nothing is held
      back, so everything that was read has been written out at the other end. */
  lemma SmuxNoCreditDeadlock(setup: Setup, turns: seq<Turn>, fromClient: bool, id: u32)
    requires SetupOk(setup) && LawfulCipher(setup.cipher)
    requires var w := Run(setup, turns);
             var x, y := EndAt(w, fromClient), EndAt(w, !fromClient);
             && x.handled == |y.session.sent| && y.handled == |x.session.sent|
             && id in x.session.streams && id in y.session.streams
             && y.session.streams[id].pendingTcpWrites == []
    ensures var w := Run(setup, turns);
            var x, y := EndAt(w, fromClient), EndAt(w, !fromClient);
            && (setup.clientConfig.version == 2 ==> AvailablePeerWindow(x.session.streams[id]) > 0)
            && x.session.streams[id].pendingOutbound == []
            && HistoryOf(y, id).enqueued == HistoryOf(x, id).queued
            && HistoryOf(y, id).out == |HistoryOf(x, id).queued|
  {
    hide PairOk, Run, LawfulCipher, AvailablePeerWindow, Only;
    var a, b := RunViews(setup, turns, fromClient, id);
    var w := Run(setup, turns);
    var x, y := EndAt(w, fromClient), EndAt(w, !fromClient);
    assert y.session.sent[..x.handled] == y.session.sent && x.session.sent[..y.handled] == x.session.sent;
    NoCreditDeadlock(ConfigAt(setup, fromClient), ConfigAt(setup, !fromClient), setup.cipher, a, b);
  }
}
