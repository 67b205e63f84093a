/** The same two sessions over a reliable channel of bytes, cut anywhere: every such run is a run over frames. */
module SmuxEndToEnd {
  import opened Wrappers
  import opened Bytes
  import opened Ciphers
  import opened SmuxFrame
  import opened SmuxState
  import opened SmuxFlush
  import opened SmuxTransport
  import opened SmuxDispatch
  import opened SmuxProtocol
  import opened SmuxSystem
  import SnappyStream

  // ----- one part after another

  lemma {:induction false} FeedFramesAppend(version: int, limit: nat, buffer: seq<byte>, a: seq<seq<byte>>,
                                            b: seq<seq<byte>>)
    requires FeedFrames(version, limit, buffer, a).error.None?
    ensures var p := FeedFrames(version, limit, buffer, a);
            FeedFrames(version, limit, buffer, a + b) == Before(p.frames, FeedFrames(version, limit, p.rest, b))
    decreases |a|
  {
    hide Split;
    if a == [] {
      assert a + b == b;
      BeforeBefore([], [], FeedFrames(version, limit, buffer, b));
    } else {
      var p := Split(version, buffer + a[0]);
      assert (a + b)[1..] == a[1..] + b;
      FeedFramesAppend(version, limit, p.rest, a[1..], b);
      var q := FeedFrames(version, limit, p.rest, a[1..]);
      BeforeBefore(p.frames, q.frames, FeedFrames(version, limit, q.rest, b));
    }
  }

  lemma {:induction false} FeedAppend(lib: SnappyStream.Library, buffer: seq<byte>, saw: bool, a: seq<seq<byte>>,
                                      part: seq<byte>)
    requires SnappyStream.Feed(lib, buffer, saw, a).error.None?
    ensures var d := SnappyStream.Feed(lib, buffer, saw, a);
            SnappyStream.Feed(lib, buffer, saw, a + [part]) ==
            SnappyStream.After(d.out, SnappyStream.Drain(lib, d.rest + part, d.saw))
    decreases |a|
  {
    hide SnappyStream.Drain;
    if a == [] {
      var d := SnappyStream.Drain(lib, buffer + part, saw);
      assert ([] + [part])[1..] == [];
      SnappyStream.AfterAfter(d.out, [], d);
      SnappyStream.AfterAfter([], [], d);
      assert d.out + [] == d.out;
    } else {
      var p := SnappyStream.Drain(lib, buffer + a[0], saw);
      assert (a + [part])[1..] == a[1..] + [part];
      FeedAppend(lib, p.rest, p.saw, a[1..], part);
      var q := SnappyStream.Feed(lib, p.rest, p.saw, a[1..]);
      SnappyStream.AfterAfter(p.out, q.out, SnappyStream.Drain(lib, q.rest + part, q.saw));
    }
  }

  /** Feeding the frame parser through consume_stream_bytes handles the frames it finds. */
  lemma {:induction false} ConsumeAllIsFeed(cfg: Config, c: StreamCipher, s: Session, chunks: seq<seq<byte>>)
    requires SessionOk(s) && !s.closed
    requires FeedFrames(cfg.version, Limit(cfg), s.receiveBuffer, chunks).error.None?
    ensures var p := FeedFrames(cfg.version, Limit(cfg), s.receiveBuffer, chunks);
            && AllWellFormed(cfg.version, p.frames)
            && ConsumeAll(cfg, c, s, chunks) == Handle(cfg, c, s, p.frames).(receiveBuffer := p.rest)
    decreases |chunks|
  {
    hide Split, OffsetsOk, HandleFrame, Dispatch, SessionOk;
    if chunks != [] {
      var filled := s.(receiveBuffer := s.receiveBuffer + chunks[0]);
      BufferOk(s, filled);
      DispatchIsSplit(cfg, c, filled);
      var p := Split(cfg.version, s.receiveBuffer + chunks[0]);
      HandleBuffer(cfg, c, s, p.frames, filled.receiveBuffer);
      var s1 := Consume(cfg, c, s, chunks[0]);
      ConsumeAllIsFeed(cfg, c, s1, chunks[1..]);
      var q := FeedFrames(cfg.version, Limit(cfg), p.rest, chunks[1..]);
      HandleBuffer(cfg, c, Handle(cfg, c, s, p.frames), q.frames, p.rest);
      WellFormedBoth(cfg.version, p.frames, q.frames);
      HandleAppend(cfg, c, s, p.frames, q.frames);
    }
  }

  lemma BufferOk(s: Session, s': Session)
    requires SessionOk(s) && s' == s.(receiveBuffer := s'.receiveBuffer)
    ensures SessionOk(s')
  {}

  lemma WellFormedBoth(version: int, a: seq<Frame>, b: seq<Frame>)
    requires AllWellFormed(version, a) && AllWellFormed(version, b)
    ensures AllWellFormed(version, a + b)
  {}

  // ----- what has arrived and what has been handled

  /** The parts that have arrived hold the frames handled and the bytes in the buffers, no more and no less. */
  ghost predicate ArrivedOk(link: Link, limit: nat, arrived: seq<seq<byte>>, handled: seq<Frame>, inbound: Inbound,
                            buffer: seq<byte>)
  {
    if link.nocomp then FeedFrames(link.version, limit, [], arrived) == Frames(handled, buffer, None)
    else
      var d := SnappyStream.Feed(link.lib, [], false, arrived);
      && d.error.None? && d.rest == inbound.buffer && d.saw == inbound.saw
      && FeedFrames(link.version, limit, [], d.out) == Frames(handled, buffer, None)
  }

  /** The chunks that a part gives to the frame parser. */
  function Chunks(link: Link, inbound: Inbound, part: seq<byte>): seq<seq<byte>> {
    if link.nocomp then [part] else SnappyStream.Drain(link.lib, inbound.buffer + part, inbound.saw).out
  }

  /** The frames that the parser finds when a part arrives. */
  function Dispatched(link: Link, limit: nat, inbound: Inbound, buffer: seq<byte>, part: seq<byte>): seq<Frame> {
    FeedFrames(link.version, limit, buffer, Chunks(link, inbound, part)).frames
  }

  /** One more part: the frames that it completes are exactly the next ones sent. */
  lemma PartCompletes(cfg: Config, c: StreamCipher, link: Link, s: Session, inbound: Inbound, arrived: seq<seq<byte>>,
                      part: seq<byte>, sent: seq<Frame>, handled: nat, largest: nat) returns (k: nat)
    requires SessionOk(s) && !s.closed && part != [] && link.version == cfg.version && handled <= |sent|
    requires ArrivedOk(link, Limit(cfg), arrived, sent[..handled], inbound, s.receiveBuffer)
    requires SnappyStream.Lawful(link.lib) && AllWellFormed(link.version, sent)
    requires Concat(arrived + [part]) <= Wire(link, sent) && PartsWithin(link, arrived + [part], largest)
    requires Limit(cfg) >= SMUX_HEADER_SIZE + U16 - 2 + largest
    ensures handled <= k <= |sent| && AllWellFormed(cfg.version, sent[handled..k])
    ensures var (s', inbound') := OnTransportBytes(cfg, c, link, s, inbound, part);
            && s' == Handle(cfg, c, s, sent[handled..k]).(receiveBuffer := s'.receiveBuffer)
            && Dispatched(link, Limit(cfg), inbound, s.receiveBuffer, part) == sent[handled..k]
            && ArrivedOk(link, Limit(cfg), arrived + [part], sent[..k], inbound', s'.receiveBuffer)
  {
    hide SnappyStream.Lawful, SnappyStream.Drain, SnappyStream.Feed, Split, FeedFrames, Wire, PartsWithin, OffsetsOk,
      AllWellFormed, SessionOk, Consume, Limit, Handle;
    var limit := Limit(cfg);
    k := DispatchedPrefix(link, limit, sent, arrived + [part], largest);
    var chunks := Chunks(link, inbound, part);
    if link.nocomp {
      FeedFramesAppend(link.version, limit, [], arrived, chunks);
      OneChunk(cfg, c, s, part);
    } else {
      var d := SnappyStream.Feed(link.lib, [], false, arrived);
      FeedAppend(link.lib, [], false, arrived, part);
      FeedFramesAppend(link.version, limit, [], d.out, chunks);
    }
    var q := FeedFrames(link.version, limit, s.receiveBuffer, chunks);
    PrefixExtends(sent, handled, q.frames, k);
    ConsumeAllIsFeed(cfg, c, s, chunks);
    assert OnTransportBytes(cfg, c, link, s, inbound, part).0 == ConsumeAll(cfg, c, s, chunks);
  }

  lemma OneChunk(cfg: Config, c: StreamCipher, s: Session, part: seq<byte>)
    requires SessionOk(s)
    ensures ConsumeAll(cfg, c, s, [part]) == Consume(cfg, c, s, part)
  {
    hide Consume, SessionOk;
    var s1 := Consume(cfg, c, s, part);
    assert [part][1..] == [];
    assert ConsumeAll(cfg, c, s1, []) == s1;
  }

  lemma PrefixExtends(sent: seq<Frame>, handled: nat, more: seq<Frame>, k: nat)
    requires handled <= |sent| && k <= |sent| && sent[..handled] + more == sent[..k]
    ensures handled <= k && more == sent[handled..k]
  {
    assert |sent[..handled] + more| == handled + |more|;
    assert sent[..k][handled..] == sent[handled..k];
    assert (sent[..handled] + more)[handled..] == more;
  }

  // ----- runs over bytes

  type LocalMove = m: Move | !m.Deliver? witness Open

  /** One end of the tunnel, its decompressor and the parts that have reached it. */
  datatype ByteEnd = ByteEnd(end: Endpoint, inbound: Inbound, arrived: seq<seq<byte>>)

  datatype ByteWorld = ByteWorld(client: ByteEnd, server: ByteEnd)

  datatype ByteTurn =
    | Local(atClient: bool, move: LocalMove)
    | Arrive(atClient: bool, part: seq<byte>)

  datatype ByteSetup = ByteSetup(setup: Setup, link: Link, largest: nat)

  /** Equal versions, a sound compression library, and a receive buffer with room for the largest frame and part. */
  ghost predicate ByteSetupOk(bs: ByteSetup) {
    && SetupOk(bs.setup)
    && bs.link.version == bs.setup.clientConfig.version
    && SnappyStream.Lawful(bs.link.lib)
    && Limit(bs.setup.clientConfig) >= SMUX_HEADER_SIZE + U16 - 2 + bs.largest
    && Limit(bs.setup.serverConfig) >= SMUX_HEADER_SIZE + U16 - 2 + bs.largest
    && (!bs.link.nocomp ==> bs.largest >= SnappyStream.MAX_UNCOMPRESSED_CHUNK)
  }

  function StartBytes(nextStreamId: u32): ByteEnd {
    ByteEnd(Start(nextStreamId), Inbound([], false), [])
  }

  const INITIAL_BYTES: ByteWorld := ByteWorld(StartBytes(1), StartBytes(0))

  /** The transport hands over the next bytes that the peer has sent. */
  ghost predicate CanArrive(bs: ByteSetup, b: ByteEnd, peerSent: seq<Frame>, part: seq<byte>) {
    && !b.end.session.closed && part != []
    && (bs.link.nocomp ==> |part| <= bs.largest)
    && Concat(b.arrived + [part]) <= Wire(bs.link, peerSent)
  }

  /** An end after handling some frames: the session, the count and the histories. */
  ghost function Handled(cfg: Config, c: StreamCipher, x: Endpoint, frames: seq<Frame>): (r: Endpoint)
    requires SessionOk(x.session) && AllWellFormed(cfg.version, frames)
    ensures r.session == Handle(cfg, c, x.session, frames)
    decreases |frames|
  {
    hide HandleFrame, OffsetsOk, WellFormed, HistoryAfter;
    if frames == [] then x
    else
      assert frames[0] in frames;
      HandleKeepsOk(cfg, c, x.session, frames[0]);
      Handled(cfg, c, HandledOne(cfg, c, x, frames[0]), frames[1..])
  }

  function HandledOne(cfg: Config, c: StreamCipher, x: Endpoint, f: Frame): Endpoint
    requires SessionOk(x.session) && WellFormed(cfg.version, f)
  {
    x.(session := HandleFrame(cfg, c, x.session, f), handled := x.handled + 1,
       history := HistoryAfter(c, x.session, x.history, f))
  }

  lemma {:induction false} FeedWellFormed(version: int, limit: nat, buffer: seq<byte>, parts: seq<seq<byte>>)
    ensures AllWellFormed(version, FeedFrames(version, limit, buffer, parts).frames)
    decreases |parts|
  {
    hide Split, WellFormed;
    if parts != [] && |buffer| + |parts[0]| <= limit {
      var p := Split(version, buffer + parts[0]);
      SplitWellFormed(version, buffer + parts[0]);
      FeedWellFormed(version, limit, p.rest, parts[1..]);
    }
  }

  /** The bytes of a part have been taken in: the session is what on_transport_bytes leaves, and the histories tell of
      the frames that the parser found. */
  ghost function TakenIn(bs: ByteSetup, cfg: Config, b: ByteEnd, part: seq<byte>): ByteEnd
    requires SessionOk(b.end.session) && bs.link.version == cfg.version
  {
    hide FeedFrames, SessionOk;
    var s := b.end.session;
    var frames := Dispatched(bs.link, Limit(cfg), b.inbound, s.receiveBuffer, part);
    FeedWellFormed(bs.link.version, Limit(cfg), s.receiveBuffer, Chunks(bs.link, b.inbound, part));
    var (s', inbound) := OnTransportBytes(cfg, bs.setup.cipher, bs.link, s, b.inbound, part);
    ByteEnd(Handled(cfg, bs.setup.cipher, b.end, frames).(session := s'), inbound, b.arrived + [part])
  }

  /** One end after its turn; a turn that is not possible changes nothing. */
  ghost function EndNext(bs: ByteSetup, cfg: Config, b: ByteEnd, peerSent: seq<Frame>, t: ByteTurn): ByteEnd
    requires Ready(b.end) && bs.link.version == cfg.version
  {
    match t
    case Local(_, m) => if MoveOk(b.end, [], m) then b.(end := Moved(cfg, bs.setup.cipher, b.end, [], m)) else b
    case Arrive(_, part) => if CanArrive(bs, b, peerSent, part) then TakenIn(bs, cfg, b, part) else b
  }

  function ByteEndAt(bw: ByteWorld, client: bool): ByteEnd {
    if client then bw.client else bw.server
  }

  ghost predicate BothReady(bw: ByteWorld) {
    Ready(bw.client.end) && Ready(bw.server.end)
  }

  ghost function ByteNext(bs: ByteSetup, bw: ByteWorld, t: ByteTurn): ByteWorld
    requires ByteSetupOk(bs) && BothReady(bw)
  {
    if t.atClient then
      bw.(client := EndNext(bs, bs.setup.clientConfig, bw.client, bw.server.end.session.sent, t))
    else
      bw.(server := EndNext(bs, bs.setup.serverConfig, bw.server, bw.client.end.session.sent, t))
  }

  // ----- a run over bytes is a run over frames

  /** The local turns, which both kinds of run share. */
  function Locals(turns: seq<Turn>): seq<Turn> {
    if turns == [] then []
    else
      var last := turns[|turns| - 1];
      Locals(turns[..|turns| - 1]) + if last.move.Deliver? then [] else [last]
  }

  function ByteLocals(bts: seq<ByteTurn>): seq<Turn> {
    if bts == [] then []
    else
      var last := bts[|bts| - 1];
      ByteLocals(bts[..|bts| - 1]) + if last.Local? then [Turn(last.atClient, last.move)] else []
  }

  function WithBuffer(x: Endpoint, buffer: seq<byte>): Endpoint {
    x.(session := x.session.(receiveBuffer := buffer))
  }

  /** The same end, histories included, but for the receive buffer, whose bytes are those that have arrived and wait for
      the rest. */
  ghost predicate Matches(bs: ByteSetup, cfg: Config, b: ByteEnd, x: Endpoint, peerSent: seq<Frame>) {
    && b.end == WithBuffer(x, b.end.session.receiveBuffer)
    && x.handled <= |peerSent|
    && ArrivedOk(bs.link, Limit(cfg), b.arrived, peerSent[..x.handled], b.inbound, b.end.session.receiveBuffer)
    && PartsWithin(bs.link, b.arrived, bs.largest)
  }

  ghost predicate Refined(bs: ByteSetup, bw: ByteWorld, turns: seq<Turn>)
    requires SetupOk(bs.setup)
  {
    var w := Run(bs.setup, turns);
    && Matches(bs, bs.setup.clientConfig, bw.client, w.client, w.server.session.sent)
    && Matches(bs, bs.setup.serverConfig, bw.server, w.server, w.client.session.sent)
  }

  lemma RunOne(setup: Setup, turns: seq<Turn>, t: Turn)
    requires SetupOk(setup)
    ensures Run(setup, turns + [t]) == Next(setup, Run(setup, turns), t)
    ensures Locals(turns + [t]) == Locals(turns) + if t.move.Deliver? then [] else [t]
  {
    hide Next, Inv, Run;
    RunSnoc(setup, turns, t);
    assert (turns + [t])[..|turns|] == turns;
  }

  /** Delivering n frames, one after the other. */
  lemma {:induction false} DeliverMany(setup: Setup, turns: seq<Turn>, client: bool, n: nat) returns (turns': seq<Turn>)
    requires SetupOk(setup)
    requires var w := Run(setup, turns);
             var x, y := EndAt(w, client), EndAt(w, !client);
             !x.session.closed && x.handled + n <= |y.session.sent|
    ensures Locals(turns') == Locals(turns)
    ensures var w, w' := Run(setup, turns), Run(setup, turns');
            var cfg, x, y := ConfigAt(setup, client), EndAt(w, client), EndAt(w, !client);
            && SessionOk(x.session) && AllWellFormed(cfg.version, y.session.sent[x.handled..x.handled + n])
            && EndAt(w', client) == Handled(cfg, setup.cipher, x, y.session.sent[x.handled..x.handled + n])
            && EndAt(w', client).handled == x.handled + n
            && EndAt(w', !client) == y
    decreases n
  {
    hide Run, HandleFrame, OffsetsOk, WellFormed, Next, Inv, Handle, Handled, Locals;
    var cfg, w := ConfigAt(setup, client), Run(setup, turns);
    var x, y := EndAt(w, client), EndAt(w, !client);
    RunEnds(setup, turns, client);
    AllOfPart(cfg.version, y.session.sent, x.handled, x.handled + n);
    if n == 0 {
      turns' := turns;
      assert y.session.sent[x.handled..x.handled] == [];
      NothingHandled(cfg, setup.cipher, x);
    } else {
      var before := DeliverMany(setup, turns, client, n - 1);
      var mid := Run(setup, before);
      RunEnds(setup, before, client);
      var f := y.session.sent[x.handled + n - 1];
      assert f in y.session.sent;
      turns' := before + [Turn(client, Deliver)];
      RunOne(setup, before, Turn(client, Deliver));
      HandledOpen(cfg, setup.cipher, x, y.session.sent[x.handled..x.handled + n - 1]);
      DeliverPossible(EndAt(mid, client), y, Deliver);
      NextAt(setup, mid, client, Deliver);
      OneMore(cfg, setup.cipher, x, y.session.sent, x.handled, n - 1);
      DeliverIsHandled(cfg, setup.cipher, EndAt(mid, client), y.session.sent);
    }
  }

  lemma HandledOpen(cfg: Config, c: StreamCipher, x: Endpoint, frames: seq<Frame>)
    requires SessionOk(x.session) && AllWellFormed(cfg.version, frames)
    ensures Handled(cfg, c, x, frames).session.closed == x.session.closed
  {
    hide Handled, HandleFrame, OffsetsOk, WellFormed;
  }

  lemma DeliverIsHandled(cfg: Config, c: StreamCipher, x: Endpoint, incoming: seq<Frame>)
    requires MoveOk(x, incoming, Deliver) && Ready(x) && WellFormed(cfg.version, incoming[x.handled])
    ensures Moved(cfg, c, x, incoming, Deliver) == HandledOne(cfg, c, x, incoming[x.handled])
  {
    hide HandleFrame, HistoryAfter;
  }

  lemma NothingHandled(cfg: Config, c: StreamCipher, x: Endpoint)
    requires SessionOk(x.session)
    ensures Handled(cfg, c, x, []) == x
  {}

  lemma AllOfPart(version: int, frames: seq<Frame>, lo: nat, hi: nat)
    requires AllWellFormed(version, frames) && lo <= hi <= |frames|
    ensures AllWellFormed(version, frames[lo..hi])
  {}

  lemma {:induction false} HandledAppend(cfg: Config, c: StreamCipher, x: Endpoint, frames: seq<Frame>, f: Frame)
    requires SessionOk(x.session) && AllWellFormed(cfg.version, frames) && WellFormed(cfg.version, f)
    requires AllWellFormed(cfg.version, frames + [f])
    ensures Handled(cfg, c, x, frames + [f]) == HandledOne(cfg, c, Handled(cfg, c, x, frames), f)
    decreases |frames|
  {
    hide HandleFrame, OffsetsOk, WellFormed, HistoryAfter, Handle;
    if frames == [] {
      HandleKeepsOk(cfg, c, x.session, f);
      assert ([] + [f])[1..] == [];
      NothingHandled(cfg, c, HandledOne(cfg, c, x, f));
    } else {
      assert frames[0] in frames && (frames + [f])[0] == frames[0];
      assert (frames + [f])[1..] == frames[1..] + [f];
      HandleKeepsOk(cfg, c, x.session, frames[0]);
      HandledAppend(cfg, c, HandledOne(cfg, c, x, frames[0]), frames[1..], f);
    }
  }

  lemma OneMore(cfg: Config, c: StreamCipher, x: Endpoint, sent: seq<Frame>, h: nat, n: nat)
    requires SessionOk(x.session) && AllWellFormed(cfg.version, sent) && h + n < |sent|
    ensures WellFormed(cfg.version, sent[h + n])
    ensures AllWellFormed(cfg.version, sent[h..h + n]) && AllWellFormed(cfg.version, sent[h..h + n + 1])
    ensures Handled(cfg, c, x, sent[h..h + n + 1]) == HandledOne(cfg, c, Handled(cfg, c, x, sent[h..h + n]), sent[h + n])
  {
    hide HandleFrame, OffsetsOk, WellFormed, Handled;
    assert sent[h + n] in sent;
    AllOfPart(cfg.version, sent, h, h + n);
    AllOfPart(cfg.version, sent, h, h + n + 1);
    assert sent[h..h + n + 1] == sent[h..h + n] + [sent[h + n]];
    HandledAppend(cfg, c, x, sent[h..h + n], sent[h + n]);
  }

  /** Handling frames does not look at the receive buffer. */
  lemma {:induction false} HandledBuffer(cfg: Config, c: StreamCipher, x: Endpoint, frames: seq<Frame>, buffer: seq<byte>)
    requires SessionOk(x.session) && AllWellFormed(cfg.version, frames)
    ensures Handled(cfg, c, WithBuffer(x, buffer), frames) == WithBuffer(Handled(cfg, c, x, frames), buffer)
    decreases |frames|
  {
    hide HandleFrame, OffsetsOk, WellFormed, Delivered, Handle;
    if frames != [] {
      assert frames[0] in frames;
      HandleKeepsOk(cfg, c, x.session, frames[0]);
      HandleFrameBuffer(cfg, c, x.session, frames[0], buffer);
      HandledBuffer(cfg, c, HandledOne(cfg, c, x, frames[0]), frames[1..], buffer);
    }
  }

  lemma MatchReady(bs: ByteSetup, cfg: Config, b: ByteEnd, x: Endpoint, peerSent: seq<Frame>)
    requires Matches(bs, cfg, b, x, peerSent) && Ready(x)
    ensures Ready(b.end)
  {
    hide ArrivedOk, PartsWithin;
  }

  lemma RefinedReady(bs: ByteSetup, bw: ByteWorld, turns: seq<Turn>)
    requires ByteSetupOk(bs) && Refined(bs, bw, turns)
    ensures BothReady(bw)
  {
    hide Run, Matches, Ready;
    var w := Run(bs.setup, turns);
    RunEnds(bs.setup, turns, true);
    RunEnds(bs.setup, turns, false);
    MatchReady(bs, bs.setup.clientConfig, bw.client, w.client, w.server.session.sent);
    MatchReady(bs, bs.setup.serverConfig, bw.server, w.server, w.client.session.sent);
  }

  /** The other end's book does not change when more is sent to it. */
  lemma MatchKept(bs: ByteSetup, cfg: Config, b: ByteEnd, x: Endpoint, sent: seq<Frame>, sent': seq<Frame>)
    requires Matches(bs, cfg, b, x, sent) && sent <= sent'
    ensures Matches(bs, cfg, b, x, sent')
  {
    hide ArrivedOk, PartsWithin;
    assert sent'[..x.handled] == sent[..x.handled];
  }

  // A local move acts on both kinds of end alike.

  lemma LocalSame(cfg: Config, c: StreamCipher, x: Endpoint, buffer: seq<byte>, incoming: seq<Frame>, m: LocalMove)
    requires Ready(x)
    ensures Ready(WithBuffer(x, buffer))
    ensures MoveOk(WithBuffer(x, buffer), [], m) <==> MoveOk(x, incoming, m)
    ensures MoveOk(x, incoming, m) ==>
      var x' := Moved(cfg, c, x, incoming, m);
      && Moved(cfg, c, WithBuffer(x, buffer), [], m) == WithBuffer(x', buffer)
      && x'.handled == x.handled
      && x.session.sent <= x'.session.sent
  {
    hide Act, Recorded, OffsetsOk, LateFrames, Lingering, LateAll;
  }

  lemma LocalRefines(bs: ByteSetup, bw: ByteWorld, turns: seq<Turn>, client: bool, m: LocalMove)
    requires ByteSetupOk(bs) && Refined(bs, bw, turns) && BothReady(bw)
    ensures Refined(bs, ByteNext(bs, bw, Local(client, m)), turns + [Turn(client, m)])
  {
    hide Run, ArrivedOk, PartsWithin, Next, Inv, Ready, Moved, MoveOk;
    var cfg, w := ConfigAt(bs.setup, client), Run(bs.setup, turns);
    var x, y, b := EndAt(w, client), EndAt(w, !client), ByteEndAt(bw, client);
    RunEnds(bs.setup, turns, client);
    RunOne(bs.setup, turns, Turn(client, m));
    NextAt(bs.setup, w, client, m);
    LocalSame(cfg, bs.setup.cipher, x, b.end.session.receiveBuffer, y.session.sent, m);
    var w' := Run(bs.setup, turns + [Turn(client, m)]);
    MatchKept(bs, ConfigAt(bs.setup, !client), ByteEndAt(bw, !client), y, x.session.sent, EndAt(w', client).session.sent);
  }

  /** What a part does to one end is what delivering the frames that it completes does. */
  lemma TakenInIs(bs: ByteSetup, cfg: Config, b: ByteEnd, x: Endpoint, sent: seq<Frame>, part: seq<byte>)
    returns (k: nat)
    requires ByteSetupOk(bs) && bs.link.version == cfg.version && Matches(bs, cfg, b, x, sent) && Ready(x)
    requires Limit(cfg) >= SMUX_HEADER_SIZE + U16 - 2 + bs.largest
    requires AllWellFormed(cfg.version, sent) && CanArrive(bs, b, sent, part)
    ensures SessionOk(b.end.session) && SessionOk(x.session)
    ensures x.handled <= k <= |sent| && AllWellFormed(cfg.version, sent[x.handled..k])
    ensures var b' := TakenIn(bs, cfg, b, part);
            && b'.end == WithBuffer(Handled(cfg, bs.setup.cipher, x, sent[x.handled..k]), b'.end.session.receiveBuffer)
            && ArrivedOk(bs.link, Limit(cfg), b'.arrived, sent[..k], b'.inbound, b'.end.session.receiveBuffer)
            && PartsWithin(bs.link, b'.arrived, bs.largest)
  {
    hide ArrivedOk, PartsWithin, OnTransportBytes, Wire, Handle, Handled, OffsetsOk, WellFormed, SnappyStream.Lawful,
      Dispatched, FeedFrames, Chunks;
    var s, c := b.end.session, bs.setup.cipher;
    MatchReady(bs, cfg, b, x, sent);
    AlsoWithin(bs.link, b.arrived, part, bs.largest);
    k := PartCompletes(cfg, c, bs.link, s, b.inbound, b.arrived, part, sent, x.handled, bs.largest);
    HandledBuffer(cfg, c, x, sent[x.handled..k], s.receiveBuffer);
  }

  lemma ArriveRefines(bs: ByteSetup, bw: ByteWorld, turns: seq<Turn>, client: bool, part: seq<byte>)
    returns (turns': seq<Turn>)
    requires ByteSetupOk(bs) && Refined(bs, bw, turns) && BothReady(bw)
    ensures Locals(turns') == Locals(turns)
    ensures Refined(bs, ByteNext(bs, bw, Arrive(client, part)), turns')
  {
    hide Run, ArrivedOk, PartsWithin, Ready, TakenIn, Wire, Handle, Handled, OffsetsOk, WellFormed, Locals, CanArrive,
      SnappyStream.Lawful;
    var cfg, w := ConfigAt(bs.setup, client), Run(bs.setup, turns);
    var x, y, b := EndAt(w, client), EndAt(w, !client), ByteEndAt(bw, client);
    if !CanArrive(bs, b, y.session.sent, part) {
      turns' := turns;
      return;
    }
    RunEnds(bs.setup, turns, client);
    ArriveOpen(bs, b, y.session.sent, part);
    var sent := y.session.sent;
    var k := TakenInIs(bs, cfg, b, x, sent, part);
    turns' := DeliverMany(bs.setup, turns, client, k - x.handled);
    var w' := Run(bs.setup, turns');
    HandleSends(cfg, bs.setup.cipher, x.session, sent[x.handled..k]);
    MatchKept(bs, ConfigAt(bs.setup, !client), ByteEndAt(bw, !client), y, x.session.sent, EndAt(w', client).session.sent);
  }

  lemma ArriveOpen(bs: ByteSetup, b: ByteEnd, peerSent: seq<Frame>, part: seq<byte>)
    requires CanArrive(bs, b, peerSent, part)
    ensures !b.end.session.closed
  {}

  lemma AlsoWithin(link: Link, arrived: seq<seq<byte>>, part: seq<byte>, largest: nat)
    requires PartsWithin(link, arrived, largest) && (link.nocomp ==> |part| <= largest)
    ensures PartsWithin(link, arrived + [part], largest)
  {}

  lemma {:induction false} HandleSends(cfg: Config, c: StreamCipher, s: Session, frames: seq<Frame>)
    requires SessionOk(s) && AllWellFormed(cfg.version, frames)
    ensures s.sent <= Handle(cfg, c, s, frames).sent
    decreases |frames|
  {
    hide Accept, OffsetsOk, WellFormed;
    if frames != [] {
      assert frames[0] in frames;
      HandleKeepsOk(cfg, c, s, frames[0]);
      HandleSends(cfg, c, HandleFrame(cfg, c, s, frames[0]), frames[1..]);
    }
  }

  lemma StartRefined(bs: ByteSetup)
    requires ByteSetupOk(bs)
    ensures Refined(bs, INITIAL_BYTES, []) && Locals([]) == ByteLocals([])
  {
    assert INITIAL.server.session.sent[..0] == [] && INITIAL.client.session.sent[..0] == [];
    assert Run(bs.setup, []) == INITIAL;
  }

  /** A run over bytes, together with the promise that it is a run over frames with the same local turns. */
  ghost function ByteRun(bs: ByteSetup, bts: seq<ByteTurn>): (bw: ByteWorld)
    requires ByteSetupOk(bs)
    ensures exists turns :: Refined(bs, bw, turns) && Locals(turns) == ByteLocals(bts)
    decreases |bts|
  {
    hide Refined, Locals, ByteNext, BothReady;
    if bts == [] then StartRefined(bs); INITIAL_BYTES
    else
      var before, t := ByteRun(bs, bts[..|bts| - 1]), bts[|bts| - 1];
      StepRefined(bs, before, bts);
      ByteNext(bs, before, t)
  }

  lemma SetupOfBytes(bs: ByteSetup)
    requires ByteSetupOk(bs)
    ensures SetupOk(bs.setup)
  {}

  /** The local turns that a turn over bytes is. */
  function LocalOf(t: ByteTurn): seq<Turn> {
    match t
    case Local(client, m) => [Turn(client, m)]
    case Arrive(_, _) => []
  }

  lemma StepRefinedBy(bs: ByteSetup, before: ByteWorld, turns: seq<Turn>, t: ByteTurn) returns (turns': seq<Turn>)
    requires ByteSetupOk(bs) && Refined(bs, before, turns) && BothReady(before)
    ensures Refined(bs, ByteNext(bs, before, t), turns') && Locals(turns') == Locals(turns) + LocalOf(t)
  {
    hide Refined, ByteNext, BothReady, Run, Locals, SetupOk, ByteSetupOk;
    SetupOfBytes(bs);
    match t
    case Local(client, m) =>
      LocalRefines(bs, before, turns, client, m);
      RunOne(bs.setup, turns, Turn(client, m));
      turns' := turns + [Turn(client, m)];
    case Arrive(client, part) =>
      turns' := ArriveRefines(bs, before, turns, client, part);
      assert Locals(turns) + [] == Locals(turns);
  }

  lemma ByteLocalsMore(bts: seq<ByteTurn>)
    requires bts != []
    ensures ByteLocals(bts) == ByteLocals(bts[..|bts| - 1]) + LocalOf(bts[|bts| - 1])
  {}

  lemma StepRefined(bs: ByteSetup, before: ByteWorld, bts: seq<ByteTurn>)
    requires ByteSetupOk(bs) && bts != []
    requires exists turns :: Refined(bs, before, turns) && Locals(turns) == ByteLocals(bts[..|bts| - 1])
    ensures BothReady(before)
    ensures exists turns :: Refined(bs, ByteNext(bs, before, bts[|bts| - 1]), turns) && Locals(turns) == ByteLocals(bts)
  {
    hide Refined, ByteNext, BothReady, Run, Locals, ByteLocals, SetupOk, ByteSetupOk;
    SetupOfBytes(bs);
    var turns :| Refined(bs, before, turns) && Locals(turns) == ByteLocals(bts[..|bts| - 1]);
    RefinedReady(bs, before, turns);
    var turns' := StepRefinedBy(bs, before, turns, bts[|bts| - 1]);
    ByteLocalsMore(bts);
  }

  lemma OnlyShutCloses(cfg: Config, c: StreamCipher, x: Endpoint, incoming: seq<Frame>, m: Move)
    requires MoveOk(x, incoming, m) && Ready(x) && (m.Deliver? ==> WellFormed(cfg.version, incoming[x.handled]))
    requires !m.Shut?
    ensures Moved(cfg, c, x, incoming, m).session.closed == x.session.closed
  {
    hide Act, Recorded, Accept, OffsetsOk, WellFormed, LateFrames, Lingering, HistoryAfter, LateAll;
  }

  lemma {:induction false} ClosedByShut(setup: Setup, turns: seq<Turn>, client: bool)
    requires SetupOk(setup)
    ensures EndAt(Run(setup, turns), client).session.closed ==> Turn(client, Shut) in Locals(turns)
    decreases |turns|
  {
    hide Moved, Ready, MoveOk, Next, Inv, AllWellFormed, WellFormed;
    if turns != [] {
      var before, t := turns[..|turns| - 1], turns[|turns| - 1];
      ClosedByShut(setup, before, client);
      var w := Run(setup, before);
      RunEnds(setup, before, t.atClient);
      var x, y := EndAt(w, t.atClient), EndAt(w, !t.atClient);
      SentOk(setup.clientConfig.version, y.session.sent, x.handled);
      NextAt(setup, w, t.atClient, t.move);
      DeliverPossible(x, y, t.move);
      if !t.move.Shut? && MoveOk(x, y.session.sent, t.move) {
        OnlyShutCloses(ConfigAt(setup, t.atClient), setup.cipher, x, y.session.sent, t.move);
      }
    }
  }

  // ----- what a run over bytes promises

  /** A frame run with the same ends, receive buffers apart, and the same local turns. */
  lemma BytesRefineFrames(bs: ByteSetup, bts: seq<ByteTurn>) returns (turns: seq<Turn>)
    requires ByteSetupOk(bs)
    ensures Locals(turns) == ByteLocals(bts) && Refined(bs, ByteRun(bs, bts), turns)
    ensures var bw, w := ByteRun(bs, bts), Run(bs.setup, turns);
            && bw.client.end == WithBuffer(w.client, bw.client.end.session.receiveBuffer)
            && bw.server.end == WithBuffer(w.server, bw.server.end.session.receiveBuffer)
  {
    hide Run, ArrivedOk, PartsWithin, ByteRun, Locals, ByteLocals;
    turns :| Refined(bs, ByteRun(bs, bts), turns) && Locals(turns) == ByteLocals(bts);
  }

  /** Bytes end to end: with the frames cut and compressed in any way on the transport, what a stream hands to its
      socket is a prefix of what its peer has read, for every stream in either direction. */
  lemma BytesDeliverPrefix(bs: ByteSetup, bts: seq<ByteTurn>, fromClient: bool, id: u32)
    requires ByteSetupOk(bs) && LawfulCipher(bs.setup.cipher)
    ensures var bw := ByteRun(bs, bts);
            HistoryOf(ByteEndAt(bw, !fromClient).end, id).enqueued <= HistoryOf(ByteEndAt(bw, fromClient).end, id).queued
  {
    hide Run, ByteRun, Refined, Locals, ByteLocals, LawfulCipher;
    var turns := BytesRefineFrames(bs, bts);
    SmuxDeliversPrefix(bs.setup, turns, fromClient, id);
  }

  /** No session is closed by an error of the protocol: a closed one was told to close. */
  lemma BytesCloseOnlyOnRequest(bs: ByteSetup, bts: seq<ByteTurn>, client: bool)
    requires ByteSetupOk(bs) && ByteEndAt(ByteRun(bs, bts), client).end.session.closed
    ensures Turn(client, Shut) in ByteLocals(bts)
  {
    hide Run, ByteRun, Refined, Locals, ByteLocals;
    var turns := BytesRefineFrames(bs, bts);
    ClosedByShut(bs.setup, turns, client);
  }

  /** Version 2: bytes sent and not yet written out by the peer stay within the credit. */
  lemma BytesWindowSafety(bs: ByteSetup, bts: seq<ByteTurn>, fromClient: bool, id: u32)
    requires ByteSetupOk(bs) && bs.link.version == 2
    ensures var bw := ByteRun(bs, bts);
            |Data(Only(ByteEndAt(bw, fromClient).end.session.sent, id))| - HistoryOf(ByteEndAt(bw, !fromClient).end, id).out
            <= Credit(ConfigAt(bs.setup, !fromClient))
  {
    hide Run, ByteRun, Refined, Locals, ByteLocals, Data, Only;
    var turns := BytesRefineFrames(bs, bts);
    SmuxWindowSafety(bs.setup, turns, fromClient, id);
  }

  /** Once all bytes sent have arrived, all frames sent have been handled. */
  lemma AllBytesAllFrames(bs: ByteSetup, cfg: Config, b: ByteEnd, x: Endpoint, sent: seq<Frame>)
    requires ByteSetupOk(bs) && Matches(bs, cfg, b, x, sent) && AllWellFormed(bs.link.version, sent)
    requires Limit(cfg) >= SMUX_HEADER_SIZE + U16 - 2 + bs.largest
    requires Concat(b.arrived) == Wire(bs.link, sent)
    ensures x.handled == |sent|
  {
    hide SnappyStream.Lawful, SnappyStream.Feed, FeedFrames, Wire, PartsWithin, AllWellFormed, Limit;
    var k := DispatchedPrefix(bs.link, Limit(cfg), sent, b.arrived, bs.largest);
    assert |sent[..k]| == k && |sent[..x.handled]| == x.handled;
  }

  /** Every byte that either end has sent has arrived at the other. */
  ghost predicate AllArrived(bs: ByteSetup, bw: ByteWorld) {
    && Concat(bw.server.arrived) == Wire(bs.link, bw.client.end.session.sent)
    && Concat(bw.client.arrived) == Wire(bs.link, bw.server.end.session.sent)
  }

  lemma AllArrivedAllHandled(bs: ByteSetup, bw: ByteWorld, turns: seq<Turn>)
    requires ByteSetupOk(bs) && Refined(bs, bw, turns) && AllArrived(bs, bw)
    ensures var w := Run(bs.setup, turns);
            w.client.handled == |w.server.session.sent| && w.server.handled == |w.client.session.sent|
  {
    hide Run, Wire, ArrivedOk, PartsWithin, AllWellFormed, Ready, SnappyStream.Lawful;
    var w := Run(bs.setup, turns);
    RunEnds(bs.setup, turns, true);
    RunEnds(bs.setup, turns, false);
    AllBytesAllFrames(bs, bs.setup.clientConfig, bw.client, w.client, w.server.session.sent);
    AllBytesAllFrames(bs, bs.setup.serverConfig, bw.server, w.server, w.client.session.sent);
  }

  /** Over bytes too: with everything arrived and written out, a stream that both sessions have is not held back, and
      all that was read at one end has been written at the other. */
  lemma BytesNoCreditDeadlock(bs: ByteSetup, bts: seq<ByteTurn>, fromClient: bool, id: u32)
    requires ByteSetupOk(bs) && LawfulCipher(bs.setup.cipher) && AllArrived(bs, ByteRun(bs, bts))
    requires var bw := ByteRun(bs, bts);
             var x, y := ByteEndAt(bw, fromClient).end, ByteEndAt(bw, !fromClient).end;
             && id in x.session.streams && id in y.session.streams
             && y.session.streams[id].pendingTcpWrites == []
    ensures var bw := ByteRun(bs, bts);
            var x, y := ByteEndAt(bw, fromClient).end, ByteEndAt(bw, !fromClient).end;
            && (bs.link.version == 2 ==> AvailablePeerWindow(x.session.streams[id]) > 0)
            && x.session.streams[id].pendingOutbound == []
            && HistoryOf(y, id).enqueued == HistoryOf(x, id).queued
            && HistoryOf(y, id).out == |HistoryOf(x, id).queued|
  {
    hide Run, ByteRun, Refined, Locals, ByteLocals, LawfulCipher, AvailablePeerWindow, AllArrived;
    var turns := BytesRefineFrames(bs, bts);
    AllArrivedAllHandled(bs, ByteRun(bs, bts), turns);
    SmuxNoCreditDeadlock(bs.setup, turns, fromClient, id);
  }
}
