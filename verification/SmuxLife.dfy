/** The life of a stream in a run: both ends have it from its SYN until it is closed, and its end is told once. */
module SmuxLife {
  import opened Wrappers
  import opened Bytes
  import opened Ciphers
  import opened SmuxFrame
  import opened SmuxState
  import opened SmuxFlush
  import opened SmuxProtocol
  import opened SmuxPair
  import opened SmuxStreamPair
  import opened SmuxSystem
  import opened SmuxEndToEnd
  import opened SmuxProgress

  // ----- a turn as it shows at one end of one stream

  datatype Step =
    | Stay
    | Opened
    | Acted(e: Event)
    | Accepted(f: Frame)
    | WroteLate(live: bool)

  /** The step can happen at the end with view v, whose peer has view p. */
  ghost predicate StepOk(cfg: Config, v: View, p: View, s: Step) {
    match s
    case Stay => true
    case Opened => v == BLANK
    case Acted(e) =>
      && v.stream.Some? && OffsetsOk(v.stream.value.pendingOutbound) && !v.stream.value.closed
      && (e.WriteDone? ==> v.stream.value.pendingTcpWrites != [])
    case Accepted(f) =>
      && WellFormed(cfg.version, f) && v.rx + [f] <= p.tx
      && (v.stream.Some? ==> OffsetsOk(v.stream.value.pendingOutbound) && !v.stream.value.closed)
    case WroteLate(_) => v.late.Some? && v.late.value.pendingTcpWrites != []
  }

  function Stepped(cfg: Config, c: StreamCipher, id: u32, v: View, s: Step): View
    requires s.Acted? ==> v.stream.Some? && OffsetsOk(v.stream.value.pendingOutbound)
    requires s.Acted? && s.e.WriteDone? ==> v.stream.value.pendingTcpWrites != []
    requires s.Accepted? ==> WellFormed(cfg.version, s.f)
    requires s.Accepted? && v.stream.Some? ==> OffsetsOk(v.stream.value.pendingOutbound)
    requires s.WroteLate? ==> v.late.Some? && v.late.value.pendingTcpWrites != []
  {
    match s
    case Stay => v
    case Opened => OpenView(id, v)
    case Acted(e) => ActView(cfg, c, id, v, e)
    case Accepted(f) => AcceptView(cfg, c, id, v, f)
    case WroteLate(live) => LateView(cfg, id, v, live)
  }

  /** Which step a move is for a stream of the session. */
  ghost function StepOf(x: Endpoint, incoming: seq<Frame>, m: Move, id: u32): Step
    requires MoveOk(x, incoming, m)
  {
    match m
    case Open => if id == x.session.nextStreamId + 2 then Opened else Stay
    case OnStream(id0, e) => if id == id0 then Acted(e) else Stay
    case LateWrite(id0) => if id == id0 then WroteLate(!x.session.closed) else Stay
    case Keepalive => Stay
    case Shut => if id in x.session.streams then Acted(Vanish) else Stay
    case Deliver =>
      var f := incoming[x.handled];
      if id == f.id && !f.command.Nop? then Accepted(f) else Stay
  }

  /** The ends of a run, seen from one of them. */
  lemma RunInvAt(setup: Setup, turns: seq<Turn>, client: bool)
    requires SetupOk(setup)
    ensures var w := Run(setup, turns);
            EndsInv(ConfigAt(setup, client), ConfigAt(setup, !client), setup.cipher, EndAt(w, client), EndAt(w, !client),
                    if client then 1 else 0)
  {
    hide Run, EndsInv;
    var w := Run(setup, turns);
    if !client {
      EndsSwap(setup.clientConfig, setup.serverConfig, setup.cipher, w.client, w.server, 1);
    }
  }

  lemma MoveSteps(cfg: Config, peerCfg: Config, c: StreamCipher, x: Endpoint, y: Endpoint, own: nat, m: Move, id: u32)
    requires EndsInv(cfg, peerCfg, c, x, y, own) && Ready(x) && MoveOk(x, y.session.sent, m)
    requires m.Deliver? ==> WellFormed(cfg.version, y.session.sent[x.handled])
    ensures var s, x', v := StepOf(x, y.session.sent, m, id), Moved(cfg, c, x, y.session.sent, m), ViewOf(x, y, id);
            && x'.handled <= |y.session.sent| && x.session.sent <= x'.session.sent
            && StepOk(cfg, v, ViewOf(y, x, id), s) && ViewOf(x', y, id) == Stepped(cfg, c, id, v, s)
  {
    hide StreamInv, Only, OffsetsOk, WellFormed, Act, Recorded, Accept, Delivered, AllWellFormed, LateFrames,
      Lingering, HistoryAfter, LateAll, EndpointOk, AcceptView, ActView, LateView;
    StreamIn(x, y, id);
    match m
    case Open =>
      NextIsFree(cfg, peerCfg, c, x, y, own);
      OpenShows(cfg, c, x, y, id);
      if id == x.session.nextStreamId + 2 {
        FreeIsBlank(cfg, peerCfg, c, x, y, own, id);
      }
    case OnStream(id0, e) =>
      ActShows(cfg, c, x, y, id0, e, id);
    case LateWrite(id0) =>
      LateShows(cfg, c, x, y, id0, id);
    case Keepalive =>
      KeepaliveShows(x, Moved(cfg, c, x, y.session.sent, m), y, id);
    case Shut =>
      ShutShows(cfg, c, x, y, id);
    case Deliver =>
      DeliverShows(cfg, c, x, y, id);
      var f := y.session.sent[x.handled];
      if id == f.id && !f.command.Nop? {
        NextReceived(x, y, id);
      }
  }

  /** A number that was never sent on belongs to a stream that never was. */
  lemma FreeIsBlank(cfg: Config, peerCfg: Config, c: StreamCipher, x: Endpoint, y: Endpoint, own: nat, id: u32)
    requires EndsInv(cfg, peerCfg, c, x, y, own) && id % 2 == own && Only(x.session.sent, id) == []
    ensures ViewOf(x, y, id) == BLANK
  {
    hide Only, PairOk, EndpointOk;
    assert StreamInv(cfg, peerCfg, c, x, y, own, id);
  }

  /** One more turn of a run, for one stream at the end where it happens and at the other. */
  lemma TurnShows(setup: Setup, turns: seq<Turn>, t: Turn, id: u32) returns (s: Step)
    requires SetupOk(setup)
    ensures var w, w' := Run(setup, turns), Run(setup, turns + [t]);
            var x, x', y := EndAt(w, t.atClient), EndAt(w', t.atClient), EndAt(w, !t.atClient);
            && x.handled <= |y.session.sent| && y.handled <= |x.session.sent| && EndAt(w', !t.atClient) == y
            && x'.handled <= |y.session.sent| && y.handled <= |x'.session.sent|
            && StepOk(ConfigAt(setup, t.atClient), ViewOf(x, y, id), ViewOf(y, x, id), s)
            && ViewOf(x', y, id) == Stepped(ConfigAt(setup, t.atClient), setup.cipher, id, ViewOf(x, y, id), s)
            && ViewOf(y, x', id) == ViewOf(y, x, id)
            && s == if CanTurn(w, t) then StepOf(x, y.session.sent, t.move, id) else Stay
  {
    hide Run, EndsInv, ViewOf, MoveOk, Ready, Moved, StepOk, Stepped, WellFormed, StepOf;
    var w := Run(setup, turns);
    var x, y := EndAt(w, t.atClient), EndAt(w, !t.atClient);
    var cfg, peerCfg := ConfigAt(setup, t.atClient), ConfigAt(setup, !t.atClient);
    RunInvAt(setup, turns, t.atClient);
    EndsHandled(cfg, peerCfg, setup.cipher, x, y, if t.atClient then 1 else 0);
    RunMore(setup, turns, t.atClient, t.move);
    DeliverPossible(x, y, t.move);
    if CanTurn(w, t) {
      s := StepOf(x, y.session.sent, t.move, id);
      MoveSteps(cfg, peerCfg, setup.cipher, x, y, if t.atClient then 1 else 0, t.move, id);
      PeerView(x, Moved(cfg, setup.cipher, x, y.session.sent, t.move), y, id);
    } else {
      s := Stay;
      StayIs(cfg, setup.cipher, id, ViewOf(x, y, id), ViewOf(y, x, id));
    }
  }

  lemma StayIs(cfg: Config, c: StreamCipher, id: u32, v: View, p: View)
    ensures StepOk(cfg, v, p, Stay) && Stepped(cfg, c, id, v, Stay) == v
  {}

  lemma EndsHandled(cfg: Config, peerCfg: Config, c: StreamCipher, x: Endpoint, y: Endpoint, own: nat)
    requires EndsInv(cfg, peerCfg, c, x, y, own)
    ensures x.handled <= |y.session.sent| && y.handled <= |x.session.sent|
  {
    hide EndpointOk, StreamInv;
  }

  // ----- the end is told once

  function Fins(frames: seq<Frame>): nat {
    |Payloads(frames, Fin)|
  }

  lemma FinsMore(a: seq<Frame>, b: seq<Frame>)
    ensures Fins(a + b) == Fins(a) + Fins(b)
  {
    hide Payloads;
    PayloadsAppend(a, b, Fin);
  }

  lemma FinsOne(f: Frame)
    ensures Fins([f]) == if f.command.Fin? then 1 else 0
  {
    assert Payloads([f][1..], Fin) == [];
  }

  lemma {:induction false} NoFins(frames: seq<Frame>)
    requires forall f :: f in frames ==> !f.command.Fin?
    ensures Fins(frames) == 0
    decreases |frames|
  {
    if frames != [] {
      assert frames[0] in frames;
      NoFins(frames[1..]);
    }
  }

  /** At most one FIN has gone out; an open stream knows whether it has, and whether one has come. */
  ghost predicate FinsOk(v: View) {
    && Fins(v.tx) <= 1
    && (v.stream.Some? ==> v.stream.value.localFinSent == (Fins(v.tx) == 1))
    && (v.stream.Some? ==> v.stream.value.remoteFinReceived == (Fins(v.rx) > 0))
  }

  /** The events after which the peer must know that no more will be read. */
  predicate Ends(e: Event) {
    e.LocalEnd? || e.WriteFailed? || e.Close?
  }

  lemma FlushNoFins(cfg: Config, c: StreamCipher, id: u32, st: Stream)
    requires OffsetsOk(st.pendingOutbound)
    ensures var (st', frames) := Flush(cfg, c, id, st);
            && Fins(frames) == 0
            && st'.localFinSent == st.localFinSent && st'.remoteFinReceived == st.remoteFinReceived
  {
    hide Flush, Data, PendingBytes, EncAt, AvailablePeerWindow, Fins;
    FlushSpec(cfg, c, id, st);
    NoFins(Flush(cfg, c, id, st).1);
  }

  /** What an event does to the two marks, and how many FINs it sends. */
  lemma ActFins(cfg: Config, c: StreamCipher, id: u32, st: Stream, e: Event)
    requires OffsetsOk(st.pendingOutbound) && (e.WriteDone? ==> st.pendingTcpWrites != []) && !st.closed
    ensures var (st', frames) := Act(cfg, c, id, st, e);
            && Fins(frames) == (if Ends(e) && !st.localFinSent then 1 else 0)
            && (st'.Some? ==> st'.value.localFinSent == (st.localFinSent || Ends(e)))
            && (st'.Some? ==> st'.value.remoteFinReceived == st.remoteFinReceived)
  {
    hide Flush, UpdatePayload, OffsetsOk, Fins;
    if e.Read? {
      QueuedOk(st, e.data);
      FlushNoFins(cfg, c, id, Queued(st, e.data));
    } else if Ends(e) && !st.localFinSent {
      FinsOne(Frame(Fin, id, []));
    } else {
      NoFins(Act(cfg, c, id, st, e).1);
    }
  }

  lemma AcceptFins(cfg: Config, c: StreamCipher, id: u32, st: Stream, f: Frame)
    requires OffsetsOk(st.pendingOutbound) && WellFormed(cfg.version, f)
    ensures var (st', frames) := Accept(cfg, c, id, st, f);
            && Fins(frames) == 0 && st'.localFinSent == st.localFinSent
            && st'.remoteFinReceived == (st.remoteFinReceived || f.command.Fin?)
  {
    hide Flush, FromLe32, DecAt, OffsetsOk, Fins;
    if f.command.Upd? && !st.closed {
      var told := st.(peerConsumed := FromLe32(f.payload), peerWindow := FromLe32(f.payload[4..]));
      FlushNoFins(cfg, c, id, told);
    } else {
      NoFins(Accept(cfg, c, id, st, f).1);
    }
  }

  lemma LateNoFins(cfg: Config, id: u32, st: Stream, live: bool)
    requires st.pendingTcpWrites != []
    ensures Fins(LateFrames(cfg, id, st, live)) == 0
  {
    hide UpdatePayload, Fins;
    NoFins(LateFrames(cfg, id, st, live));
  }

  /** A SYN that makes a stream is the first frame for it. */
  ghost predicate FreshSyn(v: View, s: Step) {
    s.Accepted? && v.stream.None? && s.f.command.Syn? ==> v == BLANK
  }

  /** How many FINs a step sends. */
  function FinsSent(v: View, s: Step): nat
    requires s.Acted? ==> v.stream.Some?
  {
    if s.Acted? && Ends(s.e) && !v.stream.value.localFinSent then 1 else 0
  }

  lemma StepKeepsFins(cfg: Config, c: StreamCipher, id: u32, v: View, p: View, s: Step)
    requires StepOk(cfg, v, p, s) && FinsOk(v) && FreshSyn(v, s)
    ensures FinsOk(Stepped(cfg, c, id, v, s))
    ensures Fins(Stepped(cfg, c, id, v, s).tx) == Fins(v.tx) + FinsSent(v, s)
  {
    hide Fins, Act, Recorded, Accept, Delivered, OffsetsOk, WellFormed, LateFrames, Lingering;
    NoFins([]);
    match s
    case Stay =>
    case Opened =>
      FinsMore(v.tx, [Frame(Syn, id, [])]);
      FinsOne(Frame(Syn, id, []));
    case Acted(e) =>
      ActFins(cfg, c, id, v.stream.value, e);
      FinsMore(v.tx, Act(cfg, c, id, v.stream.value, e).1);
    case Accepted(f) =>
      FinsMore(v.rx, [f]);
      FinsOne(f);
      if v.stream.Some? {
        AcceptFins(cfg, c, id, v.stream.value, f);
        FinsMore(v.tx, Accept(cfg, c, id, v.stream.value, f).1);
      }
    case WroteLate(live) =>
      LateNoFins(cfg, id, v.late.value, live);
      FinsMore(v.tx, LateFrames(cfg, id, v.late.value, live));
  }

  /** The roles of the two ends of a stream, seen from one of them. */
  lemma RolesAt(setup: Setup, turns: seq<Turn>, client: bool, id: u32)
    requires SetupOk(setup)
    ensures var w := Run(setup, turns);
            var x, y := EndAt(w, client), EndAt(w, !client);
            && x.handled <= |y.session.sent| && y.handled <= |x.session.sent|
            && ViewOf(x, y, id).rx <= ViewOf(y, x, id).tx && ViewOf(y, x, id).rx <= ViewOf(x, y, id).tx
            && (if (id % 2 == 1) == client then RolesOk(ViewOf(x, y, id), ViewOf(y, x, id))
                else RolesOk(ViewOf(y, x, id), ViewOf(x, y, id)))
  {
    hide Run, ViewOf, EndpointOk, EndOk, CreditOk, RolesOk;
    RunInvAt(setup, turns, client);
    var w := Run(setup, turns);
    assert StreamInv(ConfigAt(setup, client), ConfigAt(setup, !client), setup.cipher, EndAt(w, client), EndAt(w, !client),
                     if client then 1 else 0, id);
  }

  /** The first frame for a stream is its SYN, and no other frame is. */
  lemma SynIsFirst(v: View, p: View, opens: bool, f: Frame)
    requires v.rx + [f] <= p.tx && p.rx <= v.tx && if opens then RolesOk(v, p) else RolesOk(p, v)
    ensures f.command.Syn? <==> !opens && v.rx == []
    ensures !opens && v.rx == [] ==> v == BLANK
    ensures opens ==> v.tx != []
  {
    assert p.tx[|v.rx|] == f;
    if opens {
      assert f in p.tx;
    } else if v.rx != [] {
      assert p.tx[1..][|v.rx| - 1] == f;
    }
  }

  lemma BlankFins()
    ensures FinsOk(BLANK)
  {}

  lemma StartIsBlank(setup: Setup, client: bool, id: u32)
    requires SetupOk(setup)
    ensures var w := Run(setup, []);
            && EndAt(w, client).handled <= |EndAt(w, !client).session.sent|
            && ViewOf(EndAt(w, client), EndAt(w, !client), id) == BLANK
  {}

  /** In every run, each end tells of its end at most once, and knows whether it has and whether the peer has. */
  lemma {:induction false} SmuxEndToldOnce(setup: Setup, turns: seq<Turn>, client: bool, id: u32)
    requires SetupOk(setup)
    ensures var w := Run(setup, turns);
            && EndAt(w, client).handled <= |EndAt(w, !client).session.sent|
            && FinsOk(ViewOf(EndAt(w, client), EndAt(w, !client), id))
    decreases |turns|
  {
    hide Run, ViewOf, FinsOk, StepOk, Stepped, RolesOk, StepOf, CanTurn;
    if turns == [] {
      StartIsBlank(setup, client, id);
      BlankFins();
    } else {
      var before, t := turns[..|turns| - 1], turns[|turns| - 1];
      assert turns == before + [t];
      SmuxEndToldOnce(setup, before, client, id);
      var s := TurnShows(setup, before, t, id);
      if t.atClient == client {
        FreshSynAt(setup, before, client, id, s);
        var w := Run(setup, before);
        StepKeepsFins(ConfigAt(setup, client), setup.cipher, id, ViewOf(EndAt(w, client), EndAt(w, !client), id),
                      ViewOf(EndAt(w, !client), EndAt(w, client), id), s);
      }
    }
  }

  lemma FreshSynAt(setup: Setup, turns: seq<Turn>, client: bool, id: u32, s: Step)
    requires SetupOk(setup)
    requires var w := Run(setup, turns);
             var x, y := EndAt(w, client), EndAt(w, !client);
             && x.handled <= |y.session.sent| && y.handled <= |x.session.sent|
             && StepOk(ConfigAt(setup, client), ViewOf(x, y, id), ViewOf(y, x, id), s)
    ensures var w := Run(setup, turns);
            FreshSyn(ViewOf(EndAt(w, client), EndAt(w, !client), id), s)
  {
    hide Run, ViewOf, WellFormed, OffsetsOk, RolesOk;
    if s.Accepted? {
      RolesAt(setup, turns, client, id);
      var w := Run(setup, turns);
      SynIsFirst(ViewOf(EndAt(w, client), EndAt(w, !client), id), ViewOf(EndAt(w, !client), EndAt(w, client), id),
                 (id % 2 == 1) == client, s.f);
    }
  }

  /** One of the turns ended the stream at this end: its socket was read to the end or failed, or the stream was
      closed. */
  ghost predicate Ended(setup: Setup, turns: seq<Turn>, client: bool, id: u32)
    requires SetupOk(setup)
  {
    exists k :: 0 <= k < |turns| && EndsAt(setup, turns, client, id, k)
  }

  ghost predicate EndsAt(setup: Setup, turns: seq<Turn>, client: bool, id: u32, k: nat)
    requires SetupOk(setup) && k < |turns|
  {
    && turns[k].atClient == client && turns[k].move.OnStream? && turns[k].move.id == id && Ends(turns[k].move.e)
    && CanTurn(Run(setup, turns[..k]), turns[k])
  }

  lemma EndedMore(setup: Setup, before: seq<Turn>, t: Turn, client: bool, id: u32)
    requires SetupOk(setup)
    ensures Ended(setup, before + [t], client, id) <==>
            Ended(setup, before, client, id) || EndsAt(setup, before + [t], client, id, |before|)
  {
    hide CanTurn, Run, Ends;
    var turns := before + [t];
    assert forall k :: 0 <= k <= |before| ==> turns[..k] == before[..k];
    forall k | 0 <= k < |before|
      ensures EndsAt(setup, turns, client, id, k) <==> EndsAt(setup, before, client, id, k)
    {
      assert turns[..k] == before[..k] && turns[k] == before[k];
    }
  }

  lemma ToldStep(setup: Setup, before: seq<Turn>, t: Turn, id: u32)
    requires SetupOk(setup)
    ensures var x, x' := EndAt(Run(setup, before), t.atClient), EndAt(Run(setup, before + [t]), t.atClient);
            Fins(Only(x'.session.sent, id)) ==
            if EndsAt(setup, before + [t], t.atClient, id, |before|) then 1 else Fins(Only(x.session.sent, id))
  {
    hide Run, FinsOk, StepOk, Stepped, Fins, CanTurn, MoveOk, StepOf, EndsAt, Only;
    SmuxEndToldOnce(setup, before, t.atClient, id);
    var s := TurnShows(setup, before, t, id);
    var w, cfg := Run(setup, before), ConfigAt(setup, t.atClient);
    var v, p := ViewOf(EndAt(w, t.atClient), EndAt(w, !t.atClient), id),
      ViewOf(EndAt(w, !t.atClient), EndAt(w, t.atClient), id);
    FreshSynAt(setup, before, t.atClient, id, s);
    ActedHas(cfg, v, p, s);
    StepKeepsFins(cfg, setup.cipher, id, v, p, s);
    StepEnds(setup, before, t, id, s, v);
    AtMostOne(v);
  }

  lemma ActedHas(cfg: Config, v: View, p: View, s: Step)
    requires StepOk(cfg, v, p, s)
    ensures s.Acted? ==> v.stream.Some?
  {
    hide OffsetsOk, WellFormed;
  }

  lemma AtMostOne(v: View)
    requires FinsOk(v)
    ensures Fins(v.tx) <= 1
  {}

  /** The end is told exactly if there was one: in every run, one FIN has been sent on a stream if its socket was read
      to the end or failed or the stream was closed, and none otherwise. */
  lemma {:induction false} SmuxEndTold(setup: Setup, turns: seq<Turn>, client: bool, id: u32)
    requires SetupOk(setup)
    ensures Fins(Only(EndAt(Run(setup, turns), client).session.sent, id))
         == if Ended(setup, turns, client, id) then 1 else 0
    decreases |turns|
  {
    hide Run, Fins, CanTurn, MoveOk, EndsAt, Only, Inv, Moved;
    if turns == [] {
      StartIs(setup);
      NothingSent(id);
    } else {
      var before, t := turns[..|turns| - 1], turns[|turns| - 1];
      assert turns == before + [t];
      SmuxEndTold(setup, before, client, id);
      EndedMore(setup, before, t, client, id);
      RunMore(setup, before, t.atClient, t.move);
      ToldStep(setup, before, t, id);
      EndsOnlyHere(setup, turns, client, id, |before|);
    }
  }

  lemma EndsOnlyHere(setup: Setup, turns: seq<Turn>, client: bool, id: u32, k: nat)
    requires SetupOk(setup) && k < |turns|
    ensures EndsAt(setup, turns, client, id, k) ==> turns[k].atClient == client
  {
    hide Run, CanTurn;
  }

  lemma NothingSent(id: u32)
    ensures Fins(Only([], id)) == 0
  {}

  lemma StartIs(setup: Setup)
    requires SetupOk(setup)
    ensures Run(setup, []) == INITIAL
  {}

  /** A step ends the stream exactly when the turn does; the FIN goes out unless it did before. */
  lemma StepEnds(setup: Setup, before: seq<Turn>, t: Turn, id: u32, s: Step, v: View)
    requires SetupOk(setup)
    requires var w := Run(setup, before);
             && EndAt(w, t.atClient).handled <= |EndAt(w, !t.atClient).session.sent|
             && v == ViewOf(EndAt(w, t.atClient), EndAt(w, !t.atClient), id) && FinsOk(v)
             && s == if CanTurn(w, t) then StepOf(EndAt(w, t.atClient), EndAt(w, !t.atClient).session.sent, t.move, id)
                     else Stay
    requires s.Acted? ==> v.stream.Some?
    ensures EndsAt(setup, before + [t], t.atClient, id, |before|) <==> s.Acted? && Ends(s.e)
    ensures FinsSent(v, s) == if s.Acted? && Ends(s.e) && Fins(v.tx) == 0 then 1 else 0
  {
    hide Run, ViewOf, Fins;
    assert (before + [t])[..|before|] == before && (before + [t])[|before|] == t;
  }

  // ----- a stream is there from its SYN until it is closed

  /** At this end neither the stream nor the session was closed. */
  ghost predicate NotClosed(turns: seq<Turn>, client: bool, id: u32) {
    Turn(client, OnStream(id, Event.Close)) !in turns && Turn(client, Shut) !in turns
  }

  /** Once a frame for the stream has gone out or come in, the session has the stream. */
  ghost predicate Lives(v: View) {
    v.tx != [] || v.rx != [] ==> v.stream.Some?
  }

  /** A write that is late is one of a stream that was. */
  lemma LateWasThere(cfg: Config, c: StreamCipher, v: View, p: View, opens: bool)
    requires v.late.Some? && EndOk(cfg, c, v) && if opens then RolesOk(v, p) else RolesOk(p, v)
    ensures !Lives(v)
  {
    hide SenderOk, ReceiverOk, ReportsOk, BatchOk, LateOk, AllWellFormed, NoSyn;
  }

  lemma StepKeepsLife(cfg: Config, c: StreamCipher, id: u32, v: View, p: View, s: Step, opens: bool)
    requires StepOk(cfg, v, p, s) && Lives(v) && !s.WroteLate? && s != Acted(Event.Close) && s != Acted(Vanish)
    requires p.rx <= v.tx && if opens then RolesOk(v, p) else RolesOk(p, v)
    ensures Lives(Stepped(cfg, c, id, v, s))
  {
    hide Recorded, Accept, Delivered, OffsetsOk, WellFormed, LateFrames, Lingering, RolesOk, Flush, UpdatePayload;
    if s.Accepted? {
      SynIsFirst(v, p, opens, s.f);
    }
  }

  lemma StepNotClosing(x: Endpoint, incoming: seq<Frame>, m: Move, id: u32)
    requires MoveOk(x, incoming, m) && m != OnStream(id, Event.Close) && m != Shut
    ensures StepOf(x, incoming, m, id) != Acted(Event.Close) && StepOf(x, incoming, m, id) != Acted(Vanish)
  {}

  lemma BookAt(setup: Setup, turns: seq<Turn>, client: bool, id: u32)
    requires SetupOk(setup)
    ensures var w := Run(setup, turns);
            && EndAt(w, client).handled <= |EndAt(w, !client).session.sent|
            && EndOk(ConfigAt(setup, client), setup.cipher, ViewOf(EndAt(w, client), EndAt(w, !client), id))
  {
    hide Run, ViewOf, EndOk, CreditOk;
    var a, b := RunViews(setup, turns, client, id);
  }

  /** In every run, a session has a stream from its first frame on, until the stream or the session is closed at this
      end: no frame for it is dropped. */
  lemma {:induction false} SmuxKeepsStream(setup: Setup, turns: seq<Turn>, client: bool, id: u32)
    requires SetupOk(setup) && NotClosed(turns, client, id)
    ensures var w := Run(setup, turns);
            && EndAt(w, client).handled <= |EndAt(w, !client).session.sent|
            && Lives(ViewOf(EndAt(w, client), EndAt(w, !client), id))
    decreases |turns|
  {
    hide Run, ViewOf, StepOk, Stepped, RolesOk, StepOf, MoveOk, Lives, EndOk;
    if turns == [] {
      StartIsBlank(setup, client, id);
      BlankLives();
    } else {
      var before, t := turns[..|turns| - 1], turns[|turns| - 1];
      assert turns == before + [t];
      SmuxKeepsStream(setup, before, client, id);
      var s := TurnShows(setup, before, t, id);
      if t.atClient == client {
        var w := Run(setup, before);
        var x, y := EndAt(w, client), EndAt(w, !client);
        RolesAt(setup, before, client, id);
        if CanTurn(w, t) {
          StepNotClosing(x, y.session.sent, t.move, id);
        }
        if s.WroteLate? {
          BookAt(setup, before, client, id);
          LateHas(ConfigAt(setup, client), ViewOf(x, y, id), ViewOf(y, x, id), s);
          LateWasThere(ConfigAt(setup, client), setup.cipher, ViewOf(x, y, id), ViewOf(y, x, id),
                       (id % 2 == 1) == client);
          assert false;
        } else {
          StepKeepsLife(ConfigAt(setup, client), setup.cipher, id, ViewOf(x, y, id), ViewOf(y, x, id), s,
                        (id % 2 == 1) == client);
        }
      }
    }
  }

  lemma LateHas(cfg: Config, v: View, p: View, s: Step)
    requires StepOk(cfg, v, p, s) && s.WroteLate?
    ensures v.late.Some?
  {}

  lemma BlankLives()
    ensures Lives(BLANK)
  {}

  // ----- whatever is read is delivered

  lemma {:induction false} LocalsIn(turns: seq<Turn>, t: Turn)
    requires t in Locals(turns)
    ensures t in turns
    decreases |turns|
  {
    if turns != [] && t in Locals(turns[..|turns| - 1]) {
      LocalsIn(turns[..|turns| - 1], t);
    }
  }

  lemma NotShut(setup: Setup, turns: seq<Turn>, client: bool, id: u32)
    requires SetupOk(setup) && NotClosed(turns, client, id)
    ensures !EndAt(Run(setup, turns), client).session.closed
  {
    hide Run, Locals;
    ClosedByShut(setup, turns, client);
    if Turn(client, Shut) in Locals(turns) {
      LocalsIn(turns, Turn(client, Shut));
    }
  }

  lemma DeliverCounts(cfg: Config, c: StreamCipher, x: Endpoint, incoming: seq<Frame>)
    requires MoveOk(x, incoming, Deliver) && Ready(x) && WellFormed(cfg.version, incoming[x.handled])
    ensures Moved(cfg, c, x, incoming, Deliver).handled == x.handled + 1
  {
    hide HandleFrame, HistoryAfter, OffsetsOk;
  }

  /** An end whose session was not closed can handle all that the other has sent. */
  lemma {:induction false} OpenHandlesAll(setup: Setup, turns: seq<Turn>, client: bool, id: u32, n: nat)
    requires SetupOk(setup) && NotClosed(turns, client, id)
    requires var w := Run(setup, turns);
             EndAt(w, client).handled + n == |EndAt(w, !client).session.sent|
    ensures var more := Repeated(Turn(client, Deliver), n);
            var w, w' := Run(setup, turns), Run(setup, turns + more);
            && CanGoOn(setup, turns, more) && EndAt(w', !client) == EndAt(w, !client)
            && EndAt(w', client).handled == |EndAt(w, !client).session.sent|
    decreases n
  {
    hide Run, CanGoOn, Moved, Ready, WellFormed;
    var t := Turn(client, Deliver);
    if n == 0 {
      assert Repeated(t, 0) == [] && turns + [] == turns;
      GoOnNot(setup, turns);
    } else {
      NotShut(setup, turns, client, id);
      RunMore(setup, turns, client, Deliver);
      var w := Run(setup, turns);
      DeliverCounts(ConfigAt(setup, client), setup.cipher, EndAt(w, client), EndAt(w, !client).session.sent);
      GoOnOne(setup, turns, t);
      OpenHandlesAll(setup, turns + [t], client, id, n - 1);
      GoOnBoth(setup, turns, [t], Repeated(t, n - 1));
      assert [t] + Repeated(t, n - 1) == Repeated(t, n);
    }
  }

  /** A stream that one end has shows in the frames that the other end sent or will get. */
  lemma StreamShows(setup: Setup, turns: seq<Turn>, from: bool, id: u32)
    requires SetupOk(setup) && id in EndAt(Run(setup, turns), from).session.streams
    ensures var w := Run(setup, turns);
            Only(EndAt(w, from).session.sent, id) != [] || Only(EndAt(w, !from).session.sent, id) != []
  {
    hide Run, NoSyn, Only;
    RolesAt(setup, turns, from, id);
  }

  /** The turns are deliveries, at either end, completed writes of the receiver, and its socket becoming ready. */
  ghost predicate OnlyAdvance(turns: seq<Turn>, from: bool, id: u32) {
    forall t :: t in turns ==>
      t.move.Deliver? || t == WriteTurn(!from, id) || t == Turn(!from, OnStream(id, SocketReady))
  }

  lemma ReadyCarries(cfg: Config, c: StreamCipher, x: Endpoint, incoming: seq<Frame>, id: u32)
    requires Ready(x) && id in x.session.streams
    ensures MoveOk(x, incoming, OnStream(id, SocketReady))
    ensures var x' := Moved(cfg, c, x, incoming, OnStream(id, SocketReady));
            id in x'.session.streams && x'.session.streams[id].tcpReady
  {
    hide OffsetsOk;
  }

  /** The receiver handles all that has come, and then it has the stream. */
  lemma ReceiverOpens(setup: Setup, turns: seq<Turn>, from: bool, id: u32) returns (more: seq<Turn>)
    requires SetupOk(setup) && NotClosed(turns, !from, id) && NeverFailed(turns, !from, id)
    requires id in EndAt(Run(setup, turns), from).session.streams
    ensures CanGoOn(setup, turns, more) && OnlyAdvance(more, from, id) && NeverFailed(turns + more, !from, id)
    ensures EndAt(Run(setup, turns + more), from) == EndAt(Run(setup, turns), from)
    ensures id in EndAt(Run(setup, turns + more), !from).session.streams
  {
    hide Run, CanGoOn, Moved, Ready, WellFormed, Only, MoveOk;
    var w := Run(setup, turns);
    RunMore(setup, turns, !from, Keepalive);
    more := Repeated(Turn(!from, Deliver), |EndAt(w, from).session.sent| - EndAt(w, !from).handled);
    OpenHandlesAll(setup, turns, !from, id, |more|);
    var w1 := Run(setup, turns + more);
    StreamShows(setup, turns + more, from, id);
    assert EndAt(w1, from).session.sent[..EndAt(w1, !from).handled] == EndAt(w1, from).session.sent;
    SmuxKeepsStream(setup, turns + more, !from, id);
  }

  /** The receiver gets its stream and its socket ready, if they are not. */
  lemma ReceiverStarts(setup: Setup, turns: seq<Turn>, from: bool, id: u32) returns (more: seq<Turn>)
    requires SetupOk(setup) && NotClosed(turns, !from, id) && NeverFailed(turns, !from, id)
    requires id in EndAt(Run(setup, turns), from).session.streams
    ensures CanGoOn(setup, turns, more) && OnlyAdvance(more, from, id) && NeverFailed(turns + more, !from, id)
    ensures EndAt(Run(setup, turns + more), from) == EndAt(Run(setup, turns), from)
    ensures BothOpen(Run(setup, turns + more), from, id)
  {
    hide Run, CanGoOn, Moved, Ready, WellFormed, MoveOk;
    var opening := ReceiverOpens(setup, turns, from, id);
    var x, y := EndAt(Run(setup, turns + opening), from), EndAt(Run(setup, turns + opening), !from);
    if y.session.streams[id].tcpReady {
      more := opening;
    } else {
      var t := Turn(!from, OnStream(id, SocketReady));
      RunMore(setup, turns + opening, !from, t.move);
      ReadyCarries(ConfigAt(setup, !from), setup.cipher, y, x.session.sent, id);
      GoOnOne(setup, turns + opening, t);
      GoOnBoth(setup, turns, opening, [t]);
      more := opening + [t];
    }
  }

  /** From any point of any run: what has been read at an end that has the stream can be delivered. If at the other
      end neither stream nor session was closed and no write has failed, then deliveries, the socket there becoming
      ready and its completed writes, each possible when it comes, lead to a point where all of it has been written.
      */
  lemma SmuxReadIsDelivered(setup: Setup, turns: seq<Turn>, from: bool, id: u32) returns (more: seq<Turn>)
    requires SetupOk(setup) && LawfulCipher(setup.cipher)
    requires NotClosed(turns, !from, id) && NeverFailed(turns, !from, id)
    requires id in EndAt(Run(setup, turns), from).session.streams
    ensures CanGoOn(setup, turns, more) && OnlyAdvance(more, from, id)
    ensures var w, w' := Run(setup, turns), Run(setup, turns + more);
            && HistoryOf(EndAt(w', from), id).queued == HistoryOf(EndAt(w, from), id).queued
            && AllWritten(setup, w', from, id)
  {
    hide Run, CanGoOn, LawfulCipher, AllWritten;
    var first := ReceiverStarts(setup, turns, from, id);
    var rest := SmuxReadIsWritten(setup, turns + first, from, id);
    GoOnBoth(setup, turns, first, rest);
    more := first + rest;
  }
}
