/** What was received is written: socket writes start, go on, and come to an end. */
module SmuxProgress {
  import opened Wrappers
  import opened Bytes
  import opened Ciphers
  import opened SmuxFrame
  import opened SmuxState
  import opened SmuxFlush
  import opened SmuxProtocol
  import opened SmuxStreamPair
  import opened SmuxSystem
  import opened SmuxEndToEnd

  // ----- a socket write is under way whenever there is something to write

  ghost predicate Writing(st: Stream) {
    !st.closed && st.tcpReady && st.pendingTcpWrites != [] ==> st.tcpWriteActive
  }

  /** Flushing leaves the socket alone. */
  lemma FlushLeavesSocket(cfg: Config, c: StreamCipher, id: u32, st: Stream)
    requires OffsetsOk(st.pendingOutbound)
    ensures var st' := Flush(cfg, c, id, st).0;
            && st'.closed == st.closed && st'.tcpReady == st.tcpReady && st'.tcpWriteActive == st.tcpWriteActive
            && st'.pendingTcpWrites == st.pendingTcpWrites
  {
    hide Flush, Data, PendingBytes, EncAt, OnlyData, AvailablePeerWindow;
    FlushSpec(cfg, c, id, st);
  }

  /** A stream whose socket becomes ready, or has done a write, starts the next one; data that arrive wait for the one
      under way or start one. */
  lemma ActStartsWrite(cfg: Config, c: StreamCipher, id: u32, st: Stream, e: Event)
    requires OffsetsOk(st.pendingOutbound) && (e.WriteDone? ==> st.pendingTcpWrites != [])
    requires e.SocketReady? || e.WriteDone? || (!e.WriteFailed? && Writing(st))
    ensures Act(cfg, c, id, st, e).0.Some? ==> Writing(Act(cfg, c, id, st, e).0.value)
  {
    hide Flush, UpdatePayload, OffsetsOk;
    if e.Read? && !st.closed {
      QueuedOk(st, e.data);
      FlushLeavesSocket(cfg, c, id, Queued(st, e.data));
    }
  }

  function Queued(st: Stream, data: ReadChunk): Stream {
    if data == [] then st else st.(pendingOutbound := st.pendingOutbound + [Pending(data, 0)])
  }

  lemma QueuedOk(st: Stream, data: ReadChunk)
    requires OffsetsOk(st.pendingOutbound)
    ensures OffsetsOk(Queued(st, data).pendingOutbound)
  {}

  lemma DataStartsWrite(c: StreamCipher, st: Stream, payload: seq<byte>)
    requires !st.closed && payload != []
    ensures var st' := OnData(c, st, payload);
            && st'.pendingTcpWrites == st.pendingTcpWrites + [DecAt(c, st.decPos, payload)]
            && (st.tcpReady ==> st'.tcpWriteActive)
  {
    hide DecAt;
  }

  lemma AcceptLeavesSocket(cfg: Config, c: StreamCipher, id: u32, st: Stream, f: Frame)
    requires OffsetsOk(st.pendingOutbound) && WellFormed(cfg.version, f)
    ensures var st' := Accept(cfg, c, id, st, f).0;
            && st'.closed == st.closed && st'.tcpReady == st.tcpReady
            && (Writing(st) ==> Writing(st'))
  {
    hide Flush, FromLe32, DecAt, OffsetsOk;
    if f.command.Upd? && !st.closed {
      var told := st.(peerConsumed := FromLe32(f.payload), peerWindow := FromLe32(f.payload[4..]));
      FlushLeavesSocket(cfg, c, id, told);
    }
  }

  /** The stream, if the session has it, has its write under way. */
  ghost predicate WritingIn(x: Endpoint, id: u32) {
    id in x.session.streams ==> Writing(x.session.streams[id])
  }

  lemma MoveKeepsWriting(cfg: Config, c: StreamCipher, x: Endpoint, incoming: seq<Frame>, m: Move, id: u32)
    requires MoveOk(x, incoming, m) && Ready(x) && (m.Deliver? ==> WellFormed(cfg.version, incoming[x.handled]))
    requires WritingIn(x, id) && m != OnStream(id, WriteFailed)
    ensures WritingIn(Moved(cfg, c, x, incoming, m), id)
  {
    hide Act, Recorded, Accept, Delivered, OffsetsOk, WellFormed, LateFrames, Lingering, HistoryAfter, LateAll;
    if m.OnStream? && m.id == id {
      ActStartsWrite(cfg, c, id, x.session.streams[id], m.e);
    } else if m.Deliver? && incoming[x.handled].id == id && id in x.session.streams {
      AcceptLeavesSocket(cfg, c, id, x.session.streams[id], incoming[x.handled]);
    }
  }

  /** No socket write of this stream has failed at this end. */
  ghost predicate NeverFailed(turns: seq<Turn>, client: bool, id: u32) {
    Turn(client, OnStream(id, WriteFailed)) !in turns
  }

  /** In every run, a stream that is open and ready and has something to write is writing, unless a write has failed. */
  lemma {:induction false} SmuxWritesStart(setup: Setup, turns: seq<Turn>, client: bool, id: u32)
    requires SetupOk(setup) && NeverFailed(turns, client, id)
    ensures WritingIn(EndAt(Run(setup, turns), client), id)
    decreases |turns|
  {
    hide Moved, MoveOk, Ready, WellFormed, Inv, Next, Writing;
    if turns != [] {
      var before, t := turns[..|turns| - 1], turns[|turns| - 1];
      assert turns == before + [t];
      SmuxWritesStart(setup, before, client, id);
      RunMore(setup, before, t.atClient, t.move);
      var x, y := EndAt(Run(setup, before), t.atClient), EndAt(Run(setup, before), !t.atClient);
      DeliverPossible(x, y, t.move);
      if t.atClient == client && MoveOk(x, y.session.sent, t.move) {
        MoveKeepsWriting(ConfigAt(setup, client), setup.cipher, x, y.session.sent, t.move, id);
      }
    }
  }

  // ----- turns that are possible

  ghost predicate CanTurn(w: World, t: Turn) {
    MoveOk(EndAt(w, t.atClient), EndAt(w, !t.atClient).session.sent, t.move)
  }

  /** After the turns so far, each of the others is possible when it comes. */
  ghost predicate CanGoOn(setup: Setup, turns: seq<Turn>, more: seq<Turn>)
    requires SetupOk(setup)
  {
    forall k :: 0 <= k < |more| ==> CanTurn(Run(setup, turns + more[..k]), more[k])
  }

  lemma GoOnOne(setup: Setup, turns: seq<Turn>, t: Turn)
    requires SetupOk(setup) && CanTurn(Run(setup, turns), t)
    ensures CanGoOn(setup, turns, [t])
  {
    hide CanTurn, Run;
    assert turns + [t][..0] == turns;
  }

  lemma GoOnBoth(setup: Setup, turns: seq<Turn>, a: seq<Turn>, b: seq<Turn>)
    requires SetupOk(setup) && CanGoOn(setup, turns, a) && CanGoOn(setup, turns + a, b)
    ensures CanGoOn(setup, turns, a + b) && turns + a + b == turns + (a + b)
  {
    hide CanTurn, Run;
    var more := a + b;
    forall k | 0 <= k < |more| ensures CanTurn(Run(setup, turns + more[..k]), more[k]) {
      if k < |a| {
        assert more[..k] == a[..k];
      } else {
        assert turns + more[..k] == turns + a + b[..k - |a|];
      }
    }
  }

  // ----- writing out what waits

  lemma OpenEnd(setup: Setup, turns: seq<Turn>, client: bool, id: u32)
    requires SetupOk(setup) && id in EndAt(Run(setup, turns), client).session.streams
    ensures !EndAt(Run(setup, turns), client).session.closed
    ensures !EndAt(Run(setup, turns), client).session.streams[id].closed
  {
    hide Run, StreamInv;
    RunMore(setup, turns, client, Keepalive);
  }

  function WriteTurn(client: bool, id: u32): Turn {
    Turn(client, OnStream(id, Event.WriteDone))
  }

  /** What the turns at one end leave: the stream and its book. */
  ghost predicate Carried(x: Endpoint, x': Endpoint, id: u32) {
    && id in x.session.streams && id in x'.session.streams
    && x'.session.streams[id].tcpReady == x.session.streams[id].tcpReady
    && HistoryOf(x', id).queued == HistoryOf(x, id).queued
    && x.session.sent <= x'.session.sent
  }

  lemma CarriedOn(x: Endpoint, x1: Endpoint, x2: Endpoint, id: u32)
    requires Carried(x, x1, id) && Carried(x1, x2, id)
    ensures Carried(x, x2, id)
  {}

  /** A completed write takes the first part away and starts the next one. */
  lemma WriteDonePops(cfg: Config, c: StreamCipher, id: u32, st: Stream)
    requires OffsetsOk(st.pendingOutbound) && st.pendingTcpWrites != []
    ensures Act(cfg, c, id, st, Event.WriteDone).0.Some?
    ensures var st' := Act(cfg, c, id, st, Event.WriteDone).0.value;
            && st'.closed == st.closed && st'.tcpReady == st.tcpReady
            && st'.pendingTcpWrites == st.pendingTcpWrites[1..]
            && (!st.closed && st.tcpReady ==> st'.tcpWriteActive == (st'.pendingTcpWrites != []))
  {
    hide UpdatePayload, OffsetsOk;
  }

  lemma WriteCarries(cfg: Config, c: StreamCipher, x: Endpoint, id: u32)
    requires Ready(x) && id in x.session.streams && x.session.streams[id].tcpWriteActive
    ensures MoveOk(x, [], OnStream(id, Event.WriteDone))
    ensures var x' := Moved(cfg, c, x, [], OnStream(id, Event.WriteDone));
            && Carried(x, x', id) && x'.handled == x.handled
            && x'.session.streams[id].pendingTcpWrites == x.session.streams[id].pendingTcpWrites[1..]
  {
    hide Act, OffsetsOk;
    WriteDonePops(cfg, c, id, x.session.streams[id]);
  }

  lemma WriteGoesOn(setup: Setup, turns: seq<Turn>, client: bool, id: u32)
    requires SetupOk(setup) && NeverFailed(turns, client, id)
    requires var x := EndAt(Run(setup, turns), client);
             && id in x.session.streams && x.session.streams[id].tcpReady
             && x.session.streams[id].pendingTcpWrites != []
    ensures CanGoOn(setup, turns, [WriteTurn(client, id)])
    ensures var w, w' := Run(setup, turns), Run(setup, turns + [WriteTurn(client, id)]);
            var x, x' := EndAt(w, client), EndAt(w', client);
            && EndAt(w', !client) == EndAt(w, !client)
            && Carried(x, x', id) && x'.handled == x.handled
            && x'.session.streams[id].pendingTcpWrites == x.session.streams[id].pendingTcpWrites[1..]
  {
    hide Run, Moved, Ready, WellFormed, Carried;
    SmuxWritesStart(setup, turns, client, id);
    OpenEnd(setup, turns, client, id);
    RunMore(setup, turns, client, OnStream(id, Event.WriteDone));
    WriteCarries(ConfigAt(setup, client), setup.cipher, EndAt(Run(setup, turns), client), id);
    SameMove(ConfigAt(setup, client), setup.cipher, EndAt(Run(setup, turns), client),
             EndAt(Run(setup, turns), !client).session.sent, id);
    GoOnOne(setup, turns, WriteTurn(client, id));
  }

  /** What has come from the peer does not matter to a completed write. */
  lemma SameMove(cfg: Config, c: StreamCipher, x: Endpoint, incoming: seq<Frame>, id: u32)
    requires Ready(x) && MoveOk(x, [], OnStream(id, Event.WriteDone))
    ensures MoveOk(x, incoming, OnStream(id, Event.WriteDone))
    ensures Moved(cfg, c, x, incoming, OnStream(id, Event.WriteDone))
         == Moved(cfg, c, x, [], OnStream(id, Event.WriteDone))
  {
    hide Act, Recorded;
  }

  function Repeated(t: Turn, n: nat): (turns: seq<Turn>)
    ensures |turns| == n
  {
    seq(n, _ => t)
  }

  /** Whatever waits for a socket that is ready, as many completed writes as there are parts waiting are possible, one
      after the other, and then nothing waits. */
  lemma {:induction false} SmuxWritesOut(setup: Setup, turns: seq<Turn>, client: bool, id: u32, n: nat)
    requires SetupOk(setup) && NeverFailed(turns, client, id)
    requires var x := EndAt(Run(setup, turns), client);
             && id in x.session.streams && x.session.streams[id].tcpReady
             && |x.session.streams[id].pendingTcpWrites| == n
    ensures var more := Repeated(WriteTurn(client, id), n);
            var w, w' := Run(setup, turns), Run(setup, turns + more);
            var x, x' := EndAt(w, client), EndAt(w', client);
            && CanGoOn(setup, turns, more) && EndAt(w', !client) == EndAt(w, !client)
            && Carried(x, x', id) && x'.handled == x.handled
            && x'.session.streams[id].pendingTcpWrites == []
    decreases n
  {
    hide Run, CanGoOn;
    var t := WriteTurn(client, id);
    if n == 0 {
      assert Repeated(t, 0) == [] && turns + [] == turns;
      GoOnNot(setup, turns);
    } else {
      WriteGoesOn(setup, turns, client, id);
      SmuxWritesOut(setup, turns + [t], client, id, n - 1);
      GoOnBoth(setup, turns, [t], Repeated(t, n - 1));
      assert [t] + Repeated(t, n - 1) == Repeated(t, n);
      CarriedOn(EndAt(Run(setup, turns), client), EndAt(Run(setup, turns + [t]), client),
                EndAt(Run(setup, turns + Repeated(t, n)), client), id);
    }
  }

  lemma GoOnNot(setup: Setup, turns: seq<Turn>)
    requires SetupOk(setup)
    ensures CanGoOn(setup, turns, [])
  {}

  // ----- handling all that has come

  /** What the end has sent on the stream is as before, or carries more bytes. */
  ghost predicate SentMore(x: Endpoint, x': Endpoint, id: u32) {
    var tx, tx' := Only(x.session.sent, id), Only(x'.session.sent, id);
    tx' == tx || |Data(tx')| > |Data(tx)|
  }

  lemma {:induction false} DataOfFrames(frames: seq<Frame>)
    requires forall f :: f in frames ==> f.command.Psh? && |f.payload| >= 1
    ensures |Data(frames)| >= |frames|
    decreases |frames|
  {
    hide Data;
    if frames != [] {
      assert frames[0] in frames;
      assert frames == [frames[0]] + frames[1..];
      DataOfFrames(frames[1..]);
      DataAppend([frames[0]], frames[1..]);
      DataOne(frames[0]);
    }
  }

  /** A frame that comes to an open stream makes it send data, or nothing. */
  lemma AcceptSendsData(cfg: Config, c: StreamCipher, id: u32, st: Stream, f: Frame)
    requires OffsetsOk(st.pendingOutbound) && WellFormed(cfg.version, f)
    ensures |Data(Accept(cfg, c, id, st, f).1)| >= |Accept(cfg, c, id, st, f).1|
  {
    hide Flush, FromLe32, DecAt, OffsetsOk, Data;
    if f.command.Upd? && !st.closed {
      var told := st.(peerConsumed := FromLe32(f.payload), peerWindow := FromLe32(f.payload[4..]));
      FlushSendsData(cfg, c, id, told);
    }
  }

  lemma FlushSendsData(cfg: Config, c: StreamCipher, id: u32, st: Stream)
    requires OffsetsOk(st.pendingOutbound)
    ensures |Data(Flush(cfg, c, id, st).1)| >= |Flush(cfg, c, id, st).1|
  {
    hide Flush, Data, FullOrLast;
    FlushFrames(cfg, c, id, st);
    DataOfFrames(Flush(cfg, c, id, st).1);
  }

  lemma DeliverCarries(cfg: Config, c: StreamCipher, x: Endpoint, incoming: seq<Frame>, id: u32)
    requires MoveOk(x, incoming, Deliver) && Ready(x) && WellFormed(cfg.version, incoming[x.handled])
    requires id in x.session.streams
    ensures var x' := Moved(cfg, c, x, incoming, Deliver);
            Carried(x, x', id) && SentMore(x, x', id) && x'.handled == x.handled + 1
  {
    hide Accept, OffsetsOk, WellFormed, Only, Data;
    var f, x' := incoming[x.handled], Moved(cfg, c, x, incoming, Deliver);
    if f.id in x.session.streams && !f.command.Nop? {
      var st := x.session.streams[f.id];
      AcceptLeavesSocket(cfg, c, f.id, st, f);
      AcceptOf(cfg, c, f.id, st, f);
      var frames := Accept(cfg, c, f.id, st, f).1;
      SentView(x, x', frames, f.id, id);
      AcceptSendsData(cfg, c, f.id, st, f);
      DataAppend(Only(x.session.sent, id), frames);
      if frames == [] {
        assert Only(x.session.sent, id) + frames == Only(x.session.sent, id);
      }
    }
  }

  lemma SentMoreOn(x: Endpoint, x1: Endpoint, x2: Endpoint, id: u32)
    requires SentMore(x, x1, id) && SentMore(x1, x2, id)
    ensures SentMore(x, x2, id)
  {
    hide Only, Data;
  }

  lemma NothingCarried(x: Endpoint, id: u32)
    requires id in x.session.streams
    ensures Carried(x, x, id) && SentMore(x, x, id)
  {}

  lemma DeliverGoesOn(setup: Setup, turns: seq<Turn>, client: bool, id: u32)
    requires SetupOk(setup)
    requires var w := Run(setup, turns);
             id in EndAt(w, client).session.streams && EndAt(w, client).handled < |EndAt(w, !client).session.sent|
    ensures CanGoOn(setup, turns, [Turn(client, Deliver)])
    ensures var w, w' := Run(setup, turns), Run(setup, turns + [Turn(client, Deliver)]);
            var x, x' := EndAt(w, client), EndAt(w', client);
            && EndAt(w', !client) == EndAt(w, !client)
            && Carried(x, x', id) && SentMore(x, x', id) && x'.handled == x.handled + 1
  {
    hide Run, Moved, Ready, WellFormed, Carried, SentMore;
    OpenEnd(setup, turns, client, id);
    RunMore(setup, turns, client, Deliver);
    DeliverCarries(ConfigAt(setup, client), setup.cipher, EndAt(Run(setup, turns), client),
                   EndAt(Run(setup, turns), !client).session.sent, id);
    GoOnOne(setup, turns, Turn(client, Deliver));
  }

  /** An end that has a stream open can handle all that the other has sent. */
  lemma {:induction false} SmuxHandlesAll(setup: Setup, turns: seq<Turn>, client: bool, id: u32, n: nat)
    requires SetupOk(setup)
    requires var w := Run(setup, turns);
             && id in EndAt(w, client).session.streams
             && EndAt(w, client).handled + n == |EndAt(w, !client).session.sent|
    ensures var more := Repeated(Turn(client, Deliver), n);
            var w, w' := Run(setup, turns), Run(setup, turns + more);
            var x, x' := EndAt(w, client), EndAt(w', client);
            && CanGoOn(setup, turns, more) && EndAt(w', !client) == EndAt(w, !client)
            && Carried(x, x', id) && SentMore(x, x', id)
            && x'.handled == |EndAt(w, !client).session.sent|
    decreases n
  {
    hide Run, CanGoOn, SentMore;
    var t := Turn(client, Deliver);
    if n == 0 {
      assert Repeated(t, 0) == [] && turns + [] == turns;
      GoOnNot(setup, turns);
      NothingCarried(EndAt(Run(setup, turns), client), id);
    } else {
      DeliverGoesOn(setup, turns, client, id);
      SmuxHandlesAll(setup, turns + [t], client, id, n - 1);
      GoOnBoth(setup, turns, [t], Repeated(t, n - 1));
      assert [t] + Repeated(t, n - 1) == Repeated(t, n);
      var x, x1 := EndAt(Run(setup, turns), client), EndAt(Run(setup, turns + [t]), client);
      var x2 := EndAt(Run(setup, turns + Repeated(t, n)), client);
      CarriedOn(x, x1, x2, id);
      SentMoreOn(x, x1, x2, id);
    }
  }

  // ----- whatever was read can be written at the other end

  /** Both ends have the stream, and the receiving one has its socket ready. */
  ghost predicate BothOpen(w: World, from: bool, id: u32) {
    && id in EndAt(w, from).session.streams && id in EndAt(w, !from).session.streams
    && EndAt(w, !from).session.streams[id].tcpReady
  }

  /** The turns are deliveries, at either end, and completed writes of the receiver. */
  ghost predicate OnlyProgress(turns: seq<Turn>, from: bool, id: u32) {
    forall t :: t in turns ==> t.move.Deliver? || t == WriteTurn(!from, id)
  }

  lemma StillNeverFailed(turns: seq<Turn>, more: seq<Turn>, from: bool, id: u32)
    requires NeverFailed(turns, !from, id) && OnlyProgress(more, from, id)
    ensures NeverFailed(turns + more, !from, id)
  {}

  /** The receiver handles all that has come and writes it out. */
  lemma ReceiverRound(setup: Setup, turns: seq<Turn>, from: bool, id: u32) returns (more: seq<Turn>)
    requires SetupOk(setup) && NeverFailed(turns, !from, id) && BothOpen(Run(setup, turns), from, id)
    ensures CanGoOn(setup, turns, more) && OnlyProgress(more, from, id)
    ensures var w, w' := Run(setup, turns), Run(setup, turns + more);
            var x, y, y' := EndAt(w, from), EndAt(w, !from), EndAt(w', !from);
            && EndAt(w', from) == x && Carried(y, y', id) && y'.handled == |x.session.sent|
            && y'.session.streams[id].pendingTcpWrites == []
  {
    hide Run, CanGoOn, SentMore, Moved, MoveOk, Ready, WellFormed, HistoryOf;
    var w := Run(setup, turns);
    RunMore(setup, turns, !from, Keepalive);
    var handling := Repeated(Turn(!from, Deliver), |EndAt(w, from).session.sent| - EndAt(w, !from).handled);
    SmuxHandlesAll(setup, turns, !from, id, |handling|);
    var w1 := Run(setup, turns + handling);
    StillNeverFailed(turns, handling, from, id);
    var writing := Repeated(WriteTurn(!from, id), |EndAt(w1, !from).session.streams[id].pendingTcpWrites|);
    SmuxWritesOut(setup, turns + handling, !from, id, |writing|);
    GoOnBoth(setup, turns, handling, writing);
    more := handling + writing;
    CarriedOn(EndAt(w, !from), EndAt(w1, !from), EndAt(Run(setup, turns + more), !from), id);
  }

  /** One round: the receiver handles all that has come and writes it out, and the sender handles the updates. */
  lemma Round(setup: Setup, turns: seq<Turn>, from: bool, id: u32) returns (more: seq<Turn>)
    requires SetupOk(setup) && NeverFailed(turns, !from, id) && BothOpen(Run(setup, turns), from, id)
    ensures CanGoOn(setup, turns, more) && OnlyProgress(more, from, id)
    ensures var w, w' := Run(setup, turns), Run(setup, turns + more);
            var x, x', y, y' := EndAt(w, from), EndAt(w', from), EndAt(w, !from), EndAt(w', !from);
            && Carried(x, x', id) && Carried(y, y', id) && SentMore(x, x', id)
            && y'.handled == |x.session.sent| && x'.handled == |y'.session.sent|
            && y'.session.streams[id].pendingTcpWrites == []
  {
    hide Run, CanGoOn, SentMore, Moved, MoveOk, Ready, WellFormed, HistoryOf;
    var receiving := ReceiverRound(setup, turns, from, id);
    var w1 := Run(setup, turns + receiving);
    RunMore(setup, turns + receiving, from, Keepalive);
    var handling := Repeated(Turn(from, Deliver), |EndAt(w1, !from).session.sent| - EndAt(w1, from).handled);
    SmuxHandlesAll(setup, turns + receiving, from, id, |handling|);
    GoOnBoth(setup, turns, receiving, handling);
    more := receiving + handling;
  }

  /** All that was read at one end has been written at the other, and the sender may go on. */
  ghost predicate AllWritten(setup: Setup, w: World, from: bool, id: u32) {
    var x, y := EndAt(w, from), EndAt(w, !from);
    && id in x.session.streams && id in y.session.streams
    && (setup.clientConfig.version == 2 ==> AvailablePeerWindow(x.session.streams[id]) > 0)
    && x.session.streams[id].pendingOutbound == []
    && HistoryOf(y, id).enqueued == HistoryOf(x, id).queued
    && HistoryOf(y, id).out == |HistoryOf(x, id).queued|
  }

  /** A round after which the sender has sent nothing more is the last one. */
  lemma RoundDone(setup: Setup, turns: seq<Turn>, from: bool, id: u32, before: seq<Frame>)
    requires SetupOk(setup) && LawfulCipher(setup.cipher) && BothOpen(Run(setup, turns), from, id)
    requires var x, y := EndAt(Run(setup, turns), from), EndAt(Run(setup, turns), !from);
             && before <= x.session.sent && Only(x.session.sent, id) == Only(before, id)
             && y.handled == |before| && x.handled == |y.session.sent|
             && y.session.streams[id].pendingTcpWrites == []
    ensures AllWritten(setup, Run(setup, turns), from, id)
  {
    hide PairOk, Run, LawfulCipher, AvailablePeerWindow, Only;
    var a, b := RunViews(setup, turns, from, id);
    var x, y := EndAt(Run(setup, turns), from), EndAt(Run(setup, turns), !from);
    assert y.session.sent[..x.handled] == y.session.sent && x.session.sent[..y.handled] == before;
    NoCreditDeadlock(ConfigAt(setup, from), ConfigAt(setup, !from), setup.cipher, a, b);
  }

  /** How much of what was read has not been sent yet. */
  function Unsent(x: Endpoint, id: u32): int {
    |HistoryOf(x, id).queued| - |Data(Only(x.session.sent, id))|
  }

  lemma SentWithinRead(setup: Setup, turns: seq<Turn>, from: bool, id: u32)
    requires SetupOk(setup)
    ensures Unsent(EndAt(Run(setup, turns), from), id) >= 0
  {
    hide Run, Data, Only, EncAt, ReceiverOk, ReportsOk, BatchOk, CreditOk, AllWellFormed;
    var a, b := RunViews(setup, turns, from, id);
  }

  /** From any point of any run: if both ends have the stream, the receiver's socket is ready and none of its writes
      has failed, then deliveries and completed writes, each possible when it comes, lead to a point where all that
      was read at one end has been written at the other. */
  lemma {:induction false} SmuxReadIsWritten(setup: Setup, turns: seq<Turn>, from: bool, id: u32)
    returns (more: seq<Turn>)
    requires SetupOk(setup) && LawfulCipher(setup.cipher)
    requires NeverFailed(turns, !from, id) && BothOpen(Run(setup, turns), from, id)
    ensures CanGoOn(setup, turns, more) && OnlyProgress(more, from, id)
    ensures var w, w' := Run(setup, turns), Run(setup, turns + more);
            && HistoryOf(EndAt(w', from), id).queued == HistoryOf(EndAt(w, from), id).queued
            && AllWritten(setup, w', from, id)
    decreases Unsent(EndAt(Run(setup, turns), from), id)
  {
    hide Run, CanGoOn, Data, Only, LawfulCipher, AllWritten;
    SentWithinRead(setup, turns, from, id);
    var first := Round(setup, turns, from, id);
    var x, x' := EndAt(Run(setup, turns), from), EndAt(Run(setup, turns + first), from);
    if Only(x'.session.sent, id) == Only(x.session.sent, id) {
      RoundDone(setup, turns + first, from, id, x.session.sent);
      more := first;
    } else {
      StillNeverFailed(turns, first, from, id);
      var rest := SmuxReadIsWritten(setup, turns + first, from, id);
      GoOnBoth(setup, turns, first, rest);
      more := first + rest;
    }
  }

  // ----- over bytes

  lemma {:induction false} InLocals(turns: seq<Turn>, t: Turn)
    requires t in turns && !t.move.Deliver?
    ensures t in Locals(turns)
    decreases |turns|
  {
    if turns[|turns| - 1] != t {
      assert t in turns[..|turns| - 1];
      InLocals(turns[..|turns| - 1], t);
    }
  }

  /** Over bytes too, a stream that is open and ready and has something to write is writing. */
  lemma BytesWritesStart(bs: ByteSetup, bts: seq<ByteTurn>, client: bool, id: u32)
    requires ByteSetupOk(bs) && NeverFailed(ByteLocals(bts), client, id)
    ensures WritingIn(ByteEndAt(ByteRun(bs, bts), client).end, id)
  {
    hide Run, ByteRun, Refined, Locals, ByteLocals, Writing;
    var turns := BytesRefineFrames(bs, bts);
    var failed := Turn(client, OnStream(id, WriteFailed));
    if failed in turns {
      InLocals(turns, failed);
    }
    SmuxWritesStart(bs.setup, turns, client, id);
  }
}
