/** The two ends of a stream as one machine: its steps, its invariant, and what the invariant promises. */
module SmuxStreamPair {
  import opened Wrappers
  import opened Bytes
  import opened Ciphers
  import opened SmuxFrame
  import opened SmuxState
  import opened SmuxFlush
  import opened SmuxProtocol
  import opened SmuxPair

  /** The whole invariant of a stream: the books of both ends, and who opened it. */
  ghost predicate StreamOk(cfgO: Config, cfgA: Config, c: StreamCipher, opener: View, acceptor: View) {
    PairOk(cfgO, cfgA, c, opener, acceptor) && RolesOk(opener, acceptor)
  }

  lemma PairSwap(cfgA: Config, cfgB: Config, c: StreamCipher, a: View, b: View)
    requires PairOk(cfgA, cfgB, c, a, b)
    ensures PairOk(cfgB, cfgA, c, b, a)
  {
    hide EndOk, CreditOk;
  }

  lemma BlankOk(cfgO: Config, cfgA: Config, c: StreamCipher)
    ensures StreamOk(cfgO, cfgA, c, BLANK, BLANK)
  {
    hide UpdatePayload, Credit;
    assert EncAt(c, 0, []) == DecAt(c, 0, []) == [];
  }

  /** What the peer knows does not depend on later reports. */
  lemma PeerKept(cfg: Config, peerCfg: Config, v: View, h: History, h': History)
    requires CreditOk(cfg, peerCfg, v, h) && h.reports <= h'.reports
    ensures CreditOk(cfg, peerCfg, v, h')
  {
    hide Data, Updates, WindowOk, Last;
    assert h'.reports[..|Updates(v.rx)|] == h.reports[..|Updates(v.rx)|];
  }

  // ----- an event on the local side

  lemma ActGrows(cfg: Config, c: StreamCipher, id: u32, v: View, e: Event)
    requires v.stream.Some? && SenderOk(c, v) && ReceiverOk(c, v) && Enabled(v.stream.value, e)
    ensures v.history.reports <= ActView(cfg, c, id, v, e).history.reports
    ensures v.tx <= ActView(cfg, c, id, v, e).tx && ActView(cfg, c, id, v, e).rx == v.rx
    ensures NoSyn(Act(cfg, c, id, v.stream.value, e).1)
  {
    hide Flush, Data, PendingBytes, EncAt, DecAt, Concat, Flushed;
    if e.Read? {
      ReadNoSyn(cfg, c, id, v.stream.value, e.data);
    }
  }

  lemma FlushNoSyn(cfg: Config, c: StreamCipher, id: u32, st: Stream)
    requires OffsetsOk(st.pendingOutbound)
    ensures NoSyn(Flush(cfg, c, id, st).1)
  {
    hide Flush, Data, PendingBytes, EncAt, AvailablePeerWindow;
    FlushSpec(cfg, c, id, st);
  }

  lemma ReadNoSyn(cfg: Config, c: StreamCipher, id: u32, st: Stream, data: ReadChunk)
    requires OffsetsOk(st.pendingOutbound)
    ensures NoSyn(QueueAndFlush(cfg, c, id, st, data).1)
  {
    hide Flush, NoSyn;
    if !st.closed {
      FlushNoSyn(cfg, c, id, if data == [] then st else st.(pendingOutbound := st.pendingOutbound + [Pending(data, 0)]));
    } else {
      NoFramesNoSyn();
    }
  }

  lemma NoFramesNoSyn()
    ensures NoSyn([])
  {}

  lemma ActKeepsPair(cfgA: Config, cfgB: Config, c: StreamCipher, id: u32, a: View, b: View, e: Event)
    requires ConfigOk(cfgA) && ConfigOk(cfgB) && PairOk(cfgA, cfgB, c, a, b)
    requires a.stream.Some? && Enabled(a.stream.value, e)
    ensures PairOk(cfgA, cfgB, c, ActView(cfgA, c, id, a, e), b)
  {
    hide SenderOk, ReceiverOk, ReportsOk, BatchOk, AllWellFormed, CreditOk, Act, Recorded;
    StreamFields(cfgA, c, a);
    if e.Read? {
      ReadKeeps(cfgA, cfgB, c, id, a, b.history, e.data);
    } else if e.WriteDone? {
      WriteDoneKeeps(cfgA, cfgB, c, id, a, b.history);
    } else {
      QuietKeeps(cfgA, cfgB, c, id, a, b.history, e);
    }
    ActGrows(cfgA, c, id, a, e);
    PeerKept(cfgB, cfgA, b, a.history, ActView(cfgA, c, id, a, e).history);
  }

  lemma StreamFields(cfg: Config, c: StreamCipher, v: View)
    requires v.stream.Some? && EndOk(cfg, c, v)
    ensures OffsetsOk(v.stream.value.pendingOutbound) && !v.stream.value.closed
    ensures v.stream.value.tcpWriteActive ==> v.stream.value.pendingTcpWrites != []
  {}

  lemma LateFields(cfg: Config, c: StreamCipher, v: View)
    requires v.late.Some? && EndOk(cfg, c, v)
    ensures v.stream.None? && v.late.value.pendingTcpWrites != []
  {}

  lemma NoSynAppend(a: seq<Frame>, b: seq<Frame>)
    requires NoSyn(a) && NoSyn(b)
    ensures NoSyn(a + b)
  {}

  lemma OpenerActs(cfgO: Config, cfgA: Config, c: StreamCipher, id: u32, opener: View, acceptor: View, e: Event)
    requires ConfigOk(cfgO) && ConfigOk(cfgA) && StreamOk(cfgO, cfgA, c, opener, acceptor)
    requires opener.stream.Some? && Enabled(opener.stream.value, e)
    ensures StreamOk(cfgO, cfgA, c, ActView(cfgO, c, id, opener, e), acceptor)
  {
    hide EndOk, CreditOk, Act, Recorded, NoSyn;
    StreamFields(cfgO, c, opener);
    ActKeepsPair(cfgO, cfgA, c, id, opener, acceptor, e);
    ActGrowsOf(cfgO, c, id, opener, e);
    var frames := Act(cfgO, c, id, opener.stream.value, e).1;
    NoSynAppend(opener.tx[1..], frames);
    assert (opener.tx + frames)[1..] == opener.tx[1..] + frames;
  }

  lemma ActGrowsOf(cfg: Config, c: StreamCipher, id: u32, v: View, e: Event)
    requires v.stream.Some? && EndOk(cfg, c, v) && Enabled(v.stream.value, e)
    ensures OffsetsOk(v.stream.value.pendingOutbound)
    ensures e.WriteDone? ==> v.stream.value.pendingTcpWrites != []
    ensures ActView(cfg, c, id, v, e).tx == v.tx + Act(cfg, c, id, v.stream.value, e).1
    ensures ActView(cfg, c, id, v, e).rx == v.rx
    ensures NoSyn(Act(cfg, c, id, v.stream.value, e).1)
  {
    hide Act, Recorded, NoSyn;
    StreamFields(cfg, c, v);
    ActGrows(cfg, c, id, v, e);
  }

  lemma AcceptorActs(cfgO: Config, cfgA: Config, c: StreamCipher, id: u32, opener: View, acceptor: View, e: Event)
    requires ConfigOk(cfgO) && ConfigOk(cfgA) && StreamOk(cfgO, cfgA, c, opener, acceptor)
    requires acceptor.stream.Some? && Enabled(acceptor.stream.value, e)
    ensures StreamOk(cfgO, cfgA, c, opener, ActView(cfgA, c, id, acceptor, e))
  {
    hide EndOk, CreditOk, Act, Recorded, NoSyn;
    StreamFields(cfgA, c, acceptor);
    PairSwap(cfgO, cfgA, c, opener, acceptor);
    ActKeepsPair(cfgA, cfgO, c, id, acceptor, opener, e);
    PairSwap(cfgA, cfgO, c, ActView(cfgA, c, id, acceptor, e), opener);
    ActGrowsOf(cfgA, c, id, acceptor, e);
    NoSynAppend(acceptor.tx, Act(cfgA, c, id, acceptor.stream.value, e).1);
  }

  // ----- a write that completes late

  lemma LateGrows(cfg: Config, id: u32, v: View, live: bool)
    requires v.late.Some? && v.late.value.pendingTcpWrites != []
    ensures v.history.reports <= LateView(cfg, id, v, live).history.reports
    ensures LateView(cfg, id, v, live).rx == v.rx && NoSyn(LateFrames(cfg, id, v.late.value, live))
    ensures LateView(cfg, id, v, live).tx == v.tx + LateFrames(cfg, id, v.late.value, live)
  {
    hide UpdatePayload;
  }

  lemma LateKeepsPair(cfgA: Config, cfgB: Config, c: StreamCipher, id: u32, a: View, b: View, live: bool)
    requires ConfigOk(cfgA) && PairOk(cfgA, cfgB, c, a, b) && a.late.Some?
    ensures a.late.value.pendingTcpWrites != []
    ensures PairOk(cfgA, cfgB, c, LateView(cfgA, id, a, live), b)
  {
    hide EndOk, CreditOk, LateView, NoSyn;
    LateKeeps(cfgA, cfgB, c, id, a, b.history, live);
    LateGrows(cfgA, id, a, live);
    PeerKept(cfgB, cfgA, b, a.history, LateView(cfgA, id, a, live).history);
  }

  lemma OpenerWritesLate(cfgO: Config, cfgA: Config, c: StreamCipher, id: u32, opener: View, acceptor: View, live: bool)
    requires ConfigOk(cfgO) && StreamOk(cfgO, cfgA, c, opener, acceptor) && opener.late.Some?
    ensures opener.late.value.pendingTcpWrites != []
    ensures StreamOk(cfgO, cfgA, c, LateView(cfgO, id, opener, live), acceptor)
  {
    hide EndOk, CreditOk, LateView, NoSyn, LateFrames;
    LateKeepsPair(cfgO, cfgA, c, id, opener, acceptor, live);
    LateGrows(cfgO, id, opener, live);
    var frames := LateFrames(cfgO, id, opener.late.value, live);
    NoSynAppend(opener.tx[1..], frames);
    assert (opener.tx + frames)[1..] == opener.tx[1..] + frames;
  }

  lemma AcceptorWritesLate(cfgO: Config, cfgA: Config, c: StreamCipher, id: u32, opener: View, acceptor: View,
                           live: bool)
    requires ConfigOk(cfgA) && StreamOk(cfgO, cfgA, c, opener, acceptor) && acceptor.late.Some?
    ensures acceptor.late.value.pendingTcpWrites != []
    ensures StreamOk(cfgO, cfgA, c, opener, LateView(cfgA, id, acceptor, live))
  {
    hide EndOk, CreditOk, LateView, NoSyn, LateFrames;
    PairSwap(cfgO, cfgA, c, opener, acceptor);
    LateKeepsPair(cfgA, cfgO, c, id, acceptor, opener, live);
    PairSwap(cfgA, cfgO, c, LateView(cfgA, id, acceptor, live), opener);
    LateGrows(cfgA, id, acceptor, live);
    NoSynAppend(acceptor.tx, LateFrames(cfgA, id, acceptor.late.value, live));
  }

  // ----- opening

  /** A fresh stream: nothing sent or received but the SYN, and no history. */
  ghost predicate FreshView(v: View) {
    v.stream == Some(NEW_STREAM) && v.late == None && v.history == NO_HISTORY && Silent(v.tx) && Silent(v.rx)
  }

  lemma FreshCounts(v: View)
    requires FreshView(v)
    ensures Data(v.tx) == Data(v.rx) == [] && Updates(v.tx) == Updates(v.rx) == []
  {
    hide Silent;
    SilentFrames([], v.tx);
    SilentFrames([], v.rx);
    assert [] + v.tx == v.tx && [] + v.rx == v.rx;
  }

  lemma FreshSending(c: StreamCipher, v: View)
    requires FreshView(v) && Data(v.tx) == []
    ensures SenderOk(c, v)
  {
    hide Silent, Data;
    assert EncAt(c, 0, []) == [];
  }

  lemma FreshReceiving(c: StreamCipher, v: View)
    requires FreshView(v) && Data(v.rx) == []
    ensures ReceiverOk(c, v)
  {
    hide Silent, Data;
    assert DecAt(c, 0, []) == [];
  }

  lemma FreshReports(cfg: Config, v: View)
    requires FreshView(v) && Updates(v.tx) == []
    ensures ReportsOk(cfg, v.history, Updates(v.tx)) && BatchOk(cfg, NEW_STREAM, v.history)
  {
    hide Silent, Updates, Reported;
  }

  lemma FreshCredit(cfg: Config, peerCfg: Config, v: View, peer: History)
    requires FreshView(v) && Data(v.tx) == [] && Updates(v.rx) == []
    ensures CreditOk(cfg, peerCfg, v, peer)
  {
    hide Silent, Data, Updates;
    assert peer.reports[..0] == [];
  }

  lemma FreshBook(cfg: Config, peerCfg: Config, c: StreamCipher, v: View, peer: History)
    requires FreshView(v) && AllWellFormed(cfg.version, v.tx)
    ensures BookOk(cfg, peerCfg, c, v, peer)
  {
    hide SenderOk, ReceiverOk, ReportsOk, BatchOk, CreditOk, AllWellFormed, Silent, Data, Updates;
    FreshCounts(v);
    FreshSending(c, v);
    FreshReceiving(c, v);
    FreshReports(cfg, v);
    FreshCredit(cfg, peerCfg, v, peer);
  }

  lemma OpenerOpens(cfgO: Config, cfgA: Config, c: StreamCipher, id: u32, opener: View, acceptor: View)
    requires StreamOk(cfgO, cfgA, c, opener, acceptor) && opener.tx == []
    ensures StreamOk(cfgO, cfgA, c, OpenView(id, opener), acceptor)
  {
    hide EndOk, CreditOk;
    var started := OpenView(id, opener);
    assert started.tx == [Frame(Syn, id, [])];
    FreshBook(cfgO, cfgA, c, started, acceptor.history);
  }

  // ----- receiving a frame

  lemma AcceptGrows(cfg: Config, c: StreamCipher, id: u32, v: View, f: Frame)
    requires WellFormed(cfg.version, f)
    requires v.stream.Some? ==> OffsetsOk(v.stream.value.pendingOutbound) && !v.stream.value.closed
    ensures var v' := AcceptView(cfg, c, id, v, f);
            && v'.history.reports == v.history.reports
            && v'.rx == v.rx + [f]
            && v.tx <= v'.tx && NoSyn(v'.tx[|v.tx|..])
  {
    hide Flush, DecAt;
    if v.stream.Some? {
      var st := v.stream.value;
      var frames := Accept(cfg, c, id, st, f).1;
      if f.command.Upd? {
        FlushNoSyn(cfg, c, id, st.(peerConsumed := FromLe32(f.payload), peerWindow := FromLe32(f.payload[4..])));
      }
      assert NoSyn(frames);
      assert (v.tx + frames)[|v.tx|..] == frames;
    }
  }

  lemma AcceptKeepsPair(cfgA: Config, cfgB: Config, c: StreamCipher, id: u32, a: View, b: View, f: Frame)
    requires ConfigOk(cfgA) && ConfigOk(cfgB) && cfgA.version == cfgB.version && PairOk(cfgA, cfgB, c, a, b)
    requires a.rx + [f] <= b.tx
    requires a.stream.None? && f.command.Syn? ==> a == BLANK
    ensures WellFormed(cfgA.version, f)
    ensures a.stream.Some? ==> OffsetsOk(a.stream.value.pendingOutbound) && !a.stream.value.closed
    ensures PairOk(cfgA, cfgB, c, AcceptView(cfgA, c, id, a, f), b)
  {
    hide SenderOk, ReceiverOk, ReportsOk, BatchOk, AllWellFormed, CreditOk, Accept, Delivered, AcceptView;
    SentWellFormed(cfgA.version, a.rx, f, b.tx, cfgB, c, b);
    if a.stream.Some? {
      StreamFields(cfgA, c, a);
      if f.command.Psh? {
        DataKeeps(cfgA, cfgB, c, id, a, b, f);
      } else if f.command.Upd? {
        UpdateKeeps(cfgA, cfgB, c, id, a, b, f);
      } else {
        FinKeeps(cfgA, cfgB, c, id, a, b, f);
      }
    } else if f.command.Syn? {
      AcceptOpens(cfgA, cfgB, c, id, f, b.history);
    } else {
      GoneKeeps(cfgA, cfgB, c, id, a, b, f);
    }
    AcceptGrows(cfgA, c, id, a, f);
    PeerKept(cfgB, cfgA, b, a.history, AcceptView(cfgA, c, id, a, f).history);
  }

  lemma AcceptOpens(cfg: Config, peerCfg: Config, c: StreamCipher, id: u32, f: Frame, peer: History)
    requires f.command.Syn?
    ensures BookOk(cfg, peerCfg, c, AcceptView(cfg, c, id, BLANK, f), peer)
  {
    hide BookOk;
    assert [] + [f] == [f];
    FreshBook(cfg, peerCfg, c, AcceptView(cfg, c, id, BLANK, f), peer);
  }

  lemma SentWellFormed(version: int, rx: seq<Frame>, f: Frame, tx: seq<Frame>, cfg: Config, c: StreamCipher, v: View)
    requires rx + [f] <= tx && v.tx == tx && EndOk(cfg, c, v) && cfg.version == version
    ensures WellFormed(version, f)
  {
    hide SenderOk, ReceiverOk, ReportsOk, BatchOk, WellFormed;
    assert tx[|rx|] == f;
  }

  lemma OpenerAccepts(cfgO: Config, cfgA: Config, c: StreamCipher, id: u32, opener: View, acceptor: View, f: Frame)
    requires ConfigOk(cfgO) && ConfigOk(cfgA) && cfgO.version == cfgA.version
    requires StreamOk(cfgO, cfgA, c, opener, acceptor) && opener.rx + [f] <= acceptor.tx
    ensures WellFormed(cfgO.version, f)
    ensures opener.stream.Some? ==> OffsetsOk(opener.stream.value.pendingOutbound) && !opener.stream.value.closed
    ensures StreamOk(cfgO, cfgA, c, AcceptView(cfgO, c, id, opener, f), acceptor)
  {
    hide EndOk, CreditOk, AcceptView, WellFormed;
    assert acceptor.tx[|opener.rx|] == f;
    AcceptKeepsPair(cfgO, cfgA, c, id, opener, acceptor, f);
    AcceptGrows(cfgO, c, id, opener, f);
    var opener' := AcceptView(cfgO, c, id, opener, f);
    assert opener'.tx == opener.tx + opener'.tx[|opener.tx|..];
    assert opener.tx != [];
    assert opener'.tx[1..] == opener.tx[1..] + opener'.tx[|opener.tx|..];
    NoSynAppend(opener.tx[1..], opener'.tx[|opener.tx|..]);
  }

  lemma AcceptorAccepts(cfgO: Config, cfgA: Config, c: StreamCipher, id: u32, opener: View, acceptor: View, f: Frame)
    requires ConfigOk(cfgO) && ConfigOk(cfgA) && cfgO.version == cfgA.version
    requires StreamOk(cfgO, cfgA, c, opener, acceptor) && acceptor.rx + [f] <= opener.tx
    ensures WellFormed(cfgA.version, f)
    ensures acceptor.stream.Some? ==> OffsetsOk(acceptor.stream.value.pendingOutbound) && !acceptor.stream.value.closed
    ensures StreamOk(cfgO, cfgA, c, opener, AcceptView(cfgA, c, id, acceptor, f))
  {
    hide EndOk, CreditOk, AcceptView, WellFormed;
    var k := |acceptor.rx|;
    assert opener.tx[k] == f;
    assert k > 0 ==> opener.tx[1..][k - 1] == f;
    PairSwap(cfgO, cfgA, c, opener, acceptor);
    AcceptKeepsPair(cfgA, cfgO, c, id, acceptor, opener, f);
    var acceptor' := AcceptView(cfgA, c, id, acceptor, f);
    PairSwap(cfgA, cfgO, c, acceptor', opener);
    AcceptGrows(cfgA, c, id, acceptor, f);
    assert acceptor'.tx == acceptor.tx + acceptor'.tx[|acceptor.tx|..];
    NoSynAppend(acceptor.tx, acceptor'.tx[|acceptor.tx|..]);
  }

  // ----- what the invariant promises

  /** What one end hands over for writing is a prefix of what the other end has read. */
  lemma EnqueuedIsPrefix(cfgA: Config, cfgB: Config, c: StreamCipher, a: View, b: View)
    requires LawfulCipher(c) && PairOk(cfgA, cfgB, c, a, b)
    ensures b.history.enqueued <= a.history.queued
  {
    hide Data, EncAt, DecAt, CreditOk, ReportsOk, BatchOk, SendingOk, ReceivingOk, AllWellFormed, LawfulCipher;
    var queued, n := a.history.queued, |Data(a.tx)|;
    DataPrefix(b.rx, a.tx);
    DecPrefix(c, Data(b.rx), Data(a.tx));
    DecEnc(c, 0, queued[..n]);
    assert queued[..n] <= queued;
  }

  /** Version 2: what is sent and not yet written out stays within the credit, whatever the lengths. */
  lemma WindowSafety(cfgA: Config, cfgB: Config, c: StreamCipher, a: View, b: View)
    requires cfgA.version == 2 && PairOk(cfgA, cfgB, c, a, b)
    ensures |Data(a.tx)| - b.history.out <= Credit(cfgB)
  {
    hide Data, EncAt, DecAt, SenderOk, ReceiverOk, BatchOk, WindowOk, AllWellFormed, Reported;
  }

  /** Version 2: the wrapping counters and the sign check compute the window of unbounded counters. */
  lemma WindowIsExact(cfgA: Config, cfgB: Config, c: StreamCipher, a: View, b: View)
    requires cfgA.version == 2 && PairOk(cfgA, cfgB, c, a, b) && ConfigOk(cfgB) && a.stream.Some?
    ensures AvailablePeerWindow(a.stream.value) == Granted(cfgB, a) - (|Data(a.tx)| - Known(a, b.history))
  {
    hide Data, EncAt, DecAt, ReceiverOk, BatchOk, AllWellFormed, Reported, AvailablePeerWindow, PendingBytes, Last;
    WindowExact(a.stream.value, |Data(a.tx)|, Known(a, b.history));
  }

  /** Nothing is under way from a to b, and b has written out all it received. */
  ghost predicate Drained(a: View, b: View) {
    && a.stream.Some? && b.stream.Some?
    && a.rx == b.tx && b.rx == a.tx
    && b.stream.value.pendingTcpWrites == []
  }

  lemma DrainedCounts(cfgA: Config, cfgB: Config, c: StreamCipher, a: View, b: View)
    requires PairOk(cfgA, cfgB, c, a, b) && Drained(a, b)
    ensures b.history.out == |b.history.enqueued| == |Data(a.tx)|
    ensures Known(a, b.history) == Last(b.history.reports)
    ensures Updates(a.rx) == [] <==> b.history.reports == []
  {
    hide Data, EncAt, Updates, BatchOk, SenderOk, WindowOk, AllWellFormed, Reported, Last;
    assert b.history.reports[..|b.history.reports|] == b.history.reports;
    assert Concat(b.stream.value.pendingTcpWrites) == [];
  }

  /** No credit deadlock: an open sender whose peer has written out everything has a positive window, nothing
      is waiting to be sent, and so everything that was read at one end has been written at the other. */
  lemma NoCreditDeadlock(cfgA: Config, cfgB: Config, c: StreamCipher, a: View, b: View)
    requires LawfulCipher(c) && ConfigOk(cfgB) && cfgA.version == cfgB.version
    requires PairOk(cfgA, cfgB, c, a, b) && Drained(a, b)
    ensures cfgA.version == 2 ==> AvailablePeerWindow(a.stream.value) > 0
    ensures a.stream.value.pendingOutbound == []
    ensures b.history.enqueued == a.history.queued && b.history.out == |a.history.queued|
  {
    hide Data, EncAt, DecAt, AllWellFormed, Reported, AvailablePeerWindow, Updates, LawfulCipher, Known;
    DrainedCounts(cfgA, cfgB, c, a, b);
    if cfgA.version == 2 {
      WindowIsExact(cfgA, cfgB, c, a, b);
      assert b.stream.value.incr == b.history.out - Last(b.history.reports);
      assert AvailablePeerWindow(a.stream.value) == Granted(cfgB, a) - b.stream.value.incr;
    }
    assert a.stream.value.pendingOutbound == [];
    assert PendingBytes([]) == [];
    EnqueuedIsPrefix(cfgA, cfgB, c, a, b);
  }
}
