/** Updates are batched: a receiver tells of no less than half a buffer at a time. */
module SmuxBatch {
  import opened Wrappers
  import opened Bytes
  import opened Ciphers
  import opened SmuxFrame
  import opened SmuxState
  import opened SmuxFlush
  import opened SmuxProtocol
  import opened SmuxPair
  import opened SmuxSystem
  import opened SmuxProgress
  import opened SmuxLife

  /** From one report to the next lies half a buffer, or the point where the 32-bit count of bytes starts again at
      zero. */
  ghost predicate FarApart(cfg: Config, before: nat, report: nat) {
    || report - before >= (if cfg.streamBuffer < 2 then 1 else cfg.streamBuffer / 2)
    || (exists rounds: nat :: before <= rounds * U32 < report)
  }

  ghost predicate Spaced(cfg: Config, reports: seq<nat>) {
    forall k :: 0 < k < |reports| ==> FarApart(cfg, reports[k - 1], reports[k])
  }

  lemma SpacedMore(cfg: Config, reports: seq<nat>, report: nat)
    requires Spaced(cfg, reports) && (reports != [] ==> FarApart(cfg, Last(reports), report))
    ensures Spaced(cfg, reports + [report])
  {
    hide FarApart;
  }

  lemma RoundsOf(n: nat)
    requires Wrap32(n) == 0
    ensures n / U32 * U32 == n
  {}

  lemma WrapStays(n: nat, bytes: nat)
    requires bytes < U16 && Wrap32(Wrap32(n) + bytes) == Wrap32(bytes)
    ensures Wrap32(n) == 0
  {
    SmallWrap(bytes);
  }

  /** A report is due: half a buffer has been written since the last one, or the count has come round. */
  lemma MarkSpaces(cfg: Config, id: u32, st: Stream, h: History, bytes: nat)
    requires cfg.version == 2 && 0 < bytes < U16 && ConfigOk(cfg) && BatchOk(cfg, st, h) && h.reports != []
    requires MarkConsumed(cfg, id, st, bytes).1 != []
    ensures FarApart(cfg, Last(h.reports), h.out + bytes)
  {
    hide UpdatePayload;
    SmallWrap(st.incr + bytes);
    if st.incr + bytes < AtLeastOne(cfg.streamBuffer / 2) {
      WrapStays(h.out, bytes);
      RoundsOf(h.out);
      assert Last(h.reports) <= h.out / U32 * U32 < h.out + bytes;
    }
  }

  /** A completed write keeps the reports apart. */
  lemma WriteSpaces(cfg: Config, id: u32, st: Stream, h: History)
    requires st.pendingTcpWrites != [] && 0 < |st.pendingTcpWrites[0]| < U16 && ConfigOk(cfg)
    requires (cfg.version == 2 ==> BatchOk(cfg, st, h)) && Spaced(cfg, h.reports)
    ensures Spaced(cfg, Recorded(st, h, Event.WriteDone, SmuxState.WriteDone(cfg, id, st).1).reports)
  {
    hide Spaced, FarApart, MarkConsumed, BatchOk;
    var bytes := |st.pendingTcpWrites[0]|;
    var popped := st.(tcpWriteActive := false, pendingTcpWrites := st.pendingTcpWrites[1..]);
    if cfg.version != 2 {
      Version1Counts(cfg, id, popped, bytes);
    } else if MarkConsumed(cfg, id, popped, bytes).1 != [] {
      BatchFields(cfg, st, popped, h);
      if h.reports != [] {
        MarkSpaces(cfg, id, popped, h, bytes);
      }
      SpacedMore(cfg, h.reports, h.out + bytes);
    }
  }

  lemma StepSpaces(cfg: Config, c: StreamCipher, id: u32, v: View, p: View, s: Step)
    requires StepOk(cfg, v, p, s) && EndOk(cfg, c, v) && ConfigOk(cfg) && Spaced(cfg, v.history.reports)
    ensures Spaced(cfg, Stepped(cfg, c, id, v, s).history.reports)
  {
    hide Spaced, Act, Accept, OffsetsOk, WellFormed, Lingering, SenderOk, ReportsOk, BatchOk, AllWellFormed, DecAt,
      Concat, Data, SmuxState.WriteDone;
    if s.Acted? && s.e.WriteDone? {
      var st := v.stream.value;
      WritePops(st, v.history);
      WriteSpaces(cfg, id, st, v.history);
      ActIsWrite(cfg, c, id, st);
    } else if s.WroteLate? && s.live {
      WritePops(v.late.value, v.history);
      WriteSpaces(cfg, id, v.late.value, v.history);
    }
  }

  lemma ActIsWrite(cfg: Config, c: StreamCipher, id: u32, st: Stream)
    requires OffsetsOk(st.pendingOutbound) && st.pendingTcpWrites != []
    ensures Act(cfg, c, id, st, Event.WriteDone).1 == SmuxState.WriteDone(cfg, id, st).1
  {
    hide SmuxState.WriteDone;
  }

  /** In every run, an end tells its peer of no less than half its buffer at a time, but for the first report and the
      one where the count comes round. */
  lemma {:induction false} SmuxReportsSpaced(setup: Setup, turns: seq<Turn>, client: bool, id: u32)
    requires SetupOk(setup)
    ensures Spaced(ConfigAt(setup, client), HistoryOf(EndAt(Run(setup, turns), client), id).reports)
    decreases |turns|
  {
    hide Run, StepOk, Stepped, StepOf, CanTurn, EndOk, Spaced, Only, MoveOk, Moved, Inv;
    if turns == [] {
      StartIs(setup);
      NoReports(ConfigAt(setup, client));
    } else {
      var before, t := turns[..|turns| - 1], turns[|turns| - 1];
      assert turns == before + [t];
      SmuxReportsSpaced(setup, before, client, id);
      var s := TurnShows(setup, before, t, id);
      if t.atClient == client {
        var w := Run(setup, before);
        BookAt(setup, before, client, id);
        StepSpaces(ConfigAt(setup, client), setup.cipher, id, ViewOf(EndAt(w, client), EndAt(w, !client), id),
                   ViewOf(EndAt(w, !client), EndAt(w, client), id), s);
      }
    }
  }

  lemma NoReports(cfg: Config)
    ensures Spaced(cfg, [])
  {}
}
