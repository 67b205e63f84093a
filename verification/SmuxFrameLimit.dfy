/** No frame of a session carries more stream bytes than its frame size. */
module SmuxFrameLimit {
  import opened Wrappers
  import opened Bytes
  import opened Ciphers
  import opened SmuxFrame
  import opened SmuxState
  import opened SmuxFlush
  import opened SmuxProtocol
  import opened SmuxSystem
  import opened SmuxEndToEnd

  lemma FitsBoth(cfg: Config, a: seq<Frame>, b: seq<Frame>)
    requires AllFit(cfg, a) && AllFit(cfg, b)
    ensures AllFit(cfg, a + b)
  {}

  /** Frames that carry no stream bytes fit. */
  lemma OtherFits(cfg: Config, frames: seq<Frame>)
    requires forall f :: f in frames ==> !f.command.Psh?
    ensures AllFit(cfg, frames)
  {}

  lemma ActFits(cfg: Config, c: StreamCipher, id: u32, st: Stream, e: Event)
    requires OffsetsOk(st.pendingOutbound) && (e.WriteDone? ==> st.pendingTcpWrites != [])
    ensures AllFit(cfg, Act(cfg, c, id, st, e).1)
  {
    hide Flush, AllFit, UpdatePayload, OffsetsOk;
    if e.Read? {
      ReadFits(cfg, c, id, st, e.data);
    } else {
      OtherFits(cfg, Act(cfg, c, id, st, e).1);
    }
  }

  lemma ReadFits(cfg: Config, c: StreamCipher, id: u32, st: Stream, data: ReadChunk)
    requires OffsetsOk(st.pendingOutbound)
    ensures AllFit(cfg, QueueAndFlush(cfg, c, id, st, data).1)
  {
    hide Flush, AllFit;
    if st.closed {
      OtherFits(cfg, []);
    } else {
      FlushFits(cfg, c, id, if data == [] then st else st.(pendingOutbound := st.pendingOutbound + [Pending(data, 0)]));
    }
  }

  lemma AcceptFits(cfg: Config, c: StreamCipher, id: u32, st: Stream, f: Frame)
    requires OffsetsOk(st.pendingOutbound) && WellFormed(cfg.version, f)
    ensures AllFit(cfg, Accept(cfg, c, id, st, f).1)
  {
    hide Flush, AllFit, OffsetsOk, FromLe32;
    if f.command.Upd? && !st.closed {
      FlushFits(cfg, c, id, st.(peerConsumed := FromLe32(f.payload), peerWindow := FromLe32(f.payload[4..])));
    } else {
      OtherFits(cfg, Accept(cfg, c, id, st, f).1);
    }
  }

  /** The frames that a move adds. */
  lemma MoveAdds(cfg: Config, c: StreamCipher, x: Endpoint, incoming: seq<Frame>, m: Move) returns (frames: seq<Frame>)
    requires MoveOk(x, incoming, m) && Ready(x) && (m.Deliver? ==> WellFormed(cfg.version, incoming[x.handled]))
    ensures Moved(cfg, c, x, incoming, m).session.sent == x.session.sent + frames && AllFit(cfg, frames)
  {
    hide Act, Recorded, Accept, Delivered, OffsetsOk, WellFormed, LateFrames, Lingering, HistoryAfter, LateAll, AllFit;
    assert x.session.sent + [] == x.session.sent;
    match m
    case Open =>
      frames := [Frame(Syn, x.session.nextStreamId + 2, [])];
      OtherFits(cfg, frames);
    case OnStream(id, e) =>
      frames := Act(cfg, c, id, x.session.streams[id], e).1;
      ActFits(cfg, c, id, x.session.streams[id], e);
    case LateWrite(id) =>
      frames := LateFrames(cfg, id, x.late[id], !x.session.closed);
      LateFits(cfg, id, x.late[id], !x.session.closed);
    case Keepalive =>
      frames := [Frame(Nop, 0, [])];
      OtherFits(cfg, frames);
    case Shut =>
      frames := [];
      OtherFits(cfg, frames);
    case Deliver =>
      var f := incoming[x.handled];
      if f.id in x.session.streams && !f.command.Nop? {
        frames := Accept(cfg, c, f.id, x.session.streams[f.id], f).1;
        AcceptFits(cfg, c, f.id, x.session.streams[f.id], f);
      } else {
        frames := [];
        OtherFits(cfg, frames);
      }
  }

  lemma LateFits(cfg: Config, id: u32, st: Stream, live: bool)
    requires st.pendingTcpWrites != []
    ensures AllFit(cfg, LateFrames(cfg, id, st, live))
  {
    hide UpdatePayload;
  }

  /** In every run, every frame of stream bytes that an end has sent carries some, and no more than its frame size. */
  lemma {:induction false} SmuxFramesFit(setup: Setup, turns: seq<Turn>, client: bool)
    requires SetupOk(setup)
    ensures AllFit(ConfigAt(setup, client), EndAt(Run(setup, turns), client).session.sent)
    decreases |turns|
  {
    hide Moved, MoveOk, Ready, WellFormed, AllFit, Inv, Next;
    if turns == [] {
      OtherFits(ConfigAt(setup, client), []);
    } else {
      var before, t := turns[..|turns| - 1], turns[|turns| - 1];
      assert turns == before + [t];
      SmuxFramesFit(setup, before, client);
      RunMore(setup, before, t.atClient, t.move);
      var x, y := EndAt(Run(setup, before), t.atClient), EndAt(Run(setup, before), !t.atClient);
      DeliverPossible(x, y, t.move);
      if t.atClient == client && MoveOk(x, y.session.sent, t.move) {
        var frames := MoveAdds(ConfigAt(setup, client), setup.cipher, x, y.session.sent, t.move);
        FitsBoth(ConfigAt(setup, client), x.session.sent, frames);
      }
    }
  }

  /** The same over bytes. */
  lemma BytesFramesFit(bs: ByteSetup, bts: seq<ByteTurn>, client: bool)
    requires ByteSetupOk(bs)
    ensures AllFit(ConfigAt(bs.setup, client), ByteEndAt(ByteRun(bs, bts), client).end.session.sent)
  {
    hide Run, ByteRun, Refined, Locals, ByteLocals, AllFit;
    var turns := BytesRefineFrames(bs, bts);
    SmuxFramesFit(bs.setup, turns, client);
  }
}
