/** What the FEC decoder keeps whatever packets arrive, genuine or not. */
module FecDecoder {
  import opened Bytes
  import opened Numbers
  import opened LinearAlgebra
  import opened ReedSolomonCoder
  import opened FecFormat
  import opened FecSteps

  lemma SmallDifference(x: nat, y: nat)
    requires x < SEQ_BOUND && y < SEQ_BOUND
    ensures TimeDiff(Wrap32(x), Wrap32(y)) == x - y
  {
    DivModIs(U32, x, 0, x);
    DivModIs(U32, y, 0, y);
  }

  lemma ThreeMore(b: nat, n: nat)
    ensures (b + MAX_SHARD_SETS) * n == b * n + MAX_SHARD_SETS * n
  {}

  /** Below the bound the wrapped, signed comparison is the comparison of group numbers. */
  lemma TimeDiffExact(a: nat, b: nat, n: nat)
    requires n > 0 && a * n < SEQ_BOUND && b * n < SEQ_BOUND
    ensures TimeDiff(Wrap32(a * n), Wrap32(b * n)) > 0 <==> b < a
    ensures TimeDiff(Wrap32(a * n), Wrap32(b * n)) <= MAX_SHARD_SETS * n <==> a <= b + MAX_SHARD_SETS
  {
    hide *;
    SmallDifference(a * n, b * n);
    MulLess(a, b, n);
    MulLess(b, a, n);
    MulLess(b + MAX_SHARD_SETS, a, n);
    MulLe(a, b + MAX_SHARD_SETS, n);
    ThreeMore(b, n);
  }

  ghost predicate KeysBounded(dec: Decoder, n: nat) {
    dec.newestShardId * n < SEQ_BOUND && forall id :: id in dec.decodeSets ==> id * n < SEQ_BOUND
  }

  /** Advancing discards exactly the groups more than three behind. */
  lemma AdvanceIs(dec: Decoder, id: u32, n: nat)
    requires n > 0 && KeysBounded(dec, n) && id * n < SEQ_BOUND
    ensures Advance(dec, id, n).newestShardId == if dec.newestShardId < id then id else dec.newestShardId
    ensures var after := Advance(dec, id, n);
            forall g :: g in after.decodeSets <==>
              g in dec.decodeSets && (dec.newestShardId < id ==> id <= g + MAX_SHARD_SETS)
    ensures var after := Advance(dec, id, n);
            forall g :: g in after.decodeSets ==> after.decodeSets[g] == dec.decodeSets[g]
  {
    hide TimeDiff, Wrap32;
    TimeDiffExact(id, dec.newestShardId, n);
    forall g | g in dec.decodeSets
      ensures TimeDiff(Wrap32(id * n), Wrap32(g * n)) <= MAX_SHARD_SETS * n <==> id <= g + MAX_SHARD_SETS
    {
      TimeDiffExact(id, g, n);
    }
  }

  lemma {:induction false} WindowSize(a: set<u32>, low: int, k: nat)
    requires forall x :: x in a ==> low <= x < low + k
    ensures |a| <= k
    decreases k
  {
    if k == 0 {
      assert a == {};
    } else if exists x :: x in a && x == low + k - 1 {
      var x :| x in a && x == low + k - 1;
      WindowSize(a - {x}, low, k - 1);
    } else {
      WindowSize(a, low, k - 1);
    }
  }

  // ----- no set ahead of the newest group, and few of them

  /** The newest group number is below the bound and no stored set is ahead of it. */
  ghost predicate WindowOk(n: nat, dec: Decoder) {
    dec.newestShardId * n < SEQ_BOUND && forall id :: id in dec.decodeSets ==> id <= dec.newestShardId
  }

  /** At most four sets, none more than three behind the newest. */
  ghost predicate FourSets(dec: Decoder) {
    |dec.decodeSets| <= 4 && forall id :: id in dec.decodeSets ==> id <= dec.newestShardId <= id + MAX_SHARD_SETS
  }

  lemma WindowBounds(n: nat, dec: Decoder)
    requires WindowOk(n, dec)
    ensures KeysBounded(dec, n)
  {
    forall id | id in dec.decodeSets ensures id * n < SEQ_BOUND {
      MulLe(id, dec.newestShardId, n);
    }
  }

  /** Right after the newest group number has moved, at most four groups are left, none ahead of it. */
  lemma AdvanceLeavesFour(dec: Decoder, id: u32, n: nat)
    requires n > 0 && KeysBounded(dec, n) && id * n < SEQ_BOUND
    requires forall g :: g in dec.decodeSets ==> g <= dec.newestShardId || g == id
    ensures WindowOk(n, Advance(dec, id, n))
    ensures Advance(dec, id, n).newestShardId != dec.newestShardId ==> FourSets(Advance(dec, id, n))
  {
    AdvanceIs(dec, id, n);
    hide Advance;
    if dec.newestShardId < id {
      WindowSize(Advance(dec, id, n).decodeSets.Keys, id - 3, 4);
    }
  }

  /** The decoder takes a packet as a numbered shard. */
  predicate IsShardPacket(packet: Packet) {
    IsFecPacket(packet) && PacketFlag(packet) != FEC_TYPE_OOB
  }

  /** Any packet at all, as long as its number is below the bound if it has one. */
  ghost predicate LowNumber(packet: Packet) {
    IsShardPacket(packet) ==> PacketSeq(packet) < SEQ_BOUND
  }

  lemma OthersChangeNothing(m: Matrix, d: nat, dec: Decoder, packet: Packet, restored: seq<Vector>, dec': Decoder,
                            output: seq<Payload>)
    requires IsMatrix(m, |m|, d) && DecoderOk(|m|, d, dec)
    requires DecodeStep(m, d, dec, packet, restored, dec', output) && !IsShardPacket(packet)
    ensures dec' == dec
  {
    hide AbsorbStep, DecoderOk, PacketSeq, PacketFlag;
  }

  /** One packet from anywhere: no stored set gets ahead of the newest group, and when that advances at most four sets
      are left, all within three of it. */
  lemma DecodeKeepsWindow(m: Matrix, d: nat, dec: Decoder, packet: Packet, restored: seq<Vector>, dec': Decoder,
                          output: seq<Payload>)
    requires IsMatrix(m, |m|, d) && DecoderOk(|m|, d, dec) && WindowOk(|m|, dec) && LowNumber(packet)
    requires DecodeStep(m, d, dec, packet, restored, dec', output)
    ensures WindowOk(|m|, dec') && (dec'.newestShardId != dec.newestShardId ==> FourSets(dec'))
  {
    hide DecodeStep, PacketSeq, PacketFlag, ShardId, Advance, FourSets, IsShardPacket;
    if dec' != dec {
      if !IsShardPacket(packet) {
        OthersChangeNothing(m, d, dec, packet, restored, dec', output);
      }
      var sets := DecodeMoves(m, d, dec, packet, restored, dec', output);
      var id, moved := ShardId(PacketSeq(packet), |m|), dec.(decodeSets := sets);
      IdInNumbering(PacketSeq(packet), |m|);
      WindowBounds(|m|, dec);
      forall g | g in sets ensures g * |m| < SEQ_BOUND && (g <= dec.newestShardId || g == id) {
        assert g in dec.decodeSets.Keys + {id};
      }
      AdvanceLeavesFour(moved, id, |m|);
    }
  }

  // ----- runs of the decoder alone

  ghost predicate DecoderStep(m: Matrix, d: nat, dec: Decoder, packet: Packet, dec': Decoder) {
    && IsMatrix(m, |m|, d) && DecoderOk(|m|, d, dec)
    && exists restored: seq<Vector>, output: seq<Payload> :: DecodeStep(m, d, dec, packet, restored, dec', output)
  }

  /** A decoder fed one packet after the other from the start. */
  ghost predicate DecoderRun(m: Matrix, d: nat, decs: seq<Decoder>, packets: seq<Packet>) {
    && |decs| == |packets| + 1 && decs[0] == Decoder(map[], 0)
    && forall k :: 0 <= k < |packets| ==> DecoderStep(m, d, decs[k], packets[k], decs[k + 1])
  }

  /** Bounded memory against any packets, corrupted and forged ones included, with numbers below the bound: at no point
      is a set ahead of the newest group, and right after that advances at most four sets are left. */
  lemma {:induction false} DecoderBoundedMemory(m: Matrix, d: nat, decs: seq<Decoder>, packets: seq<Packet>, k: nat)
    requires DecoderRun(m, d, decs, packets) && k <= |packets|
    requires forall j :: 0 <= j < |packets| ==> LowNumber(packets[j])
    ensures WindowOk(|m|, decs[k])
    ensures k > 0 && decs[k].newestShardId != decs[k - 1].newestShardId ==> FourSets(decs[k])
    decreases k
  {
    hide DecodeStep, DecoderOk, FourSets, LowNumber;
    if k > 0 {
      DecoderBoundedMemory(m, d, decs, packets, k - 1);
      var dec, packet, dec' := decs[k - 1], packets[k - 1], decs[k];
      assert DecoderStep(m, d, decs[k - 1], packets[k - 1], decs[k - 1 + 1]);
      var restored: seq<Vector>, output: seq<Payload> :| DecodeStep(m, d, dec, packet, restored, dec', output);
      DecodeKeepsWindow(m, d, dec, packet, restored, dec', output);
    }
  }
}
