/** Recovery of one group wherever it lies in the numbering, also next to its end, among any other packets. */
module FecAcrossWrap {
  import opened Bytes
  import opened Numbers
  import opened LinearAlgebra
  import opened CodeMatrix
  import opened ReedSolomonCoder
  import opened FecFormat
  import opened FecSteps
  import opened FecDecoder
  import opened FecNetwork

  /** The decoder with this newest group still keeps the set of group g. */
  ghost predicate InReach(n: nat, newest: u32, g: u32) {
    TimeDiff(Wrap32(newest * n), Wrap32(g * n)) <= MAX_SHARD_SETS * n
  }

  // ----- how far the reach goes

  /** How many groups the numbering has. */
  function GroupCount(n: nat): nat
    requires n > 0
  {
    0xffff_ffff / n
  }

  /** The numbers that the end of the numbering leaves unused. */
  lemma GapBound(n: nat)
    requires 0 < n <= 256
    ensures Paws(n) == GroupCount(n) * n && 1 <= U32 - Paws(n) <= n
  {
    var q := 0xffff_ffff / n;
    assert 0xffff_ffff == q * n + 0xffff_ffff % n;
  }

  lemma WrapPlus(v: nat)
    requires v < U32
    ensures Wrap32(v) == v && Wrap32(v - U32) == v
  {}

  lemma WrappedDifference(a: nat, b: nat, v: nat)
    requires a < U32 && b < U32 && v < SEQ_BOUND && (a == b + v || a + U32 == b + v)
    ensures TimeDiff(Wrap32(a), Wrap32(b)) == v
  {
    WrapPlus(a);
    WrapPlus(b);
    WrapPlus(v);
    assert Wrap32(a - b) == v;
  }

  /** k groups on, the signed difference is k groups, and the gap more when the numbering wrapped in between. */
  lemma TimeDiffAround(n: nat, g: u32, k: nat)
    requires 0 < n <= 256 && g < GroupCount(n) && k * n + n < SEQ_BOUND
    ensures GroupCount(n) > 0
    ensures TimeDiff(Wrap32((g + k) % GroupCount(n) * n), Wrap32(g * n))
         == if g + k < GroupCount(n) then k * n else k * n + (U32 - Paws(n))
  {
    hide TimeDiff, Wrap32, Paws, GroupCount;
    GapBound(n);
    PawsPositive(n);
    var count := GroupCount(n);
    MulLess(g, count, n);
    MulLe(count, k, n);
    Apart(g, k, n);
    if g + k < count {
      DivModIs(count, g + k, 0, g + k);
      MulLess(g + k, count, n);
      WrappedDifference((g + k) * n, g * n, k * n);
    } else {
      var h := g + k - count;
      DivModIs(count, g + k, 1, h);
      MulLe(h, g, n);
      Apart(h, count, n);
      WrappedDifference(h * n, g * n, k * n + (U32 - Paws(n)));
    }
  }

  lemma Apart(a: nat, b: nat, n: nat)
    ensures (a + b) * n == a * n + b * n
  {}

  /** The exact reach: three groups on, but only two when the numbering wraps in between. */
  lemma ReachAround(n: nat, g: u32, k: nat)
    requires 0 < n <= 256 && g < GroupCount(n) && k * n + n < SEQ_BOUND
    ensures GroupCount(n) > 0 && (g + k) % GroupCount(n) < U32
    ensures InReach(n, (g + k) % GroupCount(n), g) <==> k <= if g + k < GroupCount(n) then 3 else 2
  {
    hide TimeDiff, Wrap32;
    TimeDiffAround(n, g, k);
    GapBound(n);
    MulLe(k, 2, n);
    MulLe(k, 3, n);
    MulLe(3, k, n);
    MulLe(4, k, n);
  }

  // ----- one group under watch

  /** The packet is a shard of group g. */
  ghost predicate Ours(n: nat, g: u32, packet: Packet)
    requires n > 0
  {
    IsShardPacket(packet) && PacketSeq(packet) < Paws(n) && ShardId(PacketSeq(packet), n) == g
  }

  /** If the packet is a shard of group g, it is the one that the payloads of the group encode to. */
  ghost predicate Honest(m: Matrix, d: nat, group: Group, g: u32, packet: Packet)
    requires |m| > 0 && IsMatrix(m, |m|, d) && |group| == d
  {
    Ours(|m|, g, packet) ==> IsShardOf(m, d, group, packet)
  }

  ghost predicate IsShardOf(m: Matrix, d: nat, group: Group, packet: Packet)
    requires |m| > 0 && IsMatrix(m, |m|, d) && |group| == d && |packet| >= FEC_HEADER_SIZE
  {
    var i := ShardIndex(PacketSeq(packet), |m|);
    && PacketFlag(packet) == (if i < d then FEC_TYPE_DATA else FEC_TYPE_PARITY)
    && packet[FEC_HEADER_SIZE..] == Body(m, d, group, i)
  }

  function Marked(n: nat, g: u32, packet: Packet, arrived: seq<bool>): (marked: seq<bool>)
    requires n > 0 && |packet| >= FEC_HEADER_SIZE && |arrived| == n
    ensures |marked| == n
  {
    arrived[ShardIndex(PacketSeq(packet), n) := true]
  }

  ghost predicate SetIsOurs(m: Matrix, d: nat, group: Group, set_: ShardSet)
    requires IsMatrix(m, |m|, d) && |group| == d
  {
    && |set_.shards| == |set_.present| == |set_.dataShard| == |m|
    && forall i :: 0 <= i < |m| && set_.present[i] ==> set_.shards[i] == Body(m, d, group, i)
  }

  /** What has arrived is in the set, unless the group is out; data shards are out in any case. */
  ghost predicate Watched(m: Matrix, d: nat, group: Group, set_: ShardSet, arrived: seq<bool>, out: seq<Payload>)
    requires IsMatrix(m, |m|, d) && |group| == d <= |m|
  {
    && |arrived| == |m| && SetIsOurs(m, d, group, set_)
    && (forall i :: 0 <= i < d && arrived[i] ==> group[i] in out)
    && (AllOut(d, group, out) || set_.present == arrived)
  }

  /** Advancing does not touch a group in reach. */
  lemma AdvanceKeeps(dec: Decoder, id: u32, n: nat, g: u32)
    requires InReach(n, Advance(dec, id, n).newestShardId, g)
    ensures SetFor(Advance(dec, id, n), g, n) == SetFor(dec, g, n)
  {
    hide TimeDiff, Wrap32, EmptySet;
  }

  /** A packet of another group leaves the set of group g alone. */
  lemma OtherGroup(m: Matrix, d: nat, dec: Decoder, packet: Packet, restored: seq<Vector>, dec': Decoder,
                   output: seq<Payload>, g: u32)
    requires IsMatrix(m, |m|, d) && DecoderOk(|m|, d, dec)
    requires DecodeStep(m, d, dec, packet, restored, dec', output) && !Ours(|m|, g, packet)
    requires InReach(|m|, dec'.newestShardId, g)
    ensures SetFor(dec', g, |m|) == SetFor(dec, g, |m|)
  {
    if dec' != dec {
      hide PacketSeq, PacketFlag, Paws, ShardId, ShardIndex, CountBelow, RestoredSet, Advance, StoredSet,
        RecoveredPayloads, InReach, IsDuplicate, DirectOutput, EmptySet;
      var n, id := |m|, ShardId(PacketSeq(packet), |m|);
      DecoderSetShape(n, d, dec, id);
      var stored := StoredSet(SetFor(dec, id, n), packet, n);
      var sets := if CountBelow(stored.present, n) < d then dec.decodeSets[id := stored] else dec.decodeSets - {id};
      AdvanceKeeps(dec.(decodeSets := sets), id, n, g);
    }
  }

  /** The new shard in its place. */
  lemma StoredIsOurs(m: Matrix, d: nat, group: Group, packet: Packet, set_: ShardSet)
    requires |m| > 0 && IsMatrix(m, |m|, d) && |group| == d && SetIsOurs(m, d, group, set_)
    requires |packet| >= FEC_HEADER_SIZE_PLUS_SIZE && IsShardOf(m, d, group, packet)
    ensures SetIsOurs(m, d, group, StoredSet(set_, packet, |m|))
    ensures StoredSet(set_, packet, |m|).present == Marked(|m|, 0, packet, set_.present)
  {
    hide PacketSeq, PacketFlag, ShardIndex, Body;
  }

  lemma DirectIsOurs(m: Matrix, d: nat, group: Group, packet: Packet)
    requires |m| > 0 && IsMatrix(m, |m|, d) && |group| == d
    requires |packet| >= FEC_HEADER_SIZE_PLUS_SIZE && IsShardOf(m, d, group, packet)
    ensures var i := ShardIndex(PacketSeq(packet), |m|);
            DirectOutput(packet) == if i < d then [group[i]] else []
  {
    hide PacketSeq, PacketFlag, ShardIndex, EncodedShard, Le16;
    var i := ShardIndex(PacketSeq(packet), |m|);
    if i < d {
      assert packet[FEC_HEADER_SIZE_PLUS_SIZE..] == packet[FEC_HEADER_SIZE..][2..];
      assert DataShard(group[i])[2..] == group[i];
    }
  }

  /** A complete set gives what was missing. */
  lemma OursComplete(m: Matrix, d: nat, group: Group, set_: ShardSet, restored: seq<Vector>, recovered: seq<Payload>)
    requires Code(m, d) && IsMatrix(m, |m|, d) && 1 <= d < |m| <= 256 && |group| == d && SetIsOurs(m, d, group, set_)
    requires forall i :: 0 <= i < d ==> |group[i]| + 2 < U16
    requires CountBelow(set_.present, |m|) >= d && RestoredSet(m, d, set_, restored)
    requires recovered == if CountBelow(set_.present, d) == d then []
                          else RecoveredPayloads(set_.present, restored, d)
    ensures forall j :: 0 <= j < d && !set_.present[j] ==> group[j] in recovered
  {
    hide IsCodeMatrix, Body, RecoveredPayloads, RestoredSet, CountBelow;
    assert SetGenuine(m, d, [group, []], 0, set_);
    CompleteSetGives(m, d, [group, []], 0, set_, restored);
  }

  // ----- one packet

  lemma NotOursStep(m: Matrix, d: nat, group: Group, g: u32, dec: Decoder, packet: Packet, restored: seq<Vector>,
                    dec': Decoder, output: seq<Payload>, arrived: seq<bool>, out: seq<Payload>)
    requires IsMatrix(m, |m|, d) && DecoderOk(|m|, d, dec) && |group| == d <= |m|
    requires DecodeStep(m, d, dec, packet, restored, dec', output) && !Ours(|m|, g, packet)
    requires InReach(|m|, dec'.newestShardId, g)
    requires Watched(m, d, group, SetFor(dec, g, |m|), arrived, out)
    ensures Watched(m, d, group, SetFor(dec', g, |m|), arrived, out + output)
  {
    hide DecodeStep, Ours, InReach, SetFor, SetIsOurs, DecoderOk;
    OtherGroup(m, d, dec, packet, restored, dec', output, g);
  }

  /** What a packet of the group does: nothing but the direct output if it is a duplicate, or one more shard. */
  lemma OursUnpacked(m: Matrix, d: nat, group: Group, g: u32, dec: Decoder, packet: Packet, restored: seq<Vector>,
                     dec': Decoder, output: seq<Payload>) returns (recovered: seq<Payload>)
    requires IsMatrix(m, |m|, d) && DecoderOk(|m|, d, dec) && |group| == d <= |m|
    requires DecodeStep(m, d, dec, packet, restored, dec', output) && Ours(|m|, g, packet)
    requires IsShardOf(m, d, group, packet) && SetIsOurs(m, d, group, SetFor(dec, g, |m|))
    requires InReach(|m|, dec'.newestShardId, g)
    ensures var set_ := SetFor(dec, g, |m|);
            var stored := StoredSet(set_, packet, |m|);
            && SetIsOurs(m, d, group, stored)
            && stored.present == set_.present[ShardIndex(PacketSeq(packet), |m|) := true]
            && output == DirectOutput(packet) + recovered
            && if set_.present[ShardIndex(PacketSeq(packet), |m|)] then dec' == dec
               else if CountBelow(stored.present, |m|) < d then SetFor(dec', g, |m|) == stored
               else
                 && SetFor(dec', g, |m|) == EmptySet(|m|)
                 && RestoredSet(m, d, stored, restored)
                 && recovered == if CountBelow(stored.present, d) == d then []
                                 else RecoveredPayloads(stored.present, restored, d)
  {
    hide PacketSeq, PacketFlag, Paws, ShardId, ShardIndex, CountBelow, RestoredSet, Advance, StoredSet,
      RecoveredPayloads, InReach, DirectOutput, EmptySet, SetIsOurs, IsShardOf;
    var n, set_, direct := |m|, SetFor(dec, g, |m|), DirectOutput(packet);
    StoredIsOurs(m, d, group, packet, set_);
    DecoderSetShape(n, d, dec, g);
    if set_.present[ShardIndex(PacketSeq(packet), n)] {
      recovered := [];
      assert direct + [] == direct;
    } else {
      recovered := output[|direct|..];
      var stored := StoredSet(set_, packet, n);
      var sets := if CountBelow(stored.present, n) < d then dec.decodeSets[g := stored] else dec.decodeSets - {g};
      AdvanceKeeps(dec.(decodeSets := sets), g, n, g);
    }
  }

  lemma EmptyIsOurs(m: Matrix, d: nat, group: Group)
    requires IsMatrix(m, |m|, d) && |group| == d
    ensures SetIsOurs(m, d, group, EmptySet(|m|))
  {}

  /** With the set complete, every payload is out: directly, or because it was recovered. */
  lemma AllOutNow(d: nat, group: Group, stored: ShardSet, arrived: seq<bool>, i: nat, out: seq<Payload>,
                  direct: seq<Payload>, recovered: seq<Payload>)
    requires |group| == d <= |stored.present| == |arrived| && i < |arrived|
    requires forall j :: 0 <= j < d && arrived[j] ==> group[j] in out
    requires stored.present == arrived[i := true]
    requires direct == if i < d then [group[i]] else []
    requires forall j :: 0 <= j < d && !stored.present[j] ==> group[j] in recovered
    ensures AllOut(d, group, out + (direct + recovered))
  {
    forall j | 0 <= j < d ensures group[j] in out + (direct + recovered) {
      if j == i {
        assert group[j] in direct;
      } else if arrived[j] {
        assert group[j] in out;
      } else {
        assert !stored.present[j];
      }
    }
  }

  lemma OutGrows(d: nat, group: Group, arrived: seq<bool>, i: nat, out: seq<Payload>, direct: seq<Payload>,
                 recovered: seq<Payload>)
    requires |group| == d <= |arrived| && i < |arrived| && direct == if i < d then [group[i]] else []
    requires forall j :: 0 <= j < d && arrived[j] ==> group[j] in out
    ensures forall j :: 0 <= j < d && arrived[i := true][j] ==> group[j] in out + (direct + recovered)
    ensures AllOut(d, group, out) ==> AllOut(d, group, out + (direct + recovered))
  {
    forall j | 0 <= j < d && arrived[i := true][j] ensures group[j] in out + (direct + recovered) {
      if j == i {
        assert group[j] in direct;
      }
    }
  }

  lemma OursStep(m: Matrix, d: nat, group: Group, g: u32, dec: Decoder, packet: Packet, restored: seq<Vector>,
                 dec': Decoder, output: seq<Payload>, arrived: seq<bool>, out: seq<Payload>)
    requires Code(m, d) && IsMatrix(m, |m|, d) && 1 <= d < |m| <= 256 && DecoderOk(|m|, d, dec) && |group| == d
    requires forall i :: 0 <= i < d ==> |group[i]| + 2 < U16
    requires DecodeStep(m, d, dec, packet, restored, dec', output)
    requires Ours(|m|, g, packet) && IsShardOf(m, d, group, packet) && InReach(|m|, dec'.newestShardId, g)
    requires Watched(m, d, group, SetFor(dec, g, |m|), arrived, out)
    ensures Watched(m, d, group, SetFor(dec', g, |m|), Marked(|m|, g, packet, arrived), out + output)
  {
    hide PacketSeq, PacketFlag, Paws, ShardId, ShardIndex, CountBelow, RestoredSet, StoredSet, RecoveredPayloads, InReach,
      DirectOutput, EmptySet, SetIsOurs, IsShardOf, DecodeStep, DecoderOk, Code, SetFor, AllOut;
    DecoderSetShape(|m|, d, dec, g);
    var set_, i, direct := SetFor(dec, g, |m|), ShardIndex(PacketSeq(packet), |m|), DirectOutput(packet);
    var stored := StoredSet(set_, packet, |m|);
    var recovered := OursUnpacked(m, d, group, g, dec, packet, restored, dec', output);
    DirectIsOurs(m, d, group, packet);
    OutGrows(d, group, arrived, i, out, direct, recovered);
    if !set_.present[i] && CountBelow(stored.present, |m|) >= d {
      EmptyIsOurs(m, d, group);
      OursComplete(m, d, group, stored, restored, recovered);
      if !AllOut(d, group, out) {
        AllOutNow(d, group, stored, arrived, i, out, direct, recovered);
      }
    }
  }

  // ----- the theorem about runs

  /** A stretch of a decoder's life: its states, the packets, what it restored and what it gave out. */
  datatype Stretch = Stretch(decs: seq<Decoder>, packets: seq<Packet>, restored: seq<seq<Vector>>,
                             outputs: seq<seq<Payload>>)

  /** The stretch starts with nothing stored of group g, which stays in reach; what claims to be of the group is. */
  ghost predicate IsStretch(m: Matrix, d: nat, group: Group, g: u32, s: Stretch)
    requires |m| > 0 && IsMatrix(m, |m|, d) && |group| == d
  {
    && |s.decs| == |s.packets| + 1 && |s.restored| == |s.outputs| == |s.packets|
    && g !in s.decs[0].decodeSets && DecoderOk(|m|, d, s.decs[0])
    && forall k :: 0 <= k < |s.packets| ==> StretchStep(m, d, group, g, s, k)
  }

  ghost predicate StretchStep(m: Matrix, d: nat, group: Group, g: u32, s: Stretch, k: nat)
    requires |m| > 0 && IsMatrix(m, |m|, d) && |group| == d
    requires |s.decs| == |s.packets| + 1 && |s.restored| == |s.outputs| == |s.packets| && k < |s.packets|
  {
    && DecoderOk(|m|, d, s.decs[k])
    && DecodeStep(m, d, s.decs[k], s.packets[k], s.restored[k], s.decs[k + 1], s.outputs[k])
    && Honest(m, d, group, g, s.packets[k])
    && InReach(|m|, s.decs[k + 1].newestShardId, g)
  }

  /** The shards of the group among the first k packets. */
  ghost function ArrivedIn(n: nat, g: u32, packets: seq<Packet>, k: nat): (arrived: seq<bool>)
    requires n > 0 && k <= |packets|
    ensures |arrived| == n
    decreases k
  {
    if k == 0 then seq(n, _ => false)
    else if Ours(n, g, packets[k - 1]) then Marked(n, g, packets[k - 1], ArrivedIn(n, g, packets, k - 1))
    else ArrivedIn(n, g, packets, k - 1)
  }

  function OutIn(outputs: seq<seq<Payload>>, k: nat): seq<Payload>
    requires k <= |outputs|
    decreases k
  {
    if k == 0 then [] else OutIn(outputs, k - 1) + outputs[k - 1]
  }

  lemma NothingCounted(n: nat, k: nat)
    requires k <= n
    ensures CountBelow(seq(n, _ => false), k) == 0
    ensures EmptySet(n).present == seq(n, _ => false)
  {
    EmptyCount(n, k);
    assert EmptySet(n).present == seq(n, _ => false);
  }

  lemma {:induction false} StretchWatched(m: Matrix, d: nat, group: Group, g: u32, s: Stretch, k: nat)
    requires Code(m, d) && IsMatrix(m, |m|, d) && 1 <= d < |m| <= 256 && |group| == d
    requires forall i :: 0 <= i < d ==> |group[i]| + 2 < U16
    requires IsStretch(m, d, group, g, s) && k <= |s.packets|
    ensures Watched(m, d, group, SetFor(s.decs[k], g, |m|), ArrivedIn(|m|, g, s.packets, k), OutIn(s.outputs, k))
    decreases k
  {
    hide DecodeStep, DecoderOk, Ours, IsShardOf, InReach, Code, Watched, SetFor;
    if k == 0 {
      StretchStarts(m, d, group, g, s);
    } else {
      StretchWatched(m, d, group, g, s, k - 1);
      assert StretchStep(m, d, group, g, s, k - 1);
      var dec, packet, dec' := s.decs[k - 1], s.packets[k - 1], s.decs[k - 1 + 1];
      var arrived, out := ArrivedIn(|m|, g, s.packets, k - 1), OutIn(s.outputs, k - 1);
      if Ours(|m|, g, packet) {
        OursStep(m, d, group, g, dec, packet, s.restored[k - 1], dec', s.outputs[k - 1], arrived, out);
      } else {
        NotOursStep(m, d, group, g, dec, packet, s.restored[k - 1], dec', s.outputs[k - 1], arrived, out);
      }
    }
  }

  lemma StretchStarts(m: Matrix, d: nat, group: Group, g: u32, s: Stretch)
    requires Code(m, d) && IsMatrix(m, |m|, d) && 1 <= d < |m| <= 256 && |group| == d
    requires IsStretch(m, d, group, g, s)
    ensures Watched(m, d, group, SetFor(s.decs[0], g, |m|), ArrivedIn(|m|, g, s.packets, 0), [])
  {
    hide DecodeStep, DecoderOk, StretchStep, Code;
    NothingCounted(|m|, 0);
    EmptyIsOurs(m, d, group);
  }

  /** Completeness anywhere in the numbering and among any other packets: once d different shards of a group have
      arrived while it stayed in reach, all its payloads have been given out. */
  lemma RecoveredAcrossWrap(m: Matrix, d: nat, group: Group, g: u32, s: Stretch)
    requires Code(m, d) && IsMatrix(m, |m|, d) && 1 <= d < |m| <= 256 && |group| == d
    requires forall i :: 0 <= i < d ==> |group[i]| + 2 < U16
    requires IsStretch(m, d, group, g, s)
    requires CountBelow(ArrivedIn(|m|, g, s.packets, |s.packets|), |m|) >= d
    ensures forall i :: 0 <= i < d ==> group[i] in OutIn(s.outputs, |s.packets|)
  {
    hide DecodeStep, StretchStep, Code, CountBelow, SetIsOurs, EmptySet, Paws;
    var last := |s.packets|;
    StretchWatched(m, d, group, g, s, last);
    StretchDecoderOk(m, d, group, g, s);
    NothingCounted(|m|, |m|);
  }

  /** The last decoder of a stretch keeps its sets incomplete, like all before. */
  lemma StretchDecoderOk(m: Matrix, d: nat, group: Group, g: u32, s: Stretch)
    requires |m| > 0 && IsMatrix(m, |m|, d) && |group| == d && IsStretch(m, d, group, g, s)
    ensures DecoderOk(|m|, d, s.decs[|s.packets|])
  {
    hide DecodeStep, DecoderOk, Honest, InReach;
    if s.packets != [] {
      var k := |s.packets| - 1;
      assert StretchStep(m, d, group, g, s, k);
      DecodeKeepsSets(m, d, s.decs[k], s.packets[k], s.restored[k], s.decs[k + 1], s.outputs[k]);
    }
  }
}
