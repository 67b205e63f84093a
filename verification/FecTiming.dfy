/** When the parity of a group leaves, and what it is worth in a run with a network that loses packets. */
module FecTiming {
  import opened Bytes
  import opened Numbers
  import opened LinearAlgebra
  import opened CodeMatrix
  import opened ReedSolomonCoder
  import opened FecFormat
  import opened FecSteps
  import opened FecNetwork

  /** Packet i of group g has left. */
  ghost predicate Sent(m: Matrix, d: nat, groups: seq<Group>, network: set<Packet>, g: nat, i: nat)
    requires IsMatrix(m, |m|, d)
  {
    exists packet :: packet in network && Genuine(m, d, groups, g, i, packet)
  }

  lemma SentStays(m: Matrix, d: nat, w: World, w': World, g: nat, i: nat)
    requires IsMatrix(m, |m|, d) && Grown(d, w.groups, w'.groups) && w.network <= w'.network
    requires Sent(m, d, w.groups, w.network, g, i)
    ensures Sent(m, d, w'.groups, w'.network, g, i)
  {
    hide Genuine, Grown;
    var packet :| packet in w.network && Genuine(m, d, w.groups, g, i, packet);
    GenuineGrows(m, d, w.groups, w'.groups, g, i, packet);
  }

  // ----- what one call sends

  /** The parity packets of a call are those of the group that it fills. */
  lemma CallParity(m: Matrix, d: nat, enc: Encoder, payload: Payload, now: u32, k: nat)
    requires EncoderOk(m, d, enc) && 0 < k < |EncodeStep(m, d, enc, payload, now).1|
    ensures enc.shardCount + 1 == d && k <= |m| - d && enc.nextSeq + 1 + |m| - d < U32
    ensures var collected := Collect(enc, DataShard(payload));
            |collected.encodeShards| == d &&
            EncodeStep(m, d, enc, payload, now).1[k]
            == ParityPackets(m, PadAll(collected.encodeShards, collected.maxShardLen), collected.maxShardLen,
                             collected.nextSeq)[k - 1]
  {
    hide Seal, DataShard, Paws, PadAll, EncodedShard;
    GroupFits(|m|, enc.nextSeq);
  }

  /** Packet k of a call follows the k - 1 before it in their group. */
  lemma CallGenuine(m: Matrix, d: nat, enc: Encoder, groups: seq<Group>, payload: Payload, now: u32, k: nat)
    requires EncoderOk(m, d, enc) && groups != [] && EncoderFollows(m, d, enc, groups)
    requires |AddPayload(groups, d, payload)| * |m| <= SEQ_BOUND && IsMatrix(m, |m|, d)
    requires k < |EncodeStep(m, d, enc, payload, now).1|
    ensures Genuine(m, d, AddPayload(groups, d, payload), |groups| - 1, enc.shardCount + k,
                    EncodeStep(m, d, enc, payload, now).1[k])
  {
    hide Seal, DataShard, Paws, PadAll, EncoderFollows, AddPayload, Genuine, ParityPackets, CloseGroup, Collect;
    if k == 0 {
      SentDataGenuine(m, d, enc, groups, payload);
    } else {
      hide EncodeStep;
      CallParity(m, d, enc, payload, now, k);
      SentParityGenuine(m, d, enc, groups, payload, k - 1);
    }
  }

  /** A step of the run is a call of the encoder, or a delivery, which leaves encoder and network as they are. */
  lemma StepGrows(m: Matrix, d: nat, w: World, w': World)
    requires |m| > 0 && Inv(m, d, w) && Next(m, d, w, w')
    ensures Grown(d, w.groups, w'.groups) && w.network <= w'.network
  {
    hide IsCodeMatrix, EncoderFollows, EncoderOk, NetworkGenuine, DecoderOk, SetsGenuine, OutputsSound, Progress,
      DeliveredOut, EncodeStep, AddPayload, Deliver;
    if payload: Payload, now: u32 :| w.groups != [] && Send(m, d, w, w', payload, now) {
      AddPayloadGrows(|m|, d, w.groups, payload);
    } else {
      var packet: Packet, restored: seq<Vector> :| Deliver(m, d, w, w', packet, restored);
      DeliverLeaves(m, d, w, w', packet, restored);
      SameGroupsGrow(|m|, d, w.groups);
    }
  }

  lemma SameGroupsGrow(n: nat, d: nat, groups: seq<Group>)
    requires GroupsOk(n, d, groups)
    ensures Grown(d, groups, groups)
  {}

  lemma DeliverLeaves(m: Matrix, d: nat, w: World, w': World, packet: Packet, restored: seq<Vector>)
    requires |m| > 0 && Deliver(m, d, w, w', packet, restored)
    ensures w'.enc == w.enc && w'.groups == w.groups && w'.network == w.network
  {
    hide DecodeStep, DecoderOk;
  }

  lemma {:induction false} RunGrows(m: Matrix, d: nat, run: seq<World>, k: nat, l: nat)
    requires |m| > 0 && Code(m, d) && IsRun(m, d, run) && k <= l < |run|
    ensures Grown(d, run[k].groups, run[l].groups) && run[k].network <= run[l].network
    decreases l - k
  {
    hide Inv, Next, Code, Init;
    if k == l {
      RunInv(m, d, run, k);
      InvGroups(m, d, run[k]);
      SameGroupsGrow(|m|, d, run[k].groups);
    } else {
      RunGrows(m, d, run, k, l - 1);
      RunInv(m, d, run, l - 1);
      assert Next(m, d, run[l - 1], run[l - 1 + 1]);
      StepGrows(m, d, run[l - 1], run[l]);
      GrownTwice(d, run[k].groups, run[l - 1].groups, run[l].groups);
    }
  }

  lemma GrownTwice(d: nat, a: seq<Group>, b: seq<Group>, c: seq<Group>)
    requires Grown(d, a, b) && Grown(d, b, c)
    ensures Grown(d, a, c)
  {}

  lemma InvGroups(m: Matrix, d: nat, w: World)
    requires Inv(m, d, w)
    ensures IsMatrix(m, |m|, d) && 1 <= d < |m| <= 256 && w.groups != []
    ensures GroupsOk(|m|, d, w.groups) && EncoderFollows(m, d, w.enc, w.groups)
    ensures NetworkGenuine(m, d, w.groups, w.network)
  {
    hide IsCodeMatrix, EncoderFollows, NetworkGenuine, DecoderOk, SetsGenuine, OutputsSound, Progress, DeliveredOut;
    CodeMatrixShape(m, d, |m|);
  }

  // ----- the data packets of every group have left

  ghost predicate DataSent(m: Matrix, d: nat, w: World)
    requires IsMatrix(m, |m|, d)
  {
    forall g, i :: 0 <= g < |w.groups| && 0 <= i < |w.groups[g]| ==> Sent(m, d, w.groups, w.network, g, i)
  }

  lemma SendSends(m: Matrix, d: nat, w: World, w': World, payload: Payload, now: u32, k: nat)
    requires Inv(m, d, w) && Send(m, d, w, w', payload, now) && k < |EncodeStep(m, d, w.enc, payload, now).1|
    ensures IsMatrix(m, |m|, d)
    ensures Sent(m, d, w'.groups, w'.network, |w.groups| - 1, w.enc.shardCount + k)
  {
    hide Inv, EncoderFollows, NetworkGenuine, GroupsOk, EncodeStep, AddPayload, Genuine, IsMatrix;
    InvGroups(m, d, w);
    CallGenuine(m, d, w.enc, w.groups, payload, now, k);
    assert EncodeStep(m, d, w.enc, payload, now).1[k] in w'.network;
  }

  lemma SendKeepsDataSent(m: Matrix, d: nat, w: World, w': World, payload: Payload, now: u32)
    requires Inv(m, d, w) && IsMatrix(m, |m|, d) && DataSent(m, d, w) && Send(m, d, w, w', payload, now)
    requires Grown(d, w.groups, w'.groups) && w.network <= w'.network
    ensures DataSent(m, d, w')
  {
    hide Inv, NetworkGenuine, EncodeStep, Sent, IsMatrix, AddPayload, EncoderOk, Longest, Shards;
    InvGroups(m, d, w);
    EncodedCount(m, d, w.enc, payload, now);
    SendSends(m, d, w, w', payload, now, 0);
    AddPayloadShape(w.groups, d, payload);
    forall g, i | 0 <= g < |w'.groups| && 0 <= i < |w'.groups[g]| ensures Sent(m, d, w'.groups, w'.network, g, i) {
      if g < |w.groups| && i < |w.groups[g]| {
        SentStays(m, d, w, w', g, i);
      }
    }
  }

  lemma {:induction false} RunDataSent(m: Matrix, d: nat, run: seq<World>, k: nat)
    requires |m| > 0 && Code(m, d) && IsRun(m, d, run) && k < |run|
    ensures IsMatrix(m, |m|, d) && DataSent(m, d, run[k])
    decreases k
  {
    hide Inv, Code, Send, Deliver, Sent, IsMatrix;
    RunInv(m, d, run, k);
    InvGroups(m, d, run[k]);
    if k > 0 {
      RunDataSent(m, d, run, k - 1);
      RunInv(m, d, run, k - 1);
      var w, w' := run[k - 1], run[k];
      assert Next(m, d, run[k - 1], run[k - 1 + 1]);
      StepGrows(m, d, w, w');
      if payload: Payload, now: u32 :| w.groups != [] && Send(m, d, w, w', payload, now) {
        SendKeepsDataSent(m, d, w, w', payload, now);
      } else {
        var packet: Packet, restored: seq<Vector> :| Deliver(m, d, w, w', packet, restored);
        DeliverLeaves(m, d, w, w', packet, restored);
      }
    }
  }

  // ----- the parity packets of a group leave when it is filled, or never

  /** No packet of the group from index d on is in the network. */
  ghost predicate NoParity(n: nat, d: nat, network: set<Packet>, g: nat)
    requires n > 0
  {
    forall packet :: packet in network && |packet| >= FEC_HEADER_SIZE ==> !IsParityOf(n, d, packet, g)
  }

  predicate IsParityOf(n: nat, d: nat, packet: Packet, g: nat)
    requires n > 0 && |packet| >= FEC_HEADER_SIZE
  {
    ShardId(PacketSeq(packet), n) == g && ShardIndex(PacketSeq(packet), n) >= d
  }

  /** A group that is not full has no parity yet. */
  lemma OpenGroupHasNone(m: Matrix, d: nat, w: World, g: nat)
    requires |m| > 0 && Inv(m, d, w) && g == |w.groups| - 1
    ensures NoParity(|m|, d, w.network, g)
  {
    hide Inv, Genuine, EncoderFollows, ShardId, ShardIndex, PacketSeq, Body;
    InvGroups(m, d, w);
    forall packet | packet in w.network && |packet| >= FEC_HEADER_SIZE ensures !IsParityOf(|m|, d, packet, g) {
      var g0, i0 :| Genuine(m, d, w.groups, g0, i0, packet);
      GenuineHeader(m, d, w.groups, g0, i0, packet);
      GenuineHolds(m, d, w.groups, g0, i0, packet);
    }
  }

  /** A call adds no parity of another group, and none at all when it sends a single packet. */
  lemma CallAddsNone(m: Matrix, d: nat, enc: Encoder, payload: Payload, now: u32, network: set<Packet>, g: nat)
    requires EncoderOk(m, d, enc) && NoParity(|m|, d, network, g)
    requires enc.nextSeq / |m| != g || |EncodeStep(m, d, enc, payload, now).1| == 1
    ensures NoParity(|m|, d, network + (set p | p in EncodeStep(m, d, enc, payload, now).1), g)
  {
    hide EncodeStep, ShardId, ShardIndex, PacketSeq, PacketFlag, Paws;
    var packets := EncodeStep(m, d, enc, payload, now).1;
    forall packet | packet in packets && |packet| >= FEC_HEADER_SIZE ensures !IsParityOf(|m|, d, packet, g) {
      var k :| 0 <= k < |packets| && packets[k] == packet;
      EncodedNumbers(m, d, enc, payload, now, k);
    }
  }

  /** The group of the next number is the last one. */
  lemma NextIsInLast(m: Matrix, d: nat, enc: Encoder, groups: seq<Group>)
    requires 0 < d < |m| && groups != [] && EncoderFollows(m, d, enc, groups)
    ensures enc.nextSeq / |m| == |groups| - 1
  {
    hide Shards, Longest;
    DivModIs(|m|, enc.nextSeq, |groups| - 1, |groups[|groups| - 1]|);
  }

  lemma {:induction false} NeverAnyParity(m: Matrix, d: nat, run: seq<World>, k: nat, l: nat, g: nat)
    requires |m| > 0 && Code(m, d) && IsRun(m, d, run) && k <= l < |run|
    requires g + 1 < |run[k].groups| && NoParity(|m|, d, run[k].network, g)
    ensures NoParity(|m|, d, run[l].network, g)
    decreases l - k
  {
    hide Inv, Code, Init, Deliver, NoParity, EncoderFollows, NetworkGenuine, GroupsOk, EncodeStep, AddPayload, Grown;
    if k < l {
      NeverAnyParity(m, d, run, k, l - 1, g);
      RunGrows(m, d, run, k, l - 1);
      GrownLonger(d, run[k].groups, run[l - 1].groups);
      RunInv(m, d, run, l - 1);
      var w, w' := run[l - 1], run[l];
      InvGroups(m, d, w);
      assert Next(m, d, run[l - 1], run[l - 1 + 1]);
      if payload: Payload, now: u32 :| w.groups != [] && Send(m, d, w, w', payload, now) {
        NextIsInLast(m, d, w.enc, w.groups);
        CallAddsNone(m, d, w.enc, payload, now, w.network, g);
      } else {
        var packet: Packet, restored: seq<Vector> :| Deliver(m, d, w, w', packet, restored);
        DeliverLeaves(m, d, w, w', packet, restored);
      }
    }
  }

  lemma GrownLonger(d: nat, a: seq<Group>, b: seq<Group>)
    requires Grown(d, a, b)
    ensures |a| <= |b|
  {}

  lemma NoneSent(m: Matrix, d: nat, groups: seq<Group>, network: set<Packet>, g: nat, i: nat)
    requires IsMatrix(m, |m|, d) && 1 <= d < |m| <= 256 && NoParity(|m|, d, network, g) && i >= d
    ensures !Sent(m, d, groups, network, g, i)
  {
    hide Genuine, ShardId, ShardIndex, PacketSeq;
    if Sent(m, d, groups, network, g, i) {
      var packet :| packet in network && Genuine(m, d, groups, g, i, packet);
      GenuineHeader(m, d, groups, g, i, packet);
    }
  }

  // ----- the theorems about runs

  ghost predicate Calls(m: Matrix, d: nat, w: World, w': World, now: u32) {
    w.groups != [] && exists payload: Payload :: Send(m, d, w, w', payload, now)
  }

  ghost predicate Delivers(m: Matrix, d: nat, w: World, w': World)
    requires |m| > 0
  {
    exists packet: Packet, restored: seq<Vector> :: Deliver(m, d, w, w', packet, restored)
  }

  /** Step k of the run is a call that fills the last group; t1 is the reading of the call before, in step j. */
  ghost predicate FillsGroup(m: Matrix, d: nat, run: seq<World>, j: nat, t1: u32, k: nat, payload: Payload, t2: u32)
    requires |m| > 0
  {
    && j < k && k + 1 < |run| && run[k].groups != []
    && |run[k].groups[|run[k].groups| - 1]| + 1 == d
    && Calls(m, d, run[j], run[j + 1], t1) && Send(m, d, run[k], run[k + 1], payload, t2)
    && forall l :: j < l < k ==> Delivers(m, d, run[l], run[l + 1])
  }

  lemma {:induction false} OnlyDeliveries(m: Matrix, d: nat, run: seq<World>, j: nat, k: nat)
    requires |m| > 0 && j <= k < |run|
    requires forall l :: j <= l < k ==> Delivers(m, d, run[l], run[l + 1])
    ensures run[k].enc == run[j].enc
    decreases k - j
  {
    hide Deliver;
    if j < k {
      OnlyDeliveries(m, d, run, j, k - 1);
      assert Delivers(m, d, run[k - 1], run[k - 1 + 1]);
      var packet: Packet, restored: seq<Vector> :| Deliver(m, d, run[k - 1], run[k], packet, restored);
      DeliverLeaves(m, d, run[k - 1], run[k], packet, restored);
    }
  }

  lemma CallsAt(m: Matrix, d: nat, w: World, w': World, now: u32)
    requires Calls(m, d, w, w', now)
    ensures w'.enc.latestPacketMs == now
  {
    hide EncodeStep, AddPayload, EncoderOk;
    var payload: Payload :| Send(m, d, w, w', payload, now);
    EncodedCount(m, d, w.enc, payload, now);
  }

  lemma LastShards(m: Matrix, d: nat, w: World)
    requires |m| > 0 && Inv(m, d, w)
    ensures w.groups != [] && EncoderOk(m, d, w.enc) && w.enc.shardCount == |w.groups[|w.groups| - 1]|
    ensures w.enc.nextSeq / |m| == |w.groups| - 1
  {
    hide Inv, EncoderOk, NetworkGenuine, GroupsOk, Shards, Longest;
    InvGroups(m, d, w);
    NextIsInLast(m, d, w.enc, w.groups);
  }

  /** How many packets the filling call sends. */
  lemma FillingCount(m: Matrix, d: nat, run: seq<World>, j: nat, t1: u32, k: nat, payload: Payload, t2: u32)
    requires |m| > 0 && Code(m, d) && IsRun(m, d, run) && FillsGroup(m, d, run, j, t1, k, payload, t2)
    ensures EncoderOk(m, d, run[k].enc) && run[k].enc.shardCount + 1 == d
    ensures run[k].enc.nextSeq / |m| == |run[k].groups| - 1
    ensures |EncodeStep(m, d, run[k].enc, payload, t2).1| == if t1 != 0 && t2 < t1 + 500 then 1 + |m| - d else 1
  {
    hide Inv, Code, Calls, Delivers, Send, EncodeStep, IsRun, EncoderOk;
    OnlyDeliveries(m, d, run, j + 1, k);
    CallsAt(m, d, run[j], run[j + 1], t1);
    RunInv(m, d, run, k);
    LastShards(m, d, run[k]);
    EncodedCount(m, d, run[k].enc, payload, t2);
  }

  /** When a call fills a group, its data packets have all left, and its parity packets leave with it, or never:
      exactly when the call before read the clock less than half a second earlier, and not as zero. */
  lemma FilledGroup(m: Matrix, d: nat, run: seq<World>, j: nat, t1: u32, k: nat, payload: Payload, t2: u32, l: nat,
                    i: nat)
    requires |m| > 0 && Code(m, d) && IsRun(m, d, run) && FillsGroup(m, d, run, j, t1, k, payload, t2)
    requires k < l < |run| && i < |m|
    ensures IsMatrix(m, |m|, d)
    ensures Sent(m, d, run[l].groups, run[l].network, |run[k].groups| - 1, i) <==> i < d || (t1 != 0 && t2 < t1 + 500)
  {
    hide Inv, Code, Delivers, Calls, EncodeStep, AddPayload, NetworkGenuine, IsRun, IsMatrix, GroupsOk, Sent, NoParity,
      EncoderFollows, EncoderOk, Grown;
    var g := |run[k].groups| - 1;
    FillingCount(m, d, run, j, t1, k, payload, t2);
    RunInv(m, d, run, k);
    InvGroups(m, d, run[k]);
    RunGrows(m, d, run, k + 1, l);
    FilledBecomes(m, d, run[k], run[k + 1], payload, t2);
    if i < d {
      FilledHasData(m, d, run, k + 1, l, g, i);
    } else if t1 != 0 && t2 < t1 + 500 {
      SendSends(m, d, run[k], run[k + 1], payload, t2, i + 1 - d);
      SentStays(m, d, run[k + 1], run[l], g, i);
    } else {
      OpenGroupHasNone(m, d, run[k], g);
      CallAddsNone(m, d, run[k].enc, payload, t2, run[k].network, g);
      NeverAnyParity(m, d, run, k + 1, l, g);
      NoneSent(m, d, run[l].groups, run[l].network, g, i);
    }
  }

  lemma FilledBecomes(m: Matrix, d: nat, w: World, w': World, payload: Payload, now: u32)
    requires w.groups != [] && Send(m, d, w, w', payload, now) && |w.groups[|w.groups| - 1]| + 1 == d
    ensures |w'.groups| == |w.groups| + 1
    ensures w'.groups[|w.groups| - 1] == w.groups[|w.groups| - 1] + [payload]
    ensures w'.network == w.network + set p | p in EncodeStep(m, d, w.enc, payload, now).1
  {
    hide EncodeStep, AddPayload, EncoderOk;
    AddPayloadShape(w.groups, d, payload);
  }

  lemma FilledHasData(m: Matrix, d: nat, run: seq<World>, k: nat, l: nat, g: nat, i: nat)
    requires |m| > 0 && Code(m, d) && IsRun(m, d, run) && k <= l < |run|
    requires g < |run[k].groups| && i < |run[k].groups[g]|
    ensures IsMatrix(m, |m|, d) && Sent(m, d, run[l].groups, run[l].network, g, i)
  {
    hide Inv, Code, IsRun, IsMatrix, Sent;
    RunGrows(m, d, run, k, l);
    RunDataSent(m, d, run, l);
    assert run[k].groups[g] <= run[l].groups[g];
  }

  // ----- what the parity is worth

  /** At most one false place for every lost index. */
  lemma {:induction false} AllButLost(mask: seq<bool>, lost: set<nat>, k: nat)
    requires k <= |mask| && forall i: nat :: i < k && i !in lost ==> mask[i]
    ensures CountBelow(mask, k) + |LostBelow(lost, k)| >= k
    decreases k
  {
    if k > 0 {
      AllButLost(mask, lost, k - 1);
      if k - 1 in lost {
        assert LostBelow(lost, k) == LostBelow(lost, k - 1) + {k - 1};
      } else {
        assert LostBelow(lost, k) == LostBelow(lost, k - 1);
      }
    }
  }

  ghost function LostBelow(lost: set<nat>, k: nat): set<nat> {
    set i | i in lost && i < k
  }

  lemma LostAtMost(lost: set<nat>, k: nat)
    ensures |LostBelow(lost, k)| <= |lost|
  {
    assert lost == LostBelow(lost, k) + (lost - LostBelow(lost, k));
  }

  /** A group filled in time gives all its payloads, whatever packets of it are lost, as many as it has parity packets,
      if the others come while the group is in reach. */
  lemma FilledGroupSurvives(m: Matrix, d: nat, run: seq<World>, j: nat, t1: u32, k: nat, payload: Payload, t2: u32,
                            l: nat, lost: set<nat>)
    requires |m| > 0 && Code(m, d) && IsRun(m, d, run) && FillsGroup(m, d, run, j, t1, k, payload, t2)
    requires t1 != 0 && t2 < t1 + 500 && k < l < |run| && |lost| <= |m| - d
    requires forall i: nat :: i < |m| && i !in lost ==> (|run[k].groups| - 1, i) in run[l].delivered
    requires run[l].dec.newestShardId <= |run[k].groups| - 1 + MAX_SHARD_SETS
    ensures var g := |run[k].groups| - 1;
            && IsMatrix(m, |m|, d) && (forall i: nat :: i < |m| ==> Sent(m, d, run[l].groups, run[l].network, g, i))
            && g < |run[l].groups| && run[l].groups[g] == run[k].groups[g] + [payload]
            && AllOut(d, run[l].groups[g], run[l].outputs)
  {
    hide Inv, Code, IsRun, IsMatrix, Sent, CountBelow, Grown, AllOut, Calls, Delivers, Send;
    var g := |run[k].groups| - 1;
    FilledNumber(m, d, run, k);
    FilledGroup(m, d, run, j, t1, k, payload, t2, l, 0);
    forall i: nat | i < |m| ensures Sent(m, d, run[l].groups, run[l].network, g, i) {
      FilledGroup(m, d, run, j, t1, k, payload, t2, l, i);
    }
    var mask := Arrived(|m|, run[l].delivered, g);
    AllButLost(mask, lost, |m|);
    LostAtMost(lost, |m|);
    FecCompleteness(m, d, run, l, g);
    FilledStays(m, d, run, j, t1, k, payload, t2, l);
  }

  lemma FilledNumber(m: Matrix, d: nat, run: seq<World>, k: nat)
    requires |m| > 0 && Code(m, d) && IsRun(m, d, run) && k < |run|
    ensures run[k].groups != [] && |run[k].groups| <= SEQ_BOUND
  {
    hide Inv, Code, IsRun;
    RunInv(m, d, run, k);
    InvGroups(m, d, run[k]);
    MulLe(1, |m|, |run[k].groups|);
  }

  lemma FilledStays(m: Matrix, d: nat, run: seq<World>, j: nat, t1: u32, k: nat, payload: Payload, t2: u32, l: nat)
    requires |m| > 0 && Code(m, d) && IsRun(m, d, run) && FillsGroup(m, d, run, j, t1, k, payload, t2) && k < l < |run|
    ensures var g := |run[k].groups| - 1;
            g < |run[l].groups| && run[l].groups[g] == run[k].groups[g] + [payload]
  {
    hide Inv, Code, IsRun, Delivers, Calls, Send;
    FilledBecomes(m, d, run[k], run[k + 1], payload, t2);
    RunGrows(m, d, run, k + 1, l);
    var g := |run[k].groups| - 1;
    assert run[k + 1].groups[g] <= run[l].groups[g] && |run[l].groups[g]| <= d;
  }
}
