/** An encoder and a decoder with a network between them that loses, reorders and duplicates packets. */
module FecNetwork {
  import opened Bytes
  import opened Numbers
  import opened LinearAlgebra
  import opened CodeMatrix
  import opened ReedSolomonCoder
  import opened Erasure
  import opened FecFormat
  import opened FecSteps
  import opened FecDecoder

  type Group = seq<Payload>

  /** groups: the payloads given to the encoder, the last group being the one in progress;
      network: every packet that ever left; delivered: group and index of the packets that arrived. */
  datatype World = World(enc: Encoder, dec: Decoder, groups: seq<Group>, network: set<Packet>,
                         delivered: set<(nat, nat)>, outputs: seq<Payload>)

  ghost predicate Code(m: Matrix, d: nat) {
    IsCodeMatrix(m, d, |m|) && d < |m|
  }

  // ----- what the packets of a group contain

  function Shards(group: Group): (s: seq<Vector>)
    ensures |s| == |group|
  {
    seq(|group|, i requires 0 <= i < |group| => DataShard(group[i]))
  }

  function Longest(shards: seq<Vector>): nat {
    if shards == [] then 0 else Max(Longest(shards[..|shards| - 1]), |shards[|shards| - 1]|)
  }

  function Padded(group: Group): (data: seq<Vector>)
    ensures |data| == |group|
  {
    PadAll(Shards(group), Longest(Shards(group)))
  }

  /** Packet i of group g exists once its payload, or for parity the whole group, has been given. */
  ghost predicate Holds(n: nat, d: nat, groups: seq<Group>, g: nat, i: nat) {
    g < |groups| && i < n && if i < d then i < |groups[g]| else |groups[g]| == d
  }

  ghost function Body(m: Matrix, d: nat, group: Group, i: nat): Vector
    requires i < |m| && IsMatrix(m, |m|, d) && if i < d then i < |group| else |group| == d
  {
    if i < d then DataShard(group[i]) else EncodedShard(m[i], Padded(group), Longest(Shards(group)))
  }

  ghost predicate Genuine(m: Matrix, d: nat, groups: seq<Group>, g: nat, i: nat, packet: Packet)
    requires IsMatrix(m, |m|, d)
  {
    Holds(|m|, d, groups, g, i) && g * |m| + i < SEQ_BOUND &&
    packet == Seal(g * |m| + i, if i < d then FEC_TYPE_DATA else FEC_TYPE_PARITY, Body(m, d, groups[g], i))
  }

  // ----- the steps

  ghost predicate Init(m: Matrix, d: nat, w: World) {
    |w.enc.encodeShards| == d &&
    w == World(Encoder(0, 0, 0, 0, w.enc.encodeShards), Decoder(map[], 0), [[]], {}, {}, [])
  }

  function AddPayload(groups: seq<Group>, d: nat, payload: Payload): seq<Group>
    requires groups != []
  {
    var last := groups[|groups| - 1] + [payload];
    groups[..|groups| - 1] + [last] + if |last| == d then [[]] else []
  }

  /** The encoder takes a payload that its length field can describe, numbers below the bound remaining. */
  ghost predicate Send(m: Matrix, d: nat, w: World, w': World, payload: Payload, now: u32)
    requires w.groups != []
  {
    |payload| + 2 < U16 && |AddPayload(w.groups, d, payload)| * |m| <= SEQ_BOUND &&
    EncoderOk(m, d, w.enc) &&
    var (enc, packets) := EncodeStep(m, d, w.enc, payload, now);
    w' == w.(enc := enc, groups := AddPayload(w.groups, d, payload), network := w.network + set p | p in packets)
  }

  /** The network hands any packet that ever left to the decoder. */
  ghost predicate Deliver(m: Matrix, d: nat, w: World, w': World, packet: Packet, restored: seq<Vector>)
    requires |m| > 0
  {
    packet in w.network && |packet| >= FEC_HEADER_SIZE && IsMatrix(m, |m|, d) && DecoderOk(|m|, d, w.dec) &&
    |w.outputs| <= |w'.outputs| && w'.outputs[..|w.outputs|] == w.outputs &&
    DecodeStep(m, d, w.dec, packet, restored, w'.dec, w'.outputs[|w.outputs|..]) &&
    w' == w.(dec := w'.dec, outputs := w'.outputs,
             delivered := w.delivered + {(ShardId(PacketSeq(packet), |m|), ShardIndex(PacketSeq(packet), |m|))})
  }

  ghost predicate Next(m: Matrix, d: nat, w: World, w': World)
    requires |m| > 0
  {
    (w.groups != [] && exists payload: Payload, now: u32 :: Send(m, d, w, w', payload, now)) ||
    (exists packet: Packet, restored: seq<Vector> :: Deliver(m, d, w, w', packet, restored))
  }

  ghost predicate IsRun(m: Matrix, d: nat, run: seq<World>)
    requires |m| > 0
  {
    run != [] && Init(m, d, run[0]) && forall k :: 0 <= k < |run| - 1 ==> Next(m, d, run[k], run[k + 1])
  }

  // ----- the invariant

  ghost predicate GroupsOk(n: nat, d: nat, groups: seq<Group>) {
    groups != [] && |groups| * n <= SEQ_BOUND && |groups[|groups| - 1]| < d &&
    (forall g :: 0 <= g < |groups| - 1 ==> |groups[g]| == d) &&
    forall g, i :: 0 <= g < |groups| && 0 <= i < |groups[g]| ==> |groups[g][i]| + 2 < U16
  }

  ghost predicate EncoderFollows(m: Matrix, d: nat, enc: Encoder, groups: seq<Group>)
    requires groups != []
  {
    var last := groups[|groups| - 1];
    EncoderOk(m, d, enc) && enc.nextSeq == (|groups| - 1) * |m| + |last| && enc.shardCount == |last| &&
    enc.encodeShards[..enc.shardCount] == Shards(last) && enc.maxShardLen == Longest(Shards(last))
  }

  ghost predicate NetworkGenuine(m: Matrix, d: nat, groups: seq<Group>, network: set<Packet>)
    requires IsMatrix(m, |m|, d)
  {
    forall packet :: packet in network ==> exists g, i :: Genuine(m, d, groups, g, i, packet)
  }

  /** The shards of a set belong to its group. */
  ghost predicate SetGenuine(m: Matrix, d: nat, groups: seq<Group>, g: nat, set_: ShardSet)
    requires IsMatrix(m, |m|, d)
  {
    |set_.shards| == |set_.present| == |m| &&
    forall i :: 0 <= i < |m| && set_.present[i] ==>
      Holds(|m|, d, groups, g, i) && set_.shards[i] == Body(m, d, groups[g], i)
  }

  ghost predicate SetsGenuine(m: Matrix, d: nat, groups: seq<Group>, dec: Decoder)
    requires IsMatrix(m, |m|, d)
  {
    dec.newestShardId < |groups| &&
    forall id :: id in dec.decodeSets ==>
      id <= dec.newestShardId && SetGenuine(m, d, groups, id, dec.decodeSets[id])
  }

  ghost predicate WasSent(groups: seq<Group>, payload: Payload) {
    exists g, i :: 0 <= g < |groups| && 0 <= i < |groups[g]| && groups[g][i] == payload
  }

  ghost predicate OutputsSound(groups: seq<Group>, outputs: seq<Payload>) {
    forall k :: 0 <= k < |outputs| ==> WasSent(groups, outputs[k])
  }

  ghost predicate AllOut(d: nat, group: Group, outputs: seq<Payload>) {
    |group| == d && forall i :: 0 <= i < d ==> group[i] in outputs
  }

  /** Which packets of a group have arrived. */
  ghost function Arrived(n: nat, delivered: set<(nat, nat)>, g: nat): (mask: seq<bool>)
    ensures |mask| == n && forall i :: 0 <= i < n ==> mask[i] == ((g, i) in delivered)
  {
    seq(n, i requires 0 <= i < n => (g, i) in delivered)
  }

  ghost predicate DeliveredOut(n: nat, d: nat, w: World) {
    forall p :: p in w.delivered ==>
      Holds(n, d, w.groups, p.0, p.1) && (p.1 < d ==> w.groups[p.0][p.1] in w.outputs)
  }

  /** A group not yet out of the decoder's reach is complete at the output, or its set holds all that arrived. */
  ghost predicate Progress(n: nat, d: nat, w: World, g: u32) {
    (g < |w.groups| && AllOut(d, w.groups[g], w.outputs)) ||
    SetFor(w.dec, g, n).present == Arrived(n, w.delivered, g)
  }

  ghost predicate Inv(m: Matrix, d: nat, w: World) {
    Code(m, d) && GroupsOk(|m|, d, w.groups) && EncoderFollows(m, d, w.enc, w.groups) &&
    NetworkGenuine(m, d, w.groups, w.network) && DecoderOk(|m|, d, w.dec) &&
    SetsGenuine(m, d, w.groups, w.dec) && OutputsSound(w.groups, w.outputs) && DeliveredOut(|m|, d, w) &&
    forall g: u32 :: w.dec.newestShardId <= g + MAX_SHARD_SETS ==> Progress(|m|, d, w, g)
  }

  // ----- growth of the history

  ghost predicate Grown(d: nat, groups: seq<Group>, groups': seq<Group>) {
    |groups| <= |groups'| &&
    forall g :: 0 <= g < |groups| ==> groups[g] <= groups'[g] && |groups'[g]| <= d
  }

  lemma AddPayloadGrows(n: nat, d: nat, groups: seq<Group>, payload: Payload)
    requires GroupsOk(n, d, groups) && |payload| + 2 < U16 && |AddPayload(groups, d, payload)| * n <= SEQ_BOUND
    ensures var groups' := AddPayload(groups, d, payload);
            GroupsOk(n, d, groups') && Grown(d, groups, groups') &&
            groups'[|groups| - 1] == groups[|groups| - 1] + [payload]
  {}

  lemma GenuineGrows(m: Matrix, d: nat, groups: seq<Group>, groups': seq<Group>, g: nat, i: nat, packet: Packet)
    requires IsMatrix(m, |m|, d) && Grown(d, groups, groups')
    requires Genuine(m, d, groups, g, i, packet)
    ensures Genuine(m, d, groups', g, i, packet)
  {
    hide Seal, EncodedShard, Padded, Longest, DataShard;
    if i >= d {
      assert groups'[g] == groups[g];
    }
  }

  lemma SetGenuineGrows(m: Matrix, d: nat, groups: seq<Group>, groups': seq<Group>, g: nat, set_: ShardSet)
    requires IsMatrix(m, |m|, d) && Grown(d, groups, groups')
    requires SetGenuine(m, d, groups, g, set_)
    ensures SetGenuine(m, d, groups', g, set_)
  {
    hide EncodedShard, Padded, Longest, DataShard;
    forall i | 0 <= i < |m| && set_.present[i]
      ensures Holds(|m|, d, groups', g, i) && set_.shards[i] == Body(m, d, groups'[g], i)
    {
      if i >= d {
        assert groups'[g] == groups[g];
      }
    }
  }

  lemma WasSentGrows(d: nat, groups: seq<Group>, groups': seq<Group>, payload: Payload)
    requires Grown(d, groups, groups') && WasSent(groups, payload)
    ensures WasSent(groups', payload)
  {
    var g, i :| 0 <= g < |groups| && 0 <= i < |groups[g]| && groups[g][i] == payload;
    assert groups[g] <= groups'[g];
    assert groups'[g][i] == payload;
  }

  /** Everything about the network and the decoder survives a longer history. */
  lemma HistoryGrows(m: Matrix, d: nat, w: World, groups': seq<Group>)
    requires Inv(m, d, w) && Grown(d, w.groups, groups')
    ensures NetworkGenuine(m, d, groups', w.network)
    ensures SetsGenuine(m, d, groups', w.dec)
    ensures OutputsSound(groups', w.outputs)
    ensures DeliveredOut(|m|, d, w.(groups := groups'))
    ensures forall g: u32 :: w.dec.newestShardId <= g + MAX_SHARD_SETS ==> Progress(|m|, d, w.(groups := groups'), g)
  {
    hide Genuine, SetGenuine, WasSent, EncoderFollows, DecoderOk, GroupsOk, IsCodeMatrix, SetFor;
    CodeMatrixShape(m, d, |m|);
    forall packet | packet in w.network
      ensures exists g, i :: Genuine(m, d, groups', g, i, packet)
    {
      var g, i :| Genuine(m, d, w.groups, g, i, packet);
      GenuineGrows(m, d, w.groups, groups', g, i, packet);
    }
    forall id | id in w.dec.decodeSets
      ensures SetGenuine(m, d, groups', id, w.dec.decodeSets[id])
    {
      SetGenuineGrows(m, d, w.groups, groups', id, w.dec.decodeSets[id]);
    }
    forall k | 0 <= k < |w.outputs|
      ensures WasSent(groups', w.outputs[k])
    {
      WasSentGrows(d, w.groups, groups', w.outputs[k]);
    }
    forall g: u32 | w.dec.newestShardId <= g + MAX_SHARD_SETS
      ensures Progress(|m|, d, w.(groups := groups'), g)
    {
      assert Progress(|m|, d, w, g);
      if g < |w.groups| && AllOut(d, w.groups[g], w.outputs) {
        assert groups'[g] == w.groups[g];
      }
    }
  }

  // ----- sending

  lemma InitInv(m: Matrix, d: nat, w: World)
    requires Code(m, d) && Init(m, d, w)
    ensures Inv(m, d, w)
  {
    hide IsCodeMatrix, Paws;
    CodeMatrixShape(m, d, |m|);
    PawsPositive(|m|);
    forall g: u32 | w.dec.newestShardId <= g + MAX_SHARD_SETS
      ensures Progress(|m|, d, w, g)
    {
      assert EmptySet(|m|).present == Arrived(|m|, {}, g);
    }
  }

  lemma LongestAppend(shards: seq<Vector>, shard: Vector)
    ensures Longest(shards + [shard]) == Max(Longest(shards), |shard|)
  {
    assert (shards + [shard])[..|shards|] == shards;
  }

  lemma ShardsAppend(group: Group, payload: Payload)
    ensures Shards(group + [payload]) == Shards(group) + [DataShard(payload)]
  {
    hide DataShard;
  }

  lemma Distribute(k: nat, n: nat)
    ensures (k + 1) * n == k * n + n
  {}

  lemma AddPayloadShape(groups: seq<Group>, d: nat, payload: Payload)
    requires groups != []
    ensures var groups' := AddPayload(groups, d, payload);
            var last := groups[|groups| - 1] + [payload];
            groups'[..|groups| - 1] == groups[..|groups| - 1] && groups'[|groups| - 1] == last &&
            |groups'| == (if |last| == d then |groups| + 1 else |groups|) &&
            (|last| == d ==> groups'[|groups|] == [])
  {}

  /** What Collect makes of an encoder that has kept step so far. */
  lemma CollectFollows(m: Matrix, d: nat, enc: Encoder, groups: seq<Group>, payload: Payload)
    requires EncoderOk(m, d, enc) && groups != [] && EncoderFollows(m, d, enc, groups)
    ensures enc.nextSeq + 1 < U32
    ensures var group := groups[|groups| - 1] + [payload];
            var collected := Collect(enc, DataShard(payload));
            collected.encodeShards[..|group|] == Shards(group) && |collected.encodeShards| == d &&
            collected.shardCount == |group| && collected.maxShardLen == Longest(Shards(group)) &&
            collected.nextSeq == (|groups| - 1) * |m| + |group|
  {
    var last := groups[|groups| - 1];
    LongestAppend(Shards(last), DataShard(payload));
    ShardsAppend(last, payload);
    GroupFits(|m|, enc.nextSeq);
    hide Seal, DataShard, Longest, Paws, PadAll, Shards;
    assert Collect(enc, DataShard(payload)).encodeShards[..|last| + 1]
        == enc.encodeShards[..enc.shardCount] + [DataShard(payload)];
  }

  /** Inside a group the encoder keeps step with the history. */
  lemma EncoderFollowsInside(m: Matrix, d: nat, enc: Encoder, groups: seq<Group>, payload: Payload, now: u32)
    requires EncoderOk(m, d, enc) && groups != [] && EncoderFollows(m, d, enc, groups) && enc.shardCount + 1 < d
    ensures EncoderFollows(m, d, EncodeStep(m, d, enc, payload, now).0, AddPayload(groups, d, payload))
  {
    EncodeKeepsNumbering(m, d, enc, payload, now);
    CollectFollows(m, d, enc, groups, payload);
    AddPayloadShape(groups, d, payload);
    hide Seal, DataShard, Longest, EncoderOk, Shards, Collect, AddPayload, CloseGroup;
  }

  /** After the last shard of a group the numbering goes on with the next group. */
  lemma EncoderFollowsClose(m: Matrix, d: nat, enc: Encoder, groups: seq<Group>, payload: Payload, now: u32)
    requires EncoderOk(m, d, enc) && groups != [] && EncoderFollows(m, d, enc, groups) && enc.shardCount + 1 == d
    requires (|groups| + 1) * |m| <= SEQ_BOUND
    ensures EncoderFollows(m, d, EncodeStep(m, d, enc, payload, now).0, AddPayload(groups, d, payload))
  {
    EncodeKeepsNumbering(m, d, enc, payload, now);
    CollectFollows(m, d, enc, groups, payload);
    AddPayloadShape(groups, d, payload);
    Distribute(|groups| - 1, |m|);
    Distribute(|groups|, |m|);
    PawsPositive(|m|);
    EmptyLongest();
    hide Seal, DataShard, Longest, Paws, EncoderOk, PadAll, ParityPackets, Collect, AddPayload;
    var enc' := EncodeStep(m, d, enc, payload, now).0;
    assert enc'.nextSeq == |groups| * |m|;
    assert enc'.encodeShards[..enc'.shardCount] == [] == Shards([]);
  }

  lemma EmptyLongest()
    ensures Longest(Shards([])) == 0
  {}

  lemma SentDataGenuine(m: Matrix, d: nat, enc: Encoder, groups: seq<Group>, payload: Payload)
    requires EncoderOk(m, d, enc) && groups != [] && EncoderFollows(m, d, enc, groups)
    requires |AddPayload(groups, d, payload)| * |m| <= SEQ_BOUND && IsMatrix(m, |m|, d)
    ensures Genuine(m, d, AddPayload(groups, d, payload), |groups| - 1, enc.shardCount,
                    Seal(enc.nextSeq, FEC_TYPE_DATA, DataShard(payload)))
  {
    AddPayloadShape(groups, d, payload);
    Distribute(|groups| - 1, |m|);
    MulLe(|groups|, |AddPayload(groups, d, payload)|, |m|);
    hide Seal, DataShard, Longest, Paws, Shards, Padded, EncodedShard, AddPayload;
  }

  lemma ParityGenuine(m: Matrix, d: nat, groups: seq<Group>, g: nat, seqno: nat, k: nat)
    requires IsMatrix(m, |m|, d) && d <= |m| && g < |groups| && |groups[g]| == d
    requires seqno == g * |m| + d && seqno + (|m| - d) <= SEQ_BOUND && k < |m| - d
    ensures Genuine(m, d, groups, g, d + k, ParityPackets(m, Padded(groups[g]), Longest(Shards(groups[g])), seqno)[k])
  {
    hide Seal, Longest, Shards, Padded, EncodedShard;
  }

  lemma SentParityGenuine(m: Matrix, d: nat, enc: Encoder, groups: seq<Group>, payload: Payload, k: nat)
    requires EncoderOk(m, d, enc) && groups != [] && EncoderFollows(m, d, enc, groups) && enc.shardCount + 1 == d
    requires |AddPayload(groups, d, payload)| * |m| <= SEQ_BOUND && IsMatrix(m, |m|, d) && k < |m| - d
    ensures enc.nextSeq + 1 + |m| - d < U32
    ensures var collected := Collect(enc, DataShard(payload));
            |collected.encodeShards| == d &&
            Genuine(m, d, AddPayload(groups, d, payload), |groups| - 1, d + k,
              ParityPackets(m, PadAll(collected.encodeShards, collected.maxShardLen), collected.maxShardLen,
                            collected.nextSeq)[k])
  {
    GroupFits(|m|, enc.nextSeq);
    CollectFollows(m, d, enc, groups, payload);
    AddPayloadShape(groups, d, payload);
    Distribute(|groups| - 1, |m|);
    MulLe(|groups|, |AddPayload(groups, d, payload)|, |m|);
    var collected := Collect(enc, DataShard(payload));
    var g, groups' := |groups| - 1, AddPayload(groups, d, payload);
    assert collected.encodeShards[..d] == collected.encodeShards;
    assert collected.encodeShards == Shards(groups'[g]) && collected.maxShardLen == Longest(Shards(groups'[g]));
    hide *;
    ParityGenuine(m, d, groups', g, collected.nextSeq, k);
    PaddedIs(groups'[g]);
  }

  lemma PaddedIs(group: Group)
    ensures Padded(group) == PadAll(Shards(group), Longest(Shards(group)))
  {}

  lemma SentPacketsGenuine(m: Matrix, d: nat, enc: Encoder, groups: seq<Group>, payload: Payload, now: u32,
                           packet: Packet)
    requires EncoderOk(m, d, enc) && groups != [] && EncoderFollows(m, d, enc, groups)
    requires |AddPayload(groups, d, payload)| * |m| <= SEQ_BOUND && IsMatrix(m, |m|, d)
    requires packet in EncodeStep(m, d, enc, payload, now).1
    ensures exists g, i :: Genuine(m, d, AddPayload(groups, d, payload), g, i, packet)
  {
    SentDataGenuine(m, d, enc, groups, payload);
    if packet != Seal(enc.nextSeq, FEC_TYPE_DATA, DataShard(payload)) {
      GroupFits(|m|, enc.nextSeq);
      hide Seal, DataShard, Longest, Paws, PadAll, EncoderFollows, EncodedShard, AddPayload, Genuine;
      var collected := Collect(enc, DataShard(payload));
      var k :| 0 <= k < |m| - d && packet == CloseGroup(m, collected, now).1[k];
      SentParityGenuine(m, d, enc, groups, payload, k);
    }
  }

  lemma SendKeepsInv(m: Matrix, d: nat, w: World, w': World, payload: Payload, now: u32)
    requires Inv(m, d, w) && Send(m, d, w, w', payload, now)
    ensures Inv(m, d, w')
  {
    hide IsCodeMatrix, EncoderFollows, EncoderOk, Genuine, DecoderOk, SetsGenuine, OutputsSound, Progress,
      DeliveredOut, EncodeStep, AddPayload;
    CodeMatrixShape(m, d, |m|);
    AddPayloadGrows(|m|, d, w.groups, payload);
    HistoryGrows(m, d, w, w'.groups);
    StepFollows(m, d, w, payload, now);
    forall packet | packet in w'.network
      ensures exists g, i :: Genuine(m, d, w'.groups, g, i, packet)
    {
      if packet !in w.network {
        SentPacketsGenuine(m, d, w.enc, w.groups, payload, now, packet);
      }
    }
    DeliveredUnaffected(|m|, d, w.(groups := w'.groups), w');
  }

  lemma StepFollows(m: Matrix, d: nat, w: World, payload: Payload, now: u32)
    requires Inv(m, d, w) && EncoderOk(m, d, w.enc) && |AddPayload(w.groups, d, payload)| * |m| <= SEQ_BOUND
    ensures EncoderFollows(m, d, EncodeStep(m, d, w.enc, payload, now).0, AddPayload(w.groups, d, payload))
  {
    hide IsCodeMatrix, EncoderOk, DecoderOk, SetsGenuine, OutputsSound, Progress, DeliveredOut, EncodeStep,
      NetworkGenuine;
    if w.enc.shardCount + 1 < d {
      EncoderFollowsInside(m, d, w.enc, w.groups, payload, now);
    } else {
      EncoderFollowsClose(m, d, w.enc, w.groups, payload, now);
    }
  }

  /** Delivery and progress do not look at the encoder or the network. */
  lemma DeliveredUnaffected(n: nat, d: nat, w: World, w': World)
    requires w.dec == w'.dec && w.groups == w'.groups && w.delivered == w'.delivered && w.outputs == w'.outputs
    ensures DeliveredOut(n, d, w) ==> DeliveredOut(n, d, w')
    ensures forall g: u32 :: Progress(n, d, w, g) ==> Progress(n, d, w', g)
  {}

  // ----- what the decoder reads out of a genuine packet

  lemma {:induction false} LongestBounds(shards: seq<Vector>, i: nat)
    requires i < |shards|
    ensures |shards[i]| <= Longest(shards)
    decreases |shards|
  {
    if i < |shards| - 1 {
      LongestBounds(shards[..|shards| - 1], i);
    }
  }

  lemma BodyLength(m: Matrix, d: nat, group: Group, i: nat)
    requires 1 <= d && i < |m| && IsMatrix(m, |m|, d) && if i < d then i < |group| else |group| == d
    ensures 2 <= |Body(m, d, group, i)| <= Longest(Shards(group))
    ensures d <= i ==> |Body(m, d, group, i)| == Longest(Shards(group))
  {
    hide DataShard;
    LongestBounds(Shards(group), if i < d then i else 0);
  }

  lemma HeaderNumbers(g: nat, n: nat, i: nat)
    requires 1 <= n <= 256 && i < n && g * n + i < SEQ_BOUND
    ensures g < U32 && g * n + i < Paws(n)
    ensures ShardId(g * n + i, n) == g && ShardIndex(g * n + i, n) == i
  {
    MulLess(g, g, n);
    DivModIs(n, g * n + i, g, i);
    PawsPositive(n);
  }

  lemma GenuineIsSealed(m: Matrix, d: nat, groups: seq<Group>, g: nat, i: nat, packet: Packet)
    returns (seqno: u32, kind: u16, body: Vector)
    requires IsMatrix(m, |m|, d) && 1 <= d && Genuine(m, d, groups, g, i, packet)
    ensures packet == Seal(seqno, kind, body) && seqno == g * |m| + i < SEQ_BOUND && |body| >= 2
    ensures kind == if i < d then FEC_TYPE_DATA else FEC_TYPE_PARITY
    ensures body == Body(m, d, groups[g], i)
  {
    hide Seal, Longest, Shards, DataShard;
    BodyLength(m, d, groups[g], i);
    seqno, kind := g * |m| + i, if i < d then FEC_TYPE_DATA else FEC_TYPE_PARITY;
    body := Body(m, d, groups[g], i);
  }

  lemma GenuineHeader(m: Matrix, d: nat, groups: seq<Group>, g: nat, i: nat, packet: Packet)
    requires IsMatrix(m, |m|, d) && 1 <= d < |m| <= 256 && Genuine(m, d, groups, g, i, packet)
    ensures |packet| >= FEC_HEADER_SIZE_PLUS_SIZE && g < U32 && PacketSeq(packet) < Paws(|m|)
    ensures ShardId(PacketSeq(packet), |m|) == g && ShardIndex(PacketSeq(packet), |m|) == i
    ensures PacketFlag(packet) == if i < d then FEC_TYPE_DATA else FEC_TYPE_PARITY
    ensures packet[FEC_HEADER_SIZE..] == Body(m, d, groups[g], i)
  {
    var seqno, kind, body := GenuineIsSealed(m, d, groups, g, i, packet);
    HeaderNumbers(g, |m|, i);
    hide *;
    SealRoundTrip(seqno, kind, body);
  }

  lemma GenuineDirect(m: Matrix, d: nat, groups: seq<Group>, g: nat, i: nat, packet: Packet)
    requires IsMatrix(m, |m|, d) && 1 <= d < |m| <= 256 && Genuine(m, d, groups, g, i, packet)
    ensures |packet| >= FEC_HEADER_SIZE_PLUS_SIZE && IsFecPacket(packet) && PacketFlag(packet) != FEC_TYPE_OOB
    ensures DirectOutput(packet) == if i < d then [groups[g][i]] else []
  {
    GenuineHeader(m, d, groups, g, i, packet);
    hide Seal, PacketSeq, PacketFlag, Paws, EncodedShard, Genuine, Le16;
    if i < d {
      assert packet[FEC_HEADER_SIZE_PLUS_SIZE..] == packet[FEC_HEADER_SIZE..][2..];
      assert DataShard(groups[g][i])[2..] == groups[g][i];
    }
  }

  lemma StoredGenuine(m: Matrix, d: nat, groups: seq<Group>, g: nat, i: nat, packet: Packet, set_: ShardSet)
    requires IsMatrix(m, |m|, d) && 1 <= d < |m| <= 256 && Genuine(m, d, groups, g, i, packet)
    requires SetGenuine(m, d, groups, g, set_) && |set_.dataShard| == |m|
    ensures |packet| >= FEC_HEADER_SIZE_PLUS_SIZE
    ensures SetGenuine(m, d, groups, g, StoredSet(set_, packet, |m|))
    ensures StoredSet(set_, packet, |m|).present == set_.present[i := true]
  {
    GenuineHeader(m, d, groups, g, i, packet);
    hide Seal, PacketSeq, PacketFlag, Paws, Body, ShardId, ShardIndex;
  }

  // ----- recovery of a genuine set

  lemma {:induction false} CountSplit(present: seq<bool>, d: nat, n: nat) returns (i: nat)
    requires d <= n <= |present| && CountBelow(present, n) > CountBelow(present, d)
    ensures d <= i < n && present[i]
    decreases n
  {
    if present[n - 1] {
      i := n - 1;
    } else {
      i := CountSplit(present, d, n - 1);
    }
  }

  lemma {:induction false} CountAll(present: seq<bool>, n: nat)
    requires n <= |present|
    ensures CountBelow(present, n) <= n
    ensures CountBelow(present, n) == n <==> forall i :: 0 <= i < n ==> present[i]
    decreases n
  {
    if n > 0 {
      CountAll(present, n - 1);
    }
  }

  lemma {:induction false} MaxPresentIs(shards: seq<Vector>, present: seq<bool>, n: nat, len: nat)
    requires n <= |shards| && n <= |present|
    requires forall i :: 0 <= i < n && present[i] ==> |shards[i]| <= len
    ensures MaxPresentLen(shards, present, n) <= len
    ensures forall i :: 0 <= i < n && present[i] ==> |shards[i]| <= MaxPresentLen(shards, present, n)
    decreases n
  {
    if n > 0 {
      MaxPresentIs(shards, present, n - 1, len);
    }
  }

  /** With a parity shard among those present the padding length of the decoder is that of the encoder. */
  lemma PaddingLength(m: Matrix, d: nat, groups: seq<Group>, g: nat, set_: ShardSet)
    requires 1 <= d <= |m| && IsMatrix(m, |m|, d) && SetGenuine(m, d, groups, g, set_)
    requires CountBelow(set_.present, |m|) >= d && CountBelow(set_.present, d) != d
    ensures g < |groups| && |groups[g]| == d
    ensures MaxPresentLen(set_.shards, set_.present, |m|) == Longest(Shards(groups[g]))
  {
    hide Body, Longest;
    CountAll(set_.present, d);
    var p := CountSplit(set_.present, d, |m|);
    var len := Longest(Shards(groups[g]));
    forall i | 0 <= i < |m| && set_.present[i]
      ensures |set_.shards[i]| <= len && (d <= i ==> |set_.shards[i]| == len)
    {
      BodyLength(m, d, groups[g], i);
    }
    MaxPresentIs(set_.shards, set_.present, |m|, len);
  }

  lemma PaddedShardIsEncoded(m: Matrix, d: nat, group: Group, i: nat)
    requires IsCodeMatrix(m, d, |m|) && IsMatrix(m, |m|, d) && |group| == d && i < |m|
    ensures Resize(Body(m, d, group, i), Longest(Shards(group)))
         == EncodedShard(m[i], Padded(group), Longest(Shards(group)))
  {
    BodyLength(m, d, group, i);
    hide IsCodeMatrix, DataShard, Longest, Zeros, EncodedShard;
    if i < d {
      SystematicShard(m, |m|, Padded(group), Longest(Shards(group)), i);
    }
  }

  lemma RestoredGroup(m: Matrix, d: nat, groups: seq<Group>, g: nat, set_: ShardSet, restored: seq<Vector>)
    requires Code(m, d) && IsMatrix(m, |m|, d) && SetGenuine(m, d, groups, g, set_)
    requires CountBelow(set_.present, |m|) >= d && CountBelow(set_.present, d) != d
    requires RestoredSet(m, d, set_, restored)
    ensures g < |groups| && |groups[g]| == d && |restored| == |m| && restored[..d] == Padded(groups[g])
  {
    PaddingLength(m, d, groups, g, set_);
    hide IsCodeMatrix, Body, Longest, EncodedShard, Resize, CountBelow, Restored;
    var group, len := groups[g], Longest(Shards(groups[g]));
    var shards := PadPresent(set_.shards, set_.present, len);
    forall i | 0 <= i < |m| && set_.present[i]
      ensures shards[i] == EncodedShard(m[i], Padded(group), len)
    {
      PaddedShardIsEncoded(m, d, group, i);
    }
    ErasureRecovery(m, Padded(group), len, shards, set_.present, restored);
  }

  lemma RestoredPayload(group: Group, restored: seq<Vector>, i: nat)
    requires i < |group| <= |restored| && restored[..|group|] == Padded(group)
    requires |group[i]| + 2 < U16
    ensures ShardPayload(restored[i]) == [group[i]]
  {
    hide DataShard, ShardPayload, Longest, Resize;
    LongestBounds(Shards(group), i);
    PaddedShardPayload(group[i], Longest(Shards(group)));
    assert restored[i] == restored[..|group|][i];
  }

  lemma {:induction false} RecoveredAre(present: seq<bool>, restored: seq<Vector>, group: Group, n: nat)
    requires n <= |present| && n <= |group| <= |restored| && restored[..|group|] == Padded(group)
    requires forall i :: 0 <= i < n ==> |group[i]| + 2 < U16
    ensures forall i :: 0 <= i < n && !present[i] ==> group[i] in RecoveredPayloads(present, restored, n)
    ensures forall p :: p in RecoveredPayloads(present, restored, n) ==> p in group
    decreases n
  {
    hide ShardPayload, Padded;
    if n > 0 {
      RecoveredAre(present, restored, group, n - 1);
      RestoredPayload(group, restored, n - 1);
    }
  }

  // ----- delivering

  lemma SetForGenuine(m: Matrix, d: nat, groups: seq<Group>, dec: Decoder, g: u32)
    requires IsMatrix(m, |m|, d) && DecoderOk(|m|, d, dec) && SetsGenuine(m, d, groups, dec)
    ensures SetGenuine(m, d, groups, g, SetFor(dec, g, |m|)) && |SetFor(dec, g, |m|).dataShard| == |m|
  {
    hide Body, Paws;
  }

  /** A complete set of genuine shards gives every missing payload of its group, and nothing else. */
  lemma CompleteSetGives(m: Matrix, d: nat, groups: seq<Group>, g: nat, set_: ShardSet, restored: seq<Vector>)
    requires Code(m, d) && IsMatrix(m, |m|, d) && GroupsOk(|m|, d, groups) && SetGenuine(m, d, groups, g, set_)
    requires CountBelow(set_.present, |m|) >= d && RestoredSet(m, d, set_, restored)
    ensures g < |groups| && |groups[g]| == d
    ensures var recovered := if CountBelow(set_.present, d) == d then []
                             else RecoveredPayloads(set_.present, restored, d);
            (forall j :: 0 <= j < d && !set_.present[j] ==> groups[g][j] in recovered) &&
            forall p :: p in recovered ==> p in groups[g]
  {
    hide IsCodeMatrix, Body, RecoveredPayloads, RestoredSet;
    CodeMatrixShape(m, d, |m|);
    CountAll(set_.present, d);
    if CountBelow(set_.present, d) == d {
      assert Holds(|m|, d, groups, g, d - 1);
    } else {
      RestoredGroup(m, d, groups, g, set_, restored);
      RecoveredAre(set_.present, restored, groups[g], d);
    }
  }

  /** What one absorbed shard does, in terms of the history. */
  lemma AbsorbFacts(m: Matrix, d: nat, groups: seq<Group>, dec: Decoder, g: u32, i: nat, packet: Packet,
                    stored: ShardSet, restored: seq<Vector>, dec': Decoder, recovered: seq<Payload>)
    requires Code(m, d) && IsMatrix(m, |m|, d) && d < |m| && GroupsOk(|m|, d, groups)
    requires DecoderOk(|m|, d, dec) && |packet| >= FEC_HEADER_SIZE_PLUS_SIZE
    requires AbsorbStep(m, d, dec, packet, restored, dec', recovered) && ShardId(PacketSeq(packet), |m|) == g
    requires |SetFor(dec, g, |m|).present| == |SetFor(dec, g, |m|).shards| == |SetFor(dec, g, |m|).dataShard| == |m|
    requires stored == StoredSet(SetFor(dec, g, |m|), packet, |m|)
    requires SetGenuine(m, d, groups, g, stored) && i < |m| && g < |groups|
    requires stored.present == SetFor(dec, g, |m|).present[i := true]
    ensures AbsorbedAs(m, d, groups, dec, g, i, stored, dec', recovered)
  {
    hide SetGenuine, IsCodeMatrix, Paws, PacketSeq, PacketFlag, Advance, StoredSet, RestoredSet, GroupsOk,
      RecoveredPayloads, CountBelow, SetFor, DecoderOk;
    if CountBelow(stored.present, |m|) >= d {
      CompleteSetGives(m, d, groups, g, stored, restored);
    }
  }

  ghost predicate AbsorbedAs(m: Matrix, d: nat, groups: seq<Group>, dec: Decoder, g: u32, i: nat, stored: ShardSet,
                             dec': Decoder, recovered: seq<Payload>)
    requires d <= |m| && IsMatrix(m, |m|, d) && |SetFor(dec, g, |m|).present| == |m| && i < |m|
  {
    SetGenuine(m, d, groups, g, stored) && stored.present == SetFor(dec, g, |m|).present[i := true] &&
    g < |groups| && (forall p :: p in recovered ==> p in groups[g]) &&
    if CountBelow(stored.present, |m|) < d then
      dec' == Advance(dec.(decodeSets := dec.decodeSets[g := stored]), g, |m|)
    else
      dec' == Advance(dec.(decodeSets := dec.decodeSets - {g}), g, |m|) && |groups[g]| == d &&
      forall j :: 0 <= j < d && !stored.present[j] ==> groups[g][j] in recovered
  }

  lemma KeysInHistory(m: Matrix, d: nat, groups: seq<Group>, dec: Decoder, g: u32)
    requires d <= |m| && IsMatrix(m, |m|, d) && |m| > 0 && GroupsOk(|m|, d, groups) && SetsGenuine(m, d, groups, dec)
    requires g < |groups|
    ensures KeysBounded(dec, |m|) && g * |m| < SEQ_BOUND
  {
    hide SetGenuine;
    MulLess(g, |groups|, |m|);
    MulLess(dec.newestShardId, |groups|, |m|);
    forall id | id in dec.decodeSets ensures id * |m| < SEQ_BOUND {
      MulLess(id, |groups|, |m|);
    }
  }

  /** The stored sets stay genuine and in step with the newest group number. */
  lemma AbsorbKeepsGenuine(m: Matrix, d: nat, groups: seq<Group>, dec: Decoder, g: u32, i: nat, stored: ShardSet,
                           dec': Decoder, recovered: seq<Payload>)
    requires d <= |m| && IsMatrix(m, |m|, d) && |m| > 0 && GroupsOk(|m|, d, groups) && SetsGenuine(m, d, groups, dec)
    requires |SetFor(dec, g, |m|).present| == |m| && i < |m|
    requires AbsorbedAs(m, d, groups, dec, g, i, stored, dec', recovered)
    ensures SetsGenuine(m, d, groups, dec') && dec.newestShardId <= dec'.newestShardId
    ensures forall h: u32 :: dec'.newestShardId <= h + MAX_SHARD_SETS ==>
      SetFor(dec', h, |m|) ==
        if h != g then SetFor(dec, h, |m|)
        else if CountBelow(stored.present, |m|) < d then stored else EmptySet(|m|)
  {
    hide SetGenuine, CountBelow, EmptySet;
    var sets := if CountBelow(stored.present, |m|) < d then dec.decodeSets[g := stored] else dec.decodeSets - {g};
    KeysInHistory(m, d, groups, dec, g);
    AdvanceIs(dec.(decodeSets := sets), g, |m|);
    hide Advance;
  }

  /** Nothing but the outputs, the decoder and the record of deliveries changes. */
  ghost predicate DeliveryStep(w: World, w': World, g: nat, i: nat, output: seq<Payload>) {
    w' == w.(dec := w'.dec, outputs := w.outputs + output, delivered := w.delivered + {(g, i)})
  }

  lemma ArrivedAfter(n: nat, delivered: set<(nat, nat)>, g: nat, i: nat, h: nat)
    requires i < n
    ensures Arrived(n, delivered + {(g, i)}, h)
         == if h == g then Arrived(n, delivered, h)[i := true] else Arrived(n, delivered, h)
  {}

  lemma DuplicateProgress(n: nat, d: nat, w: World, w': World, g: u32, i: nat, output: seq<Payload>, h: u32)
    requires DeliveryStep(w, w', g, i, output) && w'.dec == w.dec && i < n
    requires i < |SetFor(w.dec, g, n).present| && SetFor(w.dec, g, n).present[i]
    requires Progress(n, d, w, h)
    ensures Progress(n, d, w', h)
  {
    hide SetFor, Arrived;
    ArrivedAfter(n, w.delivered, g, i, h);
  }

  lemma AbsorbProgress(m: Matrix, d: nat, w: World, w': World, g: u32, i: nat, stored: ShardSet,
                       direct: seq<Payload>, recovered: seq<Payload>, h: u32)
    requires d <= |m| && IsMatrix(m, |m|, d) && |m| > 0 && GroupsOk(|m|, d, w.groups)
    requires SetsGenuine(m, d, w.groups, w.dec) && |SetFor(w.dec, g, |m|).present| == |m| && i < |m|
    requires AbsorbedAs(m, d, w.groups, w.dec, g, i, stored, w'.dec, recovered)
    requires DeliveryStep(w, w', g, i, direct + recovered)
    requires DeliveredOut(|m|, d, w')
    requires w'.dec.newestShardId <= h + MAX_SHARD_SETS && Progress(|m|, d, w, h)
    ensures Progress(|m|, d, w', h)
  {
    AbsorbKeepsGenuine(m, d, w.groups, w.dec, g, i, stored, w'.dec, recovered);
    hide SetFor, Arrived, SetGenuine, SetsGenuine, Advance, GroupsOk, CountBelow, Holds;
    ArrivedAfter(|m|, w.delivered, g, i, h);
    if h == g && !AllOut(d, w.groups[g], w.outputs) && CountBelow(stored.present, |m|) >= d {
      forall j | 0 <= j < d
        ensures w.groups[g][j] in w'.outputs
      {
        if stored.present[j] {
          assert ((g as nat, j as nat)) in w'.delivered;
        } else {
          assert w.groups[g][j] in recovered;
        }
      }
    }
  }

  lemma DeliveredOutAfter(n: nat, d: nat, w: World, w': World, g: nat, i: nat, direct: seq<Payload>,
                          recovered: seq<Payload>)
    requires DeliveredOut(n, d, w) && DeliveryStep(w, w', g, i, direct + recovered)
    requires Holds(n, d, w.groups, g, i) && (i < d ==> direct == [w.groups[g][i]])
    ensures DeliveredOut(n, d, w')
  {}

  lemma OutputsSoundAfter(groups: seq<Group>, outputs: seq<Payload>, g: nat, output: seq<Payload>)
    requires OutputsSound(groups, outputs) && g < |groups| && forall p :: p in output ==> p in groups[g]
    ensures OutputsSound(groups, outputs + output)
  {
    forall k | 0 <= k < |outputs + output|
      ensures WasSent(groups, (outputs + output)[k])
    {
      if k >= |outputs| {
        assert output[k - |outputs|] in output;
      }
    }
  }

  /** The packet was a duplicate: only what it carries in the clear is given out again. */
  lemma DuplicateKeepsInv(m: Matrix, d: nat, w: World, w': World, g: u32, i: nat, direct: seq<Payload>)
    requires Inv(m, d, w) && DeliveryStep(w, w', g, i, direct) && w'.dec == w.dec
    requires Holds(|m|, d, w.groups, g, i) && direct == if i < d then [w.groups[g][i]] else []
    requires i < |SetFor(w.dec, g, |m|).present| && SetFor(w.dec, g, |m|).present[i]
    ensures Inv(m, d, w')
  {
    hide IsCodeMatrix, EncoderFollows, NetworkGenuine, DecoderOk, SetsGenuine, OutputsSound, DeliveredOut, Progress,
      GroupsOk, SetFor;
    OutputsSoundAfter(w.groups, w.outputs, g, direct);
    assert direct + [] == direct;
    DeliveredOutAfter(|m|, d, w, w', g, i, direct, []);
    forall h: u32 | w'.dec.newestShardId <= h + MAX_SHARD_SETS
      ensures Progress(|m|, d, w', h)
    {
      DuplicateProgress(|m|, d, w, w', g, i, direct, h);
    }
  }

  lemma AbsorbKeepsInv(m: Matrix, d: nat, w: World, w': World, g: u32, i: nat, stored: ShardSet,
                       direct: seq<Payload>, recovered: seq<Payload>)
    requires Inv(m, d, w) && IsMatrix(m, |m|, d) && DeliveryStep(w, w', g, i, direct + recovered)
    requires DecoderOk(|m|, d, w'.dec) && |SetFor(w.dec, g, |m|).present| == |m| && i < |m|
    requires AbsorbedAs(m, d, w.groups, w.dec, g, i, stored, w'.dec, recovered)
    requires Holds(|m|, d, w.groups, g, i) && direct == if i < d then [w.groups[g][i]] else []
    ensures Inv(m, d, w')
  {
    hide IsCodeMatrix, EncoderFollows, NetworkGenuine, DecoderOk, SetsGenuine, OutputsSound, DeliveredOut, Progress,
      GroupsOk, SetFor, AbsorbedAs, Holds;
    AbsorbKeepsGenuine(m, d, w.groups, w.dec, g, i, stored, w'.dec, recovered);
    AbsorbedSent(m, d, w.groups, w.dec, g, i, stored, w'.dec, recovered, direct);
    OutputsSoundAfter(w.groups, w.outputs, g, direct + recovered);
    DeliveredOutAfter(|m|, d, w, w', g, i, direct, recovered);
    forall h: u32 | w'.dec.newestShardId <= h + MAX_SHARD_SETS
      ensures Progress(|m|, d, w', h)
    {
      AbsorbProgress(m, d, w, w', g, i, stored, direct, recovered, h);
    }
  }

  lemma AbsorbedSent(m: Matrix, d: nat, groups: seq<Group>, dec: Decoder, g: u32, i: nat, stored: ShardSet,
                     dec': Decoder, recovered: seq<Payload>, direct: seq<Payload>)
    requires d <= |m| && IsMatrix(m, |m|, d) && |SetFor(dec, g, |m|).present| == |m| && i < |m|
    requires AbsorbedAs(m, d, groups, dec, g, i, stored, dec', recovered)
    requires Holds(|m|, d, groups, g, i) && direct == if i < d then [groups[g][i]] else []
    ensures g < |groups| && forall p :: p in direct + recovered ==> p in groups[g]
  {
    hide SetGenuine, SetFor, CountBelow, Advance;
  }

  /** A new shard of its group arrived. */
  lemma NewShardKeepsInv(m: Matrix, d: nat, w: World, w': World, g: u32, i: nat, packet: Packet,
                         restored: seq<Vector>, direct: seq<Payload>, recovered: seq<Payload>)
    requires Inv(m, d, w) && IsMatrix(m, |m|, d) && 1 <= d < |m| <= 256
    requires Genuine(m, d, w.groups, g, i, packet) && |packet| >= FEC_HEADER_SIZE_PLUS_SIZE
    requires DeliveryStep(w, w', g, i, direct + recovered) && direct == if i < d then [w.groups[g][i]] else []
    requires AbsorbStep(m, d, w.dec, packet, restored, w'.dec, recovered)
    ensures Inv(m, d, w')
  {
    hide IsCodeMatrix, Genuine, EncoderFollows, OutputsSound, DeliveredOut, Progress, GroupsOk, AbsorbStep, SetFor,
      PacketSeq, PacketFlag, DecoderOk, SetsGenuine, ShardId, ShardIndex, Paws, StoredSet, NetworkGenuine, Holds, Body;
    GenuineHeader(m, d, w.groups, g, i, packet);
    GenuineHolds(m, d, w.groups, g, i, packet);
    SetForGenuine(m, d, w.groups, w.dec, g);
    var before := SetFor(w.dec, g, |m|);
    SetForShape(m, d, w.groups, w.dec, g);
    StoredGenuine(m, d, w.groups, g, i, packet, before);
    var stored := StoredSet(before, packet, |m|);
    HoldsIn(|m|, d, w.groups, g, i);
    AbsorbFacts(m, d, w.groups, w.dec, g, i, packet, stored, restored, w'.dec, recovered);
    AbsorbKeepsSets(m, d, w.dec, packet, restored, w'.dec, recovered);
    AbsorbKeepsInv(m, d, w, w', g, i, stored, direct, recovered);
  }

  lemma HoldsIn(n: nat, d: nat, groups: seq<Group>, g: nat, i: nat)
    requires Holds(n, d, groups, g, i)
    ensures g < |groups| && i < n
  {}

  /** Whatever the network hands over is a genuine packet of some group. */
  lemma NetworkPacket(m: Matrix, d: nat, w: World, packet: Packet) returns (g: u32, i: nat)
    requires Inv(m, d, w) && packet in w.network
    ensures IsMatrix(m, |m|, d) && 1 <= d < |m| <= 256 && i < |m| && |packet| >= FEC_HEADER_SIZE_PLUS_SIZE
    ensures Genuine(m, d, w.groups, g, i, packet) && Holds(|m|, d, w.groups, g, i)
    ensures ShardId(PacketSeq(packet), |m|) == g && ShardIndex(PacketSeq(packet), |m|) == i
    ensures PacketSeq(packet) < Paws(|m|) && IsFecPacket(packet) && PacketFlag(packet) != FEC_TYPE_OOB
    ensures DirectOutput(packet) == if i < d then [w.groups[g][i]] else []
  {
    hide IsCodeMatrix, Genuine, EncoderFollows, OutputsSound, DeliveredOut, Progress, GroupsOk, DecoderOk, SetsGenuine,
      PacketSeq, PacketFlag, IsFecPacket, ShardId, ShardIndex, DirectOutput, Paws;
    CodeMatrixShape(m, d, |m|);
    var g0, i0 :| Genuine(m, d, w.groups, g0, i0, packet);
    GenuineHeader(m, d, w.groups, g0, i0, packet);
    GenuineDirect(m, d, w.groups, g0, i0, packet);
    GenuineHolds(m, d, w.groups, g0, i0, packet);
    g, i := g0, i0;
  }

  /** Unpacks one delivery: a genuine packet arrived, as a duplicate or as a new shard of its group. */
  lemma DeliverKeepsInv(m: Matrix, d: nat, w: World, w': World, packet: Packet, restored: seq<Vector>)
    requires |m| > 0 && Inv(m, d, w) && Deliver(m, d, w, w', packet, restored)
    ensures Inv(m, d, w')
  {
    hide Inv, Genuine, AbsorbStep, SetFor, Holds, PacketSeq, PacketFlag, IsFecPacket, DecoderOk, ShardId, ShardIndex,
      DirectOutput, Paws;
    var g, i := NetworkPacket(m, d, w, packet);
    var output, direct := w'.outputs[|w.outputs|..], DirectOutput(packet);
    assert w'.outputs == w.outputs + output;
    if IsDuplicate(w.dec, packet, |m|) {
      DuplicateKeepsInv(m, d, w, w', g, i, direct);
    } else {
      var recovered := output[|direct|..];
      assert output == direct + recovered;
      NewShardKeepsInv(m, d, w, w', g, i, packet, restored, direct, recovered);
    }
  }

  lemma GenuineHolds(m: Matrix, d: nat, groups: seq<Group>, g: nat, i: nat, packet: Packet)
    requires IsMatrix(m, |m|, d) && Genuine(m, d, groups, g, i, packet)
    ensures Holds(|m|, d, groups, g, i)
  {
    hide Seal, Body;
  }

  lemma SetForShape(m: Matrix, d: nat, groups: seq<Group>, dec: Decoder, g: u32)
    requires IsMatrix(m, |m|, d) && SetGenuine(m, d, groups, g, SetFor(dec, g, |m|))
    ensures |SetFor(dec, g, |m|).shards| == |SetFor(dec, g, |m|).present| == |m|
  {
    hide Body, SetFor;
  }

  // ----- the theorems about runs

  lemma {:induction false} RunInv(m: Matrix, d: nat, run: seq<World>, k: nat)
    requires |m| > 0 && Code(m, d) && IsRun(m, d, run) && k < |run|
    ensures Inv(m, d, run[k])
    decreases k
  {
    hide Inv, Init, Send, Deliver, IsCodeMatrix;
    if k == 0 {
      InitInv(m, d, run[0]);
    } else {
      RunInv(m, d, run, k - 1);
      var w, w' := run[k - 1], run[k];
      assert Next(m, d, run[k - 1], run[k - 1 + 1]);
      if payload: Payload, now: u32 :| w.groups != [] && Send(m, d, w, w', payload, now) {
        SendKeepsInv(m, d, w, w', payload, now);
      } else {
        var packet: Packet, restored: seq<Vector> :| Deliver(m, d, w, w', packet, restored);
        DeliverKeepsInv(m, d, w, w', packet, restored);
      }
    }
  }

  /** Soundness: whatever the decoder gives out was given to the encoder. */
  lemma FecSoundness(m: Matrix, d: nat, run: seq<World>, k: nat, payload: Payload)
    requires |m| > 0 && Code(m, d) && IsRun(m, d, run) && k < |run|
    requires payload in run[k].outputs
    ensures WasSent(run[k].groups, payload)
  {
    hide IsCodeMatrix, IsRun, EncoderFollows, NetworkGenuine, DecoderOk, SetsGenuine, DeliveredOut, Progress, WasSent;
    RunInv(m, d, run, k);
  }

  /** Completeness: d different packets of a group in time give out all its payloads. */
  lemma FecCompleteness(m: Matrix, d: nat, run: seq<World>, k: nat, g: u32)
    requires |m| > 0 && Code(m, d) && IsRun(m, d, run) && k < |run|
    requires CountBelow(Arrived(|m|, run[k].delivered, g), |m|) >= d
    requires run[k].dec.newestShardId <= g + MAX_SHARD_SETS
    ensures g < |run[k].groups| && AllOut(d, run[k].groups[g], run[k].outputs)
  {
    hide IsCodeMatrix, IsRun, EncoderFollows, NetworkGenuine, SetsGenuine, DeliveredOut, OutputsSound, Arrived, AllOut;
    RunInv(m, d, run, k);
    assert Progress(|m|, d, run[k], g);
    EmptyCount(|m|, |m|);
  }

  lemma {:induction false} EmptyCount(n: nat, k: nat)
    requires k <= n
    ensures CountBelow(EmptySet(n).present, k) == 0
    decreases k
  {
    if k > 0 {
      EmptyCount(n, k - 1);
    }
  }

  /** No stored group is ahead of the newest one, and right after that moves at most four groups remain. */
  lemma FecBoundedMemory(m: Matrix, d: nat, run: seq<World>, k: nat)
    requires |m| > 0 && Code(m, d) && IsRun(m, d, run) && k + 1 < |run|
    ensures WindowOk(|m|, run[k].dec)
    ensures run[k + 1].dec.newestShardId != run[k].dec.newestShardId ==> FourSets(run[k + 1].dec)
  {
    RunInv(m, d, run, k);
    hide Inv, IsCodeMatrix, Init, Deliver, Send, FourSets;
    assert Next(m, d, run[k], run[k + 1]);
    InvWindow(m, d, run[k]);
    var w, w' := run[k], run[k + 1];
    if w'.dec.newestShardId != w.dec.newestShardId {
      if payload: Payload, now: u32 :| w.groups != [] && Send(m, d, w, w', payload, now) {
        SendKeepsDecoder(m, d, w, w', payload, now);
      } else {
        var packet: Packet, restored: seq<Vector> :| Deliver(m, d, w, w', packet, restored);
        DeliverWindow(m, d, w, w', packet, restored);
      }
    }
  }

  lemma InvWindow(m: Matrix, d: nat, w: World)
    requires Inv(m, d, w)
    ensures WindowOk(|m|, w.dec)
  {
    hide IsCodeMatrix, EncoderFollows, NetworkGenuine, DeliveredOut, OutputsSound, Progress, SetGenuine;
    MulLess(w.dec.newestShardId, |w.groups|, |m|);
  }

  lemma SendKeepsDecoder(m: Matrix, d: nat, w: World, w': World, payload: Payload, now: u32)
    requires w.groups != [] && Send(m, d, w, w', payload, now)
    ensures w'.dec == w.dec
  {
    hide EncodeStep, AddPayload, EncoderOk;
  }

  lemma DeliverWindow(m: Matrix, d: nat, w: World, w': World, packet: Packet, restored: seq<Vector>)
    requires |m| > 0 && Inv(m, d, w) && Deliver(m, d, w, w', packet, restored)
    requires w'.dec.newestShardId != w.dec.newestShardId
    ensures FourSets(w'.dec)
  {
    hide Inv, PacketSeq, ShardId, DecodeStep, DecoderOk, Genuine, Holds, PacketFlag, IsFecPacket, DirectOutput,
      ShardIndex, Paws, FourSets, WindowOk;
    InvWindow(m, d, w);
    var g, i := NetworkPacket(m, d, w, packet);
    GenuineLow(m, d, w.groups, g, i, packet);
    DecodeKeepsWindow(m, d, w.dec, packet, restored, w'.dec, w'.outputs[|w.outputs|..]);
  }

  lemma GenuineLow(m: Matrix, d: nat, groups: seq<Group>, g: nat, i: nat, packet: Packet)
    requires IsMatrix(m, |m|, d) && 1 <= d && Genuine(m, d, groups, g, i, packet)
    ensures |packet| >= FEC_HEADER_SIZE && PacketSeq(packet) < SEQ_BOUND
  {
    var seqno, kind, body := GenuineIsSealed(m, d, groups, g, i, packet);
    hide *;
    SealRoundTrip(seqno, kind, body);
  }
}
