/** The stateful FEC codec. */
module Fec {
  import opened Bytes
  import opened Numbers
  import opened LinearAlgebra
  import opened CodeMatrix
  import opened ReedSolomonCoder
  import opened FecFormat
  import opened FecSteps

  class FecCodec {
    const dataShards: int
    const parityShards: int
    const shardSize: int
    const enabled: bool
    const paws: u32
    const rs: ReedSolomon?

    var nextSeq: u32
    var shardCount: nat
    var maxShardLen: nat
    var latestPacketMs: int
    var encodeShards: seq<Vector>
    var newestShardId: u32
    var decodeSets: map<u32, ShardSet>

    ghost function EncoderState(): Encoder
      reads this
    {
      Encoder(nextSeq, shardCount, maxShardLen, latestPacketMs, encodeShards)
    }

    ghost function DecoderState(): Decoder
      reads this
    {
      Decoder(decodeSets, newestShardId)
    }

    /** The code matrix of an enabled codec. */
    ghost predicate Configured() {
      rs != null && rs.Valid() && dataShards == rs.dataShards && parityShards == rs.parityShards >= 1 &&
      shardSize == dataShards + parityShards && paws == Paws(shardSize)
    }

    ghost predicate Valid()
      reads this
    {
      enabled ==>
        Configured() && EncoderOk(rs.matrix, dataShards, EncoderState()) &&
        DecoderOk(shardSize, dataShards, DecoderState())
    }

    constructor (datashard: int, parityshard: int)
      ensures Valid() && dataShards == datashard && parityShards == parityshard
      ensures enabled <==> datashard > 0 && parityshard > 0 && datashard + parityshard <= 256
      ensures EncoderState() == Encoder(0, 0, 0, 0, encodeShards) && DecoderState() == Decoder(map[], 0)
    {
      hide IsCodeMatrix, Paws;
      var on := datashard > 0 && parityshard > 0 && datashard + parityshard <= 256;
      var coder: ReedSolomon? := null;
      if on {
        coder := new ReedSolomon(datashard, parityshard);
        CodeMatrixShape(coder.matrix, datashard, coder.totalShards);
        PawsPositive(datashard + parityshard);
      }
      dataShards := datashard;
      parityShards := parityshard;
      shardSize := datashard + parityshard;
      enabled := on;
      paws := if on then Paws(datashard + parityshard) else 0;
      rs := coder;
      nextSeq, shardCount, maxShardLen, latestPacketMs := 0, 0, 0, 0;
      encodeShards := if on then seq(datashard, _ => []) else [];
      newestShardId, decodeSets := 0, map[];
    }

    /** Gives the packet the next sequence number. */
    method SealPacket(body: seq<byte>, kind: u16) returns (packet: Packet)
      requires nextSeq < paws
      modifies `nextSeq
      ensures packet == Seal(old(nextSeq), kind, body)
      ensures nextSeq == WrapSeq(old(nextSeq) + 1, paws)
    {
      packet := Le32(nextSeq) + Le16(kind) + body;
      StepIsWrap(nextSeq + 1, paws);
      nextSeq := Wrap32(nextSeq + 1) % paws;
    }

    method SkipParity()
      requires 0 <= parityShards && nextSeq + parityShards <= paws && paws > 0
      modifies `nextSeq
      ensures nextSeq == WrapSeq(old(nextSeq) + parityShards, paws)
    {
      StepIsWrap(nextSeq + parityShards, paws);
      nextSeq := Wrap32(nextSeq + parityShards) % paws;
    }

    /** Seals the parity shards one after the other. */
    method SealParity(parity: seq<Vector>) returns (packets: seq<Packet>)
      requires nextSeq + |parity| <= paws && |parity| > 0
      modifies `nextSeq
      ensures nextSeq == WrapSeq(old(nextSeq) + |parity|, paws)
      ensures |packets| == |parity| && old(nextSeq) + |parity| <= U32
      ensures forall k :: 0 <= k < |parity| ==> packets[k] == Seal(old(nextSeq) + k, FEC_TYPE_PARITY, parity[k])
    {
      hide Seal;
      packets := [];
      for k := 0 to |parity|
        invariant |packets| == k
        invariant nextSeq == WrapSeq(old(nextSeq) + k, paws)
        invariant forall j :: 0 <= j < k ==> packets[j] == Seal(old(nextSeq) + j, FEC_TYPE_PARITY, parity[j])
      {
        var packet := SealPacket(parity[k], FEC_TYPE_PARITY);
        packets := packets + [packet];
      }
    }

    /** The parity packets of a full group, which is padded to its longest shard. */
    method EmitParity() returns (packets: seq<Packet>)
      requires Configured() && |encodeShards| == dataShards && IsMatrix(rs.matrix, shardSize, dataShards)
      requires nextSeq + parityShards <= paws
      modifies `nextSeq, `encodeShards
      ensures nextSeq == WrapSeq(old(nextSeq) + parityShards, paws)
      ensures encodeShards == PadAll(old(encodeShards), maxShardLen)
      ensures packets == ParityPackets(rs.matrix, encodeShards, maxShardLen, old(nextSeq))
    {
      hide IsCodeMatrix, EncodedShard, Seal, Paws, PadAll;
      encodeShards := PadAll(encodeShards, maxShardLen);
      var blank := Zeros(maxShardLen);
      var parity := rs.Encode(encodeShards, seq(parityShards, _ => blank));
      packets := SealParity(parity);
      assert packets == ParityPackets(rs.matrix, encodeShards, maxShardLen, old(nextSeq));
    }

    method CloseFullGroup(now: u32) returns (packets: seq<Packet>)
      requires Configured() && |encodeShards| == dataShards && IsMatrix(rs.matrix, shardSize, dataShards)
      requires nextSeq + parityShards <= paws
      modifies `nextSeq, `encodeShards, `shardCount, `maxShardLen
      ensures (EncoderState(), packets) == CloseGroup(rs.matrix, old(EncoderState()), now)
    {
      hide Paws, PadAll, ParityPackets;
      packets := [];
      if latestPacketMs != 0 && now - latestPacketMs < MAX_FEC_ENCODE_LATENCY_MS {
        packets := EmitParity();
      } else {
        SkipParity();
      }
      shardCount := 0;
      maxShardLen := 0;
    }

    method CollectShard(shard: Vector) returns (dataPacket: Packet)
      requires nextSeq + 1 < paws && shardCount < |encodeShards|
      modifies `nextSeq, `encodeShards, `shardCount, `maxShardLen
      ensures dataPacket == Seal(old(nextSeq), FEC_TYPE_DATA, shard)
      ensures EncoderState() == Collect(old(EncoderState()), shard)
    {
      dataPacket := SealPacket(shard, FEC_TYPE_DATA);
      maxShardLen := Max(maxShardLen, |shard|);
      encodeShards := encodeShards[shardCount := shard];
      shardCount := shardCount + 1;
    }

    method Encode(kcpPacket: Payload, now: u32) returns (packets: seq<Packet>)
      requires Valid()
      modifies this
      ensures Valid() && DecoderState() == old(DecoderState())
      ensures !enabled ==> packets == [kcpPacket] && EncoderState() == old(EncoderState())
      ensures enabled ==>
        (EncoderState(), packets) == EncodeStep(rs.matrix, dataShards, old(EncoderState()), kcpPacket, now)
      ensures enabled ==> latestPacketMs == now
      ensures enabled ==>
        var full := old(shardCount) + 1 == dataShards;
        var inTime := old(latestPacketMs) != 0 && now < old(latestPacketMs) + 500;
        |packets| == if full && inTime then 1 + parityShards else 1
    {
      if !enabled {
        return [kcpPacket];
      }
      CodeMatrixShape(rs.matrix, dataShards, shardSize);
      EncodeKeepsNumbering(rs.matrix, dataShards, EncoderState(), kcpPacket, now);
      EncodedCount(rs.matrix, dataShards, EncoderState(), kcpPacket, now);
      GroupFits(shardSize, nextSeq);
      hide IsCodeMatrix, Seal, Paws, CloseGroup;
      var dataPacket := CollectShard(Le16((|kcpPacket| + 2) % U16) + kcpPacket);
      packets := [dataPacket];
      if shardCount == dataShards {
        var parity := CloseFullGroup(now);
        packets := packets + parity;
      }
      latestPacketMs := now;
    }

    /** How many data shards are present, and how long the longest present shard is. */
    method MeasureSet(stored: ShardSet) returns (dataPresent: nat, maxLen: nat)
      requires 0 <= dataShards <= shardSize == |stored.shards| == |stored.present|
      ensures dataPresent == CountBelow(stored.present, dataShards)
      ensures maxLen == MaxPresentLen(stored.shards, stored.present, shardSize)
    {
      dataPresent, maxLen := 0, 0;
      for i := 0 to shardSize
        invariant dataPresent == CountBelow(stored.present, if i < dataShards then i else dataShards)
        invariant maxLen == MaxPresentLen(stored.shards, stored.present, i)
      {
        if !stored.present[i] {
          continue;
        }
        if i < dataShards {
          dataPresent := dataPresent + 1;
        }
        maxLen := Max(maxLen, |stored.shards[i]|);
      }
    }

    /** The payloads of the data shards that were missing from a complete set. */
    method RecoverSet(stored: ShardSet) returns (payloads: seq<Payload>, ghost restored: seq<Vector>)
      requires Configured() && IsMatrix(rs.matrix, shardSize, dataShards)
      requires |stored.shards| == |stored.present| == shardSize && CountBelow(stored.present, shardSize) >= dataShards
      ensures RestoredSet(rs.matrix, dataShards, stored, restored)
      ensures |payloads| <= dataShards - CountBelow(stored.present, dataShards)
      ensures payloads == if CountBelow(stored.present, dataShards) == dataShards then []
                          else RecoveredPayloads(stored.present, restored, dataShards)
    {
      hide IsCodeMatrix, Restored, ShardPayload, PadPresent, CountBelow, MaxPresentLen;
      var dataPresent, maxLen := MeasureSet(stored);
      payloads := [];
      restored := stored.shards;
      if dataPresent != dataShards {
        var padded := PadPresent(stored.shards, stored.present, maxLen);
        PaddedEqualLengths(stored, maxLen, padded, dataShards);
        var ok, shards := rs.ReconstructData(padded, stored.present);
        RestoredLength(rs.matrix, dataShards, padded, stored.present, shards);
        restored := shards;
        if ok {
          payloads := CollectRecovered(stored.present, shards, dataShards);
          RecoveredAtMost(stored.present, shards, dataShards);
        }
      }
    }

    /** Drops the groups that have fallen too far behind. */
    method DiscardOldShards(newest: u32)
      requires shardSize >= 0
      modifies `decodeSets
      ensures decodeSets == DiscardOld(old(decodeSets), newest, shardSize)
    {
      var todo := decodeSets.Keys;
      while todo != {}
        invariant todo <= decodeSets.Keys <= old(decodeSets).Keys
        invariant forall id :: id in decodeSets ==> decodeSets[id] == old(decodeSets)[id]
        invariant forall id :: id in old(decodeSets) && id !in todo ==>
          (id in decodeSets <==> id in DiscardOld(old(decodeSets), newest, shardSize))
        decreases |todo|
      {
        var id :| id in todo;
        todo := todo - {id};
        if TimeDiff(Wrap32(newest * shardSize), Wrap32(id * shardSize)) > MAX_SHARD_SETS * shardSize {
          decodeSets := decodeSets - {id};
        }
      }
    }

    /** Moves the newest group number forward and drops what has become too old. */
    method AdvanceNewest(shardId: u32)
      requires shardSize >= 0
      modifies `decodeSets, `newestShardId
      ensures DecoderState() == Advance(old(DecoderState()), shardId, shardSize)
    {
      hide DiscardOld;
      if TimeDiff(Wrap32(shardId * shardSize), Wrap32(newestShardId * shardSize)) > 0 {
        newestShardId := shardId;
        DiscardOldShards(newestShardId);
      }
    }

    /** Puts a new shard into the set of its group, and restores and removes the set when it is complete. */
    method AbsorbShard(packet: Packet, flag: u16, shardId: u32, shardIndex: nat)
      returns (recovered: seq<Payload>, ghost restored: seq<Vector>)
      requires Configured() && IsMatrix(rs.matrix, shardSize, dataShards)
      requires DecoderOk(shardSize, dataShards, DecoderState())
      requires |packet| >= FEC_HEADER_SIZE_PLUS_SIZE && flag == PacketFlag(packet)
      requires shardId == ShardId(PacketSeq(packet), shardSize) && shardIndex == ShardIndex(PacketSeq(packet), shardSize)
      modifies `decodeSets, `newestShardId
      ensures AbsorbStep(rs.matrix, dataShards, old(DecoderState()), packet, restored, DecoderState(), recovered)
    {
      hide IsCodeMatrix, Paws, PacketFlag, PacketSeq, ShardId, ShardIndex, CountBelow, Advance, RestoredSet;
      var set_ := if shardId in decodeSets then decodeSets[shardId] else EmptySet(shardSize);
      set_ := ShardSet(set_.shards[shardIndex := packet[FEC_HEADER_SIZE..]], set_.present[shardIndex := true],
                       set_.dataShard[shardIndex := flag == FEC_TYPE_DATA]);
      decodeSets := decodeSets[shardId := set_];
      recovered, restored := [], [];
      var presentCount := CountPresent(set_.present);
      if presentCount >= dataShards {
        recovered, restored := RecoverSet(set_);
        decodeSets := decodeSets - {shardId};
        assert decodeSets == old(decodeSets) - {shardId};
      }
      AdvanceNewest(shardId);
    }

    /** Takes in one packet from the network; restored is the outcome of the reconstruction, if there is one. */
    method Decode(packet: Packet) returns (output: seq<Payload>, ghost restored: seq<Vector>)
      requires Valid()
      modifies this
      ensures Valid() && EncoderState() == old(EncoderState())
      ensures !enabled ==> output == [packet] && DecoderState() == old(DecoderState())
      ensures enabled && !IsFecPacket(packet) ==> output == [packet] && DecoderState() == old(DecoderState())
      ensures enabled && IsFecPacket(packet) && PacketFlag(packet) == FEC_TYPE_DATA ==>
        output != [] && output[0] == packet[FEC_HEADER_SIZE_PLUS_SIZE..]
      ensures enabled && IsFecPacket(packet) && PacketFlag(packet) == FEC_TYPE_OOB ==>
        output == [] && DecoderState() == old(DecoderState())
      ensures enabled ==> IsMatrix(rs.matrix, shardSize, dataShards)
      ensures enabled ==>
        DecodeStep(rs.matrix, dataShards, old(DecoderState()), packet, restored, DecoderState(), output)
    {
      hide IsCodeMatrix, Paws, PacketFlag, PacketSeq, ShardId, ShardIndex, CountBelow, AbsorbStep, EncoderOk;
      restored := [];
      if !enabled {
        return [packet], [];
      }
      CodeMatrixShape(rs.matrix, dataShards, shardSize);
      if |packet| < FEC_HEADER_SIZE_PLUS_SIZE {
        return [packet], [];
      }
      var flag := PacketFlag(packet);
      if flag != FEC_TYPE_DATA && flag != FEC_TYPE_PARITY && flag != FEC_TYPE_OOB {
        return [packet], [];
      }
      if flag == FEC_TYPE_OOB {
        return [], [];
      }
      output := [];
      if flag == FEC_TYPE_DATA {
        output := [packet[FEC_HEADER_SIZE_PLUS_SIZE..]];
      }
      var seqno := PacketSeq(packet);
      if seqno >= paws {
        return output, [];
      }
      var shardIndex, shardId := ShardIndex(seqno, shardSize), ShardId(seqno, shardSize);
      if shardId in decodeSets && decodeSets[shardId].present[shardIndex] {
        return output, [];
      }
      var recovered;
      recovered, restored := AbsorbShard(packet, flag, shardId, shardIndex);
      AbsorbKeepsSets(rs.matrix, dataShards, old(DecoderState()), packet, restored, DecoderState(), recovered);
      assert recovered == (output + recovered)[|output|..];
      output := output + recovered;
    }
  }

  /** At most one payload comes out for each data shard that was missing. */
  lemma {:induction false} RecoveredAtMost(present: seq<bool>, restored: seq<Vector>, n: nat)
    requires n <= |present| && n <= |restored|
    ensures |RecoveredPayloads(present, restored, n)| + CountBelow(present, n) <= n
    decreases n
  {
    hide FromLe16;
    if n > 0 {
      RecoveredAtMost(present, restored, n - 1);
    }
  }

  method CollectRecovered(present: seq<bool>, shards: seq<Vector>, dataShards: nat) returns (payloads: seq<Payload>)
    requires dataShards <= |present| && dataShards <= |shards|
    ensures payloads == RecoveredPayloads(present, shards, dataShards)
  {
    hide ShardPayload;
    payloads := [];
    for i := 0 to dataShards
      invariant payloads == RecoveredPayloads(present, shards, i)
    {
      if !present[i] {
        payloads := payloads + ShardPayload(shards[i]);
      }
    }
  }

  method CountPresent(present: seq<bool>) returns (count: nat)
    ensures count == CountBelow(present, |present|)
  {
    count := 0;
    for i := 0 to |present|
      invariant count == CountBelow(present, i)
    {
      if present[i] {
        count := count + 1;
      }
    }
  }

  /** Padding to the longest present shard makes all present shards equally long. */
  lemma PaddedEqualLengths(stored: ShardSet, maxLen: nat, padded: seq<Vector>, d: nat)
    requires |stored.shards| == |stored.present|
    requires padded == PadPresent(stored.shards, stored.present, maxLen)
    ensures EqualLengths(padded, FirstPresent(stored.present, d))
  {
    hide FirstPresentBelow, Resize;
    FirstPresentFacts(stored.present, d, |stored.present|);
  }

  lemma RestoredLength(m: Matrix, d: nat, shards: seq<Vector>, present: seq<bool>, restored: seq<Vector>)
    requires d <= |m| && IsMatrix(m, |m|, d) && |shards| == |present| == |m|
    ensures Restored(m, d, shards, present, restored) ==> |restored| == |m|
  {}
}
