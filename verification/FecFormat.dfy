/** The FEC packet layout and the value-level behaviour of the codec's two halves. */
module FecFormat {
  import opened Bytes
  import opened Numbers
  import opened LinearAlgebra
  import opened CodeMatrix
  import opened ReedSolomonCoder

  const FEC_HEADER_SIZE: nat := 6
  const FEC_HEADER_SIZE_PLUS_SIZE: nat := 8
  const FEC_TYPE_DATA: u16 := 0x00f1
  const FEC_TYPE_PARITY: u16 := 0x00f2
  const FEC_TYPE_OOB: u16 := 0x00f3
  const MAX_FEC_ENCODE_LATENCY_MS: int := 500
  const MAX_SHARD_SETS: nat := 3

  type Payload = seq<byte>
  type Packet = seq<byte>

  // ----- uint32 arithmetic

  /** The group of a sequence number. */
  function ShardId(seqno: u32, shardSize: nat): (id: u32)
    requires shardSize > 0
  {
    QuotientBound(seqno, shardSize);
    seqno / shardSize
  }

  /** The place of a sequence number in its group. */
  function ShardIndex(seqno: u32, shardSize: nat): (index: nat)
    requires shardSize > 0
    ensures index < shardSize
  {
    seqno % shardSize
  }

  lemma QuotientBound(v: nat, n: nat)
    requires n > 0
    ensures 0 <= v / n <= v
  {
    if v / n > v {
      MulLess(v, v / n, n);
    }
  }

  /** The int32 value of the difference of two uint32 values. */
  function TimeDiff(later: u32, earlier: u32): int {
    var diff := Wrap32(later - earlier);
    if diff < 0x8000_0000 then diff else diff - U32
  }

  /** The largest multiple of the shard size that does not exceed the largest uint32. */
  function Paws(shardSize: nat): u32
    requires shardSize > 0
  {
    var q := 0xffff_ffff / shardSize;
    PawsBound(shardSize);
    q * shardSize
  }

  lemma PawsBound(shardSize: nat)
    requires shardSize > 0
    ensures 0 <= 0xffff_ffff / shardSize * shardSize <= 0xffff_ffff
  {}

  /** The bound on sequence numbers below which the signed comparison of group numbers is exact. */
  const SEQ_BOUND: nat := 0x8000_0000

  lemma PawsPositive(n: nat)
    requires 0 < n <= 256
    ensures Paws(n) >= SEQ_BOUND
  {
    var q := 0xffff_ffff / n;
    assert 0xffff_ffff == q * n + 0xffff_ffff % n;
  }

  // ----- packets

  function Seal(seqno: u32, kind: u16, body: seq<byte>): (packet: Packet)
    ensures |packet| == FEC_HEADER_SIZE + |body|
  {
    Le32(seqno) + Le16(kind) + body
  }

  function PacketSeq(packet: Packet): u32
    requires |packet| >= FEC_HEADER_SIZE
  {
    FromLe32(packet)
  }

  function PacketFlag(packet: Packet): u16
    requires |packet| >= FEC_HEADER_SIZE
  {
    FromLe16(packet[4..])
  }

  lemma SealRoundTrip(seqno: u32, kind: u16, body: seq<byte>)
    ensures var packet := Seal(seqno, kind, body);
            PacketSeq(packet) == seqno && PacketFlag(packet) == kind && packet[FEC_HEADER_SIZE..] == body
  {
    hide Le32, Le16, FromLe32, FromLe16;
    var packet := Seal(seqno, kind, body);
    assert packet == Le32(seqno) + (Le16(kind) + body);
    assert packet[4..] == Le16(kind) + body;
    Le32RoundTrip(seqno, Le16(kind) + body);
    Le16RoundTrip(kind, body);
  }

  /** A payload with its length in front, as the erasure code sees it; the length field truncates to 16 bits. */
  function DataShard(payload: Payload): (shard: Vector)
    ensures |shard| == |payload| + 2
  {
    Le16((|payload| + 2) % U16) + payload
  }

  /** What the decoder takes out of a restored data shard, if the length field makes sense. */
  function ShardPayload(shard: Vector): seq<Payload> {
    if |shard| < 2 then []
    else
      var size := FromLe16(shard);
      if 2 <= size <= |shard| then [shard[2..size]] else []
  }

  function Resize(v: Vector, len: nat): (r: Vector)
    ensures |r| == len
  {
    if |v| < len then v + Zeros(len - |v|) else v[..len]
  }

  /** Padding does not hide the payload, provided its length fits the field. */
  lemma PaddedShardPayload(payload: Payload, len: nat)
    requires |payload| + 2 < U16 && len >= |payload| + 2
    ensures ShardPayload(Resize(DataShard(payload), len)) == [payload]
  {
    hide Le16, FromLe16, Zeros;
    var shard := Resize(DataShard(payload), len);
    var tail := shard[2..];
    assert shard == Le16(|payload| + 2) + tail;
    Le16RoundTrip(|payload| + 2, tail);
    assert shard[2..|payload| + 2] == payload;
  }

  /** A restored shard gives its payload back exactly when the payload is short enough for its length field. */
  lemma PayloadSurvives(payload: Payload, len: nat)
    requires len >= |payload| + 2
    ensures ShardPayload(Resize(DataShard(payload), len)) == [payload] <==> |payload| + 2 < U16
  {
    if |payload| + 2 < U16 {
      PaddedShardPayload(payload, len);
    } else {
      hide Le16, FromLe16, Zeros;
      var shard := Resize(DataShard(payload), len);
      var tail := shard[2..];
      var size := (|payload| + 2) % U16;
      assert shard == Le16(size) + tail;
      Le16RoundTrip(size, tail);
      assert |shard[2..]| >= |payload| > size;
    }
  }
}

/** One call of the encoder and one call of the decoder, on values. */
module FecSteps {
  import opened Bytes
  import opened Numbers
  import opened LinearAlgebra
  import opened CodeMatrix
  import opened ReedSolomonCoder
  import opened FecFormat

  // ----- the encoder

  datatype Encoder = Encoder(nextSeq: u32, shardCount: nat, maxShardLen: nat, latestPacketMs: int,
                             encodeShards: seq<Vector>)

  /** Numbers start again at zero at the end of the numbering. */
  function WrapSeq(v: nat, paws: nat): nat {
    if v == paws then 0 else v
  }

  /** The numbering invariant: the position of the next number within its group counts the data shards collected. */
  ghost predicate EncoderOk(m: Matrix, d: nat, enc: Encoder) {
    1 <= d < |m| <= 256 && IsMatrix(m, |m|, d) &&
    enc.nextSeq < Paws(|m|) && enc.nextSeq % |m| == enc.shardCount < d &&
    |enc.encodeShards| == d &&
    forall i :: 0 <= i < enc.shardCount ==> |enc.encodeShards[i]| <= enc.maxShardLen
  }

  /** The sequence numbers of a group never run past the end of the numbering. */
  lemma GroupFits(n: nat, seqno: nat)
    requires n > 0 && seqno < Paws(n)
    ensures seqno - seqno % n + n <= Paws(n) < U32
  {
    var a, q := seqno / n, 0xffff_ffff / n;
    assert seqno == a * n + seqno % n;
    MulLe(q, a, n);
    MulLe(a + 1, q, n);
    PawsBound(n);
  }

  predicate EmitsParity(enc: Encoder, now: u32) {
    enc.latestPacketMs != 0 && now - enc.latestPacketMs < MAX_FEC_ENCODE_LATENCY_MS
  }

  function ParityPackets(m: Matrix, shards: seq<Vector>, len: nat, seqno: nat): (packets: seq<Packet>)
    requires |shards| <= |m| && IsMatrix(m, |m|, |shards|) && seqno + (|m| - |shards|) <= U32
  {
    seq(|m| - |shards|, k requires 0 <= k < |m| - |shards| =>
      Seal(seqno + k, FEC_TYPE_PARITY, EncodedShard(m[|shards| + k], shards, len)))
  }

  function PadAll(shards: seq<Vector>, len: nat): (r: seq<Vector>)
    ensures |r| == |shards|
    ensures forall i :: 0 <= i < |r| ==> |r[i]| == len
  {
    seq(|shards|, i requires 0 <= i < |shards| => Resize(shards[i], len))
  }

  /** The encoder after a data shard has taken its place in the group. */
  function Collect(enc: Encoder, shard: Vector): Encoder
    requires enc.shardCount < |enc.encodeShards| && enc.nextSeq + 1 < U32
  {
    enc.(nextSeq := enc.nextSeq + 1, shardCount := enc.shardCount + 1, maxShardLen := Max(enc.maxShardLen, |shard|),
         encodeShards := enc.encodeShards[enc.shardCount := shard])
  }

  /** A full group is closed: its parity packets leave, or their numbers are skipped. */
  ghost function CloseGroup(m: Matrix, enc: Encoder, now: u32): (r: (Encoder, seq<Packet>))
    requires |enc.encodeShards| <= |m| && IsMatrix(m, |m|, |enc.encodeShards|) && |m| > 0
    requires enc.nextSeq + |m| - |enc.encodeShards| <= Paws(|m|)
  {
    var next := WrapSeq(enc.nextSeq + |m| - |enc.encodeShards|, Paws(|m|));
    if EmitsParity(enc, now) then
      var padded := PadAll(enc.encodeShards, enc.maxShardLen);
      (Encoder(next, 0, 0, enc.latestPacketMs, padded), ParityPackets(m, padded, enc.maxShardLen, enc.nextSeq))
    else
      (Encoder(next, 0, 0, enc.latestPacketMs, enc.encodeShards), [])
  }

  /** Takes in one payload: the packets that leave, with sequence numbers that do not wrap inside a group. */
  ghost function EncodeStep(m: Matrix, d: nat, enc: Encoder, payload: Payload, now: u32): (r: (Encoder, seq<Packet>))
    requires EncoderOk(m, d, enc)
  {
    GroupFits(|m|, enc.nextSeq);
    var data := [Seal(enc.nextSeq, FEC_TYPE_DATA, DataShard(payload))];
    var collected := Collect(enc, DataShard(payload));
    if collected.shardCount < d then (collected.(latestPacketMs := now), data)
    else
      var (closed, parity) := CloseGroup(m, collected, now);
      (closed.(latestPacketMs := now), data + parity)
  }

  lemma EncodeKeepsNumbering(m: Matrix, d: nat, enc: Encoder, payload: Payload, now: u32)
    requires EncoderOk(m, d, enc)
    ensures EncoderOk(m, d, EncodeStep(m, d, enc, payload, now).0)
  {
    var n, seqno := |m|, enc.nextSeq;
    GroupFits(n, seqno);
    if enc.shardCount + 1 < d {
      NextInGroup(n, seqno);
    } else {
      NextGroup(n, seqno, seqno + 1 + n - d);
    }
  }

  lemma NextInGroup(n: nat, seqno: nat)
    requires n > 0 && seqno % n + 1 < n
    ensures (seqno + 1) % n == seqno % n + 1
  {
    DivModIs(n, seqno + 1, seqno / n, seqno % n + 1);
  }

  lemma NextGroup(n: nat, seqno: nat, end: nat)
    requires n > 0 && seqno < Paws(n) && end == seqno - seqno % n + n
    ensures WrapSeq(end, Paws(n)) < Paws(n) && WrapSeq(end, Paws(n)) % n == 0
  {
    hide *;
    GroupFits(n, seqno);
    GroupEnd(n, seqno);
    WrapMultiple(end, Paws(n), n);
  }

  lemma WrapMultiple(end: nat, paws: nat, n: nat)
    requires n > 0 && 0 < paws && end <= paws && end % n == 0
    ensures WrapSeq(end, paws) < paws && WrapSeq(end, paws) % n == 0
  {
    DivModIs(n, 0, 0, 0);
  }

  /** The number after a group is a multiple of its size. */
  lemma GroupEnd(n: nat, seqno: nat)
    requires n > 0
    ensures seqno - seqno % n + n >= n && (seqno - seqno % n + n) % n == 0
  {
    var q := seqno / n;
    assert seqno == q * n + seqno % n;
    DivModIs(n, (q + 1) * n, q + 1, 0);
  }

  lemma NumberInGroup(n: nat, seqno: nat, k: nat)
    requires n > 0 && seqno < Paws(n) && seqno % n + k < n
    ensures seqno + k < Paws(n) < U32
    ensures ShardId(seqno + k, n) == seqno / n && ShardIndex(seqno + k, n) == seqno % n + k
  {
    GroupFits(n, seqno);
    DivModIs(n, seqno + k, seqno / n, seqno % n + k);
  }

  /** Packet k of a call is sealed with the k-th number from the next one on. */
  lemma EncodedIsSealed(m: Matrix, d: nat, enc: Encoder, payload: Payload, now: u32, k: nat)
    returns (kind: u16, body: seq<byte>)
    requires EncoderOk(m, d, enc) && k < |EncodeStep(m, d, enc, payload, now).1|
    ensures enc.shardCount + k < |m| && enc.nextSeq + k < U32
    ensures EncodeStep(m, d, enc, payload, now).1[k] == Seal(enc.nextSeq + k, kind, body)
    ensures kind == if enc.shardCount + k < d then FEC_TYPE_DATA else FEC_TYPE_PARITY
  {
    hide Seal, EncodedShard, PadAll, DataShard;
    GroupFits(|m|, enc.nextSeq);
    if k == 0 {
      kind, body := FEC_TYPE_DATA, DataShard(payload);
    } else {
      var shards := PadAll(Collect(enc, DataShard(payload)).encodeShards, Collect(enc, DataShard(payload)).maxShardLen);
      kind, body := FEC_TYPE_PARITY,
        EncodedShard(m[d + k - 1], shards, Collect(enc, DataShard(payload)).maxShardLen);
    }
  }

  /** The numbers of a group: whatever the number of the group, across the wrap too, its data packets carry the indices
      0 to d - 1 and its parity packets d to d + p - 1, in the order in which they leave. */
  lemma EncodedNumbers(m: Matrix, d: nat, enc: Encoder, payload: Payload, now: u32, k: nat)
    requires EncoderOk(m, d, enc) && k < |EncodeStep(m, d, enc, payload, now).1|
    ensures var packet := EncodeStep(m, d, enc, payload, now).1[k];
            && |packet| >= FEC_HEADER_SIZE && PacketSeq(packet) < Paws(|m|)
            && ShardIndex(PacketSeq(packet), |m|) == enc.shardCount + k
            && ShardId(PacketSeq(packet), |m|) == enc.nextSeq / |m|
            && PacketFlag(packet) == if enc.shardCount + k < d then FEC_TYPE_DATA else FEC_TYPE_PARITY
  {
    hide Seal, EncodeStep, PacketSeq, PacketFlag, Paws, ShardId, ShardIndex;
    var kind, body := EncodedIsSealed(m, d, enc, payload, now, k);
    NumberInGroup(|m|, enc.nextSeq, k);
    SealRoundTrip(enc.nextSeq + k, kind, body);
  }

  /** One data packet leaves, and with the last one of a group all its parity packets, provided that the call before
      read the clock less than 500 ms ago and not as zero; every call leaves its own reading for the next one. */
  lemma EncodedCount(m: Matrix, d: nat, enc: Encoder, payload: Payload, now: u32)
    requires EncoderOk(m, d, enc)
    ensures var (enc', packets) := EncodeStep(m, d, enc, payload, now);
            && enc'.latestPacketMs == now
            && enc'.shardCount == (if enc.shardCount + 1 == d then 0 else enc.shardCount + 1)
            && |packets| == (if enc.shardCount + 1 == d && InTime(enc.latestPacketMs, now) then 1 + |m| - d else 1)
  {
    hide Seal, EncodedShard, PadAll, DataShard, Paws;
    GroupFits(|m|, enc.nextSeq);
  }

  /** The second reading of the clock is less than half a second after the first, which is not zero. */
  predicate InTime(before: int, now: int) {
    before != 0 && now < before + 500
  }

  /** Two calls in turn: when the second fills the group, its parity leaves exactly if the readings are less than half a
      second apart and the first is not zero. */
  lemma ParityNeedsHaste(m: Matrix, d: nat, enc: Encoder, first: Payload, t1: u32, second: Payload, t2: u32)
    requires EncoderOk(m, d, enc)
    ensures var enc1 := EncodeStep(m, d, enc, first, t1).0;
            && EncoderOk(m, d, enc1)
            && |EncodeStep(m, d, enc1, second, t2).1|
               == if enc1.shardCount + 1 == d && t1 != 0 && t2 < t1 + 500 then 1 + |m| - d else 1
  {
    hide EncodeStep;
    EncodeKeepsNumbering(m, d, enc, first, t1);
    EncodedCount(m, d, enc, first, t1);
    EncodedCount(m, d, EncodeStep(m, d, enc, first, t1).0, second, t2);
  }

  lemma StepIsWrap(v: nat, paws: u32)
    requires v <= paws && paws > 0
    ensures Wrap32(v) % paws == WrapSeq(v, paws)
  {
    DivModIs(U32, v, 0, v);
    if v == paws {
      DivModIs(paws, v, 1, 0);
    } else {
      DivModIs(paws, v, 0, v);
    }
  }

  // ----- the decoder

  datatype ShardSet = ShardSet(shards: seq<Vector>, present: seq<bool>, dataShard: seq<bool>)

  datatype Decoder = Decoder(decodeSets: map<u32, ShardSet>, newestShardId: u32)

  function EmptySet(n: nat): ShardSet {
    ShardSet(seq(n, _ => []), seq(n, _ => false), seq(n, _ => false))
  }

  ghost predicate SetOk(set_: ShardSet, n: nat, d: nat) {
    |set_.shards| == |set_.present| == |set_.dataShard| == n && CountBelow(set_.present, n) < d
  }

  /** Every stored set is incomplete and not empty, and its group number stays in the numbering. */
  ghost predicate DecoderOk(n: nat, d: nat, dec: Decoder) {
    1 <= d < n <= 256 && dec.newestShardId * n < Paws(n) &&
    forall id :: id in dec.decodeSets ==>
      id * n < Paws(n) && SetOk(dec.decodeSets[id], n, d) && CountBelow(dec.decodeSets[id].present, n) >= 1
  }

  function SetFor(dec: Decoder, id: u32, n: nat): ShardSet {
    if id in dec.decodeSets then dec.decodeSets[id] else EmptySet(n)
  }

  function MaxPresentLen(shards: seq<Vector>, present: seq<bool>, n: nat): nat
    requires n <= |shards| && n <= |present|
  {
    if n == 0 then 0
    else
      var rest := MaxPresentLen(shards, present, n - 1);
      if present[n - 1] then Max(rest, |shards[n - 1]|) else rest
  }

  function PadPresent(shards: seq<Vector>, present: seq<bool>, len: nat): (r: seq<Vector>)
    requires |shards| == |present|
    ensures |r| == |shards|
    ensures forall i :: 0 <= i < |r| ==> r[i] == if present[i] then Resize(shards[i], len) else shards[i]
  {
    seq(|shards|, i requires 0 <= i < |shards| => if present[i] then Resize(shards[i], len) else shards[i])
  }

  /** The payloads of the first n data shards that were missing and have been restored. */
  function RecoveredPayloads(present: seq<bool>, restored: seq<Vector>, n: nat): seq<Payload>
    requires n <= |present| && n <= |restored|
    decreases n
  {
    if n == 0 then []
    else RecoveredPayloads(present, restored, n - 1) + if present[n - 1] then [] else ShardPayload(restored[n - 1])
  }

  /** Removes the groups more than three groups behind the newest one. */
  function DiscardOld(sets: map<u32, ShardSet>, newest: u32, n: nat): map<u32, ShardSet> {
    map id | id in sets && TimeDiff(Wrap32(newest * n), Wrap32(id * n)) <= MAX_SHARD_SETS * n :: sets[id]
  }

  /** Moves the newest group number forward, if this group is ahead of it. */
  function Advance(dec: Decoder, id: u32, n: nat): Decoder {
    if TimeDiff(Wrap32(id * n), Wrap32(dec.newestShardId * n)) > 0
    then Decoder(DiscardOld(dec.decodeSets, id, n), id)
    else dec
  }

  predicate IsFecPacket(packet: Packet) {
    |packet| >= FEC_HEADER_SIZE_PLUS_SIZE &&
    PacketFlag(packet) in {FEC_TYPE_DATA, FEC_TYPE_PARITY, FEC_TYPE_OOB}
  }

  /** The set after the packet's shard has been put into it. */
  function StoredSet(set_: ShardSet, packet: Packet, n: nat): (r: ShardSet)
    requires |packet| >= FEC_HEADER_SIZE_PLUS_SIZE
    requires |set_.shards| == |set_.present| == |set_.dataShard| == n > 0
    ensures |r.shards| == |r.present| == |r.dataShard| == n
  {
    var index := ShardIndex(PacketSeq(packet), n);
    ShardSet(set_.shards[index := packet[FEC_HEADER_SIZE..]], set_.present[index := true],
             set_.dataShard[index := PacketFlag(packet) == FEC_TYPE_DATA])
  }

  /** What the shards of a complete set are restored to: nothing to do when all data shards are there. */
  ghost predicate RestoredSet(m: Matrix, d: nat, set_: ShardSet, restored: seq<Vector>)
    requires d <= |m| && IsMatrix(m, |m|, d) && |set_.shards| == |set_.present| == |m|
  {
    var padded := PadPresent(set_.shards, set_.present, MaxPresentLen(set_.shards, set_.present, |m|));
    |restored| == |m| && (CountBelow(set_.present, d) != d ==> Restored(m, d, padded, set_.present, restored))
  }

  /** A new shard joins the set of its group; a set of d shards is restored and removed. */
  ghost predicate AbsorbStep(m: Matrix, d: nat, dec: Decoder, packet: Packet, restored: seq<Vector>,
                             dec': Decoder, recovered: seq<Payload>)
    requires IsMatrix(m, |m|, d) && DecoderOk(|m|, d, dec) && |packet| >= FEC_HEADER_SIZE_PLUS_SIZE
  {
    var n := |m|;
    var id := ShardId(PacketSeq(packet), n);
    var stored := StoredSet(SetFor(dec, id, n), packet, n);
    if CountBelow(stored.present, n) < d then
      dec' == Advance(dec.(decodeSets := dec.decodeSets[id := stored]), id, n) && recovered == []
    else
      RestoredSet(m, d, stored, restored) &&
      dec' == Advance(dec.(decodeSets := dec.decodeSets - {id}), id, n) &&
      recovered == if CountBelow(stored.present, d) == d then []
                   else RecoveredPayloads(stored.present, restored, d)
  }

  /** One call of the decoder; restored is the outcome of the reconstruction where there is one. */
  ghost predicate DecodeStep(m: Matrix, d: nat, dec: Decoder, packet: Packet, restored: seq<Vector>,
                             dec': Decoder, output: seq<Payload>)
    requires IsMatrix(m, |m|, d) && DecoderOk(|m|, d, dec)
  {
    if !IsFecPacket(packet) then dec' == dec && output == [packet]
    else if PacketFlag(packet) == FEC_TYPE_OOB then dec' == dec && output == []
    else
      var n := |m|;
      var direct := DirectOutput(packet);
      if PacketSeq(packet) >= Paws(n) || IsDuplicate(dec, packet, n) then dec' == dec && output == direct
      else
        |direct| <= |output| && output[..|direct|] == direct &&
        AbsorbStep(m, d, dec, packet, restored, dec', output[|direct|..])
  }

  /** A data packet carries its payload in the clear. */
  function DirectOutput(packet: Packet): seq<Payload>
    requires |packet| >= FEC_HEADER_SIZE_PLUS_SIZE
  {
    if PacketFlag(packet) == FEC_TYPE_DATA then [packet[FEC_HEADER_SIZE_PLUS_SIZE..]] else []
  }

  predicate IsDuplicate(dec: Decoder, packet: Packet, n: nat)
    requires |packet| >= FEC_HEADER_SIZE_PLUS_SIZE && n > 0
  {
    var set_ := SetFor(dec, ShardId(PacketSeq(packet), n), n);
    ShardIndex(PacketSeq(packet), n) < |set_.present| && set_.present[ShardIndex(PacketSeq(packet), n)]
  }

  // ----- what the decoder keeps, whatever arrives

  lemma {:induction false} CountPositive(present: seq<bool>, n: nat, i: nat)
    requires i < n <= |present| && present[i]
    ensures CountBelow(present, n) >= 1
    decreases n
  {
    if i < n - 1 {
      CountPositive(present, n - 1, i);
    }
  }

  lemma IdInNumbering(seqno: u32, n: nat)
    requires n > 0
    ensures ShardId(seqno, n) * n <= seqno
    ensures seqno == ShardId(seqno, n) * n + ShardIndex(seqno, n)
  {}

  lemma AbsorbKeepsSets(m: Matrix, d: nat, dec: Decoder, packet: Packet, restored: seq<Vector>,
                        dec': Decoder, recovered: seq<Payload>)
    requires IsMatrix(m, |m|, d) && DecoderOk(|m|, d, dec) && |packet| >= FEC_HEADER_SIZE_PLUS_SIZE
    requires PacketSeq(packet) < Paws(|m|)
    requires AbsorbStep(m, d, dec, packet, restored, dec', recovered)
    ensures DecoderOk(|m|, d, dec')
  {
    hide Paws, PacketSeq, PacketFlag, ShardId, ShardIndex, CountBelow, RestoredSet, TimeDiff, RecoveredPayloads;
    var n := |m|;
    var id := ShardId(PacketSeq(packet), n);
    IdInNumbering(PacketSeq(packet), n);
    var stored := StoredSet(SetFor(dec, id, n), packet, n);
    CountPositive(stored.present, n, ShardIndex(PacketSeq(packet), n));
  }

  /** On any input whatsoever every stored set keeps at least one and fewer than d shards. */
  lemma DecodeKeepsSets(m: Matrix, d: nat, dec: Decoder, packet: Packet, restored: seq<Vector>,
                        dec': Decoder, output: seq<Payload>)
    requires IsMatrix(m, |m|, d) && DecoderOk(|m|, d, dec)
    requires DecodeStep(m, d, dec, packet, restored, dec', output)
    ensures DecoderOk(|m|, d, dec')
  {
    hide Paws, PacketSeq, PacketFlag, AbsorbStep, DecoderOk, SetFor;
    if dec' != dec {
      AbsorbKeepsSets(m, d, dec, packet, restored, dec', output[|DirectOutput(packet)|..]);
    }
  }

  /** A decoder that changes has touched only the set of the packet's group before advancing. */
  lemma DecodeMoves(m: Matrix, d: nat, dec: Decoder, packet: Packet, restored: seq<Vector>,
                    dec': Decoder, output: seq<Payload>) returns (sets: map<u32, ShardSet>)
    requires IsMatrix(m, |m|, d) && DecoderOk(|m|, d, dec)
    requires DecodeStep(m, d, dec, packet, restored, dec', output) && dec' != dec
    ensures |packet| >= FEC_HEADER_SIZE_PLUS_SIZE
    ensures var id := ShardId(PacketSeq(packet), |m|);
            dec' == Advance(dec.(decodeSets := sets), id, |m|) && sets.Keys <= dec.decodeSets.Keys + {id}
  {
    hide Paws, PacketSeq, PacketFlag, ShardId, ShardIndex, CountBelow, RestoredSet, Advance, StoredSet, SetFor,
      RecoveredPayloads;
    var id := ShardId(PacketSeq(packet), |m|);
    DecoderSetShape(|m|, d, dec, id);
    var stored := StoredSet(SetFor(dec, id, |m|), packet, |m|);
    sets := if CountBelow(stored.present, |m|) < d then dec.decodeSets[id := stored] else dec.decodeSets - {id};
  }

  lemma DecoderSetShape(n: nat, d: nat, dec: Decoder, id: u32)
    requires DecoderOk(n, d, dec)
    ensures var set_ := SetFor(dec, id, n); |set_.shards| == |set_.present| == |set_.dataShard| == n
  {
    hide Paws, CountBelow;
  }
}
