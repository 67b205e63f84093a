/** The quantum permutation pad of qpp.cpp: permutation tables, their reversal, and the byte streams they encrypt. */
module Qpp {
  import opened Bytes
  import opened Ciphers
  import opened Numbers

  const MATRIX_BYTES: nat := 256

  // ----- the generator

  datatype Xoshiro = Xoshiro(s0: bv64, s1: bv64, s2: bv64, s3: bv64)

  function Rotl(v: bv64, n: nat): bv64
    requires 0 < n < 64
  {
    (v << n) | (v >> (64 - n))
  }

  function Xor64(a: bv64, b: bv64): bv64 {
    a ^ b
  }

  function Scrambled(v: bv64): bv64 {
    Rotl(v * 5, 7) * 9
  }

  function Shifted(v: bv64): bv64 {
    v << 17
  }

  function Turned(v: bv64): bv64 {
    Rotl(v, 45)
  }

  function Output(x: Xoshiro): bv64 {
    Scrambled(x.s1)
  }

  function Step(x: Xoshiro): Xoshiro {
    var s2, s3 := Xor64(x.s2, x.s0), Xor64(x.s3, x.s1);
    Xoshiro(Xor64(x.s0, s3), Xor64(x.s1, s2), Xor64(s2, Shifted(x.s1)), Turned(s3))
  }

  function StateOf(s: seq<bv64>): Xoshiro
    requires |s| == 4
  {
    Xoshiro(s[0], s[1], s[2], s[3])
  }

  method Xoshiro256ss(state: array<bv64>) returns (result: bv64)
    requires state.Length == 4
    modifies state
    ensures result == Output(StateOf(old(state[..]))) && StateOf(state[..]) == Step(StateOf(old(state[..])))
  {
    hide Xor64, Scrambled, Shifted, Turned;
    result := Scrambled(state[1]);
    var t := Shifted(state[1]);
    state[2] := Xor64(state[2], state[0]);
    state[3] := Xor64(state[3], state[1]);
    state[1] := Xor64(state[1], state[2]);
    state[0] := Xor64(state[0], state[3]);
    state[2] := Xor64(state[2], t);
    state[3] := Turned(state[3]);
  }

  /** The current word and how many of its bytes are used up. */
  datatype RandState = RandState(xoshiro: Xoshiro, seed64: bv64, count: nat)

  /** The generator as a stream starts with it. */
  function Fresh(x: Xoshiro): RandState {
    RandState(Step(x), Output(x), 0)
  }

  /** One byte later. */
  function NextRand(r: RandState): RandState {
    if r.count + 1 == 8 then RandState(Step(r.xoshiro), Output(r.xoshiro), 0) else r.(count := r.count + 1)
  }

  /** n bytes later, however those bytes were cut into calls. */
  function Advance(r: RandState, n: nat): (a: RandState)
    ensures r.count < 8 ==> a.count < 8
  {
    if n == 0 then r else NextRand(Advance(r, n - 1))
  }

  lemma {:induction false} AdvanceAdd(r: RandState, m: nat, n: nat)
    ensures Advance(Advance(r, m), n) == Advance(r, m + n)
    decreases n
  {
    hide NextRand;
    if n > 0 {
      AdvanceAdd(r, m, n - 1);
    }
  }

  // ----- one byte

  /** The word shifted down by as many bytes as have been used, truncated to a byte. */
  function KeyByte(word: bv64, used: nat): byte
    requires used < 8
  {
    match used
    case 0 => LowByte(word)
    case 1 => LowByte(word >> 8)
    case 2 => LowByte(word >> 16)
    case 3 => LowByte(word >> 24)
    case 4 => LowByte(word >> 32)
    case 5 => LowByte(word >> 40)
    case 6 => LowByte(word >> 48)
    case 7 => LowByte(word >> 56)
  }

  function LowByte(word: bv64): byte {
    (word & 0xff) as byte
  }

  function Wide(b: byte): bv64 {
    b as bv64
  }

  /** The eight key bytes of a word are the word, the lowest first: each bit is used once. */
  lemma KeyBytesAreTheWord(word: bv64)
    ensures word == Wide(KeyByte(word, 0)) | (Wide(KeyByte(word, 1)) << 8) | (Wide(KeyByte(word, 2)) << 16)
                    | (Wide(KeyByte(word, 3)) << 24) | (Wide(KeyByte(word, 4)) << 32) | (Wide(KeyByte(word, 5)) << 40)
                    | (Wide(KeyByte(word, 6)) << 48) | (Wide(KeyByte(word, 7)) << 56)
  {}

  /** The low 16 bits of the word, modulo the number of pads. */
  function PadNumber(word: bv64, numPads: nat): (p: nat)
    requires numPads > 0
    ensures p < numPads
  {
    (NatOf(KeyByte(word, 0)) + 256 * NatOf(KeyByte(word, 1))) % numPads
  }

  function TwoBytes(low: byte, high: byte): bv64 {
    Wide(low) | (Wide(high) << 8)
  }

  lemma TwoBytesBack(low: byte, high: byte)
    ensures KeyByte(TwoBytes(low, high), 0) == low && KeyByte(TwoBytes(low, high), 1) == high
  {}

  /** No pad is out of reach: the words that differ in their low 16 bits choose every one of up to 65536 pads. */
  lemma EveryPadIsChosen(numPads: nat, p: nat) returns (word: bv64)
    requires p < numPads <= U16
    ensures PadNumber(word, numPads) == p
  {
    hide KeyByte, TwoBytes, NatOf, ByteOf;
    var low, high := ByteOf(p % 256), ByteOf(p / 256);
    NatOfByteOf(p % 256);
    NatOfByteOf(p / 256);
    word := TwoBytes(low, high);
    TwoBytesBack(low, high);
    DivModIs(numPads, p, 0, p);
  }

  lemma InTable(p: nat, numPads: nat, b: byte)
    requires p < numPads
    ensures 0 <= p * MATRIX_BYTES + NatOf(b) < numPads * MATRIX_BYTES
  {
    NatOfBound(b);
  }

  ghost predicate TableSize(table: seq<byte>, numPads: nat) {
    numPads > 0 && |table| == numPads * MATRIX_BYTES
  }

  function Lookup(table: seq<byte>, p: nat, numPads: nat, b: byte): byte
    requires TableSize(table, numPads) && p < numPads
  {
    InTable(p, numPads, b);
    table[p * MATRIX_BYTES + NatOf(b)]
  }

  function EncryptByte(pads: seq<byte>, numPads: nat, r: RandState, plain: byte): byte
    requires TableSize(pads, numPads) && r.count < 8
  {
    Lookup(pads, PadNumber(r.seed64, numPads), numPads, Xor(plain, KeyByte(r.seed64, r.count)))
  }

  function DecryptByte(rpads: seq<byte>, numPads: nat, r: RandState, cipher: byte): byte
    requires TableSize(rpads, numPads) && r.count < 8
  {
    Xor(Lookup(rpads, PadNumber(r.seed64, numPads), numPads, cipher), KeyByte(r.seed64, r.count))
  }

  /** rpads undoes pads, pad by pad. */
  ghost predicate Reverses(pads: seq<byte>, rpads: seq<byte>, numPads: nat) {
    TableSize(pads, numPads) && TableSize(rpads, numPads) &&
    forall p: nat, b: byte :: p < numPads ==> Lookup(rpads, p, numPads, Lookup(pads, p, numPads, b)) == b
  }

  lemma ByteRoundTrip(pads: seq<byte>, rpads: seq<byte>, numPads: nat, r: RandState, plain: byte)
    requires Reverses(pads, rpads, numPads) && r.count < 8
    ensures DecryptByte(rpads, numPads, r, EncryptByte(pads, numPads, r, plain)) == plain
  {
    hide Xor, KeyByte, PadNumber, Lookup;
    XorTwice(plain, KeyByte(r.seed64, r.count));
  }

  // ----- a run of bytes

  function Encrypted(pads: seq<byte>, numPads: nat, r: RandState, data: seq<byte>): (c: seq<byte>)
    requires TableSize(pads, numPads) && r.count < 8
    ensures |c| == |data|
  {
    seq(|data|, i requires 0 <= i < |data| => EncryptByte(pads, numPads, Advance(r, i), data[i]))
  }

  function Decrypted(rpads: seq<byte>, numPads: nat, r: RandState, data: seq<byte>): (p: seq<byte>)
    requires TableSize(rpads, numPads) && r.count < 8
    ensures |p| == |data|
  {
    seq(|data|, i requires 0 <= i < |data| => DecryptByte(rpads, numPads, Advance(r, i), data[i]))
  }

  /** The cipher of a pad and a seed: byte n is treated as the generator stands after n bytes. */
  function PadCipher(pads: seq<byte>, rpads: seq<byte>, numPads: nat, words: Xoshiro): StreamCipher
    requires TableSize(pads, numPads) && TableSize(rpads, numPads)
  {
    StreamCipher((n: nat, b: byte) => EncryptByte(pads, numPads, Advance(Fresh(words), n), b),
                 (n: nat, b: byte) => DecryptByte(rpads, numPads, Advance(Fresh(words), n), b))
  }

  lemma PadCipherIsLawful(pads: seq<byte>, rpads: seq<byte>, numPads: nat, words: Xoshiro)
    requires Reverses(pads, rpads, numPads)
    ensures TableSize(pads, numPads) && TableSize(rpads, numPads)
    ensures LawfulCipher(PadCipher(pads, rpads, numPads, words))
  {
    hide EncryptByte, DecryptByte, Advance, Reverses, TableSize;
    ReversesSizes(pads, rpads, numPads);
    FreshCount(words);
    forall n: nat, b: byte
      ensures PadCipher(pads, rpads, numPads, words).dec(n, PadCipher(pads, rpads, numPads, words).enc(n, b)) == b
    {
      ByteRoundTrip(pads, rpads, numPads, Advance(Fresh(words), n), b);
    }
  }

  lemma EncryptedIsEncAt(pads: seq<byte>, rpads: seq<byte>, numPads: nat, words: Xoshiro, n: nat, data: seq<byte>)
    requires TableSize(pads, numPads) && TableSize(rpads, numPads)
    ensures Advance(Fresh(words), n).count < 8
    ensures Encrypted(pads, numPads, Advance(Fresh(words), n), data)
         == EncAt(PadCipher(pads, rpads, numPads, words), n, data)
    ensures Decrypted(rpads, numPads, Advance(Fresh(words), n), data)
         == DecAt(PadCipher(pads, rpads, numPads, words), n, data)
  {
    hide EncryptByte, DecryptByte, Advance;
    FreshCount(words);
    forall i | 0 <= i < |data|
      ensures Encrypted(pads, numPads, Advance(Fresh(words), n), data)[i]
           == EncAt(PadCipher(pads, rpads, numPads, words), n, data)[i]
      ensures Decrypted(rpads, numPads, Advance(Fresh(words), n), data)[i]
           == DecAt(PadCipher(pads, rpads, numPads, words), n, data)[i]
    {
      AdvanceAdd(Fresh(words), n, i);
    }
  }

  /** A sequence of calls of encrypt, the generator moving on from one to the next. */
  function EncryptedCalls(pads: seq<byte>, numPads: nat, r: RandState, calls: seq<seq<byte>>): seq<byte>
    requires TableSize(pads, numPads) && r.count < 8
    decreases |calls|
  {
    if calls == [] then []
    else Encrypted(pads, numPads, r, calls[0]) + EncryptedCalls(pads, numPads, Advance(r, |calls[0]|), calls[1..])
  }

  function DecryptedCalls(rpads: seq<byte>, numPads: nat, r: RandState, calls: seq<seq<byte>>): seq<byte>
    requires TableSize(rpads, numPads) && r.count < 8
    decreases |calls|
  {
    if calls == [] then []
    else Decrypted(rpads, numPads, r, calls[0]) + DecryptedCalls(rpads, numPads, Advance(r, |calls[0]|), calls[1..])
  }

  /** The generator that moves on from call to call gives every byte the key of its position. */
  lemma {:induction false} CallsAreAt(pads: seq<byte>, rpads: seq<byte>, numPads: nat, words: Xoshiro, n: nat,
                                      calls: seq<seq<byte>>)
    requires TableSize(pads, numPads) && TableSize(rpads, numPads)
    ensures Advance(Fresh(words), n).count < 8
    ensures EncryptedCalls(pads, numPads, Advance(Fresh(words), n), calls)
         == EncCalls(PadCipher(pads, rpads, numPads, words), n, calls)
    ensures DecryptedCalls(rpads, numPads, Advance(Fresh(words), n), calls)
         == DecCalls(PadCipher(pads, rpads, numPads, words), n, calls)
    decreases |calls|
  {
    hide Encrypted, Decrypted, Advance, TableSize, PadCipher, EncAt, DecAt, Fresh;
    FreshCount(words);
    if calls != [] {
      var m := |calls[0]|;
      EncryptedIsEncAt(pads, rpads, numPads, words, n, calls[0]);
      AdvanceAdd(Fresh(words), n, m);
      CallsAreAt(pads, rpads, numPads, words, n + m, calls[1..]);
    }
  }

  /** Decrypting under any split restores what was encrypted under any other split. */
  lemma QppRoundTrip(pads: seq<byte>, rpads: seq<byte>, numPads: nat, words: Xoshiro,
                     plain: seq<seq<byte>>, cipher: seq<seq<byte>>)
    requires Reverses(pads, rpads, numPads)
    requires Concat(cipher) == EncryptedCalls(pads, numPads, Fresh(words), plain)
    ensures DecryptedCalls(rpads, numPads, Fresh(words), cipher) == Concat(plain)
  {
    hide EncryptByte, DecryptByte, Reverses, TableSize, PadCipher, Fresh, NextRand;
    FreshCount(words);
    ReversesSizes(pads, rpads, numPads);
    PadCipherIsLawful(pads, rpads, numPads, words);
    assert Advance(Fresh(words), 0) == Fresh(words);
    CallsAreAt(pads, rpads, numPads, words, 0, plain);
    CallsAreAt(pads, rpads, numPads, words, 0, cipher);
    CallsRoundTrip(PadCipher(pads, rpads, numPads, words), plain, cipher);
  }

  lemma FreshCount(start: Xoshiro)
    ensures Fresh(start).count == 0
  {}

  lemma ReversesSizes(pads: seq<byte>, rpads: seq<byte>, numPads: nat)
    requires Reverses(pads, rpads, numPads)
    ensures TableSize(pads, numPads) && TableSize(rpads, numPads)
  {}

  // ----- building the tables

  /** No two places hold the same. */
  ghost predicate AllDifferent(pad: seq<byte>) {
    forall i, j :: 0 <= i < j < |pad| ==> pad[i] != pad[j]
  }

  /** One pad: every byte value once. */
  ghost predicate IsPermutation(pad: seq<byte>) {
    |pad| == MATRIX_BYTES && AllDifferent(pad) && forall v: byte :: v in pad
  }

  ghost predicate IsReverse(pad: seq<byte>, rpad: seq<byte>) {
    |pad| == |rpad| == MATRIX_BYTES &&
    forall i :: 0 <= i < MATRIX_BYTES ==> At(rpad, pad[i]) == ByteOf(i)
  }

  function At(pad: seq<byte>, v: byte): byte
    requires |pad| == MATRIX_BYTES
  {
    NatOfBound(v);
    pad[NatOf(v)]
  }

  function Slot(pads: seq<byte>, p: nat): (pad: seq<byte>)
    requires (p + 1) * MATRIX_BYTES <= |pads|
    ensures |pad| == MATRIX_BYTES
  {
    pads[p * MATRIX_BYTES..(p + 1) * MATRIX_BYTES]
  }

  /** Two places have exchanged what they held, and nothing else has changed. */
  ghost predicate Exchanged(pad: seq<byte>, swapped: seq<byte>, i: nat, j: nat)
    requires i < |pad| && j < |pad|
  {
    && |swapped| == |pad| && swapped[i] == pad[j] && swapped[j] == pad[i]
    && forall k :: 0 <= k < |pad| && k != i && k != j ==> swapped[k] == pad[k]
  }

  lemma ExchangeKeepsDifferent(pad: seq<byte>, swapped: seq<byte>, i: nat, j: nat)
    requires AllDifferent(pad) && i < |pad| && j < |pad| && Exchanged(pad, swapped, i, j)
    ensures AllDifferent(swapped)
  {
    forall k, l | 0 <= k < l < |swapped| ensures swapped[k] != swapped[l] {
      var k', l' := Other(k, i, j), Other(l, i, j);
      assert swapped[k] == pad[k'] && swapped[l] == pad[l'];
      assert if k' < l' then pad[k'] != pad[l'] else pad[l'] != pad[k'];
    }
  }

  /** Where a value stood before the places i and j were exchanged. */
  function Other(k: nat, i: nat, j: nat): nat {
    if k == i then j else if k == j then i else k
  }

  lemma ExchangeKeepsValue(pad: seq<byte>, swapped: seq<byte>, i: nat, j: nat, v: byte)
    requires i < |pad| && j < |pad| && Exchanged(pad, swapped, i, j) && v in pad
    ensures v in swapped
  {
    var l :| 0 <= l < |pad| && pad[l] == v;
    assert swapped[if l == i then j else if l == j then i else l] == v;
  }

  lemma SwapKeepsPermutation(pad: seq<byte>, swapped: seq<byte>, i: nat, j: nat)
    requires i < MATRIX_BYTES && j < MATRIX_BYTES && IsPermutation(pad) && Exchanged(pad, swapped, i, j)
    ensures IsPermutation(swapped)
  {
    hide AllDifferent;
    ExchangeKeepsDifferent(pad, swapped, i, j);
    forall v: byte ensures v in swapped {
      ExchangeKeepsValue(pad, swapped, i, j, v);
    }
  }

  /** The value of the bytes read as one big-endian number, modulo the modulus. */
  function BigEndian(bytes: seq<byte>): nat {
    if bytes == [] then 0 else 256 * BigEndian(bytes[..|bytes| - 1]) + NatOf(bytes[|bytes| - 1])
  }

  method ModBigEndian(bytes: seq<byte>, modulus: nat) returns (result: nat)
    requires modulus > 0
    ensures result == BigEndian(bytes) % modulus && result < modulus
  {
    result := 0;
    for i := 0 to |bytes|
      invariant result == BigEndian(bytes[..i]) % modulus && result < modulus
    {
      assert bytes[..i + 1][..i] == bytes[..i];
      ModStep(BigEndian(bytes[..i]), NatOf(bytes[i]), modulus);
      result := (result * 256 + NatOf(bytes[i])) % modulus;
    }
    assert bytes[..|bytes|] == bytes;
  }

  lemma ModStep(value: nat, digit: nat, modulus: nat)
    requires modulus > 0
    ensures (value % modulus * 256 + digit) % modulus == (256 * value + digit) % modulus
  {
    var q := value / modulus;
    assert value == q * modulus + value % modulus;
    ModShift(value % modulus * 256 + digit, 256 * q, modulus);
    assert 256 * value + digit == value % modulus * 256 + digit + 256 * q * modulus;
  }

  lemma {:induction false} ModShift(v: nat, k: nat, modulus: nat)
    requires modulus > 0
    ensures (v + k * modulus) % modulus == v % modulus
    decreases k
  {
    if k > 0 {
      ModShift(v, k - 1, modulus);
      assert v + k * modulus == (v + (k - 1) * modulus) + modulus;
      AddModulus(v + (k - 1) * modulus, modulus);
    }
  }

  /** HMAC-SHA256 of a pad's name under a seed chunk, and AES of one block; neither is part of this model. */
  datatype Primitives = Primitives(hmac: (seq<byte>, nat) -> seq<byte>, aes: (seq<byte>, seq<byte>) -> seq<byte>)

  ghost predicate Sized(prims: Primitives) {
    (forall key: seq<byte>, id: nat :: |prims.hmac(key, id)| == 32) &&
    forall key: seq<byte>, block: seq<byte> :: |prims.aes(key, block)| == 16
  }

  lemma HmacSize(prims: Primitives, key: seq<byte>, id: nat)
    requires Sized(prims)
    ensures |prims.hmac(key, id)| == 32
  {}

  /** Everything but the given pad is as before. */
  ghost predicate SameOutside(before: seq<byte>, after: seq<byte>, p: nat) {
    |before| == |after| &&
    forall k :: 0 <= k < |before| && !(p * MATRIX_BYTES <= k < (p + 1) * MATRIX_BYTES) ==> before[k] == after[k]
  }

  function IdentityPad(): (pad: seq<byte>)
    ensures |pad| == MATRIX_BYTES
  {
    seq(MATRIX_BYTES, k requires 0 <= k < MATRIX_BYTES => ByteOf(k))
  }

  method FillPad(pads: array<byte>, p: nat)
    requires (p + 1) * MATRIX_BYTES <= pads.Length
    modifies pads
    ensures SameOutside(old(pads[..]), pads[..], p) && Slot(pads[..], p) == IdentityPad()
  {
    hide ByteOf;
    var base := p * MATRIX_BYTES;
    for i := 0 to MATRIX_BYTES
      invariant forall k :: 0 <= k < i ==> pads[base + k] == ByteOf(k)
      invariant forall k :: 0 <= k < pads.Length && !(base <= k < base + MATRIX_BYTES) ==> pads[k] == old(pads[k])
    {
      pads[base + i] := ByteOf(i);
    }
  }

  lemma IdentityIsPermutation(pad: seq<byte>)
    requires |pad| == MATRIX_BYTES && forall k :: 0 <= k < MATRIX_BYTES ==> pad[k] == ByteOf(k)
    ensures IsPermutation(pad)
  {
    hide ByteOf, NatOf;
    forall i, j | 0 <= i < j < MATRIX_BYTES
      ensures pad[i] != pad[j]
    {
      NatOfByteOf(i);
      NatOfByteOf(j);
    }
    forall v: byte
      ensures v in pad
    {
      ByteOfNatOf(v);
      assert pad[NatOf(v)] == v;
    }
  }

  /** One AES pass of one key over both halves of the running digest. */
  function StirredOnce(prims: Primitives, key: seq<byte>, sum: seq<byte>): (stirred: seq<byte>)
    requires Sized(prims) && |sum| == 32
    ensures |stirred| == 32
  {
    prims.aes(key, sum[..16]) + prims.aes(key, sum[16..])
  }

  /** The running digest after one pass of every key. */
  function Stirred(prims: Primitives, aesKeys: seq<seq<byte>>, sum: seq<byte>): (stirred: seq<byte>)
    requires Sized(prims) && |sum| == 32
    ensures |stirred| == 32
    decreases |aesKeys|
  {
    if aesKeys == [] then sum else Stirred(prims, aesKeys[1..], StirredOnce(prims, aesKeys[0], sum))
  }

  method StirSum(prims: Primitives, aesKeys: seq<seq<byte>>, sum: seq<byte>) returns (stirred: seq<byte>)
    requires Sized(prims) && |sum| == 32
    ensures |stirred| == 32 && stirred == Stirred(prims, aesKeys, sum)
  {
    hide StirredOnce;
    stirred := sum;
    assert aesKeys[0..] == aesKeys;
    for k := 0 to |aesKeys|
      invariant |stirred| == 32
      invariant Stirred(prims, aesKeys, sum) == Stirred(prims, aesKeys[k..], stirred)
    {
      assert aesKeys[k..][1..] == aesKeys[k + 1..];
      stirred := StirBoth(prims, aesKeys[k], stirred);
    }
  }

  /** The two blocks of the digest, one after the other in place. */
  method StirBoth(prims: Primitives, key: seq<byte>, sum: seq<byte>) returns (stirred: seq<byte>)
    requires Sized(prims) && |sum| == 32
    ensures |stirred| == 32 && stirred == StirredOnce(prims, key, sum)
  {
    stirred := prims.aes(key, sum[..16]) + sum[16..];
    stirred := stirred[..16] + prims.aes(key, stirred[16..]);
  }

  function Swapped(pad: seq<byte>, i: nat, j: nat): (swapped: seq<byte>)
    requires i < |pad| && j < |pad|
    ensures |swapped| == |pad| && Exchanged(pad, swapped, i, j)
  {
    pad[i := pad[j]][j := pad[i]]
  }

  /** A Fisher-Yates shuffle from position i down, whose choices come from the running digest. */
  function Shuffled(prims: Primitives, aesKeys: seq<seq<byte>>, pad: seq<byte>, sum: seq<byte>, i: nat): (r: seq<byte>)
    requires Sized(prims) && |sum| == 32 && |pad| == MATRIX_BYTES && i < MATRIX_BYTES
    ensures |r| == MATRIX_BYTES
    decreases i
  {
    if i == 0 then pad
    else
      var stirred := Stirred(prims, aesKeys, sum);
      Shuffled(prims, aesKeys, Swapped(pad, i, BigEndian(stirred) % (i + 1)), stirred, i - 1)
  }

  /** After any number of swaps the pad is a permutation. */
  lemma {:induction false} ShuffledIsPermutation(prims: Primitives, aesKeys: seq<seq<byte>>, pad: seq<byte>,
                                                 sum: seq<byte>, i: nat)
    requires Sized(prims) && |sum| == 32 && IsPermutation(pad) && i < MATRIX_BYTES
    ensures IsPermutation(Shuffled(prims, aesKeys, pad, sum, i))
    decreases i
  {
    hide BigEndian, Stirred;
    if i > 0 {
      var stirred := Stirred(prims, aesKeys, sum);
      var j := BigEndian(stirred) % (i + 1);
      SwapKeepsPermutation(pad, Swapped(pad, i, j), i, j);
      ShuffledIsPermutation(prims, aesKeys, Swapped(pad, i, j), stirred, i - 1);
    }
  }

  /** The pad of the given number, a function of the seed alone. */
  function PadOf(prims: Primitives, aesKeys: seq<seq<byte>>, chunk: seq<byte>, p: nat): (pad: seq<byte>)
    requires Sized(prims)
    ensures |pad| == MATRIX_BYTES
  {
    Shuffled(prims, aesKeys, IdentityPad(), prims.hmac(chunk, p), MATRIX_BYTES - 1)
  }

  lemma PadOfIsPermutation(prims: Primitives, aesKeys: seq<seq<byte>>, chunk: seq<byte>, p: nat)
    requires Sized(prims)
    ensures IsPermutation(PadOf(prims, aesKeys, chunk, p))
  {
    hide Shuffled, IsPermutation, ByteOf;
    IdentityIsPermutation(IdentityPad());
    ShuffledIsPermutation(prims, aesKeys, IdentityPad(), prims.hmac(chunk, p), MATRIX_BYTES - 1);
  }

  /** One swap of the shuffle in terms of the function. */
  lemma ShuffleStep(prims: Primitives, aesKeys: seq<seq<byte>>, pad: seq<byte>, sum: seq<byte>, i: nat)
    requires Sized(prims) && |sum| == 32 && |pad| == MATRIX_BYTES && i < MATRIX_BYTES
    ensures i == 0 ==> Shuffled(prims, aesKeys, pad, sum, i) == pad
    ensures i > 0 ==>
      var stirred := Stirred(prims, aesKeys, sum);
      Shuffled(prims, aesKeys, pad, sum, i) ==
      Shuffled(prims, aesKeys, Swapped(pad, i, BigEndian(stirred) % (i + 1)), stirred, i - 1)
  {
    hide Stirred, BigEndian, Swapped;
  }

  method SwapInPad(pads: array<byte>, p: nat, i: nat, j: nat)
    requires (p + 1) * MATRIX_BYTES <= pads.Length && i < MATRIX_BYTES && j < MATRIX_BYTES
    modifies pads
    ensures SameOutside(old(pads[..]), pads[..], p)
    ensures var base := p * MATRIX_BYTES;
            && pads[base + i] == old(pads[base + j]) && pads[base + j] == old(pads[base + i])
            && forall k :: 0 <= k < pads.Length && k != base + i && k != base + j ==> pads[k] == old(pads[k])
    ensures Slot(pads[..], p) == Swapped(Slot(old(pads[..]), p), i, j)
  {
    var base := p * MATRIX_BYTES;
    pads[base + i], pads[base + j] := pads[base + j], pads[base + i];
  }

  method ShufflePad(pads: array<byte>, p: nat, prims: Primitives, chunk: seq<byte>, aesKeys: seq<seq<byte>>)
    requires (p + 1) * MATRIX_BYTES <= pads.Length && Sized(prims)
    modifies pads
    ensures SameOutside(old(pads[..]), pads[..], p)
    ensures Slot(pads[..], p) ==
            Shuffled(prims, aesKeys, Slot(old(pads[..]), p), prims.hmac(chunk, p), MATRIX_BYTES - 1)
  {
    hide Stirred, BigEndian, Shuffled, Swapped, Sized;
    var sum := prims.hmac(chunk, p);
    HmacSize(prims, chunk, p);
    ghost var whole := Shuffled(prims, aesKeys, Slot(pads[..], p), sum, MATRIX_BYTES - 1);
    var i := MATRIX_BYTES - 1;
    while i > 0
      invariant 0 <= i < MATRIX_BYTES && |sum| == 32
      invariant SameOutside(old(pads[..]), pads[..], p)
      invariant Shuffled(prims, aesKeys, Slot(pads[..], p), sum, i) == whole
    {
      ShuffleStep(prims, aesKeys, Slot(pads[..], p), sum, i);
      sum := StirSum(prims, aesKeys, sum);
      var j := ModBigEndian(sum, i + 1);
      SwapInPad(pads, p, i, j);
      i := i - 1;
    }
    ShuffleStep(prims, aesKeys, Slot(pads[..], p), sum, i);
  }

  method ReversePad(pads: array<byte>, rpads: array<byte>, p: nat)
    requires pads != rpads && (p + 1) * MATRIX_BYTES <= pads.Length == rpads.Length
    requires IsPermutation(Slot(pads[..], p))
    modifies rpads
    ensures SameOutside(old(rpads[..]), rpads[..], p) && IsReverse(Slot(pads[..], p), Slot(rpads[..], p))
  {
    hide NatOf, ByteOf;
    var base := p * MATRIX_BYTES;
    ghost var pad := Slot(pads[..], p);
    for i := 0 to MATRIX_BYTES
      invariant forall k :: 0 <= k < rpads.Length && !(base <= k < base + MATRIX_BYTES) ==> rpads[k] == old(rpads[k])
      invariant forall k :: 0 <= k < i ==>
        0 <= NatOf(pad[k]) < MATRIX_BYTES && rpads[base + NatOf(pad[k])] == ByteOf(k)
    {
      assert pad[i] == pads[base + i];
      NatOfBound(pads[base + i]);
      forall k | 0 <= k < i
        ensures NatOf(pad[k]) != NatOf(pad[i])
      {
        assert pad[k] != pad[i];
        ByteOfNatOf(pad[k]);
        ByteOfNatOf(pad[i]);
      }
      rpads[base + NatOf(pads[base + i])] := ByteOf(i);
    }
  }

  /** Pad by pad reversal is what encryption and decryption need. */
  lemma SlotsReverse(pads: seq<byte>, rpads: seq<byte>, numPads: nat)
    requires TableSize(pads, numPads) && TableSize(rpads, numPads)
    requires forall p :: 0 <= p < numPads ==> (p + 1) * MATRIX_BYTES <= |pads| && IsReverse(Slot(pads, p), Slot(rpads, p))
    ensures Reverses(pads, rpads, numPads)
  {
    hide NatOf, ByteOf;
    forall p: nat, b: byte | p < numPads
      ensures Lookup(rpads, p, numPads, Lookup(pads, p, numPads, b)) == b
    {
      var pad, rpad := Slot(pads, p), Slot(rpads, p);
      ByteOfNatOf(b);
      NatOfBound(pad[NatOf(b)]);
      assert At(rpad, pad[NatOf(b)]) == ByteOf(NatOf(b));
    }
  }

  // ----- the objects

  lemma EncryptByteIs(pads: seq<byte>, numPads: nat, r: RandState, b: byte)
    requires TableSize(pads, numPads) && r.count < 8
    ensures var pad, key := PadNumber(r.seed64, numPads), KeyByte(r.seed64, r.count);
            0 <= pad * MATRIX_BYTES + NatOf(Xor(b, key)) < |pads| &&
            EncryptByte(pads, numPads, r, b) == pads[pad * MATRIX_BYTES + NatOf(Xor(b, key))]
  {
    hide KeyByte, PadNumber, Xor, NatOf;
    InTable(PadNumber(r.seed64, numPads), numPads, Xor(b, KeyByte(r.seed64, r.count)));
    InTable(PadNumber(r.seed64, numPads), numPads, b);
  }

  lemma EncryptedNext(pads: seq<byte>, numPads: nat, r: RandState, data: seq<byte>, i: nat)
    requires TableSize(pads, numPads) && r.count < 8 && i < |data|
    ensures Encrypted(pads, numPads, r, data[..i + 1])
         == Encrypted(pads, numPads, r, data[..i]) + [EncryptByte(pads, numPads, Advance(r, i), data[i])]
  {
    hide EncryptByte, Advance;
  }

  lemma DecryptByteIs(rpads: seq<byte>, numPads: nat, r: RandState, b: byte)
    requires TableSize(rpads, numPads) && r.count < 8
    ensures var pad, key := PadNumber(r.seed64, numPads), KeyByte(r.seed64, r.count);
            0 <= pad * MATRIX_BYTES + NatOf(b) < |rpads| &&
            DecryptByte(rpads, numPads, r, b) == Xor(rpads[pad * MATRIX_BYTES + NatOf(b)], key)
  {
    hide KeyByte, PadNumber, Xor, NatOf;
    InTable(PadNumber(r.seed64, numPads), numPads, Xor(b, KeyByte(r.seed64, r.count)));
    InTable(PadNumber(r.seed64, numPads), numPads, b);
  }

  lemma DecryptedNext(rpads: seq<byte>, numPads: nat, r: RandState, data: seq<byte>, i: nat)
    requires TableSize(rpads, numPads) && r.count < 8 && i < |data|
    ensures Decrypted(rpads, numPads, r, data[..i + 1])
         == Decrypted(rpads, numPads, r, data[..i]) + [DecryptByte(rpads, numPads, Advance(r, i), data[i])]
  {
    hide DecryptByte, Advance;
  }

  class Rand {
    const xoshiro: array<bv64>
    var seed64: bv64
    var count: nat

    ghost predicate Valid()
      reads this
    {
      xoshiro.Length == 4 && count < 8
    }

    ghost function State(): (r: RandState)
      requires xoshiro.Length == 4
      reads this, xoshiro
    {
      RandState(StateOf(xoshiro[..]), seed64, count)
    }

    /** The generator as create_prng leaves it, given the four words derived from the seed. */
    constructor (words: Xoshiro)
      ensures Valid() && State() == Fresh(words) && fresh(xoshiro)
    {
      var state := new bv64[4];
      state[0], state[1], state[2], state[3] := words.s0, words.s1, words.s2, words.s3;
      assert StateOf(state[..]) == words;
      var first := Xoshiro256ss(state);
      xoshiro := state;
      seed64 := first;
      count := 0;
    }
  }

  class QppPad {
    const numPads: nat
    const pads: array<byte>
    const rpads: array<byte>

    ghost predicate Valid()
      reads pads, rpads
    {
      Reverses(pads[..], rpads[..], numPads)
    }

    constructor (prims: Primitives, chunks: seq<seq<byte>>, aesKeys: seq<seq<byte>>, count: nat)
      requires Sized(prims) && |chunks| > 0 && count > 0
      ensures Valid() && numPads == count
      ensures forall p :: 0 <= p < count ==>
        (p + 1) * MATRIX_BYTES <= pads.Length && Slot(pads[..], p) == PadOf(prims, aesKeys, chunks[p % |chunks|], p)
    {
      hide IsPermutation, IsReverse, Reverses, PadOf;
      var table := new byte[count * MATRIX_BYTES](_ => 0);
      var reverse := new byte[count * MATRIX_BYTES](_ => 0);
      for p := 0 to count
        invariant forall q :: 0 <= q < p ==> SlotDone(prims, chunks, aesKeys, table[..], reverse[..], q)
      {
        BuildPad(table, reverse, p, prims, chunks, aesKeys);
      }
      forall p | 0 <= p < count
        ensures (p + 1) * MATRIX_BYTES <= table.Length && IsReverse(Slot(table[..], p), Slot(reverse[..], p))
        ensures Slot(table[..], p) == PadOf(prims, aesKeys, chunks[p % |chunks|], p)
      {
        assert SlotDone(prims, chunks, aesKeys, table[..], reverse[..], p);
      }
      SlotsReverse(table[..], reverse[..], count);
      numPads := count;
      pads := table;
      rpads := reverse;
    }

    /** One byte after the other, in place. */
    method Encrypt(data: array<byte>, rand: Rand)
      requires Valid() && rand.Valid() && data != pads && data != rpads
      modifies data, rand, rand.xoshiro
      ensures rand.Valid() && rand.State() == Advance(old(rand.State()), data.Length)
      ensures data[..] == Encrypted(pads[..], numPads, old(rand.State()), old(data[..]))
    {
      hide KeyByte, PadNumber, Xor, NatOf, Output, Step, Reverses, StateOf, Encrypted, EncryptByte;
      ReversesSizes(pads[..], rpads[..], numPads);
      ghost var table, r0, before := pads[..], rand.State(), data[..];
      var r, count := rand.seed64, rand.count;
      for i := 0 to data.Length
        invariant count < 8 && RandState(StateOf(rand.xoshiro[..]), r, count) == Advance(r0, i)
        invariant data[..i] == Encrypted(table, numPads, r0, before[..i])
        invariant data[i..] == before[i..]
        invariant pads[..] == table
      {
        EncryptedNext(table, numPads, r0, before, i);
        assert data[i] == data[i..][0] == before[i];
        EncryptByteIs(table, numPads, RandState(StateOf(rand.xoshiro[..]), r, count), data[i]);
        var pad, key := PadNumber(r, numPads), KeyByte(r, count);
        data[i] := pads[pad * MATRIX_BYTES + NatOf(Xor(data[i], key))];
        assert data[..i + 1] == data[..i] + [data[i]];
        assert data[i + 1..] == before[i + 1..];
        count := count + 1;
        if count == 8 {
          r := Xoshiro256ss(rand.xoshiro);
          count := 0;
        }
      }
      assert data[..] == data[..data.Length] && before == before[..data.Length];
      rand.seed64 := r;
      rand.count := count;
    }

    method Decrypt(data: array<byte>, rand: Rand)
      requires Valid() && rand.Valid() && data != pads && data != rpads
      modifies data, rand, rand.xoshiro
      ensures rand.Valid() && rand.State() == Advance(old(rand.State()), data.Length)
      ensures data[..] == Decrypted(rpads[..], numPads, old(rand.State()), old(data[..]))
    {
      hide KeyByte, PadNumber, Xor, NatOf, Output, Step, Reverses, StateOf, Decrypted, DecryptByte;
      ReversesSizes(pads[..], rpads[..], numPads);
      ghost var table, r0, before := rpads[..], rand.State(), data[..];
      var r, count := rand.seed64, rand.count;
      for i := 0 to data.Length
        invariant count < 8 && RandState(StateOf(rand.xoshiro[..]), r, count) == Advance(r0, i)
        invariant data[..i] == Decrypted(table, numPads, r0, before[..i])
        invariant data[i..] == before[i..]
        invariant rpads[..] == table
      {
        DecryptedNext(table, numPads, r0, before, i);
        assert data[i] == data[i..][0] == before[i];
        DecryptByteIs(table, numPads, RandState(StateOf(rand.xoshiro[..]), r, count), data[i]);
        var pad, key := PadNumber(r, numPads), KeyByte(r, count);
        data[i] := Xor(rpads[pad * MATRIX_BYTES + NatOf(data[i])], key);
        assert data[..i + 1] == data[..i] + [data[i]];
        assert data[i + 1..] == before[i + 1..];
        count := count + 1;
        if count == 8 {
          r := Xoshiro256ss(rand.xoshiro);
          count := 0;
        }
      }
      assert data[..] == data[..data.Length] && before == before[..data.Length];
      rand.seed64 := r;
      rand.count := count;
    }
  }

  /** The pad of the given number is the one that the seed determines, and its reversal is beside it. */
  ghost predicate SlotDone(prims: Primitives, chunks: seq<seq<byte>>, aesKeys: seq<seq<byte>>, pads: seq<byte>,
                           rpads: seq<byte>, p: nat)
    requires Sized(prims) && |chunks| > 0
  {
    && (p + 1) * MATRIX_BYTES <= |pads| == |rpads|
    && Slot(pads, p) == PadOf(prims, aesKeys, chunks[p % |chunks|], p)
    && IsReverse(Slot(pads, p), Slot(rpads, p))
  }

  /** Fills, shuffles and reverses one pad. */
  method BuildPad(pads: array<byte>, rpads: array<byte>, p: nat, prims: Primitives, chunks: seq<seq<byte>>,
                  aesKeys: seq<seq<byte>>)
    requires pads != rpads && (p + 1) * MATRIX_BYTES <= pads.Length == rpads.Length && Sized(prims) && |chunks| > 0
    requires forall q :: 0 <= q < p ==> SlotDone(prims, chunks, aesKeys, pads[..], rpads[..], q)
    modifies pads, rpads
    ensures forall q :: 0 <= q < p + 1 ==> SlotDone(prims, chunks, aesKeys, pads[..], rpads[..], q)
  {
    hide IsPermutation, IsReverse, Shuffled, IdentityPad;
    ghost var before, rbefore := pads[..], rpads[..];
    FillPad(pads, p);
    var chunk := chunks[p % |chunks|];
    ShufflePad(pads, p, prims, chunk, aesKeys);
    assert SameOutside(before, pads[..], p);
    PadOfIsPermutation(prims, aesKeys, chunk, p);
    ReversePad(pads, rpads, p);
    forall q | 0 <= q < p
      ensures SlotDone(prims, chunks, aesKeys, pads[..], rpads[..], q)
    {
      assert SlotDone(prims, chunks, aesKeys, before, rbefore, q);
      assert Slot(pads[..], q) == Slot(before, q) && Slot(rpads[..], q) == Slot(rbefore, q);
    }
  }
}
