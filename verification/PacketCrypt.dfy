/** The packet encryption of crypto.cpp: a nonce and a checksum before the payload, under an in-place stream. */
module PacketCrypts {
  import opened Wrappers
  import opened Bytes
  import opened Numbers
  import Crc

  const NONCE_SIZE: nat := 16
  const CRYPT_HEADER_SIZE: nat := NONCE_SIZE + 4
  const SALSA_NONCE_SIZE: nat := 8

  const INITIAL_VECTOR: seq<byte> := [167, 115, 79, 156, 18, 172, 27, 1, 164, 21, 242, 193, 252, 120, 230, 107]

  lemma XorInjective(a: byte, b: byte, k: byte)
    requires Xor(a, k) == Xor(b, k)
    ensures a == b
  {
    XorTwice(a, k);
    XorTwice(b, k);
  }

  // ----- cipher feedback

  /** The forward direction of a block cipher; its inverse is never used. */
  datatype BlockCipher = BlockCipher(size: nat, process: seq<byte> -> seq<byte>)

  ghost predicate BlockOk(e: BlockCipher) {
    (e.size == 8 || e.size == 16) && forall x: seq<byte> :: |x| == e.size ==> |e.process(x)| == e.size
  }

  /** What the cipher is applied to for a block: the ciphertext block before it, or the initial vector. */
  function Feedback(e: BlockCipher, cipher: seq<byte>, block: nat): (input: seq<byte>)
    requires 0 < e.size <= |INITIAL_VECTOR| && block * e.size <= |cipher|
    ensures |input| == e.size
  {
    if block == 0 then INITIAL_VECTOR[..e.size]
    else
      assert (block - 1) * e.size == block * e.size - e.size;
      cipher[(block - 1) * e.size..block * e.size]
  }

  function KeyBlock(e: BlockCipher, cipher: seq<byte>, block: nat): (key: seq<byte>)
    requires BlockOk(e) && block * e.size <= |cipher|
    ensures |key| == e.size
  {
    e.process(Feedback(e, cipher, block))
  }

  lemma DivBounds(k: nat, size: nat)
    requires size > 0
    ensures k / size * size <= k && k % size < size && k == k / size * size + k % size
  {}

  /** The key byte for position k. */
  function KeyAt(e: BlockCipher, cipher: seq<byte>, k: nat): byte
    requires BlockOk(e) && k < |cipher|
  {
    DivBounds(k, e.size);
    KeyBlock(e, cipher, k / e.size)[k % e.size]
  }

  /** The plaintext of a ciphertext in cipher feedback mode, position by position. */
  function CfbPlain(e: BlockCipher, cipher: seq<byte>): (plain: seq<byte>)
    requires BlockOk(e)
    ensures |plain| == |cipher|
  {
    seq(|cipher|, k requires 0 <= k < |cipher| => Xor(cipher[k], KeyAt(e, cipher, k)))
  }

  /** Cipher feedback: a plaintext and its ciphertext differ by the cipher applied to the ciphertext block before, or to
      the initial vector. */
  lemma CfbFeedsBack(e: BlockCipher, cipher: seq<byte>, block: nat, k: nat)
    requires BlockOk(e) && k < |cipher| && InBlock(e.size, block, k)
    ensures var offset := block * e.size;
            var key := e.process(if block == 0 then INITIAL_VECTOR[..e.size] else cipher[offset - e.size..offset]);
            |key| == e.size && Xor(CfbPlain(e, cipher)[k], cipher[k]) == key[k - offset]
  {
    hide Xor;
    BlockOf(e.size, block, k);
    assert (block - 1) * e.size == block * e.size - e.size;
    SwapSides(cipher[k], KeyAt(e, cipher, k));
  }

  lemma SwapSides(a: byte, b: byte)
    ensures Xor(Xor(a, b), a) == b
  {}

  /** Position k lies in the given block. */
  predicate InBlock(size: nat, block: nat, k: nat) {
    block * size <= k < block * size + size
  }

  lemma BlockOf(size: nat, block: nat, k: nat)
    requires size > 0 && InBlock(size, block, k)
    ensures k / size == block && k % size == k - block * size
  {
    DivModIs(size, k, block, k - block * size);
  }

  /** A plaintext block depends on its own ciphertext block and the one before, on nothing else. */
  lemma CfbLocality(e: BlockCipher, a: seq<byte>, b: seq<byte>, block: nat, k: nat)
    requires BlockOk(e) && |a| == |b| && k < |a| && InBlock(e.size, block, k)
    requires forall i :: 0 <= i < |a| && (InBlock(e.size, block, i) || (block > 0 && InBlock(e.size, block - 1, i))) ==>
               a[i] == b[i]
    ensures CfbPlain(e, a)[k] == CfbPlain(e, b)[k]
  {
    hide Xor;
    BlockOf(e.size, block, k);
    if block > 0 {
      var lo, hi := (block - 1) * e.size, block * e.size;
      assert hi == lo + e.size;
      forall i | lo <= i < hi ensures a[i] == b[i] {
        assert InBlock(e.size, block - 1, i);
      }
      assert a[lo..hi] == b[lo..hi];
    }
    assert Feedback(e, a, block) == Feedback(e, b, block);
  }

  lemma SliceOfPrefix(a: seq<byte>, b: seq<byte>, n: nat, lo: nat, hi: nat)
    requires lo <= hi <= n <= |a| && n <= |b| && a[..n] == b[..n]
    ensures a[lo..hi] == b[lo..hi]
  {
    assert a[..n][lo..hi] == a[lo..hi];
    assert b[..n][lo..hi] == b[lo..hi];
  }

  /** The key of a block depends only on what comes before the block. */
  lemma KeyPrefix(e: BlockCipher, a: seq<byte>, b: seq<byte>, block: nat, n: nat)
    requires BlockOk(e) && block * e.size <= n <= |a| && n <= |b| && a[..n] == b[..n]
    ensures KeyBlock(e, a, block) == KeyBlock(e, b, block)
  {
    if block > 0 {
      var lo, hi := (block - 1) * e.size, block * e.size;
      assert lo == hi - e.size;
      SliceOfPrefix(a, b, n, lo, hi);
    }
  }

  lemma KeyAtPrefix(e: BlockCipher, a: seq<byte>, b: seq<byte>, k: nat, n: nat)
    requires BlockOk(e) && k < |a| && k < |b| && k / e.size * e.size <= n <= |a| && n <= |b| && a[..n] == b[..n]
    ensures KeyAt(e, a, k) == KeyAt(e, b, k)
  {
    hide KeyBlock;
    DivBounds(k, e.size);
    KeyPrefix(e, a, b, k / e.size, n);
  }

  lemma PlainAt(e: BlockCipher, cipher: seq<byte>, k: nat)
    requires BlockOk(e) && k < |cipher|
    ensures CfbPlain(e, cipher)[k] == Xor(cipher[k], KeyAt(e, cipher, k))
  {
    hide Xor, KeyAt;
  }

  /** Equal plaintexts come from equal ciphertexts: the encryption is determined by what it decrypts to. */
  lemma {:induction false} CfbInjective(e: BlockCipher, a: seq<byte>, b: seq<byte>, n: nat)
    requires BlockOk(e) && |a| == |b| && n <= |a| && CfbPlain(e, a) == CfbPlain(e, b)
    ensures a[..n] == b[..n]
    decreases n
  {
    hide Xor, KeyAt, CfbPlain, BlockOk;
    if n > 0 {
      var k := n - 1;
      CfbInjective(e, a, b, k);
      SizePositive(e);
      DivBounds(k, e.size);
      KeyAtPrefix(e, a, b, k, k);
      PlainAt(e, a, k);
      PlainAt(e, b, k);
      XorInjective(a[k], b[k], KeyAt(e, a, k));
      assert a[..n] == a[..k] + [a[k]] && b[..n] == b[..k] + [b[k]];
    }
  }

  lemma SizePositive(e: BlockCipher)
    requires BlockOk(e)
    ensures 0 < e.size <= |INITIAL_VECTOR|
  {}

  /** The first n positions of the two texts belong together. */
  ghost predicate Covers(e: BlockCipher, plain: seq<byte>, cipher: seq<byte>, n: nat)
    requires BlockOk(e)
  {
    && n <= |plain| == |cipher|
    && forall k :: 0 <= k < n ==> plain[k] == Xor(cipher[k], KeyAt(e, cipher, k))
  }

  lemma KeyInBlock(e: BlockCipher, cipher: seq<byte>, block: nat, k: nat)
    requires BlockOk(e) && InBlock(e.size, block, k) && k < |cipher|
    ensures KeyAt(e, cipher, k) == KeyBlock(e, cipher, block)[k - block * e.size]
  {
    BlockOf(e.size, block, k);
  }

  /** One more block, which may be the partial last one. */
  lemma CoversMore(e: BlockCipher, plain: seq<byte>, cipher: seq<byte>, plain': seq<byte>, cipher': seq<byte>,
                   block: nat, offset: nat, count: nat)
    requires BlockOk(e) && offset == block * e.size && count <= e.size
    requires Covers(e, plain, cipher, offset) && offset + count <= |plain'| == |cipher'| == |plain|
    requires plain'[..offset] == plain[..offset] && cipher'[..offset] == cipher[..offset]
    requires forall i :: 0 <= i < count ==> plain'[offset + i] == Xor(cipher'[offset + i], KeyBlock(e, cipher', block)[i])
    ensures Covers(e, plain', cipher', offset + count)
  {
    hide Xor, KeyBlock, BlockOk, KeyAt;
    SizePositive(e);
    forall k | 0 <= k < offset + count ensures plain'[k] == Xor(cipher'[k], KeyAt(e, cipher', k)) {
      if k < offset {
        DivBounds(k, e.size);
        KeyAtPrefix(e, cipher, cipher', k, offset);
        assert plain'[..offset][k] == plain[..offset][k] && cipher'[..offset][k] == cipher[..offset][k];
      } else {
        KeyInBlock(e, cipher', block, k);
        assert plain'[offset + (k - offset)] == plain'[k];
      }
    }
  }

  /** Adds a key to part of the array. */
  method XorInto(data: array<byte>, offset: nat, key: seq<byte>, count: nat)
    requires offset + count <= data.Length && count <= |key|
    modifies data
    ensures data[..offset] == old(data[..offset]) && data[offset + count..] == old(data[offset + count..])
    ensures forall i :: 0 <= i < count ==> data[offset + i] == Xor(old(data[offset + i]), key[i])
  {
    hide Xor;
    for i := 0 to count
      invariant forall k :: 0 <= k < data.Length && !(offset <= k < offset + i) ==> data[k] == old(data[k])
      invariant forall k :: 0 <= k < i ==> data[offset + k] == Xor(old(data[offset + k]), key[k])
    {
      data[offset + i] := Xor(data[offset + i], key[i]);
    }
  }

  /** The cipher text so far, given what was there before and what is there now. */
  function CipherSide(before: seq<byte>, now: seq<byte>, encrypting: bool): seq<byte> {
    if encrypting then now else before
  }

  function PlainSide(before: seq<byte>, now: seq<byte>, encrypting: bool): seq<byte> {
    if encrypting then before else now
  }

  /** One turn of the loop in place: the block is in its final form, what follows is untouched. */
  method CfbStep(e: BlockCipher, data: array<byte>, encrypting: bool, offset: nat, current: seq<byte>, count: nat,
                 ghost before: seq<byte>, ghost block: nat) returns (next: seq<byte>)
    requires BlockOk(e) && offset == block * e.size && count <= e.size && offset + count <= data.Length == |before|
    requires data[offset..] == before[offset..] && current == KeyBlock(e, CipherSide(before, data[..], encrypting), block)
    requires Covers(e, PlainSide(before, data[..], encrypting), CipherSide(before, data[..], encrypting), offset)
    modifies data
    ensures data[offset + count..] == before[offset + count..]
    ensures Covers(e, PlainSide(before, data[..], encrypting), CipherSide(before, data[..], encrypting), offset + count)
    ensures count == e.size ==> offset + count == (block + 1) * e.size
    ensures count == e.size ==> next == KeyBlock(e, CipherSide(before, data[..], encrypting), block + 1)
  {
    hide Xor, BlockOk, KeyBlock, Covers;
    ghost var was := data[..];
    next := current;
    if !encrypting && count == e.size {
      next := e.process(data[offset..offset + e.size]);
    }
    XorInto(data, offset, current, count);
    assert was[offset + count..] == was[offset..][count..] && before[offset + count..] == before[offset..][count..];
    BlockDone(e, before, was, data[..], current, encrypting, block, offset, count);
    if count == e.size {
      NextKey(e, before, was, data[..], encrypting, block, offset);
      if encrypting {
        next := e.process(data[offset..offset + e.size]);
      }
    }
  }

  /** The loop of the source, in place: encrypting leaves a ciphertext of what was there, decrypting the plaintext. */
  method BlockCfbCrypt(e: BlockCipher, data: array<byte>, encrypting: bool)
    requires BlockOk(e)
    modifies data
    ensures encrypting ==> CfbPlain(e, data[..]) == old(data[..])
    ensures !encrypting ==> data[..] == CfbPlain(e, old(data[..]))
  {
    hide Xor, BlockOk, KeyBlock, Covers;
    SizePositive(e);
    ghost var before, block, done := data[..], 0, 0;
    var current := e.process(INITIAL_VECTOR[..e.size]);
    FirstKey(e, before);
    var offset := 0;
    while offset < data.Length
      invariant done == offset == block * e.size <= data.Length
      invariant data[offset..] == before[offset..]
      invariant current == KeyBlock(e, CipherSide(before, data[..], encrypting), block)
      invariant Covers(e, PlainSide(before, data[..], encrypting), CipherSide(before, data[..], encrypting), offset)
      decreases data.Length - offset
    {
      var remaining := data.Length - offset;
      var count := if e.size < remaining then e.size else remaining;
      current := CfbStep(e, data, encrypting, offset, current, count, before, block);
      done := offset + count;
      if count != e.size {
        break;
      }
      block := block + 1;
      offset := offset + e.size;
    }
    WholeCovered(e, before, data[..], encrypting);
  }

  lemma FirstKey(e: BlockCipher, data: seq<byte>)
    requires BlockOk(e)
    ensures e.process(INITIAL_VECTOR[..e.size]) == KeyBlock(e, data, 0) && Covers(e, data, data, 0)
  {}

  lemma BlockDone(e: BlockCipher, before: seq<byte>, was: seq<byte>, now: seq<byte>, key: seq<byte>, encrypting: bool,
                  block: nat, offset: nat, count: nat)
    requires BlockOk(e) && offset == block * e.size && count <= e.size && |before| == |was| == |now|
    requires offset + count <= |now| && now[..offset] == was[..offset] && was[offset..] == before[offset..]
    requires key == KeyBlock(e, CipherSide(before, was, encrypting), block)
    requires Covers(e, PlainSide(before, was, encrypting), CipherSide(before, was, encrypting), offset)
    requires forall i :: 0 <= i < count ==> now[offset + i] == Xor(was[offset + i], key[i])
    ensures Covers(e, PlainSide(before, now, encrypting), CipherSide(before, now, encrypting), offset + count)
  {
    hide Xor, KeyBlock, BlockOk;
    var cipher, cipher' := CipherSide(before, was, encrypting), CipherSide(before, now, encrypting);
    var plain, plain' := PlainSide(before, was, encrypting), PlainSide(before, now, encrypting);
    KeyPrefix(e, cipher, cipher', block, offset);
    forall i | 0 <= i < count ensures plain'[offset + i] == Xor(cipher'[offset + i], key[i]) {
      assert was[offset..][i] == before[offset..][i];
      XorTwice(was[offset + i], key[i]);
    }
    CoversMore(e, plain, cipher, plain', cipher', block, offset, count);
  }

  /** The key of the next block, from the block just finished. */
  lemma NextKey(e: BlockCipher, before: seq<byte>, was: seq<byte>, now: seq<byte>, encrypting: bool, block: nat,
                offset: nat)
    requires BlockOk(e) && offset == block * e.size && |before| == |was| == |now| && offset + e.size <= |now|
    requires was[offset..] == before[offset..]
    ensures (block + 1) * e.size == offset + e.size
    ensures e.process(if encrypting then now[offset..offset + e.size] else was[offset..offset + e.size])
         == KeyBlock(e, CipherSide(before, now, encrypting), block + 1)
  {
    assert (block + 1) * e.size == offset + e.size;
    assert was[offset..offset + e.size] == was[offset..][..e.size] == before[offset..offset + e.size];
  }

  lemma WholeCovered(e: BlockCipher, before: seq<byte>, now: seq<byte>, encrypting: bool)
    requires BlockOk(e) && |before| == |now|
    requires Covers(e, PlainSide(before, now, encrypting), CipherSide(before, now, encrypting), |now|)
    ensures CfbPlain(e, CipherSide(before, now, encrypting)) == PlainSide(before, now, encrypting)
  {
    hide Xor, KeyBlock, BlockOk;
  }

  // ----- the other streams

  function Added(data: seq<byte>, key: seq<byte>): (r: seq<byte>)
    ensures |r| == |data|
  {
    seq(|data|, k requires 0 <= k < |data| => if k < |key| then Xor(data[k], key[k]) else data[k])
  }

  lemma AddedTwice(data: seq<byte>, key: seq<byte>)
    ensures Added(Added(data, key), key) == data
  {
    hide Xor;
    forall k | 0 <= k < |data| ensures Added(Added(data, key), key)[k] == data[k] {
      if k < |key| {
        XorTwice(data[k], key[k]);
      }
    }
  }

  /** xor_crypt: as far as the table goes. */
  method XorCrypt(table: seq<byte>, data: array<byte>)
    modifies data
    ensures data[..] == Added(old(data[..]), table)
    ensures forall k :: 0 <= k < data.Length && k < |table| ==> data[k] == Xor(old(data[k]), table[k])
    ensures forall k :: |table| <= k < data.Length ==> data[k] == old(data[k])
  {
    hide Xor;
    var count := if data.Length < |table| then data.Length else |table|;
    ghost var before := data[..];
    XorInto(data, 0, table, count);
    forall k | 0 <= k < data.Length ensures data[k] == Added(before, table)[k] {
      if k < count {
        assert data[0 + k] == Xor(before[0 + k], table[k]);
      } else {
        assert data[count..][k - count] == before[count..][k - count];
      }
    }
  }

  /** The keystream of Salsa20 for a nonce, as long as needed; its inside is not part of this model. */
  datatype StreamKey = StreamKey(stream: (seq<byte>, nat) -> seq<byte>)

  ghost predicate StreamOk(s: StreamKey) {
    forall nonce: seq<byte>, n: nat :: |s.stream(nonce, n)| == n
  }

  function Salsa(s: StreamKey, data: seq<byte>): (r: seq<byte>)
    ensures |r| == |data|
  {
    if |data| <= SALSA_NONCE_SIZE then data
    else
      data[..SALSA_NONCE_SIZE] +
      Added(data[SALSA_NONCE_SIZE..], s.stream(data[..SALSA_NONCE_SIZE], |data| - SALSA_NONCE_SIZE))
  }

  lemma SalsaTwice(s: StreamKey, data: seq<byte>)
    ensures Salsa(s, Salsa(s, data)) == data
  {
    hide Added;
    if |data| > SALSA_NONCE_SIZE {
      var nonce, rest := data[..SALSA_NONCE_SIZE], data[SALSA_NONCE_SIZE..];
      AddedTwice(rest, s.stream(nonce, |rest|));
      var once := Salsa(s, data);
      assert once[..SALSA_NONCE_SIZE] == nonce && once[SALSA_NONCE_SIZE..] == Added(rest, s.stream(nonce, |rest|));
      assert nonce + rest == data;
    }
  }

  /** salsa20_crypt: the first bytes are the nonce and stay as they are. */
  method Salsa20Crypt(s: StreamKey, data: array<byte>)
    requires StreamOk(s)
    modifies data
    ensures data[..] == Salsa(s, old(data[..]))
    ensures forall k :: 0 <= k < data.Length && k < SALSA_NONCE_SIZE ==> data[k] == old(data[k])
    ensures data.Length > SALSA_NONCE_SIZE ==>
      var key := s.stream(old(data[..SALSA_NONCE_SIZE]), data.Length - SALSA_NONCE_SIZE);
      forall i :: 0 <= i < |key| ==>
        data[SALSA_NONCE_SIZE + i] == Xor(old(data[SALSA_NONCE_SIZE + i]), key[i])
  {
    hide Xor;
    if data.Length <= SALSA_NONCE_SIZE {
      return;
    }
    var count := data.Length - SALSA_NONCE_SIZE;
    var key := s.stream(data[..SALSA_NONCE_SIZE], count);
    XorInto(data, SALSA_NONCE_SIZE, key, count);
    assert data[SALSA_NONCE_SIZE..] == Added(old(data[SALSA_NONCE_SIZE..]), key);
    assert data[..] == data[..SALSA_NONCE_SIZE] + data[SALSA_NONCE_SIZE..];
  }

  // ----- packets

  datatype Crypt =
    | Null
    | Plain
    | Block(cipher: BlockCipher)
    | Salsa20(key: StreamKey)
    | XorStream(table: seq<byte>)

  ghost predicate CryptOk(m: Crypt) {
    (m.Block? ==> BlockOk(m.cipher)) && (m.Salsa20? ==> StreamOk(m.key))
  }

  /** What a packet decrypts to, before its header is looked at. */
  function Descrambled(m: Crypt, packet: seq<byte>): (r: seq<byte>)
    requires CryptOk(m)
    ensures |r| == |packet|
  {
    match m
    case Null => packet
    case Plain => packet
    case Block(e) => CfbPlain(e, packet)
    case Salsa20(s) => Salsa(s, packet)
    case XorStream(table) => Added(packet, table)
  }

  /** No two packets decrypt to the same bytes, so Descrambled determines what encryption gives. */
  lemma DescrambledInjective(m: Crypt, a: seq<byte>, b: seq<byte>)
    requires CryptOk(m) && Descrambled(m, a) == Descrambled(m, b)
    ensures a == b
  {
    hide CfbPlain, Salsa, Added, BlockOk;
    assert |a| == |Descrambled(m, a)| == |b|;
    match m
    case Null =>
    case Plain =>
    case Block(e) =>
      CfbInjective(e, a, b, |a|);
      assert a[..|a|] == a && b[..|b|] == b;
    case Salsa20(s) =>
      SalsaTwice(s, a);
      SalsaTwice(s, b);
    case XorStream(table) =>
      AddedTwice(a, table);
      AddedTwice(b, table);
  }

  function Crc32(data: seq<byte>): u32 {
    Crc.WordAsU32(Crc.Checksum(Crc.IEEE, data))
  }

  /** Nonce, checksum, payload. */
  function Sealed(nonce: seq<byte>, payload: seq<byte>): (body: seq<byte>)
    requires |nonce| == NONCE_SIZE
    ensures |body| == CRYPT_HEADER_SIZE + |payload|
  {
    nonce + Le32(Crc32(payload)) + payload
  }

  /** The payload of a decrypted body whose checksum is right. */
  function Opened(body: seq<byte>): Option<seq<byte>>
    requires |body| >= CRYPT_HEADER_SIZE
  {
    if Crc32(body[CRYPT_HEADER_SIZE..]) != FromLe32(body[NONCE_SIZE..]) then None else Some(body[CRYPT_HEADER_SIZE..])
  }

  lemma OpenedField(nonce: seq<byte>, crc: u32, payload: seq<byte>)
    requires |nonce| == NONCE_SIZE
    ensures Opened(nonce + Le32(crc) + payload) == if Crc32(payload) == crc then Some(payload) else None
  {
    hide FromLe32, Le32, Crc32;
    var body := nonce + Le32(crc) + payload;
    assert body[CRYPT_HEADER_SIZE..] == payload;
    assert body[NONCE_SIZE..] == Le32(crc) + payload;
    Le32RoundTrip(crc, payload);
  }

  /** The two byte strings differ at most in the window of four bytes from the given position. */
  ghost predicate SameOutside(a: seq<byte>, b: seq<byte>, from: nat) {
    |a| == |b| && forall k :: 0 <= k < |a| && !(from <= k < from + 4) ==> a[k] == b[k]
  }

  lemma ChecksumDiffers(a: seq<byte>, b: seq<byte>, from: nat)
    requires SameOutside(a, b, from) && a != b
    ensures Crc32(a) != Crc32(b)
  {
    hide Crc.Checksum, Crc.WordAsU32;
    var hi := if from + 4 <= |a| then from + 4 else |a|;
    var lo := if from <= hi then from else hi;
    assert a == a[..lo] + a[lo..hi] + a[hi..];
    assert b == a[..lo] + b[lo..hi] + a[hi..];
    Crc.BothPolynomials();
    Crc.BurstDetected(Crc.IEEE, a[..lo], a[lo..hi], b[lo..hi], a[hi..]);
    if Crc.WordAsU32(Crc.Checksum(Crc.IEEE, a)) == Crc.WordAsU32(Crc.Checksum(Crc.IEEE, b)) {
      Crc.WordAsU32Injective(Crc.Checksum(Crc.IEEE, a), Crc.Checksum(Crc.IEEE, b));
    }
  }

  /** The methods that treat the bytes behind the header one by one. */
  predicate Bytewise(m: Crypt) {
    m.Plain? || m.XorStream? || m.Salsa20?
  }

  lemma DamageStays(m: Crypt, packet: seq<byte>, damaged: seq<byte>, from: nat)
    requires CryptOk(m) && Bytewise(m) && from >= CRYPT_HEADER_SIZE && SameOutside(packet, damaged, from)
    ensures SameOutside(Descrambled(m, packet), Descrambled(m, damaged), from)
  {
    hide Xor;
    if m.Salsa20? && |packet| > SALSA_NONCE_SIZE {
      assert packet[..SALSA_NONCE_SIZE] == damaged[..SALSA_NONCE_SIZE];
    }
  }

  /** Without feedback, and so for "none", a packet whose payload was changed inside four consecutive bytes is
      not accepted. */
  lemma DamageRejected(m: Crypt, packet: seq<byte>, damaged: seq<byte>, from: nat)
    requires CryptOk(m) && Bytewise(m) && |packet| >= CRYPT_HEADER_SIZE && Opened(Descrambled(m, packet)).Some?
    requires from >= CRYPT_HEADER_SIZE && SameOutside(packet, damaged, from) && packet != damaged
    ensures Opened(Descrambled(m, damaged)) == None
  {
    hide FromLe32, Crc32, Descrambled;
    DamageStays(m, packet, damaged, from);
    var a, b := Descrambled(m, packet), Descrambled(m, damaged);
    if a == b {
      DescrambledInjective(m, packet, damaged);
    }
    assert a[..CRYPT_HEADER_SIZE] == b[..CRYPT_HEADER_SIZE];
    var p, q := a[CRYPT_HEADER_SIZE..], b[CRYPT_HEADER_SIZE..];
    assert a == a[..CRYPT_HEADER_SIZE] + p && b == b[..CRYPT_HEADER_SIZE] + q;
    ChecksumDiffers(p, q, from - CRYPT_HEADER_SIZE);
    SameField(a, b);
  }

  lemma SameField(a: seq<byte>, b: seq<byte>)
    requires |a| >= CRYPT_HEADER_SIZE && |b| >= CRYPT_HEADER_SIZE && a[..CRYPT_HEADER_SIZE] == b[..CRYPT_HEADER_SIZE]
    ensures FromLe32(a[NONCE_SIZE..]) == FromLe32(b[NONCE_SIZE..])
  {
    hide NatOf;
    forall k | 0 <= k < 4 ensures a[NONCE_SIZE..][k] == b[NONCE_SIZE..][k] {
      assert a[..CRYPT_HEADER_SIZE][NONCE_SIZE + k] == b[..CRYPT_HEADER_SIZE][NONCE_SIZE + k];
    }
  }

  class PacketCrypt {
    const how: Crypt

    ghost predicate Valid() {
      CryptOk(how)
    }

    constructor (how: Crypt)
      ensures this.how == how
    {
      this.how := how;
    }

    /** The packet as it goes out, for a nonce drawn at random. */
    method Encrypt(nonce: seq<byte>, packet: seq<byte>) returns (output: seq<byte>)
      requires Valid() && |nonce| == NONCE_SIZE
      ensures Descrambled(how, output) == if how.Null? then packet else Sealed(nonce, packet)
    {
      hide Xor, Le32, Crc32, CfbPlain, Salsa, Added, BlockOk, StreamOk;
      if how.Null? {
        return packet;
      }
      var crc := Crc.TableChecksum(Crc.IEEE, packet);
      ChecksumIs(packet);
      var body := nonce + Le32(Crc.WordAsU32(crc)) + packet;
      var bytes := ArrayOf(body);
      match how {
        case Null =>
        case Plain =>
        case Block(e) => BlockCfbCrypt(e, bytes, true);
        case Salsa20(s) =>
          Salsa20Crypt(s, bytes);
          SalsaTwice(s, body);
        case XorStream(table) =>
          XorCrypt(table, bytes);
          AddedTwice(body, table);
      }
      output := bytes[..];
    }

    /** The payload, or nothing when the packet is too short or its checksum is wrong. */
    method Decrypt(packet: seq<byte>) returns (result: Option<seq<byte>>)
      requires Valid()
      ensures how.Null? ==> result == Some(packet)
      ensures !how.Null? && |packet| < CRYPT_HEADER_SIZE ==> result == None
      ensures !how.Null? && |packet| >= CRYPT_HEADER_SIZE ==> result == Opened(Descrambled(how, packet))
    {
      hide Xor, FromLe32, Crc32, CfbPlain, Salsa, Added, BlockOk, StreamOk;
      if how.Null? {
        return Some(packet);
      }
      if |packet| < CRYPT_HEADER_SIZE {
        return None;
      }
      var bytes := ArrayOf(packet);
      match how {
        case Null =>
        case Plain =>
        case Block(e) => BlockCfbCrypt(e, bytes, false);
        case Salsa20(s) => Salsa20Crypt(s, bytes);
        case XorStream(table) => XorCrypt(table, bytes);
      }
      var payload := bytes[CRYPT_HEADER_SIZE..];
      var crc := Crc.TableChecksum(Crc.IEEE, payload);
      ChecksumIs(payload);
      assert payload == bytes[..][CRYPT_HEADER_SIZE..];
      if Crc.WordAsU32(crc) != FromLe32(bytes[NONCE_SIZE..]) {
        return None;
      }
      return Some(payload);
    }
  }

  lemma ChecksumIs(data: seq<byte>)
    ensures Crc.WordAsU32(Crc.Checksum(Crc.IEEE, data)) == Crc32(data)
  {}

  method ArrayOf(data: seq<byte>) returns (a: array<byte>)
    ensures fresh(a) && a[..] == data
  {
    a := new byte[|data|](i requires 0 <= i < |data| => data[i]);
  }

  /** For every method, nonce and payload of any length: decrypting what was encrypted gives the payload back. */
  method RoundTrip(sender: PacketCrypt, receiver: PacketCrypt, nonce: seq<byte>, packet: seq<byte>)
    returns (wire: seq<byte>, result: Option<seq<byte>>)
    requires sender.Valid() && receiver.how == sender.how && |nonce| == NONCE_SIZE
    ensures |wire| == if sender.how.Null? then |packet| else CRYPT_HEADER_SIZE + |packet|
    ensures result == Some(packet)
  {
    hide Descrambled, Opened, Le32, Crc32;
    wire := sender.Encrypt(nonce, packet);
    assert |wire| == |Descrambled(sender.how, wire)|;
    OpenedField(nonce, Crc32(packet), packet);
    result := receiver.Decrypt(wire);
    NullPasses(wire);
  }

  lemma NullPasses(packet: seq<byte>)
    ensures Descrambled(Null, packet) == packet
  {}
}
