/** The reflected 32-bit checksums: the IEEE one of crypto.cpp and the Castagnoli one of snappy_stream.cpp. */
module Crc {
  import opened Bytes

  type word = bv32

  const IEEE: word := 0xedb88320
  const CASTAGNOLI: word := 0x82f63b78

  function Xor(a: word, b: word): word {
    a ^ b
  }

  function WordOf(b: byte): word {
    b as word
  }

  function Shr(a: word): word {
    a >> 1
  }

  /** p when the lowest bit of a is set, zero otherwise. */
  function Pick(a: word, p: word): word {
    if a & 1 != 0 then p else 0
  }

  // ----- the definition, one bit at a time

  function BitStep(poly: word, crc: word): word {
    Xor(Shr(crc), Pick(crc, poly))
  }

  function BitSteps(poly: word, crc: word, n: nat): word
    decreases n
  {
    if n == 0 then crc else BitSteps(poly, BitStep(poly, crc), n - 1)
  }

  function ByteStep(poly: word, crc: word, b: byte): word {
    BitSteps(poly, Xor(crc, WordOf(b)), 8)
  }

  /** The register after the bytes have been shifted in. */
  function Register(poly: word, crc: word, data: seq<byte>): word {
    if data == [] then crc else ByteStep(poly, Register(poly, crc, data[..|data| - 1]), data[|data| - 1])
  }

  function Checksum(poly: word, data: seq<byte>): word {
    Xor(Register(poly, 0xffff_ffff, data), 0xffff_ffff)
  }

  // ----- linearity

  lemma XorComm(a: word, b: word)
    ensures Xor(a, b) == Xor(b, a)
  {}

  lemma XorAssoc(a: word, b: word, c: word)
    ensures Xor(Xor(a, b), c) == Xor(a, Xor(b, c))
  {}

  lemma XorZero(a: word)
    ensures Xor(a, 0) == a == Xor(0, a)
  {}

  lemma XorSelf(a: word)
    ensures Xor(a, a) == 0
  {}

  lemma XorCancel(a: word, b: word, c: word)
    requires Xor(a, c) == Xor(b, c)
    ensures a == b
  {
    hide Xor;
    XorAssoc(a, c, c);
    XorAssoc(b, c, c);
    XorSelf(c);
    XorZero(a);
    XorZero(b);
  }

  lemma Xor4(a: word, b: word, c: word, d: word)
    ensures Xor(Xor(a, b), Xor(c, d)) == Xor(Xor(a, c), Xor(b, d))
  {
    hide *;
    XorAssoc(a, b, Xor(c, d));
    XorAssoc(b, c, d);
    XorComm(b, c);
    XorAssoc(c, b, d);
    XorAssoc(a, c, Xor(b, d));
  }

  lemma ShrXor(a: word, b: word)
    ensures Shr(Xor(a, b)) == Xor(Shr(a), Shr(b))
  {}

  lemma PickXor(a: word, b: word, p: word)
    ensures Pick(Xor(a, b), p) == Xor(Pick(a, p), Pick(b, p))
  {
    if a & 1 != 0 {
      if b & 1 != 0 {} else {}
    } else {
      if b & 1 != 0 {} else {}
    }
  }

  lemma BitStepXor(poly: word, a: word, b: word)
    ensures BitStep(poly, Xor(a, b)) == Xor(BitStep(poly, a), BitStep(poly, b))
  {
    hide Xor, Shr, Pick;
    ShrXor(a, b);
    PickXor(a, b, poly);
    Xor4(Shr(a), Shr(b), Pick(a, poly), Pick(b, poly));
  }

  lemma {:induction false} BitStepsXor(poly: word, a: word, b: word, n: nat)
    ensures BitSteps(poly, Xor(a, b), n) == Xor(BitSteps(poly, a, n), BitSteps(poly, b, n))
    decreases n
  {
    hide Xor, BitStep;
    if n > 0 {
      BitStepXor(poly, a, b);
      BitStepsXor(poly, BitStep(poly, a), BitStep(poly, b), n - 1);
    }
  }

  // ----- a register can be run backwards

  lemma TopBit(poly: word, a: word)
    requires poly & 0x8000_0000 != 0
    ensures Xor(Shr(a), Pick(a, poly)) & 0x8000_0000 == 0 <==> a & 1 == 0
  {
    if a & 1 != 0 {} else {}
  }

  lemma ShrInjective(a: word, b: word)
    requires Shr(a) == Shr(b) && a & 1 == b & 1
    ensures a == b
  {}

  lemma SameLowBit(a: word, b: word, p: word)
    requires a & 1 == 0 <==> b & 1 == 0
    ensures a & 1 == b & 1 && Pick(a, p) == Pick(b, p)
  {}

  lemma BitStepInjective(poly: word, a: word, b: word)
    requires poly & 0x8000_0000 != 0 && BitStep(poly, a) == BitStep(poly, b)
    ensures a == b
  {
    hide Xor, Shr, Pick;
    TopBit(poly, a);
    TopBit(poly, b);
    SameLowBit(a, b, poly);
    XorCancel(Shr(a), Shr(b), Pick(a, poly));
    ShrInjective(a, b);
  }

  lemma {:induction false} BitStepsInjective(poly: word, a: word, b: word, n: nat)
    requires poly & 0x8000_0000 != 0 && BitSteps(poly, a, n) == BitSteps(poly, b, n)
    ensures a == b
    decreases n
  {
    hide BitStep;
    if n > 0 {
      BitStepsInjective(poly, BitStep(poly, a), BitStep(poly, b), n - 1);
      BitStepInjective(poly, a, b);
    }
  }

  // ----- one table look-up is eight bit steps

  function High(x: word): word {
    x & 0xffff_ff00
  }

  function Low(x: word): word {
    x & 0xff
  }

  function Shr8(x: word): word {
    x >> 8
  }

  lemma HighLow(x: word)
    ensures Xor(Low(x), High(x)) == x
  {}

  predicate Even(x: word) {
    x & 1 == 0
  }

  lemma EvenStep(poly: word, x: word)
    requires Even(x)
    ensures BitStep(poly, x) == Shr(x)
  {
    hide Xor, Shr;
    XorZero(Shr(x));
  }

  /** The eight shifts that empty a zero low byte out of the register. */
  lemma HighChain(x: word) returns (y: seq<word>)
    ensures |y| == 9 && y[0] == High(x) && y[8] == Shr8(x)
    ensures forall k :: 0 <= k < 8 ==> Even(y[k]) && y[k + 1] == Shr(y[k])
  {
    var h := High(x);
    y := [h, h >> 1, h >> 2, h >> 3, h >> 4, h >> 5, h >> 6, h >> 7, h >> 8];
    HighBits(h, x);
    ShiftChain(h);
    hide High, Shr, Shr8, Even;
  }

  lemma HighBits(y: word, x: word)
    requires y == High(x)
    ensures Even(y) && Even(y >> 1) && Even(y >> 2) && Even(y >> 3)
    ensures Even(y >> 4) && Even(y >> 5) && Even(y >> 6) && Even(y >> 7)
    ensures y >> 8 == Shr8(x)
  {}

  lemma ShiftChain(y: word)
    ensures Shr(y) == y >> 1 && Shr(y >> 1) == y >> 2 && Shr(y >> 2) == y >> 3 && Shr(y >> 3) == y >> 4
    ensures Shr(y >> 4) == y >> 5 && Shr(y >> 5) == y >> 6 && Shr(y >> 6) == y >> 7 && Shr(y >> 7) == y >> 8
  {}

  lemma {:induction false} ChainSteps(poly: word, y: seq<word>, n: nat)
    requires n <= 8 && |y| == 9 && forall k :: 0 <= k < 8 ==> Even(y[k]) && y[k + 1] == Shr(y[k])
    ensures BitSteps(poly, y[8 - n], n) == y[8]
    decreases n
  {
    hide Shr, Even, BitStep;
    if n > 0 {
      EvenStep(poly, y[8 - n]);
      ChainSteps(poly, y, n - 1);
    }
  }

  /** A register whose low byte is zero is only shifted. */
  lemma HighSteps(poly: word, x: word)
    ensures BitSteps(poly, High(x), 8) == Shr8(x)
  {
    hide *;
    var y := HighChain(x);
    ChainSteps(poly, y, 8);
  }

  /** The table entry of the low byte, exclusive-ored with the rest, is eight bit steps. */
  lemma TableStep(poly: word, x: word)
    ensures BitSteps(poly, x, 8) == Xor(BitSteps(poly, Low(x), 8), Shr8(x))
  {
    hide *;
    HighLow(x);
    BitStepsXor(poly, Low(x), High(x), 8);
    HighSteps(poly, x);
  }

  // ----- the table-driven loop

  function TableIndex(x: word): nat {
    Low(x) as nat
  }

  lemma TableIndexBound(x: word)
    ensures TableIndex(x) < 256
  {
    assert Low(x) < 256;
    LowAsNat(Low(x));
  }

  lemma LowAsNat(x: word)
    requires x < 256
    ensures x as nat < 256
  {}

  lemma IndexAsWord(x: word)
    ensures TableIndex(x) as word == Low(x)
  {
    hide Low;
    NatRoundTrip(Low(x));
  }

  lemma NatRoundTrip(w: word)
    ensures (w as nat) as word == w
  {}

  method MakeTable(poly: word) returns (table: seq<word>)
    ensures |table| == 256
    ensures forall i :: 0 <= i < 256 ==> table[i] == BitSteps(poly, i as word, 8)
  {
    hide BitStep, Xor, Shr, Pick;
    table := [];
    for i := 0 to 256
      invariant |table| == i
      invariant forall k :: 0 <= k < i ==> table[k] == BitSteps(poly, k as word, 8)
    {
      var crc := i as word;
      for bit := 0 to 8
        invariant BitSteps(poly, crc, 8 - bit) == BitSteps(poly, i as word, 8)
      {
        SourceBitStep(poly, crc);
        crc := if crc & 1 != 0 then poly ^ (crc >> 1) else crc >> 1;
      }
      table := table + [crc];
    }
  }

  lemma SourceBitStep(poly: word, crc: word)
    ensures BitStep(poly, crc) == if crc & 1 != 0 then poly ^ (crc >> 1) else crc >> 1
  {
    if crc & 1 != 0 {} else {}
  }

  /** The loop of crc32_ieee and crc32c over a table of 256 entries. */
  method TableChecksum(poly: word, data: seq<byte>) returns (result: word)
    ensures result == Checksum(poly, data)
  {
    hide BitSteps, Xor, Low, Shr8, WordOf, TableIndex;
    var table := MakeTable(poly);
    var crc: word := 0xffff_ffff;
    for i := 0 to |data|
      invariant crc == Register(poly, 0xffff_ffff, data[..i])
    {
      assert data[..i + 1][..i] == data[..i];
      var x := XorByte(crc, data[i]);
      TableIndexBound(x);
      IndexAsWord(x);
      TableStep(poly, x);
      HighOfXor(crc, data[i]);
      crc := TableXor(table[TableIndex(x)], Shr8(crc));
    }
    assert data[..|data|] == data;
    result := TableXor(crc, 0xffff_ffff);
  }

  function XorByte(crc: word, b: byte): (x: word)
    ensures x == Xor(crc, WordOf(b))
  {
    crc ^ (b as word)
  }

  function TableXor(a: word, b: word): (x: word)
    ensures x == Xor(a, b)
  {
    a ^ b
  }

  lemma HighOfXor(crc: word, b: byte)
    ensures Shr8(Xor(crc, WordOf(b))) == Shr8(crc)
  {}

  // ----- bursts of up to four bytes are always detected

  function Up8(x: word): word {
    x << 8
  }

  function ByteSteps(poly: word, x: word, k: nat): word
    decreases k
  {
    if k == 0 then x else ByteSteps(poly, BitSteps(poly, x, 8), k - 1)
  }

  /** Everything above the lowest k bytes. */
  function HighMask(k: nat): word {
    match k
    case 0 => 0xffff_ffff
    case 1 => 0xffff_ff00
    case 2 => 0xffff_0000
    case 3 => 0xff00_0000
    case _ => 0
  }

  predicate Fits(x: word, k: nat) {
    x & HighMask(k) == 0
  }

  lemma FitsStep(b: byte, z: word, k: nat)
    requires k < 4 && Fits(z, k)
    ensures Fits(z, 3)
    ensures Fits(Xor(WordOf(b), Up8(z)), k + 1)
  {
    hide Xor, WordOf, Up8, Fits;
    match k
    case 0 => StepFits0(b, z);
    case 1 => StepFits1(b, z);
    case 2 => StepFits2(b, z);
    case 3 => StepFits3(b, z);
  }

  lemma StepFits0(b: byte, z: word)
    requires Fits(z, 0)
    ensures Fits(z, 3) && Fits(Xor(WordOf(b), Up8(z)), 1)
  {}

  lemma StepFits1(b: byte, z: word)
    requires Fits(z, 1)
    ensures Fits(z, 3) && Fits(Xor(WordOf(b), Up8(z)), 2)
  {}

  lemma StepFits2(b: byte, z: word)
    requires Fits(z, 2)
    ensures Fits(z, 3) && Fits(Xor(WordOf(b), Up8(z)), 3)
  {}

  lemma StepFits3(b: byte, z: word)
    requires Fits(z, 3)
    ensures Fits(z, 3) && Fits(Xor(WordOf(b), Up8(z)), 4)
  {}

  lemma WordSplit(b: byte, z: word, b': byte, z': word)
    requires Fits(z, 3) && Fits(z', 3)
    requires Xor(WordOf(b), Up8(z)) == Xor(WordOf(b'), Up8(z'))
    ensures b == b' && z == z'
  {}

  lemma Up8Down(z: word)
    requires Fits(z, 3)
    ensures Low(Up8(z)) == 0 && Shr8(Up8(z)) == z
  {
    hide *;
    FitsThree(z);
    LowOfUp8(z);
    TopByteZero(z);
  }

  lemma FitsThree(z: word)
    requires Fits(z, 3)
    ensures z & 0xff00_0000 == 0
  {}

  lemma LowOfUp8(z: word)
    ensures Low(Up8(z)) == 0
  {}

  lemma TopByteZero(z: word)
    requires z & 0xff00_0000 == 0
    ensures Shr8(Up8(z)) == z
  {}

  lemma BitStepsZero(poly: word, n: nat)
    ensures BitSteps(poly, 0, n) == 0
  {
    hide *;
    XorSelf(0);
    BitStepsXor(poly, 0, 0, n);
    XorSelf(BitSteps(poly, 0, n));
  }

  /** A later byte can be moved in front of the eight steps before it. */
  lemma MoveIn(poly: word, x: word, z: word)
    requires Fits(z, 3)
    ensures Xor(BitSteps(poly, x, 8), z) == BitSteps(poly, Xor(x, Up8(z)), 8)
  {
    Up8Down(z);
    hide *;
    BitStepsXor(poly, x, Up8(z), 8);
    TableStep(poly, Up8(z));
    BitStepsZero(poly, 8);
    XorZero(z);
  }

  function Pack(u: seq<byte>): word {
    if u == [] then 0 else Xor(WordOf(u[0]), Up8(Pack(u[1..])))
  }

  lemma {:induction false} PackFits(u: seq<byte>)
    requires |u| <= 4
    ensures Fits(Pack(u), |u|)
    decreases |u|
  {
    hide Xor, WordOf, Up8;
    if u != [] {
      PackFits(u[1..]);
      hide Fits;
      FitsStep(u[0], Pack(u[1..]), |u| - 1);
    }
  }

  lemma {:induction false} PackInjective(u: seq<byte>, v: seq<byte>)
    requires |u| == |v| <= 4 && Pack(u) == Pack(v)
    ensures u == v
    decreases |u|
  {
    hide Xor, WordOf, Up8, Fits;
    if u != [] {
      PackFits(u[1..]);
      PackFits(v[1..]);
      FitsStep(u[0], Pack(u[1..]), |u| - 1);
      FitsStep(v[0], Pack(v[1..]), |v| - 1);
      WordSplit(u[0], Pack(u[1..]), v[0], Pack(v[1..]));
      PackInjective(u[1..], v[1..]);
      assert u == [u[0]] + u[1..] && v == [v[0]] + v[1..];
    }
  }

  lemma {:induction false} RegisterConcat(poly: word, crc: word, a: seq<byte>, b: seq<byte>)
    ensures Register(poly, crc, a + b) == Register(poly, Register(poly, crc, a), b)
    decreases |b|
  {
    hide ByteStep;
    if b == [] {
      assert a + b == a;
    } else {
      var k := |b| - 1;
      assert (a + b)[..|a + b| - 1] == a + b[..k];
      RegisterConcat(poly, crc, a, b[..k]);
    }
  }

  /** Up to four bytes act on the register as one word. */
  lemma {:induction false} RegisterPacked(poly: word, crc: word, u: seq<byte>)
    requires |u| <= 4
    ensures Register(poly, crc, u) == ByteSteps(poly, Xor(crc, Pack(u)), |u|)
    decreases |u|
  {
    hide Xor, WordOf, Up8, Fits, BitSteps;
    if u == [] {
      XorZero(crc);
    } else {
      var b, rest := u[0], u[1..];
      var x := Xor(crc, WordOf(b));
      assert [b] + rest == u && [b][..0] == [];
      RegisterConcat(poly, crc, [b], rest);
      RegisterPacked(poly, BitSteps(poly, x, 8), rest);
      PackFits(rest);
      FitsStep(b, Pack(rest), |rest|);
      MoveIn(poly, x, Pack(rest));
      XorAssoc(crc, WordOf(b), Up8(Pack(rest)));
    }
  }

  lemma {:induction false} ByteStepsInjective(poly: word, a: word, b: word, k: nat)
    requires poly & 0x8000_0000 != 0 && ByteSteps(poly, a, k) == ByteSteps(poly, b, k)
    ensures a == b
    decreases k
  {
    hide BitSteps;
    if k > 0 {
      ByteStepsInjective(poly, BitSteps(poly, a, 8), BitSteps(poly, b, 8), k - 1);
      BitStepsInjective(poly, a, b, 8);
    }
  }

  lemma {:induction false} RegisterInjective(poly: word, a: word, b: word, data: seq<byte>)
    requires poly & 0x8000_0000 != 0 && Register(poly, a, data) == Register(poly, b, data)
    ensures a == b
    decreases |data|
  {
    hide BitSteps, Xor, WordOf;
    if data != [] {
      var k := |data| - 1;
      var ra, rb := Register(poly, a, data[..k]), Register(poly, b, data[..k]);
      BitStepsInjective(poly, Xor(ra, WordOf(data[k])), Xor(rb, WordOf(data[k])), 8);
      XorCancel(ra, rb, WordOf(data[k]));
      RegisterInjective(poly, a, b, data[..k]);
    }
  }

  /** Two payloads that differ only inside a window of at most four bytes have different checksums. */
  lemma BurstDetected(poly: word, before: seq<byte>, u: seq<byte>, v: seq<byte>, after: seq<byte>)
    requires poly & 0x8000_0000 != 0 && |u| == |v| <= 4 && u != v
    ensures Checksum(poly, before + u + after) != Checksum(poly, before + v + after)
  {
    hide Xor, Register;
    var start: word := 0xffff_ffff;
    var s := Register(poly, start, before);
    RegisterConcat(poly, start, before + u, after);
    RegisterConcat(poly, start, before + v, after);
    RegisterConcat(poly, start, before, u);
    RegisterConcat(poly, start, before, v);
    if Checksum(poly, before + u + after) == Checksum(poly, before + v + after) {
      XorCancel(Register(poly, start, before + u + after), Register(poly, start, before + v + after), start);
      RegisterInjective(poly, Register(poly, s, u), Register(poly, s, v), after);
      RegisterPacked(poly, s, u);
      RegisterPacked(poly, s, v);
      ByteStepsInjective(poly, Xor(s, Pack(u)), Xor(s, Pack(v)), |u|);
      XorComm(s, Pack(u));
      XorComm(s, Pack(v));
      XorCancel(Pack(u), Pack(v), s);
      PackInjective(u, v);
    }
  }

  lemma BothPolynomials()
    ensures IEEE & 0x8000_0000 != 0 && CASTAGNOLI & 0x8000_0000 != 0
  {}

  // ----- the checksum as a number

  function WordAsNat(w: word): nat {
    w as nat
  }

  lemma WordBound(w: word)
    ensures WordAsNat(w) < U32
  {}

  function WordAsU32(w: word): u32 {
    hide WordAsNat;
    WordBound(w);
    WordAsNat(w)
  }

  lemma WordAsU32Injective(a: word, b: word)
    requires WordAsU32(a) == WordAsU32(b)
    ensures a == b
  {
    assert (a as nat) as word == a && (b as nat) as word == b;
  }
}
