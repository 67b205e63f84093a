/** The field GF(256) with which the Reed-Solomon code computes. */
module Gf256 {
  import opened Wrappers
  import opened Bytes

  /** Addition and subtraction are both the bitwise exclusive or. */
  function Add(a: byte, b: byte): byte {
    Xor(a, b)
  }

  /** a when the lowest bit of b is set, zero otherwise. */
  function Pick(b: byte, a: byte): byte {
    if b & 1 != 0 then a else 0
  }

  function Half(b: byte): byte {
    b >> 1
  }

  /** Multiplication by x modulo x^8 + x^4 + x^3 + x^2 + 1. */
  function XTime(a: byte): byte {
    if a & 0x80 != 0 then (a << 1) ^ 0x1d else a << 1
  }

  /** The field product: the sum of x^i * a over the set bits i of b. */
  function Mul(a: byte, b: byte): byte
    decreases b
  {
    if b == 0 then 0 else Add(Pick(b, a), Mul(XTime(a), Half(b)))
  }

  function Pow(value: byte, power: nat): byte {
    if power == 0 then 1 else Mul(Pow(value, power - 1), value)
  }

  // ----- addition

  lemma AddComm(a: byte, b: byte)
    ensures Add(a, b) == Add(b, a)
  {}

  lemma AddAssoc(a: byte, b: byte, c: byte)
    ensures Add(Add(a, b), c) == Add(a, Add(b, c))
  {}

  lemma AddZero(a: byte)
    ensures Add(a, 0) == a == Add(0, a)
  {}

  lemma AddSelf(a: byte)
    ensures Add(a, a) == 0
  {}

  lemma AddIsZero(a: byte, b: byte)
    ensures Add(a, b) == 0 <==> a == b
  {}

  lemma Add4(a: byte, b: byte, c: byte, d: byte)
    ensures Add(Add(a, b), Add(c, d)) == Add(Add(a, c), Add(b, d))
  {
    hide Add;
    AddAssoc(a, b, Add(c, d));
    AddAssoc(b, c, d);
    AddComm(b, c);
    AddAssoc(c, b, d);
    AddAssoc(a, c, Add(b, d));
  }

  // ----- the bit-level steps are linear

  lemma XTimeAdd(a: byte, b: byte)
    ensures XTime(Add(a, b)) == Add(XTime(a), XTime(b))
  {
    if a & 0x80 != 0 {
      if b & 0x80 != 0 {} else {}
    } else {
      if b & 0x80 != 0 {} else {}
    }
  }

  lemma PickAddRight(b: byte, a: byte, a': byte)
    ensures Pick(b, Add(a, a')) == Add(Pick(b, a), Pick(b, a'))
  {}

  lemma PickXTime(b: byte, a: byte)
    ensures Pick(b, XTime(a)) == XTime(Pick(b, a))
  {
    hide XTime;
    XTimeZero();
  }

  lemma XTimeZero()
    ensures XTime(0) == 0
  {}

  lemma HalfAdd(a: byte, b: byte)
    ensures Half(Add(a, b)) == Add(Half(a), Half(b))
  {}

  lemma HalfLess(b: byte)
    requires b != 0
    ensures Half(b) < b
  {}

  /** Every byte is its lowest bit plus x times its upper bits. */
  lemma BitSplit(b: byte)
    ensures b == Add(Pick(b, 1), XTime(Half(b)))
  {
    assert Half(b) & 0x80 == 0;
    if b & 1 != 0 {} else {}
  }

  lemma HalfPickZero(a: byte)
    ensures Half(0) == 0 && Pick(0, a) == 0
  {}

  // ----- multiplication

  lemma MulUnfold(a: byte, b: byte)
    ensures Mul(a, b) == Add(Pick(b, a), Mul(XTime(a), Half(b)))
  {
    hide Add, Pick, XTime, Half;
    if b == 0 {
      HalfPickZero(a);
      AddZero(0);
    }
  }

  lemma LoopBodySteps(result: byte, a: byte, b: byte)
    ensures Add(result, Pick(b, a)) == if b & 1 != 0 then result ^ a else result
    ensures XTime(a) == if a & 0x80 != 0 then (a << 1) ^ 0x1d else a << 1
    ensures Half(b) == b >> 1
  {}

  method GfMul(x: byte, y: byte) returns (result: byte)
    ensures result == Mul(x, y)
  {
    hide *;
    var a, b := x, y;
    result := 0;
    AddZero(Mul(x, y));
    while b != 0
      invariant Add(result, Mul(a, b)) == Mul(x, y)
      decreases b
    {
      MulUnfold(a, b);
      AddAssoc(result, Pick(b, a), Mul(XTime(a), Half(b)));
      LoopBodySteps(result, a, b);
      HalfLess(b);
      if b & 1 != 0 {
        result := result ^ a;
      }
      var carry := a & 0x80 != 0;
      a := a << 1;
      if carry {
        a := a ^ 0x1d;
      }
      b := b >> 1;
    }
    MulZeroRight(a);
    AddZero(result);
  }

  lemma MulZeroRight(a: byte)
    ensures Mul(a, 0) == 0
  {}

  lemma {:induction false} MulZeroLeft(b: byte)
    ensures Mul(0, b) == 0
    decreases b
  {
    hide *;
    if b == 0 {
      MulZeroRight(0);
    } else {
      MulUnfold(0, b);
      XTimeZero();
      HalfLess(b);
      MulZeroLeft(Half(b));
      PickOfZero(b);
      AddZero(0);
    }
  }

  lemma PickOfZero(b: byte)
    ensures Pick(b, 0) == 0
  {}

  lemma {:induction false} MulAddLeft(a: byte, a': byte, b: byte)
    ensures Mul(Add(a, a'), b) == Add(Mul(a, b), Mul(a', b))
    decreases b
  {
    hide *;
    if b == 0 {
      MulZeroRight(a);
      MulZeroRight(a');
      MulZeroRight(Add(a, a'));
      AddZero(0);
    } else {
      MulUnfold(a, b);
      MulUnfold(a', b);
      MulUnfold(Add(a, a'), b);
      XTimeAdd(a, a');
      PickAddRight(b, a, a');
      HalfLess(b);
      MulAddLeft(XTime(a), XTime(a'), Half(b));
      Add4(Pick(b, a), Pick(b, a'), Mul(XTime(a), Half(b)), Mul(XTime(a'), Half(b)));
    }
  }

  lemma {:induction false} MulXTime(a: byte, b: byte)
    ensures Mul(XTime(a), b) == XTime(Mul(a, b))
    decreases b
  {
    hide *;
    if b == 0 {
      MulZeroRight(a);
      MulZeroRight(XTime(a));
      XTimeZero();
    } else {
      MulUnfold(a, b);
      MulUnfold(XTime(a), b);
      HalfLess(b);
      MulXTime(XTime(a), Half(b));
      PickXTime(b, a);
      XTimeAdd(Pick(b, a), Mul(XTime(a), Half(b)));
    }
  }

  lemma {:induction false} MulOneLeft(b: byte)
    ensures Mul(1, b) == b
    decreases b
  {
    hide *;
    if b == 0 {
      MulZeroRight(1);
    } else {
      MulUnfold(1, b);
      MulXTime(1, Half(b));
      HalfLess(b);
      MulOneLeft(Half(b));
      BitSplit(b);
    }
  }

  lemma MulPickOne(b: byte, a: byte)
    ensures Mul(Pick(b, 1), a) == Pick(b, a)
  {
    hide Mul;
    MulOneLeft(a);
    MulZeroLeft(a);
  }

  lemma {:induction false} MulComm(a: byte, b: byte)
    ensures Mul(a, b) == Mul(b, a)
    decreases b
  {
    hide *;
    if b == 0 {
      MulZeroRight(a);
      MulZeroLeft(a);
    } else {
      MulUnfold(a, b);
      MulXTime(a, Half(b));
      HalfLess(b);
      MulComm(a, Half(b));
      MulXTime(Half(b), a);
      MulPickOne(b, a);
      BitSplit(b);
      MulAddLeft(Pick(b, 1), XTime(Half(b)), a);
    }
  }

  lemma MulOneRight(a: byte)
    ensures Mul(a, 1) == a
  {
    hide *;
    MulComm(a, 1);
    MulOneLeft(a);
  }

  lemma MulAddRight(a: byte, b: byte, b': byte)
    ensures Mul(a, Add(b, b')) == Add(Mul(a, b), Mul(a, b'))
  {
    hide *;
    MulComm(a, Add(b, b'));
    MulComm(a, b);
    MulComm(a, b');
    MulAddLeft(b, b', a);
  }

  lemma MulXTimeRight(a: byte, b: byte)
    ensures Mul(a, XTime(b)) == XTime(Mul(a, b))
  {
    hide *;
    MulComm(a, XTime(b));
    MulComm(a, b);
    MulXTime(b, a);
  }

  lemma MulPickRight(a: byte, c: byte, b: byte)
    ensures Mul(a, Pick(c, b)) == Pick(c, Mul(a, b))
  {
    hide Mul;
    MulZeroRight(a);
  }

  lemma {:induction false} MulAssoc(a: byte, b: byte, c: byte)
    ensures Mul(Mul(a, b), c) == Mul(a, Mul(b, c))
    decreases c
  {
    hide *;
    if c == 0 {
      MulZeroRight(Mul(a, b));
      MulZeroRight(b);
      MulZeroRight(a);
    } else {
      MulUnfold(Mul(a, b), c);
      MulUnfold(b, c);
      MulAddRight(a, Pick(c, b), Mul(XTime(b), Half(c)));
      MulPickRight(a, c, b);
      MulXTimeRight(a, b);
      HalfLess(c);
      MulAssoc(a, XTime(b), Half(c));
    }
  }

  // ----- inverses

  lemma {:induction false} PowAdd(a: byte, m: nat, n: nat)
    ensures Pow(a, m + n) == Mul(Pow(a, m), Pow(a, n))
    decreases n
  {
    hide Mul;
    if n == 0 {
      MulOneRight(Pow(a, m));
    } else {
      PowAdd(a, m, n - 1);
      MulAssoc(Pow(a, m), Pow(a, n - 1), a);
    }
  }

  function Shr(a: byte, k: nat): byte
    requires k < 8
  {
    a >> k
  }

  /** Squaring, bit by bit: bit i of a contributes x^2i. */
  function Square(a: byte): byte {
    Add(Pick(a, 0x01), Add(Pick(Shr(a, 1), 0x04), Add(Pick(Shr(a, 2), 0x10), Add(Pick(Shr(a, 3), 0x40),
    Add(Pick(Shr(a, 4), 0x1d), Add(Pick(Shr(a, 5), 0x74), Add(Pick(Shr(a, 6), 0xcd), Pick(Shr(a, 7), 0x13))))))))
  }

  /** Multiplication by x^2. */
  function Quad(a: byte): byte {
    XTime(XTime(a))
  }

  lemma QuadAdd(a: byte, b: byte)
    ensures Quad(Add(a, b)) == Add(Quad(a), Quad(b))
  {
    hide XTime, Add;
    XTimeAdd(a, b);
    XTimeAdd(XTime(a), XTime(b));
  }

  lemma QuadPick(b: byte, a: byte)
    ensures Quad(Pick(b, a)) == Pick(b, Quad(a))
  {
    hide XTime, Pick;
    PickXTime(b, a);
    PickXTime(b, XTime(a));
  }

  lemma QuadConstants()
    ensures Quad(0x01) == 0x04 && Quad(0x04) == 0x10 && Quad(0x10) == 0x40 && Quad(0x40) == 0x1d
    ensures Quad(0x1d) == 0x74 && Quad(0x74) == 0xcd && Quad(0xcd) == 0x13
  {}

  lemma ShrOfHalf(a: byte)
    ensures Half(a) == Shr(a, 1) && Shr(Half(a), 1) == Shr(a, 2) && Shr(Half(a), 2) == Shr(a, 3)
    ensures Shr(Half(a), 3) == Shr(a, 4) && Shr(Half(a), 4) == Shr(a, 5) && Shr(Half(a), 5) == Shr(a, 6)
    ensures Shr(Half(a), 6) == Shr(a, 7) && Shr(Half(a), 7) == 0
  {}

  /** The square of a half, whose highest bit is zero. */
  lemma SquareOfHalf(a: byte)
    ensures Square(Half(a)) ==
            Add(Pick(Shr(a, 1), 0x01), Add(Pick(Shr(a, 2), 0x04), Add(Pick(Shr(a, 3), 0x10), Add(Pick(Shr(a, 4), 0x40),
            Add(Pick(Shr(a, 5), 0x1d), Add(Pick(Shr(a, 6), 0x74), Pick(Shr(a, 7), 0xcd)))))))
  {
    ShrOfHalf(a);
    AddZero(Pick(Shr(a, 7), 0xcd));
    HalfPickZero(0x13);
    hide Add, Shr, Pick, Half;
  }

  lemma SquareUnfold(a: byte)
    ensures Square(a) == Add(Pick(a, 1), XTime(XTime(Square(Half(a)))))
  {
    SquareOfHalf(a);
    QuadConstants();
    hide Pick, Half, Add, Shr, XTime;
    var p1, p2, p3, p4 := Pick(Shr(a, 1), 0x01), Pick(Shr(a, 2), 0x04), Pick(Shr(a, 3), 0x10), Pick(Shr(a, 4), 0x40);
    var p5, p6, p7 := Pick(Shr(a, 5), 0x1d), Pick(Shr(a, 6), 0x74), Pick(Shr(a, 7), 0xcd);
    var s5 := Add(p5, Add(p6, p7));
    var s3 := Add(p3, Add(p4, s5));
    QuadAdd(p1, Add(p2, s3));
    QuadAdd(p2, s3);
    QuadAdd(p3, Add(p4, s5));
    QuadAdd(p4, s5);
    QuadAdd(p5, Add(p6, p7));
    QuadAdd(p6, p7);
    QuadPick(Shr(a, 1), 0x01);
    QuadPick(Shr(a, 2), 0x04);
    QuadPick(Shr(a, 3), 0x10);
    QuadPick(Shr(a, 4), 0x40);
    QuadPick(Shr(a, 5), 0x1d);
    QuadPick(Shr(a, 6), 0x74);
    QuadPick(Shr(a, 7), 0xcd);
  }

  lemma {:induction false} MulSelf(a: byte)
    ensures Mul(a, a) == Square(a)
    decreases a
  {
    hide *;
    if a == 0 {
      MulZeroRight(0);
      SquareFixpoints(0);
    } else {
      var p, h := Pick(a, 1), XTime(Half(a));
      BitSplit(a);
      MulAddLeft(p, h, a);
      MulAddRight(p, p, h);
      MulAddRight(h, p, h);
      MulComm(p, h);
      Add4(Mul(p, p), Mul(p, h), Mul(p, h), Mul(h, h));
      AddMiddle(Mul(p, p), Mul(p, h), Mul(h, h));
      MulPickOne(a, p);
      PickTwice(a);
      MulXTime(Half(a), h);
      MulXTimeRight(Half(a), Half(a));
      HalfLess(a);
      MulSelf(Half(a));
      SquareUnfold(a);
    }
  }

  lemma AddMiddle(a: byte, b: byte, c: byte)
    ensures Add(Add(a, b), Add(b, c)) == Add(a, c)
  {
    hide *;
    AddAssoc(a, b, Add(b, c));
    AddAssoc(b, b, c);
    AddSelf(b);
    AddZero(c);
  }

  lemma PickTwice(b: byte)
    ensures Pick(b, Pick(b, 1)) == Pick(b, 1)
  {}

  lemma SquareFixpoints(a: byte)
    ensures Square(a) == a <==> a == 0 || a == 1
  {}

  lemma SquareAdd(a: byte, b: byte)
    ensures Square(Add(a, b)) == Add(Square(a), Square(b))
  {
    hide *;
    MulSelf(a);
    MulSelf(b);
    MulSelf(Add(a, b));
    MulAddLeft(a, b, Add(a, b));
    MulAddRight(a, a, b);
    MulAddRight(b, a, b);
    MulComm(a, b);
    AddMiddle(Mul(a, a), Mul(a, b), Mul(b, b));
  }

  lemma SquareMul(a: byte, b: byte)
    ensures Square(Mul(a, b)) == Mul(Square(a), Square(b))
  {
    hide *;
    MulSelf(a);
    MulSelf(b);
    MulSelf(Mul(a, b));
    MulAssoc(a, b, Mul(a, b));
    MulComm(a, b);
    MulAssoc(b, b, a);
    MulComm(Mul(b, b), a);
    MulAssoc(a, a, Mul(b, b));
  }

  /** n squarings in a row, that is, the power 2^n. */
  function SquareTimes(a: byte, n: nat): byte
    decreases n
  {
    if n == 0 then a else SquareTimes(Square(a), n - 1)
  }

  lemma {:induction false} SquareTimesAdd(a: byte, b: byte, n: nat)
    ensures SquareTimes(Add(a, b), n) == Add(SquareTimes(a, n), SquareTimes(b, n))
    decreases n
  {
    hide Add, Square;
    if n > 0 {
      SquareAdd(a, b);
      SquareTimesAdd(Square(a), Square(b), n - 1);
    }
  }

  lemma {:induction false} SquareTimesMul(a: byte, b: byte, n: nat)
    ensures SquareTimes(Mul(a, b), n) == Mul(SquareTimes(a, n), SquareTimes(b, n))
    decreases n
  {
    hide Mul, Square;
    if n > 0 {
      SquareMul(a, b);
      SquareTimesMul(Square(a), Square(b), n - 1);
    }
  }

  lemma {:induction false} SquareTimesFixed(a: byte, n: nat)
    requires Square(a) == a
    ensures SquareTimes(a, n) == a
    decreases n
  {
    hide Square;
    if n > 0 {
      SquareTimesFixed(a, n - 1);
    }
  }

  lemma SquaresOfTwo()
    ensures Square(0x02) == 0x04 && Square(0x04) == 0x10 && Square(0x10) == 0x1d && Square(0x1d) == 0x4c
    ensures Square(0x4c) == 0x9d && Square(0x9d) == 0x5f && Square(0x5f) == 0x85 && Square(0x85) == 0x02
  {}

  lemma SquareTimesOfTwo()
    ensures SquareTimes(2, 8) == 2
  {
    hide Square;
    SquaresOfTwo();
    SquareTimesStep(0x02, 8);
    SquareTimesStep(0x04, 7);
    SquareTimesStep(0x10, 6);
    SquareTimesStep(0x1d, 5);
    SquareTimesStep(0x4c, 4);
    SquareTimesStep(0x9d, 3);
    SquareTimesStep(0x5f, 2);
  }

  lemma SquareTimesStep(a: byte, n: nat)
    requires n > 0
    ensures SquareTimes(a, n) == SquareTimes(Square(a), n - 1)
  {}

  /** The Frobenius map applied eight times is the identity on all of GF(256). */
  lemma {:induction false} EightSquarings(a: byte)
    ensures SquareTimes(a, 8) == a
    decreases a
  {
    hide *;
    if a == 0 {
      SquareFixpoints(0);
      SquareTimesFixed(0, 8);
    } else {
      var p, h := Pick(a, 1), Half(a);
      BitSplit(a);
      SquareTimesAdd(p, XTime(h), 8);
      PickIsBit(a);
      SquareFixpoints(p);
      SquareTimesFixed(p, 8);
      MulByTwo(h);
      SquareTimesMul(h, 2, 8);
      SquareTimesOfTwo();
      HalfLess(a);
      EightSquarings(h);
    }
  }

  lemma PickIsBit(b: byte)
    ensures Pick(b, 1) == 0 || Pick(b, 1) == 1
  {}

  lemma MulByTwo(a: byte)
    ensures Mul(a, 2) == XTime(a)
  {
    assert XTime(1) == 2;
    hide *;
    MulXTimeRight(a, 1);
    MulOneRight(a);
  }

  lemma {:induction false} PowSquareTimes(a: byte, n: nat, m: nat, k: nat)
    requires k == m * Exp2(n)
    ensures Pow(a, k) == SquareTimes(Pow(a, m), n)
    decreases n
  {
    hide Mul, Square, Pow;
    if n > 0 {
      PowAdd(a, m, m);
      MulSelf(Pow(a, m));
      PowSquareTimes(a, n - 1, m + m, k);
    }
  }

  function Exp2(n: nat): nat {
    if n == 0 then 1 else 2 * Exp2(n - 1)
  }

  lemma PowOne(a: byte)
    ensures Pow(a, 1) == a
  {
    hide Mul;
    MulOneLeft(a);
  }

  /** Fermat: a^256 = a, so a^255 is an idempotent that fixes a. */
  lemma PowerIsIdempotent(a: byte)
    ensures Mul(Pow(a, 255), a) == a
    ensures Square(Pow(a, 255)) == Pow(a, 255)
  {
    assert Exp2(8) == 256;
    hide *;
    PowOne(a);
    PowSquareTimes(a, 8, 1, 256);
    EightSquarings(a);
    PowAdd(a, 255, 1);
    PowAdd(a, 254, 1);
    PowAdd(a, 255, 255);
    PowAdd(a, 254, 256);
    MulSelf(Pow(a, 255));
  }

  lemma InverseLaw(a: byte)
    requires a != 0
    ensures Mul(Pow(a, 254), a) == 1
    ensures Mul(a, Pow(a, 254)) == 1
  {
    hide *;
    PowerIsIdempotent(a);
    SquareFixpoints(Pow(a, 255));
    MulZeroLeft(a);
    PowOne(a);
    PowAdd(a, 254, 1);
    MulComm(a, Pow(a, 254));
  }

  method GfPow(value: byte, power: int) returns (result: byte)
    ensures result == Pow(value, if power < 0 then 0 else power)
  {
    result := 1;
    var i := 0;
    while i < power
      invariant 0 <= i && (i <= power || i == 0) && result == Pow(value, i)
    {
      result := GfMul(result, value);
      i := i + 1;
    }
  }

  method GfInv(value: byte) returns (result: Result<byte>)
    ensures value == 0 ==> result.Failure?
    ensures value != 0 ==> result.Success? && Mul(result.value, value) == 1 == Mul(value, result.value)
  {
    hide *;
    if value == 0 {
      return Failure("cannot invert zero in GF(256)");
    }
    InverseLaw(value);
    var inverse := GfPow(value, 254);
    return Success(inverse);
  }

  lemma NoZeroDivisors(a: byte, b: byte)
    requires Mul(a, b) == 0
    ensures a == 0 || b == 0
  {
    hide *;
    if a != 0 {
      InverseLaw(a);
      MulAssoc(Pow(a, 254), a, b);
      MulZeroRight(Pow(a, 254));
      MulOneLeft(b);
    }
  }
}
