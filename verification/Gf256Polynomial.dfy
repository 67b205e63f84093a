/** The product of Gf256 is the product of polynomials over GF(2), reduced modulo the field polynomial. */
module Gf256Polynomial {
  import opened Bytes
  import opened Gf256

  /** x^8 + x^4 + x^3 + x^2 + 1 */
  const FIELD_POLYNOMIAL: bv16 := 0x11d

  function Add16(p: bv16, q: bv16): bv16 {
    p ^ q
  }

  function Pick16(b: byte, p: bv16): bv16 {
    if b & 1 != 0 then p else 0
  }

  function Shift16(p: bv16): bv16 {
    p << 1
  }

  function Widen(a: byte): bv16 {
    a as bv16
  }

  /** The product of two polynomials over GF(2), without any reduction. */
  function PolyMul(p: bv16, b: byte): bv16
    decreases b
  {
    if b == 0 then 0 else Add16(Pick16(b, p), PolyMul(Shift16(p), Half(b)))
  }

  /** The multiple of the field polynomial that reduction takes away. */
  function Quotient(a: byte, b: byte): byte
    decreases b
  {
    if b == 0 then 0 else Add(Pick(a >> 7, Half(b)), Quotient(XTime(a), Half(b)))
  }

  lemma Add16Zero(p: bv16)
    ensures Add16(0, p) == p == Add16(p, 0)
    ensures Add16(p, p) == 0
  {}

  lemma Add16Comm(p: bv16, q: bv16)
    ensures Add16(p, q) == Add16(q, p)
  {}

  lemma Add16Assoc(p: bv16, q: bv16, r: bv16)
    ensures Add16(Add16(p, q), r) == Add16(p, Add16(q, r))
  {}

  lemma Add16Swap(p: bv16, q: bv16, r: bv16, s: bv16)
    ensures Add16(Add16(p, q), Add16(r, s)) == Add16(Add16(p, r), Add16(q, s))
  {
    hide *;
    Add16Assoc(p, q, Add16(r, s));
    Add16Assoc(q, r, s);
    Add16Comm(q, r);
    Add16Assoc(r, q, s);
    Add16Assoc(p, r, Add16(q, s));
  }

  lemma Shift16Add(p: bv16, q: bv16)
    ensures Shift16(Add16(p, q)) == Add16(Shift16(p), Shift16(q))
    ensures Shift16(0) == 0
  {}

  lemma Pick16AddRight(b: byte, p: bv16, q: bv16)
    ensures Pick16(b, Add16(p, q)) == Add16(Pick16(b, p), Pick16(b, q))
    ensures Pick16(b, 0) == 0 && Pick16(0, p) == 0
  {}

  lemma Pick16AddLeft(b: byte, c: byte, p: bv16)
    ensures Pick16(Add(b, c), p) == Add16(Pick16(b, p), Pick16(c, p))
  {
    if b & 1 != 0 {
      if c & 1 != 0 {} else {}
    } else {
      if c & 1 != 0 {} else {}
    }
  }

  lemma WidenPick(b: byte, a: byte)
    ensures Widen(Pick(b, a)) == Pick16(b, Widen(a))
    ensures Widen(0) == 0
  {}

  lemma WidenAdd(a: byte, b: byte)
    ensures Widen(Add(a, b)) == Add16(Widen(a), Widen(b))
  {}

  /** Without the carry a shift of the wide polynomial is XTime; the carry takes one field polynomial away. */
  lemma ShiftIsXTime(a: byte)
    ensures Shift16(Widen(a)) == Add16(Widen(XTime(a)), Pick16(a >> 7, FIELD_POLYNOMIAL))
  {
    if a & 0x80 != 0 {} else {}
  }

  lemma PolyMulUnfold(p: bv16, b: byte)
    ensures PolyMul(p, b) == Add16(Pick16(b, p), PolyMul(Shift16(p), Half(b)))
  {
    hide Add16, Pick16, Shift16, Half;
    if b == 0 {
      HalfPickZero(0);
      Pick16AddRight(0, p, p);
      Add16Zero(0);
    }
  }

  lemma PolyMulByZero(p: bv16)
    ensures PolyMul(p, 0) == 0
  {}

  lemma {:induction false} PolyMulAddLeft(p: bv16, q: bv16, b: byte)
    ensures PolyMul(Add16(p, q), b) == Add16(PolyMul(p, b), PolyMul(q, b))
    decreases b
  {
    hide *;
    if b == 0 {
      PolyMulByZero(p);
      PolyMulByZero(q);
      PolyMulByZero(Add16(p, q));
      Add16Zero(0);
    } else {
      PolyMulUnfold(p, b);
      PolyMulUnfold(q, b);
      PolyMulUnfold(Add16(p, q), b);
      Shift16Add(p, q);
      Pick16AddRight(b, p, q);
      HalfLess(b);
      PolyMulAddLeft(Shift16(p), Shift16(q), Half(b));
      Add16Swap(Pick16(b, p), Pick16(b, q), PolyMul(Shift16(p), Half(b)), PolyMul(Shift16(q), Half(b)));
    }
  }

  lemma PolyMulAddRight(p: bv16, b: byte, c: byte)
    ensures PolyMul(p, Add(b, c)) == Add16(PolyMul(p, b), PolyMul(p, c))
  {
    assert Exp2(8) == 256;
    hide *;
    PolyMulAddRightUpTo(p, b, c, 8);
  }

  lemma {:induction false} PolyMulAddRightUpTo(p: bv16, b: byte, c: byte, n: nat)
    requires b as int < Exp2(n) && c as int < Exp2(n)
    ensures PolyMul(p, Add(b, c)) == Add16(PolyMul(p, b), PolyMul(p, c))
    decreases n
  {
    hide Add16, Pick16, Shift16, PolyMul, Add, Half;
    if n == 0 {
      PolyMulByZero(p);
      AddZero(0);
      Add16Zero(0);
    } else {
      PolyMulUnfold(p, b);
      PolyMulUnfold(p, c);
      PolyMulUnfold(p, Add(b, c));
      HalfAdd(b, c);
      Pick16AddLeft(b, c, p);
      HalfBound(b, n);
      HalfBound(c, n);
      PolyMulAddRightUpTo(Shift16(p), Half(b), Half(c), n - 1);
      Add16Swap(Pick16(b, p), Pick16(c, p), PolyMul(Shift16(p), Half(b)), PolyMul(Shift16(p), Half(c)));
    }
  }

  lemma HalfBound(b: byte, n: nat)
    requires n > 0 && b as int < Exp2(n)
    ensures Half(b) as int < Exp2(n - 1)
  {
    assert Half(b) == b / 2;
    assert (b / 2) as int == b as int / 2;
  }

  lemma PolyMulPick(c: byte, p: bv16, b: byte)
    ensures PolyMul(Pick16(c, p), b) == PolyMul(p, Pick(c, b))
  {
    hide PolyMul;
    PolyMulByZero(p);
    PolyMulAddLeft(0, 0, b);
    Add16Zero(0);
    Add16Zero(PolyMul(0, b));
  }

  /** The quotient and the product are unfolded together, one bit of b at a time. */
  lemma {:induction false} MulIsPolynomialRemainder(a: byte, b: byte)
    ensures PolyMul(Widen(a), b) == Add16(Widen(Mul(a, b)), PolyMul(FIELD_POLYNOMIAL, Quotient(a, b)))
    decreases b
  {
    hide *;
    if b == 0 {
      PolyMulByZero(Widen(a));
      PolyMulByZero(FIELD_POLYNOMIAL);
      MulZeroRight(a);
      QuotientUnfold(a, b);
      WidenAdd(0, 0);
      WidenPick(0, a);
      Add16Zero(0);
    } else {
      var carry, half, next := a >> 7, Half(b), XTime(a);
      HalfLess(b);
      MulIsPolynomialRemainder(next, half);
      PolyMulUnfold(Widen(a), b);
      ShiftIsXTime(a);
      PolyMulAddLeft(Widen(next), Pick16(carry, FIELD_POLYNOMIAL), half);
      PolyMulPick(carry, FIELD_POLYNOMIAL, half);
      MulUnfold(a, b);
      WidenAdd(Pick(b, a), Mul(next, half));
      WidenPick(b, a);
      QuotientUnfold(a, b);
      PolyMulAddRight(FIELD_POLYNOMIAL, Pick(carry, half), Quotient(next, half));
      Rearranged(Pick16(b, Widen(a)), Widen(Mul(next, half)),
                 PolyMul(FIELD_POLYNOMIAL, Quotient(next, half)), PolyMul(FIELD_POLYNOMIAL, Pick(carry, half)));
    }
  }

  lemma QuotientUnfold(a: byte, b: byte)
    ensures Quotient(a, b) == if b == 0 then 0 else Add(Pick(a >> 7, Half(b)), Quotient(XTime(a), Half(b)))
  {}

  lemma Rearranged(p: bv16, q: bv16, r: bv16, s: bv16)
    ensures Add16(p, Add16(Add16(q, r), s)) == Add16(Add16(p, q), Add16(s, r))
  {
    hide *;
    Add16Assoc(q, r, s);
    Add16Comm(r, s);
    Add16Assoc(p, q, Add16(s, r));
  }
}
