/** Polynomials over GF(256) given by their coefficients, lowest power first. */
module Polynomials {
  import opened Bytes
  import opened Gf256
  import opened LinearAlgebra

  function Eval(c: Vector, t: byte): byte {
    if c == [] then 0 else Add(c[0], Mul(t, Eval(c[1..], t)))
  }

  /** One row of a Vandermonde matrix: the powers of one evaluation point. */
  function PowerRow(t: byte, d: nat): (r: Vector)
    ensures |r| == d && forall c :: 0 <= c < d ==> r[c] == Pow(t, c)
  {
    seq(d, c requires 0 <= c < d => Pow(t, c))
  }

  lemma {:induction false} DotPowerRowShift(t: byte, c: Vector, n: nat)
    requires 1 <= n <= |c|
    ensures DotTo(PowerRow(t, |c|), c, n)
         == Add(c[0], Mul(t, DotTo(PowerRow(t, |c| - 1), c[1..], n - 1)))
    decreases n
  {
    hide Add, Mul, PowerRow;
    var k := n - 1;
    if k == 0 {
      MulOneLeft(c[0]);
      MulZeroRight(t);
      AddZero(c[0]);
    } else {
      DotPowerRowShift(t, c, k);
      var before := DotTo(PowerRow(t, |c| - 1), c[1..], k - 1);
      MulComm(Pow(t, k - 1), t);
      MulAssoc(t, Pow(t, k - 1), c[k]);
      MulAddRight(t, before, Mul(Pow(t, k - 1), c[k]));
      AddAssoc(c[0], Mul(t, before), Mul(Pow(t, k), c[k]));
    }
  }

  lemma {:induction false} DotPowerRowIsEval(t: byte, c: Vector)
    ensures Dot(PowerRow(t, |c|), c) == Eval(c, t)
    decreases |c|
  {
    hide Add, Mul, PowerRow;
    if c != [] {
      DotPowerRowShift(t, c, |c|);
      DotPowerRowIsEval(t, c[1..]);
    }
  }

  lemma {:induction false} EvalZeros(c: Vector, t: byte)
    requires c == Zeros(|c|)
    ensures Eval(c, t) == 0
    decreases |c|
  {
    hide Add, Mul;
    if c != [] {
      EvalZeros(c[1..], t);
      MulZeroRight(t);
      AddZero(0);
    }
  }

  // ----- a polynomial of degree below d with d distinct roots is zero

  /** Synthetic division by (x - a). */
  function Divide(c: Vector, a: byte): (q: Vector)
    ensures |q| == if c == [] then 0 else |c| - 1
  {
    if |c| <= 1 then [] else [Eval(c[1..], a)] + Divide(c[1..], a)
  }

  lemma {:induction false} DivideLaw(c: Vector, a: byte, t: byte)
    ensures Eval(c, t) == Add(Eval(c, a), Mul(Add(t, a), Eval(Divide(c, a), t)))
    decreases |c|
  {
    hide Add, Mul;
    MulZeroRight(Add(t, a));
    if |c| == 0 {
      AddZero(0);
    } else if |c| == 1 {
      assert c[1..] == [];
      MulZeroRight(t);
      MulZeroRight(a);
      AddZero(Eval(c, a));
    } else {
      var c', s := c[1..], Add(t, a);
      var e, f := Eval(c', a), Eval(Divide(c', a), t);
      DivideLaw(c', a, t);
      assert Divide(c, a)[1..] == Divide(c', a);
      DivideStep(c[0], t, a, e, f);
    }
  }

  lemma DivideStep(c0: byte, t: byte, a: byte, e: byte, f: byte)
    ensures Add(c0, Mul(t, Add(e, Mul(Add(t, a), f))))
         == Add(Add(c0, Mul(a, e)), Mul(Add(t, a), Add(e, Mul(t, f))))
  {
    hide *;
    var s := Add(t, a);
    MulAddRight(t, e, Mul(s, f));
    MulAddRight(s, e, Mul(t, f));
    MulAddLeft(t, a, e);
    MulComm(s, t);
    MulAssoc(t, s, f);
    MulAssoc(s, t, f);
    var te, ae, w := Mul(t, e), Mul(a, e), Mul(t, Mul(s, f));
    // c0 + (te + w) against (c0 + ae) + ((te + ae) + w)
    AddComm(te, ae);
    AddAssoc(ae, te, w);
    AddAssoc(c0, ae, Add(ae, Add(te, w)));
    AddAssoc(ae, ae, Add(te, w));
    AddSelf(ae);
    AddZero(Add(te, w));
  }

  ghost predicate DistinctRoots(c: Vector, roots: Vector) {
    (forall i, j :: 0 <= i < j < |roots| ==> roots[i] != roots[j]) &&
    forall i :: 0 <= i < |roots| ==> Eval(c, roots[i]) == 0
  }

  lemma {:induction false} TooManyRoots(c: Vector, roots: Vector)
    requires |roots| == |c| && DistinctRoots(c, roots)
    ensures c == Zeros(|c|)
    decreases |c|
  {
    hide Add, Mul;
    if c != [] {
      var a := roots[0];
      var q := Divide(c, a);
      forall i | 0 <= i < |roots| - 1
        ensures Eval(q, roots[1..][i]) == 0
      {
        var t := roots[i + 1];
        DivideLaw(c, a, t);
        AddZero(Mul(Add(t, a), Eval(q, t)));
        AddIsZero(t, a);
        assert roots[0] != roots[i + 1];
        NoZeroDivisors(Add(t, a), Eval(q, t));
      }
      TooManyRoots(q, roots[1..]);
      ZeroQuotient(c, a);
    }
  }

  /** If a is a root and the quotient by (x - a) is zero, so is the polynomial. */
  lemma {:induction false} ZeroQuotient(c: Vector, a: byte)
    requires c != [] && Eval(c, a) == 0 && Divide(c, a) == Zeros(|c| - 1)
    ensures c == Zeros(|c|)
    decreases |c|
  {
    hide Add, Mul;
    MulZeroRight(a);
    AddZero(c[0]);
    if |c| == 1 {
      assert c[1..] == [];
    } else {
      var c' := c[1..];
      assert Divide(c, a)[0] == 0;
      assert Divide(c', a) == Divide(c, a)[1..];
      ZeroQuotient(c', a);
      assert c == [c[0]] + c';
    }
  }
}
