/** The systematic Vandermonde code of fec.cpp: its matrix and why any data_shards rows determine the data. */
module CodeMatrix {
  import opened Wrappers
  import opened Bytes
  import opened Gf256
  import opened LinearAlgebra
  import opened GaussJordan
  import opened Polynomials

  /** The i-th evaluation point. */
  function Point(i: nat): byte
    requires i < 256
  {
    ByteOf(i)
  }

  lemma PointsDiffer(i: nat, j: nat)
    requires i < 256 && j < 256 && i != j
    ensures Point(i) != Point(j)
  {
    hide ByteOf;
    NatOfByteOf(i);
    NatOfByteOf(j);
  }

  /** c is the polynomial of degree below |x| with the data x as its values at the first points. */
  ghost predicate Interpolates(c: Vector, x: Vector)
    requires |x| <= 256
  {
    |c| == |x| && forall i :: 0 <= i < |x| ==> Eval(c, Point(i)) == x[i]
  }

  /** Row i of the code matrix maps the data to the value at point i of the interpolating polynomial. */
  ghost predicate IsCodeMatrix(m: Matrix, d: nat, total: nat) {
    1 <= d <= total <= 256 && IsMatrix(m, total, d) &&
    forall x: Vector :: |x| == d ==> CodewordIsPolynomial(m, x)
  }

  ghost predicate CodewordIsPolynomial(m: Matrix, x: Vector)
    requires |m| <= 256 && |x| <= 256 && IsMatrix(m, |m|, |x|)
  {
    exists c: Vector :: Interpolates(c, x) && forall i :: 0 <= i < |m| ==> Dot(m[i], x) == Eval(c, Point(i))
  }

  /** The code is systematic: the first d shards are the data. */
  lemma SystematicRow(m: Matrix, d: nat, total: nat, i: nat, x: Vector)
    requires IsCodeMatrix(m, d, total) && i < d == |x|
    ensures Dot(m[i], x) == x[i]
  {
    hide Dot, Eval;
    assert CodewordIsPolynomial(m, x);
  }

  lemma SystematicIsIdentity(m: Matrix, d: nat, total: nat, i: nat)
    requires IsCodeMatrix(m, d, total) && i < d
    ensures m[i] == Unit(d, i)
  {
    hide DotTo;
    forall k | 0 <= k < d
      ensures m[i][k] == Unit(d, i)[k]
    {
      var unit := Unit(d, k);
      SystematicRow(m, d, total, i, unit);
      DotComm(m[i], unit, d);
      DotUnit(unit, k, m[i], d);
    }
  }

  lemma {:induction false} DotComm(u: Vector, v: Vector, n: nat)
    requires n <= |u| && n <= |v|
    ensures DotTo(u, v, n) == DotTo(v, u, n)
    decreases n
  {
    hide Add, Mul;
    if n > 0 {
      DotComm(u, v, n - 1);
      MulComm(u[n - 1], v[n - 1]);
    }
  }

  ghost predicate DistinctIndices(indices: seq<nat>, total: nat) {
    (forall k :: 0 <= k < |indices| ==> indices[k] < total) &&
    forall j, k :: 0 <= j < k < |indices| ==> indices[j] != indices[k]
  }

  function SubMatrix(m: Matrix, indices: seq<nat>): (s: Matrix)
    requires forall k :: 0 <= k < |indices| ==> indices[k] < |m|
    ensures |s| == |indices| && forall k :: 0 <= k < |indices| ==> s[k] == m[indices[k]]
  {
    seq(|indices|, k requires 0 <= k < |indices| => m[indices[k]])
  }

  /** Values zero at d distinct points force the interpolating polynomial, and with it the data, to be zero. */
  lemma ZeroShardsZeroData(c: Vector, x: Vector, indices: seq<nat>)
    requires |x| <= 256 && Interpolates(c, x)
    requires |indices| == |x| && DistinctIndices(indices, 256)
    requires forall k :: 0 <= k < |indices| ==> Eval(c, Point(indices[k])) == 0
    ensures x == Zeros(|x|)
  {
    hide Eval, Point;
    var roots: Vector := seq(|x|, k requires 0 <= k < |x| => Point(indices[k]));
    forall j, k | 0 <= j < k < |roots|
      ensures roots[j] != roots[k]
    {
      PointsDiffer(indices[j], indices[k]);
    }
    TooManyRoots(c, roots);
    forall i | 0 <= i < |x|
      ensures x[i] == 0
    {
      EvalZeros(c, Point(i));
    }
  }

  /** Data that every chosen row maps to zero are zero. */
  lemma ChosenRowsZero(m: Matrix, d: nat, total: nat, indices: seq<nat>, x: Vector)
    requires IsCodeMatrix(m, d, total) && |x| == d
    requires |indices| == d && DistinctIndices(indices, total)
    requires forall k :: 0 <= k < d ==> Dot(m[indices[k]], x) == 0
    ensures x == Zeros(d)
  {
    hide Dot, Eval;
    assert CodewordIsPolynomial(m, x);
    var c: Vector :| Interpolates(c, x) && forall i :: 0 <= i < |m| ==> Dot(m[i], x) == Eval(c, Point(i));
    forall k | 0 <= k < d
      ensures Eval(c, Point(indices[k])) == 0
    {
      assert Dot(m[indices[k]], x) == Eval(c, Point(indices[k]));
    }
    ZeroShardsZeroData(c, x, indices);
  }

  /** MDS: every choice of d rows of the code matrix is invertible. */
  lemma AnyRowsNonsingular(m: Matrix, d: nat, total: nat, indices: seq<nat>)
    requires IsCodeMatrix(m, d, total)
    requires |indices| == d && DistinctIndices(indices, total)
    ensures Nonsingular(SubMatrix(m, indices))
  {
    hide Dot, CodewordIsPolynomial;
    var s := SubMatrix(m, indices);
    forall x: Vector | |x| == d && MatVec(s, x) == Zeros(d)
      ensures x == Zeros(d)
    {
      forall k | 0 <= k < d ensures Dot(m[indices[k]], x) == 0 {
        assert MatVec(s, x)[k] == 0;
      }
      ChosenRowsZero(m, d, total, indices, x);
    }
  }

  // ----- building the matrix

  ghost function Vandermonde(total: nat, d: nat): (v: Matrix)
    requires total <= 256
    ensures IsMatrix(v, total, d)
    ensures forall i :: 0 <= i < total ==> v[i] == PowerRow(Point(i), d)
  {
    seq(total, i requires 0 <= i < total => PowerRow(Point(i), d))
  }

  lemma VandermondeTopNonsingular(d: nat)
    requires d <= 256
    ensures Nonsingular(Vandermonde(d, d))
  {
    hide Dot, Eval, PowerRow;
    var top := Vandermonde(d, d);
    forall c: Vector | |c| == d && MatVec(top, c) == Zeros(d)
      ensures c == Zeros(d)
    {
      var roots: Vector := seq(d, k requires 0 <= k < d => Point(k));
      forall j, k | 0 <= j < k < d
        ensures roots[j] != roots[k]
      {
        PointsDiffer(j, k);
      }
      forall k | 0 <= k < d
        ensures Eval(c, roots[k]) == 0
      {
        DotPowerRowIsEval(Point(k), c);
        assert MatVec(top, c)[k] == 0;
      }
      TooManyRoots(c, roots);
    }
  }
}
