/** Vectors and matrices over GF(256), and the Gauss-Jordan inversion of fec.cpp. */
module LinearAlgebra {
  import opened Wrappers
  import opened Bytes
  import opened Gf256

  type Vector = seq<byte>
  type Matrix = seq<Vector>

  ghost predicate IsMatrix(m: Matrix, rows: nat, columns: nat) {
    |m| == rows && forall i :: 0 <= i < rows ==> |m[i]| == columns
  }

  /** The sum of u[k] * v[k] for k below n. */
  function DotTo(u: Vector, v: Vector, n: nat): byte
    requires n <= |u| && n <= |v|
  {
    if n == 0 then 0 else Add(DotTo(u, v, n - 1), Mul(u[n - 1], v[n - 1]))
  }

  function Dot(u: Vector, v: Vector): byte
    requires |u| >= |v|
  {
    DotTo(u, v, |v|)
  }

  ghost function MatVec(m: Matrix, v: Vector): (r: Vector)
    requires IsMatrix(m, |m|, |v|)
    ensures |r| == |m|
    ensures forall i :: 0 <= i < |m| ==> r[i] == Dot(m[i], v)
  {
    seq(|m|, i requires 0 <= i < |m| => Dot(m[i], v))
  }

  function Zeros(n: nat): (r: Vector)
    ensures |r| == n && forall k :: 0 <= k < n ==> r[k] == 0
  {
    seq(n, _ => 0)
  }

  function Unit(n: nat, i: nat): (r: Vector)
    requires i < n
    ensures |r| == n && forall k :: 0 <= k < n ==> r[k] == if k == i then 1 else 0
  {
    seq(n, k => if k == i then 1 else 0)
  }

  /** u + s * v */
  function Combine(u: Vector, s: byte, v: Vector): (r: Vector)
    requires |u| == |v|
    ensures |r| == |u|
    ensures forall k :: 0 <= k < |u| ==> r[k] == Add(u[k], Mul(s, v[k]))
  {
    seq(|u|, k requires 0 <= k < |u| => Add(u[k], Mul(s, v[k])))
  }

  function Scale(u: Vector, s: byte): (r: Vector)
    ensures |r| == |u|
    ensures forall k :: 0 <= k < |u| ==> r[k] == Mul(u[k], s)
  {
    seq(|u|, k requires 0 <= k < |u| => Mul(u[k], s))
  }

  // ----- inner products

  lemma {:induction false} DotCombine(u: Vector, s: byte, v: Vector, z: Vector, n: nat)
    requires |u| == |v| && n <= |u| && n <= |z|
    ensures DotTo(Combine(u, s, v), z, n) == Add(DotTo(u, z, n), Mul(s, DotTo(v, z, n)))
    decreases n
  {
    hide Add, Mul, Combine;
    if n == 0 {
      MulZeroRight(s);
      AddZero(0);
    } else {
      var k := n - 1;
      DotCombine(u, s, v, z, k);
      MulAddLeft(u[k], Mul(s, v[k]), z[k]);
      MulAssoc(s, v[k], z[k]);
      MulAddRight(s, DotTo(v, z, k), Mul(v[k], z[k]));
      Add4(DotTo(u, z, k), Mul(s, DotTo(v, z, k)), Mul(u[k], z[k]), Mul(s, Mul(v[k], z[k])));
    }
  }

  lemma {:induction false} DotScale(u: Vector, s: byte, z: Vector, n: nat)
    requires n <= |u| && n <= |z|
    ensures DotTo(Scale(u, s), z, n) == Mul(s, DotTo(u, z, n))
    decreases n
  {
    hide Add, Mul, Scale;
    if n == 0 {
      MulZeroRight(s);
    } else {
      var k := n - 1;
      DotScale(u, s, z, k);
      MulComm(u[k], s);
      MulAssoc(s, u[k], z[k]);
      MulAddRight(s, DotTo(u, z, k), Mul(u[k], z[k]));
    }
  }

  lemma {:induction false} DotUnit(u: Vector, i: nat, z: Vector, n: nat)
    requires n <= |u| && n <= |z|
    requires forall k :: 0 <= k < n ==> u[k] == if k == i then 1 else 0
    ensures DotTo(u, z, n) == if i < n then z[i] else 0
    decreases n
  {
    hide Add, Mul;
    if n > 0 {
      var k := n - 1;
      DotUnit(u, i, z, k);
      MulOneLeft(z[k]);
      MulZeroLeft(z[k]);
      AddZero(DotTo(u, z, k));
      AddZero(z[k]);
    }
  }

  lemma {:induction false} DotZeroLeft(u: Vector, z: Vector, n: nat)
    requires n <= |u| && n <= |z|
    requires forall k :: 0 <= k < n ==> u[k] == 0 || z[k] == 0
    ensures DotTo(u, z, n) == 0
    decreases n
  {
    hide Add, Mul;
    if n > 0 {
      var k := n - 1;
      DotZeroLeft(u, z, k);
      MulZeroLeft(z[k]);
      MulZeroRight(u[k]);
      AddZero(0);
    }
  }

  lemma {:induction false} DotUpdate(u: Vector, z: Vector, k: nat, v: byte, n: nat)
    requires n <= |u| && n <= |z| && k < |z| && z[k] == 0
    ensures DotTo(u, z[k := v], n) == if k < n then Add(DotTo(u, z, n), Mul(u[k], v)) else DotTo(u, z, n)
    decreases n
  {
    hide Add, Mul;
    if n > 0 {
      var j := n - 1;
      DotUpdate(u, z, k, v, j);
      if j == k {
        MulZeroRight(u[k]);
        AddZero(DotTo(u, z, j));
      } else if k < j {
        AddAssoc(DotTo(u, z, j), Mul(u[k], v), Mul(u[j], z[j]));
        AddComm(Mul(u[k], v), Mul(u[j], z[j]));
        AddAssoc(DotTo(u, z, j), Mul(u[j], z[j]), Mul(u[k], v));
      }
    }
  }

  /** Only the first n entries of either vector matter. */
  lemma {:induction false} DotPrefix(u: Vector, u': Vector, z: Vector, z': Vector, n: nat)
    requires n <= |u| && n <= |u'| && n <= |z| && n <= |z'|
    requires forall k :: 0 <= k < n ==> u[k] == u'[k] && z[k] == z'[k]
    ensures DotTo(u, z, n) == DotTo(u', z', n)
    decreases n
  {
    hide Add, Mul;
    if n > 0 {
      DotPrefix(u, u', z, z', n - 1);
    }
  }

  lemma {:induction false} DotConcat(a: Vector, b: Vector, x: Vector, y: Vector, n: nat)
    requires |a| == |x| && n <= |b| && n <= |y|
    ensures DotTo(a + b, x + y, |a| + n) == Add(Dot(a, x), DotTo(b, y, n))
    decreases n
  {
    hide Add, Mul;
    if n == 0 {
      DotPrefix(a + b, a, x + y, x, |a|);
      AddZero(Dot(a, x));
    } else {
      DotConcat(a, b, x, y, n - 1);
      AddAssoc(Dot(a, x), DotTo(b, y, n - 1), Mul(b[n - 1], y[n - 1]));
    }
  }
}
