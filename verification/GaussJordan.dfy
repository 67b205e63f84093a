/** The in-place Gauss-Jordan inversion of fec.cpp. */
module GaussJordan {
  import opened Wrappers
  import opened Bytes
  import opened Gf256
  import opened LinearAlgebra

  /** Only the zero vector is mapped to zero. */
  ghost predicate Nonsingular(a: Matrix)
    requires IsMatrix(a, |a|, |a|)
  {
    forall x: Vector :: |x| == |a| && MatVec(a, x) == Zeros(|a|) ==> x == Zeros(|a|)
  }

  /** b undoes a from the left and from the right. */
  ghost predicate IsInverse(a: Matrix, b: Matrix)
    requires IsMatrix(a, |a|, |a|)
  {
    IsMatrix(b, |a|, |a|) &&
    forall x: Vector, y: Vector :: |x| == |a| && |y| == |a| ==> (MatVec(a, x) == y <==> x == MatVec(b, y))
  }

  ghost predicate Annihilates(w: Matrix, z: Vector)
    requires IsMatrix(w, |w|, |z|)
  {
    forall i :: 0 <= i < |w| ==> Dot(w[i], z) == 0
  }

  ghost predicate SameKernel(w: Matrix, w': Matrix, width: nat)
  {
    IsMatrix(w, |w|, width) && IsMatrix(w', |w|, width) &&
    forall z: Vector :: |z| == width ==> (Annihilates(w, z) <==> Annihilates(w', z))
  }

  // ----- row operations keep the kernel

  lemma EliminateKeepsKernel(w: Matrix, row: nat, r: nat, s: byte, width: nat)
    requires IsMatrix(w, |w|, width) && row < |w| && r < |w| && row != r
    ensures SameKernel(w, w[row := Combine(w[row], s, w[r])], width)
  {
    hide Add, Mul, DotTo, Combine;
    var w' := w[row := Combine(w[row], s, w[r])];
    forall z: Vector | |z| == width
      ensures Annihilates(w, z) <==> Annihilates(w', z)
    {
      DotCombine(w[row], s, w[r], z, width);
      assert w'[r] == w[r];
      MulZeroRight(s);
      AddZero(Dot(w[row], z));
      if Annihilates(w, z) {
        assert Dot(w[r], z) == 0;
      }
      if Annihilates(w', z) {
        assert Dot(w'[r], z) == 0 && Dot(w'[row], z) == 0;
        forall i | 0 <= i < |w|
          ensures Dot(w[i], z) == 0
        {
          assert Dot(w'[i], z) == 0;
        }
      }
    }
  }

  lemma ScaleKeepsKernel(w: Matrix, r: nat, s: byte, width: nat)
    requires IsMatrix(w, |w|, width) && r < |w| && s != 0
    ensures SameKernel(w, w[r := Scale(w[r], s)], width)
  {
    hide Add, Mul, DotTo, Scale;
    var w' := w[r := Scale(w[r], s)];
    forall z: Vector | |z| == width
      ensures Annihilates(w, z) <==> Annihilates(w', z)
    {
      DotScale(w[r], s, z, width);
      MulZeroRight(s);
      if Annihilates(w', z) {
        assert Dot(w'[r], z) == 0;
        NoZeroDivisors(s, Dot(w[r], z));
        forall i | 0 <= i < |w|
          ensures Dot(w[i], z) == 0
        {
          assert Dot(w'[i], z) == 0;
        }
      }
    }
  }

  lemma SwapKeepsKernel(w: Matrix, i: nat, j: nat, width: nat)
    requires IsMatrix(w, |w|, width) && i < |w| && j < |w|
    ensures SameKernel(w, w[i := w[j]][j := w[i]], width)
  {
    hide DotTo;
    var w' := w[i := w[j]][j := w[i]];
    forall z: Vector | |z| == width
      ensures Annihilates(w, z) <==> Annihilates(w', z)
    {
      if Annihilates(w', z) {
        forall k | 0 <= k < |w|
          ensures Dot(w[k], z) == 0
        {
          assert w[k] == w'[if k == i then j else if k == j then i else k];
        }
      }
    }
  }

  lemma SameKernelTransitive(w: Matrix, w': Matrix, w'': Matrix, width: nat)
    requires SameKernel(w, w', width) && SameKernel(w', w'', width)
    ensures SameKernel(w, w'', width)
  {
    forall z: Vector | |z| == width
      ensures Annihilates(w, z) <==> Annihilates(w'', z)
    {
      assert Annihilates(w, z) <==> Annihilates(w', z);
    }
  }

  lemma SameKernelReflexive(w: Matrix, width: nat)
    requires IsMatrix(w, |w|, width)
    ensures SameKernel(w, w, width)
  {}

  // ----- the augmented matrix

  /** [a | identity] */
  ghost predicate Augmented(a: Matrix, w: Matrix)
    requires IsMatrix(a, |a|, |a|)
  {
    |w| == |a| && forall i :: 0 <= i < |a| ==> w[i] == a[i] + Unit(|a|, i)
  }

  /** (x, y) is in the kernel of [a | identity] exactly when a maps x to y. */
  lemma AugmentedKernel(a: Matrix, w: Matrix, x: Vector, y: Vector)
    requires IsMatrix(a, |a|, |a|) && Augmented(a, w) && |x| == |a| == |y|
    ensures Annihilates(w, x + y) <==> MatVec(a, x) == y
  {
    hide Add, Mul, DotTo;
    var n := |a|;
    forall i | 0 <= i < n
      ensures Dot(w[i], x + y) == 0 <==> MatVec(a, x)[i] == y[i]
    {
      DotConcat(a[i], Unit(n, i), x, y, n);
      DotUnit(Unit(n, i), i, y, n);
      AddIsZero(Dot(a[i], x), y[i]);
    }
    if Annihilates(w, x + y) {
      forall i | 0 <= i < n
        ensures MatVec(a, x)[i] == y[i]
      {
        assert Dot(w[i], x + y) == 0;
      }
    }
  }

  /** The pivots left of column r are one and everything below them is zero. */
  ghost predicate Triangular(w: Matrix, n: nat, r: nat)
    requires |w| == n >= r && forall i :: 0 <= i < n ==> |w[i]| == 2 * n
  {
    (forall c :: 0 <= c < r ==> w[c][c] == 1) &&
    forall c, i :: 0 <= c < r && c < i < n ==> w[i][c] == 0
  }

  ghost predicate UnitColumns(w: Matrix, n: nat, d: nat)
    requires |w| == n >= d && forall i :: 0 <= i < n ==> |w[i]| == 2 * n
  {
    forall c, i :: 0 <= c < d && 0 <= i < n ==> w[i][c] == if i == c then 1 else 0
  }

  ghost function RightHalf(w: Matrix, n: nat): (b: Matrix)
    requires IsMatrix(w, n, 2 * n)
    ensures IsMatrix(b, n, n)
    ensures forall i :: 0 <= i < n ==> b[i] == w[i][n..]
  {
    seq(n, i requires 0 <= i < n => w[i][n..])
  }

  lemma ReducedKernel(w: Matrix, n: nat, x: Vector, y: Vector)
    requires IsMatrix(w, n, 2 * n) && UnitColumns(w, n, n) && |x| == n == |y|
    ensures Annihilates(w, x + y) <==> x == MatVec(RightHalf(w, n), y)
  {
    hide Add, Mul, DotTo;
    var b := RightHalf(w, n);
    forall i | 0 <= i < n
      ensures Dot(w[i], x + y) == 0 <==> x[i] == MatVec(b, y)[i]
    {
      var left := w[i][..n];
      assert w[i] == left + b[i];
      DotConcat(left, b[i], x, y, n);
      DotUnit(left, i, x, n);
      AddIsZero(x[i], Dot(b[i], y));
    }
    if Annihilates(w, x + y) {
      forall i | 0 <= i < n
        ensures x[i] == MatVec(b, y)[i]
      {
        assert Dot(w[i], x + y) == 0;
      }
    }
  }

  /** When the left half has become the identity, the right half is the inverse. */
  lemma ReducedIsInverse(a: Matrix, w0: Matrix, w: Matrix)
    requires IsMatrix(a, |a|, |a|) && Augmented(a, w0)
    requires SameKernel(w0, w, 2 * |a|) && UnitColumns(w, |a|, |a|)
    ensures IsInverse(a, RightHalf(w, |a|))
    ensures Nonsingular(a)
  {
    hide Add, Mul, DotTo, Annihilates;
    var n, b := |a|, RightHalf(w, |a|);
    forall x: Vector, y: Vector | |x| == n && |y| == n
      ensures MatVec(a, x) == y <==> x == MatVec(b, y)
    {
      AugmentedKernel(a, w0, x, y);
      ReducedKernel(w, n, x, y);
      assert |x + y| == 2 * n;
    }
    forall x: Vector | |x| == n && MatVec(a, x) == Zeros(n)
      ensures x == Zeros(n)
    {
      assert x == MatVec(b, Zeros(n));
      forall i | 0 <= i < n
        ensures x[i] == 0
      {
        DotZeroLeft(b[i], Zeros(n), n);
      }
    }
  }

  // ----- a missing pivot gives a vector of the kernel

  /** Back substitution from column r, where the pivot is missing, up to row k. */
  ghost function BackSubstitute(w: Matrix, n: nat, r: nat, k: nat): (z: Vector)
    requires IsMatrix(w, n, 2 * n) && k <= r < n
    ensures |z| == 2 * n
    ensures z[r] == 1 && forall j :: 0 <= j < k || r < j < 2 * n ==> z[j] == 0
    decreases r - k
  {
    if k == r then Unit(2 * n, r)
    else
      var z := BackSubstitute(w, n, r, k + 1);
      z[k := Dot(w[k], z)]
  }

  lemma {:induction false} BackSubstituteSolves(w: Matrix, n: nat, r: nat, k: nat, i: nat)
    requires IsMatrix(w, n, 2 * n) && k <= r < n && Triangular(w, n, r)
    requires forall row :: r <= row < n ==> w[row][r] == 0
    requires k <= i < n
    ensures Dot(w[i], BackSubstitute(w, n, r, k)) == 0
    decreases r - k
  {
    hide Add, Mul, DotTo;
    var z := BackSubstitute(w, n, r, k);
    if r <= i {
      DotZeroLeft(w[i], z, 2 * n);
    } else {
      var z' := BackSubstitute(w, n, r, k + 1);
      DotUpdate(w[i], z', k, Dot(w[k], z'), 2 * n);
      if i == k {
        MulOneLeft(Dot(w[k], z'));
        AddSelf(Dot(w[k], z'));
      } else {
        BackSubstituteSolves(w, n, r, k + 1, i);
        MulZeroLeft(Dot(w[k], z'));
        AddZero(0);
      }
    }
  }

  lemma BackSubstituteAnnihilated(w: Matrix, n: nat, r: nat)
    requires IsMatrix(w, n, 2 * n) && r < n && Triangular(w, n, r)
    requires forall row :: r <= row < n ==> w[row][r] == 0
    ensures Annihilates(w, BackSubstitute(w, n, r, 0))
  {
    hide Add, Mul, DotTo, BackSubstitute;
    forall i | 0 <= i < n
      ensures Dot(w[i], BackSubstitute(w, n, r, 0)) == 0
    {
      BackSubstituteSolves(w, n, r, 0, i);
    }
  }

  lemma KernelVectorIsSingular(a: Matrix, w0: Matrix, w: Matrix, x: Vector, o: Vector)
    requires IsMatrix(a, |a|, |a|) && Augmented(a, w0)
    requires SameKernel(w0, w, 2 * |a|)
    requires |x| == |a| && x != o && o == Zeros(|a|)
    requires Annihilates(w, x + o)
    ensures !Nonsingular(a)
  {
    hide Dot, MatVec, Zeros, Annihilates, Augmented, IsMatrix;
    assert |x + o| == 2 * |a|;
    assert Annihilates(w0, x + o);
    assert MatVec(a, x) == o by {
      AugmentedKernel(a, w0, x, o);
    }
  }

  lemma MissingPivotIsSingular(a: Matrix, w0: Matrix, w: Matrix, r: nat)
    requires IsMatrix(a, |a|, |a|) && Augmented(a, w0)
    requires SameKernel(w0, w, 2 * |a|) && r < |a| && Triangular(w, |a|, r)
    requires forall row :: r <= row < |a| ==> w[row][r] == 0
    ensures !Nonsingular(a)
  {
    hide DotTo, BackSubstitute, MatVec, Annihilates;
    var n := |a|;
    var z := BackSubstitute(w, n, r, 0);
    BackSubstituteAnnihilated(w, n, r);
    assert z == z[..n] + Zeros(n);
    assert z[..n][r] != Zeros(n)[r];
    KernelVectorIsSingular(a, w0, w, z[..n], Zeros(n));
  }

  // ----- the inversion

  /** Adds scale times row r to the given row, column by column. */
  method EliminateRow(work: array<Vector>, row: nat, r: nat, scale: byte)
    requires row < work.Length && r < work.Length && row != r
    requires |work[row]| == |work[r]|
    modifies work
    ensures work[..] == old(work[..])[row := Combine(old(work[row]), scale, old(work[r]))]
  {
    hide Add, Mul;
    ghost var before := work[..];
    for c := 0 to |work[r]|
      invariant work[..] == before[row := work[row]]
      invariant |work[row]| == |before[row]|
      invariant forall k :: 0 <= k < c ==> work[row][k] == Add(before[row][k], Mul(scale, before[r][k]))
      invariant forall k :: c <= k < |before[row]| ==> work[row][k] == before[row][k]
    {
      assert work[r] == before[r];
      var product := GfMul(scale, work[r][c]);
      AddIsXor(work[row][c], product);
      work[row] := work[row][c := work[row][c] ^ product];
    }
    assert work[row] == Combine(before[row], scale, before[r]);
  }

  method ScaleRow(work: array<Vector>, r: nat, scale: byte)
    requires r < work.Length
    modifies work
    ensures work[..] == old(work[..])[r := Scale(old(work[r]), scale)]
  {
    hide Add, Mul;
    ghost var before := work[..];
    for c := 0 to |work[r]|
      invariant work[..] == before[r := work[r]]
      invariant |work[r]| == |before[r]|
      invariant forall k :: 0 <= k < c ==> work[r][k] == Mul(before[r][k], scale)
      invariant forall k :: c <= k < |before[r]| ==> work[r][k] == before[r][k]
    {
      var product := GfMul(work[r][c], scale);
      work[r] := work[r][c := product];
    }
    assert work[r] == Scale(before[r], scale);
  }

  lemma AddIsXor(a: byte, b: byte)
    ensures Add(a, b) == a ^ b
  {}

  /** The pivot of column r is one and the rows between r and the given row are already cleared. */
  ghost predicate ClearedBelow(w: Matrix, n: nat, r: nat, row: nat) {
    IsMatrix(w, n, 2 * n) && r < row <= n && Triangular(w, n, r) && w[r][r] == 1 &&
    forall i :: r < i < row ==> w[i][r] == 0
  }

  lemma EliminationClearsBelow(w: Matrix, n: nat, r: nat, row: nat)
    requires row < n && ClearedBelow(w, n, r, row)
    ensures IsMatrix(w, n, 2 * n) && |w[row]| == |w[r]|
    ensures IsMatrix(w[row := Combine(w[row], w[row][r], w[r])], n, 2 * n)
    ensures ClearedBelow(w[row := Combine(w[row], w[row][r], w[r])], n, r, row + 1)
    ensures w[row][r] == 0 ==> ClearedBelow(w, n, r, row + 1)
  {
    hide Add, Mul;
    var s := w[row][r];
    MulOneRight(s);
    AddSelf(s);
    MulZeroRight(s);
    AddZero(0);
  }

  lemma ClearedBelowEnds(w: Matrix, n: nat, r: nat)
    requires r < n && IsMatrix(w, n, 2 * n)
    ensures Triangular(w, n, r) && w[r][r] == 1 ==> ClearedBelow(w, n, r, r + 1)
    ensures ClearedBelow(w, n, r, n) ==> Triangular(w, n, r + 1)
  {}

  /** The columns left of d are unit columns, and so is column d down to the given row. */
  ghost predicate ClearedAbove(w: Matrix, n: nat, d: nat, row: nat) {
    IsMatrix(w, n, 2 * n) && row <= d < n && Triangular(w, n, n) && UnitColumns(w, n, d) &&
    forall i :: 0 <= i < row ==> w[i][d] == 0
  }

  lemma EliminationClearsAbove(w: Matrix, n: nat, d: nat, row: nat)
    requires row < d && ClearedAbove(w, n, d, row)
    ensures IsMatrix(w, n, 2 * n) && |w[row]| == |w[d]|
    ensures IsMatrix(w[row := Combine(w[row], w[row][d], w[d])], n, 2 * n)
    ensures ClearedAbove(w[row := Combine(w[row], w[row][d], w[d])], n, d, row + 1)
    ensures w[row][d] == 0 ==> ClearedAbove(w, n, d, row + 1)
  {
    hide Add, Mul;
    var s := w[row][d];
    MulOneRight(s);
    AddSelf(s);
    MulZeroRight(s);
    var w' := w[row := Combine(w[row], s, w[d])];
    forall c | 0 <= c < n && c != d && w[d][c] == 0
      ensures w'[row][c] == w[row][c]
    {
      AddZero(w[row][c]);
    }
  }

  lemma ClearedAboveEnds(w: Matrix, n: nat, d: nat)
    requires d < n && IsMatrix(w, n, 2 * n)
    ensures Triangular(w, n, n) && UnitColumns(w, n, d) ==> ClearedAbove(w, n, d, 0)
    ensures ClearedAbove(w, n, d, d) ==> Triangular(w, n, n) && UnitColumns(w, n, d + 1)
  {}

  /** Brings a non-zero entry to the pivot position, when column r still has one. */
  method FindPivot(work: array<Vector>, n: nat, r: nat)
    requires work.Length == n && r < n && IsMatrix(work[..], n, 2 * n) && Triangular(work[..], n, r)
    modifies work
    ensures IsMatrix(work[..], n, 2 * n) && Triangular(work[..], n, r)
    ensures SameKernel(old(work[..]), work[..], 2 * n)
    ensures work[r][r] == 0 ==> forall row :: r <= row < n ==> work[row][r] == 0
  {
    if work[r][r] == 0 {
      var rowBelow := r + 1;
      while rowBelow < n
        invariant r < rowBelow <= n
        invariant work[..] == old(work[..])
        invariant forall row :: r <= row < rowBelow ==> work[row][r] == 0
      {
        if work[rowBelow][r] != 0 {
          SwapKeepsKernel(work[..], r, rowBelow, 2 * n);
          work[r], work[rowBelow] := work[rowBelow], work[r];
          assert work[..] == old(work[..])[r := old(work[rowBelow])][rowBelow := old(work[r])];
          return;
        }
        rowBelow := rowBelow + 1;
      }
    }
  }

  /** Turns the column below the pivot of row r into zeros. */
  method EliminateBelow(work: array<Vector>, n: nat, r: nat)
    requires work.Length == n && r < n && IsMatrix(work[..], n, 2 * n)
    requires Triangular(work[..], n, r) && work[r][r] == 1
    modifies work
    ensures IsMatrix(work[..], n, 2 * n) && Triangular(work[..], n, r + 1)
    ensures SameKernel(old(work[..]), work[..], 2 * n)
  {
    hide Combine, Triangular, UnitColumns, SameKernel, ClearedBelow, ClearedAbove;
    SameKernelReflexive(work[..], 2 * n);
    ClearedBelowEnds(work[..], n, r);
    for row := r + 1 to n
      invariant IsMatrix(work[..], n, 2 * n) && ClearedBelow(work[..], n, r, row)
      invariant SameKernel(old(work[..]), work[..], 2 * n)
    {
      ghost var w := work[..];
      EliminationClearsBelow(w, n, r, row);
      if work[row][r] == 0 {
        continue;
      }
      var scale := work[row][r];
      EliminateKeepsKernel(w, row, r, scale, 2 * n);
      EliminateRow(work, row, r, scale);
      SameKernelTransitive(old(work[..]), w, work[..], 2 * n);
    }
    ClearedBelowEnds(work[..], n, r);
  }

  /** Turns the column above the pivot of row d into zeros. */
  method EliminateAbove(work: array<Vector>, n: nat, d: nat)
    requires work.Length == n && d < n && IsMatrix(work[..], n, 2 * n)
    requires Triangular(work[..], n, n) && UnitColumns(work[..], n, d)
    modifies work
    ensures IsMatrix(work[..], n, 2 * n) && Triangular(work[..], n, n) && UnitColumns(work[..], n, d + 1)
    ensures SameKernel(old(work[..]), work[..], 2 * n)
  {
    hide Combine, Triangular, UnitColumns, SameKernel, ClearedBelow, ClearedAbove;
    SameKernelReflexive(work[..], 2 * n);
    ClearedAboveEnds(work[..], n, d);
    for row := 0 to d
      invariant IsMatrix(work[..], n, 2 * n) && ClearedAbove(work[..], n, d, row)
      invariant SameKernel(old(work[..]), work[..], 2 * n)
    {
      ghost var w := work[..];
      EliminationClearsAbove(w, n, d, row);
      if work[row][d] == 0 {
        continue;
      }
      var scale := work[row][d];
      EliminateKeepsKernel(w, row, d, scale, 2 * n);
      EliminateRow(work, row, d, scale);
      SameKernelTransitive(old(work[..]), w, work[..], 2 * n);
    }
    ClearedAboveEnds(work[..], n, d);
  }

  /** Makes the pivot of row r one. */
  method NormalizePivot(work: array<Vector>, n: nat, r: nat)
    requires work.Length == n && r < n && IsMatrix(work[..], n, 2 * n)
    requires Triangular(work[..], n, r) && work[r][r] != 0
    modifies work
    ensures IsMatrix(work[..], n, 2 * n) && Triangular(work[..], n, r) && work[r][r] == 1
    ensures SameKernel(old(work[..]), work[..], 2 * n)
  {
    if work[r][r] != 1 {
      var scale := GfInv(work[r][r]);
      InverseIsNonzero(work[r][r], scale.value);
      ScalingKeepsTriangle(work[..], n, r, scale.value);
      ScaleKeepsKernel(work[..], r, scale.value, 2 * n);
      ScaleRow(work, r, scale.value);
    }
  }

  lemma InverseIsNonzero(a: byte, b: byte)
    requires Mul(a, b) == 1
    ensures b != 0
  {
    hide Mul;
    MulZeroRight(a);
  }

  lemma ScalingKeepsTriangle(w: Matrix, n: nat, r: nat, s: byte)
    requires IsMatrix(w, n, 2 * n) && r < n && Triangular(w, n, r) && Mul(w[r][r], s) == 1
    ensures var w' := w[r := Scale(w[r], s)];
            IsMatrix(w', n, 2 * n) && Triangular(w', n, r) && w'[r][r] == 1
  {
    hide Mul;
    MulZeroLeft(s);
  }

  /** Eliminates below the diagonal, or finds that a pivot is missing. */
  method ForwardPhase(work: array<Vector>, input: Matrix) returns (singular: bool)
    requires work.Length == |input| && IsMatrix(input, |input|, |input|) && Augmented(input, work[..])
    modifies work
    ensures singular ==> !Nonsingular(input)
    ensures !singular ==> IsMatrix(work[..], |input|, 2 * |input|) && Triangular(work[..], |input|, |input|)
    ensures !singular ==> SameKernel(old(work[..]), work[..], 2 * |input|)
  {
    ghost var w0 := work[..];
    var n := |input|;
    assert IsMatrix(w0, n, 2 * n);
    hide Augmented, SameKernel, Nonsingular;
    SameKernelReflexive(w0, 2 * n);
    for r := 0 to n
      invariant IsMatrix(work[..], n, 2 * n) && Triangular(work[..], n, r)
      invariant SameKernel(w0, work[..], 2 * n)
    {
      ghost var w := work[..];
      FindPivot(work, n, r);
      SameKernelTransitive(w0, w, work[..], 2 * n);
      if work[r][r] == 0 {
        MissingPivotIsSingular(input, w0, work[..], r);
        return true;
      }
      w := work[..];
      NormalizePivot(work, n, r);
      SameKernelTransitive(w0, w, work[..], 2 * n);
      w := work[..];
      EliminateBelow(work, n, r);
      SameKernelTransitive(w0, w, work[..], 2 * n);
    }
    return false;
  }

  /** Eliminates above the diagonal. */
  method BackwardPhase(work: array<Vector>, n: nat)
    requires work.Length == n && IsMatrix(work[..], n, 2 * n) && Triangular(work[..], n, n)
    modifies work
    ensures IsMatrix(work[..], n, 2 * n) && UnitColumns(work[..], n, n)
    ensures SameKernel(old(work[..]), work[..], 2 * n)
  {
    ghost var w0 := work[..];
    SameKernelReflexive(w0, 2 * n);
    hide SameKernel;
    for d := 0 to n
      invariant IsMatrix(work[..], n, 2 * n) && Triangular(work[..], n, n) && UnitColumns(work[..], n, d)
      invariant SameKernel(w0, work[..], 2 * n)
    {
      ghost var w := work[..];
      EliminateAbove(work, n, d);
      SameKernelTransitive(w0, w, work[..], 2 * n);
    }
  }

  /** The inverse, or the report that there is none. */
  method InvertMatrix(input: Matrix) returns (result: Result<Matrix>)
    requires IsMatrix(input, |input|, |input|)
    ensures result.Success? <==> Nonsingular(input)
    ensures result.Success? ==> IsInverse(input, result.value)
  {
    hide SameKernel, Nonsingular, IsInverse, Triangular;
    var n := |input|;
    var work := new Vector[n];
    for r := 0 to n
      invariant forall i :: 0 <= i < r ==> work[i] == input[i] + Unit(n, i)
    {
      work[r] := input[r] + Unit(n, r);
    }
    ghost var w0 := work[..];

    var singular := ForwardPhase(work, input);
    if singular {
      return Failure("singular Reed-Solomon matrix");
    }
    ghost var w := work[..];
    BackwardPhase(work, n);
    SameKernelTransitive(w0, w, work[..], 2 * n);
    ReducedIsInverse(input, w0, work[..]);

    var output: Matrix := [];
    for r := 0 to n
      invariant |output| == r && forall i :: 0 <= i < r ==> output[i] == work[i][n..]
    {
      output := output + [work[r][n..]];
    }
    assert output == RightHalf(work[..], n);
    return Success(output);
  }
}
