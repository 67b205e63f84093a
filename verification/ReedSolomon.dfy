/** The Reed-Solomon coder of fec.cpp: building the matrix, encoding parity shards, restoring lost data shards. */
module ReedSolomonCoder {
  import opened Wrappers
  import opened Bytes
  import opened Gf256
  import opened LinearAlgebra
  import opened GaussJordan
  import opened Polynomials
  import opened CodeMatrix

  // ----- matrix product

  function Column(m: Matrix, c: nat): (v: Vector)
    ensures |v| == |m|
    ensures forall i :: 0 <= i < |m| ==> v[i] == if c < |m[i]| then m[i][c] else 0
  {
    seq(|m|, i requires 0 <= i < |m| => if c < |m[i]| then m[i][c] else 0)
  }

  method MultiplyMatrix(left: Matrix, right: Matrix) returns (out: Matrix)
    requires |right| > 0 && IsMatrix(right, |right|, |right[0]|) && IsMatrix(left, |left|, |right|)
    ensures IsMatrix(out, |left|, |right[0]|)
    ensures forall x: Vector :: |x| == |right[0]| ==> MatVec(out, x) == MatVec(left, MatVec(right, x))
  {
    hide Add, Mul, DotTo, MatVec;
    out := [];
    for r := 0 to |left|
      invariant IsMatrix(out, r, |right[0]|)
      invariant forall i, c :: 0 <= i < r && 0 <= c < |right[0]| ==> out[i][c] == Dot(left[i], Column(right, c))
    {
      var row := MultiplyRow(left[r], right);
      out := out + [row];
    }
    forall x: Vector | |x| == |right[0]|
      ensures MatVec(out, x) == MatVec(left, MatVec(right, x))
    {
      forall r | 0 <= r < |left|
        ensures MatVec(out, x)[r] == MatVec(left, MatVec(right, x))[r]
      {
        ProductRow(left[r], right, out[r], x);
      }
    }
  }

  method MultiplyRow(left: Vector, right: Matrix) returns (row: Vector)
    requires |right| > 0 && IsMatrix(right, |right|, |right[0]|) && |left| == |right|
    ensures |row| == |right[0]| && forall c :: 0 <= c < |row| ==> row[c] == Dot(left, Column(right, c))
  {
    hide Add, Mul;
    row := [];
    for c := 0 to |right[0]|
      invariant |row| == c && forall k :: 0 <= k < c ==> row[k] == Dot(left, Column(right, k))
    {
      var value: byte := 0;
      for i := 0 to |right|
        invariant value == DotTo(left, Column(right, c), i)
      {
        var product := GfMul(left[i], right[i][c]);
        AddIsXor(value, product);
        value := value ^ product;
      }
      row := row + [value];
    }
  }

  /** The combination of the first k rows of m with the coefficients l. */
  ghost function CombineRows(l: Vector, m: Matrix, k: nat, columns: nat): (v: Vector)
    requires k <= |m| && k <= |l| && IsMatrix(m, |m|, columns)
    ensures |v| == columns
  {
    if k == 0 then Zeros(columns) else Combine(CombineRows(l, m, k - 1, columns), l[k - 1], m[k - 1])
  }

  lemma {:induction false} CombineRowsEntry(l: Vector, m: Matrix, k: nat, columns: nat, c: nat)
    requires k <= |m| && k <= |l| && IsMatrix(m, |m|, columns) && c < columns
    ensures CombineRows(l, m, k, columns)[c] == DotTo(l, Column(m, c), k)
    decreases k
  {
    hide Add, Mul;
    if k > 0 {
      CombineRowsEntry(l, m, k - 1, columns, c);
    }
  }

  lemma {:induction false} CombineRowsDot(l: Vector, m: Matrix, k: nat, x: Vector)
    requires k <= |m| && k <= |l| && IsMatrix(m, |m|, |x|)
    ensures Dot(CombineRows(l, m, k, |x|), x) == DotTo(l, MatVec(m, x), k)
    decreases k
  {
    hide Add, Mul;
    if k == 0 {
      DotZeroLeft(Zeros(|x|), x, |x|);
    } else {
      CombineRowsDot(l, m, k - 1, x);
      DotCombine(CombineRows(l, m, k - 1, |x|), l[k - 1], m[k - 1], x, |x|);
    }
  }

  lemma ProductRow(l: Vector, m: Matrix, row: Vector, x: Vector)
    requires IsMatrix(m, |m|, |x|) && |l| == |m| && |row| == |x|
    requires forall c :: 0 <= c < |x| ==> row[c] == Dot(l, Column(m, c))
    ensures Dot(row, x) == Dot(l, MatVec(m, x))
  {
    hide DotTo, CombineRows;
    var v := CombineRows(l, m, |m|, |x|);
    forall c | 0 <= c < |x|
      ensures row[c] == v[c]
    {
      CombineRowsEntry(l, m, |m|, |x|, c);
    }
    assert row == v;
    CombineRowsDot(l, m, |m|, x);
  }

  // ----- the code matrix

  method BuildVandermonde(totalShards: nat, dataShards: nat) returns (v: Matrix)
    requires totalShards <= 256
    ensures v == Vandermonde(totalShards, dataShards)
  {
    hide Pow;
    v := [];
    for r := 0 to totalShards
      invariant IsMatrix(v, r, dataShards)
      invariant forall i :: 0 <= i < r ==> v[i] == PowerRow(Point(i), dataShards)
    {
      var row: Vector := [];
      for c := 0 to dataShards
        invariant |row| == c && forall k :: 0 <= k < c ==> row[k] == Pow(Point(r), k)
      {
        var entry := GfPow(Point(r), c);
        row := row + [entry];
      }
      assert row == PowerRow(Point(r), dataShards);
      v := v + [row];
    }
  }

  /** The matrix; the inversion inside never reports a singular matrix. */
  method BuildRsMatrix(dataShards: nat, totalShards: nat) returns (result: Result<Matrix>)
    requires 1 <= dataShards <= totalShards <= 256
    ensures result.Success? && IsCodeMatrix(result.value, dataShards, totalShards)
  {
    hide IsCodeMatrix, Vandermonde, Nonsingular, IsInverse;
    var vandermonde := BuildVandermonde(totalShards, dataShards);
    var top := vandermonde[..dataShards];
    assert top == Vandermonde(dataShards, dataShards);
    VandermondeTopNonsingular(dataShards);
    var inverse := InvertMatrix(top);
    InverseIsMatrix(top, inverse.value);
    var matrix := MultiplyMatrix(vandermonde, inverse.value);
    ProductIsCodeMatrix(dataShards, totalShards, inverse.value, matrix);
    return Success(matrix);
  }

  lemma InverseIsMatrix(a: Matrix, b: Matrix)
    requires IsMatrix(a, |a|, |a|) && IsInverse(a, b)
    ensures IsMatrix(b, |a|, |a|)
  {}

  lemma ProductIsCodeMatrix(d: nat, total: nat, inverse: Matrix, m: Matrix)
    requires 1 <= d <= total <= 256
    requires IsInverse(Vandermonde(d, d), inverse)
    requires IsMatrix(m, total, d)
    requires forall x: Vector :: |x| == d ==> MatVec(m, x) == MatVec(Vandermonde(total, d), MatVec(inverse, x))
    ensures IsCodeMatrix(m, d, total)
  {
    forall x: Vector | |x| == d
      ensures CodewordIsPolynomial(m, x)
    {
      ProductIsPolynomial(d, total, inverse, m, x);
    }
  }

  lemma ProductIsPolynomial(d: nat, total: nat, inverse: Matrix, m: Matrix, x: Vector)
    requires 1 <= d <= total <= 256 && |x| == d
    requires IsInverse(Vandermonde(d, d), inverse)
    requires IsMatrix(m, total, d)
    requires MatVec(m, x) == MatVec(Vandermonde(total, d), MatVec(inverse, x))
    ensures CodewordIsPolynomial(m, x)
  {
    hide DotTo, Eval, PowerRow;
    var c := MatVec(inverse, x);
    assert MatVec(Vandermonde(d, d), c) == x;
    forall i | 0 <= i < total
      ensures Dot(m[i], x) == Eval(c, Point(i))
    {
      assert Dot(m[i], x) == MatVec(m, x)[i];
      DotPowerRowIsEval(Point(i), c);
    }
    forall i | 0 <= i < d
      ensures Eval(c, Point(i)) == x[i]
    {
      assert MatVec(Vandermonde(d, d), c)[i] == Dot(PowerRow(Point(i), d), c);
      DotPowerRowIsEval(Point(i), c);
    }
    assert Interpolates(c, x);
  }

  // ----- shards

  /** The shard that the given matrix row makes of the data; shards that are too short count as padded with zeros. */
  function EncodedShard(row: Vector, data: seq<Vector>, len: nat): (s: Vector)
    requires |row| == |data|
    ensures |s| == len
  {
    seq(len, i requires 0 <= i < len => Dot(row, Column(data, i)))
  }

  function FirstPresentBelow(present: seq<bool>, limit: nat, n: nat): (v: seq<nat>)
    requires n <= |present|
    ensures |v| <= limit && |v| <= n && forall k :: 0 <= k < |v| ==> v[k] < n
    decreases n
  {
    if n == 0 then []
    else
      var v := FirstPresentBelow(present, limit, n - 1);
      if present[n - 1] && |v| < limit then v + [n - 1] else v
  }

  /** The lowest present indices, at most limit of them. */
  function FirstPresent(present: seq<bool>, limit: nat): (v: seq<nat>)
    ensures |v| <= limit && forall k :: 0 <= k < |v| ==> v[k] < |present|
  {
    FirstPresentBelow(present, limit, |present|)
  }

  /** The chosen indices differ, are present, and include every present index below the limit. */
  lemma {:induction false} FirstPresentFacts(present: seq<bool>, limit: nat, n: nat)
    requires n <= |present|
    ensures var v := FirstPresentBelow(present, limit, n);
            DistinctIndices(v, n) && (forall k :: 0 <= k < |v| ==> present[v[k]]) &&
            forall i :: 0 <= i < n && i < limit && present[i] ==> i in v
    decreases n
  {
    if n > 0 {
      FirstPresentFacts(present, limit, n - 1);
    }
  }

  function CountBelow(present: seq<bool>, n: nat): nat
    requires n <= |present|
    decreases n
  {
    if n == 0 then 0 else CountBelow(present, n - 1) + if present[n - 1] then 1 else 0
  }

  lemma {:induction false} FirstPresentCount(present: seq<bool>, limit: nat, n: nat)
    requires n <= |present|
    ensures |FirstPresentBelow(present, limit, n)|
         == if CountBelow(present, n) < limit then CountBelow(present, n) else limit
    decreases n
  {
    if n > 0 {
      FirstPresentCount(present, limit, n - 1);
    }
  }

  lemma {:induction false} FirstPresentStops(present: seq<bool>, limit: nat, n: nat, m: nat)
    requires n <= m <= |present| && |FirstPresentBelow(present, limit, n)| == limit
    ensures FirstPresentBelow(present, limit, m) == FirstPresentBelow(present, limit, n)
    decreases m
  {
    if n < m {
      FirstPresentStops(present, limit, n, m - 1);
    }
  }

  /** The data, as the first shards of the group, are what encodes to the shards at the given indices. */
  ghost predicate Explains(m: Matrix, indices: seq<nat>, shards: seq<Vector>, len: nat, data: seq<Vector>)
    requires IsMatrix(m, |m|, |data|)
    requires forall k :: 0 <= k < |indices| ==> indices[k] < |m| && indices[k] < |shards|
  {
    forall k, c :: 0 <= k < |indices| && 0 <= c < len && c < |shards[indices[k]]| ==>
      Dot(m[indices[k]], Column(data, c)) == shards[indices[k]][c]
  }

  method AddScaled(target: Vector, coefficient: byte, shard: Vector, count: nat) returns (out: Vector)
    requires count <= |target| && count <= |shard|
    ensures |out| == |target|
    ensures forall i :: 0 <= i < |out| ==>
      out[i] == if i < count then Add(target[i], Mul(coefficient, shard[i])) else target[i]
  {
    hide Add, Mul;
    out := target;
    for i := 0 to count
      invariant |out| == |target|
      invariant forall k :: 0 <= k < |out| ==>
        out[k] == if k < i then Add(target[k], Mul(coefficient, shard[k])) else target[k]
    {
      var product := GfMul(coefficient, shard[i]);
      AddIsXor(out[i], product);
      out := out[i := out[i] ^ product];
    }
  }

  class ReedSolomon {
    const dataShards: nat
    const parityShards: nat
    const totalShards: nat
    const matrix: Matrix

    ghost predicate Valid() {
      totalShards == dataShards + parityShards && IsCodeMatrix(matrix, dataShards, totalShards)
    }

    constructor (dataShards: nat, parityShards: nat)
      requires dataShards >= 1 && dataShards + parityShards <= 256
      ensures Valid() && this.dataShards == dataShards && this.parityShards == parityShards
    {
      var built := BuildRsMatrix(dataShards, dataShards + parityShards);
      this.dataShards := dataShards;
      this.parityShards := parityShards;
      this.totalShards := dataShards + parityShards;
      this.matrix := built.value;
    }

    method Encode(data: seq<Vector>, parity: seq<Vector>) returns (out: seq<Vector>)
      requires Valid() && |data| == dataShards && |parity| == parityShards
      requires forall p, d :: 0 <= p < parityShards && 0 <= d < dataShards ==> |data[d]| <= |parity[p]|
      ensures |out| == parityShards
      ensures forall p :: 0 <= p < parityShards ==>
        out[p] == EncodedShard(matrix[dataShards + p], data, |parity[p]|)
    {
      hide EncodedShard, CodewordIsPolynomial;
      out := [];
      for p := 0 to parityShards
        invariant |out| == p
        invariant forall q :: 0 <= q < p ==> out[q] == EncodedShard(matrix[dataShards + q], data, |parity[q]|)
      {
        var row := matrix[dataShards + p];
        var shard := CombineShards(row, data, |parity[p]|);
        out := out + [shard];
      }
    }

    /** Restores the missing data shards in place of whatever stands there. */
    method ReconstructData(shards: seq<Vector>, present: seq<bool>) returns (ok: bool, restored: seq<Vector>)
      requires Valid() && |shards| == |present| == totalShards
      requires EqualLengths(shards, FirstPresent(present, dataShards))
      ensures ok <==> CountBelow(present, totalShards) >= dataShards
      ensures if ok then Restored(matrix, dataShards, shards, present, restored) else restored == shards
    {
      FirstPresentCount(present, dataShards, |present|);
      hide IsCodeMatrix, IsInverse, Explains, FirstPresentBelow, CountBelow, Nonsingular;
      var validIndices := CollectPresent(present, dataShards);
      restored := shards;
      if |validIndices| < dataShards {
        return false, restored;
      }
      CodeMatrixShape(matrix, dataShards, totalShards);
      FirstPresentFacts(present, dataShards, |present|);
      AnyRowsNonsingular(matrix, dataShards, totalShards, validIndices);
      restored := RestoreFrom(matrix, dataShards, shards, present, validIndices);
      return true, restored;
    }
  }

  /** The missing data shards, and only they, are replaced by what encodes to the first present shards. */
  ghost predicate Restored(m: Matrix, d: nat, shards: seq<Vector>, present: seq<bool>, restored: seq<Vector>)
    requires d <= |m| && IsMatrix(m, |m|, d) && |shards| == |present| == |m|
  {
    var v := FirstPresent(present, d);
    |v| == d && |restored| == |shards| &&
    (forall i :: 0 <= i < |shards| && (present[i] || d <= i) ==> restored[i] == shards[i]) &&
    (d > 0 ==> forall i :: 0 <= i < d && !present[i] ==> |restored[i]| == |shards[v[0]]|) &&
    (d > 0 ==> Explains(m, v, shards, |shards[v[0]]|, restored[..d]))
  }

  method RestoreFrom(m: Matrix, d: nat, shards: seq<Vector>, present: seq<bool>, validIndices: seq<nat>)
    returns (restored: seq<Vector>)
    requires IsCodeMatrix(m, d, |m|) && |shards| == |present| == |m|
    requires validIndices == FirstPresent(present, d) && |validIndices| == d && DistinctIndices(validIndices, |m|)
    requires forall k :: 0 <= k < d ==> present[validIndices[k]]
    requires forall i :: 0 <= i < d && present[i] ==> i in validIndices
    requires Nonsingular(SubMatrix(m, validIndices)) && EqualLengths(shards, validIndices)
    ensures Restored(m, d, shards, present, restored)
  {
    hide IsCodeMatrix, EncodedShard, IsInverse, Explains, FirstPresentBelow, Nonsingular;
    CodeMatrixShape(m, d, |m|);
    var subMatrix := SubMatrix(m, validIndices);
    var inverse := InvertMatrix(subMatrix);
    var dataDecode := inverse.value;
    InverseIsMatrix(subMatrix, dataDecode);
    var shardLen := |shards[validIndices[0]]|;
    restored := RestoreMissing(shards, present, dataDecode, SubMatrix(shards, validIndices), shardLen);
    RestoredExplains(m, |m|, validIndices, shards, shardLen, dataDecode, restored[..d]);
  }

  lemma CodeMatrixShape(m: Matrix, d: nat, total: nat)
    requires IsCodeMatrix(m, d, total)
    ensures 1 <= d <= total <= 256 && IsMatrix(m, total, d)
  {}

  /** Puts the combinations given by the rows of dataDecode in place of the missing data shards. */
  method RestoreMissing(shards: seq<Vector>, present: seq<bool>, dataDecode: Matrix, chosen: seq<Vector>,
                        shardLen: nat) returns (restored: seq<Vector>)
    requires |shards| == |present| >= |dataDecode| == |chosen|
    requires IsMatrix(dataDecode, |dataDecode|, |dataDecode|)
    ensures |restored| == |shards|
    ensures forall i :: 0 <= i < |shards| ==>
      restored[i] == if i < |dataDecode| && !present[i] then EncodedShard(dataDecode[i], chosen, shardLen) else shards[i]
  {
    hide EncodedShard;
    restored := shards;
    for missing := 0 to |dataDecode|
      invariant |restored| == |shards|
      invariant forall i :: 0 <= i < |shards| ==>
        restored[i] == if i < missing && !present[i] then EncodedShard(dataDecode[i], chosen, shardLen) else shards[i]
    {
      if present[missing] {
        continue;
      }
      var recovered := CombineShards(dataDecode[missing], chosen, shardLen);
      restored := restored[missing := recovered];
    }
  }

  /** No chosen shard is shorter than the first one. */
  ghost predicate EqualLengths(shards: seq<Vector>, indices: seq<nat>)
    requires forall k :: 0 <= k < |indices| ==> indices[k] < |shards|
  {
    forall k :: 0 <= k < |indices| ==> |shards[indices[k]]| >= |shards[indices[0]]|
  }

  method CollectPresent(present: seq<bool>, limit: nat) returns (validIndices: seq<nat>)
    ensures validIndices == FirstPresent(present, limit)
  {
    validIndices := [];
    var i := 0;
    while i < |present| && |validIndices| < limit
      invariant i <= |present| && validIndices == FirstPresentBelow(present, limit, i)
    {
      if present[i] {
        validIndices := validIndices + [i];
      }
      i := i + 1;
    }
    if i < |present| {
      FirstPresentStops(present, limit, i, |present|);
    }
  }

  /** The sum of the shards scaled by the entries of a matrix row; zero entries are skipped. */
  method CombineShards(row: Vector, data: seq<Vector>, len: nat) returns (out: Vector)
    requires |row| == |data|
    ensures out == EncodedShard(row, data, len)
  {
    hide Add, Mul;
    out := Zeros(len);
    for d := 0 to |data|
      invariant |out| == len
      invariant forall i :: 0 <= i < len ==> out[i] == DotTo(row, Column(data, i), d)
    {
      var coefficient := row[d];
      MulZeroRight(coefficient);
      AddZeroAll();
      MulZeroLeftAll();
      if coefficient == 0 {
        continue;
      }
      out := AddScaled(out, coefficient, data[d], if |data[d]| < len then |data[d]| else len);
    }
  }

  /** One column: applying the inverse to the received bytes gives data that encode to them again. */
  lemma RestoredColumn(m: Matrix, total: nat, indices: seq<nat>, inverse: Matrix, y: Vector, x: Vector)
    requires IsMatrix(m, total, |y|) && |indices| == |y| && DistinctIndices(indices, total)
    requires IsMatrix(inverse, |y|, |y|) && IsCodeMatrix(m, |y|, total)
    requires IsInverse(SubMatrix(m, indices), inverse) && x == MatVec(inverse, y)
    ensures forall k :: 0 <= k < |indices| ==> Dot(m[indices[k]], x) == y[k]
    ensures forall k :: 0 <= k < |indices| && indices[k] < |y| ==> x[indices[k]] == y[k]
  {
    hide DotTo;
    var sub := SubMatrix(m, indices);
    assert MatVec(sub, x) == y;
    forall k | 0 <= k < |indices|
      ensures Dot(m[indices[k]], x) == y[k]
    {
      assert MatVec(sub, x)[k] == y[k];
    }
    forall k | 0 <= k < |indices| && indices[k] < |y|
      ensures x[indices[k]] == y[k]
    {
      SystematicRow(m, |y|, total, indices[k], x);
    }
  }

  lemma RestoredExplains(m: Matrix, total: nat, indices: seq<nat>, shards: seq<Vector>, len: nat,
                         inverse: Matrix, data: seq<Vector>)
    requires IsMatrix(m, total, |data|) && |indices| == |data| && DistinctIndices(indices, total)
    requires IsCodeMatrix(m, |data|, total)
    requires |shards| == total && forall k :: 0 <= k < |indices| ==> |shards[indices[k]]| >= len
    requires IsInverse(SubMatrix(m, indices), inverse)
    requires forall i :: 0 <= i < |data| ==>
      data[i] == if i in indices then shards[i] else EncodedShard(inverse[i], SubMatrix(shards, indices), len)
    ensures Explains(m, indices, shards, len, data)
  {
    hide DotTo, CodewordIsPolynomial, IsInverse;
    var chosen := SubMatrix(shards, indices);
    InverseIsMatrix(SubMatrix(m, indices), inverse);
    forall k, c | 0 <= k < |indices| && 0 <= c < len
      ensures Dot(m[indices[k]], Column(data, c)) == shards[indices[k]][c]
    {
      var y := Column(chosen, c);
      var x := MatVec(inverse, y);
      RestoredColumn(m, total, indices, inverse, y, x);
      forall i | 0 <= i < |data|
        ensures Column(data, c)[i] == x[i]
      {
        if i in indices {
          var j :| 0 <= j < |indices| && indices[j] == i;
          assert x[indices[j]] == y[j];
        }
      }
      assert Column(data, c) == x;
    }
  }

  lemma AddZeroAll()
    ensures forall a: byte :: Add(a, 0) == a
  {}

  lemma MulZeroLeftAll()
    ensures forall a: byte :: Mul(0, a) == 0
  {
    forall a: byte
      ensures Mul(0, a) == 0
    {
      MulZeroLeft(a);
    }
  }
}
