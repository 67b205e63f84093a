/** Any data_shards of the shards of an encoded group restore the whole group. */
module Erasure {
  import opened Bytes
  import opened Gf256
  import opened LinearAlgebra
  import opened GaussJordan
  import opened CodeMatrix
  import opened ReedSolomonCoder

  ghost predicate AllOfLength(data: seq<Vector>, len: nat) {
    forall i :: 0 <= i < |data| ==> |data[i]| == len
  }

  /** A data shard of the systematic code is the data itself. */
  lemma SystematicShard(m: Matrix, total: nat, data: seq<Vector>, len: nat, i: nat)
    requires IsCodeMatrix(m, |data|, total) && i < |data| && AllOfLength(data, len)
    ensures EncodedShard(m[i], data, len) == data[i]
  {
    hide Dot, IsCodeMatrix;
    CodeMatrixShape(m, |data|, total);
    forall c | 0 <= c < len
      ensures EncodedShard(m[i], data, len)[c] == data[i][c]
    {
      SystematicRow(m, |data|, total, i, Column(data, c));
    }
  }

  /** A non-singular matrix maps different vectors to different vectors. */
  lemma NonsingularInjective(a: Matrix, x: Vector, y: Vector)
    requires IsMatrix(a, |a|, |a|) && Nonsingular(a) && |x| == |y| == |a|
    requires MatVec(a, x) == MatVec(a, y)
    ensures x == y
  {
    hide Add, Mul, DotTo;
    var z, n := Combine(x, 1, y), |a|;
    forall i | 0 <= i < n
      ensures Dot(a[i], z) == 0
    {
      DotComm(a[i], z, n);
      DotCombine(x, 1, y, a[i], n);
      DotComm(x, a[i], n);
      DotComm(y, a[i], n);
      MulOneLeft(Dot(a[i], y));
      assert MatVec(a, x)[i] == MatVec(a, y)[i];
      AddSelf(Dot(a[i], x));
    }
    assert MatVec(a, z) == Zeros(n);
    forall k | 0 <= k < n
      ensures x[k] == y[k]
    {
      assert z[k] == 0;
      MulOneLeft(y[k]);
      AddIsZero(x[k], y[k]);
    }
  }

  /** Column by column, shards at d distinct indices determine the data. */
  lemma SameShardsSameColumn(m: Matrix, d: nat, total: nat, indices: seq<nat>, x: Vector, y: Vector)
    requires IsCodeMatrix(m, d, total) && |x| == |y| == d
    requires |indices| == d && DistinctIndices(indices, total)
    requires forall k :: 0 <= k < d ==> Dot(m[indices[k]], x) == Dot(m[indices[k]], y)
    ensures x == y
  {
    hide DotTo, IsCodeMatrix, Nonsingular;
    CodeMatrixShape(m, d, total);
    AnyRowsNonsingular(m, d, total, indices);
    var sub := SubMatrix(m, indices);
    assert MatVec(sub, x) == MatVec(sub, y);
    NonsingularInjective(sub, x, y);
  }

  /** Every present shard is the one that the data encode to. */
  ghost predicate PresentAreEncoded(m: Matrix, data: seq<Vector>, len: nat, shards: seq<Vector>, present: seq<bool>)
    requires IsMatrix(m, |m|, |data|) && |shards| == |present| == |m|
  {
    forall i :: 0 <= i < |m| && present[i] ==> shards[i] == EncodedShard(m[i], data, len)
  }

  lemma RestoredColumnIsData(m: Matrix, data: seq<Vector>, len: nat, shards: seq<Vector>, present: seq<bool>,
                             restored: seq<Vector>, c: nat)
    requires IsCodeMatrix(m, |data|, |m|) && |shards| == |present| == |m|
    requires PresentAreEncoded(m, data, len, shards, present)
    requires Restored(m, |data|, shards, present, restored) && c < len
    ensures Column(restored[..|data|], c) == Column(data, c)
  {
    hide Dot, IsCodeMatrix, FirstPresentBelow, Column;
    CodeMatrixShape(m, |data|, |m|);
    var d, v := |data|, FirstPresent(present, |data|);
    FirstPresentFacts(present, d, |present|);
    assert present[v[0]];
    forall k | 0 <= k < d
      ensures Dot(m[v[k]], Column(restored[..d], c)) == Dot(m[v[k]], Column(data, c))
    {
      assert present[v[k]];
      assert shards[v[k]] == EncodedShard(m[v[k]], data, len);
    }
    SameShardsSameColumn(m, d, |m|, v, Column(restored[..d], c), Column(data, c));
  }

  /** The erasure recovery theorem: whatever at least d shards survive, the data come back. */
  lemma ErasureRecovery(m: Matrix, data: seq<Vector>, len: nat, shards: seq<Vector>, present: seq<bool>,
                        restored: seq<Vector>)
    requires IsCodeMatrix(m, |data|, |m|) && AllOfLength(data, len)
    requires |shards| == |present| == |m|
    requires PresentAreEncoded(m, data, len, shards, present)
    requires Restored(m, |data|, shards, present, restored)
    ensures |restored| == |m| && restored[..|data|] == data
  {
    hide Dot, IsCodeMatrix, FirstPresentBelow, EncodedShard, Explains;
    CodeMatrixShape(m, |data|, |m|);
    var d, v := |data|, FirstPresent(present, |data|);
    FirstPresentFacts(present, d, |present|);
    assert present[v[0]];
    forall i | 0 <= i < d
      ensures restored[i] == data[i]
    {
      assert |restored[i]| == len;
      forall c | 0 <= c < len
        ensures restored[i][c] == data[i][c]
      {
        RestoredColumnIsData(m, data, len, shards, present, restored, c);
        assert Column(restored[..d], c)[i] == Column(data, c)[i];
      }
    }
  }

  /** Encoding then losing any parityShards of the shards then reconstructing, on the real coder. */
  method RoundTrip(rs: ReedSolomon, data: seq<Vector>, len: nat, present: seq<bool>) returns (restored: seq<Vector>)
    requires rs.Valid() && |data| == rs.dataShards && AllOfLength(data, len)
    requires |present| == rs.totalShards && CountBelow(present, rs.totalShards) >= rs.dataShards
    ensures |restored| == rs.totalShards && restored[..rs.dataShards] == data
  {
    hide IsCodeMatrix, EncodedShard, Restored, CountBelow;
    CodeMatrixShape(rs.matrix, rs.dataShards, rs.totalShards);
    var parity := rs.Encode(data, seq(rs.parityShards, _ => Zeros(len)));
    var shards := data + parity;
    var lossy := seq(rs.totalShards, i requires 0 <= i < rs.totalShards => if present[i] then shards[i] else []);
    forall i | 0 <= i < rs.totalShards && present[i]
      ensures lossy[i] == EncodedShard(rs.matrix[i], data, len)
    {
      if i < rs.dataShards {
        SystematicShard(rs.matrix, rs.totalShards, data, len, i);
      }
    }
    FirstPresentFacts(present, rs.dataShards, |present|);
    var ok;
    ok, restored := rs.ReconstructData(lossy, present);
    ErasureRecovery(rs.matrix, data, len, lossy, present, restored);
  }
}
