/** A bitmap kept in several equally sized blocks, and its flat view across the blocks. */
module MapBlocks {
  import opened Numbers
  import opened FirstFit

  predicate Uniform(blocks: seq<seq<bool>>, n: nat) {
    n > 0 && forall i: nat :: i < |blocks| ==> |blocks[i]| == n
  }

  /** The bit with flat index `k`: bit `k % n` of block `k / n`. */
  predicate BitAt(blocks: seq<seq<bool>>, n: nat, k: nat)
    requires Uniform(blocks, n) && k < |blocks| * n
  {
    SplitIndex(k, |blocks|, n);
    blocks[k / n][k % n]
  }

  function Flat(blocks: seq<seq<bool>>, n: nat): (r: seq<bool>)
    requires Uniform(blocks, n)
    ensures |r| == |blocks| * n
    ensures forall k: nat :: k < |r| ==> r[k] == BitAt(blocks, n, k)
  {
    seq(|blocks| * n, (k: nat) requires k < |blocks| * n => BitAt(blocks, n, k))
  }

  lemma SplitIndex(k: nat, count: nat, n: nat)
    requires n > 0 && k < count * n
    ensures 0 <= k / n < count && 0 <= k % n < n
  {
    assert k == k / n * n + k % n;
    if k / n >= count {
      MulMonotone(count, k / n, n);
    }
  }

  lemma FlatAt(blocks: seq<seq<bool>>, n: nat, i: nat, j: nat)
    requires Uniform(blocks, n) && i < |blocks| && j < n
    ensures i * n + j < |blocks| * n && Flat(blocks, n)[i * n + j] == blocks[i][j]
    ensures (i * n + j) / n == i && (i * n + j) % n == j
  {
    MulMonotone(i + 1, |blocks|, n);
    assert (i + 1) * n == i * n + n;
    DivModUnique(i * n + j, n, i, j);
  }

  /** Setting bit `j` of block `i` is a point update of the flat map. */
  lemma FlatUpdate(blocks: seq<seq<bool>>, n: nat, i: nat, j: nat)
    requires Uniform(blocks, n) && i < |blocks| && j < n
    ensures Uniform(blocks[i := blocks[i][j := true]], n)
    ensures i * n + j < |blocks| * n
    ensures Flat(blocks[i := blocks[i][j := true]], n) == Flat(blocks, n)[i * n + j := true]
  {
    FlatAt(blocks, n, i, j);
    var l := Flat(blocks[i := blocks[i][j := true]], n);
    var r := Flat(blocks, n)[i * n + j := true];
    forall k: nat | k < |l|
      ensures l[k] == r[k]
    {
      SplitIndex(k, |blocks|, n);
      assert k == k / n * n + k % n;
      if k / n == i && k % n == j {
        assert k == i * n + j;
      } else {
        assert k != i * n + j;
      }
    }
  }

  /** A scan that skipped full blocks and then found bit `j` has found the least free bit of the whole map. */
  lemma ScanFindsFirstFree(blocks: seq<seq<bool>>, n: nat, i: nat)
    requires Uniform(blocks, n) && i < |blocks|
    requires forall b: nat :: b < i ==> Full(blocks[b])
    requires FirstFree(blocks[i]) < n
    ensures FirstFree(Flat(blocks, n)) == i * n + FirstFree(blocks[i]) < |blocks| * n
  {
    var j := FirstFree(blocks[i]);
    FlatAt(blocks, n, i, j);
    var flat := Flat(blocks, n);
    forall k: nat | k < i * n + j
      ensures flat[k]
    {
      SplitIndex(k, |blocks|, n);
      assert k == k / n * n + k % n && (i + 1) * n == i * n + n;
      if k / n > i {
        MulMonotone(i + 1, k / n, n);
      }
    }
  }

  /** The flat map is full exactly when every block is. */
  lemma FlatFull(blocks: seq<seq<bool>>, n: nat)
    requires Uniform(blocks, n)
    ensures Full(Flat(blocks, n)) <==> forall b: nat :: b < |blocks| ==> Full(blocks[b])
  {
    if Full(Flat(blocks, n)) {
      forall b: nat, j: nat | b < |blocks| && j < n
        ensures blocks[b][j]
      {
        FlatAt(blocks, n, b, j);
      }
    }
  }

  /** A map of one block is its block. */
  lemma FlatSingle(block: seq<bool>)
    requires |block| > 0
    ensures Flat([block], |block|) == block
  {
    var n := |block|;
    var flat := Flat([block], n);
    forall k: nat | k < n
      ensures flat[k] == block[k]
    {
      FlatAt([block], n, 0, k);
    }
  }
}
