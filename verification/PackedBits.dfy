/**
 Bits packed into bytes, least significant bit first: the layout that the formatter's bit
 references and the kernel's little-endian bitmap operations share. A buffer is viewed as
 the flat sequence of its bits.
 */
module PackedBits {

  /** `1 << k` for a bit offset inside a byte. */
  function Mask(k: nat): (m: bv8)
    requires k < 8
  {
    if k == 0 then 1 else if k == 1 then 2 else if k == 2 then 4 else if k == 3 then 8
    else if k == 4 then 16 else if k == 5 then 32 else if k == 6 then 64 else 128
  }

  /** Reading through a bit reference. */
  predicate IsSet(w: bv8, k: nat)
    requires k < 8
  {
    w & Mask(k) != 0
  }

  /** Assigning through a bit reference: `|=` with the mask, or `&=` with its complement. */
  function Assign(w: bv8, k: nat, v: bool): (r: bv8)
    requires k < 8
  {
    if v then w | Mask(k) else w & !Mask(k)
  }

  /** An assignment through a reference reaches its own bit and no other bit of the shared byte. */
  lemma AssignIsExact(w: bv8, k: nat, v: bool, j: nat)
    requires k < 8 && j < 8
    ensures IsSet(Assign(w, k, v), j) == if j == k then v else IsSet(w, j)
  {
    if v { SetMaskExact(w, k, j); } else { ClearMaskExact(w, k, j); }
  }

  lemma SetMaskExact(w: bv8, k: nat, j: nat)
    requires k < 8 && j < 8
    ensures ((w | Mask(k)) & Mask(j) != 0) == (j == k || w & Mask(j) != 0)
  {
    MasksDisjoint(k, j);
    DistributeOr(w, Mask(k), Mask(j));
  }

  lemma ClearMaskExact(w: bv8, k: nat, j: nat)
    requires k < 8 && j < 8
    ensures ((w & !Mask(k)) & Mask(j) != 0) == (j != k && w & Mask(j) != 0)
  {
    MasksDisjoint(k, j);
    ClearApart(w, Mask(k), Mask(j));
  }

  lemma MasksDisjoint(k: nat, j: nat)
    requires k < 8 && j < 8
    ensures Mask(k) & Mask(j) == if j == k then Mask(j) else 0
    ensures Mask(j) != 0
  {
  }

  lemma DistributeOr(w: bv8, m: bv8, n: bv8)
    requires m & n == n || m & n == 0
    ensures (w | m) & n == if m & n == 0 then w & n else n
  {
  }

  lemma ClearApart(w: bv8, m: bv8, n: bv8)
    requires m & n == 0 || m == n
    ensures (w & !m) & n == if m & n == 0 then w & n else 0
  {
  }

  predicate TestBit(s: seq<bv8>, i: nat)
    requires i < 8 * |s|
  {
    IsSet(s[i / 8], i % 8)
  }

  /** The buffer as a flat bit sequence. */
  function Bits(s: seq<bv8>): (r: seq<bool>)
    ensures |r| == 8 * |s|
    ensures forall i: nat :: i < |r| ==> r[i] == TestBit(s, i)
  {
    seq(8 * |s|, (i: nat) requires i < 8 * |s| => TestBit(s, i))
  }

  function StoreBit(s: seq<bv8>, i: nat, v: bool): (r: seq<bv8>)
    requires i < 8 * |s|
    ensures |r| == |s|
  {
    s[i / 8 := Assign(s[i / 8], i % 8, v)]
  }

  /** Storing one bit in the packed bytes is a point update of the flat bits. */
  lemma StoreBitIsPointUpdate(s: seq<bv8>, i: nat, v: bool)
    requires i < 8 * |s|
    ensures Bits(StoreBit(s, i, v)) == Bits(s)[i := v]
  {
    var t := StoreBit(s, i, v);
    forall j: nat | j < 8 * |s|
      ensures Bits(t)[j] == Bits(s)[i := v][j]
    {
      if j / 8 == i / 8 {
        AssignIsExact(s[i / 8], i % 8, v, j % 8);
        assert j == i <==> j % 8 == i % 8;
      }
    }
  }
}
