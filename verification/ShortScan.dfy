/** The 16-bit indexed search for a clear bit and the bit test that goes with it. */
module ShortScan {
  import opened FirstFit

  function Mask16(k: nat): (m: bv16)
    requires k < 16
  {
    if k < 8 then
      if k == 0 then 0x1 else if k == 1 then 0x2 else if k == 2 then 0x4 else if k == 3 then 0x8
      else if k == 4 then 0x10 else if k == 5 then 0x20 else if k == 6 then 0x40 else 0x80
    else
      if k == 8 then 0x100 else if k == 9 then 0x200 else if k == 10 then 0x400 else if k == 11 then 0x800
      else if k == 12 then 0x1000 else if k == 13 then 0x2000 else if k == 14 then 0x4000 else 0x8000
  }

  predicate IsSet(w: bv16, k: nat)
    requires k < 16
  {
    w & Mask16(k) != 0
  }

  /** Bit 0 is the lowest one, and bit `k + 1` is bit `k` of the half. */
  lemma BitsByWeight(w: bv16, k: nat)
    requires k < 15
    ensures IsSet(w, 0) <==> w & 1 == 1
    ensures IsSet(w, k + 1) <==> IsSet(w / 2, k)
  {
  }

  predicate TestBit(words: seq<bv16>, nr: nat)
    requires nr < 16 * |words|
  {
    IsSet(words[nr / 16], nr % 16)
  }

  /** The least clear bit of a word at or after `k`; 16 when there is none. */
  function FindZero(w: bv16, k: nat): (r: nat)
    requires k <= 16
    ensures k <= r <= 16
    ensures forall i: nat :: k <= i < r ==> IsSet(w, i)
    ensures r < 16 ==> !IsSet(w, r)
    decreases 16 - k
  {
    if k == 16 || !IsSet(w, k) then k else FindZero(w, k + 1)
  }

  /** The word test `== 0xffff` is the statement that all sixteen bits are set. */
  lemma FullWord(w: bv16)
    ensures w == 0xffff <==> forall i: nat :: i < 16 ==> IsSet(w, i)
  {
    if forall i: nat :: i < 16 ==> IsSet(w, i) {
      LowHalf(w);
      HighHalf(w);
    }
  }

  lemma LowHalf(w: bv16)
    requires forall i: nat :: i < 16 ==> IsSet(w, i)
    ensures w & 0xff == 0xff
  {
    assert IsSet(w, 0) && IsSet(w, 1) && IsSet(w, 2) && IsSet(w, 3);
    assert IsSet(w, 4) && IsSet(w, 5) && IsSet(w, 6) && IsSet(w, 7);
  }

  lemma HighHalf(w: bv16)
    requires forall i: nat :: i < 16 ==> IsSet(w, i)
    ensures w & 0xff00 == 0xff00
  {
    assert IsSet(w, 8) && IsSet(w, 9) && IsSet(w, 10) && IsSet(w, 11);
    assert IsSet(w, 12) && IsSet(w, 13) && IsSet(w, 14) && IsSet(w, 15);
  }

  /** The buffer as a flat bit sequence. */
  function Bits16(words: seq<bv16>): (r: seq<bool>)
    ensures |r| == 16 * |words| && forall i: nat :: i < |r| ==> r[i] == TestBit(words, i)
  {
    seq(16 * |words|, (i: nat) requires i < 16 * |words| => TestBit(words, i))
  }

  /** Words that the loop may read: the size is shifted first, and a count of 0 wraps to all of its 32 bits. */
  function Limit(size: nat): (r: nat) {
    if size == 0 then 0 else if size < 16 then 0x1_0000_0000 else size / 16
  }

  /** The loop stays inside the buffer: it is long enough, or some word of it stops the loop. */
  predicate StaysInside(words: seq<bv16>, size: nat) {
    Limit(size) <= |words| || exists i: nat :: i < |words| && words[i] != 0xffff
  }

  function Least(a: nat, b: nat): (r: nat) {
    if a <= b then a else b
  }

  /**
   The search, for every size and every buffer that it stays inside of: the least clear bit, but no
   further than the words that the loop may read.
   */
  method FindFirstZeroBit(words: array<bv16>, size: nat) returns (r: nat)
    requires size < 0x1_0000_0000 && StaysInside(words[..], size)
    ensures r == Least(FirstFree(Bits16(words[..])), 16 * Limit(size))
  {
    if size == 0 {
      return 0;
    }
    ghost var bits := Bits16(words[..]);
    var left := size / 16;
    var p := 0;
    while true
      invariant if p == 0 then left == size / 16 else left > 0 && p + left == Limit(size)
      invariant p < Limit(size) && p <= words.Length && (p == words.Length ==> Limit(size) <= words.Length)
      invariant forall i: nat :: i < p ==> words[i] == 0xffff
      invariant forall i: nat :: i < 16 * p ==> bits[i]
      decreases Limit(size) - p
    {
      Stops(words[..], size, p);
      var w := words[p];
      FullWord(w);
      p := p + 1;
      if w != 0xffff {
        break;
      }
      left := if left == 0 then 0xffff_ffff else left - 1;
      assert forall i: nat :: 16 * (p - 1) <= i < 16 * p ==> bits[i] == TestBit(words[..], i) && i / 16 == p - 1;
      if left == 0 {
        FullUpTo(words[..], p);
        return 16 * p;
      }
    }
    p := p - 1;
    var num := words[p];
    InWord(words[..], p);
    r := 16 * p + FindZero(num, 0);
  }

  /** The least clear bit when all words before `p` are full and word `p` is not. */
  lemma {:induction false} InWord(words: seq<bv16>, p: nat)
    requires p < |words| && words[p] != 0xffff && forall i: nat :: i < 16 * p ==> Bits16(words)[i]
    ensures FirstFree(Bits16(words)) == 16 * p + FindZero(words[p], 0) < 16 * p + 16
  {
    FullWord(words[p]);
    var r := 16 * p + FindZero(words[p], 0);
    forall i: nat | 16 * p <= i < 16 * p + 16
      ensures Bits16(words)[i] == IsSet(words[p], i - 16 * p)
    {
      assert Bits16(words)[i] == TestBit(words, i) && i / 16 == p && i % 16 == i - 16 * p;
    }
    assert forall i: nat :: 16 * p <= i < r ==> Bits16(words)[i] == IsSet(words[p], i - 16 * p);
    assert !Bits16(words)[r];
  }

  /** There is a word to read as long as all before it were full. */
  lemma {:induction false} Stops(words: seq<bv16>, size: nat, p: nat)
    requires StaysInside(words, size) && p < Limit(size) && p <= |words| && forall i: nat :: i < p ==>
               words[i] == 0xffff
    ensures p < |words|
  {
  }

  lemma {:induction false} FullUpTo(words: seq<bv16>, p: nat)
    requires p <= |words| && forall i: nat :: i < 16 * p ==> Bits16(words)[i]
    ensures FirstFree(Bits16(words)) >= 16 * p
  {
  }

  /** The result is the least clear bit below the size, or the size, on every buffer exactly for multiples of 16. */
  lemma {:induction false} ScanIsExactWhen(size: nat)
    requires size < 0x1_0000_0000
    ensures (forall words: seq<bv16> :: StaysInside(words, size) ==>
               Least(FirstFree(Bits16(words)), 16 * Limit(size)) == Least(FirstFree(Bits16(words)), size))
            <==> size % 16 == 0
  {
    if size % 16 != 0 {
      if size < 16 {
        SmallSizeFails(size);
      } else {
        OddSizeFails(size);
      }
    }
  }

  /** A size below 16: the count wraps, and a clear bit far beyond the size is reported. */
  lemma {:induction false} SmallSizeFails(size: nat)
    requires 0 < size < 16
    ensures var words: seq<bv16> := [0xffff, 0];
            && StaysInside(words, size)
            && Least(FirstFree(Bits16(words)), 16 * Limit(size)) != Least(FirstFree(Bits16(words)), size)
  {
    var words: seq<bv16> := [0xffff, 0];
    assert words[1] != 0xffff;
    FullWord(words[0]);
    assert forall i: nat :: i < 16 ==> Bits16(words)[i] == TestBit(words, i);
    FullUpTo(words, 1);
  }

  /** A size that is not a multiple of 16: a full buffer is reported to have a clear bit. */
  lemma {:induction false} OddSizeFails(size: nat)
    requires 16 <= size && size % 16 != 0
    ensures var words := seq(size / 16 + 1, (_: nat) => 0xffff as bv16);
            && StaysInside(words, size)
            && Least(FirstFree(Bits16(words)), 16 * Limit(size)) != Least(FirstFree(Bits16(words)), size)
  {
    var words := seq(size / 16 + 1, (_: nat) => 0xffff as bv16);
    forall i: nat | i < 16 * |words|
      ensures Bits16(words)[i]
    {
      FullWord(words[i / 16]);
      assert Bits16(words)[i] == TestBit(words, i);
    }
    FullUpTo(words, |words|);
  }
}
