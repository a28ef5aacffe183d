/**
 First-fit allocation on a flat bit sequence: the specification that the kernel's multi-block
 scan, the concurrent protocol and the formatter's allocators are all measured against.
 */
module FirstFit {
  import opened Options

  /** The least index at or after `from` that holds `v`, or the length when there is none. */
  function FirstFrom(bits: seq<bool>, from: nat, v: bool): (r: nat)
    requires from <= |bits|
    ensures from <= r <= |bits|
    ensures r < |bits| ==> bits[r] == v
    ensures forall i: nat :: from <= i < r ==> bits[i] == !v
    decreases |bits| - from
  {
    if from == |bits| || bits[from] == v then from else FirstFrom(bits, from + 1, v)
  }

  function FirstFree(bits: seq<bool>): (r: nat)
    ensures r <= |bits|
    ensures r < |bits| ==> !bits[r]
    ensures forall i: nat :: i < r ==> bits[i]
  {
    FirstFrom(bits, 0, false)
  }

  predicate Full(bits: seq<bool>) {
    forall i: nat :: i < |bits| ==> bits[i]
  }

  /** The map after one attempt, and the index it handed out. */
  function Alloc(bits: seq<bool>): (r: (seq<bool>, Option<nat>))
    ensures |r.0| == |bits|
    ensures r.1.None? <==> Full(bits)
  {
    var f := FirstFree(bits);
    if f < |bits| then (bits[f := true], Some(f)) else (bits, None)
  }

  /** `n` attempts in a row, with everything they handed out in order. */
  function AllocRun(bits: seq<bool>, n: nat): (r: (seq<bool>, seq<Option<nat>>))
    ensures |r.0| == |bits| && |r.1| == n
  {
    if n == 0 then (bits, [])
    else
      var (b, out) := AllocRun(bits, n - 1);
      var (b', z) := Alloc(b);
      (b', out + [z])
  }

  /** Full prefix, free middle, reserved tail. */
  predicate Shape(bits: seq<bool>, lo: nat, hi: nat) {
    && lo <= hi <= |bits|
    && forall i: nat :: i < |bits| ==> (bits[i] <==> !(lo <= i < hi))
  }

  lemma ShapeAlloc(bits: seq<bool>, lo: nat, hi: nat)
    requires Shape(bits, lo, hi)
    ensures Alloc(bits).1 == if lo < hi then Some(lo) else None
    ensures Shape(Alloc(bits).0, if lo < hi then lo + 1 else lo, hi)
  {
    var f := FirstFree(bits);
    if lo < hi {
      assert !bits[lo];
      assert f == lo;
    }
  }

  /**
   From a map of the formatted shape, the numbers handed out are `lo, lo + 1, ...` up to the
   reserved tail and nothing afterwards, however many attempts are made.
   */
  lemma {:induction false} ShapeRun(bits: seq<bool>, lo: nat, hi: nat, n: nat)
    requires Shape(bits, lo, hi)
    ensures Shape(AllocRun(bits, n).0, if lo + n <= hi then lo + n else hi, hi)
    ensures forall k: nat :: k < n ==> AllocRun(bits, n).1[k] == if lo + k < hi then Some(lo + k) else None
  {
    if n > 0 {
      ShapeRun(bits, lo, hi, n - 1);
      ShapeAlloc(AllocRun(bits, n - 1).0, if lo + (n - 1) <= hi then lo + (n - 1) else hi, hi);
    }
  }

  /** For an arbitrary starting map: the run sets exactly the bits that it hands out, and each was free. */
  lemma {:induction false} RunSetsWhatItHandsOut(bits: seq<bool>, n: nat)
    ensures var (b, out) := AllocRun(bits, n);
            && (forall i: nat :: i < |bits| ==> (b[i] <==> bits[i] || Some(i) in out))
            && (forall k: nat :: k < n && out[k].Some? ==> out[k].value < |bits| && !bits[out[k].value])
  {
    if n > 0 {
      RunSetsWhatItHandsOut(bits, n - 1);
      var (b, out) := AllocRun(bits, n - 1);
      var (b', z) := Alloc(b);
      forall i: nat | i < |bits|
        ensures b'[i] <==> bits[i] || Some(i) in out + [z]
      {
        assert Some(i) in out + [z] <==> Some(i) in out || z == Some(i);
      }
    }
  }

  /** Once an attempt fails the map is full, and stays full. */
  lemma {:induction false} RunFailsWhenFull(bits: seq<bool>, n: nat, k: nat)
    requires k < n && AllocRun(bits, n).1[k].None?
    ensures Full(AllocRun(bits, n).0)
  {
    if k < n - 1 {
      RunFailsWhenFull(bits, n - 1, k);
    }
  }

  /** Successive indices increase, and no success follows a failure. */
  lemma {:induction false} RunIncreases(bits: seq<bool>, n: nat, k: nat, m: nat)
    requires k < m < n && AllocRun(bits, n).1[m].Some?
    ensures AllocRun(bits, n).1[k].Some? && AllocRun(bits, n).1[k].value < AllocRun(bits, n).1[m].value
  {
    if m < n - 1 {
      RunIncreases(bits, n - 1, k, m);
    } else {
      if AllocRun(bits, n - 1).1[k].None? {
        RunFailsWhenFull(bits, n - 1, k);
      }
      RunPrefixBelow(bits, n - 1, k);
    }
  }

  /** Everything at or below an index handed out is taken from then on. */
  lemma {:induction false} RunPrefixBelow(bits: seq<bool>, n: nat, k: nat)
    requires k < n && AllocRun(bits, n).1[k].Some?
    ensures AllocRun(bits, n).1[k].value < |bits|
    ensures forall i: nat :: i <= AllocRun(bits, n).1[k].value ==> AllocRun(bits, n).0[i]
  {
    var (b, out) := AllocRun(bits, n - 1);
    if k < n - 1 {
      RunPrefixBelow(bits, n - 1, k);
    } else {
      assert AllocRun(bits, n).1[k] == Alloc(b).1;
    }
  }
}
