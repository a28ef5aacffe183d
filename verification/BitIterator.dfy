/**
 The formatter's random-access bit iterator. An iterator is a C++ value (a byte address and a
 bit offset), so it is a datatype here and each mutating member is the function from its old
 value to its new one. Addresses are measured from the start of the buffer, modulo 2^64.
 */
module BitIterator {
  import opened Numbers
  import opened PackedBits
  import opened FirstFit

  datatype Iter = Iter(data: nat, offset: nat) {

    predicate Valid() {
      data < TWO_64 && offset < 8
    }

    /** The flat bit index that the iterator denotes. */
    function Pos(): (p: nat) {
      8 * data + offset
    }

    function Increment(): (r: Iter) {
      if offset == 7 then Iter(U64(data + 1), 0) else Iter(data, offset + 1)
    }

    function Decrement(): (r: Iter) {
      if offset == 0 then Iter(U64(data - 1), 7) else Iter(data, offset - 1)
    }

    /**
     The divisor is an unsigned constant, so the sum is reinterpreted as unsigned before it is
     divided. The remainder is then never negative and the correcting branch is never taken.
     */
    function Advance(d: int): (r: Iter) {
      var n := U64(offset + d);
      Iter(U64(data + n / 8), n % 8)
    }

    predicate Less(that: Iter) {
      data < that.data || (data == that.data && offset < that.offset)
    }

    /** `this - that`, computed in unsigned arithmetic and converted to `ptrdiff_t`. */
    function Difference(that: Iter): (r: int) {
      Int64(8 * (data - that.data) + offset - that.offset)
    }
  }

  /** `n` increments in a row. */
  function Increments(it: Iter, n: nat): (r: Iter) {
    if n == 0 then it else Increments(it, n - 1).Increment()
  }

  /** `n` decrements in a row. */
  function Decrements(it: Iter, n: nat): (r: Iter) {
    if n == 0 then it else Decrements(it, n - 1).Decrement()
  }

  /** Size of the bit address space: positions are meaningful modulo this number. */
  const SPACE: int := 8 * TWO_64

  lemma IncrementMoves(it: Iter)
    requires it.Valid() && it.Pos() + 1 < SPACE
    ensures it.Increment().Valid() && it.Increment().Pos() == it.Pos() + 1
  {
  }

  lemma {:induction false} IncrementsMove(it: Iter, n: nat)
    requires it.Valid() && it.Pos() + n < SPACE
    ensures Increments(it, n).Valid() && Increments(it, n).Pos() == it.Pos() + n
  {
    if n > 0 {
      IncrementsMove(it, n - 1);
      IncrementMoves(Increments(it, n - 1));
    }
  }

  lemma {:induction false} DecrementsMove(it: Iter, n: nat)
    requires it.Valid() && n <= it.Pos()
    ensures Decrements(it, n).Valid() && Decrements(it, n).Pos() == it.Pos() - n
  {
    if n > 0 {
      DecrementsMove(it, n - 1);
    }
  }

  /** A valid iterator is determined by its position, so the order and equality of iterators are those of indices. */
  lemma OrderMatchesIndex(a: Iter, b: Iter)
    requires a.Valid() && b.Valid()
    ensures a.Less(b) <==> a.Pos() < b.Pos()
    ensures a == b <==> a.Pos() == b.Pos()
  {
  }

  /**
   `Advance` lands `d` bits away exactly when `offset + d` is not negative. Otherwise it is wrong
   for every iterator: the address is off by 2^61 bytes.
   */
  lemma AdvanceExactWhen(it: Iter, d: int)
    requires it.Valid() && -TWO_63 <= it.offset + d < TWO_63
    ensures it.Advance(d).Valid()
    ensures (it.Advance(d).Pos() - (it.Pos() + d)) % SPACE == 0 <==> it.offset + d >= 0
  {
    var k := AdvanceLands(it, d);
    MultipleOfSpace(0 - k);
    NotMultipleOfSpace(0 - k);
    var gap := it.Advance(d).Pos() - (it.Pos() + d);
    assert gap == U64(it.offset + d) - (it.offset + d) + (0 - k) * SPACE;
  }

  /** Where `Advance` lands: the unsigned sum, less whole wraps of the address space. */
  lemma {:induction false} AdvanceLands(it: Iter, d: int) returns (k: int)
    requires it.Valid()
    ensures it.Advance(d).Valid()
    ensures it.Advance(d).Pos() - it.Pos() == U64(it.offset + d) - it.offset + (0 - k) * SPACE
  {
    k := WrappedPosition(it.data, U64(it.offset + d), TWO_64);
  }

  lemma MultipleOfSpace(k: int)
    ensures (k * SPACE) % SPACE == 0
  {
    DivModUnique(k * SPACE, SPACE, k, 0);
  }

  lemma NotMultipleOfSpace(k: int)
    ensures (TWO_64 + k * SPACE) % SPACE != 0
  {
    DivModUnique(TWO_64 + k * SPACE, SPACE, k, TWO_64);
  }

  /** Where `Advance` is exact, it is the repeated increment or decrement, in either direction. */
  lemma AdvanceIsRepeatedStep(it: Iter, d: int)
    requires it.Valid() && 0 <= it.offset + d < TWO_63
    requires it.Pos() + d < SPACE
    ensures d >= 0 ==> it.Advance(d) == Increments(it, d)
    ensures d <= 0 ==> it.Advance(d) == Decrements(it, -d)
  {
    AdvanceExactWhen(it, d);
    AdvanceMoves(it, d);
    if d >= 0 {
      IncrementsMove(it, d);
      OrderMatchesIndex(it.Advance(d), Increments(it, d));
    }
    if d <= 0 {
      DecrementsMove(it, -d);
      OrderMatchesIndex(it.Advance(d), Decrements(it, -d));
    }
  }

  lemma AdvanceMoves(it: Iter, d: int)
    requires it.Valid() && 0 <= it.offset + d < TWO_63
    requires it.Pos() + d < SPACE
    ensures it.Advance(d).Valid() && it.Advance(d).Pos() == it.Pos() + d
  {
    var n := it.offset + d;
    SplitEight(n);
  }

  lemma SplitEight(n: nat)
    ensures n == 8 * (n / 8) + n % 8 && 0 <= n % 8 < 8
  {
  }

  lemma DifferenceIsDistance(l: Iter, r: Iter)
    requires -TWO_63 <= l.Pos() - r.Pos() < TWO_63
    ensures l.Difference(r) == l.Pos() - r.Pos()
  {
    assert 8 * (l.data - r.data) + l.offset - r.offset == l.Pos() - r.Pos();
  }

  /** Difference undoes advance, and advancing by a non-negative difference undoes the subtraction. */
  lemma DifferenceInvertsAdvance(it: Iter, d: int, that: Iter)
    requires it.Valid() && 0 <= it.offset + d < TWO_63 && it.Pos() + d < SPACE
    requires that.Valid() && 0 <= that.Pos() - it.Pos() < TWO_63 - 8
    ensures it.Advance(d).Difference(it) == d
    ensures it.Advance(that.Difference(it)) == that
  {
    AdvanceMoves(it, d);
    DifferenceIsDistance(it.Advance(d), it);
    var k := that.Pos() - it.Pos();
    DifferenceIsDistance(that, it);
    AdvanceMoves(it, k);
    OrderMatchesIndex(it.Advance(k), that);
  }

  /** Dereferencing an iterator reads the flat bit at its position. */
  lemma DereferenceReadsBit(s: seq<bv8>, it: Iter)
    requires it.Valid() && it.Pos() < 8 * |s|
    ensures it.data < |s| && Bits(s)[it.Pos()] == IsSet(s[it.data], it.offset)
  {
    assert it.Pos() / 8 == it.data && it.Pos() % 8 == it.offset;
    assert Bits(s)[it.Pos()] == TestBit(s, it.Pos());
  }

  /** An iterator at offset 0 of the given byte. */
  method Start(data: nat) returns (it: Iter)
    requires data < TWO_64
    ensures it.Valid() && it.Pos() == 8 * data
  {
    it := Iter(data, 0);
  }

  /** `++it`, away from the end of the address space. */
  method Next(it: Iter) returns (r: Iter)
    requires it.Valid() && it.Pos() + 1 < SPACE
    ensures r.Valid() && r.Pos() == it.Pos() + 1
  {
    IncrementMoves(it);
    r := it.Increment();
  }

  /** `it + d`, where it is exact. */
  method Plus(it: Iter, d: int) returns (r: Iter)
    requires it.Valid() && 0 <= it.offset + d < TWO_63 && it.Pos() + d < SPACE
    ensures r.Valid() && r.Pos() == it.Pos() + d
  {
    AdvanceMoves(it, d);
    r := it.Advance(d);
  }

  /** `l - r`, inside one buffer. */
  method Minus(l: Iter, r: Iter) returns (d: int)
    requires -TWO_63 <= l.Pos() - r.Pos() < TWO_63
    ensures d == l.Pos() - r.Pos()
  {
    DifferenceIsDistance(l, r);
    d := l.Difference(r);
  }

  /** `std::find` over bit iterators. */
  method Find(mem: array<bv8>, b: Iter, e: Iter, v: bool) returns (it: Iter)
    requires b.Valid() && e.Valid() && mem.Length < TWO_64
    requires b.Pos() <= e.Pos() <= 8 * mem.Length
    ensures it.Valid()
    ensures it.Pos() == FirstFrom(Bits(mem[..])[..e.Pos()], b.Pos(), v)
  {
    it := b;
    ghost var all := mem[..];
    ghost var bits := Bits(all)[..e.Pos()];
    while it != e
      invariant it.Valid() && b.Pos() <= it.Pos() <= e.Pos()
      invariant FirstFrom(bits, it.Pos(), v) == FirstFrom(bits, b.Pos(), v)
      decreases e.Pos() - it.Pos()
    {
      OrderMatchesIndex(it, e);
      DereferenceReadsBit(all, it);
      var here := IsSet(mem[it.data], it.offset);
      if here == v {
        assert bits[it.Pos()] == v;
        return;
      }
      it := Next(it);
    }
  }

  /** The flat bits with every index in `[a, b)` set to `v`. */
  function Filled(bits: seq<bool>, a: nat, b: nat, v: bool): (r: seq<bool>)
    ensures |r| == |bits|
    ensures forall i: nat :: i < |bits| ==> r[i] == if a <= i < b then v else bits[i]
  {
    seq(|bits|, (i: nat) requires i < |bits| => if a <= i < b then v else bits[i])
  }

  /** `std::fill` over bit iterators: it changes exactly the bits of `[b, e)`, also inside shared bytes. */
  method Fill(mem: array<bv8>, b: Iter, e: Iter, v: bool)
    requires b.Valid() && e.Valid() && mem.Length < TWO_64
    requires b.Pos() <= e.Pos() <= 8 * mem.Length
    modifies mem
    ensures Bits(mem[..]) == Filled(old(Bits(mem[..])), b.Pos(), e.Pos(), v)
  {
    var it := b;
    ghost var was := Bits(mem[..]);
    while it != e
      invariant it.Valid() && b.Pos() <= it.Pos() <= e.Pos()
      invariant Bits(mem[..]) == Filled(was, b.Pos(), it.Pos(), v)
      decreases e.Pos() - it.Pos()
    {
      OrderMatchesIndex(it, e);
      StoreAt(mem, it, v);
      assert Filled(was, b.Pos(), it.Pos(), v)[it.Pos() := v] == Filled(was, b.Pos(), it.Pos() + 1, v);
      it := Next(it);
    }
  }

  /** `*it = v`. */
  method StoreAt(mem: array<bv8>, it: Iter, v: bool)
    requires it.Valid() && it.Pos() < 8 * mem.Length
    modifies mem
    ensures Bits(mem[..]) == old(Bits(mem[..]))[it.Pos() := v]
  {
    ghost var was := mem[..];
    assert it.Pos() / 8 == it.data && it.Pos() % 8 == it.offset;
    mem[it.data] := Assign(mem[it.data], it.offset, v);
    assert mem[..] == StoreBit(was, it.Pos(), v);
    StoreBitIsPointUpdate(was, it.Pos(), v);
  }
}
