/**
 The formatter's bitmaps: filling them, allocating the root's inode and zone from them, and the
 state in which they reach the kernel. A map buffer is modelled together with the memory after it
 that its end iterator spans: the end is computed by adding a number of bits to a byte pointer,
 so it lies eight map lengths after the start.
 */
module Formatter {
  import opened Numbers
  import opened PackedBits
  import opened Options
  import opened FirstFit
  import opened BitIterator
  import opened Layout

  datatype Outcome = Allocated(index: nat) | Terminated | Diverges

  /** First run of clear bits: its start, and the set bit (or the end of the span) that closes it. */
  function RunStart(bits: seq<bool>): (r: nat)
    ensures r <= |bits|
  {
    FirstFrom(bits, 0, false)
  }

  function RunEnd(bits: seq<bool>): (r: nat)
    ensures RunStart(bits) <= r <= |bits|
  {
    FirstFrom(bits, RunStart(bits), true)
  }

  /** What the run allocator does: only the first run is ever considered. */
  function AllocateRun(bits: seq<bool>, zones: nat): (r: (seq<bool>, Outcome)) {
    var f, e := RunStart(bits), RunEnd(bits);
    if f == |bits| then (bits, Terminated)
    else if e - f >= zones then (Filled(bits, f, f + zones, true), Allocated(f))
    else (bits, if e == |bits| then Terminated else Diverges)
  }

  /** One pass of the search loop from a position that is not the end: stop with a run, or the next position. */
  function ScanPass(bits: seq<bool>, at: nat, zones: nat): (next: Option<nat>)
    requires at <= |bits|
    ensures next.Some? ==> at <= next.value <= |bits|
  {
    var e := FirstFrom(bits, at, true);
    if e - at >= zones then None else Some(e)
  }

  /** The position after `k` passes, while the loop has neither stopped nor reached the end of the span. */
  function Passes(bits: seq<bool>, at: nat, zones: nat, k: nat): (r: Option<nat>)
    requires at <= |bits|
    ensures r.Some? ==> at <= r.value < |bits|
    decreases k
  {
    if at == |bits| then None
    else if k == 0 then Some(at)
    else match ScanPass(bits, at, zones) case None => None case Some(next) => Passes(bits, next, zones, k - 1)
  }

  /** The `Diverges` outcome is real: in exactly that case the loop is still running after any number of passes. */
  lemma {:induction false} DivergesMeansNeverStops(bits: seq<bool>, zones: nat)
    ensures AllocateRun(bits, zones).1.Diverges? <==> forall k: nat :: Passes(bits, RunStart(bits), zones, k).Some?
  {
    var f, e := RunStart(bits), RunEnd(bits);
    if AllocateRun(bits, zones).1.Diverges? {
      forall k: nat
        ensures Passes(bits, f, zones, k).Some?
      {
        if k > 0 {
          StuckAtSetBit(bits, e, zones, k - 1);
        }
      }
    } else {
      assert Passes(bits, f, zones, 1).None?;
    }
  }

  lemma {:induction false} StuckAtSetBit(bits: seq<bool>, at: nat, zones: nat, k: nat)
    requires at < |bits| && bits[at] && zones > 0
    ensures Passes(bits, at, zones, k) == Some(at)
  {
    if k > 0 {
      assert ScanPass(bits, at, zones) == Some(at);
      StuckAtSetBit(bits, at, zones, k - 1);
    }
  }

  /** A run allocation hands out the least free index and sets exactly the bits of the run. */
  lemma {:induction false} AllocateRunIsFirstFit(bits: seq<bool>, zones: nat)
    ensures AllocateRun(bits, zones).1.Allocated? <==> RunStart(bits) < |bits| && RunEnd(bits) - RunStart(bits) >= zones
    ensures var (b, r) := AllocateRun(bits, zones);
            r.Allocated? ==>
              && r.index == FirstFree(bits) && r.index + zones <= |bits|
              && (forall i: nat :: r.index <= i < r.index + zones ==> !bits[i] && b[i])
              && (forall i: nat :: i < |bits| && !(r.index <= i < r.index + zones) ==> b[i] == bits[i])
    ensures zones == 1 && AllocateRun(bits, 1).1.Allocated? ==> AllocateRun(bits, 1).0 == Alloc(bits).0
  {
    var f := RunStart(bits);
    if f < |bits| && RunEnd(bits) - f >= 1 {
      assert Filled(bits, f, f + 1, true) == bits[f := true];
    }
  }

  /** A search that runs to the end of the span. */
  method FindInSpan(mem: array<bv8>, b: Iter, e: Iter, v: bool) returns (it: Iter)
    requires b.Valid() && e.Valid() && b.Pos() <= e.Pos() == 8 * mem.Length < TWO_63
    ensures it.Valid() && it.Pos() == FirstFrom(Bits(mem[..]), b.Pos(), v)
    ensures it == e <==> it.Pos() == 8 * mem.Length
  {
    it := Find(mem, b, e, v);
    ghost var bits := Bits(mem[..]);
    assert bits[..e.Pos()] == bits;
    OrderMatchesIndex(it, e);
  }

  /** The run allocator over packed memory. `size` is the byte length of the whole map. */
  method AllocateZones(mem: array<bv8>, size: nat, zones: nat) returns (r: Outcome)
    requires mem.Length == 8 * size && 8 * mem.Length < TWO_63
    modifies mem
    ensures Bits(mem[..]) == AllocateRun(old(Bits(mem[..])), zones).0
    ensures r == AllocateRun(old(Bits(mem[..])), zones).1
  {
    var e := Start(size * 8);
    var b := Start(0);
    ghost var bits := Bits(mem[..]);
    var it := FindInSpan(mem, b, e, false);
    while it != e
      invariant it.Valid() && it.Pos() <= e.Pos()
      invariant it == e <==> it.Pos() == 8 * mem.Length
      invariant Bits(mem[..]) == bits
      invariant it.Pos() == RunStart(bits)
                || (it.Pos() == RunEnd(bits) && RunStart(bits) < |bits| && RunEnd(bits) - RunStart(bits) < zones)
      decreases e.Pos() - it.Pos()
    {
      var jt := FindInSpan(mem, it, e, true);
      var run := Minus(jt, it);
      if run >= zones {
        var end := Plus(it, zones);
        Fill(mem, it, end, true);
        var index := Minus(it, b);
        return Allocated(index);
      }
      if jt == it {
        return Diverges;
      }
      OrderMatchesIndex(jt, it);
      it := jt;
    }
    return Terminated;
  }

  /** Allocates the first clear bit; running off the span terminates the program. */
  method AllocateInode(mem: array<bv8>, size: nat) returns (r: Outcome)
    requires mem.Length == 8 * size && 8 * mem.Length < TWO_63
    modifies mem
    ensures Bits(mem[..]) == Alloc(old(Bits(mem[..]))).0
    ensures r == match Alloc(old(Bits(mem[..]))).1 case None => Terminated case Some(i) => Allocated(i)
  {
    var e := Start(size * 8);
    var b := Start(0);
    ghost var bits := Bits(mem[..]);
    var it := FindInSpan(mem, b, e, false);
    if it != e {
      StoreAt(mem, it, true);
      var index := Minus(it, b);
      r := Allocated(index);
    } else {
      r := Terminated;
    }
  }

  /** The three fills that initialise a map: bit 0 taken, `[1, limit)` free, `[limit, bits)` reserved. */
  method FillMap(mem: array<bv8>, limit: nat, bits: nat)
    requires 1 <= limit <= bits <= 8 * mem.Length && 8 * mem.Length < TWO_63
    modifies mem
    ensures Shape(Bits(mem[..])[..bits], 1, limit)
    ensures Bits(mem[..])[bits..] == old(Bits(mem[..])[bits..])
  {
    var it := Start(0);
    var one := Plus(it, 1);
    var mid := Plus(it, limit);
    var end := Plus(it, bits);
    Fill(mem, it, one, true);
    Fill(mem, one, mid, false);
    Fill(mem, mid, end, true);
  }

  lemma {:induction false} MapSizes(c: Config)
    requires c.Accepted()
    ensures 512 <= c.BlockSize() <= 4096
    ensures 3 < c.NumZones() <= 8 * c.BlockSize()
    ensures 8 <= c.NumInodes() <= 8 * c.BlockSize()
  {
    EntryBlocksSmall(c);
    AcceptedSizes(c);
    MulMonotone(1, c.InodeEntryBlocks(), c.InodesInBlock());
  }

  /** The formatter object: the two map blocks with the memory behind them. */
  class Maps {
    const c: Config
    const zoneMem: array<bv8>
    const inodeMem: array<bv8>

    ghost predicate Valid() {
      && c.Accepted() && zoneMem != inodeMem
      && zoneMem.Length == inodeMem.Length == 8 * c.BlockSize()
    }

    /** The bits that are written to the device, as opposed to the memory after them. */
    ghost function ZoneBits(): (r: seq<bool>)
      requires Valid()
      reads zoneMem
    {
      Bits(zoneMem[..])[..8 * c.BlockSize()]
    }

    ghost function InodeBits(): (r: seq<bool>)
      requires Valid()
      reads inodeMem
    {
      Bits(inodeMem[..])[..8 * c.BlockSize()]
    }

    /** Whatever the blocks held, only the numbers from 1 up to the limits are free afterwards. */
    constructor (c: Config, zoneMem: array<bv8>, inodeMem: array<bv8>)
      requires c.Accepted() && zoneMem != inodeMem
      requires zoneMem.Length == inodeMem.Length == 8 * c.BlockSize()
      modifies zoneMem, inodeMem
      ensures Valid() && this.c == c && this.zoneMem == zoneMem && this.inodeMem == inodeMem
      ensures Shape(ZoneBits(), 1, c.NumZones()) && Shape(InodeBits(), 1, c.NumInodes())
    {
      this.c, this.zoneMem, this.inodeMem := c, zoneMem, inodeMem;
      new;
      MapSizes(c);
      FillMap(zoneMem, c.NumZones(), 8 * c.BlockSize());
      FillMap(inodeMem, c.NumInodes(), 8 * c.BlockSize());
    }

    /**
     Allocation of the root directory. Both assertions of the source hold for every accepted zone
     size, whatever memory follows the maps, and afterwards bit `k` of a map is clear exactly
     when `2 <= k` and `k` is below the limit.
     */
    method MkRootDir() returns (inode: Outcome, zone: Outcome, block: nat)
      requires Valid()
      requires Shape(ZoneBits(), 1, c.NumZones()) && Shape(InodeBits(), 1, c.NumInodes())
      modifies zoneMem, inodeMem
      ensures inode == Allocated(1) && zone == Allocated(1) && block == c.RootBlock()
      ensures Shape(ZoneBits(), 2, c.NumZones()) && Shape(InodeBits(), 2, c.NumInodes())
    {
      MapSizes(c);
      var bytes := 2 * 64;
      var zones := (bytes + c.zoneSize - 1) / c.zoneSize;
      assert zones == 1 by { DivModUnique(bytes + c.zoneSize - 1, c.zoneSize, 1, bytes - 1); }
      RootBitIsFree(Bits(inodeMem[..]), 8 * c.BlockSize(), c.NumInodes());
      RootBitIsFree(Bits(zoneMem[..]), 8 * c.BlockSize(), c.NumZones());
      inode := AllocateInode(inodeMem, c.BlockSize());
      zone := AllocateZones(zoneMem, c.BlockSize(), zones);
      block := c.BlocksPerZone() + RoundUp(c.inodeMapBlocks + c.InodeEntryBlocks() + c.zoneMapBlocks + 1, c.alignment);
    }
  }

  /** The first allocation from a freshly filled map, in a span of memory that continues after the map. */
  lemma {:induction false} RootBitIsFree(span: seq<bool>, bits: nat, limit: nat)
    requires 3 < limit <= bits <= |span| && Shape(span[..bits], 1, limit)
    ensures Alloc(span) == (span[1 := true], Some(1))
    ensures AllocateRun(span, 1) == (span[1 := true], Allocated(1))
    ensures Shape(span[1 := true][..bits], 2, limit)
  {
    assert span[..bits][0] && !span[..bits][1];
    assert FirstFree(span) == 1;
    assert Filled(span, 1, 2, true) == span[1 := true];
  }

  /**
   The search for the end of the root's run stays inside the map exactly when the map has a
   reserved tail. With as many zones as the map has bits, it reads the memory after the map.
   */
  lemma {:induction false} RootScanStaysInsideWhen(c: Config, span: seq<bool>)
    requires c.Accepted() && |span| == 64 * c.BlockSize() && Shape(span[..8 * c.BlockSize()], 1, c.NumZones())
    ensures RunEnd(span) < 8 * c.BlockSize() <==> c.NumZones() < 8 * c.BlockSize()
  {
    MapSizes(c);
    RootBitIsFree(span, 8 * c.BlockSize(), c.NumZones());
    var bits := span[..8 * c.BlockSize()];
    assert forall i: nat :: i < |bits| ==> span[i] == bits[i];
    if c.NumZones() < 8 * c.BlockSize() {
      assert span[c.NumZones()];
    }
  }
}
