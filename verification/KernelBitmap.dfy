/**
 The kernel's zone and inode allocators over the map buffers read at mount. The multi-block scan
 is proved to be first fit on the flat map.
 */
module KernelBitmap {
  import opened Numbers
  import opened PackedBits
  import opened Options
  import opened FirstFit
  import Layout
  import MapBlocks

  /** The search for the least clear bit of one little-endian map buffer. */
  method FindFirstZeroBit(buf: array<bv8>) returns (j: nat)
    ensures j == FirstFree(Bits(buf[..]))
  {
    j := 0;
    ghost var bits := Bits(buf[..]);
    while j < 8 * buf.Length && IsSet(buf[j / 8], j % 8)
      invariant j <= 8 * buf.Length
      invariant forall i: nat :: i < j ==> bits[i]
    {
      assert bits[j] == TestBit(buf[..], j);
      j := j + 1;
    }
    assert j < 8 * buf.Length ==> bits[j] == TestBit(buf[..], j);
  }

  method SetBit(buf: array<bv8>, j: nat)
    requires j < 8 * buf.Length
    modifies buf
    ensures Bits(buf[..]) == old(Bits(buf[..]))[j := true]
  {
    ghost var was := buf[..];
    buf[j / 8] := Assign(buf[j / 8], j % 8, true);
    assert buf[..] == StoreBit(was, j, true);
    StoreBitIsPointUpdate(was, j, true);
  }

  /** `s_zmap` or `s_imap`: the buffers of one on-device bitmap. */
  class BlockMap {
    const blocks: seq<array<bv8>>
    const blockSize: nat
    /** The buffers marked dirty. */
    var dirty: set<nat>

    ghost predicate Valid() {
      && blockSize > 0
      && (forall i: nat :: i < |blocks| ==> blocks[i].Length == blockSize)
      && (forall i: nat, j: nat :: i < j < |blocks| ==> blocks[i] != blocks[j])
    }

    ghost function BlockBits(): (r: seq<seq<bool>>)
      requires Valid()
      reads blocks
      ensures |r| == |blocks| && MapBlocks.Uniform(r, 8 * blockSize)
      ensures forall i: nat :: i < |blocks| ==> r[i] == Bits(blocks[i][..])
    {
      seq(|blocks|, (i: nat) requires i < |blocks| reads blocks => Bits(blocks[i][..]))
    }

    /** The whole map as one sequence of bits. */
    ghost function Flat(): (r: seq<bool>)
      requires Valid()
      reads blocks
    {
      MapBlocks.Flat(BlockBits(), 8 * blockSize)
    }

    constructor (bufs: seq<array<bv8>>, size: nat)
      requires size > 0
      requires forall i: nat :: i < |bufs| ==> bufs[i].Length == size
      requires forall i: nat, j: nat :: i < j < |bufs| ==> bufs[i] != bufs[j]
      ensures Valid() && blocks == bufs && blockSize == size && dirty == {}
    {
      blocks, blockSize, dirty := bufs, size, {};
    }

    /** The buffer that one allocation from this map marks. */
    function DirtiedBy(bits: seq<bool>): (r: set<nat>)
      requires blockSize > 0
    {
      match Alloc(bits).1 case None => {} case Some(f) => {f / (8 * blockSize)}
    }

    /** The search loop of both allocators: the first buffer with a clear bit, and that bit. */
    method Scan() returns (i: nat, j: nat)
      requires Valid()
      ensures i <= |blocks| && (i == |blocks| <==> j == 8 * blockSize)
      ensures forall b: nat :: b < i ==> Full(BlockBits()[b])
      ensures i < |blocks| ==> j == FirstFree(BlockBits()[i]) < 8 * blockSize
    {
      i, j := 0, 8 * blockSize;
      while i < |blocks|
        invariant i <= |blocks| && j == 8 * blockSize
        invariant forall b: nat :: b < i ==> Full(BlockBits()[b])
      {
        j := FindFirstZeroBit(blocks[i]);
        assert j == FirstFree(BlockBits()[i]);
        if j < 8 * blockSize {
          return;
        }
        i := i + 1;
      }
    }

    /** Sets bit `j` of buffer `i`, which the scan found to be the least clear bit, and marks the buffer. */
    method Take(i: nat, j: nat)
      requires Valid() && i < |blocks| && j < 8 * blockSize
      requires forall b: nat :: b < i ==> Full(BlockBits()[b])
      requires j == FirstFree(BlockBits()[i])
      modifies this, blocks
      ensures i * (8 * blockSize) + j == FirstFree(old(Flat())) < |old(Flat())|
      ensures Flat() == Alloc(old(Flat())).0
      ensures dirty == old(dirty) + {FirstFree(old(Flat())) / (8 * blockSize)}
    {
      ghost var was := BlockBits();
      MapBlocks.ScanFindsFirstFree(was, 8 * blockSize, i);
      MapBlocks.FlatUpdate(was, 8 * blockSize, i, j);
      MapBlocks.FlatAt(was, 8 * blockSize, i, j);
      SetBit(blocks[i], j);
      dirty := dirty + {i};
      assert BlockBits() == was[i := was[i][j := true]];
    }

    /**
     Allocates a zone: the result is the device block of the least free bit of the whole map, as it
     comes through the two `int` conversions, or 0 with the map untouched when every block is full.
     */
    method NewZone(sb: Layout.Super) returns (r: int)
      requires Valid() && sb.Valid()
      modifies this, blocks
      ensures dirty == old(dirty) + DirtiedBy(old(Flat()))
      ensures Flat() == Alloc(old(Flat())).0
      ensures r == match Alloc(old(Flat())).1 case None => 0 case Some(f) => Layout.ZoneNumber(sb, f)
    {
      var i, j := Scan();
      if i == |blocks| {
        MapBlocks.FlatFull(BlockBits(), 8 * blockSize);
        return 0;
      }
      Take(i, j);
      var bit := Int32(j + i * (8 * blockSize));
      if bit < 0 {
        return 0;
      }
      return Int32(bit * sb.blocksPerZone + sb.DataBase());
    }

    /**
     Allocates an inode number: the least free bit of the whole map. Bit 0 is not a number, so
     if it was free it is lost and the call fails.
     */
    method NewInode() returns (ino: Option<nat>)
      requires Valid()
      modifies this, blocks
      ensures dirty == old(dirty) + DirtiedBy(old(Flat()))
      ensures Flat() == Alloc(old(Flat())).0
      ensures ino == if Alloc(old(Flat())).1 == Some(0) then None else Alloc(old(Flat())).1
    {
      var i, j := Scan();
      if j >= 8 * blockSize {
        MapBlocks.FlatFull(BlockBits(), 8 * blockSize);
        return None;
      }
      Take(i, j);
      j := j + i * (8 * blockSize);
      if j == 0 {
        return None;
      }
      return Some(j);
    }
  }
}
