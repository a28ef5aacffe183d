/**
 The metadata blocks of the device: the zone map and the inode table as bytes, what a write-back
 puts there, and what a mount reads from there.
 */
module Metadata {
  import opened Numbers
  import opened Options
  import opened Endian
  import opened Layout
  import opened MapBlocks
  import opened InodeTable

  type Disk = map<int, seq<Byte>>

  /** The first `size` bytes of a block; what was never written is zero. */
  function BlockOf(disk: Disk, size: nat, b: int): (r: seq<Byte>)
    ensures |r| == size
    ensures b in disk && |disk[b]| == size ==> r == disk[b]
  {
    seq(size, (k: nat) requires k < size => if b in disk && k < |disk[b]| then disk[b][k] else 0)
  }

  // ---------------------------------------------------------------- bits in bytes

  /** Bit `k` of a number. */
  predicate Bit(n: nat, k: nat) {
    if k == 0 then n % 2 == 1 else Bit(n / 2, k - 1)
  }

  /** The number with these bits, least significant first. */
  function Number(bits: seq<bool>): (r: nat)
    ensures r < Pow2(|bits|)
  {
    if bits == [] then 0 else (if bits[0] then 1 else 0) + 2 * Number(bits[1..])
  }

  lemma {:induction false} BitOfNumber(bits: seq<bool>, k: nat)
    requires k < |bits|
    ensures Bit(Number(bits), k) == bits[k]
  {
    if k > 0 {
      BitOfNumber(bits[1..], k - 1);
      assert Number(bits) / 2 == Number(bits[1..]);
    }
  }

  predicate ByteBit(b: Byte, k: nat)
    requires k < 8
  {
    Bit(b, k)
  }

  function PackByte(bits: seq<bool>): (r: Byte)
    requires |bits| == 8
  {
    SmallPowers();
    Number(bits)
  }

  lemma {:induction false} PackedBit(bits: seq<bool>, k: nat)
    requires |bits| == 8 && k < 8
    ensures ByteBit(PackByte(bits), k) == bits[k]
  {
    BitOfNumber(bits, k);
  }

  /** A map block as bits. */
  function Unpack(bytes: seq<Byte>): (r: seq<bool>)
    ensures |r| == 8 * |bytes|
    ensures forall j: nat :: j < |r| ==> r[j] == ByteBit(bytes[j / 8], j % 8)
  {
    seq(8 * |bytes|, (j: nat) requires j < 8 * |bytes| => ByteBit(bytes[j / 8], j % 8))
  }

  /** Bits as a map block. */
  function Pack(bits: seq<bool>, size: nat): (r: seq<Byte>)
    requires |bits| == 8 * size
    ensures |r| == size
    ensures forall k: nat :: k < size ==> r[k] == PackByte(bits[8 * k..8 * k + 8])
  {
    seq(size, (k: nat) requires k < size => PackByte(bits[8 * k..8 * k + 8]))
  }

  lemma {:induction false} UnpackPack(bits: seq<bool>, size: nat)
    requires |bits| == 8 * size
    ensures Unpack(Pack(bits, size)) == bits
  {
    var r := Unpack(Pack(bits, size));
    forall j: nat | j < |bits|
      ensures r[j] == bits[j]
    {
      var k := j / 8;
      PackedBit(bits[8 * k..8 * k + 8], j % 8);
      assert bits[8 * k..8 * k + 8][j % 8] == bits[j];
    }
  }

  // ---------------------------------------------------------------- the two maps

  /** The bits of map block `i`. */
  function Segment(bits: seq<bool>, n: nat, count: nat, i: nat): (r: seq<bool>)
    requires |bits| == count * n && i < count
    ensures |r| == n
  {
    MulMonotone(i + 1, count, n);
    assert i * n + n == (i + 1) * n;
    bits[i * n..i * n + n]
  }

  /**
   Block `i` of the map that starts at device block `start`, as a mount reads it; bit 0 of the map is set once
   more.
   */
  function LoadedBlock(disk: Disk, size: nat, start: nat, i: nat): (r: seq<bool>)
    requires size > 0
    ensures |r| == 8 * size
  {
    var bits := Unpack(BlockOf(disk, size, start + i));
    if i == 0 then bits[0 := true] else bits
  }

  function LoadedBlocks(disk: Disk, size: nat, start: nat, count: nat): (r: seq<seq<bool>>)
    requires size > 0
    ensures |r| == count && Uniform(r, 8 * size)
    ensures forall i: nat :: i < count ==> r[i] == LoadedBlock(disk, size, start, i)
  {
    seq(count, (i: nat) requires i < count => LoadedBlock(disk, size, start, i))
  }

  /** A whole map as a mount reads it. */
  function LoadedMap(disk: Disk, size: nat, start: nat, count: nat): (r: seq<bool>)
    requires size > 0
    ensures |r| == count * (8 * size)
  {
    Flat(LoadedBlocks(disk, size, start, count), 8 * size)
  }

  lemma {:induction false} SegmentOfFlat(blocks: seq<seq<bool>>, n: nat, i: nat)
    requires Uniform(blocks, n) && i < |blocks|
    ensures Segment(Flat(blocks, n), n, |blocks|, i) == blocks[i]
  {
    var seg := Segment(Flat(blocks, n), n, |blocks|, i);
    forall j: nat | j < n
      ensures seg[j] == blocks[i][j]
    {
      SegmentAt(Flat(blocks, n), n, |blocks|, i, j);
      FlatAt(blocks, n, i, j);
    }
  }

  lemma {:induction false} FlatFromSegments(blocks: seq<seq<bool>>, n: nat, bits: seq<bool>)
    requires Uniform(blocks, n) && |bits| == |blocks| * n
    requires forall i: nat :: i < |blocks| ==> blocks[i] == Segment(bits, n, |blocks|, i)
    ensures Flat(blocks, n) == bits
  {
    var flat := Flat(blocks, n);
    forall k: nat | k < |bits|
      ensures flat[k] == bits[k]
    {
      SplitIndex(k, |blocks|, n);
      SegmentAt(bits, n, |blocks|, k / n, k % n);
      FlatAt(blocks, n, k / n, k % n);
      assert k == k / n * n + k % n;
    }
  }

  lemma {:induction false} SegmentAt(bits: seq<bool>, n: nat, count: nat, i: nat, j: nat)
    requires |bits| == count * n && i < count && j < n
    ensures i * n + j < |bits| && Segment(bits, n, count, i)[j] == bits[i * n + j]
  {
    MulMonotone(i + 1, count, n);
    assert i * n + n == (i + 1) * n;
  }

  /** A flat map holds the bits of these blocks exactly when each of its segments equals its block. */
  lemma {:induction false} FlatIsSegments(blocks: seq<seq<bool>>, n: nat, bits: seq<bool>)
    requires Uniform(blocks, n) && |bits| == |blocks| * n
    ensures Flat(blocks, n) == bits <==> forall i: nat :: i < |blocks| ==> blocks[i] == Segment(bits, n, |blocks|, i)
  {
    if Flat(blocks, n) == bits {
      forall i: nat | i < |blocks|
        ensures blocks[i] == Segment(bits, n, |blocks|, i)
      {
        SegmentOfFlat(blocks, n, i);
      }
    }
    if forall i: nat :: i < |blocks| ==> blocks[i] == Segment(bits, n, |blocks|, i) {
      FlatFromSegments(blocks, n, bits);
    }
  }

  // ---------------------------------------------------------------- the inode table

  /** The record of an inode number lies inside one block of the table. Number 0 has none. */
  predicate Housed(sb: Super, size: nat, ino: nat) {
    && sb.inodesInBlock == 64 && 0 < ino
    && sb.InodeOffset(ino) + INODE_SIZE <= size && sb.InodeBlock(ino) < sb.MetaBlocks()
  }

  /** The 64 bytes of an inode. */
  function RecordOf(sb: Super, disk: Disk, size: nat, ino: nat): (r: seq<Byte>)
    requires Housed(sb, size, ino)
    ensures |r| == 64
  {
    BlockOf(disk, size, sb.InodeBlock(ino))[sb.InodeOffset(ino)..sb.InodeOffset(ino) + 64]
  }

  /** The blocks that are written as a whole: superblock, zone map, inode map. */
  predicate IsWholeBlock(sb: Super, b: int) {
    0 <= b < 1 + sb.inodeMapBlocks + sb.zoneMapBlocks
  }

  predicate IsTableBlock(sb: Super, b: int) {
    1 + sb.inodeMapBlocks + sb.zoneMapBlocks <= b < sb.MetaBlocks()
  }

  // ---------------------------------------------------------------- write-back

  /** Whole blocks by their device number. */
  predicate GoodMaps(sb: Super, size: nat, maps: map<nat, seq<Byte>>) {
    forall b :: b in maps ==> IsWholeBlock(sb, b) && |maps[b]| == size
  }

  predicate GoodRecords(sb: Super, size: nat, recs: map<nat, seq<Byte>>) {
    forall ino :: ino in recs ==> Housed(sb, size, ino) && |recs[ino]| == 64
  }

  /** The blocks of the table that hold one of these records. */
  function TableBlocks(sb: Super, recs: set<nat>): (r: set<int>)
    requires sb.inodesInBlock == 64
  {
    set ino | ino in recs :: sb.InodeBlock(ino)
  }

  /** The number of the inode whose record covers byte `k` of block `b`. */
  function Resident(sb: Super, b: int, k: nat): (r: int) {
    (b - (1 + sb.inodeMapBlocks + sb.zoneMapBlocks)) * 64 + k / 64
  }

  /** Byte `k` of table block `b` after the records have been written into it. */
  function TableByte(sb: Super, disk: Disk, size: nat, recs: map<nat, seq<Byte>>, b: int, k: nat): (r: Byte)
    requires GoodRecords(sb, size, recs) && k < size
  {
    var ino := Resident(sb, b, k);
    if ino >= 0 && ino in recs && k / 64 < 64 then recs[ino][k % 64] else BlockOf(disk, size, b)[k]
  }

  function TableBlock(sb: Super, disk: Disk, size: nat, recs: map<nat, seq<Byte>>, b: int): (r: seq<Byte>)
    requires GoodRecords(sb, size, recs)
    ensures |r| == size
    ensures forall k: nat :: k < size ==> r[k] == TableByte(sb, disk, size, recs, b, k)
  {
    seq(size, (k: nat) requires k < size => TableByte(sb, disk, size, recs, b, k))
  }

  /** The device after these whole blocks and these inode records have been written, in any order. */
  function SyncDisk(sb: Super, size: nat, disk: Disk, maps: map<nat, seq<Byte>>, recs: map<nat, seq<Byte>>): (r: Disk)
    requires sb.inodesInBlock == 64 && GoodMaps(sb, size, maps) && GoodRecords(sb, size, recs)
  {
    map b | b in disk.Keys + maps.Keys + TableBlocks(sb, recs.Keys) :: SyncedBlock(sb, size, disk, maps, recs, b)
  }

  function SyncedBlock(sb: Super, size: nat, disk: Disk, maps: map<nat, seq<Byte>>, recs: map<nat, seq<Byte>>,
                       b: int): (r: seq<Byte>)
    requires sb.inodesInBlock == 64 && GoodRecords(sb, size, recs)
    requires b in disk.Keys + maps.Keys + TableBlocks(sb, recs.Keys)
  {
    if b >= 0 && b in maps then maps[b]
    else if b in TableBlocks(sb, recs.Keys) then TableBlock(sb, disk, size, recs, b)
    else disk[b]
  }

  /** The number found from a position is the one whose record covers it, and only that one. */
  lemma {:induction false} ResidentWhen(sb: Super, ino: nat, b: int, k: nat)
    requires sb.inodesInBlock == 64 && k / 64 < 64
    ensures Resident(sb, b, k) == ino <==> sb.InodeBlock(ino) == b && sb.InodeOffset(ino) == 64 * (k / 64)
  {
    if Resident(sb, b, k) == ino {
      DivModUnique(ino, 64, b - (1 + sb.inodeMapBlocks + sb.zoneMapBlocks), k / 64);
    }
  }

  lemma {:induction false} InSlot(sb: Super, ino: nat, k: nat)
    requires sb.inodesInBlock == 64
    ensures sb.InodeOffset(ino) == 64 * (k / 64) <==> sb.InodeOffset(ino) <= k < sb.InodeOffset(ino) + 64
    ensures sb.InodeOffset(ino) == 64 * (k / 64) ==> k % 64 == k - sb.InodeOffset(ino) && k / 64 < 64
  {
    var q := ino % 64;
    if 64 * q <= k < 64 * q + 64 {
      DivModUnique(k, 64, q, k - 64 * q);
    }
  }

  /** A table block after the records have been written holds each record in its place, and the rest as it was. */
  lemma {:induction false} TableRecord(sb: Super, disk: Disk, size: nat, recs: map<nat, seq<Byte>>, ino: nat)
    requires GoodRecords(sb, size, recs) && Housed(sb, size, ino)
    ensures TableBlock(sb, disk, size, recs, sb.InodeBlock(ino))[sb.InodeOffset(ino)..sb.InodeOffset(ino) + 64] ==
            if ino in recs then recs[ino] else RecordOf(sb, disk, size, ino)
  {
    var b, off := sb.InodeBlock(ino), sb.InodeOffset(ino);
    var got := TableBlock(sb, disk, size, recs, b);
    var want := if ino in recs then recs[ino] else RecordOf(sb, disk, size, ino);
    forall m: nat | m < 64
      ensures got[off..off + 64][m] == want[m]
    {
      InSlot(sb, ino, off + m);
      ResidentWhen(sb, ino, b, off + m);
      assert got[off + m] == TableByte(sb, disk, size, recs, b, off + m);
    }
  }

  /** A table block of the written device, touched or not. */
  lemma {:induction false} TableIsSynced(sb: Super, size: nat, disk: Disk, maps: map<nat, seq<Byte>>,
                                         recs: map<nat, seq<Byte>>, b: int)
    requires sb.inodesInBlock == 64 && GoodMaps(sb, size, maps) && GoodRecords(sb, size, recs) && IsTableBlock(sb, b)
    ensures BlockOf(SyncDisk(sb, size, disk, maps, recs), size, b) == TableBlock(sb, disk, size, recs, b)
  {
    var r := SyncDisk(sb, size, disk, maps, recs);
    assert b !in maps.Keys;
    if b in TableBlocks(sb, recs.Keys) {
      assert r[b] == TableBlock(sb, disk, size, recs, b);
    } else {
      assert b in r <==> b in disk;
      UntouchedTable(sb, disk, size, recs, b);
    }
  }

  lemma {:induction false} UntouchedTable(sb: Super, disk: Disk, size: nat, recs: map<nat, seq<Byte>>, b: int)
    requires sb.inodesInBlock == 64 && GoodRecords(sb, size, recs) && b !in TableBlocks(sb, recs.Keys)
    ensures TableBlock(sb, disk, size, recs, b) == BlockOf(disk, size, b)
  {
    forall k: nat | k < size
      ensures TableByte(sb, disk, size, recs, b, k) == BlockOf(disk, size, b)[k]
    {
      if k / 64 < 64 && Resident(sb, b, k) >= 0 {
        ResidentWhen(sb, Resident(sb, b, k), b, k);
      }
    }
  }

  /** Each whole block written holds what was written, and every other one what it held. */
  lemma {:induction false} SyncedMap(sb: Super, size: nat, disk: Disk, maps: map<nat, seq<Byte>>,
                                     recs: map<nat, seq<Byte>>, b: nat)
    requires sb.inodesInBlock == 64 && GoodMaps(sb, size, maps) && GoodRecords(sb, size, recs) && IsWholeBlock(sb, b)
    ensures BlockOf(SyncDisk(sb, size, disk, maps, recs), size, b) ==
            if b in maps then maps[b] else BlockOf(disk, size, b)
  {
    var r := SyncDisk(sb, size, disk, maps, recs);
    assert b !in TableBlocks(sb, recs.Keys);
    if b in maps {
      assert r[b] == maps[b];
    } else {
      assert b in r <==> b in disk;
    }
  }

  /** Each record written is in its place, and every other number's record is as it was. */
  lemma {:induction false} SyncedRecord(sb: Super, size: nat, disk: Disk, maps: map<nat, seq<Byte>>,
                                        recs: map<nat, seq<Byte>>, ino: nat)
    requires sb.inodesInBlock == 64 && GoodMaps(sb, size, maps) && GoodRecords(sb, size, recs) && Housed(sb, size, ino)
    ensures RecordOf(sb, SyncDisk(sb, size, disk, maps, recs), size, ino) ==
            if ino in recs then recs[ino] else RecordOf(sb, disk, size, ino)
  {
    TableIsSynced(sb, size, disk, maps, recs, sb.InodeBlock(ino));
    TableRecord(sb, disk, size, recs, ino);
  }

  /** A block that is neither written as a whole nor a table block is not touched. */
  lemma {:induction false} SyncedElsewhere(sb: Super, size: nat, disk: Disk, maps: map<nat, seq<Byte>>,
                                           recs: map<nat, seq<Byte>>, b: int)
    requires sb.inodesInBlock == 64 && GoodMaps(sb, size, maps) && GoodRecords(sb, size, recs)
    requires b !in maps.Keys && !IsTableBlock(sb, b)
    ensures b in SyncDisk(sb, size, disk, maps, recs) <==> b in disk
    ensures b in disk ==> SyncDisk(sb, size, disk, maps, recs)[b] == disk[b]
  {
  }

  // ---------------------------------------------------------------- one block at a time

  /** Writing one more whole block. */
  lemma {:induction false} SyncOneMap(sb: Super, size: nat, disk: Disk, maps: map<nat, seq<Byte>>,
                                      recs: map<nat, seq<Byte>>, b: nat, bytes: seq<Byte>)
    requires sb.inodesInBlock == 64 && GoodMaps(sb, size, maps) && GoodRecords(sb, size, recs)
    requires IsWholeBlock(sb, b) && |bytes| == size
    ensures GoodMaps(sb, size, maps[b := bytes])
    ensures SyncDisk(sb, size, disk, maps[b := bytes], recs) == SyncDisk(sb, size, disk, maps, recs)[b := bytes]
  {
    var was, now := SyncDisk(sb, size, disk, maps, recs), SyncDisk(sb, size, disk, maps[b := bytes], recs);
    assert maps[b := bytes].Keys == maps.Keys + {b};
    forall c | c in now
      ensures now[c] == was[b := bytes][c]
    {
      OneMapBlock(sb, size, disk, maps, recs, b, bytes, c);
    }
    SameMap(now, was[b := bytes]);
  }

  lemma {:induction false} OneMapBlock(sb: Super, size: nat, disk: Disk, maps: map<nat, seq<Byte>>,
                                       recs: map<nat, seq<Byte>>, b: nat, bytes: seq<Byte>, c: int)
    requires sb.inodesInBlock == 64 && GoodRecords(sb, size, recs)
    requires c in disk.Keys + maps[b := bytes].Keys + TableBlocks(sb, recs.Keys)
    ensures SyncedBlock(sb, size, disk, maps[b := bytes], recs, c) ==
            if c == b then bytes else SyncedBlock(sb, size, disk, maps, recs, c)
  {
  }

  lemma SameMap<K, T>(a: map<K, T>, b: map<K, T>)
    requires a.Keys == b.Keys && forall c :: c in a ==> a[c] == b[c]
    ensures a == b
  {
  }

  lemma {:induction false} OneMoreRecord(sb: Super, size: nat, recs: map<nat, seq<Byte>>, ino: nat, rec: seq<Byte>)
    requires GoodRecords(sb, size, recs) && Housed(sb, size, ino) && |rec| == 64
    ensures GoodRecords(sb, size, recs[ino := rec])
    ensures TableBlocks(sb, recs[ino := rec].Keys) == TableBlocks(sb, recs.Keys) + {sb.InodeBlock(ino)}
  {
    assert recs[ino := rec].Keys == recs.Keys + {ino};
  }

  /** Writing one more record: the block that holds it is read, patched and stored. */
  lemma {:induction false} SyncOneRecord(sb: Super, size: nat, disk: Disk, maps: map<nat, seq<Byte>>,
                                         recs: map<nat, seq<Byte>>, ino: nat, rec: seq<Byte>)
    requires sb.inodesInBlock == 64 && GoodMaps(sb, size, maps) && GoodRecords(sb, size, recs)
    requires Housed(sb, size, ino) && |rec| == 64
    ensures GoodRecords(sb, size, recs[ino := rec])
    ensures var was := SyncDisk(sb, size, disk, maps, recs);
            var b := sb.InodeBlock(ino);
            SyncDisk(sb, size, disk, maps, recs[ino := rec]) ==
            was[b := Patch(BlockOf(was, size, b), sb.InodeOffset(ino), rec)]
  {
    OneMoreRecord(sb, size, recs, ino, rec);
    var was, now := SyncDisk(sb, size, disk, maps, recs), SyncDisk(sb, size, disk, maps, recs[ino := rec]);
    var b := sb.InodeBlock(ino);
    TableIsSynced(sb, size, disk, maps, recs, b);
    PatchedBlock(sb, size, disk, recs, ino, rec);
    var want := was[b := Patch(BlockOf(was, size, b), sb.InodeOffset(ino), rec)];
    forall c | c in want
      ensures want[c] == now[c]
    {
      OneBlock(sb, size, disk, maps, recs, ino, rec, c);
    }
    SameMap(want, now);
  }

  /** How one block of the device changes when one more record is written. */
  lemma {:induction false} OneBlock(sb: Super, size: nat, disk: Disk, maps: map<nat, seq<Byte>>,
                                    recs: map<nat, seq<Byte>>, ino: nat, rec: seq<Byte>, c: int)
    requires sb.inodesInBlock == 64 && GoodMaps(sb, size, maps) && GoodRecords(sb, size, recs)
    requires Housed(sb, size, ino) && |rec| == 64 && GoodRecords(sb, size, recs[ino := rec])
    requires TableBlocks(sb, recs[ino := rec].Keys) == TableBlocks(sb, recs.Keys) + {sb.InodeBlock(ino)}
    requires c in disk.Keys + maps.Keys + TableBlocks(sb, recs[ino := rec].Keys)
    ensures SyncedBlock(sb, size, disk, maps, recs[ino := rec], c) ==
            if c == sb.InodeBlock(ino) then TableBlock(sb, disk, size, recs[ino := rec], c)
            else SyncedBlock(sb, size, disk, maps, recs, c)
  {
    if c != sb.InodeBlock(ino) && c in TableBlocks(sb, recs.Keys) {
      OtherBlock(sb, size, disk, recs, ino, rec, c);
    }
  }

  lemma {:induction false} OtherBlock(sb: Super, size: nat, disk: Disk, recs: map<nat, seq<Byte>>, ino: nat,
                                      rec: seq<Byte>, c: int)
    requires sb.inodesInBlock == 64 && GoodRecords(sb, size, recs) && |rec| == 64
    requires c != sb.InodeBlock(ino) && GoodRecords(sb, size, recs[ino := rec])
    ensures TableBlock(sb, disk, size, recs[ino := rec], c) == TableBlock(sb, disk, size, recs, c)
  {
    forall k: nat | k < size
      ensures TableByte(sb, disk, size, recs[ino := rec], c, k) == TableByte(sb, disk, size, recs, c, k)
    {
      if k / 64 < 64 {
        ResidentWhen(sb, ino, c, k);
      }
    }
  }

  lemma {:induction false} PatchedBlock(sb: Super, size: nat, disk: Disk, recs: map<nat, seq<Byte>>, ino: nat,
                                        rec: seq<Byte>)
    requires sb.inodesInBlock == 64 && GoodRecords(sb, size, recs)
    requires Housed(sb, size, ino) && |rec| == 64 && GoodRecords(sb, size, recs[ino := rec])
    ensures var b := sb.InodeBlock(ino);
            TableBlock(sb, disk, size, recs[ino := rec], b) ==
            Patch(TableBlock(sb, disk, size, recs, b), sb.InodeOffset(ino), rec)
  {
    var b, off := sb.InodeBlock(ino), sb.InodeOffset(ino);
    var was := TableBlock(sb, disk, size, recs, b);
    var now := TableBlock(sb, disk, size, recs[ino := rec], b);
    forall k: nat | k < size
      ensures now[k] == Patch(was, off, rec)[k]
    {
      PatchAt(was, off, rec, k);
      InSlot(sb, ino, k);
      if k / 64 < 64 {
        ResidentWhen(sb, ino, b, k);
      }
      assert now[k] == TableByte(sb, disk, size, recs[ino := rec], b, k);
      assert was[k] == TableByte(sb, disk, size, recs, b, k);
    }
  }

  lemma {:induction false} PatchAt(s: seq<Byte>, at: nat, src: seq<Byte>, k: nat)
    requires at + |src| <= |s| && k < |s|
    ensures Patch(s, at, src)[k] == if at <= k < at + |src| then src[k - at] else s[k]
  {
  }

  // ---------------------------------------------------------------- write-backs one after the other

  /** Write-back of one inode. Number 0 is refused and nothing is written. */
  function WriteInode(sb: Super, size: nat, disk: Disk, ino: nat, i: Inode): (r: Disk)
    requires sb.inodesInBlock == 64 && |i.zones| == POINTERS && (ino == 0 || Housed(sb, size, ino))
  {
    if ino == 0 then disk
    else
      var b := sb.InodeBlock(ino);
      disk[b := Patch(BlockOf(disk, size, b), sb.InodeOffset(ino), Encode(i))]
  }

  /** Writing one inode puts its record in its own place and leaves every other record as it was. */
  lemma {:induction false} WriteInodeIsLocal(sb: Super, size: nat, disk: Disk, ino: nat, i: Inode, other: nat)
    requires |i.zones| == POINTERS && Housed(sb, size, ino) && Housed(sb, size, other)
    ensures RecordOf(sb, WriteInode(sb, size, disk, ino, i), size, other) ==
            if other == ino then Encode(i) else RecordOf(sb, disk, size, other)
  {
    WriteIsSync(sb, size, disk, ino, i);
    SyncedRecord(sb, size, disk, map[], map[ino := Encode(i)], other);
  }

  lemma {:induction false} WriteIsSync(sb: Super, size: nat, disk: Disk, ino: nat, i: Inode)
    requires |i.zones| == POINTERS && Housed(sb, size, ino)
    ensures WriteInode(sb, size, disk, ino, i) == SyncDisk(sb, size, disk, map[], map[ino := Encode(i)])
  {
    var none: map<nat, seq<Byte>> := map[];
    SyncOneRecord(sb, size, disk, map[], none, ino, Encode(i));
    SyncNothing(sb, size, disk);
    assert none[ino := Encode(i)] == map[ino := Encode(i)];
  }

  lemma {:induction false} SyncNothing(sb: Super, size: nat, disk: Disk)
    requires sb.inodesInBlock == 64
    ensures SyncDisk(sb, size, disk, map[], map[]) == disk
  {
    SameMap(SyncDisk(sb, size, disk, map[], map[]), disk);
  }

  datatype WriteBack = WriteBack(ino: nat, inode: Inode)

  predicate Writable(sb: Super, size: nat, ws: seq<WriteBack>) {
    sb.inodesInBlock == 64 && forall k: nat :: k < |ws| ==> Housed(sb, size, ws[k].ino) && ws[k].inode.WellTyped()
  }

  function WriteAll(sb: Super, size: nat, disk: Disk, ws: seq<WriteBack>): (r: Disk)
    requires Writable(sb, size, ws)
  {
    if ws == [] then disk
    else
      var n := |ws| - 1;
      WriteInode(sb, size, WriteAll(sb, size, disk, ws[..n]), ws[n].ino, ws[n].inode)
  }

  /** The last write-back of an inode. */
  function LastWrite(ws: seq<WriteBack>, ino: nat): (r: Option<Inode>)
    ensures r.Some? ==> WriteBack(ino, r.value) in ws
  {
    if ws == [] then None
    else if ws[|ws| - 1].ino == ino then Some(ws[|ws| - 1].inode)
    else LastWrite(ws[..|ws| - 1], ino)
  }

  /**
   After any sequence of write-backs each place holds the last record written for its number, or what it held
   before.
   */
  lemma {:induction false} WriteAllKeepsLast(sb: Super, size: nat, disk: Disk, ws: seq<WriteBack>, ino: nat)
    requires Writable(sb, size, ws) && Housed(sb, size, ino)
    ensures RecordOf(sb, WriteAll(sb, size, disk, ws), size, ino) ==
            match LastWrite(ws, ino) case None => RecordOf(sb, disk, size, ino) case Some(i) => Encode(i)
  {
    if ws != [] {
      var n := |ws| - 1;
      WriteAllKeepsLast(sb, size, disk, ws[..n], ino);
      WriteInodeIsLocal(sb, size, WriteAll(sb, size, disk, ws[..n]), ws[n].ino, ws[n].inode, ino);
    }
  }

  /** The inode in a place, as the kernel decodes it. */
  function Loaded(sb: Super, disk: Disk, size: nat, ino: nat): (i: Inode)
    requires Housed(sb, size, ino)
    ensures i.WellTyped()
  {
    DecodedTyped(RecordOf(sb, disk, size, ino));
    Decode(RecordOf(sb, disk, size, ino))
  }

  /** The read path: other file types are refused. */
  function InodeGet(sb: Super, disk: Disk, size: nat, ino: nat): (r: Option<Inode>)
    requires Housed(sb, size, ino)
    ensures r.Some? ==> r.value.WellTyped()
  {
    var i := Loaded(sb, disk, size, ino);
    if RegularOrDirectory(i.mode) then Some(i) else None
  }

  /** Which records are read at all: those of directories and regular files, whatever their permissions. */
  lemma {:induction false} InodeIsReadWhen(sb: Super, disk: Disk, size: nat, ino: nat)
    requires Housed(sb, size, ino)
    ensures var i := Decode(RecordOf(sb, disk, size, ino));
            InodeGet(sb, disk, size, ino) ==
            if 0x4000 <= i.mode < 0x5000 || 0x8000 <= i.mode < 0x9000 then Some(i) else None
  {
    DecodedTyped(RecordOf(sb, disk, size, ino));
    AcceptedModes(Decode(RecordOf(sb, disk, size, ino)).mode);
  }

  /**
   After any sequence of write-backs a fresh read of an inode returns exactly the inode last written
   back if that one is a file or directory whose fields fit the record, and only then.
   */
  lemma {:induction false} RereadRestoresWhen(sb: Super, size: nat, disk: Disk, ws: seq<WriteBack>, ino: nat)
    requires Writable(sb, size, ws) && Housed(sb, size, ino) && LastWrite(ws, ino).Some?
    ensures var i := LastWrite(ws, ino).value;
            InodeGet(sb, WriteAll(sb, size, disk, ws), size, ino) == Some(i) <==>
            i.Fits() && (0x4000 <= i.mode < 0x5000 || 0x8000 <= i.mode < 0x9000)
  {
    WriteAllKeepsLast(sb, size, disk, ws, ino);
    var i := LastWrite(ws, ino).value;
    AcceptedModes(i.mode);
    RoundTripExactWhen(i);
    DecodeEncode(i);
  }

  /** Nothing outside the inode table is written. */
  lemma {:induction false} WriteAllStaysInTable(sb: Super, size: nat, disk: Disk, ws: seq<WriteBack>, b: int)
    requires Writable(sb, size, ws) && !IsTableBlock(sb, b)
    ensures b in WriteAll(sb, size, disk, ws) <==> b in disk
    ensures b in disk ==> WriteAll(sb, size, disk, ws)[b] == disk[b]
  {
    if ws != [] {
      WriteAllStaysInTable(sb, size, disk, ws[..|ws| - 1], b);
    }
  }
}
