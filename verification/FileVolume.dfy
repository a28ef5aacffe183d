/**
 A mounted volume as the kernel updates it in place: map buffers, the live inodes, and the device.
 Each method is one operation of `FileStore`; write-back and mount move the bytes.
 */
module FileVolume {
  import opened Numbers
  import opened Options
  import opened FirstFit
  import opened Endian
  import opened PackedBits
  import opened Layout
  import opened InodeTable
  import opened Metadata
  import opened FileStore
  import opened MapBytes
  import KernelBitmap

  /** Reads a block of the device into a buffer. */
  method ReadBuffer(disk: Disk, size: nat, b: int) returns (buf: array<Byte>)
    ensures fresh(buf) && buf[..] == BlockOf(disk, size, b)
  {
    var bytes := BlockOf(disk, size, b);
    buf := new Byte[size](k requires 0 <= k < |bytes| => bytes[k]);
  }

  /** Reads block `i` of a map into a buffer, and sets bit 0 of the first one. */
  method ReadMapBuffer(disk: Disk, size: nat, start: nat, i: nat) returns (buf: array<bv8>)
    requires size > 0
    ensures fresh(buf) && buf.Length == size && Bits(buf[..]) == LoadedBlock(disk, size, start, i)
  {
    var words := WordsOf(BlockOf(disk, size, start + i));
    buf := new bv8[size](k requires 0 <= k < |words| => words[k]);
    assert buf[..] == words;
    WordsAreUnpacked(BlockOf(disk, size, start + i));
    if i == 0 {
      KernelBitmap.SetBit(buf, 0);
    }
  }

  /** Every buffer holds its block, and no two are the same buffer. */
  ghost predicate Buffers(bufs: seq<array<bv8>>, want: seq<seq<bool>>, size: nat)
    reads bufs
  {
    && |bufs| <= |want|
    && (forall k: nat :: k < |bufs| ==> bufs[k].Length == size && Bits(bufs[k][..]) == want[k])
    && (forall k: nat, m: nat :: k < m < |bufs| ==> bufs[k] != bufs[m])
  }

  /** One more buffer, read from the next block. */
  method ReadNextBuffer(disk: Disk, size: nat, start: nat, bufs: seq<array<bv8>>, ghost want: seq<seq<bool>>)
    returns (r: seq<array<bv8>>)
    requires size > 0 && Buffers(bufs, want, size) && |bufs| < |want|
    requires want[|bufs|] == LoadedBlock(disk, size, start, |bufs|)
    ensures |r| == |bufs| + 1 && r[..|bufs|] == bufs && fresh(r[|bufs|]) && Buffers(r, want, size)
  {
    var buf := ReadMapBuffer(disk, size, start, |bufs|);
    assert forall k: nat :: k < |bufs| ==> bufs[k][..] == old(bufs[k][..]);
    r := bufs + [buf];
  }

  /** One of the two maps of a mount. */
  method ReadMap(disk: Disk, size: nat, start: nat, count: nat) returns (bm: KernelBitmap.BlockMap)
    requires size > 0
    ensures fresh(bm) && fresh(bm.blocks) && bm.Valid() && bm.dirty == {}
    ensures bm.blockSize == size && |bm.blocks| == count
    ensures bm.Flat() == LoadedMap(disk, size, start, count)
  {
    ghost var want := LoadedBlocks(disk, size, start, count);
    var bufs: seq<array<bv8>> := [];
    while |bufs| < count
      invariant |bufs| <= count && fresh(bufs) && Buffers(bufs, want, size)
    {
      ghost var was := bufs;
      bufs := ReadNextBuffer(disk, size, start, bufs, want);
      assert bufs == was + [bufs[|was|]];
    }
    bm := new KernelBitmap.BlockMap(bufs, size);
    assert bm.BlockBits() == want;
  }

  /** The read path of one inode. */
  method ReadInode(sb: Super, disk: Disk, ino: nat) returns (r: Option<Inode>)
    requires Housed(sb, sb.BlockSize(), ino)
    ensures r == InodeGet(sb, disk, sb.BlockSize(), ino)
  {
    var buf := ReadBuffer(disk, sb.BlockSize(), sb.InodeBlock(ino));
    var off := sb.InodeOffset(ino);
    assert buf[off..off + 64] == buf[..][off..off + 64];
    var i := FillInode(buf, off);
    if RegularOrDirectory(i.mode) {
      r := Some(i);
    } else {
      r := None;
    }
  }

  lemma {:induction false} FoundNext(sb: Super, disk: Disk, inos: set<nat>, ino: nat)
    requires forall n :: n in inos + {ino} ==> Housed(sb, sb.BlockSize(), n)
    ensures var got := InodeGet(sb, disk, sb.BlockSize(), ino);
            Found(sb, disk, inos + {ino}) ==
            if got.Some? then Found(sb, disk, inos)[ino := got.value] else Found(sb, disk, inos)
  {
    var got := InodeGet(sb, disk, sb.BlockSize(), ino);
    var now := Found(sb, disk, inos + {ino});
    var want := if got.Some? then Found(sb, disk, inos)[ino := got.value] else Found(sb, disk, inos);
    forall n: nat
      ensures n in now <==> n in want
      ensures n in now ==> now[n] == want[n]
    {
    }
    assert now.Keys == want.Keys;
    SameMap(now, want);
  }

  /** Reads all of these inodes. */
  method ReadInodes(sb: Super, disk: Disk, inos: set<nat>) returns (found: map<nat, Inode>)
    requires forall ino :: ino in inos ==> Housed(sb, sb.BlockSize(), ino)
    ensures found == Found(sb, disk, inos)
  {
    var todo := inos;
    found := map[];
    ghost var done: set<nat> := {};
    assert Found(sb, disk, done) == map[];
    while todo != {}
      invariant todo <= inos && done == inos - todo
      invariant found == Found(sb, disk, done)
    {
      var ino :| ino in todo;
      var got := ReadInode(sb, disk, ino);
      FoundNext(sb, disk, done, ino);
      if got.Some? {
        found := found[ino := got.value];
      }
      todo := todo - {ino};
      done := done + {ino};
    }
    assert done == inos;
  }

  // ---------------------------------------------------------------- write-back

  /** The bytes of map buffer `i` are the packed bits of that map block. */
  lemma {:induction false} BufferBytes(zmap: KernelBitmap.BlockMap, i: nat)
    requires zmap.Valid() && i < |zmap.blocks|
    ensures |zmap.Flat()| == |zmap.blocks| * (8 * zmap.blockSize)
    ensures BytesOf(zmap.blocks[i][..]) ==
            Pack(Segment(zmap.Flat(), 8 * zmap.blockSize, |zmap.blocks|, i), zmap.blockSize)
  {
    SegmentOfFlat(zmap.BlockBits(), 8 * zmap.blockSize, i);
    BytesArePacked(zmap.blocks[i][..]);
  }

  function LowOnes(dirty: set<nat>, n: nat): (r: set<nat>) {
    set k | k in dirty && k < n
  }

  /** A map of `count` blocks from device block `start` on. */
  predicate IsMap(sb: Super, bits: seq<bool>, start: nat, count: nat) {
    && sb.inodesInBlock == 64 && |bits| == count * (8 * sb.BlockSize())
    && 1 <= start && start + count <= 1 + sb.inodeMapBlocks + sb.zoneMapBlocks
  }

  /** The buffers hold these bits. */
  ghost predicate Holding(sb: Super, bm: KernelBitmap.BlockMap, bits: seq<bool>, count: nat)
    reads bm.blocks
  {
    bm.Valid() && bm.blockSize == sb.BlockSize() && |bm.blocks| == count && bm.Flat() == bits
  }

  /** The bytes of the dirty blocks below `n`, by device block. */
  ghost function Below(sb: Super, bits: seq<bool>, start: nat, count: nat, dirty: set<nat>,
                       n: nat): (r: map<nat, seq<Byte>>)
    requires IsMap(sb, bits, start, count)
    ensures GoodMaps(sb, sb.BlockSize(), r)
  {
    PackedMap(bits, sb.BlockSize(), start, count, LowOnes(dirty, n))
  }

  lemma {:induction false} NextDirty(start: nat, count: nat, dirty: set<nat>, n: nat)
    requires n < count
    ensures DirtyBlocks(start, count, LowOnes(dirty, n + 1)) ==
            DirtyBlocks(start, count, LowOnes(dirty, n)) + (if n in dirty then {start + n} else {})
  {
  }

  lemma {:induction false} NextBelow(sb: Super, bits: seq<bool>, start: nat, count: nat, dirty: set<nat>, n: nat,
                                     bytes: seq<Byte>)
    requires IsMap(sb, bits, start, count) && n < count
    requires bytes == Pack(Segment(bits, 8 * sb.BlockSize(), count, n), sb.BlockSize())
    ensures Below(sb, bits, start, count, dirty, n + 1) ==
            if n in dirty then Below(sb, bits, start, count, dirty, n)[start + n := bytes]
            else Below(sb, bits, start, count, dirty, n)
  {
    var l, low := Below(sb, bits, start, count, dirty, n + 1), Below(sb, bits, start, count, dirty, n);
    var r := if n in dirty then low[start + n := bytes] else low;
    NextDirty(start, count, dirty, n);
    assert l.Keys == r.Keys;
    SameMap(l, r);
  }

  lemma {:induction false} MergeLast<K, T>(base: map<K, T>, low: map<K, T>, next: map<K, T>, was: map<K, T>,
                                           now: map<K, T>, k: K, v: T, also: bool)
    requires next == if also then low[k := v] else low
    requires now == if also then was[k := v] else was
    requires was == base + low
    ensures now == base + next
  {
  }

  lemma {:induction false} MergeNothing<K, T>(base: map<K, T>)
    ensures base + map[] == base
  {
  }

  lemma {:induction false} MergeTwo<K, T>(a: map<K, T>, b: map<K, T>, c: map<K, T>)
    ensures a + b + c == a + (b + c)
  {
  }

  /** Without records a write-back overrides whole blocks. */
  lemma {:induction false} OnlyMaps(sb: Super, disk: Disk, maps: map<nat, seq<Byte>>)
    requires sb.inodesInBlock == 64 && GoodMaps(sb, sb.BlockSize(), maps)
    ensures SyncDisk(sb, sb.BlockSize(), disk, maps, map[]) == disk + maps
  {
    assert SyncDisk(sb, sb.BlockSize(), disk, maps, map[]).Keys == (disk + maps).Keys;
    SameMap(SyncDisk(sb, sb.BlockSize(), disk, maps, map[]), disk + maps);
  }

  lemma {:induction false} BelowEnds(sb: Super, bits: seq<bool>, start: nat, count: nat, dirty: set<nat>)
    requires IsMap(sb, bits, start, count)
    ensures Below(sb, bits, start, count, dirty, 0) == map[]
    ensures Below(sb, bits, start, count, dirty, count) == PackedMap(bits, sb.BlockSize(), start, count, dirty)
  {
    var l, r := Below(sb, bits, start, count, dirty, count), PackedMap(bits, sb.BlockSize(), start, count, dirty);
    assert DirtyBlocks(start, count, LowOnes(dirty, count)) == DirtyBlocks(start, count, dirty);
    assert l.Keys == r.Keys;
    SameMap(l, r);
    assert DirtyBlocks(start, count, LowOnes(dirty, 0)) == {};
    assert Below(sb, bits, start, count, dirty, 0).Keys == {};
  }

  /** Writes map buffer `n` to its block if it is dirty. */
  method WriteNextMap(sb: Super, bm: KernelBitmap.BlockMap, start: nat, disk: Disk, n: nat, ghost bits: seq<bool>,
                      ghost count: nat)
    returns (r: Disk)
    requires Holding(sb, bm, bits, count) && IsMap(sb, bits, start, count) && n < count
    ensures r == if n in bm.dirty then
                   disk[start + n := Pack(Segment(bits, 8 * sb.BlockSize(), count, n), sb.BlockSize())]
                 else disk
  {
    BufferBytes(bm, n);
    r := disk;
    if n in bm.dirty {
      r := disk[start + n := BytesOf(bm.blocks[n][..])];
    }
  }

  /** The device after the dirty blocks below `n` have been stored one after the other. */
  ghost function WrittenBelow(sb: Super, disk: Disk, bits: seq<bool>, start: nat, count: nat, dirty: set<nat>,
                              n: nat): (r: Disk)
    requires IsMap(sb, bits, start, count) && n <= count
  {
    if n == 0 then disk
    else
      var before := WrittenBelow(sb, disk, bits, start, count, dirty, n - 1);
      if n - 1 in dirty then
        before[start + (n - 1) := Pack(Segment(bits, 8 * sb.BlockSize(), count, n - 1), sb.BlockSize())]
      else before
  }

  /** Stored one after the other or all at once, the blocks are the same. */
  lemma {:induction false} WrittenIsMerged(sb: Super, disk: Disk, bits: seq<bool>, start: nat, count: nat,
                                           dirty: set<nat>, n: nat)
    requires IsMap(sb, bits, start, count) && n <= count
    ensures WrittenBelow(sb, disk, bits, start, count, dirty, n) == disk + Below(sb, bits, start, count, dirty, n)
  {
    if n == 0 {
      NothingWritten(sb, disk, bits, start, count, dirty);
    } else {
      var m := n - 1;
      var bytes := Pack(Segment(bits, 8 * sb.BlockSize(), count, m), sb.BlockSize());
      WrittenIsMerged(sb, disk, bits, start, count, dirty, m);
      NextBelow(sb, bits, start, count, dirty, m, bytes);
      MergeLast(disk, Below(sb, bits, start, count, dirty, m), Below(sb, bits, start, count, dirty, n),
                WrittenBelow(sb, disk, bits, start, count, dirty, m),
                WrittenBelow(sb, disk, bits, start, count, dirty, n),
                start + m, bytes, m in dirty);
    }
  }

  lemma {:induction false} NothingWritten(sb: Super, disk: Disk, bits: seq<bool>, start: nat, count: nat,
                                          dirty: set<nat>)
    requires IsMap(sb, bits, start, count)
    ensures disk == disk + Below(sb, bits, start, count, dirty, 0)
  {
    BelowEnds(sb, bits, start, count, dirty);
    MergeNothing(disk);
  }

  lemma {:induction false} AllWritten(sb: Super, disk: Disk, bits: seq<bool>, start: nat, count: nat, dirty: set<nat>)
    requires IsMap(sb, bits, start, count)
    ensures WrittenBelow(sb, disk, bits, start, count, dirty, count) ==
            disk + PackedMap(bits, sb.BlockSize(), start, count, dirty)
  {
    BelowEnds(sb, bits, start, count, dirty);
    WrittenIsMerged(sb, disk, bits, start, count, dirty, count);
  }

  /** The zone map and then the inode map. */
  lemma {:induction false} BothMaps(sb: Super, s: State)
    requires Shaped(sb, s)
    ensures s.disk + PackedMap(s.bits, sb.BlockSize(), 1, sb.zoneMapBlocks, s.dirtyMap)
              + PackedMap(s.inodeBits, sb.BlockSize(), InodeMapStart(sb), sb.inodeMapBlocks, s.dirtyInodeMap)
            == SyncDisk(sb, sb.BlockSize(), s.disk, DirtyMaps(sb, s), map[])
  {
    MergeTwo(s.disk, PackedMap(s.bits, sb.BlockSize(), 1, sb.zoneMapBlocks, s.dirtyMap),
             PackedMap(s.inodeBits, sb.BlockSize(), InodeMapStart(sb), sb.inodeMapBlocks, s.dirtyInodeMap));
    OnlyMaps(sb, s.disk, DirtyMaps(sb, s));
  }

  /** Writes every dirty buffer of a map to its block. */
  method WriteMap(sb: Super, bm: KernelBitmap.BlockMap, start: nat, disk: Disk, ghost bits: seq<bool>, ghost count: nat)
    returns (r: Disk)
    requires Holding(sb, bm, bits, count) && IsMap(sb, bits, start, count)
    ensures r == disk + PackedMap(bits, sb.BlockSize(), start, count, bm.dirty)
  {
    r := disk;
    var i := 0;
    while i < |bm.blocks|
      invariant i <= count && r == WrittenBelow(sb, disk, bits, start, count, bm.dirty, i)
    {
      r := WriteNextMap(sb, bm, start, r, i, bits, count);
      i := i + 1;
    }
    AllWritten(sb, disk, bits, start, count, bm.dirty);
  }

  /** Writes one inode into its block: the block is read, its 64 bytes are replaced, and it is stored. */
  method WriteRecord(sb: Super, disk: Disk, ino: nat, i: Inode) returns (r: Disk)
    requires Housed(sb, sb.BlockSize(), ino) && |i.zones| == POINTERS
    ensures r == WriteInode(sb, sb.BlockSize(), disk, ino, i)
  {
    var buf := ReadBuffer(disk, sb.BlockSize(), sb.InodeBlock(ino));
    UpdateInode(buf, sb.InodeOffset(ino), i);
    r := disk[sb.InodeBlock(ino) := buf[..]];
  }

  predicate AllHoused(sb: Super, inodes: map<nat, Inode>) {
    && sb.inodesInBlock == 64
    && forall ino :: ino in inodes ==> Housed(sb, sb.BlockSize(), ino) && |inodes[ino].zones| == POINTERS
  }

  /** The records of those inodes that are in `done`. */
  ghost function RecordsIn(sb: Super, inodes: map<nat, Inode>, done: set<nat>): (r: map<nat, seq<Byte>>)
    requires AllHoused(sb, inodes)
    ensures GoodRecords(sb, sb.BlockSize(), r)
  {
    map ino | ino in inodes && ino in done :: Encode(inodes[ino])
  }

  lemma {:induction false} OneMoreIn(sb: Super, inodes: map<nat, Inode>, done: set<nat>, ino: nat)
    requires AllHoused(sb, inodes) && ino in inodes
    ensures RecordsIn(sb, inodes, done + {ino}) == RecordsIn(sb, inodes, done)[ino := Encode(inodes[ino])]
  {
    var l, r := RecordsIn(sb, inodes, done + {ino}), RecordsIn(sb, inodes, done)[ino := Encode(inodes[ino])];
    assert forall k: nat :: k in l <==> k in r;
    assert l.Keys == r.Keys;
    SameMap(l, r);
  }

  lemma {:induction false} AllIn(sb: Super, inodes: map<nat, Inode>)
    requires AllHoused(sb, inodes)
    ensures RecordsIn(sb, inodes, inodes.Keys) == Encoded(inodes)
  {
    assert RecordsIn(sb, inodes, inodes.Keys).Keys == Encoded(inodes).Keys;
    SameMap(RecordsIn(sb, inodes, inodes.Keys), Encoded(inodes));
  }

  lemma {:induction false} NoneIn(sb: Super, inodes: map<nat, Inode>)
    requires AllHoused(sb, inodes)
    ensures RecordsIn(sb, inodes, {}) == map[]
  {
  }

  /** One more record, on top of what has been written before. */
  method WriteOneMore(sb: Super, disk: Disk, inodes: map<nat, Inode>, ino: nat, ghost done: set<nat>,
                      ghost disk0: Disk, ghost maps: map<nat, seq<Byte>>)
    returns (r: Disk)
    requires AllHoused(sb, inodes) && GoodMaps(sb, sb.BlockSize(), maps) && ino in inodes
    requires disk == SyncDisk(sb, sb.BlockSize(), disk0, maps, RecordsIn(sb, inodes, done))
    ensures r == SyncDisk(sb, sb.BlockSize(), disk0, maps, RecordsIn(sb, inodes, done + {ino}))
  {
    OneMoreIn(sb, inodes, done, ino);
    SyncOneRecord(sb, sb.BlockSize(), disk0, maps, RecordsIn(sb, inodes, done), ino, Encode(inodes[ino]));
    r := WriteRecord(sb, disk, ino, inodes[ino]);
  }

  /** Writes the records of these inodes, on top of the map blocks written before. */
  method WriteRecords(sb: Super, disk: Disk, inodes: map<nat, Inode>, ghost disk0: Disk,
                      ghost maps: map<nat, seq<Byte>>)
    returns (r: Disk)
    requires AllHoused(sb, inodes) && GoodMaps(sb, sb.BlockSize(), maps)
    requires disk == SyncDisk(sb, sb.BlockSize(), disk0, maps, map[])
    ensures r == SyncDisk(sb, sb.BlockSize(), disk0, maps, RecordsIn(sb, inodes, inodes.Keys))
  {
    NoneIn(sb, inodes);
    var todo := inodes.Keys;
    ghost var done: set<nat> := {};
    r := disk;
    while todo != {}
      invariant todo + done == inodes.Keys
      invariant r == SyncDisk(sb, sb.BlockSize(), disk0, maps, RecordsIn(sb, inodes, done))
      decreases todo
    {
      var ino :| ino in todo;
      r := WriteOneMore(sb, r, inodes, ino, done, disk0, maps);
      todo, done := todo - {ino}, done + {ino};
    }
    assert done == inodes.Keys;
  }

  class Volume {
    const sb: Super
    var zmap: KernelBitmap.BlockMap
    var inodeMap: KernelBitmap.BlockMap
    var ptrs: map<nat, seq<int>>
    var attrs: map<nat, Attrs>
    var disk: Disk
    var super: Data
    var dirtyInodes: set<nat>
    var status: Status

    /** The two maps have buffers of their own. */
    ghost predicate Apart()
      reads this, zmap, inodeMap
    {
      && zmap != inodeMap
      && forall i: nat, j: nat :: i < |zmap.blocks| && j < |inodeMap.blocks| ==> zmap.blocks[i] != inodeMap.blocks[j]
    }

    ghost predicate Valid()
      reads this, zmap, zmap.blocks, inodeMap, inodeMap.blocks
    {
      && zmap.Valid() && zmap.blockSize == sb.BlockSize() && |zmap.blocks| == sb.zoneMapBlocks
      && inodeMap.Valid() && inodeMap.blockSize == sb.BlockSize() && |inodeMap.blocks| == sb.inodeMapBlocks
      && Apart() && Shaped(sb, Model())
    }

    /** The volume as a value. */
    ghost function Model(): (s: State)
      requires zmap.Valid() && inodeMap.Valid()
      reads this, zmap, zmap.blocks, inodeMap, inodeMap.blocks
    {
      State(zmap.Flat(), inodeMap.Flat(), ptrs, attrs, disk, super, zmap.dirty, inodeMap.dirty, dirtyInodes, status)
    }

    constructor (sb: Super, zmap: KernelBitmap.BlockMap, inodeMap: KernelBitmap.BlockMap, ptrs: map<nat, seq<int>>,
                 attrs: map<nat, Attrs>, disk: Disk, super: Data)
      requires CleanMaps(zmap, inodeMap) && zmap.blockSize == inodeMap.blockSize == sb.BlockSize()
      requires |zmap.blocks| == sb.zoneMapBlocks && |inodeMap.blocks| == sb.inodeMapBlocks
      requires Shaped(sb, State(zmap.Flat(), inodeMap.Flat(), ptrs, attrs, disk, super, {}, {}, {}, Up))
      ensures Valid() && this.sb == sb && this.zmap == zmap && this.inodeMap == inodeMap
      ensures Model() == State(zmap.Flat(), inodeMap.Flat(), ptrs, attrs, disk, super, {}, {}, {}, Up)
    {
      this.sb, this.zmap, this.inodeMap, this.ptrs, this.attrs := sb, zmap, inodeMap, ptrs, attrs;
      this.disk, this.super, this.dirtyInodes, this.status := disk, super, {}, Up;
    }

    /** Maps a file block to a device block, allocating the zone on first use. */
    method MapBlock(ino: nat, iblock: nat, bsize: nat, beyond: int) returns (m: Mapping)
      requires Valid() && ino in ptrs && bsize > 0
      modifies this`ptrs, zmap, zmap.blocks
      ensures Valid() && (Model(), m) == old(GetBlock(sb, Model(), ino, iblock, bsize, beyond))
    {
      GetBlockKeepsShaped(sb, Model(), ino, iblock, bsize, beyond);
      if sb.zoneSize < bsize {
        return Eio;
      }
      if sb.zoneSize > bsize && sb.zoneSize % bsize != 0 {
        return Eio;
      }
      var idx, off := Index(sb, bsize, iblock), Offset(sb, bsize, iblock);
      var ptr := if idx < POINTERS then ptrs[ino][idx] else beyond;
      if ptr == 0 {
        if idx < POINTERS {
          ptr := AllocateInto(ino, idx);
        } else {
          return Eio;
        }
      }
      return Mapped(Sector(off, ptr));
    }

    /** Stores a new zone in an empty pointer; a full map leaves 0 there. */
    method AllocateInto(ino: nat, idx: nat) returns (ptr: int)
      requires Valid() && ino in ptrs && idx < POINTERS
      modifies this`ptrs, zmap, zmap.blocks
      ensures zmap.Valid() && inodeMap.Valid() && Apart() && ptr == old(Issued(sb, Model().bits))
      ensures Model() == old(Model()).(bits := Alloc(old(Model()).bits).0,
                                       ptrs := old(ptrs)[ino := old(ptrs)[ino][idx := ptr]],
                                       dirtyMap := old(zmap.dirty) + Touched(sb, old(Model()).bits))
    {
      ghost var s := Model();
      var z := zmap.NewZone(sb);
      assert inodeMap.Flat() == s.inodeBits;
      ptr := U64(z);
      ptrs := ptrs[ino := ptrs[ino][idx := ptr]];
    }

    /** Takes the first free number in the inode map. */
    method TakeNumber() returns (number: Option<nat>)
      requires Valid()
      modifies inodeMap, inodeMap.blocks
      ensures Valid() && Model() == old(Took(sb, Model(), Touched(sb, Model().inodeBits)))
      ensures number == if old(Alloc(Model().inodeBits).1) == Some(0) then None else old(Alloc(Model().inodeBits).1)
    {
      ghost var s := Model();
      number := inodeMap.NewInode();
      assert zmap.Flat() == s.bits;
    }

    /** Makes a new inode with nine empty pointers and marks it dirty. */
    method BearInode(n: nat, fields: Attrs)
      requires Valid() && Usable(sb, n)
      modifies this`ptrs, this`attrs, this`dirtyInodes
      ensures Valid() && Model() == old(Born(sb, Model(), n, fields))
    {
      ptrs := ptrs[n := [0, 0, 0, 0, 0, 0, 0, 0, 0]];
      attrs := attrs[n := fields];
      dirtyInodes := dirtyInodes + {n};
    }

    /** A new inode gets the first free number. */
    method CreateInode(fields: Attrs)
      requires Valid() && status.Up?
      modifies this`ptrs, this`attrs, this`dirtyInodes, inodeMap, inodeMap.blocks
      ensures Valid() && Model() == old(Step(sb, Model(), Create(fields)).0)
    {
      var number := TakeNumber();
      if number.Some? && number.value !in ptrs && Housed(sb, sb.BlockSize(), number.value) {
        BearInode(number.value, fields);
      }
    }

    method ChangeInode(ino: nat, fields: Attrs)
      requires Valid() && status.Up?
      modifies this`attrs, this`dirtyInodes
      ensures Valid() && Model() == old(Step(sb, Model(), SetAttrs(ino, fields)).0)
    {
      if ino in ptrs {
        attrs := attrs[ino := fields];
        dirtyInodes := dirtyInodes + {ino};
      }
    }

    method MarkInode(ino: nat, marks: bool)
      requires Valid() && ino in ptrs
      modifies this`dirtyInodes
      ensures Valid() && Model() == MarkedIf(sb, old(Model()), ino, marks)
    {
      if marks {
        dirtyInodes := dirtyInodes + {ino};
      }
    }

    method StoreBlock(b: int, data: Data)
      requires Valid()
      modifies this`disk
      ensures Valid() && Model() == Stored(sb, old(Model()), b, data)
    {
      disk := disk[b := data];
    }

    method WriteBlock(ino: nat, iblock: nat, data: Data, beyond: int, marks: bool)
      requires Valid() && status.Up?
      modifies this`ptrs, this`disk, this`dirtyInodes, zmap, zmap.blocks
      ensures Valid() && Model() == old(Step(sb, Model(), Write(ino, iblock, data, beyond, marks)).0)
    {
      if ino in ptrs {
        var m := MapBlock(ino, iblock, sb.BlockSize(), beyond);
        if m.Mapped? {
          MarkInode(ino, marks);
          StoreBlock(m.block, data);
        }
      }
    }

    method ReadBlock(ino: nat, iblock: nat, beyond: int, marks: bool) returns (out: Option<Data>)
      requires Valid() && status.Up?
      modifies this`ptrs, this`dirtyInodes, zmap, zmap.blocks
      ensures Valid() && (Model(), out) == old(Step(sb, Model(), Read(ino, iblock, beyond, marks)))
    {
      out := None;
      if ino in ptrs {
        var m := MapBlock(ino, iblock, sb.BlockSize(), beyond);
        if m.Mapped? && m.block in disk {
          out := Some(disk[m.block]);
        }
        MarkInode(ino, marks);
      }
    }

    // -------------------------------------------------------------- write-back and mount

    /** Writes everything dirty to the device. */
    method SyncVolume()
      requires Valid()
      modifies this`disk, this`dirtyInodes, zmap`dirty, inodeMap`dirty
      ensures Valid() && Model() == old(Synced(sb, Model()))
    {
      ghost var want := Synced(sb, Model());
      disk := WriteAll();
      dirtyInodes := {};
      zmap.dirty := {};
      inodeMap.dirty := {};
      assert Model() == want;
    }

    /** Writes the dirty buffers of the zone map, and then those of the inode map. */
    method WriteBuffers() returns (r: Disk)
      requires Valid()
      ensures r == disk + PackedMap(zmap.Flat(), sb.BlockSize(), 1, sb.zoneMapBlocks, zmap.dirty)
                     + PackedMap(inodeMap.Flat(), sb.BlockSize(), InodeMapStart(sb), sb.inodeMapBlocks, inodeMap.dirty)
    {
      r := WriteMap(sb, zmap, 1, disk, zmap.Flat(), sb.zoneMapBlocks);
      r := WriteMap(sb, inodeMap, InodeMapStart(sb), r, inodeMap.Flat(), sb.inodeMapBlocks);
    }

    /** The device after the dirty buffers of both maps are written. */
    method WriteBothMaps() returns (r: Disk)
      requires Valid()
      ensures r == SyncDisk(sb, sb.BlockSize(), disk, DirtyMaps(sb, Model()), map[])
    {
      BothMaps(sb, Model());
      r := WriteBuffers();
    }

    /** The device after the write-back. */
    method WriteAll() returns (r: Disk)
      requires Valid()
      ensures r == Synced(sb, Model()).disk
    {
      var inodes := DirtyOnes(ptrs, attrs, dirtyInodes);
      assert AllHoused(sb, inodes);
      AllIn(sb, inodes);
      r := WriteBothMaps();
      r := WriteRecords(sb, r, inodes, disk, DirtyMaps(sb, Model()));
    }

    /** Unmounts: everything dirty is written back, and the superblock buffer if it is still there. */
    method UnmountVolume(held: bool)
      requires Valid()
      modifies this`disk, this`dirtyInodes, zmap`dirty, inodeMap`dirty
      ensures Valid() && Model() == old(Unmounted(sb, Model(), held))
    {
      SyncVolume();
      if held {
        StoreBlock(0, super);
      }
    }

    /** Mounts: superblock, map buffers and inodes are read from the device into a new volume. */
    method Reload() returns (v: Volume)
      requires Valid()
      modifies this`status
      ensures v.sb == sb && v.Valid() && v.Model() == old(Reloaded(sb, Model()))
    {
      var found := ReadSuper(sb, disk);
      if found != sb {
        status := if found.magic != MAGIC then Crashed else Misread;
        v := this;
      } else {
        v := MountVolume(sb, disk, ptrs.Keys);
      }
    }

    /** Unmounts and mounts again, which believes the device. */
    method RemountVolume(held: bool) returns (v: Volume)
      requires Valid() && status.Up?
      modifies this, zmap`dirty, inodeMap`dirty
      ensures v.sb == sb && v.Valid() && v.Model() == old(Step(sb, Model(), Remount(held)).0)
    {
      ghost var s := Model();
      assert Step(sb, s, Remount(held)).0 == Reloaded(sb, Unmounted(sb, s, held));
      UnmountVolume(held);
      v := Reload();
    }
  }

  /** Decodes the superblock. */
  method ReadSuper(sb: Super, disk: Disk) returns (found: Super)
    requires sb.BlockSize() >= 28
    ensures found == SuperOn(sb, disk)
  {
    var kernel := new SuperBlock();
    kernel.Fill(BlockOf(disk, sb.BlockSize(), 0));
    found := kernel.View();
  }

  /** Reads both maps and these inodes from the device. */
  method MountVolume(sb: Super, disk: Disk, inos: set<nat>) returns (v: Volume)
    requires Mountable(sb, inos)
    ensures fresh(v) && fresh(v.zmap) && fresh(v.zmap.blocks) && fresh(v.inodeMap) && fresh(v.inodeMap.blocks)
    ensures v.sb == sb && v.Valid() && v.Model() == LoadedState(sb, disk, inos)
  {
    var zones := ReadMap(disk, sb.BlockSize(), 1, sb.zoneMapBlocks);
    var inodes := ReadMap(disk, sb.BlockSize(), InodeMapStart(sb), sb.inodeMapBlocks);
    v := MountWith(sb, disk, inos, zones, inodes);
  }

  /** Two clean maps with buffers of their own. */
  ghost predicate CleanMaps(zones: KernelBitmap.BlockMap, inodes: KernelBitmap.BlockMap)
    reads zones, inodes
  {
    && zones.Valid() && inodes.Valid() && zones.dirty == {} && inodes.dirty == {} && zones != inodes
    && forall i: nat, j: nat :: i < |zones.blocks| && j < |inodes.blocks| ==> zones.blocks[i] != inodes.blocks[j]
  }

  /** Reads these inodes, and keeps the buffers of both maps. */
  method MountWith(sb: Super, disk: Disk, inos: set<nat>, zones: KernelBitmap.BlockMap, inodes: KernelBitmap.BlockMap)
    returns (v: Volume)
    requires Mountable(sb, inos) && CleanMaps(zones, inodes)
    requires Holding(sb, zones, LoadedMap(disk, sb.BlockSize(), 1, sb.zoneMapBlocks), sb.zoneMapBlocks)
    requires Holding(sb, inodes, LoadedMap(disk, sb.BlockSize(), InodeMapStart(sb), sb.inodeMapBlocks),
                     sb.inodeMapBlocks)
    ensures fresh(v) && v.zmap == zones && v.inodeMap == inodes
    ensures v.sb == sb && v.Valid() && v.Model() == LoadedState(sb, disk, inos)
  {
    var found := ReadInodes(sb, disk, inos);
    v := new Volume(sb, zones, inodes, ZonesIn(found), FieldsIn(found), disk, BlockOf(disk, sb.BlockSize(), 0));
  }
}
