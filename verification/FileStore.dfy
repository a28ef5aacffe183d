/**
 File blocks on the shared device. `aufs_get_block` turns a file block into a device block,
 allocating a zone the first time one of the nine pointers is used. The zone map and the inodes are
 kept in memory, marked dirty, written back to the metadata blocks and read again by a mount. The
 main result is that any number of files on one device behave as independent maps from block
 numbers to contents, across remounts.
 */
module FileStore {
  import opened Numbers
  import opened Options
  import opened FirstFit
  import opened Endian
  import opened Layout
  import opened InodeTable
  import opened Metadata

  /** Contents of one device block. */
  type Data = seq<Byte>

  /** The fields of an inode besides its zone pointers. */
  datatype Fields = Fields(blocks: int, size: int, gid: int, uid: int, mode: int, ctime: int) {

    /** The ranges of the kernel's own types. */
    predicate WellTyped() {
      && 0 <= blocks < TWO_64 && -TWO_63 <= size < TWO_63 && -TWO_63 <= ctime < TWO_63
      && 0 <= gid < TWO_32 && 0 <= uid < TWO_32 && 0 <= mode < 0x1_0000
    }

    /** What the record keeps and the read path accepts. */
    predicate Fit() {
      0 <= blocks < TWO_32 && 0 <= size < TWO_32 && gid < 0x1_0000 && uid < 0x1_0000 && RegularOrDirectory(mode)
    }

    function With(zones: seq<int>): (i: Inode) {
      Inode(zones, blocks, size, gid, uid, mode, ctime)
    }
  }

  type Attrs = f: Fields | f.WellTyped() witness Fields(0, 0, 0, 0, 0, 0)

  function FieldsOf(i: Inode): (f: Attrs)
    requires i.WellTyped()
    ensures f.With(i.zones) == i
  {
    Fields(i.blocks, i.size, i.gid, i.uid, i.mode, i.ctime)
  }

  /**
   Whether the volume is mounted. A mount of a device without the magic number reads through a null
   pointer; one whose superblock decodes to something else brings up another volume.
   */
  datatype Status = Up | Crashed | Misread

  /**
   Both maps and the live inodes in memory, the device, the superblock buffer of the mount, and which
   map blocks and inodes have changed since they were last written to the device.
   */
  datatype State = State(bits: seq<bool>, inodeBits: seq<bool>, ptrs: map<nat, seq<int>>, attrs: map<nat, Attrs>,
                         disk: Disk, super: Data, dirtyMap: set<nat>, dirtyInodeMap: set<nat>, dirtyInodes: set<nat>,
                         status: Status)

  datatype Mapping = Mapped(block: int) | Eio

  predicate NinePointers(ptrs: map<nat, seq<int>>) {
    forall ino :: ino in ptrs ==> |ptrs[ino]| == POINTERS
  }

  /** Position of a file block: pointer index and offset inside the zone, both 32-bit. */
  function Index(sb: Super, bsize: nat, iblock: nat): (r: nat)
    requires 0 < bsize <= sb.zoneSize
  {
    U32(iblock / (sb.zoneSize / bsize))
  }

  function Offset(sb: Super, bsize: nat, iblock: nat): (r: nat)
    requires 0 < bsize <= sb.zoneSize
  {
    U32(iblock % (sb.zoneSize / bsize))
  }

  /** The two tests on the requested buffer size. */
  predicate SizeAccepted(sb: Super, bsize: nat)
    requires bsize > 0
  {
    bsize <= sb.zoneSize && (sb.zoneSize > bsize ==> sb.zoneSize % bsize == 0)
  }

  /** What one allocation stores in the zone pointer, an unsigned long. */
  function Issued(sb: Super, bits: seq<bool>): (r: int)
    requires sb.Valid()
    ensures 0 <= r < TWO_64
  {
    ConversionsWrap(match Alloc(bits).1 case None => 0 case Some(f) => ZoneNumber(sb, f));
    match Alloc(bits).1 case None => 0 case Some(f) => U64(ZoneNumber(sb, f))
  }

  /** The map block whose buffer one allocation marks dirty. */
  function Touched(sb: Super, bits: seq<bool>): (r: set<nat>)
    requires sb.BlockSize() > 0
  {
    match Alloc(bits).1 case None => {} case Some(f) => {f / (8 * sb.BlockSize())}
  }

  /** Device block number: 64-bit unsigned. */
  function Sector(off: nat, pointer: int): (r: nat) {
    U64(off + pointer)
  }

  /**
   `aufs_get_block`. `beyond` is the word found in memory at the indexed position when the index
   is past the ninth pointer: the source reads it before it tests the index.
   */
  function GetBlock(sb: Super, s: State, ino: nat, iblock: nat, bsize: nat, beyond: int): (r: (State, Mapping))
    requires sb.Valid() && ino in s.ptrs && NinePointers(s.ptrs) && bsize > 0
    ensures NinePointers(r.0.ptrs) && r.0.ptrs.Keys == s.ptrs.Keys && |r.0.bits| == |s.bits|
    ensures r.0 == s.(bits := r.0.bits, ptrs := r.0.ptrs, dirtyMap := r.0.dirtyMap)
  {
    if !SizeAccepted(sb, bsize) then (s, Eio)
    else
      var idx, off := Index(sb, bsize, iblock), Offset(sb, bsize, iblock);
      if idx >= POINTERS then
        (s, if beyond == 0 then Eio else Mapped(Sector(off, beyond)))
      else if s.ptrs[ino][idx] != 0 then (s, Mapped(Sector(off, s.ptrs[ino][idx])))
      else
        var z := Issued(sb, s.bits);
        (s.(bits := Alloc(s.bits).0, ptrs := s.ptrs[ino := s.ptrs[ino][idx := z]],
            dirtyMap := s.dirtyMap + Touched(sb, s.bits)), Mapped(Sector(off, z)))
  }

  /** A buffer size that is larger than a zone or does not divide it is refused, and nothing changes. */
  lemma {:induction false} SizeIsRefusedWhen(sb: Super, s: State, ino: nat, iblock: nat, bsize: nat, beyond: int)
    requires sb.Valid() && ino in s.ptrs && NinePointers(s.ptrs) && bsize > 0
    ensures SizeAccepted(sb, bsize) <==> bsize <= sb.zoneSize && sb.zoneSize % bsize == 0
    ensures !SizeAccepted(sb, bsize) ==> GetBlock(sb, s, ino, iblock, bsize, beyond) == (s, Eio)
  {
    if sb.zoneSize == bsize {
      DivModUnique(bsize, bsize, 1, 0);
    }
  }

  /** For any other the position in the zone is counted in buffers of that size. */
  lemma {:induction false} MappedInBuffers(sb: Super, s: State, ino: nat, iblock: nat, bsize: nat, beyond: int,
                                           per: nat, ptr: int)
    requires sb.Valid() && ino in s.ptrs && NinePointers(s.ptrs) && bsize > 0 && SizeAccepted(sb, bsize)
    requires per == sb.zoneSize / bsize && 0 < per < TWO_32 && iblock / per < POINTERS
    requires ptr == s.ptrs[ino][iblock / per] && 0 < ptr < TWO_63
    ensures GetBlock(sb, s, ino, iblock, bsize, beyond) == (s, Mapped(iblock % per + ptr))
  {
    assert Index(sb, bsize, iblock) == iblock / per && Offset(sb, bsize, iblock) == iblock % per;
  }

  // ---------------------------------------------------------------- write-back and mount

  /** Sizes and ranges that every state has: whole blocks, nine pointers, and a place for each record. */
  predicate Shaped(sb: Super, s: State) {
    && sb.Valid() && sb.inodesInBlock == 64 && sb.BlockSize() >= 28 && sb.zoneMapBlocks > 0 && sb.inodeMapBlocks > 0
    && |s.bits| == sb.zoneMapBlocks * (8 * sb.BlockSize()) && |s.inodeBits| == sb.inodeMapBlocks * (8 * sb.BlockSize())
    && |s.super| == sb.BlockSize()
    && NinePointers(s.ptrs) && s.attrs.Keys == s.ptrs.Keys && s.dirtyInodes <= s.ptrs.Keys
    && (forall ino :: ino in s.ptrs ==> Housed(sb, sb.BlockSize(), ino))
    && (forall ino, i: nat :: ino in s.ptrs && i < POINTERS ==> 0 <= s.ptrs[ino][i] < TWO_64)
  }

  /** The whole inode in memory. */
  function Whole(s: State, ino: nat): (i: Inode)
    requires NinePointers(s.ptrs) && ino in s.ptrs && ino in s.attrs
    ensures |i.zones| == POINTERS
  {
    s.attrs[ino].With(s.ptrs[ino])
  }

  /** Each field of the inode in memory is the field of that name. */
  lemma {:induction false} WholeIs(s: State, ino: nat)
    requires NinePointers(s.ptrs) && ino in s.ptrs && ino in s.attrs
    ensures var i, f := Whole(s, ino), s.attrs[ino];
            && i.zones == s.ptrs[ino] && i.blocks == f.blocks && i.size == f.size && i.gid == f.gid && i.uid == f.uid
            && i.mode == f.mode && i.ctime == f.ctime
  {
  }

  lemma {:induction false} FieldsAre(i: Inode)
    requires i.WellTyped()
    ensures var f := FieldsOf(i);
            && f.blocks == i.blocks && f.size == i.size && f.gid == i.gid && f.uid == i.uid
            && f.mode == i.mode && f.ctime == i.ctime
  {
  }

  /** First device block of the inode map. */
  function InodeMapStart(sb: Super): (r: nat) {
    1 + sb.zoneMapBlocks
  }

  /** The device blocks of the dirty blocks of a map. */
  function DirtyBlocks(start: nat, count: nat, dirty: set<nat>): (r: set<nat>)
    ensures forall b: nat :: b in r <==> start <= b < start + count && b - start in dirty
  {
    set i | i in dirty && i < count :: start + i
  }

  /** The bytes of the dirty blocks of a map of `count` blocks that starts at device block `start`. */
  function PackedMap(bits: seq<bool>, size: nat, start: nat, count: nat, dirty: set<nat>): (r: map<nat, seq<Byte>>)
    requires |bits| == count * (8 * size)
    ensures r.Keys == DirtyBlocks(start, count, dirty)
    ensures forall b: nat :: b in r ==> r[b] == Pack(Segment(bits, 8 * size, count, b - start), size)
  {
    map b | b in DirtyBlocks(start, count, dirty) :: Pack(Segment(bits, 8 * size, count, b - start), size)
  }

  /** The map blocks that a write-back stores. */
  function DirtyMaps(sb: Super, s: State): (r: map<nat, seq<Byte>>)
    requires Shaped(sb, s)
    ensures GoodMaps(sb, sb.BlockSize(), r) && 0 !in r
  {
    PackedMap(s.bits, sb.BlockSize(), 1, sb.zoneMapBlocks, s.dirtyMap)
    + PackedMap(s.inodeBits, sb.BlockSize(), InodeMapStart(sb), sb.inodeMapBlocks, s.dirtyInodeMap)
  }

  /** The records of these inodes. */
  function Encoded(inodes: map<nat, Inode>): (r: map<nat, seq<Byte>>)
    requires forall ino :: ino in inodes ==> |inodes[ino].zones| == POINTERS
    ensures r.Keys == inodes.Keys && forall ino :: ino in inodes ==> r[ino] == Encode(inodes[ino])
  {
    map ino | ino in inodes :: Encode(inodes[ino])
  }

  /** The inodes that a write-back stores. */
  function DirtyOnes(ptrs: map<nat, seq<int>>, attrs: map<nat, Attrs>, dirty: set<nat>): (r: map<nat, Inode>)
    requires dirty <= ptrs.Keys && attrs.Keys == ptrs.Keys
    ensures r.Keys == dirty && forall ino :: ino in dirty ==> r[ino] == attrs[ino].With(ptrs[ino])
  {
    map ino | ino in dirty :: attrs[ino].With(ptrs[ino])
  }

  function DirtyRecords(sb: Super, s: State): (r: map<nat, seq<Byte>>)
    requires Shaped(sb, s)
    ensures GoodRecords(sb, sb.BlockSize(), r)
    ensures r.Keys == s.dirtyInodes && forall ino :: ino in s.dirtyInodes ==> r[ino] == Encode(Whole(s, ino))
  {
    Encoded(DirtyOnes(s.ptrs, s.attrs, s.dirtyInodes))
  }

  /** Everything dirty is written to the device. */
  function Synced(sb: Super, s: State): (r: State)
    requires Shaped(sb, s)
    ensures Shaped(sb, r)
  {
    s.(disk := SyncDisk(sb, sb.BlockSize(), s.disk, DirtyMaps(sb, s), DirtyRecords(sb, s)),
       dirtyMap := {}, dirtyInodeMap := {}, dirtyInodes := {})
  }

  /** The inodes that the device has for these numbers. An inode of another type cannot be read. */
  function Found(sb: Super, disk: Disk, inos: set<nat>): (r: map<nat, Inode>)
    requires forall ino :: ino in inos ==> Housed(sb, sb.BlockSize(), ino)
    ensures r.Keys <= inos
    ensures forall ino :: ino in inos ==> (ino in r <==> InodeGet(sb, disk, sb.BlockSize(), ino).Some?)
    ensures forall ino :: ino in r ==> InodeGet(sb, disk, sb.BlockSize(), ino) == Some(r[ino]) && r[ino].WellTyped()
  {
    map ino | ino in inos && InodeGet(sb, disk, sb.BlockSize(), ino).Some? ::
      InodeGet(sb, disk, sb.BlockSize(), ino).value
  }

  predicate AllTyped(found: map<nat, Inode>) {
    forall ino :: ino in found ==> found[ino].WellTyped()
  }

  function ZonesIn(found: map<nat, Inode>): (r: map<nat, seq<int>>)
    ensures r.Keys == found.Keys && forall ino :: ino in found ==> r[ino] == found[ino].zones
  {
    map ino | ino in found :: found[ino].zones
  }

  function FieldsIn(found: map<nat, Inode>): (r: map<nat, Attrs>)
    requires AllTyped(found)
    ensures r.Keys == found.Keys && forall ino :: ino in found ==> r[ino] == FieldsOf(found[ino])
  {
    map ino | ino in found :: FieldsOf(found[ino])
  }

  /** What the mount code makes of block 0. */
  function SuperOn(sb: Super, disk: Disk): (r: Super)
    requires sb.BlockSize() >= 28
  {
    DecodeSuper(BlockOf(disk, sb.BlockSize(), 0), 0)
  }

  /** What a mount needs of the superblock, and a place for the record of each of these inodes. */
  predicate Mountable(sb: Super, inos: set<nat>) {
    && sb.Valid() && sb.inodesInBlock == 64 && sb.BlockSize() >= 28 && sb.zoneMapBlocks > 0 && sb.inodeMapBlocks > 0
    && forall ino :: ino in inos ==> Housed(sb, sb.BlockSize(), ino)
  }

  /** Both maps, these inodes and the superblock buffer as the device has them. */
  function LoadedState(sb: Super, disk: Disk, inos: set<nat>): (r: State)
    requires Mountable(sb, inos)
    ensures Shaped(sb, r)
  {
    var found := Found(sb, disk, inos);
    State(LoadedMap(disk, sb.BlockSize(), 1, sb.zoneMapBlocks),
          LoadedMap(disk, sb.BlockSize(), InodeMapStart(sb), sb.inodeMapBlocks),
          ZonesIn(found), FieldsIn(found), disk, BlockOf(disk, sb.BlockSize(), 0), {}, {}, {}, Up)
  }

  /** A mount: the superblock is decoded, and the rest is read if it is the one of this volume. */
  function Reloaded(sb: Super, s: State): (r: State)
    requires Shaped(sb, s)
    ensures Shaped(sb, r)
  {
    if SuperOn(sb, s.disk) != sb then
      s.(status := if SuperOn(sb, s.disk).magic != MAGIC then Crashed else Misread)
    else
      LoadedState(sb, s.disk, s.ptrs.Keys)
  }

  /**
   Unmounting writes back everything dirty. The superblock buffer is marked dirty too, although it was
   released right after the mount: `held` says whether it is still there, and then it is written.
   */
  function Unmounted(sb: Super, s: State, held: bool): (r: State)
    requires Shaped(sb, s)
    ensures Shaped(sb, r)
  {
    var t := Synced(sb, s);
    if held then t.(disk := t.disk[0 := t.super]) else t
  }

  /** Unmounting and mounting again. */
  function Remounted(sb: Super, s: State, held: bool): (r: State)
    requires Shaped(sb, s)
    ensures Shaped(sb, r)
  {
    Reloaded(sb, Unmounted(sb, s, held))
  }

  // ---------------------------------------------------------------- operations and runs

  /**
   `marks` says whether a read or write leaves its inode marked dirty, which its time stamps and size may
   or may not do; the driver itself does not mark it when a pointer is filled.
   */
  datatype Op = Create(attrs: Attrs)
              | SetAttrs(ino: nat, attrs: Attrs)
              | Write(ino: nat, iblock: nat, data: Data, beyond: int, marks: bool)
              | Read(ino: nat, iblock: nat, beyond: int, marks: bool)
              | Sync
              | Remount(held: bool)

  function At(disk: Disk, b: int): (r: Option<Data>) {
    if b in disk then Some(disk[b]) else None
  }

  /** The mapping keeps the shape of the state, whatever buffer size is asked for. */
  lemma {:induction false} GetBlockKeepsShaped(sb: Super, s: State, ino: nat, iblock: nat, bsize: nat, beyond: int)
    requires Shaped(sb, s) && ino in s.ptrs && bsize > 0
    ensures Shaped(sb, GetBlock(sb, s, ino, iblock, bsize, beyond).0)
  {
  }

  /** The mapping at the block size of the device. */
  function MapFile(sb: Super, s: State, ino: nat, iblock: nat, beyond: int): (r: (State, Mapping))
    requires Shaped(sb, s) && ino in s.ptrs
    ensures Shaped(sb, r.0)
  {
    GetBlockKeepsShaped(sb, s, ino, iblock, sb.BlockSize(), beyond);
    GetBlock(sb, s, ino, iblock, sb.BlockSize(), beyond)
  }

  /** A number that an inode can have: not 0, and with a place in the table. */
  predicate Usable(sb: Super, n: nat) {
    n > 0 && Housed(sb, sb.BlockSize(), n)
  }

  /** The first free number is taken in the inode map, and the map block that holds it is marked dirty. */
  function Took(sb: Super, s: State, block: set<nat>): (r: State)
    requires Shaped(sb, s)
    ensures Shaped(sb, r)
  {
    s.(inodeBits := Alloc(s.inodeBits).0, dirtyInodeMap := s.dirtyInodeMap + block)
  }

  /** A new inode has nine empty pointers and is marked dirty. */
  function Born(sb: Super, s: State, n: nat, attrs: Attrs): (r: State)
    requires Shaped(sb, s) && Usable(sb, n)
    ensures Shaped(sb, r)
  {
    s.(ptrs := s.ptrs[n := [0, 0, 0, 0, 0, 0, 0, 0, 0]], attrs := s.attrs[n := attrs],
       dirtyInodes := s.dirtyInodes + {n})
  }

  /** A creation takes the first free number. One whose record would lie outside the table is lost. */
  function Created(sb: Super, s: State, attrs: Attrs): (r: State)
    requires Shaped(sb, s)
    ensures Shaped(sb, r)
  {
    var t := Took(sb, s, Touched(sb, s.inodeBits));
    match Alloc(s.inodeBits).1
    case None => t
    case Some(n) => if n in s.ptrs || !Usable(sb, n) then t else Born(sb, t, n, attrs)
  }

  function Changed(sb: Super, s: State, ino: nat, attrs: Attrs): (r: State)
    requires Shaped(sb, s)
    ensures Shaped(sb, r)
  {
    if ino in s.ptrs then s.(attrs := s.attrs[ino := attrs], dirtyInodes := s.dirtyInodes + {ino}) else s
  }

  function Marked(sb: Super, s: State, ino: nat): (r: State)
    requires Shaped(sb, s) && ino in s.ptrs
    ensures Shaped(sb, r)
  {
    s.(dirtyInodes := s.dirtyInodes + {ino})
  }

  function Stored(sb: Super, s: State, b: int, data: Data): (r: State)
    requires Shaped(sb, s)
    ensures Shaped(sb, r)
  {
    s.(disk := s.disk[b := data])
  }

  function MarkedIf(sb: Super, s: State, ino: nat, marks: bool): (r: State)
    requires Shaped(sb, s) && ino in s.ptrs
    ensures Shaped(sb, r)
  {
    if marks then Marked(sb, s, ino) else s
  }

  /** One operation. The answer is the contents seen by a read. Without a mounted volume nothing happens. */
  function Step(sb: Super, s: State, op: Op): (r: (State, Option<Data>))
    requires Shaped(sb, s)
    ensures Shaped(sb, r.0)
  {
    if !s.status.Up? then (s, None)
    else
      match op
      case Create(attrs) => (Created(sb, s, attrs), None)
      case SetAttrs(ino, attrs) => (Changed(sb, s, ino, attrs), None)
      case Write(ino, iblock, data, beyond, marks) =>
        if ino !in s.ptrs then (s, None)
        else
          var (s', m) := MapFile(sb, s, ino, iblock, beyond);
          (if m.Eio? then s' else Stored(sb, MarkedIf(sb, s', ino, marks), m.block, data), None)
      case Read(ino, iblock, beyond, marks) =>
        if ino !in s.ptrs then (s, None)
        else
          var (s', m) := MapFile(sb, s, ino, iblock, beyond);
          (MarkedIf(sb, s', ino, marks), if m.Eio? then None else At(s'.disk, m.block))
      case Sync => (Synced(sb, s), None)
      case Remount(held) => (Remounted(sb, s, held), None)
  }

  /** Operation `i` leads from state `i` to the next one. */
  predicate StepAt(sb: Super, ss: seq<State>, ops: seq<Op>, i: nat)
    requires i < |ops| < |ss|
  {
    Shaped(sb, ss[i]) && ss[i + 1] == Step(sb, ss[i], ops[i]).0
  }

  /** The states of a run, one more than its operations. */
  ghost predicate IsRun(sb: Super, ss: seq<State>, ops: seq<Op>) {
    && |ss| == |ops| + 1 && Shaped(sb, ss[0])
    && forall i: nat {:trigger StepAt(sb, ss, ops, i)} :: i < |ops| ==> StepAt(sb, ss, ops, i)
  }

  lemma {:induction false} StateIsShaped(sb: Super, ss: seq<State>, ops: seq<Op>, i: nat)
    requires IsRun(sb, ss, ops) && i <= |ops|
    ensures Shaped(sb, ss[i])
  {
    if i > 0 {
      assert StepAt(sb, ss, ops, i - 1);
    }
  }

  // ---------------------------------------------------------------- the invariant

  /** The mount parameters: one zone is a whole number of blocks, as many as the superblock says. */
  predicate Geometry(sb: Super) {
    && sb.Valid() && 0 < sb.BlockSize() && sb.zoneSize < TWO_32
    && sb.zoneSize % sb.BlockSize() == 0 && sb.zoneSize / sb.BlockSize() == sb.blocksPerZone <= 0x100_0000
  }

  /** Every zone still free has a block number that survives the conversion to `int`. */
  predicate Exact(sb: Super, bits: seq<bool>)
    requires sb.Valid()
  {
    forall f: nat :: f < |bits| && !bits[f] ==> ZoneNumber(sb, f) == sb.ZoneStart(f)
  }

  /** A pointer names the root zone written by the formatter or a zone whose bit is set. */
  ghost predicate Home(sb: Super, root: nat, bits: seq<bool>, p: int)
    requires sb.Valid()
  {
    p == root || exists j: nat :: 2 <= j < |bits| && bits[j] && p == sb.ZoneStart(j)
  }

  predicate RootApart(sb: Super, root: nat)
    requires sb.Valid()
  {
    sb.MetaBlocks() + sb.blocksPerZone <= root && root + sb.blocksPerZone <= sb.ZoneStart(2)
  }

  /** Pointer `i` of inode `n` holds a zone. */
  predicate Owns(ptrs: map<nat, seq<int>>, n: nat, i: nat)
    requires NinePointers(ptrs)
  {
    n in ptrs && i < POINTERS && ptrs[n][i] != 0
  }

  ghost predicate Inv(sb: Super, root: nat, s: State)
    requires sb.Valid()
  {
    && RootApart(sb, root) && NinePointers(s.ptrs)
    && |s.bits| >= 2 && s.bits[0] && s.bits[1] && Exact(sb, s.bits)
    && (forall n: nat, i: nat {:trigger Owns(s.ptrs, n, i)} :: Owns(s.ptrs, n, i) ==>
          Home(sb, root, s.bits, s.ptrs[n][i]))
    && (forall n: nat, i: nat, n': nat, i': nat {:trigger Owns(s.ptrs, n, i), Owns(s.ptrs, n', i')} ::
          Owns(s.ptrs, n, i) && Owns(s.ptrs, n', i') && s.ptrs[n][i] == s.ptrs[n'][i'] ==> n == n' && i == i')
  }

  /** Two different homes are at least a zone apart, and every home is above the metadata. */
  lemma {:induction false} HomesAreApart(sb: Super, root: nat, bits: seq<bool>, p: int, q: int)
    requires sb.Valid() && RootApart(sb, root)
    requires Home(sb, root, bits, p) && Home(sb, root, bits, q)
    ensures p >= sb.MetaBlocks() >= 1
    ensures p == q || p + sb.blocksPerZone <= q || q + sb.blocksPerZone <= p
  {
    HomeIsRootOrZone(sb, root, bits, p);
    HomeIsRootOrZone(sb, root, bits, q);
    if p != root && q != root {
      var i: nat :| 2 <= i < |bits| && p == sb.ZoneStart(i);
      var j: nat :| 2 <= j < |bits| && q == sb.ZoneStart(j);
      if i < j { ZonesAreDisjoint(sb, i, j); }
      if j < i { ZonesAreDisjoint(sb, j, i); }
    }
  }

  lemma {:induction false} HomeIsRootOrZone(sb: Super, root: nat, bits: seq<bool>, p: int)
    requires sb.Valid() && RootApart(sb, root) && Home(sb, root, bits, p)
    ensures p == root || (root + sb.blocksPerZone <= p && exists j: nat :: 2 <= j < |bits| && p == sb.ZoneStart(j))
    ensures p >= sb.MetaBlocks()
  {
    if p != root {
      var j: nat :| 2 <= j < |bits| && bits[j] && p == sb.ZoneStart(j);
      MulMonotone(2, j, sb.blocksPerZone);
    }
  }

  /** Every pointer fits the 32-bit field of the inode record. */
  predicate Storable(ptrs: map<nat, seq<int>>)
    requires NinePointers(ptrs)
  {
    forall ino, i: nat :: ino in ptrs && i < POINTERS ==> 0 <= ptrs[ino][i] < TWO_32
  }

  // ---------------------------------------------------------------- mapping a key

  predicate InRange(sb: Super, iblock: nat) {
    iblock < POINTERS * sb.blocksPerZone
  }

  lemma {:induction false} PositionInRange(sb: Super, iblock: nat)
    requires Geometry(sb)
    ensures SizeAccepted(sb, sb.BlockSize())
    ensures Offset(sb, sb.BlockSize(), iblock) == iblock % sb.blocksPerZone < sb.blocksPerZone
    ensures InRange(sb, iblock) ==> Index(sb, sb.BlockSize(), iblock) == iblock / sb.blocksPerZone < POINTERS
  {
    if InRange(sb, iblock) {
      QuotientInRange(iblock, sb.blocksPerZone);
    }
  }

  /** Device block of a file block, once its zone exists. */
  function Loc(sb: Super, s: State, ino: nat, iblock: nat): (r: Option<int>)
    requires sb.Valid() && NinePointers(s.ptrs)
  {
    Place(s.ptrs, ino, iblock / sb.blocksPerZone, iblock % sb.blocksPerZone)
  }

  function Place(ptrs: map<nat, seq<int>>, ino: nat, idx: nat, off: nat): (r: Option<int>)
    requires NinePointers(ptrs)
  {
    if Owns(ptrs, ino, idx) then Some(off + ptrs[ino][idx]) else None
  }

  /** Pointers lie above the metadata, and two different pointers are at least a zone apart. */
  ghost predicate Apart(sb: Super, ptrs: map<nat, seq<int>>)
    requires NinePointers(ptrs)
  {
    forall n: nat, i: nat, n': nat, i': nat {:trigger Owns(ptrs, n, i), Owns(ptrs, n', i')} ::
      Owns(ptrs, n, i) && Owns(ptrs, n', i') ==>
        && ptrs[n][i] >= sb.MetaBlocks()
        && ((n == n' && i == i') || ptrs[n][i] + sb.blocksPerZone <= ptrs[n'][i']
            || ptrs[n'][i'] + sb.blocksPerZone <= ptrs[n][i])
  }

  lemma {:induction false} InvIsApart(sb: Super, root: nat, s: State)
    requires sb.Valid() && Inv(sb, root, s)
    ensures Apart(sb, s.ptrs)
  {
    forall n: nat, i: nat, n': nat, i': nat | Owns(s.ptrs, n, i) && Owns(s.ptrs, n', i')
      ensures s.ptrs[n][i] >= sb.MetaBlocks()
      ensures (n == n' && i == i') || s.ptrs[n][i] + sb.blocksPerZone <= s.ptrs[n'][i']
              || s.ptrs[n'][i'] + sb.blocksPerZone <= s.ptrs[n][i]
    {
      HomesAreApart(sb, root, s.bits, s.ptrs[n][i], s.ptrs[n'][i']);
    }
  }

  /**
   The map from (inode, file block) to device block is injective, lies above all metadata, and
   is contiguous inside a zone.
   */
  ghost predicate InjectiveMap(sb: Super, s: State)
    requires sb.Valid() && NinePointers(s.ptrs)
  {
    forall n: nat, k: nat, n': nat, k': nat :: Loc(sb, s, n, k).Some? && Loc(sb, s, n', k').Some? ==>
      && Loc(sb, s, n, k).value >= sb.MetaBlocks()
      && (Loc(sb, s, n, k).value == Loc(sb, s, n', k').value ==> n == n' && k == k')
      && (n == n' && k / sb.blocksPerZone == k' / sb.blocksPerZone ==>
            Loc(sb, s, n, k).value - Loc(sb, s, n', k').value == k - k')
  }

  lemma {:induction false} LocIsInjective(sb: Super, root: nat, s: State)
    requires sb.Valid() && Inv(sb, root, s)
    ensures InjectiveMap(sb, s)
  {
    InvIsApart(sb, root, s);
    ApartIsInjective(sb, s);
  }

  lemma {:induction false} ApartIsInjective(sb: Super, s: State)
    requires sb.Valid() && NinePointers(s.ptrs) && Apart(sb, s.ptrs)
    ensures InjectiveMap(sb, s)
  {
    forall n: nat, k: nat, n': nat, k': nat | Loc(sb, s, n, k).Some? && Loc(sb, s, n', k').Some?
      ensures Loc(sb, s, n, k).value >= sb.MetaBlocks()
      ensures Loc(sb, s, n, k).value == Loc(sb, s, n', k').value ==> n == n' && k == k'
      ensures n == n' && k / sb.blocksPerZone == k' / sb.blocksPerZone ==>
                Loc(sb, s, n, k).value - Loc(sb, s, n', k').value == k - k'
    {
      LocPair(sb, s, n, k, n', k');
    }
  }

  lemma {:induction false} LocPair(sb: Super, s: State, n: nat, k: nat, n': nat, k': nat)
    requires sb.Valid() && NinePointers(s.ptrs) && Apart(sb, s.ptrs)
    requires Loc(sb, s, n, k).Some? && Loc(sb, s, n', k').Some?
    ensures Loc(sb, s, n, k).value >= sb.MetaBlocks()
    ensures Loc(sb, s, n, k).value == Loc(sb, s, n', k').value ==> n == n' && k == k'
    ensures n == n' && k / sb.blocksPerZone == k' / sb.blocksPerZone ==>
              Loc(sb, s, n, k).value - Loc(sb, s, n', k').value == k - k'
  {
    var z := sb.blocksPerZone;
    SplitCases(k, k', z);
    PlacePair(sb, s.ptrs, n, k / z, k % z, n', k' / z, k' % z);
  }

  lemma {:induction false} PlacePair(sb: Super, ptrs: map<nat, seq<int>>, n: nat, i: nat, r: nat, n': nat, i': nat,
                                     r': nat)
    requires NinePointers(ptrs) && Apart(sb, ptrs) && r < sb.blocksPerZone && r' < sb.blocksPerZone
    requires Place(ptrs, n, i, r).Some? && Place(ptrs, n', i', r').Some?
    ensures Place(ptrs, n, i, r).value >= sb.MetaBlocks()
    ensures Place(ptrs, n, i, r).value == Place(ptrs, n', i', r').value ==> n == n' && i == i' && r == r'
    ensures n == n' && i == i' ==> Place(ptrs, n, i, r).value - Place(ptrs, n', i', r').value == r - r'
  {
  }

  lemma {:induction false} SplitCases(k: nat, k': nat, z: nat)
    requires z > 0
    ensures 0 <= k % z < z && 0 <= k' % z < z && k / z >= 0 && k' / z >= 0
    ensures k / z == k' / z ==> k - k' == k % z - k' % z
  {
    assert k == k / z * z + k % z && k' == k' / z * z + k' % z;
  }

  /** Every pointer that is set stays as it is. */
  predicate Extends(s: State, s': State)
    requires NinePointers(s.ptrs) && NinePointers(s'.ptrs)
  {
    && s.ptrs.Keys <= s'.ptrs.Keys
    && forall n, i: nat :: n in s.ptrs && i < POINTERS && s.ptrs[n][i] != 0 ==> s'.ptrs[n][i] == s.ptrs[n][i]
  }

  /** A location is kept while pointers are only added. */
  lemma {:induction false} LocIsKept(sb: Super, s: State, s': State, n: nat, k: nat)
    requires sb.Valid() && NinePointers(s.ptrs) && NinePointers(s'.ptrs) && Extends(s, s')
    requires Loc(sb, s, n, k).Some?
    ensures Loc(sb, s', n, k) == Loc(sb, s, n, k)
  {
  }

  // ---------------------------------------------------------------- one call

  /** Whether the next use of pointer `idx` of `ino` finds or can be given a zone. */
  predicate Covered(sb: Super, s: State, ino: nat, iblock: nat)
    requires sb.Valid() && ino in s.ptrs && NinePointers(s.ptrs)
  {
    InRange(sb, iblock) && (s.ptrs[ino][IndexOf(sb, iblock)] != 0 || !Full(s.bits))
  }

  function IndexOf(sb: Super, iblock: nat): (r: nat)
    requires sb.Valid() && InRange(sb, iblock)
    ensures r < POINTERS
  {
    QuotientInRange(iblock, sb.blocksPerZone);
    iblock / sb.blocksPerZone
  }

  lemma {:induction false} QuotientInRange(iblock: nat, z: nat)
    requires iblock < POINTERS * z
    ensures iblock / z < POINTERS
  {
    assert iblock == iblock / z * z + iblock % z;
    if iblock / z >= POINTERS {
      MulMonotone(POINTERS, iblock / z, z);
    }
  }

  /** What a fresh zone adds to the invariant. */
  lemma {:induction false} FreshZone(sb: Super, root: nat, s: State)
    requires sb.Valid() && Inv(sb, root, s) && !Full(s.bits)
    ensures var f := FirstFree(s.bits);
            && 2 <= f < |s.bits| && Alloc(s.bits) == (s.bits[f := true], Some(f))
            && Issued(sb, s.bits) == sb.ZoneStart(f) > 0
            && Home(sb, root, s.bits[f := true], sb.ZoneStart(f))
            && !Home(sb, root, s.bits, sb.ZoneStart(f))
  {
    var f := FirstFree(s.bits);
    assert ZoneNumber(sb, f) == sb.ZoneStart(f);
    ZonesAboveMetadata(sb, f);
    MulMonotone(2, f, sb.blocksPerZone);
    ZoneNumberRange(sb, f);
    assert Home(sb, root, s.bits[f := true], sb.ZoneStart(f)) by {
      assert s.bits[f := true][f];
    }
    if Home(sb, root, s.bits, sb.ZoneStart(f)) {
      var j: nat :| 2 <= j < |s.bits| && s.bits[j] && sb.ZoneStart(f) == sb.ZoneStart(j);
      if j < f { ZonesAreDisjoint(sb, j, f); } else { ZonesAreDisjoint(sb, f, j); }
    }
  }

  lemma {:induction false} ZoneNumberRange(sb: Super, f: nat)
    requires sb.Valid()
    ensures ZoneNumber(sb, f) < TWO_31
  {
  }

  lemma {:induction false} FullMapChangesNothing(sb: Super, s: State, ino: nat, iblock: nat, beyond: int)
    requires sb.Valid() && sb.BlockSize() > 0 && NinePointers(s.ptrs) && ino in s.ptrs && Full(s.bits)
    ensures GetBlock(sb, s, ino, iblock, sb.BlockSize(), beyond).0 == s
  {
    if SizeAccepted(sb, sb.BlockSize()) && Index(sb, sb.BlockSize(), iblock) < POINTERS
       && s.ptrs[ino][Index(sb, sb.BlockSize(), iblock)] == 0 {
      var p := s.ptrs[ino];
      assert p[Index(sb, sb.BlockSize(), iblock) := 0] == p;
      assert s.ptrs[ino := p] == s.ptrs;
    }
  }

  /** `GetBlock` keeps the invariant, also when it fails and when the device is full. */
  lemma {:induction false} GetBlockKeepsInv(sb: Super, root: nat, s: State, ino: nat, iblock: nat, beyond: int)
    requires Geometry(sb) && Inv(sb, root, s) && ino in s.ptrs
    ensures Inv(sb, root, GetBlock(sb, s, ino, iblock, sb.BlockSize(), beyond).0)
  {
    var s' := GetBlock(sb, s, ino, iblock, sb.BlockSize(), beyond).0;
    if Full(s.bits) {
      FullMapChangesNothing(sb, s, ino, iblock, beyond);
    } else if s' != s {
      FreshZone(sb, root, s);
      var f, idx := FirstFree(s.bits), Index(sb, sb.BlockSize(), iblock);
      FillKeepsInv(sb, root, s, s', ino, idx, f);
    }
  }

  /** An empty pointer receives a zone whose bit was clear. */
  lemma {:induction false} FillKeepsInv(sb: Super, root: nat, s: State, s': State, ino: nat, idx: nat, f: nat)
    requires sb.Valid() && Inv(sb, root, s) && ino in s.ptrs && idx < POINTERS && s.ptrs[ino][idx] == 0
    requires 2 <= f < |s.bits| && !s.bits[f] && !Home(sb, root, s.bits, sb.ZoneStart(f))
    requires Home(sb, root, s.bits[f := true], sb.ZoneStart(f))
    requires s'.bits == s.bits[f := true] && s'.ptrs == s.ptrs[ino := s.ptrs[ino][idx := sb.ZoneStart(f)]]
    ensures Inv(sb, root, s')
  {
    forall n: nat, i: nat | Owns(s'.ptrs, n, i)
      ensures Home(sb, root, s'.bits, s'.ptrs[n][i])
      ensures (n, i) == (ino, idx) || (Owns(s.ptrs, n, i) && s'.ptrs[n][i] == s.ptrs[n][i] != sb.ZoneStart(f))
    {
      if (n, i) != (ino, idx) {
        assert Owns(s.ptrs, n, i);
        HomeKept(sb, root, s.bits, f, s.ptrs[n][i]);
      }
    }
  }

  lemma {:induction false} HomeKept(sb: Super, root: nat, bits: seq<bool>, f: nat, p: int)
    requires sb.Valid() && Home(sb, root, bits, p) && f < |bits|
    ensures Home(sb, root, bits[f := true], p)
  {
    if p != root {
      var j: nat :| 2 <= j < |bits| && bits[j] && p == sb.ZoneStart(j);
      assert bits[f := true][j];
    }
  }

  /**
   A covered call maps to the file block's location and keeps every pointer already assigned.
   */
  lemma {:induction false} GetBlockMaps(sb: Super, root: nat, s: State, ino: nat, iblock: nat, beyond: int)
    requires Geometry(sb) && Inv(sb, root, s) && Storable(s.ptrs) && ino in s.ptrs && Covered(sb, s, ino, iblock)
    ensures var (s', m) := GetBlock(sb, s, ino, iblock, sb.BlockSize(), beyond);
            m.Mapped? && Loc(sb, s', ino, iblock) == Some(m.block) && Extends(s, s')
  {
    PositionInRange(sb, iblock);
    var idx, off := IndexOf(sb, iblock), Offset(sb, sb.BlockSize(), iblock);
    if s.ptrs[ino][idx] == 0 {
      FreshZone(sb, root, s);
      ZoneNumberRange(sb, FirstFree(s.bits));
      SectorIsExact(off, Issued(sb, s.bits));
      AllocatedLoc(sb, s, ino, iblock, beyond);
    } else {
      SectorIsExact(off, s.ptrs[ino][idx]);
    }
  }

  lemma {:induction false} SectorIsExact(off: nat, pointer: int)
    requires off < TWO_32 && 0 <= pointer < TWO_32
    ensures Sector(off, pointer) == off + pointer
  {
  }

  /** The call that fills an empty pointer with a zone. */
  lemma {:induction false} AllocatedLoc(sb: Super, s: State, ino: nat, iblock: nat, beyond: int)
    requires Geometry(sb) && NinePointers(s.ptrs) && ino in s.ptrs && InRange(sb, iblock)
    requires s.ptrs[ino][IndexOf(sb, iblock)] == 0 && Issued(sb, s.bits) != 0
    ensures var (s', m) := GetBlock(sb, s, ino, iblock, sb.BlockSize(), beyond);
            && m == Mapped(Sector(Offset(sb, sb.BlockSize(), iblock), Issued(sb, s.bits)))
            && Loc(sb, s', ino, iblock) == Some(Offset(sb, sb.BlockSize(), iblock) + Issued(sb, s.bits))
            && Extends(s, s')
  {
    PositionInRange(sb, iblock);
  }

  /**
   When the code meets its purpose. For a file block within nine zones the call always succeeds, and it
   reaches the data region exactly when the pointer is set or a zone is free. With a full map it
   names a block below the root zone, the same one for every file.
   */
  lemma {:induction false} GetBlockReachesDataWhen(sb: Super, root: nat, s: State, ino: nat, iblock: nat, beyond: int)
    requires Geometry(sb) && Inv(sb, root, s) && Storable(s.ptrs) && ino in s.ptrs && InRange(sb, iblock)
    ensures var (s', m) := GetBlock(sb, s, ino, iblock, sb.BlockSize(), beyond);
            && m.Mapped?
            && (m.block >= root <==> Covered(sb, s, ino, iblock))
            && (!Covered(sb, s, ino, iblock) ==> s' == s && m.block == iblock % sb.blocksPerZone < sb.blocksPerZone)
  {
    PositionInRange(sb, iblock);
    var p := s.ptrs[ino][IndexOf(sb, iblock)];
    if p != 0 {
      assert Owns(s.ptrs, ino, IndexOf(sb, iblock));
      HomeIsRootOrZone(sb, root, s.bits, p);
      SectorIsExact(Offset(sb, sb.BlockSize(), iblock), p);
    } else if !Full(s.bits) {
      FreshZone(sb, root, s);
      MulMonotone(2, FirstFree(s.bits), sb.blocksPerZone);
      ZoneNumberRange(sb, FirstFree(s.bits));
      SectorIsExact(Offset(sb, sb.BlockSize(), iblock), Issued(sb, s.bits));
    } else {
      FullMapChangesNothing(sb, s, ino, iblock, beyond);
      SectorIsExact(Offset(sb, sb.BlockSize(), iblock), 0);
    }
  }

  /** A word other than 0 past the pointers is taken for a zone, at the offset of the file block. */
  lemma {:induction false} PastEndMapsTo(sb: Super, s: State, ino: nat, iblock: nat, beyond: int)
    requires Geometry(sb) && ino in s.ptrs && NinePointers(s.ptrs) && !InRange(sb, iblock)
    requires iblock / sb.blocksPerZone < TWO_32 && 0 < beyond < TWO_63
    ensures GetBlock(sb, s, ino, iblock, sb.BlockSize(), beyond) == (s, Mapped(iblock % sb.blocksPerZone + beyond))
  {
    PositionInRange(sb, iblock);
    BeyondTheNinth(iblock, sb.blocksPerZone);
  }

  lemma {:induction false} BeyondTheNinth(k: nat, per: nat)
    requires per > 0 && k >= POINTERS * per
    ensures k / per >= POINTERS
  {
    assert k == k / per * per + k % per;
    if k / per < POINTERS {
      MulMonotone(k / per + 1, POINTERS, per);
    }
  }

  /**
   A file block past the ninth zone is refused exactly when its 32-bit index is past the pointers and the word
   there is 0.
   */
  lemma {:induction false} PastEndIsRefusedWhen(sb: Super, s: State, ino: nat, iblock: nat, beyond: int)
    requires Geometry(sb) && NinePointers(s.ptrs) && ino in s.ptrs && !InRange(sb, iblock)
    ensures GetBlock(sb, s, ino, iblock, sb.BlockSize(), beyond).1.Eio? <==>
            Index(sb, sb.BlockSize(), iblock) >= POINTERS && beyond == 0
  {
  }

  lemma {:induction false} PositionWraps(iblock: nat, z: nat)
    requires z > 0
    ensures U32((iblock + TWO_32 * z) / z) == U32(iblock / z) && (iblock + TWO_32 * z) % z == iblock % z
  {
    var q, r := iblock / z, iblock % z;
    assert iblock == q * z + r;
    assert (q + TWO_32) * z == q * z + TWO_32 * z;
    DivModUnique(iblock + TWO_32 * z, z, q + TWO_32, r);
    IndexWraps(q);
  }

  lemma {:induction false} IndexWraps(q: nat)
    ensures U32(q + TWO_32) == U32(q)
  {
    WrapsTo(q, TWO_32);
    DivModUnique(q + TWO_32, TWO_32, q / TWO_32 + 1, q % TWO_32);
    ConversionsWrap(q);
    ConversionsWrap(q + TWO_32);
  }

  /** The 32-bit index wraps: 2^32 zones further on, a file block is mapped as if it were the earlier one. */
  lemma {:induction false} FarBlocksAlias(sb: Super, s: State, ino: nat, iblock: nat, beyond: int)
    requires Geometry(sb) && NinePointers(s.ptrs) && ino in s.ptrs
    ensures GetBlock(sb, s, ino, iblock + TWO_32 * sb.blocksPerZone, sb.BlockSize(), beyond) ==
            GetBlock(sb, s, ino, iblock, sb.BlockSize(), beyond)
  {
    PositionWraps(iblock, sb.blocksPerZone);
  }
}
