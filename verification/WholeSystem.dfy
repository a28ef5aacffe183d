/**
 Formatter and kernel together, on one device: what the formatter writes is what the kernel mounts,
 and from there every run is safe.
 */
module WholeSystem {
  import opened Numbers
  import opened Options
  import opened PackedBits
  import opened FirstFit
  import opened Endian
  import opened Layout
  import opened InodeTable
  import opened Metadata
  import opened MapBytes
  import FileCapacity
  import FileRuns
  import FileStore
  import FileVolume
  import Persistence
  import Refinement
  import Conservation
  import Formatter
  import KernelBitmap
  import MapBlocks
  import Namespace
  import DirectoryEntries
  import RootDirectory

  /** Who formats, and when. */
  datatype User = User(uid: nat, gid: nat, now: nat)

  type Owner = u: User | u.uid < TWO_32 && u.gid < TWO_32 && u.now < TWO_63 witness User(0, 0, 0)

  /** The root inode as the formatter writes it: a directory of two entries in one zone. */
  function RootInode(block: nat, u: Owner): (i: Inode)
    requires block < TWO_32
    ensures i.WellTyped()
  {
    Inode([block, 0, 0, 0, 0, 0, 0, 0, 0], 1, 128, u.gid, u.uid, 0x41ED, u.now)
  }

  /** A condition on the configuration alone: every zone's block number fits an `int`. */
  predicate BlockNumbersFit(c: Config)
    requires c.zoneSize >= 64 && c.alignment > 0 && c.NumZones() > 0
  {
    Mounted(c, 1).ZoneStart(c.NumZones() - 1) < TWO_31
  }

  lemma {:induction false} RootBlockFits(c: Config)
    requires c.Accepted()
    ensures c.MetaBlocks() < c.RootBlock() < TWO_32
    ensures BlockNumbersFit(c) ==> c.RootBlock() < TWO_31
  {
    AcceptedSizes(c);
    EntryBlocksSmall(c);
    RootZoneIsApart(c, c.NumZones() - 1);
    RoundUpIsLeastMultiple(c.MetaBlocks(), c.alignment);
    SmallZones(c);
  }

  lemma {:induction false} SmallZones(c: Config)
    requires c.Accepted()
    ensures c.BlocksPerZone() <= 0x10_0000
  {
    AcceptedSizes(c);
  }

  // ---------------------------------------------------------------- the formatted device

  /** The device as the formatter leaves it: superblock, both maps, the root's record and the root's block. */
  ghost predicate Formatted(c: Config, disk: Disk, u: Owner)
    requires c.Accepted()
  {
    && c.RootBlock() < TWO_32 && c.BlockSize() >= 192
    && HoldsWords(BlockOf(disk, c.BlockSize(), 0), FormatWords(c, 1))
    && Shape(Unpack(BlockOf(disk, c.BlockSize(), 1)), 2, c.NumZones())
    && Shape(Unpack(BlockOf(disk, c.BlockSize(), 2)), 2, c.NumInodes())
    && HoldsRecord(c, disk, RootInode(c.RootBlock(), u))
    && RootDirectory.RootBytes(BlockOf(disk, c.BlockSize(), c.RootBlock()))
  }

  /** The record of inode 1 is where the formatter puts it. */
  predicate HoldsRecord(c: Config, disk: Disk, i: Inode)
    requires c.zoneSize >= 64 && |i.zones| == POINTERS
  {
    && c.InodeOffset(1) + 64 <= c.BlockSize()
    && BlockOf(disk, c.BlockSize(), c.InodeBlock(1))[c.InodeOffset(1)..c.InodeOffset(1) + 64] == RawRecord(i)
  }

  lemma {:induction false} RootPlace(c: Config)
    requires c.Accepted()
    ensures c.BlockSize() >= 512 && c.InodeBlock(1) == 3 && c.InodeOffset(1) == 64 && c.MetaBlocks() > 3
  {
    AcceptedSizes(c);
    EntryBlocksSmall(c);
    DivModUnique(1, c.InodesInBlock(), 0, 1);
  }

  /** The map bits that reach the device. */
  method FormatMaps(c: Config, zoneMem: array<bv8>, inodeMem: array<bv8>)
    returns (root: nat, block: nat, zones: seq<Byte>, inodes: seq<Byte>)
    requires c.Accepted() && zoneMem != inodeMem
    requires zoneMem.Length == inodeMem.Length == 8 * c.BlockSize()
    modifies zoneMem, inodeMem
    ensures root == 1 && block == c.RootBlock() && |zones| == |inodes| == c.BlockSize()
    ensures Shape(Unpack(zones), 2, c.NumZones()) && Shape(Unpack(inodes), 2, c.NumInodes())
  {
    var f := new Formatter.Maps(c, zoneMem, inodeMem);
    var inode, zone;
    inode, zone, block := f.MkRootDir();
    root := inode.index;
    zones, inodes := BytesOf(zoneMem[..c.BlockSize()]), BytesOf(inodeMem[..c.BlockSize()]);
    WrittenBits(zoneMem[..], c.BlockSize());
    WrittenBits(inodeMem[..], c.BlockSize());
    assert zoneMem[..][..c.BlockSize()] == zoneMem[..c.BlockSize()];
    assert inodeMem[..][..c.BlockSize()] == inodeMem[..c.BlockSize()];
  }

  lemma {:induction false} WrittenBits(mem: seq<bv8>, n: nat)
    requires n <= |mem|
    ensures Unpack(BytesOf(mem[..n])) == Bits(mem)[..8 * n]
  {
    BytesArePacked(mem[..n]);
    UnpackPack(Bits(mem[..n]), n);
    BitsOfPrefix(mem, n);
  }

  lemma {:induction false} BitsOfPrefix(s: seq<bv8>, n: nat)
    requires n <= |s|
    ensures Bits(s[..n]) == Bits(s)[..8 * n]
  {
    forall i: nat | i < 8 * n
      ensures Bits(s[..n])[i] == Bits(s)[i]
    {
      assert TestBit(s[..n], i) == TestBit(s, i);
    }
  }

  /** The words of the root's record: one zone, one block, two entries, the user's ids, `drwxr-xr-x`, the time. */
  predicate RootWords(rec: seq<Byte>, block: nat, u: Owner)
    requires |rec| == 64
  {
    && Word(rec, 0) == block && (forall k: nat :: 1 <= k < POINTERS ==> Word(rec, k) == 0)
    && Word(rec, 9) == 1 && Word(rec, 10) == 128 && Word(rec, 11) == u.gid && Word(rec, 12) == u.uid
    && Word(rec, 13) == 0x41ED && GetBe64(rec[56..64]) == u.now
  }

  lemma {:induction false} RootRecordWords(block: nat, u: Owner)
    requires block < TWO_32
    ensures RootWords(RawRecord(RootInode(block, u)), block, u)
  {
    var i := RootInode(block, u);
    var rec := RawRecord(i);
    TailWords(i);
    WordIs(rec, 9, i.blocks);
    WordIs(rec, 10, i.size);
    WordIs(rec, 11, i.gid);
    WordIs(rec, 12, i.uid);
    WordIs(rec, 13, i.mode);
    Be64RoundTrip(i.ctime);
    RootPointerWords(i, block);
  }

  lemma {:induction false} RootPointerWords(i: Inode, block: nat)
    requires block < TWO_32 && i.zones == [block, 0, 0, 0, 0, 0, 0, 0, 0]
    ensures Word(RawRecord(i), 0) == block && forall k: nat :: 1 <= k < POINTERS ==> Word(RawRecord(i), k) == 0
  {
    DecodedZones(i);
    forall k: nat | k < POINTERS
      ensures Word(RawRecord(i), k) == if k == 0 then block else 0
    {
      assert Decode(RawRecord(i)).zones[k] == Words(i).zones[k] == U32(i.zones[k]);
    }
  }

  /** The root's record and block, written into what the device held there. */
  method FormatRoot(c: Config, disk: Disk, block: nat, u: Owner) returns (table: seq<Byte>, dir: seq<Byte>)
    requires c.Accepted() && block < TWO_32
    ensures |table| == |dir| == c.BlockSize() && RootDirectory.RootBytes(dir)
    ensures c.InodeOffset(1) + 64 <= |table|
    ensures table[c.InodeOffset(1)..c.InodeOffset(1) + 64] == RawRecord(RootInode(block, u))
    ensures RootWords(table[c.InodeOffset(1)..c.InodeOffset(1) + 64], block, u)
    ensures forall k: nat :: k < |table| && !(c.InodeOffset(1) <= k < c.InodeOffset(1) + 64) ==>
              table[k] == BlockOf(disk, c.BlockSize(), c.InodeBlock(1))[k]
    ensures forall k: nat :: k < |dir| && !(k < 6 || 64 <= k < 71 || 128 <= k < 143) ==>
              dir[k] == BlockOf(disk, c.BlockSize(), block)[k]
  {
    RootPlace(c);
    RootRecordWords(block, u);
    var buf := FileVolume.ReadBuffer(disk, c.BlockSize(), c.InodeBlock(1));
    StoreRecord(buf, c.InodeOffset(1), RootInode(block, u));
    table := buf[..];
    var content := FileVolume.ReadBuffer(disk, c.BlockSize(), block);
    RootDirectory.WriteRootDir(content);
    dir := content[..];
  }

  method FormatSuper(c: Config, disk: Disk, root: nat) returns (image: seq<Byte>)
    requires c.Accepted()
    ensures |image| == c.BlockSize() && HoldsWords(image, FormatWords(c, root))
  {
    RootPlace(c);
    var buf := FileVolume.ReadBuffer(disk, c.BlockSize(), 0);
    FillSuper(buf, c, root);
    image := buf[..];
  }

  /**
   The formatter's run, for every accepted configuration and whatever the device, and the memory
   behind the map blocks, held: five blocks are written and no others.
   */
  method Format(c: Config, disk: Disk, u: Owner, zoneMem: array<bv8>, inodeMem: array<bv8>) returns (r: Disk)
    requires c.Accepted() && zoneMem != inodeMem
    requires zoneMem.Length == inodeMem.Length == 8 * c.BlockSize()
    modifies zoneMem, inodeMem
    ensures Formatted(c, r, u)
    ensures BlockOf(r, c.BlockSize(), 3) == BlockOf(r, c.BlockSize(), c.InodeBlock(1)) && c.InodeOffset(1) == 64
    ensures RootWords(BlockOf(r, c.BlockSize(), 3)[64..128], c.RootBlock(), u)
    ensures forall b :: b !in {0, 1, 2, 3, c.RootBlock()} ==> FileStore.At(r, b) == FileStore.At(disk, b)
  {
    RootPlace(c);
    RootBlockFits(c);
    var root, block, zones, inodes := FormatMaps(c, zoneMem, inodeMem);
    var image := FormatSuper(c, disk, root);
    var table, dir := FormatRoot(c, disk, block, u);
    r := disk[0 := image][1 := zones][2 := inodes][3 := table][block := dir];
    assert BlockOf(r, c.BlockSize(), 0) == image && BlockOf(r, c.BlockSize(), 1) == zones;
    assert BlockOf(r, c.BlockSize(), 2) == inodes;
    assert BlockOf(r, c.BlockSize(), 3) == table && BlockOf(r, c.BlockSize(), c.RootBlock()) == dir;
  }

  // ---------------------------------------------------------------- the mount

  /** The superblock, the first record and the geometry agree between the two programs. */
  lemma {:induction false} FormattedGeometry(c: Config)
    requires c.Accepted()
    ensures FileStore.Geometry(Mounted(c, 1)) && Mounted(c, 1).BlockSize() == c.BlockSize()
    ensures FileStore.RootApart(Mounted(c, 1), c.RootBlock())
    ensures Mounted(c, 1).InodeBlock(1) == c.InodeBlock(1) && Mounted(c, 1).InodeOffset(1) == c.InodeOffset(1)
    ensures Housed(Mounted(c, 1), c.BlockSize(), 1)
  {
    AcceptedSizes(c);
    RootZoneIsApart(c, 2);
    RootPlace(c);
    InodeAddressAgreesWhen(c, 1);
  }

  /** The root's record reads back as the root. */
  lemma {:induction false} RootRoundTrip(i: Inode)
    requires i.WellTyped() && i.WordsFit()
    ensures Decode(RawRecord(i)) == i
  {
    DecodeRaw(i);
    WordsAre(i);
  }

  lemma {:induction false} RootIsExact(block: nat, u: Owner)
    requires block < TWO_32
    ensures RootInode(block, u).WellTyped() && RootInode(block, u).WordsFit()
    ensures RegularOrDirectory(RootInode(block, u).mode)
  {
  }

  lemma {:induction false} RootRecord(c: Config, disk: Disk, u: Owner)
    requires c.Accepted() && Formatted(c, disk, u)
    ensures Housed(Mounted(c, 1), c.BlockSize(), 1)
    ensures RecordOf(Mounted(c, 1), disk, c.BlockSize(), 1) == RawRecord(RootInode(c.RootBlock(), u))
  {
    FormattedGeometry(c);
  }

  /** The kernel finds the root inode that the formatter wrote, at its own address, field by field. */
  lemma {:induction false} RootIsFound(c: Config, disk: Disk, u: Owner)
    requires c.Accepted() && Formatted(c, disk, u)
    ensures Housed(Mounted(c, 1), c.BlockSize(), 1)
    ensures InodeGet(Mounted(c, 1), disk, c.BlockSize(), 1) == Some(RootInode(c.RootBlock(), u))
    ensures var i := InodeGet(Mounted(c, 1), disk, c.BlockSize(), 1).value;
            && i.uid == u.uid && i.gid == u.gid && i.mode == 0x41ED
            && i.size == 128 && i.blocks == 1 && i.ctime == u.now
            && i.zones == [c.RootBlock(), 0, 0, 0, 0, 0, 0, 0, 0]
  {
    RootRecord(c, disk, u);
    RootIsExact(c.RootBlock(), u);
    RootRoundTrip(RootInode(c.RootBlock(), u));
  }

  /** The kernel's maps after the mount have the formatted bits; setting bit 0 again changes nothing. */
  lemma {:induction false} MapIsFound(c: Config, disk: Disk, u: Owner)
    requires c.Accepted() && Formatted(c, disk, u)
    ensures LoadedMap(disk, c.BlockSize(), 1, 1) == Unpack(BlockOf(disk, c.BlockSize(), 1))
    ensures LoadedMap(disk, c.BlockSize(), 2, 1) == Unpack(BlockOf(disk, c.BlockSize(), 2))
  {
    OneBlockMap(disk, c.BlockSize(), 1);
    OneBlockMap(disk, c.BlockSize(), 2);
  }

  lemma {:induction false} OneBlockMap(disk: Disk, size: nat, start: nat)
    requires size > 0
    ensures LoadedMap(disk, size, start, 1) == Unpack(BlockOf(disk, size, start))[0 := true]
    ensures Unpack(BlockOf(disk, size, start))[0] ==>
              LoadedMap(disk, size, start, 1) == Unpack(BlockOf(disk, size, start))
  {
    var bits := Unpack(BlockOf(disk, size, start));
    assert LoadedBlocks(disk, size, start, 1) == [bits[0 := true]];
    MapBlocks.FlatSingle(bits[0 := true]);
    assert bits[0] ==> bits[0 := true] == bits;
  }

  lemma {:induction false} FormattedMountable(c: Config)
    requires c.Accepted()
    ensures FileStore.Mountable(Mounted(c, 1), {1})
  {
    FormattedGeometry(c);
  }

  /** The volume right after mounting a formatted device. */
  function MountedVolume(c: Config, disk: Disk): (r: FileStore.State)
    requires c.Accepted()
    ensures FileStore.Shaped(Mounted(c, 1), r)
  {
    FormattedMountable(c);
    FileStore.LoadedState(Mounted(c, 1), disk, {1})
  }

  /** It has one inode, the root as it was written. */
  lemma {:induction false} MountedRoot(c: Config, disk: Disk, u: Owner)
    requires c.Accepted() && Formatted(c, disk, u)
    ensures var s, i := MountedVolume(c, disk), RootInode(c.RootBlock(), u);
            && s.ptrs == map[1 := i.zones] && s.attrs == map[1 := FileStore.FieldsOf(i)]
            && s.bits == Unpack(BlockOf(disk, c.BlockSize(), 1))
            && s.inodeBits == Unpack(BlockOf(disk, c.BlockSize(), 2))
  {
    FormattedMountable(c);
    FormattedGeometry(c);
    RootIsFound(c, disk, u);
    MapIsFound(c, disk, u);
    FoundOne(Mounted(c, 1), disk, 1, RootInode(c.RootBlock(), u));
    OneInode(1, RootInode(c.RootBlock(), u));
  }

  lemma {:induction false} OneInode(n: nat, i: Inode)
    requires i.WellTyped()
    ensures FileStore.ZonesIn(map[n := i]) == map[n := i.zones]
    ensures FileStore.FieldsIn(map[n := i]) == map[n := FileStore.FieldsOf(i)]
  {
    SameMap(FileStore.ZonesIn(map[n := i]), map[n := i.zones]);
    SameMap(FileStore.FieldsIn(map[n := i]), map[n := FileStore.FieldsOf(i)]);
  }

  /** The root in memory, field by field. */
  lemma {:induction false} RootInMemory(c: Config, disk: Disk, u: Owner)
    requires c.Accepted() && Formatted(c, disk, u)
    ensures var s := MountedVolume(c, disk);
            && s.ptrs == map[1 := [c.RootBlock(), 0, 0, 0, 0, 0, 0, 0, 0]] && 1 in s.attrs
            && s.attrs[1].uid == u.uid && s.attrs[1].gid == u.gid && s.attrs[1].mode == 0x41ED
            && s.attrs[1].size == 128 && s.attrs[1].blocks == 1 && s.attrs[1].ctime == u.now
  {
    MountedRoot(c, disk, u);
    FileStore.FieldsAre(RootInode(c.RootBlock(), u));
  }

  lemma {:induction false} FoundOne(sb: Super, disk: Disk, n: nat, i: Inode)
    requires Housed(sb, sb.BlockSize(), n) && InodeGet(sb, disk, sb.BlockSize(), n) == Some(i)
    ensures FileStore.Found(sb, disk, {n}) == map[n := i]
  {
    SameMap(FileStore.Found(sb, disk, {n}), map[n := i]);
  }

  // ---------------------------------------------------------------- the block size before it is set

  /** The first three blocks of the device, read with blocks of `initial` bytes. */
  function FirstBlocks(disk: Disk, size: nat, initial: nat): (r: Disk)
    requires size > 0
  {
    map[0 := BlockAt(disk, size, initial, 0), 1 := BlockAt(disk, size, initial, 1),
        2 := BlockAt(disk, size, initial, 2)]
  }

  /** The superblock is the same for every block size that holds it. */
  lemma {:induction false} SuperIsReadAnyway(c: Config, disk: Disk, u: Owner, initial: nat)
    requires c.Accepted() && Formatted(c, disk, u) && initial >= 28
    ensures DecodeSuper(BlockAt(disk, c.BlockSize(), initial, 0), 0) == Mounted(c, 1)
  {
    var size := c.BlockSize();
    var image, other := BlockOf(disk, size, 0), BlockAt(disk, size, initial, 0);
    forall k: nat | k < 28
      ensures other[k] == image[k]
    {
      DivModUnique(k, size, 0, k);
      assert other[k] == ByteAt(disk, size, 0 * initial + k);
    }
    forall k: nat | k < 7
      ensures SuperWord(other, k) == SuperWord(image, k)
    {
      assert other[4 * k..4 * k + 4] == image[4 * k..4 * k + 4];
    }
    MountReadsFormat(c, 1, other);
  }

  /** What is read for one of the two maps. */
  lemma {:induction false} MapReadEarly(disk: Disk, size: nat, initial: nat, b: nat)
    requires size > 0 && initial > 0 && 1 <= b <= 2
    ensures LoadedMap(FirstBlocks(disk, size, initial), initial, b, 1) ==
            Unpack(BlockAt(disk, size, initial, b))[0 := true]
  {
    assert BlockOf(FirstBlocks(disk, size, initial), initial, b) == BlockAt(disk, size, initial, b);
    OneBlockMap(FirstBlocks(disk, size, initial), initial, b);
  }

  /** The superblock and the maps, read before the block size is set. */
  method ReadEarly(c: Config, disk: Disk, u: Owner, initial: nat)
    returns (sb: Super, zones: KernelBitmap.BlockMap, inodes: KernelBitmap.BlockMap)
    requires c.Accepted() && Formatted(c, disk, u) && initial >= 28
    ensures sb == Mounted(c, 1) && FileVolume.CleanMaps(zones, inodes)
    ensures zones.blockSize == inodes.blockSize == initial && |zones.blocks| == |inodes.blocks| == 1
    ensures zones.Flat() == Unpack(BlockAt(disk, c.BlockSize(), initial, 1))[0 := true]
    ensures inodes.Flat() == Unpack(BlockAt(disk, c.BlockSize(), initial, 2))[0 := true]
  {
    var early := FirstBlocks(disk, c.BlockSize(), initial);
    var kernel := new SuperBlock();
    kernel.Fill(early[0]);
    SuperIsReadAnyway(c, disk, u, initial);
    sb := kernel.View();
    MapReadEarly(disk, c.BlockSize(), initial, 1);
    MapReadEarly(disk, c.BlockSize(), initial, 2);
    zones := FileVolume.ReadMap(early, initial, 1, sb.zoneMapBlocks);
    inodes := FileVolume.ReadMap(early, initial, 1 + sb.zoneMapBlocks, sb.inodeMapBlocks);
  }

  /**
   The kernel's mount of the formatter's bytes. `initial` is the block size of the device before the mount
   sets it, with which the superblock and the maps are read: the superblock is the formatted one in any case,
   the maps are whatever lies at the addresses that this block size gives. Only with the formatted
   block size are they buffers of the volume.
   */
  method MountFormatted(c: Config, disk: Disk, u: Owner, initial: nat)
    returns (sb: Super, zones: KernelBitmap.BlockMap, inodes: KernelBitmap.BlockMap, v: Option<FileVolume.Volume>)
    requires c.Accepted() && Formatted(c, disk, u) && initial >= 28
    ensures sb == Mounted(c, 1) && zones.Valid() && inodes.Valid()
    ensures zones.Flat() == Unpack(BlockAt(disk, c.BlockSize(), initial, 1))[0 := true]
    ensures inodes.Flat() == Unpack(BlockAt(disk, c.BlockSize(), initial, 2))[0 := true]
    ensures v.Some? <==> initial == c.BlockSize()
    ensures v.Some? ==> v.value.Valid() && v.value.sb == sb && v.value.Model() == MountedVolume(c, disk)
  {
    sb, zones, inodes := ReadEarly(c, disk, u, initial);
    FormattedMountable(c);
    FormattedGeometry(c);
    v := None;
    if initial == sb.BlockSize() {
      OneBlockMap(disk, initial, 1);
      OneBlockMap(disk, initial, 2);
      SameBlock(disk, initial, 1);
      SameBlock(disk, initial, 2);
      var volume := FileVolume.MountWith(sb, disk, {sb.rootInode}, zones, inodes);
      v := Some(volume);
    }
  }

  /** Byte `a` of a device whose blocks have `size` bytes. */
  function ByteAt(disk: Disk, size: nat, a: nat): (r: Byte)
    requires size > 0
  {
    BlockOf(disk, size, a / size)[a % size]
  }

  /** The `n` bytes from address `a` on. */
  function BytesAt(disk: Disk, size: nat, a: nat, n: nat): (r: seq<Byte>)
    requires size > 0
    ensures |r| == n && forall k: nat :: k < n ==> r[k] == ByteAt(disk, size, a + k)
  {
    if n == 0 then [] else BytesAt(disk, size, a, n - 1) + [ByteAt(disk, size, a + n - 1)]
  }

  /** Block `b` of the same device read with blocks of `initial` bytes. */
  function BlockAt(disk: Disk, size: nat, initial: nat, b: nat): (r: seq<Byte>)
    requires size > 0
    ensures |r| == initial
  {
    BytesAt(disk, size, b * initial, initial)
  }

  /**
   The maps are read before the block size is set. What is read for a map block is the formatted block, on
   every device, exactly when the block size found is already the right one; otherwise even its first byte can differ.
   */
  lemma {:induction false} MapBlockIsReadWhen(size: nat, initial: nat, b: nat)
    requires size > 0 && initial > 0 && b > 0
    ensures (forall disk: Disk :: BlockAt(disk, size, initial, b) == BlockOf(disk, size, b)) <==> initial == size
    ensures initial != size ==> exists disk: Disk :: BlockAt(disk, size, initial, b)[0] != BlockOf(disk, size, b)[0]
  {
    if initial == size {
      forall disk: Disk
        ensures BlockAt(disk, size, initial, b) == BlockOf(disk, size, b)
      {
        SameBlock(disk, size, b);
      }
    } else {
      var disk: Disk := map[b := [255] + Zeros(size - 1)];
      OtherAddress(disk, size, initial, b);
      assert BlockAt(disk, size, initial, b)[0] != BlockOf(disk, size, b)[0];
    }
  }

  lemma {:induction false} SameBlock(disk: Disk, size: nat, b: nat)
    requires size > 0
    ensures BlockAt(disk, size, size, b) == BlockOf(disk, size, b)
  {
    forall k: nat | k < size
      ensures BlockAt(disk, size, size, b)[k] == BlockOf(disk, size, b)[k]
    {
      DivModUnique(b * size + k, size, b, k);
    }
  }

  /** With another block size the first byte comes from another address. */
  lemma {:induction false} OtherAddress(disk: Disk, size: nat, initial: nat, b: nat)
    requires size > 0 && initial > 0 && b > 0 && initial != size && disk == map[b := [255] + Zeros(size - 1)]
    ensures BlockAt(disk, size, initial, b)[0] == 0 && BlockOf(disk, size, b)[0] == 255
  {
    var a := b * initial;
    AddressDiffers(size, initial, b);
    assert BlockAt(disk, size, initial, b)[0] == ByteAt(disk, size, a + 0);
  }

  lemma {:induction false} AddressDiffers(size: nat, initial: nat, b: nat)
    requires size > 0 && b > 0 && initial != size
    ensures b * initial / size != b || b * initial % size != 0
  {
    var a := b * initial;
    assert a == a / size * size + a % size;
    if initial < size {
      MulMonotone(initial + 1, size, b);
    } else {
      MulMonotone(size + 1, initial, b);
    }
    assert (initial + 1) * b == b * initial + b && (size + 1) * b == b * size + b;
  }

  // ---------------------------------------------------------------- the first state is good

  lemma {:induction false} FormattedExact(c: Config, bits: seq<bool>)
    requires c.Accepted() && BlockNumbersFit(c) && Shape(bits, 2, c.NumZones())
    ensures Mounted(c, 1).Valid() && FileStore.Exact(Mounted(c, 1), bits)
  {
    AcceptedSizes(c);
    ZoneNumberExactWhen(Mounted(c, 1), c.NumZones());
  }

  lemma {:induction false} FormattedInv(c: Config, disk: Disk, u: Owner)
    requires c.Accepted() && BlockNumbersFit(c) && Formatted(c, disk, u)
    ensures Mounted(c, 1).Valid() && FileStore.Inv(Mounted(c, 1), c.RootBlock(), MountedVolume(c, disk))
  {
    FormattedGeometry(c);
    MountedRoot(c, disk, u);
    FormattedExact(c, MountedVolume(c, disk).bits);
    RootInv(Mounted(c, 1), c.RootBlock(), MountedVolume(c, disk), c.NumZones());
  }

  /** The invariant when there is nothing but the root. */
  lemma {:induction false} RootInv(sb: Super, root: nat, s: FileStore.State, hi: nat)
    requires sb.Valid() && FileStore.RootApart(sb, root) && Shape(s.bits, 2, hi) && FileStore.Exact(sb, s.bits)
    requires s.ptrs == map[1 := [root, 0, 0, 0, 0, 0, 0, 0, 0]]
    ensures FileStore.Inv(sb, root, s)
  {
    assert s.bits[0] && s.bits[1];
    forall n: nat, i: nat | FileStore.Owns(s.ptrs, n, i)
      ensures n == 1 && i == 0 && s.ptrs[n][i] == root
    {
    }
  }

  lemma {:induction false} FormattedNumbers(c: Config, disk: Disk, u: Owner)
    requires c.Accepted() && Formatted(c, disk, u)
    ensures FileRuns.NumbersTaken(MountedVolume(c, disk))
  {
    MountedRoot(c, disk, u);
    RootNumber(MountedVolume(c, disk), c.NumInodes(), RootInode(c.RootBlock(), u).zones);
  }

  lemma {:induction false} RootNumber(s: FileStore.State, hi: nat, zones: seq<int>)
    requires Shape(s.inodeBits, 2, hi) && s.ptrs == map[1 := zones]
    ensures FileRuns.NumbersTaken(s)
  {
    assert s.inodeBits[0] && s.inodeBits[1];
  }

  lemma {:induction false} FormattedSuper(c: Config, disk: Disk, u: Owner, held: bool)
    requires c.Accepted() && Formatted(c, disk, u)
    ensures Persistence.SuperKept(Mounted(c, 1), MountedVolume(c, disk), held)
  {
    FormattedMountable(c);
    FormattedGeometry(c);
    MountReadsFormat(c, 1, BlockOf(disk, c.BlockSize(), 0));
  }

  /** The kernel's invariant holds at the first mount of a device formatted by a user with a 16-bit id. */
  lemma {:induction false} FormattedVolumeIsGood(c: Config, disk: Disk, u: Owner)
    requires c.Accepted() && BlockNumbersFit(c) && Formatted(c, disk, u) && u.uid < 0x1_0000 && u.gid < 0x1_0000
    ensures FileRuns.Good(Mounted(c, 1), c.RootBlock(), MountedVolume(c, disk))
  {
    FormattedGeometry(c);
    FormattedMountable(c);
    FormattedInv(c, disk, u);
    FormattedNumbers(c, disk, u);
    Persistence.LoadedIsKept(Mounted(c, 1), disk, {1});
    FormattedSuper(c, disk, u, true);
    FormattedSuper(c, disk, u, false);
    FormattedFits(c, disk, u);
  }

  lemma {:induction false} FormattedFits(c: Config, disk: Disk, u: Owner)
    requires c.Accepted() && Formatted(c, disk, u) && u.uid < 0x1_0000 && u.gid < 0x1_0000
    ensures Persistence.AllFit(MountedVolume(c, disk))
  {
    RootBlockFits(c);
    MountedRoot(c, disk, u);
    RootFits(MountedVolume(c, disk), c.RootBlock(), u);
  }

  lemma {:induction false} RootFits(s: FileStore.State, block: nat, u: Owner)
    requires block < TWO_32 && u.uid < 0x1_0000 && u.gid < 0x1_0000
    requires s.ptrs == map[1 := RootInode(block, u).zones]
    requires s.attrs == map[1 := FileStore.FieldsOf(RootInode(block, u))]
    ensures FileStore.NinePointers(s.ptrs) && s.attrs.Keys == s.ptrs.Keys && Persistence.AllFit(s)
  {
    assert FileStore.NinePointers(s.ptrs);
    assert FileStore.Whole(s, 1) == RootInode(block, u);
  }

  // ---------------------------------------------------------------- end to end

  /** The zones a run uses, beyond the one that the root directory has, fit those that the formatter left free. */
  predicate FitsDevice(c: Config, disk: Disk, ops: seq<FileStore.Op>)
    requires c.Accepted()
  {
    |FileCapacity.Needs(Mounted(c, 1), MountedVolume(c, disk), ops, |ops|) - {(1, 0)}| <= c.NumZones() - 2
  }

  /** A run on a freshly formatted and mounted device. */
  ghost predicate FormattedRun(c: Config, disk: Disk, u: Owner, ss: seq<FileStore.State>, ops: seq<FileStore.Op>)
    requires c.Accepted()
  {
    && BlockNumbersFit(c) && Formatted(c, disk, u) && u.uid < 0x1_0000 && u.gid < 0x1_0000
    && FileStore.IsRun(Mounted(c, 1), ss, ops) && ss[0] == MountedVolume(c, disk)
  }

  lemma {:induction false} RootOwns(block: nat)
    requires block > 0
    ensures var ptrs: map<nat, seq<int>> := map[1 := [block, 0, 0, 0, 0, 0, 0, 0, 0]];
            ptrs.Keys == {1} && FileStore.NinePointers(ptrs) && Conservation.Owned(ptrs) == {(1, 0)}
  {
    var ptrs: map<nat, seq<int>> := map[1 := [block, 0, 0, 0, 0, 0, 0, 0, 0]];
    assert FileStore.NinePointers(ptrs);
    forall n: nat, i: nat
      ensures FileStore.Owns(ptrs, n, i) <==> (n, i) == (1, 0)
    {
    }
  }

  lemma {:induction false} ShapeCount(bits: seq<bool>, hi: nat)
    requires Shape(bits, 2, hi) && 2 <= hi
    ensures |Conservation.SetBits(bits)| == 2 + (|bits| - hi)
  {
    FileCapacity.SetOrFree(bits);
    FileCapacity.FreeInShape(bits, 2, hi);
  }

  /** The accounts from a state with one zone besides the shape of its map. */
  lemma {:induction false} ExactAccounts(sb: Super, root: nat, s: FileStore.State, t: FileStore.State, hi: nat)
    requires sb.Valid() && FileStore.NinePointers(s.ptrs) && FileStore.Inv(sb, root, t)
    requires Conservation.Conserves(sb, s, t)
    requires 2 <= hi && Shape(s.bits, 2, hi) && |Conservation.Owned(s.ptrs)| == 1
    ensures |Conservation.SetBits(t.bits)| == 1 + (|t.bits| - hi) + |Conservation.Owned(t.ptrs)|
    ensures forall j: nat {:trigger Conservation.HasOwner(sb, t.ptrs, j)} :: j < |t.bits| ==>
              (t.bits[j] <==> j < 2 || j >= hi || Conservation.HasOwner(sb, t.ptrs, j))
  {
    Conservation.BitsAreOwned(sb, root, s, t, 2, hi);
    ShapeCount(s.bits, hi);
  }

  /**
   The bits set are the first two, the reserved tail, and those of the zones that a pointer holds, no others;
   there is one per pointer besides bit 0 and the tail; and the root has its zone.
   */
  ghost predicate Accounted(sb: Super, root: nat, t: FileStore.State, hi: nat) {
    && FileStore.Shaped(sb, t) && FileStore.Loc(sb, t, 1, 0) == Some(root)
    && |Conservation.SetBits(t.bits)| == 1 + (|t.bits| - hi) + |Conservation.Owned(t.ptrs)|
    && forall j: nat {:trigger Conservation.HasOwner(sb, t.ptrs, j)} :: j < |t.bits| ==>
         (t.bits[j] <==> j < 2 || j >= hi || Conservation.HasOwner(sb, t.ptrs, j))
  }

  /** A volume on which the root has the only zone. */
  ghost predicate OneZone(sb: Super, root: nat, s: FileStore.State, hi: nat)
    requires sb.Valid()
  {
    && FileStore.Inv(sb, root, s) && 2 <= hi && Shape(s.bits, 2, hi) && |Conservation.Owned(s.ptrs)| == 1
    && 0 < root && 1 in s.ptrs && s.ptrs[1] == [root, 0, 0, 0, 0, 0, 0, 0, 0]
  }

  lemma {:induction false} AccountsOfRun(sb: Super, root: nat, ss: seq<FileStore.State>, ops: seq<FileStore.Op>, n: nat,
                                         hi: nat)
    requires FileStore.IsRun(sb, ss, ops) && FileStore.Geometry(sb) && n <= |ops| && OneZone(sb, root, ss[0], hi)
    requires forall i: nat {:trigger Conservation.RestoringAt(sb, ss, ops, i)} :: i < n ==>
               Conservation.RestoringAt(sb, ss, ops, i)
    ensures Accounted(sb, root, ss[n], hi)
  {
    FileStore.StateIsShaped(sb, ss, ops, n);
    Conservation.ZonesAreConserved(sb, root, ss, ops, n);
    ExactAccounts(sb, root, ss[0], ss[n], hi);
    FirstBlockStays(sb, root, ss[0], ss[n]);
  }

  lemma {:induction false} FirstBlockStays(sb: Super, root: nat, s0: FileStore.State, s: FileStore.State)
    requires sb.Valid() && FileStore.NinePointers(s0.ptrs) && FileStore.NinePointers(s.ptrs)
    requires FileStore.Extends(s0, s) && 0 < root && 1 in s0.ptrs && s0.ptrs[1] == [root, 0, 0, 0, 0, 0, 0, 0, 0]
    ensures FileStore.Loc(sb, s, 1, 0) == Some(root)
  {
    DivModUnique(0, sb.blocksPerZone, 0, 0);
    assert s0.ptrs[1][0] == root != 0;
    assert s.ptrs[1][0] == root;
  }

  lemma {:induction false} FormattedOwns(c: Config, disk: Disk, u: Owner)
    requires c.Accepted() && BlockNumbersFit(c) && Formatted(c, disk, u)
    ensures FileStore.Geometry(Mounted(c, 1))
    ensures OneZone(Mounted(c, 1), c.RootBlock(), MountedVolume(c, disk), c.NumZones())
  {
    FormattedGeometry(c);
    FormattedInv(c, disk, u);
    MountedRoot(c, disk, u);
    RootBlockFits(c);
    RootOwns(c.RootBlock());
  }

  /**
   Exact accounts on a formatted device, after every run whose remounts meet an intact state: the bits set are
   bit 0, bit 1 of the root's zone, the reserved tail, and those of the zones that a pointer holds, no others;
   there is one per pointer besides bit 0 and the tail.
   */
  lemma {:induction false} FormattedZonesAreExact(c: Config, disk: Disk, u: Owner, ss: seq<FileStore.State>,
                                                  ops: seq<FileStore.Op>, n: nat)
    requires c.Accepted() && FormattedRun(c, disk, u, ss, ops) && n <= |ops|
    requires forall i: nat {:trigger Conservation.RestoringAt(Mounted(c, 1), ss, ops, i)} :: i < n ==>
               Conservation.RestoringAt(Mounted(c, 1), ss, ops, i)
    ensures Accounted(Mounted(c, 1), c.RootBlock(), ss[n], c.NumZones())
  {
    FormattedOwns(c, disk, u);
    AccountsOfRun(Mounted(c, 1), c.RootBlock(), ss, ops, n, c.NumZones());
  }

  /** On a freshly formatted device a run is covered exactly when it is addressable and the zones that it uses fit. */
  lemma {:induction false} FormattedCapacity(c: Config, disk: Disk, u: Owner, ss: seq<FileStore.State>,
                                             ops: seq<FileStore.Op>)
    requires c.Accepted() && FormattedRun(c, disk, u, ss, ops)
    ensures Mounted(c, 1).Valid() && FileStore.Geometry(Mounted(c, 1))
    ensures Refinement.RunCovered(Mounted(c, 1), ss, ops, |ops|) <==>
            FileCapacity.AllAddressable(Mounted(c, 1), ss[0], ops) && FitsDevice(c, disk, ops)
  {
    FormattedGeometry(c);
    FormattedVolumeIsGood(c, disk, u);
    FileCapacity.CoveredWhen(Mounted(c, 1), c.RootBlock(), ss, ops);
    MountedRoot(c, disk, u);
    FileCapacity.FreeInShape(ss[0].bits, 2, c.NumZones());
    RootBlockFits(c);
    RootOwns(c.RootBlock());
  }

  /**
   End to end, for files: on a freshly formatted and mounted device, every run of creations,
   changes, writes, reads, write-backs and remounts that is addressable and whose zones fit the device keeps
   files independent, answers every read with the last write to its own file block, leaves the
   metadata to the write-back and the root directory in its place.
   */
  lemma {:induction false} FormattedFilesAreIndependent(c: Config, disk: Disk, u: Owner, ss: seq<FileStore.State>,
                                                        ops: seq<FileStore.Op>)
    requires c.Accepted() && FormattedRun(c, disk, u, ss, ops)
    requires Mounted(c, 1).Valid() && FileStore.Geometry(Mounted(c, 1))
    requires FileCapacity.AllAddressable(Mounted(c, 1), ss[0], ops) && FitsDevice(c, disk, ops)
    ensures var sb, s, f0 := Mounted(c, 1), ss[|ops|], Refinement.FilesAt(ss[0]);
            && FileRuns.Good(sb, c.RootBlock(), s)
            && Refinement.Rel(sb, disk, s, Refinement.FilesRun(sb, f0, ops, |ops|))
            && (forall m: nat :: m < |ops| ==>
                  FileStore.Shaped(sb, ss[m]) && Refinement.AnsweredAt(sb, disk, ss, f0, ops, m, |ops|))
            && FileStore.Loc(sb, s, 1, 0) == Some(c.RootBlock())
  {
    FormattedVolumeIsGood(c, disk, u);
    FormattedCapacity(c, disk, u, ss, ops);
    MountedRoot(c, disk, u);
    Refinement.FilesAreIndependent(Mounted(c, 1), c.RootBlock(), ss, ops);
    RootStaysPut(c, ss[0], ss[|ops|]);
  }

  lemma {:induction false} RootStaysPut(c: Config, s0: FileStore.State, s: FileStore.State)
    requires c.Accepted() && Mounted(c, 1).Valid()
    requires FileStore.NinePointers(s0.ptrs) && FileStore.NinePointers(s.ptrs) && FileStore.Extends(s0, s)
    requires 1 in s0.ptrs && s0.ptrs[1] == [c.RootBlock(), 0, 0, 0, 0, 0, 0, 0, 0]
    ensures FileStore.Loc(Mounted(c, 1), s, 1, 0) == Some(c.RootBlock())
  {
    RootZoneIsApart(c, 2);
    FirstBlockStays(Mounted(c, 1), c.RootBlock(), s0, s);
  }

  /** The inode map as the mount reads it, from the block after the zone map. */
  function LoadedInodeMap(c: Config, disk: Disk): (r: seq<bool>)
    requires c.BlockSize() > 0
  {
    Unpack(BlockOf(disk, c.BlockSize(), 2))[0 := true]
  }

  /**
   End to end, for names: the kernel sees the dot entries in the root's block, whatever bytes follow
   the names, and every run from there keeps a tree rooted at inode 1.
   */
  lemma {:induction false} FormattedNamespaceIsATree(c: Config, disk: Disk, u: Owner, es: seq<DirectoryEntries.Entry>,
                                                     ops: seq<Namespace.Op>, n: nat)
    requires c.Accepted() && Formatted(c, disk, u) && n <= |ops|
    requires var block := BlockOf(disk, c.BlockSize(), c.RootBlock());
             DirectoryEntries.Represents([RootDirectory.SlotIn(block, 0), RootDirectory.SlotIn(block, 1)], es)
    ensures var s0 := Namespace.State(LoadedInodeMap(c, disk), map[1 := es], map[1 := 1]);
            Namespace.IsTree(Namespace.Run(s0, ops, n).state.dirs)
  {
    var dot := RootDirectory.DOT_NUMBER;
    RootDirectory.RootShowsDots(BlockOf(disk, c.BlockSize(), c.RootBlock()));
    assert es == DirectoryEntries.NewEntries(dot, dot);
    var bits := LoadedInodeMap(c, disk);
    assert bits == Unpack(BlockOf(disk, c.BlockSize(), 2));
    Formatter.MapSizes(c);
    Namespace.FormattedIsGood(bits, c.NumInodes(), dot);
    Namespace.NamespaceIsATree(Namespace.State(bits, map[1 := es], map[1 := 1]), ops, n, 2, c.NumInodes());
  }
}
