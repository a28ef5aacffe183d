/**
 Where things are on the device: the formatter's `Configuration` and the kernel's superblock
 compute the layout independently, and this module relates the two.
 */
module Layout {
  import opened Numbers
  import opened Endian

  const MAGIC: nat := 0x1313_1313
  const INODE_SIZE: nat := 64
  const POINTERS: nat := 9

  function Min(a: nat, b: nat): (r: nat) {
    if a <= b then a else b
  }

  function Pow2(k: nat): (r: nat)
    ensures r >= 1
  {
    if k == 0 then 1 else 2 * Pow2(k - 1)
  }

  ghost predicate IsPow2(n: nat) {
    exists k: nat :: n == Pow2(k)
  }

  /** The formatter's test. It also accepts 0, which the size check beside it then excludes. */
  method IsPowerOfTwo(zoneSize: nat) returns (r: bool)
    ensures r <==> zoneSize == 0 || IsPow2(zoneSize)
  {
    var n := zoneSize;
    ghost var halvings := 0;
    while n > 1
      invariant zoneSize == n * Pow2(halvings)
      invariant zoneSize == 0 <==> n == 0
    {
      if n % 2 == 1 {
        OddFactorIsNoPower(n, halvings);
        return false;
      }
      Halve(n, halvings);
      n := n / 2;
      halvings := halvings + 1;
    }
    assert n == 1 ==> zoneSize == Pow2(halvings);
    return true;
  }

  lemma Halve(n: nat, h: nat)
    requires n % 2 == 0
    ensures n * Pow2(h) == n / 2 * Pow2(h + 1)
  {
    var m := n / 2;
    assert m * (2 * Pow2(h)) == (m * 2) * Pow2(h);
  }

  lemma {:induction false} OddFactorIsNoPower(n: nat, h: nat)
    requires n > 1 && n % 2 == 1
    ensures !IsPow2(n * Pow2(h))
  {
    forall k: nat
      ensures n * Pow2(h) != Pow2(k)
    {
      OddTimesPower(n, h, k);
    }
  }

  lemma {:induction false} OddTimesPower(n: nat, h: nat, k: nat)
    requires n > 1 && n % 2 == 1
    ensures n * Pow2(h) != Pow2(k)
    decreases h
  {
    if h > 0 {
      assert n * Pow2(h) == 2 * (n * Pow2(h - 1));
      if k > 0 {
        OddTimesPower(n, h - 1, k - 1);
      }
    }
  }

  /** What the formatter was asked for. All fields are 32-bit unsigned integers. */
  datatype Config = Config(zoneSize: nat, zonesAsked: nat, inodeMapBlocks: nat, zoneMapBlocks: nat, alignment: nat) {

    function BlockSize(): (r: nat) {
      if zoneSize > 4096 then 4096 else zoneSize
    }

    function NumZones(): (r: nat) {
      Min(zoneMapBlocks * BlockSize() * 8, zonesAsked)
    }

    function BlocksPerZone(): (r: nat)
      requires zoneSize > 0
    {
      zoneSize / BlockSize()
    }

    function InodesInBlock(): (r: nat) {
      BlockSize() / INODE_SIZE
    }

    function InodeEntryBlocks(): (r: nat)
      requires zoneSize >= 64
    {
      CeilDiv(Min(NumZones(), inodeMapBlocks * BlockSize() * 8), InodesInBlock())
    }

    /** Number of inode numbers that the inode map leaves below its reserved tail. */
    function NumInodes(): (r: nat)
      requires zoneSize >= 64
    {
      Min(InodeEntryBlocks() * InodesInBlock(), inodeMapBlocks * BlockSize() * 8)
    }

    function MetaBlocks(): (r: nat)
      requires zoneSize >= 64
    {
      1 + inodeMapBlocks + zoneMapBlocks + InodeEntryBlocks()
    }

    /** First device block of the root directory's zone, as the formatter computes it. */
    function RootBlock(): (r: nat)
      requires zoneSize >= 64 && alignment > 0
    {
      BlocksPerZone() + RoundUp(MetaBlocks(), alignment)
    }

    function InodeBlock(ino: nat): (r: nat)
      requires zoneSize >= 64
    {
      ino / InodesInBlock() + 1 + inodeMapBlocks + zoneMapBlocks
    }

    function InodeOffset(ino: nat): (r: nat)
      requires zoneSize >= 64
    {
      ino % InodesInBlock() * INODE_SIZE
    }

    /** Everything that the formatter verifies before it writes, for the map counts that it is run with. */
    ghost predicate Accepted() {
      && 512 <= zoneSize < TWO_32 && IsPow2(zoneSize)
      && NumZones() > 3 && zonesAsked < TWO_32
      && inodeMapBlocks == zoneMapBlocks == 1
      && 0 < alignment < TWO_31
    }
  }

  /** The kernel's in-memory superblock. */
  datatype Super = Super(magic: nat, inodeBlocks: nat, zoneSize: nat, rootInode: nat, inodesInBlock: nat,
                         inodeMapBlocks: nat, zoneMapBlocks: nat, blocksPerZone: nat, alignment: nat) {

    predicate Valid() {
      alignment > 0 && inodesInBlock > 0 && blocksPerZone > 0
    }

    /** The block size that the mount code sets. */
    function BlockSize(): (r: nat) {
      if zoneSize > 4096 then 4096 else zoneSize
    }

    function InodeBlock(ino: nat): (r: nat)
      requires inodesInBlock > 0
    {
      1 + inodeMapBlocks + zoneMapBlocks + ino / inodesInBlock
    }

    function InodeOffset(ino: nat): (r: nat)
      requires inodesInBlock > 0
    {
      INODE_SIZE * (ino % inodesInBlock)
    }

    function MetaBlocks(): (r: nat) {
      1 + inodeMapBlocks + zoneMapBlocks + inodeBlocks
    }

    /** The base that the kernel adds to every zone. */
    function DataBase(): (r: nat)
      requires alignment > 0
    {
      RoundUp(MetaBlocks() + blocksPerZone, alignment)
    }

    /** First device block of zone `j`, before it is returned through an `int`. */
    function ZoneStart(j: nat): (r: nat)
      requires alignment > 0
    {
      j * blocksPerZone + DataBase()
    }
  }

  /** The seven big-endian words of the on-device superblock. */
  function SuperWord(image: seq<Byte>, k: nat): (r: nat)
    requires |image| >= 28 && k < 7
    ensures r < TWO_32
  {
    GetBe32(image[4 * k..4 * k + 4])
  }

  /**
   The kernel's reading of the superblock. `prior` is the zone size held before the call: the
   block size is derived from it, not from the zone size that is being loaded.
   */
  function DecodeSuper(image: seq<Byte>, prior: nat): (r: Super)
    requires |image| >= 28
  {
    var blockSize := if prior > 4096 then prior else 4096;
    var zoneSize := SuperWord(image, 1);
    Super(SuperWord(image, 0), SuperWord(image, 3), zoneSize, SuperWord(image, 2), blockSize / INODE_SIZE,
          SuperWord(image, 4), SuperWord(image, 5), if zoneSize > 4096 then zoneSize / 4096 else 1, SuperWord(image, 6))
  }

  /** The kernel object whose fields the mount code assigns one after the other. */
  class SuperBlock {
    var magic: nat
    var inodeBlocks: nat
    var zoneSize: nat
    var rootInode: nat
    var inodesInBlock: nat
    var inodeMapBlocks: nat
    var zoneMapBlocks: nat
    var blocksPerZone: nat
    var alignment: nat

    function View(): (r: Super)
      reads this
    {
      Super(magic, inodeBlocks, zoneSize, rootInode, inodesInBlock, inodeMapBlocks, zoneMapBlocks, blocksPerZone,
            alignment)
    }

    /** Freshly allocated memory is zero. */
    constructor ()
      ensures View() == Super(0, 0, 0, 0, 0, 0, 0, 0, 0)
    {
      magic, inodeBlocks, zoneSize, rootInode, inodesInBlock := 0, 0, 0, 0, 0;
      inodeMapBlocks, zoneMapBlocks, blocksPerZone, alignment := 0, 0, 0, 0;
    }

    method Fill(image: seq<Byte>)
      requires |image| >= 28
      modifies this
      ensures View() == DecodeSuper(image, old(zoneSize))
    {
      var blockSize := if zoneSize > 4096 then zoneSize else 4096;
      magic := SuperWord(image, 0);
      inodeBlocks := SuperWord(image, 3);
      zoneSize := SuperWord(image, 1);
      rootInode := SuperWord(image, 2);
      inodeMapBlocks := SuperWord(image, 4);
      zoneMapBlocks := SuperWord(image, 5);
      alignment := SuperWord(image, 6);
      blocksPerZone := if zoneSize > 4096 then zoneSize / 4096 else 1;
      inodesInBlock := blockSize / INODE_SIZE;
    }
  }

  /**
   The words that the formatter stores, root included. The zone-map word is filled from the
   inode-map count.
   */
  function FormatWords(c: Config, root: nat): (r: seq<int>)
    requires c.zoneSize >= 64
    ensures |r| == 7
  {
    [MAGIC, c.zoneSize, root, c.InodeEntryBlocks(), c.inodeMapBlocks, c.inodeMapBlocks, c.alignment]
  }

  predicate HoldsWords(image: seq<Byte>, words: seq<int>) {
    |image| >= 28 && |words| == 7 && forall k: nat :: k < 7 ==> SuperWord(image, k) == U32(words[k])
  }

  /** Writing the superblock: seven word stores, and nothing else in the block changes. */
  method FillSuper(image: array<Byte>, c: Config, root: nat)
    requires image.Length >= 28 && c.zoneSize >= 64
    modifies image
    ensures HoldsWords(image[..], FormatWords(c, root))
    ensures image[28..] == old(image[28..])
  {
    var words := FormatWords(c, root);
    var k := 0;
    while k < 7
      invariant k <= 7
      invariant forall m: nat :: m < k ==> SuperWord(image[..], m) == U32(words[m])
      invariant image[28..] == old(image[28..])
    {
      ghost var was := image[..];
      Copy(image, 4 * k, PutBe32(words[k]));
      Be32RoundTrip(words[k]);
      forall m: nat | m < k
        ensures SuperWord(image[..], m) == U32(words[m])
      {
        PatchElsewhere(was, 4 * k, PutBe32(words[k]), 4 * m, 4 * m + 4);
      }
      PatchElsewhere(was, 4 * k, PutBe32(words[k]), 28, |was|);
      k := k + 1;
    }
  }

  /** What the kernel holds after mounting a device that the formatter wrote. */
  function Mounted(c: Config, root: nat): (r: Super)
    requires c.zoneSize >= 64
  {
    Super(MAGIC, c.InodeEntryBlocks(), c.zoneSize, root, 64, c.inodeMapBlocks, c.inodeMapBlocks,
          if c.zoneSize > 4096 then c.zoneSize / 4096 else 1, c.alignment)
  }

  /** A first mount of a formatted device reads back the configuration. */
  lemma MountReadsFormat(c: Config, root: nat, image: seq<Byte>)
    requires c.Accepted() && root < TWO_32 && HoldsWords(image, FormatWords(c, root))
    ensures DecodeSuper(image, 0) == Mounted(c, root)
  {
    EntryBlocksSmall(c);
    var w := FormatWords(c, root);
    assert forall k: nat :: k < 7 ==> SuperWord(image, k) == U32(w[k]) == w[k];
  }

  /** Where the formatter puts each word of the superblock. */
  lemma {:induction false} FormattedWordsAre(c: Config, root: nat, image: seq<Byte>)
    requires c.Accepted() && root < TWO_32 && HoldsWords(image, FormatWords(c, root))
    ensures GetBe32(image[0..4]) == 0x1313_1313 && GetBe32(image[4..8]) == c.zoneSize
    ensures GetBe32(image[8..12]) == root && GetBe32(image[12..16]) == c.InodeEntryBlocks()
    ensures GetBe32(image[16..20]) == GetBe32(image[20..24]) == 1 && GetBe32(image[24..28]) == c.alignment
  {
    EntryBlocksSmall(c);
    var w := FormatWords(c, root);
    assert SuperWord(image, 0) == U32(w[0]) && SuperWord(image, 1) == U32(w[1]) && SuperWord(image, 2) == U32(w[2]);
    assert SuperWord(image, 3) == U32(w[3]) && SuperWord(image, 4) == U32(w[4]);
    assert SuperWord(image, 5) == U32(w[5]) && SuperWord(image, 6) == U32(w[6]);
  }

  /** Where the kernel takes each field of the superblock from, and what it computes from the zone size. */
  lemma {:induction false} SuperFieldsAre(image: seq<Byte>)
    requires |image| >= 28
    ensures var sb := DecodeSuper(image, 0);
            && sb.magic == GetBe32(image[0..4]) && sb.zoneSize == GetBe32(image[4..8])
            && sb.rootInode == GetBe32(image[8..12]) && sb.inodeBlocks == GetBe32(image[12..16])
            && sb.inodeMapBlocks == GetBe32(image[16..20]) && sb.zoneMapBlocks == GetBe32(image[20..24])
            && sb.alignment == GetBe32(image[24..28]) && sb.inodesInBlock == 64
            && sb.blocksPerZone == (if sb.zoneSize > 4096 then sb.zoneSize / 4096 else 1)
            && sb.BlockSize() == (if sb.zoneSize > 4096 then 4096 else sb.zoneSize)
  {
  }

  lemma {:induction false} EntryBlocksSmall(c: Config)
    requires c.Accepted()
    ensures 1 <= c.InodeEntryBlocks() <= 4096
  {
    var m := Min(c.NumZones(), c.BlockSize() * 8);
    CeilDivBounds(m, c.InodesInBlock(), 4096);
  }

  lemma {:induction false} CeilDivBounds(m: nat, d: nat, bound: nat)
    requires 0 < m <= 8 * bound && 8 <= d
    ensures 1 <= CeilDiv(m, d) <= bound
  {
    var q := CeilDiv(m, d);
    assert m + d - 1 == q * d + (m + d - 1) % d;
    assert (bound + 1) * d == d * bound + d;
    MulMonotone(8, d, bound);
    if q > bound {
      MulMonotone(bound + 1, q, d);
    }
  }

  /**
   From the words on the device the kernel learns the true zone-map size, and the true extent of the
   metadata, exactly when the two maps have the same size.
   */
  lemma {:induction false} ZoneMapWordAgreesWhen(c: Config, root: nat, image: seq<Byte>)
    requires c.zoneSize >= 64 && HoldsWords(image, FormatWords(c, root))
    requires c.inodeMapBlocks < TWO_32 && c.zoneMapBlocks < TWO_32 && c.InodeEntryBlocks() < TWO_32
    ensures DecodeSuper(image, 0).zoneMapBlocks == c.zoneMapBlocks <==> c.inodeMapBlocks == c.zoneMapBlocks
    ensures DecodeSuper(image, 0).MetaBlocks() == c.MetaBlocks() <==> c.inodeMapBlocks == c.zoneMapBlocks
  {
    var w := FormatWords(c, root);
    assert SuperWord(image, 3) == U32(w[3]) && SuperWord(image, 4) == U32(w[4]) && SuperWord(image, 5) == U32(w[5]);
  }

  lemma SmallPowers()
    ensures Pow2(8) == 256 && Pow2(9) == 512 && Pow2(10) == 1024 && Pow2(11) == 2048 && Pow2(12) == 4096
  {
    assert Pow2(2) == 4;
    assert Pow2(4) == 16;
    assert Pow2(6) == 64;
    assert Pow2(8) == 256;
    assert Pow2(10) == 1024;
  }

  /** Zone sizes that pass the test: three small ones, and the multiples of 4096. */
  lemma {:induction false} PowerSizes(n: nat, k: nat)
    requires n == Pow2(k) && n >= 512
    ensures n < 4096 ==> n == 512 || n == 1024 || n == 2048
    ensures n >= 4096 ==> n % 4096 == 0 && n / 4096 >= 1
  {
    SmallPowers();
    if k < 9 {
      Pow2Monotone(k, 8);
    } else if k >= 12 {
      PowerSplit(k - 12);
      DivModUnique(n, 4096, Pow2(k - 12), 0);
    }
  }

  lemma {:induction false} Pow2Monotone(a: nat, b: nat)
    requires a <= b
    ensures Pow2(a) <= Pow2(b)
    decreases b - a
  {
    if a < b {
      Pow2Monotone(a, b - 1);
    }
  }

  lemma {:induction false} PowerSplit(m: nat)
    ensures Pow2(m + 12) == 4096 * Pow2(m)
  {
    if m == 0 {
      SmallPowers();
    } else {
      PowerSplit(m - 1);
      assert Pow2(m + 12) == 2 * Pow2(m + 11);
    }
  }

  lemma AcceptedSizes(c: Config)
    requires c.Accepted()
    ensures c.zoneSize < 4096 ==> c.zoneSize == 512 || c.zoneSize == 1024 || c.zoneSize == 2048
    ensures c.zoneSize >= 4096 ==> c.zoneSize % 4096 == 0 && c.zoneSize / 4096 >= 1
    ensures Mounted(c, 1).blocksPerZone == c.BlocksPerZone() >= 1
    ensures c.InodesInBlock() >= 8 && c.InodesInBlock() * INODE_SIZE == c.BlockSize()
  {
    var k: nat :| c.zoneSize == Pow2(k);
    PowerSizes(c.zoneSize, k);
  }

  /**
   Formatter and kernel put an inode at the same block and offset exactly when the zone size is
   at least 4096 or the number lies in the first inode block.
   */
  lemma InodeAddressAgreesWhen(c: Config, ino: nat)
    requires c.Accepted()
    ensures (&& Mounted(c, 1).InodeBlock(ino) == c.InodeBlock(ino)
             && Mounted(c, 1).InodeOffset(ino) == c.InodeOffset(ino))
            <==> c.zoneSize >= 4096 || ino < c.zoneSize / INODE_SIZE
  {
    AcceptedSizes(c);
    var d := c.InodesInBlock();
    if c.zoneSize < 4096 {
      assert ino == ino / d * d + ino % d;
      assert ino == ino / 64 * 64 + ino % 64;
      if ino / d == ino / 64 && ino % d == ino % 64 {
        assert ino / 64 * 64 == ino / 64 * d;
        assert ino / 64 == 0;
      }
      if ino < d {
        DivModUnique(ino, d, 0, ino);
      }
    }
  }

  /** The byte range `[start, start + 64)` of an inode on the device, counted from block 0. */
  function SlotStart(sb: Super, ino: nat): (r: nat)
    requires sb.inodesInBlock > 0
  {
    4096 * sb.InodeBlock(ino) + sb.InodeOffset(ino)
  }

  /**
   For zone sizes of at least 4096: every number that the inode map leaves free has its slot inside
   the inode table and inside one block, and the slots of different numbers never overlap.
   */
  lemma InodeSlotsAreDisjoint(c: Config, a: nat, b: nat)
    requires c.Accepted() && c.zoneSize >= 4096
    requires a < c.NumInodes() && b < c.NumInodes() && a != b
    ensures var sb := Mounted(c, 1);
            && 1 + sb.inodeMapBlocks + sb.zoneMapBlocks <= sb.InodeBlock(a) < sb.MetaBlocks()
            && sb.InodeOffset(a) + INODE_SIZE <= 4096
            && (SlotStart(sb, a) + INODE_SIZE <= SlotStart(sb, b) || SlotStart(sb, b) + INODE_SIZE <= SlotStart(sb, a))
  {
    AcceptedSizes(c);
    var n := c.InodeEntryBlocks();
    assert a == a / 64 * 64 + a % 64 && b == b / 64 * 64 + b % 64;
    assert a < n * 64;
    assert a / 64 < n;
  }

  /**
   The root zone that the formatter writes lies above all metadata and below every zone that the
   kernel can hand out (zones 0 and 1 are never free), although the two bases may differ.
   */
  lemma RootZoneIsApart(c: Config, j: nat)
    requires c.Accepted() && j >= 2
    ensures var sb := Mounted(c, 1);
            && sb.MetaBlocks() == c.MetaBlocks() && c.MetaBlocks() + sb.blocksPerZone <= c.RootBlock()
            && c.RootBlock() + sb.blocksPerZone <= sb.ZoneStart(j)
  {
    AcceptedSizes(c);
    var sb := Mounted(c, 1);
    RoundUpIsLeastMultiple(c.MetaBlocks(), c.alignment);
    RoundUpMonotone(c.MetaBlocks(), c.MetaBlocks() + sb.blocksPerZone, c.alignment);
    MulMonotone(2, j, sb.blocksPerZone);
  }

  /** Formatter and kernel agree on where zone 1 is exactly when the extra zone does not cross an alignment boundary. */
  lemma RootZoneIsKernelZoneOneWhen(c: Config)
    requires c.Accepted()
    ensures Mounted(c, 1).ZoneStart(1) == c.RootBlock() <==>
            c.MetaBlocks() + c.BlocksPerZone() <= RoundUp(c.MetaBlocks(), c.alignment)
  {
    AcceptedSizes(c);
    var m, z, a := c.MetaBlocks(), c.BlocksPerZone(), c.alignment;
    RoundUpIsLeastMultiple(m, a);
    RoundUpIsLeastMultiple(m + z, a);
    if m + z <= RoundUp(m, a) {
      assert m + z <= CeilDiv(m, a) * a;
      RoundUpMonotone(m, m + z, a);
    }
  }

  /** Different zones are disjoint runs of blocks, in the order of their numbers. */
  lemma ZonesAreDisjoint(sb: Super, i: nat, j: nat)
    requires sb.Valid() && i < j
    ensures sb.ZoneStart(i) + sb.blocksPerZone <= sb.ZoneStart(j)
  {
    MulMonotone(i + 1, j, sb.blocksPerZone);
    assert (i + 1) * sb.blocksPerZone == i * sb.blocksPerZone + sb.blocksPerZone;
  }

  lemma ZonesAboveMetadata(sb: Super, j: nat)
    requires sb.Valid()
    ensures sb.MetaBlocks() + sb.blocksPerZone <= sb.DataBase() <= sb.ZoneStart(j)
  {
    RoundUpIsLeastMultiple(sb.MetaBlocks() + sb.blocksPerZone, sb.alignment);
    MulMonotone(0, j, sb.blocksPerZone);
  }

  /** Bytes that the formatter's own check asks of the device: a 32-bit product, without the metadata. */
  function CheckedBytes(c: Config): (r: nat) {
    U32(c.NumZones() * c.zoneSize)
  }

  predicate ZoneOnDevice(sb: Super, j: nat, deviceBlocks: nat)
    requires sb.Valid()
  {
    sb.ZoneStart(j) + sb.blocksPerZone <= deviceBlocks
  }

  /** Every zone below `n` lies on the device exactly when there is room for `n` zones and the base. */
  lemma {:induction false} ZonesFitWhen(sb: Super, n: nat, deviceBlocks: nat)
    requires sb.Valid() && n > 0
    ensures (forall j: nat :: j < n ==> ZoneOnDevice(sb, j, deviceBlocks)) <==>
            n * sb.blocksPerZone + sb.DataBase() <= deviceBlocks
  {
    var z := sb.blocksPerZone;
    assert (n - 1) * z + z == n * z;
    if n * z + sb.DataBase() <= deviceBlocks {
      forall j: nat | j < n
        ensures ZoneOnDevice(sb, j, deviceBlocks)
      {
        MulMonotone(j + 1, n, z);
        assert (j + 1) * z == j * z + z;
      }
    } else {
      assert !ZoneOnDevice(sb, n - 1, deviceBlocks);
    }
  }

  /**
   The formatter's device check leaves out the metadata base: a device that is no larger than what
   the check asks for never holds the last zone.
   */
  lemma {:induction false} CheckedDeviceIsTooSmall(c: Config, blocks: nat)
    requires c.Accepted() && blocks * c.BlockSize() <= CheckedBytes(c)
    ensures Mounted(c, 1).Valid() && !ZoneOnDevice(Mounted(c, 1), c.NumZones() - 1, blocks)
  {
    AcceptedSizes(c);
    var n, z := c.NumZones(), c.BlocksPerZone();
    WrapsTo(n * c.zoneSize, TWO_32);
    WholeZones(n, z, c.BlockSize(), c.zoneSize, blocks);
    LastZoneStart(Mounted(c, 1), n);
  }

  lemma {:induction false} LastZoneStart(sb: Super, n: nat)
    requires sb.Valid() && n > 0
    ensures sb.ZoneStart(n - 1) + sb.blocksPerZone > n * sb.blocksPerZone
  {
    ZonesAboveMetadata(sb, 0);
    LastOfRow(n, sb.blocksPerZone);
  }

  lemma {:induction false} WholeZones(n: nat, z: nat, b: nat, size: nat, blocks: nat)
    requires b > 0 && size == z * b && blocks * b <= n * size
    ensures blocks <= n * z
  {
    assert n * size == (n * z) * b;
    assert (n * z + 1) * b == (n * z) * b + b;
    if blocks > n * z {
      MulMonotone(n * z + 1, blocks, b);
    }
  }

  /**
   The check asks for the zones' true size exactly when that size is below 2^32; a product of 2^32 asks for
   nothing.
   */
  lemma {:induction false} DeviceCheckIsExactWhen(c: Config)
    ensures CheckedBytes(c) == c.NumZones() * c.zoneSize <==> c.NumZones() * c.zoneSize < TWO_32
  {
    WrapsTo(c.NumZones() * c.zoneSize, TWO_32);
  }

  lemma LastOfRow(n: nat, z: nat)
    requires n > 0
    ensures (n - 1) * z + z == n * z
  {
  }

  /** What reaches the caller of the allocator for map bit `bit`: the value passes through two `int`s. */
  function ZoneNumber(sb: Super, bit: nat): (r: int)
    requires sb.Valid()
  {
    var j := Int32(bit);
    if j < 0 then 0 else Int32(sb.ZoneStart(j))
  }

  /** Every bit below `limit` yields its true block number exactly when the last one is below 2^31. */
  lemma ZoneNumberExactWhen(sb: Super, limit: nat)
    requires sb.Valid() && limit > 0
    ensures (forall bit: nat :: bit < limit ==> ZoneNumber(sb, bit) == sb.ZoneStart(bit)) <==>
            sb.ZoneStart(limit - 1) < TWO_31
  {
    var last := limit - 1;
    if sb.ZoneStart(last) < TWO_31 {
      forall bit: nat | bit < limit
        ensures ZoneNumber(sb, bit) == sb.ZoneStart(bit)
      {
        MulMonotone(bit, last, sb.blocksPerZone);
        assert bit <= bit * sb.blocksPerZone by { MulMonotone(1, sb.blocksPerZone, bit); }
        assert Int32(bit) == bit;
      }
    } else {
      assert ZoneNumber(sb, last) != sb.ZoneStart(last);
    }
  }
}
