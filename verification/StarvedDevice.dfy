/**
 A device that is full, reached from the formatter by ordinary operations, and what happens on it: a
 starved write followed by a remount, and a read that fills a pointer without marking its inode. The exact
 conditions are those of `FileRuns`; here are inputs on their failing side.
 */
module StarvedDevice {
  import opened Numbers
  import opened Options
  import opened FirstFit
  import opened Layout
  import opened InodeTable
  import opened Metadata
  import opened FileStore
  import opened Persistence
  import opened FileRuns
  import opened Damage
  import opened Conservation
  import opened Refinement
  import opened FileCapacity
  import MapBlocks
  import WholeSystem

  // ---------------------------------------------------------------- a full device

  const FILE: Fields := Fields(0, 0, 0, 0, 0x81A4, 0)

  /** The smallest device with the default zone size: two zones are left for files. */
  const FOUR_ZONES: Config := Config(16384, 4, 1, 1, 1024)

  /** Both are written, a second file is created, and everything is written back. */
  function Filling(data: Data): (r: seq<Op>) {
    [Create(FILE), Write(2, 0, data, 0, true), Write(2, 4, data, 0, true), Create(FILE), Sync]
  }

  /** Three zones are written: the third write is starved. */
  function ThreeWrites(data: Data): (r: seq<Op>) {
    [Create(FILE), Write(2, 0, data, 0, true), Write(2, 4, data, 0, true), Write(2, 9, data, 0, true)]
  }

  /** What matters of such a device, and of the volume at its first mount. */
  ghost predicate Fresh(sb: Super, root: nat, s: State) {
    && Good(sb, root, s) && sb.magic == MAGIC && sb.blocksPerZone == 4 && Usable(sb, 2) && Usable(sb, 3)
    && sb.zoneMapBlocks == sb.inodeMapBlocks == sb.inodeBlocks == 1
    && s.ptrs.Keys == {1} && Owned(s.ptrs) == {(1, 0)} && Shape(s.inodeBits, 2, 64) && Shape(s.bits, 2, 4)
  }

  lemma {:induction false} FourZones()
    ensures FOUR_ZONES.Accepted() && FOUR_ZONES.NumZones() == 4 && FOUR_ZONES.NumInodes() == 64
    ensures var sb := Mounted(FOUR_ZONES, 1);
            && sb.magic == MAGIC && sb.blocksPerZone == 4 && Usable(sb, 2) && Usable(sb, 3)
            && sb.zoneMapBlocks == sb.inodeMapBlocks == sb.inodeBlocks == 1
  {
    SmallPowers();
    assert Pow2(14) == 16384 by {
      assert Pow2(13) == 8192;
    }
    assert FOUR_ZONES.InodeEntryBlocks() == 1;
  }

  lemma {:induction false} FourZonesAreFresh(c: Config, disk: Disk, u: WholeSystem.Owner)
    requires c == FOUR_ZONES && c.Accepted() && WholeSystem.BlockNumbersFit(c) && WholeSystem.Formatted(c, disk, u)
    requires u.uid < 0x1_0000 && u.gid < 0x1_0000
    ensures Fresh(Mounted(c, 1), c.RootBlock(), WholeSystem.MountedVolume(c, disk))
  {
    FourZones();
    WholeSystem.FormattedVolumeIsGood(c, disk, u);
    WholeSystem.MountedRoot(c, disk, u);
    WholeSystem.RootBlockFits(c);
    WholeSystem.RootOwns(c.RootBlock());
  }

  /** A creation in a map whose numbers below `lo` are taken. */
  lemma {:induction false} CreateTakes(sb: Super, f: Files, attrs: Attrs, lo: nat, hi: nat)
    requires Shape(f.numbers, lo, hi) && lo < hi && Usable(sb, lo)
    ensures FilesStep(sb, f, Create(attrs)).inos == f.inos + {lo}
    ensures Shape(FilesStep(sb, f, Create(attrs)).numbers, lo + 1, hi)
  {
    ShapeAlloc(f.numbers, lo, hi);
  }

  lemma {:induction false} NextFiles(sb: Super, f: Files, ops: seq<Op>, n: nat, op: Op)
    requires n < |ops| && ops[n] == op
    ensures FilesRun(sb, f, ops, n + 1) == FilesStep(sb, FilesRun(sb, f, ops, n), op)
  {
  }

  /** Both runs start alike. */
  predicate Starts(ops: seq<Op>, data: Data) {
    && |ops| >= 3 && ops[0] == Create(FILE)
    && ops[1] == Write(2, 0, data, 0, true) && ops[2] == Write(2, 4, data, 0, true)
  }

  lemma {:induction false} FirstFiles(sb: Super, f0: Files, data: Data, ops: seq<Op>)
    requires Usable(sb, 2) && f0.inos == {1} && Shape(f0.numbers, 2, 64) && Starts(ops, data)
    ensures FilesRun(sb, f0, ops, 0).inos == {1}
    ensures FilesRun(sb, f0, ops, 1).inos == FilesRun(sb, f0, ops, 2).inos == FilesRun(sb, f0, ops, 3).inos == {1, 2}
    ensures Shape(FilesRun(sb, f0, ops, 3).numbers, 3, 64)
  {
    CreateTakes(sb, f0, FILE, 2, 64);
    NextFiles(sb, f0, ops, 0, Create(FILE));
    NextFiles(sb, f0, ops, 1, ops[1]);
    NextFiles(sb, f0, ops, 2, ops[2]);
  }

  lemma {:induction false} FirstNeeds(sb: Super, s0: State, data: Data, ops: seq<Op>)
    requires sb.Valid() && sb.blocksPerZone == 4 && Usable(sb, 2)
    requires s0.ptrs.Keys == {1} && Shape(s0.inodeBits, 2, 64) && Starts(ops, data)
    ensures Needs(sb, s0, ops, 3) == {(2, 0), (2, 1)} && Live(sb, s0, ops, 3) == {1, 2}
  {
    FirstFiles(sb, FilesAt(s0), data, ops);
    assert Needs(sb, s0, ops, 1) == {};
    assert Needs(sb, s0, ops, 2) == {(2, 0)};
  }

  /** No run of three such writes on a freshly formatted device is covered. */
  lemma {:induction false} StarvingRun(c: Config, data: Data, disk: Disk, u: WholeSystem.Owner, ss: seq<State>)
    requires c == FOUR_ZONES && c.Accepted() && WholeSystem.FormattedRun(c, disk, u, ss, ThreeWrites(data))
    ensures !RunCovered(Mounted(c, 1), ss, ThreeWrites(data), 4)
  {
    FourZonesAreFresh(c, disk, u);
    ThreeAreTooMany(Mounted(c, 1), c.RootBlock(), ss, data);
  }

  lemma {:induction false} ThreeNeeds(sb: Super, s0: State, data: Data)
    requires sb.Valid() && sb.blocksPerZone == 4 && Usable(sb, 2)
    requires s0.ptrs.Keys == {1} && Shape(s0.inodeBits, 2, 64)
    ensures |Needs(sb, s0, ThreeWrites(data), 4) - {(1, 0)}| == 3
  {
    var ops := ThreeWrites(data);
    FirstNeeds(sb, s0, data, ops);
    assert Needs(sb, s0, ops, 4) == {(2, 0), (2, 1), (2, 2)};
    assert {(2, 0), (2, 1), (2, 2)} - {(1, 0)} == {(2, 0), (2, 1), (2, 2)};
  }

  lemma {:induction false} ThreeAreTooMany(sb: Super, root: nat, ss: seq<State>, data: Data)
    requires IsRun(sb, ss, ThreeWrites(data)) && Fresh(sb, root, ss[0])
    ensures !RunCovered(sb, ss, ThreeWrites(data), 4)
  {
    ThreeNeeds(sb, ss[0], data);
    FreeInShape(ss[0].bits, 2, 4);
    CoveredWhen(sb, root, ss, ThreeWrites(data));
  }

  lemma {:induction false} FillingNeeds(sb: Super, s0: State, data: Data)
    requires sb.Valid() && sb.blocksPerZone == 4 && Usable(sb, 2) && Usable(sb, 3)
    requires s0.ptrs.Keys == {1} && Shape(s0.inodeBits, 2, 64)
    ensures Needs(sb, s0, Filling(data), 5) == {(2, 0), (2, 1)} && Live(sb, s0, Filling(data), 5) == {1, 2, 3}
  {
    var ops, f0 := Filling(data), FilesAt(s0);
    FirstNeeds(sb, s0, data, ops);
    FirstFiles(sb, f0, data, ops);
    CreateTakes(sb, FilesRun(sb, f0, ops, 3), FILE, 3, 64);
    NextFiles(sb, f0, ops, 3, Create(FILE));
    NextFiles(sb, f0, ops, 4, Sync);
    assert Needs(sb, s0, ops, 5) == Needs(sb, s0, ops, 4) == Needs(sb, s0, ops, 3);
  }

  lemma {:induction false} FillingIsAddressable(sb: Super, s0: State, data: Data)
    requires Geometry(sb) && sb.blocksPerZone == 4 && NinePointers(s0.ptrs)
    ensures AllAddressable(sb, s0, Filling(data))
  {
    var ops := Filling(data);
    forall i: nat | i < |ops|
      ensures AddressableAt(sb, s0, ops, i)
    {
      assert FILE.Fit();
      assert ops[i].Create? || ops[i].Sync? || (ops[i].Write? && ops[i].marks && InRange(sb, ops[i].iblock));
    }
  }

  /** Nothing is free, nothing is dirty, and this inode has no zones. */
  predicate Starving(s: State, ino: nat)
    requires NinePointers(s.ptrs)
  {
    && Full(s.bits) && s.dirtyMap == {} && s.dirtyInodeMap == {} && s.dirtyInodes == {}
    && ino in s.ptrs && forall i: nat :: i < POINTERS ==> s.ptrs[ino][i] == 0
  }

  lemma {:induction false} NoneFreeIsFull(bits: seq<bool>)
    requires |FreeZones(bits)| == 0
    ensures Full(bits)
  {
    forall j: nat | j < |bits|
      ensures bits[j]
    {
      assert j !in FreeZones(bits);
    }
  }

  lemma {:induction false} FillingIsCovered(sb: Super, root: nat, ss: seq<State>, data: Data)
    requires IsRun(sb, ss, Filling(data)) && Fresh(sb, root, ss[0])
    ensures RunCovered(sb, ss, Filling(data), 5) && Full(ss[5].bits)
  {
    var ops := Filling(data);
    FillingNeeds(sb, ss[0], data);
    FillingIsAddressable(sb, ss[0], data);
    assert {(2, 0), (2, 1)} - {(1, 0)} == {(2, 0), (2, 1)};
    FreeInShape(ss[0].bits, 2, 4);
    CoveredWhen(sb, root, ss, ops);
    CoveredRunCount(sb, root, ss, ops, 5);
    NoneFreeIsFull(ss[5].bits);
  }

  lemma {:induction false} NothingOwned(ptrs: map<nat, seq<int>>, ino: nat)
    requires NinePointers(ptrs) && ino in ptrs && forall i: nat :: (ino, i) !in Owned(ptrs)
    ensures forall i: nat :: i < POINTERS ==> ptrs[ino][i] == 0
  {
    forall i: nat | i < POINTERS
      ensures ptrs[ino][i] == 0
    {
      OwnedWhen(ptrs, ino, i);
    }
  }

  lemma {:induction false} SyncCleans(sb: Super, ss: seq<State>, data: Data)
    requires IsRun(sb, ss, Filling(data)) && Shaped(sb, ss[4]) && ss[4].status.Up?
    ensures ss[5].dirtyMap == {} && ss[5].dirtyInodeMap == {} && ss[5].dirtyInodes == {}
  {
    assert StepAt(sb, ss, Filling(data), 4);
  }

  lemma {:induction false} StateIsGood(sb: Super, root: nat, ss: seq<State>, ops: seq<Op>, n: nat, k: nat)
    requires IsRun(sb, ss, ops) && Good(sb, root, ss[0]) && n <= k && RunCovered(sb, ss, ops, k)
    ensures Good(sb, root, ss[n])
  {
    CoveredRun(sb, root, ss, ops, n);
  }

  lemma {:induction false} FilledOwns(sb: Super, ss: seq<State>, data: Data)
    requires |ss| == 6 && sb.Valid() && sb.blocksPerZone == 4 && Usable(sb, 2) && Usable(sb, 3)
    requires NinePointers(ss[0].ptrs) && NinePointers(ss[5].ptrs) && Foreseen(sb, ss, Filling(data), 5)
    requires ss[0].ptrs.Keys == {1} && Owned(ss[0].ptrs) == {(1, 0)} && Shape(ss[0].inodeBits, 2, 64)
    ensures ss[5].ptrs.Keys == {1, 2, 3} && forall i: nat :: i < POINTERS ==> ss[5].ptrs[3][i] == 0
  {
    FillingNeeds(sb, ss[0], data);
    NothingOwned(ss[5].ptrs, 3);
  }

  lemma {:induction false} FilledIsClean(sb: Super, root: nat, ss: seq<State>, data: Data)
    requires IsRun(sb, ss, Filling(data)) && Good(sb, root, ss[0]) && RunCovered(sb, ss, Filling(data), 5)
    ensures ss[5].dirtyMap == {} && ss[5].dirtyInodeMap == {} && ss[5].dirtyInodes == {}
  {
    StateIsGood(sb, root, ss, Filling(data), 4, 5);
    SyncCleans(sb, ss, data);
  }

  /** The filling run is covered. It leaves a good volume on which file 3 is starving. */
  lemma {:induction false} VolumeIsFilled(sb: Super, root: nat, ss: seq<State>, data: Data)
    requires IsRun(sb, ss, Filling(data)) && Fresh(sb, root, ss[0])
    ensures Good(sb, root, ss[5]) && Starving(ss[5], 3) && ss[5].ptrs.Keys == {1, 2, 3}
  {
    FillingIsCovered(sb, root, ss, data);
    StateIsGood(sb, root, ss, Filling(data), 5, 5);
    FilledIsClean(sb, root, ss, data);
    RunOwns(sb, root, ss, Filling(data), 5);
    FilledOwns(sb, ss, data);
  }

  // ---------------------------------------------------------------- a starved write

  function Zeros(sb: Super): (r: Data) {
    Filled(sb.BlockSize(), 0)
  }

  /** The state after a starved write of zeros. */
  function Spoiled(sb: Super, s: State, ino: nat, k: nat, marks: bool): (t: State)
    requires Shaped(sb, s) && ino in s.ptrs && sb.blocksPerZone > 0
    ensures Shaped(sb, t)
  {
    Stored(sb, MarkedIf(sb, s, ino, marks), k % sb.blocksPerZone, Zeros(sb))
  }

  lemma {:induction false} SpoilingWrite(sb: Super, root: nat, s: State, ino: nat, k: nat, marks: bool)
    requires Good(sb, root, s) && Starving(s, ino) && InRange(sb, k)
    ensures Step(sb, s, Write(ino, k, Zeros(sb), 0, marks)).0 == Spoiled(sb, s, ino, k, marks)
  {
    StarvedWrite(sb, root, s, ino, k, Zeros(sb), 0, marks);
  }

  /** Zeros in block 0: if the superblock buffer is gone, the next mount crashes. */
  lemma {:induction false} SuperIsLost(sb: Super, t: State)
    requires Shaped(sb, t) && sb.magic == MAGIC && BlockOf(t.disk, sb.BlockSize(), 0) == Zeros(sb)
    ensures Remounted(sb, t, false).status.Crashed?
  {
    ZeroWords(Zeros(sb), 0);
    MountCrashesWhen(sb, t, false);
  }

  /** If the buffer is still there, the unmount writes it over what was stored. */
  lemma {:induction false} ContentsAreLost(sb: Super, t: State)
    requires Shaped(sb, t) && sb.magic == MAGIC && SuperKept(sb, t, true)
    ensures var r := Remounted(sb, t, true);
            r.status.Up? && BlockOf(r.disk, sb.BlockSize(), 0) == t.super != Zeros(sb)
  {
    UnmountedBlock(sb, t, true, 0);
    ReloadedWhen(sb, Unmounted(sb, t, true));
    ZeroWords(Zeros(sb), 0);
  }

  /** What a mount makes of a map block of zeros. */
  lemma {:induction false} ZerosAreBelieved(disk: Disk, size: nat, start: nat, count: nat)
    requires size > 0 && count > 0 && BlockOf(disk, size, start) == Filled(size, 0)
    ensures |LoadedMap(disk, size, start, count)| > 1 && !LoadedMap(disk, size, start, count)[1]
  {
    FilledBits(size, false);
    var blocks := LoadedBlocks(disk, size, start, count);
    assert !blocks[0][1];
    MapBlocks.FlatAt(blocks, 8 * size, 0, 1);
  }

  lemma {:induction false} ZoneMapIsZero(sb: Super, t: State, held: bool)
    requires Shaped(sb, t) && 0 !in t.dirtyMap && BlockOf(t.disk, sb.BlockSize(), 1) == Zeros(sb)
    ensures var now := LoadedMap(Unmounted(sb, t, held).disk, sb.BlockSize(), 1, sb.zoneMapBlocks);
            |now| > 1 && !now[1]
  {
    DirtyZoneBlock(sb, t, 0);
    WholeBlockWritten(sb, t, held, 1);
    ZerosAreBelieved(Unmounted(sb, t, held).disk, sb.BlockSize(), 1, sb.zoneMapBlocks);
  }

  lemma {:induction false} InodeMapIsZero(sb: Super, t: State, held: bool)
    requires Shaped(sb, t) && 0 !in t.dirtyInodeMap && BlockOf(t.disk, sb.BlockSize(), InodeMapStart(sb)) == Zeros(sb)
    ensures var now := LoadedMap(Unmounted(sb, t, held).disk, sb.BlockSize(), InodeMapStart(sb), sb.inodeMapBlocks);
            |now| > 1 && !now[1]
  {
    DirtyInodeBlock(sb, t, 0);
    WholeBlockWritten(sb, t, held, InodeMapStart(sb));
    ZerosAreBelieved(Unmounted(sb, t, held).disk, sb.BlockSize(), InodeMapStart(sb), sb.inodeMapBlocks);
  }

  /** Zeros in block 1, which is clean: the zone of the root directory is free after the mount. */
  lemma {:induction false} ZoneMapIsLost(sb: Super, t: State, held: bool)
    requires Shaped(sb, t) && SuperKept(sb, t, held) && 0 !in t.dirtyMap
    requires BlockOf(t.disk, sb.BlockSize(), 1) == Zeros(sb)
    ensures var r := Remounted(sb, t, held);
            r.status.Up? && |r.bits| > 1 && !r.bits[1]
  {
    ZoneMapIsZero(sb, t, held);
    UnmountedBlock(sb, t, held, 0);
    ReloadedWhen(sb, Unmounted(sb, t, held));
  }

  /** Zeros in the first block of the inode map, which is clean: the number of the root directory is free. */
  lemma {:induction false} InodeMapIsLost(sb: Super, t: State, held: bool)
    requires Shaped(sb, t) && SuperKept(sb, t, held) && 0 !in t.dirtyInodeMap
    requires BlockOf(t.disk, sb.BlockSize(), InodeMapStart(sb)) == Zeros(sb)
    ensures var r := Remounted(sb, t, held);
            r.status.Up? && |r.inodeBits| > 1 && !r.inodeBits[1]
  {
    InodeMapIsZero(sb, t, held);
    UnmountedBlock(sb, t, held, 0);
    ReloadedWhen(sb, Unmounted(sb, t, held));
  }

  /** Zeros in a block of the inode table: a clean inode with its record there is gone. */
  lemma {:induction false} InodeIsLost(sb: Super, t: State, held: bool, n: nat)
    requires Shaped(sb, t) && SuperKept(sb, t, held) && n in t.ptrs && n !in t.dirtyInodes
    requires BlockOf(t.disk, sb.BlockSize(), sb.InodeBlock(n)) == Zeros(sb)
    ensures Remounted(sb, t, held).status.Up? && n !in Remounted(sb, t, held).ptrs
  {
    RecordIsLost(sb, t, held, n);
    UnmountedBlock(sb, t, held, 0);
    ReloadedWhen(sb, Unmounted(sb, t, held));
  }

  /** A record of zeros is no inode. */
  lemma {:induction false} ZeroRecord(sb: Super, disk: Disk, n: nat)
    requires Housed(sb, sb.BlockSize(), n) && BlockOf(disk, sb.BlockSize(), sb.InodeBlock(n)) == Zeros(sb)
    ensures InodeGet(sb, disk, sb.BlockSize(), n).None?
  {
    var rec := RecordOf(sb, disk, sb.BlockSize(), n);
    assert forall i: nat :: i < 64 ==> rec[i] == 0;
    ZeroWords(rec, 52);
    assert Loaded(sb, disk, sb.BlockSize(), n).mode == 0;
  }

  lemma {:induction false} RecordIsLost(sb: Super, t: State, held: bool, n: nat)
    requires Shaped(sb, t) && n in t.ptrs && n !in t.dirtyInodes
    requires BlockOf(t.disk, sb.BlockSize(), sb.InodeBlock(n)) == Zeros(sb)
    ensures InodeGet(sb, Unmounted(sb, t, held).disk, sb.BlockSize(), n).None?
  {
    ZeroRecord(sb, t.disk, n);
    UnmountedBlock(sb, t, held, sb.InodeBlock(n));
    SyncedRecord(sb, sb.BlockSize(), t.disk, DirtyMaps(sb, t), DirtyRecords(sb, t), n);
  }

  /** The device is filled, one block of zeros is written to file 3, and the volume is mounted again. */
  function Spoiling(sb: Super, data: Data, k: nat, held: bool): (r: seq<Op>) {
    Filling(data) + [Write(3, k, Zeros(sb), 0, true), Remount(held)]
  }

  lemma {:induction false} PrefixRun(sb: Super, ss: seq<State>, ops: seq<Op>, first: seq<Op>)
    requires IsRun(sb, ss, ops) && first <= ops
    ensures IsRun(sb, ss[..|first| + 1], first)
  {
    var start := ss[..|first| + 1];
    forall i: nat {:trigger StepAt(sb, start, first, i)} | i < |first|
      ensures StepAt(sb, start, first, i)
    {
      assert StepAt(sb, ss, ops, i);
    }
  }

  lemma {:induction false} OneStep(sb: Super, ss: seq<State>, ops: seq<Op>, i: nat, op: Op)
    requires IsRun(sb, ss, ops) && i < |ops| && ops[i] == op
    ensures Shaped(sb, ss[i]) && ss[i + 1] == Step(sb, ss[i], op).0
  {
    assert StepAt(sb, ss, ops, i);
  }

  lemma {:induction false} RemountStep(sb: Super, ss: seq<State>, ops: seq<Op>, i: nat, held: bool)
    requires IsRun(sb, ss, ops) && i < |ops| && ops[i] == Remount(held) && ss[i].status.Up?
    ensures Shaped(sb, ss[i]) && ss[i + 1] == Remounted(sb, ss[i], held)
  {
    assert StepAt(sb, ss, ops, i);
  }

  lemma {:induction false} FilledFirst(sb: Super, root: nat, ss: seq<State>, ops: seq<Op>, data: Data)
    requires IsRun(sb, ss, ops) && Fresh(sb, root, ss[0]) && Filling(data) <= ops
    ensures Good(sb, root, ss[5]) && Starving(ss[5], 3) && 1 in ss[5].ptrs
  {
    PrefixRun(sb, ss, ops, Filling(data));
    VolumeIsFilled(sb, root, ss[..6], data);
  }

  lemma {:induction false} SpoilingSteps(sb: Super, ss: seq<State>, data: Data, k: nat, held: bool)
    requires IsRun(sb, ss, Spoiling(sb, data, k, held)) && sb.blocksPerZone > 0 && Shaped(sb, ss[5]) && 3 in ss[5].ptrs
    requires ss[5].status.Up? && Step(sb, ss[5], Write(3, k, Zeros(sb), 0, true)).0 == Spoiled(sb, ss[5], 3, k, true)
    ensures ss[6] == Spoiled(sb, ss[5], 3, k, true) && ss[7] == Remounted(sb, ss[6], held)
  {
    var ops := Spoiling(sb, data, k, held);
    OneStep(sb, ss, ops, 5, Write(3, k, Zeros(sb), 0, true));
    RemountStep(sb, ss, ops, 6, held);
  }

  lemma {:induction false} SpoiledRun(sb: Super, root: nat, ss: seq<State>, data: Data, k: nat, held: bool)
    requires IsRun(sb, ss, Spoiling(sb, data, k, held)) && Fresh(sb, root, ss[0]) && k < 4
    ensures Good(sb, root, ss[5]) && Starving(ss[5], 3) && 1 in ss[5].ptrs
    ensures ss[6] == Spoiled(sb, ss[5], 3, k, true) && ss[7] == Remounted(sb, ss[6], held)
  {
    var ops := Spoiling(sb, data, k, held);
    FilledFirst(sb, root, ss, ops, data);
    SpoilingWrite(sb, root, ss[5], 3, k, true);
    SpoilingSteps(sb, ss, data, k, held);
  }

  /**
   A starved write and a remount, on a device filled by ordinary operations. What the write destroys depends on
   the file block: the superblock, so that the mount crashes (or, if its buffer was kept, the contents);
   the zone map; the inode map; or the records of the other inodes, the root directory's among them.
   */
  lemma {:induction false} StarvedWriteThenRemount(c: Config, data: Data, disk: Disk, u: WholeSystem.Owner,
                                                   ss: seq<State>, k: nat, held: bool)
    requires c == FOUR_ZONES && c.Accepted() && k < 4
    requires WholeSystem.FormattedRun(c, disk, u, ss, Spoiling(Mounted(c, 1), data, k, held))
    ensures k == 0 && !held ==> ss[7].status.Crashed?
    ensures k == 0 && held ==>
              && BlockOf(ss[7].disk, c.BlockSize(), 0) != Zeros(Mounted(c, 1))
              && At(ss[6].disk, 0) == Some(Zeros(Mounted(c, 1)))
    ensures k == 1 ==> ss[7].status.Up? && |ss[7].bits| > 1 && !ss[7].bits[1]
    ensures k == 2 ==> ss[7].status.Up? && |ss[7].inodeBits| > 1 && !ss[7].inodeBits[1]
    ensures k == 3 ==> ss[7].status.Up? && 1 !in ss[7].ptrs
  {
    FourZones();
    FourZonesAreFresh(c, disk, u);
    SpoiledRun(Mounted(c, 1), c.RootBlock(), ss, data, k, held);
    SpoiledState(Mounted(c, 1), c.RootBlock(), ss[5], k, ss[6], held);
    SpoiledOutcome(Mounted(c, 1), k, held, ss[6]);
  }

  /** What is known of the state after the starved write. */
  lemma {:induction false} SpoiledState(sb: Super, root: nat, s: State, k: nat, t: State, held: bool)
    requires Good(sb, root, s) && Starving(s, 3) && k < 4 && sb.blocksPerZone == 4 && t == Spoiled(sb, s, 3, k, true)
    ensures BlockOf(t.disk, sb.BlockSize(), k) == Zeros(sb) && At(t.disk, k) == Some(Zeros(sb))
    ensures t.dirtyMap == {} && t.dirtyInodeMap == {} && t.dirtyInodes == {3} && t.ptrs == s.ptrs
    ensures k > 0 || held ==> SuperKept(sb, t, held)
  {
    DivModUnique(k, 4, 0, k);
    if k > 0 {
      OtherBlockSame(s.disk, sb.BlockSize(), k, Zeros(sb), 0);
    }
  }

  /** What a remount makes of each of the four cases. */
  lemma {:induction false} SpoiledOutcome(sb: Super, k: nat, held: bool, t: State)
    requires Shaped(sb, t) && k < 4 && sb.magic == MAGIC && sb.zoneMapBlocks == sb.inodeMapBlocks == 1
    requires BlockOf(t.disk, sb.BlockSize(), k) == Zeros(sb) && t.dirtyMap == {} && t.dirtyInodeMap == {}
    requires 1 in t.ptrs && t.dirtyInodes == {3} && (k > 0 || held ==> SuperKept(sb, t, held))
    ensures var r := Remounted(sb, t, held);
            && (k == 0 && !held ==> r.status.Crashed?)
            && (k == 0 && held ==> BlockOf(r.disk, sb.BlockSize(), 0) != Zeros(sb))
            && (k == 1 ==> r.status.Up? && |r.bits| > 1 && !r.bits[1])
            && (k == 2 ==> r.status.Up? && |r.inodeBits| > 1 && !r.inodeBits[1])
            && (k == 3 ==> r.status.Up? && 1 !in r.ptrs)
  {
    if k == 0 && !held {
      SuperIsLost(sb, t);
    } else if k == 0 {
      ContentsAreLost(sb, t);
    } else if k == 1 {
      ZoneMapIsLost(sb, t, held);
    } else if k == 2 {
      InodeMapIsLost(sb, t, held);
    } else {
      DivModUnique(1, 64, 0, 1);
      InodeIsLost(sb, t, held, 1);
    }
  }

  // ---------------------------------------------------------------- an unmarked read

  /**
   A read of any block that fills a pointer without its inode being or becoming dirty: after the remount the zone is
   taken and the pointer is empty again.
   */
  lemma {:induction false} UnmarkedReadLosesZone(sb: Super, root: nat, s: State, ino: nat, k: nat, held: bool,
                                                 t: State, r: State)
    requires Good(sb, root, s) && ino in s.ptrs && InRange(sb, k) && !PointerIsKept(sb, s, ino, k, false)
    requires t == Step(sb, s, Read(ino, k, 0, false)).0 && r == Remounted(sb, t, held)
    ensures !Intact(sb, t, held) && ino in t.ptrs && t.ptrs[ino][IndexOf(sb, k)] == sb.ZoneStart(FirstFree(s.bits)) != 0
    ensures r.status.Up? && r.bits == s.bits[FirstFree(s.bits) := true]
    ensures ino in r.ptrs && r.ptrs[ino][IndexOf(sb, k)] == 0
  {
    ReadIsHarmlessWhen(sb, root, s, ino, k, 0, false, held);
    UnmarkedRead(sb, root, s, ino, k);
    ReadKeepsMaps(sb, root, s, t);
    assert InodeKept(sb, s, ino);
    ForgottenPointer(sb, s, t, held, ino);
  }

  /** A clean inode comes back with its old pointers, and the map as it is. */
  lemma {:induction false} ForgottenPointer(sb: Super, s: State, t: State, held: bool, ino: nat)
    requires Shaped(sb, s) && Shaped(sb, t) && t.disk == s.disk && t.super == s.super && ino in s.ptrs && ino in t.ptrs
    requires ino !in s.dirtyInodes && ino !in t.dirtyInodes && InodeKept(sb, s, ino)
    requires MapsKept(sb, t) && SuperKept(sb, s, held)
    ensures var r := Remounted(sb, t, held);
            r.status.Up? && r.bits == t.bits && ino in r.ptrs && r.ptrs[ino] == s.ptrs[ino]
  {
    OldRecord(sb, s, t, held, ino);
    FoundAgain(sb, t, held, ino, Whole(s, ino));
  }

  /** A mount that finds both maps as memory had them, and this inode as the device has it. */
  lemma {:induction false} FoundAgain(sb: Super, t: State, held: bool, ino: nat, i: Inode)
    requires Shaped(sb, t) && MapsKept(sb, t) && SuperKept(sb, t, held) && ino in t.ptrs
    requires InodeGet(sb, Unmounted(sb, t, held).disk, sb.BlockSize(), ino) == Some(i)
    ensures var r := Remounted(sb, t, held);
            r.status.Up? && r.bits == t.bits && ino in r.ptrs && r.ptrs[ino] == i.zones
  {
    MapsFoundWhen(sb, t, held);
    UnmountedBlock(sb, t, held, 0);
    ReloadedWhen(sb, Unmounted(sb, t, held));
  }

  lemma {:induction false} UnmarkedRead(sb: Super, root: nat, s: State, ino: nat, k: nat)
    requires Geometry(sb) && Shaped(sb, s) && s.status.Up? && Inv(sb, root, s) && ino in s.ptrs && InRange(sb, k)
    requires !PointerIsKept(sb, s, ino, k, false)
    ensures var t, f := Step(sb, s, Read(ino, k, 0, false)).0, FirstFree(s.bits);
            && f < |s.bits| && sb.ZoneStart(f) != 0
            && t == s.(bits := Alloc(s.bits).0, ptrs := s.ptrs[ino := s.ptrs[ino][IndexOf(sb, k) := sb.ZoneStart(f)]],
                       dirtyMap := s.dirtyMap + Touched(sb, s.bits))
  {
    PositionInRange(sb, k);
    FreshZone(sb, root, s);
  }

  lemma {:induction false} ReadKeepsMaps(sb: Super, root: nat, s: State, t: State)
    requires Good(sb, root, s) && Shaped(sb, t) && t.disk == s.disk && t.inodeBits == s.inodeBits
    requires t.dirtyInodeMap == s.dirtyInodeMap
    requires t.bits == Alloc(s.bits).0 && t.dirtyMap == s.dirtyMap + Touched(sb, s.bits)
    ensures MapsKept(sb, t)
  {
    AllocUpdates(sb, sb.zoneMapBlocks, s.bits, s.dirtyMap);
    SameMapUpdates(8 * sb.BlockSize(), sb.inodeMapBlocks, s.inodeBits, s.dirtyInodeMap);
    UpdateKeepsMaps(sb, s, t);
  }

  /** A clean inode is found as it was, whatever memory says. */
  lemma {:induction false} OldRecord(sb: Super, s: State, t: State, held: bool, ino: nat)
    requires Shaped(sb, s) && Shaped(sb, t) && t.disk == s.disk && ino in s.ptrs && ino !in s.dirtyInodes
    requires InodeKept(sb, s, ino)
    requires ino in t.ptrs && ino !in t.dirtyInodes
    ensures InodeGet(sb, Unmounted(sb, t, held).disk, sb.BlockSize(), ino) == Some(Whole(s, ino))
  {
    UnmountedBlock(sb, t, held, sb.InodeBlock(ino));
    SyncedRecord(sb, sb.BlockSize(), t.disk, DirtyMaps(sb, t), DirtyRecords(sb, t), ino);
  }

  /** A file is created and written back, its first block is read, and the volume is mounted again. */
  function Reading(held: bool): (r: seq<Op>) {
    [Create(FILE), Sync, Read(2, 0, 0, false), Remount(held)]
  }

  lemma {:induction false} CreatedFile(sb: Super, s0: State, ops: seq<Op>)
    requires sb.Valid() && Usable(sb, 2) && s0.ptrs.Keys == {1} && Shape(s0.inodeBits, 2, 64)
    requires ops == [Create(FILE), Sync]
    ensures Live(sb, s0, ops, 2) == {1, 2} && Needs(sb, s0, ops, 2) == {}
  {
    CreateTakes(sb, FilesAt(s0), FILE, 2, 64);
    NextFiles(sb, FilesAt(s0), ops, 0, Create(FILE));
    NextFiles(sb, FilesAt(s0), ops, 1, Sync);
    assert Needs(sb, s0, ops, 2) == Needs(sb, s0, ops, 1) == {};
  }

  lemma {:induction false} CreateIsCovered(sb: Super, ss: seq<State>, ops: seq<Op>)
    requires Geometry(sb) && IsRun(sb, ss, ops) && ops == [Create(FILE), Sync]
    ensures RunCovered(sb, ss, ops, 2)
  {
    StateIsShaped(sb, ss, ops, 1);
    assert FILE.Fit() && CoveredAt(sb, ss, ops, 0) && CoveredAt(sb, ss, ops, 1);
  }

  lemma {:induction false} CreateLeavesZones(sb: Super, ss: seq<State>, ops: seq<Op>)
    requires IsRun(sb, ss, ops) && ss[0].status.Up? && ops == [Create(FILE), Sync]
    ensures ss[2].dirtyInodes == {} && ss[2].bits == ss[0].bits
  {
    OneStep(sb, ss, ops, 0, Create(FILE));
    OneStep(sb, ss, ops, 1, Sync);
  }

  lemma {:induction false} CreateAndSync(sb: Super, root: nat, ss: seq<State>, ops: seq<Op>)
    requires IsRun(sb, ss, ops) && Fresh(sb, root, ss[0]) && ops == [Create(FILE), Sync]
    ensures Good(sb, root, ss[2]) && 2 in ss[2].ptrs && ss[2].ptrs[2][0] == 0
    ensures ss[2].dirtyInodes == {} && ss[2].bits == ss[0].bits
  {
    CreateIsCovered(sb, ss, ops);
    CreateLeavesZones(sb, ss, ops);
    StateIsGood(sb, root, ss, ops, 2, 2);
    CreatedFile(sb, ss[0], ops);
    RunOwns(sb, root, ss, ops, 2);
    OwnedWhen(ss[2].ptrs, 2, 0);
  }

  lemma {:induction false} ReadingStart(sb: Super, root: nat, ss: seq<State>, held: bool)
    requires IsRun(sb, ss, Reading(held)) && Fresh(sb, root, ss[0])
    ensures Good(sb, root, ss[2]) && 2 in ss[2].ptrs && InRange(sb, 0) && IndexOf(sb, 0) == 0
    ensures FirstFree(ss[2].bits) == 2 && !PointerIsKept(sb, ss[2], 2, 0, false)
  {
    PrefixRun(sb, ss, Reading(held), [Create(FILE), Sync]);
    CreateAndSync(sb, root, ss[..3], [Create(FILE), Sync]);
    ShapeAlloc(ss[2].bits, 2, 4);
    DivModUnique(0, 4, 0, 0);
  }

  lemma {:induction false} ReadingEnds(sb: Super, root: nat, ss: seq<State>, held: bool)
    requires IsRun(sb, ss, Reading(held)) && Fresh(sb, root, ss[0])
    ensures 2 in ss[3].ptrs && |ss[3].ptrs[2]| > 0 && ss[3].ptrs[2][0] == sb.ZoneStart(2)
    ensures |ss[4].bits| > 2 && ss[4].bits[2] && 2 in ss[4].ptrs && |ss[4].ptrs[2]| > 0 && ss[4].ptrs[2][0] == 0
  {
    ReadingStart(sb, root, ss, held);
    ReadingSteps(sb, ss, held);
    UnmarkedReadLosesZone(sb, root, ss[2], 2, 0, held, ss[3], ss[4]);
  }

  lemma {:induction false} ReadingSteps(sb: Super, ss: seq<State>, held: bool)
    requires IsRun(sb, ss, Reading(held)) && Shaped(sb, ss[2]) && ss[2].status.Up? && 2 in ss[2].ptrs
    ensures Shaped(sb, ss[3]) && ss[3] == Step(sb, ss[2], Read(2, 0, 0, false)).0 && ss[4] == Remounted(sb, ss[3], held)
  {
    OneStep(sb, ss, Reading(held), 2, Read(2, 0, 0, false));
    RemountStep(sb, ss, Reading(held), 3, held);
  }

  /** On a freshly formatted device this run ends with zone 2 taken and file 2 without it. */
  lemma {:induction false} UnmarkedReadRun(c: Config, disk: Disk, u: WholeSystem.Owner, ss: seq<State>, held: bool)
    requires c == FOUR_ZONES && c.Accepted() && WholeSystem.FormattedRun(c, disk, u, ss, Reading(held))
    ensures 2 in ss[3].ptrs && |ss[3].ptrs[2]| > 0 && ss[3].ptrs[2][0] == Mounted(c, 1).ZoneStart(2)
    ensures |ss[4].bits| > 2 && ss[4].bits[2] && 2 in ss[4].ptrs && |ss[4].ptrs[2]| > 0 && ss[4].ptrs[2][0] == 0
  {
    FourZonesAreFresh(c, disk, u);
    ReadingEnds(Mounted(c, 1), c.RootBlock(), ss, held);
  }
}
