/**
 What a remount restores. Only what is dirty is written back, and a mount believes the device; so
 memory survives exactly when the superblock decodes as before, every clean map block and record on the
 device still agrees with memory, and every dirty inode fits its record.
 */
module Persistence {
  import opened Numbers
  import opened Options
  import opened Layout
  import opened InodeTable
  import opened Metadata
  import opened FileStore

  /**
   Block `i` of a map is written back, or the device still has it as memory does (bit 0 aside, which a mount
   sets).
   */
  predicate BlockKept(disk: Disk, size: nat, start: nat, count: nat, bits: seq<bool>, dirty: set<nat>, i: nat)
    requires size > 0 && |bits| == count * (8 * size) && i < count
  {
    if i in dirty then i > 0 || FirstBit(bits, 8 * size, count)
    else LoadedBlock(disk, size, start, i) == Segment(bits, 8 * size, count, i)
  }

  /** Bit 0 of a map. */
  predicate FirstBit(bits: seq<bool>, n: nat, count: nat)
    requires n > 0 && count > 0 && |bits| == count * n
  {
    Segment(bits, n, count, 0)[0]
  }

  ghost predicate MapKept(disk: Disk, size: nat, start: nat, count: nat, bits: seq<bool>, dirty: set<nat>)
    requires size > 0 && |bits| == count * (8 * size)
  {
    forall i: nat {:trigger BlockKept(disk, size, start, count, bits, dirty, i)} :: i < count ==>
      BlockKept(disk, size, start, count, bits, dirty, i)
  }

  ghost predicate MapsKept(sb: Super, s: State)
    requires Shaped(sb, s)
  {
    && MapKept(s.disk, sb.BlockSize(), 1, sb.zoneMapBlocks, s.bits, s.dirtyMap)
    && MapKept(s.disk, sb.BlockSize(), InodeMapStart(sb), sb.inodeMapBlocks, s.inodeBits, s.dirtyInodeMap)
  }

  /** An inode is written back and fits its record, or the device still has it as memory does. */
  predicate InodeKept(sb: Super, s: State, ino: nat)
    requires Shaped(sb, s) && ino in s.ptrs
  {
    && RegularOrDirectory(s.attrs[ino].mode)
    && if ino in s.dirtyInodes then Whole(s, ino).Fits() else Loaded(sb, s.disk, sb.BlockSize(), ino) == Whole(s, ino)
  }

  ghost predicate InodesKept(sb: Super, s: State)
    requires Shaped(sb, s)
  {
    forall ino: nat {:trigger InodeKept(sb, s, ino)} :: ino in s.ptrs ==> InodeKept(sb, s, ino)
  }

  /** The superblock that the next mount reads, from the buffer if that is still there, decodes as this one. */
  predicate SuperKept(sb: Super, s: State, held: bool)
    requires Shaped(sb, s)
  {
    DecodeSuper(if held then s.super else BlockOf(s.disk, sb.BlockSize(), 0), 0) == sb
  }

  ghost predicate Intact(sb: Super, s: State, held: bool)
    requires Shaped(sb, s)
  {
    MapsKept(sb, s) && InodesKept(sb, s) && SuperKept(sb, s, held)
  }

  // ---------------------------------------------------------------- what a mount finds

  /** Block 0 aside, unmounting leaves what the write-back leaves. */
  lemma {:induction false} UnmountedBlock(sb: Super, s: State, held: bool, b: int)
    requires Shaped(sb, s)
    ensures b != 0 ==>
              BlockOf(Unmounted(sb, s, held).disk, sb.BlockSize(), b) == BlockOf(Synced(sb, s).disk, sb.BlockSize(), b)
    ensures BlockOf(Unmounted(sb, s, held).disk, sb.BlockSize(), 0) ==
            if held then s.super else BlockOf(s.disk, sb.BlockSize(), 0)
  {
    SyncedMap(sb, sb.BlockSize(), s.disk, DirtyMaps(sb, s), DirtyRecords(sb, s), 0);
  }

  /** What the write-back holds for a zone-map block. */
  lemma {:induction false} DirtyZoneBlock(sb: Super, s: State, i: nat)
    requires Shaped(sb, s) && i < sb.zoneMapBlocks
    ensures 1 + i in DirtyMaps(sb, s) <==> i in s.dirtyMap
    ensures i in s.dirtyMap ==>
              DirtyMaps(sb, s)[1 + i] == Pack(Segment(s.bits, 8 * sb.BlockSize(), sb.zoneMapBlocks, i), sb.BlockSize())
  {
  }

  /** What the write-back holds for an inode-map block. */
  lemma {:induction false} DirtyInodeBlock(sb: Super, s: State, i: nat)
    requires Shaped(sb, s) && i < sb.inodeMapBlocks
    ensures InodeMapStart(sb) + i in DirtyMaps(sb, s) <==> i in s.dirtyInodeMap
    ensures i in s.dirtyInodeMap ==>
              DirtyMaps(sb, s)[InodeMapStart(sb) + i] ==
              Pack(Segment(s.inodeBits, 8 * sb.BlockSize(), sb.inodeMapBlocks, i), sb.BlockSize())
  {
  }

  /** A map block after the unmount. */
  lemma {:induction false} WholeBlockWritten(sb: Super, s: State, held: bool, b: nat)
    requires Shaped(sb, s) && IsWholeBlock(sb, b) && b > 0
    ensures BlockOf(Unmounted(sb, s, held).disk, sb.BlockSize(), b) ==
            if b in DirtyMaps(sb, s) then DirtyMaps(sb, s)[b] else BlockOf(s.disk, sb.BlockSize(), b)
  {
    UnmountedBlock(sb, s, held, b);
    SyncedMap(sb, sb.BlockSize(), s.disk, DirtyMaps(sb, s), DirtyRecords(sb, s), b);
  }

  /** The device `now` has the dirty blocks of a map as memory has them, and the clean ones as `disk` has them. */
  ghost predicate MapWritten(now: Disk, disk: Disk, size: nat, start: nat, count: nat, bits: seq<bool>, dirty: set<nat>)
    requires size > 0 && |bits| == count * (8 * size)
  {
    forall i: nat {:trigger Segment(bits, 8 * size, count, i)} :: i < count ==>
      BlockOf(now, size, start + i) ==
      if i in dirty then Pack(Segment(bits, 8 * size, count, i), size) else BlockOf(disk, size, start + i)
  }

  /** What a mount finds for a map block after the unmount. */
  lemma {:induction false} BlockFoundWhen(now: Disk, disk: Disk, size: nat, start: nat, count: nat, bits: seq<bool>,
                                          dirty: set<nat>, i: nat)
    requires size > 0 && |bits| == count * (8 * size) && i < count
    requires MapWritten(now, disk, size, start, count, bits, dirty)
    ensures LoadedBlock(now, size, start, i) == Segment(bits, 8 * size, count, i) <==>
            BlockKept(disk, size, start, count, bits, dirty, i)
  {
    var seg := Segment(bits, 8 * size, count, i);
    if i in dirty {
      UnpackPack(seg, size);
      assert BlockOf(now, size, start + i) == Pack(seg, size);
      assert i == 0 ==> (seg[0 := true] == seg <==> seg[0]);
    } else {
      assert BlockOf(now, size, start + i) == BlockOf(disk, size, start + i);
    }
  }

  lemma {:induction false} MapFoundWhen(now: Disk, disk: Disk, size: nat, start: nat, count: nat, bits: seq<bool>,
                                        dirty: set<nat>)
    requires size > 0 && |bits| == count * (8 * size) && MapWritten(now, disk, size, start, count, bits, dirty)
    ensures LoadedMap(now, size, start, count) == bits <==> MapKept(disk, size, start, count, bits, dirty)
  {
    var blocks := LoadedBlocks(now, size, start, count);
    FlatIsSegments(blocks, 8 * size, bits);
    forall i: nat | i < count
      ensures blocks[i] == Segment(bits, 8 * size, count, i) <==> BlockKept(disk, size, start, count, bits, dirty, i)
    {
      BlockFoundWhen(now, disk, size, start, count, bits, dirty, i);
    }
  }

  /** The unmount writes the zone map. */
  lemma {:induction false} ZoneMapIsWritten(sb: Super, s: State, held: bool)
    requires Shaped(sb, s)
    ensures MapWritten(Unmounted(sb, s, held).disk, s.disk, sb.BlockSize(), 1, sb.zoneMapBlocks, s.bits, s.dirtyMap)
  {
    var now, size := Unmounted(sb, s, held).disk, sb.BlockSize();
    forall i: nat | i < sb.zoneMapBlocks
      ensures BlockOf(now, size, 1 + i) ==
              if i in s.dirtyMap then Pack(Segment(s.bits, 8 * size, sb.zoneMapBlocks, i), size)
              else BlockOf(s.disk, size, 1 + i)
    {
      DirtyZoneBlock(sb, s, i);
      WholeBlockWritten(sb, s, held, 1 + i);
    }
  }

  /** The unmount writes the inode map. */
  lemma {:induction false} InodeMapIsWritten(sb: Super, s: State, held: bool)
    requires Shaped(sb, s)
    ensures MapWritten(Unmounted(sb, s, held).disk, s.disk, sb.BlockSize(), InodeMapStart(sb), sb.inodeMapBlocks,
                       s.inodeBits, s.dirtyInodeMap)
  {
    var now, size := Unmounted(sb, s, held).disk, sb.BlockSize();
    forall i: nat | i < sb.inodeMapBlocks
      ensures BlockOf(now, size, InodeMapStart(sb) + i) ==
              if i in s.dirtyInodeMap then Pack(Segment(s.inodeBits, 8 * size, sb.inodeMapBlocks, i), size)
              else BlockOf(s.disk, size, InodeMapStart(sb) + i)
    {
      DirtyInodeBlock(sb, s, i);
      WholeBlockWritten(sb, s, held, InodeMapStart(sb) + i);
    }
  }

  /** Both maps are found as memory had them exactly when they are kept. */
  lemma {:induction false} MapsFoundWhen(sb: Super, s: State, held: bool)
    requires Shaped(sb, s)
    ensures var now := Unmounted(sb, s, held).disk;
            && LoadedMap(now, sb.BlockSize(), 1, sb.zoneMapBlocks) == s.bits
            && LoadedMap(now, sb.BlockSize(), InodeMapStart(sb), sb.inodeMapBlocks) == s.inodeBits
            <==> MapsKept(sb, s)
  {
    ZoneMapIsWritten(sb, s, held);
    InodeMapIsWritten(sb, s, held);
    var now := Unmounted(sb, s, held).disk;
    MapFoundWhen(now, s.disk, sb.BlockSize(), 1, sb.zoneMapBlocks, s.bits, s.dirtyMap);
    MapFoundWhen(now, s.disk, sb.BlockSize(), InodeMapStart(sb), sb.inodeMapBlocks, s.inodeBits, s.dirtyInodeMap);
  }

  /** What a mount finds for an inode after the unmount. */
  lemma {:induction false} InodeFoundWhen(sb: Super, s: State, held: bool, ino: nat)
    requires Shaped(sb, s) && ino in s.ptrs
    ensures InodeGet(sb, Unmounted(sb, s, held).disk, sb.BlockSize(), ino) == Some(Whole(s, ino)) <==>
            InodeKept(sb, s, ino)
    ensures InodeKept(sb, s, ino) <==>
            && (0x4000 <= s.attrs[ino].mode < 0x5000 || 0x8000 <= s.attrs[ino].mode < 0x9000)
            && if ino in s.dirtyInodes then Whole(s, ino).Fits()
               else Decode(RecordOf(sb, s.disk, sb.BlockSize(), ino)) == Whole(s, ino)
  {
    AcceptedModes(s.attrs[ino].mode);
    UnmountedBlock(sb, s, held, sb.InodeBlock(ino));
    SyncedRecord(sb, sb.BlockSize(), s.disk, DirtyMaps(sb, s), DirtyRecords(sb, s), ino);
    if ino in s.dirtyInodes {
      WholeIsTyped(sb, s, ino);
      RoundTripExactWhen(Whole(s, ino));
    }
  }

  lemma {:induction false} WholeIsTyped(sb: Super, s: State, ino: nat)
    requires Shaped(sb, s) && ino in s.ptrs
    ensures Whole(s, ino).WellTyped()
  {
    assert s.attrs[ino].WellTyped();
  }

  /** The inodes of a state as one map. */
  function Inodes(s: State): (r: map<nat, Inode>)
    requires NinePointers(s.ptrs) && s.attrs.Keys == s.ptrs.Keys
    ensures r.Keys == s.ptrs.Keys
  {
    map ino | ino in s.ptrs :: Whole(s, ino)
  }

  lemma {:induction false} SameInodes(s: State, t: State)
    requires NinePointers(s.ptrs) && s.attrs.Keys == s.ptrs.Keys && NinePointers(t.ptrs) && t.attrs.Keys == t.ptrs.Keys
    ensures Inodes(s) == Inodes(t) <==> s.ptrs == t.ptrs && s.attrs == t.attrs
  {
    if Inodes(s) == Inodes(t) {
      forall ino | ino in s.ptrs
        ensures s.ptrs[ino] == t.ptrs[ino] && s.attrs[ino] == t.attrs[ino]
      {
        assert Inodes(s)[ino] == Inodes(t)[ino];
        assert s.attrs[ino] == t.attrs[ino];
      }
      assert s.ptrs.Keys == Inodes(s).Keys == Inodes(t).Keys == t.ptrs.Keys;
      SameMap(s.ptrs, t.ptrs);
      SameMap(s.attrs, t.attrs);
    }
  }

  /** A mount finds the inodes of memory exactly when it finds each of them. */
  lemma {:induction false} FoundWhen(sb: Super, s: State, disk: Disk)
    requires Shaped(sb, s)
    requires forall ino: nat {:trigger InodeKept(sb, s, ino)} :: ino in s.ptrs ==>
               (InodeGet(sb, disk, sb.BlockSize(), ino) == Some(Whole(s, ino)) <==> InodeKept(sb, s, ino))
    ensures Found(sb, disk, s.ptrs.Keys) == Inodes(s) <==> forall ino: nat :: ino in s.ptrs ==> InodeKept(sb, s, ino)
  {
    var found, was := Found(sb, disk, s.ptrs.Keys), Inodes(s);
    if found == was {
      forall ino: nat | ino in s.ptrs
        ensures InodeKept(sb, s, ino)
      {
        assert ino in found && found[ino] == was[ino];
      }
    }
    if forall ino: nat :: ino in s.ptrs ==> InodeKept(sb, s, ino) {
      forall ino: nat | ino in s.ptrs
        ensures ino in found && found[ino] == was[ino]
      {
        assert InodeKept(sb, s, ino);
      }
      SameMap(found, was);
    }
  }

  // ---------------------------------------------------------------- the whole state

  /** The volume is mounted, and memory is what it was. */
  predicate Restored(s: State, t: State) {
    t.status.Up? && t.bits == s.bits && t.inodeBits == s.inodeBits && t.ptrs == s.ptrs && t.attrs == s.attrs
  }

  /** A mount that gets past the superblock. */
  lemma {:induction false} ReloadedWhen(sb: Super, u: State)
    requires Shaped(sb, u)
    ensures Reloaded(sb, u).status.Up? <==> SuperOn(sb, u.disk) == sb
    ensures Reloaded(sb, u).disk == u.disk
    ensures SuperOn(sb, u.disk) == sb ==>
              var t := Reloaded(sb, u);
              && Inodes(t) == Found(sb, u.disk, u.ptrs.Keys)
              && t.bits == LoadedMap(u.disk, sb.BlockSize(), 1, sb.zoneMapBlocks)
              && t.inodeBits == LoadedMap(u.disk, sb.BlockSize(), InodeMapStart(sb), sb.inodeMapBlocks)
  {
    if SuperOn(sb, u.disk) == sb {
      SameMap(Inodes(Reloaded(sb, u)), Found(sb, u.disk, u.ptrs.Keys));
    }
  }

  lemma {:induction false} InodesFoundWhen(sb: Super, s: State, held: bool)
    requires Shaped(sb, s)
    ensures Found(sb, Unmounted(sb, s, held).disk, s.ptrs.Keys) == Inodes(s) <==> InodesKept(sb, s)
  {
    var now := Unmounted(sb, s, held).disk;
    forall ino: nat | ino in s.ptrs
      ensures InodeGet(sb, now, sb.BlockSize(), ino) == Some(Whole(s, ino)) <==> InodeKept(sb, s, ino)
    {
      InodeFoundWhen(sb, s, held, ino);
    }
    FoundWhen(sb, s, now);
  }

  /**
   Remounting loses nothing exactly when the state is intact: the volume comes up, and both maps, all
   pointers and all other fields are what they were.
   */
  lemma {:induction false} RemountRestoresWhen(sb: Super, s: State, held: bool)
    requires Shaped(sb, s)
    ensures Restored(s, Remounted(sb, s, held)) <==> Intact(sb, s, held)
  {
    var u := Unmounted(sb, s, held);
    UnmountedBlock(sb, s, held, 0);
    ReloadedWhen(sb, u);
    MapsFoundWhen(sb, s, held);
    InodesFoundWhen(sb, s, held);
    if SuperOn(sb, u.disk) == sb {
      SameInodes(Remounted(sb, s, held), s);
    }
  }

  /** The mount crashes the kernel exactly when the superblock that it reads has another magic number. */
  lemma {:induction false} MountCrashesWhen(sb: Super, s: State, held: bool)
    requires Shaped(sb, s) && sb.magic == MAGIC
    ensures Remounted(sb, s, held).status.Crashed? <==>
            SuperWord(if held then s.super else BlockOf(s.disk, sb.BlockSize(), 0), 0) != MAGIC
  {
    UnmountedBlock(sb, s, held, 0);
  }

  /** Right after a mount memory agrees with the device. */
  lemma {:induction false} LoadedIsKept(sb: Super, disk: Disk, inos: set<nat>)
    requires Mountable(sb, inos)
    ensures MapsKept(sb, LoadedState(sb, disk, inos)) && InodesKept(sb, LoadedState(sb, disk, inos))
  {
    var s := LoadedState(sb, disk, inos);
    LoadedMapIsKept(disk, sb.BlockSize(), 1, sb.zoneMapBlocks);
    LoadedMapIsKept(disk, sb.BlockSize(), InodeMapStart(sb), sb.inodeMapBlocks);
    forall ino: nat | ino in s.ptrs
      ensures InodeKept(sb, s, ino)
    {
      assert Whole(s, ino) == Found(sb, disk, inos)[ino];
    }
  }

  lemma {:induction false} LoadedMapIsKept(disk: Disk, size: nat, start: nat, count: nat)
    requires size > 0
    ensures |LoadedMap(disk, size, start, count)| == count * (8 * size)
    ensures MapKept(disk, size, start, count, LoadedMap(disk, size, start, count), {})
  {
    var bits := LoadedMap(disk, size, start, count);
    forall i: nat | i < count
      ensures BlockKept(disk, size, start, count, bits, {}, i)
    {
      SegmentOfFlat(LoadedBlocks(disk, size, start, count), 8 * size, i);
    }
  }

  // ---------------------------------------------------------------- what keeps a state intact

  /** Every inode is a file or directory whose fields fit its record. */
  ghost predicate AllFit(s: State)
    requires NinePointers(s.ptrs) && s.attrs.Keys == s.ptrs.Keys
  {
    forall ino: nat {:trigger Whole(s, ino)} :: ino in s.ptrs ==> Whole(s, ino).Fits() && s.attrs[ino].Fit()
  }

  lemma {:induction false} FitsWhen(s: State, ino: nat)
    requires NinePointers(s.ptrs) && ino in s.ptrs && ino in s.attrs && s.attrs[ino].Fit()
    requires forall i: nat :: i < POINTERS ==> 0 <= s.ptrs[ino][i] < TWO_32
    ensures Whole(s, ino).Fits()
  {
  }

  lemma {:induction false} FitsIsStorable(sb: Super, s: State)
    requires Shaped(sb, s) && AllFit(s)
    ensures Storable(s.ptrs)
  {
    forall ino, i: nat | ino in s.ptrs && i < POINTERS
      ensures 0 <= s.ptrs[ino][i] < TWO_32
    {
      assert Whole(s, ino).Fits();
      assert Whole(s, ino).zones[i] == s.ptrs[ino][i];
    }
  }

  /** A write-back leaves the device in agreement with memory, where the state was intact. */
  lemma {:induction false} SyncKeepsMaps(sb: Super, s: State)
    requires Shaped(sb, s) && MapsKept(sb, s)
    ensures MapsKept(sb, Synced(sb, s))
  {
    MapsFoundWhen(sb, s, false);
    MapsFoundWhen(sb, Synced(sb, s), false);
    SyncTwice(sb, s);
  }

  lemma {:induction false} SyncKeepsInodes(sb: Super, s: State)
    requires Shaped(sb, s) && InodesKept(sb, s)
    ensures InodesKept(sb, Synced(sb, s))
  {
    var t := Synced(sb, s);
    forall ino: nat | ino in t.ptrs
      ensures InodeKept(sb, t, ino)
    {
      assert InodeKept(sb, s, ino);
      InodeFoundWhen(sb, s, false, ino);
      assert Whole(t, ino) == Whole(s, ino);
    }
  }

  lemma {:induction false} NothingDirty(sb: Super, t: State)
    requires Shaped(sb, t) && t.dirtyMap == {} && t.dirtyInodeMap == {} && t.dirtyInodes == {}
    ensures DirtyMaps(sb, t) == map[] && DirtyRecords(sb, t) == map[]
  {
    assert DirtyMaps(sb, t).Keys == {};
    assert DirtyRecords(sb, t).Keys == {};
  }

  /** A second write-back changes nothing. */
  lemma {:induction false} SyncTwice(sb: Super, s: State)
    requires Shaped(sb, s)
    ensures Synced(sb, Synced(sb, s)) == Synced(sb, s)
  {
    NothingDirty(sb, Synced(sb, s));
    SyncNothing(sb, sb.BlockSize(), Synced(sb, s).disk);
  }

  /** Every block of a map that is not dirty keeps its bits, and bit 0 stays set. */
  predicate MapUpdates(n: nat, count: nat, was: seq<bool>, now: seq<bool>, wasDirty: set<nat>, dirty: set<nat>)
    requires n > 0 && count > 0 && |was| == |now| == count * n
  {
    && wasDirty <= dirty && (FirstBit(was, n, count) ==> FirstBit(now, n, count))
    && forall i: nat {:trigger Segment(now, n, count, i)} :: i < count && i !in dirty ==>
         Segment(now, n, count, i) == Segment(was, n, count, i)
  }

  lemma {:induction false} UpdateKeepsMap(disk: Disk, size: nat, start: nat, count: nat, was: seq<bool>, now: seq<bool>,
                                          wasDirty: set<nat>, dirty: set<nat>)
    requires size > 0 && count > 0 && |was| == |now| == count * (8 * size)
    requires MapUpdates(8 * size, count, was, now, wasDirty, dirty) && MapKept(disk, size, start, count, was, wasDirty)
    ensures MapKept(disk, size, start, count, now, dirty)
  {
    forall i: nat | i < count
      ensures BlockKept(disk, size, start, count, now, dirty, i)
    {
      assert BlockKept(disk, size, start, count, was, wasDirty, i);
      if i == 0 && i in dirty && i !in wasDirty {
        assert LoadedBlock(disk, size, start, 0)[0];
      }
    }
  }

  /** Both maps change in dirty blocks only. */
  predicate MapsUpdate(sb: Super, s: State, t: State)
    requires Shaped(sb, s) && Shaped(sb, t)
  {
    && t.disk == s.disk
    && MapUpdates(8 * sb.BlockSize(), sb.zoneMapBlocks, s.bits, t.bits, s.dirtyMap, t.dirtyMap)
    && MapUpdates(8 * sb.BlockSize(), sb.inodeMapBlocks, s.inodeBits, t.inodeBits, s.dirtyInodeMap, t.dirtyInodeMap)
  }

  lemma {:induction false} UpdateKeepsMaps(sb: Super, s: State, t: State)
    requires Shaped(sb, s) && Shaped(sb, t) && MapsKept(sb, s) && MapsUpdate(sb, s, t)
    ensures MapsKept(sb, t)
  {
    var size := sb.BlockSize();
    UpdateKeepsMap(s.disk, size, 1, sb.zoneMapBlocks, s.bits, t.bits, s.dirtyMap, t.dirtyMap);
    UpdateKeepsMap(s.disk, size, InodeMapStart(sb), sb.inodeMapBlocks, s.inodeBits, t.inodeBits, s.dirtyInodeMap,
                   t.dirtyInodeMap);
  }

  lemma {:induction false} SameMapUpdates(n: nat, count: nat, bits: seq<bool>, dirty: set<nat>)
    requires n > 0 && count > 0 && |bits| == count * n
    ensures MapUpdates(n, count, bits, bits, dirty, dirty)
  {
  }

  /** These inodes are created or changed in memory, and are dirty afterwards. */
  predicate InodesUpdate(sb: Super, s: State, t: State, changed: set<nat>)
    requires Shaped(sb, s) && Shaped(sb, t)
  {
    && t.disk == s.disk && changed <= t.dirtyInodes && t.dirtyInodes <= s.dirtyInodes + changed
    && s.dirtyInodes <= t.dirtyInodes
    && t.ptrs.Keys == s.ptrs.Keys + changed
    && (forall n :: n in s.ptrs && n !in changed ==> t.ptrs[n] == s.ptrs[n] && t.attrs[n] == s.attrs[n])
    && (forall n :: n in changed ==> Whole(t, n).Fits() && t.attrs[n].Fit())
  }

  lemma {:induction false} UpdateKeepsInodes(sb: Super, s: State, t: State, changed: set<nat>)
    requires Shaped(sb, s) && Shaped(sb, t) && InodesKept(sb, s) && InodesUpdate(sb, s, t, changed)
    ensures InodesKept(sb, t)
  {
    forall n: nat | n in t.ptrs
      ensures InodeKept(sb, t, n)
    {
      if n !in changed {
        assert InodeKept(sb, s, n);
        assert Whole(t, n) == Whole(s, n);
      }
    }
  }

  lemma {:induction false} OtherBlockSame(disk: Disk, size: nat, b: int, data: Data, c: int)
    requires c != b
    ensures BlockOf(disk[b := data], size, c) == BlockOf(disk, size, c)
  {
  }

  /** Taking a bit leaves every map block as it was but the one that holds the bit. */
  lemma {:induction false} OtherSegments(bits: seq<bool>, n: nat, count: nat, f: nat, i: nat)
    requires n > 0 && |bits| == count * n && f < |bits| && i < count && i != f / n
    ensures Segment(bits[f := true], n, count, i) == Segment(bits, n, count, i)
  {
    var was, now := Segment(bits, n, count, i), Segment(bits[f := true], n, count, i);
    forall j: nat | j < n
      ensures now[j] == was[j]
    {
      SegmentAt(bits, n, count, i, j);
      SegmentAt(bits[f := true], n, count, i, j);
      if i * n + j == f {
        DivModUnique(f, n, i, j);
      }
    }
  }
}
