/**
 What keeps a volume good: the invariant of a mounted volume, the operations that keep it, and exactly
 when a read or write that fills a pointer does not.
 */
module FileRuns {
  import opened Numbers
  import opened FirstFit
  import opened Layout
  import opened Metadata
  import opened FileStore
  import opened Persistence
  import opened Damage

  /** Live inodes have numbers that are taken, and bit 0 is. */
  ghost predicate NumbersTaken(s: State) {
    && |s.inodeBits| > 0 && s.inodeBits[0]
    && forall n: nat {:trigger n in s.ptrs} :: n in s.ptrs ==> n < |s.inodeBits| && s.inodeBits[n]
  }

  /** The invariant of a mounted volume: zones are owned once, and a remount would lose nothing. */
  ghost predicate Good(sb: Super, root: nat, s: State) {
    && Geometry(sb) && Shaped(sb, s) && s.status.Up? && Inv(sb, root, s) && NumbersTaken(s)
    && MapsKept(sb, s) && InodesKept(sb, s) && SuperKept(sb, s, true) && SuperKept(sb, s, false) && AllFit(s)
  }

  lemma {:induction false} GoodIsIntact(sb: Super, root: nat, s: State, held: bool)
    requires Good(sb, root, s)
    ensures Intact(sb, s, held)
  {
  }

  // ---------------------------------------------------------------- steps that keep it

  lemma {:induction false} OnlyMemoryMatters(sb: Super, root: nat, s: State, t: State)
    requires sb.Valid() && Inv(sb, root, s) && t.bits == s.bits && t.ptrs == s.ptrs
    ensures Inv(sb, root, t)
  {
  }

  lemma {:induction false} SameAttrsFit(s: State, t: State)
    requires NinePointers(s.ptrs) && s.attrs.Keys == s.ptrs.Keys && AllFit(s) && t.ptrs == s.ptrs && t.attrs == s.attrs
    ensures AllFit(t)
  {
    forall ino: nat | ino in t.ptrs
      ensures Whole(t, ino).Fits() && t.attrs[ino].Fit()
    {
      assert Whole(s, ino).Fits();
    }
  }

  /** Some inodes are created or changed, and fit. */
  lemma {:induction false} UpdateFits(sb: Super, s: State, t: State, changed: set<nat>)
    requires Shaped(sb, s) && Shaped(sb, t) && AllFit(s) && InodesUpdate(sb, s, t, changed)
    ensures AllFit(t)
  {
    forall n: nat | n in t.ptrs
      ensures Whole(t, n).Fits() && t.attrs[n].Fit()
    {
      if n !in changed {
        assert Whole(s, n).Fits();
        assert Whole(t, n) == Whole(s, n);
      }
    }
  }

  /** A change of memory only, in dirty map blocks and dirty inodes. */
  predicate Updates(sb: Super, s: State, t: State, changed: set<nat>)
    requires Shaped(sb, s) && Shaped(sb, t)
  {
    MapsUpdate(sb, s, t) && InodesUpdate(sb, s, t, changed) && t.super == s.super && t.status == s.status
  }

  lemma {:induction false} UpdateKeepsGood(sb: Super, root: nat, s: State, t: State, changed: set<nat>)
    requires Good(sb, root, s) && Shaped(sb, t) && Updates(sb, s, t, changed) && Inv(sb, root, t) && NumbersTaken(t)
    ensures Good(sb, root, t)
  {
    UpdateKeepsMaps(sb, s, t);
    UpdateKeepsInodes(sb, s, t, changed);
    UpdateFits(sb, s, t, changed);
  }

  lemma {:induction false} SameMaps(sb: Super, s: State, t: State)
    requires Shaped(sb, s) && Shaped(sb, t) && t.disk == s.disk
    requires t.bits == s.bits && t.inodeBits == s.inodeBits && t.dirtyMap == s.dirtyMap
    requires t.dirtyInodeMap == s.dirtyInodeMap
    ensures MapsUpdate(sb, s, t)
  {
  }

  /** Taking the first free bit of a map, and marking the block that holds it. */
  lemma {:induction false} AllocUpdates(sb: Super, count: nat, bits: seq<bool>, dirty: set<nat>)
    requires sb.BlockSize() > 0 && count > 0 && |bits| == count * (8 * sb.BlockSize())
    ensures MapUpdates(8 * sb.BlockSize(), count, bits, Alloc(bits).0, dirty, dirty + Touched(sb, bits))
  {
    var n, now := 8 * sb.BlockSize(), Alloc(bits).0;
    var f := FirstFree(bits);
    SegmentAt(bits, n, count, 0, 0);
    SegmentAt(now, n, count, 0, 0);
    if f < |bits| {
      forall i: nat | i < count && i !in dirty + Touched(sb, bits)
        ensures Segment(now, n, count, i) == Segment(bits, n, count, i)
      {
        OtherSegments(bits, n, count, f, i);
      }
    }
  }

  // ---------------------------------------------------------------- creating and changing inodes

  lemma {:induction false} CreateKeepsInv(sb: Super, root: nat, s: State, t: State, ino: nat)
    requires sb.Valid() && Inv(sb, root, s) && ino !in s.ptrs
    requires t.bits == s.bits && t.ptrs == s.ptrs[ino := [0, 0, 0, 0, 0, 0, 0, 0, 0]]
    ensures Inv(sb, root, t)
  {
    forall n: nat, i: nat | Owns(t.ptrs, n, i)
      ensures Owns(s.ptrs, n, i) && t.ptrs[n][i] == s.ptrs[n][i]
    {
    }
  }

  lemma {:induction false} TakeKeepsGood(sb: Super, root: nat, s: State)
    requires Good(sb, root, s)
    ensures Good(sb, root, Took(sb, s, Touched(sb, s.inodeBits)))
  {
    var t := Took(sb, s, Touched(sb, s.inodeBits));
    AllocUpdates(sb, sb.inodeMapBlocks, s.inodeBits, s.dirtyInodeMap);
    SameMapUpdates(8 * sb.BlockSize(), sb.zoneMapBlocks, s.bits, s.dirtyMap);
    OnlyMemoryMatters(sb, root, s, t);
    TakeKeepsNumbers(s.inodeBits, t.inodeBits);
    UpdateKeepsGood(sb, root, s, t, {});
  }

  lemma {:induction false} TakeKeepsNumbers(was: seq<bool>, now: seq<bool>)
    requires now == Alloc(was).0
    ensures |now| == |was| && forall n: nat :: n < |was| && was[n] ==> now[n]
  {
  }

  lemma {:induction false} BirthUpdates(sb: Super, s: State, n: nat, attrs: Attrs)
    requires Shaped(sb, s) && attrs.Fit() && Usable(sb, n) && n !in s.ptrs
    ensures Updates(sb, s, Born(sb, s, n, attrs), {n})
  {
    var t := Born(sb, s, n, attrs);
    FitsWhen(t, n);
    SameMaps(sb, s, t);
  }

  lemma {:induction false} BirthKeepsNumbers(sb: Super, s: State, n: nat, attrs: Attrs)
    requires Shaped(sb, s) && Usable(sb, n) && NumbersTaken(s) && n < |s.inodeBits| && s.inodeBits[n]
    ensures NumbersTaken(Born(sb, s, n, attrs))
  {
  }

  lemma {:induction false} BirthKeepsGood(sb: Super, root: nat, s: State, n: nat, attrs: Attrs)
    requires Good(sb, root, s) && attrs.Fit() && Usable(sb, n) && n !in s.ptrs && n < |s.inodeBits| && s.inodeBits[n]
    ensures Good(sb, root, Born(sb, s, n, attrs))
  {
    BirthUpdates(sb, s, n, attrs);
    BirthKeepsNumbers(sb, s, n, attrs);
    CreateKeepsInv(sb, root, s, Born(sb, s, n, attrs), n);
    UpdateKeepsGood(sb, root, s, Born(sb, s, n, attrs), {n});
  }

  lemma {:induction false} CreateKeepsGood(sb: Super, root: nat, s: State, attrs: Attrs)
    requires Good(sb, root, s) && attrs.Fit()
    ensures Good(sb, root, Created(sb, s, attrs))
  {
    TakeKeepsGood(sb, root, s);
    var t, number := Took(sb, s, Touched(sb, s.inodeBits)), Alloc(s.inodeBits).1;
    if number.Some? && number.value !in s.ptrs && Usable(sb, number.value) {
      BirthKeepsGood(sb, root, t, number.value, attrs);
    }
  }

  lemma {:induction false} ChangeUpdates(sb: Super, s: State, ino: nat, attrs: Attrs)
    requires Shaped(sb, s) && AllFit(s) && ino in s.ptrs && attrs.Fit()
    ensures Updates(sb, s, Changed(sb, s, ino, attrs), {ino})
  {
    var t := Changed(sb, s, ino, attrs);
    FitsIsStorable(sb, s);
    FitsWhen(t, ino);
    SameMaps(sb, s, t);
    assert t.ptrs.Keys == s.ptrs.Keys + {ino};
  }

  lemma {:induction false} ChangeKeepsGood(sb: Super, root: nat, s: State, ino: nat, attrs: Attrs)
    requires Good(sb, root, s) && (ino in s.ptrs ==> attrs.Fit())
    ensures Good(sb, root, Changed(sb, s, ino, attrs))
  {
    if ino in s.ptrs {
      ChangeUpdates(sb, s, ino, attrs);
      OnlyMemoryMatters(sb, root, s, Changed(sb, s, ino, attrs));
      UpdateKeepsGood(sb, root, s, Changed(sb, s, ino, attrs), {ino});
    }
  }

  // ---------------------------------------------------------------- reads and writes

  lemma {:induction false} MarkUpdates(sb: Super, s: State, ino: nat)
    requires Shaped(sb, s) && AllFit(s) && ino in s.ptrs
    ensures Updates(sb, s, Marked(sb, s, ino), {ino})
  {
    var t := Marked(sb, s, ino);
    assert Whole(s, ino).Fits() && Whole(t, ino) == Whole(s, ino);
    SameMaps(sb, s, t);
    assert t.ptrs.Keys == s.ptrs.Keys + {ino};
  }

  lemma {:induction false} MarkKeepsGood(sb: Super, root: nat, s: State, ino: nat)
    requires Good(sb, root, s) && ino in s.ptrs
    ensures Good(sb, root, Marked(sb, s, ino))
  {
    MarkUpdates(sb, s, ino);
    OnlyMemoryMatters(sb, root, s, Marked(sb, s, ino));
    UpdateKeepsGood(sb, root, s, Marked(sb, s, ino), {ino});
  }

  /** An empty pointer of an inode that is dirty afterwards has received a zone. */
  predicate Fills(sb: Super, s: State, t: State, ino: nat, idx: nat)
    requires sb.Valid() && sb.BlockSize() > 0 && NinePointers(s.ptrs)
  {
    && ino in s.ptrs && idx < POINTERS && !Full(s.bits) && ino in t.dirtyInodes
    && s.dirtyInodes <= t.dirtyInodes <= s.dirtyInodes + {ino}
    && t == s.(bits := Alloc(s.bits).0, ptrs := s.ptrs[ino := s.ptrs[ino][idx := sb.ZoneStart(FirstFree(s.bits))]],
               dirtyMap := s.dirtyMap + Touched(sb, s.bits), dirtyInodes := t.dirtyInodes)
  }

  lemma {:induction false} FillFits(sb: Super, s: State, t: State, ino: nat, idx: nat)
    requires Shaped(sb, s) && Shaped(sb, t) && AllFit(s) && Fills(sb, s, t, ino, idx)
    requires 0 <= sb.ZoneStart(FirstFree(s.bits)) < TWO_32
    ensures InodesUpdate(sb, s, t, {ino})
  {
    assert t.ptrs.Keys == s.ptrs.Keys + {ino};
    assert Whole(s, ino).Fits();
    FitsIsStorable(sb, s);
    FitsWhen(t, ino);
  }

  lemma {:induction false} FillKeepsGood(sb: Super, root: nat, s: State, t: State, ino: nat, idx: nat)
    requires Good(sb, root, s) && Shaped(sb, t) && Inv(sb, root, t) && Fills(sb, s, t, ino, idx)
    requires 0 <= sb.ZoneStart(FirstFree(s.bits)) < TWO_32
    ensures Good(sb, root, t)
  {
    FillFits(sb, s, t, ino, idx);
    AllocUpdates(sb, sb.zoneMapBlocks, s.bits, s.dirtyMap);
    SameMapUpdates(8 * sb.BlockSize(), sb.inodeMapBlocks, s.inodeBits, s.dirtyInodeMap);
    UpdateKeepsGood(sb, root, s, t, {ino});
  }

  /** A mapping either changes nothing or fills an empty pointer. */
  lemma {:induction false} MapFills(sb: Super, root: nat, s: State, ino: nat, iblock: nat, beyond: int, marks: bool)
    requires Geometry(sb) && Shaped(sb, s) && Inv(sb, root, s) && ino in s.ptrs
    requires MapFile(sb, s, ino, iblock, beyond).0 != s && (marks || ino in s.dirtyInodes)
    ensures !Full(s.bits) && 0 <= sb.ZoneStart(FirstFree(s.bits)) < TWO_32
    ensures Index(sb, sb.BlockSize(), iblock) < POINTERS
    ensures Fills(sb, s, MarkedIf(sb, MapFile(sb, s, ino, iblock, beyond).0, ino, marks), ino,
                  Index(sb, sb.BlockSize(), iblock))
  {
    if Full(s.bits) {
      FullMapChangesNothing(sb, s, ino, iblock, beyond);
    } else {
      FreshZone(sb, root, s);
      ZoneNumberRange(sb, FirstFree(s.bits));
    }
  }

  /** The inode of a filled pointer is dirty afterwards. */
  predicate KeepsMark(sb: Super, s: State, ino: nat, iblock: nat, beyond: int, marks: bool)
    requires Shaped(sb, s) && ino in s.ptrs
  {
    marks || ino in s.dirtyInodes || MapFile(sb, s, ino, iblock, beyond).0 == s
  }

  lemma {:induction false} MapKeepsGood(sb: Super, root: nat, s: State, ino: nat, iblock: nat, beyond: int, marks: bool)
    requires Good(sb, root, s) && ino in s.ptrs && KeepsMark(sb, s, ino, iblock, beyond, marks)
    ensures Good(sb, root, MarkedIf(sb, MapFile(sb, s, ino, iblock, beyond).0, ino, marks))
  {
    var s1 := MapFile(sb, s, ino, iblock, beyond).0;
    if s1 == s {
      MarkKeepsGood(sb, root, s, ino);
    } else {
      MapFills(sb, root, s, ino, iblock, beyond, marks);
      GetBlockKeepsInv(sb, root, s, ino, iblock, beyond);
      var t := MarkedIf(sb, s1, ino, marks);
      OnlyMemoryMatters(sb, root, s1, t);
      FillKeepsGood(sb, root, s, t, ino, Index(sb, sb.BlockSize(), iblock));
    }
  }

  lemma {:induction false} StoreKeepsGood(sb: Super, root: nat, s: State, b: int, data: Data)
    requires Good(sb, root, s) && SafeTarget(sb, s, b, false)
    ensures Good(sb, root, Stored(sb, s, b, data))
  {
    SafeStoreKeeps(sb, s, b, data, false);
    SafeStoreKeeps(sb, s, b, data, true);
    OnlyMemoryMatters(sb, root, s, Stored(sb, s, b, data));
    SameAttrsFit(s, Stored(sb, s, b, data));
  }

  // ---------------------------------------------------------------- write-back and remount

  lemma {:induction false} SyncKeepsGood(sb: Super, root: nat, s: State)
    requires Good(sb, root, s)
    ensures Good(sb, root, Synced(sb, s))
  {
    SyncKeepsMaps(sb, s);
    SyncKeepsInodes(sb, s);
    SyncedMap(sb, sb.BlockSize(), s.disk, DirtyMaps(sb, s), DirtyRecords(sb, s), 0);
    OnlyMemoryMatters(sb, root, s, Synced(sb, s));
    SameAttrsFit(s, Synced(sb, s));
  }

  /** A remount of a good volume: memory is as it was, and the device is as the unmount left it. */
  lemma {:induction false} RemountIsUnmount(sb: Super, root: nat, s: State, held: bool)
    requires Good(sb, root, s)
    ensures var u := Unmounted(sb, s, held);
            Remounted(sb, s, held) == u.(super := BlockOf(u.disk, sb.BlockSize(), 0))
  {
    GoodIsIntact(sb, root, s, held);
    RemountRestoresWhen(sb, s, held);
    UnmountedBlock(sb, s, held, 0);
  }

  lemma {:induction false} RemountKeepsGood(sb: Super, root: nat, s: State, held: bool)
    requires Good(sb, root, s)
    ensures Good(sb, root, Remounted(sb, s, held))
  {
    SyncKeepsGood(sb, root, s);
    var t := Synced(sb, s);
    StoreKeepsGoodSuper(sb, root, t, held);
    RemountIsUnmount(sb, root, s, held);
    UnmountedBlock(sb, s, held, 0);
    var u := Unmounted(sb, s, held);
    SuperBufferIsFree(sb, root, u, BlockOf(u.disk, sb.BlockSize(), 0));
  }

  /** Writing the superblock buffer of a good volume. */
  lemma {:induction false} StoreKeepsGoodSuper(sb: Super, root: nat, s: State, held: bool)
    requires Good(sb, root, s)
    ensures Good(sb, root, if held then s.(disk := s.disk[0 := s.super]) else s)
  {
    var t := Stored(sb, s, 0, s.super);
    SafeStoreKeeps(sb, s, 0, s.super, true);
    OnlyMemoryMatters(sb, root, s, t);
    SameAttrsFit(s, t);
    assert BlockOf(t.disk, sb.BlockSize(), 0) == s.super;
  }

  /** The superblock buffer may hold anything that decodes alike. */
  lemma {:induction false} SuperBufferIsFree(sb: Super, root: nat, s: State, image: Data)
    requires Good(sb, root, s) && |image| == sb.BlockSize() && DecodeSuper(image, 0) == sb
    ensures Good(sb, root, s.(super := image))
  {
    var t := s.(super := image);
    assert Shaped(sb, t);
    OnlyMemoryMatters(sb, root, s, t);
    SameAttrsFit(s, t);
    SameMaps(sb, s, t);
    UpdateKeepsMaps(sb, s, t);
    UpdateKeepsInodes(sb, s, t, {});
  }

  // ---------------------------------------------------------------- harmless operations

  /**
   The operation does no harm to what a remount needs: fields fit the record, a filled pointer leaves
   its inode dirty, and a write goes where no mount reads.
   */
  predicate Harmless(sb: Super, s: State, op: Op)
    requires Shaped(sb, s)
  {
    match op
    case Create(attrs) => attrs.Fit()
    case SetAttrs(ino, attrs) => ino in s.ptrs ==> attrs.Fit()
    case Write(ino, iblock, _, beyond, marks) =>
      ino in s.ptrs ==>
        var (s1, m) := MapFile(sb, s, ino, iblock, beyond);
        m.Mapped? ==>
          && KeepsMark(sb, s, ino, iblock, beyond, marks)
          && SafeTarget(sb, MarkedIf(sb, s1, ino, marks), m.block, false)
    case Read(ino, iblock, beyond, marks) => ino in s.ptrs ==> KeepsMark(sb, s, ino, iblock, beyond, marks)
    case Sync => true
    case Remount(_) => true
  }

  lemma {:induction false} RefusedChangesNothing(sb: Super, s: State, ino: nat, iblock: nat, beyond: int)
    requires Shaped(sb, s) && ino in s.ptrs && MapFile(sb, s, ino, iblock, beyond).1.Eio?
    ensures MapFile(sb, s, ino, iblock, beyond).0 == s
  {
  }

  lemma {:induction false} StepKeepsGood(sb: Super, root: nat, s: State, op: Op)
    requires Good(sb, root, s) && Harmless(sb, s, op)
    ensures Good(sb, root, Step(sb, s, op).0)
  {
    match op
    case Create(attrs) => CreateKeepsGood(sb, root, s, attrs);
    case SetAttrs(ino, attrs) => ChangeKeepsGood(sb, root, s, ino, attrs);
    case Write(ino, iblock, data, beyond, marks) =>
      if ino in s.ptrs {
        WriteKeepsGood(sb, root, s, op);
      }
    case Read(ino, iblock, beyond, marks) =>
      if ino in s.ptrs {
        MapKeepsGood(sb, root, s, ino, iblock, beyond, marks);
      }
    case Sync => SyncKeepsGood(sb, root, s);
    case Remount(held) => RemountKeepsGood(sb, root, s, held);
  }

  lemma {:induction false} WriteKeepsGood(sb: Super, root: nat, s: State, op: Op)
    requires Good(sb, root, s) && op.Write? && op.ino in s.ptrs && Harmless(sb, s, op)
    ensures Good(sb, root, Step(sb, s, op).0)
  {
    var (s1, m) := MapFile(sb, s, op.ino, op.iblock, op.beyond);
    if m.Eio? {
      RefusedChangesNothing(sb, s, op.ino, op.iblock, op.beyond);
    } else {
      MapKeepsGood(sb, root, s, op.ino, op.iblock, op.beyond, op.marks);
      StoreKeepsGood(sb, root, MarkedIf(sb, s1, op.ino, op.marks), m.block, op.data);
    }
  }

  /** Operation `i` is harmless in the state that it meets. */
  predicate HarmlessAt(sb: Super, ss: seq<State>, ops: seq<Op>, i: nat)
    requires i < |ops| < |ss|
  {
    Shaped(sb, ss[i]) && Harmless(sb, ss[i], ops[i])
  }

  lemma {:induction false} NextIsGood(sb: Super, root: nat, ss: seq<State>, ops: seq<Op>, i: nat)
    requires i < |ops| < |ss| && Good(sb, root, ss[i]) && StepAt(sb, ss, ops, i) && HarmlessAt(sb, ss, ops, i)
    ensures Good(sb, root, ss[i + 1])
  {
    StepKeepsGood(sb, root, ss[i], ops[i]);
  }

  /** Over every run of harmless operations the volume stays good, so every remount in it loses nothing. */
  lemma {:induction false} HarmlessRunsAreGood(sb: Super, root: nat, ss: seq<State>, ops: seq<Op>, n: nat)
    requires IsRun(sb, ss, ops) && Good(sb, root, ss[0]) && n <= |ops|
    requires forall i: nat {:trigger HarmlessAt(sb, ss, ops, i)} :: i < n ==> HarmlessAt(sb, ss, ops, i)
    ensures Good(sb, root, ss[n])
  {
    if n > 0 {
      HarmlessRunsAreGood(sb, root, ss, ops, n - 1);
      assert StepAt(sb, ss, ops, n - 1) && HarmlessAt(sb, ss, ops, n - 1);
      NextIsGood(sb, root, ss, ops, n - 1);
    }
  }

  // ---------------------------------------------------------------- exactly when a filled pointer is lost

  /** A clean inode whose pointer has changed in memory only. */
  lemma {:induction false} StaleRecord(sb: Super, s: State, t: State, ino: nat, idx: nat)
    requires Shaped(sb, s) && Shaped(sb, t) && ino in s.ptrs && ino in t.ptrs && InodeKept(sb, s, ino) && idx < POINTERS
    requires ino !in s.dirtyInodes && ino !in t.dirtyInodes && s.ptrs[ino][idx] != t.ptrs[ino][idx]
    requires BlockOf(t.disk, sb.BlockSize(), sb.InodeBlock(ino)) == BlockOf(s.disk, sb.BlockSize(), sb.InodeBlock(ino))
    ensures !InodesKept(sb, t)
  {
    assert Whole(s, ino).zones[idx] != Whole(t, ino).zones[idx];
    assert !InodeKept(sb, t, ino);
  }

  /** Within nine zones a mapping changes memory exactly when the pointer is empty and there is a free zone. */
  lemma {:induction false} MapChangesWhen(sb: Super, root: nat, s: State, ino: nat, iblock: nat, beyond: int)
    requires Geometry(sb) && Shaped(sb, s) && Inv(sb, root, s) && ino in s.ptrs && InRange(sb, iblock)
    ensures var t, idx := MapFile(sb, s, ino, iblock, beyond).0, IndexOf(sb, iblock);
            && (t == s <==> s.ptrs[ino][idx] != 0 || Full(s.bits))
            && (t != s ==> ino in t.ptrs && t.ptrs[ino][idx] != s.ptrs[ino][idx])
            && t.dirtyInodes == s.dirtyInodes && t.disk == s.disk
  {
    PositionInRange(sb, iblock);
    if Full(s.bits) {
      FullMapChangesNothing(sb, s, ino, iblock, beyond);
    } else {
      FreshZone(sb, root, s);
    }
  }

  /** The condition, known before the call, under which a filled pointer survives. */
  predicate PointerIsKept(sb: Super, s: State, ino: nat, iblock: nat, marks: bool)
    requires sb.Valid() && ino in s.ptrs && NinePointers(s.ptrs) && InRange(sb, iblock)
  {
    marks || s.ptrs[ino][IndexOf(sb, iblock)] != 0 || Full(s.bits) || ino in s.dirtyInodes
  }

  lemma {:induction false} KeepsMarkWhen(sb: Super, root: nat, s: State, ino: nat, iblock: nat, beyond: int,
                                         marks: bool)
    requires Geometry(sb) && Shaped(sb, s) && Inv(sb, root, s) && ino in s.ptrs && InRange(sb, iblock)
    ensures KeepsMark(sb, s, ino, iblock, beyond, marks) <==> PointerIsKept(sb, s, ino, iblock, marks)
  {
    MapChangesWhen(sb, root, s, ino, iblock, beyond);
  }

  /**
   A read leaves the volume good, and so every remount lossless, exactly when it leaves its inode marked, or
   the pointer was set, or there was no zone to give it, or the inode was dirty anyway.
   */
  lemma {:induction false} ReadIsHarmlessWhen(sb: Super, root: nat, s: State, ino: nat, iblock: nat, beyond: int,
                                              marks: bool, held: bool)
    requires Good(sb, root, s) && ino in s.ptrs && InRange(sb, iblock)
    ensures Intact(sb, Step(sb, s, Read(ino, iblock, beyond, marks)).0, held) <==>
            PointerIsKept(sb, s, ino, iblock, marks)
  {
    var op := Read(ino, iblock, beyond, marks);
    KeepsMarkWhen(sb, root, s, ino, iblock, beyond, marks);
    if PointerIsKept(sb, s, ino, iblock, marks) {
      StepKeepsGood(sb, root, s, op);
      GoodIsIntact(sb, root, Step(sb, s, op).0, held);
    } else {
      MapChangesWhen(sb, root, s, ino, iblock, beyond);
      assert InodeKept(sb, s, ino);
      StaleRecord(sb, s, MapFile(sb, s, ino, iblock, beyond).0, ino, IndexOf(sb, iblock));
    }
  }

  /** The same for a write that finds or is given its zone. */
  lemma {:induction false} WriteIsHarmlessWhen(sb: Super, root: nat, s: State, ino: nat, iblock: nat, data: Data,
                                               beyond: int, marks: bool, held: bool)
    requires Good(sb, root, s) && ino in s.ptrs && Covered(sb, s, ino, iblock)
    ensures Intact(sb, Step(sb, s, Write(ino, iblock, data, beyond, marks)).0, held) <==>
            PointerIsKept(sb, s, ino, iblock, marks)
  {
    KeepsMarkWhen(sb, root, s, ino, iblock, beyond, marks);
    CoveredTarget(sb, root, s, ino, iblock, beyond);
    if PointerIsKept(sb, s, ino, iblock, marks) {
      WriteKeepsGood(sb, root, s, Write(ino, iblock, data, beyond, marks));
      GoodIsIntact(sb, root, Step(sb, s, Write(ino, iblock, data, beyond, marks)).0, held);
    } else {
      LostWrite(sb, root, s, ino, iblock, data, beyond);
      WriteStep(sb, s, Write(ino, iblock, data, beyond, marks));
    }
  }

  /** A covered mapping leads above the metadata. */
  lemma {:induction false} CoveredTarget(sb: Super, root: nat, s: State, ino: nat, iblock: nat, beyond: int)
    requires Good(sb, root, s) && ino in s.ptrs && Covered(sb, s, ino, iblock)
    ensures MapFile(sb, s, ino, iblock, beyond).1.Mapped?
    ensures MapFile(sb, s, ino, iblock, beyond).1.block >= sb.MetaBlocks()
  {
    FitsIsStorable(sb, s);
    GetBlockReachesDataWhen(sb, root, s, ino, iblock, beyond);
  }

  lemma {:induction false} WriteStep(sb: Super, s: State, op: Op)
    requires Shaped(sb, s) && s.status.Up? && op.Write? && op.ino in s.ptrs
    requires MapFile(sb, s, op.ino, op.iblock, op.beyond).1.Mapped?
    ensures var (s1, m) := MapFile(sb, s, op.ino, op.iblock, op.beyond);
            Step(sb, s, op).0 == Stored(sb, MarkedIf(sb, s1, op.ino, op.marks), m.block, op.data)
  {
  }

  lemma {:induction false} LostWrite(sb: Super, root: nat, s: State, ino: nat, iblock: nat, data: Data, beyond: int)
    requires Geometry(sb) && Shaped(sb, s) && Inv(sb, root, s) && InodesKept(sb, s) && ino in s.ptrs
    requires InRange(sb, iblock)
    requires !PointerIsKept(sb, s, ino, iblock, false)
    requires var (_, m) := MapFile(sb, s, ino, iblock, beyond); m.Mapped? && m.block >= sb.MetaBlocks()
    ensures var (s1, m) := MapFile(sb, s, ino, iblock, beyond);
            !InodesKept(sb, Stored(sb, s1, m.block, data))
  {
    MapChangesWhen(sb, root, s, ino, iblock, beyond);
    var (s1, m) := MapFile(sb, s, ino, iblock, beyond);
    assert InodeKept(sb, s, ino);
    OtherBlockSame(s.disk, sb.BlockSize(), m.block, data, sb.InodeBlock(ino));
    StaleRecord(sb, s, Stored(sb, s1, m.block, data), ino, IndexOf(sb, iblock));
  }

  // ---------------------------------------------------------------- starved writes

  /** Without a zone to give, a write goes to the first blocks of the device. */
  lemma {:induction false} StarvedWrite(sb: Super, root: nat, s: State, ino: nat, iblock: nat, data: Data,
                                        beyond: int, marks: bool)
    requires Good(sb, root, s) && ino in s.ptrs && InRange(sb, iblock) && !Covered(sb, s, ino, iblock)
    ensures Step(sb, s, Write(ino, iblock, data, beyond, marks)).0 ==
            Stored(sb, MarkedIf(sb, s, ino, marks), iblock % sb.blocksPerZone, data)
  {
    FitsIsStorable(sb, s);
    GetBlockReachesDataWhen(sb, root, s, ino, iblock, beyond);
    WriteStep(sb, s, Write(ino, iblock, data, beyond, marks));
  }

  /** A starved write does no damage, whatever is written, exactly when the block that it goes to is not read back. */
  lemma {:induction false} StarvedWriteIsHarmlessWhen(sb: Super, root: nat, s: State, ino: nat, iblock: nat,
                                                      beyond: int, marks: bool, held: bool)
    requires Good(sb, root, s) && ino in s.ptrs && InRange(sb, iblock) && !Covered(sb, s, ino, iblock)
    ensures (forall data: Data :: Intact(sb, Step(sb, s, Write(ino, iblock, data, beyond, marks)).0, held)) <==>
            SafeTarget(sb, MarkedIf(sb, s, ino, marks), iblock % sb.blocksPerZone, held)
  {
    var s1, b := MarkedIf(sb, s, ino, marks), iblock % sb.blocksPerZone;
    MarkKeepsGood(sb, root, s, ino);
    GoodIsIntact(sb, root, s1, held);
    forall data: Data
      ensures Step(sb, s, Write(ino, iblock, data, beyond, marks)).0 == Stored(sb, s1, b, data)
    {
      StarvedWrite(sb, root, s, ino, iblock, data, beyond, marks);
    }
    if SafeTarget(sb, s1, b, held) {
      forall data: Data
        ensures Intact(sb, Step(sb, s, Write(ino, iblock, data, beyond, marks)).0, held)
      {
        SafeStoreKeeps(sb, s1, b, data, held);
      }
    } else {
      var data := UnsafeStoreHarms(sb, s1, b, held);
      assert !Intact(sb, Step(sb, s, Write(ino, iblock, data, beyond, marks)).0, held);
    }
  }
}
