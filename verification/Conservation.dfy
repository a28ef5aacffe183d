/**
 Conservation of zones over runs, also runs that are starved of zones: set bits and owned pointers
 grow together. The one step that can break it is a remount that finds its metadata damaged.
 */
module Conservation {
  import opened Numbers
  import opened FirstFit
  import opened Layout
  import opened FileStore
  import opened Persistence
  import opened FileRuns

  function SetBits(bits: seq<bool>): (r: set<nat>) {
    set j: nat | j < |bits| && bits[j]
  }

  /** The (inode, pointer) pairs that hold a zone. */
  function Owned(ptrs: map<nat, seq<int>>): (r: set<(nat, nat)>)
    requires NinePointers(ptrs)
  {
    set n, i: nat | n in ptrs && i < POINTERS && ptrs[n][i] != 0 :: (n, i)
  }

  lemma {:induction false} OwnedWhen(ptrs: map<nat, seq<int>>, n: nat, i: nat)
    requires NinePointers(ptrs)
    ensures (n, i) in Owned(ptrs) <==> Owns(ptrs, n, i)
  {
  }

  /** The same pointers hold zones. */
  lemma {:induction false} SameOwned(was: map<nat, seq<int>>, now: map<nat, seq<int>>)
    requires NinePointers(was) && NinePointers(now) && forall n: nat, i: nat :: Owns(now, n, i) <==> Owns(was, n, i)
    ensures Owned(now) == Owned(was)
  {
    forall n: nat, i: nat
      ensures (n, i) in Owned(now) <==> (n, i) in Owned(was)
    {
      OwnedWhen(now, n, i);
      OwnedWhen(was, n, i);
    }
  }

  ghost predicate HasOwner(sb: Super, ptrs: map<nat, seq<int>>, j: nat)
    requires sb.Valid() && NinePointers(ptrs)
  {
    exists n: nat, i: nat :: Owns(ptrs, n, i) && ptrs[n][i] == sb.ZoneStart(j)
  }

  /** Every bit set in `now` was set in `was` or belongs to a pointer. */
  ghost predicate NewBitsOwned(sb: Super, was: seq<bool>, now: seq<bool>, ptrs: map<nat, seq<int>>)
    requires sb.Valid() && NinePointers(ptrs) && |was| == |now|
  {
    forall j: nat {:trigger HasOwner(sb, ptrs, j)} :: j < |now| && now[j] && !was[j] ==> HasOwner(sb, ptrs, j)
  }

  /** No number was given back, and every inode gained has a number that was free and is taken. */
  ghost predicate NumbersConserved(s: State, t: State) {
    && |t.inodeBits| == |s.inodeBits| && (forall n: nat :: n < |s.inodeBits| && s.inodeBits[n] ==> t.inodeBits[n])
    && forall n: nat {:trigger n in t.ptrs} :: n in t.ptrs && n !in s.ptrs ==>
         n < |t.inodeBits| && t.inodeBits[n] && !s.inodeBits[n]
  }

  /**
   From `s` to `t` the map gained exactly one set bit per pointer gained, no bit or pointer was lost,
   and each newly set bit is held by a pointer; and so for the numbers of inodes.
   */
  ghost predicate Conserves(sb: Super, s: State, t: State)
    requires sb.Valid() && NinePointers(s.ptrs) && NinePointers(t.ptrs)
  {
    && Extends(s, t) && |t.bits| == |s.bits| && NumbersConserved(s, t)
    && |SetBits(t.bits)| - |SetBits(s.bits)| == |Owned(t.ptrs)| - |Owned(s.ptrs)|
    && (forall j: nat :: j < |s.bits| && s.bits[j] ==> t.bits[j])
    && NewBitsOwned(sb, s.bits, t.bits, t.ptrs)
  }

  // ---------------------------------------------------------------- one step

  lemma {:induction false} OneMoreBit(bits: seq<bool>, f: nat)
    requires f < |bits| && !bits[f]
    ensures |SetBits(bits[f := true])| == |SetBits(bits)| + 1
  {
    assert SetBits(bits[f := true]) == SetBits(bits) + {f};
  }

  lemma {:induction false} OneMorePointer(ptrs: map<nat, seq<int>>, ino: nat, i: nat, p: int)
    requires NinePointers(ptrs) && ino in ptrs && i < POINTERS && ptrs[ino][i] == 0 && p != 0
    ensures |Owned(ptrs[ino := ptrs[ino][i := p]])| == |Owned(ptrs)| + 1
  {
    assert Owned(ptrs[ino := ptrs[ino][i := p]]) == Owned(ptrs) + {(ino, i)};
  }

  lemma {:induction false} GetBlockConserves(sb: Super, root: nat, s: State, ino: nat, iblock: nat, beyond: int)
    requires Geometry(sb) && Inv(sb, root, s) && ino in s.ptrs
    ensures Conserves(sb, s, GetBlock(sb, s, ino, iblock, sb.BlockSize(), beyond).0)
  {
    var t := GetBlock(sb, s, ino, iblock, sb.BlockSize(), beyond).0;
    if Full(s.bits) {
      FullMapChangesNothing(sb, s, ino, iblock, beyond);
    } else if t != s {
      FreshZone(sb, root, s);
      var f, idx := FirstFree(s.bits), Index(sb, sb.BlockSize(), iblock);
      OneMoreBit(s.bits, f);
      OneMorePointer(s.ptrs, ino, idx, sb.ZoneStart(f));
      assert Owns(t.ptrs, ino, idx) && t.ptrs[ino][idx] == sb.ZoneStart(f);
    }
  }

  /** Conservation speaks of the maps and the pointers only. */
  lemma {:induction false} SameMemory(sb: Super, root: nat, s: State, s1: State, t: State)
    requires sb.Valid() && Inv(sb, root, s1) && NinePointers(s.ptrs) && Conserves(sb, s, s1)
    requires t.ptrs == s1.ptrs && t.bits == s1.bits && t.inodeBits == s1.inodeBits
    ensures Inv(sb, root, t) && Conserves(sb, s, t)
  {
    OnlyMemoryMatters(sb, root, s1, t);
  }

  lemma {:induction false} NothingLost(sb: Super, root: nat, s: State, t: State)
    requires sb.Valid() && Inv(sb, root, s) && t.ptrs == s.ptrs && t.bits == s.bits && t.inodeBits == s.inodeBits
    ensures Inv(sb, root, t) && Conserves(sb, s, t)
  {
    OnlyMemoryMatters(sb, root, s, t);
  }

  /** A number is taken, and perhaps an inode with empty pointers gets it. */
  lemma {:induction false} BirthConserves(sb: Super, root: nat, s: State, t: State, n: nat)
    requires sb.Valid() && Inv(sb, root, s) && t.bits == s.bits
    requires n < |s.inodeBits| && !s.inodeBits[n] && t.inodeBits == s.inodeBits[n := true]
    requires t.ptrs == s.ptrs || (n !in s.ptrs && t.ptrs == s.ptrs[n := [0, 0, 0, 0, 0, 0, 0, 0, 0]])
    ensures Inv(sb, root, t) && Conserves(sb, s, t)
  {
    if t.ptrs == s.ptrs {
      OnlyMemoryMatters(sb, root, s, t);
    } else {
      CreateKeepsInv(sb, root, s, t, n);
    }
    forall m: nat, i: nat
      ensures Owns(t.ptrs, m, i) <==> Owns(s.ptrs, m, i)
    {
    }
    SameOwned(s.ptrs, t.ptrs);
  }

  lemma {:induction false} CreateConserves(sb: Super, root: nat, s: State, attrs: Attrs)
    requires Shaped(sb, s) && Inv(sb, root, s)
    ensures Inv(sb, root, Created(sb, s, attrs)) && Conserves(sb, s, Created(sb, s, attrs))
  {
    var t := Created(sb, s, attrs);
    if Alloc(s.inodeBits).1.Some? {
      BirthConserves(sb, root, s, t, FirstFree(s.inodeBits));
    } else {
      NothingLost(sb, root, s, t);
    }
  }

  /** Beyond the mapping, a read or write touches the device and the dirty marks only. */
  lemma {:induction false} BlockOpState(sb: Super, s: State, op: Op)
    requires Shaped(sb, s) && s.status.Up? && (op.Read? || op.Write?) && op.ino in s.ptrs
    ensures var s1, t := MapFile(sb, s, op.ino, op.iblock, op.beyond).0, Step(sb, s, op).0;
            t.ptrs == s1.ptrs && t.bits == s1.bits && t.inodeBits == s.inodeBits
  {
  }

  lemma {:induction false} BlockOpConserves(sb: Super, root: nat, s: State, op: Op)
    requires Geometry(sb) && Shaped(sb, s) && s.status.Up? && Inv(sb, root, s) && (op.Read? || op.Write?)
    requires op.ino in s.ptrs
    ensures Inv(sb, root, Step(sb, s, op).0) && Conserves(sb, s, Step(sb, s, op).0)
  {
    BlockOpState(sb, s, op);
    GetBlockKeepsInv(sb, root, s, op.ino, op.iblock, op.beyond);
    GetBlockConserves(sb, root, s, op.ino, op.iblock, op.beyond);
    SameMemory(sb, root, s, MapFile(sb, s, op.ino, op.iblock, op.beyond).0, Step(sb, s, op).0);
  }

  lemma {:induction false} StepConserves(sb: Super, root: nat, s: State, op: Op)
    requires Geometry(sb) && Shaped(sb, s) && Inv(sb, root, s)
    requires s.status.Up? && op.Remount? ==> Intact(sb, s, op.held)
    ensures Inv(sb, root, Step(sb, s, op).0) && Conserves(sb, s, Step(sb, s, op).0)
  {
    var t := Step(sb, s, op).0;
    if s.status.Up? && op.Create? {
      CreateConserves(sb, root, s, op.attrs);
    } else if s.status.Up? && (op.Read? || op.Write?) && op.ino in s.ptrs {
      BlockOpConserves(sb, root, s, op);
    } else {
      if s.status.Up? && op.Remount? {
        RemountRestoresWhen(sb, s, op.held);
      }
      NothingLost(sb, root, s, t);
    }
  }

  // ---------------------------------------------------------------- runs

  lemma {:induction false} OwnerIsStable(sb: Super, s: State, t: State, j: nat)
    requires sb.Valid() && NinePointers(s.ptrs) && NinePointers(t.ptrs) && Extends(s, t) && HasOwner(sb, s.ptrs, j)
    ensures HasOwner(sb, t.ptrs, j)
  {
    var n: nat, i: nat :| Owns(s.ptrs, n, i) && s.ptrs[n][i] == sb.ZoneStart(j);
    assert Owns(t.ptrs, n, i) && t.ptrs[n][i] == s.ptrs[n][i];
  }

  lemma {:induction false} ConservesTransitive(sb: Super, s: State, m: State, t: State)
    requires sb.Valid() && NinePointers(s.ptrs) && NinePointers(m.ptrs) && NinePointers(t.ptrs)
    requires Conserves(sb, s, m) && Conserves(sb, m, t)
    ensures Conserves(sb, s, t)
  {
    ExtendsTransitive(s, m, t);
    forall j: nat | j < |t.bits| && t.bits[j] && !s.bits[j]
      ensures HasOwner(sb, t.ptrs, j)
    {
      if m.bits[j] {
        assert HasOwner(sb, m.ptrs, j);
        OwnerIsStable(sb, m, t, j);
      } else {
        assert HasOwner(sb, t.ptrs, j);
      }
    }
  }

  lemma {:induction false} ExtendsTransitive(s: State, m: State, t: State)
    requires NinePointers(s.ptrs) && NinePointers(m.ptrs) && NinePointers(t.ptrs)
    requires Extends(s, m) && Extends(m, t)
    ensures Extends(s, t)
  {
  }

  /** If operation `i` is a remount, it meets an intact state. */
  ghost predicate RestoringAt(sb: Super, ss: seq<State>, ops: seq<Op>, i: nat)
    requires i < |ops| < |ss|
  {
    Shaped(sb, ss[i]) && (ops[i].Remount? ==> Intact(sb, ss[i], ops[i].held))
  }

  lemma {:induction false} NextConserves(sb: Super, root: nat, ss: seq<State>, ops: seq<Op>, i: nat)
    requires i < |ops| < |ss| && Geometry(sb) && StepAt(sb, ss, ops, i) && RestoringAt(sb, ss, ops, i)
    requires Inv(sb, root, ss[i])
    ensures Inv(sb, root, ss[i + 1]) && Conserves(sb, ss[i], ss[i + 1])
  {
    StepConserves(sb, root, ss[i], ops[i]);
  }

  /**
   Conservation. Over every run whose remounts meet an intact state, also one that is starved of zones:
   the map gains exactly one set bit per pointer gained, each newly set bit is held by a pointer, no
   zone has two owners, and every inode gained has a number of its own.
   */
  lemma {:induction false} ZonesAreConserved(sb: Super, root: nat, ss: seq<State>, ops: seq<Op>, n: nat)
    requires IsRun(sb, ss, ops) && Geometry(sb) && Inv(sb, root, ss[0]) && n <= |ops|
    requires forall i: nat {:trigger RestoringAt(sb, ss, ops, i)} :: i < n ==> RestoringAt(sb, ss, ops, i)
    ensures Inv(sb, root, ss[n]) && Conserves(sb, ss[0], ss[n])
  {
    if n == 0 {
      NothingLost(sb, root, ss[0], ss[0]);
    } else {
      ZonesAreConserved(sb, root, ss, ops, n - 1);
      assert StepAt(sb, ss, ops, n - 1) && RestoringAt(sb, ss, ops, n - 1);
      NextConserves(sb, root, ss, ops, n - 1);
      ConservesTransitive(sb, ss[0], ss[n - 1], ss[n]);
    }
  }

  /** Remounts meet an intact state in particular when no operation before them did harm. */
  lemma {:induction false} HarmlessRunsRestore(sb: Super, root: nat, ss: seq<State>, ops: seq<Op>, n: nat)
    requires IsRun(sb, ss, ops) && Good(sb, root, ss[0]) && n <= |ops|
    requires forall i: nat, k: nat :: i < k < n && ops[k].Remount? ==> HarmlessAt(sb, ss, ops, i)
    ensures forall k: nat :: k < n ==> RestoringAt(sb, ss, ops, k)
  {
    forall k: nat | k < n
      ensures RestoringAt(sb, ss, ops, k)
    {
      StateIsShaped(sb, ss, ops, k);
      if ops[k].Remount? {
        HarmlessRunsAreGood(sb, root, ss, ops, k);
        GoodIsIntact(sb, root, ss[k], ops[k].held);
      }
    }
  }

  /** The bit of a zone that a pointer holds is set. */
  lemma {:induction false} OwnedBitIsSet(sb: Super, root: nat, s: State, j: nat)
    requires sb.Valid() && Inv(sb, root, s) && 2 <= j < |s.bits| && HasOwner(sb, s.ptrs, j)
    ensures s.bits[j]
  {
    var n: nat, i: nat :| Owns(s.ptrs, n, i) && s.ptrs[n][i] == sb.ZoneStart(j);
    MulMonotone(2, j, sb.blocksPerZone);
    var k: nat :| 2 <= k < |s.bits| && s.bits[k] && s.ptrs[n][i] == sb.ZoneStart(k);
    if j < k {
      ZonesAreDisjoint(sb, j, k);
    } else if k < j {
      ZonesAreDisjoint(sb, k, j);
    }
  }

  /** From a state in which no bit from `lo` to `hi` is set, those set later are those of the pointers. */
  lemma {:induction false} BitsAreOwned(sb: Super, root: nat, s: State, t: State, lo: nat, hi: nat)
    requires sb.Valid() && NinePointers(s.ptrs) && Inv(sb, root, t) && Conserves(sb, s, t) && 2 <= lo
    requires Shape(s.bits, lo, hi)
    ensures forall j: nat {:trigger HasOwner(sb, t.ptrs, j)} :: j < |t.bits| ==>
              (t.bits[j] <==> j < lo || j >= hi || HasOwner(sb, t.ptrs, j))
  {
    forall j: nat | j < |t.bits|
      ensures t.bits[j] <==> j < lo || j >= hi || HasOwner(sb, t.ptrs, j)
    {
      if lo <= j < hi && HasOwner(sb, t.ptrs, j) {
        OwnedBitIsSet(sb, root, t, j);
      }
    }
  }
}
