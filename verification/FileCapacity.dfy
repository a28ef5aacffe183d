/**
 When a run of file operations is starved of zones. Whether every operation finds a zone is a
 question about all states of the run; this module reduces it to counting, before the run, the
 zones that its operations name and that no file owns yet.
 */
module FileCapacity {
  import opened FirstFit
  import opened Layout
  import opened FileStore
  import opened FileRuns
  import opened Conservation
  import opened Refinement

  // Everything in this part is computed from the first state and the operations, without any allocation of zones.

  /** Inodes that exist after the first `n` operations. */
  function Live(sb: Super, s0: State, ops: seq<Op>, n: nat): (r: set<nat>)
    requires n <= |ops|
  {
    FilesRun(sb, FilesAt(s0), ops, n).inos
  }

  /** The (inode, pointer) pair that one operation uses. */
  function Need(sb: Super, live: set<nat>, op: Op): (r: set<(nat, nat)>)
    requires sb.Valid()
  {
    if (op.Read? || op.Write?) && op.ino in live && InRange(sb, op.iblock) then {(op.ino, IndexOf(sb, op.iblock))}
    else {}
  }

  /** The pairs that the first `n` operations use. */
  function Needs(sb: Super, s0: State, ops: seq<Op>, n: nat): (r: set<(nat, nat)>)
    requires sb.Valid() && n <= |ops|
  {
    if n == 0 then {} else Needs(sb, s0, ops, n - 1) + Need(sb, Live(sb, s0, ops, n - 1), ops[n - 1])
  }

  /** The inodes that are dirty after an operation. */
  function DirtyNext(sb: Super, live: set<nat>, next: set<nat>, dirty: set<nat>, op: Op): (r: set<nat>) {
    match op
    case Create(_) => dirty + (next - live)
    case SetAttrs(ino, _) => if ino in live then dirty + {ino} else dirty
    case Write(ino, iblock, _, _, marks) => if ino in live && InRange(sb, iblock) && marks then dirty + {ino} else dirty
    case Read(ino, _, _, marks) => if ino in live && marks then dirty + {ino} else dirty
    case Sync => {}
    case Remount(_) => {}
  }

  function Dirty(sb: Super, s0: State, ops: seq<Op>, n: nat): (r: set<nat>)
    requires n <= |ops|
  {
    if n == 0 then s0.dirtyInodes
    else DirtyNext(sb, Live(sb, s0, ops, n - 1), Live(sb, s0, ops, n), Dirty(sb, s0, ops, n - 1), ops[n - 1])
  }

  /**
   Everything that covers an operation but the zone: fields fit; a file block within nine zones has a
   pointer already, or its inode is marked or dirty; any other is refused.
   */
  predicate Addressable(sb: Super, live: set<nat>, owned: set<(nat, nat)>, dirty: set<nat>, op: Op)
    requires Geometry(sb)
  {
    match op
    case Create(attrs) => attrs.Fit()
    case SetAttrs(ino, attrs) => ino in live ==> attrs.Fit()
    case Write(ino, iblock, _, beyond, marks) =>
      ino in live ==> BlockAddressable(sb, owned, ino, iblock, beyond, marks || ino in dirty)
    case Read(ino, iblock, beyond, marks) =>
      ino in live ==> BlockAddressable(sb, owned, ino, iblock, beyond, marks || ino in dirty)
    case Sync => true
    case Remount(_) => true
  }

  predicate BlockAddressable(sb: Super, owned: set<(nat, nat)>, ino: nat, iblock: nat, beyond: int, marked: bool)
    requires Geometry(sb)
  {
    if InRange(sb, iblock) then marked || (ino, IndexOf(sb, iblock)) in owned else Refused(sb, iblock, beyond)
  }

  predicate AddressableAt(sb: Super, s0: State, ops: seq<Op>, i: nat)
    requires Geometry(sb) && NinePointers(s0.ptrs) && i < |ops|
  {
    Addressable(sb, Live(sb, s0, ops, i), Owned(s0.ptrs) + Needs(sb, s0, ops, i), Dirty(sb, s0, ops, i), ops[i])
  }

  lemma {:induction false} NeedsGrow(sb: Super, s0: State, ops: seq<Op>, m: nat, n: nat)
    requires sb.Valid() && m <= n <= |ops|
    ensures Needs(sb, s0, ops, m) <= Needs(sb, s0, ops, n)
  {
    if m < n {
      NeedsGrow(sb, s0, ops, m, n - 1);
    }
  }

  lemma {:induction false} PrefixNeedsLess(sb: Super, s0: State, ops: seq<Op>, n: nat, owned: set<(nat, nat)>)
    requires sb.Valid() && n <= |ops|
    ensures |Needs(sb, s0, ops, n) - owned| <= |Needs(sb, s0, ops, |ops|) - owned|
  {
    NeedsGrow(sb, s0, ops, n, |ops|);
    SubsetCount(Needs(sb, s0, ops, n) - owned, Needs(sb, s0, ops, |ops|) - owned);
  }

  function FreeZones(bits: seq<bool>): (r: set<nat>) {
    set j: nat | j < |bits| && !bits[j]
  }

  // ---------------------------------------------------------------- counting

  /** The numbers below `n`. */
  function Below(n: nat): (r: set<nat>)
    ensures |r| == n
    ensures forall j: nat :: j in r <==> j < n
  {
    if n == 0 then {} else Below(n - 1) + {n - 1}
  }

  lemma {:induction false} SetOrFree(bits: seq<bool>)
    ensures |SetBits(bits)| + |FreeZones(bits)| == |bits|
  {
    assert Below(|bits|) == SetBits(bits) + FreeZones(bits) && SetBits(bits) !! FreeZones(bits);
  }

  lemma {:induction false} SubsetCount<T>(a: set<T>, b: set<T>)
    requires a <= b
    ensures |a| <= |b| && |b - a| == |b| - |a|
  {
    assert b == a + (b - a);
  }

  lemma {:induction false} ExtendsOwns(s: State, t: State)
    requires NinePointers(s.ptrs) && NinePointers(t.ptrs) && Extends(s, t)
    ensures Owned(s.ptrs) <= Owned(t.ptrs)
  {
  }

  /** Over any conserving run, the zones gained are the zones no longer free. */
  lemma {:induction false} ZonesGained(sb: Super, s: State, t: State)
    requires sb.Valid() && NinePointers(s.ptrs) && NinePointers(t.ptrs) && Conserves(sb, s, t)
    ensures Owned(s.ptrs) <= Owned(t.ptrs)
    ensures |Owned(t.ptrs) - Owned(s.ptrs)| == |FreeZones(s.bits)| - |FreeZones(t.bits)|
  {
    SetOrFree(s.bits);
    SetOrFree(t.bits);
    ExtendsOwns(s, t);
    SubsetCount(Owned(s.ptrs), Owned(t.ptrs));
  }

  // ---------------------------------------------------------------- what a covered run owns

  lemma {:induction false} MapOwns(sb: Super, root: nat, s: State, ino: nat, iblock: nat, beyond: int)
    requires Geometry(sb) && Shaped(sb, s) && Inv(sb, root, s) && ino in s.ptrs && Covered(sb, s, ino, iblock)
    ensures Owned(MapFile(sb, s, ino, iblock, beyond).0.ptrs) == Owned(s.ptrs) + {(ino, IndexOf(sb, iblock))}
  {
    var t, idx := MapFile(sb, s, ino, iblock, beyond).0, IndexOf(sb, iblock);
    PositionInRange(sb, iblock);
    if s.ptrs[ino][idx] == 0 {
      FreshZone(sb, root, s);
      OneMoreOwned(s.ptrs, ino, idx, sb.ZoneStart(FirstFree(s.bits)));
    } else {
      assert Owns(s.ptrs, ino, idx);
    }
  }

  lemma {:induction false} OneMoreOwned(ptrs: map<nat, seq<int>>, ino: nat, i: nat, p: int)
    requires NinePointers(ptrs) && ino in ptrs && i < POINTERS && p != 0
    ensures Owned(ptrs[ino := ptrs[ino][i := p]]) == Owned(ptrs) + {(ino, i)}
  {
  }

  lemma {:induction false} BlockOpOwns(sb: Super, root: nat, s: State, op: Op)
    requires Geometry(sb) && Shaped(sb, s) && s.status.Up? && Inv(sb, root, s) && OpCovered(sb, s, op)
    requires (op.Read? || op.Write?) && op.ino in s.ptrs
    ensures Owned(Step(sb, s, op).0.ptrs) == Owned(s.ptrs) + Need(sb, s.ptrs.Keys, op)
  {
    BlockOpState(sb, s, op);
    if InRange(sb, op.iblock) {
      MapOwns(sb, root, s, op.ino, op.iblock, op.beyond);
    } else {
      RefusedWhen(sb, s, op.ino, op.iblock, op.beyond);
    }
  }

  /** Changes of fields, write-backs and remounts leave the pointers of a good volume alone. */
  lemma {:induction false} PointersStay(sb: Super, root: nat, s: State, op: Op)
    requires Good(sb, root, s) && !op.Create? && ((op.Read? || op.Write?) ==> op.ino !in s.ptrs)
    ensures Step(sb, s, op).0.ptrs == s.ptrs
  {
    if op.Remount? {
      RemountIsUnmount(sb, root, s, op.held);
    }
  }

  lemma {:induction false} StepOwns(sb: Super, root: nat, s: State, op: Op)
    requires Good(sb, root, s) && OpCovered(sb, s, op)
    ensures Owned(Step(sb, s, op).0.ptrs) == Owned(s.ptrs) + Need(sb, s.ptrs.Keys, op)
  {
    if (op.Read? || op.Write?) && op.ino in s.ptrs {
      BlockOpOwns(sb, root, s, op);
    } else if op.Create? {
      CreateOwns(sb, s, op.attrs);
    } else {
      PointersStay(sb, root, s, op);
    }
  }

  lemma {:induction false} CreateOwns(sb: Super, s: State, attrs: Attrs)
    requires Shaped(sb, s)
    ensures Owned(Created(sb, s, attrs).ptrs) == Owned(s.ptrs)
  {
    var t, n := Created(sb, s, attrs), Alloc(s.inodeBits).1;
    if n.Some? && n.value !in s.ptrs && Usable(sb, n.value) {
      EmptyOwnsNothing(s.ptrs, n.value);
    }
  }

  lemma {:induction false} EmptyOwnsNothing(ptrs: map<nat, seq<int>>, n: nat)
    requires NinePointers(ptrs) && n !in ptrs
    ensures var now := ptrs[n := [0, 0, 0, 0, 0, 0, 0, 0, 0]];
            NinePointers(now) && Owned(now) == Owned(ptrs)
  {
  }

  /** Which inodes a covered operation leaves dirty. */
  lemma {:induction false} StepMarks(sb: Super, root: nat, s: State, op: Op)
    requires Good(sb, root, s) && OpCovered(sb, s, op)
    ensures Step(sb, s, op).0.dirtyInodes ==
            DirtyNext(sb, s.ptrs.Keys, Step(sb, s, op).0.ptrs.Keys, s.dirtyInodes, op)
  {
    if (op.Read? || op.Write?) && op.ino in s.ptrs {
      if InRange(sb, op.iblock) {
        CoveredTarget(sb, root, s, op.ino, op.iblock, op.beyond);
      } else {
        RefusedWhen(sb, s, op.ino, op.iblock, op.beyond);
      }
    } else if op.Create? {
      CreateMarks(sb, s, op.attrs);
    } else if op.Remount? {
      RemountIsUnmount(sb, root, s, op.held);
    }
  }

  lemma {:induction false} CreateMarks(sb: Super, s: State, attrs: Attrs)
    requires Shaped(sb, s)
    ensures var t := Created(sb, s, attrs);
            t.dirtyInodes == s.dirtyInodes + (t.ptrs.Keys - s.ptrs.Keys)
  {
    var t, n := Created(sb, s, attrs), Alloc(s.inodeBits).1;
    if n.Some? && n.value !in s.ptrs && Usable(sb, n.value) {
      assert t.ptrs.Keys - s.ptrs.Keys == {n.value};
    } else {
      assert t.ptrs.Keys - s.ptrs.Keys == {};
    }
  }

  /** What is known of a state before the run is what holds of it. */
  ghost predicate Foreseen(sb: Super, ss: seq<State>, ops: seq<Op>, n: nat)
    requires n <= |ops| < |ss| && sb.Valid() && NinePointers(ss[0].ptrs) && NinePointers(ss[n].ptrs)
  {
    && ss[n].ptrs.Keys == Live(sb, ss[0], ops, n) && ss[n].dirtyInodes == Dirty(sb, ss[0], ops, n)
    && Owned(ss[n].ptrs) == Owned(ss[0].ptrs) + Needs(sb, ss[0], ops, n)
  }

  lemma {:induction false} LiveIs(sb: Super, root: nat, ss: seq<State>, ops: seq<Op>, n: nat)
    requires IsRun(sb, ss, ops) && Good(sb, root, ss[0]) && RunCovered(sb, ss, ops, n)
    ensures Shaped(sb, ss[n]) && ss[n].ptrs.Keys == Live(sb, ss[0], ops, n)
  {
    CoveredRun(sb, root, ss, ops, n);
  }

  lemma {:induction false} ForeseenNext(sb: Super, ss: seq<State>, ops: seq<Op>, n: nat)
    requires n < |ops| < |ss| && sb.Valid() && NinePointers(ss[0].ptrs) && NinePointers(ss[n].ptrs)
    requires NinePointers(ss[n + 1].ptrs)
    requires Foreseen(sb, ss, ops, n) && ss[n + 1].ptrs.Keys == Live(sb, ss[0], ops, n + 1)
    requires Owned(ss[n + 1].ptrs) == Owned(ss[n].ptrs) + Need(sb, ss[n].ptrs.Keys, ops[n])
    requires ss[n + 1].dirtyInodes == DirtyNext(sb, ss[n].ptrs.Keys, ss[n + 1].ptrs.Keys, ss[n].dirtyInodes, ops[n])
    ensures Foreseen(sb, ss, ops, n + 1)
  {
  }

  lemma {:induction false} ForeseenStart(sb: Super, ss: seq<State>, ops: seq<Op>)
    requires |ops| < |ss| && sb.Valid() && NinePointers(ss[0].ptrs)
    ensures Foreseen(sb, ss, ops, 0)
  {
  }

  /** A covered run owns exactly what was owned at the start and what its operations use. */
  lemma {:induction false} RunOwns(sb: Super, root: nat, ss: seq<State>, ops: seq<Op>, n: nat)
    requires IsRun(sb, ss, ops) && Good(sb, root, ss[0]) && RunCovered(sb, ss, ops, n)
    ensures Shaped(sb, ss[n]) && Foreseen(sb, ss, ops, n)
  {
    if n == 0 {
      ForeseenStart(sb, ss, ops);
    } else {
      RunOwns(sb, root, ss, ops, n - 1);
      LiveIs(sb, root, ss, ops, n);
      NextOwns(sb, root, ss, ops, n - 1);
      ForeseenNext(sb, ss, ops, n - 1);
    }
  }

  lemma {:induction false} NextOwns(sb: Super, root: nat, ss: seq<State>, ops: seq<Op>, i: nat)
    requires IsRun(sb, ss, ops) && Good(sb, root, ss[0]) && i < |ops| && RunCovered(sb, ss, ops, i + 1)
    ensures Shaped(sb, ss[i]) && Shaped(sb, ss[i + 1])
    ensures Owned(ss[i + 1].ptrs) == Owned(ss[i].ptrs) + Need(sb, ss[i].ptrs.Keys, ops[i])
    ensures ss[i + 1].dirtyInodes == DirtyNext(sb, ss[i].ptrs.Keys, ss[i + 1].ptrs.Keys, ss[i].dirtyInodes, ops[i])
  {
    CoveredRun(sb, root, ss, ops, i);
    assert StepAt(sb, ss, ops, i) && CoveredAt(sb, ss, ops, i);
    StepOwns(sb, root, ss[i], ops[i]);
    StepMarks(sb, root, ss[i], ops[i]);
  }

  lemma {:induction false} RestoringIfGood(sb: Super, root: nat, ss: seq<State>, ops: seq<Op>, i: nat)
    requires i < |ops| < |ss| && Good(sb, root, ss[i])
    ensures RestoringAt(sb, ss, ops, i)
  {
    if ops[i].Remount? {
      GoodIsIntact(sb, root, ss[i], ops[i].held);
    }
  }

  lemma {:induction false} CoveredRunConserves(sb: Super, root: nat, ss: seq<State>, ops: seq<Op>, n: nat)
    requires IsRun(sb, ss, ops) && Good(sb, root, ss[0]) && RunCovered(sb, ss, ops, n)
    ensures Shaped(sb, ss[n]) && Conserves(sb, ss[0], ss[n])
  {
    forall i: nat | i < n
      ensures RestoringAt(sb, ss, ops, i)
    {
      CoveredRun(sb, root, ss, ops, i);
      RestoringIfGood(sb, root, ss, ops, i);
    }
    StateIsShaped(sb, ss, ops, n);
    ZonesAreConserved(sb, root, ss, ops, n);
  }

  /** The zones that a covered run uses beyond those owned at the start are the zones no longer free. */
  lemma {:induction false} CoveredRunCount(sb: Super, root: nat, ss: seq<State>, ops: seq<Op>, n: nat)
    requires IsRun(sb, ss, ops) && Good(sb, root, ss[0]) && RunCovered(sb, ss, ops, n)
    ensures Shaped(sb, ss[n])
    ensures |Needs(sb, ss[0], ops, n) - Owned(ss[0].ptrs)| == |FreeZones(ss[0].bits)| - |FreeZones(ss[n].bits)|
  {
    RunOwns(sb, root, ss, ops, n);
    CoveredRunConserves(sb, root, ss, ops, n);
    ZonesGained(sb, ss[0], ss[n]);
    assert Owned(ss[n].ptrs) - Owned(ss[0].ptrs) == Needs(sb, ss[0], ops, n) - Owned(ss[0].ptrs);
  }

  // ---------------------------------------------------------------- the condition

  /** Everything that covers a run but the zones: known before the run. */
  ghost predicate AllAddressable(sb: Super, s0: State, ops: seq<Op>)
    requires Geometry(sb) && NinePointers(s0.ptrs)
  {
    forall i: nat {:trigger AddressableAt(sb, s0, ops, i)} :: i < |ops| ==> AddressableAt(sb, s0, ops, i)
  }

  lemma {:induction false} OneShort<T>(start: set<T>, used: set<T>, more: set<T>, pair: T)
    requires used <= more && pair in more && pair !in start + used
    ensures |used - start| < |more - start|
  {
    SubsetCount(used - start, more - start - {pair});
  }

  /** An operation is covered exactly when it is addressable and has or can be given its zone. */
  lemma {:induction false} CoveredIsAddressable(sb: Super, s: State, op: Op)
    requires Geometry(sb) && Shaped(sb, s)
    ensures OpCovered(sb, s, op) <==>
            && Addressable(sb, s.ptrs.Keys, Owned(s.ptrs), s.dirtyInodes, op)
            && ((op.Read? || op.Write?) && op.ino in s.ptrs && InRange(sb, op.iblock) ==>
                  Covered(sb, s, op.ino, op.iblock))
  {
    if (op.Read? || op.Write?) && op.ino in s.ptrs && InRange(sb, op.iblock) {
      OwnedWhen(s.ptrs, op.ino, IndexOf(sb, op.iblock));
    }
  }

  lemma {:induction false} NoneFree(bits: seq<bool>)
    requires Full(bits)
    ensures |FreeZones(bits)| == 0
  {
    assert FreeZones(bits) == {};
  }

  /** A run that uses one more pair than those counted so far. */
  lemma {:induction false} OneMoreNeeded(sb: Super, s0: State, ops: seq<Op>, n: nat, owned: set<(nat, nat)>,
                                         pair: (nat, nat))
    requires sb.Valid() && n < |ops| && pair !in owned + Needs(sb, s0, ops, n) && pair in Needs(sb, s0, ops, n + 1)
    ensures |Needs(sb, s0, ops, |ops|) - owned| > |Needs(sb, s0, ops, n) - owned|
  {
    NeedsGrow(sb, s0, ops, n, n + 1);
    OneShort(owned, Needs(sb, s0, ops, n), Needs(sb, s0, ops, n + 1), pair);
    PrefixNeedsLess(sb, s0, ops, n + 1, owned);
  }

  /** If the next operation found no zone, the run would need more zones than are free. */
  lemma {:induction false} OneTooMany(sb: Super, root: nat, ss: seq<State>, ops: seq<Op>, n: nat, pair: (nat, nat))
    requires IsRun(sb, ss, ops) && Good(sb, root, ss[0]) && n < |ops| && RunCovered(sb, ss, ops, n)
    requires Full(ss[n].bits) && pair !in Owned(ss[0].ptrs) + Needs(sb, ss[0], ops, n)
    requires pair in Needs(sb, ss[0], ops, n + 1)
    ensures |Needs(sb, ss[0], ops, |ops|) - Owned(ss[0].ptrs)| > |FreeZones(ss[0].bits)|
  {
    NoneFree(ss[n].bits);
    OneMoreNeeded(sb, ss[0], ops, n, Owned(ss[0].ptrs), pair);
    CoveredRunCount(sb, root, ss, ops, n);
  }

  /** One more operation, when the run before it was covered and there are enough zones for the whole run. */
  lemma {:induction false} NextIsCovered(sb: Super, root: nat, ss: seq<State>, ops: seq<Op>, n: nat)
    requires IsRun(sb, ss, ops) && Good(sb, root, ss[0]) && n < |ops| && RunCovered(sb, ss, ops, n)
    requires AllAddressable(sb, ss[0], ops)
    requires |Needs(sb, ss[0], ops, |ops|) - Owned(ss[0].ptrs)| <= |FreeZones(ss[0].bits)|
    ensures CoveredAt(sb, ss, ops, n)
  {
    var s, op := ss[n], ops[n];
    RunOwns(sb, root, ss, ops, n);
    CoveredIsAddressable(sb, s, op);
    assert AddressableAt(sb, ss[0], ops, n);
    if (op.Read? || op.Write?) && op.ino in s.ptrs && InRange(sb, op.iblock) && !Covered(sb, s, op.ino, op.iblock) {
      var pair := (op.ino, IndexOf(sb, op.iblock));
      OwnedWhen(s.ptrs, pair.0, pair.1);
      OneTooMany(sb, root, ss, ops, n, pair);
    }
  }

  lemma {:induction false} OneMoreCovered(sb: Super, ss: seq<State>, ops: seq<Op>, n: nat)
    requires n < |ops| < |ss| && RunCovered(sb, ss, ops, n) && CoveredAt(sb, ss, ops, n)
    ensures RunCovered(sb, ss, ops, n + 1)
  {
  }

  lemma {:induction false} EnoughZones(sb: Super, root: nat, ss: seq<State>, ops: seq<Op>, n: nat)
    requires IsRun(sb, ss, ops) && Good(sb, root, ss[0]) && n <= |ops| && AllAddressable(sb, ss[0], ops)
    requires |Needs(sb, ss[0], ops, |ops|) - Owned(ss[0].ptrs)| <= |FreeZones(ss[0].bits)|
    ensures RunCovered(sb, ss, ops, n)
  {
    if n > 0 {
      EnoughZones(sb, root, ss, ops, n - 1);
      NextIsCovered(sb, root, ss, ops, n - 1);
      OneMoreCovered(sb, ss, ops, n - 1);
    }
  }

  lemma {:induction false} CoveredRunAddressable(sb: Super, root: nat, ss: seq<State>, ops: seq<Op>, i: nat)
    requires IsRun(sb, ss, ops) && Good(sb, root, ss[0]) && RunCovered(sb, ss, ops, |ops|) && i < |ops|
    ensures AddressableAt(sb, ss[0], ops, i)
  {
    RunOwns(sb, root, ss, ops, i);
    assert CoveredAt(sb, ss, ops, i);
    CoveredIsAddressable(sb, ss[i], ops[i]);
  }

  /**
   Capacity. A run is covered exactly when each operation is addressable and the zones that the run
   uses and that are not owned at the start are no more than the zones free at the start.
   */
  lemma {:induction false} CoveredWhen(sb: Super, root: nat, ss: seq<State>, ops: seq<Op>)
    requires IsRun(sb, ss, ops) && Good(sb, root, ss[0])
    ensures RunCovered(sb, ss, ops, |ops|) <==>
            && AllAddressable(sb, ss[0], ops)
            && |Needs(sb, ss[0], ops, |ops|) - Owned(ss[0].ptrs)| <= |FreeZones(ss[0].bits)|
  {
    if RunCovered(sb, ss, ops, |ops|) {
      CoveredRunCount(sb, root, ss, ops, |ops|);
      forall i: nat | i < |ops|
        ensures AddressableAt(sb, ss[0], ops, i)
      {
        CoveredRunAddressable(sb, root, ss, ops, i);
      }
    }
    if AllAddressable(sb, ss[0], ops)
       && |Needs(sb, ss[0], ops, |ops|) - Owned(ss[0].ptrs)| <= |FreeZones(ss[0].bits)| {
      EnoughZones(sb, root, ss, ops, |ops|);
    }
  }

  /** The zones that a formatted map leaves free. */
  lemma {:induction false} FreeInShape(bits: seq<bool>, lo: nat, hi: nat)
    requires Shape(bits, lo, hi)
    ensures |FreeZones(bits)| == hi - lo
  {
    SubsetCount(Below(lo), Below(hi));
    assert FreeZones(bits) == Below(hi) - Below(lo);
  }
}
