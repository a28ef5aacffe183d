/**
 The namespace: directories as lists of entries, link counts, and the steps that create
 directories, files and unnamed files, with their undo paths. The main result is that over every
 run the directories form a tree rooted at inode 1.
 */
module Namespace {
  import opened Numbers
  import opened Options
  import opened FirstFit
  import opened Endian
  import opened DirectoryEntries

  const ENOMEM: int := -12
  const EINVAL: int := -22
  const ENOSPC: int := -28

  /** Inode-map bits, the entries of every live directory, and the link counts of the live inodes. */
  datatype State = State(bits: seq<bool>, dirs: map<nat, seq<Entry>>, links: map<nat, int>)

  /**
   What the environment decides about a call: memory for the inode, and what the block layer reports for
   directory writes.
   */
  datatype Env = Env(noMemory: bool, empty: Io, link: Io)

  datatype Outcome = Done(err: int) | Oops

  datatype Op = MkDir(dir: nat, name: seq<Byte>, env: Env)
              | MkNod(dir: nat, name: seq<Byte>, validDevice: bool, regular: bool, env: Env)
              | TmpFile(env: Env)

  predicate GoodOp(s: State, op: Op) {
    op.TmpFile? || (op.dir in s.dirs && GoodName(op.name))
  }

  /** Live inodes have numbers with set bits, and every directory is live. */
  predicate Coherent(s: State) {
    && s.dirs.Keys <= s.links.Keys
    && forall n :: n in s.links ==> n < |s.bits| && s.bits[n]
  }

  /** The number given to a new inode: none without memory, on a full map, or when bit 0 was free. */
  function NewNumber(s: State, env: Env): (r: Option<nat>) {
    if env.noMemory || Alloc(s.bits).1 == Some(0) then None else Alloc(s.bits).1
  }

  function BitsAfter(s: State, env: Env): (r: seq<bool>) {
    if env.noMemory then s.bits else Alloc(s.bits).0
  }

  /** What a step does to the live inodes and directories. */
  datatype Change = Nothing                     // a number may have been lost
                  | Unnamed(count: int)         // an inode without a name
                  | File(dir: nat, entry: Entry)
                  | Directory(dir: nat, entry: Entry)
                  | Orphan(dir: nat, entry: Entry)  // an entry whose inode was dropped

  /** The change with number `ino`. A directory gets its dot entries, and its holder one more link. */
  function Apply(s: State, ino: nat, c: Change): (r: State)
    requires !c.Nothing? && !c.Unnamed? ==> c.dir in s.dirs && c.dir in s.links
  {
    match c
    case Nothing => s
    case Unnamed(count) => s.(links := s.links[ino := count])
    case File(dir, e) => State(s.bits, s.dirs[dir := s.dirs[dir] + [e]], s.links[ino := 1])
    case Directory(dir, e) =>
      State(s.bits, s.dirs[dir := s.dirs[dir] + [e]][ino := NewEntries(ino, dir)],
            s.links[dir := s.links[dir] + 1][ino := 2])
    case Orphan(dir, e) => s.(dirs := s.dirs[dir := s.dirs[dir] + [e]])
  }

  /** The change that an operation makes with a given number, and its result. */
  function Decide(s: State, op: Op, number: Option<nat>): (r: (Change, Outcome))
    requires GoodOp(s, op)
    ensures !r.0.Nothing? ==> number.Some?
    ensures !r.0.Nothing? && !r.0.Unnamed? ==>
              !op.TmpFile? && r.0.dir == op.dir && r.0.entry == Entry(op.name, number.value)
              && Append(s.dirs[op.dir], r.0.entry, op.env.link) == (s.dirs[op.dir] + [r.0.entry], op.env.link.commit)
  {
    if op.MkNod? && !op.validDevice then (Nothing, Done(EINVAL))
    else if number.None? then
      (Nothing, if op.MkNod? then Oops else Done(if op.env.noMemory then ENOMEM else ENOSPC))
    else if op.TmpFile? then (Unnamed(0), Done(0))
    else if op.MkNod? && !op.regular then (Unnamed(1), Done(EINVAL))
    else if op.MkDir? && op.env.empty.Err() != 0 then (Nothing, Done(op.env.empty.Err()))
    else
      var e := Entry(op.name, number.value);
      var (es, err) := Append(s.dirs[op.dir], e, op.env.link);
      if err != 0 then (if es == s.dirs[op.dir] then Nothing else Orphan(op.dir, e), Done(err))
      else if op.MkDir? then (Directory(op.dir, e), Done(0))
      else (File(op.dir, e), Done(0))
  }

  /**
   One step. A failing step leaves the number it took set in the inode map. The refusal of a special
   file leaves the unnamed inode behind too, and a failing commit of the entry leaves the entry.
   */
  function Step(s: State, op: Op): (r: (State, Outcome))
    requires Coherent(s) && GoodOp(s, op)
  {
    if op.MkNod? && !op.validDevice then (s, Done(EINVAL))
    else
      var number := NewNumber(s, op.env);
      var (c, outcome) := Decide(s, op, number);
      (Apply(s.(bits := BitsAfter(s, op.env)), if number.Some? then number.value else 0, c), outcome)
  }

  // ---------------------------------------------------------------- numbers

  /** The inode map has the formatted shape, and live numbers lie in its full prefix. */
  predicate Numbered(s: State, lo: nat, hi: nat) {
    && Coherent(s) && 2 <= lo && Shape(s.bits, lo, hi) && |s.bits| <= TWO_32
    && 1 in s.dirs && (forall n :: n in s.links ==> 0 < n < lo)
    && (forall d :: d in s.dirs ==> |s.dirs[d]| >= 2)
  }

  function NextLo(s: State, op: Op, lo: nat, hi: nat): (r: nat) {
    if (op.MkNod? && !op.validDevice) || op.env.noMemory || lo == hi then lo else lo + 1
  }

  /** A step uses the next number or none, and the number is new to the live inodes. */
  lemma {:induction false} StepNumber(s: State, op: Op, lo: nat, hi: nat)
    requires Numbered(s, lo, hi)
    ensures NewNumber(s, op.env) == (if op.env.noMemory || lo == hi then None else Some(lo))
    ensures lo !in s.links && lo !in s.dirs
    ensures Shape(BitsAfter(s, op.env), if op.env.noMemory || lo == hi then lo else lo + 1, hi)
  {
    ShapeAlloc(s.bits, lo, hi);
  }

  lemma {:induction false} ApplyNumbered(s: State, lo: nat, hi: nat, c: Change)
    requires Numbered(s, lo + 1, hi) && lo !in s.links && lo !in s.dirs && 2 <= lo
    requires !c.Nothing? && !c.Unnamed? ==> c.dir in s.dirs
    ensures Numbered(Apply(s, lo, c), lo + 1, hi)
  {
    assert s.bits[lo];
  }

  lemma {:induction false} StepNumbered(s: State, op: Op, lo: nat, hi: nat)
    requires Numbered(s, lo, hi) && GoodOp(s, op)
    ensures Numbered(Step(s, op).0, NextLo(s, op, lo, hi), hi)
  {
    StepNumber(s, op, lo, hi);
    if !(op.MkNod? && !op.validDevice) && NewNumber(s, op.env).Some? {
      var lost := s.(bits := BitsAfter(s, op.env));
      assert Numbered(lost, lo + 1, hi);
      ApplyNumbered(lost, lo, hi, Decide(s, op, Some(lo)).0);
    }
  }

  // ---------------------------------------------------------------- the tree

  /** Entry `k` of directory `d` exists and is not a dot entry. */
  predicate Holds(dirs: map<nat, seq<Entry>>, d: nat, k: nat) {
    d in dirs && 2 <= k < |dirs[d]|
  }

  /** Every entry beyond the dots names a number that was handed out and is larger than its directory's. */
  ghost predicate Descending(s: State, lo: nat) {
    forall d: nat, k: nat {:trigger Holds(s.dirs, d, k)} :: Holds(s.dirs, d, k) ==> d < s.dirs[d][k].ino < lo
  }

  /** Every inode number occurs in at most one entry beyond the dots. */
  ghost predicate SoleNames(dirs: map<nat, seq<Entry>>) {
    forall d: nat, k: nat, d': nat, k': nat {:trigger Holds(dirs, d, k), Holds(dirs, d', k')} ::
      Holds(dirs, d, k) && Holds(dirs, d', k') && dirs[d][k].ino == dirs[d'][k'].ino ==> d == d' && k == k'
  }

  predicate HoldsChild(dirs: map<nat, seq<Entry>>, p: nat, d: nat) {
    p in dirs && exists k: nat :: 2 <= k < |dirs[p]| && dirs[p][k].ino == d
  }

  /** The dot entries of a directory: itself, and the directory that holds it. */
  predicate ParentedAt(dirs: map<nat, seq<Entry>>, d: nat)
    requires d in dirs
  {
    |dirs[d]| >= 2 && dirs[d][0].ino == d && 0 < dirs[d][1].ino < d && HoldsChild(dirs, dirs[d][1].ino, d)
  }

  ghost predicate Parented(dirs: map<nat, seq<Entry>>) {
    forall d: nat {:trigger ParentedAt(dirs, d)} :: d in dirs && d != 1 ==> ParentedAt(dirs, d)
  }

  /** Number of entries after the first two that name a directory. */
  function Subdirs(es: seq<Entry>, dirs: set<nat>): (r: nat) {
    if |es| <= 2 then 0
    else Subdirs(es[..|es| - 1], dirs) + (if es[|es| - 1].ino in dirs then 1 else 0)
  }

  /** A directory's link count: its own two (one for the root), and one per subdirectory. */
  predicate CountedAt(dirs: map<nat, seq<Entry>>, links: map<nat, int>, d: nat)
    requires d in dirs
  {
    d in links && links[d] == (if d == 1 then 1 else 2) + Subdirs(dirs[d], dirs.Keys)
  }

  ghost predicate Counted(dirs: map<nat, seq<Entry>>, links: map<nat, int>) {
    forall d: nat {:trigger CountedAt(dirs, links, d)} :: d in dirs ==> CountedAt(dirs, links, d)
  }

  /** A change that names number `lo` in a directory with a smaller number. */
  predicate Names(s: State, lo: nat, c: Change) {
    !c.Nothing? && !c.Unnamed? ==>
      c.dir in s.dirs && c.dir in s.links && 0 < c.dir < lo && |s.dirs[c.dir]| >= 2 && c.entry.ino == lo
  }

  lemma {:induction false} ApplyDescending(s: State, lo: nat, c: Change)
    requires Names(s, lo, c) && lo !in s.dirs && Descending(s, lo)
    ensures Descending(Apply(s, lo, c), lo + 1)
  {
    var dirs: map<nat, seq<Entry>> := Apply(s, lo, c).dirs;
    forall d: nat, k: nat | Holds(dirs, d, k)
      ensures d < dirs[d][k].ino < lo + 1
    {
      AppliedEntry(s, lo, c, d, k);
    }
  }

  lemma {:induction false} ApplySoleNames(s: State, lo: nat, c: Change)
    requires Names(s, lo, c) && lo !in s.dirs && Descending(s, lo) && SoleNames(s.dirs)
    ensures SoleNames(Apply(s, lo, c).dirs)
  {
    var dirs: map<nat, seq<Entry>> := Apply(s, lo, c).dirs;
    forall d: nat, k: nat, d': nat, k': nat |
        Holds(dirs, d, k) && Holds(dirs, d', k') && dirs[d][k].ino == dirs[d'][k'].ino
      ensures d == d' && k == k'
    {
      AppliedEntry(s, lo, c, d, k);
      AppliedEntry(s, lo, c, d', k');
    }
  }

  /** An entry after the change is an entry from before, or the one just added. */
  lemma {:induction false} AppliedEntry(s: State, lo: nat, c: Change, d: nat, k: nat)
    requires Names(s, lo, c) && lo !in s.dirs && Descending(s, lo) && Holds(Apply(s, lo, c).dirs, d, k)
    ensures var e := Apply(s, lo, c).dirs[d][k];
            (Holds(s.dirs, d, k) && e == s.dirs[d][k] && e.ino < lo)
            || (!c.Nothing? && !c.Unnamed? && d == c.dir && d in s.dirs && k == |s.dirs[d]| && e.ino == lo)
  {
    assert d in s.dirs && k < |s.dirs[d]| ==> Holds(s.dirs, d, k);
  }

  lemma {:induction false} ApplyParented(s: State, lo: nat, c: Change)
    requires Names(s, lo, c) && lo !in s.dirs && lo >= 2 && Parented(s.dirs)
    ensures Parented(Apply(s, lo, c).dirs)
  {
    var dirs: map<nat, seq<Entry>> := Apply(s, lo, c).dirs;
    forall d: nat | d in dirs && d != 1
      ensures ParentedAt(dirs, d)
    {
      if d == lo {
        assert dirs[c.dir][|s.dirs[c.dir]|].ino == lo;
      } else {
        assert ParentedAt(s.dirs, d);
        KeepsChild(s, lo, c, s.dirs[d][1].ino, d);
      }
    }
  }

  lemma {:induction false} KeepsChild(s: State, lo: nat, c: Change, p: nat, d: nat)
    requires Names(s, lo, c) && lo !in s.dirs && HoldsChild(s.dirs, p, d)
    ensures HoldsChild(Apply(s, lo, c).dirs, p, d)
  {
    var k: nat :| 2 <= k < |s.dirs[p]| && s.dirs[p][k].ino == d;
    assert Apply(s, lo, c).dirs[p][k].ino == d;
  }

  /** A new number does not change the counts of directories that do not name it. */
  lemma {:induction false} SubdirsIgnore(es: seq<Entry>, dirs: set<nat>, ino: nat)
    requires forall k: nat :: 2 <= k < |es| ==> es[k].ino != ino
    ensures Subdirs(es, dirs + {ino}) == Subdirs(es, dirs)
  {
    if |es| > 2 {
      SubdirsIgnore(es[..|es| - 1], dirs, ino);
    }
  }

  lemma {:induction false} SubdirsAppend(es: seq<Entry>, e: Entry, dirs: set<nat>)
    requires |es| >= 2
    ensures Subdirs(es + [e], dirs) == Subdirs(es, dirs) + (if e.ino in dirs then 1 else 0)
  {
    assert (es + [e])[..|es|] == es;
  }

  lemma {:induction false} ApplyCounted(s: State, lo: nat, c: Change)
    requires Names(s, lo, c) && lo !in s.dirs && lo >= 2 && Descending(s, lo) && Counted(s.dirs, s.links)
    ensures Counted(Apply(s, lo, c).dirs, Apply(s, lo, c).links)
  {
    var s' := Apply(s, lo, c);
    forall d: nat | d in s'.dirs
      ensures CountedAt(s'.dirs, s'.links, d)
    {
      if d in s.dirs {
        assert CountedAt(s.dirs, s.links, d);
      }
      if !c.Nothing? && !c.Unnamed? {
        ApplyCountedAt(s, lo, c, d);
      } else if c.Unnamed? {
        assert s'.dirs == s.dirs;
      }
    }
  }

  lemma {:induction false} ApplyCountedAt(s: State, lo: nat, c: Change, d: nat)
    requires Names(s, lo, c) && !c.Nothing? && !c.Unnamed? && lo !in s.dirs && lo >= 2 && Descending(s, lo)
    requires d in Apply(s, lo, c).dirs && (d in s.dirs ==> CountedAt(s.dirs, s.links, d))
    ensures CountedAt(Apply(s, lo, c).dirs, Apply(s, lo, c).links, d)
  {
    var s' := Apply(s, lo, c);
    assert s'.dirs.Keys == if c.Directory? then s.dirs.Keys + {lo} else s.dirs.Keys;
    if d != lo {
      forall k: nat | 2 <= k < |s.dirs[d]|
        ensures s.dirs[d][k].ino != lo
      {
        assert Holds(s.dirs, d, k);
      }
      SubdirsIgnore(s.dirs[d], s.dirs.Keys, lo);
    }
    SubdirsAppend(s.dirs[c.dir], c.entry, s'.dirs.Keys);
  }

  ghost predicate Tree(s: State, lo: nat) {
    Descending(s, lo) && SoleNames(s.dirs) && Parented(s.dirs) && Counted(s.dirs, s.links)
  }

  lemma {:induction false} StepKeepsTree(s: State, op: Op, lo: nat, hi: nat)
    requires Numbered(s, lo, hi) && GoodOp(s, op) && Tree(s, lo)
    ensures Tree(Step(s, op).0, NextLo(s, op, lo, hi))
  {
    StepNumber(s, op, lo, hi);
    if !(op.MkNod? && !op.validDevice) && NewNumber(s, op.env).Some? {
      var lost := s.(bits := BitsAfter(s, op.env));
      var c := Decide(s, op, Some(lo)).0;
      ApplyDescending(lost, lo, c);
      ApplySoleNames(lost, lo, c);
      ApplyParented(lost, lo, c);
      ApplyCounted(lost, lo, c);
    }
  }

  /**
   Creating a file crashes the kernel exactly when no inode can be had: the new inode's number is
   read before the pointer is tested.
   */
  lemma {:induction false} MkNodOopsWhen(s: State, op: Op, lo: nat, hi: nat)
    requires Numbered(s, lo, hi) && GoodOp(s, op)
    ensures Step(s, op).1.Oops? <==> op.MkNod? && op.validDevice && (op.env.noMemory || lo == hi)
  {
    StepNumber(s, op, lo, hi);
  }

  /**
   The step stores its entry and then fails: a number is to be had, the name is new, the entry's block
   can be had, and its commit fails. The inode is dropped and the entry stays.
   */
  predicate Orphans(s: State, op: Op)
    requires GoodOp(s, op)
  {
    && !op.TmpFile? && NewNumber(s, op.env).Some?
    && (if op.MkDir? then op.env.empty.Err() == 0 else op.validDevice && op.regular)
    && !HasName(s.dirs[op.dir], op.name) && op.env.link.prepare == 0 && op.env.link.commit != 0
  }

  /**
   A failing step leaves every link count that it found as it was. It leaves every directory as it
   was exactly when it does not fail in the commit of its entry.
   */
  lemma {:induction false} FailureUndoesWhen(s: State, op: Op, lo: nat, hi: nat)
    requires Numbered(s, lo, hi) && GoodOp(s, op) && Step(s, op).1 != Done(0)
    ensures forall n :: n in s.links ==> n in Step(s, op).0.links && Step(s, op).0.links[n] == s.links[n]
    ensures Step(s, op).0.dirs == s.dirs <==> !Orphans(s, op)
  {
    StepNumber(s, op, lo, hi);
    if Orphans(s, op) {
      var c := Decide(s, op, Some(lo)).0;
      assert c == Orphan(op.dir, Entry(op.name, lo));
      assert |Step(s, op).0.dirs[op.dir]| == |s.dirs[op.dir]| + 1;
    }
  }

  /** Every entry beyond the dots names a live inode. */
  ghost predicate AllLive(s: State) {
    forall d: nat, k: nat {:trigger Holds(s.dirs, d, k)} :: Holds(s.dirs, d, k) ==> s.dirs[d][k].ino in s.links
  }

  lemma {:induction false} ApplyLive(s: State, lo: nat, c: Change)
    requires Names(s, lo, c) && lo !in s.dirs && lo !in s.links && Descending(s, lo)
    ensures AllLive(Apply(s, lo, c)) <==> AllLive(s) && !c.Orphan?
  {
    var s' := Apply(s, lo, c);
    if AllLive(s') {
      forall d: nat, k: nat | Holds(s.dirs, d, k)
        ensures s.dirs[d][k].ino in s.links
      {
        assert Holds(s'.dirs, d, k) && s'.dirs[d][k] == s.dirs[d][k];
      }
    }
    if c.Orphan? {
      assert Holds(s'.dirs, c.dir, |s.dirs[c.dir]|) && s'.dirs[c.dir][|s.dirs[c.dir]|].ino == lo;
    } else if AllLive(s) {
      forall d: nat, k: nat | Holds(s'.dirs, d, k)
        ensures s'.dirs[d][k].ino in s'.links
      {
        AppliedEntry(s, lo, c, d, k);
      }
    }
  }

  /** A dead entry never comes back to life, and only a failing commit makes one. */
  lemma {:induction false} StepLive(s: State, op: Op, lo: nat, hi: nat)
    requires Numbered(s, lo, hi) && GoodOp(s, op) && Descending(s, lo)
    ensures AllLive(Step(s, op).0) <==> AllLive(s) && !Orphans(s, op)
  {
    StepNumber(s, op, lo, hi);
    if !(op.MkNod? && !op.validDevice) && NewNumber(s, op.env).Some? {
      var lost := s.(bits := BitsAfter(s, op.env));
      var c := Decide(s, op, Some(lo)).0;
      ApplyLive(lost, lo, c);
      assert AllLive(lost) <==> AllLive(s);
    }
  }

  // ---------------------------------------------------------------- names

  /** One directory: the dot entries first, valid entries, and no name twice. */
  predicate DirOk(es: seq<Entry>) {
    && |es| >= 2 && DistinctNames(es) && es[0].name == [46] && es[1].name == [46, 46]
    && forall k: nat :: k < |es| ==> GoodEntry(es[k])
  }

  ghost predicate NamesOk(s: State) {
    forall d: nat {:trigger DirOk(s.dirs[d])} :: d in s.dirs ==> DirOk(s.dirs[d])
  }

  lemma {:induction false} AppendKeepsNames(es: seq<Entry>, e: Entry, io: Io)
    requires DirOk(es) && GoodEntry(e) && Append(es, e, io).0 == es + [e]
    ensures DirOk(es + [e])
  {
    assert |Append(es, e, io).0| == |es| + 1;
    assert !HasName(es, e.name);
  }

  lemma {:induction false} StepKeepsNames(s: State, op: Op, lo: nat, hi: nat)
    requires Numbered(s, lo, hi) && GoodOp(s, op) && NamesOk(s)
    ensures NamesOk(Step(s, op).0)
  {
    StepNumber(s, op, lo, hi);
    var s' := Step(s, op).0;
    forall d: nat | d in s'.dirs
      ensures DirOk(s'.dirs[d])
    {
      if d in s.dirs {
        assert DirOk(s.dirs[d]);
      }
      if s'.dirs != s.dirs {
        assert DirOk(s.dirs[op.dir]);
        var c := Decide(s, op, Some(lo)).0;
        AppendKeepsNames(s.dirs[op.dir], c.entry, op.env.link);
        NewDirOk(lo, op.dir);
      }
    }
  }

  lemma {:induction false} NewDirOk(self: nat, parent: nat)
    requires 0 < self < TWO_32 && 0 < parent < TWO_32
    ensures DirOk(NewEntries(self, parent))
  {
  }

  /** The list append that the steps use is the append on any slots that show the same entries. */
  lemma {:induction false} AppendIsAddLink(slots: seq<Slot>, es: seq<Entry>, e: Entry, io: Io)
    requires DirOk(es) && GoodEntry(e) && |slots| == |es|
    requires forall k: nat :: k < |es| ==> DecodeEntry(slots[k]) == es[k]
    ensures var (t, err) := AddLink(slots, e.name, e.ino, io);
            && err == Append(es, e, io).1 && |t| == |Append(es, e, io).0|
            && forall k: nat :: k < |t| ==> DecodeEntry(t[k]) == Append(es, e, io).0[k]
  {
    AddLinkRefines(slots, es, e, io);
  }

  // ---------------------------------------------------------------- runs

  /** A step of a run; calls that the VFS would not make (no such directory, unusable name) are skipped. */
  function Next(s: State, op: Op): (r: State) {
    if Coherent(s) && GoodOp(s, op) then Step(s, op).0 else s
  }

  /** The number that a step takes from the map, if any. */
  function TakenBy(s: State, op: Op): (r: seq<nat>) {
    if !Coherent(s) || !GoodOp(s, op) || (op.MkNod? && !op.validDevice) || NewNumber(s, op.env).None? then []
    else [NewNumber(s, op.env).value]
  }

  /** The operation, if it is made, fails in the commit of its entry. */
  predicate LeavesOrphan(s: State, op: Op) {
    Coherent(s) && GoodOp(s, op) && Orphans(s, op)
  }

  /** A state, all numbers taken so far in order, and the operations that left their entry behind. */
  datatype History = History(state: State, taken: seq<nat>, orphaning: seq<Op>) {
    function Extend(op: Op): (r: History) {
      History(Next(state, op), taken + TakenBy(state, op),
              if LeavesOrphan(state, op) then orphaning + [op] else orphaning)
    }
  }

  /** What the first `n` operations lead to. */
  function Run(s: State, ops: seq<Op>, n: nat): (r: History)
    requires n <= |ops|
  {
    if n == 0 then History(s, [], []) else Run(s, ops, n - 1).Extend(ops[n - 1])
  }

  /** Induction over runs. */
  lemma {:induction false} RunInvariant(s: State, ops: seq<Op>, n: nat, inv: History -> bool)
    requires n <= |ops| && inv(History(s, [], []))
    requires forall h: History, op: Op :: inv(h) ==> inv(h.Extend(op))
    ensures inv(Run(s, ops, n))
  {
    if n > 0 {
      RunInvariant(s, ops, n - 1, inv);
    }
  }

  /** The numbers from `lo` on, all below `hi`. */
  predicate Consecutive(xs: seq<nat>, lo: nat, hi: nat) {
    forall i: nat :: i < |xs| ==> xs[i] == lo + i < hi
  }

  ghost predicate Good(s: State, lo: nat, hi: nat) {
    Numbered(s, lo, hi) && Tree(s, lo) && NamesOk(s)
  }

  ghost predicate GoodHistory(h: History, lo: nat, hi: nat) {
    Good(h.state, lo + |h.taken|, hi) && Consecutive(h.taken, lo, hi)
  }

  lemma {:induction false} OneTaken(s: State, op: Op, lo: nat, hi: nat)
    requires Numbered(s, lo, hi)
    ensures TakenBy(s, op) == [] || (TakenBy(s, op) == [lo] && lo < hi)
    ensures GoodOp(s, op) ==> NextLo(s, op, lo, hi) == lo + |TakenBy(s, op)|
  {
    StepNumber(s, op, lo, hi);
  }

  lemma {:induction false} NextKeepsGood(s: State, op: Op, lo: nat, hi: nat)
    requires Good(s, lo, hi)
    ensures Good(Next(s, op), lo + |TakenBy(s, op)|, hi)
  {
    OneTaken(s, op, lo, hi);
    if GoodOp(s, op) {
      StepNumbered(s, op, lo, hi);
      StepKeepsTree(s, op, lo, hi);
      StepKeepsNames(s, op, lo, hi);
    }
  }

  lemma {:induction false} ExtendKeepsGood(h: History, op: Op, lo: nat, hi: nat)
    requires GoodHistory(h, lo, hi)
    ensures GoodHistory(h.Extend(op), lo, hi)
  {
    NextKeepsGood(h.state, op, lo + |h.taken|, hi);
    OneTaken(h.state, op, lo + |h.taken|, hi);
  }

  /**
   Every run of mkdir, mknod and tmpfile, with every failure included, keeps the numbering, the tree,
   the names and the link counts in each of its states. The numbers it takes are consecutive and
   below the reserved tail, so none is ever taken twice.
   */
  lemma {:induction false} RunKeepsTree(s: State, ops: seq<Op>, n: nat, lo: nat, hi: nat)
    requires Good(s, lo, hi) && n <= |ops|
    ensures GoodHistory(Run(s, ops, n), lo, hi)
  {
    forall h: History, op: Op | GoodHistory(h, lo, hi)
      ensures GoodHistory(h.Extend(op), lo, hi)
    {
      ExtendKeepsGood(h, op, lo, hi);
    }
    RunInvariant(s, ops, n, h => GoodHistory(h, lo, hi));
  }

  ghost predicate LiveHistory(h: History, lo: nat, hi: nat) {
    GoodHistory(h, lo, hi) && (AllLive(h.state) <==> h.orphaning == [])
  }

  lemma {:induction false} NextLive(s: State, op: Op, lo: nat, hi: nat)
    requires Good(s, lo, hi)
    ensures AllLive(Next(s, op)) <==> AllLive(s) && !LeavesOrphan(s, op)
  {
    if GoodOp(s, op) {
      StepLive(s, op, lo, hi);
    }
  }

  lemma {:induction false} ExtendKeepsLive(h: History, op: Op, lo: nat, hi: nat)
    requires LiveHistory(h, lo, hi)
    ensures LiveHistory(h.Extend(op), lo, hi)
  {
    ExtendKeepsGood(h, op, lo, hi);
    NextLive(h.state, op, lo + |h.taken|, hi);
  }

  /** After a run every entry names a live inode exactly when no step failed in the commit of its entry. */
  lemma {:induction false} EntriesAreLiveWhen(s: State, ops: seq<Op>, n: nat, lo: nat, hi: nat)
    requires Good(s, lo, hi) && AllLive(s) && n <= |ops|
    ensures AllLive(Run(s, ops, n).state) <==> Run(s, ops, n).orphaning == []
  {
    forall h: History, op: Op | LiveHistory(h, lo, hi)
      ensures LiveHistory(h.Extend(op), lo, hi)
    {
      ExtendKeepsLive(h, op, lo, hi);
    }
    RunInvariant(s, ops, n, h => LiveHistory(h, lo, hi));
  }

  /** A device as the formatter leaves it: the root alone. The numbers in its dot entries are not used. */
  lemma {:induction false} FormattedIsGood(bits: seq<bool>, hi: nat, dot: nat)
    requires Shape(bits, 2, hi) && |bits| <= TWO_32 && 0 < dot < TWO_32
    ensures Good(State(bits, map[1 := NewEntries(dot, dot)], map[1 := 1]), 2, hi)
  {
    NewDirOk(dot, dot);
    var s := State(bits, map[1 := NewEntries(dot, dot)], map[1 := 1]);
    assert bits[1];
    assert Tree(s, 2);
  }

  // ---------------------------------------------------------------- what the tree means

  /** The first entry from `k` on with a name. */
  function NameIndex(es: seq<Entry>, name: seq<Byte>, k: nat): (r: Option<nat>)
    requires k <= |es|
    ensures r.Some? ==> k <= r.value < |es| && es[r.value].name == name
    decreases |es| - k
  {
    if k == |es| then None else if es[k].name == name then Some(k) else NameIndex(es, name, k + 1)
  }

  lemma {:induction false} NameIndexAt(es: seq<Entry>, k: nat, from: nat)
    requires from <= k < |es| && DistinctNames(es)
    ensures NameIndex(es, es[k].name, from) == Some(k)
    decreases k - from
  {
    if from < k {
      NameIndexAt(es, k, from + 1);
    }
  }

  /** Path resolution from the root, by the entries beyond the dots. */
  function Resolve(dirs: map<nat, seq<Entry>>, path: seq<seq<Byte>>): (r: Option<nat>) {
    if path == [] then Some(1)
    else
      match Resolve(dirs, path[..|path| - 1])
      case None => None
      case Some(d) =>
        if d !in dirs || |dirs[d]| < 2 then None
        else
          match NameIndex(dirs[d], path[|path| - 1], 2)
          case None => None
          case Some(k) => Some(dirs[d][k].ino)
  }

  /** The last component of a resolved path: the directory and the entry that hold it. */
  lemma {:induction false} ResolveLast(dirs: map<nat, seq<Entry>>, path: seq<seq<Byte>>) returns (d: nat, k: nat)
    requires path != [] && Resolve(dirs, path).Some?
    ensures Resolve(dirs, path[..|path| - 1]) == Some(d) && d in dirs && 2 <= k < |dirs[d]|
    ensures dirs[d][k].name == path[|path| - 1] && Resolve(dirs, path) == Some(dirs[d][k].ino)
  {
    d := Resolve(dirs, path[..|path| - 1]).value;
    k := NameIndex(dirs[d], path[|path| - 1], 2).value;
  }

  /** Entries beyond the dots name larger numbers than their directory's, and directory numbers are not 0. */
  ghost predicate Rising(dirs: map<nat, seq<Entry>>) {
    forall d: nat, k: nat {:trigger Holds(dirs, d, k)} :: Holds(dirs, d, k) ==> 0 < d < dirs[d][k].ino
  }

  lemma {:induction false} TreeFacts(s: State, lo: nat, hi: nat)
    requires Good(s, lo, hi)
    ensures Rising(s.dirs) && SoleNames(s.dirs) && Parented(s.dirs)
    ensures forall d :: d in s.dirs ==> DistinctNames(s.dirs[d])
  {
    forall d | d in s.dirs
      ensures DistinctNames(s.dirs[d])
    {
      assert DirOk(s.dirs[d]);
    }
  }

  lemma {:induction false} OnePath(dirs: map<nat, seq<Entry>>, p: seq<seq<Byte>>, q: seq<seq<Byte>>)
    requires Rising(dirs) && SoleNames(dirs)
    requires Resolve(dirs, p).Some? && Resolve(dirs, p) == Resolve(dirs, q)
    ensures p == q
    decreases |p|
  {
    if p != [] && q != [] {
      var d, k := ResolveLast(dirs, p);
      var d', k' := ResolveLast(dirs, q);
      assert Holds(dirs, d, k) && Holds(dirs, d', k');
      OnePath(dirs, p[..|p| - 1], q[..|q| - 1]);
      assert p == p[..|p| - 1] + [dirs[d][k].name] && q == q[..|q| - 1] + [dirs[d][k].name];
    } else if p != [] {
      var d, k := ResolveLast(dirs, p);
      assert Holds(dirs, d, k);
    } else if q != [] {
      var d, k := ResolveLast(dirs, q);
      assert Holds(dirs, d, k);
    }
  }

  lemma {:induction false} SomePath(dirs: map<nat, seq<Entry>>, d: nat) returns (path: seq<seq<Byte>>)
    requires Parented(dirs) && d in dirs && forall x :: x in dirs ==> DistinctNames(dirs[x])
    ensures Resolve(dirs, path) == Some(d)
    ensures d != 1 ==> path != [] && |dirs[d]| >= 2 && Resolve(dirs, path[..|path| - 1]) == Some(dirs[d][1].ino)
    decreases d
  {
    if d == 1 {
      path := [];
    } else {
      assert ParentedAt(dirs, d);
      var p := dirs[d][1].ino;
      assert HoldsChild(dirs, p, d);
      var k: nat :| 2 <= k < |dirs[p]| && dirs[p][k].ino == d;
      var up := SomePath(dirs, p);
      path := up + [dirs[p][k].name];
      assert path[..|path| - 1] == up;
      NameIndexAt(dirs[p], k, 2);
    }
  }

  /** Two paths to one number are the same path, and every directory has one that its `..` entries spell backwards. */
  ghost predicate IsTree(dirs: map<nat, seq<Entry>>) {
    && (forall p, q :: Resolve(dirs, p).Some? && Resolve(dirs, p) == Resolve(dirs, q) ==> p == q)
    && (forall d :: d in dirs ==> exists path :: PathTo(dirs, d, path))
  }

  /**
   The namespace is a tree rooted at inode 1. After every run, two paths to the same inode are the
   same path, so there are no second names and no cycles; and every directory has a path, which
   its `..` entries spell backwards.
   */
  lemma {:induction false} NamespaceIsATree(s: State, ops: seq<Op>, n: nat, lo: nat, hi: nat)
    requires Good(s, lo, hi) && n <= |ops|
    ensures IsTree(Run(s, ops, n).state.dirs)
  {
    var dirs := Run(s, ops, n).state.dirs;
    assert Rising(dirs) && SoleNames(dirs) && Parented(dirs) && forall x :: x in dirs ==> DistinctNames(dirs[x]) by {
      RunKeepsTree(s, ops, n, lo, hi);
      TreeFacts(Run(s, ops, n).state, lo + |Run(s, ops, n).taken|, hi);
    }
    forall p, q | Resolve(dirs, p).Some? && Resolve(dirs, p) == Resolve(dirs, q)
      ensures p == q
    {
      OnePath(dirs, p, q);
    }
    forall d | d in dirs
      ensures exists path :: PathTo(dirs, d, path)
    {
      var path := SomePath(dirs, d);
      assert PathTo(dirs, d, path);
    }
  }

  /** A path that resolves to `d`, and without its last component to the directory that `..` of `d` names. */
  predicate PathTo(dirs: map<nat, seq<Entry>>, d: nat, path: seq<seq<Byte>>) {
    && Resolve(dirs, path) == Some(d)
    && (d != 1 ==>
          d in dirs && |dirs[d]| >= 2 && path != [] && Resolve(dirs, path[..|path| - 1]) == Some(dirs[d][1].ino))
  }
}
