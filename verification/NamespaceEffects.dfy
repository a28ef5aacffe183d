/**
 What the namespace operations achieve: when each succeeds and with which error it fails otherwise, what a
 successful one leaves, and that what was created is found under its name, with its link count, ever after.
 */
module NamespaceEffects {
  import opened Options
  import opened Endian
  import opened DirectoryEntries
  import opened Namespace

  /** No error from the block layer. */
  predicate Fine(io: Io) {
    io.prepare == 0 && io.commit == 0
  }

  /** An operation succeeds exactly when there is memory and a number, and nothing that it stores is refused. */
  lemma {:induction false} SucceedsWhen(s: State, op: Op, lo: nat, hi: nat)
    requires Numbered(s, lo, hi) && GoodOp(s, op)
    ensures Step(s, op).1 == Done(0) <==>
            && !op.env.noMemory && lo < hi
            && match op
               case TmpFile(_) => true
               case MkNod(dir, name, validDevice, regular, env) =>
                 validDevice && regular && !HasName(s.dirs[dir], name) && Fine(env.link)
               case MkDir(dir, name, env) => Fine(env.empty) && !HasName(s.dirs[dir], name) && Fine(env.link)
  {
    StepNumber(s, op, lo, hi);
  }

  /** The error of the first thing that goes wrong, or 0. */
  function FirstError(errors: seq<int>): (r: int) {
    if errors == [] then 0 else if errors[0] != 0 then errors[0] else FirstError(errors[1..])
  }

  /** The errors in the order in which they are met: no memory, no number, the dot entries, a duplicate, the entry. */
  lemma {:induction false} FailsWith(s: State, op: Op, lo: nat, hi: nat)
    requires Numbered(s, lo, hi) && GoodOp(s, op)
    ensures op.MkNod? && !op.validDevice ==> Step(s, op).1 == Done(-22)
    ensures op.MkNod? && op.validDevice && (op.env.noMemory || lo == hi) ==> Step(s, op).1 == Oops
    ensures op.MkNod? && op.validDevice && !op.env.noMemory && lo < hi && !op.regular ==> Step(s, op).1 == Done(-22)
    ensures op.MkNod? && op.validDevice && !op.env.noMemory && lo < hi && op.regular ==>
              Step(s, op).1 == Done(FirstError([if HasName(s.dirs[op.dir], op.name) then -17 else 0,
                                                op.env.link.prepare, op.env.link.commit]))
    ensures !op.MkNod? && op.env.noMemory ==> Step(s, op).1 == Done(-12)
    ensures !op.MkNod? && !op.env.noMemory && lo == hi ==> Step(s, op).1 == Done(-28)
    ensures op.MkDir? && !op.env.noMemory && lo < hi ==>
              Step(s, op).1 == Done(FirstError([op.env.empty.prepare, op.env.empty.commit,
                                                if HasName(s.dirs[op.dir], op.name) then -17 else 0,
                                                op.env.link.prepare, op.env.link.commit]))
    ensures op.TmpFile? && !op.env.noMemory && lo < hi ==> Step(s, op).1 == Done(0)
  {
    StepNumber(s, op, lo, hi);
    if !op.TmpFile? {
      var dup := if HasName(s.dirs[op.dir], op.name) then -17 else 0;
      var io, empty := op.env.link, op.env.empty;
      ThreeErrors(dup, io.prepare, io.commit);
      assert [empty.prepare, empty.commit, dup, io.prepare, io.commit][2..] == [dup, io.prepare, io.commit];
      TwoMore(empty.prepare, empty.commit, [dup, io.prepare, io.commit]);
    }
  }

  lemma {:induction false} ThreeErrors(a: int, b: int, c: int)
    ensures FirstError([a, b, c]) == if a != 0 then a else if b != 0 then b else c
  {
    assert [c][1..] == [] && [b, c][1..] == [c] && [a, b, c][1..] == [b, c];
    assert FirstError([c]) == c;
    assert FirstError([b, c]) == if b != 0 then b else c;
  }

  lemma {:induction false} TwoMore(a: int, b: int, rest: seq<int>)
    ensures FirstError([a, b] + rest) == if a != 0 then a else if b != 0 then b else FirstError(rest)
  {
    assert ([a, b] + rest)[1..] == [b] + rest && ([b] + rest)[1..] == rest;
  }

  /** What a successful operation leaves: the new inode, its name, its link count; and nothing else changes. */
  lemma {:induction false} SuccessLeaves(s: State, op: Op, lo: nat, hi: nat)
    requires Numbered(s, lo, hi) && GoodOp(s, op) && Step(s, op).1 == Done(0)
    ensures lo !in s.links && lo !in s.dirs
    ensures var t := Step(s, op).0;
            match op
            case TmpFile(_) => t.dirs == s.dirs && t.links == s.links[lo := 0]
            case MkNod(dir, name, _, _, _) =>
              && t.dirs == s.dirs[dir := s.dirs[dir] + [Entry(name, lo)]] && t.links == s.links[lo := 1]
            case MkDir(dir, name, _) =>
              && t.dirs == s.dirs[dir := s.dirs[dir] + [Entry(name, lo)]][lo := [Entry([46], lo), Entry([46, 46], dir)]]
              && t.links == s.links[dir := s.links[dir] + 1][lo := 2]
  {
    SucceedsWhen(s, op, lo, hi);
    StepNumber(s, op, lo, hi);
  }

  /**
   What a failing one leaves: a refused special file its inode, with link count 1 and no name; a failing commit
   of the entry that entry; any other failure nothing.
   */
  lemma {:induction false} FailureLeaves(s: State, op: Op, lo: nat, hi: nat)
    requires Numbered(s, lo, hi) && GoodOp(s, op) && Step(s, op).1 != Done(0)
    ensures var t, had := Step(s, op).0, !op.env.noMemory && lo < hi;
            && t.links == (if op.MkNod? && op.validDevice && !op.regular && had then s.links[lo := 1] else s.links)
            && t.dirs == (if had && !op.TmpFile? && !HasName(s.dirs[op.dir], op.name) && op.env.link.prepare == 0
                             && op.env.link.commit != 0
                             && (if op.MkDir? then Fine(op.env.empty) else op.validDevice && op.regular)
                          then s.dirs[op.dir := s.dirs[op.dir] + [Entry(op.name, lo)]] else s.dirs)
  {
    StepNumber(s, op, lo, hi);
    if !op.TmpFile? {
      assert s.dirs[op.dir := s.dirs[op.dir]] == s.dirs;
    }
  }

  /** Every operation that gets as far as the inode map takes the next number, whether it succeeds or not. */
  lemma {:induction false} NumberIsTaken(s: State, op: Op, lo: nat, hi: nat)
    requires Numbered(s, lo, hi) && GoodOp(s, op)
    ensures Step(s, op).0.bits ==
            if (op.MkNod? && !op.validDevice) || op.env.noMemory || lo == hi then s.bits else s.bits[lo := true]
  {
    StepNumber(s, op, lo, hi);
  }

  // ---------------------------------------------------------------- names stay

  /** Directories stay, and entries are only appended. */
  predicate Grows(dirs: map<nat, seq<Entry>>, now: map<nat, seq<Entry>>) {
    forall d: nat {:trigger d in now} :: d in dirs ==> d in now && dirs[d] <= now[d]
  }

  lemma {:induction false} StepGrows(s: State, op: Op, lo: nat, hi: nat)
    requires Numbered(s, lo, hi) && GoodOp(s, op)
    ensures Grows(s.dirs, Step(s, op).0.dirs)
  {
    StepNumber(s, op, lo, hi);
  }

  lemma {:induction false} NameIndexGrows(es: seq<Entry>, now: seq<Entry>, name: seq<Byte>, k: nat)
    requires es <= now && k <= |es| && NameIndex(es, name, k).Some?
    ensures NameIndex(now, name, k) == NameIndex(es, name, k)
    decreases |es| - k
  {
    if es[k].name != name {
      NameIndexGrows(es, now, name, k + 1);
    }
  }

  /** A path that leads somewhere leads there ever after. */
  lemma {:induction false} ResolveGrows(dirs: map<nat, seq<Entry>>, now: map<nat, seq<Entry>>, path: seq<seq<Byte>>)
    requires Grows(dirs, now) && Resolve(dirs, path).Some?
    ensures Resolve(now, path) == Resolve(dirs, path)
  {
    if path != [] {
      ResolveGrows(dirs, now, path[..|path| - 1]);
      var d := Resolve(dirs, path[..|path| - 1]).value;
      assert d in now;
      NameIndexGrows(dirs[d], now[d], path[|path| - 1], 2);
    }
  }

  /** After a successful mkdir or mknod the path with the new name leads to the new inode. */
  lemma {:induction false} CreatedIsFound(s: State, op: Op, lo: nat, hi: nat, path: seq<seq<Byte>>)
    requires Good(s, lo, hi) && GoodOp(s, op) && Step(s, op).1 == Done(0) && !op.TmpFile?
    requires Resolve(s.dirs, path) == Some(op.dir)
    ensures Resolve(Step(s, op).0.dirs, path + [op.name]) == Some(lo)
  {
    var t := Step(s, op).0;
    SuccessLeaves(s, op, lo, hi);
    StepGrows(s, op, lo, hi);
    ResolveGrows(s.dirs, t.dirs, path);
    assert (path + [op.name])[..|path|] == path;
    StepNumbered(s, op, lo, hi);
    StepKeepsNames(s, op, lo, hi);
    var es := t.dirs[op.dir];
    assert DirOk(es) && es == s.dirs[op.dir] + [Entry(op.name, lo)];
    NameIndexAt(es, |es| - 1, 2);
  }

  // ---------------------------------------------------------------- link counts

  /** Link counts of inodes that are no directories do not change, and they do not become directories. */
  predicate FilesStay(s: State, t: State) {
    forall n: nat {:trigger n in t.links} :: n in s.links && n !in s.dirs ==>
      n in t.links && t.links[n] == s.links[n] && n !in t.dirs
  }

  lemma {:induction false} StepFilesStay(s: State, op: Op, lo: nat, hi: nat)
    requires Numbered(s, lo, hi) && GoodOp(s, op)
    ensures FilesStay(s, Step(s, op).0)
  {
    StepNumber(s, op, lo, hi);
  }

  /** What was there stays through the rest of a run. */
  lemma {:induction false} RunStays(s: State, ops: seq<Op>, k: nat, n: nat, lo: nat, hi: nat)
    requires Good(s, lo, hi) && k <= n <= |ops|
    ensures FilesStay(Run(s, ops, k).state, Run(s, ops, n).state)
    ensures Grows(Run(s, ops, k).state.dirs, Run(s, ops, n).state.dirs)
  {
    if k < n {
      RunStays(s, ops, k, n - 1, lo, hi);
      var h, op := Run(s, ops, n - 1), ops[n - 1];
      RunKeepsTree(s, ops, n - 1, lo, hi);
      NextStays(Run(s, ops, k).state, h.state, op, lo + |h.taken|, hi);
    }
  }

  lemma {:induction false} NextStays(s: State, m: State, op: Op, lo: nat, hi: nat)
    requires Numbered(m, lo, hi) && FilesStay(s, m) && Grows(s.dirs, m.dirs)
    ensures FilesStay(s, Next(m, op)) && Grows(s.dirs, Next(m, op).dirs)
  {
    if GoodOp(m, op) {
      StepFilesStay(m, op, lo, hi);
      StepGrows(m, op, lo, hi);
      GrowsOn(s.dirs, m.dirs, Next(m, op).dirs);
      StaysOn(s, m, Next(m, op));
    }
  }

  lemma {:induction false} GrowsOn(a: map<nat, seq<Entry>>, b: map<nat, seq<Entry>>, c: map<nat, seq<Entry>>)
    requires Grows(a, b) && Grows(b, c)
    ensures Grows(a, c)
  {
    forall d: nat | d in a
      ensures d in c && a[d] <= c[d]
    {
      assert d in b;
    }
  }

  lemma {:induction false} StaysOn(a: State, b: State, c: State)
    requires FilesStay(a, b) && FilesStay(b, c)
    ensures FilesStay(a, c)
  {
    forall n: nat | n in a.links && n !in a.dirs
      ensures n in c.links && c.links[n] == a.links[n] && n !in c.dirs
    {
      assert n in b.links;
    }
  }

  /** What a successful operation made is the same in every state that grew from there. */
  lemma {:induction false} FileStays(s: State, op: Op, t: State, lo: nat, hi: nat, path: seq<seq<Byte>>)
    requires Good(s, lo, hi) && GoodOp(s, op) && Step(s, op).1 == Done(0) && !op.MkDir?
    requires FilesStay(Step(s, op).0, t) && Grows(Step(s, op).0.dirs, t.dirs)
    requires op.MkNod? ==> Resolve(s.dirs, path) == Some(op.dir)
    ensures lo in t.links && t.links[lo] == (if op.TmpFile? then 0 else 1) && lo !in t.dirs
    ensures op.MkNod? ==> Resolve(t.dirs, path + [op.name]) == Some(lo)
  {
    SuccessLeaves(s, op, lo, hi);
    assert lo in t.links;
    if op.MkNod? {
      CreatedIsFound(s, op, lo, hi, path);
      ResolveGrows(Step(s, op).0.dirs, t.dirs, path + [op.name]);
    }
  }

  lemma {:induction false} DirectoryStays(s: State, op: Op, t: State, lo: nat, hi: nat, path: seq<seq<Byte>>, next: nat)
    requires Good(s, lo, hi) && GoodOp(s, op) && Step(s, op).1 == Done(0) && op.MkDir?
    requires Grows(Step(s, op).0.dirs, t.dirs) && Good(t, next, hi) && Resolve(s.dirs, path) == Some(op.dir)
    ensures lo in t.dirs && lo in t.links && t.links[lo] == 2 + Subdirs(t.dirs[lo], t.dirs.Keys)
    ensures Resolve(t.dirs, path + [op.name]) == Some(lo)
  {
    SuccessLeaves(s, op, lo, hi);
    CreatedIsFound(s, op, lo, hi, path);
    ResolveGrows(Step(s, op).0.dirs, t.dirs, path + [op.name]);
    assert lo in t.dirs;
    assert CountedAt(t.dirs, t.links, lo);
  }

  /** Operation `k` of a run was made and succeeded. */
  predicate Succeeded(s: State, ops: seq<Op>, k: nat)
    requires k < |ops|
  {
    var m := Run(s, ops, k).state;
    Coherent(m) && GoodOp(m, ops[k]) && Step(m, ops[k]).1 == Done(0)
  }

  lemma {:induction false} AfterSuccess(s: State, ops: seq<Op>, k: nat, n: nat, lo: nat, hi: nat)
    requires Good(s, lo, hi) && k < n <= |ops| && Succeeded(s, ops, k)
    ensures var m, t := Run(s, ops, k), Run(s, ops, n);
            && Good(m.state, lo + |m.taken|, hi) && Good(t.state, lo + |t.taken|, hi)
            && FilesStay(Step(m.state, ops[k]).0, t.state) && Grows(Step(m.state, ops[k]).0.dirs, t.state.dirs)
  {
    RunKeepsTree(s, ops, k, lo, hi);
    RunKeepsTree(s, ops, n, lo, hi);
    RunStays(s, ops, k + 1, n, lo, hi);
  }

  /**
   Link counts over runs. What operation `k` of a run made has, in every later state, link count 0 if it was a
   temporary file, and 1 if it was a named file; the path of a named file leads to it.
   */
  lemma {:induction false} CountsStay(s: State, ops: seq<Op>, k: nat, n: nat, lo: nat, hi: nat, path: seq<seq<Byte>>,
                                      m: History, t: State, ino: nat)
    requires Good(s, lo, hi) && k < n <= |ops| && !ops[k].MkDir? && Succeeded(s, ops, k)
    requires m == Run(s, ops, k) && t == Run(s, ops, n).state && ino == lo + |m.taken|
    requires ops[k].MkNod? ==> Resolve(m.state.dirs, path) == Some(ops[k].dir)
    ensures ino in t.links && t.links[ino] == (if ops[k].TmpFile? then 0 else 1) && ino !in t.dirs
    ensures ops[k].MkNod? ==> Resolve(t.dirs, path + [ops[k].name]) == Some(ino)
  {
    AfterSuccess(s, ops, k, n, lo, hi);
    FileStays(m.state, ops[k], t, ino, hi, path);
  }

  /** A directory made by a run is found under its path ever after, with two links and one more per subdirectory. */
  lemma {:induction false} DirectoriesStay(s: State, ops: seq<Op>, k: nat, n: nat, lo: nat, hi: nat,
                                           path: seq<seq<Byte>>, m: History, t: State, ino: nat)
    requires Good(s, lo, hi) && k < n <= |ops| && ops[k].MkDir? && Succeeded(s, ops, k)
    requires m == Run(s, ops, k) && t == Run(s, ops, n).state && ino == lo + |m.taken|
    requires Resolve(m.state.dirs, path) == Some(ops[k].dir)
    ensures ino in t.dirs && ino in t.links && Resolve(t.dirs, path + [ops[k].name]) == Some(ino)
    ensures t.links[ino] == 2 + Subdirs(t.dirs[ino], t.dirs.Keys)
  {
    AfterSuccess(s, ops, k, n, lo, hi);
    DirectoryStays(m.state, ops[k], t, ino, hi, path, lo + |Run(s, ops, n).taken|);
  }
}
