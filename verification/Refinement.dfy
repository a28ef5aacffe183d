/**
 Files are independent: the device refines one map from (inode, file block) to contents, through
 every run of creations, changes, writes, reads, write-backs and remounts that is never starved.
 */
module Refinement {
  import opened Options
  import opened Layout
  import opened Metadata
  import opened FileStore
  import opened Persistence
  import opened FileRuns
  import opened FirstFit
  import opened Conservation

  /**
   The specification: the live inodes with their fields, the numbers taken, and for each (inode, file block)
   the last contents written.
   */
  datatype Files = Files(inos: set<nat>, numbers: seq<bool>, fields: map<nat, Attrs>, content: map<(nat, nat), Data>)

  function FilesStep(sb: Super, f: Files, op: Op): (r: Files) {
    match op
    case Create(attrs) =>
      var (numbers, n) := Alloc(f.numbers);
      if n.Some? && Usable(sb, n.value) && n.value !in f.inos then
        f.(numbers := numbers, inos := f.inos + {n.value}, fields := f.fields[n.value := attrs])
      else f.(numbers := numbers)
    case SetAttrs(ino, attrs) => if ino in f.inos then f.(fields := f.fields[ino := attrs]) else f
    case Write(ino, iblock, data, _, _) =>
      if ino in f.inos && InRange(sb, iblock) then f.(content := f.content[(ino, iblock) := data]) else f
    case _ => f
  }

  /** The files before a run: nothing has been written yet. */
  function FilesAt(s: State): (r: Files) {
    Files(s.ptrs.Keys, s.inodeBits, s.attrs, map[])
  }

  /** The files after the first `n` operations. */
  function FilesRun(sb: Super, f: Files, ops: seq<Op>, n: nat): (r: Files)
    requires n <= |ops|
  {
    if n == 0 then f else FilesStep(sb, FilesRun(sb, f, ops, n - 1), ops[n - 1])
  }

  // ---------------------------------------------------------------- covered operations

  /** The file block's index is past the pointers and the word found there is 0: it is refused. */
  predicate Refused(sb: Super, iblock: nat, beyond: int)
    requires Geometry(sb)
  {
    Index(sb, sb.BlockSize(), iblock) >= POINTERS && beyond == 0
  }

  /**
   The operation can be carried out: fields fit the record; a file block within nine zones finds or can
   be given its zone, and any other is refused; the inode of a filled pointer is marked or dirty anyway.
   */
  predicate OpCovered(sb: Super, s: State, op: Op)
    requires Geometry(sb) && Shaped(sb, s)
  {
    match op
    case Create(attrs) => attrs.Fit()
    case SetAttrs(ino, attrs) => ino in s.ptrs ==> attrs.Fit()
    case Write(ino, iblock, _, beyond, marks) => ino in s.ptrs ==> BlockCovered(sb, s, ino, iblock, beyond, marks)
    case Read(ino, iblock, beyond, marks) => ino in s.ptrs ==> BlockCovered(sb, s, ino, iblock, beyond, marks)
    case Sync => true
    case Remount(_) => true
  }

  predicate BlockCovered(sb: Super, s: State, ino: nat, iblock: nat, beyond: int, marks: bool)
    requires Geometry(sb) && Shaped(sb, s) && ino in s.ptrs
  {
    if InRange(sb, iblock) then Covered(sb, s, ino, iblock) && PointerIsKept(sb, s, ino, iblock, marks)
    else Refused(sb, iblock, beyond)
  }

  predicate CoveredAt(sb: Super, ss: seq<State>, ops: seq<Op>, i: nat)
    requires i < |ops| < |ss|
  {
    Geometry(sb) && Shaped(sb, ss[i]) && OpCovered(sb, ss[i], ops[i])
  }

  /** The first `n` operations are covered, each in the state that it meets. */
  ghost predicate RunCovered(sb: Super, ss: seq<State>, ops: seq<Op>, n: nat) {
    n <= |ops| < |ss| && forall i: nat {:trigger CoveredAt(sb, ss, ops, i)} :: i < n ==> CoveredAt(sb, ss, ops, i)
  }

  lemma {:induction false} RefusedWhen(sb: Super, s: State, ino: nat, iblock: nat, beyond: int)
    requires Geometry(sb) && Shaped(sb, s) && ino in s.ptrs && !InRange(sb, iblock) && Refused(sb, iblock, beyond)
    ensures MapFile(sb, s, ino, iblock, beyond) == (s, Eio)
  {
  }

  lemma {:induction false} CoveredIsHarmless(sb: Super, root: nat, s: State, op: Op)
    requires Good(sb, root, s) && OpCovered(sb, s, op)
    ensures Harmless(sb, s, op)
  {
    if (op.Write? || op.Read?) && op.ino in s.ptrs {
      if InRange(sb, op.iblock) {
        KeepsMarkWhen(sb, root, s, op.ino, op.iblock, op.beyond, op.marks);
        CoveredTarget(sb, root, s, op.ino, op.iblock, op.beyond);
      } else {
        RefusedWhen(sb, s, op.ino, op.iblock, op.beyond);
      }
    }
  }

  // ---------------------------------------------------------------- the relation

  predicate StoredAt(sb: Super, s: State, f: Files, ino: nat, k: nat)
    requires sb.Valid() && NinePointers(s.ptrs) && (ino, k) in f.content
  {
    Loc(sb, s, ino, k).Some? && At(s.disk, Loc(sb, s, ino, k).value) == Some(f.content[(ino, k)])
  }

  ghost predicate Written(sb: Super, s: State, f: Files, b: int)
    requires sb.Valid() && NinePointers(s.ptrs)
  {
    exists ino: nat, k: nat :: (ino, k) in f.content && Loc(sb, s, ino, k) == Some(b)
  }

  /** Every file block is at its location, and the other blocks of the data region are what they were at the start. */
  ghost predicate DataRel(sb: Super, disk0: Disk, s: State, f: Files)
    requires sb.Valid() && NinePointers(s.ptrs)
  {
    && (forall ino: nat, k: nat {:trigger StoredAt(sb, s, f, ino, k)} ::
          (ino, k) in f.content ==> StoredAt(sb, s, f, ino, k))
    && (forall b {:trigger Written(sb, s, f, b)} :: b >= sb.MetaBlocks() ==>
          Written(sb, s, f, b) || At(s.disk, b) == At(disk0, b))
  }

  /** The records of numbers not in use are what they were at the start. */
  ghost predicate MetaRel(sb: Super, disk0: Disk, s: State) {
    forall ino: nat {:trigger Housed(sb, sb.BlockSize(), ino)} :: Housed(sb, sb.BlockSize(), ino) && ino !in s.ptrs ==>
      RecordOf(sb, s.disk, sb.BlockSize(), ino) == RecordOf(sb, disk0, sb.BlockSize(), ino)
  }

  ghost predicate Rel(sb: Super, disk0: Disk, s: State, f: Files)
    requires sb.Valid() && NinePointers(s.ptrs)
  {
    && f.inos == s.ptrs.Keys && f.numbers == s.inodeBits && f.fields == s.attrs
    && DataRel(sb, disk0, s, f) && MetaRel(sb, disk0, s)
  }

  /** Adding inodes and assigning pointers that were unset does not disturb the data. */
  lemma {:induction false} DataExtends(sb: Super, disk0: Disk, s: State, t: State, f: Files, f': Files)
    requires sb.Valid() && NinePointers(s.ptrs) && NinePointers(t.ptrs) && DataRel(sb, disk0, s, f) && Extends(s, t)
    requires f'.content == f.content && forall b :: b >= sb.MetaBlocks() ==> At(t.disk, b) == At(s.disk, b)
    requires forall n: nat, k: nat {:trigger Loc(sb, s, n, k)} :: Loc(sb, s, n, k).Some? ==>
               Loc(sb, s, n, k).value >= sb.MetaBlocks()
    ensures DataRel(sb, disk0, t, f')
  {
    forall ino: nat, k: nat | (ino, k) in f'.content
      ensures StoredAt(sb, t, f', ino, k)
    {
      assert StoredAt(sb, s, f, ino, k);
      LocIsKept(sb, s, t, ino, k);
    }
    forall b | b >= sb.MetaBlocks()
      ensures Written(sb, t, f', b) || At(t.disk, b) == At(disk0, b)
    {
      if Written(sb, s, f, b) {
        var ino: nat, k: nat :| (ino, k) in f.content && Loc(sb, s, ino, k) == Some(b);
        LocIsKept(sb, s, t, ino, k);
        assert (ino, k) in f'.content;
      }
    }
  }

  /** Writing the block that a file block maps to. */
  lemma {:induction false} DataWrite(sb: Super, disk0: Disk, s: State, f: Files, ino: nat, k: nat, data: Data)
    requires sb.Valid() && NinePointers(s.ptrs) && InjectiveMap(sb, s) && DataRel(sb, disk0, s, f)
    requires Loc(sb, s, ino, k).Some?
    ensures DataRel(sb, disk0, s.(disk := s.disk[Loc(sb, s, ino, k).value := data]),
                    f.(content := f.content[(ino, k) := data]))
  {
    var b := Loc(sb, s, ino, k).value;
    var t := s.(disk := s.disk[b := data]);
    var f' := f.(content := f.content[(ino, k) := data]);
    assert forall n: nat, m: nat :: Loc(sb, t, n, m) == Loc(sb, s, n, m);
    forall n: nat, m: nat | (n, m) in f'.content
      ensures StoredAt(sb, t, f', n, m)
    {
      if (n, m) != (ino, k) {
        assert StoredAt(sb, s, f, n, m);
        assert Loc(sb, s, n, m).value != b;
      }
    }
    forall c | c >= sb.MetaBlocks()
      ensures Written(sb, t, f', c) || At(t.disk, c) == At(disk0, c)
    {
      if c == b {
        assert (ino, k) in f'.content && Loc(sb, t, ino, k) == Some(c);
      } else if Written(sb, s, f, c) {
        var n: nat, m: nat :| (n, m) in f.content && Loc(sb, s, n, m) == Some(c);
        assert (n, m) in f'.content && Loc(sb, t, n, m) == Some(c);
      }
    }
  }

  /**
   What a read returns: the last contents written to that file block, else what the device held there at the
   start.
   */
  function Answer(sb: Super, disk0: Disk, s: State, f: Files, ino: nat, k: nat): (r: Option<Data>)
    requires sb.Valid() && NinePointers(s.ptrs) && Loc(sb, s, ino, k).Some?
  {
    if (ino, k) in f.content then Some(f.content[(ino, k)]) else At(disk0, Loc(sb, s, ino, k).value)
  }

  lemma {:induction false} ReadAnswers(sb: Super, disk0: Disk, s: State, f: Files, ino: nat, k: nat)
    requires sb.Valid() && NinePointers(s.ptrs) && InjectiveMap(sb, s) && DataRel(sb, disk0, s, f)
    requires Loc(sb, s, ino, k).Some?
    ensures At(s.disk, Loc(sb, s, ino, k).value) == Answer(sb, disk0, s, f, ino, k)
  {
    var b := Loc(sb, s, ino, k).value;
    if (ino, k) in f.content {
      assert StoredAt(sb, s, f, ino, k);
    } else {
      assert !Written(sb, s, f, b);
    }
  }

  // ---------------------------------------------------------------- metadata

  /** An unmount changes whole metadata blocks and records of live inodes only. */
  lemma {:induction false} UnmountKeepsMeta(sb: Super, disk0: Disk, s: State, held: bool)
    requires Shaped(sb, s) && MetaRel(sb, disk0, s)
    ensures MetaRel(sb, disk0, Unmounted(sb, s, held))
    ensures forall b :: b >= sb.MetaBlocks() ==> At(Unmounted(sb, s, held).disk, b) == At(s.disk, b)
  {
    var t, size := Unmounted(sb, s, held), sb.BlockSize();
    forall b | b >= sb.MetaBlocks()
      ensures At(t.disk, b) == At(s.disk, b)
    {
      SyncedElsewhere(sb, size, s.disk, DirtyMaps(sb, s), DirtyRecords(sb, s), b);
    }
    forall ino: nat | Housed(sb, size, ino) && ino !in t.ptrs
      ensures RecordOf(sb, t.disk, size, ino) == RecordOf(sb, disk0, size, ino)
    {
      UnmountedBlock(sb, s, held, sb.InodeBlock(ino));
      SyncedRecord(sb, size, s.disk, DirtyMaps(sb, s), DirtyRecords(sb, s), ino);
      assert RecordOf(sb, s.disk, size, ino) == RecordOf(sb, disk0, size, ino);
    }
  }

  lemma {:induction false} StoreKeepsMeta(sb: Super, disk0: Disk, s: State, b: int, data: Data)
    requires Shaped(sb, s) && MetaRel(sb, disk0, s) && b >= sb.MetaBlocks()
    ensures MetaRel(sb, disk0, Stored(sb, s, b, data))
  {
    var t, size := Stored(sb, s, b, data), sb.BlockSize();
    forall ino: nat | Housed(sb, size, ino) && ino !in t.ptrs
      ensures RecordOf(sb, t.disk, size, ino) == RecordOf(sb, disk0, size, ino)
    {
      OtherBlockSame(s.disk, size, b, data, sb.InodeBlock(ino));
      assert RecordOf(sb, s.disk, size, ino) == RecordOf(sb, disk0, size, ino);
    }
  }

  // ---------------------------------------------------------------- one step

  predicate KnownRead(sb: Super, f: Files, op: Op) {
    op.Read? && op.ino in f.inos && InRange(sb, op.iblock)
  }

  lemma {:induction false} AboveMetadata(sb: Super, root: nat, s: State)
    requires sb.Valid() && Inv(sb, root, s)
    ensures InjectiveMap(sb, s)
    ensures forall n: nat, k: nat :: Loc(sb, s, n, k).Some? ==> Loc(sb, s, n, k).value >= sb.MetaBlocks()
  {
    LocIsInjective(sb, root, s);
  }

  /** New inodes, new pointers, other marks: nothing that a file shows. */
  lemma {:induction false} RelExtends(sb: Super, root: nat, disk0: Disk, s: State, t: State, f: Files, f': Files)
    requires sb.Valid() && Inv(sb, root, s) && NinePointers(t.ptrs) && Rel(sb, disk0, s, f) && Extends(s, t)
    requires t.disk == s.disk && f' == f.(inos := t.ptrs.Keys, numbers := t.inodeBits, fields := t.attrs)
    ensures Rel(sb, disk0, t, f')
  {
    AboveMetadata(sb, root, s);
    DataExtends(sb, disk0, s, t, f, f');
  }

  lemma {:induction false} RelUnmount(sb: Super, root: nat, disk0: Disk, s: State, f: Files, held: bool)
    requires Shaped(sb, s) && Inv(sb, root, s) && Rel(sb, disk0, s, f)
    ensures Rel(sb, disk0, Unmounted(sb, s, held), f)
  {
    AboveMetadata(sb, root, s);
    UnmountKeepsMeta(sb, disk0, s, held);
    DataExtends(sb, disk0, s, Unmounted(sb, s, held), f, f);
  }

  lemma {:induction false} RelRemount(sb: Super, root: nat, disk0: Disk, s: State, f: Files, held: bool)
    requires Good(sb, root, s) && Rel(sb, disk0, s, f)
    ensures Rel(sb, disk0, Remounted(sb, s, held), f) && Extends(s, Remounted(sb, s, held))
  {
    RelUnmount(sb, root, disk0, s, f, held);
    var u := Unmounted(sb, s, held);
    OnlyMemoryMatters(sb, root, s, u);
    RemountIsUnmount(sb, root, s, held);
    RelExtends(sb, root, disk0, u, Remounted(sb, s, held), f, f);
  }

  lemma {:induction false} RelStore(sb: Super, root: nat, disk0: Disk, s: State, f: Files, ino: nat, k: nat, data: Data)
    requires Shaped(sb, s) && Inv(sb, root, s) && Rel(sb, disk0, s, f) && Loc(sb, s, ino, k).Some?
    ensures Rel(sb, disk0, Stored(sb, s, Loc(sb, s, ino, k).value, data), f.(content := f.content[(ino, k) := data]))
  {
    AboveMetadata(sb, root, s);
    DataWrite(sb, disk0, s, f, ino, k, data);
    StoreKeepsMeta(sb, disk0, s, Loc(sb, s, ino, k).value, data);
  }

  lemma {:induction false} CreateRefines(sb: Super, root: nat, disk0: Disk, s: State, f: Files, attrs: Attrs)
    requires Shaped(sb, s) && Inv(sb, root, s) && Rel(sb, disk0, s, f)
    ensures Rel(sb, disk0, Created(sb, s, attrs), FilesStep(sb, f, Create(attrs)))
    ensures Extends(s, Created(sb, s, attrs))
  {
    var t, f' := Created(sb, s, attrs), FilesStep(sb, f, Create(attrs));
    CreatedKeys(sb, s, f, attrs);
    RelExtends(sb, root, disk0, s, t, f, f');
  }

  lemma {:induction false} CreatedKeys(sb: Super, s: State, f: Files, attrs: Attrs)
    requires Shaped(sb, s) && f.inos == s.ptrs.Keys && f.numbers == s.inodeBits && f.fields == s.attrs
    ensures var t := Created(sb, s, attrs);
            && FilesStep(sb, f, Create(attrs)) == f.(inos := t.ptrs.Keys, numbers := t.inodeBits, fields := t.attrs)
            && Extends(s, t) && t.disk == s.disk
  {
    var t, n := Created(sb, s, attrs), Alloc(s.inodeBits).1;
    if n.Some? && Usable(sb, n.value) {
      assert t.ptrs.Keys == s.ptrs.Keys + {n.value};
    }
  }

  /** A covered mapping: the location is assigned and the files are the same. */
  lemma {:induction false} MapRefines(sb: Super, root: nat, disk0: Disk, s: State, f: Files, ino: nat, iblock: nat,
                                      beyond: int, marks: bool)
    requires Good(sb, root, s) && Rel(sb, disk0, s, f) && ino in s.ptrs && Covered(sb, s, ino, iblock)
    ensures var (s1, m) := MapFile(sb, s, ino, iblock, beyond);
            var t := MarkedIf(sb, s1, ino, marks);
            && m.Mapped? && Loc(sb, t, ino, iblock) == Some(m.block) && Extends(s, t)
            && Rel(sb, disk0, t, f) && Inv(sb, root, t)
  {
    FitsIsStorable(sb, s);
    GetBlockMaps(sb, root, s, ino, iblock, beyond);
    GetBlockKeepsInv(sb, root, s, ino, iblock, beyond);
    var s1 := MapFile(sb, s, ino, iblock, beyond).0;
    var t := MarkedIf(sb, s1, ino, marks);
    OnlyMemoryMatters(sb, root, s1, t);
    RelExtends(sb, root, disk0, s, t, f, f);
  }

  lemma {:induction false} WriteRefines(sb: Super, root: nat, disk0: Disk, s: State, f: Files, op: Op)
    requires Good(sb, root, s) && Rel(sb, disk0, s, f) && op.Write? && op.ino in s.ptrs
    requires Covered(sb, s, op.ino, op.iblock)
    ensures Rel(sb, disk0, Step(sb, s, op).0, FilesStep(sb, f, op)) && Extends(s, Step(sb, s, op).0)
  {
    MapRefines(sb, root, disk0, s, f, op.ino, op.iblock, op.beyond, op.marks);
    WriteStep(sb, s, op);
    var (s1, m) := MapFile(sb, s, op.ino, op.iblock, op.beyond);
    RelStore(sb, root, disk0, MarkedIf(sb, s1, op.ino, op.marks), f, op.ino, op.iblock, op.data);
  }

  lemma {:induction false} ReadStep(sb: Super, s: State, op: Op)
    requires Shaped(sb, s) && s.status.Up? && op.Read? && op.ino in s.ptrs
    ensures var (s1, m) := MapFile(sb, s, op.ino, op.iblock, op.beyond);
            Step(sb, s, op) == (MarkedIf(sb, s1, op.ino, op.marks), if m.Eio? then None else At(s.disk, m.block))
  {
  }

  lemma {:induction false} ReadRefines(sb: Super, root: nat, disk0: Disk, s: State, f: Files, op: Op)
    requires Good(sb, root, s) && Rel(sb, disk0, s, f) && op.Read? && op.ino in s.ptrs
    requires Covered(sb, s, op.ino, op.iblock)
    ensures var (t, out) := Step(sb, s, op);
            && Rel(sb, disk0, t, f) && Extends(s, t)
            && Loc(sb, t, op.ino, op.iblock).Some? && out == Answer(sb, disk0, t, f, op.ino, op.iblock)
  {
    MapRefines(sb, root, disk0, s, f, op.ino, op.iblock, op.beyond, op.marks);
    ReadStep(sb, s, op);
    var t := MarkedIf(sb, MapFile(sb, s, op.ino, op.iblock, op.beyond).0, op.ino, op.marks);
    AboveMetadata(sb, root, t);
    ReadAnswers(sb, disk0, t, f, op.ino, op.iblock);
  }

  lemma {:induction false} StepRefines(sb: Super, root: nat, disk0: Disk, s: State, f: Files, op: Op)
    requires Good(sb, root, s) && Rel(sb, disk0, s, f) && OpCovered(sb, s, op)
    ensures var (t, out) := Step(sb, s, op);
            && Rel(sb, disk0, t, FilesStep(sb, f, op)) && Extends(s, t)
            && (KnownRead(sb, f, op) ==>
                  Loc(sb, t, op.ino, op.iblock).Some? && out == Answer(sb, disk0, t, f, op.ino, op.iblock))
  {
    match op
    case Create(attrs) => CreateRefines(sb, root, disk0, s, f, attrs);
    case SetAttrs(ino, attrs) => RelExtends(sb, root, disk0, s, Changed(sb, s, ino, attrs), f, FilesStep(sb, f, op));
    case Sync => RelUnmount(sb, root, disk0, s, f, false);
    case Remount(held) => RelRemount(sb, root, disk0, s, f, held);
    case _ =>
      if op.ino in s.ptrs {
        if !InRange(sb, op.iblock) {
          RefusedWhen(sb, s, op.ino, op.iblock, op.beyond);
          RefusedRefines(sb, root, disk0, s, f, op);
        } else if op.Write? {
          WriteRefines(sb, root, disk0, s, f, op);
        } else {
          ReadRefines(sb, root, disk0, s, f, op);
        }
      }
  }

  lemma {:induction false} RefusedRefines(sb: Super, root: nat, disk0: Disk, s: State, f: Files, op: Op)
    requires Good(sb, root, s) && Rel(sb, disk0, s, f) && (op.Write? || op.Read?) && op.ino in s.ptrs
    requires !InRange(sb, op.iblock) && MapFile(sb, s, op.ino, op.iblock, op.beyond) == (s, Eio)
    ensures Rel(sb, disk0, Step(sb, s, op).0, FilesStep(sb, f, op)) && Extends(s, Step(sb, s, op).0)
  {
    RelExtends(sb, root, disk0, s, MarkedIf(sb, s, op.ino, op.marks), f, f);
  }

  // ---------------------------------------------------------------- runs

  /** A read of a live inode within nine zones was answered by the last write before it, else by the original block. */
  predicate AnsweredAt(sb: Super, disk0: Disk, ss: seq<State>, f0: Files, ops: seq<Op>, m: nat, n: nat)
    requires m < |ops| < |ss| && n <= |ops| && sb.Valid() && Shaped(sb, ss[m]) && Shaped(sb, ss[n])
  {
    KnownRead(sb, FilesRun(sb, f0, ops, m), ops[m]) ==>
      && Loc(sb, ss[n], ops[m].ino, ops[m].iblock).Some?
      && Step(sb, ss[m], ops[m]).1 == Answer(sb, disk0, ss[n], FilesRun(sb, f0, ops, m), ops[m].ino, ops[m].iblock)
  }

  lemma {:induction false} AnswersLast(sb: Super, disk0: Disk, ss: seq<State>, f0: Files, ops: seq<Op>, m: nat,
                                       n: nat, k: nat)
    requires m < |ops| < |ss| && n <= |ops| && k <= |ops| && sb.Valid()
    requires Shaped(sb, ss[m]) && Shaped(sb, ss[n]) && Shaped(sb, ss[k])
    requires AnsweredAt(sb, disk0, ss, f0, ops, m, n) && Extends(ss[n], ss[k])
    ensures AnsweredAt(sb, disk0, ss, f0, ops, m, k)
  {
    if KnownRead(sb, FilesRun(sb, f0, ops, m), ops[m]) {
      LocIsKept(sb, ss[n], ss[k], ops[m].ino, ops[m].iblock);
    }
  }

  lemma {:induction false} NextRefines(sb: Super, root: nat, disk0: Disk, ss: seq<State>, f0: Files, ops: seq<Op>,
                                       i: nat)
    requires i < |ops| < |ss| && Good(sb, root, ss[i]) && StepAt(sb, ss, ops, i) && CoveredAt(sb, ss, ops, i)
    requires Rel(sb, disk0, ss[i], FilesRun(sb, f0, ops, i))
    ensures Good(sb, root, ss[i + 1]) && Rel(sb, disk0, ss[i + 1], FilesRun(sb, f0, ops, i + 1))
    ensures Extends(ss[i], ss[i + 1])
  {
    CoveredIsHarmless(sb, root, ss[i], ops[i]);
    StepKeepsGood(sb, root, ss[i], ops[i]);
    StepRefines(sb, root, disk0, ss[i], FilesRun(sb, f0, ops, i), ops[i]);
  }

  lemma {:induction false} NextAnswers(sb: Super, root: nat, disk0: Disk, ss: seq<State>, f0: Files, ops: seq<Op>,
                                       i: nat)
    requires i < |ops| < |ss| && sb.Valid() && Shaped(sb, ss[i]) && Shaped(sb, ss[i + 1])
    requires StepAt(sb, ss, ops, i) && Geometry(sb) && OpCovered(sb, ss[i], ops[i])
    requires Rel(sb, disk0, ss[i], FilesRun(sb, f0, ops, i)) && Good(sb, root, ss[i])
    ensures AnsweredAt(sb, disk0, ss, f0, ops, i, i + 1)
  {
    StepRefines(sb, root, disk0, ss[i], FilesRun(sb, f0, ops, i), ops[i]);
  }

  /** What holds of each state of a covered run. */
  ghost predicate Refines(sb: Super, root: nat, ss: seq<State>, ops: seq<Op>, n: nat)
    requires n <= |ops| < |ss|
  {
    && Good(sb, root, ss[0]) && Good(sb, root, ss[n]) && Extends(ss[0], ss[n])
    && Rel(sb, ss[0].disk, ss[n], FilesRun(sb, FilesAt(ss[0]), ops, n))
  }

  lemma {:induction false} RefinesNext(sb: Super, root: nat, ss: seq<State>, ops: seq<Op>, n: nat)
    requires IsRun(sb, ss, ops) && n < |ops| && RunCovered(sb, ss, ops, n + 1) && Refines(sb, root, ss, ops, n)
    ensures Refines(sb, root, ss, ops, n + 1)
  {
    assert StepAt(sb, ss, ops, n) && CoveredAt(sb, ss, ops, n);
    StateIsShaped(sb, ss, ops, n + 1);
    NextRefines(sb, root, ss[0].disk, ss, FilesAt(ss[0]), ops, n);
    ExtendsTransitive(ss[0], ss[n], ss[n + 1]);
  }

  lemma {:induction false} RefinesStart(sb: Super, root: nat, ss: seq<State>, ops: seq<Op>)
    requires |ops| < |ss| && Good(sb, root, ss[0])
    ensures Refines(sb, root, ss, ops, 0)
  {
  }

  /** The states of a covered run are good, refine the files, and only ever add pointers. */
  lemma {:induction false} CoveredRun(sb: Super, root: nat, ss: seq<State>, ops: seq<Op>, n: nat)
    requires IsRun(sb, ss, ops) && Good(sb, root, ss[0]) && RunCovered(sb, ss, ops, n)
    ensures Refines(sb, root, ss, ops, n)
  {
    if n == 0 {
      RefinesStart(sb, root, ss, ops);
    } else {
      CoveredRun(sb, root, ss, ops, n - 1);
      RefinesNext(sb, root, ss, ops, n - 1);
    }
  }

  lemma {:induction false} CoveredNext(sb: Super, root: nat, ss: seq<State>, ops: seq<Op>, i: nat)
    requires IsRun(sb, ss, ops) && Good(sb, root, ss[0]) && i < |ops| && RunCovered(sb, ss, ops, i + 1)
    ensures sb.Valid() && Shaped(sb, ss[i]) && Shaped(sb, ss[i + 1]) && Extends(ss[i], ss[i + 1])
    ensures AnsweredAt(sb, ss[0].disk, ss, FilesAt(ss[0]), ops, i, i + 1)
  {
    CoveredRun(sb, root, ss, ops, i);
    assert StepAt(sb, ss, ops, i) && CoveredAt(sb, ss, ops, i);
    StateIsShaped(sb, ss, ops, i + 1);
    NextRefines(sb, root, ss[0].disk, ss, FilesAt(ss[0]), ops, i);
    NextAnswers(sb, root, ss[0].disk, ss, FilesAt(ss[0]), ops, i);
  }

  lemma {:induction false} CoveredRunAnswers(sb: Super, root: nat, ss: seq<State>, ops: seq<Op>, m: nat, n: nat)
    requires IsRun(sb, ss, ops) && Good(sb, root, ss[0]) && m < n <= |ops| && RunCovered(sb, ss, ops, n)
    ensures sb.Valid() && Shaped(sb, ss[m]) && Shaped(sb, ss[n])
    ensures AnsweredAt(sb, ss[0].disk, ss, FilesAt(ss[0]), ops, m, n)
  {
    CoveredNext(sb, root, ss, ops, m);
    CoveredExtends(sb, root, ss, ops, m + 1, n);
    AnswersLast(sb, ss[0].disk, ss, FilesAt(ss[0]), ops, m, m + 1, n);
  }

  /**
   Storage refinement. For every covered run of creations, changes, writes, reads, write-backs and
   remounts on any number of inodes: the final device holds exactly the files' contents on top of what
   it held at the start, every read returned the last write to its own (inode, file block), and no
   location ever moved.
   */
  lemma {:induction false} FilesAreIndependent(sb: Super, root: nat, ss: seq<State>, ops: seq<Op>)
    requires IsRun(sb, ss, ops) && Good(sb, root, ss[0]) && RunCovered(sb, ss, ops, |ops|)
    ensures var s, f0 := ss[|ops|], FilesAt(ss[0]);
            && Good(sb, root, s) && Extends(ss[0], s)
            && Rel(sb, ss[0].disk, s, FilesRun(sb, f0, ops, |ops|))
            && forall m: nat :: m < |ops| ==> Shaped(sb, ss[m]) && AnsweredAt(sb, ss[0].disk, ss, f0, ops, m, |ops|)
  {
    CoveredRun(sb, root, ss, ops, |ops|);
    forall m: nat | m < |ops|
      ensures Shaped(sb, ss[m]) && AnsweredAt(sb, ss[0].disk, ss, FilesAt(ss[0]), ops, m, |ops|)
    {
      CoveredRunAnswers(sb, root, ss, ops, m, |ops|);
    }
  }

  /** A covered run only ever adds inodes and pointers. */
  lemma {:induction false} CoveredExtends(sb: Super, root: nat, ss: seq<State>, ops: seq<Op>, m: nat, n: nat)
    requires IsRun(sb, ss, ops) && Good(sb, root, ss[0]) && m <= n <= |ops| && RunCovered(sb, ss, ops, n)
    ensures Shaped(sb, ss[m]) && Shaped(sb, ss[n]) && Extends(ss[m], ss[n])
  {
    if m < n {
      CoveredExtends(sb, root, ss, ops, m, n - 1);
      CoveredNext(sb, root, ss, ops, n - 1);
      ExtendsTransitive(ss[m], ss[n - 1], ss[n]);
    } else {
      StateIsShaped(sb, ss, ops, m);
    }
  }

  /** In a covered run the location of a file block, once assigned, is the same in every later state. */
  lemma {:induction false} LocIsStable(sb: Super, root: nat, ss: seq<State>, ops: seq<Op>, m: nat, n: nat, ino: nat,
                                       k: nat)
    requires IsRun(sb, ss, ops) && Good(sb, root, ss[0]) && m <= n <= |ops| && RunCovered(sb, ss, ops, n)
    requires Shaped(sb, ss[m]) && Shaped(sb, ss[n]) && Loc(sb, ss[m], ino, k).Some?
    ensures Loc(sb, ss[n], ino, k) == Loc(sb, ss[m], ino, k)
  {
    CoveredExtends(sb, root, ss, ops, m, n);
    LocIsKept(sb, ss[m], ss[n], ino, k);
  }

  /**
   A covered run never writes file contents into the metadata: the records of unused numbers are what
   they were, the superblock decodes as it did, and a remount restores both maps and every live inode.
   */
  lemma {:induction false} MetadataIsOnlyWrittenBack(sb: Super, root: nat, ss: seq<State>, ops: seq<Op>, held: bool)
    requires IsRun(sb, ss, ops) && Good(sb, root, ss[0]) && RunCovered(sb, ss, ops, |ops|)
    ensures var s := ss[|ops|];
            && Shaped(sb, s) && MetaRel(sb, ss[0].disk, s) && SuperOn(sb, s.disk) == sb
            && Restored(s, Remounted(sb, s, held))
  {
    CoveredRun(sb, root, ss, ops, |ops|);
    GoodIsIntact(sb, root, ss[|ops|], held);
    RemountRestoresWhen(sb, ss[|ops|], held);
  }

  // ---------------------------------------------------------------- in terms of the operations alone

  /** No operation from `i` up to `n` writes this file block. */
  predicate NoWrite(ops: seq<Op>, i: nat, n: nat, ino: nat, k: nat)
    requires n <= |ops|
  {
    forall j: nat :: i <= j < n ==> !(ops[j].Write? && ops[j].ino == ino && ops[j].iblock == k)
  }

  /** No operation from `i` up to `n` sets the fields of this inode. */
  predicate NoChange(ops: seq<Op>, i: nat, n: nat, ino: nat)
    requires n <= |ops|
  {
    forall j: nat :: i <= j < n ==> !(ops[j].SetAttrs? && ops[j].ino == ino)
  }

  lemma {:induction false} ContentNext(sb: Super, f: Files, op: Op, ino: nat, k: nat)
    requires !(op.Write? && op.ino == ino && op.iblock == k)
    ensures var now := FilesStep(sb, f, op).content;
            ((ino, k) in now <==> (ino, k) in f.content) && ((ino, k) in now ==> now[(ino, k)] == f.content[(ino, k)])
  {
  }

  lemma {:induction false} ContentStays(sb: Super, f: Files, ops: seq<Op>, i: nat, n: nat, ino: nat, k: nat)
    requires i <= n <= |ops| && NoWrite(ops, i, n, ino, k)
    ensures var was, now := FilesRun(sb, f, ops, i).content, FilesRun(sb, f, ops, n).content;
            ((ino, k) in now <==> (ino, k) in was) && ((ino, k) in was ==> now[(ino, k)] == was[(ino, k)])
  {
    if i < n {
      ContentStays(sb, f, ops, i, n - 1, ino, k);
      ContentNext(sb, FilesRun(sb, f, ops, n - 1), ops[n - 1], ino, k);
    }
  }

  /** After a write to a live file the block has its contents until the next one. */
  lemma {:induction false} LastWriteStays(sb: Super, f: Files, ops: seq<Op>, i: nat, n: nat)
    requires i < n <= |ops| && ops[i].Write? && ops[i].ino in FilesRun(sb, f, ops, i).inos && InRange(sb, ops[i].iblock)
    requires NoWrite(ops, i + 1, n, ops[i].ino, ops[i].iblock)
    ensures var key, now := (ops[i].ino, ops[i].iblock), FilesRun(sb, f, ops, n).content;
            key in now && now[key] == ops[i].data
  {
    ContentStays(sb, f, ops, i + 1, n, ops[i].ino, ops[i].iblock);
  }

  lemma {:induction false} FieldsNext(sb: Super, f: Files, op: Op, ino: nat)
    requires !(op.SetAttrs? && op.ino == ino) && ino in f.inos && ino in f.fields
    ensures var g := FilesStep(sb, f, op);
            ino in g.inos && ino in g.fields && g.fields[ino] == f.fields[ino]
  {
  }

  lemma {:induction false} FieldsStay(sb: Super, f: Files, ops: seq<Op>, i: nat, n: nat, ino: nat)
    requires i <= n <= |ops| && NoChange(ops, i, n, ino)
    requires var g := FilesRun(sb, f, ops, i); ino in g.inos && ino in g.fields
    ensures var was, now := FilesRun(sb, f, ops, i), FilesRun(sb, f, ops, n);
            ino in now.inos && ino in now.fields && now.fields[ino] == was.fields[ino]
  {
    if i < n {
      FieldsStay(sb, f, ops, i, n - 1, ino);
      FieldsNext(sb, FilesRun(sb, f, ops, n - 1), ops[n - 1], ino);
    }
  }

  /** After a change of a live inode it has these fields until the next one. */
  lemma {:induction false} LastChangeStays(sb: Super, f: Files, ops: seq<Op>, i: nat, n: nat)
    requires i < n <= |ops| && ops[i].SetAttrs? && ops[i].ino in FilesRun(sb, f, ops, i).inos
    requires NoChange(ops, i + 1, n, ops[i].ino)
    ensures var now := FilesRun(sb, f, ops, n).fields;
            ops[i].ino in now && now[ops[i].ino] == ops[i].attrs
  {
    FieldsStay(sb, f, ops, i + 1, n, ops[i].ino);
  }

  /** The state of a covered run and the files agree on what is live, and on the fields. */
  lemma {:induction false} FilesAgree(sb: Super, root: nat, ss: seq<State>, ops: seq<Op>, n: nat)
    requires IsRun(sb, ss, ops) && Good(sb, root, ss[0]) && RunCovered(sb, ss, ops, n)
    ensures var f := FilesRun(sb, FilesAt(ss[0]), ops, n);
            f.inos == ss[n].ptrs.Keys == ss[n].attrs.Keys && f.fields == ss[n].attrs && ss[n].status.Up?
  {
    CoveredRun(sb, root, ss, ops, n);
  }

  /** A read of a live file within nine zones, by what the files held when it was made. */
  lemma {:induction false} ReadReturns(sb: Super, root: nat, ss: seq<State>, ops: seq<Op>, m: nat, f: Files)
    requires IsRun(sb, ss, ops) && Good(sb, root, ss[0]) && m < |ops| && RunCovered(sb, ss, ops, m + 1)
    requires ops[m].Read? && ops[m].ino in ss[m].ptrs && InRange(sb, ops[m].iblock)
    requires f == FilesRun(sb, FilesAt(ss[0]), ops, m)
    ensures sb.Valid() && Shaped(sb, ss[m]) && Shaped(sb, ss[m + 1])
    ensures var loc := Loc(sb, ss[m + 1], ops[m].ino, ops[m].iblock);
            && loc.Some?
            && Step(sb, ss[m], ops[m]).1 ==
               if (ops[m].ino, ops[m].iblock) in f.content then Some(f.content[(ops[m].ino, ops[m].iblock)])
               else At(ss[0].disk, loc.value)
  {
    FilesAgree(sb, root, ss, ops, m);
    CoveredRunAnswers(sb, root, ss, ops, m, m + 1);
  }

  lemma {:induction false} LiveLater(sb: Super, root: nat, ss: seq<State>, ops: seq<Op>, i: nat, m: nat, ino: nat)
    requires IsRun(sb, ss, ops) && Good(sb, root, ss[0]) && i <= m <= |ops| && RunCovered(sb, ss, ops, m)
    requires ino in ss[i].ptrs
    ensures ino in FilesRun(sb, FilesAt(ss[0]), ops, i).inos && ino in ss[m].ptrs
  {
    FilesAgree(sb, root, ss, ops, i);
    CoveredExtends(sb, root, ss, ops, i, m);
  }

  /** What is written to a file block is what the next read of it returns, with anything but a write to it between. */
  lemma {:induction false} WrittenIsRead(sb: Super, root: nat, ss: seq<State>, ops: seq<Op>, i: nat, m: nat)
    requires IsRun(sb, ss, ops) && Good(sb, root, ss[0]) && i < m < |ops| && RunCovered(sb, ss, ops, m + 1)
    requires ops[i].Write? && ops[m].Read? && ops[i].ino == ops[m].ino && ops[i].iblock == ops[m].iblock
    requires InRange(sb, ops[i].iblock) && ops[i].ino in ss[i].ptrs && NoWrite(ops, i + 1, m, ops[i].ino, ops[i].iblock)
    ensures Shaped(sb, ss[m]) && Step(sb, ss[m], ops[m]).1 == Some(ops[i].data)
  {
    LiveLater(sb, root, ss, ops, i, m, ops[i].ino);
    LastWriteStays(sb, FilesAt(ss[0]), ops, i, m);
    ReadReturns(sb, root, ss, ops, m, FilesRun(sb, FilesAt(ss[0]), ops, m));
  }

  /** A file block that nobody has written shows what the device held there at the start. */
  lemma {:induction false} UnwrittenIsRead(sb: Super, root: nat, ss: seq<State>, ops: seq<Op>, m: nat)
    requires IsRun(sb, ss, ops) && Good(sb, root, ss[0]) && m < |ops| && RunCovered(sb, ss, ops, m + 1)
    requires ops[m].Read? && ops[m].ino in ss[m].ptrs
    requires InRange(sb, ops[m].iblock) && NoWrite(ops, 0, m, ops[m].ino, ops[m].iblock)
    ensures sb.Valid() && Shaped(sb, ss[m]) && Shaped(sb, ss[m + 1])
    ensures var loc := Loc(sb, ss[m + 1], ops[m].ino, ops[m].iblock);
            loc.Some? && Step(sb, ss[m], ops[m]).1 == At(ss[0].disk, loc.value)
  {
    ContentStays(sb, FilesAt(ss[0]), ops, 0, m, ops[m].ino, ops[m].iblock);
    ReadReturns(sb, root, ss, ops, m, FilesRun(sb, FilesAt(ss[0]), ops, m));
  }

  /** Fields are those of the last change, through write-backs and remounts. */
  lemma {:induction false} ChangedIsFound(sb: Super, root: nat, ss: seq<State>, ops: seq<Op>, i: nat, n: nat)
    requires IsRun(sb, ss, ops) && Good(sb, root, ss[0]) && i < n <= |ops| && RunCovered(sb, ss, ops, n)
    requires ops[i].SetAttrs? && ops[i].ino in ss[i].ptrs && NoChange(ops, i + 1, n, ops[i].ino)
    ensures ops[i].ino in ss[n].attrs && ss[n].attrs[ops[i].ino] == ops[i].attrs
  {
    LiveLater(sb, root, ss, ops, i, i, ops[i].ino);
    LastChangeStays(sb, FilesAt(ss[0]), ops, i, n);
    FilesAgree(sb, root, ss, ops, n);
  }
}
