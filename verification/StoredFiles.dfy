/**
 Files in runs of names and storage together: namespace operations, which create inodes and write directory
 blocks, leave the contents and the fields of every file alone; and what they write into the fields of a new inode
 and of the directory that names it.
 */
module StoredFiles {
  import Numbers
  import Endian
  import opened Options
  import opened FirstFit
  import opened Layout
  import opened FileStore
  import opened FileRuns
  import opened Refinement
  import opened DirectoryEntries
  import opened StoredDirectories
  import opened StoredTree
  import Namespace

  // ---------------------------------------------------------------- one operation

  /** If file block `k` is anywhere, it is where it was, with the contents that it had. */
  predicate StaysAt(sb: Super, s: State, t: State, f: nat, k: nat)
    requires sb.Valid() && NinePointers(s.ptrs) && NinePointers(t.ptrs)
  {
    Loc(sb, s, f, k).Some? ==>
      Loc(sb, t, f, k) == Loc(sb, s, f, k) && At(t.disk, Loc(sb, s, f, k).value) == At(s.disk, Loc(sb, s, f, k).value)
  }

  predicate SameFields(s: State, t: State, f: nat) {
    f in s.ptrs && f in t.ptrs && f in s.attrs && f in t.attrs && t.attrs[f] == s.attrs[f]
  }

  /** A file as it was: its fields, and every one of its blocks. */
  ghost predicate FileStays(sb: Super, s: State, t: State, f: nat)
    requires sb.Valid() && NinePointers(s.ptrs) && NinePointers(t.ptrs)
  {
    SameFields(s, t, f) && forall k: nat {:trigger StaysAt(sb, s, t, f, k)} :: StaysAt(sb, s, t, f, k)
  }

  lemma {:induction false} StaysOn(sb: Super, s: State, t: State, u: State, f: nat)
    requires sb.Valid() && NinePointers(s.ptrs) && NinePointers(t.ptrs) && NinePointers(u.ptrs)
    requires FileStays(sb, s, t, f) && FileStays(sb, t, u, f)
    ensures FileStays(sb, s, u, f)
  {
    forall k: nat
      ensures StaysAt(sb, s, u, f, k)
    {
      assert StaysAt(sb, s, t, f, k) && StaysAt(sb, t, u, f, k);
    }
  }

  /** A covered operation that does not write a file block leaves it. */
  lemma {:induction false} OperationLeaves(sb: Super, root: nat, s: State, op: Op, t: State, f: nat, k: nat)
    requires Good(sb, root, s) && OpCovered(sb, s, op) && t == Step(sb, s, op).0 && !Hits(op, f, k)
    ensures StaysAt(sb, s, t, f, k)
  {
    OperationData(sb, root, s, op, t);
    if Loc(sb, s, f, k).Some? {
      LocIsKept(sb, s, t, f, k);
      OtherBlockKept(sb, s.disk, t, FilesStep(sb, FilesAt(s), op), f, k);
    }
  }

  lemma {:induction false} OperationSpares(sb: Super, root: nat, s: State, op: Op, t: State, f: nat)
    requires Good(sb, root, s) && OpCovered(sb, s, op) && t == Step(sb, s, op).0 && f in s.ptrs && Spares(op, f)
    ensures FileStays(sb, s, t, f)
  {
    FieldsAreKept(sb, root, s, op, t, f);
    forall k: nat
      ensures StaysAt(sb, s, t, f, k)
    {
      OperationLeaves(sb, root, s, op, t, f, k);
    }
  }

  /** Entering names in another inode leaves a file alone. */
  lemma {:induction false} EnterSparesFile(sb: Super, root: nat, s: State, d: nat, base: Data, es: seq<Entry>,
                                           now: Time, f: nat)
    requires Good(sb, root, s) && RecordsFit(sb) && d in s.ptrs && AllGood(es) && CanEnter(sb, s, d, es)
    requires f in s.ptrs && f != d
    ensures FileStays(sb, s, Entered(sb, s, d, base, es, now), f)
  {
    var op, fields := EnterWrite(sb, s, d, base, es), EnterFields(s, d, es, now);
    var t := Step(sb, s, op).0;
    EnterIsCovered(sb, root, s, d, base, es);
    EnterKeepsGood(sb, root, s, d, base, es, now, t);
    OperationSpares(sb, root, s, op, t, f);
    OperationSpares(sb, root, t, fields, Step(sb, t, fields).0, f);
    StaysOn(sb, s, t, Step(sb, t, fields).0, f);
  }

  lemma {:induction false} FieldsSet(sb: Super, s: State, t: State, d: nat, es: seq<Entry>, now: Time)
    requires Shaped(sb, t) && t.status.Up? && d in t.ptrs && d in s.attrs && t.attrs == s.attrs
    requires 64 * (Count(s, d) + |es|) < Numbers.TWO_32
    ensures Step(sb, t, EnterFields(s, d, es, now)).0.attrs ==
            s.attrs[d := s.attrs[d].(size := 64 * (Count(s, d) + |es|), ctime := now)]
  {
    ChangeStep(sb, t, d, GrownFields(s.attrs[d], 64 * (Count(s, d) + |es|), now));
  }

  /** Entering names sets the size and the time of the directory, and no other field of any inode. */
  lemma {:induction false} EnterSetsFields(sb: Super, root: nat, s: State, d: nat, base: Data, es: seq<Entry>,
                                           now: Time)
    requires Good(sb, root, s) && RecordsFit(sb) && d in s.ptrs && AllGood(es) && CanEnter(sb, s, d, es)
    ensures Entered(sb, s, d, base, es, now).attrs ==
            s.attrs[d := s.attrs[d].(size := 64 * (Count(s, d) + |es|), ctime := now)]
  {
    var op := EnterWrite(sb, s, d, base, es);
    var t := Step(sb, s, op).0;
    EnterKeepsGood(sb, root, s, d, base, es, now, t);
    BlockOpKeepsFields(sb, s, op);
    FieldsSet(sb, s, t, d, es, now);
  }

  // ---------------------------------------------------------------- namespace operations

  /** The new number is none of those in use. */
  lemma {:induction false} NumberIsNew(s: State, f: nat, n: nat)
    requires NumbersTaken(s) && f in s.ptrs && Alloc(s.inodeBits).1 == Some(n)
    ensures f != n
  {
    assert s.inodeBits[f] && !s.inodeBits[n];
  }

  lemma {:induction false} DotsSpareFile(sb: Super, root: nat, s: State, call: Namespace.Op, n: nat, now: Time, f: nat)
    requires Good(sb, root, s) && RecordsFit(sb) && f in s.ptrs && f != n
    requires call.MkDir? && call.env.empty.prepare == 0 ==>
               n in s.ptrs && AllGood(NewEntries(n, call.dir)) && CanEnter(sb, s, n, NewEntries(n, call.dir))
    ensures FileStays(sb, s, DotsStored(sb, s, call, n, now), f)
  {
    if call.MkDir? && call.env.empty.prepare == 0 {
      EnterSparesFile(sb, root, s, n, Endian.Zeros(sb.BlockSize()), NewEntries(n, call.dir), now, f);
    }
  }

  lemma {:induction false} LinkSparesFile(sb: Super, root: nat, s: State, c: Namespace.Change, now: Time, f: nat)
    requires Good(sb, root, s) && RecordsFit(sb) && f in s.ptrs
    requires Naming(c) ==> f != c.dir && GoodEntry(c.entry) && c.dir in s.ptrs && CanEnter(sb, s, c.dir, [c.entry])
    ensures FileStays(sb, s, LinkStored(sb, s, c, now), f)
  {
    if Naming(c) {
      EnterSparesFile(sb, root, s, c.dir, Current(sb, s, c.dir), [c.entry], now, f);
    }
  }

  lemma {:induction false} DotsPart(sb: Super, root: nat, s: State, dirs: map<nat, seq<Entry>>, call: Namespace.Op,
                                    n: nat, now: Time, s2: State, f: nat)
    requires Keeps(sb, root, s, dirs) && n !in dirs && DirOn(sb, s, n, []) && s2 == DotsStored(sb, s, call, n, now)
    requires call.MkDir? ==> 0 < n < Numbers.TWO_32 && 0 < call.dir < Numbers.TWO_32
    requires call.MkDir? && call.env.empty.prepare == 0 ==> CanEnter(sb, s, n, NewEntries(n, call.dir))
    requires f in s.ptrs && f != n
    ensures Good(sb, root, s2) && f in s2.ptrs && FileStays(sb, s, s2, f)
  {
    DotsAreStored(sb, root, s, dirs, call, n, now, s2);
    DotsAreGood(call, n);
    DotsSpareFile(sb, root, s, call, n, now, f);
  }

  lemma {:induction false} DotsAreGood(call: Namespace.Op, n: nat)
    requires call.MkDir? ==> 0 < n < Numbers.TWO_32 && 0 < call.dir < Numbers.TWO_32
    ensures call.MkDir? ==> AllGood(NewEntries(n, call.dir))
  {
  }

  /** The two stores of a namespace operation that has a number. */
  lemma {:induction false} BothSpareFile(sb: Super, root: nat, s: State, dirs: map<nat, seq<Entry>>, call: Namespace.Op,
                                         n: nat, c: Namespace.Change, now: Time, s2: State, f: nat)
    requires Keeps(sb, root, s, dirs) && n !in dirs && DirOn(sb, s, n, []) && s2 == DotsStored(sb, s, call, n, now)
    requires call.MkDir? ==> 0 < n < Numbers.TWO_32 && 0 < call.dir < Numbers.TWO_32
    requires call.MkDir? && call.env.empty.prepare == 0 ==> CanEnter(sb, s, n, NewEntries(n, call.dir))
    requires Naming(c) ==>
               c.dir in dirs && GoodEntry(c.entry) && c.dir in s2.ptrs && CanEnter(sb, s2, c.dir, [c.entry])
    requires f in s.ptrs && f !in dirs && f != n
    ensures FileStays(sb, s, LinkStored(sb, s2, c, now), f)
  {
    DotsPart(sb, root, s, dirs, call, n, now, s2, f);
    LinkSparesFile(sb, root, s2, c, now, f);
    StaysOn(sb, s, s2, LinkStored(sb, s2, c, now), f);
  }

  /** Every covered namespace operation leaves every file as it was. */
  lemma {:induction false} NameSparesFile(sb: Super, root: nat, sys: System, call: Namespace.Op, fields: Attrs,
                                          now: Time, lo: nat, hi: nat, f: nat)
    requires Joint(sb, root, sys) && Namespace.Good(sys.names, lo, hi) && Namespace.GoodOp(sys.names, call)
    requires NameCovered(sb, sys, call, fields, now) && f in sys.volume.ptrs && f !in sys.names.dirs
    ensures FileStays(sb, sys.volume, NameStored(sb, sys, call, fields, now), f)
    ensures f !in Namespace.Step(sys.names, call).0.dirs
  {
    var v, ns := sys.volume, sys.names;
    if Fruitless(call) {
      FruitlessCall(ns, call);
    } else {
      var s := Step(sb, v, Create(fields)).0;
      InodeIsMade(sb, root, v, fields, s, ns.dirs);
      OperationSpares(sb, root, v, Create(fields), s, f);
      DirsAfter(ns, call, lo, hi);
      if Namespace.NewNumber(ns, call.env).Some? {
        var n := Namespace.NewNumber(ns, call.env).value;
        CallFacts(ns, call, lo, hi);
        NumberIsNew(v, f, n);
        var s2, c := DotsStored(sb, s, call, n, now), Namespace.Decide(ns, call, Some(n)).0;
        BothSpareFile(sb, root, s, ns.dirs, call, n, c, now, s2, f);
        StaysOn(sb, v, s, LinkStored(sb, s2, c, now), f);
      }
    }
  }

  /** A new directory has the fields that it was created with, the size of its dot entries, and the time. */
  lemma {:induction false} DotsSetFields(sb: Super, root: nat, s: State, call: Namespace.Op, n: nat, now: Time)
    requires Good(sb, root, s) && RecordsFit(sb) && n in s.ptrs && s.attrs[n].size == 0
    requires call.MkDir? && call.env.empty.prepare == 0 ==>
               AllGood(NewEntries(n, call.dir)) && CanEnter(sb, s, n, NewEntries(n, call.dir))
    ensures DotsStored(sb, s, call, n, now).attrs ==
            if call.MkDir? && call.env.empty.prepare == 0 then s.attrs[n := s.attrs[n].(size := 128, ctime := now)]
            else s.attrs
  {
    if call.MkDir? && call.env.empty.prepare == 0 {
      EnterSetsFields(sb, root, s, n, Endian.Zeros(sb.BlockSize()), NewEntries(n, call.dir), now);
    }
  }

  /** The directory that gets an entry grows by one record, and has the time of the change. */
  lemma {:induction false} LinkSetsFields(sb: Super, root: nat, s: State, c: Namespace.Change, now: Time, count: nat)
    requires Good(sb, root, s) && RecordsFit(sb) && Naming(c) && GoodEntry(c.entry) && c.dir in s.ptrs
    requires s.attrs[c.dir].size == 64 * count && CanEnter(sb, s, c.dir, [c.entry])
    ensures var after := LinkStored(sb, s, c, now).attrs;
            && after.Keys == s.attrs.Keys && after[c.dir] == s.attrs[c.dir].(size := 64 * (count + 1), ctime := now)
            && forall n :: n in s.attrs && n != c.dir ==> after[n] == s.attrs[n]
  {
    LinkIsEntered(sb, s, c, now);
    OneMoreRecord(s, c.dir, count);
    EnterSetsFields(sb, root, s, c.dir, Current(sb, s, c.dir), [c.entry], now);
  }

  lemma {:induction false} OneMoreRecord(s: State, d: nat, count: nat)
    requires d in s.attrs && s.attrs[d].size == 64 * count
    ensures Count(s, d) == count
  {
  }

  lemma {:induction false} LinkIsEntered(sb: Super, s: State, c: Namespace.Change, now: Time)
    requires Shaped(sb, s) && RecordsFit(sb) && Naming(c) && GoodEntry(c.entry) && c.dir in s.ptrs
    ensures AllGood([c.entry])
    ensures LinkStored(sb, s, c, now) == Entered(sb, s, c.dir, Current(sb, s, c.dir), [c.entry], now)
  {
  }

  /** The fields after both stores: those of the new inode, and those of the directory that names it. */
  lemma {:induction false} BothSetFields(sb: Super, root: nat, s: State, call: Namespace.Op, n: nat,
                                         c: Namespace.Change, now: Time, s2: State, count: nat, fields: Attrs)
    requires Good(sb, root, s) && Good(sb, root, s2) && RecordsFit(sb) && s2 == DotsStored(sb, s, call, n, now)
    requires n in s.ptrs && s.attrs[n] == fields && fields.size == 0
    requires call.MkDir? ==> AllGood(NewEntries(n, call.dir))
    requires call.MkDir? && call.env.empty.prepare == 0 ==> CanEnter(sb, s, n, NewEntries(n, call.dir))
    requires Naming(c) ==> c.dir != n && c.dir in s.ptrs && s.attrs[c.dir].size == 64 * count && GoodEntry(c.entry)
    requires Naming(c) ==> c.dir in s2.ptrs && CanEnter(sb, s2, c.dir, [c.entry])
    ensures var t := LinkStored(sb, s2, c, now);
            && n in t.attrs
            && t.attrs[n] == (if call.MkDir? && call.env.empty.prepare == 0 then fields.(size := 128, ctime := now)
                              else fields)
            && (Naming(c) ==>
                  c.dir in t.attrs && t.attrs[c.dir] == s.attrs[c.dir].(size := 64 * (count + 1), ctime := now))
  {
    DotsSetFields(sb, root, s, call, n, now);
    if Naming(c) {
      LinkSetsFields(sb, root, s2, c, now, count);
    }
  }

  /** The size of the holder before the entry. */
  lemma {:induction false} HolderSize(sb: Super, s: State, dirs: map<nat, seq<Entry>>, fields: Attrs, d: nat)
    requires Shaped(sb, s) && RecordsFit(sb) && DirsOn(sb, s, dirs) && d in dirs
    ensures d in s.ptrs && d in s.attrs && s.attrs[d].size == 64 * |dirs[d]|
    ensures var t := Created(sb, s, fields);
            d in t.ptrs && d in t.attrs && t.attrs[d] == s.attrs[d]
  {
    assert DirOn(sb, s, d, dirs[d]);
    CreateKeepsFields(sb, s, fields, d);
  }

  /** The fields after an operation that has a number, from the state in which its inode is made. */
  lemma {:induction false} NumberedSetsFields(sb: Super, root: nat, s: State, dirs: map<nat, seq<Entry>>,
                                              call: Namespace.Op, n: nat, c: Namespace.Change, now: Time, s2: State,
                                              fields: Attrs)
    requires Keeps(sb, root, s, dirs) && n !in dirs && DirOn(sb, s, n, []) && s2 == DotsStored(sb, s, call, n, now)
    requires n in s.ptrs && s.attrs[n] == fields && fields.size == 0
    requires call.MkDir? ==> 0 < n < Numbers.TWO_32 && 0 < call.dir < Numbers.TWO_32
    requires call.MkDir? && call.env.empty.prepare == 0 ==> CanEnter(sb, s, n, NewEntries(n, call.dir))
    requires Naming(c) ==>
               c.dir in dirs && c.dir in s.ptrs && s.attrs[c.dir].size == 64 * |dirs[c.dir]| && GoodEntry(c.entry)
    requires Naming(c) ==> c.dir != n && c.dir in s2.ptrs && CanEnter(sb, s2, c.dir, [c.entry])
    ensures var t := LinkStored(sb, s2, c, now);
            && n in t.attrs
            && t.attrs[n] == (if call.MkDir? && call.env.empty.prepare == 0 then fields.(size := 128, ctime := now)
                              else fields)
            && (Naming(c) ==>
                  && c.dir in t.attrs
                  && t.attrs[c.dir] == s.attrs[c.dir].(size := 64 * (|dirs[c.dir]| + 1), ctime := now))
  {
    DotsAreGood(call, n);
    DotsAreStored(sb, root, s, dirs, call, n, now, s2);
    BothSetFields(sb, root, s, call, n, c, now, s2, if Naming(c) then |dirs[c.dir]| else 0, fields);
  }

  /** What is known once the inode is made. */
  lemma {:induction false} InodeFacts(sb: Super, root: nat, sys: System, call: Namespace.Op, fields: Attrs, lo: nat,
                                      hi: nat, n: nat, s: State, c: Namespace.Change)
    requires Joint(sb, root, sys) && Namespace.Good(sys.names, lo, hi) && Namespace.GoodOp(sys.names, call)
    requires fields.Fit() && fields.size == 0 && Usable(sb, n) && s == Step(sb, sys.volume, Create(fields)).0
    requires Namespace.NewNumber(sys.names, call.env) == Some(n)
    requires c == Namespace.Decide(sys.names, call, Some(n)).0
    ensures Keeps(sb, root, s, sys.names.dirs) && n !in sys.names.dirs && DirOn(sb, s, n, [])
    ensures n in s.ptrs && s.attrs[n] == fields
    ensures Naming(c) ==>
              && c.dir in sys.volume.attrs && c.dir in s.ptrs && s.attrs[c.dir] == sys.volume.attrs[c.dir]
              && c.dir in sys.names.dirs && s.attrs[c.dir].size == 64 * |sys.names.dirs[c.dir]|
  {
    CallFacts(sys.names, call, lo, hi);
    InodeIsMade(sb, root, sys.volume, fields, s, sys.names.dirs);
    NewInode(sb, sys.volume, fields);
    if Naming(c) {
      HolderSize(sb, sys.volume, sys.names.dirs, fields, c.dir);
    }
  }

  /**
   What a namespace operation with a number writes into the inodes: the new one has the fields that it was created
   with, a new directory also the size of its dot entries; the directory that names it grows by one record.
   */
  lemma {:induction false} NameSetsFields(sb: Super, root: nat, sys: System, call: Namespace.Op, fields: Attrs,
                                          now: Time, lo: nat, hi: nat, n: nat, t: State, c: Namespace.Change)
    requires Joint(sb, root, sys) && Namespace.Good(sys.names, lo, hi) && Namespace.GoodOp(sys.names, call)
    requires NameCovered(sb, sys, call, fields, now) && !Fruitless(call)
    requires Namespace.NewNumber(sys.names, call.env) == Some(n) && t == NameStored(sb, sys, call, fields, now)
    requires c == Namespace.Decide(sys.names, call, Some(n)).0
    ensures n in t.attrs
    ensures t.attrs[n] ==
            if call.MkDir? && call.env.empty.prepare == 0 then fields.(size := 128, ctime := now) else fields
    ensures Naming(c) ==>
              && c.dir in sys.volume.attrs && c.dir in sys.names.dirs && c.dir in t.attrs
              && t.attrs[c.dir] ==
                 sys.volume.attrs[c.dir].(size := 64 * (|sys.names.dirs[c.dir]| + 1), ctime := now)
  {
    var s := Step(sb, sys.volume, Create(fields)).0;
    CallFacts(sys.names, call, lo, hi);
    InodeFacts(sb, root, sys, call, fields, lo, hi, n, s, c);
    NumberedSetsFields(sb, root, s, sys.names.dirs, call, n, c, now, DotsStored(sb, s, call, n, now), fields);
  }

  // ---------------------------------------------------------------- runs

  /** Every covered event that does not write a block of a file leaves the block; files do not become directories. */
  lemma {:induction false} EventLeaves(sb: Super, root: nat, sys: System, ev: StoredTree.Event, lo: nat, hi: nat,
                                       f: nat, k: nat)
    requires Joint(sb, root, sys) && Namespace.Good(sys.names, lo, hi) && EventCovered(sb, sys, ev)
    requires f in sys.volume.ptrs && f !in sys.names.dirs && (ev.File? ==> !Hits(ev.op, f, k))
    ensures var next := EventStep(sb, sys, ev);
            StaysAt(sb, sys.volume, next.volume, f, k) && f in next.volume.ptrs && f !in next.names.dirs
  {
    match ev
    case Name(call, fields, now) =>
      if Namespace.GoodOp(sys.names, call) {
        NameSparesFile(sb, root, sys, call, fields, now, lo, hi, f);
        assert StaysAt(sb, sys.volume, NameStored(sb, sys, call, fields, now), f, k);
      }
    case File(op) =>
      var t := Step(sb, sys.volume, op).0;
      OperationLeaves(sb, root, sys.volume, op, t, f, k);
      OneOperation(sb, root, sys.volume, op);
  }

  /** No event from `i` up to `n` writes this file block. */
  predicate Unwritten(events: seq<StoredTree.Event>, i: nat, n: nat, f: nat, k: nat)
    requires n <= |events|
  {
    forall j: nat :: i <= j < n && events[j].File? ==> !Hits(events[j].op, f, k)
  }

  lemma {:induction false} StaysAtOn(sb: Super, s: State, t: State, u: State, f: nat, k: nat)
    requires sb.Valid() && NinePointers(s.ptrs) && NinePointers(t.ptrs) && NinePointers(u.ptrs)
    requires StaysAt(sb, s, t, f, k) && StaysAt(sb, t, u, f, k)
    ensures StaysAt(sb, s, u, f, k)
  {
  }

  lemma {:induction false} BlockStaysNext(sb: Super, root: nat, ss: seq<System>, events: seq<StoredTree.Event>,
                                          i: nat, lo: nat, hi: nat, f: nat, k: nat)
    requires CoveredSystemRun(sb, ss, events) && Joint(sb, root, ss[0]) && Namespace.Good(ss[0].names, lo, hi)
    requires i < |events| && f in ss[i].volume.ptrs && f !in ss[i].names.dirs
    requires events[i].File? ==> !Hits(events[i].op, f, k)
    ensures Shaped(sb, ss[i].volume) && Shaped(sb, ss[i + 1].volume)
    ensures StaysAt(sb, ss[i].volume, ss[i + 1].volume, f, k)
    ensures f in ss[i + 1].volume.ptrs && f !in ss[i + 1].names.dirs
  {
    TreeIsStored(sb, root, ss, events, i, lo, hi);
    var next := NamesAreGood(sb, ss, events, i, lo, hi);
    assert EventAt(sb, ss, events, i) && EventCoveredAt(sb, ss, events, i);
    EventLeaves(sb, root, ss[i], events[i], next, hi, f, k);
  }

  /** A file block stays until it is written, whatever names come and go, and through remounts. */
  lemma {:induction false} BlockStaysInTree(sb: Super, root: nat, ss: seq<System>, events: seq<StoredTree.Event>,
                                            i: nat, n: nat, lo: nat, hi: nat, f: nat, k: nat)
    requires CoveredSystemRun(sb, ss, events) && Joint(sb, root, ss[0]) && Namespace.Good(ss[0].names, lo, hi)
    requires i <= n <= |events| && f in ss[i].volume.ptrs && f !in ss[i].names.dirs && Unwritten(events, i, n, f, k)
    ensures Shaped(sb, ss[i].volume) && Shaped(sb, ss[n].volume) && StaysAt(sb, ss[i].volume, ss[n].volume, f, k)
    ensures f in ss[n].volume.ptrs && f !in ss[n].names.dirs
  {
    if i == n {
      TreeIsStored(sb, root, ss, events, i, lo, hi);
    } else {
      BlockStaysInTree(sb, root, ss, events, i, n - 1, lo, hi, f, k);
      BlockStaysNext(sb, root, ss, events, n - 1, lo, hi, f, k);
      StaysAtOn(sb, ss[i].volume, ss[n - 1].volume, ss[n].volume, f, k);
    }
  }

  lemma {:induction false} WriteArrives(sb: Super, root: nat, s: State, op: Op, t: State)
    requires Good(sb, root, s) && OpCovered(sb, s, op) && t == Step(sb, s, op).0
    requires op.Write? && op.ino in s.ptrs && InRange(sb, op.iblock)
    ensures var loc := Loc(sb, t, op.ino, op.iblock);
            loc.Some? && At(t.disk, loc.value) == Some(op.data) && op.ino in t.ptrs
  {
    OperationData(sb, root, s, op, t);
    assert StoredAt(sb, t, FilesStep(sb, FilesAt(s), op), op.ino, op.iblock);
  }

  lemma {:induction false} WriteEvent(sb: Super, root: nat, ss: seq<System>, events: seq<StoredTree.Event>, i: nat,
                                      op: Op)
    requires CoveredSystemRun(sb, ss, events) && i < |events| && Joint(sb, root, ss[i]) && events[i] == File(op)
    requires op.Write? && op.ino in ss[i].volume.ptrs && InRange(sb, op.iblock)
    ensures Shaped(sb, ss[i + 1].volume) && op.ino in ss[i + 1].volume.ptrs && op.ino !in ss[i + 1].names.dirs
    ensures var loc := Loc(sb, ss[i + 1].volume, op.ino, op.iblock);
            loc.Some? && At(ss[i + 1].volume.disk, loc.value) == Some(op.data)
  {
    assert EventAt(sb, ss, events, i) && EventCoveredAt(sb, ss, events, i);
    WriteArrives(sb, root, ss[i].volume, op, ss[i + 1].volume);
    assert op.ino in ss[i].names.dirs ==> Spares(op, op.ino);
  }

  /**
   Files and names together: what a file operation writes to a file block is there in every later state of the
   run, until the block is written again.
   */
  lemma {:induction false} WrittenStaysInTree(sb: Super, root: nat, ss: seq<System>, events: seq<StoredTree.Event>,
                                              i: nat, n: nat, lo: nat, hi: nat, op: Op)
    requires CoveredSystemRun(sb, ss, events) && Joint(sb, root, ss[0]) && Namespace.Good(ss[0].names, lo, hi)
    requires i < n <= |events| && events[i] == File(op) && op.Write? && op.ino in ss[i].volume.ptrs
    requires InRange(sb, op.iblock) && Unwritten(events, i + 1, n, op.ino, op.iblock)
    ensures Shaped(sb, ss[n].volume)
    ensures var loc := Loc(sb, ss[n].volume, op.ino, op.iblock);
            loc.Some? && At(ss[n].volume.disk, loc.value) == Some(op.data)
  {
    JointAt(sb, root, ss, events, i, lo, hi);
    WriteEvent(sb, root, ss, events, i, op);
    BlockStaysInTree(sb, root, ss, events, i + 1, n, lo, hi, op.ino, op.iblock);
  }

  lemma {:induction false} JointAt(sb: Super, root: nat, ss: seq<System>, events: seq<StoredTree.Event>, i: nat,
                                   lo: nat, hi: nat)
    requires CoveredSystemRun(sb, ss, events) && Joint(sb, root, ss[0]) && Namespace.Good(ss[0].names, lo, hi)
    requires i <= |events|
    ensures Joint(sb, root, ss[i])
  {
    TreeIsStored(sb, root, ss, events, i, lo, hi);
  }
}
