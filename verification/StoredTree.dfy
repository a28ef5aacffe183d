/**
 Names and storage together. Each namespace operation takes a number in the inode map of the volume and
 stores its entries in directory blocks; between them come file operations, write-backs and remounts. The
 directories that a mount finds on the device are those of the namespace, so the tree survives.
 */
module StoredTree {
  import opened Numbers
  import opened Options
  import opened Endian
  import opened FirstFit
  import opened Layout
  import opened Metadata
  import opened FileStore
  import opened FileRuns
  import opened Refinement
  import opened DirectoryEntries
  import opened StoredDirectories
  import Formatter
  import Namespace
  import RootDirectory
  import WholeSystem

  /** A mounted volume, and the namespace that its directories are to hold. */
  datatype System = System(volume: State, names: Namespace.State)

  /** A namespace operation, with the fields of the inode that it may create and the time; or a file operation. */
  datatype Event = Name(call: Namespace.Op, fields: Attrs, now: Time) | File(op: Op)

  // ---------------------------------------------------------------- what a namespace operation stores

  /** The block that the next record goes to, as the append finds it. */
  function Current(sb: Super, s: State, d: nat): (r: Data)
    requires Shaped(sb, s) && RecordsFit(sb) && d in s.ptrs
    ensures |r| == sb.BlockSize()
  {
    var k := BlockNo(Count(s, d), PerBlock(sb));
    if Loc(sb, s, d, k).Some? then Contents(sb, s, d, k)
    else
      match MapFile(sb, s, d, k, 0).1
      case Mapped(b) => BlockOf(s.disk, sb.BlockSize(), b)
      case Eio => Zeros(sb.BlockSize())
  }

  function EnterIf(sb: Super, s: State, d: nat, base: Data, es: seq<Entry>, now: Time): (r: State)
    requires Shaped(sb, s) && RecordsFit(sb)
    ensures Shaped(sb, r)
  {
    if d in s.ptrs && AllGood(es) then Entered(sb, s, d, base, es, now) else s
  }

  /** A new directory gets its dot entries in a block of zeros, unless that block cannot be had. */
  function DotsStored(sb: Super, s: State, call: Namespace.Op, n: nat, now: Time): (r: State)
    requires Shaped(sb, s) && RecordsFit(sb)
    ensures Shaped(sb, r)
  {
    if call.MkDir? && call.env.empty.prepare == 0 then
      EnterIf(sb, s, n, Zeros(sb.BlockSize()), NewEntries(n, call.dir), now)
    else s
  }

  /** The entry that the operation makes is appended to its directory. */
  function LinkStored(sb: Super, s: State, c: Namespace.Change, now: Time): (r: State)
    requires Shaped(sb, s) && RecordsFit(sb)
    ensures Shaped(sb, r)
  {
    if c.Nothing? || c.Unnamed? || c.dir !in s.ptrs then s
    else EnterIf(sb, s, c.dir, Current(sb, s, c.dir), [c.entry], now)
  }

  /** The operation does not get as far as an inode. */
  predicate Fruitless(call: Namespace.Op) {
    (call.MkNod? && !call.validDevice) || call.env.noMemory
  }

  /** The volume after a namespace operation. */
  function NameStored(sb: Super, sys: System, call: Namespace.Op, fields: Attrs, now: Time): (r: State)
    requires Shaped(sb, sys.volume) && RecordsFit(sb) && Namespace.GoodOp(sys.names, call)
    ensures Shaped(sb, r)
  {
    if Fruitless(call) then sys.volume
    else
      var s := Step(sb, sys.volume, Create(fields)).0;
      match Namespace.NewNumber(sys.names, call.env)
      case None => s
      case Some(n) =>
        LinkStored(sb, DotsStored(sb, s, call, n, now), Namespace.Decide(sys.names, call, Some(n)).0, now)
  }

  /** The inode fits the table and its record, and there is room for every entry that is stored. */
  predicate NameCovered(sb: Super, sys: System, call: Namespace.Op, fields: Attrs, now: Time)
    requires Geometry(sb) && Shaped(sb, sys.volume) && RecordsFit(sb) && Namespace.GoodOp(sys.names, call)
  {
    !Fruitless(call) ==>
      && fields.Fit() && fields.size == 0
      && var s := Step(sb, sys.volume, Create(fields)).0;
      match Namespace.NewNumber(sys.names, call.env)
      case None => true
      case Some(n) =>
        var t, c := DotsStored(sb, s, call, n, now), Namespace.Decide(sys.names, call, Some(n)).0;
        && Usable(sb, n)
        && (call.MkDir? && call.env.empty.prepare == 0 ==> n in s.ptrs && CanEnter(sb, s, n, NewEntries(n, call.dir)))
        && (!c.Nothing? && !c.Unnamed? ==> c.dir in t.ptrs && CanEnter(sb, t, c.dir, [c.entry]))
  }

  // ---------------------------------------------------------------- runs

  /** A call that the VFS would not make is skipped. */
  function EventStep(sb: Super, sys: System, ev: Event): (r: System)
    requires Shaped(sb, sys.volume) && RecordsFit(sb)
    ensures Shaped(sb, r.volume)
  {
    match ev
    case Name(call, fields, now) =>
      if Namespace.Coherent(sys.names) && Namespace.GoodOp(sys.names, call) then
        System(NameStored(sb, sys, call, fields, now), Namespace.Step(sys.names, call).0)
      else sys
    case File(op) => sys.(volume := Step(sb, sys.volume, op).0)
  }

  /** File operations create no inodes and leave directories alone. */
  ghost predicate EventCovered(sb: Super, sys: System, ev: Event) {
    && Geometry(sb) && Shaped(sb, sys.volume) && RecordsFit(sb)
    && match ev
       case Name(call, fields, now) => Namespace.GoodOp(sys.names, call) ==> NameCovered(sb, sys, call, fields, now)
       case File(op) =>
         OpCovered(sb, sys.volume, op) && !op.Create? && forall d :: d in sys.names.dirs ==> Spares(op, d)
  }

  /** Event `i` leads from system `i` to the next one. */
  predicate EventAt(sb: Super, ss: seq<System>, events: seq<Event>, i: nat)
    requires i < |events| < |ss|
  {
    Shaped(sb, ss[i].volume) && RecordsFit(sb) && ss[i + 1] == EventStep(sb, ss[i], events[i])
  }

  ghost predicate IsSystemRun(sb: Super, ss: seq<System>, events: seq<Event>) {
    && |ss| == |events| + 1
    && forall i: nat {:trigger EventAt(sb, ss, events, i)} :: i < |events| ==> EventAt(sb, ss, events, i)
  }

  /** The namespace operations among the first `n` events. */
  function Calls(events: seq<Event>, n: nat): (r: seq<Namespace.Op>)
    requires n <= |events|
  {
    if n == 0 then []
    else if events[n - 1].Name? then Calls(events, n - 1) + [events[n - 1].call] else Calls(events, n - 1)
  }

  /** The volume is good and holds the directories and numbers of the namespace. */
  ghost predicate Joint(sb: Super, root: nat, sys: System) {
    && Good(sb, root, sys.volume) && RecordsFit(sb)
    && sys.names.bits == sys.volume.inodeBits && DirsOn(sb, sys.volume, sys.names.dirs)
  }

  // ---------------------------------------------------------------- one namespace operation

  /** Operations that spare the directories keep all of them. */
  lemma {:induction false} DirsAreKept(sb: Super, root: nat, s: State, op: Op, t: State, dirs: map<nat, seq<Entry>>)
    requires Good(sb, root, s) && RecordsFit(sb) && OpCovered(sb, s, op) && t == Step(sb, s, op).0
    requires DirsOn(sb, s, dirs)
    requires forall d :: d in dirs ==> Spares(op, d)
    ensures Good(sb, root, t) && DirsOn(sb, t, dirs)
  {
    OneOperation(sb, root, s, op);
    forall d: nat | d in dirs
      ensures DirOn(sb, t, d, dirs[d])
    {
      assert DirOn(sb, s, d, dirs[d]);
      DirIsKept(sb, root, s, op, t, d, dirs[d]);
    }
  }

  /** A number is taken; if it can be used, the new inode is an empty directory as far as its size goes. */
  lemma {:induction false} InodeIsMade(sb: Super, root: nat, s: State, fields: Attrs, t: State,
                                       dirs: map<nat, seq<Entry>>)
    requires Good(sb, root, s) && RecordsFit(sb) && DirsOn(sb, s, dirs) && fields.Fit() && fields.size == 0
    requires t == Step(sb, s, Create(fields)).0
    ensures Good(sb, root, t) && DirsOn(sb, t, dirs) && t.inodeBits == Alloc(s.inodeBits).0
    ensures Alloc(s.inodeBits).1.Some? && Usable(sb, Alloc(s.inodeBits).1.value) ==>
              DirOn(sb, t, Alloc(s.inodeBits).1.value, [])
  {
    DirsAreKept(sb, root, s, Create(fields), t, dirs);
    NewInode(sb, s, fields);
  }

  lemma {:induction false} NewInode(sb: Super, s: State, fields: Attrs)
    requires Shaped(sb, s) && NumbersTaken(s)
    ensures var t, n := Created(sb, s, fields), Alloc(s.inodeBits).1;
            && t.inodeBits == Alloc(s.inodeBits).0
            && (n.Some? && Usable(sb, n.value) ==>
                  n.value in t.ptrs && n.value in t.attrs && t.attrs[n.value] == fields)
  {
    var n := Alloc(s.inodeBits).1;
    if n.Some? {
      assert !s.inodeBits[n.value];
      assert n.value !in s.ptrs;
    }
  }

  /** Names entered in a directory, or in an inode that is not one yet. */
  lemma {:induction false} DirsGrow(sb: Super, root: nat, s: State, d: nat, base: Data, es: seq<Entry>,
                                    more: seq<Entry>, now: Time, t: State, dirs: map<nat, seq<Entry>>)
    requires Good(sb, root, s) && RecordsFit(sb) && d in s.ptrs && DirsOn(sb, s, dirs) && AllGood(more)
    requires DirOn(sb, s, d, es) && CanEnter(sb, s, d, more)
    requires IsBase(sb, s, d, BlockNo(|es|, PerBlock(sb)), RecordNo(|es|, PerBlock(sb)), base)
    requires t == Entered(sb, s, d, base, more, now)
    ensures Good(sb, root, t) && t.inodeBits == s.inodeBits && t.ptrs.Keys == s.ptrs.Keys
    ensures DirsOn(sb, t, dirs[d := es + more])
  {
    EnterStores(sb, root, s, d, base, es, more, now);
    EnterSpares(sb, root, s, d, base, more, now);
    var grown := dirs[d := es + more];
    forall c: nat | c in grown
      ensures DirOn(sb, t, c, grown[c])
    {
      if c != d {
        assert DirOn(sb, s, c, dirs[c]);
      }
    }
  }

  lemma {:induction false} FewerDirs(sb: Super, t: State, dirs: map<nat, seq<Entry>>, d: nat, es: seq<Entry>)
    requires sb.Valid() && RecordsFit(sb) && NinePointers(t.ptrs) && DirsOn(sb, t, dirs[d := es]) && d !in dirs
    ensures DirsOn(sb, t, dirs) && DirOn(sb, t, d, es)
  {
    var more := dirs[d := es];
    assert DirOn(sb, t, d, more[d]);
    forall c: nat | c in dirs
      ensures DirOn(sb, t, c, dirs[c])
    {
      assert DirOn(sb, t, c, more[c]);
    }
  }

  /** The block of the next record holds the records before it, if there are any. */
  lemma {:induction false} CurrentIsBase(sb: Super, s: State, d: nat, es: seq<Entry>)
    requires Shaped(sb, s) && RecordsFit(sb) && DirOn(sb, s, d, es)
    ensures IsBase(sb, s, d, BlockNo(|es|, PerBlock(sb)), RecordNo(|es|, PerBlock(sb)), Current(sb, s, d))
  {
    var n, per := |es|, PerBlock(sb);
    assert Count(s, d) == n;
    if RecordNo(n, per) > 0 {
      LastBefore(n, per);
      assert EntryOn(sb, s, d, n - 1, es[n - 1]);
    }
  }

  lemma {:induction false} LastBefore(n: nat, per: nat)
    requires per > 0 && RecordNo(n, per) > 0
    ensures n > 0 && BlockNo(n - 1, per) == BlockNo(n, per)
  {
    if n >= per {
      LastBefore(n - per, per);
    }
  }

  /** The volume is good and holds these directories. */
  ghost predicate Keeps(sb: Super, root: nat, s: State, dirs: map<nat, seq<Entry>>) {
    Good(sb, root, s) && RecordsFit(sb) && DirsOn(sb, s, dirs)
  }

  /** The new directory has its dot entries, and the others are as they were. */
  lemma {:induction false} DotsAreStored(sb: Super, root: nat, s: State, dirs: map<nat, seq<Entry>>,
                                         call: Namespace.Op, n: nat, now: Time, t: State)
    requires Keeps(sb, root, s, dirs) && n !in dirs && DirOn(sb, s, n, []) && t == DotsStored(sb, s, call, n, now)
    requires call.MkDir? ==> 0 < n < TWO_32 && 0 < call.dir < TWO_32
    requires call.MkDir? && call.env.empty.prepare == 0 ==> CanEnter(sb, s, n, NewEntries(n, call.dir))
    ensures Keeps(sb, root, t, dirs) && t.inodeBits == s.inodeBits && t.ptrs.Keys == s.ptrs.Keys
    ensures call.MkDir? && call.env.empty.prepare == 0 ==> Keeps(sb, root, t, dirs[n := NewEntries(n, call.dir)])
  {
    if call.MkDir? && call.env.empty.prepare == 0 {
      assert AllGood(NewEntries(n, call.dir));
      FirstEntries(sb, root, s, dirs, n, NewEntries(n, call.dir), now, t);
    }
  }

  lemma {:induction false} FirstEntries(sb: Super, root: nat, s: State, dirs: map<nat, seq<Entry>>, n: nat,
                                        es: seq<Entry>, now: Time, t: State)
    requires Keeps(sb, root, s, dirs) && n !in dirs && n in s.ptrs && DirOn(sb, s, n, []) && AllGood(es)
    requires CanEnter(sb, s, n, es)
    requires t == Entered(sb, s, n, Zeros(sb.BlockSize()), es, now)
    ensures Keeps(sb, root, t, dirs) && Keeps(sb, root, t, dirs[n := es]) && t.inodeBits == s.inodeBits
    ensures t.ptrs.Keys == s.ptrs.Keys
  {
    assert [] + es == es;
    DirsGrow(sb, root, s, n, Zeros(sb.BlockSize()), [], es, now, t, dirs);
    FewerDirs(sb, t, dirs, n, es);
  }

  /** A change that names an inode in one of these directories. */
  predicate Naming(c: Namespace.Change) {
    !c.Nothing? && !c.Unnamed?
  }

  function Linked(dirs: map<nat, seq<Entry>>, c: Namespace.Change): (r: map<nat, seq<Entry>>)
    requires Naming(c) ==> c.dir in dirs
  {
    if Naming(c) then dirs[c.dir := dirs[c.dir] + [c.entry]] else dirs
  }

  function Founded(dirs: map<nat, seq<Entry>>, n: nat, c: Namespace.Change): (r: map<nat, seq<Entry>>) {
    if c.Directory? then dirs[n := NewEntries(n, c.dir)] else dirs
  }

  lemma {:induction false} LinkIsStored(sb: Super, root: nat, s: State, dirs: map<nat, seq<Entry>>,
                                        c: Namespace.Change, now: Time, t: State)
    requires Keeps(sb, root, s, dirs) && t == LinkStored(sb, s, c, now)
    requires Naming(c) ==> c.dir in dirs && GoodEntry(c.entry) && c.dir in s.ptrs && CanEnter(sb, s, c.dir, [c.entry])
    ensures t.inodeBits == s.inodeBits && Keeps(sb, root, t, Linked(dirs, c))
  {
    if Naming(c) {
      assert DirOn(sb, s, c.dir, dirs[c.dir]);
      CurrentIsBase(sb, s, c.dir, dirs[c.dir]);
      DirsGrow(sb, root, s, c.dir, Current(sb, s, c.dir), dirs[c.dir], [c.entry], now, t, dirs);
    }
  }

  /** What is known of the number and the entry of a namespace operation. */
  lemma {:induction false} CallFacts(ns: Namespace.State, call: Namespace.Op, lo: nat, hi: nat)
    requires Namespace.Good(ns, lo, hi) && Namespace.GoodOp(ns, call) && Namespace.NewNumber(ns, call.env).Some?
    ensures var n := Namespace.NewNumber(ns, call.env).value;
            var c := Namespace.Decide(ns, call, Some(n)).0;
            && 0 < n < TWO_32 && n !in ns.dirs && Alloc(ns.bits).1 == Some(n)
            && (call.MkDir? ==> 0 < call.dir < TWO_32)
            && (Naming(c) ==> c.dir in ns.dirs && c.dir != n && GoodEntry(c.entry))
            && (c.Directory? ==> call.MkDir? && call.env.empty.prepare == 0 && c.dir == call.dir)
  {
    Namespace.StepNumber(ns, call, lo, hi);
  }

  /** The directories of the namespace after an operation that has a number. */
  lemma {:induction false} DirsAfter(ns: Namespace.State, call: Namespace.Op, lo: nat, hi: nat)
    requires Namespace.Good(ns, lo, hi) && Namespace.GoodOp(ns, call) && !Fruitless(call)
    ensures Namespace.Coherent(ns) && Namespace.Step(ns, call).0.bits == Alloc(ns.bits).0
    ensures Namespace.NewNumber(ns, call.env).None? ==> Namespace.Step(ns, call).0.dirs == ns.dirs
    ensures Namespace.NewNumber(ns, call.env).Some? ==>
              var n := Namespace.NewNumber(ns, call.env).value;
              var c := Namespace.Decide(ns, call, Some(n)).0;
              && (Naming(c) ==> c.dir in ns.dirs)
              && Namespace.Step(ns, call).0.dirs == Linked(Founded(ns.dirs, n, c), c)
  {
    if Namespace.NewNumber(ns, call.env).Some? {
      CallFacts(ns, call, lo, hi);
    }
  }

  /** The dot entries and then the entry. */
  lemma {:induction false} BothAreStored(sb: Super, root: nat, s: State, dirs: map<nat, seq<Entry>>,
                                         call: Namespace.Op, n: nat, c: Namespace.Change, now: Time, s2: State)
    requires Keeps(sb, root, s, dirs) && n !in dirs && DirOn(sb, s, n, []) && s2 == DotsStored(sb, s, call, n, now)
    requires call.MkDir? ==> 0 < n < TWO_32 && 0 < call.dir < TWO_32
    requires call.MkDir? && call.env.empty.prepare == 0 ==> CanEnter(sb, s, n, NewEntries(n, call.dir))
    requires c.Directory? ==> call.MkDir? && call.env.empty.prepare == 0 && c.dir == call.dir
    requires Naming(c) ==> c.dir in dirs && GoodEntry(c.entry) && c.dir in s2.ptrs && CanEnter(sb, s2, c.dir, [c.entry])
    ensures LinkStored(sb, s2, c, now).inodeBits == s.inodeBits
    ensures Keeps(sb, root, LinkStored(sb, s2, c, now), Linked(Founded(dirs, n, c), c))
  {
    DotsAreStored(sb, root, s, dirs, call, n, now, s2);
    LinkIsStored(sb, root, s2, Founded(dirs, n, c), c, now, LinkStored(sb, s2, c, now));
  }

  /** An operation with a number stores what the namespace says. */
  lemma {:induction false} NumberedIsStored(sb: Super, root: nat, sys: System, call: Namespace.Op, fields: Attrs,
                                            now: Time, lo: nat, hi: nat, n: nat, s: State)
    requires Shaped(sb, sys.volume) && Namespace.Good(sys.names, lo, hi) && Namespace.GoodOp(sys.names, call)
    requires !Fruitless(call) && Namespace.NewNumber(sys.names, call.env) == Some(n)
    requires Keeps(sb, root, s, sys.names.dirs) && DirOn(sb, s, n, []) && s == Step(sb, sys.volume, Create(fields)).0
    requires NameCovered(sb, sys, call, fields, now)
    ensures var t := NameStored(sb, sys, call, fields, now);
            t.inodeBits == s.inodeBits && Keeps(sb, root, t, Namespace.Step(sys.names, call).0.dirs)
  {
    CallFacts(sys.names, call, lo, hi);
    DirsAfter(sys.names, call, lo, hi);
    BothAreStored(sb, root, s, sys.names.dirs, call, n, Namespace.Decide(sys.names, call, Some(n)).0, now,
                  DotsStored(sb, s, call, n, now));
  }

  /** Every covered namespace operation leaves on the device what it leaves in the namespace. */
  lemma {:induction false} NameIsStored(sb: Super, root: nat, sys: System, call: Namespace.Op, fields: Attrs,
                                        now: Time, lo: nat, hi: nat)
    requires Joint(sb, root, sys) && Namespace.Good(sys.names, lo, hi) && Namespace.GoodOp(sys.names, call)
    requires NameCovered(sb, sys, call, fields, now)
    ensures Joint(sb, root, EventStep(sb, sys, Name(call, fields, now)))
  {
    var ns := sys.names;
    if Fruitless(call) {
      FruitlessCall(ns, call);
    } else {
      var s := Step(sb, sys.volume, Create(fields)).0;
      InodeIsMade(sb, root, sys.volume, fields, s, ns.dirs);
      DirsAfter(ns, call, lo, hi);
      if Namespace.NewNumber(ns, call.env).Some? {
        CallFacts(ns, call, lo, hi);
        NumberedIsStored(sb, root, sys, call, fields, now, lo, hi, Namespace.NewNumber(ns, call.env).value, s);
      }
    }
  }

  lemma {:induction false} FruitlessCall(ns: Namespace.State, call: Namespace.Op)
    requires Namespace.Coherent(ns) && Namespace.GoodOp(ns, call) && Fruitless(call)
    ensures Namespace.Step(ns, call).0 == ns
  {
  }

  // ---------------------------------------------------------------- runs

  lemma {:induction false} NumbersStay(sb: Super, root: nat, s: State, op: Op)
    requires Good(sb, root, s) && !op.Create?
    ensures Step(sb, s, op).0.inodeBits == s.inodeBits
  {
    if op.Remount? {
      RemountIsUnmount(sb, root, s, op.held);
    }
  }

  /** Every covered event keeps volume and namespace together. */
  lemma {:induction false} EventKeepsJoint(sb: Super, root: nat, sys: System, ev: Event, lo: nat, hi: nat)
    requires Joint(sb, root, sys) && Namespace.Good(sys.names, lo, hi) && EventCovered(sb, sys, ev)
    ensures Joint(sb, root, EventStep(sb, sys, ev))
  {
    match ev
    case Name(call, fields, now) =>
      if Namespace.GoodOp(sys.names, call) {
        NameIsStored(sb, root, sys, call, fields, now, lo, hi);
      }
    case File(op) =>
      DirsAreKept(sb, root, sys.volume, op, Step(sb, sys.volume, op).0, sys.names.dirs);
      NumbersStay(sb, root, sys.volume, op);
  }

  lemma {:induction false} EventNames(sb: Super, sys: System, ev: Event)
    requires Shaped(sb, sys.volume) && RecordsFit(sb)
    ensures EventStep(sb, sys, ev).names == if ev.Name? then Namespace.Next(sys.names, ev.call) else sys.names
  {
  }

  lemma {:induction false} NextNames(sb: Super, ss: seq<System>, events: seq<Event>, i: nat)
    requires IsSystemRun(sb, ss, events) && i < |events|
    ensures ss[i + 1].names == if events[i].Name? then Namespace.Next(ss[i].names, events[i].call) else ss[i].names
  {
    assert EventAt(sb, ss, events, i);
    EventNames(sb, ss[i], events[i]);
  }

  lemma {:induction false} NextCall(ns: Namespace.State, calls: seq<Namespace.Op>, call: Namespace.Op)
    ensures Namespace.Run(ns, calls + [call], |calls| + 1).state ==
            Namespace.Next(Namespace.Run(ns, calls, |calls|).state, call)
  {
    PrefixRuns(ns, calls, call, |calls|);
  }

  /** The namespace is what the first `n` calls lead to. */
  ghost predicate NamedBy(ss: seq<System>, events: seq<Event>, n: nat)
    requires n <= |events| < |ss|
  {
    ss[n].names == Namespace.Run(ss[0].names, Calls(events, n), |Calls(events, n)|).state
  }

  lemma {:induction false} NextNamedBy(sb: Super, ss: seq<System>, events: seq<Event>, i: nat)
    requires IsSystemRun(sb, ss, events) && i < |events| && NamedBy(ss, events, i)
    ensures NamedBy(ss, events, i + 1)
  {
    NextNames(sb, ss, events, i);
    if events[i].Name? {
      NextCall(ss[0].names, Calls(events, i), events[i].call);
    }
  }

  /** The namespace component is a run of the namespace operations alone. */
  lemma {:induction false} NamesAreRun(sb: Super, ss: seq<System>, events: seq<Event>, n: nat)
    requires IsSystemRun(sb, ss, events) && n <= |events|
    ensures NamedBy(ss, events, n)
  {
    if n > 0 {
      NamesAreRun(sb, ss, events, n - 1);
      NextNamedBy(sb, ss, events, n - 1);
    }
  }

  lemma {:induction false} PrefixRuns(ns: Namespace.State, calls: seq<Namespace.Op>, call: Namespace.Op, n: nat)
    requires n <= |calls|
    ensures Namespace.Run(ns, calls + [call], n) == Namespace.Run(ns, calls, n)
  {
    if n > 0 {
      PrefixRuns(ns, calls, call, n - 1);
    }
  }

  ghost predicate EventCoveredAt(sb: Super, ss: seq<System>, events: seq<Event>, i: nat)
    requires i < |events| < |ss|
  {
    EventCovered(sb, ss[i], events[i])
  }

  /** A run whose events are all covered. */
  ghost predicate CoveredSystemRun(sb: Super, ss: seq<System>, events: seq<Event>) {
    && IsSystemRun(sb, ss, events)
    && forall i: nat {:trigger EventCoveredAt(sb, ss, events, i)} :: i < |events| ==> EventCoveredAt(sb, ss, events, i)
  }

  /** The namespace component is good in every state of the run. */
  lemma {:induction false} NamesAreGood(sb: Super, ss: seq<System>, events: seq<Event>, n: nat, lo: nat, hi: nat)
    returns (next: nat)
    requires IsSystemRun(sb, ss, events) && n <= |events| && Namespace.Good(ss[0].names, lo, hi)
    ensures Namespace.Good(ss[n].names, next, hi)
  {
    var calls := Calls(events, n);
    NamesAreRun(sb, ss, events, n);
    Namespace.RunKeepsTree(ss[0].names, calls, |calls|, lo, hi);
    next := lo + |Namespace.Run(ss[0].names, calls, |calls|).taken|;
  }

  lemma {:induction false} NextIsJoint(sb: Super, root: nat, ss: seq<System>, events: seq<Event>, i: nat, lo: nat,
                                       hi: nat)
    requires CoveredSystemRun(sb, ss, events) && i < |events| && Joint(sb, root, ss[i])
    requires Namespace.Good(ss[i].names, lo, hi)
    ensures Joint(sb, root, ss[i + 1])
  {
    assert EventAt(sb, ss, events, i) && EventCoveredAt(sb, ss, events, i);
    EventKeepsJoint(sb, root, ss[i], events[i], lo, hi);
  }

  /**
   Over every run of namespace operations, file operations, write-backs and remounts that is never starved, the
   device holds exactly the directories of the namespace, and its inode map the numbers.
   */
  lemma {:induction false} TreeIsStored(sb: Super, root: nat, ss: seq<System>, events: seq<Event>, n: nat, lo: nat,
                                        hi: nat)
    requires CoveredSystemRun(sb, ss, events) && Joint(sb, root, ss[0]) && Namespace.Good(ss[0].names, lo, hi)
    requires n <= |events|
    ensures Joint(sb, root, ss[n])
    ensures NamedBy(ss, events, n)
  {
    NamesAreRun(sb, ss, events, n);
    if n > 0 {
      var i := n - 1;
      TreeIsStored(sb, root, ss, events, i, lo, hi);
      var next := NamesAreGood(sb, ss, events, i, lo, hi);
      NextIsJoint(sb, root, ss, events, i, next, hi);
    }
  }

  /** The volume is up and the directories with these numbers that it holds are these and no others. */
  ghost predicate HoldsExactly(sb: Super, t: State, dirs: map<nat, seq<Entry>>)
    requires sb.Valid() && RecordsFit(sb) && NinePointers(t.ptrs)
  {
    && t.status.Up? && DirsOn(sb, t, dirs)
    && forall d: nat, es: seq<Entry> {:trigger DirOn(sb, t, d, es)} ::
         d in dirs && DirOn(sb, t, d, es) ==> es == dirs[d]
  }

  /**
   The tree survives: a further remount finds on the device the directories of the namespace, and what it
   finds determines them; and they form a tree.
   */
  lemma {:induction false} TreeSurvivesRemount(sb: Super, root: nat, ss: seq<System>, events: seq<Event>, lo: nat,
                                               hi: nat, held: bool)
    requires CoveredSystemRun(sb, ss, events) && Joint(sb, root, ss[0]) && Namespace.Good(ss[0].names, lo, hi)
    ensures var calls := Calls(events, |events|);
            var dirs := Namespace.Run(ss[0].names, calls, |calls|).state.dirs;
            && Shaped(sb, ss[|events|].volume)
            && HoldsExactly(sb, Remounted(sb, ss[|events|].volume, held), dirs) && Namespace.IsTree(dirs)
  {
    var calls := Calls(events, |events|);
    TreeIsStored(sb, root, ss, events, |events|, lo, hi);
    Namespace.NamespaceIsATree(ss[0].names, calls, |calls|, lo, hi);
    RemountFindsDirs(sb, root, ss[|events|].volume, held, ss[|events|].names.dirs);
  }

  lemma {:induction false} RemountFindsDirs(sb: Super, root: nat, s: State, held: bool, dirs: map<nat, seq<Entry>>)
    requires Keeps(sb, root, s, dirs)
    ensures HoldsExactly(sb, Remounted(sb, s, held), dirs)
  {
    var t := Remounted(sb, s, held);
    DirsAreKept(sb, root, s, Remount(held), t, dirs);
    forall d: nat, es: seq<Entry> | d in dirs && DirOn(sb, t, d, es)
      ensures es == dirs[d]
    {
      assert DirOn(sb, t, d, dirs[d]);
      DirIsDetermined(sb, t, d, es, dirs[d]);
    }
  }

  // ---------------------------------------------------------------- from the formatter on

  /** A formatted device, mounted, with the namespace of its root directory. */
  function FormattedSystem(c: Config, disk: Disk): (r: System)
    requires c.Accepted()
  {
    var s := WholeSystem.MountedVolume(c, disk);
    System(s,
           Namespace.State(s.inodeBits, map[1 := NewEntries(RootDirectory.DOT_NUMBER, RootDirectory.DOT_NUMBER)],
                           map[1 := 1]))
  }

  lemma {:induction false} FormattedRecordsFit(c: Config)
    requires c.Accepted()
    ensures RecordsFit(Mounted(c, 1)) && Mounted(c, 1).BlockSize() == c.BlockSize()
  {
    AcceptedSizes(c);
    WholeSystem.FormattedGeometry(c);
  }

  /** The root's block holds the root directory. */
  lemma {:induction false} RootIsOn(sb: Super, s: State, block: nat, es: seq<Entry>)
    requires sb.Valid() && RecordsFit(sb) && NinePointers(s.ptrs) && 1 in s.ptrs && 1 in s.attrs
    requires Loc(sb, s, 1, 0) == Some(block) && s.attrs[1].size == 128
    requires var b := BlockOf(s.disk, sb.BlockSize(), block);
             Represents([RootDirectory.SlotIn(b, 0), RootDirectory.SlotIn(b, 1)], es)
    ensures DirOn(sb, s, 1, es)
  {
    var b := BlockOf(s.disk, sb.BlockSize(), block);
    var slots := [RootDirectory.SlotIn(b, 0), RootDirectory.SlotIn(b, 1)];
    forall i: nat | i < |es|
      ensures EntryOn(sb, s, 1, i, es[i])
    {
      assert BlockNo(i, PerBlock(sb)) == 0 && RecordNo(i, PerBlock(sb)) == i;
      assert DecodeEntry(slots[i]) == es[i];
    }
  }

  lemma {:induction false} FormattedRoot(c: Config, disk: Disk, u: WholeSystem.Owner)
    requires c.Accepted() && WholeSystem.Formatted(c, disk, u)
    ensures Mounted(c, 1).Valid() && RecordsFit(Mounted(c, 1))
    ensures DirsOn(Mounted(c, 1), WholeSystem.MountedVolume(c, disk), FormattedSystem(c, disk).names.dirs)
  {
    var sb, s := Mounted(c, 1), WholeSystem.MountedVolume(c, disk);
    WholeSystem.FormattedGeometry(c);
    FormattedRecordsFit(c);
    WholeSystem.MountedRoot(c, disk, u);
    WholeSystem.RootBlockFits(c);
    WholeSystem.RootStaysPut(c, s, s);
    RootDirectory.RootShowsDots(BlockOf(disk, c.BlockSize(), c.RootBlock()));
    RootIsOn(sb, s, c.RootBlock(), NewEntries(RootDirectory.DOT_NUMBER, RootDirectory.DOT_NUMBER));
  }

  /** The first mount of a formatted device. */
  lemma {:induction false} FormattedIsJoint(c: Config, disk: Disk, u: WholeSystem.Owner)
    requires c.Accepted() && WholeSystem.BlockNumbersFit(c) && WholeSystem.Formatted(c, disk, u)
    requires u.uid < 0x1_0000 && u.gid < 0x1_0000
    ensures Joint(Mounted(c, 1), c.RootBlock(), FormattedSystem(c, disk))
    ensures Namespace.Good(FormattedSystem(c, disk).names, 2, c.NumInodes())
  {
    WholeSystem.FormattedVolumeIsGood(c, disk, u);
    FormattedRoot(c, disk, u);
    WholeSystem.MountedRoot(c, disk, u);
    Formatter.MapSizes(c);
    Namespace.FormattedIsGood(WholeSystem.MountedVolume(c, disk).inodeBits, c.NumInodes(), RootDirectory.DOT_NUMBER);
  }

  /**
   End to end, for names on the device: from the formatter on, over every run of namespace and file operations,
   write-backs and remounts that is never starved, a further remount finds on the device the
   directories of the namespace and no others, and they form a tree rooted at inode 1.
   */
  lemma {:induction false} FormattedTreeSurvives(c: Config, disk: Disk, u: WholeSystem.Owner, ss: seq<System>,
                                                 events: seq<Event>, held: bool)
    requires c.Accepted() && WholeSystem.BlockNumbersFit(c) && WholeSystem.Formatted(c, disk, u)
    requires u.uid < 0x1_0000 && u.gid < 0x1_0000
    requires CoveredSystemRun(Mounted(c, 1), ss, events) && ss[0] == FormattedSystem(c, disk)
    ensures var sb, calls := Mounted(c, 1), Calls(events, |events|);
            var dirs := Namespace.Run(ss[0].names, calls, |calls|).state.dirs;
            && sb.Valid() && RecordsFit(sb) && Shaped(sb, ss[|events|].volume)
            && HoldsExactly(sb, Remounted(sb, ss[|events|].volume, held), dirs) && Namespace.IsTree(dirs)
  {
    FormattedIsJoint(c, disk, u);
    TreeSurvivesRemount(Mounted(c, 1), c.RootBlock(), ss, events, 2, c.NumInodes(), held);
  }

  // ---------------------------------------------------------------- an instance

  /** The root directory has room in its first block. */
  lemma {:induction false} RoomInFirstBlock(sb: Super, root: nat, s: State, d: nat, es: seq<Entry>, e: Entry)
    requires Good(sb, root, s) && RecordsFit(sb) && d in s.ptrs && DirOn(sb, s, d, es) && 0 < |es| < PerBlock(sb)
    requires |es| < 0x100_0000
    ensures CanEnter(sb, s, d, [e])
  {
    assert Count(s, d) == |es| && BlockNo(|es|, PerBlock(sb)) == 0 && RecordNo(|es|, PerBlock(sb)) == |es|;
    assert EntryOn(sb, s, d, 0, es[0]);
    DivModUnique(0, sb.blocksPerZone, 0, 0);
  }

  lemma {:induction false} RoomInNewZone(sb: Super, root: nat, s: State, d: nat, es: seq<Entry>)
    requires Good(sb, root, s) && RecordsFit(sb) && d in s.ptrs && DirOn(sb, s, d, []) && !Full(s.bits) && |es| <= 2
    ensures CanEnter(sb, s, d, es)
  {
    assert Count(s, d) == 0;
    DivModUnique(0, sb.blocksPerZone, 0, 0);
  }

  /** Room for the dot entries, and then for the entry. */
  lemma {:induction false} MkdirRoom(sb: Super, root: nat, s: State, dirs: map<nat, seq<Entry>>, call: Namespace.Op,
                                     n: nat, c: Namespace.Change, now: Time, t: State)
    requires Keeps(sb, root, s, dirs) && n !in dirs && DirOn(sb, s, n, []) && !Full(s.bits)
    requires t == DotsStored(sb, s, call, n, now)
    requires call.MkDir? && 0 < n < TWO_32 && 0 < call.dir < TWO_32
    requires Naming(c) ==> c.dir in dirs && 0 < |dirs[c.dir]| < PerBlock(sb) && |dirs[c.dir]| < 0x100_0000
    ensures n in s.ptrs && CanEnter(sb, s, n, NewEntries(n, call.dir))
    ensures Naming(c) ==> c.dir in t.ptrs && CanEnter(sb, t, c.dir, [c.entry])
  {
    RoomInNewZone(sb, root, s, n, NewEntries(n, call.dir));
    DotsAreStored(sb, root, s, dirs, call, n, now, t);
    if Naming(c) {
      assert DirOn(sb, t, c.dir, dirs[c.dir]);
      RoomInFirstBlock(sb, root, t, c.dir, dirs[c.dir], c.entry);
    }
  }

  /**
   A mkdir on a volume with a free zone and a usable number, in a directory of one block that is not full, is
   covered.
   */
  lemma {:induction false} MkdirIsCovered(sb: Super, root: nat, sys: System, call: Namespace.Op, fields: Attrs,
                                          now: Time, lo: nat, hi: nat)
    requires fields.Fit() && fields.size == 0 && Joint(sb, root, sys) && Namespace.Good(sys.names, lo, hi)
    requires Namespace.GoodOp(sys.names, call)
    requires call.MkDir? && !call.env.noMemory && lo < hi && Usable(sb, lo) && !Full(sys.volume.bits)
    requires |sys.names.dirs[call.dir]| < PerBlock(sb) && |sys.names.dirs[call.dir]| < 0x100_0000
    ensures EventCovered(sb, sys, Name(call, fields, now))
  {
    var s := Step(sb, sys.volume, Create(fields)).0;
    NumberIs(sys.names, call, lo, hi);
    InodeIsMade(sb, root, sys.volume, fields, s, sys.names.dirs);
    CreateLeavesZones(sb, sys.volume, fields);
    MkdirRoom(sb, root, s, sys.names.dirs, call, lo, Namespace.Decide(sys.names, call, Some(lo)).0, now,
              DotsStored(sb, s, call, lo, now));
    MkdirCovered(sb, sys, call, fields, now, lo, s);
  }

  lemma {:induction false} MkdirCovered(sb: Super, sys: System, call: Namespace.Op, fields: Attrs, now: Time, n: nat,
                                        s: State)
    requires fields.Fit() && fields.size == 0 && Geometry(sb) && Shaped(sb, sys.volume) && RecordsFit(sb)
    requires Namespace.GoodOp(sys.names, call)
    requires call.MkDir? && !call.env.noMemory && Namespace.NewNumber(sys.names, call.env) == Some(n) && Usable(sb, n)
    requires s == Step(sb, sys.volume, Create(fields)).0 && n in s.ptrs && CanEnter(sb, s, n, NewEntries(n, call.dir))
    requires var t, c := DotsStored(sb, s, call, n, now), Namespace.Decide(sys.names, call, Some(n)).0;
             Naming(c) ==> c.dir in t.ptrs && CanEnter(sb, t, c.dir, [c.entry])
    ensures EventCovered(sb, sys, Name(call, fields, now))
  {
  }

  lemma {:induction false} NumberIs(ns: Namespace.State, call: Namespace.Op, lo: nat, hi: nat)
    requires Namespace.Good(ns, lo, hi) && Namespace.GoodOp(ns, call) && call.MkDir? && !call.env.noMemory && lo < hi
    ensures Namespace.NewNumber(ns, call.env) == Alloc(ns.bits).1 == Some(lo) && 0 < lo < TWO_32 && lo !in ns.dirs
    ensures 0 < call.dir < TWO_32
    ensures var c := Namespace.Decide(ns, call, Some(lo)).0;
            Naming(c) ==> c.dir == call.dir && |ns.dirs[c.dir]| >= 2
  {
    Namespace.StepNumber(ns, call, lo, hi);
    CallFacts(ns, call, lo, hi);
  }

  lemma {:induction false} CreateLeavesZones(sb: Super, s: State, fields: Attrs)
    requires Shaped(sb, s)
    ensures Step(sb, s, Create(fields)).0.bits == s.bits
  {
  }

  /** So is the first mkdir on every formatted device: the runs of the theorem exist. */
  lemma {:induction false} FirstMkdirIsCovered(c: Config, disk: Disk, u: WholeSystem.Owner, name: seq<Byte>,
                                               env: Namespace.Env, fields: Attrs, now: Time)
    requires fields.Fit() && fields.size == 0 && c.Accepted() && WholeSystem.BlockNumbersFit(c)
    requires WholeSystem.Formatted(c, disk, u)
    requires u.uid < 0x1_0000 && u.gid < 0x1_0000 && GoodName(name) && !env.noMemory
    ensures EventCovered(Mounted(c, 1), FormattedSystem(c, disk), Name(Namespace.MkDir(1, name, env), fields, now))
  {
    FormattedIsJoint(c, disk, u);
    FormattedRoomFor(c, disk, u);
    MkdirIsCovered(Mounted(c, 1), c.RootBlock(), FormattedSystem(c, disk), Namespace.MkDir(1, name, env), fields, now,
                   2, c.NumInodes());
  }

  lemma {:induction false} FormattedRoomFor(c: Config, disk: Disk, u: WholeSystem.Owner)
    requires c.Accepted() && WholeSystem.Formatted(c, disk, u)
    ensures RecordsFit(Mounted(c, 1)) && PerBlock(Mounted(c, 1)) > 2
    ensures Usable(Mounted(c, 1), 2) && 2 < c.NumInodes() && !Full(WholeSystem.MountedVolume(c, disk).bits)
  {
    FormattedRecordsFit(c);
    WholeSystem.RootPlace(c);
    WholeSystem.MountedRoot(c, disk, u);
    Formatter.MapSizes(c);
    assert !WholeSystem.MountedVolume(c, disk).bits[2];
  }
}
