/**
 Directory slots as values: the 64-byte record, the kernel's name comparison, and what the lookup,
 append and listing loops compute over the slots of a directory, empty slots included.
 */
module DirectoryEntries {
  import opened Numbers
  import opened Options
  import opened Endian

  const NAME_LEN: nat := 60
  const EEXIST: int := -17

  datatype Entry = Entry(name: seq<Byte>, ino: nat)

  /** Names the caller may pass: 1 to 60 bytes, none of them NUL. */
  predicate GoodName(name: seq<Byte>) {
    1 <= |name| <= NAME_LEN && forall i: nat :: i < |name| ==> name[i] != 0
  }

  predicate GoodEntry(e: Entry) {
    GoodName(e.name) && 0 < e.ino < TWO_32
  }

  /** The on-device record: a 32-bit inode number in native order and a 60-byte name field. */
  datatype Record = Record(ino: nat, name: seq<Byte>)

  type Slot = s: Record | |s.name| == 60 witness Record(0, seq(60, (_: nat) => 0))

  /** The record that the append writes: the low 32 bits of the number, the name, and zero padding. */
  function EncodeEntry(name: seq<Byte>, ino: int): (r: Slot)
    requires |name| <= NAME_LEN
  {
    Record(U32(ino), name + Zeros(NAME_LEN - |name|))
  }

  /** `memcmp` of a name with the start of the name field, from byte `i` on. */
  predicate SameFrom(name: seq<Byte>, s: Slot, i: nat)
    requires i <= |name| <= NAME_LEN
    decreases |name| - i
  {
    i == |name| || (name[i] == s.name[i] && SameFrom(name, s, i + 1))
  }

  lemma {:induction false} SameFromIsEqual(name: seq<Byte>, s: Slot, i: nat)
    requires i <= |name| <= NAME_LEN
    ensures SameFrom(name, s, i) <==> s.name[i..|name|] == name[i..]
    decreases |name| - i
  {
    var f := s.name;
    if i == |name| {
      assert f[i..|name|] == [] == name[i..];
    } else {
      SameFromIsEqual(name, s, i + 1);
      assert f[i..|name|] == [f[i]] + f[i + 1..|name|] && name[i..] == [name[i]] + name[i + 1..];
    }
  }

  /** The kernel's comparison of a wanted name with the 60-byte name field. */
  predicate NameCompare(name: seq<Byte>, s: Slot)
    requires |name| <= NAME_LEN
  {
    (|name| < NAME_LEN ==> s.name[|name|] == 0) && SameFrom(name, s, 0)
  }

  /** `strnlen` of the name field. */
  function NameLen(s: Slot, k: nat): (r: nat)
    requires k <= NAME_LEN
    ensures k <= r <= NAME_LEN
    ensures forall i: nat :: k <= i < r ==> s.name[i] != 0
    ensures r < NAME_LEN ==> s.name[r] == 0
    decreases NAME_LEN - k
  {
    if k == NAME_LEN || s.name[k] == 0 then k else NameLen(s, k + 1)
  }

  /** What the listing emits for a slot. */
  function DecodeEntry(s: Slot): (r: Entry) {
    Entry(s.name[..NameLen(s, 0)], s.ino)
  }

  lemma {:induction false} NameLenIs(s: Slot, n: nat)
    requires n <= NAME_LEN && (n < NAME_LEN ==> s.name[n] == 0)
    requires forall i: nat :: i < n ==> s.name[i] != 0
    ensures NameLen(s, 0) == n
  {
  }

  /** An entry written by the kernel is listed under the name and number that it was written with. */
  lemma {:induction false} DecodeEncode(e: Entry)
    requires GoodEntry(e)
    ensures DecodeEntry(EncodeEntry(e.name, e.ino)) == e
  {
    var s := EncodeEntry(e.name, e.ino);
    NameLenIs(s, |e.name|);
  }

  /** On any slot, whatever follows the NUL, the comparison is equality with the name that the slot shows. */
  lemma {:induction false} NameCompareIsEquality(name: seq<Byte>, s: Slot)
    requires GoodName(name)
    ensures NameCompare(name, s) <==> name == DecodeEntry(s).name
  {
    var f, n := s.name, |name|;
    SameFromIsEqual(name, s, 0);
    assert f[0..n] == f[..n] && name[0..] == name;
    if NameCompare(name, s) {
      assert forall i: nat :: i < n ==> f[i] == f[..n][i] == name[i];
      NameLenIs(s, n);
    }
  }

  // ---------------------------------------------------------------- the three loops

  /** Lookup from slot `k`: the first slot in use whose name matches. */
  function FindFrom(slots: seq<Slot>, name: seq<Byte>, k: nat): (r: Option<nat>)
    requires k <= |slots| && |name| <= NAME_LEN
    ensures r.Some? ==> k <= r.value < |slots|
    decreases |slots| - k
  {
    if k == |slots| then None
    else if slots[k].ino != 0 && NameCompare(name, slots[k]) then Some(k)
    else FindFrom(slots, name, k + 1)
  }

  datatype Place = Free(slot: nat) | Exists

  /** The append's search from slot `k`: it stops at the first empty slot, so later duplicates go unseen. */
  function SearchFrom(slots: seq<Slot>, name: seq<Byte>, k: nat): (r: Place)
    requires k <= |slots| && |name| <= NAME_LEN
    ensures r.Free? ==> k <= r.slot <= |slots|
    decreases |slots| - k
  {
    if k == |slots| || slots[k].ino == 0 then Free(k)
    else if NameCompare(name, slots[k]) then Exists
    else SearchFrom(slots, name, k + 1)
  }

  /** Slot `m` is in use and matches, and so are all slots from `k` up to it. */
  predicate SeenAt(slots: seq<Slot>, name: seq<Byte>, k: nat, m: nat)
    requires |name| <= NAME_LEN
  {
    k <= m < |slots| && NameCompare(name, slots[m]) && forall i: nat :: k <= i <= m ==> slots[i].ino != 0
  }

  /**
   For any directory, holes included: a duplicate is reported exactly when a matching slot comes
   before the first empty one. The check is complete only while there are no holes.
   */
  lemma {:induction false} DuplicateIsSeenWhen(slots: seq<Slot>, name: seq<Byte>, k: nat)
    requires k <= |slots| && |name| <= NAME_LEN
    ensures SearchFrom(slots, name, k).Exists? <==> exists m: nat :: SeenAt(slots, name, k, m)
    decreases |slots| - k
  {
    if k < |slots| && slots[k].ino != 0 {
      if NameCompare(name, slots[k]) {
        assert SeenAt(slots, name, k, k);
      } else {
        var next := k + 1;
        DuplicateIsSeenWhen(slots, name, next);
        if m: nat :| SeenAt(slots, name, next, m) {
          assert SeenAt(slots, name, k, m);
        }
        if m: nat :| SeenAt(slots, name, k, m) {
          assert SeenAt(slots, name, next, m);
        }
      }
    } else {
      forall m: nat
        ensures !SeenAt(slots, name, k, m)
      {
      }
    }
  }

  /**
   What the block layer reports for one directory write: the result of getting the block before the
   bytes are stored, and the result of committing the chunk after they are (on a directory that is
   written synchronously).
   */
  datatype Io = Io(prepare: int, commit: int) {
    function Err(): (r: int) {
      if prepare != 0 then prepare else commit
    }
  }

  /** Appending a link. A failing commit comes too late: the entry is stored and the error returned. */
  function AddLink(slots: seq<Slot>, name: seq<Byte>, ino: int, io: Io): (r: (seq<Slot>, int))
    requires |name| <= NAME_LEN
  {
    match SearchFrom(slots, name, 0)
    case Exists => (slots, EEXIST)
    case Free(k) =>
      if io.prepare != 0 then (slots, io.prepare)
      else (PutSlot(slots, k, EncodeEntry(name, ino)), io.commit)
  }

  /** Storing a record at slot `k`, which may be the slot just after the last one. */
  function PutSlot(slots: seq<Slot>, k: nat, s: Slot): (r: seq<Slot>)
    requires k <= |slots|
    ensures |r| == if k == |slots| then k + 1 else |slots|
    ensures forall i: nat :: i < |r| ==> r[i] == if i == k then s else slots[i]
  {
    slots[..k] + [s] + (if k < |slots| then slots[k + 1..] else [])
  }

  /** What a listing sees of a slot: nothing when it is empty. */
  function Visible(s: Slot): (r: Option<Entry>) {
    if s.ino == 0 then None else Some(DecodeEntry(s))
  }

  function View(slots: seq<Slot>): (r: seq<Option<Entry>>)
    ensures |r| == |slots|
    ensures forall i: nat :: i < |slots| ==> r[i] == Visible(slots[i])
  {
    seq(|slots|, (i: nat) requires i < |slots| => Visible(slots[i]))
  }

  /** Where a listing from slot `k` stops when its emitter takes `budget` entries. */
  function StopAt(view: seq<Option<Entry>>, k: nat, budget: nat): (r: nat)
    requires k <= |view|
    ensures k <= r <= |view|
    decreases |view| - k
  {
    if k == |view| then k
    else if view[k].None? then StopAt(view, k + 1, budget)
    else if budget == 0 then k
    else StopAt(view, k + 1, budget - 1)
  }

  /** What is emitted for the slots from `a` up to `b`: one entry per slot in use. */
  function Emitted(view: seq<Option<Entry>>, a: nat, b: nat): (r: seq<Entry>)
    requires a <= b <= |view|
    decreases b
  {
    if a == b then []
    else Emitted(view, a, b - 1) + (if view[b - 1].None? then [] else [view[b - 1].value])
  }

  /** One listing call from a byte position: output and new position. */
  function Readdir(slots: seq<Slot>, pos: nat, budget: nat): (r: (seq<Entry>, nat)) {
    var a := RoundUp(pos, 64);
    if a >= 64 * |slots| then ([], a)
    else
      var stop := StopAt(View(slots), a / 64, budget);
      (Emitted(View(slots), a / 64, stop), 64 * stop)
  }

  // ---------------------------------------------------------------- directories without holes

  predicate DistinctNames(es: seq<Entry>) {
    forall i: nat, j: nat :: i < j < |es| ==> es[i].name != es[j].name
  }

  /** The slots show exactly these entries: no empty slot, and no name twice. */
  predicate Represents(slots: seq<Slot>, es: seq<Entry>) {
    && |slots| == |es|
    && (forall i: nat :: i < |es| ==> GoodEntry(es[i]) && DecodeEntry(slots[i]) == es[i])
    && DistinctNames(es)
  }

  predicate HasName(es: seq<Entry>, name: seq<Byte>) {
    exists i: nat :: i < |es| && es[i].name == name
  }

  lemma {:induction false} RepresentedSlot(slots: seq<Slot>, es: seq<Entry>, i: nat, name: seq<Byte>)
    requires Represents(slots, es) && i < |es| && GoodName(name)
    ensures slots[i].ino == es[i].ino != 0
    ensures DecodeEntry(slots[i]) == es[i]
    ensures NameCompare(name, slots[i]) <==> name == es[i].name
  {
    NameCompareIsEquality(name, slots[i]);
  }

  /** Without holes the search reports a duplicate exactly when the name is present, and otherwise the end. */
  lemma {:induction false} SearchDecides(slots: seq<Slot>, es: seq<Entry>, name: seq<Byte>, k: nat)
    requires Represents(slots, es) && GoodName(name) && k <= |es|
    requires forall i: nat :: i < k ==> es[i].name != name
    ensures SearchFrom(slots, name, k) == if HasName(es, name) then Exists else Free(|es|)
    decreases |es| - k
  {
    if k < |es| {
      RepresentedSlot(slots, es, k, name);
      if es[k].name != name {
        SearchDecides(slots, es, name, k + 1);
      }
    }
  }

  /** The name-to-number map that a directory stands for. */
  function Lookup(es: seq<Entry>, name: seq<Byte>): (r: nat)
    ensures r != 0 ==> HasName(es, name)
  {
    if es == [] then 0
    else if es[|es| - 1].name == name then es[|es| - 1].ino
    else
      assert HasName(es[..|es| - 1], name) ==> HasName(es, name);
      Lookup(es[..|es| - 1], name)
  }

  lemma {:induction false} LookupAt(es: seq<Entry>, i: nat)
    requires i < |es| && DistinctNames(es)
    ensures Lookup(es, es[i].name) == es[i].ino
  {
    if i < |es| - 1 {
      LookupAt(es[..|es| - 1], i);
    }
  }

  lemma {:induction false} LookupAbsent(es: seq<Entry>, name: seq<Byte>)
    requires !HasName(es, name)
    ensures Lookup(es, name) == 0
  {
    if es != [] {
      var init := es[..|es| - 1];
      assert forall i: nat :: i < |init| ==> init[i] == es[i];
      LookupAbsent(init, name);
    }
  }

  /** The number found by the lookup loop; 0 when there is none. */
  function FoundIno(slots: seq<Slot>, name: seq<Byte>): (r: nat)
    requires |name| <= NAME_LEN
  {
    match FindFrom(slots, name, 0) case None => 0 case Some(k) => slots[k].ino
  }

  lemma {:induction false} FindScans(slots: seq<Slot>, es: seq<Entry>, name: seq<Byte>, k: nat)
    requires Represents(slots, es) && GoodName(name) && k <= |es|
    requires forall i: nat :: i < k ==> es[i].name != name
    ensures match FindFrom(slots, name, k)
            case None => !HasName(es, name)
            case Some(m) => es[m].name == name && slots[m].ino == es[m].ino
    decreases |es| - k
  {
    if k < |es| {
      RepresentedSlot(slots, es, k, name);
      if es[k].name != name {
        FindScans(slots, es, name, k + 1);
      }
    }
  }

  /** The lookup returns the number stored under exactly this name, and 0 for a name that is absent. */
  lemma {:induction false} FindIsLookup(slots: seq<Slot>, es: seq<Entry>, name: seq<Byte>)
    requires Represents(slots, es) && GoodName(name)
    ensures FoundIno(slots, name) == Lookup(es, name)
    ensures FoundIno(slots, name) != 0 <==> HasName(es, name)
  {
    FindScans(slots, es, name, 0);
    match FindFrom(slots, name, 0)
    case None => LookupAbsent(es, name);
    case Some(m) => LookupAt(es, m); assert GoodEntry(es[m]);
  }

  /** Append on the abstract list. */
  function Append(es: seq<Entry>, e: Entry, io: Io): (r: (seq<Entry>, int)) {
    if HasName(es, e.name) then (es, EEXIST)
    else if io.prepare != 0 then (es, io.prepare)
    else (es + [e], io.commit)
  }

  /**
   Appending to a directory without holes refines appending to a list with unique names, and
   leaves it without holes, whatever the block layer reports.
   */
  lemma {:induction false} AddLinkRefines(slots: seq<Slot>, es: seq<Entry>, e: Entry, io: Io)
    requires Represents(slots, es) && GoodEntry(e)
    ensures Represents(AddLink(slots, e.name, e.ino, io).0, Append(es, e, io).0)
    ensures AddLink(slots, e.name, e.ino, io).1 == Append(es, e, io).1
  {
    SearchDecides(slots, es, e.name, 0);
    DecodeEncode(e);
    if !HasName(es, e.name) {
      forall i: nat | i < |es|
        ensures es[i].name != e.name
      {
      }
    }
  }

  /**
   The append as an update of the name-to-number map. A present name is refused and nothing changes;
   an absent one is entered exactly when its block could be had, and then a commit error is
   returned although the name is there.
   */
  lemma {:induction false} AppendIsMapUpdate(es: seq<Entry>, e: Entry, io: Io, name: seq<Byte>)
    requires DistinctNames(es) && GoodEntry(e)
    requires forall i: nat :: i < |es| ==> GoodEntry(es[i])
    ensures Lookup(es, e.name) != 0 ==> Append(es, e, io) == (es, EEXIST)
    ensures Lookup(es, e.name) == 0 ==> Append(es, e, io).1 == io.Err()
    ensures Lookup(Append(es, e, io).0, name) ==
            if name == e.name && Lookup(es, e.name) == 0 && io.prepare == 0 then e.ino else Lookup(es, name)
  {
    if HasName(es, e.name) {
      var i: nat :| i < |es| && es[i].name == e.name;
      LookupAt(es, i);
      assert GoodEntry(es[i]);
    } else {
      LookupAbsent(es, e.name);
      assert (es + [e])[..|es|] == es;
    }
  }

  // ---------------------------------------------------------------- whole runs

  /** The two entries of a new directory. */
  function NewEntries(self: nat, parent: nat): (r: seq<Entry>) {
    [Entry([46], self), Entry([46, 46], parent)]
  }

  function NewSlots(self: nat, parent: nat): (r: seq<Slot>) {
    [EncodeEntry([46], self), EncodeEntry([46, 46], parent)]
  }

  datatype AddOp = AddOp(entry: Entry, io: Io)

  function AddRun(slots: seq<Slot>, ops: seq<AddOp>): (r: seq<Slot>)
    requires forall i: nat :: i < |ops| ==> GoodEntry(ops[i].entry)
  {
    if ops == [] then slots
    else
      var op := ops[|ops| - 1];
      assert GoodEntry(op.entry);
      AddLink(AddRun(slots, ops[..|ops| - 1]), op.entry.name, op.entry.ino, op.io).0
  }

  function AppendRun(es: seq<Entry>, ops: seq<AddOp>): (r: seq<Entry>) {
    if ops == [] then es else Append(AppendRun(es, ops[..|ops| - 1]), ops[|ops| - 1].entry, ops[|ops| - 1].io).0
  }

  /**
   Every directory reachable from a new one by appends, with any prepare and commit errors, has no
   empty slot and no name twice, and holds the entries of the abstract list.
   */
  lemma {:induction false} ReachableHasNoHoles(self: nat, parent: nat, ops: seq<AddOp>)
    requires 0 < self < TWO_32 && 0 < parent < TWO_32
    requires forall i: nat :: i < |ops| ==> GoodEntry(ops[i].entry)
    ensures Represents(AddRun(NewSlots(self, parent), ops), AppendRun(NewEntries(self, parent), ops))
  {
    if ops == [] {
      DecodeEncode(Entry([46], self));
      DecodeEncode(Entry([46, 46], parent));
    } else {
      var before, op := ops[..|ops| - 1], ops[|ops| - 1];
      ReachableHasNoHoles(self, parent, before);
      AddLinkRefines(AddRun(NewSlots(self, parent), before), AppendRun(NewEntries(self, parent), before), op.entry,
                     op.io);
    }
  }

  /** Every slot shows its entry. */
  predicate AllVisible(view: seq<Option<Entry>>, es: seq<Entry>) {
    |view| == |es| && forall i: nat :: i < |es| ==> view[i] == Some(es[i])
  }

  lemma {:induction false} RepresentedIsVisible(slots: seq<Slot>, es: seq<Entry>)
    requires Represents(slots, es)
    ensures AllVisible(View(slots), es)
  {
    forall i: nat | i < |es|
      ensures View(slots)[i] == Some(es[i])
    {
      RepresentedSlot(slots, es, i, es[i].name);
    }
  }

  /** In a directory without holes a listing stops after `budget` slots, or at the end ... */
  lemma {:induction false} StopsAfterBudget(view: seq<Option<Entry>>, es: seq<Entry>, k: nat, budget: nat)
    requires AllVisible(view, es) && k <= |es|
    ensures StopAt(view, k, budget) == if k + budget <= |es| then k + budget else |es|
    decreases |es| - k
  {
    if k < |es| && budget > 0 {
      StopsAfterBudget(view, es, k + 1, budget - 1);
    }
  }

  /** ... and emits the entries of the slots that it passes. */
  lemma {:induction false} EmitsEntries(view: seq<Option<Entry>>, es: seq<Entry>, a: nat, b: nat)
    requires AllVisible(view, es) && a <= b <= |es|
    ensures Emitted(view, a, b) == es[a..b]
    decreases b
  {
    if a < b {
      EmitsEntries(view, es, a, b - 1);
      assert es[a..b] == es[a..b - 1] + [es[b - 1]];
    }
  }

  /** A listing call from a slot boundary emits the next `budget` entries and moves by as many. */
  lemma {:induction false} ReaddirEmits(slots: seq<Slot>, es: seq<Entry>, k: nat, budget: nat)
    requires Represents(slots, es) && k <= |es|
    ensures var m := if k + budget <= |es| then k + budget else |es|;
            Readdir(slots, 64 * k, budget) == (es[k..m], 64 * m)
  {
    AlignedStays(k);
    var m := if k + budget <= |es| then k + budget else |es|;
    RepresentedIsVisible(slots, es);
    StopsAfterBudget(View(slots), es, k, budget);
    EmitsEntries(View(slots), es, k, m);
    assert k == |es| ==> es[k..m] == [];
  }

  lemma AlignedStays(k: nat)
    ensures RoundUp(64 * k, 64) == 64 * k && 64 * k / 64 == k
  {
  }

  datatype Event = Add(entry: Entry, io: Io) | List(budget: nat)

  /** A directory, an open listing position, and everything that the listing has emitted. */
  datatype Listing = Listing(slots: seq<Slot>, pos: nat, out: seq<Entry>)

  function ListStep(l: Listing, e: Event): (r: Listing)
    requires e.Add? ==> GoodEntry(e.entry)
  {
    match e
    case Add(entry, io) => l.(slots := AddLink(l.slots, entry.name, entry.ino, io).0)
    case List(budget) =>
      var (out, pos) := Readdir(l.slots, l.pos, budget);
      l.(pos := pos, out := l.out + out)
  }

  predicate GoodEvents(es: seq<Event>) {
    forall i: nat :: i < |es| && es[i].Add? ==> GoodEntry(es[i].entry)
  }

  function ListRun(l: Listing, es: seq<Event>): (r: Listing)
    requires GoodEvents(es)
  {
    if es == [] then l else ListStep(ListRun(l, es[..|es| - 1]), es[|es| - 1])
  }

  /** The entries after the appends of a run. */
  function EntriesAfter(start: seq<Entry>, es: seq<Event>): (r: seq<Entry>) {
    if es == [] then start
    else
      var m := EntriesAfter(start, es[..|es| - 1]);
      match es[|es| - 1]
      case Add(entry, io) => Append(m, entry, io).0
      case List(_) => m
  }

  /** The output so far is a prefix of the live entries, and the position is where that prefix ends. */
  predicate Tracks(l: Listing, live: seq<Entry>) {
    Represents(l.slots, live) && l.pos == 64 * |l.out| && l.out <= live
  }

  lemma {:induction false} AddTracks(l: Listing, live: seq<Entry>, e: Entry, io: Io)
    requires Tracks(l, live) && GoodEntry(e)
    ensures Tracks(ListStep(l, Add(e, io)), Append(live, e, io).0)
  {
    AddLinkRefines(l.slots, live, e, io);
  }

  lemma {:induction false} ListTracks(l: Listing, live: seq<Entry>, budget: nat)
    requires Tracks(l, live)
    ensures var r := ListStep(l, List(budget));
            && Tracks(r, live) && r.slots == l.slots
            && (budget >= 1 ==> |r.out| >= |l.out| + 1 || l.out == r.out == live)
  {
    ReaddirEmits(l.slots, live, |l.out|, budget);
    PrefixGrows(l.out, live, if |l.out| + budget <= |live| then |l.out| + budget else |live|);
  }

  lemma PrefixGrows(out: seq<Entry>, live: seq<Entry>, m: nat)
    requires out <= live && |out| <= m <= |live|
    ensures out + live[|out|..m] == live[..m] <= live
  {
  }

  /**
   Resumable listing. For any sequence of listing calls, each stopped anywhere by its emitter, and
   appends in between: all that has been emitted is a prefix of the live entries, in order and
   without repeats or omissions, and the position is the length of that prefix.
   */
  lemma {:induction false} ListingIsAPrefix(slots: seq<Slot>, start: seq<Entry>, es: seq<Event>)
    requires Represents(slots, start) && GoodEvents(es)
    ensures Tracks(ListRun(Listing(slots, 0, []), es), EntriesAfter(start, es))
  {
    if es != [] {
      var before, e := es[..|es| - 1], es[|es| - 1];
      ListingIsAPrefix(slots, start, before);
      var m := ListRun(Listing(slots, 0, []), before);
      var was := EntriesAfter(start, before);
      match e
      case Add(entry, io) => AddTracks(m, was, entry, io);
      case List(budget) => ListTracks(m, was, budget);
    }
  }

  function Lists(budgets: seq<nat>): (r: seq<Event>)
    ensures |r| == |budgets| && GoodEvents(r)
    ensures forall i: nat :: i < |r| ==> r[i] == List(budgets[i])
  {
    seq(|budgets|, (i: nat) requires i < |budgets| => List(budgets[i]))
  }

  /** Calls that each take at least one entry reach the end: as many calls as entries are left always suffice. */
  lemma {:induction false} ListingReachesTheEnd(l: Listing, live: seq<Entry>, budgets: seq<nat>)
    requires Tracks(l, live)
    requires forall i: nat :: i < |budgets| ==> budgets[i] >= 1
    ensures var r := ListRun(l, Lists(budgets));
            Tracks(r, live) && (|r.out| >= |l.out| + |budgets| || r.out == live)
    ensures |budgets| >= |live| - |l.out| ==> ListRun(l, Lists(budgets)).out == live
  {
    var n := |budgets|;
    if n > 0 {
      ListingReachesTheEnd(l, live, budgets[..n - 1]);
      assert Lists(budgets)[..n - 1] == Lists(budgets[..n - 1]);
      ListTracks(ListRun(l, Lists(budgets[..n - 1])), live, budgets[n - 1]);
    }
  }
}
