/**
 Directories as file contents: 64-byte records in the blocks of the directory's inode, as many as its
 size says. Entering names is a write of one block and a change of the size; whatever else happens to the
 volume, remounts included, leaves the directory as it is.
 */
module StoredDirectories {
  import opened Numbers
  import opened Endian
  import opened Layout
  import opened Metadata
  import opened FileStore
  import opened FileRuns
  import opened Refinement
  import opened DirectoryEntries
  import RootDirectory

  // ---------------------------------------------------------------- records in a block

  function PutLe32(x: int): (s: seq<Byte>)
    ensures |s| == 4
  {
    var b := PutBe32(x);
    [b[3], b[2], b[1], b[0]]
  }

  lemma {:induction false} Le32RoundTrip(x: int)
    ensures RootDirectory.GetLe32(PutLe32(x)) == U32(x)
  {
    Be32RoundTrip(x);
  }

  /** The record of an entry as the append stores it. */
  function EntryBytes(e: Entry): (r: seq<Byte>)
    requires |e.name| <= NAME_LEN
    ensures |r| == 64
  {
    PutLe32(e.ino) + e.name + Zeros(NAME_LEN - |e.name|)
  }

  predicate AllGood(es: seq<Entry>) {
    forall k: nat :: k < |es| ==> GoodEntry(es[k])
  }

  /** Records one after the other. */
  function EntriesBytes(es: seq<Entry>): (r: seq<Byte>)
    requires AllGood(es)
    ensures |r| == 64 * |es|
  {
    seq(64 * |es|, (i: nat) requires i < 64 * |es| => EntryBytes(es[i / 64])[i % 64])
  }

  lemma {:induction false} EntriesBytesAt(es: seq<Entry>, m: nat)
    requires AllGood(es) && m < |es|
    ensures EntriesBytes(es)[64 * m..64 * m + 64] == EntryBytes(es[m])
  {
    var got := EntriesBytes(es)[64 * m..64 * m + 64];
    forall i: nat | i < 64
      ensures got[i] == EntryBytes(es[m])[i]
    {
      assert got[i] == EntriesBytes(es)[64 * m + i];
    }
  }

  /** A record read as a slot shows the entry that it was stored for. */
  lemma {:induction false} RecordShowsEntry(block: seq<Byte>, k: nat, e: Entry)
    requires GoodEntry(e) && 64 * k + 64 <= |block| && block[64 * k..64 * k + 64] == EntryBytes(e)
    ensures DecodeEntry(RootDirectory.SlotIn(block, k)) == e
  {
    var rec := block[64 * k..64 * k + 64];
    assert block[64 * k..64 * k + 4] == rec[..4] == PutLe32(e.ino);
    assert block[64 * k + 4..64 * k + 64] == rec[4..] == e.name + Zeros(NAME_LEN - |e.name|);
    Le32RoundTrip(e.ino);
    assert RootDirectory.SlotIn(block, k) == EncodeEntry(e.name, e.ino);
    DirectoryEntries.DecodeEncode(e);
  }

  /** A block with these entries stored from record `j` on. */
  function WithEntries(base: Data, j: nat, es: seq<Entry>): (r: Data)
    requires AllGood(es)
    ensures |r| == |base|
  {
    if 64 * j + 64 * |es| <= |base| then Patch(base, 64 * j, EntriesBytes(es)) else base
  }

  /** The records before the new ones are untouched. */
  lemma {:induction false} OldShown(base: Data, j: nat, es: seq<Entry>, k: nat)
    requires AllGood(es) && 64 * j <= |base| && k < j
    ensures RootDirectory.SlotIn(WithEntries(base, j, es), k) == RootDirectory.SlotIn(base, k)
  {
    if 64 * j + 64 * |es| <= |base| {
      PatchElsewhere(base, 64 * j, EntriesBytes(es), 64 * k, 64 * k + 4);
      PatchElsewhere(base, 64 * j, EntriesBytes(es), 64 * k + 4, 64 * k + 64);
    }
  }

  /** The new entries are shown. */
  lemma {:induction false} NewShown(base: Data, j: nat, es: seq<Entry>, m: nat, block: Data, e: Entry)
    requires AllGood(es) && 64 * j + 64 * |es| <= |base| && m < |es| && e == es[m] && block == WithEntries(base, j, es)
    ensures DecodeEntry(RootDirectory.SlotIn(block, j + m)) == e
  {
    NewRecordIs(base, j, es, m, block);
    RecordShowsEntry(block, j + m, e);
  }

  lemma {:induction false} NewRecordIs(base: Data, j: nat, es: seq<Entry>, m: nat, block: Data)
    requires AllGood(es) && 64 * j + 64 * |es| <= |base| && m < |es| && block == WithEntries(base, j, es)
    ensures block[64 * (j + m)..64 * (j + m) + 64] == EntryBytes(es[m])
  {
    EntriesBytesAt(es, m);
    PatchedPart(base, 64 * j, EntriesBytes(es), 64 * m, 64);
  }

  lemma {:induction false} PatchedPart(base: Data, at: nat, bytes: seq<Byte>, from: nat, n: nat)
    requires at + |bytes| <= |base| && from + n <= |bytes|
    ensures Patch(base, at, bytes)[at + from..at + from + n] == bytes[from..from + n]
  {
    assert Patch(base, at, bytes)[at + from..at + from + n] == Patch(base, at, bytes)[at..at + |bytes|][from..from + n];
  }

  // ---------------------------------------------------------------- directories on a volume

  /** Blocks are whole numbers of records, and the first has room for the dot entries. */
  predicate RecordsFit(sb: Super) {
    sb.BlockSize() % 64 == 0 && sb.BlockSize() >= 128
  }

  function PerBlock(sb: Super): (r: nat)
    requires RecordsFit(sb)
    ensures r >= 2 && 64 * r == sb.BlockSize()
  {
    sb.BlockSize() / 64
  }

  /** The contents of a file block on the device. */
  function Contents(sb: Super, s: State, d: nat, k: nat): (r: Data)
    requires sb.Valid() && NinePointers(s.ptrs) && Loc(sb, s, d, k).Some?
    ensures |r| == sb.BlockSize()
  {
    BlockOf(s.disk, sb.BlockSize(), Loc(sb, s, d, k).value)
  }

  // The place of a record is counted off in whole blocks; `PlaceIsQuotient` states it as a division.

  /** The file block that record `i` lies in. */
  function BlockNo(i: nat, per: nat): (r: nat)
    requires per > 0
  {
    if i < per then 0 else 1 + BlockNo(i - per, per)
  }

  /** Its number within that block. */
  function RecordNo(i: nat, per: nat): (r: nat)
    requires per > 0
    ensures r < per
  {
    if i < per then i else RecordNo(i - per, per)
  }

  lemma {:induction false} PlaceIsQuotient(i: nat, per: nat)
    requires per > 0
    ensures BlockNo(i, per) == i / per && RecordNo(i, per) == i % per
    ensures i == BlockNo(i, per) * per + RecordNo(i, per)
  {
    if i >= per {
      PlaceIsQuotient(i - per, per);
    }
    DivModUnique(i, per, BlockNo(i, per), RecordNo(i, per));
  }

  /** Record `j` of file block `k` shows this entry. */
  predicate EntryAt(sb: Super, s: State, d: nat, k: nat, j: nat, e: Entry)
    requires sb.Valid() && NinePointers(s.ptrs) && 64 * j + 64 <= sb.BlockSize()
  {
    Loc(sb, s, d, k).Some? && DecodeEntry(RootDirectory.SlotIn(Contents(sb, s, d, k), j)) == e
  }

  /** Record `i` of a directory shows this entry. */
  predicate EntryOn(sb: Super, s: State, d: nat, i: nat, e: Entry)
    requires sb.Valid() && RecordsFit(sb) && NinePointers(s.ptrs)
  {
    EntryAt(sb, s, d, BlockNo(i, PerBlock(sb)), RecordNo(i, PerBlock(sb)), e)
  }

  /** The device holds this directory: its size and every record. */
  ghost predicate DirOn(sb: Super, s: State, d: nat, es: seq<Entry>)
    requires sb.Valid() && RecordsFit(sb) && NinePointers(s.ptrs)
  {
    && d in s.ptrs && d in s.attrs && s.attrs[d].size == 64 * |es|
    && forall i: nat {:trigger EntryOn(sb, s, d, i, es[i])} :: i < |es| ==> EntryOn(sb, s, d, i, es[i])
  }

  ghost predicate DirsOn(sb: Super, s: State, dirs: map<nat, seq<Entry>>)
    requires sb.Valid() && RecordsFit(sb) && NinePointers(s.ptrs)
  {
    forall d: nat {:trigger DirOn(sb, s, d, dirs[d])} :: d in dirs ==> DirOn(sb, s, d, dirs[d])
  }

  /** What is on the device determines the directory. */
  lemma {:induction false} DirIsDetermined(sb: Super, s: State, d: nat, es: seq<Entry>, fs: seq<Entry>)
    requires sb.Valid() && RecordsFit(sb) && NinePointers(s.ptrs) && DirOn(sb, s, d, es) && DirOn(sb, s, d, fs)
    ensures es == fs
  {
    forall i: nat | i < |es|
      ensures es[i] == fs[i]
    {
      assert EntryOn(sb, s, d, i, es[i]) && EntryOn(sb, s, d, i, fs[i]);
    }
  }

  // ---------------------------------------------------------------- what an operation leaves alone

  lemma {:induction false} RelStart(sb: Super, s: State)
    requires sb.Valid() && NinePointers(s.ptrs)
    ensures Rel(sb, s.disk, s, FilesAt(s))
  {
  }

  /** One covered operation, as seen from the state before it. */
  lemma {:induction false} OneOperation(sb: Super, root: nat, s: State, op: Op)
    requires Good(sb, root, s) && OpCovered(sb, s, op)
    ensures var t := Step(sb, s, op).0;
            && Good(sb, root, t) && Extends(s, t) && InjectiveMap(sb, t)
            && DataRel(sb, s.disk, t, FilesStep(sb, FilesAt(s), op))
  {
    RelStart(sb, s);
    CoveredIsHarmless(sb, root, s, op);
    StepKeepsGood(sb, root, s, op);
    StepRefines(sb, root, s.disk, s, FilesAt(s), op);
    AboveMetadata(sb, root, Step(sb, s, op).0);
  }

  /** The operation writes this file block. */
  predicate Hits(op: Op, d: nat, k: nat) {
    op.Write? && op.ino == d && op.iblock == k
  }

  lemma {:induction false} OtherBlockKept(sb: Super, disk0: Disk, t: State, f: Files, d: nat, k: nat)
    requires sb.Valid() && NinePointers(t.ptrs) && InjectiveMap(sb, t) && DataRel(sb, disk0, t, f)
    requires Loc(sb, t, d, k).Some? && (d, k) !in f.content
    ensures At(t.disk, Loc(sb, t, d, k).value) == At(disk0, Loc(sb, t, d, k).value)
  {
    assert !Written(sb, t, f, Loc(sb, t, d, k).value);
  }

  lemma {:induction false} SameBlock(disk: Disk, now: Disk, size: nat, b: int)
    requires At(now, b) == At(disk, b)
    ensures BlockOf(now, size, b) == BlockOf(disk, size, b)
  {
  }

  /** The same without the invariant. */
  lemma {:induction false} OperationData(sb: Super, root: nat, s: State, op: Op, t: State)
    requires Good(sb, root, s) && OpCovered(sb, s, op) && t == Step(sb, s, op).0
    ensures sb.Valid() && NinePointers(s.ptrs) && NinePointers(t.ptrs) && Extends(s, t) && InjectiveMap(sb, t)
    ensures DataRel(sb, s.disk, t, FilesStep(sb, FilesAt(s), op))
  {
    OneOperation(sb, root, s, op);
  }

  lemma {:induction false} BlockStays(sb: Super, s: State, t: State, f: Files, d: nat, k: nat)
    requires sb.Valid() && NinePointers(s.ptrs) && NinePointers(t.ptrs) && Extends(s, t) && InjectiveMap(sb, t)
    requires DataRel(sb, s.disk, t, f) && Loc(sb, s, d, k).Some? && (d, k) !in f.content
    ensures Loc(sb, t, d, k) == Loc(sb, s, d, k) && Contents(sb, t, d, k) == Contents(sb, s, d, k)
  {
    LocIsKept(sb, s, t, d, k);
    OtherBlockKept(sb, s.disk, t, f, d, k);
    SameBlock(s.disk, t.disk, sb.BlockSize(), Loc(sb, s, d, k).value);
  }

  lemma {:induction false} BlockArrives(sb: Super, disk0: Disk, t: State, f: Files, d: nat, k: nat)
    requires sb.Valid() && NinePointers(t.ptrs) && DataRel(sb, disk0, t, f) && (d, k) in f.content
    requires |f.content[(d, k)]| == sb.BlockSize()
    ensures Loc(sb, t, d, k).Some? && Contents(sb, t, d, k) == f.content[(d, k)]
  {
    assert StoredAt(sb, t, f, d, k);
  }

  /** A covered operation leaves every file block where it is, and as it is unless it writes it. */
  lemma {:induction false} BlockIsKept(sb: Super, root: nat, s: State, op: Op, t: State, d: nat, k: nat)
    requires Good(sb, root, s) && OpCovered(sb, s, op) && t == Step(sb, s, op).0
    requires Loc(sb, s, d, k).Some? && !Hits(op, d, k)
    ensures Loc(sb, t, d, k) == Loc(sb, s, d, k) && Contents(sb, t, d, k) == Contents(sb, s, d, k)
  {
    OperationData(sb, root, s, op, t);
    BlockStays(sb, s, t, FilesStep(sb, FilesAt(s), op), d, k);
  }

  /** A covered write stores its data in the block that it names. */
  lemma {:induction false} BlockIsWritten(sb: Super, root: nat, s: State, op: Op, t: State)
    requires Good(sb, root, s) && OpCovered(sb, s, op) && t == Step(sb, s, op).0
    requires op.Write? && op.ino in s.ptrs && InRange(sb, op.iblock) && |op.data| == sb.BlockSize()
    ensures Loc(sb, t, op.ino, op.iblock).Some? && Contents(sb, t, op.ino, op.iblock) == op.data
  {
    OperationData(sb, root, s, op, t);
    BlockArrives(sb, s.disk, t, FilesStep(sb, FilesAt(s), op), op.ino, op.iblock);
  }

  lemma {:induction false} BlockOpKeepsFields(sb: Super, s: State, op: Op)
    requires Shaped(sb, s) && (op.Read? || op.Write?)
    ensures Step(sb, s, op).0.attrs == s.attrs
  {
  }

  lemma {:induction false} CreateKeepsFields(sb: Super, s: State, attrs: Attrs, d: nat)
    requires Shaped(sb, s) && d in s.ptrs
    ensures var t := Created(sb, s, attrs);
            d in t.attrs && t.attrs[d] == s.attrs[d]
  {
  }

  lemma {:induction false} RemountKeepsFields(sb: Super, root: nat, s: State, held: bool)
    requires Good(sb, root, s)
    ensures Remounted(sb, s, held).attrs == s.attrs && Remounted(sb, s, held).ptrs == s.ptrs
  {
    RemountIsUnmount(sb, root, s, held);
  }

  lemma {:induction false} OthersKeepFields(sb: Super, s: State, op: Op, d: nat)
    requires Shaped(sb, s) && d in s.ptrs && !op.Remount? && !(op.SetAttrs? && op.ino == d)
    ensures var t := Step(sb, s, op).0;
            d in t.attrs && t.attrs[d] == s.attrs[d]
  {
    match op
    case Create(attrs) => CreateKeepsFields(sb, s, attrs, d);
    case SetAttrs(_, _) =>
    case Sync =>
    case _ => BlockOpKeepsFields(sb, s, op);
  }

  /** Fields change by a change of fields only. */
  lemma {:induction false} FieldsAreKept(sb: Super, root: nat, s: State, op: Op, t: State, d: nat)
    requires Good(sb, root, s) && t == Step(sb, s, op).0 && d in s.ptrs && !(op.SetAttrs? && op.ino == d)
    ensures d in t.ptrs && d in t.attrs && t.attrs[d] == s.attrs[d]
  {
    if op.Remount? {
      RemountKeepsFields(sb, root, s, op.held);
    } else {
      OthersKeepFields(sb, s, op, d);
    }
  }

  /** The operation changes neither the contents nor the fields of this inode. */
  predicate Spares(op: Op, d: nat) {
    (op.Write? || op.SetAttrs?) ==> op.ino != d
  }

  lemma {:induction false} EntryIsKept(sb: Super, root: nat, s: State, op: Op, t: State, d: nat, k: nat, j: nat,
                                       e: Entry)
    requires Good(sb, root, s) && 64 * j + 64 <= sb.BlockSize() && OpCovered(sb, s, op) && t == Step(sb, s, op).0
    requires EntryAt(sb, s, d, k, j, e) && !Hits(op, d, k)
    ensures EntryAt(sb, t, d, k, j, e)
  {
    BlockIsKept(sb, root, s, op, t, d, k);
  }

  /** If file block `k` is anywhere, it is where it was and as it was. */
  predicate KeptAt(sb: Super, s: State, t: State, d: nat, k: nat)
    requires sb.Valid() && NinePointers(s.ptrs) && NinePointers(t.ptrs)
  {
    Loc(sb, s, d, k).Some? ==> Loc(sb, t, d, k) == Loc(sb, s, d, k) && Contents(sb, t, d, k) == Contents(sb, s, d, k)
  }

  lemma {:induction false} SameDir(sb: Super, s: State, t: State, d: nat, es: seq<Entry>)
    requires sb.Valid() && RecordsFit(sb) && NinePointers(s.ptrs) && NinePointers(t.ptrs) && DirOn(sb, s, d, es)
    requires d in t.ptrs && d in t.attrs && t.attrs[d].size == s.attrs[d].size
    requires forall k: nat {:trigger KeptAt(sb, s, t, d, k)} :: KeptAt(sb, s, t, d, k)
    ensures DirOn(sb, t, d, es)
  {
    forall i: nat | i < |es|
      ensures EntryOn(sb, t, d, i, es[i])
    {
      assert EntryOn(sb, s, d, i, es[i]);
      assert KeptAt(sb, s, t, d, BlockNo(i, PerBlock(sb)));
    }
  }

  /** Every covered operation that spares a directory, a remount for one, leaves it on the device. */
  lemma {:induction false} DirIsKept(sb: Super, root: nat, s: State, op: Op, t: State, d: nat, es: seq<Entry>)
    requires Good(sb, root, s) && RecordsFit(sb) && OpCovered(sb, s, op) && Spares(op, d) && t == Step(sb, s, op).0
    requires DirOn(sb, s, d, es)
    ensures DirOn(sb, t, d, es)
  {
    FieldsAreKept(sb, root, s, op, t, d);
    forall k: nat
      ensures KeptAt(sb, s, t, d, k)
    {
      if Loc(sb, s, d, k).Some? {
        BlockIsKept(sb, root, s, op, t, d, k);
      }
    }
    SameDir(sb, s, t, d, es);
  }

  // ---------------------------------------------------------------- entering names

  type Time = t: int | -TWO_63 <= t < TWO_63 witness 0

  /** The number of records that the size of an inode stands for. */
  function Count(s: State, d: nat): (r: nat)
    requires d in s.attrs
  {
    if s.attrs[d].size < 0 then 0 else s.attrs[d].size / 64
  }

  /** The write of the block that is to hold the entries. */
  function EnterWrite(sb: Super, s: State, d: nat, base: Data, es: seq<Entry>): (r: Op)
    requires RecordsFit(sb) && d in s.attrs && AllGood(es)
  {
    var i := Count(s, d);
    Write(d, BlockNo(i, PerBlock(sb)), WithEntries(base, RecordNo(i, PerBlock(sb)), es), 0, true)
  }

  /** The fields afterwards: a larger size, and the time of the change. */
  function GrownFields(a: Attrs, size: nat, now: Time): (r: Attrs) {
    a.(size := if size < TWO_32 then size else a.size, ctime := now)
  }

  function EnterFields(s: State, d: nat, es: seq<Entry>, now: Time): (r: Op)
    requires d in s.attrs
  {
    SetAttrs(d, GrownFields(s.attrs[d], 64 * (Count(s, d) + |es|), now))
  }

  /** Entries are stored in the block after the last record, and the size grows over them. */
  function Entered(sb: Super, s: State, d: nat, base: Data, es: seq<Entry>, now: Time): (r: State)
    requires Shaped(sb, s) && RecordsFit(sb) && d in s.ptrs && AllGood(es)
    ensures Shaped(sb, r)
  {
    Step(sb, Step(sb, s, EnterWrite(sb, s, d, base, es)).0, EnterFields(s, d, es, now)).0
  }

  /** There is room: a zone for the block, records in the block, and a size that the record keeps. */
  predicate CanEnter(sb: Super, s: State, d: nat, es: seq<Entry>)
    requires Geometry(sb) && Shaped(sb, s) && RecordsFit(sb) && d in s.ptrs
  {
    var i := Count(s, d);
    && Covered(sb, s, d, BlockNo(i, PerBlock(sb))) && RecordNo(i, PerBlock(sb)) + |es| <= PerBlock(sb)
    && 64 * (i + |es|) < TWO_32
  }

  /** The block that the entries are stored in holds the records before them. */
  predicate IsBase(sb: Super, s: State, d: nat, k: nat, j: nat, base: Data)
    requires sb.Valid() && NinePointers(s.ptrs)
  {
    |base| == sb.BlockSize() && (j > 0 ==> Loc(sb, s, d, k).Some? && base == Contents(sb, s, d, k))
  }

  lemma {:induction false} EnterIsCovered(sb: Super, root: nat, s: State, d: nat, base: Data, es: seq<Entry>)
    requires Good(sb, root, s) && RecordsFit(sb) && d in s.ptrs && AllGood(es) && CanEnter(sb, s, d, es)
    ensures OpCovered(sb, s, EnterWrite(sb, s, d, base, es))
  {
  }

  /** All other file blocks are as they were. */
  ghost predicate OthersKept(sb: Super, s: State, t: State, d: nat, k: nat)
    requires sb.Valid() && NinePointers(s.ptrs) && NinePointers(t.ptrs)
  {
    forall m: nat {:trigger KeptAt(sb, s, t, d, m)} :: m != k ==> KeptAt(sb, s, t, d, m)
  }

  /** In file block `k` the records before `j` are as they were, and these entries follow. */
  ghost predicate BlockEntered(sb: Super, s: State, t: State, d: nat, k: nat, j: nat, more: seq<Entry>)
    requires sb.Valid() && NinePointers(s.ptrs) && NinePointers(t.ptrs) && 64 * (j + |more|) <= sb.BlockSize()
  {
    && (forall m: nat, e: Entry {:trigger EntryAt(sb, s, d, k, m, e)} ::
          m < j && EntryAt(sb, s, d, k, m, e) ==> EntryAt(sb, t, d, k, m, e))
    && (forall m: nat {:trigger more[m]} :: m < |more| ==> EntryAt(sb, t, d, k, j + m, more[m]))
  }

  lemma {:induction false} WriteKeepsOthers(sb: Super, root: nat, s: State, op: Op, t: State)
    requires Good(sb, root, s) && OpCovered(sb, s, op) && t == Step(sb, s, op).0 && op.Write?
    ensures OthersKept(sb, s, t, op.ino, op.iblock)
  {
    forall m: nat | m != op.iblock
      ensures KeptAt(sb, s, t, op.ino, m)
    {
      if Loc(sb, s, op.ino, m).Some? {
        BlockIsKept(sb, root, s, op, t, op.ino, m);
      }
    }
  }

  lemma {:induction false} WriteEnters(sb: Super, root: nat, s: State, op: Op, t: State, base: Data, j: nat,
                                       more: seq<Entry>)
    requires Good(sb, root, s) && OpCovered(sb, s, op) && t == Step(sb, s, op).0 && op.Write? && op.ino in s.ptrs
    requires InRange(sb, op.iblock) && AllGood(more) && 64 * j + 64 * |more| <= sb.BlockSize()
    requires IsBase(sb, s, op.ino, op.iblock, j, base) && op.data == WithEntries(base, j, more)
    ensures BlockEntered(sb, s, t, op.ino, op.iblock, j, more)
  {
    BlockIsWritten(sb, root, s, op, t);
    ContentsEnter(sb, s, t, op.ino, op.iblock, base, j, more);
  }

  lemma {:induction false} ContentsEnter(sb: Super, s: State, t: State, d: nat, k: nat, base: Data, j: nat,
                                         more: seq<Entry>)
    requires sb.Valid() && NinePointers(s.ptrs) && NinePointers(t.ptrs) && AllGood(more)
    requires 64 * j + 64 * |more| <= sb.BlockSize()
    requires IsBase(sb, s, d, k, j, base) && Loc(sb, t, d, k).Some?
    requires Contents(sb, t, d, k) == WithEntries(base, j, more)
    ensures BlockEntered(sb, s, t, d, k, j, more)
  {
    forall m: nat, e: Entry | m < j && EntryAt(sb, s, d, k, m, e)
      ensures EntryAt(sb, t, d, k, m, e)
    {
      OldRecord(sb, s, t, d, k, base, j, more, m, e);
    }
    forall m: nat | m < |more|
      ensures EntryAt(sb, t, d, k, j + m, more[m])
    {
      NewRecord(sb, t, d, k, base, j, more, m);
    }
  }

  lemma {:induction false} OldRecord(sb: Super, s: State, t: State, d: nat, k: nat, base: Data, j: nat,
                                     more: seq<Entry>, m: nat, e: Entry)
    requires sb.Valid() && NinePointers(s.ptrs) && NinePointers(t.ptrs) && AllGood(more)
    requires 64 * j + 64 * |more| <= sb.BlockSize()
    requires IsBase(sb, s, d, k, j, base) && Loc(sb, t, d, k).Some?
    requires Contents(sb, t, d, k) == WithEntries(base, j, more)
    requires m < j && EntryAt(sb, s, d, k, m, e)
    ensures EntryAt(sb, t, d, k, m, e)
  {
    OldShown(base, j, more, m);
  }

  lemma {:induction false} NewRecord(sb: Super, t: State, d: nat, k: nat, base: Data, j: nat, more: seq<Entry>, m: nat)
    requires sb.Valid() && NinePointers(t.ptrs) && AllGood(more) && 64 * j + 64 * |more| <= sb.BlockSize() == |base|
    requires Loc(sb, t, d, k).Some? && Contents(sb, t, d, k) == WithEntries(base, j, more) && m < |more|
    ensures EntryAt(sb, t, d, k, j + m, more[m])
  {
    NewShown(base, j, more, m, Contents(sb, t, d, k), more[m]);
  }

  /** Record `i`, which is record `jj` of block `kk`, after entries from record `j` of block `k` on. */
  lemma {:induction false} GrownEntry(sb: Super, s: State, t: State, d: nat, es: seq<Entry>, more: seq<Entry>, i: nat,
                                      k: nat, j: nat, kk: nat, jj: nat)
    requires sb.Valid() && NinePointers(s.ptrs) && NinePointers(t.ptrs) && 64 * jj + 64 <= sb.BlockSize()
    requires 64 * (j + |more|) <= sb.BlockSize() && OthersKept(sb, s, t, d, k) && BlockEntered(sb, s, t, d, k, j, more)
    requires i < |es| + |more| && (i < |es| ==> EntryAt(sb, s, d, kk, jj, es[i]))
    requires if kk == k then jj - j == i - |es| else i < |es|
    ensures EntryAt(sb, t, d, kk, jj, (es + more)[i])
  {
    if kk != k {
      assert KeptAt(sb, s, t, d, kk);
    } else if i >= |es| {
      assert (es + more)[i] == more[i - |es|];
    }
  }

  lemma {:induction false} GrownRecord(sb: Super, s: State, t: State, d: nat, es: seq<Entry>, more: seq<Entry>,
                                       k: nat, j: nat, i: nat)
    requires sb.Valid() && RecordsFit(sb) && NinePointers(s.ptrs) && NinePointers(t.ptrs)
    requires k == BlockNo(|es|, PerBlock(sb)) && j == RecordNo(|es|, PerBlock(sb)) && j + |more| <= PerBlock(sb)
    requires OthersKept(sb, s, t, d, k) && BlockEntered(sb, s, t, d, k, j, more)
    requires i < |es| + |more| && (i < |es| ==> EntryOn(sb, s, d, i, es[i]))
    ensures EntryOn(sb, t, d, i, (es + more)[i])
  {
    var per := PerBlock(sb);
    RecordPlace(i, |es|, |more|, per);
    GrownEntry(sb, s, t, d, es, more, i, k, j, BlockNo(i, per), RecordNo(i, per));
  }

  /** A directory with more entries, once its block is written and its size is set. */
  lemma {:induction false} DirGrows(sb: Super, s: State, t: State, d: nat, es: seq<Entry>, more: seq<Entry>, k: nat,
                                    j: nat)
    requires sb.Valid() && RecordsFit(sb) && NinePointers(s.ptrs) && NinePointers(t.ptrs) && DirOn(sb, s, d, es)
    requires d in t.ptrs && d in t.attrs && t.attrs[d].size == 64 * (|es| + |more|)
    requires k == BlockNo(|es|, PerBlock(sb)) && j == RecordNo(|es|, PerBlock(sb)) && j + |more| <= PerBlock(sb)
    requires OthersKept(sb, s, t, d, k) && BlockEntered(sb, s, t, d, k, j, more)
    ensures DirOn(sb, t, d, es + more)
  {
    forall i: nat | i < |es| + |more|
      ensures EntryOn(sb, t, d, i, (es + more)[i])
    {
      assert i < |es| ==> EntryOn(sb, s, d, i, es[i]);
      GrownRecord(sb, s, t, d, es, more, k, j, i);
    }
  }

  /** Where a record lies, relative to the first new one. */
  lemma {:induction false} RecordPlace(i: nat, n: nat, more: nat, per: nat)
    requires per > 0 && i < n + more && RecordNo(n, per) + more <= per
    ensures if BlockNo(i, per) == BlockNo(n, per) then RecordNo(i, per) - RecordNo(n, per) == i - n else i < n
  {
    PlaceIsQuotient(i, per);
    PlaceIsQuotient(n, per);
    if i >= n {
      DivModUnique(i, per, n / per, n % per + (i - n));
    }
  }

  /** A change of fields moves no block. */
  lemma {:induction false} SameBlocks(sb: Super, s: State, t: State, u: State, d: nat, k: nat, j: nat, more: seq<Entry>)
    requires sb.Valid() && NinePointers(s.ptrs) && NinePointers(t.ptrs) && 64 * (j + |more|) <= sb.BlockSize()
    requires OthersKept(sb, s, t, d, k) && BlockEntered(sb, s, t, d, k, j, more) && u.ptrs == t.ptrs && u.disk == t.disk
    ensures OthersKept(sb, s, u, d, k) && BlockEntered(sb, s, u, d, k, j, more)
  {
    forall m: nat | m != k
      ensures KeptAt(sb, s, u, d, m)
    {
      assert KeptAt(sb, s, t, d, m);
    }
    forall m: nat, e: Entry | m < j && EntryAt(sb, s, d, k, m, e)
      ensures EntryAt(sb, u, d, k, m, e)
    {
      assert EntryAt(sb, t, d, k, m, e);
    }
    forall m: nat | m < |more|
      ensures EntryAt(sb, u, d, k, j + m, more[m])
    {
      assert EntryAt(sb, t, d, k, j + m, more[m]);
    }
  }

  /** The two operations of entering names are covered, one after the other. */
  lemma {:induction false} EnterKeepsGood(sb: Super, root: nat, s: State, d: nat, base: Data, more: seq<Entry>,
                                          now: Time, t: State)
    requires Good(sb, root, s) && RecordsFit(sb) && d in s.ptrs && AllGood(more) && CanEnter(sb, s, d, more)
    requires t == Step(sb, s, EnterWrite(sb, s, d, base, more)).0
    ensures Good(sb, root, t) && t.status.Up? && d in t.ptrs && t.attrs[d] == s.attrs[d] && t.inodeBits == s.inodeBits
    ensures OpCovered(sb, t, EnterFields(s, d, more, now))
  {
    var op := EnterWrite(sb, s, d, base, more);
    EnterIsCovered(sb, root, s, d, base, more);
    OneOperation(sb, root, s, op);
    FieldsAreKept(sb, root, s, op, t, d);
    assert Whole(s, d).Fits() && s.attrs[d].Fit();
    WriteKeepsNumbers(sb, s, op);
  }

  lemma {:induction false} WriteKeepsNumbers(sb: Super, s: State, op: Op)
    requires Shaped(sb, s) && op.Write?
    ensures Step(sb, s, op).0.inodeBits == s.inodeBits && Step(sb, s, op).0.ptrs.Keys == s.ptrs.Keys
  {
  }

  lemma {:induction false} ChangeStep(sb: Super, t: State, d: nat, a: Attrs)
    requires Shaped(sb, t) && t.status.Up? && d in t.ptrs
    ensures Step(sb, t, SetAttrs(d, a)).0 == t.(attrs := t.attrs[d := a], dirtyInodes := t.dirtyInodes + {d})
  {
  }

  /** Entering names appends them to the directory that the device holds. */
  lemma {:induction false} EnterStores(sb: Super, root: nat, s: State, d: nat, base: Data, es: seq<Entry>,
                                       more: seq<Entry>, now: Time)
    requires Good(sb, root, s) && RecordsFit(sb) && d in s.ptrs && DirOn(sb, s, d, es) && AllGood(more)
    requires CanEnter(sb, s, d, more)
    requires IsBase(sb, s, d, BlockNo(|es|, PerBlock(sb)), RecordNo(|es|, PerBlock(sb)), base)
    ensures DirOn(sb, Entered(sb, s, d, base, more, now), d, es + more)
  {
    var op := EnterWrite(sb, s, d, base, more);
    var t := Step(sb, s, op).0;
    var k, j := BlockNo(|es|, PerBlock(sb)), RecordNo(|es|, PerBlock(sb));
    assert Count(s, d) == |es|;
    EnterIsCovered(sb, root, s, d, base, more);
    EnterKeepsGood(sb, root, s, d, base, more, now, t);
    WriteKeepsOthers(sb, root, s, op, t);
    WriteEnters(sb, root, s, op, t, base, j, more);
    SizeGrows(sb, s, t, d, base, es, more, now, k, j);
  }

  lemma {:induction false} SizeGrows(sb: Super, s: State, t: State, d: nat, base: Data, es: seq<Entry>,
                                     more: seq<Entry>, now: Time, k: nat, j: nat)
    requires Shaped(sb, s) && Shaped(sb, t) && RecordsFit(sb) && d in s.ptrs && DirOn(sb, s, d, es) && AllGood(more)
    requires t.status.Up? && d in t.ptrs && t.attrs[d] == s.attrs[d] && 64 * (|es| + |more|) < TWO_32
    requires k == BlockNo(|es|, PerBlock(sb)) && j == RecordNo(|es|, PerBlock(sb)) && j + |more| <= PerBlock(sb)
    requires OthersKept(sb, s, t, d, k) && BlockEntered(sb, s, t, d, k, j, more)
    ensures DirOn(sb, Step(sb, t, EnterFields(s, d, more, now)).0, d, es + more)
  {
    var u := Step(sb, t, EnterFields(s, d, more, now)).0;
    assert Count(s, d) == |es|;
    ChangeStep(sb, t, d, GrownFields(s.attrs[d], 64 * (|es| + |more|), now));
    SameBlocks(sb, s, t, u, d, k, j, more);
    DirGrows(sb, s, u, d, es, more, k, j);
  }

  /** It leaves the volume good, the numbers as they were, and every other directory in its place. */
  lemma {:induction false} EnterSpares(sb: Super, root: nat, s: State, d: nat, base: Data, more: seq<Entry>, now: Time)
    requires Good(sb, root, s) && RecordsFit(sb) && d in s.ptrs && AllGood(more) && CanEnter(sb, s, d, more)
    ensures var u := Entered(sb, s, d, base, more, now);
            && Good(sb, root, u) && u.inodeBits == s.inodeBits && u.ptrs.Keys == s.ptrs.Keys
            && forall c: nat, es: seq<Entry> {:trigger DirOn(sb, s, c, es)} ::
                 c != d && DirOn(sb, s, c, es) ==> DirOn(sb, u, c, es)
  {
    var op := EnterWrite(sb, s, d, base, more);
    var t := Step(sb, s, op).0;
    EnterIsCovered(sb, root, s, d, base, more);
    EnterKeepsGood(sb, root, s, d, base, more, now, t);
    var fields := EnterFields(s, d, more, now);
    OneOperation(sb, root, t, fields);
    WriteKeepsNumbers(sb, s, op);
    forall c: nat, es: seq<Entry> | c != d && DirOn(sb, s, c, es)
      ensures DirOn(sb, Entered(sb, s, d, base, more, now), c, es)
    {
      DirIsKept(sb, root, s, op, t, c, es);
      DirIsKept(sb, root, t, fields, Step(sb, t, fields).0, c, es);
    }
  }
}
