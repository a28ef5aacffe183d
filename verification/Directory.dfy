/**
 A directory as the kernel keeps it: a file size and a list of 4096-byte pages, searched page by
 page and record by record. Every access is to an aligned 64-byte record, so a page is kept as
 its 64 records. Each method is proved against the function of the same purpose over the flat
 list of slots.
 */
module Directory {
  import opened Numbers
  import opened Options
  import opened Endian
  import opened DirectoryEntries

  predicate Paged(pages: seq<seq<Slot>>) {
    forall n: nat :: n < |pages| ==> |pages[n]| == 64
  }

  /** Slot `k` of the directory: record `k % 64` of page `k / 64`. */
  function SlotAt(pages: seq<seq<Slot>>, k: nat): (r: Slot)
    requires Paged(pages) && k < 64 * |pages|
  {
    pages[k / 64][k % 64]
  }

  function SlotsOf(pages: seq<seq<Slot>>, count: nat): (r: seq<Slot>)
    requires Paged(pages) && count <= 64 * |pages|
    ensures |r| == count
    ensures forall k: nat :: k < count ==> r[k] == SlotAt(pages, k)
  {
    seq(count, (k: nat) requires k < count => SlotAt(pages, k))
  }

  /** Record `j` of page `n`. */
  lemma {:induction false} SlotOfPage(pages: seq<seq<Slot>>, n: nat, j: nat)
    requires Paged(pages) && n < |pages| && j < 64
    ensures 64 * n + j < 64 * |pages| && SlotAt(pages, 64 * n + j) == pages[n][j]
  {
  }

  /** The first `c` records of a page are the slots from `base` on. */
  predicate OnPage(page: seq<Slot>, slots: seq<Slot>, base: nat, c: nat) {
    && |page| == 64 && c <= 64 && base + c <= |slots|
    && forall j: nat :: j < c ==> slots[base + j] == page[j]
  }

  /** The inner loop of the lookup: the first matching record of a page. */
  method FindInPage(page: seq<Slot>, name: seq<Byte>, lastByte: nat, ghost slots: seq<Slot>, ghost base: nat,
                    ghost c: nat)
    returns (r: Option<nat>)
    requires |name| <= NAME_LEN && OnPage(page, slots, base, c) && lastByte == 64 * c
    ensures r.Some? ==> r.value < c && FindFrom(slots, name, base) == Some(base + r.value)
    ensures r.None? ==> FindFrom(slots, name, base) == FindFrom(slots, name, base + c)
  {
    var j := 0;
    while 64 * j + 64 <= lastByte
      invariant j <= c
      invariant FindFrom(slots, name, base) == FindFrom(slots, name, base + j)
    {
      var s := page[j];
      assert slots[base + j] == s;
      if s.ino != 0 && NameCompare(name, s) {
        return Some(j);
      }
      j := j + 1;
    }
    r := None;
  }

  datatype PageSearch = Used | At(record: nat) | Duplicate

  /** The inner loop of the append's search; `Used` when the whole page is in use without a match. */
  method SearchPage(page: seq<Slot>, name: seq<Byte>, lastByte: nat, ghost slots: seq<Slot>, ghost base: nat,
                    ghost c: nat)
    returns (r: PageSearch)
    requires |name| <= NAME_LEN && OnPage(page, slots, base, c) && lastByte == 64 * c
    requires c < 64 ==> base + c == |slots|
    ensures match r
            case Used => c == 64 && SearchFrom(slots, name, base) == SearchFrom(slots, name, base + 64)
            case At(j) => j < 64 && SearchFrom(slots, name, base) == Free(base + j)
            case Duplicate => SearchFrom(slots, name, base) == Exists
  {
    var j := 0;
    while 64 * j <= 4096 - 64
      invariant j <= c
      invariant SearchFrom(slots, name, base) == SearchFrom(slots, name, base + j)
      decreases 64 - j
    {
      if 64 * j == lastByte {
        return At(j);
      }
      var s := page[j];
      assert slots[base + j] == s;
      if s.ino == 0 {
        return At(j);
      }
      if NameCompare(name, s) {
        return Duplicate;
      }
      j := j + 1;
    }
    r := Used;
  }

  predicate ShownOnPage(page: seq<Slot>, view: seq<Option<Entry>>, base: nat, c: nat) {
    && |page| == 64 && c <= 64 && base + c <= |view|
    && forall k: nat :: base <= k < base + c ==> view[k] == Visible(page[k - base])
  }

  /**
   The inner loop of the listing on the page of slots `base` and up, from slot `from`: everything
   emitted so far, the slot it stops at, what is left of the emitter's budget, and whether the
   emitter refused an entry.
   */
  method ReadPage(page: seq<Slot>, base: nat, from: nat, lastByte: nat, budget: nat, before: seq<Entry>,
                  ghost view: seq<Option<Entry>>, ghost c: nat, ghost start: nat)
    returns (out: seq<Entry>, k: nat, left: nat, stopped: bool)
    requires ShownOnPage(page, view, base, c) && base <= from <= base + c && lastByte == 64 * c
    requires start <= from && before == Emitted(view, start, from)
    ensures from <= k <= base + c && (!stopped ==> k == base + c)
    ensures out == Emitted(view, start, k)
    ensures StopAt(view, from, budget) == StopAt(view, k, left)
    ensures stopped ==> StopAt(view, k, left) == k
  {
    out, k, left, stopped := before, from, budget, false;
    while 64 * (k - base) + 64 <= lastByte
      invariant from <= k <= base + c
      invariant out == Emitted(view, start, k)
      invariant StopAt(view, from, budget) == StopAt(view, k, left)
    {
      var s := page[k - base];
      assert view[k] == Visible(s);
      if s.ino != 0 {
        if left == 0 {
          stopped := true;
          return;
        }
        out, left := out + [DecodeEntry(s)], left - 1;
      }
      k := k + 1;
    }
  }

  class Dir {
    var pages: seq<seq<Slot>>
    var size: nat

    ghost predicate Valid()
      reads this
    {
      Paged(pages) && size % 64 == 0 && size <= 4096 * |pages|
    }

    /** The slots below the file size. */
    ghost function Slots(): (r: seq<Slot>)
      requires Valid()
      reads this
    {
      SlotsOf(pages, size / 64)
    }

    /** A new inode has no pages and size 0. */
    constructor ()
      ensures Valid() && size == 0 && pages == []
    {
      pages, size := [], 0;
    }

    /** Offset just after the last valid byte of a page. */
    function LastByte(n: nat): (r: nat)
      reads this
    {
      if n == size / 4096 then size % 4096 else 4096
    }

    function DirPages(): (r: nat)
      reads this
    {
      (size + 4095) / 4096
    }

    /** Page `n` of the directory holds `c` slots: 64, or what is left on the last page. */
    lemma PageExtent(n: nat) returns (c: nat)
      requires Valid() && n < DirPages()
      ensures n < |pages| && LastByte(n) == 64 * c && 1 <= c <= 64 && 64 * n + c <= size / 64
      ensures n + 1 < DirPages() ==> c == 64
      ensures n + 1 == DirPages() ==> 64 * n + c == size / 64
    {
      c := LastByte(n) / 64;
    }

    /** The first `c` records of page `n` are the slots from `64 n` on. */
    lemma PageSlots(n: nat, c: nat)
      requires Valid() && n < |pages| && c <= 64 && 64 * n + c <= |Slots()|
      ensures OnPage(pages[n], Slots(), 64 * n, c)
    {
      forall j: nat | j < c
        ensures Slots()[64 * n + j] == pages[n][j]
      {
        SlotOfPage(pages, n, j);
      }
    }

    lemma PageShown(n: nat, c: nat)
      requires Valid() && n < |pages| && c <= 64 && 64 * n + c <= |Slots()|
      ensures ShownOnPage(pages[n], View(Slots()), 64 * n, c)
    {
      PageSlots(n, c);
      forall k: nat | 64 * n <= k < 64 * n + c
        ensures View(Slots())[k] == Visible(pages[n][k - 64 * n])
      {
        assert Slots()[64 * n + (k - 64 * n)] == pages[n][k - 64 * n];
      }
    }

    /** Lookup. */
    method FindEntry(name: seq<Byte>) returns (r: Option<nat>)
      requires Valid() && |name| <= NAME_LEN
      ensures r == FindFrom(Slots(), name, 0)
    {
      ghost var slots := Slots();
      var npages := DirPages();
      var n := 0;
      ghost var k := 0;
      while n < npages
        invariant n <= npages && k == (if n < npages then 64 * n else |slots|)
        invariant FindFrom(slots, name, 0) == FindFrom(slots, name, k)
      {
        ghost var c := PageExtent(n);
        PageSlots(n, c);
        r := FindInPage(pages[n], name, LastByte(n), slots, 64 * n, c);
        if r.Some? {
          return Some(64 * n + r.value);
        }
        n := n + 1;
        k := k + c;
      }
      r := None;
    }

    /** The number under a name, or 0. */
    method InodeByName(name: seq<Byte>) returns (ino: nat)
      requires Valid() && |name| <= NAME_LEN
      ensures ino == FoundIno(Slots(), name)
    {
      var r := FindEntry(name);
      match r
      case None => ino := 0;
      case Some(k) =>
        ino := SlotAt(pages, k).ino;
    }

    // -------------------------------------------------------------- append

    /** The page that holds the end of the directory, and the full pages before it. */
    lemma SearchExtent(n: nat) returns (c: nat)
      requires Valid() && 4096 * n <= size
      ensures LastByte(n) == 64 * c && c <= 64 && 64 * n + c <= size / 64
      ensures c < 64 ==> 64 * n + c == size / 64
      ensures c == 64 ==> 4096 * (n + 1) <= size
      ensures n <= DirPages() && n <= |pages|
    {
      c := LastByte(n) / 64;
    }

    /** A page past the cached ones is brought in; it lies beyond the file size, so its contents do not matter. */
    method GetPage(n: nat, fresh': seq<Slot>)
      requires Valid() && n <= |pages| && |fresh'| == 64
      modifies this`pages
      ensures Valid() && n < |pages| && old(pages) <= pages && Slots() == old(Slots())
    {
      if n == |pages| {
        pages := pages + [fresh'];
        assert forall k: nat :: k < size / 64 ==> SlotAt(pages, k) == SlotAt(old(pages), k);
      }
    }

    /** One round of the append's search: the page is brought in, and its records are searched up to the end. */
    method SearchOnPage(n: nat, name: seq<Byte>, fresh': seq<Slot>) returns (d: PageSearch)
      requires Valid() && 4096 * n <= size && |name| <= NAME_LEN && |fresh'| == 64
      modifies this`pages
      ensures Valid() && Slots() == old(Slots()) && n < |pages|
      ensures match d
              case Used => 4096 * (n + 1) <= size
                           && SearchFrom(Slots(), name, 64 * n) == SearchFrom(Slots(), name, 64 * (n + 1))
              case At(j) => j < 64 && SearchFrom(Slots(), name, 64 * n) == Free(64 * n + j)
              case Duplicate => SearchFrom(Slots(), name, 64 * n) == Exists
    {
      ghost var c := SearchExtent(n);
      GetPage(n, fresh');
      PageSlots(n, c);
      d := SearchPage(pages[n], name, LastByte(n), Slots(), 64 * n, c);
    }

    /**
     The append's search over all pages. It always decides: the call that would crash the kernel
     after the loop is never reached, also when the size is an exact number of pages.
     */
    method SearchSlot(name: seq<Byte>, fresh': seq<Slot>) returns (r: Place)
      requires Valid() && |name| <= NAME_LEN && |fresh'| == 64
      modifies this`pages
      ensures Valid() && Slots() == old(Slots())
      ensures r == SearchFrom(Slots(), name, 0)
      ensures r.Free? ==> r.slot < 64 * |pages|
    {
      var npages := DirPages();
      var n := 0;
      while n <= npages
        invariant Valid() && Slots() == old(Slots())
        invariant 4096 * n <= size
        invariant SearchFrom(Slots(), name, 0) == SearchFrom(Slots(), name, 64 * n)
        decreases npages + 1 - n
      {
        var d := SearchOnPage(n, name, fresh');
        match d {
          case Used =>
          case At(j) => return Free(64 * n + j);
          case Duplicate => return Exists;
        }
        n := n + 1;
      }
      assert false;
      r := Exists;
    }

    /** Replaces the record of slot `k`. */
    method StoreSlot(k: nat, s: Slot)
      requires Valid() && k < 64 * |pages|
      modifies this`pages
      ensures Valid() && |pages| == |old(pages)|
      ensures forall m: nat :: m < 64 * |pages| ==> SlotAt(pages, m) == if m == k then s else SlotAt(old(pages), m)
    {
      var page: seq<Slot> := pages[k / 64][..k % 64] + [s] + pages[k / 64][k % 64 + 1..];
      pages := pages[k / 64 := page];
    }

    /** Commits a chunk that has been stored: the file grows if the chunk reaches past its end, whatever the error. */
    method CommitChunk(k: nat, commit: int) returns (err: int)
      requires Valid() && k < 64 * |pages| && k <= size / 64
      modifies this`size
      ensures Valid() && err == commit
      ensures size == if 64 * k + 64 > old(size) then 64 * k + 64 else old(size)
    {
      if 64 * k + 64 > size {
        size := 64 * k + 64;
      }
      return commit;
    }

    /** Writing a whole entry: name, zero padding, then the inode number; then the commit. */
    method WriteEntry(k: nat, name: seq<Byte>, ino: int, commit: int) returns (err: int)
      requires Valid() && k < 64 * |pages| && k <= size / 64 && |name| <= NAME_LEN
      modifies this
      ensures Valid() && err == commit
      ensures Slots() == PutSlot(old(Slots()), k, EncodeEntry(name, ino))
    {
      var field := Patch(Patch(SlotAt(pages, k).name, 0, name), |name|, Zeros(NAME_LEN - |name|));
      BuiltField(SlotAt(pages, k).name, name);
      ghost var was := Slots();
      StoreSlot(k, Record(U32(ino), field));
      err := CommitChunk(k, commit);
      assert |Slots()| == if k == |was| then |was| + 1 else |was|;
    }

    /** Appending a link, with what the block layer reports for the slot's chunk. */
    method Link(name: seq<Byte>, ino: int, io: Io, fresh': seq<Slot>) returns (err: int)
      requires Valid() && |name| <= NAME_LEN && |fresh'| == 64
      modifies this
      ensures Valid() && (Slots(), err) == AddLink(old(Slots()), name, ino, io)
    {
      var place := SearchSlot(name, fresh');
      if place.Exists? {
        return EEXIST;
      }
      var k := place.slot;
      if k == size / 64 {
        ClearInode(k);
      }
      if io.prepare != 0 {
        return io.prepare;
      }
      err := WriteEntry(k, name, ino, io.commit);
    }

    /** At the end of the directory the stale inode number is cleared first; that is beyond the file size. */
    method ClearInode(k: nat)
      requires Valid() && k == size / 64 < 64 * |pages|
      modifies this`pages
      ensures Valid() && |pages| == |old(pages)| && Slots() == old(Slots())
    {
      StoreSlot(k, SlotAt(pages, k).(ino := 0));
    }

    /** A new directory: one zeroed page with the entries for itself and its parent. */
    method MakeEmpty(self: nat, parent: nat, io: Io) returns (err: int)
      requires Valid() && size == 0 && pages == []
      modifies this
      ensures Valid() && err == io.Err()
      ensures Slots() == if io.prepare == 0 then NewSlots(self, parent) else []
    {
      if io.prepare != 0 {
        return io.prepare;
      }
      var zero: Slot := Record(0, Zeros(NAME_LEN));
      var dot: Slot := Record(U32(self), Patch(zero.name, 0, [46]));
      var dotdot: Slot := Record(U32(parent), Patch(zero.name, 0, [46, 46]));
      assert dot == EncodeEntry([46], self);
      assert dotdot == EncodeEntry([46, 46], parent);
      var page: seq<Slot> := [dot, dotdot] + seq(62, (_: nat) => zero);
      pages := [page];
      size := 2 * 64;
      return io.commit;
    }

    // -------------------------------------------------------------- listing

    /** The outer loop of the listing, from slot `from` on: what is emitted, and the slot it stops at. */
    method ReadPages(from: nat, budget: nat) returns (out: seq<Entry>, k: nat)
      requires Valid() && from < |Slots()|
      ensures k == StopAt(View(Slots()), from, budget)
      ensures out == Emitted(View(Slots()), from, k)
    {
      ghost var view := View(Slots());
      var npages, n, left := DirPages(), from / 64, budget;
      out, k := [], from;
      while n < npages
        invariant n <= npages && from <= k <= |view|
        invariant if n < npages then 64 * n <= k < 64 * n + 64 && k < |view| else k == |view|
        invariant out == Emitted(view, from, k)
        invariant StopAt(view, from, budget) == StopAt(view, k, left)
      {
        ghost var c := PageExtent(n);
        PageShown(n, c);
        var stopped;
        out, k, left, stopped := ReadPage(pages[n], 64 * n, k, LastByte(n), left, out, view, c, from);
        if stopped {
          return;
        }
        n := n + 1;
      }
    }

    /** The listing: emitted entries and the new position. The emitter takes `budget` entries. */
    method ReadDir(pos: nat, budget: nat) returns (out: seq<Entry>, pos': nat)
      requires Valid()
      ensures (out, pos') == Readdir(Slots(), pos, budget)
    {
      out, pos' := [], RoundUp(pos, 64);
      if pos' >= size {
        return;
      }
      StartOfListing(pos);
      var k;
      out, k := ReadPages(pos' / 64, budget);
      pos' := 64 * k;
    }

    /** Where a listing call starts: on a slot boundary of a page of the directory. */
    lemma StartOfListing(pos: nat)
      requires Valid() && RoundUp(pos, 64) < size
      ensures var a := RoundUp(pos, 64);
              a == 64 * (a / 64) && a / 64 < size / 64
    {
      RoundUpIsLeastMultiple(pos, 64);
    }
  }

  /** Copying the name and zeroing the rest leaves nothing of the old field. */
  lemma {:induction false} BuiltField(field: seq<Byte>, name: seq<Byte>)
    requires |field| == NAME_LEN && |name| <= NAME_LEN
    ensures Patch(Patch(field, 0, name), |name|, Zeros(NAME_LEN - |name|)) == name + Zeros(NAME_LEN - |name|)
  {
  }
}
