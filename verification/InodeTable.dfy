/**
 The 64-byte big-endian inode record, and the kernel's write-back and read of one record in the
 block that holds it.
 */
module InodeTable {
  import opened Numbers
  import opened Endian
  import opened Layout

  /** The fields of an in-memory inode that are written back. */
  datatype Inode = Inode(zones: seq<int>, blocks: int, size: int, gid: int, uid: int, mode: int, ctime: int) {

    /** The ranges of the kernel's own types. */
    predicate WellTyped() {
      && |zones| == POINTERS && (forall k: nat :: k < POINTERS ==> 0 <= zones[k] < TWO_64)
      && 0 <= blocks < TWO_64 && -TWO_63 <= size < TWO_63 && -TWO_63 <= ctime < TWO_63
      && 0 <= gid < TWO_32 && 0 <= uid < TWO_32 && 0 <= mode < 0x1_0000
    }

    /** Pointers, block count and size of 32 bits: what a raw record keeps. */
    predicate WordsFit() {
      && |zones| == POINTERS && (forall k: nat :: k < POINTERS ==> 0 <= zones[k] < TWO_32)
      && 0 <= blocks < TWO_32 && 0 <= size < TWO_32
    }

    /** What fits the record: 32-bit pointers, block count and size, and 16-bit owners. */
    predicate Fits() {
      && |zones| == POINTERS && (forall k: nat :: k < POINTERS ==> 0 <= zones[k] < TWO_32)
      && 0 <= blocks < TWO_32 && 0 <= size < TWO_32 && gid < 0x1_0000 && uid < 0x1_0000
    }
  }

  /** Ids above 16 bits are replaced by the overflow id. */
  function LowId(id: int): (r: int) {
    if id < 0x1_0000 then id else 65534
  }

  function ZoneBytes(zones: seq<int>): (s: seq<Byte>)
    ensures |s| == 4 * |zones|
  {
    if zones == [] then [] else ZoneBytes(zones[..|zones| - 1]) + PutBe32(zones[|zones| - 1])
  }

  /** Everything after the pointers. */
  function TailBytes(i: Inode): (s: seq<Byte>)
    ensures |s| == 28
  {
    PutBe32(i.blocks) + PutBe32(i.size) + PutBe32(i.gid) + PutBe32(i.uid) + PutBe32(i.mode) + PutBe64(i.ctime)
  }

  /** The record with the owners as they are, which is what the formatter writes. */
  function RawRecord(i: Inode): (s: seq<Byte>)
    requires |i.zones| == POINTERS
    ensures |s| == 64
  {
    ZoneBytes(i.zones) + TailBytes(i)
  }

  function Lowered(i: Inode): (r: Inode) {
    i.(gid := LowId(i.gid), uid := LowId(i.uid))
  }

  /** The record that the kernel writes. */
  function Encode(i: Inode): (s: seq<Byte>)
    requires |i.zones| == POINTERS
    ensures |s| == 64
  {
    RawRecord(Lowered(i))
  }

  function Word(s: seq<Byte>, k: nat): (r: nat)
    requires |s| == 64 && k < 14
  {
    GetBe32(s[4 * k..4 * k + 4])
  }

  function Decode(s: seq<Byte>): (i: Inode)
    requires |s| == 64
    ensures |i.zones| == POINTERS
  {
    Inode(seq(POINTERS, (k: nat) requires k < POINTERS => Word(s, k)),
          Word(s, 9), Word(s, 10), Word(s, 11), Word(s, 12), Word(s, 13) % 0x1_0000, Int64(GetBe64(s[56..64])))
  }

  lemma {:induction false} ZoneBytesAt(zones: seq<int>, k: nat)
    requires k < |zones|
    ensures ZoneBytes(zones)[4 * k..4 * k + 4] == PutBe32(zones[k])
  {
    var n := |zones| - 1;
    if k < n {
      ZoneBytesAt(zones[..n], k);
      assert ZoneBytes(zones)[4 * k..4 * k + 4] == ZoneBytes(zones[..n])[4 * k..4 * k + 4];
    }
  }

  lemma {:induction false} TailWords(i: Inode)
    requires |i.zones| == POINTERS
    ensures var s := RawRecord(i);
            && s[36..40] == PutBe32(i.blocks) && s[40..44] == PutBe32(i.size)
            && s[44..48] == PutBe32(i.gid) && s[48..52] == PutBe32(i.uid)
            && s[52..56] == PutBe32(i.mode) && s[56..64] == PutBe64(i.ctime)
  {
  }

  /** What a raw record reads back as. */
  function Words(i: Inode): (r: Inode)
    requires |i.zones| == POINTERS
  {
    Inode(seq(POINTERS, (k: nat) requires k < POINTERS => U32(i.zones[k])), U32(i.blocks), U32(i.size),
          i.gid, i.uid, i.mode, i.ctime)
  }

  /** What an inode written by the kernel reads back as. */
  function Restored(i: Inode): (r: Inode)
    requires |i.zones| == POINTERS
  {
    Words(Lowered(i))
  }

  lemma {:induction false} DecodeRaw(i: Inode)
    requires i.WellTyped()
    ensures Decode(RawRecord(i)) == Words(i)
  {
    DecodedZones(i);
    DecodedWords(i);
    DecodedTime(i);
  }

  lemma {:induction false} WordsAre(i: Inode)
    requires i.WordsFit()
    ensures Words(i) == i
  {
    assert forall k: nat :: k < POINTERS ==> Words(i).zones[k] == i.zones[k];
  }

  lemma {:induction false} DecodeEncode(i: Inode)
    requires i.WellTyped()
    ensures Decode(Encode(i)) == Restored(i)
  {
    DecodeRaw(Lowered(i));
  }

  /** What comes back, field by field: low words, overflow owners, and mode and time as they were. */
  lemma {:induction false} ReadBack(i: Inode)
    requires i.WellTyped()
    ensures var r := Decode(Encode(i));
            && r.blocks == i.blocks % 0x1_0000_0000 && r.size == i.size % 0x1_0000_0000
            && r.gid == (if i.gid < 0x1_0000 then i.gid else 65534)
            && r.uid == (if i.uid < 0x1_0000 then i.uid else 65534)
            && r.mode == i.mode && r.ctime == i.ctime
            && forall k: nat :: k < POINTERS ==> r.zones[k] == i.zones[k] % 0x1_0000_0000
  {
    DecodeEncode(i);
    ConversionsWrap(i.blocks);
    ConversionsWrap(i.size);
    forall k: nat | k < POINTERS
      ensures U32(i.zones[k]) == i.zones[k] % 0x1_0000_0000
    {
      ConversionsWrap(i.zones[k]);
    }
  }

  /** Whatever the 64 bytes are, the inode read from them is in the ranges of the kernel's types. */
  lemma {:induction false} DecodedTyped(s: seq<Byte>)
    requires |s| == 64
    ensures Decode(s).WellTyped()
  {
  }

  lemma {:induction false} DecodedWords(i: Inode)
    requires |i.zones| == POINTERS && 0 <= i.gid < TWO_32 && 0 <= i.uid < TWO_32 && 0 <= i.mode < 0x1_0000
    ensures var d := Decode(RawRecord(i));
            && d.blocks == U32(i.blocks) && d.size == U32(i.size)
            && d.gid == i.gid && d.uid == i.uid && d.mode == i.mode
  {
    var s := RawRecord(i);
    TailWords(i);
    WordIs(s, 9, i.blocks);
    WordIs(s, 10, i.size);
    WordIs(s, 11, i.gid);
    WordIs(s, 12, i.uid);
    WordIs(s, 13, i.mode);
    U32Exact(i.gid);
    U32Exact(i.uid);
    U32Exact(i.mode);
  }

  lemma {:induction false} DecodedTime(i: Inode)
    requires |i.zones| == POINTERS && -TWO_63 <= i.ctime < TWO_63
    ensures Decode(RawRecord(i)).ctime == i.ctime
  {
    TailWords(i);
    Be64RoundTrip(i.ctime);
    SignedSeconds(i.ctime);
  }

  lemma U32Exact(x: int)
    ensures U32(x) == x <==> 0 <= x < TWO_32
  {
  }

  lemma WordIs(s: seq<Byte>, k: nat, x: int)
    requires |s| == 64 && k < 14 && s[4 * k..4 * k + 4] == PutBe32(x)
    ensures Word(s, k) == U32(x)
  {
    Be32RoundTrip(x);
  }

  lemma SignedSeconds(x: int)
    requires -TWO_63 <= x < TWO_63
    ensures Int64(U64(x)) == x
  {
  }

  lemma {:induction false} DecodedZones(i: Inode)
    requires |i.zones| == POINTERS
    ensures Decode(RawRecord(i)).zones == Words(i).zones
  {
    var s := RawRecord(i);
    forall k: nat | k < POINTERS
      ensures Word(s, k) == U32(i.zones[k])
    {
      ZoneBytesAt(i.zones, k);
      Be32RoundTrip(i.zones[k]);
      assert s[4 * k..4 * k + 4] == ZoneBytes(i.zones)[4 * k..4 * k + 4];
    }
  }

  /** The record restores an inode exactly when its fields fit it. */
  lemma {:induction false} RoundTripExactWhen(i: Inode)
    requires i.WellTyped()
    ensures Decode(Encode(i)) == i <==> i.Fits()
  {
    DecodeEncode(i);
    RestoredZones(i);
    U32Exact(i.blocks);
    U32Exact(i.size);
  }

  lemma {:induction false} RestoredZones(i: Inode)
    requires |i.zones| == POINTERS
    ensures Restored(i).zones == i.zones <==> forall k: nat :: k < POINTERS ==> 0 <= i.zones[k] < TWO_32
  {
    var z := Restored(i).zones;
    if z == i.zones {
      forall k: nat | k < POINTERS
        ensures 0 <= i.zones[k] < TWO_32
      {
        assert z[k] == U32(i.zones[k]);
      }
    }
  }

  // ---------------------------------------------------------------- in-place update and read

  /** Stores one 32-bit field of the record at `off`. */
  method StoreWord(buf: array<Byte>, at: nat, x: int)
    requires at + 4 <= buf.Length
    modifies buf
    ensures buf[..] == Patch(old(buf[..]), at, PutBe32(x))
  {
    Copy(buf, at, PutBe32(x));
  }

  /** Writing the field before an already written stretch extends the stretch to the left. */
  lemma PatchLeft(s: seq<Byte>, at: nat, x: seq<Byte>, y: seq<Byte>)
    requires at + |x| + |y| <= |s|
    ensures Patch(Patch(s, at + |x|, y), at, x) == Patch(s, at, x + y)
  {
  }

  lemma PatchRight(s: seq<Byte>, at: nat, x: seq<Byte>, y: seq<Byte>)
    requires at + |x| + |y| <= |s|
    ensures Patch(Patch(s, at, x), at + |x|, y) == Patch(s, at, x + y)
  {
  }

  /** Mode and owners. */
  method StoreOwners(buf: array<Byte>, off: nat, i: Inode)
    requires off + 64 <= buf.Length
    modifies buf
    ensures buf[..] == Patch(old(buf[..]), off + 44, PutBe32(i.gid) + (PutBe32(i.uid) + PutBe32(i.mode)))
  {
    ghost var s := buf[..];
    StoreWord(buf, off + 52, i.mode);
    StoreWord(buf, off + 48, i.uid);
    PatchLeft(s, off + 48, PutBe32(i.uid), PutBe32(i.mode));
    StoreWord(buf, off + 44, i.gid);
    PatchLeft(s, off + 44, PutBe32(i.gid), PutBe32(i.uid) + PutBe32(i.mode));
  }

  /** The five words after the pointers. */
  function FiveWords(i: Inode): (s: seq<Byte>)
    ensures |s| == 20
  {
    PutBe32(i.blocks) + (PutBe32(i.size) + (PutBe32(i.gid) + (PutBe32(i.uid) + PutBe32(i.mode))))
  }

  method StoreFiveWords(buf: array<Byte>, off: nat, i: Inode)
    requires off + 64 <= buf.Length
    modifies buf
    ensures buf[..] == Patch(old(buf[..]), off + 36, FiveWords(i))
  {
    ghost var s := buf[..];
    ghost var owners := PutBe32(i.gid) + (PutBe32(i.uid) + PutBe32(i.mode));
    StoreOwners(buf, off, i);
    StoreWord(buf, off + 40, i.size);
    PatchLeft(s, off + 40, PutBe32(i.size), owners);
    StoreWord(buf, off + 36, i.blocks);
    PatchLeft(s, off + 36, PutBe32(i.blocks), PutBe32(i.size) + owners);
  }

  /** The fields after the pointers, in the order in which the source stores them. */
  method StoreTail(buf: array<Byte>, off: nat, i: Inode)
    requires off + 64 <= buf.Length
    modifies buf
    ensures buf[..] == Patch(old(buf[..]), off + 36, TailBytes(i))
  {
    ghost var s := buf[..];
    StoreFiveWords(buf, off, i);
    Copy(buf, off + 56, PutBe64(i.ctime));
    PatchRight(s, off + 36, FiveWords(i), PutBe64(i.ctime));
    assert FiveWords(i) + PutBe64(i.ctime) == TailBytes(i);
  }

  /** Stores all fields of a record: its 64 bytes change and no others. */
  method StoreRecord(buf: array<Byte>, off: nat, i: Inode)
    requires off + 64 <= buf.Length && |i.zones| == POINTERS
    modifies buf
    ensures buf[..] == Patch(old(buf[..]), off, RawRecord(i))
  {
    ghost var s := buf[..];
    StoreTail(buf, off, i);
    StoreZones(buf, off, i.zones);
    PatchLeft(s, off, ZoneBytes(i.zones), TailBytes(i));
  }

  /** Write-back of one inode into the block that holds it: the owners pass through 16 bits. */
  method UpdateInode(buf: array<Byte>, off: nat, i: Inode)
    requires off + 64 <= buf.Length && |i.zones| == POINTERS
    modifies buf
    ensures buf[..] == Patch(old(buf[..]), off, Encode(i))
  {
    StoreRecord(buf, off, Lowered(i));
  }

  /** The loop over the nine pointers. */
  method StoreZones(buf: array<Byte>, off: nat, zones: seq<int>)
    requires off + 64 <= buf.Length && |zones| == POINTERS
    modifies buf
    ensures buf[..] == Patch(old(buf[..]), off, ZoneBytes(zones))
  {
    ghost var t := buf[..];
    var k := 0;
    PatchNothing(t, off);
    while k < POINTERS
      invariant k <= POINTERS
      invariant buf[..] == Patch(t, off, ZoneBytes(zones[..k]))
    {
      StoreWord(buf, off + 4 * k, zones[k]);
      OneMoreZone(t, off, zones, k);
      k := k + 1;
    }
    assert zones[..k] == zones;
  }

  lemma PatchNothing(t: seq<Byte>, off: nat)
    requires off <= |t|
    ensures Patch(t, off, []) == t
  {
  }

  lemma OneMoreZone(t: seq<Byte>, off: nat, zones: seq<int>, k: nat)
    requires k < |zones| && off + 4 * |zones| <= |t|
    ensures Patch(Patch(t, off, ZoneBytes(zones[..k])), off + 4 * k, PutBe32(zones[k])) ==
            Patch(t, off, ZoneBytes(zones[..k + 1]))
  {
    assert zones[..k + 1][..k] == zones[..k];
    PatchRight(t, off, ZoneBytes(zones[..k]), PutBe32(zones[k]));
  }

  lemma SubSlice(t: seq<Byte>, off: nat, a: nat, b: nat)
    requires off + 64 <= |t| && a <= b <= 64
    ensures t[off..off + 64][a..b] == t[off + a..off + b]
  {
    var l, r := t[off..off + 64][a..b], t[off + a..off + b];
    assert |l| == |r|;
    assert forall k: nat :: k < |l| ==> l[k] == t[off + a + k] == r[k];
  }

  /** Reading an inode from its block. */
  method FillInode(buf: array<Byte>, off: nat) returns (i: Inode)
    requires off + 64 <= buf.Length
    ensures i == Decode(buf[off..off + 64])
  {
    ghost var s := buf[off..off + 64];
    var zones: seq<int> := [];
    var k := 0;
    while k < POINTERS
      invariant k <= POINTERS && |zones| == k
      invariant forall m: nat :: m < k ==> zones[m] == Word(s, m)
    {
      var word := ReadWord(buf, off, k);
      zones := zones + [word];
      k := k + 1;
    }
    var blocks := ReadWord(buf, off, 9);
    var size := ReadWord(buf, off, 10);
    var gid := ReadWord(buf, off, 11);
    var uid := ReadWord(buf, off, 12);
    var mode := ReadWord(buf, off, 13);
    SubSlice(buf[..], off, 56, 64);
    i := Inode(zones, blocks, size, gid, uid, mode % 0x1_0000, Int64(GetBe64(buf[off + 56..off + 64])));
    assert zones == Decode(s).zones;
  }

  method ReadWord(buf: array<Byte>, off: nat, k: nat) returns (r: nat)
    requires off + 64 <= buf.Length && k < 14
    ensures r == Word(buf[off..off + 64], k)
  {
    SubSlice(buf[..], off, 4 * k, 4 * k + 4);
    r := GetBe32(buf[off + 4 * k..off + 4 * k + 4]);
  }

  /** The file types that the read path accepts, from the top four bits of the mode. */
  predicate RegularOrDirectory(mode: int) {
    mode / 0x1000 % 16 == 8 || mode / 0x1000 % 16 == 4
  }

  /** Directories and regular files are accepted whatever their permissions, and nothing else is. */
  lemma {:induction false} AcceptedModes(mode: int)
    requires 0 <= mode < 0x1_0000
    ensures RegularOrDirectory(mode) <==> 0x4000 <= mode < 0x5000 || 0x8000 <= mode < 0x9000
  {
    DivModUnique(mode / 0x1000, 16, 0, mode / 0x1000);
  }
}
