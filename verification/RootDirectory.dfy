/**
 The root directory's block: the formatter writes three records into whatever the block held, and
 the kernel reads the first two of them as slots.
 */
module RootDirectory {
  import opened Numbers
  import opened Endian
  import opened DirectoryEntries

  /** A 32-bit number in the native order of a little-endian machine. */
  function GetLe32(s: seq<Byte>): (r: nat)
    requires |s| == 4
    ensures r < TWO_32
  {
    (s[0] as int) + 0x100 * (s[1] as int) + 0x1_0000 * (s[2] as int) + 0x100_0000 * (s[3] as int)
  }

  /** Slot `k` of a directory block as the kernel reads it. */
  function SlotIn(block: seq<Byte>, k: nat): (r: Slot)
    requires 64 * k + 64 <= |block|
  {
    Record(GetLe32(block[64 * k..64 * k + 4]), block[64 * k + 4..64 * k + 64])
  }

  /** What the kernel makes of the big-endian 1 in the dot entries. */
  const DOT_NUMBER: nat := 0x100_0000

  const BADBLOCKS: seq<Byte> := [46, 98, 97, 100, 98, 108, 111, 99, 107, 115, 0]

  /** The bytes that the formatter stores: numbers in network order, and names up to their NUL. */
  predicate RootBytes(block: seq<Byte>) {
    && |block| >= 192
    && HoldsEntry(block, 0, 1, [46, 0]) && HoldsEntry(block, 64, 1, [46, 46, 0]) && HoldsEntry(block, 128, 2, BADBLOCKS)
  }

  /** One record starts with this number and this string. */
  predicate HoldsEntry(block: seq<Byte>, at: nat, ino: nat, name: seq<Byte>) {
    at + 4 + |name| <= |block| && block[at..at + 4] == PutBe32(ino) && block[at + 4..at + 4 + |name|] == name
  }

  /** One record: the number, and a string copied with its NUL. */
  method WriteEntry(buf: array<Byte>, at: nat, ino: nat, name: seq<Byte>)
    requires at + 4 + |name| <= buf.Length
    modifies buf
    ensures buf[..] == Patch(old(buf[..]), at, PutBe32(ino) + name)
  {
    ghost var was := buf[..];
    Copy(buf, at, PutBe32(ino));
    Copy(buf, at + 4, name);
    assert Patch(Patch(was, at, PutBe32(ino)), at + 4, name) == Patch(was, at, PutBe32(ino) + name);
  }

  lemma {:induction false} EntryWritten(s: seq<Byte>, at: nat, ino: nat, name: seq<Byte>)
    requires at + 4 + |name| <= |s|
    ensures HoldsEntry(Patch(s, at, PutBe32(ino) + name), at, ino, name)
  {
    var t, src := Patch(s, at, PutBe32(ino) + name), PutBe32(ino) + name;
    assert t[at..at + |src|] == src;
    assert t[at..at + 4] == src[..4] && t[at + 4..at + |src|] == src[4..];
  }

  lemma {:induction false} EntryKept(s: seq<Byte>, at: nat, ino: nat, name: seq<Byte>, other: nat, src: seq<Byte>)
    requires HoldsEntry(s, at, ino, name) && at + 4 + |name| <= other && other + |src| <= |s|
    ensures HoldsEntry(Patch(s, other, src), at, ino, name)
  {
    PatchElsewhere(s, other, src, at, at + 4);
    PatchElsewhere(s, other, src, at + 4, at + 4 + |name|);
  }

  /** A block with the three records stored in it. */
  function RootPatched(s: seq<Byte>): (r: seq<Byte>)
    requires |s| >= 192
    ensures |r| == |s|
    ensures forall k: nat :: k < |s| && !(k < 6 || 64 <= k < 71 || 128 <= k < 143) ==> r[k] == s[k]
  {
    var one := Patch(s, 0, PutBe32(1) + [46, 0]);
    var two := Patch(one, 64, PutBe32(1) + [46, 46, 0]);
    Patch(two, 128, PutBe32(2) + BADBLOCKS)
  }

  /** The stores of the formatter. Bytes after a name's NUL stay as they were. */
  method WriteRootDir(buf: array<Byte>)
    requires buf.Length >= 192
    modifies buf
    ensures RootBytes(buf[..])
    ensures buf[..] == RootPatched(old(buf[..]))
  {
    ghost var a := buf[..];
    WriteEntry(buf, 0, 1, [46, 0]);
    EntryWritten(a, 0, 1, [46, 0]);
    ghost var b := buf[..];
    WriteEntry(buf, 64, 1, [46, 46, 0]);
    EntryWritten(b, 64, 1, [46, 46, 0]);
    EntryKept(b, 0, 1, [46, 0], 64, PutBe32(1) + [46, 46, 0]);
    ghost var c := buf[..];
    WriteEntry(buf, 128, 2, BADBLOCKS);
    EntryWritten(c, 128, 2, BADBLOCKS);
    EntryKept(c, 0, 1, [46, 0], 128, PutBe32(2) + BADBLOCKS);
    EntryKept(c, 64, 1, [46, 46, 0], 128, PutBe32(2) + BADBLOCKS);
  }

  /** Whatever the block held before, the kernel sees the two dot entries, both with the same odd number. */
  lemma {:induction false} RootShowsDots(block: seq<Byte>)
    requires RootBytes(block)
    ensures Represents([SlotIn(block, 0), SlotIn(block, 1)], NewEntries(DOT_NUMBER, DOT_NUMBER))
  {
    NumberInOtherOrder();
    ShownName(block, 0, [46]);
    ShownName(block, 1, [46, 46]);
  }

  /** The third record, past the size of the directory: `.badblocks`, with the number 2 byte-swapped. */
  lemma {:induction false} RootHoldsBadBlocks(block: seq<Byte>)
    requires RootBytes(block)
    ensures DecodeEntry(SlotIn(block, 2)) == Entry([46, 98, 97, 100, 98, 108, 111, 99, 107, 115], 0x200_0000)
  {
    assert GetLe32(PutBe32(2)) == 0x200_0000;
    ShownName(block, 2, [46, 98, 97, 100, 98, 108, 111, 99, 107, 115]);
  }

  lemma {:induction false} NumberInOtherOrder()
    ensures GetLe32(PutBe32(1)) == DOT_NUMBER
  {
  }

  lemma {:induction false} ShownName(block: seq<Byte>, k: nat, name: seq<Byte>)
    requires 64 * k + 64 <= |block| && |name| < NAME_LEN && forall i: nat :: i < |name| ==> name[i] != 0
    requires block[64 * k + 4..64 * k + 4 + |name| + 1] == name + [0]
    ensures DecodeEntry(SlotIn(block, k)) == Entry(name, GetLe32(block[64 * k..64 * k + 4]))
  {
    var s := SlotIn(block, k);
    var got := block[64 * k + 4..64 * k + 4 + |name| + 1];
    assert forall i: nat :: i <= |name| ==> s.name[i] == got[i] == (name + [0])[i];
    NameLenIs(s, |name|);
    assert s.name[..|name|] == name;
  }
}
