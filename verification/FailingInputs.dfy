/**
 One input for each case in which the code does not do what it is for. The exact conditions are
 proved elsewhere; these lemmas show that the failing side of each is inhabited, and what happens there.
 */
module FailingInputs {
  import opened Numbers
  import opened FirstFit
  import opened Endian
  import opened Layout
  import opened InodeTable
  import opened FileStore
  import BitIterator
  import DirectoryEntries
  import Formatter
  import Namespace

  // ---------------------------------------------------------------- files

  /** The tenth zone of a file is mapped to whatever number follows the pointers in memory. */
  lemma {:induction false} PastEndIsMapped(sb: Super, s: State, ino: nat)
    requires Geometry(sb) && NinePointers(s.ptrs) && ino in s.ptrs
    ensures GetBlock(sb, s, ino, 9 * sb.blocksPerZone, sb.BlockSize(), 7) == (s, Mapped(7))
  {
    DivModUnique(9 * sb.blocksPerZone, sb.blocksPerZone, 9, 0);
  }

  // ---------------------------------------------------------------- layout

  /** With zones of 1 GiB the number of zone 8192, which the formatter leaves free, comes back negative. */
  lemma {:induction false} NegativeZone()
    ensures var c := Config(0x4000_0000, 0x2002, 1, 1, 1024);
            && c.Accepted() && 0x2000 < c.NumZones() && Mounted(c, 1).Valid()
            && ZoneNumber(Mounted(c, 1), 0x2000) == Mounted(c, 1).ZoneStart(0x2000) - TWO_32 < 0
  {
    var c := Config(0x4000_0000, 0x2002, 1, 1, 1024);
    PowerOfTwo30();
    var sb := Mounted(c, 1);
    assert c.InodeEntryBlocks() == 129 && sb.MetaBlocks() == 132 && sb.blocksPerZone == 0x4_0000;
    DivModUnique(132 + 0x4_0000, 1024, 256, 132);
    assert sb.DataBase() == 257 * 1024;
    DivModUnique(sb.ZoneStart(0x2000), TWO_32, 0, sb.ZoneStart(0x2000));
  }

  lemma {:induction false} PowerOfTwo30()
    ensures IsPow2(0x4000_0000) && IsPow2(0x20_0000)
  {
    assert Pow2(7) == 128;
    assert Pow2(14) == 128 * Pow2(7);
    assert Pow2(21) == 128 * Pow2(14);
    assert Pow2(28) == 128 * Pow2(21);
    assert Pow2(30) == 0x4000_0000;
  }

  /** With 512-byte zones the two programs put inode 8 into different blocks. */
  lemma {:induction false} InodeEightMoves()
    ensures var c := Config(512, 100, 1, 1, 1024);
            c.InodeBlock(8) == 4 && Mounted(c, 1).InodeBlock(8) == 3
  {
  }

  /** A two-block zone map is mounted as one block. */
  lemma {:induction false} MapIsCutShort(root: nat, image: seq<Byte>)
    requires HoldsWords(image, FormatWords(Config(4096, 100, 1, 2, 1024), root))
    ensures DecodeSuper(image, 0).zoneMapBlocks == 1
  {
    var w := FormatWords(Config(4096, 100, 1, 2, 1024), root);
    assert SuperWord(image, 5) == U32(w[5]);
  }

  /** With 32768 zones of 128 KiB the device check asks for 0 bytes. */
  lemma {:induction false} CheckAsksForNothing()
    ensures CheckedBytes(Config(131072, 32768, 1, 1, 1024)) == 0
  {
    DivModUnique(TWO_32, TWO_32, 1, 0);
  }

  /** With 32768 zones of 2 MiB the formatter's zone 1 and the kernel's are 1024 blocks apart. */
  lemma {:induction false} ZoneOneMoves()
    ensures var c := Config(0x20_0000, 32768, 1, 1, 1024);
            c.Accepted() && c.RootBlock() == 1536 && Mounted(c, 1).Valid() && Mounted(c, 1).ZoneStart(1) == 2560
  {
    var c := Config(0x20_0000, 32768, 1, 1, 1024);
    PowerOfTwo30();
    assert c.InodeEntryBlocks() == 512 && c.MetaBlocks() == 515;
    assert RoundUp(515, 1024) == 1024 && RoundUp(1027, 1024) == 2048;
  }

  /** 0 passes the power-of-two test and is none. */
  lemma {:induction false} ZeroIsNoPower()
    ensures !IsPow2(0)
  {
  }

  // ---------------------------------------------------------------- the formatter

  /** One step back from the first bit of a byte: the true position and where the iterator lands. */
  lemma {:induction false} StepBackMisses()
    ensures var it := BitIterator.Iter(5, 0);
            it.Decrement() == BitIterator.Iter(4, 7) && it.Advance(-1) == BitIterator.Iter(5 + 0x1fff_ffff_ffff_ffff, 7)
  {
    DivModUnique(TWO_64 - 1, 8, 0x1fff_ffff_ffff_ffff, 7);
  }

  /** Two zones are asked for, the first free run has one: whatever follows, the search never gets to it. */
  lemma {:induction false} ShortRunDiverges(c: Config, span: seq<bool>)
    requires c.Accepted() && |span| == 64 * c.BlockSize() && span[0] && !span[1] && span[2]
    ensures Formatter.AllocateRun(span, 2) == (span, Formatter.Diverges)
  {
    assert FirstFrom(span, 1, false) == 1;
    assert FirstFrom(span, 2, true) == 2;
    assert FirstFrom(span, 1, true) == 2;
  }

  /** As many zones as the map has bits: the search for the end of the root's run leaves the map. */
  lemma {:induction false} FullMapIsOverrun(c: Config, span: seq<bool>)
    requires c.Accepted() && c.NumZones() == 8 * c.BlockSize() && |span| == 64 * c.BlockSize()
    requires Shape(span[..8 * c.BlockSize()], 1, c.NumZones())
    ensures Formatter.RunEnd(span) >= 8 * c.BlockSize()
  {
    Formatter.RootScanStaysInsideWhen(c, span);
  }

  // ---------------------------------------------------------------- directories and names

  /** An empty slot before the entry: the same name is entered a second time. */
  lemma {:induction false} HiddenDuplicate()
    ensures var hole, a := DirectoryEntries.EncodeEntry([98], 0), DirectoryEntries.EncodeEntry([97], 5);
            DirectoryEntries.AddLink([hole, a], [97], 6, DirectoryEntries.Io(0, 0)) ==
            ([DirectoryEntries.EncodeEntry([97], 6), a], 0)
  {
    var hole, a := DirectoryEntries.EncodeEntry([98], 0), DirectoryEntries.EncodeEntry([97], 5);
    var again := DirectoryEntries.EncodeEntry([97], 6);
    assert DirectoryEntries.PutSlot([hole, a], 0, again) == [again, a];
  }

  const NO_ERROR: DirectoryEntries.Io := DirectoryEntries.Io(0, 0)

  /** A mkdir whose entry cannot be committed: it fails, and the parent keeps an entry for a dead inode. */
  lemma {:induction false} FailedCommitLeavesEntry(bits: seq<bool>, hi: nat, dot: nat)
    requires Shape(bits, 2, hi) && 2 < hi <= |bits| <= TWO_32 && 0 < dot < TWO_32
    ensures var s := Namespace.State(bits, map[1 := DirectoryEntries.NewEntries(dot, dot)], map[1 := 1]);
            var op := Namespace.MkDir(1, [97], Namespace.Env(false, NO_ERROR, DirectoryEntries.Io(0, -5)));
            && Namespace.Coherent(s) && Namespace.GoodOp(s, op)
            && var (t, outcome) := Namespace.Step(s, op);
            && outcome == Namespace.Done(-5) && t.links == s.links
            && t.dirs == map[1 := DirectoryEntries.NewEntries(dot, dot) + [DirectoryEntries.Entry([97], 2)]]
  {
    var es := DirectoryEntries.NewEntries(dot, dot);
    var s := Namespace.State(bits, map[1 := es], map[1 := 1]);
    assert bits[1];
    ShapeAlloc(bits, 2, hi);
    assert es[0].name != [97] && es[1].name[0] == 46;
    assert !DirectoryEntries.HasName(es, [97]);
  }

  /** On a full inode map the creation of a file reads through a null pointer. */
  lemma {:induction false} CreateOnFullMap()
    ensures var s := Namespace.State([true, true], map[1 := DirectoryEntries.NewEntries(1, 1)], map[1 := 1]);
            var op := Namespace.MkNod(1, [97], true, true, Namespace.Env(false, NO_ERROR, NO_ERROR));
            Namespace.Coherent(s) && Namespace.GoodOp(s, op) && Namespace.Step(s, op).1 == Namespace.Oops
  {
    assert Full([true, true]);
  }

  /** A file of user 65536 belongs to the overflow user after a remount. */
  lemma {:induction false} OwnerIsLost()
    ensures Decode(Encode(Inode([0, 0, 0, 0, 0, 0, 0, 0, 0], 0, 0, 0, 0x1_0000, 0x81A4, 0))).uid == 65534
  {
    DecodeEncode(Inode([0, 0, 0, 0, 0, 0, 0, 0, 0], 0, 0, 0, 0x1_0000, 0x81A4, 0));
  }
}
