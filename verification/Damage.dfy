/**
 What can damage a volume: storing a block where a mount reads, and filling a pointer without marking
 its inode. Both are stated exactly, by conditions that are known before the operation.
 */
module Damage {
  import opened Endian
  import opened Layout
  import opened Metadata
  import opened FileStore
  import opened Persistence

  // ---------------------------------------------------------------- storing a block

  /** Every live inode whose record lies in this block is dirty. */
  predicate ResidentsDirty(sb: Super, s: State, b: int)
    requires Shaped(sb, s)
  {
    forall ino :: ino in s.ptrs && sb.InodeBlock(ino) == b ==> ino in s.dirtyInodes
  }

  /**
   What is stored in this block is not read back: it is no metadata, or the block is written over
   before the next mount.
   */
  predicate SafeTarget(sb: Super, s: State, b: int, held: bool)
    requires Shaped(sb, s)
  {
    if b < 0 || b >= sb.MetaBlocks() then true
    else if b == 0 then held
    else if b < InodeMapStart(sb) then b - 1 in s.dirtyMap
    else if b < InodeMapStart(sb) + sb.inodeMapBlocks then b - InodeMapStart(sb) in s.dirtyInodeMap
    else ResidentsDirty(sb, s, b)
  }

  /** A device that differs in one block, which is not a clean block of the map. */
  lemma {:induction false} StoreKeepsMap(disk: Disk, now: Disk, size: nat, start: nat, count: nat, bits: seq<bool>,
                                         dirty: set<nat>, b: int, data: Data)
    requires size > 0 && |bits| == count * (8 * size) && MapKept(disk, size, start, count, bits, dirty)
    requires now == disk[b := data] && (!(start <= b < start + count) || b - start in dirty)
    ensures MapKept(now, size, start, count, bits, dirty)
  {
    forall i: nat | i < count
      ensures BlockKept(now, size, start, count, bits, dirty, i)
    {
      assert BlockKept(disk, size, start, count, bits, dirty, i);
      if b != start + i {
        OtherBlockSame(disk, size, b, data, start + i);
      }
    }
  }

  lemma {:induction false} StoreKeepsInodes(sb: Super, s: State, b: int, data: Data)
    requires Shaped(sb, s) && InodesKept(sb, s) && (IsTableBlock(sb, b) ==> ResidentsDirty(sb, s, b))
    ensures InodesKept(sb, Stored(sb, s, b, data))
  {
    var t := Stored(sb, s, b, data);
    forall ino: nat | ino in t.ptrs
      ensures InodeKept(sb, t, ino)
    {
      assert InodeKept(sb, s, ino);
      assert Whole(t, ino) == Whole(s, ino);
      if sb.InodeBlock(ino) != b {
        OtherBlockSame(s.disk, sb.BlockSize(), b, data, sb.InodeBlock(ino));
      }
    }
  }

  /** A store into a safe block loses nothing, whatever is stored. */
  lemma {:induction false} SafeStoreKeeps(sb: Super, s: State, b: int, data: Data, held: bool)
    requires Shaped(sb, s) && Intact(sb, s, held) && SafeTarget(sb, s, b, held)
    ensures Intact(sb, Stored(sb, s, b, data), held)
  {
    var size := sb.BlockSize();
    var now := s.disk[b := data];
    StoreKeepsMap(s.disk, now, size, 1, sb.zoneMapBlocks, s.bits, s.dirtyMap, b, data);
    StoreKeepsMap(s.disk, now, size, InodeMapStart(sb), sb.inodeMapBlocks, s.inodeBits, s.dirtyInodeMap, b, data);
    StoreKeepsInodes(sb, s, b, data);
    if b != 0 {
      OtherBlockSame(s.disk, size, b, data, 0);
    }
  }

  // ---------------------------------------------------------------- contents that do damage

  /** A block of one byte over and over. */
  function Filled(size: nat, v: Byte): (r: Data)
    ensures |r| == size && forall k: nat :: k < size ==> r[k] == v
  {
    seq(size, (_: nat) => v)
  }

  lemma {:induction false} FilledBits(size: nat, v: bool)
    requires size > 0
    ensures Unpack(Filled(size, if v then 255 else 0))[1] == v
  {
    assert Bit(255, 1) by { assert Bit(127, 0); }
    assert !Bit(0, 1) by { assert !Bit(0, 0); }
  }

  /** Contents that contradict bit 1 of a clean map block. */
  lemma {:induction false} MapIsDamaged(disk: Disk, size: nat, start: nat, count: nat, bits: seq<bool>,
                                        dirty: set<nat>, b: int)
    returns (data: Data)
    requires size > 0 && |bits| == count * (8 * size) && start <= b < start + count && b - start !in dirty
    ensures !MapKept(disk[b := data], size, start, count, bits, dirty)
  {
    var i := b - start;
    var seg := Segment(bits, 8 * size, count, i);
    var v := !seg[1];
    data := Filled(size, if v then 255 else 0);
    FilledBits(size, v);
    assert BlockOf(disk[b := data], size, start + i) == data;
    assert LoadedBlock(disk[b := data], size, start, i)[1] == v;
    assert !BlockKept(disk[b := data], size, start, count, bits, dirty, i);
  }

  lemma {:induction false} ZeroWords(s: seq<Byte>, at: nat)
    requires at + 4 <= |s| && forall k: nat :: k < |s| ==> s[k] == 0
    ensures GetBe32(s[at..at + 4]) == 0
  {
  }

  /** A block of zeros holds no inode. */
  lemma {:induction false} RecordIsDamaged(sb: Super, s: State, b: int, ino: nat)
    requires Shaped(sb, s) && ino in s.ptrs && sb.InodeBlock(ino) == b && ino !in s.dirtyInodes
    ensures !InodesKept(sb, Stored(sb, s, b, Filled(sb.BlockSize(), 0)))
  {
    var t := Stored(sb, s, b, Filled(sb.BlockSize(), 0));
    var rec := RecordOf(sb, t.disk, sb.BlockSize(), ino);
    assert forall k: nat :: k < 64 ==> rec[k] == 0;
    ZeroWords(rec, 52);
    assert Loaded(sb, t.disk, sb.BlockSize(), ino).mode == 0;
    assert !InodeKept(sb, t, ino);
  }

  /** A block of zeros is no superblock. */
  lemma {:induction false} SuperIsDamaged(sb: Super, s: State)
    requires Shaped(sb, s)
    ensures !SuperKept(sb, Stored(sb, s, 0, Filled(sb.BlockSize(), 0)), false)
    ensures SuperWord(BlockOf(s.disk[0 := Filled(sb.BlockSize(), 0)], sb.BlockSize(), 0), 0) == 0
  {
    var image := BlockOf(s.disk[0 := Filled(sb.BlockSize(), 0)], sb.BlockSize(), 0);
    ZeroWords(image, 4);
    ZeroWords(image, 0);
    assert DecodeSuper(image, 0).zoneSize == 0;
  }

  /** An unsafe store can be one that does damage. */
  lemma {:induction false} UnsafeStoreHarms(sb: Super, s: State, b: int, held: bool) returns (data: Data)
    requires Shaped(sb, s) && !SafeTarget(sb, s, b, held)
    ensures !Intact(sb, Stored(sb, s, b, data), held)
  {
    data := Filled(sb.BlockSize(), 0);
    if b == 0 {
      SuperIsDamaged(sb, s);
    } else if b < InodeMapStart(sb) {
      data := MapIsDamaged(s.disk, sb.BlockSize(), 1, sb.zoneMapBlocks, s.bits, s.dirtyMap, b);
    } else if b < InodeMapStart(sb) + sb.inodeMapBlocks {
      data := MapIsDamaged(s.disk, sb.BlockSize(), InodeMapStart(sb), sb.inodeMapBlocks,
                           s.inodeBits, s.dirtyInodeMap, b);
    } else {
      var ino :| ino in s.ptrs && sb.InodeBlock(ino) == b && ino !in s.dirtyInodes;
      RecordIsDamaged(sb, s, b, ino);
    }
  }

  /** Storing a block does no damage, whatever is stored, exactly when its target is safe. */
  lemma {:induction false} StoreIsSafeWhen(sb: Super, s: State, b: int, held: bool)
    requires Shaped(sb, s) && Intact(sb, s, held)
    ensures (forall data: Data :: Intact(sb, Stored(sb, s, b, data), held)) <==> SafeTarget(sb, s, b, held)
  {
    if SafeTarget(sb, s, b, held) {
      forall data: Data
        ensures Intact(sb, Stored(sb, s, b, data), held)
      {
        SafeStoreKeeps(sb, s, b, data, held);
      }
    } else {
      var data := UnsafeStoreHarms(sb, s, b, held);
    }
  }
}
