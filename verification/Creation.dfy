/**
 Which inode numbers can be used, and what a run of creations makes: on a formatted device the numbers
 follow one another from 2 on, and each inode exists with the fields it was created with.
 */
module Creation {
  import Numbers
  import opened Metadata
  import opened FirstFit
  import opened Layout
  import opened FileStore
  import WholeSystem

  // ---------------------------------------------------------------- numbers

  /** A number can be used exactly when its record, at the kernel's address, lies in one block of the table. */
  lemma {:induction false} NumberIsUsableWhen(c: Config, n: nat)
    requires c.Accepted()
    ensures Usable(Mounted(c, 1), n) <==>
            0 < n && 64 * (n % 64) + 64 <= c.BlockSize() && n / 64 < c.InodeEntryBlocks()
  {
    AcceptedSizes(c);
    WholeSystem.FormattedGeometry(c);
  }

  /** For zone sizes of at least 4096 the numbers that the inode map leaves free are those that can be used. */
  lemma {:induction false} FreeNumbersAreUsable(c: Config, n: nat)
    requires c.Accepted() && c.zoneSize >= 4096
    ensures Usable(Mounted(c, 1), n) && n < 8 * c.BlockSize() <==> 0 < n < c.NumInodes()
  {
    NumberIsUsableWhen(c, n);
    AcceptedSizes(c);
    assert n == n / 64 * 64 + n % 64;
  }

  /** For smaller ones the kernel leaves out those whose record would lie past the end of its block. */
  lemma {:induction false} SomeNumbersAreNotUsable(c: Config, n: nat)
    requires c.Accepted() && c.zoneSize < 4096 && 0 < n
    ensures !Usable(Mounted(c, 1), n) <==> n % 64 >= c.BlockSize() / 64 || n / 64 >= c.InodeEntryBlocks()
  {
    NumberIsUsableWhen(c, n);
    AcceptedSizes(c);
  }

  /** There is a number for every zone, as far as one map block goes, and less than a block of the table more. */
  lemma {:induction false} NumbersForAllZones(c: Config)
    requires c.Accepted()
    ensures Min(c.NumZones(), 8 * c.BlockSize()) <= c.NumInodes()
    ensures c.NumInodes() < Min(c.NumZones(), 8 * c.BlockSize()) + c.InodesInBlock()
    ensures c.NumInodes() == 8 * c.BlockSize() || c.NumInodes() % c.InodesInBlock() == 0
  {
    AcceptedSizes(c);
    var m, d := Min(c.NumZones(), 8 * c.BlockSize()), c.InodesInBlock();
    Numbers.RoundUpIsLeastMultiple(m, d);
    assert c.InodeEntryBlocks() * d == Numbers.RoundUp(m, d);
  }

  // ---------------------------------------------------------------- runs of creations

  predicate OnlyCreates(ops: seq<Op>) {
    forall i: nat :: i < |ops| ==> ops[i].Create?
  }

  function Least(a: nat, b: nat): (r: nat) {
    if a <= b then a else b
  }

  /** An inode with these fields and no zone. */
  predicate MadeWith(s: State, j: nat, attrs: Attrs) {
    j in s.ptrs && s.ptrs[j] == [0, 0, 0, 0, 0, 0, 0, 0, 0] && j in s.attrs && s.attrs[j] == attrs
  }

  /** After `n` creations from a map that is free from `lo` to `hi`. */
  ghost predicate Populated(sb: Super, s0: State, s: State, ops: seq<Op>, n: nat, lo: nat, hi: nat)
    requires n <= |ops| && OnlyCreates(ops)
  {
    && s.status.Up? && Shape(s.inodeBits, Least(lo + n, hi), hi)
    && (forall j: nat {:trigger j in s.ptrs} ::
          j in s.ptrs <==> j in s0.ptrs || (lo <= j < Least(lo + n, hi) && Usable(sb, j)))
    && (forall j: nat {:trigger s.ptrs[j]} :: j in s0.ptrs ==> j in s.ptrs && s.ptrs[j] == s0.ptrs[j])
    && (forall j: nat {:trigger s.attrs[j]} :: j in s0.attrs ==> j in s.attrs && s.attrs[j] == s0.attrs[j])
    && (forall i: nat {:trigger ops[i]} :: i < n && lo + i < hi && Usable(sb, lo + i) ==>
          MadeWith(s, lo + i, ops[i].attrs))
  }

  /** One creation, by its effect on memory: the least free number gets an inode, if it can be used. */
  lemma {:induction false} CreationIs(sb: Super, s: State, attrs: Attrs, at: nat, hi: nat)
    requires Shaped(sb, s) && s.status.Up? && Shape(s.inodeBits, at, hi) && at !in s.ptrs
    ensures var t := Step(sb, s, Create(attrs)).0;
            && t.status.Up? && Shape(t.inodeBits, if at < hi then at + 1 else at, hi)
            && if at < hi && Usable(sb, at) then
                 t.ptrs == s.ptrs[at := [0, 0, 0, 0, 0, 0, 0, 0, 0]] && t.attrs == s.attrs[at := attrs]
               else t.ptrs == s.ptrs && t.attrs == s.attrs
  {
    ShapeAlloc(s.inodeBits, at, hi);
  }

  lemma {:induction false} OneMore(sb: Super, s0: State, s: State, t: State, ops: seq<Op>, n: nat, lo: nat, hi: nat)
    requires n < |ops| && OnlyCreates(ops) && lo <= hi && Populated(sb, s0, s, ops, n, lo, hi)
    requires var at := Least(lo + n, hi);
             && t.status.Up? && Shape(t.inodeBits, if at < hi then at + 1 else at, hi)
             && if at < hi && Usable(sb, at) then
                  t.ptrs == s.ptrs[at := [0, 0, 0, 0, 0, 0, 0, 0, 0]] && t.attrs == s.attrs[at := ops[n].attrs]
                else t.ptrs == s.ptrs && t.attrs == s.attrs
    requires forall j: nat :: lo <= j ==> j !in s0.ptrs && j !in s0.attrs
    ensures Populated(sb, s0, t, ops, n + 1, lo, hi)
  {
  }

  lemma {:induction false} Creations(sb: Super, ss: seq<State>, ops: seq<Op>, n: nat, lo: nat, hi: nat)
    requires IsRun(sb, ss, ops) && OnlyCreates(ops) && n <= |ops| && ss[0].status.Up?
    requires Shape(ss[0].inodeBits, lo, hi) && forall j: nat :: lo <= j ==> j !in ss[0].ptrs && j !in ss[0].attrs
    ensures Populated(sb, ss[0], ss[n], ops, n, lo, hi)
  {
    if n > 0 {
      Creations(sb, ss, ops, n - 1, lo, hi);
      assert StepAt(sb, ss, ops, n - 1);
      CreationIs(sb, ss[n - 1], ops[n - 1].attrs, Least(lo + (n - 1), hi), hi);
      OneMore(sb, ss[0], ss[n - 1], ss[n], ops, n - 1, lo, hi);
    }
  }

  lemma {:induction false} AllUsable(c: Config)
    requires c.Accepted() && c.zoneSize >= 4096
    ensures forall j: nat {:trigger Usable(Mounted(c, 1), j)} :: 0 < j < c.NumInodes() ==> Usable(Mounted(c, 1), j)
  {
    forall j: nat | 0 < j < c.NumInodes()
      ensures Usable(Mounted(c, 1), j)
    {
      FreeNumbersAreUsable(c, j);
    }
  }

  /** The inodes of a populated volume when every free number can be used. */
  lemma {:induction false} AllPopulated(sb: Super, s0: State, s: State, ops: seq<Op>, n: nat, hi: nat)
    requires n <= |ops| && OnlyCreates(ops) && 2 <= hi && Populated(sb, s0, s, ops, n, 2, hi)
    requires s0.ptrs.Keys == {1} && forall j: nat {:trigger Usable(sb, j)} :: 0 < j < hi ==> Usable(sb, j)
    ensures forall j: nat {:trigger j in s.ptrs} :: j in s.ptrs <==> 1 <= j <= n + 1 && j < hi
    ensures forall i: nat {:trigger ops[i]} :: i < n && i + 2 < hi ==> MadeWith(s, i + 2, ops[i].attrs)
    ensures n >= hi - 2 ==> Full(s.inodeBits)
  {
    assert 1 in s0.ptrs;
    forall i: nat | i < n && i + 2 < hi
      ensures MadeWith(s, i + 2, ops[i].attrs)
    {
      assert Usable(sb, 2 + i);
    }
  }

  /** A mounted volume that has the root alone. */
  ghost predicate RootOnly(s: State, hi: nat) {
    s.status.Up? && s.ptrs.Keys == {1} && s.attrs.Keys == {1} && Shape(s.inodeBits, 2, hi)
  }

  lemma {:induction false} FormattedIsRootOnly(c: Config, disk: Disk, u: WholeSystem.Owner)
    requires c.Accepted() && WholeSystem.Formatted(c, disk, u)
    ensures RootOnly(WholeSystem.MountedVolume(c, disk), c.NumInodes())
  {
    WholeSystem.MountedRoot(c, disk, u);
  }

  /** `n` creations on such a volume. */
  lemma {:induction false} CreationsAfterRoot(sb: Super, ss: seq<State>, ops: seq<Op>, n: nat, hi: nat)
    requires IsRun(sb, ss, ops) && OnlyCreates(ops) && n <= |ops| && RootOnly(ss[0], hi)
    requires forall j: nat {:trigger Usable(sb, j)} :: 0 < j < hi ==> Usable(sb, j)
    ensures forall j: nat {:trigger j in ss[n].ptrs} :: j in ss[n].ptrs <==> 1 <= j <= n + 1 && j < hi
    ensures forall i: nat {:trigger ops[i]} :: i < n && i + 2 < hi ==> MadeWith(ss[n], i + 2, ops[i].attrs)
    ensures n >= hi - 2 ==> Full(ss[n].inodeBits)
  {
    Creations(sb, ss, ops, n, 2, hi);
    AllPopulated(sb, ss[0], ss[n], ops, n, hi);
  }

  /**
   On a formatted device with zones of at least 4096 bytes, `n` creations leave exactly the inodes from 1 to
   `n + 1`, until the inode map is full; each has the fields that it was created with and no zone.
   */
  lemma {:induction false} FormattedCreations(c: Config, disk: Disk, u: WholeSystem.Owner, ss: seq<State>,
                                              ops: seq<Op>, n: nat)
    requires c.Accepted() && c.zoneSize >= 4096 && WholeSystem.Formatted(c, disk, u)
    requires IsRun(Mounted(c, 1), ss, ops) && ss[0] == WholeSystem.MountedVolume(c, disk)
    requires OnlyCreates(ops) && n <= |ops|
    ensures forall j: nat {:trigger j in ss[n].ptrs} :: j in ss[n].ptrs <==> 1 <= j <= n + 1 && j < c.NumInodes()
    ensures forall i: nat {:trigger ops[i]} :: i < n && i + 2 < c.NumInodes() ==> MadeWith(ss[n], i + 2, ops[i].attrs)
    ensures n >= c.NumInodes() - 2 ==> Full(ss[n].inodeBits)
  {
    FormattedIsRootOnly(c, disk, u);
    AllUsable(c);
    CreationsAfterRoot(Mounted(c, 1), ss, ops, n, c.NumInodes());
  }
}
