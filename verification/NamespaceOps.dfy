/**
 The directory operations as the kernel performs them: link counts raised first, an inode taken
 from the map, directory contents written, and everything undone on the error paths.
 */
module NamespaceOps {
  import opened Options
  import opened FirstFit
  import opened Endian
  import opened DirectoryEntries
  import opened Namespace

  /** What a mkdir returns. */
  function MkDirErr(s: State, dir: nat, name: seq<Byte>, env: Env): (err: int)
    requires dir in s.dirs
  {
    match NewNumber(s, env)
    case None => if env.noMemory then ENOMEM else ENOSPC
    case Some(ino) => PopulateErr(s.dirs[dir], Entry(name, ino), env)
  }

  /** What the middle of mkdir returns, given the holder's entries. */
  function PopulateErr(es: seq<Entry>, e: Entry, env: Env): (err: int) {
    if env.empty.Err() != 0 then env.empty.Err() else Append(es, e, env.link).1
  }

  /** The holder's entries when the middle of mkdir is through: a failing commit leaves the entry. */
  function PopulateLeaves(es: seq<Entry>, e: Entry, env: Env): (r: seq<Entry>) {
    if env.empty.Err() != 0 then es else Append(es, e, env.link).0
  }

  lemma MkDirWithout(s: State, dir: nat, name: seq<Byte>, env: Env)
    requires Coherent(s) && GoodOp(s, MkDir(dir, name, env)) && NewNumber(s, env).None?
    ensures Step(s, MkDir(dir, name, env)) ==
            (State(BitsAfter(s, env), s.dirs, s.links), Done(MkDirErr(s, dir, name, env)))
  {
  }

  lemma MkDirFails(s: State, dir: nat, name: seq<Byte>, env: Env, ino: nat)
    requires Coherent(s) && GoodOp(s, MkDir(dir, name, env)) && NewNumber(s, env) == Some(ino)
    requires MkDirErr(s, dir, name, env) != 0
    ensures Step(s, MkDir(dir, name, env)) ==
            (State(BitsAfter(s, env), s.dirs[dir := PopulateLeaves(s.dirs[dir], Entry(name, ino), env)], s.links),
             Done(MkDirErr(s, dir, name, env)))
  {
    assert s.dirs[dir := s.dirs[dir]] == s.dirs;
  }

  lemma MkDirSucceeds(s: State, dir: nat, name: seq<Byte>, env: Env)
    requires Coherent(s) && GoodOp(s, MkDir(dir, name, env)) && MkDirErr(s, dir, name, env) == 0
    ensures NewNumber(s, env).Some?
    ensures var ino := NewNumber(s, env).value;
            Step(s, MkDir(dir, name, env)) ==
            (State(BitsAfter(s, env), s.dirs[dir := s.dirs[dir] + [Entry(name, ino)]][ino := NewEntries(ino, dir)],
                   s.links[dir := s.links[dir] + 1][ino := 2]), Done(0))
  {
  }

  /** A mknod with a valid device and a regular type, once it has an inode. */
  lemma MkNodNames(s: State, dir: nat, name: seq<Byte>, env: Env, ino: nat)
    requires Coherent(s) && GoodOp(s, MkNod(dir, name, true, true, env)) && NewNumber(s, env) == Some(ino)
    ensures var (es, err) := Append(s.dirs[dir], Entry(name, ino), env.link);
            Step(s, MkNod(dir, name, true, true, env)) ==
            (State(BitsAfter(s, env), s.dirs[dir := es], if err != 0 then s.links else s.links[ino := 1]), Done(err))
  {
    assert s.dirs[dir := s.dirs[dir]] == s.dirs;
  }

  lemma LowerAgain(links: map<nat, int>, dir: nat)
    requires dir in links
    ensures var raised := links[dir := links[dir] + 1];
            raised[dir := raised[dir] - 1] == links
  {
  }

  /** Adding an inode and dropping it again restores the counts. */
  lemma AddAndDrop(links: map<nat, int>, ino: nat)
    requires ino !in links
    ensures links[ino := 1] - {ino} == links && links[ino := 1][ino := 2] == links[ino := 2]
  {
  }

  class Mount {
    /** The inode map as its flat bits; `KernelBitmap` proves that the map buffers implement it. */
    var bits: seq<bool>
    var dirs: map<nat, seq<Entry>>
    var links: map<nat, int>

    ghost function Model(): (s: State)
      reads this
    {
      State(bits, dirs, links)
    }

    constructor (bits: seq<bool>, dirs: map<nat, seq<Entry>>, links: map<nat, int>)
      ensures Model() == State(bits, dirs, links)
    {
      this.bits, this.dirs, this.links := bits, dirs, links;
    }

    /** A new inode has link count 1. */
    method NewInode(env: Env) returns (ino: Option<nat>, err: int)
      requires Coherent(Model())
      modifies this`links, this`bits
      ensures bits == old(BitsAfter(Model(), env))
      ensures ino == old(NewNumber(Model(), env))
      ensures err == if ino.Some? then 0 else if env.noMemory then ENOMEM else ENOSPC
      ensures links == if ino.Some? then old(links)[ino.value := 1] else old(links)
      ensures ino.Some? ==> ino.value !in old(links) && ino.value !in dirs
    {
      if env.noMemory {
        return None, ENOMEM;
      }
      var r := Alloc(bits);
      bits := r.0;
      if r.1.None? || r.1 == Some(0) {
        return None, ENOSPC;
      }
      links := links[r.1.value := 1];
      return r.1, 0;
    }

    /** Adding an entry to a directory, as the directory code does and reports it. */
    method AddEntry(dir: nat, e: Entry, io: Io) returns (err: int)
      requires dir in dirs
      modifies this`dirs
      ensures err == Append(old(dirs)[dir], e, io).1
      ensures dirs == old(dirs)[dir := Append(old(dirs)[dir], e, io).0]
    {
      var r := Append(dirs[dir], e, io);
      err := r.1;
      dirs := dirs[dir := r.0];
    }

    /** The middle of mkdir: second link, dot entries and the entry in the parent; on an error the inode is dropped. */
    method Populate(ino: nat, dir: nat, name: seq<Byte>, env: Env) returns (err: int)
      requires dir in dirs && ino !in dirs && ino in links && links[ino] == 1
      modifies this`dirs, this`links
      ensures err == PopulateErr(old(dirs)[dir], Entry(name, ino), env)
      ensures dirs == if err == 0 then
                        old(dirs)[dir := old(dirs)[dir] + [Entry(name, ino)]][ino := NewEntries(ino, dir)]
                      else old(dirs)[dir := PopulateLeaves(old(dirs)[dir], Entry(name, ino), env)]
      ensures links == if err == 0 then old(links)[ino := 2] else old(links) - {ino}
    {
      links := links[ino := links[ino] + 1];
      if env.empty.prepare == 0 {
        dirs := dirs[ino := NewEntries(ino, dir)];
      }
      err := env.empty.Err();
      if err == 0 {
        err := AddEntry(dir, Entry(name, ino), env.link);
      }
      if err != 0 {
        links := links[ino := links[ino] - 1];
        links := links[ino := links[ino] - 1];
        DropInode(ino);
      }
    }

    method Mkdir(dir: nat, name: seq<Byte>, env: Env) returns (r: Outcome)
      requires Coherent(Model()) && GoodOp(Model(), MkDir(dir, name, env))
      modifies this
      ensures Model() == old(Step(Model(), MkDir(dir, name, env)).0)
      ensures r == old(Step(Model(), MkDir(dir, name, env)).1)
    {
      ghost var s := Model();
      links := links[dir := links[dir] + 1];
      ghost var raised := links;
      LowerAgain(s.links, dir);
      var number, err := NewInode(env);
      if number.Some? {
        AddAndDrop(raised, number.value);
        err := Populate(number.value, dir, name, env);
      }
      if err == 0 {
        MkDirSucceeds(s, dir, name, env);
        return Done(0);
      }
      assert links == raised;
      links := links[dir := links[dir] - 1];
      if number.Some? {
        MkDirFails(s, dir, name, env, number.value);
      } else {
        MkDirWithout(s, dir, name, env);
      }
      r := Done(err);
    }

    /** The last reference to an inode without links goes away. */
    method DropInode(ino: nat)
      requires ino in links && links[ino] == 0
      modifies this`dirs, this`links
      ensures links == old(links) - {ino} && dirs == old(dirs) - {ino}
    {
      links := links - {ino};
      dirs := dirs - {ino};
    }

    /** Names a new file; on an error its link is taken back and the inode dropped. */
    method AddNondir(ino: nat, dir: nat, name: seq<Byte>, io: Io) returns (err: int)
      requires dir in dirs && ino !in dirs && ino in links && links[ino] == 1
      modifies this`dirs, this`links
      ensures err == Append(old(dirs)[dir], Entry(name, ino), io).1
      ensures dirs == old(dirs)[dir := Append(old(dirs)[dir], Entry(name, ino), io).0]
      ensures links == if err == 0 then old(links) else old(links) - {ino}
    {
      err := AddEntry(dir, Entry(name, ino), io);
      if err != 0 {
        links := links[ino := links[ino] - 1];
        DropInode(ino);
      }
    }

    method Mknod(dir: nat, name: seq<Byte>, validDevice: bool, regular: bool, env: Env) returns (r: Outcome)
      requires Coherent(Model()) && GoodOp(Model(), MkNod(dir, name, validDevice, regular, env))
      modifies this
      ensures Model() == old(Step(Model(), MkNod(dir, name, validDevice, regular, env)).0)
      ensures r == old(Step(Model(), MkNod(dir, name, validDevice, regular, env)).1)
    {
      ghost var s := Model();
      if !validDevice {
        return Done(EINVAL);
      }
      var number, err := NewInode(env);
      if number.None? {
        return Oops;
      }
      if !regular {
        return Done(EINVAL);
      }
      err := AddNondir(number.value, dir, name, env.link);
      MkNodNames(s, dir, name, env, number.value);
      AddAndDrop(s.links, number.value);
      r := Done(err);
    }

    method Tmpfile(env: Env) returns (r: Outcome)
      requires Coherent(Model())
      modifies this
      ensures (Model(), r) == old(Step(Model(), TmpFile(env)))
    {
      ghost var links0 := links;
      var number, err := NewInode(env);
      if number.Some? {
        links := links[number.value := links[number.value] - 1];
        assert links == links0[number.value := 0];
      }
      return Done(err);
    }
  }
}
