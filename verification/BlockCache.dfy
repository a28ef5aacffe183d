/**
 The formatter's write-back block cache. Blocks are shared objects: the cache holds one reference
 to each block in it and clients hold others, through which they change the bytes. A block that
 only the cache refers to is dropped when the cache is written out.
 */
module BlockCache {
  import opened Options

  type Bytes = seq<bv8>

  function Zeros(n: nat): (r: Bytes)
    ensures |r| == n
  {
    seq(n, (_: nat) => 0 as bv8)
  }

  class Block {
    const no: nat
    var data: Bytes

    constructor (no: nat, contents: Bytes)
      ensures this.no == no && data == contents
    {
      this.no, data := no, contents;
    }
  }

  const THRESHOLD: nat := 1048576

  class Cache {
    const blockSize: nat
    var cache: map<nat, Block>
    var device: map<nat, Bytes>
    /** References held outside the cache; a block in `cache` is unique when it has none. */
    var clients: multiset<Block>

    ghost predicate Valid()
      reads this, cache.Values
    {
      && (forall n :: n in cache ==> cache[n].no == n && |cache[n].data| == blockSize)
      && (forall b :: b in clients ==> b.no in cache && cache[b.no] == b)
      && (forall n :: n in device ==> |device[n]| == blockSize)
    }

    /** What the device holds; a block never written is zero. */
    ghost function OnDevice(n: nat): (r: Bytes)
      reads this
    {
      if n in device then device[n] else Zeros(blockSize)
    }

    /** The disk that clients see. */
    ghost function Disk(n: nat): (r: Bytes)
      reads this, cache.Values
    {
      if n in cache then cache[n].data else OnDevice(n)
    }

    constructor (blockSize: nat, device: map<nat, Bytes>)
      requires forall n :: n in device ==> |device[n]| == blockSize
      ensures Valid() && this.blockSize == blockSize && this.device == device && cache == map[] && clients == multiset{}
    {
      this.blockSize, this.device := blockSize, device;
      cache, clients := map[], multiset{};
    }

    /** Writes one cached block out, and drops it when no client holds it. */
    method Flush(no: nat)
      requires Valid() && no in cache
      modifies this`cache, this`device
      ensures Valid()
      ensures cache == (if old(cache)[no] in clients then old(cache) else old(cache) - {no})
      ensures device == old(device)[no := old(cache)[no].data]
      ensures forall n: nat :: Disk(n) == old(Disk(n))
    {
      var b := cache[no];
      device := device[no := b.data];
      if b !in clients {
        cache := cache - {no};
      }
    }

    /**
     Writes every cached block to the device and drops those that no client holds. Afterwards the
     device is the disk, and the disk has not changed. The order of the blocks does not matter,
     so any order is allowed here.
     */
    method Sync()
      requires Valid()
      modifies this`cache, this`device
      ensures Valid()
      ensures forall n: nat :: Disk(n) == old(Disk(n)) && OnDevice(n) == Disk(n)
      ensures forall n :: n in cache <==> n in old(cache) && old(cache)[n] in clients
      ensures forall n :: n in cache ==> cache[n] == old(cache)[n]
    {
      var todo := cache.Keys;
      while todo != {}
        invariant Valid()
        invariant todo <= cache.Keys <= old(cache).Keys
        invariant forall n :: n in cache ==> cache[n] == old(cache)[n]
        invariant forall n: nat :: Disk(n) == old(Disk(n))
        invariant forall n: nat :: n !in todo ==> OnDevice(n) == Disk(n)
        invariant forall n :: n in old(cache) && n !in todo ==> (n in cache <==> old(cache)[n] in clients)
      {
        var no :| no in todo;
        Flush(no);
        todo := todo - {no};
      }
    }

    method ReadBlock(no: nat) returns (b: Block)
      ensures fresh(b) && b.no == no && b.data == OnDevice(no)
    {
      if no in device {
        b := new Block(no, device[no]);
      } else {
        b := new Block(no, Zeros(blockSize));
      }
    }

    /** Adds a block that holds what the device holds, and hands it to a client. */
    method Insert(b: Block)
      requires Valid() && b.no !in cache && b.data == OnDevice(b.no)
      modifies this`cache, this`clients
      ensures Valid() && cache == old(cache)[b.no := b] && clients == old(clients) + multiset{b}
      ensures forall n: nat :: Disk(n) == old(Disk(n))
    {
      cache := cache[b.no := b];
      clients := clients + multiset{b};
    }

    /**
     Below the threshold a miss adds its block and writes nothing. Beyond it, only blocks that clients
     hold stay in the cache.
     */
    ghost predicate Made(cache0: map<nat, Block>, device0: map<nat, Bytes>, no: nat, b: Block)
      reads this
    {
      if blockSize * |cache0| <= THRESHOLD then cache == cache0[no := b] && device == device0
      else forall n :: n in cache ==> cache[n] in clients
    }

    /**
     Returns the block object for a number: the contents are the current contents of the disk, the
     disk is unchanged, and if a client already holds an object for the number it is the same one.
     */
    method GetBlock(no: nat) returns (b: Block)
      requires Valid()
      modifies this
      ensures Valid() && b.no == no
      ensures clients == old(clients) + multiset{b}
      ensures b.data == old(Disk(no))
      ensures forall n: nat :: Disk(n) == old(Disk(n))
      ensures no in old(cache) ==> b == old(cache)[no] && cache == old(cache) && device == old(device)
      ensures no !in old(cache) ==> Made(old(cache), old(device), no, b)
      ensures forall c :: c in old(clients) && c.no == no ==> c == b
      ensures forall n :: n in cache ==> (n in old(cache) && cache[n] == old(cache)[n]) || fresh(cache[n])
    {
      if no in cache {
        b := cache[no];
        clients := clients + multiset{b};
      } else {
        b := Fetch(no);
      }
    }

    /** The miss: room is made first, then the block comes from the device. */
    method Fetch(no: nat) returns (b: Block)
      requires Valid() && no !in cache
      modifies this
      ensures Valid() && b.no == no
      ensures clients == old(clients) + multiset{b}
      ensures b.data == old(Disk(no))
      ensures forall n: nat :: Disk(n) == old(Disk(n))
      ensures Made(old(cache), old(device), no, b)
      ensures forall n :: n in cache ==> (n in old(cache) && cache[n] == old(cache)[n]) || fresh(cache[n])
    {
      MakeRoom();
      b := ReadBlock(no);
      Insert(b);
    }

    /** Before a block is added: a cache beyond its threshold is written out. */
    method MakeRoom()
      requires Valid()
      modifies this`cache, this`device
      ensures Valid() && cache.Keys <= old(cache).Keys
      ensures forall n :: n in cache ==> cache[n] == old(cache)[n]
      ensures forall n: nat :: Disk(n) == old(Disk(n))
      ensures blockSize * |old(cache)| <= THRESHOLD ==> cache == old(cache) && device == old(device)
      ensures blockSize * |old(cache)| > THRESHOLD ==> forall n :: n in cache ==> cache[n] in clients
    {
      if blockSize * |cache| > THRESHOLD {
        Sync();
      }
    }

    /** A client stores a byte through a reference that it holds. */
    method Poke(b: Block, i: nat, v: bv8)
      requires Valid() && b in clients && i < blockSize
      modifies b
      ensures Valid()
      ensures forall n: nat :: Disk(n) == if n == b.no then old(Disk(n))[i := v] else old(Disk(n))
    {
      b.data := b.data[i := v];
    }

    /** A client gives up one reference. */
    method Drop(b: Block)
      requires Valid() && b in clients
      modifies this`clients
      ensures Valid() && clients == old(clients) - multiset{b}
      ensures forall n: nat :: Disk(n) == old(Disk(n))
    {
      clients := clients - multiset{b};
    }
  }

  /** At most one live object per block number. */
  lemma OneObjectPerNumber(c: Cache, a: Block, b: Block)
    requires c.Valid() && a in c.clients && b in c.clients && a.no == b.no
    ensures a == b
  {
    assert c.cache[a.no] == a && c.cache[b.no] == b;
  }

  // ---------------------------------------------------------------- refinement of a plain disk

  /** What a client can do; handles are named by their position in the client's list. */
  datatype Op = Get(no: nat) | Peek(h: nat) | Poke(h: nat, i: nat, v: bv8) | Drop(h: nat) | Sync

  /** The specification: an uncached disk and the block numbers that the client has open. */
  datatype Plain = Plain(disk: map<nat, Bytes>, held: seq<nat>)

  function PlainAt(size: nat, disk: map<nat, Bytes>, n: nat): (r: Bytes) {
    if n in disk then disk[n] else Zeros(size)
  }

  predicate Sized(size: nat, disk: map<nat, Bytes>) {
    forall n :: n in disk ==> |disk[n]| == size
  }

  function PlainStep(size: nat, p: Plain, op: Op): (r: (Plain, Option<Bytes>))
    requires Sized(size, p.disk)
    ensures Sized(size, r.0.disk)
  {
    match op
    case Get(no) => (p.(held := p.held + [no]), Some(PlainAt(size, p.disk, no)))
    case Peek(h) => (p, if h < |p.held| then Some(PlainAt(size, p.disk, p.held[h])) else None)
    case Poke(h, i, v) =>
      if h < |p.held| && i < size
      then (p.(disk := p.disk[p.held[h] := PlainAt(size, p.disk, p.held[h])[i := v]]), None)
      else (p, None)
    case Drop(h) => (if h < |p.held| then p.(held := p.held[..h] + p.held[h + 1..]) else p, None)
    case Sync => (p, None)
  }

  function PlainRun(size: nat, p: Plain, ops: seq<Op>): (r: (Plain, seq<Option<Bytes>>))
    requires Sized(size, p.disk)
    ensures Sized(size, r.0.disk) && |r.1| == |ops|
  {
    if ops == [] then (p, [])
    else
      var (m, out) := PlainRun(size, p, ops[..|ops| - 1]);
      var (p', a) := PlainStep(size, m, ops[|ops| - 1]);
      (p', out + [a])
  }

  lemma PlainRunStep(size: nat, p: Plain, ops: seq<Op>, k: nat)
    requires Sized(size, p.disk) && k < |ops|
    ensures var (m, out) := PlainRun(size, p, ops[..k]);
            PlainRun(size, p, ops[..k + 1]) == (PlainStep(size, m, ops[k]).0, out + [PlainStep(size, m, ops[k]).1])
  {
    assert ops[..k + 1][..k] == ops[..k];
  }

  // ---------------------------------------------------------------- what the plain disk shows

  /** Looking through a handle shows what opening its number again would show, and changes nothing. */
  lemma {:induction false} PeekIsGet(size: nat, p: Plain, h: nat)
    requires Sized(size, p.disk)
    ensures PlainStep(size, p, Peek(h)).0 == p
    ensures h < |p.held| ==> PlainStep(size, p, Peek(h)).1 == PlainStep(size, p, Get(p.held[h])).1
    ensures h >= |p.held| ==> PlainStep(size, p, Peek(h)).1.None?
  {
  }

  /** Opening a number shows its block, appends a handle for it, and changes nothing else. */
  lemma {:induction false} GetShows(size: nat, p: Plain, no: nat)
    requires Sized(size, p.disk)
    ensures var (q, a) := PlainStep(size, p, Get(no));
            && q.disk == p.disk && q.held == p.held + [no]
            && a.Some? && |a.value| == size && (no in p.disk ==> a.value == p.disk[no])
            && (no !in p.disk ==> forall i: nat :: i < size ==> a.value[i] == 0)
  {
  }

  /** A store through one handle is seen through every handle of its number, in one byte, and through no other. */
  lemma {:induction false} PokeShows(size: nat, p: Plain, h: nat, i: nat, v: bv8, g: nat, j: nat)
    requires Sized(size, p.disk) && h < |p.held| && i < size && g < |p.held| && j < size
    ensures var q := PlainStep(size, p, Poke(h, i, v)).0;
            var was, now := PlainStep(size, p, Peek(g)).1, PlainStep(size, q, Peek(g)).1;
            && q.held == p.held && was.Some? && now.Some? && |was.value| == |now.value| == size
            && now.value[j] == if p.held[g] == p.held[h] && j == i then v else was.value[j]
  {
  }

  /** Giving up a handle keeps the numbers of the others in order, and the disk. */
  lemma {:induction false} DropShows(size: nat, p: Plain, h: nat)
    requires Sized(size, p.disk) && h < |p.held|
    ensures var q := PlainStep(size, p, Drop(h)).0;
            && q.disk == p.disk && |q.held| == |p.held| - 1
            && forall g: nat :: g < |q.held| ==> q.held[g] == if g < h then p.held[g] else p.held[g + 1]
  {
  }

  /** The numbers that the open handles were opened with, from the operations alone. */
  function Opened(ops: seq<Op>): (r: seq<nat>) {
    if ops == [] then []
    else
      var before := Opened(ops[..|ops| - 1]);
      match ops[|ops| - 1]
      case Get(no) => before + [no]
      case Drop(h) => if h < |before| then before[..h] + before[h + 1..] else before
      case _ => before
  }

  /** The last value stored in byte `i` of a block, through whichever handle. */
  function LastPoke(ops: seq<Op>, no: nat, i: nat): (r: Option<bv8>) {
    if ops == [] then None
    else
      var before, op := ops[..|ops| - 1], ops[|ops| - 1];
      if op.Poke? && op.h < |Opened(before)| && Opened(before)[op.h] == no && op.i == i then Some(op.v)
      else LastPoke(before, no, i)
  }

  /** A block as the operations leave it: the bytes last stored, on top of what the device held at the start. */
  function Shown(size: nat, device: map<nat, Bytes>, ops: seq<Op>, no: nat): (r: Bytes)
    requires Sized(size, device)
    ensures |r| == size
  {
    seq(size, (i: nat) requires i < size =>
      match LastPoke(ops, no, i) case Some(v) => v case None => PlainAt(size, device, no)[i])
  }

  lemma {:induction false} ShownNext(size: nat, device: map<nat, Bytes>, ops: seq<Op>, no: nat)
    requires Sized(size, device) && ops != []
    ensures var before, op := ops[..|ops| - 1], ops[|ops| - 1];
            Shown(size, device, ops, no) ==
            if op.Poke? && op.h < |Opened(before)| && op.i < size && Opened(before)[op.h] == no
            then Shown(size, device, before, no)[op.i := op.v] else Shown(size, device, before, no)
  {
  }

  /** The plain disk after a run. */
  lemma {:induction false} PlainDiskShows(size: nat, device: map<nat, Bytes>, ops: seq<Op>)
    requires Sized(size, device)
    ensures var p := PlainRun(size, Plain(device, []), ops).0;
            p.held == Opened(ops) && forall no: nat :: PlainAt(size, p.disk, no) == Shown(size, device, ops, no)
  {
    if ops == [] {
      forall no: nat
        ensures PlainAt(size, device, no) == Shown(size, device, [], no)
      {
      }
    } else {
      var before := ops[..|ops| - 1];
      PlainDiskShows(size, device, before);
      var p := PlainRun(size, Plain(device, []), ops).0;
      forall no: nat
        ensures PlainAt(size, p.disk, no) == Shown(size, device, ops, no)
      {
        ShownNext(size, device, ops, no);
      }
    }
  }

  /** The answer to an operation after others, from the start without handles. */
  function AnswerAfter(size: nat, device: map<nat, Bytes>, before: seq<Op>, op: Op): (r: Option<Bytes>)
    requires Sized(size, device)
  {
    match op
    case Get(no) => Some(Shown(size, device, before, no))
    case Peek(h) =>
      if h < |Opened(before)| then Some(Shown(size, device, before, Opened(before)[h])) else None
    case _ => None
  }

  function AnswerTo(size: nat, device: map<nat, Bytes>, ops: seq<Op>, k: nat): (r: Option<Bytes>)
    requires Sized(size, device) && k < |ops|
  {
    AnswerAfter(size, device, ops[..k], ops[k])
  }

  lemma {:induction false} NextAnswer(size: nat, device: map<nat, Bytes>, before: seq<Op>, op: Op)
    requires Sized(size, device)
    ensures PlainStep(size, PlainRun(size, Plain(device, []), before).0, op).1 == AnswerAfter(size, device, before, op)
  {
    PlainDiskShows(size, device, before);
  }

  lemma {:induction false} PlainRunAt(size: nat, p: Plain, ops: seq<Op>, k: nat)
    requires Sized(size, p.disk) && k < |ops|
    ensures PlainRun(size, p, ops).1[k] == PlainStep(size, PlainRun(size, p, ops[..k]).0, ops[k]).1
  {
    var n := |ops| - 1;
    if k < n {
      PlainRunAt(size, p, ops[..n], k);
      assert ops[..n][..k] == ops[..k];
    }
  }

  /** Every read of a block shows its bytes as last stored, on top of what the device held at the start. */
  lemma {:induction false} PlainAnswers(size: nat, device: map<nat, Bytes>, ops: seq<Op>, k: nat)
    requires Sized(size, device) && k < |ops|
    ensures PlainRun(size, Plain(device, []), ops).1[k] == AnswerTo(size, device, ops, k)
  {
    PlainRunAt(size, Plain(device, []), ops, k);
    NextAnswer(size, device, ops[..k], ops[k]);
  }

  /** The cache and its client's references stand for a plain disk. */
  ghost predicate Simulates(c: Cache, held: seq<Block>, p: Plain)
    reads c, c.cache.Values
  {
    && c.Valid() && c.clients == multiset(held) && Sized(c.blockSize, p.disk)
    && |held| == |p.held| && (forall h: nat :: h < |held| ==> held[h].no == p.held[h])
    && forall n: nat :: c.Disk(n) == PlainAt(c.blockSize, p.disk, n)
  }

  lemma HandleIsClient(held: seq<Block>, h: nat)
    requires h < |held|
    ensures held[h] in multiset(held)
    ensures multiset(held) - multiset{held[h]} == multiset(held[..h] + held[h + 1..])
  {
    assert held == held[..h] + [held[h]] + held[h + 1..];
  }

  method PerformGet(c: Cache, held: seq<Block>, no: nat, ghost p: Plain) returns (held': seq<Block>, a: Option<Bytes>)
    requires Simulates(c, held, p)
    modifies c
    ensures Simulates(c, held', PlainStep(c.blockSize, p, Get(no)).0)
    ensures a == PlainStep(c.blockSize, p, Get(no)).1
    ensures forall n :: n in c.cache ==> c.cache[n] in old(c.cache.Values) || fresh(c.cache[n])
  {
    var b := c.GetBlock(no);
    a := Some(b.data);
    held' := held + [b];
  }

  method PerformPoke(c: Cache, held: seq<Block>, h: nat, i: nat, v: bv8, ghost p: Plain)
    requires Simulates(c, held, p)
    modifies c.cache.Values
    ensures Simulates(c, held, PlainStep(c.blockSize, p, Poke(h, i, v)).0)
  {
    if h < |held| && i < c.blockSize {
      HandleIsClient(held, h);
      c.Poke(held[h], i, v);
    }
  }

  function PerformPeek(c: Cache, held: seq<Block>, h: nat, ghost p: Plain): (a: Option<Bytes>)
    requires Simulates(c, held, p)
    reads c, c.cache.Values, held
    ensures a == PlainStep(c.blockSize, p, Peek(h)).1
  {
    if h < |held| then HandleIsClient(held, h); Some(held[h].data) else None
  }

  method PerformDrop(c: Cache, held: seq<Block>, h: nat, ghost p: Plain) returns (held': seq<Block>)
    requires Simulates(c, held, p)
    modifies c`clients
    ensures Simulates(c, held', PlainStep(c.blockSize, p, Drop(h)).0)
  {
    held' := held;
    if h < |held| {
      HandleIsClient(held, h);
      c.Drop(held[h]);
      held' := held[..h] + held[h + 1..];
    }
  }

  /** One client operation on the cache is the same operation on the plain disk. */
  method Perform(c: Cache, held: seq<Block>, op: Op, ghost p: Plain) returns (held': seq<Block>, a: Option<Bytes>)
    requires Simulates(c, held, p)
    modifies c, c.cache.Values
    ensures Simulates(c, held', PlainStep(c.blockSize, p, op).0)
    ensures a == PlainStep(c.blockSize, p, op).1
    ensures op.Sync? ==> forall n: nat :: c.OnDevice(n) == c.Disk(n)
    ensures forall n :: n in c.cache ==> c.cache[n] in old(c.cache.Values) || fresh(c.cache[n])
  {
    match op {
      case Get(no) =>
        held', a := PerformGet(c, held, no, p);
      case Peek(h) =>
        held', a := held, PerformPeek(c, held, h, p);
      case Poke(h, i, v) =>
        PerformPoke(c, held, h, i, v, p);
        held', a := held, None;
      case Drop(h) =>
        held' := PerformDrop(c, held, h, p);
        a := None;
      case Sync =>
        c.Sync();
        held', a := held, None;
    }
  }

  /**
   Cache refinement. For every sequence of client operations on a new cache, every block read shows
   what a plain disk would show, the disk that the cache stands for is the plain disk, and if
   the sequence ends with a Sync so is the device.
   */
  method Replay(c: Cache, ops: seq<Op>) returns (held: seq<Block>, answers: seq<Option<Bytes>>)
    requires c.Valid() && c.cache == map[] && c.clients == multiset{}
    modifies c
    ensures var (p, out) := PlainRun(c.blockSize, Plain(old(c.device), []), ops);
            && answers == out && Simulates(c, held, p)
            && (ops != [] && ops[|ops| - 1].Sync? ==>
                  forall n: nat :: c.OnDevice(n) == PlainAt(c.blockSize, p.disk, n))
    ensures |answers| == |ops| && Sized(c.blockSize, old(c.device))
    ensures forall k: nat :: k < |ops| ==> answers[k] == AnswerTo(c.blockSize, old(c.device), ops, k)
    ensures ops != [] && ops[|ops| - 1].Sync? ==>
              forall n: nat :: c.OnDevice(n) == Shown(c.blockSize, old(c.device), ops, n)
  {
    held, answers := [], [];
    ghost var start := Plain(c.device, []);
    var k := 0;
    while k < |ops|
      invariant k <= |ops|
      invariant Simulates(c, held, PlainRun(c.blockSize, start, ops[..k]).0)
      invariant answers == PlainRun(c.blockSize, start, ops[..k]).1
      invariant forall n :: n in c.cache ==> fresh(c.cache[n])
      invariant k > 0 && ops[k - 1].Sync? ==> forall n: nat :: c.OnDevice(n) == c.Disk(n)
    {
      var a;
      ghost var p := PlainRun(c.blockSize, start, ops[..k]).0;
      held, a := Perform(c, held, ops[k], p);
      answers := answers + [a];
      PlainRunStep(c.blockSize, start, ops, k);
      k := k + 1;
    }
    assert ops[..k] == ops;
    ghost var device := start.disk;
    PlainDiskShows(c.blockSize, device, ops);
    forall k: nat | k < |ops|
      ensures answers[k] == AnswerTo(c.blockSize, device, ops, k)
    {
      PlainAnswers(c.blockSize, device, ops, k);
    }
  }
}
