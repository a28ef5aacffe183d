/**
 Any number of threads inside the zone allocator. The spinlock is taken and released once per
 map block, so the unit of atomicity is the inspection of one block; between two blocks any
 other thread may run. Every return is logged in the order in which it takes effect.
 */
module ZoneProtocol {
  import opened Options
  import opened FirstFit
  import opened MapBlocks

  datatype Return = Return(thread: nat, zone: Option<nat>)

  /** `pcs` gives, for each thread inside the allocator, the next map block it will lock. */
  datatype State = State(blocks: seq<seq<bool>>, pcs: map<nat, nat>, log: seq<Return>)

  datatype Event = Enter(thread: nat) | Step(thread: nat)

  predicate Init(s: State, n: nat) {
    Uniform(s.blocks, n) && s.pcs == map[] && s.log == []
  }

  /** One atomic step of one thread; events of threads in the wrong place do nothing. */
  function Next(s: State, e: Event): (r: State) {
    match e
    case Enter(t) =>
      if t in s.pcs then s else s.(pcs := s.pcs[t := 0])
    case Step(t) =>
      if t !in s.pcs then s
      else if s.pcs[t] >= |s.blocks| then
        s.(pcs := s.pcs - {t}, log := s.log + [Return(t, None)])
      else
        var i := s.pcs[t];
        var j := FirstFree(s.blocks[i]);
        if j < |s.blocks[i]| then
          State(s.blocks[i := s.blocks[i][j := true]], s.pcs - {t},
                s.log + [Return(t, Some(i * |s.blocks[i]| + j))])
        else s.(pcs := s.pcs[t := i + 1])
  }

  function Run(s: State, es: seq<Event>): (r: State) {
    if es == [] then s else Next(Run(s, es[..|es| - 1]), es[|es| - 1])
  }

  function Zones(log: seq<Return>): (r: seq<Option<nat>>)
    ensures |r| == |log|
    ensures forall k: nat :: k < |log| ==> r[k] == log[k].zone
  {
    seq(|log|, (k: nat) requires k < |log| => log[k].zone)
  }

  /** A thread past block `i` has seen block `i` full, and no bit is ever cleared. */
  predicate Scanned(s: State) {
    forall t, b: nat :: t in s.pcs && b < s.pcs[t] && b < |s.blocks| ==> Full(s.blocks[b])
  }

  ghost predicate Inv(s0: State, s: State, n: nat)
    requires Init(s0, n)
  {
    && Uniform(s.blocks, n) && |s.blocks| == |s0.blocks|
    && Scanned(s)
    && AllocRun(Flat(s0.blocks, n), |s.log|) == (Flat(s.blocks, n), Zones(s.log))
  }

  lemma NextKeepsInv(s0: State, s: State, e: Event, n: nat)
    requires Init(s0, n) && Inv(s0, s, n)
    ensures Inv(s0, Next(s, e), n)
  {
    var s' := Next(s, e);
    if e.Step? && e.thread in s.pcs {
      var i := s.pcs[e.thread];
      if i >= |s.blocks| {
        FlatFull(s.blocks, n);
        assert Zones(s'.log) == Zones(s.log) + [None];
      } else if FirstFree(s.blocks[i]) < n {
        var j := FirstFree(s.blocks[i]);
        ScanFindsFirstFree(s.blocks, n, i);
        FlatUpdate(s.blocks, n, i, j);
        assert Zones(s'.log) == Zones(s.log) + [Some(i * n + j)];
      } else {
        assert Full(s.blocks[i]);
      }
    }
  }

  /**
   Linearizability. Whatever the interleaving, the shared map and the returned zones are those
   of the atomic first-fit allocator called once per return, in the order of the returns.
   */
  lemma {:induction false} EveryInterleavingIsSequential(s0: State, es: seq<Event>, n: nat)
    requires Init(s0, n)
    ensures Inv(s0, Run(s0, es), n)
    ensures var s := Run(s0, es);
            AllocRun(Flat(s0.blocks, n), |s.log|) == (Flat(s.blocks, n), Zones(s.log))
  {
    if es == [] {
      assert Zones(s0.log) == [];
    } else {
      EveryInterleavingIsSequential(s0, es[..|es| - 1], n);
      NextKeepsInv(s0, Run(s0, es[..|es| - 1]), es[|es| - 1], n);
    }
  }

  /** No zone is returned twice: later returns carry strictly larger zones, and each was free at the start. */
  lemma NoZoneReturnedTwice(s0: State, es: seq<Event>, n: nat)
    requires Init(s0, n)
    ensures var s := Run(s0, es);
            && Uniform(s.blocks, n) && |s.blocks| == |s0.blocks|
            && (forall a: nat, b: nat :: a < b < |s.log| && s.log[a].zone.Some? && s.log[b].zone.Some? ==>
                  s.log[a].zone.value < s.log[b].zone.value)
            && (forall a: nat :: a < |s.log| && s.log[a].zone.Some? ==>
                  s.log[a].zone.value < |s0.blocks| * n && !Flat(s0.blocks, n)[s.log[a].zone.value])
            && (forall z: nat :: z < |s0.blocks| * n ==>
                  (Flat(s.blocks, n)[z] <==> Flat(s0.blocks, n)[z] || Some(z) in Zones(s.log)))
  {
    EveryInterleavingIsSequential(s0, es, n);
    var s := Run(s0, es);
    forall a: nat, b: nat | a < b < |s.log| && s.log[b].zone.Some?
      ensures s.log[a].zone.Some? && s.log[a].zone.value < s.log[b].zone.value
    {
      RunIncreases(Flat(s0.blocks, n), |s.log|, a, b);
    }
    RunSetsWhatItHandsOut(Flat(s0.blocks, n), |s.log|);
    assert forall a: nat :: a < |s.log| ==> s.log[a].zone == Zones(s.log)[a];
  }

  /** At the moment a thread returns "no zone", every map block is full. */
  lemma ReturnsNothingOnlyWhenFull(s0: State, es: seq<Event>, e: Event, n: nat)
    requires Init(s0, n)
    requires var s := Run(s0, es); var s' := Next(s, e);
             |s'.log| > |s.log| && s'.log[|s.log|].zone.None?
    ensures forall b: nat :: b < |Run(s0, es).blocks| ==> Full(Run(s0, es).blocks[b])
  {
    EveryInterleavingIsSequential(s0, es, n);
  }

  /**
   From a map of the formatted shape, the k-th return of any interleaving carries number `lo + k`, and
   nothing once the reserved tail is reached.
   */
  lemma {:induction false} ReturnsAreConsecutive(s0: State, es: seq<Event>, n: nat, lo: nat, hi: nat)
    requires Init(s0, n) && Shape(Flat(s0.blocks, n), lo, hi)
    ensures var log := Run(s0, es).log;
            forall k: nat :: k < |log| ==> log[k].zone == if lo + k < hi then Some(lo + k) else None
  {
    EveryInterleavingIsSequential(s0, es, n);
    var log := Run(s0, es).log;
    ShapeRun(Flat(s0.blocks, n), lo, hi, |log|);
    assert forall k: nat :: k < |log| ==> log[k].zone == Zones(log)[k];
  }

  /** Number of steps that thread `t` takes in a stretch of events. */
  function StepsOf(es: seq<Event>, t: nat): (r: nat) {
    if es == [] then 0 else StepsOf(es[..|es| - 1], t) + (if es[|es| - 1] == Step(t) then 1 else 0)
  }

  predicate Returned(from: nat, s: State, t: nat) {
    exists k: nat :: from <= k < |s.log| && s.log[k].thread == t
  }

  /**
   Wait-freedom: a thread has returned after one own step per map block still ahead plus one, whatever the
   others do.
   */
  lemma {:induction false} EveryThreadReturns(s: State, es: seq<Event>, t: nat)
    requires t in s.pcs
    ensures |Run(s, es).blocks| == |s.blocks| && |Run(s, es).log| >= |s.log|
    ensures Returned(|s.log|, Run(s, es), t)
            || (t in Run(s, es).pcs && Run(s, es).pcs[t] >= s.pcs[t] + StepsOf(es, t)
                && (Run(s, es).pcs[t] <= |s.blocks| || Run(s, es).pcs[t] == s.pcs[t]))
    ensures s.pcs[t] <= |s.blocks| && StepsOf(es, t) > |s.blocks| - s.pcs[t] ==> Returned(|s.log|, Run(s, es), t)
  {
    if es != [] {
      var es0 := es[..|es| - 1];
      EveryThreadReturns(s, es0, t);
      var m := Run(s, es0);
      var e := es[|es| - 1];
      var m' := Next(m, e);
      assert m.log <= m'.log;
      if Returned(|s.log|, m, t) {
        var k: nat :| |s.log| <= k < |m.log| && m.log[k].thread == t;
        assert m'.log[k].thread == t;
      } else if e == Step(t) {
        if |m'.log| > |m.log| {
          assert m'.log[|m.log|].thread == t;
        }
      }
    }
  }

  // ---------------------------------------------------------------- calls

  /** A run by its first event. */
  lemma {:induction false} RunFront(s: State, es: seq<Event>)
    requires es != []
    ensures Run(s, es) == Run(Next(s, es[0]), es[1..])
  {
    if |es| > 1 {
      var n := |es| - 1;
      RunFront(s, es[..n]);
      assert es[..n][1..] == es[1..][..n - 1];
    }
  }

  lemma {:induction false} StepsFront(es: seq<Event>, t: nat)
    requires es != []
    ensures StepsOf(es, t) == (if es[0] == Step(t) then 1 else 0) + StepsOf(es[1..], t)
  {
    if |es| > 1 {
      var n := |es| - 1;
      StepsFront(es[..n], t);
      assert es[..n][1..] == es[1..][..n - 1];
    }
  }

  /**
   Wait-freedom of a call: a thread that enters has returned after one own step per map block plus one,
   whatever the others do.
   */
  lemma {:induction false} EveryCallReturns(s: State, es: seq<Event>, t: nat)
    requires t !in s.pcs && es != [] && es[0] == Enter(t) && StepsOf(es, t) > |s.blocks|
    ensures Returned(|s.log|, Run(s, es), t)
  {
    RunFront(s, es);
    StepsFront(es, t);
    EveryThreadReturns(Next(s, es[0]), es[1..], t);
  }

  /** The number of returns of thread `t`. */
  function Returns(log: seq<Return>, t: nat): (r: nat) {
    if log == [] then 0 else Returns(log[..|log| - 1], t) + (if log[|log| - 1].thread == t then 1 else 0)
  }

  /** The number of times that thread `t`, being outside, enters. */
  function Calls(s: State, es: seq<Event>, t: nat): (r: nat) {
    if es == [] then 0
    else
      Calls(s, es[..|es| - 1], t)
      + (if es[|es| - 1] == Enter(t) && t !in Run(s, es[..|es| - 1]).pcs then 1 else 0)
  }

  /** One return per call: every call has returned or is inside, and there are no other returns. */
  lemma {:induction false} OneReturnPerCall(s: State, es: seq<Event>, t: nat)
    ensures var m := Run(s, es);
            Returns(m.log, t) + (if t in m.pcs then 1 else 0) ==
            Returns(s.log, t) + (if t in s.pcs then 1 else 0) + Calls(s, es, t)
  {
    if es != [] {
      var m, e := Run(s, es[..|es| - 1]), es[|es| - 1];
      OneReturnPerCall(s, es[..|es| - 1], t);
      var log := Next(m, e).log;
      if |log| > |m.log| {
        assert log[..|log| - 1] == m.log;
      }
    }
  }

  /** A call that nobody disturbs. */
  function CallOf(t: nat, steps: nat): (es: seq<Event>)
    ensures |es| == steps + 1 && es[0] == Enter(t) && forall k: nat :: 1 <= k < |es| ==> es[k] == Step(t)
  {
    [Enter(t)] + seq(steps, (_: nat) => Step(t))
  }

  /** It is still looking, after one block per step, or has returned once and is outside. */
  lemma {:induction false} CallProgress(s: State, t: nat, steps: nat)
    requires s.pcs == map[]
    ensures var m := Run(s, CallOf(t, steps));
            && |m.blocks| == |s.blocks|
            && ((m.pcs == map[t := steps] && m.log == s.log && steps <= |s.blocks|)
                || (m.pcs == map[] && |m.log| == |s.log| + 1
                    && m.log[..|s.log|] == s.log && m.log[|s.log|].thread == t))
  {
    var es := CallOf(t, steps);
    if steps == 0 {
      assert es == [Enter(t)] && es[..0] == [];
      assert Run(s, es[..0]) == s;
    } else {
      CallProgress(s, t, steps - 1);
      assert es[..steps] == CallOf(t, steps - 1);
      var m := Run(s, CallOf(t, steps - 1));
      assert m.pcs == map[t := steps - 1] ==> m.pcs - {t} == map[];
    }
  }

  /** Calls by these threads, one after the other. */
  function CallsOf(ts: seq<nat>, blocks: nat): (es: seq<Event>) {
    if ts == [] then [] else CallsOf(ts[..|ts| - 1], blocks) + CallOf(ts[|ts| - 1], blocks + 1)
  }

  lemma {:induction false} RunAppend(s: State, a: seq<Event>, b: seq<Event>)
    ensures Run(s, a + b) == Run(Run(s, a), b)
  {
    if b == [] {
      assert a + b == a;
    } else {
      var n := |b| - 1;
      assert (a + b)[..|a| + n] == a + b[..n];
      RunAppend(s, a, b[..n]);
    }
  }

  /** Nobody is inside, and these threads have returned, in this order. */
  ghost predicate AllReturned(s0: State, s: State, ts: seq<nat>) {
    && s.pcs == map[] && |s.blocks| == |s0.blocks| && |s.log| == |ts|
    && forall k: nat :: k < |ts| ==> s.log[k].thread == ts[k]
  }

  lemma {:induction false} OneMoreCall(s0: State, s: State, t: State, ts: seq<nat>, thread: nat)
    requires AllReturned(s0, s, ts) && t == Run(s, CallOf(thread, |s0.blocks| + 1))
    ensures AllReturned(s0, t, ts + [thread])
  {
    CallProgress(s, thread, |s0.blocks| + 1);
    forall k: nat | k < |ts|
      ensures t.log[k] == s.log[k]
    {
      assert t.log[k] == t.log[..|s.log|][k];
    }
  }

  /** Calls made one after the other have all returned, each once, in order. */
  lemma {:induction false} CallsReturnInOrder(s0: State, ts: seq<nat>, n: nat)
    requires Init(s0, n)
    ensures AllReturned(s0, Run(s0, CallsOf(ts, |s0.blocks|)), ts)
  {
    if ts != [] {
      var m := |ts| - 1;
      var before := CallsOf(ts[..m], |s0.blocks|);
      CallsReturnInOrder(s0, ts[..m], n);
      RunAppend(s0, before, CallOf(ts[m], |s0.blocks| + 1));
      OneMoreCall(s0, Run(s0, before), Run(s0, CallsOf(ts, |s0.blocks|)), ts[..m], ts[m]);
      assert ts[..m] + [ts[m]] == ts;
    }
  }

  /** Undisturbed calls are the calls of the atomic allocator: as many, in the same order, with the same zones. */
  lemma {:induction false} CallsAreAllocations(s0: State, ts: seq<nat>, n: nat)
    requires Init(s0, n)
    ensures var s := Run(s0, CallsOf(ts, |s0.blocks|));
            && |s.log| == |ts| && Uniform(s.blocks, n) && Flat(s.blocks, n) == AllocRun(Flat(s0.blocks, n), |ts|).0
            && forall k: nat :: k < |ts| ==> s.log[k] == Return(ts[k], AllocRun(Flat(s0.blocks, n), |ts|).1[k])
  {
    CallsReturnInOrder(s0, ts, n);
    EveryInterleavingIsSequential(s0, CallsOf(ts, |s0.blocks|), n);
    var log := Run(s0, CallsOf(ts, |s0.blocks|)).log;
    assert forall k: nat :: k < |ts| ==> log[k].zone == Zones(log)[k];
  }
}
