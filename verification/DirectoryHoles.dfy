/**
 The directory loops on any slots, empty ones included: which slot a lookup finds, which an append fills, and
 what a listing shows from any position.
 */
module DirectoryHoles {
  import opened Numbers
  import opened Endian
  import opened DirectoryEntries

  /** The slot is in use and matches. */
  predicate Matches(slots: seq<Slot>, name: seq<Byte>, k: nat)
    requires k < |slots| && |name| <= NAME_LEN
  {
    slots[k].ino != 0 && NameCompare(name, slots[k])
  }

  /** A lookup finds the first slot that is in use and matches, past any empty ones; and none if there is none. */
  lemma {:induction false} FindIsLeast(slots: seq<Slot>, name: seq<Byte>, from: nat)
    requires from <= |slots| && |name| <= NAME_LEN
    ensures match FindFrom(slots, name, from)
            case None => forall i: nat :: from <= i < |slots| ==> !Matches(slots, name, i)
            case Some(k) => Matches(slots, name, k) && forall i: nat :: from <= i < k ==> !Matches(slots, name, i)
    decreases |slots| - from
  {
    if from < |slots| && !Matches(slots, name, from) {
      FindIsLeast(slots, name, from + 1);
    }
  }

  /** The append's search stops at the first slot that is empty, or at a match before it, or at the end. */
  lemma {:induction false} SearchStopsAt(slots: seq<Slot>, name: seq<Byte>, from: nat)
    requires from <= |slots| && |name| <= NAME_LEN
    ensures match SearchFrom(slots, name, from)
            case Exists => exists k: nat :: SeenAt(slots, name, from, k)
            case Free(k) =>
              && (k < |slots| ==> slots[k].ino == 0)
              && forall i: nat :: from <= i < k ==> slots[i].ino != 0 && !NameCompare(name, slots[i])
    decreases |slots| - from
  {
    DuplicateIsSeenWhen(slots, name, from);
    if from < |slots| && slots[from].ino != 0 && !NameCompare(name, slots[from]) {
      SearchStopsAt(slots, name, from + 1);
    }
  }

  /** An append changes the slot at which its search stops, and no other; or nothing, if it is refused. */
  lemma {:induction false} AppendFills(slots: seq<Slot>, e: Entry, io: Io)
    requires GoodEntry(e)
    ensures var (now, err) := AddLink(slots, e.name, e.ino, io);
            match SearchFrom(slots, e.name, 0)
            case Exists => now == slots && err == -17
            case Free(k) =>
              if io.prepare != 0 then now == slots && err == io.prepare
              else
                && err == io.commit && |now| == (if k == |slots| then |slots| + 1 else |slots|)
                && now[k].ino == e.ino && DecodeEntry(now[k]) == e
                && forall i: nat :: i < |slots| && i != k ==> now[i] == slots[i]
  {
    DecodeEncode(e);
  }

  /** The entries from slot `k` on, empty slots left out. */
  function Live(slots: seq<Slot>, k: nat): (r: seq<Entry>)
    requires k <= |slots|
    decreases |slots| - k
  {
    if k == |slots| then []
    else (if slots[k].ino == 0 then [] else [DecodeEntry(slots[k])]) + Live(slots, k + 1)
  }

  lemma {:induction false} EmittedIsLive(slots: seq<Slot>, a: nat, b: nat)
    requires a <= b <= |slots|
    ensures Emitted(View(slots), a, b) + Live(slots, b) == Live(slots, a)
    decreases b
  {
    if a < b {
      EmittedIsLive(slots, a, b - 1);
      var one := if slots[b - 1].ino == 0 then [] else [DecodeEntry(slots[b - 1])];
      Regroup(Emitted(View(slots), a, b - 1), one, Live(slots, b));
    }
  }

  lemma {:induction false} Regroup(a: seq<Entry>, b: seq<Entry>, c: seq<Entry>)
    ensures a + b + c == a + (b + c)
  {
  }

  /** How many entries a listing emits before it stops, and why it stops. */
  lemma {:induction false} StopsWhen(slots: seq<Slot>, k: nat, budget: nat)
    requires k <= |slots|
    ensures var stop := StopAt(View(slots), k, budget);
            && |Live(slots, k)| - |Live(slots, stop)| <= budget
            && (stop < |slots| ==> slots[stop].ino != 0 && |Live(slots, k)| - |Live(slots, stop)| == budget)
    decreases |slots| - k
  {
    if k < |slots| {
      if slots[k].ino == 0 {
        StopsWhen(slots, k + 1, budget);
      } else if budget > 0 {
        StopsWhen(slots, k + 1, budget - 1);
      }
    }
  }

  /**
   A listing call from any byte position: it starts at the next slot boundary, emits the entries that follow as
   far as its emitter takes them, and leaves exactly the others for the next call.
   */
  lemma {:induction false} ListsTheLive(slots: seq<Slot>, pos: nat, budget: nat)
    ensures var k, (out, next) := CeilDiv(pos, 64), Readdir(slots, pos, budget);
            && (k >= |slots| ==> out == [] && next == 64 * k)
            && (k < |slots| ==>
                  && next % 64 == 0 && k <= next / 64 <= |slots| && |out| <= budget
                  && out + Live(slots, next / 64) == Live(slots, k)
                  && (|out| == budget || next / 64 == |slots|))
  {
    var k := CeilDiv(pos, 64);
    if k < |slots| {
      EmittedIsLive(slots, k, StopAt(View(slots), k, budget));
      StopsWhen(slots, k, budget);
    }
  }
}
