/** What the application is handed comes with all that can be reached from it, while other threads
    go on deserializing. */
module DemandHandover {
  import opened Wrappers
  import opened Demand
  import opened DemandProofs
  import opened DemandProgress
  import opened DemandRuns

  /** What an item leads to: the references in its data, and its STable. */
  function Links(tab: Tables, it: Item): seq<Item> {
    Refs(tab, it) + match StableOf(tab, it) case Some(j) => [St(j)] case None => []
  }

  ghost predicate ClosedSet(tab: Tables, c: set<Item>) {
    forall x, y :: x in c && y in Links(tab, x) ==> y in c
  }

  /** The item is among complete items that lead to nothing else. */
  ghost predicate WhollyDone(tab: Tables, done: set<Item>, it: Item) {
    exists c: set<Item> :: it in c && c <= done && ClosedSet(tab, c)
  }

  /** Whatever a thread's own call is about to hand over is. */
  ghost predicate Handed(tab: Tables, s: State) {
    forall t: nat, it: Item :: Stack(s, t) == [Return(it)] ==> WhollyDone(tab, s.roots.done, it)
  }

  lemma DoneStays(tab: Tables, done: set<Item>, done': set<Item>, it: Item)
    requires WhollyDone(tab, done, it) && done <= done'
    ensures WhollyDone(tab, done', it)
  {
    var c :| it in c && c <= done && ClosedSet(tab, c);
    assert it in c && c <= done' && ClosedSet(tab, c);
  }

  /** While no work is counted, the complete items lead to nothing else. */
  lemma QuietIsClosed(tab: Tables, s: State)
    requires Inv(tab, s) && s.sync.working == 0
    ensures ClosedSet(tab, s.roots.done) && s.roots.done == s.roots.ids.Keys
  {
    QuietAllDone(tab, s);
    forall x, y | x in s.roots.done && y in Links(tab, x) ensures y in s.roots.done {
      if y !in Refs(tab, x) { assert StableOf(tab, x).Some? && y == St(StableOf(tab, x).value); }
    }
  }

  lemma DoneGrows(tab: Tables, s: State, t: nat)
    requires Enabled(s, t)
    ensures s.roots.done <= Step(tab, s, t).roots.done
  {}

  /** The frame from which a call goes on to hand over its item. */
  lemma BeforeReturn(tab: Tables, s: State, t: nat, it: Item)
    requires Inv(tab, s) && Enabled(s, t) && Stack(Step(tab, s, t), t) == [Return(it)]
    ensures |Stack(s, t)| == 1 && s.sync.working == 0
    ensures Stack(s, t)[0] in {GetWorking(it), HitUnlock(it), Unlock(it)}
  {
    var k := Stack(s, t);
    assert s.sync.owner != Some(t) ==> IdleOk(tab, s.roots, k);
    ReturnComesFrom(tab, s, t, it);
    assert Top(k) == k[0];
  }

  lemma ReturnComesFrom(tab: Tables, s: State, t: nat, it: Item)
    requires Inv(tab, s) && Enabled(s, t) && Stack(Step(tab, s, t), t) == [Return(it)]
    ensures |Stack(s, t)| == 1 && Leaves(s, Top(Stack(s, t)), it)
  {
    TopFacts(tab, s, t);
    if Top(Stack(s, t)).Return? {
      ReturnsToCaller(tab, s, t);
    } else {
      TopAfter(tab, s, t);
    }
  }

  /** The steps after which a call hands over its item. */
  predicate Leaves(s: State, f: Frame, it: Item) {
    f == HitUnlock(it) || f == Unlock(it) || (f == GetWorking(it) && s.sync.working == 0)
  }

  lemma TopAfter(tab: Tables, s: State, t: nat)
    requires Enabled(s, t) && !Top(Stack(s, t)).Return? && !Top(Stack(s, t)).WaitStable?
    ensures var k, k' := Stack(s, t), Stack(Step(tab, s, t), t);
            k' != [] && (Top(k').Return? ==> |k'| == |k| && Leaves(s, Top(k), Top(k').it))
  {}

  /** After a nested call, its caller goes on, and that does not hand over anything. */
  lemma ReturnsToCaller(tab: Tables, s: State, t: nat)
    requires Inv(tab, s) && Enabled(s, t) && Top(Stack(s, t)).Return?
    ensures var k' := Stack(Step(tab, s, t), t); k' == [] || !Top(k').Return?
  {
    var k := Stack(s, t);
    assert s.sync.owner != Some(t) ==> IdleOk(tab, s.roots, k);
    if |k| > 1 { assert Wants(tab, Top(Rest(k)), Top(k).it); }
  }

  lemma StepHands(tab: Tables, s: State, t: nat)
    requires Inv(tab, s) && Enabled(s, t) && Handed(tab, s)
    ensures Handed(tab, Step(tab, s, t))
  {
    var s' := Step(tab, s, t);
    DoneGrows(tab, s, t);
    forall u: nat, it: Item | Stack(s', u) == [Return(it)] ensures WhollyDone(tab, s'.roots.done, it) {
      if u == t {
        HandsWhole(tab, s, t, it);
      } else {
        StackStays(tab, s, t, u);
      }
      DoneStays(tab, s.roots.done, s'.roots.done, it);
    }
  }

  lemma HandsWhole(tab: Tables, s: State, t: nat, it: Item)
    requires Inv(tab, s) && Enabled(s, t) && Stack(Step(tab, s, t), t) == [Return(it)]
    ensures WhollyDone(tab, s.roots.done, it)
  {
    BeforeReturn(tab, s, t, it);
    QuietIsClosed(tab, s);
    assert s.sync.owner != Some(t) ==> IdleOk(tab, s.roots, Stack(s, t));
    assert FrameOk(tab, s.roots, Stack(s, t)[0], true);
    assert it in s.roots.done;
  }

  lemma NextHands(tab: Tables, s: State, s': State)
    requires Inv(tab, s) && Handed(tab, s) && Next(tab, s, s')
    ensures Handed(tab, s')
  {
    if t: nat :| Enabled(s, t) && s' == Step(tab, s, t) {
      StepHands(tab, s, t);
    } else {
      var t: nat, it: Item :| Stack(s, t) == [] && InRange(tab, it) && s' == Call(s, t, it);
      forall u: nat, x: Item | Stack(s', u) == [Return(x)] ensures WhollyDone(tab, s'.roots.done, x) {
        assert Stack(s, u) == [Return(x)];
      }
    }
  }

  lemma {:induction false} RunHands(tab: Tables, run: seq<State>, i: nat)
    requires WellFormed(tab) && IsRun(tab, run) && i < |run|
    ensures Handed(tab, run[i])
  {
    if i == 0 {
      FirstHands(tab, run);
    } else {
      RunHands(tab, run, i - 1);
      RunHandsOn(tab, run, i);
    }
  }

  lemma FirstHands(tab: Tables, run: seq<State>)
    requires IsRun(tab, run)
    ensures Handed(tab, run[0])
  {
    assert forall t: nat :: Stack(run[0], t) == [];
  }

  lemma RunHandsOn(tab: Tables, run: seq<State>, i: nat)
    requires WellFormed(tab) && IsRun(tab, run) && 0 < i < |run| && Handed(tab, run[i - 1])
    ensures Handed(tab, run[i])
  {
    RunInv(tab, run, i - 1);
    StepOf(tab, run, i);
    NextHands(tab, run[i - 1], run[i]);
  }

  /** A way through the context, from item to item. */
  ghost predicate IsPath(tab: Tables, p: seq<Item>) {
    p != [] && forall j | 0 < j < |p| :: LinkAt(tab, p, j)
  }

  /** The row of one item names the next: in its data, or as its STable. */
  ghost predicate LinkAt(tab: Tables, p: seq<Item>, j: nat)
    requires 0 < j < |p|
  {
    match p[j - 1]
    case Obj(i) => i < |tab.objects| && (p[j] in tab.objects[i].refs
                                         || (p[j].St? && tab.objects[i].stable == Some(p[j].i)))
    case St(i) => i < |tab.stables| && p[j] in tab.stables[i].refs
  }

  lemma {:induction false} PathStaysIn(tab: Tables, c: set<Item>, p: seq<Item>, j: nat)
    requires ClosedSet(tab, c) && IsPath(tab, p) && p[0] in c && j < |p|
    ensures p[j] in c
  {
    if j > 0 {
      PathStaysIn(tab, c, p, j - 1);
      assert LinkAt(tab, p, j);
    }
  }

  /** In every interleaving, not only the item that is handed over is completely deserialized, but
      all that can be reached from it, whatever the other threads are at. */
  lemma HandedOverClosed(tab: Tables, run: seq<State>, i: nat, t: nat, it: Item, p: seq<Item>)
    requires WellFormed(tab) && IsRun(tab, run) && i < |run| && Stack(run[i], t) == [Return(it)]
    requires IsPath(tab, p) && p[0] == it
    ensures p[|p| - 1] in run[i].roots.done
  {
    RunHands(tab, run, i);
    var c :| it in c && c <= run[i].roots.done && ClosedSet(tab, c);
    PathStaysIn(tab, c, p, |p| - 1);
  }

  // ----- what was asked for

  /** No step changes whom a thread's own call is for, while the call is pending. */
  lemma BottomStays(tab: Tables, s: State, t: nat)
    requires Enabled(s, t) && Stack(Step(tab, s, t), t) != []
    ensures Stack(Step(tab, s, t), t)[0].it == Stack(s, t)[0].it
  {
    var k := Stack(s, t);
    var rest := Rest(k);
    assert |k| > 1 ==> rest[0] == k[0];
    if Top(k).Return? && |k| > 1 { assert |rest| > 1 ==> Rest(rest)[0] == rest[0]; }
  }

  lemma NextBottomStays(tab: Tables, s: State, s': State, t: nat)
    requires Next(tab, s, s') && Stack(s, t) != [] && Stack(s', t) != []
    ensures Stack(s', t)[0].it == Stack(s, t)[0].it
  {
    if u: nat :| Enabled(s, u) && s' == Step(tab, s, u) {
      if u == t { BottomStays(tab, s, t); } else { StackStays(tab, s, u, t); }
    }
  }

  lemma RunBottomStays(tab: Tables, run: seq<State>, j: nat, t: nat)
    requires IsRun(tab, run) && 0 < j < |run| && Stack(run[j - 1], t) != [] && Stack(run[j], t) != []
    ensures Stack(run[j], t)[0].it == Stack(run[j - 1], t)[0].it
  {
    StepOf(tab, run, j);
    NextBottomStays(tab, run[j - 1], run[j], t);
  }

  /** A thread's call is pending all the time after `i` until `j`. */
  ghost predicate Pending(run: seq<State>, i: nat, j: nat, t: nat)
    requires j < |run|
  {
    forall k | i < k <= j :: Stack(run[k], t) != []
  }

  lemma {:induction false} BottomIsAsked(tab: Tables, run: seq<State>, i: nat, j: nat, t: nat, it: Item)
    requires IsRun(tab, run) && i < j < |run| && Stack(run[i], t) == [] && run[i + 1] == Call(run[i], t, it)
    requires Pending(run, i, j, t)
    ensures Stack(run[j], t)[0].it == it
    decreases j
  {
    if j > i + 1 {
      BottomIsAsked(tab, run, i, j - 1, t, it);
      RunBottomStays(tab, run, j, t);
    }
  }

  /** What a thread is handed is what it asked for: the object that fills the slot, complete, and
      the same that anyone is ever handed for that slot. */
  lemma AskedIsHanded(tab: Tables, run: seq<State>, i: nat, j: nat, t: nat, it: Item, x: Item)
    requires WellFormed(tab) && IsRun(tab, run) && i < j < |run|
    requires Stack(run[i], t) == [] && run[i + 1] == Call(run[i], t, it) && Pending(run, i, j, t)
    requires Stack(run[j], t) == [Return(x)]
    ensures x == it && it in run[j].roots.ids && it in run[j].roots.done
    ensures forall k | j <= k < |run| :: it in run[k].roots.ids && run[k].roots.ids[it] == run[j].roots.ids[it]
  {
    BottomIsAsked(tab, run, i, j, t, it);
    HandedOverComplete(tab, run, j, t, x);
    forall k | j <= k < |run| ensures it in run[k].roots.ids && run[k].roots.ids[it] == run[j].roots.ids[it] {
      IdentityIsStable(tab, run, j, k, it);
    }
  }
}
