/** What holds in every run of the lazy deserializer, whatever the interleaving. */
module DemandRuns {
  import opened Wrappers
  import opened Demand
  import opened DemandProofs

  lemma InitInv(tab: Tables, s: State)
    requires Init(tab, s)
    ensures Inv(tab, s)
  {
    forall u: nat ensures IdleOk(tab, s.roots, Stack(s, u)) {}
  }

  lemma NextInv(tab: Tables, s: State, s': State)
    requires WellFormed(tab) && Inv(tab, s) && Next(tab, s, s')
    ensures Inv(tab, s')
  {
    if t: nat :| Enabled(s, t) && s' == Step(tab, s, t) {
      StepInv(tab, s, t);
    } else {
      var t: nat, it: Item :| Stack(s, t) == [] && InRange(tab, it) && s' == Call(s, t, it);
      assert s.sync.owner != Some(t);
      CallInv(tab, s, t, it);
    }
  }

  lemma StepOf(tab: Tables, run: seq<State>, i: nat)
    requires IsRun(tab, run) && 0 < i < |run|
    ensures Next(tab, run[i - 1], run[i])
  {
    assert NextAt(tab, run, i);
  }

  lemma RunStarts(tab: Tables, run: seq<State>)
    requires IsRun(tab, run)
    ensures Inv(tab, run[0])
  {
    InitInv(tab, run[0]);
  }

  lemma RunGoesOn(tab: Tables, run: seq<State>, i: nat)
    requires WellFormed(tab) && IsRun(tab, run) && 0 < i < |run| && Inv(tab, run[i - 1])
    ensures Inv(tab, run[i])
  {
    StepOf(tab, run, i);
    NextInv(tab, run[i - 1], run[i]);
  }

  lemma {:induction false} RunInv(tab: Tables, run: seq<State>, i: nat)
    requires WellFormed(tab) && IsRun(tab, run) && i < |run|
    ensures Inv(tab, run[i])
  {
    if i == 0 {
      RunStarts(tab, run);
    } else {
      RunInv(tab, run, i - 1);
      RunGoesOn(tab, run, i);
    }
  }

  /** The application never gets a half-deserialized item: whatever a thread's own call is
      about to hand over, by the fast path or after locking, is filled and complete. */
  lemma HandedOverComplete(tab: Tables, run: seq<State>, i: nat, t: nat, it: Item)
    requires WellFormed(tab) && IsRun(tab, run) && i < |run| && Stack(run[i], t) == [Return(it)]
    ensures it in run[i].roots.ids && it in run[i].roots.done && run[i].sync.owner != Some(t)
  {
    RunInv(tab, run, i);
    assert run[i].sync.owner != Some(t) ==> IdleOk(tab, run[i].roots, Stack(run[i], t));
  }

  /** A filled but incomplete slot means that work is counted and the mutex is held. */
  lemma IncompleteMeansLocked(tab: Tables, run: seq<State>, i: nat, it: Item)
    requires WellFormed(tab) && IsRun(tab, run) && i < |run| && it in run[i].roots.ids && it !in run[i].roots.done
    ensures run[i].sync.working >= 1 && run[i].sync.owner.Some? && run[i].sync.depth >= 1
  {
    RunInv(tab, run, i);
    if run[i].sync.working == 0 { QuietAllDone(tab, run[i]); }
  }

  /** Only the mutex holder is ever inside a demand. */
  lemma OthersAreOutside(tab: Tables, run: seq<State>, i: nat, t: nat)
    requires WellFormed(tab) && IsRun(tab, run) && i < |run| && run[i].sync.owner != Some(t)
    ensures |Stack(run[i], t)| <= 1 && forall f | f in Stack(run[i], t) :: !Locked(f)
  {
    RunInv(tab, run, i);
    assert IdleOk(tab, run[i].roots, Stack(run[i], t));
  }

  /** When the outermost demand has counted down, the worklists are empty, every filled slot
      was stubbed once and deserialized once, and all it refers to is complete as well. */
  lemma OutermostIsQuiescent(tab: Tables, run: seq<State>, i: nat)
    requires WellFormed(tab) && IsRun(tab, run) && i < |run| && run[i].sync.working == 0
    ensures var r := run[i].roots;
            && run[i].work == Work([], [])
            && r.done == r.ids.Keys && r.stubbed == r.deserialized == multiset(r.done)
            && (forall it, x | it in r.done && x in Refs(tab, it) :: x in r.done)
            && (forall it | it in r.done :: StableOf(tab, it).Some? ==> St(StableOf(tab, it).value) in r.done)
  {
    RunInv(tab, run, i);
    QuietAllDone(tab, run[i]);
    var k := BusyStack(run[i]);
    assert k != [] ==> |k| == 1;
  }

  /** Why the work loop takes STables first: the STable of an object it takes is complete. */
  lemma StableBeforeObject(tab: Tables, run: seq<State>, i: nat, t: nat)
    requires WellFormed(tab) && IsRun(tab, run) && i < |run|
    requires Stack(run[i], t) != [] && Top(Stack(run[i], t)).Loop? && run[i].work != Work([], [])
    ensures var cur := NextWork(run[i].work);
            StableOf(tab, cur).Some? ==> St(StableOf(tab, cur).value) in run[i].roots.done
  {
    RunInv(tab, run, i);
    if StableOf(tab, NextWork(run[i].work)).Some? { TakesAfterStable(tab, run[i], t); }
  }

  lemma TakesAfterStable(tab: Tables, s: State, t: nat)
    requires Inv(tab, s) && Stack(s, t) != [] && Top(Stack(s, t)).Loop?
    requires s.work != Work([], []) && StableOf(tab, NextWork(s.work)).Some?
    ensures St(StableOf(tab, NextWork(s.work)).value) in s.roots.done
  {
    assert s.sync.owner != Some(t) ==> IdleOk(tab, s.roots, Stack(s, t));
    StableIsDone(tab, s.roots, s.work, Stack(s, t));
  }

  lemma StableIsDone(tab: Tables, r: Roots, w: Work, k: seq<Frame>)
    requires Conserved(r, w, k) && WorkOk(w, k) && Typed(tab, r) && |k| == 1 && k[0].Loop?
    requires w != Work([], []) && StableOf(tab, NextWork(w)).Some?
    ensures St(StableOf(tab, NextWork(w)).value) in r.done
  {
    ObjectsLast(w, k);
    PendingIsFilled(r, w, k, NextWork(w));
    NoStableIsPending(r, w, k, St(StableOf(tab, NextWork(w)).value));
  }

  lemma ObjectsLast(w: Work, k: seq<Frame>)
    requires WorkOk(w, k) && w != Work([], []) && NextWork(w).Obj?
    ensures w.stables == [] && NextWork(w) in w.objects
  {
    var x := NextWork(w);
    assert w.stables != [] ==> x in w.stables;
  }

  /** With no STable queued and none in the hands of a call, a filled one is complete. */
  lemma NoStableIsPending(r: Roots, w: Work, k: seq<Frame>, x: Item)
    requires Conserved(r, w, k) && WorkOk(w, k) && |k| == 1 && k[0].Loop?
    requires w.stables == [] && x.St? && x in r.ids
    ensures x in r.done
  {
    assert Rest(k) == [] && Carried(k) == multiset{};
    assert multiset(r.ids.Keys)[x] == multiset(r.done)[x] + Queued(w)[x];
    assert x !in w.objects;
  }

  /** The call a thread made on its own is about to leave the mutex only in such a state. */
  lemma OutermostUnlocks(tab: Tables, run: seq<State>, i: nat, t: nat, it: Item)
    requires WellFormed(tab) && IsRun(tab, run) && i < |run| && Stack(run[i], t) == [Unlock(it)]
    ensures run[i].sync == Sync(Some(t), 1, 0)
  {
    RunInv(tab, run, i);
    UnlocksLast(tab, run[i], t, it);
  }

  lemma UnlocksLast(tab: Tables, s: State, t: nat, it: Item)
    requires Inv(tab, s) && Stack(s, t) == [Unlock(it)]
    ensures s.sync == Sync(Some(t), 1, 0)
  {
    assert s.sync.owner != Some(t) ==> IdleOk(tab, s.roots, Stack(s, t));
  }

  lemma StepKeepsIdentity(tab: Tables, s: State, t: nat, it: Item)
    requires Inv(tab, s) && Enabled(s, t) && it in s.roots.ids
    ensures it in Step(tab, s, t).roots.ids && Step(tab, s, t).roots.ids[it] == s.roots.ids[it]
  {
    match Top(Stack(s, t))
    case StubAlloc(_) => FillsEmptySlot(tab, s, t);
    case Stub(_) => FillsEmptySlot(tab, s, t);
    case _ =>
  }

  /** A slot that is about to be filled is empty. */
  lemma FillsEmptySlot(tab: Tables, s: State, t: nat)
    requires Inv(tab, s) && Enabled(s, t) && (Top(Stack(s, t)).StubAlloc? || Top(Stack(s, t)).Stub?)
    ensures Top(Stack(s, t)).it !in s.roots.ids
  {
    assert s.sync.owner != Some(t) ==> IdleOk(tab, s.roots, Stack(s, t));
    assert FrameOk(tab, s.roots, Top(Stack(s, t)), |Stack(s, t)| == 1);
  }

  lemma NextKeepsIdentity(tab: Tables, s: State, s': State, it: Item)
    requires Inv(tab, s) && Next(tab, s, s') && it in s.roots.ids
    ensures it in s'.roots.ids && s'.roots.ids[it] == s.roots.ids[it]
  {
    if t: nat :| Enabled(s, t) && s' == Step(tab, s, t) {
      StepKeepsIdentity(tab, s, t, it);
    }
  }

  lemma RunStepKeepsIdentity(tab: Tables, run: seq<State>, j: nat, it: Item)
    requires WellFormed(tab) && IsRun(tab, run) && 0 < j < |run| && it in run[j - 1].roots.ids
    ensures it in run[j].roots.ids && run[j].roots.ids[it] == run[j - 1].roots.ids[it]
  {
    RunInv(tab, run, j - 1);
    StepOf(tab, run, j);
    NextKeepsIdentity(tab, run[j - 1], run[j], it);
  }

  /** Once a slot is filled, what fills it never changes. */
  lemma {:induction false} IdentityIsStable(tab: Tables, run: seq<State>, i: nat, j: nat, it: Item)
    requires WellFormed(tab) && IsRun(tab, run) && i <= j < |run| && it in run[i].roots.ids
    ensures it in run[j].roots.ids && run[j].roots.ids[it] == run[i].roots.ids[it]
  {
    if i < j {
      IdentityIsStable(tab, run, i, j - 1, it);
      RunStepKeepsIdentity(tab, run, j, it);
    }
  }

  /** Where the row of an item says that its data begin. */
  ghost predicate DataAt(tab: Tables, cur: Item, buffer: Buffer, offset: nat) {
    match cur
    case Obj(i) => i < |tab.objects| && buffer == ObjectsData && offset == tab.objects[i].offset
    case St(i) => i < |tab.stables| && buffer == StablesData && offset == tab.stables[i].offset
  }

  /** Whatever was stubbed in between, the call that deserializes `cur` goes on reading
      exactly where it left off: `k` references into that item's own data. */
  lemma CursorIsKept(tab: Tables, run: seq<State>, i: nat, t: nat)
    requires WellFormed(tab) && IsRun(tab, run) && i < |run|
    requires Stack(run[i], t) != [] && Top(Stack(run[i], t)).Deserialize?
    ensures var f, r := Top(Stack(run[i], t)), run[i].reader;
            && r.buffer == (if f.cur.St? then StablesData else ObjectsData)
            && ReadOffset(r) == Offset(tab, f.cur) + f.k
            && (InRange(tab, f.cur) ==> DataAt(tab, f.cur, r.buffer, ReadOffset(r) - f.k))
  {
    RunInv(tab, run, i);
    CursorIs(tab, run[i], t);
  }

  /** And the call that finds out the size of an STable reads where the row says that the data of its
      representation begin. */
  lemma SizeCursorIsKept(tab: Tables, run: seq<State>, i: nat, t: nat)
    requires WellFormed(tab) && IsRun(tab, run) && i < |run|
    requires Stack(run[i], t) != [] && Top(Stack(run[i], t)).StubSize?
    ensures var f, r := Top(Stack(run[i], t)), run[i].reader;
            && f.it.St? && f.it.i < |tab.stables|
            && r.buffer == StablesData && ReadOffset(r) == tab.stables[f.it.i].sizeOffset + f.k
  {
    RunInv(tab, run, i);
    SizeCursorIs(tab, run[i], t);
  }

  lemma SizeCursorIs(tab: Tables, s: State, t: nat)
    requires Inv(tab, s) && Stack(s, t) != [] && Top(Stack(s, t)).StubSize?
    ensures var f := Top(Stack(s, t));
            && f.it.St? && f.it.i < |tab.stables|
            && s.reader.buffer == StablesData && ReadOffset(s.reader) == tab.stables[f.it.i].sizeOffset + f.k
  {
    assert s.sync.owner != Some(t) ==> IdleOk(tab, s.roots, Stack(s, t));
  }

  lemma CursorIs(tab: Tables, s: State, t: nat)
    requires Inv(tab, s) && Stack(s, t) != [] && Top(Stack(s, t)).Deserialize?
    ensures var f := Top(Stack(s, t));
            && s.reader.buffer == (if f.cur.St? then StablesData else ObjectsData)
            && ReadOffset(s.reader) == Offset(tab, f.cur) + f.k
  {
    assert s.sync.owner != Some(t) ==> IdleOk(tab, s.roots, Stack(s, t));
  }
}
