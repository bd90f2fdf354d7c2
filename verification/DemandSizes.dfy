/** An STable is not complete before the STables that its size depends on are there. */
module DemandSizes {
  import opened Wrappers
  import opened Demand
  import opened DemandProofs
  import opened DemandProgress
  import opened DemandRuns

  /** The slots of the first `n` STables that an item's size depends on are filled. */
  ghost predicate SizedUpTo(tab: Tables, ids: set<Item>, it: Item, n: nat) {
    forall j | 0 <= j < n && j < |SizeRefs(tab, it)| :: St(SizeRefs(tab, it)[j]) in ids
  }

  ghost predicate FrameSized(tab: Tables, ids: set<Item>, f: Frame) {
    f.StubSize? ==> SizedUpTo(tab, ids, f.it, f.k)
  }

  /** Some call is about to find out the item's size. */
  ghost predicate Sizing(k: seq<Frame>, it: Item) {
    exists j :: 0 <= j < |k| && k[j].StubSize? && k[j].it == it
  }

  ghost predicate StackSized(tab: Tables, ids: set<Item>, k: seq<Frame>) {
    forall j | 0 <= j < |k| :: FrameSized(tab, ids, k[j])
  }

  ghost predicate ItemSized(tab: Tables, s: State, it: Item) {
    SizedUpTo(tab, s.roots.ids.Keys, it, |SizeRefs(tab, it)|) || exists t: nat :: Sizing(Stack(s, t), it)
  }

  ghost predicate Sizes(tab: Tables, s: State) {
    && (forall t: nat :: StackSized(tab, s.roots.ids.Keys, Stack(s, t)))
    && (forall it | it in s.roots.ids :: ItemSized(tab, s, it))
  }

  lemma SizedStays(tab: Tables, ids: set<Item>, ids': set<Item>, k: seq<Frame>)
    requires StackSized(tab, ids, k) && ids <= ids'
    ensures StackSized(tab, ids', k)
  {
    forall j | 0 <= j < |k| ensures FrameSized(tab, ids', k[j]) { assert FrameSized(tab, ids, k[j]); }
  }

  lemma IdsGrow(tab: Tables, s: State, t: nat)
    requires Enabled(s, t)
    ensures s.roots.ids.Keys <= Step(tab, s, t).roots.ids.Keys
  {}

  /** The calls below the one on top stay, and what comes on top has found out no size. */
  ghost predicate Above(k: seq<Frame>, k': seq<Frame>) {
    |k'| >= |k| - 1 && forall j | 0 <= j < |k'| :: if j < |k| - 1 then k'[j] == k[j] else Fresh(k, k'[j])
  }

  ghost predicate Fresh(k: seq<Frame>, f: Frame) {
    f.StubSize? ==> f.k == 0 || f in k
  }

  lemma StepAbove(tab: Tables, s: State, t: nat)
    requires Enabled(s, t) && !Top(Stack(s, t)).Return?
    ensures Above(Stack(s, t), Stack(Step(tab, s, t), t))
  {}

  lemma AboveSized(tab: Tables, ids: set<Item>, k: seq<Frame>, k': seq<Frame>)
    requires StackSized(tab, ids, k) && Above(k, k')
    ensures StackSized(tab, ids, k')
  {
    forall j | 0 <= j < |k'| ensures FrameSized(tab, ids, k'[j]) {
      if j < |k| - 1 {
        assert k'[j] == k[j] && FrameSized(tab, ids, k[j]);
      } else {
        assert Fresh(k, k'[j]);
        if k'[j] in k { var i :| 0 <= i < |k| && k[i] == k'[j]; assert FrameSized(tab, ids, k[i]); }
      }
    }
  }

  lemma ReturnSized(tab: Tables, s: State, t: nat)
    requires Inv(tab, s) && Enabled(s, t) && Top(Stack(s, t)).Return?
    requires StackSized(tab, s.roots.ids.Keys, Stack(s, t))
    ensures StackSized(tab, s.roots.ids.Keys, Stack(Step(tab, s, t), t))
  {
    var k, k' := Stack(s, t), Stack(Step(tab, s, t), t);
    TopFacts(tab, s, t);
    assert s.sync.owner != Some(t) ==> IdleOk(tab, s.roots, k);
    if |k| > 1 {
      var rest := Rest(k);
      assert Wants(tab, Top(rest), Top(k).it);
      forall j | 0 <= j < |k'| ensures FrameSized(tab, s.roots.ids.Keys, k'[j]) {
        assert FrameSized(tab, s.roots.ids.Keys, k[j]);
        assert j < |k'| - 1 ==> k'[j] == k[j];
      }
    }
  }

  lemma StepStackSized(tab: Tables, s: State, t: nat, u: nat)
    requires Inv(tab, s) && Enabled(s, t) && Sizes(tab, s)
    ensures StackSized(tab, Step(tab, s, t).roots.ids.Keys, Stack(Step(tab, s, t), u))
  {
    var s' := Step(tab, s, t);
    IdsGrow(tab, s, t);
    assert StackSized(tab, s.roots.ids.Keys, Stack(s, u));
    if u != t {
      StackStays(tab, s, t, u);
    } else if Top(Stack(s, t)).Return? {
      ReturnSized(tab, s, t);
    } else {
      StepAbove(tab, s, t);
      AboveSized(tab, s.roots.ids.Keys, Stack(s, t), Stack(s', t));
    }
    SizedStays(tab, s.roots.ids.Keys, s'.roots.ids.Keys, Stack(s', u));
  }

  /** A call that was about to find out a size still is, or has found it out. */
  lemma SizingGoesOn(tab: Tables, s: State, t: nat, it: Item)
    requires Enabled(s, t) && Sizing(Stack(s, t), it) && StackSized(tab, s.roots.ids.Keys, Stack(s, t))
    ensures Sizing(Stack(Step(tab, s, t), t), it) || SizedUpTo(tab, s.roots.ids.Keys, it, |SizeRefs(tab, it)|)
  {
    var k, k' := Stack(s, t), Stack(Step(tab, s, t), t);
    var j :| 0 <= j < |k| && k[j].StubSize? && k[j].it == it;
    assert FrameSized(tab, s.roots.ids.Keys, k[j]);
    if Top(k).Return? {
      assert j < |k| - 1;
      assert k'[j].StubSize? && k'[j].it == it;
    } else if j < |k| - 1 {
      StepAbove(tab, s, t);
      assert k'[j] == k[j];
    } else if k[j].k < |SizeRefs(tab, it)| {
      assert k'[j] == k[j];
    }
  }

  lemma NewIsSizing(tab: Tables, s: State, t: nat, it: Item)
    requires Enabled(s, t) && it in Step(tab, s, t).roots.ids && it !in s.roots.ids
    requires Top(Stack(s, t)).StubAlloc? ==> Top(Stack(s, t)).it.Obj?
    ensures SizeRefs(tab, it) == [] || Sizing(Stack(Step(tab, s, t), t), it)
  {
    var k' := Stack(Step(tab, s, t), t);
    if Top(Stack(s, t)).Stub? { assert Top(k').StubSize? && Top(k').it == it; }
  }

  lemma StepItemSized(tab: Tables, s: State, t: nat, it: Item)
    requires Inv(tab, s) && Enabled(s, t) && Sizes(tab, s) && it in Step(tab, s, t).roots.ids
    ensures ItemSized(tab, Step(tab, s, t), it)
  {
    var s' := Step(tab, s, t);
    IdsGrow(tab, s, t);
    TopFacts(tab, s, t);
    if it !in s.roots.ids {
      NewIsSizing(tab, s, t, it);
    } else {
      assert ItemSized(tab, s, it);
      if u: nat :| Sizing(Stack(s, u), it) {
        assert StackSized(tab, s.roots.ids.Keys, Stack(s, u));
        if u == t { SizingGoesOn(tab, s, t, it); } else { StackStays(tab, s, t, u); }
      }
    }
  }

  lemma StepSizes(tab: Tables, s: State, t: nat)
    requires Inv(tab, s) && Enabled(s, t) && Sizes(tab, s)
    ensures Sizes(tab, Step(tab, s, t))
  {
    forall u: nat ensures StackSized(tab, Step(tab, s, t).roots.ids.Keys, Stack(Step(tab, s, t), u)) {
      StepStackSized(tab, s, t, u);
    }
    forall it | it in Step(tab, s, t).roots.ids ensures ItemSized(tab, Step(tab, s, t), it) {
      StepItemSized(tab, s, t, it);
    }
  }

  lemma CallSizes(tab: Tables, s: State, t: nat, it: Item)
    requires Stack(s, t) == [] && Sizes(tab, s)
    ensures Sizes(tab, Call(s, t, it))
  {
    var s' := Call(s, t, it);
    forall u: nat ensures StackSized(tab, s'.roots.ids.Keys, Stack(s', u)) {
      assert StackSized(tab, s.roots.ids.Keys, Stack(s, u));
    }
    forall x | x in s'.roots.ids ensures ItemSized(tab, s', x) {
      assert ItemSized(tab, s, x);
      if u: nat :| Sizing(Stack(s, u), x) { assert Stack(s', u) == Stack(s, u); }
    }
  }

  lemma NextSizes(tab: Tables, s: State, s': State)
    requires Inv(tab, s) && Sizes(tab, s) && Next(tab, s, s')
    ensures Sizes(tab, s')
  {
    if t: nat :| Enabled(s, t) && s' == Step(tab, s, t) {
      StepSizes(tab, s, t);
    } else {
      var t: nat, it: Item :| Stack(s, t) == [] && InRange(tab, it) && s' == Call(s, t, it);
      CallSizes(tab, s, t, it);
    }
  }

  /** Items that are there from the beginning have the STables their sizes depend on. */
  ghost predicate SizedAtFirst(tab: Tables, s: State) {
    forall it | it in s.roots.ids :: SizedUpTo(tab, s.roots.ids.Keys, it, |SizeRefs(tab, it)|)
  }

  lemma FirstSizes(tab: Tables, run: seq<State>)
    requires IsRun(tab, run) && SizedAtFirst(tab, run[0])
    ensures Sizes(tab, run[0])
  {
    assert forall t: nat :: Stack(run[0], t) == [];
  }

  lemma RunSizesOn(tab: Tables, run: seq<State>, i: nat)
    requires WellFormed(tab) && IsRun(tab, run) && 0 < i < |run| && Sizes(tab, run[i - 1])
    ensures Sizes(tab, run[i])
  {
    RunInv(tab, run, i - 1);
    StepOf(tab, run, i);
    NextSizes(tab, run[i - 1], run[i]);
  }

  lemma {:induction false} RunSizes(tab: Tables, run: seq<State>, i: nat)
    requires WellFormed(tab) && IsRun(tab, run) && i < |run| && SizedAtFirst(tab, run[0])
    ensures Sizes(tab, run[i])
  {
    if i == 0 {
      FirstSizes(tab, run);
    } else {
      RunSizes(tab, run, i - 1);
      RunSizesOn(tab, run, i);
    }
  }

  lemma {:induction false} SizingIsCarried(k: seq<Frame>, it: Item)
    requires Sizing(k, it)
    ensures it in Carried(k)
  {
    var j :| 0 <= j < |k| && k[j].StubSize? && k[j].it == it;
    if j < |k| - 1 {
      assert Rest(k)[j] == k[j];
      SizingIsCarried(Rest(k), it);
    }
  }

  lemma SizingIsPending(tab: Tables, s: State, t: nat, it: Item)
    requires Inv(tab, s) && Sizing(Stack(s, t), it)
    ensures it !in s.roots.done
  {
    assert s.sync.owner != Some(t) ==> IdleOk(tab, s.roots, Stack(s, t));
    SizingIsCarried(Stack(s, t), it);
    PendingIsFilled(s.roots, s.work, BusyStack(s), it);
  }

  lemma DoneIsFilled(r: Roots, w: Work, k: seq<Frame>, it: Item)
    requires Conserved(r, w, k) && it in r.done
    ensures it in r.ids
  {
    assert multiset(r.ids.Keys)[it] >= multiset(r.done)[it] >= 1;
  }

  lemma DoneIsSized(tab: Tables, s: State, it: Item)
    requires Inv(tab, s) && Sizes(tab, s) && it in s.roots.done
    ensures SizedUpTo(tab, s.roots.ids.Keys, it, |SizeRefs(tab, it)|)
  {
    DoneIsFilled(s.roots, s.work, BusyStack(s), it);
    forall t: nat ensures !Sizing(Stack(s, t), it) {
      if Sizing(Stack(s, t), it) { SizingIsPending(tab, s, t, it); }
    }
    assert ItemSized(tab, s, it);
  }

  /** In every state of every run, the STables that the size of a complete STable depends on, as its
      row lists them, are filled. */
  lemma SizesDemanded(tab: Tables, run: seq<State>, i: nat, n: nat, j: nat)
    requires WellFormed(tab) && IsRun(tab, run) && i < |run| && SizedAtFirst(tab, run[0])
    requires St(n) in run[i].roots.done && n < |tab.stables| && j in tab.stables[n].sizeRefs
    ensures St(j) in run[i].roots.ids
  {
    RunInv(tab, run, i);
    RunSizes(tab, run, i);
    DoneIsSized(tab, run[i], St(n));
    var m :| 0 <= m < |tab.stables[n].sizeRefs| && tab.stables[n].sizeRefs[m] == j;
    assert SizeRefs(tab, St(n))[m] == j;
  }
}
