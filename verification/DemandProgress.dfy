/** A demand that holds the mutex is never blocked and comes to an end: the stubs break
    the cycles of the object graph. */
module DemandProgress {
  import opened Wrappers
  import opened Demand
  import opened DemandProofs

  /** Own steps an item still needs once it is queued, and once it is first demanded. */
  function DataCost(tab: Tables, it: Item): nat { 2 + 27 * |Refs(tab, it)| }

  function ItemCost(tab: Tables, it: Item): nat { 14 * |SizeRefs(tab, it)| + DataCost(tab, it) }

  /** Own steps a call still needs by itself: nested hits included, unfilled items not. */
  function FrameCost(tab: Tables, f: Frame): nat {
    var extra := if f.it.Obj? then 13 else 0;
    match f
    case Return(_) => 1
    case HitUnlock(_) => 2
    case Unlock(_) => 2
    case Finish(_) => 3
    case Loop(_) => 4
    case Decide(_) => 5
    case Deserialize(_, cur, k, _) => 5 + 27 * (if k < |Refs(tab, cur)| then |Refs(tab, cur)| - k else 0)
    case Enqueue(it) => 6 + DataCost(tab, it)
    case WaitStable(_) => 7
    case StubAlloc(_) => 7
    case StubSize(it, k, _) =>
      7 + 14 * (if k < |SizeRefs(tab, it)| then |SizeRefs(tab, it)| - k else 0) + DataCost(tab, it)
    case Stub(_) => 8 + extra
    case Begin(_) => 9 + extra
    case Recheck(_) => 10 + extra
    case Lock(_) => 11 + extra
    case GetWorking(_) => 12 + extra
    case GetRoot(_) => 13 + extra
  }

  /** A waiting call will go on one reference later. */
  function WaitCost(tab: Tables, k: seq<Frame>): nat {
    if k == [] then 0 else FrameCost(tab, Resume(Top(k))) + WaitCost(tab, Rest(k))
  }

  function StackCost(tab: Tables, k: seq<Frame>): nat {
    if k == [] then 0 else FrameCost(tab, Top(k)) + WaitCost(tab, Rest(k))
  }

  function QueueCost(tab: Tables, q: seq<Item>): nat {
    if q == [] then 0 else QueueCost(tab, q[..|q| - 1]) + DataCost(tab, q[|q| - 1])
  }

  function AllItems(tab: Tables): seq<Item> {
    seq(|tab.objects|, i requires i >= 0 => Obj(i)) + seq(|tab.stables|, i requires i >= 0 => St(i))
  }

  function UnfilledCost(tab: Tables, q: seq<Item>, filled: set<Item>): nat {
    if q == [] then 0
    else UnfilledCost(tab, q[1..], filled) + if q[0] in filled then 0 else ItemCost(tab, q[0])
  }

  /** A bound on the own steps thread `t` still makes for its current call. */
  function Remaining(tab: Tables, s: State, t: nat): nat {
    StackCost(tab, Stack(s, t)) + QueueCost(tab, s.work.stables) + QueueCost(tab, s.work.objects)
    + UnfilledCost(tab, AllItems(tab), s.roots.ids.Keys)
  }

  lemma {:induction false} FillingPays(tab: Tables, q: seq<Item>, filled: set<Item>, it: Item)
    ensures UnfilledCost(tab, q, filled + {it}) <= UnfilledCost(tab, q, filled)
    ensures it in q && it !in filled ==>
              UnfilledCost(tab, q, filled + {it}) + ItemCost(tab, it) <= UnfilledCost(tab, q, filled)
  {
    if q != [] { FillingPays(tab, q[1..], filled, it); }
  }

  lemma FillPays(tab: Tables, r: Roots, it: Item)
    requires InRange(tab, it) && it !in r.ids
    ensures UnfilledCost(tab, AllItems(tab), Fill(r, it).ids.Keys) + ItemCost(tab, it)
            <= UnfilledCost(tab, AllItems(tab), r.ids.Keys)
  {
    assert it in AllItems(tab) by {
      match it
      case Obj(i) => assert AllItems(tab)[i] == it;
      case St(i) => assert AllItems(tab)[|tab.objects| + i] == it;
    }
    assert Fill(r, it).ids.Keys == r.ids.Keys + {it};
    FillingPays(tab, AllItems(tab), r.ids.Keys, it);
  }

  lemma QueuePays(tab: Tables, w: Work, it: Item)
    ensures QueueCost(tab, Queue(w, it).stables) + QueueCost(tab, Queue(w, it).objects)
            == QueueCost(tab, w.stables) + QueueCost(tab, w.objects) + DataCost(tab, it)
  {
    assert (w.stables + [it])[..|w.stables|] == w.stables && (w.objects + [it])[..|w.objects|] == w.objects;
  }

  lemma SwapCost(tab: Tables, k: seq<Frame>, f: Frame)
    requires k != []
    ensures StackCost(tab, Rest(k) + [f]) == StackCost(tab, k) - FrameCost(tab, Top(k)) + FrameCost(tab, f)
  {
    assert Rest(Rest(k) + [f]) == Rest(k);
  }

  lemma DescendCost(tab: Tables, k1: seq<Frame>, x: Item)
    requires k1 != []
    ensures StackCost(tab, k1 + [GetRoot(x)])
            == StackCost(tab, k1) - FrameCost(tab, Top(k1)) + FrameCost(tab, Resume(Top(k1)))
               + FrameCost(tab, GetRoot(x))
  {
    assert Rest(k1 + [GetRoot(x)]) == k1;
  }

  /** The holder of the mutex can always go on. */
  lemma HolderNotBlocked(tab: Tables, s: State, t: nat)
    requires Inv(tab, s) && s.sync.owner == Some(t)
    ensures Enabled(s, t) && !Top(Stack(s, t)).WaitStable?
  {}

  /** What the top call can rely on, whichever thread it belongs to. */
  lemma TopFacts(tab: Tables, s: State, t: nat)
    requires Inv(tab, s) && Enabled(s, t)
    ensures var k := Stack(s, t);
            InRange(tab, Top(k).it) && FrameOk(tab, s.roots, Top(k), |k| == 1) && !Top(k).WaitStable?
    ensures |Stack(s, t)| > 1 ==> Waiting(Top(Rest(Stack(s, t))))
  {
    if s.sync.owner != Some(t) { assert IdleOk(tab, s.roots, Stack(s, t)); }
  }

  /** Steps that fill a slot. */
  lemma FillStepCosts(tab: Tables, s: State, t: nat)
    requires Enabled(s, t) && InRange(tab, Top(Stack(s, t)).it) && Top(Stack(s, t)).it !in s.roots.ids
    requires Top(Stack(s, t)).StubAlloc? || (Top(Stack(s, t)).Stub? && Top(Stack(s, t)).it.St?)
    ensures Remaining(tab, Step(tab, s, t), t) < Remaining(tab, s, t)
  {
    var k := Stack(s, t);
    FillPays(tab, s.roots, Top(k).it);
    if Top(k).StubAlloc? {
      SwapCost(tab, k, Enqueue(Top(k).it));
    } else {
      SwapCost(tab, k, StubSize(Top(k).it, 0, Save(s.reader)));
    }
  }

  /** Steps that make a nested call. */
  lemma StubStepCosts(tab: Tables, s: State, t: nat)
    requires Enabled(s, t)
    requires Top(Stack(s, t)).Stub? && Top(Stack(s, t)).it.Obj? && StableOf(tab, Top(Stack(s, t)).it).Some?
    ensures Remaining(tab, Step(tab, s, t), t) < Remaining(tab, s, t)
  {
    var k := Stack(s, t);
    var w := WaitStable(Top(k).it);
    var x := St(StableOf(tab, Top(k).it).value);
    SwapCost(tab, k, w);
    DescendCost(tab, Rest(k) + [w], x);
    assert Rest(k) + [w, GetRoot(x)] == Rest(k) + [w] + [GetRoot(x)];
  }

  lemma NestStepCosts(tab: Tables, s: State, t: nat, x: Item)
    requires Enabled(s, t) && Waiting(Top(Stack(s, t)))
    requires Step(tab, s, t) == Put(s.(reader := Advance(s.reader)), t, Stack(s, t) + [GetRoot(x)])
    requires FrameCost(tab, Resume(Top(Stack(s, t)))) + FrameCost(tab, GetRoot(x)) < FrameCost(tab, Top(Stack(s, t)))
    ensures Remaining(tab, Step(tab, s, t), t) < Remaining(tab, s, t)
  {
    DescendCost(tab, Stack(s, t), x);
  }

  lemma ReturnStepCosts(tab: Tables, s: State, t: nat)
    requires Enabled(s, t) && Top(Stack(s, t)).Return?
    ensures Remaining(tab, Step(tab, s, t), t) < Remaining(tab, s, t)
  {
    var rest := Rest(Stack(s, t));
    if rest != [] {
      assert Rest(Rest(rest) + [Resume(Top(rest))]) == Rest(rest);
    }
  }

  /** The next frame of a step that neither fills nor nests, and the work left by it. */
  lemma PlainStepCosts(tab: Tables, s: State, t: nat, f: Frame)
    requires Enabled(s, t) && FrameCost(tab, f) < FrameCost(tab, Top(Stack(s, t)))
    requires var s' := Step(tab, s, t);
             Stack(s', t) == Rest(Stack(s, t)) + [f] && s'.work == s.work && s'.roots.ids == s.roots.ids
    ensures Remaining(tab, Step(tab, s, t), t) < Remaining(tab, s, t)
  {
    SwapCost(tab, Stack(s, t), f);
  }

  lemma WorkStepCosts(tab: Tables, s: State, t: nat)
    requires Enabled(s, t)
    requires Top(Stack(s, t)).Enqueue? || (Top(Stack(s, t)).Loop? && s.work != Work([], []))
    ensures Remaining(tab, Step(tab, s, t), t) < Remaining(tab, s, t)
  {
    var k := Stack(s, t);
    if Top(k).Enqueue? {
      SwapCost(tab, k, Decide(Top(k).it));
      QueuePays(tab, s.work, Top(k).it);
    } else {
      SwapCost(tab, k, Deserialize(Top(k).it, NextWork(s.work), 0, Save(s.reader)));
    }
  }

  /** Steps on the way into a demand. */
  lemma EnterStepCosts(tab: Tables, s: State, t: nat)
    requires Enabled(s, t)
    requires var f := Top(Stack(s, t)); f.GetRoot? || f.GetWorking? || f.Lock? || f.Recheck? || f.Begin?
    ensures Remaining(tab, Step(tab, s, t), t) < Remaining(tab, s, t)
  {
    match Top(Stack(s, t))
    case GetRoot(it) => PlainStepCosts(tab, s, t, if it in s.roots.ids then GetWorking(it) else Lock(it));
    case GetWorking(it) => PlainStepCosts(tab, s, t, if s.sync.working == 0 then Return(it) else Lock(it));
    case Lock(it) => PlainStepCosts(tab, s, t, Recheck(it));
    case Recheck(it) => PlainStepCosts(tab, s, t, if it in s.roots.ids then HitUnlock(it) else Begin(it));
    case Begin(it) => PlainStepCosts(tab, s, t, Stub(it));
  }

  /** Steps on the way out of a demand. */
  lemma LeaveStepCosts(tab: Tables, s: State, t: nat)
    requires Enabled(s, t)
    requires var f := Top(Stack(s, t));
             f.HitUnlock? || f.Decide? || f.Finish? || f.Unlock? || (f.Loop? && s.work == Work([], []))
    ensures Remaining(tab, Step(tab, s, t), t) < Remaining(tab, s, t)
  {
    match Top(Stack(s, t))
    case HitUnlock(it) => PlainStepCosts(tab, s, t, Return(it));
    case Decide(it) => PlainStepCosts(tab, s, t, if s.sync.working == 1 then Loop(it) else Finish(it));
    case Loop(it) => PlainStepCosts(tab, s, t, Finish(it));
    case Finish(it) => PlainStepCosts(tab, s, t, Unlock(it));
    case Unlock(it) => PlainStepCosts(tab, s, t, Return(it));
  }

  /** Steps of a stub or of a deserialization. */
  lemma ItemStepCosts(tab: Tables, s: State, t: nat)
    requires Enabled(s, t) && InRange(tab, Top(Stack(s, t)).it)
    requires Top(Stack(s, t)).Stub? ==> Top(Stack(s, t)).it !in s.roots.ids
    requires var f := Top(Stack(s, t)); f.Stub? || f.StubSize? || f.Deserialize?
    ensures Remaining(tab, Step(tab, s, t), t) < Remaining(tab, s, t)
  {
    match Top(Stack(s, t))
    case Stub(it) =>
      if it.St? {
        FillStepCosts(tab, s, t);
      } else if StableOf(tab, it).Some? {
        StubStepCosts(tab, s, t);
      } else {
        PlainStepCosts(tab, s, t, StubAlloc(it));
      }
    case StubSize(it, n, saved) =>
      if n < |SizeRefs(tab, it)| {
        NestStepCosts(tab, s, t, St(SizeRefs(tab, it)[n]));
      } else {
        PlainStepCosts(tab, s, t, Enqueue(it));
      }
    case Deserialize(it, cur, n, saved) =>
      if n < |Refs(tab, cur)| {
        NestStepCosts(tab, s, t, Refs(tab, cur)[n]);
      } else {
        PlainStepCosts(tab, s, t, Loop(it));
      }
  }

  /** Every step a thread makes brings the end of its call nearer. */
  lemma StepCosts(tab: Tables, s: State, t: nat)
    requires Inv(tab, s) && Enabled(s, t)
    ensures Remaining(tab, Step(tab, s, t), t) < Remaining(tab, s, t)
  {
    TopFacts(tab, s, t);
    var f := Top(Stack(s, t));
    if f.GetRoot? || f.GetWorking? || f.Lock? || f.Recheck? || f.Begin? {
      EnterStepCosts(tab, s, t);
    } else if f.Stub? || f.StubSize? || f.Deserialize? {
      ItemStepCosts(tab, s, t);
    } else if f.StubAlloc? {
      FillStepCosts(tab, s, t);
    } else if f.Return? {
      ReturnStepCosts(tab, s, t);
    } else if f.Enqueue? || (f.Loop? && s.work != Work([], [])) {
      WorkStepCosts(tab, s, t);
    } else {
      LeaveStepCosts(tab, s, t);
    }
  }

  /** A thread outside the mutex that cannot take it only touches its own calls. */
  lemma OutsideStep(tab: Tables, s: State, u: nat)
    requires Inv(tab, s) && s.sync.owner.Some? && s.sync.owner != Some(u) && Enabled(s, u)
    ensures Step(tab, s, u) == Put(s, u, Stack(Step(tab, s, u), u))
  {
    assert IdleOk(tab, s.roots, Stack(s, u));
  }

  /** While a thread holds the mutex, the steps of the others neither help nor hinder it. */
  lemma OthersDoNotInterfere(tab: Tables, s: State, t: nat, u: nat)
    requires Inv(tab, s) && s.sync.owner == Some(t) && u != t && Enabled(s, u)
    ensures Remaining(tab, Step(tab, s, u), t) == Remaining(tab, s, t) && Step(tab, s, u).sync == s.sync
  {
    OutsideStep(tab, s, u);
    assert Stack(Step(tab, s, u), t) == Stack(s, t);
  }

  lemma StepOwner(tab: Tables, s: State, t: nat)
    requires Enabled(s, t) && (s.sync.owner == None || s.sync.owner == Some(t))
    ensures Step(tab, s, t).sync.owner == None || Step(tab, s, t).sync.owner == Some(t)
  {}

  /** Alone with the context, a thread can always make a step, and gets nearer to the end. */
  lemma AloneStep(tab: Tables, s: State, t: nat)
    requires WellFormed(tab) && Inv(tab, s) && (s.sync.owner == None || s.sync.owner == Some(t)) && Stack(s, t) != []
    ensures Enabled(s, t) && Inv(tab, Step(tab, s, t))
    ensures Step(tab, s, t).sync.owner == None || Step(tab, s, t).sync.owner == Some(t)
    ensures Remaining(tab, Step(tab, s, t), t) < Remaining(tab, s, t)
  {
    StepInv(tab, s, t);
    StepCosts(tab, s, t);
    StepOwner(tab, s, t);
  }

  /** Thread `t` alone, run until its call is over. */
  ghost function RunToEnd(tab: Tables, s: State, t: nat): (r: State)
    requires WellFormed(tab) && Inv(tab, s) && (s.sync.owner == None || s.sync.owner == Some(t))
    ensures Inv(tab, r) && Stack(r, t) == []
    decreases Remaining(tab, s, t)
  {
    if Stack(s, t) == [] then s
    else
      AloneStep(tab, s, t);
      RunToEnd(tab, Step(tab, s, t), t)
  }
}
