/** Progress of all threads together: however their steps are scheduled, all calls come to their
    end. */
module DemandSchedules {
  import opened Wrappers
  import opened Demand
  import opened DemandProofs
  import opened DemandProgress

  /** What is left to do for all of them: queued and unfilled items. */
  function SharedCost(tab: Tables, s: State): nat {
    QueueCost(tab, s.work.stables) + QueueCost(tab, s.work.objects)
    + UnfilledCost(tab, AllItems(tab), s.roots.ids.Keys)
  }

  function CallsCost(tab: Tables, s: State, ts: seq<nat>): nat {
    if ts == [] then 0 else StackCost(tab, Stack(s, ts[0])) + CallsCost(tab, s, ts[1..])
  }

  /** A bound on the steps that all threads together still make for their present calls. */
  function Total(tab: Tables, s: State, ts: seq<nat>): nat {
    SharedCost(tab, s) + CallsCost(tab, s, ts)
  }

  ghost predicate Distinct(ts: seq<nat>) {
    forall i, j | 0 <= i < j < |ts| :: ts[i] != ts[j]
  }

  /** The list has every thread with a pending call, once. */
  ghost predicate HasAll(s: State, ts: seq<nat>) {
    Distinct(ts) && forall t: nat :: Stack(s, t) != [] ==> t in ts
  }

  lemma {:induction false} CallsStay(tab: Tables, s: State, t: nat, ts: seq<nat>)
    requires Enabled(s, t) && t !in ts
    ensures CallsCost(tab, Step(tab, s, t), ts) == CallsCost(tab, s, ts)
    decreases |ts|
  {
    if ts != [] {
      StackStays(tab, s, t, ts[0]);
      CallsStay(tab, s, t, ts[1..]);
    }
  }

  lemma {:induction false} CallsChange(tab: Tables, s: State, t: nat, ts: seq<nat>)
    requires Enabled(s, t) && Distinct(ts) && t in ts
    ensures CallsCost(tab, Step(tab, s, t), ts) - StackCost(tab, Stack(Step(tab, s, t), t))
         == CallsCost(tab, s, ts) - StackCost(tab, Stack(s, t))
    decreases |ts|
  {
    if ts[0] == t {
      CallsStay(tab, s, t, ts[1..]);
    } else {
      StackStays(tab, s, t, ts[0]);
      CallsChange(tab, s, t, ts[1..]);
    }
  }

  /** Every step of any thread lowers the bound for all. */
  lemma StepLowersTotal(tab: Tables, s: State, t: nat, ts: seq<nat>)
    requires Inv(tab, s) && Enabled(s, t) && HasAll(s, ts)
    ensures Total(tab, Step(tab, s, t), ts) < Total(tab, s, ts)
    ensures HasAll(Step(tab, s, t), ts)
  {
    StepCosts(tab, s, t);
    CallsChange(tab, s, t, ts);
    forall u: nat | Stack(Step(tab, s, t), u) != [] ensures u in ts {
      if u != t { StackStays(tab, s, t, u); }
    }
  }

  /** While a call is pending, some thread can go on. */
  lemma SomeoneCanGoOn(tab: Tables, s: State, t: nat)
    requires Inv(tab, s) && Stack(s, t) != []
    ensures exists u: nat :: Enabled(s, u)
  {
    if s.sync.owner.Some? {
      HolderNotBlocked(tab, s, s.sync.owner.value);
    } else {
      assert Enabled(s, t);
    }
  }

  // ----- schedules

  /** The threads take turns as the list says, and each can go on when it is its turn. */
  ghost predicate IsSchedule(tab: Tables, s: State, sched: seq<nat>)
    decreases |sched|
  {
    sched == [] || (Enabled(s, sched[0]) && IsSchedule(tab, Step(tab, s, sched[0]), sched[1..]))
  }

  ghost function After(tab: Tables, s: State, sched: seq<nat>): State
    requires IsSchedule(tab, s, sched)
    decreases |sched|
  {
    if sched == [] then s else After(tab, Step(tab, s, sched[0]), sched[1..])
  }

  /** Nobody can go on. */
  ghost predicate Stopped(s: State) {
    forall t: nat :: !Enabled(s, t)
  }

  /** No schedule without new calls has more steps than the bound; and when no thread can go on, it
      is because all calls are over, with nothing left half-deserialized. */
  lemma {:induction false} EveryScheduleEnds(tab: Tables, s: State, ts: seq<nat>, sched: seq<nat>)
    requires WellFormed(tab) && Inv(tab, s) && HasAll(s, ts) && IsSchedule(tab, s, sched)
    ensures Inv(tab, After(tab, s, sched)) && |sched| + Total(tab, After(tab, s, sched), ts) <= Total(tab, s, ts)
    ensures Stopped(After(tab, s, sched)) ==> AllOver(After(tab, s, sched))
    decreases |sched|
  {
    if sched == [] {
      if Stopped(s) { StoppedIsOver(tab, s); }
    } else {
      StepInv(tab, s, sched[0]);
      StepLowersTotal(tab, s, sched[0], ts);
      EveryScheduleEnds(tab, Step(tab, s, sched[0]), ts, sched[1..]);
    }
  }

  ghost predicate AllOver(s: State) {
    (forall t: nat :: Stack(s, t) == []) && s.roots.done == s.roots.ids.Keys && s.sync == Sync(None, 0, 0)
  }

  lemma StoppedIsOver(tab: Tables, s: State)
    requires Inv(tab, s) && Stopped(s)
    ensures AllOver(s)
  {
    forall t: nat ensures Stack(s, t) == [] {
      if Stack(s, t) != [] { SomeoneCanGoOn(tab, s, t); }
    }
    QuietAllDone(tab, s);
  }

  /** A scheduler: it picks a thread that can go on, if there is one. */
  ghost predicate Picks(pick: State -> nat) {
    forall s: State :: PicksIn(s, pick)
  }

  ghost predicate PicksIn(s: State, pick: State -> nat) {
    Enabled(s, pick(s)) || Stopped(s)
  }

  /** Whatever the scheduler, all calls come to their end. */
  ghost function RunAll(tab: Tables, s: State, ts: seq<nat>, pick: State -> nat): (r: State)
    requires WellFormed(tab) && Inv(tab, s) && HasAll(s, ts) && Picks(pick)
    ensures Inv(tab, r) && AllOver(r)
    decreases Total(tab, s, ts)
  {
    if Enabled(s, pick(s)) then
      StepInv(tab, s, pick(s));
      StepLowersTotal(tab, s, pick(s), ts);
      RunAll(tab, Step(tab, s, pick(s)), ts, pick)
    else
      assert PicksIn(s, pick);
      StoppedIsOver(tab, s);
      s
  }
}
