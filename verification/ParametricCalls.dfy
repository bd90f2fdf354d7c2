/** Whose parameters a caller's type is for and who made it, and that a call comes to its end
    (src/6model/parametric.c). */
module ParametricCalls {
  import opened Wrappers
  import opened Parametric

  lemma {:induction false} RunLast(s: State, steps: seq<Step>)
    requires steps != []
    ensures Run(s, steps) == Do(Run(s, steps[..|steps| - 1]), steps[|steps| - 1])
    decreases |steps|
  {
    if |steps| > 1 {
      RunLast(Do(s, steps[0]), steps[1..]);
      var n := |steps| - 1;
      assert steps[1..][..n - 1] == steps[..n][1..] && steps[1..][n - 1] == steps[n];
    }
  }

  /** The state before step i. */
  function Before(steps: seq<Step>, i: nat): State
    requires i <= |steps|
  {
    Run(START, steps[..i])
  }

  lemma BeforeNext(steps: seq<Step>, i: nat)
    requires i < |steps|
    ensures Before(steps, i + 1) == Do(Before(steps, i), steps[i])
  {
    RunLast(START, steps[..i + 1]);
    assert steps[..i + 1][..i] == steps[..i];
  }

  // ----- whose call it was

  /** Step i is the call a thread made last, with these parameters: it was taken, and the thread has
      not been idle since. */
  ghost predicate LastCall(steps: seq<Step>, n: nat, t: nat, params: Params, i: nat)
    requires n <= |steps|
  {
    && i < n && steps[i] == Call(t, params) && PhaseOf(Before(steps, i), t) == Idle
    && forall j | i < j <= n :: PhaseOf(Before(steps, j), t) != Idle
  }

  /** A step leaves a busy thread with the parameters it has, or lets it go. */
  lemma ParamsStay(s: State, step: Step, t: nat)
    requires PhaseOf(s, t) != Idle && PhaseOf(Do(s, step), t) != Idle
    ensures PhaseOf(Do(s, step), t).params == PhaseOf(s, t).params
  {}

  lemma StartsWithCall(s: State, step: Step, t: nat)
    requires PhaseOf(s, t) == Idle && PhaseOf(Do(s, step), t) != Idle
    ensures step == Call(t, PhaseOf(Do(s, step), t).params)
  {}

  lemma {:induction false} CallOfPhase(steps: seq<Step>, n: nat, t: nat) returns (i: nat)
    requires n <= |steps| && PhaseOf(Before(steps, n), t) != Idle
    ensures LastCall(steps, n, t, PhaseOf(Before(steps, n), t).params, i)
    decreases n
  {
    if n > 0 {
      BeforeNext(steps, n - 1);
      if PhaseOf(Before(steps, n - 1), t) == Idle {
        i := n - 1;
        StartsWithCall(Before(steps, n - 1), steps[n - 1], t);
      } else {
        i := CallOfPhase(steps, n - 1, t);
        ParamsStay(Before(steps, n - 1), steps[n - 1], t);
      }
    }
  }

  // ----- who made the type

  /** The parameterizer made the type for these parameters, in the call of some thread. */
  ghost predicate Made(steps: seq<Step>, n: nat, params: Params, ty: nat)
    requires n <= |steps|
  {
    exists m: nat, u: nat :: MadeAt(steps, n, params, ty, m, u)
  }

  ghost predicate MadeAt(steps: seq<Step>, n: nat, params: Params, ty: nat, m: nat, u: nat)
    requires n <= |steps|
  {
    m < n && steps[m] == Created(u, ty) && PhaseOf(Before(steps, m), u) == Creating(params)
  }

  lemma MadeStays(steps: seq<Step>, n: nat, params: Params, ty: nat)
    requires n < |steps| && Made(steps, n, params, ty)
    ensures Made(steps, n + 1, params, ty)
  {
    var m: nat, u: nat :| MadeAt(steps, n, params, ty, m, u);
    assert MadeAt(steps, n + 1, params, ty, m, u);
  }

  /** A type that a thread has made and not yet added. */
  function Mine(p: Phase): Option<nat> {
    match p
    case Waiting(_, mine) => Some(mine)
    case Rechecking(_, mine, _, _) => Some(mine)
    case Adding(_, mine) => Some(mine)
    case _ => None
  }

  ghost predicate MineMade(steps: seq<Step>, n: nat, t: nat)
    requires n <= |steps|
  {
    var p := PhaseOf(Before(steps, n), t);
    Mine(p).Some? ==> Made(steps, n, p.params, Mine(p).value)
  }

  ghost predicate AllMade(steps: seq<Step>, n: nat)
    requires n <= |steps|
  {
    && (forall e | e in Before(steps, n).table :: Made(steps, n, e.params, e.ty))
    && (forall t: nat :: MineMade(steps, n, t))
  }

  lemma NewEntry(s: State, step: Step, e: Entry)
    requires e in Do(s, step).table && e !in s.table
    ensures step.Add? && PhaseOf(s, step.t) == Adding(e.params, e.ty)
  {}

  lemma NewMine(s: State, step: Step, t: nat)
    requires Mine(PhaseOf(Do(s, step), t)).Some?
    ensures var p, p' := PhaseOf(s, t), PhaseOf(Do(s, step), t);
            || (Mine(p) == Mine(p') && p.params == p'.params)
            || (step == Created(t, Mine(p').value) && p == Creating(p'.params))
  {}

  lemma MineGoesOn(steps: seq<Step>, n: nat, t: nat)
    requires n < |steps| && MineMade(steps, n, t)
    ensures MineMade(steps, n + 1, t)
  {
    BeforeNext(steps, n);
    var p, p' := PhaseOf(Before(steps, n), t), PhaseOf(Before(steps, n + 1), t);
    if Mine(p').Some? {
      NewMine(Before(steps, n), steps[n], t);
      if Mine(p) == Mine(p') && p.params == p'.params {
        MadeStays(steps, n, p.params, Mine(p).value);
      } else {
        assert MadeAt(steps, n + 1, p'.params, Mine(p').value, n, t);
      }
    }
  }

  lemma {:induction false} RunMade(steps: seq<Step>, n: nat)
    requires n <= |steps|
    ensures AllMade(steps, n)
    decreases n
  {
    if n > 0 {
      RunMade(steps, n - 1);
      var s := Before(steps, n - 1);
      BeforeNext(steps, n - 1);
      forall e | e in Before(steps, n).table ensures Made(steps, n, e.params, e.ty) {
        if e !in s.table {
          NewEntry(s, steps[n - 1], e);
          assert MineMade(steps, n - 1, steps[n - 1].t);
        }
        MadeStays(steps, n - 1, e.params, e.ty);
      }
      forall t: nat ensures MineMade(steps, n, t) { MineGoesOn(steps, n - 1, t); }
    }
  }

  /** In every interleaving, what a caller gets is for the parameters of its own call, and it is a
      type that the parameterizer made for these parameters. */
  lemma TypeIsForParameters(steps: seq<Step>, t: nat, params: Params, ty: nat)
    requires PhaseOf(Run(START, steps), t) == Done(params, ty)
    ensures exists i: nat :: LastCall(steps, |steps|, t, params, i)
    ensures exists m: nat, u: nat :: MadeAt(steps, |steps|, params, ty, m, u)
  {
    var n := |steps|;
    assert steps[..n] == steps;
    var i := CallOfPhase(steps, n, t);
    RunMade(steps, n);
    StartInv();
    RunInv(START, steps);
    assert ThreadOk(Run(START, steps), t);
    assert Made(steps, n, params, ty);
  }

  // ----- a call comes to its end

  lemma {:induction false} RunBoth(s: State, a: seq<Step>, b: seq<Step>)
    ensures Run(s, a + b) == Run(Run(s, a), b)
    decreases |a|
  {
    if a == [] {
      assert a + b == b;
    } else {
      RunBoth(Do(s, a[0]), a[1..], b);
      assert (a + b)[1..] == a[1..] + b;
    }
  }

  /** The first place of the parameters in the table, or its end. */
  ghost predicate FirstPlace(table: seq<Entry>, params: Params, i: nat) {
    i <= |table| && AbsentBefore(table, params, i) && (i < |table| ==> table[i].params == params)
  }

  /** As many looks as it takes to come from one place to another. */
  function Looks(t: nat, n: nat): (r: seq<Step>)
    ensures |r| == n && forall i | 0 <= i < n :: r[i] == Look(t)
  {
    seq(n, _ => Look(t))
  }

  lemma {:induction false} LooksAlong(s: State, t: nat, params: Params, from: nat, n: nat)
    requires PhaseOf(s, t) == Searching(params, |s.table|, from) && from + n <= |s.table|
    requires forall i | from <= i < from + n :: s.table[i].params != params
    ensures Run(s, Looks(t, n)) == With(s, t, Searching(params, |s.table|, from + n))
    decreases n
  {
    if n == 0 {
      assert With(s, t, PhaseOf(s, t)).threads == s.threads;
    } else {
      var s' := Do(s, Look(t));
      LooksAlong(s', t, params, from + 1, n - 1);
      assert Looks(t, n)[1..] == Looks(t, n - 1);
      WithTwice(s, t, PhaseOf(s', t), Searching(params, |s.table|, from + n));
    }
  }

  lemma WithTwice(s: State, t: nat, p: Phase, p': Phase)
    ensures With(With(s, t, p), t, p') == With(s, t, p')
  {}

  lemma {:induction false} RechecksAlong(s: State, t: nat, params: Params, mine: nat, from: nat, n: nat)
    requires PhaseOf(s, t) == Rechecking(params, mine, |s.table|, from) && from + n <= |s.table|
    requires forall i | from <= i < from + n :: s.table[i].params != params
    ensures Run(s, Looks(t, n)) == With(s, t, Rechecking(params, mine, |s.table|, from + n))
    decreases n
  {
    if n == 0 {
      assert With(s, t, PhaseOf(s, t)).threads == s.threads;
    } else {
      var s' := Do(s, Look(t));
      RechecksAlong(s', t, params, mine, from + 1, n - 1);
      assert Looks(t, n)[1..] == Looks(t, n - 1);
      WithTwice(s, t, PhaseOf(s', t), Rechecking(params, mine, |s.table|, from + n));
    }
  }

  lemma Two(s: State, a: Step, b: Step)
    ensures Run(s, [a, b]) == Do(Do(s, a), b)
  {
    assert [a, b][1..] == [b] && [b][1..] == [];
    assert Run(Do(s, a), [b]) == Run(Do(Do(s, a), b), []);
  }

  lemma Three(s: State, a: Step, b: Step, c: Step)
    ensures Run(s, [a, b, c]) == Do(Do(Do(s, a), b), c)
  {
    assert [a, b, c][1..] == [b, c];
    Two(Do(s, a), b, c);
  }

  /** What a call does by itself when its parameters are first found at `i`. */
  function CallAlone(t: nat, params: Params, ty: nat, i: nat, n: nat): seq<Step> {
    [Call(t, params)] + Looks(t, i)
    + if i < n then [Look(t), TakeType(t)]
      else [Look(t), Created(t, ty), Lock(t)] + Looks(t, n) + [Look(t), Add(t), Unlock(t)]
  }

  /** The table and the type that it leaves. */
  function Outcome(s: State, t: nat, params: Params, ty: nat, i: nat): State {
    if i < |s.table| then With(s, t, Done(params, s.table[i].ty))
    else With(s, t, Done(params, ty)).(table := s.table + [Entry(params, ty)])
  }

  lemma SearchAlone(s: State, t: nat, params: Params, i: nat)
    requires PhaseOf(s, t) == Idle && FirstPlace(s.table, params, i)
    ensures Run(s, [Call(t, params)] + Looks(t, i)) == With(s, t, Searching(params, |s.table|, i))
  {
    var s1 := Do(s, Call(t, params));
    RunBoth(s, [Call(t, params)], Looks(t, i));
    assert [Call(t, params)][1..] == [];
    LooksAlong(s1, t, params, 0, i);
    assert With(s1, t, Searching(params, |s.table|, i)) == With(s, t, Searching(params, |s.table|, i));
  }

  /** The state with another phase of `t`, holder and table. */
  function Moved(s: State, t: nat, p: Phase, holder: Holder, table: seq<Entry>): State {
    State(table, holder, s.threads[t := p])
  }

  lemma MovedTwice(s: State, t: nat, p: Phase, h: Holder, a: seq<Entry>, p': Phase, h': Holder, b: seq<Entry>)
    ensures Moved(Moved(s, t, p, h, a), t, p', h', b) == Moved(s, t, p', h', b)
    ensures PhaseOf(Moved(s, t, p, h, a), t) == p
  {}

  lemma LookMisses(s: State, t: nat, params: Params)
    requires PhaseOf(s, t) == Searching(params, |s.table|, |s.table|)
    ensures Do(s, Look(t)) == Moved(s, t, Creating(params), s.holder, s.table)
  {}

  lemma Creates(s: State, t: nat, params: Params, ty: nat)
    requires PhaseOf(s, t) == Creating(params)
    ensures Do(s, Created(t, ty)) == Moved(s, t, Waiting(params, ty), s.holder, s.table)
  {}

  lemma Locks(s: State, t: nat, params: Params, ty: nat)
    requires PhaseOf(s, t) == Waiting(params, ty) && s.holder == Free
    ensures Do(s, Lock(t)) == Moved(s, t, Rechecking(params, ty, |s.table|, 0), Thread(t), s.table)
  {}

  lemma CreateAlone(s: State, t: nat, params: Params, ty: nat)
    requires PhaseOf(s, t) == Searching(params, |s.table|, |s.table|) && s.holder == Free
    ensures Run(s, [Look(t), Created(t, ty), Lock(t)])
         == Moved(s, t, Rechecking(params, ty, |s.table|, 0), Thread(t), s.table)
  {
    var n, p1, p2 := |s.table|, Creating(params), Waiting(params, ty);
    Three(s, Look(t), Created(t, ty), Lock(t));
    LookMisses(s, t, params);
    MovedTwice(s, t, p1, Free, s.table, p2, Free, s.table);
    Creates(Moved(s, t, p1, Free, s.table), t, params, ty);
    MovedTwice(s, t, p2, Free, s.table, Rechecking(params, ty, n, 0), Thread(t), s.table);
    Locks(Moved(s, t, p2, Free, s.table), t, params, ty);
  }

  lemma LookEnds(s: State, t: nat, params: Params, ty: nat)
    requires PhaseOf(s, t) == Rechecking(params, ty, |s.table|, |s.table|)
    ensures Do(s, Look(t)) == Moved(s, t, Adding(params, ty), s.holder, s.table)
  {}

  lemma Adds(s: State, t: nat, params: Params, ty: nat)
    requires PhaseOf(s, t) == Adding(params, ty)
    ensures Do(s, Add(t)) == Moved(s, t, Unlocking(params, ty), s.holder, s.table + [Entry(params, ty)])
  {}

  lemma Unlocks(s: State, t: nat, params: Params, ty: nat)
    requires PhaseOf(s, t) == Unlocking(params, ty)
    ensures Do(s, Unlock(t)) == Moved(s, t, Done(params, ty), Free, s.table)
  {}

  lemma AddAlone(s: State, t: nat, params: Params, ty: nat)
    requires PhaseOf(s, t) == Rechecking(params, ty, |s.table|, |s.table|)
    ensures Run(s, [Look(t), Add(t), Unlock(t)])
         == Moved(s, t, Done(params, ty), Free, s.table + [Entry(params, ty)])
  {
    var h, p1, p2, table := s.holder, Adding(params, ty), Unlocking(params, ty), s.table + [Entry(params, ty)];
    Three(s, Look(t), Add(t), Unlock(t));
    LookEnds(s, t, params, ty);
    MovedTwice(s, t, p1, h, s.table, p2, h, table);
    Adds(Moved(s, t, p1, h, s.table), t, params, ty);
    MovedTwice(s, t, p2, h, table, Done(params, ty), Free, table);
    Unlocks(Moved(s, t, p2, h, table), t, params, ty);
  }

  lemma MakeAlone(s: State, t: nat, params: Params, ty: nat)
    requires PhaseOf(s, t) == Searching(params, |s.table|, |s.table|) && s.holder == Free
    requires AbsentBefore(s.table, params, |s.table|)
    ensures Run(s, [Look(t), Created(t, ty), Lock(t)] + Looks(t, |s.table|) + [Look(t), Add(t), Unlock(t)])
         == Moved(s, t, Done(params, ty), Free, s.table + [Entry(params, ty)])
  {
    var n, h, table := |s.table|, Thread(t), s.table + [Entry(params, ty)];
    var a, b, c := [Look(t), Created(t, ty), Lock(t)], Looks(t, n), [Look(t), Add(t), Unlock(t)];
    var p1, p2 := Rechecking(params, ty, n, 0), Rechecking(params, ty, n, n);
    RunBoth(s, a + b, c);
    RunBoth(s, a, b);
    CreateAlone(s, t, params, ty);
    MovedTwice(s, t, p1, h, s.table, p2, h, s.table);
    RechecksAlong(Moved(s, t, p1, h, s.table), t, params, ty, 0, n);
    MovedTwice(s, t, p2, h, s.table, Done(params, ty), Free, table);
    AddAlone(Moved(s, t, p2, h, s.table), t, params, ty);
  }

  lemma FindAlone(s: State, t: nat, params: Params, i: nat)
    requires i < |s.table| && PhaseOf(s, t) == Searching(params, |s.table|, i) && s.table[i].params == params
    ensures Run(s, [Look(t), TakeType(t)]) == With(s, t, Done(params, s.table[i].ty))
  {
    Two(s, Look(t), TakeType(t));
    assert Do(s, Look(t)) == With(s, t, Matched(params, i));
    WithTwice(s, t, Matched(params, i), Done(params, s.table[i].ty));
  }

  /** Undisturbed, a call ends: with the type of the first entry that has its parameters, and the
      table as it was; or, if there is none, with the type made for it, which is added. */
  lemma AloneFinishes(s: State, t: nat, params: Params, ty: nat, i: nat)
    requires PhaseOf(s, t) == Idle && s.holder == Free && FirstPlace(s.table, params, i)
    ensures Run(s, CallAlone(t, params, ty, i, |s.table|)) == Outcome(s, t, params, ty, i)
  {
    var a, p := [Call(t, params)] + Looks(t, i), Searching(params, |s.table|, i);
    var s1 := With(s, t, p);
    SearchAlone(s, t, params, i);
    if i < |s.table| {
      RunBoth(s, a, [Look(t), TakeType(t)]);
      FindAlone(s1, t, params, i);
      WithTwice(s, t, p, Done(params, s.table[i].ty));
    } else {
      RunBoth(s, a, [Look(t), Created(t, ty), Lock(t)] + Looks(t, |s.table|) + [Look(t), Add(t), Unlock(t)]);
      MakeAlone(s1, t, params, ty);
      WithTwice(s, t, p, Done(params, ty));
    }
  }
}
