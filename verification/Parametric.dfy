/** Interning of parameterized types (src/6model/parametric.c): threads that parameterize one type
    race for its lookup table. */
module Parametric {
  import opened Wrappers

  type Params = seq<nat>
  datatype Entry = Entry(params: Params, ty: nat)

  /** What a caller is doing. A search notes the length of the table once and then reads the
      table's field again for every access. */
  datatype Phase =
    | Idle
    | Searching(params: Params, num: nat, i: nat)               // before the lock
    | Matched(params: Params, i: nat)                           // the type is still to be read
    | Creating(params: Params)                                  // the parameterizer runs
    | Waiting(params: Params, mine: nat)                        // for the lock
    | Rechecking(params: Params, mine: nat, num: nat, i: nat)   // with the lock
    | Rematched(params: Params, i: nat)                         // with the lock
    | Adding(params: Params, mine: nat)                         // with the lock
    | Unlocking(params: Params, ty: nat)                        // with the lock
    | Done(params: Params, ty: nat)

  /** The lock also guards the tables of other types, on behalf of which others may hold it. */
  datatype Holder = Free | Thread(t: nat) | Other

  /** The table's field always points to a complete version; threads not named are idle. */
  datatype State = State(table: seq<Entry>, holder: Holder, threads: map<nat, Phase>)

  function PhaseOf(s: State, t: nat): Phase {
    if t in s.threads then s.threads[t] else Idle
  }

  function With(s: State, t: nat, p: Phase): State {
    s.(threads := s.threads[t := p])
  }

  datatype Step =
    | Call(t: nat, params: Params)
    | Look(t: nat)
    | TakeType(t: nat)
    | Created(t: nat, ty: nat)
    | Lock(t: nat)
    | Add(t: nat)
    | Unlock(t: nat)
    | Return(t: nat)
    | OtherLocks
    | OtherUnlocks

  /** One atomic step; a step that is not possible changes nothing. */
  function Do(s: State, step: Step): State {
    match step
    case Call(t, params) =>
      if PhaseOf(s, t) == Idle then With(s, t, Searching(params, |s.table|, 0)) else s
    case Look(t) =>
      (match PhaseOf(s, t)
       case Searching(params, num, i) =>
         if i >= num then With(s, t, Creating(params))
         else if i < |s.table| && s.table[i].params == params then With(s, t, Matched(params, i))
         else With(s, t, Searching(params, num, i + 1))
       case Rechecking(params, mine, num, i) =>
         if i >= num then With(s, t, Adding(params, mine))
         else if i < |s.table| && s.table[i].params == params then With(s, t, Rematched(params, i))
         else With(s, t, Rechecking(params, mine, num, i + 1))
       case _ => s)
    case TakeType(t) =>
      (match PhaseOf(s, t)
       case Matched(params, i) => if i < |s.table| then With(s, t, Done(params, s.table[i].ty)) else s
       case Rematched(params, i) => if i < |s.table| then With(s, t, Unlocking(params, s.table[i].ty)) else s
       case _ => s)
    case Created(t, ty) =>
      (match PhaseOf(s, t)
       case Creating(params) => With(s, t, Waiting(params, ty))
       case _ => s)
    case Lock(t) =>
      (match PhaseOf(s, t)
       case Waiting(params, mine) =>
         if s.holder == Free then With(s, t, Rechecking(params, mine, |s.table|, 0)).(holder := Thread(t)) else s
       case _ => s)
    case Add(t) =>
      (match PhaseOf(s, t)
       case Adding(params, mine) => With(s, t, Unlocking(params, mine)).(table := s.table + [Entry(params, mine)])
       case _ => s)
    case Unlock(t) =>
      (match PhaseOf(s, t)
       case Unlocking(params, ty) => With(s, t, Done(params, ty)).(holder := Free)
       case _ => s)
    case Return(t) => if PhaseOf(s, t).Done? then With(s, t, Idle) else s
    case OtherLocks => if s.holder == Free then s.(holder := Other) else s
    case OtherUnlocks => if s.holder == Other then s.(holder := Free) else s
  }

  // ----- what holds

  /** No two entries have equal parameters. */
  ghost predicate NoTwins(table: seq<Entry>) {
    forall i, j | 0 <= i < j < |table| :: table[i].params != table[j].params
  }

  ghost predicate AbsentBefore(table: seq<Entry>, params: Params, n: nat) {
    forall i | 0 <= i < n && i < |table| :: table[i].params != params
  }

  ghost predicate Found(table: seq<Entry>, params: Params, ty: nat) {
    Entry(params, ty) in table
  }

  predicate NeedsLock(p: Phase) {
    p.Rechecking? || p.Rematched? || p.Adding? || p.Unlocking?
  }

  /** What a thread may rely on. */
  ghost predicate PhaseOk(table: seq<Entry>, p: Phase) {
    match p
    case Searching(params, num, i) => num <= |table| && i <= num && AbsentBefore(table, params, i)
    case Matched(params, i) => i < |table| && table[i].params == params
    case Rechecking(params, mine, num, i) => num == |table| && i <= num && AbsentBefore(table, params, i)
    case Rematched(params, i) => i < |table| && table[i].params == params
    case Adding(params, mine) => AbsentBefore(table, params, |table|)
    case Unlocking(params, ty) => Found(table, params, ty)
    case Done(params, ty) => Found(table, params, ty)
    case _ => true
  }

  ghost predicate ThreadOk(s: State, t: nat) {
    PhaseOk(s.table, PhaseOf(s, t)) && (NeedsLock(PhaseOf(s, t)) ==> s.holder == Thread(t))
  }

  ghost predicate Inv(s: State) {
    NoTwins(s.table) && forall t: nat :: ThreadOk(s, t)
  }

  /** A thread that does not hold the lock is not bothered by a longer table. */
  lemma OthersKeep(table: seq<Entry>, e: Entry, p: Phase)
    requires PhaseOk(table, p) && !NeedsLock(p)
    ensures PhaseOk(table + [e], p)
  {}

  lemma OnlyPhase(s: State, t: nat, p: Phase)
    requires Inv(s) && PhaseOk(s.table, p) && (NeedsLock(p) ==> s.holder == Thread(t))
    ensures Inv(With(s, t, p))
  {
    forall u: nat ensures ThreadOk(With(s, t, p), u) { assert ThreadOk(s, u); }
  }

  lemma LookInv(s: State, t: nat)
    requires Inv(s)
    ensures Inv(Do(s, Look(t)))
  {
    assert ThreadOk(s, t);
    match PhaseOf(s, t)
    case Searching(params, num, i) =>
      if i >= num {
        OnlyPhase(s, t, Creating(params));
      } else if s.table[i].params == params {
        OnlyPhase(s, t, Matched(params, i));
      } else {
        OnlyPhase(s, t, Searching(params, num, i + 1));
      }
    case Rechecking(params, mine, num, i) =>
      if i >= num {
        OnlyPhase(s, t, Adding(params, mine));
      } else if s.table[i].params == params {
        OnlyPhase(s, t, Rematched(params, i));
      } else {
        OnlyPhase(s, t, Rechecking(params, mine, num, i + 1));
      }
    case _ =>
  }

  lemma TakeTypeInv(s: State, t: nat)
    requires Inv(s)
    ensures Inv(Do(s, TakeType(t)))
  {
    assert ThreadOk(s, t);
    match PhaseOf(s, t)
    case Matched(params, i) =>
      assert s.table[i] == Entry(params, s.table[i].ty);
      OnlyPhase(s, t, Done(params, s.table[i].ty));
    case Rematched(params, i) =>
      assert s.table[i] == Entry(params, s.table[i].ty);
      OnlyPhase(s, t, Unlocking(params, s.table[i].ty));
    case _ =>
  }

  lemma AddInv(s: State, t: nat)
    requires Inv(s)
    ensures Inv(Do(s, Add(t)))
  {
    assert ThreadOk(s, t);
    if PhaseOf(s, t).Adding? {
      var e := Entry(PhaseOf(s, t).params, PhaseOf(s, t).mine);
      var s' := Do(s, Add(t));
      assert s'.table[|s.table|] == e;
      forall u: nat ensures ThreadOk(s', u) {
        assert ThreadOk(s, u);
        if u != t { OthersKeep(s.table, e, PhaseOf(s, u)); }
      }
    }
  }

  lemma LockInv(s: State, t: nat)
    requires Inv(s)
    ensures Inv(Do(s, Lock(t))) && Inv(Do(s, Unlock(t)))
  {
    var s', s'' := Do(s, Lock(t)), Do(s, Unlock(t));
    forall u: nat ensures ThreadOk(s', u) && ThreadOk(s'', u) { assert ThreadOk(s, t) && ThreadOk(s, u); }
  }

  /** Every step keeps the invariant. */
  lemma StepInv(s: State, step: Step)
    requires Inv(s)
    ensures Inv(Do(s, step))
  {
    match step
    case Call(t, params) => if PhaseOf(s, t) == Idle { OnlyPhase(s, t, Searching(params, |s.table|, 0)); }
    case Look(t) => LookInv(s, t);
    case TakeType(t) => TakeTypeInv(s, t);
    case Created(t, ty) => if PhaseOf(s, t).Creating? { OnlyPhase(s, t, Waiting(PhaseOf(s, t).params, ty)); }
    case Lock(t) => LockInv(s, t);
    case Add(t) => AddInv(s, t);
    case Unlock(t) => LockInv(s, t);
    case Return(t) => if PhaseOf(s, t).Done? { OnlyPhase(s, t, Idle); }
    case OtherLocks => forall u: nat ensures ThreadOk(Do(s, step), u) { assert ThreadOk(s, u); }
    case OtherUnlocks => forall u: nat ensures ThreadOk(Do(s, step), u) { assert ThreadOk(s, u); }
  }

  // ----- every interleaving

  const START: State := State([], Free, map[])

  function Run(s: State, steps: seq<Step>): State
    decreases |steps|
  {
    if steps == [] then s else Run(Do(s, steps[0]), steps[1..])
  }

  lemma {:induction false} RunInv(s: State, steps: seq<Step>)
    requires Inv(s)
    ensures Inv(Run(s, steps))
    decreases |steps|
  {
    if steps != [] {
      StepInv(s, steps[0]);
      RunInv(Do(s, steps[0]), steps[1..]);
    }
  }

  lemma StartInv()
    ensures Inv(START)
  {
    forall t: nat ensures ThreadOk(START, t) {}
  }

  /** Versions of the table only get longer. */
  lemma {:induction false} TableGrows(s: State, steps: seq<Step>)
    ensures s.table <= Run(s, steps).table
    decreases |steps|
  {
    if steps != [] { TableGrows(Do(s, steps[0]), steps[1..]); }
  }

  lemma EntryIsUnique(table: seq<Entry>, params: Params, ty: nat, ty': nat)
    requires NoTwins(table) && Found(table, params, ty) && Found(table, params, ty')
    ensures ty == ty'
  {
    var i :| 0 <= i < |table| && table[i] == Entry(params, ty);
    var j :| 0 <= j < |table| && table[j] == Entry(params, ty');
  }

  /** Callers with equal parameters are handed the same type, however their steps interleave, and
      whether they are there at the same time or not. */
  lemma SameParametersSameType(before: seq<Step>, between: seq<Step>, t: nat, u: nat)
    requires var s := Run(START, before);
             var s' := Run(s, between);
             PhaseOf(s, t).Done? && PhaseOf(s', u).Done? && PhaseOf(s, t).params == PhaseOf(s', u).params
    ensures PhaseOf(Run(START, before), t).ty == PhaseOf(Run(Run(START, before), between), u).ty
  {
    var s := Run(START, before);
    var s' := Run(s, between);
    StartInv();
    RunInv(START, before);
    RunInv(s, between);
    TableGrows(s, between);
    assert ThreadOk(s, t) && ThreadOk(s', u);
    FoundStays(s.table, s'.table, PhaseOf(s, t).params, PhaseOf(s, t).ty);
    EntryIsUnique(s'.table, PhaseOf(s, t).params, PhaseOf(s, t).ty, PhaseOf(s', u).ty);
  }

  lemma FoundStays(table: seq<Entry>, table': seq<Entry>, params: Params, ty: nat)
    requires table <= table' && Found(table, params, ty)
    ensures Found(table', params, ty)
  {
    var i :| 0 <= i < |table| && table[i] == Entry(params, ty);
    assert table'[i] == table[i];
  }

  /** A search that has come to its end without a match was right about the table it began with:
      none of the entries that were there had the parameters. */
  lemma SearchIsRight(steps: seq<Step>, t: nat)
    requires var p := PhaseOf(Run(START, steps), t); p.Searching? && p.i == p.num
    ensures var s := Run(START, steps);
            var p := PhaseOf(s, t);
            p.num <= |s.table| && forall e | e in s.table[..p.num] :: e.params != p.params
  {
    StartInv();
    RunInv(START, steps);
    assert ThreadOk(Run(START, steps), t);
  }

  // ----- the search itself

  /** `MVM_6model_parametric_try_find_parameterization` on one version of the table. */
  method TryFind(table: seq<Entry>, params: Params) returns (r: Option<nat>)
    ensures r.None? ==> forall e | e in table :: e.params != params
    ensures r.Some? ==>
              exists i :: 0 <= i < |table| && table[i] == Entry(params, r.value) && AbsentBefore(table, params, i)
  {
    for i := 0 to |table|
      invariant AbsentBefore(table, params, i)
    {
      var compare := table[i].params;
      if |params| == |compare| {
        var same := true;
        var j := 0;
        while j < |params| && same
          invariant j <= |params| && (same <==> params[..j] == compare[..j])
        {
          if params[j] != compare[j] {
            same := false;
          }
          j := j + 1;
          assert params[..j] == params[..j - 1] + [params[j - 1]];
          assert compare[..j] == compare[..j - 1] + [compare[j - 1]];
        }
        if same {
          assert params == params[..j] && compare == compare[..j];
          return Some(table[i].ty);
        }
        assert params != compare;
      }
    }
    return None;
  }
}
