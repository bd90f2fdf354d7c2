/** Memory to be freed at the next safepoint (src/core/alloc.h): threads push onto a shared linked
    list without a lock; at a safepoint, with the world stopped, one thread frees what is there. */
module FreeList {
  import opened Wrappers

  /** An entry of the list. Every request has a ticket of its own; addresses are used again. */
  datatype Entry = Entry(ticket: nat, next: Option<nat>)

  datatype Phase =
    | Idle
    | Made(addr: nat)                         // the entry is there, but not linked
    | Linked(addr: nat, orig: Option<nat>)    // its `next` is the head that was read

  datatype World = Running | Draining(cur: Option<nat>)

  datatype State = State(
    heap: map<nat, Entry>, head: Option<nat>, threads: map<nat, Phase>, world: World,
    tickets: nat, freed: seq<nat>)

  datatype Step =
    | Make(t: nat, addr: nat)
    | ReadHead(t: nat)
    | TryCas(t: nat)
    | Begin
    | FreeOne
    | End

  function PhaseOf(s: State, t: nat): Phase {
    if t in s.threads then s.threads[t] else Idle
  }

  function With(s: State, t: nat, p: Phase): State {
    s.(threads := s.threads[t := p])
  }

  predicate AllIdle(s: State) {
    forall t | t in s.threads :: s.threads[t] == Idle
  }

  /** One atomic step; a step that is not possible changes nothing. */
  function Do(s: State, step: Step): State {
    match step
    case Make(t, addr) =>
      if s.world == Running && PhaseOf(s, t) == Idle && addr !in s.heap then
        With(s, t, Made(addr)).(heap := s.heap[addr := Entry(s.tickets, None)], tickets := s.tickets + 1)
      else s
    case ReadHead(t) =>
      (match PhaseOf(s, t)
       case Made(a) =>
         if a in s.heap then With(s, t, Linked(a, s.head)).(heap := s.heap[a := s.heap[a].(next := s.head)]) else s
       case _ => s)
    case TryCas(t) =>
      (match PhaseOf(s, t)
       case Linked(a, orig) =>
         if s.head == orig then With(s, t, Idle).(head := Some(a)) else With(s, t, Made(a))
       case _ => s)
    case Begin => if s.world == Running && AllIdle(s) then s.(world := Draining(s.head)) else s
    case FreeOne =>
      if s.world.Draining? && s.world.cur.Some? && s.world.cur.value in s.heap then
        var a := s.world.cur.value;
        s.(freed := s.freed + [s.heap[a].ticket], heap := s.heap - {a}, world := Draining(s.heap[a].next))
      else s
    case End => if s.world == Draining(None) then s.(head := None, world := Running) else s
  }

  // ----- the list

  /** From `from` on, the list has exactly these addresses, in this order. */
  ghost predicate Chain(heap: map<nat, Entry>, from: Option<nat>, ids: seq<nat>)
    decreases |ids|
  {
    if ids == [] then from == None
    else from == Some(ids[0]) && ids[0] in heap && Chain(heap, heap[ids[0]].next, ids[1..])
  }

  ghost predicate Distinct(ids: seq<nat>) {
    forall i, j | 0 <= i < j < |ids| :: ids[i] != ids[j]
  }

  lemma {:induction false} ChainOutside(heap: map<nat, Entry>, heap': map<nat, Entry>, from: Option<nat>, ids: seq<nat>)
    requires Chain(heap, from, ids) && forall a | a in ids :: a in heap && a in heap' && heap'[a] == heap[a]
    ensures Chain(heap', from, ids)
    decreases |ids|
  {
    if ids != [] { ChainOutside(heap, heap', heap[ids[0]].next, ids[1..]); }
  }

  lemma {:induction false} ChainInHeap(heap: map<nat, Entry>, from: Option<nat>, ids: seq<nat>)
    requires Chain(heap, from, ids)
    ensures forall a | a in ids :: a in heap
    decreases |ids|
  {
    if ids != [] {
      ChainInHeap(heap, heap[ids[0]].next, ids[1..]);
      assert ids == [ids[0]] + ids[1..];
    }
  }

  // ----- what holds

  function AddrOf(p: Phase): Option<nat> {
    match p
    case Idle => None
    case Made(a) => Some(a)
    case Linked(a, _) => Some(a)
  }

  /** A thread's entry is its own: it is in no list, and no other thread's. */
  ghost predicate Private(s: State, ids: seq<nat>, t: nat) {
    var p := PhaseOf(s, t);
    && (AddrOf(p).Some? ==> AddrOf(p).value in s.heap && AddrOf(p).value !in ids)
    && (p.Linked? ==> p.addr in s.heap && s.heap[p.addr].next == p.orig)
  }

  ghost predicate Apart(s: State) {
    forall t: nat, u: nat :: t != u && AddrOf(PhaseOf(s, t)).Some? ==> AddrOf(PhaseOf(s, t)) != AddrOf(PhaseOf(s, u))
  }

  /** Every entry is in the list or some thread's. */
  ghost predicate Accounted(s: State, ids: seq<nat>) {
    forall a | a in s.heap :: a in ids || exists t: nat :: AddrOf(PhaseOf(s, t)) == Some(a)
  }

  ghost predicate ListInv(s: State, ids: seq<nat>) {
    && Chain(s.heap, if s.world.Draining? then s.world.cur else s.head, ids) && Distinct(ids)
    && (s.world.Draining? ==> AllIdle(s))
    && (forall t: nat :: Private(s, ids, t)) && Apart(s) && Accounted(s, ids)
  }

  /** Every ticket handed out is with exactly one entry, or was freed, once. */
  ghost predicate TicketInv(s: State) {
    && (forall a | a in s.heap :: s.heap[a].ticket < s.tickets && s.heap[a].ticket !in s.freed)
    && (forall a, b | a in s.heap && b in s.heap && a != b :: s.heap[a].ticket != s.heap[b].ticket)
    && (forall i, j | 0 <= i < j < |s.freed| :: s.freed[i] != s.freed[j])
    && (forall k | k in s.freed :: k < s.tickets)
    && (forall k: nat :: k < s.tickets ==> k in s.freed || HasTicket(s.heap, k))
  }

  ghost predicate HasTicket(heap: map<nat, Entry>, k: nat) {
    exists a :: a in heap && heap[a].ticket == k
  }

  // ----- every step keeps it

  lemma MakeInv(s: State, ids: seq<nat>, t: nat, addr: nat)
    requires ListInv(s, ids) && s.world == Running && PhaseOf(s, t) == Idle && addr !in s.heap
    ensures ListInv(Do(s, Make(t, addr)), ids)
  {
    var s' := Do(s, Make(t, addr));
    ChainInHeap(s.heap, s.head, ids);
    ChainOutside(s.heap, s'.heap, s.head, ids);
    forall u: nat ensures Private(s', ids, u) { assert Private(s, ids, u); }
    forall u: nat, v: nat | u != v && AddrOf(PhaseOf(s', u)).Some?
      ensures AddrOf(PhaseOf(s', u)) != AddrOf(PhaseOf(s', v))
    {
      assert Private(s, ids, u) && Private(s, ids, v);
    }
    forall a | a in s'.heap ensures a in ids || exists u: nat :: AddrOf(PhaseOf(s', u)) == Some(a) {
      if a == addr {
        assert AddrOf(PhaseOf(s', t)) == Some(a);
      } else if a !in ids {
        var u: nat :| AddrOf(PhaseOf(s, u)) == Some(a);
        assert AddrOf(PhaseOf(s', u)) == Some(a);
      }
    }
  }

  lemma ReadHeadInv(s: State, ids: seq<nat>, t: nat)
    requires ListInv(s, ids) && PhaseOf(s, t).Made?
    ensures ListInv(Do(s, ReadHead(t)), ids)
  {
    var s' := Do(s, ReadHead(t));
    assert Private(s, ids, t) && s.world == Running;
    ChainInHeap(s.heap, s.head, ids);
    ChainOutside(s.heap, s'.heap, s.head, ids);
    forall u: nat ensures Private(s', ids, u) { assert Private(s, ids, u); }
    SameAddresses(s, s', ids);
  }

  /** Who has which entry stays as it is. */
  lemma SameAddresses(s: State, s': State, ids: seq<nat>)
    requires Apart(s) && Accounted(s, ids) && s'.heap.Keys == s.heap.Keys
    requires forall u: nat :: AddrOf(PhaseOf(s', u)) == AddrOf(PhaseOf(s, u))
    ensures Apart(s') && Accounted(s', ids)
  {
    forall a | a in s'.heap ensures a in ids || exists u: nat :: AddrOf(PhaseOf(s', u)) == Some(a) {
      if a !in ids {
        var u: nat :| AddrOf(PhaseOf(s, u)) == Some(a);
        assert AddrOf(PhaseOf(s', u)) == Some(a);
      }
    }
  }

  lemma CasFails(s: State, ids: seq<nat>, t: nat)
    requires ListInv(s, ids) && PhaseOf(s, t).Linked? && s.head != PhaseOf(s, t).orig
    ensures ListInv(Do(s, TryCas(t)), ids)
  {
    var s' := Do(s, TryCas(t));
    forall u: nat ensures Private(s', ids, u) { assert Private(s, ids, u); }
    SameAddresses(s, s', ids);
  }

  lemma CasSucceeds(s: State, ids: seq<nat>, t: nat)
    requires ListInv(s, ids) && PhaseOf(s, t).Linked? && s.head == PhaseOf(s, t).orig
    ensures ListInv(Do(s, TryCas(t)), [PhaseOf(s, t).addr] + ids)
  {
    var s', a := Do(s, TryCas(t)), PhaseOf(s, t).addr;
    var ids' := [a] + ids;
    assert Private(s, ids, t) && s.world == Running;
    assert ids'[1..] == ids;
    forall u: nat ensures Private(s', ids', u) {
      assert Private(s, ids, u);
      if u != t { assert AddrOf(PhaseOf(s, t)) != AddrOf(PhaseOf(s, u)); }
    }
    forall u: nat, v: nat | u != v && AddrOf(PhaseOf(s', u)).Some?
      ensures AddrOf(PhaseOf(s', u)) != AddrOf(PhaseOf(s', v))
    {
      assert AddrOf(PhaseOf(s, u)) == AddrOf(PhaseOf(s', u)) && AddrOf(PhaseOf(s, u)) != AddrOf(PhaseOf(s, v));
    }
    forall b | b in s'.heap ensures b in ids' || exists u: nat :: AddrOf(PhaseOf(s', u)) == Some(b) {
      if b !in ids' {
        var u: nat :| AddrOf(PhaseOf(s, u)) == Some(b);
        assert AddrOf(PhaseOf(s', u)) == Some(b);
      }
    }
  }

  lemma FreeOneInv(s: State, ids: seq<nat>)
    requires ListInv(s, ids) && s.world.Draining? && s.world.cur.Some?
    ensures ids != [] && s.world.cur.value in s.heap && ListInv(Do(s, FreeOne), ids[1..])
  {
    var s' := Do(s, FreeOne);
    ChainInHeap(s.heap, s.world.cur, ids);
    ChainOutside(s.heap, s'.heap, s.heap[ids[0]].next, ids[1..]);
    forall u: nat ensures Private(s', ids[1..], u) { assert Private(s, ids, u); }
    forall a | a in s'.heap ensures a in ids[1..] {
      IdleIsListed(s, ids, a);
    }
  }

  lemma IdleIsListed(s: State, ids: seq<nat>, a: nat)
    requires Accounted(s, ids) && AllIdle(s) && a in s.heap
    ensures a in ids
  {
    assert forall u: nat :: PhaseOf(s, u) == Idle;
  }

  lemma MakeTickets(s: State, t: nat, addr: nat)
    requires TicketInv(s)
    ensures TicketInv(Do(s, Make(t, addr)))
  {
    var s' := Do(s, Make(t, addr));
    forall k: nat | k < s'.tickets ensures k in s'.freed || HasTicket(s'.heap, k) {
      if k < s.tickets {
        if k !in s.freed && addr !in s.heap {
          var a :| a in s.heap && s.heap[a].ticket == k;
          assert s'.heap[a].ticket == k;
        }
      } else {
        assert s'.heap[addr].ticket == k;
      }
    }
  }

  lemma ReadHeadTickets(s: State, t: nat)
    requires TicketInv(s)
    ensures TicketInv(Do(s, ReadHead(t)))
  {
    var s' := Do(s, ReadHead(t));
    assert s'.tickets == s.tickets && s'.freed == s.freed;
    TicketsStay(s.heap, s'.heap, s.freed, s.tickets);
  }

  /** Rewriting links leaves the tickets where they are. */
  lemma TicketsStay(heap: map<nat, Entry>, heap': map<nat, Entry>, freed: seq<nat>, tickets: nat)
    requires forall k: nat | k < tickets :: k in freed || HasTicket(heap, k)
    requires forall a | a in heap :: a in heap' && heap'[a].ticket == heap[a].ticket
    ensures forall k: nat | k < tickets :: k in freed || HasTicket(heap', k)
  {
    forall k: nat | k < tickets ensures k in freed || HasTicket(heap', k) {
      if k !in freed {
        var a :| a in heap && heap[a].ticket == k;
        assert heap'[a].ticket == k;
      }
    }
  }

  lemma FreeOneTickets(s: State)
    requires TicketInv(s)
    ensures TicketInv(Do(s, FreeOne))
  {
    var s' := Do(s, FreeOne);
    if s.world.Draining? && s.world.cur.Some? && s.world.cur.value in s.heap {
      var b := s.world.cur.value;
      assert s'.freed == s.freed + [s.heap[b].ticket];
      forall k: nat | k < s'.tickets ensures k in s'.freed || HasTicket(s'.heap, k) {
        if k !in s.freed {
          var a :| a in s.heap && s.heap[a].ticket == k;
          if a != b { assert s'.heap[a].ticket == k; }
        }
      }
    }
  }

  ghost predicate Inv(s: State) {
    TicketInv(s) && exists ids :: ListInv(s, ids)
  }

  lemma StepTickets(s: State, step: Step)
    requires TicketInv(s)
    ensures TicketInv(Do(s, step))
  {
    match step
    case Make(t, addr) => MakeTickets(s, t, addr);
    case ReadHead(t) => ReadHeadTickets(s, t);
    case FreeOne => FreeOneTickets(s);
    case _ =>
  }

  lemma WorldInv(s: State, s': State, ids: seq<nat>)
    requires ListInv(s, ids) && s'.heap == s.heap && s'.threads == s.threads && AllIdle(s)
    requires (if s'.world.Draining? then s'.world.cur else s'.head)
          == (if s.world.Draining? then s.world.cur else s.head)
    ensures ListInv(s', ids)
  {
    forall u: nat ensures Private(s', ids, u) { assert Private(s, ids, u); }
    SameAddresses(s, s', ids);
  }

  lemma StepList(s: State, step: Step, ids: seq<nat>) returns (ids': seq<nat>)
    requires ListInv(s, ids)
    ensures ListInv(Do(s, step), ids')
  {
    ids' := ids;
    match step {
      case Make(t, addr) =>
        if s.world == Running && PhaseOf(s, t) == Idle && addr !in s.heap { MakeInv(s, ids, t, addr); }
      case ReadHead(t) =>
        if PhaseOf(s, t).Made? { ReadHeadInv(s, ids, t); }
      case TryCas(t) =>
        if PhaseOf(s, t).Linked? {
          if s.head == PhaseOf(s, t).orig {
            CasSucceeds(s, ids, t);
            ids' := [PhaseOf(s, t).addr] + ids;
          } else {
            CasFails(s, ids, t);
          }
        }
      case Begin =>
        if s.world == Running && AllIdle(s) { WorldInv(s, Do(s, Begin), ids); }
      case FreeOne =>
        if s.world.Draining? && s.world.cur.Some? {
          FreeOneInv(s, ids);
          ids' := ids[1..];
        }
      case End =>
        if s.world == Draining(None) { WorldInv(s, Do(s, End), ids); }
    }
  }

  /** Every step keeps the invariant. */
  lemma StepInv(s: State, step: Step)
    requires Inv(s)
    ensures Inv(Do(s, step))
  {
    StepTickets(s, step);
    var ids :| ListInv(s, ids);
    var ids' := StepList(s, step, ids);
  }

  // ----- every interleaving

  const START: State := State(map[], None, map[], Running, 0, [])

  function Run(s: State, steps: seq<Step>): State
    decreases |steps|
  {
    if steps == [] then s else Run(Do(s, steps[0]), steps[1..])
  }

  lemma StartInv()
    ensures Inv(START)
  {
    forall u: nat ensures Private(START, [], u) {}
    assert ListInv(START, []);
  }

  lemma {:induction false} RunInv(s: State, steps: seq<Step>)
    requires Inv(s)
    ensures Inv(Run(s, steps))
    decreases |steps|
  {
    if steps != [] {
      StepInv(s, steps[0]);
      RunInv(Do(s, steps[0]), steps[1..]);
    }
  }

  /** When a safepoint is over, everything that was ever handed in has been freed, once, and there
      is nothing left: nothing is lost, and nothing is freed at a later safepoint than the first
      one after it was pushed. */
  lemma SafepointFreesAll(steps: seq<Step>)
    requires Run(START, steps).world == Draining(None)
    ensures var s := Run(START, steps);
            && s.heap == map[]
            && (forall k: nat :: k < s.tickets <==> k in s.freed)
            && (forall i, j | 0 <= i < j < |s.freed| :: s.freed[i] != s.freed[j])
  {
    var s := Run(START, steps);
    StartInv();
    RunInv(START, steps);
    var ids :| ListInv(s, ids);
    assert ids == [];
    forall a | a in s.heap ensures a in ids { IdleIsListed(s, ids, a); }
  }

  /** In every state the list is finite and without a circle, and draining it comes to an end:
      every entry that is freed makes it shorter. */
  lemma DrainingEnds(steps: seq<Step>) returns (more: seq<Step>)
    requires Run(START, steps).world.Draining?
    ensures Run(Run(START, steps), more).world == Draining(None) && forall step | step in more :: step == FreeOne
  {
    StartInv();
    RunInv(START, steps);
    var ids :| ListInv(Run(START, steps), ids);
    more := DrainFrom(Run(START, steps), ids);
  }

  lemma {:induction false} DrainFrom(s: State, ids: seq<nat>) returns (more: seq<Step>)
    requires ListInv(s, ids) && s.world.Draining?
    ensures Run(s, more).world == Draining(None) && forall step | step in more :: step == FreeOne
    decreases |ids|
  {
    if s.world.cur == None {
      more := [];
    } else {
      FreeOneInv(s, ids);
      var rest := DrainFrom(Do(s, FreeOne), ids[1..]);
      more := [FreeOne] + rest;
      assert more[1..] == rest;
    }
  }

  /** Only what is in the list is freed, and only at a safepoint. */
  lemma FreedWasListed(s: State, step: Step, ids: seq<nat>)
    requires ListInv(s, ids) && Do(s, step).freed != s.freed
    ensures s.world.Draining? && ids != [] && ids[0] in s.heap && Do(s, step).freed == s.freed + [s.heap[ids[0]].ticket]
  {
    FreeOneInv(s, ids);
  }

  // ----- requests

  /** A request of an idle thread gets the next ticket, on an entry that is not in use yet. */
  lemma RequestGetsTicket(s: State, t: nat, addr: nat)
    requires s.world == Running && PhaseOf(s, t) == Idle && addr !in s.heap
    ensures var s' := Do(s, Make(t, addr));
            && s'.tickets == s.tickets + 1 && PhaseOf(s', t) == Made(addr)
            && addr in s'.heap && s'.heap[addr].ticket == s.tickets
            && (forall a | a in s.heap :: a in s'.heap && s'.heap[a] == s.heap[a])
            && s'.head == s.head && s'.freed == s.freed && s'.world == s.world
  {}

  /** Undisturbed, the entry is then put before those that are listed, in two steps. */
  lemma PushAlone(s: State, t: nat, addr: nat)
    requires s.world == Running && PhaseOf(s, t) == Idle && addr !in s.heap
    ensures Do(Do(Do(s, Make(t, addr)), ReadHead(t)), TryCas(t))
         == s.(heap := s.heap[addr := Entry(s.tickets, s.head)], head := Some(addr), tickets := s.tickets + 1,
               threads := s.threads[t := Idle])
  {}

  /** If another thread was faster, the step says so and the head is read again. */
  lemma SlowerTriesAgain(s: State, t: nat, addr: nat, orig: Option<nat>)
    requires PhaseOf(s, t) == Linked(addr, orig) && s.head != orig
    ensures Do(s, TryCas(t)) == With(s, t, Made(addr))
  {}

  lemma {:induction false} RunBoth(s: State, a: seq<Step>, b: seq<Step>)
    ensures Run(s, a + b) == Run(Run(s, a), b)
    decreases |a|
  {
    if a == [] {
      assert a + b == b;
    } else {
      RunBoth(Do(s, a[0]), a[1..], b);
      assert (a + b)[1..] == a[1..] + b;
    }
  }

  lemma RunOne(s: State, step: Step)
    ensures Run(s, [step]) == Do(s, step)
  {
    assert [step][1..] == [];
  }

  /** From every reachable state in which no thread is pushing, a safepoint can come: it begins, frees
      one entry after another, and ends with nothing listed and all requests freed. */
  lemma SafepointAlone(steps: seq<Step>) returns (frees: seq<Step>)
    requires Run(START, steps).world == Running && AllIdle(Run(START, steps))
    ensures forall step | step in frees :: step == FreeOne
    ensures var s, s' := Run(START, steps), Run(Run(START, steps), [Begin] + frees + [End]);
            && s'.world == Running && s'.head == None && s'.heap == map[] && s'.tickets == s.tickets
            && forall k: nat :: k < s.tickets <==> k in s'.freed
  {
    var s := Run(START, steps);
    RunBoth(START, steps, [Begin]);
    RunOne(s, Begin);
    frees := DrainingEnds(steps + [Begin]);
    RunBoth(START, steps + [Begin], frees);
    SafepointFreesAll(steps + [Begin] + frees);
    RunBoth(s, [Begin], frees);
    RunBoth(s, [Begin] + frees, [End]);
    RunOne(Run(s, [Begin] + frees), End);
    assert forall i | 0 <= i < |frees| :: frees[i] in frees;
    TicketsStayInDrain(Do(s, Begin), frees);
  }

  lemma {:induction false} TicketsStayInDrain(s: State, frees: seq<Step>)
    requires forall i | 0 <= i < |frees| :: frees[i] == FreeOne
    ensures Run(s, frees).tickets == s.tickets
    decreases |frees|
  {
    if frees != [] {
      assert frees[0] == FreeOne;
      TicketsStayInDrain(Do(s, FreeOne), frees[1..]);
    }
  }
}
