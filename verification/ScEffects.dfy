/** What the operations on contexts do, one by one (src/6model/sc.c). */
module ScEffects {
  import opened Wrappers
  import opened ScRoots

  /** Nothing else has changed: lists other than one, and marks other than the item's. */
  ghost predicate ElsewhereSame(c: Contexts, c': Contexts, sc: nat, x: Item) {
    && (forall sc': nat, k: Kind :: sc' != sc || k != x.kind ==> ListOf(c', sc', k) == ListOf(c, sc', k))
    && (forall y: Item :: y != x ==> MarkOf(c', y) == MarkOf(c, y))
  }

  ghost predicate RecordsSame(c: Contexts, c': Contexts, sc: nat) {
    && RootsOf(c', sc).repIndexes == RootsOf(c, sc).repIndexes
    && RootsOf(c', sc).repScs == RootsOf(c, sc).repScs
  }

  // ----- the write barrier

  /** The compiling context takes an item over: it gets the next slot and its mark says so; a record
      names the slot, doubled and one more for an STable, and the context the item was in. */
  ghost predicate TakesOver(c: Contexts, c': Contexts, comp: nat, x: Item) {
    var n, r, r' := |ListOf(c, comp, x.kind)|, RootsOf(c, comp), RootsOf(c', comp);
    && ListOf(c', comp, x.kind) == ListOf(c, comp, x.kind) + [Some(x.id)]
    && MarkOf(c', x) == Mark(comp, Some(n))
    && r'.repIndexes == r.repIndexes + [if x.kind == Stables then 2 * n + 1 else 2 * n]
    && r'.repScs == r.repScs + [MarkOf(c, x).sc]
    && ElsewhereSame(c, c', comp, x) && c'.owned == c.owned
  }

  /** The mark of an item that is of interest to the barrier. */
  predicate IsForeign(c: Contexts, comp: nat, x: Item) {
    MarkOf(c, x).sc != 0 && MarkOf(c, x).sc != comp
  }

  lemma RepossessTakesOver(c: Contexts, comp: nat, x: Item)
    ensures TakesOver(c, Repossess(c, comp, x), comp, x)
  {
    var n, orig := |ListOf(c, comp, x.kind)|, MarkOf(c, x).sc;
    var c1 := Put(c, comp, n, x, Some(n));
    AddRecordLists(c1, comp, RepIndex(x.kind, n), orig);
    PutKeepsRecords(c, comp, n, x, Some(n), comp);
    PutLists(c, comp, n, x, Some(n), comp, x.kind);
    assert Nulls(0) == [];
    forall sc': nat, k: Kind | sc' != comp || k != x.kind
      ensures ListOf(Repossess(c, comp, x), sc', k) == ListOf(c, sc', k)
    {
      PutLists(c, comp, n, x, Some(n), sc', k);
    }
  }

  /** A hit on an STable, or on an object that is no aggregate. */
  lemma HitPlain(c: Contexts, comp: nat, aggregates: set<nat>, x: Item)
    requires IsForeign(c, comp, x) && (x.kind == Stables || x.id !in aggregates)
    ensures TakesOver(c, Do(c, comp, aggregates, Hit(x)), comp, x)
  {
    RepossessTakesOver(c, comp, x);
  }

  /** The pair of an aggregate with its owner that comes first. */
  ghost predicate FirstPair(pairs: seq<(nat, nat)>, a: nat, o: nat) {
    exists i :: 0 <= i < |pairs| && pairs[i] == (a, o) && forall j | 0 <= j < i :: pairs[j].0 != a
  }

  ghost predicate NoPair(pairs: seq<(nat, nat)>, a: nat) {
    forall i | 0 <= i < |pairs| :: pairs[i].0 != a
  }

  lemma {:induction false} OwnerIsFirst(pairs: seq<(nat, nat)>, a: nat, o: nat)
    requires FirstPair(pairs, a, o)
    ensures OwnerIn(pairs, a) == Some(o)
    decreases |pairs|
  {
    var i :| 0 <= i < |pairs| && pairs[i] == (a, o) && forall j | 0 <= j < i :: pairs[j].0 != a;
    if i > 0 {
      assert pairs[1..][i - 1] == (a, o);
      assert forall j | 0 <= j < i - 1 :: pairs[1..][j] == pairs[j + 1];
      OwnerIsFirst(pairs[1..], a, o);
    }
  }

  lemma {:induction false} NoOwner(pairs: seq<(nat, nat)>, a: nat)
    requires NoPair(pairs, a)
    ensures OwnerIn(pairs, a) == None
    decreases |pairs|
  {
    if pairs != [] { NoOwner(pairs[1..], a); }
  }

  /** A hit on an aggregate that an object owns is one on the object. */
  lemma HitOwned(c: Contexts, comp: nat, aggregates: set<nat>, a: nat, o: nat)
    requires a in aggregates && IsForeign(c, comp, Item(Objects, a))
    requires var sc := MarkOf(c, Item(Objects, a)).sc; sc in c.owned && FirstPair(c.owned[sc], a, o)
    ensures var c' := Do(c, comp, aggregates, Hit(Item(Objects, a)));
            if IsForeign(c, comp, Item(Objects, o)) then TakesOver(c, c', comp, Item(Objects, o)) else c' == c
  {
    OwnerIsFirst(c.owned[MarkOf(c, Item(Objects, a)).sc], a, o);
    RepossessTakesOver(c, comp, Item(Objects, o));
  }

  /** One on an aggregate without an owner does nothing. */
  lemma HitUnowned(c: Contexts, comp: nat, aggregates: set<nat>, a: nat)
    requires a in aggregates
    requires var sc := MarkOf(c, Item(Objects, a)).sc; sc !in c.owned || NoPair(c.owned[sc], a)
    ensures Do(c, comp, aggregates, Hit(Item(Objects, a))) == c
  {
    var sc := MarkOf(c, Item(Objects, a)).sc;
    if sc in c.owned { NoOwner(c.owned[sc], a); }
  }

  /** Nor does one on an item that has no context, or is in the compiling one already. */
  lemma HitAtHome(c: Contexts, comp: nat, aggregates: set<nat>, x: Item)
    requires !IsForeign(c, comp, x)
    ensures Do(c, comp, aggregates, Hit(x)) == c
  {}

  // ----- taking in

  /** The item is at the end of the list, and marked; an STable's mark has no index. */
  lemma ClaimAppends(c: Contexts, comp: nat, aggregates: set<nat>, sc: nat, x: Item)
    ensures var c', n := Do(c, comp, aggregates, Claim(sc, x)), |ListOf(c, sc, x.kind)|;
            && ListOf(c', sc, x.kind) == ListOf(c, sc, x.kind) + [Some(x.id)]
            && MarkOf(c', x) == Mark(sc, if x.kind == Objects then Some(n) else None)
            && ElsewhereSame(c, c', sc, x) && RecordsSame(c, c', sc) && c'.owned == c.owned
  {
    var n := |ListOf(c, sc, x.kind)|;
    var idx := if x.kind == Objects then Some(n) else None;
    assert Nulls(0) == [];
    PutKeepsRecords(c, sc, n, x, idx, sc);
    forall sc': nat, k: Kind
      ensures ListOf(Put(c, sc, n, x, idx), sc', k)
           == if sc' == sc && k == x.kind then SetAt(ListOf(c, sc, k), n, x.id) else ListOf(c, sc', k)
    {
      PutLists(c, sc, n, x, idx, sc', k);
    }
  }

  /** The item is in its place, and marked with it; places that were skipped are empty. */
  lemma StubFills(c: Contexts, comp: nat, aggregates: set<nat>, sc: nat, i: nat, x: Item)
    ensures var c' := Do(c, comp, aggregates, Stub(sc, i, x));
            var l, l' := ListOf(c, sc, x.kind), ListOf(c', sc, x.kind);
            && |l'| == (if i < |l| then |l| else i + 1) && l'[i] == Some(x.id)
            && (forall j | 0 <= j < |l'| && j != i :: l'[j] == if j < |l| then l[j] else None)
            && MarkOf(c', x) == Mark(sc, Some(i))
            && ElsewhereSame(c, c', sc, x) && RecordsSame(c, c', sc) && c'.owned == c.owned
  {
    PutKeepsRecords(c, sc, i, x, Some(i), sc);
    forall sc': nat, k: Kind
      ensures ListOf(Put(c, sc, i, x, Some(i)), sc', k)
           == if sc' == sc && k == x.kind then SetAt(ListOf(c, sc, k), i, x.id) else ListOf(c, sc', k)
    {
      PutLists(c, sc, i, x, Some(i), sc', k);
    }
  }

  /** The aggregate is marked, but in no list, and its owner is noted after those that were. */
  lemma OwnNotes(c: Contexts, comp: nat, aggregates: set<nat>, sc: nat, a: nat, o: nat)
    ensures var c' := Do(c, comp, aggregates, Own(sc, a, o));
            && c'.roots == c.roots && MarkOf(c', Item(Objects, a)) == Mark(sc, None)
            && (forall y: Item :: y != Item(Objects, a) ==> MarkOf(c', y) == MarkOf(c, y))
            && sc in c'.owned && c'.owned[sc] == (if sc in c.owned then c.owned[sc] else []) + [(a, o)]
            && (forall sc' | sc' in c.owned && sc' != sc :: sc' in c'.owned && c'.owned[sc'] == c.owned[sc'])
  {}
}
