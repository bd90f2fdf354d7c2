/** The root lists of serialization contexts and the marks on the items in them (src/6model/sc.c):
    the index kept in a mark agrees with a search of the list, and repossession keeps its records
    straight. */
module ScRoots {
  import opened Wrappers

  datatype Kind = Objects | Stables
  datatype Item = Item(kind: Kind, id: nat)

  /** The number of an item's context, zero for none, and its index there, if that is known. */
  datatype Mark = Mark(sc: nat, idx: Option<nat>)

  /** What a context has: root lists, in which a place may be empty, and repossession records. */
  datatype Roots = Roots(objects: seq<Option<nat>>, stables: seq<Option<nat>>, repIndexes: seq<nat>, repScs: seq<nat>)

  /** All contexts, and the aggregates (arrays and hashes) that some object of a context owns:
      they carry that context's mark without being in its list. */
  datatype Contexts = Contexts(marks: map<Item, Mark>, roots: map<nat, Roots>, owned: map<nat, seq<(nat, nat)>>)

  function RootsOf(c: Contexts, sc: nat): Roots {
    if sc in c.roots then c.roots[sc] else Roots([], [], [], [])
  }

  function ListOf(c: Contexts, sc: nat, k: Kind): seq<Option<nat>> {
    if k == Objects then RootsOf(c, sc).objects else RootsOf(c, sc).stables
  }

  /** A fresh collectable's header is all zeros. */
  function MarkOf(c: Contexts, x: Item): Mark {
    if x in c.marks then c.marks[x] else Mark(0, Some(0))
  }

  // ----- finding an index

  function Scan(l: seq<Option<nat>>, id: nat): (r: Result<nat>)
    ensures r.Ok? ==> r.value < |l| && l[r.value] == Some(id) && forall j | 0 <= j < r.value :: l[j] != Some(id)
    ensures r.Err? ==> Some(id) !in l
  {
    if l == [] then Err
    else if l[0] == Some(id) then Ok(0)
    else
      var r := Scan(l[1..], id);
      if r.Err? then Err else Ok(r.value + 1)
  }

  /** `MVM_sc_find_object_idx` and `MVM_sc_find_stable_idx`. */
  function FindIdx(c: Contexts, sc: nat, x: Item): Result<nat> {
    var m := MarkOf(c, x);
    if m.idx.Some? && m.sc == sc then Ok(m.idx.value) else Scan(ListOf(c, sc, x.kind), x.id)
  }

  // ----- what holds

  /** An item in a list is marked with that context, or was taken over by the compiling one. */
  ghost predicate Where(c: Contexts, comp: nat) {
    forall sc: nat, x: Item :: InList(c, sc, x) ==> MarkOf(c, x).sc == sc || MarkOf(c, x).sc == comp
  }

  ghost predicate InList(c: Contexts, sc: nat, x: Item) {
    Some(x.id) in ListOf(c, sc, x.kind)
  }

  /** An index in a mark is the item's place. */
  ghost predicate Cached(c: Contexts) {
    forall x: Item :: CachedAt(c, x)
  }

  ghost predicate CachedAt(c: Contexts, x: Item) {
    var m := MarkOf(c, x);
    m.sc != 0 && m.idx.Some? ==>
      m.idx.value < |ListOf(c, m.sc, x.kind)| && ListOf(c, m.sc, x.kind)[m.idx.value] == Some(x.id)
  }

  /** Every item with a mark is in the list, except for aggregates. */
  ghost predicate Placed(c: Contexts, aggregates: set<nat>) {
    forall x: Item ::
      MarkOf(c, x).sc != 0 && !(x.kind == Objects && x.id in aggregates) ==> InList(c, MarkOf(c, x).sc, x)
  }

  /** An item occurs at most once in a list. */
  ghost predicate Once(l: seq<Option<nat>>) {
    forall i, j | 0 <= i < j < |l| :: l[i] == l[j] ==> l[i].None?
  }

  ghost predicate Distinct(c: Contexts) {
    forall sc: nat, k: Kind :: Once(ListOf(c, sc, k))
  }

  /** Zero is no context. */
  ghost predicate NoZero(c: Contexts) {
    0 !in c.roots
  }

  ghost predicate ListsInv(c: Contexts, comp: nat, aggregates: set<nat>) {
    NoZero(c) && comp != 0 && Where(c, comp) && Cached(c) && Placed(c, aggregates) && Distinct(c)
  }

  lemma OncePlace(l: seq<Option<nat>>, i: nat, j: nat)
    requires Once(l) && i < |l| && j < |l| && l[i] == l[j] && l[i].Some?
    ensures i == j
  {}

  /** The index kept in a mark is the one a search would find. */
  lemma CachedIsScan(c: Contexts, comp: nat, aggregates: set<nat>, sc: nat, x: Item)
    requires ListsInv(c, comp, aggregates) && sc != 0
    ensures FindIdx(c, sc, x) == Scan(ListOf(c, sc, x.kind), x.id)
  {
    var m, l := MarkOf(c, x), ListOf(c, sc, x.kind);
    assert CachedAt(c, x);
    if m.idx.Some? && m.sc == sc {
      assert l[m.idx.value] in l;
      assert Once(l);
      OncePlace(l, m.idx.value, Scan(l, x.id).value);
    }
  }

  // ----- changing a list

  function Nulls(n: nat): (l: seq<Option<nat>>)
    ensures |l| == n
  {
    seq(n, _ => None)
  }

  /** `MVM_sc_set_object_no_update`: within the list or beyond its end. */
  function SetAt(l: seq<Option<nat>>, i: nat, id: nat): (r: seq<Option<nat>>)
    ensures |r| == if i < |l| then |l| else i + 1
    ensures r[i] == Some(id) && forall j | 0 <= j < |r| && j != i :: r[j] == if j < |l| then l[j] else None
  {
    if i < |l| then l[i := Some(id)] else l + Nulls(i - |l|) + [Some(id)]
  }

  function WithList(r: Roots, k: Kind, l: seq<Option<nat>>): Roots {
    if k == Objects then r.(objects := l) else r.(stables := l)
  }

  /** Store an item and mark it. */
  function Put(c: Contexts, sc: nat, i: nat, x: Item, idx: Option<nat>): Contexts {
    c.(roots := c.roots[sc := WithList(RootsOf(c, sc), x.kind, SetAt(ListOf(c, sc, x.kind), i, x.id))],
       marks := c.marks[x := Mark(sc, idx)])
  }

  /** The place is free, and the item is not in the list yet. It has no context so far, or the
      compiling context takes it over. */
  ghost predicate MayPut(c: Contexts, comp: nat, sc: nat, i: nat, x: Item, idx: Option<nat>) {
    && sc != 0 && !InList(c, sc, x)
    && (i < |ListOf(c, sc, x.kind)| ==> ListOf(c, sc, x.kind)[i] == None)
    && (idx == None || idx == Some(i))
    && (MarkOf(c, x).sc == 0 || (sc == comp && MarkOf(c, x).sc != comp))
  }

  lemma PutLists(c: Contexts, sc: nat, i: nat, x: Item, idx: Option<nat>, sc': nat, k: Kind)
    ensures ListOf(Put(c, sc, i, x, idx), sc', k)
         == if sc' == sc && k == x.kind then SetAt(ListOf(c, sc, k), i, x.id) else ListOf(c, sc', k)
  {}

  lemma SetAtMembers(l: seq<Option<nat>>, i: nat, id: nat, y: nat)
    requires i < |l| ==> l[i] == None
    ensures Some(y) in SetAt(l, i, id) <==> Some(y) in l || y == id
  {
    var r := SetAt(l, i, id);
    assert r[i] in r;
    if Some(y) in l {
      var j :| 0 <= j < |l| && l[j] == Some(y);
      assert r[j] in r;
    }
  }

  lemma PutMembers(c: Contexts, comp: nat, sc: nat, i: nat, x: Item, idx: Option<nat>, sc': nat, y: Item)
    requires MayPut(c, comp, sc, i, x, idx)
    ensures InList(Put(c, sc, i, x, idx), sc', y) <==> InList(c, sc', y) || (sc' == sc && y == x)
  {
    PutLists(c, sc, i, x, idx, sc', y.kind);
    if sc' == sc && y.kind == x.kind { SetAtMembers(ListOf(c, sc, y.kind), i, x.id, y.id); }
  }

  lemma PutWhere(c: Contexts, comp: nat, sc: nat, i: nat, x: Item, idx: Option<nat>)
    requires Where(c, comp) && NoZero(c) && comp != 0 && MayPut(c, comp, sc, i, x, idx)
    ensures Where(Put(c, sc, i, x, idx), comp)
  {
    var c' := Put(c, sc, i, x, idx);
    forall sc': nat, y: Item | InList(c', sc', y) ensures MarkOf(c', y).sc == sc' || MarkOf(c', y).sc == comp {
      PutMembers(c, comp, sc, i, x, idx, sc', y);
      if sc' != sc && y == x { NotInListZero(c, x); }
    }
  }

  lemma NotInListZero(c: Contexts, x: Item)
    requires NoZero(c)
    ensures !InList(c, 0, x)
  {}

  lemma PutCached(c: Contexts, comp: nat, sc: nat, i: nat, x: Item, idx: Option<nat>)
    requires Cached(c) && MayPut(c, comp, sc, i, x, idx)
    ensures Cached(Put(c, sc, i, x, idx))
  {
    var c' := Put(c, sc, i, x, idx);
    forall y: Item ensures CachedAt(c', y) {
      assert CachedAt(c, y);
      PutLists(c, sc, i, x, idx, MarkOf(c', y).sc, y.kind);
    }
  }

  lemma PutPlaced(c: Contexts, comp: nat, aggregates: set<nat>, sc: nat, i: nat, x: Item, idx: Option<nat>)
    requires Placed(c, aggregates) && MayPut(c, comp, sc, i, x, idx)
    ensures Placed(Put(c, sc, i, x, idx), aggregates)
  {
    var c' := Put(c, sc, i, x, idx);
    forall y: Item | MarkOf(c', y).sc != 0 && !(y.kind == Objects && y.id in aggregates)
      ensures InList(c', MarkOf(c', y).sc, y)
    {
      PutMembers(c, comp, sc, i, x, idx, MarkOf(c', y).sc, y);
    }
  }

  lemma SetAtOnce(l: seq<Option<nat>>, i: nat, id: nat)
    requires Once(l) && Some(id) !in l && (i < |l| ==> l[i] == None)
    ensures Once(SetAt(l, i, id))
  {
    var r := SetAt(l, i, id);
    forall a, b | 0 <= a < b < |r| && r[a] == r[b] ensures r[a].None? {
      if a < |l| && a != i { assert l[a] in l; }
      if b < |l| && b != i { assert l[b] in l; }
    }
  }

  lemma PutDistinct(c: Contexts, comp: nat, sc: nat, i: nat, x: Item, idx: Option<nat>)
    requires Distinct(c) && MayPut(c, comp, sc, i, x, idx)
    ensures Distinct(Put(c, sc, i, x, idx))
  {
    var c' := Put(c, sc, i, x, idx);
    forall sc': nat, k: Kind ensures Once(ListOf(c', sc', k)) {
      assert Once(ListOf(c, sc', k));
      PutLists(c, sc, i, x, idx, sc', k);
      if sc' == sc && k == x.kind { SetAtOnce(ListOf(c, sc, k), i, x.id); }
    }
  }

  /** Storing an item keeps all that. */
  lemma PutInv(c: Contexts, comp: nat, aggregates: set<nat>, sc: nat, i: nat, x: Item, idx: Option<nat>)
    requires ListsInv(c, comp, aggregates) && MayPut(c, comp, sc, i, x, idx)
    ensures ListsInv(Put(c, sc, i, x, idx), comp, aggregates)
  {
    PutWhere(c, comp, sc, i, x, idx);
    PutCached(c, comp, sc, i, x, idx);
    PutPlaced(c, comp, aggregates, sc, i, x, idx);
    PutDistinct(c, comp, sc, i, x, idx);
  }

  // ----- repossession records

  /** A record: the slot in the compiling context, doubled, and one more for STables. */
  function RepIndex(k: Kind, slot: nat): nat {
    2 * slot + if k == Stables then 1 else 0
  }

  function RepKind(r: nat): Kind { if r % 2 == 1 then Stables else Objects }
  function RepSlot(r: nat): nat { r / 2 }

  /** A record names an item of the compiling context that is marked with its slot there, and
      that its former context, which is named beside it, still lists. */
  ghost predicate RecordOk(c: Contexts, comp: nat, e: nat)
    requires e < |RootsOf(c, comp).repIndexes| == |RootsOf(c, comp).repScs|
  {
    var r, orig := RootsOf(c, comp).repIndexes[e], RootsOf(c, comp).repScs[e];
    var l := ListOf(c, comp, RepKind(r));
    && orig != comp && orig != 0 && RepSlot(r) < |l| && l[RepSlot(r)].Some?
    && var x := Item(RepKind(r), l[RepSlot(r)].value);
       MarkOf(c, x) == Mark(comp, Some(RepSlot(r))) && InList(c, orig, x)
  }

  ghost predicate RecordsOk(c: Contexts, comp: nat) {
    && |RootsOf(c, comp).repIndexes| == |RootsOf(c, comp).repScs|
    && forall e | 0 <= e < |RootsOf(c, comp).repIndexes| :: RecordOk(c, comp, e)
  }

  /** No two records are about the same item. */
  ghost predicate RecordsDiffer(reps: seq<nat>) {
    forall e, e' | 0 <= e < e' < |reps| :: reps[e] != reps[e']
  }

  /** Every item of the compiling context that another context lists has a record. */
  ghost predicate RecordsComplete(c: Contexts, comp: nat) {
    forall x: Item, sc: nat :: InList(c, comp, x) && InList(c, sc, x) && sc != comp ==> Recorded(c, comp, x)
  }

  ghost predicate Recorded(c: Contexts, comp: nat, x: Item) {
    exists r :: r in RootsOf(c, comp).repIndexes && Names(c, comp, x, r)
  }

  ghost predicate Names(c: Contexts, comp: nat, x: Item, r: nat) {
    RepKind(r) == x.kind && RepSlot(r) < |ListOf(c, comp, x.kind)| && ListOf(c, comp, x.kind)[RepSlot(r)] == Some(x.id)
  }

  ghost predicate Inv(c: Contexts, comp: nat, aggregates: set<nat>) {
    && ListsInv(c, comp, aggregates)
    && RecordsOk(c, comp) && RecordsDiffer(RootsOf(c, comp).repIndexes) && RecordsComplete(c, comp)
  }

  lemma PutKeepsRecords(c: Contexts, sc: nat, i: nat, x: Item, idx: Option<nat>, comp: nat)
    ensures RootsOf(Put(c, sc, i, x, idx), comp).repIndexes == RootsOf(c, comp).repIndexes
    ensures RootsOf(Put(c, sc, i, x, idx), comp).repScs == RootsOf(c, comp).repScs
  {}

  lemma PutRecordOk(c: Contexts, comp: nat, sc: nat, i: nat, x: Item, idx: Option<nat>, e: nat)
    requires MayPut(c, comp, sc, i, x, idx) && comp != 0 && RecordsOk(c, comp) && e < |RootsOf(c, comp).repIndexes|
    ensures RootsOf(Put(c, sc, i, x, idx), comp).repIndexes == RootsOf(c, comp).repIndexes
    ensures RootsOf(Put(c, sc, i, x, idx), comp).repScs == RootsOf(c, comp).repScs
    ensures RecordOk(Put(c, sc, i, x, idx), comp, e)
  {
    var c' := Put(c, sc, i, x, idx);
    PutKeepsRecords(c, sc, i, x, idx, comp);
    assert RecordOk(c, comp, e);
    var r, orig := RootsOf(c, comp).repIndexes[e], RootsOf(c, comp).repScs[e];
    var y := Item(RepKind(r), ListOf(c, comp, RepKind(r))[RepSlot(r)].value);
    PutLists(c, sc, i, x, idx, comp, y.kind);
    PutMembers(c, comp, sc, i, x, idx, orig, y);
  }

  lemma PutRecordsOk(c: Contexts, comp: nat, sc: nat, i: nat, x: Item, idx: Option<nat>)
    requires MayPut(c, comp, sc, i, x, idx) && comp != 0 && RecordsOk(c, comp)
    ensures RecordsOk(Put(c, sc, i, x, idx), comp)
  {
    PutKeepsRecords(c, sc, i, x, idx, comp);
    forall e | 0 <= e < |RootsOf(c, comp).repIndexes| ensures RecordOk(Put(c, sc, i, x, idx), comp, e) {
      PutRecordOk(c, comp, sc, i, x, idx, e);
    }
  }

  lemma PutRecorded(c: Contexts, comp: nat, sc: nat, i: nat, x: Item, idx: Option<nat>, y: Item)
    requires MayPut(c, comp, sc, i, x, idx) && Recorded(c, comp, y)
    ensures Recorded(Put(c, sc, i, x, idx), comp, y)
  {
    var r :| r in RootsOf(c, comp).repIndexes && Names(c, comp, y, r);
    PutKeepsRecords(c, sc, i, x, idx, comp);
    PutLists(c, sc, i, x, idx, comp, y.kind);
    assert Names(Put(c, sc, i, x, idx), comp, y, r);
  }

  /** An item that had no context needs no record. */
  lemma PutFreshComplete(c: Contexts, comp: nat, sc: nat, i: nat, x: Item, idx: Option<nat>)
    requires MayPut(c, comp, sc, i, x, idx) && MarkOf(c, x).sc == 0 && comp != 0
    requires Where(c, comp) && NoZero(c) && RecordsComplete(c, comp)
    ensures RecordsComplete(Put(c, sc, i, x, idx), comp)
  {
    var c' := Put(c, sc, i, x, idx);
    forall y: Item, sc': nat | InList(c', comp, y) && InList(c', sc', y) && sc' != comp ensures Recorded(c', comp, y) {
      PutMembers(c, comp, sc, i, x, idx, comp, y);
      PutMembers(c, comp, sc, i, x, idx, sc', y);
      NotInListZero(c, x);
      PutRecorded(c, comp, sc, i, x, idx, y);
    }
  }

  /** Taking in a new item, or stubbing one, keeps everything. */
  lemma PutFreshInv(c: Contexts, comp: nat, aggregates: set<nat>, sc: nat, i: nat, x: Item, idx: Option<nat>)
    requires Inv(c, comp, aggregates) && MayPut(c, comp, sc, i, x, idx) && MarkOf(c, x).sc == 0
    ensures Inv(Put(c, sc, i, x, idx), comp, aggregates)
  {
    PutInv(c, comp, aggregates, sc, i, x, idx);
    PutKeepsRecords(c, sc, i, x, idx, comp);
    PutRecordsOk(c, comp, sc, i, x, idx);
    PutFreshComplete(c, comp, sc, i, x, idx);
  }

  // ----- taking over

  function AddRecord(c: Contexts, comp: nat, r: nat, orig: nat): Contexts {
    var roots := RootsOf(c, comp);
    c.(roots := c.roots[comp := roots.(repIndexes := roots.repIndexes + [r], repScs := roots.repScs + [orig])])
  }

  /** The compiling context takes over an item. */
  function Repossess(c: Contexts, comp: nat, x: Item): Contexts {
    var n := |ListOf(c, comp, x.kind)|;
    AddRecord(Put(c, comp, n, x, Some(n)), comp, RepIndex(x.kind, n), MarkOf(c, x).sc)
  }

  lemma AddRecordLists(c: Contexts, comp: nat, r: nat, orig: nat)
    ensures forall sc, k :: ListOf(AddRecord(c, comp, r, orig), sc, k) == ListOf(c, sc, k)
    ensures forall x :: MarkOf(AddRecord(c, comp, r, orig), x) == MarkOf(c, x)
  {}

  lemma AddRecordInv(c: Contexts, comp: nat, aggregates: set<nat>, r: nat, orig: nat)
    requires ListsInv(c, comp, aggregates)
    ensures ListsInv(AddRecord(c, comp, r, orig), comp, aggregates)
  {
    var c' := AddRecord(c, comp, r, orig);
    AddRecordLists(c, comp, r, orig);
    forall x: Item ensures CachedAt(c', x) { assert CachedAt(c, x); }
    forall sc: nat, x: Item ensures InList(c', sc, x) == InList(c, sc, x) {}
    forall sc: nat, k: Kind ensures Once(ListOf(c', sc, k)) { assert Once(ListOf(c, sc, k)); }
  }

  lemma AddRecordOk(c: Contexts, comp: nat, r: nat, orig: nat)
    requires RecordsOk(c, comp)
    requires var l := ListOf(c, comp, RepKind(r));
             && orig != comp && orig != 0 && RepSlot(r) < |l| && l[RepSlot(r)].Some?
             && var x := Item(RepKind(r), l[RepSlot(r)].value);
                MarkOf(c, x) == Mark(comp, Some(RepSlot(r))) && InList(c, orig, x)
    ensures RecordsOk(AddRecord(c, comp, r, orig), comp)
  {
    var c' := AddRecord(c, comp, r, orig);
    AddRecordLists(c, comp, r, orig);
    forall e | 0 <= e < |RootsOf(c', comp).repIndexes| ensures RecordOk(c', comp, e) {
      if e < |RootsOf(c, comp).repIndexes| { assert RecordOk(c, comp, e); }
    }
  }

  lemma RepIndexParts(k: Kind, n: nat)
    ensures RepKind(RepIndex(k, n)) == k && RepSlot(RepIndex(k, n)) == n
  {}

  /** A record about a slot at the end of the list is new. */
  lemma NewRecordDiffers(c: Contexts, comp: nat, k: Kind)
    requires RecordsOk(c, comp)
    ensures RepIndex(k, |ListOf(c, comp, k)|) !in RootsOf(c, comp).repIndexes
  {
    var n := |ListOf(c, comp, k)|;
    RepIndexParts(k, n);
    forall e | 0 <= e < |RootsOf(c, comp).repIndexes| ensures RootsOf(c, comp).repIndexes[e] != RepIndex(k, n) {
      assert RecordOk(c, comp, e);
    }
  }

  lemma RepossessComplete(c: Contexts, comp: nat, x: Item)
    requires RecordsComplete(c, comp)
    requires MayPut(c, comp, comp, |ListOf(c, comp, x.kind)|, x, Some(|ListOf(c, comp, x.kind)|))
    ensures RecordsComplete(Repossess(c, comp, x), comp)
  {
    var n := |ListOf(c, comp, x.kind)|;
    var c1, c' := Put(c, comp, n, x, Some(n)), Repossess(c, comp, x);
    var r := RepIndex(x.kind, n);
    AddRecordLists(c1, comp, r, MarkOf(c, x).sc);
    RepIndexParts(x.kind, n);
    PutLists(c, comp, n, x, Some(n), comp, x.kind);
    PutKeepsRecords(c, comp, n, x, Some(n), comp);
    forall y: Item, sc: nat | InList(c', comp, y) && InList(c', sc, y) && sc != comp ensures Recorded(c', comp, y) {
      PutMembers(c, comp, comp, n, x, Some(n), comp, y);
      PutMembers(c, comp, comp, n, x, Some(n), sc, y);
      if y == x {
        assert Names(c', comp, x, r) && RootsOf(c', comp).repIndexes[|RootsOf(c, comp).repIndexes|] == r;
      } else {
        PutRecorded(c, comp, comp, n, x, Some(n), y);
        var r' :| r' in RootsOf(c1, comp).repIndexes && Names(c1, comp, y, r');
        assert Names(c', comp, y, r');
      }
    }
  }

  /** Taking over an item that another context lists keeps everything. */
  lemma RepossessInv(c: Contexts, comp: nat, aggregates: set<nat>, x: Item)
    requires Inv(c, comp, aggregates) && MarkOf(c, x).sc != 0 && MarkOf(c, x).sc != comp
    requires !(x.kind == Objects && x.id in aggregates)
    ensures Inv(Repossess(c, comp, x), comp, aggregates)
  {
    var n, orig := |ListOf(c, comp, x.kind)|, MarkOf(c, x).sc;
    var c1 := Put(c, comp, n, x, Some(n));
    assert InList(c, orig, x);
    assert MayPut(c, comp, comp, n, x, Some(n));
    PutInv(c, comp, aggregates, comp, n, x, Some(n));
    PutRecordsOk(c, comp, comp, n, x, Some(n));
    PutMembers(c, comp, comp, n, x, Some(n), orig, x);
    PutLists(c, comp, n, x, Some(n), comp, x.kind);
    PutKeepsRecords(c, comp, n, x, Some(n), comp);
    RepIndexParts(x.kind, n);
    NewRecordDiffers(c, comp, x.kind);
    AddRecordInv(c1, comp, aggregates, RepIndex(x.kind, n), orig);
    AddRecordOk(c1, comp, RepIndex(x.kind, n), orig);
    RepossessComplete(c, comp, x);
  }

  // ----- the operations

  /** An array or a hash that an object of a context owns. */
  function OwnerIn(owned: seq<(nat, nat)>, o: nat): Option<nat> {
    if owned == [] then None else if owned[0].0 == o then Some(owned[0].1) else OwnerIn(owned[1..], o)
  }

  /** Whom a hit on an object is about: the owner, for an aggregate that has one. */
  function Target(c: Contexts, comp: nat, aggregates: set<nat>, o: nat): Option<nat> {
    if o !in aggregates then Some(o)
    else
      var sc := MarkOf(c, Item(Objects, o)).sc;
      var owner := if sc in c.owned then OwnerIn(c.owned[sc], o) else None;
      if owner.None? || MarkOf(c, Item(Objects, owner.value)).sc in {0, comp} then None else owner
  }

  datatype Op =
    | Claim(sc: nat, x: Item)                    // set the context of an item without one, then push it
    | Stub(sc: nat, i: nat, x: Item)             // a new item for an empty place
    | Own(sc: nat, aggregate: nat, owner: nat)   // an aggregate read as part of an object
    | Hit(x: Item)                               // the write barrier

  /** What the callers of the operations see to. */
  ghost predicate Allowed(c: Contexts, aggregates: set<nat>, op: Op) {
    match op
    case Claim(sc, x) => sc != 0 && MarkOf(c, x).sc == 0
    case Stub(sc, i, x) =>
      sc != 0 && MarkOf(c, x).sc == 0 && (i < |ListOf(c, sc, x.kind)| ==> ListOf(c, sc, x.kind)[i] == None)
    case Own(sc, a, o) => sc != 0 && a in aggregates && o !in aggregates && MarkOf(c, Item(Objects, a)).sc == 0
    case Hit(_) => true
  }

  ghost predicate OwnersAreObjects(c: Contexts, aggregates: set<nat>) {
    forall sc | sc in c.owned :: OwnerList(c.owned[sc], aggregates)
  }

  ghost predicate OwnerList(owned: seq<(nat, nat)>, aggregates: set<nat>) {
    forall i | 0 <= i < |owned| :: owned[i].1 !in aggregates
  }

  /** Pushed objects get their index, pushed STables do not. A hit does something only to an item
      that has a context other than the compiling one. */
  function Do(c: Contexts, comp: nat, aggregates: set<nat>, op: Op): Contexts {
    match op
    case Claim(sc, x) =>
      var n := |ListOf(c, sc, x.kind)|;
      Put(c, sc, n, x, if x.kind == Objects then Some(n) else None)
    case Stub(sc, i, x) => Put(c, sc, i, x, Some(i))
    case Own(sc, a, o) =>
      c.(marks := c.marks[Item(Objects, a) := Mark(sc, None)],
         owned := c.owned[sc := (if sc in c.owned then c.owned[sc] else []) + [(a, o)]])
    case Hit(x) =>
      if MarkOf(c, x).sc == 0 || MarkOf(c, x).sc == comp then c
      else if x.kind == Stables then Repossess(c, comp, x)
      else
        var t := Target(c, comp, aggregates, x.id);
        if t.None? then c else Repossess(c, comp, Item(Objects, t.value))
  }

  lemma {:induction false} OwnerIsObject(owned: seq<(nat, nat)>, aggregates: set<nat>, o: nat)
    requires OwnerList(owned, aggregates)
    ensures OwnerIn(owned, o).Some? ==> OwnerIn(owned, o).value !in aggregates
  {
    if owned != [] && owned[0].0 != o { OwnerIsObject(owned[1..], aggregates, o); }
  }

  lemma NotListedYet(c: Contexts, comp: nat, aggregates: set<nat>, sc: nat, x: Item)
    requires ListsInv(c, comp, aggregates) && MarkOf(c, x).sc == 0 && sc != 0
    ensures !InList(c, sc, x)
  {}

  lemma OwnInv(c: Contexts, comp: nat, aggregates: set<nat>, sc: nat, a: nat, o: nat)
    requires Inv(c, comp, aggregates) && Allowed(c, aggregates, Own(sc, a, o))
    ensures Inv(Do(c, comp, aggregates, Own(sc, a, o)), comp, aggregates)
  {
    var c' := Do(c, comp, aggregates, Own(sc, a, o));
    var x := Item(Objects, a);
    assert forall sc', k :: ListOf(c', sc', k) == ListOf(c, sc', k);
    forall sc': nat, y: Item ensures InList(c', sc', y) == InList(c, sc', y) {}
    forall sc': nat, y: Item | InList(c', sc', y) ensures MarkOf(c', y).sc == sc' || MarkOf(c', y).sc == comp {
      assert InList(c, sc', y);
      NotInListZero(c, x);
    }
    forall y: Item ensures CachedAt(c', y) { assert CachedAt(c, y); }
    forall sc': nat, k: Kind ensures Once(ListOf(c', sc', k)) { assert Once(ListOf(c, sc', k)); }
    forall e | 0 <= e < |RootsOf(c', comp).repIndexes| ensures RecordOk(c', comp, e) { assert RecordOk(c, comp, e); }
    forall y: Item, sc': nat | InList(c', comp, y) && InList(c', sc', y) && sc' != comp ensures Recorded(c', comp, y) {
      assert Recorded(c, comp, y);
      var r :| r in RootsOf(c, comp).repIndexes && Names(c, comp, y, r);
      assert Names(c', comp, y, r);
    }
  }

  /** Every operation keeps the invariant. */
  lemma DoInv(c: Contexts, comp: nat, aggregates: set<nat>, op: Op)
    requires Inv(c, comp, aggregates) && OwnersAreObjects(c, aggregates) && Allowed(c, aggregates, op)
    ensures Inv(Do(c, comp, aggregates, op), comp, aggregates)
  {
    match op
    case Claim(sc, x) =>
      NotListedYet(c, comp, aggregates, sc, x);
      var n := |ListOf(c, sc, x.kind)|;
      PutFreshInv(c, comp, aggregates, sc, n, x, if x.kind == Objects then Some(n) else None);
    case Stub(sc, i, x) =>
      NotListedYet(c, comp, aggregates, sc, x);
      PutFreshInv(c, comp, aggregates, sc, i, x, Some(i));
    case Own(sc, a, o) => OwnInv(c, comp, aggregates, sc, a, o);
    case Hit(x) => HitInv(c, comp, aggregates, x);
  }

  lemma HitInv(c: Contexts, comp: nat, aggregates: set<nat>, x: Item)
    requires Inv(c, comp, aggregates) && OwnersAreObjects(c, aggregates)
    ensures Inv(Do(c, comp, aggregates, Hit(x)), comp, aggregates)
  {
    if MarkOf(c, x).sc != 0 && MarkOf(c, x).sc != comp {
      if x.kind == Stables {
        RepossessInv(c, comp, aggregates, x);
      } else {
        var t := Target(c, comp, aggregates, x.id);
        var sc := MarkOf(c, x).sc;
        if x.id in aggregates && sc in c.owned { OwnerIsObject(c.owned[sc], aggregates, x.id); }
        if t.Some? { RepossessInv(c, comp, aggregates, Item(Objects, t.value)); }
      }
    }
  }

  lemma DoOwners(c: Contexts, comp: nat, aggregates: set<nat>, op: Op)
    requires OwnersAreObjects(c, aggregates) && Allowed(c, aggregates, op)
    ensures OwnersAreObjects(Do(c, comp, aggregates, op), aggregates)
  {
    var c' := Do(c, comp, aggregates, op);
    forall sc | sc in c'.owned ensures OwnerList(c'.owned[sc], aggregates) {
      if sc in c.owned { assert OwnerList(c.owned[sc], aggregates); }
    }
  }

  // ----- every run

  /** No items, no marks. */
  const START: Contexts := Contexts(map[], map[], map[])

  function Run(comp: nat, aggregates: set<nat>, ops: seq<Op>): Contexts {
    if ops == [] then START
    else Do(Run(comp, aggregates, ops[..|ops| - 1]), comp, aggregates, ops[|ops| - 1])
  }

  ghost predicate AllAllowed(comp: nat, aggregates: set<nat>, ops: seq<Op>) {
    ops == [] ||
    (AllAllowed(comp, aggregates, ops[..|ops| - 1])
     && Allowed(Run(comp, aggregates, ops[..|ops| - 1]), aggregates, ops[|ops| - 1]))
  }

  lemma StartInv(comp: nat, aggregates: set<nat>)
    requires comp != 0
    ensures Inv(START, comp, aggregates) && OwnersAreObjects(START, aggregates)
  {
    assert forall sc, k :: ListOf(START, sc, k) == [];
    assert forall x :: MarkOf(START, x) == Mark(0, Some(0));
  }

  /** The invariant holds after any sequence of claims, stubs and barrier hits. */
  lemma {:induction false} RunInv(comp: nat, aggregates: set<nat>, ops: seq<Op>)
    requires comp != 0 && AllAllowed(comp, aggregates, ops)
    ensures Inv(Run(comp, aggregates, ops), comp, aggregates)
    ensures OwnersAreObjects(Run(comp, aggregates, ops), aggregates)
    decreases |ops|
  {
    if ops == [] {
      StartInv(comp, aggregates);
    } else {
      var c := Run(comp, aggregates, ops[..|ops| - 1]);
      RunInv(comp, aggregates, ops[..|ops| - 1]);
      DoInv(c, comp, aggregates, ops[|ops| - 1]);
      DoOwners(c, comp, aggregates, ops[|ops| - 1]);
    }
  }

  /** So the quick answer is the slow one in every reachable state. */
  lemma FindIsScan(comp: nat, aggregates: set<nat>, ops: seq<Op>, sc: nat, x: Item)
    requires comp != 0 && sc != 0 && AllAllowed(comp, aggregates, ops)
    ensures var c := Run(comp, aggregates, ops); FindIdx(c, sc, x) == Scan(ListOf(c, sc, x.kind), x.id)
  {
    RunInv(comp, aggregates, ops);
    CachedIsScan(Run(comp, aggregates, ops), comp, aggregates, sc, x);
  }

  // ----- what repossession leaves alone, and what it records

  /** A place that holds an item goes on holding it. */
  lemma EntriesStay(c: Contexts, comp: nat, aggregates: set<nat>, op: Op, sc: nat, k: Kind, i: nat)
    requires Inv(c, comp, aggregates) && Allowed(c, aggregates, op)
    requires i < |ListOf(c, sc, k)| && ListOf(c, sc, k)[i].Some?
    ensures var l' := ListOf(Do(c, comp, aggregates, op), sc, k); i < |l'| && l'[i] == ListOf(c, sc, k)[i]
  {
    match op
    case Claim(s, x) =>
      var n := |ListOf(c, s, x.kind)|;
      PutLists(c, s, n, x, if x.kind == Objects then Some(n) else None, sc, k);
    case Stub(s, n, x) => PutLists(c, s, n, x, Some(n), sc, k);
    case Own(_, _, _) =>
    case Hit(x) =>
      if Do(c, comp, aggregates, op) != c {
        var y := if x.kind == Stables then x else Item(Objects, Target(c, comp, aggregates, x.id).value);
        var n := |ListOf(c, comp, y.kind)|;
        PutLists(c, comp, n, y, Some(n), sc, k);
        AddRecordLists(Put(c, comp, n, y, Some(n)), comp, RepIndex(y.kind, n), MarkOf(c, y).sc);
      }
  }

  /** A row of the repossessions table: STable or object, new slot, former context and index there. */
  datatype RepRow = RepRow(kind: Kind, slot: nat, orig: nat, origIdx: nat)

  /** `serialize_repossessions`, one row. */
  function RowOf(c: Contexts, comp: nat, e: nat): Result<RepRow>
    requires e < |RootsOf(c, comp).repIndexes| == |RootsOf(c, comp).repScs|
  {
    var r, orig := RootsOf(c, comp).repIndexes[e], RootsOf(c, comp).repScs[e];
    var l := ListOf(c, comp, RepKind(r));
    if RepSlot(r) >= |l| || l[RepSlot(r)].None? then Err
    else
      var i := FindIdx(c, orig, Item(RepKind(r), l[RepSlot(r)].value));
      if i.Err? then Err else Ok(RepRow(RepKind(r), RepSlot(r), orig, i.value))
  }

  /** Every record gives a row, and the row leads to the same item from both sides. */
  lemma RowRecovers(c: Contexts, comp: nat, aggregates: set<nat>, e: nat)
    requires Inv(c, comp, aggregates) && e < |RootsOf(c, comp).repIndexes|
    ensures RowOf(c, comp, e).Ok?
    ensures var row := RowOf(c, comp, e).value;
            && row.slot < |ListOf(c, comp, row.kind)| && ListOf(c, comp, row.kind)[row.slot].Some?
            && row.origIdx < |ListOf(c, row.orig, row.kind)|
            && ListOf(c, row.orig, row.kind)[row.origIdx] == ListOf(c, comp, row.kind)[row.slot]
            && row.orig != comp
            && MarkOf(c, Item(row.kind, ListOf(c, comp, row.kind)[row.slot].value)) == Mark(comp, Some(row.slot))
  {
    assert RecordOk(c, comp, e);
    var r, orig := RootsOf(c, comp).repIndexes[e], RootsOf(c, comp).repScs[e];
    var x := Item(RepKind(r), ListOf(c, comp, RepKind(r))[RepSlot(r)].value);
    CachedIsScan(c, comp, aggregates, orig, x);
  }

  /** An item that two contexts list has exactly one record. */
  lemma OneRecord(c: Contexts, comp: nat, aggregates: set<nat>, x: Item, sc: nat)
    requires Inv(c, comp, aggregates) && InList(c, comp, x) && InList(c, sc, x) && sc != comp
    ensures exists e: nat :: IsItsRecord(c, comp, x, e)
    ensures forall e: nat, e': nat :: IsItsRecord(c, comp, x, e) && IsItsRecord(c, comp, x, e') ==> e == e'
  {
    var reps, l := RootsOf(c, comp).repIndexes, ListOf(c, comp, x.kind);
    assert Recorded(c, comp, x);
    var r :| r in reps && Names(c, comp, x, r);
    var e :| 0 <= e < |reps| && reps[e] == r;
    assert IsItsRecord(c, comp, x, e);
    assert Once(l);
    forall e: nat, e': nat | IsItsRecord(c, comp, x, e) && IsItsRecord(c, comp, x, e') ensures e == e' {
      OncePlace(l, RepSlot(reps[e']), RepSlot(reps[e]));
      SameRecord(reps[e'], reps[e]);
    }
  }

  ghost predicate IsItsRecord(c: Contexts, comp: nat, x: Item, e: nat) {
    e < |RootsOf(c, comp).repIndexes| && Names(c, comp, x, RootsOf(c, comp).repIndexes[e])
  }

  lemma SameRecord(a: nat, b: nat)
    requires RepKind(a) == RepKind(b) && RepSlot(a) == RepSlot(b)
    ensures a == b
  {}

  /** Whom an operation takes over, if anyone. */
  function TakenOver(c: Contexts, comp: nat, aggregates: set<nat>, op: Op): Option<Item> {
    if !op.Hit? || MarkOf(c, op.x).sc == 0 || MarkOf(c, op.x).sc == comp then None
    else if op.x.kind == Stables then Some(op.x)
    else
      var t := Target(c, comp, aggregates, op.x.id);
      if t.None? then None else Some(Item(Objects, t.value))
  }

  lemma TakenOverIsListed(c: Contexts, comp: nat, aggregates: set<nat>, op: Op, x: Item)
    requires Inv(c, comp, aggregates) && OwnersAreObjects(c, aggregates)
    requires TakenOver(c, comp, aggregates, op) == Some(x)
    ensures Do(c, comp, aggregates, op) == Repossess(c, comp, x)
    ensures MarkOf(c, x).sc != 0 && MarkOf(c, x).sc != comp && InList(c, MarkOf(c, x).sc, x)
  {
    var sc := MarkOf(c, op.x).sc;
    if op.x.kind == Objects && op.x.id in aggregates && sc in c.owned {
      OwnerIsObject(c.owned[sc], aggregates, op.x.id);
    }
  }

  /** A hit on an item of another context, or on what such an item owns: the item gets the next
      slot, and the record says whence. */
  lemma HitRecords(c: Contexts, comp: nat, aggregates: set<nat>, op: Op, x: Item)
    requires Inv(c, comp, aggregates) && OwnersAreObjects(c, aggregates)
    requires TakenOver(c, comp, aggregates, op) == Some(x)
    ensures var c', n := Do(c, comp, aggregates, op), |ListOf(c, comp, x.kind)|;
            && MarkOf(c', x) == Mark(comp, Some(n))
            && ListOf(c', comp, x.kind) == ListOf(c, comp, x.kind) + [Some(x.id)]
            && HasRow(c', comp, |RootsOf(c, comp).repIndexes|, RowFor(c, comp, x))
  {
    var c', n, orig := Do(c, comp, aggregates, op), |ListOf(c, comp, x.kind)|, MarkOf(c, x).sc;
    var c1 := Put(c, comp, n, x, Some(n));
    TakenOverIsListed(c, comp, aggregates, op, x);
    PutLists(c, comp, n, x, Some(n), comp, x.kind);
    PutLists(c, comp, n, x, Some(n), orig, x.kind);
    PutKeepsRecords(c, comp, n, x, Some(n), comp);
    AddRecordLists(c1, comp, RepIndex(x.kind, n), orig);
    RepIndexParts(x.kind, n);
    CachedIsScan(c, comp, aggregates, orig, x);
    assert Nulls(0) == [];
  }

  /** What a row about an item says when the item is taken over. */
  function RowFor(c: Contexts, comp: nat, x: Item): Result<RepRow> {
    var i := FindIdx(c, MarkOf(c, x).sc, x);
    if i.Err? then Err else Ok(RepRow(x.kind, |ListOf(c, comp, x.kind)|, MarkOf(c, x).sc, i.value))
  }

  ghost predicate HasRow(c: Contexts, comp: nat, e: nat, row: Result<RepRow>) {
    && e < |RootsOf(c, comp).repIndexes| && |RootsOf(c, comp).repScs| == |RootsOf(c, comp).repIndexes|
    && RowOf(c, comp, e) == row && row.Ok?
  }

  // ----- what the records say in the end

  /** Records are only added, one with each item that is taken over. */
  lemma RecordsGrow(c: Contexts, comp: nat, aggregates: set<nat>, op: Op)
    ensures var r, r' := RootsOf(c, comp), RootsOf(Do(c, comp, aggregates, op), comp);
            && r.repIndexes <= r'.repIndexes && r.repScs <= r'.repScs
            && |r'.repIndexes| == |r.repIndexes| + if TakenOver(c, comp, aggregates, op).Some? then 1 else 0
  {
    var x := TakenOver(c, comp, aggregates, op);
    if x.Some? {
      var n := |ListOf(c, comp, x.value.kind)|;
      PutKeepsRecords(c, comp, n, x.value, Some(n), comp);
    }
  }

  /** A search goes on finding what it found. */
  lemma ScanStays(l: seq<Option<nat>>, l': seq<Option<nat>>, id: nat)
    requires Once(l') && Scan(l, id).Ok?
    requires Scan(l, id).value < |l'| && l'[Scan(l, id).value] == Some(id)
    ensures Scan(l', id) == Scan(l, id)
  {
    var i := Scan(l, id).value;
    assert l'[i] in l';
    OncePlace(l', i, Scan(l', id).value);
  }

  /** No operation changes what a record says. */
  lemma RowStays(c: Contexts, comp: nat, aggregates: set<nat>, op: Op, e: nat)
    requires Inv(c, comp, aggregates) && OwnersAreObjects(c, aggregates) && Allowed(c, aggregates, op)
    requires e < |RootsOf(c, comp).repIndexes|
    ensures HasRow(Do(c, comp, aggregates, op), comp, e, RowOf(c, comp, e))
  {
    RowRecovers(c, comp, aggregates, e);
    var c', row := Do(c, comp, aggregates, op), RowOf(c, comp, e);
    var kind, slot, orig := row.value.kind, row.value.slot, row.value.orig;
    var x := Item(kind, ListOf(c, comp, kind)[slot].value);
    RecordsGrow(c, comp, aggregates, op);
    DoInv(c, comp, aggregates, op);
    assert RecordOk(c, comp, e);
    CachedIsScan(c, comp, aggregates, orig, x);
    CachedIsScan(c', comp, aggregates, orig, x);
    EntriesStay(c, comp, aggregates, op, comp, kind, slot);
    EntriesStay(c, comp, aggregates, op, orig, kind, row.value.origIdx);
    assert Once(ListOf(c', orig, kind));
    ScanStays(ListOf(c, orig, kind), ListOf(c', orig, kind), x.id);
  }

  /** After any run, the row about an item that was taken over at step k names its kind, the slot
      it got then, the context it was in then and its index there. */
  lemma {:induction false} RunRecords(comp: nat, aggregates: set<nat>, ops: seq<Op>, k: nat, x: Item)
    requires comp != 0 && AllAllowed(comp, aggregates, ops) && k < |ops|
    requires TakenOver(Run(comp, aggregates, ops[..k]), comp, aggregates, ops[k]) == Some(x)
    ensures var c0 := Run(comp, aggregates, ops[..k]);
            HasRow(Run(comp, aggregates, ops), comp, |RootsOf(c0, comp).repIndexes|, RowFor(c0, comp, x))
    decreases |ops|
  {
    var before, c0 := ops[..|ops| - 1], Run(comp, aggregates, ops[..k]);
    RunInv(comp, aggregates, before);
    if k == |before| {
      HitRecords(c0, comp, aggregates, ops[k], x);
    } else {
      assert before[..k] == ops[..k];
      RunRecords(comp, aggregates, before, k, x);
      RowStays(Run(comp, aggregates, before), comp, aggregates, ops[|ops| - 1], |RootsOf(c0, comp).repIndexes|);
    }
  }

  /** Step k takes over an item, and gives it record e. */
  ghost predicate Adds(comp: nat, aggregates: set<nat>, before: seq<Op>, op: Op, e: nat, x: Item) {
    var c0 := Run(comp, aggregates, before);
    TakenOver(c0, comp, aggregates, op) == Some(x) && |RootsOf(c0, comp).repIndexes| == e
  }

  lemma {:induction false} WhenAdded(comp: nat, aggregates: set<nat>, ops: seq<Op>, e: nat) returns (k: nat, x: Item)
    requires e < |RootsOf(Run(comp, aggregates, ops), comp).repIndexes|
    ensures k < |ops| && Adds(comp, aggregates, ops[..k], ops[k], e, x)
    decreases |ops|
  {
    var before := ops[..|ops| - 1];
    var c := Run(comp, aggregates, before);
    RecordsGrow(c, comp, aggregates, ops[|ops| - 1]);
    if e < |RootsOf(c, comp).repIndexes| {
      k, x := WhenAdded(comp, aggregates, before, e);
      assert before[..k] == ops[..k] && before[k] == ops[k];
    } else {
      k, x := |before|, TakenOver(c, comp, aggregates, ops[|ops| - 1]).value;
    }
  }

  /** And there is no other row: each one was added when some item was taken over. */
  lemma EveryRecord(comp: nat, aggregates: set<nat>, ops: seq<Op>, e: nat) returns (k: nat, x: Item)
    requires comp != 0 && AllAllowed(comp, aggregates, ops)
    requires e < |RootsOf(Run(comp, aggregates, ops), comp).repIndexes|
    ensures k < |ops| && Adds(comp, aggregates, ops[..k], ops[k], e, x)
    ensures HasRow(Run(comp, aggregates, ops), comp, e, RowFor(Run(comp, aggregates, ops[..k]), comp, x))
  {
    k, x := WhenAdded(comp, aggregates, ops, e);
    RunRecords(comp, aggregates, ops, k, x);
  }
}
