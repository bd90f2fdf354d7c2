/** When serializing does not throw (src/6model/serialization.c), told from what there is before it
    begins. */
module Throwing {
  import opened Wrappers
  import opened Packing
  import opened Strings
  import opened Tables
  import opened Values
  import opened Ownership
  import opened Parts
  import opened Serialize
  import opened SerializeRuns
  import opened Writability

  /** The item is there, and what is to be written of it can be. */
  ghost predicate Serializable(env: World, g: Graph, w: Writer, r: Ref) {
    match r.kind
    case Objects => r.id in g.objects && (g.objects[r.id].concrete ==> PartsWritable(env, w, g.objects[r.id].body))
    case Stables => r.id in g.stables && PartsWritable(env, w, g.stables[r.id].body)
                    && PartsWritable(env, w, g.stables[r.id].reprData)
    case Frames => r.id in g.frames && OfInterest(env, w.own.Keys, r.id) && FrameWritable(env, w, g.frames[r.id])
    case Codes => true
  }

  ghost predicate FrameWritable(env: World, w: Writer, node: FrameNode) {
    |node.lexicals| < LIMIT && OuterOk(w, node.outer) && PartsWritable(env, w, NamesAndValues(node.lexicals))
  }

  /** By how much the tables may grow with it. */
  function ItemWeight(env: World, g: Graph, r: Ref): nat {
    match r.kind
    case Objects => if r.id in g.objects then 3 + PartsWeight(env, g.objects[r.id].body) else 0
    case Stables => if r.id in g.stables then 1 + StableWeight(env, g.stables[r.id]) else 0
    case Frames => if r.id in g.frames then 3 + PartsWeight(env, NamesAndValues(g.frames[r.id].lexicals)) else 0
    case Codes => 0
  }

  function StableWeight(env: World, node: StableNode): nat {
    PartsWeight(env, node.body) + PartsWeight(env, node.reprData)
  }

  /** What every step is told. */
  ghost predicate Given(env: World, w: Writer) {
    Encodes31(env.codes) && Enumerates(env.iter) && WriterOk(env.foreign, w)
  }

  /** A step throws or not, and if not it leaves room for `n` more. */
  ghost predicate StepDecided(r: Result<Work>, ok: bool, n: nat) {
    (r.Ok? <==> ok) && (r.Ok? ==> Room(r.value.w, n))
  }

  // ----- one step

  lemma StableDataDecided(env: World, w: Writer, node: StableNode, n: nat)
    requires Given(env, w) && Room(w, StableWeight(env, node) + n)
    ensures var ok := PartsWritable(env, w, node.body) && PartsWritable(env, w, node.reprData);
            Decided(StableData(env, w, node), ok, n)
  {
    PartsDecided(env, w, node.body, PartsWeight(env, node.reprData) + n);
    var r := WriteParts(env, w, node.body);
    if r.Written? {
      AfterParts(env, w, node.body);
      PartsDecided(env, r.w, node.reprData, n);
      PartsSame(env, w, r.w, node.reprData);
    }
  }

  lemma StringSameConditions(env: World, w: Writer, s: MString)
    ensures SameConditions(env, w, AddString(w, s).0)
  {
    PulledByString(env, w, s);
    PulledSame(env, w, AddString(w, s).0);
  }

  lemma StableDecided(env: World, g: Graph, s: Work, x: nat, n: nat)
    requires Given(env, s.w) && Room(s.w, ItemWeight(env, g, Ref(Stables, x)) + n)
    ensures StepDecided(SerializeStable(env, g, s, x), Serializable(env, g, s.w, Ref(Stables, x)), n)
  {
    if x in g.stables {
      var node := g.stables[x];
      var w1 := AddString(s.w, Some(node.repr)).0;
      StringRoom(env.foreign, s.w, Some(node.repr), StableWeight(env, node) + n);
      AddStringOk(env.foreign, s.w, Some(node.repr));
      StringSameConditions(env, s.w, Some(node.repr));
      StableDataDecided(env, w1, node, n);
      PartsSame(env, s.w, w1, node.body);
      PartsSame(env, s.w, w1, node.reprData);
    }
  }

  lemma StableRefRoom(env: World, w: Writer, x: nat, n: nat)
    requires Given(env, w) && Room(w, n + 3)
    ensures var (w', place) := StableRef(w, x);
            && place.id < LIMIT && place.idx < LIMIT && Room(w', n)
            && WriterOk(env.foreign, w') && SameConditions(env, w, w')
  {
    var r := Ref(Stables, x);
    ClaimRoom(w, r, n + 2);
    ClaimOk(env.foreign, w, r);
    PlaceRoom(env.foreign, Claim(w, r), r, n);
    StableRefStepped(env, w, x);
    PulledSame(env, w, StableRef(w, x).0);
  }

  lemma ObjectDecided(env: World, g: Graph, s: Work, x: nat, n: nat)
    requires Given(env, s.w) && Room(s.w, ItemWeight(env, g, Ref(Objects, x)) + n)
    ensures StepDecided(SerializeObject(env, g, s, x), Serializable(env, g, s.w, Ref(Objects, x)), n)
  {
    if x in g.objects {
      var node := g.objects[x];
      var w1 := StableRef(s.w, node.stable).0;
      StableRefRoom(env, s.w, node.stable, PartsWeight(env, node.body) + n);
      PartsDecided(env, w1, node.body, n);
      PartsSame(env, s.w, w1, node.body);
      RoomLess(w1, PartsWeight(env, node.body) + n, n);
    }
  }

  lemma LexicalsDecided(env: World, w: Writer, lexicals: seq<Lexical>, n: nat)
    requires Given(env, w) && |lexicals| < LIMIT && Room(w, PartsWeight(env, NamesAndValues(lexicals)) + n)
    ensures Decided(WriteParts(env, w, LexicalParts(lexicals)), PartsWritable(env, w, NamesAndValues(lexicals)), n)
  {
    var ps := LexicalParts(lexicals);
    assert ps[0] == RawInt(|lexicals|) && ps[1..] == NamesAndValues(lexicals);
    PartsDecided(env, w, ps, n);
    PartsStep(env, w, ps);
  }

  lemma OuterSameConditions(env: World, w: Writer, outer: Option<nat>)
    requires OuterIdx(env, w, outer).Ok?
    ensures SameConditions(env, w, OuterIdx(env, w, outer).value.0)
  {
    PulledByContext(env, w, outer);
    PulledSame(env, w, OuterIdx(env, w, outer).value.0);
  }

  lemma FrameDecided(env: World, w: Writer, node: FrameNode, n: nat)
    requires Given(env, w) && |node.lexicals| < LIMIT
    requires Room(w, 1 + PartsWeight(env, NamesAndValues(node.lexicals)) + n)
    ensures OuterIdx(env, w, node.outer).Ok? <==> OuterOk(w, node.outer)
    ensures OuterIdx(env, w, node.outer).Ok? ==>
              Decided(WriteParts(env, OuterIdx(env, w, node.outer).value.0, LexicalParts(node.lexicals)),
                      PartsWritable(env, w, NamesAndValues(node.lexicals)), n)
  {
    OuterRoom(env, w, node.outer, PartsWeight(env, NamesAndValues(node.lexicals)) + n);
    var ctx := OuterIdx(env, w, node.outer);
    if ctx.Ok? {
      OuterIdxKept(env, w, node.outer);
      OuterSameConditions(env, w, node.outer);
      LexicalsDecided(env, ctx.value.0, node.lexicals, n);
      PartsSame(env, w, ctx.value.0, NamesAndValues(node.lexicals));
    }
  }

  lemma ContextPlace(env: World, w: Writer, r: Ref, n: nat)
    requires Given(env, w) && Room(w, n + 2) && r in w.own
    ensures var w' := PlaceOf(w, r).0; Room(w', n) && Given(env, w') && SameConditions(env, w, w')
  {
    PlaceRoom(env.foreign, w, r, n);
    PlaceOfOk(env.foreign, w, r);
    SteppedByPlace(env, w, r);
    PulledSame(env, w, PlaceOf(w, r).0);
  }

  lemma ContextDecided(env: World, g: Graph, s: Work, x: nat, n: nat)
    requires Given(env, s.w) && Room(s.w, ItemWeight(env, g, Ref(Frames, x)) + n)
    ensures StepDecided(SerializeContext(env, g, s, x), Serializable(env, g, s.w, Ref(Frames, x)), n)
  {
    if x in g.frames && OfInterest(env, s.w.own.Keys, x) && |g.frames[x].lexicals| < LIMIT {
      var node, r := g.frames[x], Ref(Codes, env.frames[x].value);
      var w1 := PlaceOf(s.w, r).0;
      ContextPlace(env, s.w, r, 1 + PartsWeight(env, NamesAndValues(node.lexicals)) + n);
      FrameDecided(env, w1, node, n);
      PartsSame(env, s.w, w1, NamesAndValues(node.lexicals));
      assert OuterOk(w1, node.outer) <==> OuterOk(s.w, node.outer);
    }
  }

  /** Given room, the next row is written exactly if the item is there and can be written. */
  lemma NextDecided(env: World, g: Graph, s: Work, k: Kind, n: nat)
    requires Given(env, s.w) && k != Codes && RowCount(s, k) < |List(s.w.tabs, k)|
    requires Room(s.w, ItemWeight(env, g, Ref(k, List(s.w.tabs, k)[RowCount(s, k)])) + n)
    ensures StepDecided(NextRow(env, g, s, k), Serializable(env, g, s.w, Ref(k, List(s.w.tabs, k)[RowCount(s, k)])), n)
  {
    match k
    case Stables => StableDecided(env, g, s, s.w.tabs.stables[|s.stableRows|], n);
    case Objects => ObjectDecided(env, g, s, s.w.tabs.objects[|s.objectRows|], n);
    case Frames => ContextDecided(env, g, s, s.w.tabs.frames[|s.contextRows|], n);
    case Codes => assert false;
  }

  // ----- runs

  lemma SerializableSame(env: World, g: Graph, w: Writer, w': Writer, r: Ref)
    requires SameConditions(env, w, w')
    ensures Serializable(env, g, w', r) <==> Serializable(env, g, w, r)
  {
    match r.kind
    case Objects => if r.id in g.objects { PartsSame(env, w, w', g.objects[r.id].body); }
    case Stables =>
      if r.id in g.stables {
        PartsSame(env, w, w', g.stables[r.id].body);
        PartsSame(env, w, w', g.stables[r.id].reprData);
      }
    case Frames =>
      if r.id in g.frames {
        PartsSame(env, w, w', NamesAndValues(g.frames[r.id].lexicals));
        assert OuterOk(w', g.frames[r.id].outer) <==> OuterOk(w, g.frames[r.id].outer);
      }
    case Codes =>
  }

  /** The next entry of a list. */
  function NextItem(s: Work, k: Kind): Ref
    requires RowCount(s, k) < |List(s.w.tabs, k)|
  {
    Ref(k, List(s.w.tabs, k)[RowCount(s, k)])
  }

  /** In every run, whether an item can be serialized is settled at the beginning. */
  lemma SettledAtFirst(env: World, g: Graph, w0: Writer, s: Work, r: Ref)
    requires Inv(env, g, w0, s)
    ensures Serializable(env, g, s.w, r) <==> Serializable(env, g, w0, r)
  {
    PulledSame(env, w0, s.w);
    SerializableSame(env, g, w0, s.w, r);
  }

  // ----- room for all

  /** The items that serializing may come to. */
  function Reach(w0: Writer, all: set<Ref>): set<Ref> {
    all + (set x | x in w0.tabs.objects :: Ref(Objects, x)) + (set x | x in w0.tabs.stables :: Ref(Stables, x))
    + (set x | x in w0.tabs.frames :: Ref(Frames, x))
  }

  ghost function Budget(env: World, g: Graph, items: set<Ref>): nat {
    if items == {} then 0
    else
      var r :| r in items;
      ItemWeight(env, g, r) + Budget(env, g, items - {r})
  }

  lemma {:induction false} BudgetWithout(env: World, g: Graph, items: set<Ref>, r: Ref)
    requires r in items
    ensures Budget(env, g, items) == ItemWeight(env, g, r) + Budget(env, g, items - {r})
    decreases |items|
  {
    var x :| x in items && Budget(env, g, items) == ItemWeight(env, g, x) + Budget(env, g, items - {x});
    if x != r {
      BudgetWithout(env, g, items - {x}, r);
      BudgetWithout(env, g, items - {r}, x);
      assert items - {x} - {r} == items - {r} - {x};
    }
  }

  /** The entry has its row. */
  ghost predicate HasRow(s: Work, r: Ref) {
    r.kind != Codes && exists i :: 0 <= i < RowCount(s, r.kind) <= |List(s.w.tabs, r.kind)|
                                   && List(s.w.tabs, r.kind)[i] == r.id
  }

  ghost function Todo(s: Work, items: set<Ref>): set<Ref> {
    set r | r in items && !HasRow(s, r)
  }

  lemma RowsWithin(env: World, g: Graph, w0: Writer, s: Work, k: Kind)
    requires Inv(env, g, w0, s)
    ensures RowCount(s, k) <= |List(s.w.tabs, k)|
  {}

  /** The next entry is among them and has no row yet. */
  lemma NextIsTodo(env: World, g: Graph, all: set<Ref>, w0: Writer, s: Work, k: Kind)
    requires Inv(env, g, w0, s) && ClosedFrom(env, g, w0, all)
    requires k != Codes && RowCount(s, k) < |List(s.w.tabs, k)|
    ensures NextItem(s, k) in Todo(s, Reach(w0, all))
  {
    var n, r := RowCount(s, k), NextItem(s, k);
    RootOrNew(env.foreign, w0, s.w, k, n);
    assert Listed(s.w.tabs, s.w.own, k, n);
    assert s.w.own.Keys <= w0.own.Keys + all;
    forall i: nat | i < n ensures List(s.w.tabs, k)[i] != r.id { EntryOnce(s.w.tabs, s.w.own, k, i, n); }
  }

  lemma EntryOnce(t: Tables, own: map<Ref, Loc>, k: Kind, i: nat, j: nat)
    requires Listing(t, own) && i < j < |List(t, k)|
    ensures List(t, k)[i] != List(t, k)[j]
  {
    assert Listed(t, own, k, i) && Listed(t, own, k, j);
  }

  /** No list has lost rows, and one has a row more. */
  ghost predicate MoreRows(s: Work, k: Kind, s': Work) {
    && (forall k': Kind :: RowCount(s, k') <= RowCount(s', k') <= |List(s'.w.tabs, k')|)
    && RowCount(s, k) < RowCount(s', k)
  }

  lemma RowAdded(env: World, g: Graph, s: Work, k: Kind, s': Work)
    requires Step(env, g, s, k, s')
    ensures k != Codes && RowCount(s, k) < RowCount(s', k)
    ensures |s.stableRows| <= |s'.stableRows| && |s.objectRows| <= |s'.objectRows|
    ensures |s.contextRows| <= |s'.contextRows|
  {
    match k
    case Stables =>
    case Objects =>
    case Frames =>
    case Codes =>
  }

  lemma AllWithin(env: World, g: Graph, w0: Writer, s: Work)
    requires Inv(env, g, w0, s)
    ensures forall k: Kind :: RowCount(s, k) <= |List(s.w.tabs, k)|
  {
    forall k: Kind ensures RowCount(s, k) <= |List(s.w.tabs, k)| { RowsWithin(env, g, w0, s, k); }
  }

  lemma StepMoreRows(env: World, g: Graph, s: Work, k: Kind, s': Work)
    requires Step(env, g, s, k, s') && Extends(s.w, s'.w)
    requires forall k': Kind :: RowCount(s', k') <= |List(s'.w.tabs, k')|
    ensures k != Codes && MoreRows(s, k, s')
  {
    RowAdded(env, g, s, k, s');
    CountsGrow(s, s');
  }

  lemma CountsGrow(s: Work, s': Work)
    requires |s.stableRows| <= |s'.stableRows| && |s.objectRows| <= |s'.objectRows|
    requires |s.contextRows| <= |s'.contextRows| && Extends(s.w, s'.w)
    ensures forall k: Kind :: RowCount(s, k) <= RowCount(s', k)
  {}

  lemma TodoShrinks(s: Work, k: Kind, s': Work, items: set<Ref>)
    requires Extends(s.w, s'.w) && k != Codes && RowCount(s, k) < |List(s.w.tabs, k)| && MoreRows(s, k, s')
    ensures Todo(s', items) <= Todo(s, items) - {NextItem(s, k)}
  {
    NextGetsRow(s, k, s');
    forall r | r in items && HasRow(s, r) ensures HasRow(s', r) { KeepsRow(s, s', r); }
  }

  lemma KeepsRow(s: Work, s': Work, r: Ref)
    requires HasRow(s, r) && Extends(s.w, s'.w)
    requires RowCount(s, r.kind) <= RowCount(s', r.kind) <= |List(s'.w.tabs, r.kind)|
    ensures HasRow(s', r)
  {
    ListExtends(s.w.tabs, s'.w.tabs, r.kind);
    var i :| 0 <= i < RowCount(s, r.kind) <= |List(s.w.tabs, r.kind)| && List(s.w.tabs, r.kind)[i] == r.id;
    assert List(s'.w.tabs, r.kind)[i] == r.id;
  }

  lemma NextGetsRow(s: Work, k: Kind, s': Work)
    requires k != Codes && RowCount(s, k) < |List(s.w.tabs, k)| && Extends(s.w, s'.w)
    requires RowCount(s, k) < RowCount(s', k) <= |List(s'.w.tabs, k)|
    ensures HasRow(s', NextItem(s, k))
  {
    ListExtends(s.w.tabs, s'.w.tabs, k);
    assert List(s'.w.tabs, k)[RowCount(s, k)] == NextItem(s, k).id;
  }

  lemma {:induction false} BudgetLess(env: World, g: Graph, a: set<Ref>, b: set<Ref>)
    requires a <= b
    ensures Budget(env, g, a) <= Budget(env, g, b)
    decreases |b|
  {
    if a != b {
      var r :| r in b && r !in a;
      BudgetWithout(env, g, b, r);
      BudgetLess(env, g, a, b - {r});
    }
  }

  /** There is room for all that is left to do. */
  ghost predicate HasRoom(env: World, g: Graph, s: Work, items: set<Ref>) {
    Room(s.w, Budget(env, g, Todo(s, items)))
  }

  lemma StepLeavesRoom(env: World, g: Graph, all: set<Ref>, w0: Writer, s: Work, k: Kind, s': Work)
    requires Encodes31(env.codes) && Inv(env, g, w0, s) && ClosedFrom(env, g, w0, all) && Step(env, g, s, k, s')
    requires HasRoom(env, g, s, Reach(w0, all))
    ensures HasRoom(env, g, s', Reach(w0, all))
  {
    StepAdvances(env, g, w0, s, k, s');
    var items, r := Reach(w0, all), NextItem(s, k);
    NextIsTodo(env, g, all, w0, s, k);
    BudgetWithout(env, g, Todo(s, items), r);
    NextDecided(env, g, s, k, Budget(env, g, Todo(s, items) - {r}));
    AllWithin(env, g, w0, s');
    StepMoreRows(env, g, s, k, s');
    TodoShrinks(s, k, s', items);
    BudgetLess(env, g, Todo(s', items), Todo(s, items) - {r});
    RoomLess(s'.w, Budget(env, g, Todo(s, items) - {r}), Budget(env, g, Todo(s', items)));
  }

  /** What is to be given before serializing begins, that the tables do not outgrow 31 bits. */
  ghost predicate RoomForAll(env: World, g: Graph, all: set<Ref>, w0: Writer) {
    Encodes31(env.codes) && Room(w0, Budget(env, g, Reach(w0, all)))
  }

  lemma {:induction false} RunHasRoom(env: World, g: Graph, all: set<Ref>, w0: Writer, run: seq<Work>)
    requires Ready(env, g, all, w0) && RoomForAll(env, g, all, w0) && IsRun(env, g, w0, run)
    ensures HasRoom(env, g, Last(run), Reach(w0, all))
    decreases |run|
  {
    var items := Reach(w0, all);
    if |run| == 1 {
      BudgetLess(env, g, Todo(run[0], items), items);
      RoomLess(w0, Budget(env, g, items), Budget(env, g, Todo(run[0], items)));
    } else {
      var n := |run| - 2;
      RunBefore(env, g, w0, run);
      RunHasRoom(env, g, all, w0, run[..n + 1]);
      RunInv(env, g, all, w0, run[..n + 1]);
      assert StepAt(env, g, run, n);
      var k :| Step(env, g, run[n], k, run[n + 1]);
      StepLeavesRoom(env, g, all, w0, run[n], k, run[n + 1]);
    }
  }

  /** Given that, a run throws at an item exactly if the item is not there, or cannot be written as
      things are before serializing begins. */
  lemma ThrowsIff(env: World, g: Graph, all: set<Ref>, w0: Writer, run: seq<Work>, k: Kind)
    requires Ready(env, g, all, w0) && RoomForAll(env, g, all, w0) && IsRun(env, g, w0, run)
    requires k != Codes && RowCount(Last(run), k) < |List(Last(run).w.tabs, k)|
    ensures Throws(env, g, Last(run), k) <==> !Serializable(env, g, w0, NextItem(Last(run), k))
  {
    var s, items := Last(run), Reach(w0, all);
    RunInv(env, g, all, w0, run);
    RunHasRoom(env, g, all, w0, run);
    NextIsTodo(env, g, all, w0, s, k);
    BudgetWithout(env, g, Todo(s, items), NextItem(s, k));
    NextDecided(env, g, s, k, Budget(env, g, Todo(s, items) - {NextItem(s, k)}));
    SettledAtFirst(env, g, w0, s, NextItem(s, k));
  }

  /** So serializing does not throw at all, if all items that it may come to can be serialized. */
  lemma NeverThrows(env: World, g: Graph, all: set<Ref>, w0: Writer, run: seq<Work>, k: Kind)
    requires Ready(env, g, all, w0) && RoomForAll(env, g, all, w0) && IsRun(env, g, w0, run)
    requires forall r | r in Reach(w0, all) :: Serializable(env, g, w0, r)
    ensures !Throws(env, g, Last(run), k)
  {
    var s := Last(run);
    if k != Codes && RowCount(s, k) < |List(s.w.tabs, k)| {
      ThrowsIff(env, g, all, w0, run, k);
      RunInv(env, g, all, w0, run);
      NextIsTodo(env, g, all, w0, s, k);
    }
  }
}
