/** What holds throughout serializing, and what that comes to at the end. */
module SerializeRuns {
  import opened Wrappers
  import opened Bytes
  import opened Strings
  import opened Tables
  import opened Places
  import opened Values
  import opened Ownership
  import opened Closures
  import opened Serialize

  // ----- rows so far

  ghost predicate StableRowsOk(env: World, g: Graph, w: Writer, rows: seq<StableRow>, data: seq<Byte>) {
    && |rows| <= |w.tabs.stables|
    && forall i | 0 <= i < |rows| :: StableRowOk(env, g, w, rows[i], data, w.tabs.stables[i])
  }

  ghost predicate StableRowOk(env: World, g: Graph, w: Writer, row: StableRow, data: seq<Byte>, x: nat) {
    x in g.stables && StableLasts(env, w, row, data, g.stables[x])
  }

  ghost predicate ObjectRowsOk(env: World, g: Graph, w: Writer, rows: seq<ObjectRow>, data: seq<Byte>) {
    && |rows| <= |w.tabs.objects|
    && forall i | 0 <= i < |rows| :: ObjectRowOk(env, g, w, rows[i], data, w.tabs.objects[i])
  }

  ghost predicate ObjectRowOk(env: World, g: Graph, w: Writer, row: ObjectRow, data: seq<Byte>, x: nat) {
    x in g.objects && ObjectLasts(env, w, row, data, g.objects[x])
  }

  ghost predicate ContextRowsOk(env: World, g: Graph, w: Writer, rows: seq<ContextRow>, data: seq<Byte>) {
    && |rows| <= |w.tabs.frames|
    && forall i | 0 <= i < |rows| :: ContextRowOk(env, g, w, rows[i], data, w.tabs.frames[i])
  }

  ghost predicate ContextRowOk(env: World, g: Graph, w: Writer, row: ContextRow, data: seq<Byte>, x: nat) {
    && x in g.frames && x in env.frames && env.frames[x].Some?
    && ContextLasts(env, w, row, data, env.frames[x].value, g.frames[x])
  }

  lemma StableRowsLast(
    env: World, g: Graph, w: Writer, w': Writer, rows: seq<StableRow>, data: seq<Byte>, e: seq<Byte>)
    requires StableRowsOk(env, g, w, rows, data) && Grows(env, w, w')
    ensures StableRowsOk(env, g, w', rows, data + e)
  {
    forall i | 0 <= i < |rows| ensures StableRowOk(env, g, w', rows[i], data + e, w'.tabs.stables[i]) {
      assert StableRowOk(env, g, w, rows[i], data, w.tabs.stables[i]);
      forall later: Writer, data': seq<Byte> | Later(env, w', data + e, later, data')
        ensures StableReads(env, later.tabs, rows[i], data', g.stables[w.tabs.stables[i]])
      {
        LaterTransitive(env, w, data, w', e, later, data');
      }
    }
  }

  lemma ObjectRowsLast(
    env: World, g: Graph, w: Writer, w': Writer, rows: seq<ObjectRow>, data: seq<Byte>, e: seq<Byte>)
    requires ObjectRowsOk(env, g, w, rows, data) && Grows(env, w, w')
    ensures ObjectRowsOk(env, g, w', rows, data + e)
  {
    forall i | 0 <= i < |rows| ensures ObjectRowOk(env, g, w', rows[i], data + e, w'.tabs.objects[i]) {
      assert ObjectRowOk(env, g, w, rows[i], data, w.tabs.objects[i]);
      forall later: Writer, data': seq<Byte> | Later(env, w', data + e, later, data')
        ensures ObjectReads(env, later.tabs, rows[i], data', g.objects[w.tabs.objects[i]])
      {
        LaterTransitive(env, w, data, w', e, later, data');
      }
    }
  }

  lemma ContextRowsLast(
    env: World, g: Graph, w: Writer, w': Writer, rows: seq<ContextRow>, data: seq<Byte>, e: seq<Byte>)
    requires ContextRowsOk(env, g, w, rows, data) && Grows(env, w, w')
    ensures ContextRowsOk(env, g, w', rows, data + e)
  {
    forall i | 0 <= i < |rows| ensures ContextRowOk(env, g, w', rows[i], data + e, w'.tabs.frames[i]) {
      assert ContextRowOk(env, g, w, rows[i], data, w.tabs.frames[i]);
      var x := w.tabs.frames[i];
      forall later: Writer, data': seq<Byte> | Later(env, w', data + e, later, data')
        ensures ContextReads(env, later, rows[i], data', env.frames[x].value, g.frames[x])
      {
        LaterTransitive(env, w, data, w', e, later, data');
      }
    }
  }

  lemma LaterTransitive(
    env: World, w: Writer, data: seq<Byte>, w': Writer, e: seq<Byte>, later: Writer, data': seq<Byte>)
    requires Grows(env, w, w') && Later(env, w', data + e, later, data')
    ensures Later(env, w, data, later, data')
  {
    GrowsTransitive(env, w, w', later);
    PrefixOfLater(data, e, data');
  }

  // ----- who belongs to the context

  /** What the items at the front of a list refer to has a context. */
  ghost predicate Done(env: World, g: Graph, w: Writer, k: Kind, n: nat) {
    && n <= |List(w.tabs, k)|
    && forall i | 0 <= i < n :: SuccessorsIn(env, g, w.own, Ref(k, List(w.tabs, k)[i]))
  }

  ghost predicate SuccessorsIn(env: World, g: Graph, own: map<Ref, Loc>, r: Ref) {
    Successors(env, g, own.Keys, r) <= own.Keys
  }

  /** An item that is to be serialized from the beginning. */
  predicate IsRoot(w0: Writer, r: Ref) {
    r.kind != Codes && r.id in List(w0.tabs, r.kind)
  }

  /** With the roots, `s` has all that is referred to and has no context at first. */
  ghost predicate ClosedFrom(env: World, g: Graph, w0: Writer, s: set<Ref>) {
    forall r: Ref {:trigger SuccessorsWithin(env, g, w0, s, r)} ::
      r in s || IsRoot(w0, r) ==> SuccessorsWithin(env, g, w0, s, r)
  }

  ghost predicate SuccessorsWithin(env: World, g: Graph, w0: Writer, s: set<Ref>, r: Ref) {
    Successors(env, g, w0.own.Keys, r) <= s + w0.own.Keys
  }

  /** Nothing is taken in that is not in every such set. */
  ghost predicate Within(env: World, g: Graph, w0: Writer, own: map<Ref, Loc>) {
    forall s: set<Ref> :: ClosedFrom(env, g, w0, s) ==> own.Keys <= w0.own.Keys + s
  }

  ghost predicate WriterInv(env: World, g: Graph, w0: Writer, w: Writer) {
    && WriterOk(env.foreign, w0) && WriterOk(env.foreign, w) && Extends(w0, w)
    && Listing(w.tabs, w.own) && CodesDone(env, w0.own, w.own) && NewIsHere(w0, w)
    && StaticsAgree(env, w0.own.Keys, w.own.Keys) && NewCodesOk(env, w0, w)
    && Within(env, g, w0, w.own)
    && ClosuresOk(env, |w0.tabs.codes|, w)
  }

  /** An item on a list is a root, or had no context at first. */
  lemma RootOrNew(f: Foreign, w0: Writer, w: Writer, k: Kind, i: nat)
    requires OwnOk(f, w0.tabs, w0.own) && Extends(w0, w) && Listing(w.tabs, w.own)
    requires i < |List(w.tabs, k)|
    ensures var r := Ref(k, List(w.tabs, k)[i]); r.id in List(w0.tabs, k) || r !in w0.own
    ensures i >= |List(w0.tabs, k)| ==> Ref(k, List(w.tabs, k)[i]) !in w0.own
  {
    var r := Ref(k, List(w.tabs, k)[i]);
    assert Listed(w.tabs, w.own, k, i);
    ListExtends(w0.tabs, w.tabs, k);
    if r in w0.own { assert Lookup(f, w0.tabs, k, w0.own[r]) == Ok(r.id); }
  }

  lemma WithinStep(env: World, g: Graph, w0: Writer, w: Writer, w': Writer, k: Kind, i: nat)
    requires WriterInv(env, g, w0, w) && k != Codes && i < |List(w.tabs, k)|
    requires Pulled(env, w, w', Successors(env, g, w.own.Keys, Ref(k, List(w.tabs, k)[i])))
    ensures Within(env, g, w0, w'.own)
  {
    var r := Ref(k, List(w.tabs, k)[i]);
    RootOrNew(env.foreign, w0, w, k, i);
    assert Listed(w.tabs, w.own, k, i);
    forall s: set<Ref> | ClosedFrom(env, g, w0, s) ensures w'.own.Keys <= w0.own.Keys + s {
      assert w.own.Keys <= w0.own.Keys + s;
      assert SuccessorsWithin(env, g, w0, s, r);
      ClosedForCodes(env, g, w0, s);
      SameSuccessors(env, g, w0.own.Keys, w.own.Keys, r);
      assert Confines(env, w.own, w0.own.Keys, s, Successors(env, g, w.own.Keys, r));
    }
  }

  lemma ClosedForCodes(env: World, g: Graph, w0: Writer, s: set<Ref>)
    requires ClosedFrom(env, g, w0, s)
    ensures CodesClosed(env, w0.own.Keys, s)
  {
    forall c: nat | Ref(Codes, c) in s ensures ClosureRefs(env, w0.own.Keys, c) <= s + w0.own.Keys {
      assert SuccessorsWithin(env, g, w0, s, Ref(Codes, c));
    }
  }

  /** A step on a list entry keeps the writer's part of the invariant. */
  lemma WriterStep(env: World, g: Graph, w0: Writer, w: Writer, w': Writer, k: Kind, i: nat)
    requires WriterInv(env, g, w0, w) && k != Codes && i < |List(w.tabs, k)|
    requires Stepped(env, w, w', Successors(env, g, w.own.Keys, Ref(k, List(w.tabs, k)[i])))
    ensures WriterInv(env, g, w0, w')
  {
    WithinStep(env, g, w0, w, w', k, i);
    ExtendsTransitive(w0, w, w');
    CodesDoneCompose(env, w0.own, w.own, w'.own);
    NewIsHereCompose(w0, w, w');
    NewCodesOkCompose(env, w0, w, w');
  }

  lemma DoneStays(env: World, g: Graph, w: Writer, w': Writer, k: Kind, n: nat)
    requires Done(env, g, w, k, n) && Grows(env, w, w')
    ensures Done(env, g, w', k, n)
  {
    ListExtends(w.tabs, w'.tabs, k);
    forall i | 0 <= i < n ensures SuccessorsIn(env, g, w'.own, Ref(k, List(w'.tabs, k)[i])) {
      assert SuccessorsIn(env, g, w.own, Ref(k, List(w.tabs, k)[i]));
      SameSuccessors(env, g, w.own.Keys, w'.own.Keys, Ref(k, List(w.tabs, k)[i]));
    }
  }

  lemma DoneStep(env: World, g: Graph, w: Writer, w': Writer, k: Kind, n: nat)
    requires Done(env, g, w, k, n) && n < |List(w.tabs, k)| && Grows(env, w, w')
    requires Successors(env, g, w.own.Keys, Ref(k, List(w.tabs, k)[n])) <= w'.own.Keys
    ensures Done(env, g, w', k, n + 1)
  {
    DoneStays(env, g, w, w', k, n);
    ListExtends(w.tabs, w'.tabs, k);
    SameSuccessors(env, g, w.own.Keys, w'.own.Keys, Ref(k, List(w.tabs, k)[n]));
  }

  // ----- the invariant

  ghost predicate RowsInv(env: World, g: Graph, s: Work) {
    && StableRowsOk(env, g, s.w, s.stableRows, s.stableData)
    && ObjectRowsOk(env, g, s.w, s.objectRows, s.objectData)
    && ContextRowsOk(env, g, s.w, s.contextRows, s.contextData)
  }

  ghost predicate DoneInv(env: World, g: Graph, s: Work) {
    && Done(env, g, s.w, Stables, |s.stableRows|)
    && Done(env, g, s.w, Objects, |s.objectRows|)
    && Done(env, g, s.w, Frames, |s.contextRows|)
  }

  /** What holds from the beginning of `serialize` on. */
  ghost predicate Inv(env: World, g: Graph, w0: Writer, s: Work) {
    Enumerates(env.iter) && WriterInv(env, g, w0, s.w) && RowsInv(env, g, s) && DoneInv(env, g, s)
  }

  /** The writer that `MVM_serialization_serialize` sets up. */
  function Begin(w0: Writer): Work {
    Work(w0, [], [], [], [], [], [])
  }

  lemma BeginInv(env: World, g: Graph, w0: Writer)
    requires Enumerates(env.iter) && WriterOk(env.foreign, w0) && Listing(w0.tabs, w0.own) && w0.closureRows == []
    ensures Inv(env, g, w0, Begin(w0))
  {}

  lemma StableRowAdded(env: World, g: Graph, s: Work, s': Work, n: nat)
    requires StableRowsOk(env, g, s.w, s.stableRows, s.stableData) && Grows(env, s.w, s'.w)
    requires n == |s.stableRows| < |s.w.tabs.stables|
    requires |s'.stableRows| == n + 1 && s'.stableRows[..n] == s.stableRows && s.stableData <= s'.stableData
    requires StableRowOk(env, g, s'.w, s'.stableRows[n], s'.stableData, s.w.tabs.stables[n])
    ensures StableRowsOk(env, g, s'.w, s'.stableRows, s'.stableData)
  {
    var e := s'.stableData[|s.stableData|..];
    assert s'.stableData == s.stableData + e;
    StableRowsLast(env, g, s.w, s'.w, s.stableRows, s.stableData, e);
    assert s'.w.tabs.stables[n] == s.w.tabs.stables[n];
    forall i | 0 <= i < n ensures StableRowOk(env, g, s'.w, s'.stableRows[i], s'.stableData, s'.w.tabs.stables[i]) {
      assert s'.stableRows[i] == s'.stableRows[..n][i];
    }
  }

  lemma StableInv(env: World, g: Graph, w0: Writer, s: Work)
    requires Inv(env, g, w0, s) && |s.stableRows| < |s.w.tabs.stables|
    requires SerializeStable(env, g, s, s.w.tabs.stables[|s.stableRows|]).Ok?
    ensures Inv(env, g, w0, SerializeStable(env, g, s, s.w.tabs.stables[|s.stableRows|]).value)
  {
    var n := |s.stableRows|;
    var x := s.w.tabs.stables[n];
    var s' := SerializeStable(env, g, s, x).value;
    StableStep(env, g, s, x);
    StableNewRow(env, g, s, x);
    StepKeeps(env, g, w0, s.w, s'.w, Stables, n);
    StableRowAdded(env, g, s, s', n);
    KeepObjects(env, g, s, s');
    KeepContexts(env, g, s, s');
  }

  lemma ObjectRowAdded(env: World, g: Graph, s: Work, s': Work, n: nat)
    requires ObjectRowsOk(env, g, s.w, s.objectRows, s.objectData) && Grows(env, s.w, s'.w)
    requires n == |s.objectRows| < |s.w.tabs.objects|
    requires |s'.objectRows| == n + 1 && s'.objectRows[..n] == s.objectRows && s.objectData <= s'.objectData
    requires ObjectRowOk(env, g, s'.w, s'.objectRows[n], s'.objectData, s.w.tabs.objects[n])
    ensures ObjectRowsOk(env, g, s'.w, s'.objectRows, s'.objectData)
  {
    var e := s'.objectData[|s.objectData|..];
    assert s'.objectData == s.objectData + e;
    ObjectRowsLast(env, g, s.w, s'.w, s.objectRows, s.objectData, e);
    assert s'.w.tabs.objects[n] == s.w.tabs.objects[n];
    forall i | 0 <= i < n ensures ObjectRowOk(env, g, s'.w, s'.objectRows[i], s'.objectData, s'.w.tabs.objects[i]) {
      assert s'.objectRows[i] == s'.objectRows[..n][i];
    }
  }

  lemma ObjectInv(env: World, g: Graph, w0: Writer, s: Work)
    requires Inv(env, g, w0, s) && |s.objectRows| < |s.w.tabs.objects|
    requires SerializeObject(env, g, s, s.w.tabs.objects[|s.objectRows|]).Ok?
    ensures Inv(env, g, w0, SerializeObject(env, g, s, s.w.tabs.objects[|s.objectRows|]).value)
  {
    var n := |s.objectRows|;
    var x := s.w.tabs.objects[n];
    var s' := SerializeObject(env, g, s, x).value;
    ObjectStep(env, g, s, x);
    ObjectNewRow(env, g, s, x);
    StepKeeps(env, g, w0, s.w, s'.w, Objects, n);
    ObjectRowAdded(env, g, s, s', n);
    KeepStables(env, g, s, s');
    KeepContexts(env, g, s, s');
  }

  lemma ContextRowAdded(env: World, g: Graph, s: Work, s': Work, n: nat)
    requires ContextRowsOk(env, g, s.w, s.contextRows, s.contextData) && Grows(env, s.w, s'.w)
    requires n == |s.contextRows| < |s.w.tabs.frames|
    requires |s'.contextRows| == n + 1 && s'.contextRows[..n] == s.contextRows && s.contextData <= s'.contextData
    requires ContextRowOk(env, g, s'.w, s'.contextRows[n], s'.contextData, s.w.tabs.frames[n])
    ensures ContextRowsOk(env, g, s'.w, s'.contextRows, s'.contextData)
  {
    var e := s'.contextData[|s.contextData|..];
    assert s'.contextData == s.contextData + e;
    ContextRowsLast(env, g, s.w, s'.w, s.contextRows, s.contextData, e);
    assert s'.w.tabs.frames[n] == s.w.tabs.frames[n];
    forall i | 0 <= i < n ensures ContextRowOk(env, g, s'.w, s'.contextRows[i], s'.contextData, s'.w.tabs.frames[i]) {
      assert s'.contextRows[i] == s'.contextRows[..n][i];
    }
  }

  lemma ContextInv(env: World, g: Graph, w0: Writer, s: Work)
    requires Inv(env, g, w0, s) && |s.contextRows| < |s.w.tabs.frames|
    requires SerializeContext(env, g, s, s.w.tabs.frames[|s.contextRows|]).Ok?
    ensures Inv(env, g, w0, SerializeContext(env, g, s, s.w.tabs.frames[|s.contextRows|]).value)
  {
    var n := |s.contextRows|;
    var x := s.w.tabs.frames[n];
    var s' := SerializeContext(env, g, s, x).value;
    ContextStep(env, g, s, x);
    ContextNewRow(env, g, s, x);
    StepKeeps(env, g, w0, s.w, s'.w, Frames, n);
    ContextRowAdded(env, g, s, s', n);
    KeepStables(env, g, s, s');
    KeepObjects(env, g, s, s');
  }

  lemma StepKeeps(env: World, g: Graph, w0: Writer, w: Writer, w': Writer, k: Kind, n: nat)
    requires WriterInv(env, g, w0, w) && Done(env, g, w, k, n) && k != Codes && n < |List(w.tabs, k)|
    requires Stepped(env, w, w', Successors(env, g, w.own.Keys, Ref(k, List(w.tabs, k)[n])))
    ensures WriterInv(env, g, w0, w') && Done(env, g, w', k, n + 1) && Grows(env, w, w')
  {
    WriterStep(env, g, w0, w, w', k, n);
    DoneStep(env, g, w, w', k, n);
  }

  lemma KeepStables(env: World, g: Graph, s: Work, s': Work)
    requires StableRowsOk(env, g, s.w, s.stableRows, s.stableData) && Done(env, g, s.w, Stables, |s.stableRows|)
    requires Grows(env, s.w, s'.w) && s'.stableRows == s.stableRows && s'.stableData == s.stableData
    ensures StableRowsOk(env, g, s'.w, s'.stableRows, s'.stableData) && Done(env, g, s'.w, Stables, |s'.stableRows|)
  {
    StableRowsLast(env, g, s.w, s'.w, s.stableRows, s.stableData, []);
    assert s.stableData + [] == s.stableData;
    DoneStays(env, g, s.w, s'.w, Stables, |s.stableRows|);
  }

  lemma KeepObjects(env: World, g: Graph, s: Work, s': Work)
    requires ObjectRowsOk(env, g, s.w, s.objectRows, s.objectData) && Done(env, g, s.w, Objects, |s.objectRows|)
    requires Grows(env, s.w, s'.w) && s'.objectRows == s.objectRows && s'.objectData == s.objectData
    ensures ObjectRowsOk(env, g, s'.w, s'.objectRows, s'.objectData) && Done(env, g, s'.w, Objects, |s'.objectRows|)
  {
    ObjectRowsLast(env, g, s.w, s'.w, s.objectRows, s.objectData, []);
    assert s.objectData + [] == s.objectData;
    DoneStays(env, g, s.w, s'.w, Objects, |s.objectRows|);
  }

  lemma KeepContexts(env: World, g: Graph, s: Work, s': Work)
    requires ContextRowsOk(env, g, s.w, s.contextRows, s.contextData) && Done(env, g, s.w, Frames, |s.contextRows|)
    requires Grows(env, s.w, s'.w) && s'.contextRows == s.contextRows && s'.contextData == s.contextData
    ensures ContextRowsOk(env, g, s'.w, s'.contextRows, s'.contextData) && Done(env, g, s'.w, Frames, |s'.contextRows|)
  {
    ContextRowsLast(env, g, s.w, s'.w, s.contextRows, s.contextData, []);
    assert s.contextData + [] == s.contextData;
    DoneStays(env, g, s.w, s'.w, Frames, |s.contextRows|);
  }

  // ----- at the end

  /** Every entry of every list has one row, at its index, and a reader with the finished tables
      gets the item back from it; of the codes, those that were taken in, which are closures. */
  ghost predicate RowsDescribe(env: World, g: Graph, w0: Writer, s: Work) {
    var t := s.w.tabs;
    && |s.stableRows| == |t.stables| && |s.objectRows| == |t.objects| && |s.contextRows| == |t.frames|
    && (forall i | 0 <= i < |t.stables| ::
          StableDescribed(env, g, t, s.stableRows[i], s.stableData, t.stables[i]))
    && (forall i | 0 <= i < |t.objects| ::
          ObjectDescribed(env, g, t, s.objectRows[i], s.objectData, t.objects[i]))
    && (forall i | 0 <= i < |t.frames| ::
          ContextDescribed(env, g, s.w, s.contextRows[i], s.contextData, t.frames[i]))
    && ClosuresDescribed(env, |w0.tabs.codes|, s.w)
  }

  ghost predicate StableDescribed(env: World, g: Graph, t: Tables, row: StableRow, data: seq<Byte>, x: nat) {
    x in g.stables && StableReads(env, t, row, data, g.stables[x])
  }

  ghost predicate ObjectDescribed(env: World, g: Graph, t: Tables, row: ObjectRow, data: seq<Byte>, x: nat) {
    x in g.objects && ObjectReads(env, t, row, data, g.objects[x])
  }

  ghost predicate ContextDescribed(env: World, g: Graph, w: Writer, row: ContextRow, data: seq<Byte>, x: nat) {
    && x in g.frames && x in env.frames && env.frames[x].Some?
    && ContextReads(env, w, row, data, env.frames[x].value, g.frames[x])
  }

  /** Row i of the closures table is about the i-th code that was taken in, and there are as many
      rows as such codes. */
  ghost predicate ClosuresDescribed(env: World, base: nat, w: Writer) {
    && |w.tabs.codes| == base + |w.closureRows|
    && forall i | 0 <= i < |w.closureRows| :: ClosureDescribed(env, w, w.closureRows[i], w.tabs.codes[base + i])
  }

  ghost predicate ClosureDescribed(env: World, w: Writer, row: ClosureRow, c: nat) {
    c in env.closures && ClosureReads(env, w, row, env.closures[c])
  }

  /** The items taken in are the least set that, with the roots, has all that is referred to and
      had no context. */
  ghost predicate LeastClosure(env: World, g: Graph, w0: Writer, w: Writer) {
    var added := w.own.Keys - w0.own.Keys;
    && ClosedFrom(env, g, w0, added)
    && forall s: set<Ref> :: ClosedFrom(env, g, w0, s) ==> added <= s
  }

  /** Each list holds its roots and then exactly the items taken in, each once. */
  ghost predicate ListsAreExact(w0: Writer, w: Writer) {
    && Listing(w.tabs, w.own)
    && forall k: Kind, x: nat ::
         x in List(w.tabs, k) <==> x in List(w0.tabs, k) || Ref(k, x) in w.own.Keys - w0.own.Keys
  }

  ghost predicate AllDone(s: Work) {
    |s.stableRows| == |s.w.tabs.stables| && |s.objectRows| == |s.w.tabs.objects| && |s.contextRows| == |s.w.tabs.frames|
  }

  lemma AtTheEndStables(
    env: World, g: Graph, w: Writer, rows: seq<StableRow>, data: seq<Byte>, later: Writer, data': seq<Byte>)
    requires StableRowsOk(env, g, w, rows, data) && Later(env, w, data, later, data')
    ensures forall i | 0 <= i < |rows| :: StableDescribed(env, g, later.tabs, rows[i], data', w.tabs.stables[i])
  {
    forall i | 0 <= i < |rows| ensures StableDescribed(env, g, later.tabs, rows[i], data', w.tabs.stables[i]) {
      assert StableRowOk(env, g, w, rows[i], data, w.tabs.stables[i]);
    }
  }

  lemma AtTheEndObjects(
    env: World, g: Graph, w: Writer, rows: seq<ObjectRow>, data: seq<Byte>, later: Writer, data': seq<Byte>)
    requires ObjectRowsOk(env, g, w, rows, data) && Later(env, w, data, later, data')
    ensures forall i | 0 <= i < |rows| :: ObjectDescribed(env, g, later.tabs, rows[i], data', w.tabs.objects[i])
  {
    forall i | 0 <= i < |rows| ensures ObjectDescribed(env, g, later.tabs, rows[i], data', w.tabs.objects[i]) {
      assert ObjectRowOk(env, g, w, rows[i], data, w.tabs.objects[i]);
    }
  }

  lemma AtTheEndContexts(
    env: World, g: Graph, w: Writer, rows: seq<ContextRow>, data: seq<Byte>, later: Writer, data': seq<Byte>)
    requires ContextRowsOk(env, g, w, rows, data) && Later(env, w, data, later, data')
    ensures forall i | 0 <= i < |rows| :: ContextDescribed(env, g, later, rows[i], data', w.tabs.frames[i])
  {
    forall i | 0 <= i < |rows| ensures ContextDescribed(env, g, later, rows[i], data', w.tabs.frames[i]) {
      assert ContextRowOk(env, g, w, rows[i], data, w.tabs.frames[i]);
    }
  }

  lemma AtTheEndRows(env: World, g: Graph, w0: Writer, s: Work)
    requires Inv(env, g, w0, s) && AllDone(s)
    ensures RowsDescribe(env, g, w0, s)
  {
    AtTheEndStables(env, g, s.w, s.stableRows, s.stableData, s.w, s.stableData);
    AtTheEndObjects(env, g, s.w, s.objectRows, s.objectData, s.w, s.objectData);
    AtTheEndContexts(env, g, s.w, s.contextRows, s.contextData, s.w, s.contextData);
    AtTheEndClosures(env, |w0.tabs.codes|, s.w, s.w);
  }

  lemma AtTheEndClosures(env: World, base: nat, w: Writer, later: Writer)
    requires ClosuresOk(env, base, w) && Grows(env, w, later) && WriterOk(env.foreign, later)
    requires SameClosures(w, later)
    ensures ClosuresDescribed(env, base, later)
  {
    forall i: nat | i < |later.closureRows|
      ensures ClosureDescribed(env, later, later.closureRows[i], later.tabs.codes[base + i])
    {
      assert ClosureRowOk(env, base, w, i);
    }
  }

  lemma EntryDone(env: World, g: Graph, s: Work, k: Kind, i: nat)
    requires DoneInv(env, g, s) && AllDone(s) && k != Codes && i < |List(s.w.tabs, k)|
    ensures SuccessorsIn(env, g, s.w.own, Ref(k, List(s.w.tabs, k)[i]))
  {
    match k
    case Stables => assert Done(env, g, s.w, Stables, |s.stableRows|);
    case Objects => assert Done(env, g, s.w, Objects, |s.objectRows|);
    case Frames => assert Done(env, g, s.w, Frames, |s.contextRows|);
    case Codes => assert false;
  }

  /** An item that was taken in stands on its list. */
  lemma NewIsListed(env: World, w0: Writer, w: Writer, r: Ref) returns (i: nat)
    requires WriterOk(env.foreign, w) && r in w.own && w.own[r].sc == w.tabs.sc
    ensures i < |List(w.tabs, r.kind)| && List(w.tabs, r.kind)[i] == r.id
  {
    assert Lookup(env.foreign, w.tabs, r.kind, w.own[r]) == Ok(r.id);
    i := w.own[r].idx;
  }

  lemma AtTheEndClosed(env: World, g: Graph, w0: Writer, s: Work)
    requires Inv(env, g, w0, s) && AllDone(s)
    ensures LeastClosure(env, g, w0, s.w)
  {
    var added := s.w.own.Keys - w0.own.Keys;
    forall r: Ref | r in added || IsRoot(w0, r) ensures SuccessorsWithin(env, g, w0, added, r) {
      SameSuccessors(env, g, w0.own.Keys, s.w.own.Keys, r);
      if r.kind == Codes {
        assert CodeDone(env, s.w.own, r.id);
      } else {
        var i: nat;
        if r in added {
          i := NewIsListed(env, w0, s.w, r);
        } else {
          i :| 0 <= i < |List(w0.tabs, r.kind)| && List(w0.tabs, r.kind)[i] == r.id;
          ListExtends(w0.tabs, s.w.tabs, r.kind);
        }
        EntryDone(env, g, s, r.kind, i);
        assert SuccessorsIn(env, g, s.w.own, r);
      }
    }
    forall t: set<Ref> | ClosedFrom(env, g, w0, t) ensures added <= t {
      assert s.w.own.Keys <= w0.own.Keys + t;
    }
  }

  lemma AtTheEndLists(env: World, g: Graph, w0: Writer, w: Writer)
    requires WriterInv(env, g, w0, w)
    ensures ListsAreExact(w0, w)
  {
    forall k: Kind, x: nat
      ensures x in List(w.tabs, k) <==> x in List(w0.tabs, k) || Ref(k, x) in w.own.Keys - w0.own.Keys
    {
      ListExtends(w0.tabs, w.tabs, k);
      if x in List(w.tabs, k) {
        var i :| 0 <= i < |List(w.tabs, k)| && List(w.tabs, k)[i] == x;
        RootOrNew(env.foreign, w0, w, k, i);
        assert Listed(w.tabs, w.own, k, i);
      }
      if Ref(k, x) in w.own.Keys - w0.own.Keys {
        var i := NewIsListed(env, w0, w, Ref(k, x));
      }
    }
  }

  // ----- getting there

  /** How many items can have a context in the end. */
  function Capacity(all: set<Ref>, w0: Writer): nat {
    |w0.own.Keys| + |all|
  }

  /** How many list entries have no row yet. */
  function Pending(s: Work): int {
    |s.w.tabs.stables| - |s.stableRows| + |s.w.tabs.objects| - |s.objectRows|
    + |s.w.tabs.frames| - |s.contextRows|
  }

  /** More items have a context, or as many, and fewer entries are pending. */
  ghost predicate Nearer(s: Work, s': Work) {
    |s.w.own| < |s'.w.own| || (|s.w.own| == |s'.w.own| && Pending(s') < Pending(s))
  }

  lemma WithinCapacity(env: World, g: Graph, all: set<Ref>, w0: Writer, w: Writer)
    requires WriterInv(env, g, w0, w) && ClosedFrom(env, g, w0, all)
    ensures |w.own| <= Capacity(all, w0)
  {
    Smaller(w.own.Keys, w0.own.Keys + all);
  }

  lemma Smaller(a: set<Ref>, b: set<Ref>)
    requires a <= b
    ensures |a| <= |b| && (a != b ==> |a| < |b|)
  {
    assert b == a + (b - a);
  }

  lemma KnownEntry(f: Foreign, w: Writer, w': Writer, k: Kind, i: nat)
    requires OwnOk(f, w.tabs, w.own) && Extends(w, w') && i < |List(w'.tabs, k)| && Listed(w'.tabs, w'.own, k, i)
    requires Ref(k, List(w'.tabs, k)[i]) in w.own
    ensures i < |List(w.tabs, k)|
  {
    var r := Ref(k, List(w'.tabs, k)[i]);
    assert Lookup(f, w.tabs, k, w.own[r]) == Ok(r.id);
  }

  /** Whoever takes in nothing leaves the lists as they are. */
  lemma SameOwnSameList(env: World, g: Graph, w0: Writer, w: Writer, w': Writer, k: Kind)
    requires WriterInv(env, g, w0, w) && WriterInv(env, g, w0, w') && Extends(w, w') && w'.own.Keys == w.own.Keys
    ensures |List(w'.tabs, k)| == |List(w.tabs, k)|
  {
    ListExtends(w.tabs, w'.tabs, k);
    var n := |List(w.tabs, k)|;
    if n < |List(w'.tabs, k)| {
      assert Listed(w'.tabs, w'.own, k, n);
      KnownEntry(env.foreign, w, w', k, n);
    }
  }

  /** A step takes in items that had no context, or only works off an entry. */
  lemma StepIsNearer(env: World, g: Graph, w0: Writer, s: Work, s': Work)
    requires WriterInv(env, g, w0, s.w) && WriterInv(env, g, w0, s'.w) && Extends(s.w, s'.w)
    requires |s'.stableRows| + |s'.objectRows| + |s'.contextRows|
          == |s.stableRows| + |s.objectRows| + |s.contextRows| + 1
    ensures Nearer(s, s')
  {
    Smaller(s.w.own.Keys, s'.w.own.Keys);
    if s'.w.own.Keys == s.w.own.Keys {
      SameOwnSameList(env, g, w0, s.w, s'.w, Stables);
      SameOwnSameList(env, g, w0, s.w, s'.w, Objects);
      SameOwnSameList(env, g, w0, s.w, s'.w, Frames);
    }
  }

  lemma StableAdvances(env: World, g: Graph, w0: Writer, s: Work)
    requires Inv(env, g, w0, s) && |s.stableRows| < |s.w.tabs.stables|
    requires SerializeStable(env, g, s, s.w.tabs.stables[|s.stableRows|]).Ok?
    ensures var s' := SerializeStable(env, g, s, s.w.tabs.stables[|s.stableRows|]).value;
            Inv(env, g, w0, s') && Extends(s.w, s'.w) && Nearer(s, s')
  {
    var x := s.w.tabs.stables[|s.stableRows|];
    StableInv(env, g, w0, s);
    StableStep(env, g, s, x);
    StepIsNearer(env, g, w0, s, SerializeStable(env, g, s, x).value);
  }

  lemma ObjectAdvances(env: World, g: Graph, w0: Writer, s: Work)
    requires Inv(env, g, w0, s) && |s.objectRows| < |s.w.tabs.objects|
    requires SerializeObject(env, g, s, s.w.tabs.objects[|s.objectRows|]).Ok?
    ensures var s' := SerializeObject(env, g, s, s.w.tabs.objects[|s.objectRows|]).value;
            Inv(env, g, w0, s') && Extends(s.w, s'.w) && Nearer(s, s')
  {
    var x := s.w.tabs.objects[|s.objectRows|];
    ObjectInv(env, g, w0, s);
    ObjectStep(env, g, s, x);
    StepIsNearer(env, g, w0, s, SerializeObject(env, g, s, x).value);
  }

  lemma ContextAdvances(env: World, g: Graph, w0: Writer, s: Work)
    requires Inv(env, g, w0, s) && |s.contextRows| < |s.w.tabs.frames|
    requires SerializeContext(env, g, s, s.w.tabs.frames[|s.contextRows|]).Ok?
    ensures var s' := SerializeContext(env, g, s, s.w.tabs.frames[|s.contextRows|]).value;
            Inv(env, g, w0, s') && Extends(s.w, s'.w) && Nearer(s, s')
  {
    var x := s.w.tabs.frames[|s.contextRows|];
    ContextInv(env, g, w0, s);
    ContextStep(env, g, s, x);
    StepIsNearer(env, g, w0, s, SerializeContext(env, g, s, x).value);
  }

  // ----- runs

  /** What `serialize` is called with: a good writer, and finitely many items that may be reached. */
  ghost predicate Ready(env: World, g: Graph, all: set<Ref>, w0: Writer) {
    && Enumerates(env.iter) && WriterOk(env.foreign, w0) && Listing(w0.tabs, w0.own)
    && w0.closureRows == [] && ClosedFrom(env, g, w0, all)
  }

  /** How many entries of a list have rows. */
  function RowCount(s: Work, k: Kind): nat {
    match k
    case Stables => |s.stableRows|
    case Objects => |s.objectRows|
    case Frames => |s.contextRows|
    case Codes => |s.w.tabs.codes|
  }

  /** The next entry of a list gets its row, or that throws. */
  function NextRow(env: World, g: Graph, s: Work, k: Kind): Result<Work>
    requires RowCount(s, k) < |List(s.w.tabs, k)|
  {
    match k
    case Stables => SerializeStable(env, g, s, s.w.tabs.stables[|s.stableRows|])
    case Objects => SerializeObject(env, g, s, s.w.tabs.objects[|s.objectRows|])
    case Frames => SerializeContext(env, g, s, s.w.tabs.frames[|s.contextRows|])
  }

  ghost predicate Step(env: World, g: Graph, s: Work, k: Kind, s': Work) {
    RowCount(s, k) < |List(s.w.tabs, k)| && NextRow(env, g, s, k) == Ok(s')
  }

  /** The next step throws. */
  ghost predicate Throws(env: World, g: Graph, s: Work, k: Kind) {
    RowCount(s, k) < |List(s.w.tabs, k)| && NextRow(env, g, s, k).Err?
  }

  /** The states so far, the first one being the beginning. */
  ghost predicate IsRun(env: World, g: Graph, w0: Writer, run: seq<Work>) {
    run != [] && run[0] == Begin(w0) && forall i | 0 <= i < |run| - 1 :: StepAt(env, g, run, i)
  }

  ghost predicate StepAt(env: World, g: Graph, run: seq<Work>, i: nat)
    requires i < |run| - 1
  {
    var s, s' := run[i], run[i + 1];
    exists k :: Step(env, g, s, k, s')
  }

  function Last(run: seq<Work>): Work
    requires run != []
  {
    run[|run| - 1]
  }

  /** The invariant holds in every state of every run, whatever the order of the steps. */
  lemma {:induction false} RunInv(env: World, g: Graph, all: set<Ref>, w0: Writer, run: seq<Work>)
    requires Ready(env, g, all, w0) && IsRun(env, g, w0, run)
    ensures Inv(env, g, w0, Last(run))
    decreases |run|
  {
    if |run| == 1 {
      BeginInv(env, g, w0);
    } else {
      var n := |run| - 2;
      RunBefore(env, g, w0, run);
      RunInv(env, g, all, w0, run[..n + 1]);
      assert StepAt(env, g, run, n);
      var k :| Step(env, g, run[n], k, run[n + 1]);
      StepAdvances(env, g, w0, run[n], k, run[n + 1]);
    }
  }

  lemma RunBefore(env: World, g: Graph, w0: Writer, run: seq<Work>)
    requires IsRun(env, g, w0, run) && |run| > 1
    ensures IsRun(env, g, w0, run[..|run| - 1]) && Last(run[..|run| - 1]) == run[|run| - 2]
  {
    var before := run[..|run| - 1];
    forall i | 0 <= i < |before| - 1 ensures StepAt(env, g, before, i) {
      assert StepAt(env, g, run, i);
    }
  }

  lemma StepAdvances(env: World, g: Graph, w0: Writer, s: Work, k: Kind, s': Work)
    requires Inv(env, g, w0, s) && Step(env, g, s, k, s')
    ensures Inv(env, g, w0, s') && Extends(s.w, s'.w) && Nearer(s, s')
  {
    match k
    case Stables => StableAdvances(env, g, w0, s);
    case Objects => ObjectAdvances(env, g, w0, s);
    case Frames => ContextAdvances(env, g, w0, s);
    case Codes => assert false;
  }

  /** How long the lists and the tables are. */
  datatype Sizes = Sizes(stables: nat, objects: nat, frames: nat)

  function Lists(s: Work): Sizes {
    Sizes(|s.w.tabs.stables|, |s.w.tabs.objects|, |s.w.tabs.frames|)
  }

  ghost predicate NotShorter(a: Sizes, b: Sizes) {
    a.stables <= b.stables && a.objects <= b.objects && a.frames <= b.frames
  }

  /** A run goes on: it comes nearer to its end, and no list gets shorter. */
  lemma RunGoesOn(env: World, g: Graph, all: set<Ref>, w0: Writer, run: seq<Work>, k: Kind, s': Work)
    requires Ready(env, g, all, w0) && IsRun(env, g, w0, run) && Step(env, g, Last(run), k, s')
    ensures IsRun(env, g, w0, run + [s']) && Last(run + [s']) == s'
    ensures Nearer(Last(run), s') && NotShorter(Lists(Last(run)), Lists(s'))
  {
    RunInv(env, g, all, w0, run);
    StepAdvances(env, g, w0, Last(run), k, s');
    RunLonger(env, g, w0, run, k, s');
  }

  lemma RunLonger(env: World, g: Graph, w0: Writer, run: seq<Work>, k: Kind, s': Work)
    requires IsRun(env, g, w0, run) && Step(env, g, Last(run), k, s')
    ensures IsRun(env, g, w0, run + [s'])
  {
    var longer := run + [s'];
    forall i | 0 <= i < |longer| - 1 ensures StepAt(env, g, longer, i) {
      if i < |run| - 1 {
        assert StepAt(env, g, run, i) && longer[i] == run[i] && longer[i + 1] == run[i + 1];
      } else {
        assert Step(env, g, longer[i], k, longer[i + 1]);
      }
    }
  }

  lemma RunBounds(env: World, g: Graph, all: set<Ref>, w0: Writer, run: seq<Work>)
    requires Ready(env, g, all, w0) && IsRun(env, g, w0, run)
    ensures var s := Last(run);
            |s.stableRows| <= |s.w.tabs.stables| && |s.objectRows| <= |s.w.tabs.objects|
            && |s.contextRows| <= |s.w.tabs.frames| && |s.w.own| <= Capacity(all, w0)
  {
    RunInv(env, g, all, w0, run);
    WithinCapacity(env, g, all, w0, Last(run).w);
  }

  /** A run that has worked off all lists has serialized the graph. */
  lemma AtTheEnd(env: World, g: Graph, all: set<Ref>, w0: Writer, run: seq<Work>)
    requires Ready(env, g, all, w0) && IsRun(env, g, w0, run) && AllDone(Last(run))
    ensures RowsDescribe(env, g, w0, Last(run))
    ensures LeastClosure(env, g, w0, Last(run).w) && ListsAreExact(w0, Last(run).w)
  {
    RunInv(env, g, all, w0, run);
    AtTheEndRows(env, g, w0, Last(run));
    AtTheEndClosed(env, g, w0, Last(run));
    AtTheEndLists(env, g, w0, Last(run).w);
  }
}
