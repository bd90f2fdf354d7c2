/** What the rows of the closures table say (src/6model/serialization.c): closures are met while
    values are written, and each gets a row that any later reader resolves. */
module Closures {
  import opened Wrappers
  import opened Tables
  import opened Places
  import opened Values
  import opened Encoding
  import opened Ownership

  // ----- what a row says

  /** A place leads to an item. */
  ghost predicate ItemFound(env: World, t: Tables, place: Place, r: Ref) {
    && LocateSc(t, place.id).Ok?
    && Lookup(env.foreign, t, r.kind, Loc(LocateSc(t, place.id).value, place.idx)) == Ok(r.id)
  }

  /** Zero is no frame of interest; otherwise the entry before that number is the frame. */
  ghost predicate OuterFound(env: World, owned: set<Ref>, t: Tables, n: nat, outer: Option<nat>) {
    if n == 0 then FrameRef(env, owned, outer) == {}
    else n - 1 < |t.frames| && outer == Some(t.frames[n - 1])
  }

  /** A reader finds the closure's static code, its outer frame, its code object and its name. */
  ghost predicate ClosureReads(env: World, w: Writer, row: ClosureRow, cl: Closure) {
    && cl.staticCode.Some? && ItemFound(env, w.tabs, row.code, Ref(Codes, cl.staticCode.value))
    && OuterFound(env, w.own.Keys, w.tabs, row.context, cl.outer)
    && CodeObjectFound(env, w.tabs, row.codeObject, cl.codeObject)
    && row.name < |w.tabs.heap| && w.tabs.heap[row.name] == cl.name
  }

  ghost predicate CodeObjectFound(env: World, t: Tables, place: Option<Place>, o: Option<nat>) {
    match o
    case None => place == None
    case Some(x) => place.Some? && ItemFound(env, t, place.value, Ref(Objects, x))
  }

  /** A later state of the writer, in which no other static code has got a context. */
  ghost predicate Grows(env: World, w: Writer, later: Writer) {
    Extends(w, later) && StaticsAgree(env, w.own.Keys, later.own.Keys)
  }

  lemma GrowsTransitive(env: World, a: Writer, b: Writer, c: Writer)
    requires Grows(env, a, b) && Grows(env, b, c)
    ensures Grows(env, a, c)
  {
    ExtendsTransitive(a, b, c);
  }

  /** What the row says, it says in every later state. */
  ghost predicate ClosureLasts(env: World, w: Writer, row: ClosureRow, cl: Closure) {
    forall later: Writer :: Grows(env, w, later) && WriterOk(env.foreign, later) ==> ClosureReads(env, later, row, cl)
  }

  lemma PlaceFound(env: World, w: Writer, r: Ref, place: Place, later: Writer)
    requires Extends(w, later) && WriterOk(env.foreign, later) && r in w.own
    requires NumberOf(w.tabs, w.own[r].sc) == Ok(place.id) && w.own[r].idx == place.idx
    ensures ItemFound(env, later.tabs, place, r)
  {
    NumberStable(w.tabs, later.tabs, w.own[r].sc);
    NumberLocates(later.tabs, w.own[r].sc);
    assert Lookup(env.foreign, later.tabs, r.kind, later.own[r]) == Ok(r.id);
  }

  lemma ContextIdxFound(env: World, w: Writer, f: nat)
    requires WriterOk(env.foreign, w) && ContextIdx(env, w, f).Ok?
    ensures OuterFound(env, w.own.Keys, ContextIdx(env, w, f).value.0.tabs, ContextIdx(env, w, f).value.1, Some(f))
  {
    var r := Ref(Frames, f);
    if r in w.own { assert Lookup(env.foreign, w.tabs, Frames, w.own[r]) == Ok(f); }
  }

  /** The context number stands for the outer frame in every later state. */
  lemma OuterIdxFound(env: World, w: Writer, outer: Option<nat>, later: Writer)
    requires WriterOk(env.foreign, w) && OuterIdx(env, w, outer).Ok?
    requires Extends(OuterIdx(env, w, outer).value.0, later) && StaticsAgree(env, w.own.Keys, later.own.Keys)
    ensures OuterFound(env, later.own.Keys, later.tabs, OuterIdx(env, w, outer).value.1, outer)
  {
    SameInterest(env, w.own.Keys, later.own.Keys, outer);
    if outer.Some? { ContextIdxFound(env, w, outer.value); }
  }

  lemma CodeObjectLasts(env: World, w: Writer, o: Option<nat>, later: Writer)
    requires WriterOk(env.foreign, w) && WriterOk(env.foreign, later) && Extends(CodeObjectRow(w, o).0, later)
    ensures CodeObjectFound(env, later.tabs, CodeObjectRow(w, o).1, o)
  {
    if o.Some? {
      var r := Ref(Objects, o.value);
      ClaimOk(env.foreign, w, r);
      PlaceOfOk(env.foreign, Claim(w, r), r);
      PlaceFound(env, CodeObjectRow(w, o).0, r, CodeObjectRow(w, o).1.value, later);
    }
  }

  lemma NameLasts(f: Foreign, w: Writer, s: MString, later: Writer)
    requires WriterOk(f, w) && WriterOk(f, later) && Extends(AddString(w, s).0, later)
    ensures AddString(w, s).1 < |later.tabs.heap| && later.tabs.heap[AddString(w, s).1] == s
  {
    AddStringOk(f, w, s);
    StringAtStable(AddString(w, s).0.seen, later.seen, s);
    StringAtHolds(later.tabs.heap, later.seen, s);
  }

  /** The row of a closure leads every later reader to what the closure is made of. */
  lemma EntryReads(env: World, w: Writer, cl: Closure, later: Writer)
    requires WriterOk(env.foreign, w) && HasStatic(env, w.own.Keys, cl.staticCode) && ClosureEntry(env, w, cl).Ok?
    requires Extends(ClosureEntry(env, w, cl).value.0, later) && StaticsAgree(env, w.own.Keys, later.own.Keys)
    requires WriterOk(env.foreign, later)
    ensures ClosureReads(env, later, ClosureEntry(env, w, cl).value.1, cl)
  {
    var f, r := env.foreign, Ref(Codes, cl.staticCode.value);
    var w1 := OuterIdx(env, w, cl.outer).value.0;
    var (w2, code) := PlaceOf(w1, r);
    var w3 := CodeObjectRow(w2, cl.codeObject).0;
    var w4 := AddString(w3, cl.name).0;
    OuterIdxKept(env, w, cl.outer);
    PlaceOfOk(f, w1, r);
    CodeObjectRowOk(f, w2, cl.codeObject);
    AddStringOk(f, w3, cl.name);
    ExtendsTransitive(w3, w4, later);
    ExtendsTransitive(w2, w3, later);
    ExtendsTransitive(w1, w2, later);
    OuterIdxFound(env, w, cl.outer, later);
    PlaceFound(env, w2, r, code, later);
    CodeObjectLasts(env, w2, cl.codeObject, later);
    NameLasts(f, w3, cl.name, later);
  }

  /** The outer frame of a closure has to be named if its static code, which is no closure, has a
      context. */
  lemma OuterIsNamed(env: World, w: Writer, row: ClosureRow, cl: Closure, f: nat, c: nat)
    requires ClosureReads(env, w, row, cl) && cl.outer == Some(f)
    requires f in env.frames && env.frames[f] == Some(c) && c !in env.closures && Ref(Codes, c) in w.own
    ensures 0 < row.context <= |w.tabs.frames| && w.tabs.frames[row.context - 1] == f
  {}

  /** And it is left out exactly if there is none, or it has no context and such code neither. */
  lemma OuterIsLeftOut(env: World, w: Writer, outer: Option<nat>)
    requires OuterIdx(env, w, outer).Ok?
    ensures OuterIdx(env, w, outer).value.1 == 0 <==>
              match outer
              case None => true
              case Some(f) =>
                Ref(Frames, f) !in w.own &&
                !(exists c: nat :: && c !in env.closures && Ref(Codes, c) in w.own
                                   && f in env.frames && env.frames[f] == Some(c))
  {
    if outer.Some? && outer.value in env.frames && env.frames[outer.value].Some? {
      var c := env.frames[outer.value].value;
      assert env.frames[outer.value] == Some(c);
    }
  }

  // ----- one row for each code taken in

  /** From `base` on, the codes are closures, and row i is about the i-th of them. */
  ghost predicate ClosuresOk(env: World, base: nat, w: Writer) {
    && |w.tabs.codes| == base + |w.closureRows|
    && forall i: nat :: i < |w.closureRows| ==> ClosureRowOk(env, base, w, i)
  }

  ghost predicate ClosureRowOk(env: World, base: nat, w: Writer, i: nat)
    requires i < |w.closureRows| && base + i < |w.tabs.codes|
  {
    var c := w.tabs.codes[base + i];
    c in env.closures && ClosureLasts(env, w, w.closureRows[i], env.closures[c])
  }

  /** Between two states, what closures were met got their rows. */
  ghost predicate Recorded(env: World, w: Writer, w': Writer) {
    forall base: nat :: ClosuresOk(env, base, w) ==> ClosuresOk(env, base, w')
  }

  lemma ClosureGoesOn(env: World, w: Writer, w': Writer, row: ClosureRow, cl: Closure)
    requires ClosureLasts(env, w, row, cl) && Grows(env, w, w')
    ensures ClosureLasts(env, w', row, cl)
  {
    forall later: Writer | Grows(env, w', later) && WriterOk(env.foreign, later)
      ensures ClosureReads(env, later, row, cl)
    {
      GrowsTransitive(env, w, w', later);
    }
  }

  lemma ClosuresGoOn(env: World, base: nat, w: Writer, w': Writer)
    requires ClosuresOk(env, base, w) && Grows(env, w, w')
    ensures |w.closureRows| <= |w'.closureRows| && base + |w.closureRows| <= |w'.tabs.codes|
    ensures forall i: nat | i < |w.closureRows| :: ClosureRowOk(env, base, w', i)
  {
    forall i: nat | i < |w.closureRows| ensures ClosureRowOk(env, base, w', i) {
      assert ClosureRowOk(env, base, w, i);
      ClosureGoesOn(env, w, w', w.closureRows[i], env.closures[w.tabs.codes[base + i]]);
    }
  }

  /** The closures and their rows are as they were. */
  ghost predicate SameClosures(w: Writer, w': Writer) {
    w'.closureRows == w.closureRows && w'.tabs.codes == w.tabs.codes
  }

  lemma RecordedSame(env: World, w: Writer, w': Writer)
    requires Grows(env, w, w') && SameClosures(w, w')
    ensures Recorded(env, w, w')
  {
    forall base: nat | ClosuresOk(env, base, w) ensures ClosuresOk(env, base, w') {
      ClosuresGoOn(env, base, w, w');
    }
  }

  lemma ClaimSame(w: Writer, r: Ref)
    requires r.kind != Codes
    ensures SameClosures(w, Claim(w, r))
  {}

  lemma ClaimGrows(env: World, w: Writer, r: Ref)
    requires WriterOk(env.foreign, w) && (r.kind == Codes ==> r.id in env.closures)
    ensures WriterOk(env.foreign, Claim(w, r)) && Grows(env, w, Claim(w, r))
  {
    ClaimOk(env.foreign, w, r);
    assert Claim(w, r).own.Keys == w.own.Keys + {r};
  }

  lemma ScIdSame(env: World, w: Writer, sc: Sc)
    requires WriterOk(env.foreign, w)
    ensures WriterOk(env.foreign, ScId(w, sc).0) && Grows(env, w, ScId(w, sc).0) && SameClosures(w, ScId(w, sc).0)
  {
    ScIdOk(env.foreign, w, sc);
    assert List(ScId(w, sc).0.tabs, Codes) == List(w.tabs, Codes);
  }

  lemma StringSame(env: World, w: Writer, s: MString)
    requires WriterOk(env.foreign, w)
    ensures Grows(env, w, AddString(w, s).0) && SameClosures(w, AddString(w, s).0)
  {
    AddStringOk(env.foreign, w, s);
  }

  lemma OuterSame(env: World, w: Writer, outer: Option<nat>)
    requires OuterIdx(env, w, outer).Ok?
    ensures SameClosures(w, OuterIdx(env, w, outer).value.0)
  {
    if outer.Some? { ClaimSame(w, Ref(Frames, outer.value)); }
  }

  lemma CodeObjectSame(env: World, w: Writer, o: Option<nat>)
    requires WriterOk(env.foreign, w)
    ensures SameClosures(w, CodeObjectRow(w, o).0)
  {
    if o.Some? {
      var w1 := Claim(w, Ref(Objects, o.value));
      ClaimSame(w, Ref(Objects, o.value));
      ClaimOk(env.foreign, w, Ref(Objects, o.value));
      ScIdSame(env, w1, w1.own[Ref(Objects, o.value)].sc);
    }
  }

  lemma EntrySame(env: World, w: Writer, cl: Closure)
    requires WriterOk(env.foreign, w) && HasStatic(env, w.own.Keys, cl.staticCode) && ClosureEntry(env, w, cl).Ok?
    ensures SameClosures(w, ClosureEntry(env, w, cl).value.0)
  {
    var r := Ref(Codes, cl.staticCode.value);
    var w1 := OuterIdx(env, w, cl.outer).value.0;
    var w2 := PlaceOf(w1, r).0;
    OuterSame(env, w, cl.outer);
    OuterIdxKept(env, w, cl.outer);
    ScIdSame(env, w1, w1.own[r].sc);
    CodeObjectSame(env, w2, cl.codeObject);
    CodeObjectRowOk(env.foreign, w2, cl.codeObject);
    StringSame(env, CodeObjectRow(w2, cl.codeObject).0, cl.name);
  }

  lemma NewRow(env: World, base: nat, w: Writer, w4: Writer, row: ClosureRow, c: nat)
    requires ClosuresOk(env, base, w) && SameClosures(w, w4) && Grows(env, w, w4) && Ref(Codes, c) !in w4.own
    requires c in env.closures && WriterOk(env.foreign, w4)
    requires var w' := Claim(AddClosure(w4, row), Ref(Codes, c)); ClosureLasts(env, w', row, env.closures[c])
    ensures ClosuresOk(env, base, Claim(AddClosure(w4, row), Ref(Codes, c)))
  {
    var w5 := AddClosure(w4, row);
    var w' := Claim(w5, Ref(Codes, c));
    AddClosureOk(env.foreign, w4, row);
    ClaimGrows(env, w5, Ref(Codes, c));
    GrowsTransitive(env, w4, w5, w');
    GrowsTransitive(env, w, w4, w');
    ClosuresGoOn(env, base, w, w');
    forall i: nat | i < |w'.closureRows| ensures ClosureRowOk(env, base, w', i) {
      if i == |w.closureRows| { assert w'.tabs.codes[base + i] == c && w'.closureRows[i] == row; }
    }
  }

  lemma EntryLasts(env: World, w: Writer, c: nat)
    requires WriterOk(env.foreign, w) && SerializeClosure(env, w, c).Ok?
    ensures var row := ClosureEntry(env, w, env.closures[c]).value.1;
            ClosureLasts(env, SerializeClosure(env, w, c).value, row, env.closures[c])
  {
    var cl, w' := env.closures[c], SerializeClosure(env, w, c).value;
    var (w4, row) := ClosureEntry(env, w, cl).value;
    ClosureEntryOk(env, w, cl);
    AddClosureOk(env.foreign, w4, row);
    ClaimGrows(env, AddClosure(w4, row), Ref(Codes, c));
    PulledByEntry(env, w, c);
    forall later: Writer | Grows(env, w', later) && WriterOk(env.foreign, later)
      ensures ClosureReads(env, later, row, cl)
    {
      ExtendsTransitive(w4, AddClosure(w4, row), w');
      ExtendsTransitive(w4, w', later);
      EntryReads(env, w, cl, later);
    }
  }

  /** A closure that is met gets the next row, and its code the next place in the list. */
  lemma RecordedByClosure(env: World, w: Writer, c: nat)
    requires WriterOk(env.foreign, w) && Ref(Codes, c) !in w.own && SerializeClosure(env, w, c).Ok?
    ensures Recorded(env, w, SerializeClosure(env, w, c).value)
  {
    var (w4, row) := ClosureEntry(env, w, env.closures[c]).value;
    ClosureEntryOk(env, w, env.closures[c]);
    EntrySame(env, w, env.closures[c]);
    PulledByEntry(env, w, c);
    EntryLasts(env, w, c);
    CodeNotTakenIn(env, w, c);
    forall base: nat | ClosuresOk(env, base, w) ensures ClosuresOk(env, base, SerializeClosure(env, w, c).value) {
      NewRow(env, base, w, w4, row, c);
    }
  }

  /** Taking in what a closure needs does not take in the closure. */
  lemma CodeNotTakenIn(env: World, w: Writer, c: nat)
    requires Ref(Codes, c) !in w.own && SerializeClosure(env, w, c).Ok?
    ensures Ref(Codes, c) !in ClosureEntry(env, w, env.closures[c]).value.0.own
  {
    PulledByEntry(env, w, c);
    var need := ClosureRefs(env, w.own.Keys, c);
    assert Confines(env, w.own, w.own.Keys, need, need);
  }

  // ----- values

  ghost predicate RecordedBy(env: World, w: Writer, r: Written) {
    r.Written? ==> Recorded(env, w, r.w)
  }

  lemma RecordedByLoc(env: World, w: Writer, w1: Writer, loc: Loc)
    requires WriterOk(env.foreign, w1) && Recorded(env, w, w1)
    ensures RecordedBy(env, w, WriteLoc(env.codes.places, w1, loc))
  {
    ScIdSame(env, w1, loc.sc);
    RecordedSame(env, w1, ScId(w1, loc.sc).0);
  }

  lemma RecordedByStr(env: World, w: Writer, s: MString)
    requires WriterOk(env.foreign, w)
    ensures RecordedBy(env, w, WriteStr(env.codes.strs, w, s))
  {
    StringSame(env, w, s);
    RecordedSame(env, w, AddString(w, s).0);
  }

  lemma RecordedByItem(env: World, w: Writer, r: Ref)
    requires WriterOk(env.foreign, w) && r.kind != Codes
    ensures RecordedBy(env, w, WriteItem(env, w, r))
  {
    ClaimGrows(env, w, r);
    ClaimSame(w, r);
    RecordedSame(env, w, Claim(w, r));
    RecordedByLoc(env, w, Claim(w, r), Claim(w, r).own[r]);
  }

  lemma RecordedByCode(env: World, w: Writer, c: nat)
    requires WriterOk(env.foreign, w)
    ensures RecordedBy(env, w, WriteCodeRef(env, w, c))
  {
    var w1 := Anchored(env, w, c);
    if w1.Ok? {
      AnchoredOk(env, w, c);
      if Ref(Codes, c) !in w.own { RecordedByClosure(env, w, c); }
      RecordedByLoc(env, w, w1.value, w1.value.own[Ref(Codes, c)]);
    }
  }

  lemma RecordedByBoth(env: World, w: Writer, r: Written, r': Written)
    requires r.Written? && RecordedBy(env, w, r) && RecordedBy(env, r.w, r')
    ensures RecordedBy(env, w, Both(r, r'))
  {}

  lemma {:induction false} RecordedByStrs(env: World, w: Writer, ss: seq<MString>)
    requires WriterOk(env.foreign, w)
    ensures RecordedBy(env, w, WriteStrs(env.codes.strs, w, ss))
    decreases |ss|
  {
    if ss != [] {
      var r := WriteStr(env.codes.strs, w, ss[0]);
      RecordedByStr(env, w, ss[0]);
      WriteStrKept(env.codes.strs, env.foreign, w, ss[0]);
      if r.Written? {
        RecordedByStrs(env, r.w, ss[1..]);
        RecordedByBoth(env, w, r, WriteStrs(env.codes.strs, r.w, ss[1..]));
      }
    }
  }

  lemma {:induction false} RecordedByBody(env: World, w: Writer, v: Value)
    requires WriterOk(env.foreign, w)
    ensures RecordedBy(env, w, WriteBody(env, w, v))
    decreases v, 1, 0
  {
    match v
    case Str(s) => RecordedByStr(env, w, s);
    case ScRef(h) => RecordedByStr(env, w, Some(h));
    case ArrVar(vs) => RecordedByRefs(env, w, vs);
    case ArrStr(ss) => RecordedByStrs(env, w, ss);
    case ArrInt(ns) => WriteIntsKept(env.codes.ints, w, ns);
    case Hash(m) => RecordedByPairs(env, w, v, Keys(env, m));
    case Obj(o) => RecordedByItem(env, w, Ref(Objects, o));
    case Code(c) => RecordedByCode(env, w, c);
    case _ =>
  }

  /** Whatever value is written, every closure that is met in it gets its row. */
  lemma {:induction false} RecordedByRef(env: World, w: Writer, v: Value)
    requires WriterOk(env.foreign, w)
    ensures RecordedBy(env, w, WriteRef(env, w, v))
    decreases v, 2, 0
  {
    RecordedByBody(env, w, v);
  }

  lemma {:induction false} RecordedByRefs(env: World, w: Writer, vs: seq<Value>)
    requires WriterOk(env.foreign, w)
    ensures RecordedBy(env, w, WriteRefs(env, w, vs))
    decreases vs, 0, 0
  {
    if vs != [] {
      var r := WriteRef(env, w, vs[0]);
      RecordedByRef(env, w, vs[0]);
      WriteRefKept(env, w, vs[0]);
      if r.Written? {
        RecordedByRefs(env, r.w, vs[1..]);
        RecordedByBoth(env, w, r, WriteRefs(env, r.w, vs[1..]));
      }
    }
  }

  lemma {:induction false} RecordedByPair(env: World, w: Writer, v: Value, k: string)
    requires WriterOk(env.foreign, w) && v.Hash? && k in v.m
    ensures RecordedBy(env, w, WritePair(env, w, v, k))
    decreases v, 0, 0
  {
    var r := WriteStr(env.codes.strs, w, Some(k));
    RecordedByStr(env, w, Some(k));
    WriteStrKept(env.codes.strs, env.foreign, w, Some(k));
    if r.Written? {
      RecordedByRef(env, r.w, v.m[k]);
      RecordedByBoth(env, w, r, WriteRef(env, r.w, v.m[k]));
    }
  }

  lemma {:induction false} RecordedByPairs(env: World, w: Writer, v: Value, keys: seq<string>)
    requires WriterOk(env.foreign, w) && v.Hash?
    ensures RecordedBy(env, w, WritePairs(env, w, v, keys))
    decreases v, 0, 1 + |keys|
  {
    if keys != [] && keys[0] in v.m {
      var r := WritePair(env, w, v, keys[0]);
      RecordedByPair(env, w, v, keys[0]);
      WritePairKept(env, w, v, keys[0]);
      if r.Written? {
        RecordedByPairs(env, r.w, v, keys[1..]);
        RecordedByBoth(env, w, r, WritePairs(env, r.w, v, keys[1..]));
      }
    }
  }
}
