/** Which items writing takes into the context: exactly those it refers to that have no context
    yet, and, for a closure, those the closure refers to. */
module Ownership {
  import opened Wrappers
  import opened Strings
  import opened Tables
  import opened Places
  import opened Values
  import opened Encoding

  /** The items a value refers to. */
  function RefsOf(v: Value): set<Ref> {
    match v
    case Obj(o) => {Ref(Objects, o)}
    case Code(c) => {Ref(Codes, c)}
    case ArrVar(vs) => RefsOfAll(vs)
    case Hash(m) => set k, r | k in m.Keys && r in RefsOf(v.m[k]) :: r
    case _ => {}
  }

  function RefsOfAll(vs: seq<Value>): set<Ref> {
    if vs == [] then {} else RefsOf(vs[0]) + RefsOfAll(vs[1..])
  }

  /** The frame a context index stands for, if it is of interest. */
  function FrameRef(env: World, owned: set<Ref>, f: Option<nat>): set<Ref> {
    if f.Some? && OfInterest(env, owned, f.value) then {Ref(Frames, f.value)} else {}
  }

  function ObjectRef(o: Option<nat>): set<Ref> {
    if o.Some? then {Ref(Objects, o.value)} else {}
  }

  /** The items a closure refers to. */
  function ClosureRefs(env: World, owned: set<Ref>, c: nat): set<Ref> {
    if c !in env.closures then {}
    else FrameRef(env, owned, env.closures[c].outer) + ObjectRef(env.closures[c].codeObject)
  }

  /** Static code has a context in both cases or in neither. */
  ghost predicate StaticsAgree(env: World, a: set<Ref>, b: set<Ref>) {
    forall c: nat :: c !in env.closures ==> (Ref(Codes, c) in a <==> Ref(Codes, c) in b)
  }

  lemma SameInterest(env: World, a: set<Ref>, b: set<Ref>, f: Option<nat>)
    requires StaticsAgree(env, a, b)
    ensures FrameRef(env, a, f) == FrameRef(env, b, f)
  {}

  lemma SameClosureRefs(env: World, a: set<Ref>, b: set<Ref>, c: nat)
    requires StaticsAgree(env, a, b)
    ensures ClosureRefs(env, a, c) == ClosureRefs(env, b, c)
  {
    if c in env.closures { SameInterest(env, a, b, env.closures[c].outer); }
  }

  /** Every item in a root list is marked with its place there. */
  ghost predicate Listed(t: Tables, own: map<Ref, Loc>, k: Kind, i: nat)
    requires i < |List(t, k)|
  {
    var r := Ref(k, List(t, k)[i]);
    r in own && own[r] == Loc(t.sc, i)
  }

  ghost predicate Listing(t: Tables, own: map<Ref, Loc>) {
    forall k: Kind, i: nat :: i < |List(t, k)| ==> Listed(t, own, k, i)
  }

  /** The closures taken in between two states have what they refer to in a context too. */
  ghost predicate CodesDone(env: World, own: map<Ref, Loc>, own': map<Ref, Loc>) {
    forall c: nat :: Ref(Codes, c) in own' && Ref(Codes, c) !in own ==> CodeDone(env, own', c)
  }

  ghost predicate CodeDone(env: World, own: map<Ref, Loc>, c: nat) {
    ClosureRefs(env, own.Keys, c) <= own.Keys
  }

  /** The set has what its closures need. */
  ghost predicate CodesClosed(env: World, own0: set<Ref>, s: set<Ref>) {
    forall c: nat :: Ref(Codes, c) in s ==> ClosureRefs(env, own0, c) <= s + own0
  }

  /** Nothing outside of `s` is taken in, if `s` has what is needed and what its closures need. */
  ghost predicate Confined(env: World, own: map<Ref, Loc>, own': map<Ref, Loc>, need: set<Ref>) {
    forall own0: set<Ref>, s: set<Ref> :: Confines(env, own, own0, s, need) ==> own'.Keys <= own.Keys + s
  }

  ghost predicate Confines(env: World, own: map<Ref, Loc>, own0: set<Ref>, s: set<Ref>, need: set<Ref>) {
    own0 <= own.Keys && StaticsAgree(env, own0, own.Keys) && CodesClosed(env, own0, s) && need <= s + own0
  }

  /** An item that was taken in is marked with the writer's own context. */
  ghost predicate NewIsHere(w: Writer, w': Writer) {
    && w'.tabs.sc == w.tabs.sc
    && forall r: Ref :: r in w'.own && r !in w.own ==> w'.own[r].sc == w.tabs.sc
  }

  /** Code that was taken in could be. */
  ghost predicate NewCodesOk(env: World, w: Writer, w': Writer) {
    forall c: nat :: Ref(Codes, c) in w'.own && Ref(Codes, c) !in w.own ==> ClosureOk(env, w, c)
  }

  /** Between two states of a writer, `need` and what comes with it was taken in. */
  ghost predicate Pulled(env: World, w: Writer, w': Writer, need: set<Ref>) {
    && need <= w'.own.Keys && NewCodesOk(env, w, w')
    && OwnExtends(w.own, w'.own) && NewIsHere(w, w') && StaticsAgree(env, w.own.Keys, w'.own.Keys)
    && CodesDone(env, w.own, w'.own)
    && Confined(env, w.own, w'.own, need)
    && (Listing(w.tabs, w.own) ==> Listing(w'.tabs, w'.own))
  }

  lemma ConfinedCompose(env: World, a: map<Ref, Loc>, b: map<Ref, Loc>, c: map<Ref, Loc>, n: set<Ref>, n': set<Ref>)
    requires OwnExtends(a, b) && StaticsAgree(env, a.Keys, b.Keys)
    requires Confined(env, a, b, n) && Confined(env, b, c, n')
    ensures Confined(env, a, c, n + n')
  {
    forall own0: set<Ref>, s: set<Ref> | Confines(env, a, own0, s, n + n') ensures c.Keys <= a.Keys + s {
      assert Confines(env, a, own0, s, n);
      assert Confines(env, b, own0, s, n');
    }
  }

  lemma CodesDoneCompose(env: World, a: map<Ref, Loc>, b: map<Ref, Loc>, c: map<Ref, Loc>)
    requires OwnExtends(b, c) && StaticsAgree(env, b.Keys, c.Keys) && CodesDone(env, a, b) && CodesDone(env, b, c)
    ensures CodesDone(env, a, c)
  {
    forall x: nat | Ref(Codes, x) in c && Ref(Codes, x) !in a ensures CodeDone(env, c, x) {
      if Ref(Codes, x) in b {
        assert CodeDone(env, b, x);
        SameClosureRefs(env, b.Keys, c.Keys, x);
      }
    }
  }

  lemma NewIsHereCompose(a: Writer, b: Writer, c: Writer)
    requires NewIsHere(a, b) && NewIsHere(b, c) && OwnExtends(b.own, c.own)
    ensures NewIsHere(a, c)
  {}

  /** A closure can be serialized in both states or in neither. */
  lemma SameClosureOk(env: World, w: Writer, w': Writer, c: nat)
    requires OwnExtends(w.own, w'.own) && NewIsHere(w, w') && StaticsAgree(env, w.own.Keys, w'.own.Keys)
    ensures ClosureOk(env, w', c) <==> ClosureOk(env, w, c)
  {
    if c in env.closures && env.closures[c].outer.Some? {
      assert Ref(Frames, env.closures[c].outer.value) in w.own ==> Ref(Frames, env.closures[c].outer.value) in w'.own;
    }
  }

  lemma NewCodesOkCompose(env: World, a: Writer, b: Writer, c: Writer)
    requires NewCodesOk(env, a, b) && NewCodesOk(env, b, c)
    requires OwnExtends(a.own, b.own) && NewIsHere(a, b) && StaticsAgree(env, a.own.Keys, b.own.Keys)
    ensures NewCodesOk(env, a, c)
  {
    forall x: nat | Ref(Codes, x) in c.own && Ref(Codes, x) !in a.own ensures ClosureOk(env, a, x) {
      SameClosureOk(env, a, b, x);
    }
  }

  lemma PulledCompose(env: World, a: Writer, b: Writer, c: Writer, n: set<Ref>, n': set<Ref>)
    requires Pulled(env, a, b, n) && Pulled(env, b, c, n')
    ensures Pulled(env, a, c, n + n')
  {
    ConfinedCompose(env, a.own, b.own, c.own, n, n');
    CodesDoneCompose(env, a.own, b.own, c.own);
    NewIsHereCompose(a, b, c);
    NewCodesOkCompose(env, a, b, c);
  }

  lemma PulledNothing(env: World, w: Writer, w': Writer)
    requires w'.own == w.own && w'.tabs.sc == w.tabs.sc && forall k :: List(w'.tabs, k) == List(w.tabs, k)
    ensures Pulled(env, w, w', {})
  {
    if Listing(w.tabs, w.own) {
      forall k: Kind, i: nat | i < |List(w'.tabs, k)| ensures Listed(w'.tabs, w'.own, k, i) {
        assert Listed(w.tabs, w.own, k, i);
      }
    }
  }

  // ----- the primitive steps

  lemma PulledByString(env: World, w: Writer, s: MString)
    ensures Pulled(env, w, AddString(w, s).0, {})
  {
    PulledNothing(env, w, AddString(w, s).0);
  }

  lemma PulledByScId(env: World, w: Writer, sc: Sc)
    ensures Pulled(env, w, ScId(w, sc).0, {})
  {
    PulledNothing(env, w, ScId(w, sc).0);
  }

  lemma ClaimListing(w: Writer, r: Ref)
    requires Listing(w.tabs, w.own) && r !in w.own
    ensures Listing(Claim(w, r).tabs, Claim(w, r).own)
  {
    var w' := Claim(w, r);
    PushExtends(w.tabs, r);
    forall k: Kind, i: nat | i < |List(w'.tabs, k)| ensures Listed(w'.tabs, w'.own, k, i) {
      if i < |List(w.tabs, k)| { assert Listed(w.tabs, w.own, k, i); }
    }
  }

  /** Taking an item in, when what it needs itself is there already. */
  lemma PulledByClaim(env: World, w: Writer, r: Ref)
    requires r.kind == Codes ==> ClosureOk(env, w, r.id) && ClosureRefs(env, w.own.Keys, r.id) <= w.own.Keys
    ensures Pulled(env, w, Claim(w, r), {r})
  {
    var w' := Claim(w, r);
    if r !in w.own && Listing(w.tabs, w.own) { ClaimListing(w, r); }
    assert w'.own.Keys == w.own.Keys + {r};
    forall c: nat | Ref(Codes, c) in w'.own && Ref(Codes, c) !in w.own ensures CodeDone(env, w'.own, c) {
      SameClosureRefs(env, w.own.Keys, w'.own.Keys, c);
    }
  }

  lemma PulledByContext(env: World, w: Writer, outer: Option<nat>)
    requires OuterIdx(env, w, outer).Ok?
    ensures Pulled(env, w, OuterIdx(env, w, outer).value.0, FrameRef(env, w.own.Keys, outer))
  {
    var w' := OuterIdx(env, w, outer).value.0;
    if outer.Some? && Ref(Frames, outer.value) !in w.own && FrameRef(env, w.own.Keys, outer) != {} {
      PulledByClaim(env, w, Ref(Frames, outer.value));
    } else {
      PulledNothing(env, w, w');
      PulledMore(env, w, w', {}, FrameRef(env, w.own.Keys, outer));
    }
  }

  /** What has a context already may be counted among what is needed. */
  lemma PulledMore(env: World, w: Writer, w': Writer, need: set<Ref>, more: set<Ref>)
    requires Pulled(env, w, w', need) && more <= w'.own.Keys
    ensures Pulled(env, w, w', need + more)
  {
    forall own0: set<Ref>, s: set<Ref> | Confines(env, w.own, own0, s, need + more)
      ensures w'.own.Keys <= w.own.Keys + s
    {
      assert Confines(env, w.own, own0, s, need);
    }
  }

  lemma PulledByPlace(env: World, w: Writer, w1: Writer, r: Ref, need: set<Ref>)
    requires r in w1.own && Pulled(env, w, w1, need)
    ensures Pulled(env, w, PlaceOf(w1, r).0, need)
  {
    PulledByScId(env, w1, w1.own[r].sc);
    PulledCompose(env, w, w1, PlaceOf(w1, r).0, need, {});
    assert need + {} == need;
  }

  lemma PulledByCodeObject(env: World, w: Writer, o: Option<nat>)
    ensures Pulled(env, w, CodeObjectRow(w, o).0, ObjectRef(o))
  {
    if o.Some? {
      PulledByClaim(env, w, Ref(Objects, o.value));
      PulledByPlace(env, w, Claim(w, Ref(Objects, o.value)), Ref(Objects, o.value), ObjectRef(o));
    } else {
      PulledNothing(env, w, w);
    }
  }

  lemma PulledByEntry(env: World, w: Writer, c: nat)
    requires c in env.closures && HasStatic(env, w.own.Keys, env.closures[c].staticCode)
    requires ClosureEntry(env, w, env.closures[c]).Ok?
    ensures Pulled(env, w, ClosureEntry(env, w, env.closures[c]).value.0, ClosureRefs(env, w.own.Keys, c))
  {
    var cl := env.closures[c];
    var w1 := OuterIdx(env, w, cl.outer).value.0;
    var n1 := FrameRef(env, w.own.Keys, cl.outer);
    PulledByContext(env, w, cl.outer);
    var w2 := PlaceOf(w1, Ref(Codes, cl.staticCode.value)).0;
    PulledByPlace(env, w, w1, Ref(Codes, cl.staticCode.value), n1);
    var w3 := CodeObjectRow(w2, cl.codeObject).0;
    PulledByCodeObject(env, w2, cl.codeObject);
    PulledCompose(env, w, w2, w3, n1, ObjectRef(cl.codeObject));
    PulledByString(env, w3, cl.name);
    PulledCompose(env, w, w3, AddString(w3, cl.name).0, n1 + ObjectRef(cl.codeObject), {});
    assert n1 + ObjectRef(cl.codeObject) + {} == ClosureRefs(env, w.own.Keys, c);
  }

  /** What a closure needs need not be named beside the closure. */
  lemma ClosureIsEnough(env: World, w: Writer, w': Writer, c: nat)
    requires Ref(Codes, c) !in w.own && Pulled(env, w, w', ClosureRefs(env, w.own.Keys, c) + {Ref(Codes, c)})
    ensures Pulled(env, w, w', {Ref(Codes, c)})
  {
    forall own0: set<Ref>, s: set<Ref> | Confines(env, w.own, own0, s, {Ref(Codes, c)})
      ensures w'.own.Keys <= w.own.Keys + s
    {
      assert Ref(Codes, c) in s;
      SameClosureRefs(env, own0, w.own.Keys, c);
      assert Confines(env, w.own, own0, s, ClosureRefs(env, w.own.Keys, c) + {Ref(Codes, c)});
    }
  }

  lemma PulledByClosure(env: World, w: Writer, c: nat)
    requires Ref(Codes, c) !in w.own && SerializeClosure(env, w, c).Ok?
    ensures Pulled(env, w, SerializeClosure(env, w, c).value, {Ref(Codes, c)})
  {
    var (w4, row) := ClosureEntry(env, w, env.closures[c]).value;
    PulledByEntry(env, w, c);
    PulledAtLast(env, w, w4, row, c);
  }

  lemma PulledAtLast(env: World, w: Writer, w4: Writer, row: ClosureRow, c: nat)
    requires Ref(Codes, c) !in w.own && ClosureOk(env, w, c) && Pulled(env, w, w4, ClosureRefs(env, w.own.Keys, c))
    ensures Pulled(env, w, Claim(AddClosure(w4, row), Ref(Codes, c)), {Ref(Codes, c)})
  {
    var w5 := AddClosure(w4, row);
    var w6, need := Claim(w5, Ref(Codes, c)), ClosureRefs(env, w.own.Keys, c);
    PulledNothing(env, w4, w5);
    PulledCompose(env, w, w4, w5, need, {});
    assert need + {} == need;
    SameClosureRefs(env, w.own.Keys, w5.own.Keys, c);
    SameClosureOk(env, w, w5, c);
    PulledByClaim(env, w5, Ref(Codes, c));
    PulledCompose(env, w, w5, w6, need, {Ref(Codes, c)});
    ClosureIsEnough(env, w, w6, c);
  }

  // ----- values

  ghost predicate PulledBy(env: World, w: Writer, r: Written, need: set<Ref>) {
    r.Written? ==> Pulled(env, w, r.w, need)
  }

  lemma PulledByStr(env: World, w: Writer, s: MString)
    ensures PulledBy(env, w, WriteStr(env.codes.strs, w, s), {})
  {
    PulledByString(env, w, s);
  }

  lemma PulledByLoc(env: World, w: Writer, w1: Writer, loc: Loc, need: set<Ref>)
    requires Pulled(env, w, w1, need)
    ensures PulledBy(env, w, WriteLoc(env.codes.places, w1, loc), need)
  {
    PulledByScId(env, w1, loc.sc);
    PulledCompose(env, w, w1, ScId(w1, loc.sc).0, need, {});
    assert need + {} == need;
  }

  lemma PulledByItem(env: World, w: Writer, r: Ref)
    requires r.kind != Codes
    ensures PulledBy(env, w, WriteItem(env, w, r), {r})
  {
    var w1 := Claim(w, r);
    PulledByClaim(env, w, r);
    PulledByLoc(env, w, w1, w1.own[r], {r});
  }

  lemma PulledByCode(env: World, w: Writer, c: nat)
    ensures PulledBy(env, w, WriteCodeRef(env, w, c), {Ref(Codes, c)})
  {
    var w1 := Anchored(env, w, c);
    if w1.Ok? {
      if Ref(Codes, c) in w.own {
        PulledNothing(env, w, w);
      } else {
        PulledByClosure(env, w, c);
      }
      assert Pulled(env, w, w1.value, {Ref(Codes, c)});
      PulledByLoc(env, w, w1.value, w1.value.own[Ref(Codes, c)], {Ref(Codes, c)});
    }
  }

  lemma {:induction false} PulledByStrs(env: World, w: Writer, ss: seq<MString>)
    ensures PulledBy(env, w, WriteStrs(env.codes.strs, w, ss), {})
    decreases |ss|
  {
    if ss == [] {
      PulledNothing(env, w, w);
    } else {
      var r := WriteStr(env.codes.strs, w, ss[0]);
      PulledByStr(env, w, ss[0]);
      if r.Written? {
        PulledByStrs(env, r.w, ss[1..]);
        PulledByBoth(env, w, r, WriteStrs(env.codes.strs, r.w, ss[1..]), {}, {});
      }
    }
  }

  lemma PulledByBoth(env: World, w: Writer, r: Written, r': Written, n: set<Ref>, n': set<Ref>)
    requires r.Written? && PulledBy(env, w, r, n) && PulledBy(env, r.w, r', n')
    ensures PulledBy(env, w, Both(r, r'), n + n')
  {
    if r'.Written? { PulledCompose(env, w, r.w, r'.w, n, n'); }
  }

  lemma {:induction false} PulledByBody(env: World, w: Writer, v: Value)
    requires Enumerates(env.iter)
    ensures PulledBy(env, w, WriteBody(env, w, v), RefsOf(v))
    decreases v, 1, 0
  {
    match v
    case Str(s) => PulledByStr(env, w, s);
    case ScRef(h) => PulledByStr(env, w, Some(h));
    case ArrVar(vs) => PulledByRefs(env, w, vs);
    case ArrStr(ss) => PulledByStrs(env, w, ss);
    case ArrInt(ns) => WriteIntsKept(env.codes.ints, w, ns); PulledNothing(env, w, w);
    case Hash(m) => PulledByPairs(env, w, v, Keys(env, m)); AllPairRefs(env, v);
    case Obj(o) => PulledByItem(env, w, Ref(Objects, o));
    case Code(c) => PulledByCode(env, w, c);
    case _ => PulledNothing(env, w, w);
  }

  /** Writing a value takes in what the value refers to and has no context, and nothing that is
      not needed for that. */
  lemma {:induction false} PulledByRef(env: World, w: Writer, v: Value)
    requires Enumerates(env.iter)
    ensures PulledBy(env, w, WriteRef(env, w, v), RefsOf(v))
    decreases v, 2, 0
  {
    PulledByBody(env, w, v);
  }

  lemma {:induction false} PulledByRefs(env: World, w: Writer, vs: seq<Value>)
    requires Enumerates(env.iter)
    ensures PulledBy(env, w, WriteRefs(env, w, vs), RefsOfAll(vs))
    decreases vs, 0, 0
  {
    if vs == [] {
      PulledNothing(env, w, w);
    } else {
      var r := WriteRef(env, w, vs[0]);
      PulledByRef(env, w, vs[0]);
      if r.Written? {
        PulledByRefs(env, r.w, vs[1..]);
        PulledByBoth(env, w, r, WriteRefs(env, r.w, vs[1..]), RefsOf(vs[0]), RefsOfAll(vs[1..]));
      }
    }
  }

  function PairRefs(v: Value, keys: seq<string>): set<Ref>
    requires v.Hash?
  {
    set k, r | k in keys && k in v.m && r in RefsOf(v.m[k]) :: r
  }

  lemma PairRefsStep(v: Value, keys: seq<string>)
    requires v.Hash? && keys != [] && keys[0] in v.m
    ensures PairRefs(v, keys) == RefsOf(v.m[keys[0]]) + PairRefs(v, keys[1..])
  {
    assert keys == [keys[0]] + keys[1..];
  }

  lemma AllPairRefs(env: World, v: Value)
    requires Enumerates(env.iter) && v.Hash?
    ensures PairRefs(v, Keys(env, v.m)) == RefsOf(v)
  {
    forall k ensures k in Keys(env, v.m) <==> k in v.m { assert k in env.iter(v.m.Keys) <==> k in v.m.Keys; }
  }

  lemma {:induction false} PulledByPair(env: World, w: Writer, v: Value, k: string)
    requires Enumerates(env.iter) && v.Hash? && k in v.m
    ensures PulledBy(env, w, WritePair(env, w, v, k), RefsOf(v.m[k]))
    decreases v, 0, 0
  {
    var r := WriteStr(env.codes.strs, w, Some(k));
    PulledByStr(env, w, Some(k));
    if r.Written? {
      PulledByRef(env, r.w, v.m[k]);
      PulledByBoth(env, w, r, WriteRef(env, r.w, v.m[k]), {}, RefsOf(v.m[k]));
      assert {} + RefsOf(v.m[k]) == RefsOf(v.m[k]);
    }
  }

  lemma {:induction false} PulledByPairs(env: World, w: Writer, v: Value, keys: seq<string>)
    requires Enumerates(env.iter) && v.Hash?
    ensures PulledBy(env, w, WritePairs(env, w, v, keys), PairRefs(v, keys))
    decreases v, 0, 1 + |keys|
  {
    if keys == [] {
      PulledNothing(env, w, w);
      assert PairRefs(v, keys) == {};
    } else if keys[0] in v.m {
      var r := WritePair(env, w, v, keys[0]);
      PulledByPair(env, w, v, keys[0]);
      if r.Written? {
        PulledByPairs(env, r.w, v, keys[1..]);
        PulledByBoth(env, w, r, WritePairs(env, r.w, v, keys[1..]), RefsOf(v.m[keys[0]]), PairRefs(v, keys[1..]));
        PairRefsStep(v, keys);
      }
    }
  }
}
