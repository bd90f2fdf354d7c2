/** When writing does not throw (src/6model/serialization.c): exactly if counts fit and code can be
    referred to, as long as the tables have room. */
module Writability {
  import opened Wrappers
  import opened IntCode
  import opened Codes
  import opened Packing
  import opened Strings
  import opened Tables
  import opened Places
  import opened Values
  import opened Encoding
  import opened Ownership
  import opened Parts

  /** Codes for all 64-bit numbers, and for indices of 31 bits. */
  ghost predicate Encodes31(c: Codings) {
    && (forall i: Int64 :: c.ints.fits(i)) && (forall x: Num64 :: c.nums.fits(x))
    && (forall i: nat :: c.strs.fits(i) <==> i < LIMIT)
    && (forall p: Place :: c.places.fits(p) <==> p.id < LIMIT && p.idx < LIMIT)
  }

  /** The serializer's own are such codes. */
  lemma FormatEncodes()
    ensures Encodes31(Format())
  {}

  /** The tables can grow by `n` entries and stay below 2^31, as all indices in marks are. */
  ghost predicate Room(w: Writer, n: nat) {
    && |w.tabs.heap| + n <= LIMIT && |w.tabs.deps| + n < LIMIT
    && (forall k: Kind :: |List(w.tabs, k)| + n <= LIMIT)
    && (forall r: Ref :: r in w.own ==> w.own[r].idx < LIMIT)
  }

  lemma RoomLess(w: Writer, n: nat, m: nat)
    requires Room(w, n) && m <= n
    ensures Room(w, m)
  {}

  /** A write throws or not, and if not it leaves room for `n` more. */
  ghost predicate Decided(r: Written, ok: bool, n: nat) {
    (r.Written? <==> ok) && (r.Written? ==> Room(r.w, n))
  }

  // ----- strings, dependencies and marks

  lemma StringRoom(f: Foreign, w: Writer, s: MString, n: nat)
    requires WriterOk(f, w) && Room(w, n + 1)
    ensures AddString(w, s).1 < LIMIT && Room(AddString(w, s).0, n)
  {
    var w' := AddString(w, s).0;
    assert forall k: Kind :: List(w'.tabs, k) == List(w.tabs, k);
  }

  lemma ScIdRoom(f: Foreign, w: Writer, sc: Sc, n: nat)
    requires WriterOk(f, w) && Room(w, n + 2)
    ensures ScId(w, sc).1 < LIMIT && Room(ScId(w, sc).0, n)
  {
    if sc != w.tabs.sc && sc !in w.tabs.deps {
      var w1 := AddString(w, Some(sc.handle)).0;
      AddStringOk(f, w, Some(sc.handle));
      StringRoom(f, w, Some(sc.handle), n + 1);
      StringRoom(f, w1, sc.description, n);
      ScIdLists(w, sc);
    } else {
      RoomLess(w, n + 2, n);
    }
  }

  lemma ScIdLists(w: Writer, sc: Sc)
    ensures var w' := ScId(w, sc).0;
            && w'.own == w.own && (forall k: Kind :: List(w'.tabs, k) == List(w.tabs, k))
            && |w'.tabs.deps| <= |w.tabs.deps| + 1
  {}

  lemma ClaimRoom(w: Writer, r: Ref, n: nat)
    requires Room(w, n + 1)
    ensures Room(Claim(w, r), n)
  {
    var w' := Claim(w, r);
    forall k: Kind ensures |List(w'.tabs, k)| + n <= LIMIT {
      assert |List(w.tabs, k)| + (n + 1) <= LIMIT;
    }
    assert |List(w.tabs, r.kind)| + (n + 1) <= LIMIT;
  }

  lemma LocRoom(env: World, w: Writer, loc: Loc, n: nat)
    requires Encodes31(env.codes) && WriterOk(env.foreign, w) && Room(w, n + 2) && loc.idx < LIMIT
    ensures Decided(WriteLoc(env.codes.places, w, loc), true, n)
  {
    ScIdRoom(env.foreign, w, loc.sc, n);
  }

  lemma StrRoom(env: World, w: Writer, s: MString, n: nat)
    requires Encodes31(env.codes) && WriterOk(env.foreign, w) && Room(w, n + 1)
    ensures Decided(WriteStr(env.codes.strs, w, s), true, n)
  {
    StringRoom(env.foreign, w, s, n);
  }

  lemma ItemRoom(env: World, w: Writer, r: Ref, n: nat)
    requires Encodes31(env.codes) && WriterOk(env.foreign, w) && Room(w, n + 3)
    ensures Decided(WriteItem(env, w, r), true, n)
  {
    ClaimRoom(w, r, n + 2);
    ClaimOk(env.foreign, w, r);
    LocRoom(env, Claim(w, r), Claim(w, r).own[r], n);
  }

  lemma PlaceRoom(f: Foreign, w: Writer, r: Ref, n: nat)
    requires WriterOk(f, w) && Room(w, n + 2) && r in w.own
    ensures var (w', place) := PlaceOf(w, r); place.id < LIMIT && place.idx < LIMIT && Room(w', n)
  {
    ScIdRoom(f, w, w.own[r].sc, n);
  }

  // ----- closures

  lemma OuterRoom(env: World, w: Writer, outer: Option<nat>, n: nat)
    requires Room(w, n + 1)
    ensures OuterIdx(env, w, outer).Ok? <==> OuterOk(w, outer)
    ensures OuterIdx(env, w, outer).Ok? ==> Room(OuterIdx(env, w, outer).value.0, n)
  {
    RoomLess(w, n + 1, n);
    if outer.Some? { ClaimRoom(w, Ref(Frames, outer.value), n); }
  }

  lemma CodeObjectRoom(f: Foreign, w: Writer, o: Option<nat>, n: nat)
    requires WriterOk(f, w) && Room(w, n + 3)
    ensures Room(CodeObjectRow(w, o).0, n)
  {
    if o.Some? {
      var r := Ref(Objects, o.value);
      ClaimRoom(w, r, n + 2);
      ClaimOk(f, w, r);
      PlaceRoom(f, Claim(w, r), r, n);
    } else {
      RoomLess(w, n + 3, n);
    }
  }

  lemma EntryRoom(env: World, w: Writer, cl: Closure, n: nat)
    requires WriterOk(env.foreign, w) && HasStatic(env, w.own.Keys, cl.staticCode) && Room(w, n + 7)
    ensures ClosureEntry(env, w, cl).Ok? <==> OuterOk(w, cl.outer)
    ensures ClosureEntry(env, w, cl).Ok? ==> Room(ClosureEntry(env, w, cl).value.0, n)
  {
    OuterRoom(env, w, cl.outer, n + 6);
    if OuterOk(w, cl.outer) {
      var f, r := env.foreign, Ref(Codes, cl.staticCode.value);
      var w1 := OuterIdx(env, w, cl.outer).value.0;
      OuterIdxKept(env, w, cl.outer);
      PlaceRoom(f, w1, r, n + 4);
      PlaceOfOk(f, w1, r);
      var w2 := PlaceOf(w1, r).0;
      CodeObjectRoom(f, w2, cl.codeObject, n + 1);
      CodeObjectRowOk(f, w2, cl.codeObject);
      StringRoom(f, CodeObjectRow(w2, cl.codeObject).0, cl.name, n);
    }
  }

  lemma AddClosureRoom(w: Writer, row: ClosureRow, n: nat)
    requires Room(w, n)
    ensures Room(AddClosure(w, row), n)
  {}

  /** A closure is serialized exactly if it can be. */
  lemma ClosureRoom(env: World, w: Writer, c: nat, n: nat)
    requires WriterOk(env.foreign, w) && Room(w, n + 8)
    ensures SerializeClosure(env, w, c).Ok? <==> ClosureOk(env, w, c)
    ensures SerializeClosure(env, w, c).Ok? ==> Room(SerializeClosure(env, w, c).value, n)
  {
    if c in env.closures && HasStatic(env, w.own.Keys, env.closures[c].staticCode) {
      EntryRoom(env, w, env.closures[c], n + 1);
      var entry := ClosureEntry(env, w, env.closures[c]);
      if entry.Ok? {
        AddClosureRoom(entry.value.0, entry.value.1, n + 1);
        ClaimRoom(AddClosure(entry.value.0, entry.value.1), Ref(Codes, c), n);
      }
    }
  }

  /** What that asks for: static code that is no closure and has a context, and an outer frame that is
      in no other context than the writer's. */
  lemma ClosureOkIff(env: World, w: Writer, c: nat)
    ensures ClosureOk(env, w, c) <==>
              && c in env.closures
              && (exists x: nat ::
                    env.closures[c].staticCode == Some(x) && x !in env.closures && Ref(Codes, x) in w.own)
              && (forall f: nat :: env.closures[c].outer == Some(f) && Ref(Frames, f) in w.own ==>
                    w.own[Ref(Frames, f)].sc == w.tabs.sc)
  {
    if c in env.closures && env.closures[c].staticCode.Some? {
      var x := env.closures[c].staticCode.value;
      assert env.closures[c].staticCode == Some(x);
    }
  }

  lemma CodeRoom(env: World, w: Writer, c: nat, n: nat)
    requires Encodes31(env.codes) && WriterOk(env.foreign, w) && Room(w, n + 10)
    ensures Decided(WriteCodeRef(env, w, c), CodeOk(env, w, c), n)
  {
    ClosureRoom(env, w, c, n + 2);
    RoomLess(w, n + 10, n + 2);
    var w1 := Anchored(env, w, c);
    if w1.Ok? {
      AnchoredOk(env, w, c);
      LocRoom(env, w1.value, w1.value.own[Ref(Codes, c)], n);
    }
  }

  // ----- values

  /** Counts fit 31 bits, and all code can be referred to. */
  ghost predicate Writable(env: World, w: Writer, v: Value)
    decreases v
  {
    match v
    case ArrVar(vs) => |vs| < LIMIT && forall i | 0 <= i < |vs| :: Writable(env, w, vs[i])
    case ArrStr(ss) => |ss| < LIMIT
    case ArrInt(ns) => |ns| < LIMIT
    case Hash(m) => |Keys(env, m)| < LIMIT && forall k | k in m :: Writable(env, w, m[k])
    case Code(c) => CodeOk(env, w, c)
    case _ => true
  }

  /** By how much the tables may grow. */
  function Weight(env: World, v: Value): nat
    decreases v, 1, 0
  {
    match v
    case Str(_) => 1
    case ArrVar(vs) => WeightAll(env, vs)
    case ArrStr(ss) => |ss|
    case Hash(m) => PairsWeight(env, v, Keys(env, m))
    case Obj(_) => 3
    case Code(_) => 10
    case ScRef(_) => 1
    case _ => 0
  }

  function WeightAll(env: World, vs: seq<Value>): nat
    decreases vs, 0, 0
  {
    if vs == [] then 0 else Weight(env, vs[0]) + WeightAll(env, vs[1..])
  }

  function PairsWeight(env: World, v: Value, keys: seq<string>): nat
    requires v.Hash?
    decreases v, 0, 1 + |keys|
  {
    if keys == [] then 0
    else if keys[0] !in v.m then 0
    else 1 + Weight(env, v.m[keys[0]]) + PairsWeight(env, v, keys[1..])
  }

  /** What matters for writing is the same in both states. */
  ghost predicate SameConditions(env: World, w: Writer, w': Writer) {
    && StaticsAgree(env, w.own.Keys, w'.own.Keys)
    && (forall c: nat :: CodeOk(env, w', c) <==> CodeOk(env, w, c))
    && (forall outer: Option<nat> :: OuterOk(w', outer) <==> OuterOk(w, outer))
  }

  lemma SameOuterOk(w: Writer, w': Writer, outer: Option<nat>)
    requires OwnExtends(w.own, w'.own) && NewIsHere(w, w')
    ensures OuterOk(w', outer) <==> OuterOk(w, outer)
  {
    if outer.Some? { assert Ref(Frames, outer.value) in w.own ==> Ref(Frames, outer.value) in w'.own; }
  }

  /** Writing does not change what can be written. */
  lemma PulledSame(env: World, w: Writer, w': Writer)
    requires OwnExtends(w.own, w'.own) && NewIsHere(w, w') && StaticsAgree(env, w.own.Keys, w'.own.Keys)
    requires NewCodesOk(env, w, w')
    ensures SameConditions(env, w, w')
  {
    forall c: nat ensures CodeOk(env, w', c) <==> CodeOk(env, w, c) { SameClosureOk(env, w, w', c); }
    forall outer: Option<nat> ensures OuterOk(w', outer) <==> OuterOk(w, outer) { SameOuterOk(w, w', outer); }
  }

  lemma {:induction false} WritableSame(env: World, w: Writer, w': Writer, v: Value)
    requires SameConditions(env, w, w')
    ensures Writable(env, w', v) <==> Writable(env, w, v)
    decreases v
  {
    match v
    case ArrVar(vs) =>
      forall i | 0 <= i < |vs| ensures Writable(env, w', vs[i]) <==> Writable(env, w, vs[i]) {
        WritableSame(env, w, w', vs[i]);
      }
    case Hash(m) =>
      forall k | k in m ensures Writable(env, w', m[k]) <==> Writable(env, w, m[k]) {
        WritableSame(env, w, w', m[k]);
      }
    case _ =>
  }

  ghost predicate AllWritable(env: World, w: Writer, vs: seq<Value>) {
    forall i | 0 <= i < |vs| :: Writable(env, w, vs[i])
  }

  ghost predicate PairsWritable(env: World, w: Writer, m: map<string, Value>, keys: seq<string>) {
    forall i | 0 <= i < |keys| :: keys[i] in m && Writable(env, w, m[keys[i]])
  }

  lemma AllSame(env: World, w: Writer, w': Writer, vs: seq<Value>)
    requires SameConditions(env, w, w')
    ensures AllWritable(env, w', vs) <==> AllWritable(env, w, vs)
  {
    forall i | 0 <= i < |vs| ensures Writable(env, w', vs[i]) <==> Writable(env, w, vs[i]) {
      WritableSame(env, w, w', vs[i]);
    }
  }

  lemma PairsSame(env: World, w: Writer, w': Writer, m: map<string, Value>, keys: seq<string>)
    requires SameConditions(env, w, w')
    ensures PairsWritable(env, w', m, keys) <==> PairsWritable(env, w, m, keys)
  {
    forall i | 0 <= i < |keys| && keys[i] in m
      ensures Writable(env, w', m[keys[i]]) <==> Writable(env, w, m[keys[i]])
    {
      WritableSame(env, w, w', m[keys[i]]);
    }
  }

  lemma AllStep(env: World, w: Writer, vs: seq<Value>)
    requires vs != []
    ensures AllWritable(env, w, vs) <==> Writable(env, w, vs[0]) && AllWritable(env, w, vs[1..])
  {
    assert vs == [vs[0]] + vs[1..];
  }

  lemma PairsStep(env: World, w: Writer, m: map<string, Value>, keys: seq<string>)
    requires keys != []
    ensures PairsWritable(env, w, m, keys)
       <==> keys[0] in m && Writable(env, w, m[keys[0]]) && PairsWritable(env, w, m, keys[1..])
  {
    assert keys == [keys[0]] + keys[1..];
  }

  lemma KeysWritable(env: World, w: Writer, m: map<string, Value>)
    requires Enumerates(env.iter)
    ensures PairsWritable(env, w, m, Keys(env, m)) <==> forall k | k in m :: Writable(env, w, m[k])
  {
    var keys := Keys(env, m);
    forall k ensures k in keys <==> k in m { assert k in env.iter(m.Keys) <==> k in m.Keys; }
    if PairsWritable(env, w, m, keys) {
      forall k | k in m ensures Writable(env, w, m[k]) { assert k in keys; }
    }
    forall i | 0 <= i < |keys| ensures keys[i] in m { assert keys[i] in keys; }
  }

  lemma {:induction false} IntsWritten(c: Coding<Int64>, w: Writer, ns: seq<Int64>)
    requires forall i: Int64 :: c.fits(i)
    ensures WriteInts(c, w, ns).Written? && WriteInts(c, w, ns).w == w
    decreases |ns|
  {
    if ns != [] { IntsWritten(c, w, ns[1..]); }
  }

  lemma {:induction false} StrsDecided(env: World, w: Writer, ss: seq<MString>, n: nat)
    requires Encodes31(env.codes) && WriterOk(env.foreign, w) && Room(w, |ss| + n)
    ensures Decided(WriteStrs(env.codes.strs, w, ss), true, n)
    decreases |ss|
  {
    if ss != [] {
      StrRoom(env, w, ss[0], |ss| - 1 + n);
      WriteStrKept(env.codes.strs, env.foreign, w, ss[0]);
      StrsDecided(env, WriteStr(env.codes.strs, w, ss[0]).w, ss[1..], n);
    }
  }

  lemma LeafDecided(env: World, w: Writer, v: Value, n: nat)
    requires Encodes31(env.codes) && WriterOk(env.foreign, w) && Leaf(v) && Room(w, Weight(env, v) + n)
    ensures Decided(WriteBody(env, w, v), Writable(env, w, v), n)
  {
    match v
    case Str(s) => StrRoom(env, w, s, n);
    case Obj(o) => ItemRoom(env, w, Ref(Objects, o), n);
    case Code(c) => CodeRoom(env, w, c, n);
    case ScRef(h) => StrRoom(env, w, Some(h), n);
    case _ =>
  }

  lemma CountedDecided(env: World, count: nat, r: Written, ok: bool, n: nat)
    requires Encodes31(env.codes) && Decided(r, ok, n)
    ensures Decided(Counted(env.codes.ints, count, r), count < LIMIT && ok, n)
  {}

  lemma {:induction false} BodyDecided(env: World, w: Writer, v: Value, n: nat)
    requires Encodes31(env.codes) && WriterOk(env.foreign, w) && Enumerates(env.iter) && Room(w, Weight(env, v) + n)
    ensures Decided(WriteBody(env, w, v), Writable(env, w, v), n)
    decreases v, 1, 0
  {
    match v
    case ArrVar(vs) =>
      RefsDecided(env, w, vs, n);
      CountedDecided(env, |vs|, WriteRefs(env, w, vs), AllWritable(env, w, vs), n);
    case ArrStr(ss) =>
      StrsDecided(env, w, ss, n);
      CountedDecided(env, |ss|, WriteStrs(env.codes.strs, w, ss), true, n);
    case ArrInt(ns) =>
      IntsWritten(env.codes.ints, w, ns);
      CountedDecided(env, |ns|, WriteInts(env.codes.ints, w, ns), true, n);
    case Hash(m) =>
      var keys := Keys(env, m);
      PairsDecided(env, w, v, keys, n);
      KeysWritable(env, w, m);
      CountedDecided(env, |keys|, WritePairs(env, w, v, keys), PairsWritable(env, w, m, keys), n);
    case _ => LeafDecided(env, w, v, n);
  }

  /** Given room, `write_ref` throws exactly if a count does not fit 31 bits, or if code is referred
      to that has no context and is no closure that can be serialized. */
  lemma {:induction false} RefDecided(env: World, w: Writer, v: Value, n: nat)
    requires Encodes31(env.codes) && WriterOk(env.foreign, w) && Enumerates(env.iter) && Room(w, Weight(env, v) + n)
    ensures Decided(WriteRef(env, w, v), Writable(env, w, v), n)
    decreases v, 2, 0
  {
    BodyDecided(env, w, v, n);
  }

  /** After a write, the writer is good and the same can be written. */
  lemma AfterRef(env: World, w: Writer, v: Value)
    requires WriterOk(env.foreign, w) && Enumerates(env.iter) && WriteRef(env, w, v).Written?
    ensures WriterOk(env.foreign, WriteRef(env, w, v).w) && SameConditions(env, w, WriteRef(env, w, v).w)
  {
    WriteRefKept(env, w, v);
    PulledByRef(env, w, v);
    PulledSame(env, w, WriteRef(env, w, v).w);
  }

  lemma {:induction false} RefsDecided(env: World, w: Writer, vs: seq<Value>, n: nat)
    requires Encodes31(env.codes) && WriterOk(env.foreign, w) && Enumerates(env.iter) && Room(w, WeightAll(env, vs) + n)
    ensures Decided(WriteRefs(env, w, vs), AllWritable(env, w, vs), n)
    decreases vs, 0, 0
  {
    if vs != [] {
      AllStep(env, w, vs);
      RefDecided(env, w, vs[0], WeightAll(env, vs[1..]) + n);
      var r := WriteRef(env, w, vs[0]);
      if r.Written? {
        AfterRef(env, w, vs[0]);
        RefsDecided(env, r.w, vs[1..], n);
        AllSame(env, w, r.w, vs[1..]);
      }
    }
  }

  lemma {:induction false} PairDecided(env: World, w: Writer, v: Value, k: string, n: nat)
    requires Encodes31(env.codes) && WriterOk(env.foreign, w) && Enumerates(env.iter) && v.Hash? && k in v.m
    requires Room(w, 1 + Weight(env, v.m[k]) + n)
    ensures Decided(WritePair(env, w, v, k), Writable(env, w, v.m[k]), n)
    decreases v, 0, 0
  {
    var r := WriteStr(env.codes.strs, w, Some(k));
    StrRoom(env, w, Some(k), Weight(env, v.m[k]) + n);
    WriteStrKept(env.codes.strs, env.foreign, w, Some(k));
    PulledByStr(env, w, Some(k));
    PulledSame(env, w, r.w);
    RefDecided(env, r.w, v.m[k], n);
    WritableSame(env, w, r.w, v.m[k]);
  }

  lemma AfterPair(env: World, w: Writer, v: Value, k: string)
    requires WriterOk(env.foreign, w) && Enumerates(env.iter) && v.Hash? && k in v.m && WritePair(env, w, v, k).Written?
    ensures WriterOk(env.foreign, WritePair(env, w, v, k).w) && SameConditions(env, w, WritePair(env, w, v, k).w)
  {
    WritePairKept(env, w, v, k);
    PulledByPair(env, w, v, k);
    PulledSame(env, w, WritePair(env, w, v, k).w);
  }

  lemma {:induction false} PairsDecided(env: World, w: Writer, v: Value, keys: seq<string>, n: nat)
    requires Encodes31(env.codes) && WriterOk(env.foreign, w) && Enumerates(env.iter) && v.Hash?
    requires Room(w, PairsWeight(env, v, keys) + n)
    ensures Decided(WritePairs(env, w, v, keys), PairsWritable(env, w, v.m, keys), n)
    decreases v, 0, 1 + |keys|
  {
    if keys != [] {
      PairsStep(env, w, v.m, keys);
      if keys[0] in v.m {
        PairDecided(env, w, v, keys[0], PairsWeight(env, v, keys[1..]) + n);
        var r := WritePair(env, w, v, keys[0]);
        if r.Written? {
          AfterPair(env, w, v, keys[0]);
          PairsDecided(env, r.w, v, keys[1..], n);
          PairsSame(env, w, r.w, v.m, keys[1..]);
        }
      }
    }
  }

  // ----- bodies

  ghost predicate PartWritable(env: World, w: Writer, p: Part) {
    match p
    case AnyRef(v) => Writable(env, w, v)
    case ItemRef(_) => PartOk(p)
    case RawBytes(bytes) => |bytes| < LIMIT
    case _ => true
  }

  function PartWeight(env: World, p: Part): nat {
    match p
    case AnyRef(v) => Weight(env, v)
    case ItemRef(_) => 3
    case RawStr(_) => 1
    case _ => 0
  }

  function PartsWeight(env: World, ps: seq<Part>): nat {
    if ps == [] then 0 else PartWeight(env, ps[0]) + PartsWeight(env, ps[1..])
  }

  ghost predicate PartsWritable(env: World, w: Writer, ps: seq<Part>) {
    forall i | 0 <= i < |ps| :: PartWritable(env, w, ps[i])
  }

  lemma PartSame(env: World, w: Writer, w': Writer, p: Part)
    requires SameConditions(env, w, w')
    ensures PartWritable(env, w', p) <==> PartWritable(env, w, p)
  {
    if p.AnyRef? { WritableSame(env, w, w', p.v); }
  }

  lemma PartsSame(env: World, w: Writer, w': Writer, ps: seq<Part>)
    requires SameConditions(env, w, w')
    ensures PartsWritable(env, w', ps) <==> PartsWritable(env, w, ps)
  {
    forall i | 0 <= i < |ps| ensures PartWritable(env, w', ps[i]) <==> PartWritable(env, w, ps[i]) {
      PartSame(env, w, w', ps[i]);
    }
  }

  lemma PartDecided(env: World, w: Writer, p: Part, n: nat)
    requires Encodes31(env.codes) && WriterOk(env.foreign, w) && Enumerates(env.iter) && Room(w, PartWeight(env, p) + n)
    ensures Decided(WritePart(env, w, p), PartWritable(env, w, p), n)
  {
    match p
    case AnyRef(v) => RefDecided(env, w, v, n);
    case ItemRef(r) => if PartOk(p) { ItemRoom(env, w, r, n); }
    case RawStr(s) => StrRoom(env, w, s, n);
    case _ =>
  }

  lemma AfterPart(env: World, w: Writer, p: Part)
    requires WriterOk(env.foreign, w) && Enumerates(env.iter) && WritePart(env, w, p).Written?
    ensures WriterOk(env.foreign, WritePart(env, w, p).w) && SameConditions(env, w, WritePart(env, w, p).w)
  {
    PartKept(env, w, p);
    PulledByPart(env, w, p);
    PulledSame(env, w, WritePart(env, w, p).w);
  }

  lemma PartsStep(env: World, w: Writer, ps: seq<Part>)
    requires ps != []
    ensures PartsWritable(env, w, ps) <==> PartWritable(env, w, ps[0]) && PartsWritable(env, w, ps[1..])
  {
    assert ps == [ps[0]] + ps[1..];
  }

  /** The same for a body. */
  lemma {:induction false} PartsDecided(env: World, w: Writer, ps: seq<Part>, n: nat)
    requires Encodes31(env.codes) && WriterOk(env.foreign, w) && Enumerates(env.iter)
    requires Room(w, PartsWeight(env, ps) + n)
    ensures Decided(WriteParts(env, w, ps), PartsWritable(env, w, ps), n)
    decreases |ps|
  {
    if ps != [] {
      PartsStep(env, w, ps);
      PartDecided(env, w, ps[0], PartsWeight(env, ps[1..]) + n);
      var r := WritePart(env, w, ps[0]);
      if r.Written? {
        AfterPart(env, w, ps[0]);
        PartsDecided(env, r.w, ps[1..], n);
        PartsSame(env, w, r.w, ps[1..]);
      }
    }
  }

  lemma AfterParts(env: World, w: Writer, ps: seq<Part>)
    requires WriterOk(env.foreign, w) && Enumerates(env.iter) && WriteParts(env, w, ps).Written?
    ensures WriterOk(env.foreign, WriteParts(env, w, ps).w) && SameConditions(env, w, WriteParts(env, w, ps).w)
  {
    PartsKept(env, w, ps);
    PulledByParts(env, w, ps);
    PulledSame(env, w, WriteParts(env, w, ps).w);
  }
}
