/** Reading undoes writing, and the order in which hashes are walked cannot be seen in the
    bytes. */
module ValueProofs {
  import opened Wrappers
  import opened Bytes
  import opened IntCode
  import opened Codes
  import opened Strings
  import opened Tables
  import opened Places
  import opened Values
  import opened Encoding

  // ----- reading what was encoded

  /** The tables a reader works with are in order, and hashes yield each key once. */
  ghost predicate Readable(env: World, w: Writer) {
    HeapOk(w.tabs.heap, w.seen) && OwnOk(env.foreign, w.tabs, w.own) && Enumerates(env.iter)
  }

  lemma CountRoundTrip(env: World, b: seq<Byte>, p: nat, n: nat)
    requires EncodeCount(env, n).Encoded? && At(b, p, EncodeCount(env, n).bytes)
    ensures ReadCount(env.codes.ints, b, p) == Parsed(n, p + |EncodeCount(env, n).bytes|)
    ensures env.codes.ints.dec(b, p) == Parsed(n, p + |EncodeCount(env, n).bytes|)
  {
    CodedAt(env.codes.ints, b, p, n);
  }

  lemma {:induction false} IntsRoundTrip(c: Coding<Int64>, ns: seq<Int64>, b: seq<Byte>, p: nat)
    requires EncodeInts(c, ns).Encoded? && At(b, p, EncodeInts(c, ns).bytes)
    ensures ReadInts(c, b, p, |ns|) == Parsed(ns, p + |EncodeInts(c, ns).bytes|)
    decreases |ns|
  {
    if ns != [] {
      var e, e' := c.enc(ns[0]), EncodeInts(c, ns[1..]).bytes;
      AtSplit(b, p, e, e');
      CodedAt(c, b, p, ns[0]);
      IntsRoundTrip(c, ns[1..], b, p + |e|);
      assert ns == [ns[0]] + ns[1..];
    }
  }

  lemma {:induction false} StrsRoundTrip(c: Coding<nat>, w: Writer, ss: seq<MString>, b: seq<Byte>, p: nat)
    requires HeapOk(w.tabs.heap, w.seen) && EncodeStrs(c, w, ss).Encoded? && At(b, p, EncodeStrs(c, w, ss).bytes)
    ensures ReadStrs(c, w.tabs, b, p, |ss|) == Parsed(ss, p + |EncodeStrs(c, w, ss).bytes|)
    decreases |ss|
  {
    if ss != [] {
      var e, e' := EncodeStr(c, w, ss[0]).bytes, EncodeStrs(c, w, ss[1..]).bytes;
      AtSplit(b, p, e, e');
      StrRoundTrip(c, w, ss[0], b, p);
      StrsRoundTrip(c, w, ss[1..], b, p + |e|);
      assert ss == [ss[0]] + ss[1..];
    }
  }

  lemma {:induction false} RefsReadBack(env: World, w: Writer, vs: seq<Value>, b: seq<Byte>, p: nat)
    requires Readable(env, w) && EncodeRefs(env, w, vs).Encoded? && At(b, p, EncodeRefs(env, w, vs).bytes)
    ensures ReadRefs(env, w.tabs, b, p, |vs|) == Parsed(vs, p + |EncodeRefs(env, w, vs).bytes|)
    decreases vs, 0, 0
  {
    if vs != [] {
      var e, e' := Encode(env, w, vs[0]).bytes, EncodeRefs(env, w, vs[1..]).bytes;
      AtSplit(b, p, e, e');
      ReadBack(env, w, vs[0], b, p);
      RefsReadBack(env, w, vs[1..], b, p + |e|);
      assert vs == [vs[0]] + vs[1..];
    }
  }

  /** A map with the bindings of some keys put over it, one after the other. */
  function Bound(m0: map<string, Value>, m: map<string, Value>, keys: seq<string>): map<string, Value>
    decreases |keys|
  {
    if keys == [] || keys[0] !in m then m0 else Bound(m0[keys[0] := m[keys[0]]], m, keys[1..])
  }

  lemma {:induction false} BoundHolds(m0: map<string, Value>, m: map<string, Value>, keys: seq<string>)
    requires forall k | k in keys :: k in m
    ensures forall k :: k in Bound(m0, m, keys) <==> k in m0 || k in keys
    ensures forall k | k in Bound(m0, m, keys) :: Bound(m0, m, keys)[k] == if k in keys then m[k] else m0[k]
    decreases |keys|
  {
    if keys != [] { BoundHolds(m0[keys[0] := m[keys[0]]], m, keys[1..]); }
  }

  lemma {:induction false} PairReadBack(env: World, w: Writer, v: Value, k: string, b: seq<Byte>, p: nat)
    requires Readable(env, w) && v.Hash? && k in v.m
    requires EncodePair(env, w, v, k).Encoded? && At(b, p, EncodePair(env, w, v, k).bytes)
    ensures ReadPair(env, w.tabs, b, p) == Parsed((k, v.m[k]), p + |EncodePair(env, w, v, k).bytes|)
    decreases v, 0, 0
  {
    var e, e' := EncodeStr(env.codes.strs, w, Some(k)).bytes, Encode(env, w, v.m[k]).bytes;
    AtSplit(b, p, e, e');
    StrRoundTrip(env.codes.strs, w, Some(k), b, p);
    ReadBack(env, w, v.m[k], b, p + |e|);
  }

  lemma {:induction false} PairsReadBack(
    env: World, w: Writer, v: Value, keys: seq<string>, b: seq<Byte>, p: nat, m0: map<string, Value>)
    requires Readable(env, w) && v.Hash? && EncodePairs(env, w, v, keys).Encoded?
    requires At(b, p, EncodePairs(env, w, v, keys).bytes)
    ensures ReadPairs(env, w.tabs, b, p, |keys|, m0)
         == Parsed(Bound(m0, v.m, keys), p + |EncodePairs(env, w, v, keys).bytes|)
    decreases v, 0, 1 + |keys|
  {
    if keys != [] {
      var k := keys[0];
      var e, e' := EncodePair(env, w, v, k).bytes, EncodePairs(env, w, v, keys[1..]).bytes;
      AtSplit(b, p, e, e');
      PairReadBack(env, w, v, k, b, p);
      PairsReadBack(env, w, v, keys[1..], b, p + |e|, m0[k := v.m[k]]);
    }
  }

  lemma AllKeysBound(env: World, m: map<string, Value>)
    requires Enumerates(env.iter)
    ensures Bound(map[], m, Keys(env, m)) == m
  {
    var keys := Keys(env, m);
    forall k ensures k in keys <==> k in m { assert k in env.iter(m.Keys) <==> k in m.Keys; }
    BoundHolds(map[], m, keys);
  }

  lemma ItemReadBack(env: World, w: Writer, v: Value, b: seq<Byte>, p: nat)
    requires Readable(env, w) && (v.Obj? || v.Code?)
    requires EncodeBody(env, w, v).Encoded? && At(b, p, EncodeBody(env, w, v).bytes)
    ensures ReadBody(env, w.tabs, Tag(env, v), b, p) == Parsed(v, p + |EncodeBody(env, w, v).bytes|)
  {
    var r := if v.Obj? then Ref(Objects, v.o) else Ref(Codes, v.c);
    ItemRoundTrip(env.codes.places, env.foreign, w, r, b, p);
  }

  lemma LeafReadBack(env: World, w: Writer, v: Value, b: seq<Byte>, p: nat)
    requires Readable(env, w) && Leaf(v) && EncodeBody(env, w, v).Encoded? && At(b, p, EncodeBody(env, w, v).bytes)
    ensures ReadBody(env, w.tabs, Tag(env, v), b, p) == Parsed(v, p + |EncodeBody(env, w, v).bytes|)
  {
    match v
    case Int(i) => CodedAt(env.codes.ints, b, p, i);
    case Num(bits) => CodedAt(env.codes.nums, b, p, bits);
    case Str(s) => StrRoundTrip(env.codes.strs, w, s, b, p);
    case ScRef(h) => StrRoundTrip(env.codes.strs, w, Some(h), b, p);
    case Obj(_) => ItemReadBack(env, w, v, b, p);
    case Code(_) => ItemReadBack(env, w, v, b, p);
    case _ =>
  }

  lemma {:induction false} ArrVarReadBack(env: World, w: Writer, v: Value, b: seq<Byte>, p: nat)
    requires Readable(env, w) && v.ArrVar?
    requires EncodeBody(env, w, v).Encoded? && At(b, p, EncodeBody(env, w, v).bytes)
    ensures ReadBody(env, w.tabs, 7, b, p) == Parsed(v, p + |EncodeBody(env, w, v).bytes|)
    decreases v, 1, 0
  {
    var e, e' := EncodeCount(env, |v.vars|).bytes, EncodeRefs(env, w, v.vars).bytes;
    AtSplit(b, p, e, e');
    CountRoundTrip(env, b, p, |v.vars|);
    RefsReadBack(env, w, v.vars, b, p + |e|);
  }

  lemma {:induction false} HashReadBack(env: World, w: Writer, v: Value, b: seq<Byte>, p: nat)
    requires Readable(env, w) && v.Hash?
    requires EncodeBody(env, w, v).Encoded? && At(b, p, EncodeBody(env, w, v).bytes)
    ensures ReadBody(env, w.tabs, 10, b, p) == Parsed(v, p + |EncodeBody(env, w, v).bytes|)
    decreases v, 1, 0
  {
    var keys := Keys(env, v.m);
    var e := EncodeCount(env, |keys|).bytes;
    HashAt(env, w, v, b, p);
    CountRoundTrip(env, b, p, |keys|);
    AllPairsReadBack(env, w, v, b, p + |e|);
    HashRead(env, w.tabs, b, p);
  }

  lemma HashAt(env: World, w: Writer, v: Value, b: seq<Byte>, p: nat)
    requires v.Hash? && EncodeBody(env, w, v).Encoded? && At(b, p, EncodeBody(env, w, v).bytes)
    ensures var e, e' := EncodeCount(env, |Keys(env, v.m)|), EncodePairs(env, w, v, Keys(env, v.m));
            && e.Encoded? && e'.Encoded? && At(b, p, e.bytes) && At(b, p + |e.bytes|, e'.bytes)
            && |EncodeBody(env, w, v).bytes| == |e.bytes| + |e'.bytes|
  {
    AtSplit(b, p, EncodeCount(env, |Keys(env, v.m)|).bytes, EncodePairs(env, w, v, Keys(env, v.m)).bytes);
  }

  lemma HashRead(env: World, t: Tables, b: seq<Byte>, p: nat)
    ensures ReadBody(env, t, 10, b, p)
         == (var n := ReadCount(env.codes.ints, b, p);
             if n.Bad? then Bad else Map(ReadPairs(env, t, b, n.end, n.value, map[]), m => Hash(m)))
  {}

  lemma {:induction false} AllPairsReadBack(env: World, w: Writer, v: Value, b: seq<Byte>, p: nat)
    requires Readable(env, w) && v.Hash? && EncodePairs(env, w, v, Keys(env, v.m)).Encoded?
    requires At(b, p, EncodePairs(env, w, v, Keys(env, v.m)).bytes)
    ensures ReadPairs(env, w.tabs, b, p, |Keys(env, v.m)|, map[])
         == Parsed(v.m, p + |EncodePairs(env, w, v, Keys(env, v.m)).bytes|)
    decreases v, 0, 2 + |Keys(env, v.m)|
  {
    PairsReadBack(env, w, v, Keys(env, v.m), b, p, map[]);
    AllKeysBound(env, v.m);
  }

  lemma ArrStrReadBack(env: World, w: Writer, ss: seq<MString>, b: seq<Byte>, p: nat)
    requires Readable(env, w)
    requires EncodeBody(env, w, ArrStr(ss)).Encoded? && At(b, p, EncodeBody(env, w, ArrStr(ss)).bytes)
    ensures ReadBody(env, w.tabs, 8, b, p) == Parsed(ArrStr(ss), p + |EncodeBody(env, w, ArrStr(ss)).bytes|)
  {
    var e, e' := EncodeCount(env, |ss|).bytes, EncodeStrs(env.codes.strs, w, ss).bytes;
    AtSplit(b, p, e, e');
    CountRoundTrip(env, b, p, |ss|);
    StrsRoundTrip(env.codes.strs, w, ss, b, p + |e|);
  }

  lemma ArrIntReadBack(env: World, w: Writer, ns: seq<Int64>, b: seq<Byte>, p: nat)
    requires EncodeBody(env, w, ArrInt(ns)).Encoded? && At(b, p, EncodeBody(env, w, ArrInt(ns)).bytes)
    ensures ReadBody(env, w.tabs, 9, b, p) == Parsed(ArrInt(ns), p + |EncodeBody(env, w, ArrInt(ns)).bytes|)
  {
    var e, e' := EncodeCount(env, |ns|).bytes, EncodeInts(env.codes.ints, ns).bytes;
    AtSplit(b, p, e, e');
    CountRoundTrip(env, b, p, |ns|);
    IntsRoundTrip(env.codes.ints, ns, b, p + |e|);
  }

  lemma {:induction false} BodyReadBack(env: World, w: Writer, v: Value, b: seq<Byte>, p: nat)
    requires Readable(env, w) && EncodeBody(env, w, v).Encoded? && At(b, p, EncodeBody(env, w, v).bytes)
    ensures ReadBody(env, w.tabs, Tag(env, v), b, p) == Parsed(v, p + |EncodeBody(env, w, v).bytes|)
    decreases v, 2, 0
  {
    match v
    case ArrVar(vs) => ArrVarReadBack(env, w, v, b, p);
    case ArrStr(ss) => ArrStrReadBack(env, w, ss, b, p);
    case ArrInt(ns) => ArrIntReadBack(env, w, ns, b, p);
    case Hash(m) => HashReadBack(env, w, v, b, p);
    case _ => LeafReadBack(env, w, v, b, p);
  }

  /** Reading the bytes of a value gives the value and ends where they end. */
  lemma {:induction false} ReadBack(env: World, w: Writer, v: Value, b: seq<Byte>, p: nat)
    requires Readable(env, w) && Encode(env, w, v).Encoded? && At(b, p, Encode(env, w, v).bytes)
    ensures ReadRef(env, w.tabs, b, p) == Parsed(v, p + |Encode(env, w, v).bytes|)
    decreases v, 3, 0
  {
    AtSplit(b, p, [Tag(env, v)], EncodeBody(env, w, v).bytes);
    assert b[p] == [Tag(env, v)][0];
    BodyReadBack(env, w, v, b, p + 1);
  }

  /** `read_ref` after `write_ref` yields the value and ends where the writer ended, for every
      value and every writer, with the tables of any later state of that writer: whatever is
      added to the string heap, the dependencies and the root lists does no harm. */
  lemma RefRoundTrip(env: World, w: Writer, v: Value, later: Writer, b: seq<Byte>, p: nat)
    requires WriterOk(env.foreign, w) && Enumerates(env.iter) && WriteRef(env, w, v).Written?
    requires WriterOk(env.foreign, later) && Extends(WriteRef(env, w, v).w, later)
    requires At(b, p, WriteRef(env, w, v).bytes)
    ensures ReadRef(env, later.tabs, b, p) == Parsed(v, p + |WriteRef(env, w, v).bytes|)
  {
    RefDetermined(env, w, v, later);
    ReadBack(env, later, v, b, p);
  }

  /** The same for a whole body. */
  lemma RefsRoundTrip(env: World, w: Writer, vs: seq<Value>, later: Writer, b: seq<Byte>, p: nat)
    requires WriterOk(env.foreign, w) && Enumerates(env.iter) && WriteRefs(env, w, vs).Written?
    requires WriterOk(env.foreign, later) && Extends(WriteRefs(env, w, vs).w, later)
    requires At(b, p, WriteRefs(env, w, vs).bytes)
    ensures ReadRefs(env, later.tabs, b, p, |vs|) == Parsed(vs, p + |WriteRefs(env, w, vs).bytes|)
  {
    RefsDetermined(env, w, vs, later);
    RefsReadBack(env, later, vs, b, p);
  }

  // ----- equal hashes give equal bytes

  lemma OrderAndOuter(env: World, w: Writer, outer: Option<nat>, iter: Iteration)
    ensures OuterIdx(env, w, outer) == OuterIdx(env.(iter := iter), w, outer)
  {
    if outer.Some? {
      assert OfInterest(env, w.own.Keys, outer.value) == OfInterest(env.(iter := iter), w.own.Keys, outer.value);
    }
  }

  lemma OrderAndEntry(env: World, w: Writer, cl: Closure, iter: Iteration)
    requires HasStatic(env, w.own.Keys, cl.staticCode)
    ensures HasStatic(env.(iter := iter), w.own.Keys, cl.staticCode)
    ensures ClosureEntry(env, w, cl) == ClosureEntry(env.(iter := iter), w, cl)
  {
    OrderAndOuter(env, w, cl.outer, iter);
  }

  lemma OrderAndClosure(env: World, w: Writer, c: nat, iter: Iteration)
    ensures SerializeClosure(env, w, c) == SerializeClosure(env.(iter := iter), w, c)
  {
    var env' := env.(iter := iter);
    if c in env.closures {
      assert HasStatic(env, w.own.Keys, env.closures[c].staticCode)
          == HasStatic(env', w.own.Keys, env.closures[c].staticCode);
      if HasStatic(env, w.own.Keys, env.closures[c].staticCode) { OrderAndEntry(env, w, env.closures[c], iter); }
    }
  }

  lemma OrderAndLeaf(env: World, w: Writer, v: Value, iter: Iteration)
    requires Leaf(v)
    ensures WriteBody(env, w, v) == WriteBody(env.(iter := iter), w, v)
  {
    if v.Code? { OrderAndClosure(env, w, v.c, iter); }
  }

  lemma {:induction false} OrderAndHash(env: World, w: Writer, v: Value, iter: Iteration)
    requires Enumerates(env.iter) && Enumerates(iter) && v.Hash?
    ensures WriteBody(env, w, v) == WriteBody(env.(iter := iter), w, v)
    decreases v, 1, 0
  {
    SortedKeysAgree(env.iter, iter, v.m.Keys);
    OrderAndPairs(env, w, v, Keys(env, v.m), iter);
    HashBody(env, w, v);
    HashBody(env.(iter := iter), w, v);
  }

  lemma HashBody(env: World, w: Writer, v: Value)
    requires v.Hash?
    ensures WriteBody(env, w, v)
         == Counted(env.codes.ints, |Keys(env, v.m)|, WritePairs(env, w, v, Keys(env, v.m)))
  {}

  lemma {:induction false} OrderAndBody(env: World, w: Writer, v: Value, iter: Iteration)
    requires Enumerates(env.iter) && Enumerates(iter)
    ensures WriteBody(env, w, v) == WriteBody(env.(iter := iter), w, v)
    decreases v, 2, 0
  {
    match v
    case ArrVar(vs) => OrderAndRefs(env, w, vs, iter);
    case ArrStr(_) =>
    case ArrInt(_) =>
    case Hash(_) => OrderAndHash(env, w, v, iter);
    case _ => OrderAndLeaf(env, w, v, iter);
  }

  /** The bytes and the writer afterwards do not depend on the order in which hashes are walked. */
  lemma {:induction false} OrderCannotBeSeen(env: World, w: Writer, v: Value, iter: Iteration)
    requires Enumerates(env.iter) && Enumerates(iter)
    ensures WriteRef(env, w, v) == WriteRef(env.(iter := iter), w, v)
    decreases v, 3, 0
  {
    OrderAndBody(env, w, v, iter);
  }

  lemma {:induction false} OrderAndRefs(env: World, w: Writer, vs: seq<Value>, iter: Iteration)
    requires Enumerates(env.iter) && Enumerates(iter)
    ensures WriteRefs(env, w, vs) == WriteRefs(env.(iter := iter), w, vs)
    decreases vs, 0, 0
  {
    if vs != [] {
      OrderCannotBeSeen(env, w, vs[0], iter);
      var r := WriteRef(env, w, vs[0]);
      if r.Written? { OrderAndRefs(env, r.w, vs[1..], iter); }
    }
  }

  lemma {:induction false} OrderAndPairs(env: World, w: Writer, v: Value, keys: seq<string>, iter: Iteration)
    requires Enumerates(env.iter) && Enumerates(iter) && v.Hash?
    ensures WritePairs(env, w, v, keys) == WritePairs(env.(iter := iter), w, v, keys)
    decreases v, 0, |keys|
  {
    if keys != [] && keys[0] in v.m {
      var r := WriteStr(env.codes.strs, w, Some(keys[0]));
      if r.Written? { OrderCannotBeSeen(env, r.w, v.m[keys[0]], iter); }
      var r' := WritePair(env, w, v, keys[0]);
      if r'.Written? { OrderAndPairs(env, r'.w, v, keys[1..], iter); }
    }
  }
}
