/** The bytes of a value as a function of the finished tables, without the threading of the
    writer through the value; and that the writer produces exactly these bytes. */
module Encoding {
  import opened Wrappers
  import opened IntCode
  import opened Codes
  import opened Packing
  import opened Tables
  import opened Places
  import opened Values

  function Append(e: Encoded, e': Encoded): Encoded {
    if e.Unknown? || e'.Unknown? then Unknown else Encoded(e.bytes + e'.bytes)
  }

  function Encode(env: World, w: Writer, v: Value): Encoded
    decreases v, 2, 0
  {
    Append(Encoded([Tag(env, v)]), EncodeBody(env, w, v))
  }

  function EncodeBody(env: World, w: Writer, v: Value): Encoded
    decreases v, 1, 0
  {
    match v
    case Null => Encoded([])
    case VmNull => Encoded([])
    case Int(i) => EncodeWith(env.codes.ints, i)
    case Num(bits) => EncodeWith(env.codes.nums, bits)
    case Str(s) => EncodeStr(env.codes.strs, w, s)
    case ArrVar(vs) => Append(EncodeCount(env, |vs|), EncodeRefs(env, w, vs))
    case ArrStr(ss) => Append(EncodeCount(env, |ss|), EncodeStrs(env.codes.strs, w, ss))
    case ArrInt(ns) => Append(EncodeCount(env, |ns|), EncodeInts(env.codes.ints, ns))
    case Hash(m) => Append(EncodeCount(env, |Keys(env, m)|), EncodePairs(env, w, v, Keys(env, m)))
    case Obj(o) => EncodeItem(env.codes.places, w, Ref(Objects, o))
    case Code(c) => EncodeItem(env.codes.places, w, Ref(Codes, c))
    case ScRef(h) => EncodeStr(env.codes.strs, w, Some(h))
  }

  function EncodeCount(env: World, n: nat): Encoded {
    if n >= LIMIT then Unknown else EncodeWith(env.codes.ints, n)
  }

  function EncodeRefs(env: World, w: Writer, vs: seq<Value>): Encoded
    decreases vs, 0, 0
  {
    if vs == [] then Encoded([]) else Append(Encode(env, w, vs[0]), EncodeRefs(env, w, vs[1..]))
  }

  function EncodeStrs(c: Coding<nat>, w: Writer, ss: seq<MString>): Encoded
    decreases |ss|
  {
    if ss == [] then Encoded([]) else Append(EncodeStr(c, w, ss[0]), EncodeStrs(c, w, ss[1..]))
  }

  function EncodeInts(c: Coding<Int64>, ns: seq<Int64>): Encoded {
    if ns == [] then Encoded([]) else Append(EncodeWith(c, ns[0]), EncodeInts(c, ns[1..]))
  }

  function EncodePair(env: World, w: Writer, v: Value, k: string): Encoded
    requires v.Hash? && k in v.m
    decreases v, 0, 0
  {
    Append(EncodeStr(env.codes.strs, w, Some(k)), Encode(env, w, v.m[k]))
  }

  function EncodePairs(env: World, w: Writer, v: Value, keys: seq<string>): Encoded
    requires v.Hash?
    decreases v, 0, 1 + |keys|
  {
    if keys == [] then Encoded([])
    else if keys[0] !in v.m then Unknown
    else Append(EncodePair(env, w, v, keys[0]), EncodePairs(env, w, v, keys[1..]))
  }

  // ----- the writer keeps its tables in order

  lemma WriteItemKept(env: World, w: Writer, r: Ref)
    requires WriterOk(env.foreign, w)
    ensures Kept(env.foreign, w, WriteItem(env, w, r))
  {
    var w1 := Claim(w, r);
    ClaimOk(env.foreign, w, r);
    WriteLocKept(env.codes.places, env.foreign, w1, w1.own[r]);
    KeptTransitive(env.foreign, w, w1, WriteItem(env, w, r));
  }

  lemma AnchoredOk(env: World, w: Writer, c: nat)
    requires WriterOk(env.foreign, w) && Anchored(env, w, c).Ok?
    ensures WriterOk(env.foreign, Anchored(env, w, c).value) && Extends(w, Anchored(env, w, c).value)
  {
    if Ref(Codes, c) !in w.own { SerializeClosureOk(env, w, c); }
  }

  lemma WriteCodeRefKept(env: World, w: Writer, c: nat)
    requires WriterOk(env.foreign, w)
    ensures Kept(env.foreign, w, WriteCodeRef(env, w, c))
  {
    var r := Anchored(env, w, c);
    if r.Ok? {
      AnchoredOk(env, w, c);
      WriteLocKept(env.codes.places, env.foreign, r.value, r.value.own[Ref(Codes, c)]);
      KeptTransitive(env.foreign, w, r.value, WriteCodeRef(env, w, c));
    }
  }

  lemma {:induction false} WriteIntsKept(c: Coding<Int64>, w: Writer, ns: seq<Int64>)
    ensures WriteInts(c, w, ns).Written? ==> WriteInts(c, w, ns).w == w
    decreases |ns|
  {
    if ns != [] { WriteIntsKept(c, w, ns[1..]); }
  }

  /** Values without parts. */
  predicate Leaf(v: Value) {
    !v.ArrVar? && !v.ArrStr? && !v.ArrInt? && !v.Hash?
  }

  lemma LeafKept(env: World, w: Writer, v: Value)
    requires WriterOk(env.foreign, w) && Leaf(v)
    ensures Kept(env.foreign, w, WriteBody(env, w, v))
  {
    match v
    case Str(s) => WriteStrKept(env.codes.strs, env.foreign, w, s);
    case Obj(o) => WriteItemKept(env, w, Ref(Objects, o));
    case Code(c) => WriteCodeRefKept(env, w, c);
    case ScRef(h) => WriteStrKept(env.codes.strs, env.foreign, w, Some(h));
    case _ =>
  }

  lemma {:induction false} WriteBodyKept(env: World, w: Writer, v: Value)
    requires WriterOk(env.foreign, w)
    ensures Kept(env.foreign, w, WriteBody(env, w, v))
    decreases v, 1, 0
  {
    match v
    case ArrVar(vs) => WriteRefsKept(env, w, vs);
    case ArrStr(ss) => WriteStrsKept(env.codes.strs, env.foreign, w, ss);
    case ArrInt(ns) => WriteIntsKept(env.codes.ints, w, ns);
    case Hash(m) => WritePairsKept(env, w, v, Keys(env, m));
    case _ => LeafKept(env, w, v);
  }

  /** Whatever is written, the tables stay in order and only grow. */
  lemma {:induction false} WriteRefKept(env: World, w: Writer, v: Value)
    requires WriterOk(env.foreign, w)
    ensures Kept(env.foreign, w, WriteRef(env, w, v))
    decreases v, 2, 0
  {
    WriteBodyKept(env, w, v);
  }

  lemma {:induction false} WriteRefsKept(env: World, w: Writer, vs: seq<Value>)
    requires WriterOk(env.foreign, w)
    ensures Kept(env.foreign, w, WriteRefs(env, w, vs))
    decreases vs, 0, 0
  {
    if vs != [] {
      var r := WriteRef(env, w, vs[0]);
      WriteRefKept(env, w, vs[0]);
      if r.Written? {
        WriteRefsKept(env, r.w, vs[1..]);
        KeptTransitive(env.foreign, w, r.w, WriteRefs(env, r.w, vs[1..]));
      }
    }
  }

  lemma {:induction false} WriteStrsKept(c: Coding<nat>, f: Foreign, w: Writer, ss: seq<MString>)
    requires WriterOk(f, w)
    ensures Kept(f, w, WriteStrs(c, w, ss))
    decreases |ss|
  {
    if ss != [] {
      var r := WriteStr(c, w, ss[0]);
      WriteStrKept(c, f, w, ss[0]);
      if r.Written? {
        WriteStrsKept(c, f, r.w, ss[1..]);
        KeptTransitive(f, w, r.w, WriteStrs(c, r.w, ss[1..]));
      }
    }
  }

  lemma {:induction false} WritePairKept(env: World, w: Writer, v: Value, k: string)
    requires WriterOk(env.foreign, w) && v.Hash? && k in v.m
    ensures Kept(env.foreign, w, WritePair(env, w, v, k))
    decreases v, 0, 0
  {
    var r := WriteStr(env.codes.strs, w, Some(k));
    WriteStrKept(env.codes.strs, env.foreign, w, Some(k));
    if r.Written? {
      WriteRefKept(env, r.w, v.m[k]);
      KeptTransitive(env.foreign, w, r.w, WriteRef(env, r.w, v.m[k]));
    }
  }

  lemma {:induction false} WritePairsKept(env: World, w: Writer, v: Value, keys: seq<string>)
    requires WriterOk(env.foreign, w) && v.Hash?
    ensures Kept(env.foreign, w, WritePairs(env, w, v, keys))
    decreases v, 0, 1 + |keys|
  {
    if keys != [] && keys[0] in v.m {
      var r := WritePair(env, w, v, keys[0]);
      WritePairKept(env, w, v, keys[0]);
      if r.Written? {
        WritePairsKept(env, r.w, v, keys[1..]);
        KeptTransitive(env.foreign, w, r.w, WritePairs(env, r.w, v, keys[1..]));
      }
    }
  }

  // ----- what the writer writes

  /** The bytes are those that any later state of the writer determines. */
  ghost predicate Determined(r: Written, later: Writer, e: Encoded) {
    r.Written? && Extends(r.w, later) ==> e == Encoded(r.bytes)
  }

  lemma ItemDetermined(env: World, w: Writer, r: Ref, later: Writer)
    requires WriterOk(env.foreign, w)
    ensures Determined(WriteItem(env, w, r), later, EncodeItem(env.codes.places, later, r))
  {
    var e := WriteItem(env, w, r);
    ClaimOk(env.foreign, w, r);
    if e.Written? && Extends(e.w, later) {
      WriteLocIsEncode(env.codes.places, env.foreign, Claim(w, r), r, later);
    }
  }

  lemma CodeDetermined(env: World, w: Writer, c: nat, later: Writer)
    requires WriterOk(env.foreign, w)
    ensures Determined(WriteCodeRef(env, w, c), later, EncodeItem(env.codes.places, later, Ref(Codes, c)))
  {
    var r := WriteCodeRef(env, w, c);
    if r.Written? && Extends(r.w, later) {
      AnchoredOk(env, w, c);
      WriteLocIsEncode(env.codes.places, env.foreign, Anchored(env, w, c).value, Ref(Codes, c), later);
    }
  }

  lemma StrDetermined(c: Coding<nat>, f: Foreign, w: Writer, s: MString, later: Writer)
    requires WriterOk(f, w)
    ensures Determined(WriteStr(c, w, s), later, EncodeStr(c, later, s))
  {
    var r := WriteStr(c, w, s);
    if r.Written? && Extends(r.w, later) { WriteStrIsEncode(c, f, w, s, later); }
  }

  lemma {:induction false} IntsDetermined(c: Coding<Int64>, w: Writer, ns: seq<Int64>, later: Writer)
    ensures Determined(WriteInts(c, w, ns), later, EncodeInts(c, ns))
    decreases |ns|
  {
    if ns != [] {
      IntsDetermined(c, w, ns[1..], later);
      WriteIntsKept(c, w, ns[1..]);
    }
  }

  lemma BothDetermined(f: Foreign, r: Written, r': Written, later: Writer, e: Encoded, e': Encoded)
    requires r.Written? && Kept(f, r.w, r') && Determined(r, later, e) && Determined(r', later, e')
    ensures Determined(Both(r, r'), later, Append(e, e'))
  {
    if r'.Written? && Extends(r'.w, later) { ExtendsTransitive(r.w, r'.w, later); }
  }

  lemma {:induction false} StrsDetermined(c: Coding<nat>, f: Foreign, w: Writer, ss: seq<MString>, later: Writer)
    requires WriterOk(f, w)
    ensures Determined(WriteStrs(c, w, ss), later, EncodeStrs(c, later, ss))
    decreases |ss|
  {
    if ss != [] {
      var r := WriteStr(c, w, ss[0]);
      StrDetermined(c, f, w, ss[0], later);
      WriteStrKept(c, f, w, ss[0]);
      if r.Written? {
        StrsDetermined(c, f, r.w, ss[1..], later);
        WriteStrsKept(c, f, r.w, ss[1..]);
        BothDetermined(f, r, WriteStrs(c, r.w, ss[1..]), later,
                       EncodeStr(c, later, ss[0]), EncodeStrs(c, later, ss[1..]));
      }
    }
  }

  lemma {:induction false} RefsDetermined(env: World, w: Writer, vs: seq<Value>, later: Writer)
    requires WriterOk(env.foreign, w)
    ensures Determined(WriteRefs(env, w, vs), later, EncodeRefs(env, later, vs))
    decreases vs, 0, 0
  {
    if vs != [] {
      var r := WriteRef(env, w, vs[0]);
      RefDetermined(env, w, vs[0], later);
      WriteRefKept(env, w, vs[0]);
      if r.Written? {
        RefsDetermined(env, r.w, vs[1..], later);
        WriteRefsKept(env, r.w, vs[1..]);
        BothDetermined(env.foreign, r, WriteRefs(env, r.w, vs[1..]), later,
                       Encode(env, later, vs[0]), EncodeRefs(env, later, vs[1..]));
      }
    }
  }

  lemma {:induction false} PairDetermined(env: World, w: Writer, v: Value, k: string, later: Writer)
    requires WriterOk(env.foreign, w) && v.Hash? && k in v.m
    ensures Determined(WritePair(env, w, v, k), later, EncodePair(env, later, v, k))
    decreases v, 0, 0
  {
    var r := WriteStr(env.codes.strs, w, Some(k));
    StrDetermined(env.codes.strs, env.foreign, w, Some(k), later);
    WriteStrKept(env.codes.strs, env.foreign, w, Some(k));
    if r.Written? {
      RefDetermined(env, r.w, v.m[k], later);
      WriteRefKept(env, r.w, v.m[k]);
      BothDetermined(env.foreign, r, WriteRef(env, r.w, v.m[k]), later,
                     EncodeStr(env.codes.strs, later, Some(k)), Encode(env, later, v.m[k]));
    }
  }

  lemma {:induction false} PairsDetermined(env: World, w: Writer, v: Value, keys: seq<string>, later: Writer)
    requires WriterOk(env.foreign, w) && v.Hash?
    ensures Determined(WritePairs(env, w, v, keys), later, EncodePairs(env, later, v, keys))
    decreases v, 0, 1 + |keys|
  {
    if keys != [] && keys[0] in v.m {
      var r := WritePair(env, w, v, keys[0]);
      PairDetermined(env, w, v, keys[0], later);
      WritePairKept(env, w, v, keys[0]);
      if r.Written? {
        PairsDetermined(env, r.w, v, keys[1..], later);
        WritePairsKept(env, r.w, v, keys[1..]);
        BothDetermined(env.foreign, r, WritePairs(env, r.w, v, keys[1..]), later,
                       EncodePair(env, later, v, keys[0]), EncodePairs(env, later, v, keys[1..]));
      }
    }
  }

  lemma LeafDetermined(env: World, w: Writer, v: Value, later: Writer)
    requires WriterOk(env.foreign, w) && Leaf(v)
    ensures Determined(WriteBody(env, w, v), later, EncodeBody(env, later, v))
  {
    match v
    case Str(s) => StrDetermined(env.codes.strs, env.foreign, w, s, later);
    case Obj(o) => ItemDetermined(env, w, Ref(Objects, o), later);
    case Code(c) => CodeDetermined(env, w, c, later);
    case ScRef(h) => StrDetermined(env.codes.strs, env.foreign, w, Some(h), later);
    case _ =>
  }

  lemma {:induction false} BodyDetermined(env: World, w: Writer, v: Value, later: Writer)
    requires WriterOk(env.foreign, w)
    ensures Determined(WriteBody(env, w, v), later, EncodeBody(env, later, v))
    decreases v, 1, 0
  {
    match v
    case ArrVar(vs) => RefsDetermined(env, w, vs, later);
    case ArrStr(ss) => StrsDetermined(env.codes.strs, env.foreign, w, ss, later);
    case ArrInt(ns) => IntsDetermined(env.codes.ints, w, ns, later);
    case Hash(m) => PairsDetermined(env, w, v, Keys(env, m), later);
    case _ => LeafDetermined(env, w, v, later);
  }

  /** `write_ref` appends the bytes that the finished tables determine, whatever the state in
      which it was called and whatever is written later. */
  lemma {:induction false} RefDetermined(env: World, w: Writer, v: Value, later: Writer)
    requires WriterOk(env.foreign, w)
    ensures Determined(WriteRef(env, w, v), later, Encode(env, later, v))
    decreases v, 2, 0
  {
    BodyDetermined(env, w, v, later);
  }
}
