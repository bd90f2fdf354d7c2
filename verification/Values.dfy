/** References as the serializer writes and reads them (src/6model/serialization.c): nested
    values, strings by way of the string heap, and objects and code by context and index. */
module Values {
  import opened Wrappers
  import opened Bytes
  import opened IntCode
  import opened Codes
  import opened Packing
  import opened Strings
  import opened Tables
  import opened Places

  datatype Value =
    | Null
    | VmNull
    | Int(i: Int64)
    | Num(bits: Num64)
    | Str(s: MString)
    | ArrVar(vars: seq<Value>)
    | ArrStr(strs: seq<MString>)
    | ArrInt(ints: seq<Int64>)
    | Hash(m: map<string, Value>)
    | Obj(o: nat)
    | Code(c: nat)
    | ScRef(handle: string)

  /** A closure: its static code, its outer frame, its code object and its name. */
  datatype Closure = Closure(staticCode: Option<nat>, outer: Option<nat>, codeObject: Option<nat>, name: MString)

  /** What the writer finds around it: the codes, the order in which hashes yield their keys,
      other contexts, closures, and the static code of frames. */
  datatype World = World(
    codes: Codings, iter: Iteration, foreign: Foreign,
    closures: map<nat, Closure>, frames: map<nat, Option<nat>>)

  // ----- closures

  /** `closure_to_static_code_ref`: the static code, which is never itself a closure, is there and
      has a context. */
  predicate HasStatic(env: World, owned: set<Ref>, code: Option<nat>) {
    code.Some? && code.value !in env.closures && Ref(Codes, code.value) in owned
  }

  /** A frame of which it makes sense to keep a context. */
  predicate OfInterest(env: World, owned: set<Ref>, f: nat) {
    f in env.frames && HasStatic(env, owned, env.frames[f])
  }

  /** `get_serialized_context_idx`. */
  function ContextIdx(env: World, w: Writer, f: nat): Result<(Writer, nat)> {
    var r := Ref(Frames, f);
    if r !in w.own then
      if !OfInterest(env, w.own.Keys, f) then Ok((w, 0)) else Ok((Claim(w, r), |w.tabs.frames| + 1))
    else if w.own[r].sc != w.tabs.sc then Err
    else Ok((w, w.own[r].idx + 1))
  }

  /** `get_serialized_outer_context_idx`. */
  function OuterIdx(env: World, w: Writer, outer: Option<nat>): Result<(Writer, nat)> {
    if outer.None? then Ok((w, 0)) else ContextIdx(env, w, outer.value)
  }

  /** The number of an item's context and its index there, for an item that has a context. */
  function PlaceOf(w: Writer, r: Ref): (Writer, Place)
    requires r in w.own
  {
    var (w', id) := ScId(w, w.own[r].sc);
    (w', Place(id, w.own[r].idx))
  }

  function CodeObjectRow(w: Writer, o: Option<nat>): (Writer, Option<Place>) {
    match o
    case None => (w, None)
    case Some(x) =>
      var (w', place) := PlaceOf(Claim(w, Ref(Objects, x)), Ref(Objects, x));
      (w', Some(place))
  }

  /** The row of a closure; its static code is looked up after its outer frame was taken in, which
      leaves its mark alone. */
  function ClosureEntry(env: World, w: Writer, cl: Closure): (r: Result<(Writer, ClosureRow)>)
    requires HasStatic(env, w.own.Keys, cl.staticCode)
  {
    var ctx := OuterIdx(env, w, cl.outer);
    if ctx.Err? then Err
    else
      var (w2, code) := PlaceOf(ctx.value.0, Ref(Codes, cl.staticCode.value));
      var (w3, codeObject) := CodeObjectRow(w2, cl.codeObject);
      var (w4, name) := AddString(w3, cl.name);
      Ok((w4, ClosureRow(code, ctx.value.1, codeObject, name)))
  }

  /** `serialize_closure`. */
  function SerializeClosure(env: World, w: Writer, c: nat): (r: Result<Writer>)
    ensures r.Ok? ==> Ref(Codes, c) in r.value.own
  {
    if c !in env.closures || !HasStatic(env, w.own.Keys, env.closures[c].staticCode) then Err
    else
      var entry := ClosureEntry(env, w, env.closures[c]);
      if entry.Err? then Err else Ok(Claim(AddClosure(entry.value.0, entry.value.1), Ref(Codes, c)))
  }

  /** An outer frame that has a context is in the writer's own. */
  predicate OuterOk(w: Writer, outer: Option<nat>) {
    outer.Some? && Ref(Frames, outer.value) in w.own ==> w.own[Ref(Frames, outer.value)].sc == w.tabs.sc
  }

  /** Code that can be referred to: it has a context, or it is a closure that can be serialized. */
  predicate CodeOk(env: World, w: Writer, c: nat) {
    Ref(Codes, c) in w.own || ClosureOk(env, w, c)
  }

  predicate ClosureOk(env: World, w: Writer, c: nat) {
    && c in env.closures && HasStatic(env, w.own.Keys, env.closures[c].staticCode)
    && OuterOk(w, env.closures[c].outer)
  }

  function AddClosure(w: Writer, row: ClosureRow): Writer {
    w.(closureRows := w.closureRows + [row])
  }

  lemma ContextIdxOk(env: World, w: Writer, f: nat)
    requires WriterOk(env.foreign, w) && ContextIdx(env, w, f).Ok?
    ensures var w' := ContextIdx(env, w, f).value.0;
            WriterOk(env.foreign, w') && Extends(w, w')
  {
    ClaimOk(env.foreign, w, Ref(Frames, f));
  }

  lemma OuterIdxKept(env: World, w: Writer, outer: Option<nat>)
    requires WriterOk(env.foreign, w) && OuterIdx(env, w, outer).Ok?
    ensures var w' := OuterIdx(env, w, outer).value.0;
            WriterOk(env.foreign, w') && Extends(w, w')
  {
    if outer.Some? { ContextIdxOk(env, w, outer.value); }
  }

  /** The place is the item's from then on. */
  lemma PlaceOfOk(f: Foreign, w: Writer, r: Ref)
    requires WriterOk(f, w) && r in w.own
    ensures var (w', place) := PlaceOf(w, r);
            && WriterOk(f, w') && Extends(w, w') && OnlyStringsAndDeps(w, w')
            && NumberOf(w'.tabs, w'.own[r].sc) == Ok(place.id) && w'.own[r].idx == place.idx
  {
    ScIdOk(f, w, w.own[r].sc);
  }

  lemma CodeObjectRowOk(f: Foreign, w: Writer, o: Option<nat>)
    requires WriterOk(f, w)
    ensures var w' := CodeObjectRow(w, o).0; WriterOk(f, w') && Extends(w, w')
  {
    if o.Some? {
      var r := Ref(Objects, o.value);
      ClaimOk(f, w, r);
      PlaceOfOk(f, Claim(w, r), r);
      ExtendsTransitive(w, Claim(w, r), CodeObjectRow(w, o).0);
    }
  }

  lemma AddClosureOk(f: Foreign, w: Writer, row: ClosureRow)
    requires WriterOk(f, w)
    ensures WriterOk(f, AddClosure(w, row)) && Extends(w, AddClosure(w, row))
  {}

  lemma ClosureEntryOk(env: World, w: Writer, cl: Closure)
    requires WriterOk(env.foreign, w) && HasStatic(env, w.own.Keys, cl.staticCode)
    requires ClosureEntry(env, w, cl).Ok?
    ensures var w' := ClosureEntry(env, w, cl).value.0;
            WriterOk(env.foreign, w') && Extends(w, w')
  {
    var f, r := env.foreign, Ref(Codes, cl.staticCode.value);
    var w1 := OuterIdx(env, w, cl.outer).value.0;
    OuterIdxKept(env, w, cl.outer);
    var w2 := PlaceOf(w1, r).0;
    PlaceOfOk(f, w1, r);
    ExtendsTransitive(w, w1, w2);
    var w3 := CodeObjectRow(w2, cl.codeObject).0;
    CodeObjectRowOk(f, w2, cl.codeObject);
    ExtendsTransitive(w, w2, w3);
    AddStringOk(f, w3, cl.name);
    ExtendsTransitive(w, w3, AddString(w3, cl.name).0);
  }

  lemma SerializeClosureOk(env: World, w: Writer, c: nat)
    requires WriterOk(env.foreign, w) && SerializeClosure(env, w, c).Ok?
    ensures var w' := SerializeClosure(env, w, c).value;
            WriterOk(env.foreign, w') && Extends(w, w')
  {
    var (w4, row) := ClosureEntry(env, w, env.closures[c]).value;
    ClosureEntryOk(env, w, env.closures[c]);
    ClosureEnd(env.foreign, w, w4, row, c);
  }

  lemma ClosureEnd(f: Foreign, w: Writer, w4: Writer, row: ClosureRow, c: nat)
    requires WriterOk(f, w4) && Extends(w, w4)
    ensures var w' := Claim(AddClosure(w4, row), Ref(Codes, c)); WriterOk(f, w') && Extends(w, w')
  {
    var w5 := AddClosure(w4, row);
    AddClosureOk(f, w4, row);
    ExtendsTransitive(w, w4, w5);
    ClaimOk(f, w5, Ref(Codes, c));
    ExtendsTransitive(w, w5, Claim(w5, Ref(Codes, c)));
  }

  // ----- writing

  /** The discriminator. Code that has no context yet has to be a closure, or the write fails. */
  function Tag(env: World, v: Value): Byte {
    match v
    case Null => 1
    case Obj(_) => 2
    case VmNull => 3
    case Int(_) => 4
    case Num(_) => 5
    case Str(_) => 6
    case ArrVar(_) => 7
    case ArrStr(_) => 8
    case ArrInt(_) => 9
    case Hash(_) => 10
    case Code(c) => if c in env.closures then 12 else 11
    case ScRef(_) => 13
  }

  /** `MVM_serialization_write_ref`. */
  function WriteRef(env: World, w: Writer, v: Value): Written
    decreases v, 2, 0
  {
    var r := WriteBody(env, w, v);
    if r.Failed? then Failed else Written(r.w, [Tag(env, v)] + r.bytes)
  }

  function WriteBody(env: World, w: Writer, v: Value): Written
    decreases v, 1, 0
  {
    match v
    case Null => Written(w, [])
    case VmNull => Written(w, [])
    case Int(i) => WriteCode(env.codes.ints, w, i)
    case Num(bits) => WriteCode(env.codes.nums, w, bits)
    case Str(s) => WriteStr(env.codes.strs, w, s)
    case ArrVar(vs) => Counted(env.codes.ints, |vs|, WriteRefs(env, w, vs))
    case ArrStr(ss) => Counted(env.codes.ints, |ss|, WriteStrs(env.codes.strs, w, ss))
    case ArrInt(ns) => Counted(env.codes.ints, |ns|, WriteInts(env.codes.ints, w, ns))
    case Hash(m) => Counted(env.codes.ints, |Keys(env, m)|, WritePairs(env, w, v, Keys(env, m)))
    case Obj(o) => WriteItem(env, w, Ref(Objects, o))
    case Code(c) => WriteCodeRef(env, w, c)
    case ScRef(h) => WriteStr(env.codes.strs, w, Some(h))
  }

  /** An element count, then the elements; counts that do not fit 31 bits count as errors. */
  function Counted(c: Coding<Int64>, n: nat, r: Written): Written {
    if n >= LIMIT || !c.fits(n) || r.Failed? then Failed else Written(r.w, c.enc(n) + r.bytes)
  }

  /** Two writes, the second from the writer that the first one left. */
  function Both(r: Written, r': Written): Written {
    if r.Failed? || r'.Failed? then Failed else Written(r'.w, r.bytes + r'.bytes)
  }

  /** `write_obj_ref` and `MVM_serialization_write_stable_ref`: an item without a context is taken
      in; then its place is written. */
  function WriteItem(env: World, w: Writer, r: Ref): Written {
    var w1 := Claim(w, r);
    WriteLoc(env.codes.places, w1, w1.own[r])
  }

  /** `write_code_ref`, once the closure is in a context. */
  function WriteCodeRef(env: World, w: Writer, c: nat): Written {
    var w1 := Anchored(env, w, c);
    if w1.Err? then Failed else WriteLoc(env.codes.places, w1.value, w1.value.own[Ref(Codes, c)])
  }

  function Anchored(env: World, w: Writer, c: nat): (r: Result<Writer>)
    ensures r.Ok? ==> Ref(Codes, c) in r.value.own
  {
    if Ref(Codes, c) in w.own then Ok(w) else SerializeClosure(env, w, c)
  }

  /** The keys of a hash as they are written: in ascending order. */
  function Keys(env: World, m: map<string, Value>): seq<string> {
    Sort(env.iter(m.Keys))
  }

  function WriteRefs(env: World, w: Writer, vs: seq<Value>): Written
    decreases vs, 0, 0
  {
    if vs == [] then Written(w, [])
    else
      var r := WriteRef(env, w, vs[0]);
      if r.Failed? then Failed else Both(r, WriteRefs(env, r.w, vs[1..]))
  }

  function WriteStrs(c: Coding<nat>, w: Writer, ss: seq<MString>): Written
    decreases |ss|
  {
    if ss == [] then Written(w, [])
    else
      var r := WriteStr(c, w, ss[0]);
      if r.Failed? then Failed else Both(r, WriteStrs(c, r.w, ss[1..]))
  }

  function WriteInts(c: Coding<Int64>, w: Writer, ns: seq<Int64>): Written
    decreases |ns|
  {
    if ns == [] then Written(w, []) else Both(WriteCode(c, w, ns[0]), WriteInts(c, w, ns[1..]))
  }

  function WritePair(env: World, w: Writer, v: Value, k: string): Written
    requires v.Hash? && k in v.m
    decreases v, 0, 0
  {
    var r := WriteStr(env.codes.strs, w, Some(k));
    if r.Failed? then Failed else Both(r, WriteRef(env, r.w, v.m[k]))
  }

  function WritePairs(env: World, w: Writer, v: Value, keys: seq<string>): Written
    requires v.Hash?
    decreases v, 0, 1 + |keys|
  {
    if keys == [] then Written(w, [])
    else if keys[0] !in v.m then Failed
    else
      var r := WritePair(env, w, v, keys[0]);
      if r.Failed? then Failed else Both(r, WritePairs(env, r.w, v, keys[1..]))
  }

  // ----- reading

  function Map<T, U>(r: Parsed<T>, f: T -> U): Parsed<U> {
    if r.Bad? then Bad else Parsed(f(r.value), r.end)
  }

  /** `MVM_serialization_read_ref`: the value and where its bytes end. */
  function ReadRef(env: World, t: Tables, b: seq<Byte>, pos: nat): (r: Parsed<Value>)
    ensures r.Parsed? ==> pos < r.end <= |b|
    decreases Left(b, pos), 1, 0
  {
    if pos >= |b| then Bad else ReadBody(env, t, b[pos], b, pos + 1)
  }

  /** The bytes still to be read. */
  function Left(b: seq<Byte>, pos: nat): nat {
    if pos <= |b| then |b| - pos else 0
  }

  function ReadBody(env: World, t: Tables, tag: int, b: seq<Byte>, pos: nat): (r: Parsed<Value>)
    ensures r.Parsed? ==> pos <= r.end && (pos <= |b| ==> r.end <= |b|)
    decreases Left(b, pos), 3, 0
  {
    match tag
    case 1 => Parsed(Null, pos)
    case 2 => Map(ReadLoc(env.codes.places, env.foreign, t, Objects, b, pos), o => Obj(o))
    case 3 => Parsed(VmNull, pos)
    case 4 => Map(env.codes.ints.dec(b, pos), i => Int(i))
    case 5 => Map(env.codes.nums.dec(b, pos), x => Num(x))
    case 6 => Map(ReadStr(env.codes.strs, t, b, pos), s => Str(s))
    case 7 =>
      var n := ReadCount(env.codes.ints, b, pos);
      if n.Bad? then Bad else Map(ReadRefs(env, t, b, n.end, n.value), vs => ArrVar(vs))
    case 8 =>
      var n := ReadCount(env.codes.ints, b, pos);
      if n.Bad? then Bad else Map(ReadStrs(env.codes.strs, t, b, n.end, n.value), ss => ArrStr(ss))
    case 9 =>
      var n := env.codes.ints.dec(b, pos);
      if n.Bad? then Bad else Map(ReadInts(env.codes.ints, b, n.end, n.value), ns => ArrInt(ns))
    case 10 =>
      var n := ReadCount(env.codes.ints, b, pos);
      if n.Bad? then Bad else Map(ReadPairs(env, t, b, n.end, n.value, map[]), m => Hash(m))
    case 11 => Map(ReadLoc(env.codes.places, env.foreign, t, Codes, b, pos), c => Code(c))
    case 12 => Map(ReadLoc(env.codes.places, env.foreign, t, Codes, b, pos), c => Code(c))
    case 13 =>
      var s := ReadStr(env.codes.strs, t, b, pos);
      if s.Bad? || s.value.None? then Bad else Parsed(ScRef(s.value.value), s.end)
    case _ => Bad
  }

  /** The `MVMint32` that a count is read into. */
  function ReadCount(c: Coding<Int64>, b: seq<Byte>, pos: nat): (r: Parsed<int>)
    ensures r.Parsed? ==> pos < r.end <= |b|
  {
    var v := c.dec(b, pos);
    if v.Bad? then Bad else Parsed(Signed(v.value % WORD, WORD), v.end)
  }

  function ReadRefs(env: World, t: Tables, b: seq<Byte>, pos: nat, n: int): (r: Parsed<seq<Value>>)
    ensures r.Parsed? ==> pos <= r.end && (pos <= |b| ==> r.end <= |b|)
    decreases Left(b, pos), 2, if n > 0 then n else 0
  {
    if n <= 0 then Parsed([], pos)
    else
      var v := ReadRef(env, t, b, pos);
      if v.Bad? then Bad
      else
        var vs := ReadRefs(env, t, b, v.end, n - 1);
        if vs.Bad? then Bad else Parsed([v.value] + vs.value, vs.end)
  }

  function ReadStrs(c: Coding<nat>, t: Tables, b: seq<Byte>, pos: nat, n: int): (r: Parsed<seq<MString>>)
    ensures r.Parsed? ==> pos <= r.end && (pos <= |b| ==> r.end <= |b|)
    decreases if n > 0 then n else 0
  {
    if n <= 0 then Parsed([], pos)
    else
      var s := ReadStr(c, t, b, pos);
      if s.Bad? then Bad
      else
        var ss := ReadStrs(c, t, b, s.end, n - 1);
        if ss.Bad? then Bad else Parsed([s.value] + ss.value, ss.end)
  }

  function ReadInts(c: Coding<Int64>, b: seq<Byte>, pos: nat, n: int): (r: Parsed<seq<Int64>>)
    ensures r.Parsed? ==> pos <= r.end && (pos <= |b| ==> r.end <= |b|)
    decreases if n > 0 then n else 0
  {
    if n <= 0 then Parsed([], pos)
    else
      var i := c.dec(b, pos);
      if i.Bad? then Bad
      else
        var ns := ReadInts(c, b, i.end, n - 1);
        if ns.Bad? then Bad else Parsed([i.value] + ns.value, ns.end)
  }

  function ReadPair(env: World, t: Tables, b: seq<Byte>, pos: nat): (r: Parsed<(string, Value)>)
    ensures r.Parsed? ==> pos < r.end <= |b|
    decreases Left(b, pos), 2, 0
  {
    var k := ReadStr(env.codes.strs, t, b, pos);
    if k.Bad? then Bad
    else
      var v := ReadRef(env, t, b, k.end);
      if v.Bad? || k.value.None? then Bad else Parsed((k.value.value, v.value), v.end)
  }

  /** Pairs are bound one after the other, later keys over earlier ones. */
  function ReadPairs(env: World, t: Tables, b: seq<Byte>, pos: nat, n: int, m: map<string, Value>)
    : (r: Parsed<map<string, Value>>)
    ensures r.Parsed? ==> pos <= r.end && (pos <= |b| ==> r.end <= |b|)
    decreases Left(b, pos), 2, if n > 0 then n else 0
  {
    if n <= 0 then Parsed(m, pos)
    else
      var kv := ReadPair(env, t, b, pos);
      if kv.Bad? then Bad else ReadPairs(env, t, b, kv.end, n - 1, m[kv.value.0 := kv.value.1])
  }
}
