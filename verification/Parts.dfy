/** What a REPR writes of a body (src/6model/serialization.c): references, and numbers, strings and
    bytes without a discriminator, which the reader knows to expect. */
module Parts {
  import opened Wrappers
  import opened Bytes
  import opened IntCode
  import opened Codes
  import opened Packing
  import opened Strings
  import opened Tables
  import opened Places
  import opened Values
  import opened Encoding
  import opened ValueProofs
  import opened Ownership
  import opened Closures

  datatype Part =
    | AnyRef(v: Value)              // write_ref
    | ItemRef(r: Ref)               // write_obj_ref, write_stable_ref
    | RawInt(i: Int64)
    | RawNum(bits: Num64)
    | RawStr(s: MString)
    | RawByte(b: Byte)
    | RawBytes(bytes: seq<Byte>)    // write_ptr

  /** What the reader expects. */
  datatype Expected = AnAnyRef | AnItem(kind: Kind) | AnInt | ANum | AStr | AByte | SomeBytes

  function ShapeOf(p: Part): Expected {
    match p
    case AnyRef(_) => AnAnyRef
    case ItemRef(r) => AnItem(r.kind)
    case RawInt(_) => AnInt
    case RawNum(_) => ANum
    case RawStr(_) => AStr
    case RawByte(_) => AByte
    case RawBytes(_) => SomeBytes
  }

  function ShapesOf(ps: seq<Part>): (r: seq<Expected>)
    ensures |r| == |ps|
  {
    if ps == [] then [] else [ShapeOf(ps[0])] + ShapesOf(ps[1..])
  }

  /** Code is only referred to by way of `write_ref`. */
  predicate PartOk(p: Part) {
    p.ItemRef? ==> p.r.kind == Objects || p.r.kind == Stables
  }

  // ----- writing and reading

  function WritePart(env: World, w: Writer, p: Part): Written {
    match p
    case AnyRef(v) => WriteRef(env, w, v)
    case ItemRef(r) => if PartOk(p) then WriteItem(env, w, r) else Failed
    case RawInt(i) => WriteCode(env.codes.ints, w, i)
    case RawNum(bits) => WriteCode(env.codes.nums, w, bits)
    case RawStr(s) => WriteStr(env.codes.strs, w, s)
    case RawByte(b) => Written(w, [b])
    case RawBytes(bytes) => Counted(env.codes.ints, |bytes|, Written(w, bytes))
  }

  function WriteParts(env: World, w: Writer, ps: seq<Part>): Written
    decreases |ps|
  {
    if ps == [] then Written(w, [])
    else
      var r := WritePart(env, w, ps[0]);
      if r.Failed? then Failed else Both(r, WriteParts(env, r.w, ps[1..]))
  }

  /** `MVM_serialization_read_ptr`. */
  function ReadBytes(c: Coding<Int64>, b: seq<Byte>, pos: nat): Parsed<seq<Byte>> {
    var n := c.dec(b, pos);
    if n.Bad? || n.value < 0 || n.value >= LIMIT || n.end + n.value > |b| then Bad
    else Parsed(b[n.end..n.end + n.value], n.end + n.value)
  }

  function ReadPart(env: World, t: Tables, x: Expected, b: seq<Byte>, pos: nat): Parsed<Part> {
    match x
    case AnAnyRef => Map(ReadRef(env, t, b, pos), v => AnyRef(v))
    case AnItem(k) => Map(ReadLoc(env.codes.places, env.foreign, t, k, b, pos), id => ItemRef(Ref(k, id)))
    case AnInt => Map(env.codes.ints.dec(b, pos), i => RawInt(i))
    case ANum => Map(env.codes.nums.dec(b, pos), bits => RawNum(bits))
    case AStr => Map(ReadStr(env.codes.strs, t, b, pos), s => RawStr(s))
    case AByte => if pos < |b| then Parsed(RawByte(b[pos]), pos + 1) else Bad
    case SomeBytes => Map(ReadBytes(env.codes.ints, b, pos), bytes => RawBytes(bytes))
  }

  function ReadParts(env: World, t: Tables, xs: seq<Expected>, b: seq<Byte>, pos: nat): Parsed<seq<Part>>
    decreases |xs|
  {
    if xs == [] then Parsed([], pos)
    else
      var p := ReadPart(env, t, xs[0], b, pos);
      if p.Bad? then Bad
      else
        var ps := ReadParts(env, t, xs[1..], b, p.end);
        if ps.Bad? then Bad else Parsed([p.value] + ps.value, ps.end)
  }

  // ----- the bytes, told from the finished tables

  function EncodePart(env: World, w: Writer, p: Part): Encoded {
    match p
    case AnyRef(v) => Encode(env, w, v)
    case ItemRef(r) => EncodeItem(env.codes.places, w, r)
    case RawInt(i) => EncodeWith(env.codes.ints, i)
    case RawNum(bits) => EncodeWith(env.codes.nums, bits)
    case RawStr(s) => EncodeStr(env.codes.strs, w, s)
    case RawByte(b) => Encoded([b])
    case RawBytes(bytes) => Append(EncodeCount(env, |bytes|), Encoded(bytes))
  }

  function EncodeParts(env: World, w: Writer, ps: seq<Part>): Encoded
    decreases |ps|
  {
    if ps == [] then Encoded([]) else Append(EncodePart(env, w, ps[0]), EncodeParts(env, w, ps[1..]))
  }

  lemma PartKept(env: World, w: Writer, p: Part)
    requires WriterOk(env.foreign, w)
    ensures Kept(env.foreign, w, WritePart(env, w, p))
  {
    match p
    case AnyRef(v) => WriteRefKept(env, w, v);
    case ItemRef(r) => WriteItemKept(env, w, r);
    case RawStr(s) => WriteStrKept(env.codes.strs, env.foreign, w, s);
    case _ =>
  }

  lemma {:induction false} PartsKept(env: World, w: Writer, ps: seq<Part>)
    requires WriterOk(env.foreign, w)
    ensures Kept(env.foreign, w, WriteParts(env, w, ps))
    decreases |ps|
  {
    if ps != [] {
      var r := WritePart(env, w, ps[0]);
      PartKept(env, w, ps[0]);
      if r.Written? {
        PartsKept(env, r.w, ps[1..]);
        KeptTransitive(env.foreign, w, r.w, WriteParts(env, r.w, ps[1..]));
      }
    }
  }

  lemma PartDetermined(env: World, w: Writer, p: Part, later: Writer)
    requires WriterOk(env.foreign, w)
    ensures Determined(WritePart(env, w, p), later, EncodePart(env, later, p))
  {
    match p
    case AnyRef(v) => RefDetermined(env, w, v, later);
    case ItemRef(r) => ItemDetermined(env, w, r, later);
    case RawStr(s) => StrDetermined(env.codes.strs, env.foreign, w, s, later);
    case _ =>
  }

  lemma {:induction false} PartsDetermined(env: World, w: Writer, ps: seq<Part>, later: Writer)
    requires WriterOk(env.foreign, w)
    ensures Determined(WriteParts(env, w, ps), later, EncodeParts(env, later, ps))
    decreases |ps|
  {
    if ps != [] {
      var r := WritePart(env, w, ps[0]);
      PartDetermined(env, w, ps[0], later);
      PartKept(env, w, ps[0]);
      if r.Written? {
        PartsDetermined(env, r.w, ps[1..], later);
        PartsKept(env, r.w, ps[1..]);
        BothDetermined(env.foreign, r, WriteParts(env, r.w, ps[1..]), later,
                       EncodePart(env, later, ps[0]), EncodeParts(env, later, ps[1..]));
      }
    }
  }

  lemma BytesReadBack(env: World, bytes: seq<Byte>, b: seq<Byte>, p: nat)
    requires var e := Append(EncodeCount(env, |bytes|), Encoded(bytes)); e.Encoded? && At(b, p, e.bytes)
    ensures ReadBytes(env.codes.ints, b, p)
         == Parsed(bytes, p + |Append(EncodeCount(env, |bytes|), Encoded(bytes)).bytes|)
  {
    var e := EncodeCount(env, |bytes|).bytes;
    AtSplit(b, p, e, bytes);
    CountRoundTrip(env, b, p, |bytes|);
    AtSlice(b, p + |e|, bytes);
  }

  lemma PartReadBack(env: World, w: Writer, part: Part, b: seq<Byte>, p: nat)
    requires Readable(env, w) && EncodePart(env, w, part).Encoded? && At(b, p, EncodePart(env, w, part).bytes)
    ensures ReadPart(env, w.tabs, ShapeOf(part), b, p) == Parsed(part, p + |EncodePart(env, w, part).bytes|)
  {
    match part
    case AnyRef(v) => ReadBack(env, w, v, b, p);
    case ItemRef(r) => ItemRoundTrip(env.codes.places, env.foreign, w, r, b, p);
    case RawInt(i) => CodedAt(env.codes.ints, b, p, i);
    case RawNum(bits) => CodedAt(env.codes.nums, b, p, bits);
    case RawStr(s) => StrRoundTrip(env.codes.strs, w, s, b, p);
    case RawByte(x) => assert b[p] == [x][0];
    case RawBytes(bytes) => BytesReadBack(env, bytes, b, p);
  }

  lemma {:induction false} PartsReadBack(env: World, w: Writer, ps: seq<Part>, b: seq<Byte>, p: nat)
    requires Readable(env, w) && EncodeParts(env, w, ps).Encoded? && At(b, p, EncodeParts(env, w, ps).bytes)
    ensures ReadParts(env, w.tabs, ShapesOf(ps), b, p) == Parsed(ps, p + |EncodeParts(env, w, ps).bytes|)
    decreases |ps|
  {
    if ps != [] {
      var e, e' := EncodePart(env, w, ps[0]).bytes, EncodeParts(env, w, ps[1..]).bytes;
      AtSplit(b, p, e, e');
      PartReadBack(env, w, ps[0], b, p);
      PartsReadBack(env, w, ps[1..], b, p + |e|);
      assert ShapesOf(ps)[1..] == ShapesOf(ps[1..]);
      assert ps == [ps[0]] + ps[1..];
    }
  }

  /** A body is read back, whatever is written later. */
  lemma PartsRoundTrip(env: World, w: Writer, ps: seq<Part>, later: Writer, b: seq<Byte>, p: nat)
    requires WriterOk(env.foreign, w) && Enumerates(env.iter) && WriteParts(env, w, ps).Written?
    requires WriterOk(env.foreign, later) && Extends(WriteParts(env, w, ps).w, later)
    requires At(b, p, WriteParts(env, w, ps).bytes)
    ensures ReadParts(env, later.tabs, ShapesOf(ps), b, p) == Parsed(ps, p + |WriteParts(env, w, ps).bytes|)
  {
    PartsDetermined(env, w, ps, later);
    PartsReadBack(env, later, ps, b, p);
  }

  // ----- what is taken in

  function RefsOfPart(p: Part): set<Ref> {
    match p
    case AnyRef(v) => RefsOf(v)
    case ItemRef(r) => {r}
    case _ => {}
  }

  function RefsOfParts(ps: seq<Part>): set<Ref> {
    if ps == [] then {} else RefsOfPart(ps[0]) + RefsOfParts(ps[1..])
  }

  lemma PulledByPart(env: World, w: Writer, p: Part)
    requires Enumerates(env.iter)
    ensures PulledBy(env, w, WritePart(env, w, p), RefsOfPart(p))
  {
    match p
    case AnyRef(v) => PulledByRef(env, w, v);
    case ItemRef(r) => if PartOk(p) { PulledByItem(env, w, r); }
    case RawStr(s) => PulledByStr(env, w, s);
    case _ => PulledNothing(env, w, w);
  }

  lemma {:induction false} PulledByParts(env: World, w: Writer, ps: seq<Part>)
    requires Enumerates(env.iter)
    ensures PulledBy(env, w, WriteParts(env, w, ps), RefsOfParts(ps))
    decreases |ps|
  {
    if ps == [] {
      PulledNothing(env, w, w);
    } else {
      var r := WritePart(env, w, ps[0]);
      PulledByPart(env, w, ps[0]);
      if r.Written? {
        PulledByParts(env, r.w, ps[1..]);
        PulledByBoth(env, w, r, WriteParts(env, r.w, ps[1..]), RefsOfPart(ps[0]), RefsOfParts(ps[1..]));
      }
    }
  }

  lemma RecordedByPart(env: World, w: Writer, p: Part)
    requires WriterOk(env.foreign, w)
    ensures RecordedBy(env, w, WritePart(env, w, p))
  {
    match p
    case AnyRef(v) => RecordedByRef(env, w, v);
    case ItemRef(r) => if PartOk(p) { RecordedByItem(env, w, r); }
    case RawStr(s) => RecordedByStr(env, w, s);
    case _ =>
  }

  lemma {:induction false} RecordedByParts(env: World, w: Writer, ps: seq<Part>)
    requires WriterOk(env.foreign, w)
    ensures RecordedBy(env, w, WriteParts(env, w, ps))
    decreases |ps|
  {
    if ps != [] {
      var r := WritePart(env, w, ps[0]);
      RecordedByPart(env, w, ps[0]);
      PartKept(env, w, ps[0]);
      if r.Written? {
        RecordedByParts(env, r.w, ps[1..]);
        RecordedByBoth(env, w, r, WriteParts(env, r.w, ps[1..]));
      }
    }
  }
}
