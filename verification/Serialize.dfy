/** Serializing a graph (src/6model/serialization.c): one row for each entry of three growing
    work lists. Here are the steps and what one row says; SerializeRuns has the invariant and
    Serializer the loop. */
module Serialize {
  import opened Wrappers
  import opened Bytes
  import opened Packing
  import opened Strings
  import opened Tables
  import opened Places
  import opened Values
  import opened Ownership
  import opened Closures
  import opened Parts

  /** What there is to serialize. An STable has its own data (HOW, WHAT, WHO, caches, flags and
      specs) and its REPR's. */
  datatype ObjectNode = ObjectNode(stable: nat, concrete: bool, body: seq<Part>)
  datatype StableNode = StableNode(repr: string, body: seq<Part>, reprData: seq<Part>)
  datatype Lexical = Lexical(name: MString, value: Part)
  datatype FrameNode = FrameNode(outer: Option<nat>, lexicals: seq<Lexical>)
  datatype Graph = Graph(objects: map<nat, ObjectNode>, stables: map<nat, StableNode>, frames: map<nat, FrameNode>)

  datatype StableRow = StableRow(repr: nat, offset: nat, reprOffset: nat)
  datatype ContextRow = ContextRow(code: Place, offset: nat, outer: nat)

  /** The writer and the three tables with their data. */
  datatype Work = Work(
    w: Writer,
    stableRows: seq<StableRow>, stableData: seq<Byte>,
    objectRows: seq<ObjectRow>, objectData: seq<Byte>,
    contextRows: seq<ContextRow>, contextData: seq<Byte>)

  // ----- the steps

  /** `serialize_stable`. */
  function SerializeStable(env: World, g: Graph, s: Work, x: nat): Result<Work> {
    if x !in g.stables then Err
    else
      var (w1, repr) := AddString(s.w, Some(g.stables[x].repr));
      var r := StableData(env, w1, g.stables[x]);
      if r.Failed? then Err
      else
        var reprOffset := |s.stableData| + |WriteParts(env, w1, g.stables[x].body).bytes|;
        Ok(s.(w := r.w, stableRows := s.stableRows + [StableRow(repr, |s.stableData|, reprOffset)],
              stableData := s.stableData + r.bytes))
  }

  function StableData(env: World, w: Writer, node: StableNode): (r: Written)
    ensures r.Written? ==> WriteParts(env, w, node.body).Written?
  {
    var r := WriteParts(env, w, node.body);
    if r.Failed? then Failed else Both(r, WriteParts(env, r.w, node.reprData))
  }

  /** `get_stable_ref_info`. */
  function StableRef(w: Writer, x: nat): (Writer, Place) {
    PlaceOf(Claim(w, Ref(Stables, x)), Ref(Stables, x))
  }

  function ObjectBody(env: World, w: Writer, node: ObjectNode): Written {
    if node.concrete then WriteParts(env, w, node.body) else Written(w, [])
  }

  /** `serialize_object`; numbers that do not fit 31 bits count as errors. */
  function SerializeObject(env: World, g: Graph, s: Work, x: nat): Result<Work> {
    if x !in g.objects then Err
    else
      var node := g.objects[x];
      var (w1, place) := StableRef(s.w, node.stable);
      var r := ObjectBody(env, w1, node);
      if place.id >= LIMIT || place.idx >= LIMIT || r.Failed? then Err
      else
        var (d, row) := PackRow(node.concrete, place.id, place.idx, s.objectData);
        Ok(s.(w := r.w, objectRows := s.objectRows + [row], objectData := d + r.bytes))
  }

  function NamesAndValues(lexicals: seq<Lexical>): seq<Part> {
    if lexicals == [] then []
    else [RawStr(lexicals[0].name), lexicals[0].value] + NamesAndValues(lexicals[1..])
  }

  /** The lexicals of a frame: how many, then names and values. */
  function LexicalParts(lexicals: seq<Lexical>): seq<Part>
    requires |lexicals| < LIMIT
  {
    [RawInt(|lexicals|)] + NamesAndValues(lexicals)
  }

  /** `serialize_context`. */
  function SerializeContext(env: World, g: Graph, s: Work, x: nat): Result<Work> {
    if x !in g.frames || !OfInterest(env, s.w.own.Keys, x) || |g.frames[x].lexicals| >= LIMIT then Err
    else
      var (w1, code) := PlaceOf(s.w, Ref(Codes, env.frames[x].value));
      var ctx := OuterIdx(env, w1, g.frames[x].outer);
      if ctx.Err? then Err
      else
        var r := WriteParts(env, ctx.value.0, LexicalParts(g.frames[x].lexicals));
        if r.Failed? then Err
        else
          var row := ContextRow(code, |s.contextData|, ctx.value.1);
          Ok(s.(w := r.w, contextRows := s.contextRows + [row], contextData := s.contextData + r.bytes))
  }

  // ----- what an item refers to

  function Successors(env: World, g: Graph, owned: set<Ref>, r: Ref): set<Ref> {
    match r.kind
    case Objects =>
      if r.id !in g.objects then {}
      else {Ref(Stables, g.objects[r.id].stable)}
           + if g.objects[r.id].concrete then RefsOfParts(g.objects[r.id].body) else {}
    case Stables =>
      if r.id !in g.stables then {}
      else RefsOfParts(g.stables[r.id].body) + RefsOfParts(g.stables[r.id].reprData)
    case Codes => ClosureRefs(env, owned, r.id)
    case Frames =>
      if r.id !in g.frames then {}
      else FrameRef(env, owned, g.frames[r.id].outer) + RefsOfParts(NamesAndValues(g.frames[r.id].lexicals))
  }

  lemma SameSuccessors(env: World, g: Graph, a: set<Ref>, b: set<Ref>, r: Ref)
    requires StaticsAgree(env, a, b)
    ensures Successors(env, g, a, r) == Successors(env, g, b, r)
  {
    SameClosureRefs(env, a, b, r.id);
    if r.id in g.frames { SameInterest(env, a, b, g.frames[r.id].outer); }
  }

  // ----- what a row says

  /** The bytes at an offset are read as these parts. */
  ghost predicate Reads(env: World, t: Tables, data: seq<Byte>, offset: nat, ps: seq<Part>) {
    ReadParts(env, t, ShapesOf(ps), data, offset).Parsed? && ReadParts(env, t, ShapesOf(ps), data, offset).value == ps
  }

  /** A reader finds the STable's representation, its data and its REPR's data. */
  ghost predicate StableReads(env: World, t: Tables, row: StableRow, data: seq<Byte>, node: StableNode) {
    && row.repr < |t.heap| && t.heap[row.repr] == Some(node.repr)
    && Reads(env, t, data, row.offset, node.body)
    && Reads(env, t, data, row.reprOffset, node.reprData)
  }

  /** A reader finds the object's STable, whether it is concrete, and its body. */
  ghost predicate ObjectReads(env: World, t: Tables, row: ObjectRow, data: seq<Byte>, node: ObjectNode) {
    && UnpackRow(row, data).Ok?
    && ItemFound(env, t, Place(UnpackRow(row, data).value.0, UnpackRow(row, data).value.1), Ref(Stables, node.stable))
    && Concrete(row.packed) == node.concrete
    && (node.concrete ==> Reads(env, t, data, row.offset, node.body))
  }

  /** A reader finds the frame's static code, its outer frame and its lexicals. */
  ghost predicate ContextReads(
    env: World, w: Writer, row: ContextRow, data: seq<Byte>, code: nat, node: FrameNode)
  {
    && ItemFound(env, w.tabs, row.code, Ref(Codes, code))
    && OuterFound(env, w.own.Keys, w.tabs, row.outer, node.outer)
    && |node.lexicals| < LIMIT && Reads(env, w.tabs, data, row.offset, LexicalParts(node.lexicals))
  }

  // What a row says, it says in every later state.

  ghost predicate Later(env: World, w: Writer, data: seq<Byte>, later: Writer, data': seq<Byte>) {
    Grows(env, w, later) && WriterOk(env.foreign, later) && data <= data'
  }

  ghost predicate StableLasts(env: World, w: Writer, row: StableRow, data: seq<Byte>, node: StableNode) {
    forall later: Writer, data': seq<Byte> ::
      Later(env, w, data, later, data') ==> StableReads(env, later.tabs, row, data', node)
  }

  ghost predicate ObjectLasts(env: World, w: Writer, row: ObjectRow, data: seq<Byte>, node: ObjectNode) {
    forall later: Writer, data': seq<Byte> ::
      Later(env, w, data, later, data') ==> ObjectReads(env, later.tabs, row, data', node)
  }

  ghost predicate ContextLasts(
    env: World, w: Writer, row: ContextRow, data: seq<Byte>, code: nat, node: FrameNode)
  {
    forall later: Writer, data': seq<Byte> ::
      Later(env, w, data, later, data') ==> ContextReads(env, later, row, data', code, node)
  }

  /** Parts written at the end of some data are read there in every later state. */
  lemma WrittenReads(
    env: World, w: Writer, ps: seq<Part>, pre: seq<Byte>, post: seq<Byte>, later: Writer, data: seq<Byte>)
    requires WriterOk(env.foreign, w) && Enumerates(env.iter) && WriteParts(env, w, ps).Written?
    requires Extends(WriteParts(env, w, ps).w, later) && WriterOk(env.foreign, later)
    requires pre + WriteParts(env, w, ps).bytes + post <= data
    ensures Reads(env, later.tabs, data, |pre|, ps)
  {
    var e := WriteParts(env, w, ps).bytes;
    forall i | 0 <= i < |e| ensures e[i] == data[|pre| + i] {
      assert e[i] == (pre + e + post)[|pre| + i];
    }
    PartsRoundTrip(env, w, ps, later, data, |pre|);
  }

  /** What a step does to the writer: it stays good and only grows, what is needed and what comes
      with it is taken in, and the closures that are met get their rows. */
  ghost predicate Stepped(env: World, w: Writer, w': Writer, need: set<Ref>) {
    WriterOk(env.foreign, w') && Extends(w, w') && Pulled(env, w, w', need) && Recorded(env, w, w')
  }

  lemma SteppedCompose(env: World, a: Writer, b: Writer, c: Writer, n: set<Ref>, n': set<Ref>)
    requires Stepped(env, a, b, n) && Stepped(env, b, c, n')
    ensures Stepped(env, a, c, n + n')
  {
    ExtendsTransitive(a, b, c);
    PulledCompose(env, a, b, c, n, n');
  }

  lemma SteppedByString(env: World, w: Writer, s: MString)
    requires WriterOk(env.foreign, w)
    ensures Stepped(env, w, AddString(w, s).0, {})
  {
    AddStringOk(env.foreign, w, s);
    PulledByString(env, w, s);
    StringSame(env, w, s);
    RecordedSame(env, w, AddString(w, s).0);
  }

  lemma SteppedByParts(env: World, w: Writer, ps: seq<Part>)
    requires WriterOk(env.foreign, w) && Enumerates(env.iter) && WriteParts(env, w, ps).Written?
    ensures Stepped(env, w, WriteParts(env, w, ps).w, RefsOfParts(ps))
  {
    PartsKept(env, w, ps);
    PulledByParts(env, w, ps);
    RecordedByParts(env, w, ps);
  }

  lemma SteppedByPlace(env: World, w: Writer, r: Ref)
    requires WriterOk(env.foreign, w) && r in w.own
    ensures Stepped(env, w, PlaceOf(w, r).0, {})
  {
    PlaceOfOk(env.foreign, w, r);
    PulledByScId(env, w, w.own[r].sc);
    ScIdSame(env, w, w.own[r].sc);
    RecordedSame(env, w, PlaceOf(w, r).0);
  }

  lemma SteppedByOuter(env: World, w: Writer, outer: Option<nat>)
    requires WriterOk(env.foreign, w) && OuterIdx(env, w, outer).Ok?
    ensures Stepped(env, w, OuterIdx(env, w, outer).value.0, FrameRef(env, w.own.Keys, outer))
  {
    OuterIdxKept(env, w, outer);
    PulledByContext(env, w, outer);
    OuterSame(env, w, outer);
    RecordedSame(env, w, OuterIdx(env, w, outer).value.0);
  }

  // ----- STables

  lemma StableDataStepped(env: World, w: Writer, node: StableNode)
    requires WriterOk(env.foreign, w) && Enumerates(env.iter) && StableData(env, w, node).Written?
    ensures Stepped(env, w, StableData(env, w, node).w, RefsOfParts(node.body) + RefsOfParts(node.reprData))
  {
    var w1 := WriteParts(env, w, node.body).w;
    SteppedByParts(env, w, node.body);
    SteppedByParts(env, w1, node.reprData);
    SteppedCompose(env, w, w1, StableData(env, w, node).w, RefsOfParts(node.body), RefsOfParts(node.reprData));
  }

  lemma StableStepped(env: World, w: Writer, node: StableNode)
    requires WriterOk(env.foreign, w) && Enumerates(env.iter)
    requires StableData(env, AddString(w, Some(node.repr)).0, node).Written?
    ensures Stepped(env, w, StableData(env, AddString(w, Some(node.repr)).0, node).w,
                    RefsOfParts(node.body) + RefsOfParts(node.reprData))
  {
    var w1, need := AddString(w, Some(node.repr)).0, RefsOfParts(node.body) + RefsOfParts(node.reprData);
    SteppedByString(env, w, Some(node.repr));
    StableDataStepped(env, w1, node);
    SteppedCompose(env, w, w1, StableData(env, w1, node).w, {}, need);
    assert {} + need == need;
  }

  lemma StableRowLasts(env: World, w: Writer, node: StableNode, pre: seq<Byte>)
    requires WriterOk(env.foreign, w) && Enumerates(env.iter)
    requires StableData(env, AddString(w, Some(node.repr)).0, node).Written?
    ensures var (w1, repr) := AddString(w, Some(node.repr));
            var r, reprOffset := StableData(env, w1, node), |pre| + |WriteParts(env, w1, node.body).bytes|;
            StableLasts(env, r.w, StableRow(repr, |pre|, reprOffset), pre + r.bytes, node)
  {
    var (w1, repr) := AddString(w, Some(node.repr));
    var r, row := StableData(env, w1, node), StableRow(repr, |pre|, |pre| + |WriteParts(env, w1, node.body).bytes|);
    forall later: Writer, data': seq<Byte> | Later(env, r.w, pre + r.bytes, later, data')
      ensures StableReads(env, later.tabs, row, data', node)
    {
      StableRowReads(env, w, node, pre, later, data');
    }
  }

  lemma SerializeStableIs(env: World, g: Graph, s: Work, x: nat)
    requires SerializeStable(env, g, s, x).Ok?
    ensures var s', (w1, repr) := SerializeStable(env, g, s, x).value, AddString(s.w, Some(g.stables[x].repr));
            var r := StableData(env, w1, g.stables[x]);
            && r.Written? && s'.w == r.w && s'.stableData == s.stableData + r.bytes
            && |s'.stableRows| == |s.stableRows| + 1
            && s'.stableRows[|s.stableRows|]
            == StableRow(repr, |s.stableData|, |s.stableData| + |WriteParts(env, w1, g.stables[x].body).bytes|)
  {}

  /** A step leaves a good writer that only grew and took in what the item refers to. */
  lemma StableStep(env: World, g: Graph, s: Work, x: nat)
    requires WriterOk(env.foreign, s.w) && Enumerates(env.iter) && SerializeStable(env, g, s, x).Ok?
    ensures Stepped(env, s.w, SerializeStable(env, g, s, x).value.w, Successors(env, g, s.w.own.Keys, Ref(Stables, x)))
  {
    SerializeStableIs(env, g, s, x);
    StableStepped(env, s.w, g.stables[x]);
  }

  /** The new row says what the item is, now and in every later state. */
  lemma StableNewRow(env: World, g: Graph, s: Work, x: nat)
    requires WriterOk(env.foreign, s.w) && Enumerates(env.iter) && SerializeStable(env, g, s, x).Ok?
    ensures var s' := SerializeStable(env, g, s, x).value;
            StableLasts(env, s'.w, s'.stableRows[|s.stableRows|], s'.stableData, g.stables[x])
  {
    SerializeStableIs(env, g, s, x);
    StableRowLasts(env, s.w, g.stables[x], s.stableData);
  }

  lemma StableRowReads(env: World, w: Writer, node: StableNode, pre: seq<Byte>, later: Writer, data: seq<Byte>)
    requires WriterOk(env.foreign, w) && Enumerates(env.iter)
    requires var r := StableData(env, AddString(w, Some(node.repr)).0, node);
             r.Written? && Later(env, r.w, pre + r.bytes, later, data)
    ensures var (w1, repr) := AddString(w, Some(node.repr));
            var reprOffset := |pre| + |WriteParts(env, w1, node.body).bytes|;
            StableReads(env, later.tabs, StableRow(repr, |pre|, reprOffset), data, node)
  {
    var w1 := AddString(w, Some(node.repr)).0;
    AddStringOk(env.foreign, w, Some(node.repr));
    StableDataKept(env, w1, node);
    ExtendsTransitive(w1, StableData(env, w1, node).w, later);
    NameLasts(env.foreign, w, Some(node.repr), later);
    StableDataReads(env, w1, node, pre, later, data);
  }

  lemma StableDataKept(env: World, w: Writer, node: StableNode)
    requires WriterOk(env.foreign, w) && StableData(env, w, node).Written?
    ensures WriterOk(env.foreign, StableData(env, w, node).w) && Extends(w, StableData(env, w, node).w)
  {
    var r := WriteParts(env, w, node.body);
    PartsKept(env, w, node.body);
    PartsKept(env, r.w, node.reprData);
    KeptTransitive(env.foreign, w, r.w, WriteParts(env, r.w, node.reprData));
  }

  lemma StableDataReads(env: World, w: Writer, node: StableNode, pre: seq<Byte>, later: Writer, data: seq<Byte>)
    requires WriterOk(env.foreign, w) && Enumerates(env.iter) && StableData(env, w, node).Written?
    requires Extends(StableData(env, w, node).w, later) && WriterOk(env.foreign, later)
    requires pre + StableData(env, w, node).bytes <= data
    ensures Reads(env, later.tabs, data, |pre|, node.body)
    ensures Reads(env, later.tabs, data, |pre| + |WriteParts(env, w, node.body).bytes|, node.reprData)
  {
    var r := WriteParts(env, w, node.body);
    var r' := WriteParts(env, r.w, node.reprData);
    PartsKept(env, w, node.body);
    PartsKept(env, r.w, node.reprData);
    ExtendsTransitive(r.w, r'.w, later);
    ThreePieces(pre, r.bytes, r'.bytes);
    WrittenReads(env, w, node.body, pre, r'.bytes, later, data);
    ReprDataReads(env, r.w, node.reprData, pre + r.bytes, later, data);
  }

  lemma ThreePieces(a: seq<Byte>, b: seq<Byte>, c: seq<Byte>)
    ensures a + (b + c) == a + b + c
  {}

  lemma ReprDataReads(env: World, w: Writer, ps: seq<Part>, pre: seq<Byte>, later: Writer, data: seq<Byte>)
    requires WriterOk(env.foreign, w) && Enumerates(env.iter) && WriteParts(env, w, ps).Written?
    requires Extends(WriteParts(env, w, ps).w, later) && WriterOk(env.foreign, later)
    requires pre + WriteParts(env, w, ps).bytes <= data
    ensures Reads(env, later.tabs, data, |pre|, ps)
  {
    assert pre + WriteParts(env, w, ps).bytes + [] == pre + WriteParts(env, w, ps).bytes;
    WrittenReads(env, w, ps, pre, [], later, data);
  }

  // ----- objects

  lemma StableRefStepped(env: World, w: Writer, x: nat)
    requires WriterOk(env.foreign, w)
    ensures Stepped(env, w, StableRef(w, x).0, {Ref(Stables, x)})
  {
    var r := Ref(Stables, x);
    ClaimGrows(env, w, r);
    ClaimSame(w, r);
    PulledByClaim(env, w, r);
    RecordedSame(env, w, Claim(w, r));
    SteppedByPlace(env, Claim(w, r), r);
    SteppedCompose(env, w, Claim(w, r), StableRef(w, x).0, {r}, {});
    assert {r} + {} == {r};
  }

  lemma ObjectBodyStepped(env: World, w: Writer, node: ObjectNode)
    requires WriterOk(env.foreign, w) && Enumerates(env.iter) && ObjectBody(env, w, node).Written?
    ensures Stepped(env, w, ObjectBody(env, w, node).w, if node.concrete then RefsOfParts(node.body) else {})
  {
    if node.concrete { SteppedByParts(env, w, node.body); } else { PulledNothing(env, w, w); }
  }

  /** The same for objects. */
  lemma ObjectStep(env: World, g: Graph, s: Work, x: nat)
    requires WriterOk(env.foreign, s.w) && Enumerates(env.iter) && SerializeObject(env, g, s, x).Ok?
    ensures Stepped(env, s.w, SerializeObject(env, g, s, x).value.w, Successors(env, g, s.w.own.Keys, Ref(Objects, x)))
  {
    var node, s' := g.objects[x], SerializeObject(env, g, s, x).value;
    var w1 := StableRef(s.w, node.stable).0;
    StableRefStepped(env, s.w, node.stable);
    ObjectBodyStepped(env, w1, node);
    SteppedCompose(env, s.w, w1, s'.w, {Ref(Stables, node.stable)},
                   if node.concrete then RefsOfParts(node.body) else {});
  }

  lemma ObjectNewRow(env: World, g: Graph, s: Work, x: nat)
    requires WriterOk(env.foreign, s.w) && Enumerates(env.iter) && SerializeObject(env, g, s, x).Ok?
    ensures var s' := SerializeObject(env, g, s, x).value;
            && s.objectData <= s'.objectData
            && ObjectLasts(env, s'.w, s'.objectRows[|s.objectRows|], s'.objectData, g.objects[x])
  {
    var node, s' := g.objects[x], SerializeObject(env, g, s, x).value;
    forall later: Writer, data': seq<Byte> | Later(env, s'.w, s'.objectData, later, data')
      ensures ObjectReads(env, later.tabs, s'.objectRows[|s.objectRows|], data', node)
    {
      ObjectRowReads(env, s.w, node, s.objectData, later, data');
    }
  }

  lemma ObjectRowReads(env: World, w: Writer, node: ObjectNode, pre: seq<Byte>, later: Writer, data: seq<Byte>)
    requires WriterOk(env.foreign, w) && Enumerates(env.iter)
    requires var (w1, place) := StableRef(w, node.stable);
             var r := ObjectBody(env, w1, node);
             var (d, row) := PackRow(node.concrete, place.id, place.idx, pre);
             && place.id < LIMIT && place.idx < LIMIT && r.Written?
             && Later(env, r.w, d + r.bytes, later, data)
    ensures var (w1, place) := StableRef(w, node.stable);
            ObjectReads(env, later.tabs, PackRow(node.concrete, place.id, place.idx, pre).1, data, node)
  {
    var x := Ref(Stables, node.stable);
    var (w1, place) := StableRef(w, node.stable);
    var r := ObjectBody(env, w1, node);
    var (d, row) := PackRow(node.concrete, place.id, place.idx, pre);
    ClaimOk(env.foreign, w, x);
    PlaceOfOk(env.foreign, Claim(w, x), x);
    ObjectBodyStepped(env, w1, node);
    ExtendsTransitive(w1, r.w, later);
    PrefixOfLater(d, r.bytes, data);
    RowRoundTrip(node.concrete, place.id, place.idx, pre, data);
    PlaceFound(env, w1, x, place, later);
    if node.concrete {
      assert d + r.bytes + [] == d + r.bytes;
      WrittenReads(env, w1, node.body, d, [], later, data);
    }
  }

  lemma PrefixOfLater(d: seq<Byte>, e: seq<Byte>, data: seq<Byte>)
    requires d + e <= data
    ensures d <= data
  {
    assert forall i | 0 <= i < |d| :: d[i] == (d + e)[i];
  }

  // ----- contexts

  lemma LexicalRefs(lexicals: seq<Lexical>)
    requires |lexicals| < LIMIT
    ensures RefsOfParts(LexicalParts(lexicals)) == RefsOfParts(NamesAndValues(lexicals))
  {
    assert LexicalParts(lexicals)[1..] == NamesAndValues(lexicals);
  }

  lemma ContextStepped(env: World, w: Writer, r: Ref, node: FrameNode)
    requires WriterOk(env.foreign, w) && Enumerates(env.iter) && r in w.own && |node.lexicals| < LIMIT
    requires var ctx := OuterIdx(env, PlaceOf(w, r).0, node.outer);
             ctx.Ok? && WriteParts(env, ctx.value.0, LexicalParts(node.lexicals)).Written?
    ensures var w2 := OuterIdx(env, PlaceOf(w, r).0, node.outer).value.0;
            Stepped(env, w, WriteParts(env, w2, LexicalParts(node.lexicals)).w,
                    FrameRef(env, w.own.Keys, node.outer) + RefsOfParts(NamesAndValues(node.lexicals)))
  {
    var w1 := PlaceOf(w, r).0;
    var w2 := OuterIdx(env, w1, node.outer).value.0;
    var n := FrameRef(env, w.own.Keys, node.outer);
    PlaceOfOk(env.foreign, w, r);
    SteppedByPlace(env, w, r);
    SteppedByOuter(env, w1, node.outer);
    SteppedCompose(env, w, w1, w2, {}, n);
    assert {} + n == n;
    SteppedByParts(env, w2, LexicalParts(node.lexicals));
    LexicalRefs(node.lexicals);
    SteppedCompose(env, w, w2, WriteParts(env, w2, LexicalParts(node.lexicals)).w, n,
                   RefsOfParts(NamesAndValues(node.lexicals)));
  }

  /** The same for frames. */
  lemma ContextStep(env: World, g: Graph, s: Work, x: nat)
    requires WriterOk(env.foreign, s.w) && Enumerates(env.iter) && SerializeContext(env, g, s, x).Ok?
    ensures Stepped(env, s.w, SerializeContext(env, g, s, x).value.w, Successors(env, g, s.w.own.Keys, Ref(Frames, x)))
  {
    ContextStepped(env, s.w, Ref(Codes, env.frames[x].value), g.frames[x]);
  }

  lemma ContextNewRow(env: World, g: Graph, s: Work, x: nat)
    requires WriterOk(env.foreign, s.w) && Enumerates(env.iter) && SerializeContext(env, g, s, x).Ok?
    ensures var s' := SerializeContext(env, g, s, x).value;
            ContextLasts(env, s'.w, s'.contextRows[|s.contextRows|], s'.contextData, env.frames[x].value, g.frames[x])
  {
    var node, s', code := g.frames[x], SerializeContext(env, g, s, x).value, env.frames[x].value;
    forall later: Writer, data': seq<Byte> | Later(env, s'.w, s'.contextData, later, data')
      ensures ContextReads(env, later, s'.contextRows[|s.contextRows|], data', code, node)
    {
      ContextRowReads(env, s.w, code, node, s.contextData, later, data');
    }
  }

  lemma ContextRowReads(
    env: World, w: Writer, code: nat, node: FrameNode, pre: seq<Byte>, later: Writer, data: seq<Byte>)
    requires WriterOk(env.foreign, w) && Enumerates(env.iter) && Ref(Codes, code) in w.own && |node.lexicals| < LIMIT
    requires var ctx := OuterIdx(env, PlaceOf(w, Ref(Codes, code)).0, node.outer);
             ctx.Ok? && var r := WriteParts(env, ctx.value.0, LexicalParts(node.lexicals));
                        r.Written? && Later(env, r.w, pre + r.bytes, later, data)
    ensures var (w1, place) := PlaceOf(w, Ref(Codes, code));
            var n := OuterIdx(env, w1, node.outer).value.1;
            ContextReads(env, later, ContextRow(place, |pre|, n), data, code, node)
  {
    var x, ps := Ref(Codes, code), LexicalParts(node.lexicals);
    var (w1, place) := PlaceOf(w, x);
    PlaceOfOk(env.foreign, w, x);
    ContextDataReads(env, w1, node, ps, pre, later, data);
    PlaceFound(env, w1, x, place, later);
  }

  lemma ContextDataReads(
    env: World, w: Writer, node: FrameNode, ps: seq<Part>, pre: seq<Byte>, later: Writer, data: seq<Byte>)
    requires WriterOk(env.foreign, w) && Enumerates(env.iter) && OuterIdx(env, w, node.outer).Ok?
    requires var r := WriteParts(env, OuterIdx(env, w, node.outer).value.0, ps);
             r.Written? && Later(env, r.w, pre + r.bytes, later, data)
    ensures Extends(w, later)
    ensures OuterFound(env, later.own.Keys, later.tabs, OuterIdx(env, w, node.outer).value.1, node.outer)
    ensures Reads(env, later.tabs, data, |pre|, ps)
  {
    var w2 := OuterIdx(env, w, node.outer).value.0;
    var r := WriteParts(env, w2, ps);
    OuterIdxKept(env, w, node.outer);
    PartsKept(env, w2, ps);
    ExtendsTransitive(w2, r.w, later);
    ExtendsTransitive(w, w2, later);
    ContextStatics(env, w, node.outer, ps);
    OuterIdxFound(env, w, node.outer, later);
    assert pre + r.bytes + [] == pre + r.bytes;
    WrittenReads(env, w2, ps, pre, [], later, data);
  }

  lemma ContextStatics(env: World, w: Writer, outer: Option<nat>, ps: seq<Part>)
    requires Enumerates(env.iter) && OuterIdx(env, w, outer).Ok?
    requires WriteParts(env, OuterIdx(env, w, outer).value.0, ps).Written?
    ensures StaticsAgree(env, w.own.Keys, WriteParts(env, OuterIdx(env, w, outer).value.0, ps).w.own.Keys)
  {
    PulledByContext(env, w, outer);
    PulledByParts(env, OuterIdx(env, w, outer).value.0, ps);
  }
}
