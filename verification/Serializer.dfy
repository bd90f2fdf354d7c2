/** The writer as an object that is updated in place (src/6model/serialization.c): its methods
    are proved against the functions of Tables, Places, Values and Serialize. */
module Serializer {
  import opened Wrappers
  import opened Bytes
  import opened IntCode
  import opened Codes
  import opened Packing
  import opened Tables
  import opened Places
  import opened Values
  import opened Encoding
  import opened Parts
  import opened Serialize
  import opened SerializeRuns
  import opened Repossessions

  class SerializationWriter {
    const env: World
    const g: Graph
    var w: Writer                    // the root tables, the strings seen, the ownership marks
    var out: seq<Byte>               // *cur_write_buffer up to *cur_write_offset
    var stableRows: seq<StableRow>
    var stableData: seq<Byte>
    var objectRows: seq<ObjectRow>
    var objectData: seq<Byte>
    var contextRows: seq<ContextRow>
    var contextData: seq<Byte>
    var stablesPos: nat              // positions in the work lists
    var objectsPos: nat
    var contextsPos: nat

    ghost function View(): Work
      reads this
    {
      Work(w, stableRows, stableData, objectRows, objectData, contextRows, contextData)
    }

    ghost predicate Valid()
      reads this
    {
      stablesPos == |stableRows| && objectsPos == |objectRows| && contextsPos == |contextRows|
    }

    constructor (env: World, g: Graph, w: Writer)
      ensures Valid() && View() == Begin(w) && out == [] && this.env == env && this.g == g
    {
      this.env, this.g, this.w, this.out := env, g, w, [];
      stableRows, stableData, objectRows, objectData, contextRows, contextData := [], [], [], [], [], [];
      stablesPos, objectsPos, contextsPos := 0, 0, 0;
    }

    // ----- strings and dependencies

    method AddStringToHeap(s: MString) returns (i: nat)
      modifies this`w
      ensures (w, i) == AddString(old(w), s)
    {
      if s.None? {
        return 0;
      }
      if s.value in w.seen {
        return w.seen[s.value];
      }
      i := |w.tabs.heap|;
      w := w.(tabs := w.tabs.(heap := w.tabs.heap + [s]), seen := w.seen[s.value := i]);
    }

    method GetScId(sc: Sc) returns (id: nat)
      modifies this`w
      ensures (w, id) == ScId(old(w), sc)
    {
      if sc == w.tabs.sc {
        return 0;
      }
      for i := 0 to |w.tabs.deps|
        invariant w == old(w) && sc !in w.tabs.deps[..i]
      {
        if w.tabs.deps[i] == sc {
          IndexIsFirst(w.tabs.deps, sc, i);
          return i + 1;
        }
        assert w.tabs.deps[..i + 1] == w.tabs.deps[..i] + [w.tabs.deps[i]];
      }
      assert w.tabs.deps[..|w.tabs.deps|] == w.tabs.deps;
      var h := AddStringToHeap(Some(sc.handle));
      var d := AddStringToHeap(sc.description);
      w := w.(tabs := w.tabs.(deps := w.tabs.deps + [sc]), depRows := w.depRows + [DepRow(h, d)]);
      id := |w.tabs.deps|;
    }

    // ----- codes

    method WriteCoded<T(!new)>(c: Coding<T>, x: T) returns (ok: bool)
      modifies this`out
      ensures ok == c.fits(x) && (ok ==> out == old(out) + c.enc(x))
    {
      ok := c.fits(x);
      if ok {
        out := out + c.enc(x);
      }
    }

    /** What a writing method does: the bytes go to the end of the buffer; after an exception
        nothing is said. */
    twostate predicate Did(r: Written, ok: bool)
      reads this
    {
      ok == r.Written? && (ok ==> w == r.w && out == old(out) + r.bytes)
    }

    method WriteString(s: MString) returns (ok: bool)
      modifies this`w, this`out
      ensures Did(WriteStr(env.codes.strs, old(w), s), ok)
    {
      var i := AddStringToHeap(s);
      ok := WriteCoded(env.codes.strs, i);
    }

    method WriteLocation(loc: Loc) returns (ok: bool)
      modifies this`w, this`out
      ensures Did(WriteLoc(env.codes.places, old(w), loc), ok)
    {
      var id := GetScId(loc.sc);
      ok := WriteCoded(env.codes.places, Place(id, loc.idx));
    }

    // ----- references

    method Take(r: Ref)
      modifies this`w
      ensures w == Claim(old(w), r)
    {
      if r !in w.own {
        w := w.(tabs := Push(w.tabs, r), own := w.own[r := Loc(w.tabs.sc, |List(w.tabs, r.kind)|)]);
      }
    }

    method OuterIndex(outer: Option<nat>) returns (r: Result<nat>)
      modifies this`w
      ensures match OuterIdx(env, old(w), outer)
              case Ok((w', n)) => r == Ok(n) && w == w'
              case Err => r == Err
    {
      if outer.None? {
        return Ok(0);
      }
      var f := Ref(Frames, outer.value);
      if f !in w.own {
        if !OfInterest(env, w.own.Keys, outer.value) {
          return Ok(0);
        }
        Take(f);
        r := Ok(|w.tabs.frames|);
      } else if w.own[f].sc != w.tabs.sc {
        r := Err;
      } else {
        r := Ok(w.own[f].idx + 1);
      }
    }

    /** The context and index of an item that has a context. */
    method PlaceIn(r: Ref) returns (place: Place)
      requires r in w.own
      modifies this`w
      ensures (w, place) == PlaceOf(old(w), r)
    {
      var idx := w.own[r].idx;
      var id := GetScId(w.own[r].sc);
      place := Place(id, idx);
    }

    method CodeObjectPlace(o: Option<nat>) returns (place: Option<Place>)
      modifies this`w
      ensures (w, place) == CodeObjectRow(old(w), o)
    {
      if o.None? {
        return None;
      }
      Take(Ref(Objects, o.value));
      var p := PlaceIn(Ref(Objects, o.value));
      place := Some(p);
    }

    /** The row of a closure, before it is added. */
    method MakeClosureRow(cl: Closure) returns (r: Result<ClosureRow>)
      requires HasStatic(env, w.own.Keys, cl.staticCode)
      modifies this`w
      ensures match ClosureEntry(env, old(w), cl)
              case Ok((w', row)) => r == Ok(row) && w == w'
              case Err => r == Err
    {
      var ctx := OuterIndex(cl.outer);
      if ctx.Err? {
        return Err;
      }
      var code := PlaceIn(Ref(Codes, cl.staticCode.value));
      var codeObject := CodeObjectPlace(cl.codeObject);
      var name := AddStringToHeap(cl.name);
      r := Ok(ClosureRow(code, ctx.value, codeObject, name));
    }

    /** `serialize_closure`. */
    method AddClosureRow(c: nat) returns (ok: bool)
      modifies this`w
      ensures match SerializeClosure(env, old(w), c)
              case Ok(w') => ok && w == w'
              case Err => !ok
    {
      if c !in env.closures || !HasStatic(env, w.own.Keys, env.closures[c].staticCode) {
        return false;
      }
      var row := MakeClosureRow(env.closures[c]);
      if row.Err? {
        return false;
      }
      w := w.(closureRows := w.closureRows + [row.value]);
      Take(Ref(Codes, c));
      ok := true;
    }

    method WriteItemReference(r: Ref) returns (ok: bool)
      modifies this`w, this`out
      ensures Did(WriteItem(env, old(w), r), ok)
    {
      Take(r);
      ok := WriteLocation(w.own[r]);
    }

    method WriteCodeReference(c: nat) returns (ok: bool)
      modifies this`w, this`out
      ensures Did(WriteCodeRef(env, old(w), c), ok)
    {
      if Ref(Codes, c) !in w.own {
        ok := AddClosureRow(c);
        if !ok {
          return;
        }
      }
      ok := WriteLocation(w.own[Ref(Codes, c)]);
    }

    method WriteCount(n: nat) returns (ok: bool)
      modifies this`out
      ensures ok == (n < LIMIT && env.codes.ints.fits(n)) && (ok ==> out == old(out) + env.codes.ints.enc(n))
    {
      if n >= LIMIT {
        return false;
      }
      ok := WriteCoded(env.codes.ints, n);
    }

    method WriteIntegers(ns: seq<Int64>) returns (ok: bool)
      modifies this`out
      ensures Did(WriteInts(env.codes.ints, w, ns), ok)
    {
      ghost var all, out0 := WriteInts(env.codes.ints, w, ns), out;
      for i := 0 to |ns|
        invariant Continues(all, out0, out, WriteInts(env.codes.ints, w, ns[i..]))
      {
        assert ns[i..][1..] == ns[i + 1..];
        ok := WriteCoded(env.codes.ints, ns[i]);
        if !ok {
          return;
        }
      }
      ok := true;
    }

    method WriteStrings(ss: seq<MString>) returns (ok: bool)
      modifies this`w, this`out
      ensures Did(WriteStrs(env.codes.strs, old(w), ss), ok)
    {
      ghost var all, out0 := WriteStrs(env.codes.strs, w, ss), out;
      for i := 0 to |ss|
        invariant Continues(all, out0, out, WriteStrs(env.codes.strs, w, ss[i..]))
      {
        assert ss[i..][1..] == ss[i + 1..];
        ok := WriteString(ss[i]);
        if !ok {
          return;
        }
      }
      ok := true;
    }

    method WriteReferences(vs: seq<Value>) returns (ok: bool)
      modifies this`w, this`out
      ensures Did(WriteRefs(env, old(w), vs), ok)
      decreases vs, 0, 0
    {
      ghost var all, out0 := WriteRefs(env, w, vs), out;
      for i := 0 to |vs|
        invariant Continues(all, out0, out, WriteRefs(env, w, vs[i..]))
      {
        assert vs[i..][1..] == vs[i + 1..];
        ok := WriteReference(vs[i]);
        if !ok {
          return;
        }
      }
      ok := true;
    }

    method WriteKeyAndValue(v: Value, k: string) returns (ok: bool)
      requires v.Hash? && k in v.m
      modifies this`w, this`out
      ensures Did(WritePair(env, old(w), v, k), ok)
      decreases v, 0, 0
    {
      ok := WriteString(Some(k));
      if ok {
        ok := WriteReference(v.m[k]);
      }
    }

    method WriteKeysAndValues(v: Value, keys: seq<string>) returns (ok: bool)
      requires v.Hash?
      modifies this`w, this`out
      ensures Did(WritePairs(env, old(w), v, keys), ok)
      decreases v, 0, 1
    {
      ghost var all, out0 := WritePairs(env, w, v, keys), out;
      for i := 0 to |keys|
        invariant Continues(all, out0, out, WritePairs(env, w, v, keys[i..]))
      {
        assert keys[i..][1..] == keys[i + 1..];
        if keys[i] !in v.m {
          return false;
        }
        ok := WriteKeyAndValue(v, keys[i]);
        if !ok {
          return;
        }
      }
      ok := true;
    }

    method WriteHash(v: Value) returns (ok: bool)
      requires v.Hash?
      modifies this`w, this`out
      ensures Did(WriteBody(env, old(w), v), ok)
      decreases v, 0, 2
    {
      var keys := Keys(env, v.m);
      ok := WriteCount(|keys|);
      if ok {
        ok := WriteKeysAndValues(v, keys);
      }
    }

    /** `MVM_serialization_write_ref`. */
    method WriteReference(v: Value) returns (ok: bool)
      modifies this`w, this`out
      ensures Did(WriteRef(env, old(w), v), ok)
      decreases v, 1, 0
    {
      out := out + [Tag(env, v)];
      match v
      case Null => ok := true;
      case VmNull => ok := true;
      case Int(i) => ok := WriteCoded(env.codes.ints, i);
      case Num(bits) => ok := WriteCoded(env.codes.nums, bits);
      case Str(s) => ok := WriteString(s);
      case ArrVar(vs) =>
        ok := WriteCount(|vs|);
        if ok {
          ok := WriteReferences(vs);
        }
      case ArrStr(ss) =>
        ok := WriteCount(|ss|);
        if ok {
          ok := WriteStrings(ss);
        }
      case ArrInt(ns) =>
        ok := WriteCount(|ns|);
        if ok {
          ok := WriteIntegers(ns);
          WriteIntsKept(env.codes.ints, w, ns);
        }
      case Hash(_) => ok := WriteHash(v);
      case Obj(o) => ok := WriteItemReference(Ref(Objects, o));
      case Code(c) => ok := WriteCodeReference(c);
      case ScRef(h) => ok := WriteString(Some(h));
    }

    // ----- bodies

    method WriteOnePart(p: Part) returns (ok: bool)
      modifies this`w, this`out
      ensures Did(WritePart(env, old(w), p), ok)
    {
      match p
      case AnyRef(v) => ok := WriteReference(v);
      case ItemRef(r) =>
        ok := PartOk(p);
        if ok {
          ok := WriteItemReference(r);
        }
      case RawInt(i) => ok := WriteCoded(env.codes.ints, i);
      case RawNum(bits) => ok := WriteCoded(env.codes.nums, bits);
      case RawStr(s) => ok := WriteString(s);
      case RawByte(b) =>
        out := out + [b];
        ok := true;
      case RawBytes(bytes) =>
        ok := WriteCount(|bytes|);
        out := out + bytes;
    }

    method WriteAllParts(ps: seq<Part>) returns (ok: bool)
      modifies this`w, this`out
      ensures Did(WriteParts(env, old(w), ps), ok)
    {
      ghost var all, out0 := WriteParts(env, w, ps), out;
      for i := 0 to |ps|
        invariant Continues(all, out0, out, WriteParts(env, w, ps[i..]))
      {
        assert ps[i..][1..] == ps[i + 1..];
        ok := WriteOnePart(ps[i]);
        if !ok {
          return;
        }
      }
      ok := true;
    }

    method WriteLexical(l: Lexical) returns (ok: bool)
      modifies this`w, this`out
      ensures Did(NameAndValue(env, old(w), l), ok)
    {
      ok := WriteString(l.name);
      if ok {
        ok := WriteOnePart(l.value);
      }
    }

    /** The lexicals of a frame, in the order of its names. */
    method WriteLexicals(lexicals: seq<Lexical>) returns (ok: bool)
      modifies this`w, this`out
      ensures Did(WriteParts(env, old(w), NamesAndValues(lexicals)), ok)
    {
      ghost var all, out0 := WriteParts(env, w, NamesAndValues(lexicals)), out;
      for i := 0 to |lexicals|
        invariant Continues(all, out0, out, WriteParts(env, w, NamesAndValues(lexicals[i..])))
      {
        NextLexical(env, w, lexicals, i);
        ok := WriteLexical(lexicals[i]);
        if !ok {
          return;
        }
      }
      ok := true;
    }

    method WriteFrame(lexicals: seq<Lexical>) returns (ok: bool)
      requires |lexicals| < LIMIT
      modifies this`w, this`out
      ensures Did(WriteParts(env, old(w), LexicalParts(lexicals)), ok)
    {
      assert LexicalParts(lexicals)[1..] == NamesAndValues(lexicals);
      ok := WriteCoded(env.codes.ints, |lexicals|);
      if ok {
        ok := WriteLexicals(lexicals);
      }
    }

    // ----- rows

    method WriteStable(x: nat) returns (ok: bool)
      modifies this`w, this`out, this`stableRows, this`stableData
      ensures Reached(SerializeStable(env, g, old(View()), x), ok)
    {
      if x !in g.stables {
        return false;
      }
      var repr := AddStringToHeap(Some(g.stables[x].repr));
      var offset := |stableData|;
      out := stableData;
      ok := WriteAllParts(g.stables[x].body);
      if !ok {
        return;
      }
      stableRows := stableRows + [StableRow(repr, offset, |out|)];
      ok := WriteAllParts(g.stables[x].reprData);
      stableData := out;
    }

    /** `get_stable_ref_info`. */
    method StableReference(x: nat) returns (place: Place)
      modifies this`w
      ensures (w, place) == StableRef(old(w), x)
    {
      Take(Ref(Stables, x));
      place := PlaceIn(Ref(Stables, x));
    }

    /** The row of an object, with what overflows before the object's data. */
    method AddObjectRow(concrete: bool, sc: nat, idx: nat)
      modifies this`out, this`objectRows
      ensures out == PackRow(concrete, sc, idx, old(out)).0
      ensures objectRows == old(objectRows) + [PackRow(concrete, sc, idx, old(out)).1]
    {
      var packed := RowWord(concrete, sc, idx);
      if !Fits(sc, idx) {
        packed := RowWord(concrete, 0x7FF, 0);
        out := out + LE(sc, 4) + LE(idx, 4);
      }
      objectRows := objectRows + [ObjectRow(packed, |out|)];
    }

    method WriteObjectRow(x: nat) returns (ok: bool)
      modifies this`w, this`out, this`objectRows, this`objectData
      ensures Reached(SerializeObject(env, g, old(View()), x), ok)
    {
      if x !in g.objects {
        return false;
      }
      var node := g.objects[x];
      var place := StableReference(node.stable);
      if place.id >= LIMIT || place.idx >= LIMIT {
        return false;
      }
      out := objectData;
      AddObjectRow(node.concrete, place.id, place.idx);
      ok := true;
      if node.concrete {
        ok := WriteAllParts(node.body);
      }
      objectData := out;
    }

    method WriteContext(x: nat) returns (ok: bool)
      modifies this`w, this`out, this`contextRows, this`contextData
      ensures Reached(SerializeContext(env, g, old(View()), x), ok)
    {
      if x !in g.frames || !OfInterest(env, w.own.Keys, x) || |g.frames[x].lexicals| >= LIMIT {
        return false;
      }
      var node := g.frames[x];
      var code := PlaceIn(Ref(Codes, env.frames[x].value));
      var outer := OuterIndex(node.outer);
      if outer.Err? {
        return false;
      }
      contextRows := contextRows + [ContextRow(code, |contextData|, outer.value)];
      out := contextData;
      ok := WriteFrame(node.lexicals);
      contextData := out;
    }

    ghost predicate Reached(r: Result<Work>, ok: bool)
      reads this
    {
      ok == r.Ok? && (ok ==> View() == r.value)
    }

    /** The tables and data as they are now. */
    method Finished() returns (s: Work)
      ensures s == View()
    {
      s := Work(w, stableRows, stableData, objectRows, objectData, contextRows, contextData);
    }

    /** `serialize_repossessions`. */
    method WriteRepossessions(reps: seq<Repossession>) returns (rows: seq<RepoRow>)
      modifies this`w
      ensures (w, rows) == SerializeRepos(old(w), reps)
    {
      rows := [];
      for i := 0 to |reps|
        invariant (w, rows) == SerializeRepos(old(w), reps[..i])
      {
        assert reps[..i + 1][..i] == reps[..i];
        var id := GetScId(reps[i].orig);
        rows := rows + [RepoRow(if reps[i].isStable then 1 else 0, reps[i].slot, Place(id, reps[i].origIdx))];
      }
      assert reps[..|reps|] == reps;
    }

    // ----- the loop

    method NextStable(ghost all: set<Ref>, ghost w0: Writer, ghost run0: seq<Work>)
      returns (ok: bool, ghost run: seq<Work>)
      requires Ready(env, g, all, w0) && OnTheWay(w0, run0) && stablesPos < |w.tabs.stables|
      modifies this
      ensures WentOn(w0, run0, ok, run, Stables)
      ensures ok ==> stablesPos == old(stablesPos) + 1
      ensures ok ==> objectsPos == old(objectsPos) && contextsPos == old(contextsPos)
    {
      run := run0;
      ok := WriteStable(w.tabs.stables[stablesPos]);
      if ok {
        RunGoesOn(env, g, all, w0, run0, Stables, View());
        run := run0 + [View()];
        stablesPos := stablesPos + 1;
      }
    }

    method WorkOffStables(ghost all: set<Ref>, ghost w0: Writer, ghost run0: seq<Work>, todo: nat, did: bool)
      returns (ok: bool, workTodo: bool, ghost run: seq<Work>)
      requires Ready(env, g, all, w0) && OnTheWay(w0, run0) && todo <= |w.tabs.stables|
      modifies this
      ensures Worked(w0, run0, did, ok, workTodo, run, Stables)
      ensures ok ==> stablesPos >= todo && objectsPos == old(objectsPos) && contextsPos == old(contextsPos)
      ensures ok && !workTodo ==> stablesPos == old(stablesPos)
    {
      ok, workTodo, run := true, did, run0;
      while stablesPos < todo
        invariant ok && Worked(w0, run0, did, ok, workTodo, run, Stables) && todo <= |w.tabs.stables|
        invariant objectsPos == old(objectsPos) && contextsPos == old(contextsPos)
        invariant !workTodo ==> stablesPos == old(stablesPos)
      {
        ok, run := NextStable(all, w0, run);
        if !ok {
          return;
        }
        workTodo := true;
      }
    }

    method NextObject(ghost all: set<Ref>, ghost w0: Writer, ghost run0: seq<Work>)
      returns (ok: bool, ghost run: seq<Work>)
      requires Ready(env, g, all, w0) && OnTheWay(w0, run0) && objectsPos < |w.tabs.objects|
      modifies this
      ensures WentOn(w0, run0, ok, run, Objects)
      ensures ok ==> objectsPos == old(objectsPos) + 1
      ensures ok ==> stablesPos == old(stablesPos) && contextsPos == old(contextsPos)
    {
      run := run0;
      ok := WriteObjectRow(w.tabs.objects[objectsPos]);
      if ok {
        RunGoesOn(env, g, all, w0, run0, Objects, View());
        run := run0 + [View()];
        objectsPos := objectsPos + 1;
      }
    }

    method WorkOffObjects(ghost all: set<Ref>, ghost w0: Writer, ghost run0: seq<Work>, todo: nat, did: bool)
      returns (ok: bool, workTodo: bool, ghost run: seq<Work>)
      requires Ready(env, g, all, w0) && OnTheWay(w0, run0) && todo <= |w.tabs.objects|
      modifies this
      ensures Worked(w0, run0, did, ok, workTodo, run, Objects)
      ensures ok ==> objectsPos >= todo && stablesPos == old(stablesPos) && contextsPos == old(contextsPos)
      ensures ok && !workTodo ==> objectsPos == old(objectsPos)
    {
      ok, workTodo, run := true, did, run0;
      while objectsPos < todo
        invariant ok && Worked(w0, run0, did, ok, workTodo, run, Objects) && todo <= |w.tabs.objects|
        invariant stablesPos == old(stablesPos) && contextsPos == old(contextsPos)
        invariant !workTodo ==> objectsPos == old(objectsPos)
      {
        ok, run := NextObject(all, w0, run);
        if !ok {
          return;
        }
        workTodo := true;
      }
    }

    method NextContext(ghost all: set<Ref>, ghost w0: Writer, ghost run0: seq<Work>)
      returns (ok: bool, ghost run: seq<Work>)
      requires Ready(env, g, all, w0) && OnTheWay(w0, run0) && contextsPos < |w.tabs.frames|
      modifies this
      ensures WentOn(w0, run0, ok, run, Frames)
      ensures ok ==> contextsPos == old(contextsPos) + 1
      ensures ok ==> stablesPos == old(stablesPos) && objectsPos == old(objectsPos)
    {
      run := run0;
      ok := WriteContext(w.tabs.frames[contextsPos]);
      if ok {
        RunGoesOn(env, g, all, w0, run0, Frames, View());
        run := run0 + [View()];
        contextsPos := contextsPos + 1;
      }
    }

    method WorkOffContexts(ghost all: set<Ref>, ghost w0: Writer, ghost run0: seq<Work>, todo: nat, did: bool)
      returns (ok: bool, workTodo: bool, ghost run: seq<Work>)
      requires Ready(env, g, all, w0) && OnTheWay(w0, run0) && todo <= |w.tabs.frames|
      modifies this
      ensures Worked(w0, run0, did, ok, workTodo, run, Frames)
      ensures ok ==> contextsPos >= todo && stablesPos == old(stablesPos) && objectsPos == old(objectsPos)
      ensures ok && !workTodo ==> contextsPos == old(contextsPos)
    {
      ok, workTodo, run := true, did, run0;
      while contextsPos < todo
        invariant ok && Worked(w0, run0, did, ok, workTodo, run, Frames) && todo <= |w.tabs.frames|
        invariant stablesPos == old(stablesPos) && objectsPos == old(objectsPos)
        invariant !workTodo ==> contextsPos == old(contextsPos)
      {
        ok, run := NextContext(all, w0, run);
        if !ok {
          return;
        }
        workTodo := true;
      }
    }

    /** A run has led to the present state. */
    ghost predicate OnTheWay(w0: Writer, run: seq<Work>)
      reads this
    {
      Valid() && IsRun(env, g, w0, run) && Last(run) == View()
    }

    /** The run went on by a step, or to a step that throws. */
    ghost predicate WentOn(w0: Writer, run0: seq<Work>, ok: bool, run: seq<Work>, k: Kind)
      requires run0 != []
      reads this
    {
      if ok then
        OnTheWay(w0, run) && NotShorter(Lists(Last(run0)), Lists(View())) && Nearer(Last(run0), View())
      else
        IsRun(env, g, w0, run) && Throws(env, g, Last(run), k)
    }

    /** The run went on, nearer to its end if work was done, or to a step that throws. */
    ghost predicate Worked(
      w0: Writer, run0: seq<Work>, did: bool, ok: bool, workTodo: bool, run: seq<Work>, k: Kind)
      requires run0 != []
      reads this
    {
      if ok then
        && OnTheWay(w0, run) && NotShorter(Lists(Last(run0)), Lists(View()))
        && ((run == run0 && workTodo == did) || (Nearer(Last(run0), View()) && workTodo))
      else
        IsRun(env, g, w0, run) && Throws(env, g, Last(run), k)
    }

    /** The body of the outer loop: the lists as far as they reach now. */
    method WorkOnce(ghost all: set<Ref>, ghost w0: Writer, ghost run0: seq<Work>)
      returns (ok: bool, workTodo: bool, ghost run: seq<Work>)
      requires Ready(env, g, all, w0) && OnTheWay(w0, run0)
      modifies this
      ensures ok ==> OnTheWay(w0, run)
      ensures ok ==> if workTodo then Nearer(Last(run0), View()) else run == run0 && AllDone(View())
      ensures !ok ==> IsRun(env, g, w0, run) && exists k :: Throws(env, g, Last(run), k)
    {
      RunBounds(env, g, all, w0, run0);
      var stablesTodo, objectsTodo, contextsTodo := |w.tabs.stables|, |w.tabs.objects|, |w.tabs.frames|;
      ok, workTodo, run := WorkOffStables(all, w0, run0, stablesTodo, false);
      if !ok {
        return;
      }
      ok, workTodo, run := WorkOffObjects(all, w0, run, objectsTodo, workTodo);
      if !ok {
        return;
      }
      ok, workTodo, run := WorkOffContexts(all, w0, run, contextsTodo, workTodo);
      if ok {
        RunBounds(env, g, all, w0, run);
      }
    }

    /** `serialize`, up to the repossessions. It ends on every graph with finitely many items
        `all`. If no step throws, every list entry has its row, which a reader resolves to the
        item, and the items taken in are the least closure of the roots; otherwise a run has led
        to a step that throws. */
    method Serialize(ghost all: set<Ref>) returns (ok: bool, ghost run: seq<Work>)
      requires Valid() && View() == Begin(w) && Ready(env, g, all, w)
      modifies this
      ensures IsRun(env, g, old(w), run)
      ensures ok ==> View() == Last(run) && RowsDescribe(env, g, old(w), View())
      ensures ok ==> LeastClosure(env, g, old(w), w) && ListsAreExact(old(w), w)
      ensures !ok ==> exists k :: Throws(env, g, Last(run), k)
    {
      ghost var w0 := w;
      run := [View()];
      var workTodo := true;
      while workTodo
        invariant OnTheWay(w0, run) && Ready(env, g, all, w0)
        invariant workTodo || AllDone(View())
        decreases Capacity(all, w0) - |w.own|, Pending(View()), if workTodo then 1 else 0
      {
        RunBounds(env, g, all, w0, run);
        ok, workTodo, run := WorkOnce(all, w0, run);
        if !ok {
          return;
        }
        RunBounds(env, g, all, w0, run);
      }
      ok := true;
      AtTheEnd(env, g, all, w0, run);
    }
  }

  function NameAndValue(env: World, w: Writer, l: Lexical): Written {
    var r := WriteStr(env.codes.strs, w, l.name);
    if r.Failed? then Failed else Both(r, WritePart(env, r.w, l.value))
  }

  lemma NextLexical(env: World, w: Writer, lexicals: seq<Lexical>, i: nat)
    requires i < |lexicals|
    ensures WriteParts(env, w, NamesAndValues(lexicals[i..]))
         == (var r := NameAndValue(env, w, lexicals[i]);
             if r.Failed? then Failed else Both(r, WriteParts(env, r.w, NamesAndValues(lexicals[i + 1..]))))
  {
    var l := lexicals[i];
    var ps, rest := NamesAndValues(lexicals[i..]), NamesAndValues(lexicals[i + 1..]);
    assert lexicals[i..][1..] == lexicals[i + 1..];
    assert ps[0] == RawStr(l.name) && ps[1..] == [l.value] + rest;
    var r := WritePart(env, w, ps[0]);
    if r.Written? {
      var r1 := WritePart(env, r.w, l.value);
      assert ps[1..][0] == l.value && ps[1..][1..] == rest;
      if r1.Written? {
        var r2 := WriteParts(env, r1.w, rest);
        if r2.Written? { assert r.bytes + (r1.bytes + r2.bytes) == (r.bytes + r1.bytes) + r2.bytes; }
      }
    }
  }

  /** What is left to write brings the buffer to where all of it would have brought it. */
  ghost predicate Continues(all: Written, out0: seq<Byte>, out: seq<Byte>, rest: Written) {
    && all.Failed? == rest.Failed?
    && (all.Written? ==> all.w == rest.w && out0 + all.bytes == out + rest.bytes)
  }
}
