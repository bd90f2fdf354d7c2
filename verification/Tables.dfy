/** The tables a serialization writer grows and a reader resolves references with: the string
    heap, the dependencies, and the root lists of contexts (src/6model/serialization.c). */
module Tables {
  import opened Wrappers

  type MString = Option<string>   // None is the null string

  /** A serialization context, known by its handle. */
  datatype Sc = Sc(handle: string, description: MString)

  /** The root lists of a context: objects, STables, code, and the writer's frames. */
  datatype Kind = Objects | Stables | Codes | Frames
  datatype Ref = Ref(kind: Kind, id: nat)
  datatype Loc = Loc(sc: Sc, idx: nat)

  datatype Tables = Tables(
    sc: Sc, heap: seq<MString>, deps: seq<Sc>,
    objects: seq<nat>, stables: seq<nat>, codes: seq<nat>, frames: seq<nat>)

  /** The root lists of all other contexts. */
  type Foreign = map<(Sc, Kind), seq<nat>>

  datatype DepRow = DepRow(handle: nat, description: nat)
  /** A context's number, and an index in that context. */
  datatype Place = Place(id: nat, idx: nat)

  /** A row of the closures table: static code, context number, code object and name. */
  datatype ClosureRow = ClosureRow(code: Place, context: nat, codeObject: Option<Place>, name: nat)

  /** The writer: its tables, the strings it has seen, and who is in which context where. */
  datatype Writer = Writer(
    tabs: Tables, seen: map<string, nat>, own: map<Ref, Loc>,
    depRows: seq<DepRow>, closureRows: seq<ClosureRow>)

  function List(t: Tables, k: Kind): seq<nat> {
    match k
    case Objects => t.objects
    case Stables => t.stables
    case Codes => t.codes
    case Frames => t.frames
  }

  /** What a context holds at an index. */
  function Lookup(f: Foreign, t: Tables, k: Kind, loc: Loc): Result<nat> {
    var l := if loc.sc == t.sc then List(t, k)
             else if (loc.sc, k) in f then f[(loc.sc, k)] else [];
    if loc.idx < |l| then Ok(l[loc.idx]) else Err
  }

  /** Later tables only add to earlier ones. */
  ghost predicate TablesExtend(t: Tables, t': Tables) {
    && t'.sc == t.sc && t.heap <= t'.heap && t.deps <= t'.deps
    && t.objects <= t'.objects && t.stables <= t'.stables && t.codes <= t'.codes && t.frames <= t'.frames
  }

  ghost predicate OwnExtends(own: map<Ref, Loc>, own': map<Ref, Loc>) {
    forall r | r in own :: r in own' && own'[r] == own[r]
  }

  ghost predicate SeenExtends(seen: map<string, nat>, seen': map<string, nat>) {
    forall s | s in seen :: s in seen' && seen'[s] == seen[s]
  }

  /** A later state of a writer. */
  ghost predicate Extends(w: Writer, w': Writer) {
    && TablesExtend(w.tabs, w'.tabs)
    && w.depRows <= w'.depRows && w.closureRows <= w'.closureRows
    && OwnExtends(w.own, w'.own) && SeenExtends(w.seen, w'.seen)
  }

  /** The null string stands first; a string seen is where the hash says. */
  ghost predicate HeapOk(heap: seq<MString>, seen: map<string, nat>) {
    && heap != [] && heap[0] == None
    && forall s | s in seen :: seen[s] < |heap| && heap[seen[s]] == Some(s)
  }

  /** Every item is where its header says. */
  ghost predicate OwnOk(f: Foreign, t: Tables, own: map<Ref, Loc>) {
    forall r | r in own :: Lookup(f, t, r.kind, own[r]) == Ok(r.id)
  }

  ghost predicate DepRowOk(heap: seq<MString>, row: DepRow, sc: Sc) {
    && row.handle < |heap| && heap[row.handle] == Some(sc.handle)
    && row.description < |heap| && heap[row.description] == sc.description
  }

  /** Every dependency has one row, which names it. */
  ghost predicate DepsOk(heap: seq<MString>, deps: seq<Sc>, rows: seq<DepRow>) {
    && |rows| == |deps|
    && forall i | 0 <= i < |rows| :: DepRowOk(heap, rows[i], deps[i])
  }

  ghost predicate WriterOk(f: Foreign, w: Writer) {
    HeapOk(w.tabs.heap, w.seen) && OwnOk(f, w.tabs, w.own) && DepsOk(w.tabs.heap, w.tabs.deps, w.depRows)
  }

  lemma ExtendsTransitive(a: Writer, b: Writer, c: Writer)
    requires Extends(a, b) && Extends(b, c)
    ensures Extends(a, c)
  {}

  lemma ListExtends(t: Tables, t': Tables, k: Kind)
    requires TablesExtend(t, t')
    ensures List(t, k) <= List(t', k)
  {}

  /** A place stays good while the tables grow. */
  lemma LookupStable(f: Foreign, t: Tables, t': Tables, k: Kind, loc: Loc)
    requires TablesExtend(t, t') && Lookup(f, t, k, loc).Ok?
    ensures Lookup(f, t', k, loc) == Lookup(f, t, k, loc)
  {
    ListExtends(t, t', k);
  }

  lemma OwnStable(f: Foreign, t: Tables, t': Tables, own: map<Ref, Loc>)
    requires TablesExtend(t, t') && OwnOk(f, t, own)
    ensures OwnOk(f, t', own)
  {
    forall r | r in own ensures Lookup(f, t', r.kind, own[r]) == Ok(r.id) {
      LookupStable(f, t, t', r.kind, own[r]);
    }
  }

  lemma DepsStable(heap: seq<MString>, heap': seq<MString>, deps: seq<Sc>, rows: seq<DepRow>)
    requires heap <= heap' && DepsOk(heap, deps, rows)
    ensures DepsOk(heap', deps, rows)
  {
    forall i | 0 <= i < |rows| ensures DepRowOk(heap', rows[i], deps[i]) {
      assert DepRowOk(heap, rows[i], deps[i]);
    }
  }

  // ----- strings

  /** `add_string_to_heap`. */
  function AddString(w: Writer, s: MString): (Writer, nat) {
    match s
    case None => (w, 0)
    case Some(t) =>
      if t in w.seen then (w, w.seen[t])
      else
        var n := |w.tabs.heap|;
        (w.(tabs := w.tabs.(heap := w.tabs.heap + [s]), seen := w.seen[t := n]), n)
  }

  /** Where a string is known to stand. */
  function StringAt(seen: map<string, nat>, s: MString): Result<nat> {
    match s
    case None => Ok(0)
    case Some(t) => if t in seen then Ok(seen[t]) else Err
  }

  /** A string is found where it is known to stand. */
  lemma StringAtHolds(heap: seq<MString>, seen: map<string, nat>, s: MString)
    requires HeapOk(heap, seen) && StringAt(seen, s).Ok?
    ensures StringAt(seen, s).value < |heap| && heap[StringAt(seen, s).value] == s
  {}

  lemma StringAtStable(seen: map<string, nat>, seen': map<string, nat>, s: MString)
    requires SeenExtends(seen, seen') && StringAt(seen, s).Ok?
    ensures StringAt(seen', s) == StringAt(seen, s)
  {}

  /** The index handed back is where the string is known to stand from then on; everything else stays as it was. */
  lemma AddStringOk(f: Foreign, w: Writer, s: MString)
    requires WriterOk(f, w)
    ensures var (w', i) := AddString(w, s);
            && WriterOk(f, w') && Extends(w, w') && w'.own == w.own
            && w'.tabs == w.tabs.(heap := w'.tabs.heap) && w'.depRows == w.depRows
            && w'.closureRows == w.closureRows
            && StringAt(w'.seen, s) == Ok(i)
  {
    var w' := AddString(w, s).0;
    DepsStable(w.tabs.heap, w'.tabs.heap, w.tabs.deps, w.depRows);
    OwnStable(f, w.tabs, w'.tabs, w.own);
  }

  // ----- dependencies

  function IndexOf(scs: seq<Sc>, sc: Sc): (i: nat)
    requires sc in scs
    ensures i < |scs| && scs[i] == sc && sc !in scs[..i]
  {
    if scs[0] == sc then 0 else 1 + IndexOf(scs[1..], sc)
  }

  /** `locate_sc`. */
  function LocateSc(t: Tables, id: nat): Result<Sc> {
    if id == 0 then Ok(t.sc) else if id - 1 < |t.deps| then Ok(t.deps[id - 1]) else Err
  }

  /** The number of a context. */
  function NumberOf(t: Tables, sc: Sc): Result<nat> {
    if sc == t.sc then Ok(0) else if sc in t.deps then Ok(IndexOf(t.deps, sc) + 1) else Err
  }

  lemma {:induction false} IndexIsFirst(scs: seq<Sc>, sc: Sc, i: nat)
    requires i < |scs| && scs[i] == sc && sc !in scs[..i]
    ensures IndexOf(scs, sc) == i
  {
    var j := IndexOf(scs, sc);
    forall k | 0 <= k < i ensures scs[k] != sc { assert scs[k] in scs[..i]; }
    forall k | 0 <= k < j ensures scs[k] != sc { assert scs[k] in scs[..j]; }
  }

  lemma NumberStable(t: Tables, t': Tables, sc: Sc)
    requires TablesExtend(t, t') && NumberOf(t, sc).Ok?
    ensures NumberOf(t', sc) == NumberOf(t, sc)
  {
    if sc != t.sc {
      var i := IndexOf(t.deps, sc);
      assert t'.deps[..i] == t.deps[..i] && t'.deps[i] == sc;
      IndexIsFirst(t'.deps, sc, i);
    }
  }

  /** The number of a context locates it. */
  lemma NumberLocates(t: Tables, sc: Sc)
    requires NumberOf(t, sc).Ok?
    ensures LocateSc(t, NumberOf(t, sc).value) == Ok(sc)
  {}

  function AddDep(w: Writer, sc: Sc, row: DepRow): Writer {
    w.(tabs := w.tabs.(deps := w.tabs.deps + [sc]), depRows := w.depRows + [row])
  }

  /** `get_sc_id`. */
  function ScId(w: Writer, sc: Sc): (Writer, nat) {
    if sc == w.tabs.sc then (w, 0)
    else if sc in w.tabs.deps then (w, IndexOf(w.tabs.deps, sc) + 1)
    else
      var (w2, row) := DepStrings(w, sc);
      (AddDep(w2, sc, row), |w2.tabs.deps| + 1)
  }

  function DepStrings(w: Writer, sc: Sc): (Writer, DepRow) {
    var (w1, h) := AddString(w, Some(sc.handle));
    var (w2, d) := AddString(w1, sc.description);
    (w2, DepRow(h, d))
  }

  /** The root lists, the ownership marks and the closures are as they were. */
  ghost predicate OnlyStringsAndDeps(w: Writer, w': Writer) {
    w'.own == w.own && w'.closureRows == w.closureRows && forall k :: List(w'.tabs, k) == List(w.tabs, k)
  }

  lemma DepStringsOk(f: Foreign, w: Writer, sc: Sc)
    requires WriterOk(f, w)
    ensures var (w', row) := DepStrings(w, sc);
            && WriterOk(f, w') && Extends(w, w') && OnlyStringsAndDeps(w, w')
            && w'.tabs.deps == w.tabs.deps && DepRowOk(w'.tabs.heap, row, sc)
  {
    var (w1, h) := AddString(w, Some(sc.handle));
    AddStringOk(f, w, Some(sc.handle));
    var (w2, d) := AddString(w1, sc.description);
    AddStringOk(f, w1, sc.description);
    ExtendsTransitive(w, w1, w2);
    StringAtStable(w1.seen, w2.seen, Some(sc.handle));
    StringAtHolds(w2.tabs.heap, w2.seen, Some(sc.handle));
    StringAtHolds(w2.tabs.heap, w2.seen, sc.description);
  }

  lemma AddDepOk(f: Foreign, w: Writer, sc: Sc, row: DepRow)
    requires WriterOk(f, w) && DepRowOk(w.tabs.heap, row, sc) && sc !in w.tabs.deps && sc != w.tabs.sc
    ensures var w' := AddDep(w, sc, row);
            WriterOk(f, w') && Extends(w, w') && NumberOf(w'.tabs, sc) == Ok(|w.tabs.deps| + 1)
  {
    var deps := w.tabs.deps + [sc];
    OwnStable(f, w.tabs, AddDep(w, sc, row).tabs, w.own);
    assert deps[..|deps| - 1] == w.tabs.deps;
    IndexIsFirst(deps, sc, |deps| - 1);
  }

  /** The number handed back is the context's from then on. */
  lemma ScIdOk(f: Foreign, w: Writer, sc: Sc)
    requires WriterOk(f, w)
    ensures var (w', id) := ScId(w, sc);
            && WriterOk(f, w') && Extends(w, w') && OnlyStringsAndDeps(w, w')
            && NumberOf(w'.tabs, sc) == Ok(id)
  {
    if sc != w.tabs.sc && sc !in w.tabs.deps {
      var (w2, row) := DepStrings(w, sc);
      DepStringsOk(f, w, sc);
      AddDepOk(f, w2, sc, row);
      ExtendsTransitive(w, w2, AddDep(w2, sc, row));
    }
  }

  // ----- ownership

  function Push(t: Tables, r: Ref): Tables {
    match r.kind
    case Objects => t.(objects := t.objects + [r.id])
    case Stables => t.(stables := t.stables + [r.id])
    case Codes => t.(codes := t.codes + [r.id])
    case Frames => t.(frames := t.frames + [r.id])
  }

  lemma PushExtends(t: Tables, r: Ref)
    ensures TablesExtend(t, Push(t, r)) && Push(t, r).heap == t.heap && Push(t, r).deps == t.deps
    ensures List(Push(t, r), r.kind) == List(t, r.kind) + [r.id]
    ensures forall k | k != r.kind :: List(Push(t, r), k) == List(t, k)
  {}

  /** Take an item without a context into this one (`MVM_sc_set_*_sc` and a push). */
  function Claim(w: Writer, r: Ref): (w': Writer)
    ensures r in w'.own
  {
    if r in w.own then w
    else w.(tabs := Push(w.tabs, r), own := w.own[r := Loc(w.tabs.sc, |List(w.tabs, r.kind)|)])
  }

  lemma ClaimOk(f: Foreign, w: Writer, r: Ref)
    requires WriterOk(f, w)
    ensures WriterOk(f, Claim(w, r)) && Extends(w, Claim(w, r))
    ensures Claim(w, r).closureRows == w.closureRows
  {
    if r !in w.own {
      PushExtends(w.tabs, r);
      OwnStable(f, w.tabs, Push(w.tabs, r), w.own);
    }
  }

  // ----- the first tables

  /** `MVM_serialization_serialize`: seed strings come after the null string, and are known
      one place further on than they were handed in. */
  function SeedSeen(seeds: seq<string>): map<string, nat> {
    if seeds == [] then map[]
    else SeedSeen(seeds[..|seeds| - 1])[seeds[|seeds| - 1] := |seeds|]
  }

  function SeedHeap(seeds: seq<string>): seq<MString> {
    if seeds == [] then [None] else SeedHeap(seeds[..|seeds| - 1]) + [Some(seeds[|seeds| - 1])]
  }

  lemma {:induction false} SeedsOk(seeds: seq<string>)
    ensures |SeedHeap(seeds)| == |seeds| + 1 && HeapOk(SeedHeap(seeds), SeedSeen(seeds))
  {
    if seeds != [] { SeedsOk(seeds[..|seeds| - 1]); }
  }

  /** Each seed is one place further on than it was handed in, and known by its last place. */
  lemma {:induction false} SeedAt(seeds: seq<string>, i: nat)
    requires i < |seeds|
    ensures |SeedHeap(seeds)| == |seeds| + 1 && SeedHeap(seeds)[i + 1] == Some(seeds[i])
    ensures seeds[i] in SeedSeen(seeds) && SeedSeen(seeds)[seeds[i]] >= i + 1
    ensures (forall j | i < j < |seeds| :: seeds[j] != seeds[i]) ==> SeedSeen(seeds)[seeds[i]] == i + 1
    decreases |seeds|
  {
    SeedsOk(seeds);
    var n := |seeds| - 1;
    SeedsOk(seeds[..n]);
    if i < n { SeedAt(seeds[..n], i); }
  }

  // ----- the reader's dependencies

  /** `resolve_dependencies`: the contexts are found by their handles. */
  function ResolveDeps(heap: seq<MString>, rows: seq<DepRow>, known: map<string, Sc>): Result<seq<Sc>> {
    if rows == [] then Ok([])
    else if rows[0].handle >= |heap| || heap[rows[0].handle].None? || heap[rows[0].handle].value !in known then Err
    else
      var rest := ResolveDeps(heap, rows[1..], known);
      if rest.Err? then Err else Ok([known[heap[rows[0].handle].value]] + rest.value)
  }

  /** Once all contexts are there, the rows give back the writer's dependencies, in order. */
  lemma {:induction false} DepsResolve(heap: seq<MString>, deps: seq<Sc>, rows: seq<DepRow>, known: map<string, Sc>)
    requires DepsOk(heap, deps, rows) && forall sc | sc in deps :: sc.handle in known && known[sc.handle] == sc
    ensures ResolveDeps(heap, rows, known) == Ok(deps)
    decreases |rows|
  {
    if rows != [] {
      assert DepRowOk(heap, rows[0], deps[0]) && deps[0] in deps;
      forall i | 0 <= i < |rows[1..]| ensures DepRowOk(heap, rows[1..][i], deps[1..][i]) {
        assert DepRowOk(heap, rows[i + 1], deps[i + 1]);
      }
      DepsResolve(heap, deps[1..], rows[1..], known);
      assert deps == [deps[0]] + deps[1..];
    }
  }
}
