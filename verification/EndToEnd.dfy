/** From a graph to bytes and back (src/6model/serialization.c): the rows of a finished run, put
    together by `concatenate_outputs`, and what a reader that dissects the bytes finds in them. */
module EndToEnd {
  import opened Wrappers
  import opened Bytes
  import opened Packing
  import opened Tables
  import opened Places
  import opened Values
  import opened Closures
  import opened Serialize
  import opened SerializeRuns
  import opened Repossessions
  import opened TableRows

  // ----- what the reader finds

  ghost predicate StableFound(env: World, g: Graph, t: Tables, b: seq<Byte>, p: nat, data: seq<Byte>, x: nat) {
    p + 12 <= |b| && StableDescribed(env, g, t, StableRowIn(b, p), data, x)
  }

  ghost predicate ObjectFound(env: World, g: Graph, t: Tables, b: seq<Byte>, p: nat, data: seq<Byte>, x: nat) {
    p + 8 <= |b| && ObjectDescribed(env, g, t, ObjectRowIn(b, p), data, x)
  }

  ghost predicate ContextFound(env: World, g: Graph, w: Writer, b: seq<Byte>, p: nat, data: seq<Byte>, x: nat) {
    p + 16 <= |b| && ContextDescribed(env, g, w, ContextRowIn(b, p), data, x)
  }

  ghost predicate ClosureFound(env: World, w: Writer, b: seq<Byte>, p: nat, c: nat) {
    p + 28 <= |b| && ClosureDescribed(env, w, ClosureRowIn(b, p), c)
  }

  // The tables that the header leads to: of each, as many rows as there are items, and row i read
  // from the bytes describes item i.

  ghost predicate StablesFound(env: World, g: Graph, t: Tables, b: seq<Byte>, found: Sections.Found, data: seq<Byte>) {
    && found.rows == |t.stables|
    && forall i | 0 <= i < |t.stables| :: StableFound(env, g, t, b, found.start + 12 * i, data, t.stables[i])
  }

  ghost predicate ObjectsFound(env: World, g: Graph, t: Tables, b: seq<Byte>, found: Sections.Found, data: seq<Byte>) {
    && found.rows == |t.objects|
    && forall i | 0 <= i < |t.objects| :: ObjectFound(env, g, t, b, found.start + 8 * i, data, t.objects[i])
  }

  ghost predicate ContextsFound(env: World, g: Graph, w: Writer, b: seq<Byte>, found: Sections.Found, data: seq<Byte>) {
    && found.rows == |w.tabs.frames|
    && forall i | 0 <= i < |w.tabs.frames| ::
         ContextFound(env, g, w, b, found.start + 16 * i, data, w.tabs.frames[i])
  }

  ghost predicate ClosuresFound(env: World, base: nat, w: Writer, b: seq<Byte>, found: Sections.Found) {
    && base + found.rows == |w.tabs.codes|
    && forall i | 0 <= i < found.rows :: ClosureFound(env, w, b, found.start + 28 * i, w.tabs.codes[base + i])
  }

  ghost predicate ReposFound(t: Tables, b: seq<Byte>, found: Sections.Found, reps: seq<Repossession>) {
    && found.rows == |reps|
    && forall i | 0 <= i < |reps| :: RepoFound(t, b, found.start + 16 * i, reps[i])
  }

  ghost predicate RepoFound(t: Tables, b: seq<Byte>, p: nat, rep: Repossession) {
    p + 16 <= |b| && RepoReads(t, RepoRowIn(b, p), rep)
  }

  lemma FindStables(
    env: World, g: Graph, w: Writer, rows: seq<StableRow>, data: seq<Byte>, later: Writer,
    b: seq<Byte>, found: Sections.Found, data': seq<Byte>)
    requires StableRowsOk(env, g, w, rows, data) && Later(env, w, data, later, data')
    requires later.tabs.stables == w.tabs.stables
    requires |w.tabs.stables| == |rows| == found.rows && StableRowsAt(b, found.start, rows)
    ensures StablesFound(env, g, later.tabs, b, found, data')
  {
    AtTheEndStables(env, g, w, rows, data, later, data');
    forall i | 0 <= i < |rows|
      ensures StableFound(env, g, later.tabs, b, found.start + 12 * i, data', w.tabs.stables[i])
    {
      assert StableRowAt(b, found.start + 12 * i, rows[i]);
    }
  }

  lemma FindObjects(
    env: World, g: Graph, w: Writer, rows: seq<ObjectRow>, data: seq<Byte>, later: Writer,
    b: seq<Byte>, found: Sections.Found, data': seq<Byte>)
    requires ObjectRowsOk(env, g, w, rows, data) && Later(env, w, data, later, data')
    requires later.tabs.objects == w.tabs.objects
    requires |w.tabs.objects| == |rows| == found.rows && ObjectRowsAt(b, found.start, rows)
    ensures ObjectsFound(env, g, later.tabs, b, found, data')
  {
    AtTheEndObjects(env, g, w, rows, data, later, data');
    forall i | 0 <= i < |rows|
      ensures ObjectFound(env, g, later.tabs, b, found.start + 8 * i, data', w.tabs.objects[i])
    {
      assert ObjectRowAt(b, found.start + 8 * i, rows[i]);
    }
  }

  lemma FindContexts(
    env: World, g: Graph, w: Writer, rows: seq<ContextRow>, data: seq<Byte>, later: Writer,
    b: seq<Byte>, found: Sections.Found, data': seq<Byte>)
    requires ContextRowsOk(env, g, w, rows, data) && Later(env, w, data, later, data')
    requires later.tabs.frames == w.tabs.frames
    requires |w.tabs.frames| == |rows| == found.rows && ContextRowsAt(b, found.start, rows)
    ensures ContextsFound(env, g, later, b, found, data')
  {
    AtTheEndContexts(env, g, w, rows, data, later, data');
    forall i | 0 <= i < |rows|
      ensures ContextFound(env, g, later, b, found.start + 16 * i, data', w.tabs.frames[i])
    {
      assert ContextRowAt(b, found.start + 16 * i, rows[i]);
    }
  }

  lemma FindClosures(env: World, base: nat, w: Writer, later: Writer, b: seq<Byte>, found: Sections.Found)
    requires ClosuresOk(env, base, w) && Grows(env, w, later) && WriterOk(env.foreign, later)
    requires SameClosures(w, later)
    requires |w.closureRows| == found.rows && ClosureRowsAt(b, found.start, w.closureRows)
    ensures ClosuresFound(env, base, later, b, found)
  {
    AtTheEndClosures(env, base, w, later);
    forall i | 0 <= i < found.rows
      ensures ClosureFound(env, later, b, found.start + 28 * i, later.tabs.codes[base + i])
    {
      assert ClosureRowAt(b, found.start + 28 * i, w.closureRows[i]);
    }
  }

  lemma FindRepos(t: Tables, rows: seq<RepoRow>, reps: seq<Repossession>, b: seq<Byte>, found: Sections.Found)
    requires AllRead(t, rows, reps) && |rows| == found.rows && RepoRowsAt(b, found.start, rows)
    ensures ReposFound(t, b, found, reps)
  {
    forall i | 0 <= i < |reps| ensures RepoFound(t, b, found.start + 16 * i, reps[i]) {
      assert RepoRowAt(b, found.start + 16 * i, rows[i]);
    }
  }

  /** The dependency rows resolve to the writer's dependencies, once those contexts are known. */
  ghost predicate DepsLead(w: Writer) {
    forall known: map<string, Sc> ::
      Knows(known, w.tabs.deps) ==> ResolveDeps(w.tabs.heap, w.depRows, known) == Ok(w.tabs.deps)
  }

  ghost predicate Knows(known: map<string, Sc>, deps: seq<Sc>) {
    forall sc | sc in deps :: sc.handle in known && known[sc.handle] == sc
  }

  lemma FindDeps(f: Foreign, w: Writer)
    requires WriterOk(f, w)
    ensures DepsLead(w)
  {
    forall known: map<string, Sc> | Knows(known, w.tabs.deps)
      ensures ResolveDeps(w.tabs.heap, w.depRows, known) == Ok(w.tabs.deps)
    {
      DepsResolve(w.tabs.heap, w.tabs.deps, w.depRows, known);
    }
  }

  /** All that a reader finds. */
  ghost predicate AllFound(
    env: World, g: Graph, base: nat, w: Writer, reps: seq<Repossession>, b: seq<Byte>, found: seq<Sections.Found>)
  {
    && |found| == 10
    && found[0].rows == |w.depRows| && DepRowsAt(b, found[0].start, w.depRows) && DepsLead(w)
    && StablesFound(env, g, w.tabs, b, found[1], DataIn(b, found, 2))
    && ObjectsFound(env, g, w.tabs, b, found[3], DataIn(b, found, 4))
    && ClosuresFound(env, base, w, b, found[5])
    && ContextsFound(env, g, w, b, found[6], DataIn(b, found, 7))
    && ReposFound(w.tabs, b, found[8], reps)
  }

  /** The rows of a finished run are read from the bytes. */
  ghost predicate RowsRead(b: seq<Byte>, found: seq<Sections.Found>, s: Work, repos: seq<RepoRow>) {
    && |found| == 10
    && found[0].rows == |s.w.depRows| && DepRowsAt(b, found[0].start, s.w.depRows)
    && found[1].rows == |s.stableRows| && StableRowsAt(b, found[1].start, s.stableRows)
    && found[3].rows == |s.objectRows| && ObjectRowsAt(b, found[3].start, s.objectRows)
    && found[5].rows == |s.w.closureRows| && ClosureRowsAt(b, found[5].start, s.w.closureRows)
    && found[6].rows == |s.contextRows| && ContextRowsAt(b, found[6].start, s.contextRows)
    && found[8].rows == |repos| && RepoRowsAt(b, found[8].start, repos)
  }

  lemma RowsAreRead(b: seq<Byte>, found: seq<Sections.Found>, s: Work, repos: seq<RepoRow>, unwritten: Place)
    requires TablesFound(b, found, s, RowsOf(s, repos, unwritten)) && RowsFit(RowsOf(s, repos, unwritten))
    ensures RowsRead(b, found, s, repos)
  {
    var r := RowsOf(s, repos, unwritten);
    DepTableRead(b, found[0].start, s.w.depRows, r.deps);
    StableTableRead(b, found[1].start, s.stableRows, r.stables);
    ObjectTableRead(b, found[3].start, s.objectRows, r.objects);
    ClosureTableRead(b, found[5].start, s.w.closureRows, unwritten, r.closures);
    ContextTableRead(b, found[6].start, s.contextRows, r.contexts);
    RepoTableRead(b, found[8].start, repos, r.repos);
  }

  /** What is written at last: the repossessions, with the dependencies they bring. */
  function Finish(s: Work, reps: seq<Repossession>): Work {
    s.(w := SerializeRepos(s.w, reps).0)
  }

  lemma SameLists(w: Writer, w': Writer)
    requires OnlyStringsAndDeps(w, w')
    ensures w'.tabs.stables == w.tabs.stables && w'.tabs.objects == w.tabs.objects
    ensures w'.tabs.frames == w.tabs.frames && SameClosures(w, w')
  {
    assert List(w'.tabs, Stables) == List(w.tabs, Stables) && List(w'.tabs, Objects) == List(w.tabs, Objects);
    assert List(w'.tabs, Frames) == List(w.tabs, Frames) && List(w'.tabs, Codes) == List(w.tabs, Codes);
  }

  lemma AllIsFound(
    env: World, g: Graph, w0: Writer, s: Work, reps: seq<Repossession>, b: seq<Byte>, found: seq<Sections.Found>)
    requires Inv(env, g, w0, s) && AllDone(s) && RowsRead(b, found, Finish(s, reps), SerializeRepos(s.w, reps).1)
    requires s.stableData <= DataIn(b, found, 2) && s.objectData <= DataIn(b, found, 4)
    requires s.contextData <= DataIn(b, found, 7)
    ensures AllFound(env, g, |w0.tabs.codes|, Finish(s, reps).w, reps, b, found)
  {
    var (later, repos) := SerializeRepos(s.w, reps);
    ReposOk(env, s.w, reps);
    SameLists(s.w, later);
    FindDeps(env.foreign, later);
    FindStables(env, g, s.w, s.stableRows, s.stableData, later, b, found[1], DataIn(b, found, 2));
    FindObjects(env, g, s.w, s.objectRows, s.objectData, later, b, found[3], DataIn(b, found, 4));
    FindClosures(env, |w0.tabs.codes|, s.w, later, b, found[5]);
    FindContexts(env, g, s.w, s.contextRows, s.contextData, later, b, found[6], DataIn(b, found, 7));
    FindRepos(later.tabs, repos, reps, b, found[8]);
  }

  /** The tables as numbers; `unwritten` stands for what is in places that are not written. */
  function FinalRows(s: Work, reps: seq<Repossession>, unwritten: Place): Rows {
    RowsOf(Finish(s, reps), SerializeRepos(s.w, reps).1, unwritten)
  }

  /** The bytes of a finished run. */
  function Serialized(s: Work, reps: seq<Repossession>, unwritten: Place, interns: Sections.Section): seq<Byte> {
    Sections.Output(SectionsOf(Finish(s, reps), FinalRows(s, reps, unwritten), interns))
  }

  lemma BytesAreFound(s: Work, reps: seq<Repossession>, unwritten: Place, interns: Sections.Section)
    requires RowsFit(FinalRows(s, reps, unwritten)) && InternsOk(interns)
    requires |Serialized(s, reps, unwritten, interns)| < LIMIT
    ensures var b := Serialized(s, reps, unwritten, interns);
            && Sections.Dissect(b).Ok?
            && TablesFound(b, Sections.Dissect(b).value, Finish(s, reps), FinalRows(s, reps, unwritten))
  {
    var s', r := Finish(s, reps), FinalRows(s, reps, unwritten);
    var secs := SectionsOf(s', r, interns);
    OutputIsLarger(secs);
    SectionsAreOutputs(s', r, interns);
    OutputLocated(secs);
    TablesAreFound(Sections.Output(secs), Sections.Layout(secs, Sections.HEADER), s', r, interns);
  }

  /** Serializing, concatenating, dissecting: for every graph and every run that worked off its
      lists, the reader accepts the bytes; the dependency rows in them resolve to the writer's
      dependencies; and every row it reads from them leads it to what the item was, or to what was
      taken over. */
  lemma SerializedIsRead(
    env: World, g: Graph, all: set<Ref>, w0: Writer, run: seq<Work>, reps: seq<Repossession>,
    unwritten: Place, interns: Sections.Section)
    requires Ready(env, g, all, w0) && IsRun(env, g, w0, run) && AllDone(Last(run))
    requires RowsFit(FinalRows(Last(run), reps, unwritten)) && InternsOk(interns)
    requires |Serialized(Last(run), reps, unwritten, interns)| < LIMIT
    ensures var w, b := Finish(Last(run), reps).w, Serialized(Last(run), reps, unwritten, interns);
            Sections.Dissect(b).Ok? && AllFound(env, g, |w0.tabs.codes|, w, reps, b, Sections.Dissect(b).value)
  {
    var s := Last(run);
    var b := Serialized(s, reps, unwritten, interns);
    RunInv(env, g, all, w0, run);
    BytesAreFound(s, reps, unwritten, interns);
    RowsAreRead(b, Sections.Dissect(b).value, Finish(s, reps), SerializeRepos(s.w, reps).1, unwritten);
    AllIsFound(env, g, w0, s, reps, b, Sections.Dissect(b).value);
  }
}
