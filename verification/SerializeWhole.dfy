/** `MVM_serialization_serialize` as a whole (src/6model/serialization.c): the work lists, the
    repossessions and the concatenation, one after the other, and what is read from the bytes. */
module SerializeWhole {
  import opened Wrappers
  import opened Bytes
  import opened Packing
  import opened Tables
  import opened Values
  import opened Serialize
  import opened SerializeRuns
  import opened Serializer
  import opened Repossessions
  import opened TableRows
  import opened EndToEnd
  import ScRoots
  import ScRegistry

  /** The numbers in the tables fit 32 bits, and the bytes 31. */
  ghost predicate Fits(s: Work, reps: seq<Repossession>, unwritten: Place, interns: Sections.Section) {
    && RowsFit(FinalRows(s, reps, unwritten))
    && Sections.HEADER + |Sections.Body(SectionsOf(Finish(s, reps), FinalRows(s, reps, unwritten), interns))| < LIMIT
  }

  /** What the bytes are, and what the reader makes of them. */
  ghost predicate ReadFrom(
    env: World, g: Graph, w0: Writer, s: Work, reps: seq<Repossession>, unwritten: Place, interns: Sections.Section,
    b: seq<Byte>)
  {
    && b == Serialized(s, reps, unwritten, interns) && Sections.Dissect(b).Ok?
    && AllFound(env, g, |w0.tabs.codes|, Finish(s, reps).w, reps, b, Sections.Dissect(b).value)
  }

  lemma FinishedIsRead(
    env: World, g: Graph, all: set<Ref>, w0: Writer, run: seq<Work>, reps: seq<Repossession>,
    unwritten: Place, interns: Sections.Section)
    requires Ready(env, g, all, w0) && IsRun(env, g, w0, run) && AllDone(Last(run))
    requires Fits(Last(run), reps, unwritten, interns) && InternsOk(interns)
    ensures Sections.Outputs(SectionsOf(Finish(Last(run), reps), FinalRows(Last(run), reps, unwritten), interns))
    ensures |Serialized(Last(run), reps, unwritten, interns)| < LIMIT
    ensures ReadFrom(env, g, w0, Last(run), reps, unwritten, interns, Serialized(Last(run), reps, unwritten, interns))
  {
    var s := Last(run);
    var s', r := Finish(s, reps), FinalRows(s, reps, unwritten);
    SectionsAreOutputs(s', r, interns);
    Sections.HeaderSize(SectionsOf(s', r, interns));
    SerializedIsRead(env, g, all, w0, run, reps, unwritten, interns);
  }

  /** The work lists, and then the repossessions. */
  method Walk(env: World, g: Graph, w0: Writer, ghost all: set<Ref>, reps: seq<Repossession>)
    returns (r: Result<(Work, seq<RepoRow>)>, ghost run: seq<Work>)
    requires Ready(env, g, all, w0)
    ensures IsRun(env, g, w0, run)
    ensures r.Ok? ==> AllDone(Last(run)) && LeastClosure(env, g, w0, Last(run).w)
    ensures r.Ok? ==> r.value == (Finish(Last(run), reps), SerializeRepos(Last(run).w, reps).1)
    ensures r.Err? ==> exists k :: Throws(env, g, Last(run), k)
  {
    var writer := new SerializationWriter(env, g, w0);
    var ok;
    ok, run := writer.Serialize(all);
    if !ok {
      return Err, run;
    }
    var repos := writer.WriteRepossessions(reps);
    var s := writer.Finished();
    r := Ok((s, repos));
  }

  /** The tables as numbers, and the sections put together. */
  method PutTogether(s: Work, repos: seq<RepoRow>, unwritten: Place, interns: Sections.Section)
    returns (r: Result<seq<Byte>>)
    requires InternsOk(interns)
    ensures var rows := RowsOf(s, repos, unwritten);
            var secs := SectionsOf(s, rows, interns);
            && r.Ok? == (RowsFit(rows) && Sections.HEADER + |Sections.Body(secs)| < LIMIT)
            && (r.Ok? ==> r.value == Sections.Output(secs))
  {
    var rows := RowsOf(s, repos, unwritten);
    var secs := SectionsOf(s, rows, interns);
    var size := Sections.TotalSize(secs);
    if !RowsFit(rows) || size >= LIMIT {
      return Err;
    }
    SectionsAreOutputs(s, rows, interns);
    Sections.HeaderSize(secs);
    r := Sections.Concatenate(secs);
  }

  /** It throws if a step of the walk does, or if the numbers do not fit; otherwise every row that
      is read from the bytes leads the reader to what the item was. */
  method SerializeToBytes(
    env: World, g: Graph, w0: Writer, ghost all: set<Ref>, reps: seq<Repossession>,
    unwritten: Place, interns: Sections.Section)
    returns (r: Result<seq<Byte>>, ghost run: seq<Work>)
    requires Ready(env, g, all, w0) && InternsOk(interns)
    ensures IsRun(env, g, w0, run)
    ensures r.Ok? ==> AllDone(Last(run)) && ReadFrom(env, g, w0, Last(run), reps, unwritten, interns, r.value)
    ensures r.Ok? ==> LeastClosure(env, g, w0, Last(run).w)
    ensures r.Err? ==>
              || (exists k :: Throws(env, g, Last(run), k))
              || (AllDone(Last(run)) && !Fits(Last(run), reps, unwritten, interns))
  {
    var walked;
    walked, run := Walk(env, g, w0, all, reps);
    if walked.Err? {
      return Err, run;
    }
    r := PutTogether(walked.value.0, walked.value.1, unwritten, interns);
    if r.Ok? {
      FinishedIsRead(env, g, all, w0, run, reps, unwritten, interns);
    }
  }

  // ----- with the records of the contexts

  /** A row of the registry, with the context it names. */
  function FromRow(row: ScRoots.RepRow, names: nat -> Sc): Repossession {
    Repossession(row.kind == ScRoots.Stables, row.slot, names(row.orig), row.origIdx)
  }

  function FromRows(rows: seq<ScRoots.RepRow>, names: nat -> Sc): (reps: seq<Repossession>)
    ensures |reps| == |rows| && forall e | 0 <= e < |rows| :: reps[e] == FromRow(rows[e], names)
  {
    seq(|rows|, e requires 0 <= e < |rows| => FromRow(rows[e], names))
  }

  /** The rows are those of the records. */
  ghost predicate RowsOfRecords(c: ScRoots.Contexts, comp: nat, rows: seq<ScRoots.RepRow>) {
    && |rows| == |ScRoots.RootsOf(c, comp).repIndexes| == |ScRoots.RootsOf(c, comp).repScs|
    && forall e | 0 <= e < |rows| :: ScRoots.RowOf(c, comp, e) == Ok(rows[e])
  }

  /** The same with the repossessions that the write barrier has recorded. */
  method SerializeRegistered(
    env: World, g: Graph, w0: Writer, ghost all: set<Ref>, registry: ScRegistry.Registry, names: nat -> Sc,
    unwritten: Place, interns: Sections.Section)
    returns (r: Result<seq<Byte>>, ghost run: seq<Work>, ghost rows: seq<ScRoots.RepRow>)
    requires Ready(env, g, all, w0) && InternsOk(interns)
    requires ScRoots.Inv(registry.View(), registry.comp, registry.aggregates)
    ensures IsRun(env, g, w0, run) && RowsOfRecords(registry.View(), registry.comp, rows)
    ensures r.Ok? ==>
              AllDone(Last(run)) && ReadFrom(env, g, w0, Last(run), FromRows(rows, names), unwritten, interns, r.value)
  {
    var found := registry.SerializeRepossessions();
    rows := found;
    ghost var c := registry.View();
    r, run := SerializeToBytes(env, g, w0, all, FromRows(found, names), unwritten, interns);
    assert registry.View() == c;
  }

  lemma RecordIsRead(
    c: ScRoots.Contexts, comp: nat, rows: seq<ScRoots.RepRow>, names: nat -> Sc,
    t: Tables, b: seq<Byte>, found: Sections.Found, e: nat, row: Result<ScRoots.RepRow>)
    requires RowsOfRecords(c, comp, rows) && ReposFound(t, b, found, FromRows(rows, names))
    requires ScRoots.HasRow(c, comp, e, row)
    ensures RepoFound(t, b, found.start + 16 * e, FromRow(row.value, names))
  {
    assert RepoFound(t, b, found.start + 16 * e, FromRows(rows, names)[e]);
  }

  /** What is read about an item that was taken over at step k: its kind, the slot it got then, the
      context it was in then, and its index there. */
  lemma TakenOverIsRead(
    comp: nat, aggregates: set<nat>, ops: seq<ScRoots.Op>, k: nat, x: ScRoots.Item,
    rows: seq<ScRoots.RepRow>, names: nat -> Sc, t: Tables, b: seq<Byte>, found: Sections.Found)
    requires comp != 0 && ScRoots.AllAllowed(comp, aggregates, ops) && k < |ops|
    requires RowsOfRecords(ScRoots.Run(comp, aggregates, ops), comp, rows)
    requires ReposFound(t, b, found, FromRows(rows, names))
    requires var c0 := ScRoots.Run(comp, aggregates, ops[..k]);
             ScRoots.TakenOver(c0, comp, aggregates, ops[k]) == Some(x)
    ensures var c0 := ScRoots.Run(comp, aggregates, ops[..k]);
            && ScRoots.RowFor(c0, comp, x).Ok?
            && RepoFound(t, b, found.start + 16 * |ScRoots.RootsOf(c0, comp).repIndexes|,
                         FromRow(ScRoots.RowFor(c0, comp, x).value, names))
  {
    var c0 := ScRoots.Run(comp, aggregates, ops[..k]);
    var e := |ScRoots.RootsOf(c0, comp).repIndexes|;
    ScRoots.RunRecords(comp, aggregates, ops, k, x);
    RecordIsRead(ScRoots.Run(comp, aggregates, ops), comp, rows, names, t, b, found, e, ScRoots.RowFor(c0, comp, x));
  }
}
