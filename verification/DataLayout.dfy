/** Which number stands where in the serialized data (src/6model/serialization.c): the header, and the
    fields of the table rows. */
module DataLayout {
  import opened Bytes
  import opened Packing
  import opened Tables
  import opened Serialize
  import opened Repossessions
  import opened Sections
  import opened TableRows
  import opened EndToEnd

  // ----- the header

  /** Start and number of rows, or the start alone for data. */
  ghost predicate TableEntry(b: seq<Byte>, p: nat, f: Found) {
    p + 8 <= |b| && Word(b, p) == f.start && Word(b, p + 4) == f.rows
  }

  ghost predicate DataEntry(b: seq<Byte>, p: nat, f: Found) {
    p + 4 <= |b| && Word(b, p) == f.start
  }

  /** The next entry of the header. */
  lemma NextEntry(b: seq<Byte>, shapes: seq<Shape>, p: nat, found: seq<Found>, prov: nat)
    requires shapes != [] && HeaderSays(b, shapes, p, found) && InOrder(shapes, found, prov, |b|) && |b| < LIMIT
    ensures found != [] && p + EntrySize(shapes[0]) <= |b|
    ensures if shapes[0].Data? then DataEntry(b, p, found[0]) else TableEntry(b, p, found[0])
    ensures HeaderSays(b, shapes[1..], p + EntrySize(shapes[0]), found[1..])
    ensures InOrder(shapes[1..], found[1..], found[0].start + Extent(shapes[0], found[0].rows), |b|)
  {
    StartIsWord(Word(b, p), found[0].start);
    Widths();
    assert |b[p..p + 4]| == 4;
  }

  lemma StartIsWord(x: nat, start: nat)
    requires Signed(x, WORD) == start
    ensures x < WORD ==> x == start
  {}

  /** From the k-th section on, the header is as it should be. */
  ghost predicate SaysFrom(b: seq<Byte>, shapes: seq<Shape>, found: seq<Found>, k: nat, p: nat) {
    && k <= |shapes| && k <= |found| && HeaderSays(b, shapes[k..], p, found[k..])
    && exists prov: nat :: InOrder(shapes[k..], found[k..], prov, |b|)
  }

  lemma EntryOf(b: seq<Byte>, shapes: seq<Shape>, found: seq<Found>, k: nat, p: nat, size: nat)
    requires SaysFrom(b, shapes, found, k, p) && k < |shapes| && |b| < LIMIT && size == EntrySize(shapes[k])
    ensures k < |found| && SaysFrom(b, shapes, found, k + 1, p + size)
    ensures if size == 4 then DataEntry(b, p, found[k]) else TableEntry(b, p, found[k])
  {
    var prov: nat :| InOrder(shapes[k..], found[k..], prov, |b|);
    NextEntry(b, shapes[k..], p, found[k..], prov);
    assert shapes[k..][1..] == shapes[k + 1..] && found[k..][1..] == found[k + 1..] && found[k..][0] == found[k];
  }

  /** The version, and then the sections: dependencies, STables and their data, objects and their
      data, closures, contexts and their data, repossessions, interned parameterizations. */
  ghost predicate HeaderIs(b: seq<Byte>, found: seq<Found>) {
    && |found| == 10 && |b| >= 72 && Word(b, 0) == 24
    && TableEntry(b, 4, found[0]) && TableEntry(b, 12, found[1]) && DataEntry(b, 20, found[2])
    && TableEntry(b, 24, found[3]) && DataEntry(b, 32, found[4]) && TableEntry(b, 36, found[5])
    && TableEntry(b, 44, found[6]) && DataEntry(b, 52, found[7]) && TableEntry(b, 56, found[8])
    && TableEntry(b, 64, found[9])
  }

  lemma EntriesFollow(b: seq<Byte>, shapes: seq<Shape>, found: seq<Found>)
    requires shapes == SHAPES && SaysFrom(b, shapes, found, 0, 4) && |b| < LIMIT && |found| == 10
    requires |b| >= 72 && Word(b, 0) == 24
    ensures HeaderIs(b, found)
  {
    EntryOf(b, shapes, found, 0, 4, 8);
    EntryOf(b, shapes, found, 1, 12, 8);
    EntryOf(b, shapes, found, 2, 20, 4);
    EntryOf(b, shapes, found, 3, 24, 8);
    EntryOf(b, shapes, found, 4, 32, 4);
    EntryOf(b, shapes, found, 5, 36, 8);
    EntryOf(b, shapes, found, 6, 44, 8);
    EntryOf(b, shapes, found, 7, 52, 4);
    EntryOf(b, shapes, found, 8, 56, 8);
    EntryOf(b, shapes, found, 9, 64, 8);
  }

  lemma HeaderWords(secs: seq<Section>)
    requires Outputs(secs) && |Output(secs)| < LIMIT
    ensures HeaderIs(Output(secs), Layout(secs, HEADER))
  {
    var b, found := Output(secs), Layout(secs, HEADER);
    HeaderSize(secs);
    OutputAt(secs);
    DissectOutput(secs);
    DissectIff(b, SHAPES, 4, HEADER, found);
    LayoutSize(secs, HEADER);
    AtSplit(b, 0, LE(VERSION, 4), Entries(secs, HEADER));
    VersionAt(b, LE(VERSION, 4));
    TenSections(secs);
    assert SHAPES[0..] == SHAPES && found[0..] == found;
    EntriesFollow(b, SHAPES, found);
  }

  lemma {:induction false} AsManyShapes(secs: seq<Section>)
    ensures |Shapes(secs)| == |secs|
  {
    if secs != [] { AsManyShapes(secs[1..]); }
  }

  lemma TenSections(secs: seq<Section>)
    requires Outputs(secs)
    ensures |secs| == 10
  {
    AsManyShapes(secs);
  }

  // ----- the fields of rows, at their offsets

  lemma DepFields(b: seq<Byte>, found: seq<Found>, s: Work, repos: seq<RepoRow>, i: nat)
    requires RowsRead(b, found, s, repos) && i < |s.w.depRows|
    ensures var p, row := found[0].start + 8 * i, s.w.depRows[i];
            p + 8 <= |b| && Word(b, p) == row.handle && Word(b, p + 4) == row.description
  {
    assert DepRowAt(b, found[0].start + 8 * i, s.w.depRows[i]);
  }

  lemma StableFields(b: seq<Byte>, found: seq<Found>, s: Work, repos: seq<RepoRow>, i: nat)
    requires RowsRead(b, found, s, repos) && i < |s.stableRows|
    ensures var p, row := found[1].start + 12 * i, s.stableRows[i];
            && p + 12 <= |b| && Word(b, p) == row.repr && Word(b, p + 4) == row.offset
            && Word(b, p + 8) == row.reprOffset
  {
    assert StableRowAt(b, found[1].start + 12 * i, s.stableRows[i]);
  }

  lemma ObjectFields(b: seq<Byte>, found: seq<Found>, s: Work, repos: seq<RepoRow>, i: nat)
    requires RowsRead(b, found, s, repos) && i < |s.objectRows|
    ensures var p, row := found[3].start + 8 * i, s.objectRows[i];
            p + 8 <= |b| && Word(b, p) == row.packed && Word(b, p + 4) == row.offset
  {
    assert ObjectRowAt(b, found[3].start + 8 * i, s.objectRows[i]);
  }

  lemma ClosureFields(b: seq<Byte>, found: seq<Found>, s: Work, repos: seq<RepoRow>, i: nat)
    requires RowsRead(b, found, s, repos) && i < |s.w.closureRows|
    ensures var p, row := found[5].start + 28 * i, s.w.closureRows[i];
            && p + 28 <= |b| && Word(b, p) == row.code.id && Word(b, p + 4) == row.code.idx
            && Word(b, p + 8) == row.context && (Word(b, p + 12) != 0 <==> row.codeObject.Some?)
            && (row.codeObject.Some? ==>
                  Word(b, p + 16) == row.codeObject.value.id && Word(b, p + 20) == row.codeObject.value.idx)
            && Word(b, p + 24) == row.name
  {
    assert ClosureRowAt(b, found[5].start + 28 * i, s.w.closureRows[i]);
  }

  lemma ContextFields(b: seq<Byte>, found: seq<Found>, s: Work, repos: seq<RepoRow>, i: nat)
    requires RowsRead(b, found, s, repos) && i < |s.contextRows|
    ensures var p, row := found[6].start + 16 * i, s.contextRows[i];
            && p + 16 <= |b| && Word(b, p) == row.code.id && Word(b, p + 4) == row.code.idx
            && Word(b, p + 8) == row.offset && Word(b, p + 12) == row.outer
  {
    assert ContextRowAt(b, found[6].start + 16 * i, s.contextRows[i]);
  }

  lemma RepoFields(b: seq<Byte>, found: seq<Found>, s: Work, repos: seq<RepoRow>, i: nat)
    requires RowsRead(b, found, s, repos) && i < |repos|
    ensures var p, row := found[8].start + 16 * i, repos[i];
            && p + 16 <= |b| && Word(b, p) == row.kind && Word(b, p + 4) == row.slot
            && Word(b, p + 8) == row.orig.id && Word(b, p + 12) == row.orig.idx
  {
    assert RepoRowAt(b, found[8].start + 16 * i, repos[i]);
  }

  /** The rows of a finished run are read from its bytes at these places. */
  lemma FieldsOfRows(s: Work, reps: seq<Repossession>, unwritten: Place, interns: Section)
    requires RowsFit(FinalRows(s, reps, unwritten)) && InternsOk(interns)
    requires |Serialized(s, reps, unwritten, interns)| < LIMIT
    ensures var b := Serialized(s, reps, unwritten, interns);
            && Dissect(b).Ok? && HeaderIs(b, Dissect(b).value)
            && RowsRead(b, Dissect(b).value, Finish(s, reps), SerializeRepos(s.w, reps).1)
  {
    var b := Serialized(s, reps, unwritten, interns);
    var secs := SectionsOf(Finish(s, reps), FinalRows(s, reps, unwritten), interns);
    OutputIsLarger(secs);
    SectionsAreOutputs(Finish(s, reps), FinalRows(s, reps, unwritten), interns);
    DissectOutput(secs);
    HeaderWords(secs);
    BytesAreFound(s, reps, unwritten, interns);
    RowsAreRead(b, Dissect(b).value, Finish(s, reps), SerializeRepos(s.w, reps).1, unwritten);
  }
}
