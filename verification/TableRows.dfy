/** Table rows as bytes (src/6model/serialization.c): `write_int32` and `read_int32` at the offsets
    of their fields. */
module TableRows {
  import opened Wrappers
  import opened Bytes
  import opened Packing
  import opened Tables
  import opened Places
  import opened Serialize
  import opened Repossessions
  import opened Sections

  // ----- tables of 32-bit numbers

  function WordsOf(ws: seq<nat>): (b: seq<Byte>)
    ensures |b| == 4 * |ws|
  {
    if ws == [] then [] else LE(ws[0], 4) + WordsOf(ws[1..])
  }

  function TableOf(rows: seq<seq<nat>>): seq<Byte> {
    if rows == [] then [] else WordsOf(rows[0]) + TableOf(rows[1..])
  }

  /** The numbers fit 32 bits. */
  predicate Narrow(ws: seq<nat>) {
    forall j | 0 <= j < |ws| :: ws[j] < WORD
  }

  /** The numbers are read there, one after another. */
  ghost predicate WordsAt(b: seq<Byte>, p: nat, ws: seq<nat>) {
    p + 4 * |ws| <= |b| && forall j | 0 <= j < |ws| :: WordIs(b, p, ws, j)
  }

  ghost predicate WordIs(b: seq<Byte>, p: nat, ws: seq<nat>, j: nat)
    requires j < |ws| && p + 4 * |ws| <= |b|
  {
    Word(b, p + 4 * j) == ws[j]
  }

  lemma {:induction false} WordsRead(b: seq<Byte>, p: nat, ws: seq<nat>)
    requires At(b, p, WordsOf(ws)) && Narrow(ws)
    ensures WordsAt(b, p, ws)
    decreases |ws|
  {
    if ws != [] {
      FirstWord(b, p, ws);
      WordsRead(b, p + 4, ws[1..]);
      WordsFollow(b, p, ws);
    }
  }

  lemma FirstWord(b: seq<Byte>, p: nat, ws: seq<nat>)
    requires ws != [] && At(b, p, WordsOf(ws)) && Narrow(ws)
    ensures p + 4 <= |b| && Word(b, p) == ws[0] && At(b, p + 4, WordsOf(ws[1..])) && Narrow(ws[1..])
  {
    var e := LE(ws[0], 4);
    assert WordsOf(ws) == e + WordsOf(ws[1..]);
    AtSplit(b, p, e, WordsOf(ws[1..]));
    WordAt(b, p, ws[0], 4);
  }

  lemma WordsFollow(b: seq<Byte>, p: nat, ws: seq<nat>)
    requires ws != [] && p + 4 <= |b| && Word(b, p) == ws[0] && WordsAt(b, p + 4, ws[1..])
    ensures WordsAt(b, p, ws)
  {
    forall j | 0 <= j < |ws| ensures WordIs(b, p, ws, j) {
      if j > 0 { assert WordIs(b, p + 4, ws[1..], j - 1); }
    }
  }

  /** Every row has k numbers, which fit. */
  predicate Rectangular(rows: seq<seq<nat>>, k: nat) {
    forall i | 0 <= i < |rows| :: |rows[i]| == k && Narrow(rows[i])
  }

  lemma {:induction false} TableSize(rows: seq<seq<nat>>, k: nat)
    requires Rectangular(rows, k)
    ensures |TableOf(rows)| == 4 * k * |rows|
  {
    if rows != [] {
      TableSize(rows[1..], k);
      assert 4 * k * |rows| == 4 * k + 4 * k * (|rows| - 1);
    }
  }

  /** Where row i starts. */
  function RowStart(p: nat, k: nat, i: nat): nat
    decreases i
  {
    if i == 0 then p else RowStart(p + 4 * k, k, i - 1)
  }

  lemma {:induction false} RowStartIs(p: nat, k: nat, i: nat)
    ensures RowStart(p, k, i) == p + 4 * k * i
    decreases i
  {
    if i > 0 {
      RowStartIs(p + 4 * k, k, i - 1);
      assert 4 * k + 4 * k * (i - 1) == 4 * k * i;
    }
  }

  lemma FirstRow(b: seq<Byte>, p: nat, rows: seq<seq<nat>>, k: nat)
    requires Rectangular(rows, k) && rows != [] && At(b, p, TableOf(rows))
    ensures At(b, p, WordsOf(rows[0])) && At(b, p + 4 * k, TableOf(rows[1..]))
  {
    assert |WordsOf(rows[0])| == 4 * k;
    AtSplit(b, p, WordsOf(rows[0]), TableOf(rows[1..]));
  }

  lemma {:induction false} RowRead(b: seq<Byte>, p: nat, rows: seq<seq<nat>>, k: nat, i: nat)
    requires Rectangular(rows, k) && At(b, p, TableOf(rows)) && i < |rows|
    ensures WordsAt(b, RowStart(p, k, i), rows[i])
    decreases |rows|
  {
    FirstRow(b, p, rows, k);
    if i == 0 {
      WordsRead(b, p, rows[0]);
    } else {
      RowRead(b, p + 4 * k, rows[1..], k, i - 1);
    }
  }

  // ----- rows

  function DepWords(row: DepRow): seq<nat> { [row.handle, row.description] }

  function StableWords(row: StableRow): seq<nat> { [row.repr, row.offset, row.reprOffset] }

  function ObjectWords(row: ObjectRow): seq<nat> { [row.packed, row.offset] }

  function ContextWords(row: ContextRow): seq<nat> { [row.code.id, row.code.idx, row.offset, row.outer] }

  function RepoWords(row: RepoRow): seq<nat> { [row.kind, row.slot, row.orig.id, row.orig.idx] }

  /** Where there is no code object, its place is not written. */
  function ClosureWords(row: ClosureRow, unwritten: Place): seq<nat> {
    var (has, o) := if row.codeObject.Some? then (1, row.codeObject.value) else (0, unwritten);
    [row.code.id, row.code.idx, row.context, has, o.id, o.idx, row.name]
  }

  function Table<T>(rows: seq<T>, words: T -> seq<nat>): (r: seq<seq<nat>>)
    ensures |r| == |rows| && forall i | 0 <= i < |rows| :: r[i] == words(rows[i])
  {
    seq(|rows|, i requires 0 <= i < |rows| => words(rows[i]))
  }

  /** What the reader makes of the numbers of a row. */
  function DepRowIn(b: seq<Byte>, p: nat): DepRow
    requires p + 8 <= |b|
  {
    DepRow(Word(b, p), Word(b, p + 4))
  }

  function StableRowIn(b: seq<Byte>, p: nat): StableRow
    requires p + 12 <= |b|
  {
    StableRow(Word(b, p), Word(b, p + 4), Word(b, p + 8))
  }

  function ObjectRowIn(b: seq<Byte>, p: nat): ObjectRow
    requires p + 8 <= |b|
  {
    ObjectRow(Word(b, p), Word(b, p + 4))
  }

  function PlaceIn(b: seq<Byte>, p: nat): Place
    requires p + 8 <= |b|
  {
    Place(Word(b, p), Word(b, p + 4))
  }

  function ContextRowIn(b: seq<Byte>, p: nat): ContextRow
    requires p + 16 <= |b|
  {
    ContextRow(PlaceIn(b, p), Word(b, p + 8), Word(b, p + 12))
  }

  function RepoRowIn(b: seq<Byte>, p: nat): RepoRow
    requires p + 16 <= |b|
  {
    RepoRow(Word(b, p), Word(b, p + 4), PlaceIn(b, p + 8))
  }

  function ClosureRowIn(b: seq<Byte>, p: nat): ClosureRow
    requires p + 28 <= |b|
  {
    var codeObject := if Word(b, p + 12) != 0 then Some(PlaceIn(b, p + 16)) else None;
    ClosureRow(PlaceIn(b, p), Word(b, p + 8), codeObject, Word(b, p + 24))
  }

  lemma StableRowRead(b: seq<Byte>, p: nat, row: StableRow)
    requires WordsAt(b, p, StableWords(row))
    ensures p + 12 <= |b| && StableRowIn(b, p) == row
  {
    var ws := StableWords(row);
    assert WordIs(b, p, ws, 0) && WordIs(b, p, ws, 1);
    assert WordIs(b, p, ws, 2);
  }

  lemma PairRead(b: seq<Byte>, p: nat, ws: seq<nat>)
    requires WordsAt(b, p, ws) && |ws| == 2
    ensures p + 8 <= |b| && Word(b, p) == ws[0] && Word(b, p + 4) == ws[1]
  {
    assert WordIs(b, p, ws, 0) && WordIs(b, p, ws, 1);
  }

  lemma ContextRowRead(b: seq<Byte>, p: nat, row: ContextRow)
    requires WordsAt(b, p, ContextWords(row))
    ensures p + 16 <= |b| && ContextRowIn(b, p) == row
  {
    var ws := ContextWords(row);
    assert WordIs(b, p, ws, 0) && WordIs(b, p, ws, 1);
    assert WordIs(b, p, ws, 2) && WordIs(b, p, ws, 3);
  }

  lemma RepoRowRead(b: seq<Byte>, p: nat, row: RepoRow)
    requires WordsAt(b, p, RepoWords(row))
    ensures p + 16 <= |b| && RepoRowIn(b, p) == row
  {
    var ws := RepoWords(row);
    assert WordIs(b, p, ws, 0) && WordIs(b, p, ws, 1);
    assert WordIs(b, p, ws, 2) && WordIs(b, p, ws, 3);
  }

  lemma ClosureRowRead(b: seq<Byte>, p: nat, row: ClosureRow, unwritten: Place)
    requires WordsAt(b, p, ClosureWords(row, unwritten))
    ensures p + 28 <= |b| && ClosureRowIn(b, p) == row
  {
    var ws := ClosureWords(row, unwritten);
    assert WordIs(b, p, ws, 0) && WordIs(b, p, ws, 1);
    assert WordIs(b, p, ws, 2) && WordIs(b, p, ws, 3);
    assert WordIs(b, p, ws, 4) && WordIs(b, p, ws, 5);
    assert WordIs(b, p, ws, 6);
  }

  // ----- tables

  /** The rows of a table are read one after another. */
  ghost predicate DepRowsAt(b: seq<Byte>, start: nat, rows: seq<DepRow>) {
    forall i | 0 <= i < |rows| :: DepRowAt(b, start + 8 * i, rows[i])
  }

  ghost predicate DepRowAt(b: seq<Byte>, p: nat, row: DepRow) {
    p + 8 <= |b| && DepRowIn(b, p) == row
  }

  ghost predicate StableRowsAt(b: seq<Byte>, start: nat, rows: seq<StableRow>) {
    forall i | 0 <= i < |rows| :: StableRowAt(b, start + 12 * i, rows[i])
  }

  ghost predicate StableRowAt(b: seq<Byte>, p: nat, row: StableRow) {
    p + 12 <= |b| && StableRowIn(b, p) == row
  }

  ghost predicate ObjectRowsAt(b: seq<Byte>, start: nat, rows: seq<ObjectRow>) {
    forall i | 0 <= i < |rows| :: ObjectRowAt(b, start + 8 * i, rows[i])
  }

  ghost predicate ObjectRowAt(b: seq<Byte>, p: nat, row: ObjectRow) {
    p + 8 <= |b| && ObjectRowIn(b, p) == row
  }

  ghost predicate ContextRowsAt(b: seq<Byte>, start: nat, rows: seq<ContextRow>) {
    forall i | 0 <= i < |rows| :: ContextRowAt(b, start + 16 * i, rows[i])
  }

  ghost predicate ContextRowAt(b: seq<Byte>, p: nat, row: ContextRow) {
    p + 16 <= |b| && ContextRowIn(b, p) == row
  }

  ghost predicate ClosureRowsAt(b: seq<Byte>, start: nat, rows: seq<ClosureRow>) {
    forall i | 0 <= i < |rows| :: ClosureRowAt(b, start + 28 * i, rows[i])
  }

  ghost predicate ClosureRowAt(b: seq<Byte>, p: nat, row: ClosureRow) {
    p + 28 <= |b| && ClosureRowIn(b, p) == row
  }

  ghost predicate RepoRowsAt(b: seq<Byte>, start: nat, rows: seq<RepoRow>) {
    forall i | 0 <= i < |rows| :: RepoRowAt(b, start + 16 * i, rows[i])
  }

  ghost predicate RepoRowAt(b: seq<Byte>, p: nat, row: RepoRow) {
    p + 16 <= |b| && RepoRowIn(b, p) == row
  }

  /** The numbers of all rows are read, rows of this many bytes apart. */
  ghost predicate AllWordsAt(b: seq<Byte>, start: nat, table: seq<seq<nat>>, size: nat) {
    forall i | 0 <= i < |table| :: RowWordsAt(b, start, table, size, i)
  }

  ghost predicate RowWordsAt(b: seq<Byte>, start: nat, table: seq<seq<nat>>, size: nat, i: nat)
    requires i < |table|
  {
    WordsAt(b, start + size * i, table[i])
  }

  lemma TableRead(b: seq<Byte>, start: nat, table: seq<seq<nat>>, k: nat, size: nat)
    requires Rectangular(table, k) && At(b, start, TableOf(table)) && size == 4 * k
    ensures AllWordsAt(b, start, table, size)
  {
    forall i | 0 <= i < |table| ensures RowWordsAt(b, start, table, size, i) {
      RowRead(b, start, table, k, i);
      RowStartIs(start, k, i);
      assert size * i == 4 * k * i;
    }
  }

  lemma DepRowsRead(b: seq<Byte>, start: nat, rows: seq<DepRow>, table: seq<seq<nat>>)
    requires table == Table(rows, DepWords) && AllWordsAt(b, start, table, 8)
    ensures DepRowsAt(b, start, rows)
  {
    forall i | 0 <= i < |rows| ensures DepRowAt(b, start + 8 * i, rows[i]) {
      assert RowWordsAt(b, start, table, 8, i);
      PairRead(b, start + 8 * i, table[i]);
    }
  }

  lemma DepTableRead(b: seq<Byte>, start: nat, rows: seq<DepRow>, table: seq<seq<nat>>)
    requires table == Table(rows, DepWords) && Rectangular(table, 2) && At(b, start, TableOf(table))
    ensures DepRowsAt(b, start, rows)
  {
    TableRead(b, start, table, 2, 8);
    DepRowsRead(b, start, rows, table);
  }

  lemma StableRowsRead(b: seq<Byte>, start: nat, rows: seq<StableRow>, table: seq<seq<nat>>)
    requires table == Table(rows, StableWords) && AllWordsAt(b, start, table, 12)
    ensures StableRowsAt(b, start, rows)
  {
    forall i | 0 <= i < |rows| ensures StableRowAt(b, start + 12 * i, rows[i]) {
      assert RowWordsAt(b, start, table, 12, i);
      StableRowRead(b, start + 12 * i, rows[i]);
    }
  }

  lemma StableTableRead(b: seq<Byte>, start: nat, rows: seq<StableRow>, table: seq<seq<nat>>)
    requires table == Table(rows, StableWords) && Rectangular(table, 3) && At(b, start, TableOf(table))
    ensures StableRowsAt(b, start, rows)
  {
    TableRead(b, start, table, 3, 12);
    StableRowsRead(b, start, rows, table);
  }

  lemma ObjectRowsRead(b: seq<Byte>, start: nat, rows: seq<ObjectRow>, table: seq<seq<nat>>)
    requires table == Table(rows, ObjectWords) && AllWordsAt(b, start, table, 8)
    ensures ObjectRowsAt(b, start, rows)
  {
    forall i | 0 <= i < |rows| ensures ObjectRowAt(b, start + 8 * i, rows[i]) {
      assert RowWordsAt(b, start, table, 8, i);
      PairRead(b, start + 8 * i, table[i]);
    }
  }

  lemma ObjectTableRead(b: seq<Byte>, start: nat, rows: seq<ObjectRow>, table: seq<seq<nat>>)
    requires table == Table(rows, ObjectWords) && Rectangular(table, 2) && At(b, start, TableOf(table))
    ensures ObjectRowsAt(b, start, rows)
  {
    TableRead(b, start, table, 2, 8);
    ObjectRowsRead(b, start, rows, table);
  }

  lemma ContextRowsRead(b: seq<Byte>, start: nat, rows: seq<ContextRow>, table: seq<seq<nat>>)
    requires table == Table(rows, ContextWords) && AllWordsAt(b, start, table, 16)
    ensures ContextRowsAt(b, start, rows)
  {
    forall i | 0 <= i < |rows| ensures ContextRowAt(b, start + 16 * i, rows[i]) {
      assert RowWordsAt(b, start, table, 16, i);
      ContextRowRead(b, start + 16 * i, rows[i]);
    }
  }

  lemma ContextTableRead(b: seq<Byte>, start: nat, rows: seq<ContextRow>, table: seq<seq<nat>>)
    requires table == Table(rows, ContextWords) && Rectangular(table, 4) && At(b, start, TableOf(table))
    ensures ContextRowsAt(b, start, rows)
  {
    TableRead(b, start, table, 4, 16);
    ContextRowsRead(b, start, rows, table);
  }

  lemma RepoRowsRead(b: seq<Byte>, start: nat, rows: seq<RepoRow>, table: seq<seq<nat>>)
    requires table == Table(rows, RepoWords) && AllWordsAt(b, start, table, 16)
    ensures RepoRowsAt(b, start, rows)
  {
    forall i | 0 <= i < |rows| ensures RepoRowAt(b, start + 16 * i, rows[i]) {
      assert RowWordsAt(b, start, table, 16, i);
      RepoRowRead(b, start + 16 * i, rows[i]);
    }
  }

  lemma RepoTableRead(b: seq<Byte>, start: nat, rows: seq<RepoRow>, table: seq<seq<nat>>)
    requires table == Table(rows, RepoWords) && Rectangular(table, 4) && At(b, start, TableOf(table))
    ensures RepoRowsAt(b, start, rows)
  {
    TableRead(b, start, table, 4, 16);
    RepoRowsRead(b, start, rows, table);
  }

  ghost predicate IsClosureRow(ws: seq<nat>, row: ClosureRow, unwritten: Place) {
    ws == ClosureWords(row, unwritten)
  }

  lemma ClosureRowIs(b: seq<Byte>, p: nat, ws: seq<nat>, row: ClosureRow, unwritten: Place)
    requires WordsAt(b, p, ws) && IsClosureRow(ws, row, unwritten)
    ensures ClosureRowAt(b, p, row)
  {
    ClosureRowRead(b, p, row, unwritten);
  }

  ghost predicate ClosureTable(table: seq<seq<nat>>, rows: seq<ClosureRow>, unwritten: Place) {
    |table| == |rows| && forall i | 0 <= i < |rows| :: IsClosureRow(table[i], rows[i], unwritten)
  }

  lemma ClosureRowsRead(b: seq<Byte>, start: nat, rows: seq<ClosureRow>, unwritten: Place, table: seq<seq<nat>>)
    requires ClosureTable(table, rows, unwritten) && AllWordsAt(b, start, table, 28)
    ensures ClosureRowsAt(b, start, rows)
  {
    forall i | 0 <= i < |rows| ensures ClosureRowAt(b, start + 28 * i, rows[i]) {
      assert RowWordsAt(b, start, table, 28, i);
      ClosureRowIs(b, start + 28 * i, table[i], rows[i], unwritten);
    }
  }

  lemma ClosureTableRead(
    b: seq<Byte>, start: nat, rows: seq<ClosureRow>, unwritten: Place, table: seq<seq<nat>>)
    requires ClosureTable(table, rows, unwritten) && Rectangular(table, 7) && At(b, start, TableOf(table))
    ensures ClosureRowsAt(b, start, rows)
  {
    TableRead(b, start, table, 7, 28);
    ClosureRowsRead(b, start, rows, unwritten, table);
  }

  // ----- sections

  /** The tables of a finished run as numbers. */
  datatype Rows = Rows(
    deps: seq<seq<nat>>, stables: seq<seq<nat>>, objects: seq<seq<nat>>,
    closures: seq<seq<nat>>, contexts: seq<seq<nat>>, repos: seq<seq<nat>>)

  function RowsOf(s: Work, repos: seq<RepoRow>, unwritten: Place): Rows {
    Rows(Table(s.w.depRows, DepWords), Table(s.stableRows, StableWords), Table(s.objectRows, ObjectWords),
         Table(s.w.closureRows, row => ClosureWords(row, unwritten)), Table(s.contextRows, ContextWords),
         Table(repos, RepoWords))
  }

  /** `write_int32` loses nothing. */
  predicate RowsFit(r: Rows) {
    && Rectangular(r.deps, 2) && Rectangular(r.stables, 3) && Rectangular(r.objects, 2)
    && Rectangular(r.closures, 7) && Rectangular(r.contexts, 4) && Rectangular(r.repos, 4)
  }

  function TableSection(shape: Shape, rows: seq<seq<nat>>): Section {
    Section(shape, |rows|, TableOf(rows))
  }

  /** The sections; that of interned parameterizations is given. */
  function SectionsOf(s: Work, r: Rows, interns: Section): (secs: seq<Section>)
    ensures |secs| == 10
  {
    [ TableSection(Rows8, r.deps), TableSection(Rows12, r.stables), Section(Data, 0, s.stableData),
      TableSection(Rows8, r.objects), Section(Data, 0, s.objectData),
      TableSection(Rows28, r.closures), TableSection(Rows16, r.contexts), Section(Data, 0, s.contextData),
      TableSection(Rows16, r.repos), interns ]
  }

  lemma {:induction false} ShapesAre(secs: seq<Section>, shapes: seq<Shape>)
    requires |secs| == |shapes| && forall i | 0 <= i < |secs| :: secs[i].shape == shapes[i]
    ensures Shapes(secs) == shapes
  {
    if secs != [] {
      ShapesAre(secs[1..], shapes[1..]);
      assert shapes == [shapes[0]] + shapes[1..];
    }
  }

  lemma {:induction false} ShapedAll(secs: seq<Section>)
    requires forall i | 0 <= i < |secs| :: WellShaped(secs[i])
    ensures AllShaped(secs)
  {
    if secs != [] { ShapedAll(secs[1..]); }
  }

  lemma {:induction false} SectionWithin(secs: seq<Section>, i: nat)
    requires i < |secs|
    ensures |secs[i].bytes| <= |Body(secs)|
  {
    if i > 0 { SectionWithin(secs[1..], i - 1); }
  }

  lemma TableShaped(shape: Shape, rows: seq<seq<nat>>, k: nat)
    requires Rectangular(rows, k) && |TableOf(rows)| < LIMIT && k > 0
    requires !shape.Data? && !shape.Counted? && RowBytes(shape, |rows|) == 4 * k * |rows|
    ensures WellShaped(TableSection(shape, rows))
  {
    TableSize(rows, k);
    assert 4 * k * |rows| >= |rows|;
  }

  /** The given section is of the right kind. */
  predicate InternsOk(interns: Section) {
    interns.shape == Counted && WellShaped(interns)
  }

  /** The tables are where they belong. */
  ghost predicate Arranged(secs: seq<Section>, r: Rows) {
    && |secs| == 10
    && secs[0] == TableSection(Rows8, r.deps) && secs[1] == TableSection(Rows12, r.stables)
    && secs[3] == TableSection(Rows8, r.objects) && secs[5] == TableSection(Rows28, r.closures)
    && secs[6] == TableSection(Rows16, r.contexts) && secs[8] == TableSection(Rows16, r.repos)
  }

  ghost predicate DataArranged(secs: seq<Section>)
    requires |secs| == 10
  {
    && secs[2].shape == secs[4].shape == secs[7].shape == Data
    && secs[2].rows == secs[4].rows == secs[7].rows == 0 && InternsOk(secs[9])
  }

  lemma TablesShaped(secs: seq<Section>, r: Rows)
    requires RowsFit(r) && Arranged(secs, r) && forall i | 0 <= i < |secs| :: |secs[i].bytes| < LIMIT
    ensures WellShaped(secs[0]) && WellShaped(secs[1]) && WellShaped(secs[3])
    ensures WellShaped(secs[5]) && WellShaped(secs[6]) && WellShaped(secs[8])
  {
    assert |secs[0].bytes| < LIMIT && |secs[1].bytes| < LIMIT && |secs[3].bytes| < LIMIT;
    assert |secs[5].bytes| < LIMIT && |secs[6].bytes| < LIMIT && |secs[8].bytes| < LIMIT;
    TableShaped(Rows8, r.deps, 2);
    TableShaped(Rows12, r.stables, 3);
    TableShaped(Rows8, r.objects, 2);
    TableShaped(Rows28, r.closures, 7);
    TableShaped(Rows16, r.contexts, 4);
    TableShaped(Rows16, r.repos, 4);
  }

  lemma SectionsShaped(secs: seq<Section>, r: Rows)
    requires RowsFit(r) && Arranged(secs, r) && |Body(secs)| < LIMIT
    requires DataArranged(secs)
    ensures AllShaped(secs)
  {
    forall i | 0 <= i < |secs| ensures |secs[i].bytes| < LIMIT { SectionWithin(secs, i); }
    TablesShaped(secs, r);
    ShapedAll(secs);
  }

  /** They are sections such as `concatenate_outputs` puts together. */
  lemma SectionsAreOutputs(s: Work, r: Rows, interns: Section)
    requires RowsFit(r) && InternsOk(interns) && |Body(SectionsOf(s, r, interns))| < LIMIT
    ensures Outputs(SectionsOf(s, r, interns))
  {
    SectionsArranged(s, r, interns, SHAPES);
    ArrangedAreOutputs(SectionsOf(s, r, interns), r, SHAPES);
  }

  lemma SectionsArranged(s: Work, r: Rows, interns: Section, shapes: seq<Shape>)
    requires InternsOk(interns) && shapes == SHAPES
    ensures var secs := SectionsOf(s, r, interns);
            && Arranged(secs, r) && DataArranged(secs)
            && |shapes| == 10 && forall i | 0 <= i < 10 :: secs[i].shape == shapes[i]
  {}

  lemma ArrangedAreOutputs(secs: seq<Section>, r: Rows, shapes: seq<Shape>)
    requires RowsFit(r) && Arranged(secs, r) && DataArranged(secs) && |Body(secs)| < LIMIT
    requires shapes == SHAPES && |shapes| == 10 && forall i | 0 <= i < 10 :: secs[i].shape == shapes[i]
    ensures Outputs(secs)
  {
    SectionsShaped(secs, r);
    ShapesAre(secs, shapes);
  }

  lemma OutputIsLarger(secs: seq<Section>)
    ensures |Body(secs)| <= |Output(secs)|
  {}

  // ----- where the reader finds them

  /** A data section, up to its read limit. */
  function DataIn(b: seq<Byte>, found: seq<Found>, k: nat): seq<Byte>
    requires k < |found|
  {
    if found[k].start <= ReadLimit(b, found, k) <= |b| then b[found[k].start..ReadLimit(b, found, k)] else []
  }

  /** Every section is where it was found. */
  ghost predicate Located(b: seq<Byte>, secs: seq<Section>, found: seq<Found>) {
    |found| == |secs| && forall k | 0 <= k < |secs| :: InPlace(b, secs, found, k)
  }

  lemma OutputLocated(secs: seq<Section>)
    requires Outputs(secs) && |Output(secs)| < LIMIT
    ensures Dissect(Output(secs)) == Ok(Layout(secs, HEADER)) && Located(Output(secs), secs, Layout(secs, HEADER))
  {
    DissectOutput(secs);
    LayoutSize(secs, HEADER);
    forall k | 0 <= k < |secs| ensures InPlace(Output(secs), secs, Layout(secs, HEADER), k) { LayoutInPlace(secs, k); }
  }

  lemma DataFound(b: seq<Byte>, secs: seq<Section>, found: seq<Found>, k: nat)
    requires Located(b, secs, found) && k + 1 < |secs|
    ensures secs[k].bytes <= DataIn(b, found, k)
  {
    assert InPlace(b, secs, found, k) && InPlace(b, secs, found, k + 1);
    assert forall i | 0 <= i < |secs[k].bytes| :: secs[k].bytes[i] == b[found[k].start + i];
  }

  /** A table is found with all its rows. */
  ghost predicate TableAt(b: seq<Byte>, found: Found, rows: seq<seq<nat>>) {
    found.rows == |rows| && At(b, found.start, TableOf(rows))
  }

  lemma TableFound(b: seq<Byte>, secs: seq<Section>, found: seq<Found>, n: nat, shape: Shape, rows: seq<seq<nat>>)
    requires Located(b, secs, found) && n < |secs| && secs[n] == TableSection(shape, rows)
    ensures TableAt(b, found[n], rows)
  {
    assert InPlace(b, secs, found, n);
  }

  /** All tables and data are found. */
  ghost predicate TablesFound(b: seq<Byte>, found: seq<Found>, s: Work, r: Rows) {
    && |found| == 10
    && TableAt(b, found[0], r.deps) && TableAt(b, found[1], r.stables) && TableAt(b, found[3], r.objects)
    && TableAt(b, found[5], r.closures) && TableAt(b, found[6], r.contexts) && TableAt(b, found[8], r.repos)
    && s.stableData <= DataIn(b, found, 2) && s.objectData <= DataIn(b, found, 4)
    && s.contextData <= DataIn(b, found, 7)
  }

  lemma TablesAreFound(b: seq<Byte>, found: seq<Found>, s: Work, r: Rows, interns: Section)
    requires Located(b, SectionsOf(s, r, interns), found)
    ensures TablesFound(b, found, s, r)
  {
    var secs := SectionsOf(s, r, interns);
    TableFound(b, secs, found, 0, Rows8, r.deps);
    TableFound(b, secs, found, 1, Rows12, r.stables);
    TableFound(b, secs, found, 3, Rows8, r.objects);
    TableFound(b, secs, found, 5, Rows28, r.closures);
    TableFound(b, secs, found, 6, Rows16, r.contexts);
    TableFound(b, secs, found, 8, Rows16, r.repos);
    DataFound(b, secs, found, 2);
    DataFound(b, secs, found, 4);
    DataFound(b, secs, found, 7);
  }
}
