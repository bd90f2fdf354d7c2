/** The sections of the serialized data (src/6model/serialization.c): how `concatenate_outputs`
    lays them out and `check_and_dissect_input` finds them. */
module Sections {
  import opened Wrappers
  import opened Bytes
  import opened Packing

  /** A table has rows of 8, 12, 16 or 28 bytes; data has no rows; interns are counted, but vary
      in size. */
  datatype Shape = Rows8 | Rows12 | Rows16 | Rows28 | Data | Counted

  datatype Section = Section(shape: Shape, rows: nat, bytes: seq<Byte>)

  /** Dependencies, STables and their data, objects and their data, closures, contexts and their
      data, repossessions, interned parameterizations. */
  const SHAPES: seq<Shape> := [Rows8, Rows12, Data, Rows8, Data, Rows28, Rows16, Data, Rows16, Counted]

  const HEADER: nat := 72
  const VERSION: nat := 24
  const MIN_VERSION: nat := 23

  /** `MVM_ALIGN_SECTION`. */
  function Align(n: nat): (r: nat)
    ensures n <= r < n + 8 && r % 8 == 0
  {
    (n + 7) / 8 * 8
  }

  /** How many bytes the rows take; none are known for data and interns. */
  function RowBytes(shape: Shape, rows: nat): nat {
    match shape
    case Rows8 => 8 * rows
    case Rows12 => 12 * rows
    case Rows16 => 16 * rows
    case Rows28 => 28 * rows
    case Data => 0
    case Counted => 0
  }

  predicate WellShaped(s: Section) {
    s.rows < LIMIT && match s.shape
      case Data => s.rows == 0
      case Counted => true
      case _ => |s.bytes| == RowBytes(s.shape, s.rows)
  }

  function Shapes(secs: seq<Section>): seq<Shape> {
    if secs == [] then [] else [secs[0].shape] + Shapes(secs[1..])
  }

  predicate AllShaped(secs: seq<Section>) {
    secs == [] || (WellShaped(secs[0]) && AllShaped(secs[1..]))
  }

  /** The writer's sections, in their order. */
  predicate Outputs(secs: seq<Section>) {
    Shapes(secs) == SHAPES && AllShaped(secs)
  }

  // ----- writing

  function Zeros(n: nat): (b: seq<Byte>)
    ensures |b| == n
  {
    seq(n, _ => 0)
  }

  function Padded(bytes: seq<Byte>): (b: seq<Byte>)
    ensures |b| == Align(|bytes|)
  {
    bytes + Zeros(Align(|bytes|) - |bytes|)
  }

  function Body(secs: seq<Section>): seq<Byte> {
    if secs == [] then [] else Padded(secs[0].bytes) + Body(secs[1..])
  }

  /** The header's entry for a section that starts at `offset`. */
  function Entry(s: Section, offset: nat): (b: seq<Byte>)
    ensures |b| == if s.shape.Data? then 4 else 8
  {
    if s.shape.Data? then LE(offset, 4) else LE(offset, 4) + LE(s.rows, 4)
  }

  function Entries(secs: seq<Section>, offset: nat): seq<Byte>
    decreases |secs|
  {
    if secs == [] then []
    else Entry(secs[0], offset) + Entries(secs[1..], offset + Align(|secs[0].bytes|))
  }

  function Header(secs: seq<Section>): seq<Byte> {
    LE(VERSION, 4) + Entries(secs, HEADER)
  }

  function Output(secs: seq<Section>): seq<Byte> {
    Header(secs) + Body(secs)
  }

  // ----- reading

  /** Where a section was found, and how many rows it has. */
  datatype Found = Found(start: nat, rows: nat)

  /** `read_int32`, as an unsigned number. */
  function Word(b: seq<Byte>, p: nat): nat
    requires p + 4 <= |b|
  {
    FromLE(b[p..p + 4])
  }

  function EntrySize(shape: Shape): nat {
    if shape.Data? then 4 else 8
  }

  /** The bytes of a table, in 32 bits. */
  function Extent(shape: Shape, rows: nat): nat {
    RowBytes(shape, rows) % WORD
  }

  /** The sections after the position `prov`, whose header entries start at `p`. */
  function DissectFrom(b: seq<Byte>, shapes: seq<Shape>, p: nat, prov: nat): Result<seq<Found>>
    decreases |shapes|
  {
    if shapes == [] then Ok([])
    else if p + EntrySize(shapes[0]) > |b| then Err
    else
      var start := Signed(Word(b, p), WORD);
      var rows := if shapes[0].Data? then 0 else Word(b, p + 4);
      if start < prov || start + Extent(shapes[0], rows) > |b| then Err
      else
        var rest := DissectFrom(b, shapes[1..], p + EntrySize(shapes[0]), start + Extent(shapes[0], rows));
        if rest.Err? then Err else Ok([Found(start, rows)] + rest.value)
  }

  /** `check_and_dissect_input`, for sections of these shapes. */
  function DissectAs(b: seq<Byte>, shapes: seq<Shape>): Result<seq<Found>> {
    if |b| < 4 then Err
    else
      var version := Signed(Word(b, 0), WORD);
      if version < MIN_VERSION || version > VERSION || |b| < HEADER then Err
      else DissectFrom(b, shapes, 4, HEADER)
  }

  function Dissect(b: seq<Byte>): Result<seq<Found>> {
    DissectAs(b, SHAPES)
  }

  /** Up to where a data section may be read: where the next section starts, or the end. */
  function ReadLimit(b: seq<Byte>, found: seq<Found>, i: nat): nat
    requires i < |found|
  {
    if i + 1 < |found| then found[i + 1].start else |b|
  }

  // ----- reading finds what was written

  /** Where the sections are, the first one starting at `offset`. */
  function Layout(secs: seq<Section>, offset: nat): seq<Found>
    decreases |secs|
  {
    if secs == [] then []
    else [Found(offset, secs[0].rows)] + Layout(secs[1..], offset + Align(|secs[0].bytes|))
  }

  lemma WordAt(b: seq<Byte>, p: nat, v: nat, k: nat)
    requires k == 4 && v < WORD && At(b, p, LE(v, k))
    ensures p + 4 <= |b| && Word(b, p) == v
  {
    Widths();
    AtSlice(b, p, LE(v, k));
    UnsignedRoundTrip(v, k);
  }

  lemma EntryAt(b: seq<Byte>, p: nat, s: Section, offset: nat)
    requires WellShaped(s) && offset < LIMIT && At(b, p, Entry(s, offset))
    ensures p + EntrySize(s.shape) <= |b| && Word(b, p) == offset
    ensures !s.shape.Data? ==> Word(b, p + 4) == s.rows
  {
    if s.shape.Data? {
      WordAt(b, p, offset, 4);
    } else {
      AtSplit(b, p, LE(offset, 4), LE(s.rows, 4));
      WordAt(b, p, offset, 4);
      WordAt(b, p + 4, s.rows, 4);
    }
  }

  lemma ExtentIsSize(s: Section)
    requires WellShaped(s) && |s.bytes| < LIMIT
    ensures Extent(s.shape, s.rows) == RowBytes(s.shape, s.rows) <= |s.bytes|
  {}

  /** The header has these starts and row counts. */
  ghost predicate HeaderSays(b: seq<Byte>, shapes: seq<Shape>, p: nat, found: seq<Found>)
    decreases |shapes|
  {
    if shapes == [] then found == []
    else
      && found != [] && p + EntrySize(shapes[0]) <= |b|
      && Signed(Word(b, p), WORD) == found[0].start
      && (if shapes[0].Data? then 0 else Word(b, p + 4)) == found[0].rows
      && HeaderSays(b, shapes[1..], p + EntrySize(shapes[0]), found[1..])
  }

  /** The sections are in order and within the data. */
  ghost predicate InOrder(shapes: seq<Shape>, found: seq<Found>, prov: nat, limit: nat)
    decreases |shapes|
  {
    if shapes == [] then found == []
    else
      && found != [] && prov <= found[0].start
      && found[0].start + Extent(shapes[0], found[0].rows) <= limit
      && InOrder(shapes[1..], found[1..], found[0].start + Extent(shapes[0], found[0].rows), limit)
  }

  /** Reading succeeds exactly on headers that put the sections in order within the data. */
  lemma {:induction false} DissectIff(b: seq<Byte>, shapes: seq<Shape>, p: nat, prov: nat, found: seq<Found>)
    ensures DissectFrom(b, shapes, p, prov) == Ok(found)
       <==> HeaderSays(b, shapes, p, found) && InOrder(shapes, found, prov, |b|)
    decreases |shapes|
  {
    if shapes != [] && p + EntrySize(shapes[0]) <= |b| {
      var start := Signed(Word(b, p), WORD);
      var rows := if shapes[0].Data? then 0 else Word(b, p + 4);
      if prov <= start && start + Extent(shapes[0], rows) <= |b| {
        var p', prov' := p + EntrySize(shapes[0]), start + Extent(shapes[0], rows);
        var rest := DissectFrom(b, shapes[1..], p', prov');
        if found != [] {
          DissectIff(b, shapes[1..], p', prov', found[1..]);
          assert found == [found[0]] + found[1..];
        }
      }
    }
  }

  /** The data are accepted exactly if the version is 23 or 24 and the header, which is there, puts the
      sections in order within the data. */
  lemma DissectExactly(b: seq<Byte>, found: seq<Found>)
    ensures Dissect(b) == Ok(found) <==>
              && |b| >= 72 && (Signed(Word(b, 0), WORD) == 23 || Signed(Word(b, 0), WORD) == 24)
              && HeaderSays(b, SHAPES, 4, found) && InOrder(SHAPES, found, 72, |b|)
  {
    DissectIff(b, SHAPES, 4, HEADER, found);
  }

  lemma ShapesStep(secs: seq<Section>)
    requires secs != []
    ensures Shapes(secs) != [] && Shapes(secs)[0] == secs[0].shape && Shapes(secs)[1..] == Shapes(secs[1..])
  {}

  lemma LayoutStep(secs: seq<Section>, offset: nat)
    requires secs != []
    ensures var l := Layout(secs, offset);
            l != [] && l[0] == Found(offset, secs[0].rows)
            && l[1..] == Layout(secs[1..], offset + Align(|secs[0].bytes|))
  {}

  lemma {:induction false} HeaderSaysLayout(b: seq<Byte>, secs: seq<Section>, p: nat, offset: nat)
    requires AllShaped(secs) && offset + |Body(secs)| < LIMIT && At(b, p, Entries(secs, offset))
    ensures HeaderSays(b, Shapes(secs), p, Layout(secs, offset))
    decreases |secs|
  {
    if secs != [] {
      var s, offset' := secs[0], offset + Align(|secs[0].bytes|);
      AtSplit(b, p, Entry(s, offset), Entries(secs[1..], offset'));
      EntryAt(b, p, s, offset);
      HeaderSaysLayout(b, secs[1..], p + EntrySize(s.shape), offset');
      ShapesStep(secs);
      LayoutStep(secs, offset);
    }
  }

  lemma {:induction false} InOrderLayout(secs: seq<Section>, prov: nat, offset: nat, limit: nat)
    requires AllShaped(secs) && prov <= offset && offset + |Body(secs)| == limit < LIMIT
    ensures InOrder(Shapes(secs), Layout(secs, offset), prov, limit)
    decreases |secs|
  {
    if secs != [] {
      var s, offset' := secs[0], offset + Align(|secs[0].bytes|);
      ExtentIsSize(s);
      InOrderLayout(secs[1..], offset + Extent(s.shape, s.rows), offset', limit);
      ShapesStep(secs);
      LayoutStep(secs, offset);
    }
  }

  lemma FindsAll(b: seq<Byte>, secs: seq<Section>, p: nat, prov: nat, offset: nat)
    requires AllShaped(secs) && |b| < LIMIT
    requires At(b, p, Entries(secs, offset)) && prov <= offset && offset + |Body(secs)| == |b|
    ensures DissectFrom(b, Shapes(secs), p, prov) == Ok(Layout(secs, offset))
  {
    HeaderSaysLayout(b, secs, p, offset);
    InOrderLayout(secs, prov, offset, |b|);
    DissectIff(b, Shapes(secs), p, prov, Layout(secs, offset));
  }

  lemma {:induction false} EntriesSize(secs: seq<Section>, offset: nat)
    ensures |Entries(secs, offset)| == ShapesSize(Shapes(secs))
    decreases |secs|
  {
    if secs != [] { EntriesSize(secs[1..], offset + Align(|secs[0].bytes|)); }
  }

  function ShapesSize(shapes: seq<Shape>): nat {
    if shapes == [] then 0 else EntrySize(shapes[0]) + ShapesSize(shapes[1..])
  }

  lemma HeaderSize(secs: seq<Section>)
    requires Outputs(secs)
    ensures |Header(secs)| == HEADER
  {
    EntriesSize(secs, HEADER);
    TenEntries();
  }

  lemma TenEntries()
    ensures ShapesSize(SHAPES) == 68
  {
    var s := SHAPES;
    assert ShapesSize(s[10..]) == 0;
    assert ShapesSize(s[9..]) == 8 by { assert s[9..][1..] == s[10..]; }
    assert ShapesSize(s[8..]) == 16 by { assert s[8..][1..] == s[9..]; }
    assert ShapesSize(s[7..]) == 20 by { assert s[7..][1..] == s[8..]; }
    assert ShapesSize(s[6..]) == 28 by { assert s[6..][1..] == s[7..]; }
    assert ShapesSize(s[5..]) == 36 by { assert s[5..][1..] == s[6..]; }
    assert ShapesSize(s[4..]) == 40 by { assert s[4..][1..] == s[5..]; }
    assert ShapesSize(s[3..]) == 48 by { assert s[3..][1..] == s[4..]; }
    assert ShapesSize(s[2..]) == 52 by { assert s[2..][1..] == s[3..]; }
    assert ShapesSize(s[1..]) == 60 by { assert s[1..][1..] == s[2..]; }
  }

  lemma VersionAt(b: seq<Byte>, version: seq<Byte>)
    requires version == LE(VERSION, 4) && At(b, 0, version)
    ensures |b| >= 4 && Word(b, 0) == VERSION
  {
    WordAt(b, 0, VERSION, 4);
  }

  lemma DissectHeader(b: seq<Byte>, secs: seq<Section>)
    requires AllShaped(secs) && |Header(secs)| == HEADER && |b| < LIMIT
    requires At(b, 0, Header(secs)) && |b| == HEADER + |Body(secs)|
    ensures DissectAs(b, Shapes(secs)) == Ok(Layout(secs, HEADER))
  {
    var version := LE(VERSION, 4);
    AtSplit(b, 0, version, Entries(secs, HEADER));
    VersionAt(b, version);
    FindsAll(b, secs, 4, HEADER, HEADER);
  }

  lemma OutputAt(secs: seq<Section>)
    requires |Header(secs)| == HEADER
    ensures var b := Output(secs);
            At(b, 0, Header(secs)) && At(b, HEADER, Body(secs)) && |b| == HEADER + |Body(secs)|
  {
    assert At(Output(secs), 0, Header(secs) + Body(secs));
    AtSplit(Output(secs), 0, Header(secs), Body(secs));
  }

  /** The reader accepts what the writer put together and finds every section and row count. */
  lemma DissectOutput(secs: seq<Section>)
    requires Outputs(secs) && |Output(secs)| < LIMIT
    ensures Dissect(Output(secs)) == Ok(Layout(secs, HEADER))
  {
    HeaderSize(secs);
    OutputAt(secs);
    DissectHeader(Output(secs), secs);
  }

  /** A section is aligned, holds its content, and ends before the next one starts. */
  ghost predicate InPlace(b: seq<Byte>, secs: seq<Section>, found: seq<Found>, i: nat)
    requires |found| == |secs| && i < |secs|
  {
    && found[i].start % 8 == 0 && found[i].start >= HEADER
    && At(b, found[i].start, secs[i].bytes)
    && found[i].rows == secs[i].rows
    && found[i].start + |secs[i].bytes| <= ReadLimit(b, found, i)
  }

  lemma {:induction false} LayoutSize(secs: seq<Section>, offset: nat)
    ensures |Layout(secs, offset)| == |secs|
    decreases |secs|
  {
    if secs != [] { LayoutSize(secs[1..], offset + Align(|secs[0].bytes|)); }
  }

  lemma {:induction false} SectionInPlace(b: seq<Byte>, secs: seq<Section>, offset: nat, i: nat)
    requires i < |secs| && offset % 8 == 0 && offset >= HEADER
    requires At(b, offset, Body(secs)) && offset + |Body(secs)| == |b|
    ensures |Layout(secs, offset)| == |secs| && InPlace(b, secs, Layout(secs, offset), i)
    decreases |secs|
  {
    var s, offset' := secs[0], offset + Align(|secs[0].bytes|);
    LayoutSize(secs, offset);
    LayoutSize(secs[1..], offset');
    AtSplit(b, offset, Padded(s.bytes), Body(secs[1..]));
    if i == 0 {
      AtSplit(b, offset, s.bytes, Zeros(Align(|s.bytes|) - |s.bytes|));
      if |secs| > 1 { assert Layout(secs[1..], offset')[0].start == offset'; }
    } else {
      SectionInPlace(b, secs[1..], offset', i - 1);
      var all, rest := Layout(secs, offset), Layout(secs[1..], offset');
      assert all == [all[0]] + rest && secs[i] == secs[1..][i - 1];
      assert ReadLimit(b, all, i) == ReadLimit(b, rest, i - 1);
    }
  }

  /** Every section is aligned, in order, apart from the others, whole within its read limit, and
      has the content and the rows it was written with. */
  lemma LayoutInPlace(secs: seq<Section>, i: nat)
    requires Outputs(secs) && i < |secs|
    ensures |Layout(secs, HEADER)| == |secs| && InPlace(Output(secs), secs, Layout(secs, HEADER), i)
  {
    HeaderSize(secs);
    OutputAt(secs);
    SectionInPlace(Output(secs), secs, HEADER, i);
  }

  // ----- in place

  /** Some bytes put over others. */
  ghost predicate Patched(b: seq<Byte>, b': seq<Byte>, at: nat, e: seq<Byte>) {
    && |b'| == |b| && At(b', at, e)
    && forall j | 0 <= j < |b| && !(at <= j < at + |e|) :: b'[j] == b[j]
  }

  /** `memcpy`. */
  method Copy(a: array<Byte>, at: nat, bytes: seq<Byte>)
    requires at + |bytes| <= a.Length
    modifies a
    ensures Patched(old(a[..]), a[..], at, bytes)
  {
    for i := 0 to |bytes|
      invariant forall j | 0 <= j < i :: bytes[j] == a[at + j]
      invariant forall j | 0 <= j < a.Length && !(at <= j < at + i) :: a[j] == old(a[j])
    {
      a[at + i] := bytes[i];
    }
  }

  lemma PatchedTwice(b: seq<Byte>, b': seq<Byte>, b'': seq<Byte>, at: nat, e: seq<Byte>, e': seq<Byte>)
    requires Patched(b, b', at, e) && Patched(b', b'', at + |e|, e')
    ensures Patched(b, b'', at, e + e')
  {
    forall j | 0 <= j < |e + e'| ensures (e + e')[j] == b''[at + j] {
      if j < |e| {
        assert e[j] == b'[at + j];
      } else {
        assert e'[j - |e|] == b''[at + |e| + (j - |e|)];
      }
    }
  }

  /** The header's entry, with `write_int32` once or twice. */
  method WriteEntry(a: array<Byte>, at: nat, s: Section, offset: nat)
    requires at + EntrySize(s.shape) <= a.Length
    modifies a
    ensures Patched(old(a[..]), a[..], at, Entry(s, offset))
  {
    Copy(a, at, LE(offset, 4));
    if !s.shape.Data? {
      ghost var b := a[..];
      Copy(a, at + 4, LE(s.rows, 4));
      PatchedTwice(old(a[..]), b, a[..], at, LE(offset, 4), LE(s.rows, 4));
    }
  }

  method TotalSize(secs: seq<Section>) returns (size: nat)
    ensures size == HEADER + |Body(secs)|
  {
    size := Align(HEADER);
    for i := 0 to |secs|
      invariant size + |Body(secs[i..])| == HEADER + |Body(secs)|
    {
      assert secs[i..][1..] == secs[i + 1..];
      size := size + Align(|secs[i].bytes|);
    }
  }

  /** The header and the sections so far, and zeros after them. */
  ghost predicate Filled(b: seq<Byte>, head: seq<Byte>, body: seq<Byte>) {
    && |head| <= HEADER && At(b, 0, head) && HEADER + |body| <= |b| && At(b, HEADER, body)
    && forall j | HEADER + |body| <= j < |b| :: b[j] == 0
  }

  lemma FilledByEntry(b: seq<Byte>, b': seq<Byte>, head: seq<Byte>, body: seq<Byte>, e: seq<Byte>)
    requires Filled(b, head, body) && |head| + |e| <= HEADER
    requires Patched(b, b', |head|, e)
    ensures Filled(b', head + e, body)
  {}

  lemma FilledBySection(b: seq<Byte>, b': seq<Byte>, head: seq<Byte>, body: seq<Byte>, bytes: seq<Byte>)
    requires Filled(b, head, body) && HEADER + |body| + Align(|bytes|) <= |b|
    requires Patched(b, b', HEADER + |body|, bytes)
    ensures Filled(b', head, body + Padded(bytes))
  {
    var all := body + Padded(bytes);
    forall j | 0 <= j < |all| ensures all[j] == b'[HEADER + j] {
      if |body| <= j < |body| + |bytes| { assert bytes[j - |body|] == b'[HEADER + |body| + (j - |body|)]; }
    }
  }

  method PutSection(output: array<Byte>, at: nat, offset: nat, s: Section, ghost head: seq<Byte>, ghost body: seq<Byte>)
    requires Filled(output[..], head, body) && at == |head| && offset == HEADER + |body|
    requires at + EntrySize(s.shape) <= HEADER && offset + Align(|s.bytes|) <= output.Length
    modifies output
    ensures Filled(output[..], head + Entry(s, offset), body + Padded(s.bytes))
  {
    ghost var b := output[..];
    WriteEntry(output, at, s, offset);
    FilledByEntry(b, output[..], head, body, Entry(s, offset));
    b := output[..];
    Copy(output, offset, s.bytes);
    FilledBySection(b, output[..], head + Entry(s, offset), body, s.bytes);
  }

  /** The first `i` sections are done, out of those that make up this header and this body. */
  ghost predicate Done(
    secs: seq<Section>, i: nat, head: seq<Byte>, body: seq<Byte>, header: seq<Byte>, whole: seq<Byte>)
  {
    && i <= |secs|
    && head + Entries(secs[i..], HEADER + |body|) == header
    && body + Body(secs[i..]) == whole
  }

  lemma EntriesStep(secs: seq<Section>, i: nat, head: seq<Byte>, offset: nat)
    requires i < |secs|
    ensures head + Entries(secs[i..], offset)
         == (head + Entry(secs[i], offset)) + Entries(secs[i + 1..], offset + Align(|secs[i].bytes|))
    ensures |head| + EntrySize(secs[i].shape) <= |head + Entries(secs[i..], offset)|
  {
    assert secs[i..][1..] == secs[i + 1..];
    var e, es := Entry(secs[i], offset), Entries(secs[i + 1..], offset + Align(|secs[i].bytes|));
    assert head + (e + es) == (head + e) + es;
  }

  lemma BodyStep(secs: seq<Section>, i: nat, body: seq<Byte>)
    requires i < |secs|
    ensures body + Body(secs[i..]) == (body + Padded(secs[i].bytes)) + Body(secs[i + 1..])
    ensures |body| + Align(|secs[i].bytes|) <= |body + Body(secs[i..])|
  {
    assert secs[i..][1..] == secs[i + 1..];
    var p, ps := Padded(secs[i].bytes), Body(secs[i + 1..]);
    assert body + (p + ps) == (body + p) + ps;
  }

  lemma DoneStep(secs: seq<Section>, i: nat, head: seq<Byte>, body: seq<Byte>, header: seq<Byte>, whole: seq<Byte>)
    requires Done(secs, i, head, body, header, whole) && i < |secs|
    ensures Done(secs, i + 1, head + Entry(secs[i], HEADER + |body|), body + Padded(secs[i].bytes), header, whole)
    ensures |head| + EntrySize(secs[i].shape) <= |header| && |body| + Align(|secs[i].bytes|) <= |whole|
  {
    EntriesStep(secs, i, head, HEADER + |body|);
    BodyStep(secs, i, body);
  }

  lemma DoneAtLast(secs: seq<Section>, head: seq<Byte>, body: seq<Byte>, header: seq<Byte>, whole: seq<Byte>)
    requires Done(secs, |secs|, head, body, header, whole)
    ensures head == header && body == whole
  {
    assert secs[|secs|..] == [];
  }

  lemma FilledWhole(b: seq<Byte>, head: seq<Byte>, body: seq<Byte>)
    requires Filled(b, head, body) && |head| == HEADER && |b| == HEADER + |body|
    ensures b == head + body
  {
    forall j | 0 <= j < |b| ensures b[j] == (head + body)[j] {
      if j >= HEADER { assert b[HEADER + (j - HEADER)] == body[j - HEADER]; }
    }
  }

  /** All sections put in place, when the header has room for their entries. */
  method PutSections(secs: seq<Section>) returns (r: Result<seq<Byte>>)
    requires |Header(secs)| == HEADER
    ensures r == Ok(Output(secs))
  {
    var size := TotalSize(secs);
    var output := new Byte[size](_ => 0);
    Copy(output, 0, LE(VERSION, 4));
    ghost var head: seq<Byte>, body: seq<Byte> := LE(VERSION, 4), [];
    assert Filled(output[..], head, body);
    ghost var header, whole := Header(secs), Body(secs);
    var offset, at := Align(HEADER), 4;
    for i := 0 to |secs|
      invariant offset == HEADER + |body| && at == |head| && Done(secs, i, head, body, header, whole)
      invariant Filled(output[..], head, body) && output.Length == size
    {
      DoneStep(secs, i, head, body, header, whole);
      PutSection(output, at, offset, secs[i], head, body);
      head, body := head + Entry(secs[i], offset), body + Padded(secs[i].bytes);
      offset, at := offset + Align(|secs[i].bytes|), at + EntrySize(secs[i].shape);
    }
    DoneAtLast(secs, head, body, header, whole);
    FilledWhole(output[..], head, body);
    if offset != size {
      return Err;
    }
    return Ok(output[..]);
  }

  /** `concatenate_outputs`: the sanity check never throws. */
  method Concatenate(secs: seq<Section>) returns (r: Result<seq<Byte>>)
    requires Outputs(secs) && |Output(secs)| < LIMIT
    ensures r == Ok(Output(secs))
  {
    HeaderSize(secs);
    r := PutSections(secs);
  }
}
