/** How the serializer writes places and strings, and the rows of the objects table
    (src/6model/serialization.c). */
module Places {
  import opened Wrappers
  import opened Bytes
  import opened Codes
  import opened Packing
  import opened Tables

  /** The writer after a write and the bytes it appended, or an exception. */
  datatype Written = Written(w: Writer, bytes: seq<Byte>) | Failed

  function WriteCode<T(!new)>(c: Coding<T>, w: Writer, x: T): Written {
    if c.fits(x) then Written(w, c.enc(x)) else Failed
  }

  function WriteLoc(c: Coding<Place>, w: Writer, loc: Loc): Written {
    var (w1, id) := ScId(w, loc.sc);
    WriteCode(c, w1, Place(id, loc.idx))
  }

  /** A place read, and what is there. */
  function ReadLoc(c: Coding<Place>, f: Foreign, t: Tables, k: Kind, b: seq<Byte>, pos: nat): (r: Parsed<nat>)
    ensures r.Parsed? ==> pos < r.end <= |b|
  {
    var place := c.dec(b, pos);
    if place.Bad? then Bad
    else
      var sc := LocateSc(t, place.value.id);
      if sc.Err? then Bad
      else
        var x := Lookup(f, t, k, Loc(sc.value, place.value.idx));
        if x.Err? then Bad else Parsed(x.value, place.end)
  }

  // What was written, told from any later state of the writer.

  datatype Encoded = Encoded(bytes: seq<Byte>) | Unknown

  function EncodeWith<T(!new)>(c: Coding<T>, x: T): Encoded {
    if c.fits(x) then Encoded(c.enc(x)) else Unknown
  }

  /** The bytes for an item: its context's number and its index there. */
  function EncodeItem(c: Coding<Place>, w: Writer, r: Ref): Encoded {
    if r !in w.own then Unknown
    else
      var id := NumberOf(w.tabs, w.own[r].sc);
      if id.Err? then Unknown else EncodeWith(c, Place(id.value, w.own[r].idx))
  }

  function EncodeStr(c: Coding<nat>, w: Writer, s: MString): Encoded {
    var i := StringAt(w.seen, s);
    if i.Err? then Unknown else EncodeWith(c, i.value)
  }

  /** A write that succeeds leaves a good writer that only grew. */
  ghost predicate Kept(f: Foreign, w: Writer, r: Written) {
    r.Written? ==> WriterOk(f, r.w) && Extends(w, r.w)
  }

  lemma KeptTransitive(f: Foreign, w: Writer, w1: Writer, r: Written)
    requires Extends(w, w1) && Kept(f, w1, r)
    ensures Kept(f, w, r)
  {
    if r.Written? { ExtendsTransitive(w, w1, r.w); }
  }

  lemma WriteLocKept(c: Coding<Place>, f: Foreign, w: Writer, loc: Loc)
    requires WriterOk(f, w)
    ensures Kept(f, w, WriteLoc(c, w, loc))
  {
    ScIdOk(f, w, loc.sc);
  }

  lemma WriteLocIsEncode(c: Coding<Place>, f: Foreign, w: Writer, r: Ref, later: Writer)
    requires WriterOk(f, w) && r in w.own && WriteLoc(c, w, w.own[r]).Written?
    requires Extends(WriteLoc(c, w, w.own[r]).w, later)
    ensures EncodeItem(c, later, r) == Encoded(WriteLoc(c, w, w.own[r]).bytes)
  {
    ScIdOk(f, w, w.own[r].sc);
    NumberStable(WriteLoc(c, w, w.own[r]).w.tabs, later.tabs, w.own[r].sc);
  }

  /** The item is found again. */
  lemma ItemRoundTrip(c: Coding<Place>, f: Foreign, w: Writer, r: Ref, b: seq<Byte>, p: nat)
    requires OwnOk(f, w.tabs, w.own) && EncodeItem(c, w, r).Encoded? && At(b, p, EncodeItem(c, w, r).bytes)
    ensures ReadLoc(c, f, w.tabs, r.kind, b, p) == Parsed(r.id, p + |EncodeItem(c, w, r).bytes|)
  {
    var loc := w.own[r];
    var id := NumberOf(w.tabs, loc.sc).value;
    CodedAt(c, b, p, Place(id, loc.idx));
    NumberLocates(w.tabs, loc.sc);
  }

  // ----- strings

  function WriteStr(c: Coding<nat>, w: Writer, s: MString): Written {
    var (w1, i) := AddString(w, s);
    WriteCode(c, w1, i)
  }

  function ReadStr(c: Coding<nat>, t: Tables, b: seq<Byte>, pos: nat): (r: Parsed<MString>)
    ensures r.Parsed? ==> pos < r.end <= |b|
  {
    var i := c.dec(b, pos);
    if i.Bad? || i.value >= |t.heap| then Bad else Parsed(t.heap[i.value], i.end)
  }

  lemma WriteStrKept(c: Coding<nat>, f: Foreign, w: Writer, s: MString)
    requires WriterOk(f, w)
    ensures Kept(f, w, WriteStr(c, w, s))
  {
    AddStringOk(f, w, s);
  }

  lemma WriteStrIsEncode(c: Coding<nat>, f: Foreign, w: Writer, s: MString, later: Writer)
    requires WriterOk(f, w) && WriteStr(c, w, s).Written? && Extends(WriteStr(c, w, s).w, later)
    ensures EncodeStr(c, later, s) == Encoded(WriteStr(c, w, s).bytes)
  {
    AddStringOk(f, w, s);
    StringAtStable(WriteStr(c, w, s).w.seen, later.seen, s);
  }

  /** The string is read back. */
  lemma StrRoundTrip(c: Coding<nat>, w: Writer, s: MString, b: seq<Byte>, p: nat)
    requires HeapOk(w.tabs.heap, w.seen) && EncodeStr(c, w, s).Encoded? && At(b, p, EncodeStr(c, w, s).bytes)
    ensures ReadStr(c, w.tabs, b, p) == Parsed(s, p + |EncodeStr(c, w, s).bytes|)
  {
    CodedAt(c, b, p, StringAt(w.seen, s).value);
    StringAtHolds(w.tabs.heap, w.seen, s);
  }

  // ----- object rows

  /** A row of the objects table: the packed word and where the object's data starts. */
  datatype ObjectRow = ObjectRow(packed: nat, offset: nat)

  predicate Fits(sc: nat, idx: nat) { sc <= 0x7FE && idx <= 0xFFFFF }

  function RowWord(concrete: bool, hi: nat, lo: nat): nat {
    (if concrete then 0x8000_0000 else 0) + hi * 0x100000 + lo
  }

  /** `serialize_object`: what goes before the object's data, of which `data` is written already,
      and its row. */
  function PackRow(concrete: bool, sc: nat, idx: nat, data: seq<Byte>): (seq<Byte>, ObjectRow) {
    if Fits(sc, idx) then (data, ObjectRow(RowWord(concrete, sc, idx), |data|))
    else
      var d := data + LE(sc, 4) + LE(idx, 4);
      (d, ObjectRow(RowWord(concrete, 0x7FF, 0), |d|))
  }

  function Concrete(word: nat): bool { word / 0x8000_0000 % 2 == 1 }
  function RowSc(word: nat): nat { word / 0x100000 % 0x800 }
  function RowIdx(word: nat): nat { word % 0x100000 }

  /** `read_object_table_entry`: overflowing numbers stand eight bytes before the object's data. */
  function UnpackRow(row: ObjectRow, data: seq<Byte>): Result<(nat, nat)> {
    if RowSc(row.packed) != 0x7FF then Ok((RowSc(row.packed), RowIdx(row.packed)))
    else if row.offset < 8 || row.offset > |data| then Err
    else Ok((FromLE(data[row.offset - 8..row.offset - 4]), FromLE(data[row.offset - 4..row.offset])))
  }

  lemma FourBytes(v: nat, k: nat)
    requires v < WORD && k == 4
    ensures FromLE(LE(v, k)) == v
  {
    Widths();
    UnsignedRoundTrip(v, k);
  }

  lemma WordFields(concrete: bool, hi: nat, lo: nat)
    requires hi <= 0x7FF && lo <= 0xFFFFF
    ensures var word := RowWord(concrete, hi, lo);
            word < WORD && Concrete(word) == concrete && RowSc(word) == hi && RowIdx(word) == lo
  {}

  lemma OverflowWords(row: ObjectRow, data: seq<Byte>, n: nat, e: seq<Byte>, e': seq<Byte>)
    requires RowSc(row.packed) == 0x7FF && row.offset == n + 8 <= |data|
    requires data[n..n + 4] == e && data[n + 4..n + 8] == e'
    ensures UnpackRow(row, data) == Ok((FromLE(e), FromLE(e')))
  {}

  /** The row fits a word, and reading it gives what was written, whatever data follows. */
  lemma RowRoundTrip(concrete: bool, sc: nat, idx: nat, data: seq<Byte>, data': seq<Byte>)
    requires sc < WORD && idx < WORD && PackRow(concrete, sc, idx, data).0 <= data'
    ensures var row := PackRow(concrete, sc, idx, data).1;
            && row.packed < WORD && Concrete(row.packed) == concrete
            && UnpackRow(row, data') == Ok((sc, idx))
            && row.offset == |PackRow(concrete, sc, idx, data).0|
  {
    if Fits(sc, idx) {
      WordFields(concrete, sc, idx);
    } else {
      WordFields(concrete, 0x7FF, 0);
      OverflowWords(PackRow(concrete, sc, idx, data).1, data', |data|, LE(sc, 4), LE(idx, 4));
      FourBytes(sc, 4);
      FourBytes(idx, 4);
    }
  }
}
