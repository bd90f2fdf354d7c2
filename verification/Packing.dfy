/** The codes of src/6model/serialization.c below the level of references: integers, numbers,
    string indices and places. */
module Packing {
  import opened Wrappers
  import opened Bytes
  import opened IntCode
  import opened Codes
  import opened Tables

  const LIMIT: nat := 0x8000_0000
  const WORD: nat := 0x1_0000_0000

  // ----- integers

  function IntCoder(): Coder<Int64> {
    Coder(_ => true, EncodeInt, DecodeInt)
  }

  lemma IntReadsBack(b: seq<Byte>, p: nat, v: Int64)
    ensures ReadsBack(IntCoder(), b, p, v)
  {
    if At(b, p, EncodeInt(v)) { IntRoundTrip(b, p, v); }
  }

  // ----- the bits of doubles

  type Num64 = x: int | 0 <= x < 0x1_0000_0000_0000_0000

  function ReadNum(b: seq<Byte>, pos: nat): (r: Parsed<Num64>)
    ensures r.Parsed? ==> pos < r.end <= |b|
  {
    if pos + 8 > |b| then Bad
    else
      Widths();
      Parsed(FromLE(b[pos..pos + 8]), pos + 8)
  }

  function NumCoder(): Coder<Num64> {
    Coder(_ => true, (x: Num64) => LE(x, 8), ReadNum)
  }

  lemma NumRoundTrip(b: seq<Byte>, p: nat, bits: Num64, k: nat)
    requires k == 8 && At(b, p, LE(bits, k))
    ensures ReadNum(b, p) == Parsed(bits, p + k)
  {
    Widths();
    AtSlice(b, p, LE(bits, k));
    UnsignedRoundTrip(bits, k);
  }

  lemma NumReadsBack(b: seq<Byte>, p: nat, x: Num64)
    ensures ReadsBack(NumCoder(), b, p, x)
  {
    if At(b, p, LE(x, 8)) { NumRoundTrip(b, p, x, 8); }
  }

  // ----- string indices

  /** `MVM_serialization_write_str`, the index; larger ones than 31 bits are an error. */
  function PackString(i: nat): seq<Byte> {
    if i <= 0x7FFF then LE(i, 2) else LE(i / 0x10000 + 0x8000, 2) + LE(i % 0x10000, 2)
  }

  /** `MVM_serialization_read_str`, the index. */
  function UnpackString(b: seq<Byte>, pos: nat): (r: Parsed<nat>)
    ensures r.Parsed? ==> pos < r.end <= |b|
  {
    if pos + 2 > |b| then Bad
    else
      var x := FromLE(b[pos..pos + 2]);
      if x < 0x8000 then Parsed(x, pos + 2)
      else if pos + 4 > |b| then Bad
      else Parsed((x - 0x8000) * 0x10000 + FromLE(b[pos + 2..pos + 4]), pos + 4)
  }

  lemma TwoBytes(v: nat)
    requires v < 0x1_0000
    ensures FromLE(LE(v, 2)) == v
  {
    Widths();
    UnsignedRoundTrip(v, 2);
  }

  /** An index comes back over the whole range of 31 bits. */
  lemma StringIndexRoundTrip(b: seq<Byte>, p: nat, i: nat)
    requires i < LIMIT && At(b, p, PackString(i))
    ensures UnpackString(b, p) == Parsed(i, p + |PackString(i)|)
  {
    if i <= 0x7FFF {
      AtSlice(b, p, LE(i, 2));
      TwoBytes(i);
    } else {
      AtSplit(b, p, LE(i / 0x10000 + 0x8000, 2), LE(i % 0x10000, 2));
      AtSlice(b, p, LE(i / 0x10000 + 0x8000, 2));
      AtSlice(b, p + 2, LE(i % 0x10000, 2));
      TwoBytes(i / 0x10000 + 0x8000);
      TwoBytes(i % 0x10000);
    }
  }

  function StringCoder(): Coder<nat> {
    Coder(i => i < LIMIT, PackString, UnpackString)
  }

  lemma StringReadsBack(b: seq<Byte>, p: nat, i: nat)
    ensures ReadsBack(StringCoder(), b, p, i)
  {
    if i < LIMIT && At(b, p, PackString(i)) { StringIndexRoundTrip(b, p, i); }
  }

  // ----- a context's number and an index

  function Packed(hi: nat, lo: nat): Int64
    requires hi <= 0xFFF && lo <= 0xFFFFF
  {
    hi * 0x100000 + lo
  }

  predicate PlaceFits(c: Coding<Int64>, x: Place) {
    && x.id < LIMIT && x.idx < LIMIT
    && if x.id <= 0xFFE && x.idx <= 0xFFFFF then c.fits(Packed(x.id, x.idx))
       else c.fits(Packed(0xFFF, 0)) && c.fits(x.id) && c.fits(x.idx)
  }

  /** `write_locate_sc_and_index`. */
  function PackPlace(c: Coding<Int64>, x: Place): seq<Byte> {
    if x.id >= LIMIT || x.idx >= LIMIT then []
    else if x.id <= 0xFFE && x.idx <= 0xFFFFF then c.enc(Packed(x.id, x.idx))
    else c.enc(Packed(0xFFF, 0)) + c.enc(x.id) + c.enc(x.idx)
  }

  /** `read_locate_sc_and_index`, up to looking up the context. */
  function UnpackPlace(c: Coding<Int64>, b: seq<Byte>, pos: nat): (r: Parsed<Place>)
    ensures r.Parsed? ==> pos < r.end <= |b|
  {
    var v := c.dec(b, pos);
    if v.Bad? then Bad
    else
      var (id, idx) := Halves(v.value);
      if id != 0xFFF then Parsed(Place(id, idx), v.end) else UnpackWide(c, b, v.end)
  }

  function UnpackWide(c: Coding<Int64>, b: seq<Byte>, pos: nat): (r: Parsed<Place>)
    ensures r.Parsed? ==> pos < r.end <= |b|
  {
    var id := c.dec(b, pos);
    if id.Bad? then Bad
    else
      var idx := c.dec(b, id.end);
      if idx.Bad? || Signed(idx.value % WORD, WORD) < 0 then Bad
      else Parsed(Place(id.value % WORD, Signed(idx.value % WORD, WORD)), idx.end)
  }

  function Halves(v: Int64): (nat, nat) {
    var packed := v % WORD;
    (packed / 0x100000, packed % 0x100000)
  }

  lemma HalvesOf(hi: nat, lo: nat)
    requires hi <= 0xFFF && lo <= 0xFFFFF
    ensures Halves(Packed(hi, lo)) == (hi, lo)
  {}

  /** A place comes back over the whole range, packed or overflowing. */
  lemma PlaceRoundTrip(c: Coding<Int64>, b: seq<Byte>, p: nat, x: Place)
    requires PlaceFits(c, x) && At(b, p, PackPlace(c, x))
    ensures UnpackPlace(c, b, p) == Parsed(x, p + |PackPlace(c, x)|)
  {
    if x.id <= 0xFFE && x.idx <= 0xFFFFF {
      CodedAt(c, b, p, Packed(x.id, x.idx));
      HalvesOf(x.id, x.idx);
    } else {
      var e, e', e'' := c.enc(Packed(0xFFF, 0)), c.enc(x.id), c.enc(x.idx);
      AtSplit3(b, p, e, e', e'');
      CodedAt(c, b, p, Packed(0xFFF, 0));
      CodedAt(c, b, p + |e|, x.id);
      CodedAt(c, b, p + |e| + |e'|, x.idx);
      HalvesOf(0xFFF, 0);
    }
  }

  function PlaceCoder(c: Coding<Int64>): Coder<Place> {
    Coder((x: Place) => PlaceFits(c, x), (x: Place) => PackPlace(c, x), (b: seq<Byte>, p: nat) => UnpackPlace(c, b, p))
  }

  lemma PlaceReadsBack(c: Coding<Int64>, b: seq<Byte>, p: nat, x: Place)
    ensures ReadsBack(PlaceCoder(c), b, p, x)
  {
    if PlaceFits(c, x) && At(b, p, PackPlace(c, x)) { PlaceRoundTrip(c, b, p, x); }
  }

  // ----- all of them

  /** What is built on these codes uses no more of them than that they delimit themselves. */
  datatype Codings = Codings(
    ints: Coding<Int64>, nums: Coding<Num64>, strs: Coding<nat>, places: Coding<Place>)

  lemma CodersDelimit()
    ensures Delimits(IntCoder()) && Delimits(NumCoder()) && Delimits(StringCoder())
    ensures forall c: Coding<Int64> :: Delimits(PlaceCoder(c))
  {
    forall b: seq<Byte>, p: nat, x: Int64 ensures ReadsBack(IntCoder(), b, p, x) { IntReadsBack(b, p, x); }
    forall b: seq<Byte>, p: nat, x: Num64 ensures ReadsBack(NumCoder(), b, p, x) { NumReadsBack(b, p, x); }
    forall b: seq<Byte>, p: nat, x: nat ensures ReadsBack(StringCoder(), b, p, x) { StringReadsBack(b, p, x); }
    forall c: Coding<Int64>, b: seq<Byte>, p: nat, x: Place ensures ReadsBack(PlaceCoder(c), b, p, x) {
      PlaceReadsBack(c, b, p, x);
    }
  }

  lemma CodersAdvance()
    ensures Advances(IntCoder()) && Advances(NumCoder()) && Advances(StringCoder())
    ensures forall c: Coding<Int64> :: Advances(PlaceCoder(c))
  {}

  /** The codes of the serializer. */
  function Format(): Codings {
    CodersDelimit();
    CodersAdvance();
    var ints: Coding<Int64> := IntCoder();
    Codings(ints, NumCoder(), StringCoder(), PlaceCoder(ints))
  }
}
