/** The variable-sized integer code of src/6model/serialization.c: one to nine bytes for a
    64-bit integer. */
module IntCode {
  import opened Bytes
  import opened Wrappers

  type Int64 = v: int | -0x8000_0000_0000_0000 <= v < 0x8000_0000_0000_0000

  /** How many bytes a value takes. */
  function IntSize(v: Int64): (n: nat)
    ensures 1 <= n <= 9
  {
    if -1 <= v <= 126 then 1 else SizeFrom(Magnitude(v), 2)
  }

  function Magnitude(v: int): nat {
    if v < 0 then -v - 1 else v
  }

  /** Each byte more takes eight bits off what has to fit twelve bits with its sign. */
  function SizeFrom(a: nat, n: nat): (r: nat)
    requires n <= 9
    ensures n <= r <= 9
    decreases 9 - n
  {
    if a <= 0x7FF || n == 9 then n else SizeFrom(a / 256, n + 1)
  }

  /** The thresholds of lines 336-358. */
  function ThresholdSize(v: Int64): nat {
    if -1 <= v <= 126 then 1
    else
      var a := Magnitude(v);
      if a <= 0x7FF then 2
      else if a <= 0x7FFFF then 3
      else if a <= 0x7FFFFFF then 4
      else if a <= 0x7_FFFF_FFFF then 5
      else if a <= 0x7FF_FFFF_FFFF then 6
      else if a <= 0x7_FFFF_FFFF_FFFF then 7
      else if a <= 0x7FF_FFFF_FFFF_FFFF then 8
      else 9
  }

  lemma SizeStep(a: nat, n: nat)
    requires n < 9
    ensures SizeFrom(a, n) == if a <= 0x7FF then n else SizeFrom(a / 256, n + 1)
  {}

  lemma SizeIsThreshold(v: Int64)
    ensures IntSize(v) == ThresholdSize(v)
  {
    var a := Magnitude(v);
    SizeStep(a, 2);
    SizeStep(a / 256, 3);
    SizeStep(a / 256 / 256, 4);
    SizeStep(a / 256 / 256 / 256, 5);
    SizeStep(a / 256 / 256 / 256 / 256, 6);
    SizeStep(a / 256 / 256 / 256 / 256 / 256, 7);
    SizeStep(a / 256 / 256 / 256 / 256 / 256 / 256, 8);
  }

  /** `MVM_serialization_write_int`. */
  function EncodeInt(v: Int64): (b: seq<Byte>)
    ensures |b| == IntSize(v)
  {
    var n := IntSize(v);
    if n == 1 then [v + 129] else [Lead(v, n)] + LE(v, n - 1)
  }

  /** The first byte of the longer forms. */
  function Lead(v: Int64, n: nat): Byte
    requires 2 <= n <= 9
  {
    if n == 9 then 0 else 16 * (n - 1) + High(v, n - 1) % 16
  }

  /** `MVM_serialization_read_int`: the value and where it ends, or a read past the end. */
  function DecodeInt(b: seq<Byte>, pos: nat): (r: Parsed<Int64>)
    ensures r.Parsed? ==> pos < r.end <= |b|
  {
    if pos >= |b| || pos + FormSize(b[pos]) > |b| then Bad
    else
      var end := pos + FormSize(b[pos]);
      Parsed(FormValue(b[pos..end]), end)
  }

  /** How long the form is that starts with this byte. */
  function FormSize(lead: int): (n: nat)
    requires 0 <= lead < 256
    ensures 1 <= n <= 9
  {
    if lead >= 128 then 1 else if lead < 16 then 9 else lead / 16 + 1
  }

  function FormValue(e: seq<Byte>): Int64
    requires e != [] && |e| == FormSize(e[0])
  {
    if |e| == 1 then Small(e[0])
    else if |e| == 9 then SignExtend(Signed(e[8], 256), e[1..8])
    else SignExtend(Signed(e[0] % 16, 16), e[1..])
  }

  function Small(x: int): Int64
    requires 0 <= x < 256
  {
    x - 129
  }

  function SignExtend(top: int, b: seq<Byte>): (v: Int64)
    requires |b| <= 7 && -128 <= top < 128
  {
    JoinRange(b, top, -128, 128);
    assert Pow256(|b|) <= 0x100_0000_0000_0000 by { Widths(); }
    Join(b, top)
  }

  /** The thresholds are exactly the ranges of the forms. */
  lemma SizeIsRange(v: Int64, n: nat)
    requires 2 <= n <= 8
    ensures IntSize(v) <= n <==> -8 * Pow256(n - 1) <= v < 8 * Pow256(n - 1)
  {
    Widths();
    SizeIsThreshold(v);
  }

  lemma NybbleSigned(h: int)
    ensures -8 <= h < 8 ==> Signed(h % 16, 16) == h
    ensures -128 <= h < 128 ==> Signed(h % 256, 256) == h
  {}

  lemma NybbleRange(v: Int64, n: nat)
    requires 2 <= n == IntSize(v) <= 8
    ensures -8 <= High(v, n - 1) < 8
  {
    SizeIsRange(v, n);
    HighRange(v, n - 1, -8, 8);
  }

  lemma WideRange(v: Int64, k: nat)
    requires k == 7
    ensures -128 <= High(v, k) < 128
  {
    Widths();
    HighRange(v, k, -128, 128);
  }

  lemma MidForm(e: seq<Byte>, v: Int64, n: nat)
    requires 2 <= n == IntSize(v) <= 8 && e == [Lead(v, n)] + LE(v, n - 1)
    ensures FormSize(e[0]) == n && FormValue(e) == v
  {
    NybbleRange(v, n);
    NybbleSigned(High(v, n - 1));
    JoinSplit(v, n - 1);
  }

  lemma WideForm(e: seq<Byte>, low: seq<Byte>, h: int)
    requires |low| == 7 && -128 <= h < 128 && e == [0] + low + [h % 256]
    ensures FormSize(e[0]) == 9 && FormValue(e) == Join(low, h)
  {
    NybbleSigned(h);
    assert e[1..8] == low;
  }

  lemma WideRoundTrip(v: Int64, k: nat)
    requires k == 7 && IntSize(v) == 9
    ensures var e := EncodeInt(v); FormSize(e[0]) == |e| && FormValue(e) == v
  {
    LastByte(v, k + 1);
    WideRange(v, k);
    assert EncodeInt(v) == [0] + LE(v, k) + [High(v, k) % 256];
    WideForm(EncodeInt(v), LE(v, k), High(v, k));
    JoinSplit(v, k);
  }

  /** Every value has a form that says its own length and stands for the value. */
  lemma FormRoundTrip(v: Int64)
    ensures var e := EncodeInt(v); FormSize(e[0]) == |e| && FormValue(e) == v
  {
    var n := IntSize(v);
    if n == 9 {
      WideRoundTrip(v, 7);
    } else if n > 1 {
      MidForm(EncodeInt(v), v, n);
    }
  }

  /** What was written is read back, wherever it stands; the code delimits itself. */
  lemma IntRoundTrip(b: seq<Byte>, p: nat, v: Int64)
    requires At(b, p, EncodeInt(v))
    ensures DecodeInt(b, p) == Parsed(v, p + |EncodeInt(v)|)
  {
    FormRoundTrip(v);
    AtSlice(b, p, EncodeInt(v));
  }

  /** No shorter form of the code stands for the value. */
  lemma Shortest(e: seq<Byte>)
    requires e != [] && |e| == FormSize(e[0])
    ensures |EncodeInt(FormValue(e))| <= |e|
  {
    var v, n := FormValue(e), |e|;
    if 1 < n < 9 {
      JoinRange(e[1..], Signed(e[0] % 16, 16), -8, 8);
      SizeIsRange(v, n);
    }
  }

  /** `calculate_int_bytes`. */
  function IntBytes(b: seq<Byte>, pos: nat): Result<nat> {
    if pos >= |b| then Err
    else if b[pos] >= 128 then Ok(1)
    else
      var need := b[pos] / 16;
      if need == 0 then Ok(9)
      else if pos + 1 + need > |b| then Err
      else Ok(need + 1)
  }

  /** It foretells what reading consumes; it only misses the end of the data inside the
      nine-byte form. */
  lemma IntBytesAgree(b: seq<Byte>, pos: nat)
    ensures DecodeInt(b, pos).Parsed? <==>
            IntBytes(b, pos).Ok? && pos + IntBytes(b, pos).value <= |b|
    ensures DecodeInt(b, pos).Parsed? ==> DecodeInt(b, pos).end == pos + IntBytes(b, pos).value
  {}
}
