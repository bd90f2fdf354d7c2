/** Bytes and little-endian two's complement numbers. */
module Bytes {
  type Byte = x: int | 0 <= x < 256

  function Pow256(k: nat): (p: nat)
    ensures p >= 1
  {
    if k == 0 then 1 else 256 * Pow256(k - 1)
  }

  /** The powers of 256 that matter. */
  lemma Widths()
    ensures Pow256(0) == 1 && Pow256(1) == 0x100 && Pow256(2) == 0x1_0000 && Pow256(3) == 0x100_0000
    ensures Pow256(4) == 0x1_0000_0000 && Pow256(5) == 0x100_0000_0000 && Pow256(6) == 0x1_0000_0000_0000
    ensures Pow256(7) == 0x100_0000_0000_0000 && Pow256(8) == 0x1_0000_0000_0000_0000
  {
    assert Pow256(4) == 256 * Pow256(3);
    assert Pow256(6) == 256 * Pow256(5);
    assert Pow256(8) == 256 * Pow256(7);
  }

  /** The low `k` bytes of a number, lowest first. */
  function LE(v: int, k: nat): (b: seq<Byte>)
    ensures |b| == k
    decreases k
  {
    if k == 0 then [] else [v % 256] + LE(v / 256, k - 1)
  }

  /** What is left of a number above its low `k` bytes: an arithmetic shift. */
  function High(v: int, k: nat): int
    decreases k
  {
    if k == 0 then v else High(v / 256, k - 1)
  }

  /** The number with these low bytes and `top` above them. */
  function Join(b: seq<Byte>, top: int): int {
    if b == [] then top else b[0] + 256 * Join(b[1..], top)
  }

  /** The low bytes as an unsigned number. */
  function FromLE(b: seq<Byte>): (v: nat)
    ensures v < Pow256(|b|)
  {
    if b == [] then 0 else b[0] + 256 * FromLE(b[1..])
  }

  /** A number below `m` read as a two's complement number of that width. */
  function Signed(x: nat, m: nat): int {
    if 2 * x < m then x else x - m
  }

  lemma {:induction false} JoinSplit(v: int, k: nat)
    ensures Join(LE(v, k), High(v, k)) == v
    decreases k
  {
    if k > 0 {
      JoinSplit(v / 256, k - 1);
      assert LE(v, k)[1..] == LE(v / 256, k - 1);
    }
  }

  lemma {:induction false} FromLEJoin(b: seq<Byte>)
    ensures FromLE(b) == Join(b, 0)
  {
    if b != [] { FromLEJoin(b[1..]); }
  }

  lemma {:induction false} HighRange(v: int, k: nat, lo: int, hi: int)
    requires lo * Pow256(k) <= v < hi * Pow256(k)
    ensures lo <= High(v, k) < hi
    decreases k
  {
    if k > 0 {
      assert lo * Pow256(k) == 256 * (lo * Pow256(k - 1)) && hi * Pow256(k) == 256 * (hi * Pow256(k - 1));
      HighRange(v / 256, k - 1, lo, hi);
    }
  }

  lemma {:induction false} JoinRange(b: seq<Byte>, top: int, lo: int, hi: int)
    requires lo <= top < hi
    ensures lo * Pow256(|b|) <= Join(b, top) < hi * Pow256(|b|)
  {
    if b != [] {
      var p := Pow256(|b| - 1);
      JoinRange(b[1..], top, lo, hi);
      assert lo * Pow256(|b|) == 256 * (lo * p) && hi * Pow256(|b|) == 256 * (hi * p);
    }
  }

  lemma {:induction false} LastByte(v: int, k: nat)
    requires k >= 1
    ensures LE(v, k) == LE(v, k - 1) + [High(v, k - 1) % 256]
    decreases k
  {
    if k > 1 { LastByte(v / 256, k - 1); }
  }

  /** A number that fits its bytes is read back. */
  lemma UnsignedRoundTrip(v: nat, k: nat)
    requires v < Pow256(k)
    ensures FromLE(LE(v, k)) == v
  {
    HighRange(v, k, 0, 1);
    JoinSplit(v, k);
    FromLEJoin(LE(v, k));
  }

  /** The bytes `e` stand in `b` at `pos`. */
  ghost predicate At(b: seq<Byte>, pos: nat, e: seq<Byte>) {
    pos + |e| <= |b| && forall i | 0 <= i < |e| :: e[i] == b[pos + i]
  }

  lemma AtSlice(b: seq<Byte>, pos: nat, e: seq<Byte>)
    requires At(b, pos, e)
    ensures b[pos..pos + |e|] == e
  {}

  lemma AtSplit(b: seq<Byte>, pos: nat, e: seq<Byte>, e': seq<Byte>)
    requires At(b, pos, e + e')
    ensures At(b, pos, e) && At(b, pos + |e|, e')
  {
    forall i | 0 <= i < |e| ensures e[i] == b[pos + i] { assert e[i] == (e + e')[i]; }
    forall i | 0 <= i < |e'| ensures e'[i] == b[pos + |e| + i] { assert e'[i] == (e + e')[|e| + i]; }
  }

  lemma AtSplit3(b: seq<Byte>, pos: nat, e: seq<Byte>, e': seq<Byte>, e'': seq<Byte>)
    requires At(b, pos, e + e' + e'')
    ensures At(b, pos, e) && At(b, pos + |e|, e') && At(b, pos + |e| + |e'|, e'')
  {
    AtSplit(b, pos, e + e', e'');
    AtSplit(b, pos, e, e');
  }
}
