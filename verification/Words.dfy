/** Words over bytes: agreement of factors, periods, and the order on suffixes that
    the Two-Way search is built on.  Positions are kept as indices into one word, so
    that two suffixes of the same word are compared without copying them. */
module Words {
  import opened Bytes

  /** `a` ranks above `b` in the alphabet order chosen by `up`. */
  predicate Above(a: Byte, b: Byte, up: bool) {
    if up then a > b else a < b
  }

  /** The letters `x` places after `a` and `b` are equal. */
  ghost predicate EqAt(n: seq<Byte>, a: nat, b: nat, x: nat) {
    a + x < |n| && b + x < |n| && n[a + x] == n[b + x]
  }

  /** The `m` letters from `a` on are the `m` letters from `b` on. */
  ghost predicate Same(n: seq<Byte>, a: nat, b: nat, m: nat) {
    a + m <= |n| && b + m <= |n| && forall x :: 0 <= x < m ==> EqAt(n, a, b, x)
  }

  /** The suffix at `a` is greater than the suffix at `b`; they first differ `m` letters in. */
  ghost predicate Beats(n: seq<Byte>, a: nat, b: nat, m: nat, up: bool) {
    a + m < |n| && b + m < |n| && Same(n, a, b, m) && Above(n[a + m], n[b + m], up)
  }

  /** The suffix at `a` beats the one at `b` before position `hi` is reached. */
  ghost predicate BeatsWithin(n: seq<Byte>, a: nat, b: nat, hi: nat, up: bool) {
    exists m: nat :: Beats(n, a, b, m, up) && b + m < hi
  }

  /** `p` is a period of the factor `n[lo..hi]`. */
  ghost predicate HasPeriod(n: seq<Byte>, lo: nat, hi: nat, p: nat) {
    hi <= |n| && forall x :: lo <= x < hi ==> Repeats(n, hi, p, x)
  }

  /** The letter at `x` comes again `p` places later, if that is still before `hi`. */
  ghost predicate Repeats(n: seq<Byte>, hi: nat, p: nat, x: nat)
    requires hi <= |n|
  {
    x + p < hi ==> n[x] == n[x + p]
  }

  /** `p` is the least period of the suffix `n[c..]`. */
  ghost predicate LeastPeriod(n: seq<Byte>, c: nat, p: nat) {
    && 1 <= p && c + p <= |n|
    && HasPeriod(n, c, |n|, p)
    && forall q :: 1 <= q < p ==> !HasPeriod(n, c, |n|, q)
  }

  /** The factor `n[c..hi]` is greater than each of its own proper suffixes, none of
      which is a prefix of it. */
  ghost predicate Dominates(n: seq<Byte>, c: nat, hi: nat, up: bool) {
    forall o :: c < o < hi ==> BeatsWithin(n, c, o, hi, up)
  }

  /** The suffix at `c` beats every suffix that starts earlier. */
  ghost predicate BeatsEarlier(n: seq<Byte>, c: nat, up: bool) {
    forall o :: 0 <= o < c ==> BeatsWithin(n, c, o, |n|, up)
  }

  /** Lexicographic order of words; a proper prefix is smaller. */
  ghost predicate DiffersAt(a: seq<Byte>, b: seq<Byte>, m: nat, up: bool) {
    m <= |a| && m < |b| && a[..m] == b[..m] && (m == |a| || Above(b[m], a[m], up))
  }

  ghost predicate LexBelow(a: seq<Byte>, b: seq<Byte>, up: bool) {
    exists m: nat :: DiffersAt(a, b, m, up)
  }

  /** `n[c..]` is the lexicographically greatest suffix of `n`. */
  ghost predicate IsMaximalSuffix(n: seq<Byte>, c: nat, up: bool) {
    c < |n| && forall o :: 0 <= o < |n| && o != c ==> LexBelow(n[o..], n[c..], up)
  }

  /** What `LexBelow` of two suffixes says about positions. */
  ghost predicate SuffixBelow(n: seq<Byte>, o: nat, c: nat, up: bool) {
    || BeatsWithin(n, c, o, |n|, up)
    || (c < o < |n| && Same(n, c, o, |n| - o))
  }

  lemma SameAt(n: seq<Byte>, a: nat, b: nat, m: nat, x: nat)
    requires Same(n, a, b, m) && x < m
    ensures n[a + x] == n[b + x]
  {
    assert EqAt(n, a, b, x);
  }

  lemma SuffixOrder(n: seq<Byte>, o: nat, c: nat, up: bool)
    requires o < |n| && c < |n| && o != c
    ensures LexBelow(n[o..], n[c..], up) <==> SuffixBelow(n, o, c, up)
  {
    var a, b := n[o..], n[c..];
    if LexBelow(a, b, up) {
      var m: nat :| DiffersAt(a, b, m, up);
      forall x | 0 <= x < m ensures EqAt(n, c, o, x) {
        assert a[..m][x] == b[..m][x];
      }
      if m < |a| {
        assert Beats(n, c, o, m, up);
      }
    }
    if SuffixBelow(n, o, c, up) {
      if BeatsWithin(n, c, o, |n|, up) {
        var m: nat :| Beats(n, c, o, m, up) && o + m < |n|;
        forall x | 0 <= x < m ensures a[..m][x] == b[..m][x] {
          SameAt(n, c, o, m, x);
        }
        assert DiffersAt(a, b, m, up);
      } else {
        forall x | 0 <= x < |a| ensures a[..|a|][x] == b[..|a|][x] {
          SameAt(n, c, o, |n| - o, x);
        }
        assert DiffersAt(a, b, |a|, up);
      }
    }
  }

  lemma BeatsTransitive(n: seq<Byte>, a: nat, b: nat, c: nat, m: nat, k: nat, up: bool)
    requires Beats(n, a, b, m, up) && Beats(n, b, c, k, up)
    ensures Beats(n, a, c, if m < k then m else k, up)
  {
    var t := if m < k then m else k;
    forall x | 0 <= x < t ensures EqAt(n, a, c, x) {
      SameAt(n, a, b, m, x);
      SameAt(n, b, c, k, x);
    }
    if t < m { SameAt(n, a, b, m, t); }
    if t < k { SameAt(n, b, c, k, t); }
  }

  lemma BeatsAsymmetric(n: seq<Byte>, a: nat, b: nat, m: nat, k: nat, up: bool)
    requires Beats(n, a, b, m, up)
    ensures !Beats(n, b, a, k, up)
  {
    if Beats(n, b, a, k, up) {
      if m < k { SameAt(n, b, a, k, m); }
      if k < m { SameAt(n, a, b, m, k); }
    }
  }

  /** The offset of `a` in a row of blocks of length `p`. */
  ghost function Rem(a: nat, p: nat): (r: nat)
    requires p >= 1
    ensures r < p && r <= a
  {
    if a < p then a else Rem(a - p, p)
  }

  lemma {:induction false} RemAdd(a: nat, b: nat, p: nat)
    requires p >= 1 && Rem(a, p) == 0
    ensures Rem(a + b, p) == Rem(b, p)
  {
    if a >= p { RemAdd(a - p, b, p); }
  }

  lemma {:induction false} RemPlus(a: nat, x: nat, p: nat)
    requires p >= 1 && Rem(a, p) + x < p
    ensures Rem(a + x, p) == Rem(a, p) + x
  {
    if a >= p { RemPlus(a - p, x, p); }
  }

  lemma {:induction false} RemMinus(a: nat, p: nat)
    requires p >= 1
    ensures Rem(a - Rem(a, p), p) == 0
  {
    if a >= p { RemMinus(a - p, p); }
  }

  /** A position before a block boundary has its whole block before that boundary. */
  lemma {:induction false} RemBlock(a: nat, b: nat, p: nat)
    requires p >= 1 && a < b && Rem(b, p) == 0
    ensures a - Rem(a, p) + p <= b
  {
    if a >= p { RemBlock(a - p, b - p, p); }
  }

  /** In a periodic factor every letter is that of the first block. */
  lemma {:induction false} AtRem(n: seq<Byte>, lo: nat, hi: nat, p: nat, x: nat)
    requires p >= 1 && HasPeriod(n, lo, hi, p) && lo <= x < hi
    ensures n[x] == n[lo + Rem(x - lo, p)]
    decreases x
  {
    if x - lo >= p {
      AtRem(n, lo, hi, p, x - p);
      assert Repeats(n, hi, p, x - p);
    }
  }

  /** A dominating block has no period shorter than itself. */
  lemma DominatesNoShorterPeriod(n: seq<Byte>, c: nat, p: nat, q: nat, up: bool)
    requires Dominates(n, c, c + p, up) && c + p <= |n| && 1 <= q < p
    ensures !HasPeriod(n, c, |n|, q)
  {
    assert BeatsWithin(n, c, c + q, c + p, up);
    var m: nat :| Beats(n, c, c + q, m, up) && c + q + m < c + p;
    assert !Repeats(n, |n|, q, c + m);
  }
}
