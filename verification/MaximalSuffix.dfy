/** The two maximal-suffix loops of the Two-Way search (3rdparty/freebsd/memmem.c). */
module MaximalSuffixes {
  import opened Bytes
  import opened Words

  /** Two positions of a periodic factor at the same offset in their blocks carry on alike. */
  lemma SameBlockOffset(n: seq<Byte>, i: nat, e: nat, p: nat, o: nat, m: nat)
    requires p >= 1 && i <= o && o + m <= e && HasPeriod(n, i, e, p)
    requires Rem(o - i, p) + m <= p
    ensures Same(n, i + Rem(o - i, p), o, m)
  {
    var b := i + Rem(o - i, p);
    forall x | 0 <= x < m ensures EqAt(n, b, o, x) {
      AtRem(n, i, e, p, o + x);
      RemPlus(o - i, x, p);
    }
  }

  /** A block start carries on like the first block. */
  lemma SameBlockStart(n: seq<Byte>, i: nat, e: nat, p: nat, o: nat, m: nat)
    requires p >= 1 && i <= o && o + m <= e && HasPeriod(n, i, e, p)
    requires Rem(o - i, p) == 0
    ensures Same(n, i, o, m)
  {
    forall x | 0 <= x < m ensures EqAt(n, i, o, x) {
      AtRem(n, i, e, p, o + x);
      AtRem(n, i, e, p, i + x);
      RemAdd(o - i, x, p);
    }
  }

  /** A position inside a block loses to the block's start, unless the factor ends first. */
  lemma InsideBlock(n: seq<Byte>, i: nat, e: nat, p: nat, o: nat, up: bool) returns (t: nat)
    requires p >= 1 && i + p <= e && i < o <= e && HasPeriod(n, i, e, p) && Dominates(n, i, i + p, up)
    requires Rem(o - i, p) != 0
    ensures Rem(o - i, p) + t < p && Beats(n, i, i + Rem(o - i, p), t, up)
    ensures forall m: nat :: m <= t && o + m <= e ==> Same(n, i, o, m)
    ensures o + t < e ==> Beats(n, i, o, t, up)
  {
    var b := i + Rem(o - i, p);
    assert BeatsWithin(n, i, b, i + p, up);
    t :| Beats(n, i, b, t, up) && b + t < i + p;
    forall m: nat | m <= t && o + m <= e ensures Same(n, i, o, m) {
      SameBlockOffset(n, i, e, p, o, m);
      forall x | 0 <= x < m ensures EqAt(n, i, o, x) {
        SameAt(n, b, o, m, x);
        SameAt(n, i, b, t, x);
      }
    }
    if o + t < e {
      SameBlockOffset(n, i, e, p, o, t + 1);
      SameAt(n, b, o, t + 1, t);
    }
  }

  /** The letter after a periodic factor falls below the letter the period calls for:
      the whole factor, that letter included, dominates its own proper suffixes. */
  lemma WinStep(n: seq<Byte>, i: nat, e: nat, p: nat, o: nat, up: bool) returns (m: nat)
    requires p >= 1 && i + p <= e < |n| && i < o <= e
    requires HasPeriod(n, i, e, p) && Dominates(n, i, i + p, up)
    requires Above(n[i + Rem(e - i, p)], n[e], up)
    ensures o + m <= e && Beats(n, i, o, m, up)
  {
    var d := e - o;
    if Rem(o - i, p) == 0 {
      SameBlockStart(n, i, e, p, o, d);
      AtRem(n, i, e, p, i + d);
      RemAdd(o - i, d, p);
      m := d;
    } else {
      var t := InsideBlock(n, i, e, p, o, up);
      m := if t < d then t else d;
      if d <= t {
        RemPlus(o - i, d, p);
        var b := i + Rem(o - i, p);
        if d < t { SameAt(n, i, b, t, d); }
      }
    }
  }

  /** The letter after a periodic factor rises above the letter the period calls for:
      every earlier suffix, back to the start of the factor, loses to the last block. */
  lemma LoseStep(n: seq<Byte>, i: nat, j: nat, k: nat, p: nat, o: nat, up: bool) returns (m: nat)
    requires 1 <= k <= p && i + p <= j && Rem(j - i, p) == 0 && j + k - 1 < |n| && i <= o < j
    requires HasPeriod(n, i, j + k - 1, p) && Dominates(n, i, i + p, up)
    requires Above(n[j + k - 1], n[i + k - 1], up)
    ensures Beats(n, j, o, m, up)
  {
    var e := j + k - 1;
    SameBlockStart(n, i, e, p, j, k - 1);
    forall x | 0 <= x < k - 1 ensures EqAt(n, j, i, x) {
      SameAt(n, i, j, k - 1, x);
    }
    assert Beats(n, j, i, k - 1, up);
    if Rem(o - i, p) == 0 {
      SameBlockStart(n, i, e, p, o, k);
      forall x | 0 <= x < k - 1 ensures EqAt(n, j, o, x) {
        SameAt(n, j, i, k - 1, x);
        SameAt(n, i, o, k, x);
      }
      SameAt(n, i, o, k, k - 1);
      m := k - 1;
    } else {
      RemBlock(o - i, j - i, p);
      var t := InsideBlock(n, i, e, p, o, up);
      BeatsTransitive(n, j, i, o, k - 1, t, up);
      m := if k - 1 < t then k - 1 else t;
    }
  }

  /** One more letter that agrees with the period extends the period. */
  lemma EqualStep(n: seq<Byte>, i: nat, j: nat, k: nat, p: nat)
    requires 1 <= k <= p && i + p <= j && Rem(j - i, p) == 0 && j + k - 1 < |n|
    requires HasPeriod(n, i, j + k - 1, p) && n[i + k - 1] == n[j + k - 1]
    ensures HasPeriod(n, i, j + k, p)
  {
    var e, f := j + k - 1, j + k;
    AtRem(n, i, e, p, e - p);
    RemAdd(j - p - i, k - 1, p);
    forall x | i <= x < f ensures Repeats(n, f, p, x) {
      if x < e { assert Repeats(n, e, p, x); }
    }
  }

  /** When the scan reaches the end, later suffixes are smaller too. */
  lemma LaterSuffixBelow(n: seq<Byte>, i: nat, p: nat, o: nat, up: bool)
    requires p >= 1 && i + p <= |n| && i < o < |n|
    requires HasPeriod(n, i, |n|, p) && Dominates(n, i, i + p, up)
    ensures SuffixBelow(n, o, i, up)
  {
    if Rem(o - i, p) == 0 {
      SameBlockStart(n, i, |n|, p, o, |n| - o);
    } else {
      var t := InsideBlock(n, i, |n|, p, o, up);
    }
  }

  // ----- the loops

  /** What holds at the head of the loop; `jp + k` is where the scan is. */
  ghost predicate Scanned(n: seq<Byte>, ip: int, jp: int, k: nat, p: nat, up: bool) {
    && -1 <= ip && ip + p <= jp && 1 <= k <= p && jp + k <= |n|
    && Rem(jp - ip, p) == 0
    && HasPeriod(n, ip + 1, jp + k, p)
    && Dominates(n, ip + 1, ip + 1 + p, up)
    && BeatsEarlier(n, ip + 1, up)
  }

  lemma ScanEqual(n: seq<Byte>, ip: int, jp: int, k: nat, p: nat, up: bool)
    requires Scanned(n, ip, jp, k, p, up) && jp + k < |n| && n[ip + k] == n[jp + k]
    ensures if k == p then Scanned(n, ip, jp + p, 1, p, up) else Scanned(n, ip, jp, k + 1, p, up)
  {
    EqualStep(n, ip + 1, jp + 1, k, p);
  }

  lemma ScanLower(n: seq<Byte>, ip: int, jp: int, k: nat, p: nat, up: bool)
    requires Scanned(n, ip, jp, k, p, up) && jp + k < |n| && Above(n[ip + k], n[jp + k], up)
    ensures Scanned(n, ip, jp + k, 1, jp + k - ip, up)
  {
    var i, e, f := ip + 1, jp + k, jp + k + 1;
    RemAdd(jp - ip, k - 1, p);
    forall o | i < o < f ensures BeatsWithin(n, i, o, f, up) {
      var m := WinStep(n, i, e, p, o, up);
    }
  }

  lemma ScanHigher(n: seq<Byte>, ip: int, jp: int, k: nat, p: nat, up: bool)
    requires Scanned(n, ip, jp, k, p, up) && jp + k < |n| && Above(n[jp + k], n[ip + k], up)
    ensures Scanned(n, jp, jp + 1, 1, 1, up)
  {
    var i, j := ip + 1, jp + 1;
    forall o | 0 <= o < j ensures BeatsWithin(n, j, o, |n|, up) {
      if o < i {
        assert BeatsWithin(n, i, o, |n|, up);
        var m: nat :| Beats(n, i, o, m, up) && o + m < |n|;
        var t := LoseStep(n, i, j, k, p, i, up);
        BeatsTransitive(n, j, i, o, t, m, up);
      } else {
        var m := LoseStep(n, i, j, k, p, o, up);
      }
    }
  }

  lemma ScannedAll(n: seq<Byte>, ip: int, jp: int, k: nat, p: nat, up: bool)
    requires Scanned(n, ip, jp, k, p, up) && jp + k == |n|
    ensures IsMaximalSuffix(n, ip + 1, up) && LeastPeriod(n, ip + 1, p)
  {
    var c := ip + 1;
    forall o | 0 <= o < |n| && o != c ensures LexBelow(n[o..], n[c..], up) {
      if o > c { LaterSuffixBelow(n, c, p, o, up); }
      SuffixOrder(n, o, c, up);
    }
    forall q | 1 <= q < p ensures !HasPeriod(n, c, |n|, q) {
      DominatesNoShorterPeriod(n, c, p, q, up);
    }
  }

  /** The loop at lines 80-96 (`up`) and the loop with the opposite comparison at
      lines 101-115 (`!up`): `ip + 1` starts the greatest suffix and `p` is its least period. */
  method MaximalSuffix(n: seq<Byte>, up: bool) returns (ip: int, p: nat)
    requires |n| >= 1
    ensures -1 <= ip && 1 <= p && ip + 1 + p <= |n|
    ensures IsMaximalSuffix(n, ip + 1, up)
    ensures LeastPeriod(n, ip + 1, p)
    ensures Dominates(n, ip + 1, ip + 1 + p, up)
  {
    var l := |n|;
    var jp, k := 0, 1;
    ip, p := -1, 1;
    while jp + k < l
      invariant Scanned(n, ip, jp, k, p, up)
      decreases 3 * l - (ip + jp + k)
    {
      if n[ip + k] == n[jp + k] {
        ScanEqual(n, ip, jp, k, p, up);
        if k == p {
          jp := jp + p;
          k := 1;
        } else {
          k := k + 1;
        }
      } else if Above(n[ip + k], n[jp + k], up) {
        ScanLower(n, ip, jp, k, p, up);
        jp := jp + k;
        k := 1;
        p := jp - ip;
      } else {
        ScanHigher(n, ip, jp, k, p, up);
        ip := jp;
        jp := jp + 1;
        k, p := 1, 1;
      }
    }
    ScannedAll(n, ip, jp, k, p, up);
  }
}
