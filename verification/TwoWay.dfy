/** The Two-Way substring search of 3rdparty/freebsd/memmem.c: for every needle and
    haystack it returns the leftmost occurrence, or nothing exactly when there is none. */
module TwoWay {
  import opened Bytes
  import opened Wrappers
  import opened Words
  import opened MaximalSuffixes

  ghost predicate Occurs(h: seq<Byte>, n: seq<Byte>, i: nat) {
    i + |n| <= |h| && h[i..i + |n|] == n
  }

  ghost predicate NoneBefore(h: seq<Byte>, n: seq<Byte>, i: nat) {
    forall j :: 0 <= j < i ==> !Occurs(h, n, j)
  }

  /** The position the needle is cut at: `c` starts the greatest suffix under one alphabet
      order, `d` (no later) under the other, and `p` is the least period of `n[c..]`. */
  ghost predicate Cut(n: seq<Byte>, c: nat, d: nat, p: nat, up: bool) {
    && d <= c && 1 <= p && c + p <= |n|
    && IsMaximalSuffix(n, c, up) && IsMaximalSuffix(n, d, !up)
    && HasPeriod(n, c, |n|, p) && Dominates(n, c, c + p, up)
  }

  /** From `c` up to `k` the needle agrees with itself shifted right by `s`. */
  ghost predicate Echoes(n: seq<Byte>, s: nat, c: nat, k: nat) {
    k <= |n| && forall x :: c <= x < k ==> EchoAt(n, s, x)
  }

  ghost predicate EchoAt(n: seq<Byte>, s: nat, x: nat)
    requires x < |n|
  {
    s <= x ==> n[x] == n[x - s]
  }

  /** What maximality says about one other suffix. */
  lemma Maximal(n: seq<Byte>, c: nat, o: nat, up: bool)
    requires IsMaximalSuffix(n, c, up) && o < |n| && o != c
    ensures SuffixBelow(n, o, c, up)
  {
    assert LexBelow(n[o..], n[c..], up);
    SuffixOrder(n, o, c, up);
  }

  /** The greatest suffix is not beaten. */
  lemma MaximalNotBeaten(n: seq<Byte>, c: nat, o: nat, m: nat, up: bool)
    requires IsMaximalSuffix(n, c, up) && o < |n|
    ensures !Beats(n, o, c, m, up)
  {
    if Beats(n, o, c, m, up) {
      if o == c {
        assert false;
      } else {
        Maximal(n, c, o, up);
        if BeatsWithin(n, c, o, |n|, up) {
          var k: nat :| Beats(n, c, o, k, up) && o + k < |n|;
          BeatsAsymmetric(n, c, o, k, m, up);
        } else {
          SameAt(n, c, o, |n| - o, m);
        }
      }
    }
  }

  /** An echo that covers `s` letters from the cut on goes on: this is why a mismatch in
      the right half allows a shift past everything already compared. */
  lemma EchoGoesOn(n: seq<Byte>, c: nat, d: nat, up: bool, s: nat, k: nat)
    requires d <= c && IsMaximalSuffix(n, c, up) && IsMaximalSuffix(n, d, !up)
    requires 1 <= s && c + s <= k < |n| && Echoes(n, s, c, k)
    ensures n[k] == n[k - s]
  {
    if n[k] != n[k - s] {
      if Above(n[k], n[k - s], up) {
        var o, m := c + s, k - s - c;
        forall x | 0 <= x < m ensures EqAt(n, o, c, x) {
          assert EchoAt(n, s, o + x);
        }
        MaximalNotBeaten(n, c, o, m, up);
      } else if s <= c {
        var o, m := c - s, k - c;
        forall x | 0 <= x < m ensures EqAt(n, o, c, x) {
          assert EchoAt(n, s, c + x);
        }
        MaximalNotBeaten(n, c, o, m, up);
      } else {
        var o, m := d + s, k - s - d;
        forall x | 0 <= x < m ensures EqAt(n, o, d, x) {
          assert EchoAt(n, s, o + x);
        }
        MaximalNotBeaten(n, d, o, m, !up);
      }
    }
  }

  /** A full echo of the right half by a shift that stays in the needle is no gain. */
  lemma EchoNotBeaten(n: seq<Byte>, c: nat, s: nat, m: nat, up: bool)
    requires s <= c && Echoes(n, s, c, |n|)
    ensures !Beats(n, c, c - s, m, up)
  {
    if c + m < |n| { assert EchoAt(n, s, c + m); }
  }

  /** An echo over the whole right half is longer than the left half, and is a period. */
  lemma FullEcho(n: seq<Byte>, c: nat, up: bool, s: nat)
    requires IsMaximalSuffix(n, c, up) && 1 <= s && Echoes(n, s, c, |n|)
    ensures c < s && HasPeriod(n, 0, |n|, s)
  {
    if s <= c {
      Maximal(n, c, c - s, up);
      var m: nat :| Beats(n, c, c - s, m, up) && c - s + m < |n|;
      EchoNotBeaten(n, c, s, m, up);
    } else {
      forall x | 0 <= x < |n| ensures Repeats(n, |n|, s, x) {
        if x + s < |n| { assert EchoAt(n, s, x + s); }
      }
    }
  }

  /** A period of the needle read at a position of the left half, in terms of the first
      block of the right half. */
  lemma LeftByPeriod(n: seq<Byte>, c: nat, p: nat, q: nat, x: nat, a: nat, y: nat)
    requires p >= 1 && HasPeriod(n, 0, |n|, q) && HasPeriod(n, c, |n|, p) && c + p <= |n|
    requires x < c < q && c + q <= |n|
    requires Rem(a, p) == 0 && y < p && x + q == c + a + y
    ensures n[x] == n[c + y]
  {
    assert Repeats(n, |n|, q, x);
    AtRem(n, c, |n|, p, x + q);
    RemAdd(a, y, p);
  }

  /** The heart of the critical factorization: a period of the needle that is longer than
      the left half and fits in the right half is a multiple of the right half's period. */
  lemma PeriodIsMultiple(n: seq<Byte>, c: nat, d: nat, p: nat, up: bool, q: nat)
    requires Cut(n, c, d, p, up) && HasPeriod(n, 0, |n|, q) && c < q && c + q <= |n|
    ensures p <= q && Rem(q, p) == 0
  {
    if q < p {
      assert HasPeriod(n, c, |n|, q);
      DominatesNoShorterPeriod(n, c, p, q, up);
    }
    var r := Rem(q, p);
    if r != 0 {
      RemMinus(q, p);
      var b := c + r;
      assert BeatsWithin(n, c, b, c + p, up);
      var t: nat :| Beats(n, c, b, t, up) && b + t < c + p;
      if r <= c {
        var o, m := c - r, r + t;
        forall x | 0 <= x < m ensures EqAt(n, o, c, x) {
          if x < r {
            LeftByPeriod(n, c, p, q, o + x, q - r, x);
          } else {
            SameAt(n, c, b, t, x - r);
          }
        }
        MaximalNotBeaten(n, c, o, m, up);
      } else {
        var o, m := r + d, c - d + t;
        forall x | 0 <= x < m ensures EqAt(n, o, d, x) {
          if x < c - d {
            LeftByPeriod(n, c, p, q, d + x, q - r, r - c + d + x);
          } else {
            SameAt(n, c, b, t, x - (c - d));
          }
        }
        MaximalNotBeaten(n, d, o, m, !up);
      }
    }
  }

  /** So the right half's own period is then a period of the whole needle. */
  lemma PeriodicByPeriod(n: seq<Byte>, c: nat, d: nat, p: nat, up: bool, q: nat)
    requires Cut(n, c, d, p, up) && HasPeriod(n, 0, |n|, q) && c < q && c + q <= |n|
    ensures HasPeriod(n, 0, |n|, p)
  {
    PeriodIsMultiple(n, c, d, p, up, q);
    forall x | c <= x < |n| ensures EchoAt(n, p, x) {
      if p <= x {
        if x < c + p {
          LeftByPeriod(n, c, p, q, x - p, q - p, x - c);
        } else {
          assert Repeats(n, |n|, p, x - p);
        }
      }
    }
    FullEcho(n, c, up, p);
  }

  /** The needle repeats its left half `p` places on: `memcmp(n, n + p, ms + 1) == 0`. */
  predicate Periodic(n: seq<Byte>, c: nat, p: nat)
    requires c + p <= |n|
  {
    n[..c] == n[p..p + c]
  }

  lemma PeriodicIsPeriod(n: seq<Byte>, c: nat, d: nat, p: nat, up: bool)
    requires Cut(n, c, d, p, up)
    ensures Periodic(n, c, p) <==> HasPeriod(n, 0, |n|, p)
    ensures Periodic(n, c, p) ==> c < p
  {
    if Periodic(n, c, p) {
      forall x | 0 <= x < |n| ensures Repeats(n, |n|, p, x) {
        if x < c {
          assert n[..c][x] == n[p..p + c][x];
        } else {
          assert Repeats(n, |n|, p, x);
        }
      }
      forall x | c <= x < |n| ensures EchoAt(n, p, x) {
        if p <= x { assert Repeats(n, |n|, p, x - p); }
      }
      FullEcho(n, c, up, p);
    }
    if HasPeriod(n, 0, |n|, p) {
      forall x | 0 <= x < c ensures n[..c][x] == n[p..p + c][x] {
        assert Repeats(n, |n|, p, x);
      }
    }
  }

  /** The shift taken after a mismatch in the left half. */
  function LeftShift(n: seq<Byte>, c: nat, p: nat): nat
    requires c + p <= |n|
  {
    if Periodic(n, c, p) then p else (if c > |n| - c + 1 then c else |n| - c + 1)
  }

  /** After a full match of the right half no shorter shift can succeed. */
  lemma LeftShiftIsSafe(n: seq<Byte>, c: nat, d: nat, p: nat, up: bool, s: nat)
    requires Cut(n, c, d, p, up) && 1 <= s && Echoes(n, s, c, |n|)
    ensures LeftShift(n, c, p) <= s
  {
    FullEcho(n, c, up, s);
    PeriodicIsPeriod(n, c, d, p, up);
    if Periodic(n, c, p) {
      if s < p {
        assert HasPeriod(n, c, |n|, s);
        DominatesNoShorterPeriod(n, c, p, s, up);
      }
    } else if c + s <= |n| {
      PeriodicByPeriod(n, c, d, p, up, s);
    }
  }

  /** An occurrence `s` places on turns matched haystack bytes into an echo of the needle. */
  lemma OccurrenceEchoes(h: seq<Byte>, n: seq<Byte>, i: nat, s: nat, c: nat, k: nat)
    requires i + |n| <= |h| && Occurs(h, n, i + s) && k <= |n|
    requires forall x :: c <= x < k ==> n[x] == h[i + x]
    ensures Echoes(n, s, c, k)
    ensures k < |n| && s <= k ==> n[k - s] == h[i + k]
  {
    forall x | c <= x < k ensures EchoAt(n, s, x) {
      if s <= x { assert h[i + s..i + s + |n|][x - s] == n[x - s]; }
    }
    if s <= k < |n| { assert h[i + s..i + s + |n|][k - s] == n[k - s]; }
  }

  lemma NotOccurs(h: seq<Byte>, n: seq<Byte>, i: nat, x: nat)
    requires x < |n| && i + x < |h| && h[i + x] != n[x]
    ensures !Occurs(h, n, i)
  {
    if i + |n| <= |h| { assert h[i..i + |n|][x] == h[i + x]; }
  }

  /** The mismatch in the right half at `k` rules out every shift up to `k - ms - 1`. */
  lemma RightMismatch(h: seq<Byte>, n: seq<Byte>, i: nat, c: nat, d: nat, p: nat, up: bool, k: nat)
    requires Cut(n, c, d, p, up) && i + |n| <= |h| && c <= k < |n|
    requires NoneBefore(h, n, i)
    requires forall x :: c <= x < k ==> n[x] == h[i + x]
    requires n[k] != h[i + k]
    ensures NoneBefore(h, n, i + (k - c + 1))
  {
    forall j | 0 <= j < i + (k - c + 1) ensures !Occurs(h, n, j) {
      if i <= j && Occurs(h, n, j) {
        OccurrenceEchoes(h, n, i, j - i, c, k);
        if i < j { EchoGoesOn(n, c, d, up, j - i, k); }
      }
    }
  }

  /** A mismatch in the left half after a matching right half. */
  lemma LeftMismatch(h: seq<Byte>, n: seq<Byte>, i: nat, c: nat, d: nat, p: nat, up: bool, k: nat)
    requires Cut(n, c, d, p, up) && i + |n| <= |h| && k < c
    requires NoneBefore(h, n, i)
    requires forall x :: c <= x < |n| ==> n[x] == h[i + x]
    requires n[k] != h[i + k]
    ensures NoneBefore(h, n, i + LeftShift(n, c, p))
  {
    forall j | 0 <= j < i + LeftShift(n, c, p) ensures !Occurs(h, n, j) {
      if i == j {
        NotOccurs(h, n, i, k);
      } else if i < j && Occurs(h, n, j) {
        OccurrenceEchoes(h, n, i, j - i, c, |n|);
        LeftShiftIsSafe(n, c, d, p, up, j - i);
      }
    }
  }

  /** What the shift table says about a byte: where it was last seen in the needle. */
  ghost predicate LastSeen(n: seq<Byte>, k: nat, b: Byte, seen: bool, shift: nat)
    requires k <= |n|
  {
    && (!seen ==> b !in n[..k])
    && (seen ==> 1 <= shift <= k && n[shift - 1] == b && b !in n[shift..k])
  }

  /** The bad-byte shift: the last byte of the window decides. */
  lemma BadByteShift(h: seq<Byte>, n: seq<Byte>, i: nat, seen: bool, shift: nat)
    requires |n| >= 1 && i + |n| <= |h| && NoneBefore(h, n, i)
    requires LastSeen(n, |n|, h[i + |n| - 1], seen, shift)
    ensures NoneBefore(h, n, i + if seen then |n| - shift else |n|)
  {
    var l := |n|;
    var k := if seen then l - shift else l;
    forall j | 0 <= j < i + k ensures !Occurs(h, n, j) {
      if i <= j {
        var x := l - 1 - (j - i);
        assert n[x] in if seen then n[shift..l] else n[..l];
        NotOccurs(h, n, j, x);
      }
    }
  }

  /** With `l - p` bytes remembered, an occurrence that starts inside them fixes the last
      byte of the window. */
  lemma RememberedLastByte(h: seq<Byte>, n: seq<Byte>, i: nat, p: nat, s: nat)
    requires 1 <= p < |n| && i + |n| <= |h| && HasPeriod(n, 0, |n|, p)
    requires forall x :: 0 <= x < |n| - p ==> n[x] == h[i + x]
    requires s < |n| - p && Occurs(h, n, i + s)
    ensures h[i + |n| - 1] == n[|n| - 1]
  {
    var l := |n|;
    OccurrenceEchoes(h, n, i, s, 0, l - p);
    assert EchoAt(n, s, l - p - 1);
    assert Repeats(n, l, p, l - 1 - s - p) && Repeats(n, l, p, l - 1 - p);
    assert h[i + s..i + s + l][l - 1 - s] == n[l - 1 - s];
  }

  /** So if the last byte does not fit, the whole remembered part can be skipped. */
  lemma RememberedShift(h: seq<Byte>, n: seq<Byte>, i: nat, p: nat)
    requires 1 <= p < |n| && i + |n| <= |h| && HasPeriod(n, 0, |n|, p) && NoneBefore(h, n, i)
    requires forall x :: 0 <= x < |n| - p ==> n[x] == h[i + x]
    requires h[i + |n| - 1] != n[|n| - 1]
    ensures NoneBefore(h, n, i + (|n| - p))
  {
    forall j | 0 <= j < i + (|n| - p) ensures !Occurs(h, n, j) {
      if i <= j && Occurs(h, n, j) {
        RememberedLastByte(h, n, i, p, j - i);
      }
    }
  }

  /** The bad-byte table: a bit per byte value, and one past the last place it is seen. */
  method FillShiftTable(n: seq<Byte>) returns (byteset: array<bool>, shift: array<nat>)
    ensures byteset.Length == 256 && shift.Length == 256
    ensures forall b: Byte :: LastSeen(n, |n|, b, byteset[b], shift[b])
  {
    byteset := new bool[256](_ => false);
    shift := new nat[256](_ => 0);
    for i := 0 to |n|
      invariant forall b: Byte :: LastSeen(n, i, b, byteset[b], shift[b])
    {
      byteset[n[i]] := true;
      shift[n[i]] := i + 1;
      forall b: Byte ensures LastSeen(n, i + 1, b, byteset[b], shift[b]) {
        assert n[..i + 1] == n[..i] + [n[i]];
        if byteset[b] && shift[b] <= i {
          assert n[shift[b]..i + 1] == n[shift[b]..i] + [n[i]];
        }
      }
    }
  }

  /** Lines 80-118: cut the needle; `d` and `up` only serve the proof. */
  method CutNeedle(n: seq<Byte>) returns (ms: int, p: nat, ghost d: nat, ghost up: bool)
    requires |n| >= 1
    ensures -1 <= ms && Cut(n, ms + 1, d, p, up)
    ensures LeastPeriod(n, ms + 1, p)
  {
    var p0: nat;
    ms, p0 := MaximalSuffix(n, true);
    var ip;
    ip, p := MaximalSuffix(n, false);
    if ip + 1 > ms + 1 {
      up, d := false, ms + 1;
      ms := ip;
    } else {
      up, d := true, ip + 1;
      p := p0;
    }
  }

  /** The right half from `k` on, against the window at `pos`. */
  method MatchRight(h: seq<Byte>, n: seq<Byte>, pos: nat, k0: nat) returns (k: nat)
    requires k0 <= |n| && pos + |n| <= |h|
    ensures k0 <= k <= |n| && (k < |n| ==> n[k] != h[pos + k])
    ensures forall x :: k0 <= x < k ==> n[x] == h[pos + x]
  {
    k := k0;
    while k < |n| && n[k] == h[pos + k]
      invariant k0 <= k <= |n|
      invariant forall x :: k0 <= x < k ==> n[x] == h[pos + x]
    {
      k := k + 1;
    }
  }

  /** The left half from `k0` down to `mem`. */
  method MatchLeft(h: seq<Byte>, n: seq<Byte>, pos: nat, k0: nat, mem: nat) returns (k: nat)
    requires k0 <= |n| && pos + |n| <= |h|
    ensures k <= k0 && (k > mem ==> n[k - 1] != h[pos + k - 1])
    ensures forall x :: k <= x < k0 ==> n[x] == h[pos + x]
  {
    k := k0;
    while k > mem && n[k - 1] == h[pos + k - 1]
      invariant k <= k0
      invariant forall x :: k <= x < k0 ==> n[x] == h[pos + x]
    {
      k := k - 1;
    }
  }

  /** The bytes kept in mind after a period shift match at the new window. */
  lemma Remembers(h: seq<Byte>, n: seq<Byte>, pos: nat, c: nat, p: nat)
    requires HasPeriod(n, 0, |n|, p) && c < p <= |n| && pos + |n| <= |h|
    requires forall x :: c <= x < |n| ==> n[x] == h[pos + x]
    ensures forall x :: 0 <= x < |n| - p ==> n[x] == h[pos + p + x]
  {
    forall x | 0 <= x < |n| - p ensures n[x] == h[pos + p + x] {
      assert Repeats(n, |n|, p, x);
      assert n[x + p] == h[pos + (x + p)];
    }
  }

  /** `twoway_memmem`. */
  method Search(h: seq<Byte>, n: seq<Byte>) returns (r: Option<nat>)
    requires |n| >= 1
    ensures r.None? <==> forall i: nat :: !Occurs(h, n, i)
    ensures r.Some? ==> Occurs(h, n, r.value) && NoneBefore(h, n, r.value)
  {
    var l := |n|;
    var byteset, shift := FillShiftTable(n);
    var ms, p, d, up := CutNeedle(n);
    ghost var c, q := ms + 1, p;
    PeriodicIsPeriod(n, c, d, q, up);

    var mem0 := 0;
    if n[..ms + 1] != n[p..p + ms + 1] {
      p := (if ms > l - ms - 1 then ms else l - ms - 1) + 1;
    } else {
      mem0 := l - p;
    }
    assert p == LeftShift(n, c, q) && 1 <= p <= l;

    var pos, mem := 0, 0;
    while true
      invariant forall b: Byte :: LastSeen(n, l, b, byteset[b], shift[b])
      invariant 0 <= pos <= |h|
      invariant NoneBefore(h, n, pos)
      invariant mem == 0 || (mem == mem0 == l - q && Periodic(n, c, q))
      invariant 0 <= mem < l && pos + mem <= |h|
      invariant forall x :: 0 <= x < mem ==> n[x] == h[pos + x]
      decreases |h| - pos
    {
      if |h| - pos < l {
        return None;
      }
      var last := h[pos + l - 1];
      BadByteShift(h, n, pos, byteset[last], shift[last]);
      if byteset[last] {
        var k := l - shift[last];
        if k != 0 {
          if mem0 != 0 && mem != 0 && k < p {
            assert n[l - 1] in n[shift[last]..l];
            RememberedShift(h, n, pos, q);
            k := l - p;
          }
          pos := pos + k;
          mem := 0;
          continue;
        }
      } else {
        pos := pos + l;
        mem := 0;
        continue;
      }

      var k := MatchRight(h, n, pos, if ms + 1 > mem then ms + 1 else mem);
      if k < l {
        RightMismatch(h, n, pos, c, d, q, up, k);
        pos := pos + (k - ms);
        mem := 0;
        continue;
      }
      k := MatchLeft(h, n, pos, ms + 1, mem);
      if k <= mem {
        assert Occurs(h, n, pos);
        return Some(pos);
      }
      LeftMismatch(h, n, pos, c, d, q, up, k - 1);
      if Periodic(n, c, q) {
        Remembers(h, n, pos, c, q);
      }
      pos := pos + p;
      mem := mem0;
    }
  }
}
