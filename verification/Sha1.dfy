/** SHA-1 as FIPS 180-4 defines it, and the forms in which 3rdparty/sha1/sha1.c computes it. */
module Sha1 {
  type Word = bv32
  type Octet = bv8

  datatype State = State(a: Word, b: Word, c: Word, d: Word, e: Word)

  // ----- sections 4.1.1, 4.2.1 and 6.1.2 of FIPS 180-4

  function Rotl1(x: Word): Word { (x << 1) | (x >> 31) }
  function Rotl5(x: Word): Word { (x << 5) | (x >> 27) }
  function Rotl30(x: Word): Word { (x << 30) | (x >> 2) }

  function Ch(x: Word, y: Word, z: Word): Word { (x & y) ^ (!x & z) }
  function Parity(x: Word, y: Word, z: Word): Word { x ^ y ^ z }
  function Maj(x: Word, y: Word, z: Word): Word { (x & y) ^ (x & z) ^ (y & z) }

  function F(t: nat, x: Word, y: Word, z: Word): Word {
    if t < 20 then Ch(x, y, z) else if t < 40 then Parity(x, y, z) else if t < 60 then Maj(x, y, z) else Parity(x, y, z)
  }

  function K(t: nat): Word {
    if t < 20 then 0x5A827999 else if t < 40 then 0x6ED9EBA1 else if t < 60 then 0x8F1BBCDC else 0xCA62C1D6
  }

  /** The word that follows from those three, eight, fourteen and sixteen places before. */
  function Next(w3: Word, w8: Word, w14: Word, w16: Word): Word {
    Rotl1(w3 ^ w8 ^ w14 ^ w16)
  }

  /** The message schedule, its first `n` words. */
  function Schedule(m: seq<Word>, n: nat): (ws: seq<Word>)
    requires |m| == 16 && n >= 16
    ensures |ws| == n
  {
    if n == 16 then m
    else
      var ws := Schedule(m, n - 1);
      ws + [Next(ws[n - 4], ws[n - 9], ws[n - 15], ws[n - 17])]
  }

  function Temporary(a5: Word, f: Word, e: Word, k: Word, w: Word): Word {
    a5 + f + e + k + w
  }

  function Round(t: nat, s: State, w: Word): State {
    State(Temporary(Rotl5(s.a), F(t, s.b, s.c, s.d), s.e, K(t), w), s.a, Rotl30(s.b), s.c, s.d)
  }

  function Rounds(ws: seq<Word>, s: State, t: nat): State
    requires t <= |ws|
  {
    if t == 0 then s else Round(t - 1, Rounds(ws, s, t - 1), ws[t - 1])
  }

  function Sum(s: State, r: State): State {
    State(s.a + r.a, s.b + r.b, s.c + r.c, s.d + r.d, s.e + r.e)
  }

  function Compress(s: State, m: seq<Word>): State
    requires |m| == 16
  {
    var n := 5 * |m|;   // eighty
    Sum(s, Rounds(Schedule(m, n), s, n))
  }

  // ----- messages

  function BigEndian(b0: Octet, b1: Octet, b2: Octet, b3: Octet): Word {
    ((b0 as Word) << 24) | ((b1 as Word) << 16) | ((b2 as Word) << 8) | (b3 as Word)
  }

  function Words(b: seq<Octet>): (m: seq<Word>)
    requires |b| == 64
    ensures |m| == 16
  {
    seq(16, i requires 0 <= i < 16 => BigEndian(b[4 * i], b[4 * i + 1], b[4 * i + 2], b[4 * i + 3]))
  }

  const INITIAL: State := State(0x67452301, 0xEFCDAB89, 0x98BADCFE, 0x10325476, 0xC3D2E1F0)

  /** The whole blocks of a message, one after the other. */
  function Absorb(s: State, msg: seq<Octet>): State
    decreases |msg|
  {
    if |msg| < 64 then s else Absorb(Compress(s, Words(msg[..64])), msg[64..])
  }

  /** Section 5.1.1: how many zero bytes come after the first byte of the padding. */
  function ZeroCount(n: nat): (z: nat)
    ensures z < 64 && (n + 1 + z) % 64 == 56
  {
    (119 - n % 64) % 64
  }

  function OctetOf(v: nat): Octet { (v % 256) as Octet }

  /** The length in bits as eight bytes, the highest first. */
  function LengthBytes(v: nat): (b: seq<Octet>)
    ensures |b| == 8
  {
    [OctetOf(v / 0x100_0000_0000_0000), OctetOf(v / 0x1_0000_0000_0000), OctetOf(v / 0x100_0000_0000),
     OctetOf(v / 0x1_0000_0000), OctetOf(v / 0x100_0000), OctetOf(v / 0x1_0000), OctetOf(v / 0x100), OctetOf(v)]
  }

  function ZeroBytes(n: nat): seq<Octet> { seq(n, _ => 0) }

  function Padded(msg: seq<Octet>): seq<Octet> {
    msg + [0x80] + ZeroBytes(ZeroCount(|msg|)) + LengthBytes(8 * |msg|)
  }

  function WordBytes(w: Word): (b: seq<Octet>)
    ensures |b| == 4
  {
    [((w >> 24) & 0xFF) as Octet, ((w >> 16) & 0xFF) as Octet, ((w >> 8) & 0xFF) as Octet, (w & 0xFF) as Octet]
  }

  function StateBytes(s: State): (b: seq<Octet>)
    ensures |b| == 20
  {
    WordBytes(s.a) + WordBytes(s.b) + WordBytes(s.c) + WordBytes(s.d) + WordBytes(s.e)
  }

  /** The message digest. */
  function Digest(msg: seq<Octet>): seq<Octet> {
    StateBytes(Absorb(INITIAL, Padded(msg)))
  }

  /** `state[k]`, and the byte of a word that is `k` bytes above its lowest. */
  function WordOf(s: State, k: nat): Word
    requires k < 5
  {
    match k case 0 => s.a case 1 => s.b case 2 => s.c case 3 => s.d case 4 => s.e
  }

  function ByteAt(w: Word, k: nat): Octet
    requires k < 4
  {
    match k
    case 0 => (w & 0xFF) as Octet
    case 1 => ((w >> 8) & 0xFF) as Octet
    case 2 => ((w >> 16) & 0xFF) as Octet
    case 3 => ((w >> 24) & 0xFF) as Octet
  }

  lemma BytesOfWord(w: Word)
    ensures WordBytes(w) == [ByteAt(w, 3), ByteAt(w, 2), ByteAt(w, 1), ByteAt(w, 0)]
  {}

  /** Byte i comes from the word with number i / 4, the highest byte of each word first. */
  lemma ByteOfState(s: State, i: nat)
    requires i < 20
    ensures StateBytes(s)[i] == ByteAt(WordOf(s, i / 4), 3 - i % 4)
  {
    BytesOfWord(WordOf(s, i / 4));
    WordOfBytes(s, i / 4, i % 4);
    assert i == 4 * (i / 4) + i % 4;
  }

  lemma WordOfBytes(s: State, k: nat, j: nat)
    requires k < 5 && j < 4
    ensures StateBytes(s)[4 * k + j] == WordBytes(WordOf(s, k))[j]
  {
    FiveFours(WordBytes(s.a), WordBytes(s.b), WordBytes(s.c), WordBytes(s.d), WordBytes(s.e), k, j);
  }

  lemma FiveFours(a: seq<Octet>, b: seq<Octet>, c: seq<Octet>, d: seq<Octet>, e: seq<Octet>, k: nat, j: nat)
    requires |a| == |b| == |c| == |d| == |e| == 4 && k < 5 && j < 4
    ensures (a + b + c + d + e)[4 * k + j] == if k == 0 then a[j] else if k == 1 then b[j] else if k == 2 then c[j]
                                              else if k == 3 then d[j] else e[j]
  {}

  // ----- whole blocks

  lemma {:induction false} AbsorbSplit(s: State, a: seq<Octet>, b: seq<Octet>)
    requires |a| % 64 == 0
    ensures Absorb(s, a + b) == Absorb(Absorb(s, a), b)
    decreases |a|
  {
    if a == [] {
      assert a + b == b;
    } else {
      assert (a + b)[..64] == a[..64] && (a + b)[64..] == a[64..] + b;
      AbsorbSplit(Compress(s, Words(a[..64])), a[64..], b);
    }
  }

  lemma AbsorbBlock(s: State, a: seq<Octet>, b: seq<Octet>)
    requires |a| % 64 == 0 && |b| == 64
    ensures Absorb(s, a + b) == Compress(Absorb(s, a), Words(b))
  {
    AbsorbSplit(s, a, b);
    assert b[..64] == b && |b[64..]| == 0;
  }

  // ----- the forms in the code

  /** `R0` and `R1` compute `Ch` with one operation less, `R3` computes `Maj` another way. */
  lemma CodeForms(w: Word, x: Word, y: Word)
    ensures ((w & (x ^ y)) ^ y) == Ch(w, x, y)
    ensures (((w | x) & y) | (w & x)) == Maj(w, x, y)
  {}

  /** A word as a little-endian machine loads it. */
  function Loaded(b0: Octet, b1: Octet, b2: Octet, b3: Octet): Word {
    BigEndian(b3, b2, b1, b0)
  }

  /** `blk0` on little-endian machines. */
  function Swapped(x: Word): Word {
    (((x << 24) | (x >> 8)) & 0xFF00FF00) | (((x << 8) | (x >> 24)) & 0x00FF00FF)
  }

  lemma SwapUndoesLoad(b0: Octet, b1: Octet, b2: Octet, b3: Octet)
    ensures Swapped(Loaded(b0, b1, b2, b3)) == BigEndian(b0, b1, b2, b3)
  {}

  /** What the four kinds of rounds add. */
  function CodeF(t: nat, w: Word, x: Word, y: Word): Word {
    if t < 20 then (w & (x ^ y)) ^ y
    else if t < 40 then w ^ x ^ y
    else if t < 60 then ((w | x) & y) | (w & x)
    else w ^ x ^ y
  }

  lemma CodeFIsF(t: nat, w: Word, x: Word, y: Word)
    ensures CodeF(t, w, x, y) == F(t, w, x, y)
  {
    CodeForms(w, x, y);
  }

  // ----- the circular schedule of section 6.1.3

  /** Every word after the first sixteen follows from earlier ones. */
  ghost predicate Expanded(ws: seq<Word>) {
    forall t | 16 <= t < |ws| :: ExpandsAt(ws, t)
  }

  ghost predicate ExpandsAt(ws: seq<Word>, t: nat)
    requires 16 <= t < |ws|
  {
    ws[t] == Next(ws[t - 3], ws[t - 8], ws[t - 14], ws[t - 16])
  }

  lemma {:induction false} ScheduleExpands(m: seq<Word>, n: nat)
    requires |m| == 16 && n >= 16
    ensures Expanded(Schedule(m, n)) && Schedule(m, n)[..16] == m
    decreases n
  {
    if n > 16 {
      ScheduleExpands(m, n - 1);
      var before, ws := Schedule(m, n - 1), Schedule(m, n);
      forall t | 16 <= t < n ensures ExpandsAt(ws, t) {
        if t < n - 1 { assert ExpandsAt(before, t); }
      }
    }
  }

  /** After `i` rounds the sixteen words hold the latest words of the schedule, and before round
      sixteen the words that are still as they were loaded. */
  ghost predicate Circular(ws: seq<Word>, raw: seq<Word>, l: seq<Word>, i: nat)
    requires |ws| == 80 && |raw| == 16 && |l| == 16 && i <= 80
  {
    if i < 16 then
      && (forall s | 0 <= s < i :: l[s] == ws[s])
      && (forall s | i <= s < 16 :: l[s] == raw[s])
    else
      forall s | i - 16 <= s < i :: Holds(ws, l, s)
  }

  ghost predicate Holds(ws: seq<Word>, l: seq<Word>, s: nat)
    requires |ws| == 80 && |l| == 16 && s < 80
  {
    l[s % 16] == ws[s]
  }

  lemma CircularWord(ws: seq<Word>, raw: seq<Word>, l: seq<Word>, i: nat)
    requires |ws| == 80 && |raw| == 16 && |l| == 16 && 16 <= i < 80 && Circular(ws, raw, l, i) && Expanded(ws)
    ensures Next(l[(i + 13) % 16], l[(i + 8) % 16], l[(i + 2) % 16], l[i % 16]) == ws[i]
  {
    assert ExpandsAt(ws, i);
    assert Holds(ws, l, i - 3) && Holds(ws, l, i - 8) && Holds(ws, l, i - 14) && Holds(ws, l, i - 16);
    SamePlaces(i);
  }

  lemma SamePlaces(i: nat)
    requires i >= 16
    ensures (i + 13) % 16 == (i - 3) % 16 && (i + 8) % 16 == (i - 8) % 16
    ensures (i + 2) % 16 == (i - 14) % 16 && i % 16 == (i - 16) % 16
  {
    SamePlace(i - 3);
    SamePlace(i - 8);
    SamePlace(i - 14);
    SamePlace(i - 16);
  }

  lemma SamePlace(i: nat)
    ensures (i + 16) % 16 == i % 16
  {}

  lemma CircularStep(ws: seq<Word>, raw: seq<Word>, l: seq<Word>, i: nat)
    requires |ws| == 80 && |raw| == 16 && |l| == 16 && 16 <= i < 80 && Circular(ws, raw, l, i)
    ensures Circular(ws, raw, l[i % 16 := ws[i]], i + 1)
  {
    var l' := l[i % 16 := ws[i]];
    forall s | i + 1 - 16 <= s < i + 1 ensures Holds(ws, l', s) {
      if s < i { assert Holds(ws, l, s) && s % 16 != i % 16; }
    }
  }

  lemma CircularFirst(ws: seq<Word>, raw: seq<Word>, l: seq<Word>, i: nat)
    requires |ws| == 80 && |raw| == 16 && |l| == 16 && i < 16 && Circular(ws, raw, l, i)
    ensures l[i] == raw[i] && Circular(ws, raw, l[i := ws[i]], i + 1)
  {
    if i == 15 {
      var l' := l[i := ws[i]];
      forall s | 0 <= s < 16 ensures Holds(ws, l', s) {}
    }
  }

  // ----- the rotating working variables

  /** Which of the five variables plays role `k` in round `i`. */
  function Role(k: nat, i: nat): (r: nat)
    requires k < 5
    ensures r < 5
  {
    var turn := i % 5;
    if k >= turn then k - turn else k + 5 - turn
  }

  ghost predicate Plays(v: seq<Word>, s: State, i: nat)
    requires |v| == 5
  {
    v[Role(0, i)] == s.a && v[Role(1, i)] == s.b && v[Role(2, i)] == s.c && v[Role(3, i)] == s.d && v[Role(4, i)] == s.e
  }

  lemma TurnMovesOn(i: nat)
    ensures (i + 1) % 5 == if i % 5 == 4 then 0 else i % 5 + 1
  {}

  lemma RolesTurn(i: nat)
    ensures Role(0, i + 1) == Role(4, i) && Role(1, i + 1) == Role(0, i) && Role(2, i + 1) == Role(1, i)
    ensures Role(3, i + 1) == Role(2, i) && Role(4, i + 1) == Role(3, i)
  {
    TurnMovesOn(i);
  }

  lemma RolesDiffer(i: nat, k: nat, k': nat)
    requires k < k' < 5
    ensures Role(k, i) != Role(k', i)
  {}

  /** What the macros add to the variable that plays the last role. */
  function Added(z: Word, f: Word, w: Word, k: Word, v5: Word): Word {
    z + (f + w + k + v5)
  }

  lemma SumsAgree(z: Word, f: Word, w: Word, k: Word, v5: Word)
    ensures Added(z, f, w, k, v5) == Temporary(v5, f, z, k, w)
  {}

  /** One round in place: two of the variables change, and the roles move on by one. */
  lemma RoundInPlace(v: seq<Word>, s: State, i: nat, w: Word, last: Word, second: Word)
    requires |v| == 5 && Plays(v, s, i)
    requires last == Round(i, s, w).a && second == Round(i, s, w).c
    ensures Plays(v[Role(4, i) := last][Role(1, i) := second], Round(i, s, w), i + 1)
  {
    RolesTurn(i);
    RolesDiffer(i, 0, 1);
    RolesDiffer(i, 0, 4);
    RolesDiffer(i, 1, 2);
    RolesDiffer(i, 1, 3);
    RolesDiffer(i, 1, 4);
    RolesDiffer(i, 2, 4);
    RolesDiffer(i, 3, 4);
  }
}
