/** The hashing context of 3rdparty/sha1/sha1.c, updated in place. */
module Sha1Contexts {
  import opened Sha1

  const WORD: nat := 0x1_0000_0000

  /** The block as the machine loads it. */
  function Raw(b: seq<Octet>): (raw: seq<Word>)
    requires |b| == 64
    ensures |raw| == 16
  {
    seq(16, i requires 0 <= i < 16 => Loaded(b[4 * i], b[4 * i + 1], b[4 * i + 2], b[4 * i + 3]))
  }

  lemma SwappedRaw(b: seq<Octet>, i: nat)
    requires |b| == 64 && i < 16
    ensures Swapped(Raw(b)[i]) == Words(b)[i]
  {
    SwapUndoesLoad(b[4 * i], b[4 * i + 1], b[4 * i + 2], b[4 * i + 3]);
  }

  /** `block->l`, over the bytes of the block. */
  method Load(block: array<Octet>, off: nat) returns (l: array<Word>)
    requires off + 64 <= block.Length
    ensures fresh(l) && l.Length == 16 && l[..] == Raw(block[off..off + 64])
  {
    l := new Word[16];
    for i := 0 to 16
      invariant forall j | 0 <= j < i :: l[j] == Raw(block[off..off + 64])[j]
    {
      var p := off + 4 * i;
      l[i] := Loaded(block[p], block[p + 1], block[p + 2], block[p + 3]);
    }
  }

  /** What is left in the block afterwards: the end of the schedule, not the input. */
  method Store(block: array<Octet>, off: nat, l: array<Word>)
    requires off + 64 <= block.Length && l.Length == 16
    modifies block
    ensures forall j | 0 <= j < block.Length && !(off <= j < off + 64) :: block[j] == old(block[j])
  {
    for i := 0 to 16
      invariant forall j | 0 <= j < block.Length && !(off <= j < off + 64) :: block[j] == old(block[j])
    {
      var p, b := off + 4 * i, WordBytes(l[i]);
      block[p], block[p + 1], block[p + 2], block[p + 3] := b[3], b[2], b[1], b[0];
    }
  }

  /** `blk0` and `blk`: the word for round `i`, left in its place. */
  method Blk(l: array<Word>, i: nat, ghost b: seq<Octet>, ghost ws: seq<Word>) returns (w: Word)
    requires l.Length == 16 && i < 80 && |b| == 64 && |ws| == 80 && Expanded(ws) && ws[..16] == Words(b)
    requires Circular(ws, Raw(b), l[..], i)
    modifies l
    ensures w == ws[i] && Circular(ws, Raw(b), l[..], i + 1)
  {
    if i < 16 {
      CircularFirst(ws, Raw(b), l[..], i);
      SwappedRaw(b, i);
      assert ws[i] == ws[..16][i];
      w := Swapped(l[i]);
      ghost var before := l[..];
      l[i] := w;
      assert l[..] == before[i := ws[i]];
    } else {
      CircularWord(ws, Raw(b), l[..], i);
      CircularStep(ws, Raw(b), l[..], i);
      w := Next(l[(i + 13) % 16], l[(i + 8) % 16], l[(i + 2) % 16], l[i % 16]);
      ghost var before := l[..];
      l[i % 16] := w;
      assert l[..] == before[i % 16 := ws[i]];
    }
  }

  /** `R0` to `R4`, with the variables in their roles for round `i`. */
  method DoRound(v: array<Word>, i: nat, w: Word, ghost s: State)
    requires v.Length == 5 && Plays(v[..], s, i)
    modifies v
    ensures Plays(v[..], Round(i, s, w), i + 1)
  {
    var f := CodeF(i, v[Role(1, i)], v[Role(2, i)], v[Role(3, i)]);
    var z := Added(v[Role(4, i)], f, w, K(i), Rotl5(v[Role(0, i)]));
    CodeFIsF(i, s.b, s.c, s.d);
    SumsAgree(s.e, f, w, K(i), Rotl5(s.a));
    ghost var before := v[..];
    RoundInPlace(before, s, i, w, z, Rotl30(s.b));
    v[Role(4, i)] := z;
    RolesDiffer(i, 1, 4);
    v[Role(1, i)] := Rotl30(v[Role(1, i)]);
    assert v[..] == before[Role(4, i) := z][Role(1, i) := Rotl30(s.b)];
  }

  /** The eighty rounds. */
  method DoRounds(l: array<Word>, v: array<Word>, ghost b: seq<Octet>, ghost ws: seq<Word>, ghost s: State)
    requires l.Length == 16 && v.Length == 5 && |b| == 64 && |ws| == 80 && Expanded(ws) && ws[..16] == Words(b)
    requires Circular(ws, Raw(b), l[..], 0) && Plays(v[..], s, 0)
    modifies l, v
    ensures Plays(v[..], Rounds(ws, s, |ws|), 80)
  {
    for i := 0 to 80
      invariant Circular(ws, Raw(b), l[..], i) && Plays(v[..], Rounds(ws, s, i), i)
    {
      ghost var before := Rounds(ws, s, i);
      var w := Blk(l, i, b, ws);
      DoRound(v, i, w, before);
      assert Rounds(ws, s, i + 1) == Round(i, before, ws[i]);
    }
  }

  /** `SHA1_Transform`: the state is compressed with the block; the block is used up, and what is
      around it is left alone. */
  method Transform(s: State, block: array<Octet>, off: nat) returns (s': State)
    requires off + 64 <= block.Length
    modifies block
    ensures s' == Compress(s, Words(old(block[off..off + 64])))
    ensures forall j | 0 <= j < block.Length && !(off <= j < off + 64) :: block[j] == old(block[j])
  {
    ghost var b := block[off..off + 64];
    ghost var m := Words(b);
    ghost var ws := Schedule(m, 5 * |m|);
    ScheduleExpands(m, 5 * |m|);
    var l := Load(block, off);
    var v := new Word[5];
    v[0], v[1], v[2], v[3], v[4] := s.a, s.b, s.c, s.d, s.e;
    DoRounds(l, v, b, ws, s);
    s' := Sum(s, State(v[0], v[1], v[2], v[3], v[4]));
    Store(block, off, l);
  }

  // ----- counting

  /** The bits of a message of `n` bytes, as two 32-bit numbers. */
  function Low(n: nat): (r: nat)
    ensures r < WORD
  {
    8 * n % WORD
  }

  function High(n: nat): (r: nat)
    ensures r < WORD
  {
    8 * n / WORD % WORD
  }

  lemma LowTells(n: nat)
    ensures Low(n) / 8 % 64 == n % 64 && Low(n) % 512 == 8 * (n % 64)
  {
    var q, r := 8 * n / WORD, Low(n);
    assert 8 * n == WORD * q + r;
    RemainderOf(n, r / 8, 0x80_0000 * q);
  }

  lemma RemainderOf(n: nat, m: nat, q: nat)
    requires n == 64 * q + m
    ensures n % 64 == m % 64 && 8 * m % 512 == 8 * (m % 64)
  {
    Remainder64(n, q + m / 64, m % 64);
    Remainder512(8 * m, m / 64, 8 * (m % 64));
  }

  lemma Remainder64(n: nat, q: nat, r: nat)
    requires n == 64 * q + r && r < 64
    ensures n % 64 == r
  {}

  lemma Remainder512(n: nat, q: nat, r: nat)
    requires n == 512 * q + r && r < 512
    ensures n % 512 == r
  {}

  /** The carry is noticed by the low part getting smaller than what was added. */
  lemma CarryIsNoticed(n: nat, len: nat)
    requires len < 0x2000_0000
    ensures var low := (Low(n) + 8 * len) % WORD;
            low == Low(n + len) && High(n + len) == (High(n) + if low < 8 * len then 1 else 0) % WORD
  {
    var q := 8 * n / WORD;
    assert 8 * (n + len) == WORD * q + (Low(n) + 8 * len);
    if Low(n) + 8 * len < WORD {
      QuotientIs(8 * (n + len), q, Low(n) + 8 * len);
    } else {
      QuotientIs(8 * (n + len), q + 1, Low(n) + 8 * len - WORD);
      QuotientIs(Low(n) + 8 * len, 1, Low(n) + 8 * len - WORD);
    }
    NextModulo(q);
  }

  lemma QuotientIs(v: nat, q: nat, r: nat)
    requires v == WORD * q + r && r < WORD
    ensures v / WORD == q && v % WORD == r
  {}

  lemma NextModulo(q: nat)
    ensures (q + 1) % WORD == (q % WORD + 1) % WORD
  {}

  // ----- messages in parts

  /** What is left of a message after its whole blocks. */
  function Tail(msg: seq<Octet>): (t: seq<Octet>)
    ensures |t| == |msg| % 64
  {
    msg[|msg| - |msg| % 64..]
  }

  lemma AbsorbTail(s: State, a: seq<Octet>, t: seq<Octet>)
    requires |a| % 64 == 0 && |t| < 64
    ensures Absorb(s, a + t) == Absorb(s, a) && Tail(a + t) == t
  {
    AbsorbSplit(s, a, t);
    assert |a + t| % 64 == |t|;
  }

  lemma WholeAndTail(msg: seq<Octet>) returns (whole: seq<Octet>)
    ensures |whole| % 64 == 0 && msg == whole + Tail(msg)
  {
    whole := msg[..|msg| - |msg| % 64];
  }

  /** Filling up the buffer. */
  lemma AbsorbFilled(s: State, msg: seq<Octet>, d: seq<Octet>)
    requires |msg| % 64 + |d| == 64
    ensures Absorb(s, msg + d) == Compress(Absorb(s, msg), Words(Tail(msg) + d))
  {
    var whole := WholeAndTail(msg);
    AbsorbTail(s, whole, Tail(msg));
    assert msg + d == whole + (Tail(msg) + d);
    AbsorbBlock(s, whole, Tail(msg) + d);
  }

  /** Not filling it up. */
  lemma AbsorbUnfilled(s: State, msg: seq<Octet>, d: seq<Octet>)
    requires |msg| % 64 + |d| < 64
    ensures Absorb(s, msg + d) == Absorb(s, msg) && Tail(msg + d) == Tail(msg) + d
  {
    var whole := WholeAndTail(msg);
    AbsorbTail(s, whole, Tail(msg));
    assert msg + d == whole + (Tail(msg) + d);
    AbsorbTail(s, whole, Tail(msg) + d);
  }

  lemma RestStays(s: State, msg: seq<Octet>, d: seq<Octet>, i: nat, j: nat)
    requires i <= |d| && j == (|msg| + i) % 64 && j + |d| - i < 64
    ensures Absorb(s, msg + d) == Absorb(s, msg + d[..i])
    ensures Tail(msg + d) == Tail(msg + d[..i]) + d[i..] && |msg + d| % 64 == j + |d| - i
  {
    AbsorbUnfilled(s, msg + d[..i], d[i..]);
    assert msg + d[..i] + d[i..] == msg + d;
  }

  lemma EmptyTail(msg: seq<Octet>)
    requires |msg| % 64 == 0
    ensures Tail(msg) == []
  {}

  /** The input is as it was from `i` on. */
  ghost predicate Intact(data: seq<Octet>, d: seq<Octet>, i: nat) {
    |data| == |d| && forall k | i <= k < |d| :: data[k] == d[k]
  }

  lemma IntactPart(data: seq<Octet>, d: seq<Octet>, i: nat, n: nat)
    requires Intact(data, d, i) && i + n <= |d|
    ensures data[i..i + n] == d[i..i + n]
  {}

  lemma OneMoreBlock(s: State, msg: seq<Octet>, d: seq<Octet>, i: nat)
    requires i + 64 <= |d| && (|msg| + i) % 64 == 0
    ensures Absorb(s, msg + d[..i + 64]) == Compress(Absorb(s, msg + d[..i]), Words(d[i..i + 64]))
  {
    AbsorbBlock(s, msg + d[..i], d[i..i + 64]);
    assert msg + d[..i] + d[i..i + 64] == msg + d[..i + 64];
  }

  // ----- the context

  class Sha1Context {
    var state: State
    var count0: nat
    var count1: nat
    const buffer: array<Octet>
    ghost var message: seq<Octet>

    /** The context stands for the message that was run through it so far. */
    ghost predicate Valid()
      reads this, buffer
    {
      && buffer.Length == 64
      && count0 == Low(|message|) && count1 == High(|message|)
      && state == Absorb(INITIAL, message)
      && buffer[..|message| % 64] == Tail(message)
    }

    /** `SHA1Init`. */
    constructor ()
      ensures Valid() && message == [] && fresh(buffer)
    {
      state := INITIAL;
      count0, count1 := 0, 0;
      buffer := new Octet[64];
      message := [];
    }

    /** `memcpy` into the buffer. */
    method Keep(j: nat, data: array<Octet>, i: nat, n: nat)
      requires buffer.Length == 64 && j + n <= 64 && i + n <= data.Length && data != buffer
      modifies buffer
      ensures buffer[..j] == old(buffer[..j]) && buffer[j..j + n] == data[i..i + n]
    {
      for k := 0 to n
        invariant buffer[..j] == old(buffer[..j]) && buffer[j..j + k] == data[i..i + k]
      {
        buffer[j + k] := data[i + k];
        assert buffer[j..j + k + 1] == buffer[j..j + k] + [data[i + k]];
      }
    }

    method Count(len: nat)
      requires len < 0x2000_0000 && count0 == Low(|message|) && count1 == High(|message|)
      modifies this`count0, this`count1
      ensures count0 == Low(|message| + len) && count1 == High(|message| + len)
    {
      CarryIsNoticed(|message|, len);
      assert len / 0x2000_0000 == 0;
      count0 := (count0 + 8 * len) % WORD;
      if count0 < 8 * len {
        count1 := (count1 + 1) % WORD;
      }
      assert count1 == High(|message| + len);
      count1 := (count1 + len / 0x2000_0000) % WORD;
    }

    /** `SHA1Update`, for less than 2^29 bytes; whole blocks of the data are used up. */
    method Update(data: array<Octet>)
      requires Valid() && data.Length < 0x2000_0000 && data != buffer
      modifies this, buffer, data
      ensures Valid() && message == old(message) + old(data[..])
    {
      ghost var msg, d := message, data[..];
      var j := count0 / 8 % 64;
      LowTells(|msg|);
      Count(data.Length);
      Feed(data, j, msg);
      message := msg + d;
    }

    method Feed(data: array<Octet>, j: nat, ghost msg: seq<Octet>)
      requires buffer.Length == 64 && data != buffer && j == |msg| % 64
      requires state == Absorb(INITIAL, msg) && buffer[..j] == Tail(msg)
      modifies this`state, buffer, data
      ensures state == Absorb(INITIAL, msg + old(data[..]))
      ensures buffer[..|msg + old(data[..])| % 64] == Tail(msg + old(data[..]))
    {
      ghost var d := data[..];
      var len := data.Length;
      if j + len > 63 {
        var i := Fill(data, j, msg);
        assert data[..] == d;
        i := Blocks(data, i, len, msg, d);
        EmptyTail(msg + d[..i]);
        Rest(data, i, 0, msg, d);
      } else {
        assert d[..0] == [] && msg + [] == msg;
        Rest(data, 0, j, msg, d);
      }
    }

    /** The buffer is filled up from the data and used up. */
    method Fill(data: array<Octet>, j: nat, ghost msg: seq<Octet>) returns (i: nat)
      requires buffer.Length == 64 && data != buffer && j == |msg| % 64 && j + data.Length > 63
      requires state == Absorb(INITIAL, msg) && buffer[..j] == Tail(msg)
      modifies this`state, buffer
      ensures i == 64 - j && state == Absorb(INITIAL, msg + data[..i])
    {
      i := 64 - j;
      Keep(j, data, 0, i);
      ghost var b := buffer[0..64];
      assert b == buffer[..j] + buffer[j..64];
      assert data[0..i] == data[..i];
      AbsorbFilled(INITIAL, msg, data[..i]);
      state := Transform(state, buffer, 0);
    }

    /** A whole block of the data. */
    method Block(data: array<Octet>, i: nat, ghost msg: seq<Octet>, ghost d: seq<Octet>)
      requires i + 64 <= data.Length == |d| && Intact(data[..], d, i) && (|msg| + i) % 64 == 0 && data != buffer
      requires state == Absorb(INITIAL, msg + d[..i])
      modifies this`state, data
      ensures state == Absorb(INITIAL, msg + d[..i + 64]) && Intact(data[..], d, i + 64)
    {
      IntactPart(data[..], d, i, 64);
      OneMoreBlock(INITIAL, msg, d, i);
      assert data[i..i + 64] == data[..][i..i + 64];
      state := Transform(state, data, i);
    }

    /** The whole blocks that the data holds by itself. */
    method Blocks(data: array<Octet>, i0: nat, len: nat, ghost msg: seq<Octet>, ghost d: seq<Octet>) returns (i: nat)
      requires i0 <= len == data.Length == |d| && Intact(data[..], d, i0) && (|msg| + i0) % 64 == 0 && data != buffer
      requires state == Absorb(INITIAL, msg + d[..i0])
      modifies this`state, data
      ensures i0 <= i <= len < i + 64 && (|msg| + i) % 64 == 0
      ensures state == Absorb(INITIAL, msg + d[..i]) && Intact(data[..], d, i)
    {
      i := i0;
      while i + 63 < len
        invariant i0 <= i <= len && (|msg| + i) % 64 == 0 && Intact(data[..], d, i)
        invariant state == Absorb(INITIAL, msg + d[..i])
      {
        Block(data, i, msg, d);
        i := i + 64;
      }
    }

    /** What does not fill a block stays in the buffer. */
    method Rest(data: array<Octet>, i: nat, j: nat, ghost msg: seq<Octet>, ghost d: seq<Octet>)
      requires buffer.Length == 64 && data != buffer && data.Length == |d|
      requires i <= |d| && j == (|msg| + i) % 64 && j + |d| - i < 64 && Intact(data[..], d, i)
      requires state == Absorb(INITIAL, msg + d[..i]) && buffer[..j] == Tail(msg + d[..i])
      modifies buffer
      ensures state == Absorb(INITIAL, msg + d) && buffer[..|msg + d| % 64] == Tail(msg + d)
    {
      var n := data.Length - i;
      RestStays(INITIAL, msg, d, i, j);
      Keep(j, data, i, n);
      assert buffer[..j + n] == buffer[..j] + buffer[j..j + n];
      assert data[i..i + n] == data[..][i..i + n];
      IntactPart(data[..], d, i, n);
      assert d[i..i + n] == d[i..];
    }

    method UpdateOctet(x: Octet)
      requires Valid()
      modifies this, buffer
      ensures Valid() && message == old(message) + [x]
    {
      var one := new Octet[1](_ => x);
      assert one[..] == [x];
      Update(one);
    }

    /** The padding up to the length; the loop ends, and has then put in the least number of
        zeros. */
    method Pad()
      requires Valid()
      modifies this, buffer
      ensures Valid() && message == old(message) + [0x80] + ZeroBytes(ZeroCount(|old(message)|))
    {
      ghost var msg, z := message, 0;
      UpdateOctet(0x80);
      LowTells(|message|);
      assert message == msg + [0x80] + ZeroBytes(0);
      while count0 % 512 - count0 % 8 != 448
        invariant Valid() && z <= ZeroCount(|msg|) && message == msg + [0x80] + ZeroBytes(z)
        decreases ZeroCount(|msg|) - z
      {
        FewerZeros(|msg|, z, |message|);
        UpdateOctet(0);
        z := z + 1;
        assert ZeroBytes(z) == ZeroBytes(z - 1) + [0];
      }
      FewerZeros(|msg|, z, |message|);
    }

    /** `finalcount`. */
    method FinalCount() returns (bytes: array<Octet>)
      requires count0 == Low(|message|) && count1 == High(|message|)
      ensures fresh(bytes) && bytes[..] == LengthBytes(8 * |message|)
    {
      var b := HalfBytes(count1) + HalfBytes(count0);
      HalvesOfLength(8 * |message|);
      bytes := new Octet[8](i requires 0 <= i < 8 => b[i]);
      assert bytes[..] == b;
    }

    /** `SHA1_Digest`: the digest of the message, however it was split up into updates. */
    method Finish() returns (digest: seq<Octet>)
      requires Valid()
      modifies this, buffer
      ensures digest == Digest(old(message))
      ensures |digest| == 20 && forall i | 0 <= i < 20 :: digest[i] == ByteAt(WordOf(state, i / 4), 3 - i % 4)
    {
      ghost var msg := message;
      var finalcount := FinalCount();
      Pad();
      Update(finalcount);
      assert message == Padded(msg);
      digest := DigestBytes(state);
    }
  }

  /** The loop that takes the digest from the state, byte by byte. */
  method Collect(n: nat, byte: nat -> Octet) returns (r: seq<Octet>)
    ensures |r| == n && forall i | 0 <= i < n :: r[i] == byte(i)
  {
    r := [];
    for i := 0 to n
      invariant |r| == i && forall j | 0 <= j < i :: r[j] == byte(j)
    {
      r := r + [byte(i)];
    }
  }

  method DigestBytes(s: State) returns (digest: seq<Octet>)
    ensures |digest| == 20 && forall i | 0 <= i < 20 :: digest[i] == ByteAt(WordOf(s, i / 4), 3 - i % 4)
    ensures digest == StateBytes(s)
  {
    digest := Collect(20, (i: nat) => if i < 20 then ByteAt(WordOf(s, i / 4), 3 - i % 4) else 0);
    SameBytes(s, digest);
  }

  lemma SameBytes(s: State, digest: seq<Octet>)
    requires |digest| == 20 && forall i | 0 <= i < 20 :: digest[i] == ByteAt(WordOf(s, i / 4), 3 - i % 4)
    ensures digest == StateBytes(s)
  {
    forall i | 0 <= i < 20 ensures digest[i] == StateBytes(s)[i] { ByteOfState(s, i); }
  }

  /** The loop's test tells whether the zeros suffice. */
  lemma FewerZeros(n: nat, z: nat, size: nat)
    requires z <= ZeroCount(n) && size == n + 1 + z
    ensures Low(size) % 512 - Low(size) % 8 == 448 <==> z == ZeroCount(n)
  {
    LowTells(size);
    LowIsEven(size);
    ZeroCountIsLeast(n, z);
  }

  lemma LowIsEven(n: nat)
    ensures Low(n) % 8 == 0
  {}

  lemma ZeroCountIsLeast(n: nat, z: nat)
    requires z <= ZeroCount(n)
    ensures (n + 1 + z) % 64 == 56 <==> z == ZeroCount(n)
  {
    var z' := ZeroCount(n);
    if (n + 1 + z) % 64 == 56 { SameRemainder(n + 1 + z, n + 1 + z'); }
  }

  lemma SameRemainder(a: nat, b: nat)
    requires a % 64 == b % 64 && a <= b < a + 64
    ensures a == b
  {}

  /** The four bytes of a number, by shifting and masking. */
  function HalfBytes(x: nat): (b: seq<Octet>)
    ensures |b| == 4
  {
    [OctetOf(x / 0x100_0000), OctetOf(x / 0x1_0000), OctetOf(x / 0x100), OctetOf(x)]
  }

  /** The bytes of the two halves are those of the whole. */
  lemma HalvesOfLength(v: nat)
    ensures LengthBytes(v) == HalfBytes(v / WORD % WORD) + HalfBytes(v % WORD)
  {
    LowHalf(v);
    LowHalf(v / WORD);
    UpperHalf(v);
  }

  lemma LowHalf(x: nat)
    ensures HalfBytes(x % WORD) == HalfBytes(x)
  {
    var q, r := x / WORD, x % WORD;
    assert x == WORD * q + r;
    Shifted(x, 0x100_0000, q, r);
    Shifted(x, 0x1_0000, 0x100 * q, r);
    Shifted(x, 0x100, 0x1_0000 * q, r);
    Shifted(x, 1, 0x100_0000 * q, r);
  }

  lemma Distribute(m: int, a: int, b: int)
    ensures m * (a - b) == m * a - m * b
  {}

  lemma AtLeast(m: nat, d: int)
    requires d >= 1
    ensures m * d >= m
  {}

  lemma Quotient(x: nat, c: nat, q: nat, r: nat)
    requires c > 0 && x == c * q + r && r < c
    ensures x / c == q
  {
    var q', r' := x / c, x % c;
    assert x == c * q' + r';
    Distribute(c, q, q');
    if q > q' {
      AtLeast(c, q - q');
    } else if q < q' {
      Distribute(c, q', q);
      AtLeast(c, q' - q);
    }
  }

  lemma WithoutMultiple(y: nat, k: nat)
    ensures (256 * k + y) % 256 == y % 256
  {}

  /** A multiple of 256 times the shift does not reach the byte. */
  lemma Shifted(x: nat, c: nat, k: nat, r: nat)
    requires c > 0 && x == c * (256 * k) + r
    ensures x / c % 256 == r / c % 256
  {
    assert r == c * (r / c) + r % c;
    assert x == c * (256 * k + r / c) + r % c;
    Quotient(x, c, 256 * k + r / c, r % c);
    WithoutMultiple(r / c, k);
  }

  lemma UpperHalf(v: nat)
    ensures v / 0x100_0000_0000_0000 == v / WORD / 0x100_0000 && v / 0x1_0000_0000_0000 == v / WORD / 0x1_0000
    ensures v / 0x100_0000_0000 == v / WORD / 0x100
  {}

  function Concat(parts: seq<seq<Octet>>): seq<Octet> {
    if parts == [] then [] else Concat(parts[..|parts| - 1]) + parts[|parts| - 1]
  }

  /** However a message is split up into updates, its digest is that of the whole. */
  method HashParts(parts: seq<seq<Octet>>) returns (digest: seq<Octet>)
    requires forall p | p in parts :: |p| < 0x2000_0000
    ensures digest == Digest(Concat(parts))
  {
    var context := new Sha1Context();
    for i := 0 to |parts|
      invariant context.Valid() && fresh(context) && fresh(context.buffer)
      invariant context.message == Concat(parts[..i])
    {
      var p := parts[i];
      var data := new Octet[|p|](k requires 0 <= k < |p| => p[k]);
      assert data[..] == p;
      context.Update(data);
      assert parts[..i + 1][..i] == parts[..i];
    }
    assert parts[..|parts|] == parts;
    digest := context.Finish();
  }
}
