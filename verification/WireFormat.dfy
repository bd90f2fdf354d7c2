/** The bytes that stand in the data (src/6model/serialization.c): where reading undoes writing, the
    bytes could still be others; here is which they are. */
module WireFormat {
  import opened Wrappers
  import opened Bytes
  import opened IntCode
  import opened Codes
  import opened Packing
  import opened Strings
  import opened Tables
  import opened Places
  import opened Values
  import opened Encoding
  import opened Parts

  // ----- numbers, the lowest byte first

  lemma OnlyZeroTimes(d: int, k: int)
    requires d > 0 && -d < d * k < d
    ensures k == 0
  {
    assert k >= 1 ==> d * k >= d;
    assert k <= -1 ==> d * k <= d * -1;
  }

  lemma QuotientIs(v: int, d: nat, q: int, r: nat)
    requires d > 0 && v == d * q + r && r < d
    ensures v / d == q
  {
    var q', r' := v / d, v % d;
    assert v == d * q' + r';
    assert d * (q - q') == d * q - d * q' == r' - r;
    OnlyZeroTimes(d, q - q');
  }

  lemma DivideTwice(v: int, b: nat)
    requires b > 0
    ensures (v / 256) / b == v / (256 * b)
  {
    var q, r := v / 256, v % 256;
    var s, t := q / b, q % b;
    assert q == b * s + t;
    assert v == (256 * b) * s + (256 * t + r);
    QuotientIs(v, 256 * b, s, 256 * t + r);
  }

  /** What is above the low k bytes, and byte j. */
  lemma {:induction false} HighIs(v: int, k: nat)
    ensures High(v, k) == v / Pow256(k)
    decreases k
  {
    if k > 0 {
      HighIs(v / 256, k - 1);
      DivideTwice(v, Pow256(k - 1));
    }
  }

  lemma {:induction false} ByteOfLE(v: int, k: nat, j: nat)
    requires j < k
    ensures LE(v, k)[j] == v / Pow256(j) % 256
    decreases k
  {
    if j > 0 {
      ByteOfLE(v / 256, k - 1, j - 1);
      DivideTwice(v, Pow256(j - 1));
    }
  }

  // ----- the integer code

  /** One byte for small values; else how many bytes follow, with the top four bits, and these
      bytes; and zero before eight bytes. */
  lemma IntForms(v: Int64)
    ensures var b, n := EncodeInt(v), IntSize(v);
            && |b| == n
            && (-1 <= v <= 126 ==> b == [v + 129])
            && (!(-1 <= v <= 126) ==>
                  && n >= 2 && b[0] == (if n == 9 then 0 else 16 * (n - 1) + v / Pow256(n - 1) % 16)
                  && forall j | 1 <= j < n :: b[j] == v / Pow256(j - 1) % 256)
  {
    var n := IntSize(v);
    if n >= 2 {
      HighIs(v, n - 1);
      forall j | 1 <= j < n ensures EncodeInt(v)[j] == v / Pow256(j - 1) % 256 { ByteOfLE(v, n - 1, j - 1); }
    }
  }

  // ----- strings, places and doubles

  lemma TwoBytesOf(v: nat)
    requires v < 0x1_0000
    ensures LE(v, 2) == [v % 256, v / 256]
  {
    assert LE(v, 2) == [v % 256] + LE(v / 256, 1);
    assert LE(v / 256, 1) == [v / 256 % 256] + LE(v / 256 / 256, 0);
  }

  /** Two bytes, or four of which the second has its top bit set. */
  lemma StringForms(i: nat)
    requires i < LIMIT
    ensures PackString(i) == if i <= 0x7FFF then [i % 256, i / 256]
                             else [i / 0x1_0000 % 256, 128 + i / 0x100_0000, i % 256, i / 256 % 256]
  {
    if i <= 0x7FFF {
      TwoBytesOf(i);
    } else {
      TwoBytesOf(i / 0x10000 + 0x8000);
      TwoBytesOf(i % 0x10000);
      UpperHalf(i);
      LowerHalf(i);
    }
  }

  lemma UpperHalf(i: nat)
    ensures (i / 0x10000 + 0x8000) % 256 == i / 0x1_0000 % 256
    ensures (i / 0x10000 + 0x8000) / 256 == 128 + i / 0x100_0000
  {
    var hi := i / 0x10000;
    assert hi + 0x8000 == 256 * (hi / 256 + 128) + hi % 256;
  }

  lemma LowerHalf(i: nat)
    ensures i % 0x10000 % 256 == i % 256 && i % 0x10000 / 256 == i / 256 % 256
  {
    var q, lo := i / 0x10000, i % 0x10000;
    assert i == 256 * (256 * q + lo / 256) + lo % 256;
    assert i / 256 == 256 * q + lo / 256;
  }

  /** One integer for the number of the context, times 2^20, and the index; or three, of which the
      first is 2^32 - 2^20. */
  lemma PlaceForms(x: Place)
    requires x.id < LIMIT && x.idx < LIMIT
    ensures Format().places.enc(x)
         == if x.id < 4095 && x.idx < 1048576 then EncodeInt(1048576 * x.id + x.idx)
            else EncodeInt(4293918720) + EncodeInt(x.id) + EncodeInt(x.idx)
  {}

  /** Eight bytes. */
  lemma NumForms(x: Num64, j: nat)
    requires j < 8
    ensures |Format().nums.enc(x)| == 8 && Format().nums.enc(x)[j] == x / Pow256(j) % 256
  {
    ByteOfLE(x, 8, j);
  }

  // ----- references

  /** The first byte says what follows. */
  lemma Discriminator(env: World, w: Writer, v: Value)
    requires Encode(env, w, v).Encoded?
    ensures var b := Encode(env, w, v).bytes;
            b != [] && match v
              case Null => b == [1]
              case Obj(_) => b[0] == 2
              case VmNull => b == [3]
              case Int(_) => b[0] == 4
              case Num(_) => b[0] == 5
              case Str(_) => b[0] == 6
              case ArrVar(_) => b[0] == 7
              case ArrStr(_) => b[0] == 8
              case ArrInt(_) => b[0] == 9
              case Hash(_) => b[0] == 10
              case Code(c) => b[0] == if c in env.closures then 12 else 11
              case ScRef(_) => b[0] == 13
  {}

  lemma AppendThree(a: Encoded, b: Encoded, c: Encoded)
    ensures Append(Append(a, b), c) == Append(a, Append(b, c))
  {
    if a.Encoded? && b.Encoded? && c.Encoded? { assert (a.bytes + b.bytes) + c.bytes == a.bytes + (b.bytes + c.bytes); }
  }

  /** Elements come in their order. */
  lemma {:induction false} RefsInOrder(env: World, w: Writer, vs: seq<Value>, us: seq<Value>)
    ensures EncodeRefs(env, w, vs + us) == Append(EncodeRefs(env, w, vs), EncodeRefs(env, w, us))
    decreases |vs|
  {
    if vs == [] {
      assert vs + us == us;
      NothingBefore(EncodeRefs(env, w, us));
    } else {
      RefsInOrder(env, w, vs[1..], us);
      assert (vs + us)[1..] == vs[1..] + us;
      AppendThree(Encode(env, w, vs[0]), EncodeRefs(env, w, vs[1..]), EncodeRefs(env, w, us));
    }
  }

  lemma NothingBefore(e: Encoded)
    ensures Append(Encoded([]), e) == e
  {
    if e.Encoded? { assert [] + e.bytes == e.bytes; }
  }

  lemma {:induction false} StrsInOrder(c: Coding<nat>, w: Writer, ss: seq<MString>, us: seq<MString>)
    ensures EncodeStrs(c, w, ss + us) == Append(EncodeStrs(c, w, ss), EncodeStrs(c, w, us))
    decreases |ss|
  {
    if ss == [] {
      assert ss + us == us;
      NothingBefore(EncodeStrs(c, w, us));
    } else {
      StrsInOrder(c, w, ss[1..], us);
      assert (ss + us)[1..] == ss[1..] + us;
      AppendThree(EncodeStr(c, w, ss[0]), EncodeStrs(c, w, ss[1..]), EncodeStrs(c, w, us));
    }
  }

  lemma {:induction false} IntsInOrder(c: Coding<Int64>, ns: seq<Int64>, us: seq<Int64>)
    ensures EncodeInts(c, ns + us) == Append(EncodeInts(c, ns), EncodeInts(c, us))
    decreases |ns|
  {
    if ns == [] {
      assert ns + us == us;
      NothingBefore(EncodeInts(c, us));
    } else {
      IntsInOrder(c, ns[1..], us);
      assert (ns + us)[1..] == ns[1..] + us;
      AppendThree(EncodeWith(c, ns[0]), EncodeInts(c, ns[1..]), EncodeInts(c, us));
    }
  }

  lemma {:induction false} PairsInOrder(env: World, w: Writer, v: Value, keys: seq<string>, us: seq<string>)
    requires v.Hash? && forall i | 0 <= i < |keys| :: keys[i] in v.m
    ensures EncodePairs(env, w, v, keys + us) == Append(EncodePairs(env, w, v, keys), EncodePairs(env, w, v, us))
    decreases |keys|
  {
    if keys == [] {
      assert keys + us == us;
      NothingBefore(EncodePairs(env, w, v, us));
    } else {
      PairsInOrder(env, w, v, keys[1..], us);
      assert (keys + us)[1..] == keys[1..] + us;
      AppendThree(EncodePair(env, w, v, keys[0]), EncodePairs(env, w, v, keys[1..]), EncodePairs(env, w, v, us));
    }
  }

  /** And so do the parts of a body. */
  lemma {:induction false} PartsInOrder(env: World, w: Writer, ps: seq<Part>, us: seq<Part>)
    ensures EncodeParts(env, w, ps + us) == Append(EncodeParts(env, w, ps), EncodeParts(env, w, us))
    decreases |ps|
  {
    if ps == [] {
      assert ps + us == us;
      NothingBefore(EncodeParts(env, w, us));
    } else {
      PartsInOrder(env, w, ps[1..], us);
      assert (ps + us)[1..] == ps[1..] + us;
      AppendThree(EncodePart(env, w, ps[0]), EncodeParts(env, w, ps[1..]), EncodeParts(env, w, us));
    }
  }

  /** What is written without a discriminator. */
  lemma PartForms(env: World, w: Writer, p: Part)
    requires env.codes == Format()
    ensures match p
            case RawInt(i) => EncodePart(env, w, p) == Encoded(EncodeInt(i))
            case RawNum(x) => EncodePart(env, w, p) == Encoded(LE(x, 8))
            case RawByte(x) => EncodePart(env, w, p) == Encoded([x])
            case RawBytes(bytes) =>
              |bytes| < LIMIT ==> EncodePart(env, w, p) == Encoded(EncodeInt(|bytes|) + bytes)
            case RawStr(s) =>
              StringAt(w.seen, s).Ok? && StringAt(w.seen, s).value < LIMIT ==>
                EncodePart(env, w, p) == Encoded(PackString(StringAt(w.seen, s).value))
            case _ => true
  {}

  // ----- object rows

  /** The index in twenty bits, the context in eleven above them, and whether it is concrete on top;
      numbers that do not fit come as two words before the data. */
  lemma RowForms(concrete: bool, sc: nat, idx: nat, data: seq<Byte>)
    requires sc < WORD && idx < WORD
    ensures var (d, row) := PackRow(concrete, sc, idx, data);
            var small, top := sc < 2047 && idx < 1048576, if concrete then 1 else 0;
            && row.packed == 2147483648 * top + (if small then 1048576 * sc + idx else 2146435072)
            && row.offset == |d| && d == if small then data else data + LE(sc, 4) + LE(idx, 4)
  {}

  // ----- an example

  lemma SmallInt(v: Int64)
    requires -1 <= v <= 126
    ensures EncodeInt(v) == [v + 129]
  {}

  lemma MinusThree()
    ensures EncodeInt(-3) == [31, 253]
  {
    IntForms(-3);
    assert IntSize(-3) == 2 && Pow256(0) == 1 && Pow256(1) == 256;
    assert (-3) / 256 == -1 && (-1) % 16 == 15 && (-3) / 1 % 256 == 253;
  }

  lemma ElementBytes(env: World, w: Writer)
    requires env.codes == Format()
    ensures Encode(env, w, Int(5)) == Encoded([4, 134]) && Encode(env, w, Null) == Encoded([1])
    ensures Encode(env, w, Int(-3)) == Encoded([4, 31, 253]) && EncodeCount(env, 3) == Encoded([132])
  {
    SmallInt(3);
    SmallInt(5);
    MinusThree();
  }

  /** The bytes of an array of three: five, null, and minus three. */
  lemma ArrayBytes(env: World, w: Writer, vs: seq<Value>)
    requires env.codes == Format() && vs == [Int(5), Null, Int(-3)]
    ensures Encode(env, w, ArrVar(vs)) == Encoded([7, 132, 4, 134, 1, 4, 31, 253])
  {
    ElementBytes(env, w);
    ThreeRefs(env, w, Int(5), Null, Int(-3));
    assert EncodeBody(env, w, ArrVar(vs)) == Append(EncodeCount(env, |vs|), EncodeRefs(env, w, vs));
  }

  lemma ThreeRefs(env: World, w: Writer, a: Value, b: Value, c: Value)
    ensures EncodeRefs(env, w, [a, b, c])
         == Append(Encode(env, w, a), Append(Encode(env, w, b), Append(Encode(env, w, c), Encoded([]))))
  {
    assert [a, b, c][1..] == [b, c] && [b, c][1..] == [c] && [c][1..] == [];
    assert EncodeRefs(env, w, [c]) == Append(Encode(env, w, c), Encoded([]));
    assert EncodeRefs(env, w, [b, c]) == Append(Encode(env, w, b), EncodeRefs(env, w, [c]));
  }

  /** The keys of a hash come in ascending order, each once. */
  lemma KeysAscend(env: World, m: map<string, Value>)
    requires Enumerates(env.iter)
    ensures Ascending(Keys(env, m)) && forall k :: k in Keys(env, m) <==> k in m
  {
    assert Distinct(env.iter(m.Keys));
    SortAscends(env.iter(m.Keys));
    forall k ensures k in Keys(env, m) <==> k in m { assert k in env.iter(m.Keys) <==> k in m.Keys; }
  }

  lemma OneKey(env: World, k: string, v: Value)
    requires Enumerates(env.iter)
    ensures Keys(env, map[k := v]) == [k]
  {
    KeysAscend(env, map[k := v]);
    AscendingUnique(Keys(env, map[k := v]), [k]);
  }

  /** The bytes of a hash with one key, which stands at place seven of the string heap: the key comes
      before the value. */
  lemma HashBytes(env: World, w: Writer, k: string)
    requires env.codes == Format() && Enumerates(env.iter) && k in w.seen && w.seen[k] == 7
    ensures Encode(env, w, Hash(map[k := Int(5)])) == Encoded([10, 130, 7, 0, 4, 134])
  {
    var v := Hash(map[k := Int(5)]);
    OneKey(env, k, Int(5));
    SmallInt(1);
    SmallInt(5);
    StringForms(7);
    assert EncodeStr(env.codes.strs, w, Some(k)) == Encoded([7, 0]);
    assert Encode(env, w, Int(5)) == Encoded([4, 134]);
    assert EncodePair(env, w, v, k) == Encoded([7, 0, 4, 134]);
    assert EncodePairs(env, w, v, [k]) == Append(EncodePair(env, w, v, k), EncodePairs(env, w, v, [])) by {
      assert [k][1..] == [];
    }
    assert EncodeCount(env, 1) == Encoded([130]);
  }
}
