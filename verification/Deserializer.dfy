/** The reader as an object with a cursor (src/6model/serialization.c): its methods are proved
    against the functions of Places and Values. */
module Deserializer {
  import opened Wrappers
  import opened Bytes
  import opened IntCode
  import opened Codes
  import opened Packing
  import opened Tables
  import opened Places
  import opened Values
  import opened Parts
  import opened Serialize
  import opened Lexicals

  /** What was read before, and what is left to read, make up the whole. */
  ghost predicate ReadsOn<T(!new)>(all: Parsed<seq<T>>, sofar: seq<T>, rest: Parsed<seq<T>>) {
    && all.Bad? == rest.Bad?
    && (all.Parsed? ==> all.value == sofar + rest.value && all.end == rest.end)
  }

  /** The same for lexicals, of which there are n left to read. */
  ghost predicate LexicalsLeft(
    all: Parsed<seq<Lexical>>, sofar: seq<Lexical>, env: World, t: Tables, types: Types, b: seq<Byte>, p: nat, n: int)
  {
    ReadsOn(all, sofar, ReadLexicals(env, t, types, b, p, n))
  }

  lemma NextLexical(
    all: Parsed<seq<Lexical>>, sofar: seq<Lexical>, env: World, t: Tables, types: Types, b: seq<Byte>, p: nat, n: int)
    requires LexicalsLeft(all, sofar, env, t, types, b, p, n) && n > 0
    ensures match ReadLexical(env, t, types, b, p)
            case Parsed(l, end) => LexicalsLeft(all, sofar + [l], env, t, types, b, end, n - 1)
            case Bad => all.Bad?
  {
    var l := ReadLexical(env, t, types, b, p);
    if l.Parsed? {
      var rest := ReadLexicals(env, t, types, b, l.end, n - 1);
      if rest.Parsed? { assert sofar + ([l.value] + rest.value) == (sofar + [l.value]) + rest.value; }
    }
  }

  class SerializationReader {
    const env: World
    const t: Tables
    const data: seq<Byte>   // from *cur_read_buffer to *cur_read_end
    var offset: nat         // *cur_read_offset

    constructor (env: World, t: Tables, data: seq<Byte>, offset: nat)
      ensures this.env == env && this.t == t && this.data == data && this.offset == offset
    {
      this.env, this.t, this.data, this.offset := env, t, data, offset;
    }

    /** What a reading method does: the value, and the cursor after it; or an exception. */
    ghost predicate Got<T(!new)>(p: Parsed<T>, r: Result<T>)
      reads this
    {
      match p
      case Parsed(v, end) => r == Ok(v) && offset == end
      case Bad => r == Err
    }

    method ReadCoded<T(!new)>(c: Coding<T>) returns (r: Result<T>)
      modifies this`offset
      ensures Got(c.dec(data, old(offset)), r)
    {
      var p := c.dec(data, offset);
      if p.Bad? {
        return Err;
      }
      offset := p.end;
      return Ok(p.value);
    }

    method ReadString() returns (r: Result<MString>)
      modifies this`offset
      ensures Got(ReadStr(env.codes.strs, t, data, old(offset)), r)
    {
      var i := ReadCoded(env.codes.strs);
      if i.Err? || i.value >= |t.heap| {
        return Err;
      }
      return Ok(t.heap[i.value]);
    }

    method ReadItem(k: Kind) returns (r: Result<nat>)
      modifies this`offset
      ensures Got(ReadLoc(env.codes.places, env.foreign, t, k, data, old(offset)), r)
    {
      var place := ReadCoded(env.codes.places);
      if place.Err? {
        return Err;
      }
      var sc := LocateSc(t, place.value.id);
      if sc.Err? {
        return Err;
      }
      return Lookup(env.foreign, t, k, Loc(sc.value, place.value.idx));
    }

    method ReadElems() returns (r: Result<int>)
      modifies this`offset
      ensures Got(ReadCount(env.codes.ints, data, old(offset)), r)
    {
      var v := ReadCoded(env.codes.ints);
      if v.Err? {
        return Err;
      }
      return Ok(Signed(v.value % WORD, WORD));
    }

    method ReadArrayInt(n: int) returns (r: Result<seq<Int64>>)
      modifies this`offset
      ensures Got(ReadInts(env.codes.ints, data, old(offset), n), r)
    {
      var ns: seq<Int64> := [];
      var count := if n > 0 then n else 0;
      ghost var all := ReadInts(env.codes.ints, data, offset, n);
      for i := 0 to count
        invariant ReadsOn(all, ns, ReadInts(env.codes.ints, data, offset, n - i))
      {
        var x := ReadCoded(env.codes.ints);
        if x.Err? {
          return Err;
        }
        ns := ns + [x.value];
      }
      assert ns + [] == ns;
      return Ok(ns);
    }

    method ReadArrayStr(n: int) returns (r: Result<seq<MString>>)
      modifies this`offset
      ensures Got(ReadStrs(env.codes.strs, t, data, old(offset), n), r)
    {
      var ss: seq<MString> := [];
      var count := if n > 0 then n else 0;
      ghost var all := ReadStrs(env.codes.strs, t, data, offset, n);
      for i := 0 to count
        invariant ReadsOn(all, ss, ReadStrs(env.codes.strs, t, data, offset, n - i))
      {
        var x := ReadString();
        if x.Err? {
          return Err;
        }
        ss := ss + [x.value];
      }
      assert ss + [] == ss;
      return Ok(ss);
    }

    method ReadArrayVar(n: int) returns (r: Result<seq<Value>>)
      modifies this`offset
      ensures Got(ReadRefs(env, t, data, old(offset), n), r)
      decreases Left(data, offset), 2, 0
    {
      var vs: seq<Value> := [];
      var count := if n > 0 then n else 0;
      ghost var all := ReadRefs(env, t, data, offset, n);
      for i := 0 to count
        invariant offset >= old(offset) && ReadsOn(all, vs, ReadRefs(env, t, data, offset, n - i))
      {
        var x := ReadReference();
        if x.Err? {
          return Err;
        }
        vs := vs + [x.value];
      }
      assert vs + [] == vs;
      return Ok(vs);
    }

    method ReadKeyAndValue() returns (r: Result<(string, Value)>)
      modifies this`offset
      ensures Got(ReadPair(env, t, data, old(offset)), r)
      decreases Left(data, offset), 2, 0
    {
      var k := ReadString();
      if k.Err? {
        return Err;
      }
      var v := ReadReference();
      if v.Err? || k.value.None? {
        return Err;
      }
      return Ok((k.value.value, v.value));
    }

    method ReadHash(n: int) returns (r: Result<map<string, Value>>)
      modifies this`offset
      ensures Got(ReadPairs(env, t, data, old(offset), n, map[]), r)
      decreases Left(data, offset), 3, 0
    {
      var m: map<string, Value> := map[];
      var count := if n > 0 then n else 0;
      ghost var all := ReadPairs(env, t, data, offset, n, map[]);
      for i := 0 to count
        invariant offset >= old(offset) && all == ReadPairs(env, t, data, offset, n - i, m)
      {
        var kv := ReadKeyAndValue();
        if kv.Err? {
          return Err;
        }
        m := m[kv.value.0 := kv.value.1];
      }
      return Ok(m);
    }

    method ReadAfterTag(tag: int) returns (r: Result<Value>)
      modifies this`offset
      ensures Got(ReadBody(env, t, tag, data, old(offset)), r)
      decreases Left(data, offset), 4, 0
    {
      match tag {
        case 1 => return Ok(Null);
        case 2 =>
          var o := ReadItem(Objects);
          return if o.Err? then Err else Ok(Obj(o.value));
        case 3 => return Ok(VmNull);
        case 4 =>
          var i := ReadCoded(env.codes.ints);
          return if i.Err? then Err else Ok(Int(i.value));
        case 5 =>
          var x := ReadCoded(env.codes.nums);
          return if x.Err? then Err else Ok(Num(x.value));
        case 6 =>
          var s := ReadString();
          return if s.Err? then Err else Ok(Str(s.value));
        case 13 =>
          var s := ReadString();
          return if s.Err? || s.value.None? then Err else Ok(ScRef(s.value.value));
        case 11 =>
          var c := ReadItem(Codes);
          return if c.Err? then Err else Ok(Code(c.value));
        case 12 =>
          var c := ReadItem(Codes);
          return if c.Err? then Err else Ok(Code(c.value));
        case _ =>
          r := ReadCollection(tag);
      }
    }

    method ReadCollection(tag: int) returns (r: Result<Value>)
      requires tag !in {1, 2, 3, 4, 5, 6, 11, 12, 13}
      modifies this`offset
      ensures Got(ReadBody(env, t, tag, data, old(offset)), r)
      decreases Left(data, offset), 3, 1
    {
      match tag {
        case 7 =>
          var n := ReadElems();
          if n.Err? {
            return Err;
          }
          var vs := ReadArrayVar(n.value);
          return if vs.Err? then Err else Ok(ArrVar(vs.value));
        case 8 =>
          var n := ReadElems();
          if n.Err? {
            return Err;
          }
          var ss := ReadArrayStr(n.value);
          return if ss.Err? then Err else Ok(ArrStr(ss.value));
        case 9 =>
          var n := ReadCoded(env.codes.ints);
          if n.Err? {
            return Err;
          }
          var ns := ReadArrayInt(n.value);
          return if ns.Err? then Err else Ok(ArrInt(ns.value));
        case 10 =>
          var n := ReadElems();
          if n.Err? {
            return Err;
          }
          var m := ReadHash(n.value);
          return if m.Err? then Err else Ok(Hash(m.value));
        case _ => return Err;
      }
    }

    /** `MVM_serialization_read_ref`. */
    method ReadReference() returns (r: Result<Value>)
      modifies this`offset
      ensures Got(ReadRef(env, t, data, old(offset)), r)
      decreases Left(data, offset), 1, 0
    {
      if offset >= |data| {
        return Err;
      }
      var tag := data[offset];
      offset := offset + 1;
      r := ReadAfterTag(tag);
    }

    // ----- bodies

    method ReadSomeBytes() returns (r: Result<seq<Byte>>)
      modifies this`offset
      ensures Got(ReadBytes(env.codes.ints, data, old(offset)), r)
    {
      var n := ReadCoded(env.codes.ints);
      if n.Err? || n.value < 0 || n.value >= LIMIT || offset + n.value > |data| {
        return Err;
      }
      r := Ok(data[offset..offset + n.value]);
      offset := offset + n.value;
    }

    method ReadOnePart(x: Expected) returns (r: Result<Part>)
      modifies this`offset
      ensures Got(ReadPart(env, t, x, data, old(offset)), r)
    {
      match x {
        case AnAnyRef =>
          var v := ReadReference();
          return if v.Err? then Err else Ok(AnyRef(v.value));
        case AnItem(k) =>
          var id := ReadItem(k);
          return if id.Err? then Err else Ok(ItemRef(Ref(k, id.value)));
        case AnInt =>
          var i := ReadCoded(env.codes.ints);
          return if i.Err? then Err else Ok(RawInt(i.value));
        case ANum =>
          var bits := ReadCoded(env.codes.nums);
          return if bits.Err? then Err else Ok(RawNum(bits.value));
        case AStr =>
          var s := ReadString();
          return if s.Err? then Err else Ok(RawStr(s.value));
        case AByte =>
          if offset >= |data| {
            return Err;
          }
          r := Ok(RawByte(data[offset]));
          offset := offset + 1;
        case SomeBytes =>
          var bytes := ReadSomeBytes();
          return if bytes.Err? then Err else Ok(RawBytes(bytes.value));
      }
    }

    method ReadOneLexical(types: Types) returns (r: Result<Lexical>)
      modifies this`offset
      ensures Got(ReadLexical(env, t, types, data, old(offset)), r)
    {
      var name := ReadString();
      if name.Err? || name.value !in types {
        return Err;
      }
      var v := ReadOnePart(types[name.value]);
      return if v.Err? then Err else Ok(Lexical(name.value, v.value));
    }

    method ReadManyLexicals(types: Types, n: int) returns (r: Result<seq<Lexical>>)
      modifies this`offset
      ensures Got(ReadLexicals(env, t, types, data, old(offset), n), r)
    {
      var ls: seq<Lexical> := [];
      var count := if n > 0 then n else 0;
      ghost var all := ReadLexicals(env, t, types, data, offset, n);
      for i := 0 to count
        invariant LexicalsLeft(all, ls, env, t, types, data, offset, n - i)
      {
        ghost var before := offset;
        var l := ReadOneLexical(types);
        NextLexical(all, ls, env, t, types, data, before, n - i);
        if l.Err? {
          return Err;
        }
        ls := ls + [l.value];
      }
      assert ls + [] == ls;
      return Ok(ls);
    }

    /** The lexicals of a frame. */
    method ReadFrameLexicals(types: Types) returns (r: Result<seq<Lexical>>)
      modifies this`offset
      ensures Got(ReadFrame(env, t, types, data, old(offset)), r)
    {
      var n := ReadCoded(env.codes.ints);
      if n.Err? {
        return Err;
      }
      r := ReadManyLexicals(types, n.value);
    }
  }
}
