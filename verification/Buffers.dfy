/** The writer's growing buffer and the reader's cursor, updated in place. */
module Buffers {
  import opened Bytes
  import opened Wrappers
  import opened IntCode

  /** `expand_storage_if_needed` doubles the limit once. */
  function Grown(limit: nat, offset: nat, need: nat): nat {
    if offset + need > limit then 2 * limit else limit
  }

  /** So it makes room at every fill level exactly when a single item fits the old limit. */
  lemma DoublingOnceSuffices(limit: nat, need: nat)
    ensures (forall offset: nat :: offset <= limit ==> offset + need <= Grown(limit, offset, need)) <==> need <= limit
  {
    if need > limit { assert limit + need > Grown(limit, limit, need); }
  }

  /** Whether some write of a sequence has no room, from a limit and a fill level. */
  predicate Overruns(limit: nat, offset: nat, needs: seq<nat>)
    decreases |needs|
  {
    needs != [] &&
    (offset + needs[0] > Grown(limit, offset, needs[0])
     || Overruns(Grown(limit, offset, needs[0]), offset + needs[0], needs[1..]))
  }

  predicate AllAtMost(needs: seq<nat>, n: nat) {
    forall i | 0 <= i < |needs| :: needs[i] <= n
  }

  lemma {:induction false} SmallWritesFit(limit: nat, offset: nat, needs: seq<nat>)
    requires offset <= limit && AllAtMost(needs, limit)
    ensures !Overruns(limit, offset, needs)
    decreases |needs|
  {
    if needs != [] { SmallWritesFit(Grown(limit, offset, needs[0]), offset + needs[0], needs[1..]); }
  }

  function Ones(k: nat): (r: seq<nat>)
    ensures |r| == k && AllAtMost(r, 1)
  {
    seq(k, _ => 1)
  }

  lemma {:induction false} FullThenLarge(limit: nat, k: nat, need: nat)
    requires k <= limit < need
    ensures Overruns(limit, limit - k, Ones(k) + [need])
    decreases k
  {
    if k > 0 {
      FullThenLarge(limit, k - 1, need);
      assert (Ones(k) + [need])[1..] == Ones(k - 1) + [need];
    }
  }

  /** However many writes come after one another, none has too little room, if and only if the
      largest of them fits the first limit. */
  lemma WritesFitIff(limit: nat, need: nat)
    ensures (forall needs | AllAtMost(needs, need) :: !Overruns(limit, 0, needs)) <==> need <= limit
  {
    if need <= limit {
      forall needs | AllAtMost(needs, need) ensures !Overruns(limit, 0, needs) {
        assert AllAtMost(needs, limit);
        SmallWritesFit(limit, 0, needs);
      }
    } else {
      FullThenLarge(limit, limit, need);
      assert AllAtMost(Ones(limit) + [need], need);
    }
  }

  function Joined(chunks: seq<seq<Byte>>): seq<Byte> {
    if chunks == [] then [] else Joined(chunks[..|chunks| - 1]) + chunks[|chunks| - 1]
  }

  class WriteBuffer {
    var data: array<Byte>   // *cur_write_buffer; its length is *cur_write_limit
    var offset: nat         // *cur_write_offset

    ghost predicate Valid()
      reads this
    {
      offset <= data.Length
    }

    ghost function Contents(): seq<Byte>
      requires Valid()
      reads this, data
    {
      data[..offset]
    }

    constructor (size: nat)
      ensures Valid() && Contents() == [] && data.Length == size && fresh(data)
    {
      data := new Byte[size](_ => 0);
      offset := 0;
    }

    method Expand(need: nat)
      requires Valid()
      modifies this`data
      ensures Valid() && Contents() == old(Contents())
      ensures data.Length == Grown(old(data.Length), offset, need)
      ensures data == old(data) || fresh(data)
    {
      if offset + need > data.Length {
        var wider := new Byte[2 * data.Length](_ => 0);
        for i := 0 to offset
          invariant Valid() && wider != data && data == old(data)
          invariant wider[..i] == old(data[..i])
        {
          wider[i] := data[i];
        }
        data := wider;
      }
    }

    /** `memcpy` of the low bytes of a number. */
    method PutLE(at: nat, v: int, k: nat)
      requires at + k <= data.Length
      modifies data
      ensures data[..at] == old(data[..at]) && data[at..at + k] == LE(v, k)
    {
      var w := v;
      for i := 0 to k
        invariant data[..at] == old(data[..at])
        invariant data[at..at + i] + LE(w, k - i) == LE(v, k)
      {
        ghost var before := data[at..at + i];
        data[at + i] := w % 256;
        assert data[at..at + i + 1] == before + [w % 256];
        w := w / 256;
      }
    }

    /** `MVM_serialization_write_int`; the precondition is exactly that the buffer, doubled
        at most once, has room. */
    method WriteInt(v: Int64)
      requires Valid() && offset + IntSize(v) <= 2 * data.Length
      modifies this, data
      ensures Valid() && Contents() == old(Contents()) + EncodeInt(v)
      ensures data.Length == Grown(old(data.Length), old(offset), IntSize(v))
      ensures data == old(data) || fresh(data)
    {
      var n := IntSize(v);
      Expand(n);
      if n == 1 {
        PutCoded(v, v + 129, 0);
      } else {
        PutCoded(v, Lead(v, n), n - 1);
      }
    }

    /** `expand_storage_if_needed`, and then what there was to make room for. */
    method Append(chunk: seq<Byte>)
      requires Valid() && offset + |chunk| <= 2 * data.Length
      modifies this, data
      ensures Valid() && Contents() == old(Contents()) + chunk
      ensures data.Length == Grown(old(data.Length), old(offset), |chunk|)
      ensures data == old(data) || fresh(data)
    {
      Expand(|chunk|);
      ghost var before := data[..offset];
      ghost var room := data;
      for i := 0 to |chunk|
        invariant offset == old(offset) && offset + |chunk| <= data.Length && data == room
        invariant data[..offset + i] == before + chunk[..i]
      {
        data[offset + i] := chunk[i];
        assert data[..offset + i + 1] == data[..offset + i] + [chunk[i]];
      }
      offset := offset + |chunk|;
    }

    /** Any number of writes, each of which fits the limit there is at first. */
    method AppendAll(chunks: seq<seq<Byte>>)
      requires Valid() && forall i | 0 <= i < |chunks| :: |chunks[i]| <= data.Length
      modifies this, data
      ensures Valid() && Contents() == old(Contents()) + Joined(chunks)
    {
      for i := 0 to |chunks|
        invariant Valid() && data.Length >= old(data.Length) && (data == old(data) || fresh(data))
        invariant Contents() == old(Contents()) + Joined(chunks[..i])
      {
        Append(chunks[i]);
        assert chunks[..i + 1][..i] == chunks[..i];
      }
      assert chunks[..|chunks|] == chunks;
    }

    /** A lead byte and the low bytes that follow it. */
    method PutCoded(v: int, lead: Byte, k: nat)
      requires Valid() && offset + 1 + k <= data.Length
      modifies this`offset, data
      ensures Valid() && Contents() == old(Contents()) + ([lead] + LE(v, k))
    {
      data[offset] := lead;
      PutLE(offset + 1, v, k);
      assert data[..offset + 1] == old(data[..offset]) + [lead];
      offset := offset + 1 + k;
      assert data[..offset] == data[..old(offset) + 1] + data[old(offset) + 1..offset];
    }
  }

  /** The object data of a context with at most one root starts with eight bytes
      (`OBJECT_SIZE_GUESS`). Eight small integers fill them, and then there is one byte too few for
      a nine-byte integer. */
  method SmallestBufferOverruns() returns (limit: nat, offset: nat)
    ensures exists v: Int64 :: IntSize(v) == 9 && offset + IntSize(v) > Grown(limit, offset, IntSize(v))
  {
    var b := new WriteBuffer(8);
    for i := 0 to 8
      invariant b.Valid() && fresh(b) && fresh(b.data) && b.offset == i && b.data.Length == 8
    {
      assert |b.Contents()| == i && IntSize(0) == 1;
      b.WriteInt(0);
      assert |b.Contents()| == i + 1;
    }
    limit, offset := b.data.Length, b.offset;
    assert IntSize(0x7FFF_FFFF_FFFF_FFFF) == 9;
  }

  lemma SliceOfSlice(b: seq<Byte>, p: nat, n: nat, i: nat, j: nat)
    requires i <= j <= n && p + n <= |b|
    ensures b[p..p + n][i..j] == b[p + i..p + j]
  {
    var a, c := b[p..p + n][i..j], b[p + i..p + j];
    forall k | 0 <= k < |a| ensures a[k] == c[k] { assert a[k] == b[p..p + n][i + k]; }
  }

  class ReadBuffer {
    const data: seq<Byte>   // from *cur_read_buffer to *cur_read_end
    var offset: nat         // *cur_read_offset

    constructor (data: seq<Byte>, offset: nat)
      ensures this.data == data && this.offset == offset
    {
      this.data, this.offset := data, offset;
    }

    /** Piecing a value together from its bytes, the highest first. */
    method Piece(at: nat, k: nat, top: int) returns (value: int)
      requires at + k <= |data|
      ensures value == Join(data[at..at + k], top)
    {
      value := top;
      for i := k downto 0
        invariant value == Join(data[at + i..at + k], top)
      {
        assert data[at + i..at + k][1..] == data[at + i + 1..at + k];
        value := data[at + i] + 256 * value;
      }
    }

    /** `MVM_serialization_read_int`. */
    method ReadInt() returns (r: Result<Int64>)
      modifies this`offset
      ensures match DecodeInt(data, old(offset))
              case Parsed(v, end) => r == Ok(v) && offset == end
              case Bad => r == Err && offset == old(offset)
    {
      if offset >= |data| {
        return Err;
      }
      var n := FormSize(data[offset]);
      if offset + n > |data| {
        return Err;
      }
      ghost var form := data[offset..offset + n];
      if n == 1 {
        r := Ok(Small(data[offset]));
      } else if n == 9 {
        SliceOfSlice(data, offset, n, 1, 8);
        assert form[8] == data[offset + 8];
        var v := Piece(offset + 1, 7, Signed(data[offset + 8], 256));
        assert v == FormValue(form);
        r := Ok(v);
      } else {
        SliceOfSlice(data, offset, n, 1, n);
        var v := Piece(offset + 1, n - 1, Signed(data[offset] % 16, 16));
        assert v == FormValue(form);
        r := Ok(v);
      }
      offset := offset + n;
    }
  }
}
