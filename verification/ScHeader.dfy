/** The header of a collectable in the overflow build (src/6model/sc.h): two 16-bit fields, or a
    pointer to a record, stand for the number of a context and an index in it. */
module ScHeader {
  const UNSET: nat := 0xFFFF_FFFF      // ~0 in 32 bits
  const SENTINEL: nat := 0xFFFF        // MVM_DIRECT_SC_IDX_SENTINEL

  type UInt32 = x: int | 0 <= x < 0x1_0000_0000
  type UInt16 = x: int | 0 <= x < 0x1_0000

  /** What a header stands for; the index may be `UNSET`. */
  datatype Mark = Mark(sc: UInt32, idx: UInt32)

  /** The two setters on marks. */
  datatype Setter = SetSc(sc: UInt32) | SetIdx(idx: UInt32)

  function Apply(m: Mark, op: Setter): Mark {
    match op
    case SetSc(s) => Mark(s, UNSET)
    case SetIdx(i) => m.(idx := i)
  }

  function ApplyAll(m: Mark, ops: seq<Setter>): Mark
    decreases |ops|
  {
    if ops == [] then m else ApplyAll(Apply(m, ops[0]), ops[1..])
  }

  class SerializationIndex {
    var scIdx: UInt32
    var idx: UInt32

    constructor (scIdx: UInt32, idx: UInt32)
      ensures this.scIdx == scIdx && this.idx == idx
    {
      this.scIdx, this.idx := scIdx, idx;
    }
  }

  /** The union `sc_forward_u`. */
  datatype Union = Direct(scIdx: UInt16, idx: UInt16) | Sci(sci: SerializationIndex)

  class Collectable {
    var u: Union
    var overflowing: bool    // MVM_CF_SERIALZATION_INDEX_ALLOCATED
    ghost var Repr: set<object>

    ghost predicate Valid()
      reads this, Repr
    {
      && this in Repr && overflowing == u.Sci?
      && (u.Sci? ==> u.sci in Repr)
    }

    ghost function View(): Mark
      requires Valid()
      reads this, Repr
    {
      match u
      case Direct(s, i) => Mark(s, if i == SENTINEL then UNSET else i)
      case Sci(r) => Mark(r.scIdx, r.idx)
    }

    /** A collectable that is in no context. */
    constructor ()
      ensures Valid() && fresh(Repr) && View() == Mark(0, 0)
    {
      u, overflowing := Direct(0, 0), false;
      Repr := {this};
    }

    /** `MVM_sc_get_idx_of_sc`. */
    method GetScIdx() returns (s: UInt32)
      requires Valid()
      ensures s == View().sc
    {
      if overflowing {
        return u.sci.scIdx;
      }
      return u.scIdx;
    }

    /** `MVM_sc_get_idx_in_sc`. */
    method GetIdx() returns (i: UInt32)
      requires Valid()
      ensures i == View().idx
    {
      if overflowing {
        return u.sci.idx;
      }
      if u.idx == SENTINEL {
        return UNSET;
      }
      return u.idx;
    }

    method Overflow(s: UInt32, i: UInt32)
      requires Valid() && !overflowing
      modifies this
      ensures Valid() && fresh(Repr - old(Repr)) && View() == Mark(s, i)
    {
      var sci := new SerializationIndex(s, i);
      u, overflowing := Sci(sci), true;
      Repr := Repr + {sci};
    }

    /** `MVM_sc_set_idx_in_sc`. */
    method StoreIdx(i: UInt32)
      requires Valid()
      modifies Repr
      ensures Valid() && fresh(Repr - old(Repr)) && View() == Apply(old(View()), SetIdx(i))
      ensures View().idx == i && View().sc == old(View()).sc
    {
      if overflowing {
        u.sci.idx := i;
      } else if i >= SENTINEL {
        Overflow(u.scIdx, i);
      } else {
        u := Direct(u.scIdx, i);
      }
    }

    /** `MVM_sc_set_collectable_sc`, for the context with this number. */
    method StoreSc(s: UInt32)
      requires Valid()
      modifies Repr
      ensures Valid() && fresh(Repr - old(Repr)) && View() == Apply(old(View()), SetSc(s))
      ensures View().sc == s && View().idx == 0xFFFF_FFFF
    {
      if overflowing {
        u.sci.scIdx := s;
        u.sci.idx := UNSET;
      } else {
        u := Direct(s % 0x1_0000, u.idx);
        if u.scIdx != s {
          Overflow(s, UNSET);
        } else {
          u := Direct(u.scIdx, SENTINEL);
        }
      }
    }
  }

  /** The context that was set last, or none. */
  ghost predicate LastSc(ops: seq<Setter>, s: UInt32) {
    if exists n :: 0 <= n < |ops| && ops[n].SetSc?
    then exists n :: 0 <= n < |ops| && ops[n] == SetSc(s) && forall m | n < m < |ops| :: ops[m].SetIdx?
    else s == 0
  }

  /** The index is the one that was set last; setting the context unsets it. */
  ghost predicate LastIdx(ops: seq<Setter>, i: UInt32) {
    if ops == [] then i == 0
    else match ops[|ops| - 1]
      case SetIdx(x) => i == x
      case SetSc(_) => i == 0xFFFF_FFFF
  }

  lemma {:induction false} ApplyLast(m: Mark, ops: seq<Setter>)
    requires ops != []
    ensures ApplyAll(m, ops) == Apply(ApplyAll(m, ops[..|ops| - 1]), ops[|ops| - 1])
    decreases |ops|
  {
    if |ops| > 1 {
      ApplyLast(Apply(m, ops[0]), ops[1..]);
      assert ops[1..][..|ops| - 2] == ops[..|ops| - 1][1..];
    }
  }

  lemma {:induction false} LastCounts(ops: seq<Setter>)
    ensures LastSc(ops, ApplyAll(Mark(0, 0), ops).sc) && LastIdx(ops, ApplyAll(Mark(0, 0), ops).idx)
    decreases |ops|
  {
    if ops != [] {
      var n := |ops| - 1;
      var front := ops[..n];
      ApplyLast(Mark(0, 0), ops);
      LastCounts(front);
      if ops[n].SetSc? {
        assert ops[n] == SetSc(ops[n].sc);
      } else if exists k :: 0 <= k < |ops| && ops[k].SetSc? {
        var k :| 0 <= k < |ops| && ops[k].SetSc?;
        assert front[k].SetSc?;
        var s := ApplyAll(Mark(0, 0), front).sc;
        var k' :| 0 <= k' < |front| && front[k'] == SetSc(s) && forall m | k' < m < |front| :: front[m].SetIdx?;
        assert ops[k'] == SetSc(s);
        forall m | k' < m < |ops| ensures ops[m].SetIdx? { if m < n { assert front[m] == ops[m]; } }
      } else {
        assert forall k | 0 <= k < |front| :: front[k] == ops[k];
      }
    }
  }

  /** Any sequence of settings is seen through both getters as it would be on marks: the context and
      the index that were set last, and no index after the context was set. */
  method SetAll(ops: seq<Setter>) returns (s: UInt32, i: UInt32)
    ensures Mark(s, i) == ApplyAll(Mark(0, 0), ops)
    ensures LastSc(ops, s) && LastIdx(ops, i)
  {
    LastCounts(ops);
    var col := new Collectable();
    for n := 0 to |ops|
      invariant col.Valid() && fresh(col.Repr)
      invariant ApplyAll(col.View(), ops[n..]) == ApplyAll(Mark(0, 0), ops)
    {
      assert ops[n..][1..] == ops[n + 1..];
      match ops[n]
      case SetSc(x) => col.StoreSc(x);
      case SetIdx(x) => col.StoreIdx(x);
    }
    s := col.GetScIdx();
    i := col.GetIdx();
  }
}
