/** The arrays behind the root lists and how they grow (src/6model/sc.c, src/core/alloc.h). */
module RootTables {
  import opened Bytes

  /** A pointer of eight bytes. */
  type Address = x: int | 0 < x < 0x1_0000_0000_0000_0000 witness 1

  /** What a place in memory holds: nothing, an item, or bytes that are no pointer to an item
      (never written, or cleared in part). */
  datatype Slot = Null | Item(at: Address) | Garbage

  /** What a place holds after its bytes from the k-th on were cleared, the lowest coming first. */
  function Cut(x: Slot, k: nat): Slot {
    match x
    case Null => Null
    case Item(at) => if at < Pow256(k) then x else if at % Pow256(k) == 0 then Null else Garbage
    case Garbage => Garbage
  }

  /** `MVM_recalloc` on pointers of eight bytes: what lies after the first `oldSize` bytes is
      cleared. */
  function Recalloc(s: seq<Slot>, oldSize: nat, n: nat): (r: seq<Slot>)
    requires |s| <= n
    ensures |r| == n
  {
    seq(n, i requires 0 <= i < n =>
      if 8 * i >= oldSize then Null
      else if i >= |s| then Garbage
      else if 8 * (i + 1) <= oldSize then s[i]
      else Cut(s[i], oldSize - 8 * i))
  }

  /** Told the right size, it keeps all there was. */
  lemma RecallocKeeps(s: seq<Slot>, n: nat)
    requires |s| <= n
    ensures Recalloc(s, 8 * |s|, n)[..|s|] == s && forall i | |s| <= i < n :: Recalloc(s, 8 * |s|, n)[i] == Null
  {}

  /** Whether the items among the first `num` are all where they were. */
  ghost predicate ItemsKept(s: seq<Slot>, s': seq<Slot>, num: nat) {
    num <= |s| && num <= |s'| && forall i | 0 <= i < num :: s[i].Item? ==> s'[i] == s[i]
  }

  /** An item is within the first `size` bytes, or the part of its address beyond them is zero. */
  predicate Survives(x: Slot, i: nat, size: nat) {
    x.Item? ==> 8 * (i + 1) <= size || (8 * i < size && x.at < Pow256(size - 8 * i))
  }

  /** Told the number of entries in place of their size in bytes, it keeps all items exactly if
      they lie in the first eighth; of the one that straddles its end, the address has to do with
      fewer bytes. */
  lemma RecallocByCount(s: seq<Slot>, num: nat, n: nat)
    requires num <= |s| <= n
    ensures ItemsKept(s, Recalloc(s, |s|, n), num) <==> forall i | 0 <= i < num :: Survives(s[i], i, |s|)
  {
    var r := Recalloc(s, |s|, n);
    if i :| 0 <= i < num && !Survives(s[i], i, |s|) {
      assert r[i] != s[i];
    }
    if forall i | 0 <= i < num :: Survives(s[i], i, |s|) {
      forall i | 0 <= i < num && s[i].Item? ensures r[i] == s[i] {
        assert Survives(s[i], i, |s|);
      }
    }
  }

  class RootTable {
    var roots: array<Slot>   // its length is the number of entries allocated
    var num: nat

    ghost predicate Valid()
      reads this
    {
      num <= roots.Length
    }

    ghost function Contents(): seq<Slot>
      requires Valid()
      reads this, roots
    {
      roots[..num]
    }

    constructor ()
      ensures Valid() && Contents() == [] && roots.Length == 0 && fresh(roots)
    {
      roots := new Slot[0];
      num := 0;
    }

    /** A context that is deserialized has as many entries as it needs, all empty. */
    constructor Preallocated(n: nat)
      ensures Valid() && num == roots.Length == n && fresh(roots)
      ensures forall i | 0 <= i < n :: Contents()[i] == Null
    {
      roots := new Slot[n](_ => Null);
      num := n;
    }

    method Reallocate(oldSize: nat, n: nat)
      requires roots.Length <= n
      modifies this`roots
      ensures fresh(roots) && roots[..] == Recalloc(old(roots[..]), oldSize, n)
    {
      var s := roots[..];
      var r := Recalloc(s, oldSize, n);
      roots := new Slot[n](i requires 0 <= i < n => r[i]);
      assert roots[..] == r;
    }

    /** `MVM_sc_set_object_no_update`, for an index that is not negative: what was there before
        stays, and places skipped over are empty. */
    method SetObject(idx: nat, x: Address)
      requires Valid() && forall i | num <= i < roots.Length :: roots[i] == Null
      modifies this, roots
      ensures Valid() && num == if idx < old(num) then old(num) else idx + 1
      ensures forall i | 0 <= i < num ::
                Contents()[i] == if i == idx then Item(x) else if i < old(num) then old(Contents())[i] else Null
      ensures forall i | num <= i < roots.Length :: roots[i] == Null
      ensures roots == old(roots) || fresh(roots)
    {
      if idx < num {
        roots[idx] := Item(x);
      } else {
        if idx >= roots.Length {
          var n := if roots.Length * 2 < idx + 1 then idx + 1 else roots.Length * 2;
          ghost var s := roots[..];
          RecallocKeeps(s, n);
          Reallocate(8 * roots.Length, n);
          assert forall i | 0 <= i < |s| :: roots[i] == roots[..][..|s|][i];
        }
        roots[idx] := Item(x);
        num := idx + 1;
      }
    }

    /** `MVM_sc_push_stable`: `MVM_realloc` says nothing about the new entries. */
    method PushStable(x: Address)
      requires Valid()
      modifies this, roots
      ensures Valid() && Contents() == old(Contents()) + [Item(x)]
      ensures roots.Length == if old(num) == old(roots.Length) then old(num) + 16 else old(roots.Length)
      ensures roots == old(roots) || fresh(roots)
    {
      if num == roots.Length {
        var s := roots[..];
        roots := new Slot[num + 16](i => if 0 <= i < |s| then s[i] else Garbage);
        assert roots[..num] == s;
      }
      roots[num] := Item(x);
      num := num + 1;
    }

    /** `MVM_sc_set_stable`, for an index that is not negative: it passes `MVM_recalloc` a number
        of entries for a size in bytes, so a table that has to grow keeps its items exactly if
        they all survive in the first eighth of it. */
    method SetStable(idx: nat, x: Address)
      requires Valid()
      modifies this, roots
      ensures Valid() && num == (if idx < old(num) then old(num) else idx + 1) && Contents()[idx] == Item(x)
      ensures idx < old(roots.Length) ==>
                forall i | 0 <= i < old(num) && i != idx :: Contents()[i] == old(Contents())[i]
      ensures idx >= old(roots.Length) ==>
                (ItemsKept(old(Contents()), Contents(), old(num))
                 <==> forall i | 0 <= i < old(num) :: Survives(old(Contents())[i], i, old(roots.Length)))
      ensures roots == old(roots) || fresh(roots)
    {
      if idx < num {
        roots[idx] := Item(x);
      } else {
        if idx >= roots.Length {
          var n := if roots.Length + 32 < idx + 1 then idx + 1 else roots.Length + 32;
          ghost var s := roots[..];
          RecallocByCount(s, num, n);
          Reallocate(roots.Length, n);
        }
        ghost var r := roots[..];
        roots[idx] := Item(x);
        num := idx + 1;
        assert forall i | 0 <= i < old(num) :: Contents()[i] == r[i];
        assert forall i | 0 <= i < old(num) :: old(Contents())[i] == old(roots[..])[i];
      }
    }
  }

  /** Thirty-two STables, and one more set after them: not all of them are still there. */
  method GrowingLosesItems() returns (before: seq<Slot>, after: seq<Slot>)
    ensures |before| == 32 && |after| == 33 && (forall i | 0 <= i < 32 :: before[i] == Item(i + 1))
    ensures !ItemsKept(before, after, 32)
  {
    var t := new RootTable();
    for i := 0 to 32
      invariant t.Valid() && fresh(t) && fresh(t.roots) && t.num == i
      invariant t.roots.Length == if i == 0 then 0 else if i <= 16 then 16 else 32
      invariant forall j | 0 <= j < i :: t.Contents()[j] == Item(j + 1)
    {
      t.PushStable(i + 1);
    }
    before := t.roots[..];
    assert t.Contents() == before && !Survives(before[4], 4, 32);
    t.SetStable(32, 33);
    after := t.roots[..t.num];
  }

  /** Six empty entries, an item with an address of six bytes in the first one, and one more set
      after them: the item straddles the end of what is kept, and is still there. */
  method GrowingKeepsFirst(x: Address, y: Address) returns (after: seq<Slot>)
    requires x < 0x1_0000_0000_0000
    ensures |after| == 7 && after[0] == Item(x) && after[6] == Item(y)
  {
    var t := new RootTable.Preallocated(6);
    t.SetStable(0, x);
    ghost var before := t.Contents();
    Widths();
    forall i | 0 <= i < 6 ensures Survives(before[i], i, 6) {
      assert i == 0 ==> Pow256(6 - 8 * i) == 0x1_0000_0000_0000;
      assert i > 0 ==> before[i] == Null;
    }
    t.SetStable(6, y);
    after := t.roots[..t.num];
    assert before[0].Item? && after == t.Contents();
  }
}
