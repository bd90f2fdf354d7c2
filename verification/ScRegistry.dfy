/** Contexts, updated in place (src/6model/sc.c, src/6model/sc.h): the methods are proved against
    the operations of ScRoots. */
module ScRegistry {
  import opened Wrappers
  import opened ScRoots

  class Registry {
    const comp: nat             // the context that is being compiled
    const aggregates: set<nat>  // the arrays and hashes among the objects
    var marks: map<Item, Mark>
    var roots: map<nat, Roots>
    var owned: map<nat, seq<(nat, nat)>>

    ghost function View(): Contexts
      reads this
    {
      Contexts(marks, roots, owned)
    }

    constructor (comp: nat, aggregates: set<nat>)
      ensures this.comp == comp && this.aggregates == aggregates && View() == START
    {
      this.comp, this.aggregates := comp, aggregates;
      marks, roots, owned := map[], map[], map[];
    }

    method GetMark(x: Item) returns (m: Mark)
      ensures m == MarkOf(View(), x)
    {
      m := if x in marks then marks[x] else Mark(0, Some(0));
    }

    method GetRoots(sc: nat) returns (r: Roots)
      ensures r == RootsOf(View(), sc)
    {
      r := if sc in roots then roots[sc] else Roots([], [], [], []);
    }

    /** `MVM_sc_find_object_idx` and `MVM_sc_find_stable_idx`. */
    method FindIndex(sc: nat, x: Item) returns (r: Result<nat>)
      ensures r == FindIdx(View(), sc, x)
    {
      var m := GetMark(x);
      if m.idx.Some? && m.sc == sc {
        return Ok(m.idx.value);
      }
      var s := GetRoots(sc);
      var l := if x.kind == Objects then s.objects else s.stables;
      r := Search(l, x.id);
    }

    method Search(l: seq<Option<nat>>, id: nat) returns (r: Result<nat>)
      ensures r == Scan(l, id)
    {
      for i := 0 to |l|
        invariant forall j | 0 <= j < i :: l[j] != Some(id)
      {
        if l[i] == Some(id) {
          return Ok(i);
        }
      }
      return Err;
    }

    /** `MVM_sc_set_object_no_update` or its like, then the marks. */
    method Store(sc: nat, i: nat, x: Item, idx: Option<nat>)
      modifies this`roots, this`marks
      ensures View() == Put(old(View()), sc, i, x, idx)
    {
      var r := GetRoots(sc);
      var l := if x.kind == Objects then r.objects else r.stables;
      if i < |l| {
        l := l[i := Some(x.id)];
      } else {
        l := l + Nulls(i - |l|) + [Some(x.id)];
      }
      r := if x.kind == Objects then r.(objects := l) else r.(stables := l);
      roots := roots[sc := r];
      marks := marks[x := Mark(sc, None)];
      if idx.Some? {
        marks := marks[x := Mark(sc, idx)];
      }
    }

    /** Taking in an item without a context: `MVM_sc_push_object` or `MVM_sc_push_stable` after
        the mark was set. */
    method Claim(sc: nat, x: Item)
      modifies this`roots, this`marks
      ensures View() == Do(old(View()), comp, aggregates, Op.Claim(sc, x))
    {
      var r := GetRoots(sc);
      var n := if x.kind == Objects then |r.objects| else |r.stables|;
      Store(sc, n, x, if x.kind == Objects then Some(n) else None);
    }

    method Repossession(x: Item)
      modifies this`roots, this`marks
      ensures View() == Repossess(old(View()), comp, x)
    {
      var m := GetMark(x);
      var r := GetRoots(comp);
      var slot := if x.kind == Objects then |r.objects| else |r.stables|;
      Store(comp, slot, x, Some(slot));
      r := GetRoots(comp);
      var rep := if x.kind == Objects then 2 * slot else 2 * slot + 1;
      roots := roots[comp := r.(repIndexes := r.repIndexes + [rep], repScs := r.repScs + [m.sc])];
    }

    /** Whom a hit is about: the search among the owned aggregates of the object's context. */
    method FindTarget(o: nat) returns (t: Option<nat>)
      ensures t == Target(View(), comp, aggregates, o)
    {
      if o !in aggregates {
        return Some(o);
      }
      var m := GetMark(Item(Objects, o));
      var pairs := if m.sc in owned then owned[m.sc] else [];
      for i := 0 to |pairs|
        invariant OwnerIn(pairs, o) == OwnerIn(pairs[i..], o)
      {
        if pairs[i].0 == o {
          var owner := GetMark(Item(Objects, pairs[i].1));
          if owner.sc == 0 || owner.sc == comp {
            return None;
          }
          return Some(pairs[i].1);
        }
        assert pairs[i..][1..] == pairs[i + 1..];
      }
      return None;
    }

    /** `MVM_SC_WB_OBJ` with `MVM_sc_wb_hit_obj`, and the like for STables. */
    method Hit(x: Item)
      modifies this`roots, this`marks
      ensures View() == Do(old(View()), comp, aggregates, Op.Hit(x))
    {
      var m := GetMark(x);
      if m.sc > 0 && m.sc != comp {
        if x.kind == Stables {
          Repossession(x);
        } else {
          var t := FindTarget(x.id);
          if t.Some? {
            Repossession(Item(Objects, t.value));
          }
        }
      }
    }

    /** `serialize_repossessions`: a row for every record, and none of the lookups throws. */
    method SerializeRepossessions() returns (rows: seq<RepRow>)
      requires Inv(View(), comp, aggregates)
      ensures |rows| == |RootsOf(View(), comp).repIndexes|
      ensures forall e | 0 <= e < |rows| :: RowOf(View(), comp, e) == Ok(rows[e])
    {
      var r := GetRoots(comp);
      rows := [];
      ghost var c := View();
      for e := 0 to |r.repIndexes|
        invariant |rows| == e && forall e' | 0 <= e' < e :: RowOf(c, comp, e') == Ok(rows[e'])
      {
        RowRecovers(c, comp, aggregates, e);
        var kind, slot := if r.repIndexes[e] % 2 == 1 then Stables else Objects, r.repIndexes[e] / 2;
        var l := if kind == Objects then r.objects else r.stables;
        var i := FindIndex(r.repScs[e], Item(kind, l[slot].value));
        rows := rows + [RepRow(kind, slot, r.repScs[e], i.value)];
      }
    }
  }
}
