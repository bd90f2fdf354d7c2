/** Where the arguments of a call end up when they are flattened (src/core/args.c), place by place. */
module FlatteningPlaces {
  import opened Flattening

  // ----- where an argument's values begin

  /** How many positionals, and how many named values, the arguments before the i-th give. */
  function PosBefore(args: seq<Arg>, i: nat): nat
    requires i <= |args|
  {
    if i == 0 then 0
    else
      PosBefore(args, i - 1) + match args[i - 1]
        case Pos(_) => 1
        case FlatPos(list) => |list|
        case _ => 0
  }

  function NamedBefore(args: seq<Arg>, i: nat): nat
    requires i <= |args|
  {
    if i == 0 then 0
    else
      NamedBefore(args, i - 1) + match args[i - 1]
        case Named(_, _) => 1
        case FlatNamed(pairs) => |pairs|
        case _ => 0
  }

  /** A positional is where those before it leave off, and the elements of a flattened array are so
      one after another. */
  ghost predicate PosPlaced(args: seq<Arg>, i: nat, vs: seq<Value>)
    requires i < |args|
  {
    var p := PosBefore(args, i);
    match args[i]
    case Pos(v) => p < |vs| && vs[p] == v
    case FlatPos(list) => p + |list| <= |vs| && forall j | 0 <= j < |list| :: vs[p + j] == list[j]
    case _ => true
  }

  ghost predicate NamedPlaced(args: seq<Arg>, i: nat, ps: seq<Pair>)
    requires i < |args|
  {
    var p := NamedBefore(args, i);
    match args[i]
    case Named(n, v) => p < |ps| && ps[p] == Pair(n, v)
    case FlatNamed(pairs) => p + |pairs| <= |ps| && forall j | 0 <= j < |pairs| :: ps[p + j] == pairs[j]
    case _ => true
  }

  ghost predicate AllPosPlaced(args: seq<Arg>, vs: seq<Value>) {
    |vs| == PosBefore(args, |args|) && forall i | 0 <= i < |args| :: PosPlaced(args, i, vs)
  }

  ghost predicate AllNamedPlaced(args: seq<Arg>, ps: seq<Pair>) {
    |ps| == NamedBefore(args, |args|) && forall i | 0 <= i < |args| :: NamedPlaced(args, i, ps)
  }

  lemma {:induction false} BeforePrefix(args: seq<Arg>, n: nat, i: nat)
    requires i <= n <= |args|
    ensures PosBefore(args[..n], i) == PosBefore(args, i) && NamedBefore(args[..n], i) == NamedBefore(args, i)
    decreases i
  {
    if i > 0 { BeforePrefix(args, n, i - 1); }
  }

  lemma {:induction false} PosAreThere(args: seq<Arg>)
    ensures AllPosPlaced(args, AllPos(args))
  {
    if args != [] {
      var n := |args| - 1;
      var front := args[..n];
      PosAreThere(front);
      BeforePrefix(args, n, n);
      forall i | 0 <= i < |args| ensures PosPlaced(args, i, AllPos(args)) {
        BeforePrefix(args, n, i);
        if i < n { assert PosPlaced(front, i, AllPos(front)); }
      }
    }
  }

  lemma {:induction false} NamedAreThere(args: seq<Arg>)
    ensures AllNamedPlaced(args, AllPairs(args))
  {
    if args != [] {
      var n := |args| - 1;
      var front := args[..n];
      NamedAreThere(front);
      BeforePrefix(args, n, n);
      forall i | 0 <= i < |args| ensures NamedPlaced(args, i, AllPairs(args)) {
        BeforePrefix(args, n, i);
        if i < n { assert NamedPlaced(front, i, AllPairs(front)); }
      }
    }
  }

  // ----- names

  /** The place at which a name first occurs, and the one at which it last does. */
  ghost predicate FirstAt(ps: seq<Pair>, name: string, i: nat) {
    i < |ps| && ps[i].name == name && forall j | 0 <= j < i :: ps[j].name != name
  }

  ghost predicate LastAt(ps: seq<Pair>, name: string, i: nat) {
    i < |ps| && ps[i].name == name && forall j | i < j < |ps| :: ps[j].name != name
  }

  /** Every name that occurs is there once; names stand in the order in which they first occur, and
      each with the value and the type it has where it last occurs. */
  ghost predicate NamesPlaced(ps: seq<Pair>, names: seq<string>, values: seq<Value>) {
    && |values| == |names|
    && (forall i | 0 <= i < |ps| :: ps[i].name in names)
    && (forall a, b, i: nat, j: nat | 0 <= a < |names| && 0 <= b < |names|
          && FirstAt(ps, names[a], i) && FirstAt(ps, names[b], j) :: a < b <==> i < j)
    && (forall a | 0 <= a < |names| :: exists i: nat :: LastAt(ps, names[a], i) && ps[i].v == values[a])
  }

  /** The name at place a of the list first occurs somewhere. */
  lemma {:induction false} NameFirst(ps: seq<Pair>, a: nat) returns (i: nat)
    requires a < |Names(ps)|
    ensures FirstAt(ps, Names(ps)[a], i)
    decreases |ps|
  {
    var n := |ps| - 1;
    var front := ps[..n];
    if a < |Names(front)| {
      i := NameFirst(front, a);
      assert ps[i] == front[i];
    } else {
      i := n;
      NamesAre(front, ps[n].name);
      forall j | 0 <= j < n ensures ps[j].name != ps[n].name { assert front[j] == ps[j]; }
    }
  }

  lemma FirstOnce(ps: seq<Pair>, name: string, i: nat, j: nat)
    requires FirstAt(ps, name, i) && FirstAt(ps, name, j)
    ensures i == j
  {}

  /** An earlier name first occurs earlier. */
  lemma {:induction false} NamesAscend(ps: seq<Pair>, a: nat, b: nat, i: nat, j: nat)
    requires a < b < |Names(ps)| && FirstAt(ps, Names(ps)[a], i) && FirstAt(ps, Names(ps)[b], j)
    ensures i < j
    decreases |ps|
  {
    var n := |ps| - 1;
    var front := ps[..n];
    var i' := NameFirst(front, a);
    assert FirstAt(ps, Names(ps)[a], i');
    FirstOnce(ps, Names(ps)[a], i, i');
    if b < |Names(front)| {
      var j' := NameFirst(front, b);
      assert FirstAt(ps, Names(ps)[b], j');
      FirstOnce(ps, Names(ps)[b], j, j');
      NamesAscend(front, a, b, i, j);
    } else {
      NewNameIsLast(ps, j);
    }
  }

  lemma NewNameIsLast(ps: seq<Pair>, j: nat)
    requires ps != [] && |Names(ps)| > |Names(ps[..|ps| - 1])| && FirstAt(ps, ps[|ps| - 1].name, j)
    ensures j == |ps| - 1
  {
    var front := ps[..|ps| - 1];
    NamesAre(front, ps[|ps| - 1].name);
    forall k | 0 <= k < |front| ensures ps[k].name != ps[|ps| - 1].name { assert front[k] == ps[k]; }
  }

  lemma NamesInOrder(ps: seq<Pair>)
    ensures forall a, b, i: nat, j: nat | 0 <= a < |Names(ps)| && 0 <= b < |Names(ps)|
              && FirstAt(ps, Names(ps)[a], i) && FirstAt(ps, Names(ps)[b], j) :: a < b <==> i < j
  {
    forall a, b, i: nat, j: nat | 0 <= a < |Names(ps)| && 0 <= b < |Names(ps)|
      && FirstAt(ps, Names(ps)[a], i) && FirstAt(ps, Names(ps)[b], j)
      ensures a < b <==> i < j
    {
      if a < b {
        NamesAscend(ps, a, b, i, j);
      } else if b < a {
        NamesAscend(ps, b, a, j, i);
      }
    }
  }

  // ----- the whole call

  /** The call that is made, told from the arguments alone. */
  ghost predicate Placed(args: seq<Arg>, r: Record) {
    && AllPosPlaced(args, r.positionals)
    && exists ps: seq<Pair> :: AllNamedPlaced(args, ps) && NamesPlaced(ps, r.names, r.values)
  }

  lemma FlattensIsPlaced(args: seq<Arg>, r: Record)
    requires Flattens(args, r)
    ensures Placed(args, r)
  {
    var ps := AllPairs(args);
    PosAreThere(args);
    NamedAreThere(args);
    NamesInOrder(ps);
    forall i | 0 <= i < |ps| ensures ps[i].name in r.names { NamesAre(ps, ps[i].name); }
    forall a | 0 <= a < |r.names| ensures exists i: nat :: LastAt(ps, r.names[a], i) && ps[i].v == r.values[a] {
      LastValueIsLast(ps, r.names[a]);
      var i :| IsLast(ps, r.names[a], i) && ps[i].v == LastValue(ps, r.names[a]);
      assert LastAt(ps, r.names[a], i);
    }
    assert AllNamedPlaced(args, ps) && NamesPlaced(ps, r.names, r.values);
  }

  /** What is to be flattened is arrays and hashes of at most 65535 elements, and there are no more
      arguments than that in all. */
  ghost predicate Fits(args: seq<Arg>) {
    && (forall i | 0 <= i < |args| :: ArgFits(args[i]))
    && PosBefore(args, |args|) + NamedBefore(args, |args|) <= 65535
  }

  ghost predicate ArgFits(a: Arg) {
    match a
    case FlatPos(list) => |list| <= 65535
    case FlatNamed(pairs) => |pairs| <= 65535
    case FlatOther(_) => false
    case _ => true
  }

  lemma {:induction false} FlattenableIff(args: seq<Arg>)
    ensures Flattenable(args) <==> forall i | 0 <= i < |args| :: ArgFits(args[i])
  {
    if args != [] {
      var front := args[..|args| - 1];
      FlattenableIff(front);
      assert forall i | 0 <= i < |front| :: front[i] == args[i];
    }
  }

  lemma AcceptableIff(args: seq<Arg>)
    ensures Acceptable(args) <==> Fits(args)
  {
    FlattenableIff(args);
    PosAreThere(args);
    NamedAreThere(args);
  }
}
