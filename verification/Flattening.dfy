/** Argument flattening (src/core/args.c) and the check of callsites on which it relies
    (src/core/bytecode.c). */
module Flattening {
  import opened Wrappers

  // ----- callsites

  type Flags = x: int | 0 <= x < 256

  predicate IsObj(f: Flags) { f % 2 == 1 }
  predicate IsNamed(f: Flags) { f / 32 % 2 == 1 }
  predicate IsFlat(f: Flags) { f / 64 % 2 == 1 }

  /** The bits of the flags: objects are the lowest, then come 32 for nameds and 64 for flattening. */
  lemma FlagBits(f: Flags, low: nat, named: bool, flat: bool, top: nat)
    requires low < 32 && top < 2
    requires f == low + (if named then 32 else 0) + (if flat then 64 else 0) + 128 * top
    ensures (IsObj(f) <==> low % 2 == 1) && (IsNamed(f) <==> named) && (IsFlat(f) <==> flat)
  {}

  /** All positionals come before all nameds. */
  ghost predicate Ordered(flags: seq<Flags>) {
    forall i, j | 0 <= i < j < |flags| :: IsNamed(flags[i]) ==> IsNamed(flags[j])
  }

  /** What is flattened is an object. */
  ghost predicate FlatObjects(flags: seq<Flags>) {
    forall i | 0 <= i < |flags| :: IsFlat(flags[i]) ==> IsObj(flags[i])
  }

  function Positionals(flags: seq<Flags>): (n: nat)
    ensures n <= |flags|
  {
    if flags == [] then 0
    else Positionals(flags[..|flags| - 1]) + if IsNamed(flags[|flags| - 1]) then 0 else 1
  }

  lemma {:induction false} PositionalsFirst(flags: seq<Flags>)
    requires Ordered(flags)
    ensures forall i | 0 <= i < |flags| :: IsNamed(flags[i]) <==> i >= Positionals(flags)
  {
    if flags != [] {
      var front := flags[..|flags| - 1];
      PositionalsFirst(front);
      forall i | 0 <= i < |flags| ensures IsNamed(flags[i]) <==> i >= Positionals(flags) {
        if i < |front| { assert front[i] == flags[i]; }
        var n := Positionals(front);
        if n < |front| { assert IsNamed(front[n]) && front[n] == flags[n]; }
      }
    }
  }

  /** `deserialize_callsites`, the check of one callsite: it passes exactly the callsites that
      flattening can deal with, and counts the positionals. */
  method CheckCallsite(flags: seq<Flags>) returns (r: Result<nat>)
    ensures r.Ok? <==> Ordered(flags) && FlatObjects(flags)
    ensures r.Ok? ==> r.value == Positionals(flags)
  {
    var positionals, namedsSlots := 0, 0;
    for j := 0 to |flags|
      invariant Ordered(flags[..j]) && FlatObjects(flags[..j]) && positionals == Positionals(flags[..j])
      invariant namedsSlots == 0 <==> forall i | 0 <= i < j :: !IsNamed(flags[i])
    {
      assert flags[..j + 1][..j] == flags[..j];
      if IsFlat(flags[j]) {
        if !IsObj(flags[j]) {
          return Err;
        }
        if IsNamed(flags[j]) {
          namedsSlots := namedsSlots + 1;
        } else if namedsSlots > 0 {
          return Err;
        } else {
          positionals := positionals + 1;
        }
      } else if IsNamed(flags[j]) {
        namedsSlots := namedsSlots + 2;
      } else if namedsSlots > 0 {
        return Err;
      } else {
        positionals := positionals + 1;
      }
    }
    assert flags[..|flags|] == flags;
    return Ok(positionals);
  }

  // ----- arguments

  const LIMIT: nat := 65535              // MVM_ARGS_LIMIT
  const WORD: nat := 0x1_0000_0000

  /** A value with its type flag. */
  datatype Type = Obj | Int | UInt | Num | Str
  datatype Value = Value(ty: Type, bits: nat)

  /** An argument at a callsite; a hash is given as its pairs in the order in which they are gone
      through. */
  datatype Arg =
    | Pos(v: Value)
    | FlatPos(list: seq<Value>)
    | Named(name: string, v: Value)
    | FlatNamed(pairs: seq<Pair>)
    | FlatOther(named: bool)        // to be flattened, but no array or hash

  datatype Pair = Pair(name: string, v: Value)

  predicate IsNamedArg(a: Arg) {
    a.Named? || a.FlatNamed? || (a.FlatOther? && a.named)
  }

  ghost predicate OrderedArgs(args: seq<Arg>) {
    forall i, j | 0 <= i < j < |args| :: IsNamedArg(args[i]) ==> IsNamedArg(args[j])
  }

  predicate IsFlatArg(a: Arg) {
    a.FlatPos? || a.FlatNamed? || a.FlatOther?
  }

  /** The flags of a callsite describe the arguments of a call, one by one. */
  ghost predicate Describes(flags: seq<Flags>, args: seq<Arg>) {
    && |flags| == |args|
    && forall i | 0 <= i < |flags| :: IsNamed(flags[i]) == IsNamedArg(args[i]) && IsFlat(flags[i]) == IsFlatArg(args[i])
  }

  /** So the check at load time is what flattening relies on. */
  lemma CheckedArgs(flags: seq<Flags>, args: seq<Arg>)
    requires Describes(flags, args)
    ensures Ordered(flags) <==> OrderedArgs(args)
  {
    if Ordered(flags) {
      forall i, j | 0 <= i < j < |args| && IsNamedArg(args[i]) ensures IsNamedArg(args[j]) {
        assert IsNamed(flags[i]);
      }
    }
    if OrderedArgs(args) {
      forall i, j | 0 <= i < j < |flags| && IsNamed(flags[i]) ensures IsNamed(flags[j]) {
        assert IsNamedArg(args[i]);
      }
    }
  }

  /** What a call gets: positional values, and names with their values. */
  datatype Record = Record(positionals: seq<Value>, names: seq<string>, values: seq<Value>)

  // ----- the simple specification

  function PosOf(a: Arg): seq<Value> {
    match a
    case Pos(v) => [v]
    case FlatPos(l) => l
    case _ => []
  }

  function PairsOf(a: Arg): seq<Pair> {
    match a
    case Named(n, v) => [Pair(n, v)]
    case FlatNamed(ps) => ps
    case _ => []
  }

  function AllPos(args: seq<Arg>): seq<Value> {
    if args == [] then [] else AllPos(args[..|args| - 1]) + PosOf(args[|args| - 1])
  }

  function AllPairs(args: seq<Arg>): seq<Pair> {
    if args == [] then [] else AllPairs(args[..|args| - 1]) + PairsOf(args[|args| - 1])
  }

  /** The names in the order of their first occurrence. */
  function Names(pairs: seq<Pair>): seq<string> {
    if pairs == [] then []
    else
      var names, n := Names(pairs[..|pairs| - 1]), pairs[|pairs| - 1].name;
      if n in names then names else names + [n]
  }

  /** The value that was given last for a name. */
  function LastValue(pairs: seq<Pair>, name: string): Value
    requires name in Names(pairs)
  {
    if pairs[|pairs| - 1].name == name then pairs[|pairs| - 1].v else LastValue(pairs[..|pairs| - 1], name)
  }

  ghost predicate Flattens(args: seq<Arg>, r: Record) {
    && r.positionals == AllPos(args)
    && r.names == Names(AllPairs(args))
    && |r.values| == |r.names|
    && forall i | 0 <= i < |r.names| :: r.values[i] == LastValue(AllPairs(args), r.names[i])
  }

  /** Each array or hash, and all of it together, has at most 65535 elements. */
  predicate Flattenable(args: seq<Arg>) {
    args == [] ||
    (Flattenable(args[..|args| - 1]) && !args[|args| - 1].FlatOther?
     && |PosOf(args[|args| - 1])| <= LIMIT && |PairsOf(args[|args| - 1])| <= LIMIT)
  }

  ghost predicate Acceptable(args: seq<Arg>) {
    Flattenable(args) && |AllPos(args)| + |AllPairs(args)| <= LIMIT
  }

  // ----- facts about the specification

  lemma {:induction false} NamesDistinct(pairs: seq<Pair>)
    ensures forall i, j | 0 <= i < j < |Names(pairs)| :: Names(pairs)[i] != Names(pairs)[j]
    ensures |Names(pairs)| <= |pairs|
  {
    if pairs != [] { NamesDistinct(pairs[..|pairs| - 1]); }
  }

  lemma {:induction false} NamesAre(pairs: seq<Pair>, n: string)
    ensures n in Names(pairs) <==> exists i :: 0 <= i < |pairs| && pairs[i].name == n
  {
    if pairs != [] {
      var front := pairs[..|pairs| - 1];
      NamesAre(front, n);
      if i :| 0 <= i < |front| && front[i].name == n { assert pairs[i].name == n; }
      if i :| 0 <= i < |pairs| && pairs[i].name == n { assert i < |front| ==> front[i] == pairs[i]; }
    }
  }

  /** The value is that of a pair with the name after which the name does not come again. */
  lemma {:induction false} LastValueIsLast(pairs: seq<Pair>, name: string)
    requires name in Names(pairs)
    ensures exists i :: IsLast(pairs, name, i) && pairs[i].v == LastValue(pairs, name)
  {
    var n := |pairs| - 1;
    if pairs[n].name == name {
      assert IsLast(pairs, name, n);
    } else {
      var front := pairs[..n];
      LastValueIsLast(front, name);
      var i :| IsLast(front, name, i) && front[i].v == LastValue(front, name);
      assert IsLast(pairs, name, i) by {
        forall j | i < j < |pairs| ensures pairs[j].name != name { assert j < n ==> front[j] == pairs[j]; }
      }
    }
  }

  ghost predicate IsLast(pairs: seq<Pair>, name: string, i: int) {
    0 <= i < |pairs| && pairs[i].name == name && forall j | i < j < |pairs| :: pairs[j].name != name
  }

  /** In an ordered argument list the nameds begin once the positionals are through. */
  lemma NoPosAfterNamed(args: seq<Arg>, i: nat)
    requires OrderedArgs(args) && i < |args| && IsNamedArg(args[i])
    ensures AllPos(args) == AllPos(args[..i])
    decreases |args|
  {
    var n := |args| - 1;
    assert IsNamedArg(args[n]);
    if i < n {
      NoPosAfterNamed(args[..n], i);
      assert args[..n][..i] == args[..i];
    }
  }

  lemma {:induction false} SizesAdd(args: seq<Arg>, i: nat)
    requires i <= |args|
    ensures |AllPos(args[..i])| <= |AllPos(args)| && |AllPairs(args[..i])| <= |AllPairs(args)|
    decreases |args|
  {
    if i == |args| {
      assert args[..i] == args;
    } else {
      var front := args[..|args| - 1];
      SizesAdd(front, i);
      assert front[..i] == args[..i];
    }
  }
}
