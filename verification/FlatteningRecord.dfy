/** The flattening record, filled through running counters (src/core/args.c). */
module FlatteningRecords {
  import opened Wrappers
  import opened Flattening
  import opened FlatteningPlaces

  /** How many arguments one argument comes to: positionals, and all. */
  method CountArg(a: Arg) returns (r: Result<(nat, nat)>)
    ensures r.Ok? <==> !a.FlatOther? && |PosOf(a)| <= LIMIT && |PairsOf(a)| <= LIMIT
    ensures r.Ok? ==> r.value == (|PosOf(a)|, |PosOf(a)| + |PairsOf(a)|) && r.value.1 <= LIMIT
  {
    match a {
      case Pos(_) => return Ok((1, 1));
      case Named(_, _) => return Ok((0, 1));
      case FlatPos(l) =>
        if |l| > LIMIT {
          return Err;
        }
        return Ok((|l|, |l|));
      case FlatNamed(ps) =>
        if |ps| > LIMIT {
          return Err;
        }
        return Ok((0, |ps|));
      case FlatOther(_) => return Err;
    }
  }

  /** `MVM_args_perform_flattening`, the first pass: how many arguments there will be. The 32-bit
      counters do not wrap. */
  method CountArgs(args: seq<Arg>) returns (r: Result<(nat, nat)>)
    requires |args| <= 65535
    ensures r.Ok? <==> Acceptable(args)
    ensures r.Ok? ==> r.value == (|AllPos(args)| + |AllPairs(args)|, |AllPos(args)|)
  {
    var numPos: nat, numArgs: nat := 0, 0;
    for i := 0 to |args|
      invariant Flattenable(args[..i]) && numPos == |AllPos(args[..i])| <= numArgs
      invariant numArgs == |AllPos(args[..i])| + |AllPairs(args[..i])| <= i * 65535
    {
      assert args[..i + 1][..i] == args[..i];
      var c := CountArg(args[i]);
      if c.Err? {
        NotFlattenable(args, i);
        return Err;
      }
      NoWrap(numPos + c.value.0);
      NoWrap(numArgs + c.value.1);
      numPos, numArgs := (numPos + c.value.0) % WORD, (numArgs + c.value.1) % WORD;
    }
    assert args[..|args|] == args;
    if numArgs > LIMIT {
      return Err;
    }
    return Ok((numArgs, numPos));
  }

  lemma NoWrap(n: nat)
    requires n <= 65535 * 65535
    ensures n % WORD == n
  {}

  lemma {:induction false} NotFlattenable(args: seq<Arg>, i: nat)
    requires i < |args|
    requires args[i].FlatOther? || |PosOf(args[i])| > LIMIT || |PairsOf(args[i])| > LIMIT
    ensures !Flattenable(args)
    decreases |args|
  {
    if i < |args| - 1 { NotFlattenable(args[..|args| - 1], i); }
  }

  /** From `base` on, the values are those given last for the names. */
  ghost predicate LastValues(values: seq<Value>, base: nat, pairs: seq<Pair>) {
    && base + |Names(pairs)| <= |values|
    && forall i | 0 <= i < |Names(pairs)| :: HasLast(values, base, pairs, i)
  }

  ghost predicate HasLast(values: seq<Value>, base: nat, pairs: seq<Pair>, i: nat)
    requires base + i < |values| && i < |Names(pairs)|
  {
    values[base + i] == LastValue(pairs, Names(pairs)[i])
  }

  lemma NamesAfter(pairs: seq<Pair>, p: Pair)
    ensures Names(pairs + [p]) == if p.name in Names(pairs) then Names(pairs) else Names(pairs) + [p.name]
  {
    assert (pairs + [p])[..|pairs|] == pairs;
  }

  lemma LastValueAfter(pairs: seq<Pair>, p: Pair, name: string)
    requires name == p.name || name in Names(pairs)
    ensures name in Names(pairs + [p])
    ensures LastValue(pairs + [p], name) == if name == p.name then p.v else LastValue(pairs, name)
  {
    assert (pairs + [p])[..|pairs|] == pairs;
  }

  /** Storing a pair's value where its name is, or after all names, brings the values up to date. */
  lemma LastValuesAfter(values: seq<Value>, base: nat, pairs: seq<Pair>, p: Pair, i: nat)
    requires LastValues(values, base, pairs) && base + i < |values|
    requires if p.name in Names(pairs) then i < |Names(pairs)| && Names(pairs)[i] == p.name else i == |Names(pairs)|
    ensures LastValues(values[base + i := p.v], base, pairs + [p])
  {
    var pairs', values' := pairs + [p], values[base + i := p.v];
    NamesAfter(pairs, p);
    NamesDistinct(pairs);
    forall k | 0 <= k < |Names(pairs')| ensures HasLast(values', base, pairs', k) {
      LastValueAfter(pairs, p, Names(pairs')[k]);
      if k < |Names(pairs)| { assert HasLast(values, base, pairs, k); }
    }
  }

  class FlatteningRecord {
    const numPos: nat
    const values: array<Value>
    const names: array<string>
    var curNewArg: nat
    var curNewName: nat

    /** The record has these positionals and what these pairs come to; nameds are only there once
        the positionals are complete. */
    ghost predicate Holds(pos: seq<Value>, pairs: seq<Pair>)
      reads this, values, names
    {
      && numPos <= values.Length && names.Length == values.Length - numPos
      && curNewName <= names.Length && curNewArg == |pos| + curNewName && |pos| <= numPos
      && (pairs != [] ==> |pos| == numPos)
      && values[..|pos|] == pos && names[..curNewName] == Names(pairs)
      && LastValues(values[..], |pos|, pairs)
    }

    constructor (numArgs: nat, numPos: nat)
      requires numPos <= numArgs
      ensures Holds([], []) && this.numPos == numPos && fresh(values) && fresh(names)
      ensures values.Length == numArgs
    {
      this.numPos := numPos;
      values := new Value[numArgs](_ => Value(Obj, 0));
      names := new string[numArgs - numPos](_ => "");
      curNewArg, curNewName := 0, 0;
    }

    method AddPositional(v: Value, ghost pos: seq<Value>)
      requires Holds(pos, []) && |pos| < numPos
      modifies this`curNewArg, values
      ensures Holds(pos + [v], [])
    {
      values[curNewArg] := v;
      curNewArg := curNewArg + 1;
      assert values[..|pos| + 1] == values[..|pos|] + [v];
    }

    method AddPositionals(l: seq<Value>, ghost pos: seq<Value>)
      requires Holds(pos, []) && |pos| + |l| <= numPos
      modifies this`curNewArg, values
      ensures Holds(pos + l, [])
    {
      assert pos + l[..0] == pos;
      for j := 0 to |l|
        invariant Holds(pos + l[..j], [])
      {
        AddPositional(l[j], pos + l[..j]);
        assert pos + l[..j] + [l[j]] == pos + l[..j + 1];
      }
      assert l[..|l|] == l;
    }

    /** `callsite_name_index`, less the number of positionals. */
    method NameIndex(name: string) returns (i: int)
      requires curNewName <= names.Length
      ensures -1 <= i < curNewName
      ensures i >= 0 ==> names[i] == name
      ensures i < 0 ==> name !in names[..curNewName]
    {
      for k := 0 to curNewName
        invariant forall j | 0 <= j < k :: names[j] != name
      {
        if names[k] == name {
          return k;
        }
      }
      return -1;
    }

    method AddName(p: Pair, ghost pos: seq<Value>, ghost pairs: seq<Pair>)
      requires Holds(pos, pairs) && |pos| == numPos && curNewName < names.Length && p.name !in Names(pairs)
      modifies this`curNewArg, this`curNewName, values, names
      ensures Holds(pos, pairs + [p])
    {
      ghost var n, vs := curNewName, values[..];
      LastValuesAfter(vs, numPos, pairs, p, n);
      NamesAfter(pairs, p);
      values[curNewArg] := p.v;
      curNewArg := curNewArg + 1;
      assert values[..] == vs[numPos + n := p.v];
      names[curNewName] := p.name;
      curNewName := curNewName + 1;
      assert names[..n + 1] == names[..n] + [p.name];
    }

    method ReplaceValue(i: nat, p: Pair, ghost pos: seq<Value>, ghost pairs: seq<Pair>)
      requires Holds(pos, pairs) && |pos| == numPos && i < curNewName && names[i] == p.name
      modifies values
      ensures Holds(pos, pairs + [p])
    {
      assert names[..curNewName][i] == p.name;
      ghost var vs := values[..];
      LastValuesAfter(vs, numPos, pairs, p, i);
      NamesAfter(pairs, p);
      values[numPos + i] := p.v;
      assert values[..] == vs[numPos + i := p.v];
    }

    /** A name that is not there yet is added, one that is there gets the new value. */
    method AddNamed(p: Pair, ghost pos: seq<Value>, ghost pairs: seq<Pair>)
      requires Holds(pos, pairs) && |pos| == numPos && numPos + |pairs| < values.Length
      modifies this`curNewArg, this`curNewName, values, names
      ensures Holds(pos, pairs + [p])
    {
      NamesDistinct(pairs);
      assert |names[..curNewName]| == |Names(pairs)|;
      var i := NameIndex(p.name);
      if i < 0 {
        AddName(p, pos, pairs);
      } else {
        ReplaceValue(i, p, pos, pairs);
      }
    }

    method AddNameds(ps: seq<Pair>, ghost pos: seq<Value>, ghost pairs: seq<Pair>)
      requires Holds(pos, pairs) && |pos| == numPos && numPos + |pairs| + |ps| <= values.Length
      modifies this`curNewArg, this`curNewName, values, names
      ensures Holds(pos, pairs + ps)
    {
      assert pairs + ps[..0] == pairs;
      for j := 0 to |ps|
        invariant Holds(pos, pairs + ps[..j])
      {
        AddNamed(ps[j], pos, pairs + ps[..j]);
        assert pairs + ps[..j] + [ps[j]] == pairs + ps[..j + 1];
      }
      assert ps[..|ps|] == ps;
    }
  }

  /** `MVM_args_perform_flattening`: it throws exactly if there is something that cannot be
      flattened or too much of it; otherwise positionals are in order, names are distinct and in
      the order of their first occurrence, and each has the value that was given last. */
  method PerformFlattening(args: seq<Arg>) returns (r: Result<Record>)
    requires |args| <= 65535 && OrderedArgs(args)
    ensures r.Ok? <==> Acceptable(args)
    ensures r.Ok? <==> Fits(args)
    ensures r.Ok? ==> Flattens(args, r.value) && Placed(args, r.value)
  {
    AcceptableIff(args);
    var counts := CountArgs(args);
    if counts.Err? {
      return Err;
    }
    var record := Fill(args, counts.value.0, counts.value.1);
    var n := record.curNewArg;
    r := Ok(Record(record.values[..record.numPos], record.names[..record.curNewName], record.values[record.numPos..n]));
    forall i | 0 <= i < record.curNewName
      ensures record.values[record.numPos..n][i] == LastValue(AllPairs(args), Names(AllPairs(args))[i])
    {
      assert HasLast(record.values[..], record.numPos, AllPairs(args), i);
    }
    FlattensIsPlaced(args, r.value);
  }

  /** A callsite that is checked when it is loaded, and then a call with it: an error says that the
      callsite is malformed, or what `MVM_args_perform_flattening` throws. */
  method CheckAndFlatten(flags: seq<Flags>, args: seq<Arg>) returns (r: Result<Record>)
    requires |flags| <= 65535 && Describes(flags, args)
    ensures r.Ok? <==> Ordered(flags) && FlatObjects(flags) && Fits(args)
    ensures r.Ok? ==> Flattens(args, r.value) && Placed(args, r.value)
  {
    var positionals := CheckCallsite(flags);
    if positionals.Err? {
      return Err;
    }
    CheckedArgs(flags, args);
    AcceptableIff(args);
    r := PerformFlattening(args);
  }

  /** One argument of the second pass. */
  method FillArg(record: FlatteningRecord, a: Arg, ghost pos: seq<Value>, ghost pairs: seq<Pair>)
    requires record.Holds(pos, pairs) && !a.FlatOther?
    requires |pos| + |PosOf(a)| <= record.numPos && record.numPos + |pairs| + |PairsOf(a)| <= record.values.Length
    requires if IsNamedArg(a) then |pos| == record.numPos else pairs == []
    modifies record, record.values, record.names
    ensures record.Holds(pos + PosOf(a), pairs + PairsOf(a))
  {
    assert pos + [] == pos && pairs + [] == pairs;
    match a {
      case Pos(v) => record.AddPositional(v, pos);
      case FlatPos(l) => record.AddPositionals(l, pos);
      case Named(name, v) => record.AddNamed(Pair(name, v), pos, pairs);
      case FlatNamed(ps) => record.AddNameds(ps, pos, pairs);
    }
  }

  /** The second pass. */
  method Fill(args: seq<Arg>, numArgs: nat, numPos: nat) returns (record: FlatteningRecord)
    requires OrderedArgs(args) && Flattenable(args)
    requires numPos == |AllPos(args)| && numArgs == numPos + |AllPairs(args)|
    ensures record.Holds(AllPos(args), AllPairs(args)) && record.numPos == numPos
    ensures fresh(record) && fresh(record.values) && fresh(record.names)
  {
    record := new FlatteningRecord(numArgs, numPos);
    for i := 0 to |args|
      invariant fresh(record) && fresh(record.values) && fresh(record.names)
      invariant record.numPos == numPos && record.values.Length == numArgs
      invariant record.Holds(AllPos(args[..i]), AllPairs(args[..i]))
    {
      ghost var pos, pairs := AllPos(args[..i]), AllPairs(args[..i]);
      assert args[..i + 1][..i] == args[..i];
      SizesAdd(args, i + 1);
      FlattenablePrefix(args, i);
      if IsNamedArg(args[i]) {
        NoPosAfterNamed(args, i);
      } else {
        NoPairsBefore(args, i);
      }
      FillArg(record, args[i], pos, pairs);
    }
    assert args[..|args|] == args;
  }

  lemma {:induction false} NoPairsBefore(args: seq<Arg>, i: nat)
    requires OrderedArgs(args) && i < |args| && !IsNamedArg(args[i])
    ensures AllPairs(args[..i]) == []
    decreases i
  {
    if i > 0 {
      NoPairsBefore(args, i - 1);
      assert args[..i][..i - 1] == args[..i - 1];
    }
  }

  lemma {:induction false} FlattenablePrefix(args: seq<Arg>, i: nat)
    requires Flattenable(args) && i < |args|
    ensures !args[i].FlatOther?
    decreases |args|
  {
    if i < |args| - 1 { FlattenablePrefix(args[..|args| - 1], i); }
  }
}
