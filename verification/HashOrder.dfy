/** The order in which a flattened hash gives its pairs (src/core/args.c): sorted by the hash codes
    kept in the names, so that the order of iteration is hidden unless two codes are equal. */
module HashOrder {
  import opened Wrappers
  import opened Flattening

  /** A pair with its name's hash code. */
  datatype Keyed = Keyed(code: nat, pair: Pair)

  /** Where a code belongs in a list. */
  function Place(code: nat, s: seq<Keyed>): (k: nat)
    ensures k <= |s| && (forall i | 0 <= i < k :: s[i].code < code) && (k < |s| ==> s[k].code >= code)
  {
    if s == [] || s[0].code >= code then 0 else 1 + Place(code, s[1..])
  }

  function Insert(p: Keyed, s: seq<Keyed>): (r: seq<Keyed>)
    ensures forall x :: x in r <==> x == p || x in s
  {
    var k := Place(p.code, s);
    assert s == s[..k] + s[k..];
    s[..k] + [p] + s[k..]
  }

  /** `key_sort_by_hash`, with a sort that leaves equal codes in their order. */
  function Sort(s: seq<Keyed>): (r: seq<Keyed>)
    ensures forall x :: x in r <==> x in s
  {
    if s == [] then [] else Insert(s[0], Sort(s[1..]))
  }

  ghost predicate Ascending(s: seq<Keyed>) {
    forall i, j | 0 <= i < j < |s| :: s[i].code < s[j].code
  }

  /** No two places have equal codes. */
  ghost predicate CodesDiffer(s: seq<Keyed>) {
    forall i, j | 0 <= i < j < |s| :: s[i].code != s[j].code
  }

  /** A hash gives every pair once. */
  ghost predicate Once(s: seq<Keyed>) {
    forall i, j | 0 <= i < j < |s| :: s[i] != s[j]
  }

  /** Two orders of the same hash. */
  ghost predicate SameHash(s: seq<Keyed>, t: seq<Keyed>) {
    Once(s) && Once(t) && forall x :: x in s <==> x in t
  }

  lemma InsertAscends(p: Keyed, s: seq<Keyed>)
    requires Ascending(s) && forall x | x in s :: x.code != p.code
    ensures Ascending(Insert(p, s))
  {
    var k := Place(p.code, s);
    forall i | k <= i < |s| ensures s[i].code > p.code {
      assert s[i] in s && s[k] in s;
    }
  }

  lemma {:induction false} SortAscends(s: seq<Keyed>)
    requires CodesDiffer(s)
    ensures Ascending(Sort(s))
  {
    if s != [] {
      SortAscends(s[1..]);
      InsertAscends(s[0], Sort(s[1..]));
    }
  }

  lemma {:induction false} AscendingUnique(a: seq<Keyed>, b: seq<Keyed>)
    requires Ascending(a) && Ascending(b) && forall x :: x in a <==> x in b
    ensures a == b
  {
    assert (a != [] ==> a[0] in b) && (b != [] ==> b[0] in a);
    if a != [] && b != [] {
      forall x ensures x in a[1..] <==> x in b[1..] {
        if x in a[1..] { assert x in b && x.code > a[0].code; }
        if x in b[1..] { assert x in a && x.code > b[0].code; }
      }
      AscendingUnique(a[1..], b[1..]);
    }
  }

  lemma DifferEither(s: seq<Keyed>, t: seq<Keyed>)
    requires SameHash(s, t) && CodesDiffer(s)
    ensures CodesDiffer(t)
  {
    forall i, j | 0 <= i < j < |t| ensures t[i].code != t[j].code {
      assert t[i] in s && t[j] in s;
    }
  }

  // ----- equal codes

  lemma PlaceIs(code: nat, s: seq<Keyed>, k: nat)
    requires k < |s| && s[k].code >= code && forall i | 0 <= i < k :: s[i].code < code
    ensures Place(code, s) == k
  {}

  /** Two different pairs with equal codes come out in the order in which they went in. */
  lemma CollisionShows(p: Keyed, q: Keyed, s: seq<Keyed>)
    requires p.code == q.code && p != q
    ensures Insert(p, Insert(q, s)) != Insert(q, Insert(p, s))
  {
    var k := Place(p.code, s);
    PlaceIs(p.code, Insert(q, s), k);
    PlaceIs(p.code, Insert(p, s), k);
    assert Insert(p, Insert(q, s))[k] == p && Insert(q, Insert(p, s))[k] == q;
  }

  function Without(s: seq<Keyed>, p: Keyed, q: Keyed): (r: seq<Keyed>)
    ensures forall x :: x in r <==> x in s && x != p && x != q
  {
    if s == [] then []
    else if s[0] == p || s[0] == q then Without(s[1..], p, q)
    else [s[0]] + Without(s[1..], p, q)
  }

  lemma OnceMore(p: Keyed, s: seq<Keyed>)
    requires Once(s) && p !in s
    ensures Once([p] + s)
  {
    forall i, j | 0 <= i < j < |[p] + s| ensures ([p] + s)[i] != ([p] + s)[j] {
      assert s[j - 1] in s;
    }
  }

  lemma {:induction false} WithoutOnce(s: seq<Keyed>, p: Keyed, q: Keyed)
    requires Once(s)
    ensures Once(Without(s, p, q))
  {
    if s != [] {
      WithoutOnce(s[1..], p, q);
      assert s[0] !in s[1..];
      OnceMore(s[0], Without(s[1..], p, q));
    }
  }

  /** Whatever the order of iteration, the sorted pairs are the same. */
  ghost predicate OrderHidden(s: seq<Keyed>) {
    forall t, t' :: SameHash(s, t) && SameHash(s, t') ==> Sort(t) == Sort(t')
  }

  lemma FrontFirst(s: seq<Keyed>, p: Keyed, q: Keyed)
    requires Once(s) && p in s && q in s && p != q
    ensures SameHash(s, [p] + ([q] + Without(s, p, q)))
  {
    var rest := Without(s, p, q);
    WithoutOnce(s, p, q);
    OnceMore(q, rest);
    OnceMore(p, [q] + rest);
  }

  lemma CollisionIsSeen(s: seq<Keyed>, i: nat, j: nat)
    requires Once(s) && i < j < |s| && s[i].code == s[j].code
    ensures !OrderHidden(s)
  {
    var p, q := s[i], s[j];
    var rest := Without(s, p, q);
    SameRest(s, p, q);
    FrontFirst(s, p, q);
    FrontFirst(s, q, p);
    var t, t' := [p] + ([q] + rest), [q] + ([p] + rest);
    SortTwo(p, q, rest);
    assert SameHash(s, t) && SameHash(s, t') && Sort(t) != Sort(t');
  }

  lemma SortTwo(p: Keyed, q: Keyed, rest: seq<Keyed>)
    requires p.code == q.code && p != q
    ensures Sort([p] + ([q] + rest)) != Sort([q] + ([p] + rest))
  {
    SortCons(p, [q] + rest);
    SortCons(q, rest);
    SortCons(q, [p] + rest);
    SortCons(p, rest);
    CollisionShows(p, q, Sort(rest));
  }

  lemma SortCons(p: Keyed, s: seq<Keyed>)
    ensures Sort([p] + s) == Insert(p, Sort(s))
  {
    assert ([p] + s)[1..] == s;
  }

  lemma {:induction false} SameRest(s: seq<Keyed>, p: Keyed, q: Keyed)
    ensures Without(s, p, q) == Without(s, q, p)
  {
    if s != [] { SameRest(s[1..], p, q); }
  }

  // ----- any sort

  /** What `qsort` may make of a hash: the same pairs, in an order in which no code is lower than
      the one before it. */
  ghost predicate Sorts(s: seq<Keyed>, r: seq<Keyed>) {
    SameHash(s, r) && NoDescent(r)
  }

  ghost predicate NoDescent(r: seq<Keyed>) {
    forall i, j | 0 <= i < j < |r| :: r[i].code <= r[j].code
  }

  lemma InsertNoDescent(p: Keyed, s: seq<Keyed>)
    requires NoDescent(s)
    ensures NoDescent(Insert(p, s))
  {
    var k := Place(p.code, s);
    forall i | k <= i < |s| ensures p.code <= s[i].code {}
  }

  lemma InsertOnce(p: Keyed, s: seq<Keyed>)
    requires Once(s) && p !in s
    ensures Once(Insert(p, s))
  {
    var k, r := Place(p.code, s), Insert(p, s);
    forall i, j | 0 <= i < j < |r| ensures r[i] != r[j] {
      var i', j' := if i < k then i else i - 1, if j < k then j else j - 1;
      if i == k { assert r[j] == s[j'] && s[j'] in s; }
      else if j == k { assert r[i] == s[i'] && s[i'] in s; }
      else { assert r[i] == s[i'] && r[j] == s[j']; }
    }
  }

  lemma {:induction false} SortSorts(s: seq<Keyed>)
    requires Once(s)
    ensures Sorts(s, Sort(s))
  {
    if s != [] {
      assert s[0] !in s[1..];
      SortSorts(s[1..]);
      InsertNoDescent(s[0], Sort(s[1..]));
      InsertOnce(s[0], Sort(s[1..]));
    }
  }

  /** Any two sorts of any two orders of a hash agree, if no two codes are equal. */
  lemma SortsAgree(s: seq<Keyed>, t: seq<Keyed>, r: seq<Keyed>, r': seq<Keyed>)
    requires SameHash(s, t) && CodesDiffer(s) && Sorts(s, r) && Sorts(t, r')
    ensures r == r'
  {
    DifferEither(s, t);
    DifferEither(s, r);
    DifferEither(t, r');
    assert Ascending(r) && Ascending(r');
    forall x ensures x in r <==> x in r' { assert x in r <==> x in s; }
    AscendingUnique(r, r');
  }

  /** What sorting gives depends on nothing but the hash. */
  ghost predicate Determined(s: seq<Keyed>) {
    forall r, r' :: Sorts(s, r) && Sorts(s, r') ==> r == r'
  }

  /** Whatever the sort does with equal codes: its result is determined exactly if there are none. */
  lemma DeterminedIff(s: seq<Keyed>)
    requires Once(s)
    ensures Determined(s) <==> CodesDiffer(s)
  {
    if CodesDiffer(s) {
      forall r, r' | Sorts(s, r) && Sorts(s, r') ensures r == r' { SortsAgree(s, s, r, r'); }
    } else {
      var i, j :| 0 <= i < j < |s| && s[i].code == s[j].code;
      CollisionIsSeen(s, i, j);
      var t, t' :| SameHash(s, t) && SameHash(s, t') && Sort(t) != Sort(t');
      SortSorts(t);
      SortSorts(t');
      assert Sorts(s, Sort(t)) && Sorts(s, Sort(t'));
    }
  }

  /** With a sort that leaves equal codes in their order, the order of iteration is hidden exactly
      if no two names of the hash have equal codes. */
  lemma OrderIsHidden(s: seq<Keyed>)
    requires Once(s)
    ensures OrderHidden(s) <==> CodesDiffer(s)
  {
    if CodesDiffer(s) {
      forall t, t' | SameHash(s, t) && SameHash(s, t') ensures Sort(t) == Sort(t') {
        DifferEither(s, t);
        DifferEither(s, t');
        SortAscends(t);
        SortAscends(t');
        AscendingUnique(Sort(t), Sort(t'));
      }
    } else {
      var i, j :| 0 <= i < j < |s| && s[i].code == s[j].code;
      CollisionIsSeen(s, i, j);
    }
  }

  // ----- flattened calls

  /** An argument as the caller gives it: a hash is gone through in some order. */
  datatype Source = Plain(a: Arg) | FromHash(pairs: seq<Keyed>)

  function PairsIn(s: seq<Keyed>): (r: seq<Pair>)
    ensures |r| == |s| && forall i | 0 <= i < |s| :: r[i] == s[i].pair
  {
    seq(|s|, i requires 0 <= i < |s| => s[i].pair)
  }

  /** What flattening makes of it: a hash becomes its pairs, sorted. */
  ghost predicate Yields(src: Source, a: Arg) {
    match src
    case Plain(b) => a == b
    case FromHash(s) => a.FlatNamed? && exists r :: Sorts(s, r) && a.pairs == PairsIn(r)
  }

  ghost predicate AllYield(srcs: seq<Source>, args: seq<Arg>) {
    |srcs| == |args| && forall i | 0 <= i < |srcs| :: Yields(srcs[i], args[i])
  }

  /** The same argument, but a hash may be gone through in another order. */
  ghost predicate SameSource(src: Source, src': Source) {
    match src
    case Plain(_) => src' == src
    case FromHash(s) => src'.FromHash? && SameHash(s, src'.pairs)
  }

  ghost predicate SameSources(srcs: seq<Source>, srcs': seq<Source>) {
    |srcs| == |srcs'| && forall i | 0 <= i < |srcs| :: SameSource(srcs[i], srcs'[i])
  }

  lemma SameArg(src: Source, src': Source, a: Arg, a': Arg)
    requires SameSource(src, src') && Yields(src, a) && Yields(src', a')
    requires src.FromHash? ==> CodesDiffer(src.pairs)
    ensures a == a'
  {
    if src.FromHash? {
      var r :| Sorts(src.pairs, r) && a.pairs == PairsIn(r);
      var r' :| Sorts(src'.pairs, r') && a'.pairs == PairsIn(r');
      SortsAgree(src.pairs, src'.pairs, r, r');
    }
  }

  /** If no hash has two names with equal codes, the flattened call is the same for every order in
      which hashes are gone through, and for every sort. */
  lemma SameRecord(srcs: seq<Source>, srcs': seq<Source>, args: seq<Arg>, args': seq<Arg>, r: Record, r': Record)
    requires SameSources(srcs, srcs') && AllYield(srcs, args) && AllYield(srcs', args')
    requires forall i | 0 <= i < |srcs| :: srcs[i].FromHash? ==> CodesDiffer(srcs[i].pairs)
    requires Flattens(args, r) && Flattens(args', r')
    ensures r == r'
  {
    forall i | 0 <= i < |args| ensures args[i] == args'[i] {
      SameArg(srcs[i], srcs'[i], args[i], args'[i]);
    }
    assert args == args';
    assert r.values == r'.values;
  }

  // ----- and if codes are equal

  /** The value that a name has in a list of pairs, if any. */
  function ValueOf(pairs: seq<Pair>, name: string): Option<Value> {
    if pairs == [] then None
    else if pairs[|pairs| - 1].name == name then Some(pairs[|pairs| - 1].v)
    else ValueOf(pairs[..|pairs| - 1], name)
  }

  lemma {:induction false} ValueOfIsLast(pairs: seq<Pair>, name: string)
    ensures name in Names(pairs) <==> ValueOf(pairs, name).Some?
    ensures name in Names(pairs) ==> ValueOf(pairs, name) == Some(LastValue(pairs, name))
  {
    if pairs != [] { ValueOfIsLast(pairs[..|pairs| - 1], name); }
  }

  lemma {:induction false} ValueOfBoth(p: seq<Pair>, q: seq<Pair>, name: string)
    ensures ValueOf(p + q, name) == if ValueOf(q, name).Some? then ValueOf(q, name) else ValueOf(p, name)
    decreases |q|
  {
    if q == [] {
      assert p + q == p;
    } else {
      ValueOfBoth(p, q[..|q| - 1], name);
      assert (p + q)[..|p + q| - 1] == p + q[..|q| - 1];
    }
  }

  lemma {:induction false} ValueOfMember(pairs: seq<Pair>, name: string)
    ensures ValueOf(pairs, name).Some? ==> Pair(name, ValueOf(pairs, name).value) in pairs
    ensures (exists x :: x in pairs && x.name == name) ==> ValueOf(pairs, name).Some?
  {
    if pairs != [] { ValueOfMember(pairs[..|pairs| - 1], name); }
  }

  /** A hash has one value for a name. */
  ghost predicate NamesOnce(s: seq<Keyed>) {
    forall i, j | 0 <= i < |s| && 0 <= j < |s| :: s[i].pair.name == s[j].pair.name ==> s[i] == s[j]
  }

  lemma SameValueOf(s: seq<Keyed>, r: seq<Keyed>, name: string)
    requires NamesOnce(s) && forall x :: x in s <==> x in r
    ensures ValueOf(PairsIn(s), name) == ValueOf(PairsIn(r), name)
  {
    var p, q := PairsIn(s), PairsIn(r);
    ValueOfMember(p, name);
    ValueOfMember(q, name);
    SamePairs(s, r);
    SamePairs(r, s);
    if ValueOf(p, name).Some? && ValueOf(q, name).Some? {
      var i :| 0 <= i < |p| && p[i] == Pair(name, ValueOf(p, name).value);
      var j :| 0 <= j < |p| && p[j] == Pair(name, ValueOf(q, name).value);
      assert s[i] == s[j];
    }
  }

  lemma SamePairs(s: seq<Keyed>, r: seq<Keyed>)
    requires forall x | x in s :: x in r
    ensures forall x | x in PairsIn(s) :: x in PairsIn(r)
  {
    forall x | x in PairsIn(s) ensures x in PairsIn(r) {
      var i :| 0 <= i < |s| && s[i].pair == x;
      assert s[i] in r;
      var j :| 0 <= j < |r| && r[j] == s[i];
      assert PairsIn(r)[j] == x;
    }
  }

  /** What two arguments are made of, when they may differ in the order of a hash. */
  ghost predicate SameButOrder(src: Source, src': Source, a: Arg, a': Arg) {
    && SameSource(src, src') && Yields(src, a) && Yields(src', a')
    && (src.FromHash? ==> NamesOnce(src.pairs))
  }

  ghost predicate AllSameButOrder(srcs: seq<Source>, srcs': seq<Source>, args: seq<Arg>, args': seq<Arg>) {
    && |srcs| == |srcs'| == |args| == |args'|
    && forall i | 0 <= i < |srcs| :: SameButOrder(srcs[i], srcs'[i], args[i], args'[i])
  }

  lemma SameArgValue(src: Source, src': Source, a: Arg, a': Arg, name: string)
    requires SameButOrder(src, src', a, a')
    ensures PosOf(a) == PosOf(a') && ValueOf(PairsOf(a), name) == ValueOf(PairsOf(a'), name)
  {
    if src.FromHash? {
      var r :| Sorts(src.pairs, r) && a.pairs == PairsIn(r);
      var r' :| Sorts(src'.pairs, r') && a'.pairs == PairsIn(r');
      SameValueOf(src.pairs, r, name);
      SameValueOf(src.pairs, r', name);
    }
  }

  lemma {:induction false} SameValues(
    srcs: seq<Source>, srcs': seq<Source>, args: seq<Arg>, args': seq<Arg>, name: string)
    requires AllSameButOrder(srcs, srcs', args, args')
    ensures AllPos(args) == AllPos(args') && ValueOf(AllPairs(args), name) == ValueOf(AllPairs(args'), name)
    decreases |args|
  {
    if args != [] {
      var n := |args| - 1;
      SameBefore(srcs, srcs', args, args', n);
      SameValues(srcs[..n], srcs'[..n], args[..n], args'[..n], name);
      SameArgValue(srcs[n], srcs'[n], args[n], args'[n], name);
      OneMoreArg(args, args', name);
    }
  }

  lemma SameBefore(srcs: seq<Source>, srcs': seq<Source>, args: seq<Arg>, args': seq<Arg>, n: nat)
    requires AllSameButOrder(srcs, srcs', args, args') && n < |args|
    ensures AllSameButOrder(srcs[..n], srcs'[..n], args[..n], args'[..n])
    ensures SameButOrder(srcs[n], srcs'[n], args[n], args'[n])
  {}

  lemma OneMoreArg(args: seq<Arg>, args': seq<Arg>, name: string)
    requires |args| == |args'| > 0
    requires var n := |args| - 1;
             && AllPos(args[..n]) == AllPos(args'[..n])
             && ValueOf(AllPairs(args[..n]), name) == ValueOf(AllPairs(args'[..n]), name)
             && PosOf(args[n]) == PosOf(args'[n])
             && ValueOf(PairsOf(args[n]), name) == ValueOf(PairsOf(args'[n]), name)
    ensures AllPos(args) == AllPos(args') && ValueOf(AllPairs(args), name) == ValueOf(AllPairs(args'), name)
  {
    var n := |args| - 1;
    ValueOfBoth(AllPairs(args[..n]), PairsOf(args[n]), name);
    ValueOfBoth(AllPairs(args'[..n]), PairsOf(args'[n]), name);
  }

  /** Even if codes are equal, the order can be seen in nothing but the order of the names: the
      positionals are the same, and so are the names and the value of each. */
  lemma OnlyNamesMove(srcs: seq<Source>, srcs': seq<Source>, args: seq<Arg>, args': seq<Arg>, r: Record, r': Record)
    requires AllSameButOrder(srcs, srcs', args, args')
    requires Flattens(args, r) && Flattens(args', r')
    ensures r.positionals == r'.positionals
    ensures forall n :: n in r.names <==> n in r'.names
    ensures forall i, j | 0 <= i < |r.names| && 0 <= j < |r'.names| ::
              r.names[i] == r'.names[j] ==> r.values[i] == r'.values[j]
  {
    SameValues(srcs, srcs', args, args', "");
    forall n ensures n in r.names <==> n in r'.names {
      SameValues(srcs, srcs', args, args', n);
      ValueOfIsLast(AllPairs(args), n);
      ValueOfIsLast(AllPairs(args'), n);
    }
    forall i, j | 0 <= i < |r.names| && 0 <= j < |r'.names| && r.names[i] == r'.names[j]
      ensures r.values[i] == r'.values[j]
    {
      SameValues(srcs, srcs', args, args', r.names[i]);
      ValueOfIsLast(AllPairs(args), r.names[i]);
      ValueOfIsLast(AllPairs(args'), r.names[i]);
    }
  }
}
