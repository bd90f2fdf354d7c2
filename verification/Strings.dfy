/** String keys in order: `write_hash_str_var` sorts the keys before it writes them, so that
    the order in which the hash yields them cannot be seen. */
module Strings {
  /** `MVM_string_compare(a, b) < 0`. */
  predicate Before(a: string, b: string) {
    if b == [] then false
    else if a == [] then true
    else if a[0] != b[0] then a[0] < b[0]
    else Before(a[1..], b[1..])
  }

  lemma BeforeTotal(a: string, b: string)
    ensures a != b ==> Before(a, b) || Before(b, a)
    ensures !(Before(a, b) && Before(b, a))
    decreases |a|
  {
    if a != [] && b != [] && a[0] == b[0] {
      BeforeTotal(a[1..], b[1..]);
      assert a == [a[0]] + a[1..] && b == [b[0]] + b[1..];
    }
  }

  lemma {:induction false} BeforeTransitive(a: string, b: string, c: string)
    requires Before(a, b) && Before(b, c)
    ensures Before(a, c)
    decreases |a|
  {
    if a != [] && a[0] == b[0] == c[0] { BeforeTransitive(a[1..], b[1..], c[1..]); }
  }

  ghost predicate Ascending(keys: seq<string>) {
    forall i, j :: 0 <= i < j < |keys| ==> Before(keys[i], keys[j])
  }

  function Insert(k: string, keys: seq<string>): (r: seq<string>)
    ensures forall x :: x in r <==> x == k || x in keys
  {
    if keys == [] then [k]
    else if Before(k, keys[0]) then [k] + keys
    else [keys[0]] + Insert(k, keys[1..])
  }

  function Sort(keys: seq<string>): (r: seq<string>)
    ensures forall x :: x in r <==> x in keys
  {
    if keys == [] then [] else Insert(keys[0], Sort(keys[1..]))
  }

  lemma {:induction false} InsertAscends(k: string, keys: seq<string>)
    requires Ascending(keys) && k !in keys
    ensures Ascending(Insert(k, keys)) && |Insert(k, keys)| == |keys| + 1
  {
    if keys != [] {
      BeforeTotal(k, keys[0]);
      if Before(k, keys[0]) {
        forall j | 0 < j < |keys| ensures Before(k, keys[j]) { BeforeTransitive(k, keys[0], keys[j]); }
      } else {
        InsertAscends(k, keys[1..]);
        var r := Insert(k, keys[1..]);
        forall j | 0 <= j < |r| ensures Before(keys[0], r[j]) {
          assert r[j] in r;
        }
      }
    }
  }

  ghost predicate Distinct(keys: seq<string>) {
    forall i, j :: 0 <= i < j < |keys| ==> keys[i] != keys[j]
  }

  lemma {:induction false} SortAscends(keys: seq<string>)
    requires Distinct(keys)
    ensures Ascending(Sort(keys)) && |Sort(keys)| == |keys|
  {
    if keys != [] {
      SortAscends(keys[1..]);
      InsertAscends(keys[0], Sort(keys[1..]));
    }
  }

  /** Keys in ascending order are determined by the set of them. */
  lemma {:induction false} AscendingUnique(a: seq<string>, b: seq<string>)
    requires Ascending(a) && Ascending(b) && forall x :: x in a <==> x in b
    ensures a == b
  {
    assert (a != [] ==> a[0] in b) && (b != [] ==> b[0] in a);
    if a != [] && b != [] {
      BeforeTotal(a[0], b[0]);
      forall x ensures x in a[1..] <==> x in b[1..] {
        if x in a[1..] { AfterFirst(a, x); assert x in b; }
        if x in b[1..] { AfterFirst(b, x); assert x in a; }
      }
      AscendingUnique(a[1..], b[1..]);
    }
  }

  lemma AfterFirst(a: seq<string>, x: string)
    requires a != [] && Ascending(a) && x in a[1..]
    ensures Before(a[0], x) && x != a[0]
  {
    BeforeTotal(x, x);
  }

  /** How a hash may yield its keys: any order, each once. */
  type Iteration = set<string> -> seq<string>

  ghost predicate Enumerates(it: Iteration) {
    forall s: set<string> :: Distinct(it(s)) && forall x :: x in it(s) <==> x in s
  }

  /** Whatever the order of iteration, the sorted keys are the same. */
  lemma SortedKeysAgree(it: Iteration, it': Iteration, s: set<string>)
    requires Enumerates(it) && Enumerates(it')
    ensures Sort(it(s)) == Sort(it'(s))
  {
    assert Distinct(it(s)) && Distinct(it'(s));
    SortAscends(it(s));
    SortAscends(it'(s));
    AscendingUnique(Sort(it(s)), Sort(it'(s)));
  }
}
