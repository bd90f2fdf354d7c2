/** The reader's side of a frame's lexicals (src/6model/serialization.c): a number, then names, and
    after each name a value of the type that the frame's static code has for it. */
module Lexicals {
  import opened Wrappers
  import opened Bytes
  import opened Tables
  import opened Places
  import opened Values
  import opened Parts
  import opened Serialize

  type Types = map<MString, Expected>

  function ReadLexical(env: World, t: Tables, types: Types, b: seq<Byte>, pos: nat): Parsed<Lexical> {
    var name := ReadStr(env.codes.strs, t, b, pos);
    if name.Bad? || name.value !in types then Bad
    else Map(ReadPart(env, t, types[name.value], b, name.end), v => Lexical(name.value, v))
  }

  function ReadLexicals(env: World, t: Tables, types: Types, b: seq<Byte>, pos: nat, n: int): Parsed<seq<Lexical>>
    decreases if n > 0 then n else 0
  {
    if n <= 0 then Parsed([], pos)
    else
      var l := ReadLexical(env, t, types, b, pos);
      if l.Bad? then Bad
      else
        var ls := ReadLexicals(env, t, types, b, l.end, n - 1);
        if ls.Bad? then Bad else Parsed([l.value] + ls.value, ls.end)
  }

  /** `deserialize_context`, as far as the lexicals go. */
  function ReadFrame(env: World, t: Tables, types: Types, b: seq<Byte>, pos: nat): Parsed<seq<Lexical>> {
    var n := env.codes.ints.dec(b, pos);
    if n.Bad? then Bad else ReadLexicals(env, t, types, b, n.end, n.value)
  }

  /** The static code has the lexicals, with the types of their values. */
  ghost predicate Typed(types: Types, lexicals: seq<Lexical>) {
    forall i | 0 <= i < |lexicals| ::
      lexicals[i].name in types && types[lexicals[i].name] == ShapeOf(lexicals[i].value)
  }

  /** Reading two parts and the rest. */
  lemma TwoParts(env: World, t: Tables, l: Lexical, ps: seq<Part>, rest: seq<Part>, b: seq<Byte>, p: nat)
    requires ps == [RawStr(l.name), l.value] + rest
    requires ReadParts(env, t, ShapesOf(ps), b, p).Parsed? && ReadParts(env, t, ShapesOf(ps), b, p).value == ps
    ensures var name := ReadPart(env, t, AStr, b, p);
            && name.Parsed? && name.value == RawStr(l.name)
            && var v := ReadPart(env, t, ShapeOf(l.value), b, name.end);
               && v.Parsed? && v.value == l.value
               && ReadParts(env, t, ShapesOf(rest), b, v.end).Parsed?
               && ReadParts(env, t, ShapesOf(rest), b, v.end).value == rest
  {
    assert ps[0] == RawStr(l.name) && ps[1..] == [l.value] + rest && ps[1..][1..] == rest;
    var xs, name := ShapesOf(ps), ReadPart(env, t, AStr, b, p);
    assert xs[0] == AStr && xs[1..] == ShapesOf(ps[1..]);
    var ys := ShapesOf(ps[1..]);
    assert ys[0] == ShapeOf(l.value) && ys[1..] == ShapesOf(rest);
    NextPart(env, t, xs, ps, b, p);
    NextPart(env, t, ys, ps[1..], b, name.end);
  }

  lemma NextPart(env: World, t: Tables, xs: seq<Expected>, ps: seq<Part>, b: seq<Byte>, p: nat)
    requires xs != [] && ps != []
    requires ReadParts(env, t, xs, b, p).Parsed? && ReadParts(env, t, xs, b, p).value == ps
    ensures var r := ReadPart(env, t, xs[0], b, p);
            && r.Parsed? && r.value == ps[0]
            && ReadParts(env, t, xs[1..], b, r.end).Parsed? && ReadParts(env, t, xs[1..], b, r.end).value == ps[1..]
  {
    var r := ReadPart(env, t, xs[0], b, p);
    assert ps == [r.value] + ReadParts(env, t, xs[1..], b, r.end).value;
  }

  lemma {:induction false} LexicalsRead(
    env: World, t: Tables, types: Types, lexicals: seq<Lexical>, b: seq<Byte>, p: nat)
    requires Typed(types, lexicals) && Reads(env, t, b, p, NamesAndValues(lexicals))
    ensures var r := ReadLexicals(env, t, types, b, p, |lexicals|); r.Parsed? && r.value == lexicals
    decreases |lexicals|
  {
    if lexicals != [] {
      var l := lexicals[0];
      TwoParts(env, t, l, NamesAndValues(lexicals), NamesAndValues(lexicals[1..]), b, p);
      var r := ReadLexical(env, t, types, b, p);
      assert l.name in types && types[l.name] == ShapeOf(l.value);
      assert r.Parsed? && r.value == l;
      LexicalsRead(env, t, types, lexicals[1..], b, r.end);
      assert lexicals == [l] + lexicals[1..];
    }
  }

  /** A context's row leads the reader, who goes by the number and the names it finds, to the
      lexicals of the frame. */
  lemma FrameRead(env: World, w: Writer, row: ContextRow, data: seq<Byte>, code: nat, node: FrameNode, types: Types)
    requires ContextReads(env, w, row, data, code, node) && Typed(types, node.lexicals)
    ensures var r := ReadFrame(env, w.tabs, types, data, row.offset); r.Parsed? && r.value == node.lexicals
  {
    var ps := LexicalParts(node.lexicals);
    assert ps[0] == RawInt(|node.lexicals|) && ps[1..] == NamesAndValues(node.lexicals);
    assert ShapesOf(ps)[0] == AnInt && ShapesOf(ps)[1..] == ShapesOf(ps[1..]);
    NextPart(env, w.tabs, ShapesOf(ps), ps, data, row.offset);
    LexicalsRead(env, w.tabs, types, node.lexicals, data, env.codes.ints.dec(data, row.offset).end);
  }
}
