// One binding under a header, as a dotted key or in an inline table: three
// spellings that read, bind the same and so leave the same tree.

module TomlForms {
  import opened Options
  import opened Text
  import opened TomlTrees
  import opened TomlBindings
  import opened TomlSpelling

  function UnderHeader(line: nat, p: Parts, q: Parts, v: Value): seq<Stmt> {
    [Header(line, false, p), Bind(line + 1, q, v)]
  }

  function Dotted(line: nat, p: Parts, q: Parts, v: Value): seq<Stmt> {
    [Bind(line, p + q, v)]
  }

  function Inlined(line: nat, p: Parts, q: Parts, v: Value): seq<Stmt> {
    [Bind(line, p, InlineValue(line, [Pair(q, v)]))]
  }

  lemma {:induction false} AssignFresh(at: Node, parts: Parts, node: Node)
    requires at.Table? && parts != [] && (parts[0] !in at.entries)
    ensures Assign(at, parts, node).Some?
    decreases |parts|
  {
    if |parts| > 1 {
      AssignFresh(NewTable(node.line, true, false), parts[1..], node);
    }
  }

  lemma {:induction false} HeaderFresh(at: Node, parts: Parts, line: nat)
    requires at.Table? && parts != [] && parts[0] !in at.entries
    ensures HeaderAt(at, parts, false, line).Some?
    ensures AtEnd(HeaderAt(at, parts, false, line).value, parts)
    decreases |parts|
  {
    if |parts| > 1 {
      HeaderFresh(NewTable(line, false, false), parts[1..], line);
    }
  }

  // A path of tables to one with nothing in it.
  predicate AtEnd(at: Node, parts: Parts)
    decreases |parts|
  {
    at.Table? &&
    if parts == [] then at.entries == map[]
    else parts[0] in at.entries && !at.entries[parts[0]].Aot? && AtEnd(at.entries[parts[0]], parts[1..])
  }

  lemma {:induction false} AssignAtEnd(at: Node, current: Parts, parts: Parts, node: Node)
    requires AtEnd(at, current) && parts != []
    ensures AssignAt(at, current, parts, node).Some?
    decreases |current|
  {
    hide Assign;
    if current == [] {
      AssignFresh(at, parts, node);
    } else {
      AssignAtEnd(at.entries[current[0]], current[1..], parts, node);
    }
  }

  lemma BuildOne(stmt: Stmt)
    ensures Build([stmt]) == Step(Start(), stmt)
  {
    hide Step;
    assert [stmt][..0] == [];
  }

  lemma BuildTwo(a: Stmt, b: Stmt)
    ensures Build([a, b]) == if Step(Start(), a).None? then None else Step(Step(Start(), a).value, b)
  {
    hide Step;
    assert [a, b][..1] == [a];
    BuildOne(a);
  }

  // All three read.
  lemma AllRead(line: nat, p: Parts, q: Parts, v: Value)
    requires p != [] && q != [] && Eval(v).Some?
    ensures Build(UnderHeader(line, p, q, v)).Some?
    ensures Build(Dotted(line, p, q, v)).Some?
    ensures Build(Inlined(line, p, q, v)).Some?
  {
    hide Assign, AssignAt, HeaderAt, Eval, EvalPairs, Build;
    var root, node := NewTable(1, true, false), Eval(v).value;
    BuildTwo(Header(line, false, p), Bind(line + 1, q, v));
    HeaderFresh(root, p, line);
    AssignAtEnd(HeaderAt(root, p, false, line).value, p, q, node.(line := line + 1));
    BuildOne(Bind(line, p + q, v));
    AssignAtEnd(root, [], p + q, node.(line := line));
    BuildOne(Bind(line, p, InlineValue(line, [Pair(q, v)])));
    InlineEvals(line, q, v);
    AssignAtEnd(root, [], p, Eval(InlineValue(line, [Pair(q, v)])).value.(line := line));
  }

  lemma InlineEvals(line: nat, q: Parts, v: Value)
    requires q != [] && Eval(v).Some?
    ensures Eval(InlineValue(line, [Pair(q, v)])).Some?
  {
    hide Assign;
    var table := NewTable(line, true, true);
    AssignFresh(table, q, Eval(v).value);
    assert [Pair(q, v)][..0] == [];
    assert EvalPairs(table, [Pair(q, v)]) == EvalPair(table, Pair(q, v));
  }

  // What each writes, besides the root table: the value's own bindings, and
  // perhaps a table above them.
  ghost predicate WritesUnder(stmts: seq<Stmt>, p: Parts, q: Parts, v: Value) {
    forall b :: b in Written(stmts) ==>
      b in Under(p + q, Flat(v)) || b == Binding([], Branching) || b == Binding(p, Branching)
  }

  ghost predicate WritesAll(stmts: seq<Stmt>, p: Parts, q: Parts, v: Value) {
    forall b :: b in Under(p + q, Flat(v)) ==> b in Written(stmts)
  }

  lemma WrittenHeader(line: nat, p: Parts, q: Parts, v: Value)
    ensures WritesUnder(UnderHeader(line, p, q, v), p, q, v) && WritesAll(UnderHeader(line, p, q, v), p, q, v)
  {
    hide Flat, Under;
    var stmts := UnderHeader(line, p, q, v);
    assert stmts[..1] == [Header(line, false, p)];
    assert stmts[..1][..0] == [];
    assert Written(stmts) == Written(stmts[..1]) + Under(p + q, Flat(v));
    assert Written(stmts[..1]) == [Binding([], Branching)] + [Binding(p, Branching)];
  }

  lemma WrittenDotted(line: nat, p: Parts, q: Parts, v: Value)
    ensures WritesUnder(Dotted(line, p, q, v), p, q, v) && WritesAll(Dotted(line, p, q, v), p, q, v)
  {
    hide Flat, Under;
    var stmts := Dotted(line, p, q, v);
    assert stmts[..0] == [] && [] + (p + q) == p + q;
    assert Written(stmts) == [Binding([], Branching)] + Under(p + q, Flat(v));
  }

  lemma WrittenInlined(line: nat, p: Parts, q: Parts, v: Value)
    ensures WritesUnder(Inlined(line, p, q, v), p, q, v) && WritesAll(Inlined(line, p, q, v), p, q, v)
  {
    hide Under;
    var stmts, value := Inlined(line, p, q, v), InlineValue(line, [Pair(q, v)]);
    assert stmts[..0] == [] && [] + p == p;
    assert Written(stmts) == [Binding([], Branching)] + Under(p, Flat(value));
    assert [Pair(q, v)][..0] == [];
    hide Flat;
    assert Flat(value) == [Binding([], Branching)] + Under(q, Flat(v)) by { FlatInline(line, q, v); }
    forall b
      ensures b in Under(p, Flat(value)) <==> b in Under(p + q, Flat(v)) || b == Binding(p, Branching)
    {
      UnderMembers(p, Flat(value), b);
      UnderMembers(p + q, Flat(v), b);
      if p <= b.path {
        UnderMembers(q, Flat(v), Binding(b.path[|p|..], b.what));
        PathCut(b.path, p, q);
      }
    }
  }

  lemma FlatInline(line: nat, q: Parts, v: Value)
    ensures Flat(InlineValue(line, [Pair(q, v)])) == [Binding([], Branching)] + Under(q, Flat(v))
  {
    hide Under;
    assert [Pair(q, v)][..0] == [];
    assert FlatPairs([Pair(q, v)]) == FlatPairs([]) + FlatPair(Pair(q, v));
  }

  lemma PathCut(path: Parts, p: Parts, q: Parts)
    requires p <= path
    ensures p + q <= path <==> q <= path[|p|..]
    ensures p + q <= path ==> path[|p + q|..] == path[|p|..][|q|..]
    ensures path == p <==> path[|p|..] == []
  {
    assert path == p + path[|p|..];
  }

  // They bind the same.
  lemma SameWritten(a: seq<Stmt>, b: seq<Stmt>, p: Parts, q: Parts, v: Value)
    requires q != [] && Eval(v).Some?
    requires WritesUnder(a, p, q, v) && WritesAll(a, p, q, v)
    requires WritesUnder(b, p, q, v) && WritesAll(b, p, q, v)
    ensures SameBindings(a, b)
  {
    hide Written, Flat, Under;
    forall path
      ensures BindsEmpty(a, path) ==> BindsEmpty(b, path)
      ensures BindsEmpty(b, path) ==> BindsEmpty(a, path)
    {
      EmptyBelowBoth(a, b, p, q, v, path);
      EmptyBelowBoth(b, a, p, q, v, path);
    }
  }

  lemma EmptyBelowBoth(a: seq<Stmt>, b: seq<Stmt>, p: Parts, q: Parts, v: Value, path: Parts)
    requires q != [] && Eval(v).Some?
    requires WritesUnder(a, p, q, v) && WritesAll(a, p, q, v)
    requires WritesUnder(b, p, q, v) && WritesAll(b, p, q, v)
    ensures BindsEmpty(a, path) ==> BindsEmpty(b, path)
  {
    hide Written, Flat, Under;
    if BindsEmpty(a, path) {
      var mine := Binding(path, Branching);
      ValueWritten(p, q, v);
      var low :| low in Under(p + q, Flat(v));
      UnderMembers(p + q, Flat(v), low);
      assert p + q <= low.path;
      assert p <= low.path && [] <= low.path;
      assert |low.path| > |p|;
      assert mine in Under(p + q, Flat(v));
      forall c | c in Written(b) && path <= c.path
        ensures path == c.path
      {
        UnderMembers(p + q, Flat(v), mine);
        assert p + q <= path;
        assert c !in Under(p + q, Flat(v)) ==> |c.path| <= |p|;
      }
    }
  }

  lemma ValueWritten(p: Parts, q: Parts, v: Value)
    requires Eval(v).Some?
    ensures exists low :: low in Under(p + q, Flat(v))
  {
    assert Flat(v) != [] by { hide FlatPairs; }
    assert Under(p + q, Flat(v))[0] in Under(p + q, Flat(v));
  }

  // Three spellings, one tree.
  lemma ThreeSpellings(line: nat, p: Parts, q: Parts, v: Value)
    requires p != [] && q != [] && Eval(v).Some?
    ensures
      var a, b, c := Build(UnderHeader(line, p, q, v)), Build(Dotted(line, p, q, v)), Build(Inlined(line, p, q, v));
      && a.Some? && b.Some? && c.Some?
      && Erase(a.value.root) == Erase(b.value.root) == Erase(c.value.root)
  {
    hide Build, Erase, SameBindings, WritesUnder, WritesAll, Eval;
    AllRead(line, p, q, v);
    WrittenHeader(line, p, q, v);
    WrittenDotted(line, p, q, v);
    WrittenInlined(line, p, q, v);
    SameWritten(UnderHeader(line, p, q, v), Dotted(line, p, q, v), p, q, v);
    SameWritten(Dotted(line, p, q, v), Inlined(line, p, q, v), p, q, v);
    SpellingIndependence(UnderHeader(line, p, q, v), Dotted(line, p, q, v));
    SpellingIndependence(Dotted(line, p, q, v), Inlined(line, p, q, v));
  }
}
