// Lines do not matter to what statements build: statements that differ in
// their lines alone build trees that differ in their lines alone.

module TomlLines {
  import opened Options
  import opened Text
  import opened TomlTrees
  import opened TomlBindings

  function UnlineNode(node: Node): Node
    decreases node
  {
    match node
    case Table(_, entries, defined, inline) => Table(0, map k | k in entries :: UnlineNode(entries[k]), defined, inline)
    case Aot(_, tables) => Aot(0, UnlineNodes(tables))
    case List(_, items) => List(0, UnlineNodes(items))
    case Str(_, s) => Str(0, s)
    case Bool(_, b) => Bool(0, b)
    case Other(_, raw) => Other(0, raw)
  }

  function UnlineNodes(nodes: seq<Node>): (r: seq<Node>)
    ensures |r| == |nodes| && forall i :: 0 <= i < |r| ==> r[i] == UnlineNode(nodes[i])
    decreases nodes
  {
    if nodes == [] then [] else UnlineNodes(nodes[..|nodes| - 1]) + [UnlineNode(nodes[|nodes| - 1])]
  }

  function UnlineValue(v: Value): Value
    decreases v
  {
    match v
    case StrValue(_, s) => StrValue(0, s)
    case BoolValue(_, b) => BoolValue(0, b)
    case OtherValue(_, raw) => OtherValue(0, raw)
    case ListValue(_, items) => ListValue(0, UnlineValues(items))
    case InlineValue(_, pairs) => InlineValue(0, UnlinePairs(pairs))
  }

  function UnlineValues(items: seq<Value>): (r: seq<Value>)
    ensures |r| == |items| && forall i :: 0 <= i < |r| ==> r[i] == UnlineValue(items[i])
    decreases items
  {
    if items == [] then [] else UnlineValues(items[..|items| - 1]) + [UnlineValue(items[|items| - 1])]
  }

  function UnlinePairs(pairs: seq<Pair>): (r: seq<Pair>)
    ensures |r| == |pairs| && forall i :: 0 <= i < |r| ==> r[i] == UnlinePair(pairs[i])
    decreases pairs
  {
    if pairs == [] then [] else UnlinePairs(pairs[..|pairs| - 1]) + [UnlinePair(pairs[|pairs| - 1])]
  }

  function UnlinePair(pair: Pair): Pair
    decreases pair
  {
    Pair(pair.parts, UnlineValue(pair.value))
  }

  function UnlineStmt(stmt: Stmt): Stmt {
    match stmt
    case Header(_, many, parts) => Header(0, many, parts)
    case Bind(_, parts, value) => Bind(0, parts, UnlineValue(value))
  }

  function UnlineStmts(stmts: seq<Stmt>): (r: seq<Stmt>)
    ensures |r| == |stmts| && forall i :: 0 <= i < |r| ==> r[i] == UnlineStmt(stmts[i])
  {
    seq(|stmts|, i requires 0 <= i < |stmts| => UnlineStmt(stmts[i]))
  }

  function UnlineFound(node: Option<Node>): Option<Node> {
    if node.None? then None else Some(UnlineNode(node.value))
  }

  function UnlineDoc(doc: Doc): Doc {
    Doc(UnlineNode(doc.root), doc.current)
  }

  function UnlineBuilt(doc: Option<Doc>): Option<Doc> {
    if doc.None? then None else Some(UnlineDoc(doc.value))
  }

  // --- Operations on trees ---

  lemma UnlineTable(node: Node)
    requires node.Table?
    ensures UnlineNode(node).Table? && UnlineNode(node).entries.Keys == node.entries.Keys
    ensures UnlineNode(node).defined == node.defined && UnlineNode(node).inline == node.inline
    ensures forall k :: k in node.entries ==> UnlineNode(node).entries[k] == UnlineNode(node.entries[k])
  {
  }

  lemma UnlineEntry(at: Node, k: Text, node: Node)
    requires at.Table?
    ensures UnlineNode(at).Table?
    ensures UnlineNode(at.(entries := at.entries[k := node])) ==
            UnlineNode(at).(entries := UnlineNode(at).entries[k := UnlineNode(node)])
  {
    var with := at.(entries := at.entries[k := node]);
    UnlineTable(at);
    UnlineTable(with);
    TableLine(at);
    TableLine(with);
    hide UnlineNode;
    assert UnlineNode(with).entries == UnlineNode(at).entries[k := UnlineNode(node)];
  }

  lemma TableLine(at: Node)
    requires at.Table?
    ensures UnlineNode(at).line == 0
  {
  }

  lemma UnlineNew(line: nat, defined: bool, inline: bool)
    ensures UnlineNode(NewTable(line, defined, inline)) == NewTable(0, defined, inline)
  {
  }

  // What a path finds or makes next.
  lemma UnlineNext(at: Node, part: Text, made: Node)
    requires at.Table?
    ensures UnlineNode(at).Table?
    ensures UnlineNode(if part in at.entries then at.entries[part] else made) ==
            if part in UnlineNode(at).entries then UnlineNode(at).entries[part] else UnlineNode(made)
  {
    UnlineTable(at);
  }

  lemma UnlineOpen(node: Node)
    ensures UnlineNode(node).Table? <==> node.Table?
    ensures UnlineNode(node).Aot? <==> node.Aot?
    ensures Open(UnlineNode(node)) <==> Open(node)
    ensures UnlineNode(node).line == 0
  {
  }

  lemma {:induction false} AssignUnlined(at: Node, parts: Parts, node: Node)
    requires at.Table?
    ensures UnlineNode(at).Table?
    ensures Assign(UnlineNode(at), parts, UnlineNode(node)) == UnlineFound(Assign(at, parts, node))
    decreases |parts|
  {
    hide UnlineNode;
    UnlineOpen(at);
    UnlineOpen(node);
    UnlineTable(at);
    if parts != [] {
      var part := parts[0];
      if |parts| == 1 {
        UnlineEntry(at, part, node);
      } else {
        var made := NewTable(node.line, true, false);
        var next := if part in at.entries then at.entries[part] else made;
        UnlineNew(node.line, true, false);
        UnlineNext(at, part, made);
        UnlineOpen(next);
        if Open(next) {
          AssignUnlined(next, parts[1..], node);
          if Assign(next, parts[1..], node).Some? {
            UnlineEntry(at, part, Assign(next, parts[1..], node).value);
          }
        }
      }
    }
  }

  lemma {:induction false} EvalUnlined(v: Value)
    ensures Eval(UnlineValue(v)) == UnlineFound(Eval(v))
    decreases v, 1
  {
    match v
    case ListValue(line, items) =>
      EvalItemsUnlined(items);
      hide EvalItems;
      if EvalItems(items).Some? {
        assert UnlineNode(List(line, EvalItems(items).value)) == List(0, UnlineNodes(EvalItems(items).value));
      }
    case InlineValue(line, pairs) =>
      EvalPairsUnlined(NewTable(line, true, true), pairs);
      UnlineNew(line, true, true);
    case _ =>
  }

  lemma {:induction false} EvalItemsUnlined(items: seq<Value>)
    ensures EvalItems(UnlineValues(items)) ==
            if EvalItems(items).None? then None else Some(UnlineNodes(EvalItems(items).value))
    decreases items
  {
    hide Eval, UnlineValue;
    if items != [] {
      var init, last := items[..|items| - 1], items[|items| - 1];
      EvalItemsUnlined(init);
      EvalUnlined(last);
      var all := UnlineValues(items);
      assert all[..|all| - 1] == UnlineValues(init);
      assert all[|all| - 1] == UnlineValue(last);
      if EvalItems(init).Some? && Eval(last).Some? {
        var nodes := EvalItems(init).value;
        assert UnlineNodes(nodes + [Eval(last).value]) == UnlineNodes(nodes) + [UnlineNode(Eval(last).value)];
      }
    }
  }

  lemma {:induction false} EvalPairsUnlined(table: Node, pairs: seq<Pair>)
    requires table.Table?
    ensures UnlineNode(table).Table?
    ensures EvalPairs(UnlineNode(table), UnlinePairs(pairs)) == UnlineFound(EvalPairs(table, pairs))
    decreases pairs
  {
    UnlineOpen(table);
    hide EvalPair, UnlinePair, UnlineNode;
    if pairs != [] {
      var init, last := pairs[..|pairs| - 1], pairs[|pairs| - 1];
      EvalPairsUnlined(table, init);
      var all := UnlinePairs(pairs);
      assert all[..|all| - 1] == UnlinePairs(init);
      assert all[|all| - 1] == UnlinePair(last);
      if EvalPairs(table, init).Some? {
        EvalPairUnlined(EvalPairs(table, init).value, last);
      }
    }
  }

  lemma {:induction false} EvalPairUnlined(table: Node, pair: Pair)
    requires table.Table?
    ensures UnlineNode(table).Table?
    ensures EvalPair(UnlineNode(table), UnlinePair(pair)) == UnlineFound(EvalPair(table, pair))
    decreases pair
  {
    UnlineOpen(table);
    hide Eval, Assign, UnlineNode;
    EvalUnlined(pair.value);
    if Eval(pair.value).Some? {
      AssignUnlined(table, pair.parts, Eval(pair.value).value);
    }
  }

  // The last item of an array of tables.
  lemma UnlineLast(aot: Node)
    requires aot.Aot? && aot.tables != []
    ensures UnlineNode(aot).Aot? && |UnlineNode(aot).tables| == |aot.tables|
    ensures UnlineNode(aot).tables[|aot.tables| - 1] == UnlineNode(aot.tables[|aot.tables| - 1])
  {
  }

  lemma UnlineSetLast(aot: Node, node: Node)
    requires aot.Aot? && aot.tables != []
    ensures UnlineNode(aot).Aot? && |UnlineNode(aot).tables| == |aot.tables|
    ensures
      var last := |aot.tables| - 1;
      UnlineNode(aot.(tables := aot.tables[last := node])) == UnlineNode(aot).(tables := UnlineNode(aot).tables[last := UnlineNode(node)])
  {
    var last := |aot.tables| - 1;
    assert UnlineNodes(aot.tables[last := node]) == UnlineNodes(aot.tables)[last := UnlineNode(node)];
  }

  lemma UnlineEmptyAot(aot: Node)
    requires aot.Aot?
    ensures UnlineNode(aot).Aot?
    ensures UnlineNode(aot).tables == [] <==> aot.tables == []
  {
  }

  lemma UnlinePush(aot: Node, node: Node)
    requires aot.Aot?
    ensures UnlineNode(aot).Aot?
    ensures UnlineNode(aot.(tables := aot.tables + [node])) == UnlineNode(aot).(tables := UnlineNode(aot).tables + [UnlineNode(node)])
  {
    assert UnlineNodes(aot.tables + [node]) == UnlineNodes(aot.tables) + [UnlineNode(node)];
  }

  lemma {:induction false} AssignAtUnlined(at: Node, current: Parts, parts: Parts, node: Node)
    ensures AssignAt(UnlineNode(at), current, parts, UnlineNode(node)) == UnlineFound(AssignAt(at, current, parts, node))
    decreases |current|
  {
    hide UnlineNode, Assign;
    UnlineOpen(at);
    if at.Table? {
      UnlineTable(at);
      if current == [] {
        AssignUnlined(at, parts, node);
      } else if current[0] in at.entries {
        var next := at.entries[current[0]];
        UnlineOpen(next);
        if next.Aot? {
          UnlineEmptyAot(next);
          if next.tables != [] {
            AssignAtUnlinedLast(at, current, parts, node);
          }
        } else {
          AssignAtUnlined(next, current[1..], parts, node);
          if AssignAt(next, current[1..], parts, node).Some? {
            UnlineEntry(at, current[0], AssignAt(next, current[1..], parts, node).value);
          }
        }
      }
    }
  }

  lemma {:induction false} AssignAtUnlinedLast(at: Node, current: Parts, parts: Parts, node: Node)
    requires at.Table? && current != [] && current[0] in at.entries
    requires at.entries[current[0]].Aot? && at.entries[current[0]].tables != []
    ensures AssignAt(UnlineNode(at), current, parts, UnlineNode(node)) == UnlineFound(AssignAt(at, current, parts, node))
    decreases |current|, 0
  {
    hide UnlineNode;
    UnlineOpen(at);
    UnlineTable(at);
    var next := at.entries[current[0]];
    var last := |next.tables| - 1;
    UnlineLast(next);
    UnlineOpen(next);
    AssignAtUnlined(next.tables[last], current[1..], parts, node);
    if AssignAt(next.tables[last], current[1..], parts, node).Some? {
      var below := AssignAt(next.tables[last], current[1..], parts, node).value;
      UnlineSetLast(next, below);
      UnlineEntry(at, current[0], next.(tables := next.tables[last := below]));
    }
  }

  lemma OpenLastUnlined(at: Node, part: Text, many: bool, line: nat)
    requires at.Table?
    ensures UnlineNode(at).Table?
    ensures OpenLast(UnlineNode(at), part, many, 0) == UnlineFound(OpenLast(at, part, many, line))
  {
    UnlineOpen(at);
    UnlineTable(at);
    var item := NewTable(line, true, false);
    UnlineNew(line, true, false);
    if part !in at.entries {
      var node := if many then Aot(line, [item]) else item;
      UnlineEntry(at, part, node);
      assert UnlineNodes([item]) == [UnlineNode(item)];
    } else {
      var seen := at.entries[part];
      UnlineOpen(seen);
      if many {
        if seen.Aot? {
          UnlinePush(seen, item);
          UnlineEntry(at, part, seen.(tables := seen.tables + [item]));
        }
      } else if seen.Table? && !seen.defined {
        UnlineEntry(at, part, seen.(defined := true));
        assert UnlineNode(seen.(defined := true)) == UnlineNode(seen).(defined := true);
      }
    }
  }

  lemma {:induction false} HeaderAtUnlined(at: Node, parts: Parts, many: bool, line: nat)
    requires at.Table?
    ensures UnlineNode(at).Table?
    ensures HeaderAt(UnlineNode(at), parts, many, 0) == UnlineFound(HeaderAt(at, parts, many, line))
    decreases |parts|
  {
    UnlineOpen(at);
    hide UnlineNode, OpenLast;
    UnlineTable(at);
    if parts != [] {
      if |parts| == 1 {
        OpenLastUnlined(at, parts[0], many, line);
      } else {
        var part, made := parts[0], NewTable(line, false, false);
        var next := if part in at.entries then at.entries[part] else made;
        UnlineNew(line, false, false);
        UnlineNext(at, part, made);
        UnlineOpen(next);
        if next.Aot? {
          UnlineEmptyAot(next);
          if next.tables != [] {
            HeaderAtUnlinedLast(at, parts, many, line);
          }
        } else if Open(next) {
          HeaderAtUnlined(next, parts[1..], many, line);
          if HeaderAt(next, parts[1..], many, line).Some? {
            UnlineEntry(at, part, HeaderAt(next, parts[1..], many, line).value);
          }
        }
      }
    }
  }

  lemma {:induction false} HeaderAtUnlinedLast(at: Node, parts: Parts, many: bool, line: nat)
    requires at.Table? && |parts| > 1 && parts[0] in at.entries
    requires at.entries[parts[0]].Aot? && at.entries[parts[0]].tables != []
    ensures UnlineNode(at).Table?
    ensures HeaderAt(UnlineNode(at), parts, many, 0) == UnlineFound(HeaderAt(at, parts, many, line))
    decreases |parts|, 0
  {
    UnlineOpen(at);
    hide UnlineNode, OpenLast;
    UnlineTable(at);
    var part := parts[0];
    var next := at.entries[part];
    var last := |next.tables| - 1;
    UnlineLast(next);
    UnlineOpen(next);
    UnlineOpen(next.tables[last]);
    if Open(next.tables[last]) {
      HeaderAtUnlined(next.tables[last], parts[1..], many, line);
      if HeaderAt(next.tables[last], parts[1..], many, line).Some? {
        var below := HeaderAt(next.tables[last], parts[1..], many, line).value;
        UnlineSetLast(next, below);
        UnlineEntry(at, part, next.(tables := next.tables[last := below]));
      }
    }
  }

  // --- Statements ---

  lemma StepUnlined(doc: Doc, stmt: Stmt)
    ensures Step(UnlineDoc(doc), UnlineStmt(stmt)) == UnlineBuilt(Step(doc, stmt))
  {
    hide UnlineNode, Eval, AssignAt, HeaderAt;
    UnlineOpen(doc.root);
    match stmt
    case Header(line, many, parts) =>
      if doc.root.Table? {
        HeaderAtUnlined(doc.root, parts, many, line);
      }
    case Bind(line, parts, value) =>
      EvalUnlined(value);
      if Eval(value).Some? {
        var node := Eval(value).value;
        LineUnlined(node, line);
        AssignAtUnlined(doc.root, doc.current, parts, node.(line := line));
      }
  }

  lemma LineUnlined(node: Node, line: nat)
    ensures UnlineNode(node.(line := line)) == UnlineNode(node) == UnlineNode(node).(line := 0)
  {
  }

  // Statements that differ in their lines alone build alike.
  lemma {:induction false} BuildAlike(a: seq<Stmt>, b: seq<Stmt>)
    requires UnlineStmts(a) == UnlineStmts(b)
    ensures UnlineBuilt(Build(a)) == UnlineBuilt(Build(b))
    decreases |a|
  {
    hide Step, UnlineStmt, UnlineDoc;
    assert |a| == |UnlineStmts(a)| == |b|;
    if a != [] {
      var n := |a| - 1;
      assert UnlineStmt(a[n]) == UnlineStmts(a)[n] == UnlineStmt(b[n]);
      assert UnlineStmts(a[..n]) == UnlineStmts(a)[..n];
      assert UnlineStmts(b[..n]) == UnlineStmts(b)[..n];
      BuildAlike(a[..n], b[..n]);
      if Build(a[..n]).Some? {
        StepUnlined(Build(a[..n]).value, a[n]);
        StepUnlined(Build(b[..n]).value, b[n]);
      }
    }
  }

  // A tree's shape has no lines.
  lemma {:induction false} EraseUnlined(node: Node)
    ensures Erase(UnlineNode(node)) == Erase(node)
    decreases node
  {
    match node
    case Table(_, entries, _, _) =>
      forall k | k in entries
        ensures Erase(UnlineNode(entries[k])) == Erase(entries[k])
      {
        EraseUnlined(entries[k]);
      }
      assert Erase(UnlineNode(node)).entries == Erase(node).entries;
    case Aot(_, tables) => EraseAllUnlined(tables);
    case List(_, items) => EraseAllUnlined(items);
    case _ =>
  }

  lemma {:induction false} EraseAllUnlined(nodes: seq<Node>)
    ensures EraseAll(UnlineNodes(nodes)) == EraseAll(nodes)
    decreases nodes
  {
    forall i | 0 <= i < |nodes|
      ensures Erase(UnlineNode(nodes[i])) == Erase(nodes[i])
    {
      EraseUnlined(nodes[i]);
    }
  }
}
