// Every statement that reads only adds to the tree, arrays of tables
// included, and what it binds stands where the statement says.

module TomlGrowth {
  import opened Options
  import opened Text
  import opened TomlTrees

  // What stood before still stands: tables and arrays of tables may have
  // gained entries or items at their ends, an inline table and any other value
  // is as it was.
  ghost predicate Grows(a: Node, b: Node)
    decreases a
  {
    match a
    case Table(line, entries, defined, inline) =>
      if inline then a == b
      else
        && b.Table? && b.line == line && !b.inline && (defined ==> b.defined)
        && forall k :: k in entries ==> k in b.entries && Grows(entries[k], b.entries[k])
    case Aot(line, tables) =>
      && b.Aot? && b.line == line && |tables| <= |b.tables|
      && forall i :: 0 <= i < |tables| ==> Grows(tables[i], b.tables[i])
    case _ => a == b
  }

  lemma {:induction false} GrowsSelf(a: Node)
    ensures Grows(a, a)
    decreases a
  {
    if a.Table? {
      forall k | k in a.entries
        ensures Grows(a.entries[k], a.entries[k])
      {
        GrowsSelf(a.entries[k]);
      }
    } else if a.Aot? {
      forall i | 0 <= i < |a.tables|
        ensures Grows(a.tables[i], a.tables[i])
      {
        GrowsSelf(a.tables[i]);
      }
    }
  }

  lemma {:induction false} GrowsOn(a: Node, b: Node, c: Node)
    requires Grows(a, b) && Grows(b, c)
    ensures Grows(a, c)
    decreases a
  {
    if a.Table? && !a.inline {
      forall k | k in a.entries
        ensures k in c.entries && Grows(a.entries[k], c.entries[k])
      {
        GrowsOn(a.entries[k], b.entries[k], c.entries[k]);
      }
    } else if a.Aot? {
      forall i | 0 <= i < |a.tables|
        ensures Grows(a.tables[i], c.tables[i])
      {
        GrowsOn(a.tables[i], b.tables[i], c.tables[i]);
      }
    }
  }

  // One entry that is new or has grown.
  lemma EntryGrows(at: Node, k: Text, node: Node)
    requires Open(at) && (k in at.entries ==> Grows(at.entries[k], node))
    ensures Grows(at, at.(entries := at.entries[k := node]))
  {
    forall j | j in at.entries
      ensures Grows(at.entries[j], at.entries[k := node][j])
    {
      GrowsSelf(at.entries[j]);
    }
  }

  // The last item of an array of tables has grown, or one was added.
  lemma LastGrows(aot: Node, node: Node)
    requires aot.Aot? && aot.tables != [] && Grows(aot.tables[|aot.tables| - 1], node)
    ensures Grows(aot, aot.(tables := aot.tables[|aot.tables| - 1 := node]))
  {
    forall i | 0 <= i < |aot.tables| - 1
      ensures Grows(aot.tables[i], aot.tables[i])
    {
      GrowsSelf(aot.tables[i]);
    }
  }

  lemma PushGrows(aot: Node, node: Node)
    requires aot.Aot?
    ensures Grows(aot, aot.(tables := aot.tables + [node]))
  {
    forall i | 0 <= i < |aot.tables|
      ensures Grows(aot.tables[i], aot.tables[i])
    {
      GrowsSelf(aot.tables[i]);
    }
  }

  lemma {:induction false} AssignGrows(at: Node, parts: Parts, node: Node)
    requires Open(at) && Assign(at, parts, node).Some?
    ensures Grows(at, Assign(at, parts, node).value)
    decreases |parts|
  {
    hide Grows;
    var part := parts[0];
    if |parts| == 1 {
      EntryGrows(at, part, node);
    } else {
      var next := if part in at.entries then at.entries[part] else NewTable(node.line, true, false);
      AssignGrows(next, parts[1..], node);
      EntryGrows(at, part, Assign(next, parts[1..], node).value);
    }
  }

  // Every inline table is marked as defined, so no header reopens one.
  ghost predicate InlineDefined(node: Node)
    decreases node
  {
    match node
    case Table(_, entries, defined, inline) => (inline ==> defined) && forall k :: k in entries ==> InlineDefined(entries[k])
    case Aot(_, tables) => forall i :: 0 <= i < |tables| ==> InlineDefined(tables[i])
    case _ => true
  }

  // A path that leads through open tables, by the last item of each array.
  ghost predicate OpenPath(at: Node, path: Parts)
    decreases |path|
  {
    && Open(at)
    && (path != [] ==>
          && path[0] in at.entries
          && var next := at.entries[path[0]];
          if next.Aot? then next.tables != [] && OpenPath(next.tables[|next.tables| - 1], path[1..])
          else OpenPath(next, path[1..]))
  }

  lemma {:induction false} HeaderGrows(at: Node, parts: Parts, many: bool, line: nat)
    requires Open(at) && InlineDefined(at) && HeaderAt(at, parts, many, line).Some?
    ensures
      var after := HeaderAt(at, parts, many, line).value;
      Grows(at, after) && OpenPath(after, parts)
    decreases |parts|
  {
    hide Grows;
    var part := parts[0];
    if |parts| == 1 {
      OpenLastGrows(at, part, many, line);
    } else {
      var next := if part in at.entries then at.entries[part] else NewTable(line, false, false);
      if next.Aot? {
        var last := |next.tables| - 1;
        HeaderGrows(next.tables[last], parts[1..], many, line);
        var below := HeaderAt(next.tables[last], parts[1..], many, line).value;
        LastGrows(next, below);
        EntryGrows(at, part, next.(tables := next.tables[last := below]));
      } else {
        HeaderGrows(next, parts[1..], many, line);
        var below := HeaderAt(next, parts[1..], many, line).value;
        EntryGrows(at, part, below);
        assert OpenPath(below, parts[1..]);
      }
    }
  }

  lemma OpenLastGrows(at: Node, part: Text, many: bool, line: nat)
    requires Open(at) && InlineDefined(at) && OpenLast(at, part, many, line).Some?
    ensures
      var after := OpenLast(at, part, many, line).value;
      Grows(at, after) && OpenPath(after, [part])
  {
    var after := OpenLast(at, part, many, line).value;
    if part in at.entries {
      var seen := at.entries[part];
      if many {
        PushGrows(seen, NewTable(line, true, false));
      } else {
        GrowsSelf(seen);
        assert Grows(seen, seen.(defined := true));
      }
    }
    EntryGrows(at, part, after.entries[part]);
    assert OpenPath(after, [part]);
  }

  // What stands at a path below a table.
  function NodeAt(at: Node, parts: Parts): Option<Node>
    decreases |parts|
  {
    if parts == [] then Some(at)
    else if !at.Table? || parts[0] !in at.entries then None
    else NodeAt(at.entries[parts[0]], parts[1..])
  }

  // The table at a path, by the last item of each array of tables.
  function TableAt(at: Node, path: Parts): Node
    requires OpenPath(at, path)
    decreases |path|
  {
    if path == [] then at
    else
      var next := at.entries[path[0]];
      if next.Aot? then TableAt(next.tables[|next.tables| - 1], path[1..]) else TableAt(next, path[1..])
  }

  lemma {:induction false} AssignLands(at: Node, parts: Parts, node: Node)
    requires at.Table? && Assign(at, parts, node).Some?
    ensures NodeAt(Assign(at, parts, node).value, parts) == Some(node)
    decreases |parts|
  {
    if |parts| == 1 {
      assert NodeAt(node, parts[1..]) == Some(node);
    } else {
      var next := if parts[0] in at.entries then at.entries[parts[0]] else NewTable(node.line, true, false);
      AssignLands(next, parts[1..], node);
    }
  }

  lemma {:induction false} AssignKeepsOpen(at: Node, parts: Parts, node: Node)
    requires Open(at) && Assign(at, parts, node).Some?
    ensures Open(Assign(at, parts, node).value)
  {
  }

  // A statement adds to the table its header opened, and its value stands there.
  lemma {:induction false} AssignAtGrows(at: Node, current: Parts, parts: Parts, node: Node)
    requires OpenPath(at, current) && AssignAt(at, current, parts, node).Some?
    ensures
      var after := AssignAt(at, current, parts, node).value;
      && Grows(at, after)
      && OpenPath(after, current)
      && NodeAt(TableAt(after, current), parts) == Some(node)
    decreases |current|
  {
    hide Grows, Assign, NodeAt;
    if current == [] {
      AssignGrows(at, parts, node);
      AssignLands(at, parts, node);
      AssignKeepsOpen(at, parts, node);
    } else {
      var part := current[0];
      var next := at.entries[part];
      if next.Aot? {
        var last := |next.tables| - 1;
        AssignAtGrows(next.tables[last], current[1..], parts, node);
        var below := AssignAt(next.tables[last], current[1..], parts, node).value;
        LastGrows(next, below);
        EntryGrows(at, part, next.(tables := next.tables[last := below]));
      } else {
        AssignAtGrows(next, current[1..], parts, node);
        EntryGrows(at, part, AssignAt(next, current[1..], parts, node).value);
      }
    }
  }

  lemma EntryInline(at: Node, k: Text, node: Node)
    requires at.Table? && InlineDefined(at) && InlineDefined(node)
    ensures InlineDefined(at.(entries := at.entries[k := node]))
  {
    var entries := at.entries[k := node];
    forall j | j in entries
      ensures InlineDefined(entries[j])
    {
      assert j != k ==> entries[j] == at.entries[j];
    }
  }

  lemma {:induction false} AssignInline(at: Node, parts: Parts, node: Node)
    requires at.Table? && InlineDefined(at) && InlineDefined(node) && Assign(at, parts, node).Some?
    ensures InlineDefined(Assign(at, parts, node).value)
    decreases |parts|
  {
    if |parts| == 1 {
      EntryInline(at, parts[0], node);
    } else {
      var next := if parts[0] in at.entries then at.entries[parts[0]] else NewTable(node.line, true, false);
      AssignInline(next, parts[1..], node);
      EntryInline(at, parts[0], Assign(next, parts[1..], node).value);
    }
  }

  lemma {:induction false} EvalInline(v: Value)
    requires Eval(v).Some?
    ensures InlineDefined(Eval(v).value)
    decreases v, 1
  {
    hide Assign, EvalItems;
    if v.InlineValue? {
      EvalPairsInline(NewTable(v.line, true, true), v.pairs);
    }
  }

  lemma {:induction false} EvalPairsInline(table: Node, pairs: seq<Pair>)
    requires table.Table? && InlineDefined(table) && EvalPairs(table, pairs).Some?
    ensures InlineDefined(EvalPairs(table, pairs).value)
    decreases pairs
  {
    hide InlineDefined, EvalPair;
    if pairs != [] {
      var init, last := pairs[..|pairs| - 1], pairs[|pairs| - 1];
      EvalPairsInline(table, init);
      EvalPairInline(EvalPairs(table, init).value, last);
    }
  }

  lemma {:induction false} EvalPairInline(table: Node, pair: Pair)
    requires table.Table? && InlineDefined(table) && EvalPair(table, pair).Some?
    ensures InlineDefined(EvalPair(table, pair).value)
    decreases pair
  {
    hide InlineDefined, Eval, Assign;
    EvalInline(pair.value);
    AssignInline(table, pair.parts, Eval(pair.value).value);
  }

  lemma {:induction false} AssignAtInline(at: Node, current: Parts, parts: Parts, node: Node)
    requires OpenPath(at, current) && InlineDefined(at) && InlineDefined(node) && AssignAt(at, current, parts, node).Some?
    ensures InlineDefined(AssignAt(at, current, parts, node).value)
    decreases |current|
  {
    hide Assign;
    if current == [] {
      AssignInline(at, parts, node);
    } else {
      var part := current[0];
      var next := at.entries[part];
      if next.Aot? {
        var last := |next.tables| - 1;
        AssignAtInline(next.tables[last], current[1..], parts, node);
        var below := AssignAt(next.tables[last], current[1..], parts, node).value;
        EntryInline(at, part, next.(tables := next.tables[last := below]));
      } else {
        AssignAtInline(next, current[1..], parts, node);
        EntryInline(at, part, AssignAt(next, current[1..], parts, node).value);
      }
    }
  }

  lemma {:induction false} HeaderInline(at: Node, parts: Parts, many: bool, line: nat)
    requires at.Table? && InlineDefined(at) && HeaderAt(at, parts, many, line).Some?
    ensures InlineDefined(HeaderAt(at, parts, many, line).value)
    decreases |parts|
  {
    var part := parts[0];
    if |parts| == 1 {
      EntryInline(at, part, OpenLast(at, part, many, line).value.entries[part]);
    } else {
      var next := if part in at.entries then at.entries[part] else NewTable(line, false, false);
      if next.Aot? {
        var last := |next.tables| - 1;
        HeaderInline(next.tables[last], parts[1..], many, line);
        var below := HeaderAt(next.tables[last], parts[1..], many, line).value;
        EntryInline(at, part, next.(tables := next.tables[last := below]));
      } else {
        HeaderInline(next, parts[1..], many, line);
        EntryInline(at, part, HeaderAt(next, parts[1..], many, line).value);
      }
    }
  }

  // What every statement keeps.
  ghost predicate Sound(doc: Doc) {
    InlineDefined(doc.root) && OpenPath(doc.root, doc.current)
  }

  lemma StepGrows(doc: Doc, stmt: Stmt)
    requires Sound(doc) && Step(doc, stmt).Some?
    ensures
      var after := Step(doc, stmt).value;
      && Sound(after)
      && Grows(doc.root, after.root)
      && (stmt.Bind? ==>
            NodeAt(TableAt(after.root, after.current), stmt.parts) == Some(Eval(stmt.value).value.(line := stmt.line)))
  {
    hide Grows, InlineDefined, AssignAt, HeaderAt, Eval, TableAt, NodeAt;
    match stmt
    case Header(line, many, parts) =>
      HeaderGrows(doc.root, parts, many, line);
      HeaderInline(doc.root, parts, many, line);
    case Bind(line, parts, value) =>
      var node := Eval(value).value.(line := line);
      EvalInline(value);
      LineInline(Eval(value).value, line);
      AssignAtGrows(doc.root, doc.current, parts, node);
      AssignAtInline(doc.root, doc.current, parts, node);
  }

  lemma LineInline(node: Node, line: nat)
    requires InlineDefined(node)
    ensures InlineDefined(node.(line := line))
  {
  }

  lemma {:induction false} BuildSound(stmts: seq<Stmt>)
    requires Build(stmts).Some?
    ensures Sound(Build(stmts).value)
  {
    hide Step, InlineDefined;
    if stmts == [] {
      StartSound();
    } else {
      BuildSound(stmts[..|stmts| - 1]);
      StepGrows(Build(stmts[..|stmts| - 1]).value, stmts[|stmts| - 1]);
    }
  }

  lemma StartSound()
    ensures Sound(Start())
  {
  }

  // A document that reads keeps all that any of its first statements built.
  lemma {:induction false} BuildGrows(stmts: seq<Stmt>, k: nat)
    requires k <= |stmts| && Build(stmts).Some?
    ensures Build(stmts[..k]).Some? && Grows(Build(stmts[..k]).value.root, Build(stmts).value.root)
  {
    hide Step, Grows, Sound;
    if k == |stmts| {
      assert stmts[..k] == stmts;
      GrowsSelf(Build(stmts).value.root);
    } else {
      var init := stmts[..|stmts| - 1];
      assert init[..k] == stmts[..k];
      BuildGrows(init, k);
      BuildSound(init);
      StepGrows(Build(init).value, stmts[|stmts| - 1]);
      GrowsOn(Build(stmts[..k]).value.root, Build(init).value.root, Build(stmts).value.root);
    }
  }
}
