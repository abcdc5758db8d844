// Exactly which statements the tree takes, by what stands on their path.

module TomlRules {
  import opened Options
  import opened Text
  import opened TomlTrees

  // The node a path leads to, through the last item of each array of tables.
  function NodeAt(at: Node, p: Parts): Option<Node>
    decreases |p|, if at.Aot? then 1 else 0
  {
    if p == [] then Some(at)
    else if at.Table? && p[0] in at.entries then NodeAt(at.entries[p[0]], p[1..])
    else if at.Aot? && at.tables != [] && at.tables[|at.tables| - 1].Table? then NodeAt(at.tables[|at.tables| - 1], p)
    else None
  }

  // Where a dotted key may pass: nothing yet, or a table that is not inline.
  predicate KeyPasses(found: Option<Node>) {
    found.None? || (found.value.Table? && !found.value.inline)
  }

  // Where a header may pass: also through an array's last table.
  predicate HeaderPasses(found: Option<Node>) {
    || KeyPasses(found)
    || (found.value.Aot? && found.value.tables != []
        && found.value.tables[|found.value.tables| - 1].Table? && !found.value.tables[|found.value.tables| - 1].inline)
  }

  // What a header may open: nothing yet; for an array's header an array; else a
  // table no header or key has defined.
  predicate HeaderOpens(found: Option<Node>, many: bool) {
    found.None? || (if many then found.value.Aot? else found.value.Table? && !found.value.defined)
  }

  predicate AllPass(at: Node, parts: Parts, header: bool) {
    forall k :: 0 < k < |parts| ==>
      if header then HeaderPasses(NodeAt(at, parts[..k])) else KeyPasses(NodeAt(at, parts[..k]))
  }

  lemma NodeDown(at: Node, part: Text, p: Parts)
    requires at.Table?
    ensures NodeAt(at, [part] + p) == if part in at.entries then NodeAt(at.entries[part], p) else None
  {
    Front(part, p);
  }

  lemma NodeLast(at: Node, p: Parts)
    requires at.Aot? && at.tables != [] && p != [] && at.tables[|at.tables| - 1].Table?
    ensures NodeAt(at, p) == NodeAt(at.tables[|at.tables| - 1], p)
  {
  }

  lemma Nowhere(line: nat, defined: bool, p: Parts)
    ensures p != [] ==> NodeAt(NewTable(line, defined, false), p) == None
  {
  }

  // The rest of a path passes below where its first part leads.
  lemma PassBelow(at: Node, next: Node, parts: Parts, header: bool)
    requires at.Table? && |parts| > 1
    requires forall p: Parts :: p != [] ==> NodeAt(at, [parts[0]] + p) == NodeAt(next, p)
    ensures AllPass(at, parts, header) <==>
            (if header then HeaderPasses(NodeAt(at, [parts[0]])) else KeyPasses(NodeAt(at, [parts[0]])))
            && AllPass(next, parts[1..], header)
  {
    hide HeaderPasses, KeyPasses, NodeAt;
    assert parts[..1] == [parts[0]];
    forall k | 1 < k < |parts|
      ensures NodeAt(at, parts[..k]) == NodeAt(next, parts[1..][..k - 1])
    {
      assert parts[..k] == [parts[0]] + parts[1..][..k - 1];
    }
    if AllPass(at, parts, header) {
      forall k | 0 < k < |parts[1..]|
        ensures if header then HeaderPasses(NodeAt(next, parts[1..][..k])) else KeyPasses(NodeAt(next, parts[1..][..k]))
      {
        assert NodeAt(at, parts[..k + 1]) == NodeAt(next, parts[1..][..k]);
      }
    }
  }

  // Where the first part leads nothing stands further on.
  lemma NonePasses(line: nat, defined: bool, parts: Parts, header: bool)
    ensures AllPass(NewTable(line, defined, false), parts, header)
    ensures parts != [] ==> NodeAt(NewTable(line, defined, false), parts) == None
  {
  }

  lemma StepDown(at: Node, parts: Parts, next: Node)
    requires at.Table? && |parts| > 1
    requires if parts[0] in at.entries then next == at.entries[parts[0]] else exists line, defined :: next == NewTable(line, defined, false)
    ensures forall p: Parts :: p != [] ==> NodeAt(at, [parts[0]] + p) == NodeAt(next, p)
    ensures NodeAt(at, parts) == NodeAt(next, parts[1..])
    ensures NodeAt(at, [parts[0]]) == if parts[0] in at.entries then Some(next) else None
  {
    forall p: Parts | p != []
      ensures NodeAt(at, [parts[0]] + p) == NodeAt(next, p)
    {
      NodeDown(at, parts[0], p);
    }
    assert parts == [parts[0]] + parts[1..];
    NodeDown(at, parts[0], []);
    Padded([parts[0]]);
  }

  // A key is set exactly where nothing stands yet, through tables that are not
  // inline.
  lemma {:induction false} AssignExactly(at: Node, parts: Parts, node: Node)
    requires at.Table?
    ensures Assign(at, parts, node).Some? <==> parts != [] && AllPass(at, parts, false) && NodeAt(at, parts).None?
    decreases |parts|
  {
    if |parts| == 1 {
      assert parts == [parts[0]];
      NodeDown(at, parts[0], []);
      Padded([parts[0]]);
    } else if parts != [] {
      var next := if parts[0] in at.entries then at.entries[parts[0]] else NewTable(node.line, true, false);
      StepDown(at, parts, next);
      PassBelow(at, next, parts, false);
      if Open(next) {
        AssignExactly(next, parts[1..], node);
      }
      hide NodeAt, AllPass;
    }
  }

  // A header opens its table exactly where it may, through tables that are not
  // inline and the last tables of arrays.
  lemma {:induction false} HeaderExactly(at: Node, parts: Parts, many: bool, line: nat)
    requires at.Table?
    ensures HeaderAt(at, parts, many, line).Some? <==>
            parts != [] && AllPass(at, parts, true) && HeaderOpens(NodeAt(at, parts), many)
    decreases |parts|
  {
    if |parts| == 1 {
      assert parts == [parts[0]];
      NodeDown(at, parts[0], []);
      Padded([parts[0]]);
    } else if parts != [] {
      var next := if parts[0] in at.entries then at.entries[parts[0]] else NewTable(line, false, false);
      StepDown(at, parts, next);
      PassBelow(at, next, parts, true);
      if next.Aot? && next.tables != [] && Open(next.tables[|next.tables| - 1]) {
        var last := next.tables[|next.tables| - 1];
        ThroughLast(next, parts[1..]);
        HeaderExactly(last, parts[1..], many, line);
      } else if Open(next) {
        HeaderExactly(next, parts[1..], many, line);
      }
      hide NodeAt, AllPass, HeaderOpens;
    }
  }

  lemma ThroughLast(at: Node, parts: Parts)
    requires at.Aot? && at.tables != [] && at.tables[|at.tables| - 1].Table? && parts != []
    ensures
      var last := at.tables[|at.tables| - 1];
      && NodeAt(at, parts) == NodeAt(last, parts)
      && forall header :: AllPass(at, parts, header) <==> AllPass(last, parts, header)
  {
    var last := at.tables[|at.tables| - 1];
    forall k | 0 < k < |parts|
      ensures NodeAt(at, parts[..k]) == NodeAt(last, parts[..k])
    {
      NodeLast(at, parts[..k]);
    }
  }

  // The table a document's statements go to: where the path leads, and into an
  // array's last item.
  function TableAt(at: Node, current: Parts): Option<Node> {
    match NodeAt(at, current)
    case Some(Table(line, entries, defined, inline)) => Some(Table(line, entries, defined, inline))
    case Some(Aot(_, tables)) => if tables != [] && tables[|tables| - 1].Table? then Some(tables[|tables| - 1]) else None
    case _ => None
  }

  // A binding is taken exactly where the current table takes its key.
  lemma {:induction false} AssignAtExactly(at: Node, current: Parts, parts: Parts, node: Node)
    requires at.Table?
    ensures AssignAt(at, current, parts, node).Some? <==>
            TableAt(at, current).Some? && Assign(TableAt(at, current).value, parts, node).Some?
    decreases |current|
  {
    hide Assign;
    if current != [] && current[0] in at.entries {
      var next := at.entries[current[0]];
      assert NodeAt(at, current) == NodeAt(next, current[1..]);
      if next.Aot? {
        if next.tables != [] {
          var last := next.tables[|next.tables| - 1];
          if last.Table? {
            if |current| > 1 {
              NodeLast(next, current[1..]);
              assert TableAt(at, current) == TableAt(last, current[1..]);
            } else {
              assert current[1..] == [];
            }
            AssignAtExactly(last, current[1..], parts, node);
          }
        }
      } else if next.Table? {
        AssignAtExactly(next, current[1..], parts, node);
      }
    }
  }

  // --- What statements leave behind for those after them ---

  // A header leaves a defined table where it leads, or as its array's last one.
  lemma {:induction false} HeaderMarks(at: Node, parts: Parts, many: bool, line: nat)
    requires at.Table? && HeaderAt(at, parts, many, line).Some?
    ensures
      var found := NodeAt(HeaderAt(at, parts, many, line).value, parts);
      && found.Some?
      && (!many ==> found.value.Table? && found.value.defined)
      && (many ==>
            found.value.Aot? && found.value.tables != []
            && found.value.tables[|found.value.tables| - 1] == NewTable(line, true, false))
    decreases |parts|
  {
    var after := HeaderAt(at, parts, many, line).value;
    if |parts| == 1 {
      assert parts[1..] == [];
    } else {
      var next := if parts[0] in at.entries then at.entries[parts[0]] else NewTable(line, false, false);
      if next.Aot? {
        HeaderMarks(next.tables[|next.tables| - 1], parts[1..], many, line);
        NodeLast(after.entries[parts[0]], parts[1..]);
      } else {
        HeaderMarks(next, parts[1..], many, line);
      }
    }
  }

  // So the same header is refused the second time, and an array's is not.
  lemma SecondHeader(at: Node, parts: Parts, many: bool, again: bool, line: nat, later: nat)
    requires at.Table? && HeaderAt(at, parts, many, line).Some? && HeaderAt(at, parts, many, line).value.Table?
    ensures HeaderAt(HeaderAt(at, parts, many, line).value, parts, again, later).Some? ==> many && again
  {
    hide HeaderAt, NodeAt, AllPass;
    HeaderMarks(at, parts, many, line);
    HeaderExactly(HeaderAt(at, parts, many, line).value, parts, again, later);
  }

  // A dotted key defines the tables it makes, so no header opens them; what it
  // sets can no more be set, opened or passed.
  lemma {:induction false} KeyMarks(at: Node, parts: Parts, node: Node, k: nat)
    requires at.Table? && Assign(at, parts, node).Some? && 0 < k <= |parts|
    ensures
      var after := Assign(at, parts, node).value;
      && after.Table?
      && NodeAt(after, parts) == Some(node)
      && (k < |parts| && NodeAt(at, parts[..k]).None? ==>
            NodeAt(after, parts[..k]).Some? && NodeAt(after, parts[..k]).value.Table?
            && NodeAt(after, parts[..k]).value.defined && !NodeAt(after, parts[..k]).value.inline)
    decreases |parts|
  {
    if |parts| == 1 {
      assert parts[1..] == [];
    } else {
      var next := if parts[0] in at.entries then at.entries[parts[0]] else NewTable(node.line, true, false);
      KeyMarks(next, parts[1..], node, if k > 1 then k - 1 else 1);
      var after := Assign(at, parts, node).value;
      if k < |parts| {
        assert parts[..k][1..] == parts[1..][..k - 1] && parts[..k][0] == parts[0];
        if k == 1 {
          NodeDown(at, parts[0], []);
          NodeDown(after, parts[0], []);
          Padded([parts[0]]);
          assert parts[..1] == [parts[0]];
          SameFlags(next, parts[1..], node);
        } else {
          Nowhere(node.line, true, parts[1..][..k - 1]);
        }
      }
    }
  }

  lemma SameFlags(at: Node, parts: Parts, node: Node)
    requires at.Table? && Assign(at, parts, node).Some?
    ensures Assign(at, parts, node).value.Table?
    ensures Assign(at, parts, node).value.defined == at.defined && Assign(at, parts, node).value.inline == at.inline
  {
  }

  // A header makes the tables on its way without defining them, so that a
  // header of their own still may.
  lemma {:induction false} WayMarks(at: Node, parts: Parts, many: bool, line: nat, k: nat)
    requires at.Table? && HeaderAt(at, parts, many, line).Some? && 0 < k < |parts| && NodeAt(at, parts[..k]).None?
    ensures
      var after := HeaderAt(at, parts, many, line).value;
      && after.Table?
      && NodeAt(after, parts[..k]).Some? && NodeAt(after, parts[..k]).value.Table?
      && !NodeAt(after, parts[..k]).value.defined && !NodeAt(after, parts[..k]).value.inline
    decreases |parts|
  {
    var next := if parts[0] in at.entries then at.entries[parts[0]] else NewTable(line, false, false);
    assert parts[..k][1..] == parts[1..][..k - 1] && parts[..k][0] == parts[0];
    if k == 1 {
      assert parts[0] !in at.entries;
      HeaderFlags(next, parts[1..], many, line);
    } else if next.Aot? {
      var last := next.tables[|next.tables| - 1];
      NodeLast(next, parts[1..][..k - 1]);
      WayMarks(last, parts[1..], many, line, k - 1);
      NodeLast(HeaderAt(at, parts, many, line).value.entries[parts[0]], parts[1..][..k - 1]);
    } else {
      Nowhere(line, false, parts[1..][..k - 1]);
      WayMarks(next, parts[1..], many, line, k - 1);
    }
  }

  lemma HeaderFlags(at: Node, parts: Parts, many: bool, line: nat)
    requires at.Table? && HeaderAt(at, parts, many, line).Some?
    ensures HeaderAt(at, parts, many, line).value.Table?
    ensures HeaderAt(at, parts, many, line).value.defined == at.defined
    ensures HeaderAt(at, parts, many, line).value.inline == at.inline
  {
  }

  // An inline table is sealed: it is no header's to open, and no key or header
  // passes through it.
  lemma InlineSealed(line: nat, pairs: seq<Pair>)
    requires Eval(InlineValue(line, pairs)).Some?
    ensures
      var found := Eval(InlineValue(line, pairs));
      && !HeaderOpens(found, false) && !HeaderOpens(found, true) && !KeyPasses(found) && !HeaderPasses(found)
  {
    PairsFlags(NewTable(line, true, true), pairs);
  }

  lemma {:induction false} PairsFlags(table: Node, pairs: seq<Pair>)
    requires table.Table? && EvalPairs(table, pairs).Some?
    ensures
      var after := EvalPairs(table, pairs).value;
      after.Table? && after.defined == table.defined && after.inline == table.inline
    decreases |pairs|
  {
    hide Eval, Assign;
    if pairs != [] {
      var last := |pairs| - 1;
      PairsFlags(table, pairs[..last]);
      var before, pair := EvalPairs(table, pairs[..last]).value, pairs[last];
      assert EvalPair(before, pair).Some?;
      SameFlags(before, pair.parts, Eval(pair.value).value);
    }
  }
}
