// What a TOML document binds, however it is spelled: the statements against
// the tree they leave.

module TomlBindings {
  import opened Options
  import opened Text
  import opened TomlTrees

  // A node without its lines and flags.
  datatype Shape =
    | Branch(entries: map<Text, Shape>)
    | Rows(tables: seq<Shape>)
    | Items(items: seq<Shape>)
    | StrShape(s: Text)
    | BoolShape(b: bool)
    | OtherShape(raw: Text)

  function Erase(node: Node): Shape
    decreases node
  {
    match node
    case Table(_, entries, _, _) => Branch(map k | k in entries :: Erase(entries[k]))
    case Aot(_, tables) => Rows(EraseAll(tables))
    case List(_, items) => Items(EraseAll(items))
    case Str(_, s) => StrShape(s)
    case Bool(_, b) => BoolShape(b)
    case Other(_, raw) => OtherShape(raw)
  }

  function EraseAll(nodes: seq<Node>): (r: seq<Shape>)
    ensures |r| == |nodes| && forall i :: 0 <= i < |r| ==> r[i] == Erase(nodes[i])
    decreases nodes
  {
    if nodes == [] then [] else EraseAll(nodes[..|nodes| - 1]) + [Erase(nodes[|nodes| - 1])]
  }

  // What stands at a key path.
  datatype Found = Nothing | Branching | Many | Holding(v: Shape)

  function Look(node: Node, p: Parts): Found
    decreases |p|
  {
    if node.Table? then
      if p == [] then Branching
      else if p[0] in node.entries then Look(node.entries[p[0]], p[1..])
      else Nothing
    else if p != [] then Nothing
    else if node.Aot? then Many
    else Holding(Erase(node))
  }

  // One binding a document writes: a value at a key path, or a table there.
  datatype Binding = Binding(path: Parts, what: Found)

  function Under(at: Parts, written: seq<Binding>): (r: seq<Binding>)
    ensures |r| == |written| && forall i :: 0 <= i < |r| ==> r[i] == Binding(at + written[i].path, written[i].what)
  {
    seq(|written|, i requires 0 <= i < |written| => Binding(at + written[i].path, written[i].what))
  }

  // What a value writes, from where it stands.
  function Flat(v: Value): seq<Binding>
    decreases v, 1
  {
    if v.InlineValue? then [Binding([], Branching)] + FlatPairs(v.pairs)
    else [Binding([], match Eval(v) case Some(node) => Holding(Erase(node)) case None => Nothing)]
  }

  function FlatPairs(pairs: seq<Pair>): seq<Binding>
    decreases pairs
  {
    if pairs == [] then []
    else FlatPairs(pairs[..|pairs| - 1]) + FlatPair(pairs[|pairs| - 1])
  }

  function FlatPair(pair: Pair): seq<Binding>
    decreases pair
  {
    Under(pair.parts, Flat(pair.value))
  }

  // The table a document's statements go to.
  function CurrentOf(stmts: seq<Stmt>): Parts {
    if stmts == [] then []
    else
      var last := stmts[|stmts| - 1];
      if last.Header? then last.parts else CurrentOf(stmts[..|stmts| - 1])
  }

  // All a document writes.
  function Written(stmts: seq<Stmt>): seq<Binding> {
    if stmts == [] then [Binding([], Branching)]
    else
      var before, last := stmts[..|stmts| - 1], stmts[|stmts| - 1];
      Written(before) +
      match last
      case Header(_, _, parts) => [Binding(parts, Branching)]
      case Bind(_, parts, value) => Under(CurrentOf(before) + parts, Flat(value))
  }

  // A tree holds exactly what is written: each value where it is written, and
  // a table at and on the way to everything else.
  ghost predicate Covered(written: seq<Binding>, p: Parts) {
    exists b :: b in written && p <= b.path && (p == b.path ==> b.what == Branching)
  }

  ghost predicate HoldsAt(node: Node, written: seq<Binding>, p: Parts) {
    && (forall x :: Look(node, p) == Holding(x) <==> Binding(p, Holding(x)) in written)
    && (Look(node, p) == Branching <==> Covered(written, p))
    && Look(node, p) != Many
  }

  ghost predicate Holds(node: Node, written: seq<Binding>) {
    && (forall p :: HoldsAt(node, written, p))
    && (forall b :: b in written ==> b.what.Branching? || b.what.Holding?)
  }

  lemma PrefixStep(p: Parts, q: Parts)
    requires p != [] && q != []
    ensures p <= q <==> p[0] == q[0] && p[1..] <= q[1..]
  {
    if p[0] == q[0] && p[1..] <= q[1..] {
      assert p == [p[0]] + p[1..] && q == [q[0]] + q[1..];
    }
  }

  // An assignment adds what it assigns and the tables on the way, and nothing
  // stood where it goes.
  lemma {:induction false} LookAssign(at: Node, parts: Parts, node: Node, p: Parts)
    requires at.Table? && Assign(at, parts, node).Some?
    ensures
      var after := Assign(at, parts, node).value;
      && after.Table?
      && Look(after, p) == (if parts <= p then Look(node, p[|parts|..]) else if p <= parts then Branching else Look(at, p))
      && (parts <= p ==> Look(at, p) == Nothing)
      && (p <= parts && p != parts ==> Look(at, p) == Nothing || Look(at, p) == Branching)
    decreases |parts|
  {
    if p != [] {
      PrefixStep(p, parts);
      PrefixStep(parts, p);
      if |parts| > 1 && p[0] == parts[0] {
        var part := parts[0];
        var next := if part in at.entries then at.entries[part] else NewTable(node.line, true, false);
        LookAssign(next, parts[1..], node, p[1..]);
        if |parts| <= |p| {
          assert p[1..][|parts[1..]|..] == p[|parts|..];
        }
      }
    }
  }

  // A header makes tables, and no value stood on its way.
  lemma {:induction false} LookHeader(at: Node, parts: Parts, line: nat, p: Parts)
    requires at.Table? && HeaderAt(at, parts, false, line).Some?
    requires forall q :: Look(at, q) != Many
    ensures
      var after := HeaderAt(at, parts, false, line).value;
      && after.Table?
      && Look(after, p) == (if p <= parts then Branching else Look(at, p))
      && (p <= parts ==> Look(at, p) == Nothing || Look(at, p) == Branching)
    decreases |parts|
  {
    var part := parts[0];
    if part in at.entries {
      LookBelow(at, part);
    }
    if p != [] {
      PrefixStep(p, parts);
    }
    if |parts| == 1 {
      if p != [] && p[0] == part && p[1..] != [] {
        assert !(p <= parts);
      }
    } else {
      var next := if part in at.entries then at.entries[part] else NewTable(line, false, false);
      assert Look(next, []) != Many;
      if p != [] && p[0] == part {
        LookHeader(next, parts[1..], line, p[1..]);
      }
    }
  }

  lemma LookBelow(at: Node, part: Text)
    requires at.Table? && part in at.entries && forall q :: Look(at, q) != Many
    ensures forall q :: Look(at.entries[part], q) != Many
  {
    forall q
      ensures Look(at.entries[part], q) != Many
    {
      assert ([part] + q)[1..] == q;
      assert Look(at, [part] + q) != Many;
    }
  }

  // Statements go to the table their header opened.
  lemma {:induction false} LookAssignAt(at: Node, current: Parts, parts: Parts, node: Node, p: Parts)
    requires AssignAt(at, current, parts, node).Some?
    requires forall q :: Look(at, q) != Many
    ensures
      var after := AssignAt(at, current, parts, node).value;
      var full := current + parts;
      && after.Table?
      && Look(after, p) == (if full <= p then Look(node, p[|full|..]) else if p <= full then Branching else Look(at, p))
      && (full <= p ==> Look(at, p) == Nothing)
      && (p <= full && p != full ==> Look(at, p) == Nothing || Look(at, p) == Branching)
    decreases |current|
  {
    if current == [] {
      assert current + parts == parts;
      LookAssign(at, parts, node, p);
    } else {
      var part := current[0];
      var full := current + parts;
      assert full[1..] == current[1..] + parts;
      LookBelow(at, part);
      assert Look(at.entries[part], []) != Many;
      if p != [] {
        PrefixStep(p, full);
        PrefixStep(full, p);
        if p[0] == part {
          LookAssignAt(at.entries[part], current[1..], parts, node, p[1..]);
          if |full| <= |p| {
            assert p[1..][|full[1..]|..] == p[|full|..];
          }
        }
      }
    }
  }

  // The three cases of LookAssignAt, as one predicate.
  ghost predicate Placed(before: Node, after: Node, full: Parts, node: Node, p: Parts) {
    && Look(after, p) == (if full <= p then Look(node, p[|full|..]) else if p <= full then Branching else Look(before, p))
    && (full <= p ==> Look(before, p) == Nothing)
    && (p <= full && p != full ==> Look(before, p) == Nothing || Look(before, p) == Branching)
  }

  lemma UnderMembers(at: Parts, written: seq<Binding>, b: Binding)
    ensures b in Under(at, written) <==> at <= b.path && Binding(b.path[|at|..], b.what) in written
  {
    if b in Under(at, written) {
      var i :| 0 <= i < |written| && Under(at, written)[i] == b;
      assert b.path[|at|..] == written[i].path;
      assert written[i] in written;
    }
    if at <= b.path && Binding(b.path[|at|..], b.what) in written {
      var i :| 0 <= i < |written| && written[i] == Binding(b.path[|at|..], b.what);
      assert b.path == at + written[i].path;
      assert Under(at, written)[i] == b;
    }
  }

  // What is covered once a node is placed.
  lemma PlacedCovers(before: Node, w: seq<Binding>, node: Node, wn: seq<Binding>, full: Parts, p: Parts)
    requires Holds(before, w) && Holds(node, wn)
    requires full <= p ==> Look(before, p) == Nothing
    ensures full <= p ==> (Covered(w + Under(full, wn), p) <==> Covered(wn, p[|full|..]))
    ensures !(full <= p) && p <= full ==> Covered(w + Under(full, wn), p)
    ensures !(full <= p) && !(p <= full) ==> (Covered(w + Under(full, wn), p) <==> Covered(w, p))
  {
    hide Look, Holds, Covered;
    if full <= p {
      NothingCovered(before, w, p);
      assert p == full + p[|full|..];
      CoveredInside(w, wn, full, p[|full|..]);
    } else if p <= full {
      CoveredAbove(w, node, wn, full, p);
    } else {
      CoveredAway(w, wn, full, p);
    }
  }

  lemma NothingCovered(before: Node, w: seq<Binding>, p: Parts)
    requires Holds(before, w) && Look(before, p) == Nothing
    ensures !Covered(w, p)
  {
    hide Look, Covered;
    assert HoldsAt(before, w, p);
  }

  lemma CoveredInside(w: seq<Binding>, wn: seq<Binding>, full: Parts, q: Parts)
    requires !Covered(w, full + q)
    ensures Covered(w + Under(full, wn), full + q) <==> Covered(wn, q)
  {
    var all, p := w + Under(full, wn), full + q;
    if Covered(wn, q) {
      var c :| c in wn && q <= c.path && (q == c.path ==> c.what == Branching);
      var b := Binding(full + c.path, c.what);
      assert b.path[|full|..] == c.path;
      UnderMembers(full, wn, b);
      assert b in all && p <= b.path;
      assert p == b.path ==> q == c.path;
    }
    if Covered(all, p) {
      var b :| b in all && p <= b.path && (p == b.path ==> b.what == Branching);
      UnderMembers(full, wn, b);
      assert b !in w;
      var c := Binding(b.path[|full|..], b.what);
      assert q <= c.path;
      assert q == c.path ==> p == b.path by { assert b.path == full + c.path; }
      assert c in wn;
    }
  }

  lemma CoveredAbove(w: seq<Binding>, node: Node, wn: seq<Binding>, full: Parts, p: Parts)
    requires Holds(node, wn) && p <= full && p != full
    ensures Covered(w + Under(full, wn), p)
  {
    hide Holds;
    var all := w + Under(full, wn);
    SomethingHeld(node, wn);
    var c :| c in wn;
    var b := Binding(full + c.path, c.what);
    assert b.path[|full|..] == c.path;
    UnderMembers(full, wn, b);
    assert b in all && p <= b.path && p != b.path;
  }

  lemma CoveredAway(w: seq<Binding>, wn: seq<Binding>, full: Parts, p: Parts)
    requires !(full <= p) && !(p <= full)
    ensures Covered(w + Under(full, wn), p) <==> Covered(w, p)
  {
    var all := w + Under(full, wn);
    if Covered(w, p) {
      var b :| b in w && p <= b.path && (p == b.path ==> b.what == Branching);
      assert b in all;
    }
    if Covered(all, p) {
      var b :| b in all && p <= b.path && (p == b.path ==> b.what == Branching);
      UnderMembers(full, wn, b);
      if b !in w {
        PrefixesMeet(full, p, b.path);
      }
    }
  }

  lemma PrefixesMeet(a: Parts, b: Parts, c: Parts)
    requires a <= c && b <= c
    ensures a <= b || b <= a
  {
  }

  lemma SomethingHeld(node: Node, wn: seq<Binding>)
    requires Holds(node, wn)
    ensures exists c :: c in wn
  {
    assert HoldsAt(node, wn, []);
    assert Look(node, []) != Nothing;
    if Look(node, []).Holding? {
      assert Binding([], Look(node, [])) in wn;
    } else {
      assert Covered(wn, []);
    }
  }

  // Placing a node adds exactly what it writes.
  lemma PlacedHolds(before: Node, after: Node, w: seq<Binding>, node: Node, wn: seq<Binding>, full: Parts)
    requires Holds(before, w) && Holds(node, wn)
    requires forall p :: Placed(before, after, full, node, p)
    ensures Holds(after, w + Under(full, wn))
  {
    hide Look;
    var all := w + Under(full, wn);
    forall b | b in all
      ensures b.what.Branching? || b.what.Holding?
    {
      UnderMembers(full, wn, b);
    }
    forall p
      ensures HoldsAt(after, all, p)
    {
      PlacedHoldsAt(before, after, w, node, wn, full, p);
    }
  }

  lemma PlacedHoldsAt(before: Node, after: Node, w: seq<Binding>, node: Node, wn: seq<Binding>, full: Parts, p: Parts)
    requires Holds(before, w) && Holds(node, wn)
    requires Placed(before, after, full, node, p)
    ensures HoldsAt(after, w + Under(full, wn), p)
  {
    hide Look, Covered;
    var all := w + Under(full, wn);
    PlacedCovers(before, w, node, wn, full, p);
    assert HoldsAt(before, w, p);
    if full <= p {
      assert HoldsAt(node, wn, p[|full|..]);
    }
    forall x
      ensures Look(after, p) == Holding(x) <==> Binding(p, Holding(x)) in all
    {
      UnderMembers(full, wn, Binding(p, Holding(x)));
      assert Look(before, p) == Holding(x) <==> Binding(p, Holding(x)) in w;
    }
  }

  lemma LeafHolds(node: Node)
    requires !node.Table? && !node.Aot?
    ensures Holds(node, [Binding([], Holding(Erase(node)))])
  {
    var b := Binding([], Holding(Erase(node)));
    forall p
      ensures HoldsAt(node, [b], p)
    {
      assert b in [b];
      assert Covered([b], p) ==> p == [];
    }
  }

  lemma EmptyHolds(line: nat, defined: bool, inline: bool)
    ensures Holds(NewTable(line, defined, inline), [Binding([], Branching)])
  {
    var b := Binding([], Branching);
    forall p
      ensures HoldsAt(NewTable(line, defined, inline), [b], p)
    {
      assert b in [b];
      assert Covered([b], p) <==> p == [];
    }
  }

  // A value's tree holds what the value writes.
  lemma {:induction false} ValueHolds(v: Value)
    requires Eval(v).Some?
    ensures Holds(Eval(v).value, Flat(v))
    decreases v, 1
  {
    hide Holds;
    if v.InlineValue? {
      EmptyHolds(v.line, true, true);
      PairsHold(NewTable(v.line, true, true), v.pairs, [Binding([], Branching)]);
    } else {
      LeafHolds(Eval(v).value);
    }
  }

  lemma {:induction false} PairsHold(table: Node, pairs: seq<Pair>, w: seq<Binding>)
    requires table.Table? && Holds(table, w) && EvalPairs(table, pairs).Some?
    ensures Holds(EvalPairs(table, pairs).value, w + FlatPairs(pairs))
    decreases pairs
  {
    hide Holds, EvalPair, FlatPair;
    if pairs == [] {
      assert w + FlatPairs(pairs) == w;
    } else {
      var init, last := pairs[..|pairs| - 1], pairs[|pairs| - 1];
      PairsHold(table, init, w);
      PairHolds(EvalPairs(table, init).value, last, w + FlatPairs(init));
      Assoc(w, FlatPairs(init), FlatPair(last));
    }
  }

  lemma {:induction false} PairHolds(table: Node, pair: Pair, w: seq<Binding>)
    requires table.Table? && Holds(table, w) && EvalPair(table, pair).Some?
    ensures Holds(EvalPair(table, pair).value, w + FlatPair(pair))
    decreases pair
  {
    hide Holds, Assign;
    var node := Eval(pair.value).value;
    ValueHolds(pair.value);
    forall p
      ensures Placed(table, EvalPair(table, pair).value, pair.parts, node, p)
    {
      LookAssign(table, pair.parts, node, p);
    }
    PlacedHolds(table, EvalPair(table, pair).value, w, node, Flat(pair.value), pair.parts);
  }

  lemma HeaderHolds(root: Node, parts: Parts, line: nat, w: seq<Binding>)
    requires root.Table? && Holds(root, w) && HeaderAt(root, parts, false, line).Some?
    ensures HeaderAt(root, parts, false, line).value.Table?
    ensures Holds(HeaderAt(root, parts, false, line).value, w + [Binding(parts, Branching)])
  {
    hide Look, HeaderAt, Covered;
    var after := HeaderAt(root, parts, false, line).value;
    var all := w + [Binding(parts, Branching)];
    NoneMany(root, w);
    LookHeader(root, parts, line, []);
    forall p
      ensures HoldsAt(after, all, p)
    {
      assert HoldsAt(root, w, p);
      LookHeader(root, parts, line, p);
      HeaderCovers(w, parts, p);
      forall x
        ensures Look(after, p) == Holding(x) <==> Binding(p, Holding(x)) in all
      {
        assert Look(root, p) == Holding(x) <==> Binding(p, Holding(x)) in w;
      }
    }
  }

  lemma HeaderCovers(w: seq<Binding>, parts: Parts, p: Parts)
    ensures Covered(w + [Binding(parts, Branching)], p) <==> Covered(w, p) || p <= parts
  {
    var mine := Binding(parts, Branching);
    var all := w + [mine];
    assert mine in all;
    if Covered(w, p) {
      var b :| b in w && p <= b.path && (p == b.path ==> b.what == Branching);
      assert b in all;
    }
  }

  predicate NoArrays(stmts: seq<Stmt>) {
    forall i :: 0 <= i < |stmts| && stmts[i].Header? ==> !stmts[i].many
  }

  // A document that reads leaves exactly what it writes: no statement
  // overwrites or drops what an earlier one bound.
  lemma {:induction false} BuildHolds(stmts: seq<Stmt>)
    requires NoArrays(stmts) && Build(stmts).Some?
    ensures Build(stmts).value.root.Table? && Build(stmts).value.current == CurrentOf(stmts)
    ensures Holds(Build(stmts).value.root, Written(stmts))
  {
    hide Holds, Flat, HeaderAt, AssignAt, Eval;
    if stmts == [] {
      EmptyHolds(1, true, false);
    } else {
      var init, last := stmts[..|stmts| - 1], stmts[|stmts| - 1];
      BuildHolds(init);
      var doc := Build(init).value;
      match last
      case Header(line, _, parts) => HeaderHolds(doc.root, parts, line, Written(init));
      case Bind(line, parts, value) => BindHolds(doc, line, parts, value, Written(init));
    }
  }

  lemma BindHolds(doc: Doc, line: nat, parts: Parts, value: Value, w: seq<Binding>)
    requires Holds(doc.root, w) && Step(doc, Bind(line, parts, value)).Some?
    ensures
      var root := Step(doc, Bind(line, parts, value)).value.root;
      root.Table? && Holds(root, w + Under(doc.current + parts, Flat(value)))
  {
    hide Holds, Flat, AssignAt;
    var root := Step(doc, Bind(line, parts, value)).value.root;
    var node := Eval(value).value;
    var placed := node.(line := line);
    ValueHolds(value);
    LineHolds(node, line, Flat(value));
    assert forall q :: Look(doc.root, q) != Many by { NoneMany(doc.root, w); }
    forall p
      ensures Placed(doc.root, root, doc.current + parts, placed, p) && root.Table?
    {
      LookAssignAt(doc.root, doc.current, parts, placed, p);
    }
    assert Placed(doc.root, root, doc.current + parts, placed, []);
    PlacedHolds(doc.root, root, w, placed, Flat(value), doc.current + parts);
  }

  lemma NoneMany(root: Node, w: seq<Binding>)
    requires Holds(root, w)
    ensures forall q :: Look(root, q) != Many
  {
    hide Look;
    forall q
      ensures Look(root, q) != Many
    {
      assert HoldsAt(root, w, q);
    }
  }

  lemma LineHolds(node: Node, line: nat, w: seq<Binding>)
    requires Holds(node, w)
    ensures Holds(node.(line := line), w)
  {
    hide Covered;
    var moved := node.(line := line);
    assert Erase(moved) == Erase(node);
    assert forall p :: Look(moved, p) == Look(node, p);
    forall p
      ensures HoldsAt(moved, w, p)
    {
      assert HoldsAt(node, w, p);
    }
  }
}