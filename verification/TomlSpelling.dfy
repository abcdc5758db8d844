// Two TOML documents that bind the same leave the same tree, and nothing a
// statement has written is ever overwritten or dropped.

module TomlSpelling {
  import opened Options
  import opened Text
  import opened TomlTrees
  import opened TomlBindings

  // A document binds a value to a key path, or an empty table: one it writes
  // and puts nothing under.
  ghost predicate BindsValue(stmts: seq<Stmt>, p: Parts, x: Shape) {
    Binding(p, Holding(x)) in Written(stmts)
  }

  ghost predicate BindsEmpty(stmts: seq<Stmt>, p: Parts) {
    && Binding(p, Branching) in Written(stmts)
    && forall b :: b in Written(stmts) && p <= b.path ==> p == b.path
  }

  ghost predicate SameBindings(a: seq<Stmt>, b: seq<Stmt>) {
    && (forall p, x :: BindsValue(a, p, x) <==> BindsValue(b, p, x))
    && (forall p :: BindsEmpty(a, p) <==> BindsEmpty(b, p))
  }

  lemma LookChild(node: Node, k: Text, p: Parts)
    requires node.Table?
    ensures Look(node, [k] + p) == if k in node.entries then Look(node.entries[k], p) else Nothing
  {
    assert ([k] + p)[1..] == p;
  }

  // A tree is known by what stands at its key paths.
  lemma {:induction false} LooksTell(a: Node, b: Node)
    requires forall p :: Look(a, p) == Look(b, p)
    requires forall p :: Look(a, p) != Many
    ensures Erase(a) == Erase(b)
    decreases a
  {
    assert Look(a, []) == Look(b, []);
    if a.Table? {
      forall k | k in a.entries || k in b.entries
        ensures k in a.entries && k in b.entries && Erase(a.entries[k]) == Erase(b.entries[k])
      {
        LookChild(a, k, []);
        LookChild(b, k, []);
        assert Look(a, [k] + []) == Look(b, [k] + []);
        SomethingThere(a, b, k);
        ChildrenAgree(a, b, k);
        LooksTell(a.entries[k], b.entries[k]);
      }
      assert Erase(a).entries.Keys == Erase(b).entries.Keys;
      assert Erase(a).entries == Erase(b).entries;
    }
  }

  lemma SomethingThere(a: Node, b: Node, k: Text)
    requires a.Table? && b.Table? && (k in a.entries || k in b.entries)
    requires forall p :: Look(a, p) == Look(b, p)
    ensures k in a.entries && k in b.entries
  {
    LookChild(a, k, []);
    LookChild(b, k, []);
    assert Look(a, [k] + []) == Look(b, [k] + []);
  }

  lemma ChildrenAgree(a: Node, b: Node, k: Text)
    requires a.Table? && b.Table? && k in a.entries && k in b.entries
    requires forall p :: Look(a, p) == Look(b, p)
    requires forall p :: Look(a, p) != Many
    ensures forall p :: Look(a.entries[k], p) == Look(b.entries[k], p)
    ensures forall p :: Look(a.entries[k], p) != Many
  {
    forall p
      ensures Look(a.entries[k], p) == Look(b.entries[k], p) != Many
    {
      LookChild(a, k, p);
      LookChild(b, k, p);
      assert Look(a, [k] + p) == Look(b, [k] + p);
    }
  }

  // Below any node stands a value or an empty table.
  lemma {:induction false} Bottom(node: Node) returns (q: Parts)
    requires forall p :: Look(node, p) != Many
    ensures Look(node, q).Holding? || EmptyAt(node, q)
    decreases node
  {
    q := [];
    if node.Table? {
      if k :| k in node.entries {
        forall p
          ensures Look(node.entries[k], p) != Many
        {
          LookChild(node, k, p);
        }
        var below := Bottom(node.entries[k]);
        q := [k] + below;
        LookChild(node, k, below);
        forall r: Parts | r != []
          ensures Look(node, q + r) == Look(node.entries[k], below + r)
        {
          Assoc([k], below, r);
          LookChild(node, k, below + r);
        }
      } else {
        forall r: Parts | r != []
          ensures Look(node, [] + r) == Nothing
        {
          Padded(r);
        }
      }
    } else {
      assert Look(node, []) != Many;
    }
  }

  lemma {:induction false} LookOn(node: Node, p: Parts, q: Parts)
    ensures q != [] && Look(node, p + q) != Nothing ==> Look(node, p) == Branching
    ensures Look(node, p) == Nothing ==> Look(node, p + q) == Nothing
    decreases |p|
  {
    if p == [] {
      Padded(q);
    } else {
      assert (p + q)[1..] == p[1..] + q;
      if node.Table? && p[0] in node.entries {
        LookOn(node.entries[p[0]], p[1..], q);
      }
    }
  }

  lemma {:induction false} LookFrom(node: Node, p: Parts) returns (below: Node)
    requires Look(node, p) != Nothing
    ensures forall q :: Look(node, p + q) == Look(below, q)
    decreases |p|
  {
    below := node;
    if p == [] {
      forall q: Parts
        ensures Look(node, p + q) == Look(below, q)
      {
        Padded(q);
      }
    } else {
      below := LookFrom(node.entries[p[0]], p[1..]);
      forall q: Parts
        ensures Look(node, p + q) == Look(below, q)
      {
        assert (p + q)[1..] == p[1..] + q;
      }
    }
  }

  // An empty table of the tree is one the document binds, and the reverse.
  lemma EmptyTold(root: Node, stmts: seq<Stmt>, p: Parts)
    requires Holds(root, Written(stmts))
    ensures BindsEmpty(stmts, p) <==> EmptyAt(root, p)
  {
    hide Look, Written;
    var w := Written(stmts);
    assert HoldsAt(root, w, p);
    if BindsEmpty(stmts, p) {
      assert Covered(w, p);
      forall r: Parts | r != []
        ensures Look(root, p + r) == Nothing
      {
        assert HoldsAt(root, w, p + r);
        assert p <= p + r;
        assert Covered(w, p + r) ==> exists b :: b in w && p <= b.path && p != b.path;
        assert Look(root, p + r).Holding? ==> Binding(p + r, Look(root, p + r)) in w;
      }
    }
    if Look(root, p) == Branching && forall r :: r != [] ==> Look(root, p + r) == Nothing {
      forall b | b in w && p <= b.path
        ensures p == b.path
      {
        WrittenStands(root, w, b);
        assert b.path == p + b.path[|p|..];
      }
      var b :| b in w && p <= b.path && (p == b.path ==> b.what == Branching);
      assert b == Binding(p, Branching);
    }
  }

  lemma WrittenStands(root: Node, w: seq<Binding>, b: Binding)
    requires Holds(root, w) && b in w
    ensures Look(root, b.path) != Nothing
  {
    hide Look;
    assert HoldsAt(root, w, b.path);
    if b.what.Branching? {
      assert Covered(w, b.path);
    } else {
      assert b == Binding(b.path, Holding(b.what.v));
    }
  }

  lemma TableToo(a: Node, sa: seq<Stmt>, b: Node, sb: seq<Stmt>, p: Parts)
    requires Holds(a, Written(sa)) && Holds(b, Written(sb)) && SameBindings(sa, sb)
    requires Look(a, p) == Branching
    ensures Look(b, p) == Branching
  {
    hide Look, Written, Holds;
    NoneMany(a, Written(sa));
    var below := LookFrom(a, p);
    forall q
      ensures Look(below, q) != Many
    {
      assert Look(a, p + q) == Look(below, q);
    }
    var q := Bottom(below);
    assert Look(a, p + q) == Look(below, q);
    if Look(below, q).Holding? {
      ValueToo(a, sa, b, sb, p + q, Look(below, q).v);
      if q == [] {
        Padded(p);
      } else {
        LookOn(b, p, q);
      }
    } else {
      EmptyBelow(a, below, p, q);
      EmptyToo(a, sa, b, sb, p + q);
      if q == [] {
        Padded(p);
      } else {
        LookOn(b, p, q);
      }
    }
  }

  // An empty table: a table with nothing further down.
  ghost predicate EmptyAt(node: Node, p: Parts) {
    Look(node, p) == Branching && forall r :: r != [] ==> Look(node, p + r) == Nothing
  }

  lemma EmptyBelow(a: Node, below: Node, p: Parts, q: Parts)
    requires forall r :: Look(a, p + r) == Look(below, r)
    requires EmptyAt(below, q)
    ensures EmptyAt(a, p + q)
  {
    hide Look;
    assert Look(a, p + q) == Look(below, q);
    forall r: Parts | r != []
      ensures Look(a, p + q + r) == Nothing
    {
      Assoc(p, q, r);
      assert Look(a, p + (q + r)) == Look(below, q + r);
    }
  }

  lemma EmptyToo(a: Node, sa: seq<Stmt>, b: Node, sb: seq<Stmt>, p: Parts)
    requires Holds(a, Written(sa)) && Holds(b, Written(sb)) && SameBindings(sa, sb)
    ensures EmptyAt(a, p) <==> EmptyAt(b, p)
  {
    hide Look, Written, Holds, BindsEmpty, EmptyAt;
    EmptyTold(a, sa, p);
    EmptyTold(b, sb, p);
    assert BindsEmpty(sa, p) <==> BindsEmpty(sb, p);
  }

  lemma ValueToo(a: Node, sa: seq<Stmt>, b: Node, sb: seq<Stmt>, p: Parts, x: Shape)
    requires Holds(a, Written(sa)) && Holds(b, Written(sb)) && SameBindings(sa, sb)
    ensures Look(a, p) == Holding(x) <==> Look(b, p) == Holding(x)
  {
    hide Look, Written, Covered;
    assert HoldsAt(a, Written(sa), p) && HoldsAt(b, Written(sb), p);
    assert BindsValue(sa, p, x) <==> BindsValue(sb, p, x);
  }

  // Two documents that read and have no arrays of tables leave the same tree,
  // up to lines and flags, exactly when they bind the same values and empty
  // tables to the same key paths, whether they use headers, dotted keys or
  // inline tables.
  lemma SpellingIndependence(a: seq<Stmt>, b: seq<Stmt>)
    requires NoArrays(a) && NoArrays(b) && Build(a).Some? && Build(b).Some?
    ensures Erase(Build(a).value.root) == Erase(Build(b).value.root) <==> SameBindings(a, b)
  {
    hide Build, Written, Look, Holds, Erase, SameBindings;
    BuildHolds(a);
    BuildHolds(b);
    var ra, rb := Build(a).value.root, Build(b).value.root;
    NoneMany(ra, Written(a));
    NoneMany(rb, Written(b));
    if SameBindings(a, b) {
      forall p
        ensures Look(ra, p) == Look(rb, p)
      {
        SameLook(ra, a, rb, b, p);
      }
      LooksTell(ra, rb);
    }
    if Erase(ra) == Erase(rb) {
      forall p
        ensures Look(ra, p) == Look(rb, p)
      {
        LooksKept(ra, rb, p);
      }
      LooksBind(ra, a, rb, b);
    }
  }

  lemma {:induction false} LooksKept(a: Node, b: Node, p: Parts)
    requires Erase(a) == Erase(b)
    requires forall q :: Look(a, q) != Many
    requires forall q :: Look(b, q) != Many
    ensures Look(a, p) == Look(b, p)
    decreases |p|
  {
    assert Look(a, []) != Many && Look(b, []) != Many;
    if a.Table? && p != [] {
      assert Erase(a).entries.Keys == a.entries.Keys && Erase(b).entries.Keys == b.entries.Keys;
      if p[0] in a.entries {
        assert Erase(a).entries[p[0]] == Erase(b).entries[p[0]];
        LookBelow(a, p[0]);
        LookBelow(b, p[0]);
        LooksKept(a.entries[p[0]], b.entries[p[0]], p[1..]);
      }
    }
  }

  lemma LooksBind(ra: Node, a: seq<Stmt>, rb: Node, b: seq<Stmt>)
    requires Holds(ra, Written(a)) && Holds(rb, Written(b))
    requires forall p :: Look(ra, p) == Look(rb, p)
    ensures SameBindings(a, b)
  {
    hide Look, Written, Covered, BindsEmpty;
    forall p, x
      ensures BindsValue(a, p, x) <==> BindsValue(b, p, x)
    {
      assert HoldsAt(ra, Written(a), p) && HoldsAt(rb, Written(b), p);
      assert Look(ra, p) == Look(rb, p);
    }
    forall p
      ensures BindsEmpty(a, p) <==> BindsEmpty(b, p)
    {
      EmptyTold(ra, a, p);
      EmptyTold(rb, b, p);
    }
  }

  lemma SameLook(ra: Node, a: seq<Stmt>, rb: Node, b: seq<Stmt>, p: Parts)
    requires Holds(ra, Written(a)) && Holds(rb, Written(b)) && SameBindings(a, b)
    requires forall q :: Look(ra, q) != Many
    requires forall q :: Look(rb, q) != Many
    ensures Look(ra, p) == Look(rb, p)
  {
    hide Look, Holds, Written;
    assert Look(ra, p) != Many && Look(rb, p) != Many;
    if Look(ra, p).Holding? {
      ValueToo(ra, a, rb, b, p, Look(ra, p).v);
    } else if Look(rb, p).Holding? {
      ValueToo(ra, a, rb, b, p, Look(rb, p).v);
    } else if Look(ra, p) == Branching {
      TableToo(ra, a, rb, b, p);
    } else if Look(rb, p) == Branching {
      SameBack(a, b);
      TableToo(rb, b, ra, a, p);
    }
  }

  lemma SameBack(a: seq<Stmt>, b: seq<Stmt>)
    requires SameBindings(a, b)
    ensures SameBindings(b, a)
  {
    hide BindsValue, BindsEmpty;
  }
}
