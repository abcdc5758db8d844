// How one port's declarations become its dependency lists
// (tools/port-deps.cjs:135-158).

module PortFold {
  import opened Options
  import opened Text
  import opened Orders

  datatype Decl = Decl(name: Text, optional: bool)

  datatype PortLists = PortLists(runtime: seq<Text>, optional: seq<Text>, dev: seq<Text>, external: seq<Text>)

  // The repository a name stands for, in one ecosystem; None outside the org.
  type Naming = Text -> Option<Text>

  ghost predicate Runtime(self: Option<Text>, naming: Naming, decls: set<Decl>, id: Text) {
    Some(id) != self && exists d :: d in decls && naming(d.name) == Some(id)
  }

  // A dependency is optional only when every runtime declaration of it is.
  ghost predicate Optional(self: Option<Text>, naming: Naming, decls: set<Decl>, id: Text) {
    Runtime(self, naming, decls, id) && forall d :: d in decls && naming(d.name) == Some(id) ==> d.optional
  }

  ghost predicate DevOnly(self: Option<Text>, naming: Naming, decls: set<Decl>, dev: set<Text>, id: Text) {
    Some(id) != self && !Runtime(self, naming, decls, id) && exists n :: n in dev && naming(n) == Some(id)
  }

  ghost predicate External(naming: Naming, decls: set<Decl>, name: Text) {
    naming(name).None? && exists d :: d in decls && d.name == name
  }

  // The lists of a port: each in order, without repeats, with exactly these.
  ghost predicate Folded(self: Option<Text>, naming: Naming, decls: set<Decl>, dev: set<Text>, lists: PortLists) {
    && Ascending(lists.runtime) && (forall id :: id in lists.runtime <==> Runtime(self, naming, decls, id))
    && Ascending(lists.optional) && (forall id :: id in lists.optional <==> Optional(self, naming, decls, id))
    && Ascending(lists.dev) && (forall id :: id in lists.dev <==> DevOnly(self, naming, decls, dev, id))
    && Ascending(lists.external) && (forall name :: name in lists.external <==> External(naming, decls, name))
  }

  // The elements of an ascending list that a predicate keeps.
  function Filter(list: seq<Text>, keep: Text -> bool): seq<Text> {
    if list == [] then []
    else (if keep(list[0]) then [list[0]] else []) + Filter(list[1..], keep)
  }

  lemma {:induction false} FilterLists(list: seq<Text>, keep: Text -> bool)
    requires Ascending(list)
    ensures Ascending(Filter(list, keep))
    ensures forall x :: x in Filter(list, keep) <==> x in list && keep(x)
  {
    if list != [] {
      FilterLists(list[1..], keep);
      assert list == [list[0]] + list[1..];
      if keep(list[0]) {
        assert forall x :: x in Filter(list[1..], keep) ==> x in list[1..];
        assert Filter(list, keep) == [list[0]] + Filter(list[1..], keep);
        AscendingPush(list[0], Filter(list[1..], keep));
      } else {
        assert Filter(list, keep) == Filter(list[1..], keep);
      }
    }
  }

  lemma AscendingPush(x: Text, list: seq<Text>)
    requires Ascending(list) && forall y :: y in list ==> Less(x, y)
    ensures Ascending([x] + list)
  {
    assert ([x] + list)[1..] == list;
  }

  // What the first loop gathers from the runtime declarations.
  ghost predicate Gathered(self: Option<Text>, naming: Naming, decls: set<Decl>,
                           ids: map<Text, bool>, names: seq<Text>, external: seq<Text>) {
    && (forall id :: id in ids <==> Runtime(self, naming, decls, id))
    && (forall id :: id in ids && ids[id] <==> Optional(self, naming, decls, id))
    && (forall id :: id in names <==> id in ids)
    && (forall name :: name in external <==> External(naming, decls, name))
  }

  lemma NothingGathered(self: Option<Text>, naming: Naming)
    ensures Gathered(self, naming, {}, map[], [], [])
  {
  }

  // One declaration more.
  lemma GatherNext(self: Option<Text>, naming: Naming, decls: set<Decl>, decl: Decl,
                   ids: map<Text, bool>, names: seq<Text>, external: seq<Text>)
    requires Gathered(self, naming, decls, ids, names, external)
    ensures
      var id := naming(decl.name);
      if id.None? then Gathered(self, naming, decls + {decl}, ids, names, external + [decl.name])
      else if id == self then Gathered(self, naming, decls + {decl}, ids, names, external)
      else Gathered(self, naming, decls + {decl},
                    ids[id.value := (id.value in ids ==> ids[id.value]) && decl.optional],
                    if id.value in ids then names else names + [id.value], external)
  {
    hide Runtime, Optional, External;
    DeclAdds(self, naming, decls, decl);
  }

  method RuntimeIds(self: Option<Text>, naming: Naming, runtime: seq<Decl>)
    returns (ids: map<Text, bool>, names: seq<Text>, external: seq<Text>)
    ensures Gathered(self, naming, Elements(runtime), ids, names, external)
  {
    ids, names, external := map[], [], [];
    NothingGathered(self, naming);
    hide Gathered;
    assert Elements(runtime[..0]) == {};
    for i := 0 to |runtime|
      invariant Gathered(self, naming, Elements(runtime[..i]), ids, names, external)
    {
      var decl := runtime[i];
      GatherNext(self, naming, Elements(runtime[..i]), decl, ids, names, external);
      ElementsOn(runtime, i);
      var id := naming(decl.name);
      if id.None? {
        external := external + [decl.name];
      } else if id != self {
        if id.value !in ids {
          names := names + [id.value];
        }
        ids := ids[id.value := (if id.value in ids then ids[id.value] else true) && decl.optional];
      }
    }
    assert runtime[..|runtime|] == runtime;
  }

  lemma ElementsOn<T>(list: seq<T>, i: nat)
    requires i < |list|
    ensures Elements(list[..i + 1]) == Elements(list[..i]) + {list[i]}
  {
    assert list[..i + 1] == list[..i] + [list[i]];
  }

  method DevIds(self: Option<Text>, naming: Naming, dev: seq<Text>, ids: map<Text, bool>) returns (names: seq<Text>)
    ensures forall id :: id in names <==> id !in ids && Some(id) != self && exists n :: n in dev && naming(n) == Some(id)
  {
    names := [];
    for i := 0 to |dev|
      invariant forall id :: id in names <==> id !in ids && Some(id) != self && exists n :: n in dev[..i] && naming(n) == Some(id)
    {
      assert dev[..i + 1] == dev[..i] + [dev[i]];
      var id := naming(dev[i]);
      if id.Some? && id != self && id.value !in ids {
        names := names + [id.value];
      }
    }
    assert dev[..|dev|] == dev;
  }

  method Fold(self: Option<Text>, naming: Naming, runtime: seq<Decl>, dev: seq<Text>) returns (lists: PortLists)
    ensures Folded(self, naming, Elements(runtime), Elements(dev), lists)
  {
    hide Runtime, Optional, External, Filter, Ascending;
    var ids, names, external := RuntimeIds(self, naming, runtime);
    var all := Uniq(names);
    var optional := Filter(all, id => id in ids && ids[id]);
    FilterLists(all, id => id in ids && ids[id]);
    var devNames := DevIds(self, naming, dev, ids);
    var devs := Uniq(devNames);
    var externals := Uniq(external);
    lists := PortLists(all, optional, devs, externals);
  }

  lemma DeclAdds(self: Option<Text>, naming: Naming, decls: set<Decl>, decl: Decl)
    ensures forall id :: Runtime(self, naming, decls, id) ==> Some(id) != self
    ensures forall id :: Runtime(self, naming, decls + {decl}, id) <==>
              Runtime(self, naming, decls, id) || (naming(decl.name) == Some(id) && Some(id) != self)
    ensures forall id :: Optional(self, naming, decls + {decl}, id) <==>
              Runtime(self, naming, decls + {decl}, id)
              && (Runtime(self, naming, decls, id) ==> Optional(self, naming, decls, id))
              && (naming(decl.name) == Some(id) ==> decl.optional)
    ensures forall name :: External(naming, decls + {decl}, name) <==>
              External(naming, decls, name) || (naming(name).None? && decl.name == name)
  {
    forall id
      ensures Runtime(self, naming, decls + {decl}, id) <==>
                Runtime(self, naming, decls, id) || (naming(decl.name) == Some(id) && Some(id) != self)
      ensures Optional(self, naming, decls + {decl}, id) <==>
                Runtime(self, naming, decls + {decl}, id)
                && (Runtime(self, naming, decls, id) ==> Optional(self, naming, decls, id))
                && (naming(decl.name) == Some(id) ==> decl.optional)
    {
      assert decl in decls + {decl};
    }
    assert decl in decls + {decl};
  }

  // The order of the declarations does not matter: equal sets of them give
  // equal lists.
  lemma FoldIsOneResult(self: Option<Text>, naming: Naming, decls: set<Decl>, dev: set<Text>, a: PortLists, b: PortLists)
    requires Folded(self, naming, decls, dev, a) && Folded(self, naming, decls, dev, b)
    ensures a == b
  {
    OneList(a.runtime, b.runtime, set x | x in a.runtime);
    OneList(a.optional, b.optional, set x | x in a.optional);
    OneList(a.dev, b.dev, set x | x in a.dev);
    OneList(a.external, b.external, set x | x in a.external);
  }
}
