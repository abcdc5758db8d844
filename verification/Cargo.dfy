// The dependencies of a Cargo manifest (tools/port-deps.cjs:489-573): what
// they are, given the manifest's tree, and the reader that collects them.

module Cargo {
  import opened Options
  import opened Text
  import opened Orders
  import opened TomlTrees
  import opened TomlBindings
  import opened TomlSpelling
  import opened PortFold
  import T = TomlText

  const PACKAGE: Text := Ascii("package")
  const NAME: Text := Ascii("name")
  const EDITION: Text := Ascii("edition")
  const EDITION_2024: Text := Ascii("2024")
  const TARGET: Text := Ascii("target")
  const WORKSPACE: Text := Ascii("workspace")
  const OPTIONAL: Text := Ascii("optional")
  const CRATE_PREFIX: Text := Ascii("tabnas-")

  // The repository a crate name stands for: what follows `tabnas-`, if that
  // is not empty and has no slash and no white space.
  function CrateId(name: Text): Option<Text> {
    var n := |CRATE_PREFIX|;
    if |name| > n && name[..n] == CRATE_PREFIX && forall k :: n <= k < |name| ==> name[k] != SLASH && !T.IsWhite(name[k])
    then Some(name[n..])
    else None
  }

  // The three dependency tables, by the hyphen spelling and, where there is
  // one, the underscore spelling.
  datatype TableName = TableName(key: Text, earlier: Option<Text>, dev: bool)

  function CargoTables(): seq<TableName> {
    [ TableName(Ascii("dependencies"), None, false),
      TableName(Ascii("build-dependencies"), Some(Ascii("build_dependencies")), false),
      TableName(Ascii("dev-dependencies"), Some(Ascii("dev_dependencies")), true) ]
  }

  // One dependency; None where its shape is refused.
  function Declared(key: Text, dep: Shape): Option<Decl> {
    if dep.StrShape? then Some(Decl(key, false))
    else if !dep.Branch? || WORKSPACE in dep.entries then None
    else if PACKAGE in dep.entries && !dep.entries[PACKAGE].StrShape? then None
    else if OPTIONAL in dep.entries && !dep.entries[OPTIONAL].BoolShape? then None
    else Some(Decl(if PACKAGE in dep.entries then dep.entries[PACKAGE].s else key,
                   OPTIONAL in dep.entries && dep.entries[OPTIONAL].b))
  }

  // What a manifest declares: for runtime and for development.
  datatype Deps = Deps(runtime: set<Decl>, dev: set<Text>)

  function Join(a: Deps, b: Deps): Deps {
    Deps(a.runtime + b.runtime, a.dev + b.dev)
  }

  function OneDep(decl: Decl, dev: bool): Deps {
    if dev then Deps({}, {decl.name}) else Deps({decl}, {})
  }

  function Entries(table: Shape, dev: bool): Option<Deps> {
    if !table.Branch? || exists k :: k in table.entries && Declared(k, table.entries[k]).None? then None
    else
      var decls := set k | k in table.entries :: Declared(k, table.entries[k]).value;
      Some(if dev then Deps({}, set d | d in decls :: d.name) else Deps(decls, {}))
  }

  // The underscore spelling is read only where the hyphen table is absent, and
  // refused from the 2024 edition.
  function Section(entries: map<Text, Shape>, name: TableName, modern: bool): Option<Deps> {
    if modern && name.earlier.Some? && name.earlier.value in entries then None
    else if name.key in entries then Entries(entries[name.key], name.dev)
    else if name.earlier.Some? && name.earlier.value in entries then Entries(entries[name.earlier.value], name.dev)
    else Some(Deps({}, {}))
  }

  function Sections(entries: map<Text, Shape>, names: seq<TableName>, modern: bool): Option<Deps> {
    if names == [] then Some(Deps({}, {}))
    else
      var before := Sections(entries, names[..|names| - 1], modern);
      var last := Section(entries, names[|names| - 1], modern);
      if before.None? || last.None? then None else Some(Join(before.value, last.value))
  }

  // The same tables under [target.<cfg>].
  function TargetSections(target: Shape, modern: bool): Option<Deps> {
    if !target.Branch? then None
    else if exists cfg :: cfg in target.entries && OneTarget(target.entries[cfg], modern).None? then None
    else
      Some(Deps(set cfg, d | cfg in target.entries && d in OneTarget(target.entries[cfg], modern).value.runtime :: d,
                set cfg, n | cfg in target.entries && n in OneTarget(target.entries[cfg], modern).value.dev :: n))
  }

  function OneTarget(node: Shape, modern: bool): Option<Deps> {
    if node.Branch? then Sections(node.entries, CargoTables(), modern) else None
  }

  predicate Modern(pkg: map<Text, Shape>) {
    EDITION in pkg && pkg[EDITION].StrShape? && !Less(pkg[EDITION].s, EDITION_2024)
  }

  datatype Manifest = Manifest(name: Text, deps: Deps)

  // A manifest as its tree says; None where the reader throws.
  function ManifestOf(doc: Shape): Option<Manifest> {
    if !doc.Branch? || PACKAGE !in doc.entries || !doc.entries[PACKAGE].Branch? then None
    else
      var pkg := doc.entries[PACKAGE].entries;
      if NAME !in pkg || !pkg[NAME].StrShape? || pkg[NAME].s == [] then None
      else
        var own := Sections(doc.entries, CargoTables(), Modern(pkg));
        var target := if TARGET in doc.entries then TargetSections(doc.entries[TARGET], Modern(pkg)) else Some(Deps({}, {}));
        if own.None? || target.None? then None
        else Some(Manifest(pkg[NAME].s, Join(own.value, target.value)))
  }

  lemma EraseEntries(node: Node)
    requires node.Table?
    ensures Erase(node).Branch? && Erase(node).entries.Keys == node.entries.Keys
    ensures forall k :: k in node.entries ==> Erase(node).entries[k] == Erase(node.entries[k])
  {
  }

  function Collected(runtime: seq<Decl>, dev: seq<Text>): Deps {
    Deps(Elements(runtime), Elements(dev))
  }

  class Reader {
    var runtime: seq<Decl>
    var dev: seq<Text>

    constructor ()
      ensures runtime == [] && dev == []
    {
      runtime, dev := [], [];
    }

    method Add(decl: Decl, isDev: bool)
      modifies this
      ensures Collected(runtime, dev) == Join(old(Collected(runtime, dev)), OneDep(decl, isDev))
    {
      Collects(runtime, dev, decl, isDev);
      if isDev {
        dev := dev + [decl.name];
      } else {
        runtime := runtime + [decl];
      }
    }

    // One dependency table, its entries in whatever order they come.
    method TableEntries(node: Node, isDev: bool) returns (ok: bool)
      modifies this
      ensures ok <==> Entries(Erase(node), isDev).Some?
      ensures ok ==> Collected(runtime, dev) == Join(old(Collected(runtime, dev)), Entries(Erase(node), isDev).value)
    {
      if !node.Table? {
        return false;
      }
      EraseEntries(node);
      hide Erase, Declared, AllDeclared, DepsOf, Join, OneDep, Collected, Entries;
      ghost var table, before := Erase(node), Collected(runtime, dev);
      var left := node.entries.Keys;
      NoneRead(table, isDev, before);
      while left != {}
        invariant left <= table.entries.Keys && AllDeclared(table, left)
        invariant Collected(runtime, dev) == Join(before, DepsOf(table, left, isDev))
        decreases |left|
      {
        var key :| key in left;
        var decl := Dependency(key, node.entries[key]);
        if decl.None? {
          EntriesRefused(table, isDev, key);
          return false;
        }
        DepsMore(table, left, isDev, key, before);
        Add(decl.value, isDev);
        left := left - {key};
      }
      EntriesAll(table, isDev);
      return true;
    }

    // The dependency tables of one scope.
    method ScopeTables(node: Node, modern: bool) returns (ok: bool)
      requires node.Table?
      modifies this
      ensures ok <==> Sections(Erase(node).entries, CargoTables(), modern).Some?
      ensures ok ==> Collected(runtime, dev) == Join(old(Collected(runtime, dev)), Sections(Erase(node).entries, CargoTables(), modern).value)
    {
      EraseEntries(node);
      hide Erase, Entries, Join, Collected, CargoTables, Sections;
      ghost var before, entries := Collected(runtime, dev), Erase(node).entries;
      var names := CargoTables();
      NoTables(entries, modern, before);
      for i := 0 to |names|
        invariant Sections(entries, names[..i], modern).Some?
        invariant Collected(runtime, dev) == Join(before, Sections(entries, names[..i], modern).value)
      {
        var name := names[i];
        OneMore(entries, names, i, modern, before);
        if modern && name.earlier.Some? && name.earlier.value in node.entries {
          SectionsRefused(entries, names, i, modern);
          return false;
        }
        if name.key in node.entries {
          ok := TableEntries(node.entries[name.key], name.dev);
        } else if name.earlier.Some? && name.earlier.value in node.entries {
          ok := TableEntries(node.entries[name.earlier.value], name.dev);
        } else {
          ok := true;
          NothingMore(runtime, dev);
        }
        if !ok {
          SectionsRefused(entries, names, i, modern);
          return;
        }
      }
      assert names[..|names|] == names;
      return true;
    }

    method OneTargetTables(node: Node, modern: bool) returns (ok: bool)
      modifies this
      ensures ok <==> OneTarget(Erase(node), modern).Some?
      ensures ok ==> Collected(runtime, dev) == Join(old(Collected(runtime, dev)), OneTarget(Erase(node), modern).value)
    {
      hide Join, Collected, Sections, CargoTables;
      if !node.Table? {
        return false;
      }
      EraseEntries(node);
      ok := ScopeTables(node, modern);
    }

    // The tables under [target.<cfg>], the targets in whatever order they come.
    method TargetTables(target: Node, modern: bool) returns (ok: bool)
      modifies this
      ensures ok <==> TargetSections(Erase(target), modern).Some?
      ensures ok ==> Collected(runtime, dev) == Join(old(Collected(runtime, dev)), TargetSections(Erase(target), modern).value)
    {
      if !target.Table? {
        return false;
      }
      EraseEntries(target);
      hide Erase, AllTargets, TargetsOf, Join, Collected, TargetSections, OneTarget;
      ghost var shape, before := Erase(target), Collected(runtime, dev);
      var left := target.entries.Keys;
      NoTargets(shape, modern, before);
      while left != {}
        invariant left <= shape.entries.Keys && AllTargets(shape, left, modern)
        invariant Collected(runtime, dev) == Join(before, TargetsOf(shape, left, modern))
        decreases |left|
      {
        var cfg :| cfg in left;
        ok := OneTargetTables(target.entries[cfg], modern);
        if !ok {
          TargetsRefused(shape, modern, cfg);
          return;
        }
        TargetsMore(shape, left, modern, cfg, before);
        left := left - {cfg};
      }
      TargetsAll(shape, modern);
      return true;
    }

    // The whole manifest, into a fresh collection.
    method ReadManifest(doc: Node) returns (manifest: Option<Text>)
      requires runtime == [] && dev == []
      modifies this
      ensures manifest.Some? <==> ManifestOf(Erase(doc)).Some?
      ensures manifest.Some? ==> ManifestOf(Erase(doc)) == Some(Manifest(manifest.value, Collected(runtime, dev)))
    {
      if !doc.Table? || PACKAGE !in doc.entries || !doc.entries[PACKAGE].Table? {
        NotAPort(doc);
        return None;
      }
      var pkg := doc.entries[PACKAGE];
      EraseEntries(doc);
      EraseEntries(pkg);
      if NAME !in pkg.entries || !pkg.entries[NAME].Str? || pkg.entries[NAME].s == [] {
        return None;
      }
      var modern := EDITION in pkg.entries && pkg.entries[EDITION].Str? && !Less(pkg.entries[EDITION].s, EDITION_2024);
      assert modern == Modern(Erase(pkg).entries);
      hide Erase, Join, Collected, TargetSections, Sections, CargoTables, Modern;
      StartEmpty(runtime, dev);
      var ok := ScopeTables(doc, modern);
      if !ok {
        return None;
      }
      if TARGET in doc.entries {
        ok := TargetTables(doc.entries[TARGET], modern);
        if !ok {
          return None;
        }
      } else {
        NothingMore(runtime, dev);
      }
      return Some(pkg.entries[NAME].s);
    }

    // `<name> = "1"`, or a table that may rename the crate or mark it optional.
    static method Dependency(key: Text, dep: Node) returns (decl: Option<Decl>)
      ensures decl == Declared(key, Erase(dep))
    {
      var crate, optional := key, false;
      if dep.Table? {
        EraseEntries(dep);
        if WORKSPACE in dep.entries {
          return None;
        }
        if PACKAGE in dep.entries {
          var rename := dep.entries[PACKAGE];
          if !rename.Str? {
            return None;
          }
          crate := rename.s;
        }
        if OPTIONAL in dep.entries {
          var flag := dep.entries[OPTIONAL];
          if !flag.Bool? {
            return None;
          }
          optional := flag.b;
        }
      } else if !dep.Str? {
        return None;
      }
      return Some(Decl(crate, optional));
    }
  }

  ghost predicate AllDeclared(table: Shape, left: set<Text>)
    requires table.Branch?
  {
    forall k :: k in table.entries && k !in left ==> Declared(k, table.entries[k]).Some?
  }

  // What all but some of a table's entries declare.
  ghost function DepsOf(table: Shape, left: set<Text>, dev: bool): Deps
    requires table.Branch? && AllDeclared(table, left)
  {
    var decls := set k | k in table.entries && k !in left :: Declared(k, table.entries[k]).value;
    if dev then Deps({}, set d | d in decls :: d.name) else Deps(decls, {})
  }

  lemma DepsMore(table: Shape, left: set<Text>, dev: bool, key: Text, before: Deps)
    requires table.Branch? && AllDeclared(table, left) && key in left && key in table.entries
    requires Declared(key, table.entries[key]).Some?
    ensures AllDeclared(table, left - {key})
    ensures Join(before, DepsOf(table, left - {key}, dev)) ==
            Join(Join(before, DepsOf(table, left, dev)), OneDep(Declared(key, table.entries[key]).value, dev))
  {
  }

  lemma Collects(runtime: seq<Decl>, dev: seq<Text>, decl: Decl, isDev: bool)
    ensures Collected(if isDev then runtime else runtime + [decl], if isDev then dev + [decl.name] else dev)
            == Join(Collected(runtime, dev), OneDep(decl, isDev))
  {
  }

  lemma NoneRead(table: Shape, dev: bool, before: Deps)
    requires table.Branch?
    ensures AllDeclared(table, table.entries.Keys) && before == Join(before, DepsOf(table, table.entries.Keys, dev))
  {
  }

  lemma EntriesRefused(table: Shape, dev: bool, key: Text)
    requires table.Branch? && key in table.entries && Declared(key, table.entries[key]).None?
    ensures Entries(table, dev).None?
  {
  }

  lemma EntriesAll(table: Shape, dev: bool)
    requires table.Branch? && AllDeclared(table, {})
    ensures Entries(table, dev) == Some(DepsOf(table, {}, dev))
  {
    hide Declared;
    assert forall k :: k in table.entries ==> Declared(k, table.entries[k]).Some?;
    var all := set k | k in table.entries :: Declared(k, table.entries[k]).value;
    var rest := set k | k in table.entries && k !in {} :: Declared(k, table.entries[k]).value;
    assert all == rest;
    assert Entries(table, dev) == Some(if dev then Deps({}, set d | d in all :: d.name) else Deps(all, {}));
    assert DepsOf(table, {}, dev) == if dev then Deps({}, set d | d in rest :: d.name) else Deps(rest, {});
  }

  lemma NoTables(entries: map<Text, Shape>, modern: bool, before: Deps)
    ensures Sections(entries, [], modern).Some? && before == Join(before, Sections(entries, [], modern).value)
    ensures CargoTables()[..0] == []
  {
  }

  lemma NothingMore(runtime: seq<Decl>, dev: seq<Text>)
    ensures Collected(runtime, dev) == Join(Collected(runtime, dev), Deps({}, {}))
  {
  }

  lemma OneMore(entries: map<Text, Shape>, names: seq<TableName>, i: nat, modern: bool, before: Deps)
    requires i < |names| && Sections(entries, names[..i], modern).Some?
    ensures
      var last := Section(entries, names[i], modern);
      var so := Sections(entries, names[..i + 1], modern);
      && (so.Some? <==> last.Some?)
      && (so.Some? ==> Join(before, so.value) == Join(Join(before, Sections(entries, names[..i], modern).value), last.value))
  {
    hide Section;
    assert names[..i + 1][..i] == names[..i];
  }

  lemma {:induction false} SectionsRefused(entries: map<Text, Shape>, names: seq<TableName>, i: nat, modern: bool)
    requires i < |names| && Section(entries, names[i], modern).None?
    ensures Sections(entries, names, modern).None?
    decreases |names|
  {
    hide Section;
    if i < |names| - 1 {
      SectionsRefused(entries, names[..|names| - 1], i, modern);
    }
  }

  lemma NotAPort(doc: Node)
    requires !doc.Table? || PACKAGE !in doc.entries || !doc.entries[PACKAGE].Table?
    ensures ManifestOf(Erase(doc)).None?
  {
    if doc.Table? {
      EraseEntries(doc);
    }
  }

  lemma StartEmpty(runtime: seq<Decl>, dev: seq<Text>)
    requires runtime == [] && dev == []
    ensures forall d :: Join(Collected(runtime, dev), d) == d
  {
  }

  ghost predicate AllTargets(target: Shape, left: set<Text>, modern: bool)
    requires target.Branch?
  {
    forall cfg :: cfg in target.entries && cfg !in left ==> OneTarget(target.entries[cfg], modern).Some?
  }

  // What all but some of the targets declare.
  ghost function TargetsOf(target: Shape, left: set<Text>, modern: bool): Deps
    requires target.Branch? && AllTargets(target, left, modern)
  {
    Deps(set cfg, d | cfg in target.entries && cfg !in left && d in OneTarget(target.entries[cfg], modern).value.runtime :: d,
         set cfg, n | cfg in target.entries && cfg !in left && n in OneTarget(target.entries[cfg], modern).value.dev :: n)
  }

  lemma NoTargets(target: Shape, modern: bool, before: Deps)
    requires target.Branch?
    ensures AllTargets(target, target.entries.Keys, modern) && before == Join(before, TargetsOf(target, target.entries.Keys, modern))
  {
  }

  lemma TargetsMore(target: Shape, left: set<Text>, modern: bool, cfg: Text, before: Deps)
    requires target.Branch? && AllTargets(target, left, modern) && cfg in left && cfg in target.entries
    requires OneTarget(target.entries[cfg], modern).Some?
    ensures AllTargets(target, left - {cfg}, modern)
    ensures Join(before, TargetsOf(target, left - {cfg}, modern)) ==
            Join(Join(before, TargetsOf(target, left, modern)), OneTarget(target.entries[cfg], modern).value)
  {
    hide OneTarget;
    var one := OneTarget(target.entries[cfg], modern).value;
    assert TargetsOf(target, left - {cfg}, modern).runtime == TargetsOf(target, left, modern).runtime + one.runtime;
    assert TargetsOf(target, left - {cfg}, modern).dev == TargetsOf(target, left, modern).dev + one.dev;
  }

  lemma TargetsRefused(target: Shape, modern: bool, cfg: Text)
    requires target.Branch? && cfg in target.entries && OneTarget(target.entries[cfg], modern).None?
    ensures TargetSections(target, modern).None?
  {
    hide OneTarget;
  }

  lemma TargetsAll(target: Shape, modern: bool)
    requires target.Branch? && AllTargets(target, {}, modern)
    ensures TargetSections(target, modern) == Some(TargetsOf(target, {}, modern))
  {
    hide OneTarget;
    assert forall cfg :: cfg in target.entries ==> OneTarget(target.entries[cfg], modern).Some?;
    var all := TargetSections(target, modern).value;
    assert all.runtime == TargetsOf(target, {}, modern).runtime;
    assert all.dev == TargetsOf(target, {}, modern).dev;
  }

  // A port of a manifest, as readRs gives it.
  datatype Port = Port(name: Text, id: Option<Text>, lists: PortLists)

  // What a manifest's port is; the lists are the only ones its declarations fold to.
  ghost predicate PortOf(manifest: Manifest, port: Port) {
    && port.name == manifest.name && port.id == CrateId(manifest.name)
    && Folded(port.id, CrateId, manifest.deps.runtime, manifest.deps.dev, port.lists)
  }

  method ReadRs(doc: Node) returns (port: Option<Port>)
    ensures port.Some? <==> ManifestOf(Erase(doc)).Some?
    ensures port.Some? ==> PortOf(ManifestOf(Erase(doc)).value, port.value)
  {
    hide ManifestOf, Folded, CrateId;
    var reader := new Reader();
    var name := reader.ReadManifest(doc);
    if name.None? {
      return None;
    }
    var lists := Fold(CrateId(name.value), CrateId, reader.runtime, reader.dev);
    return Some(Port(name.value, CrateId(name.value), lists));
  }

  // What a text's statements are.
  function StatementsOf(text: Text): Option<seq<Stmt>> {
    T.Stmts(text, 0, [])
  }

  // Spelling independence, from the text to the dependency lists: two
  // manifests that read, have no arrays of tables and bind the same have the
  // same port.
  lemma SameBindingsSamePort(a: Text, b: Text, pa: Port, pb: Port)
    requires T.Parse(a).Some? && T.Parse(b).Some?
    ensures
      var sa, sb := StatementsOf(a).value, StatementsOf(b).value;
      var ma, mb := ManifestOf(Erase(T.Parse(a).value.root)), ManifestOf(Erase(T.Parse(b).value.root));
      NoArrays(sa) && NoArrays(sb) && SameBindings(sa, sb) ==>
        ma == mb && (ma.Some? && PortOf(ma.value, pa) && PortOf(mb.value, pb) ==> pa == pb)
  {
    hide ManifestOf, Folded, CrateId, Build, SameBindings, NoArrays, T.Stmts;
    var sa, sb := StatementsOf(a).value, StatementsOf(b).value;
    if NoArrays(sa) && NoArrays(sb) && SameBindings(sa, sb) {
      SpellingIndependence(sa, sb);
      var manifest := ManifestOf(Erase(T.Parse(a).value.root));
      if manifest.Some? && PortOf(manifest.value, pa) && PortOf(manifest.value, pb) {
        FoldIsOneResult(pa.id, CrateId, manifest.value.deps.runtime, manifest.value.deps.dev, pa.lists, pb.lists);
      }
    }
  }
}
