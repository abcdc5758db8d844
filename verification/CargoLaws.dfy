// What a Cargo manifest declares, by what is bound at which key path.

module CargoLaws {
  import opened Options
  import opened Text
  import opened Orders
  import opened TomlTrees
  import opened TomlBindings
  import opened PortFold
  import opened Cargo
  import T = TomlText

  // What stands at each key path of a document.
  type View = Parts -> Found

  function LookShape(shape: Shape, p: Parts): Found
    decreases |p|
  {
    if shape.Branch? then
      if p == [] then Branching
      else if p[0] in shape.entries then LookShape(shape.entries[p[0]], p[1..])
      else Nothing
    else if p != [] then Nothing
    else if shape.Rows? then Many
    else Holding(shape)
  }

  lemma {:induction false} LookErased(node: Node, p: Parts)
    ensures Look(node, p) == LookShape(Erase(node), p)
    decreases |p|
  {
    if node.Table? {
      EraseEntries(node);
      if p != [] && p[0] in node.entries {
        LookErased(node.entries[p[0]], p[1..]);
      }
    }
  }

  function ViewOf(shape: Shape): View {
    p => LookShape(shape, p)
  }

  // --- The law, with the key texts spelled out ---

  // The manifest itself, or one target's table.
  predicate IsScope(scope: Parts) {
    scope == [] || (|scope| == 2 && scope[0] == Ascii("target"))
  }

  // A table of dependencies that counts. The underscore spellings count only
  // where the hyphen spelling is absent.
  predicate RuntimeTable(see: View, scope: Parts, table: Text) {
    || table == Ascii("dependencies")
    || table == Ascii("build-dependencies")
    || (table == Ascii("build_dependencies") && see(scope + [Ascii("build-dependencies")]) == Nothing)
  }

  predicate DevTable(see: View, scope: Parts, table: Text) {
    || table == Ascii("dev-dependencies")
    || (table == Ascii("dev_dependencies") && see(scope + [Ascii("dev-dependencies")]) == Nothing)
  }

  predicate Counts(see: View, dev: bool, scope: Parts, table: Text) {
    && (if dev then DevTable(see, scope, table) else RuntimeTable(see, scope, table))
    && see(scope + [table]) != Nothing
  }

  // A dependency's name: what `package` says, or else its key.
  predicate Named(see: View, dep: Parts, key: Text, name: Text) {
    || see(dep + [Ascii("package")]) == Holding(StrShape(name))
    || (see(dep + [Ascii("package")]) == Nothing && name == key)
  }

  // A dependency is declared by a version string under its key, or by a table.
  predicate Declares(see: View, dep: Parts, key: Text, name: Text, optional: bool) {
    || (see(dep).Holding? && see(dep).v.StrShape? && name == key && !optional)
    || (see(dep) == Branching && Named(see, dep, key, name)
        && (optional <==> see(dep + [Ascii("optional")]) == Holding(BoolShape(true))))
  }

  // A declaration in one scope.
  ghost predicate DeclaredIn(see: View, dev: bool, scope: Parts, name: Text, optional: bool) {
    exists table, key :: Counts(see, dev, scope, table) && Declares(see, scope + [table, key], key, name, optional)
  }

  ghost predicate DeclaredAt(see: View, dev: bool, name: Text, optional: bool) {
    exists scope :: IsScope(scope) && DeclaredIn(see, dev, scope, name, optional)
  }

  // --- What is refused ---

  predicate EntryReadable(see: View, dep: Parts) {
    || see(dep) == Nothing
    || (see(dep).Holding? && see(dep).v.StrShape?)
    || (see(dep) == Branching
        && see(dep + [Ascii("workspace")]) == Nothing
        && (var found := see(dep + [Ascii("package")]); found == Nothing || (found.Holding? && found.v.StrShape?))
        && (var found := see(dep + [Ascii("optional")]); found == Nothing || (found.Holding? && found.v.BoolShape?)))
  }

  ghost predicate ScopeReadable(see: View, modern: bool, scope: Parts) {
    && (forall dev, table :: Counts(see, dev, scope, table) ==>
          see(scope + [table]) == Branching && forall key :: EntryReadable(see, scope + [table, key]))
    && (modern ==> see(scope + [Ascii("build_dependencies")]) == Nothing && see(scope + [Ascii("dev_dependencies")]) == Nothing)
  }

  // From the 2024 edition on.
  predicate IsModern(see: View) {
    var found := see([Ascii("package"), Ascii("edition")]);
    found.Holding? && found.v.StrShape? && !Less(found.v.s, Ascii("2024"))
  }

  predicate IsName(found: Found) {
    found.Holding? && found.v.StrShape? && found.v.s != []
  }

  ghost predicate ManifestReadable(see: View) {
    && see([Ascii("package")]) == Branching && IsName(see([Ascii("package"), Ascii("name")]))
    && (see([Ascii("target")]) == Nothing || see([Ascii("target")]) == Branching)
    && (forall cfg :: see([Ascii("target"), cfg]) == Nothing || see([Ascii("target"), cfg]) == Branching)
    && forall scope :: IsScope(scope) && see(scope) == Branching ==> ScopeReadable(see, IsModern(see), scope)
  }

  // --- One dependency ---

  lemma KeyTexts()
    ensures PACKAGE == Ascii("package") && OPTIONAL == Ascii("optional") && WORKSPACE == Ascii("workspace")
    ensures NAME == Ascii("name") && EDITION == Ascii("edition") && TARGET == Ascii("target") && EDITION_2024 == Ascii("2024")
  {
  }

  lemma LookIn(shape: Shape, k: Text, p: Parts)
    ensures LookShape(shape, [k] + p) == if shape.Branch? && k in shape.entries then LookShape(shape.entries[k], p) else Nothing
  {
    Front(k, p);
  }

  lemma LookOne(shape: Shape, k: Text)
    ensures LookShape(shape, [k]) == if shape.Branch? && k in shape.entries then LookShape(shape.entries[k], []) else Nothing
  {
    Padded([k]);
    LookIn(shape, k, []);
  }

  lemma LookHere(shape: Shape)
    ensures LookShape(shape, []) != Nothing
    ensures LookShape(shape, []) == Branching <==> shape.Branch?
    ensures shape.StrShape? || shape.BoolShape? || shape.OtherShape? || shape.Items? ==> LookShape(shape, []) == Holding(shape)
    ensures LookShape(shape, []).Holding? ==> LookShape(shape, []).v == shape
  {
  }

  // One dependency, seen from itself.
  lemma DeclaredLaw(key: Text, dep: Shape)
    ensures Declared(key, dep).Some? <==> EntryReadable(ViewOf(dep), [])
    ensures Declared(key, dep).Some? ==>
              forall name, optional ::
                Declared(key, dep).value == Decl(name, optional) <==> Declares(ViewOf(dep), [], key, name, optional)
  {
    KeyTexts();
    hide Ascii;
    LookHere(dep);
    Padded([PACKAGE]);
    Padded([OPTIONAL]);
    Padded([WORKSPACE]);
    LookOne(dep, PACKAGE);
    LookOne(dep, OPTIONAL);
    LookOne(dep, WORKSPACE);
    if dep.Branch? {
      if PACKAGE in dep.entries { LookHere(dep.entries[PACKAGE]); }
      if OPTIONAL in dep.entries { LookHere(dep.entries[OPTIONAL]); }
      if WORKSPACE in dep.entries { LookHere(dep.entries[WORKSPACE]); }
    }
  }

  // --- From where it is seen ---

  // What stands at and below a path is a shape's.
  ghost predicate Sees(see: View, at: Parts, shape: Shape) {
    forall p: Parts :: see(at + p) == LookShape(shape, p)
  }

  lemma SeesAll(shape: Shape)
    ensures Sees(ViewOf(shape), [], shape)
  {
    forall p: Parts
      ensures ViewOf(shape)([] + p) == LookShape(shape, p)
    {
      Padded(p);
    }
  }

  lemma SeesHere(see: View, at: Parts, shape: Shape)
    requires Sees(see, at, shape)
    ensures see(at) == LookShape(shape, [])
  {
    Padded(at);
    assert see(at + []) == LookShape(shape, []);
  }

  lemma SeesDown(see: View, at: Parts, shape: Shape, k: Text)
    requires Sees(see, at, shape)
    ensures shape.Branch? && k in shape.entries ==> Sees(see, at + [k], shape.entries[k])
    ensures !(shape.Branch? && k in shape.entries) ==> see(at + [k]) == Nothing
    ensures shape.Branch? ==> (see(at + [k]) == Nothing <==> k !in shape.entries)
  {
    assert see(at + [k]) == LookShape(shape, [k]);
    LookOne(shape, k);
    if shape.Branch? && k in shape.entries {
      LookHere(shape.entries[k]);
      forall p: Parts
        ensures see(at + [k] + p) == LookShape(shape.entries[k], p)
      {
        Assoc(at, [k], p);
        assert see(at + ([k] + p)) == LookShape(shape, [k] + p);
        LookIn(shape, k, p);
      }
    }
  }

  lemma SameEntry(see: View, at: Parts, dep: Shape)
    requires Sees(see, at, dep)
    ensures EntryReadable(see, at) <==> EntryReadable(ViewOf(dep), [])
    ensures forall key, name, optional :: Declares(see, at, key, name, optional) <==> Declares(ViewOf(dep), [], key, name, optional)
  {
    hide Ascii, LookShape;
    SeesHere(see, at, dep);
    forall k: Text
      ensures see(at + [k]) == ViewOf(dep)([] + [k])
    {
      Padded([k]);
      assert see(at + [k]) == LookShape(dep, [k]);
    }
    hide Sees, ViewOf;
    assert ViewOf(dep)([]) == LookShape(dep, []) by { ViewHere(dep); }
  }

  lemma ViewHere(shape: Shape)
    ensures ViewOf(shape)([]) == LookShape(shape, [])
  {
  }

  // --- One table ---

  lemma TableReads(see: View, at: Parts, table: Shape, dev: bool)
    requires Sees(see, at, table)
    ensures Entries(table, dev).Some? <==> see(at) == Branching && forall key :: EntryReadable(see, at + [key])
  {
    hide EntryReadable, Declared, Declares, LookShape;
    SeesHere(see, at, table);
    LookHere(table);
    if table.Branch? {
      forall key
        ensures key in table.entries ==> (EntryReadable(see, at + [key]) <==> Declared(key, table.entries[key]).Some?)
        ensures key !in table.entries ==> EntryReadable(see, at + [key])
      {
        EntryReads(see, at, table, key);
      }
      hide Sees;
    }
  }

  lemma EntryReads(see: View, at: Parts, table: Shape, key: Text)
    requires Sees(see, at, table) && table.Branch?
    ensures key in table.entries ==> (EntryReadable(see, at + [key]) <==> Declared(key, table.entries[key]).Some?)
    ensures key !in table.entries ==> EntryReadable(see, at + [key])
    ensures key in table.entries && Declared(key, table.entries[key]).Some? ==>
              forall name, optional ::
                Declared(key, table.entries[key]).value == Decl(name, optional) <==> Declares(see, at + [key], key, name, optional)
    ensures key !in table.entries ==> forall name, optional :: !Declares(see, at + [key], key, name, optional)
  {
    hide Sees, Declared, LookShape;
    SeesDown(see, at, table, key);
    if key in table.entries {
      hide EntryReadable, Declares;
      SameEntry(see, at + [key], table.entries[key]);
      DeclaredLaw(key, table.entries[key]);
    }
  }

  ghost predicate TableDeclares(see: View, at: Parts, name: Text, optional: bool) {
    exists key :: Declares(see, at + [key], key, name, optional)
  }

  lemma TableLaw(see: View, at: Parts, table: Shape, dev: bool)
    requires Sees(see, at, table) && Entries(table, dev).Some?
    ensures
      var deps := Entries(table, dev).value;
      && (forall name, optional :: Decl(name, optional) in deps.runtime <==> !dev && TableDeclares(see, at, name, optional))
      && (forall name :: name in deps.dev <==> dev && exists optional :: TableDeclares(see, at, name, optional))
  {
    hide Sees, Declared, Declares, LookShape, EntryReadable;
    var decls := set k | k in table.entries :: Declared(k, table.entries[k]).value;
    forall name, optional
      ensures Decl(name, optional) in decls <==> TableDeclares(see, at, name, optional)
    {
      DeclsLaw(see, at, table, name, optional);
    }
    hide TableDeclares;
    if dev {
      forall name
        ensures name in Entries(table, dev).value.dev <==> exists optional :: TableDeclares(see, at, name, optional)
      {
        if name in Entries(table, dev).value.dev {
          var d :| d in decls && d.name == name;
          assert d == Decl(name, d.optional);
        }
        if optional :| TableDeclares(see, at, name, optional) {
          assert Decl(name, optional) in decls;
        }
      }
    }
  }

  lemma DeclsLaw(see: View, at: Parts, table: Shape, name: Text, optional: bool)
    requires Sees(see, at, table) && table.Branch? && forall k :: k in table.entries ==> Declared(k, table.entries[k]).Some?
    ensures (exists k :: k in table.entries && Declared(k, table.entries[k]).value == Decl(name, optional)) <==>
            TableDeclares(see, at, name, optional)
  {
    hide Sees, Declared, Declares, LookShape, EntryReadable;
    forall k
      ensures k in table.entries && Declared(k, table.entries[k]).value == Decl(name, optional) <==> Declares(see, at + [k], k, name, optional)
    {
      EntryReads(see, at, table, k);
    }
  }

  // --- One scope ---

  lemma TableTexts()
    ensures
      CargoTables() ==
        [TableName(Ascii("dependencies"), None, false),
         TableName(Ascii("build-dependencies"), Some(Ascii("build_dependencies")), false),
         TableName(Ascii("dev-dependencies"), Some(Ascii("dev_dependencies")), true)]
  {
  }

  // The three tables together.
  lemma ThreeSections(entries: map<Text, Shape>, modern: bool)
    ensures
      var names := CargoTables();
      var a, b, c := Section(entries, names[0], modern), Section(entries, names[1], modern), Section(entries, names[2], modern);
      && (Sections(entries, names, modern).Some? <==> a.Some? && b.Some? && c.Some?)
      && (Sections(entries, names, modern).Some? ==>
            && Sections(entries, names, modern).value.runtime == a.value.runtime + b.value.runtime + c.value.runtime
            && Sections(entries, names, modern).value.dev == a.value.dev + b.value.dev + c.value.dev)
  {
    TableTexts();
    hide Section, CargoTables, Ascii;
    var names := CargoTables();
    SectionsPush(entries, names, 0, modern);
    SectionsPush(entries, names, 1, modern);
    SectionsPush(entries, names, 2, modern);
    assert names[..0] == [] && names[..3] == names;
  }

  lemma SectionsPush(entries: map<Text, Shape>, names: seq<TableName>, i: nat, modern: bool)
    requires i < |names|
    ensures
      var before, last := Sections(entries, names[..i], modern), Section(entries, names[i], modern);
      Sections(entries, names[..i + 1], modern) ==
      if before.None? || last.None? then None else Some(Join(before.value, last.value))
  {
    hide Section;
    assert names[..i + 1][..i] == names[..i];
  }

  // The table of one kind that counts, if there is one.
  predicate Used(see: View, scope: Parts, name: TableName, table: Text) {
    && (table == name.key || (name.earlier == Some(table) && see(scope + [name.key]) == Nothing))
    && see(scope + [table]) != Nothing
  }

  ghost predicate SectionReadable(see: View, modern: bool, scope: Parts, name: TableName) {
    && (modern && name.earlier.Some? ==> see(scope + [name.earlier.value]) == Nothing)
    && forall table :: Used(see, scope, name, table) ==>
         see(scope + [table]) == Branching && forall key :: EntryReadable(see, scope + [table, key])
  }

  ghost predicate SectionDeclares(see: View, scope: Parts, name: TableName, crate: Text, optional: bool) {
    exists table :: Used(see, scope, name, table) && TableDeclares(see, scope + [table], crate, optional)
  }

  lemma TwoKeys(scope: Parts, table: Text)
    ensures forall key: Text :: scope + [table] + [key] == scope + [table, key]
  {
    forall key: Text
      ensures scope + [table] + [key] == scope + [table, key]
    {
      assert [table] + [key] == [table, key];
      Assoc(scope, [table], [key]);
    }
  }

  lemma SectionLaw(see: View, scope: Parts, shape: Shape, name: TableName, modern: bool)
    requires Sees(see, scope, shape) && shape.Branch? && (name.earlier.Some? ==> name.earlier.value != name.key)
    ensures
      var section := Section(shape.entries, name, modern);
      && (section.Some? <==> SectionReadable(see, modern, scope, name))
      && (section.Some? ==>
            && (forall crate, optional ::
                  Decl(crate, optional) in section.value.runtime <==> !name.dev && SectionDeclares(see, scope, name, crate, optional))
            && (forall crate ::
                  crate in section.value.dev <==> name.dev && exists optional :: SectionDeclares(see, scope, name, crate, optional)))
  {
    hide Sees, Entries, LookShape, EntryReadable, TableDeclares;
    SeesDown(see, scope, shape, name.key);
    if name.earlier.Some? {
      SeesDown(see, scope, shape, name.earlier.value);
    }
    if modern && name.earlier.Some? && name.earlier.value in shape.entries {
    } else if name.key in shape.entries || (name.earlier.Some? && name.earlier.value in shape.entries) {
      var table := if name.key in shape.entries then name.key else name.earlier.value;
      assert forall other :: Used(see, scope, name, other) <==> other == table;
      TwoKeys(scope, table);
      TableReads(see, scope + [table], shape.entries[table], name.dev);
      if Entries(shape.entries[table], name.dev).Some? {
        TableLaw(see, scope + [table], shape.entries[table], name.dev);
        OnlyTable(see, scope, name, table);
      }
    } else {
      assert forall other :: !Used(see, scope, name, other);
    }
  }

  lemma OnlyTable(see: View, scope: Parts, name: TableName, table: Text)
    requires forall other :: Used(see, scope, name, other) <==> other == table
    ensures forall crate, optional ::
              SectionDeclares(see, scope, name, crate, optional) <==> TableDeclares(see, scope + [table], crate, optional)
  {
    hide Used, TableDeclares;
  }

  lemma CountsUsed(see: View, scope: Parts, table: Text)
    ensures
      var names := CargoTables();
      && (Counts(see, false, scope, table) <==> Used(see, scope, names[0], table) || Used(see, scope, names[1], table))
      && (Counts(see, true, scope, table) <==> Used(see, scope, names[2], table))
  {
    TableTexts();
    hide Ascii, CargoTables;
  }

  lemma TableTextsDiffer()
    ensures Ascii("build_dependencies") != Ascii("build-dependencies") && Ascii("dev_dependencies") != Ascii("dev-dependencies")
  {
    assert Ascii("build_dependencies")[5] != Ascii("build-dependencies")[5];
    assert Ascii("dev_dependencies")[3] != Ascii("dev-dependencies")[3];
  }

  // A scope reads exactly where its tables do, and declares what they declare.
  lemma ScopeLaw(see: View, scope: Parts, shape: Shape, modern: bool)
    requires Sees(see, scope, shape) && shape.Branch?
    ensures
      var sections := Sections(shape.entries, CargoTables(), modern);
      && (sections.Some? <==> ScopeReadable(see, modern, scope))
      && (sections.Some? ==>
            && (forall crate, optional :: Decl(crate, optional) in sections.value.runtime <==> DeclaredIn(see, false, scope, crate, optional))
            && (forall crate :: crate in sections.value.dev <==> exists optional :: DeclaredIn(see, true, scope, crate, optional)))
  {
    TableTextsDiffer();
    TableTexts();
    hide Ascii, Section, Sees, CargoTables, Sections;
    var names := CargoTables();
    ThreeSections(shape.entries, modern);
    SectionLaw(see, scope, shape, names[0], modern);
    SectionLaw(see, scope, shape, names[1], modern);
    SectionLaw(see, scope, shape, names[2], modern);
    ScopeReads(see, scope, modern);
    hide SectionReadable, SectionDeclares, DeclaredIn, ScopeReadable;
    forall crate, optional
      ensures DeclaredIn(see, false, scope, crate, optional) <==>
              SectionDeclares(see, scope, names[0], crate, optional) || SectionDeclares(see, scope, names[1], crate, optional)
      ensures DeclaredIn(see, true, scope, crate, optional) <==> SectionDeclares(see, scope, names[2], crate, optional)
    {
      ScopeDeclares(see, scope, crate, optional);
    }
  }

  lemma ScopeReads(see: View, scope: Parts, modern: bool)
    ensures
      var names := CargoTables();
      ScopeReadable(see, modern, scope) <==>
      SectionReadable(see, modern, scope, names[0]) && SectionReadable(see, modern, scope, names[1])
      && SectionReadable(see, modern, scope, names[2])
  {
    TableTexts();
    forall table
      ensures
        var names := CargoTables();
        && (Counts(see, false, scope, table) <==> Used(see, scope, names[0], table) || Used(see, scope, names[1], table))
        && (Counts(see, true, scope, table) <==> Used(see, scope, names[2], table))
    {
      CountsUsed(see, scope, table);
    }
    hide Ascii, CargoTables, Counts, Used, EntryReadable;
  }

  lemma ScopeDeclares(see: View, scope: Parts, crate: Text, optional: bool)
    ensures
      var names := CargoTables();
      && (DeclaredIn(see, false, scope, crate, optional) <==>
          SectionDeclares(see, scope, names[0], crate, optional) || SectionDeclares(see, scope, names[1], crate, optional))
      && (DeclaredIn(see, true, scope, crate, optional) <==> SectionDeclares(see, scope, names[2], crate, optional))
  {
    TableTexts();
    forall table
      ensures
        var names := CargoTables();
        && (Counts(see, false, scope, table) <==> Used(see, scope, names[0], table) || Used(see, scope, names[1], table))
        && (Counts(see, true, scope, table) <==> Used(see, scope, names[2], table))
      ensures TableDeclares(see, scope + [table], crate, optional) <==>
              exists key :: Declares(see, scope + [table, key], key, crate, optional)
    {
      CountsUsed(see, scope, table);
      SameTable(see, scope, table, crate, optional);
    }
    hide Ascii, CargoTables, Counts, Used, Declares, TableDeclares;
  }

  lemma SameTable(see: View, scope: Parts, table: Text, crate: Text, optional: bool)
    ensures TableDeclares(see, scope + [table], crate, optional) <==>
            exists key :: Declares(see, scope + [table, key], key, crate, optional)
  {
    hide Declares;
    TwoKeys(scope, table);
  }

  // --- The targets ---

  lemma TargetScope(see: View, target: Shape, cfg: Text, modern: bool)
    requires Sees(see, [TARGET], target) && target.Branch?
    ensures cfg !in target.entries <==> see([TARGET, cfg]) == Nothing
    ensures cfg in target.entries ==>
              var one := OneTarget(target.entries[cfg], modern);
              && (one.Some? <==> see([TARGET, cfg]) == Branching && ScopeReadable(see, modern, [TARGET, cfg]))
              && (one.Some? ==>
                    && (forall crate, optional ::
                          Decl(crate, optional) in one.value.runtime <==> DeclaredIn(see, false, [TARGET, cfg], crate, optional))
                    && (forall crate :: crate in one.value.dev <==> exists optional :: DeclaredIn(see, true, [TARGET, cfg], crate, optional)))
  {
    hide Sees, Sections, DeclaredIn, ScopeReadable, CargoTables;
    SeesDown(see, [TARGET], target, cfg);
    assert [TARGET] + [cfg] == [TARGET, cfg];
    if cfg in target.entries {
      var node := target.entries[cfg];
      SeesHere(see, [TARGET, cfg], node);
      LookHere(node);
      if node.Branch? {
        ScopeLaw(see, [TARGET, cfg], node, modern);
      }
    }
  }

  ghost predicate TargetReadable(see: View, modern: bool, cfg: Text) {
    see([TARGET, cfg]) == Nothing || (see([TARGET, cfg]) == Branching && ScopeReadable(see, modern, [TARGET, cfg]))
  }

  ghost predicate TargetDeclares(see: View, dev: bool, cfg: Text, crate: Text, optional: bool) {
    see([TARGET, cfg]) == Branching && DeclaredIn(see, dev, [TARGET, cfg], crate, optional)
  }

  ghost predicate TargetDeclaresDev(see: View, cfg: Text, crate: Text) {
    exists optional :: TargetDeclares(see, true, cfg, crate, optional)
  }

  lemma TargetsLaw(see: View, target: Shape, modern: bool)
    requires Sees(see, [TARGET], target)
    ensures
      var sections := TargetSections(target, modern);
      && (sections.Some? <==> target.Branch? && forall cfg :: TargetReadable(see, modern, cfg))
      && (sections.Some? ==>
            && (forall crate, optional ::
                  Decl(crate, optional) in sections.value.runtime <==> exists cfg :: TargetDeclares(see, false, cfg, crate, optional))
            && (forall crate ::
                  crate in sections.value.dev <==> exists cfg :: TargetDeclaresDev(see, cfg, crate)))
  {
    if target.Branch? {
      forall cfg
        ensures cfg !in target.entries <==> see([TARGET, cfg]) == Nothing
        ensures cfg in target.entries ==> (OneTarget(target.entries[cfg], modern).Some? <==> TargetReadable(see, modern, cfg))
      {
        hide Sees, OneTarget, ScopeReadable, DeclaredIn;
        TargetScope(see, target, cfg, modern);
      }
      if TargetSections(target, modern).Some? {
        forall crate, optional
          ensures Decl(crate, optional) in TargetSections(target, modern).value.runtime <==>
                  exists cfg :: TargetDeclares(see, false, cfg, crate, optional)
        {
          TargetRuntime(see, target, modern, crate, optional);
        }
        forall crate
          ensures crate in TargetSections(target, modern).value.dev <==>
                  exists cfg :: TargetDeclaresDev(see, cfg, crate)
        {
          TargetDev(see, target, modern, crate);
        }
      }
      hide TargetReadable, TargetDeclares, TargetDeclaresDev, OneTarget;
    }
  }

  lemma TargetRuntime(see: View, target: Shape, modern: bool, crate: Text, optional: bool)
    requires Sees(see, [TARGET], target) && TargetSections(target, modern).Some?
    ensures Decl(crate, optional) in TargetSections(target, modern).value.runtime <==>
            exists cfg :: TargetDeclares(see, false, cfg, crate, optional)
  {
    hide Sees, OneTarget, ScopeReadable, DeclaredIn;
    forall cfg
      ensures TargetDeclares(see, false, cfg, crate, optional) <==>
              cfg in target.entries && Decl(crate, optional) in OneTarget(target.entries[cfg], modern).value.runtime
    {
      TargetScope(see, target, cfg, modern);
    }
    hide TargetDeclares;
  }

  lemma TargetDev(see: View, target: Shape, modern: bool, crate: Text)
    requires Sees(see, [TARGET], target) && TargetSections(target, modern).Some?
    ensures crate in TargetSections(target, modern).value.dev <==>
            exists cfg :: TargetDeclaresDev(see, cfg, crate)
  {
    hide Sees, OneTarget, ScopeReadable, DeclaredIn;
    forall cfg
      ensures TargetDeclaresDev(see, cfg, crate) <==>
              cfg in target.entries && crate in OneTarget(target.entries[cfg], modern).value.dev
    {
      hide TargetSections;
      if cfg in target.entries {
        TargetsSome(target, modern, cfg);
      }
      OneTargetDev(see, target, modern, crate, cfg);
    }
    hide TargetDeclaresDev;
  }

  lemma TargetsSome(target: Shape, modern: bool, cfg: Text)
    requires TargetSections(target, modern).Some? && target.Branch? && cfg in target.entries
    ensures OneTarget(target.entries[cfg], modern).Some?
  {
    hide OneTarget;
  }

  lemma OneTargetDev(see: View, target: Shape, modern: bool, crate: Text, cfg: Text)
    requires Sees(see, [TARGET], target) && target.Branch? && (cfg in target.entries ==> OneTarget(target.entries[cfg], modern).Some?)
    ensures TargetDeclaresDev(see, cfg, crate) <==>
            cfg in target.entries && crate in OneTarget(target.entries[cfg], modern).value.dev
  {
    hide Sees, OneTarget, ScopeReadable, DeclaredIn;
    TargetScope(see, target, cfg, modern);
    if cfg in target.entries && crate in OneTarget(target.entries[cfg], modern).value.dev {
      var optional :| DeclaredIn(see, true, [TARGET, cfg], crate, optional);
      assert TargetDeclares(see, true, cfg, crate, optional);
    }
    if optional :| TargetDeclares(see, true, cfg, crate, optional) {
      assert DeclaredIn(see, true, [TARGET, cfg], crate, optional);
    }
  }

  // --- The manifest ---

  // Something below a path only below a table.
  lemma {:induction false} Above(doc: Shape, at: Parts, k: Text)
    ensures LookShape(doc, at + [k]) != Nothing ==> LookShape(doc, at) == Branching
    decreases |at|
  {
    if at == [] {
      LookHere(doc);
      Padded([k]);
    } else {
      assert (at + [k])[1..] == at[1..] + [k];
      if doc.Branch? && at[0] in doc.entries {
        Above(doc.entries[at[0]], at[1..], k);
      }
    }
  }

  lemma DeclaredAbove(doc: Shape, dev: bool, scope: Parts, name: Text, optional: bool)
    ensures DeclaredIn(ViewOf(doc), dev, scope, name, optional) ==> LookShape(doc, scope) == Branching
  {
    hide LookShape, Declares, RuntimeTable, DevTable;
    if table, key :| Counts(ViewOf(doc), dev, scope, table) && Declares(ViewOf(doc), scope + [table, key], key, name, optional) {
      Above(doc, scope, table);
    }
  }

  lemma PackageLaw(doc: Shape)
    requires doc.Branch?
    ensures
      var see := ViewOf(doc);
      && (see([PACKAGE]) == Branching <==> PACKAGE in doc.entries && doc.entries[PACKAGE].Branch?)
      && (see([PACKAGE]) == Branching ==>
            var pkg := doc.entries[PACKAGE].entries;
            && (IsName(see([PACKAGE, NAME])) <==> NAME in pkg && pkg[NAME].StrShape? && pkg[NAME].s != [])
            && (IsName(see([PACKAGE, NAME])) ==> see([PACKAGE, NAME]) == Holding(StrShape(pkg[NAME].s)))
            && (IsModern(see) <==> Modern(pkg)))
  {
    KeyTexts();
    hide Ascii;
    LookOne(doc, PACKAGE);
    if PACKAGE in doc.entries {
      var pkg := doc.entries[PACKAGE];
      LookHere(pkg);
      assert [PACKAGE] + [NAME] == [PACKAGE, NAME] && [PACKAGE] + [EDITION] == [PACKAGE, EDITION];
      LookIn(doc, PACKAGE, [NAME]);
      LookIn(doc, PACKAGE, [EDITION]);
      LookOne(pkg, NAME);
      LookOne(pkg, EDITION);
      if pkg.Branch? {
        if NAME in pkg.entries { LookHere(pkg.entries[NAME]); }
        if EDITION in pkg.entries { LookHere(pkg.entries[EDITION]); }
      }
    }
  }

  // The target tables, or none.
  function TargetsOf(doc: Shape, modern: bool): Option<Deps>
    requires doc.Branch?
  {
    if TARGET in doc.entries then TargetSections(doc.entries[TARGET], modern) else Some(Deps({}, {}))
  }

  lemma TargetLaw(doc: Shape, modern: bool)
    requires doc.Branch?
    ensures
      var see, targets := ViewOf(doc), TargetsOf(doc, modern);
      && (targets.Some? <==>
            (see([TARGET]) == Nothing || see([TARGET]) == Branching) && forall cfg :: TargetReadable(see, modern, cfg))
      && (targets.Some? ==>
            && (forall crate, optional ::
                  Decl(crate, optional) in targets.value.runtime <==> exists cfg :: TargetDeclares(see, false, cfg, crate, optional))
            && (forall crate ::
                  crate in targets.value.dev <==> exists cfg :: TargetDeclaresDev(see, cfg, crate)))
  {
    hide TargetSections, Sees, ScopeReadable, DeclaredIn;
    var see := ViewOf(doc);
    SeesAll(doc);
    SeesDown(see, [], doc, TARGET);
    Padded([TARGET]);
    if TARGET in doc.entries {
      SeesHere(see, [TARGET], doc.entries[TARGET]);
      LookHere(doc.entries[TARGET]);
      hide TargetReadable, TargetDeclares, TargetDeclaresDev;
      TargetsLaw(see, doc.entries[TARGET], modern);
    } else {
      forall cfg
        ensures see([TARGET, cfg]) == Nothing
      {
        assert [TARGET] + [cfg] == [TARGET, cfg];
        Above(doc, [TARGET], cfg);
      }
    }
  }

  // Every scope is the manifest itself or a target's.
  lemma ScopeIs(scope: Parts)
    ensures IsScope(scope) <==> scope == [] || (|scope| == 2 && scope == [TARGET, scope[1]])
    ensures forall cfg :: IsScope([TARGET, cfg])
  {
    KeyTexts();
    hide Ascii;
    if |scope| == 2 {
      assert scope == [scope[0], scope[1]];
    }
  }

  lemma ScopesRead(see: View, modern: bool)
    requires see([]) == Branching
    ensures
      && ((forall cfg :: see([TARGET, cfg]) == Nothing || see([TARGET, cfg]) == Branching)
          && (forall scope :: IsScope(scope) && see(scope) == Branching ==> ScopeReadable(see, modern, scope))
          <==> ScopeReadable(see, modern, []) && forall cfg :: TargetReadable(see, modern, cfg))
  {
    hide ScopeReadable;
    ScopeIs([]);
    if ScopeReadable(see, modern, []) && forall cfg :: TargetReadable(see, modern, cfg) {
      forall scope: Parts | IsScope(scope) && see(scope) == Branching
        ensures ScopeReadable(see, modern, scope)
      {
        ScopeIs(scope);
        if scope != [] {
          assert TargetReadable(see, modern, scope[1]);
        }
      }
      forall cfg
        ensures see([TARGET, cfg]) == Nothing || see([TARGET, cfg]) == Branching
      {
        assert TargetReadable(see, modern, cfg);
      }
    }
    hide IsScope;
  }

  lemma ScopesDeclare(doc: Shape, dev: bool, name: Text, optional: bool)
    ensures DeclaredAt(ViewOf(doc), dev, name, optional) <==>
            DeclaredIn(ViewOf(doc), dev, [], name, optional) || exists cfg :: TargetDeclares(ViewOf(doc), dev, cfg, name, optional)
  {
    KeyTexts();
    hide Ascii, DeclaredIn, LookShape;
    var see := ViewOf(doc);
    if DeclaredAt(see, dev, name, optional) {
      var scope :| IsScope(scope) && DeclaredIn(see, dev, scope, name, optional);
      if scope != [] {
        assert scope == [TARGET, scope[1]];
        DeclaredAbove(doc, dev, scope, name, optional);
        assert TargetDeclares(see, dev, scope[1], name, optional);
      }
    }
    if DeclaredIn(see, dev, [], name, optional) {
      assert IsScope([]);
    }
    if cfg :| TargetDeclares(see, dev, cfg, name, optional) {
      assert IsScope([TARGET, cfg]);
    }
  }

  // The parts a manifest is read in.
  lemma ManifestParts(doc: Shape)
    ensures
      var see := ViewOf(doc);
      ManifestOf(doc).Some? <==>
        doc.Branch? && see([PACKAGE]) == Branching && IsName(see([PACKAGE, NAME]))
        && Sections(doc.entries, CargoTables(), IsModern(see)).Some? && TargetsOf(doc, IsModern(see)).Some?
    ensures ManifestOf(doc).Some? ==>
              var manifest, modern := ManifestOf(doc).value, IsModern(ViewOf(doc));
              && ViewOf(doc)([PACKAGE, NAME]) == Holding(StrShape(manifest.name))
              && manifest.deps == Join(Sections(doc.entries, CargoTables(), modern).value, TargetsOf(doc, modern).value)
  {
    hide Sections, TargetSections, IsModern, Modern, IsName, LookShape, CargoTables, Join;
    if doc.Branch? {
      PackageLaw(doc);
    }
  }

  // A manifest reads exactly where it is readable.
  lemma ManifestReads(doc: Shape)
    ensures ManifestOf(doc).Some? <==> ManifestReadable(ViewOf(doc))
  {
    KeyTexts();
    hide Ascii, ScopeReadable, TargetReadable, Sections, IsModern, IsName, TargetsOf, ManifestOf, LookShape;
    var see := ViewOf(doc);
    ManifestParts(doc);
    LookHere(doc);
    ViewHere(doc);
    if doc.Branch? {
      SeesAll(doc);
      ScopeLaw(see, [], doc, IsModern(see));
      TargetLaw(doc, IsModern(see));
      ScopesRead(see, IsModern(see));
    } else {
      LookOne(doc, PACKAGE);
    }
    hide Sees, IsScope;
  }

  // It declares then what its scopes declare, under the name it gives itself.
  lemma ManifestLaw(doc: Shape)
    requires ManifestOf(doc).Some?
    ensures
      var manifest, see := ManifestOf(doc).value, ViewOf(doc);
      && see([Ascii("package"), Ascii("name")]) == Holding(StrShape(manifest.name))
      && (forall name, optional :: Decl(name, optional) in manifest.deps.runtime <==> DeclaredAt(see, false, name, optional))
      && (forall name :: name in manifest.deps.dev <==> exists optional :: DeclaredAt(see, true, name, optional))
  {
    KeyTexts();
    hide Ascii, ScopeReadable, DeclaredIn, TargetReadable, TargetDeclares, Sections, IsModern, IsName, DeclaredAt, TargetsOf, ManifestOf, LookShape;
    var see := ViewOf(doc);
    ManifestParts(doc);
    SeesAll(doc);
    ScopeLaw(see, [], doc, IsModern(see));
    TargetLaw(doc, IsModern(see));
    forall dev, name, optional
      ensures DeclaredAt(see, dev, name, optional) <==>
              DeclaredIn(see, dev, [], name, optional) || exists cfg :: TargetDeclares(see, dev, cfg, name, optional)
    {
      ScopesDeclare(doc, dev, name, optional);
    }
    forall name
      ensures name in ManifestOf(doc).value.deps.dev <==> exists optional :: DeclaredAt(see, true, name, optional)
    {
      if optional :| DeclaredIn(see, true, [], name, optional) {
        assert DeclaredAt(see, true, name, optional);
      }
      if cfg :| TargetDeclaresDev(see, cfg, name) {
        var optional :| TargetDeclares(see, true, cfg, name, optional);
        assert DeclaredAt(see, true, name, optional);
      }
      if optional :| DeclaredAt(see, true, name, optional) {
        if cfg :| TargetDeclares(see, true, cfg, name, optional) {
          assert TargetDeclaresDev(see, cfg, name);
        }
      }
    }
    hide Sees;
  }
}
