// From the text of a manifest to the lists of its port.

module CargoPorts {
  import opened Options
  import opened Text
  import opened Orders
  import opened TomlTrees
  import opened TomlBindings
  import opened TomlSpelling
  import opened PortFold
  import opened Cargo
  import opened CargoLaws
  import G = TomlGrammar
  import T = TomlText

  // --- Names ---

  // `tabnas-`, and one or more characters, none of them a slash or white space.
  predicate NamesRepo(name: Text, id: Text) {
    name == Ascii("tabnas-") + id && id != [] && forall c :: c in id ==> c != '/' as int && c !in G.WHITE_SPACE
  }

  lemma CrateLaw(name: Text, id: Text)
    ensures CrateId(name) == Some(id) <==> NamesRepo(name, id)
  {
    var n := |CRATE_PREFIX|;
    PrefixText();
    forall c: Unit
      ensures T.IsWhite(c) <==> c in G.WHITE_SPACE
    {
      WhiteUnit(c);
    }
    hide T.IsWhite, G.WHITE_SPACE, Ascii;
    if NamesRepo(name, id) {
      assert name[..n] == CRATE_PREFIX && name[n..] == id;
      forall k | n <= k < |name|
        ensures name[k] != SLASH && !T.IsWhite(name[k])
      {
        assert name[k] == id[k - n] && id[k - n] in id;
      }
    }
    if CrateId(name) == Some(id) {
      assert name == name[..n] + name[n..];
      forall c | c in id
        ensures c != '/' as int && c !in G.WHITE_SPACE
      {
        var k :| 0 <= k < |id| && id[k] == c;
        assert name[n + k] == c && name[n + k] != SLASH && !T.IsWhite(name[n + k]);
      }
      assert name == Ascii("tabnas-") + id;
      assert id != [];
    }
  }

  lemma PrefixText()
    ensures CRATE_PREFIX == Ascii("tabnas-") && |CRATE_PREFIX| == 7
  {
  }

  lemma WhiteUnit(c: Unit)
    ensures T.IsWhite(c) <==> c in G.WHITE_SPACE
  {
  }

  // --- The lists of a port ---

  ghost predicate IsOwn(port: Port, id: Text) {
    port.id == Some(id)
  }

  // A repository that is declared: by some name, optional or not.
  ghost predicate RepoDeclared(see: View, dev: bool, id: Text) {
    exists name, optional :: NamesRepo(name, id) && DeclaredAt(see, dev, name, optional)
  }

  ghost predicate RepoRequired(see: View, id: Text) {
    exists name :: NamesRepo(name, id) && DeclaredAt(see, false, name, false)
  }

  ghost predicate Outside(see: View, name: Text) {
    (forall id :: !NamesRepo(name, id)) && exists optional :: DeclaredAt(see, false, name, optional)
  }

  // The four lists, each in order and without repeats: the repositories
  // declared for run time but the port's own; of those the ones no declaration
  // requires; those declared for development only; and the names of no
  // repository that are declared for run time.
  ghost predicate ListsOf(see: View, port: Port) {
    && see([Ascii("package"), Ascii("name")]) == Holding(StrShape(port.name))
    && (forall id :: port.id == Some(id) <==> NamesRepo(port.name, id))
    && Ascending(port.lists.runtime) && Ascending(port.lists.optional) && Ascending(port.lists.dev) && Ascending(port.lists.external)
    && (forall id :: id in port.lists.runtime <==> !IsOwn(port, id) && RepoDeclared(see, false, id))
    && (forall id :: id in port.lists.optional <==> id in port.lists.runtime && !RepoRequired(see, id))
    && (forall id :: id in port.lists.dev <==> !IsOwn(port, id) && RepoDeclared(see, true, id) && !RepoDeclared(see, false, id))
    && (forall name :: name in port.lists.external <==> Outside(see, name))
  }

  lemma PortLists(doc: Shape, port: Port)
    requires ManifestOf(doc).Some? && PortOf(ManifestOf(doc).value, port)
    ensures ListsOf(ViewOf(doc), port)
  {
    var manifest, see := ManifestOf(doc).value, ViewOf(doc);
    ManifestLaw(doc);
    forall name, id
      ensures CrateId(name) == Some(id) <==> NamesRepo(name, id)
    {
      CrateLaw(name, id);
    }
    hide ManifestOf, NamesRepo, CrateId, DeclaredAt, Ascii, ViewOf;
    forall id
      ensures Runtime(port.id, CrateId, manifest.deps.runtime, id) <==> !IsOwn(port, id) && RepoDeclared(see, false, id)
      ensures Optional(port.id, CrateId, manifest.deps.runtime, id) <==>
              !IsOwn(port, id) && RepoDeclared(see, false, id) && !RepoRequired(see, id)
      ensures DevOnly(port.id, CrateId, manifest.deps.runtime, manifest.deps.dev, id) <==>
              !IsOwn(port, id) && RepoDeclared(see, true, id) && !RepoDeclared(see, false, id)
    {
      OneRepo(see, port, manifest.deps, id);
    }
    forall name
      ensures External(CrateId, manifest.deps.runtime, name) <==> Outside(see, name)
    {
      OneName(see, manifest.deps, name);
    }
    hide Runtime, Optional, DevOnly, External, IsOwn, RepoDeclared, RepoRequired, Outside, Ascending;
  }

  // The declarations are those seen.
  ghost predicate Seen(see: View, deps: Deps) {
    && (forall name, optional :: Decl(name, optional) in deps.runtime <==> DeclaredAt(see, false, name, optional))
    && (forall name :: name in deps.dev <==> exists optional :: DeclaredAt(see, true, name, optional))
  }

  lemma OneRepo(see: View, port: Port, deps: Deps, id: Text)
    requires Seen(see, deps)
    requires forall name, id :: CrateId(name) == Some(id) <==> NamesRepo(name, id)
    ensures Runtime(port.id, CrateId, deps.runtime, id) <==> !IsOwn(port, id) && RepoDeclared(see, false, id)
    ensures Optional(port.id, CrateId, deps.runtime, id) <==>
            !IsOwn(port, id) && RepoDeclared(see, false, id) && !RepoRequired(see, id)
    ensures DevOnly(port.id, CrateId, deps.runtime, deps.dev, id) <==>
            !IsOwn(port, id) && RepoDeclared(see, true, id) && !RepoDeclared(see, false, id)
  {
    hide NamesRepo, CrateId, DeclaredAt;
    if d :| d in deps.runtime && CrateId(d.name) == Some(id) {
      assert d == Decl(d.name, d.optional);
      assert NamesRepo(d.name, id) && DeclaredAt(see, false, d.name, d.optional);
    }
    if name, optional :| NamesRepo(name, id) && DeclaredAt(see, false, name, optional) {
      assert Decl(name, optional) in deps.runtime && CrateId(Decl(name, optional).name) == Some(id);
    }
    if name :| NamesRepo(name, id) && DeclaredAt(see, false, name, false) {
      assert Decl(name, false) in deps.runtime && CrateId(Decl(name, false).name) == Some(id);
    }
    if n :| n in deps.dev && CrateId(n) == Some(id) {
      var optional :| DeclaredAt(see, true, n, optional);
      assert NamesRepo(n, id);
    }
    if name, optional :| NamesRepo(name, id) && DeclaredAt(see, true, name, optional) {
      assert name in deps.dev && CrateId(name) == Some(id);
    }
    forall d | d in deps.runtime && CrateId(d.name) == Some(id) && !d.optional
      ensures RepoRequired(see, id)
    {
      assert d == Decl(d.name, false);
      assert NamesRepo(d.name, id) && DeclaredAt(see, false, d.name, false);
    }
  }

  lemma OneName(see: View, deps: Deps, name: Text)
    requires Seen(see, deps)
    requires forall name, id :: CrateId(name) == Some(id) <==> NamesRepo(name, id)
    ensures External(CrateId, deps.runtime, name) <==> Outside(see, name)
  {
    hide NamesRepo, CrateId, DeclaredAt;
    if d :| d in deps.runtime && d.name == name {
      assert d == Decl(name, d.optional);
      assert DeclaredAt(see, false, name, d.optional);
    }
    if optional :| DeclaredAt(see, false, name, optional) {
      assert Decl(name, optional) in deps.runtime && Decl(name, optional).name == name;
    }
    assert CrateId(name).None? <==> forall id :: CrateId(name) != Some(id) by {
      if CrateId(name).Some? { assert CrateId(name) == Some(CrateId(name).value); }
    }
  }

  // --- From the text ---

  // A manifest's text: read, it is readable or refused by what its tree binds,
  // and its port's lists are what the tree declares.
  lemma TextLaw(text: Text, doc: Doc, port: Port)
    requires T.Parse(text) == Some(doc)
    ensures
      var see: View := p => Look(doc.root, p);
      && (ManifestOf(Erase(doc.root)).Some? <==> ManifestReadable(ViewOf(Erase(doc.root))))
      && (forall p :: ViewOf(Erase(doc.root))(p) == see(p))
      && (ManifestOf(Erase(doc.root)).Some? && PortOf(ManifestOf(Erase(doc.root)).value, port) ==>
            ListsOf(ViewOf(Erase(doc.root)), port))
  {
    hide ManifestOf, PortOf, ListsOf, T.Parse, ManifestReadable, Look, LookShape, Erase;
    ManifestReads(Erase(doc.root));
    forall p
      ensures LookShape(Erase(doc.root), p) == Look(doc.root, p)
    {
      LookErased(doc.root, p);
    }
    if ManifestOf(Erase(doc.root)).Some? && PortOf(ManifestOf(Erase(doc.root)).value, port) {
      PortLists(Erase(doc.root), port);
    }
  }

  // --- From what its statements bind ---

  // What bindings put at a key path.
  ghost function Bound(written: seq<Binding>): View {
    p =>
      if Covered(written, p) then Branching
      else if exists x :: Binding(p, Holding(x)) in written then
        var x :| Binding(p, Holding(x)) in written;
        Holding(x)
      else Nothing
  }

  lemma BoundIsSeen(root: Node, written: seq<Binding>, p: Parts)
    requires Holds(root, written)
    ensures Bound(written)(p) == Look(root, p)
  {
    hide Look, Covered;
    assert HoldsAt(root, written, p);
    if !Covered(written, p) && exists x :: Binding(p, Holding(x)) in written {
      var x :| Bound(written)(p) == Holding(x) && Binding(p, Holding(x)) in written;
    } else if !Covered(written, p) {
      assert forall x :: Look(root, p) != Holding(x);
    }
  }

  // The law only asks what stands where.
  lemma SameCounts(a: View, b: View, dev: bool, scope: Parts, table: Text)
    requires forall p :: a(p) == b(p)
    ensures Counts(a, dev, scope, table) <==> Counts(b, dev, scope, table)
  {
    hide Ascii;
  }

  lemma SameDeclares(a: View, b: View, dep: Parts, key: Text, name: Text, optional: bool)
    requires forall p :: a(p) == b(p)
    ensures Declares(a, dep, key, name, optional) <==> Declares(b, dep, key, name, optional)
  {
    hide Ascii;
  }

  lemma SameDeclared(a: View, b: View, dev: bool, name: Text, optional: bool)
    requires forall p :: a(p) == b(p)
    ensures DeclaredAt(a, dev, name, optional) ==> DeclaredAt(b, dev, name, optional)
  {
    hide Counts, Declares, IsScope;
    if DeclaredAt(a, dev, name, optional) {
      var scope :| IsScope(scope) && DeclaredIn(a, dev, scope, name, optional);
      var table, key :| Counts(a, dev, scope, table) && Declares(a, scope + [table, key], key, name, optional);
      SameCounts(a, b, dev, scope, table);
      SameDeclares(a, b, scope + [table, key], key, name, optional);
      assert DeclaredIn(b, dev, scope, name, optional);
    }
  }

  lemma SameLists(a: View, b: View, port: Port)
    requires forall p :: a(p) == b(p)
    requires ListsOf(a, port)
    ensures ListsOf(b, port)
  {
    hide DeclaredAt, NamesRepo, Ascii, Ascending;
    forall dev, name, optional
      ensures DeclaredAt(a, dev, name, optional) <==> DeclaredAt(b, dev, name, optional)
    {
      SameDeclared(a, b, dev, name, optional);
      SameDeclared(b, a, dev, name, optional);
    }
    forall dev, id
      ensures RepoDeclared(a, dev, id) <==> RepoDeclared(b, dev, id)
      ensures RepoRequired(a, id) <==> RepoRequired(b, id)
    {
    }
    forall name
      ensures Outside(a, name) <==> Outside(b, name)
    {
    }
    hide RepoDeclared, RepoRequired, Outside, IsOwn;
  }

  // A manifest without arrays of tables: its port's lists are what its
  // statements bind, however they are spelled.
  lemma BindingsLaw(text: Text, doc: Doc, stmts: seq<Stmt>, port: Port)
    requires T.Parse(text) == Some(doc) && T.Stmts(text, 0, []) == Some(stmts) && NoArrays(stmts)
    requires ManifestOf(Erase(doc.root)).Some? && PortOf(ManifestOf(Erase(doc.root)).value, port)
    ensures ListsOf(Bound(Written(stmts)), port)
  {
    hide ManifestOf, PortOf, ListsOf, T.Stmts, Look, LookShape, Erase, Build, Written, Holds;
    TextLaw(text, doc, port);
    BuildHolds(stmts);
    forall p
      ensures ViewOf(Erase(doc.root))(p) == Bound(Written(stmts))(p)
    {
      BoundIsSeen(doc.root, Written(stmts), p);
    }
    SameLists(ViewOf(Erase(doc.root)), Bound(Written(stmts)), port);
  }
}
