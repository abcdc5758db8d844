// Manifests character by character: one dependency in each of the three
// tables, plain, renamed and optional, and the lists its port gets.

module CargoTexts {
  import opened Options
  import opened Text
  import opened Orders
  import opened TomlTrees
  import opened TomlBindings
  import opened PortFold
  import opened Cargo
  import opened CargoPorts
  import CargoLaws
  import P = TomlPrint
  import N = TomlNormal
  import X = TomlTexts
  import F = TomlForms
  import T = TomlText

  // A [package] table with a name, and one table with one entry.
  function ManifestText(name: Text, table: Text, key: Text, dep: Text): Text {
    Ascii("[package]\n")
    + (Ascii("name = ") + X.InQuotes(name) + Ascii("\n"))
    + (Ascii("[") + table + Ascii("]\n"))
    + (key + Ascii(" = ") + dep + Ascii("\n"))
  }

  // How a dependency is written: `"1"`, `{ package = "p" }`,
  // `{ package = "p", optional = true }`.
  datatype Written = Version(v: Text) | Renamed(crate: Text) | RenamedOptional(crate: Text)

  function DepText(dep: Written): Text {
    match dep
    case Version(v) => X.InQuotes(v)
    case Renamed(crate) => Ascii("{ package = ") + X.InQuotes(crate) + Ascii(" }")
    case RenamedOptional(crate) => Ascii("{ package = ") + X.InQuotes(crate) + Ascii(", optional = true }")
  }

  // What it declares under a key.
  function DepDecl(key: Text, dep: Written): Decl {
    match dep
    case Version(_) => Decl(key, false)
    case Renamed(crate) => Decl(crate, false)
    case RenamedOptional(crate) => Decl(crate, true)
  }

  const DEPENDENCIES: Text := Ascii("dependencies")
  const BUILD_DEPENDENCIES: Text := Ascii("build-dependencies")
  const DEV_DEPENDENCIES: Text := Ascii("dev-dependencies")

  predicate IsTable(table: Text) {
    table == DEPENDENCIES || table == BUILD_DEPENDENCIES || table == DEV_DEPENDENCIES
  }

  predicate PlainDep(dep: Written) {
    match dep
    case Version(v) => P.AllPlain(v)
    case Renamed(crate) => P.AllPlain(crate)
    case RenamedOptional(crate) => P.AllPlain(crate)
  }

  // --- The statements ---

  function DepValue(dep: Written): Value {
    match dep
    case Version(v) => StrValue(4, v)
    case Renamed(crate) => InlineValue(4, [Pair([PACKAGE], StrValue(4, crate))])
    case RenamedOptional(crate) => InlineValue(4, [Pair([PACKAGE], StrValue(4, crate)), Pair([OPTIONAL], BoolValue(4, true))])
  }

  function Stmts(name: Text, table: Text, key: Text, dep: Value): seq<Stmt> {
    [Header(1, false, [PACKAGE]), Bind(2, [NAME], StrValue(2, name)), Header(3, false, [table]), Bind(4, [key], dep)]
  }

  lemma PrintFour(a: Stmt, b: Stmt, c: Stmt, d: Stmt)
    ensures P.Print([a, b, c, d]) == P.PrintStmt(a) + P.PrintStmt(b) + P.PrintStmt(c) + P.PrintStmt(d)
  {
    hide P.PrintStmt;
    assert [a, b, c, d][1..] == [b, c, d] && [b, c, d][1..] == [c, d];
    X.PrintTwo(c, d);
    assert P.Print([b, c, d]) == P.PrintStmt(b) + P.Print([c, d]);
    Assoc(P.PrintStmt(a), P.PrintStmt(b), P.PrintStmt(c) + P.PrintStmt(d));
    Assoc(P.PrintStmt(a) + P.PrintStmt(b), P.PrintStmt(c), P.PrintStmt(d));
  }

  lemma BareTexts()
    ensures P.BarePart(PACKAGE) && P.BarePart(NAME) && P.BarePart(OPTIONAL)
    ensures P.BarePart(DEPENDENCIES) && P.BarePart(BUILD_DEPENDENCIES) && P.BarePart(DEV_DEPENDENCIES)
  {
  }

  lemma Marks()
    ensures Ascii("[") == [BRACKET_OPEN] && Ascii("]\n") == [BRACKET_CLOSE, LF] && Ascii("\n") == [LF]
    ensures Ascii(" = ") == X.EQUAL_SIGN
  {
  }

  lemma HeaderPrints(table: Text, line: nat)
    requires P.BarePart(table)
    ensures P.PrintStmt(Header(line, false, [table])) == Ascii("[") + table + Ascii("]\n")
  {
    Marks();
    assert P.PrintKey([table]) == table;
    hide P.PrintKey, Ascii;
    Assoc([BRACKET_OPEN], table, [BRACKET_CLOSE, LF]);
  }

  lemma PackageHeader()
    ensures Ascii("[") + PACKAGE + Ascii("]\n") == Ascii("[package]\n")
  {
  }

  lemma BindPrints(key: Text, v: Value, line: nat)
    requires P.BarePart(key)
    ensures P.PrintStmt(Bind(line, [key], v)) == key + Ascii(" = ") + P.PrintValue(v) + Ascii("\n")
  {
    Marks();
    assert P.PrintKey([key]) == key;
    hide P.PrintKey, P.PrintValue, P.PrintPair, Ascii;
    X.PrintedPair([key], v);
    X.SpacedJoin(key, P.PrintValue(v));
  }

  lemma NameLine(name: Text)
    ensures NAME + Ascii(" = ") + X.InQuotes(name) + Ascii("\n") == Ascii("name = ") + X.InQuotes(name) + Ascii("\n")
  {
    assert NAME + Ascii(" = ") == Ascii("name = ");
  }

  lemma StringPrints(s: Text, line: nat)
    requires P.AllPlain(s)
    ensures P.PrintValue(StrValue(line, s)) == X.InQuotes(s)
  {
  }

  // A pair in an inline table, as it is printed.
  lemma PairPrints(key: Text, v: Value)
    requires P.BarePart(key)
    ensures P.PrintPair(Pair([key], v)) == key + X.EQUAL_SIGN + P.PrintValue(v)
  {
    assert P.PrintKey([key]) == key;
    hide P.PrintKey, P.PrintValue, P.PrintPair;
    X.PrintedPair([key], v);
    X.SpacedJoin(key, P.PrintValue(v));
  }

  lemma OnePairPrints(a: Pair)
    ensures P.PrintValue(InlineValue(4, [a])) == [BRACE_OPEN, SPACE] + P.PrintPair(a) + [SPACE, BRACE_CLOSE]
  {
    hide P.PrintPair;
    assert [a][1..] == [] && P.PrintPairs([]) == [] && P.Comma(false) == [];
    assert P.PrintPairs([a]) == [SPACE] + (P.PrintPair(a) + ([] + []));
  }

  lemma TwoPairsPrint(a: Pair, b: Pair)
    ensures P.PrintValue(InlineValue(4, [a, b])) ==
            [BRACE_OPEN, SPACE] + P.PrintPair(a) + [COMMA, SPACE] + P.PrintPair(b) + [SPACE, BRACE_CLOSE]
  {
    hide P.PrintPair;
    assert [a, b][1..] == [b] && [b][1..] == [] && P.PrintPairs([]) == [] && P.Comma(false) == [] && P.Comma(true) == [COMMA];
    assert P.PrintPairs([b]) == [SPACE] + (P.PrintPair(b) + ([] + []));
    assert P.PrintPairs([a, b]) == [SPACE] + (P.PrintPair(a) + ([COMMA] + P.PrintPairs([b])));
  }

  lemma WordPrints(line: nat)
    ensures P.PrintValue(BoolValue(line, true)) == TRUE_WORD
  {
  }

  lemma DepMarks(s: Text)
    ensures [BRACE_OPEN, SPACE] + (PACKAGE + X.EQUAL_SIGN + s) + [SPACE, BRACE_CLOSE] == Ascii("{ package = ") + s + Ascii(" }")
  {
    assert [BRACE_OPEN, SPACE] + (PACKAGE + X.EQUAL_SIGN) == Ascii("{ package = ");
    assert Ascii(" }") == [SPACE, BRACE_CLOSE];
    hide Ascii;
    Assoc([BRACE_OPEN, SPACE], PACKAGE + X.EQUAL_SIGN, s);
  }

  lemma OptionalMarks(s: Text)
    ensures [BRACE_OPEN, SPACE] + (PACKAGE + X.EQUAL_SIGN + s) + [COMMA, SPACE] + (OPTIONAL + X.EQUAL_SIGN + TRUE_WORD) + [SPACE, BRACE_CLOSE] ==
            Ascii("{ package = ") + s + Ascii(", optional = true }")
  {
    assert [BRACE_OPEN, SPACE] + (PACKAGE + X.EQUAL_SIGN) == Ascii("{ package = ");
    OptionalEnd();
    hide Ascii;
    var end := OPTIONAL + X.EQUAL_SIGN + TRUE_WORD;
    Assoc([BRACE_OPEN, SPACE], PACKAGE + X.EQUAL_SIGN, s);
    var start := [BRACE_OPEN, SPACE] + (PACKAGE + X.EQUAL_SIGN + s);
    Assoc(start, [COMMA, SPACE], end);
    Assoc(start, [COMMA, SPACE] + end, [SPACE, BRACE_CLOSE]);
  }

  lemma OptionalEnd()
    ensures [COMMA, SPACE] + (OPTIONAL + X.EQUAL_SIGN + TRUE_WORD) + [SPACE, BRACE_CLOSE] == Ascii(", optional = true }")
  {
  }

  lemma DepPrints(dep: Written)
    requires PlainDep(dep)
    ensures P.PrintValue(DepValue(dep)) == DepText(dep)
  {
    BareTexts();
    hide P.PrintValue, P.PrintPair, Ascii, P.BarePart, X.InQuotes;
    match dep
    case Version(v) => StringPrints(v, 4);
    case Renamed(crate) =>
      StringPrints(crate, 4);
      PairPrints(PACKAGE, StrValue(4, crate));
      OnePairPrints(Pair([PACKAGE], StrValue(4, crate)));
      DepMarks(X.InQuotes(crate));
    case RenamedOptional(crate) =>
      StringPrints(crate, 4);
      WordPrints(4);
      PairPrints(PACKAGE, StrValue(4, crate));
      PairPrints(OPTIONAL, BoolValue(4, true));
      TwoPairsPrint(Pair([PACKAGE], StrValue(4, crate)), Pair([OPTIONAL], BoolValue(4, true)));
      OptionalMarks(X.InQuotes(crate));
  }

  lemma ManifestPrints(name: Text, table: Text, key: Text, dep: Written)
    requires P.AllPlain(name) && IsTable(table) && P.BarePart(key) && PlainDep(dep)
    ensures P.Print(Stmts(name, table, key, DepValue(dep))) == ManifestText(name, table, key, DepText(dep))
  {
    BareTexts();
    hide P.PrintStmt, P.PrintValue, Ascii, P.BarePart, X.InQuotes, P.Print, DepText, DepValue;
    DepPrints(dep);
    StringPrints(name, 2);
    PackageHeader();
    HeaderPrints(PACKAGE, 1);
    HeaderPrints(table, 3);
    BindPrints(NAME, StrValue(2, name), 2);
    NameLine(name);
    BindPrints(key, DepValue(dep), 4);
    PrintFour(Header(1, false, [PACKAGE]), Bind(2, [NAME], StrValue(2, name)), Header(3, false, [table]), Bind(4, [key], DepValue(dep)));
  }

  // --- The tree ---

  lemma HeaderNew(at: Node, k: Text, line: nat)
    requires at.Table? && k !in at.entries
    ensures TomlTrees.HeaderAt(at, [k], false, line) == Some(at.(entries := at.entries[k := NewTable(line, true, false)]))
  {
  }

  lemma AssignNew(at: Node, k: Text, q: Text, node: Node)
    requires at.Table? && k in at.entries && at.entries[k].Table? && q !in at.entries[k].entries
    ensures AssignAt(at, [k], [q], node) ==
            Some(at.(entries := at.entries[k := at.entries[k].(entries := at.entries[k].entries[q := node])]))
  {
    var next := at.entries[k];
    assert Assign(next, [q], node) == Some(next.(entries := next.entries[q := node]));
    assert [k][1..] == [];
    hide Assign;
  }

  // A table with one entry, or two.
  function One(k: Text, node: Node, line: nat): Node {
    Table(line, map[k := node], true, false)
  }

  function Two(k: Text, a: Node, q: Text, b: Node): Node {
    Table(1, map[k := a, q := b], true, false)
  }

  lemma StepHeader(doc: Doc, k: Text, line: nat)
    requires doc.root.Table? && k !in doc.root.entries
    ensures Step(doc, Header(line, false, [k])) ==
            Some(Doc(doc.root.(entries := doc.root.entries[k := NewTable(line, true, false)]), [k]))
  {
    HeaderNew(doc.root, k, line);
    hide TomlTrees.HeaderAt;
  }

  function Relined(node: Node, line: nat): Node {
    node.(line := line)
  }

  lemma StepBind(doc: Doc, k: Text, q: Text, v: Value, line: nat)
    requires doc.root.Table? && doc.current == [k] && k in doc.root.entries
    requires doc.root.entries[k].Table? && q !in doc.root.entries[k].entries && Eval(v).Some?
    ensures
      var at, node := doc.root, Relined(Eval(v).value, line);
      Step(doc, Bind(line, [q], v)) ==
      Some(Doc(at.(entries := at.entries[k := at.entries[k].(entries := at.entries[k].entries[q := node])]), [k]))
  {
    AssignNew(doc.root, k, q, Relined(Eval(v).value, line));
    hide AssignAt, Eval;
  }

  lemma BuildPush(stmts: seq<Stmt>, stmt: Stmt)
    ensures Build(stmts + [stmt]) == if Build(stmts).None? then None else Step(Build(stmts).value, stmt)
  {
    hide Step;
    Init(stmts, stmt);
  }

  lemma StmtsBuild(name: Text, table: Text, key: Text, v: Value)
    requires table != PACKAGE && Eval(v).Some?
    ensures
      var doc := Build(Stmts(name, table, key, v));
      && doc.Some?
      && doc.value.root == Two(PACKAGE, One(NAME, Str(2, name), 1), table, One(key, Relined(Eval(v).value, 4), 3))
  {
    hide Step, Eval, Ascii;
    var a, b, c, d := Header(1, false, [PACKAGE]), Bind(2, [NAME], StrValue(2, name)), Header(3, false, [table]), Bind(4, [key], v);
    BuildPush([], a);
    BuildPush([a], b);
    BuildPush([a, b], c);
    BuildPush([a, b, c], d);
    assert [] + [a] == [a] && [a] + [b] == [a, b] && [a, b] + [c] == [a, b, c] && [a, b, c] + [d] == [a, b, c, d];
    StepHeader(Start(), PACKAGE, 1);
    var first := Build([a]).value;
    NameEvals(name);
    StepBind(first, PACKAGE, NAME, StrValue(2, name), 2);
    var second := Build([a, b]).value;
    StepHeader(second, table, 3);
    var third := Build([a, b, c]).value;
    StepBind(third, table, key, v, 4);
    hide *;
  }

  lemma NameEvals(name: Text)
    ensures Eval(StrValue(2, name)) == Some(Str(2, name))
  {
  }

  // The tree without its lines.
  lemma OneErased(k: Text, node: Node, line: nat)
    ensures Erase(One(k, node, line)) == Branch(map[k := Erase(node)])
  {
    var one := One(k, node, line);
    EraseEntries(one);
    hide Erase;
    assert one.entries == map[k := node];
    assert Erase(one).entries == map[k := Erase(node)];
  }

  lemma TwoErased(k: Text, a: Node, q: Text, b: Node)
    requires k != q
    ensures Erase(Two(k, a, q, b)) == Branch(map[k := Erase(a), q := Erase(b)])
  {
    var two := Two(k, a, q, b);
    EraseEntries(two);
    hide Erase;
    assert two.entries == map[k := a, q := b];
    assert Erase(two).entries == map[k := Erase(a), q := Erase(b)];
  }

  lemma StringErased(s: Text)
    ensures Erase(Str(2, s)) == StrShape(s)
  {
  }

  function DepShape(dep: Written): Shape {
    match dep
    case Version(v) => StrShape(v)
    case Renamed(crate) => Branch(map[PACKAGE := StrShape(crate)])
    case RenamedOptional(crate) => Branch(map[PACKAGE := StrShape(crate), OPTIONAL := BoolShape(true)])
  }

  lemma OptionalDiffers()
    ensures OPTIONAL != PACKAGE && WORKSPACE != PACKAGE && WORKSPACE != OPTIONAL
  {
    assert OPTIONAL[0] != PACKAGE[0] && WORKSPACE[0] != PACKAGE[0] && WORKSPACE[0] != OPTIONAL[0];
  }

  lemma PairEvals(table: Node, k: Text, v: Value)
    requires table.Table? && k !in table.entries && Eval(v).Some?
    ensures EvalPair(table, Pair([k], v)) == Some(table.(entries := table.entries[k := Eval(v).value]))
  {
    hide Eval;
  }

  lemma DepEvals(dep: Written)
    ensures Eval(DepValue(dep)).Some? && Erase(Relined(Eval(DepValue(dep)).value, 4)) == DepShape(dep)
  {
    OptionalDiffers();
    hide Ascii;
    match dep
    case Version(v) =>
    case Renamed(crate) =>
      var table, a := NewTable(4, true, true), Pair([PACKAGE], StrValue(4, crate));
      PairEvals(table, PACKAGE, StrValue(4, crate));
      assert [a][..0] == [];
      assert EvalPairs(table, [a]) == EvalPair(table, a);
      assert Erase(Relined(Eval(DepValue(dep)).value, 4)).entries == map[PACKAGE := StrShape(crate)];
    case RenamedOptional(crate) =>
      TwoPairsEval(crate);
  }

  lemma TwoPairsEval(crate: Text)
    ensures
      var v := DepValue(RenamedOptional(crate));
      Eval(v).Some? && Erase(Relined(Eval(v).value, 4)) == DepShape(RenamedOptional(crate))
  {
    OptionalDiffers();
    hide Ascii;
    var v := DepValue(RenamedOptional(crate));
    var table, a, b := NewTable(4, true, true), Pair([PACKAGE], StrValue(4, crate)), Pair([OPTIONAL], BoolValue(4, true));
    assert [a, b][..1] == [a] && [a][..0] == [];
    PairEvals(table, PACKAGE, StrValue(4, crate));
    assert EvalPairs(table, [a]) == EvalPair(table, a);
    var one := EvalPair(table, a).value;
    PairEvals(one, OPTIONAL, BoolValue(4, true));
    assert EvalPairs(table, [a, b]) == EvalPair(one, b);
    assert Eval(v) == EvalPairs(table, [a, b]);
    var node := Relined(Eval(v).value, 4);
    assert node.entries == map[PACKAGE := Str(4, crate), OPTIONAL := Bool(4, true)];
    assert Erase(node).entries == map[PACKAGE := StrShape(crate), OPTIONAL := BoolShape(true)];
  }

  // --- The manifest ---

  function ManifestShape(name: Text, table: Text, key: Text, dep: Shape): Shape {
    Branch(map[PACKAGE := Branch(map[NAME := StrShape(name)]), table := Branch(map[key := dep])])
  }

  lemma DepDeclares(key: Text, dep: Written)
    ensures Declared(key, DepShape(dep)) == Some(DepDecl(key, dep))
  {
    OptionalDiffers();
    hide Ascii;
  }

  lemma OneEntry(key: Text, dep: Shape, dev: bool)
    requires Declared(key, dep).Some?
    ensures Entries(Branch(map[key := dep]), dev) == Some(OneDep(Declared(key, dep).value, dev))
  {
    hide Declared;
    var table, decl := Branch(map[key := dep]), Declared(key, dep).value;
    assert forall k :: k in table.entries <==> k == key;
    var decls := set k | k in table.entries :: Declared(k, table.entries[k]).value;
    forall d
      ensures d in decls <==> d == decl
    {
      assert key in table.entries && Declared(key, table.entries[key]).value == decl;
    }
    assert decls == {decl};
    assert (set d | d in decls :: d.name) == {decl.name};
  }

  lemma TablesDiffer()
    ensures NAME != EDITION && TARGET != PACKAGE
    ensures forall table :: IsTable(table) ==> table != PACKAGE && table != TARGET
    ensures forall table :: IsTable(table) ==> table != Ascii("build_dependencies") && table != Ascii("dev_dependencies")
    ensures PACKAGE != Ascii("build_dependencies") && PACKAGE != Ascii("dev_dependencies")
    ensures BUILD_DEPENDENCIES != DEPENDENCIES && DEV_DEPENDENCIES != DEPENDENCIES
    ensures BUILD_DEPENDENCIES != DEV_DEPENDENCIES
    ensures PACKAGE != DEPENDENCIES && PACKAGE != BUILD_DEPENDENCIES && PACKAGE != DEV_DEPENDENCIES
  {
    assert Ascii("build_dependencies")[5] != BUILD_DEPENDENCIES[5];
    assert Ascii("dev_dependencies")[3] != DEV_DEPENDENCIES[3];
    assert PACKAGE[0] != TARGET[0] && |NAME| != |EDITION|;
  }

  lemma ShapeManifest(name: Text, table: Text, key: Text, dep: Shape)
    requires name != [] && IsTable(table) && Declared(key, dep).Some?
    ensures ManifestOf(ManifestShape(name, table, key, dep)) ==
            Some(Manifest(name, OneDep(Declared(key, dep).value, table == DEV_DEPENDENCIES)))
  {
    TablesDiffer();
    CargoLaws.TableTexts();
    hide Ascii, Declared, Entries, CargoTables, Sections;
    var doc := ManifestShape(name, table, key, dep);
    var dev := table == DEV_DEPENDENCIES;
    OneEntry(key, dep, dev);
    var entries := map[PACKAGE := Branch(map[NAME := StrShape(name)]), table := Branch(map[key := dep])];
    assert doc == Branch(entries) && entries[PACKAGE].entries == map[NAME := StrShape(name)];
    assert !Modern(entries[PACKAGE].entries) && TARGET !in entries;
    OneSection(entries, table, Branch(map[key := dep]));
    assert forall d: Deps :: Join(d, Deps({}, {})) == d;
  }

  // Only the one table there is counts.
  lemma OneSection(entries: map<Text, Shape>, table: Text, node: Shape)
    requires IsTable(table) && entries.Keys == {PACKAGE, table} && entries[table] == node
    ensures Sections(entries, CargoTables(), false) == Entries(node, table == DEV_DEPENDENCIES)
  {
    TablesDiffer();
    CargoLaws.TableTexts();
    CargoLaws.ThreeSections(entries, false);
    hide Ascii, Entries, CargoTables, Sections;
    var names := CargoTables();
    var a, b, c := Section(entries, names[0], false), Section(entries, names[1], false), Section(entries, names[2], false);
    var dev := table == DEV_DEPENDENCIES;
    assert a == if table == DEPENDENCIES then Entries(node, false) else Some(Deps({}, {}));
    assert b == if table == BUILD_DEPENDENCIES then Entries(node, false) else Some(Deps({}, {}));
    assert c == if dev then Entries(node, true) else Some(Deps({}, {}));
    if Entries(node, dev).Some? {
      var all, mine := Sections(entries, names, false).value, Entries(node, dev).value;
      assert all.runtime == mine.runtime && all.dev == mine.dev;
    }
  }

  // The text's tree.
  lemma ManifestTree(name: Text, table: Text, key: Text, dep: Written)
    requires P.AllPlain(name) && IsTable(table) && P.BarePart(key) && PlainDep(dep)
    ensures X.TreeOf(ManifestText(name, table, key, DepText(dep))) == Some(ManifestShape(name, table, key, DepShape(dep)))
  {
    TablesDiffer();
    hide Ascii, P.Print, N.Spells, X.TreeOf, Build, Erase, Eval, DepText, DepValue, DepShape, One, Two, ManifestText, P.AllPlain;
    ManifestPrints(name, table, key, dep);
    DepEvals(dep);
    var stmts, node := Stmts(name, table, key, DepValue(dep)), Relined(Eval(DepValue(dep)).value, 4);
    StmtsBuild(name, table, key, DepValue(dep));
    TwoErased(PACKAGE, One(NAME, Str(2, name), 1), table, One(key, node, 3));
    OneErased(NAME, Str(2, name), 1);
    OneErased(key, node, 3);
    StringErased(name);
    AllPrintable(name, table, key, dep);
    N.SpelledExactly(stmts);
    X.SpellingShape(P.Print(stmts), stmts);
  }

  // The text reads as a manifest with that one declaration.
  lemma ManifestReadsSo(name: Text, table: Text, key: Text, dep: Written)
    requires name != [] && P.AllPlain(name) && IsTable(table) && P.BarePart(key) && PlainDep(dep)
    ensures
      var tree := X.TreeOf(ManifestText(name, table, key, DepText(dep)));
      && tree.Some?
      && ManifestOf(tree.value) == Some(Manifest(name, OneDep(DepDecl(key, dep), table == DEV_DEPENDENCIES)))
  {
    hide *;
    ManifestTree(name, table, key, dep);
    DepDeclares(key, dep);
    ShapeManifest(name, table, key, DepShape(dep));
  }

  lemma AllPrintable(name: Text, table: Text, key: Text, dep: Written)
    ensures P.AllPrintable(Stmts(name, table, key, DepValue(dep)))
  {
    var stmts := Stmts(name, table, key, DepValue(dep));
    DepPrintable(dep);
    hide P.Printable, DepValue;
    StringPrintable(name);
    assert forall k :: 0 <= k < 4 ==> P.PrintableStmt(stmts[k]);
  }

  lemma StringPrintable(s: Text)
    ensures P.Printable(StrValue(2, s))
  {
  }

  lemma DepPrintable(dep: Written)
    ensures P.Printable(DepValue(dep))
  {
  }

  // --- The port ---

  lemma OneInList(list: seq<Text>, x: Text)
    requires Ascending(list) && forall y :: y in list <==> y == x
    ensures list == [x]
  {
    OneList(list, [x], {x});
  }

  lemma NoneInList(list: seq<Text>)
    requires Ascending(list) && forall y :: y !in list
    ensures list == []
  {
    OneList(list, [], {});
  }

  lemma ManifestPort(name: Text, table: Text, key: Text, dep: Written, port: Port)
    requires name != [] && P.AllPlain(name) && IsTable(table) && P.BarePart(key) && PlainDep(dep)
    requires
      var tree := X.TreeOf(ManifestText(name, table, key, DepText(dep)));
      tree.Some? && ManifestOf(tree.value).Some? && PortOf(ManifestOf(tree.value).value, port)
    ensures PortOf(Manifest(name, OneDep(DepDecl(key, dep), table == DEV_DEPENDENCIES)), port)
  {
    hide *;
    ManifestReadsSo(name, table, key, dep);
  }

  lemma PortParts(name: Text, deps: Deps, port: Port)
    requires PortOf(Manifest(name, deps), port)
    ensures port.id == CrateId(name) && Folded(port.id, CrateId, deps.runtime, deps.dev, port.lists)
  {
    hide Folded, CrateId;
  }

  lemma DeclOptional(key: Text, dep: Written)
    ensures DepDecl(key, dep).optional == dep.RenamedOptional?
  {
  }

  // The lists of the port: its one dependency is a runtime, build or
  // development dependency by its table, under the crate's own name.
  lemma PortOfText(name: Text, table: Text, key: Text, dep: Written, id: Text, port: Port)
    requires name != [] && P.AllPlain(name) && IsTable(table) && P.BarePart(key) && PlainDep(dep)
    requires NamesRepo(DepDecl(key, dep).name, id) && !NamesRepo(name, id)
    requires
      var tree := X.TreeOf(ManifestText(name, table, key, DepText(dep)));
      tree.Some? && ManifestOf(tree.value).Some? && PortOf(ManifestOf(tree.value).value, port)
    ensures
      if table == DEV_DEPENDENCIES then port.lists == PortLists([], [], [id], [])
      else port.lists == PortLists([id], if dep.RenamedOptional? then [id] else [], [], [])
  {
    ManifestPort(name, table, key, dep, port);
    hide *;
    CrateLaw(DepDecl(key, dep).name, id);
    CrateLaw(name, id);
    DeclOptional(key, dep);
    PortParts(name, OneDep(DepDecl(key, dep), table == DEV_DEPENDENCIES), port);
    OneDecl(DepDecl(key, dep), table == DEV_DEPENDENCIES, id, port);
  }

  lemma OneDecl(decl: Decl, dev: bool, id: Text, port: Port)
    requires CrateId(decl.name) == Some(id) && port.id != Some(id)
    requires Folded(port.id, CrateId, OneDep(decl, dev).runtime, OneDep(decl, dev).dev, port.lists)
    ensures
      if dev then port.lists == PortLists([], [], [id], [])
      else port.lists == PortLists([id], if decl.optional then [id] else [], [], [])
  {
    hide CrateId, Ascending;
    if dev {
      assert decl.name in OneDep(decl, dev).dev;
      NoneInList(port.lists.runtime);
      NoneInList(port.lists.optional);
      NoneInList(port.lists.external);
      OneInList(port.lists.dev, id);
    } else {
      assert decl in OneDep(decl, dev).runtime;
      OneInList(port.lists.runtime, id);
      NoneInList(port.lists.dev);
      NoneInList(port.lists.external);
      if decl.optional {
        OneInList(port.lists.optional, id);
      } else {
        NoneInList(port.lists.optional);
      }
    }
  }
}
