// The tree the TOML reader builds (tools/port-deps.cjs): tables, made by
// headers, dotted keys and inline tables, statement by statement.

module TomlTrees {
  import opened Options
  import opened Text

  type Parts = seq<Text>

  datatype Node =
    | Table(line: nat, entries: map<Text, Node>, defined: bool, inline: bool)
    | Aot(line: nat, tables: seq<Node>)
    | List(line: nat, items: seq<Node>)
    | Str(line: nat, s: Text)
    | Bool(line: nat, b: bool)
    | Other(line: nat, raw: Text)

  // What a statement writes, before any table takes it.
  datatype Value =
    | StrValue(line: nat, s: Text)
    | BoolValue(line: nat, b: bool)
    | OtherValue(line: nat, raw: Text)
    | ListValue(line: nat, items: seq<Value>)
    | InlineValue(line: nat, pairs: seq<Pair>)

  datatype Pair = Pair(parts: Parts, value: Value)

  datatype Stmt =
    | Header(line: nat, many: bool, parts: Parts)
    | Bind(line: nat, parts: Parts, value: Value)

  // The document so far, and the path of the table that statements go to.
  datatype Doc = Doc(root: Node, current: Parts)

  function NewTable(line: nat, defined: bool, inline: bool): Node {
    Table(line, map[], defined, inline)
  }

  predicate Open(node: Node) {
    node.Table? && !node.inline
  }

  // Walk `parts` down from a table, making tables on the way, and set the
  // last one to `node`. None where the reader throws.
  function Assign(at: Node, parts: Parts, node: Node): Option<Node>
    requires at.Table?
    decreases |parts|
  {
    if parts == [] then None
    else
      var part := parts[0];
      if |parts| == 1 then
        if part in at.entries then None else Some(at.(entries := at.entries[part := node]))
      else
        var next := if part in at.entries then at.entries[part] else NewTable(node.line, true, false);
        if !Open(next) then None
        else match Assign(next, parts[1..], node)
          case None => None
          case Some(below) => Some(at.(entries := at.entries[part := below]))
  }

  // The statement's own tree for a value.
  function Eval(v: Value): Option<Node>
    decreases v, 1
  {
    match v
    case StrValue(line, s) => Some(Str(line, s))
    case BoolValue(line, b) => Some(Bool(line, b))
    case OtherValue(line, raw) => Some(Other(line, raw))
    case ListValue(line, items) => (
      match EvalItems(items)
      case None => None
      case Some(nodes) => Some(List(line, nodes))
    )
    case InlineValue(line, pairs) => EvalPairs(NewTable(line, true, true), pairs)
  }

  function EvalItems(items: seq<Value>): (r: Option<seq<Node>>)
    ensures r.Some? ==> |r.value| == |items|
    decreases items
  {
    if items == [] then Some([])
    else
      var last := |items| - 1;
      match EvalItems(items[..last])
      case None => None
      case Some(nodes) =>
        match Eval(items[last])
        case None => None
        case Some(node) => Some(nodes + [node])
  }

  // The pairs of an inline table, assigned to it in order.
  function EvalPairs(table: Node, pairs: seq<Pair>): (r: Option<Node>)
    requires table.Table?
    ensures r.Some? ==> r.value.Table?
    decreases pairs
  {
    if pairs == [] then Some(table)
    else
      var last := |pairs| - 1;
      match EvalPairs(table, pairs[..last])
      case None => None
      case Some(before) => EvalPair(before, pairs[last])
  }

  function EvalPair(table: Node, pair: Pair): (r: Option<Node>)
    requires table.Table?
    ensures r.Some? ==> r.value.Table?
    decreases pair
  {
    match Eval(pair.value)
    case None => None
    case Some(node) => Assign(table, pair.parts, node)
  }

  // Assign in the table at a path, through the last item of an array of tables.
  function AssignAt(at: Node, current: Parts, parts: Parts, node: Node): Option<Node>
    decreases |current|
  {
    if !at.Table? then None
    else if current == [] then Assign(at, parts, node)
    else if current[0] !in at.entries then None
    else
      var next := at.entries[current[0]];
      if next.Aot? then
        if next.tables == [] then None
        else
          var last := |next.tables| - 1;
          match AssignAt(next.tables[last], current[1..], parts, node)
          case None => None
          case Some(below) => Some(at.(entries := at.entries[current[0] := next.(tables := next.tables[last := below])]))
      else
        match AssignAt(next, current[1..], parts, node)
        case None => None
        case Some(below) => Some(at.(entries := at.entries[current[0] := below]))
  }

  // What [parts] or [[parts]] does to the tree.
  function OpenLast(at: Node, part: Text, many: bool, line: nat): Option<Node>
    requires at.Table?
  {
    var item := NewTable(line, true, false);
    if part !in at.entries then Some(at.(entries := at.entries[part := if many then Aot(line, [item]) else item]))
    else
      var seen := at.entries[part];
      if many then
        if seen.Aot? then Some(at.(entries := at.entries[part := seen.(tables := seen.tables + [item])])) else None
      else if seen.Table? && !seen.defined then Some(at.(entries := at.entries[part := seen.(defined := true)]))
      else None
  }

  function HeaderAt(at: Node, parts: Parts, many: bool, line: nat): Option<Node>
    requires at.Table?
    decreases |parts|
  {
    if parts == [] then None
    else if |parts| == 1 then OpenLast(at, parts[0], many, line)
    else
      var part := parts[0];
      var next := if part in at.entries then at.entries[part] else NewTable(line, false, false);
      if next.Aot? then
        if next.tables == [] || !Open(next.tables[|next.tables| - 1]) then None
        else
          var last := |next.tables| - 1;
          match HeaderAt(next.tables[last], parts[1..], many, line)
          case None => None
          case Some(below) => Some(at.(entries := at.entries[part := next.(tables := next.tables[last := below])]))
      else if !Open(next) then None
      else
        match HeaderAt(next, parts[1..], many, line)
        case None => None
        case Some(below) => Some(at.(entries := at.entries[part := below]))
  }

  function Start(): Doc {
    Doc(NewTable(1, true, false), [])
  }

  // One statement.
  function Step(doc: Doc, stmt: Stmt): Option<Doc>
  {
    match stmt
    case Header(line, many, parts) => (
      if !doc.root.Table? then None
      else match HeaderAt(doc.root, parts, many, line)
        case None => None
        case Some(root) => Some(Doc(root, parts))
    )
    case Bind(line, parts, value) => (
      match Eval(value)
      case None => None
      case Some(node) =>
        match AssignAt(doc.root, doc.current, parts, node.(line := line))
        case None => None
        case Some(root) => Some(Doc(root, doc.current))
    )
  }

  // A whole document; None where the reader throws.
  function Build(stmts: seq<Stmt>): Option<Doc> {
    if stmts == [] then Some(Start())
    else
      var last := |stmts| - 1;
      match Build(stmts[..last])
      case None => None
      case Some(doc) => Step(doc, stmts[last])
  }
}
