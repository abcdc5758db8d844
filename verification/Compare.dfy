// The comparison of the ports against the register
// (tools/port-deps.cjs:891-996): every problem it reports, and when there
// are none.

module Compare {
  import opened Options
  import opened Text
  import opened Orders
  import T = TomlText

  datatype PortName = Ts | Go | Rs

  // A port that is there: the repository its name stands for, and its lists.
  datatype Port = Port(id: Option<Text>, runtime: seq<Text>, optional: seq<Text>)

  type Repo = map<PortName, Port>

  // A register file's JSON.
  datatype Json = Object(entries: map<Text, Json>) | Array(items: seq<Json>) | String(s: Text) | Plain(raw: Text)

  const NOTE: Text := Ascii("note")
  const DIFFER: Text := Ascii("differ")
  const PORTS_KEY: Text := Ascii("ports")
  const REASON: Text := Ascii("reason")
  const REPAIR: Text := Ascii("repair")

  datatype Problem =
    | NamesNoRepo(port: PortName)
    | IdsDisagree
    | NotAnObject
    | UnknownKey(key: Text)
    | NoteNotString
    | DifferNotObject
    | Unrecorded(id: Text)
    | Stale(id: Text)
    | EntryNotObject(id: Text)
    | EntryUnknownKey(id: Text, key: Text)
    | WrongPorts(id: Text)
    | NoReason(id: Text)
    | NoRepair(id: Text)

  datatype Row = Row(id: Text, holders: seq<PortName>, optional: seq<PortName>, registered: bool)

  function PortText(p: PortName): Text {
    match p
    case Ts => Ascii("ts")
    case Go => Ascii("go")
    case Rs => Ascii("rs")
  }

  // The ports that are there, in the order of their names.
  function Sorted(repo: Repo): seq<PortName> {
    Present(repo, Go) + Present(repo, Rs) + Present(repo, Ts)
  }

  function Present(repo: Repo, p: PortName): seq<PortName> {
    if p in repo then [p] else []
  }

  predicate Has(repo: Repo, p: PortName, id: Text) {
    p in repo && id in repo[p].runtime
  }

  // The ports that depend on a repository, in the order of their names.
  function Holders(repo: Repo, id: Text): seq<PortName> {
    (if Has(repo, Go, id) then [Go] else []) + (if Has(repo, Rs, id) then [Rs] else []) + (if Has(repo, Ts, id) then [Ts] else [])
  }

  predicate HasOptional(repo: Repo, p: PortName, id: Text) {
    Has(repo, p, id) && id in repo[p].optional
  }

  function OptionalIn(repo: Repo, id: Text): seq<PortName> {
    (if HasOptional(repo, Go, id) then [Go] else []) + (if HasOptional(repo, Rs, id) then [Rs] else [])
    + (if HasOptional(repo, Ts, id) then [Ts] else [])
  }

  // Some of the ports have it, and some do not.
  predicate Differs(repo: Repo, id: Text) {
    (exists p :: Has(repo, p, id)) && exists p :: p in repo && !Has(repo, p, id)
  }

  function Names(ports: seq<PortName>): (r: seq<Json>)
    ensures |r| == |ports| && forall i :: 0 <= i < |r| ==> r[i] == String(PortText(ports[i]))
  {
    if ports == [] then [] else [String(PortText(ports[0]))] + Names(ports[1..])
  }

  predicate IsBlank(s: Text) {
    forall i :: 0 <= i < |s| ==> T.IsWhite(s[i])
  }

  // A text that says something.
  predicate Says(entries: map<Text, Json>, key: Text) {
    key in entries && entries[key].String? && !IsBlank(entries[key].s)
  }

  // The recorded differences; none where the register cannot be trusted.
  function DifferOf(register: Json): map<Text, Json> {
    if register.Object? && DIFFER in register.entries && register.entries[DIFFER].Object?
    then register.entries[DIFFER].entries
    else map[]
  }

  // Which problems are due.
  ghost predicate Due(repo: Repo, register: Json, problem: Problem) {
    var differ := DifferOf(register);
    match problem
    case NamesNoRepo(p) => p in repo && repo[p].id.None?
    case IdsDisagree => exists p, q :: p in repo && q in repo && repo[p].id.Some? && repo[q].id.Some? && repo[p].id != repo[q].id
    case NotAnObject => !register.Object?
    case UnknownKey(key) => register.Object? && key in register.entries && key != NOTE && key != DIFFER
    case NoteNotString => register.Object? && NOTE in register.entries && !register.entries[NOTE].String?
    case DifferNotObject => register.Object? && !(DIFFER in register.entries && register.entries[DIFFER].Object?)
    case Unrecorded(id) => Differs(repo, id) && id !in differ
    case Stale(id) => id in differ && !Differs(repo, id)
    case EntryNotObject(id) => id in differ && Differs(repo, id) && !differ[id].Object?
    case EntryUnknownKey(id, key) =>
      Recorded(repo, differ, id) && key in differ[id].entries && key != PORTS_KEY && key != REASON && key != REPAIR
    case WrongPorts(id) =>
      Recorded(repo, differ, id)
      && !(PORTS_KEY in differ[id].entries && differ[id].entries[PORTS_KEY] == Array(Names(Holders(repo, id))))
    case NoReason(id) => Recorded(repo, differ, id) && !Says(differ[id].entries, REASON)
    case NoRepair(id) => Recorded(repo, differ, id) && !Says(differ[id].entries, REPAIR)
  }

  predicate Recorded(repo: Repo, differ: map<Text, Json>, id: Text) {
    id in differ && Differs(repo, id) && differ[id].Object?
  }

  // The pass condition: one repository, a well-formed register, its ids those
  // held by some but not all ports, and each entry true to the manifests.
  ghost predicate Agreed(repo: Repo, register: Json) {
    && (forall p, q :: p in repo && q in repo ==> repo[p].id.Some? && repo[p].id == repo[q].id)
    && register.Object? && register.entries.Keys <= {NOTE, DIFFER}
    && (NOTE in register.entries ==> register.entries[NOTE].String?)
    && DIFFER in register.entries && register.entries[DIFFER].Object?
    && var differ := register.entries[DIFFER].entries;
    && (forall id :: id in differ <==> Differs(repo, id))
    && forall id :: id in differ ==> EntryRight(repo, id, differ[id])
  }

  ghost predicate EntryRight(repo: Repo, id: Text, entry: Json) {
    && entry.Object? && entry.entries.Keys <= {PORTS_KEY, REASON, REPAIR}
    && PORTS_KEY in entry.entries && entry.entries[PORTS_KEY] == Array(Names(Holders(repo, id)))
    && Says(entry.entries, REASON) && Says(entry.entries, REPAIR)
  }

  // No problem is due exactly when the ports and the register agree.
  lemma NothingDue(repo: Repo, register: Json)
    ensures (forall x :: !Due(repo, register, x)) <==> Agreed(repo, register)
  {
    if Agreed(repo, register) {
      forall x
        ensures !Due(repo, register, x)
      {
        AgreedNotDue(repo, register, x);
      }
    }
    if forall x :: !Due(repo, register, x) {
      IdsAgree(repo, register);
      RegisterFine(repo, register);
      var differ := register.entries[DIFFER].entries;
      forall id
        ensures (id in differ <==> Differs(repo, id)) && (id in differ ==> EntryRight(repo, id, differ[id]))
      {
        EntryFine(repo, register, id);
      }
    }
  }

  lemma AgreedNotDue(repo: Repo, register: Json, x: Problem)
    requires Agreed(repo, register)
    ensures !Due(repo, register, x)
  {
    hide Differs, Holders, Names, Says;
    var differ := register.entries[DIFFER].entries;
    assert DifferOf(register) == differ;
    if x.EntryUnknownKey? && Recorded(repo, differ, x.id) {
      assert EntryRight(repo, x.id, differ[x.id]);
    } else if x.WrongPorts? && Recorded(repo, differ, x.id) {
      assert EntryRight(repo, x.id, differ[x.id]);
    } else if x.NoReason? && Recorded(repo, differ, x.id) {
      assert EntryRight(repo, x.id, differ[x.id]);
    } else if x.NoRepair? && Recorded(repo, differ, x.id) {
      assert EntryRight(repo, x.id, differ[x.id]);
    } else if x.EntryNotObject? && x.id in differ {
      assert EntryRight(repo, x.id, differ[x.id]);
    }
  }

  lemma IdsAgree(repo: Repo, register: Json)
    requires forall x :: !Due(repo, register, x)
    ensures forall p, q :: p in repo && q in repo ==> repo[p].id.Some? && repo[p].id == repo[q].id
  {
    forall p, q | p in repo && q in repo
      ensures repo[p].id.Some? && repo[p].id == repo[q].id
    {
      assert !Due(repo, register, NamesNoRepo(p)) && !Due(repo, register, NamesNoRepo(q));
      assert !Due(repo, register, IdsDisagree);
    }
  }

  lemma RegisterFine(repo: Repo, register: Json)
    requires forall x :: !Due(repo, register, x)
    ensures register.Object? && register.entries.Keys <= {NOTE, DIFFER}
    ensures NOTE in register.entries ==> register.entries[NOTE].String?
    ensures DIFFER in register.entries && register.entries[DIFFER].Object?
  {
    assert !Due(repo, register, NotAnObject);
    assert !Due(repo, register, NoteNotString);
    assert !Due(repo, register, DifferNotObject);
    forall key | key in register.entries
      ensures key == NOTE || key == DIFFER
    {
      assert !Due(repo, register, UnknownKey(key));
    }
  }

  lemma EntryFine(repo: Repo, register: Json, id: Text)
    requires forall x :: !Due(repo, register, x)
    ensures
      var differ := DifferOf(register);
      (id in differ <==> Differs(repo, id)) && (id in differ ==> EntryRight(repo, id, differ[id]))
  {
    hide Differs, Holders, Names, Says;
    var differ := DifferOf(register);
    assert !Due(repo, register, Unrecorded(id)) && !Due(repo, register, Stale(id)) && !Due(repo, register, EntryNotObject(id));
    if id in differ {
      assert !Due(repo, register, WrongPorts(id)) && !Due(repo, register, NoReason(id)) && !Due(repo, register, NoRepair(id));
      forall key | key in differ[id].entries
        ensures key in {PORTS_KEY, REASON, REPAIR}
      {
        assert !Due(repo, register, EntryUnknownKey(id, key));
      }
    }
  }

  // Which check reports a problem: the names, the register's shape, or one id.
  function Part(x: Problem): Option<Text> {
    match x
    case Unrecorded(id) => Some(id)
    case Stale(id) => Some(id)
    case EntryNotObject(id) => Some(id)
    case EntryUnknownKey(id, _) => Some(id)
    case WrongPorts(id) => Some(id)
    case NoReason(id) => Some(id)
    case NoRepair(id) => Some(id)
    case _ => None
  }

  predicate AboutNames(x: Problem) {
    x.NamesNoRepo? || x.IdsDisagree?
  }

  method NameProblems(repo: Repo, register: Json) returns (problems: seq<Problem>)
    ensures forall x :: x in problems <==> AboutNames(x) && Due(repo, register, x)
  {
    problems := [];
    var ports := [Ts, Go, Rs];
    for i := 0 to |ports|
      invariant forall x :: x in problems <==> x.NamesNoRepo? && x.port in ports[..i] && x.port in repo && repo[x.port].id.None?
    {
      if ports[i] in repo && repo[ports[i]].id.None? {
        problems := problems + [NamesNoRepo(ports[i])];
      }
      assert ports[..i + 1] == ports[..i] + [ports[i]];
    }
    EveryPort();
    assert ports[..3] == ports;
    var ids := set p | p in repo && repo[p].id.Some? :: repo[p].id.value;
    ManyIds(repo, ids);
    if |ids| > 1 {
      problems := problems + [IdsDisagree];
    }
  }

  lemma EveryPort()
    ensures forall p: PortName :: p in [Ts, Go, Rs]
  {
    var all := [Ts, Go, Rs];
    forall p: PortName
      ensures p in all
    {
      match p
      case Ts => assert all[0] == p;
      case Go => assert all[1] == p;
      case Rs => assert all[2] == p;
    }
  }

  lemma ManyIds(repo: Repo, ids: set<Text>)
    requires ids == set p | p in repo && repo[p].id.Some? :: repo[p].id.value
    ensures |ids| > 1 <==>
            exists p, q :: p in repo && q in repo && repo[p].id.Some? && repo[q].id.Some? && repo[p].id != repo[q].id
  {
    if |ids| > 1 {
      var a :| a in ids;
      var rest := ids - {a};
      assert |rest| > 0;
      var b :| b in rest;
      var p :| p in repo && repo[p].id == Some(a);
      var q :| q in repo && repo[q].id == Some(b);
    }
    if p, q :| p in repo && q in repo && repo[p].id.Some? && repo[q].id.Some? && repo[p].id != repo[q].id {
      assert {repo[p].id.value, repo[q].id.value} <= ids;
      SubsetSize({repo[p].id.value, repo[q].id.value}, ids);
    }
  }

  lemma {:induction false} SubsetSize(a: set<Text>, b: set<Text>)
    requires a <= b
    ensures |a| <= |b|
    decreases a
  {
    if a != {} {
      var x :| x in a;
      SubsetSize(a - {x}, b - {x});
    }
  }

  method RegisterProblems(repo: Repo, register: Json) returns (problems: seq<Problem>, differ: map<Text, Json>)
    ensures forall x :: x in problems <==> !AboutNames(x) && Part(x).None? && Due(repo, register, x)
    ensures differ == DifferOf(register)
  {
    problems, differ := [], map[];
    if !register.Object? {
      return [NotAnObject], differ;
    }
    var keys := InOrder(register.entries.Keys);
    for i := 0 to |keys|
      invariant forall x :: x in problems <==> x.UnknownKey? && x.key in keys[..i] && x.key != NOTE && x.key != DIFFER
    {
      if keys[i] != NOTE && keys[i] != DIFFER {
        problems := problems + [UnknownKey(keys[i])];
      }
      assert keys[..i + 1] == keys[..i] + [keys[i]];
    }
    assert keys[..|keys|] == keys;
    if NOTE in register.entries && !register.entries[NOTE].String? {
      problems := problems + [NoteNotString];
    }
    if !(DIFFER in register.entries && register.entries[DIFFER].Object?) {
      problems := problems + [DifferNotObject];
    } else {
      differ := register.entries[DIFFER].entries;
    }
  }

  // What is wrong with the entry of an id that differs.
  ghost predicate EntryDue(repo: Repo, id: Text, entry: map<Text, Json>, x: Problem) {
    match x
    case EntryUnknownKey(i, key) => i == id && key in entry && key != PORTS_KEY && key != REASON && key != REPAIR
    case WrongPorts(i) => i == id && !(PORTS_KEY in entry && entry[PORTS_KEY] == Array(Names(Holders(repo, id))))
    case NoReason(i) => i == id && !Says(entry, REASON)
    case NoRepair(i) => i == id && !Says(entry, REPAIR)
    case _ => false
  }

  lemma EntryIsDue(repo: Repo, register: Json, id: Text, x: Problem)
    requires Recorded(repo, DifferOf(register), id)
    ensures Part(x) == Some(id) && Due(repo, register, x) <==> EntryDue(repo, id, DifferOf(register)[id].entries, x)
  {
    hide Differs, Holders, Names, Says, DifferOf;
  }

  method UnknownKeys(id: Text, entry: map<Text, Json>) returns (problems: seq<Problem>)
    ensures forall x :: x in problems <==>
      x.EntryUnknownKey? && x.id == id && x.key in entry && x.key != PORTS_KEY && x.key != REASON && x.key != REPAIR
  {
    problems := [];
    var keys := InOrder(entry.Keys);
    for i := 0 to |keys|
      invariant forall x :: x in problems <==>
        x.EntryUnknownKey? && x.id == id && x.key in keys[..i] && x.key != PORTS_KEY && x.key != REASON && x.key != REPAIR
    {
      if keys[i] != PORTS_KEY && keys[i] != REASON && keys[i] != REPAIR {
        problems := problems + [EntryUnknownKey(id, keys[i])];
      }
      assert keys[..i + 1] == keys[..i] + [keys[i]];
    }
    assert keys[..|keys|] == keys;
  }

  method EntryProblems(repo: Repo, id: Text, entry: map<Text, Json>) returns (problems: seq<Problem>)
    ensures forall x :: x in problems <==> EntryDue(repo, id, entry, x)
  {
    hide Holders, Names, Says;
    problems := UnknownKeys(id, entry);
    if !(PORTS_KEY in entry && entry[PORTS_KEY] == Array(Names(Holders(repo, id)))) {
      problems := problems + [WrongPorts(id)];
    }
    if !Says(entry, REASON) {
      problems := problems + [NoReason(id)];
    }
    if !Says(entry, REPAIR) {
      problems := problems + [NoRepair(id)];
    }
  }

  // What is wrong with one id.
  method IdProblems(repo: Repo, register: Json, differ: map<Text, Json>, id: Text) returns (problems: seq<Problem>)
    requires differ == DifferOf(register)
    ensures forall x :: x in problems <==> Part(x) == Some(id) && Due(repo, register, x)
  {
    hide Differs, Holders, Names, Says, DifferOf, EntryDue;
    var differs := Differs(repo, id);
    if id !in differ {
      return if differs then [Unrecorded(id)] else [];
    }
    if !differs {
      return [Stale(id)];
    }
    if !differ[id].Object? {
      return [EntryNotObject(id)];
    }
    problems := EntryProblems(repo, id, differ[id].entries);
    forall x
      ensures Part(x) == Some(id) && Due(repo, register, x) <==> EntryDue(repo, id, differ[id].entries, x)
    {
      EntryIsDue(repo, register, id, x);
    }
  }

  // Every dependency of any port, once each.
  ghost predicate AllIds(repo: Repo, ids: seq<Text>) {
    Ascending(ids) && forall id :: id in ids <==> exists p :: Has(repo, p, id)
  }

  method Ids(repo: Repo) returns (ids: seq<Text>)
    ensures AllIds(repo, ids)
  {
    var all: seq<Text> := [];
    var ports := [Ts, Go, Rs];
    for i := 0 to |ports|
      invariant forall id :: id in all <==> exists p :: p in ports[..i] && Has(repo, p, id)
    {
      ghost var before := all;
      if ports[i] in repo {
        all := all + repo[ports[i]].runtime;
      }
      assert ports[..i + 1] == ports[..i] + [ports[i]];
      assert forall id :: id in all <==> id in before || Has(repo, ports[i], id);
    }
    EveryPort();
    assert ports[..3] == ports;
    ids := Uniq(all);
  }

  function RowOf(repo: Repo, differ: map<Text, Json>, id: Text): Row {
    Row(id, Holders(repo, id), OptionalIn(repo, id), id in differ)
  }

  // An id that some port has differs exactly where fewer ports have it than there are.
  lemma FewerHold(repo: Repo, id: Text)
    requires exists p :: Has(repo, p, id)
    ensures |Holders(repo, id)| != |Sorted(repo)| <==> Differs(repo, id)
  {
    if Differs(repo, id) {
      var p :| p in repo && !Has(repo, p, id);
      match p
      case Ts =>
      case Go =>
      case Rs =>
    }
  }

  // Everything the comparison reports: the rows, the differences among them,
  // and exactly the problems that are due, so none exactly where the ports
  // and the register agree.
  method Compare(repo: Repo, register: Json) returns (rows: seq<Row>, differences: seq<Row>, problems: seq<Problem>)
    ensures forall x :: x in problems <==> Due(repo, register, x)
    ensures problems == [] <==> Agreed(repo, register)
    ensures Ascending(RowIds(rows)) && AllIds(repo, RowIds(rows))
    ensures forall row :: row in rows ==> row == RowOf(repo, DifferOf(register), row.id)
    ensures forall row :: row in differences <==> row in rows && Differs(repo, row.id)
  {
    hide Due, Agreed, Differs, Holders, OptionalIn, Sorted, DifferOf;
    problems := NameProblems(repo, register);
    var found, differ := RegisterProblems(repo, register);
    problems := problems + found;
    var ids := Ids(repo);
    rows, differences := Rows(repo, differ, ids);
    var recorded := InOrder(differ.Keys);
    var all := Uniq(ids + recorded);
    for i := 0 to |all|
      invariant forall x :: x in problems <==> (Part(x).None? || Part(x).value in all[..i]) && Due(repo, register, x)
    {
      var more := IdProblems(repo, register, differ, all[i]);
      problems := problems + more;
      assert all[..i + 1] == all[..i] + [all[i]];
    }
    assert all[..|all|] == all;
    DueIsListed(repo, register, all);
    NothingDue(repo, register);
    assert problems != [] ==> problems[0] in problems;
  }

  // A problem of an id is due only where some port or the register has the id.
  lemma DueIsListed(repo: Repo, register: Json, all: seq<Text>)
    requires forall id :: id in DifferOf(register) || (exists p :: Has(repo, p, id)) ==> id in all
    ensures forall x :: Due(repo, register, x) && Part(x).Some? ==> Part(x).value in all
  {
    hide DifferOf, Holders, Names, Says;
  }

  function RowIds(rows: seq<Row>): (ids: seq<Text>)
    ensures |ids| == |rows| && forall i :: 0 <= i < |ids| ==> ids[i] == rows[i].id
  {
    seq(|rows|, i requires 0 <= i < |rows| => rows[i].id)
  }

  method Rows(repo: Repo, differ: map<Text, Json>, ids: seq<Text>) returns (rows: seq<Row>, differences: seq<Row>)
    requires AllIds(repo, ids)
    ensures RowIds(rows) == ids
    ensures forall row :: row in rows ==> row == RowOf(repo, differ, row.id)
    ensures forall row :: row in differences <==> row in rows && Differs(repo, row.id)
  {
    hide Differs, Holders, OptionalIn, Sorted;
    rows, differences := [], [];
    for i := 0 to |ids|
      invariant |rows| == i && forall j :: 0 <= j < i ==> rows[j] == RowOf(repo, differ, ids[j])
      invariant forall row :: row in differences <==> row in rows && Differs(repo, row.id)
    {
      var row := RowOf(repo, differ, ids[i]);
      assert ids[i] in ids;
      FewerHold(repo, ids[i]);
      rows := rows + [row];
      if |row.holders| != |Sorted(repo)| {
        differences := differences + [row];
      }
    }
  }
}
