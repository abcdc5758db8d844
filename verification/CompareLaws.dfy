// The comparison in the register file's own words: which ports are listed and
// in what order, and what an entry has to say.

module CompareLaws {
  import opened Options
  import opened Text
  import opened Orders
  import opened Compare
  import T = TomlText

  function Texts(ports: seq<PortName>): (r: seq<Text>)
    ensures |r| == |ports| && forall i :: 0 <= i < |r| ==> r[i] == PortText(ports[i])
  {
    if ports == [] then [] else [PortText(ports[0])] + Texts(ports[1..])
  }

  function Strings(texts: seq<Text>): (r: seq<Json>)
    ensures |r| == |texts| && forall i :: 0 <= i < |r| ==> r[i] == String(texts[i])
  {
    if texts == [] then [] else [String(texts[0])] + Strings(texts[1..])
  }

  // The ports' names in their order: "go", "rs", "ts".
  lemma NameOrder()
    ensures PortText(Go) == [0x67, 0x6F] && PortText(Rs) == [0x72, 0x73] && PortText(Ts) == [0x74, 0x73]
    ensures Less(PortText(Go), PortText(Rs)) && Less(PortText(Rs), PortText(Ts)) && Less(PortText(Go), PortText(Ts))
  {
  }

  // Any of the three, kept in the order of their names.
  function Kept(go: bool, rs: bool, ts: bool): seq<PortName> {
    (if go then [Go] else []) + (if rs then [Rs] else []) + (if ts then [Ts] else [])
  }

  lemma KeptInOrder(go: bool, rs: bool, ts: bool)
    ensures forall p :: p in Kept(go, rs, ts) <==> match p case Go => go case Rs => rs case Ts => ts
    ensures Ascending(Texts(Kept(go, rs, ts)))
  {
    NameOrder();
    var kept := Kept(go, rs, ts);
    hide PortText, Less;
    assert |kept| <= 3;
    PairsAscend(Texts(kept));
  }

  lemma PairsAscend(list: seq<Text>)
    requires |list| <= 3 && forall i, j :: 0 <= i < j < |list| ==> Less(list[i], list[j])
    ensures Ascending(list)
  {
    hide Less;
    if list != [] {
      assert list[1..] == [] || list[1..][1..] == [] || list[1..][1..][1..] == [];
    }
  }

  // The holders are exactly the ports that are there and have the id at run
  // time; the optional ones those that have it as optional too; both are
  // listed in the order of the names.
  lemma HoldersExactly(repo: Repo, id: Text)
    ensures forall p :: p in Holders(repo, id) <==> p in repo && id in repo[p].runtime
    ensures forall p :: p in OptionalIn(repo, id) <==> p in repo && id in repo[p].runtime && id in repo[p].optional
    ensures forall p :: p in Sorted(repo) <==> p in repo
    ensures Ascending(Texts(Holders(repo, id))) && Ascending(Texts(OptionalIn(repo, id))) && Ascending(Texts(Sorted(repo)))
  {
    KeptInOrder(Has(repo, Go, id), Has(repo, Rs, id), Has(repo, Ts, id));
    KeptInOrder(HasOptional(repo, Go, id), HasOptional(repo, Rs, id), HasOptional(repo, Ts, id));
    KeptInOrder(Go in repo, Rs in repo, Ts in repo);
    hide Texts, Ascending;
    assert Holders(repo, id) == Kept(Has(repo, Go, id), Has(repo, Rs, id), Has(repo, Ts, id));
    assert OptionalIn(repo, id) == Kept(HasOptional(repo, Go, id), HasOptional(repo, Rs, id), HasOptional(repo, Ts, id));
    assert Sorted(repo) == Kept(Go in repo, Rs in repo, Ts in repo);
    hide Kept, Holders, OptionalIn, Sorted;
    forall p
      ensures p in Holders(repo, id) <==> p in repo && id in repo[p].runtime
      ensures p in OptionalIn(repo, id) <==> p in repo && id in repo[p].runtime && id in repo[p].optional
      ensures p in Sorted(repo) <==> p in repo
    {
      assert p == Go || p == Rs || p == Ts;
    }
  }

  // --- An entry of the register ---

  // A port, by the name the register gives it.
  ghost predicate HoldsByName(repo: Repo, name: Text, id: Text) {
    || (name == Ascii("ts") && Ts in repo && id in repo[Ts].runtime)
    || (name == Ascii("go") && Go in repo && id in repo[Go].runtime)
    || (name == Ascii("rs") && Rs in repo && id in repo[Rs].runtime)
  }

  // A JSON list of exactly the names of the ports that have the id, in order.
  ghost predicate ListsHolders(repo: Repo, id: Text, ports: Json) {
    exists names: seq<Text> ::
      Ascending(names) && (forall n :: n in names <==> HoldsByName(repo, n, id)) && ports == Array(Strings(names))
  }

  lemma NamedHolds(repo: Repo, name: Text, id: Text)
    ensures HoldsByName(repo, name, id) <==> exists p :: p in repo && id in repo[p].runtime && PortText(p) == name
  {
    assert PortText(Ts) == Ascii("ts") && PortText(Go) == Ascii("go") && PortText(Rs) == Ascii("rs");
    hide PortText, Ascii;
    if p :| p in repo && id in repo[p].runtime && PortText(p) == name {
      assert p == Go || p == Rs || p == Ts;
    }
  }

  lemma HolderNames(repo: Repo, id: Text, n: Text)
    ensures n in Texts(Holders(repo, id)) <==> HoldsByName(repo, n, id)
  {
    hide Holders, PortText, HoldsByName;
    HoldersExactly(repo, id);
    NamedHolds(repo, n, id);
    var texts := Texts(Holders(repo, id));
    if n in texts {
      var i :| 0 <= i < |texts| && texts[i] == n;
      assert Holders(repo, id)[i] in Holders(repo, id);
    }
    if HoldsByName(repo, n, id) {
      var p :| p in repo && id in repo[p].runtime && PortText(p) == n;
      assert p in Holders(repo, id);
      var i :| 0 <= i < |Holders(repo, id)| && Holders(repo, id)[i] == p;
      assert texts[i] == n;
    }
  }

  lemma NamesAreStrings(ports: seq<PortName>)
    ensures Names(ports) == Strings(Texts(ports))
  {
    hide PortText;
    var a, b := Names(ports), Strings(Texts(ports));
    assert forall i :: 0 <= i < |a| ==> a[i] == b[i];
  }

  lemma ListsExactly(repo: Repo, id: Text, ports: Json)
    ensures ListsHolders(repo, id, ports) <==> ports == Array(Names(Holders(repo, id)))
  {
    HoldersExactly(repo, id);
    NamesAreStrings(Holders(repo, id));
    var mine := Texts(Holders(repo, id));
    forall n
      ensures n in mine <==> HoldsByName(repo, n, id)
    {
      HolderNames(repo, id, n);
    }
    hide Holders, Names, Strings, Texts, HoldsByName, Ascending;
    if names: seq<Text> :|
      Ascending(names) && (forall n :: n in names <==> HoldsByName(repo, n, id)) && ports == Array(Strings(names))
    {
      OneList(names, mine, set n | n in mine);
    }
  }

  // The characters `trim` takes.
  const WHITE_SPACE: set<int> := {
    0x09, 0x0A, 0x0B, 0x0C, 0x0D, 0x20, 0xA0, 0x1680, 0x2000, 0x2001, 0x2002, 0x2003, 0x2004, 0x2005, 0x2006, 0x2007,
    0x2008, 0x2009, 0x200A, 0x2028, 0x2029, 0x202F, 0x205F, 0x3000, 0xFEFF }

  lemma WhiteExactly(c: Unit)
    ensures T.IsWhite(c) <==> c in WHITE_SPACE
  {
  }

  // A string with something in it besides white space.
  ghost predicate SaysSomething(entries: map<Text, Json>, key: Text) {
    key in entries && entries[key].String? && exists c :: c in entries[key].s && c !in WHITE_SPACE
  }

  lemma SaysExactly(entries: map<Text, Json>, key: Text)
    ensures Says(entries, key) <==> SaysSomething(entries, key)
  {
    hide T.IsWhite;
    if key in entries && entries[key].String? {
      var s := entries[key].s;
      forall c | c in s
        ensures T.IsWhite(c) <==> c in WHITE_SPACE
      {
        WhiteExactly(c);
      }
      hide WHITE_SPACE;
      assert forall i :: 0 <= i < |s| ==> s[i] in s;
    }
  }

  // What an entry of the register has to be.
  ghost predicate EntryReads(repo: Repo, id: Text, entry: Json) {
    && entry.Object?
    && (forall key :: key in entry.entries ==> key == Ascii("ports") || key == Ascii("reason") || key == Ascii("repair"))
    && Ascii("ports") in entry.entries && ListsHolders(repo, id, entry.entries[Ascii("ports")])
    && SaysSomething(entry.entries, Ascii("reason")) && SaysSomething(entry.entries, Ascii("repair"))
  }

  // The ports agree with each other and with the register file as it is written.
  ghost predicate FileAgrees(repo: Repo, register: Json) {
    && (forall p, q :: p in repo && q in repo ==> repo[p].id.Some? && repo[p].id == repo[q].id)
    && register.Object?
    && (forall key :: key in register.entries ==> key == Ascii("note") || key == Ascii("differ"))
    && (Ascii("note") in register.entries ==> register.entries[Ascii("note")].String?)
    && Ascii("differ") in register.entries && register.entries[Ascii("differ")].Object?
    && var differ := register.entries[Ascii("differ")].entries;
    && (forall id :: id in differ <==>
          (exists p :: p in repo && id in repo[p].runtime) && exists p :: p in repo && id !in repo[p].runtime)
    && forall id :: id in differ ==> EntryReads(repo, id, differ[id])
  }

  lemma EntryExactly(repo: Repo, id: Text, entry: Json)
    ensures EntryRight(repo, id, entry) <==> EntryReads(repo, id, entry)
  {
    hide Holders, Names, ListsHolders, Says, SaysSomething;
    if entry.Object? {
      SaysExactly(entry.entries, REASON);
      SaysExactly(entry.entries, REPAIR);
      if PORTS_KEY in entry.entries {
        ListsExactly(repo, id, entry.entries[PORTS_KEY]);
      }
    }
  }

  // The pass condition is that of the files as they are written.
  lemma AgreedExactly(repo: Repo, register: Json)
    ensures Agreed(repo, register) <==> FileAgrees(repo, register)
  {
    hide EntryRight, EntryReads;
    forall id, entry
      ensures EntryRight(repo, id, entry) <==> EntryReads(repo, id, entry)
    {
      EntryExactly(repo, id, entry);
    }
    forall id
      ensures Differs(repo, id) <==>
              (exists p :: p in repo && id in repo[p].runtime) && exists p :: p in repo && id !in repo[p].runtime
    {
      DiffersExactly(repo, id);
    }
    hide Differs;
  }

  lemma DiffersExactly(repo: Repo, id: Text)
    ensures Differs(repo, id) <==>
            (exists p :: p in repo && id in repo[p].runtime) && exists p :: p in repo && id !in repo[p].runtime
  {
    if Differs(repo, id) {
      var p :| Has(repo, p, id);
      var q :| q in repo && !Has(repo, q, id);
      assert p in repo && id in repo[p].runtime && q in repo && id !in repo[q].runtime;
    }
    if p, q :| p in repo && id in repo[p].runtime && q in repo && id !in repo[q].runtime {
      assert Has(repo, p, id) && !Has(repo, q, id);
    }
  }
}
