// Printing what was read: the statements that can be printed are those that
// some text reads as, and a text and the print of its statements build alike.

module TomlNormal {
  import opened Options
  import opened Text
  import opened TomlTrees
  import opened TomlLines
  import opened TomlPrint
  import T = TomlText

  // --- Whatever is read can be printed ---

  lemma BareIsPrintable(text: Text, i: nat)
    requires i <= |text| && T.Bare(text, i).Some?
    ensures Printable(T.Bare(text, i).value.value)
  {
    hide T.Run, T.LineAt, T.IsDate, T.TimeSize;
    var j := T.Run(text, i, i + 256, T.ValueUnits);
    var n := if T.IsDate(text[i..j]) then T.TimeSize(text, j) else 0;
    var raw := text[i..j + n];
    assert forall k :: i <= k < j ==> text[i..j][k - i] == text[k];
    if n == 0 {
      assert raw != TRUE_WORD && raw != FALSE_WORD ==> PlainRaw(raw);
    } else {
      TimedIsPrintable(text, i, j, n);
    }
  }

  lemma TimedIsPrintable(text: Text, i: nat, j: nat, n: nat)
    requires i <= j <= |text| && T.IsDate(text[i..j]) && T.TimeSize(text, j) == n > 0
    ensures TimedRaw(text[i..j + n])
  {
    hide T.IsDate;
    TimeUnits(text, j, n);
    DateSize(text[i..j]);
    var raw := text[i..j + n];
    assert raw[..10] == text[i..j];
    assert forall k :: 0 <= k < |raw| ==> raw[k] == text[i + k];
    forall k | 14 <= k < |raw|
      ensures T.IsTimeUnit(raw[k])
    {
      assert T.IsTimeUnit(text[i + k]);
    }
  }

  lemma DateSize(raw: Text)
    requires T.IsDate(raw)
    ensures |raw| == 10
  {
  }

  lemma TimeUnits(text: Text, j: nat, n: nat)
    requires j <= |text| && T.TimeSize(text, j) == n > 0
    ensures 5 <= n <= 64 && j + n <= |text| && text[j] == SPACE
    ensures IsDigit(text[j + 1]) && IsDigit(text[j + 2]) && text[j + 3] == COLON
    ensures forall k :: j + 4 <= k < j + n ==> T.IsTimeUnit(text[k])
  {
    hide T.Run;
    var end := T.Run(text, j + 4, j + 64, T.TimeUnits);
    assert forall k :: j + 4 <= k < end ==> T.InKind(T.TimeUnits, text[k]);
  }

  lemma {:induction false} ValueIsPrintable(text: Text, i: nat)
    requires i <= |text| && T.ValueAt(text, i).Some?
    ensures Printable(T.ValueAt(text, i).value.value)
    decreases |text| - i, 2
  {
    hide T.String, T.Bare, T.ListAt, T.InlineAt;
    if i < |text| && T.IsQuote(text[i]) {
    } else if T.Is(text, i, BRACKET_OPEN) {
      ListIsPrintable(text, i + 1, T.LineAt(text, i), []);
    } else if T.Is(text, i, BRACE_OPEN) {
      InlineIsPrintable(text, i + 1, T.LineAt(text, i), []);
    } else {
      BareIsPrintable(text, i);
    }
  }

  lemma {:induction false} ListIsPrintable(text: Text, i: nat, line: nat, items: seq<Value>)
    requires i <= |text| && T.ListAt(text, i, line, items).Some?
    requires forall k :: 0 <= k < |items| ==> Printable(items[k])
    ensures Printable(T.ListAt(text, i, line, items).value.value)
    decreases |text| - i, 3
  {
    hide T.ValueAt, T.Gap, T.Separator;
    var j := T.Gap(text, i);
    if text[j] != BRACKET_CLOSE {
      ValueIsPrintable(text, j);
      var item := T.ValueAt(text, j).value;
      var next := T.Separator(text, item.next, BRACKET_CLOSE).value;
      ListIsPrintable(text, next, line, items + [item.value]);
    }
  }

  lemma {:induction false} InlineIsPrintable(text: Text, i: nat, line: nat, pairs: seq<Pair>)
    requires i <= |text| && T.InlineAt(text, i, line, pairs).Some?
    requires forall k :: 0 <= k < |pairs| ==> PrintablePair(pairs[k])
    ensures Printable(T.InlineAt(text, i, line, pairs).value.value)
    decreases |text| - i, 4
  {
    hide T.PairAt, T.Gap, T.Separator;
    var j := T.Gap(text, i);
    if text[j] != BRACE_CLOSE {
      PairIsPrintable(text, j);
      var pair := T.PairAt(text, j).value;
      var next := T.Separator(text, pair.next, BRACE_CLOSE).value;
      InlineIsPrintable(text, next, line, pairs + [pair.value]);
    }
  }

  lemma {:induction false} PairIsPrintable(text: Text, i: nat)
    requires i <= |text| && T.PairAt(text, i).Some?
    ensures PrintablePair(T.PairAt(text, i).value.value)
    decreases |text| - i, 3
  {
    hide T.ValueAt, T.Key;
    ValueIsPrintable(text, T.Blank(text, T.Key(text, i, []).value.next + 1));
  }

  lemma StmtIsPrintable(text: Text, i: nat)
    requires i < |text| && T.StmtAt(text, i).Some?
    ensures PrintableStmt(T.StmtAt(text, i).value.value)
  {
    hide T.PairAt, T.Key, T.EndOfLine;
    if text[i] != BRACKET_OPEN {
      PairIsPrintable(text, i);
    }
  }

  lemma {:induction false} StmtsArePrintable(text: Text, i: nat, before: seq<Stmt>)
    requires i <= |text| && T.Stmts(text, i, before).Some? && AllPrintable(before)
    ensures AllPrintable(T.Stmts(text, i, before).value)
    decreases |text| - i
  {
    hide T.StmtAt, T.Gap, PrintableStmt;
    var j := T.Gap(text, i);
    if j != |text| {
      StmtIsPrintable(text, j);
      var stmt := T.StmtAt(text, j).value;
      StmtsArePrintable(text, stmt.next, before + [stmt.value]);
    }
  }

  // --- Lines do not matter to what can be printed ---

  lemma {:induction false} PrintableUnlined(v: Value)
    ensures Printable(UnlineValue(v)) <==> Printable(v)
    decreases v
  {
    match v
    case ListValue(_, items) =>
      forall k | 0 <= k < |items|
        ensures Printable(UnlineValue(items[k])) <==> Printable(items[k])
      {
        PrintableUnlined(items[k]);
      }
      var all := UnlineValues(items);
      assert forall k :: 0 <= k < |items| ==> all[k] == UnlineValue(items[k]);
    case InlineValue(_, pairs) =>
      forall k | 0 <= k < |pairs|
        ensures Printable(UnlineValue(pairs[k].value)) <==> Printable(pairs[k].value)
      {
        PrintableUnlined(pairs[k].value);
      }
      var all := UnlinePairs(pairs);
      assert forall k :: 0 <= k < |pairs| ==> all[k] == UnlinePair(pairs[k]);
    case _ =>
  }

  lemma PrintableAlike(a: seq<Stmt>, b: seq<Stmt>)
    requires UnlineStmts(a) == UnlineStmts(b) && AllPrintable(a)
    ensures AllPrintable(b)
  {
    hide Printable, UnlineValue;
    assert |a| == |UnlineStmts(a)| == |b|;
    forall k | 0 <= k < |b|
      ensures PrintableStmt(b[k])
    {
      assert UnlineStmt(a[k]) == UnlineStmts(a)[k] == UnlineStmt(b[k]);
      assert PrintableStmt(a[k]);
      if a[k].Bind? {
        PrintableUnlined(a[k].value);
        PrintableUnlined(b[k].value);
      }
    }
  }

  // --- Texts and their statements ---

  // A text that reads as these statements, but for lines.
  ghost predicate Spells(text: Text, stmts: seq<Stmt>) {
    T.Stmts(text, 0, []).Some? && UnlineStmts(T.Stmts(text, 0, []).value) == UnlineStmts(stmts)
  }

  // Statements can be printed exactly when some text reads as them.
  lemma SpelledExactly(stmts: seq<Stmt>)
    ensures AllPrintable(stmts) <==> exists text :: Spells(text, stmts)
    ensures AllPrintable(stmts) ==> Spells(Print(stmts), stmts)
  {
    hide T.Stmts, Print, UnlineStmts, AllPrintable;
    if AllPrintable(stmts) {
      PrintReads(stmts);
      assert Spells(Print(stmts), stmts);
    }
    if text :| Spells(text, stmts) {
      NothingPrintable();
      StmtsArePrintable(text, 0, []);
      PrintableAlike(T.Stmts(text, 0, []).value, stmts);
    }
  }

  lemma NothingPrintable()
    ensures AllPrintable([])
  {
  }

  // Texts that spell the same statements parse alike: both refused, or to
  // trees that differ in their lines alone.
  lemma SpellingsParseAlike(a: Text, b: Text, stmts: seq<Stmt>)
    requires Spells(a, stmts) && Spells(b, stmts)
    ensures UnlineBuilt(T.Parse(a)) == UnlineBuilt(T.Parse(b)) == UnlineBuilt(Build(stmts))
  {
    hide T.Stmts, Build, UnlineStmts, UnlineDoc;
    BuildAlike(T.Stmts(a, 0, []).value, stmts);
    BuildAlike(T.Stmts(b, 0, []).value, stmts);
  }

  // Printing a text's statements keeps its statements and its tree.
  lemma PrintKeeps(text: Text)
    requires T.Stmts(text, 0, []).Some?
    ensures
      var out := Print(T.Stmts(text, 0, []).value);
      && Spells(out, T.Stmts(text, 0, []).value)
      && UnlineBuilt(T.Parse(out)) == UnlineBuilt(T.Parse(text))
      && Print(T.Stmts(out, 0, []).value) == out
  {
    hide T.Stmts, Print, UnlineStmts, UnlineBuilt, Build, AllPrintable, T.Parse;
    var stmts := T.Stmts(text, 0, []).value;
    NothingPrintable();
    StmtsArePrintable(text, 0, []);
    SpelledExactly(stmts);
    SpellingsParseAlike(text, Print(stmts), stmts);
    PrintAlike(T.Stmts(Print(stmts), 0, []).value, stmts);
  }

  // --- A print has no lines in it ---

  lemma {:induction false} ValuePrintAlike(v: Value)
    ensures PrintValue(UnlineValue(v)) == PrintValue(v)
    decreases v, 0
  {
    hide PrintItems, PrintPairs, Quoted;
    match v
    case ListValue(_, items) => ItemsPrintAlike(items);
    case InlineValue(_, pairs) => PairsPrintAlike(pairs);
    case _ =>
  }

  lemma {:induction false} ItemsPrintAlike(items: seq<Value>)
    ensures PrintItems(UnlineValues(items)) == PrintItems(items)
    decreases items, 0
  {
    hide PrintValue, UnlineValue;
    if items != [] {
      ValuePrintAlike(items[0]);
      ItemsPrintAlike(items[1..]);
      assert UnlineValues(items)[1..] == UnlineValues(items[1..]);
    }
  }

  lemma {:induction false} PairsPrintAlike(pairs: seq<Pair>)
    ensures PrintPairs(UnlinePairs(pairs)) == PrintPairs(pairs)
    decreases pairs, 0
  {
    hide PrintValue, UnlineValue, PrintKey;
    if pairs != [] {
      ValuePrintAlike(pairs[0].value);
      PairsPrintAlike(pairs[1..]);
      assert UnlinePairs(pairs)[1..] == UnlinePairs(pairs[1..]);
    }
  }

  lemma {:induction false} PrintAlike(a: seq<Stmt>, b: seq<Stmt>)
    requires UnlineStmts(a) == UnlineStmts(b)
    ensures Print(a) == Print(b)
    decreases |a|
  {
    hide PrintStmt, UnlineStmt;
    assert |a| == |UnlineStmts(a)| == |b|;
    if a != [] {
      assert UnlineStmt(a[0]) == UnlineStmts(a)[0] == UnlineStmt(b[0]);
      StmtPrintAlike(a[0]);
      StmtPrintAlike(b[0]);
      assert UnlineStmts(a[1..]) == UnlineStmts(a)[1..];
      assert UnlineStmts(b[1..]) == UnlineStmts(b)[1..];
      PrintAlike(a[1..], b[1..]);
    }
  }

  lemma StmtPrintAlike(stmt: Stmt)
    ensures PrintStmt(UnlineStmt(stmt)) == PrintStmt(stmt)
  {
    hide PrintValue, UnlineValue, PrintKey;
    if stmt.Bind? {
      ValuePrintAlike(stmt.value);
    }
  }
}
