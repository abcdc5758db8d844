// Where a refusal leaves a line feed uncounted (tools/port-deps.cjs:293-344).
// An escape takes the unit after the backslash before it looks at it, so a
// backslash and a line feed in a one-line basic string are both behind the
// cursor when the reader throws, and the line feed has not been counted.

module TomlBreaks {
  import opened Options
  import opened Text
  import opened TomlTrees
  import T = TomlText

  predicate OneLineBreaks(text: Text, i: nat, quote: Unit)
    requires i <= |text|
    decreases |text| - i
  {
    && i < |text| && text[i] != LF && text[i] != quote
    && if text[i] == BACKSLASH && quote == QUOTE then
         T.Is(text, i + 1, LF)
         || (T.Escape(text, i + 1).Some? && OneLineBreaks(text, T.Escape(text, i + 1).value.next, quote))
       else OneLineBreaks(text, i + 1, quote)
  }

  predicate StringBreaks(text: Text, i: nat)
    requires i < |text| && T.IsQuote(text[i])
  {
    !T.Three(text, i, text[i]) && OneLineBreaks(text, i + 1, text[i])
  }

  predicate KeyPartBreaks(text: Text, i: nat)
    requires i <= |text|
  {
    i < |text| && T.IsQuote(text[i]) && StringBreaks(text, i)
  }

  predicate KeyBreaks(text: Text, i: nat)
    requires i <= |text|
    decreases |text| - i
  {
    var at := T.Blank(text, i);
    match T.KeyPart(text, at)
    case None => KeyPartBreaks(text, at)
    case Some(part) =>
      var j := T.Blank(text, part.next);
      T.Is(text, j, DOT) && KeyBreaks(text, j + 1)
  }

  predicate ValueBreaks(text: Text, i: nat)
    requires i <= |text|
    decreases |text| - i, 2
  {
    && i < |text|
    && if T.IsQuote(text[i]) then StringBreaks(text, i)
       else if text[i] == BRACKET_OPEN then ListBreaks(text, i + 1)
       else if text[i] == BRACE_OPEN then InlineBreaks(text, i + 1, NewTable(T.LineAt(text, i), true, true))
       else false
  }

  // An item whose own tables cannot be built refuses before what follows it.
  predicate ListBreaks(text: Text, i: nat)
    requires i <= |text|
    decreases |text| - i, 3
  {
    var j := T.Gap(text, i);
    && j < |text| && text[j] != BRACKET_CLOSE
    && match T.ValueAt(text, j)
       case None => ValueBreaks(text, j)
       case Some(item) =>
         var next := T.Separator(text, item.next, BRACKET_CLOSE);
         Eval(item.value).Some? && next.Some? && ListBreaks(text, next.value)
  }

  predicate PairBreaks(text: Text, i: nat)
    requires i <= |text|
    decreases |text| - i, 3
  {
    match T.Key(text, i, [])
    case None => KeyBreaks(text, i)
    case Some(key) => T.Is(text, key.next, T.EQUALS) && ValueBreaks(text, T.Blank(text, key.next + 1))
  }

  predicate InlineBreaks(text: Text, i: nat, table: Node)
    requires i <= |text| && table.Table?
    decreases |text| - i, 4
  {
    var j := T.Gap(text, i);
    && j < |text| && text[j] != BRACE_CLOSE
    && match T.PairAt(text, j)
       case None => PairBreaks(text, j)
       case Some(pair) =>
         var after := EvalPair(table, pair.value);
         var next := T.Separator(text, pair.next, BRACE_CLOSE);
         after.Some? && next.Some? && InlineBreaks(text, next.value, after.value)
  }

  predicate HeaderBreaks(text: Text, i: nat)
    requires T.Is(text, i, BRACKET_OPEN)
  {
    KeyBreaks(text, if T.Is(text, i + 1, BRACKET_OPEN) then i + 2 else i + 1)
  }

  predicate StmtBreaks(text: Text, i: nat)
    requires i < |text|
  {
    if text[i] == BRACKET_OPEN then HeaderBreaks(text, i) else PairBreaks(text, i)
  }

  // From a place on, with a document built so far.
  predicate BreaksFrom(text: Text, i: nat, doc: Doc)
    requires i <= |text|
    decreases |text| - i
  {
    var j := T.Gap(text, i);
    && j < |text|
    && match T.StmtAt(text, j)
       case None => StmtBreaks(text, j)
       case Some(stmt) => Step(doc, stmt.value).Some? && BreaksFrom(text, stmt.next, Step(doc, stmt.value).value)
  }

  // The reader meets a backslash and a line feed in a one-line basic string.
  predicate Breaks(text: Text) {
    BreaksFrom(text, 0, Start())
  }

  // --- What breaks is refused ---

  lemma {:induction false} OneLineRefused(text: Text, i: nat, quote: Unit, out: Text)
    requires i <= |text| && OneLineBreaks(text, i, quote)
    ensures T.OneLineString(text, i, quote, out).None?
    decreases |text| - i
  {
    if text[i] == BACKSLASH && quote == QUOTE {
      if T.Escape(text, i + 1).Some? {
        var e := T.Escape(text, i + 1).value;
        OneLineRefused(text, e.next, quote, out + e.value);
      }
    } else {
      OneLineRefused(text, i + 1, quote, out + [text[i]]);
    }
  }

  lemma StringRefused(text: Text, i: nat)
    requires i < |text| && T.IsQuote(text[i]) && StringBreaks(text, i)
    ensures T.String(text, i).None?
  {
    hide T.OneLineString, OneLineBreaks;
    OneLineRefused(text, i + 1, text[i], []);
  }

  lemma {:induction false} KeyRefused(text: Text, i: nat, parts: Parts)
    requires i <= |text| && KeyBreaks(text, i)
    ensures T.Key(text, i, parts).None?
    decreases |text| - i
  {
    hide T.KeyPart, KeyPartBreaks;
    var part := T.KeyPart(text, T.Blank(text, i));
    if part.Some? {
      KeyRefused(text, T.Blank(text, part.value.next) + 1, parts + [part.value.value]);
    }
  }

  lemma {:induction false} ValueRefused(text: Text, i: nat)
    requires i <= |text| && ValueBreaks(text, i)
    ensures T.ValueAt(text, i).None?
    decreases |text| - i, 2
  {
    hide T.String, StringBreaks, T.ListAt, ListBreaks, T.InlineAt, InlineBreaks;
    if T.IsQuote(text[i]) {
      StringRefused(text, i);
    } else if text[i] == BRACKET_OPEN {
      ListRefused(text, i + 1, T.LineAt(text, i), []);
    } else {
      InlineRefused(text, i + 1, T.LineAt(text, i), [], NewTable(T.LineAt(text, i), true, true));
    }
  }

  lemma {:induction false} ListRefused(text: Text, i: nat, line: nat, items: seq<Value>)
    requires i <= |text| && ListBreaks(text, i)
    ensures T.ListAt(text, i, line, items).None?
    decreases |text| - i, 3
  {
    hide T.ValueAt, ValueBreaks, T.Gap, T.Separator, Eval;
    var j := T.Gap(text, i);
    if T.ValueAt(text, j).Some? {
      var item := T.ValueAt(text, j).value;
      ListRefused(text, T.Separator(text, item.next, BRACKET_CLOSE).value, line, items + [item.value]);
    }
  }

  lemma {:induction false} PairRefused(text: Text, i: nat)
    requires i <= |text| && PairBreaks(text, i)
    ensures T.PairAt(text, i).None?
    decreases |text| - i, 3
  {
    hide T.Key, KeyBreaks, T.ValueAt, ValueBreaks;
    if T.Key(text, i, []).Some? {
      ValueRefused(text, T.Blank(text, T.Key(text, i, []).value.next + 1));
    }
  }

  lemma {:induction false} InlineRefused(text: Text, i: nat, line: nat, pairs: seq<Pair>, table: Node)
    requires i <= |text| && table.Table? && InlineBreaks(text, i, table)
    ensures T.InlineAt(text, i, line, pairs).None?
    decreases |text| - i, 4
  {
    hide T.PairAt, PairBreaks, T.Gap, T.Separator, EvalPair;
    var j := T.Gap(text, i);
    if T.PairAt(text, j).Some? {
      var pair := T.PairAt(text, j).value;
      var next := T.Separator(text, pair.next, BRACE_CLOSE).value;
      InlineRefused(text, next, line, pairs + [pair.value], EvalPair(table, pair.value).value);
    }
  }

  lemma StmtRefused(text: Text, i: nat)
    requires i < |text| && StmtBreaks(text, i)
    ensures T.StmtAt(text, i).None?
  {
    hide T.Key, KeyBreaks, T.PairAt, PairBreaks;
    if text[i] == BRACKET_OPEN {
      KeyRefused(text, if T.Is(text, i + 1, BRACKET_OPEN) then i + 2 else i + 1, []);
    } else {
      PairRefused(text, i);
    }
  }

  lemma {:induction false} BreaksFromRefused(text: Text, i: nat, doc: Doc, stmts: seq<Stmt>)
    requires i <= |text| && BreaksFrom(text, i, doc)
    ensures T.Stmts(text, i, stmts).None?
    decreases |text| - i
  {
    hide T.StmtAt, StmtBreaks, T.Gap, Step;
    var j := T.Gap(text, i);
    if T.StmtAt(text, j).Some? {
      var stmt := T.StmtAt(text, j).value;
      BreaksFromRefused(text, stmt.next, Step(doc, stmt.value).value, stmts + [stmt.value]);
    } else {
      assert T.Stmts(text, i, stmts).None?;
    }
  }

  // A text that breaks is refused.
  lemma BreaksRefused(text: Text)
    requires Breaks(text)
    ensures T.Parse(text).None?
  {
    hide T.Stmts, BreaksFrom;
    BreaksFromRefused(text, 0, Start(), []);
  }

  // One that breaks: a quote, a backslash and a line feed.
  lemma BreakExample()
    ensures Breaks([QUOTE, BACKSLASH, LF])
  {
    var text := [QUOTE, BACKSLASH, LF];
    assert OneLineBreaks(text, 1, QUOTE);
    assert T.Blank(text, 0) == 0 && T.Gap(text, 0) == 0;
    assert T.OneLineString(text, 1, QUOTE, []).None?;
    assert KeyBreaks(text, 0);
    KeyRefused(text, 0, []);
    PairRefused(text, 0);
  }
}
