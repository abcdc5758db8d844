// The reader over source text: lines, concatenation and where an error lies.

module Sources {
  import opened Options
  import opened Text
  import opened Trees
  import opened Lexer
  import opened LexerProofs
  import opened Grammar
  import opened Descent
  import opened Machine
  import opened Transduce
  import opened Documents
  import opened DocumentLines

  // `parse`. The strict-JSON base has lex.empty off, so an empty source is refused.
  function Parse(src: Text): (r: State)
    ensures !r.Running?
  {
    if src == [] then Rejected([]) else Run(Start(Lex(src)))
  }

  // The array `parse` returns, if it returns.
  function Read(src: Text): Option<seq<Tree>> {
    match Parse(src)
    case Accepted(Arr(items), _) => Some(items)
    case _ => None
  }

  // A line that is one JSON value by itself, with spaces around its tokens.
  ghost predicate Spells(line: Text, t: Tree) {
    Lex(line) == TreeTokens(t)
  }

  ghost predicate IsRecord(line: Text) {
    exists t :: Spells(line, t)
  }

  function LexEach(lines: seq<Text>): (r: seq<seq<Token>>)
    ensures |r| == |lines| && forall i :: 0 <= i < |lines| ==> r[i] == Lex(lines[i])
  {
    if lines == [] then [] else [Lex(lines[0])] + LexEach(lines[1..])
  }

  lemma LexEachFront(line: Text, lines: seq<Text>)
    ensures LexEach([line] + lines) == [Lex(line)] + LexEach(lines)
  {
    Front(line, lines);
  }

  // A line break by itself changes no filled line.
  lemma FilledSkipsNewline(s: Text)
    requires s != [] && IsNewline(s[0])
    ensures Filled(Lex(s)) == Filled(Lex(s[1..])) && Lex(s) != [] && Lex(s)[0] == Line && Filled(Lex(s)[1..]) == Filled(Lex(s))
  {
    var m := NewlineRun(s);
    assert Lex(s) == [Line] + Lex(s[m..]);
    Front(Line, Lex(s[m..]));
    FilledSkip(Lex(s));
    if m > 1 {
      assert s[1..][NewlineRun(s[1..])..] == s[m..];
      assert Lex(s[1..]) == [Line] + Lex(s[m..]);
      FilledSkip(Lex(s[1..]));
    }
  }

  lemma FilledOfLine(line: Text, rest: Text)
    requires OneLine(line) && AtLineEnd(rest)
    ensures Filled(Lex(line + rest)) == LexEach(NonBlank([line])) + (if rest == [] then [] else Filled(Lex(rest[1..])))
  {
    assert line != [] ==> !IsNewline(line[|line| - 1]);
    LexAtBoundary(line, rest);
    OneLineLex(line);
    BlankLex(line);
    if rest == [] {
      FilledStep(Lex(line), []);
    } else {
      FilledSkipsNewline(rest);
      FilledStep(Lex(line), Lex(rest));
    }
    NonBlankOne(line);
    LexEachFront(line, []);
    Padded([line]);
    Padded([Lex(line)]);
  }

  // The filled token lines of a source are its non-blank text lines, lexed.
  lemma {:induction false} FilledOfLex(s: Text)
    ensures Filled(Lex(s)) == LexEach(Records(s))
    decreases |s|
  {
    var n := LineEnd(s);
    var line, rest := s[..n], s[n..];
    assert s == line + rest;
    FilledOfLine(line, rest);
    if n == |s| {
      assert line == s && Lines(s) == [line];
      Padded(LexEach(NonBlank([line])));
    } else {
      assert rest[1..] == s[n + 1..];
      FilledOfLex(s[n + 1..]);
      LinesStep(s, n);
      hide Filled, Lex, Lines, NonBlank, LexEach;
      NonBlankAppends([line], Lines(s[n + 1..]));
      LexEachAppends(NonBlank([line]), Records(s[n + 1..]));
    }
  }

  lemma LexEachAppends(a: seq<Text>, b: seq<Text>)
    ensures LexEach(a + b) == LexEach(a) + LexEach(b)
  {
    var x, y := LexEach(a + b), LexEach(a) + LexEach(b);
    assert |x| == |y|;
    assert forall i :: 0 <= i < |x| ==> x[i] == y[i];
  }

  // One value to a line, in order.
  ghost predicate SpellAll(lines: seq<Text>, items: seq<Tree>) {
    |lines| == |items| && forall i :: 0 <= i < |lines| ==> Spells(lines[i], items[i])
  }

  lemma SpelledIsRecord(line: Text, t: Tree)
    requires Spells(line, t)
    ensures IsRecord(line)
  {
  }

  lemma NonBlankOne(line: Text)
    ensures NonBlank([line]) == if Blank(line) then [] else [line]
  {
    assert [line][1..] == [];
  }

  ghost predicate AllRecords(lines: seq<Text>) {
    forall i :: 0 <= i < |lines| ==> IsRecord(lines[i])
  }

  // The grammar refines line splitting: a source is accepted exactly when
  // every line that is not blank is one value by itself, and what is returned
  // are those values in order.
  lemma RefinesLineSplitting(src: Text)
    requires src != []
    ensures Parse(src).Accepted? <==> AllRecords(Records(src))
    ensures Parse(src).Accepted? <==> Read(src).Some?
    ensures match Read(src)
            case None => true
            case Some(items) => SpellAll(Records(src), items)
  {
    hide Run, Start, Events;
    var tokens := Lex(src);
    DocumentRuns(tokens);
    FilledOfLex(src);
    if tokens == [] {
      FilledNone();
    } else {
      if ParseDocument(tokens).Parsed? {
        RecordsAreLines(tokens);
        ValuesAreRecords(Records(src), ParseDocument(tokens).value);
      }
      if AllRecords(Records(src)) {
        assert forall line :: line in Filled(tokens) ==> IsValue(line) by {
          RecordsAreValues(Records(src));
        }
        LinesAreRecords(tokens);
      }
    }
  }

  lemma ValuesAreRecords(lines: seq<Text>, items: seq<Tree>)
    requires AreValues(LexEach(lines), items)
    ensures AllRecords(lines) && SpellAll(lines, items)
  {
    hide IsRecord, TreeTokens, Lex;
    forall i | 0 <= i < |lines|
      ensures Spells(lines[i], items[i])
    {
      assert LexEach(lines)[i] == TreeTokens(items[i]);
    }
    forall i | 0 <= i < |lines|
      ensures IsRecord(lines[i])
    {
      SpelledIsRecord(lines[i], items[i]);
    }
  }

  lemma RecordsAreValues(lines: seq<Text>)
    requires AllRecords(lines)
    ensures forall line :: line in LexEach(lines) ==> IsValue(line)
  {
    hide Lex, TreeTokens;
    forall line | line in LexEach(lines)
      ensures IsValue(line)
    {
      var i :| 0 <= i < |lines| && LexEach(lines)[i] == line;
      assert IsRecord(lines[i]);
      var t :| Spells(lines[i], t);
      assert line == TreeTokens(t);
    }
  }

  // What a source reads to depends on its non-blank lines alone.
  lemma ReadOfRecords(a: Text, b: Text)
    requires a != [] && b != [] && Records(a) == Records(b)
    ensures Read(a) == Read(b)
  {
    RefinesLineSplitting(a);
    RefinesLineSplitting(b);
    if Read(a).Some? {
      SameValues(Records(a), Read(a).value, Read(b).value);
    }
  }

  lemma SameValues(lines: seq<Text>, items: seq<Tree>, others: seq<Tree>)
    requires SpellAll(lines, items) && SpellAll(lines, others)
    ensures items == others
  {
    hide Lex, TreeTokens;
    forall i | 0 <= i < |lines|
      ensures items[i] == others[i]
    {
      assert Spells(lines[i], items[i]) && Spells(lines[i], others[i]);
      TreeTokensInjective(items[i], others[i]);
    }
  }

  // A line by itself is accepted exactly when it is a record, as one record.
  lemma LineAlone(line: Text)
    requires OneLine(line) && !Blank(line)
    ensures Read(line).Some? <==> IsRecord(line)
    ensures Read(line).Some? ==> |Read(line).value| == 1 && Spells(line, Read(line).value[0])
  {
    LineEndIs(line, |line|);
    assert line[..|line|] == line;
    assert Lines(line) == [line];
    NonBlankOne(line);
    RefinesLineSplitting(line);
  }

  lemma RecordsOfJoin(a: Text, c: Unit, b: Text)
    requires IsNewline(c)
    ensures Records(a + [c] + b) == Records(a) + Records(b)
  {
    LinesOfJoin(a, c, b);
    NonBlankAppends(Lines(a), Lines(b));
  }

  // Joining two sources by a line break joins their records.
  lemma Concatenation(a: Text, c: Unit, b: Text)
    requires a != [] && b != [] && IsNewline(c)
    ensures Read(a + [c] + b) == if Read(a).Some? && Read(b).Some? then Some(Read(a).value + Read(b).value) else None
  {
    var src := a + [c] + b;
    RefinesLineSplitting(src);
    RefinesLineSplitting(a);
    RefinesLineSplitting(b);
    RecordsOfJoin(a, c, b);
    AllRecordsAppend(Records(a), Records(b));
    if Read(src).Some? {
      JoinedValues(Records(a), Read(a).value, Records(b), Read(b).value);
      SameValues(Records(src), Read(src).value, Read(a).value + Read(b).value);
    }
  }

  lemma AllRecordsAppend(a: seq<Text>, b: seq<Text>)
    ensures AllRecords(a + b) <==> AllRecords(a) && AllRecords(b)
  {
    hide IsRecord;
    if AllRecords(a + b) {
      assert forall i :: 0 <= i < |a| ==> (a + b)[i] == a[i];
      assert forall i :: 0 <= i < |b| ==> (a + b)[|a| + i] == b[i];
    }
  }

  lemma JoinedValues(a: seq<Text>, items: seq<Tree>, b: seq<Text>, others: seq<Tree>)
    requires SpellAll(a, items) && SpellAll(b, others)
    ensures SpellAll(a + b, items + others)
  {
    hide Spells;
  }

  // Blank and whitespace-only lines at a line boundary change nothing.
  lemma BlankLinesChangeNothing(a: Text, c: Unit, blank: Text, d: Unit, b: Text)
    requires IsNewline(c) && IsNewline(d)
    requires OnlyBlanks(blank)
    ensures Read(a + [c] + blank + [d] + b) == Read(a + [c] + b)
  {
    RecordsOfJoin(a + [c] + blank, d, b);
    RecordsOfJoin(a, c, blank);
    RecordsOfJoin(a, c, b);
    NoRecords(blank);
    Padded(Records(a));
    ReadOfRecords(a + [c] + blank + [d] + b, a + [c] + b);
  }

  ghost predicate OnlyBlanks(blank: Text) {
    forall k :: 0 <= k < |blank| ==> IsSpace(blank[k]) || IsNewline(blank[k])
  }

  // They change nothing at the start of a source either. Alone they are a
  // document of no records, where the empty source is refused.
  lemma BlankLinesAtStart(blank: Text, d: Unit, b: Text)
    requires IsNewline(d) && OnlyBlanks(blank)
    ensures Read(blank + [d] + b) == if b == [] then Some([]) else Read(b)
  {
    RecordsOfJoin(blank, d, b);
    NoRecords(blank);
    if b == [] {
      NoRecords(b);
      OnlyBlank(blank + [d] + b);
    } else {
      ReadOfRecords(blank + [d] + b, b);
    }
  }

  // Nor after a last line, whether it is blank or has no line break of its own.
  lemma BlankLinesAtEnd(a: Text, c: Unit, blank: Text)
    requires IsNewline(c) && OnlyBlanks(blank)
    ensures Read(a + [c] + blank) == if a == [] then Some([]) else Read(a)
  {
    RecordsOfJoin(a, c, blank);
    NoRecords(blank);
    Padded(Records(a));
    if a == [] {
      NoRecords(a);
      OnlyBlank(a + [c] + blank);
    } else {
      ReadOfRecords(a + [c] + blank, a);
    }
  }

  lemma OnlyBlank(src: Text)
    requires src != [] && Records(src) == []
    ensures Read(src) == Some([])
  {
    RefinesLineSplitting(src);
  }

  lemma {:induction false} NoRecords(blank: Text)
    requires OnlyBlanks(blank)
    ensures Records(blank) == []
    decreases |blank|
  {
    var n := LineEnd(blank);
    assert forall k :: 0 <= k < n ==> blank[..n][k] == blank[k];
    assert Blank(blank[..n]);
    if n < |blank| {
      NoRecords(blank[n + 1..]);
      LinesStep(blank, n);
      NonBlankAppends([blank[..n]], Lines(blank[n + 1..]));
    } else {
      assert blank[..n] == blank;
    }
    NonBlankOne(blank[..n]);
  }
}
