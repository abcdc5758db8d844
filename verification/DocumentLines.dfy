// The document grammar refines line splitting. No alternate speaks of a line
// break inside a value: that a record is one line comes of `#LN` being a
// token (ts/src/jsonl.ts:59), and is derived here.

module DocumentLines {
  import opened Options
  import opened Text
  import opened Trees
  import opened Lexer
  import opened LexerProofs
  import opened Grammar
  import opened Descent
  import opened Machine
  import opened Transduce
  import opened Documents

  // The tokens before the first #LN.
  function FirstLine(tokens: seq<Token>): (n: nat)
    ensures n <= |tokens| && Line !in tokens[..n]
    ensures n < |tokens| ==> tokens[n] == Line
  {
    if tokens == [] || tokens[0] == Line then 0 else 1 + FirstLine(tokens[1..])
  }

  // The token lines that hold a token, cut at every #LN.
  function Filled(tokens: seq<Token>): seq<seq<Token>>
    decreases |tokens|
  {
    var n := FirstLine(tokens);
    var line := if n == 0 then [] else [tokens[..n]];
    if n == |tokens| then line else line + Filled(tokens[n + 1..])
  }

  lemma {:induction false} FirstLineIs(line: seq<Token>, rest: seq<Token>)
    requires Line !in line && (rest == [] || rest[0] == Line)
    ensures FirstLine(line + rest) == |line|
  {
    if line == [] {
      Padded(rest);
    } else {
      assert line + rest == [line[0]] + (line[1..] + rest);
      Front(line[0], line[1..] + rest);
      FirstLineIs(line[1..], rest);
    }
  }

  // One step of the cut: a line without #LN, and what its end leaves.
  lemma FilledStep(line: seq<Token>, rest: seq<Token>)
    requires Line !in line && (rest == [] || rest[0] == Line)
    ensures Filled(line + rest) == (if line == [] then [] else [line]) + (if rest == [] then [] else Filled(rest[1..]))
  {
    FirstLineIs(line, rest);
    assert (line + rest)[..|line|] == line;
    if rest == [] {
      Padded(line);
      Padded(if line == [] then [] else [line]);
    } else {
      assert (line + rest)[|line| + 1..] == rest[1..];
    }
  }

  // The lines are the values, one each and in order.
  ghost predicate AreValues(lines: seq<seq<Token>>, items: seq<Tree>) {
    |lines| == |items| && forall i :: 0 <= i < |lines| ==> lines[i] == TreeTokens(items[i])
  }

  ghost predicate IsValue(line: seq<Token>) {
    exists t :: line == TreeTokens(t)
  }

  lemma ParsedLine(tokens: seq<Token>)
    requires ParseValue(tokens).Parsed?
    ensures var t, rest := ParseValue(tokens).value, ParseValue(tokens).rest;
            tokens == TreeTokens(t) + rest && TreeTokens(t) != [] && Line !in TreeTokens(t)
  {
    ParseValueSound(tokens);
    TreeTokensOneLine(ParseValue(tokens).value);
    TreeTokensStart(ParseValue(tokens).value);
  }

  // A line that starts with a value is that value, or is none.
  lemma LineDecided(tokens: seq<Token>)
    requires tokens != [] && tokens[0] != Line
    ensures var n := FirstLine(tokens);
            var parsed := ParseValue(tokens);
            IsValue(tokens[..n]) <==> parsed.Parsed? && |parsed.rest| == |tokens| - n
  {
    var n := FirstLine(tokens);
    assert tokens == tokens[..n] + tokens[n..];
    if t :| tokens[..n] == TreeTokens(t) {
      ParseValueComplete(t, tokens[n..]);
    }
    if ParseValue(tokens).Parsed? && |ParseValue(tokens).rest| == |tokens| - n {
      ParsedLine(tokens);
      var t := ParseValue(tokens).value;
      assert tokens[..n] == TreeTokens(t);
    }
  }

  lemma AreValuesFront(t: Tree, lines: seq<seq<Token>>, items: seq<Tree>)
    requires AreValues(lines, items)
    ensures AreValues([TreeTokens(t)] + lines, [t] + items)
  {
  }

  // An accepted document's lines are its records.
  lemma {:induction false} RecordsAreLines(tokens: seq<Token>)
    requires ParseRecords(tokens).Parsed?
    ensures AreValues(Filled(tokens), ParseRecords(tokens).value)
    decreases |tokens|
  {
    if tokens[0] == Line {
      FilledSkip(tokens);
      if |tokens| > 1 {
        RecordsAreLines(tokens[1..]);
      }
    } else {
      ParsedLine(tokens);
      var t, rest := ParseValue(tokens).value, ParseValue(tokens).rest;
      if rest != [] && rest != [Line] {
        RecordsAreLines(rest[1..]);
      }
      RecordIsLine(tokens, t, rest);
    }
  }

  lemma FilledNone()
    ensures Filled([]) == []
  {
  }

  lemma FilledSkip(tokens: seq<Token>)
    requires tokens != [] && tokens[0] == Line
    ensures Filled(tokens) == Filled(tokens[1..])
  {
    FilledStep([], tokens);
    hide Filled;
    Padded(tokens);
    Padded(Filled(tokens[1..]));
  }

  lemma RecordIsLine(tokens: seq<Token>, t: Tree, rest: seq<Token>)
    requires ParseRecords(tokens).Parsed? && tokens != [] && tokens[0] != Line && ParseValue(tokens) == Parsed(t, rest)
    requires rest != [] && rest != [Line] ==> AreValues(Filled(rest[1..]), ParseRecords(rest[1..]).value)
    ensures AreValues(Filled(tokens), ParseRecords(tokens).value)
  {
    ParsedLine(tokens);
    FilledStep(TreeTokens(t), rest);
    hide Filled, ParseValue, TreeTokens;
    if rest == [] || rest == [Line] {
      FilledNone();
      assert rest == [Line] ==> rest[1..] == [];
      Padded([TreeTokens(t)]);
      AreValuesFront(t, [], []);
      Padded([t]);
    } else {
      AreValuesFront(t, Filled(rest[1..]), ParseRecords(rest[1..]).value);
    }
  }

  // A line, the lines before it and what comes after it.
  datatype Cut = Cut(before: seq<Token>, line: seq<Token>, after: seq<Token>)

  ghost predicate IsCut(tokens: seq<Token>, c: Cut) {
    && tokens == c.before + c.line + c.after
    && (c.before == [] || c.before[|c.before| - 1] == Line)
    && Line !in c.line
    && (c.after == [] || c.after[0] == Line)
  }

  // The first line that is not one value: all filled lines before it are.
  ghost predicate FirstBad(tokens: seq<Token>, c: Cut) {
    && IsCut(tokens, c)
    && c.line != [] && !IsValue(c.line)
    && (forall line :: line in Filled(c.before) ==> IsValue(line))
  }

  // Where a run is stuck: on that line or at its terminator.
  ghost predicate StuckOn(tokens: seq<Token>, at: seq<Token>, c: Cut) {
    && |at| <= |tokens| && tokens[|tokens| - |at|..] == at
    && |c.before| <= |tokens| - |at| <= |c.before| + |c.line|
  }

  // A rejected document has a first line that is no value, and is stuck on it.
  lemma {:induction false} StuckOnFirstBad(tokens: seq<Token>) returns (c: Cut)
    requires tokens != [] && ParseRecords(tokens).Stuck?
    ensures FirstBad(tokens, c) && StuckOn(tokens, ParseRecords(tokens).at, c)
    decreases |tokens|
  {
    hide FirstBad, StuckOn;
    if tokens[0] == Line {
      c := StuckOnFirstBad(tokens[1..]);
      c := FirstBadLater(tokens, [], tokens[1..], ParseRecords(tokens).at, c);
    } else {
      match ParseValue(tokens)
      case Stuck(at) =>
        LineDecided(tokens);
        ParseValueStuck(tokens);
        c := FirstBadHere(tokens, at);
      case Parsed(t, rest) =>
        ParsedLine(tokens);
        if rest[0] == Line {
          c := StuckOnFirstBad(rest[1..]);
          assert rest == [Line] + rest[1..];
          Assoc(TreeTokens(t), [Line], rest[1..]);
          c := FirstBadLater(tokens, TreeTokens(t), rest[1..], ParseRecords(tokens).at, c);
        } else {
          c := FirstBadRest(tokens, t, rest);
        }
    }
  }

  lemma FirstBadRest(tokens: seq<Token>, t: Tree, rest: seq<Token>) returns (c: Cut)
    requires tokens != [] && tokens[0] != Line && ParseValue(tokens) == Parsed(t, rest)
    requires rest != [] && rest[0] != Line
    ensures FirstBad(tokens, c) && StuckOn(tokens, rest, c)
  {
    ParsedLine(tokens);
    LineDecided(tokens);
    hide ParseValue, TreeTokens;
    var k := |TreeTokens(t)|;
    assert tokens[k..] == rest && tokens[..k] == TreeTokens(t);
    var n := FirstLine(tokens);
    assert tokens[k] == rest[0];
    c := FirstBadHere(tokens, rest);
  }

  lemma FirstBadHere(tokens: seq<Token>, at: seq<Token>) returns (c: Cut)
    requires tokens != [] && tokens[0] != Line
    requires StuckWithin(tokens, at) && !IsValue(tokens[..FirstLine(tokens)])
    ensures FirstBad(tokens, c) && StuckOn(tokens, at, c)
  {
    var n := FirstLine(tokens);
    c := Cut([], tokens[..n], tokens[n..]);
    assert tokens == [] + tokens[..n] + tokens[n..];
    assert forall k :: 0 <= k < |tokens| - |at| ==> tokens[..|tokens| - |at|][k] == tokens[k];
    FilledNone();
  }

  lemma CutRegroup(line: seq<Token>, before: seq<Token>, bad: seq<Token>, after: seq<Token>)
    ensures line + [Line] + before + bad + after == line + ([Line] + (before + bad + after))
    ensures line + [Line] + before == line + ([Line] + before)
    ensures line + [Line] + (before + bad + after) == line + [Line] + before + bad + after
  {
  }

  lemma SuffixOfSuffix(tokens: seq<Token>, head: seq<Token>, rest: seq<Token>, at: seq<Token>)
    requires tokens == head + rest && |at| <= |rest| && rest[|rest| - |at|..] == at
    ensures tokens[|tokens| - |at|..] == at
  {
  }

  // A bad line stays the first one behind a line that is none or a value.
  lemma FirstBadLater(tokens: seq<Token>, line: seq<Token>, rest: seq<Token>, at: seq<Token>, d: Cut) returns (c: Cut)
    requires tokens == line + [Line] + rest && Line !in line && (line == [] || IsValue(line))
    requires FirstBad(rest, d) && StuckOn(rest, at, d)
    ensures FirstBad(tokens, c) && StuckOn(tokens, at, c)
  {
    c := Cut(line + [Line] + d.before, d.line, d.after);
    CutLater(tokens, line, rest, d);
    SuffixOfSuffix(tokens, line + [Line], rest, at);
    LinesBefore(line, d.before);
  }

  lemma CutLater(tokens: seq<Token>, line: seq<Token>, rest: seq<Token>, d: Cut)
    requires tokens == line + [Line] + rest && IsCut(rest, d)
    ensures IsCut(tokens, Cut(line + [Line] + d.before, d.line, d.after))
  {
    CutRegroup(line, d.before, d.line, d.after);
    var before := line + [Line] + d.before;
    assert d.before != [] ==> before[|before| - 1] == d.before[|d.before| - 1];
  }

  lemma LinesBefore(line: seq<Token>, before: seq<Token>)
    requires Line !in line
    ensures forall l :: l in Filled(line + [Line] + before) ==> (l == line && line != []) || l in Filled(before)
  {
    CutRegroup(line, before, [], []);
    FilledStep(line, [Line] + before);
    Front(Line, before);
  }

  // With every filled line a value nothing is stuck.
  lemma {:induction false} LinesAreRecords(tokens: seq<Token>)
    requires tokens != [] && forall line :: line in Filled(tokens) ==> IsValue(line)
    ensures ParseRecords(tokens).Parsed?
  {
    if ParseRecords(tokens).Stuck? {
      var c := StuckOnFirstBad(tokens);
      LineOfCut(tokens, c);
    }
  }

  lemma FilledLater(first: seq<Token>, before: seq<Token>, line: seq<Token>, after: seq<Token>)
    requires Line !in first && line in Filled(before + line + after)
    ensures line in Filled(first + [Line] + before + line + after)
  {
    CutRegroup(first, before, line, after);
    FilledStep(first, [Line] + (before + line + after));
    Front(Line, before + line + after);
  }

  // A cut's line is one of the filled lines.
  lemma {:induction false} LineOfCut(tokens: seq<Token>, c: Cut)
    requires IsCut(tokens, c) && c.line != []
    ensures c.line in Filled(tokens)
    decreases |tokens|
  {
    if c.before == [] {
      Padded(c.line);
      FilledStep(c.line, c.after);
    } else {
      hide Filled;
      var n := FirstLine(c.before);
      LastIsLine(c.before, n);
      var d := Cut(c.before[n + 1..], c.line, c.after);
      LineOfCut(d.before + d.line + d.after, d);
      FilledLater(c.before[..n], d.before, c.line, c.after);
    }
  }

  lemma LastIsLine(before: seq<Token>, n: nat)
    requires before != [] && before[|before| - 1] == Line && n == FirstLine(before)
    ensures n < |before| && before == before[..n] + [Line] + before[n + 1..]
    ensures before[n + 1..] == [] || before[n + 1..][|before| - n - 2] == Line
  {
    assert forall k :: 0 <= k < n ==> before[..n][k] == before[k];
    hide FirstLine;
    LineParted(before, n);
  }

  lemma LineParted(before: seq<Token>, n: nat)
    requires n < |before| && before[n] == Line
    ensures before == before[..n] + [Line] + before[n + 1..]
  {
  }
}
