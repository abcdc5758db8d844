// Where a rejected source is rejected: the token the machine stopped at lies
// on, or at the terminator of, the first line that is no record.

module ErrorPlaces {
  import opened Options
  import opened Text
  import opened Trees
  import opened Lexer
  import opened LexerProofs
  import opened Grammar
  import opened Descent
  import opened Transduce
  import opened Documents
  import opened DocumentLines
  import opened Sources

  // The offending token's place.
  function ErrorPlace(src: Text): nat
    requires Parse(src).Rejected?
  {
    var left := |Parse(src).tokens|;
    if left <= |Lex(src)| then Place(src, |Lex(src)| - left) else 0
  }

  // Its row, as the lexer counts rows: one more for every line feed a match takes.
  function Row(s: Text, k: nat, row: nat): nat
    decreases |s|
  {
    if s == [] then row
    else
      var m := Next(s);
      if m.token.Some? && k == 0 then row
      else Row(s[m.size..], if m.token.Some? then k - 1 else k, row + LineFeeds(s[..m.size]))
  }

  function ErrorRow(src: Text): nat
    requires Parse(src).Rejected?
  {
    var left := |Parse(src).tokens|;
    if left <= |Lex(src)| then Row(src, |Lex(src)| - left, 1) else 1
  }

  lemma {:induction false} LineFeedsAppend(a: Text, b: Text)
    ensures LineFeeds(a + b) == LineFeeds(a) + LineFeeds(b)
    decreases |b|
  {
    if b == [] {
      Padded(a);
    } else {
      var front, last := b[..|b| - 1], b[|b| - 1];
      assert b == front + [last];
      Assoc(a, front, [last]);
      Init(a + front, last);
      LineFeedsAppend(a, front);
    }
  }

  lemma LineFeedsSplit(s: Text, m: nat, at: nat)
    requires m + at <= |s|
    ensures LineFeeds(s[..m + at]) == LineFeeds(s[..m]) + LineFeeds(s[m..][..at])
  {
    assert s[..m + at] == s[..m] + s[m..][..at];
    LineFeedsAppend(s[..m], s[m..][..at]);
  }

  lemma RowOnward(s: Text, k: nat, k': nat, row: nat)
    requires s != [] && (Next(s).token.Some? ==> k == k' + 1) && (Next(s).token.None? ==> k == k')
    ensures Row(s, k, row) == Row(s[Next(s).size..], k', row + LineFeeds(s[..Next(s).size]))
    ensures Place(s, k) == Next(s).size + Place(s[Next(s).size..], k')
  {
    hide Next, LineFeeds;
  }

  lemma RowHere(s: Text, k: nat, row: nat)
    requires s == [] || (k == 0 && Next(s).token.Some?)
    ensures Row(s, k, row) == row && Place(s, k) == 0
  {
    hide Next, LineFeeds;
  }

  // A row is one plus the line feeds before the place.
  lemma {:induction false} RowCounts(s: Text, k: nat, row: nat)
    ensures Row(s, k, row) == row + LineFeeds(s[..Place(s, k)])
    decreases |s|
  {
    hide Next, LineFeeds, Row, Place;
    if s == [] || (k == 0 && Next(s).token.Some?) {
      RowHere(s, k, row);
      NoLineFeeds(s[..0]);
    } else {
      var m := Next(s);
      var k' := if m.token.Some? then k - 1 else k;
      RowOnward(s, k, k', row);
      RowCounts(s[m.size..], k', row + LineFeeds(s[..m.size]));
      LineFeedsSplit(s, m.size, Place(s[m.size..], k'));
    }
  }

  // A text line in its source.
  datatype TextCut = TextCut(before: Text, line: Text, after: Text)

  ghost predicate IsTextCut(src: Text, c: TextCut) {
    && src == c.before + c.line + c.after
    && (c.before == [] || IsNewline(c.before[|c.before| - 1]))
    && OneLine(c.line)
    && AtLineEnd(c.after)
  }

  // The first line that is no record: every non-blank line before it is one.
  ghost predicate FirstBadLine(src: Text, c: TextCut) {
    IsTextCut(src, c) && !Blank(c.line) && !IsRecord(c.line) && AllRecords(Records(c.before))
  }

  lemma {:induction false} FindBadLine(src: Text) returns (c: TextCut)
    requires !AllRecords(Records(src))
    ensures FirstBadLine(src, c)
    decreases |src|
  {
    hide IsRecord, Blank, NonBlank, Lines;
    var n := LineEnd(src);
    var line := src[..n];
    NonBlankOne(line);
    OnlyLine(src);
    if !Blank(line) && !IsRecord(line) {
      c := TextCut([], line, src[n..]);
      FirstLineParted(src, n);
      NoRecords([]);
    } else {
      LinesStep(src, n);
      NonBlankAppends([line], Lines(src[n + 1..]));
      AllRecordsAppend(NonBlank([line]), Records(src[n + 1..]));
      var d := FindBadLine(src[n + 1..]);
      c := BadLineLater(src, line, src[n], d);
    }
  }

  lemma FirstLineParted(src: Text, n: nat)
    requires n <= |src|
    ensures src == [] + src[..n] + src[n..]
  {
  }

  lemma OnlyLine(src: Text)
    ensures LineEnd(src) == |src| ==>
            src[..LineEnd(src)] == src && (AllRecords(Records(src)) <==> Blank(src) || IsRecord(src))
  {
    hide IsRecord;
    if LineEnd(src) == |src| {
      assert Lines(src) == [src];
      NonBlankOne(src);
    }
  }

  lemma BadLineLater(src: Text, line: Text, c: Unit, d: TextCut) returns (r: TextCut)
    requires IsNewline(c) && OneLine(line) && (Blank(line) || IsRecord(line))
    requires |line| < |src| && src[..|line|] == line && src[|line|] == c && FirstBadLine(src[|line| + 1..], d)
    ensures FirstBadLine(src, r)
  {
    hide IsRecord;
    var before := line + [c] + d.before;
    r := TextCut(before, d.line, d.after);
    assert src == line + [c] + src[|line| + 1..];
    Assoc(line + [c], d.before, d.line);
    Assoc(line + [c], d.before + d.line, d.after);
    assert d.before != [] ==> before[|before| - 1] == d.before[|d.before| - 1];
    RecordsOfJoin(line, c, d.before);
    LineEndIs(line, |line|);
    assert line[..|line|] == line && Lines(line) == [line];
    NonBlankOne(line);
    AllRecordsAppend(Records(line), Records(d.before));
  }

  // The first bad token line is one line, so any two descriptions of it agree.
  lemma FirstBadUnique(tokens: seq<Token>, c: Cut, d: Cut)
    requires FirstBad(tokens, c) && FirstBad(tokens, d)
    ensures |c.before| == |d.before| && |c.line| == |d.line|
  {
    NotBefore(tokens, c, d);
    NotBefore(tokens, d, c);
    SameEnd(tokens, c, d);
    SameEnd(tokens, d, c);
  }

  lemma NotBefore(tokens: seq<Token>, c: Cut, d: Cut)
    requires FirstBad(tokens, c) && FirstBad(tokens, d)
    ensures |c.before| >= |d.before|
  {
    hide Filled;
    if |c.before| < |d.before| {
      LineOfCut(d.before, CutInside(tokens, c, d));
    }
  }

  // A line that starts before d's line is one of the lines before it.
  ghost function CutInside(tokens: seq<Token>, c: Cut, d: Cut): (r: Cut)
    requires IsCut(tokens, c) && IsCut(tokens, d) && |c.before| < |d.before|
    ensures IsCut(d.before, r) && r.line == c.line
  {
    var k, n := |c.before|, |c.line|;
    assert forall j :: 0 <= j < n ==> tokens[k + j] == c.line[j];
    assert tokens[|d.before| - 1] == Line;
    assert |d.before| > k + n;
    assert d.before == tokens[..|d.before|] && c.before == tokens[..k] && c.line == tokens[k..k + n];
    assert tokens[k + n] == c.after[0];
    Cut(c.before, c.line, d.before[k + n..])
  }

  lemma SameEnd(tokens: seq<Token>, c: Cut, d: Cut)
    requires IsCut(tokens, c) && IsCut(tokens, d) && |c.before| == |d.before|
    ensures |c.line| <= |d.line|
  {
    var k := |c.before|;
    assert forall j :: 0 <= j < |c.line| ==> tokens[k + j] == c.line[j];
    assert d.after != [] ==> tokens[k + |d.line|] == d.after[0];
  }

  // A first bad text line is the first bad token line.
  lemma BadLineTokens(src: Text, c: TextCut)
    requires FirstBadLine(src, c)
    ensures FirstBad(Lex(src), Cut(Lex(c.before), Lex(c.line), Lex(c.after)))
    ensures Lex(src) == Lex(c.before) + Lex(c.line + c.after)
    ensures Lex(c.line + c.after) == Lex(c.line) + Lex(c.after)
  {
    assert c.line != [] ==> !IsNewline(c.line[0]) && !IsNewline(c.line[|c.line| - 1]);
    assert c.line != [];
    Assoc(c.before, c.line, c.after);
    assert (c.line + c.after)[0] == c.line[0];
    LexAtBoundary(c.before, c.line + c.after);
    LexAtBoundary(c.line, c.after);
    Assoc(Lex(c.before), Lex(c.line), Lex(c.after));
    BlankLex(c.line);
    OneLineLex(c.line);
    LastNewline(c.before);
    if c.after != [] {
      FilledSkipsNewline(c.after);
    }
    FilledOfLex(c.before);
    RecordsAreValues(Records(c.before));
    NotSpelled(c.line);
  }

  lemma NotSpelled(line: Text)
    requires !IsRecord(line)
    ensures !IsValue(Lex(line))
  {
    if IsValue(Lex(line)) {
      var t :| Lex(line) == TreeTokens(t);
      SpelledIsRecord(line, t);
    }
  }

  // A text that ends in a line character lexes to an end in #LN.
  lemma {:induction false} LastNewline(s: Text)
    requires s == [] || IsNewline(s[|s| - 1])
    ensures Lex(s) == [] || Lex(s)[|Lex(s)| - 1] == Line
    ensures s != [] ==> Lex(s) != []
    decreases |s|
  {
    if s != [] {
      var m := Next(s);
      var rest := s[m.size..];
      LastNewline(rest);
      if rest == [] {
        LastMatch(s);
      }
    }
  }

  lemma NextWithinLine(s: Text)
    requires s != [] && !IsNewline(s[0])
    ensures Next(s).size <= LineEnd(s)
  {
    hide Next;
    var n := LineEnd(s);
    assert s == s[..n] + s[n..];
    NextLocal(s[..n], s[n..]);
  }

  lemma LastMatch(s: Text)
    requires s != [] && IsNewline(s[|s| - 1]) && Next(s).size == |s|
    ensures Next(s).token == Some(Line)
  {
    assert s[..|s|] == s;
    if !IsNewline(s[0]) {
      NextWithinLine(s);
    }
  }

  // Error locality: on rejection of a source that is not empty, the offending
  // token lies on the first line that is no record or at its end, its row is
  // one plus the line feeds before that line, and every earlier line that is
  // not blank is a record by itself.
  lemma ErrorLocality(src: Text) returns (c: TextCut)
    requires src != [] && Parse(src).Rejected?
    ensures FirstBadLine(src, c)
    ensures |c.before| <= ErrorPlace(src) <= |c.before| + |c.line|
    ensures ErrorRow(src) == 1 + LineFeeds(src[..ErrorPlace(src)]) == 1 + LineFeeds(c.before)
  {
    hide FirstBadLine, Run, AllRecords, Lex, Place, Row, LineFeeds, Records;
    RefinesLineSplitting(src);
    c := FindBadLine(src);
    StuckOnLine(src, c);
    var k := |Lex(src)| - |Parse(src).tokens|;
    PlaceOnLine(src, c, k);
    RowCounts(src, k, 1);
    RowOfLine(src, c, ErrorPlace(src));
  }

  lemma StuckOnLine(src: Text, c: TextCut)
    requires src != [] && Parse(src).Rejected? && FirstBadLine(src, c)
    ensures |Parse(src).tokens| <= |Lex(src)|
    ensures |Lex(c.before)| <= |Lex(src)| - |Parse(src).tokens| <= |Lex(c.before)| + |Lex(c.line)|
  {
    hide FirstBadLine, FirstBad, Run, Lex, Start, Events, ParseRecords;
    var tokens := Lex(src);
    DocumentRuns(tokens);
    var bad := StuckOnFirstBad(tokens);
    BadLineTokens(src, c);
    FirstBadUnique(tokens, bad, Cut(Lex(c.before), Lex(c.line), Lex(c.after)));
  }

  lemma PlaceWithin(line: Text, after: Text, k: nat)
    requires line != [] && OneLine(line) && AtLineEnd(after) && k <= |Lex(line)|
    ensures Place(line + after, k) <= |line|
  {
    PlaceOfEnd(after);
    hide Place, Lex;
    PlaceAtBoundary(line, after, k);
  }

  lemma PlaceAfter(before: Text, rest: Text, k: nat)
    requires Boundary(before, rest) && k >= |Lex(before)|
    ensures Place(before + rest, k) == |before| + Place(rest, k - |Lex(before)|)
  {
    hide Place, Lex;
    PlaceAtBoundary(before, rest, k);
  }

  lemma PlaceOnLine(src: Text, c: TextCut, k: nat)
    requires FirstBadLine(src, c)
    ensures |Lex(c.before)| <= k <= |Lex(c.before)| + |Lex(c.line)| ==> |c.before| <= Place(src, k) <= |c.before| + |c.line|
  {
    hide Place, Lex, IsRecord, AllRecords, Records;
    Assoc(c.before, c.line, c.after);
    assert c.line != [] && (c.line + c.after)[0] == c.line[0];
    if |Lex(c.before)| <= k <= |Lex(c.before)| + |Lex(c.line)| {
      PlaceWithin(c.line, c.after, k - |Lex(c.before)|);
      PlaceAfter(c.before, c.line + c.after, k);
    }
  }

  lemma PlaceOfEnd(after: Text)
    requires AtLineEnd(after)
    ensures Place(after, 0) == 0
  {
  }

  lemma RowOfLine(src: Text, c: TextCut, at: nat)
    requires FirstBadLine(src, c) && |c.before| <= at <= |c.before| + |c.line|
    ensures LineFeeds(src[..at]) == LineFeeds(c.before)
  {
    var part := c.line[..at - |c.before|];
    assert src[..at] == c.before + part;
    LineFeedsAppend(c.before, part);
    assert forall k :: 0 <= k < |part| ==> part[k] == c.line[k];
    NoLineFeeds(part);
  }

  lemma {:induction false} NoLineFeeds(s: Text)
    requires OneLine(s)
    ensures LineFeeds(s) == 0
  {
    if s != [] {
      NoLineFeeds(s[..|s| - 1]);
    }
  }
}
