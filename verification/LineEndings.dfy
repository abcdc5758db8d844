// Which characters end a line and which stand between tokens, by their codes.

module LineEndings {
  import opened Options
  import opened Text
  import opened Trees
  import opened Lexer
  import opened LexerProofs
  import opened Descent
  import opened Sources
  import opened RoundTrip

  // Every line feed as a carriage return and a line feed.
  function WithCrLf(s: seq<int>): seq<int> {
    if s == [] then [] else (if s[0] == 10 then [13, 10] else [s[0]]) + WithCrLf(s[1..])
  }

  // Every line feed as a carriage return.
  function WithCr(s: seq<int>): seq<int> {
    if s == [] then [] else [if s[0] == 10 then 13 else s[0]] + WithCr(s[1..])
  }

  lemma {:induction false} StaysText(s: Text)
    ensures forall k :: 0 <= k < |WithCrLf(s)| ==> 0 <= WithCrLf(s)[k] < 0x1_0000
    ensures forall k :: 0 <= k < |WithCr(s)| ==> 0 <= WithCr(s)[k] < 0x1_0000
    ensures s != [] ==> WithCrLf(s) != [] && WithCr(s) != []
  {
    if s != [] {
      StaysText(s[1..]);
    }
  }

  lemma CrLfFront(c: int, s: seq<int>)
    ensures WithCrLf([c] + s) == (if c == 10 then [13, 10] else [c]) + WithCrLf(s)
    ensures WithCr([c] + s) == [if c == 10 then 13 else c] + WithCr(s)
  {
    assert ([c] + s)[1..] == s;
  }

  lemma {:induction false} CrLfAppends(a: seq<int>, b: seq<int>)
    ensures WithCrLf(a + b) == WithCrLf(a) + WithCrLf(b)
    ensures WithCr(a + b) == WithCr(a) + WithCr(b)
  {
    if a == [] {
      Padded(b);
      assert WithCrLf(b) == [] + WithCrLf(b) && WithCr(b) == [] + WithCr(b);
    } else {
      hide WithCrLf, WithCr;
      var c, rest := a[0], a[1..];
      assert a == [c] + rest;
      Assoc([c], rest, b);
      CrLfAppends(rest, b);
      CrLfFront(c, rest + b);
      CrLfFront(c, rest);
      Assoc(if c == 10 then [13, 10] else [c], WithCrLf(rest), WithCrLf(b));
      Assoc([if c == 10 then 13 else c], WithCr(rest), WithCr(b));
    }
  }

  lemma {:induction false} NoneToReplace(a: seq<int>)
    requires 10 !in a
    ensures WithCrLf(a) == a && WithCr(a) == a
  {
    if a != [] {
      NoneToReplace(a[1..]);
      assert a == [a[0]] + a[1..];
    }
  }

  // A source cut at its first line feed.
  lemma CutFirst(s: Text, n: nat)
    requires n < |s| && s[n] == 10 && 10 !in s[..n]
    ensures s == s[..n] + [10] + s[n + 1..]
    ensures WithCrLf(s) == s[..n] + [13, 10] + WithCrLf(s[n + 1..])
    ensures WithCr(s) == s[..n] + [13] + WithCr(s[n + 1..])
  {
    var line, rest := s[..n], s[n + 1..];
    assert s == line + [10] + rest;
    CrLfAppends(line + [10], rest);
    CrLfAppends(line, [10]);
    NoneToReplace(line);
    assert WithCrLf([10]) == [13, 10] && WithCr([10]) == [13];
  }

  lemma JoinedCrLf(line: Text, rest: Text)
    ensures Records(line + [13, 10] + rest) == Records(line) + Records(rest)
  {
    hide Records;
    RecordsOfJoin(line, CR, [LF] + rest);
    RecordsOfJoin([], LF, rest);
    NoRecords([]);
    assert [] + [LF] + rest == [LF] + rest;
    assert line + [13, 10] + rest == line + [CR] + ([LF] + rest);
    Padded(Records(rest));
  }

  // The replaced sources have the lines of the source, but for blank ones.
  lemma {:induction false} SameRecords(s: Text)
    requires 13 !in s
    ensures forall k :: 0 <= k < |WithCrLf(s)| ==> 0 <= WithCrLf(s)[k] < 0x1_0000
    ensures forall k :: 0 <= k < |WithCr(s)| ==> 0 <= WithCr(s)[k] < 0x1_0000
    ensures Records(WithCrLf(s)) == Records(WithCr(s)) == Records(s)
    decreases |s|
  {
    hide Records, WithCrLf, WithCr;
    StaysText(s);
    if 10 in s {
      var n := First(s);
      var line, rest := s[..n], s[n + 1..];
      CutFirst(s, n);
      StaysText(rest);
      SameRecords(rest);
      RecordsOfJoin(line, LF, rest);
      RecordsOfJoin(line, CR, WithCr(rest));
      JoinedCrLf(line, WithCrLf(rest));
    } else {
      NoneToReplace(s);
    }
  }

  lemma {:induction false} First(s: Text) returns (n: nat)
    requires 10 in s
    ensures n < |s| && s[n] == 10 && 10 !in s[..n]
  {
    if s[0] == 10 {
      n := 0;
    } else {
      n := First(s[1..]);
      assert s[..n + 1] == [s[0]] + s[1..][..n];
      n := n + 1;
    }
  }

  // A source reads the same with any of the three line endings.
  lemma LineEndingsAgree(s: Text)
    requires s != [] && 13 !in s
    ensures forall k :: 0 <= k < |WithCrLf(s)| ==> 0 <= WithCrLf(s)[k] < 0x1_0000
    ensures forall k :: 0 <= k < |WithCr(s)| ==> 0 <= WithCr(s)[k] < 0x1_0000
    ensures Read(WithCrLf(s)) == Read(WithCr(s)) == Read(s)
  {
    StaysText(s);
    SameRecords(s);
    ReadOfRecords(WithCrLf(s), s);
    ReadOfRecords(WithCr(s), s);
  }

  // What a row counts are the characters 10.
  lemma {:induction false} LineFeedsCounted(s: Text)
    ensures LineFeeds(s) == |set k | 0 <= k < |s| && s[k] == 10|
  {
    var all := set k | 0 <= k < |s| && s[k] == 10;
    if s == [] {
      assert all == {};
    } else {
      var n := |s| - 1;
      var init := s[..n];
      LineFeedsCounted(init);
      var before := set k | 0 <= k < |init| && init[k] == 10;
      if s[n] == 10 {
        assert all == before + {n};
      } else {
        assert all == before;
      }
    }
  }

  // --- One character between or before two values ---

  const NULL_TEXT: Text := Ascii("null")

  lemma NullText()
    ensures NULL_TEXT == NULL_WORD
  {
  }

  lemma NullIsRecord()
    ensures Read(NULL_WORD) == Some([Leaf(Null)])
  {
    WordAlone(NULL_WORD, Null);
  }

  lemma WordAlone(word: Text, scalar: Scalar)
    requires (word == NULL_WORD && scalar == Null) || (word == TRUE_WORD && scalar == Bool(true)) || (word == FALSE_WORD && scalar == Bool(false))
    ensures Read(word) == Some([Leaf(scalar)])
  {
    WordLexed(word, scalar);
    assert TreeTokens(Leaf(scalar)) == [Value(scalar)];
    SpelledAlone(word, Leaf(scalar));
  }

  lemma WordLexed(word: Text, scalar: Scalar)
    requires (word == NULL_WORD && scalar == Null) || (word == TRUE_WORD && scalar == Bool(true)) || (word == FALSE_WORD && scalar == Bool(false))
    ensures Lex(word) == [Value(scalar)] && OneLine(word) && !Blank(word)
  {
    assert !IsSpace(word[0]);
    WordsLexed([]);
    Padded(word);
    hide Next, Blank, OneLine;
    LexMatched(word, [], Value(scalar));
    assert Lex([]) == [];
  }

  // A line that lexes to a tree's tokens reads as that tree alone.
  lemma SpelledAlone(line: Text, t: Tree)
    requires OneLine(line) && !Blank(line) && Lex(line) == TreeTokens(t)
    ensures Read(line) == Some([t])
  {
    hide Read, TreeTokens, Lex, Blank, OneLine;
    assert Spells(line, t);
    SpelledIsRecord(line, t);
    LineAlone(line);
    var items := Read(line).value;
    TreeTokensInjective(t, items[0]);
    assert items == [items[0]];
  }

  // Two values are two records exactly where a line feed or a carriage return
  // stands between them: nothing else ends a line.
  lemma LineEndsExactly(c: Unit)
    ensures Read(NULL_TEXT + [c] + NULL_TEXT) == Some([Leaf(Null), Leaf(Null)]) <==> c == 10 || c == 13
  {
    NullText();
    NullIsRecord();
    var s := NULL_WORD + [c] + NULL_WORD;
    if IsNewline(c) {
      Concatenation(NULL_WORD, c, NULL_WORD);
      assert [Leaf(Null)] + [Leaf(Null)] == [Leaf(Null), Leaf(Null)];
    } else {
      assert OneLine(s);
      assert !Blank(s) by { assert !IsSpace(s[0]); }
      hide Read, OneLine, Blank;
      LineAlone(s);
    }
  }

  // A character before a value is passed over exactly where it is a space, a
  // tab, a line feed or a carriage return.
  lemma SpacesExactly(c: Unit)
    ensures Read([c] + NULL_TEXT) == Some([Leaf(Null)]) <==> c == 32 || c == 9 || c == 10 || c == 13
  {
    NullText();
    NullIsRecord();
    var s := [c] + NULL_WORD;
    if IsNewline(c) {
      BlankLinesAtStart([], c, NULL_WORD);
      assert [] + [c] + NULL_WORD == s;
    } else {
      assert OneLine(s) && !Blank(s) by { assert !IsSpace(s[1]); }
      hide Read, OneLine, Blank;
      if IsSpace(c) {
        SpacedNull(c);
        SpelledAlone(s, Leaf(Null));
      } else {
        LineAlone(s);
        if Read(s) == Some([Leaf(Null)]) {
          assert Lex(s) == TreeTokens(Leaf(Null)) == [Value(Null)];
          UnspacedNull(c);
        }
      }
    }
  }

  lemma SpacedNull(c: Unit)
    requires IsSpace(c)
    ensures Lex([c] + NULL_WORD) == TreeTokens(Leaf(Null)) == [Value(Null)]
  {
    WordLexed(NULL_WORD, Null);
    Front(c, NULL_WORD);
    Padded(Lex(NULL_WORD));
  }

  lemma UnspacedNull(c: Unit)
    requires !IsSpace(c) && !IsNewline(c)
    ensures Lex([c] + NULL_WORD) != [Value(Null)]
  {
    var s := [c] + NULL_WORD;
    NotNull(c);
    NextNotNull(s);
    hide Next;
    assert Lex(s) == Shown(Next(s).token) + Lex(s[Next(s).size..]);
    assert Next(s).token.Some? ==> Lex(s)[0] == Next(s).token.value;
  }

  lemma NotNull(c: Unit)
    ensures !StartsWith([c] + NULL_WORD, NULL_WORD)
  {
    var s := [c] + NULL_WORD;
    assert s[1] == 0x6E && s[..4][1] == s[1] && NULL_WORD[1] == 0x75;
  }

  // A null token is spelled `null`, and only white space is no token.
  lemma NextNotNull(s: Text)
    requires s != [] && !StartsWith(s, NULL_WORD) && !IsSpace(s[0])
    ensures Next(s).token.Some? && Next(s).token.value != Value(Null)
  {
    hide StringRest, NumberSize, StartsWith;
  }
}
