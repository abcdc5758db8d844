// RFC 8259 as a relation between text and tree, apart from the lexer: what a
// token's spelling is, and a text as spellings with space between them. A
// line is a record exactly when the relation holds of it.

module JsonText {
  import opened Options
  import opened Text
  import opened Trees
  import opened Lexer
  import opened LexerProofs
  import opened Descent
  import opened Sources
  import opened ErrorPlaces
  import opened RoundTrip

  // Section 7: one character of a string.
  ghost predicate CharSpelling(s: Text, c: Unit) {
    || (|s| == 1 && s[0] == c && c >= 0x20 && c != QUOTE && c != BACKSLASH)
    || (|s| == 2 && s[0] == BACKSLASH && EscapeOf(s[1]) == Some(c))
    || (|s| == 6 && s[0] == BACKSLASH && s[1] == 0x75 &&
        (forall k :: 2 <= k < 6 ==> HexValue(s[k]) >= 0) &&
        c == ((HexValue(s[2]) * 16 + HexValue(s[3])) * 16 + HexValue(s[4])) * 16 + HexValue(s[5]))
  }

  function EscapeOf(c: Unit): Option<Unit> {
    match c
    case 0x22 => Some(0x22)
    case 0x5C => Some(0x5C)
    case 0x2F => Some(0x2F)
    case 0x62 => Some(0x08)
    case 0x66 => Some(0x0C)
    case 0x6E => Some(0x0A)
    case 0x72 => Some(0x0D)
    case 0x74 => Some(0x09)
    case _ => None
  }

  ghost predicate BodySpelling(s: Text, value: Text)
    decreases |value|
  {
    if value == [] then s == []
    else exists n :: 0 < n <= |s| && CharSpelling(s[..n], value[0]) && BodySpelling(s[n..], value[1..])
  }

  ghost predicate StringSpelling(s: Text, value: Text) {
    exists body :: s == [QUOTE] + body + [QUOTE] && BodySpelling(body, value)
  }

  ghost predicate TokenSpelling(s: Text, token: Token) {
    match token
    case OpenBrace => s == [BRACE_OPEN]
    case CloseBrace => s == [BRACE_CLOSE]
    case OpenSquare => s == [BRACKET_OPEN]
    case CloseSquare => s == [BRACKET_CLOSE]
    case Colon => s == [COLON]
    case Comma => s == [COMMA]
    case Value(Null) => s == NULL_WORD
    case Value(Bool(b)) => s == if b then TRUE_WORD else FALSE_WORD
    case Value(Num(Finite(lexeme))) => s == lexeme
    case Value(Str(value)) => StringSpelling(s, value)
    case _ => false
  }

  // A text's tokens with spaces and tabs around them.
  ghost predicate Spelling(s: Text, tokens: seq<Token>)
    decreases |tokens|
  {
    if tokens == [] then Blank(s)
    else exists i, j ::
           0 <= i < j <= |s| && Blank(s[..i]) && TokenSpelling(s[i..j], tokens[0]) && Spelling(s[j..], tokens[1..])
  }

  ghost predicate IsJsonText(s: Text, t: Tree) {
    Spelling(s, TreeTokens(t))
  }

  // What is lexed is spelled.

  lemma CharSound(s: Text)
    requires CharAt(s).1 > 0
    ensures CharSpelling(s[..CharAt(s).1], CharAt(s).0)
  {
    var t := s[..CharAt(s).1];
    assert forall k :: 0 <= k < |t| ==> t[k] == s[k];
  }

  lemma {:induction false} BodySound(s: Text)
    requires StringRest(s).Some?
    ensures var (value, n) := StringRest(s).value;
            s[n - 1] == QUOTE && BodySpelling(s[..n - 1], value)
    decreases |s|
  {
    if s[0] != QUOTE {
      var m := CharAt(s).1;
      CharSound(s);
      BodySound(s[m..]);
      hide CharAt, CharSpelling;
      var (more, k) := StringRest(s[m..]).value;
      var value := [CharAt(s).0] + more;
      assert StringRest(s).value == (value, m + k);
      BodyFront(s, m, m + k - 1, CharAt(s).0, more);
    }
  }

  lemma BodyFront(s: Text, m: nat, end: nat, c: Unit, more: Text)
    requires 0 < m <= end <= |s| && CharSpelling(s[..m], c) && BodySpelling(s[m..][..end - m], more)
    ensures BodySpelling(s[..end], [c] + more)
  {
    hide CharSpelling;
    var body := s[..end];
    assert body[..m] == s[..m] && body[m..] == s[m..][..end - m];
    Front(c, more);
  }

  lemma StringSound(s: Text)
    requires s != [] && s[0] == QUOTE && StringRest(s[1..]).Some?
    ensures StringSpelling(s[..1 + StringRest(s[1..]).value.1], StringRest(s[1..]).value.0)
  {
    hide BodySpelling;
    BodySound(s[1..]);
    var n := StringRest(s[1..]).value.1;
    var body := s[1..][..n - 1];
    assert s[..1 + n] == [QUOTE] + body + [QUOTE];
  }

  lemma TokenSound(s: Text)
    requires s != [] && Next(s).token.Some? && Next(s).token.value != Bad && Next(s).token.value != Line
    ensures TokenSpelling(s[..Next(s).size], Next(s).token.value)
  {
    hide StringRest, StringSpelling, NumberSize;
    if s[0] == QUOTE && StringRest(s[1..]).Some? {
      StringSound(s);
    }
  }

  lemma {:induction false} LexedIsSpelled(s: Text)
    requires Line !in Lex(s) && Bad !in Lex(s)
    ensures Spelling(s, Lex(s))
    decreases |s|
  {
    if s != [] {
      var n := Next(s).size;
      var rest := s[n..];
      LexedIsSpelled(rest);
      match Next(s).token
      case Some(token) =>
        TokenSound(s);
        hide Next, TokenSpelling, Spelling;
        Front(token, Lex(rest));
        SpelledFront(s, n, token, Lex(rest));
      case None =>
        assert IsSpace(s[0]) && n == 1;
        hide Next, TokenSpelling;
        Padded(Lex(rest));
        SpelledAfterSpace(s, Lex(rest));
    }
  }

  lemma SpelledFront(s: Text, n: nat, token: Token, tokens: seq<Token>)
    requires 0 < n <= |s| && TokenSpelling(s[..n], token) && Spelling(s[n..], tokens)
    ensures Spelling(s, [token] + tokens)
  {
    hide TokenSpelling;
    Front(token, tokens);
    assert s[0..n] == s[..n] && s[..0] == [];
    assert Blank(s[..0]) && TokenSpelling(s[0..n], token);
  }

  lemma SpelledAfterSpace(s: Text, tokens: seq<Token>)
    requires s != [] && IsSpace(s[0]) && Spelling(s[1..], tokens)
    ensures Spelling(s, tokens)
  {
    hide TokenSpelling;
    var rest := s[1..];
    if tokens != [] {
      var i, j :| 0 <= i < j <= |rest| && Blank(rest[..i]) && TokenSpelling(rest[i..j], tokens[0]) && Spelling(rest[j..], tokens[1..]);
      assert s[i + 1..j + 1] == rest[i..j] && s[j + 1..] == rest[j..];
      assert s[..i + 1] == [s[0]] + rest[..i];
      assert Blank(s[..i + 1]);
    }
  }

  // What is spelled is lexed, when no value token touches another.

  lemma CharComplete(s: Text, c: Unit, rest: Text)
    requires CharSpelling(s, c)
    ensures CharAt(s + rest) == (c, |s|) && (s + rest)[0] != QUOTE
  {
    assert forall k :: 0 <= k < |s| ==> (s + rest)[k] == s[k];
  }

  lemma StringRestChar(first: Text, c: Unit, more: Text)
    requires CharSpelling(first, c)
    ensures StringRest(first + more) == Prepend(c, |first|, StringRest(more))
  {
    CharComplete(first, c, more);
    assert (first + more)[|first|..] == more;
    hide CharAt, CharSpelling, Prepend;
  }

  lemma BodyFrontComplete(first: Text, more: Text, value: Text, end: Text)
    requires value != [] && CharSpelling(first, value[0])
    requires StringRest(more + end) == Some((value[1..], |more| + 1))
    ensures StringRest(first + more + end) == Some((value, |first + more| + 1))
  {
    hide StringRest, CharSpelling;
    StringRestChar(first, value[0], more + end);
    Assoc(first, more, end);
    assert value == [value[0]] + value[1..];
  }

  lemma BodyCut(body: Text, value: Text) returns (n: nat)
    requires value != [] && BodySpelling(body, value)
    ensures 0 < n <= |body| && CharSpelling(body[..n], value[0]) && BodySpelling(body[n..], value[1..])
  {
    n :| 0 < n <= |body| && CharSpelling(body[..n], value[0]) && BodySpelling(body[n..], value[1..]);
  }

  lemma BodyEmpty(rest: Text)
    ensures StringRest([] + ([QUOTE] + rest)) == Some(([], 1))
  {
    Padded([QUOTE] + rest);
  }

  lemma {:induction false} BodyComplete(body: Text, value: Text, rest: Text)
    requires BodySpelling(body, value)
    ensures StringRest(body + ([QUOTE] + rest)) == Some((value, |body| + 1))
    decreases |value|
  {
    if value == [] {
      BodyEmpty(rest);
    } else {
      hide *;
      var n := BodyCut(body, value);
      BodyComplete(body[n..], value[1..], rest);
      BodyFrontComplete(body[..n], body[n..], value, [QUOTE] + rest);
      CutOnce(body, n);
    }
  }

  lemma CutOnce(s: Text, n: nat)
    requires n <= |s|
    ensures s[..n] + s[n..] == s
  {
  }

  lemma StringComplete(s: Text, value: Text, rest: Text)
    requires StringSpelling(s, value)
    ensures Next(s + rest) == Match(Some(Value(Str(value))), |s|)
  {
    var body :| s == [QUOTE] + body + [QUOTE] && BodySpelling(body, value);
    hide StringRest, BodySpelling;
    BodyComplete(body, value, rest);
    assert s + rest == [QUOTE] + (body + ([QUOTE] + rest));
    Front(QUOTE, body + ([QUOTE] + rest));
  }

  lemma PunctuationNext(c: Unit, rest: Text)
    ensures c == BRACE_OPEN ==> Next([c] + rest) == One(OpenBrace)
    ensures c == BRACE_CLOSE ==> Next([c] + rest) == One(CloseBrace)
    ensures c == BRACKET_OPEN ==> Next([c] + rest) == One(OpenSquare)
    ensures c == BRACKET_CLOSE ==> Next([c] + rest) == One(CloseSquare)
    ensures c == COLON ==> Next([c] + rest) == One(Token.Colon)
    ensures c == COMMA ==> Next([c] + rest) == One(Token.Comma)
  {
    hide StringRest, NumberMatch, StartsWith;
    Front(c, rest);
  }

  lemma TokenComplete(s: Text, token: Token, rest: Text)
    requires TokenSpelling(s, token) && (token.Value? ==> Stops(rest))
    ensures s != [] && Next(s + rest) == Match(Some(token), |s|)
  {
    hide Next, StringSpelling, Stops;
    match token
    case Value(Num(Finite(lexeme))) =>
      NumberLexed(lexeme, rest);
      NumberRead(lexeme);
    case Value(Str(value)) =>
      StringNotEmpty(s, value);
      StringComplete(s, value, rest);
    case Value(_) => WordsLexed(rest);
    case OpenBrace => PunctuationNext(BRACE_OPEN, rest);
    case CloseBrace => PunctuationNext(BRACE_CLOSE, rest);
    case OpenSquare => PunctuationNext(BRACKET_OPEN, rest);
    case CloseSquare => PunctuationNext(BRACKET_CLOSE, rest);
    case Colon => PunctuationNext(COLON, rest);
    case Comma => PunctuationNext(COMMA, rest);
    case _ =>
  }

  lemma StringNotEmpty(s: Text, value: Text)
    requires StringSpelling(s, value)
    ensures s != []
  {
  }

  // No two values side by side.
  ghost predicate Apart(tokens: seq<Token>) {
    forall i :: 0 <= i < |tokens| - 1 ==> !(tokens[i].Value? && tokens[i + 1].Value?)
  }

  // Where no value comes next, a number has stopped.
  lemma SpellingStops(s: Text, tokens: seq<Token>)
    requires Spelling(s, tokens) && (tokens != [] ==> !tokens[0].Value?)
    ensures Stops(s)
  {
    hide Spelling;
    if s != [] {
      if tokens == [] {
        BlankStart(s);
      } else {
        var i, j := SpellingCuts(s, tokens);
        if i > 0 {
          assert s[..i][0] == s[0];
        } else {
          assert s[i..j][0] == s[0];
        }
      }
    }
  }

  lemma BlankStart(s: Text)
    requires Spelling(s, []) && s != []
    ensures IsSpace(s[0])
  {
  }

  lemma SpellingCuts(s: Text, tokens: seq<Token>) returns (i: nat, j: nat)
    requires tokens != [] && Spelling(s, tokens)
    ensures i < j <= |s| && Blank(s[..i]) && TokenSpelling(s[i..j], tokens[0]) && Spelling(s[j..], tokens[1..])
  {
    i, j :| 0 <= i < j <= |s| && Blank(s[..i]) && TokenSpelling(s[i..j], tokens[0]) && Spelling(s[j..], tokens[1..]);
  }

  lemma {:induction false} BlankSkipped(blank: Text, rest: Text)
    requires Blank(blank)
    ensures Lex(blank + rest) == Lex(rest)
  {
    if blank == [] {
      Padded(rest);
    } else {
      assert blank + rest == [blank[0]] + (blank[1..] + rest);
      Front(blank[0], blank[1..] + rest);
      BlankSkipped(blank[1..], rest);
      Padded(Lex(rest));
    }
  }

  lemma CutTwice(s: Text, i: nat, j: nat)
    requires i <= j <= |s|
    ensures s == s[..i] + (s[i..j] + s[j..])
  {
  }

  lemma {:induction false} SpelledIsLexed(s: Text, tokens: seq<Token>)
    requires Spelling(s, tokens) && Apart(tokens)
    ensures Lex(s) == tokens
    decreases |tokens|
  {
    if tokens == [] {
      BlankSkipped(s, []);
      Padded(s);
    } else {
      hide Spelling, TokenSpelling, Lex, Next, Stops, Blank;
      var i, j := SpellingCuts(s, tokens);
      SpelledIsLexed(s[j..], tokens[1..]);
      if tokens[0].Value? {
        SpellingStops(s[j..], tokens[1..]);
      }
      TokenComplete(s[i..j], tokens[0], s[j..]);
      LexMatched(s[i..j], s[j..], tokens[0]);
      BlankSkipped(s[..i], s[i..j] + s[j..]);
      CutTwice(s, i, j);
      assert tokens == [tokens[0]] + tokens[1..];
    }
  }

  // A tree's tokens stand apart.
  lemma {:induction false} TreeTokensApart(t: Tree)
    ensures Apart(TreeTokens(t))
    ensures TreeTokens(t) != [] && (t.Leaf? || !TreeTokens(t)[|TreeTokens(t)| - 1].Value?)
    decreases t
  {
    match t
    case Leaf(_) =>
    case Arr(items) =>
      ItemTokensApart(items);
      ApartBracketed(OpenSquare, ItemTokens(items), CloseSquare);
    case Obj(members) =>
      MemberTokensApart(members);
      ApartBracketed(OpenBrace, MemberTokens(members), CloseBrace);
  }

  lemma ApartBracketed(open: Token, middle: seq<Token>, close: Token)
    requires Apart(middle) && !open.Value? && !close.Value?
    ensures Apart([open] + middle + [close])
    ensures var s := [open] + middle + [close]; s != [] && s[|s| - 1] == close
  {
  }

  lemma ApartJoined(a: seq<Token>, separator: Token, b: seq<Token>)
    requires Apart(a) && Apart(b) && !separator.Value?
    ensures Apart(a + ([separator] + b))
  {
  }

  lemma {:induction false} ItemTokensApart(items: seq<Tree>)
    ensures Apart(ItemTokens(items))
    decreases items
  {
    if items != [] {
      TreeTokensApart(items[0]);
      hide Apart;
      if |items| == 1 {
        Padded(TreeTokens(items[0]));
      } else {
        ItemTokensApart(items[1..]);
        ApartJoined(TreeTokens(items[0]), Token.Comma, ItemTokens(items[1..]));
      }
    }
  }

  lemma {:induction false} MemberTokensApart(members: seq<Member>)
    ensures Apart(MemberTokens(members))
    decreases members
  {
    if members != [] {
      var key := Value(Str(members[0].name));
      TreeTokensApart(members[0].value);
      ApartKey(key, TreeTokens(members[0].value));
      var pair := [key, Token.Colon] + TreeTokens(members[0].value);
      hide Apart;
      if |members| == 1 {
        Padded(pair);
      } else {
        MemberTokensApart(members[1..]);
        ApartJoined(pair, Token.Comma, MemberTokens(members[1..]));
      }
    }
  }

  lemma ApartKey(key: Token, tokens: seq<Token>)
    requires Apart(tokens)
    ensures Apart([key, Token.Colon] + tokens)
  {
  }

  // A line is a record of tree t exactly when it is a JSON text of t.
  lemma RecordsAreJson(line: Text, t: Tree)
    ensures Spells(line, t) <==> IsJsonText(line, t)
  {
    TreeTokensOneLine(t);
    TreeTokensApart(t);
    hide Lex, Spelling, TreeTokens, Apart;
    if Spells(line, t) {
      LexedIsSpelled(line);
    }
    if IsJsonText(line, t) {
      SpelledIsLexed(line, TreeTokens(t));
    }
  }

  ghost predicate AllJson(lines: seq<Text>, items: seq<Tree>) {
    |lines| == |items| && forall i :: 0 <= i < |lines| ==> IsJsonText(lines[i], items[i])
  }

  // JSON Lines in RFC 8259's terms: a source that is not empty reads to items
  // exactly when its non-blank lines are JSON texts of those items, in order.
  lemma ReadsJsonLines(src: Text, items: seq<Tree>)
    requires src != []
    ensures Read(src) == Some(items) <==> AllJson(Records(src), items)
  {
    var lines := Records(src);
    RefinesLineSplitting(src);
    hide Read, Parse, Spells, IsJsonText, Records, IsRecord;
    forall i | 0 <= i < |lines| && i < |items|
      ensures Spells(lines[i], items[i]) <==> IsJsonText(lines[i], items[i])
    {
      RecordsAreJson(lines[i], items[i]);
    }
    assert SpellAll(lines, items) <==> AllJson(lines, items);
    if SpellAll(lines, items) {
      SpelledAreRecords(lines, items);
      SameValues(lines, items, Read(src).value);
    }
  }
}
