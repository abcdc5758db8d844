// Text, tree, events, text: what the render writes the reader reads back.

module RoundTrip {
  import opened Options
  import opened Text
  import opened Trees
  import opened Render
  import opened RenderProofs
  import opened RenderTheorems
  import opened Lexer
  import opened LexerProofs
  import opened Grammar
  import opened Descent
  import opened Transduce
  import opened Documents
  import opened DocumentLines
  import opened Sources
  import opened ErrorPlaces

  // Strings.

  lemma QuotedUnitRead(c: Unit, rest: Text)
    ensures CharAt(QuotedUnit(c) + rest) == (c, |QuotedUnit(c)|)
  {
    var q := QuotedUnit(c);
    assert forall k :: 0 <= k < |q| ==> (q + rest)[k] == q[k];
    if c < 0x20 && c != QUOTE && c != BACKSLASH {
      assert HexValue(HexDigit(c / 16)) == c / 16;
      assert HexValue(HexDigit(c % 16)) == c % 16;
      assert HexValue(ZERO) == 0;
    }
  }

  lemma StringRestUnit(c: Unit, more: Text)
    ensures StringRest(QuotedUnit(c) + more) == Prepend(c, |QuotedUnit(c)|, StringRest(more))
  {
    var q := QuotedUnit(c);
    QuotedUnitRead(c, more);
    assert (q + more)[|q|..] == more;
    assert (q + more)[0] == q[0] != QUOTE;
    hide CharAt, QuotedUnit, Prepend;
  }

  lemma {:induction false} QuotedBodyRead(s: Text, rest: Text)
    ensures StringRest(QuotedBody(s) + ([QUOTE] + rest)) == Some((s, |QuotedBody(s)| + 1))
  {
    if s == [] {
      Padded([QUOTE] + rest);
    } else {
      hide StringRest, QuotedUnit, CharAt;
      QuotedBodyRead(s[1..], rest);
      StringRestUnit(s[0], QuotedBody(s[1..]) + ([QUOTE] + rest));
      Assoc(QuotedUnit(s[0]), QuotedBody(s[1..]), [QUOTE] + rest);
      assert s == [s[0]] + s[1..];
    }
  }

  lemma QuotedLexed(s: Text, rest: Text)
    ensures Next(Quoted(s) + rest) == Match(Some(Value(Str(s))), |Quoted(s)|)
  {
    hide StringRest, QuotedBody;
    QuotedBodyRead(s, rest);
    assert Quoted(s) + rest == [QUOTE] + (QuotedBody(s) + ([QUOTE] + rest));
    Front(QUOTE, QuotedBody(s) + ([QUOTE] + rest));
  }

  // Numbers.

  lemma {:induction false} DigitsRun(s: Text, rest: Text)
    requires forall k :: 0 <= k < |s| ==> IsDigit(s[k])
    requires rest == [] || !IsDigit(rest[0])
    ensures DigitRun(s + rest) == |s|
  {
    if s == [] {
      Padded(rest);
    } else {
      assert s + rest == [s[0]] + (s[1..] + rest);
      Front(s[0], s[1..] + rest);
      DigitsRun(s[1..], rest);
    }
  }

  lemma WholeRead(whole: Text, rest: Text)
    requires IntPart(whole) && (rest == [] || !IsDigit(rest[0]))
    ensures WholeSize(whole + rest) == |whole|
  {
    DigitsRun(whole, rest);
    assert (whole + rest)[0] == whole[0];
  }

  lemma FracRead(frac: Text, rest: Text)
    requires FracPart(frac) && (rest == [] || (!IsDigit(rest[0]) && rest[0] != DOT))
    ensures FracSize(frac + rest) == |frac|
  {
    if frac == [] {
      Padded(rest);
    } else {
      DropCat(frac, rest, 1);
      DigitsRun(frac[1..], rest);
      assert (frac + rest)[0] == DOT;
    }
  }

  lemma ExpRead(exp: Text)
    requires ExpPart(exp)
    ensures ExpSize(exp) == |exp|
  {
    if exp != [] {
      if |exp| >= 2 && (exp[1] == PLUS || exp[1] == MINUS) {
        assert !Digits(exp[1..]) by { assert exp[1..][0] == exp[1]; }
        DigitsRun(exp[2..], []);
        Padded(exp[2..]);
      } else {
        DigitsRun(exp[1..], []);
        Padded(exp[1..]);
      }
    }
  }

  lemma UnsignedRead(s: Text)
    requires IsUnsigned(s)
    ensures UnsignedSize(s) == |s| && s != [] && IsDigit(s[0])
  {
    var whole, frac, exp :| UnsignedParts(s, whole, frac, exp);
    Assoc(whole, frac, exp);
    assert frac + exp != [] ==> (frac + exp)[0] == if frac != [] then DOT else exp[0];
    WholeRead(whole, frac + exp);
    FracRead(frac, exp);
    ExpRead(exp);
    assert s[|whole|..] == frac + exp;
    assert s[|whole| + |frac|..] == exp;
    assert s[0] == whole[0];
    hide WholeSize, FracSize, ExpSize;
  }

  lemma NumberRead(s: Text)
    requires IsNumber(s)
    ensures NumberSize(s) == |s| && s != [] && (IsDigit(s[0]) || s[0] == MINUS)
  {
    hide UnsignedSize;
    if IsUnsigned(s) {
      UnsignedRead(s);
    } else {
      UnsignedRead(s[1..]);
    }
  }

  lemma NumberLexed(lexeme: Lexeme, rest: Text)
    requires Stops(rest)
    ensures Next(lexeme + rest) == Match(Some(Value(Num(Finite(lexeme)))), |lexeme|)
  {
    hide NumberSize, IsNumber;
    NumberRead(lexeme);
    NumberSizeStops(lexeme, rest);
    assert (lexeme + rest)[0] == lexeme[0];
    assert (lexeme + rest)[..|lexeme|] == lexeme;
    NotAWord(lexeme + rest);
  }

  lemma NotAWord(s: Text)
    requires s != [] && s[0] < 0x40
    ensures !StartsWith(s, NULL_WORD) && !StartsWith(s, TRUE_WORD) && !StartsWith(s, FALSE_WORD)
  {
    assert |s| >= 4 ==> s[..4][0] == s[0];
    assert |s| >= 5 ==> s[..5][0] == s[0];
  }

  lemma WordStarts(word: Text, rest: Text)
    ensures StartsWith(word + rest, word)
  {
    assert (word + rest)[..|word|] == word;
  }

  lemma NoOtherWord(s: Text)
    ensures StartsWith(s, NULL_WORD) ==> s != [] && s[0] == 0x6E
    ensures StartsWith(s, TRUE_WORD) ==> s != [] && s[0] == 0x74
    ensures StartsWith(s, FALSE_WORD) ==> s != [] && s[0] == 0x66
  {
    assert |s| >= 4 ==> s[..4][0] == s[0];
    assert |s| >= 5 ==> s[..5][0] == s[0];
  }

  lemma WordsLexed(rest: Text)
    ensures Next(NULL_WORD + rest) == Match(Some(Value(Null)), |NULL_WORD|)
    ensures Next(TRUE_WORD + rest) == Match(Some(Value(Bool(true))), |TRUE_WORD|)
    ensures Next(FALSE_WORD + rest) == Match(Some(Value(Bool(false))), |FALSE_WORD|)
  {
    WordStarts(NULL_WORD, rest);
    WordStarts(TRUE_WORD, rest);
    WordStarts(FALSE_WORD, rest);
    NoOtherWord(NULL_WORD + rest);
    NoOtherWord(TRUE_WORD + rest);
    NoOtherWord(FALSE_WORD + rest);
    hide StartsWith, NumberMatch, StringRest;
  }

  // What a scalar reads back as.
  function ReadableScalar(scalar: Scalar): Scalar {
    match scalar case Num(NonFinite) => Null case _ => scalar
  }

  lemma ScalarLexed(scalar: Scalar, rest: Text)
    requires Stops(rest)
    ensures Next(PrintScalar(scalar) + rest) == Match(Some(Value(ReadableScalar(scalar))), |PrintScalar(scalar)|)
    ensures PrintScalar(scalar) != []
  {
    hide Next, Quoted;
    WordsLexed(rest);
    match scalar
    case Num(Finite(lexeme)) =>
      NumberLexed(lexeme, rest);
      NumberRead(lexeme);
    case Str(s) =>
      QuotedLexed(s, rest);
      QuotedNotEmpty(s);
    case _ =>
  }

  lemma QuotedNotEmpty(s: Text)
    ensures Quoted(s) != []
  {
  }

  // A match at the front of a text, and the rest.
  lemma LexMatched(text: Text, rest: Text, token: Token)
    requires text != [] && Next(text + rest) == Match(Some(token), |text|)
    ensures Lex(text + rest) == [token] + Lex(rest)
  {
    hide Next;
    assert (text + rest)[|text|..] == rest;
  }

  lemma NextMark(c: Unit, rest: Text)
    ensures c == BRACE_OPEN ==> Next([c] + rest) == One(OpenBrace)
    ensures c == BRACE_CLOSE ==> Next([c] + rest) == One(CloseBrace)
    ensures c == BRACKET_OPEN ==> Next([c] + rest) == One(OpenSquare)
    ensures c == BRACKET_CLOSE ==> Next([c] + rest) == One(CloseSquare)
    ensures c == COLON ==> Next([c] + rest) == One(Token.Colon)
    ensures c == COMMA ==> Next([c] + rest) == One(Token.Comma)
  {
    hide StringRest, NumberMatch, StartsWith;
    Front(c, rest);
  }

  lemma Punctuation(c: Unit, rest: Text)
    ensures c == BRACE_OPEN ==> Lex([c] + rest) == [OpenBrace] + Lex(rest)
    ensures c == BRACE_CLOSE ==> Lex([c] + rest) == [CloseBrace] + Lex(rest)
    ensures c == BRACKET_OPEN ==> Lex([c] + rest) == [OpenSquare] + Lex(rest)
    ensures c == BRACKET_CLOSE ==> Lex([c] + rest) == [CloseSquare] + Lex(rest)
    ensures c == COLON ==> Lex([c] + rest) == [Token.Colon] + Lex(rest)
    ensures c == COMMA ==> Lex([c] + rest) == [Token.Comma] + Lex(rest)
  {
    hide Next;
    Front(c, rest);
    NextMark(c, rest);
  }

  // The front of a print.
  lemma {:induction false} PrintItemsFront(items: seq<Tree>)
    requires items != []
    ensures PrintItems(items) == Print(items[0]) + (if |items| == 1 then [] else [COMMA] + PrintItems(items[1..]))
  {
    var front, last := items[..|items| - 1], items[|items| - 1];
    if |items| == 1 {
      assert front == [];
      Padded(Print(last));
      Padded([] + Print(last));
    } else {
      PrintItemsFront(front);
      assert items[1..][..|items| - 2] == front[1..];
      var first, tail := Print(items[0]), Print(last);
      if |items| == 2 {
        Padded(first);
        Padded(tail);
        Assoc(first, [COMMA], tail);
      } else {
        Assoc(first, [COMMA] + PrintItems(front[1..]), [COMMA]);
        Assoc([COMMA], PrintItems(front[1..]), [COMMA]);
        Assoc(first, [COMMA] + (PrintItems(front[1..]) + [COMMA]), tail);
        Assoc([COMMA], PrintItems(front[1..]) + [COMMA], tail);
      }
    }
  }

  function PrintPair(m: Member): Text {
    Quoted(m.name) + [COLON] + Print(m.value)
  }

  lemma PrintMembersLast(members: seq<Member>)
    requires members != []
    ensures var front := members[..|members| - 1];
            PrintMembers(members) == PrintMembers(front) + (if front == [] then [] else [COMMA]) + PrintPair(members[|members| - 1])
  {
    var front, last := members[..|members| - 1], members[|members| - 1];
    var lead := PrintMembers(front) + (if front == [] then [] else [COMMA]);
    Assoc(lead, Quoted(last.name), [COLON]);
    Assoc(lead, Quoted(last.name) + [COLON], Print(last.value));
  }

  lemma {:induction false} PrintMembersFront(members: seq<Member>)
    requires members != []
    ensures PrintMembers(members) ==
            PrintPair(members[0]) + (if |members| == 1 then [] else [COMMA] + PrintMembers(members[1..]))
  {
    var front, last := members[..|members| - 1], members[|members| - 1];
    PrintMembersLast(members);
    if |members| == 1 {
      assert front == [];
      assert PrintMembers([]) == [];
      Padded(PrintPair(last));
      Padded([] + PrintPair(last));
    } else {
      PrintMembersFront(front);
      PrintMembersLast(members[1..]);
      assert members[1..][..|members| - 2] == front[1..];
      assert PrintMembers([]) == [];
      hide PrintMembers, PrintPair;
      var first, tail := PrintPair(members[0]), PrintPair(last);
      if |members| == 2 {
        assert front[1..] == [];
        Padded(first);
        Padded(tail);
        Padded([] + tail);
        Assoc(first, [COMMA], tail);
      } else {
        Assoc(first, [COMMA] + PrintMembers(front[1..]), [COMMA]);
        Assoc([COMMA], PrintMembers(front[1..]), [COMMA]);
        Assoc(first, [COMMA] + (PrintMembers(front[1..]) + [COMMA]), tail);
        Assoc([COMMA], PrintMembers(front[1..]) + [COMMA], tail);
      }
    }
  }

  lemma {:induction false} ReadableItemsFront(items: seq<Tree>)
    requires items != []
    ensures ReadableItems(items) == [Readable(items[0])] + ReadableItems(items[1..])
  {
    var front, last := items[..|items| - 1], items[|items| - 1];
    if |items| == 1 {
      assert front == [] && items[1..] == [];
      Padded([Readable(last)]);
    } else {
      ReadableItemsFront(front);
      assert items[1..][..|items| - 2] == front[1..];
      Assoc([Readable(items[0])], ReadableItems(front[1..]), [Readable(last)]);
    }
  }

  lemma {:induction false} ReadableMembersFront(members: seq<Member>)
    requires members != []
    ensures ReadableMembers(members) ==
            [Member(members[0].name, Readable(members[0].value))] + ReadableMembers(members[1..])
  {
    var front, last := members[..|members| - 1], members[|members| - 1];
    var first, final := Member(members[0].name, Readable(members[0].value)), Member(last.name, Readable(last.value));
    if |members| == 1 {
      assert front == [] && members[1..] == [];
      Padded([final]);
    } else {
      ReadableMembersFront(front);
      assert members[1..][..|members| - 2] == front[1..];
      Assoc([first], ReadableMembers(front[1..]), [final]);
    }
  }

  // The print of a tree lexes to the tokens of the tree it reads back as.
  lemma {:induction false} PrintLexed(t: Tree, rest: Text)
    requires Stops(rest)
    ensures Lex(Print(t) + rest) == TreeTokens(Readable(t)) + Lex(rest)
    decreases t
  {
    match t
    case Leaf(scalar) =>
      ScalarLexed(scalar, rest);
      hide Next, Lex, PrintScalar;
      LexMatched(PrintScalar(scalar), rest, Value(ReadableScalar(scalar)));
    case Arr(items) =>
      hide Lex, TreeTokens, ItemTokens;
      ItemsLexed(items, [BRACKET_CLOSE] + rest);
      Punctuation(BRACKET_CLOSE, rest);
      ArrLexed(items, rest);
    case Obj(members) =>
      hide Lex, TreeTokens, MemberTokens;
      MembersLexed(members, [BRACE_CLOSE] + rest);
      Punctuation(BRACE_CLOSE, rest);
      ObjLexed(members, rest);
  }

  lemma ArrLexed(items: seq<Tree>, rest: Text)
    ensures Lex(PrintItems(items) + ([BRACKET_CLOSE] + rest)) == ItemTokens(ReadableItems(items)) + ([CloseSquare] + Lex(rest)) ==>
              Lex(Print(Arr(items)) + rest) == TreeTokens(Readable(Arr(items))) + Lex(rest)
  {
    hide Lex, PrintItems, ItemTokens;
    Enclosed(BRACKET_OPEN, PrintItems(items), BRACKET_CLOSE, rest);
    Enclosed(OpenSquare, ItemTokens(ReadableItems(items)), CloseSquare, Lex(rest));
    Punctuation(BRACKET_OPEN, PrintItems(items) + ([BRACKET_CLOSE] + rest));
  }

  lemma ObjLexed(members: seq<Member>, rest: Text)
    ensures Lex(PrintMembers(members) + ([BRACE_CLOSE] + rest)) ==
            MemberTokens(ReadableMembers(members)) + ([CloseBrace] + Lex(rest)) ==>
              Lex(Print(Obj(members)) + rest) == TreeTokens(Readable(Obj(members))) + Lex(rest)
  {
    hide Lex, PrintMembers, MemberTokens;
    Enclosed(BRACE_OPEN, PrintMembers(members), BRACE_CLOSE, rest);
    Enclosed(OpenBrace, MemberTokens(ReadableMembers(members)), CloseBrace, Lex(rest));
    Punctuation(BRACE_OPEN, PrintMembers(members) + ([BRACE_CLOSE] + rest));
  }

  lemma Enclosed<T>(open: T, middle: seq<T>, close: T, rest: seq<T>)
    ensures [open] + middle + [close] + rest == [open] + (middle + ([close] + rest))
  {
  }

  lemma {:induction false} ItemsLexed(items: seq<Tree>, rest: Text)
    requires Stops(rest)
    ensures Lex(PrintItems(items) + rest) == ItemTokens(ReadableItems(items)) + Lex(rest)
    decreases items
  {
    if items == [] {
      Padded(rest);
      Padded(Lex(rest));
    } else {
      var t, more := items[0], items[1..];
      PrintItemsFront(items);
      ReadableItemsFront(items);
      Front(Readable(t), ReadableItems(more));
      hide Lex, PrintItems, Print, TreeTokens, Readable, ReadableItems;
      if |items| == 1 {
        PrintLexed(t, rest);
        Padded(Print(t));
        Padded(TreeTokens(Readable(t)));
      } else {
        var rest' := PrintItems(more) + rest;
        ItemsLexed(more, rest);
        Punctuation(COMMA, rest');
        PrintLexed(t, [COMMA] + rest');
        assert ItemTokens(ReadableItems(items)) == TreeTokens(Readable(t)) + ([Token.Comma] + ItemTokens(ReadableItems(more)));
        hide ItemTokens;
        Assoc([COMMA], PrintItems(more), rest);
        Assoc(Print(t), [COMMA] + PrintItems(more), rest);
        Assoc([Token.Comma], ItemTokens(ReadableItems(more)), Lex(rest));
        Assoc(TreeTokens(Readable(t)), [Token.Comma] + ItemTokens(ReadableItems(more)), Lex(rest));
      }
    }
  }

  function PairTokens(m: Member): seq<Token> {
    [Value(Str(m.name)), Token.Colon] + TreeTokens(m.value)
  }

  lemma {:induction false} PairLexed(m: Member, rest: Text)
    requires Stops(rest)
    ensures Lex(PrintPair(m) + rest) == PairTokens(Member(m.name, Readable(m.value))) + Lex(rest)
    decreases m, 1
  {
    hide Lex, Next, Print, TreeTokens, Readable, Quoted;
    var tail := Print(m.value) + rest;
    PrintLexed(m.value, rest);
    Punctuation(COLON, tail);
    QuotedLexed(m.name, [COLON] + tail);
    QuotedNotEmpty(m.name);
    LexMatched(Quoted(m.name), [COLON] + tail, Value(Str(m.name)));
    Assoc(Quoted(m.name), [COLON], Print(m.value));
    Assoc(Quoted(m.name), [COLON] + Print(m.value), rest);
    Assoc([COLON], Print(m.value), rest);
    assert [Value(Str(m.name))] + ([Token.Colon] + (TreeTokens(Readable(m.value)) + Lex(rest))) ==
           [Value(Str(m.name)), Token.Colon] + TreeTokens(Readable(m.value)) + Lex(rest);
  }

  lemma {:induction false} MembersLexed(members: seq<Member>, rest: Text)
    requires Stops(rest)
    ensures Lex(PrintMembers(members) + rest) == MemberTokens(ReadableMembers(members)) + Lex(rest)
    decreases members
  {
    if members == [] {
      Padded(rest);
      Padded(Lex(rest));
    } else {
      var m, more := members[0], members[1..];
      var m' := Member(m.name, Readable(m.value));
      PrintMembersFront(members);
      ReadableMembersFront(members);
      Front(m', ReadableMembers(more));
      hide Lex, PrintMembers, PrintPair, TreeTokens, Readable, ReadableMembers;
      if |members| == 1 {
        PairLexed(m, rest);
        Padded(PrintPair(m));
        Padded(PairTokens(m'));
      } else {
        var rest' := PrintMembers(more) + rest;
        MembersLexed(more, rest);
        Punctuation(COMMA, rest');
        PairLexed(m, [COMMA] + rest');
        assert MemberTokens(ReadableMembers(members)) == PairTokens(m') + ([Token.Comma] + MemberTokens(ReadableMembers(more)));
        hide MemberTokens, PairTokens;
        Assoc([COMMA], PrintMembers(more), rest);
        Assoc(PrintPair(m), [COMMA] + PrintMembers(more), rest);
        Assoc([Token.Comma], MemberTokens(ReadableMembers(more)), Lex(rest));
        Assoc(PairTokens(m'), [Token.Comma] + MemberTokens(ReadableMembers(more)), Lex(rest));
      }
    }
  }

  lemma OneLineJoin(s: Text, n: nat)
    requires n <= |s| && OneLine(s[..n]) && OneLine(s[n..])
    ensures OneLine(s)
  {
    assert s == s[..n] + s[n..];
  }

  lemma OneLineMatch(s: Text)
    requires s != [] && Next(s).token != Some(Line)
    ensures OneLine(s[..Next(s).size])
  {
    NextWithinLine(s);
    var n, m := Next(s).size, LineEnd(s);
    hide Next;
    assert forall k :: 0 <= k < n ==> s[..n][k] == s[..m][k];
  }

  // A text without a #LN has no line character: no token hides one.
  lemma {:induction false} OneLineOfLex(s: Text)
    requires Line !in Lex(s)
    ensures OneLine(s)
    decreases |s|
  {
    if s != [] {
      hide Next;
      OneLineMatch(s);
      OneLineOfLex(s[Next(s).size..]);
      OneLineJoin(s, Next(s).size);
    }
  }

  // An element's print is one line that spells what the element reads back as.
  lemma PrintIsLine(t: Tree)
    ensures OneLine(Print(t)) && !Blank(Print(t)) && Spells(Print(t), Readable(t))
  {
    hide Print;
    PrintLexed(t, []);
    Padded(Print(t));
    Padded(TreeTokens(Readable(t)));
    TreeTokensOneLine(Readable(t));
    TreeTokensStart(Readable(t));
    hide Lex, TreeTokens;
    OneLineOfLex(Print(t));
    BlankLex(Print(t));
  }

  lemma RecordsOfNone()
    ensures Records([]) == []
  {
    assert Lines([]) == [[]];
    NonBlankOne([]);
  }

  lemma RecordsOfLine(line: Text)
    requires OneLine(line) && !Blank(line)
    ensures Records(line) == [line]
  {
    LineEndIs(line, |line|);
    assert line[..|line|] == line;
    assert Lines(line) == [line];
    NonBlankOne(line);
  }

  // The printed lines are the records.
  lemma {:induction false} PrintedRecords(items: seq<Tree>)
    ensures SpellAll(Records(PrintLines(items)), ReadableItems(items))
    ensures items != [] ==> exists s :: PrintLines(items) == s + [LF]
  {
    if items == [] {
      RecordsOfNone();
    } else {
      var front, last := items[..|items| - 1], items[|items| - 1];
      PrintedRecords(front);
      PrintIsLine(last);
      RecordsOfLine(Print(last));
      hide Print, Records, Lex, Readable;
      RecordsAfterLines(front, Print(last));
      RecordsOfNone();
      RecordsOfJoin(PrintLines(front) + Print(last), LF, []);
      Padded(PrintLines(front) + Print(last) + [LF]);
      Padded(Records(PrintLines(front) + Print(last)));
      SpellOne(Print(last), Readable(last));
      JoinedValues(Records(PrintLines(front)), ReadableItems(front), [Print(last)], [Readable(last)]);
    }
  }

  lemma SpellOne(line: Text, t: Tree)
    requires Spells(line, t)
    ensures SpellAll([line], [t])
  {
    hide Spells;
  }

  lemma RecordsAfterLines(items: seq<Tree>, line: Text)
    requires items != [] ==> exists s :: PrintLines(items) == s + [LF]
    ensures Records(PrintLines(items) + line) == Records(PrintLines(items)) + Records(line)
  {
    hide Records;
    RecordsOfNone();
    if items == [] {
      Padded(line);
      Padded(Records(line));
    } else {
      hide PrintLines;
      var s :| PrintLines(items) == s + [LF];
      RecordsOfJoin(s, LF, line);
      RecordsOfJoin(s, LF, []);
      Padded(s + [LF]);
      Padded(Records(s));
    }
  }

  // Round trip: the text rendered from any array-rooted tree reads back as
  // its elements, with every number that is not finite null; the empty array
  // goes through a lone line feed to the empty array.
  lemma RenderThenRead(items: seq<Tree>)
    ensures RenderEvents(Linear(Arr(items))).Document?
    ensures Read(RenderEvents(Linear(Arr(items))).text) == Some(ReadableItems(items))
  {
    hide RenderEvents, Records, PrintLines, Parse;
    TreesRender(items);
    var text := PrintDocument(items);
    PrintedRecords(items);
    if items == [] {
      NoRecords([LF]);
    } else {
      var s :| PrintLines(items) == s + [LF];
    }
    assert SpellAll(Records(text), ReadableItems(items));
    RefinesLineSplitting(text);
    SpelledAreRecords(Records(text), ReadableItems(items));
    SameValues(Records(text), ReadableItems(items), Read(text).value);
  }

  lemma SpelledAreRecords(lines: seq<Text>, items: seq<Tree>)
    requires SpellAll(lines, items)
    ensures AllRecords(lines)
  {
    hide Spells, IsRecord;
    forall i | 0 <= i < |lines|
      ensures IsRecord(lines[i])
    {
      SpelledIsRecord(lines[i], items[i]);
    }
  }

  // What the reader gives back has no number that is not finite.
  predicate FiniteToken(token: Token) {
    token != Value(Num(NonFinite))
  }

  lemma {:induction false} LexedFinite(s: Text)
    ensures forall token :: token in Lex(s) ==> FiniteToken(token)
    decreases |s|
  {
    if s != [] {
      assert Next(s).token.Some? ==> FiniteToken(Next(s).token.value);
      hide Next;
      LexedFinite(s[Next(s).size..]);
    }
  }

  lemma {:induction false} FiniteReadable(t: Tree)
    requires forall token :: token in TreeTokens(t) ==> FiniteToken(token)
    ensures Readable(t) == t
    decreases t
  {
    match t
    case Leaf(scalar) => assert Value(scalar) in TreeTokens(t);
    case Arr(items) =>
      assert forall token :: token in ItemTokens(items) ==> token in TreeTokens(t);
      FiniteItems(items);
    case Obj(members) =>
      assert forall token :: token in MemberTokens(members) ==> token in TreeTokens(t);
      FiniteMembers(members);
  }

  lemma {:induction false} FiniteItems(items: seq<Tree>)
    requires forall token :: token in ItemTokens(items) ==> FiniteToken(token)
    ensures ReadableItems(items) == items
    decreases items
  {
    if items != [] {
      ReadableItemsFront(items);
      FiniteReadable(items[0]);
      FiniteItems(items[1..]);
      assert items == [items[0]] + items[1..];
    }
  }

  lemma {:induction false} FiniteMembers(members: seq<Member>)
    requires forall token :: token in MemberTokens(members) ==> FiniteToken(token)
    ensures ReadableMembers(members) == members
    decreases members
  {
    if members != [] {
      ReadableMembersFront(members);
      FiniteReadable(members[0].value);
      FiniteMembers(members[1..]);
      assert members == [Member(members[0].name, members[0].value)] + members[1..];
    }
  }

  // The diagram closes: a source's records, streamed through the transducer
  // into the render, make a document that reads back as the same records.
  lemma ReadThenRender(src: Text)
    requires Read(src).Some?
    ensures Parse(src).Accepted?
    ensures Events(Parse(src).log) == Linear(Arr(Read(src).value))
    ensures RenderEvents(Events(Parse(src).log)) == Document(PrintDocument(Read(src).value))
    ensures Read(PrintDocument(Read(src).value)) == Read(src)
  {
    var items := Read(src).value;
    DocumentRuns(Lex(src));
    TreesRender(items);
    RenderThenRead(items);
    RefinesLineSplitting(src);
    hide Lex, TreeTokens, RenderEvents, Events, Read, Parse;
    forall i | 0 <= i < |items|
      ensures Readable(items[i]) == items[i]
    {
      LexedFinite(Records(src)[i]);
      assert Spells(Records(src)[i], items[i]);
      FiniteReadable(items[i]);
    }
    ReadableEach(items);
  }

  lemma {:induction false} ReadableEach(items: seq<Tree>)
    requires forall i :: 0 <= i < |items| ==> Readable(items[i]) == items[i]
    ensures ReadableItems(items) == items
  {
    if items != [] {
      ReadableEach(items[..|items| - 1]);
      assert items == items[..|items| - 1] + [items[|items| - 1]];
    }
  }
}
