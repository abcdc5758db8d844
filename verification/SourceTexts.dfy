// Sources character by character: words, numbers, escapes and punctuation by
// their codes, and whole sources as they are written.

module SourceTexts {
  import opened Options
  import opened Text
  import opened Trees
  import opened Lexer
  import opened LexerProofs
  import opened Descent
  import opened Sources
  import opened ErrorPlaces
  import opened RoundTrip
  import opened JsonText
  import opened LineEndings

  // A token as it is written.
  datatype Piece = Piece(text: Text, token: Token)

  function TextOf(pieces: seq<Piece>): Text {
    if pieces == [] then [] else pieces[0].text + TextOf(pieces[1..])
  }

  function TokensOf(pieces: seq<Piece>): (r: seq<Token>)
    ensures |r| == |pieces| && forall i :: 0 <= i < |r| ==> r[i] == pieces[i].token
  {
    if pieces == [] then [] else [pieces[0].token] + TokensOf(pieces[1..])
  }

  ghost predicate AllSpelled(pieces: seq<Piece>) {
    forall i :: 0 <= i < |pieces| ==> pieces[i].text != [] && TokenSpelling(pieces[i].text, pieces[i].token)
  }

  lemma {:induction false} PiecesSpell(pieces: seq<Piece>)
    requires AllSpelled(pieces)
    ensures Spelling(TextOf(pieces), TokensOf(pieces))
  {
    hide TokenSpelling;
    if pieces != [] {
      var first, rest := pieces[0].text, TextOf(pieces[1..]);
      PiecesSpell(pieces[1..]);
      assert (first + rest)[..|first|] == first && (first + rest)[|first|..] == rest;
      Front(pieces[0].token, TokensOf(pieces[1..]));
      SpelledFront(first + rest, |first|, pieces[0].token, TokensOf(pieces[1..]));
    }
  }

  // A line of pieces that are a tree's tokens reads as that tree.
  lemma PiecesRead(pieces: seq<Piece>, t: Tree)
    requires AllSpelled(pieces) && TokensOf(pieces) == TreeTokens(t) && OneLine(TextOf(pieces))
    ensures Read(TextOf(pieces)) == Some([t])
  {
    hide TokenSpelling, Spelling, Read, Lex, TreeTokens, OneLine;
    PiecesSpell(pieces);
    TreeTokensApart(t);
    SpelledIsLexed(TextOf(pieces), TokensOf(pieces));
    hide Apart;
    FilledLine(TextOf(pieces), t);
    SpelledAlone(TextOf(pieces), t);
  }

  lemma FilledLine(line: Text, t: Tree)
    requires Lex(line) == TreeTokens(t)
    ensures !Blank(line)
  {
    hide TreeTokens, Lex;
    TreeTokensApart(t);
    if Blank(line) {
      BlankSkipped(line, []);
      Padded(line);
      LexNothing();
    }
  }

  lemma LexNothing()
    ensures Lex([]) == []
  {
  }

  // --- Words and punctuation ---

  lemma NullReads()
    ensures Read(Ascii("null")) == Some([Leaf(Null)])
  {
    hide Read;
    WordCodes();
    WordAlone(NULL_WORD, Null);
  }

  lemma TrueReads()
    ensures Read(Ascii("true")) == Some([Leaf(Bool(true))])
  {
    hide Read;
    WordCodes();
    WordAlone(TRUE_WORD, Bool(true));
  }

  lemma FalseReads()
    ensures Read(Ascii("false")) == Some([Leaf(Bool(false))])
  {
    hide Read;
    WordCodes();
    WordAlone(FALSE_WORD, Bool(false));
  }

  lemma WordCodes()
    ensures Ascii("null") == NULL_WORD && Ascii("true") == TRUE_WORD && Ascii("false") == FALSE_WORD
  {
  }

  // --- Numbers ---

  predicate DigitCodes(s: Text) {
    forall k :: 0 <= k < |s| ==> '0' as int <= s[k] <= '9' as int
  }

  // Section 6 of RFC 8259, by character: an optional minus sign; zero, or
  // digits that do not begin with one; and perhaps a point and digits, and an
  // e or E, a sign and digits.
  ghost predicate NumberParts(s: Text, minus: Text, whole: Text, frac: Text, exp: Text) {
    && s == minus + whole + frac + exp
    && (minus == [] || minus == Ascii("-"))
    && whole != [] && DigitCodes(whole) && (whole[0] == '0' as int ==> |whole| == 1)
    && (frac == [] || (|frac| > 1 && frac[0] == '.' as int && DigitCodes(frac[1..])))
    && (exp == [] || ExpCodes(exp))
  }

  predicate ExpCodes(exp: Text) {
    && |exp| > 1 && (exp[0] == 'e' as int || exp[0] == 'E' as int)
    && if exp[1] == '+' as int || exp[1] == '-' as int then |exp| > 2 && DigitCodes(exp[2..]) else DigitCodes(exp[1..])
  }

  ghost predicate NumberCodes(s: Text) {
    exists minus, whole, frac, exp :: NumberParts(s, minus, whole, frac, exp)
  }

  lemma PartCodes(whole: Text, frac: Text, exp: Text)
    ensures IntPart(whole) <==> whole != [] && DigitCodes(whole) && (whole[0] == '0' as int ==> |whole| == 1)
    ensures FracPart(frac) <==> frac == [] || (|frac| > 1 && frac[0] == '.' as int && DigitCodes(frac[1..]))
    ensures ExpPart(exp) <==> exp == [] || ExpCodes(exp)
  {
    if |exp| > 1 && (exp[1] == PLUS || exp[1] == MINUS) {
      assert exp[1..][0] == exp[1];
      assert !Digits(exp[1..]);
    }
  }

  lemma NumbersExactly(s: Text)
    ensures IsNumber(s) <==> NumberCodes(s)
    ensures IsNumber(s) ==> Read(s) == Some([Leaf(Num(Finite(s)))])
  {
    hide Read;
    if IsNumber(s) {
      NumberHasCodes(s);
      NumberAlone(s);
    }
    if NumberCodes(s) {
      CodesAreNumber(s);
    }
  }

  lemma NumberHasCodes(s: Text)
    requires IsNumber(s)
    ensures NumberCodes(s)
  {
    hide IntPart, FracPart, ExpPart, DigitCodes, ExpCodes;
    if IsUnsigned(s) {
      var whole, frac, exp :| UnsignedParts(s, whole, frac, exp);
      PartCodes(whole, frac, exp);
      assert s == [] + whole + frac + exp;
      assert NumberParts(s, [], whole, frac, exp);
    } else {
      var whole, frac, exp :| UnsignedParts(s[1..], whole, frac, exp);
      PartCodes(whole, frac, exp);
      assert [MINUS] == Ascii("-");
      assert s == [MINUS] + whole + frac + exp;
      assert NumberParts(s, [MINUS], whole, frac, exp);
    }
  }

  lemma CodesAreNumber(s: Text)
    requires NumberCodes(s)
    ensures IsNumber(s)
  {
    hide IntPart, FracPart, ExpPart, DigitCodes, ExpCodes;
    var minus, whole, frac, exp :| NumberParts(s, minus, whole, frac, exp);
    PartCodes(whole, frac, exp);
    if minus == [] {
      assert s == whole + frac + exp;
      UnsignedOfParts(s, whole, frac, exp);
    } else {
      assert Ascii("-") == [MINUS];
      assert s[0] == MINUS && s[1..] == whole + frac + exp;
      UnsignedOfParts(s[1..], whole, frac, exp);
    }
  }

  lemma NumberAlone(s: Text)
    requires IsNumber(s)
    ensures Read(s) == Some([Leaf(Num(Finite(s)))])
  {
    var t := Leaf(Num(Finite(s)));
    NumberOneLine(s);
    assert TokenSpelling(s, Value(t.scalar)) && s != [] by { NumberRead(s); }
    hide IsNumber, Read, TokenSpelling, OneLine;
    PieceRead(s, t);
  }

  lemma PieceRead(s: Text, t: Tree)
    requires t.Leaf? && s != [] && TokenSpelling(s, Value(t.scalar)) && OneLine(s)
    ensures Read(s) == Some([t])
  {
    hide TokenSpelling, Read, OneLine;
    var pieces := [Piece(s, Value(t.scalar))];
    assert pieces[1..] == [] && TextOf(pieces) == s + [] == s;
    assert TokensOf(pieces) == [Value(t.scalar)] == TreeTokens(t);
    PiecesRead(pieces, t);
  }

  lemma NumberOneLine(s: Text)
    requires IsNumber(s)
    ensures OneLine(s)
  {
    NumberHasCodes(s);
    var minus, whole, frac, exp :| NumberParts(s, minus, whole, frac, exp);
    assert OneLine(minus) && OneLine(whole);
    assert OneLine(frac) by {
      assert forall k :: 1 <= k < |frac| ==> frac[k] == frac[1..][k - 1];
    }
    assert OneLine(exp) by {
      assert forall k :: 1 <= k < |exp| ==> exp[k] == exp[1..][k - 1];
      assert forall k :: 2 <= k < |exp| ==> exp[k] == exp[2..][k - 2];
    }
    OneLineJoin(minus, whole);
    OneLineJoin(minus + whole, frac);
    OneLineJoin(minus + whole + frac, exp);

  }

  lemma OneLineJoin(a: Text, b: Text)
    requires OneLine(a) && OneLine(b)
    ensures OneLine(a + b)
  {
  }

  // --- Escapes ---

  const ESCAPE_LETTERS: string := "\"\\/bfnrt"
  const ESCAPE_VALUES: seq<int> := [34, 92, 47, 8, 12, 10, 13, 9]

  predicate EscapeStands(c: Unit, v: Unit) {
    exists i :: 0 <= i < 8 && c == ESCAPE_LETTERS[i] as int && v == ESCAPE_VALUES[i]
  }

  lemma EscapeTable(c: Unit, v: Unit)
    ensures EscapeStands(c, v) <==> EscapeOf(c) == Some(v)
  {
    assert |ESCAPE_LETTERS| == 8 && |ESCAPE_VALUES| == 8;
    assert ESCAPE_LETTERS[0] == '\"' && ESCAPE_LETTERS[1] == '\\' && ESCAPE_LETTERS[2] == '/' && ESCAPE_LETTERS[3] == 'b';
    assert ESCAPE_LETTERS[4] == 'f' && ESCAPE_LETTERS[5] == 'n' && ESCAPE_LETTERS[6] == 'r' && ESCAPE_LETTERS[7] == 't';
    if EscapeOf(c) == Some(v) {
      var i := if c == 34 then 0 else if c == 92 then 1 else if c == 47 then 2 else if c == 98 then 3
               else if c == 102 then 4 else if c == 110 then 5 else if c == 114 then 6 else 7;
      assert c == ESCAPE_LETTERS[i] as int && v == ESCAPE_VALUES[i];
    }
  }

  // A string of one escape.
  function Escaped(c: Unit): Text {
    [34, 92, c, 34]
  }

  lemma EscapedLex(c: Unit)
    ensures Lex(Escaped(c)) != [] && Lex(Escaped(c))[0] == match EscapeOf(c) case Some(w) => Value(Str([w])) case None => Bad
    ensures EscapeOf(c).Some? ==> |Lex(Escaped(c))| == 1
  {
    var s := Escaped(c);
    assert s[1..] == [92, c, 34];
    EscapedRest(c);
    assert Next(s) == match EscapeOf(c) case Some(w) => Match(Some(Value(Str([w]))), 4) case None => One(Bad);
    hide Next;
    assert s[4..] == [];
    LexNothing();
  }

  lemma EscapedRest(c: Unit)
    ensures StringRest([92, c, 34]) == match EscapeOf(c) case Some(w) => Some(([w], 3)) case None => None
  {
    var s := [92, c, 34];
    assert CharAt(s) == match EscapeOf(c) case Some(w) => (w, 2) case None => (0, 0);
    assert s[2..] == [34];
    assert StringRest([34]) == Some(([], 1));
    hide CharAt;
    assert StringRest(s) == if CharAt(s).1 == 0 then None else Prepend(CharAt(s).0, CharAt(s).1, StringRest(s[CharAt(s).1..]));
    if EscapeOf(c).Some? {
      assert [EscapeOf(c).value] + [] == [EscapeOf(c).value];
    }
  }

  // A backslash and a character is the character the table gives, and no other.
  lemma EscapesExactly(c: Unit, v: Unit)
    ensures Read(Escaped(c)) == Some([Leaf(Str([v]))]) <==> EscapeStands(c, v)
  {
    EscapeTable(c, v);
    EscapedLex(c);
    EscapedShape(c);
    assert TreeTokens(Leaf(Str([v]))) == [Value(Str([v]))];
    hide Read, Lex, EscapeStands, EscapeOf, Escaped;
    if IsNewline(c) {
      BrokenEscape(c);
    } else {
      if EscapeOf(c) == Some(v) {
        assert Lex(Escaped(c)) == TreeTokens(Leaf(Str([v])));
        SpelledAlone(Escaped(c), Leaf(Str([v])));
      }
      LineAlone(Escaped(c));
    }
  }

  lemma EscapedShape(c: Unit)
    ensures !IsNewline(c) ==> OneLine(Escaped(c)) && !Blank(Escaped(c))
    ensures IsNewline(c) ==> EscapeOf(c).None?
  {
    assert Escaped(c)[0] == 34;
  }

  lemma BrokenEscape(c: Unit)
    requires IsNewline(c)
    ensures Read(Escaped(c)).Some? ==> |Read(Escaped(c)).value| == 2
  {
    var a, b: Text := [34, 92], [34];
    assert Escaped(c) == a + [c] + b;
    assert OneLine(a) && OneLine(b) && !Blank(a) && !Blank(b) by { assert a[0] == 34 && b[0] == 34; }
    hide Read, OneLine, Blank;
    Concatenation(a, c, b);
    LineAlone(a);
    LineAlone(b);
  }

  const LOWER_DIGITS: string := "0123456789abcdef"
  const UPPER_DIGITS: string := "0123456789ABCDEF"

  lemma HexExactly(c: Unit, d: int)
    ensures 0 <= d && HexValue(c) == d <==> 0 <= d < 16 && (c == LOWER_DIGITS[d] as int || c == UPPER_DIGITS[d] as int)
  {
  }

  // --- Whole sources ---

  // A line holding one member whose value is a digit.
  lemma MemberRead(name: Unit, digit: Unit)
    requires 'a' as int <= name <= 'z' as int && '0' as int <= digit <= '9' as int
    ensures Read([123, 34, name, 34, 58, digit, 125]) == Some([Obj([Member([name], Leaf(Num(Finite(DigitLexeme(digit)))))])])
  {
    var t := Obj([Member([name], Leaf(Num(Finite(DigitLexeme(digit)))))]);
    var pieces := [
      Piece([123], OpenBrace), Piece([34, name, 34], Value(Str([name]))), Piece([58], Token.Colon),
      Piece([digit], Value(Num(Finite(DigitLexeme(digit))))), Piece([125], CloseBrace)];
    MemberTokensAre(name, digit);
    MemberText(pieces);
    NameSpelled(name);
    assert AllSpelled(pieces) by { hide StringSpelling; }
    assert TextOf(pieces) == [123, 34, name, 34, 58, digit, 125] by { hide TextOf; }
    hide AllSpelled, TreeTokens, Read, TextOf;
    assert TokensOf(pieces) == TreeTokens(t);
    assert OneLine(TextOf(pieces));
    PiecesRead(pieces, t);
  }

  function DigitLexeme(digit: Unit): Lexeme
    requires '0' as int <= digit <= '9' as int
  {
    DigitIsNumber(digit);
    [digit]
  }

  lemma DigitIsNumber(digit: Unit)
    requires '0' as int <= digit <= '9' as int
    ensures IsNumber([digit])
  {
    UnsignedOfParts([digit], [digit], [], []);
  }

  lemma MemberTokensAre(name: Unit, digit: Unit)
    requires '0' as int <= digit <= '9' as int
    ensures
      var v := Num(Finite(DigitLexeme(digit)));
      TreeTokens(Obj([Member([name], Leaf(v))])) == [OpenBrace, Value(Str([name])), Token.Colon, Value(v), CloseBrace]
  {
    hide DigitLexeme;
    var v := Num(Finite(DigitLexeme(digit)));
    var members := [Member([name], Leaf(v))];
    assert MemberTokens(members) == [Value(Str([name])), Token.Colon] + TreeTokens(Leaf(v)) + [];
    assert TreeTokens(Leaf(v)) == [Value(v)];
    assert TreeTokens(Obj(members)) == [OpenBrace] + MemberTokens(members) + [CloseBrace];
  }

  lemma MemberText(pieces: seq<Piece>)
    requires |pieces| == 5
    ensures TextOf(pieces) == pieces[0].text + pieces[1].text + pieces[2].text + pieces[3].text + pieces[4].text
  {
    hide Ascii;
    assert pieces[1..][1..] == pieces[2..] && pieces[2..][1..] == pieces[3..] && pieces[3..][1..] == pieces[4..];
    assert pieces[4..][1..] == [];
    assert TextOf(pieces[4..]) == pieces[4].text + [];
    assert TextOf(pieces[3..]) == pieces[3].text + TextOf(pieces[4..]);
    assert TextOf(pieces[2..]) == pieces[2].text + TextOf(pieces[3..]);
    assert TextOf(pieces[1..]) == pieces[1].text + TextOf(pieces[2..]);
  }

  lemma NameSpelled(name: Unit)
    requires 'a' as int <= name <= 'z' as int
    ensures StringSpelling([34, name, 34], [name])
  {
    var body: Text := [name];
    assert [34, name, 34] == [QUOTE] + body + [QUOTE];
    assert CharSpelling(body[..1], name) && BodySpelling(body[1..], body[1..]);
  }

  // An object with one member, a digit.
  function OneMember(name: Text, digit: Unit): Tree
    requires '0' as int <= digit <= '9' as int
  {
    Obj([Member(name, Leaf(Num(Finite(DigitLexeme(digit)))))])
  }

  // `[]` and `{}`, and `[d,e]` for two digits.
  lemma EmptyReads()
    ensures Read([91, 93]) == Some([Arr([])]) && Read([123, 125]) == Some([Obj([])])
  {
    TwoPieces(91, OpenSquare, 93, CloseSquare, Arr([]));
    TwoPieces(123, OpenBrace, 125, CloseBrace, Obj([]));
  }

  lemma TwoPieces(a: Unit, first: Token, b: Unit, second: Token, t: Tree)
    requires TokenSpelling([a], first) && TokenSpelling([b], second) && TreeTokens(t) == [first, second]
    requires !IsNewline(a) && !IsNewline(b)
    ensures Read([a, b]) == Some([t])
  {
    hide TokenSpelling, Read, TreeTokens;
    var pieces := [Piece([a], first), Piece([b], second)];
    assert pieces[1..][1..] == [];
    assert TextOf(pieces[1..]) == [b] + [];
    assert TextOf(pieces) == [a] + TextOf(pieces[1..]) == [a, b];
    assert TokensOf(pieces) == [first, second];
    PiecesRead(pieces, t);
  }

  lemma ListRead(d: Unit, e: Unit)
    requires '0' as int <= d <= '9' as int && '0' as int <= e <= '9' as int
    ensures Read([91, d, 44, e, 93]) == Some([Arr([Leaf(Num(Finite(DigitLexeme(d)))), Leaf(Num(Finite(DigitLexeme(e))))])])
  {
    var x, y := Num(Finite(DigitLexeme(d))), Num(Finite(DigitLexeme(e)));
    var pieces := [Piece([91], OpenSquare), Piece([d], Value(x)), Piece([44], Token.Comma), Piece([e], Value(y)), Piece([93], CloseSquare)];
    ListTokensAre(x, y);
    MemberText(pieces);
    assert AllSpelled(pieces);
    assert TextOf(pieces) == [91, d, 44, e, 93] by { hide TextOf; }
    hide AllSpelled, TreeTokens, Read, TextOf, DigitLexeme;
    assert TokensOf(pieces) == TreeTokens(Arr([Leaf(x), Leaf(y)]));
    assert OneLine(TextOf(pieces));
    PiecesRead(pieces, Arr([Leaf(x), Leaf(y)]));
  }

  lemma ListTokensAre(x: Scalar, y: Scalar)
    ensures TreeTokens(Arr([Leaf(x), Leaf(y)])) == [OpenSquare, Value(x), Token.Comma, Value(y), CloseSquare]
  {
    var items := [Leaf(x), Leaf(y)];
    assert items[1..] == [Leaf(y)];
    assert ItemTokens([Leaf(y)]) == [Value(y)] + [];
    assert ItemTokens(items) == [Value(x)] + ([Token.Comma] + ItemTokens([Leaf(y)]));
    assert TreeTokens(Arr(items)) == [OpenSquare] + ItemTokens(items) + [CloseSquare];
  }

  // Two records on lines that end in a carriage return and a line feed.
  lemma CrLfSource()
    ensures Read(Ascii("{\"a\":1}\r\n{\"b\":2}")) == Some([OneMember(Ascii("a"), '1' as int), OneMember(Ascii("b"), '2' as int)])
  {
    hide Read, OneMember;
    TwoLines();
    CrLfText([123, 34, 97, 34, 58, 49, 125], [123, 34, 98, 34, 58, 50, 125]);
    NameTexts();
  }

  lemma TwoLines()
    ensures Read([123, 34, 97, 34, 58, 49, 125] + [13] + ([10] + [123, 34, 98, 34, 58, 50, 125])) ==
            Some([OneMember([97], 49), OneMember([98], 50)])
  {
    MemberRead(97, 49);
    MemberRead(98, 50);
    hide Read, DigitLexeme;
    var a, b := OneMember([97], 49), OneMember([98], 50);
    JoinedByCrLf([123, 34, 97, 34, 58, 49, 125], [123, 34, 98, 34, 58, 50, 125]);
    hide *;
    assert [a] + [b] == [a, b];
  }

  lemma NameTexts()
    ensures Ascii("a") == [97] && Ascii("b") == [98]
  {
  }

  lemma CrLfText(a: Text, b: Text)
    requires a == [123, 34, 97, 34, 58, 49, 125] && b == [123, 34, 98, 34, 58, 50, 125]
    ensures Ascii("{\"a\":1}\r\n{\"b\":2}") == a + [13] + ([10] + b)
  {
    var text := Ascii("{\"a\":1}\r\n{\"b\":2}");
    var joined := a + [13] + ([10] + b);
    assert |text| == 16 == |joined|;
  }

  lemma JoinedByCrLf(a: Text, b: Text)
    requires a != [] && b != []
    ensures Read(a + [13] + ([10] + b)) == if Read(a).Some? && Read(b).Some? then Some(Read(a).value + Read(b).value) else None
  {
    hide Read;
    Concatenation(a, 13, [10] + b);
    BlankLinesAtStart([], 10, b);
    assert [] + [10] + b == [10] + b;
  }
}
