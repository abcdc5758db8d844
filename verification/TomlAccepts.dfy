// Whatever the grammar relates, the reader reads so.

module TomlAccepts {
  import opened Options
  import opened Text
  import opened TomlTrees
  import opened TomlLines
  import opened TomlGrammar
  import opened TomlStrings
  import P = TomlPrint
  import T = TomlText

  // --- Space, comments and line ends ---

  lemma StandsCut(text: Text, i: nat, a: Text, b: Text)
    requires Stands(text, i, a + b)
    ensures Stands(text, i, a) && Stands(text, i + |a|, b)
  {
    StandsApart(text, i, a, b);
  }

  lemma {:induction false} SpacesRun(text: Text, i: nat, s: Text)
    requires Stands(text, i, s) && Spaces(s)
    ensures T.Blank(text, i) == T.Blank(text, i + |s|) && T.Gap(text, i) == T.Gap(text, i + |s|)
    decreases |s|
  {
    hide T.Blank, T.Gap, Stands;
    if s != [] {
      assert s == [s[0]] + s[1..];
      P.StandsUnit(text, i, s[0], s[1..]);
      SpaceStep(text, i);
      SpacesRun(text, i + 1, s[1..]);
    }
  }

  lemma SpaceStep(text: Text, i: nat)
    requires i < |text| && IsSpace(text[i])
    ensures T.Blank(text, i) == T.Blank(text, i + 1) && T.Gap(text, i) == T.Gap(text, i + 1)
  {
  }

  lemma {:induction false} FeedRun(text: Text, i: nat, s: Text)
    requires Stands(text, i, s) && forall k :: 0 <= k < |s| ==> s[k] != LF
    requires i + |s| == |text| || text[i + |s|] == LF
    ensures T.ToLineFeed(text, i) == i + |s|
    decreases |s|
  {
    if s != [] {
      assert s == [s[0]] + s[1..];
      P.StandsUnit(text, i, s[0], s[1..]);
      FeedRun(text, i + 1, s[1..]);
    }
  }

  lemma CommentRun(text: Text, i: nat, s: Text)
    requires Stands(text, i, s) && CommentText(s)
    requires i + |s| == |text| || text[i + |s|] == LF
    ensures T.Comment(text, i) == i + |s| && T.Blank(text, i) == i
  {
    if s != [] {
      P.StandsFirst(text, i, s);
      FeedRun(text, i, s);
    }
  }

  lemma LinePartsRun(text: Text, i: nat, s: Text, spaces: Text, comment: Text, end: Text)
    requires Stands(text, i, s) && LineParts(s, spaces, comment, end)
    requires (end == LINE_FEED) || (end == NO_TEXT && i + |s| == |text|)
    ensures T.Comment(text, T.Blank(text, i)) == i + |s| - |end|
    ensures end == LINE_FEED ==> |s| > 0 && T.Is(text, i + |s| - 1, LF)
  {
    var j := i + |spaces|;
    StandsCut(text, i, spaces, comment + end);
    StandsCut(text, j, comment, end);
    if end == LINE_FEED {
      P.StandsFirst(text, j + |comment|, end);
    }
    hide T.Comment, T.Blank, Stands, CommentText;
    SpacesRun(text, i, spaces);
    CommentRun(text, j, comment);
  }

  lemma LineRun(text: Text, i: nat, s: Text)
    requires Stands(text, i, s) && LineText(s)
    ensures s != [] && T.Gap(text, i) == T.Gap(text, i + |s|) && T.EndOfLine(text, i) == Some(i + |s|)
  {
    var spaces, comment :| LineParts(s, spaces, comment, LINE_FEED);
    hide T.Comment, T.Blank, Stands, LineParts;
    LinePartsRun(text, i, s, spaces, comment, LINE_FEED);
  }

  lemma LastRun(text: Text, i: nat, s: Text)
    requires Stands(text, i, s) && LastText(s) && i + |s| == |text|
    ensures T.Gap(text, i) == |text| && T.EndOfLine(text, i) == Some(|text|)
  {
    var spaces, comment :| LineParts(s, spaces, comment, NO_TEXT);
    hide T.Comment, T.Blank, Stands, LineParts;
    LinePartsRun(text, i, s, spaces, comment, NO_TEXT);
  }

  lemma {:induction false} GapRun(text: Text, i: nat, s: Text)
    requires Stands(text, i, s) && GapText(s)
    ensures T.Gap(text, i) == T.Gap(text, i + |s|)
    decreases |s|
  {
    hide T.Gap, LineText, Stands;
    if Spaces(s) {
      SpacesRun(text, i, s);
    } else {
      var line, rest :| GapParts(s, line, rest);
      StandsCut(text, i, line, rest);
      LineRun(text, i, line);
      GapRun(text, i + |line|, rest);
    }
  }

  // --- Strings ---

  lemma DigitIs(c: Unit, d: nat)
    requires DigitStands(c, d)
    ensures IsHex(c) && DigitValue(c) == d
  {
  }

  lemma {:induction false} CodeAppends(s: Text, c: Unit, d: nat, before: nat, code: nat)
    requires CodeText(s + [c], before, code) && DigitStands(c, d)
    ensures exists most: nat :: code == most * 16 + d && CodeText(s, before, most)
    decreases |s|
  {
    hide DigitStands, IsHex, DigitValue;
    var first: nat :| DigitStands((s + [c])[0], first) && CodeText((s + [c])[1..], before * 16 + first, code);
    if s == [] {
      assert (s + [c])[0] == c && (s + [c])[1..] == [];
      DigitIs(c, d);
      DigitIs(c, first);
      assert code == before * 16 + d && CodeText(s, before, before);
    } else {
      assert (s + [c])[0] == s[0] && (s + [c])[1..] == s[1..] + [c];
      CodeAppends(s[1..], c, d, before * 16 + first, code);
      var most: nat :| code == most * 16 + d && CodeText(s[1..], before * 16 + first, most);
      assert CodeText(s, before, most);
    }
  }

  lemma {:induction false} CodeHex(s: Text, before: nat, code: nat)
    requires CodeText(s, before, code)
    ensures forall k :: 0 <= k < |s| ==> IsHex(s[k])
    decreases |s|
  {
    hide DigitStands, IsHex, DigitValue;
    if s != [] {
      var d: nat :| DigitStands(s[0], d) && CodeText(s[1..], before * 16 + d, code);
      DigitIs(s[0], d);
      CodeHex(s[1..], before * 16 + d, code);
      assert s == [s[0]] + s[1..];
    }
  }

  lemma HexDigitOf(c: Unit) returns (d: nat)
    requires IsHex(c)
    ensures DigitStands(c, d) && d == DigitValue(c)
  {
    d := DigitValue(c);
  }

  lemma {:induction false} CodeIsHex(s: Text, code: nat)
    requires CodeText(s, 0, code) && forall k :: 0 <= k < |s| ==> IsHex(s[k])
    ensures HexNumber(s) == code
    decreases |s|
  {
    if s != [] {
      var init, c := s[..|s| - 1], s[|s| - 1];
      assert s == init + [c];
      var d := HexDigitOf(c);
      CodeAppends(init, c, d, 0, code);
      var most: nat :| code == most * 16 + d && CodeText(init, 0, most);
      assert forall k :: 0 <= k < |init| ==> init[k] == s[k];
      hide CodeText, DigitStands;
      CodeIsHex(init, most);
    }
  }

  lemma Utf16Is(t: Text, code: nat)
    requires Utf16(t, code) && code <= 0x10FFFF
    ensures t == FromCodePoint(code)
  {
    if |t| == 2 {
      var high, low := t[0] as int - 0xD800, t[1] as int - 0xDC00;
      assert code - 0x1_0000 == high * 0x400 + low && 0 <= low < 0x400;
      assert (code - 0x1_0000) / 0x400 == high && (code - 0x1_0000) % 0x400 == low;
    }
  }

  lemma LetterIs(c: Unit, i: nat)
    requires i < 8 && c == ESCAPE_LETTERS[i] as int
    ensures T.SimpleEscape(c) == Some(ESCAPE_VALUES[i])
  {
  }

  lemma EscapeRun(text: Text, i: nat, s: Text, value: Text)
    requires Stands(text, i, s) && EscapeText(s, value)
    ensures T.Escape(text, i) == Some(T.Read(value, i + |s|))
  {
    P.StandsFirst(text, i, s);
    if |s| == 1 && exists k :: 0 <= k < 8 && s[0] == ESCAPE_LETTERS[k] as int && value == [ESCAPE_VALUES[k]] {
      var k :| 0 <= k < 8 && s[0] == ESCAPE_LETTERS[k] as int && value == [ESCAPE_VALUES[k]];
      LetterIs(s[0], k);
    } else {
      CodeRun(text, i, s, value);
    }
  }

  lemma CodeRun(text: Text, i: nat, s: Text, value: Text)
    requires Stands(text, i, s) && s != [] && |s| - 1 == DigitsAfter(s[0]) > 0
    requires exists code: nat :: code <= 0x10FFFF && CodeText(s[1..], 0, code) && Utf16(value, code)
    ensures T.Escape(text, i) == Some(T.Read(value, i + |s|))
  {
    hide HexNumber, FromCodePoint, CodeText, Utf16, Stands, IsHex, T.SimpleEscape, T.EscapeWidth, DigitsAfter, T.Escape;
    var code: nat :| code <= 0x10FFFF && CodeText(s[1..], 0, code) && Utf16(value, code);
    P.StandsFirst(text, i, s);
    WidthIs(s[0]);
    assert s == [s[0]] + s[1..];
    P.StandsUnit(text, i, s[0], s[1..]);
    P.StandsSlice(text, i + 1, s[1..]);
    CodeHex(s[1..], 0, code);
    CodeIsHex(s[1..], code);
    Utf16Is(value, code);
    EscapeStep(text, i, s[1..], code);
  }

  lemma WidthIs(c: Unit)
    ensures T.EscapeWidth(c) == DigitsAfter(c)
    ensures DigitsAfter(c) > 0 ==> T.SimpleEscape(c).None?
  {
  }

  lemma EscapeStep(text: Text, i: nat, hex: Text, code: nat)
    requires i < |text| && T.SimpleEscape(text[i]).None? && T.EscapeWidth(text[i]) == |hex| > 0 && code <= 0x10FFFF
    requires i + 1 + |hex| <= |text| && text[i + 1..i + 1 + |hex|] == hex
    requires (forall k :: 0 <= k < |hex| ==> IsHex(hex[k])) && HexNumber(hex) == code
    ensures T.Escape(text, i) == Some(T.Read(FromCodePoint(code), i + 1 + |hex|))
  {
    hide HexNumber, FromCodePoint, IsHex, T.SimpleEscape, T.EscapeWidth;
  }

  lemma {:induction false} OneLineRun(text: Text, i: nat, s: Text, quote: Unit, value: Text, out: Text)
    requires Stands(text, i, s) && OneLineText(s, quote, value) && quote != LF
    ensures T.OneLineString(text, i, quote, out) == Some(T.Read(out + value, i + |s|))
    decreases |s|
  {
    hide T.Escape, EscapeText, Stands;
    P.StandsFirst(text, i, s);
    if s[0] == quote {
      Padded(out);
    } else if s[0] == BACKSLASH && quote == QUOTE {
      var escape, rest, c, more :| OneLineParts(s, quote, value, escape, rest, c, more);
      P.StandsUnit(text, i, BACKSLASH, escape + rest);
      StandsCut(text, i + 1, escape, rest);
      EscapeRun(text, i + 1, escape, c);
      OneLineRun(text, i + 1 + |escape|, rest, quote, more, out + c);
      Assoc(out, c, more);
    } else {
      assert s == [s[0]] + s[1..];
      P.StandsUnit(text, i, s[0], s[1..]);
      OneLineRun(text, i + 1, s[1..], quote, value[1..], out + [s[0]]);
      Assoc(out, [s[0]], value[1..]);
      assert [s[0]] + value[1..] == value;
    }
  }

  lemma WhiteIs(c: Unit)
    ensures T.IsWhite(c) <==> c in WHITE_SPACE
  {
  }

  lemma {:induction false} WhiteRun(text: Text, i: nat, white: Text)
    requires Stands(text, i, white) && forall c :: c in white ==> c in WHITE_SPACE
    requires i + |white| == |text| || text[i + |white|] !in WHITE_SPACE
    ensures T.White(text, i) == i + |white|
    decreases |white|
  {
    hide T.IsWhite, WHITE_SPACE;
    if white != [] {
      assert white == [white[0]] + white[1..];
      P.StandsUnit(text, i, white[0], white[1..]);
      WhiteIs(white[0]);
      assert white[0] in white;
      WhiteRun(text, i + 1, white[1..]);
    } else if i < |text| {
      WhiteIs(text[i]);
    }
  }

  lemma SwallowedStands(text: Text, i: nat, s: Text, spaces: Text, white: Text, rest: Text)
    requires Stands(text, i, s) && Swallowed(s, spaces, white, rest)
    ensures
      var j := i + 1 + |spaces|;
      && T.Is(text, i, BACKSLASH) && Stands(text, i + 1, spaces) && T.Is(text, j, LF)
      && Stands(text, j + 1, white) && Stands(text, j + 1 + |white|, rest) && i + |s| == j + 1 + |white| + |rest|
  {
    var j := i + 1 + |spaces|;
    P.StandsUnit(text, i, BACKSLASH, spaces + (['\n' as int] + (white + rest)));
    StandsCut(text, i + 1, spaces, ['\n' as int] + (white + rest));
    P.StandsUnit(text, j, LF, white + rest);
    StandsCut(text, j + 1, white, rest);
  }

  // A swallowed line end is passed over, with all white space after it.
  lemma SwallowRun(text: Text, i: nat, s: Text, spaces: Text, white: Text, rest: Text)
    requires Stands(text, i, s) && Swallowed(s, spaces, white, rest) && rest != []
    ensures T.AtLineEnd(text, i + 1) && T.White(text, i + 1) == i + |s| - |rest| && i + |s| <= |text|
  {
    hide Stands, T.Blank, T.White, T.IsWhite, WHITE_SPACE;
    var j := i + 1 + |spaces|;
    SwallowedStands(text, i, s, spaces, white, rest);
    SpacesRun(text, i + 1, spaces);
    BlankEnds(text, j);
    P.StandsFirst(text, j + 1 + |white|, rest);
    WhiteRun(text, j + 1, white);
    SpacesWhite(text, i + 1, spaces);
    WhiteIs(LF);
    FeedIsWhite();
    WhiteFront(text, j);
  }

  lemma BlankEnds(text: Text, j: nat)
    requires j < |text| && !IsSpace(text[j])
    ensures T.Blank(text, j) == j
  {
  }

  lemma FeedIsWhite()
    ensures LF in WHITE_SPACE
  {
  }

  lemma WhiteFront(text: Text, j: nat)
    requires j < |text| && T.IsWhite(text[j])
    ensures T.White(text, j) == T.White(text, j + 1)
  {
  }

  lemma {:induction false} SpacesWhite(text: Text, i: nat, spaces: Text)
    requires Stands(text, i, spaces) && Spaces(spaces)
    ensures T.White(text, i) == T.White(text, i + |spaces|)
    decreases |spaces|
  {
    if spaces != [] {
      assert spaces == [spaces[0]] + spaces[1..];
      P.StandsUnit(text, i, spaces[0], spaces[1..]);
      SpacesWhite(text, i + 1, spaces[1..]);
    }
  }

  lemma EscapeFirst(s: Text, value: Text)
    requires EscapeText(s, value)
    ensures s != [] && !IsSpace(s[0]) && s[0] != LF
  {
    if |s| == 1 && exists k :: 0 <= k < 8 && s[0] == ESCAPE_LETTERS[k] as int && value == [ESCAPE_VALUES[k]] {
      var k :| 0 <= k < 8 && s[0] == ESCAPE_LETTERS[k] as int && value == [ESCAPE_VALUES[k]];
      LetterIs(s[0], k);
    }
  }

  // A string over lines has its closing quotes.
  lemma {:induction false} LongSize(s: Text, quote: Unit, value: Text)
    requires LongText(s, quote, value)
    ensures |s| >= 3
    decreases |s|
  {
    hide EscapeText, Swallowed;
    if !(|s| >= 3 && s[0] == s[1] == s[2] == quote) {
      if s[0] == BACKSLASH && quote == QUOTE {
        if spaces, white, rest :| SwallowParts(s, quote, value, spaces, white, rest) {
          LongSize(rest, quote, value);
        } else {
          var escape, rest, c, more :| LongEscape(s, quote, value, escape, rest, c, more);
          LongSize(rest, quote, more);
        }
      } else {
        LongSize(s[1..], quote, value[1..]);
      }
    }
  }

  lemma RepeatIs(c: Unit, n: nat)
    requires n <= 2
    ensures T.Repeat(c, n) == Quotes(c, n)
  {
  }

  lemma CloseRun(text: Text, i: nat, s: Text, quote: Unit, out: Text)
    requires 3 <= |s| <= 5 && s == Quotes(quote, |s|) && Stands(text, i, s) && !T.Is(text, i + |s|, quote)
    ensures T.LongString(text, i, quote, out) == Some(T.Read(out + Quotes(quote, |s| - 3), i + |s|))
  {
    assert text[i + 0] == s[0] == quote && text[i + 1] == s[1] == quote && text[i + 2] == s[2] == quote;
    assert |s| > 3 ==> text[i + 3] == s[3] == quote;
    assert |s| > 4 ==> text[i + 4] == s[4] == quote;
    RepeatIs(quote, |s| - 3);
    assert T.Extra(text, i + 3, quote) == |s| - 3;
  }

  lemma NotThree(text: Text, i: nat, s: Text, quote: Unit)
    requires Stands(text, i, s) && |s| >= 3 && !(s[0] == s[1] == s[2] == quote)
    ensures !T.Three(text, i, quote)
  {
    assert text[i + 0] == s[0] && text[i + 1] == s[1] && text[i + 2] == s[2];
  }

  lemma {:induction false} LongRun(text: Text, i: nat, s: Text, quote: Unit, value: Text, out: Text)
    requires Stands(text, i, s) && LongText(s, quote, value) && !T.Is(text, i + |s|, quote)
    ensures T.LongString(text, i, quote, out) == Some(T.Read(out + value, i + |s|))
    decreases |s|
  {
    P.StandsFirst(text, i, s);
    LongSize(s, quote, value);
    if s[0] == s[1] == s[2] == quote {
      CloseRun(text, i, s, quote, out);
    } else {
      NotThree(text, i, s, quote);
      if s[0] == BACKSLASH && quote == QUOTE {
        LongSlash(text, i, s, value, out);
      } else {
        hide Stands, T.Three;
        assert s == [s[0]] + s[1..];
        P.StandsUnit(text, i, s[0], s[1..]);
        LongRun(text, i + 1, s[1..], quote, value[1..], out + [s[0]]);
        Assoc(out, [s[0]], value[1..]);
        assert [s[0]] + value[1..] == value;
      }
    }
  }

  // From a backslash on.
  lemma {:induction false} LongSlash(text: Text, i: nat, s: Text, value: Text, out: Text)
    requires Stands(text, i, s) && LongText(s, QUOTE, value) && !T.Is(text, i + |s|, QUOTE)
    requires s[0] == BACKSLASH && i < |text| && text[i] == BACKSLASH && !T.Three(text, i, QUOTE)
    ensures T.LongString(text, i, QUOTE, out) == Some(T.Read(out + value, i + |s|))
    decreases |s|, 0
  {
    hide Stands, T.Three, T.Escape, EscapeText, T.AtLineEnd, T.White, Swallowed;
    if spaces, white, rest :| SwallowParts(s, QUOTE, value, spaces, white, rest) {
      LongSize(rest, QUOTE, value);
      SwallowRun(text, i, s, spaces, white, rest);
      SwallowedStands(text, i, s, spaces, white, rest);
      LongRun(text, i + |s| - |rest|, rest, QUOTE, value, out);
    } else {
      var escape, rest, c, more :| LongEscape(s, QUOTE, value, escape, rest, c, more);
      P.StandsUnit(text, i, BACKSLASH, escape + rest);
      StandsCut(text, i + 1, escape, rest);
      EscapeRun(text, i + 1, escape, c);
      EscapeFirst(escape, c);
      NoLineEnd(text, i + 1, escape);
      LongRun(text, i + 1 + |escape|, rest, QUOTE, more, out + c);
      Assoc(out, c, more);
    }
  }

  lemma NoLineEnd(text: Text, i: nat, s: Text)
    requires Stands(text, i, s) && s != [] && !IsSpace(s[0]) && s[0] != LF
    ensures !T.AtLineEnd(text, i)
  {
    P.StandsFirst(text, i, s);
  }

  lemma LongStringRun(text: Text, i: nat, s: Text, value: Text)
    requires Stands(text, i, s) && LongString(s, value) && !T.Is(text, i + |s|, s[0])
    ensures T.Is(text, i, s[0]) && T.String(text, i) == Some(T.Read(value, i + |s|))
  {
    assert text[i + 0] == s[0] && text[i + 1] == s[1] && text[i + 2] == s[2] && text[i + 3] == s[3];
    var n := if s[3] == LF then 4 else 3;
    assert s == s[..n] + s[n..];
    StandsCut(text, i, s[..n], s[n..]);
    hide Stands, T.LongString;
    LongRun(text, i + n, s[n..], s[0], value, []);
    Padded(value);
  }

  lemma OneLineStringRun(text: Text, i: nat, s: Text, value: Text)
    requires Stands(text, i, s) && OneLineString(s, value) && !T.Is(text, i + |s|, s[0])
    requires !(|s| >= 3 && s[0] == s[1] == s[2])
    ensures T.Is(text, i, s[0]) && !T.Three(text, i, s[0]) && T.String(text, i) == Some(T.Read(value, i + |s|))
  {
    assert text[i + 0] == s[0] && text[i + 1] == s[1];
    assert |s| >= 3 ==> text[i + 2] == s[2];
    assert s == [s[0]] + s[1..];
    P.StandsUnit(text, i, s[0], s[1..]);
    hide Stands, T.OneLineString;
    OneLineRun(text, i + 1, s[1..], s[0], value, []);
    Padded(value);
  }

  lemma StringRun(text: Text, i: nat, s: Text, value: Text)
    requires Stands(text, i, s) && StringText(s, value) && !T.Is(text, i + |s|, s[0])
    ensures T.Is(text, i, s[0]) && T.IsQuote(s[0]) && T.String(text, i) == Some(T.Read(value, i + |s|))
  {
    if |s| >= 3 && s[0] == s[1] == s[2] {
      LongStringRun(text, i, s, value);
    } else {
      OneLineStringRun(text, i, s, value);
    }
  }

  // --- Keys ---

  // What may follow a part of a key: spaces, a point, an equals sign or a
  // closing bracket.
  predicate KeyFollows(text: Text, j: nat) {
    j < |text| && (IsSpace(text[j]) || text[j] == DOT || text[j] == T.EQUALS || text[j] == BRACKET_CLOSE)
  }

  lemma PartRun(text: Text, i: nat, s: Text, part: Text)
    requires Stands(text, i, s) && PartText(s, part) && KeyFollows(text, i + |s|)
    ensures T.KeyPart(text, i) == Some(T.Read(part, i + |s|))
    ensures i < |text| && P.NoGap(text[i]) && text[i] != BRACKET_OPEN && text[i] != BRACE_CLOSE
  {
    P.StandsFirst(text, i, s);
    hide T.String, T.Run;
    if s == part && 0 < |s| <= 256 && forall k :: 0 <= k < |s| ==> BareUnit(s[k]) {
      P.StandsSlice(text, i, s);
      P.RunReads(text, i, i + 256, T.KeyUnits, s);
    } else {
      hide Stands, OneLineText;
      OneLineStringRun(text, i, s, part);
    }
  }

  lemma SpacesEnd(text: Text, i: nat, s: Text)
    requires Stands(text, i, s) && Spaces(s) && i + |s| < |text| && !IsSpace(text[i + |s|])
    ensures T.Blank(text, i) == i + |s|
  {
    hide T.Gap;
    SpacesRun(text, i, s);
    BlankEnds(text, i + |s|);
  }

  lemma SpacesFirst(text: Text, i: nat, s: Text)
    requires Stands(text, i, s) && Spaces(s) && s != []
    ensures i < |text| && IsSpace(text[i])
  {
    P.StandsFirst(text, i, s);
  }

  // The first part of a key, with the spaces around it.
  lemma KeyPartsRun(text: Text, i: nat, s: Text, parts: Parts, space: Text, part: Text, after: Text, rest: Text)
    requires parts != [] && Stands(text, i, s) && KeyParts(s, parts, space, part, after, rest)
    requires T.Is(text, i + |s|, T.EQUALS) || T.Is(text, i + |s|, BRACKET_CLOSE)
    ensures
      var j := i + |space|;
      var k := j + |part|;
      && T.Blank(text, i) == j && T.KeyPart(text, j) == Some(T.Read(parts[0], k)) && T.Blank(text, k) == k + |after|
      && i + |s| == k + |after| + |rest| && Stands(text, k + |after|, rest)
    ensures i < |text| && text[i] != BRACKET_OPEN && text[i] != BRACE_CLOSE && (IsSpace(text[i]) || P.NoGap(text[i]))
  {
    hide T.KeyPart, PartText, T.Blank, Stands, Spaces, KeyText;
    var j := i + |space|;
    var k := j + |part|;
    var m := k + |after|;
    StandsCut(text, i, space, part + (after + rest));
    StandsCut(text, j, part, after + rest);
    StandsCut(text, k, after, rest);
    if rest != [] {
      P.StandsFirst(text, m, rest);
    }
    if after != [] {
      SpacesFirst(text, k, after);
    }
    PartRun(text, j, part, parts[0]);
    if space != [] {
      SpacesFirst(text, i, space);
    }
    SpacesEnd(text, i, space);
    SpacesEnd(text, k, after);
  }

  lemma {:induction false} KeyRun(text: Text, i: nat, s: Text, parts: Parts, before: Parts)
    requires Stands(text, i, s) && KeyText(s, parts)
    requires T.Is(text, i + |s|, T.EQUALS) || T.Is(text, i + |s|, BRACKET_CLOSE)
    ensures T.Key(text, i, before) == Some(T.Read(before + parts, i + |s|))
    ensures i < |text| && text[i] != BRACKET_OPEN && text[i] != BRACE_CLOSE && (IsSpace(text[i]) || P.NoGap(text[i]))
    decreases |parts|
  {
    hide T.KeyPart, T.Key, PartText, T.Blank, Stands, Spaces, KeyParts, KeyText;
    var space, part, after, rest := KeyCut(s, parts);
    KeyRest(s, parts, space, part, after, rest);
    KeyPartsRun(text, i, s, parts, space, part, after, rest);
    var m := i + |space| + |part| + |after|;
    KeyStep(text, i, before, parts[0], i + |space|, i + |space| + |part|, m);
    if |parts| == 1 {
      assert parts == [parts[0]];
    } else {
      P.StandsUnit(text, m, DOT, rest[1..]);
      KeyRun(text, m + 1, rest[1..], parts[1..], before + [parts[0]]);
      Assoc(before, [parts[0]], parts[1..]);
      assert [parts[0]] + parts[1..] == parts;
    }
  }

  lemma KeyCut(s: Text, parts: Parts) returns (space: Text, part: Text, after: Text, rest: Text)
    requires KeyText(s, parts)
    ensures parts != [] && KeyParts(s, parts, space, part, after, rest)
  {
    hide PartText, Spaces;
    space, part, after, rest :| KeyParts(s, parts, space, part, after, rest);
  }

  lemma KeyRest(s: Text, parts: Parts, space: Text, part: Text, after: Text, rest: Text)
    requires parts != [] && KeyParts(s, parts, space, part, after, rest)
    ensures |parts| == 1 ==> rest == []
    ensures |parts| > 1 ==> rest != [] && rest == [DOT] + rest[1..] && KeyText(rest[1..], parts[1..])
  {
    hide PartText, KeyText;
  }

  lemma KeyStep(text: Text, i: nat, before: Parts, part: Text, j: nat, k: nat, m: nat)
    requires i <= |text| && T.Blank(text, i) == j && T.KeyPart(text, j) == Some(T.Read(part, k)) && T.Blank(text, k) == m
    ensures T.Key(text, i, before) ==
            if T.Is(text, m, DOT) then T.Key(text, m + 1, before + [part]) else Some(T.Read(before + [part], m))
  {
    hide T.KeyPart, T.Blank;
  }

  // --- Values ---

  // Where a value can end: no unit of a bare value follows it, no quote, and
  // no space with a digit after it.
  predicate ValueEnds(text: Text, j: nat) {
    j < |text| ==>
      && !T.IsValueUnit(text[j]) && !T.IsQuote(text[j])
      && (text[j] == SPACE ==> j + 1 < |text| ==> !IsDigit(text[j + 1]))
  }

  lemma NoTime(text: Text, j: nat)
    requires j <= |text| && ValueEnds(text, j)
    ensures T.TimeSize(text, j) == 0
  {
    hide T.Run;
    if T.Is(text, j, SPACE) && j + 4 <= |text| {
      assert !IsDigit(text[j + 1]);
    }
  }

  lemma UnitIs(c: Unit)
    ensures ValueUnit(c) <==> T.InKind(T.ValueUnits, c)
    ensures ClockUnit(c) <==> T.InKind(T.TimeUnits, c)
    ensures BareUnit(c) <==> T.InKind(T.KeyUnits, c)
  {
  }

  lemma WordIs()
    ensures Ascii("true") == TRUE_WORD && Ascii("false") == FALSE_WORD
    ensures TRUE_WORD != FALSE_WORD && |TRUE_WORD| == 4 && |FALSE_WORD| == 5
  {
  }

  // A run of units of bare values that is no date.
  lemma PlainRun(text: Text, i: nat, s: Text)
    requires Stands(text, i, s) && ValueEnds(text, i + |s|)
    requires 0 < |s| <= 256 && forall k :: 0 <= k < |s| ==> T.InKind(T.ValueUnits, s[k])
    ensures i < |text| && T.InKind(T.ValueUnits, text[i])
    ensures T.Bare(text, i) == Some(T.Read(
      if s == TRUE_WORD || s == FALSE_WORD then BoolValue(T.LineAt(text, i), s == TRUE_WORD)
      else OtherValue(T.LineAt(text, i), s), i + |s|))
  {
    hide T.Run, T.LineAt, T.Bare, T.IsDate, T.TimeSize, Stands;
    P.StandsFirst(text, i, s);
    P.StandsSlice(text, i, s);
    assert i + |s| < |text| ==> !T.InKind(T.ValueUnits, text[i + |s|]);
    hide ValueEnds, T.IsValueUnit;
    P.RunReads(text, i, i + 256, T.ValueUnits, s);
    NoTime(text, i + |s|);
    P.BareReads(text, i, i + |s|, 0, s);
  }

  lemma DatedIsTimed(s: Text)
    requires DatedText(s)
    ensures P.TimedRaw(s)
  {
    assert T.IsDate(s[..10]) by {
      assert forall k :: 0 <= k < 10 ==> s[..10][k] == s[k];
    }
    hide T.IsDate;
  }

  lemma ClockEnds(text: Text, i: nat, s: Text)
    requires P.TimedRaw(s) && Stands(text, i, s) && ValueEnds(text, i + |s|)
    ensures T.TimeSize(text, i + 10) == |s| - 10
  {
    P.TimedParts(s);
    P.TimedStands(text, i, s);
    assert i + |s| < |text| ==> !T.IsTimeUnit(text[i + |s|]);
    assert 15 <= |s| <= 74;
    hide T.IsDate, P.TimedRaw, ValueEnds, T.TimeSize;
    P.RunReads(text, i + 14, i + 74, T.TimeUnits, s[14..]);
    P.TimeReads(text, i + 10, |s| - 10);
  }

  lemma DatedRun(text: Text, i: nat, s: Text)
    requires DatedText(s) && Stands(text, i, s) && ValueEnds(text, i + |s|)
    ensures i < |text| && T.IsValueUnit(text[i])
    ensures T.Bare(text, i) == Some(T.Read(OtherValue(T.LineAt(text, i), s), i + |s|))
  {
    hide T.Run, T.LineAt, T.Bare, T.IsDate, T.TimeSize, Stands, ValueEnds, P.TimedRaw, DatedText;
    DatedIsTimed(s);
    P.TimedStands(text, i, s);
    P.DateRuns(text, i, s);
    ClockEnds(text, i, s);
    WordIs();
    P.BareReads(text, i, i + 10, |s| - 10, s);
  }

  lemma RawRun(text: Text, i: nat, s: Text)
    requires (RawText(s) || DatedText(s)) && Stands(text, i, s) && ValueEnds(text, i + |s|)
    ensures i < |text| && T.IsValueUnit(text[i])
    ensures T.Bare(text, i) == Some(T.Read(OtherValue(T.LineAt(text, i), s), i + |s|))
  {
    hide T.Bare, Stands, ValueEnds, DatedText, T.LineAt;
    if RawText(s) {
      WordIs();
      forall k | 0 <= k < |s|
        ensures T.InKind(T.ValueUnits, s[k])
      {
        UnitIs(s[k]);
      }
      PlainRun(text, i, s);
    } else {
      DatedRun(text, i, s);
    }
  }

  lemma WordRun(text: Text, i: nat, s: Text, b: bool)
    requires s == Ascii(if b then "true" else "false") && Stands(text, i, s) && ValueEnds(text, i + |s|)
    ensures i < |text| && T.IsValueUnit(text[i])
    ensures T.Bare(text, i) == Some(T.Read(BoolValue(T.LineAt(text, i), b), i + |s|))
  {
    hide T.Bare, Stands, ValueEnds, T.LineAt;
    WordIs();
    WordUnits(b, s);
    PlainRun(text, i, s);
  }

  lemma WordUnits(b: bool, s: Text)
    requires s == if b then TRUE_WORD else FALSE_WORD
    ensures forall k :: 0 <= k < |s| ==> T.InKind(T.ValueUnits, s[k])
  {
  }

  // --- Gaps ---

  lemma SpacesTail(s: Text)
    requires GapText(s) && s != [] && IsSpace(s[0])
    ensures GapText(s[1..])
  {
    if !Spaces(s) {
      var line, rest :| GapParts(s, line, rest);
      var spaces, comment :| LineParts(line, spaces, comment, LINE_FEED);
      assert line[0] == s[0];
      assert (comment + LINE_FEED)[0] == HASH || (comment + LINE_FEED)[0] == LF;
      assert spaces == [] ==> line == comment + LINE_FEED;
      assert line[1..] == spaces[1..] + (comment + LINE_FEED);
      assert LineParts(line[1..], spaces[1..], comment, LINE_FEED);
      assert s[1..] == line[1..] + rest;
      assert GapParts(s[1..], line[1..], rest);
    }
  }

  lemma GapFirst(s: Text)
    requires GapText(s) && s != []
    ensures IsSpace(s[0]) || s[0] == HASH || s[0] == LF
  {
    if !Spaces(s) {
      var line, rest :| GapParts(s, line, rest);
      var spaces, comment :| LineParts(line, spaces, comment, LINE_FEED);
      assert line[0] == s[0];
      if spaces == [] {
        assert line == comment + LINE_FEED;
      }
    }
  }

  predicate Punctuation(c: Unit) {
    c == COMMA || c == BRACKET_CLOSE || c == BRACE_CLOSE
  }

  // A gap up to a comma or a closing character is where a value ends.
  lemma GapFollows(text: Text, j: nat, gap: Text)
    requires Stands(text, j, gap) && GapText(gap) && j + |gap| < |text| && Punctuation(text[j + |gap|])
    ensures ValueEnds(text, j) && T.Gap(text, j) == j + |gap|
  {
    hide T.Gap, GapText;
    GapRun(text, j, gap);
    P.GapStays(text, j + |gap|);
    if gap != [] {
      P.StandsFirst(text, j, gap);
      GapFirst(gap);
      if gap[0] == SPACE && |gap| > 1 {
        SpacesTail(gap);
        GapFirst(gap[1..]);
        assert text[j + 1] == gap[1];
      }
    }
  }

  lemma CommaOrClose(text: Text, j: nat, gap: Text, close: Unit)
    requires close == BRACKET_CLOSE || close == BRACE_CLOSE
    requires Stands(text, j, gap) && GapText(gap) && (T.Is(text, j + |gap|, COMMA) || T.Is(text, j + |gap|, close))
    ensures ValueEnds(text, j)
    ensures T.Separator(text, j, close) == Some(if text[j + |gap|] == COMMA then j + |gap| + 1 else j + |gap|)
  {
    hide T.Gap, GapText, ValueEnds;
    GapFollows(text, j, gap);
  }

  lemma ListStep(text: Text, i: nat, line: nat, before: seq<Value>, j: nat, item: Value, k: nat, next: nat)
    requires i <= |text| && T.Gap(text, i) == j < |text| && text[j] != BRACKET_CLOSE
    requires T.ValueAt(text, j) == Some(T.Read(item, k)) && T.Separator(text, k, BRACKET_CLOSE) == Some(next)
    ensures T.ListAt(text, i, line, before) == T.ListAt(text, next, line, before + [item])
  {
    hide T.ValueAt, T.Gap, T.Separator;
  }

  lemma ListCloses(text: Text, i: nat, line: nat, before: seq<Value>, gap: Text)
    requires Stands(text, i, gap) && GapText(gap) && T.Is(text, i + |gap|, BRACKET_CLOSE)
    ensures T.ListAt(text, i, line, before) == Some(T.Read(ListValue(line, before), i + |gap| + 1))
  {
    hide GapText, T.Gap, ValueEnds;
    GapFollows(text, i, gap);
  }

  lemma InlineStep(text: Text, i: nat, line: nat, before: seq<Pair>, j: nat, pair: Pair, k: nat, next: nat)
    requires i <= |text| && T.Gap(text, i) == j < |text| && text[j] != BRACE_CLOSE
    requires T.PairAt(text, j) == Some(T.Read(pair, k)) && T.Separator(text, k, BRACE_CLOSE) == Some(next)
    ensures T.InlineAt(text, i, line, before) == T.InlineAt(text, next, line, before + [pair])
  {
    hide T.PairAt, T.Gap, T.Separator;
  }

  lemma InlineCloses(text: Text, i: nat, line: nat, before: seq<Pair>, gap: Text)
    requires Stands(text, i, gap) && GapText(gap) && T.Is(text, i + |gap|, BRACE_CLOSE)
    ensures T.InlineAt(text, i, line, before) == Some(T.Read(InlineValue(line, before), i + |gap| + 1))
  {
    hide GapText, T.Gap, ValueEnds;
    GapFollows(text, i, gap);
  }

  // --- Lists and tables ---

  lemma {:induction false} ValueRun(text: Text, i: nat, s: Text, v: Value)
    requires Stands(text, i, s) && ValueText(s, v) && ValueEnds(text, i + |s|)
    ensures i < |text| && P.NoGap(text[i]) && text[i] != BRACKET_CLOSE && text[i] != BRACE_CLOSE
    ensures P.ReadsAs(T.ValueAt(text, i), v, i + |s|)
    decreases v, 2
  {
    hide T.String, T.Bare, T.ListAt, T.InlineAt, T.LineAt, Stands, ItemsText, PairsText, StringText, RawText, DatedText, Ascii;
    match v
    case StrValue(_, value) =>
      StringSize(s, value);
      StringRun(text, i, s, value);
    case BoolValue(_, b) =>
      WordRun(text, i, s, b);
    case OtherValue(_, raw) =>
      RawRun(text, i, s);
    case ListValue(_, items) =>
      Bracketed(text, i, s, BRACKET_OPEN, BRACKET_CLOSE);
      ItemsRun(text, i + 1, s[1..|s| - 1], items, T.LineAt(text, i), []);
      Padded(items);
    case InlineValue(_, pairs) =>
      Bracketed(text, i, s, BRACE_OPEN, BRACE_CLOSE);
      PairsRun(text, i + 1, s[1..|s| - 1], pairs, T.LineAt(text, i), []);
      Padded(pairs);
  }

  lemma StringSize(s: Text, value: Text)
    requires StringText(s, value)
    ensures |s| >= 2 && T.IsQuote(s[0])
  {
    hide OneLineText, LongText;
  }

  lemma Bracketed(text: Text, i: nat, s: Text, open: Unit, close: Unit)
    requires Stands(text, i, s) && |s| >= 2 && s[0] == open && s[|s| - 1] == close
    ensures T.Is(text, i, open) && Stands(text, i + 1, s[1..|s| - 1]) && T.Is(text, i + |s| - 1, close)
  {
    assert s == [open] + (s[1..|s| - 1] + [close]);
    P.StandsUnit(text, i, open, s[1..|s| - 1] + [close]);
    StandsCut(text, i + 1, s[1..|s| - 1], [close]);
    P.StandsFirst(text, i + |s| - 1, [close]);
  }

  lemma ItemsCut(s: Text, items: seq<Value>) returns (gap: Text, item: Text, after: Text, rest: Text)
    requires items != [] && ItemsText(s, items)
    ensures ItemsParts(s, items, gap, item, after, rest)
  {
    hide GapText, ValueText;
    gap, item, after, rest :| ItemsParts(s, items, gap, item, after, rest);
  }

  // What stands where, in the first of some items.
  lemma ItemsStand(text: Text, i: nat, s: Text, items: seq<Value>, gap: Text, item: Text, after: Text, rest: Text, close: Unit)
    requires items != [] && Stands(text, i, s) && ItemsParts(s, items, gap, item, after, rest) && T.Is(text, i + |s|, close)
    ensures
      var j := i + |gap|;
      var k := j + |item|;
      var m := k + |after|;
      && Stands(text, i, gap) && Stands(text, j, item) && Stands(text, k, after) && Stands(text, m, rest)
      && i + |s| == m + |rest| && T.Is(text, m, if rest == [] then close else COMMA)
      && (rest != [] ==> Stands(text, m + 1, rest[1..]))
  {
    hide Stands, GapText, ValueText, ItemsText;
    var j := i + |gap|;
    var k := j + |item|;
    var m := k + |after|;
    StandsCut(text, i, gap, item + (after + rest));
    StandsCut(text, j, item, after + rest);
    StandsCut(text, k, after, rest);
    if rest != [] {
      assert rest == [COMMA] + rest[1..];
      P.StandsUnit(text, m, COMMA, rest[1..]);
    }
  }

  lemma {:induction false} ItemsRun(text: Text, i: nat, s: Text, items: seq<Value>, line: nat, before: seq<Value>)
    requires Stands(text, i, s) && ItemsText(s, items) && T.Is(text, i + |s|, BRACKET_CLOSE)
    ensures P.ReadsAs(T.ListAt(text, i, line, before), ListValue(0, before + items), i + |s| + 1)
    decreases items, 1
  {
    hide Stands, GapText, ValueText, T.ListAt, T.ValueAt, T.Gap, T.Separator, UnlineValue, ValueEnds;
    if items == [] {
      ListCloses(text, i, line, before, s);
      Padded(before);
      P.ListUnlined(before);
      ListAnyLine(line, before);
    } else {
      var gap, item, after, rest := ItemsCut(s, items);
      ItemsStand(text, i, s, items, gap, item, after, rest, BRACKET_CLOSE);
      var j := i + |gap|;
      var k := j + |item|;
      var m := k + |after|;
      CommaOrClose(text, k, after, BRACKET_CLOSE);
      ValueRun(text, j, item, items[0]);
      GapRun(text, i, gap);
      P.GapStays(text, j);
      var v := T.ValueAt(text, j).value.value;
      ListStep(text, i, line, before, j, v, k, if rest == [] then m else m + 1);
      ItemsGoOn(text, s, items, gap, item, after, rest, m, line, before, v);
    }
  }

  lemma ListAnyLine(line: nat, items: seq<Value>)
    ensures UnlineValue(ListValue(line, items)) == UnlineValue(ListValue(0, items))
  {
  }

  // After an item.
  lemma {:induction false} ItemsGoOn(text: Text, s: Text, items: seq<Value>, gap: Text, item: Text, after: Text, rest: Text,
                                     m: nat, line: nat, before: seq<Value>, v: Value)
    requires items != [] && ItemsParts(s, items, gap, item, after, rest) && UnlineValue(v) == UnlineValue(items[0])
    requires Stands(text, m, rest) && T.Is(text, m + |rest|, BRACKET_CLOSE) && (rest != [] ==> Stands(text, m + 1, rest[1..]))
    ensures P.ReadsAs(T.ListAt(text, if rest == [] then m else m + 1, line, before + [v]), ListValue(0, before + items), m + |rest| + 1)
    decreases items, 0
  {
    hide Stands, GapText, ValueText, T.ListAt, UnlineValue;
    if rest == [] {
      assert items[1..] == [];
      NoGapText();
      ListCloses(text, m, line, before + [v], []);
      ListAnyLine(line, before + [v]);
      P.ListsAlike(before, v, items);
      Padded(before + [v]);
    } else {
      ItemsRun(text, m + 1, rest[1..], items[1..], line, before + [v]);
      P.ListsAlike(before, v, items);
    }
  }

  lemma NoGapText()
    ensures GapText([])
  {
  }

  lemma PairsCut(s: Text, pairs: seq<Pair>) returns (gap: Text, pair: Text, after: Text, rest: Text)
    requires pairs != [] && PairsText(s, pairs)
    ensures PairsParts(s, pairs, gap, pair, after, rest)
  {
    hide GapText, PairText;
    gap, pair, after, rest :| PairsParts(s, pairs, gap, pair, after, rest);
  }

  lemma PairsStand(text: Text, i: nat, s: Text, pairs: seq<Pair>, gap: Text, pair: Text, after: Text, rest: Text, close: Unit)
    requires pairs != [] && Stands(text, i, s) && PairsParts(s, pairs, gap, pair, after, rest) && T.Is(text, i + |s|, close)
    ensures
      var j := i + |gap|;
      var k := j + |pair|;
      var m := k + |after|;
      && Stands(text, i, gap) && Stands(text, j, pair) && Stands(text, k, after) && Stands(text, m, rest)
      && i + |s| == m + |rest| && T.Is(text, m, if rest == [] then close else COMMA)
      && (rest != [] ==> Stands(text, m + 1, rest[1..]))
  {
    hide Stands, GapText, PairText, PairsText;
    var j := i + |gap|;
    var k := j + |pair|;
    var m := k + |after|;
    StandsCut(text, i, gap, pair + (after + rest));
    StandsCut(text, j, pair, after + rest);
    StandsCut(text, k, after, rest);
    if rest != [] {
      assert rest == [COMMA] + rest[1..];
      P.StandsUnit(text, m, COMMA, rest[1..]);
    }
  }

  lemma {:induction false} PairsRun(text: Text, i: nat, s: Text, pairs: seq<Pair>, line: nat, before: seq<Pair>)
    requires Stands(text, i, s) && PairsText(s, pairs) && T.Is(text, i + |s|, BRACE_CLOSE)
    ensures P.ReadsAs(T.InlineAt(text, i, line, before), InlineValue(0, before + pairs), i + |s| + 1)
    decreases pairs, 1
  {
    hide Stands, GapText, PairText, T.InlineAt, T.PairAt, T.Gap, T.Separator, UnlineValue, UnlinePair, ValueEnds;
    if pairs == [] {
      InlineCloses(text, i, line, before, s);
      Padded(before);
      InlineAnyLine(line, before);
    } else {
      var gap, pair, after, rest := PairsCut(s, pairs);
      PairsStand(text, i, s, pairs, gap, pair, after, rest, BRACE_CLOSE);
      var j := i + |gap|;
      var k := j + |pair|;
      var m := k + |after|;
      CommaOrClose(text, k, after, BRACE_CLOSE);
      PairRun(text, j, pair, pairs[0]);
      GapRun(text, i, gap);
      P.GapStays(text, j);
      var p := T.PairAt(text, j).value.value;
      InlineStep(text, i, line, before, j, p, k, if rest == [] then m else m + 1);
      PairsGoOn(text, s, pairs, gap, pair, after, rest, m, line, before, p);
    }
  }

  lemma InlineAnyLine(line: nat, pairs: seq<Pair>)
    ensures UnlineValue(InlineValue(line, pairs)) == UnlineValue(InlineValue(0, pairs))
  {
  }

  lemma {:induction false} PairsGoOn(text: Text, s: Text, pairs: seq<Pair>, gap: Text, pair: Text, after: Text, rest: Text,
                                     m: nat, line: nat, before: seq<Pair>, p: Pair)
    requires pairs != [] && PairsParts(s, pairs, gap, pair, after, rest) && UnlinePair(p) == UnlinePair(pairs[0])
    requires Stands(text, m, rest) && T.Is(text, m + |rest|, BRACE_CLOSE) && (rest != [] ==> Stands(text, m + 1, rest[1..]))
    ensures P.ReadsAs(T.InlineAt(text, if rest == [] then m else m + 1, line, before + [p]), InlineValue(0, before + pairs), m + |rest| + 1)
    decreases pairs, 0
  {
    hide Stands, GapText, PairText, T.InlineAt, UnlineValue, UnlinePair;
    if rest == [] {
      assert pairs[1..] == [];
      NoGapText();
      InlineCloses(text, m, line, before + [p], []);
      InlineAnyLine(line, before + [p]);
      P.InlinesAlike(before, p, pairs);
      Padded(before + [p]);
    } else {
      PairsRun(text, m + 1, rest[1..], pairs[1..], line, before + [p]);
      P.InlinesAlike(before, p, pairs);
    }
  }

  lemma {:induction false} PairRun(text: Text, i: nat, s: Text, pair: Pair)
    requires Stands(text, i, s) && PairText(s, pair) && ValueEnds(text, i + |s|)
    ensures i < |text| && P.NoGap(text[i]) && text[i] != BRACKET_OPEN && text[i] != BRACE_CLOSE
    ensures
      var r := T.PairAt(text, i);
      r.Some? && r.value.next == i + |s| && UnlinePair(r.value.value) == UnlinePair(pair)
    decreases pair, 3
  {
    hide Stands, KeyText, ValueText, T.Key, T.ValueAt, T.Blank, Spaces, UnlineValue, ValueEnds;
    var key, spaces, value :| PairParts(s, pair, key, spaces, value);
    var j := i + |key|;
    P.StandsFirst(text, i, s);
    StandsCut(text, i, key, [T.EQUALS] + (spaces + value));
    P.StandsUnit(text, j, T.EQUALS, spaces + value);
    StandsCut(text, j + 1, spaces, value);
    KeyRun(text, i, key, pair.parts, []);
    Padded(pair.parts);
    ValueRun(text, j + 1 + |spaces|, value, pair.value);
    SpacesEnd(text, j + 1, spaces);
  }

  // --- Statements ---

  // The end of a statement's line.
  ghost predicate EndsAt(text: Text, j: nat, end: Text) {
    Stands(text, j, end) && (LineText(end) || (LastText(end) && j + |end| == |text|))
  }

  lemma EndCut(text: Text, j: nat, end: Text) returns (spaces: Text, comment: Text, feed: Text)
    requires EndsAt(text, j, end)
    ensures LineParts(end, spaces, comment, feed) && (feed == LINE_FEED || (feed == NO_TEXT && j + |end| == |text|))
  {
    hide LineParts;
    if LineText(end) {
      feed := LINE_FEED;
      spaces, comment :| LineParts(end, spaces, comment, LINE_FEED);
    } else {
      feed := NO_TEXT;
      spaces, comment :| LineParts(end, spaces, comment, NO_TEXT);
    }
  }

  lemma EndFollows(text: Text, j: nat, end: Text)
    requires EndsAt(text, j, end)
    ensures T.EndOfLine(text, j) == Some(j + |end|) && ValueEnds(text, j)
  {
    if LineText(end) { LineRun(text, j, end); } else { LastRun(text, j, end); }
    hide T.EndOfLine, LineText, LastText;
    var spaces, comment, feed := EndCut(text, j, end);
    EndUnits(end, spaces, comment, feed);
    if end != [] {
      P.StandsFirst(text, j, end);
      assert |end| > 1 ==> text[j + 1] == end[1];
    }
  }

  lemma EndUnits(end: Text, spaces: Text, comment: Text, feed: Text)
    requires LineParts(end, spaces, comment, feed) && (feed == LINE_FEED || feed == NO_TEXT)
    ensures end != [] ==> IsSpace(end[0]) || end[0] == HASH || end[0] == LF
    ensures |end| > 1 && IsSpace(end[0]) ==> !IsDigit(end[1])
  {
    var more := comment + feed;
    assert more != [] ==> more[0] == HASH || more[0] == LF;
    if spaces == [] {
      assert end == more;
    } else {
      assert end[0] == spaces[0];
      assert |end| > 1 ==> end[1] == if |spaces| > 1 then spaces[1] else more[0];
    }
  }

  lemma BracketText()
    ensures Ascii("[") == [BRACKET_OPEN] && Ascii("[[") == [BRACKET_OPEN, BRACKET_OPEN]
    ensures Ascii("]") == [BRACKET_CLOSE] && Ascii("]]") == [BRACKET_CLOSE, BRACKET_CLOSE]
  {
  }

  lemma HeaderStands(text: Text, i: nat, s: Text, many: bool, parts: Parts, key: Text)
    requires Stands(text, i, s) && HeaderParts(s, many, parts, key)
    ensures
      var n := if many then 2 else 1;
      var j := i + n + |key|;
      && T.Is(text, i, BRACKET_OPEN) && (many ==> T.Is(text, i + 1, BRACKET_OPEN)) && Stands(text, i + n, key)
      && T.Is(text, j, BRACKET_CLOSE) && (many ==> T.Is(text, j + 1, BRACKET_CLOSE)) && i + |s| == j + n
  {
    BracketText();
    hide Stands, KeyText, Ascii;
    var n := if many then 2 else 1;
    var open, close := if many then Ascii("[[") else Ascii("["), if many then Ascii("]]") else Ascii("]");
    StandsCut(text, i, open, key + close);
    StandsCut(text, i + n, key, close);
    PairStands(text, i, open);
    PairStands(text, i + n + |key|, close);
  }

  lemma PairStands(text: Text, i: nat, s: Text)
    requires Stands(text, i, s) && 1 <= |s| <= 2
    ensures T.Is(text, i, s[0]) && (|s| == 2 ==> T.Is(text, i + 1, s[1]))
  {
    assert text[i + 0] == s[0];
    assert |s| == 2 ==> text[i + 1] == s[1];
  }

  lemma HeaderRun(text: Text, i: nat, s: Text, line: nat, many: bool, parts: Parts, end: Text)
    requires Stands(text, i, s) && StmtText(s, Header(line, many, parts)) && EndsAt(text, i + |s|, end)
    ensures T.Is(text, i, BRACKET_OPEN)
    ensures P.StmtReadsAs(T.HeaderAt(text, i), Header(line, many, parts), i + |s| + |end|)
  {
    hide Stands, KeyText, T.Key, T.EndOfLine, T.LineAt, EndsAt, HeaderParts, ValueEnds, T.HeaderAt;
    var key :| HeaderParts(s, many, parts, key);
    HeaderStands(text, i, s, many, parts, key);
    assert KeyText(key, parts) by { HeaderKey(s, many, parts, key); }
    var n := if many then 2 else 1;
    KeyRun(text, i + n, key, parts, []);
    Padded(parts);
    EndFollows(text, i + |s|, end);
    HeaderStep(text, i, many, parts, i + n + |key|, i + |s| + |end|);
  }

  lemma HeaderKey(s: Text, many: bool, parts: Parts, key: Text)
    requires HeaderParts(s, many, parts, key)
    ensures KeyText(key, parts)
  {
    hide KeyText;
  }

  lemma HeaderStep(text: Text, i: nat, many: bool, parts: Parts, k: nat, next: nat)
    requires T.Is(text, i, BRACKET_OPEN) && (T.Is(text, i + 1, BRACKET_OPEN) <==> many)
    requires
      var n := if many then 2 else 1;
      && i + n <= |text| && T.Key(text, i + n, []) == Some(T.Read(parts, k))
      && T.Is(text, k, BRACKET_CLOSE) && (many ==> T.Is(text, k + 1, BRACKET_CLOSE))
      && k + n <= |text| && T.EndOfLine(text, k + n) == Some(next)
    ensures T.HeaderAt(text, i) == Some(T.Read(Header(T.LineAt(text, i), many, parts), next))
  {
    hide T.Key, T.EndOfLine, T.LineAt;
  }

  lemma BindRun(text: Text, i: nat, s: Text, stmt: Stmt, end: Text)
    requires stmt.Bind? && Stands(text, i, s) && StmtText(s, stmt) && EndsAt(text, i + |s|, end)
    ensures i < |text| && P.NoGap(text[i]) && text[i] != BRACKET_OPEN
    ensures P.StmtReadsAs(T.BindAt(text, i), stmt, i + |s| + |end|)
  {
    hide Stands, PairText, T.PairAt, T.EndOfLine, T.LineAt, EndsAt, ValueEnds, UnlineValue;
    EndFollows(text, i + |s|, end);
    PairRun(text, i, s, Pair(stmt.parts, stmt.value));
  }

  lemma StmtRun(text: Text, i: nat, s: Text, stmt: Stmt, end: Text)
    requires Stands(text, i, s) && StmtText(s, stmt) && EndsAt(text, i + |s|, end)
    ensures i < |text| && P.NoGap(text[i])
    ensures P.StmtReadsAs(T.StmtAt(text, i), stmt, i + |s| + |end|)
  {
    hide Stands, StmtText, T.HeaderAt, T.BindAt, EndsAt, UnlineStmt;
    match stmt
    case Header(line, many, parts) => HeaderRun(text, i, s, line, many, parts, end);
    case Bind(_, _, _) => BindRun(text, i, s, stmt, end);
  }

  lemma DocCut(s: Text, stmts: seq<Stmt>) returns (gap: Text, stmt: Text, end: Text, rest: Text)
    requires stmts != [] && DocText(s, stmts)
    ensures DocParts(s, stmts, gap, stmt, end, rest)
  {
    hide GapText, StmtText, LineText, LastText;
    gap, stmt, end, rest :| DocParts(s, stmts, gap, stmt, end, rest);
  }

  lemma DocStands(text: Text, i: nat, s: Text, stmts: seq<Stmt>, gap: Text, stmt: Text, end: Text, rest: Text)
    requires stmts != [] && Stands(text, i, s) && DocParts(s, stmts, gap, stmt, end, rest) && i + |s| == |text|
    ensures
      var j := i + |gap|;
      var k := j + |stmt|;
      var m := k + |end|;
      && Stands(text, i, gap) && Stands(text, j, stmt) && EndsAt(text, k, end) && Stands(text, m, rest) && m + |rest| == |text|
  {
    hide Stands, GapText, StmtText, LineText, LastText, DocText;
    var j := i + |gap|;
    var k := j + |stmt|;
    StandsCut(text, i, gap, stmt + (end + rest));
    StandsCut(text, j, stmt, end + rest);
    StandsCut(text, k, end, rest);
  }

  lemma StmtsStep(text: Text, i: nat, before: seq<Stmt>, j: nat, stmt: Stmt, next: nat)
    requires i <= |text| && T.Gap(text, i) == j < |text| && T.StmtAt(text, j) == Some(T.Read(stmt, next))
    ensures T.Stmts(text, i, before) == T.Stmts(text, next, before + [stmt])
  {
    hide T.StmtAt, T.Gap;
  }

  lemma StmtsEnd(text: Text, i: nat, before: seq<Stmt>)
    requires i <= |text| && T.Gap(text, i) == |text|
    ensures T.Stmts(text, i, before) == Some(before)
  {
    hide T.Gap;
  }

  lemma {:induction false} DocRun(text: Text, i: nat, s: Text, stmts: seq<Stmt>, before: seq<Stmt>)
    requires Stands(text, i, s) && DocText(s, stmts) && i + |s| == |text|
    ensures
      var r := T.Stmts(text, i, before);
      r.Some? && UnlineStmts(r.value) == UnlineStmts(before + stmts)
    decreases |stmts|
  {
    hide Stands, GapText, StmtText, T.StmtAt, T.Gap, T.Stmts, EndsAt, UnlineStmt, UnlineStmts, LastText;
    if stmts == [] {
      var gap, last :| s == gap + last && GapText(gap) && LastText(last);
      StandsCut(text, i, gap, last);
      GapRun(text, i, gap);
      LastRun(text, i + |gap|, last);
      StmtsEnd(text, i, before);
      Padded(before);
    } else {
      hide DocParts;
      var gap, stmt, end, rest := DocCut(s, stmts);
      DocStands(text, i, s, stmts, gap, stmt, end, rest);
      DocPartsAre(s, stmts, gap, stmt, end, rest);
      var j := i + |gap|;
      GapRun(text, i, gap);
      StmtRun(text, j, stmt, stmts[0], end);
      P.GapStays(text, j);
      var read := T.StmtAt(text, j).value;
      StmtsStep(text, i, before, j, read.value, read.next);
      DocRun(text, read.next, rest, stmts[1..], before + [read.value]);
      P.StmtsAlike(before, read.value, stmts);
    }
  }

  lemma DocPartsAre(s: Text, stmts: seq<Stmt>, gap: Text, stmt: Text, end: Text, rest: Text)
    requires stmts != [] && DocParts(s, stmts, gap, stmt, end, rest)
    ensures GapText(gap) && StmtText(stmt, stmts[0]) && DocText(rest, stmts[1..])
  {
    hide GapText, StmtText, DocText;
  }

  // A text of the grammar is read as its statements, but for lines.
  lemma Accepts(text: Text, stmts: seq<Stmt>)
    requires DocText(text, stmts)
    ensures
      var r := T.Stmts(text, 0, []);
      r.Some? && UnlineStmts(r.value) == UnlineStmts(stmts)
  {
    hide DocText, T.Stmts, UnlineStmts;
    DocRun(text, 0, text, stmts, []);
    Padded(stmts);
  }
}
