// Whatever the reader reads, the grammar relates.

module TomlYields {
  import opened Options
  import opened Text
  import opened TomlTrees
  import opened TomlGrammar
  import opened TomlStrings
  import A = TomlAccepts
  import N = TomlNormal
  import P = TomlPrint
  import T = TomlText

  lemma SliceCut(text: Text, i: nat, j: nat, k: nat)
    requires i <= j <= k <= |text|
    ensures text[i..k] == text[i..j] + text[j..k]
  {
  }

  lemma SliceFront(text: Text, i: nat, k: nat)
    requires i < k <= |text|
    ensures text[i..k] == [text[i]] + text[i + 1..k] && text[i..k][0] == text[i] && text[i..k][1..] == text[i + 1..k]
  {
  }

  lemma SliceStands(text: Text, i: nat, k: nat)
    requires i <= k <= |text|
    ensures Stands(text, i, text[i..k])
  {
  }

  // --- Space, comments and line ends ---

  lemma BlankYields(text: Text, i: nat)
    requires i <= |text|
    ensures Spaces(text[i..T.Blank(text, i)])
  {
  }

  lemma CommentYields(text: Text, i: nat)
    requires i <= |text|
    ensures CommentText(text[i..T.Comment(text, i)])
    ensures T.Comment(text, i) == i || T.Comment(text, i) == |text| || text[T.Comment(text, i)] == LF
  {
  }

  // From spaces and a comment to the end of the line, or of the text.
  lemma LineYields(text: Text, i: nat)
    requires i <= |text|
    ensures
      var j := T.Comment(text, T.Blank(text, i));
      && (j < |text| && text[j] == LF ==> LineText(text[i..j + 1]))
      && (j == |text| ==> LastText(text[i..j]))
      && (j < |text| && text[j] != LF ==> Spaces(text[i..j]))
  {
    var b := T.Blank(text, i);
    var j := T.Comment(text, b);
    BlankYields(text, i);
    CommentYields(text, b);
    hide T.Blank, T.Comment, Spaces, CommentText;
    SliceCut(text, i, b, j);
    if j < |text| && text[j] == LF {
      SliceCut(text, i, b, j + 1);
      SliceCut(text, b, j, j + 1);
      assert text[j..j + 1] == LINE_FEED;
      assert LineParts(text[i..j + 1], text[i..b], text[b..j], LINE_FEED);
    }
    if j == |text| {
      Padded(text[b..j]);
      assert LineParts(text[i..j], text[i..b], text[b..j], NO_TEXT);
    }
  }

  // What the reader passes between statements and items.
  ghost predicate Passed(s: Text, last: bool) {
    if last then exists gap, end :: s == gap + end && GapText(gap) && LastText(end)
    else GapText(s)
  }

  lemma PassedLine(line: Text, rest: Text, last: bool)
    requires LineText(line) && line != [] && Passed(rest, last)
    ensures Passed(line + rest, last)
  {
    hide LineText, LastText;
    if last {
      var gap, end :| rest == gap + end && GapText(gap) && LastText(end);
      assert GapParts(line + gap, line, gap);
      Assoc(line, gap, end);
    } else {
      assert GapParts(line + rest, line, rest);
    }
  }

  lemma {:induction false} GapYields(text: Text, i: nat)
    requires i <= |text|
    ensures Passed(text[i..T.Gap(text, i)], T.Gap(text, i) == |text|)
    decreases |text| - i
  {
    hide T.Comment, T.Blank, LineText, LastText, Passed, Spaces;
    var j := T.Comment(text, T.Blank(text, i));
    LineYields(text, i);
    if T.Is(text, j, LF) {
      GapYields(text, j + 1);
      SliceCut(text, i, j + 1, T.Gap(text, j + 1));
      PassedLine(text[i..j + 1], text[j + 1..T.Gap(text, j + 1)], T.Gap(text, j + 1) == |text|);
    } else {
      PassedHere(text[i..j], j == |text|);
    }
  }

  lemma PassedHere(s: Text, last: bool)
    requires if last then LastText(s) else Spaces(s)
    ensures Passed(s, last)
  {
    hide LastText;
    if last {
      Padded(s);
      assert GapText([]);
    }
  }

  lemma EndYields(text: Text, i: nat, next: nat)
    requires i <= |text| && T.EndOfLine(text, i) == Some(next)
    ensures LineText(text[i..next]) || (LastText(text[i..next]) && next == |text|)
  {
    LineYields(text, i);
    hide T.Comment, T.Blank, LineText, LastText;
  }

  // --- Strings ---

  lemma HexStands(c: Unit)
    requires IsHex(c)
    ensures DigitStands(c, DigitValue(c))
  {
  }

  lemma {:induction false} CodePush(s: Text, c: Unit, d: nat, before: nat, most: nat)
    requires CodeText(s, before, most) && DigitStands(c, d)
    ensures CodeText(s + [c], before, most * 16 + d)
    decreases |s|
  {
    hide DigitStands;
    if s == [] {
      assert (s + [c])[0] == c && (s + [c])[1..] == [];
      assert CodeText([], before * 16 + d, most * 16 + d);
    } else {
      var first: nat :| DigitStands(s[0], first) && CodeText(s[1..], before * 16 + first, most);
      assert (s + [c])[0] == s[0] && (s + [c])[1..] == s[1..] + [c];
      CodePush(s[1..], c, d, before * 16 + first, most);
    }
  }

  lemma {:induction false} HexYields(s: Text)
    requires forall k :: 0 <= k < |s| ==> IsHex(s[k])
    ensures CodeText(s, 0, HexNumber(s))
    decreases |s|
  {
    hide CodeText, DigitStands, IsHex, DigitValue;
    if s == [] {
      NoDigits();
    } else {
      var init, c := s[..|s| - 1], s[|s| - 1];
      assert s == init + [c];
      HexYields(init);
      HexStands(c);
      CodePush(init, c, DigitValue(c), 0, HexNumber(init));
    }
  }

  lemma NoDigits()
    ensures CodeText([], 0, 0)
  {
  }

  lemma Utf16Yields(code: nat)
    requires code <= 0x10FFFF
    ensures Utf16(FromCodePoint(code), code)
  {
    if code >= 0x1_0000 {
      var high, low := (code - 0x1_0000) / 0x400, (code - 0x1_0000) % 0x400;
      assert code - 0x1_0000 == high * 0x400 + low && 0 <= high < 0x400 && 0 <= low < 0x400;
    }
  }

  lemma LetterYields(c: Unit) returns (k: nat)
    requires T.SimpleEscape(c).Some?
    ensures k < 8 && c == ESCAPE_LETTERS[k] as int && T.SimpleEscape(c) == Some(ESCAPE_VALUES[k])
  {
    k := if c == 0x62 then 0 else if c == 0x74 then 1 else if c == 0x6E then 2 else if c == 0x66 then 3
         else if c == 0x72 then 4 else if c == 0x65 then 5 else if c == 0x22 then 6 else 7;
  }

  lemma EscapeYields(text: Text, i: nat, value: Text, next: nat)
    requires i <= |text| && T.Escape(text, i) == Some(T.Read(value, next))
    ensures EscapeText(text[i..next], value)
  {
    if T.SimpleEscape(text[i]).Some? {
      var k := LetterYields(text[i]);
      assert text[i..i + 1][0] == text[i];
    } else {
      CodeYields(text, i, value, next);
    }
  }

  lemma CodeYields(text: Text, i: nat, value: Text, next: nat)
    requires i < |text| && T.SimpleEscape(text[i]).None? && T.Escape(text, i) == Some(T.Read(value, next))
    ensures EscapeText(text[i..next], value)
  {
    hide T.SimpleEscape, HexNumber, IsHex, FromCodePoint, CodeText, Utf16;
    var width := T.EscapeWidth(text[i]);
    var hex := text[i + 1..i + 1 + width];
    A.WidthIs(text[i]);
    HexYields(hex);
    Utf16Yields(HexNumber(hex));
    SliceFront(text, i, next);
  }

  lemma OneLineClosed(quote: Unit)
    ensures OneLineText([quote], quote, [])
  {
  }

  lemma OneLineEscaped(s: Text, escape: Text, rest: Text, c: Text, more: Text)
    requires s == [BACKSLASH] + (escape + rest) && EscapeText(escape, c) && OneLineText(rest, QUOTE, more)
    ensures OneLineText(s, QUOTE, c + more)
  {
    hide EscapeText;
    assert OneLineParts(s, QUOTE, c + more, escape, rest, c, more);
  }

  lemma OneLinePlain(s: Text, quote: Unit, more: Text)
    requires s != [] && s[0] != quote && s[0] != LF && !(s[0] == BACKSLASH && quote == QUOTE) && OneLineText(s[1..], quote, more)
    ensures OneLineText(s, quote, [s[0]] + more)
  {
    hide EscapeText;
    Front(s[0], more);
  }

  lemma {:induction false} OneLineYields(text: Text, i: nat, quote: Unit, out: Text) returns (value: Text)
    requires i <= |text| && T.OneLineString(text, i, quote, out).Some?
    ensures
      var r := T.OneLineString(text, i, quote, out).value;
      r.value == out + value && OneLineText(text[i..r.next], quote, value)
    decreases |text| - i
  {
    hide T.Escape, EscapeText, OneLineText;
    var next := T.OneLineString(text, i, quote, out).value.next;
    SliceFront(text, i, next);
    if text[i] == quote {
      value := [];
      assert text[i..i + 1] == [quote];
      OneLineClosed(quote);
    } else if text[i] == BACKSLASH && quote == QUOTE {
      var e := T.Escape(text, i + 1).value;
      var more := OneLineYields(text, e.next, quote, out + e.value);
      value := e.value + more;
      Assoc(out, e.value, more);
      EscapeYields(text, i + 1, e.value, e.next);
      SliceCut(text, i + 1, e.next, next);
      OneLineEscaped(text[i..next], text[i + 1..e.next], text[e.next..next], e.value, more);
    } else {
      var more := OneLineYields(text, i + 1, quote, out + [text[i]]);
      value := [text[i]] + more;
      Assoc(out, [text[i]], more);
      OneLinePlain(text[i..next], quote, more);
    }
  }

  lemma {:induction false} WhiteYields(text: Text, i: nat)
    requires i <= |text|
    ensures forall k :: i <= k < T.White(text, i) ==> text[k] in WHITE_SPACE
    ensures T.White(text, i) < |text| ==> text[T.White(text, i)] !in WHITE_SPACE
    decreases |text| - i
  {
    hide T.IsWhite, WHITE_SPACE;
    if i < |text| {
      A.WhiteIs(text[i]);
      if T.IsWhite(text[i]) {
        WhiteYields(text, i + 1);
      }
    }
  }

  lemma SwallowYields(text: Text, i: nat, next: nat)
    requires T.Is(text, i, BACKSLASH) && T.AtLineEnd(text, i + 1) && T.White(text, i + 1) < next <= |text|
    ensures
      var j, w := T.Blank(text, i + 1), T.White(text, i + 1);
      && j < w && Swallowed(text[i..next], text[i + 1..j], text[j + 1..w], text[w..next])
  {
    hide T.Blank, T.White, Spaces, Stands, WHITE_SPACE, T.IsWhite;
    var j, w := T.Blank(text, i + 1), T.White(text, i + 1);
    assert j - i - 1 < 200 && T.Is(text, j, LF) by { LineEndAt(text, i + 1); }
    BlankYields(text, i + 1);
    SliceStands(text, i + 1, j);
    A.SpacesWhite(text, i + 1, text[i + 1..j]);
    A.FeedIsWhite();
    A.WhiteIs(LF);
    A.WhiteFront(text, j);
    WhiteYields(text, j + 1);
    SwallowCut(text, i, j, w, next);
    assert forall c :: c in text[j + 1..w] ==> c in WHITE_SPACE;
    assert text[w..next][0] == text[w];
  }

  lemma LineEndAt(text: Text, i: nat)
    requires i <= |text| && T.AtLineEnd(text, i)
    ensures T.Blank(text, i) < i + 200 && T.Is(text, T.Blank(text, i), LF)
  {
  }

  lemma SwallowCut(text: Text, i: nat, j: nat, w: nat, next: nat)
    requires i < j < w <= next <= |text| && text[i] == BACKSLASH && text[j] == LF
    ensures text[i..next] == ['\\' as int] + (text[i + 1..j] + (['\n' as int] + (text[j + 1..w] + text[w..next])))
  {
    SliceFront(text, i, next);
    SliceCut(text, i + 1, j, next);
    SliceFront(text, j, next);
    SliceCut(text, j + 1, w, next);
  }

  lemma RepeatSlice(text: Text, i: nat, quote: Unit, n: nat)
    requires T.Three(text, i, quote) && n == T.Extra(text, i + 3, quote)
    ensures i + 3 + n <= |text| && text[i..i + 3 + n] == Quotes(quote, 3 + n)
  {
    var s := text[i..i + 3 + n];
    assert forall k :: 0 <= k < |s| ==> s[k] == quote;
  }

  predicate Closes(s: Text, quote: Unit) {
    |s| >= 3 && s[0] == s[1] == s[2] == quote
  }

  lemma LongClosed(quote: Unit, n: nat)
    requires n <= 2
    ensures LongText(Quotes(quote, 3 + n), quote, Quotes(quote, n))
  {
  }

  lemma LongSwallowed(s: Text, value: Text, spaces: Text, white: Text, rest: Text)
    requires s != [] && s[0] == BACKSLASH && !Closes(s, QUOTE)
    requires |rest| < |s| && Swallowed(s, spaces, white, rest) && LongText(rest, QUOTE, value)
    ensures LongText(s, QUOTE, value)
  {
    hide Swallowed, EscapeText;
    assert SwallowParts(s, QUOTE, value, spaces, white, rest);
  }

  lemma LongEscaped(s: Text, escape: Text, rest: Text, c: Text, more: Text)
    requires s == [BACKSLASH] + (escape + rest) && !Closes(s, QUOTE)
    requires EscapeText(escape, c) && LongText(rest, QUOTE, more)
    ensures LongText(s, QUOTE, c + more)
  {
    hide Swallowed, EscapeText;
    assert LongEscape(s, QUOTE, c + more, escape, rest, c, more);
  }

  lemma LongPlain(s: Text, quote: Unit, more: Text)
    requires s != [] && !Closes(s, quote) && !(s[0] == BACKSLASH && quote == QUOTE) && LongText(s[1..], quote, more)
    ensures LongText(s, quote, [s[0]] + more)
  {
    hide Swallowed, EscapeText;
    Front(s[0], more);
  }

  lemma {:induction false} LongYields(text: Text, i: nat, quote: Unit, out: Text) returns (value: Text)
    requires i <= |text| && T.LongString(text, i, quote, out).Some?
    ensures
      var r := T.LongString(text, i, quote, out).value;
      r.value == out + value && LongText(text[i..r.next], quote, value)
    decreases |text| - i
  {
    hide T.Escape, EscapeText, T.White, T.AtLineEnd, Swallowed, LongText;
    var next := T.LongString(text, i, quote, out).value.next;
    SliceFront(text, i, next);
    var s := text[i..next];
    if T.Three(text, i, quote) {
      var n := T.Extra(text, i + 3, quote);
      RepeatSlice(text, i, quote, n);
      A.RepeatIs(quote, n);
      value := Quotes(quote, n);
      LongClosed(quote, n);
    } else {
      assert |s| >= 3 ==> s[1] == text[i + 1] && s[2] == text[i + 2];
      assert !Closes(s, quote);
      hide T.Three, Closes;
      if text[i] == BACKSLASH && quote == QUOTE {
        value := SlashYields(text, i, out);
      } else {
        var more := LongYields(text, i + 1, quote, out + [text[i]]);
        value := [text[i]] + more;
        Assoc(out, [text[i]], more);
        LongPlain(s, quote, more);
      }
    }
  }

  // From a backslash on.
  lemma {:induction false} SlashYields(text: Text, i: nat, out: Text) returns (value: Text)
    requires T.Is(text, i, BACKSLASH) && !T.Three(text, i, QUOTE) && T.LongString(text, i, QUOTE, out).Some?
    requires !Closes(text[i..T.LongString(text, i, QUOTE, out).value.next], QUOTE)
    ensures
      var r := T.LongString(text, i, QUOTE, out).value;
      r.value == out + value && LongText(text[i..r.next], QUOTE, value)
    decreases |text| - i, 0
  {
    hide T.Escape, EscapeText, T.White, T.AtLineEnd, Swallowed, LongText, T.Three, Closes;
    var next := T.LongString(text, i, QUOTE, out).value.next;
    SliceFront(text, i, next);
    if T.AtLineEnd(text, i + 1) {
      var j, w := T.Blank(text, i + 1), T.White(text, i + 1);
      value := LongYields(text, w, QUOTE, out);
      SwallowYields(text, i, next);
      LongSwallowed(text[i..next], value, text[i + 1..j], text[j + 1..w], text[w..next]);
    } else {
      var e := T.Escape(text, i + 1).value;
      var more := LongYields(text, e.next, QUOTE, out + e.value);
      value := e.value + more;
      Assoc(out, e.value, more);
      EscapeYields(text, i + 1, e.value, e.next);
      SliceCut(text, i + 1, e.next, next);
      LongEscaped(text[i..next], text[i + 1..e.next], text[e.next..next], e.value, more);
    }
  }

  lemma StringYields(text: Text, i: nat)
    requires i < |text| && T.IsQuote(text[i]) && T.String(text, i).Some?
    ensures
      var r := T.String(text, i).value;
      && StringText(text[i..r.next], r.value)
      && (T.Three(text, i, text[i]) <==> (|text[i..r.next]| >= 3 && text[i] == text[i + 1] == text[i + 2]))
      && (!T.Three(text, i, text[i]) ==> OneLineString(text[i..r.next], r.value))
  {
    hide OneLineText, LongText, T.OneLineString, T.LongString;
    var r := T.String(text, i).value;
    var s, quote := text[i..r.next], text[i];
    if T.Three(text, i, quote) {
      var n := if T.Is(text, i + 3, LF) then i + 4 else i + 3;
      var value := LongYields(text, n, quote, []);
      Padded(value);
      A.LongSize(text[n..r.next], quote, value);
      assert s[n - i..] == text[n..r.next];
      assert s[0] == s[1] == s[2] == quote && s[3] == text[i + 3];
    } else {
      var value := OneLineYields(text, i + 1, quote, []);
      Padded(value);
      assert s[1..] == text[i + 1..r.next];
      assert s[0] == quote && s[1] == text[i + 1];
      assert |s| >= 3 ==> s[2] == text[i + 2];
    }
  }

  // --- Keys ---

  lemma PartYields(text: Text, i: nat)
    requires i <= |text| && T.KeyPart(text, i).Some?
    ensures PartText(text[i..T.KeyPart(text, i).value.next], T.KeyPart(text, i).value.value)
  {
    hide T.String, StringText, OneLineText, LongText;
    var r := T.KeyPart(text, i).value;
    if i < |text| && T.IsQuote(text[i]) {
      StringYields(text, i);
      hide OneLineString;
      assert |text[i..r.next]| >= 3 ==> text[i..r.next][0] == text[i] && text[i..r.next][1] == text[i + 1] && text[i..r.next][2] == text[i + 2];
    } else {
      var s := text[i..r.next];
      forall k | 0 <= k < |s|
        ensures BareUnit(s[k])
      {
        assert T.InKind(T.KeyUnits, text[i + k]);
        A.UnitIs(s[k]);
      }
    }
  }

  lemma {:induction false} KeyYields(text: Text, i: nat, before: Parts) returns (parts: Parts)
    requires i <= |text| && T.Key(text, i, before).Some?
    ensures
      var r := T.Key(text, i, before).value;
      r.value == before + parts && KeyText(text[i..r.next], parts)
    decreases |text| - i
  {
    hide T.KeyPart, PartText, Spaces, T.Blank;
    var next := T.Key(text, i, before).value.next;
    var j := T.Blank(text, i);
    var part := T.KeyPart(text, j).value;
    var m := T.Blank(text, part.next);
    BlankYields(text, i);
    PartYields(text, j);
    BlankYields(text, part.next);
    SliceCut(text, i, j, next);
    SliceCut(text, j, part.next, next);
    SliceCut(text, part.next, m, next);
    if T.Is(text, m, DOT) {
      var more := KeyYields(text, m + 1, before + [part.value]);
      parts := [part.value] + more;
      Assoc(before, [part.value], more);
      Front(part.value, more);
      SliceFront(text, m, next);
      KeyTextSome(text[m + 1..next], more);
    } else {
      parts := [part.value];
      assert text[m..next] == [];
    }
    assert KeyParts(text[i..next], parts, text[i..j], text[j..part.next], text[part.next..m], text[m..next]);
  }

  lemma KeyTextSome(s: Text, parts: Parts)
    requires KeyText(s, parts)
    ensures parts != []
  {
  }

  // --- Values ---

  lemma DateYields(text: Text, i: nat, j: nat, n: nat)
    requires i <= j && j + n <= |text| && T.IsDate(text[i..j]) && n > 0 && T.TimeSize(text, j) == n
    ensures DatedText(text[i..j + n])
  {
    N.TimedIsPrintable(text, i, j, n);
    var s := text[i..j + n];
    assert T.IsDate(s[..10]);
    assert forall k :: 0 <= k < 10 ==> s[..10][k] == s[k];
    DateUnits(s[..10]);
    assert T.Digits(s, 11, 2);
  }

  lemma DateUnits(s: Text)
    requires T.IsDate(s)
    ensures |s| == 10 && DigitUnit(s[0]) && DigitUnit(s[1]) && DigitUnit(s[2]) && DigitUnit(s[3]) && s[4] == '-' as int
    ensures DigitUnit(s[5]) && DigitUnit(s[6]) && s[7] == '-' as int && DigitUnit(s[8]) && DigitUnit(s[9])
  {
    assert T.Digits(s, 0, 4) && T.Digits(s, 5, 2) && T.Digits(s, 8, 2);
  }

  lemma BareYields(text: Text, i: nat)
    requires i <= |text| && T.Bare(text, i).Some?
    ensures ValueText(text[i..T.Bare(text, i).value.next], T.Bare(text, i).value.value)
  {
    hide T.Run, T.LineAt, T.IsDate, T.TimeSize, DatedText, Ascii;
    var j := T.Run(text, i, i + 256, T.ValueUnits);
    var n := if T.IsDate(text[i..j]) then T.TimeSize(text, j) else 0;
    var s := text[i..j + n];
    A.WordIs();
    if s != TRUE_WORD && s != FALSE_WORD {
      if n > 0 {
        DateYields(text, i, j, n);
      } else {
        forall k | 0 <= k < |s|
          ensures ValueUnit(s[k])
        {
          assert T.InKind(T.ValueUnits, text[i + k]);
          A.UnitIs(s[k]);
        }
        assert RawText(s);
      }
    }
  }

  lemma {:induction false} ValueYields(text: Text, i: nat)
    requires i <= |text| && T.ValueAt(text, i).Some?
    ensures var r := T.ValueAt(text, i).value; ValueText(text[i..r.next], r.value)
    decreases |text| - i, 2
  {
    hide T.String, T.Bare, T.ListAt, T.InlineAt, T.LineAt, StringText, ItemsText, PairsText;
    if i < |text| && T.IsQuote(text[i]) {
      StringYields(text, i);
    } else if T.Is(text, i, BRACKET_OPEN) {
      var items := ItemsYield(text, i + 1, T.LineAt(text, i), []);
      Padded(items);
      Bracketed(text, i, T.ListAt(text, i + 1, T.LineAt(text, i), []).value.next, BRACKET_CLOSE);
    } else if T.Is(text, i, BRACE_OPEN) {
      var pairs := PairsYield(text, i + 1, T.LineAt(text, i), []);
      Padded(pairs);
      Bracketed(text, i, T.InlineAt(text, i + 1, T.LineAt(text, i), []).value.next, BRACE_CLOSE);
    } else {
      BareYields(text, i);
    }
  }

  lemma Bracketed(text: Text, i: nat, next: nat, close: Unit)
    requires i + 1 < next <= |text| && text[next - 1] == close
    ensures
      var s := text[i..next];
      |s| >= 2 && s[0] == text[i] && s[|s| - 1] == close && s[1..|s| - 1] == text[i + 1..next - 1]
  {
    var s, t := text[i..next], text[i + 1..next - 1];
    assert |s[1..|s| - 1]| == |t|;
    assert forall k :: 0 <= k < |t| ==> s[1..|s| - 1][k] == t[k];
  }

  // What follows an item.
  lemma SeparatorYields(text: Text, i: nat, close: Unit, next: nat)
    requires i <= |text| && T.Separator(text, i, close) == Some(next) && next < |text| && close != COMMA
    requires close == BRACKET_CLOSE || close == BRACE_CLOSE
    ensures
      var m := T.Gap(text, i);
      && m < |text| && GapText(text[i..m])
      && ((text[m] == COMMA && next == m + 1) || (text[m] == close && next == m && T.Gap(text, m) == m))
  {
    hide T.Gap, GapText;
    GapYields(text, i);
    var m := T.Gap(text, i);
    if m < |text| && text[m] == close {
      P.GapStays(text, m);
    }
  }

  lemma GapBefore(text: Text, i: nat, j: nat)
    requires i <= |text| && T.Gap(text, i) == j < |text|
    ensures GapText(text[i..j])
  {
    GapYields(text, i);
  }

  // Four stretches side by side.
  lemma FourCuts(text: Text, i: nat, j: nat, k: nat, m: nat, end: nat)
    requires i <= j <= k <= m <= end <= |text|
    ensures text[i..end] == text[i..j] + (text[j..k] + (text[k..m] + text[m..end]))
  {
    SliceCut(text, i, j, end);
    SliceCut(text, j, k, end);
    SliceCut(text, k, m, end);
  }

  lemma {:induction false} ItemsYield(text: Text, i: nat, line: nat, before: seq<Value>) returns (items: seq<Value>)
    requires i <= |text| && T.ListAt(text, i, line, before).Some?
    ensures
      var r := T.ListAt(text, i, line, before).value;
      && i < r.next && text[r.next - 1] == BRACKET_CLOSE
      && r.value == ListValue(line, before + items) && ItemsText(text[i..r.next - 1], items)
    decreases |text| - i, 3
  {
    hide T.ValueAt, T.Gap, T.Separator, GapText, ValueText, ItemsText;
    var j := T.Gap(text, i);
    GapBefore(text, i, j);
    if text[j] == BRACKET_CLOSE {
      items := [];
      Padded(before);
      NoItems(text[i..j]);
    } else {
      var item := T.ValueAt(text, j).value;
      ValueYields(text, j);
      var k := item.next;
      var next := T.Separator(text, k, BRACKET_CLOSE).value;
      items := ItemsAfter(text, i, j, k, next, line, before, item.value);
    }
  }

  lemma NoItems(s: Text)
    requires GapText(s)
    ensures ItemsText(s, []) && PairsText(s, [])
  {
    hide GapText;
  }

  // An item, what follows it, and the rest of the list.
  lemma {:induction false} ItemsAfter(text: Text, i: nat, j: nat, k: nat, next: nat, line: nat, before: seq<Value>, item: Value)
      returns (items: seq<Value>)
    requires i <= j < k <= next <= |text| && GapText(text[i..j]) && ValueText(text[j..k], item)
    requires T.Separator(text, k, BRACKET_CLOSE) == Some(next) && T.ListAt(text, next, line, before + [item]).Some?
    ensures
      var r := T.ListAt(text, next, line, before + [item]).value;
      && i < r.next && text[r.next - 1] == BRACKET_CLOSE
      && r.value == ListValue(line, before + items) && ItemsText(text[i..r.next - 1], items)
    decreases |text| - next, 4
  {
    hide T.ValueAt, T.Gap, T.Separator, GapText, ValueText, ItemsText, T.ListAt;
    ListInside(text, next, line, before + [item]);
    SeparatorYields(text, k, BRACKET_CLOSE, next);
    var m := T.Gap(text, k);
    var end := T.ListAt(text, next, line, before + [item]).value.next - 1;
    if text[m] == COMMA {
      var more := ItemsYield(text, next, line, before + [item]);
      items := [item] + more;
      Assoc(before, [item], more);
      FourCuts(text, i, j, k, m, end);
      SliceFront(text, m, end);
      ItemsOn(text[i..end], items, text[i..j], text[j..k], text[k..m], text[m..end], more);
    } else {
      ListClosed(text, m, line, before + [item]);
      items := [item];
      FourCuts(text, i, j, k, m, m);
      assert text[m..m] == [];
      ItemsOn(text[i..m], items, text[i..j], text[j..k], text[k..m], text[m..m], []);
    }
  }

  lemma ListInside(text: Text, i: nat, line: nat, items: seq<Value>)
    requires i <= |text| && T.ListAt(text, i, line, items).Some?
    ensures i < |text|
  {
    hide T.ValueAt, T.Separator;
  }

  lemma ListClosed(text: Text, m: nat, line: nat, items: seq<Value>)
    requires T.Is(text, m, BRACKET_CLOSE) && T.Gap(text, m) == m
    ensures T.ListAt(text, m, line, items) == Some(T.Read(ListValue(line, items), m + 1))
  {
    hide T.Gap, T.ValueAt, T.Separator;
  }

  lemma ItemsOn(s: Text, items: seq<Value>, gap: Text, item: Text, after: Text, rest: Text, more: seq<Value>)
    requires items != [] && items[1..] == more && s == gap + (item + (after + rest))
    requires GapText(gap) && GapText(after) && ValueText(item, items[0])
    requires if rest == [] then more == [] else rest[0] == COMMA && ItemsText(rest[1..], more)
    ensures ItemsText(s, items)
  {
    hide GapText, ValueText;
    assert ItemsParts(s, items, gap, item, after, rest);
  }

  lemma {:induction false} PairsYield(text: Text, i: nat, line: nat, before: seq<Pair>) returns (pairs: seq<Pair>)
    requires i <= |text| && T.InlineAt(text, i, line, before).Some?
    ensures
      var r := T.InlineAt(text, i, line, before).value;
      && i < r.next && text[r.next - 1] == BRACE_CLOSE
      && r.value == InlineValue(line, before + pairs) && PairsText(text[i..r.next - 1], pairs)
    decreases |text| - i, 5
  {
    hide T.PairAt, T.Gap, T.Separator, GapText, PairText, PairsText;
    var j := T.Gap(text, i);
    GapBefore(text, i, j);
    if text[j] == BRACE_CLOSE {
      pairs := [];
      Padded(before);
      NoItems(text[i..j]);
    } else {
      var pair := T.PairAt(text, j).value;
      GapStops(text, i);
      PairYields(text, j);
      var k := pair.next;
      var next := T.Separator(text, k, BRACE_CLOSE).value;
      pairs := PairsAfter(text, i, j, k, next, line, before, pair.value);
    }
  }

  lemma {:induction false} GapStops(text: Text, i: nat)
    requires i <= |text|
    ensures T.Gap(text, i) < |text| ==> P.NoGap(text[T.Gap(text, i)])
    decreases |text| - i
  {
    var b := T.Blank(text, i);
    var j := T.Comment(text, b);
    CommentYields(text, b);
    hide T.Blank, T.ToLineFeed;
    BlankStops(text, i);
    if T.Is(text, j, LF) {
      GapStops(text, j + 1);
    }
  }

  lemma BlankStops(text: Text, i: nat)
    requires i <= |text|
    ensures T.Blank(text, i) < |text| ==> !IsSpace(text[T.Blank(text, i)])
  {
  }

  lemma {:induction false} PairsAfter(text: Text, i: nat, j: nat, k: nat, next: nat, line: nat, before: seq<Pair>, pair: Pair)
      returns (pairs: seq<Pair>)
    requires i <= j < k <= next <= |text| && GapText(text[i..j]) && PairText(text[j..k], pair)
    requires T.Separator(text, k, BRACE_CLOSE) == Some(next) && T.InlineAt(text, next, line, before + [pair]).Some?
    ensures
      var r := T.InlineAt(text, next, line, before + [pair]).value;
      && i < r.next && text[r.next - 1] == BRACE_CLOSE
      && r.value == InlineValue(line, before + pairs) && PairsText(text[i..r.next - 1], pairs)
    decreases |text| - next, 6
  {
    hide T.PairAt, T.Gap, T.Separator, GapText, PairText, PairsText, T.InlineAt;
    InlineInside(text, next, line, before + [pair]);
    SeparatorYields(text, k, BRACE_CLOSE, next);
    var m := T.Gap(text, k);
    var end := T.InlineAt(text, next, line, before + [pair]).value.next - 1;
    if text[m] == COMMA {
      var more := PairsYield(text, next, line, before + [pair]);
      pairs := [pair] + more;
      Assoc(before, [pair], more);
      FourCuts(text, i, j, k, m, end);
      SliceFront(text, m, end);
      PairsOn(text[i..end], pairs, text[i..j], text[j..k], text[k..m], text[m..end], more);
    } else {
      InlineClosed(text, m, line, before + [pair]);
      pairs := [pair];
      FourCuts(text, i, j, k, m, m);
      assert text[m..m] == [];
      PairsOn(text[i..m], pairs, text[i..j], text[j..k], text[k..m], text[m..m], []);
    }
  }

  lemma InlineInside(text: Text, i: nat, line: nat, pairs: seq<Pair>)
    requires i <= |text| && T.InlineAt(text, i, line, pairs).Some?
    ensures i < |text|
  {
    hide T.PairAt, T.Separator;
  }

  lemma InlineClosed(text: Text, m: nat, line: nat, pairs: seq<Pair>)
    requires T.Is(text, m, BRACE_CLOSE) && T.Gap(text, m) == m
    ensures T.InlineAt(text, m, line, pairs) == Some(T.Read(InlineValue(line, pairs), m + 1))
  {
    hide T.Gap, T.PairAt, T.Separator;
  }

  lemma PairsOn(s: Text, pairs: seq<Pair>, gap: Text, pair: Text, after: Text, rest: Text, more: seq<Pair>)
    requires pairs != [] && pairs[1..] == more && s == gap + (pair + (after + rest))
    requires GapText(gap) && GapText(after) && PairText(pair, pairs[0])
    requires if rest == [] then more == [] else rest[0] == COMMA && PairsText(rest[1..], more)
    ensures PairsText(s, pairs)
  {
    hide GapText, PairText;
    assert PairsParts(s, pairs, gap, pair, after, rest);
  }

  lemma {:induction false} PairYields(text: Text, i: nat)
    requires i < |text| && !IsSpace(text[i]) && T.PairAt(text, i).Some?
    ensures var r := T.PairAt(text, i).value; PairText(text[i..r.next], r.value)
    decreases |text| - i, 4
  {
    hide T.Key, T.ValueAt, T.Blank, KeyText, ValueText, Spaces;
    var parts := KeyYields(text, i, []);
    Padded(parts);
    var j := T.Key(text, i, []).value.next;
    var v := T.Blank(text, j + 1);
    var r := T.PairAt(text, i).value;
    BlankYields(text, j + 1);
    ValueYields(text, v);
    SliceCut(text, i, j, r.next);
    SliceFront(text, j, r.next);
    SliceCut(text, j + 1, v, r.next);
    SliceFront(text, i, r.next);
    assert PairParts(text[i..r.next], r.value, text[i..j], text[j + 1..v], text[v..r.next]);
  }

  // --- Statements ---

  lemma HeaderYields(text: Text, i: nat) returns (k: nat)
    requires T.Is(text, i, BRACKET_OPEN) && T.HeaderAt(text, i).Some?
    ensures
      var r := T.HeaderAt(text, i).value;
      i < k <= r.next && StmtText(text[i..k], r.value) && T.EndOfLine(text, k) == Some(r.next)
  {
    hide T.Key, KeyText, T.EndOfLine, T.LineAt, Ascii;
    var many := T.Is(text, i + 1, BRACKET_OPEN);
    var n := if many then 2 else 1;
    var parts := KeyYields(text, i + n, []);
    Padded(parts);
    var j := T.Key(text, i + n, []).value.next;
    k := j + n;
    A.BracketText();
    SliceCut(text, i, i + n, k);
    SliceCut(text, i + n, j, k);
    assert text[i..i + n] == if many then Ascii("[[") else Ascii("[");
    assert text[j..k] == if many then Ascii("]]") else Ascii("]");
    assert HeaderParts(text[i..k], many, parts, text[i + n..j]);
  }

  lemma BindYields(text: Text, i: nat) returns (k: nat)
    requires i < |text| && !IsSpace(text[i]) && T.BindAt(text, i).Some?
    ensures
      var r := T.BindAt(text, i).value;
      i < k <= r.next && StmtText(text[i..k], r.value) && T.EndOfLine(text, k) == Some(r.next)
  {
    hide T.PairAt, PairText, T.EndOfLine, T.LineAt;
    PairYields(text, i);
    k := T.PairAt(text, i).value.next;
  }

  lemma StmtYields(text: Text, i: nat) returns (k: nat)
    requires i < |text| && !IsSpace(text[i]) && T.StmtAt(text, i).Some?
    ensures
      var r := T.StmtAt(text, i).value;
      i < k <= r.next && StmtText(text[i..k], r.value)
      && (LineText(text[k..r.next]) || (LastText(text[k..r.next]) && r.next == |text|))
  {
    hide T.HeaderAt, T.BindAt, StmtText, T.EndOfLine, LineText, LastText;
    if text[i] == BRACKET_OPEN {
      k := HeaderYields(text, i);
    } else {
      k := BindYields(text, i);
    }
    EndYields(text, k, T.StmtAt(text, i).value.next);
  }

  lemma {:induction false} DocYields(text: Text, i: nat, before: seq<Stmt>) returns (stmts: seq<Stmt>)
    requires i <= |text| && T.Stmts(text, i, before).Some?
    ensures T.Stmts(text, i, before).value == before + stmts && DocText(text[i..], stmts)
    decreases |text| - i
  {
    hide T.StmtAt, T.Gap, StmtText, GapText, LineText, LastText, DocText;
    var j := T.Gap(text, i);
    if j == |text| {
      stmts := [];
      Padded(before);
      GapYields(text, i);
      assert text[i..j] == text[i..];
      NoStmts(text[i..]);
    } else {
      GapStops(text, i);
      GapBefore(text, i, j);
      var read := T.StmtAt(text, j).value;
      var k := StmtYields(text, j);
      var more := DocYields(text, read.next, before + [read.value]);
      stmts := [read.value] + more;
      Assoc(before, [read.value], more);
      FourCuts(text, i, j, k, read.next, |text|);
      assert text[i..|text|] == text[i..] && text[read.next..|text|] == text[read.next..];
      Front(read.value, more);
      assert read.next == |text| ==> text[read.next..] == [];
      DocOn(text[i..], stmts, text[i..j], text[j..k], text[k..read.next], text[read.next..]);
    }
  }

  lemma NoStmts(s: Text)
    requires Passed(s, true)
    ensures DocText(s, [])
  {
    hide GapText, LastText;
  }

  lemma DocOn(s: Text, stmts: seq<Stmt>, gap: Text, stmt: Text, end: Text, rest: Text)
    requires stmts != [] && s == gap + (stmt + (end + rest)) && GapText(gap) && StmtText(stmt, stmts[0])
    requires LineText(end) || (LastText(end) && rest == [])
    requires DocText(rest, stmts[1..])
    ensures DocText(s, stmts)
  {
    hide GapText, StmtText, LineText, LastText;
    assert DocParts(s, stmts, gap, stmt, end, rest);
  }

  // What is read is a text of the grammar.
  lemma Yields(text: Text)
    requires T.Stmts(text, 0, []).Some?
    ensures DocText(text, T.Stmts(text, 0, []).value)
  {
    hide DocText, T.Stmts;
    var stmts := DocYields(text, 0, []);
    Padded(stmts);
    assert text[0..] == text;
  }
}
