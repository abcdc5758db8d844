// Template-literal escaping (ts/embed-translate.js:52-57), against a one-pass
// escaper and against how ECMA-262 (14th edition, sections 12.9.4 and 12.9.6)
// reads a template literal.

module Embed {
  import opened Options
  import opened Text

  const BACKTICK: Unit := 0x60
  const DOLLAR: Unit := 0x24

  const OPEN_SUBSTITUTION: Text := [DOLLAR, BRACE_OPEN]

  // replaceAll with a string pattern: left to right, no overlaps.
  function ReplaceAll(s: Text, pattern: Text, put: Text): Text
    requires pattern != []
    decreases |s|
  {
    if s == [] then []
    else if StartsWith(s, pattern) then put + ReplaceAll(s[|pattern|..], pattern, put)
    else [s[0]] + ReplaceAll(s[1..], pattern, put)
  }

  // The three replacements, one after the other.
  function ThreeReplacements(s: Text): Text {
    var slashed := ReplaceAll(s, [BACKSLASH], [BACKSLASH, BACKSLASH]);
    var ticked := ReplaceAll(slashed, [BACKTICK], [BACKSLASH, BACKTICK]);
    ReplaceAll(ticked, OPEN_SUBSTITUTION, [BACKSLASH, DOLLAR, BRACE_OPEN])
  }

  function TsString(s: Text): Text {
    [BACKTICK] + ThreeReplacements(s) + [BACKTICK]
  }

  // In one pass: a backslash before every backslash and backtick, and before
  // a dollar sign that a brace follows.
  function Escaped(s: Text): Text
    decreases |s|
  {
    if s == [] then []
    else if s[0] == BACKSLASH || s[0] == BACKTICK then [BACKSLASH, s[0]] + Escaped(s[1..])
    else if StartsWith(s, OPEN_SUBSTITUTION) then [BACKSLASH, DOLLAR, BRACE_OPEN] + Escaped(s[2..])
    else [s[0]] + Escaped(s[1..])
  }

  // The first two replacements in one pass.
  function Slashed(s: Text): Text {
    if s == [] then []
    else (if s[0] == BACKSLASH || s[0] == BACKTICK then [BACKSLASH, s[0]] else [s[0]]) + Slashed(s[1..])
  }

  lemma ReplaceOther(c: Unit, s: Text, pattern: Text, put: Text)
    requires pattern != [] && pattern[0] != c
    ensures ReplaceAll([c] + s, pattern, put) == [c] + ReplaceAll(s, pattern, put)
  {
    assert ([c] + s)[1..] == s;
    assert !StartsWith([c] + s, pattern);
  }

  lemma ReplaceUnit(c: Unit, s: Text, put: Text)
    ensures ReplaceAll([c] + s, [c], put) == put + ReplaceAll(s, [c], put)
  {
    assert ([c] + s)[..1] == [c];
    assert ([c] + s)[1..] == s;
  }

  lemma SlashFirst(s: Text)
    ensures
      ReplaceAll(ReplaceAll([BACKSLASH] + s, [BACKSLASH], [BACKSLASH, BACKSLASH]), [BACKTICK], [BACKSLASH, BACKTICK]) ==
      [BACKSLASH, BACKSLASH] + ReplaceAll(ReplaceAll(s, [BACKSLASH], [BACKSLASH, BACKSLASH]), [BACKTICK], [BACKSLASH, BACKTICK])
  {
    hide ReplaceAll;
    var rest := ReplaceAll(s, [BACKSLASH], [BACKSLASH, BACKSLASH]);
    ReplaceUnit(BACKSLASH, s, [BACKSLASH, BACKSLASH]);
    assert [BACKSLASH, BACKSLASH] + rest == [BACKSLASH] + ([BACKSLASH] + rest);
    ReplaceOther(BACKSLASH, [BACKSLASH] + rest, [BACKTICK], [BACKSLASH, BACKTICK]);
    ReplaceOther(BACKSLASH, rest, [BACKTICK], [BACKSLASH, BACKTICK]);
    var done := ReplaceAll(rest, [BACKTICK], [BACKSLASH, BACKTICK]);
    assert [BACKSLASH] + ([BACKSLASH] + done) == [BACKSLASH, BACKSLASH] + done;
  }

  lemma {:induction false} TwoInOne(s: Text)
    ensures ReplaceAll(ReplaceAll(s, [BACKSLASH], [BACKSLASH, BACKSLASH]), [BACKTICK], [BACKSLASH, BACKTICK]) == Slashed(s)
  {
    if s != [] {
      TwoInOne(s[1..]);
      hide ReplaceAll;
      var c, rest := s[0], ReplaceAll(s[1..], [BACKSLASH], [BACKSLASH, BACKSLASH]);
      assert s == [c] + s[1..];
      if c == BACKSLASH {
        SlashFirst(s[1..]);
      } else {
        ReplaceOther(c, s[1..], [BACKSLASH], [BACKSLASH, BACKSLASH]);
        if c == BACKTICK {
          ReplaceUnit(c, rest, [BACKSLASH, BACKTICK]);
        } else {
          ReplaceOther(c, rest, [BACKTICK], [BACKSLASH, BACKTICK]);
        }
      }
    }
  }

  // A brace follows a dollar sign in the slashed text exactly where one did.
  lemma SlashedOpens(s: Text)
    requires s != [] && s[0] == DOLLAR
    ensures StartsWith(Slashed(s), OPEN_SUBSTITUTION) <==> StartsWith(s, OPEN_SUBSTITUTION)
    ensures StartsWith(s, OPEN_SUBSTITUTION) ==> Slashed(s) == OPEN_SUBSTITUTION + Slashed(s[2..])
  {
    var t := Slashed(s);
    assert t == [DOLLAR] + Slashed(s[1..]);
    if |s| > 1 {
      assert s[1..][0] == s[1];
      assert t[1] == Slashed(s[1..])[0];
      assert t[..2] == [t[0], t[1]];
      assert s[..2] == [s[0], s[1]];
      assert s[1..][1..] == s[2..];
      if s[1] == BRACE_OPEN {
        assert Slashed(s[1..]) == [BRACE_OPEN] + Slashed(s[2..]);
      }
    } else {
      assert s[1..] == [];
      assert |t| == 1;
    }
  }

  lemma {:induction false} ThirdPass(s: Text)
    ensures ReplaceAll(Slashed(s), OPEN_SUBSTITUTION, [BACKSLASH, DOLLAR, BRACE_OPEN]) == Escaped(s)
    decreases |s|
  {
    var put := [BACKSLASH, DOLLAR, BRACE_OPEN];
    if s != [] {
      ThirdPass(s[1..]);
      var c, rest := s[0], Slashed(s[1..]);
      if c == BACKSLASH || c == BACKTICK {
        assert [BACKSLASH, c] + rest == [BACKSLASH] + ([c] + rest);
        ReplaceOther(BACKSLASH, [c] + rest, OPEN_SUBSTITUTION, put);
        ReplaceOther(c, rest, OPEN_SUBSTITUTION, put);
        assert [BACKSLASH] + ([c] + Escaped(s[1..])) == [BACKSLASH, c] + Escaped(s[1..]);
      } else if c == DOLLAR {
        SlashedOpens(s);
        if StartsWith(s, OPEN_SUBSTITUTION) {
          ThirdPass(s[2..]);
          assert Slashed(s)[2..] == Slashed(s[2..]);
        } else {
          assert Slashed(s)[1..] == rest;
        }
      } else {
        ReplaceOther(c, rest, OPEN_SUBSTITUTION, put);
        assert !StartsWith(s, OPEN_SUBSTITUTION);
      }
    }
  }

  // Three replacements in turn are the one-pass escaper.
  lemma OnePass(s: Text)
    ensures ThreeReplacements(s) == Escaped(s)
  {
    hide ReplaceAll, Escaped, Slashed;
    TwoInOne(s);
    ThirdPass(s);
  }

  // --- Reading a template literal ---

  datatype Template =
    | Closed(value: Text, rest: Text)  // up to the closing backtick
    | Substitution                     // `${` opens a substitution
    | BadEscape
    | Unclosed

  function Then(value: Text, more: Template): Template {
    if more.Closed? then Closed(value + more.value, more.rest) else more
  }

  predicate IsLineTerminator(c: Unit) {
    c == LF || c == CR || c == 0x2028 || c == 0x2029
  }

  function HexRun(s: Text): (n: nat)
    ensures n <= |s| && forall k :: 0 <= k < n ==> IsHex(s[k])
  {
    if s != [] && IsHex(s[0]) then 1 + HexRun(s[1..]) else 0
  }

  // \b \f \n \r \t \v
  function SingleEscape(c: Unit): Option<Unit> {
    if c == 0x62 then Some(0x08)
    else if c == 0x66 then Some(0x0C)
    else if c == 0x6E then Some(0x0A)
    else if c == 0x72 then Some(0x0D)
    else if c == 0x74 then Some(0x09)
    else if c == 0x76 then Some(0x0B)
    else None
  }

  datatype EscapeRead = EscapeRead(value: Text, size: nat)

  // What follows a backslash: its value and size; None where a template
  // literal is refused.
  function Escape(s: Text): (r: Option<EscapeRead>)
    requires s != []
    ensures r.Some? ==> 0 < r.value.size <= |s|
  {
    if StartsWith(s, [CR, LF]) then Some(EscapeRead([], 2))
    else if IsLineTerminator(s[0]) then Some(EscapeRead([], 1))
    else if SingleEscape(s[0]).Some? then Some(EscapeRead([SingleEscape(s[0]).value], 1))
    else if IsDigit(s[0]) then
      if s[0] == ZERO && (|s| == 1 || !IsDigit(s[1])) then Some(EscapeRead([0], 1)) else None
    else if s[0] == 0x78 then
      if HexRun(s[1..]) >= 2 then
        assert forall k :: 0 <= k < 2 ==> s[1..3][k] == s[1..][k];
        Some(EscapeRead([HexNumber(s[1..3])], 3))
      else None
    else if s[0] == 0x75 then UnicodeEscape(s)
    else Some(EscapeRead([s[0]], 1))
  }

  // \u and four digits, or any number of them in braces.
  function UnicodeEscape(s: Text): (r: Option<EscapeRead>)
    requires s != []
    ensures r.Some? ==> 0 < r.value.size <= |s|
  {
    if |s| > 1 && s[1] == BRACE_OPEN then
      var n := HexRun(s[2..]);
      if n == 0 || |s| <= n + 2 || s[n + 2] != BRACE_CLOSE then None
      else
        assert forall k :: 0 <= k < n ==> s[2..n + 2][k] == s[2..][k];
        if HexNumber(s[2..n + 2]) > 0x10FFFF then None
        else Some(EscapeRead(FromCodePoint(HexNumber(s[2..n + 2])), n + 3))
    else if HexRun(s[1..]) >= 4 then
      assert forall k :: 0 <= k < 4 ==> s[1..5][k] == s[1..][k];
      Some(EscapeRead(FromCodePoint(HexNumber(s[1..5])), 5))
    else None
  }

  // A template literal, from after its backtick. A carriage return, alone or
  // before a line feed, is read as a line feed.
  function Read(s: Text): Template
    decreases |s|
  {
    if s == [] then Unclosed
    else if s[0] == BACKTICK then Closed([], s[1..])
    else if StartsWith(s, OPEN_SUBSTITUTION) then Substitution
    else if s[0] == BACKSLASH then
      if |s| == 1 then Unclosed
      else match Escape(s[1..])
        case None => BadEscape
        case Some(e) => Then(e.value, Read(s[1 + e.size..]))
    else if StartsWith(s, [CR, LF]) then Then([LF], Read(s[2..]))
    else if s[0] == CR then Then([LF], Read(s[1..]))
    else Then([s[0]], Read(s[1..]))
  }

  // A text with its carriage returns as a template literal gives them back.
  function LineFeedsOnly(s: Text): Text
    decreases |s|
  {
    if s == [] then []
    else if StartsWith(s, [CR, LF]) then [LF] + LineFeedsOnly(s[2..])
    else [if s[0] == CR then LF else s[0]] + LineFeedsOnly(s[1..])
  }

  lemma FirstOf(c: Unit, s: Text, word: Text)
    requires word != [] && word[0] != c
    ensures !StartsWith([c] + s, word) && ([c] + s)[1..] == s
  {
    assert ([c] + s)[0] == c;
  }

  // An escaped unit reads as itself.
  lemma ReadEscapedUnit(c: Unit, s: Text)
    requires c == BACKSLASH || c == BACKTICK
    ensures Read([BACKSLASH, c] + s) == Then([c], Read(s))
  {
    var t := [BACKSLASH, c] + s;
    assert t == [BACKSLASH] + ([c] + s);
    FirstOf(BACKSLASH, [c] + s, OPEN_SUBSTITUTION);
    FirstOf(c, s, [CR, LF]);
    assert Escape(t[1..]) == Some(EscapeRead([c], 1));
    assert t[2..] == s;
  }

  lemma ReadEscapedDollar(s: Text)
    ensures Read([BACKSLASH, DOLLAR, BRACE_OPEN] + s) == Then([DOLLAR], Read([BRACE_OPEN] + s))
  {
    var t := [BACKSLASH, DOLLAR, BRACE_OPEN] + s;
    assert t == [BACKSLASH] + ([DOLLAR] + ([BRACE_OPEN] + s));
    FirstOf(BACKSLASH, [DOLLAR] + ([BRACE_OPEN] + s), OPEN_SUBSTITUTION);
    FirstOf(DOLLAR, [BRACE_OPEN] + s, [CR, LF]);
    assert Escape(t[1..]) == Some(EscapeRead([DOLLAR], 1));
    assert t[2..] == [BRACE_OPEN] + s;
  }

  // A unit that is neither special nor a carriage return.
  lemma ReadPlain(c: Unit, s: Text)
    requires c != BACKSLASH && c != BACKTICK && c != CR && !StartsWith([c] + s, OPEN_SUBSTITUTION)
    ensures Read([c] + s) == Then([c], Read(s))
  {
    FirstOf(c, s, [CR, LF]);
  }

  lemma ThenTwice(a: Text, b: Text, more: Template)
    ensures Then(a, Then(b, more)) == Then(a + b, more)
  {
    if more.Closed? {
      Assoc(a, b, more.value);
    }
  }

  // The escaped text does not open with a brace unless the text does.
  lemma EscapedOpens(s: Text)
    ensures Escaped(s) != [] && Escaped(s)[0] == BRACE_OPEN <==> s != [] && s[0] == BRACE_OPEN
    ensures Escaped(s) != [] && Escaped(s)[0] == LF <==> s != [] && s[0] == LF
  {
  }

  // The text that follows an escaped text in its literal opens as the escaped
  // text does.
  lemma NextUnit(s: Text, tail: Text, c: Unit)
    requires tail != [] && tail[0] == BACKTICK && (c == BRACE_OPEN || c == LF)
    ensures (Escaped(s) + tail)[0] == c <==> s != [] && s[0] == c
  {
    EscapedOpens(s);
    if s == [] {
      assert Escaped(s) + tail == tail;
    }
  }

  // What reading takes first from an escaped text: n units of the text, read
  // as `value`.
  ghost predicate TakesFirst(s: Text, tail: Text, n: nat, value: Text) {
    && 0 < n <= |s|
    && Read(Escaped(s) + tail) == Then(value, Read(Escaped(s[n..]) + tail))
    && LineFeedsOnly(s) == value + LineFeedsOnly(s[n..])
  }

  lemma TakesMark(s: Text, tail: Text)
    requires s != [] && (s[0] == BACKSLASH || s[0] == BACKTICK)
    ensures TakesFirst(s, tail, 1, [s[0]])
  {
    hide Read, Then;
    assert Escaped(s) + tail == [BACKSLASH, s[0]] + (Escaped(s[1..]) + tail);
    ReadEscapedUnit(s[0], Escaped(s[1..]) + tail);
    KeepsUnit(s);
  }

  lemma KeepsUnit(s: Text)
    requires s != [] && s[0] != CR
    ensures LineFeedsOnly(s) == [s[0]] + LineFeedsOnly(s[1..])
  {
    assert s == [s[0]] + s[1..];
    FirstOf(s[0], s[1..], [CR, LF]);
  }

  lemma TakesPlain(s: Text, tail: Text)
    requires s != [] && s[0] != BACKSLASH && s[0] != BACKTICK && s[0] != CR && s[0] != DOLLAR
    ensures TakesFirst(s, tail, 1, [s[0]])
  {
    hide Read, Then;
    assert s == [s[0]] + s[1..];
    FirstOf(s[0], s[1..], OPEN_SUBSTITUTION);
    assert Escaped(s) + tail == [s[0]] + (Escaped(s[1..]) + tail);
    FirstOf(s[0], Escaped(s[1..]) + tail, OPEN_SUBSTITUTION);
    ReadPlain(s[0], Escaped(s[1..]) + tail);
    KeepsUnit(s);
  }

  // A line break written as two units is read as one line feed.
  lemma TakesBoth(s: Text, tail: Text)
    requires StartsWith(s, [CR, LF])
    ensures TakesFirst(s, tail, 2, [LF])
  {
    hide Escape;
    var rest := Escaped(s[2..]) + tail;
    assert s[0] == s[..2][0] && s[1] == s[..2][1];
    assert s[1..] == [LF] + s[2..];
    assert Escaped(s) == [CR] + Escaped(s[1..]);
    assert Escaped(s[1..]) == [LF] + Escaped(s[2..]);
    var t := Escaped(s) + tail;
    assert t == [CR] + ([LF] + rest);
    FirstOf(CR, [LF] + rest, OPEN_SUBSTITUTION);
    assert t[..2] == [CR, LF] && t[2..] == rest;
  }

  lemma TakesReturn(s: Text, tail: Text)
    requires tail != [] && tail[0] == BACKTICK && s != [] && s[0] == CR && !StartsWith(s, [CR, LF])
    ensures TakesFirst(s, tail, 1, [LF])
  {
    var rest := Escaped(s[1..]) + tail;
    assert s == [CR] + s[1..];
    FirstOf(CR, s[1..], OPEN_SUBSTITUTION);
    assert Escaped(s) == [CR] + Escaped(s[1..]);
    assert |s| > 1 ==> s[..2] == [CR, s[1]];
    NextUnit(s[1..], tail, LF);
    hide Escaped;
    assert Escaped(s) + tail == [CR] + rest;
    ReadReturn(rest);
  }

  lemma ReadReturn(rest: Text)
    requires rest != [] && rest[0] != LF
    ensures Read([CR] + rest) == Then([LF], Read(rest))
  {
    hide Escape;
    var t := [CR] + rest;
    FirstOf(CR, rest, OPEN_SUBSTITUTION);
    assert t[..2] == [CR, rest[0]];
  }

  lemma TakesOpen(s: Text, tail: Text)
    requires StartsWith(s, OPEN_SUBSTITUTION)
    ensures TakesFirst(s, tail, 2, OPEN_SUBSTITUTION)
  {
    hide Read, Then;
    var rest := Escaped(s[2..]) + tail;
    assert s[0] == s[..2][0] && s[1] == s[..2][1];
    assert Escaped(s) + tail == [BACKSLASH, DOLLAR, BRACE_OPEN] + rest;
    ReadEscapedDollar(rest);
    FirstOf(BRACE_OPEN, rest, OPEN_SUBSTITUTION);
    ReadPlain(BRACE_OPEN, rest);
    ThenTwice([DOLLAR], [BRACE_OPEN], Read(rest));
    assert [DOLLAR] + [BRACE_OPEN] == OPEN_SUBSTITUTION;
    KeepsUnit(s);
    KeepsUnit(s[1..]);
    assert s[1..][1..] == s[2..];
    Assoc([DOLLAR], [BRACE_OPEN], LineFeedsOnly(s[2..]));
  }

  lemma TakesDollar(s: Text, tail: Text)
    requires tail != [] && tail[0] == BACKTICK && s != [] && s[0] == DOLLAR && !StartsWith(s, OPEN_SUBSTITUTION)
    ensures TakesFirst(s, tail, 1, [DOLLAR])
  {
    hide Read, Then, LineFeedsOnly;
    var rest := Escaped(s[1..]) + tail;
    assert Escaped(s) == [DOLLAR] + Escaped(s[1..]);
    assert |s| > 1 ==> s[..2] == [DOLLAR, s[1]];
    NextUnit(s[1..], tail, BRACE_OPEN);
    KeepsUnit(s);
    hide Escaped;
    assert Escaped(s) + tail == [DOLLAR] + rest;
    assert ([DOLLAR] + rest)[..2] == [DOLLAR, rest[0]];
    ReadPlain(DOLLAR, rest);
  }

  lemma TakesSome(s: Text, tail: Text) returns (n: nat, value: Text)
    requires tail != [] && tail[0] == BACKTICK && s != []
    ensures TakesFirst(s, tail, n, value)
  {
    hide TakesFirst;
    n, value := 1, [s[0]];
    if s[0] == BACKSLASH || s[0] == BACKTICK {
      TakesMark(s, tail);
    } else if StartsWith(s, [CR, LF]) {
      n, value := 2, [LF];
      TakesBoth(s, tail);
    } else if s[0] == CR {
      value := [LF];
      TakesReturn(s, tail);
    } else if StartsWith(s, OPEN_SUBSTITUTION) {
      n, value := 2, OPEN_SUBSTITUTION;
      TakesOpen(s, tail);
    } else if s[0] == DOLLAR {
      TakesDollar(s, tail);
    } else {
      TakesPlain(s, tail);
    }
  }

  // Reading back an escaped text gives the text, its carriage returns read as
  // line feeds, and goes on right after the closing backtick: no
  // substitution, no early close and no refused escape.
  lemma {:induction false} ReadsBack(s: Text, rest: Text)
    ensures Read(Escaped(s) + ([BACKTICK] + rest)) == Closed(LineFeedsOnly(s), rest)
    decreases |s|
  {
    var tail := [BACKTICK] + rest;
    if s == [] {
      ReadClose(rest);
      assert Escaped(s) + tail == tail;
    } else {
      hide Read, Escaped, LineFeedsOnly;
      var n, value := TakesSome(s, tail);
      ReadsBack(s[n..], rest);
    }
  }

  lemma ReadClose(rest: Text)
    ensures Read([BACKTICK] + rest) == Closed([], rest)
  {
    assert ([BACKTICK] + rest)[1..] == rest;
  }

  lemma {:induction false} NoReturnNoChange(s: Text)
    ensures LineFeedsOnly(s) == s <==> CR !in s
    ensures |LineFeedsOnly(s)| <= |s|
    ensures CR !in LineFeedsOnly(s)
    decreases |s|
  {
    if s != [] {
      NoReturnNoChange(s[1..]);
      assert s == [s[0]] + s[1..];
      if StartsWith(s, [CR, LF]) {
        NoReturnNoChange(s[2..]);
        assert s[0] == s[..2][0];
      }
    }
  }

  // The literal the generator writes for a text reads back as that text
  // exactly where the text has no carriage return.
  lemma TsStringReadsBack(s: Text, rest: Text)
    ensures
      var literal := TsString(s) + rest;
      && literal[0] == BACKTICK
      && Read(literal[1..]) == Closed(LineFeedsOnly(s), rest)
      && (Read(literal[1..]) == Closed(s, rest) <==> CR !in s)
  {
    hide Read, Escaped, ThreeReplacements, LineFeedsOnly, StartsWith;
    OnePass(s);
    ReadsBack(s, rest);
    NoReturnNoChange(s);
    assert (TsString(s) + rest)[1..] == Escaped(s) + ([BACKTICK] + rest);
  }
}
