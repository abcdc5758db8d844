// What the TOML reader's strings hold: plain ones their own text, and every
// text can be written so that it reads back.

module TomlStrings {
  import opened Options
  import opened Text
  import opened Trees
  import T = TomlText

  // A stretch of a text.
  ghost predicate Stands(text: Text, i: nat, s: Text) {
    i + |s| <= |text| && forall k :: 0 <= k < |s| ==> text[i + k] == s[k]
  }

  // A unit that stands for itself in a string of this quote.
  predicate IsPlain(c: Unit, quote: Unit) {
    c != quote && c != LF && !(c == BACKSLASH && quote == QUOTE)
  }

  lemma {:induction false} PlainReads(text: Text, i: nat, quote: Unit, s: Text, out: Text)
    requires Stands(text, i, s) && T.Is(text, i + |s|, quote) && quote != LF
    requires forall k :: 0 <= k < |s| ==> IsPlain(s[k], quote)
    ensures T.OneLineString(text, i, quote, out) == Some(T.Read(out + s, i + |s| + 1))
    decreases |s|
  {
    if s == [] {
      Padded(out);
    } else {
      hide T.Escape;
      assert text[i + 0] == s[0];
      assert [s[0]] + s[1..] == s;
      StandsApart(text, i, [s[0]], s[1..]);
      hide Stands;
      PlainReads(text, i + 1, quote, s[1..], out + [s[0]]);
      Assoc(out, [s[0]], s[1..]);
    }
  }

  // A string without escapes is what stands between its quotes.
  lemma PlainString(text: Text, i: nat, quote: Unit, s: Text)
    requires T.IsQuote(quote) && T.Is(text, i, quote) && !T.Three(text, i, quote)
    requires Stands(text, i + 1, s) && T.Is(text, i + 1 + |s|, quote)
    requires forall k :: 0 <= k < |s| ==> IsPlain(s[k], quote)
    ensures T.String(text, i) == Some(T.Read(s, i + |s| + 2))
  {
    PlainReads(text, i + 1, quote, s, []);
    Padded(s);
  }

  // A unit as `\\uXXXX`.
  function EscapedUnit(c: Unit): (r: Text)
    ensures |r| == 6
  {
    var high, low := c / 256, c % 256;
    [BACKSLASH, 0x75, HexDigit(high / 16), HexDigit(high % 16), HexDigit(low / 16), HexDigit(low % 16)]
  }

  function EscapedAll(s: Text): (r: Text)
    ensures |r| == 6 * |s|
  {
    if s == [] then [] else EscapedUnit(s[0]) + EscapedAll(s[1..])
  }

  lemma DigitBack(d: int)
    requires 0 <= d < 16
    ensures IsHex(HexDigit(d)) && DigitValue(HexDigit(d)) == d
  {
  }

  lemma FourDigits(a: Unit, b: Unit, c: Unit, d: Unit)
    requires IsHex(a) && IsHex(b) && IsHex(c) && IsHex(d)
    ensures HexNumber([a, b, c, d]) == DigitValue(a) * 4096 + DigitValue(b) * 256 + DigitValue(c) * 16 + DigitValue(d)
  {
    assert [a, b, c, d][..3] == [a, b, c];
    assert [a, b, c][..2] == [a, b];
    assert [a, b][..1] == [a];
    assert [a][..0] == [];
    assert HexNumber([a]) == DigitValue(a);
    assert HexNumber([a, b]) == DigitValue(a) * 16 + DigitValue(b);
    assert HexNumber([a, b, c]) == (DigitValue(a) * 16 + DigitValue(b)) * 16 + DigitValue(c);
  }

  lemma TwoDigits(d: int)
    requires 0 <= d < 256
    ensures d == d / 16 * 16 + d % 16 && 0 <= d / 16 < 16
  {
  }

  lemma FourBack(c: Unit)
    ensures
      var e := EscapedUnit(c);
      IsHex(e[2]) && IsHex(e[3]) && IsHex(e[4]) && IsHex(e[5]) && HexNumber([e[2], e[3], e[4], e[5]]) == c
  {
    hide HexNumber, HexDigit;
    var e := EscapedUnit(c);
    var high, low := c / 256, c % 256;
    TwoDigits(high);
    TwoDigits(low);
    DigitBack(high / 16);
    DigitBack(high % 16);
    DigitBack(low / 16);
    DigitBack(low % 16);
    FourDigits(e[2], e[3], e[4], e[5]);
  }

  lemma EscapeReads(text: Text, i: nat, c: Unit)
    requires Stands(text, i, EscapedUnit(c))
    ensures T.Escape(text, i + 1) == Some(T.Read([c], i + 6))
  {
    hide HexNumber, HexDigit;
    var e := EscapedUnit(c);
    FourBack(c);
    assert text[i + 1] == e[1] && text[i + 2] == e[2] && text[i + 3] == e[3] && text[i + 4] == e[4] && text[i + 5] == e[5];
    assert text[i + 2..i + 6] == [e[2], e[3], e[4], e[5]];
  }

  // A stretch in two parts.
  lemma StandsApart(text: Text, i: nat, a: Text, b: Text)
    requires Stands(text, i, a + b)
    ensures Stands(text, i, a) && Stands(text, i + |a|, b)
  {
    forall k | 0 <= k < |a|
      ensures text[i + k] == a[k]
    {
      assert (a + b)[k] == a[k];
    }
    forall k | 0 <= k < |b|
      ensures text[i + |a| + k] == b[k]
    {
      assert (a + b)[|a| + k] == b[k];
      assert text[i + (|a| + k)] == (a + b)[|a| + k];
    }
  }

  lemma {:induction false} EscapedReads(text: Text, i: nat, s: Text, out: Text)
    requires Stands(text, i, EscapedAll(s)) && T.Is(text, i + 6 * |s|, QUOTE)
    ensures T.OneLineString(text, i, QUOTE, out) == Some(T.Read(out + s, i + 6 * |s| + 1))
    decreases |s|
  {
    if s == [] {
      Padded(out);
    } else {
      var all, unit, rest := EscapedAll(s), EscapedUnit(s[0]), EscapedAll(s[1..]);
      StandsApart(text, i, unit, rest);
      EscapeReads(text, i, s[0]);
      assert text[i + 0] == unit[0];
      EscapedReads(text, i + 6, s[1..], out + [s[0]]);
      Assoc(out, [s[0]], s[1..]);
      assert [s[0]] + s[1..] == s;
    }
  }

  // Every text has a spelling that reads back as it, wherever it stands.
  lemma EscapedString(text: Text, i: nat, s: Text)
    requires s != [] && T.Is(text, i, QUOTE)
    requires Stands(text, i + 1, EscapedAll(s)) && T.Is(text, i + 1 + 6 * |s|, QUOTE)
    ensures T.String(text, i) == Some(T.Read(s, i + 6 * |s| + 2))
  {
    hide T.OneLineString, T.String, EscapedAll, Stands;
    EscapedOpens(text, i + 1, s);
    OneLineOpens(text, i);
    EscapedBody(text, i + 1, s);
  }

  lemma EscapedBody(text: Text, i: nat, s: Text)
    requires Stands(text, i, EscapedAll(s)) && T.Is(text, i + 6 * |s|, QUOTE)
    ensures T.OneLineString(text, i, QUOTE, []) == Some(T.Read(s, i + 6 * |s| + 1))
  {
    hide T.OneLineString, EscapedAll, Stands;
    EscapedReads(text, i, s, []);
    Padded(s);
  }

  lemma OneLineOpens(text: Text, i: nat)
    requires T.Is(text, i, QUOTE) && T.Is(text, i + 1, BACKSLASH)
    ensures T.String(text, i) == T.OneLineString(text, i + 1, QUOTE, [])
  {
    hide T.OneLineString, T.LongString;
  }

  lemma EscapedOpens(text: Text, i: nat, s: Text)
    requires s != [] && Stands(text, i, EscapedAll(s))
    ensures i < |text| && text[i] == BACKSLASH
  {
    StandsApart(text, i, EscapedUnit(s[0]), EscapedAll(s[1..]));
    assert text[i + 0] == EscapedUnit(s[0])[0];
  }
}
