// The text-to-token lexer under the grammar: the engine's matchers as strict
// JSON configures them, with `#LN` a token of its own (ts/src/jsonl.ts:59).

module Lexer {
  import opened Options
  import opened Text
  import opened Trees

  // `#OB #CB #OS #CS #CL #CA #LN`, a string, number or word with its value,
  // and a unit no matcher takes. The end of input, `#ZZ`, is the end of a list.
  datatype Token =
    | OpenBrace
    | CloseBrace
    | OpenSquare
    | CloseSquare
    | Colon
    | Comma
    | Line
    | Value(scalar: Scalar)
    | Bad

  // One match: the token, if the parser sees it, and the units it takes.
  datatype Match = Match(token: Option<Token>, size: nat)

  function NewlineRun(s: Text): (n: nat)
    ensures n <= |s| && (forall k :: 0 <= k < n ==> IsNewline(s[k]))
    ensures n < |s| ==> !IsNewline(s[n])
  {
    if s == [] || !IsNewline(s[0]) then 0 else 1 + NewlineRun(s[1..])
  }

  function DigitRun(s: Text): (n: nat)
    ensures n <= |s| && (forall k :: 0 <= k < n ==> IsDigit(s[k]))
    ensures n < |s| ==> !IsDigit(s[n])
  {
    if s == [] || !IsDigit(s[0]) then 0 else 1 + DigitRun(s[1..])
  }

  // RFC 8259, section 6, as longest matches; 0 where the part does not match.
  function WholeSize(s: Text): (n: nat)
    ensures n <= |s|
  {
    if s != [] && s[0] == ZERO then 1 else DigitRun(s)
  }

  function FracSize(s: Text): (n: nat)
    ensures n <= |s|
  {
    if s != [] && s[0] == DOT && DigitRun(s[1..]) > 0 then 1 + DigitRun(s[1..]) else 0
  }

  function ExpSize(s: Text): (n: nat)
    ensures n <= |s|
  {
    if s == [] || (s[0] != 0x65 && s[0] != 0x45) then 0
    else if |s| >= 2 && (s[1] == PLUS || s[1] == MINUS) then
      if DigitRun(s[2..]) > 0 then 2 + DigitRun(s[2..]) else 0
    else
      if DigitRun(s[1..]) > 0 then 1 + DigitRun(s[1..]) else 0
  }

  function UnsignedSize(s: Text): (n: nat)
    ensures n <= |s|
  {
    var w := WholeSize(s);
    if w == 0 then 0
    else
      var f := FracSize(s[w..]);
      w + f + ExpSize(s[w + f..])
  }

  function NumberSize(s: Text): (n: nat)
    ensures n <= |s|
  {
    if s == [] || s[0] != MINUS then UnsignedSize(s)
    else if UnsignedSize(s[1..]) == 0 then 0
    else 1 + UnsignedSize(s[1..])
  }

  // RFC 8259, section 7.
  function HexValue(c: Unit): (d: int)
    ensures -1 <= d < 16
  {
    if 0x30 <= c <= 0x39 then c - 0x30
    else if 0x61 <= c <= 0x66 then c - 0x61 + 10
    else if 0x41 <= c <= 0x46 then c - 0x41 + 10
    else -1
  }

  // The unit a string's next character spells and its size; size 0 where the
  // string cannot go on.
  function CharAt(s: Text): (r: (Unit, nat))
    ensures r.1 <= |s|
  {
    if s == [] || s[0] < 0x20 || s[0] == QUOTE then (0, 0)
    else if s[0] != BACKSLASH then (s[0], 1)
    else if |s| < 2 then (0, 0)
    else match s[1]
      case 0x22 => (QUOTE, 2)
      case 0x5C => (BACKSLASH, 2)
      case 0x2F => (SLASH, 2)
      case 0x62 => (0x08, 2)
      case 0x66 => (0x0C, 2)
      case 0x6E => (LF, 2)
      case 0x72 => (CR, 2)
      case 0x74 => (TAB, 2)
      case 0x75 =>
        if |s| >= 6 && HexValue(s[2]) >= 0 && HexValue(s[3]) >= 0 && HexValue(s[4]) >= 0 && HexValue(s[5]) >= 0 then
          (HexValue(s[2]) * 4096 + HexValue(s[3]) * 256 + HexValue(s[4]) * 16 + HexValue(s[5]), 6)
        else (0, 0)
      case _ => (0, 0)
  }

  function Prepend(c: Unit, n: nat, rest: Option<(Text, nat)>): (r: Option<(Text, nat)>)
    ensures r.Some? <==> rest.Some?
    ensures r.Some? ==> r.value.1 == n + rest.value.1
  {
    match rest
    case None => None
    case Some((value, size)) => Some(([c] + value, n + size))
  }

  // The rest of a string after its opening quote: its value and its size with
  // the closing quote.
  function StringRest(s: Text): (r: Option<(Text, nat)>)
    ensures r.Some? ==> 0 < r.value.1 <= |s|
    decreases |s|
  {
    if s != [] && s[0] == QUOTE then Some(([], 1))
    else if CharAt(s).1 == 0 then None
    else Prepend(CharAt(s).0, CharAt(s).1, StringRest(s[CharAt(s).1..]))
  }

  function One(token: Token): Match {
    Match(Some(token), 1)
  }

  function NumberMatch(s: Text): (r: Match)
    requires s != []
    ensures 0 < r.size <= |s|
  {
    var n := NumberSize(s);
    if n == 0 then One(Bad)
    else
      NumberSizeSound(s);
      var lexeme: Lexeme := s[..n];
      Match(Some(Value(Num(Finite(lexeme)))), n)
  }

  function Next(s: Text): (r: Match)
    requires s != []
    ensures 0 < r.size <= |s|
  {
    var c := s[0];
    if IsNewline(c) then Match(Some(Line), NewlineRun(s))
    else if IsSpace(c) then Match(None, 1)
    else if c == BRACE_OPEN then One(OpenBrace)
    else if c == BRACE_CLOSE then One(CloseBrace)
    else if c == BRACKET_OPEN then One(OpenSquare)
    else if c == BRACKET_CLOSE then One(CloseSquare)
    else if c == COLON then One(Token.Colon)
    else if c == COMMA then One(Token.Comma)
    else if c == QUOTE then
      match StringRest(s[1..])
      case None => One(Bad)
      case Some((value, size)) => Match(Some(Value(Str(value))), 1 + size)
    else if StartsWith(s, NULL_WORD) then Match(Some(Value(Null)), |NULL_WORD|)
    else if StartsWith(s, TRUE_WORD) then Match(Some(Value(Bool(true))), |TRUE_WORD|)
    else if StartsWith(s, FALSE_WORD) then Match(Some(Value(Bool(false))), |FALSE_WORD|)
    else NumberMatch(s)
  }

  // The tokens the parser sees: `#SP` is in the IGNORE set and `#LN` is not.
  function Shown(token: Option<Token>): seq<Token> {
    match token case None => [] case Some(t) => [t]
  }

  function Lex(s: Text): seq<Token>
    decreases |s|
  {
    if s == [] then [] else Shown(Next(s).token) + Lex(s[Next(s).size..])
  }

  // Where the k-th token the parser sees begins; the end of s is `#ZZ`'s place.
  function Place(s: Text, k: nat): (at: nat)
    ensures at <= |s|
    decreases |s|
  {
    if s == [] then 0
    else
      var m := Next(s);
      if m.token.Some? && k == 0 then 0
      else m.size + Place(s[m.size..], if m.token.Some? then k - 1 else k)
  }

  // Longest matches are numbers.
  lemma PartSizesSound(s: Text)
    ensures WholeSize(s) > 0 ==> IntPart(s[..WholeSize(s)])
    ensures FracPart(s[..FracSize(s)])
    ensures ExpPart(s[..ExpSize(s)])
  {
    var f, e := FracSize(s), ExpSize(s);
    if f > 0 {
      assert s[..f][1..] == s[1..][..f - 1];
    }
    if e > 0 {
      if |s| >= 2 && (s[1] == PLUS || s[1] == MINUS) {
        assert s[..e][2..] == s[2..][..e - 2];
      } else {
        assert s[..e][1..] == s[1..][..e - 1];
      }
    }
  }

  lemma CutParts(s: Text, w: nat, f: nat, e: nat)
    requires w + f + e <= |s|
    ensures s[..w + f + e] == s[..w] + s[w..][..f] + s[w + f..][..e]
  {
  }

  lemma UnsignedSizeSound(s: Text)
    requires UnsignedSize(s) > 0
    ensures IsUnsigned(s[..UnsignedSize(s)])
  {
    hide WholeSize, FracSize, ExpSize;
    var w := WholeSize(s);
    var f := FracSize(s[w..]);
    var e := ExpSize(s[w + f..]);
    var whole, frac, exp := s[..w], s[w..][..f], s[w + f..][..e];
    assert IntPart(whole) by { PartSizesSound(s); }
    assert FracPart(frac) by { PartSizesSound(s[w..]); }
    assert ExpPart(exp) by { PartSizesSound(s[w + f..]); }
    CutParts(s, w, f, e);
    assert UnsignedSize(s) == w + f + e;
    UnsignedOfParts(s[..UnsignedSize(s)], whole, frac, exp);
  }

  lemma NumberSizeSound(s: Text)
    requires NumberSize(s) > 0
    ensures IsNumber(s[..NumberSize(s)])
  {
    if s[0] == MINUS {
      UnsignedSizeSound(s[1..]);
      assert s[..NumberSize(s)][1..] == s[1..][..UnsignedSize(s[1..])];
    } else {
      UnsignedSizeSound(s);
    }
  }
}
