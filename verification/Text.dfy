// Text as the repository's JavaScript sees it: a sequence of UTF-16 code units.

module Text {
  type Unit = c: int | 0 <= c < 0x1_0000

  type Text = seq<Unit>

  const TAB: Unit := 0x09
  const LF: Unit := 0x0A
  const CR: Unit := 0x0D
  const SPACE: Unit := 0x20
  const QUOTE: Unit := 0x22
  const HASH: Unit := 0x23
  const PLUS: Unit := 0x2B
  const COMMA: Unit := 0x2C
  const MINUS: Unit := 0x2D
  const DOT: Unit := 0x2E
  const SLASH: Unit := 0x2F
  const ZERO: Unit := 0x30
  const NINE: Unit := 0x39
  const COLON: Unit := 0x3A
  const BRACKET_OPEN: Unit := 0x5B
  const BACKSLASH: Unit := 0x5C
  const BRACKET_CLOSE: Unit := 0x5D
  const BRACE_OPEN: Unit := 0x7B
  const BRACE_CLOSE: Unit := 0x7D

  const NULL_WORD: Text := [0x6E, 0x75, 0x6C, 0x6C]
  const TRUE_WORD: Text := [0x74, 0x72, 0x75, 0x65]
  const FALSE_WORD: Text := [0x66, 0x61, 0x6C, 0x73, 0x65]

  // A word of the program's own, in code units.
  function Ascii(word: string): (t: Text)
    requires forall i :: 0 <= i < |word| ==> word[i] < 128 as char
    ensures |t| == |word|
  {
    seq(|word|, i requires 0 <= i < |word| => word[i] as int)
  }

  // The line characters of the engine's line matcher.
  predicate IsNewline(c: Unit) {
    c == LF || c == CR
  }

  // The characters of `#SP`.
  predicate IsSpace(c: Unit) {
    c == SPACE || c == TAB
  }

  predicate IsDigit(c: Unit) {
    ZERO <= c <= NINE
  }

  predicate StartsWith(s: Text, word: Text) {
    |word| <= |s| && s[..|word|] == word
  }

  predicate IsHex(c: Unit) {
    IsDigit(c) || 0x41 <= c <= 0x46 || 0x61 <= c <= 0x66
  }

  function DigitValue(c: Unit): (d: nat)
    requires IsHex(c)
    ensures d < 16
  {
    if IsDigit(c) then c - ZERO else if c <= 0x46 then c - 0x41 + 10 else c - 0x61 + 10
  }

  function HexNumber(s: Text): (v: nat)
    requires forall k :: 0 <= k < |s| ==> IsHex(s[k])
    ensures |s| <= 1 ==> v < 0x10
    ensures |s| <= 2 ==> v < 0x100
    ensures |s| <= 3 ==> v < 0x1000
    ensures |s| <= 4 ==> v < 0x1_0000
  {
    if s == [] then 0 else HexNumber(s[..|s| - 1]) * 16 + DigitValue(s[|s| - 1])
  }

  // A code point in UTF-16.
  function FromCodePoint(code: nat): Text
    requires code <= 0x10FFFF
  {
    if code < 0x1_0000 then [code]
    else [0xD800 + (code - 0x1_0000) / 0x400, 0xDC00 + (code - 0x1_0000) % 0x400]
  }

  predicate Blank(s: Text) {
    forall k :: 0 <= k < |s| ==> IsSpace(s[k])
  }

  predicate OneLine(s: Text) {
    forall k :: 0 <= k < |s| ==> !IsNewline(s[k])
  }

  // Concatenation is associative. Stated once: inside larger proofs the
  // solver is slow to see it.
  lemma Assoc<T>(a: seq<T>, b: seq<T>, c: seq<T>)
    ensures a + (b + c) == a + b + c
  {
  }

  lemma Padded<T>(s: seq<T>)
    ensures [] + s == s && s + [] == s
  {
  }

  lemma Front<T>(x: T, s: seq<T>)
    ensures ([x] + s)[0] == x && ([x] + s)[1..] == s
  {
  }

  lemma Front2<T>(x: T, y: T, s: seq<T>)
    ensures ([x, y] + s)[0] == x && ([x, y] + s)[1] == y && ([x, y] + s)[2..] == s
  {
  }

  lemma Init<T>(a: seq<T>, x: T)
    ensures (a + [x])[..|a|] == a && (a + [x])[|a|] == x
  {
  }

  // The number of line feeds in s; a row is one more than this.
  function LineFeeds(s: Text): nat {
    if s == [] then 0 else LineFeeds(s[..|s| - 1]) + (if s[|s| - 1] == LF then 1 else 0)
  }

  // Where the line that s begins with ends: its first line character, or the end of s.
  function LineEnd(s: Text): (n: nat)
    ensures n <= |s| && OneLine(s[..n])
    ensures n < |s| ==> IsNewline(s[n])
  {
    if s == [] || IsNewline(s[0]) then 0 else 1 + LineEnd(s[1..])
  }

  // s cut at every line character. Splitting on runs of them instead drops
  // empty lines only, so the non-blank lines are the same.
  function Lines(s: Text): (lines: seq<Text>)
    ensures lines != []
    decreases |s|
  {
    var n := LineEnd(s);
    if n == |s| then [s] else [s[..n]] + Lines(s[n + 1..])
  }

  function NonBlank(lines: seq<Text>): seq<Text> {
    if lines == [] then []
    else (if Blank(lines[0]) then [] else [lines[0]]) + NonBlank(lines[1..])
  }

  // The lines of a source that can hold a record.
  function Records(s: Text): seq<Text> {
    NonBlank(Lines(s))
  }

  lemma {:induction false} NonBlankAppends(a: seq<Text>, b: seq<Text>)
    ensures NonBlank(a + b) == NonBlank(a) + NonBlank(b)
  {
    if a == [] {
      assert a + b == b;
    } else {
      assert (a + b)[1..] == a[1..] + b;
      NonBlankAppends(a[1..], b);
    }
  }

  lemma LineEndIs(s: Text, n: nat)
    requires n <= |s| && OneLine(s[..n])
    requires n < |s| ==> IsNewline(s[n])
    ensures LineEnd(s) == n
  {
    var m := LineEnd(s);
    assert forall k :: 0 <= k < n ==> s[..n][k] == s[k];
    assert forall k :: 0 <= k < m ==> s[..m][k] == s[k];
  }

  lemma JoinCuts(a: Text, c: Unit, b: Text, n: nat)
    requires n <= |a|
    ensures (a + [c] + b)[..n] == a[..n]
    ensures n < |a| ==> (a + [c] + b)[n + 1..] == a[n + 1..] + [c] + b && (a + [c] + b)[n] == a[n]
    ensures n == |a| ==> (a + [c] + b)[n + 1..] == b && (a + [c] + b)[n] == c && a[..n] == a
  {
  }

  lemma LinesStep(s: Text, n: nat)
    requires n < |s| && LineEnd(s) == n
    ensures Lines(s) == [s[..n]] + Lines(s[n + 1..])
  {
  }

  // Splitting is local: a line character between a and b keeps their lines apart.
  lemma {:induction false} LinesOfJoin(a: Text, c: Unit, b: Text)
    requires IsNewline(c)
    ensures Lines(a + [c] + b) == Lines(a) + Lines(b)
    decreases |a|
  {
    var s := a + [c] + b;
    var n := LineEnd(a);
    JoinCuts(a, c, b, n);
    LineEndIs(s, n);
    LinesStep(s, n);
    if n < |a| {
      LinesStep(a, n);
      LinesOfJoin(a[n + 1..], c, b);
      Assoc([a[..n]], Lines(a[n + 1..]), Lines(b));
    }
  }

  // RFC 8259, section 6.

  ghost predicate Digits(s: Text) {
    s != [] && forall k :: 0 <= k < |s| ==> IsDigit(s[k])
  }

  ghost predicate IntPart(s: Text) {
    Digits(s) && (s[0] == ZERO ==> |s| == 1)
  }

  ghost predicate FracPart(s: Text) {
    s == [] || (s[0] == DOT && Digits(s[1..]))
  }

  ghost predicate ExpPart(s: Text) {
    s == [] || ((s[0] == 0x65 || s[0] == 0x45) &&
                (Digits(s[1..]) || (|s| >= 2 && (s[1] == PLUS || s[1] == MINUS) && Digits(s[2..]))))
  }

  ghost predicate UnsignedParts(s: Text, whole: Text, frac: Text, exp: Text) {
    s == whole + frac + exp && IntPart(whole) && FracPart(frac) && ExpPart(exp)
  }

  ghost predicate IsUnsigned(s: Text) {
    exists whole, frac, exp :: UnsignedParts(s, whole, frac, exp)
  }

  ghost predicate IsNumber(s: Text) {
    IsUnsigned(s) || (s != [] && s[0] == MINUS && IsUnsigned(s[1..]))
  }

  lemma UnsignedOfParts(s: Text, whole: Text, frac: Text, exp: Text)
    requires s == whole + frac + exp
    requires IntPart(whole) && FracPart(frac) && ExpPart(exp)
    ensures IsUnsigned(s)
  {
    assert UnsignedParts(s, whole, frac, exp);
  }

  lemma ZeroIsNumber()
    ensures IsNumber([ZERO])
  {
    UnsignedOfParts([ZERO], [ZERO], [], []);
  }

  // A number's spelling, as the document gives it.
  type Lexeme = s: Text | IsNumber(s) witness (ZeroIsNumber(); [ZERO])
}
