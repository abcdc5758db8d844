// How the TOML reader reads text (tools/port-deps.cjs), from a place in it to
// the next: None where the reader throws. Lines are counted from the text.

module TomlText {
  import opened Options
  import opened Text
  import opened TomlTrees

  const APOSTROPHE: Unit := 0x27
  const EQUALS: Unit := 0x3D

  datatype Read<T> = Read(value: T, next: nat)

  // The line a place is on: one more than the line feeds before it.
  function LineAt(text: Text, i: nat): nat
    requires i <= |text|
  {
    if i == 0 then 1 else LineAt(text, i - 1) + if text[i - 1] == LF then 1 else 0
  }

  predicate Is(text: Text, i: nat, c: Unit) {
    i < |text| && text[i] == c
  }

  predicate Three(text: Text, i: nat, c: Unit) {
    Is(text, i, c) && Is(text, i + 1, c) && Is(text, i + 2, c)
  }

  function Blank(text: Text, i: nat): (j: nat)
    requires i <= |text|
    ensures i <= j <= |text| && forall k :: i <= k < j ==> IsSpace(text[k])
    ensures j < |text| ==> !IsSpace(text[j])
    decreases |text| - i
  {
    if i < |text| && IsSpace(text[i]) then Blank(text, i + 1) else i
  }

  function ToLineFeed(text: Text, i: nat): (j: nat)
    requires i <= |text|
    ensures i <= j <= |text| && forall k :: i <= k < j ==> text[k] != LF
    ensures j < |text| ==> text[j] == LF
    decreases |text| - i
  {
    if i < |text| && text[i] != LF then ToLineFeed(text, i + 1) else i
  }

  function Comment(text: Text, i: nat): (j: nat)
    requires i <= |text|
    ensures i <= j <= |text|
  {
    if Is(text, i, HASH) then ToLineFeed(text, i) else i
  }

  // Whitespace, comments and newlines.
  function Gap(text: Text, i: nat): (j: nat)
    requires i <= |text|
    ensures i <= j <= |text|
    decreases |text| - i
  {
    var j := Comment(text, Blank(text, i));
    if Is(text, j, LF) then Gap(text, j + 1) else j
  }

  function EndOfLine(text: Text, i: nat): (r: Option<nat>)
    requires i <= |text|
    ensures r.Some? ==> i <= r.value <= |text|
  {
    var j := Comment(text, Blank(text, i));
    if j == |text| then Some(j) else if text[j] == LF then Some(j + 1) else None
  }

  function SimpleEscape(c: Unit): Option<Unit> {
    if c == 0x62 then Some(0x08)      // \b
    else if c == 0x74 then Some(0x09) // \t
    else if c == 0x6E then Some(0x0A) // \n
    else if c == 0x66 then Some(0x0C) // \f
    else if c == 0x72 then Some(0x0D) // \r
    else if c == 0x65 then Some(0x1B) // \e
    else if c == QUOTE || c == BACKSLASH then Some(c)
    else None
  }

  function EscapeWidth(c: Unit): nat {
    if c == 0x78 then 2 else if c == 0x75 then 4 else if c == 0x55 then 8 else 0
  }

  // From the character after the backslash.
  function Escape(text: Text, i: nat): (r: Option<Read<Text>>)
    requires i <= |text|
    ensures r.Some? ==> i < r.value.next <= |text| && forall k :: i <= k < r.value.next ==> text[k] != LF
  {
    if i == |text| then None
    else if SimpleEscape(text[i]).Some? then Some(Read([SimpleEscape(text[i]).value], i + 1))
    else
      var width := EscapeWidth(text[i]);
      if width == 0 || i + 1 + width > |text| then None
      else
        var hex := text[i + 1..i + 1 + width];
        if exists k :: 0 <= k < |hex| && !IsHex(hex[k]) then None
        else if HexNumber(hex) > 0x10FFFF then None
        else
          assert forall k :: i + 1 <= k < i + 1 + width ==> text[k] == hex[k - i - 1];
          Some(Read(FromCodePoint(HexNumber(hex)), i + 1 + width))
  }

  // A string on one line, from after its quote.
  function OneLineString(text: Text, i: nat, quote: Unit, out: Text): (r: Option<Read<Text>>)
    requires i <= |text|
    ensures r.Some? ==> i < r.value.next <= |text|
    decreases |text| - i
  {
    if i == |text| || text[i] == LF then None
    else if text[i] == quote then Some(Read(out, i + 1))
    else if text[i] == BACKSLASH && quote == QUOTE then
      match Escape(text, i + 1)
      case None => None
      case Some(e) => OneLineString(text, e.next, quote, out + e.value)
    else OneLineString(text, i + 1, quote, out + [text[i]])
  }

  // The characters `\\s` takes.
  predicate IsWhite(c: Unit) {
    || 0x09 <= c <= 0x0D || c == 0x20 || c == 0xA0 || c == 0x1680 || 0x2000 <= c <= 0x200A
    || c == 0x2028 || c == 0x2029 || c == 0x202F || c == 0x205F || c == 0x3000 || c == 0xFEFF
  }

  function White(text: Text, i: nat): (j: nat)
    requires i <= |text|
    ensures i <= j <= |text|
    decreases |text| - i
  {
    if i < |text| && IsWhite(text[i]) then White(text, i + 1) else i
  }

  // Only blanks up to a line feed, within the 200 characters the reader looks at.
  predicate AtLineEnd(text: Text, i: nat)
    requires i <= |text|
  {
    var j := Blank(text, i);
    j < i + 200 && Is(text, j, LF)
  }

  // Up to two quotes more than the three that close a string are its own.
  function Extra(text: Text, i: nat, quote: Unit): nat {
    if !Is(text, i, quote) then 0 else if !Is(text, i + 1, quote) then 1 else 2
  }

  function Repeat(c: Unit, n: nat): Text {
    if n == 0 then [] else Repeat(c, n - 1) + [c]
  }

  // A string over several lines, from after its three quotes.
  function LongString(text: Text, i: nat, quote: Unit, out: Text): (r: Option<Read<Text>>)
    requires i <= |text|
    ensures r.Some? ==> i < r.value.next <= |text|
    decreases |text| - i
  {
    if i == |text| then None
    else if Three(text, i, quote) then
      var n := Extra(text, i + 3, quote);
      Some(Read(out + Repeat(quote, n), i + 3 + n))
    else if text[i] == BACKSLASH && quote == QUOTE then
      if AtLineEnd(text, i + 1) then LongString(text, White(text, i + 1), quote, out)
      else match Escape(text, i + 1)
        case None => None
        case Some(e) => LongString(text, e.next, quote, out + e.value)
    else LongString(text, i + 1, quote, out + [text[i]])
  }

  predicate IsQuote(c: Unit) {
    c == QUOTE || c == APOSTROPHE
  }

  function String(text: Text, i: nat): (r: Option<Read<Text>>)
    requires i < |text| && IsQuote(text[i])
    ensures r.Some? ==> i < r.value.next <= |text|
  {
    if Three(text, i, text[i]) then
      LongString(text, if Is(text, i + 3, LF) then i + 4 else i + 3, text[i], [])
    else OneLineString(text, i + 1, text[i], [])
  }

  predicate IsLetter(c: Unit) {
    0x41 <= c <= 0x5A || 0x61 <= c <= 0x7A
  }

  predicate IsKeyUnit(c: Unit) {
    IsLetter(c) || IsDigit(c) || c == 0x5F || c == MINUS
  }

  predicate IsValueUnit(c: Unit) {
    IsKeyUnit(c) || c == PLUS || c == DOT || c == COLON
  }

  predicate IsTimeUnit(c: Unit) {
    IsDigit(c) || c == COLON || c == DOT || c == PLUS || c == MINUS || c == 0x5A || c == 0x7A
  }

  datatype Kind = KeyUnits | ValueUnits | TimeUnits

  predicate InKind(kind: Kind, c: Unit) {
    match kind
    case KeyUnits => IsKeyUnit(c)
    case ValueUnits => IsValueUnit(c)
    case TimeUnits => IsTimeUnit(c)
  }

  // The longest run of a kind, within the characters the reader looks at.
  function Run(text: Text, i: nat, limit: nat, kind: Kind): (j: nat)
    requires i <= |text|
    ensures i <= j <= |text| && (i <= limit ==> j <= limit) && forall k :: i <= k < j ==> InKind(kind, text[k])
    decreases |text| - i
  {
    if i < limit && i < |text| && InKind(kind, text[i]) then Run(text, i + 1, limit, kind) else i
  }

  function KeyPart(text: Text, i: nat): (r: Option<Read<Text>>)
    requires i <= |text|
    ensures r.Some? ==> i < r.value.next <= |text|
  {
    if i < |text| && IsQuote(text[i]) then
      if Three(text, i, text[i]) then None else String(text, i)
    else
      var j := Run(text, i, i + 256, KeyUnits);
      if j == i then None else Some(Read(text[i..j], j))
  }

  // A dotted key; the parts read so far are `parts`.
  function Key(text: Text, i: nat, parts: Parts): (r: Option<Read<Parts>>)
    requires i <= |text|
    ensures r.Some? ==> i < r.value.next <= |text| && |r.value.value| > |parts|
    decreases |text| - i
  {
    match KeyPart(text, Blank(text, i))
    case None => None
    case Some(part) =>
      var j := Blank(text, part.next);
      if Is(text, j, DOT) then Key(text, j + 1, parts + [part.value])
      else Some(Read(parts + [part.value], j))
  }

  predicate Digits(text: Text, i: nat, n: nat)
    requires i + n <= |text|
  {
    forall k :: i <= k < i + n ==> IsDigit(text[k])
  }

  predicate IsDate(raw: Text) {
    && |raw| == 10 && Digits(raw, 0, 4) && raw[4] == MINUS && Digits(raw, 5, 2) && raw[7] == MINUS && Digits(raw, 8, 2)
  }

  // The time after a date and one space; 0 where there is none.
  function TimeSize(text: Text, i: nat): (n: nat)
    requires i <= |text|
    ensures i + n <= |text| && (n > 0 ==> n >= 5)
  {
    if i + 4 <= |text| && text[i] == SPACE && Digits(text, i + 1, 2) && text[i + 3] == COLON then
      var j := Run(text, i + 4, i + 64, TimeUnits);
      if j > i + 4 then j - i else 0
    else 0
  }

  function Bare(text: Text, i: nat): (r: Option<Read<Value>>)
    requires i <= |text|
    ensures r.Some? ==> i < r.value.next <= |text|
  {
    var j := Run(text, i, i + 256, ValueUnits);
    if j == i then None
    else
      var n := if IsDate(text[i..j]) then TimeSize(text, j) else 0;
      var raw := text[i..j + n];
      Some(Read(
        if raw == TRUE_WORD || raw == FALSE_WORD then BoolValue(LineAt(text, i), raw == TRUE_WORD)
        else OtherValue(LineAt(text, i), raw),
        j + n))
  }

  function ValueAt(text: Text, i: nat): (r: Option<Read<Value>>)
    requires i <= |text|
    ensures r.Some? ==> i < r.value.next <= |text|
    decreases |text| - i, 2
  {
    if i < |text| && IsQuote(text[i]) then
      match String(text, i)
      case None => None
      case Some(s) => Some(Read(StrValue(LineAt(text, i), s.value), s.next))
    else if Is(text, i, BRACKET_OPEN) then ListAt(text, i + 1, LineAt(text, i), [])
    else if Is(text, i, BRACE_OPEN) then InlineAt(text, i + 1, LineAt(text, i), [])
    else Bare(text, i)
  }

  // After an item: a comma, or the closing character next.
  function Separator(text: Text, i: nat, close: Unit): (r: Option<nat>)
    requires i <= |text|
    ensures r.Some? ==> i <= r.value <= |text|
  {
    var j := Gap(text, i);
    if Is(text, j, COMMA) then Some(j + 1)
    else if j < |text| && text[j] != close then None
    else Some(j)
  }

  function ListAt(text: Text, i: nat, line: nat, items: seq<Value>): (r: Option<Read<Value>>)
    requires i <= |text|
    ensures r.Some? ==> i < r.value.next <= |text|
    decreases |text| - i, 3
  {
    var j := Gap(text, i);
    if j == |text| then None
    else if text[j] == BRACKET_CLOSE then Some(Read(ListValue(line, items), j + 1))
    else match ValueAt(text, j)
      case None => None
      case Some(item) =>
        match Separator(text, item.next, BRACKET_CLOSE)
        case None => None
        case Some(next) => ListAt(text, next, line, items + [item.value])
  }

  function PairAt(text: Text, i: nat): (r: Option<Read<Pair>>)
    requires i <= |text|
    ensures r.Some? ==> i < r.value.next <= |text|
    decreases |text| - i, 3
  {
    match Key(text, i, [])
    case None => None
    case Some(key) =>
      if !Is(text, key.next, EQUALS) then None
      else match ValueAt(text, Blank(text, key.next + 1))
        case None => None
        case Some(v) => Some(Read(Pair(key.value, v.value), v.next))
  }

  function InlineAt(text: Text, i: nat, line: nat, pairs: seq<Pair>): (r: Option<Read<Value>>)
    requires i <= |text|
    ensures r.Some? ==> i < r.value.next <= |text|
    decreases |text| - i, 4
  {
    var j := Gap(text, i);
    if j == |text| then None
    else if text[j] == BRACE_CLOSE then Some(Read(InlineValue(line, pairs), j + 1))
    else match PairAt(text, j)
      case None => None
      case Some(pair) =>
        match Separator(text, pair.next, BRACE_CLOSE)
        case None => None
        case Some(next) => InlineAt(text, next, line, pairs + [pair.value])
  }

  function HeaderAt(text: Text, i: nat): (r: Option<Read<Stmt>>)
    requires Is(text, i, BRACKET_OPEN)
    ensures r.Some? ==> i < r.value.next <= |text|
  {
    var many := Is(text, i + 1, BRACKET_OPEN);
    match Key(text, if many then i + 2 else i + 1, [])
    case None => None
    case Some(key) =>
      if !Is(text, key.next, BRACKET_CLOSE) || (many && !Is(text, key.next + 1, BRACKET_CLOSE)) then None
      else match EndOfLine(text, if many then key.next + 2 else key.next + 1)
        case None => None
        case Some(next) => Some(Read(Header(LineAt(text, i), many, key.value), next))
  }

  function BindAt(text: Text, i: nat): (r: Option<Read<Stmt>>)
    requires i <= |text|
    ensures r.Some? ==> i < r.value.next <= |text|
  {
    match PairAt(text, i)
    case None => None
    case Some(pair) =>
      match EndOfLine(text, pair.next)
      case None => None
      case Some(next) => Some(Read(Bind(LineAt(text, i), pair.value.parts, pair.value.value), next))
  }

  function StmtAt(text: Text, i: nat): (r: Option<Read<Stmt>>)
    requires i < |text|
    ensures r.Some? ==> i < r.value.next <= |text|
  {
    if text[i] == BRACKET_OPEN then HeaderAt(text, i) else BindAt(text, i)
  }

  // The statements from a place to the end.
  function Stmts(text: Text, i: nat, before: seq<Stmt>): Option<seq<Stmt>>
    requires i <= |text|
    decreases |text| - i
  {
    var j := Gap(text, i);
    if j == |text| then Some(before)
    else match StmtAt(text, j)
      case None => None
      case Some(stmt) => Stmts(text, stmt.next, before + [stmt.value])
  }

  // A whole text: None where the reader throws.
  function Parse(text: Text): Option<Doc> {
    match Stmts(text, 0, [])
    case None => None
    case Some(stmts) => Build(stmts)
  }
}
