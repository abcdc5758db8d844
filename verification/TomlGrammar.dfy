// TOML as the dependency checker reads it, as a relation between a text and
// what it says, stated by character and apart from the reader. Lines are no
// part of it.

module TomlGrammar {
  import opened Text
  import opened TomlTrees

  // --- Characters ---

  predicate SpaceUnit(c: Unit) {
    c == ' ' as int || c == '\t' as int
  }

  predicate DigitUnit(c: Unit) {
    '0' as int <= c <= '9' as int
  }

  predicate BareUnit(c: Unit) {
    'A' as int <= c <= 'Z' as int || 'a' as int <= c <= 'z' as int || DigitUnit(c) || c == '_' as int || c == '-' as int
  }

  predicate ValueUnit(c: Unit) {
    BareUnit(c) || c == '+' as int || c == '.' as int || c == ':' as int
  }

  predicate ClockUnit(c: Unit) {
    DigitUnit(c) || c == ':' as int || c == '.' as int || c == '+' as int || c == '-' as int || c == 'Z' as int || c == 'z' as int
  }

  // What `\s` takes.
  const WHITE_SPACE: set<int> := {
    0x09, 0x0A, 0x0B, 0x0C, 0x0D, 0x20, 0xA0, 0x1680, 0x2000, 0x2001, 0x2002, 0x2003, 0x2004, 0x2005, 0x2006, 0x2007,
    0x2008, 0x2009, 0x200A, 0x2028, 0x2029, 0x202F, 0x205F, 0x3000, 0xFEFF }

  const LINE_FEED: Text := ['\n' as int]
  const NO_TEXT: Text := []

  predicate Spaces(s: Text) {
    forall k :: 0 <= k < |s| ==> SpaceUnit(s[k])
  }

  // --- Space, comments and line ends ---

  // A number sign and anything up to the end of the line, or nothing.
  predicate CommentText(s: Text) {
    s == [] || (s[0] == '#' as int && forall k :: 0 <= k < |s| ==> s[k] != '\n' as int)
  }

  // The end of a line: spaces, perhaps a comment, and the line feed.
  ghost predicate LineParts(s: Text, spaces: Text, comment: Text, end: Text) {
    s == spaces + (comment + end) && Spaces(spaces) && CommentText(comment)
  }

  ghost predicate LineText(s: Text) {
    exists spaces, comment :: LineParts(s, spaces, comment, LINE_FEED)
  }

  // The same where the text ends instead.
  ghost predicate LastText(s: Text) {
    exists spaces, comment :: LineParts(s, spaces, comment, NO_TEXT)
  }

  // Lines with nothing but spaces and comments, and spaces.
  ghost predicate GapParts(s: Text, line: Text, rest: Text)
    decreases |s|, 0
  {
    s == line + rest && |rest| < |s| && LineText(line) && GapText(rest)
  }

  ghost predicate GapText(s: Text)
    decreases |s|, 1
  {
    Spaces(s) || exists line, rest :: GapParts(s, line, rest)
  }

  // --- Strings ---

  // An escape's letter and what it stands for.
  const ESCAPE_LETTERS: string := "btnfre\"\\"
  const ESCAPE_VALUES: seq<int> := [8, 9, 10, 12, 13, 27, 34, 92]

  // The number a hexadecimal digit stands for, by its place among them.
  const LOWER_DIGITS: string := "0123456789abcdef"
  const UPPER_DIGITS: string := "0123456789ABCDEF"

  predicate DigitStands(c: Unit, d: nat) {
    d < 16 && (c == LOWER_DIGITS[d] as int || c == UPPER_DIGITS[d] as int)
  }

  // Digits, the first the most significant, after what was read before them.
  ghost predicate CodeText(s: Text, before: nat, code: nat)
    decreases |s|
  {
    if s == [] then code == before
    else exists d: nat :: DigitStands(s[0], d) && CodeText(s[1..], before * 16 + d, code)
  }

  // A code point in UTF-16: itself, or the two surrogates that mean it.
  predicate Utf16(t: Text, code: nat) {
    || (|t| == 1 && t[0] == code)
    || (|t| == 2 && 0xD800 <= t[0] <= 0xDBFF && 0xDC00 <= t[1] <= 0xDFFF
        && code == 0x1_0000 + (t[0] as int - 0xD800) * 0x400 + (t[1] as int - 0xDC00))
  }

  // What follows a backslash, and what the two stand for.
  ghost predicate EscapeText(s: Text, value: Text) {
    || (|s| == 1 && exists i :: 0 <= i < 8 && s[0] == ESCAPE_LETTERS[i] as int && value == [ESCAPE_VALUES[i]])
    || (s != [] && |s| - 1 == DigitsAfter(s[0]) > 0
        && exists code: nat :: code <= 0x10FFFF && CodeText(s[1..], 0, code) && Utf16(value, code))
  }

  // How many digits follow \x, \u and \U.
  function DigitsAfter(c: Unit): nat {
    if c == 'x' as int then 2 else if c == 'u' as int then 4 else if c == 'U' as int then 8 else 0
  }

  // The rest of a string on one line, up to its quote. Only the double quote
  // has escapes.
  ghost predicate OneLineParts(s: Text, quote: Unit, value: Text, escape: Text, rest: Text, c: Text, more: Text)
    decreases |s|, 0
  {
    && s == ['\\' as int] + (escape + rest) && value == c + more && |rest| < |s|
    && EscapeText(escape, c) && OneLineText(rest, quote, more)
  }

  ghost predicate OneLineText(s: Text, quote: Unit, value: Text)
    decreases |s|, 1
  {
    && s != []
    && if s[0] == quote then s == [quote] && value == []
       else if s[0] == '\\' as int && quote == '"' as int then
         exists escape, rest, c, more :: OneLineParts(s, quote, value, escape, rest, c, more)
       else s[0] != '\n' as int && value != [] && value[0] == s[0] && OneLineText(s[1..], quote, value[1..])
  }

  function Quotes(quote: Unit, n: nat): Text {
    seq(n, _ => quote)
  }

  // A backslash, spaces, a line feed and all white space after it stand for
  // nothing.
  ghost predicate Swallowed(s: Text, spaces: Text, white: Text, rest: Text) {
    && s == ['\\' as int] + (spaces + (['\n' as int] + (white + rest)))
    && |spaces| < 200 && Spaces(spaces)
    && (forall c :: c in white ==> c in WHITE_SPACE) && (rest != [] ==> rest[0] !in WHITE_SPACE)
  }

  ghost predicate SwallowParts(s: Text, quote: Unit, value: Text, spaces: Text, white: Text, rest: Text)
    decreases |s|, 0
  {
    |rest| < |s| && Swallowed(s, spaces, white, rest) && LongText(rest, quote, value)
  }

  ghost predicate LongEscape(s: Text, quote: Unit, value: Text, escape: Text, rest: Text, c: Text, more: Text)
    decreases |s|, 0
  {
    && s == ['\\' as int] + (escape + rest) && value == c + more && |rest| < |s|
    && EscapeText(escape, c) && LongText(rest, quote, more)
  }

  // The rest of a string over lines, up to its three quotes and at most two
  // more that are its own.
  ghost predicate LongText(s: Text, quote: Unit, value: Text)
    decreases |s|, 1
  {
    && s != []
    && if |s| >= 3 && s[0] == s[1] == s[2] == quote then
         |s| <= 5 && s == Quotes(quote, |s|) && value == Quotes(quote, |s| - 3)
       else if s[0] == '\\' as int && quote == '"' as int then
         || (exists spaces, white, rest :: SwallowParts(s, quote, value, spaces, white, rest))
         || (exists escape, rest, c, more :: LongEscape(s, quote, value, escape, rest, c, more))
       else value != [] && value[0] == s[0] && LongText(s[1..], quote, value[1..])
  }

  predicate QuoteUnit(c: Unit) {
    c == '"' as int || c == '\'' as int
  }

  // A string in its quotes. A line feed right after three quotes is dropped.
  ghost predicate OneLineString(s: Text, value: Text) {
    |s| >= 2 && QuoteUnit(s[0]) && OneLineText(s[1..], s[0], value)
  }

  ghost predicate LongString(s: Text, value: Text) {
    && |s| >= 6 && QuoteUnit(s[0]) && s[0] == s[1] == s[2]
    && LongText(if s[3] == '\n' as int then s[4..] else s[3..], s[0], value)
  }

  ghost predicate StringText(s: Text, value: Text) {
    if |s| >= 3 && s[0] == s[1] == s[2] then LongString(s, value) else OneLineString(s, value)
  }

  // --- Keys ---

  ghost predicate PartText(s: Text, part: Text) {
    || (s == part && 0 < |s| <= 256 && forall k :: 0 <= k < |s| ==> BareUnit(s[k]))
    || (OneLineString(s, part) && !(|s| >= 3 && s[0] == s[1] == s[2]))
  }

  ghost predicate KeyParts(s: Text, parts: Parts, before: Text, part: Text, after: Text, rest: Text)
    requires parts != []
    decreases |parts|, 0
  {
    && s == before + (part + (after + rest)) && Spaces(before) && Spaces(after) && PartText(part, parts[0])
    && if |parts| == 1 then rest == [] else rest != [] && rest[0] == '.' as int && KeyText(rest[1..], parts[1..])
  }

  // Parts with points between them and spaces around each.
  ghost predicate KeyText(s: Text, parts: Parts)
    decreases |parts|, 1
  {
    parts != [] && exists before, part, after, rest :: KeyParts(s, parts, before, part, after, rest)
  }

  // --- Values ---

  ghost predicate RawText(s: Text) {
    && 0 < |s| <= 256 && s != Ascii("true") && s != Ascii("false")
    && forall k :: 0 <= k < |s| ==> ValueUnit(s[k])
  }

  // dddd-dd-dd, a space, dd: and at least one more character of a time.
  ghost predicate DatedText(s: Text) {
    && 15 <= |s| <= 74
    && DigitUnit(s[0]) && DigitUnit(s[1]) && DigitUnit(s[2]) && DigitUnit(s[3]) && s[4] == '-' as int
    && DigitUnit(s[5]) && DigitUnit(s[6]) && s[7] == '-' as int && DigitUnit(s[8]) && DigitUnit(s[9])
    && s[10] == ' ' as int && DigitUnit(s[11]) && DigitUnit(s[12]) && s[13] == ':' as int
    && forall k :: 14 <= k < |s| ==> ClockUnit(s[k])
  }

  ghost predicate ValueText(s: Text, v: Value)
    decreases v, 2
  {
    match v
    case StrValue(_, value) => StringText(s, value)
    case BoolValue(_, b) => s == Ascii(if b then "true" else "false")
    case OtherValue(_, raw) => s == raw && (RawText(s) || DatedText(s))
    case ListValue(_, items) =>
      |s| >= 2 && s[0] == '[' as int && s[|s| - 1] == ']' as int && ItemsText(s[1..|s| - 1], items)
    case InlineValue(_, pairs) =>
      |s| >= 2 && s[0] == '{' as int && s[|s| - 1] == '}' as int && PairsText(s[1..|s| - 1], pairs)
  }

  // What follows an item: nothing after the last one, else a comma and the rest.
  ghost predicate ItemsParts(s: Text, items: seq<Value>, before: Text, item: Text, after: Text, rest: Text)
    requires items != []
    decreases items, 0
  {
    && s == before + (item + (after + rest)) && GapText(before) && GapText(after) && ValueText(item, items[0])
    && if rest == [] then |items| == 1 else rest[0] == ',' as int && ItemsText(rest[1..], items[1..])
  }

  ghost predicate ItemsText(s: Text, items: seq<Value>)
    decreases items, 1
  {
    if items == [] then GapText(s)
    else exists before, item, after, rest :: ItemsParts(s, items, before, item, after, rest)
  }

  ghost predicate PairsParts(s: Text, pairs: seq<Pair>, before: Text, pair: Text, after: Text, rest: Text)
    requires pairs != []
    decreases pairs, 0
  {
    && s == before + (pair + (after + rest)) && GapText(before) && GapText(after) && PairText(pair, pairs[0])
    && if rest == [] then |pairs| == 1 else rest[0] == ',' as int && PairsText(rest[1..], pairs[1..])
  }

  ghost predicate PairsText(s: Text, pairs: seq<Pair>)
    decreases pairs, 1
  {
    if pairs == [] then GapText(s)
    else exists before, pair, after, rest :: PairsParts(s, pairs, before, pair, after, rest)
  }

  ghost predicate PairParts(s: Text, pair: Pair, key: Text, spaces: Text, value: Text)
    decreases pair, 0
  {
    && s == key + (['=' as int] + (spaces + value))
    && KeyText(key, pair.parts) && !SpaceUnit(s[0]) && Spaces(spaces) && ValueText(value, pair.value)
  }

  ghost predicate PairText(s: Text, pair: Pair)
    decreases pair, 1
  {
    exists key, spaces, value :: PairParts(s, pair, key, spaces, value)
  }

  // --- Statements and documents ---

  ghost predicate HeaderParts(s: Text, many: bool, parts: Parts, key: Text) {
    && s == (if many then Ascii("[[") else Ascii("[")) + (key + if many then Ascii("]]") else Ascii("]"))
    && KeyText(key, parts)
  }

  // A statement without the end of its line.
  ghost predicate StmtText(s: Text, stmt: Stmt) {
    match stmt
    case Header(_, many, parts) => exists key :: HeaderParts(s, many, parts, key)
    case Bind(_, parts, value) => PairText(s, Pair(parts, value))
  }

  ghost predicate DocParts(s: Text, stmts: seq<Stmt>, gap: Text, stmt: Text, end: Text, rest: Text)
    requires stmts != []
    decreases |stmts|, 0
  {
    && s == gap + (stmt + (end + rest)) && GapText(gap) && StmtText(stmt, stmts[0])
    && (LineText(end) || (LastText(end) && rest == []))
    && DocText(rest, stmts[1..])
  }

  // Statements, each on lines of its own.
  ghost predicate DocText(s: Text, stmts: seq<Stmt>)
    decreases |stmts|, 1
  {
    if stmts == [] then exists gap, last :: s == gap + last && GapText(gap) && LastText(last)
    else exists gap, stmt, end, rest :: DocParts(s, stmts, gap, stmt, end, rest)
  }
}
