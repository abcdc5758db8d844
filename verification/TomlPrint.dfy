// Statements written out as TOML text, and what the reader makes of that text:
// the same statements, but for their lines.

module TomlPrint {
  import opened Options
  import opened Text
  import opened TomlTrees
  import opened TomlLines
  import opened TomlStrings
  import T = TomlText

  // --- The printer ---

  predicate AllPlain(s: Text) {
    forall k :: 0 <= k < |s| ==> IsPlain(s[k], QUOTE)
  }

  function Body(s: Text): Text {
    if AllPlain(s) then s else EscapedAll(s)
  }

  function Quoted(s: Text): (r: Text)
    ensures |r| == |Body(s)| + 2
  {
    [QUOTE] + (Body(s) + [QUOTE])
  }

  function Word(b: bool): Text {
    if b then TRUE_WORD else FALSE_WORD
  }

  predicate BarePart(s: Text) {
    0 < |s| <= 256 && forall k :: 0 <= k < |s| ==> T.IsKeyUnit(s[k])
  }

  function PrintPart(s: Text): Text {
    if BarePart(s) then s else Quoted(s)
  }

  function PrintKey(parts: Parts): Text {
    if parts == [] then []
    else if |parts| == 1 then PrintPart(parts[0])
    else PrintPart(parts[0]) + ([DOT] + PrintKey(parts[1..]))
  }

  function PrintValue(v: Value): Text
    decreases v, 0
  {
    match v
    case StrValue(_, s) => Quoted(s)
    case BoolValue(_, b) => Word(b)
    case OtherValue(_, raw) => raw
    case ListValue(_, items) => [BRACKET_OPEN] + (PrintItems(items) + [SPACE, BRACKET_CLOSE])
    case InlineValue(_, pairs) => [BRACE_OPEN] + (PrintPairs(pairs) + [SPACE, BRACE_CLOSE])
  }

  function Comma(more: bool): (r: Text)
    ensures |r| == if more then 1 else 0
  {
    if more then [COMMA] else []
  }

  function PrintItems(items: seq<Value>): Text
    decreases items, 0
  {
    if items == [] then []
    else [SPACE] + (PrintValue(items[0]) + (Comma(|items| > 1) + PrintItems(items[1..])))
  }

  function PrintPairs(pairs: seq<Pair>): Text
    decreases pairs, 0
  {
    if pairs == [] then []
    else [SPACE] + (PrintPair(pairs[0]) + (Comma(|pairs| > 1) + PrintPairs(pairs[1..])))
  }

  function PrintPair(pair: Pair): Text
    decreases pair, 0
  {
    PrintKey(pair.parts) + ([SPACE] + ([EQUALS] + ([SPACE] + PrintValue(pair.value))))
  }

  const EQUALS: Unit := T.EQUALS

  function PrintStmt(stmt: Stmt): Text {
    match stmt
    case Header(_, many, parts) =>
      if many then [BRACKET_OPEN] + ([BRACKET_OPEN] + (PrintKey(parts) + [BRACKET_CLOSE, BRACKET_CLOSE, LF]))
      else [BRACKET_OPEN] + (PrintKey(parts) + [BRACKET_CLOSE, LF])
    case Bind(_, parts, value) => PrintPair(Pair(parts, value)) + [LF]
  }

  function Print(stmts: seq<Stmt>): Text {
    if stmts == [] then [] else PrintStmt(stmts[0]) + Print(stmts[1..])
  }

  // --- What can be printed: whatever the reader can have read ---

  predicate PlainRaw(raw: Text) {
    && 0 < |raw| <= 256 && raw != TRUE_WORD && raw != FALSE_WORD
    && forall k :: 0 <= k < |raw| ==> T.IsValueUnit(raw[k])
  }

  // A date, one space and a time.
  predicate TimedRaw(raw: Text) {
    && 15 <= |raw| <= 74 && T.IsDate(raw[..10]) && raw[10] == SPACE
    && T.Digits(raw, 11, 2) && raw[13] == COLON && forall k :: 14 <= k < |raw| ==> T.IsTimeUnit(raw[k])
  }

  ghost predicate Printable(v: Value)
    decreases v
  {
    match v
    case OtherValue(_, raw) => PlainRaw(raw) || TimedRaw(raw)
    case ListValue(_, items) => forall k :: 0 <= k < |items| ==> Printable(items[k])
    case InlineValue(_, pairs) => forall k :: 0 <= k < |pairs| ==> pairs[k].parts != [] && Printable(pairs[k].value)
    case _ => true
  }

  ghost predicate PrintablePair(pair: Pair) {
    pair.parts != [] && Printable(pair.value)
  }

  ghost predicate PrintableStmt(stmt: Stmt) {
    stmt.parts != [] && (stmt.Bind? ==> Printable(stmt.value))
  }

  ghost predicate AllPrintable(stmts: seq<Stmt>) {
    forall k :: 0 <= k < |stmts| ==> PrintableStmt(stmts[k])
  }

  // --- Places ---

  // Where a printed value ends: at a comma, a line feed, or a space and a closing character.
  predicate Stops(text: Text, i: nat) {
    T.Is(text, i, COMMA) || T.Is(text, i, LF)
    || (T.Is(text, i, SPACE) && (T.Is(text, i + 1, BRACKET_CLOSE) || T.Is(text, i + 1, BRACE_CLOSE)))
  }

  // Where a printed part of a key ends.
  predicate KeyStops(text: Text, i: nat) {
    T.Is(text, i, DOT) || T.Is(text, i, SPACE) || T.Is(text, i, BRACKET_CLOSE)
  }

  // Where a printed key ends.
  predicate WholeKeyStops(text: Text, i: nat) {
    T.Is(text, i, BRACKET_CLOSE) || (T.Is(text, i, SPACE) && T.Is(text, i + 1, EQUALS))
  }

  predicate NoGap(c: Unit) {
    !IsSpace(c) && c != HASH && c != LF
  }

  lemma GapStays(text: Text, i: nat)
    requires i < |text| && NoGap(text[i])
    ensures T.Gap(text, i) == i && T.Blank(text, i) == i
  {
  }

  lemma GapSpace(text: Text, i: nat)
    requires T.Is(text, i, SPACE)
    ensures T.Gap(text, i) == T.Gap(text, i + 1) && T.Blank(text, i) == T.Blank(text, i + 1)
  {
  }

  lemma StandsUnit(text: Text, i: nat, c: Unit, rest: Text)
    requires Stands(text, i, [c] + rest)
    ensures T.Is(text, i, c) && Stands(text, i + 1, rest)
  {
    StandsApart(text, i, [c], rest);
    assert text[i + 0] == [c][0];
  }

  lemma StandsFirst(text: Text, i: nat, s: Text)
    requires Stands(text, i, s) && s != []
    ensures i < |text| && text[i] == s[0]
  {
    assert text[i + 0] == s[0];
  }

  lemma StandsSlice(text: Text, i: nat, s: Text)
    requires Stands(text, i, s)
    ensures text[i..i + |s|] == s
  {
  }

  // --- Strings and parts of keys ---

  lemma QuotedReads(text: Text, i: nat, s: Text)
    requires Stands(text, i, Quoted(s)) && !T.Is(text, i + |Quoted(s)|, QUOTE)
    ensures T.Is(text, i, QUOTE) && !T.Three(text, i, QUOTE)
    ensures T.String(text, i) == Some(T.Read(s, i + |Quoted(s)|))
  {
    StandsUnit(text, i, QUOTE, Body(s) + [QUOTE]);
    StandsApart(text, i + 1, Body(s), [QUOTE]);
    StandsFirst(text, i + 1 + |Body(s)|, [QUOTE]);
    hide T.String, EscapedAll;
    if AllPlain(s) {
      if s != [] {
        StandsFirst(text, i + 1, s);
      }
      PlainString(text, i, QUOTE, s);
    } else {
      EscapedOpens(text, i + 1, s);
      EscapedString(text, i, s);
    }
  }

  // A run up to a character of another kind, or to the reader's limit.
  lemma {:induction false} RunReads(text: Text, i: nat, limit: nat, kind: T.Kind, s: Text)
    requires Stands(text, i, s) && i + |s| <= limit
    requires forall k :: 0 <= k < |s| ==> T.InKind(kind, s[k])
    requires i + |s| < |text| ==> !T.InKind(kind, text[i + |s|])
    ensures T.Run(text, i, limit, kind) == i + |s|
    decreases |s|
  {
    if s != [] {
      StandsFirst(text, i, s);
      assert s == [s[0]] + s[1..];
      StandsUnit(text, i, s[0], s[1..]);
      RunReads(text, i + 1, limit, kind, s[1..]);
    }
  }

  lemma KeyPartReads(text: Text, i: nat, s: Text)
    requires Stands(text, i, PrintPart(s)) && KeyStops(text, i + |PrintPart(s)|)
    ensures T.KeyPart(text, i) == Some(T.Read(s, i + |PrintPart(s)|))
    ensures i < |text| && NoGap(text[i]) && text[i] != BRACKET_OPEN && text[i] != BRACE_CLOSE
  {
    hide T.String, T.Run;
    if BarePart(s) {
      StandsFirst(text, i, s);
      StandsSlice(text, i, s);
      RunReads(text, i, i + 256, T.KeyUnits, s);
    } else {
      QuotedReads(text, i, s);
    }
  }

  lemma {:induction false} KeyReads(text: Text, i: nat, parts: Parts, before: Parts)
    requires parts != [] && Stands(text, i, PrintKey(parts)) && WholeKeyStops(text, i + |PrintKey(parts)|)
    ensures
      var end := i + |PrintKey(parts)|;
      T.Key(text, i, before) == Some(T.Read(before + parts, if text[end] == SPACE then end + 1 else end))
    ensures i < |text| && NoGap(text[i]) && text[i] != BRACKET_OPEN && text[i] != BRACE_CLOSE
    decreases |parts|
  {
    hide T.KeyPart, PrintPart, T.Blank, Stands;
    var first := PrintPart(parts[0]);
    var j := i + |first|;
    if |parts| == 1 {
      KeyPartReads(text, i, parts[0]);
      GapStays(text, i);
      KeyEnds(text, j);
      assert before + parts == before + [parts[0]];
    } else {
      var rest := PrintKey(parts[1..]);
      StandsApart(text, i, first, [DOT] + rest);
      StandsUnit(text, j, DOT, rest);
      KeyPartReads(text, i, parts[0]);
      GapStays(text, i);
      GapStays(text, j);
      KeyReads(text, j + 1, parts[1..], before + [parts[0]]);
      Assoc(before, [parts[0]], parts[1..]);
      assert [parts[0]] + parts[1..] == parts;
    }
  }

  lemma KeyEnds(text: Text, j: nat)
    requires WholeKeyStops(text, j)
    ensures T.Blank(text, j) == if text[j] == SPACE then j + 1 else j
    ensures !T.Is(text, T.Blank(text, j), DOT)
  {
    if T.Is(text, j, SPACE) {
      GapSpace(text, j);
      GapStays(text, j + 1);
    } else {
      GapStays(text, j);
    }
  }

  // --- Values ---

  // A value read as v, but for lines.
  ghost predicate ReadsAs(r: Option<T.Read<Value>>, v: Value, next: nat) {
    r.Some? && r.value.next == next && UnlineValue(r.value.value) == UnlineValue(v)
  }

  lemma RawReads(text: Text, i: nat, v: Value)
    requires v.OtherValue? && Printable(v)
    requires Stands(text, i, v.raw) && Stops(text, i + |v.raw|)
    ensures i < |text| && T.IsValueUnit(text[i])
    ensures ReadsAs(T.Bare(text, i), v, i + |v.raw|)
  {
    if PlainRaw(v.raw) {
      PlainRawReads(text, i, v.raw);
    } else {
      TimedRawReads(text, i, v.raw);
    }
  }

  lemma NoTime(text: Text, j: nat)
    requires Stops(text, j)
    ensures T.TimeSize(text, j) == 0
  {
    hide T.Run;
    if T.Is(text, j, SPACE) && j + 4 <= |text| {
      assert !IsDigit(text[j + 1]);
    }
  }

  // A bare value up to where its run and the time after it end.
  lemma BareReads(text: Text, i: nat, j: nat, n: nat, raw: Text)
    requires i < j <= |text| && T.Run(text, i, i + 256, T.ValueUnits) == j
    requires (if T.IsDate(text[i..j]) then T.TimeSize(text, j) else 0) == n && j + n <= |text| && text[i..j + n] == raw
    ensures T.Bare(text, i) == Some(T.Read(
      if raw == TRUE_WORD || raw == FALSE_WORD then BoolValue(T.LineAt(text, i), raw == TRUE_WORD)
      else OtherValue(T.LineAt(text, i), raw), j + n))
  {
    hide T.Run, T.LineAt, T.IsDate, T.TimeSize;
  }

  lemma PlainRawReads(text: Text, i: nat, raw: Text)
    requires PlainRaw(raw) && Stands(text, i, raw) && Stops(text, i + |raw|)
    ensures T.IsValueUnit(text[i])
    ensures T.Bare(text, i) == Some(T.Read(OtherValue(T.LineAt(text, i), raw), i + |raw|))
  {
    hide T.Run, T.LineAt, T.Bare, T.IsDate, T.TimeSize, Stands, Stops;
    StandsFirst(text, i, raw);
    StandsSlice(text, i, raw);
    NoUnitStops(text, i + |raw|);
    RunReads(text, i, i + 256, T.ValueUnits, raw);
    NoTime(text, i + |raw|);
    BareReads(text, i, i + |raw|, 0, raw);
  }

  // A date, and the time after it.
  lemma TimedParts(raw: Text)
    requires TimedRaw(raw)
    ensures raw == raw[..10] + ([SPACE] + raw[11..]) == raw[..14] + raw[14..]
    ensures forall k :: 0 <= k < 10 ==> T.IsValueUnit(raw[..10][k])
    ensures forall k :: 0 <= k < |raw| - 14 ==> T.IsTimeUnit(raw[14..][k])
    ensures IsDigit(raw[11]) && IsDigit(raw[12]) && raw[10] == SPACE && raw[13] == COLON
  {
    forall k | 0 <= k < 10
      ensures T.IsValueUnit(raw[..10][k])
    {
      DateUnits(raw[..10], k);
    }
    hide T.IsDate;
  }

  lemma TimeReads(text: Text, j: nat, n: nat)
    requires j + 4 < j + n <= |text| && text[j] == SPACE && IsDigit(text[j + 1]) && IsDigit(text[j + 2]) && text[j + 3] == COLON
    requires T.Run(text, j + 4, j + 64, T.TimeUnits) == j + n
    ensures T.TimeSize(text, j) == n
  {
    hide T.Run;
  }

  lemma TimedStands(text: Text, i: nat, raw: Text)
    requires TimedRaw(raw) && Stands(text, i, raw)
    ensures Stands(text, i, raw[..10]) && Stands(text, i + 14, raw[14..])
    ensures text[i..i + 10] == raw[..10] && text[i..i + |raw|] == raw
    ensures text[i] == raw[..10][0] && T.IsDate(raw[..10]) && |raw| >= 15
    ensures text[i + 10] == raw[10] && text[i + 11] == raw[11] && text[i + 12] == raw[12] && text[i + 13] == raw[13]
  {
    TimedParts(raw);
    hide T.IsDate, TimedRaw;
    StandsSlice(text, i, raw);
    StandsApart(text, i, raw[..10], [SPACE] + raw[11..]);
    StandsApart(text, i, raw[..14], raw[14..]);
    hide Stands;
    StandsSlice(text, i, raw[..10]);
    StandsFirst(text, i, raw[..10]);
    StandsPlaces(text, i, raw);
  }

  lemma StandsPlaces(text: Text, i: nat, raw: Text)
    requires Stands(text, i, raw) && |raw| >= 14
    ensures text[i + 10] == raw[10] && text[i + 11] == raw[11] && text[i + 12] == raw[12] && text[i + 13] == raw[13]
  {
  }

  lemma DateRuns(text: Text, i: nat, raw: Text)
    requires TimedRaw(raw) && Stands(text, i, raw)
    ensures T.IsValueUnit(text[i]) && T.Run(text, i, i + 256, T.ValueUnits) == i + 10
  {
    TimedParts(raw);
    TimedStands(text, i, raw);
    hide T.IsDate, TimedRaw;
    RunReads(text, i, i + 256, T.ValueUnits, raw[..10]);
  }

  lemma ClockRuns(text: Text, i: nat, raw: Text)
    requires TimedRaw(raw) && Stands(text, i, raw) && Stops(text, i + |raw|)
    ensures T.TimeSize(text, i + 10) == |raw| - 10
  {
    TimedParts(raw);
    TimedStands(text, i, raw);
    assert !T.IsTimeUnit(text[i + |raw|]);
    assert 15 <= |raw| <= 74;
    hide T.IsDate, TimedRaw, Stops, T.TimeSize;
    RunReads(text, i + 14, i + 74, T.TimeUnits, raw[14..]);
    TimeReads(text, i + 10, |raw| - 10);
  }

  lemma TimedRawReads(text: Text, i: nat, raw: Text)
    requires TimedRaw(raw) && Stands(text, i, raw) && Stops(text, i + |raw|)
    ensures T.IsValueUnit(text[i])
    ensures T.Bare(text, i) == Some(T.Read(OtherValue(T.LineAt(text, i), raw), i + |raw|))
  {
    hide T.Run, T.LineAt, T.Bare, T.IsDate, T.TimeSize, Stands, Stops, TimedRaw;
    TimedStands(text, i, raw);
    DateRuns(text, i, raw);
    ClockRuns(text, i, raw);
    assert |TRUE_WORD| == 4 && |FALSE_WORD| == 5;
    BareReads(text, i, i + 10, |raw| - 10, raw);
  }

  lemma DateUnits(raw: Text, k: nat)
    requires T.IsDate(raw) && k < 10
    ensures T.IsValueUnit(raw[k])
  {
    if k != 4 && k != 7 {
      assert T.Digits(raw, 0, 4) && T.Digits(raw, 5, 2) && T.Digits(raw, 8, 2);
      assert IsDigit(raw[k]);
    }
  }

  lemma WordUnits(b: bool)
    ensures 0 < |Word(b)| <= 5
    ensures forall k :: 0 <= k < |Word(b)| ==> T.InKind(T.ValueUnits, Word(b)[k])
    ensures Word(b) == TRUE_WORD || Word(b) == FALSE_WORD
    ensures Word(b) == TRUE_WORD <==> b
  {
    assert |TRUE_WORD| == 4 && |FALSE_WORD| == 5;
  }

  lemma WordReads(text: Text, i: nat, b: bool)
    requires Stands(text, i, Word(b)) && Stops(text, i + |Word(b)|)
    ensures i < |text| && T.IsValueUnit(text[i])
    ensures T.Bare(text, i) == Some(T.Read(BoolValue(T.LineAt(text, i), b), i + |Word(b)|))
  {
    hide T.Run, T.LineAt, T.IsDate, T.TimeSize, Stands, Stops, Word, T.Bare;
    WordUnits(b);
    StandsFirst(text, i, Word(b));
    StandsSlice(text, i, Word(b));
    NoUnitStops(text, i + |Word(b)|);
    RunReads(text, i, i + 256, T.ValueUnits, Word(b));
    NotDate(Word(b));
    BareReads(text, i, i + |Word(b)|, 0, Word(b));
  }

  lemma NoUnitStops(text: Text, j: nat)
    requires Stops(text, j)
    ensures j < |text| && !T.IsValueUnit(text[j]) && !T.IsTimeUnit(text[j])
  {
  }

  lemma NotDate(raw: Text)
    requires |raw| <= 5
    ensures !T.IsDate(raw)
  {
  }

  // A printed value is read as it, and opens with no gap and no closing character.
  lemma {:induction false} ValueReads(text: Text, i: nat, v: Value)
    requires Printable(v) && Stands(text, i, PrintValue(v)) && Stops(text, i + |PrintValue(v)|)
    ensures i < |text| && NoGap(text[i]) && text[i] != BRACKET_CLOSE && text[i] != BRACE_CLOSE
    ensures ReadsAs(T.ValueAt(text, i), v, i + |PrintValue(v)|)
    decreases v, 0
  {
    hide T.String, T.Bare, T.ListAt, T.InlineAt, Quoted, T.LineAt, Stands, PrintItems, PrintPairs;
    match v
    case StrValue(_, s) =>
      QuotedReads(text, i, s);
    case BoolValue(_, b) =>
      WordReads(text, i, b);
    case OtherValue(_, raw) =>
      RawReads(text, i, v);
    case ListValue(_, items) =>
      StandsUnit(text, i, BRACKET_OPEN, PrintItems(items) + [SPACE, BRACKET_CLOSE]);
      StandsApart(text, i + 1, PrintItems(items), [SPACE, BRACKET_CLOSE]);
      ItemsRead(text, i + 1, T.LineAt(text, i), items, []);
    case InlineValue(_, pairs) =>
      StandsUnit(text, i, BRACE_OPEN, PrintPairs(pairs) + [SPACE, BRACE_CLOSE]);
      StandsApart(text, i + 1, PrintPairs(pairs), [SPACE, BRACE_CLOSE]);
      PairsRead(text, i + 1, T.LineAt(text, i), pairs, []);
  }

  // What follows an item: a comma, or the end of the list.
  lemma Separated(text: Text, i: nat, close: Unit, more: bool)
    requires close == BRACKET_CLOSE || close == BRACE_CLOSE
    requires if more then T.Is(text, i, COMMA) else T.Is(text, i, SPACE) && T.Is(text, i + 1, close)
    ensures Stops(text, i)
    ensures T.Separator(text, i, close) == Some(i + 1)
    ensures !more ==> T.Gap(text, i + 1) == T.Gap(text, i) == i + 1
  {
    if more {
      GapStays(text, i);
    } else {
      GapSpace(text, i);
      GapStays(text, i + 1);
    }
  }

  lemma ListsAlike(before: seq<Value>, item: Value, items: seq<Value>)
    requires items != [] && UnlineValue(item) == UnlineValue(items[0])
    ensures UnlineValue(ListValue(0, before + [item] + items[1..])) == UnlineValue(ListValue(0, before + items))
  {
    hide UnlineValue;
    var a, b := UnlineValues(before + [item] + items[1..]), UnlineValues(before + items);
    forall k | 0 <= k < |b|
      ensures a[k] == b[k]
    {
      assert (before + [item] + items[1..])[k] == if k < |before| then before[k] else if k == |before| then item else items[k - |before|];
    }
    assert a == b;
    ListUnlined(before + [item] + items[1..]);
    ListUnlined(before + items);
  }

  lemma ListUnlined(items: seq<Value>)
    ensures UnlineValue(ListValue(0, items)) == ListValue(0, UnlineValues(items))
  {
  }

  lemma InlinesAlike(before: seq<Pair>, pair: Pair, pairs: seq<Pair>)
    requires pairs != [] && UnlinePair(pair) == UnlinePair(pairs[0])
    ensures UnlineValue(InlineValue(0, before + [pair] + pairs[1..])) == UnlineValue(InlineValue(0, before + pairs))
  {
    hide UnlineValue, UnlinePair;
    var a, b := UnlinePairs(before + [pair] + pairs[1..]), UnlinePairs(before + pairs);
    forall k | 0 <= k < |b|
      ensures a[k] == b[k]
    {
      assert (before + [pair] + pairs[1..])[k] == if k < |before| then before[k] else if k == |before| then pair else pairs[k - |before|];
    }
    assert a == b;
    InlineUnlined(before + [pair] + pairs[1..]);
    InlineUnlined(before + pairs);
  }

  lemma InlineUnlined(pairs: seq<Pair>)
    ensures UnlineValue(InlineValue(0, pairs)) == InlineValue(0, UnlinePairs(pairs))
  {
  }

  // The reader in a list, after a space and up to the next item or the end.
  lemma ListStep(text: Text, i: nat, line: nat, before: seq<Value>, item: Value, j: nat, more: bool)
    requires T.Is(text, i, SPACE) && i + 1 < |text| && NoGap(text[i + 1]) && text[i + 1] != BRACKET_CLOSE
    requires T.ValueAt(text, i + 1) == Some(T.Read(item, j))
    requires if more then T.Is(text, j, COMMA) else T.Is(text, j, SPACE) && T.Is(text, j + 1, BRACKET_CLOSE)
    ensures T.ListAt(text, i, line, before) == T.ListAt(text, if more then j + 1 else j, line, before + [item])
  {
    hide T.ValueAt, T.Gap, T.Separator;
    GapSpace(text, i);
    GapStays(text, i + 1);
    Separated(text, j, BRACKET_CLOSE, more);
  }

  lemma {:induction false} ItemsRead(text: Text, i: nat, line: nat, items: seq<Value>, before: seq<Value>)
    requires forall k :: 0 <= k < |items| ==> Printable(items[k])
    requires Stands(text, i, PrintItems(items)) && Stands(text, i + |PrintItems(items)|, [SPACE, BRACKET_CLOSE])
    ensures ReadsAs(T.ListAt(text, i, line, before), ListValue(0, before + items), i + |PrintItems(items)| + 2)
    decreases items, 1
  {
    hide T.ValueAt, T.ListAt, PrintValue, PrintItems, T.Gap, T.Separator, Stands, Stops, UnlineValue, Printable;
    if items == [] {
      NothingPrints();
      EmptyListReads(text, i, line, before);
      Padded(before);
    } else {
      var more := |items| > 1;
      var j := i + 1 + |PrintValue(items[0])|;
      ItemStands(text, i, items);
      ValueReads(text, i + 1, items[0]);
      var item := T.ValueAt(text, i + 1).value.value;
      ListStep(text, i, line, before, item, j, more);
      ItemsRead(text, if more then j + 1 else j, line, items[1..], before + [item]);
      ListsAlike(before, item, items);
    }
  }

  // A printed item after its space, and what follows it.
  lemma ItemApart(text: Text, i: nat, first: Text, more: bool, rest: Text, close: Unit, end: nat)
    requires close == BRACKET_CLOSE || close == BRACE_CLOSE
    requires Stands(text, i, [SPACE] + (first + (Comma(more) + rest))) && (!more ==> rest == [])
    requires end == i + 1 + |first| + |Comma(more)| + |rest| && Stands(text, end, [SPACE, close])
    ensures T.Is(text, i, SPACE) && Stands(text, i + 1, first)
    ensures
      var j := i + 1 + |first|;
      && Stops(text, j) && Stands(text, if more then j + 1 else j, rest)
      && if more then T.Is(text, j, COMMA) else T.Is(text, j, SPACE) && T.Is(text, j + 1, close)
  {
    hide Stands, Stops, Comma;
    var j := i + 1 + |first|;
    StandsUnit(text, i, SPACE, first + (Comma(more) + rest));
    StandsApart(text, i + 1, first, Comma(more) + rest);
    StandsApart(text, j, Comma(more), rest);
    AfterItem(text, j, close, more, rest);
  }

  lemma ItemSizes(first: Text, comma: Text, rest: Text)
    ensures |[SPACE] + (first + (comma + rest))| == 1 + |first| + |comma| + |rest|
  {
  }

  lemma NothingPrints()
    ensures PrintItems([]) == [] && PrintPairs([]) == []
  {
  }

  // The first of some printed items, and what follows it.
  lemma ItemStands(text: Text, i: nat, items: seq<Value>)
    requires items != []
    requires Stands(text, i, PrintItems(items)) && Stands(text, i + |PrintItems(items)|, [SPACE, BRACKET_CLOSE])
    ensures
      var more, j := |items| > 1, i + 1 + |PrintValue(items[0])|;
      var next := if more then j + 1 else j;
      && T.Is(text, i, SPACE) && Stands(text, i + 1, PrintValue(items[0])) && Stops(text, j)
      && (if more then T.Is(text, j, COMMA) else T.Is(text, j, SPACE) && T.Is(text, j + 1, BRACKET_CLOSE))
      && Stands(text, next, PrintItems(items[1..])) && next + |PrintItems(items[1..])| == i + |PrintItems(items)|
  {
    hide PrintValue, Stands, Stops, Comma;
    var first, more, rest := PrintValue(items[0]), |items| > 1, PrintItems(items[1..]);
    assert PrintItems(items) == [SPACE] + (first + (Comma(more) + rest));
    NothingPrints();
    assert !more ==> items[1..] == [];
    ItemSizes(first, Comma(more), rest);
    hide PrintItems;
    ItemApart(text, i, first, more, rest, BRACKET_CLOSE, i + |PrintItems(items)|);
  }

  lemma EmptyListReads(text: Text, i: nat, line: nat, before: seq<Value>)
    requires Stands(text, i, [SPACE, BRACKET_CLOSE])
    ensures ReadsAs(T.ListAt(text, i, line, before), ListValue(0, before), i + 2)
  {
    hide T.Gap, UnlineValues;
    assert [SPACE, BRACKET_CLOSE] == [SPACE] + [BRACKET_CLOSE];
    StandsUnit(text, i, SPACE, [BRACKET_CLOSE]);
    StandsFirst(text, i + 1, [BRACKET_CLOSE]);
    Separated(text, i, BRACKET_CLOSE, false);
  }

  // What stands after an item: a comma where more follow, else the end.
  lemma AfterItem(text: Text, j: nat, close: Unit, more: bool, rest: Text)
    requires close == BRACKET_CLOSE || close == BRACE_CLOSE
    requires Stands(text, j, Comma(more)) && (!more ==> rest == [])
    requires Stands(text, j + |Comma(more)| + |rest|, [SPACE, close])
    ensures if more then T.Is(text, j, COMMA) else T.Is(text, j, SPACE) && T.Is(text, j + 1, close)
    ensures Stops(text, j)
  {
    if more {
      StandsFirst(text, j, [COMMA]);
    } else {
      assert text[j + 0] == [SPACE, close][0] && text[j + 1] == [SPACE, close][1];
    }
  }

  lemma PairReads(text: Text, i: nat, pair: Pair)
    requires PrintablePair(pair) && Stands(text, i, PrintPair(pair)) && Stops(text, i + |PrintPair(pair)|)
    ensures i < |text| && NoGap(text[i]) && text[i] != BRACKET_OPEN && text[i] != BRACE_CLOSE
    ensures
      var r := T.PairAt(text, i);
      r.Some? && r.value.next == i + |PrintPair(pair)| && UnlinePair(r.value.value) == UnlinePair(pair)
    decreases pair, 0
  {
    hide T.ValueAt, T.Key, PrintKey, PrintValue, UnlineValue, T.Blank, Stands, Printable;
    var key, value := PrintKey(pair.parts), PrintValue(pair.value);
    var j := i + |key|;
    StandsApart(text, i, key, [SPACE] + ([EQUALS] + ([SPACE] + value)));
    StandsUnit(text, j, SPACE, [EQUALS] + ([SPACE] + value));
    StandsUnit(text, j + 1, EQUALS, [SPACE] + value);
    StandsUnit(text, j + 2, SPACE, value);
    KeyReads(text, i, pair.parts, []);
    Padded(pair.parts);
    ValueReads(text, j + 3, pair.value);
    GapSpace(text, j + 2);
    GapStays(text, j + 3);
  }

  lemma InlineStep(text: Text, i: nat, line: nat, before: seq<Pair>, pair: Pair, j: nat, more: bool)
    requires T.Is(text, i, SPACE) && i + 1 < |text| && NoGap(text[i + 1]) && text[i + 1] != BRACE_CLOSE
    requires T.PairAt(text, i + 1) == Some(T.Read(pair, j))
    requires if more then T.Is(text, j, COMMA) else T.Is(text, j, SPACE) && T.Is(text, j + 1, BRACE_CLOSE)
    ensures T.InlineAt(text, i, line, before) == T.InlineAt(text, if more then j + 1 else j, line, before + [pair])
  {
    hide T.PairAt, T.Gap, T.Separator;
    GapSpace(text, i);
    GapStays(text, i + 1);
    Separated(text, j, BRACE_CLOSE, more);
  }

  lemma {:induction false} PairsRead(text: Text, i: nat, line: nat, pairs: seq<Pair>, before: seq<Pair>)
    requires forall k :: 0 <= k < |pairs| ==> PrintablePair(pairs[k])
    requires Stands(text, i, PrintPairs(pairs)) && Stands(text, i + |PrintPairs(pairs)|, [SPACE, BRACE_CLOSE])
    ensures ReadsAs(T.InlineAt(text, i, line, before), InlineValue(0, before + pairs), i + |PrintPairs(pairs)| + 2)
    decreases pairs, 1
  {
    hide T.PairAt, T.InlineAt, PrintPair, PrintPairs, T.Gap, T.Separator, Stands, Stops, UnlineValue, UnlinePair, PrintablePair;
    if pairs == [] {
      NothingPrints();
      EmptyInlineReads(text, i, line, before);
      Padded(before);
    } else {
      var more := |pairs| > 1;
      var j := i + 1 + |PrintPair(pairs[0])|;
      PairStands(text, i, pairs);
      PairReads(text, i + 1, pairs[0]);
      var pair := T.PairAt(text, i + 1).value.value;
      InlineStep(text, i, line, before, pair, j, more);
      PairsRead(text, if more then j + 1 else j, line, pairs[1..], before + [pair]);
      InlinesAlike(before, pair, pairs);
    }
  }

  lemma PairStands(text: Text, i: nat, pairs: seq<Pair>)
    requires pairs != []
    requires Stands(text, i, PrintPairs(pairs)) && Stands(text, i + |PrintPairs(pairs)|, [SPACE, BRACE_CLOSE])
    ensures
      var more, j := |pairs| > 1, i + 1 + |PrintPair(pairs[0])|;
      var next := if more then j + 1 else j;
      && T.Is(text, i, SPACE) && Stands(text, i + 1, PrintPair(pairs[0])) && Stops(text, j)
      && (if more then T.Is(text, j, COMMA) else T.Is(text, j, SPACE) && T.Is(text, j + 1, BRACE_CLOSE))
      && Stands(text, next, PrintPairs(pairs[1..])) && next + |PrintPairs(pairs[1..])| == i + |PrintPairs(pairs)|
  {
    hide PrintPair, Stands, Stops, Comma;
    var first, more, rest := PrintPair(pairs[0]), |pairs| > 1, PrintPairs(pairs[1..]);
    assert PrintPairs(pairs) == [SPACE] + (first + (Comma(more) + rest));
    NothingPrints();
    assert !more ==> pairs[1..] == [];
    ItemSizes(first, Comma(more), rest);
    hide PrintPairs;
    ItemApart(text, i, first, more, rest, BRACE_CLOSE, i + |PrintPairs(pairs)|);
  }

  lemma EmptyInlineReads(text: Text, i: nat, line: nat, before: seq<Pair>)
    requires Stands(text, i, [SPACE, BRACE_CLOSE])
    ensures ReadsAs(T.InlineAt(text, i, line, before), InlineValue(0, before), i + 2)
  {
    hide T.Gap, UnlinePairs;
    assert [SPACE, BRACE_CLOSE] == [SPACE] + [BRACE_CLOSE];
    StandsUnit(text, i, SPACE, [BRACE_CLOSE]);
    StandsFirst(text, i + 1, [BRACE_CLOSE]);
    Separated(text, i, BRACE_CLOSE, false);
  }

  // --- Statements ---

  lemma LineEnds(text: Text, i: nat)
    requires T.Is(text, i, LF)
    ensures T.EndOfLine(text, i) == Some(i + 1)
  {
  }

  ghost predicate StmtReadsAs(r: Option<T.Read<Stmt>>, stmt: Stmt, next: nat) {
    r.Some? && r.value.next == next && UnlineStmt(r.value.value) == UnlineStmt(stmt)
  }

  lemma HeaderReads(text: Text, i: nat, line: nat, parts: Parts)
    requires parts != []
    requires Stands(text, i, PrintStmt(Header(line, false, parts)))
    ensures T.Is(text, i, BRACKET_OPEN)
    ensures StmtReadsAs(T.HeaderAt(text, i), Header(line, false, parts), i + |PrintStmt(Header(line, false, parts))|)
  {
    hide T.Key, PrintKey, Stands, T.EndOfLine;
    var key := PrintKey(parts);
    var j := i + 1 + |key|;
    StandsUnit(text, i, BRACKET_OPEN, key + [BRACKET_CLOSE, LF]);
    StandsApart(text, i + 1, key, [BRACKET_CLOSE, LF]);
    assert [BRACKET_CLOSE, LF] == [BRACKET_CLOSE] + [LF];
    StandsUnit(text, j, BRACKET_CLOSE, [LF]);
    StandsFirst(text, j + 1, [LF]);
    KeyReads(text, i + 1, parts, []);
    Padded(parts);
    LineEnds(text, j + 1);
  }

  lemma ManyHeaderReads(text: Text, i: nat, line: nat, parts: Parts)
    requires parts != []
    requires Stands(text, i, PrintStmt(Header(line, true, parts)))
    ensures T.Is(text, i, BRACKET_OPEN)
    ensures StmtReadsAs(T.HeaderAt(text, i), Header(line, true, parts), i + |PrintStmt(Header(line, true, parts))|)
  {
    hide T.Key, PrintKey, Stands, T.EndOfLine;
    var key, ends: Text := PrintKey(parts), [BRACKET_CLOSE, BRACKET_CLOSE, LF];
    var j := i + 2 + |key|;
    StandsUnit(text, i, BRACKET_OPEN, [BRACKET_OPEN] + (key + ends));
    StandsUnit(text, i + 1, BRACKET_OPEN, key + ends);
    StandsApart(text, i + 2, key, ends);
    assert ends == [BRACKET_CLOSE] + ([BRACKET_CLOSE] + [LF]);
    StandsUnit(text, j, BRACKET_CLOSE, [BRACKET_CLOSE] + [LF]);
    StandsUnit(text, j + 1, BRACKET_CLOSE, [LF]);
    StandsFirst(text, j + 2, [LF]);
    KeyReads(text, i + 2, parts, []);
    Padded(parts);
    LineEnds(text, j + 2);
  }

  lemma BindReads(text: Text, i: nat, stmt: Stmt)
    requires stmt.Bind? && PrintableStmt(stmt) && Stands(text, i, PrintStmt(stmt))
    ensures i < |text| && NoGap(text[i]) && text[i] != BRACKET_OPEN
    ensures StmtReadsAs(T.BindAt(text, i), stmt, i + |PrintStmt(stmt)|)
  {
    hide T.PairAt, PrintPair, Stands, T.EndOfLine, T.LineAt, UnlineValue;
    var pair := Pair(stmt.parts, stmt.value);
    var j := i + |PrintPair(pair)|;
    StandsApart(text, i, PrintPair(pair), [LF]);
    StandsFirst(text, j, [LF]);
    PairReads(text, i, pair);
    LineEnds(text, j);
  }

  lemma StmtReads(text: Text, i: nat, stmt: Stmt)
    requires PrintableStmt(stmt) && Stands(text, i, PrintStmt(stmt))
    ensures i < |text| && NoGap(text[i])
    ensures StmtReadsAs(T.StmtAt(text, i), stmt, i + |PrintStmt(stmt)|)
  {
    hide T.HeaderAt, T.BindAt, PrintStmt, Stands, UnlineStmt;
    match stmt
    case Header(line, many, parts) =>
      if many { ManyHeaderReads(text, i, line, parts); } else { HeaderReads(text, i, line, parts); }
    case Bind(_, _, _) => BindReads(text, i, stmt);
  }

  lemma StmtsStep(text: Text, i: nat, before: seq<Stmt>, stmt: Stmt, j: nat)
    requires i < |text| && NoGap(text[i]) && j <= |text| && T.StmtAt(text, i) == Some(T.Read(stmt, j))
    ensures T.Stmts(text, i, before) == T.Stmts(text, j, before + [stmt])
  {
    GapStays(text, i);
    hide T.StmtAt, T.Gap;
  }

  lemma StmtsEnd(text: Text, before: seq<Stmt>)
    ensures T.Stmts(text, |text|, before) == Some(before)
  {
  }

  lemma StmtsAlike(before: seq<Stmt>, stmt: Stmt, stmts: seq<Stmt>)
    requires stmts != [] && UnlineStmt(stmt) == UnlineStmt(stmts[0])
    ensures UnlineStmts(before + [stmt] + stmts[1..]) == UnlineStmts(before + stmts)
  {
    hide UnlineStmt;
    var a, b := UnlineStmts(before + [stmt] + stmts[1..]), UnlineStmts(before + stmts);
    forall k | 0 <= k < |b|
      ensures a[k] == b[k]
    {
      assert (before + [stmt] + stmts[1..])[k] == if k < |before| then before[k] else if k == |before| then stmt else stmts[k - |before|];
    }
    assert a == b;
  }

  lemma {:induction false} StmtsRead(text: Text, i: nat, stmts: seq<Stmt>, before: seq<Stmt>)
    requires AllPrintable(stmts) && Stands(text, i, Print(stmts)) && i + |Print(stmts)| == |text|
    ensures
      var r := T.Stmts(text, i, before);
      r.Some? && UnlineStmts(r.value) == UnlineStmts(before + stmts)
    decreases |stmts|
  {
    hide T.StmtAt, T.Stmts, PrintStmt, Stands, UnlineStmt, UnlineStmts, PrintableStmt;
    if stmts == [] {
      StmtsEnd(text, before);
      Padded(before);
    } else {
      var first := PrintStmt(stmts[0]);
      StandsApart(text, i, first, Print(stmts[1..]));
      assert PrintableStmt(stmts[0]);
      StmtReads(text, i, stmts[0]);
      var stmt, j := T.StmtAt(text, i).value.value, i + |first|;
      StmtsStep(text, i, before, stmt, j);
      StmtsRead(text, j, stmts[1..], before + [stmt]);
      StmtsAlike(before, stmt, stmts);
    }
  }

  // A whole printed text.
  lemma PrintReads(stmts: seq<Stmt>)
    requires AllPrintable(stmts)
    ensures
      var r := T.Stmts(Print(stmts), 0, []);
      r.Some? && UnlineStmts(r.value) == UnlineStmts(stmts)
  {
    StmtsRead(Print(stmts), 0, stmts, []);
    Padded(stmts);
  }

  // Parsing what is printed builds what the statements build.
  lemma PrintParses(stmts: seq<Stmt>)
    requires AllPrintable(stmts)
    ensures UnlineBuilt(T.Parse(Print(stmts))) == UnlineBuilt(Build(stmts))
  {
    hide Build, Print, UnlineStmts, UnlineBuilt, T.Stmts;
    PrintReads(stmts);
    BuildAlike(T.Stmts(Print(stmts), 0, []).value, stmts);
  }

  // A print tells the statements, but for their lines.
  lemma PrintTells(a: seq<Stmt>, b: seq<Stmt>)
    requires AllPrintable(a) && AllPrintable(b) && Print(a) == Print(b)
    ensures UnlineStmts(a) == UnlineStmts(b)
  {
    hide Print, UnlineStmts;
    PrintReads(a);
    PrintReads(b);
  }
}
