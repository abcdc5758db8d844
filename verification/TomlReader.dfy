// The TOML reader as it runs: one cursor, one line counter and a tree changed
// statement by statement (tools/port-deps.cjs). Wherever it does not throw,
// the counter is one more than the line feeds the cursor has passed.

module TomlReader {
  import opened Options
  import opened Text
  import opened TomlTrees
  import T = TomlText
  import B = TomlBreaks

  class Reader {
    const text: Text
    var i: nat
    var line: nat
    var root: Node
    var current: Parts

    ghost predicate Valid()
      reads this`i, this`line
    {
      i <= |text| && line == T.LineAt(text, i)
    }

    // Where the reader stands when it throws: the cursor is at most one past the
    // end, and the counter is one more than the line feeds the cursor has
    // passed, or one short of that where a string broke.
    ghost predicate Stopped(breaks: bool)
      reads this`i, this`line
    {
      && i <= |text| + 1
      && if breaks then
           2 <= i <= |text| && text[i - 2] == BACKSLASH && text[i - 1] == LF && line + 1 == T.LineAt(text, i)
         else line == T.LineAt(text, if i <= |text| then i else |text|)
    }

    constructor (text: Text)
      ensures this.text == text && Valid() && i == 0
      ensures Doc(root, current) == Start()
    {
      this.text := text;
      i := 0;
      line := 1;
      root := NewTable(1, true, false);
      current := [];
    }

    method Blank()
      requires Valid()
      modifies this`i
      ensures Valid() && i == T.Blank(text, old(i))
    {
      while i < |text| && IsSpace(text[i])
        invariant Valid() && T.Blank(text, old(i)) == T.Blank(text, i)
      {
        i := i + 1;
      }
    }

    method Comment()
      requires Valid()
      modifies this`i
      ensures Valid() && i == T.Comment(text, old(i))
    {
      if T.Is(text, i, HASH) {
        while i < |text| && text[i] != LF
          invariant Valid() && T.ToLineFeed(text, old(i)) == T.ToLineFeed(text, i)
        {
          i := i + 1;
        }
      }
    }

    method Gap()
      requires Valid()
      modifies this`i, this`line
      ensures Valid() && i == T.Gap(text, old(i))
    {
      while true
        invariant Valid() && T.Gap(text, old(i)) == T.Gap(text, i)
        decreases |text| - i
      {
        Blank();
        Comment();
        if T.Is(text, i, LF) {
          i := i + 1;
          line := line + 1;
        } else {
          return;
        }
      }
    }

    method EndOfLine() returns (ok: bool)
      requires Valid()
      modifies this`i, this`line
      ensures ok <==> T.EndOfLine(text, old(i)).Some?
      ensures ok ==> Valid() && i == T.EndOfLine(text, old(i)).value
      ensures !ok ==> Stopped(false)
    {
      Blank();
      Comment();
      if i == |text| {
        return true;
      }
      if text[i] != LF {
        return false;
      }
      i := i + 1;
      line := line + 1;
      return true;
    }

    // From after the backslash. The cursor goes past the end, or past a line
    // feed that is not counted, only where the escape is refused.
    method Escape() returns (ok: bool, out: Text)
      requires Valid() && i > 0 && text[i - 1] == BACKSLASH
      modifies this`i
      ensures ok <==> T.Escape(text, old(i)).Some?
      ensures ok ==> Valid() && T.Escape(text, old(i)) == Some(T.Read(out, i))
      ensures !ok ==> Stopped(T.Is(text, old(i), LF))
    {
      out := [];
      i := i + 1;
      if i > |text| {
        return false, out;
      }
      var c := text[i - 1];
      var simple := T.SimpleEscape(c);
      if simple.Some? {
        assert c != LF;
        return true, [simple.value];
      }
      var width := T.EscapeWidth(c);
      if width == 0 || i + width > |text| {
        return false, out;
      }
      var hex := text[i..i + width];
      if exists k :: 0 <= k < |hex| && !IsHex(hex[k]) {
        return false, out;
      }
      if HexNumber(hex) > 0x10FFFF {
        return false, out;
      }
      NoLineFeeds(text, i, i + width);
      i := i + width;
      return true, FromCodePoint(HexNumber(hex));
    }

    method OneLineString(quote: Unit) returns (ok: bool, out: Text)
      requires Valid()
      modifies this`i
      ensures ok <==> T.OneLineString(text, old(i), quote, []).Some?
      ensures ok ==> Valid() && T.OneLineString(text, old(i), quote, []) == Some(T.Read(out, i))
      ensures !ok ==> Stopped(B.OneLineBreaks(text, old(i), quote))
    {
      out := [];
      while true
        invariant Valid() && T.OneLineString(text, old(i), quote, []) == T.OneLineString(text, i, quote, out)
        invariant B.OneLineBreaks(text, old(i), quote) == B.OneLineBreaks(text, i, quote)
        decreases |text| - i
      {
        if i == |text| || text[i] == LF {
          return false, out;
        }
        var c := text[i];
        i := i + 1;
        if c == quote {
          return true, out;
        }
        if c == BACKSLASH && quote == QUOTE {
          var escaped;
          ok, escaped := Escape();
          if !ok {
            return;
          }
          out := out + escaped;
        } else {
          out := out + [c];
        }
      }
    }

    method White()
      requires Valid()
      modifies this`i, this`line
      ensures Valid() && i == T.White(text, old(i))
    {
      while i < |text| && T.IsWhite(text[i])
        invariant Valid() && T.White(text, old(i)) == T.White(text, i)
      {
        if text[i] == LF {
          line := line + 1;
        }
        i := i + 1;
      }
    }

    // Up to two more quotes belong to the string itself.
    method Extra(quote: Unit) returns (out: Text)
      requires Valid() && quote != LF
      modifies this`i
      ensures Valid() && i == old(i) + T.Extra(text, old(i), quote) && out == T.Repeat(quote, T.Extra(text, old(i), quote))
    {
      out := [];
      var extra := 0;
      while extra < 2 && T.Is(text, i, quote)
        invariant Valid() && extra <= 2 && i == old(i) + extra && out == T.Repeat(quote, extra)
        invariant (extra >= 1 ==> T.Is(text, old(i), quote)) && (extra >= 2 ==> T.Is(text, old(i) + 1, quote))
      {
        out := out + [quote];
        i := i + 1;
        extra := extra + 1;
      }
    }

    method LongString(quote: Unit) returns (ok: bool, out: Text)
      requires Valid() && quote != LF
      modifies this`i, this`line
      ensures ok <==> T.LongString(text, old(i), quote, []).Some?
      ensures ok ==> Valid() && T.LongString(text, old(i), quote, []) == Some(T.Read(out, i))
      ensures !ok ==> Stopped(false)
    {
      hide T.Escape, T.White, T.AtLineEnd, T.Extra, T.Repeat;
      out := [];
      while true
        invariant Valid() && T.LongString(text, old(i), quote, []) == T.LongString(text, i, quote, out)
        decreases |text| - i
      {
        if i == |text| {
          return false, out;
        }
        if T.Three(text, i, quote) {
          ThreeOn(text, i, quote);
          i := i + 3;
          var extra := Extra(quote);
          return true, out + extra;
        }
        var c := text[i];
        i := i + 1;
        if c == LF {
          line := line + 1;
          out := out + [c];
        } else if c == BACKSLASH && quote == QUOTE {
          NotAtLineEnd(text, i);
          if T.AtLineEnd(text, i) {
            White();
          } else {
            var escaped;
            ok, escaped := Escape();
            if !ok {
              return;
            }
            out := out + escaped;
          }
        } else {
          out := out + [c];
        }
      }
    }

    method String() returns (ok: bool, s: Text)
      requires Valid() && i < |text| && T.IsQuote(text[i])
      modifies this`i, this`line
      ensures ok <==> T.String(text, old(i)).Some?
      ensures ok ==> Valid() && T.String(text, old(i)) == Some(T.Read(s, i))
      ensures !ok ==> Stopped(B.StringBreaks(text, old(i)))
    {
      hide T.LongString, T.OneLineString, B.OneLineBreaks;
      var quote := text[i];
      if T.Three(text, i, quote) {
        ThreeOn(text, i, quote);
        i := i + 3;
        if T.Is(text, i, LF) {
          i := i + 1;
          line := line + 1;
        }
        ok, s := LongString(quote);
      } else {
        i := i + 1;
        ok, s := OneLineString(quote);
      }
    }

    method KeyPart() returns (ok: bool, part: Text)
      requires Valid()
      modifies this`i, this`line
      ensures ok <==> T.KeyPart(text, old(i)).Some?
      ensures ok ==> Valid() && T.KeyPart(text, old(i)) == Some(T.Read(part, i))
      ensures !ok ==> Stopped(B.KeyPartBreaks(text, old(i)))
    {
      hide T.String, B.OneLineBreaks;
      if i < |text| && T.IsQuote(text[i]) {
        if T.Three(text, i, text[i]) {
          return false, [];
        }
        ok, part := String();
      } else {
        var j := T.Run(text, i, i + 256, T.KeyUnits);
        if j == i {
          return false, [];
        }
        RunOnLine(text, i, i + 256, T.KeyUnits);
        ok, part := true, text[i..j];
        i := j;
      }
    }

    method Key() returns (ok: bool, parts: Parts)
      requires Valid()
      modifies this`i, this`line
      ensures ok <==> T.Key(text, old(i), []).Some?
      ensures ok ==> Valid() && T.Key(text, old(i), []) == Some(T.Read(parts, i))
      ensures !ok ==> Stopped(B.KeyBreaks(text, old(i)))
    {
      hide T.KeyPart, T.LineAt, T.Blank, T.Key, B.KeyPartBreaks, B.KeyBreaks;
      parts := [];
      while true
        invariant Valid() && T.Key(text, old(i), []) == T.Key(text, i, parts)
        invariant B.KeyBreaks(text, old(i)) == B.KeyBreaks(text, i)
        decreases |text| - i
      {
        KeyStep(text, i, parts);
        KeyBreakStep(text, i);
        Blank();
        var part;
        ok, part := KeyPart();
        if !ok {
          return;
        }
        parts := parts + [part];
        Blank();
        if !T.Is(text, i, DOT) {
          return;
        }
        NoLineFeeds(text, i, i + 1);
        i := i + 1;
      }
    }

    // A run of digits, letters and signs, and the time after a date.
    method Bare() returns (ok: bool, node: Node)
      requires Valid()
      modifies this`i
      ensures ok <==> T.Bare(text, old(i)).Some?
      ensures !ok ==> Stopped(false)
      ensures ok ==> Valid() && i == T.Bare(text, old(i)).value.next && Eval(T.Bare(text, old(i)).value.value) == Some(node)
    {
      hide T.LineAt, T.Run, T.IsDate, T.TimeSize;
      var j := T.Run(text, i, i + 256, T.ValueUnits);
      if j == i {
        return false, Other(line, []);
      }
      RunOnLine(text, i, i + 256, T.ValueUnits);
      var raw := text[i..j];
      var start := i;
      i := j;
      if T.IsDate(raw) {
        var n := T.TimeSize(text, i);
        TimeOnLine(text, i);
        raw := text[start..i + n];
        i := i + n;
      }
      if raw == TRUE_WORD || raw == FALSE_WORD {
        return true, Bool(line, raw == TRUE_WORD);
      }
      return true, Other(line, raw);
    }

    method Value() returns (ok: bool, node: Node)
      requires Valid()
      modifies this`i, this`line
      ensures ok <==> Reads(text, old(i))
      ensures !ok ==> Stopped(B.ValueBreaks(text, old(i)))
      ensures ok ==> Valid() && i == T.ValueAt(text, old(i)).value.next && Eval(T.ValueAt(text, old(i)).value.value) == Some(node)
      decreases |text| - i, 2
    {
      hide T.String, T.Bare, T.ListAt, T.InlineAt, B.StringBreaks, B.ListBreaks, B.InlineBreaks;
      var start := line;
      if i < |text| && T.IsQuote(text[i]) {
        var s;
        ok, s := String();
        return ok, Str(start, s);
      }
      if T.Is(text, i, BRACKET_OPEN) {
        i := i + 1;
        ok, node := ListItems(start);
      } else if T.Is(text, i, BRACE_OPEN) {
        i := i + 1;
        ok, node := InlinePairs(start);
      } else {
        ok, node := Bare();
      }
    }

    // After an item: a comma, or the closing character next.
    method Separator(close: Unit) returns (ok: bool)
      requires Valid()
      modifies this`i, this`line
      ensures ok <==> T.Separator(text, old(i), close).Some?
      ensures ok ==> Valid() && i == T.Separator(text, old(i), close).value
      ensures !ok ==> Stopped(false)
    {
      Gap();
      if T.Is(text, i, COMMA) {
        i := i + 1;
        return true;
      }
      return i == |text| || text[i] == close;
    }

    method ListItems(start: nat) returns (ok: bool, node: Node)
      requires Valid()
      modifies this`i, this`line
      ensures ok <==> ReadsList(text, old(i), start)
      ensures !ok ==> Stopped(B.ListBreaks(text, old(i)))
      ensures ok ==> Valid() && i == T.ListAt(text, old(i), start, []).value.next
      ensures ok ==> Eval(T.ListAt(text, old(i), start, []).value.value) == Some(node)
      decreases |text| - i, 3
    {
      hide T.ValueAt, T.Separator, T.ListAt, T.Gap, Eval, B.ValueBreaks, B.ListBreaks;
      var items: seq<Node> := [];
      ghost var values: seq<TomlTrees.Value> := [];
      node := Other(start, []);
      while true
        invariant Valid() && i >= old(i) && EvalItems(values) == Some(items)
        invariant T.ListAt(text, old(i), start, []) == T.ListAt(text, i, start, values)
        invariant B.ListBreaks(text, old(i)) == B.ListBreaks(text, i)
        decreases |text| - i
      {
        GapSettles(text, i);
        ListGap(text, i, start, values);
        ListBreakGap(text, i);
        Gap();
        ListStep(text, i, start, values);
        ListBreakStep(text, i);
        if i == |text| {
          return false, node;
        }
        if text[i] == BRACKET_CLOSE {
          i := i + 1;
          ListEvals(start, values);
          return true, List(start, items);
        }
        ghost var at := i;
        var item;
        ok, item := Value();
        if !ok {
          ListRefused(text, at, start, values);
          return;
        }
        ghost var value := T.ValueAt(text, at).value.value;
        EvalItemsPush(values, value);
        values := values + [value];
        items := items + [item];
        ok := Separator(BRACKET_CLOSE);
        if !ok {
          return;
        }
      }
    }

    method InlinePairs(start: nat) returns (ok: bool, node: Node)
      requires Valid()
      modifies this`i, this`line
      ensures ok <==> ReadsInline(text, old(i), start)
      ensures !ok ==> Stopped(B.InlineBreaks(text, old(i), NewTable(start, true, true)))
      ensures ok ==> Valid() && i == T.InlineAt(text, old(i), start, []).value.next
      ensures ok ==> Eval(T.InlineAt(text, old(i), start, []).value.value) == Some(node)
      decreases |text| - i, 4
    {
      hide T.PairAt, T.Separator, T.InlineAt, T.Gap, Eval, B.PairBreaks, B.InlineBreaks;
      ghost var pairs: seq<Pair> := [];
      ghost var table := NewTable(start, true, true);
      node := NewTable(start, true, true);
      while true
        invariant Valid() && i >= old(i) && EvalPairs(table, pairs) == Some(node) && node.Table?
        invariant T.InlineAt(text, old(i), start, []) == T.InlineAt(text, i, start, pairs)
        invariant B.InlineBreaks(text, old(i), table) == B.InlineBreaks(text, i, node)
        decreases |text| - i
      {
        GapSettles(text, i);
        InlineGap(text, i, start, pairs);
        InlineBreakGap(text, i, node);
        Gap();
        InlineStep(text, i, start, pairs);
        InlineBreakStep(text, i, node);
        if i == |text| {
          return false, node;
        }
        if text[i] == BRACE_CLOSE {
          i := i + 1;
          InlineEvals(start, pairs);
          return true, node;
        }
        ghost var at := i;
        var parts, v;
        ok, parts, v := Pair();
        if !ok {
          InlineRefused(text, at, start, pairs);
          return;
        }
        var after := Assign(node, parts, v);
        ghost var pair := T.PairAt(text, at).value.value;
        EvalPairsPush(table, pairs, pair);
        pairs := pairs + [pair];
        if after.None? {
          InlineStuck(text, at, start, pairs);
          return false, node;
        }
        node := after.value;
        ok := Separator(BRACE_CLOSE);
        if !ok {
          return;
        }
      }
    }

    // A key, its "=" and its value.
    method Pair() returns (ok: bool, parts: Parts, node: Node)
      requires Valid()
      modifies this`i, this`line
      ensures ok <==> T.PairAt(text, old(i)).Some? && Eval(T.PairAt(text, old(i)).value.value.value).Some?
      ensures !ok ==> Stopped(B.PairBreaks(text, old(i)))
      ensures ok ==> Valid() && i == T.PairAt(text, old(i)).value.next
      ensures ok ==> T.PairAt(text, old(i)).value.value.parts == parts
      ensures ok ==> Eval(T.PairAt(text, old(i)).value.value.value) == Some(node)
      decreases |text| - i, 3
    {
      hide T.Key, T.ValueAt, Eval, B.KeyBreaks, B.ValueBreaks;
      node := Other(line, []);
      ok, parts := Key();
      if !ok {
        return;
      }
      if !T.Is(text, i, T.EQUALS) {
        return false, parts, node;
      }
      i := i + 1;
      Blank();
      ok, node := Value();
    }

    // [parts] or [[parts]]; the statements that follow go to its table.
    method Header() returns (ok: bool)
      requires Valid() && T.Is(text, i, BRACKET_OPEN) && root.Table?
      modifies this
      ensures ok <==> Taken(Doc(old(root), old(current)), T.HeaderAt(text, old(i)))
      ensures !ok ==> Stopped(B.HeaderBreaks(text, old(i)))
      ensures ok ==> Valid() && i == T.HeaderAt(text, old(i)).value.next
      ensures ok ==> Step(Doc(old(root), old(current)), T.HeaderAt(text, old(i)).value.value) == Some(Doc(root, current))
    {
      hide T.Key, T.EndOfLine, TomlTrees.HeaderAt, B.KeyBreaks;
      var start := line;
      var many := T.Is(text, i + 1, BRACKET_OPEN);
      NoLineFeeds(text, i, if many then i + 2 else i + 1);
      i := if many then i + 2 else i + 1;
      KeyBreaksNone(text, i);
      var parts;
      ok, parts := Key();
      if !ok {
        return;
      }
      if !T.Is(text, i, BRACKET_CLOSE) || (many && !T.Is(text, i + 1, BRACKET_CLOSE)) {
        return false;
      }
      i := if many then i + 2 else i + 1;
      ok := EndOfLine();
      if !ok {
        return;
      }
      var after := TomlTrees.HeaderAt(root, parts, many, start);
      if after.None? {
        return false;
      }
      root, current := after.value, parts;
    }

    // key = value; the value goes to the table of the last header.
    method Bind() returns (ok: bool)
      requires Valid()
      modifies this
      ensures ok <==> Taken(Doc(old(root), old(current)), T.BindAt(text, old(i)))
      ensures !ok ==> Stopped(B.PairBreaks(text, old(i)))
      ensures ok ==> Valid() && i == T.BindAt(text, old(i)).value.next && current == old(current)
      ensures ok ==> Step(Doc(old(root), old(current)), T.BindAt(text, old(i)).value.value) == Some(Doc(root, current))
    {
      hide T.PairAt, T.EndOfLine, AssignAt, Eval, B.PairBreaks;
      PairBreaksNone(text, i);
      var start := line;
      var parts, node;
      ok, parts, node := Pair();
      if !ok {
        return;
      }
      var after := AssignAt(root, current, parts, node.(line := start));
      if after.None? {
        return false;
      }
      root := after.value;
      ok := EndOfLine();
    }

    // The whole text. The reader throws exactly where the text is not a
    // document or its statements do not build a tree; otherwise it ends with
    // the tree they build and the cursor at the end. The counter is right
    // wherever the reader stops, but one short exactly where the text breaks:
    // at a backslash and a line feed in a one-line basic string.
    method Read() returns (ok: bool)
      requires Valid() && i == 0 && Doc(root, current) == Start()
      modifies this
      ensures ok <==> T.Parse(text).Some?
      ensures ok ==> T.Parse(text) == Some(Doc(root, current))
      ensures ok ==> Valid() && i == |text|
      ensures !ok ==> Stopped(B.Breaks(text))
      ensures B.Breaks(text) <==> i <= |text| && line + 1 == T.LineAt(text, i)
    {
      hide T.StmtAt, Step, B.StmtBreaks, B.BreaksFrom, T.Stmts;
      if B.Breaks(text) {
        B.BreaksRefused(text);
      }
      ghost var stmts: seq<Stmt> := [];
      while true
        invariant Valid() && root.Table?
        invariant Build(stmts) == Some(Doc(root, current))
        invariant T.Stmts(text, 0, []) == T.Stmts(text, i, stmts)
        invariant B.Breaks(text) == B.BreaksFrom(text, i, Doc(root, current))
        decreases |text| - i
      {
        GapSettles(text, i);
        StmtsGap(text, i, stmts);
        BreaksGap(text, i, Doc(root, current));
        Gap();
        StmtsStep(text, i, stmts);
        BreaksStep(text, i, Doc(root, current));
        if i == |text| {
          return true;
        }
        ghost var at, doc := i, Doc(root, current);
        ok := Statement();
        if !ok {
          StmtRefused(text, at, stmts);
          return;
        }
        ghost var stmt := T.StmtAt(text, at).value.value;
        BuildPush(stmts, stmt);
        stmts := stmts + [stmt];
        BuildsTable(stmts);
      }
    }

    method Statement() returns (ok: bool)
      requires Valid() && i < |text| && root.Table?
      modifies this
      ensures ok <==> Taken(Doc(old(root), old(current)), T.StmtAt(text, old(i)))
      ensures !ok ==> Stopped(B.StmtBreaks(text, old(i)))
      ensures ok ==> Valid() && i == T.StmtAt(text, old(i)).value.next
      ensures ok ==> Step(Doc(old(root), old(current)), T.StmtAt(text, old(i)).value.value) == Some(Doc(root, current))
    {
      hide T.HeaderAt, T.BindAt, Step, B.HeaderBreaks, B.PairBreaks;
      if text[i] == BRACKET_OPEN {
        ok := Header();
      } else {
        ok := Bind();
      }
    }
  }

  // Refused: the text is not a statement, or the tree does not take it.
  ghost predicate Taken(doc: Doc, stmt: Option<T.Read<Stmt>>) {
    stmt.Some? && Step(doc, stmt.value.value).Some?
  }

  ghost predicate Reads(text: Text, i: nat)
    requires i <= |text|
  {
    T.ValueAt(text, i).Some? && Eval(T.ValueAt(text, i).value.value).Some?
  }

  ghost predicate ReadsList(text: Text, i: nat, start: nat)
    requires i <= |text|
  {
    T.ListAt(text, i, start, []).Some? && Eval(T.ListAt(text, i, start, []).value.value).Some?
  }

  ghost predicate ReadsInline(text: Text, i: nat, start: nat)
    requires i <= |text|
  {
    T.InlineAt(text, i, start, []).Some? && Eval(T.InlineAt(text, i, start, []).value.value).Some?
  }

  lemma {:induction false} NoLineFeeds(text: Text, i: nat, j: nat)
    requires i <= j <= |text| && forall k :: i <= k < j ==> text[k] != LF
    ensures T.LineAt(text, j) == T.LineAt(text, i)
  {
    if i < j {
      NoLineFeeds(text, i, j - 1);
    }
  }

  lemma ThreeOn(text: Text, i: nat, quote: Unit)
    requires T.Three(text, i, quote) && quote != LF
    ensures T.LineAt(text, i + 3) == T.LineAt(text, i)
  {
    NoLineFeeds(text, i, i + 3);
  }

  lemma RunOnLine(text: Text, i: nat, limit: nat, kind: T.Kind)
    requires i <= |text|
    ensures T.LineAt(text, T.Run(text, i, limit, kind)) == T.LineAt(text, i)
  {
    NoLineFeeds(text, i, T.Run(text, i, limit, kind));
  }

  lemma {:induction false} GapSettles(text: Text, i: nat)
    requires i <= |text|
    ensures T.Gap(text, T.Gap(text, i)) == T.Gap(text, i)
    decreases |text| - i
  {
    var j := T.Comment(text, T.Blank(text, i));
    if T.Is(text, j, LF) {
      GapSettles(text, j + 1);
    }
  }

  lemma KeyStep(text: Text, i: nat, parts: Parts)
    requires i <= |text|
    ensures
      var part := T.KeyPart(text, T.Blank(text, i));
      if part.None? then T.Key(text, i, parts) == None
      else
        var j := T.Blank(text, part.value.next);
        T.Key(text, i, parts) ==
        if T.Is(text, j, DOT) then T.Key(text, j + 1, parts + [part.value.value])
        else Some(T.Read(parts + [part.value.value], j))
  {
  }

  // A backslash before a line feed is a line end, so no escape.
  lemma NotAtLineEnd(text: Text, i: nat)
    requires i <= |text|
    ensures T.Is(text, i, LF) ==> T.AtLineEnd(text, i)
  {
  }

  lemma KeyBreakStep(text: Text, i: nat)
    requires i <= |text|
    ensures
      var at := T.Blank(text, i);
      var part := T.KeyPart(text, at);
      B.KeyBreaks(text, i) <==>
      if part.None? then B.KeyPartBreaks(text, at)
      else T.Is(text, T.Blank(text, part.value.next), DOT) && B.KeyBreaks(text, T.Blank(text, part.value.next) + 1)
  {
  }

  lemma KeyBreaksNone(text: Text, i: nat)
    requires i <= |text|
    ensures T.Key(text, i, []).Some? ==> !B.KeyBreaks(text, i)
  {
    hide T.Key, B.KeyBreaks;
    if B.KeyBreaks(text, i) {
      B.KeyRefused(text, i, []);
    }
  }

  lemma ValueBreaksNone(text: Text, i: nat)
    requires i <= |text|
    ensures T.ValueAt(text, i).Some? ==> !B.ValueBreaks(text, i)
  {
    hide T.ValueAt, B.ValueBreaks;
    if B.ValueBreaks(text, i) {
      B.ValueRefused(text, i);
    }
  }

  lemma PairBreaksNone(text: Text, i: nat)
    requires i <= |text|
    ensures T.PairAt(text, i).Some? ==> !B.PairBreaks(text, i)
  {
    hide T.PairAt, B.PairBreaks;
    if B.PairBreaks(text, i) {
      B.PairRefused(text, i);
    }
  }

  lemma ListBreakGap(text: Text, i: nat)
    requires i <= |text|
    ensures B.ListBreaks(text, i) == B.ListBreaks(text, T.Gap(text, i))
  {
    hide T.ValueAt, B.ValueBreaks, T.Separator, T.Gap, Eval;
    GapSettles(text, i);
  }

  lemma ListBreakStep(text: Text, i: nat)
    requires i <= |text| && T.Gap(text, i) == i
    ensures
      B.ListBreaks(text, i) <==>
      && i < |text| && text[i] != BRACKET_CLOSE
      && var item := T.ValueAt(text, i);
      if item.None? || Eval(item.value.value).None? then B.ValueBreaks(text, i)
      else
        var next := T.Separator(text, item.value.next, BRACKET_CLOSE);
        next.Some? && B.ListBreaks(text, next.value)
  {
    hide T.ValueAt, B.ValueBreaks, T.Separator, T.Gap, Eval;
    ValueBreaksNone(text, i);
  }

  lemma InlineBreakGap(text: Text, i: nat, table: Node)
    requires i <= |text| && table.Table?
    ensures B.InlineBreaks(text, i, table) == B.InlineBreaks(text, T.Gap(text, i), table)
  {
    hide T.PairAt, B.PairBreaks, T.Separator, T.Gap, EvalPair;
    GapSettles(text, i);
  }

  lemma InlineBreakStep(text: Text, i: nat, table: Node)
    requires i <= |text| && table.Table? && T.Gap(text, i) == i
    ensures
      B.InlineBreaks(text, i, table) <==>
      && i < |text| && text[i] != BRACE_CLOSE
      && var pair := T.PairAt(text, i);
      if pair.None? || Eval(pair.value.value.value).None? then B.PairBreaks(text, i)
      else
        var after := EvalPair(table, pair.value.value);
        var next := T.Separator(text, pair.value.next, BRACE_CLOSE);
        after.Some? && next.Some? && B.InlineBreaks(text, next.value, after.value)
  {
    hide T.PairAt, B.PairBreaks, T.Separator, T.Gap, Eval, Assign;
    PairBreaksNone(text, i);
  }

  lemma StmtsGap(text: Text, i: nat, stmts: seq<Stmt>)
    requires i <= |text|
    ensures T.Stmts(text, i, stmts) == T.Stmts(text, T.Gap(text, i), stmts)
  {
    hide T.StmtAt, T.Gap;
    GapSettles(text, i);
  }

  lemma StmtsStep(text: Text, i: nat, stmts: seq<Stmt>)
    requires i <= |text| && T.Gap(text, i) == i
    ensures
      T.Stmts(text, i, stmts) ==
      if i == |text| then Some(stmts)
      else if T.StmtAt(text, i).None? then None
      else T.Stmts(text, T.StmtAt(text, i).value.next, stmts + [T.StmtAt(text, i).value.value])
  {
    hide T.StmtAt, T.Gap;
  }

  lemma BreaksGap(text: Text, i: nat, doc: Doc)
    requires i <= |text|
    ensures B.BreaksFrom(text, i, doc) == B.BreaksFrom(text, T.Gap(text, i), doc)
  {
    hide T.StmtAt, B.StmtBreaks, T.Gap, Step;
    GapSettles(text, i);
  }

  lemma BreaksStep(text: Text, i: nat, doc: Doc)
    requires i <= |text| && T.Gap(text, i) == i
    ensures
      B.BreaksFrom(text, i, doc) <==>
      && i < |text|
      && var stmt := T.StmtAt(text, i);
      if stmt.None? || Step(doc, stmt.value.value).None? then B.StmtBreaks(text, i)
      else B.BreaksFrom(text, stmt.value.next, Step(doc, stmt.value.value).value)
  {
    hide T.StmtAt, B.StmtBreaks, T.Gap, Step;
    if i < |text| && B.StmtBreaks(text, i) {
      B.StmtRefused(text, i);
    }
  }

  lemma ListGap(text: Text, i: nat, start: nat, values: seq<TomlTrees.Value>)
    requires i <= |text|
    ensures T.ListAt(text, i, start, values) == T.ListAt(text, T.Gap(text, i), start, values)
  {
    hide T.ValueAt, T.Separator, T.Gap;
    GapSettles(text, i);
  }

  lemma ListStep(text: Text, i: nat, start: nat, values: seq<TomlTrees.Value>)
    requires i <= |text| && T.Gap(text, i) == i
    ensures
      T.ListAt(text, i, start, values) ==
      if i == |text| then None
      else if text[i] == BRACKET_CLOSE then Some(T.Read(ListValue(start, values), i + 1))
      else if T.ValueAt(text, i).None? then None
      else
        var item := T.ValueAt(text, i).value;
        if T.Separator(text, item.next, BRACKET_CLOSE).None? then None
        else T.ListAt(text, T.Separator(text, item.next, BRACKET_CLOSE).value, start, values + [item.value])
  {
    hide T.ValueAt, T.Separator, T.Gap;
  }

  lemma InlineGap(text: Text, i: nat, start: nat, pairs: seq<Pair>)
    requires i <= |text|
    ensures T.InlineAt(text, i, start, pairs) == T.InlineAt(text, T.Gap(text, i), start, pairs)
  {
    hide T.PairAt, T.Separator, T.Gap;
    GapSettles(text, i);
  }

  lemma InlineStep(text: Text, i: nat, start: nat, pairs: seq<Pair>)
    requires i <= |text| && T.Gap(text, i) == i
    ensures
      T.InlineAt(text, i, start, pairs) ==
      if i == |text| then None
      else if text[i] == BRACE_CLOSE then Some(T.Read(InlineValue(start, pairs), i + 1))
      else if T.PairAt(text, i).None? then None
      else
        var pair := T.PairAt(text, i).value;
        if T.Separator(text, pair.next, BRACE_CLOSE).None? then None
        else T.InlineAt(text, T.Separator(text, pair.next, BRACE_CLOSE).value, start, pairs + [pair.value])
  {
    hide T.PairAt, T.Separator, T.Gap;
  }

  lemma TimeOnLine(text: Text, i: nat)
    requires i <= |text|
    ensures T.LineAt(text, i + T.TimeSize(text, i)) == T.LineAt(text, i)
  {
    NoLineFeeds(text, i, i + T.TimeSize(text, i));
  }

  lemma EvalItemsPush(values: seq<TomlTrees.Value>, v: TomlTrees.Value)
    ensures EvalItems(values + [v]) ==
            if EvalItems(values).None? || Eval(v).None? then None else Some(EvalItems(values).value + [Eval(v).value])
  {
    hide Eval;
    Init(values, v);
  }

  lemma EvalPairsPush(table: Node, pairs: seq<Pair>, pair: Pair)
    requires table.Table?
    ensures EvalPairs(table, pairs + [pair]) ==
            if EvalPairs(table, pairs).None? then None else EvalPair(EvalPairs(table, pairs).value, pair)
  {
    hide EvalPair;
    Init(pairs, pair);
  }

  lemma ListEvals(start: nat, values: seq<TomlTrees.Value>)
    requires EvalItems(values).Some?
    ensures Eval(ListValue(start, values)) == Some(List(start, EvalItems(values).value))
  {
  }

  lemma InlineEvals(start: nat, pairs: seq<Pair>)
    ensures Eval(InlineValue(start, pairs)) == EvalPairs(NewTable(start, true, true), pairs)
  {
  }

  // A list with an item that cannot be evaluated cannot be either.
  lemma {:induction false} ListStuck(text: Text, i: nat, start: nat, values: seq<TomlTrees.Value>)
    requires i <= |text| && EvalItems(values).None?
    ensures T.ListAt(text, i, start, values).Some? ==> Eval(T.ListAt(text, i, start, values).value.value).None?
    decreases |text| - i
  {
    hide T.ValueAt, T.Separator, EvalItems;
    var j := T.Gap(text, i);
    if j < |text| && text[j] != BRACKET_CLOSE && T.ValueAt(text, j).Some? {
      var item := T.ValueAt(text, j).value;
      var next := T.Separator(text, item.next, BRACKET_CLOSE);
      if next.Some? {
        EvalItemsPush(values, item.value);
        ListStuck(text, next.value, start, values + [item.value]);
      }
    }
  }

  lemma ListRefused(text: Text, at: nat, start: nat, values: seq<TomlTrees.Value>)
    requires at < |text| && at == T.Gap(text, at) && text[at] != BRACKET_CLOSE && !Reads(text, at)
    ensures T.ListAt(text, at, start, values).Some? ==> Eval(T.ListAt(text, at, start, values).value.value).None?
  {
    hide T.ValueAt, T.Separator, EvalItems, T.Gap, Eval;
    if T.ValueAt(text, at).Some? {
      var item := T.ValueAt(text, at).value;
      var next := T.Separator(text, item.next, BRACKET_CLOSE);
      if next.Some? {
        EvalItemsPush(values, item.value);
        ListStuck(text, next.value, start, values + [item.value]);
      }
    }
  }

  lemma {:induction false} InlineGone(text: Text, i: nat, start: nat, pairs: seq<Pair>)
    requires i <= |text| && EvalPairs(NewTable(start, true, true), pairs).None?
    ensures T.InlineAt(text, i, start, pairs).Some? ==> Eval(T.InlineAt(text, i, start, pairs).value.value).None?
    decreases |text| - i
  {
    hide T.PairAt, T.Separator, EvalPairs;
    var j := T.Gap(text, i);
    if j < |text| && text[j] != BRACE_CLOSE && T.PairAt(text, j).Some? {
      var pair := T.PairAt(text, j).value;
      var next := T.Separator(text, pair.next, BRACE_CLOSE);
      if next.Some? {
        EvalPairsPush(NewTable(start, true, true), pairs, pair.value);
        InlineGone(text, next.value, start, pairs + [pair.value]);
      }
    }
  }

  // An inline table with a pair that cannot be assigned cannot be evaluated.
  lemma InlineStuck(text: Text, at: nat, start: nat, pairs: seq<Pair>)
    requires at < |text| && at == T.Gap(text, at) && text[at] != BRACE_CLOSE && T.PairAt(text, at).Some?
    requires pairs != [] && pairs[|pairs| - 1] == T.PairAt(text, at).value.value
    requires EvalPairs(NewTable(start, true, true), pairs).None?
    ensures
      var before := pairs[..|pairs| - 1];
      T.InlineAt(text, at, start, before).Some? ==> Eval(T.InlineAt(text, at, start, before).value.value).None?
  {
    hide T.PairAt, T.Separator, EvalPairs, T.Gap, Eval;
    var pair := T.PairAt(text, at).value;
    var next := T.Separator(text, pair.next, BRACE_CLOSE);
    assert pairs[..|pairs| - 1] + [pair.value] == pairs;
    if next.Some? {
      InlineGone(text, next.value, start, pairs);
    }
  }

  lemma InlineRefused(text: Text, at: nat, start: nat, pairs: seq<Pair>)
    requires at < |text| && at == T.Gap(text, at) && text[at] != BRACE_CLOSE
    requires T.PairAt(text, at).None? || Eval(T.PairAt(text, at).value.value.value).None?
    ensures T.InlineAt(text, at, start, pairs).Some? ==> Eval(T.InlineAt(text, at, start, pairs).value.value).None?
  {
    hide T.PairAt, T.Separator, EvalPairs, T.Gap, Eval;
    if T.PairAt(text, at).Some? {
      var pair := T.PairAt(text, at).value;
      EvalPairsPush(NewTable(start, true, true), pairs, pair.value);
      Init(pairs, pair.value);
      InlineStuck(text, at, start, pairs + [pair.value]);
    }
  }

  lemma BuildPush(stmts: seq<Stmt>, stmt: Stmt)
    ensures Build(stmts + [stmt]) == if Build(stmts).None? then None else Step(Build(stmts).value, stmt)
  {
    hide Step;
    Init(stmts, stmt);
  }

  lemma {:induction false} BuildsTable(stmts: seq<Stmt>)
    requires Build(stmts).Some?
    ensures Build(stmts).value.root.Table?
  {
    hide Eval;
    if stmts != [] {
      BuildsTable(stmts[..|stmts| - 1]);
    }
  }

  // A document that cannot be built so far cannot be built at all.
  lemma {:induction false} BuildStuck(text: Text, i: nat, stmts: seq<Stmt>)
    requires i <= |text| && Build(stmts).None?
    ensures T.Stmts(text, i, stmts).Some? ==> Build(T.Stmts(text, i, stmts).value).None?
    decreases |text| - i
  {
    hide T.StmtAt, Build;
    var j := T.Gap(text, i);
    if j < |text| && T.StmtAt(text, j).Some? {
      var stmt := T.StmtAt(text, j).value;
      BuildPush(stmts, stmt.value);
      BuildStuck(text, stmt.next, stmts + [stmt.value]);
    }
  }

  lemma StmtRefused(text: Text, at: nat, stmts: seq<Stmt>)
    requires at < |text| && at == T.Gap(text, at) && Build(stmts).Some?
    requires !Taken(Build(stmts).value, T.StmtAt(text, at))
    ensures T.Stmts(text, at, stmts).Some? ==> Build(T.Stmts(text, at, stmts).value).None?
  {
    hide T.StmtAt, Build, T.Gap, Step;
    if T.StmtAt(text, at).Some? {
      var stmt := T.StmtAt(text, at).value;
      BuildPush(stmts, stmt.value);
      BuildStuck(text, stmt.next, stmts + [stmt.value]);
    }
  }
}
