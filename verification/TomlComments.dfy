// The reader reads exactly the grammar's texts, and so comments and blank
// lines change nothing, wherever they stand.

module TomlComments {
  import opened Options
  import opened Text
  import opened TomlTrees
  import opened TomlLines
  import opened TomlNormal
  import opened TomlGrammar
  import opened TomlStrings
  import A = TomlAccepts
  import P = TomlPrint
  import Y = TomlYields
  import T = TomlText

  // A text of the grammar for these statements, but for their lines.
  ghost predicate Written(text: Text, stmts: seq<Stmt>) {
    exists same :: UnlineStmts(same) == UnlineStmts(stmts) && DocText(text, same)
  }

  // The reader reads a text as some statements exactly when the grammar
  // relates the two.
  lemma ReadsExactly(text: Text, stmts: seq<Stmt>)
    ensures Spells(text, stmts) <==> Written(text, stmts)
  {
    hide T.Stmts, DocText, UnlineStmts;
    if Spells(text, stmts) {
      Y.Yields(text);
    }
    if same :| UnlineStmts(same) == UnlineStmts(stmts) && DocText(text, same) {
      A.Accepts(text, same);
    }
  }

  // A text is refused as a document exactly when no statements are written so.
  lemma RefusedExactly(text: Text)
    ensures T.Stmts(text, 0, []).None? <==> !exists stmts :: DocText(text, stmts)
  {
    hide T.Stmts, DocText, UnlineStmts;
    if T.Stmts(text, 0, []).Some? {
      Y.Yields(text);
    }
    if stmts :| DocText(text, stmts) {
      A.Accepts(text, stmts);
    }
  }

  // --- Before a document ---

  lemma StandsFront(a: Text, b: Text)
    ensures Stands(a + b, 0, a) && Stands(a + b, |a|, b) && (a + b)[|a|..] == b
  {
    assert Stands(a + b, 0, a + b);
    StandsApart(a + b, 0, a, b);
  }

  // Blank lines and comments before a document change nothing: it is refused
  // with them exactly if it is without, and else leaves the same tree, but for
  // lines.
  lemma GapChangesNothing(gap: Text, text: Text)
    requires GapText(gap)
    ensures UnlineBuilt(T.Parse(gap + text)) == UnlineBuilt(T.Parse(text))
  {
    hide GapText, T.Stmts, T.Gap, Build, UnlineDoc, Stands, DocText, UnlineStmts;
    StandsFront(gap, text);
    A.GapRun(gap + text, 0, gap);
    SameGap(gap + text, |gap|);
    if T.Stmts(gap + text, 0, []).Some? {
      var stmts := Y.DocYields(gap + text, |gap|, []);
      Padded(stmts);
      A.Accepts(text, stmts);
      BuildAlike(T.Stmts(text, 0, []).value, stmts);
    }
    if T.Stmts(text, 0, []).Some? {
      Y.Yields(text);
      A.DocRun(gap + text, |gap|, text, T.Stmts(text, 0, []).value, []);
    }
  }

  lemma SameGap(text: Text, i: nat)
    requires i <= |text| && T.Gap(text, 0) == T.Gap(text, i)
    ensures T.Stmts(text, 0, []) == T.Stmts(text, i, [])
  {
    hide T.Gap, T.StmtAt;
  }

  // One comment line.
  lemma CommentChangesNothing(comment: Text, text: Text)
    requires '\n' as int !in comment
    ensures UnlineBuilt(T.Parse(['#' as int] + comment + ['\n' as int] + text)) == UnlineBuilt(T.Parse(text))
  {
    var line := ['#' as int] + comment + ['\n' as int];
    CommentLine([], comment);
    assert [] + line == line;
    LineIsGap(line);
    hide T.Parse, UnlineBuilt, GapText;
    GapChangesNothing(line, text);
    assert ['#' as int] + comment + ['\n' as int] + text == line + text;
  }

  // Spaces, a number sign, anything without a line feed, and a line feed.
  lemma CommentLine(spaces: Text, comment: Text)
    requires Spaces(spaces) && '\n' as int !in comment
    ensures LineText(spaces + (['#' as int] + comment + ['\n' as int]))
  {
    var full := ['#' as int] + comment;
    assert CommentText(full);
    assert ['#' as int] + comment + ['\n' as int] == full + LINE_FEED;
    assert LineParts(spaces + (full + LINE_FEED), spaces, full, LINE_FEED);
  }

  lemma LineIsGap(line: Text)
    requires LineText(line) && line != []
    ensures GapText(line)
  {
    hide LineText;
    assert GapText([]);
    Padded(line);
    assert GapParts(line, line, []);
  }

  // --- Between and after statements ---

  // Other blank lines and comments around the first statement.
  lemma StatementLayout(s: Text, stmts: seq<Stmt>, gap: Text, stmt: Text, end: Text, rest: Text, gap': Text, end': Text)
    requires stmts != [] && DocParts(s, stmts, gap, stmt, end, rest)
    requires GapText(gap') && LineText(end')
    ensures DocText(gap' + (stmt + (end' + rest)), stmts)
    ensures UnlineBuilt(T.Parse(gap' + (stmt + (end' + rest)))) == UnlineBuilt(T.Parse(s))
  {
    hide GapText, LineText, StmtText, T.Parse, UnlineBuilt, LastText;
    var s' := gap' + (stmt + (end' + rest));
    assert DocParts(s', stmts, gap', stmt, end', rest);
    WrittenAlike(s, s', stmts);
  }

  lemma WrittenAlike(a: Text, b: Text, stmts: seq<Stmt>)
    requires DocText(a, stmts) && DocText(b, stmts)
    ensures UnlineBuilt(T.Parse(a)) == UnlineBuilt(T.Parse(b)) == UnlineBuilt(Build(stmts))
  {
    hide DocText, T.Stmts, T.Parse, UnlineBuilt, UnlineStmts, Build;
    A.Accepts(a, stmts);
    A.Accepts(b, stmts);
    SpellingsParseAlike(a, b, stmts);
  }

  // Statements, each after a gap of its own and with an end of its own.
  function Laid(gaps: seq<Text>, bodies: seq<Text>, ends: seq<Text>): Text
    requires |gaps| == |bodies| == |ends|
  {
    if gaps == [] then [] else gaps[0] + (bodies[0] + (ends[0] + Laid(gaps[1..], bodies[1..], ends[1..])))
  }

  // However they are laid out, they read as those statements.
  lemma {:induction false} LaidReads(gaps: seq<Text>, bodies: seq<Text>, ends: seq<Text>, stmts: seq<Stmt>)
    requires |gaps| == |bodies| == |ends| == |stmts|
    requires forall k :: 0 <= k < |stmts| ==> GapText(gaps[k]) && StmtText(bodies[k], stmts[k]) && LineText(ends[k])
    ensures DocText(Laid(gaps, bodies, ends), stmts) && Spells(Laid(gaps, bodies, ends), stmts)
    decreases |stmts|
  {
    hide GapText, StmtText, LineText, DocText, LastText, T.Stmts, UnlineStmts;
    if stmts == [] {
      EndOfDoc();
    } else {
      LaidReads(gaps[1..], bodies[1..], ends[1..], stmts[1..]);
      Y.DocOn(Laid(gaps, bodies, ends), stmts, gaps[0], bodies[0], ends[0], Laid(gaps[1..], bodies[1..], ends[1..]));
    }
    A.Accepts(Laid(gaps, bodies, ends), stmts);
  }

  // --- In lists and inline tables ---

  // Other blank lines and comments around the first item.
  lemma ItemLayout(s: Text, items: seq<Value>, gap: Text, item: Text, after: Text, rest: Text, gap': Text, after': Text)
    requires items != [] && ItemsParts(s, items, gap, item, after, rest) && GapText(gap') && GapText(after')
    ensures ItemsText(gap' + (item + (after' + rest)), items)
  {
    hide GapText, ValueText;
    assert ItemsParts(gap' + (item + (after' + rest)), items, gap', item, after', rest);
  }

  lemma PairLayout(s: Text, pairs: seq<Pair>, gap: Text, pair: Text, after: Text, rest: Text, gap': Text, after': Text)
    requires pairs != [] && PairsParts(s, pairs, gap, pair, after, rest) && GapText(gap') && GapText(after')
    ensures PairsText(gap' + (pair + (after' + rest)), pairs)
  {
    hide GapText, PairText;
    assert PairsParts(gap' + (pair + (after' + rest)), pairs, gap', pair, after', rest);
  }

  // A space, a comment and a line feed.
  function Note(comment: Text): Text {
    [' ' as int] + (['#' as int] + comment + ['\n' as int])
  }

  // A binding of a list, with what stands inside its brackets.
  function ListBinding(key: Text, inside: Text): Text {
    key + (['=' as int] + (['[' as int] + inside + [']' as int]))
  }

  // A comment before a statement, at the end of its line, at a list's start and
  // after an item, whatever the comments say: the tree is that of the text
  // without them.
  lemma CommentsEverywhere(key: Text, stmt: Stmt, item: Text, c: Text)
    requires '\n' as int !in c && key != [] && !SpaceUnit(key[0]) && KeyText(key, stmt.parts)
    requires stmt.Bind? && stmt.value.ListValue? && |stmt.value.items| == 1 && ValueText(item, stmt.value.items[0])
    ensures
      var noted := Note(c) + (ListBinding(key, Note(c) + (item + Note(c))) + Note(c));
      var plain := ListBinding(key, item) + ['\n' as int];
      UnlineBuilt(T.Parse(noted)) == UnlineBuilt(T.Parse(plain)) == UnlineBuilt(Build([stmt]))
  {
    CommentLine([' ' as int], c);
    hide GapText, LineText, KeyText, ValueText, T.Parse, UnlineBuilt, Build, Spaces, DocText, ListBinding;
    assert Note(c) != [];
    LineIsGap(Note(c));
    hide Note;
    PlainFeed();
    OneItem(item, stmt.value.items, [], []);
    OneItem(item, stmt.value.items, Note(c), Note(c));
    Padded(item);
    OneLine(key, stmt, item, [], LINE_FEED);
    OneLine(key, stmt, Note(c) + (item + Note(c)), Note(c), Note(c));
    Padded(ListBinding(key, item) + LINE_FEED);
    WrittenAlike(Note(c) + (ListBinding(key, Note(c) + (item + Note(c))) + Note(c)), ListBinding(key, item) + LINE_FEED, [stmt]);
  }

  lemma PlainFeed()
    ensures LineText(LINE_FEED) && GapText([])
  {
    assert LineParts(LINE_FEED, [], [], LINE_FEED);
  }

  lemma OneItem(item: Text, items: seq<Value>, gap: Text, after: Text)
    requires |items| == 1 && ValueText(item, items[0]) && GapText(gap) && GapText(after)
    ensures ItemsText(gap + (item + after), items)
  {
    hide GapText, ValueText;
    Padded(after);
    assert ItemsParts(gap + (item + after), items, gap, item, after, []);
  }

  lemma OneLine(key: Text, stmt: Stmt, inside: Text, gap: Text, end: Text)
    requires key != [] && !SpaceUnit(key[0]) && KeyText(key, stmt.parts)
    requires stmt.Bind? && stmt.value.ListValue? && ItemsText(inside, stmt.value.items)
    requires GapText(gap) && LineText(end)
    ensures DocText(gap + (ListBinding(key, inside) + end), [stmt])
  {
    hide GapText, LineText, KeyText, ItemsText, LastText;
    var value := ['[' as int] + inside + [']' as int];
    assert value[1..|value| - 1] == inside;
    assert ValueText(value, stmt.value);
    hide ValueText;
    var body := ListBinding(key, inside);
    Padded(value);
    assert body == key + (['=' as int] + ([] + value));
    assert body[0] == key[0];
    assert PairParts(body, Pair(stmt.parts, stmt.value), key, [], value);
    assert StmtText(body, stmt);
    hide StmtText, ListBinding;
    EndOfDoc();
    Padded(end);
    Y.DocOn(gap + (body + end), [stmt], gap, body, end, []);
  }

  lemma EndOfDoc()
    ensures DocText([], [])
  {
    assert LineParts([], [], [], NO_TEXT);
    var none: Text := [];
    assert none == none + none && GapText(none) && LastText(none);
  }
}
