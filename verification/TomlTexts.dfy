// The three spellings of one binding, as texts.

module TomlTexts {
  import opened Options
  import opened Text
  import opened TomlTrees
  import opened TomlLines
  import opened TomlBindings
  import opened TomlPrint
  import opened TomlNormal
  import F = TomlForms
  import T = TomlText

  // The shape of what a text parses to; None where it is refused.
  function TreeOf(text: Text): Option<Shape> {
    match T.Parse(text)
    case None => None
    case Some(doc) => Some(Erase(doc.root))
  }

  // A text that spells statements that build has their tree's shape.
  lemma SpellingShape(text: Text, stmts: seq<Stmt>)
    requires Spells(text, stmts) && Build(stmts).Some?
    ensures TreeOf(text) == Some(Erase(Build(stmts).value.root))
  {
    hide T.Stmts, T.Parse, Build, UnlineStmts, Erase, UnlineNode;
    SpellingsParseAlike(text, text, stmts);
    EraseUnlined(T.Parse(text).value.root);
    EraseUnlined(Build(stmts).value.root);
  }

  // Any texts of the three spellings, however laid out, parse to one shape.
  lemma ThreeTexts(a: Text, b: Text, c: Text, line: nat, p: Parts, q: Parts, v: Value)
    requires p != [] && q != [] && Eval(v).Some?
    requires Spells(a, F.UnderHeader(line, p, q, v)) && Spells(b, F.Dotted(line, p, q, v)) && Spells(c, F.Inlined(line, p, q, v))
    ensures TreeOf(a).Some? && TreeOf(a) == TreeOf(b) == TreeOf(c)
  {
    hide Spells, Build, Erase, Eval, TreeOf;
    F.ThreeSpellings(line, p, q, v);
    SpellingShape(a, F.UnderHeader(line, p, q, v));
    SpellingShape(b, F.Dotted(line, p, q, v));
    SpellingShape(c, F.Inlined(line, p, q, v));
  }

  // There are such texts wherever the value can be read at all.
  lemma ThreePrints(line: nat, p: Parts, q: Parts, v: Value)
    requires p != [] && q != [] && Eval(v).Some? && Printable(v)
    ensures
      var a, b, c := Print(F.UnderHeader(line, p, q, v)), Print(F.Dotted(line, p, q, v)), Print(F.Inlined(line, p, q, v));
      TreeOf(a).Some? && TreeOf(a) == TreeOf(b) == TreeOf(c)
  {
    hide Spells, Print, Eval, TreeOf;
    var a, b, c := F.UnderHeader(line, p, q, v), F.Dotted(line, p, q, v), F.Inlined(line, p, q, v);
    assert [Pair(q, v)][0] == Pair(q, v);
    SpelledExactly(a);
    SpelledExactly(b);
    SpelledExactly(c);
    ThreeTexts(Print(a), Print(b), Print(c), line, p, q, v);
  }

  const EQUAL_SIGN: Text := [SPACE, EQUALS, SPACE]

  // A plain string in its quotes.
  function InQuotes(s: Text): Text {
    [QUOTE] + s + [QUOTE]
  }

  // The three spellings of a string under bare keys, character by character.
  lemma ThreeLiteralTexts(p: Text, q: Text, s: Text)
    requires BarePart(p) && BarePart(q) && AllPlain(s)
    ensures
      var a := [BRACKET_OPEN] + p + [BRACKET_CLOSE, LF] + q + EQUAL_SIGN + InQuotes(s) + [LF];
      var b := p + [DOT] + q + EQUAL_SIGN + InQuotes(s) + [LF];
      var c := p + EQUAL_SIGN + [BRACE_OPEN, SPACE] + q + EQUAL_SIGN + InQuotes(s) + [SPACE, BRACE_CLOSE, LF];
      TreeOf(a).Some? && TreeOf(a) == TreeOf(b) == TreeOf(c)
  {
    var v := StrValue(1, s);
    HeaderText(p, q, s);
    DottedText(p, q, s);
    InlinedText(p, q, s);
    hide Print, TreeOf, Eval;
    assert Eval(v).Some? by { StringEvals(s); }
    ThreePrints(1, [p], [q], v);
  }

  lemma StringEvals(s: Text)
    ensures Eval(StrValue(1, s)).Some?
  {
  }

  lemma PairText(q: Text, s: Text)
    requires BarePart(q) && AllPlain(s)
    ensures PrintPair(Pair([q], StrValue(1, s))) == q + EQUAL_SIGN + InQuotes(s)
  {
    assert PrintKey([q]) == q;
    assert Quoted(s) == InQuotes(s);
    hide Quoted, InQuotes, PrintKey;
    assert PrintPair(Pair([q], StrValue(1, s))) == q + ([SPACE] + ([EQUALS] + ([SPACE] + InQuotes(s))));
  }

  lemma PrintOne(stmt: Stmt)
    ensures Print([stmt]) == PrintStmt(stmt)
  {
    hide PrintStmt;
    assert [stmt][1..] == [];
    Padded(PrintStmt(stmt));
  }

  lemma PrintTwo(a: Stmt, b: Stmt)
    ensures Print([a, b]) == PrintStmt(a) + PrintStmt(b)
  {
    hide PrintStmt;
    assert [a, b][1..] == [b];
    PrintOne(b);
  }

  lemma HeaderText(p: Text, q: Text, s: Text)
    requires BarePart(p) && BarePart(q) && AllPlain(s)
    ensures Print(F.UnderHeader(1, [p], [q], StrValue(1, s))) ==
            [BRACKET_OPEN] + p + [BRACKET_CLOSE, LF] + q + EQUAL_SIGN + InQuotes(s) + [LF]
  {
    PairText(q, s);
    assert PrintKey([p]) == p;
    hide InQuotes, PrintPair, PrintKey, Print;
    var header, bind := Header(1, false, [p]), Bind(2, [q], StrValue(1, s));
    PrintTwo(header, bind);
    assert PrintStmt(header) == [BRACKET_OPEN] + p + [BRACKET_CLOSE, LF];
    HeaderJoin([BRACKET_OPEN] + p + [BRACKET_CLOSE, LF], q, EQUAL_SIGN, InQuotes(s), [LF]);
  }

  lemma HeaderJoin(a: Text, b: Text, c: Text, d: Text, e: Text)
    ensures a + (b + c + d + e) == a + b + c + d + e
  {
  }

  lemma DottedText(p: Text, q: Text, s: Text)
    requires BarePart(p) && BarePart(q) && AllPlain(s)
    ensures Print(F.Dotted(1, [p], [q], StrValue(1, s))) == p + [DOT] + q + EQUAL_SIGN + InQuotes(s) + [LF]
  {
    assert [p] + [q] == [p, q] && [p, q][1..] == [q];
    assert PrintKey([q]) == q;
    assert PrintKey([p, q]) == p + [DOT] + q by { Assoc(p, [DOT], q); }
    assert Quoted(s) == InQuotes(s);
    hide Quoted, InQuotes, PrintKey, Print;
    PrintOne(Bind(1, [p, q], StrValue(1, s)));
    var key, value := p + [DOT] + q, InQuotes(s);
    assert PrintPair(Pair([p, q], StrValue(1, s))) == key + ([SPACE] + ([EQUALS] + ([SPACE] + value)));
    SpacedJoin(key, value);
  }

  lemma SpacedJoin(key: Text, value: Text)
    ensures key + ([SPACE] + ([EQUALS] + ([SPACE] + value))) == key + EQUAL_SIGN + value
  {
  }

  lemma InlinedText(p: Text, q: Text, s: Text)
    requires BarePart(p) && BarePart(q) && AllPlain(s)
    ensures Print(F.Inlined(1, [p], [q], StrValue(1, s))) ==
            p + EQUAL_SIGN + [BRACE_OPEN, SPACE] + q + EQUAL_SIGN + InQuotes(s) + [SPACE, BRACE_CLOSE, LF]
  {
    var pair := Pair([q], StrValue(1, s));
    var value := InlineValue(1, [pair]);
    PairText(q, s);
    assert PrintKey([p]) == p;
    hide InQuotes, PrintPair, PrintKey, Print;
    assert [pair][1..] == [] && PrintPairs([]) == [] && Comma(false) == [];
    var inner := q + EQUAL_SIGN + InQuotes(s);
    assert PrintPairs([pair]) == [SPACE] + (inner + ([] + []));
    Padded(inner);
    assert PrintPairs([pair]) == [SPACE] + inner;
    assert PrintValue(value) == [BRACE_OPEN] + (([SPACE] + inner) + [SPACE, BRACE_CLOSE]);
    PrintOne(Bind(1, [p], value));
    PrintedPair([p], value);
    SpacedJoin(p, PrintValue(value));
    InlineJoin(p + EQUAL_SIGN, inner);
    HeaderJoin(p + EQUAL_SIGN + [BRACE_OPEN, SPACE], q, EQUAL_SIGN, InQuotes(s), [SPACE, BRACE_CLOSE, LF]);
  }

  lemma PrintedPair(parts: Parts, value: Value)
    ensures PrintPair(Pair(parts, value)) == PrintKey(parts) + ([SPACE] + ([EQUALS] + ([SPACE] + PrintValue(value))))
  {
  }

  lemma InlineJoin(key: Text, inner: Text)
    ensures key + ([BRACE_OPEN] + (([SPACE] + inner) + [SPACE, BRACE_CLOSE])) + [LF] ==
            key + [BRACE_OPEN, SPACE] + (inner + [SPACE, BRACE_CLOSE, LF])
  {
  }
}
