// Lexing is local: no token reaches over a line boundary, and what the render
// writes lexes to what it wrote.

module LexerProofs {
  import opened Options
  import opened Text
  import opened Trees
  import opened Lexer

  // No number goes on with b.
  predicate Stops(b: Text) {
    b == [] || (!IsDigit(b[0]) && b[0] != DOT && b[0] != 0x65 && b[0] != 0x45 && b[0] != PLUS && b[0] != MINUS)
  }

  predicate AtLineEnd(b: Text) {
    b == [] || IsNewline(b[0])
  }

  lemma DropCat(a: Text, b: Text, n: nat)
    requires n <= |a|
    ensures (a + b)[n..] == a[n..] + b
  {
  }

  lemma {:induction false} DigitRunStops(a: Text, b: Text)
    requires b == [] || !IsDigit(b[0])
    ensures DigitRun(a + b) == DigitRun(a)
  {
    if a == [] {
      assert a + b == b;
    } else {
      assert (a + b)[1..] == a[1..] + b;
      DigitRunStops(a[1..], b);
    }
  }

  lemma WholeSizeStops(a: Text, b: Text)
    requires Stops(b)
    ensures WholeSize(a + b) == WholeSize(a)
  {
    DigitRunStops(a, b);
    if a == [] {
      assert a + b == b;
    }
  }

  lemma FracSizeStops(a: Text, b: Text)
    requires Stops(b)
    ensures FracSize(a + b) == FracSize(a)
  {
    if a == [] {
      assert a + b == b;
    } else {
      DropCat(a, b, 1);
      DigitRunStops(a[1..], b);
    }
  }

  lemma ExpSizeStops(a: Text, b: Text)
    requires Stops(b)
    ensures ExpSize(a + b) == ExpSize(a)
  {
    if a == [] {
      assert a + b == b;
    } else {
      DropCat(a, b, 1);
      DigitRunStops(a[1..], b);
      if |a| >= 2 {
        DropCat(a, b, 2);
        DigitRunStops(a[2..], b);
      } else if b != [] {
        assert (a + b)[1] == b[0];
      }
    }
  }

  lemma UnsignedSizeStops(a: Text, b: Text)
    requires Stops(b)
    ensures UnsignedSize(a + b) == UnsignedSize(a)
  {
    hide WholeSize, FracSize, ExpSize;
    var w := WholeSize(a);
    WholeSizeStops(a, b);
    if w > 0 {
      DropCat(a, b, w);
      FracSizeStops(a[w..], b);
      var f := FracSize(a[w..]);
      DropCat(a, b, w + f);
      ExpSizeStops(a[w + f..], b);
    }
  }

  lemma NumberSizeStops(a: Text, b: Text)
    requires a != [] && Stops(b)
    ensures NumberSize(a + b) == NumberSize(a)
  {
    hide UnsignedSize;
    UnsignedSizeStops(a, b);
    DropCat(a, b, 1);
    UnsignedSizeStops(a[1..], b);
  }

  lemma CharAtStops(a: Text, b: Text)
    requires b == [] || b[0] < 0x20 || CharAt(a).1 > 0
    ensures CharAt(a + b) == CharAt(a)
  {
    if a == [] {
      assert a + b == b;
    }
    assert forall k :: 0 <= k < |a| ==> (a + b)[k] == a[k];
    assert forall k :: |a| <= k < |a + b| ==> (a + b)[k] == b[k - |a|];
  }

  // A string ends where it ends, and at a line's end it has no end.
  lemma {:induction false} StringRestStops(a: Text, b: Text)
    requires AtLineEnd(b) || StringRest(a).Some?
    ensures StringRest(a + b) == StringRest(a)
    decreases |a|
  {
    if a == [] {
      assert a + b == b;
    } else if a[0] != QUOTE {
      hide CharAt, Prepend;
      var n := CharAt(a).1;
      assert n == 0 ==> StringRest(a).None?;
      CharAtStops(a, b);
      assert (a + b)[0] == a[0];
      if n > 0 {
        DropCat(a, b, n);
        StringRestStops(a[n..], b);
      }
    }
  }

  lemma StartsWithStops(a: Text, b: Text, word: Text)
    requires AtLineEnd(b) && OneLine(word)
    ensures StartsWith(a + b, word) == StartsWith(a, word)
  {
    if |word| <= |a| {
      assert (a + b)[..|word|] == a[..|word|];
    } else if |word| <= |a + b| {
      assert (a + b)[..|word|][|a|] == b[0];
    }
  }

  // What one line lexes to does not depend on what follows it.
  lemma NextLocal(a: Text, b: Text)
    requires a != [] && OneLine(a) && AtLineEnd(b)
    ensures Next(a + b) == Next(a)
  {
    hide StringRest, NumberSize, StartsWith;
    assert (a + b)[0] == a[0];
    DropCat(a, b, 1);
    StringRestStops(a[1..], b);
    StartsWithStops(a, b, NULL_WORD);
    StartsWithStops(a, b, TRUE_WORD);
    StartsWithStops(a, b, FALSE_WORD);
    NumberSizeStops(a, b);
    assert (a + b)[..NumberSize(a)] == a[..NumberSize(a)];
  }

  // A run of line characters is one token, so a boundary lies between a line
  // character and another one.
  predicate Boundary(x: Text, y: Text) {
    x == [] || y == [] || IsNewline(x[|x| - 1]) != IsNewline(y[0])
  }

  lemma {:induction false} NewlineRunStops(x: Text, y: Text)
    requires x != [] && Boundary(x, y) && IsNewline(x[0])
    ensures NewlineRun(x + y) == NewlineRun(x)
  {
    assert (x + y)[1..] == x[1..] + y;
    if x[1..] == [] {
      assert x[1..] + y == y;
    } else if IsNewline(x[1]) {
      NewlineRunStops(x[1..], y);
    }
  }

  lemma NextAtBoundary(x: Text, y: Text)
    requires x != [] && Boundary(x, y)
    ensures Next(x + y) == Next(x)
  {
    assert (x + y)[0] == x[0];
    if IsNewline(x[0]) {
      NewlineRunStops(x, y);
    } else {
      var n := LineEnd(x);
      var a, b := x[..n], x[n..];
      assert x == a + b;
      assert x + y == a + (b + y);
      NextLocal(a, b);
      NextLocal(a, b + y);
    }
  }

  lemma BoundaryDrop(x: Text, y: Text, n: nat)
    requires Boundary(x, y) && n <= |x|
    ensures Boundary(x[n..], y)
  {
  }

  // Tokens on both sides of a boundary are lexed apart.
  lemma {:induction false} LexAtBoundary(x: Text, y: Text)
    requires Boundary(x, y)
    ensures Lex(x + y) == Lex(x) + Lex(y)
    decreases |x|
  {
    if x == [] {
      assert x + y == y;
    } else {
      hide Next;
      var n := Next(x).size;
      NextAtBoundary(x, y);
      DropCat(x, y, n);
      BoundaryDrop(x, y, n);
      LexAtBoundary(x[n..], y);
      LexStep(x, y);
    }
  }

  lemma LexStep(x: Text, y: Text)
    requires x != [] && Next(x + y) == Next(x)
    ensures Lex((x + y)[Next(x).size..]) == Lex(x[Next(x).size..]) + Lex(y) ==> Lex(x + y) == Lex(x) + Lex(y)
  {
    hide Next;
    Assoc(Shown(Next(x).token), Lex(x[Next(x).size..]), Lex(y));
  }

  lemma PlaceStep(x: Text, y: Text, k: nat)
    requires x != [] && Next(x + y) == Next(x)
    ensures var m := Next(x);
            Place(x + y, k) == if m.token.Some? && k == 0 then 0
                               else m.size + Place(x[m.size..] + y, if m.token.Some? then k - 1 else k)
  {
    hide Next;
    DropCat(x, y, Next(x).size);
  }

  lemma LexSizeStep(x: Text)
    requires x != []
    ensures |Lex(x)| == (if Next(x).token.Some? then 1 else 0) + |Lex(x[Next(x).size..])|
  {
    hide Next;
  }

  // ... and their places are the places on each side.
  lemma {:induction false} PlaceAtBoundary(x: Text, y: Text, k: nat)
    requires Boundary(x, y)
    ensures k < |Lex(x)| ==> Place(x + y, k) == Place(x, k) && Place(x, k) < |x|
    ensures k >= |Lex(x)| ==> Place(x + y, k) == |x| + Place(y, k - |Lex(x)|)
    decreases |x|
  {
    hide Next;
    if x == [] {
      assert x + y == y;
    } else {
      var m := Next(x);
      NextAtBoundary(x, y);
      PlaceStep(x, y, k);
      assert x + [] == x && x[m.size..] + [] == x[m.size..];
      PlaceStep(x, [], k);
      LexSizeStep(x);
      BoundaryDrop(x, y, m.size);
      if m.token.None? {
        PlaceAtBoundary(x[m.size..], y, k);
      } else if k > 0 {
        PlaceAtBoundary(x[m.size..], y, k - 1);
      }
    }
  }

  lemma {:induction false} BlankLex(s: Text)
    requires OneLine(s)
    ensures Blank(s) <==> Lex(s) == []
    decreases |s|
  {
    if s != [] {
      var m := Next(s);
      BlankLex(s[m.size..]);
      if IsSpace(s[0]) {
        assert Blank(s) <==> Blank(s[1..]);
      }
    }
  }

  // One line's tokens hold no #LN.
  lemma {:induction false} OneLineLex(s: Text)
    requires OneLine(s)
    ensures Line !in Lex(s)
    decreases |s|
  {
    if s != [] {
      OneLineLex(s[Next(s).size..]);
    }
  }
}
