// The header scan by character: white space, the two kinds of constraint line,
// and whole files as they are written.

module GoHeaderLaws {
  import opened Options
  import opened Text
  import opened GoHeader

  // --- White space ---

  lemma WhiteExactly(c: Unit)
    ensures White(c) <==> c in {' ' as int, '\t' as int, '\r' as int, 0x0B, 0x0C}
  {
  }

  predicate AllWhite(s: Text) {
    forall k :: 0 <= k < |s| ==> White(s[k])
  }

  predicate Bare(s: Text) {
    s == [] || (!White(s[0]) && !White(s[|s| - 1]))
  }

  lemma {:induction false} LeftGone(a: Text, s: Text)
    requires AllWhite(a) && (s == [] || !White(s[0]))
    ensures TrimLeft(a + s) == s
  {
    if a == [] {
      Padded(s);
    } else {
      assert (a + s)[1..] == a[1..] + s && (a + s)[0] == a[0];
      LeftGone(a[1..], s);
    }
  }

  lemma {:induction false} RightGone(s: Text, b: Text)
    requires AllWhite(b) && (s == [] || !White(s[|s| - 1]))
    ensures TrimRight(s + b) == s
    decreases |b|
  {
    if b == [] {
      Padded(s);
    } else {
      var init := b[..|b| - 1];
      assert (s + b)[..|s + b| - 1] == s + init && (s + b)[|s + b| - 1] == b[|b| - 1];
      RightGone(s, init);
    }
  }

  // Trimming takes all white space at both ends and nothing else.
  lemma TrimOf(a: Text, s: Text, b: Text)
    requires AllWhite(a) && AllWhite(b) && Bare(s)
    ensures Trim(a + s + b) == s
  {
    hide White;
    if s == [] {
      AllGone(a + b);
      assert a + s + b == a + b;
    } else {
      assert (s + b)[0] == s[0];
      Assoc(a, s, b);
      LeftGone(a, s + b);
      RightGone(s, b);
      hide TrimLeft, TrimRight;
    }
  }

  lemma AllGone(s: Text)
    requires AllWhite(s)
    ensures Trim(s) == []
  {
    hide White;
    Padded(s);
    LeftGone(s, []);
  }

  lemma {:induction false} LeftTaken(s: Text) returns (a: Text)
    ensures AllWhite(a) && s == a + TrimLeft(s)
  {
    if s != [] && White(s[0]) {
      var rest := LeftTaken(s[1..]);
      a := [s[0]] + rest;
      Assoc([s[0]], rest, TrimLeft(s));
    } else {
      a := [];
    }
  }

  lemma {:induction false} RightTaken(s: Text) returns (b: Text)
    ensures AllWhite(b) && s == TrimRight(s) + b
  {
    if s != [] && White(s[|s| - 1]) {
      var rest := RightTaken(s[..|s| - 1]);
      b := rest + [s[|s| - 1]];
      Assoc(TrimRight(s), rest, [s[|s| - 1]]);
    } else {
      b := [];
    }
  }

  lemma Trimmed(s: Text) returns (a: Text, b: Text)
    ensures AllWhite(a) && AllWhite(b) && Bare(Trim(s)) && s == a + Trim(s) + b
  {
    a := LeftTaken(s);
    b := RightTaken(TrimLeft(s));
    hide White, TrimLeft, TrimRight;
    Assoc(a, Trim(s), b);
    BareTrim(s);
  }

  lemma BareTrim(s: Text)
    ensures Bare(Trim(s))
  {
  }

  lemma TrimExactly(s: Text, t: Text)
    ensures Trim(s) == t <==> Bare(t) && exists a, b :: AllWhite(a) && AllWhite(b) && s == a + t + b
  {
    hide White, Trim, Bare, AllWhite;
    if Trim(s) == t {
      var a, b := Trimmed(s);
    }
    if Bare(t) && exists a, b :: AllWhite(a) && AllWhite(b) && s == a + t + b {
      var a, b :| AllWhite(a) && AllWhite(b) && s == a + t + b;
      TrimOf(a, t, b);
    }
  }

  // --- Constraint lines ---

  const GO_BUILD_TEXT: Text := Ascii("//go:build")
  const SLASHES_TEXT: Text := Ascii("//")
  const PLUS_BUILD_TEXT: Text := Ascii("+build")
  const IGNORE_TEXT: Text := Ascii("ignore")

  lemma TextsAre()
    ensures GO_BUILD_TEXT == GO_BUILD && SLASHES_TEXT == SLASHES && PLUS_BUILD_TEXT == PLUS_BUILD && IGNORE_TEXT == IGNORE
    ensures |GO_BUILD| == 10 && |SLASHES| == 2 && |PLUS_BUILD| == 6
    ensures Bare(IGNORE) && IGNORE != [] && CR !in IGNORE
  {
  }

  lemma StartsExactly(s: Text, word: Text)
    ensures StartsWith(s, word) <==> exists rest :: s == word + rest
  {
    if StartsWith(s, word) {
      assert s == word + s[|word|..];
    }
  }

  // `//go:build`, alone or with a space or tab and anything after it.
  lemma GoBuildExactly(line: Text)
    ensures IsGoBuild(line) <==>
            line == GO_BUILD_TEXT
            || exists c: Unit, rest :: (c == ' ' as int || c == '\t' as int) && line == GO_BUILD_TEXT + ([c] + rest)
  {
    TextsAre();
    hide GO_BUILD, GO_BUILD_TEXT;
    if IsGoBuild(line) && |line| > 10 {
      assert line == line[..10] + ([line[10]] + line[11..]);
    }
    if IsGoBuild(line) && |line| == 10 {
      assert line == line[..10];
    }
    if c: Unit, rest :| (c == ' ' as int || c == '\t' as int) && line == GO_BUILD + ([c] + rest) {
      assert line[..10] == GO_BUILD && line[10] == c;
    }
  }

  // It says ignore: nothing but white space stands around the word.
  lemma GoBuildIgnoresExactly(line: Text)
    requires IsGoBuild(line)
    ensures GoBuildIgnores(line) <==>
            exists a, b :: AllWhite(a) && AllWhite(b) && line == GO_BUILD_TEXT + (a + IGNORE_TEXT + b)
  {
    TextsAre();
    hide GO_BUILD, GO_BUILD_TEXT, IGNORE, IGNORE_TEXT, Trim, AllWhite;
    assert line == GO_BUILD + line[10..];
    TrimExactly(line[10..], IGNORE);
    if a, b :| AllWhite(a) && AllWhite(b) && line == GO_BUILD + (a + IGNORE + b) {
      assert line[10..] == a + IGNORE + b;
    }
  }

  // The pieces of a `// +build ignore` line.
  ghost predicate PlusBuildParts(line: Text, a: Text, b: Text, c: Unit, d: Text, e: Text) {
    && AllWhite(a) && AllWhite(b) && AllWhite(d) && AllWhite(e) && CR !in d && (c == ' ' as int || c == '\t' as int)
    && line == a + (SLASHES_TEXT + (b + (PLUS_BUILD_TEXT + ([c] + (d + IGNORE_TEXT))))) + e
  }

  lemma PlusBuildExactly(line: Text)
    ensures PlusBuildIgnores(line) <==> exists a, b, c: Unit, d, e :: PlusBuildParts(line, a, b, c, d, e)
  {
    hide PlusBuildParts;
    if PlusBuildIgnores(line) {
      var a, b, c, d, e := PlusBuildCut(line);
    }
    if a, b, c: Unit, d, e :| PlusBuildParts(line, a, b, c, d, e) {
      PlusBuildJoin(line, a, b, c, d, e);
    }
  }

  lemma PlusBuildCut(line: Text) returns (a: Text, b: Text, c: Unit, d: Text, e: Text)
    requires PlusBuildIgnores(line)
    ensures PlusBuildParts(line, a, b, c, d, e)
  {
    TextsAre();
    hide Trim, White, SLASHES, PLUS_BUILD, IGNORE, SLASHES_TEXT, PLUS_BUILD_TEXT, IGNORE_TEXT;
    var s := Trim(line);
    a, e := Trimmed(line);
    var b', e' := Trimmed(s[2..]);
    b := b';
    var t := Trim(s[2..]);
    c := t[6];
    var rest := t[7..];
    var d', e'' := Trimmed(rest);
    d := d';
    assert s == SLASHES + s[2..];
    assert t == PLUS_BUILD + ([c] + rest);
    LastBare(s, 2, b, t, e');
    LastBare(t, 7, d, IGNORE, e'');
    assert forall k :: 0 <= k < |d| ==> d[k] == rest[k];
    assert CR !in d;
    assert rest == d + IGNORE && s[2..] == b + t;
    assert line == a + (SLASHES + (b + (PLUS_BUILD + ([c] + (d + IGNORE))))) + e;
  }

  lemma LastOf(s: Text, n: nat, b: Text, t: Text, e: Text)
    requires n <= |s| && s[n..] == b + t + e
    ensures e != [] ==> s[|s| - 1] == e[|e| - 1]
    ensures e == [] ==> s[n..] == b + t
  {
    if e == [] {
      Padded(b + t);
    } else {
      assert s[|s| - 1] == s[n..][|s| - n - 1];
    }
  }

  // What ends a text that ends in no white space has none after it.
  lemma LastBare(s: Text, n: nat, b: Text, t: Text, e: Text)
    requires n <= |s| && s[n..] == b + t + e && AllWhite(e) && t != [] && Bare(s)
    ensures e == [] && s[n..] == b + t
  {
    LastOf(s, n, b, t, e);
  }

  lemma PlusBuildJoin(line: Text, a: Text, b: Text, c: Unit, d: Text, e: Text)
    requires PlusBuildParts(line, a, b, c, d, e)
    ensures PlusBuildIgnores(line)
  {
    TextsAre();
    MarksBare();
    hide Trim, White, AllWhite, SLASHES, PLUS_BUILD, IGNORE, SLASHES_TEXT, PLUS_BUILD_TEXT, IGNORE_TEXT, StartsWith, IsSpace;
    var rest := d + IGNORE;
    var t := PLUS_BUILD + ([c] + rest);
    var s := SLASHES + (b + t);
    FrontBack(PLUS_BUILD, [c] + d, IGNORE);
    Assoc([c], d, IGNORE);
    FrontBack(SLASHES, b + (PLUS_BUILD + ([c] + d)), IGNORE);
    Assoc(b, PLUS_BUILD + ([c] + d), IGNORE);
    Assoc(PLUS_BUILD, [c] + d, IGNORE);
    TrimOf(a, s, e);
    FrontOf(SLASHES, b + t);
    Padded(b + t);
    EmptyWhite();
    TrimOf(b, t, []);
    FrontOf(PLUS_BUILD, [c] + rest);
    Front(c, rest);
    assert t[7..] == rest;
    Padded(rest);
    TrimOf(d, IGNORE, []);
    NoReturn(d, IGNORE);
    SpaceIs(c);
  }

  lemma SpaceIs(c: Unit)
    requires c == ' ' as int || c == '\t' as int
    ensures IsSpace(c)
  {
  }

  lemma NoReturn(d: Text, word: Text)
    requires CR !in d && CR !in word
    ensures CR !in d + word
  {
  }

  lemma EmptyWhite()
    ensures AllWhite([])
  {
  }

  lemma FrontOf(a: Text, b: Text)
    ensures StartsWith(a + b, a) && (a + b)[|a|..] == b
    ensures b != [] ==> (a + b)[|a|] == b[0]
  {
    assert (a + b)[..|a|] == a;
  }

  // A text from a bare start to a bare end.
  lemma FrontBack(a: Text, middle: Text, b: Text)
    requires a != [] && b != [] && !White(a[0]) && !White(b[|b| - 1])
    ensures Bare(a + (middle + b))
  {
    hide White;
    var s := a + (middle + b);
    assert s[0] == a[0] && s[|s| - 1] == b[|b| - 1];
  }

  lemma MarksBare()
    ensures !White(SLASHES[0]) && !White(PLUS_BUILD[0]) && !White(IGNORE[|IGNORE| - 1])
  {
  }
}
