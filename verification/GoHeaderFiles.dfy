// Whole Go files, by the lines they begin with; what follows the first line of
// code is anything.

module GoHeaderFiles {
  import opened Options
  import opened Text
  import opened GoHeader
  import opened GoHeaderLaws

  // A line that begins with something that is no comment.
  predicate IsCode(line: Text) {
    line != [] && line[0] !in {' ' as int, '\t' as int, '\r' as int, 0x0B, 0x0C, '/' as int}
  }

  // Two slashes, and anything.
  predicate IsComment(line: Text) {
    |line| >= 2 && line[0] == '/' as int && line[1] == '/' as int
  }

  lemma CodeScans(line: Text)
    requires IsCode(line)
    ensures ScanLine(line, false) == Code && !IsGoBuild(Trim(line)) && !BlankOrSlashes(line)
  {
    FirstKept(line);
    assert SLASHES[0] == '/' as int && STAR_OPEN[0] == '/' as int && GO_BUILD[0] == '/' as int;
    FirstOfWord(line, SLASHES);
    FirstOfWord(line, STAR_OPEN);
    FirstOfWord(Trim(line), SLASHES);
    FirstOfWord(Trim(line), GO_BUILD);
    hide Trim, StartsWith;
  }

  lemma FirstOfWord(s: Text, word: Text)
    requires word != []
    ensures StartsWith(s, word) ==> s != [] && s[0] == word[0]
  {
    if StartsWith(s, word) {
      assert s[..|word|][0] == s[0];
    }
  }

  // A line that starts bare keeps its first character.
  lemma FirstKept(line: Text)
    requires line != [] && !White(line[0])
    ensures Trim(line) != [] && Trim(line)[0] == line[0]
    ensures |line| > 1 && !White(line[1]) ==> |Trim(line)| > 1 && Trim(line)[1] == line[1]
  {
    assert TrimLeft(line) == line;
    RightKept(line);
  }

  lemma {:induction false} RightKept(s: Text)
    ensures s != [] && !White(s[0]) ==> TrimRight(s) != []
    ensures |s| > 1 && !White(s[1]) ==> |TrimRight(s)| > 1
  {
    if s != [] && White(s[|s| - 1]) {
      RightKept(s[..|s| - 1]);
    }
  }

  lemma CommentScans(line: Text)
    requires IsComment(line)
    ensures ScanLine(line, false) == Comments(false) && BlankOrSlashes(line) && Trim(line) != []
  {
    FirstKept(line);
    assert line[..2] == [line[0], line[1]] == SLASHES;
    assert Trim(line)[..2] == [line[0], line[1]];
    hide Trim;
  }

  lemma EmptyScans()
    ensures ScanLine([], false) == Comments(false) && Trim([]) == [] && BlankOrSlashes([])
  {
  }

  // The lines before the first code count, where no block comment is open.
  lemma HeaderIs(lines: seq<Text>, n: nat)
    requires n < |lines| && IsCode(lines[n]) && forall k :: 0 <= k < n ==> IsComment(lines[k]) || lines[k] == []
    ensures forall k: nat :: InHeader(lines, k) <==> k < n
    ensures forall k: nat :: k <= n ==> !StarAt(lines, k)
  {
    hide ScanLine, HasCode, StarAt;
    forall k: nat | k <= n
      ensures !StarAt(lines, k)
      ensures HasCode(lines, k) <==> k == n
    {
      LineIs(lines, n, k);
    }
    hide IsComment, IsCode;
    assert HasCode(lines, n);
    forall k: nat
      ensures InHeader(lines, k) <==> k < n
    {
      if k < n {
        assert forall j: nat :: j <= k ==> !HasCode(lines, j);
      }
    }
  }

  lemma LineIs(lines: seq<Text>, n: nat, k: nat)
    requires k <= n < |lines| && IsCode(lines[n]) && forall k :: 0 <= k < n ==> IsComment(lines[k]) || lines[k] == []
    ensures !StarAt(lines, k) && (HasCode(lines, k) <==> k == n)
  {
    NoStar(lines, n, k);
    if k == n {
      CodeScans(lines[n]);
    } else if lines[k] == [] {
      EmptyScans();
    } else {
      CommentScans(lines[k]);
    }
    hide ScanLine, StarAt;
  }

  lemma {:induction false} NoStar(lines: seq<Text>, n: nat, k: nat)
    requires n < |lines| && k <= n && forall j :: 0 <= j < n ==> IsComment(lines[j]) || lines[j] == []
    ensures !StarAt(lines, k)
  {
    hide ScanLine;
    if k > 0 {
      NoStar(lines, n, k - 1);
      if lines[k - 1] == [] {
        EmptyScans();
      } else {
        CommentScans(lines[k - 1]);
      }
    }
  }

  lemma GoBuildIsComment(line: Text)
    requires IsGoBuild(line)
    ensures IsComment(line)
  {
    assert line[..|GO_BUILD|][0] == GO_BUILD[0] && line[..|GO_BUILD|][1] == GO_BUILD[1];
  }

  ghost predicate SaysIgnore(line: Text) {
    exists a, b :: AllWhite(a) && AllWhite(b) && line == GO_BUILD_TEXT + (a + IGNORE_TEXT + b)
  }

  // A line with nothing to trim, in the header, is a `//go:build` line there
  // exactly if it is one.
  lemma BuildAt(lines: seq<Text>, n: nat)
    requires n < |lines| && IsCode(lines[n]) && forall k :: 0 <= k < n ==> IsComment(lines[k]) || lines[k] == []
    ensures forall k: nat :: GoBuildAt(lines, k) <==> k < n && IsGoBuild(Trim(lines[k]))
  {
    HeaderIs(lines, n);
    hide *;
    forall k: nat
      ensures GoBuildAt(lines, k) <==> k < n && IsGoBuild(Trim(lines[k]))
    {
      BuildHere(lines, n, k);
    }
  }

  lemma BuildHere(lines: seq<Text>, n: nat, k: nat)
    requires n < |lines| && (InHeader(lines, k) <==> k < n) && (k < n ==> !StarAt(lines, k))
    ensures GoBuildAt(lines, k) <==> k < n && IsGoBuild(Trim(lines[k]))
  {
    hide InHeader, StarAt, IsGoBuild, Trim;
  }

  lemma BareKept(s: Text)
    requires Bare(s)
    ensures Trim(s) == s
  {
    hide White, Trim, Bare;
    EmptyWhite();
    Padded(s);
    TrimOf([], s, []);
  }

  // One `//go:build` line decides by itself, whatever comes after the code.
  lemma GoBuildDecides(lines: seq<Text>)
    requires |lines| >= 2 && IsGoBuild(lines[0]) && Bare(lines[0]) && IsCode(lines[1])
    ensures Answers(lines, if SaysIgnore(lines[0]) then Ignored else Kept)
  {
    hide *;
    GoBuildIsComment(lines[0]);
    BuildAt(lines, 1);
    BareKept(lines[0]);
    GoBuildIgnoresExactly(lines[0]);
    Says(lines[0]);
    OneBuild(lines, if SaysIgnore(lines[0]) then Ignored else Kept);
  }

  lemma Says(line: Text)
    ensures SaysIgnore(line) <==> exists a, b :: AllWhite(a) && AllWhite(b) && line == GO_BUILD_TEXT + (a + IGNORE_TEXT + b)
  {
    hide AllWhite, GO_BUILD_TEXT, IGNORE_TEXT;
  }

  lemma OneBuild(lines: seq<Text>, answer: Answer)
    requires lines != [] && IsGoBuild(lines[0]) && answer == if GoBuildIgnores(lines[0]) then Ignored else Kept
    requires Trim(lines[0]) == lines[0]
    requires forall k: nat :: GoBuildAt(lines, k) <==> k < 1 && IsGoBuild(Trim(lines[k]))
    ensures Answers(lines, answer)
  {
    hide GoBuildAt, IsGoBuild, GoBuildIgnores, Trim, PlusBuildAt, Ascii;
    assert GoBuildAt(lines, 0);
    assert forall k: nat :: GoBuildAt(lines, k) ==> k == 0;
    assert !exists i: nat, j: nat :: i < j && GoBuildAt(lines, i) && GoBuildAt(lines, j);
    hide *;
    OneBuildAnswers(lines, answer);
  }

  lemma OneBuildAnswers(lines: seq<Text>, answer: Answer)
    requires lines != [] && IsGoBuild(lines[0]) && answer == if GoBuildIgnores(lines[0]) then Ignored else Kept
    requires Trim(lines[0]) == lines[0] && GoBuildAt(lines, 0)
    requires !exists i: nat, j: nat :: i < j && GoBuildAt(lines, i) && GoBuildAt(lines, j)
    ensures Answers(lines, answer)
  {
    hide GoBuildAt, IsGoBuild, GoBuildIgnores, Trim, PlusBuildAt, Ascii;
  }

  // Two of them are refused.
  lemma TwoRefused(lines: seq<Text>)
    requires |lines| >= 3 && IsGoBuild(lines[0]) && Bare(lines[0]) && IsGoBuild(lines[1]) && Bare(lines[1]) && IsCode(lines[2])
    ensures Answers(lines, Refused)
  {
    hide *;
    GoBuildIsComment(lines[0]);
    GoBuildIsComment(lines[1]);
    BuildAt(lines, 2);
    BareKept(lines[0]);
    BareKept(lines[1]);
    TwoBuilds(lines);
  }

  lemma TwoBuilds(lines: seq<Text>)
    requires GoBuildAt(lines, 0) && GoBuildAt(lines, 1)
    ensures Answers(lines, Refused)
  {
    hide GoBuildAt, GoBuildIgnores, Trim, PlusBuildAt;
  }

  // A `// +build ignore` line counts with a blank line after it.
  lemma PlusBuildCounts(lines: seq<Text>)
    requires |lines| >= 3 && IsComment(lines[0]) && !IsGoBuild(Trim(lines[0])) && lines[1] == [] && IsCode(lines[2])
    ensures Answers(lines, if exists a, b, c: Unit, d, e :: PlusBuildParts(lines[0], a, b, c, d, e) then Ignored else Kept)
  {
    hide *;
    BuildAt(lines, 2);
    CommentScans(lines[0]);
    CodeScans(lines[2]);
    EmptyScans();
    NoBuild();
    PlusBuildExactly(lines[0]);
    assert forall k: nat :: !GoBuildAt(lines, k);
    NoPlusBuild();
    PlusDecides(lines);
  }

  lemma NoPlusBuild()
    ensures !PlusBuildIgnores([])
  {
  }

  lemma PlusDecides(lines: seq<Text>)
    requires |lines| >= 3 && (forall k: nat :: !GoBuildAt(lines, k))
    requires BlankOrSlashes(lines[0]) && Trim(lines[1]) == [] && BlankOrSlashes(lines[1]) && !BlankOrSlashes(lines[2])
    requires !PlusBuildIgnores(lines[1]) && Trim(lines[0]) != []
    ensures Answers(lines, if PlusBuildIgnores(lines[0]) then Ignored else Kept)
  {
    hide GoBuildAt, GoBuildIgnores, PlusBuildIgnores, BlankOrSlashes, Trim;
    assert BlankAfterSlashes(lines, 1);
    if PlusBuildIgnores(lines[0]) {
      assert PlusBuildAt(lines, 0, 1);
    }
    forall blank: nat | BlankAfterSlashes(lines, blank)
      ensures blank == 1
    {
      BlankIs(lines[2]);
    }
    assert forall k: nat, blank: nat :: PlusBuildAt(lines, k, blank) ==> blank == 1 && k <= 1;
  }

  lemma NoBuild()
    ensures !IsGoBuild(Trim([]))
  {
  }

  // In the package's doc comment it is just text.
  lemma DocCommentKept(lines: seq<Text>)
    requires |lines| >= 2 && IsComment(lines[0]) && !IsGoBuild(Trim(lines[0])) && IsCode(lines[1])
    ensures Answers(lines, Kept)
  {
    hide *;
    BuildAt(lines, 1);
    CommentScans(lines[0]);
    CodeScans(lines[1]);
    assert forall k: nat :: !GoBuildAt(lines, k);
    NothingCounts(lines);
  }

  lemma NothingCounts(lines: seq<Text>)
    requires |lines| >= 2 && (forall k: nat :: !GoBuildAt(lines, k)) && Trim(lines[0]) != [] && !BlankOrSlashes(lines[1])
    ensures Answers(lines, Kept)
  {
    hide GoBuildAt, GoBuildIgnores, PlusBuildIgnores, BlankOrSlashes, Trim;
    forall blank: nat
      ensures !BlankAfterSlashes(lines, blank)
    {
      BlankIs(lines[1]);
    }
  }

  // Inside a block comment neither kind of line counts.
  lemma BlockCommentKept(lines: seq<Text>)
    requires |lines| >= 4 && lines[0] == Ascii("/*") && lines[2] == Ascii("*/") && IsCode(lines[3])
    requires '*' as int !in lines[1]
    ensures Answers(lines, Kept)
  {
    hide *;
    MarksScan();
    InsideScans(lines[1]);
    CodeScans(lines[3]);
    BlockStars(lines);
    BlockNothing(lines);
  }

  lemma BlockNothing(lines: seq<Text>)
    requires |lines| >= 4 && StarAt(lines, 1) && StarAt(lines, 2) && !StarAt(lines, 3) && HasCode(lines, 3)
    requires !BlankOrSlashes(lines[0]) && Trim(lines[0]) != [] && !IsGoBuild(Trim(lines[0]))
    requires ScanLine(lines[2], true) == Comments(false) && !IsGoBuild(Trim(lines[3]))
    ensures Answers(lines, Kept)
  {
    hide ScanLine, Ascii, IsGoBuild, Trim, PlusBuildIgnores, BlankOrSlashes, StartsWith, StarAt, HasCode;
    assert forall k: nat :: InHeader(lines, k) ==> k < 3;
    forall k: nat
      ensures !GoBuildAt(lines, k)
    {
    }
    forall blank: nat
      ensures !BlankAfterSlashes(lines, blank)
    {
    }
    hide GoBuildAt, BlankAfterSlashes, GoBuildIgnores, InHeader;
  }

  lemma BlockStars(lines: seq<Text>)
    requires |lines| >= 4 && ScanLine(lines[0], false) == Comments(true) && ScanLine(lines[1], true) == Comments(true)
    requires ScanLine(lines[2], true) == Comments(false) && ScanLine(lines[3], false) == Code
    ensures !StarAt(lines, 0) && StarAt(lines, 1) && StarAt(lines, 2) && !StarAt(lines, 3) && HasCode(lines, 3)
  {
    hide ScanLine;
  }

  lemma MarksScan()
    ensures ScanLine(Ascii("/*"), false) == Comments(true) && ScanLine(Ascii("*/"), true) == Comments(false)
    ensures Trim(Ascii("/*")) != [] && !BlankOrSlashes(Ascii("/*")) && !IsGoBuild(Trim(Ascii("/*")))
  {
    MarkScans();
    MarkTrims();
    assert Ascii("/*") == ['/' as int, '*' as int] == STAR_OPEN;
    assert Ascii("*/") == ['*' as int, '/' as int] == STAR_CLOSE;
  }

  lemma MarkScans()
    ensures ScanLine(STAR_OPEN, false) == Comments(true) && ScanLine(STAR_CLOSE, true) == Comments(false)
  {
    assert STAR_OPEN[..2] == STAR_OPEN && STAR_OPEN[2..] == [] && STAR_CLOSE[..2] == STAR_CLOSE && STAR_CLOSE[2..] == [];
    assert STAR_OPEN != SLASHES by { assert STAR_OPEN[1] != SLASHES[1]; }
    assert ScanLine([], true) == Comments(true) && ScanLine([], false) == Comments(false);
    assert StartsWith(STAR_OPEN, STAR_OPEN) && !StartsWith(STAR_OPEN, SLASHES) && StartsWith(STAR_CLOSE, STAR_CLOSE);
  }

  lemma MarkTrims()
    ensures Trim(STAR_OPEN) == STAR_OPEN && STAR_OPEN != [] && !BlankOrSlashes(STAR_OPEN) && !IsGoBuild(STAR_OPEN)
  {
    EmptyWhite();
    Padded(STAR_OPEN);
    assert Bare(STAR_OPEN);
    TrimOf([], STAR_OPEN, []);
    assert STAR_OPEN[..2][1] != SLASHES[1];
  }

  lemma {:induction false} InsideScans(s: Text)
    requires '*' as int !in s
    ensures ScanLine(s, true) == Comments(true)
    decreases |s|
  {
    if s != [] {
      FirstOfWord(s, STAR_CLOSE);
      assert STAR_CLOSE[0] == '*' as int && s[0] in s;
      InsideScans(s[1..]);
    }
  }
}
