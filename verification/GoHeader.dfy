// Whether a Go file's build constraint is exactly `ignore`
// (tools/port-deps.cjs:649-701): the one-pass scan, and what the header is.

module GoHeader {
  import opened Options
  import opened Text

  const SLASHES: Text := Ascii("//")
  const STAR_OPEN: Text := Ascii("/*")
  const STAR_CLOSE: Text := Ascii("*/")
  const GO_BUILD: Text := Ascii("//go:build")
  const PLUS_BUILD: Text := Ascii("+build")
  const IGNORE: Text := Ascii("ignore")

  // The white space of a Go header line.
  predicate White(c: Unit) {
    c == SPACE || c == TAB || c == CR || c == 0x0B || c == 0x0C
  }

  function TrimLeft(s: Text): (t: Text)
    ensures t == [] || !White(t[0])
    ensures |t| <= |s| && s[|s| - |t|..] == t
  {
    if s != [] && White(s[0]) then TrimLeft(s[1..]) else s
  }

  function TrimRight(s: Text): (t: Text)
    ensures |t| <= |s| && s[..|t|] == t
    ensures t == [] || !White(t[|t| - 1])
  {
    if s != [] && White(s[|s| - 1]) then TrimRight(s[..|s| - 1]) else s
  }

  function Trim(s: Text): (t: Text)
    ensures t == [] || !White(t[0])
    ensures |t| <= |s|
  {
    var left := TrimLeft(s);
    var t := TrimRight(left);
    assert t != [] ==> t[0] == left[0];
    t
  }

  // What a line holds, read from its start, inside a block comment or not:
  // text that is no comment, or comments only, the last of them left open or
  // not.
  datatype Scan = Code | Comments(open: bool)

  function ScanLine(s: Text, star: bool): Scan
    decreases |s|
  {
    if s == [] then Comments(star)
    else if star then
      if StartsWith(s, STAR_CLOSE) then ScanLine(s[2..], false) else ScanLine(s[1..], true)
    else if White(s[0]) then ScanLine(s[1..], false)
    else if StartsWith(s, SLASHES) then Comments(false)
    else if StartsWith(s, STAR_OPEN) then ScanLine(s[2..], true)
    else Code
  }

  // Whether a line starts inside a block comment.
  function StarAt(lines: seq<Text>, k: nat): bool
    requires k <= |lines|
  {
    k > 0 && ScanLine(lines[k - 1], StarAt(lines, k - 1)) == Comments(true)
  }

  predicate HasCode(lines: seq<Text>, k: nat)
    requires k < |lines|
  {
    ScanLine(lines[k], StarAt(lines, k)).Code?
  }

  // The lines before the first text that is no comment.
  predicate InHeader(lines: seq<Text>, k: nat) {
    k < |lines| && forall j :: 0 <= j <= k ==> !HasCode(lines, j)
  }

  predicate IsGoBuild(line: Text) {
    StartsWith(line, GO_BUILD) && (|line| == |GO_BUILD| || IsSpace(line[|GO_BUILD|]))
  }

  // A `//go:build` line: in the header, outside block comments.
  predicate GoBuildAt(lines: seq<Text>, k: nat) {
    InHeader(lines, k) && !StarAt(lines, k) && IsGoBuild(Trim(lines[k]))
  }

  predicate GoBuildIgnores(line: Text)
    requires IsGoBuild(line)
  {
    Trim(line[|GO_BUILD|..]) == IGNORE
  }

  predicate BlankOrSlashes(line: Text) {
    Trim(line) == [] || StartsWith(Trim(line), SLASHES)
  }

  // A blank line with nothing above it but blank lines and `//` comments.
  predicate BlankAfterSlashes(lines: seq<Text>, k: nat) {
    k < |lines| && Trim(lines[k]) == [] && forall j :: 0 <= j < k ==> BlankOrSlashes(lines[j])
  }

  // A `// +build ignore` line, by itself.
  predicate PlusBuildIgnores(line: Text) {
    var s := Trim(line);
    && StartsWith(s, SLASHES)
    && var t := Trim(s[2..]);
    && StartsWith(t, PLUS_BUILD) && |t| > |PLUS_BUILD| && IsSpace(t[|PLUS_BUILD|])
    && var rest := t[|PLUS_BUILD| + 1..];
    CR !in rest && Trim(rest) == IGNORE
  }

  // One that counts: a blank line follows it, with nothing else between.
  predicate PlusBuildAt(lines: seq<Text>, k: nat, blank: nat) {
    k <= blank && BlankAfterSlashes(lines, blank) && PlusBuildIgnores(lines[k])
  }

  datatype Answer = Refused | Ignored | Kept

  // What the file's constraint is. Two `//go:build` lines are refused; one
  // decides alone; without any, the counting `+build` lines do.
  ghost predicate Answers(lines: seq<Text>, answer: Answer) {
    if exists i: nat, j: nat :: i < j && GoBuildAt(lines, i) && GoBuildAt(lines, j) then answer == Refused
    else if exists k: nat :: GoBuildAt(lines, k) then
      exists k: nat :: GoBuildAt(lines, k) && answer == if GoBuildIgnores(Trim(lines[k])) then Ignored else Kept
    else answer == if exists k: nat, blank: nat :: PlusBuildAt(lines, k, blank) then Ignored else Kept
  }

  // --- Scanning and trimming ---

  lemma ScanWhite(c: Unit, s: Text, star: bool)
    requires White(c)
    ensures ScanLine([c] + s, star) == ScanLine(s, star)
  {
    assert ([c] + s)[1..] == s;
    assert ([c] + s)[0] == c;
    assert !StartsWith([c] + s, STAR_CLOSE);
  }

  lemma {:induction false} ScanTrimLeft(s: Text, star: bool)
    ensures ScanLine(TrimLeft(s), star) == ScanLine(s, star)
  {
    hide ScanLine;
    if s != [] && White(s[0]) {
      ScanTrimLeft(s[1..], star);
      ScanWhite(s[0], s[1..], star);
      assert s == [s[0]] + s[1..];
    }
  }

  // No white space is part of a comment mark.
  lemma StartsBefore(s: Text, c: Unit, word: Text)
    requires White(c) && word in {STAR_CLOSE, SLASHES, STAR_OPEN}
    ensures StartsWith(s + [c], word) <==> StartsWith(s, word)
  {
    assert |word| == 2 && !White(word[0]) && !White(word[1]);
    assert |s| >= 2 ==> (s + [c])[..2] == s[..2];
    assert |s| == 1 ==> (s + [c])[..2] == s + [c];
  }

  lemma {:induction false} ScanWhiteAfter(s: Text, c: Unit, star: bool)
    requires White(c)
    ensures ScanLine(s + [c], star) == ScanLine(s, star)
    decreases |s|
  {
    if s == [] {
      ScanWhite(c, [], star);
      assert [] + [c] == [c] + [];
    } else {
      StartsBefore(s, c, STAR_CLOSE);
      StartsBefore(s, c, SLASHES);
      StartsBefore(s, c, STAR_OPEN);
      assert (s + [c])[1..] == s[1..] + [c];
      ScanWhiteAfter(s[1..], c, star);
      if |s| >= 2 {
        assert (s + [c])[2..] == s[2..] + [c];
        ScanWhiteAfter(s[2..], c, !star);
      }
    }
  }

  lemma {:induction false} ScanTrimRight(s: Text, star: bool)
    ensures ScanLine(TrimRight(s), star) == ScanLine(s, star)
  {
    hide ScanLine;
    if s != [] && White(s[|s| - 1]) {
      var init := s[..|s| - 1];
      ScanTrimRight(init, star);
      ScanWhiteAfter(init, s[|s| - 1], star);
      assert s == init + [s[|s| - 1]];
    }
  }

  lemma ScanTrim(s: Text, star: bool)
    ensures ScanLine(Trim(s), star) == ScanLine(s, star)
  {
    hide ScanLine;
    ScanTrimLeft(s, star);
    ScanTrimRight(TrimLeft(s), star);
  }

  // Where a block comment closes; the length of s where it does not.
  function IndexOfClose(s: Text): (n: nat)
    ensures n <= |s|
    ensures n < |s| ==> StartsWith(s[n..], STAR_CLOSE)
  {
    if s == [] || StartsWith(s, STAR_CLOSE) then 0 else 1 + IndexOfClose(s[1..])
  }

  lemma {:induction false} ScanToClose(s: Text)
    ensures
      var n := IndexOfClose(s);
      ScanLine(s, true) == if n == |s| then Comments(true) else ScanLine(s[n + 2..], false)
  {
    if s != [] && !StartsWith(s, STAR_CLOSE) {
      ScanToClose(s[1..]);
      var n := IndexOfClose(s[1..]);
      if n < |s[1..]| {
        assert s[1..][n + 2..] == s[n + 3..];
      }
    }
  }

  // --- The one-pass scan ---

  // One line, from inside a block comment or not. Not `ok`: text that is no
  // comment.
  method ScanComments(line: Text, star: bool) returns (ok: bool, open: bool)
    ensures ok <==> !ScanLine(line, star).Code?
    ensures ok ==> ScanLine(line, star) == Comments(open)
  {
    hide ScanLine, Trim, StartsWith;
    ScanTrim(line, star);
    var rest := Trim(line);
    open := star;
    while rest != []
      invariant ScanLine(rest, open) == ScanLine(line, star)
      invariant rest == [] || open || !White(rest[0])
      decreases |rest|
    {
      if open {
        var close := IndexOfClose(rest);
        ScanToClose(rest);
        if close == |rest| {
          return true, true;
        }
        CloseFits(rest, close);
        open := false;
        ScanTrim(rest[close + 2..], false);
        rest := Trim(rest[close + 2..]);
      } else {
        ScanMark(rest);
        if StartsWith(rest, SLASHES) {
          return true, false;
        }
        if !StartsWith(rest, STAR_OPEN) {
          return false, open;
        }
        StarFits(rest);
        open := true;
        ScanTrim(rest[2..], true);
        rest := Trim(rest[2..]);
      }
    }
    ScanNothing(open);
    return true, open;
  }

  lemma ScanNothing(star: bool)
    ensures ScanLine([], star) == Comments(star)
  {
  }

  lemma CloseFits(s: Text, n: nat)
    requires n < |s| && StartsWith(s[n..], STAR_CLOSE)
    ensures n + 2 <= |s|
  {
  }

  lemma StarFits(s: Text)
    requires StartsWith(s, STAR_OPEN)
    ensures 2 <= |s|
  {
  }

  lemma ScanMark(s: Text)
    requires s != [] && !White(s[0])
    ensures
      ScanLine(s, false) ==
      if StartsWith(s, SLASHES) then Comments(false) else if StartsWith(s, STAR_OPEN) then ScanLine(s[2..], true) else Code
  {
  }

  // What the scan knows after its first k lines.
  ghost predicate Scanned(lines: seq<Text>, k: nat, end: nat, ended: bool, inStar: bool, goBuild: Option<nat>) {
    && k <= |lines|
    && (k == 0 || InHeader(lines, k - 1))
    && inStar == StarAt(lines, k)
    && (ended <==> exists j :: 0 <= j < k && !BlankOrSlashes(lines[j]))
    && EndRight(lines, k, end)
    && OneGoBuild(lines, k, goBuild)
  }

  ghost predicate EndRight(lines: seq<Text>, k: nat, end: nat) {
    && end <= k
    && (end > 0 ==> BlankAfterSlashes(lines, end - 1))
    && forall j: nat :: j < k && BlankAfterSlashes(lines, j) ==> j < end
  }

  ghost predicate OneGoBuild(lines: seq<Text>, k: nat, goBuild: Option<nat>) {
    match goBuild
    case None => forall j: nat :: j < k ==> !GoBuildAt(lines, j)
    case Some(g) => g < k && GoBuildAt(lines, g) && forall j: nat :: j < k && GoBuildAt(lines, j) ==> j == g
  }

  lemma SlashScan(line: Text)
    requires BlankOrSlashes(line)
    ensures ScanLine(line, false) == Comments(false)
  {
    hide Trim;
    ScanTrim(line, false);
  }

  // A block comment is opened by a line that ends the leading `//` comments.
  lemma {:induction false} StarEnded(lines: seq<Text>, k: nat)
    requires k <= |lines| && StarAt(lines, k)
    ensures exists j :: 0 <= j < k && !BlankOrSlashes(lines[j])
  {
    hide ScanLine, BlankOrSlashes;
    if StarAt(lines, k - 1) {
      StarEnded(lines, k - 1);
    } else if BlankOrSlashes(lines[k - 1]) {
      SlashScan(lines[k - 1]);
    }
  }

  lemma StartScanned(lines: seq<Text>)
    ensures Scanned(lines, 0, 0, false, false, None)
  {
  }

  // A blank line among the leading `//` comments.
  lemma BlankScanned(lines: seq<Text>, k: nat, end: nat, ended: bool, inStar: bool, goBuild: Option<nat>)
    requires Scanned(lines, k, end, ended, inStar, goBuild) && k < |lines| && Trim(lines[k]) == [] && !ended
    ensures Scanned(lines, k + 1, k + 1, ended, inStar, goBuild)
  {
    hide ScanLine, Trim;
    if StarAt(lines, k) {
      StarEnded(lines, k);
    }
    SlashScan(lines[k]);
    NotGoBuild(lines, k);
  }

  lemma NotGoBuild(lines: seq<Text>, k: nat)
    requires k < |lines| && Trim(lines[k]) == []
    ensures !GoBuildAt(lines, k)
  {
    hide Trim;
  }

  // A `//go:build` line is all comment, so it is in the header with the line
  // before it.
  lemma GoBuildHere(lines: seq<Text>, k: nat)
    requires k < |lines| && (k == 0 || InHeader(lines, k - 1))
    ensures GoBuildAt(lines, k) <==> !StarAt(lines, k) && IsGoBuild(Trim(lines[k]))
  {
    hide Trim, ScanLine;
    if !StarAt(lines, k) && IsGoBuild(Trim(lines[k])) {
      GoBuildSlashes(Trim(lines[k]));
      SlashScan(lines[k]);
    }
  }

  lemma GoBuildSlashes(line: Text)
    requires IsGoBuild(line)
    ensures StartsWith(line, SLASHES)
  {
    assert line[..|GO_BUILD|][..2] == line[..2];
    assert GO_BUILD[..2] == SLASHES;
  }

  lemma SecondRefused(lines: seq<Text>, k: nat, end: nat, ended: bool, inStar: bool, goBuild: Option<nat>)
    requires Scanned(lines, k, end, ended, inStar, goBuild) && k < |lines|
    requires goBuild.Some? && !inStar && IsGoBuild(Trim(lines[k]))
    ensures Answers(lines, Refused)
  {
    hide Trim, ScanLine, IsGoBuild, InHeader, StarAt, GoBuildAt;
    GoBuildHere(lines, k);
    assert GoBuildAt(lines, goBuild.value) && GoBuildAt(lines, k);
  }

  // What the whole file's lines come to.
  ghost predicate Settled(lines: seq<Text>, end: nat, goBuild: Option<nat>) {
    && end <= |lines|
    && (end > 0 ==> BlankAfterSlashes(lines, end - 1))
    && (forall j: nat :: BlankAfterSlashes(lines, j) ==> j < end)
    && match goBuild
       case None => forall j: nat :: !GoBuildAt(lines, j)
       case Some(g) => GoBuildAt(lines, g) && forall j: nat :: GoBuildAt(lines, j) ==> j == g
  }

  // Text that is no comment: nothing from here on counts.
  lemma CodeScanned(lines: seq<Text>, k: nat, end: nat, ended: bool, inStar: bool, goBuild: Option<nat>)
    requires Scanned(lines, k, end, ended, inStar, goBuild) && k < |lines| && ScanLine(lines[k], inStar).Code?
    ensures Settled(lines, end, goBuild)
    ensures !(!inStar && IsGoBuild(Trim(lines[k])))
  {
    hide Trim, ScanLine, IsGoBuild, StarAt, BlankOrSlashes;
    assert HasCode(lines, k);
    assert forall j: nat :: j >= k ==> !InHeader(lines, j);
    GoBuildHere(lines, k);
    if inStar {
      StarEnded(lines, k);
    } else if BlankOrSlashes(lines[k]) {
      SlashScan(lines[k]);
    }
    BlankIs(lines[k]);
    assert !BlankOrSlashes(lines[k]) || exists j :: 0 <= j < k && !BlankOrSlashes(lines[j]);
    CodeEnds(lines, k);
  }

  lemma BlankIs(line: Text)
    ensures Trim(line) == [] ==> BlankOrSlashes(line)
  {
  }

  lemma CodeEnds(lines: seq<Text>, k: nat)
    requires k < |lines| && exists j :: 0 <= j <= k && !BlankOrSlashes(lines[j])
    ensures forall j: nat :: BlankAfterSlashes(lines, j) ==> j <= k
    ensures BlankAfterSlashes(lines, k) ==> exists j :: 0 <= j < k && !BlankOrSlashes(lines[j])
  {
    hide BlankOrSlashes;
    BlankIs(lines[k]);
  }

  // A line of comments, in the general case.
  lemma LineScanned(lines: seq<Text>, k: nat, end: nat, ended: bool, inStar: bool, goBuild: Option<nat>, open: bool)
    requires Scanned(lines, k, end, ended, inStar, goBuild) && k < |lines|
    requires ScanLine(lines[k], inStar) == Comments(open) && (Trim(lines[k]) != [] || ended)
    requires !inStar && IsGoBuild(Trim(lines[k])) ==> goBuild.None?
    ensures
      var found := !inStar && IsGoBuild(Trim(lines[k]));
      Scanned(lines, k + 1, end, ended || !StartsWith(Trim(lines[k]), SLASHES), open, if found then Some(k) else goBuild)
  {
    hide Trim, ScanLine, IsGoBuild, StartsWith, EndRight, OneGoBuild;
    GoBuildHere(lines, k);
    LineEndRight(lines, k, end, ended);
    LineGoBuild(lines, k, goBuild);
  }

  lemma LineEndRight(lines: seq<Text>, k: nat, end: nat, ended: bool)
    requires k < |lines| && EndRight(lines, k, end) && (Trim(lines[k]) != [] || ended)
    requires ended <==> exists j :: 0 <= j < k && !BlankOrSlashes(lines[j])
    ensures EndRight(lines, k + 1, end)
  {
    hide Trim, BlankOrSlashes;
  }

  lemma LineGoBuild(lines: seq<Text>, k: nat, goBuild: Option<nat>)
    requires k < |lines| && OneGoBuild(lines, k, goBuild)
    ensures GoBuildAt(lines, k) && goBuild.None? ==> OneGoBuild(lines, k + 1, Some(k))
    ensures !GoBuildAt(lines, k) ==> OneGoBuild(lines, k + 1, goBuild)
  {
    hide GoBuildAt;
  }

  lemma EndSettled(lines: seq<Text>, end: nat, ended: bool, inStar: bool, goBuild: Option<nat>)
    requires Scanned(lines, |lines|, end, ended, inStar, goBuild)
    ensures Settled(lines, end, goBuild)
  {
    hide Trim, ScanLine, IsGoBuild, StarAt, BlankOrSlashes;
    assert forall j: nat :: InHeader(lines, j) ==> j < |lines|;
  }

  // The answer, from what the scan has found.
  method Conclude(lines: seq<Text>, end: nat, goBuild: Option<nat>) returns (answer: Answer)
    requires Settled(lines, end, goBuild)
    ensures Answers(lines, answer)
  {
    hide Trim, GoBuildAt, BlankAfterSlashes, PlusBuildIgnores, IsGoBuild;
    if goBuild.Some? {
      GoBuildLine(lines, goBuild.value);
      return if GoBuildIgnores(Trim(lines[goBuild.value])) then Ignored else Kept;
    }
    for k := 0 to end
      invariant forall j :: 0 <= j < k ==> !PlusBuildIgnores(lines[j])
    {
      if PlusBuildIgnores(lines[k]) {
        assert PlusBuildAt(lines, k, end - 1);
        return Ignored;
      }
    }
    return Kept;
  }

  lemma GoBuildLine(lines: seq<Text>, k: nat)
    requires GoBuildAt(lines, k)
    ensures k < |lines| && IsGoBuild(Trim(lines[k]))
  {
    hide Trim, IsGoBuild;
  }

  method GoIgnored(lines: seq<Text>) returns (answer: Answer)
    ensures Answers(lines, answer)
  {
    hide Answers, InHeader, StarAt, BlankOrSlashes, EndRight, OneGoBuild, IsGoBuild, Scanned, Trim, ScanLine, StartsWith, GoBuildAt, Settled;
    var end, ended, inStar := 0, false, false;
    var goBuild: Option<nat> := None;
    var k := 0;
    StartScanned(lines);
    while k < |lines|
      invariant k <= |lines| && Scanned(lines, k, end, ended, inStar, goBuild)
    {
      var line := Trim(lines[k]);
      if line == [] && !ended {
        BlankScanned(lines, k, end, ended, inStar, goBuild);
        end := k + 1;
        k := k + 1;
        continue;
      }
      ghost var endedBefore := ended;
      if !StartsWith(line, SLASHES) {
        ended := true;
      }
      ghost var before := goBuild;
      var found := !inStar && IsGoBuild(line);
      if found && goBuild.Some? {
        SecondRefused(lines, k, end, endedBefore, inStar, goBuild);
        return Refused;
      }
      if found {
        goBuild := Some(k);
      }
      var ok, open := ScanComments(line, inStar);
      ScanTrim(lines[k], inStar);
      if !ok {
        CodeScanned(lines, k, end, endedBefore, inStar, before);
        answer := Conclude(lines, end, goBuild);
        return;
      }
      LineScanned(lines, k, end, endedBefore, inStar, before, open);
      inStar := open;
      k := k + 1;
    }
    EndSettled(lines, end, ended, inStar, goBuild);
    answer := Conclude(lines, end, goBuild);
  }

  // --- What the answer depends on ---

  // A line with text that is no comment, or one above it, ends the leading
  // `//` comments.
  lemma CodeBreaks(lines: seq<Text>, h: nat)
    requires h < |lines| && HasCode(lines, h)
    ensures exists j :: 0 <= j <= h && !BlankOrSlashes(lines[j])
  {
    hide ScanLine, BlankOrSlashes;
    if StarAt(lines, h) {
      StarEnded(lines, h);
    } else if BlankOrSlashes(lines[h]) {
      SlashScan(lines[h]);
    }
  }

  lemma {:induction false} SameStar(a: seq<Text>, b: seq<Text>, k: nat)
    requires k <= |a| && k <= |b| && forall j :: 0 <= j < k ==> a[j] == b[j]
    ensures StarAt(a, k) == StarAt(b, k)
  {
    hide ScanLine;
    if k > 0 {
      SameStar(a, b, k - 1);
    }
  }

  // The lines after the first text that is no comment do not matter.
  lemma OnlyTheHeaderCounts(a: seq<Text>, b: seq<Text>, h: nat, answer: Answer)
    requires h < |a| && h < |b| && forall j :: 0 <= j <= h ==> a[j] == b[j]
    requires HasCode(a, h)
    ensures Answers(a, answer) <==> Answers(b, answer)
  {
    hide ScanLine, Trim, IsGoBuild, PlusBuildIgnores, BlankOrSlashes;
    forall k: nat
      ensures GoBuildAt(a, k) <==> GoBuildAt(b, k)
      ensures GoBuildAt(a, k) ==> k < |a| && k < |b| && a[k] == b[k]
    {
      SameGoBuild(a, b, h, k);
    }
    forall k: nat, blank: nat
      ensures PlusBuildAt(a, k, blank) <==> PlusBuildAt(b, k, blank)
    {
      SamePlusBuild(a, b, h, k, blank);
    }
    hide GoBuildAt, PlusBuildAt;
  }

  lemma SameGoBuild(a: seq<Text>, b: seq<Text>, h: nat, k: nat)
    requires h < |a| && h < |b| && forall j :: 0 <= j <= h ==> a[j] == b[j]
    requires HasCode(a, h)
    ensures GoBuildAt(a, k) <==> GoBuildAt(b, k)
    ensures GoBuildAt(a, k) ==> k < |a| && k < |b| && a[k] == b[k]
  {
    hide ScanLine, Trim, IsGoBuild, StarAt;
    forall j: nat | j <= h
      ensures StarAt(a, j) == StarAt(b, j)
    {
      SameStar(a, b, j);
    }
    assert forall j: nat :: j <= h ==> HasCode(a, j) == HasCode(b, j);
    assert InHeader(a, k) ==> k < h;
    assert InHeader(b, k) ==> k < h;
    assert InHeader(a, k) <==> InHeader(b, k);
  }

  lemma SamePlusBuild(a: seq<Text>, b: seq<Text>, h: nat, k: nat, blank: nat)
    requires h < |a| && h < |b| && forall j :: 0 <= j <= h ==> a[j] == b[j]
    requires HasCode(a, h)
    ensures PlusBuildAt(a, k, blank) <==> PlusBuildAt(b, k, blank)
  {
    hide Trim, PlusBuildIgnores, BlankOrSlashes, HasCode;
    CodeBreaks(a, h);
  }

  lemma OneAnswer(lines: seq<Text>, a: Answer, b: Answer)
    requires Answers(lines, a) && Answers(lines, b)
    ensures a == b
  {
    hide GoBuildAt, PlusBuildAt, GoBuildIgnores, Trim;
    forall i: nat, j: nat | GoBuildAt(lines, i) && GoBuildAt(lines, j) && !(exists i: nat, j: nat :: i < j && GoBuildAt(lines, i) && GoBuildAt(lines, j))
      ensures i == j
    {
      assert !(i < j) && !(j < i);
    }
  }
}