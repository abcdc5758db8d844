// Edits to lines by their places, and the map from joined comment text back
// to those places (ts/scripts/vale-counts.cjs:104-154).

module ValeCounts {
  import opened Options
  import opened Text

  // Replace |was| units of a line, from a column on, by a text.
  datatype Edit = Edit(line: nat, col: nat, was: Text, text: Text)

  predicate Starts(e: Edit, i: nat) {
    e.col == i
  }

  predicate Covers(e: Edit, i: nat) {
    e.col <= i < e.col + |e.was|
  }

  // Two edits of one line that neither overlap nor share a column; they may
  // touch.
  predicate Apart(e: Edit, f: Edit) {
    (e.col < f.col && e.col + |e.was| <= f.col) || (f.col < e.col && f.col + |f.was| <= e.col)
  }

  // They may also share a column, if the one listed later takes nothing.
  predicate Compatible(earlier: Edit, later: Edit) {
    Apart(earlier, later) || (earlier.col == later.col && later.was == [])
  }

  predicate AllApart(edits: seq<Edit>) {
    forall i, j :: 0 <= i < j < |edits| && edits[i].line == edits[j].line ==> Compatible(edits[i], edits[j])
  }

  predicate Fits(e: Edit, lines: seq<Text>) {
    e.line < |lines| && e.col + |e.was| <= |lines[e.line]|
  }

  // What the edits insert at a column, those listed later before those listed
  // earlier.
  function Inserted(edits: seq<Edit>, i: nat): Text {
    if edits == [] then []
    else
      var last := edits[|edits| - 1];
      (if Starts(last, i) then last.text else []) + Inserted(edits[..|edits| - 1], i)
  }

  // What stands for one column of a line once every span is replaced at once:
  // the text of the edit that starts there, and the unit itself unless an
  // edit takes it.
  function Piece(line: Text, edits: seq<Edit>, i: nat): Text
    requires i <= |line|
  {
    Inserted(edits, i) + if i < |line| && !(exists e :: e in edits && Covers(e, i)) then [line[i]] else []
  }

  function From(line: Text, edits: seq<Edit>, i: nat): Text
    requires i <= |line| + 1
    decreases |line| + 1 - i
  {
    if i == |line| + 1 then [] else Piece(line, edits, i) + From(line, edits, i + 1)
  }

  // The line with every span replaced at once.
  function Replaced(line: Text, edits: seq<Edit>): Text {
    From(line, edits, 0)
  }

  function EditsOn(edits: seq<Edit>, line: nat): seq<Edit> {
    if edits == [] then []
    else
      var last := edits[|edits| - 1];
      EditsOn(edits[..|edits| - 1], line) + if last.line == line then [last] else []
  }

  lemma {:induction false} InsertedNone(edits: seq<Edit>, i: nat)
    requires forall e :: e in edits ==> !Starts(e, i)
    ensures Inserted(edits, i) == []
  {
    if edits != [] {
      InsertedNone(edits[..|edits| - 1], i);
    }
  }

  // A stretch that no edit starts in or takes from is left as it is.
  lemma {:induction false} Untouched(line: Text, edits: seq<Edit>, i: nat, j: nat)
    requires i <= j <= |line|
    requires forall e, k :: e in edits && i <= k < j ==> !Starts(e, k) && !Covers(e, k)
    ensures From(line, edits, i) == line[i..j] + From(line, edits, j)
    decreases j - i
  {
    if i < j {
      InsertedNone(edits, i);
      Untouched(line, edits, i + 1, j);
      assert line[i..j] == [line[i]] + line[i + 1..j];
      assert Piece(line, edits, i) == [line[i]];
      Assoc([line[i]], line[i + 1..j], From(line, edits, j));
    } else {
      assert line[i..j] == [];
      Padded(From(line, edits, j));
    }
  }

  // An edit says nothing of the columns after its span.
  lemma PieceAway(line: Text, edits: seq<Edit>, e: Edit, i: nat)
    requires e.col < i && e.col + |e.was| <= i <= |line|
    ensures Piece(line, edits + [e], i) == Piece(line, edits, i)
  {
    hide Inserted;
    InsertedPush(edits, e, i);
    Padded(Inserted(edits, i));
    assert (exists f :: f in edits + [e] && Covers(f, i)) <==> (exists f :: f in edits && Covers(f, i));
  }

  lemma {:induction false} AfterEdit(line: Text, edits: seq<Edit>, e: Edit, i: nat)
    requires e.col < i && e.col + |e.was| <= i <= |line| + 1
    ensures From(line, edits + [e], i) == From(line, edits, i)
    decreases |line| + 1 - i
  {
    hide Piece;
    if i <= |line| {
      AfterEdit(line, edits, e, i + 1);
      PieceAway(line, edits, e, i);
    }
  }

  // Within its span an edit leaves nothing.
  lemma {:induction false} InsideEdit(line: Text, edits: seq<Edit>, e: Edit, i: nat)
    requires e.col < i <= e.col + |e.was| <= |line|
    requires forall f :: f in edits ==> e.col + |e.was| <= f.col
    ensures From(line, edits + [e], i) == From(line, edits, e.col + |e.was|)
    decreases e.col + |e.was| - i
  {
    if i < e.col + |e.was| {
      InsideEdit(line, edits, e, i + 1);
      PieceInside(line, edits, e, i);
      hide Piece;
      Padded(From(line, edits + [e], i + 1));
    } else {
      AfterEdit(line, edits, e, i);
    }
  }

  lemma PieceInside(line: Text, edits: seq<Edit>, e: Edit, i: nat)
    requires e.col < i < e.col + |e.was| <= |line|
    requires forall f :: f in edits ==> e.col + |e.was| <= f.col
    ensures Piece(line, edits + [e], i) == []
  {
    hide Inserted;
    InsertedNone(edits + [e], i);
    assert e in edits + [e] && Covers(e, i);
  }

  lemma InsertedPush(edits: seq<Edit>, e: Edit, i: nat)
    ensures Inserted(edits + [e], i) == (if Starts(e, i) then e.text else []) + Inserted(edits, i)
  {
    Init(edits, e);
  }

  // Whether an edit is made where the others of its line have been: all of
  // them to its right, or at its column if it takes nothing.
  ghost predicate Leftmost(edits: seq<Edit>, e: Edit) {
    forall f :: f in edits ==> (e.col < f.col && e.col + |e.was| <= f.col) || (e.col == f.col && e.was == [])
  }

  // What such an edit makes of the rest of its line: where it takes something,
  // and where it only inserts.
  lemma TakeHere(line: Text, edits: seq<Edit>, e: Edit)
    requires e.col + |e.was| <= |line| && |e.was| > 0 && Leftmost(edits, e)
    ensures From(line, edits + [e], e.col) == e.text + From(line, edits, e.col + |e.was|)
  {
    LeftmostTakes(edits, e);
    PieceTaken(line, edits, e);
    hide Inserted, Piece, Leftmost;
    InsideEdit(line, edits, e, e.col + 1);
  }

  lemma LeftmostTakes(edits: seq<Edit>, e: Edit)
    requires |e.was| > 0 && Leftmost(edits, e)
    ensures forall f :: f in edits ==> e.col < f.col && e.col + |e.was| <= f.col
  {
  }

  lemma PieceTaken(line: Text, edits: seq<Edit>, e: Edit)
    requires e.col <= |line| && |e.was| > 0 && forall f :: f in edits ==> e.col < f.col
    ensures Piece(line, edits + [e], e.col) == e.text
  {
    hide Inserted;
    InsertedPush(edits, e, e.col);
    InsertedNone(edits, e.col);
    Padded(e.text);
    assert e in edits + [e] && Covers(e, e.col);
  }

  lemma InsertHere(line: Text, edits: seq<Edit>, e: Edit)
    requires e.col <= |line| && |e.was| == 0
    ensures From(line, edits + [e], e.col) == e.text + From(line, edits, e.col)
  {
    hide Inserted;
    var c := e.col;
    InsertedPush(edits, e, c);
    assert (exists f :: f in edits + [e] && Covers(f, c)) <==> (exists f :: f in edits && Covers(f, c));
    var unit := if c < |line| && !(exists f :: f in edits && Covers(f, c)) then [line[c]] else [];
    Assoc(e.text, Inserted(edits, c), unit);
    assert Piece(line, edits + [e], c) == e.text + Piece(line, edits, c);
    AfterEdit(line, edits, e, c + 1);
    Assoc(e.text, Piece(line, edits, c), From(line, edits, c + 1));
  }

  lemma NothingAfter(line: Text, edits: seq<Edit>)
    requires forall f :: f in edits ==> f.col > |line|
    ensures From(line, edits, |line|) == From(line, edits, |line| + 1)
  {
    InsertedNone(edits, |line|);
    assert Piece(line, edits, |line|) == [];
    Padded(From(line, edits, |line| + 1));
  }

  // One step of the loop: with all later edits of the line made, the next one
  // to the left finds its span where it was.
  lemma OneEdit(line: Text, edits: seq<Edit>, e: Edit)
    requires e.col + |e.was| <= |line| && Leftmost(edits, e)
    ensures
      var now := Replaced(line, edits);
      && e.col + |e.was| <= |now|
      && Replaced(line, edits + [e]) == now[..e.col] + e.text + now[e.col + |e.was|..]
  {
    hide From;
    var c, d := e.col, e.col + |e.was|;
    var now, tail := Replaced(line, edits), From(line, edits, d);
    Untouched(line, edits, 0, d);
    assert now == line[..d] + tail;
    assert now[..c] == line[..c] && now[d..] == tail;
    Untouched(line, edits + [e], 0, c);
    if |e.was| > 0 {
      TakeHere(line, edits, e);
    } else {
      InsertHere(line, edits, e);
    }
    assert Replaced(line, edits + [e]) == line[..c] + (e.text + tail);
    Assoc(line[..c], e.text, tail);
  }

  // --- The loop ---

  predicate Before(e: Edit, f: Edit) {
    e.line > f.line || (e.line == f.line && e.col >= f.col)
  }

  // As the sort leaves them: lines and columns going down, equal ones as they
  // were.
  function InsertEdit(e: Edit, sorted: seq<Edit>): seq<Edit> {
    if sorted == [] || Before(e, sorted[0]) then [e] + sorted
    else [sorted[0]] + InsertEdit(e, sorted[1..])
  }

  function SortEdits(edits: seq<Edit>): seq<Edit> {
    if edits == [] then [] else InsertEdit(edits[0], SortEdits(edits[1..]))
  }

  predicate Descending(edits: seq<Edit>) {
    edits == [] || (Descending(edits[1..]) && forall f :: f in edits[1..] ==> Before(edits[0], f))
  }

  lemma {:induction false} InsertDescends(e: Edit, sorted: seq<Edit>)
    requires Descending(sorted)
    ensures Descending(InsertEdit(e, sorted)) && multiset(InsertEdit(e, sorted)) == multiset([e] + sorted)
    ensures forall f :: f in InsertEdit(e, sorted) <==> f == e || f in sorted
  {
    if sorted == [] || Before(e, sorted[0]) {
      assert ([e] + sorted)[1..] == sorted;
      assert sorted != [] ==> sorted == [sorted[0]] + sorted[1..];
    } else {
      var first, rest := sorted[0], sorted[1..];
      assert sorted == [first] + rest;
      InsertDescends(e, rest);
      assert InsertEdit(e, sorted)[1..] == InsertEdit(e, rest);
      assert Before(first, e);
    }
  }

  lemma {:induction false} SortDescends(edits: seq<Edit>)
    ensures Descending(SortEdits(edits)) && multiset(SortEdits(edits)) == multiset(edits)
    ensures forall e :: e in SortEdits(edits) <==> e in edits
  {
    if edits != [] {
      SortDescends(edits[1..]);
      InsertDescends(edits[0], SortEdits(edits[1..]));
      assert edits == [edits[0]] + edits[1..];
    }
  }

  lemma {:induction false} DescendingAt(edits: seq<Edit>, i: nat, j: nat)
    requires Descending(edits) && i < j < |edits|
    ensures Before(edits[i], edits[j])
  {
    if i > 0 {
      DescendingAt(edits[1..], i - 1, j - 1);
    }
  }

  // AllApart, front to back.
  predicate ApartOnwards(edits: seq<Edit>) {
    edits == [] || (ApartOnwards(edits[1..]) && forall f :: f in edits[1..] && f.line == edits[0].line ==> Compatible(edits[0], f))
  }

  lemma {:induction false} ApartForward(edits: seq<Edit>)
    requires AllApart(edits)
    ensures ApartOnwards(edits)
  {
    if edits != [] {
      ApartForward(edits[1..]);
    }
  }

  lemma {:induction false} ApartBack(edits: seq<Edit>, i: nat, j: nat)
    requires ApartOnwards(edits) && i < j < |edits| && edits[i].line == edits[j].line
    ensures Compatible(edits[i], edits[j])
  {
    if i > 0 {
      ApartBack(edits[1..], i - 1, j - 1);
    }
  }

  lemma {:induction false} InsertApart(e: Edit, sorted: seq<Edit>)
    requires Descending(sorted) && ApartOnwards([e] + sorted)
    ensures ApartOnwards(InsertEdit(e, sorted))
  {
    assert ([e] + sorted)[1..] == sorted;
    if sorted != [] && !Before(e, sorted[0]) {
      var first, rest := sorted[0], sorted[1..];
      assert sorted == [first] + rest;
      assert ([e] + rest)[1..] == rest;
      InsertApart(e, rest);
      InsertDescends(e, rest);
      assert InsertEdit(e, sorted)[1..] == InsertEdit(e, rest);
      assert first in sorted && (first.line == e.line ==> Compatible(e, first) && e.col < first.col);
    }
  }

  lemma {:induction false} SortApart(edits: seq<Edit>)
    requires ApartOnwards(edits)
    ensures ApartOnwards(SortEdits(edits))
  {
    if edits != [] {
      var rest := SortEdits(edits[1..]);
      SortApart(edits[1..]);
      SortDescends(edits[1..]);
      assert ([edits[0]] + rest)[1..] == rest;
      InsertApart(edits[0], rest);
    }
  }

  lemma {:induction false} EditsOnMembers(edits: seq<Edit>, line: nat, e: Edit)
    ensures e in EditsOn(edits, line) <==> e in edits && e.line == line
  {
    if edits != [] {
      EditsOnMembers(edits[..|edits| - 1], line, e);
      assert edits == edits[..|edits| - 1] + [edits[|edits| - 1]];
    }
  }

  // What is inserted at a column comes from the edits that start there.
  lemma {:induction false} InsertedOf(edits: seq<Edit>, i: nat) returns (picked: seq<Edit>)
    ensures Inserted(edits, i) == TextsOf(picked)
    ensures forall e :: e in picked <==> e in edits && Starts(e, i)
    ensures picked == AtColumn(edits, i)
  {
    picked := AtColumn(edits, i);
    if edits != [] {
      var init, last := edits[..|edits| - 1], edits[|edits| - 1];
      assert edits == init + [last];
      var before := InsertedOf(init, i);
      Padded(before);
      Padded(TextsOf(before));
      Init(before, last);
      assert picked == if Starts(last, i) then before + [last] else before;
    }
  }

  // The edits that start at a column, and their texts, the last one's first.
  function AtColumn(edits: seq<Edit>, i: nat): seq<Edit> {
    if edits == [] then []
    else AtColumn(edits[..|edits| - 1], i) + if Starts(edits[|edits| - 1], i) then [edits[|edits| - 1]] else []
  }

  function TextsOf(edits: seq<Edit>): Text {
    if edits == [] then [] else edits[|edits| - 1].text + TextsOf(edits[..|edits| - 1])
  }

  lemma {:induction false} FromAlike(line: Text, a: seq<Edit>, b: seq<Edit>, i: nat)
    requires i <= |line| + 1 && forall e :: e in a <==> e in b
    requires forall k :: AtColumn(a, k) == AtColumn(b, k)
    ensures From(line, a, i) == From(line, b, i)
    decreases |line| + 1 - i
  {
    hide Inserted, AtColumn;
    if i <= |line| {
      var p := InsertedOf(a, i);
      var q := InsertedOf(b, i);
      FromAlike(line, a, b, i + 1);
    }
  }

  // Sorting keeps edits of one place in the order they are listed in.
  predicate IsAt(e: Edit, line: nat, i: nat) {
    e.line == line && e.col == i
  }

  function AtPlace(edits: seq<Edit>, line: nat, i: nat): seq<Edit> {
    if edits == [] then []
    else (if IsAt(edits[0], line, i) then [edits[0]] else []) + AtPlace(edits[1..], line, i)
  }

  lemma {:induction false} InsertKeepsPlace(e: Edit, sorted: seq<Edit>, line: nat, i: nat)
    ensures AtPlace(InsertEdit(e, sorted), line, i) == (if IsAt(e, line, i) then [e] else []) + AtPlace(sorted, line, i)
  {
    if sorted == [] || Before(e, sorted[0]) {
      assert ([e] + sorted)[1..] == sorted;
    } else {
      var first, rest := sorted[0], sorted[1..];
      InsertKeepsPlace(e, rest, line, i);
      hide InsertEdit;
      InsertPasses(e, sorted);
      PlaceFront(first, InsertEdit(e, rest), line, i);
      PlaceFront(first, rest, line, i);
      assert sorted == [first] + rest;
      assert !(IsAt(e, line, i) && IsAt(first, line, i));
      Padded(AtPlace(rest, line, i));
    }
  }

  lemma InsertPasses(e: Edit, sorted: seq<Edit>)
    requires sorted != [] && !Before(e, sorted[0])
    ensures InsertEdit(e, sorted) == [sorted[0]] + InsertEdit(e, sorted[1..])
  {
  }

  lemma PlaceFront(first: Edit, rest: seq<Edit>, line: nat, i: nat)
    ensures AtPlace([first] + rest, line, i) == (if IsAt(first, line, i) then [first] else []) + AtPlace(rest, line, i)
  {
    assert ([first] + rest)[1..] == rest;
  }

  lemma {:induction false} SortKeepsPlace(edits: seq<Edit>, line: nat, i: nat)
    ensures AtPlace(SortEdits(edits), line, i) == AtPlace(edits, line, i)
  {
    if edits != [] {
      SortKeepsPlace(edits[1..], line, i);
      InsertKeepsPlace(edits[0], SortEdits(edits[1..]), line, i);
    }
  }

  lemma {:induction false} PlaceAppends(a: seq<Edit>, e: Edit, line: nat, i: nat)
    ensures AtPlace(a + [e], line, i) == AtPlace(a, line, i) + if IsAt(e, line, i) then [e] else []
  {
    if a == [] {
      assert [] + [e] == [e] && [e][1..] == [];
    } else {
      PlaceAppends(a[1..], e, line, i);
      hide IsAt;
      var here, more := if IsAt(a[0], line, i) then [a[0]] else [], if IsAt(e, line, i) then [e] else [];
      assert (a + [e])[1..] == a[1..] + [e] && (a + [e])[0] == a[0];
      assert AtPlace(a + [e], line, i) == here + (AtPlace(a[1..], line, i) + more);
      Assoc(here, AtPlace(a[1..], line, i), more);
    }
  }

  lemma {:induction false} ColumnIsPlace(edits: seq<Edit>, line: nat, i: nat)
    ensures AtColumn(EditsOn(edits, line), i) == AtPlace(edits, line, i)
  {
    if edits != [] {
      var init, last := edits[..|edits| - 1], edits[|edits| - 1];
      assert edits == init + [last];
      ColumnIsPlace(init, line, i);
      PlaceAppends(init, last, line, i);
      if last.line == line {
        Init(EditsOn(init, line), last);
      } else {
        Padded(EditsOn(init, line));
        Padded(AtPlace(init, line, i));
      }
    }
  }

  // Where the next edit goes, all edits made so far lie to its right.
  lemma NextIsLeft(sorted: seq<Edit>, k: nat)
    requires Descending(sorted) && ApartOnwards(sorted) && k < |sorted|
    ensures Leftmost(EditsOn(sorted[..k], sorted[k].line), sorted[k])
  {
    var e := sorted[k];
    forall f | f in EditsOn(sorted[..k], e.line)
      ensures (e.col < f.col && e.col + |e.was| <= f.col) || (e.col == f.col && e.was == [])
    {
      EditsOnMembers(sorted[..k], e.line, f);
      var i :| 0 <= i < k && sorted[..k][i] == f;
      DescendingAt(sorted, i, k);
      ApartBack(sorted, i, k);
    }
  }

  lemma EditsOnPush(edits: seq<Edit>, e: Edit, line: nat)
    ensures EditsOn(edits + [e], line) == if e.line == line then EditsOn(edits, line) + [e] else EditsOn(edits, line)
  {
    Init(edits, e);
  }

  lemma {:induction false} NothingReplaced(line: Text)
    ensures Replaced(line, []) == line
  {
    Untouched(line, [], 0, |line|);
    NothingAfter(line, []);
    assert line[0..|line|] == line;
    Padded(line);
  }

  // Lines with some edits made, against the original lines.
  ghost predicate Made(original: seq<Text>, now: seq<Text>, edits: seq<Edit>) {
    && |now| == |original|
    && forall l :: 0 <= l < |now| ==> now[l] == Replaced(original[l], EditsOn(edits, l))
  }

  lemma NothingMade(lines: seq<Text>)
    ensures Made(lines, lines, [])
  {
    hide Replaced;
    forall l | 0 <= l < |lines|
      ensures lines[l] == Replaced(lines[l], EditsOn([], l))
    {
      NothingReplaced(lines[l]);
    }
  }

  lemma OneMade(original: seq<Text>, now: seq<Text>, sorted: seq<Edit>, k: nat)
    requires Descending(sorted) && ApartOnwards(sorted) && k < |sorted| && Fits(sorted[k], original)
    requires Made(original, now, sorted[..k])
    ensures
      var e := sorted[k];
      var line := now[e.line];
      && e.col + |e.was| <= |line|
      && Made(original, now[e.line := line[..e.col] + e.text + line[e.col + |e.was|..]], sorted[..k + 1])
  {
    hide Replaced, EditsOn, Descending, ApartOnwards, Leftmost;
    var e := sorted[k];
    NextIsLeft(sorted, k);
    OneEdit(original[e.line], EditsOn(sorted[..k], e.line), e);
    var line := now[e.line];
    var made := now[e.line := line[..e.col] + e.text + line[e.col + |e.was|..]];
    forall l | 0 <= l < |made|
      ensures made[l] == Replaced(original[l], EditsOn(sorted[..k + 1], l))
    {
      NextOn(sorted, k, l);
    }
  }

  lemma NextOn(sorted: seq<Edit>, k: nat, l: nat)
    requires k < |sorted|
    ensures EditsOn(sorted[..k + 1], l) == if sorted[k].line == l then EditsOn(sorted[..k], l) + [sorted[k]] else EditsOn(sorted[..k], l)
  {
    assert sorted[..k + 1] == sorted[..k] + [sorted[k]];
    EditsOnPush(sorted[..k], sorted[k], l);
  }

  lemma AllMade(original: seq<Text>, now: seq<Text>, edits: seq<Edit>)
    requires Made(original, now, SortEdits(edits))
    ensures Made(original, now, edits)
  {
    hide Replaced, EditsOn, SortEdits;
    forall l | 0 <= l < |now|
      ensures now[l] == Replaced(original[l], EditsOn(edits, l))
    {
      ReplacedAlike(original[l], edits, l);
    }
  }

  // In place, right to left: every line ends up with all its spans replaced
  // at once, each found where the original columns say.
  method EditLines(lines: array<Text>, edits: seq<Edit>)
    requires forall e :: e in edits ==> Fits(e, lines[..])
    requires AllApart(edits)
    modifies lines
    ensures Made(old(lines[..]), lines[..], edits)
  {
    hide Made, AllApart, Descending, ApartOnwards;
    var sorted := SortEdits(edits);
    SortDescends(edits);
    ApartForward(edits);
    SortApart(edits);
    NothingMade(lines[..]);
    assert sorted[..0] == [];
    for k := 0 to |sorted|
      invariant Made(old(lines[..]), lines[..], sorted[..k])
    {
      var e := sorted[k];
      assert e in edits && Fits(e, old(lines[..]));
      OneMade(old(lines[..]), lines[..], sorted, k);
      var line := lines[e.line];
      ghost var before := lines[..];
      lines[e.line] := line[..e.col] + e.text + line[e.col + |e.was|..];
      assert lines[..] == before[e.line := line[..e.col] + e.text + line[e.col + |e.was|..]];
    }
    assert sorted[..|sorted|] == sorted;
    AllMade(old(lines[..]), lines[..], edits);
  }

  lemma ReplacedAlike(line: Text, edits: seq<Edit>, l: nat)
    ensures Replaced(line, EditsOn(edits, l)) == Replaced(line, EditsOn(SortEdits(edits), l))
  {
    hide AtColumn, SortEdits, EditsOn, From;
    var sorted := SortEdits(edits);
    SortDescends(edits);
    forall e
      ensures e in EditsOn(edits, l) <==> e in EditsOn(sorted, l)
    {
      EditsOnMembers(edits, l, e);
      EditsOnMembers(sorted, l, e);
    }
    forall k
      ensures AtColumn(EditsOn(edits, l), k) == AtColumn(EditsOn(sorted, l), k)
    {
      ColumnIsPlace(edits, l, k);
      ColumnIsPlace(sorted, l, k);
      SortKeepsPlace(edits, l, k);
    }
    FromAlike(line, EditsOn(edits, l), EditsOn(sorted, l), 0);
  }

  // One edit, made as the loop makes it.
  function Make(line: Text, e: Edit): Text
    requires e.col + |e.was| <= |line|
  {
    line[..e.col] + e.text + line[e.col + |e.was|..]
  }

  lemma TakesBoth(line: Text, e: Edit, f: Edit)
    requires |line| == 1 && e.col == f.col == 0 && e.was == [] && |f.was| == 1
    ensures Replaced(line, [e, f]) == f.text + e.text
  {
    var both := [e, f];
    assert [e] + [f] == both && [] + [e] == [e];
    InsertedPush([e], f, 0);
    InsertedPush([], e, 0);
    InsertedPush([e], f, 1);
    InsertedPush([], e, 1);
    hide Inserted;
    assert f in both && Covers(f, 0);
    assert Piece(line, both, 0) == f.text + (e.text + Inserted([], 0)) + [];
    assert Inserted([], 0) == [] by { InsertedNone([], 0); }
    assert Inserted([], 1) == [] by { InsertedNone([], 1); }
    assert Piece(line, both, 1) == [];
    assert From(line, both, 2) == [];
    assert From(line, both, 1) == [];
  }

  // In the other order it does not hold: an edit that takes something, listed
  // after one that takes nothing at its column, takes what that one inserted.
  lemma TakesTheInserted()
    ensures
      var line, e, f := [0x61], Edit(0, 0, [], [0x78]), Edit(0, 0, [0x61], [0x79]);
      && SortEdits([e, f]) == [e, f]
      && Make(Make(line, e), f) == [0x79, 0x61]
      && Replaced(line, [e, f]) == [0x79, 0x78]
  {
    var line: Text, e, f := [0x61], Edit(0, 0, [], [0x78]), Edit(0, 0, [0x61], [0x79]);
    assert [e, f][1..] == [f] && [f][1..] == [];
    assert SortEdits([f]) == InsertEdit(f, []) == [f];
    assert SortEdits([e, f]) == InsertEdit(e, [f]) == [e, f];
    assert Make(line, e) == [0x78, 0x61];
    TakesBoth(line, e, f);
  }
}
