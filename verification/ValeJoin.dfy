// Comment lines joined into one text, and the place each character came from
// (ts/scripts/vale-counts.cjs:104-118).

module ValeJoin {
  import opened Options
  import opened Text

  // A comment line and its number.
  datatype Entry = Entry(line: Text, index: nat)

  datatype Place = Place(line: nat, col: nat)

  // One character of the joined text, and where it came from.
  datatype Mark = Mark(unit: Unit, place: Option<Place>)

  // The length of a leading `#` and one blank after it.
  function Pad(line: Text): (n: nat)
    ensures n <= |line|
  {
    if line == [] || line[0] != HASH then 0
    else if |line| > 1 && IsSpace(line[1]) then 2
    else 1
  }

  // What an entry puts into the text: its line after the pad.
  function Marks(e: Entry): (r: seq<Mark>)
    ensures |r| == |e.line| - Pad(e.line)
    ensures forall i :: 0 <= i < |r| ==> r[i] == Mark(e.line[Pad(e.line) + i], Some(Place(e.index, Pad(e.line) + i)))
  {
    var pad := Pad(e.line);
    seq(|e.line| - pad, i requires 0 <= i < |e.line| - pad => Mark(e.line[pad + i], Some(Place(e.index, pad + i))))
  }

  function Between(before: seq<Mark>): seq<Mark> {
    if before == [] then [] else [Mark(SPACE, None)]
  }

  // The entries one after the other, a space between them once there is any text.
  function Joined(entries: seq<Entry>): seq<Mark> {
    if entries == [] then []
    else
      var before := Joined(entries[..|entries| - 1]);
      before + Between(before) + Marks(entries[|entries| - 1])
  }

  ghost predicate Spells(text: Text, at: seq<Option<Place>>, marks: seq<Mark>) {
    |text| == |at| == |marks| && forall k :: 0 <= k < |marks| ==> marks[k] == Mark(text[k], at[k])
  }

  // What one entry's step puts after the text and the places so far.
  lemma SpellsMore(text: Text, at: seq<Option<Place>>, marks: seq<Mark>, text': Text, at': seq<Option<Place>>, e: Entry)
    requires Spells(text, at, marks)
    requires text' == (if 0 < |text| then text + [SPACE] else text) + e.line[Pad(e.line)..]
    requires var start := |text| + |Between(marks)|;
             |at'| == |text'| && start <= |at'|
             && (forall k :: 0 <= k < start ==> at'[k] == if k < |at| then at[k] else None)
             && forall k :: start <= k < |at'| ==> at'[k] == Some(Place(e.index, Pad(e.line) + k - start))
    ensures Spells(text', at', marks + Between(marks) + Marks(e))
  {
    hide Pad;
    var all := marks + Between(marks) + Marks(e);
    var gap, body := if 0 < |text| then [SPACE] else [], e.line[Pad(e.line)..];
    assert text' == text + gap + body;
    forall k | 0 <= k < |all|
      ensures all[k] == Mark(text'[k], at'[k])
    {
      hide Marks, Between;
      AppendedAt(marks, Between(marks), Marks(e), k);
      AppendedAt(text, gap, body, k);
    }
  }

  method Join(entries: seq<Entry>) returns (text: Text, at: seq<Option<Place>>)
    ensures Spells(text, at, Joined(entries))
  {
    text, at := [], [];
    assert entries[..0] == [];
    for n := 0 to |entries|
      invariant Spells(text, at, Joined(entries[..n]))
    {
      hide Joined, Pad;
      var entry := entries[n];
      JoinedMore(entries, n);
      var pad := Pad(entry.line);
      var body := entry.line[pad..];
      ghost var textBefore, atBefore := text, at;
      if 0 < |text| {
        text := text + [SPACE];
        at := at + [None];
      }
      ghost var start := |at|;
      for i := 0 to |body|
        invariant |at| == start + i
        invariant forall k :: 0 <= k < start ==> at[k] == if k < |atBefore| then atBefore[k] else None
        invariant forall k :: start <= k < |at| ==> at[k] == Some(Place(entry.index, pad + k - start))
      {
        at := at + [Some(Place(entry.index, pad + i))];
      }
      text := text + body;
      SpellsMore(textBefore, atBefore, Joined(entries[..n]), text, at, entry);
    }
    assert entries[..|entries|] == entries;
  }

  lemma JoinedMore(entries: seq<Entry>, n: nat)
    requires n < |entries|
    ensures Joined(entries[..n + 1]) == Joined(entries[..n]) + Between(Joined(entries[..n])) + Marks(entries[n])
  {
    assert entries[..n + 1][..n] == entries[..n];
  }

  // Where an entry's characters start in the text.
  function Start(entries: seq<Entry>, j: nat): nat
    requires j < |entries|
  {
    |Joined(entries[..j])| + |Between(Joined(entries[..j]))|
  }

  lemma AppendedAt<T>(a: seq<T>, b: seq<T>, c: seq<T>, k: nat)
    requires k < |a + b + c|
    ensures (a + b + c)[k] == if k < |a| then a[k] else if k < |a| + |b| then b[k - |a|] else c[k - |a| - |b|]
  {
  }

  // Each character of the text is a separator or one of one entry's.
  lemma {:induction false} Origin(entries: seq<Entry>, n: nat, k: nat) returns (j: nat)
    requires n <= |entries| && k < |Joined(entries[..n])|
    ensures Joined(entries[..n])[k].place.None? ==> Joined(entries[..n])[k].unit == SPACE
    ensures Joined(entries[..n])[k].place.Some? ==>
              j < n && Start(entries, j) <= k < Start(entries, j) + |Marks(entries[j])|
              && Joined(entries[..n])[k] == Marks(entries[j])[k - Start(entries, j)]
    decreases n
  {
    assert n > 0;
    j := n - 1;
    var before := Joined(entries[..j]);
    JoinedMore(entries, j);
    AppendedAt(before, Between(before), Marks(entries[j]), k);
    if k < |before| {
      j := Origin(entries, j, k);
    }
  }

  // Every entry's characters stand in the text, from its start on.
  lemma {:induction false} EntryStands(entries: seq<Entry>, n: nat, j: nat, i: nat)
    requires j < n <= |entries| && i < |Marks(entries[j])|
    ensures Start(entries, j) + i < |Joined(entries[..n])|
    ensures Joined(entries[..n])[Start(entries, j) + i] == Marks(entries[j])[i]
    decreases n
  {
    hide Joined, Pad;
    var before := Joined(entries[..n - 1]);
    JoinedMore(entries, n - 1);
    if j < n - 1 {
      EntryStands(entries, n - 1, j, i);
    }
    AppendedAt(before, Between(before), Marks(entries[n - 1]), Start(entries, j) + i);
  }

  // A separator stands between the characters of two entries.
  lemma {:induction false} StartsGrow(entries: seq<Entry>, i: nat, j: nat)
    requires i < j < |entries| && Marks(entries[i]) != []
    ensures Start(entries, i) + |Marks(entries[i])| < Start(entries, j)
    decreases j
  {
    hide Joined, Marks;
    JoinedMore(entries, j - 1);
    if i < j - 1 {
      StartsGrow(entries, i, j - 1);
    }
  }

  // The entries are lines of the file, each under its own number.
  ghost predicate FromLines(entries: seq<Entry>, lines: seq<Text>) {
    forall e :: e in entries ==> e.index < |lines| && lines[e.index] == e.line
  }

  // Every entry of the map that is not empty points at its own character in
  // the line it came from; the others are separators.
  lemma PointsAtItself(entries: seq<Entry>, lines: seq<Text>, k: nat)
    requires FromLines(entries, lines) && k < |Joined(entries)|
    ensures
      match Joined(entries)[k].place
      case None => Joined(entries)[k].unit == SPACE
      case Some(p) => p.line < |lines| && p.col < |lines[p.line]| && lines[p.line][p.col] == Joined(entries)[k].unit
  {
    hide Joined, Start;
    assert entries[..|entries|] == entries;
    var j := Origin(entries, |entries|, k);
    assert Joined(entries)[k].place.Some? ==> entries[j] in entries;
  }

  // Two characters side by side that are no separators come from side by side.
  lemma Neighbours(entries: seq<Entry>, k: nat, p: Place)
    requires k + 1 < |Joined(entries)|
    requires Joined(entries)[k].place == Some(p) && Joined(entries)[k + 1].place.Some?
    ensures Joined(entries)[k + 1].place == Some(Place(p.line, p.col + 1))
  {
    hide Joined, Start, Pad;
    assert entries[..|entries|] == entries;
    var i := Origin(entries, |entries|, k);
    var j := Origin(entries, |entries|, k + 1);
    if i < j {
      StartsGrow(entries, i, j);
    } else if j < i {
      StartsGrow(entries, j, i);
    }
  }

  // A stretch of the text without spaces stands as it is in one line, from
  // the place its first character points at: a rewrite there lands on it.
  lemma {:induction false} Landing(entries: seq<Entry>, lines: seq<Text>, k: nat, w: nat)
    requires FromLines(entries, lines) && 0 < w && k + w <= |Joined(entries)|
    requires forall i :: k <= i < k + w ==> Joined(entries)[i].unit != SPACE
    ensures Joined(entries)[k].place.Some?
    ensures
      var p := Joined(entries)[k].place.value;
      && Joined(entries)[k + w - 1].place == Some(Place(p.line, p.col + w - 1))
      && p.line < |lines| && p.col + w <= |lines[p.line]|
      && forall i :: k <= i < k + w ==> lines[p.line][p.col + i - k] == Joined(entries)[i].unit
    decreases w
  {
    hide Joined, FromLines;
    PointsAtItself(entries, lines, k + w - 1);
    if w > 1 {
      Landing(entries, lines, k, w - 1);
      var p := Joined(entries)[k].place.value;
      Neighbours(entries, k + w - 2, Place(p.line, p.col + w - 2));
    }
  }
}
