// The render machine against half-built trees: what it has read is always the
// beginning of one tree, its stack is that tree's open containers and its text
// is that tree's print so far.

module RenderProofs {
  import opened Text
  import opened Trees
  import opened Render

  // An open container with what it already holds; OpenPair has a key written.
  datatype Open =
    | OpenArr(items: seq<Tree>)
    | OpenObj(members: seq<Member>)
    | OpenPair(members: seq<Member>, name: Text)

  // A half-built document: `root` are the completed elements of the root
  // array, `opens` the containers open below it, outermost first.
  datatype Partial =
    | Unstarted
    | Within(root: seq<Tree>, opens: seq<Open>)
    | Complete(root: seq<Tree>)

  // Only an array or a pair can hold an open container.
  ghost predicate Valid(p: Partial) {
    p.Within? ==> forall i :: 0 <= i < |p.opens| - 1 ==> !p.opens[i].OpenObj?
  }

  ghost predicate ValueDue(opens: seq<Open>) {
    opens == [] || !opens[|opens| - 1].OpenObj?
  }

  ghost function Plug(root: seq<Tree>, opens: seq<Open>, t: Tree): Partial
    requires ValueDue(opens)
  {
    if opens == [] then Within(root + [t], [])
    else
      var n := |opens| - 1;
      match opens[n]
      case OpenArr(items) => Within(root, opens[..n] + [OpenArr(items + [t])])
      case OpenPair(members, name) => Within(root, opens[..n] + [OpenObj(members + [Member(name, t)])])
  }

  datatype Absorbed = Grown(p: Partial) | Misfit

  // The half-built document one event later, if the event fits.
  ghost function Absorb(p: Partial, event: Event): Absorbed {
    match p
    case Unstarted => if event == ArrayStart then Grown(Within([], [])) else Misfit
    case Complete(_) => Misfit
    case Within(root, opens) =>
      var n := |opens| - 1;
      match event
      case ArrayStart => if ValueDue(opens) then Grown(Within(root, opens + [OpenArr([])])) else Misfit
      case ObjectStart => if ValueDue(opens) then Grown(Within(root, opens + [OpenObj([])])) else Misfit
      case ScalarEvent(scalar) => if ValueDue(opens) then Grown(Plug(root, opens, Leaf(scalar))) else Misfit
      case Key(name) =>
        if !ValueDue(opens) then Grown(Within(root, opens[..n] + [OpenPair(opens[n].members, name)])) else Misfit
      case ObjectEnd =>
        if !ValueDue(opens) && ValueDue(opens[..n]) then Grown(Plug(root, opens[..n], Obj(opens[n].members))) else Misfit
      case ArrayEnd =>
        if opens == [] then Grown(Complete(root))
        else if opens[n].OpenArr? && ValueDue(opens[..n]) then Grown(Plug(root, opens[..n], Arr(opens[n].items)))
        else Misfit
  }

  // Absorption at the innermost container, named apart from those outside it.
  lemma PlugLast(root: seq<Tree>, below: seq<Open>, o: Open, t: Tree)
    ensures o.OpenArr? ==> Plug(root, below + [o], t) == Within(root, below + [OpenArr(o.items + [t])])
    ensures o.OpenPair? ==> Plug(root, below + [o], t) == Within(root, below + [OpenObj(o.members + [Member(o.name, t)])])
  {
    Init(below, o);
  }

  lemma CloseLast(root: seq<Tree>, below: seq<Open>, o: Open)
    requires ValueDue(below)
    ensures o.OpenArr? ==> Absorb(Within(root, below + [o]), ArrayEnd) == Grown(Plug(root, below, Arr(o.items)))
    ensures o.OpenObj? ==> Absorb(Within(root, below + [o]), ObjectEnd) == Grown(Plug(root, below, Obj(o.members)))
  {
    hide Plug;
    Init(below, o);
  }

  lemma KeyLast(root: seq<Tree>, below: seq<Open>, members: seq<Member>, name: Text)
    ensures Absorb(Within(root, below + [OpenObj(members)]), Key(name)) == Grown(Within(root, below + [OpenPair(members, name)]))
  {
    hide Plug;
    Init(below, OpenObj(members));
  }

  // The events of a half-built document, each container's after those outside it.
  ghost function OpenLinear(before: seq<Event>, o: Open): seq<Event> {
    match o
    case OpenArr(items) => before + [ArrayStart] + LinearItems(items)
    case OpenObj(members) => before + [ObjectStart] + LinearMembers(members)
    case OpenPair(members, name) => before + [ObjectStart] + LinearMembers(members) + [Key(name)]
  }

  ghost function OpensLinear(before: seq<Event>, opens: seq<Open>): seq<Event> {
    if opens == [] then before
    else OpenLinear(OpensLinear(before, opens[..|opens| - 1]), opens[|opens| - 1])
  }

  ghost function PartialLinear(p: Partial): seq<Event> {
    match p
    case Unstarted => []
    case Within(root, opens) => OpensLinear([ArrayStart] + LinearItems(root), opens)
    case Complete(root) => [ArrayStart] + LinearItems(root) + [ArrayEnd]
  }

  lemma OpensLinearPush(before: seq<Event>, opens: seq<Open>, o: Open)
    ensures OpensLinear(before, opens + [o]) == OpenLinear(OpensLinear(before, opens), o)
  {
    assert (opens + [o])[..|opens|] == opens;
  }

  lemma OpenArrGrows(before: seq<Event>, items: seq<Tree>, t: Tree)
    ensures OpenLinear(before, OpenArr(items + [t])) == OpenLinear(before, OpenArr(items)) + Linear(t)
  {
    LinearItemsPush(items, t);
  }

  lemma OpenObjGrows(before: seq<Event>, members: seq<Member>, name: Text, t: Tree)
    ensures OpenLinear(before, OpenObj(members + [Member(name, t)])) ==
            OpenLinear(before, OpenPair(members, name)) + Linear(t)
  {
    LinearMembersPush(members, name, t);
  }

  lemma PlugLinear(root: seq<Tree>, opens: seq<Open>, t: Tree)
    requires ValueDue(opens)
    ensures PartialLinear(Plug(root, opens, t)) == PartialLinear(Within(root, opens)) + Linear(t)
  {
    hide Linear, LinearItems, LinearMembers, OpenLinear;
    if opens == [] {
      LinearItemsPush(root, t);
      Assoc([ArrayStart], LinearItems(root), Linear(t));
    } else {
      var n := |opens| - 1;
      var start := [ArrayStart] + LinearItems(root);
      var before := OpensLinear(start, opens[..n]);
      match opens[n]
      case OpenArr(items) =>
        OpensLinearPush(start, opens[..n], OpenArr(items + [t]));
        OpenArrGrows(before, items, t);
      case OpenPair(members, name) =>
        OpensLinearPush(start, opens[..n], OpenObj(members + [Member(name, t)]));
        OpenObjGrows(before, members, name, t);
    }
  }

  lemma ClosedArr(before: seq<Event>, items: seq<Tree>)
    ensures before + Linear(Arr(items)) == OpenLinear(before, OpenArr(items)) + [ArrayEnd]
  {
  }

  lemma ClosedObj(before: seq<Event>, members: seq<Member>)
    ensures before + Linear(Obj(members)) == OpenLinear(before, OpenObj(members)) + [ObjectEnd]
  {
  }

  lemma CloseLinear(root: seq<Tree>, below: seq<Open>, o: Open)
    requires ValueDue(below)
    ensures o.OpenArr? ==> PartialLinear(Plug(root, below, Arr(o.items))) ==
                           PartialLinear(Within(root, below + [o])) + [ArrayEnd]
    ensures o.OpenObj? ==> PartialLinear(Plug(root, below, Obj(o.members))) ==
                           PartialLinear(Within(root, below + [o])) + [ObjectEnd]
  {
    hide Plug, OpensLinear;
    var start := [ArrayStart] + LinearItems(root);
    OpensLinearPush(start, below, o);
    match o
    case OpenArr(items) =>
      PlugLinear(root, below, Arr(items));
      ClosedArr(OpensLinear(start, below), items);
    case OpenObj(members) =>
      PlugLinear(root, below, Obj(members));
      ClosedObj(OpensLinear(start, below), members);
    case OpenPair(_, _) =>
  }

  // Absorbing an event adds exactly that event.
  lemma AbsorbLinear(p: Partial, event: Event)
    requires Absorb(p, event).Grown?
    ensures PartialLinear(Absorb(p, event).p) == PartialLinear(p) + [event]
  {
    if p.Within? {
      hide Plug, Linear, LinearItems, LinearMembers;
      var root, opens := p.root, p.opens;
      var n := |opens| - 1;
      var start := [ArrayStart] + LinearItems(root);
      assert opens != [] ==> opens == opens[..n] + [opens[n]];
      match event
      case ArrayStart => OpensLinearPush(start, opens, OpenArr([]));
      case ObjectStart => OpensLinearPush(start, opens, OpenObj([]));
      case ScalarEvent(scalar) => ScalarLinear(root, opens, scalar);
      case Key(name) => OpensLinearPush(start, opens[..n], OpenPair(opens[n].members, name));
      case ObjectEnd => CloseLinear(root, opens[..n], opens[n]);
      case ArrayEnd =>
        if opens != [] {
          CloseLinear(root, opens[..n], opens[n]);
        }
    }
  }

  lemma ScalarLinear(root: seq<Tree>, opens: seq<Open>, scalar: Scalar)
    requires ValueDue(opens)
    ensures PartialLinear(Plug(root, opens, Leaf(scalar))) == PartialLinear(Within(root, opens)) + [ScalarEvent(scalar)]
  {
    PlugLinear(root, opens, Leaf(scalar));
  }

  // The markers of a half-built document.
  ghost function MarkerOf(o: Open, isTop: bool): Marker {
    match o
    case OpenArr(items) => if items == [] && isTop then ArrayOpen else ArrayMark
    case OpenObj(members) => if members == [] then ObjectOpen else ObjectMark
    case OpenPair(_, _) => MemberMark
  }

  // The markers of containers that all hold, or are about to hold, something.
  ghost function Taken(opens: seq<Open>): Stack {
    if opens == [] then [LinesMark]
    else Taken(opens[..|opens| - 1]) + [MarkerOf(opens[|opens| - 1], false)]
  }

  ghost function Markers(p: Partial): Stack {
    match p
    case Unstarted => []
    case Complete(_) => [RootDone]
    case Within(root, opens) =>
      if opens == [] then [if root == [] then LinesOpen else LinesMark]
      else Taken(opens[..|opens| - 1]) + [MarkerOf(opens[|opens| - 1], true)]
  }

  // The print of the element still open, each container's after those outside it.
  ghost function LeadOf(opens: seq<Open>): Text {
    if opens != [] && opens[|opens| - 1].OpenArr? && opens[|opens| - 1].items != [] then [COMMA] else []
  }

  ghost function OpenText(before: Text, o: Open): Text {
    match o
    case OpenArr(items) => before + [BRACKET_OPEN] + PrintItems(items)
    case OpenObj(members) => before + [BRACE_OPEN] + PrintMembers(members)
    case OpenPair(members, name) =>
      before + [BRACE_OPEN] + PrintMembers(members) + (if members == [] then [] else [COMMA]) + Quoted(name) + [COLON]
  }

  ghost function OpensText(opens: seq<Open>): Text {
    if opens == [] then []
    else
      var below := opens[..|opens| - 1];
      OpenText(OpensText(below) + LeadOf(below), opens[|opens| - 1])
  }

  // What a writer that received p's text has released and holds.
  ghost function WriterOf(p: Partial): Writer {
    match p
    case Unstarted => Writer([], [], 0)
    case Within(root, opens) => Writer(PrintLines(root), OpensText(opens), |root| + 1)
    case Complete(root) => Writer(PrintLines(root), if root == [] then [LF] else [], |root| + 1)
  }

  lemma OpensTextPush(opens: seq<Open>, o: Open)
    ensures OpensText(opens + [o]) == OpenText(OpensText(opens) + LeadOf(opens), o)
  {
    assert (opens + [o])[..|opens|] == opens;
  }

  lemma ItemTextGrows(before: Text, items: seq<Tree>, t: Tree)
    ensures OpenText(before, OpenArr(items + [t])) ==
            OpenText(before, OpenArr(items)) + (if items == [] then [] else [COMMA]) + Print(t)
  {
    var start, comma: Text := before + [BRACKET_OPEN], if items == [] then [] else [COMMA];
    Init(items, t);
    assert PrintItems(items + [t]) == PrintItems(items) + comma + Print(t);
    Assoc(start, PrintItems(items) + comma, Print(t));
    Assoc(start, PrintItems(items), comma);
  }

  lemma MemberTextGrows(before: Text, members: seq<Member>, name: Text, t: Tree)
    ensures OpenText(before, OpenObj(members + [Member(name, t)])) ==
            OpenText(before, OpenPair(members, name)) + Print(t)
  {
    var start, comma: Text := before + [BRACE_OPEN], if members == [] then [] else [COMMA];
    Init(members, Member(name, t));
    var parts := PrintMembers(members) + comma + Quoted(name) + [COLON];
    assert PrintMembers(members + [Member(name, t)]) == parts + Print(t);
    Assoc(start, parts, Print(t));
    Assoc(start, PrintMembers(members) + comma + Quoted(name), [COLON]);
    Assoc(start, PrintMembers(members) + comma, Quoted(name));
    Assoc(start, PrintMembers(members), comma);
  }

  // A completed value's text is its lead and its print.
  lemma PlugText(root: seq<Tree>, opens: seq<Open>, t: Tree)
    requires ValueDue(opens) && opens != []
    ensures OpensText(Plug(root, opens, t).opens) == OpensText(opens) + LeadOf(opens) + Print(t)
  {
    var n := |opens| - 1;
    var before := OpensText(opens[..n]) + LeadOf(opens[..n]);
    match opens[n]
    case OpenArr(items) =>
      OpensTextPush(opens[..n], OpenArr(items + [t]));
      ItemTextGrows(before, items, t);
    case OpenPair(members, name) =>
      OpensTextPush(opens[..n], OpenObj(members + [Member(name, t)]));
      MemberTextGrows(before, members, name, t);
  }

  // The markers around an open container.
  lemma MarkersOpen(root: seq<Tree>, opens: seq<Open>, o: Open)
    ensures Markers(Within(root, opens + [o])) == Taken(opens) + [MarkerOf(o, true)]
  {
    assert (opens + [o])[..|opens|] == opens;
  }

  lemma PushPop(s: Stack, m: Marker)
    ensures Pop(s + [m]) == s && Top(s + [m]) == m
  {
  }

  lemma MarkersTaken(root: seq<Tree>, opens: seq<Open>)
    requires ValueDue(opens)
    ensures Opened(Markers(Within(root, opens))) == Taken(opens)
  {
    if opens != [] {
      PushPop(Taken(opens[..|opens| - 1]), MarkerOf(opens[|opens| - 1], true));
    }
  }

  lemma MarkersPlugLast(root: seq<Tree>, below: seq<Open>, o: Open, t: Tree)
    requires !o.OpenObj?
    ensures Done(Taken(below + [o])) == Markers(Plug(root, below + [o], t))
  {
    hide Plug, Markers;
    Init(below, o);
    PlugLast(root, below, o, t);
    PushPop(Taken(below), MarkerOf(o, false));
    match o
    case OpenArr(items) => MarkersOpen(root, below, OpenArr(items + [t]));
    case OpenPair(members, name) => MarkersOpen(root, below, OpenObj(members + [Member(name, t)]));
  }

  lemma MarkersPlug(root: seq<Tree>, opens: seq<Open>, t: Tree)
    requires ValueDue(opens)
    ensures Done(Taken(opens)) == Markers(Plug(root, opens, t))
  {
    if opens != [] {
      var n := |opens| - 1;
      assert opens == opens[..n] + [opens[n]];
      MarkersPlugLast(root, opens[..n], opens[n], t);
    }
  }

  lemma FeedPush(outs: seq<Out>, o: Out)
    ensures Feed(outs + [o]) == Receive(Feed(outs), o)
  {
    assert (outs + [o])[..|outs|] == outs;
  }

  lemma Feed2(outs: seq<Out>, a: Out, b: Out)
    ensures Feed(outs + [a, b]) == Receive(Receive(Feed(outs), a), b)
  {
    FeedPush(outs, a);
    FeedPush(outs + [a], b);
    assert outs + [a, b] == outs + [a] + [b];
  }

  lemma Feed3(outs: seq<Out>, a: Out, b: Out, c: Out)
    ensures Feed(outs + [a, b, c]) == Receive(Receive(Receive(Feed(outs), a), b), c)
  {
    Feed2(outs, a, b);
    FeedPush(outs + [a, b], c);
    assert outs + [a, b, c] == outs + [a, b] + [c];
  }

  // Only an element of the root ends a line and a record.
  ghost function Closing(opens: seq<Open>): seq<Out> {
    if opens == [] then [Write([LF]), RecordEnd] else [Write([])]
  }

  lemma ClosingOf(root: seq<Tree>, opens: seq<Open>, s: Stack, step: seq<Out>)
    requires ValueDue(opens)
    requires s == Markers(Within(root, opens)) || s == Taken(opens)
    ensures Lead(Markers(Within(root, opens))) == LeadOf(opens)
    ensures Ended(s, step + [Write(Tail(s))]) == step + Closing(opens)
  {
  }

  lemma FeedLineEnd(outs: seq<Out>)
    ensures Feed(outs + [Write([LF]), RecordEnd]) ==
            Writer(Feed(outs).committed + (Feed(outs).held + [LF]), [], Feed(outs).ends + 1)
  {
    Feed2(outs, Write([LF]), RecordEnd);
  }

  lemma PrintLinesPush(root: seq<Tree>, t: Tree)
    ensures PrintLines(root + [t]) == PrintLines(root) + (Print(t) + [LF])
  {
    assert (root + [t])[..|root|] == root;
  }

  // A value whose text is written: its line, at the root, ends with it.
  lemma ValueWritten(root: seq<Tree>, opens: seq<Open>, t: Tree, outs: seq<Out>)
    requires ValueDue(opens)
    requires Feed(outs) == Writer(PrintLines(root), OpensText(opens) + LeadOf(opens) + Print(t), |root| + 1)
    ensures Feed(outs + Closing(opens)) == WriterOf(Plug(root, opens, t))
  {
    hide Feed, Print, PrintLines;
    if opens == [] {
      assert OpensText(opens) + LeadOf(opens) + Print(t) == Print(t);
      FeedLineEnd(outs);
      PrintLinesPush(root, t);
    } else {
      FeedPush(outs, Write([]));
      PlugText(root, opens, t);
    }
  }

  // The machine has read p: its stack is p's and its writer holds p's text.
  ghost predicate Reads(p: Partial, stack: Stack, outs: seq<Out>) {
    Valid(p) && stack == Markers(p) && Feed(outs) == WriterOf(p)
  }

  // How one step must answer when the machine has read p.
  ghost predicate Follows(p: Partial, outs: seq<Out>, event: Event, result: StepResult) {
    match Absorb(p, event)
    case Grown(q) => result.Transition? && Reads(q, result.stack, outs + result.outputs)
    case Misfit =>
      result == Fail(if p.Unstarted? && (event.ObjectStart? || event.ScalarEvent?) then Unrepresentable else ProtocolOrder)
  }

  lemma AbsorbValid(p: Partial, event: Event)
    requires Valid(p) && Absorb(p, event).Grown?
    ensures Valid(Absorb(p, event).p)
  {
  }

  lemma GrownFollows(p: Partial, outs: seq<Out>, event: Event, q: Partial, stack: Stack, outputs: seq<Out>)
    requires Valid(p) && Absorb(p, event) == Grown(q)
    requires stack == Markers(q) && Feed(outs + outputs) == WriterOf(q)
    ensures Follows(p, outs, event, Transition(stack, outputs))
  {
    AbsorbValid(p, event);
  }

  // Where a value is due the top marker takes one, and nowhere else.
  lemma ValueDueTop(root: seq<Tree>, opens: seq<Open>)
    ensures var s := Markers(Within(root, opens));
            s != [] && Top(s) != RootDone && ValueMayBegin(s) == ValueDue(opens)
  {
  }

  lemma ValueFed(root: seq<Tree>, opens: seq<Open>, t: Tree, outs: seq<Out>, step: seq<Out>)
    requires ValueDue(opens)
    requires Feed(outs + step) == Writer(PrintLines(root), OpensText(opens) + LeadOf(opens) + Print(t), |root| + 1)
    ensures Feed(outs + (step + Closing(opens))) == WriterOf(Plug(root, opens, t))
  {
    ValueWritten(root, opens, t, outs + step);
    assert outs + (step + Closing(opens)) == outs + step + Closing(opens);
  }

  // A step that completes value t in the container opens, when all but its
  // closing outputs are written.
  lemma ValueFollows(p: Partial, outs: seq<Out>, event: Event, root: seq<Tree>, opens: seq<Open>, t: Tree, step: seq<Out>)
    requires ValueDue(opens) && Valid(p)
    requires Absorb(p, event) == Grown(Plug(root, opens, t))
    requires Feed(outs + step) == Writer(PrintLines(root), OpensText(opens) + LeadOf(opens) + Print(t), |root| + 1)
    ensures Follows(p, outs, event, Transition(Done(Taken(opens)), step + Closing(opens)))
  {
    ValueFed(root, opens, t, outs, step);
    MarkersPlug(root, opens, t);
    GrownFollows(p, outs, event, Plug(root, opens, t), Done(Taken(opens)), step + Closing(opens));
  }

  lemma StepScalar(root: seq<Tree>, opens: seq<Open>, outs: seq<Out>, scalar: Scalar)
    requires Reads(Within(root, opens), Markers(Within(root, opens)), outs)
    ensures Follows(Within(root, opens), outs, ScalarEvent(scalar), Step(Markers(Within(root, opens)), ScalarEvent(scalar)))
  {
    var p := Within(root, opens);
    var s := Markers(p);
    ValueDueTop(root, opens);
    if ValueDue(opens) {
      var step := [Write(Lead(s)), Write(PrintScalar(scalar))];
      ClosingOf(root, opens, s, step);
      MarkersTaken(root, opens);
      assert step + [Write(Tail(s))] == [Write(Lead(s)), Write(PrintScalar(scalar)), Write(Tail(s))];
      assert Step(s, ScalarEvent(scalar)) == Transition(Done(Opened(s)), step + Closing(opens));
      Feed2(outs, Write(Lead(s)), Write(PrintScalar(scalar)));
      ValueFollows(p, outs, ScalarEvent(scalar), root, opens, Leaf(scalar), step);
    }
  }

  // A container starts: its text so far is its lead and its bracket.
  lemma StartFed(root: seq<Tree>, opens: seq<Open>, o: Open, bracket: Text, outs: seq<Out>)
    requires (o == OpenArr([]) && bracket == [BRACKET_OPEN]) || (o == OpenObj([]) && bracket == [BRACE_OPEN])
    requires Feed(outs) == WriterOf(Within(root, opens))
    ensures Feed(outs + [Write(LeadOf(opens)), Write(bracket)]) == WriterOf(Within(root, opens + [o]))
  {
    Feed2(outs, Write(LeadOf(opens)), Write(bracket));
    OpensTextPush(opens, o);
  }

  lemma StepStart(root: seq<Tree>, opens: seq<Open>, outs: seq<Out>, event: Event)
    requires Reads(Within(root, opens), Markers(Within(root, opens)), outs)
    requires event.ArrayStart? || event.ObjectStart?
    ensures Follows(Within(root, opens), outs, event, Step(Markers(Within(root, opens)), event))
  {
    var p := Within(root, opens);
    var s := Markers(p);
    ValueDueTop(root, opens);
    if ValueDue(opens) {
      var o := if event.ArrayStart? then OpenArr([]) else OpenObj([]);
      var bracket := if event.ArrayStart? then [BRACKET_OPEN] else [BRACE_OPEN];
      var q := Within(root, opens + [o]);
      ClosingOf(root, opens, s, []);
      StartFed(root, opens, o, bracket, outs);
      MarkersTaken(root, opens);
      MarkersOpen(root, opens, o);
      GrownFollows(p, outs, event, q, Markers(q), [Write(Lead(s)), Write(bracket)]);
    }
  }

  lemma KeyFed(root: seq<Tree>, below: seq<Open>, members: seq<Member>, name: Text, outs: seq<Out>)
    requires Feed(outs) == WriterOf(Within(root, below + [OpenObj(members)]))
    ensures Feed(outs + KeyOutputs(members, name)) == WriterOf(Within(root, below + [OpenPair(members, name)]))
  {
    OpensTextPush(below, OpenObj(members));
    OpensTextPush(below, OpenPair(members, name));
    KeyText(OpensText(below) + LeadOf(below), members, name);
    if members == [] {
      Feed2(outs, Write(Quoted(name)), Write([COLON]));
    } else {
      Feed3(outs, Write([COMMA]), Write(Quoted(name)), Write([COLON]));
    }
  }

  ghost function KeyOutputs(members: seq<Member>, name: Text): seq<Out> {
    if members == [] then [Write(Quoted(name)), Write([COLON])]
    else [Write([COMMA]), Write(Quoted(name)), Write([COLON])]
  }

  lemma KeyText(before: Text, members: seq<Member>, name: Text)
    ensures OpenText(before, OpenPair(members, name)) ==
            if members == [] then OpenText(before, OpenObj(members)) + Quoted(name) + [COLON]
            else OpenText(before, OpenObj(members)) + [COMMA] + Quoted(name) + [COLON]
  {
  }

  lemma StepKey(root: seq<Tree>, below: seq<Open>, members: seq<Member>, outs: seq<Out>, name: Text)
    requires Reads(Within(root, below + [OpenObj(members)]), Markers(Within(root, below + [OpenObj(members)])), outs)
    ensures Follows(Within(root, below + [OpenObj(members)]), outs, Key(name),
                    Step(Markers(Within(root, below + [OpenObj(members)])), Key(name)))
  {
    hide Feed, WriterOf, Quoted, Taken, Absorb;
    var p, q := Within(root, below + [OpenObj(members)]), Within(root, below + [OpenPair(members, name)]);
    KeyFed(root, below, members, name, outs);
    MarkersOpen(root, below, OpenObj(members));
    MarkersOpen(root, below, OpenPair(members, name));
    PushPop(Taken(below), MarkerOf(OpenObj(members), true));
    KeyLast(root, below, members, name);
    GrownFollows(p, outs, Key(name), q, Markers(q), KeyOutputs(members, name));
  }

  // A container ends: its text is complete and it is plugged in below.
  lemma ClosedText(before: Text, o: Open)
    requires o.OpenArr? || o.OpenObj?
    ensures o.OpenArr? ==> OpenText(before, o) + [BRACKET_CLOSE] == before + Print(Arr(o.items))
    ensures o.OpenObj? ==> OpenText(before, o) + [BRACE_CLOSE] == before + Print(Obj(o.members))
  {
  }

  lemma EndFed(root: seq<Tree>, below: seq<Open>, o: Open, t: Tree, bracket: Text, outs: seq<Out>)
    requires (o.OpenArr? && t == Arr(o.items) && bracket == [BRACKET_CLOSE]) ||
             (o.OpenObj? && t == Obj(o.members) && bracket == [BRACE_CLOSE])
    requires Feed(outs) == WriterOf(Within(root, below + [o]))
    ensures Feed(outs + [Write(bracket)]) == Writer(PrintLines(root), OpensText(below) + LeadOf(below) + Print(t), |root| + 1)
  {
    hide Feed, Print, PrintLines, OpenText, OpensText, LeadOf;
    FeedPush(outs, Write(bracket));
    OpensTextPush(below, o);
    ClosedText(OpensText(below) + LeadOf(below), o);
  }

  lemma EndStep(root: seq<Tree>, below: seq<Open>, o: Open, bracket: Text)
    requires ValueDue(below)
    requires (o.OpenArr? && bracket == [BRACKET_CLOSE]) || (o.OpenObj? && bracket == [BRACE_CLOSE])
    ensures Step(Markers(Within(root, below + [o])), if o.OpenArr? then ArrayEnd else ObjectEnd) ==
            Transition(Done(Taken(below)), [Write(bracket)] + Closing(below))
  {
    hide Taken, Closing, Done, Ended, Tail;
    MarkersOpen(root, below, o);
    PushPop(Taken(below), MarkerOf(o, true));
    ClosingOf(root, below, Taken(below), [Write(bracket)]);
    assert [Write(bracket)] + [Write(Tail(Taken(below)))] == [Write(bracket), Write(Tail(Taken(below)))];
  }

  lemma StepEnd(root: seq<Tree>, below: seq<Open>, o: Open, outs: seq<Out>, event: Event)
    requires ValueDue(below) && (o.OpenArr? || o.OpenObj?)
    requires event == if o.OpenArr? then ArrayEnd else ObjectEnd
    requires Reads(Within(root, below + [o]), Markers(Within(root, below + [o])), outs)
    ensures Follows(Within(root, below + [o]), outs, event, Step(Markers(Within(root, below + [o])), event))
  {
    hide Feed, WriterOf, Taken, Print, PrintLines, OpensText, LeadOf, Follows, Closing, Step, Markers, Absorb, Done;
    var t := if o.OpenArr? then Arr(o.items) else Obj(o.members);
    var bracket := if o.OpenArr? then [BRACKET_CLOSE] else [BRACE_CLOSE];
    EndStep(root, below, o, bracket);
    EndFed(root, below, o, t, bracket, outs);
    CloseLast(root, below, o);
    ValueFollows(Within(root, below + [o]), outs, event, root, below, t, [Write(bracket)]);
  }

  lemma StepMisfit(root: seq<Tree>, opens: seq<Open>, outs: seq<Out>, event: Event)
    requires match event
             case ArrayEnd => opens == [] || !opens[|opens| - 1].OpenArr?
             case ObjectEnd => ValueDue(opens)
             case Key(_) => ValueDue(opens)
             case _ => false
    requires Reads(Within(root, opens), Markers(Within(root, opens)), outs)
    ensures Follows(Within(root, opens), outs, event, Step(Markers(Within(root, opens)), event))
  {
    if opens == [] && event == ArrayEnd {
      FeedPush(outs, Write([LF]));
      assert outs + [] == outs;
    }
  }

  // One step: the machine accepts an event exactly when it fits the tree so
  // far, and what it then writes, holds back and pushes is what that tree says.
  lemma StepFollows(p: Partial, stack: Stack, outs: seq<Out>, event: Event)
    requires Reads(p, stack, outs)
    ensures Follows(p, outs, event, Step(stack, event))
  {
    match p
    case Unstarted => FeedPush(outs, RecordEnd);
    case Complete(_) =>
    case Within(root, opens) =>
      var n := |opens| - 1;
      assert opens != [] ==> opens == opens[..n] + [opens[n]];
      match event
      case ScalarEvent(scalar) => StepScalar(root, opens, outs, scalar);
      case ArrayStart => StepStart(root, opens, outs, event);
      case ObjectStart => StepStart(root, opens, outs, event);
      case Key(name) =>
        if ValueDue(opens) {
          StepMisfit(root, opens, outs, event);
        } else {
          StepKey(root, opens[..n], opens[n].members, outs, name);
        }
      case ArrayEnd =>
        if opens != [] && opens[n].OpenArr? {
          StepEnd(root, opens[..n], opens[n], outs, event);
        } else {
          StepMisfit(root, opens, outs, event);
        }
      case ObjectEnd =>
        if opens != [] && opens[n].OpenObj? {
          StepEnd(root, opens[..n], opens[n], outs, event);
        } else {
          StepMisfit(root, opens, outs, event);
        }
  }
}
