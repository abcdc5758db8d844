// What the render accepts and what it writes, over whole runs.

module RenderTheorems {
  import opened Text
  import opened Trees
  import opened Render
  import opened RenderProofs

  // Containers opened and not ended by a list of events.
  function Nesting(events: seq<Event>): int {
    if events == [] then 0
    else Nesting(events[..|events| - 1]) +
         (match events[|events| - 1]
          case ArrayStart => 1
          case ObjectStart => 1
          case ArrayEnd => -1
          case ObjectEnd => -1
          case _ => 0)
  }

  ghost function Height(p: Partial): nat {
    if p.Within? then 1 + |p.opens| else 0
  }

  // The machine has read the first k events, the beginning p of a document:
  // all of them, or all before the first that does not fit.
  ghost predicate HasRead(events: seq<Event>, p: Partial, k: nat) {
    && k <= |events|
    && events[..k] == PartialLinear(p)
    && Reads(p, ScanEmit(events).stack, ScanEmit(events).outs)
    && Nesting(events[..k]) == Height(p)
    && (match ScanEmit(events).failure
        case NoFailure => k == |events|
        case FailedWith(code) =>
          && k < |events|
          && Absorb(p, events[k]).Misfit?
          && (code == Unrepresentable <==> k == 0 && (events[0].ObjectStart? || events[0].ScalarEvent?)))
  }

  // After any events, also ones that then fail, the machine has read the
  // longest beginning of them that begins a document: the writer has released
  // exactly the lines of the completed root elements, with one more record end
  // than elements, and holds the print of the element still open.
  lemma {:induction false} ScanReads(events: seq<Event>) returns (p: Partial, k: nat)
    ensures HasRead(events, p, k)
    decreases |events|
  {
    hide HasRead;
    if events == [] {
      NothingRead();
      return Unstarted, 0;
    }
    var init, last := events[..|events| - 1], events[|events| - 1];
    p, k := ScanReads(init);
    assert events == init + [last];
    p, k := ReadOn(init, p, k, last);
  }

  lemma NothingRead()
    ensures HasRead([], Unstarted, 0)
  {
  }

  lemma ReadOn(events: seq<Event>, p: Partial, k: nat, last: Event) returns (q: Partial, j: nat)
    requires HasRead(events, p, k)
    ensures HasRead(events + [last], q, j)
  {
    q, j := p, k;
    if ScanEmit(events).failure != NoFailure {
      StillStopped(events, p, k, last);
    } else {
      assert k == |events|;
      hide *;
      match Absorb(p, last)
      case Misfit => ReadMisfit(events, p, last);
      case Grown(grown) =>
        ReadFit(events, p, last);
        q, j := grown, |events| + 1;
    }
  }

  lemma StillStopped(events: seq<Event>, p: Partial, k: nat, last: Event)
    requires HasRead(events, p, k) && ScanEmit(events).failure != NoFailure
    ensures HasRead(events + [last], p, k)
  {
    hide Step, Feed, Markers, WriterOf, PartialLinear, Absorb, Nesting;
    Init(events, last);
    assert (events + [last])[..k] == events[..k];
    assert (events + [last])[k] == events[k] && (events + [last])[0] == events[0];
  }

  lemma ReadMisfit(events: seq<Event>, p: Partial, last: Event)
    requires HasRead(events, p, |events|) && ScanEmit(events).failure == NoFailure
    requires Absorb(p, last).Misfit?
    ensures HasRead(events + [last], p, |events|)
  {
    Init(events, last);
    assert events[..|events|] == events;
    UnstartedOnly(p);
    StepFollows(p, ScanEmit(events).stack, ScanEmit(events).outs, last);
    hide Step, Feed, Markers, WriterOf, PartialLinear, Absorb, Nesting;
  }

  lemma ReadFit(events: seq<Event>, p: Partial, last: Event)
    requires HasRead(events, p, |events|) && ScanEmit(events).failure == NoFailure
    requires Absorb(p, last).Grown?
    ensures HasRead(events + [last], Absorb(p, last).p, |events| + 1)
  {
    hide Step, Feed, Markers, WriterOf, PartialLinear, Absorb;
    Init(events, last);
    assert events[..|events|] == events;
    assert (events + [last])[..|events| + 1] == events + [last];
    StepFollows(p, ScanEmit(events).stack, ScanEmit(events).outs, last);
    AbsorbLinear(p, last);
    AbsorbHeight(p, last);
    NestingPush(events, last);
  }

  lemma NestingPush(events: seq<Event>, last: Event)
    ensures Nesting(events + [last]) == Nesting(events) + Nesting([last])
  {
    Init(events, last);
    assert [last][..0] == [];
  }

  lemma UnstartedOnly(p: Partial)
    ensures PartialLinear(p) == [] <==> p.Unstarted?
  {
    if p.Within? {
      OpensLinearGrows([ArrayStart] + LinearItems(p.root), p.opens);
    }
  }

  lemma {:induction false} OpensLinearGrows(before: seq<Event>, opens: seq<Open>)
    ensures |OpensLinear(before, opens)| >= |before|
  {
    if opens != [] {
      OpensLinearGrows(before, opens[..|opens| - 1]);
    }
  }

  lemma AbsorbHeight(p: Partial, event: Event)
    requires Absorb(p, event).Grown?
    ensures Height(Absorb(p, event).p) == Height(p) + Nesting([event])
  {
    assert [event][..0] == [];
  }

  // Absorbing a list of events.
  ghost function AbsorbAll(p: Partial, events: seq<Event>): Absorbed {
    if events == [] then Grown(p)
    else match AbsorbAll(p, events[..|events| - 1])
      case Misfit => Misfit
      case Grown(q) => Absorb(q, events[|events| - 1])
  }

  lemma {:induction false} AbsorbAppend(p: Partial, a: seq<Event>, b: seq<Event>)
    requires AbsorbAll(p, a).Grown?
    ensures AbsorbAll(p, a + b) == AbsorbAll(AbsorbAll(p, a).p, b)
    decreases |b|
  {
    if b == [] {
      assert a + b == a;
    } else {
      var front := b[..|b| - 1];
      assert (a + b)[..|a + b| - 1] == a + front;
      AbsorbAppend(p, a, front);
    }
  }

  lemma AbsorbOne(p: Partial, a: seq<Event>, event: Event)
    requires AbsorbAll(p, a).Grown?
    ensures AbsorbAll(p, a + [event]) == Absorb(AbsorbAll(p, a).p, event)
  {
    assert (a + [event])[..|a|] == a;
  }

  lemma AbsorbBracketed(p: Partial, start: Event, q1: Partial, middle: seq<Event>, q2: Partial, end: Event)
    requires Absorb(p, start) == Grown(q1)
    requires AbsorbAll(q1, middle) == Grown(q2)
    ensures AbsorbAll(p, [start] + middle + [end]) == Absorb(q2, end)
  {
    AbsorbOne(p, [], start);
    assert [] + [start] == [start];
    AbsorbAppend(p, [start], middle);
    AbsorbOne(p, [start] + middle, end);
  }

  lemma ArrAbsorbed(root: seq<Tree>, opens: seq<Open>, items: seq<Tree>)
    requires ValueDue(opens)
    requires AbsorbAll(Within(root, opens + [OpenArr([])]), LinearItems(items)) == Grown(Within(root, opens + [OpenArr(items)]))
    ensures AbsorbAll(Within(root, opens), Linear(Arr(items))) == Grown(Plug(root, opens, Arr(items)))
  {
    hide AbsorbAll, Plug;
    var q1, q2 := Within(root, opens + [OpenArr([])]), Within(root, opens + [OpenArr(items)]);
    AbsorbBracketed(Within(root, opens), ArrayStart, q1, LinearItems(items), q2, ArrayEnd);
    CloseLast(root, opens, OpenArr(items));
  }

  lemma ObjAbsorbed(root: seq<Tree>, opens: seq<Open>, members: seq<Member>)
    requires ValueDue(opens)
    requires AbsorbAll(Within(root, opens + [OpenObj([])]), LinearMembers(members)) ==
             Grown(Within(root, opens + [OpenObj(members)]))
    ensures AbsorbAll(Within(root, opens), Linear(Obj(members))) == Grown(Plug(root, opens, Obj(members)))
  {
    hide AbsorbAll, Plug;
    var q1, q2 := Within(root, opens + [OpenObj([])]), Within(root, opens + [OpenObj(members)]);
    AbsorbBracketed(Within(root, opens), ObjectStart, q1, LinearMembers(members), q2, ObjectEnd);
    CloseLast(root, opens, OpenObj(members));
  }

  // Every tree's events are absorbed wherever a value is due.
  lemma {:induction false} TreeAbsorbed(root: seq<Tree>, opens: seq<Open>, t: Tree)
    requires ValueDue(opens)
    ensures AbsorbAll(Within(root, opens), Linear(t)) == Grown(Plug(root, opens, t))
    decreases t
  {
    match t
    case Leaf(scalar) =>
      AbsorbOne(Within(root, opens), [], ScalarEvent(scalar));
      assert [] + [ScalarEvent(scalar)] == [ScalarEvent(scalar)];
    case Arr(items) =>
      hide *;
      ItemsAbsorbed(root, opens, items);
      ArrAbsorbed(root, opens, items);
    case Obj(members) =>
      hide *;
      MembersAbsorbed(root, opens, members);
      ObjAbsorbed(root, opens, members);
  }

  lemma {:induction false} ItemsAbsorbed(root: seq<Tree>, opens: seq<Open>, items: seq<Tree>)
    ensures AbsorbAll(Within(root, opens + [OpenArr([])]), LinearItems(items)) ==
            Grown(Within(root, opens + [OpenArr(items)]))
    decreases items
  {
    if items != [] {
      var front, last := items[..|items| - 1], items[|items| - 1];
      ItemsAbsorbed(root, opens, front);
      TreeAbsorbed(root, opens + [OpenArr(front)], last);
      hide AbsorbAll, Plug;
      AbsorbAppend(Within(root, opens + [OpenArr([])]), LinearItems(front), Linear(last));
      PlugLast(root, opens, OpenArr(front), last);
      assert front + [last] == items;
    }
  }

  lemma {:induction false} MembersAbsorbed(root: seq<Tree>, opens: seq<Open>, members: seq<Member>)
    ensures AbsorbAll(Within(root, opens + [OpenObj([])]), LinearMembers(members)) ==
            Grown(Within(root, opens + [OpenObj(members)]))
    decreases members
  {
    if members != [] {
      var front, last := members[..|members| - 1], members[|members| - 1];
      var p := Within(root, opens + [OpenObj([])]);
      MembersAbsorbed(root, opens, front);
      hide AbsorbAll, Absorb, Plug;
      AbsorbOne(p, LinearMembers(front), Key(last.name));
      KeyLast(root, opens, front, last.name);
      Init(opens, OpenPair(front, last.name));
      TreeAbsorbed(root, opens + [OpenPair(front, last.name)], last.value);
      AbsorbAppend(p, LinearMembers(front) + [Key(last.name)], Linear(last.value));
      PlugLast(root, opens, OpenPair(front, last.name), last.value);
      assert front + [last] == members;
    }
  }

  lemma RootAbsorbsOne(front: seq<Tree>, last: Tree)
    requires AbsorbAll(Within([], []), LinearItems(front)) == Grown(Within(front, []))
    ensures AbsorbAll(Within([], []), LinearItems(front + [last])) == Grown(Within(front + [last], []))
  {
    hide AbsorbAll, Linear, LinearItems;
    TreeAbsorbed(front, [], last);
    AbsorbAppend(Within([], []), LinearItems(front), Linear(last));
    LinearItemsPush(front, last);
  }

  lemma {:induction false} RootAbsorbed(items: seq<Tree>)
    ensures AbsorbAll(Within([], []), LinearItems(items)) == Grown(Within(items, []))
  {
    if items != [] {
      RootAbsorbed(items[..|items| - 1]);
      RootAbsorbsOne(items[..|items| - 1], items[|items| - 1]);
      assert items == items[..|items| - 1] + [items[|items| - 1]];
    }
  }

  lemma DocumentAbsorbed(items: seq<Tree>)
    ensures AbsorbAll(Unstarted, Linear(Arr(items))) == Grown(Complete(items))
  {
    AbsorbOne(Unstarted, [], ArrayStart);
    assert [ArrayStart] == [] + [ArrayStart];
    RootAbsorbed(items);
    AbsorbAppend(Unstarted, [ArrayStart], LinearItems(items));
    AbsorbOne(Unstarted, [ArrayStart] + LinearItems(items), ArrayEnd);
  }

  // The scan follows the absorption of all its events.
  ghost predicate ScanIs(events: seq<Event>, absorbed: Absorbed) {
    match absorbed
    case Misfit => ScanEmit(events).failure != NoFailure
    case Grown(p) =>
      && ScanEmit(events).failure == NoFailure
      && Reads(p, ScanEmit(events).stack, ScanEmit(events).outs)
      && PartialLinear(p) == events
  }

  lemma {:induction false} ScanAbsorbs(events: seq<Event>)
    ensures ScanIs(events, AbsorbAll(Unstarted, events))
  {
    if events != [] {
      var init, last := events[..|events| - 1], events[|events| - 1];
      ScanAbsorbs(init);
      hide ScanIs, ScanEmit, Absorb;
      assert events == init + [last];
      match AbsorbAll(Unstarted, init)
      case Grown(p) => ScanAbsorbsOne(init, p, last);
      case Misfit => ScanStopped(init, last);
    }
  }

  lemma ScanStopped(events: seq<Event>, last: Event)
    requires ScanIs(events, Misfit)
    ensures ScanIs(events + [last], Misfit)
  {
    Init(events, last);
  }

  lemma ScanAbsorbsOne(events: seq<Event>, p: Partial, last: Event)
    requires ScanIs(events, Grown(p))
    ensures ScanIs(events + [last], Absorb(p, last))
  {
    Init(events, last);
    hide Step, Feed, Markers, WriterOf;
    StepFollows(p, ScanEmit(events).stack, ScanEmit(events).outs, last);
    if Absorb(p, last).Grown? {
      AbsorbLinear(p, last);
    }
  }

  lemma {:induction false} JoinIsFed(outs: seq<Out>)
    ensures Join(outs) == Feed(outs).committed + Feed(outs).held
  {
    if outs != [] {
      JoinIsFed(outs[..|outs| - 1]);
    }
  }

  lemma MarkersDone(p: Partial)
    ensures Top(Markers(p)) == RootDone <==> p.Complete?
  {
  }

  // A tree's events render to its print: each element of the root compact on
  // a line of its own, or one line feed for none.
  lemma TreesRender(items: seq<Tree>)
    ensures RenderEvents(Linear(Arr(items))) == Document(PrintDocument(items))
  {
    var events := Linear(Arr(items));
    DocumentAbsorbed(items);
    ScanAbsorbs(events);
    JoinIsFed(ScanEmit(events).outs);
  }

  // Acceptance is exact: only a tree's events render.
  lemma RenderAccepts(events: seq<Event>)
    ensures RenderEvents(events).Document? <==> exists items :: events == Linear(Arr(items))
  {
    if RenderEvents(events).Document? {
      ScanAbsorbs(events);
      var p := AbsorbAll(Unstarted, events).p;
      MarkersDone(p);
      assert events == Linear(Arr(p.root));
    }
    if items :| events == Linear(Arr(items)) {
      TreesRender(items);
    }
  }

  // The tree is unique: events determine it.
  lemma LinearInjective(a: seq<Tree>, b: seq<Tree>)
    requires Linear(Arr(a)) == Linear(Arr(b))
    ensures a == b
  {
    DocumentAbsorbed(a);
    DocumentAbsorbed(b);
  }

  // A refusal says unrepresentable exactly when the root is no array.
  lemma RefusalCode(events: seq<Event>)
    ensures RenderEvents(events) == Refused(Unrepresentable) <==>
            events != [] && (events[0].ObjectStart? || events[0].ScalarEvent?)
  {
    var p, k := ScanReads(events);
    UnstartedOnly(p);
    MarkersDone(p);
    if events != [] && (events[0].ObjectStart? || events[0].ScalarEvent?) {
      if k > 0 {
        assert events[..k][0] == events[0];
        FirstEvent(p);
      }
    }
  }

  lemma FirstEvent(p: Partial)
    requires !p.Unstarted?
    ensures PartialLinear(p) != [] && PartialLinear(p)[0] == ArrayStart
  {
    if p.Within? {
      OpensLinearKeeps([ArrayStart] + LinearItems(p.root), p.opens);
    }
  }

  lemma {:induction false} OpensLinearKeeps(before: seq<Event>, opens: seq<Open>)
    requires before != []
    ensures OpensLinear(before, opens) != [] && OpensLinear(before, opens)[0] == before[0]
  {
    if opens != [] {
      OpensLinearKeeps(before, opens[..|opens| - 1]);
    }
  }

  // The stacks a run reaches.
  ghost predicate StackShape(s: Stack) {
    || s == []
    || s == [RootDone]
    || (s[0] in {LinesOpen, LinesMark} &&
        (forall i :: 1 <= i < |s| ==> s[i] in {ObjectOpen, ObjectMark, MemberMark, ArrayOpen, ArrayMark}) &&
        (forall i :: 0 <= i < |s| - 1 ==> s[i] in {LinesMark, ArrayMark, MemberMark}))
  }

  lemma {:induction false} TakenShape(opens: seq<Open>)
    requires forall i :: 0 <= i < |opens| ==> !opens[i].OpenObj?
    ensures |Taken(opens)| == 1 + |opens|
    ensures Taken(opens)[0] == LinesMark
    ensures forall i :: 1 <= i <= |opens| ==> Taken(opens)[i] in {ArrayMark, MemberMark}
  {
    if opens != [] {
      TakenShape(opens[..|opens| - 1]);
    }
  }

  lemma MarkersShape(p: Partial)
    requires Valid(p)
    ensures StackShape(Markers(p))
    ensures Markers(p) == [RootDone] <==> p.Complete?
    ensures !p.Complete? ==> |Markers(p)| == Height(p)
  {
    if p.Within? && p.opens != [] {
      TakenShape(p.opens[..|p.opens| - 1]);
    }
  }

  // The state grows with nesting and never with width or length.
  lemma ReachableStacks(events: seq<Event>)
    requires ScanEmit(events).failure == NoFailure
    ensures var s := ScanEmit(events).stack;
            StackShape(s) && (s == [RootDone] || |s| == Nesting(events))
  {
    hide Markers, StackShape, ScanEmit, Nesting;
    var p, k := ScanReads(events);
    assert events[..k] == events;
    MarkersShape(p);
  }
}
