// alchemy/transduce.alc: the declarative transducer from rule passes to events.

module Transduce {
  import opened Options
  import opened Text
  import opened Trees
  import opened Lexer
  import opened Grammar
  import opened Machine

  datatype Entry = NoEntry | ArrayContainer | ObjectContainer | KeyAt0 | ScalarAt0

  // The spec, keyed by rule name; a rule without an entry yields nothing.
  function Spec(rule: Rule): Entry {
    match rule
    case Jsonl => ArrayContainer
    case Map => ObjectContainer
    case List => ArrayContainer
    case Pair => KeyAt0
    case Val => ScalarAt0
    case _ => NoEntry
  }

  // A container begins on its open pass and ends on its close pass; a key and
  // a scalar are read off the first token of an open pass.
  function EventsOf(pass: Pass): seq<Event> {
    match (Spec(pass.rule), pass.phase)
    case (ArrayContainer, Opening) => [ArrayStart]
    case (ArrayContainer, Closing) => [ArrayEnd]
    case (ObjectContainer, Opening) => [ObjectStart]
    case (ObjectContainer, Closing) => [ObjectEnd]
    case (KeyAt0, Opening) =>
      (match pass.first
       case Some(Value(Str(name))) => [Key(name)]
       case _ => [])
    case (ScalarAt0, Opening) =>
      (match pass.first
       case Some(Value(scalar)) => [ScalarEvent(scalar)]
       case _ => [])
    case _ => []
  }

  // The passes mapped as the parser makes them.
  function Events(passes: seq<Pass>): seq<Event> {
    if passes == [] then [] else Events(passes[..|passes| - 1]) + EventsOf(passes[|passes| - 1])
  }

  lemma EventsPush(passes: seq<Pass>, pass: Pass)
    ensures Events(passes + [pass]) == Events(passes) + EventsOf(pass)
  {
    Init(passes, pass);
  }

  lemma {:induction false} EventsAppend(a: seq<Pass>, b: seq<Pass>)
    ensures Events(a + b) == Events(a) + Events(b)
    decreases |b|
  {
    if b == [] {
      assert a + b == a;
    } else {
      var front, last := b[..|b| - 1], b[|b| - 1];
      assert b == front + [last];
      Assoc(a, front, [last]);
      EventsAppend(a, front);
      EventsPush(a + front, last);
      EventsPush(front, last);
      Assoc(Events(a), Events(front), EventsOf(last));
    }
  }

  lemma EventsOne(pass: Pass)
    ensures Events([pass]) == EventsOf(pass)
  {
    EventsPush([], pass);
    Padded([pass]);
    Padded(EventsOf(pass));
  }

  lemma EventsTwo(a: Pass, b: Pass)
    ensures Events([a, b]) == EventsOf(a) + EventsOf(b)
  {
    hide Events, EventsOf;
    EventsOne(a);
    EventsPush([a], b);
    assert [a] + [b] == [a, b];
  }

  lemma EventsAround(a: Pass, b: Pass, content: seq<Pass>, c: Pass, d: Pass)
    ensures Events([a, b] + content + [c, d]) == EventsOf(a) + EventsOf(b) + Events(content) + (EventsOf(c) + EventsOf(d))
  {
    hide Events, EventsOf;
    EventsAppend([a, b], content);
    EventsAppend([a, b] + content, [c, d]);
    EventsTwo(a, b);
    EventsTwo(c, d);
  }

  lemma EventsChain(a: Pass, content: seq<Pass>, b: Pass, more: seq<Pass>)
    ensures Events([a] + content + [b] + more) == EventsOf(a) + Events(content) + EventsOf(b) + Events(more)
  {
    hide Events, EventsOf;
    EventsOne(a);
    EventsAppend([a], content);
    EventsPush([a] + content, b);
    EventsAppend([a] + content + [b], more);
  }

  // The front of a linearisation, as the passes come.
  lemma {:induction false} LinearItemsFront(items: seq<Tree>)
    requires items != []
    ensures LinearItems(items) == Linear(items[0]) + LinearItems(items[1..])
  {
    if |items| == 1 {
      assert items[..0] == [] && items[1..] == [];
      assert LinearItems([]) + Linear(items[0]) == Linear(items[0]) + LinearItems([]);
    } else {
      var front, last := items[..|items| - 1], items[|items| - 1];
      LinearItemsFront(front);
      assert items[1..] == front[1..] + [last];
      LinearItemsPush(front[1..], last);
      Assoc(Linear(items[0]), LinearItems(front[1..]), Linear(last));
    }
  }

  lemma {:induction false} LinearMembersFront(members: seq<Member>)
    requires members != []
    ensures LinearMembers(members) == [Key(members[0].name)] + Linear(members[0].value) + LinearMembers(members[1..])
  {
    var front, last := members[..|members| - 1], members[|members| - 1];
    if |members| == 1 {
      assert front == [] && members[1..] == [];
      assert LinearMembers([]) + [Key(last.name)] + Linear(last.value) ==
             [Key(last.name)] + Linear(last.value) + LinearMembers([]);
    } else {
      LinearMembersFront(front);
      assert members[1..] == front[1..] + [last];
      LinearMembersPush(front[1..], last.name, last.value);
      var head := [Key(members[0].name)] + Linear(members[0].value);
      Assoc(head, LinearMembers(front[1..]), [Key(last.name)]);
      Assoc(head, LinearMembers(front[1..]) + [Key(last.name)], Linear(last.value));
    }
  }

  // A tree's passes are its events.
  lemma {:induction false} TreePassesLinear(t: Tree)
    ensures Events(TreePasses(t)) == Linear(t)
    decreases t
  {
    hide Events;
    match t
    case Leaf(scalar) =>
      EventsTwo(Pass(Val, Opening, Some(Value(scalar))), Pass(Val, Closing, None));
      Padded([ScalarEvent(scalar)]);
    case Arr(items) =>
      ItemPassesLinear(items);
      ArrayEvents(items);
    case Obj(members) =>
      MemberPassesLinear(members);
      ObjectEvents(members);
  }

  lemma ArrayEvents(items: seq<Tree>)
    ensures Events(TreePasses(Arr(items))) == [ArrayStart] + Events(ItemPasses(items)) + [ArrayEnd]
  {
    hide Events, ItemPasses;
    var a, b := Pass(Val, Opening, Some(OpenSquare)), Pass(List, Opening, Some(OpenSquare));
    var c, d := Pass(List, Closing, Some(CloseSquare)), Pass(Val, Closing, None);
    EventsAround(a, b, ItemPasses(items), c, d);
    assert EventsOf(a) == [] && EventsOf(b) == [ArrayStart] && EventsOf(c) == [ArrayEnd] && EventsOf(d) == [];
    hide EventsOf;
    Padded([ArrayStart]);
    Padded([ArrayEnd]);
  }

  lemma ObjectEvents(members: seq<Member>)
    ensures Events(TreePasses(Obj(members))) == [ObjectStart] + Events(MemberPasses(members)) + [ObjectEnd]
  {
    hide Events, MemberPasses;
    var a, b := Pass(Val, Opening, Some(OpenBrace)), Pass(Map, Opening, Some(OpenBrace));
    var c, d := Pass(Map, Closing, Some(CloseBrace)), Pass(Val, Closing, None);
    EventsAround(a, b, MemberPasses(members), c, d);
    assert EventsOf(a) == [] && EventsOf(b) == [ObjectStart] && EventsOf(c) == [ObjectEnd] && EventsOf(d) == [];
    hide EventsOf;
    Padded([ObjectStart]);
    Padded([ObjectEnd]);
  }

  lemma {:induction false} ItemPassesLinear(items: seq<Tree>)
    ensures Events(ItemPasses(items)) == LinearItems(items)
    decreases items
  {
    if items != [] {
      var a := Pass(Elem, Opening, None);
      var b := Pass(Elem, Closing, Some(if |items| == 1 then CloseSquare else Token.Comma));
      hide Events, Linear, LinearItems, TreePasses;
      TreePassesLinear(items[0]);
      ItemPassesLinear(items[1..]);
      LinearItemsFront(items);
      EventsChain(a, TreePasses(items[0]), b, ItemPasses(items[1..]));
      assert EventsOf(a) == [] && EventsOf(b) == [];
      Padded(Linear(items[0]));
    }
  }

  lemma {:induction false} MemberPassesLinear(members: seq<Member>)
    ensures Events(MemberPasses(members)) == LinearMembers(members)
    decreases members
  {
    if members != [] {
      var a := Pass(Pair, Opening, Some(Value(Str(members[0].name))));
      var b := Pass(Pair, Closing, Some(if |members| == 1 then CloseBrace else Token.Comma));
      hide Events, Linear, LinearMembers, TreePasses;
      TreePassesLinear(members[0].value);
      MemberPassesLinear(members[1..]);
      LinearMembersFront(members);
      EventsChain(a, TreePasses(members[0].value), b, MemberPasses(members[1..]));
      assert MemberPasses(members) == [a] + TreePasses(members[0].value) + [b] + MemberPasses(members[1..]);
      assert EventsOf(a) == [Key(members[0].name)] && EventsOf(b) == [];
      hide EventsOf, MemberPasses;
      Padded([Key(members[0].name)] + Linear(members[0].value));
      hide *;
    }
  }
}
