// The rule machine on one value follows the descent: it pushes, replaces and
// pops its way to the same tree and the same tokens left, and logs that
// tree's passes; or it rejects at the tokens the descent is stuck at.

module Machine {
  import opened Options
  import opened Text
  import opened Trees
  import opened Lexer
  import opened Grammar
  import opened Descent

  // The passes the rules make over a tree.
  function TreePasses(t: Tree): seq<Pass>
    decreases t
  {
    match t
    case Leaf(scalar) => [Pass(Val, Opening, Some(Value(scalar))), Pass(Val, Closing, None)]
    case Arr(items) =>
      [Pass(Val, Opening, Some(OpenSquare)), Pass(List, Opening, Some(OpenSquare))] + ItemPasses(items) +
      [Pass(List, Closing, Some(CloseSquare)), Pass(Val, Closing, None)]
    case Obj(members) =>
      [Pass(Val, Opening, Some(OpenBrace)), Pass(Map, Opening, Some(OpenBrace))] + MemberPasses(members) +
      [Pass(Map, Closing, Some(CloseBrace)), Pass(Val, Closing, None)]
  }

  function ItemPasses(items: seq<Tree>): seq<Pass>
    decreases items
  {
    if items == [] then []
    else
      [Pass(Elem, Opening, None)] + TreePasses(items[0]) +
      [Pass(Elem, Closing, Some(if |items| == 1 then CloseSquare else Token.Comma))] + ItemPasses(items[1..])
  }

  function MemberPasses(members: seq<Member>): seq<Pass>
    decreases members
  {
    if members == [] then []
    else
      [Pass(Pair, Opening, Some(Value(Str(members[0].name))))] + TreePasses(members[0].value) +
      [Pass(Pair, Closing, Some(if |members| == 1 then CloseBrace else Token.Comma))] + MemberPasses(members[1..])
  }

  function Closed(rule: Rule, node: Node, child: Option<Tree>): Frame {
    Frame(rule, Closing, node, [], child)
  }

  lemma RunStep(st: State)
    requires st.Running?
    ensures Run(st) == Run(Step(st))
  {
  }

  lemma Rejects(tokens: seq<Token>)
    ensures Run(Rejected(tokens)) == Rejected(tokens)
  {
  }

  // Each rule's pass, told by the tokens ahead.

  lemma ValOpens(tokens: seq<Token>, below: Stack, log: seq<Pass>)
    ensures var st := Step(Running(On(Fresh(Val), below), tokens, log));
            if tokens == [] then st == Rejected(tokens)
            else match tokens[0]
              case OpenBrace =>
                st == Running(On(Fresh(Map), On(Closed(Val, NoNode, None), below)), tokens, log + [Pass(Val, Opening, Some(OpenBrace))])
              case OpenSquare =>
                st == Running(On(Fresh(List), On(Closed(Val, NoNode, None), below)), tokens, log + [Pass(Val, Opening, Some(OpenSquare))])
              case Value(scalar) =>
                st == Running(On(Closed(Val, TreeNode(Leaf(scalar)), None), below), tokens[1..],
                              log + [Pass(Val, Opening, Some(Value(scalar)))])
              case _ => st == Rejected(tokens)
  {
    assert FirstMatch(Alts(Val, Opening), tokens) ==
           if tokens == [] then None
           else if tokens[0] == OpenBrace then Some(Alt([OB], 1, Go.Push(Map), NoAction))
           else if tokens[0] == OpenSquare then Some(Alt([OS], 1, Go.Push(List), NoAction))
           else if tokens[0].Value? then Some(Alt([VAL], 0, Stay, TakeScalar))
           else None by {
      FirstOfFour(Alts(Val, Opening), tokens);
    }
    hide FirstMatch, Alts, Matches, Fits;
  }

  lemma ValCloses(node: Node, child: Option<Tree>, g: Frame, rest: Stack, tokens: seq<Token>, log: seq<Pass>)
    ensures Step(Running(On(Closed(Val, node, child), On(g, rest)), tokens, log)) ==
            Running(On(g.(child := if child.Some? then child else NodeValue(node)), rest), tokens, log + [Pass(Val, Closing, None)])
  {
    assert FirstMatch(Alts(Val, Closing), tokens) ==
           Some(Alt([], 0, Stay, TakeChild)) by {
      FirstOfFour(Alts(Val, Closing), tokens);
    }
    hide FirstMatch, Alts, Matches, Fits;
  }

  lemma ListOpens(tokens: seq<Token>, below: Stack, log: seq<Pass>)
    requires tokens != [] && tokens[0] == OpenSquare
    ensures var pass := Pass(List, Opening, Some(OpenSquare));
            Step(Running(On(Fresh(List), below), tokens, log)) ==
            if |tokens| > 1 && tokens[1] == CloseSquare then
              Running(On(Closed(List, ArrayNode([]), None), below), tokens[1..], log + [pass])
            else
              Running(On(Fresh(Elem), On(Closed(List, ArrayNode([]), None), below)), tokens[1..], log + [pass])
  {
    assert FirstMatch(Alts(List, Opening), tokens) ==
           if |tokens| > 1 && tokens[1] == CloseSquare then Some(Alt([OS, CS], 1, Stay, NewArray))
           else Some(Alt([OS], 0, Go.Push(Elem), NewArray)) by {
      FirstOfFour(Alts(List, Opening), tokens);
    }
    hide FirstMatch, Alts, Matches, Fits;
  }

  lemma MapOpens(tokens: seq<Token>, below: Stack, log: seq<Pass>)
    requires tokens != [] && tokens[0] == OpenBrace
    ensures var pass := Pass(Map, Opening, Some(OpenBrace));
            Step(Running(On(Fresh(Map), below), tokens, log)) ==
            if |tokens| > 1 && tokens[1] == CloseBrace then
              Running(On(Closed(Map, ObjectNode([]), None), below), tokens[1..], log + [pass])
            else
              Running(On(Fresh(Pair), On(Closed(Map, ObjectNode([]), None), below)), tokens[1..], log + [pass])
  {
    assert FirstMatch(Alts(Map, Opening), tokens) ==
           if |tokens| > 1 && tokens[1] == CloseBrace then Some(Alt([OB, CB], 1, Stay, NewObject))
           else Some(Alt([OB], 0, Go.Push(Pair), NewObject)) by {
      FirstOfFour(Alts(Map, Opening), tokens);
    }
    hide FirstMatch, Alts, Matches, Fits;
  }

  lemma ListCloses(node: Node, g: Frame, rest: Stack, tokens: seq<Token>, log: seq<Pass>)
    requires tokens != [] && tokens[0] == CloseSquare
    ensures Step(Running(On(Closed(List, node, None), On(g, rest)), tokens, log)) ==
            Running(On(g.(child := NodeValue(node)), rest), tokens[1..], log + [Pass(List, Closing, Some(CloseSquare))])
  {
    assert FirstMatch(Alts(List, Closing), tokens) ==
           Some(Alt([CS], 0, Stay, NoAction)) by {
      FirstOfFour(Alts(List, Closing), tokens);
    }
    hide FirstMatch, Alts, Matches, Fits;
  }

  lemma MapCloses(node: Node, g: Frame, rest: Stack, tokens: seq<Token>, log: seq<Pass>)
    requires tokens != [] && tokens[0] == CloseBrace
    ensures Step(Running(On(Closed(Map, node, None), On(g, rest)), tokens, log)) ==
            Running(On(g.(child := NodeValue(node)), rest), tokens[1..], log + [Pass(Map, Closing, Some(CloseBrace))])
  {
    assert FirstMatch(Alts(Map, Closing), tokens) ==
           Some(Alt([CB], 0, Stay, NoAction)) by {
      FirstOfFour(Alts(Map, Closing), tokens);
    }
    hide FirstMatch, Alts, Matches, Fits;
  }

  lemma ElemOpens(tokens: seq<Token>, below: Stack, log: seq<Pass>)
    ensures Step(Running(On(Fresh(Elem), below), tokens, log)) ==
            Running(On(Fresh(Val), On(Closed(Elem, NoNode, None), below)), tokens, log + [Pass(Elem, Opening, None)])
  {
    assert FirstMatch(Alts(Elem, Opening), tokens) ==
           Some(Alt([], 0, Go.Push(Val), NoAction)) by {
      FirstOfFour(Alts(Elem, Opening), tokens);
    }
    hide FirstMatch, Alts, Matches, Fits;
  }

  lemma ElemCloses(items: seq<Tree>, t: Tree, rest: Stack, tokens: seq<Token>, log: seq<Pass>)
    ensures var grown := On(Closed(List, ArrayNode(items + [t]), None), rest);
            var st := Step(Running(On(Closed(Elem, NoNode, Some(t)), On(Closed(List, ArrayNode(items), None), rest)), tokens, log));
            if tokens != [] && tokens[0] == Token.Comma then
              st == Running(On(Fresh(Elem), grown), tokens[1..], log + [Pass(Elem, Closing, Some(Token.Comma))])
            else if tokens != [] && tokens[0] == CloseSquare then
              st == Running(grown, tokens, log + [Pass(Elem, Closing, Some(CloseSquare))])
            else st == Rejected(tokens)
  {
    assert FirstMatch(Alts(Elem, Closing), tokens) ==
           if tokens != [] && tokens[0] == Token.Comma then Some(Alt([CA], 0, Replace(Elem), PushChild))
           else if tokens != [] && tokens[0] == CloseSquare then Some(Alt([CS], 1, Stay, PushChild))
           else None by {
      FirstOfFour(Alts(Elem, Closing), tokens);
    }
    hide FirstMatch, Alts, Matches, Fits;
  }

  lemma PairOpens(tokens: seq<Token>, below: Stack, log: seq<Pass>)
    ensures var st := Step(Running(On(Fresh(Pair), below), tokens, log));
            if |tokens| >= 2 && tokens[0].Value? && tokens[0].scalar.Str? && tokens[1] == Token.Colon then
              st == Running(On(Fresh(Val), On(Frame(Pair, Closing, NoNode, tokens[0].scalar.s, None), below)), tokens[2..],
                            log + [Pass(Pair, Opening, Some(tokens[0]))])
            else st == Rejected(tokens)
  {
    assert FirstMatch(Alts(Pair, Opening), tokens) ==
           if |tokens| >= 2 && tokens[0].Value? && tokens[0].scalar.Str? && tokens[1] == Token.Colon
           then Some(Alt([KEY, CL], 0, Go.Push(Val), TakeKey)) else None by {
      FirstOfFour(Alts(Pair, Opening), tokens);
    }
    hide FirstMatch, Alts, Matches, Fits;
  }

  lemma PairCloses(members: seq<Member>, m: Member, rest: Stack, tokens: seq<Token>, log: seq<Pass>)
    ensures var grown := On(Closed(Map, ObjectNode(members + [m]), None), rest);
            var pair := Frame(Pair, Closing, NoNode, m.name, Some(m.value));
            var st := Step(Running(On(pair, On(Closed(Map, ObjectNode(members), None), rest)), tokens, log));
            if tokens != [] && tokens[0] == Token.Comma then
              st == Running(On(Fresh(Pair), grown), tokens[1..], log + [Pass(Pair, Closing, Some(Token.Comma))])
            else if tokens != [] && tokens[0] == CloseBrace then
              st == Running(grown, tokens, log + [Pass(Pair, Closing, Some(CloseBrace))])
            else st == Rejected(tokens)
  {
    assert FirstMatch(Alts(Pair, Closing), tokens) ==
           if tokens != [] && tokens[0] == Token.Comma then Some(Alt([CA], 0, Replace(Pair), SetMember))
           else if tokens != [] && tokens[0] == CloseBrace then Some(Alt([CB], 1, Stay, SetMember))
           else None by {
      FirstOfFour(Alts(Pair, Closing), tokens);
    }
    hide FirstMatch, Alts, Matches, Fits;
  }

  // What a run of `val` on top of g must come to.
  ghost predicate ValueRan(st: State, parsed: Parsed<Tree>, g: Frame, rest: Stack, log: seq<Pass>) {
    match parsed
    case Stuck(at) => Run(st) == Rejected(at)
    case Parsed(t, more) => Run(st) == Run(Running(On(g.(child := Some(t)), rest), more, log + TreePasses(t)))
  }

  ghost predicate ItemsRan(st: State, parsed: Parsed<seq<Tree>>, done: seq<Tree>, rest: Stack, log: seq<Pass>) {
    match parsed
    case Stuck(at) => Run(st) == Rejected(at)
    case Parsed(items, more) =>
      Run(st) == Run(Running(On(Closed(List, ArrayNode(done + items), None), rest), more, log + ItemPasses(items)))
  }

  ghost predicate MembersRan(st: State, parsed: Parsed<seq<Member>>, done: seq<Member>, rest: Stack, log: seq<Pass>) {
    match parsed
    case Stuck(at) => Run(st) == Rejected(at)
    case Parsed(members, more) =>
      Run(st) == Run(Running(On(Closed(Map, ObjectNode(done + members), None), rest), more, log + MemberPasses(members)))
  }

  lemma {:induction false} ValueRuns(tokens: seq<Token>, g: Frame, rest: Stack, log: seq<Pass>)
    ensures ValueRan(Running(On(Fresh(Val), On(g, rest)), tokens, log), ParseValue(tokens), g, rest, log)
    decreases |tokens|, 1
  {
    hide Step, Run;
    var st := Running(On(Fresh(Val), On(g, rest)), tokens, log);
    ValOpens(tokens, On(g, rest), log);
    RunStep(st);
    Rejects(tokens);
    if tokens != [] {
      match tokens[0]
      case Value(scalar) => ScalarRuns(scalar, tokens, g, rest, log);
      case OpenSquare => ArrayRuns(tokens, g, rest, log);
      case OpenBrace => ObjectRuns(tokens, g, rest, log);
      case _ =>
    }
  }

  lemma ScalarRuns(scalar: Scalar, tokens: seq<Token>, g: Frame, rest: Stack, log: seq<Pass>)
    requires tokens != [] && tokens[0] == Value(scalar)
    ensures ValueRan(Running(On(Fresh(Val), On(g, rest)), tokens, log), ParseValue(tokens), g, rest, log)
  {
    hide Step, Run;
    ValOpens(tokens, On(g, rest), log);
    RunStep(Running(On(Fresh(Val), On(g, rest)), tokens, log));
    var log1 := log + [Pass(Val, Opening, Some(Value(scalar)))];
    ValCloses(TreeNode(Leaf(scalar)), None, g, rest, tokens[1..], log1);
    RunStep(Running(On(Closed(Val, TreeNode(Leaf(scalar)), None), On(g, rest)), tokens[1..], log1));
    Two(log, Pass(Val, Opening, Some(Value(scalar))), Pass(Val, Closing, None));
  }

  lemma Two<T>(log: seq<T>, a: T, b: T)
    ensures log + [a] + [b] == log + [a, b]
  {
  }

  // A container's passes around its content's.
  lemma Surround<T>(log: seq<T>, a: T, b: T, content: seq<T>, c: T, d: T)
    ensures log + [a] + [b] + content + [c] + [d] == log + ([a, b] + content + [c, d])
  {
  }

  lemma {:induction false} ArrayRuns(tokens: seq<Token>, g: Frame, rest: Stack, log: seq<Pass>)
    requires tokens != [] && tokens[0] == OpenSquare
    ensures ValueRan(Running(On(Fresh(Val), On(g, rest)), tokens, log), ParseValue(tokens), g, rest, log)
    decreases |tokens|, 0
  {
    hide Step, Run;
    var a, b := Pass(Val, Opening, Some(OpenSquare)), Pass(List, Opening, Some(OpenSquare));
    var below := On(Closed(Val, NoNode, None), On(g, rest));
    ValOpens(tokens, On(g, rest), log);
    RunStep(Running(On(Fresh(Val), On(g, rest)), tokens, log));
    ListOpens(tokens, below, log + [a]);
    RunStep(Running(On(Fresh(List), below), tokens, log + [a]));
    if |tokens| > 1 && tokens[1] == CloseSquare {
      ArrayEnds([], tokens[1..], g, rest, log + [a] + [b]);
      Surround(log, a, b, [], Pass(List, Closing, Some(CloseSquare)), Pass(Val, Closing, None));
      assert log + [a] + [b] + [] == log + [a] + [b];
      assert tokens[1..][1..] == tokens[2..];
    } else {
      ItemsRun(tokens[1..], [], below, log + [a] + [b]);
      match ParseElems(tokens[1..])
      case Stuck(_) =>
      case Parsed(items, more) =>
        assert [] + items == items;
        ArrayEnds(items, more, g, rest, log + [a] + [b] + ItemPasses(items));
        Surround(log, a, b, ItemPasses(items), Pass(List, Closing, Some(CloseSquare)), Pass(Val, Closing, None));
    }
  }

  lemma ArrayEnds(items: seq<Tree>, tokens: seq<Token>, g: Frame, rest: Stack, log: seq<Pass>)
    requires tokens != [] && tokens[0] == CloseSquare
    ensures Run(Running(On(Closed(List, ArrayNode(items), None), On(Closed(Val, NoNode, None), On(g, rest))), tokens, log)) ==
            Run(Running(On(g.(child := Some(Arr(items))), rest), tokens[1..],
                        log + [Pass(List, Closing, Some(CloseSquare))] + [Pass(Val, Closing, None)]))
  {
    hide Step, Run;
    ListCloses(ArrayNode(items), Closed(Val, NoNode, None), On(g, rest), tokens, log);
    RunStep(Running(On(Closed(List, ArrayNode(items), None), On(Closed(Val, NoNode, None), On(g, rest))), tokens, log));
    var log1 := log + [Pass(List, Closing, Some(CloseSquare))];
    ValCloses(NoNode, Some(Arr(items)), g, rest, tokens[1..], log1);
    RunStep(Running(On(Closed(Val, NoNode, Some(Arr(items))), On(g, rest)), tokens[1..], log1));
  }

  lemma {:induction false} ObjectRuns(tokens: seq<Token>, g: Frame, rest: Stack, log: seq<Pass>)
    requires tokens != [] && tokens[0] == OpenBrace
    ensures ValueRan(Running(On(Fresh(Val), On(g, rest)), tokens, log), ParseValue(tokens), g, rest, log)
    decreases |tokens|, 0
  {
    hide Step, Run;
    var a, b := Pass(Val, Opening, Some(OpenBrace)), Pass(Map, Opening, Some(OpenBrace));
    var below := On(Closed(Val, NoNode, None), On(g, rest));
    ValOpens(tokens, On(g, rest), log);
    RunStep(Running(On(Fresh(Val), On(g, rest)), tokens, log));
    MapOpens(tokens, below, log + [a]);
    RunStep(Running(On(Fresh(Map), below), tokens, log + [a]));
    if |tokens| > 1 && tokens[1] == CloseBrace {
      ObjectEnds([], tokens[1..], g, rest, log + [a] + [b]);
      Surround(log, a, b, [], Pass(Map, Closing, Some(CloseBrace)), Pass(Val, Closing, None));
      assert log + [a] + [b] + [] == log + [a] + [b];
      assert tokens[1..][1..] == tokens[2..];
    } else {
      MembersRun(tokens[1..], [], below, log + [a] + [b]);
      match ParsePairs(tokens[1..])
      case Stuck(_) =>
      case Parsed(members, more) =>
        assert [] + members == members;
        ObjectEnds(members, more, g, rest, log + [a] + [b] + MemberPasses(members));
        Surround(log, a, b, MemberPasses(members), Pass(Map, Closing, Some(CloseBrace)), Pass(Val, Closing, None));
    }
  }

  lemma ObjectEnds(members: seq<Member>, tokens: seq<Token>, g: Frame, rest: Stack, log: seq<Pass>)
    requires tokens != [] && tokens[0] == CloseBrace
    ensures Run(Running(On(Closed(Map, ObjectNode(members), None), On(Closed(Val, NoNode, None), On(g, rest))), tokens, log)) ==
            Run(Running(On(g.(child := Some(Obj(members))), rest), tokens[1..],
                        log + [Pass(Map, Closing, Some(CloseBrace))] + [Pass(Val, Closing, None)]))
  {
    hide Step, Run;
    MapCloses(ObjectNode(members), Closed(Val, NoNode, None), On(g, rest), tokens, log);
    RunStep(Running(On(Closed(Map, ObjectNode(members), None), On(Closed(Val, NoNode, None), On(g, rest))), tokens, log));
    var log1 := log + [Pass(Map, Closing, Some(CloseBrace))];
    ValCloses(NoNode, Some(Obj(members)), g, rest, tokens[1..], log1);
    RunStep(Running(On(Closed(Val, NoNode, Some(Obj(members))), On(g, rest)), tokens[1..], log1));
  }

  // An element's or a pair's passes before those of the ones after it.
  lemma Chain<T>(log: seq<T>, a: T, content: seq<T>, b: T, more: seq<T>)
    ensures log + [a] + content + [b] + more == log + ([a] + content + [b] + more)
  {
  }

  lemma {:induction false} ItemsRun(tokens: seq<Token>, done: seq<Tree>, rest: Stack, log: seq<Pass>)
    ensures ItemsRan(Running(On(Fresh(Elem), On(Closed(List, ArrayNode(done), None), rest)), tokens, log),
                     ParseElems(tokens), done, rest, log)
    decreases |tokens|, 2
  {
    hide Step, Run;
    var list := On(Closed(List, ArrayNode(done), None), rest);
    var log1 := log + [Pass(Elem, Opening, None)];
    ElemOpens(tokens, list, log);
    RunStep(Running(On(Fresh(Elem), list), tokens, log));
    ValueRuns(tokens, Closed(Elem, NoNode, None), list, log1);
    match ParseValue(tokens)
    case Stuck(_) =>
    case Parsed(t, after) =>
      var log2 := log1 + TreePasses(t);
      ElemCloses(done, t, rest, after, log2);
      RunStep(Running(On(Closed(Elem, NoNode, Some(t)), list), after, log2));
      Rejects(after);
      if after != [] && after[0] == Token.Comma {
        var b := Pass(Elem, Closing, Some(Token.Comma));
        ItemsRun(after[1..], done + [t], rest, log2 + [b]);
        match ParseElems(after[1..])
        case Stuck(_) =>
        case Parsed(items, more) =>
          Assoc(done, [t], items);
          Front(t, items);
          Chain(log, Pass(Elem, Opening, None), TreePasses(t), b, ItemPasses(items));
      } else if after != [] && after[0] == CloseSquare {
        var b := Pass(Elem, Closing, Some(CloseSquare));
        assert [t][1..] == [];
        assert ItemPasses([t]) == [Pass(Elem, Opening, None)] + TreePasses(t) + [b] + [];
        Chain(log, Pass(Elem, Opening, None), TreePasses(t), b, []);
        assert log2 + [b] + [] == log2 + [b];
      }
  }

  lemma {:induction false} MembersRun(tokens: seq<Token>, done: seq<Member>, rest: Stack, log: seq<Pass>)
    ensures MembersRan(Running(On(Fresh(Pair), On(Closed(Map, ObjectNode(done), None), rest)), tokens, log),
                       ParsePairs(tokens), done, rest, log)
    decreases |tokens|, 0
  {
    hide Step, Run;
    var map_ := On(Closed(Map, ObjectNode(done), None), rest);
    PairOpens(tokens, map_, log);
    RunStep(Running(On(Fresh(Pair), map_), tokens, log));
    Rejects(tokens);
    if |tokens| >= 2 && tokens[0].Value? && tokens[0].scalar.Str? && tokens[1] == Token.Colon {
      var name := tokens[0].scalar.s;
      var a := Pass(Pair, Opening, Some(tokens[0]));
      var pair := Frame(Pair, Closing, NoNode, name, None);
      ValueRuns(tokens[2..], pair, map_, log + [a]);
      match ParseValue(tokens[2..])
      case Stuck(_) =>
      case Parsed(t, after) =>
        var m := Member(name, t);
        var log2 := log + [a] + TreePasses(t);
        PairCloses(done, m, rest, after, log2);
        RunStep(Running(On(pair.(child := Some(t)), map_), after, log2));
        Rejects(after);
        if after != [] && after[0] == Token.Comma {
          var b := Pass(Pair, Closing, Some(Token.Comma));
          MembersRun(after[1..], done + [m], rest, log2 + [b]);
          match ParsePairs(after[1..])
          case Stuck(_) =>
          case Parsed(members, more) =>
            Assoc(done, [m], members);
            Front(m, members);
            Chain(log, a, TreePasses(t), b, MemberPasses(members));
        } else if after != [] && after[0] == CloseBrace {
          var b := Pass(Pair, Closing, Some(CloseBrace));
          assert [m][1..] == [];
          assert MemberPasses([m]) == [a] + TreePasses(t) + [b] + [];
          Chain(log, a, TreePasses(t), b, []);
          assert log2 + [b] + [] == log2 + [b];
        }
    }
  }
}
