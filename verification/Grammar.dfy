// ts/src/jsonl.ts: the document rules over strict JSON's value rules, run by
// the engine's rule machine. Ordered alternates are tried against the tokens
// ahead; the first that matches takes its tokens, acts on the frames and
// pushes a rule, replaces its own or goes on.

module Grammar {
  import opened Options
  import opened Text
  import opened Trees
  import opened Lexer

  datatype Rule = Jsonl | Record | Val | Map | List | Pair | Elem

  datatype Phase = Opening | Closing

  // What an alternate's pattern asks of one token. ZZ is the end of input,
  // VAL any value token and KEY a string.
  datatype Tin = ZZ | LN | OB | CB | OS | CS | CL | CA | VAL | KEY

  datatype Action =
    | NoAction
    | NewArray   // @array$ of the document and of a list
    | NewObject  // the same of a map
    | PushChild  // @push$: the child's value onto the array of the frame below
    | SetMember  // the child's value into the object of the frame below, under the key
    | TakeScalar // the first token's value is the rule's
    | TakeChild  // the child's value, if there is one, is the rule's
    | TakeKey    // the first token's value is the member's name

  datatype Go = Push(rule: Rule) | Replace(rule: Rule) | Stay

  // `b` is how many of the matched tokens are given back.
  datatype Alt = Alt(s: seq<Tin>, b: nat, go: Go, a: Action)

  // jsonl and record are ts/src/jsonl.ts:95-153 alternate by alternate; the
  // other five are the strict-JSON base's.
  function Alts(rule: Rule, phase: Phase): seq<Alt> {
    match (rule, phase)
    case (Jsonl, Opening) =>
      [Alt([ZZ], 0, Stay, NewArray),
       Alt([LN, ZZ], 0, Stay, NewArray),
       Alt([LN], 0, Push(Record), NewArray),
       Alt([], 0, Push(Record), NewArray)]
    case (Jsonl, Closing) => [Alt([], 0, Stay, NoAction)]
    case (Record, Opening) =>
      [Alt([LN, ZZ], 0, Stay, NoAction),
       Alt([LN], 0, Replace(Record), NoAction),
       Alt([], 0, Push(Val), NoAction)]
    case (Record, Closing) =>
      [Alt([LN, ZZ], 0, Stay, PushChild),
       Alt([LN], 0, Replace(Record), PushChild),
       Alt([ZZ], 0, Stay, PushChild)]
    case (Val, Opening) =>
      [Alt([OB], 1, Push(Map), NoAction),
       Alt([OS], 1, Push(List), NoAction),
       Alt([VAL], 0, Stay, TakeScalar)]
    case (Val, Closing) => [Alt([], 0, Stay, TakeChild)]
    case (Map, Opening) =>
      [Alt([OB, CB], 1, Stay, NewObject),
       Alt([OB], 0, Push(Pair), NewObject)]
    case (Map, Closing) => [Alt([CB], 0, Stay, NoAction)]
    case (List, Opening) =>
      [Alt([OS, CS], 1, Stay, NewArray),
       Alt([OS], 0, Push(Elem), NewArray)]
    case (List, Closing) => [Alt([CS], 0, Stay, NoAction)]
    case (Pair, Opening) => [Alt([KEY, CL], 0, Push(Val), TakeKey)]
    case (Pair, Closing) =>
      [Alt([CA], 0, Replace(Pair), SetMember),
       Alt([CB], 1, Stay, SetMember)]
    case (Elem, Opening) => [Alt([], 0, Push(Val), NoAction)]
    case (Elem, Closing) =>
      [Alt([CA], 0, Replace(Elem), PushChild),
       Alt([CS], 1, Stay, PushChild)]
  }

  // The tokens ahead. Past the last one there is only #ZZ, which can be
  // matched any number of times.
  predicate Fits(tin: Tin, tokens: seq<Token>, at: nat) {
    if at >= |tokens| then tin == ZZ
    else match tokens[at]
      case OpenBrace => tin == OB
      case CloseBrace => tin == CB
      case OpenSquare => tin == OS
      case CloseSquare => tin == CS
      case Colon => tin == CL
      case Comma => tin == CA
      case Line => tin == LN
      case Value(scalar) => tin == VAL || (tin == KEY && scalar.Str?)
      case Bad => false
  }

  // A pattern is at most two tokens long: that is all the lookahead there is.
  predicate Matches(alt: Alt, tokens: seq<Token>) {
    (|alt.s| >= 1 ==> Fits(alt.s[0], tokens, 0)) && (|alt.s| >= 2 ==> Fits(alt.s[1], tokens, 1))
  }

  function FirstMatch(alts: seq<Alt>, tokens: seq<Token>): Option<Alt> {
    if alts == [] then None
    else if Matches(alts[0], tokens) then Some(alts[0])
    else FirstMatch(alts[1..], tokens)
  }

  function Drop(tokens: seq<Token>, n: int): seq<Token> {
    if n <= 0 then tokens else if n >= |tokens| then [] else tokens[n..]
  }

  // The value a rule builds. Record, pair and elem build into the node of the
  // frame below theirs, so they hold none.
  datatype Node = NoNode | ArrayNode(items: seq<Tree>) | ObjectNode(members: seq<Member>) | TreeNode(tree: Tree)

  datatype Frame = Frame(rule: Rule, phase: Phase, node: Node, key: Text, child: Option<Tree>)

  datatype Stack = Empty | On(top: Frame, below: Stack)

  function Fresh(rule: Rule): Frame {
    Frame(rule, Opening, NoNode, [], None)
  }

  function NodeValue(node: Node): Option<Tree> {
    match node
    case NoNode => None
    case ArrayNode(items) => Some(Arr(items))
    case ObjectNode(members) => Some(Obj(members))
    case TreeNode(tree) => Some(tree)
  }

  function Append(node: Node, child: Option<Tree>): Node {
    match (node, child)
    case (ArrayNode(items), Some(t)) => ArrayNode(items + [t])
    case _ => node
  }

  function SetKey(node: Node, key: Text, child: Option<Tree>): Node {
    match (node, child)
    case (ObjectNode(members), Some(t)) => ObjectNode(members + [Member(key, t)])
    case _ => node
  }

  function TokenScalar(tokens: seq<Token>): Option<Scalar> {
    if tokens != [] && tokens[0].Value? then Some(tokens[0].scalar) else None
  }

  function TokenText(tokens: seq<Token>): Text {
    if tokens != [] && tokens[0].Value? && tokens[0].scalar.Str? then tokens[0].scalar.s else []
  }

  function ActTop(action: Action, f: Frame, tokens: seq<Token>): Frame {
    match action
    case NewArray => f.(node := ArrayNode([]))
    case NewObject => f.(node := ObjectNode([]))
    case TakeScalar =>
      (match TokenScalar(tokens) case Some(scalar) => f.(node := TreeNode(Leaf(scalar))) case None => f)
    case TakeChild => (match f.child case Some(t) => f.(node := TreeNode(t)) case None => f)
    case TakeKey => f.(key := TokenText(tokens))
    case _ => f
  }

  function ActBelow(action: Action, f: Frame, below: Stack): Stack {
    match below
    case Empty => Empty
    case On(g, rest) =>
      match action
      case PushChild => On(g.(node := Append(g.node, f.child)), rest)
      case SetMember => On(g.(node := SetKey(g.node, f.key, f.child)), rest)
      case _ => below
  }

  // A rule pass as ParserEvents/1 reports it: the rule, the phase and the
  // first token its alternate matched.
  datatype Pass = Pass(rule: Rule, phase: Phase, first: Option<Token>)

  function FirstToken(alt: Alt, tokens: seq<Token>): Option<Token> {
    if alt.s == [] || tokens == [] then None else Some(tokens[0])
  }

  datatype State =
    | Running(stack: Stack, tokens: seq<Token>, log: seq<Pass>)
    | Accepted(value: Tree, log: seq<Pass>)
    | Rejected(tokens: seq<Token>)

  function Start(tokens: seq<Token>): State {
    Running(On(Fresh(Jsonl), Empty), tokens, [])
  }

  // A rule that is done gives its value to the rule that pushed it.
  function Return(f: Frame, below: Stack, tokens: seq<Token>, log: seq<Pass>): State {
    match below
    case On(g, rest) => Running(On(g.(child := NodeValue(f.node)), rest), tokens, log)
    case Empty =>
      match NodeValue(f.node)
      case Some(t) => if tokens == [] then Accepted(t, log) else Rejected(tokens)
      case None => Rejected(tokens)
  }

  function Take(alt: Alt, f: Frame, below: Stack, tokens: seq<Token>, log: seq<Pass>): State {
    var f' := ActTop(alt.a, f, tokens);
    var below' := ActBelow(alt.a, f, below);
    var tokens' := Drop(tokens, |alt.s| - alt.b);
    var log' := log + [Pass(f.rule, f.phase, FirstToken(alt, tokens))];
    match alt.go
    case Push(rule) => Running(On(Fresh(rule), On(f'.(phase := Closing), below')), tokens', log')
    case Replace(rule) => Running(On(Fresh(rule), below'), tokens', log')
    case Stay =>
      if f.phase == Opening then Running(On(f'.(phase := Closing), below'), tokens', log')
      else Return(f', below', tokens', log')
  }

  // One pass of the rule on top of the stack.
  function Step(st: State): State
    requires st.Running?
  {
    match st.stack
    case Empty => Rejected(st.tokens)
    case On(f, below) =>
      match FirstMatch(Alts(f.rule, f.phase), st.tokens)
      case None => Rejected(st.tokens)
      case Some(alt) => Take(alt, f, below, st.tokens, st.log)
  }

  // Passes a frame can make before it takes a token or leaves the stack.
  function Weight(f: Frame): nat {
    match (f.rule, f.phase)
    case (_, Closing) => 1
    case (Val, _) => 4
    case (Elem, _) => 6
    case (Record, _) => 6
    case (Jsonl, _) => 8
    case _ => 2
  }

  function Weights(s: Stack): nat {
    match s case Empty => 0 case On(f, below) => Weight(f) + Weights(below)
  }

  // No rule has more than four alternates.
  lemma FirstOfFour(alts: seq<Alt>, tokens: seq<Token>)
    requires |alts| <= 4
    ensures FirstMatch(alts, tokens) ==
            if |alts| > 0 && Matches(alts[0], tokens) then Some(alts[0])
            else if |alts| > 1 && Matches(alts[1], tokens) then Some(alts[1])
            else if |alts| > 2 && Matches(alts[2], tokens) then Some(alts[2])
            else if |alts| > 3 && Matches(alts[3], tokens) then Some(alts[3])
            else None
  {
    hide Matches;
    if |alts| > 1 {
      assert FirstMatch(alts[1..], tokens) ==
             if Matches(alts[1], tokens) then Some(alts[1]) else FirstMatch(alts[2..], tokens) by {
        assert alts[1..][1..] == alts[2..];
      }
    }
    if |alts| > 2 {
      assert FirstMatch(alts[2..], tokens) ==
             if Matches(alts[2], tokens) then Some(alts[2]) else FirstMatch(alts[3..], tokens) by {
        assert alts[2..][1..] == alts[3..];
      }
    }
    if |alts| > 3 {
      assert alts[3..][1..] == [];
    }
  }

  // Every pass takes a token or leaves less to do before one is taken.
  ghost predicate Progress(f: Frame, alt: Alt, tokens: seq<Token>) {
    || |Drop(tokens, |alt.s| - alt.b)| < |tokens|
    || (|Drop(tokens, |alt.s| - alt.b)| == |tokens| &&
        match alt.go
        case Push(rule) => Weight(Fresh(rule)) + 1 < Weight(f)
        case Replace(_) => false
        case Stay => f.phase == Opening ==> 1 < Weight(f))
  }

  lemma AltProgress(f: Frame, tokens: seq<Token>)
    ensures var found := FirstMatch(Alts(f.rule, f.phase), tokens);
            found.Some? ==> Progress(f, found.value, tokens)
  {
    hide FirstMatch;
    FirstOfFour(Alts(f.rule, f.phase), tokens);
  }

  lemma ActBelowWeights(action: Action, f: Frame, below: Stack)
    ensures Weights(ActBelow(action, f, below)) == Weights(below)
  {
  }

  lemma StepDecreases(st: State)
    requires st.Running? && Step(st).Running?
    ensures || |Step(st).tokens| < |st.tokens|
            || (|Step(st).tokens| == |st.tokens| && Weights(Step(st).stack) < Weights(st.stack))
  {
    hide FirstMatch, Alts;
    var f, below := st.stack.top, st.stack.below;
    AltProgress(f, st.tokens);
    var alt := FirstMatch(Alts(f.rule, f.phase), st.tokens).value;
    ActBelowWeights(alt.a, f, below);
    assert ActTop(alt.a, f, st.tokens).rule == f.rule;
  }

  // The whole run.
  function Run(st: State): (r: State)
    ensures !r.Running?
    decreases if st.Running? then |st.tokens| else 0, if st.Running? then 1 + Weights(st.stack) else 0
  {
    if !st.Running? then st
    else
      assert Step(st).Running? ==>
        |Step(st).tokens| < |st.tokens| ||
        (|Step(st).tokens| == |st.tokens| && Weights(Step(st).stack) < Weights(st.stack)) by {
        if Step(st).Running? { StepDecreases(st); }
      }
      Run(Step(st))
  }
}
