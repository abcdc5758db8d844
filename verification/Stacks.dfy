// The rule stack: what frames stand on what, and how high it grows.

module Stacks {
  import opened Options
  import opened Text
  import opened Trees
  import opened Lexer
  import opened Grammar

  // Which rule an alternate of which rule pushes.
  predicate Pushes(below: Rule, above: Rule) {
    match above
    case Jsonl => false
    case Record => below == Jsonl
    case Val => below == Record || below == Pair || below == Elem
    case Map => below == Val
    case List => below == Val
    case Pair => below == Map
    case Elem => below == List
  }

  predicate WellStacked(s: Stack) {
    match s
    case Empty => false
    case On(f, Empty) => f.rule == Jsonl
    case On(f, On(g, rest)) => Pushes(g.rule, f.rule) && g.phase == Closing && WellStacked(On(g, rest))
  }

  function Height(s: Stack): nat {
    match s case Empty => 0 case On(_, below) => 1 + Height(below)
  }

  predicate IsContainer(rule: Rule) {
    rule == Map || rule == List
  }

  function Containers(s: Stack): nat {
    match s case Empty => 0 case On(f, below) => (if IsContainer(f.rule) then 1 else 0) + Containers(below)
  }

  // Containers whose opening bracket has been taken.
  function Entered(s: Stack): nat {
    match s
    case Empty => 0
    case On(f, below) => (if IsContainer(f.rule) && f.phase == Closing then 1 else 0) + Entered(below)
  }

  function Level(rule: Rule): nat {
    match rule
    case Jsonl => 1
    case Record => 2
    case Val => 3
    case Map => 1
    case List => 1
    case Pair => 2
    case Elem => 2
  }

  // The height is linear in the containers open, and nothing else counts.
  lemma {:induction false} HeightIsLinear(s: Stack)
    requires WellStacked(s)
    ensures Height(s) == Level(s.top.rule) + 3 * Containers(s)
    ensures Containers(s) == Entered(s) + (if IsContainer(s.top.rule) && s.top.phase == Opening then 1 else 0)
  {
    if s.below.On? {
      HeightIsLinear(s.below);
    }
  }

  // The nesting a list of tokens leaves.
  function Weigh(token: Token): int {
    match token
    case OpenBrace => 1
    case OpenSquare => 1
    case CloseBrace => -1
    case CloseSquare => -1
    case _ => 0
  }

  function Balance(tokens: seq<Token>): int {
    if tokens == [] then 0 else Balance(tokens[..|tokens| - 1]) + Weigh(tokens[|tokens| - 1])
  }

  // After the first k tokens are taken, the stack stands for exactly the
  // brackets open in them.
  ghost predicate StandsFor(tokens: seq<Token>, st: State) {
    st.Running? ==>
      && WellStacked(st.stack)
      && |st.tokens| <= |tokens|
      && st.tokens == tokens[|tokens| - |st.tokens|..]
      && Entered(st.stack) == Balance(tokens[..|tokens| - |st.tokens|])
  }

  // One pass takes n tokens off the front, and the stack's entered containers
  // change by their brackets.
  ghost predicate PassTakes(st: State, next: State, n: nat)
    requires st.Running? && next.Running?
  {
    && WellStacked(next.stack)
    && n <= 2 && n <= |st.tokens| && next.tokens == st.tokens[n..]
    && Entered(next.stack) == Entered(st.stack) + WeighFirst(st.tokens, n)
  }

  ghost predicate PassKeeps(st: State, next: State)
    requires st.Running?
  {
    next.Running? ==> exists n :: PassTakes(st, next, n)
  }

  function WeighFirst(tokens: seq<Token>, n: nat): int {
    (if n >= 1 && |tokens| >= 1 then Weigh(tokens[0]) else 0) + (if n >= 2 && |tokens| >= 2 then Weigh(tokens[1]) else 0)
  }

  lemma DropIs(tokens: seq<Token>, n: int)
    ensures Drop(tokens, n) == tokens[if n <= 0 then 0 else if n >= |tokens| then |tokens| else n..]
  {
  }

  // An alternate's choice is what its rule and phase allow.
  ghost predicate Sound(f: Frame, tokens: seq<Token>, alt: Alt) {
    && 0 <= |alt.s| - alt.b <= 2
    && (alt.go.Push? ==> Pushes(f.rule, alt.go.rule) && f.phase == Opening)
    && (alt.go.Replace? ==> alt.go.rule == f.rule && !IsContainer(f.rule))
    && WeighFirst(tokens, if |alt.s| - alt.b <= |tokens| then |alt.s| - alt.b else |tokens|) ==
       Change(f)
  }

  lemma OpeningSound(f: Frame, tokens: seq<Token>)
    requires f.phase == Opening
    ensures var found := FirstMatch(Alts(f.rule, Opening), tokens);
            found.Some? ==> Sound(f, tokens, found.value)
  {
    FirstOfFour(Alts(f.rule, Opening), tokens);
    hide FirstMatch;
  }

  lemma ClosingSound(f: Frame, tokens: seq<Token>)
    requires f.phase == Closing
    ensures var found := FirstMatch(Alts(f.rule, Closing), tokens);
            found.Some? ==> Sound(f, tokens, found.value) && (IsContainer(f.rule) ==> found.value.go == Stay)
  {
    FirstOfFour(Alts(f.rule, Closing), tokens);
    hide FirstMatch;
  }

  lemma ActKeepsStack(action: Action, f: Frame, below: Stack)
    ensures Entered(ActBelow(action, f, below)) == Entered(below)
    ensures ActBelow(action, f, below).Empty? <==> below.Empty?
    ensures below.On? ==> ActBelow(action, f, below).top.rule == below.top.rule
    ensures below.On? ==> ActBelow(action, f, below).top.phase == below.top.phase
    ensures WellStacked(below) ==> WellStacked(ActBelow(action, f, below))
  {
  }

  // How a pass of a rule changes the count of entered containers.
  function Change(f: Frame): int {
    if !IsContainer(f.rule) then 0 else if f.phase == Opening then 1 else -1
  }

  lemma TakeStack(alt: Alt, f: Frame, below: Stack, tokens: seq<Token>, log: seq<Pass>)
    requires WellStacked(On(f, below)) && Sound(f, tokens, alt)
    requires f.phase == Closing && IsContainer(f.rule) ==> alt.go == Stay
    requires Take(alt, f, below, tokens, log).Running?
    ensures WellStacked(Take(alt, f, below, tokens, log).stack)
    ensures Entered(Take(alt, f, below, tokens, log).stack) == Entered(On(f, below)) + Change(f)
    ensures Take(alt, f, below, tokens, log).tokens == Drop(tokens, |alt.s| - alt.b)
  {
    var f', below' := ActTop(alt.a, f, tokens), ActBelow(alt.a, f, below);
    ActKeepsStack(alt.a, f, below);
    assert f'.rule == f.rule && f'.phase == f.phase;
    hide ActTop, ActBelow, Drop;
    assert WellStacked(On(f', below'));
    match alt.go
    case Push(rule) => assert WellStacked(On(f'.(phase := Closing), below'));
    case Replace(rule) =>
    case Stay =>
  }

  lemma TakeKeeps(alt: Alt, f: Frame, below: Stack, tokens: seq<Token>, log: seq<Pass>)
    requires WellStacked(On(f, below)) && Sound(f, tokens, alt)
    requires f.phase == Closing && IsContainer(f.rule) ==> alt.go == Stay
    ensures PassKeeps(Running(On(f, below), tokens, log), Take(alt, f, below, tokens, log))
  {
    var n := |alt.s| - alt.b;
    var st, next := Running(On(f, below), tokens, log), Take(alt, f, below, tokens, log);
    if next.Running? {
      TakeStack(alt, f, below, tokens, log);
      DropIs(tokens, n);
      hide Take, WellStacked, Entered, Drop;
      assert PassTakes(st, next, if n <= |tokens| then n else |tokens|);
    }
  }

  // Every pass of every rule keeps the stack well stacked.
  lemma StepKeeps(st: State)
    requires st.Running? && WellStacked(st.stack)
    ensures PassKeeps(st, Step(st))
  {
    hide PassKeeps, PassTakes, FirstMatch, Alts, Sound, Take;
    var f, below := st.stack.top, st.stack.below;
    if f.phase == Opening {
      OpeningSound(f, st.tokens);
    } else {
      ClosingSound(f, st.tokens);
    }
    match FirstMatch(Alts(f.rule, f.phase), st.tokens)
    case None => RejectedKeeps(st, Step(st));
    case Some(alt) => TakeKeeps(alt, f, below, st.tokens, st.log);
  }

  lemma RejectedKeeps(st: State, next: State)
    requires st.Running? && !next.Running?
    ensures PassKeeps(st, next)
  {
  }

  // The n-th state of a run.
  function After(st: State, n: nat): State
    decreases n
  {
    if n == 0 then st
    else
      var before := After(st, n - 1);
      if before.Running? then Step(before) else before
  }

  lemma {:induction false} BalanceAppend(a: seq<Token>, b: seq<Token>)
    ensures Balance(a + b) == Balance(a) + Balance(b)
    decreases |b|
  {
    if b == [] {
      Padded(a);
    } else {
      var front, last := b[..|b| - 1], b[|b| - 1];
      assert b == front + [last];
      Assoc(a, front, [last]);
      Init(a + front, last);
      BalanceAppend(a, front);
    }
  }

  lemma BalanceFirst(tokens: seq<Token>, n: nat)
    requires n <= 2 && n <= |tokens|
    ensures Balance(tokens[..n]) == WeighFirst(tokens, n)
  {
    if n >= 1 {
      assert tokens[..1][..0] == [];
      assert Balance(tokens[..1]) == Balance([]) + Weigh(tokens[0]);
    }
    if n == 2 {
      assert tokens[..2][..1] == tokens[..1];
    }
  }

  lemma TakeMore(tokens: seq<Token>, k: nat, n: nat)
    requires k + n <= |tokens| && n <= 2
    ensures tokens[k..][n..] == tokens[k + n..]
    ensures Balance(tokens[..k + n]) == Balance(tokens[..k]) + WeighFirst(tokens[k..], n)
  {
    assert tokens[..k + n] == tokens[..k] + tokens[k..][..n];
    BalanceAppend(tokens[..k], tokens[k..][..n]);
    BalanceFirst(tokens[k..], n);
  }

  lemma {:induction false} RunStandsFor(tokens: seq<Token>, n: nat)
    ensures StandsFor(tokens, After(Start(tokens), n))
    decreases n
  {
    if n == 0 {
      assert tokens[..0] == [];
    } else {
      RunStandsFor(tokens, n - 1);
      var before := After(Start(tokens), n - 1);
      if before.Running? {
        StepKeeps(before);
        hide Step;
        if Step(before).Running? {
          StandsForNext(tokens, before, Step(before));
        }
      }
    }
  }

  lemma StandsForNext(tokens: seq<Token>, before: State, next: State)
    requires before.Running? && next.Running? && StandsFor(tokens, before) && PassKeeps(before, next)
    ensures StandsFor(tokens, next)
  {
    hide WellStacked, Entered, Balance, WeighFirst;
    var n :| PassTakes(before, next, n);
    TakeMore(tokens, |tokens| - |before.tokens|, n);
  }

  // At every point of every run the stack's height is fixed by the rule on top
  // and the brackets open in the tokens taken: at the start of a record it is
  // two, whatever came before, and inside one it is linear in the nesting.
  lemma StackIsBounded(tokens: seq<Token>, n: nat)
    requires After(Start(tokens), n).Running?
    ensures var st := After(Start(tokens), n);
            && WellStacked(st.stack) && |st.tokens| <= |tokens|
            && var open := Balance(tokens[..|tokens| - |st.tokens|]);
            && Height(st.stack) <= 4 + 3 * open
            && (st.stack.top.rule == Record ==> open == 0 && Height(st.stack) == 2)
            && (st.stack.top.rule == Val ==> Height(st.stack) == 3 + 3 * open)
  {
    RunStandsFor(tokens, n);
    hide After, Start, Balance;
    var s := After(Start(tokens), n).stack;
    HeightIsLinear(s);
    if s.top.rule == Record {
      RecordStack(s);
    }
  }

  lemma RecordStack(s: Stack)
    requires WellStacked(s) && s.top.rule == Record
    ensures Height(s) == 2 && Entered(s) == 0
  {
    assert s.below.On? && s.below.top.rule == Jsonl;
    assert s.below == On(s.below.top, Empty);
    assert Height(s.below) == 1 + Height(Empty) && Entered(s.below) == 0 + Entered(Empty);
  }
}
