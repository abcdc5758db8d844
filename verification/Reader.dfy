// The engine as it runs: an object whose frames, tokens and log each rule pass
// changes in place, with @push$ appending to the array of the frame below.

module Reader {
  import opened Options
  import opened Text
  import opened Trees
  import opened Lexer
  import opened Grammar
  import opened Descent
  import opened Transduce
  import opened Documents
  import opened Sources

  // Ordered choice: the first alternate that matches the tokens ahead.
  method Choose(alts: seq<Alt>, tokens: seq<Token>) returns (found: Option<Alt>)
    ensures found.Some? ==> exists i ::
              && 0 <= i < |alts| && alts[i] == found.value && Matches(alts[i], tokens)
              && forall j :: 0 <= j < i ==> !Matches(alts[j], tokens)
    ensures found.None? ==> forall j :: 0 <= j < |alts| ==> !Matches(alts[j], tokens)
    ensures found == FirstMatch(alts, tokens)
  {
    var i := 0;
    while i < |alts|
      invariant 0 <= i <= |alts|
      invariant forall j :: 0 <= j < i ==> !Matches(alts[j], tokens)
      invariant FirstMatch(alts, tokens) == FirstMatch(alts[i..], tokens)
    {
      assert alts[i..][0] == alts[i] && alts[i..][1..] == alts[i + 1..];
      if Matches(alts[i], tokens) {
        return Some(alts[i]);
      }
      i := i + 1;
    }
    return None;
  }

  class Parser {
    var stack: Stack
    var ahead: seq<Token>
    var log: seq<Pass>
    var running: bool
    var value: Option<Tree>

    ghost function Now(): State
      reads this
    {
      if running then Running(stack, ahead, log)
      else match value
        case Some(t) => Accepted(t, log)
        case None => Rejected(ahead)
    }

    constructor (tokens: seq<Token>)
      ensures Now() == Start(tokens)
    {
      stack := On(Fresh(Jsonl), Empty);
      ahead := tokens;
      log := [];
      running := true;
      value := None;
    }

    // One pass of the rule on top.
    method Process()
      requires running
      modifies this
      ensures Now() == Step(old(Now()))
    {
      match stack
      case Empty => running, value := false, None;
      case On(f, below) =>
        var found := Choose(Alts(f.rule, f.phase), ahead);
        match found
        case None => running, value := false, None;
        case Some(alt) =>
          log := log + [Pass(f.rule, f.phase, FirstToken(alt, ahead))];
          Act(alt, f, below);
          ahead := Drop(ahead, |alt.s| - alt.b);
          Go(alt, f.phase);
    }

    // The alternate's action: on the rule's own node, or on the array or the
    // object of the frame below, which grows where it stands.
    method Act(alt: Alt, f: Frame, below: Stack)
      requires stack == On(f, below)
      modifies this`stack
      ensures stack == On(ActTop(alt.a, f, ahead), ActBelow(alt.a, f, below))
    {
      match (alt.a, below)
      case (PushChild, On(g, rest)) => stack := On(f, On(g.(node := Append(g.node, f.child)), rest));
      case (SetMember, On(g, rest)) => stack := On(f, On(g.(node := SetKey(g.node, f.key, f.child)), rest));
      case _ => stack := On(ActTop(alt.a, f, ahead), below);
    }

    // Where the run goes on: into a pushed rule, into the same frame again, to
    // the closing of the rule, or back to the rule that pushed it.
    method Go(alt: Alt, phase: Phase)
      requires running && stack.On? && stack.top.phase == phase
      modifies this
      ensures Now() == (match alt.go
                        case Push(rule) => Running(On(Fresh(rule), On(old(stack.top).(phase := Closing), old(stack.below))), old(ahead), old(log))
                        case Replace(rule) => Running(On(Fresh(rule), old(stack.below)), old(ahead), old(log))
                        case Stay =>
                          if phase == Opening then
                            Running(On(old(stack.top).(phase := Closing), old(stack.below)), old(ahead), old(log))
                          else Return(old(stack.top), old(stack.below), old(ahead), old(log)))
    {
      match alt.go
      case Push(rule) => stack := On(Fresh(rule), On(stack.top.(phase := Closing), stack.below));
      case Replace(rule) => stack := On(Fresh(rule), stack.below);
      case Stay =>
        if phase == Opening {
          stack := On(stack.top.(phase := Closing), stack.below);
        } else {
          var result := NodeValue(stack.top.node);
          match stack.below
          case On(g, rest) => stack := On(g.(child := result), rest);
          case Empty =>
            running := false;
            value := if ahead == [] then result else None;
        }
    }

    // The run to its end.
    method ParseAll()
      modifies this
      ensures !running && Now() == Run(old(Now()))
    {
      while running
        invariant Run(Now()) == Run(old(Now()))
        decreases if running then |ahead| else 0, if running then 1 + Weights(stack) else 0
      {
        ghost var before := Now();
        Process();
        if running {
          StepDecreases(before);
        }
      }
    }
  }

  // `parse`: an array of the records exactly when every non-blank line is one
  // value by itself, those values in order.
  method ParseSource(src: Text) returns (items: Option<seq<Tree>>)
    ensures items == Read(src)
    ensures src == [] ==> items == None
    ensures src != [] ==> (items.Some? <==> AllRecords(Records(src)))
    ensures items.Some? ==> SpellAll(Records(src), items.value)
  {
    if src == [] {
      return None;
    }
    var parser := new Parser(Lex(src));
    parser.ParseAll();
    items := match parser.value case Some(Arr(values)) => Some(values) case _ => None;
    RefinesLineSplitting(src);
  }
}
