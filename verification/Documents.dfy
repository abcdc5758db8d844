// Whole documents: `jsonl` and `record` iterate by replacement over the token
// lines, and accept exactly when every line that is not empty is one value.

module Documents {
  import opened Options
  import opened Text
  import opened Trees
  import opened Lexer
  import opened Grammar
  import opened Descent
  import opened Machine
  import opened Transduce

  // The records a run of `record` reads, or the tokens it is stuck at.
  function ParseRecords(tokens: seq<Token>): Parsed<seq<Tree>>
    decreases |tokens|
  {
    if tokens == [] then Stuck([])
    else if tokens[0] == Line then
      if |tokens| == 1 then Parsed([], []) else ParseRecords(tokens[1..])
    else match ParseValue(tokens)
      case Stuck(at) => Stuck(at)
      case Parsed(t, rest) =>
        if rest == [] || rest == [Line] then Parsed([t], [])
        else if rest[0] != Line then Stuck(rest)
        else match ParseRecords(rest[1..])
          case Stuck(at) => Stuck(at)
          case Parsed(items, _) => Parsed([t] + items, [])
  }

  function ParseDocument(tokens: seq<Token>): Parsed<seq<Tree>> {
    if tokens == [] then Parsed([], []) else ParseRecords(tokens)
  }

  // The stack at the start of every record: two frames, however many records
  // came before.
  function AtRecord(done: seq<Tree>): Stack {
    On(Fresh(Record), On(Closed(Jsonl, ArrayNode(done), None), Empty))
  }

  lemma RecordOpens(tokens: seq<Token>, below: Stack, log: seq<Pass>)
    ensures var st := Step(Running(On(Fresh(Record), below), tokens, log));
            if tokens == [Line] then
              st == Running(On(Closed(Record, NoNode, None), below), [], log + [Pass(Record, Opening, Some(Line))])
            else if tokens != [] && tokens[0] == Line then
              st == Running(On(Fresh(Record), below), tokens[1..], log + [Pass(Record, Opening, Some(Line))])
            else
              st == Running(On(Fresh(Val), On(Closed(Record, NoNode, None), below)), tokens, log + [Pass(Record, Opening, None)])
  {
    assert FirstMatch(Alts(Record, Opening), tokens) ==
           if tokens == [Line] then Some(Alt([LN, ZZ], 0, Stay, NoAction))
           else if tokens != [] && tokens[0] == Line then Some(Alt([LN], 0, Replace(Record), NoAction))
           else Some(Alt([], 0, Go.Push(Val), NoAction)) by {
      FirstOfFour(Alts(Record, Opening), tokens);
    }
    hide FirstMatch, Alts, Matches, Fits;
  }

  lemma RecordCloses(child: Option<Tree>, done: seq<Tree>, tokens: seq<Token>, log: seq<Pass>)
    ensures var items := if child.Some? then done + [child.value] else done;
            var st := Step(Running(On(Closed(Record, NoNode, child), On(Closed(Jsonl, ArrayNode(done), None), Empty)), tokens, log));
            var ended := On(Closed(Jsonl, ArrayNode(items), None), Empty);
            if tokens == [] then st == Running(ended, [], log + [Pass(Record, Closing, None)])
            else if tokens == [Line] then st == Running(ended, [], log + [Pass(Record, Closing, Some(Line))])
            else if tokens[0] == Line then st == Running(AtRecord(items), tokens[1..], log + [Pass(Record, Closing, Some(Line))])
            else st == Rejected(tokens)
  {
    assert FirstMatch(Alts(Record, Closing), tokens) ==
           if tokens == [] then Some(Alt([ZZ], 0, Stay, PushChild))
           else if tokens == [Line] then Some(Alt([LN, ZZ], 0, Stay, PushChild))
           else if tokens[0] == Line then Some(Alt([LN], 0, Replace(Record), PushChild))
           else None by {
      FirstOfFour(Alts(Record, Closing), tokens);
    }
    hide FirstMatch, Alts, Matches, Fits;
  }

  lemma JsonlOpens(tokens: seq<Token>)
    ensures var st := Step(Start(tokens));
            if tokens == [] then
              st == Running(On(Closed(Jsonl, ArrayNode([]), None), Empty), [], [Pass(Jsonl, Opening, None)])
            else if tokens == [Line] then
              st == Running(On(Closed(Jsonl, ArrayNode([]), None), Empty), [], [Pass(Jsonl, Opening, Some(Line))])
            else if tokens[0] == Line then
              st == Running(AtRecord([]), tokens[1..], [Pass(Jsonl, Opening, Some(Line))])
            else st == Running(AtRecord([]), tokens, [Pass(Jsonl, Opening, None)])
  {
    assert FirstMatch(Alts(Jsonl, Opening), tokens) ==
           if tokens == [] then Some(Alt([ZZ], 0, Stay, NewArray))
           else if tokens == [Line] then Some(Alt([LN, ZZ], 0, Stay, NewArray))
           else if tokens[0] == Line then Some(Alt([LN], 0, Go.Push(Record), NewArray))
           else Some(Alt([], 0, Go.Push(Record), NewArray)) by {
      FirstOfFour(Alts(Jsonl, Opening), tokens);
    }
    hide FirstMatch, Alts, Matches, Fits;
  }

  lemma JsonlCloses(items: seq<Tree>, log: seq<Pass>)
    ensures Run(Running(On(Closed(Jsonl, ArrayNode(items), None), Empty), [], log)) ==
            Accepted(Arr(items), log + [Pass(Jsonl, Closing, None)])
  {
    assert FirstMatch(Alts(Jsonl, Closing), []) == Some(Alt([], 0, Stay, NoAction)) by {
      FirstOfFour(Alts(Jsonl, Closing), []);
    }
    hide FirstMatch, Alts, Matches, Fits;
    var st := Running(On(Closed(Jsonl, ArrayNode(items), None), Empty), [], log);
    assert Step(st) == Accepted(Arr(items), log + [Pass(Jsonl, Closing, None)]);
    RunStep(st);
  }

  // What a run from the start of a record must come to: the records appended
  // to those done, and their events to those logged.
  ghost predicate RecordsRan(st: State, parsed: Parsed<seq<Tree>>, done: seq<Tree>, log: seq<Pass>) {
    match parsed
    case Stuck(at) => Run(st) == Rejected(at)
    case Parsed(items, _) =>
      && Run(st).Accepted?
      && Run(st).value == Arr(done + items)
      && Events(Run(st).log) == Events(log) + LinearItems(items) + [ArrayEnd]
  }

  lemma EndsDocument(items: seq<Tree>, log: seq<Pass>, pass: Pass)
    requires pass.rule == Record
    ensures var st := Run(Running(On(Closed(Jsonl, ArrayNode(items), None), Empty), [], log + [pass]));
            st.Accepted? && st.value == Arr(items) && Events(st.log) == Events(log) + [ArrayEnd]
  {
    hide Run;
    JsonlCloses(items, log + [pass]);
    EventsPush(log, pass);
    EventsPush(log + [pass], Pass(Jsonl, Closing, None));
    assert Events(log) + [] == Events(log);
  }

  lemma {:induction false} RecordsRun(tokens: seq<Token>, done: seq<Tree>, log: seq<Pass>)
    ensures RecordsRan(Running(AtRecord(done), tokens, log), ParseRecords(tokens), done, log)
    decreases |tokens|
  {
    hide Step, Run, Events;
    var st := Running(AtRecord(done), tokens, log);
    var jsonl := On(Closed(Jsonl, ArrayNode(done), None), Empty);
    RecordOpens(tokens, jsonl, log);
    RunStep(st);
    if tokens != [] && tokens[0] == Line {
      var skip := Pass(Record, Opening, Some(Line));
      EventsPush(log, skip);
      assert Events(log) + [] == Events(log);
      if |tokens| == 1 {
        assert tokens == [Line];
        RecordCloses(None, done, [], log + [skip]);
        RunStep(Running(On(Closed(Record, NoNode, None), jsonl), [], log + [skip]));
        EndsDocument(done, log + [skip], Pass(Record, Closing, None));
        assert done + [] == done && Events(log) + LinearItems([]) == Events(log);
      } else {
        RecordsRun(tokens[1..], done, log + [skip]);
      }
    } else {
      OneRecordRuns(tokens, done, log);
    }
  }

  lemma {:induction false} OneRecordRuns(tokens: seq<Token>, done: seq<Tree>, log: seq<Pass>)
    requires tokens == [] || tokens[0] != Line
    ensures RecordsRan(Running(AtRecord(done), tokens, log), ParseRecords(tokens), done, log)
    decreases |tokens|, 0
  {
    hide Step, Run, Events;
    var jsonl := On(Closed(Jsonl, ArrayNode(done), None), Empty);
    var open := Pass(Record, Opening, None);
    RecordOpens(tokens, jsonl, log);
    RunStep(Running(AtRecord(done), tokens, log));
    ValueRuns(tokens, Closed(Record, NoNode, None), jsonl, log + [open]);
    match ParseValue(tokens)
    case Stuck(_) =>
    case Parsed(t, rest) =>
      var log1 := log + [open] + TreePasses(t);
      RecordEvents(log, open, t);
      RecordCloses(Some(t), done, rest, log1);
      RunStep(Running(On(Closed(Record, NoNode, Some(t)), jsonl), rest, log1));
      Rejects(rest);
      if rest == [] || rest == [Line] {
        EndsDocument(done + [t], log1, Pass(Record, Closing, if rest == [] then None else Some(Line)));
        LinearItemsOne(t);
      } else if rest[0] == Line {
        var close := Pass(Record, Closing, Some(Line));
        RecordsRun(rest[1..], done + [t], log1 + [close]);
        EventsPush(log1, close);
        assert Events(log1) + [] == Events(log1);
        match ParseRecords(rest[1..])
        case Stuck(_) =>
        case Parsed(items, _) =>
          Assoc(done, [t], items);
          LinearItemsMore(t, items);
          Assoc(Events(log), Linear(t), LinearItems(items));
      }
  }

  lemma RecordEvents(log: seq<Pass>, open: Pass, t: Tree)
    requires open.rule == Record
    ensures Events(log + [open] + TreePasses(t)) == Events(log) + Linear(t)
  {
    EventsPush(log, open);
    assert Events(log) + [] == Events(log);
    EventsAppend(log + [open], TreePasses(t));
    TreePassesLinear(t);
  }

  lemma LinearItemsOne(t: Tree)
    ensures LinearItems([t]) == Linear(t)
  {
    LinearItemsPush([], t);
    assert [] + [t] == [t];
  }

  lemma LinearItemsMore(t: Tree, items: seq<Tree>)
    ensures LinearItems([t] + items) == Linear(t) + LinearItems(items)
  {
    LinearItemsFront([t] + items);
    Front(t, items);
  }

  // The machine over a whole document is the document's descent, and an
  // accepted document's passes are the events of its array, however many
  // times `record` replaced itself.
  lemma DocumentRuns(tokens: seq<Token>)
    ensures match ParseDocument(tokens)
            case Stuck(at) => Run(Start(tokens)) == Rejected(at)
            case Parsed(items, _) =>
              && Run(Start(tokens)).Accepted?
              && Run(Start(tokens)).value == Arr(items)
              && Events(Run(Start(tokens)).log) == Linear(Arr(items))
  {
    hide Step, Run, Events;
    JsonlOpens(tokens);
    RunStep(Start(tokens));
    var first := Pass(Jsonl, Opening, if tokens != [] && tokens[0] == Line then Some(Line) else None);
    EventsPush([], first);
    assert [] + [first] == [first];
    assert Events([first]) == [ArrayStart] by { EventsNone(); }
    if tokens == [] || tokens == [Line] {
      JsonlCloses([], [first]);
      EventsPush([first], Pass(Jsonl, Closing, None));
      assert [ArrayStart] + LinearItems([]) + [ArrayEnd] == [ArrayStart] + [ArrayEnd];
    } else {
      RecordsRun(if tokens[0] == Line then tokens[1..] else tokens, [], [first]);
      match ParseDocument(tokens)
      case Stuck(_) =>
      case Parsed(items, _) => assert [] + items == items;
    }
  }

  lemma EventsNone()
    ensures Events([]) == []
  {
  }
}
