// Runs of the registry: what goes on after a free, and loads in any number.

module RegistryRuns {
  import opened Options
  import opened Registry
  import opened RegistryProofs

  // A run going on from a state.
  function RunFrom(s: State, moves: seq<Move>): Option<State>
    decreases |moves|
  {
    if moves == [] then Some(s)
    else match Step(s, moves[0].t, moves[0].choice)
      case None => None
      case Some(next) => RunFrom(next, moves[1..])
  }

  predicate Issues(e: Event, handle: int) {
    e.Issued? && Wrap(e.n) == handle
  }

  lemma {:induction false} GoneStaysGone(s: State, moves: seq<Move>, later: State, handle: int)
    requires Inv(s) && handle !in s.loaded && RunFrom(s, moves) == Some(later)
    requires forall i :: |s.history| <= i < |later.history| ==> !Issues(later.history[i], handle)
    ensures |s.history| <= |later.history| && s.history == later.history[..|s.history|]
    ensures handle !in later.loaded
    decreases |moves|
  {
    hide Inv, Step, Wrap, Issues;
    if moves != [] {
      var next := Step(s, moves[0].t, moves[0].choice).value;
      StepKeeps(s, moves[0].t, moves[0].choice, next);
      HistoryGrows(s, moves[0].t, moves[0].choice, next);
      RunHistory(next, moves[1..], later);
      StepAway(s, moves[0].t, moves[0].choice, next, handle);
      assert next.history[..|s.history|] == later.history[..|s.history|];
      GoneStaysGone(next, moves[1..], later, handle);
    }
  }

  lemma {:induction false} RunHistory(s: State, moves: seq<Move>, later: State)
    requires RunFrom(s, moves) == Some(later)
    ensures |s.history| <= |later.history| && s.history == later.history[..|s.history|]
    decreases |moves|
  {
    hide Step;
    if moves != [] {
      var next := Step(s, moves[0].t, moves[0].choice).value;
      HistoryGrows(s, moves[0].t, moves[0].choice, next);
      RunHistory(next, moves[1..], later);
      assert next.history[..|s.history|] == later.history[..|s.history|];
    }
  }

  lemma StepAway(s: State, t: Tid, c: Choice, s': State, handle: int)
    requires Inv(s) && handle !in s.loaded && Step(s, t, c) == Some(s')
    ensures (|s'.history| > |s.history| ==> !Issues(s'.history[|s.history|], handle)) ==> handle !in s'.loaded
  {
    hide Step, Wrap;
    StepTableChange(s, t, c, s');
    assert NumbersRight(s);
    if PcOf(s, t).LoadNamed? {
      assert s'.history[|s.history|] == Issued(s.serial, PcOf(s, t).parse);
    }
  }

  // Once a free has deleted a handle, no lookup finds it until a load is
  // given that handle again.
  lemma FreedIsGone(s: State, t: Tid, moves: seq<Move>, later: State)
    requires Reachable(s) && PcOf(s, t).FreeOut? && RunFrom(s, moves) == Some(later)
    requires forall i :: |s.history| <= i < |later.history| ==> !Issues(later.history[i], PcOf(s, t).handle)
    ensures Lookup(later, PcOf(s, t).handle) == None
  {
    hide Reachable, RunFrom, Issues;
    ReachableKeeps(s);
    GoneStaysGone(s, moves, later, PcOf(s, t).handle);
  }

  function Goes(t: Tid, n: nat): (moves: seq<Move>)
    ensures |moves| == n
  {
    if n == 0 then [] else [Move(t, Go)] + Goes(t, n - 1)
  }

  lemma EndOfRun(s: State, t: Tid)
    ensures RunFrom(s, Goes(t, 0)) == Some(s)
  {
  }

  lemma FirstMove(s: State, move: Move, rest: seq<Move>)
    requires Step(s, move.t, move.choice).Some?
    ensures RunFrom(s, [move] + rest) == RunFrom(Step(s, move.t, move.choice).value, rest)
  {
    hide Step;
    assert ([move] + rest)[1..] == rest;
  }

  lemma FreeGoes(s: State, t: Tid, n: nat)
    requires PcOf(s, t).FreeWant? || PcOf(s, t).FreeIn? || PcOf(s, t).FreeOut?
    requires FreeStep(s, t, PcOf(s, t)).Some?
    ensures RunFrom(s, Goes(t, n + 1)) == RunFrom(FreeStep(s, t, PcOf(s, t)).value, Goes(t, n))
  {
    hide RunFrom, FreeStep, PcOf;
    FirstMove(s, Move(t, Go), Goes(t, n));
  }

  lemma LoadGoes(s: State, t: Tid, n: nat)
    requires PcOf(s, t).LoadWant? || PcOf(s, t).LoadIn? || PcOf(s, t).LoadCounted? || PcOf(s, t).LoadNamed? || PcOf(s, t).LoadStored?
    requires LoadStep(s, t, PcOf(s, t)).Some?
    ensures RunFrom(s, Goes(t, n + 1)) == RunFrom(LoadStep(s, t, PcOf(s, t)).value, Goes(t, n))
  {
    hide RunFrom, LoadStep, PcOf;
    FirstMove(s, Move(t, Go), Goes(t, n));
  }

  // A free that meets nobody.
  lemma FreeAlone(s: State, t: Tid, handle: int)
    requires CanWrite(s) && PcOf(s, t) == FreeWant(handle)
    ensures
      var end := RunFrom(s, Goes(t, 3));
      && end.Some? && PcOf(end.value, t) == Done(Gone)
      && end.value == s.(loaded := s.loaded - {handle}, history := s.history + [Freed(handle)], threads := end.value.threads)
      && end.value.threads.Keys == s.threads.Keys + {t}
  {
    hide RunFrom, Goes, Step, Advance, ParseStep, LoadStep;
    FreeGoes(s, t, 2);
    var s1 := FreeStep(s, t, PcOf(s, t)).value;
    FreeGoes(s1, t, 1);
    var s2 := FreeStep(s1, t, PcOf(s1, t)).value;
    FreeGoes(s2, t, 0);
    EndOfRun(FreeStep(s2, t, PcOf(s2, t)).value, t);
  }

  // A load that meets nobody, up to the naming of its instance.
  lemma LoadCounts(s: State, t: Tid, p: Parser)
    requires CanWrite(s) && PcOf(s, t) == LoadWant(p)
    ensures
      var id := Increment(s.nextID);
      var named := State(id, s.serial + 1, s.loaded, s.insts, Some(t), s.readers, s.threads, s.history, s.returned);
      RunFrom(s, Goes(t, 5)) == RunFrom(At(named, t, LoadNamed(p, id)), Goes(t, 2))
  {
    hide RunFrom, Goes, Increment, Step, Advance, ParseStep, FreeStep;
    LoadGoes(s, t, 4);
    var s1 := LoadStep(s, t, PcOf(s, t)).value;
    LoadGoes(s1, t, 3);
    var s2 := LoadStep(s1, t, PcOf(s1, t)).value;
    LoadGoes(s2, t, 2);
    var s3 := LoadStep(s2, t, PcOf(s2, t)).value;
    assert s3.threads == s.threads[t := LoadNamed(p, Increment(s.nextID))];
  }

  lemma LoadAnswers(s: State, t: Tid, p: Parser, id: int)
    requires s.readers == {} && PcOf(s, t) == LoadNamed(p, id)
    ensures
      var end := RunFrom(s, Goes(t, 2));
      && end.Some? && PcOf(end.value, t) == Done(Handle(id)) && CanWrite(end.value)
      && end.value.loaded == s.loaded[id := s.serial] && end.value.returned == s.returned + [id]
  {
    hide RunFrom, Goes, Step, Advance, ParseStep, FreeStep;
    LoadGoes(s, t, 1);
    var s1 := LoadStep(s, t, PcOf(s, t)).value;
    LoadGoes(s1, t, 0);
    EndOfRun(LoadStep(s1, t, PcOf(s1, t)).value, t);
  }

  lemma LoadAlone(s: State, t: Tid, p: Parser)
    requires CanWrite(s) && PcOf(s, t) == LoadWant(p)
    ensures
      var id := Increment(s.nextID);
      var end := RunFrom(s, Goes(t, 5));
      && end.Some? && PcOf(end.value, t) == Done(Handle(id)) && CanWrite(end.value)
      && end.value.loaded == s.loaded[id := s.serial + 1] && end.value.returned == s.returned + [id]
  {
    hide RunFrom, Goes, Increment;
    var id := Increment(s.nextID);
    var named := State(id, s.serial + 1, s.loaded, s.insts, Some(t), s.readers, s.threads, s.history, s.returned);
    LoadCounts(s, t, p);
    LoadAnswers(At(named, t, LoadNamed(p, id)), t, p, id);
  }

  lemma ReachableStep(s: State, move: Move, next: State)
    requires Reachable(s) && Step(s, move.t, move.choice) == Some(next)
    ensures Reachable(next)
  {
    hide Step;
    var moves :| Run(moves) == Some(s);
    assert (moves + [move])[..|moves|] == moves;
    assert Run(moves + [move]) == Some(next);
  }

  lemma {:induction false} ReachableOn(s: State, moves: seq<Move>, later: State)
    requires Reachable(s) && RunFrom(s, moves) == Some(later)
    ensures Reachable(later)
    decreases |moves|
  {
    hide Step, Reachable;
    if moves != [] {
      var next := Step(s, moves[0].t, moves[0].choice).value;
      ReachableStep(s, moves[0], next);
      ReachableOn(next, moves[1..], later);
    }
  }

  lemma InitReachable()
    ensures Reachable(Init())
  {
    assert Run([]) == Some(Init());
  }

  // One load more, by a thread that is idle again after it.
  lemma LoadAgain(s: State, p: Parser) returns (next: State)
    requires Reachable(s) && CanWrite(s) && PcOf(s, 0) == Idle
    ensures Reachable(next) && CanWrite(next) && PcOf(next, 0) == Idle && |next.returned| == |s.returned| + 1
  {
    hide Reachable, RunFrom, Goes, Increment, LoadStep;
    var wants := At(s, 0, LoadWant(p));
    ReachableStep(s, Move(0, Load(Empty, Some(p))), wants);
    LoadAlone(wants, 0, p);
    var done := RunFrom(wants, Goes(0, 5)).value;
    ReachableOn(wants, Goes(0, 5), done);
    next := At(done, 0, Idle);
    ReachableStep(done, Move(0, Go), next);
  }

  // States with any number of loads are reached.
  lemma {:induction false} LoadsReach(n: nat) returns (s: State)
    ensures Reachable(s) && CanWrite(s) && PcOf(s, 0) == Idle && |s.returned| == n
  {
    hide Reachable;
    if n == 0 {
      InitReachable();
      s := Init();
    } else {
      var before := LoadsReach(n - 1);
      s := LoadAgain(before, 0);
    }
  }

  // So handles do repeat: the first load's is the next one's after 2^64 loads.
  lemma HandleRepeats() returns (s: State)
    ensures Reachable(s) && |s.returned| == TWO_64 + 1 && s.returned[0] == s.returned[TWO_64]
  {
    hide Reachable;
    s := LoadsReach(TWO_64 + 1);
    HandlesRepeat(s, 0, TWO_64);
  }

  // A free of a handle not yet given out does not count: the load that is
  // given it makes it good.
  lemma FreeBeforeLoad(p: Parser)
    ensures
      var freed := RunFrom(Init(), [Move(0, Free(1))] + Goes(0, 3));
      && freed.Some? && PcOf(freed.value, 0) == Done(Gone) && freed.value.history == [Freed(1)]
      && var loaded := RunFrom(freed.value, [Move(1, Load(Empty, Some(p)))] + Goes(1, 5));
      && loaded.Some? && PcOf(loaded.value, 1) == Done(Handle(1)) && Lookup(loaded.value, 1) == Some(1)
  {
    hide RunFrom, Goes;
    FirstMove(Init(), Move(0, Free(1)), Goes(0, 3));
    FreeAlone(At(Init(), 0, FreeWant(1)), 0, 1);
    var freed := RunFrom(Init(), [Move(0, Free(1))] + Goes(0, 3)).value;
    FirstMove(freed, Move(1, Load(Empty, Some(p))), Goes(1, 5));
    LoadAlone(At(freed, 1, LoadWant(p)), 1, p);
  }
}
