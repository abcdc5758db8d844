// What each call is answered with.

module RegistryCalls {
  import opened Options
  import opened Registry
  import opened RegistryProofs
  import opened RegistryRuns

  // A load is refused for its options exactly when they are given and are not
  // an empty object, and for its grammar exactly when that cannot be built; a
  // refused load touches nothing.
  lemma LoadStarts(s: State, t: Tid, opts: OptionsArg, built: Option<Parser>)
    requires PcOf(s, t) == Idle
    ensures
      var next := Step(s, t, Load(opts, built));
      && next.Some? && next.value == s.(threads := next.value.threads)
      && (PcOf(next.value, t) == Done(Usage) <==> opts != Empty && opts != Object(0))
      && (PcOf(next.value, t) == Done(GrammarFailed) <==> (opts == Empty || opts == Object(0)) && built == None)
      && (forall p: Parser :: PcOf(next.value, t) == LoadWant(p) <==> (opts == Empty || opts == Object(0)) && built == Some(p))
  {
  }

  // The engine's answer is the call's: a value accepts, a rejection does not,
  // and an internal error and a panic fail the call, wherever the other threads
  // stand.
  lemma ParseReplies(s: State, t: Tid, comes: Return)
    requires Reachable(s) && PcOf(s, t).ParseBusy?
    ensures
      var end := RunFrom(s, [Move(t, Engine(comes))] + Goes(t, if comes == Panics then 2 else 1));
      && end.Some? && PcOf(end.value, t).Done?
      && (PcOf(end.value, t).reply == Accepted <==> comes == Answered(Value))
      && (PcOf(end.value, t).reply == NotAccepted <==> comes == Answered(Rejected))
      && (PcOf(end.value, t).reply == InternalFailure <==> comes == Answered(Internal) || comes == Panics)
      && PcOf(end.value, t).reply in {Accepted, NotAccepted, InternalFailure}
  {
    hide Reachable, RunFrom, Goes;
    var pc := PcOf(s, t);
    HeldInTable(s, t);
    FirstMove(s, Move(t, Engine(comes)), Goes(t, if comes == Panics then 2 else 1));
    var back := Step(s, t, Engine(comes)).value;
    if comes == Panics {
      FirstMove(back, Move(t, Go), Goes(t, 1));
      OneMore(back, t, 1);
      var caught := Step(back, t, Go).value;
      OneMore(caught, t, 0);
      EndOfRun(Step(caught, t, Go).value, t);
    } else {
      OneMore(back, t, 0);
      EndOfRun(Step(back, t, Go).value, t);
    }
  }

  lemma OneMore(s: State, t: Tid, n: nat)
    requires Step(s, t, Go).Some?
    ensures RunFrom(s, Goes(t, n + 1)) == RunFrom(Step(s, t, Go).value, Goes(t, n))
  {
    hide RunFrom, Step;
    FirstMove(s, Move(t, Go), Goes(t, n));
  }

  // The instance a thread parses with stays in the table of instances.
  lemma HeldInTable(s: State, t: Tid)
    requires Reachable(s) && PcOf(s, t).ParseBusy?
    ensures PcOf(s, t).n in s.insts
  {
    hide Reachable, LastIssued;
    ParseUsesItsOwn(s, t);
  }

  lemma IdleReadsNot(s: State, t: Tid)
    requires Reachable(s) && PcOf(s, t) == Idle
    ensures t !in s.readers
  {
    hide Reachable, HoldersRight, NumbersRight, TableRight, ChoiceRight, FreesRight, ReturnedRight;
    ReachableKeeps(s);
  }

  lemma ParseGoes(s: State, t: Tid, n: nat)
    requires PcOf(s, t).ParseWant? || PcOf(s, t).ParseIn? || PcOf(s, t).ParseGot? || PcOf(s, t).ParseLock?
    requires ParseStep(s, t, PcOf(s, t)).Some?
    ensures RunFrom(s, Goes(t, n + 1)) == RunFrom(ParseStep(s, t, PcOf(s, t)).value, Goes(t, n))
  {
    hide RunFrom, ParseStep, PcOf;
    FirstMove(s, Move(t, Go), Goes(t, n));
  }

  // A parse that finds no writer: up to what it found under its handle, with
  // the lock given back.
  lemma ParseLooks(s: State, t: Tid, handle: int, n: nat)
    requires s.writer.None? && t !in s.readers && PcOf(s, t) == ParseWant(handle)
    ensures
      var found := Lookup(s, handle);
      RunFrom(s, Goes(t, n + 3)) ==
      RunFrom(At(s, t, if found.None? then Done(NoHandle) else ParseLock(handle, found.value, |s.history|)), Goes(t, n))
  {
    hide RunFrom, Goes, Step, Advance, LoadStep, FreeStep, Lookup;
    ParseGoes(s, t, n + 2);
    var s1 := ParseStep(s, t, PcOf(s, t)).value;
    ParseGoes(s1, t, n + 1);
    var s2 := ParseStep(s1, t, PcOf(s1, t)).value;
    assert Lookup(s1, handle) == Lookup(s, handle) by { SameLookup(s, s1, handle); }
    ParseGoes(s2, t, n);
    var s3 := ParseStep(s2, t, PcOf(s2, t)).value;
    assert s3.readers == s.readers;
    assert s3.threads == s.threads[t := PcOf(s3, t)];
  }

  lemma SameLookup(a: State, b: State, handle: int)
    requires a.loaded == b.loaded
    ensures Lookup(a, handle) == Lookup(b, handle)
  {
  }

  // With nothing under the handle the parse is answered so, and leaves all as
  // it was.
  lemma ParseWithout(s: State, t: Tid, handle: int)
    requires Reachable(s) && s.writer.None? && PcOf(s, t) == Idle && handle !in s.loaded
    ensures
      var end := RunFrom(s, [Move(t, Parse(handle))] + Goes(t, 3));
      && end.Some? && PcOf(end.value, t) == Done(NoHandle) && end.value == s.(threads := end.value.threads)
  {
    IdleReadsNot(s, t);
    hide RunFrom, Goes, Reachable;
    FirstMove(s, Move(t, Parse(handle)), Goes(t, 3));
    var wants := At(s, t, ParseWant(handle));
    ParseLooks(wants, t, handle, 0);
    EndOfRun(At(wants, t, Done(NoHandle)), t);
  }

  // With an instance whose mutex is free it comes to parse with that one,
  // holding its mutex and no lock.
  lemma ParseWith(s: State, t: Tid, handle: int)
    requires Reachable(s) && s.writer.None? && PcOf(s, t) == Idle && handle in s.loaded
    requires s.loaded[handle] in s.insts && s.insts[s.loaded[handle]].holder.None?
    ensures
      var n := s.loaded[handle];
      var end := RunFrom(s, [Move(t, Parse(handle))] + Goes(t, 4));
      && end.Some? && PcOf(end.value, t) == ParseBusy(handle, n, |s.history|)
      && end.value == s.(threads := end.value.threads, insts := s.insts[n := s.insts[n].(holder := Some(t))])
  {
    IdleReadsNot(s, t);
    hide RunFrom, Goes, Reachable;
    FirstMove(s, Move(t, Parse(handle)), Goes(t, 4));
    var wants := At(s, t, ParseWant(handle));
    ParseLooks(wants, t, handle, 1);
    var locks := At(wants, t, ParseLock(handle, s.loaded[handle], |s.history|));
    ParseGoes(locks, t, 0);
    EndOfRun(ParseStep(locks, t, PcOf(locks, t)).value, t);
  }
}
