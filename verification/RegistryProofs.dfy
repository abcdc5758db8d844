// What every interleaving of loads, parses and frees keeps.

module RegistryProofs {
  import opened Options
  import opened Registry

  predicate Writing(pc: Pc) {
    pc.LoadIn? || pc.LoadCounted? || pc.LoadNamed? || pc.LoadStored? || pc.FreeIn? || pc.FreeOut?
  }

  predicate Reading(pc: Pc) {
    pc.ParseIn? || pc.ParseGot?
  }

  // Inside an instance's mutex.
  predicate Holds(pc: Pc, n: nat) {
    (pc.ParseBusy? || pc.ParseUnwinding? || pc.ParseOut?) && pc.n == n
  }

  // The instance a call has looked up.
  function Chosen(pc: Pc): Option<nat> {
    match pc
    case ParseGot(_, found, _) => found
    case ParseLock(_, n, _) => Some(n)
    case ParseBusy(_, n, _) => Some(n)
    case ParseUnwinding(_, n, _) => Some(n)
    case ParseOut(_, n, _, _) => Some(n)
    case _ => None
  }

  // The locks say who is where.
  ghost predicate LocksRight(s: State) {
    && (forall t: Tid :: s.writer == Some(t) <==> Writing(PcOf(s, t)))
    && (forall t: Tid :: t in s.readers <==> Reading(PcOf(s, t)))
    && (s.writer.Some? ==> s.readers == {})
  }

  ghost predicate HoldersRight(s: State) {
    forall t: Tid, n: nat :: Holds(PcOf(s, t), n) <==> n in s.insts && s.insts[n].holder == Some(t)
  }

  // Numbers are used once, and handles are numbers in 64 bits.
  ghost predicate NumbersRight(s: State) {
    && s.nextID == Wrap(s.serial)
    && (forall n: nat :: n in s.insts ==> 1 <= n <= s.serial)
    && (forall t: Tid :: PcOf(s, t).LoadCounted? || PcOf(s, t).LoadNamed? ==> s.serial > 0 && s.serial !in s.insts)
    && (forall t: Tid :: PcOf(s, t).LoadNamed? ==> PcOf(s, t).id == s.nextID)
  }

  // The table and the instances are those of the history.
  ghost predicate TableRight(s: State) {
    && s.loaded == Table(s.history)
    && (forall n: nat, p: Parser :: Issued(n, p) in s.history <==> n in s.insts && s.insts[n].parse == p)
    && (forall i, j :: 0 <= i < j < |s.history| && s.history[i].Issued? && s.history[j].Issued? ==>
          s.history[i].n < s.history[j].n)
  }

  // A call works on the instance its handle named when it looked.
  ghost predicate ChoiceRight(s: State) {
    forall t: Tid :: Chosen(PcOf(s, t)).Some? ==>
      var pc := PcOf(s, t);
      && pc.seen <= |s.history|
      && pc.handle in Table(s.history[..pc.seen])
      && Table(s.history[..pc.seen])[pc.handle] == Chosen(pc).value
      && Chosen(pc).value in s.insts
  }

  // What a free has deleted stays away while it holds the lock.
  ghost predicate FreesRight(s: State) {
    forall t: Tid :: PcOf(s, t).FreeOut? ==> PcOf(s, t).handle !in s.loaded
  }

  // Between counting a load and answering it.
  predicate Counted(pc: Pc) {
    pc.LoadCounted? || pc.LoadNamed? || pc.LoadStored?
  }

  // The handles returned are those of the loads counted, one each, but for the
  // load under way; each stands for its instance.
  ghost predicate ReturnedRight(s: State) {
    CountReturned(s) && EachReturned(s) && StoredRight(s) && AnswersReturned(s)
  }

  ghost predicate CountReturned(s: State) {
    && (forall t: Tid :: Counted(PcOf(s, t)) ==> s.serial == |s.returned| + 1)
    && ((forall t: Tid :: !Counted(PcOf(s, t))) ==> s.serial == |s.returned|)
  }

  ghost predicate EachReturned(s: State) {
    forall i: nat :: i < |s.returned| ==> ReturnedAt(s, i)
  }

  ghost predicate ReturnedAt(s: State, i: nat)
    requires i < |s.returned|
  {
    s.returned[i] == Wrap(i + 1) && i + 1 in s.insts
  }

  ghost predicate StoredRight(s: State) {
    forall t: Tid :: PcOf(s, t).LoadStored? ==> PcOf(s, t).id == Wrap(s.serial) && s.serial in s.insts
  }

  ghost predicate AnswersReturned(s: State) {
    forall t: Tid :: Answers(PcOf(s, t)) ==> PcOf(s, t).reply.id in s.returned
  }

  predicate Answers(pc: Pc) {
    pc.Done? && pc.reply.Handle?
  }

  ghost predicate Inv(s: State) {
    LocksRight(s) && HoldersRight(s) && NumbersRight(s) && TableRight(s) && ChoiceRight(s) && FreesRight(s) && ReturnedRight(s)
  }

  lemma WrapCounts(n: nat)
    ensures Wrap(n + 1) == Increment(Wrap(n))
  {
  }

  // A step moves one thread.
  ghost predicate Moved(s: State, t: Tid, s': State) {
    forall u: Tid :: u != t ==> PcOf(s', u) == PcOf(s, u)
  }

  lemma LoadMoves(s: State, t: Tid, pc: Pc)
    ensures LoadStep(s, t, pc).Some? ==> var s' := LoadStep(s, t, pc).value; s'.threads == s.threads[t := PcOf(s', t)]
  {
    hide Increment;
  }

  lemma ParseMoves(s: State, t: Tid, pc: Pc)
    ensures ParseStep(s, t, pc).Some? ==> var s' := ParseStep(s, t, pc).value; s'.threads == s.threads[t := PcOf(s', t)]
  {
    hide ReplyOf;
  }

  lemma FreeMoves(s: State, t: Tid, pc: Pc)
    ensures FreeStep(s, t, pc).Some? ==> var s' := FreeStep(s, t, pc).value; s'.threads == s.threads[t := PcOf(s', t)]
  {
  }

  lemma StepMoves(s: State, t: Tid, c: Choice, s': State)
    requires Step(s, t, c) == Some(s')
    ensures Moved(s, t, s')
  {
    hide LoadStep, ParseStep, FreeStep;
    LoadMoves(s, t, PcOf(s, t));
    ParseMoves(s, t, PcOf(s, t));
    FreeMoves(s, t, PcOf(s, t));
    assert s'.threads == s.threads[t := PcOf(s', t)];
  }

  // How a step changes the locks.
  ghost predicate LockChange(s: State, t: Tid, s': State) {
    var pc, pc' := PcOf(s, t), PcOf(s', t);
    if !Writing(pc) && Writing(pc') then CanWrite(s) && s'.writer == Some(t) && s'.readers == s.readers && !Reading(pc) && !Reading(pc')
    else if Writing(pc) && !Writing(pc') then s'.writer == None && s'.readers == s.readers && !Reading(pc')
    else if !Reading(pc) && Reading(pc') then s.writer.None? && s'.writer.None? && s'.readers == s.readers + {t}
    else if Reading(pc) && !Reading(pc') then s'.writer == s.writer && s'.readers == s.readers - {t}
    else s'.writer == s.writer && s'.readers == s.readers
  }

  lemma LoadLocks(s: State, t: Tid)
    ensures LoadStep(s, t, PcOf(s, t)).Some? ==> LockChange(s, t, LoadStep(s, t, PcOf(s, t)).value)
  {
    hide Increment;
  }

  lemma ParseLocks(s: State, t: Tid)
    ensures ParseStep(s, t, PcOf(s, t)).Some? ==> LockChange(s, t, ParseStep(s, t, PcOf(s, t)).value)
  {
    hide ReplyOf;
  }

  lemma StepLockChange(s: State, t: Tid, c: Choice, s': State)
    requires Step(s, t, c) == Some(s')
    ensures LockChange(s, t, s')
  {
    hide LoadStep, ParseStep;
    LoadLocks(s, t);
    ParseLocks(s, t);
  }

  lemma StepLocks(s: State, t: Tid, c: Choice, s': State)
    requires LocksRight(s) && Step(s, t, c) == Some(s')
    ensures LocksRight(s')
  {
    hide Step, PcOf, Writing, Reading;
    StepMoves(s, t, c, s');
    StepLockChange(s, t, c, s');
  }

  // How a step changes the instances.
  ghost predicate InstChange(s: State, t: Tid, s': State) {
    var pc, pc' := PcOf(s, t), PcOf(s', t);
    if pc.LoadNamed? then s'.insts == s.insts[s.serial := Instance(pc.parse, None)] && pc'.LoadStored?
    else if pc.ParseLock? then
      pc.n in s.insts && s.insts[pc.n].holder.None? && pc'.ParseBusy? && pc'.n == pc.n
      && s'.insts == s.insts[pc.n := s.insts[pc.n].(holder := Some(t))]
    else if pc.ParseOut? then
      pc.n in s.insts && pc'.Done? && s'.insts == s.insts[pc.n := s.insts[pc.n].(holder := None)]
    else
      && s'.insts == s.insts && !pc'.ParseBusy?
      && (pc'.ParseOut? || pc'.ParseUnwinding? <==> pc.ParseBusy? || pc.ParseUnwinding?)
      && (pc.ParseBusy? || pc.ParseUnwinding? ==> pc'.n == pc.n)
  }

  lemma StepInstChange(s: State, t: Tid, c: Choice, s': State)
    requires Step(s, t, c) == Some(s')
    ensures InstChange(s, t, s')
  {
    hide Wrap, Increment, ReplyOf;
  }

  lemma StepHolders(s: State, t: Tid, c: Choice, s': State)
    requires HoldersRight(s) && NumbersRight(s) && Step(s, t, c) == Some(s')
    ensures HoldersRight(s')
  {
    hide Step, PcOf, Wrap;
    StepMoves(s, t, c, s');
    StepInstChange(s, t, c, s');
    forall u: Tid, n: nat
      ensures Holds(PcOf(s', u), n) <==> n in s'.insts && s'.insts[n].holder == Some(u)
    {
      assert Holds(PcOf(s, u), n) <==> n in s.insts && s.insts[n].holder == Some(u);
      assert Holds(PcOf(s, t), n) <==> n in s.insts && s.insts[n].holder == Some(t);
    }
  }

  // How a step changes the counters.
  ghost predicate CountChange(s: State, t: Tid, s': State) {
    var pc, pc' := PcOf(s, t), PcOf(s', t);
    if pc.LoadIn? then s'.nextID == Increment(s.nextID) && s'.serial == s.serial + 1 && pc'.LoadCounted?
    else
      && s'.nextID == s.nextID && s'.serial == s.serial
      && pc'.LoadCounted? == false
      && (pc'.LoadNamed? == pc.LoadCounted?) && (pc'.LoadNamed? ==> pc'.id == s.nextID)
  }

  lemma StepCountChange(s: State, t: Tid, c: Choice, s': State)
    requires Step(s, t, c) == Some(s')
    ensures CountChange(s, t, s')
  {
    hide Wrap, Increment, ReplyOf;
  }

  lemma StepNumbers(s: State, t: Tid, c: Choice, s': State)
    requires LocksRight(s) && NumbersRight(s) && Step(s, t, c) == Some(s')
    ensures NumbersRight(s')
  {
    hide Wrap, Increment, Step, PcOf;
    WrapCounts(s.serial);
    StepMoves(s, t, c, s');
    StepInstChange(s, t, c, s');
    StepCountChange(s, t, c, s');
    assert s'.insts.Keys == s.insts.Keys + if PcOf(s, t).LoadNamed? then {s.serial} else {};
    forall u: Tid | PcOf(s', u).LoadCounted? || PcOf(s', u).LoadNamed?
      ensures s'.serial > 0 && s'.serial !in s'.insts
      ensures PcOf(s', u).LoadNamed? ==> PcOf(s', u).id == s'.nextID
    {
      assert s.writer == Some(u) <==> Writing(PcOf(s, u));
      assert s.writer == Some(t) <==> Writing(PcOf(s, t));
    }
  }

  // How a step changes the table.
  ghost predicate TableChange(s: State, t: Tid, s': State) {
    var pc := PcOf(s, t);
    if pc.LoadNamed? then
      s'.loaded == s.loaded[pc.id := s.serial] && s'.history == s.history + [Issued(s.serial, pc.parse)]
    else if pc.FreeIn? then
      s'.loaded == s.loaded - {pc.handle} && s'.history == s.history + [Freed(pc.handle)]
    else s'.loaded == s.loaded && s'.history == s.history
  }

  lemma StepTableChange(s: State, t: Tid, c: Choice, s': State)
    requires Step(s, t, c) == Some(s')
    ensures TableChange(s, t, s')
  {
    hide Wrap, Increment, ReplyOf;
  }

  lemma TableGrows(history: seq<Event>, e: Event)
    ensures Table(history + [e]) == Apply(Table(history), e)
  {
    assert (history + [e])[..|history|] == history;
  }

  lemma StepTable(s: State, t: Tid, c: Choice, s': State)
    requires NumbersRight(s) && TableRight(s) && Step(s, t, c) == Some(s')
    ensures TableRight(s')
  {
    hide Wrap, Increment, Step, PcOf, Table;
    StepInstChange(s, t, c, s');
    StepTableChange(s, t, c, s');
    if s'.history != s.history {
      TableGrows(s.history, s'.history[|s.history|]);
    }
    assert forall e :: e in s'.history <==> e in s.history || (s'.history != s.history && e == s'.history[|s.history|]);
  }

  // How a step changes what a call has looked up.
  ghost predicate ChoiceChange(s: State, t: Tid, s': State) {
    var pc, pc' := PcOf(s, t), PcOf(s', t);
    Chosen(pc').Some? ==>
      if pc.ParseIn? then pc'.handle == pc.handle && pc'.seen == |s.history| && Chosen(pc') == Lookup(s, pc.handle)
      else Chosen(pc) == Chosen(pc') && pc'.handle == pc.handle && pc'.seen == pc.seen
  }

  lemma StepChoiceChange(s: State, t: Tid, c: Choice, s': State)
    requires Step(s, t, c) == Some(s')
    ensures ChoiceChange(s, t, s')
  {
    hide Wrap, Increment, ReplyOf;
  }

  lemma HistoryGrows(s: State, t: Tid, c: Choice, s': State)
    requires Step(s, t, c) == Some(s')
    ensures |s.history| <= |s'.history| && s'.history[..|s.history|] == s.history
    ensures forall k :: 0 <= k <= |s.history| ==> s'.history[..k] == s.history[..k]
  {
    hide Step;
    StepTableChange(s, t, c, s');
  }

  lemma Kept(s: State, t: Tid, c: Choice, s': State)
    requires NumbersRight(s) && Step(s, t, c) == Some(s')
    ensures forall n: nat :: n in s.insts ==> n in s'.insts && s'.insts[n].parse == s.insts[n].parse
  {
    hide Step, Wrap;
    StepInstChange(s, t, c, s');
  }

  lemma IssuedInTable(s: State)
    requires TableRight(s)
    ensures forall h :: h in s.loaded ==> s.loaded[h] in s.insts
  {
    hide Wrap;
    forall h | h in s.loaded
      ensures s.loaded[h] in s.insts
    {
      var i := TableSource(s.history, h);
      assert s.history[i] in s.history;
    }
  }

  // What stands under a handle was issued under it.
  lemma {:induction false} TableSource(history: seq<Event>, handle: int) returns (i: nat)
    requires handle in Table(history)
    ensures i < |history| && history[i].Issued? && history[i].n == Table(history)[handle] && Wrap(history[i].n) == handle
  {
    hide Wrap;
    var last := |history| - 1;
    if history[last].Issued? && Wrap(history[last].n) == handle {
      i := last;
    } else {
      i := TableSource(history[..last], handle);
    }
  }

  lemma StepChoice(s: State, t: Tid, c: Choice, s': State)
    requires NumbersRight(s) && TableRight(s) && ChoiceRight(s) && Step(s, t, c) == Some(s')
    ensures ChoiceRight(s')
  {
    hide Wrap, Step, PcOf, Table;
    StepMoves(s, t, c, s');
    StepChoiceChange(s, t, c, s');
    HistoryGrows(s, t, c, s');
    Kept(s, t, c, s');
    IssuedInTable(s);
    assert s.history[..|s.history|] == s.history;
  }

  lemma StepFreeChange(s: State, t: Tid, c: Choice, s': State)
    requires Step(s, t, c) == Some(s') && PcOf(s', t).FreeOut?
    ensures PcOf(s, t).FreeIn? && PcOf(s, t).handle == PcOf(s', t).handle
  {
    hide Wrap, Increment, ReplyOf;
  }

  lemma StepFrees(s: State, t: Tid, c: Choice, s': State)
    requires LocksRight(s) && FreesRight(s) && Step(s, t, c) == Some(s')
    ensures FreesRight(s')
  {
    hide Wrap, Step, PcOf;
    StepMoves(s, t, c, s');
    StepTableChange(s, t, c, s');
    if PcOf(s', t).FreeOut? {
      StepFreeChange(s, t, c, s');
    }
    forall u: Tid | PcOf(s', u).FreeOut?
      ensures PcOf(s', u).handle !in s'.loaded
    {
      assert s.writer == Some(u) <==> Writing(PcOf(s, u));
      assert s.writer == Some(t) <==> Writing(PcOf(s, t));
    }
  }

  // How a step changes what loads have returned.
  ghost predicate ReturnChange(s: State, t: Tid, s': State) {
    var pc, pc' := PcOf(s, t), PcOf(s', t);
    if pc.LoadStored? then s'.returned == s.returned + [pc.id] && pc' == Done(Handle(pc.id))
    else
      && s'.returned == s.returned && !Answers(pc')
      && (Counted(pc') <==> pc.LoadIn? || pc.LoadCounted? || pc.LoadNamed?)
      && (pc'.LoadStored? <==> pc.LoadNamed?) && (pc'.LoadStored? ==> pc'.id == pc.id)
  }

  lemma StepReturnChange(s: State, t: Tid, c: Choice, s': State)
    requires Step(s, t, c) == Some(s')
    ensures ReturnChange(s, t, s')
  {
    hide Wrap, Increment;
  }

  lemma OneCounted(s: State, t: Tid, u: Tid)
    requires LocksRight(s) && (Counted(PcOf(s, t)) || PcOf(s, t).LoadIn?) && Counted(PcOf(s, u))
    ensures t == u
  {
    assert s.writer == Some(t) <==> Writing(PcOf(s, t));
    assert s.writer == Some(u) <==> Writing(PcOf(s, u));
  }

  // The load that counts or is counted is alone.
  ghost predicate CountsAlone(s: State, t: Tid) {
    Counted(PcOf(s, t)) || PcOf(s, t).LoadIn? ==> forall u: Tid :: Counted(PcOf(s, u)) ==> u == t
  }

  lemma AlwaysAlone(s: State, t: Tid)
    requires LocksRight(s)
    ensures CountsAlone(s, t)
  {
    hide LocksRight, PcOf;
    if Counted(PcOf(s, t)) || PcOf(s, t).LoadIn? {
      forall u: Tid | Counted(PcOf(s, u))
        ensures u == t
      {
        OneCounted(s, t, u);
      }
    }
  }

  lemma StepCounts(s: State, t: Tid, s': State)
    requires CountReturned(s) && CountsAlone(s, t)
    requires Moved(s, t, s') && CountChange(s, t, s') && ReturnChange(s, t, s')
    ensures CountReturned(s')
  {
    hide Increment, PcOf;
    if forall u: Tid :: !Counted(PcOf(s', u)) {
      assert !Counted(PcOf(s', t));
      if !Counted(PcOf(s, t)) {
        assert forall u: Tid :: !Counted(PcOf(s, u));
      }
    }
  }

  lemma StepEach(s: State, t: Tid, s': State)
    requires CountReturned(s) && EachReturned(s) && StoredRight(s)
    requires ReturnChange(s, t, s') && forall n: nat :: n in s.insts ==> n in s'.insts
    ensures EachReturned(s')
  {
    hide Wrap, PcOf;
    forall i: nat | i < |s'.returned|
      ensures ReturnedAt(s', i)
    {
      if i < |s.returned| {
        assert ReturnedAt(s, i);
      } else {
        assert Counted(PcOf(s, t)) && i == |s.returned|;
        assert s.serial == i + 1 && PcOf(s, t).id == Wrap(s.serial);
        assert s'.returned[i] == PcOf(s, t).id;
      }
    }
  }

  lemma StepStored(s: State, t: Tid, s': State)
    requires NumbersRight(s) && StoredRight(s) && CountsAlone(s, t)
    requires Moved(s, t, s') && CountChange(s, t, s') && ReturnChange(s, t, s') && InstChange(s, t, s')
    requires forall n: nat :: n in s.insts ==> n in s'.insts
    ensures StoredRight(s')
  {
    hide Wrap, Increment, PcOf;
    forall u: Tid | PcOf(s', u).LoadStored?
      ensures PcOf(s', u).id == Wrap(s'.serial) && s'.serial in s'.insts
    {
      assert u != t ==> PcOf(s, u) == PcOf(s', u);
    }
  }

  lemma StepAnswers(s: State, t: Tid, s': State)
    requires AnswersReturned(s) && Moved(s, t, s') && ReturnChange(s, t, s')
    ensures AnswersReturned(s')
  {
    hide PcOf;
    forall u: Tid | Answers(PcOf(s', u))
      ensures PcOf(s', u).reply.id in s'.returned
    {
      assert PcOf(s, t).LoadStored? ==> s'.returned[|s.returned|] == PcOf(s, t).id;
    }
  }

  lemma StepReturned(s: State, t: Tid, c: Choice, s': State)
    requires LocksRight(s) && NumbersRight(s) && ReturnedRight(s) && Step(s, t, c) == Some(s')
    ensures ReturnedRight(s')
  {
    hide Wrap, Step, LocksRight, NumbersRight, CountReturned, EachReturned, StoredRight, AnswersReturned;
    hide Moved, CountChange, ReturnChange, InstChange, CountsAlone;
    AlwaysAlone(s, t);
    StepMoves(s, t, c, s');
    StepCountChange(s, t, c, s');
    StepReturnChange(s, t, c, s');
    StepInstChange(s, t, c, s');
    Kept(s, t, c, s');
    StepCounts(s, t, s');
    StepEach(s, t, s');
    StepStored(s, t, s');
    StepAnswers(s, t, s');
  }

  lemma StepKeeps(s: State, t: Tid, c: Choice, s': State)
    requires Inv(s) && Step(s, t, c) == Some(s')
    ensures Inv(s')
  {
    hide Step, LocksRight, HoldersRight, NumbersRight, TableRight, ChoiceRight, FreesRight, ReturnedRight;
    StepLocks(s, t, c, s');
    StepHolders(s, t, c, s');
    StepNumbers(s, t, c, s');
    StepTable(s, t, c, s');
    StepChoice(s, t, c, s');
    StepFrees(s, t, c, s');
    StepReturned(s, t, c, s');
  }

  lemma {:induction false} RunKeeps(moves: seq<Move>)
    requires Run(moves).Some?
    ensures Inv(Run(moves).value)
  {
    hide Step, LocksRight, HoldersRight, NumbersRight, TableRight, ChoiceRight, FreesRight, ReturnedRight;
    if moves == [] {
      InitRight();
    } else {
      var last := moves[|moves| - 1];
      RunKeeps(moves[..|moves| - 1]);
      StepKeeps(Run(moves[..|moves| - 1]).value, last.t, last.choice, Run(moves).value);
    }
  }

  lemma InitRight()
    ensures Inv(Init())
  {
  }

  lemma ReachableKeeps(s: State)
    requires Reachable(s)
    ensures Inv(s)
  {
    hide Inv;
    var moves :| Run(moves) == Some(s);
    RunKeeps(moves);
  }

  // --- The guarantees ---

  // At most one thread is inside an instance's parse.
  lemma OneParseEach(s: State, t: Tid, u: Tid, n: nat)
    requires Reachable(s)
    requires Holds(PcOf(s, t), n) && Holds(PcOf(s, u), n)
    ensures t == u
  {
    hide Reachable, PcOf;
    ReachableKeeps(s);
  }

  // Nobody writes the table while anybody else reads or writes it.
  lemma WritersAlone(s: State, t: Tid, u: Tid)
    requires Reachable(s)
    requires Writing(PcOf(s, t)) && (Writing(PcOf(s, u)) || Reading(PcOf(s, u)))
    ensures t == u && !Reading(PcOf(s, u))
  {
    hide Reachable, PcOf;
    ReachableKeeps(s);
  }

  lemma WrapRepeats(m: nat, n: nat)
    ensures Wrap(m) == Wrap(n) <==> (n - m) % TWO_64 == 0
  {
  }

  // Two loads return the same handle exactly when a multiple of 2^64 loads
  // lies between them; so none do before the counter comes round.
  lemma HandlesRepeat(s: State, i: nat, j: nat)
    requires Reachable(s) && i < j < |s.returned|
    ensures s.returned[i] == s.returned[j] <==> (j - i) % TWO_64 == 0
    ensures |s.returned| <= TWO_64 ==> s.returned[i] != s.returned[j]
  {
    hide Reachable, Wrap;
    ReachableKeeps(s);
    assert ReturnedAt(s, i) && ReturnedAt(s, j);
    WrapRepeats(i + 1, j + 1);
  }

  // What a load answers is a handle returned, for an instance of its own.
  lemma EachHandleReturned(s: State, t: Tid) returns (i: nat)
    requires Reachable(s) && Answers(PcOf(s, t))
    ensures i < |s.returned| && s.returned[i] == PcOf(s, t).reply.id == Wrap(i + 1)
    ensures exists k :: 0 <= k < |s.history| && s.history[k].Issued? && s.history[k].n == i + 1
  {
    hide Reachable, Wrap, PcOf, Table;
    ReachableKeeps(s);
    i :| 0 <= i < |s.returned| && s.returned[i] == PcOf(s, t).reply.id;
    assert ReturnedAt(s, i);
    assert Issued(i + 1, s.insts[i + 1].parse) in s.history;
  }

  // The last thing done under a handle was to issue it.
  ghost predicate LastIssued(history: seq<Event>, handle: int, n: nat) {
    exists i :: LastIssuedAt(history, handle, n, i)
  }

  ghost predicate LastIssuedAt(history: seq<Event>, handle: int, n: nat, i: int) {
    && 0 <= i < |history| && history[i].Issued? && history[i].n == n && Wrap(n) == handle
    && forall j :: i < j < |history| ==> !Concerns(history[j], handle)
  }

  predicate Concerns(e: Event, handle: int) {
    match e
    case Issued(n, _) => Wrap(n) == handle
    case Freed(h) => h == handle
  }

  lemma {:induction false} TableExact(history: seq<Event>, handle: int, n: nat)
    ensures handle in Table(history) && Table(history)[handle] == n <==> LastIssued(history, handle, n)
  {
    hide Wrap;
    if history != [] {
      var last := |history| - 1;
      var before := history[..last];
      TableExact(before, handle, n);
      TableGrows(before, history[last]);
      assert history == before + [history[last]];
      if Concerns(history[last], handle) {
        if history[last].Issued? && history[last].n == n {
          assert LastIssuedAt(history, handle, n, last);
        }
      } else {
        if LastIssued(before, handle, n) {
          var i :| LastIssuedAt(before, handle, n, i);
          assert LastIssuedAt(history, handle, n, i);
        }
        if LastIssued(history, handle, n) {
          var i :| LastIssuedAt(history, handle, n, i);
          assert LastIssuedAt(before, handle, n, i);
        }
      }
    }
  }

  // A lookup finds exactly the instance last issued under the handle, and
  // nothing once that has been freed.
  lemma LookupExact(s: State, handle: int, n: nat)
    requires Reachable(s)
    ensures Lookup(s, handle) == Some(n) <==> LastIssued(s.history, handle, n)
  {
    hide Reachable, Wrap, Table;
    ReachableKeeps(s);
    TableExact(s.history, handle, n);
  }

  // A call that has passed its lookup goes on with the instance its handle
  // named then, and with the parser that instance was made with, whatever has
  // been freed or loaded since.
  lemma ParseUsesItsOwn(s: State, t: Tid)
    requires Reachable(s) && Chosen(PcOf(s, t)).Some?
    ensures
      var pc := PcOf(s, t);
      var n := Chosen(pc).value;
      && pc.seen <= |s.history|
      && LastIssued(s.history[..pc.seen], pc.handle, n)
      && Wrap(n) == pc.handle
      && n in s.insts && Issued(n, s.insts[n].parse) in s.history
  {
    hide Reachable, Wrap, Table, PcOf;
    ReachableKeeps(s);
    var pc := PcOf(s, t);
    var n := Chosen(pc).value;
    TableExact(s.history[..pc.seen], pc.handle, n);
    var i :| LastIssuedAt(s.history[..pc.seen], pc.handle, n, i);
  }

  // A thread that is not inside an instance's parse holds no mutex.
  lemma NoMutexOutside(s: State, t: Tid, n: nat)
    requires Reachable(s) && n in s.insts && s.insts[n].holder == Some(t)
    ensures Holds(PcOf(s, t), n)
  {
    hide Reachable, LocksRight, NumbersRight, TableRight, ChoiceRight, FreesRight, ReturnedRight, PcOf;
    ReachableKeeps(s);
  }

  // However the engine comes back, and whatever other threads do meanwhile,
  // the way to the mutex's release is open: the call comes back into
  // safeParse, a panic is recovered there into an error, and the next step
  // lets the mutex go and answers.
  lemma MutexReleased(s: State, t: Tid)
    requires Reachable(s)
    ensures PcOf(s, t).ParseBusy? ==> forall comes :: Step(s, t, Engine(comes)).Some?
    ensures PcOf(s, t).ParseUnwinding? ==>
              var pc, next := PcOf(s, t), Step(s, t, Go);
              next.Some? && PcOf(next.value, t) == ParseOut(pc.handle, pc.n, pc.seen, PanicError)
    ensures PcOf(s, t).ParseOut? ==>
              var pc, next := PcOf(s, t), Step(s, t, Go);
              && next.Some? && pc.n in next.value.insts && next.value.insts[pc.n].holder.None?
              && PcOf(next.value, t) == Done(ReplyOf(pc.outcome))
  {
    InsideHolds(s, t);
    hide Reachable, LoadStep, FreeStep, ReplyOf;
  }

  lemma InsideHolds(s: State, t: Tid)
    requires Reachable(s)
    ensures PcOf(s, t).ParseOut? ==> PcOf(s, t).n in s.insts
  {
    hide Reachable, LocksRight, NumbersRight, TableRight, ChoiceRight, FreesRight, ReturnedRight;
    ReachableKeeps(s);
    if PcOf(s, t).ParseOut? {
      assert Holds(PcOf(s, t), PcOf(s, t).n);
    }
  }

  predicate WantsWrite(pc: Pc) {
    pc.LoadWant? || pc.FreeWant?
  }

  // A thread that waits for a lock.
  predicate Waits(s: State, t: Tid) {
    var pc := PcOf(s, t);
    || (WantsWrite(pc) && !CanWrite(s))
    || (pc.ParseWant? && s.writer.Some?)
    || (pc.ParseLock? && pc.n in s.insts && s.insts[pc.n].holder.Some?)
  }

  function NextChoice(s: State, t: Tid): Choice {
    if PcOf(s, t).ParseBusy? then Engine(Panics) else Go
  }

  // Only a lock keeps a call from its next step.
  lemma StepsUnlessWaiting(s: State, t: Tid)
    requires Inv(s) && PcOf(s, t) != Idle && !Waits(s, t)
    ensures Step(s, t, NextChoice(s, t)).Some?
  {
    hide LocksRight, NumbersRight, TableRight, FreesRight, ReturnedRight, Increment, ReplyOf, Table;
    var pc := PcOf(s, t);
    assert pc.ParseOut? ==> Holds(pc, pc.n);
    assert pc.ParseLock? ==> Chosen(pc).Some?;
  }

  // Who can go on when t cannot: the holder of the lock it waits for.
  lemma Blocker(s: State, t: Tid) returns (u: Tid)
    requires Inv(s) && PcOf(s, t) != Idle
    ensures PcOf(s, u) != Idle && !Waits(s, u) && (PcOf(s, u).ParseWant? ==> u == t)
  {
    hide NumbersRight, TableRight, ChoiceRight, FreesRight, ReturnedRight, PcOf;
    u := t;
    if Waits(s, t) {
      if s.writer.Some? {
        u := s.writer.value;
        assert Writing(PcOf(s, u));
      } else if PcOf(s, t).ParseLock? {
        u := s.insts[PcOf(s, t).n].holder.value;
        assert Holds(PcOf(s, u), PcOf(s, t).n);
      } else {
        u :| u in s.readers;
        assert Reading(PcOf(s, u));
      }
    }
  }

  // While any call is under way some call can take a step, even if readers
  // are held back while anybody wants to write, as Go's RWMutex does.
  lemma NoDeadlock(s: State, t: Tid) returns (u: Tid, c: Choice)
    requires Reachable(s) && PcOf(s, t) != Idle
    ensures PcOf(s, u) != Idle && Step(s, u, c).Some?
    ensures PcOf(s, u).ParseWant? ==> forall w: Tid :: !WantsWrite(PcOf(s, w))
  {
    hide Reachable, Step, Inv, Waits, PcOf;
    ReachableKeeps(s);
    u := Blocker(s, t);
    if w: Tid :| WantsWrite(PcOf(s, w)) {
      u := Blocker(s, w);
    }
    StepsUnlessWaiting(s, u);
    c := NextChoice(s, u);
  }
}
