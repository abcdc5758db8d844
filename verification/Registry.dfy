// The handle registry (go/clib/core.go): loads, parses and frees by any number
// of threads, interleaved step by step. Each step is one lock operation, one
// access to the shared variables, or one call of the engine.

module Registry {
  import opened Options

  type Tid = nat

  type Parser = nat

  // What the options argument decodes to, where it is not empty.
  datatype OptionsArg = Empty | NotAnObject | Object(members: nat)

  // What the engine answers, and what safeParse makes of it: a panic is an
  // error only once it has been recovered.
  datatype Answer = Value | Rejected | Internal

  datatype Return = Answered(answer: Answer) | Panics

  datatype Outcome = Result(answer: Answer) | PanicError

  datatype Reply = Usage | GrammarFailed | Handle(id: int) | NoHandle | Accepted | NotAccepted | InternalFailure | Gone

  // The running number of a load names its instance for good; its handle is
  // that number in 64 bits.
  datatype Instance = Instance(parse: Parser, holder: Option<Tid>)

  // Where a thread stands. A thread that has looked a handle up keeps how much
  // of the table's history it had seen.
  datatype Pc =
    | Idle
    | LoadWant(parse: Parser)
    | LoadIn(parse: Parser)
    | LoadCounted(parse: Parser)
    | LoadNamed(parse: Parser, id: int)
    | LoadStored(id: int)
    | ParseWant(handle: int)
    | ParseIn(handle: int)
    | ParseGot(handle: int, found: Option<nat>, seen: nat)
    | ParseLock(handle: int, n: nat, seen: nat)
    | ParseBusy(handle: int, n: nat, seen: nat)
    | ParseUnwinding(handle: int, n: nat, seen: nat)
    | ParseOut(handle: int, n: nat, seen: nat, outcome: Outcome)
    | FreeWant(handle: int)
    | FreeIn(handle: int)
    | FreeOut(handle: int)
    | Done(reply: Reply)

  // What has been done to the table.
  datatype Event = Issued(n: nat, parse: Parser) | Freed(handle: int)

  // `history` and `returned` are a record: what was done to the table, and the
  // handles loads have returned, both in order.
  datatype State = State(
    nextID: int,
    serial: nat,
    loaded: map<int, nat>,
    insts: map<nat, Instance>,
    writer: Option<Tid>,
    readers: set<Tid>,
    threads: map<Tid, Pc>,
    history: seq<Event>,
    returned: seq<int>)

  // What a thread does next: it starts a call, the engine comes back, or the
  // call goes on.
  datatype Choice = Load(opts: OptionsArg, built: Option<Parser>) | Parse(handle: int) | Free(handle: int) | Engine(comes: Return) | Go

  const TWO_63: int := 0x8000_0000_0000_0000
  const TWO_64: int := 0x1_0000_0000_0000_0000

  // Adding one to an int64.
  function Increment(id: int): int {
    if id == TWO_63 - 1 then -TWO_63 else id + 1
  }

  // A load's number in 64 bits.
  function Wrap(n: int): (id: int)
    ensures -TWO_63 <= id < TWO_63
    ensures (n - id) % TWO_64 == 0
  {
    (n + TWO_63) % TWO_64 - TWO_63
  }

  function PcOf(s: State, t: Tid): Pc {
    if t in s.threads then s.threads[t] else Idle
  }

  function At(s: State, t: Tid, pc: Pc): State {
    s.(threads := s.threads[t := pc])
  }

  function Init(): State {
    State(0, 0, map[], map[], None, {}, map[], [], [])
  }

  function Lookup(s: State, handle: int): Option<nat> {
    if handle in s.loaded then Some(s.loaded[handle]) else None
  }

  function StartLoad(s: State, t: Tid, opts: OptionsArg, built: Option<Parser>): State {
    if opts == NotAnObject || (opts.Object? && opts.members > 0) then At(s, t, Done(Usage))
    else if built.None? then At(s, t, Done(GrammarFailed))
    else At(s, t, LoadWant(built.value))
  }

  function ReplyOf(o: Outcome): Reply {
    match o
    case Result(Value) => Accepted
    case Result(Rejected) => NotAccepted
    case Result(Internal) => InternalFailure
    case PanicError => InternalFailure
  }

  // The engine comes back into safeParse: with an answer, or unwinding.
  function ComesBack(handle: int, n: nat, seen: nat, comes: Return): Pc {
    match comes
    case Answered(answer) => ParseOut(handle, n, seen, Result(answer))
    case Panics => ParseUnwinding(handle, n, seen)
  }

  function SetHolder(s: State, n: nat, holder: Option<Tid>): State
    requires n in s.insts
  {
    s.(insts := s.insts[n := s.insts[n].(holder := holder)])
  }

  predicate CanWrite(s: State) {
    s.writer.None? && s.readers == {}
  }

  // One step of one thread; None where it cannot be taken.
  function Step(s: State, t: Tid, c: Choice): Option<State> {
    match PcOf(s, t)
    case Idle => (
      match c
      case Load(opts, built) => Some(StartLoad(s, t, opts, built))
      case Parse(handle) => Some(At(s, t, ParseWant(handle)))
      case Free(handle) => Some(At(s, t, FreeWant(handle)))
      case _ => None
    )
    case ParseBusy(handle, n, seen) => if c.Engine? then Some(At(s, t, ComesBack(handle, n, seen, c.comes))) else None
    case _ => if c == Go then Advance(s, t) else None
  }

  function Advance(s: State, t: Tid): Option<State> {
    var pc := PcOf(s, t);
    if pc.Done? then Some(At(s, t, Idle))
    else if pc.FreeWant? || pc.FreeIn? || pc.FreeOut? then FreeStep(s, t, pc)
    else if pc.LoadWant? || pc.LoadIn? || pc.LoadCounted? || pc.LoadNamed? || pc.LoadStored? then LoadStep(s, t, pc)
    else ParseStep(s, t, pc)
  }

  function LoadStep(s: State, t: Tid, pc: Pc): Option<State> {
    match pc
    case LoadWant(parse) => if CanWrite(s) then Some(At(s.(writer := Some(t)), t, LoadIn(parse))) else None
    case LoadIn(parse) => Some(At(s.(nextID := Increment(s.nextID), serial := s.serial + 1), t, LoadCounted(parse)))
    case LoadCounted(parse) => Some(At(s, t, LoadNamed(parse, s.nextID)))
    case LoadNamed(parse, id) =>
      Some(At(s.(loaded := s.loaded[id := s.serial], insts := s.insts[s.serial := Instance(parse, None)],
                 history := s.history + [Issued(s.serial, parse)]), t, LoadStored(id)))
    case LoadStored(id) => Some(At(s.(writer := None, returned := s.returned + [id]), t, Done(Handle(id))))
    case _ => None
  }

  function ParseStep(s: State, t: Tid, pc: Pc): Option<State> {
    match pc
    case ParseWant(handle) => if s.writer.None? then Some(At(s.(readers := s.readers + {t}), t, ParseIn(handle))) else None
    case ParseIn(handle) => Some(At(s, t, ParseGot(handle, Lookup(s, handle), |s.history|)))
    case ParseGot(handle, found, seen) =>
      Some(At(s.(readers := s.readers - {t}), t, if found.None? then Done(NoHandle) else ParseLock(handle, found.value, seen)))
    case ParseLock(handle, n, seen) =>
      if n in s.insts && s.insts[n].holder.None? then Some(At(SetHolder(s, n, Some(t)), t, ParseBusy(handle, n, seen))) else None
    case ParseUnwinding(handle, n, seen) => Some(At(s, t, ParseOut(handle, n, seen, PanicError)))
    case ParseOut(handle, n, seen, outcome) =>
      if n in s.insts then Some(At(SetHolder(s, n, None), t, Done(ReplyOf(outcome)))) else None
    case _ => None
  }

  function FreeStep(s: State, t: Tid, pc: Pc): Option<State> {
    match pc
    case FreeWant(handle) => if CanWrite(s) then Some(At(s.(writer := Some(t)), t, FreeIn(handle))) else None
    case FreeIn(handle) => Some(At(s.(loaded := s.loaded - {handle}, history := s.history + [Freed(handle)]), t, FreeOut(handle)))
    case FreeOut(handle) => Some(At(s.(writer := None), t, Done(Gone)))
    case _ => None
  }

  // A schedule: who moves, and how.
  datatype Move = Move(t: Tid, choice: Choice)

  function Run(moves: seq<Move>): Option<State> {
    if moves == [] then Some(Init())
    else
      var last := moves[|moves| - 1];
      match Run(moves[..|moves| - 1])
      case None => None
      case Some(s) => Step(s, last.t, last.choice)
  }

  ghost predicate Reachable(s: State) {
    exists moves :: Run(moves) == Some(s)
  }

  // What the table should hold after its history: each handle names the last
  // instance issued under it, until it is freed.
  function Table(history: seq<Event>): map<int, nat> {
    if history == [] then map[] else Apply(Table(history[..|history| - 1]), history[|history| - 1])
  }

  function Apply(table: map<int, nat>, e: Event): map<int, nat> {
    match e
    case Issued(n, _) => table[Wrap(n) := n]
    case Freed(handle) => table - {handle}
  }
}
