// alchemy/render.alc: the streaming pushdown machine from events to text.
// A stack's last element is its top.

module Render {
  import opened Text
  import opened Trees

  datatype Marker =
    | NoMarker
    | LinesOpen
    | LinesMark
    | ObjectOpen
    | ObjectMark
    | MemberMark
    | ArrayOpen
    | ArrayMark
    | RootDone

  type Stack = seq<Marker>

  // What a step emits: text, or the end of a record.
  datatype Out = Write(text: Text) | RecordEnd

  datatype Code = ProtocolOrder | Unrepresentable

  datatype StepResult = Transition(stack: Stack, outputs: seq<Out>) | Fail(code: Code)

  function Top(s: Stack): Marker {
    if s == [] then NoMarker else s[|s| - 1]
  }

  function Pop(s: Stack): Stack {
    if s == [] then [] else s[..|s| - 1]
  }

  // The top container under another marker.
  function Mark(marker: Marker, s: Stack): Stack {
    Pop(s) + [marker]
  }

  function Done(s: Stack): Stack {
    if s == [] then [RootDone]
    else match Top(s)
      case MemberMark => Mark(ObjectMark, s)
      case _ => s
  }

  function Lead(s: Stack): Text {
    match Top(s)
    case ArrayMark => [COMMA]
    case _ => []
  }

  function Tail(s: Stack): Text {
    match Top(s)
    case LinesOpen => [LF]
    case LinesMark => [LF]
    case _ => []
  }

  function Ended(s: Stack, outputs: seq<Out>): seq<Out> {
    match Top(s)
    case LinesOpen => outputs + [RecordEnd]
    case LinesMark => outputs + [RecordEnd]
    case _ => outputs
  }

  function Opened(s: Stack): Stack {
    match Top(s)
    case ArrayOpen => Mark(ArrayMark, s)
    case LinesOpen => Mark(LinesMark, s)
    case _ => s
  }

  // Whether a value may begin here: anywhere but an object waiting for a key.
  predicate ValueMayBegin(s: Stack) {
    Top(s) != ObjectOpen && Top(s) != ObjectMark
  }

  function MemberStep(name: Text, s: Stack): StepResult {
    match Top(s)
    case ObjectOpen => Transition(Mark(MemberMark, s), [Write(Quoted(name)), Write([COLON])])
    case ObjectMark => Transition(Mark(MemberMark, s), [Write([COMMA]), Write(Quoted(name)), Write([COLON])])
    case _ => Fail(ProtocolOrder)
  }

  function EventStep(s: Stack, event: Event): StepResult {
    match event
    case ArrayStart =>
      if s == [] then Transition([LinesOpen], [RecordEnd])
      else if !ValueMayBegin(s) then Fail(ProtocolOrder)
      else Transition(Opened(s) + [ArrayOpen], [Write(Lead(s)), Write([BRACKET_OPEN])])
    case ObjectStart =>
      if s == [] then Fail(Unrepresentable)
      else if !ValueMayBegin(s) then Fail(ProtocolOrder)
      else Transition(Opened(s) + [ObjectOpen], [Write(Lead(s)), Write([BRACE_OPEN])])
    case Key(name) => MemberStep(name, s)
    case ScalarEvent(scalar) =>
      if s == [] then Fail(Unrepresentable)
      else if !ValueMayBegin(s) then Fail(ProtocolOrder)
      else Transition(Done(Opened(s)), Ended(s, [Write(Lead(s)), Write(PrintScalar(scalar)), Write(Tail(s))]))
    case ObjectEnd =>
      (match Top(s)
       case ObjectOpen => Transition(Done(Pop(s)), Ended(Pop(s), [Write([BRACE_CLOSE]), Write(Tail(Pop(s)))]))
       case ObjectMark => Transition(Done(Pop(s)), Ended(Pop(s), [Write([BRACE_CLOSE]), Write(Tail(Pop(s)))]))
       case _ => Fail(ProtocolOrder))
    case ArrayEnd =>
      (match Top(s)
       case LinesOpen => Transition([RootDone], [Write([LF])])
       case LinesMark => Transition([RootDone], [])
       case ArrayOpen => Transition(Done(Pop(s)), Ended(Pop(s), [Write([BRACKET_CLOSE]), Write(Tail(Pop(s)))]))
       case ArrayMark => Transition(Done(Pop(s)), Ended(Pop(s), [Write([BRACKET_CLOSE]), Write(Tail(Pop(s)))]))
       case _ => Fail(ProtocolOrder))
  }

  function Step(s: Stack, event: Event): StepResult {
    if Top(s) == RootDone then Fail(ProtocolOrder) else EventStep(s, event)
  }

  // The emit loop over a list of events. `stack` is the last one reached and
  // `outs` all that was emitted, also when a step failed.
  datatype Scan = Scan(stack: Stack, outs: seq<Out>, failure: Failure)

  datatype Failure = NoFailure | FailedWith(code: Code)

  function ScanEmit(events: seq<Event>): Scan {
    if events == [] then Scan([], [], NoFailure)
    else
      var before := ScanEmit(events[..|events| - 1]);
      if before.failure != NoFailure then before
      else match Step(before.stack, events[|events| - 1])
        case Transition(stack, outputs) => Scan(stack, before.outs + outputs, NoFailure)
        case Fail(code) => Scan(before.stack, before.outs, FailedWith(code))
  }

  function Finish(s: Stack): Failure {
    match Top(s)
    case RootDone => NoFailure
    case _ => FailedWith(ProtocolOrder)
  }

  // The texts, joined; a record's end is a signal to the writer and no text.
  function Join(outs: seq<Out>): Text {
    if outs == [] then []
    else Join(outs[..|outs| - 1]) + (match outs[|outs| - 1] case Write(text) => text case RecordEnd => [])
  }

  datatype Rendered = Document(text: Text) | Refused(code: Code)

  function RenderEvents(events: seq<Event>): Rendered {
    var scan := ScanEmit(events);
    match scan.failure
    case FailedWith(code) => Refused(code)
    case NoFailure =>
      match Finish(scan.stack)
      case FailedWith(code) => Refused(code)
      case NoFailure => Document(Join(scan.outs))
  }

  // A host's writer: it holds text until a record ends and then releases it,
  // and counts the record ends it saw.
  datatype Writer = Writer(committed: Text, held: Text, ends: nat)

  function Receive(w: Writer, o: Out): Writer {
    match o
    case Write(text) => w.(held := w.held + text)
    case RecordEnd => Writer(w.committed + w.held, [], w.ends + 1)
  }

  function Feed(outs: seq<Out>): Writer {
    if outs == [] then Writer([], [], 0) else Receive(Feed(outs[..|outs| - 1]), outs[|outs| - 1])
  }
}
