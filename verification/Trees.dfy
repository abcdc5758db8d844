// Trees, their events and their compact print: the three readings of a
// document that the render, the reader and the transducer meet in.

module Trees {
  import opened Text

  datatype Number = Finite(lexeme: Lexeme) | NonFinite

  datatype Scalar = Null | Bool(b: bool) | Num(n: Number) | Str(s: Text)

  // An object keeps its members as written, so a repeated key stays repeated.
  datatype Tree = Leaf(scalar: Scalar) | Arr(items: seq<Tree>) | Obj(members: seq<Member>)

  datatype Member = Member(name: Text, value: Tree)

  datatype Event =
    | ArrayStart
    | ArrayEnd
    | ObjectStart
    | ObjectEnd
    | Key(name: Text)
    | ScalarEvent(scalar: Scalar)

  // The events a walk of a tree makes.
  function Linear(t: Tree): seq<Event>
    decreases t
  {
    match t
    case Leaf(scalar) => [ScalarEvent(scalar)]
    case Arr(items) => [ArrayStart] + LinearItems(items) + [ArrayEnd]
    case Obj(members) => [ObjectStart] + LinearMembers(members) + [ObjectEnd]
  }

  function LinearItems(items: seq<Tree>): seq<Event>
    decreases items
  {
    if items == [] then []
    else LinearItems(items[..|items| - 1]) + Linear(items[|items| - 1])
  }

  function LinearMembers(members: seq<Member>): seq<Event>
    decreases members
  {
    if members == [] then []
    else
      var last := members[|members| - 1];
      LinearMembers(members[..|members| - 1]) + [Key(last.name)] + Linear(last.value)
  }

  lemma LinearItemsPush(items: seq<Tree>, t: Tree)
    ensures LinearItems(items + [t]) == LinearItems(items) + Linear(t)
  {
    assert (items + [t])[..|items|] == items;
  }

  lemma LinearMembersPush(members: seq<Member>, name: Text, t: Tree)
    ensures LinearMembers(members + [Member(name, t)]) == LinearMembers(members) + [Key(name)] + Linear(t)
  {
    assert (members + [Member(name, t)])[..|members|] == members;
  }

  // RFC 8259, section 7: the escapes of a string the render writes. The
  // reader's half is Lexer.CharAt.
  function HexDigit(d: int): Unit
    requires 0 <= d < 16
  {
    if d < 10 then 0x30 + d else 0x61 + (d - 10)
  }

  function QuotedUnit(c: Unit): Text {
    if c == QUOTE || c == BACKSLASH then [BACKSLASH, c]
    else if c < 0x20 then [BACKSLASH, 0x75, ZERO, ZERO, HexDigit(c / 16), HexDigit(c % 16)]
    else [c]
  }

  function QuotedBody(s: Text): Text {
    if s == [] then [] else QuotedUnit(s[0]) + QuotedBody(s[1..])
  }

  function Quoted(s: Text): Text {
    [QUOTE] + QuotedBody(s) + [QUOTE]
  }

  // JSON has no spelling for a number that is not finite: it is written null.
  function PrintScalar(scalar: Scalar): Text {
    match scalar
    case Null => NULL_WORD
    case Bool(true) => TRUE_WORD
    case Bool(false) => FALSE_WORD
    case Num(Finite(lexeme)) => lexeme
    case Num(NonFinite) => NULL_WORD
    case Str(s) => Quoted(s)
  }

  // Compact JSON, printed by recursion on the tree.
  function Print(t: Tree): Text
    decreases t
  {
    match t
    case Leaf(scalar) => PrintScalar(scalar)
    case Arr(items) => [BRACKET_OPEN] + PrintItems(items) + [BRACKET_CLOSE]
    case Obj(members) => [BRACE_OPEN] + PrintMembers(members) + [BRACE_CLOSE]
  }

  function PrintItems(items: seq<Tree>): Text
    decreases items
  {
    if items == [] then []
    else
      var front := items[..|items| - 1];
      PrintItems(front) + (if front == [] then [] else [COMMA]) + Print(items[|items| - 1])
  }

  function PrintMembers(members: seq<Member>): Text
    decreases members
  {
    if members == [] then []
    else
      var front, last := members[..|members| - 1], members[|members| - 1];
      PrintMembers(front) + (if front == [] then [] else [COMMA]) + Quoted(last.name) + [COLON] + Print(last.value)
  }

  // One line per element of the root.
  function PrintLines(items: seq<Tree>): Text {
    if items == [] then []
    else PrintLines(items[..|items| - 1]) + Print(items[|items| - 1]) + [LF]
  }

  // A whole document: a lone line feed when the root array is empty.
  function PrintDocument(items: seq<Tree>): Text {
    if items == [] then [LF] else PrintLines(items)
  }

  // The tree a reader gets back: a number that is not finite is null.
  function Readable(t: Tree): Tree
    decreases t
  {
    match t
    case Leaf(Num(NonFinite)) => Leaf(Null)
    case Leaf(_) => t
    case Arr(items) => Arr(ReadableItems(items))
    case Obj(members) => Obj(ReadableMembers(members))
  }

  function ReadableItems(items: seq<Tree>): (r: seq<Tree>)
    ensures |r| == |items|
    decreases items
  {
    if items == [] then []
    else ReadableItems(items[..|items| - 1]) + [Readable(items[|items| - 1])]
  }

  function ReadableMembers(members: seq<Member>): (r: seq<Member>)
    ensures |r| == |members|
    decreases members
  {
    if members == [] then []
    else
      var last := members[|members| - 1];
      ReadableMembers(members[..|members| - 1]) + [Member(last.name, Readable(last.value))]
  }
}
