// Go values as reflection sees them, over a heap that may share parts and may
// hold cycles (go/clib/core.go).

module GoValues {
  import opened Orders

  type Byte = b: int | 0 <= b < 256

  type Bytes = seq<Byte>

  // A container's identity on the path: address, length of a slice, type. It
  // determines what the container holds.
  datatype PathKey = PathKey(addr: nat, n: nat, t: nat)

  datatype Val =
    | Invalid                     // a nil interface
    | Raw(bytes: Bytes)           // json.RawMessage
    | Big                         // big.Int, big.Float or a pointer to one
    | Str(bytes: Bytes)
    | Iface(elem: Val)
    | Ref(key: PathKey)           // a pointer, map or slice; nil if the heap has no such key
    | ArrayVal(elems: seq<Val>)
    | StructVal(fields: seq<Field>)
    | Plain                       // any other kind

  datatype Field = Field(dash: bool, exported: bool, anonymous: bool, structTyped: bool, v: Val)

  // A map's entry. A key that is no string stands as the text encoding/json
  // writes it as, which is also what it sorts by.
  datatype Entry = Entry(key: Bytes, v: Val)

  datatype Content =
    | Pointee(v: Val)
    | SliceOf(elems: seq<Val>)
    | ByteSlice
    | MapOf(stringKeys: bool, entries: seq<Entry>) // in the order MapKeys gives them
    | Ordered(keys: seq<Bytes>, vals: map<Bytes, Val>)

  type Heap = map<PathKey, Content>

  // RFC 3629, section 4.
  predicate Cont(b: Byte) {
    0x80 <= b <= 0xBF
  }

  predicate ValidUtf8(s: Bytes)
    decreases |s|
  {
    if s == [] then true
    else if s[0] < 0x80 then ValidUtf8(s[1..])
    else if 0xC2 <= s[0] <= 0xDF then |s| >= 2 && Cont(s[1]) && ValidUtf8(s[2..])
    else if 0xE0 <= s[0] <= 0xEF then
      && |s| >= 3 && Cont(s[1]) && Cont(s[2])
      && (s[0] == 0xE0 ==> 0xA0 <= s[1]) && (s[0] == 0xED ==> s[1] <= 0x9F)
      && ValidUtf8(s[3..])
    else if 0xF0 <= s[0] <= 0xF4 then
      && |s| >= 4 && Cont(s[1]) && Cont(s[2]) && Cont(s[3])
      && (s[0] == 0xF0 ==> 0x90 <= s[1]) && (s[0] == 0xF4 ==> s[1] <= 0x8F)
      && ValidUtf8(s[4..])
    else false
  }

  function InsertEntry(e: Entry, sorted: seq<Entry>): seq<Entry> {
    if sorted == [] || !Less(sorted[0].key, e.key) then [e] + sorted
    else [sorted[0]] + InsertEntry(e, sorted[1..])
  }

  // A map's entries in key order, as sort.Slice leaves them.
  function SortEntries(entries: seq<Entry>): seq<Entry> {
    if entries == [] then [] else InsertEntry(entries[0], SortEntries(entries[1..]))
  }

  // A key or a value that is emitted, in the encoder's order.
  datatype Item = KeyItem(bytes: Bytes) | SubItem(v: Val)

  // The struct fields encoding/json emits.
  predicate Emitted(f: Field) {
    !f.dash && (f.exported || (f.anonymous && f.structTyped))
  }

  function FieldItems(fields: seq<Field>): seq<Item> {
    if fields == [] then []
    else (if Emitted(fields[0]) then [SubItem(fields[0].v)] else []) + FieldItems(fields[1..])
  }

  function ElemItems(elems: seq<Val>): (r: seq<Item>)
    ensures |r| == |elems| && forall i :: 0 <= i < |r| ==> r[i] == SubItem(elems[i])
  {
    if elems == [] then [] else [SubItem(elems[0])] + ElemItems(elems[1..])
  }

  function EntryItems(stringKeys: bool, entries: seq<Entry>): seq<Item> {
    if entries == [] then []
    else (if stringKeys then [KeyItem(entries[0].key)] else []) + [SubItem(entries[0].v)] + EntryItems(stringKeys, entries[1..])
  }

  function OrderedItems(keys: seq<Bytes>, vals: map<Bytes, Val>): seq<Item> {
    if keys == [] then []
    else [KeyItem(keys[0]), SubItem(if keys[0] in vals then vals[keys[0]] else Invalid)] + OrderedItems(keys[1..], vals)
  }

  function ContentItems(c: Content): seq<Item> {
    match c
    case Pointee(v) => [SubItem(v)]
    case SliceOf(elems) => ElemItems(elems)
    case ByteSlice => []
    case MapOf(stringKeys, entries) => EntryItems(stringKeys, if stringKeys then SortEntries(entries) else entries)
    case Ordered(keys, vals) => OrderedItems(keys, vals)
  }

  // A container the walk puts on the path: not nil, not empty and no bytes.
  predicate OnPathKind(heap: Heap, v: Val) {
    v.Ref? && v.key in heap && heap[v.key] != ByteSlice && heap[v.key] != SliceOf([])
  }

  function Items(heap: Heap, v: Val): seq<Item> {
    match v
    case Iface(elem) => [SubItem(elem)]
    case ArrayVal(elems) => ElemItems(elems)
    case StructVal(fields) => FieldItems(fields)
    case Ref(key) => if key in heap then ContentItems(heap[key]) else []
    case _ => []
  }

  // How much is written inline, for termination.
  function Size(v: Val): nat
    decreases v
  {
    match v
    case Iface(elem) => 2 + Size(elem)
    case ArrayVal(elems) => 1 + SizeVals(elems)
    case StructVal(fields) => 1 + SizeFields(fields)
    case _ => 1
  }

  function SizeVals(elems: seq<Val>): nat
    decreases elems
  {
    if elems == [] then 0 else 1 + Size(elems[0]) + SizeVals(elems[1..])
  }

  function SizeFields(fields: seq<Field>): nat
    decreases fields
  {
    if fields == [] then 0 else SizeField(fields[0]) + SizeFields(fields[1..])
  }

  function SizeField(f: Field): nat
    decreases f
  {
    1 + Size(f.v)
  }

  function SizeItems(items: seq<Item>): nat {
    if items == [] then 0
    else 1 + (match items[0] case KeyItem(_) => 0 case SubItem(v) => Size(v)) + SizeItems(items[1..])
  }

  lemma {:induction false} SizeElemItems(elems: seq<Val>)
    ensures SizeItems(ElemItems(elems)) == SizeVals(elems)
  {
    if elems != [] {
      SizeElemItems(elems[1..]);
      assert ElemItems(elems)[1..] == ElemItems(elems[1..]);
    }
  }

  lemma {:induction false} SizeFieldItems(fields: seq<Field>)
    ensures SizeItems(FieldItems(fields)) <= SizeFields(fields)
  {
    if fields != [] {
      SizeFieldItems(fields[1..]);
      if Emitted(fields[0]) {
        assert FieldItems(fields)[1..] == FieldItems(fields[1..]);
      } else {
        assert FieldItems(fields) == FieldItems(fields[1..]);
      }
    }
  }

  // What is inline in a value is smaller than it.
  lemma InlineSmaller(heap: Heap, v: Val)
    requires !v.Ref?
    ensures SizeItems(Items(heap, v)) < Size(v)
  {
    match v
    case Iface(elem) => assert Items(heap, v)[1..] == [];
    case ArrayVal(elems) => SizeElemItems(elems);
    case StructVal(fields) => SizeFieldItems(fields);
    case _ =>
  }

  lemma CardinalShrinks(a: set<PathKey>, path: set<PathKey>, k: PathKey)
    requires k in a && k !in path
    ensures |a - (path + {k})| < |a - path|
  {
    assert a - (path + {k}) == (a - path) - {k};
  }
}
