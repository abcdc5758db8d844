// What the walk does at each kind of value, said of its answers alone.

module WalkLaws {
  import opened GoValues
  import opened Utf8
  import opened Walks
  import opened Orders
  import opened UnsafeWalk
  import opened MapOrder

  // The first of n answers that reports something, or none.
  ghost predicate FirstOf(n: nat, answer: nat -> Reason, why: Reason) {
    if why == NoReason then forall i :: 0 <= i < n ==> answer(i) == NoReason
    else exists i :: 0 <= i < n && answer(i) == why && forall j :: 0 <= j < i ==> answer(j) == NoReason
  }

  // One more answer in front.
  lemma FirstFront(n: nat, answer: nat -> Reason, rest: nat -> Reason, why: Reason)
    requires FirstOf(n, rest, why) && forall i: nat :: i < n ==> rest(i) == answer(i + 1)
    ensures FirstOf(n + 1, answer, if answer(0) != NoReason then answer(0) else why)
  {
    if answer(0) == NoReason {
      if why == NoReason {
        forall i | 0 <= i < n + 1
          ensures answer(i) == NoReason
        {
          assert i > 0 ==> rest(i - 1) == NoReason;
        }
      } else {
        var i :| 0 <= i < n && rest(i) == why && forall j :: 0 <= j < i ==> rest(j) == NoReason;
        assert answer(i + 1) == why;
        forall j | 0 <= j < i + 1
          ensures answer(j) == NoReason
        {
          assert j > 0 ==> rest(j - 1) == NoReason;
        }
      }
    }
  }

  // Strings and raw fragments pass exactly when they are UTF-8; big numbers
  // never; a nil, or any other kind, always.
  lemma LeafLaw(heap: Heap, path: set<PathKey>, bytes: Bytes)
    ensures Walk(heap, path, Str(bytes)) == Walk(heap, path, Raw(bytes)) == if IsUtf8(bytes) then NoReason else BadUtf8
    ensures Walk(heap, path, Big) == BigNumber
    ensures Walk(heap, path, Invalid) == Walk(heap, path, Plain) == NoReason
  {
    hide ValidUtf8, IsUtf8;
    Utf8Exactly(bytes);
    assert Leaf(Str(bytes)) == Leaf(Raw(bytes)) == if IsUtf8(bytes) then NoReason else BadUtf8;
    assert Items(heap, Str(bytes)) == Items(heap, Raw(bytes)) == [];
  }

  lemma IfaceLaw(heap: Heap, path: set<PathKey>, elem: Val)
    ensures Walk(heap, path, Iface(elem)) == Walk(heap, path, elem)
  {
    assert Items(heap, Iface(elem)) == [SubItem(elem)];
    OneItem(heap, path, elem);
    hide WalkItems, Items;
  }

  function ElemAnswer(heap: Heap, path: set<PathKey>, elems: seq<Val>): nat -> Reason {
    (i: nat) => if i < |elems| then Walk(heap, path, elems[i]) else NoReason
  }

  lemma {:induction false} ElemsFirst(heap: Heap, path: set<PathKey>, elems: seq<Val>)
    ensures FirstOf(|elems|, ElemAnswer(heap, path, elems), WalkItems(heap, path, ElemItems(elems)))
    decreases |elems|
  {
    hide Walk;
    if elems != [] {
      ElemsFirst(heap, path, elems[1..]);
      NextElem(heap, path, elems);
      hide WalkItems;
      FirstFront(|elems| - 1, ElemAnswer(heap, path, elems), ElemAnswer(heap, path, elems[1..]), WalkItems(heap, path, ElemItems(elems[1..])));
    }
  }

  lemma ArrayLaw(heap: Heap, path: set<PathKey>, elems: seq<Val>)
    ensures FirstOf(|elems|, ElemAnswer(heap, path, elems), Walk(heap, path, ArrayVal(elems)))
  {
    assert Walk(heap, path, ArrayVal(elems)) == WalkItems(heap, path, ElemItems(elems));
    ElemsFirst(heap, path, elems);
  }

  // A field counts unless it is tagged away, or is unexported and no embedded struct.
  function FieldAnswer(heap: Heap, path: set<PathKey>, fields: seq<Field>): nat -> Reason {
    (i: nat) =>
      if i >= |fields| || fields[i].dash then NoReason
      else if !fields[i].exported && !(fields[i].anonymous && fields[i].structTyped) then NoReason
      else Walk(heap, path, fields[i].v)
  }

  lemma FieldStep(heap: Heap, path: set<PathKey>, fields: seq<Field>)
    requires fields != []
    ensures
      var first, rest := FieldAnswer(heap, path, fields)(0), WalkItems(heap, path, FieldItems(fields[1..]));
      WalkItems(heap, path, FieldItems(fields)) == if first != NoReason then first else rest
  {
    hide Walk, WalkItems, FieldItems;
    NextField(heap, path, fields);
  }

  lemma {:induction false} FieldsFirst(heap: Heap, path: set<PathKey>, fields: seq<Field>)
    ensures FirstOf(|fields|, FieldAnswer(heap, path, fields), WalkItems(heap, path, FieldItems(fields)))
    decreases |fields|
  {
    hide Walk;
    if fields != [] {
      FieldsFirst(heap, path, fields[1..]);
      FieldStep(heap, path, fields);
      hide WalkItems, FieldItems, Emitted;
      FirstFront(|fields| - 1, FieldAnswer(heap, path, fields), FieldAnswer(heap, path, fields[1..]), WalkItems(heap, path, FieldItems(fields[1..])));
    }
  }

  lemma StructLaw(heap: Heap, path: set<PathKey>, fields: seq<Field>)
    ensures FirstOf(|fields|, FieldAnswer(heap, path, fields), Walk(heap, path, StructVal(fields)))
  {
    assert Walk(heap, path, StructVal(fields)) == WalkItems(heap, path, FieldItems(fields));
    FieldsFirst(heap, path, fields);
  }

  // A key, then its value; the object node's missing value is nil.
  function NodeAnswer(heap: Heap, path: set<PathKey>, keys: seq<Bytes>, vals: map<Bytes, Val>): nat -> Reason {
    (i: nat) =>
      if i >= |keys| then NoReason
      else if !ValidUtf8(keys[i]) then BadUtf8
      else if keys[i] in vals then Walk(heap, path, vals[keys[i]])
      else NoReason
  }

  lemma {:induction false} NodeFirst(heap: Heap, path: set<PathKey>, keys: seq<Bytes>, vals: map<Bytes, Val>)
    ensures FirstOf(|keys|, NodeAnswer(heap, path, keys, vals), WalkItems(heap, path, OrderedItems(keys, vals)))
    decreases |keys|
  {
    LeafLaw(heap, path, []);
    hide Walk, ValidUtf8;
    if keys != [] {
      NodeFirst(heap, path, keys[1..], vals);
      NextKey(heap, path, keys, vals);
      hide WalkItems;
      FirstFront(|keys| - 1, NodeAnswer(heap, path, keys, vals), NodeAnswer(heap, path, keys[1..], vals),
                 WalkItems(heap, path, OrderedItems(keys[1..], vals)));
    }
  }

  // A map's entry: its key, if keys are strings, and then its value.
  function EntryAnswer(heap: Heap, path: set<PathKey>, stringKeys: bool, entries: seq<Entry>): nat -> Reason {
    (i: nat) =>
      if i >= |entries| then NoReason
      else if stringKeys && !ValidUtf8(entries[i].key) then BadUtf8
      else Walk(heap, path, entries[i].v)
  }

  lemma {:induction false} EntriesFirst(heap: Heap, path: set<PathKey>, stringKeys: bool, entries: seq<Entry>)
    ensures FirstOf(|entries|, EntryAnswer(heap, path, stringKeys, entries), WalkItems(heap, path, EntryItems(stringKeys, entries)))
    decreases |entries|
  {
    hide Walk, ValidUtf8;
    if entries != [] {
      EntriesFirst(heap, path, stringKeys, entries[1..]);
      NextEntry(heap, path, stringKeys, entries);
      hide WalkItems;
      FirstFront(|entries| - 1, EntryAnswer(heap, path, stringKeys, entries), EntryAnswer(heap, path, stringKeys, entries[1..]),
                 WalkItems(heap, path, EntryItems(stringKeys, entries[1..])));
    }
  }

  // What a container on the path answers.
  ghost predicate HeldAnswers(heap: Heap, on: set<PathKey>, c: Content, why: Reason) {
    match c
    case Pointee(v) => why == Walk(heap, on, v)
    case SliceOf(elems) => FirstOf(|elems|, ElemAnswer(heap, on, elems), why)
    case Ordered(keys, vals) => FirstOf(|keys|, NodeAnswer(heap, on, keys, vals), why)
    case MapOf(false, entries) => FirstOf(|entries|, EntryAnswer(heap, on, false, entries), why)
    case MapOf(true, entries) =>
      exists sorted :: Sorted(entries, sorted) && FirstOf(|sorted|, EntryAnswer(heap, on, true, sorted), why)
    case ByteSlice => why == NoReason
  }

  // The same entries, their keys in ascending byte order.
  ghost predicate Sorted(entries: seq<Entry>, sorted: seq<Entry>) {
    multiset(sorted) == multiset(entries) && forall i, j :: 0 <= i < j < |sorted| ==> Less(sorted[i].key, sorted[j].key)
  }

  lemma {:induction false} OrderedPairs(sorted: seq<Entry>, i: nat, j: nat)
    requires InKeyOrder(sorted) && i < j < |sorted|
    ensures Less(sorted[i].key, sorted[j].key)
  {
    if i == 0 {
      assert sorted[1..][j - 1] == sorted[j];
    } else {
      OrderedPairs(sorted[1..], i - 1, j - 1);
    }
  }

  lemma SortIsSorted(entries: seq<Entry>)
    requires DistinctKeys(entries)
    ensures Sorted(entries, SortEntries(entries))
  {
    SortSorts(entries);
    hide SortEntries, InKeyOrder;
    forall i, j | 0 <= i < j < |SortEntries(entries)|
      ensures Less(SortEntries(entries)[i].key, SortEntries(entries)[j].key)
    {
      OrderedPairs(SortEntries(entries), i, j);
    }
  }

  // A reference: nil, bytes and an empty slice pass; one on the path is a
  // cycle; any other answers what it holds, with itself on the path.
  lemma RefLaw(heap: Heap, path: set<PathKey>, k: PathKey)
    requires k in heap && heap[k].MapOf? ==> DistinctKeys(heap[k].entries)
    ensures
      var why := Walk(heap, path, Ref(k));
      if k !in heap || heap[k] == ByteSlice || heap[k] == SliceOf([]) then why == NoReason
      else if k in path then why == Cycle
      else HeldAnswers(heap, path + {k}, heap[k], why)
  {
    if OnPathKind(heap, Ref(k)) && k !in path {
      var on := path + {k};
      assert Walk(heap, path, Ref(k)) == WalkItems(heap, on, ContentItems(heap[k]));
      hide Walk, WalkItems;
      match heap[k]
      case Pointee(v) => OneItem(heap, on, v);
      case SliceOf(elems) => ElemsFirst(heap, on, elems);
      case Ordered(keys, vals) => NodeFirst(heap, on, keys, vals);
      case MapOf(stringKeys, entries) =>
        SortIsSorted(entries);
        EntriesFirst(heap, on, stringKeys, if stringKeys then SortEntries(entries) else entries);
      case ByteSlice =>
    }
  }

  // The reply's words for each reason.
  lemma Messages()
    ensures Message(BadUtf8) ==
            "value contains " + "non-UTF-8 string bytes that JSON encoding would corrupt" + "; retrieve it via a native tabnas runtime"
    ensures Message(BigNumber) ==
            "value contains " + "arbitrary-precision numbers that JSON encoding would corrupt" + "; retrieve it via a native tabnas runtime"
    ensures Message(Cycle) ==
            "value contains " + "a reference to itself, which JSON cannot represent" + "; retrieve it via a native tabnas runtime"
  {
  }
}
