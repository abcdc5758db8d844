// jsonUnsafe as it runs: one set of the containers on the path, extended
// around each container and restored on return.

module UnsafeWalk {
  import opened Options
  import opened GoValues
  import opened Walks

  class Walker {
    const heap: Heap
    var onPath: set<PathKey>

    constructor (heap: Heap)
      ensures this.heap == heap && onPath == {}
    {
      this.heap := heap;
      onPath := {};
    }

    method Value(v: Val) returns (why: Reason)
      modifies this`onPath
      ensures onPath == old(onPath)
      ensures why == Walk(heap, onPath, v)
      decreases |heap.Keys - onPath|, Size(v), 2
    {
      match v {
        case Invalid => return NoReason;
        case Raw(bytes) => return if ValidUtf8(bytes) then NoReason else BadUtf8;
        case Big => return BigNumber;
        case Str(bytes) => return if ValidUtf8(bytes) then NoReason else BadUtf8;
        case Iface(elem) =>
          OneItem(heap, onPath, elem);
          why := Value(elem);
        case Ref(_) => why := Container(v);
        case ArrayVal(elems) =>
          InlineSmaller(heap, v);
          why := Elems(elems);
        case StructVal(fields) =>
          InlineSmaller(heap, v);
          why := Fields(fields);
        case Plain => return NoReason;
      }
    }

    method Container(v: Val) returns (why: Reason)
      requires v.Ref?
      modifies this`onPath
      ensures onPath == old(onPath)
      ensures why == Walk(heap, onPath, v)
      decreases |heap.Keys - onPath|, Size(v), 1
    {
      var k := v.key;
      if k !in heap {
        return NoReason;
      }
      if heap[k] == ByteSlice || heap[k] == SliceOf([]) {
        return NoReason;
      }
      if k in onPath {
        return Cycle;
      }
      ghost var before := onPath;
      CardinalShrinks(heap.Keys, onPath, k);
      onPath := onPath + {k};
      match heap[k] {
        case MapOf(stringKeys, entries) => why := Entries(stringKeys, entries);
        case SliceOf(elems) => why := Elems(elems);
        case Ordered(keys, vals) => why := OrderedNode(keys, vals);
        case Pointee(elem) =>
          OneItem(heap, onPath, elem);
          why := Value(elem);
      }
      onPath := onPath - {k};
      assert onPath == before;
    }

    // The engine's object node: each key in Keys order, then its value.
    method OrderedNode(keys: seq<Bytes>, vals: map<Bytes, Val>) returns (why: Reason)
      modifies this`onPath
      ensures onPath == old(onPath)
      ensures why == WalkItems(heap, onPath, OrderedItems(keys, vals))
      decreases |heap.Keys - onPath|, SizeItems(OrderedItems(keys, vals)), 3
    {
      hide Walk, ValidUtf8, Size;
      for i := 0 to |keys|
        invariant onPath == old(onPath)
        invariant WalkItems(heap, onPath, OrderedItems(keys, vals)) == WalkItems(heap, onPath, OrderedItems(keys[i..], vals))
        invariant SizeItems(OrderedItems(keys[i..], vals)) <= SizeItems(OrderedItems(keys, vals))
      {
        NextKey(heap, onPath, keys[i..], vals);
        assert keys[i..][1..] == keys[i + 1..];
        if !ValidUtf8(keys[i]) {
          return BadUtf8;
        }
        why := Value(if keys[i] in vals then vals[keys[i]] else Invalid);
        if why != NoReason {
          return;
        }
      }
      return NoReason;
    }

    method Entries(stringKeys: bool, entries: seq<Entry>) returns (why: Reason)
      modifies this`onPath
      ensures onPath == old(onPath)
      ensures why == WalkItems(heap, onPath, ContentItems(MapOf(stringKeys, entries)))
      decreases |heap.Keys - onPath|, SizeItems(ContentItems(MapOf(stringKeys, entries))), 3
    {
      hide Walk, ValidUtf8, Size;
      var keys := if stringKeys then SortEntries(entries) else entries;
      for i := 0 to |keys|
        invariant onPath == old(onPath)
        invariant WalkItems(heap, onPath, EntryItems(stringKeys, keys)) == WalkItems(heap, onPath, EntryItems(stringKeys, keys[i..]))
        invariant SizeItems(EntryItems(stringKeys, keys[i..])) <= SizeItems(EntryItems(stringKeys, keys))
      {
        NextEntry(heap, onPath, stringKeys, keys[i..]);
        assert keys[i..][1..] == keys[i + 1..];
        if stringKeys && !ValidUtf8(keys[i].key) {
          return BadUtf8;
        }
        why := Value(keys[i].v);
        if why != NoReason {
          return;
        }
      }
      return NoReason;
    }

    method Elems(elems: seq<Val>) returns (why: Reason)
      modifies this`onPath
      ensures onPath == old(onPath)
      ensures why == WalkItems(heap, onPath, ElemItems(elems))
      decreases |heap.Keys - onPath|, SizeItems(ElemItems(elems)), 3
    {
      hide Walk, ValidUtf8, Size;
      for i := 0 to |elems|
        invariant onPath == old(onPath)
        invariant WalkItems(heap, onPath, ElemItems(elems)) == WalkItems(heap, onPath, ElemItems(elems[i..]))
        invariant SizeItems(ElemItems(elems[i..])) <= SizeItems(ElemItems(elems))
      {
        NextElem(heap, onPath, elems[i..]);
        assert elems[i..][1..] == elems[i + 1..];
        why := Value(elems[i]);
        if why != NoReason {
          return;
        }
      }
      return NoReason;
    }

    method Fields(fields: seq<Field>) returns (why: Reason)
      modifies this`onPath
      ensures onPath == old(onPath)
      ensures why == WalkItems(heap, onPath, FieldItems(fields))
      decreases |heap.Keys - onPath|, SizeItems(FieldItems(fields)), 3
    {
      hide Walk, ValidUtf8, Size;
      for i := 0 to |fields|
        invariant onPath == old(onPath)
        invariant WalkItems(heap, onPath, FieldItems(fields)) == WalkItems(heap, onPath, FieldItems(fields[i..]))
        invariant SizeItems(FieldItems(fields[i..])) <= SizeItems(FieldItems(fields))
      {
        var f := fields[i];
        NextField(heap, onPath, fields[i..]);
        assert fields[i..][1..] == fields[i + 1..];
        if f.dash {
          continue;
        }
        if !f.exported {
          if !f.anonymous || !f.structTyped {
            continue;
          }
        }
        why := Value(f.v);
        if why != NoReason {
          return;
        }
      }
      return NoReason;
    }
  }

  lemma OneItem(heap: Heap, path: set<PathKey>, v: Val)
    ensures WalkItems(heap, path, [SubItem(v)]) == Walk(heap, path, v)
  {
    hide Walk;
    assert [SubItem(v)][1..] == [];
  }

  lemma TwoItems(heap: Heap, path: set<PathKey>, key: Bytes, v: Val, rest: seq<Item>)
    ensures WalkItems(heap, path, [KeyItem(key), SubItem(v)] + rest) ==
            if !ValidUtf8(key) then BadUtf8
            else if Walk(heap, path, v) != NoReason then Walk(heap, path, v)
            else WalkItems(heap, path, rest)
    ensures SizeItems([KeyItem(key), SubItem(v)] + rest) == 2 + Size(v) + SizeItems(rest)
  {
    hide Walk, Size;
    var items := [KeyItem(key), SubItem(v)] + rest;
    assert items[1..] == [SubItem(v)] + rest;
    FrontItem(heap, path, v, rest);
  }

  lemma FrontItem(heap: Heap, path: set<PathKey>, v: Val, rest: seq<Item>)
    ensures WalkItems(heap, path, [SubItem(v)] + rest) ==
            if Walk(heap, path, v) != NoReason then Walk(heap, path, v) else WalkItems(heap, path, rest)
    ensures SizeItems([SubItem(v)] + rest) == 1 + Size(v) + SizeItems(rest)
  {
    hide Walk, Size;
    assert ([SubItem(v)] + rest)[1..] == rest;
  }

  lemma NextKey(heap: Heap, path: set<PathKey>, keys: seq<Bytes>, vals: map<Bytes, Val>)
    requires keys != []
    ensures
      var v := if keys[0] in vals then vals[keys[0]] else Invalid;
      && WalkItems(heap, path, OrderedItems(keys, vals)) ==
         (if !ValidUtf8(keys[0]) then BadUtf8
          else if Walk(heap, path, v) != NoReason then Walk(heap, path, v)
          else WalkItems(heap, path, OrderedItems(keys[1..], vals)))
      && SizeItems(OrderedItems(keys, vals)) == 2 + Size(v) + SizeItems(OrderedItems(keys[1..], vals))
  {
    hide Walk, WalkItems, Size, SizeItems;
    TwoItems(heap, path, keys[0], if keys[0] in vals then vals[keys[0]] else Invalid, OrderedItems(keys[1..], vals));
  }

  lemma NextEntry(heap: Heap, path: set<PathKey>, stringKeys: bool, entries: seq<Entry>)
    requires entries != []
    ensures
      var e, rest := entries[0], EntryItems(stringKeys, entries[1..]);
      && WalkItems(heap, path, EntryItems(stringKeys, entries)) ==
         (if stringKeys && !ValidUtf8(e.key) then BadUtf8
          else if Walk(heap, path, e.v) != NoReason then Walk(heap, path, e.v)
          else WalkItems(heap, path, rest))
      && SizeItems(EntryItems(stringKeys, entries)) == (if stringKeys then 2 else 1) + Size(e.v) + SizeItems(rest)
  {
    hide Walk, WalkItems, Size, SizeItems;
    var e, rest := entries[0], EntryItems(stringKeys, entries[1..]);
    if stringKeys {
      assert EntryItems(stringKeys, entries) == [KeyItem(e.key), SubItem(e.v)] + rest;
      TwoItems(heap, path, e.key, e.v, rest);
    } else {
      assert EntryItems(stringKeys, entries) == [SubItem(e.v)] + rest;
      FrontItem(heap, path, e.v, rest);
    }
  }

  lemma NextElem(heap: Heap, path: set<PathKey>, elems: seq<Val>)
    requires elems != []
    ensures WalkItems(heap, path, ElemItems(elems)) ==
            if Walk(heap, path, elems[0]) != NoReason then Walk(heap, path, elems[0])
            else WalkItems(heap, path, ElemItems(elems[1..]))
    ensures SizeItems(ElemItems(elems)) == 1 + Size(elems[0]) + SizeItems(ElemItems(elems[1..]))
  {
    hide Walk, WalkItems, Size, SizeItems;
    FrontItem(heap, path, elems[0], ElemItems(elems[1..]));
  }

  lemma NextField(heap: Heap, path: set<PathKey>, fields: seq<Field>)
    requires fields != []
    ensures
      var v, rest := fields[0].v, FieldItems(fields[1..]);
      if Emitted(fields[0]) then
        && WalkItems(heap, path, FieldItems(fields)) ==
           (if Walk(heap, path, v) != NoReason then Walk(heap, path, v) else WalkItems(heap, path, rest))
        && SizeItems(FieldItems(fields)) == 1 + Size(v) + SizeItems(rest)
      else
        FieldItems(fields) == rest
  {
    hide Walk, WalkItems, Size, SizeItems;
    FrontItem(heap, path, fields[0].v, FieldItems(fields[1..]));
  }

  // The whole check starts with nothing on the path: it lets a value through
  // exactly when its unfolding ends and is clean.
  method JsonUnsafe(heap: Heap, v: Val) returns (why: Reason)
    ensures why == Walk(heap, {}, v)
    ensures why == NoReason <==> Clean(heap, v) && HasEnd(heap, v)
  {
    WalkAccepts(heap, v);
    var w := new Walker(heap);
    why := w.Value(v);
  }

  // What json.Marshal gives for a value.
  datatype Marshalled = Encoded(text: string) | Refused(error: string)

  datatype Doc = Doc(accept: bool, value: Option<string>, valueError: Option<string>)

  function Message(why: Reason): string {
    "value contains " +
    (match why
     case BadUtf8 => "non-UTF-8 string bytes that JSON encoding would corrupt"
     case BigNumber => "arbitrary-precision numbers that JSON encoding would corrupt"
     case Cycle => "a reference to itself, which JSON cannot represent"
     case NoReason => "")
    + "; retrieve it via a native tabnas runtime"
  }

  // The accept reply carries the value only if the format declares values and
  // the walk and the encoder both let it through; otherwise it says why, and
  // never both.
  method AcceptDoc(valueOut: bool, heap: Heap, v: Val, marshalled: Marshalled) returns (doc: Doc)
    ensures doc.accept
    ensures doc.value.Some? <==> valueOut && Clean(heap, v) && HasEnd(heap, v) && marshalled.Encoded?
    ensures doc.value.Some? ==> doc.value.value == marshalled.text
    ensures doc.valueError.Some? <==> valueOut && doc.value.None?
    ensures valueOut && Walk(heap, {}, v) != NoReason ==> doc.valueError == Some(Message(Walk(heap, {}, v)))
  {
    doc := Doc(true, None, None);
    if valueOut {
      var why := JsonUnsafe(heap, v);
      if why != NoReason {
        doc := doc.(valueError := Some(Message(why)));
      } else if marshalled.Encoded? {
        doc := doc.(value := Some(marshalled.text));
      } else {
        doc := doc.(valueError := Some(marshalled.error));
      }
    }
  }
}
