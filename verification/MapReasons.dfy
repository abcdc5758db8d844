// Which reasons the walk can give for a value, over all orders Go may give the
// entries of its maps in (go/clib/core.go:431-449).

module MapReasons {
  import opened GoValues
  import opened Walks
  import opened MapOrder

  // A map whose entries are walked as given.
  predicate Unordered(heap: Heap, v: Val) {
    OnPathKind(heap, v) && heap[v.key].MapOf? && !heap[v.key].stringKeys
  }

  // Where the root has nothing wrong and is not on the path.
  predicate GoesOn(heap: Heap, path: set<PathKey>, v: Val) {
    Leaf(v) == NoReason && (OnPathKind(heap, v) ==> v.key !in path)
  }

  // A reason the walk can give: of the parts that have any, the first one's,
  // but of a map whose keys are not strings any entry's.
  ghost predicate May(heap: Heap, path: set<PathKey>, v: Val, r: Reason)
    decreases |heap.Keys - path|, Size(v), 0
  {
    if !GoesOn(heap, path, v) then r == Walk(heap, path, v)
    else if Unordered(heap, v) then
      CardinalShrinks(heap.Keys, path, v.key);
      if r == NoReason then Walk(heap, path, v) == NoReason
      else exists e :: e in heap[v.key].entries && May(heap, path + {v.key}, e.v, r)
    else if OnPathKind(heap, v) then
      CardinalShrinks(heap.Keys, path, v.key);
      MayItems(heap, path + {v.key}, Items(heap, v), r)
    else if v.Ref? then r == NoReason
    else
      InlineSmaller(heap, v);
      MayItems(heap, path, Items(heap, v), r)
  }

  ghost predicate MayItems(heap: Heap, path: set<PathKey>, items: seq<Item>, r: Reason)
    decreases |heap.Keys - path|, SizeItems(items), 1
  {
    if items == [] then r == NoReason
    else if WalkItem(heap, path, items[0]) == NoReason then MayItems(heap, path, items[1..], r)
    else match items[0]
      case KeyItem(_) => r == BadUtf8
      case SubItem(w) => May(heap, path, w, r)
  }

  lemma ReorderedBack(heap: Heap, other: Heap)
    requires ReorderedMaps(heap, other)
    ensures ReorderedMaps(other, heap)
  {
  }

  // Quiet parts are quiet in any order.
  lemma SameQuiet(heap: Heap, other: Heap, path: set<PathKey>, item: Item)
    requires ReorderedMaps(heap, other)
    ensures WalkItem(heap, path, item) == NoReason <==> WalkItem(other, path, item) == NoReason
  {
    hide Walk, ReorderedMaps;
    if item.SubItem? {
      ReorderedBack(heap, other);
      if Walk(heap, path, item.v) == NoReason {
        AcceptanceIgnoresOrder(heap, other, path, item.v);
      }
      if Walk(other, path, item.v) == NoReason {
        AcceptanceIgnoresOrder(other, heap, path, item.v);
      }
    }
  }

  lemma SameKind(heap: Heap, other: Heap, v: Val)
    requires ReorderedMaps(heap, other)
    ensures OnPathKind(heap, v) == OnPathKind(other, v)
    ensures Unordered(heap, v) == Unordered(other, v)
    ensures !Unordered(heap, v) ==> Items(heap, v) == Items(other, v)
  {
    hide SortEntries, EntryItems, ElemItems, FieldItems, OrderedItems;
    if v.Ref? && v.key in heap && heap[v.key] != other[v.key] && heap[v.key].stringKeys {
      SortForgetsOrder(heap[v.key].entries, other[v.key].entries);
    }
  }

  // The walk, told as May is.
  lemma WalkGoesOn(heap: Heap, path: set<PathKey>, v: Val)
    requires GoesOn(heap, path, v)
    ensures Walk(heap, path, v) == WalkItems(heap, Below(heap, path, v), Items(heap, v))
  {
    hide Walk, Items;
    WalkStep(heap, path, v);
  }

  // Whatever order the entries are given in, the reason is one it can give.
  lemma {:induction false} OnlyThese(heap: Heap, other: Heap, path: set<PathKey>, v: Val)
    requires ReorderedMaps(heap, other)
    ensures May(heap, path, v, Walk(other, path, v))
    decreases |heap.Keys - path|, Size(v), 0
  {
    hide Items, Walk, Leaf, ReorderedMaps, Unordered;
    SameKind(heap, other, v);
    if !GoesOn(heap, path, v) {
      SameStop(heap, other, path, v);
    } else {
      WalkGoesOn(other, path, v);
      if Unordered(heap, v) {
        UnorderedThese(heap, other, path, v);
      } else if OnPathKind(heap, v) {
        OnPathIsRef(heap, v);
        CardinalShrinks(heap.Keys, path, v.key);
        OnlyTheseItems(heap, other, path + {v.key}, Items(heap, v));
      } else if v.Ref? {
        NothingBelow(other, v);
      } else {
        InlineSmaller(heap, v);
        OnlyTheseItems(heap, other, path, Items(heap, v));
      }
    }
  }

  lemma NothingBelow(heap: Heap, v: Val)
    requires v.Ref? && !OnPathKind(heap, v)
    ensures Items(heap, v) == []
  {
  }

  lemma SameStop(heap: Heap, other: Heap, path: set<PathKey>, v: Val)
    requires OnPathKind(heap, v) == OnPathKind(other, v) && !GoesOn(heap, path, v)
    ensures Walk(heap, path, v) == Walk(other, path, v)
  {
    hide Items, OnPathKind, WalkItems;
  }

  lemma {:induction false} OnlyTheseItems(heap: Heap, other: Heap, path: set<PathKey>, items: seq<Item>)
    requires ReorderedMaps(heap, other)
    ensures MayItems(heap, path, items, WalkItems(other, path, items))
    decreases |heap.Keys - path|, SizeItems(items), 1
  {
    hide Walk, May, ReorderedMaps;
    if items != [] {
      SameQuiet(heap, other, path, items[0]);
      if WalkItem(heap, path, items[0]) == NoReason {
        OnlyTheseItems(heap, other, path, items[1..]);
      } else if items[0].SubItem? {
        OnlyThese(heap, other, path, items[0].v);
      }
    }
  }

  lemma {:induction false} UnorderedThese(heap: Heap, other: Heap, path: set<PathKey>, v: Val)
    requires ReorderedMaps(heap, other) && GoesOn(heap, path, v) && Unordered(heap, v)
    ensures May(heap, path, v, Walk(other, path, v))
    decreases |heap.Keys - path|, 0, 2
  {
    var k, r := v.key, Walk(other, path, v);
    var below := path + {k};
    if r == NoReason {
      SameQuiet(heap, other, path, SubItem(v));
    } else {
      CardinalShrinks(heap.Keys, path, k);
      hide Walk, ReorderedMaps, SortEntries;
      assert Unordered(other, v) && multiset(heap[k].entries) == multiset(other[k].entries) by { SameEntries(heap, other, k); SameKind(heap, other, v); }
      assert WithOrder(other, k, other[k].entries) == other;
      OrderWalked(other, k, path, other[k].entries);
      var e := FirstIsOne(other, below, other[k].entries);
      SameMembersOf(heap[k].entries, other[k].entries);
      OnlyThese(heap, other, below, e.v);
    }
  }

  lemma SameEntries(heap: Heap, other: Heap, k: PathKey)
    requires ReorderedMaps(heap, other) && k in heap && heap[k].MapOf?
    ensures k in other && other[k].MapOf? && multiset(heap[k].entries) == multiset(other[k].entries)
  {
  }

  // Every reason it can give, some order gives; maps on the path need no
  // other order.
  lemma {:induction false} AllOfThese(heap: Heap, path: set<PathKey>, v: Val, r: Reason) returns (other: Heap)
    requires May(heap, path, v, r)
    ensures ReorderedMaps(heap, other) && Walk(other, path, v) == r
    ensures forall k :: k in path && k in heap ==> other[k] == heap[k]
    decreases |heap.Keys - path|, Size(v), 1
  {
    hide Walk, Items, MayItems, Leaf, OnPathKind, Size;
    if !GoesOn(heap, path, v) || (Unordered(heap, v) && r == NoReason) {
      other := heap;
    } else if Unordered(heap, v) {
      UnorderedSize(heap, path, v);
      other := SomeEntry(heap, path, v, r);
    } else {
      other := InOrder(heap, path, v, r);
    }
  }

  lemma UnorderedSize(heap: Heap, path: set<PathKey>, v: Val)
    requires Unordered(heap, v)
    ensures Size(v) > 0
  {
  }

  lemma {:induction false} InOrder(heap: Heap, path: set<PathKey>, v: Val, r: Reason) returns (other: Heap)
    requires GoesOn(heap, path, v) && !Unordered(heap, v) && May(heap, path, v, r)
    ensures ReorderedMaps(heap, other) && Walk(other, path, v) == r
    ensures forall k :: k in path && k in heap ==> other[k] == heap[k]
    decreases |heap.Keys - path|, Size(v), 0
  {
    hide Walk, Items, Leaf, MayItems, WalkItems, Unordered, ReorderedMaps;
    if OnPathKind(heap, v) {
      OnPathIsRef(heap, v);
      CardinalShrinks(heap.Keys, path, v.key);
      other := AllOfTheseItems(heap, path + {v.key}, Items(heap, v), r);
    } else if v.Ref? {
      other := heap;
      NothingBelow(heap, v);
      NothingWalked(heap, path);
    } else {
      InlineSmaller(heap, v);
      other := AllOfTheseItems(heap, path, Items(heap, v), r);
    }
    SameHeap(heap);
    SameKind(heap, other, v);
    WalkGoesOn(other, path, v);
  }

  lemma SameHeap(heap: Heap)
    ensures ReorderedMaps(heap, heap)
  {
  }

  lemma NothingWalked(heap: Heap, path: set<PathKey>)
    ensures WalkItems(heap, path, []) == NoReason
  {
  }

  lemma {:induction false} SomeEntry(heap: Heap, path: set<PathKey>, v: Val, r: Reason) returns (other: Heap)
    requires GoesOn(heap, path, v) && Unordered(heap, v) && r != NoReason && May(heap, path, v, r)
    ensures ReorderedMaps(heap, other) && Walk(other, path, v) == r
    ensures forall k :: k in path && k in heap ==> other[k] == heap[k]
    decreases |heap.Keys - path|, 0, 2
  {
    var k := v.key;
    var entries, below := heap[k].entries, path + {k};
    CardinalShrinks(heap.Keys, path, k);
    var e :| e in entries && May(heap, below, e.v, r);
    hide Walk, May;
    var inner := AllOfThese(heap, below, e.v, r);
    var front := ToFront(entries, e);
    other := WithOrder(inner, k, front);
    assert inner[k] == heap[k];
    OrderWalked(inner, k, path, front);
    FrontDecides(inner, below, front);
  }

  lemma {:induction false} AllOfTheseItems(heap: Heap, path: set<PathKey>, items: seq<Item>, r: Reason) returns (other: Heap)
    requires MayItems(heap, path, items, r)
    ensures ReorderedMaps(heap, other) && WalkItems(other, path, items) == r
    ensures forall k :: k in path && k in heap ==> other[k] == heap[k]
    decreases |heap.Keys - path|, SizeItems(items), 1
  {
    hide Walk, May;
    other := heap;
    if items != [] {
      if WalkItem(heap, path, items[0]) == NoReason {
        other := AllOfTheseItems(heap, path, items[1..], r);
      } else if items[0].SubItem? {
        other := AllOfThese(heap, path, items[0].v, r);
      }
      SameQuiet(heap, other, path, items[0]);
    }
  }

  // The reasons that orders of the entries give are exactly those.
  lemma ReasonsExactly(heap: Heap, v: Val, r: Reason)
    ensures May(heap, {}, v, r) <==> exists other :: ReorderedMaps(heap, other) && Walk(other, {}, v) == r
  {
    hide May, Walk, ReorderedMaps;
    if May(heap, {}, v, r) {
      var other := AllOfThese(heap, {}, v, r);
    }
    if other :| ReorderedMaps(heap, other) && Walk(other, {}, v) == r {
      OnlyThese(heap, other, {}, v);
    }
  }

  ghost predicate Settled(heap: Heap, v: Val) {
    forall r, t :: May(heap, {}, v, r) && May(heap, {}, v, t) ==> r == t
  }

  // For any one order: it gives what every order gives exactly where there is
  // only one reason to give.
  lemma ReasonSettled(heap: Heap, v: Val, one: Heap)
    requires ReorderedMaps(heap, one)
    ensures (forall other :: ReorderedMaps(heap, other) ==> Walk(other, {}, v) == Walk(one, {}, v)) <==> Settled(heap, v)
  {
    hide May, Walk, ReorderedMaps;
    if Settled(heap, v) {
      forall other | ReorderedMaps(heap, other)
        ensures Walk(other, {}, v) == Walk(one, {}, v)
      {
        OnlyThese(heap, other, {}, v);
        OnlyThese(heap, one, {}, v);
      }
    }
    if forall other :: ReorderedMaps(heap, other) ==> Walk(other, {}, v) == Walk(one, {}, v) {
      forall r, t | May(heap, {}, v, r) && May(heap, {}, v, t)
        ensures r == t
      {
        var a := AllOfThese(heap, {}, v, r);
        var b := AllOfThese(heap, {}, v, t);
      }
    }
  }

  // The order encoding/json writes every map in.
  function EncoderOrders(heap: Heap): Heap {
    map k | k in heap ::
      if heap[k].MapOf? && !heap[k].stringKeys then MapOf(false, SortEntries(heap[k].entries)) else heap[k]
  }

  // Whatever orders Go gives, the reason is that of the first offending spot
  // in the encoder's own order, exactly where there is only one to give.
  lemma EncoderReason(heap: Heap, v: Val)
    requires forall k :: k in heap && heap[k].MapOf? ==> DistinctKeys(heap[k].entries)
    ensures (forall other :: ReorderedMaps(heap, other) ==> Walk(other, {}, v) == Walk(EncoderOrders(heap), {}, v)) <==> Settled(heap, v)
  {
    hide Walk, Settled;
    var sorted := EncoderOrders(heap);
    forall k | k in heap
      ensures Reordered(heap[k], sorted[k])
    {
      if heap[k].MapOf? && !heap[k].stringKeys {
        SortSorts(heap[k].entries);
      }
    }
    ReasonSettled(heap, v, sorted);
  }
}
