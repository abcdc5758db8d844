// Go gives a map's keys in no fixed order. What the walk answers does not
// depend on it where the keys are strings, and whether it answers anything
// never does.

module MapOrder {
  import opened Orders
  import opened GoValues
  import opened Walks

  predicate DistinctKeys(entries: seq<Entry>) {
    forall i, j :: 0 <= i < j < |entries| ==> entries[i].key != entries[j].key
  }

  // Each entry below all that follow it.
  predicate InKeyOrder(entries: seq<Entry>) {
    entries == [] || (InKeyOrder(entries[1..]) && forall e :: e in entries[1..] ==> Less(entries[0].key, e.key))
  }

  lemma {:induction false} InsertSorts(e: Entry, sorted: seq<Entry>)
    requires InKeyOrder(sorted) && forall x :: x in sorted ==> x.key != e.key
    ensures InKeyOrder(InsertEntry(e, sorted))
    ensures multiset(InsertEntry(e, sorted)) == multiset([e] + sorted)
    ensures forall x :: x in InsertEntry(e, sorted) <==> x == e || x in sorted
  {
    if sorted == [] {
      assert [e] + sorted == [e];
    } else {
      var first := sorted[0];
      assert sorted == [first] + sorted[1..];
      LessTotal(first.key, e.key);
      if Less(first.key, e.key) {
        InsertSorts(e, sorted[1..]);
        assert InsertEntry(e, sorted)[1..] == InsertEntry(e, sorted[1..]);
      } else {
        assert ([e] + sorted)[1..] == sorted;
        forall x | x in sorted
          ensures Less(e.key, x.key)
        {
          if x != first {
            LessTransitive(e.key, first.key, x.key);
          }
        }
      }
    }
  }

  // Sorting puts distinct keys in order and loses nothing.
  lemma {:induction false} SortSorts(entries: seq<Entry>)
    requires DistinctKeys(entries)
    ensures InKeyOrder(SortEntries(entries)) && multiset(SortEntries(entries)) == multiset(entries)
    ensures forall x :: x in SortEntries(entries) <==> x in entries
  {
    if entries != [] {
      SortSorts(entries[1..]);
      assert entries == [entries[0]] + entries[1..];
      InsertSorts(entries[0], SortEntries(entries[1..]));
    }
  }

  lemma {:induction false} OrderIsUnique(a: seq<Entry>, b: seq<Entry>)
    requires InKeyOrder(a) && InKeyOrder(b) && multiset(a) == multiset(b)
    ensures a == b
  {
    if a == [] || b == [] {
      assert |multiset(a)| == |multiset(b)|;
    } else {
      assert a == [a[0]] + a[1..];
      assert b == [b[0]] + b[1..];
      assert a[0] in multiset(b) && b[0] in multiset(a);
      LessTotal(a[0].key, b[0].key);
      assert a[0] == b[0];
      assert multiset(a[1..]) == multiset(a) - multiset{a[0]};
      assert multiset(b[1..]) == multiset(b) - multiset{b[0]};
      OrderIsUnique(a[1..], b[1..]);
    }
  }

  // Any order of the same entries sorts to the same sequence.
  lemma SortForgetsOrder(a: seq<Entry>, b: seq<Entry>)
    requires DistinctKeys(a) && DistinctKeys(b) && multiset(a) == multiset(b)
    ensures SortEntries(a) == SortEntries(b)
  {
    SortSorts(a);
    SortSorts(b);
    OrderIsUnique(SortEntries(a), SortEntries(b));
  }

  // The same containers, but for the order in which maps give their entries.
  ghost predicate Reordered(c: Content, d: Content) {
    || c == d
    || (&& c.MapOf? && d.MapOf? && c.stringKeys == d.stringKeys && multiset(c.entries) == multiset(d.entries)
        && (c.stringKeys ==> DistinctKeys(c.entries) && DistinctKeys(d.entries)))
  }

  ghost predicate ReorderedMaps(heap: Heap, other: Heap) {
    heap.Keys == other.Keys && forall k :: k in heap ==> Reordered(heap[k], other[k])
  }

  ghost predicate OnlyStringKeys(heap: Heap) {
    forall k :: k in heap && heap[k].MapOf? ==> heap[k].stringKeys
  }

  lemma SameItems(heap: Heap, other: Heap, v: Val)
    requires ReorderedMaps(heap, other) && OnlyStringKeys(heap)
    ensures Items(heap, v) == Items(other, v) && OnPathKind(heap, v) == OnPathKind(other, v)
  {
    hide SortEntries, EntryItems, ElemItems, FieldItems, OrderedItems;
    if v.Ref? && v.key in heap && heap[v.key] != other[v.key] {
      SortForgetsOrder(heap[v.key].entries, other[v.key].entries);
    }
  }

  // With string keys only, the reason is the same whatever the order.
  lemma {:induction false} ReasonIgnoresOrder(heap: Heap, other: Heap, path: set<PathKey>, v: Val)
    requires ReorderedMaps(heap, other) && OnlyStringKeys(heap)
    ensures Walk(heap, path, v) == Walk(other, path, v)
    decreases |heap.Keys - path|, Size(v), 0
  {
    hide Items, OnPathKind;
    SameItems(heap, other, v);
    if OnPathKind(heap, v) {
      assert v.key in heap by { OnPathIsRef(heap, v); }
      if v.key !in path {
        CardinalShrinks(heap.Keys, path, v.key);
        ItemsIgnoreOrder(heap, other, path + {v.key}, Items(heap, v));
      }
    } else if !v.Ref? {
      InlineSmaller(heap, v);
      ItemsIgnoreOrder(heap, other, path, Items(heap, v));
    }
  }

  lemma OnPathIsRef(heap: Heap, v: Val)
    requires OnPathKind(heap, v)
    ensures v.Ref? && v.key in heap
  {
  }

  lemma {:induction false} ItemsIgnoreOrder(heap: Heap, other: Heap, path: set<PathKey>, items: seq<Item>)
    requires ReorderedMaps(heap, other) && OnlyStringKeys(heap)
    ensures WalkItems(heap, path, items) == WalkItems(other, path, items)
    decreases |heap.Keys - path|, SizeItems(items), 1
  {
    hide Walk;
    if items != [] {
      if items[0].SubItem? {
        ReasonIgnoresOrder(heap, other, path, items[0].v);
      }
      ItemsIgnoreOrder(heap, other, path, items[1..]);
    }
  }

  lemma {:induction false} EntryMembers(stringKeys: bool, entries: seq<Entry>, item: Item)
    ensures item in EntryItems(stringKeys, entries) <==>
            exists e :: e in entries && (item == SubItem(e.v) || (stringKeys && item == KeyItem(e.key)))
  {
    if entries != [] {
      EntryMembers(stringKeys, entries[1..], item);
      assert forall e :: e in entries <==> e == entries[0] || e in entries[1..];
    }
  }

  lemma SameEntryMembers(stringKeys: bool, a: seq<Entry>, b: seq<Entry>, item: Item)
    requires multiset(a) == multiset(b)
    ensures item in EntryItems(stringKeys, a) <==> item in EntryItems(stringKeys, b)
  {
    EntryMembers(stringKeys, a, item);
    EntryMembers(stringKeys, b, item);
    assert forall e :: e in a <==> e in multiset(a);
    assert forall e :: e in b <==> e in multiset(b);
  }

  lemma SameMembers(heap: Heap, other: Heap, v: Val, item: Item)
    requires ReorderedMaps(heap, other)
    ensures item in Items(heap, v) <==> item in Items(other, v)
  {
    hide SortEntries, EntryItems, ElemItems, FieldItems, OrderedItems;
    if v.Ref? && v.key in heap && heap[v.key] != other[v.key] {
      var a, b := heap[v.key].entries, other[v.key].entries;
      if heap[v.key].stringKeys {
        SortForgetsOrder(a, b);
      } else {
        SameEntryMembers(false, a, b, item);
      }
    }
  }

  lemma {:induction false} QuietItems(heap: Heap, path: set<PathKey>, items: seq<Item>)
    ensures WalkItems(heap, path, items) == NoReason <==>
            forall i :: 0 <= i < |items| ==> WalkItem(heap, path, items[i]) == NoReason
  {
    hide Walk;
    var i := WalkItemsFirst(heap, path, items);
  }

  // Whether a value is let through never depends on the order.
  lemma {:induction false} AcceptanceIgnoresOrder(heap: Heap, other: Heap, path: set<PathKey>, v: Val)
    requires ReorderedMaps(heap, other)
    requires Walk(heap, path, v) == NoReason
    ensures Walk(other, path, v) == NoReason
    decreases |heap.Keys - path|, Size(v)
  {
    hide Walk, Items;
    WalkStep(heap, path, v);
    WalkStep(other, path, v);
    var below, items, those := Below(heap, path, v), Items(heap, v), Items(other, v);
    QuietItems(heap, below, items);
    QuietItems(other, below, those);
    forall i | 0 <= i < |those|
      ensures WalkItem(other, below, those[i]) == NoReason
    {
      SameMembers(heap, other, v, those[i]);
      assert those[i] in items;
      var j :| 0 <= j < |items| && items[j] == those[i];
      assert WalkItem(heap, below, items[j]) == NoReason;
      if items[j].SubItem? {
        Smaller(heap, path, v, j);
        AcceptanceIgnoresOrder(heap, other, below, items[j].v);
      }
    }
  }

  // --- One map with other keys ---

  function WithOrder(heap: Heap, k: PathKey, entries: seq<Entry>): Heap {
    heap[k := MapOf(false, entries)]
  }

  ghost predicate OtherKeys(heap: Heap, k: PathKey) {
    k in heap && heap[k].MapOf? && !heap[k].stringKeys
  }

  // With the map itself on the path, its entries are not read.
  lemma {:induction false} OrderUnread(heap: Heap, k: PathKey, entries: seq<Entry>, path: set<PathKey>, v: Val)
    requires OtherKeys(heap, k) && k in path
    ensures Walk(WithOrder(heap, k, entries), path, v) == Walk(heap, path, v)
    decreases |heap.Keys - path|, Size(v), 0
  {
    var other := WithOrder(heap, k, entries);
    assert other.Keys == heap.Keys;
    if v != Ref(k) {
      assert Items(other, v) == Items(heap, v) && OnPathKind(other, v) == OnPathKind(heap, v);
      hide Items;
      if OnPathKind(heap, v) {
        if v.key !in path {
          CardinalShrinks(heap.Keys, path, v.key);
          OrderUnreadItems(heap, k, entries, path + {v.key}, Items(heap, v));
        }
      } else if !v.Ref? {
        InlineSmaller(heap, v);
        OrderUnreadItems(heap, k, entries, path, Items(heap, v));
      }
    }
  }

  lemma {:induction false} OrderUnreadItems(heap: Heap, k: PathKey, entries: seq<Entry>, path: set<PathKey>, items: seq<Item>)
    requires OtherKeys(heap, k) && k in path
    ensures WalkItems(WithOrder(heap, k, entries), path, items) == WalkItems(heap, path, items)
    decreases |heap.Keys - path|, SizeItems(items), 1
  {
    hide Walk;
    if items != [] {
      if items[0].SubItem? {
        OrderUnread(heap, k, entries, path, items[0].v);
      }
      OrderUnreadItems(heap, k, entries, path, items[1..]);
    }
  }

  // The reason of the first entry, as given, that has one.
  function FirstReason(heap: Heap, path: set<PathKey>, entries: seq<Entry>): Reason {
    if entries == [] then NoReason
    else
      var first := Walk(heap, path, entries[0].v);
      if first != NoReason then first else FirstReason(heap, path, entries[1..])
  }

  lemma {:induction false} EntriesWalked(heap: Heap, path: set<PathKey>, entries: seq<Entry>)
    ensures WalkItems(heap, path, EntryItems(false, entries)) == FirstReason(heap, path, entries)
  {
    hide Walk;
    if entries != [] {
      EntriesWalked(heap, path, entries[1..]);
      assert EntryItems(false, entries) == [SubItem(entries[0].v)] + EntryItems(false, entries[1..]);
      assert EntryItems(false, entries)[1..] == EntryItems(false, entries[1..]);
    }
  }

  // The walk of the map, in any order of its entries.
  lemma OrderWalked(heap: Heap, k: PathKey, path: set<PathKey>, entries: seq<Entry>)
    requires OtherKeys(heap, k) && k !in path
    ensures Walk(WithOrder(heap, k, entries), path, Ref(k)) == FirstReason(heap, path + {k}, entries)
  {
    var other := WithOrder(heap, k, entries);
    var items := EntryItems(false, entries);
    assert Items(other, Ref(k)) == items;
    assert other.Keys == heap.Keys;
    CardinalShrinks(other.Keys, path, k);
    assert Walk(other, path, Ref(k)) == WalkItems(other, path + {k}, items);
    OrderUnreadItems(heap, k, entries, path + {k}, items);
    EntriesWalked(heap, path + {k}, entries);
  }

  // All entries that have a reason have the same one.
  ghost predicate OneReason(heap: Heap, path: set<PathKey>, entries: seq<Entry>) {
    forall e, f :: e in entries && f in entries && Walk(heap, path, e.v) != NoReason && Walk(heap, path, f.v) != NoReason ==>
      Walk(heap, path, e.v) == Walk(heap, path, f.v)
  }

  lemma {:induction false} FirstIsOne(heap: Heap, path: set<PathKey>, entries: seq<Entry>) returns (e: Entry)
    requires FirstReason(heap, path, entries) != NoReason
    ensures e in entries && Walk(heap, path, e.v) == FirstReason(heap, path, entries)
  {
    hide Walk;
    e := entries[0];
    if Walk(heap, path, e.v) == NoReason {
      e := FirstIsOne(heap, path, entries[1..]);
    }
  }

  lemma {:induction false} NoneIsNone(heap: Heap, path: set<PathKey>, entries: seq<Entry>)
    ensures FirstReason(heap, path, entries) == NoReason <==> forall e :: e in entries ==> Walk(heap, path, e.v) == NoReason
  {
    hide Walk;
    if entries != [] {
      NoneIsNone(heap, path, entries[1..]);
      assert entries == [entries[0]] + entries[1..];
    }
  }

  lemma SameFirst(heap: Heap, path: set<PathKey>, a: seq<Entry>, b: seq<Entry>)
    requires multiset(a) == multiset(b) && OneReason(heap, path, a)
    ensures FirstReason(heap, path, a) == FirstReason(heap, path, b)
  {
    hide Walk;
    SameMembersOf(a, b);
    NoneIsNone(heap, path, a);
    NoneIsNone(heap, path, b);
    if FirstReason(heap, path, a) != NoReason {
      var e := FirstIsOne(heap, path, a);
      var f := FirstIsOne(heap, path, b);
    }
  }

  lemma SameMembersOf(a: seq<Entry>, b: seq<Entry>)
    requires multiset(a) == multiset(b)
    ensures forall e :: e in a <==> e in b
  {
    assert forall e :: e in a <==> e in multiset(a);
    assert forall e :: e in b <==> e in multiset(b);
  }

  // Any entry can come first.
  lemma ToFront(entries: seq<Entry>, e: Entry) returns (front: seq<Entry>)
    requires e in entries
    ensures front != [] && front[0] == e && multiset(front) == multiset(entries)
  {
    var i :| 0 <= i < |entries| && entries[i] == e;
    front := [e] + (entries[..i] + entries[i + 1..]);
    assert entries == entries[..i] + [e] + entries[i + 1..];
  }

  // The exact condition: the reason for a map whose keys are not strings does
  // not depend on the order of its entries exactly when all the entries that
  // have a reason, with the map on the path, have the same one.
  lemma OtherKeysExactly(heap: Heap, k: PathKey, path: set<PathKey>)
    requires OtherKeys(heap, k) && k !in path
    ensures
      (forall b :: multiset(b) == multiset(heap[k].entries) ==>
         Walk(WithOrder(heap, k, b), path, Ref(k)) == Walk(heap, path, Ref(k))) <==>
      OneReason(heap, path + {k}, heap[k].entries)
  {
    hide Walk, FirstReason;
    var entries := heap[k].entries;
    assert WithOrder(heap, k, entries) == heap;
    OrderWalked(heap, k, path, entries);
    if OneReason(heap, path + {k}, entries) {
      forall b | multiset(b) == multiset(entries)
        ensures Walk(WithOrder(heap, k, b), path, Ref(k)) == Walk(heap, path, Ref(k))
      {
        OrderWalked(heap, k, path, b);
        SameFirst(heap, path + {k}, entries, b);
      }
    } else {
      var e, f :| e in entries && f in entries && Walk(heap, path + {k}, e.v) != NoReason
                  && Walk(heap, path + {k}, f.v) != NoReason && Walk(heap, path + {k}, e.v) != Walk(heap, path + {k}, f.v);
      var a := ToFront(entries, e);
      var b := ToFront(entries, f);
      OrderWalked(heap, k, path, a);
      OrderWalked(heap, k, path, b);
      FrontDecides(heap, path + {k}, a);
      FrontDecides(heap, path + {k}, b);
    }
  }

  lemma FrontDecides(heap: Heap, path: set<PathKey>, entries: seq<Entry>)
    requires entries != [] && Walk(heap, path, entries[0].v) != NoReason
    ensures FirstReason(heap, path, entries) == Walk(heap, path, entries[0].v)
  {
    hide Walk;
  }

  // The encoder sorts such a map too, by the texts of its keys. Whatever order
  // Go gives, the reason reported is that of the encoder's own order exactly
  // under the same condition.
  lemma EncoderOrder(heap: Heap, k: PathKey, path: set<PathKey>)
    requires OtherKeys(heap, k) && k !in path && DistinctKeys(heap[k].entries)
    ensures
      (forall b :: multiset(b) == multiset(heap[k].entries) ==>
         Walk(WithOrder(heap, k, b), path, Ref(k)) == Walk(WithOrder(heap, k, SortEntries(heap[k].entries)), path, Ref(k))) <==>
      OneReason(heap, path + {k}, heap[k].entries)
  {
    hide Walk, OneReason, SortEntries;
    var entries := heap[k].entries;
    assert WithOrder(heap, k, entries) == heap;
    SortSorts(entries);
    OtherKeysExactly(heap, k, path);
  }

  lemma FirstEntryFirst(k: PathKey, a: Entry, b: Entry)
    requires Leaf(a.v) != NoReason
    ensures Walk(map[k := MapOf(false, [a, b])], {}, Ref(k)) == Leaf(a.v)
  {
    var heap := map[k := MapOf(false, [a, b])];
    assert EntryItems(false, [a, b]) == [SubItem(a.v)] + EntryItems(false, [a, b][1..]);
    assert Items(heap, Ref(k))[0] == SubItem(a.v);
    WalkStep(heap, {}, Ref(k));
  }

  // With other keys the reason can depend on it: the entries are walked in
  // the order they are given.
  lemma OtherKeysKeepTheOrder()
    ensures
      var k := PathKey(1, 0, 0);
      var bad, big := Entry([], Str([0xFF])), Entry([], Big);
      var heap, other := map[k := MapOf(false, [bad, big])], map[k := MapOf(false, [big, bad])];
      && ReorderedMaps(heap, other)
      && Walk(heap, {}, Ref(k)) == BadUtf8
      && Walk(other, {}, Ref(k)) == BigNumber
  {
    hide Walk;
    var k := PathKey(1, 0, 0);
    var bad, big := Entry([], Str([0xFF])), Entry([], Big);
    var one: seq<Entry>, two: seq<Entry> := [bad, big], [big, bad];
    assert multiset(one) == multiset(two);
    FirstEntryFirst(k, bad, big);
    FirstEntryFirst(k, big, bad);
  }
}
