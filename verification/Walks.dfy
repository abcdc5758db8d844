// What jsonUnsafe answers, as a function and against the unfolding of the
// value: which spot is reported, and when nothing is.

module Walks {
  import opened GoValues

  datatype Reason = NoReason | BadUtf8 | BigNumber | Cycle

  function Leaf(v: Val): Reason {
    match v
    case Raw(bytes) => if ValidUtf8(bytes) then NoReason else BadUtf8
    case Str(bytes) => if ValidUtf8(bytes) then NoReason else BadUtf8
    case Big => BigNumber
    case _ => NoReason
  }

  function Below(heap: Heap, path: set<PathKey>, v: Val): set<PathKey> {
    if OnPathKind(heap, v) then path + {v.key} else path
  }

  // The walk, as a function of the containers on the path.
  function Walk(heap: Heap, path: set<PathKey>, v: Val): Reason
    decreases |heap.Keys - path|, Size(v), 0
  {
    if Leaf(v) != NoReason then Leaf(v)
    else if OnPathKind(heap, v) then
      if v.key in path then Cycle
      else
        CardinalShrinks(heap.Keys, path, v.key);
        WalkItems(heap, path + {v.key}, Items(heap, v))
    else if v.Ref? then NoReason
    else
      InlineSmaller(heap, v);
      WalkItems(heap, path, Items(heap, v))
  }

  function WalkItems(heap: Heap, path: set<PathKey>, items: seq<Item>): Reason
    decreases |heap.Keys - path|, SizeItems(items), 1
  {
    if items == [] then NoReason
    else
      var first := match items[0]
                   case KeyItem(bytes) => if ValidUtf8(bytes) then NoReason else BadUtf8
                   case SubItem(v) => Walk(heap, path, v);
      if first != NoReason then first else WalkItems(heap, path, items[1..])
  }

  // The unfolding. A spot in it is a list of positions from the root.
  type Spot = seq<nat>

  datatype Found = Nothing | FoundKey(bytes: Bytes) | FoundVal(v: Val, above: set<PathKey>)

  // What stands at a spot, and the containers above it.
  function At(heap: Heap, above: set<PathKey>, v: Val, p: Spot): Found
    decreases |p|
  {
    if p == [] then FoundVal(v, above)
    else if p[0] >= |Items(heap, v)| then Nothing
    else match Items(heap, v)[p[0]]
      case KeyItem(bytes) => if |p| == 1 then FoundKey(bytes) else Nothing
      case SubItem(w) => At(heap, Below(heap, above, v), w, p[1..])
  }

  // What is wrong at a spot, if anything.
  function Offence(heap: Heap, above: set<PathKey>, v: Val, p: Spot): Reason {
    match At(heap, above, v, p)
    case Nothing => NoReason
    case FoundKey(bytes) => if ValidUtf8(bytes) then NoReason else BadUtf8
    case FoundVal(w, path) =>
      if Leaf(w) != NoReason then Leaf(w)
      else if OnPathKind(heap, w) && w.key in path then Cycle
      else NoReason
  }

  // The encoder's order of spots: a container before what it holds, and
  // earlier parts before later ones.
  predicate Before(p: Spot, q: Spot)
    decreases |p|
  {
    q != [] && (p == [] || p[0] < q[0] || (p[0] == q[0] && Before(p[1..], q[1..])))
  }

  ghost predicate FirstOffence(heap: Heap, above: set<PathKey>, v: Val, p: Spot, why: Reason) {
    && Offence(heap, above, v, p) == why
    && forall q: Spot :: Before(q, p) ==> Offence(heap, above, v, q) == NoReason
  }

  ghost predicate NoOffence(heap: Heap, above: set<PathKey>, v: Val) {
    forall q: Spot :: Offence(heap, above, v, q) == NoReason
  }

  // One item's walk is its value's, or its key's check.
  function WalkItem(heap: Heap, path: set<PathKey>, item: Item): Reason {
    match item
    case KeyItem(bytes) => if ValidUtf8(bytes) then NoReason else BadUtf8
    case SubItem(v) => Walk(heap, path, v)
  }

  // The root is checked first; then what it holds, in order.
  lemma WalkStep(heap: Heap, path: set<PathKey>, v: Val)
    ensures Walk(heap, path, v) ==
            if Offence(heap, path, v, []) != NoReason then Offence(heap, path, v, [])
            else WalkItems(heap, Below(heap, path, v), Items(heap, v))
  {
    if v.Ref? && !OnPathKind(heap, v) {
      assert Items(heap, v) == [];
    }
  }

  lemma {:induction false} WalkItemsFirst(heap: Heap, path: set<PathKey>, items: seq<Item>) returns (i: nat)
    ensures i <= |items|
    ensures forall j :: 0 <= j < i ==> WalkItem(heap, path, items[j]) == NoReason
    ensures WalkItems(heap, path, items) == if i < |items| then WalkItem(heap, path, items[i]) else NoReason
    ensures i < |items| ==> WalkItem(heap, path, items[i]) != NoReason
  {
    if items == [] || WalkItem(heap, path, items[0]) != NoReason {
      i := 0;
    } else {
      i := WalkItemsFirst(heap, path, items[1..]);
      assert forall j :: 1 <= j < |items| ==> items[j] == items[1..][j - 1];
      i := i + 1;
    }
  }

  // Below the root an offence is the item's.
  function ItemOffence(heap: Heap, path: set<PathKey>, item: Item, q: Spot): Reason {
    match item
    case KeyItem(bytes) => if q == [] && !ValidUtf8(bytes) then BadUtf8 else NoReason
    case SubItem(w) => Offence(heap, path, w, q)
  }

  lemma OffenceInside(heap: Heap, path: set<PathKey>, v: Val, q: Spot)
    requires q != []
    ensures Offence(heap, path, v, q) ==
            if q[0] >= |Items(heap, v)| then NoReason
            else ItemOffence(heap, Below(heap, path, v), Items(heap, v)[q[0]], q[1..])
  {
  }

  // A walk that reports nothing passes over every spot.
  lemma {:induction false} WalkQuiet(heap: Heap, path: set<PathKey>, v: Val, q: Spot)
    requires Walk(heap, path, v) == NoReason
    ensures Offence(heap, path, v, q) == NoReason
    decreases |q|, 0
  {
    hide Walk, Offence, Items, Below;
    WalkStep(heap, path, v);
    if q != [] {
      var below, items := Below(heap, path, v), Items(heap, v);
      OffenceInside(heap, path, v, q);
      var i := WalkItemsFirst(heap, below, items);
      if q[0] < |items| {
        ItemQuiet(heap, below, items[q[0]], q[1..]);
      }
    }
  }

  lemma {:induction false} ItemQuiet(heap: Heap, path: set<PathKey>, item: Item, q: Spot)
    requires WalkItem(heap, path, item) == NoReason
    ensures ItemOffence(heap, path, item, q) == NoReason
    decreases |q|, 1
  {
    hide Walk, Offence;
    if item.SubItem? {
      WalkQuiet(heap, path, item.v, q);
    }
  }

  lemma {:induction false} SizeAt(items: seq<Item>, i: nat)
    requires i < |items| && items[i].SubItem?
    ensures Size(items[i].v) < SizeItems(items)
  {
    if i > 0 {
      SizeAt(items[1..], i - 1);
    }
  }

  lemma NotOnPath(heap: Heap, path: set<PathKey>, v: Val)
    requires Offence(heap, path, v, []) != Cycle
    ensures OnPathKind(heap, v) ==> v.key !in path
  {
  }

  // What ends the walk: fewer containers off the path, or less inline.
  lemma Smaller(heap: Heap, path: set<PathKey>, v: Val, i: nat)
    requires OnPathKind(heap, v) ==> v.key !in path
    requires i < |Items(heap, v)| && Items(heap, v)[i].SubItem?
    ensures
      var below, w := Below(heap, path, v), Items(heap, v)[i].v;
      |heap.Keys - below| < |heap.Keys - path| || (below == path && Size(w) < Size(v))
  {
    if OnPathKind(heap, v) {
      CardinalShrinks(heap.Keys, path, v.key);
    } else if !v.Ref? {
      InlineSmaller(heap, v);
      SizeAt(Items(heap, v), i);
    }
  }

  // The walk's reason is that of the first spot, in encoder order, that has one.
  lemma {:induction false} WalkReports(heap: Heap, path: set<PathKey>, v: Val) returns (p: Spot)
    requires Walk(heap, path, v) != NoReason
    ensures FirstOffence(heap, path, v, p, Walk(heap, path, v))
    decreases |heap.Keys - path|, Size(v)
  {
    hide Walk, Offence, Items, Below;
    WalkStep(heap, path, v);
    if Offence(heap, path, v, []) != NoReason {
      p := [];
    } else {
      var below, items := Below(heap, path, v), Items(heap, v);
      var i := WalkItemsFirst(heap, below, items);
      var r := [];
      if items[i].SubItem? {
        NotOnPath(heap, path, v);
        Smaller(heap, path, v, i);
        r := WalkReports(heap, below, items[i].v);
      }
      p := [i] + r;
      FirstInside(heap, path, v, i, r);
    }
  }

  ghost predicate FirstInItem(heap: Heap, path: set<PathKey>, item: Item, r: Spot) {
    match item
    case KeyItem(_) => r == []
    case SubItem(w) => FirstOffence(heap, path, w, r, Walk(heap, path, w))
  }

  lemma ItemBefore(heap: Heap, path: set<PathKey>, item: Item, r: Spot, q: Spot)
    requires FirstInItem(heap, path, item, r) && Before(q, r)
    ensures ItemOffence(heap, path, item, q) == NoReason
  {
    hide Walk, Offence;
  }

  lemma FirstInside(heap: Heap, path: set<PathKey>, v: Val, i: nat, r: Spot)
    requires i < |Items(heap, v)| && Offence(heap, path, v, []) == NoReason
    requires forall j :: 0 <= j < i ==> WalkItem(heap, Below(heap, path, v), Items(heap, v)[j]) == NoReason
    requires WalkItem(heap, Below(heap, path, v), Items(heap, v)[i]) != NoReason
    requires FirstInItem(heap, Below(heap, path, v), Items(heap, v)[i], r)
    ensures FirstOffence(heap, path, v, [i] + r, WalkItem(heap, Below(heap, path, v), Items(heap, v)[i]))
  {
    hide Walk, Offence, Items, Below;
    var below, items := Below(heap, path, v), Items(heap, v);
    var p := [i] + r;
    assert p[1..] == r;
    OffenceInside(heap, path, v, p);
    forall q: Spot | Before(q, p)
      ensures Offence(heap, path, v, q) == NoReason
    {
      if q != [] {
        OffenceInside(heap, path, v, q);
        if q[0] < i {
          ItemQuiet(heap, below, items[q[0]], q[1..]);
        } else {
          ItemBefore(heap, below, items[i], r, q[1..]);
        }
      }
    }
  }

  // The unfolding from a value is less than n deep.
  predicate Ends(heap: Heap, v: Val, n: nat)
    decreases n
  {
    n > 0 && forall i :: 0 <= i < |Items(heap, v)| && Items(heap, v)[i].SubItem? ==> Ends(heap, Items(heap, v)[i].v, n - 1)
  }

  ghost predicate HasEnd(heap: Heap, v: Val) {
    exists n: nat :: Ends(heap, v, n)
  }

  lemma {:induction false} EndsMore(heap: Heap, v: Val, n: nat, m: nat)
    requires Ends(heap, v, n) && n <= m
    ensures Ends(heap, v, m)
    decreases n
  {
    hide Items;
    forall i | 0 <= i < |Items(heap, v)| && Items(heap, v)[i].SubItem?
      ensures Ends(heap, Items(heap, v)[i].v, m - 1)
    {
      EndsMore(heap, Items(heap, v)[i].v, n - 1, m - 1);
    }
  }

  // The same depth for all of a value's parts.
  lemma {:induction false} EndsTogether(heap: Heap, items: seq<Item>) returns (n: nat)
    requires forall i :: 0 <= i < |items| && items[i].SubItem? ==> HasEnd(heap, items[i].v)
    ensures forall i :: 0 <= i < |items| && items[i].SubItem? ==> Ends(heap, items[i].v, n)
  {
    n := 0;
    if items != [] {
      assert forall i :: 0 <= i < |items[1..]| ==> items[1..][i] == items[i + 1];
      var rest := EndsTogether(heap, items[1..]);
      n := rest;
      if items[0].SubItem? {
        var m: nat :| Ends(heap, items[0].v, m);
        n := if m > n then m else n;
        EndsMore(heap, items[0].v, m, n);
      }
      forall i | 1 <= i < |items| && items[i].SubItem?
        ensures Ends(heap, items[i].v, n)
      {
        EndsMore(heap, items[1..][i - 1].v, rest, n);
      }
    }
  }

  ghost predicate NoCycle(heap: Heap, path: set<PathKey>, v: Val) {
    forall q: Spot :: Offence(heap, path, v, q) != Cycle
  }

  lemma NoCycleInside(heap: Heap, path: set<PathKey>, v: Val, i: nat)
    requires NoCycle(heap, path, v)
    requires i < |Items(heap, v)| && Items(heap, v)[i].SubItem?
    ensures NoCycle(heap, Below(heap, path, v), Items(heap, v)[i].v)
  {
    hide Offence, Items, Below;
    forall q: Spot
      ensures Offence(heap, Below(heap, path, v), Items(heap, v)[i].v, q) != Cycle
    {
      var p := [i] + q;
      assert p[1..] == q;
      OffenceInside(heap, path, v, p);
      assert Offence(heap, path, v, p) != Cycle;
    }
  }

  // A value that never meets itself above has an end.
  lemma {:induction false} EndsUnlessCycle(heap: Heap, path: set<PathKey>, v: Val) returns (n: nat)
    requires NoCycle(heap, path, v)
    ensures Ends(heap, v, n)
    decreases |heap.Keys - path|, Size(v)
  {
    hide Offence, Items, Below, Size;
    NotOnPath(heap, path, v);
    var items := Items(heap, v);
    forall i | 0 <= i < |items| && items[i].SubItem?
      ensures HasEnd(heap, items[i].v)
    {
      NoCycleInside(heap, path, v, i);
      Smaller(heap, path, v, i);
      var m := EndsUnlessCycle(heap, Below(heap, path, v), items[i].v);
    }
    var m := EndsTogether(heap, items);
    n := m + 1;
  }

  // A value with an end meets nothing above it that has no end so near.
  lemma {:induction false} EndsFreeOfCycles(heap: Heap, path: set<PathKey>, v: Val, n: nat, q: Spot)
    requires Ends(heap, v, n)
    requires forall k :: k in path ==> !Ends(heap, Ref(k), n)
    ensures Offence(heap, path, v, q) != Cycle
    decreases n
  {
    hide Items;
    if Ends(heap, v, n - 1) {
      forall k | k in path
        ensures !Ends(heap, Ref(k), n - 1)
      {
        if Ends(heap, Ref(k), n - 1) {
          EndsMore(heap, Ref(k), n - 1, n);
        }
      }
      EndsFreeOfCycles(heap, path, v, n - 1, q);
    } else if q != [] && q[0] < |Items(heap, v)| && Items(heap, v)[q[0]].SubItem? {
      var below := Below(heap, path, v);
      forall k | k in below
        ensures !Ends(heap, Ref(k), n - 1)
      {
        if k in path && Ends(heap, Ref(k), n - 1) {
          EndsMore(heap, Ref(k), n - 1, n);
        }
      }
      EndsFreeOfCycles(heap, below, Items(heap, v)[q[0]].v, n - 1, q[1..]);
    }
  }

  // Only a value without an end is ever called a reference to itself: a part
  // that is shared but not cyclic is not.
  lemma CycleIsEndless(heap: Heap, v: Val)
    ensures NoCycle(heap, {}, v) <==> HasEnd(heap, v)
  {
    hide Offence, Ends;
    if NoCycle(heap, {}, v) {
      var n := EndsUnlessCycle(heap, {}, v);
    }
    if n: nat :| Ends(heap, v, n) {
      forall q: Spot
        ensures Offence(heap, {}, v, q) != Cycle
      {
        EndsFreeOfCycles(heap, {}, v, n, q);
      }
    }
  }

  // Every string, key and raw fragment in the unfolding is UTF-8, and no
  // number in it is big.
  ghost predicate Clean(heap: Heap, v: Val) {
    forall q: Spot :: match At(heap, {}, v, q)
      case Nothing => true
      case FoundKey(bytes) => ValidUtf8(bytes)
      case FoundVal(w, _) => Leaf(w) == NoReason
  }

  lemma OffenceKinds(heap: Heap, v: Val)
    ensures NoOffence(heap, {}, v) <==> Clean(heap, v) && NoCycle(heap, {}, v)
  {
    hide At, OnPathKind, Leaf;
    if Clean(heap, v) && NoCycle(heap, {}, v) {
      forall q: Spot
        ensures Offence(heap, {}, v, q) == NoReason
      {
        assert Offence(heap, {}, v, q) != Cycle;
      }
    }
    if NoOffence(heap, {}, v) {
      forall q: Spot
        ensures match At(heap, {}, v, q)
          case Nothing => true
          case FoundKey(bytes) => ValidUtf8(bytes)
          case FoundVal(w, _) => Leaf(w) == NoReason
      {
        assert Offence(heap, {}, v, q) == NoReason;
      }
    }
  }

  // The walk lets a value through exactly when its unfolding ends and
  // is clean.
  lemma WalkAccepts(heap: Heap, v: Val)
    ensures Walk(heap, {}, v) == NoReason <==> Clean(heap, v) && HasEnd(heap, v)
  {
    hide Walk, HasEnd, Clean, Offence, NoCycle;
    CycleIsEndless(heap, v);
    OffenceKinds(heap, v);
    if Walk(heap, {}, v) == NoReason {
      forall q: Spot
        ensures Offence(heap, {}, v, q) == NoReason
      {
        WalkQuiet(heap, {}, v, q);
      }
    } else {
      var p := WalkReports(heap, {}, v);
    }
  }
}
