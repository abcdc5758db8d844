// The order both Go and JavaScript sort strings in, and lists kept in it.

module Orders {
  import opened Text

  // Unit by unit, a prefix first.
  predicate Less(a: seq<int>, b: seq<int>)
    decreases |a|
  {
    b != [] && (a == [] || a[0] < b[0] || (a[0] == b[0] && Less(a[1..], b[1..])))
  }

  lemma {:induction false} LessTotal(a: seq<int>, b: seq<int>)
    ensures Less(a, b) || Less(b, a) || a == b
    ensures !(Less(a, b) && Less(b, a))
    ensures !Less(a, a)
    decreases |a|
  {
    if a != [] {
      if b != [] {
        LessTotal(a[1..], b[1..]);
        assert a == [a[0]] + a[1..];
        assert b == [b[0]] + b[1..];
      }
      LessTotal(a[1..], a[1..]);
    }
  }

  lemma {:induction false} LessTransitive(a: seq<int>, b: seq<int>, c: seq<int>)
    requires Less(a, b) && Less(b, c)
    ensures Less(a, c)
    decreases |a|
  {
    if a != [] && a[0] == b[0] && b[0] == c[0] {
      LessTransitive(a[1..], b[1..], c[1..]);
    }
  }

  // Where they first part, the smaller unit comes first; where they do not, the
  // shorter one.
  lemma {:induction false} LessExactly(a: seq<int>, b: seq<int>)
    ensures Less(a, b) <==>
            exists n :: 0 <= n <= |a| && n < |b| && a[..n] == b[..n] && (n == |a| || a[n] < b[n])
    decreases |a|
  {
    if a == [] {
      if b != [] {
        assert 0 <= 0 <= |a| && a[..0] == b[..0];
      }
    } else if b != [] {
      LessExactly(a[1..], b[1..]);
      if a[0] < b[0] {
        assert a[..0] == b[..0] && a[0] < b[0];
      } else if a[0] == b[0] && Less(a[1..], b[1..]) {
        var n :| 0 <= n <= |a[1..]| && n < |b[1..]| && a[1..][..n] == b[1..][..n] && (n == |a[1..]| || a[1..][n] < b[1..][n]);
        assert a[..n + 1] == [a[0]] + a[1..][..n] && b[..n + 1] == [b[0]] + b[1..][..n];
      }
      if n :| 0 <= n <= |a| && n < |b| && a[..n] == b[..n] && (n == |a| || a[n] < b[n]) {
        if n > 0 {
          assert a[..n][0] == a[0] && b[..n][0] == b[0];
          assert a[1..][..n - 1] == a[..n][1..] && b[1..][..n - 1] == b[..n][1..];
          assert 0 <= n - 1 <= |a[1..]|;
        }
      }
    }
  }

  function Elements<T>(list: seq<T>): set<T> {
    set x | x in list
  }

  // Each element below all that follow it.
  predicate Ascending(list: seq<Text>) {
    list == [] || (Ascending(list[1..]) && forall x :: x in list[1..] ==> Less(list[0], x))
  }

  // The list of a set: its elements once each, in order.
  ghost predicate Lists(list: seq<Text>, s: set<Text>) {
    Ascending(list) && forall x :: x in list <==> x in s
  }

  // A set has one list.
  lemma {:induction false} OneList(a: seq<Text>, b: seq<Text>, s: set<Text>)
    requires Lists(a, s) && Lists(b, s)
    ensures a == b
  {
    assert b != [] ==> b[0] in a;
    if a != [] {
      assert a[0] in s && a[0] in b;
      assert b[0] in s && b[0] in a;
      assert a == [a[0]] + a[1..];
      assert b == [b[0]] + b[1..];
      LessTotal(a[0], b[0]);
      assert a[0] == b[0];
      LessTotal(a[0], a[0]);
      assert forall x :: x in a[1..] <==> x in s - {a[0]};
      assert forall x :: x in b[1..] <==> x in s - {a[0]};
      OneList(a[1..], b[1..], s - {a[0]});
    }
  }

  function Insert(x: Text, list: seq<Text>): seq<Text> {
    if list == [] || Less(x, list[0]) then [x] + list
    else if x == list[0] then list
    else [list[0]] + Insert(x, list[1..])
  }

  lemma {:induction false} InsertLists(x: Text, list: seq<Text>, s: set<Text>)
    requires Lists(list, s)
    ensures Lists(Insert(x, list), s + {x})
  {
    if list != [] {
      var first := list[0];
      assert list == [first] + list[1..];
      LessTotal(x, first);
      LessTotal(first, first);
      if Less(x, first) {
        assert ([x] + list)[1..] == list;
        forall y | y in list
          ensures Less(x, y)
        {
          if y != first {
            LessTransitive(x, first, y);
          }
        }
      } else if x != first {
        assert forall y :: y in list[1..] <==> y in s - {first};
        InsertLists(x, list[1..], s - {first});
        assert Insert(x, list)[1..] == Insert(x, list[1..]);
      }
    }
  }

  // The unique elements of a list, sorted.
  method Uniq(list: seq<Text>) returns (sorted: seq<Text>)
    ensures Lists(sorted, Elements(list))
  {
    sorted := [];
    ghost var seen: set<Text> := {};
    for i := 0 to |list|
      invariant seen == Elements(list[..i])
      invariant Lists(sorted, seen)
    {
      InsertLists(list[i], sorted, seen);
      sorted := Insert(list[i], sorted);
      assert list[..i + 1] == list[..i] + [list[i]];
      seen := seen + {list[i]};
    }
    assert list[..|list|] == list;
  }

  // The elements of a set, sorted.
  method InOrder(s: set<Text>) returns (sorted: seq<Text>)
    ensures Lists(sorted, s)
  {
    sorted := [];
    var left := s;
    while left != {}
      invariant left <= s && Lists(sorted, s - left)
      decreases |left|
    {
      var x :| x in left;
      InsertLists(x, sorted, s - left);
      sorted := Insert(x, sorted);
      assert s - left + {x} == s - (left - {x});
      left := left - {x};
    }
  }
}
