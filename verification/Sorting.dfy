/** Sorting by a strict total order: what ORDER BY and sort.Slice guarantee, and that it pins the result down. */
module Sorting {
  import opened Text

  ghost predicate StrictTotalOrder<T(!new)>(less: (T, T) -> bool) {
    && (forall x :: !less(x, x))
    && (forall x, y, z :: less(x, y) && less(y, z) ==> less(x, z))
    && (forall x, y :: less(x, y) || less(y, x) || x == y)
  }

  ghost predicate Ascending<T>(s: seq<T>, less: (T, T) -> bool) {
    forall i, j :: 0 <= i < j < |s| ==> less(s[i], s[j])
  }

  ghost function Elements<T>(s: seq<T>): set<T> {
    set x | x in s
  }

  /** `s` lists the elements of `elements` in order, each once. */
  ghost predicate IsSorting<T>(s: seq<T>, elements: set<T>, less: (T, T) -> bool) {
    Ascending(s, less) && Elements(s) == elements
  }

  ghost predicate IsLeast<T>(least: T, elements: set<T>, less: (T, T) -> bool) {
    least in elements && forall x :: x in elements && x != least ==> less(least, x)
  }

  lemma {:induction false} LeastExists<T(!new)>(elements: set<T>, less: (T, T) -> bool)
    requires StrictTotalOrder(less) && elements != {}
    ensures exists least :: IsLeast(least, elements, less)
    decreases |elements|
  {
    var x :| x in elements;
    var rest := elements - {x};
    if rest == {} {
      assert forall y :: y in elements && y != x ==> y in rest;
      assert IsLeast(x, elements, less);
    } else {
      LeastExists(rest, less);
      var m :| IsLeast(m, rest, less);
      var least := if less(x, m) then x else m;
      forall y | y in elements && y != least ensures less(least, y) {
        assert y == x || y in rest;
      }
      assert IsLeast(least, elements, less);
    }
  }

  /** The rows of `elements` in ORDER BY order. */
  ghost function SortSet<T(!new)>(elements: set<T>, less: (T, T) -> bool): (s: seq<T>)
    requires StrictTotalOrder(less)
    ensures IsSorting(s, elements, less)
    ensures |s| == |elements|
    decreases |elements|
  {
    if elements == {} then []
    else
      LeastExists(elements, less);
      var least :| IsLeast(least, elements, less);
      var tail := SortSet(elements - {least}, less);
      assert forall x :: x in tail <==> x in Elements(tail);
      [least] + tail
  }

  /** A set has only one sorting. */
  lemma {:induction false} SortingUnique<T>(a: seq<T>, b: seq<T>, less: (T, T) -> bool)
    requires Ascending(a, less) && Ascending(b, less) && Elements(a) == Elements(b)
    requires forall x, y | x in a && y in a :: !(less(x, y) && less(y, x))
    ensures a == b
  {
    assert forall x :: x in a <==> x in Elements(a);
    assert forall x :: x in b <==> x in Elements(b);
    assert b != [] ==> b[0] in a;
    if a != [] {
      assert a[0] in b && b[0] in a;
      assert a[0] == b[0];
      var first := a[0];
      forall x ensures x in a[1..] <==> x in b[1..] {
        assert x in a[1..] <==> x in a && x != first by { NotRepeated(a, less); }
        assert x in b[1..] <==> x in b && x != first by { NotRepeated(b, less); }
      }
      assert Elements(a[1..]) == Elements(b[1..]);
      SortingUnique(a[1..], b[1..], less);
      assert a == [first] + a[1..] && b == [first] + b[1..];
    }
  }

  lemma NotRepeated<T>(a: seq<T>, less: (T, T) -> bool)
    requires a != [] && Ascending(a, less)
    requires forall x, y | x in a && y in a :: !(less(x, y) && less(y, x))
    ensures a[0] !in a[1..]
    ensures forall x :: x in a <==> x == a[0] || x in a[1..]
  {
    assert a == [a[0]] + a[1..];
    forall j | 0 <= j < |a| - 1 ensures a[1..][j] != a[0] {
      assert less(a[0], a[j + 1]);
    }
  }

  lemma {:induction false} SortingSize<T>(s: seq<T>, elements: set<T>, less: (T, T) -> bool)
    requires IsSorting(s, elements, less)
    requires forall x, y | x in s && y in s :: !(less(x, y) && less(y, x))
    ensures |s| == |elements|
  {
    assert forall x :: x in s <==> x in Elements(s);
    if s != [] {
      NotRepeated(s, less);
      assert forall x :: x in s[1..] <==> x in Elements(s[1..]);
      assert Elements(s[1..]) == elements - {s[0]};
      SortingSize(s[1..], elements - {s[0]}, less);
    } else {
      assert elements == {};
    }
  }

  /** Sorted lists join when all of the first comes before all of the second. */
  lemma ConcatSorting<T>(a: seq<T>, b: seq<T>, setA: set<T>, setB: set<T>, less: (T, T) -> bool)
    requires IsSorting(a, setA, less) && IsSorting(b, setB, less)
    requires forall x, y :: x in setA && y in setB ==> less(x, y)
    ensures IsSorting(a + b, setA + setB, less)
  {
    var all := a + b;
    assert forall x :: x in a <==> x in Elements(a);
    assert forall x :: x in b <==> x in Elements(b);
    forall i, j | 0 <= i < j < |all| ensures less(all[i], all[j]) {
      if i < |a| <= j {
        assert all[i] == a[i] && all[j] == b[j - |a|] && a[i] in setA && b[j - |a|] in setB;
      } else if |a| <= i {
        assert less(b[i - |a|], b[j - |a|]);
      } else {
        assert less(a[i], a[j]);
      }
    }
    assert forall x :: x in all <==> x in a || x in b;
  }

  lemma NotBothWays<T(!new)>(less: (T, T) -> bool, x: T, y: T)
    requires StrictTotalOrder(less)
    ensures !(less(x, y) && less(y, x))
  {
    assert !less(x, x);
  }

  /** What follows position `n` of a sorted list is the sorted list of what is greater than the item before it. */
  lemma TailSorting<T(!new)>(s: seq<T>, elements: set<T>, less: (T, T) -> bool, n: nat)
    requires StrictTotalOrder(less) && IsSorting(s, elements, less) && 0 < n <= |s|
    ensures IsSorting(s[n..], (set k | k in elements && less(s[n - 1], k)), less)
  {
    var tail, greater := s[n..], set k | k in elements && less(s[n - 1], k);
    assert forall x :: x in s <==> x in Elements(s);
    forall x ensures x in tail <==> x in greater {
      if x in tail {
        var i :| 0 <= i < |tail| && tail[i] == x;
        assert s[n + i] == x && less(s[n - 1], s[n + i]);
      }
      if x in greater {
        NotBothWays(less, x, s[n - 1]);
        assert forall j :: 0 <= j < n - 1 ==> less(s[j], s[n - 1]);
        var i :| 0 <= i < |s| && s[i] == x;
        assert tail[i - n] == x;
      }
    }
    assert forall i, j :: 0 <= i < j < |tail| ==> tail[i] == s[n + i] && tail[j] == s[n + j];
  }

  function Reversed<T>(s: seq<T>): seq<T> {
    seq(|s|, i requires 0 <= i < |s| => s[|s| - 1 - i])
  }

  lemma ReversedSorting<T>(s: seq<T>, elements: set<T>, less: (T, T) -> bool, greater: (T, T) -> bool)
    requires IsSorting(s, elements, less)
    requires forall x, y :: x in elements && y in elements ==> (greater(x, y) <==> less(y, x))
    ensures IsSorting(Reversed(s), elements, greater)
  {
    var t := Reversed(s);
    assert forall x :: x in s <==> x in Elements(s);
    forall i, j | 0 <= i < j < |t| ensures greater(t[i], t[j]) {
      var a, b := |s| - 1 - j, |s| - 1 - i;
      assert t[i] == s[b] && t[j] == s[a] && less(s[a], s[b]) && s[a] in elements && s[b] in elements;
    }
    forall x ensures x in t <==> x in s {
      if x in s {
        var i :| 0 <= i < |s| && s[i] == x;
        assert t[|s| - 1 - i] == x;
      }
    }
  }

  /** sort.Slice on distinct items. */
  method SortItems<T(!new, ==)>(items: seq<T>, less: (T, T) -> bool) returns (sorted: seq<T>)
    requires forall x, y, z :: less(x, y) && less(y, z) ==> less(x, z)
    requires forall x, y :: x in items && y in items && x != y ==> less(x, y) || less(y, x)
    requires forall i, j :: 0 <= i < j < |items| ==> items[i] != items[j]
    ensures IsSorting(sorted, Elements(items), less)
    ensures |sorted| == |items|
  {
    sorted := [];
    for n := 0 to |items|
      invariant |sorted| == n
      invariant Ascending(sorted, less)
      invariant forall x :: x in sorted <==> x in items[..n]
    {
      var item := items[n];
      var k := 0;
      while k < |sorted| && less(sorted[k], item)
        invariant 0 <= k <= |sorted|
        invariant forall i :: 0 <= i < k ==> less(sorted[i], item)
      {
        k := k + 1;
      }
      assert items[..n + 1] == items[..n] + [item];
      assert item !in items[..n];
      assert k < |sorted| ==> sorted[k] in items[..n] && less(item, sorted[k]);
      sorted := sorted[..k] + [item] + sorted[k..];
    }
    assert items[..|items|] == items;
    assert forall x :: x in sorted <==> x in Elements(items);
  }

  /** Lists a set of texts in order. */
  method SortTexts(texts: set<string>) returns (sorted: seq<string>)
    ensures IsSorting(sorted, texts, Before)
    ensures |sorted| == |texts|
  {
    var rest, items := texts, [];
    while rest != {}
      invariant rest <= texts && |items| + |rest| == |texts|
      invariant forall x :: x in texts <==> x in rest || x in items
      invariant forall x :: x in items ==> x !in rest
      invariant forall i, j :: 0 <= i < j < |items| ==> items[i] != items[j]
      decreases rest
    {
      var x :| x in rest;
      assert forall y :: y in items + [x] <==> y in items || y == x;
      rest, items := rest - {x}, items + [x];
    }
    BeforeIsTransitive();
    BeforeIsTotal();
    hide Before, Ascending;
    sorted := SortItems(items, Before);
    assert Elements(items) == texts;
  }
}
