/** Numbering by order: the slot of a key is how many keys precede it. Sorting,
    removing duplicates and indexing compute slots; order-isomorphic key sets agree on them. */
module Ordering {

  ghost predicate StrictTotal<T(!new)>(less: (T, T) -> bool) {
    && (forall a :: !less(a, a))
    && (forall a, b, c :: less(a, b) && less(b, c) ==> less(a, c))
    && (forall a, b :: less(a, b) || a == b || less(b, a))
  }

  ghost predicate Increasing<T(!new)>(less: (T, T) -> bool, s: seq<T>) {
    forall m, n | 0 <= m < n < |s| :: less(s[m], s[n])
  }

  /** Sorted with repetitions: nothing is followed by something smaller. */
  ghost predicate Ascending<T(!new)>(less: (T, T) -> bool, s: seq<T>) {
    forall m, n | 0 <= m < n < |s| :: !less(s[n], s[m])
  }

  ghost function Elements<T>(s: seq<T>): set<T> { set x | x in s }

  lemma ElementsAppend<T>(s: seq<T>, x: T)
    ensures Elements(s + [x]) == Elements(s) + {x}
  {
  }

  lemma ElementsConcat<T>(s: seq<T>, t: seq<T>)
    ensures Elements(s + t) == Elements(s) + Elements(t)
  {
  }

  ghost function Below<T(!new)>(less: (T, T) -> bool, keys: set<T>, k: T): set<T> {
    set x | x in keys && less(x, k)
  }

  ghost function Slot<T(!new)>(less: (T, T) -> bool, keys: set<T>, k: T): nat {
    |Below(less, keys, k)|
  }

  ghost function Image<T(!new), K>(f: T -> K, s: set<T>): set<K> {
    set x | x in s :: f(x)
  }

  lemma InsertAscending<T(!new)>(less: (T, T) -> bool, r: seq<T>, k: nat, x: T)
    requires StrictTotal(less) && Ascending(less, r) && k <= |r|
    requires k > 0 ==> !less(x, r[k - 1])
    requires forall m | k <= m < |r| :: less(x, r[m])
    ensures Ascending(less, r[..k] + [x] + r[k..])
  {
    forall m | 0 <= m < k ensures !less(x, r[m]) {
      assert !less(r[k - 1], r[m]) || m == k - 1;
    }
    forall m | k <= m < |r| ensures !less(r[m], x) {
      assert !less(x, x);
    }
  }

  lemma InsertMultiset<T(!new)>(r: seq<T>, k: nat, x: T)
    requires k <= |r|
    ensures multiset(r[..k] + [x] + r[k..]) == multiset(r) + multiset{x}
  {
    assert r == r[..k] + r[k..];
  }

  /** Sorting a vector, with every copy kept. */
  method Sort<T(!new)>(less: (T, T) -> bool, s: seq<T>) returns (r: seq<T>)
    requires StrictTotal(less)
    ensures Ascending(less, r) && multiset(r) == multiset(s)
  {
    r := [];
    for n := 0 to |s|
      invariant Ascending(less, r) && multiset(r) == multiset(s[..n])
    {
      hide Ascending, StrictTotal;
      var k := |r|;
      while k > 0 && less(s[n], r[k - 1])
        invariant 0 <= k <= |r|
        invariant forall m | k <= m < |r| :: less(s[n], r[m])
      {
        k := k - 1;
      }
      assert multiset(s[..n + 1]) == multiset(s[..n]) + multiset{s[n]} by {
        assert s[..n + 1] == s[..n] + [s[n]];
      }
      InsertAscending(less, r, k, s[n]);
      InsertMultiset(r, k, s[n]);
      r := r[..k] + [s[n]] + r[k..];
    }
    assert s[..|s|] == s;
  }

  /** Sorting, then erasing every element equal to its predecessor. */
  method SortUnique<T(==, !new)>(less: (T, T) -> bool, s: seq<T>) returns (r: seq<T>)
    requires StrictTotal(less)
    ensures Increasing(less, r) && Elements(r) == Elements(s)
  {
    var v := Sort(less, s);
    r := [];
    for n := 0 to |v|
      invariant Increasing(less, r) && Elements(r) == Elements(v[..n])
      invariant r != [] ==> n > 0 && r[|r| - 1] == v[n - 1]
      invariant r == [] ==> n == 0
    {
      if r == [] || r[|r| - 1] != v[n] {
        assert forall m | 0 <= m < |r| :: less(r[m], v[n]) by {
          assert r != [] ==> less(r[|r| - 1], v[n]);
        }
        r := r + [v[n]];
      }
      assert Elements(v[..n + 1]) == Elements(v[..n]) + {v[n]};
    }
    assert v[..|v|] == v;
    assert forall x :: x in v <==> x in multiset(v);
    assert forall x :: x in s <==> x in multiset(s);
  }

  /** The position of each key in the sorted vector. */
  method Index<T(==, !new)>(less: (T, T) -> bool, vec: seq<T>) returns (index: map<T, nat>)
    requires StrictTotal(less) && Increasing(less, vec)
    ensures index.Keys == Elements(vec)
    ensures forall k | k in index :: index[k] == Slot(less, Elements(vec), k)
  {
    index := map[];
    for n := 0 to |vec|
      invariant index.Keys == Elements(vec[..n])
      invariant forall m | 0 <= m < n :: index[vec[m]] == m
    {
      index := index[vec[n] := n];
    }
    forall k | k in index ensures index[k] == Slot(less, Elements(vec), k) {
      SlotIsPosition(less, vec, index[k]);
    }
  }

  lemma {:induction false} DistinctCount<T(!new)>(less: (T, T) -> bool, s: seq<T>)
    requires StrictTotal(less) && Increasing(less, s)
    ensures |Elements(s)| == |s|
  {
    if s != [] {
      var n := |s| - 1;
      DistinctCount(less, s[..n]);
      assert Elements(s) == Elements(s[..n]) + {s[n]};
    }
  }

  lemma SlotIsPosition<T(!new)>(less: (T, T) -> bool, vec: seq<T>, n: nat)
    requires StrictTotal(less) && Increasing(less, vec) && n < |vec|
    ensures Slot(less, Elements(vec), vec[n]) == n
  {
    assert Below(less, Elements(vec), vec[n]) == Elements(vec[..n]);
    DistinctCount(less, vec[..n]);
  }

  lemma SlotBound<T(!new)>(less: (T, T) -> bool, keys: set<T>, k: T)
    requires StrictTotal(less) && k in keys
    ensures Slot(less, keys, k) < |keys|
  {
    SubsetSize(Below(less, keys, k), keys - {k});
  }

  lemma {:induction false} SubsetSize<T(!new)>(a: set<T>, b: set<T>)
    requires a <= b
    ensures |a| <= |b|
  {
    if a != {} {
      var x :| x in a;
      SubsetSize(a - {x}, b - {x});
    }
  }

  /** Slots follow the order of the keys. */
  lemma SlotOrder<T(!new)>(less: (T, T) -> bool, keys: set<T>, a: T, b: T)
    requires StrictTotal(less) && a in keys && b in keys
    ensures Slot(less, keys, a) < Slot(less, keys, b) <==> less(a, b)
  {
    if less(a, b) {
      assert Below(less, Below(less, keys, b), a) == Below(less, keys, a);
      SlotBound(less, Below(less, keys, b), a);
    } else if less(b, a) {
      assert Below(less, Below(less, keys, a), b) == Below(less, keys, b);
      SlotBound(less, Below(less, keys, a), b);
    }
  }

  /** Different keys have different slots. */
  lemma SlotInjective<T(!new)>(less: (T, T) -> bool, keys: set<T>, a: T, b: T)
    requires StrictTotal(less) && a in keys && b in keys && Slot(less, keys, a) == Slot(less, keys, b)
    ensures a == b
  {
    if less(a, b) {
      assert Below(less, Below(less, keys, b), a) == Below(less, keys, a);
      SlotBound(less, Below(less, keys, b), a);
    } else if less(b, a) {
      assert Below(less, Below(less, keys, a), b) == Below(less, keys, b);
      SlotBound(less, Below(less, keys, a), b);
    }
  }

  lemma {:induction false} ImagesSameSize<T(!new), K>(s: set<T>, f: T -> K, g: T -> K)
    requires forall x, y | x in s && y in s :: f(x) == f(y) <==> g(x) == g(y)
    ensures |Image(f, s)| == |Image(g, s)|
  {
    if s != {} {
      var x :| x in s;
      var rest := s - {x};
      ImagesSameSize(rest, f, g);
      assert Image(f, s) == Image(f, rest) + {f(x)};
      assert Image(g, s) == Image(g, rest) + {g(x)};
      assert f(x) in Image(f, rest) <==> g(x) in Image(g, rest) by {
        if f(x) in Image(f, rest) {
          var y :| y in rest && f(y) == f(x);
          assert g(y) in Image(g, rest);
        }
        if g(x) in Image(g, rest) {
          var y :| y in rest && g(y) == g(x);
          assert f(y) in Image(f, rest);
        }
      }
      if f(x) in Image(f, rest) {
        assert Image(f, s) == Image(f, rest) && Image(g, s) == Image(g, rest);
      }
    }
  }

  /** Two numberings of the same things by keys that compare alike give the
      same number of slots and the same slot to each thing. */
  lemma SlotsAgree<T(!new), K(!new)>(less: (K, K) -> bool, s: set<T>, f: T -> K, g: T -> K)
    requires StrictTotal(less)
    requires forall x, y | x in s && y in s :: less(f(x), f(y)) <==> less(g(x), g(y))
    ensures |Image(f, s)| == |Image(g, s)|
    ensures forall t | t in s :: Slot(less, Image(f, s), f(t)) == Slot(less, Image(g, s), g(t))
  {
    ImagesSameSize(s, f, g);
    forall t | t in s ensures Slot(less, Image(f, s), f(t)) == Slot(less, Image(g, s), g(t)) {
      var low := set x | x in s && less(f(x), f(t));
      assert Below(less, Image(f, s), f(t)) == Image(f, low);
      assert Below(less, Image(g, s), g(t)) == Image(g, low);
      ImagesSameSize(low, f, g);
    }
  }
}
