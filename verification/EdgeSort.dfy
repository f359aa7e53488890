/** The insertion sort the edge kernels run on at most four sides, ordering them by edge id. */
module EdgeSort {

  /** The contents of the first cnt entries: key, value of the first child, value of the second. */
  datatype Entry = Entry(key: int, v0: real, v1: real)

  ghost function Entries(keys: array<int>, v0: array<real>, v1: array<real>, cnt: nat): (s: seq<Entry>)
    reads keys, v0, v1
    requires cnt <= keys.Length && cnt <= v0.Length && cnt <= v1.Length
    ensures |s| == cnt && forall n | 0 <= n < cnt :: s[n] == Entry(keys[n], v0[n], v1[n])
  {
    seq(cnt, n requires 0 <= n < cnt reads keys, v0, v1 => Entry(keys[n], v0[n], v1[n]))
  }

  ghost predicate Sorted(s: seq<Entry>) {
    forall m, n | 0 <= m < n < |s| :: s[m].key <= s[n].key
  }

  /** Moving an entry one place up into a hole keeps the contents with the held entry put in the hole. */
  lemma MoveHole(s: seq<Entry>, b: nat, held: Entry)
    requires b + 1 < |s|
    ensures multiset(s[b + 1 := s[b]][b := held]) == multiset(s[b + 1 := held])
  {
    var t := s[b + 1 := held];
    assert s[b + 1 := s[b]][b := held] == t[..b] + [t[b + 1]] + [t[b]] + t[b + 2..];
    assert t == t[..b] + [t[b]] + [t[b + 1]] + t[b + 2..];
  }

  /** Writing one entry. */
  method Put(keys: array<int>, v0: array<real>, v1: array<real>, cnt: nat, p: nat, k: int, t0: real, t1: real)
    requires v0 != v1 && p < cnt <= keys.Length && cnt <= v0.Length && cnt <= v1.Length
    modifies keys, v0, v1
    ensures Entries(keys, v0, v1, cnt) == old(Entries(keys, v0, v1, cnt))[p := Entry(k, t0, t1)]
  {
    keys[p], v0[p], v1[p] := k, t0, t1;
  }

  /** Up to a, everything but the hole at h is sorted, and what lies above the hole is larger than key. */
  ghost predicate Hole(s: seq<Entry>, a: nat, h: nat, key: int)
    requires h <= a < |s|
  {
    && (forall n | h < n <= a :: s[n].key > key)
    && (forall m, n | 0 <= m < n <= a && m != h && n != h :: s[m].key <= s[n].key)
  }

  lemma HoleMoves(s: seq<Entry>, a: nat, h: nat, key: int)
    requires 0 < h <= a < |s| && Hole(s, a, h, key) && s[h - 1].key > key
    ensures Hole(s[h := s[h - 1]], a, h - 1, key)
  {
  }

  lemma HoleFilled(s: seq<Entry>, a: nat, h: nat, held: Entry)
    requires h <= a < |s| && Hole(s, a, h, held.key) && (h > 0 ==> s[h - 1].key <= held.key)
    ensures Sorted(s[h := held][..a + 1])
  {
    var t := s[h := held];
    forall m, n | 0 <= m < n <= a ensures t[m].key <= t[n].key {
      if n == h && m < h - 1 { assert s[m].key <= s[h - 1].key; }
    }
  }

  /** One insertion: entry a joins the sorted entries before it. */
  method Insert(keys: array<int>, v0: array<real>, v1: array<real>, cnt: nat, a: nat)
    requires v0 != v1 && 1 <= a < cnt <= keys.Length && cnt <= v0.Length && cnt <= v1.Length
    requires Sorted(Entries(keys, v0, v1, cnt)[..a])
    modifies keys, v0, v1
    ensures Sorted(Entries(keys, v0, v1, cnt)[..a + 1])
    ensures multiset(Entries(keys, v0, v1, cnt)) == old(multiset(Entries(keys, v0, v1, cnt)))
  {
    ghost var s0 := Entries(keys, v0, v1, cnt);
    var k, t0, t1 := keys[a], v0[a], v1[a];
    ghost var held := Entry(k, t0, t1);
    var h := a;
    assert s0[a := held] == s0;
    assert forall n | 0 <= n < a :: s0[n] == s0[..a][n];
    assert Hole(s0, a, a, k);
    hide Hole, Sorted;
    while h > 0 && keys[h - 1] > k
      invariant h <= a && Hole(Entries(keys, v0, v1, cnt), a, h, k)
      invariant multiset(Entries(keys, v0, v1, cnt)[h := held]) == multiset(s0)
    {
      HoleMoves(Entries(keys, v0, v1, cnt), a, h, k);
      MoveHole(Entries(keys, v0, v1, cnt), h - 1, held);
      Put(keys, v0, v1, cnt, h, keys[h - 1], v0[h - 1], v1[h - 1]);
      h := h - 1;
    }
    HoleFilled(Entries(keys, v0, v1, cnt), a, h, held);
    Put(keys, v0, v1, cnt, h, k, t0, t1);
  }

  /** Sort the first cnt entries by key, moving both values along. */
  method InsertionSort(keys: array<int>, v0: array<real>, v1: array<real>, cnt: nat)
    requires v0 != v1 && cnt <= keys.Length && cnt <= v0.Length && cnt <= v1.Length
    modifies keys, v0, v1
    ensures Sorted(Entries(keys, v0, v1, cnt))
    ensures multiset(Entries(keys, v0, v1, cnt)) == old(multiset(Entries(keys, v0, v1, cnt)))
  {
    ghost var z := multiset(Entries(keys, v0, v1, cnt));
    var a := 1;
    while a < cnt
      invariant 1 <= a && (cnt > 0 ==> a <= cnt)
      invariant Sorted(Entries(keys, v0, v1, cnt)[..if a <= cnt then a else cnt])
      invariant multiset(Entries(keys, v0, v1, cnt)) == z
    {
      Insert(keys, v0, v1, cnt, a);
      a := a + 1;
    }
    assert Entries(keys, v0, v1, cnt)[..cnt] == Entries(keys, v0, v1, cnt);
  }

  /** After sorting, the first entry is the one of smallest key, wherever it stood before. */
  lemma FirstIsSmallest(before: seq<Entry>, after: seq<Entry>, n: nat)
    requires multiset(before) == multiset(after) && Sorted(after) && n < |before|
    requires forall m | 0 <= m < |before| && m != n :: before[n].key < before[m].key
    ensures after != [] && after[0] == before[n]
  {
    assert before[n] in multiset(after);
    var k :| 0 <= k < |after| && after[k] == before[n];
    assert after[0] in multiset(before);
    var m :| 0 <= m < |before| && before[m] == after[0];
  }
}
