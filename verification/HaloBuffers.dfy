/** Layout of the ghost-zone buffers: messages by rank, sections by kind inside a message,
    elements by number inside a section. */
module HaloBuffers {
  import opened Arithmetic

  /** elemSize[k] is the size of one element of kind k; counts[k][r] how many go to rank r. */
  datatype Layout = Layout(nproc: nat, elemSize: seq<nat>, counts: seq<seq<nat>>) {
    ghost predicate Valid() {
      |elemSize| == |counts| && forall k | 0 <= k < |counts| :: |counts[k]| == nproc
    }
  }

  /** The size of a section of count elements. */
  function SectionSize(size: nat, count: nat): nat { size * count }

  ghost function SectionSizes(L: Layout, r: nat): (s: seq<nat>)
    requires L.Valid() && r < L.nproc
    ensures |s| == |L.elemSize| && forall k | 0 <= k < |s| :: s[k] == SectionSize(L.elemSize[k], L.counts[k][r])
  {
    seq<nat>(|L.elemSize|, (k: nat) requires k < |L.elemSize| => SectionSize(L.elemSize[k], L.counts[k][r]))
  }

  ghost function MessageSizes(L: Layout): (s: seq<nat>)
    requires L.Valid()
    ensures |s| == L.nproc && forall r | 0 <= r < L.nproc :: s[r] == PrefixSum(SectionSizes(L, r), |L.elemSize|)
  {
    seq<nat>(L.nproc, (r: nat) requires r < L.nproc => PrefixSum(SectionSizes(L, r), |L.elemSize|))
  }

  /** Where element i of kind k of the message for rank r starts. */
  ghost function Start(L: Layout, r: nat, k: nat, i: nat): nat
    requires L.Valid() && r < L.nproc && k < |L.elemSize|
  {
    PrefixSum(MessageSizes(L), r) + PrefixSum(SectionSizes(L, r), k) + i * L.elemSize[k]
  }

  ghost predicate Holds(L: Layout, r: nat, k: nat, i: nat, x: nat)
    requires L.Valid()
  {
    r < L.nproc && k < |L.elemSize| && i < L.counts[k][r] && Start(L, r, k, i) <= x < Start(L, r, k, i) + L.elemSize[k]
  }

  lemma ElementInside(L: Layout, r: nat, k: nat, i: nat, x: nat)
    requires L.Valid() && Holds(L, r, k, i, x)
    ensures var y := x - PrefixSum(MessageSizes(L), r);
      && 0 <= y < MessageSizes(L)[r] && PrefixSum(SectionSizes(L, r), k) <= y < PrefixSum(SectionSizes(L, r), k) + SectionSizes(L, r)[k]
      && i == (y - PrefixSum(SectionSizes(L, r), k)) / L.elemSize[k]
  {
    var n, y := L.elemSize[k], x - PrefixSum(MessageSizes(L), r) - PrefixSum(SectionSizes(L, r), k);
    MixedBound(n, y - i * n, i, L.counts[k][r]);
    assert Mixed(n, y - i * n, i) == y;
    PrefixMonotone(SectionSizes(L, r), k, |L.elemSize|);
    QuotientUnique(y, n, i);
  }

  lemma QuotientUnique(y: nat, n: nat, i: nat)
    requires i * n <= y < i * n + n
    ensures n > 0 && y / n == i
  {
    var d := y / n - i;
    assert d * n == (y - i * n) - y % n;
    MultipleIsLarge(d, n);
  }

  /** No position belongs to two elements. */
  lemma ElementsDisjoint(L: Layout, r: nat, k: nat, i: nat, r': nat, k': nat, i': nat, x: nat)
    requires L.Valid() && Holds(L, r, k, i, x) && Holds(L, r', k', i', x)
    ensures r == r' && k == k' && i == i'
  {
    ElementInside(L, r, k, i, x);
    ElementInside(L, r', k', i', x);
    hide Start, PrefixSum, SectionSizes, MessageSizes, SectionSize;
    PrefixUnique(MessageSizes(L), r, r', x);
    PrefixUnique(SectionSizes(L, r), k, k', x - PrefixSum(MessageSizes(L), r));
  }

  /** Every position of the buffer belongs to an element. */
  lemma ElementsCover(L: Layout, x: nat) returns (r: nat, k: nat, i: nat)
    requires L.Valid() && x < PrefixSum(MessageSizes(L), L.nproc)
    ensures Holds(L, r, k, i, x)
  {
    hide *;
    r := PrefixLocate(MessageSizes(L), L.nproc, x);
    var y := x - PrefixSum(MessageSizes(L), r);
    k := PrefixLocate(SectionSizes(L, r), |L.elemSize|, y);
    i := ElementOf(L, r, k, y - PrefixSum(SectionSizes(L, r), k));
    HoldsFrom(L, r, k, i, x);
  }

  lemma ElementOf(L: Layout, r: nat, k: nat, z: nat) returns (i: nat)
    requires L.Valid() && r < L.nproc && k < |L.elemSize| && z < SectionSizes(L, r)[k]
    ensures i < L.counts[k][r] && i * L.elemSize[k] <= z < i * L.elemSize[k] + L.elemSize[k]
  {
    var n, c := L.elemSize[k], L.counts[k][r];
    assert z < n * c && n > 0;
    i := z / n;
    QuotientBound(z, n, c);
  }

  lemma HoldsFrom(L: Layout, r: nat, k: nat, i: nat, x: nat)
    requires L.Valid() && r < L.nproc && k < |L.elemSize| && i < L.counts[k][r]
    requires var z := x - PrefixSum(MessageSizes(L), r) - PrefixSum(SectionSizes(L, r), k); i * L.elemSize[k] <= z < i * L.elemSize[k] + L.elemSize[k]
    ensures Holds(L, r, k, i, x)
  {
    hide PrefixSum, SectionSizes, MessageSizes;
  }

  lemma QuotientBound(z: nat, n: nat, c: nat)
    requires n > 0 && z < n * c
    ensures z / n < c && z / n * n <= z < z / n * n + n
  {
    if z / n >= c { ProductMonotone(c, z / n, n); }
  }

  lemma ProductMonotone(a: nat, b: nat, n: nat)
    requires a <= b
    ensures a * n <= b * n
  {
    var d := b - a;
    assert d * n >= 0;
  }

  /** If sender and receiver count alike, an element stands at the same place of the message on both sides. */
  lemma SamePlaceInMessage(L: Layout, r: nat, M: Layout, t: nat, k: nat)
    requires L.Valid() && M.Valid() && r < L.nproc && t < M.nproc && L.elemSize == M.elemSize && k < |L.elemSize|
    requires forall j | 0 <= j < |L.elemSize| :: L.counts[j][r] == M.counts[j][t]
    ensures MessageSizes(L)[r] == MessageSizes(M)[t]
    ensures forall i: nat :: Start(L, r, k, i) - PrefixSum(MessageSizes(L), r) == Start(M, t, k, i) - PrefixSum(MessageSizes(M), t)
  {
    assert SectionSizes(L, r) == SectionSizes(M, t);
  }

  /** The sections of one message. */
  method SectionOffsets(L: Layout, r: nat) returns (size: nat, row: seq<nat>)
    requires L.Valid() && r < L.nproc
    ensures size == PrefixSum(SectionSizes(L, r), |L.elemSize|)
    ensures |row| == |L.elemSize| && forall k | 0 <= k < |L.elemSize| :: row[k] == PrefixSum(SectionSizes(L, r), k)
  {
    hide SectionSize;
    size, row := 0, [];
    for k := 0 to |L.elemSize|
      invariant |row| == k && size == PrefixSum(SectionSizes(L, r), k)
      invariant forall j | 0 <= j < k :: row[j] == PrefixSum(SectionSizes(L, r), j)
    {
      row := row + [size];
      size := size + SectionSize(L.elemSize[k], L.counts[k][r]);
    }
  }

  /** The loops that size and place the sections and messages of one staggering. */
  method ComputeOffsets(L: Layout) returns (rankSizes: seq<nat>, offsets: seq<seq<nat>>, rankOffsets: seq<nat>, total: nat)
    requires L.Valid()
    ensures rankSizes == MessageSizes(L) && |rankOffsets| == |offsets| == L.nproc && total == PrefixSum(MessageSizes(L), L.nproc)
    ensures forall r | 0 <= r < L.nproc :: rankOffsets[r] == PrefixSum(MessageSizes(L), r)
    ensures forall r | 0 <= r < L.nproc :: PlacedSections(L, r, offsets[r])
  {
    hide *;
    rankSizes, offsets := [], [];
    for r := 0 to L.nproc
      invariant |rankSizes| == |offsets| == r
      invariant forall t | 0 <= t < r :: rankSizes[t] == MessageSizes(L)[t]
      invariant forall t | 0 <= t < r :: PlacedSections(L, t, offsets[t])
    {
      var size, row := SectionOffsets(L, r);
      PlacedFrom(L, r, row);
      rankSizes, offsets := rankSizes + [size], offsets + [row];
    }
    assert rankSizes == MessageSizes(L);
    rankOffsets, total := ExclusiveScan(rankSizes);
  }

  /** The sections of the message for rank r are placed one after the other. */
  ghost predicate PlacedSections(L: Layout, r: nat, row: seq<nat>)
    requires L.Valid() && r < L.nproc
  {
    |row| == |L.elemSize| && forall k | 0 <= k < |L.elemSize| :: row[k] == PrefixSum(SectionSizes(L, r), k)
  }

  lemma PlacedFrom(L: Layout, r: nat, row: seq<nat>)
    requires L.Valid() && r < L.nproc && |row| == |L.elemSize| && forall k | 0 <= k < |L.elemSize| :: row[k] == PrefixSum(SectionSizes(L, r), k)
    ensures PlacedSections(L, r, row)
  {
  }

  method ExclusiveScan(s: seq<nat>) returns (offsets: seq<nat>, total: nat)
    ensures |offsets| == |s| && total == PrefixSum(s, |s|) && forall r | 0 <= r < |s| :: offsets[r] == PrefixSum(s, r)
  {
    offsets, total := [], 0;
    for r := 0 to |s|
      invariant |offsets| == r && total == PrefixSum(s, r) && forall t | 0 <= t < r :: offsets[t] == PrefixSum(s, t)
    {
      offsets := offsets + [total];
      total := total + s[r];
    }
  }
}
