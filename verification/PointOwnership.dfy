/** Which quadrant owns a point: the octree of half-open boxes, the two pruned searches
    that look a point up, and the interpolation stencil inside the quadrant found. */
module PointOwnership {

  datatype Point = Point(x: real, y: real, z: real)

  /** The cube [x, x + size) and likewise in y and z. */
  datatype Box = Box(x: real, y: real, z: real, size: real)

  /** A leaf knows its rank and its index there; an inner node has eight children in z-order. */
  datatype Octree = Leaf(rank: nat, lid: nat) | Node(kids: seq<Octree>) {
    ghost predicate Valid() {
      Node? ==> |kids| == 8 && forall c | 0 <= c < 8 :: kids[c].Valid()
    }
  }

  predicate Contains(b: Box, p: Point) {
    !(p.x < b.x || p.x >= b.x + b.size) && !(p.y < b.y || p.y >= b.y + b.size) && !(p.z < b.z || p.z >= b.z + b.size)
  }

  function ChildBox(b: Box, c: nat): Box {
    var h := b.size / 2.0;
    Box(b.x + (if c % 2 == 1 then h else 0.0), b.y + (if c / 2 % 2 == 1 then h else 0.0), b.z + (if c / 4 % 2 == 1 then h else 0.0), h)
  }

  /** The child whose half holds p along every axis. */
  function ChildOf(b: Box, p: Point): nat {
    var h := b.size / 2.0;
    (if p.x >= b.x + h then 1 else 0) + (if p.y >= b.y + h then 2 else 0) + (if p.z >= b.z + h then 4 else 0)
  }

  /** The children tile their parent: exactly one contains p if the parent does, none otherwise. */
  lemma ChildrenTile(b: Box, p: Point, c: nat)
    requires c < 8 && b.size > 0.0
    ensures ChildOf(b, p) < 8
    ensures Contains(ChildBox(b, c), p) <==> Contains(b, p) && c == ChildOf(b, p)
  {
    var h := b.size / 2.0;
    assert c == c % 2 + 2 * (c / 2 % 2) + 4 * (c / 4 % 2);
  }

  /** Children are numbered in z-order: first by z, then by y, then by x. */
  lemma ChildrenInZOrder(b: Box, c: nat, d: nat)
    requires c < 8 && d < 8 && b.size > 0.0
    ensures var s, t := ChildBox(b, c), ChildBox(b, d);
      c < d <==> s.z < t.z || (s.z == t.z && (s.y < t.y || (s.y == t.y && s.x < t.x)))
  {
    assert c == c % 2 + 2 * (c / 2 % 2) + 4 * (c / 4 % 2) && d == d % 2 + 2 * (d / 2 % 2) + 4 * (d / 4 % 2);
  }

  /** A leaf is reached by a path of child numbers. */
  ghost predicate LeafPath(t: Octree, path: seq<nat>)
    requires t.Valid()
    decreases t
  {
    if t.Leaf? then path == [] else path != [] && path[0] < 8 && LeafPath(t.kids[path[0]], path[1..])
  }

  ghost function LeafAt(t: Octree, path: seq<nat>): Octree
    requires t.Valid() && LeafPath(t, path)
    decreases t
  {
    if t.Leaf? then t else LeafAt(t.kids[path[0]], path[1..])
  }

  ghost function LeafBox(b: Box, path: seq<nat>): Box
    decreases |path|
  {
    if path == [] then b else LeafBox(ChildBox(b, path[0]), path[1..])
  }

  /** The path of p. */
  ghost function PathOf(t: Octree, b: Box, p: Point): (path: seq<nat>)
    requires t.Valid() && b.size > 0.0
    ensures LeafPath(t, path)
    decreases t
  {
    if t.Leaf? then []
    else
      var c := ChildOf(b, p);
      ChildrenTile(b, p, c);
      [c] + PathOf(t.kids[c], ChildBox(b, c), p)
  }

  /** Every point of the box lies in exactly one leaf. */
  lemma {:induction false} OneLeaf(t: Octree, b: Box, p: Point, path: seq<nat>)
    requires t.Valid() && b.size > 0.0 && LeafPath(t, path)
    ensures Contains(LeafBox(b, path), p) <==> Contains(b, p) && path == PathOf(t, b, p)
    decreases t
  {
    if t.Node? {
      ChildrenTile(b, p, path[0]);
      OneLeaf(t.kids[path[0]], ChildBox(b, path[0]), p, path[1..]);
      assert path == [path[0]] + path[1..];
    }
  }

  /** The leaf p falls into. */
  ghost function LeafOf(t: Octree, b: Box, p: Point): (l: Octree)
    requires t.Valid() && b.size > 0.0
    decreases t
  {
    if t.Leaf? then t
    else
      ChildrenTile(b, p, ChildOf(b, p));
      LeafOf(t.kids[ChildOf(b, p)], ChildBox(b, ChildOf(b, p)), p)
  }

  lemma {:induction false} LeafOfIsAtPath(t: Octree, b: Box, p: Point)
    requires t.Valid() && b.size > 0.0
    ensures LeafOf(t, b, p) == LeafAt(t, PathOf(t, b, p)) && LeafOf(t, b, p).Leaf?
    decreases t
  {
    if t.Node? {
      var c := ChildOf(b, p);
      ChildrenTile(b, p, c);
      LeafOfIsAtPath(t.kids[c], ChildBox(b, c), p);
      assert PathOf(t, b, p)[1..] == PathOf(t.kids[c], ChildBox(b, c), p);
    }
  }

  /** Leaves are distributed over the ranks in their z-order: all of a subtree's ranks lie
      between its first and its last. */
  ghost predicate Between(t: Octree, lo: nat, hi: nat)
    requires t.Valid()
    decreases t
  {
    if t.Leaf? then lo <= t.rank <= hi else forall c | 0 <= c < 8 :: Between(t.kids[c], lo, hi)
  }

  function First(t: Octree): nat
    requires t.Valid()
    decreases t
  {
    if t.Leaf? then t.rank else First(t.kids[0])
  }

  function Last(t: Octree): nat
    requires t.Valid()
    decreases t
  {
    if t.Leaf? then t.rank else Last(t.kids[7])
  }

  ghost predicate Ordered(t: Octree)
    requires t.Valid()
    decreases t
  {
    Between(t, First(t), Last(t)) && (t.Node? ==> forall c | 0 <= c < 8 :: Ordered(t.kids[c]))
  }

  /** The ranks of the leaves in z-order. */
  ghost function Ranks(t: Octree): (s: seq<nat>)
    requires t.Valid()
    ensures |s| > 0 && s[0] == First(t) && s[|s| - 1] == Last(t)
    decreases t, 8
  {
    if t.Leaf? then [t.rank] else KidRanks(t, 8)
  }

  ghost function KidRanks(t: Octree, n: nat): (s: seq<nat>)
    requires t.Valid() && t.Node? && 0 < n <= 8
    ensures |s| > 0 && s[0] == First(t.kids[0]) && s[|s| - 1] == Last(t.kids[n - 1])
    decreases t, n - 1
  {
    if n == 1 then Ranks(t.kids[0]) else KidRanks(t, n - 1) + Ranks(t.kids[n - 1])
  }

  ghost predicate NeverFalls(s: seq<nat>) { forall m, n | 0 <= m < n < |s| :: s[m] <= s[n] }

  /** What the search needs of the distribution follows from its leaves going to the ranks in z-order. */
  lemma {:induction false} ZOrderIsOrdered(t: Octree)
    requires t.Valid() && NeverFalls(Ranks(t))
    ensures Ordered(t)
    decreases t
  {
    var s := Ranks(t);
    forall x | x in s ensures First(t) <= x <= Last(t) {
      var n :| 0 <= n < |s| && s[n] == x;
      assert s[0] <= s[n] <= s[|s| - 1];
    }
    RanksBetween(t, First(t), Last(t));
    if t.Node? {
      forall c | 0 <= c < 8 ensures Ordered(t.kids[c]) {
        KidsInOrder(t, c, 8);
        ZOrderIsOrdered(t.kids[c]);
      }
    }
  }

  lemma {:induction false} KidsInOrder(t: Octree, c: nat, n: nat)
    requires t.Valid() && t.Node? && c < n <= 8 && NeverFalls(KidRanks(t, n))
    ensures NeverFalls(Ranks(t.kids[c])) && forall x | x in Ranks(t.kids[c]) :: x in KidRanks(t, n)
  {
    if n > 1 {
      var a, b := KidRanks(t, n - 1), Ranks(t.kids[n - 1]);
      forall k, m | 0 <= k < m < |a| ensures a[k] <= a[m] { assert (a + b)[k] == a[k] && (a + b)[m] == a[m]; }
      forall k, m | 0 <= k < m < |b| ensures b[k] <= b[m] { assert (a + b)[|a| + k] == b[k] && (a + b)[|a| + m] == b[m]; }
      if c < n - 1 { KidsInOrder(t, c, n - 1); }
    }
  }

  lemma {:induction false} RanksBetween(t: Octree, lo: nat, hi: nat)
    requires t.Valid() && NeverFalls(Ranks(t)) && forall x | x in Ranks(t) :: lo <= x <= hi
    ensures Between(t, lo, hi)
    decreases t
  {
    if t.Node? {
      forall c | 0 <= c < 8 ensures Between(t.kids[c], lo, hi) {
        KidsInOrder(t, c, 8);
        RanksBetween(t.kids[c], lo, hi);
      }
    } else {
      assert t.rank in Ranks(t);
    }
  }

  lemma {:induction false} RankBetween(t: Octree, b: Box, p: Point, lo: nat, hi: nat)
    requires t.Valid() && b.size > 0.0 && Between(t, lo, hi)
    ensures LeafOf(t, b, p).Leaf? && lo <= LeafOf(t, b, p).rank <= hi
    decreases t
  {
    if t.Node? {
      ChildrenTile(b, p, ChildOf(b, p));
      RankBetween(t.kids[ChildOf(b, p)], ChildBox(b, ChildOf(b, p)), p, lo, hi);
    }
  }

  /** The query a search carries along. */
  class PointQuery {
    const p: Point
    var ownerRank: int
    var localQuad: int

    constructor (p: Point)
      ensures this.p == p && ownerRank == -1 && localQuad == -1
    {
      this.p := p;
      ownerRank, localQuad := -1, -1;
    }
  }

  /** The callback of the partition search: prune boxes without the point; a box that lies on
      one rank settles the owner. */
  method PartitionCallback(b: Box, pfirst: nat, plast: nat, q: PointQuery) returns (descend: bool)
    modifies q`ownerRank
    ensures descend <==> Contains(b, q.p) && pfirst != plast
    ensures q.ownerRank == if Contains(b, q.p) && pfirst == plast then pfirst else old(q.ownerRank)
  {
    if q.p.x < b.x || q.p.x >= b.x + b.size { return false; }
    if q.p.y < b.y || q.p.y >= b.y + b.size { return false; }
    if q.p.z < b.z || q.p.z >= b.z + b.size { return false; }
    if pfirst == plast {
      q.ownerRank := pfirst;
      return false;
    }
    return true;
  }

  /** The top-down search over the partition, subtree by subtree. */
  method SearchPartition(t: Octree, b: Box, q: PointQuery)
    requires t.Valid() && Ordered(t) && b.size > 0.0
    modifies q`ownerRank
    ensures LeafOf(t, b, q.p).Leaf?
    ensures q.ownerRank == if Contains(b, q.p) then LeafOf(t, b, q.p).rank else old(q.ownerRank)
    decreases t
  {
    LeafOfIsAtPath(t, b, q.p);
    var descend := PartitionCallback(b, First(t), Last(t), q);
    RankBetween(t, b, q.p, First(t), Last(t));
    if descend {
      ghost var before := q.ownerRank;
      for c := 0 to 8
        invariant q.ownerRank == if ChildOf(b, q.p) < c then LeafOf(t, b, q.p).rank else before
      {
        ChildrenTile(b, q.p, c);
        SearchPartition(t.kids[c], ChildBox(b, c), q);
      }
      ChildrenTile(b, q.p, 0);
    }
  }

  /** The callback of the local search: localNum is the index of a local leaf, -1 for an inner node. */
  method LocalCallback(b: Box, localNum: int, q: PointQuery) returns (descend: bool)
    modifies q`localQuad
    ensures descend <==> Contains(b, q.p) && localNum < 0
    ensures q.localQuad == if Contains(b, q.p) && localNum >= 0 then localNum else old(q.localQuad)
  {
    if q.p.x < b.x || q.p.x >= b.x + b.size { return false; }
    if q.p.y < b.y || q.p.y >= b.y + b.size { return false; }
    if q.p.z < b.z || q.p.z >= b.z + b.size { return false; }
    if localNum >= 0 {
      q.localQuad := localNum;
      return false;
    }
    return true;
  }

  /** Whether a subtree has a leaf of rank me; the local search visits no other. */
  predicate HasLocal(t: Octree, me: nat)
    requires t.Valid()
    decreases t
  {
    if t.Leaf? then t.rank == me else exists c | 0 <= c < 8 :: HasLocal(t.kids[c], me)
  }

  lemma {:induction false} LocalLeafFound(t: Octree, b: Box, p: Point, me: nat)
    requires t.Valid() && b.size > 0.0 && LeafOf(t, b, p).Leaf? && LeafOf(t, b, p).rank == me
    ensures HasLocal(t, me)
    decreases t
  {
    if t.Node? {
      ChildrenTile(b, p, ChildOf(b, p));
      LocalLeafFound(t.kids[ChildOf(b, p)], ChildBox(b, ChildOf(b, p)), p, me);
    }
  }

  method SearchLocal(t: Octree, b: Box, me: nat, q: PointQuery)
    requires t.Valid() && b.size > 0.0
    modifies q`localQuad
    ensures LeafOf(t, b, q.p).Leaf?
    ensures q.localQuad == if Contains(b, q.p) && LeafOf(t, b, q.p).rank == me then LeafOf(t, b, q.p).lid else old(q.localQuad)
    decreases t
  {
    LeafOfIsAtPath(t, b, q.p);
    if LeafOf(t, b, q.p).rank == me { LocalLeafFound(t, b, q.p, me); }
    if !HasLocal(t, me) { return; }
    var descend := LocalCallback(b, if t.Leaf? then t.lid else -1, q);
    if descend {
      ghost var before := q.localQuad;
      ghost var l := LeafOf(t, b, q.p);
      for c := 0 to 8
        invariant q.localQuad == if ChildOf(b, q.p) < c && l.rank == me then l.lid else before
      {
        ChildrenTile(b, q.p, c);
        SearchLocal(t.kids[c], ChildBox(b, c), me, q);
      }
      ChildrenTile(b, q.p, 0);
    }
  }

  /** A tree of the forest and the box it fills. */
  datatype Root = Root(tree: Octree, box: Box)

  ghost predicate Forest(roots: seq<Root>) {
    && (forall n | 0 <= n < |roots| :: roots[n].tree.Valid() && Ordered(roots[n].tree) && roots[n].box.size > 0.0)
    && (forall m, n, p | 0 <= m < |roots| && 0 <= n < |roots| && Contains(roots[m].box, p) && Contains(roots[n].box, p) :: m == n)
  }

  /** The tree whose box holds p, if there is one among the first n. */
  ghost predicate HeldBy(roots: seq<Root>, p: Point, n: nat) {
    exists m :: 0 <= m < n <= |roots| && Contains(roots[m].box, p)
  }

  /** Owner rank and, on the owner itself, the index of the quadrant that contains the point;
      -1 for what is not known, both -1 outside the domain. */
  method FindOwner(roots: seq<Root>, me: nat, p: Point) returns (rank: int, localQuad: int)
    requires Forest(roots)
    ensures !HeldBy(roots, p, |roots|) ==> rank == -1 && localQuad == -1
    ensures forall k | 0 <= k < |roots| && Contains(roots[k].box, p) ::
              var l := LeafOf(roots[k].tree, roots[k].box, p); l.Leaf? && rank == l.rank && localQuad == if l.rank == me then l.lid else -1
  {
    var q := new PointQuery(p);
    for n := 0 to |roots|
      invariant !HeldBy(roots, p, n) ==> q.ownerRank == -1
      invariant forall k | 0 <= k < n && Contains(roots[k].box, p) :: LeafOf(roots[k].tree, roots[k].box, p).Leaf?
                  && q.ownerRank == LeafOf(roots[k].tree, roots[k].box, p).rank
    {
      assert HeldBy(roots, p, n + 1) <==> HeldBy(roots, p, n) || Contains(roots[n].box, p);
      SearchPartition(roots[n].tree, roots[n].box, q);
    }
    rank, localQuad := q.ownerRank, -1;
    if rank < 0 { return; }
    if rank == me {
      var lq := new PointQuery(p);
      for n := 0 to |roots|
        invariant !HeldBy(roots, p, n) ==> lq.localQuad == -1
        invariant forall k | 0 <= k < n && Contains(roots[k].box, p) :: LeafOf(roots[k].tree, roots[k].box, p).Leaf?
                    && lq.localQuad == if LeafOf(roots[k].tree, roots[k].box, p).rank == me then LeafOf(roots[k].tree, roots[k].box, p).lid else -1
      {
        assert HeldBy(roots, p, n + 1) <==> HeldBy(roots, p, n) || Contains(roots[n].box, p);
        SearchLocal(roots[n].tree, roots[n].box, me, lq);
      }
      localQuad := lq.localQuad;
    }
  }

  // ---- the interpolation stencil ----

  /** A quadrant of nx cells of width dx per axis. */
  datatype Geometry = Geometry(x: real, y: real, z: real, dx: real, nx: nat)

  datatype Stencil = Stencil(i: int, j: int, k: int, fx: real, fy: real, fz: real)

  /** A position in cell widths from lo. */
  function InCells(lo: real, dx: real, pos: real): real
    requires dx > 0.0
  {
    (pos - lo) * (1.0 / dx)
  }

  /** Base cell and weight along one axis; cell centres are at (i + 1/2) dx. */
  function Base(lo: real, dx: real, pos: real): int
    requires dx > 0.0
  {
    (InCells(lo, dx, pos) - 0.5).Floor
  }

  function Weight(lo: real, dx: real, pos: real): real
    requires dx > 0.0
  {
    (InCells(lo, dx, pos) - 0.5) - Base(lo, dx, pos) as real
  }

  function MakeStencil(g: Geometry, p: Point): Stencil
    requires g.dx > 0.0
  {
    Stencil(Base(g.x, g.dx, p.x), Base(g.y, g.dx, p.y), Base(g.z, g.dx, p.z),
            Weight(g.x, g.dx, p.x), Weight(g.y, g.dx, p.y), Weight(g.z, g.dx, p.z))
  }

  /** pos lies within h cells of the nx cells from lo on. */
  predicate AxisWithin(lo: real, dx: real, nx: nat, h: nat, pos: real) {
    !(pos < lo - h as real * dx || pos >= lo + nx as real * dx + h as real * dx)
  }

  ghost predicate AxisReconstructs(lo: real, dx: real, base: int, frac: real, pos: real) {
    0.0 <= frac < 1.0 && lo + ((base as real) + frac + 0.5) * dx == pos
  }

  ghost predicate AxisReach(nx: nat, h: nat, base: int) { -1 - h <= base <= nx + h - 1 }

  lemma InCellsTimesWidth(lo: real, dx: real, pos: real)
    requires dx > 0.0
    ensures InCells(lo, dx, pos) * dx == pos - lo
  {
    var r := 1.0 / dx;
    assert r * dx == 1.0;
    assert ((pos - lo) * r) * dx == (pos - lo) * (r * dx);
  }

  lemma Cancel(a: real, b: real, dx: real)
    requires dx > 0.0
    ensures a * dx <= b * dx ==> a <= b
    ensures a * dx < b * dx ==> a < b
  {
    if a > b { assert (a - b) * dx > 0.0; }
    if a == b { assert a * dx == b * dx; }
  }

  /** Along one axis: the weight is in [0, 1) and with the base reconstructs the position exactly. */
  lemma AxisExact(lo: real, dx: real, pos: real)
    requires dx > 0.0
    ensures AxisReconstructs(lo, dx, Base(lo, dx, pos), Weight(lo, dx, pos), pos)
  {
    InCellsTimesWidth(lo, dx, pos);
    hide InCells;
    assert (Base(lo, dx, pos) as real) + Weight(lo, dx, pos) + 0.5 == InCells(lo, dx, pos);
  }

  /** A position within h cells of the quadrant has its base in [-h - 1, nx + h - 1]. */
  lemma AxisBounded(lo: real, dx: real, pos: real, nx: nat, h: nat)
    requires dx > 0.0 && AxisWithin(lo, dx, nx, h, pos)
    ensures AxisReach(nx, h, Base(lo, dx, pos))
  {
    InCellsTimesWidth(lo, dx, pos);
    var t, low, high := InCells(lo, dx, pos), -(h as real), nx as real + h as real;
    hide InCells;
    assert low * dx <= t * dx;
    assert high * dx == nx as real * dx + h as real * dx;
    Cancel(low, t, dx);
    Cancel(t, high, dx);
    CellBounds(t, nx, h);
  }

  lemma CellBounds(t: real, nx: nat, h: nat)
    requires -(h as real) <= t < nx as real + h as real
    ensures -1 - h <= (t - 0.5).Floor <= nx + h - 1
  {
  }

  predicate Within(g: Geometry, h: nat, p: Point) {
    AxisWithin(g.x, g.dx, g.nx, h, p.x) && AxisWithin(g.y, g.dx, g.nx, h, p.y) && AxisWithin(g.z, g.dx, g.nx, h, p.z)
  }

  ghost predicate Reconstructs(g: Geometry, s: Stencil, p: Point) {
    AxisReconstructs(g.x, g.dx, s.i, s.fx, p.x) && AxisReconstructs(g.y, g.dx, s.j, s.fy, p.y) && AxisReconstructs(g.z, g.dx, s.k, s.fz, p.z)
  }

  ghost predicate InReach(g: Geometry, h: nat, s: Stencil) {
    AxisReach(g.nx, h, s.i) && AxisReach(g.nx, h, s.j) && AxisReach(g.nx, h, s.k)
  }

  /** The stencil reconstructs the point exactly; within h cells of the quadrant its base is at most
      h + 1 cells below the first cell and at most h above the last (h = 0: a point of the quadrant). */
  lemma StencilFacts(g: Geometry, p: Point, h: nat)
    requires g.dx > 0.0
    ensures Reconstructs(g, MakeStencil(g, p), p)
    ensures Within(g, h, p) ==> InReach(g, h, MakeStencil(g, p))
  {
    hide Base, Weight, AxisReconstructs, AxisReach, AxisWithin;
    AxisExact(g.x, g.dx, p.x);
    AxisExact(g.y, g.dx, p.y);
    AxisExact(g.z, g.dx, p.z);
    if Within(g, h, p) {
      AxisBounded(g.x, g.dx, p.x, g.nx, h);
      AxisBounded(g.y, g.dx, p.y, g.nx, h);
      AxisBounded(g.z, g.dx, p.z, g.nx, h);
    }
  }

  /** The check against a cached quadrant: no lookup if the point is within the halo. */
  method FastPathCheck(table: seq<Geometry>, localQuad: int, p: Point, halo: nat) returns (ok: bool, s: Stencil)
    requires forall n | 0 <= n < |table| :: table[n].dx > 0.0
    ensures ok <==> 0 <= localQuad < |table| && Within(table[localQuad], halo, p)
    ensures ok ==> Reconstructs(table[localQuad], s, p) && InReach(table[localQuad], halo, s)
  {
    s := Stencil(0, 0, 0, 0.0, 0.0, 0.0);
    if localQuad < 0 || localQuad >= |table| { return false, s; }
    var g := table[localQuad];
    StencilFacts(g, p, halo);
    hide MakeStencil, Reconstructs, InReach, AxisWithin;
    if !AxisWithin(g.x, g.dx, g.nx, halo, p.x) { return false, s; }
    if !AxisWithin(g.y, g.dx, g.nx, halo, p.y) { return false, s; }
    if !AxisWithin(g.z, g.dx, g.nx, halo, p.z) { return false, s; }
    ok, s := true, MakeStencil(g, p);
  }

  // ---- the owner's entry in the geometry table ----

  function GeometryOf(b: Box, nx: nat): Geometry
    requires nx > 0
  {
    Geometry(b.x, b.y, b.z, b.size / nx as real, nx)
  }

  lemma {:induction false} LeafBoxPositive(b: Box, path: seq<nat>)
    requires b.size > 0.0
    ensures LeafBox(b, path).size > 0.0
    decreases |path|
  {
    if path != [] { LeafBoxPositive(ChildBox(b, path[0]), path[1..]); }
  }

  /** The table that refresh builds: every local leaf's box and cell width at the leaf's index. */
  ghost predicate Tabulated(roots: seq<Root>, me: nat, nx: nat, table: seq<Geometry>)
    requires Forest(roots) && nx > 0
  {
    forall k, path | 0 <= k < |roots| && LeafPath(roots[k].tree, path) && LeafAt(roots[k].tree, path).Leaf? && LeafAt(roots[k].tree, path).rank == me ::
      var l := LeafAt(roots[k].tree, path); l.lid < |table| && table[l.lid] == GeometryOf(LeafBox(roots[k].box, path), nx)
  }

  /** The box of a leaf is its tree's box halved once per level. */
  lemma {:induction false} LeafBoxSize(b: Box, path: seq<nat>)
    ensures LeafBox(b, path).size * PowerOfTwo(|path|) == b.size
    decreases |path|
  {
    if path != [] {
      var c := ChildBox(b, path[0]);
      LeafBoxSize(c, path[1..]);
      assert c.size * 2.0 == b.size;
      assert LeafBox(c, path[1..]).size * PowerOfTwo(|path| - 1) * 2.0 == LeafBox(c, path[1..]).size * PowerOfTwo(|path|);
    }
  }

  ghost function PowerOfTwo(n: nat): real { if n == 0 then 1.0 else 2.0 * PowerOfTwo(n - 1) }

  /** pos lies in cell i along one axis. */
  ghost predicate AxisInCell(lo: real, dx: real, i: int, pos: real) { lo + i as real * dx <= pos < lo + (i as real + 1.0) * dx }

  ghost predicate InCell(g: Geometry, i: int, j: int, k: int, p: Point) {
    AxisInCell(g.x, g.dx, i, p.x) && AxisInCell(g.y, g.dx, j, p.y) && AxisInCell(g.z, g.dx, k, p.z)
  }

  /** Without any halo the cells of a box reach exactly as far as the box. */
  lemma WithinIsContains(b: Box, nx: nat, p: Point)
    requires nx > 0 && b.size > 0.0
    ensures GeometryOf(b, nx).dx > 0.0 && nx as real * GeometryOf(b, nx).dx == b.size
    ensures Within(GeometryOf(b, nx), 0, p) <==> Contains(b, p)
  {
    var n, dx := nx as real, b.size / nx as real;
    assert n * dx == b.size;
    assert 0 as real * dx == 0.0;
  }

  /** The nx cells along an axis: pos is in the cell its distance in cells falls into and in no other, and the
      base of the stencil is that cell or the one below it. */
  lemma AxisCell(lo: real, dx: real, nx: nat, pos: real, i: int)
    requires dx > 0.0
    ensures AxisInCell(lo, dx, i, pos) <==> i == InCells(lo, dx, pos).Floor
    ensures AxisWithin(lo, dx, nx, 0, pos) <==> 0 <= InCells(lo, dx, pos).Floor < nx
    ensures Base(lo, dx, pos) <= InCells(lo, dx, pos).Floor <= Base(lo, dx, pos) + 1
  {
    InCellsTimesWidth(lo, dx, pos);
    var t := InCells(lo, dx, pos);
    hide InCells;
    CompareInCells(lo, dx, pos, t, i as real);
    CompareInCells(lo, dx, pos, t, i as real + 1.0);
    CompareInCells(lo, dx, pos, t, 0.0);
    CompareInCells(lo, dx, pos, t, nx as real);
    assert 0 as real * dx == 0.0;
  }

  lemma CompareInCells(lo: real, dx: real, pos: real, t: real, c: real)
    requires dx > 0.0 && t * dx == pos - lo
    ensures lo + c * dx <= pos <==> c <= t
  {
    Cancel(c, t, dx);
    Cancel(t, c, dx);
  }

  /** The nx cells per axis tile the box: a point of the box is in exactly one of them, any other point in none. */
  lemma CellsTileBox(b: Box, nx: nat, p: Point, i: int, j: int, k: int)
    requires nx > 0 && b.size > 0.0
    ensures var g := GeometryOf(b, nx);
      && g.dx > 0.0
      && (InCell(g, i, j, k, p) <==> i == InCells(g.x, g.dx, p.x).Floor && j == InCells(g.y, g.dx, p.y).Floor && k == InCells(g.z, g.dx, p.z).Floor)
      && (InCell(g, i, j, k, p) ==> (Contains(b, p) <==> 0 <= i < nx && 0 <= j < nx && 0 <= k < nx))
  {
    var g := GeometryOf(b, nx);
    WithinIsContains(b, nx, p);
    hide Contains, InCells, AxisInCell, AxisWithin;
    AxisCell(g.x, g.dx, nx, p.x, i);
    AxisCell(g.y, g.dx, nx, p.y, j);
    AxisCell(g.z, g.dx, nx, p.z, k);
  }

  /** The cell that holds the point is one of the eight the stencil reads. */
  ghost predicate ReadsOwnCell(g: Geometry, s: Stencil, p: Point) {
    exists i: int, j: int, k: int {:trigger InCell(g, i, j, k, p)} ::
      && InCell(g, i, j, k, p) && 0 <= i < g.nx && 0 <= j < g.nx && 0 <= k < g.nx
      && s.i <= i <= s.i + 1 && s.j <= j <= s.j + 1 && s.k <= k <= s.k + 1
  }

  lemma OwnCellRead(b: Box, nx: nat, p: Point)
    requires nx > 0 && b.size > 0.0 && Contains(b, p)
    ensures var g := GeometryOf(b, nx); g.dx > 0.0 && ReadsOwnCell(g, MakeStencil(g, p), p)
  {
    var g := GeometryOf(b, nx);
    WithinIsContains(b, nx, p);
    var i, j, k := InCells(g.x, g.dx, p.x).Floor, InCells(g.y, g.dx, p.y).Floor, InCells(g.z, g.dx, p.z).Floor;
    CellsTileBox(b, nx, p, i, j, k);
    hide Contains, InCells, AxisInCell, AxisWithin, Base, Weight;
    AxisCell(g.x, g.dx, nx, p.x, i);
    AxisCell(g.y, g.dx, nx, p.y, j);
    AxisCell(g.z, g.dx, nx, p.z, k);
    assert InCell(g, i, j, k, p);
  }

  /** g cuts a box of that size into nx cells per axis, p among them; the stencil reconstructs p and reads its cell,
      with the base at most one cell below the first and none above the last. */
  ghost predicate Locates(g: Geometry, nx: nat, size: real, p: Point) {
    && g.dx > 0.0 && g.nx == nx && nx as real * g.dx == size && Within(g, 0, p)
    && Reconstructs(g, MakeStencil(g, p), p) && InReach(g, 0, MakeStencil(g, p)) && ReadsOwnCell(g, MakeStencil(g, p), p)
  }

  lemma BoxLocates(b: Box, nx: nat, p: Point)
    requires nx > 0 && b.size > 0.0 && Contains(b, p)
    ensures Locates(GeometryOf(b, nx), nx, b.size, p)
  {
    hide Within, Reconstructs, InReach, MakeStencil, Contains, ReadsOwnCell;
    WithinIsContains(b, nx, p);
    StencilFacts(GeometryOf(b, nx), p, 0);
    OwnCellRead(b, nx, p);
  }

  /** The table entry of the quadrant the search names on its owner locates the point. */
  lemma OwnerStencil(roots: seq<Root>, me: nat, nx: nat, table: seq<Geometry>, k: nat, p: Point)
    requires Forest(roots) && nx > 0 && Tabulated(roots, me, nx, table)
    requires k < |roots| && Contains(roots[k].box, p)
    requires var l := LeafOf(roots[k].tree, roots[k].box, p); l.Leaf? && l.rank == me
    ensures LeafOf(roots[k].tree, roots[k].box, p).lid < |table|
    ensures Locates(table[LeafOf(roots[k].tree, roots[k].box, p).lid], nx, LeafBox(roots[k].box, PathOf(roots[k].tree, roots[k].box, p)).size, p)
  {
    var t, b := roots[k].tree, roots[k].box;
    hide Contains, Ordered, Locates, GeometryOf, LeafBox, PathOf;
    var path := PathOf(t, b, p);
    LeafOfIsAtPath(t, b, p);
    OneLeaf(t, b, p, path);
    LeafBoxPositive(b, path);
    BoxLocates(LeafBox(b, path), nx, p);
  }
}
