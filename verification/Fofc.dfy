/** First-order flux correction: cells that would leave the admissible set tag their six
    faces, and concurrent threads compact the tagged faces into one list per direction. */
module Fofc {
  import opened Arithmetic
  import opened Grid
  import FluxUpdate

  datatype Cell = Cell(i: int, j: int, k: int, q: int)

  /** The lower face of cell (i, j, k) in direction d. */
  datatype Face = Face(i: int, j: int, k: int, d: int, q: int)

  /** The cells that are tested: one ghost layer more than the interior. */
  ghost predicate FlagRange(e: Extents, nq: nat, c: Cell) {
    && e.ngz - 1 <= c.i <= e.nx + e.ngz && e.ngz - 1 <= c.j <= e.nx + e.ngz && e.ngz - 1 <= c.k <= e.nx + e.ngz && 0 <= c.q < nq
  }

  function UpperCell(f: Face): Cell { Cell(f.i, f.j, f.k, f.q) }

  function LowerCell(f: Face): Cell {
    Cell(if f.d == 0 then f.i - 1 else f.i, if f.d == 1 then f.j - 1 else f.j, if f.d == 2 then f.k - 1 else f.k, f.q)
  }

  ghost predicate Touches(c: Cell, f: Face) { c == UpperCell(f) || c == LowerCell(f) }

  ghost predicate TagShape(e: Extents, nq: nat, tags: array5<bv32>) {
    && tags.Length0 == e.nx + 1 + 2 * e.ngz && tags.Length1 == tags.Length0 && tags.Length2 == tags.Length0 && tags.Length3 == 3 && tags.Length4 == nq
  }

  ghost predicate InTags(tags: array5<bv32>, f: Face) {
    && 0 <= f.i < tags.Length0 && 0 <= f.j < tags.Length1 && 0 <= f.k < tags.Length2 && 0 <= f.d < tags.Length3 && 0 <= f.q < tags.Length4
  }

  /** Which faces have a bit set. */
  ghost function Tagged(tags: array5<bv32>): (t: Face -> bool)
    reads tags
    ensures forall f | InTags(tags, f) :: t(f) == (tags[f.i, f.j, f.k, f.d, f.q] != 0)
  {
    var m := iset f: Face | InTags(tags, f) && tags[f.i, f.j, f.k, f.d, f.q] != 0;
    f => f in m
  }

  /** Or some bits into one tag: the face is tagged now, and no other face changes. */
  method OrAt(tags: array5<bv32>, f: Face, bits: bv32)
    requires InTags(tags, f) && bits != 0
    modifies tags
    ensures forall g | InTags(tags, g) :: Tagged(tags)(g) == (old(Tagged(tags))(g) || g == f)
  {
    var was := tags[f.i, f.j, f.k, f.d, f.q];
    OrNonZero(was, bits);
    tags[f.i, f.j, f.k, f.d, f.q] := was | bits;
  }

  lemma OrNonZero(a: bv32, b: bv32)
    ensures a | b != 0 <==> a != 0 || b != 0
  {
  }

  /** A flagged cell tags its six faces. */
  method TagFaces(e: Extents, nq: nat, tags: array5<bv32>, c: Cell, bits: bv32)
    requires e.ngz > 0 && TagShape(e, nq, tags) && FlagRange(e, nq, c) && bits != 0
    modifies tags
    ensures forall f | InTags(tags, f) :: Tagged(tags)(f) == (old(Tagged(tags))(f) || Touches(c, f))
  {
    hide Tagged;
    OrAt(tags, Face(c.i, c.j, c.k, 0, c.q), bits);
    OrAt(tags, Face(c.i + 1, c.j, c.k, 0, c.q), bits);
    OrAt(tags, Face(c.i, c.j, c.k, 1, c.q), bits);
    OrAt(tags, Face(c.i, c.j + 1, c.k, 1, c.q), bits);
    OrAt(tags, Face(c.i, c.j, c.k, 2, c.q), bits);
    OrAt(tags, Face(c.i, c.j, c.k + 1, 2, c.q), bits);
  }

  /** The tagging kernel: flag(c) has a bit for every reason to correct cell c. Cells are
      visited in an arbitrary order; only which faces end up with a bit is observed. */
  method FlagCells(e: Extents, nq: nat, flag: Cell -> bv32, tags: array5<bv32>, order: seq<Cell>)
    requires e.ngz > 0 && TagShape(e, nq, tags) && Schedule(order, (c: Cell) => FlagRange(e, nq, c))
    requires forall f | InTags(tags, f) :: !Tagged(tags)(f)
    modifies tags
    ensures forall f | InTags(tags, f) :: Tagged(tags)(f) <==> exists c :: FlagRange(e, nq, c) && flag(c) != 0 && Touches(c, f)
  {
    hide Tagged, Touches;
    ghost var P := (c: Cell) => FlagRange(e, nq, c);
    for n := 0 to |order|
      invariant forall f | InTags(tags, f) :: Tagged(tags)(f) <==> exists c :: c in order[..n] && flag(c) != 0 && Touches(c, f)
    {
      var c := order[n];
      ScheduleStep(order, P, n);
      ghost var t := Tagged(tags);
      if flag(c) != 0 { TagFaces(e, nq, tags, c, flag(c)); }
      forall f | InTags(tags, f) ensures Tagged(tags)(f) <==> exists c :: c in order[..n + 1] && flag(c) != 0 && Touches(c, f) {
        assert Tagged(tags)(f) <==> t(f) || (flag(c) != 0 && Touches(c, f));
      }
    }
    assert order[..|order|] == order;
    assert forall c :: c in order <==> P(c);
  }

  /** The faces of direction d that the flux update may use. */
  ghost predicate PushRange(e: Extents, nq: nat, d: int, f: Face) {
    && f.d == d && FlagRange(e, nq, UpperCell(f))
    && (d == 0 ==> f.i >= e.ngz) && (d == 1 ==> f.j >= e.ngz) && (d == 2 ==> f.k >= e.ngz)
  }

  ghost predicate Near(c: Cell, x: FluxUpdate.CellItem) {
    -1 <= c.i - x.i <= 1 && -1 <= c.j - x.j <= 1 && -1 <= c.k - x.k <= 1 && c.q == x.q
  }

  /** The tested cells are exactly the cells that the flux update advances and those next to them, diagonals included. */
  lemma TestedIffNearUpdated(e: Extents, nq: nat, c: Cell)
    requires e.nx > 0
    ensures FlagRange(e, nq, c) <==> exists x :: FluxUpdate.Interior(e, nq)(x) && Near(c, x)
  {
    if FlagRange(e, nq, c) {
      var x := FluxUpdate.CellItem(Inside(e, c.i), Inside(e, c.j), Inside(e, c.k), c.q);
      assert FluxUpdate.Interior(e, nq)(x) && Near(c, x);
    }
  }

  /** The interior index next to i. */
  ghost function Inside(e: Extents, i: int): int { if i < e.ngz then e.ngz else if i >= e.ngz + e.nx then e.ngz + e.nx - 1 else i }

  /** The faces of the compaction range are exactly those between two tested cells. */
  lemma PushedIffBothTested(e: Extents, nq: nat, d: int, f: Face)
    requires 0 <= d < 3
    ensures PushRange(e, nq, d, f) <==> f.d == d && FlagRange(e, nq, LowerCell(f)) && FlagRange(e, nq, UpperCell(f))
  {
  }

  /** So every face whose flux the update of a cell reads is in the range: Net reads these two along d. */
  lemma UpdateFacesPushed(e: Extents, nq: nat, x: FluxUpdate.CellItem, d: int)
    requires FluxUpdate.Interior(e, nq)(x) && 0 <= d < 3
    ensures PushRange(e, nq, d, Face(x.i, x.j, x.k, d, x.q))
    ensures PushRange(e, nq, d, Face(if d == 0 then x.i + 1 else x.i, if d == 1 then x.j + 1 else x.j, if d == 2 then x.k + 1 else x.k, d, x.q))
  {
    var c := Cell(x.i, x.j, x.k, x.q);
    PushedIffBothTested(e, nq, d, Face(x.i, x.j, x.k, d, x.q));
    assert Near(c, x);
    TestedIffNearUpdated(e, nq, c);
  }

  /** A face of the update range is tagged exactly when one of its two cells is flagged. */
  lemma TaggedIffAdjacentFlagged(e: Extents, nq: nat, flag: Cell -> bv32, d: int, f: Face)
    requires PushRange(e, nq, d, f) && 0 <= d < 3
    ensures (exists c :: FlagRange(e, nq, c) && flag(c) != 0 && Touches(c, f)) <==> flag(LowerCell(f)) != 0 || flag(UpperCell(f)) != 0
  {
    assert FlagRange(e, nq, LowerCell(f)) && Touches(LowerCell(f), f) && Touches(UpperCell(f), f);
  }

  datatype Offset = Offset(i: int, j: int, k: int)

  function Shift(c: Cell, o: Offset): Cell { Cell(c.i + o.i, c.j + o.j, c.k + o.k, c.q) }

  /** The states around cell c, by offset from it. */
  ghost function Around<S>(U: Cell -> S, c: Cell): (v: Offset -> S)
    ensures forall o :: v(o) == U(Shift(c, o))
  {
    o => U(Shift(c, o))
  }

  ghost predicate InReach(reach: nat, o: Offset) { 0 - reach <= o.i <= reach && 0 - reach <= o.j <= reach && 0 - reach <= o.k <= reach }

  /** The cell test looks at states at most reach cells away along each axis: reconstruction, fluxes, the
      tentative update and the inversion are the same deterministic function of them everywhere. */
  ghost predicate Local<S(!new)>(bad: (Offset -> S) -> bv32, reach: nat) {
    forall v: Offset -> S, w: Offset -> S | (forall o | InReach(reach, o) :: v(o) == w(o)) :: bad(v) == bad(w)
  }

  /** Quadrant p of the rank with states U and quadrant q of the rank with states V (the same rank or another) hold the
      same states where their arrays overlap: the upper side of p in direction d lies against the lower side of q, and
      each has ngz layers of the other in its ghost zones. */
  ghost predicate Mirrored<S(!new)>(e: Extents, U: Cell -> S, V: Cell -> S, d: int, p: int, q: int) {
    forall s, a, b | 0 - e.ngz <= s < e.ngz && 0 - e.ngz <= a < e.nx + e.ngz && 0 - e.ngz <= b < e.nx + e.ngz ::
      U(SideCell(e, d, e.nx + s, a, b, p)) == V(SideCell(e, d, s, a, b, q))
  }

  /** The same test gives the same flag for the two copies of a cell beside the common face. */
  lemma MirroredFlag<S(!new)>(e: Extents, U: Cell -> S, V: Cell -> S, bad: (Offset -> S) -> bv32, reach: nat, d: int, p: int, q: int, s: int, a: int, b: int)
    requires 0 <= d < 3 && Local(bad, reach) && reach + 1 <= e.ngz && Mirrored(e, U, V, d, p, q)
    requires -1 <= s <= 0 && -1 <= a <= e.nx && -1 <= b <= e.nx
    ensures bad(Around(U, SideCell(e, d, e.nx + s, a, b, p))) == bad(Around(V, SideCell(e, d, s, a, b, q)))
  {
    var v, w := Around(U, SideCell(e, d, e.nx + s, a, b, p)), Around(V, SideCell(e, d, s, a, b, q));
    forall o | InReach(reach, o) ensures v(o) == w(o) {
      SideShift(e, d, e.nx + s, a, b, p, o);
      SideShift(e, d, s, a, b, q, o);
      var so, ao, bo := if d == 0 then o.i else if d == 1 then o.j else o.k, if d == 0 then o.j else o.i, if d == 2 then o.j else o.k;
      hide SideCell;
      assert U(SideCell(e, d, e.nx + (s + so), a + ao, b + bo, p)) == V(SideCell(e, d, s + so, a + ao, b + bo, q));
    }
  }

  lemma SideShift(e: Extents, d: int, s: int, a: int, b: int, q: int, o: Offset)
    requires 0 <= d < 3
    ensures Shift(SideCell(e, d, s, a, b, q), o)
         == SideCell(e, d, s + (if d == 0 then o.i else if d == 1 then o.j else o.k), a + (if d == 0 then o.j else o.i), b + (if d == 2 then o.j else o.k), q)
  {
  }

  /** The flag of each cell of a rank: the cell test on the states around it. */
  ghost function FlagOf<S>(bad: (Offset -> S) -> bv32, U: Cell -> S): (flag: Cell -> bv32)
    ensures forall c :: flag(c) == bad(Around(U, c))
  {
    c => bad(Around(U, c))
  }

  /** Two quadrants of one level with mirror-consistent ghosts select the same shared faces. */
  lemma SharedFacesAgree<S(!new)>(e: Extents, U: Cell -> S, V: Cell -> S, bad: (Offset -> S) -> bv32, reach: nat, d: int, p: int, q: int, a: int, b: int)
    requires 0 <= d < 3 && Local(bad, reach) && reach + 1 <= e.ngz && Mirrored(e, U, V, d, p, q)
    requires -1 <= a <= e.nx && -1 <= b <= e.nx
    ensures var f, g := SideFace(e, d, e.nx, a, b, p), SideFace(e, d, 0, a, b, q);
      (FlagOf(bad, U)(LowerCell(f)) != 0 || FlagOf(bad, U)(UpperCell(f)) != 0) <==> (FlagOf(bad, V)(LowerCell(g)) != 0 || FlagOf(bad, V)(UpperCell(g)) != 0)
  {
    MirroredFlag(e, U, V, bad, reach, d, p, q, -1, a, b);
    MirroredFlag(e, U, V, bad, reach, d, p, q, 0, a, b);
    assert SideCell(e, d, e.nx + -1, a, b, p) == LowerCell(SideFace(e, d, e.nx, a, b, p));
    assert SideCell(e, d, -1, a, b, q) == LowerCell(SideFace(e, d, 0, a, b, q));
    assert SideCell(e, d, e.nx + 0, a, b, p) == UpperCell(SideFace(e, d, e.nx, a, b, p));
    assert SideCell(e, d, 0, a, b, q) == UpperCell(SideFace(e, d, 0, a, b, q));
  }

  /** The cell at depth s along direction d and transverse offsets a, b. */
  function SideCell(e: Extents, d: int, s: int, a: int, b: int, q: int): Cell {
    if d == 0 then Cell(e.ngz + s, e.ngz + a, e.ngz + b, q)
    else if d == 1 then Cell(e.ngz + a, e.ngz + s, e.ngz + b, q)
    else Cell(e.ngz + a, e.ngz + b, e.ngz + s, q)
  }

  function SideFace(e: Extents, d: int, s: int, a: int, b: int, q: int): Face {
    var c := SideCell(e, d, s, a, b, q);
    Face(c.i, c.j, c.k, d, c.q)
  }
}
