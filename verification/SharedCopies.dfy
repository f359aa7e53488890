/** Edges without fine sides and same-level faces: after the four EMF kernels all copies of a shared line
    hold one value on all ranks, so the normal field stays equal on both sides of a same-level face. */
module SharedCopies {
  import opened Arithmetic
  import opened Grid
  import opened ConstrainedTransport
  import opened FullFaces
  import opened EdgeKeys
  import opened EmfLines
  import opened EmfFaces
  import opened EmfFullFaces
  import opened EmfEdges
  import opened EmfCorrection

  // ---- edges without fine sides ----

  /** A line of a side that takes part is an edge of its quadrant. */
  lemma UniformLine(e: Extents, nq: nat, M: Mesh, D: Edge, s: GlobalSide)
    requires Edges(e, nq, M) && D in M.uniform && s in D
    ensures SideReady(nq, false, s) && !s.isFine && |s.quads| == 1 && s.quads[0] < nq
    ensures var l := EdgeLine(e, s.edge, s.quads[0]);
      && MendLine(e, false, s, 0) == l && EdgeOf(e, l) && l.q == s.quads[0] && l.d < 3
      && forall D', s', c' | D' in M.edges && s' in D' && 0 <= c' < |s'.quads| :: l != MendLine(e, true, s', c')
  {
    SideIsReady(e, nq, false, M.uniform, D, s);
    EdgeLineIsEdge(e, s.edge, s.quads[0]);
    assert MendLine(e, false, s, 0) == EdgeLine(e, s.edge, s.quads[0]);
  }

  /** The first three kernels leave the lines of edges without fine sides alone. */
  lemma UniformKept(e: Extents, nq: nat, owner: nat -> nat, o: nat, M: Mesh, W: EmfWorld, D: Edge, s: GlobalSide, i: nat)
    requires e.Valid() && FacesOnce(nq, M) && Edges(e, nq, M) && RankRan(e, nq, owner, o, M, W)
    requires D in M.uniform && s in D && i < e.nx
    ensures |s.quads| == 1
    ensures var x := At(e, EdgeLine(e, s.edge, s.quads[0]), i); W.E3(o)(x) == W.E0(o)(x)
  {
    UniformLine(e, nq, M, D, s);
    var l := EdgeLine(e, s.edge, s.quads[0]);
    ListsReady(e, nq, owner, o, M, W);
    EdgeInGrid(e, nq, l, i);
    assert Mended(e, nq, true, owner, o, W.C(o), W.edges(o), W.E2(o), W.E3(o), W.mends(o));
    hide At, EdgeLine, MendLine, Mended, FacesOnce, Edges, RankRan, InGrid, EdgeOf;
    EdgeKeptByFaces(e, nq, owner, o, M, W, l, i);
    EdgesListed(e, nq, owner, o, M, W);
    MendedElsewhere(e, nq, true, owner, o, W.C(o), W.edges(o), W.E2(o), W.E3(o), W.mends(o), l, i);
  }

  lemma EdgesListed(e: Extents, nq: nat, owner: nat -> nat, o: nat, M: Mesh, W: EmfWorld)
    requires e.Valid() && (forall h | h in M.hanging :: |h.fine| == 4) && RankRan(e, nq, owner, o, M, W)
    ensures forall D | D in W.edges(o) :: D in M.edges
  {
  }

  /** The correction of rank o for the edge in its list at iq: the original value of the smallest side. */
  lemma UniformCorrection(e: Extents, nq: nat, owner: nat -> nat, o: nat, M: Mesh, W: EmfWorld, D: Edge, iq: nat, n: nat, i: nat)
    requires e.Valid() && FacesOnce(nq, M) && Edges(e, nq, M) && RankRan(e, nq, owner, o, M, W) && Delivered(e, owner, o, M, W)
    requires D in M.uniform && iq < |W.uniform(o)| && W.uniform(o)[iq] == D && n < |D| && Smallest(false, D, n) && i < e.nx
    ensures |D[n].quads| == 1 && W.D(o)(i, 0, iq) == Owned(owner, W.E0)(At(e, EdgeLine(e, D[n].edge, D[n].quads[0]), i))
  {
    var s := D[n];
    UniformLine(e, nq, M, D, s);
    UniformKept(e, nq, owner, o, M, W, D, s, i);
    var q, l := s.quads[0], EdgeLine(e, s.edge, s.quads[0]);
    assert D in W.uniform(o) && Concerns(owner, o, D) && q in s.quads;
    assert EdgesDelivered(e, owner, o, false, M.uniform, W.E0, W.recvU(o));
    assert owner(q) != o ==> W.recvU(o)(q, s.edge, i) == Owned(owner, W.E0)(At(e, l, i));
    assert EdgeRan(e, nq, owner, o, false, W.recvU(o), W.uniform(o), W.D(o), W.E3(o), W.E4(o), W.mends2(o));
    hide At, EdgeLine, MendLine, Mended, FacesOnce, Edges, RankRan, InGrid, EdgeOf, Delivered, Concerns, SideReady;
    assert Chosen(e, W.E3(o), owner, o, W.recvU(o), false, D, i, W.D(o)(i, 0, iq), W.D(o)(i, 1, iq));
    LineOwner(e, owner, W.E0, l, i);
  }

  /** The owner of an octant of D lists D and writes the octant's line. */
  lemma UniformWritten(e: Extents, nq: nat, owner: nat -> nat, M: Mesh, W: EmfWorld, D: Edge, s: GlobalSide, i: nat) returns (iq: nat)
    requires e.Valid() && D in M.uniform && s in D && |s.quads| == 1 && !s.isFine && i < e.nx && forall h | h in M.hanging :: |h.fine| == 4
    requires RankRan(e, nq, owner, owner(s.quads[0]), M, W)
    ensures var o := owner(s.quads[0]);
      && iq < |W.uniform(o)| && W.uniform(o)[iq] == D
      && W.E4(o)(At(e, MendLine(e, false, s, 0), i)) == W.D(o)(i, 0, iq)
  {
    var o := owner(s.quads[0]);
    assert s.quads[0] in s.quads;
    assert D in W.uniform(o);
    iq :| 0 <= iq < |W.uniform(o)| && W.uniform(o)[iq] == D;
    var t :| 0 <= t < |D| && D[t] == s;
    assert Mended(e, nq, false, owner, o, W.D(o), W.uniform(o), W.E3(o), W.E4(o), W.mends2(o)) && Mend(i, iq, t, 0) in W.mends2(o);
    hide RankRan, At, MendLine;
  }

  /** Every copy of the line of an edge without fine sides, on every rank, ends as the original EMF of the side of smallest id. */
  lemma UniformEdgeValue(e: Extents, nq: nat, owner: nat -> nat, nproc: nat, M: Mesh, W: EmfWorld, D: Edge, n: nat, s: GlobalSide, i: nat)
    requires e.Valid() && FacesOnce(nq, M) && Edges(e, nq, M) && AllRan(e, nq, owner, nproc, M, W)
    requires D in M.uniform && n < |D| && Smallest(false, D, n) && s in D && i < e.nx
    ensures |D[n].quads| == 1 && |s.quads| == 1
    ensures Owned(owner, W.E4)(At(e, EdgeLine(e, s.edge, s.quads[0]), i))
         == Owned(owner, W.E0)(At(e, EdgeLine(e, D[n].edge, D[n].quads[0]), i))
  {
    UniformLine(e, nq, M, D, s);
    var o := owner(s.quads[0]);
    assert RankRan(e, nq, owner, o, M, W) && Delivered(e, owner, o, M, W);
    hide *;
    var iq := UniformWritten(e, nq, owner, M, W, D, s, i);
    UniformCorrection(e, nq, owner, o, M, W, D, iq, n, i);
    LineOwner(e, owner, W.E4, EdgeLine(e, s.edge, s.quads[0]), i);
  }

  // ---- lines strictly inside a same-level face ----

  /** The first kernel leaves same-level faces alone. */
  lemma FullUnfixed(e: Extents, nq: nat, owner: nat -> nat, o: nat, M: Mesh, W: EmfWorld, k: FullFace, s: nat, comp: nat, along: nat, off: nat)
    requires e.Valid() && FacesOnce(nq, M) && Edges(e, nq, M) && RankRan(e, nq, owner, o, M, W)
    requires k in M.full && s < 2 && comp < 2 && along < e.nx && 0 < off < e.nx
    ensures OnLine(e, W.E1(o), k.Side(s), comp, along, off) == OnLine(e, W.E0(o), k.Side(s), comp, along, off)
  {
    var r := k.Side(s);
    var l := FaceLine(e, r, comp, off);
    assert r.f < 6 && r.q < nq;
    LineInGrid(e, nq, r, comp, off, along);
    AxisBound(e, r, comp, off);
    ListsReady(e, nq, owner, o, M, W);
    assert Fixed(e, nq, owner, o, W.recvF(o), W.faces(o), W.E0(o), W.E1(o), W.fixes(o));
    hide Fixed, FaceLine, At, RankRan, Edges, InGrid;
    forall g, comp', off' | g in W.faces(o) && 0 <= comp' < 2 && 0 < off' < e.nx && off' != e.nx / 2 ensures l != FaceLine(e, g.coarse, comp', off') {
      assert g in M.hanging && g.coarse.f < 6 && r != g.coarse;
      if l == FaceLine(e, g.coarse, comp', off') { FaceLineUnique(e, r, comp, off, g.coarse, comp', off'); }
    }
    FixedElsewhere(e, nq, owner, o, W.recvF(o), W.faces(o), W.E0(o), W.E1(o), W.fixes(o), l, along);
  }

  ghost function FullMean(e: Extents, E: EmfField, k: FullFace, comp: nat, along: nat, off: nat): real {
    (OnLine(e, E, k.Side(0), comp, along, off) + OnLine(e, E, k.Side(1), comp, along, off)) * 0.5
  }

  lemma OwnedOnLine(e: Extents, owner: nat -> nat, F: nat -> EmfField, r: FaceRef, comp: nat, along: nat, off: nat)
    ensures OnLine(e, Owned(owner, F), r, comp, along, off) == OnLine(e, F(owner(r.q)), r, comp, along, off)
  {
    hide At, FaceLine;
    FaceLineQuad(e, r, comp, off);
    LineOwner(e, owner, F, FaceLine(e, r, comp, off), along);
  }

  /** What a rank that owns a side sees of side t is the owner's original value. */
  lemma SideSeen(e: Extents, nq: nat, owner: nat -> nat, o: nat, M: Mesh, W: EmfWorld, k: FullFace, t: nat, comp: nat, along: nat, off: nat)
    requires e.Valid() && FacesOnce(nq, M) && Edges(e, nq, M) && RankRan(e, nq, owner, o, M, W) && Delivered(e, owner, o, M, W)
    requires k in M.full && t < 2 && comp < 2 && along < e.nx && 0 < off < e.nx && (owner(k.lower.q) == o || owner(k.upper.q) == o)
    ensures var i, j := if comp == 0 then along else off, if comp == 0 then off else along;
      SideEmf(e, W.E1(o), owner, o, W.recvS(o), k.Side(t), comp, i, j) == OnLine(e, Owned(owner, W.E0), k.Side(t), comp, along, off)
  {
    var i, j := if comp == 0 then along else off, if comp == 0 then off else along;
    assert FullDelivered(e, owner, o, M, W);
    assert FullValue(e, Owned(owner, W.E0), k.Side(t), comp, i, j) == OnLine(e, Owned(owner, W.E0), k.Side(t), comp, along, off);
    hide RankRan, Delivered, FacesOnce, Edges, OnLine;
    OwnedOnLine(e, owner, W.E0, k.Side(t), comp, along, off);
    if owner(k.Side(t).q) == o {
      FullUnfixed(e, nq, owner, o, M, W, k, t, comp, along, off);
    } else {
      assert owner(k.Side(1 - t).q) == o;
    }
  }

  /** The owner of a side lists the face and stores the mean of what it sees. */
  lemma FullAveraged(e: Extents, nq: nat, owner: nat -> nat, M: Mesh, W: EmfWorld, k: FullFace, s: nat, comp: nat, along: nat, off: nat)
    requires e.Valid() && k in M.full && s < 2 && comp < 2 && along < e.nx && 0 < off < e.nx && forall h | h in M.hanging :: |h.fine| == 4
    requires RankRan(e, nq, owner, owner(k.Side(s).q), M, W)
    ensures var o, i, j := owner(k.Side(s).q), if comp == 0 then along else off, if comp == 0 then off else along;
      W.E2(o)(At(e, FaceLine(e, k.Side(s), comp, off), along)) == AvgValue(e, W.E1(o), owner, o, W.recvS(o), k, comp, i, j)
  {
    var o := owner(k.Side(s).q);
    assert k in W.full(o);
    var iq :| 0 <= iq < |W.full(o)| && W.full(o)[iq] == k;
    var z := Avg(if comp == 0 then along else off, if comp == 0 then off else along, s, comp, iq);
    assert AvgRange(e, owner, o, W.full(o), z) && z in W.avgs(o);
    assert Averaged(e, nq, owner, o, W.recvS(o), W.full(o), W.E1(o), W.E2(o), W.avgs(o));
    hide RankRan, FaceLine, At, AvgValue;
  }

  /** Both copies of every line strictly inside a same-level face end as the mean of the two original ones, on whatever ranks. */
  lemma FullFaceValue(e: Extents, nq: nat, owner: nat -> nat, nproc: nat, M: Mesh, W: EmfWorld, k: FullFace, s: nat, comp: nat, along: nat, off: nat)
    requires e.Valid() && FacesOnce(nq, M) && Edges(e, nq, M) && AllRan(e, nq, owner, nproc, M, W)
    requires k in M.full && s < 2 && comp < 2 && along < e.nx && 0 < off < e.nx
    ensures OnLine(e, Owned(owner, W.E4), k.Side(s), comp, along, off) == FullMean(e, Owned(owner, W.E0), k, comp, along, off)
  {
    var o, r := owner(k.Side(s).q), k.Side(s);
    assert r.f < 6 && r.q < nq && RankRan(e, nq, owner, o, M, W) && Delivered(e, owner, o, M, W);
    assert forall h | h in M.hanging :: h.coarse != r;
    hide RankRan, Delivered, FacesOnce, Edges, OnLine, SideEmf;
    OwnedOnLine(e, owner, W.E4, r, comp, along, off);
    InsideKeptByEdges(e, nq, owner, o, M, W, r, comp, off, along);
    FullAveraged(e, nq, owner, M, W, k, s, comp, along, off);
    OnLineIs(e, W.E4(o), r, comp, along, off);
    SideSeen(e, nq, owner, o, M, W, k, 0, comp, along, off);
    SideSeen(e, nq, owner, o, M, W, k, 1, comp, along, off);
  }

  // ---- the whole face ----

  /** Rim line up of component comp of face k belongs to one edge, where both sides stand alike. */
  ghost predicate RimShared(e: Extents, M: Mesh, k: FullFace, comp: nat, up: nat) {
    exists fine, D, s, t, c ::
      && D in (if fine then M.edges else M.uniform) && s in D && t in D && s.isFine == t.isFine && 0 <= c < |s.quads| && c < |t.quads|
      && MendLine(e, fine, s, c) == FaceLine(e, k.Side(0), comp, Rim(e, up)) && MendLine(e, fine, t, c) == FaceLine(e, k.Side(1), comp, Rim(e, up))
  }

  /** The rim lines of every same-level face are edges of the grid. */
  ghost predicate RimsCover(e: Extents, M: Mesh) {
    forall k, comp, up | k in M.full && 0 <= comp < 2 && 0 <= up < 2 :: RimShared(e, M, k, comp, up)
  }

  /** Two sides that stand alike in an edge with fine sides end with equal values, ... */
  lemma FineSidesAgree(e: Extents, nq: nat, owner: nat -> nat, nproc: nat, M: Mesh, W: EmfWorld, D: Edge, s: GlobalSide, t: GlobalSide, c: nat, i: nat)
    requires e.Valid() && FacesOnce(nq, M) && Edges(e, nq, M) && AllRan(e, nq, owner, nproc, M, W) && i < e.nx
    requires D in M.edges && DistinctIds(true, D) && s in D && t in D && s.isFine == t.isFine && c < |s.quads| && c < |t.quads|
    ensures Owned(owner, W.E4)(At(e, MendLine(e, true, s, c), i)) == Owned(owner, W.E4)(At(e, MendLine(e, true, t, c), i))
  {
    hide *;
    var n := SmallestExists(true, D);
    EdgeValue(e, nq, owner, nproc, M, W, D, n, s, c, i);
    EdgeValue(e, nq, owner, nproc, M, W, D, n, t, c, i);
  }

  /** ... and so do all sides of an edge without any. */
  lemma UniformSidesAgree(e: Extents, nq: nat, owner: nat -> nat, nproc: nat, M: Mesh, W: EmfWorld, D: Edge, s: GlobalSide, t: GlobalSide, i: nat)
    requires e.Valid() && FacesOnce(nq, M) && Edges(e, nq, M) && AllRan(e, nq, owner, nproc, M, W) && i < e.nx
    requires D in M.uniform && DistinctIds(false, D) && s in D && t in D
    ensures |s.quads| == 1 && |t.quads| == 1
    ensures Owned(owner, W.E4)(At(e, MendLine(e, false, s, 0), i)) == Owned(owner, W.E4)(At(e, MendLine(e, false, t, 0), i))
  {
    hide *;
    var n := SmallestExists(false, D);
    UniformLine(e, nq, M, D, s);
    UniformLine(e, nq, M, D, t);
    UniformEdgeValue(e, nq, owner, nproc, M, W, D, n, s, i);
    UniformEdgeValue(e, nq, owner, nproc, M, W, D, n, t, i);
  }

  lemma AlikeSidesAgree(e: Extents, nq: nat, owner: nat -> nat, nproc: nat, M: Mesh, W: EmfWorld, fine: bool, D: Edge, s: GlobalSide, t: GlobalSide, c: nat, i: nat)
    requires e.Valid() && FacesOnce(nq, M) && Edges(e, nq, M) && AllRan(e, nq, owner, nproc, M, W) && i < e.nx
    requires D in (if fine then M.edges else M.uniform) && s in D && t in D && s.isFine == t.isFine && c < |s.quads| && c < |t.quads|
    ensures Owned(owner, W.E4)(At(e, MendLine(e, fine, s, c), i)) == Owned(owner, W.E4)(At(e, MendLine(e, fine, t, c), i))
  {
    assert DistinctIds(fine, D);
    hide *;
    if fine {
      FineSidesAgree(e, nq, owner, nproc, M, W, D, s, t, c, i);
    } else {
      UniformSidesAgree(e, nq, owner, nproc, M, W, D, s, t, i);
    }
  }

  /** Both sides of a same-level face hold the same EMF on every line of the face, rim included. */
  lemma SharedFaceAgrees(e: Extents, nq: nat, owner: nat -> nat, nproc: nat, M: Mesh, W: EmfWorld, k: FullFace, comp: nat, along: nat, off: nat)
    requires e.Valid() && FacesOnce(nq, M) && Edges(e, nq, M) && AllRan(e, nq, owner, nproc, M, W) && RimsCover(e, M)
    requires k in M.full && comp < 2 && along < e.nx && off <= e.nx
    ensures OnLine(e, Owned(owner, W.E4), k.Side(0), comp, along, off) == OnLine(e, Owned(owner, W.E4), k.Side(1), comp, along, off)
  {
    if 0 < off < e.nx {
      hide *;
      FullFaceValue(e, nq, owner, nproc, M, W, k, 0, comp, along, off);
      FullFaceValue(e, nq, owner, nproc, M, W, k, 1, comp, along, off);
    } else {
      var up := if off == 0 then 0 else 1;
      assert off == Rim(e, up) && RimShared(e, M, k, comp, up);
      hide AllRan, FacesOnce, Edges, At, MendLine, FaceLine, RimsCover, Rim;
      var fine, D, s, t, c :|
        && D in (if fine then M.edges else M.uniform) && s in D && t in D && s.isFine == t.isFine && 0 <= c < |s.quads| && c < |t.quads|
        && MendLine(e, fine, s, c) == FaceLine(e, k.Side(0), comp, Rim(e, up)) && MendLine(e, fine, t, c) == FaceLine(e, k.Side(1), comp, Rim(e, up));
      AlikeSidesAgree(e, nq, owner, nproc, M, W, fine, D, s, t, c, along);
    }
  }

  /** Two quadrants of one level, facing each other with cells of one size. */
  ghost predicate FullGeometry(nq: nat, k: FullFace, idx: Spacing) {
    && k.lower.f < 6 && k.upper.f == Opposite(k.lower.f) && k.lower.q < nq && k.upper.q < nq
    && idx(0, k.lower.q) == idx(0, k.upper.q) && idx(1, k.lower.q) == idx(1, k.upper.q) && idx(2, k.lower.q) == idx(2, k.upper.q)
  }

  /** Both quadrants hold the same normal field on their common face. */
  ghost predicate NormalsEqual(e: Extents, B: Stag, k: FullFace) {
    forall a, b | 0 <= a < e.nx && 0 <= b < e.nx :: NormalB(e, B, k.lower, a, b) == NormalB(e, B, k.upper, a, b)
  }

  /** The EMFs agree along every line of the common face. */
  ghost predicate EmfsEqual(e: Extents, E: EmfField, k: FullFace) {
    forall comp, along, off | 0 <= comp < 2 && 0 <= along < e.nx && 0 <= off <= e.nx :: OnLine(e, E, k.lower, comp, along, off) == OnLine(e, E, k.upper, comp, along, off)
  }

  lemma FullAxes(nq: nat, k: FullFace, idx: Spacing)
    requires FullGeometry(nq, k, idx)
    ensures k.upper.f < 6 && k.upper.f / 2 == k.lower.f / 2 && AxisA(k.upper.f) == AxisA(k.lower.f) && AxisB(k.upper.f) == AxisB(k.lower.f)
    ensures idx(AxisA(k.upper.f), k.upper.q) == idx(AxisA(k.lower.f), k.lower.q) && idx(AxisB(k.upper.f), k.upper.q) == idx(AxisB(k.lower.f), k.lower.q)
  {
  }

  /** With equal EMFs on both sides, an update keeps the normal field equal on both sides. */
  lemma NormalsStayEqual(e: Extents, nq: nat, B0: Stag, B1: Stag, E: EmfField, idx: Spacing, w: real, k: FullFace)
    requires FullGeometry(nq, k, idx) && EmfsEqual(e, E, k) && NormalsEqual(e, B0, k) && Transported(e, nq, B0, B1, E, idx, w)
    ensures NormalsEqual(e, B1, k)
  {
    FullAxes(nq, k, idx);
    hide NormalB, OnLine, Transported, AxisA, AxisB;
    forall a, b | 0 <= a < e.nx && 0 <= b < e.nx ensures NormalB(e, B1, k.lower, a, b) == NormalB(e, B1, k.upper, a, b) {
      NormalAdvances(e, nq, B0, B1, E, idx, w, k.lower, a, b);
      NormalAdvances(e, nq, B0, B1, E, idx, w, k.upper, a, b);
      CirculationsEqual(e, E, idx, k, a, b);
    }
  }

  lemma CirculationsEqual(e: Extents, E: EmfField, idx: Spacing, k: FullFace, a: nat, b: nat)
    requires EmfsEqual(e, E, k) && a < e.nx && b < e.nx
    requires idx(AxisA(k.upper.f), k.upper.q) == idx(AxisA(k.lower.f), k.lower.q) && idx(AxisB(k.upper.f), k.upper.q) == idx(AxisB(k.lower.f), k.lower.q)
    ensures FaceCirculation(e, E, idx, k.lower, a, b) == FaceCirculation(e, E, idx, k.upper, a, b)
  {
    hide OnLine, AxisA, AxisB;
  }

  /** After the four kernels on any number of ranks, the update that follows keeps the normal field of a same-level face one field. */
  lemma SharedNormalsStayEqual(e: Extents, nq: nat, owner: nat -> nat, nproc: nat, M: Mesh, W: EmfWorld, B0: Stag, B1: Stag, idx: Spacing, w: real, k: FullFace)
    requires e.Valid() && FacesOnce(nq, M) && Edges(e, nq, M) && AllRan(e, nq, owner, nproc, M, W) && RimsCover(e, M)
    requires k in M.full && FullGeometry(nq, k, idx) && NormalsEqual(e, B0, k) && Transported(e, nq, B0, B1, Owned(owner, W.E4), idx, w)
    ensures NormalsEqual(e, B1, k)
  {
    assert EmfsEqual(e, Owned(owner, W.E4), k) by {
      hide AllRan, FacesOnce, Edges, RimsCover, OnLine, Transported, FullGeometry, NormalsEqual;
      forall comp, along, off | 0 <= comp < 2 && 0 <= along < e.nx && 0 <= off <= e.nx
        ensures OnLine(e, Owned(owner, W.E4), k.lower, comp, along, off) == OnLine(e, Owned(owner, W.E4), k.upper, comp, along, off)
      {
        SharedFaceAgrees(e, nq, owner, nproc, M, W, k, comp, along, off);
      }
    }
    hide *;
    NormalsStayEqual(e, nq, B0, B1, Owned(owner, W.E4), idx, w, k);
  }
}
