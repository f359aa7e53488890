/** The two edges inside a coarse-fine face, as the face iterator registers them from its tables. */
module VirtualEdges {
  import opened Arithmetic
  import opened Grid
  import opened HangingFaces
  import opened EdgeKeys
  import opened EmfLines
  import opened EmfEdges
  import opened EmfCorrection

  /** The two axes other than d, in ascending order. */
  function OtherDirs(d: nat): seq<nat> {
    if d == 0 then [1, 2] else if d == 1 then [0, 2] else [0, 1]
  }

  /** For each coarse face, an edge along each in-face axis. */
  function FaceCoarseEdges(f: nat): seq<nat> {
    match f
    case 0 => [4, 8]
    case 1 => [5, 9]
    case 2 => [0, 8]
    case 3 => [1, 10]
    case 4 => [0, 4]
    case _ => [2, 6]
  }

  /** The four edges of each face. */
  function FaceEdges(f: nat): seq<nat> {
    match f
    case 0 => [8, 10, 4, 6]
    case 1 => [9, 11, 5, 7]
    case 2 => [8, 9, 0, 2]
    case 3 => [10, 11, 1, 3]
    case 4 => [4, 5, 0, 1]
    case _ => [6, 7, 2, 3]
  }

  /** The coarse side of the edge along in-face axis idir. */
  function CoarseSide(coarse: FaceRef, idir: nat): GlobalSide
    requires idir < 2
  {
    var fdir := coarse.f / 2;
    var edgeDir := OtherDirs(fdir)[idir];
    GlobalSide(false, FaceCoarseEdges(coarse.f)[idir], [coarse.q], fdir == OtherDirs(edgeDir)[1], fdir == OtherDirs(edgeDir)[0])
  }

  /** The fine side below (iside = 0) or above the edge, with its two children in ascending order along it. */
  function FineSide(h: HangingFace, idir: nat, iside: nat): GlobalSide
    requires idir < 2 && iside < 2 && |h.fine| == 4
  {
    var first, second := if idir == 0 then 2 * iside else iside, if idir == 0 then 1 + 2 * iside else iside + 2;
    GlobalSide(true, FaceEdges(h.fine[0].f)[2 * (if idir == 0 then 1 else 0) + (if iside == 0 then 1 else 0)],
               [h.fine[first].q, h.fine[second].q], false, false)
  }

  /** The edge along in-face axis idir: the coarse side first, then the two fine ones. */
  function VirtualEdge(h: HangingFace, idir: nat): Edge
    requires idir < 2 && |h.fine| == 4
  {
    [CoarseSide(h.coarse, idir), FineSide(h, idir, 0), FineSide(h, idir, 1)]
  }

  /** The registered coarse side is the middle line of the coarse face. */
  lemma CoarseSideIsMiddle(e: Extents, coarse: FaceRef, idir: nat)
    requires coarse.f < 6 && idir < 2
    ensures MendLine(e, true, CoarseSide(coarse, idir), 0) == FaceLine(e, coarse, idir, e.nx / 2)
  {
  }

  /** The edge it is named after is the lower one of the two edges of the face along that axis. */
  lemma CoarseEdgeIsLower(e: Extents, coarse: FaceRef, idir: nat)
    requires coarse.f < 6 && idir < 2
    ensures EdgeLine(e, CoarseSide(coarse, idir).edge, coarse.q) == FaceLine(e, coarse, idir, 0)
  {
  }

  /** The registered fine lines are the rims of the fine faces that meet at the middle:
      the upper rim of the children below it, the lower rim of those above. */
  lemma FineSideIsRim(e: Extents, h: HangingFace, idir: nat, iside: nat, t: nat)
    requires h.coarse.f < 6 && |h.fine| == 4 && (forall n | 0 <= n < 4 :: h.fine[n].f == Opposite(h.coarse.f)) && idir < 2 && iside < 2 && t < 2
    ensures var c := if idir == 0 then t + 2 * iside else iside + 2 * t;
      && HalfAlong(idir, c) == t && HalfAcross(idir, c) == iside
      && MendLine(e, true, FineSide(h, idir, iside), t) == FaceLine(e, h.fine[c], idir, Rim(e, 1 - iside))
  {
    assert Rim(e, 0) == 0 && Rim(e, 1) == e.nx;
  }

  lemma ChildOfHalves(comp: nat, c: nat)
    requires comp < 2 && c < 4
    ensures HalfAlong(comp, c) < 2 && HalfAcross(comp, c) < 2
    ensures c == if comp == 0 then HalfAlong(comp, c) + 2 * HalfAcross(comp, c) else HalfAcross(comp, c) + 2 * HalfAlong(comp, c)
  {
  }

  lemma SpecialUnique(e: Extents, k: nat, m: nat)
    requires e.Valid() && Special(e, k) == Special(e, m)
    ensures k == m
  {
    var d := k - m;
    assert d * (e.nx / 2) == 0;
    MultipleIsLarge(d, e.nx / 2);
  }

  /** So the registered edge joins the middle line with all four fine lines along it. */
  lemma VirtualEdgeJoins(e: Extents, h: HangingFace, comp: nat)
    requires e.Valid() && comp < 2 && h.coarse.f < 6 && |h.fine| == 4 && forall n | 0 <= n < 4 :: h.fine[n].f == Opposite(h.coarse.f)
    ensures Joins(e, VirtualEdge(h, comp), h, comp, Special(e, 1))
  {
    var D := VirtualEdge(h, comp);
    CoarseSideIsMiddle(e, h.coarse, comp);
    assert Special(e, 1) == e.nx / 2;
    assert D[0] in D && D[1] in D && D[2] in D;
    forall c, up | 0 <= c < 4 && 0 <= up < 2 && Special(e, HalfAcross(comp, c) + up) == Special(e, 1)
      ensures exists s :: s in D && s.isFine && |s.quads| == 2 && MendLine(e, true, s, HalfAlong(comp, c)) == FaceLine(e, h.fine[c], comp, Rim(e, up))
    {
      SpecialUnique(e, HalfAcross(comp, c) + up, 1);
      ChildOfHalves(comp, c);
      var iside, t := HalfAcross(comp, c), HalfAlong(comp, c);
      FineSideIsRim(e, h, comp, iside, t);
      var s := D[1 + iside];
      hide MendLine, FaceLine, FineSide, CoarseSide;
      assert s in D && s.isFine && |s.quads| == 2;
    }
  }
}
