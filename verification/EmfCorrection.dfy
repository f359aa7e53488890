/** The four EMF kernels in sequence, on any number of ranks: afterwards the EMFs match
    along every line of every coarse-fine face. */
module EmfCorrection {
  import opened Arithmetic
  import opened Grid
  import opened ConstrainedTransport
  import opened HangingFaces
  import opened FullFaces
  import opened EdgeKeys
  import opened EmfLines
  import opened EmfFaces
  import opened EmfFullFaces
  import opened EmfEdges

  /** The interfaces of the grid in global quadrant numbers: coarse-fine faces, same-level
      faces, edges with fine sides (those inside coarse-fine faces included) and edges without. */
  datatype Mesh = Mesh(hanging: seq<HangingFace>, full: seq<FullFace>, edges: seq<Edge>, uniform: seq<Edge>)

  /** What each rank holds: its EMFs before and after each of the four corrections, its
      interface lists, its two sets of corrections, which writes it did, and what it
      received for each of the four kinds of interface. */
  datatype EmfWorld = EmfWorld(E0: nat -> EmfField, E1: nat -> EmfField, E2: nat -> EmfField, E3: nat -> EmfField, E4: nat -> EmfField,
                         faces: nat -> seq<HangingFace>, full: nat -> seq<FullFace>, edges: nat -> seq<Edge>, uniform: nat -> seq<Edge>,
                         C: nat -> Corrections, D: nat -> Corrections,
                         fixes: nat -> set<Fix>, avgs: nat -> set<Avg>, mends: nat -> set<Mend>, mends2: nat -> set<Mend>,
                         recvF: nat -> Received, recvS: nat -> Received, recvE: nat -> ReceivedEdges, recvU: nat -> ReceivedEdges)

  /** The field made of every quadrant's values on its owner. */
  ghost function Owned(owner: nat -> nat, F: nat -> EmfField): (G: EmfField)
    ensures forall x: EmfIx | x.q >= 0 :: G(x) == F(owner(x.q))(x)
  {
    (x: EmfIx) => if x.q >= 0 then F(owner(x.q))(x) else 0.0
  }

  ghost predicate OnBoundary(e: Extents, x: int) { x == 0 || x == e.nx }

  /** A line along an edge of its quadrant. */
  ghost predicate EdgeOf(e: Extents, l: Line) { OnBoundary(e, l.u) && OnBoundary(e, l.w) && l.d < 3 }

  /** A quadrant face belongs to one interface only. */
  ghost predicate FacesOnce(nq: nat, M: Mesh) {
    && (forall h | h in M.hanging :: h.coarse.f < 6 && h.coarse.q < nq && |h.fine| == 4)
    && (forall h, n | h in M.hanging && 0 <= n < |h.fine| :: h.fine[n].q < nq && h.fine[n].f == Opposite(h.coarse.f))
    && (forall g, h | g in M.hanging && h in M.hanging && g.coarse == h.coarse :: g == h)
    && (forall g, h, n | g in M.hanging && h in M.hanging && 0 <= n < |h.fine| :: g.coarse != h.fine[n])
    && (forall k, s | k in M.full && 0 <= s < 2 :: k.Side(s).f < 6 && k.Side(s).q < nq)
    && (forall k, s, h | k in M.full && 0 <= s < 2 && h in M.hanging :: k.Side(s) != h.coarse)
    && (forall k, s, h, n | k in M.full && 0 <= s < 2 && h in M.hanging && 0 <= n < |h.fine| :: k.Side(s) != h.fine[n])
  }

  /** Coarse sides with an offset run through the middle of the coarse side of a coarse-fine face. */
  ghost predicate MidLines(e: Extents, M: Mesh) {
    forall D, s | D in M.edges && s in D && !s.isFine && (s.offI || s.offJ) && |s.quads| == 1 ::
      exists h, comp :: h in M.hanging && 0 <= comp < 2 && CoarseLine(e, s, s.quads[0]) == FaceLine(e, h.coarse, comp, e.nx / 2)
  }

  /** The sides that take part in an edge are told apart by their ids; no line belongs to an edge with fine
      sides and to one without. */
  ghost predicate Edges(e: Extents, nq: nat, M: Mesh) {
    && EdgesReady(e, nq, true, M.edges) && EdgesReady(e, nq, false, M.uniform)
    && MidLines(e, M)
    && (forall D | D in M.edges :: DistinctIds(true, D)) && (forall D | D in M.uniform :: DistinctIds(false, D))
    && (forall D, s, c, D', s', c' | D in M.edges && s in D && 0 <= c < |s.quads| && D' in M.uniform && s' in D' && 0 <= c' < |s'.quads| ::
          MendLine(e, true, s, c) != MendLine(e, false, s', c'))
  }

  /** Which half of a coarse-fine face child c covers, along and across component comp. */
  function HalfAlong(comp: nat, c: nat): nat { if comp == 0 then c % 2 else c / 2 % 2 }

  function HalfAcross(comp: nat, c: nat): nat { if comp == 0 then c / 2 % 2 else c % 2 }

  /** The fine position that coarse position i starts at, in its child. */
  function Pair(e: Extents, i: int): int
    requires e.nx > 0
  {
    2 * i % e.nx
  }

  /** Lines 0, 1 and 2 of a face: lower rim, middle, upper rim. */
  function Special(e: Extents, k: int): int { k * (e.nx / 2) }

  function Rim(e: Extents, up: int): int { up * e.nx }

  /** Edge D joins the coarse line at offset off of face h with the fine lines along it. */
  ghost predicate Joins(e: Extents, D: Edge, h: HangingFace, comp: nat, off: int)
    requires |h.fine| == 4
  {
    && (exists s :: s in D && !s.isFine && |s.quads| == 1 && MendLine(e, true, s, 0) == FaceLine(e, h.coarse, comp, off))
    && forall c, up | 0 <= c < 4 && 0 <= up < 2 && Special(e, HalfAcross(comp, c) + up) == off ::
         exists s :: s in D && s.isFine && |s.quads| == 2
                  && MendLine(e, true, s, HalfAlong(comp, c)) == FaceLine(e, h.fine[c], comp, Rim(e, up))
  }

  /** Line k nx/2 of component comp of face h belongs to an edge with fine sides. */
  ghost predicate Joined(e: Extents, M: Mesh, h: HangingFace, comp: nat, k: nat)
    requires |h.fine| == 4
  {
    exists D :: D in M.edges && Joins(e, D, h, comp, Special(e, k))
  }

  /** The rim and middle lines of every coarse-fine face belong to edges with fine sides. */
  ghost predicate EdgesCover(e: Extents, M: Mesh)
    requires forall h | h in M.hanging :: |h.fine| == 4
  {
    forall h, comp, k | h in M.hanging && 0 <= comp < 2 && 0 <= k < 3 :: Joined(e, M, h, comp, k)
  }

  /** Rank r works on the interfaces that concern it, and ran the four kernels in order. */
  ghost predicate RankRan(e: Extents, nq: nat, owner: nat -> nat, r: nat, M: Mesh, W: EmfWorld)
    requires e.Valid() && forall h | h in M.hanging :: |h.fine| == 4
  {
    && (forall h :: h in W.faces(r) <==> h in M.hanging && owner(h.coarse.q) == r)
    && (forall h :: h in W.full(r) <==> h in M.full && (owner(h.lower.q) == r || owner(h.upper.q) == r))
    && (forall D :: D in W.edges(r) <==> D in M.edges && Concerns(owner, r, D))
    && (forall D :: D in W.uniform(r) <==> D in M.uniform && Concerns(owner, r, D))
    && Fixed(e, nq, owner, r, W.recvF(r), W.faces(r), W.E0(r), W.E1(r), W.fixes(r)) && (forall z :: z in W.fixes(r) <==> FixRange(e, W.faces(r), z))
    && Averaged(e, nq, owner, r, W.recvS(r), W.full(r), W.E1(r), W.E2(r), W.avgs(r)) && (forall z :: z in W.avgs(r) <==> AvgRange(e, owner, r, W.full(r), z))
    && EdgeRan(e, nq, owner, r, true, W.recvE(r), W.edges(r), W.C(r), W.E2(r), W.E3(r), W.mends(r))
    && EdgeRan(e, nq, owner, r, false, W.recvU(r), W.uniform(r), W.D(r), W.E3(r), W.E4(r), W.mends2(r))
  }

  ghost predicate Concerns(owner: nat -> nat, r: nat, D: Edge) {
    exists s, q :: s in D && q in s.quads && owner(q) == r
  }

  /** Both phases of an edge correction. */
  ghost predicate EdgeRan(e: Extents, nq: nat, owner: nat -> nat, r: nat, fine: bool, recv: ReceivedEdges, descs: seq<Edge>, C: Corrections,
                          E: EmfField, E': EmfField, mends: set<Mend>)
    requires e.Valid()
  {
    && (forall i, iq | 0 <= i < e.nx && 0 <= iq < |descs| :: Chosen(e, E, owner, r, recv, fine, descs[iq], i, C(i, 0, iq), C(i, 1, iq)))
    && Mended(e, nq, fine, owner, r, C, descs, E, E', mends) && (forall z :: z in mends <==> MendRange(e, owner, r, descs, z))
  }

  // ---- which kernel writes which line ----

  /** A line strictly inside a face is not an edge of the quadrant. */
  lemma InsideIsNotEdge(e: Extents, r: FaceRef, comp: nat, off: int)
    requires e.Valid() && r.f < 6 && comp < 2 && 0 < off < e.nx
    ensures !EdgeOf(e, FaceLine(e, r, comp, off))
  {
  }

  lemma EdgeLineIsEdge(e: Extents, edge: nat, q: nat)
    requires edge < 12
    ensures EdgeOf(e, EdgeLine(e, edge, q))
  {
  }

  /** A line the first kernel writes is strictly inside a coarse face and not its middle. */
  lemma FixedElsewhere(e: Extents, nq: nat, owner: nat -> nat, r: nat, recvF: Received, faces: seq<HangingFace>, E0: EmfField, E1: EmfField, fixes: set<Fix>, l: Line, i: nat)
    requires e.Valid() && (forall m | 0 <= m < |faces| :: |faces[m].fine| == 4 && faces[m].coarse.f < 6)
    requires Fixed(e, nq, owner, r, recvF, faces, E0, E1, fixes)
    requires l.d < 3 && InGrid(e, nq, At(e, l, i))
    requires forall h, comp, off | h in faces && 0 <= comp < 2 && 0 < off < e.nx && off != e.nx / 2 :: l != FaceLine(e, h.coarse, comp, off)
    ensures E1(At(e, l, i)) == E0(At(e, l, i))
  {
    var x := At(e, l, i);
    hide At, FaceLine, InGrid;
    if Written(e, faces, fixes, x) {
      var z :| z in fixes && FixRange(e, faces, z) && Active(e, z) && x == Target(e, faces, z);
      Positions(e, z);
      AxisBound(e, faces[z.iq].coarse, z.comp, Across(e, z));
      AtInjective(e, l, i, FaceLine(e, faces[z.iq].coarse, z.comp, Across(e, z)), Along(e, z));
    }
  }

  lemma AveragedElsewhere(e: Extents, nq: nat, owner: nat -> nat, r: nat, recvS: Received, full: seq<FullFace>, E1: EmfField, E2: EmfField, avgs: set<Avg>, l: Line, i: nat)
    requires Averaged(e, nq, owner, r, recvS, full, E1, E2, avgs) && (forall m, s | 0 <= m < |full| && 0 <= s < 2 :: full[m].Side(s).f < 6)
    requires l.d < 3 && InGrid(e, nq, At(e, l, i))
    requires forall k, s, comp, off | k in full && 0 <= s < 2 && 0 <= comp < 2 && 0 < off < e.nx :: l != FaceLine(e, k.Side(s), comp, off)
    ensures E2(At(e, l, i)) == E1(At(e, l, i))
  {
    var x := At(e, l, i);
    hide At, FaceLine, InGrid;
    if AvgWritten(e, owner, r, full, avgs, x) {
      var z :| z in avgs && AvgRange(e, owner, r, full, z) && x == AvgAt(e, full, z);
      AxisBound(e, full[z.iq].Side(z.n), z.comp, AvgOff(z));
      AtInjective(e, l, i, FaceLine(e, full[z.iq].Side(z.n), z.comp, AvgOff(z)), AvgAlong(z));
    }
  }

  lemma MendedElsewhere(e: Extents, nq: nat, fine: bool, owner: nat -> nat, r: nat, C: Corrections, descs: seq<Edge>, E: EmfField, E': EmfField, mends: set<Mend>, l: Line, i: nat)
    requires e.Valid() && EdgesReady(e, nq, fine, descs) && Mended(e, nq, fine, owner, r, C, descs, E, E', mends)
    requires l.d < 3 && InGrid(e, nq, At(e, l, i))
    requires forall D, s, c | D in descs && s in D && 0 <= c < |s.quads| :: l != MendLine(e, fine, s, c)
    ensures E'(At(e, l, i)) == E(At(e, l, i))
  {
    var x := At(e, l, i);
    hide At, MendLine, InGrid, MendValue;
    if MendWritten(e, fine, owner, r, descs, mends, x) {
      var z :| z in mends && MendRange(e, owner, r, descs, z) && x == MendAt(e, fine, descs, z);
      assert SideReady(nq, fine, descs[z.iq][z.s]) && descs[z.iq] in descs && descs[z.iq][z.s] in descs[z.iq];
      MendLineAxis(e, nq, fine, descs[z.iq][z.s], z.c);
      AtInjective(e, l, i, MendLine(e, fine, descs[z.iq][z.s], z.c), z.i);
    }
  }

  lemma MendLineAxis(e: Extents, nq: nat, fine: bool, s: GlobalSide, c: nat)
    requires SideReady(nq, fine, s) && c < |s.quads|
    ensures MendLine(e, fine, s, c).d < 3
    ensures s.isFine == fine ==> EdgeOf(e, MendLine(e, fine, s, c))
    ensures !s.offI && !s.offJ ==> EdgeOf(e, MendLine(e, fine, s, c))
  {
  }

  // ---- lines strictly inside a face ----

  /** The edge kernels leave alone every line strictly inside a face but the middle of a coarse side. */
  lemma InsideKeptByEdges(e: Extents, nq: nat, owner: nat -> nat, o: nat, M: Mesh, W: EmfWorld, r: FaceRef, comp: nat, off: nat, i: nat)
    requires e.Valid() && FacesOnce(nq, M) && Edges(e, nq, M) && RankRan(e, nq, owner, o, M, W)
    requires r.f < 6 && r.q < nq && comp < 2 && 0 < off < e.nx && i < e.nx
    requires (exists h :: h in M.hanging && h.coarse == r) ==> off != e.nx / 2
    ensures var x := At(e, FaceLine(e, r, comp, off), i); W.E4(o)(x) == W.E2(o)(x)
  {
    var l := FaceLine(e, r, comp, off);
    LineInGrid(e, nq, r, comp, off, i);
    AxisBound(e, r, comp, off);
    InsideIsNotEdge(e, r, comp, off);
    InsideNotMended(e, nq, M, r, comp, off);
    ListsReady(e, nq, owner, o, M, W);
    hide Fixed, FaceLine, At, EdgeOf, FacesOnce, Edges, InGrid, MendLine;
    MendedElsewhere(e, nq, true, owner, o, W.C(o), W.edges(o), W.E2(o), W.E3(o), W.mends(o), l, i);
    MendedElsewhere(e, nq, false, owner, o, W.D(o), W.uniform(o), W.E3(o), W.E4(o), W.mends2(o), l, i);
  }

  /** The second to fourth kernels leave alone what the first made of a line strictly inside a
      face, unless it is the middle of a coarse side. */
  lemma InsideKept(e: Extents, nq: nat, owner: nat -> nat, o: nat, M: Mesh, W: EmfWorld, r: FaceRef, comp: nat, off: nat, i: nat)
    requires e.Valid() && FacesOnce(nq, M) && Edges(e, nq, M) && RankRan(e, nq, owner, o, M, W)
    requires r.f < 6 && r.q < nq && comp < 2 && 0 < off < e.nx && i < e.nx
    requires forall k, s | k in M.full && 0 <= s < 2 :: k.Side(s) != r
    requires (exists h :: h in M.hanging && h.coarse == r) ==> off != e.nx / 2
    ensures var x := At(e, FaceLine(e, r, comp, off), i); W.E4(o)(x) == W.E1(o)(x)
  {
    LineInGrid(e, nq, r, comp, off, i);
    AxisBound(e, r, comp, off);
    InsideNotAveraged(e, nq, M, r, comp, off);
    ListsReady(e, nq, owner, o, M, W);
    InsideKeptByEdges(e, nq, owner, o, M, W, r, comp, off, i);
    hide Fixed, FaceLine, At, FacesOnce, Edges, InGrid, EdgeRan;
    AveragedElsewhere(e, nq, owner, o, W.recvS(o), W.full(o), W.E1(o), W.E2(o), W.avgs(o), FaceLine(e, r, comp, off), i);
  }

  lemma InsideNotAveraged(e: Extents, nq: nat, M: Mesh, r: FaceRef, comp: nat, off: int)
    requires FacesOnce(nq, M) && r.f < 6 && comp < 2 && 0 < off < e.nx
    requires forall k, s | k in M.full && 0 <= s < 2 :: k.Side(s) != r
    ensures forall k, s, comp', off' | k in M.full && 0 <= s < 2 && 0 <= comp' < 2 && 0 < off' < e.nx :: FaceLine(e, r, comp, off) != FaceLine(e, k.Side(s), comp', off')
  {
    forall k, s, comp', off' | k in M.full && 0 <= s < 2 && 0 <= comp' < 2 && 0 < off' < e.nx ensures FaceLine(e, r, comp, off) != FaceLine(e, k.Side(s), comp', off') {
      if FaceLine(e, r, comp, off) == FaceLine(e, k.Side(s), comp', off') {
        FaceLineUnique(e, r, comp, off, k.Side(s), comp', off');
      }
    }
  }

  lemma InsideNotMended(e: Extents, nq: nat, M: Mesh, r: FaceRef, comp: nat, off: int)
    requires e.Valid() && FacesOnce(nq, M) && Edges(e, nq, M) && r.f < 6 && comp < 2 && 0 < off < e.nx
    requires (exists h :: h in M.hanging && h.coarse == r) ==> off != e.nx / 2
    ensures forall D, s, c | D in M.edges && s in D && 0 <= c < |s.quads| :: FaceLine(e, r, comp, off) != MendLine(e, true, s, c)
    ensures forall D, s, c | D in M.uniform && s in D && 0 <= c < |s.quads| :: FaceLine(e, r, comp, off) != MendLine(e, false, s, c)
  {
    InsideIsNotEdge(e, r, comp, off);
    forall D, s, c | D in M.edges && s in D && 0 <= c < |s.quads| ensures FaceLine(e, r, comp, off) != MendLine(e, true, s, c) {
      SideIsReady(e, nq, true, M.edges, D, s);
      MendLineAxis(e, nq, true, s, c);
      if !s.isFine && (s.offI || s.offJ) && FaceLine(e, r, comp, off) == MendLine(e, true, s, c) {
        var h, comp' :| h in M.hanging && 0 <= comp' < 2 && CoarseLine(e, s, s.quads[0]) == FaceLine(e, h.coarse, comp', e.nx / 2);
        FaceLineUnique(e, r, comp, off, h.coarse, comp', e.nx / 2);
      }
    }
    forall D, s, c | D in M.uniform && s in D && 0 <= c < |s.quads| ensures FaceLine(e, r, comp, off) != MendLine(e, false, s, c) {
      SideIsReady(e, nq, false, M.uniform, D, s);
      MendLineAxis(e, nq, false, s, c);
    }
  }

  lemma SideIsReady(e: Extents, nq: nat, fine: bool, descs: seq<Edge>, D: Edge, s: GlobalSide)
    requires EdgesReady(e, nq, fine, descs) && D in descs && s in D
    ensures SideReady(nq, fine, s)
  {
    var n :| 0 <= n < |descs| && descs[n] == D;
    var m :| 0 <= m < |D| && D[m] == s;
    assert SideReady(nq, fine, descs[n][m]);
  }

  /** A rank's lists inherit what the mesh promises. */
  lemma ListsReady(e: Extents, nq: nat, owner: nat -> nat, o: nat, M: Mesh, W: EmfWorld)
    requires e.Valid() && FacesOnce(nq, M) && Edges(e, nq, M) && RankRan(e, nq, owner, o, M, W)
    ensures forall m | 0 <= m < |W.faces(o)| :: W.faces(o)[m] in M.hanging && |W.faces(o)[m].fine| == 4 && W.faces(o)[m].coarse.f < 6
    ensures forall m, s | 0 <= m < |W.full(o)| && 0 <= s < 2 :: W.full(o)[m] in M.full && W.full(o)[m].Side(s).f < 6
    ensures EdgesReady(e, nq, true, W.edges(o)) && EdgesReady(e, nq, false, W.uniform(o))
  {
    hide Fixed, Averaged, EdgeRan, MidLines;
    forall m | 0 <= m < |W.faces(o)| ensures W.faces(o)[m] in M.hanging { assert W.faces(o)[m] in W.faces(o); }
    forall m | 0 <= m < |W.full(o)| ensures W.full(o)[m] in M.full { assert W.full(o)[m] in W.full(o); }
    hide FacesOnce;
    forall n | 0 <= n < |W.edges(o)| ensures W.edges(o)[n] in M.edges { assert W.edges(o)[n] in W.edges(o); }
    forall n | 0 <= n < |W.uniform(o)| ensures W.uniform(o)[n] in M.uniform { assert W.uniform(o)[n] in W.uniform(o); }
    SublistReady(e, nq, true, M.edges, W.edges(o));
    SublistReady(e, nq, false, M.uniform, W.uniform(o));
  }

  lemma SublistReady(e: Extents, nq: nat, fine: bool, descs: seq<Edge>, sub: seq<Edge>)
    requires EdgesReady(e, nq, fine, descs) && forall n | 0 <= n < |sub| :: sub[n] in descs
    ensures EdgesReady(e, nq, fine, sub)
  {
    hide SideReady;
    forall n | 0 <= n < |sub| ensures |sub[n]| <= 4 && forall s | 0 <= s < |sub[n]| :: SideReady(nq, fine, sub[n][s]) {
      var k :| 0 <= k < |descs| && descs[k] == sub[n];
    }
  }

  /** What rank r received is what the owners held before the first kernel: the means on fine faces
      behind its coarse ones, ... */
  ghost predicate FineDelivered(e: Extents, owner: nat -> nat, r: nat, M: Mesh, W: EmfWorld)
    requires e.Valid() && forall h | h in M.hanging :: |h.fine| == 4
  {
    forall h, c, comp, i, j | h in M.hanging && 0 <= c < 4 && 0 <= comp < 2 && 0 <= i < e.nx / 2 && 0 <= j < e.nx / 2
                           && owner(h.coarse.q) == r && owner(h.fine[c].q) != r ::
      W.recvF(r)(h.fine[c], comp, i, j) == FineValue(e, Owned(owner, W.E0), h.fine[c], Fix(i, j, 0, comp, 0))
  }

  /** ... the other sides of its same-level faces, ... */
  ghost predicate FullDelivered(e: Extents, owner: nat -> nat, r: nat, M: Mesh, W: EmfWorld) {
    forall k, s, comp, i, j | k in M.full && 0 <= s < 2 && 0 <= comp < 2 && 0 <= i < e.nx && 0 <= j < e.nx
                           && owner(k.Side(1 - s).q) == r && owner(k.Side(s).q) != r ::
      W.recvS(r)(k.Side(s), comp, i, j) == FullValue(e, Owned(owner, W.E0), k.Side(s), comp, i, j)
  }

  ghost function FullValue(e: Extents, E: EmfField, x: FaceRef, comp: nat, i: nat, j: nat): real {
    OnLine(e, E, x, comp, if comp == 0 then i else j, if comp == 0 then j else i)
  }

  /** ... and the lines of the sides that take part in the edges it lists. */
  ghost predicate EdgesDelivered(e: Extents, owner: nat -> nat, r: nat, fine: bool, edges: seq<Edge>, E0: nat -> EmfField, recv: ReceivedEdges) {
    forall D, s, q, i | D in edges && Concerns(owner, r, D) && s in D && s.isFine == fine && q in s.quads && owner(q) != r && 0 <= i < e.nx ::
      recv(q, s.edge, i) == Owned(owner, E0)(At(e, EdgeLine(e, s.edge, q), i))
  }

  ghost predicate Delivered(e: Extents, owner: nat -> nat, r: nat, M: Mesh, W: EmfWorld)
    requires e.Valid() && forall h | h in M.hanging :: |h.fine| == 4
  {
    && FineDelivered(e, owner, r, M, W) && FullDelivered(e, owner, r, M, W)
    && EdgesDelivered(e, owner, r, true, M.edges, W.E0, W.recvE(r)) && EdgesDelivered(e, owner, r, false, M.uniform, W.E0, W.recvU(r))
  }

  /** All ranks ran the four kernels on what the exchange delivered. */
  ghost predicate AllRan(e: Extents, nq: nat, owner: nat -> nat, nproc: nat, M: Mesh, W: EmfWorld)
    requires e.Valid() && forall h | h in M.hanging :: |h.fine| == 4
  {
    && (forall q | 0 <= q < nq :: owner(q) < nproc)
    && (forall r | 0 <= r < nproc :: RankRan(e, nq, owner, r, M, W) && Delivered(e, owner, r, M, W))
  }

  lemma LineOwner(e: Extents, owner: nat -> nat, F: nat -> EmfField, l: Line, i: int)
    ensures At(e, l, i).q == l.q && Owned(owner, F)(At(e, l, i)) == F(owner(l.q))(At(e, l, i))
  {
  }

  lemma FaceLineQuad(e: Extents, r: FaceRef, comp: nat, off: int)
    ensures FaceLine(e, r, comp, off).q == r.q
  {
  }

  /** No kernel touches a line strictly inside a fine face. */
  lemma FineInsideKept(e: Extents, nq: nat, owner: nat -> nat, nproc: nat, M: Mesh, W: EmfWorld,
                       h: HangingFace, n: nat, comp: nat, off: nat, i: nat)
    requires e.Valid() && FacesOnce(nq, M) && Edges(e, nq, M) && AllRan(e, nq, owner, nproc, M, W)
    requires h in M.hanging && n < 4 && comp < 2 && 0 < off < e.nx && i < e.nx
    ensures OnLine(e, Owned(owner, W.E4), h.fine[n], comp, i, off) == OnLine(e, Owned(owner, W.E0), h.fine[n], comp, i, off)
  {
    var r := h.fine[n];
    var o, l := owner(r.q), FaceLine(e, r, comp, off);
    assert r.f == Opposite(h.coarse.f) && r.f < 6 && r.q < nq && RankRan(e, nq, owner, o, M, W);
    FaceLineQuad(e, r, comp, off);
    LineOwner(e, owner, W.E4, l, i);
    LineOwner(e, owner, W.E0, l, i);
    LineInGrid(e, nq, r, comp, off, i);
    AxisBound(e, r, comp, off);
    ListsReady(e, nq, owner, o, M, W);
    InsideKept(e, nq, owner, o, M, W, r, comp, off, i);
    assert Fixed(e, nq, owner, o, W.recvF(o), W.faces(o), W.E0(o), W.E1(o), W.fixes(o));
    hide Fixed, FaceLine, At, RankRan, Edges, InGrid;
    forall g, comp', off' | g in W.faces(o) && 0 <= comp' < 2 && 0 < off' < e.nx && off' != e.nx / 2 ensures l != FaceLine(e, g.coarse, comp', off') {
      assert g in M.hanging && g.coarse.f < 6 && g.coarse != r;
      if l == FaceLine(e, g.coarse, comp', off') { FaceLineUnique(e, r, comp, off, g.coarse, comp', off'); }
    }
    FixedElsewhere(e, nq, owner, o, W.recvF(o), W.faces(o), W.E0(o), W.E1(o), W.fixes(o), l, i);
  }

  lemma PairOwner(e: Extents, owner: nat -> nat, F: nat -> EmfField, r: FaceRef, comp: nat, k: int, off: int)
    ensures PairMean(e, Owned(owner, F), r, comp, k, off) == PairMean(e, F(owner(r.q)), r, comp, k, off)
  {
    hide At, FaceLine;
    FaceLineQuad(e, r, comp, off);
    LineOwner(e, owner, F, FaceLine(e, r, comp, off), k);
    LineOwner(e, owner, F, FaceLine(e, r, comp, off), k + 1);
  }

  /** The first kernel puts the mean of the owners' fine EMFs on every active line. */
  lemma ActiveFixed(e: Extents, nq: nat, owner: nat -> nat, nproc: nat, M: Mesh, W: EmfWorld,
                    h: HangingFace, comp: nat, along: nat, off: nat)
    requires e.Valid() && FacesOnce(nq, M) && AllRan(e, nq, owner, nproc, M, W)
    requires h in M.hanging && comp < 2 && along < e.nx && 0 < off < e.nx && off != e.nx / 2
    ensures var a, b := if comp == 0 then along else off, if comp == 0 then off else along;
      W.E1(owner(h.coarse.q))(At(e, FaceLine(e, h.coarse, comp, off), along))
      == PairMean(e, Owned(owner, W.E0), h.fine[Child(e, a, b)], comp, Pair(e, along), Pair(e, off))
  {
    var o := owner(h.coarse.q);
    assert h.coarse.q < nq && RankRan(e, nq, owner, o, M, W);
    assert h in W.faces(o);
    var iq :| 0 <= iq < |W.faces(o)| && W.faces(o)[iq] == h;
    var z := CoversFace(e, comp, along, off, iq);
    assert FixRange(e, W.faces(o), z) && z in W.fixes(o);
    assert W.E1(o)(Target(e, W.faces(o), z)) == FixValue(e, W.E0(o), owner, o, W.recvF(o), W.faces(o), z);
    var r := h.fine[z.c];
    assert Delivered(e, owner, o, M, W);
    assert owner(r.q) != o ==> W.recvF(o)(r, comp, z.i, z.j) == FineValue(e, Owned(owner, W.E0), r, Fix(z.i, z.j, 0, comp, 0));
    hide RankRan, AllRan, FacesOnce, PairMean, FaceLine, At, Fixed;
    PairOwner(e, owner, W.E0, r, comp, 2 * along % e.nx, 2 * off % e.nx);
  }

  /** On active lines the coarse EMF is the mean of the fine ones it faces, after all kernels. */
  lemma ActiveMatched(e: Extents, nq: nat, owner: nat -> nat, nproc: nat, M: Mesh, W: EmfWorld,
                      h: HangingFace, comp: nat, along: nat, off: nat)
    requires e.Valid() && FacesOnce(nq, M) && Edges(e, nq, M) && AllRan(e, nq, owner, nproc, M, W)
    requires h in M.hanging && comp < 2 && along < e.nx && 0 < off < e.nx && off != e.nx / 2
    ensures var a, b := if comp == 0 then along else off, if comp == 0 then off else along;
      OnLine(e, Owned(owner, W.E4), h.coarse, comp, along, off)
      == PairMean(e, Owned(owner, W.E4), h.fine[Child(e, a, b)], comp, Pair(e, along), Pair(e, off))
  {
    var c := Child(e, if comp == 0 then along else off, if comp == 0 then off else along);
    assert c < 4;
    hide *;
    CoarseFacts(e, nq, owner, nproc, M, W, h);
    ActiveFixed(e, nq, owner, nproc, M, W, h, comp, along, off);
    FineInside(e, along, off);
    InsideKept(e, nq, owner, owner(h.coarse.q), M, W, h.coarse, comp, off, along);
    FaceLineQuad(e, h.coarse, comp, off);
    LineOwner(e, owner, W.E4, FaceLine(e, h.coarse, comp, off), along);
    FinePairKept(e, nq, owner, nproc, M, W, h, c, comp, Pair(e, along), Pair(e, off));
    OnLineIs(e, Owned(owner, W.E4), h.coarse, comp, along, off);
  }

  lemma FineInside(e: Extents, along: nat, off: nat)
    requires e.Valid() && along < e.nx && 0 < off < e.nx && off != e.nx / 2
    ensures 0 <= Pair(e, along) && Pair(e, along) + 1 < e.nx && 0 < Pair(e, off) < e.nx
  {
    FineBase(e, along);
    FineBase(e, off);
  }

  lemma FinePairKept(e: Extents, nq: nat, owner: nat -> nat, nproc: nat, M: Mesh, W: EmfWorld,
                     h: HangingFace, c: nat, comp: nat, k: nat, off: nat)
    requires e.Valid() && FacesOnce(nq, M) && Edges(e, nq, M) && AllRan(e, nq, owner, nproc, M, W)
    requires h in M.hanging && |h.fine| == 4 && c < 4 && comp < 2 && k + 1 < e.nx && 0 < off < e.nx
    ensures PairMean(e, Owned(owner, W.E4), h.fine[c], comp, k, off) == PairMean(e, Owned(owner, W.E0), h.fine[c], comp, k, off)
  {
    hide *;
    FineInsideKept(e, nq, owner, nproc, M, W, h, c, comp, off, k);
    FineInsideKept(e, nq, owner, nproc, M, W, h, c, comp, off, k + 1);
    PairOf(e, Owned(owner, W.E4), h.fine[c], comp, k, off);
    PairOf(e, Owned(owner, W.E0), h.fine[c], comp, k, off);
  }

  lemma CoarseFacts(e: Extents, nq: nat, owner: nat -> nat, nproc: nat, M: Mesh, W: EmfWorld, h: HangingFace)
    requires e.Valid() && FacesOnce(nq, M) && AllRan(e, nq, owner, nproc, M, W) && h in M.hanging
    ensures h.coarse.q < nq && h.coarse.f < 6 && |h.fine| == 4 && forall k, s | k in M.full && 0 <= s < 2 :: k.Side(s) != h.coarse
    ensures forall h | h in M.hanging :: |h.fine| == 4
    ensures owner(h.coarse.q) < nproc && RankRan(e, nq, owner, owner(h.coarse.q), M, W)
  {
    hide RankRan;
  }

  lemma PairOf(e: Extents, E: EmfField, r: FaceRef, comp: nat, k: int, off: int)
    ensures PairMean(e, E, r, comp, k, off) == 0.5 * (OnLine(e, E, r, comp, k, off) + OnLine(e, E, r, comp, k + 1, off))
  {
  }

  lemma OnLineIs(e: Extents, E: EmfField, r: FaceRef, comp: nat, k: int, off: int)
    ensures OnLine(e, E, r, comp, k, off) == E(At(e, FaceLine(e, r, comp, off), k))
  {
  }

  // ---- lines shared by an edge with fine sides ----

  /** The first two kernels leave the edges of a quadrant alone. */
  lemma EdgeKeptByFaces(e: Extents, nq: nat, owner: nat -> nat, o: nat, M: Mesh, W: EmfWorld,
                        l: Line, i: nat)
    requires e.Valid() && FacesOnce(nq, M) && Edges(e, nq, M) && RankRan(e, nq, owner, o, M, W)
    requires EdgeOf(e, l) && l.q < nq && i < e.nx
    ensures W.E2(o)(At(e, l, i)) == W.E0(o)(At(e, l, i))
  {
    EdgeInGrid(e, nq, l, i);
    ListsReady(e, nq, owner, o, M, W);
    assert Fixed(e, nq, owner, o, W.recvF(o), W.faces(o), W.E0(o), W.E1(o), W.fixes(o));
    assert Averaged(e, nq, owner, o, W.recvS(o), W.full(o), W.E1(o), W.E2(o), W.avgs(o));
    hide Fixed, Averaged, FaceLine, At, RankRan, Edges, InGrid, FacesOnce;
    forall h, comp, off | h in W.faces(o) && 0 <= comp < 2 && 0 < off < e.nx && off != e.nx / 2 ensures l != FaceLine(e, h.coarse, comp, off) {
      InsideIsNotEdge(e, h.coarse, comp, off);
    }
    forall k, s, comp, off | k in W.full(o) && 0 <= s < 2 && 0 <= comp < 2 && 0 < off < e.nx ensures l != FaceLine(e, k.Side(s), comp, off) {
      InsideIsNotEdge(e, k.Side(s), comp, off);
    }
    FixedElsewhere(e, nq, owner, o, W.recvF(o), W.faces(o), W.E0(o), W.E1(o), W.fixes(o), l, i);
    AveragedElsewhere(e, nq, owner, o, W.recvS(o), W.full(o), W.E1(o), W.E2(o), W.avgs(o), l, i);
  }

  /** The original EMF on child c of side n of D. */
  ghost function Source(e: Extents, owner: nat -> nat, W: EmfWorld, D: Edge, n: nat, c: nat, i: nat): real
    requires n < |D| && |D[n].quads| == 2 && c < 2
  {
    Owned(owner, W.E0)(At(e, EdgeLine(e, D[n].edge, D[n].quads[c]), i))
  }

  /** Every rank computes the same correction for edge D: the original EMF of its smallest fine side. */
  lemma CorrectionsAgree(e: Extents, nq: nat, owner: nat -> nat, nproc: nat, M: Mesh, W: EmfWorld,
                         o: nat, iq: nat, n: nat, c: nat, i: nat)
    requires e.Valid() && FacesOnce(nq, M) && Edges(e, nq, M) && AllRan(e, nq, owner, nproc, M, W)
    requires o < nproc && iq < |W.edges(o)| && n < |W.edges(o)[iq]| && Smallest(true, W.edges(o)[iq], n) && c < 2 && i < e.nx
    ensures |W.edges(o)[iq][n].quads| == 2 && W.C(o)(i, c, iq) == Source(e, owner, W, W.edges(o)[iq], n, c, i)
  {
    hide *;
    var D := W.edges(o)[iq];
    FineSideFacts(e, nq, owner, nproc, M, W, o, iq, n, c, i);
    var s := D[n];
    var q, l := s.quads[c], EdgeLine(e, s.edge, s.quads[c]);
    EdgeLineIsEdge(e, s.edge, q);
    SourceIs(e, owner, W, D, n, c, i);
    LineOwner(e, owner, W.E0, l, i);
    if owner(q) == o { EdgeKeptByFaces(e, nq, owner, o, M, W, l, i); }
  }

  lemma SourceIs(e: Extents, owner: nat -> nat, W: EmfWorld, D: Edge, n: nat, c: nat, i: nat)
    requires n < |D| && |D[n].quads| == 2 && c < 2
    ensures EdgeLine(e, D[n].edge, D[n].quads[c]).q == D[n].quads[c]
    ensures Source(e, owner, W, D, n, c, i) == Owned(owner, W.E0)(At(e, EdgeLine(e, D[n].edge, D[n].quads[c]), i))
  {
  }

  /** What rank o's correction of edge iq is, before asking where the smallest side lives. */
  lemma FineSideFacts(e: Extents, nq: nat, owner: nat -> nat, nproc: nat, M: Mesh, W: EmfWorld,
                      o: nat, iq: nat, n: nat, c: nat, i: nat)
    requires e.Valid() && FacesOnce(nq, M) && Edges(e, nq, M) && AllRan(e, nq, owner, nproc, M, W)
    requires o < nproc && iq < |W.edges(o)| && n < |W.edges(o)[iq]| && Smallest(true, W.edges(o)[iq], n) && c < 2 && i < e.nx
    ensures var s := W.edges(o)[iq][n];
      && |s.quads| == 2 && s.quads[c] < nq && s.edge < 12 && (forall h | h in M.hanging :: |h.fine| == 4)
      && RankRan(e, nq, owner, o, M, W)
      && W.C(o)(i, c, iq) == (if owner(s.quads[c]) == o then W.E2(o)(At(e, EdgeLine(e, s.edge, s.quads[c]), i))
                              else Owned(owner, W.E0)(At(e, EdgeLine(e, s.edge, s.quads[c]), i)))
  {
    var s := W.edges(o)[iq][n];
    assert RankRan(e, nq, owner, o, M, W);
    ListsReady(e, nq, owner, o, M, W);
    assert SideReady(nq, true, s);
    assert W.edges(o)[iq] in W.edges(o) && Concerns(owner, o, W.edges(o)[iq]) && s in W.edges(o)[iq] && s.quads[c] in s.quads;
    assert Delivered(e, owner, o, M, W);
    assert owner(s.quads[c]) != o ==> W.recvE(o)(s.quads[c], s.edge, i) == Owned(owner, W.E0)(At(e, EdgeLine(e, s.edge, s.quads[c]), i));
    hide AllRan, At, EdgeLine, Edges, FacesOnce, SideReady, Smallest;
    CorrectionIs(e, nq, owner, o, M, W, iq, n, c, i);
  }

  lemma CorrectionIs(e: Extents, nq: nat, owner: nat -> nat, o: nat, M: Mesh, W: EmfWorld,
                     iq: nat, n: nat, c: nat, i: nat)
    requires e.Valid() && (forall h | h in M.hanging :: |h.fine| == 4) && RankRan(e, nq, owner, o, M, W)
    requires iq < |W.edges(o)| && n < |W.edges(o)[iq]| && Smallest(true, W.edges(o)[iq], n) && c < 2 && i < e.nx
    ensures W.C(o)(i, c, iq) == SideValue(e, W.E2(o), owner, o, W.recvE(o), W.edges(o)[iq][n], c, i)
  {
    var D := W.edges(o)[iq];
    assert EdgeRan(e, nq, owner, o, true, W.recvE(o), W.edges(o), W.C(o), W.E2(o), W.E3(o), W.mends(o));
    hide RankRan, Mended, SideValue, Smallest;
    assert Chosen(e, W.E2(o), owner, o, W.recvE(o), true, D, i, W.C(o)(i, 0, iq), W.C(o)(i, 1, iq));
  }

  /** The owner of an octant of D lists D and writes the octant's line. */
  lemma EdgeWritten(e: Extents, nq: nat, owner: nat -> nat, M: Mesh, W: EmfWorld,
                    D: Edge, s: GlobalSide, c: nat, i: nat) returns (iq: nat)
    requires e.Valid() && D in M.edges && s in D && c < |s.quads| && i < e.nx && forall h | h in M.hanging :: |h.fine| == 4
    requires RankRan(e, nq, owner, owner(s.quads[c]), M, W)
    ensures var o := owner(s.quads[c]);
      && iq < |W.edges(o)| && W.edges(o)[iq] == D
      && W.E3(o)(At(e, MendLine(e, true, s, c), i)) == MendValue(e, W.C(o), s.isFine, i, c, iq)
  {
    var o := owner(s.quads[c]);
    assert s.quads[c] in s.quads;
    assert D in W.edges(o);
    iq :| 0 <= iq < |W.edges(o)| && W.edges(o)[iq] == D;
    var t :| 0 <= t < |D| && D[t] == s;
    assert Mended(e, nq, true, owner, o, W.C(o), W.edges(o), W.E2(o), W.E3(o), W.mends(o)) && Mend(i, iq, t, c) in W.mends(o);
    hide RankRan, At, MendLine, MendValue;
  }

  /** What ends up on a line of edge D: the same values on every rank and every copy. */
  lemma EdgeValue(e: Extents, nq: nat, owner: nat -> nat, nproc: nat, M: Mesh, W: EmfWorld,
                  D: Edge, n: nat, s: GlobalSide, c: nat, i: nat)
    requires e.Valid() && FacesOnce(nq, M) && Edges(e, nq, M) && AllRan(e, nq, owner, nproc, M, W)
    requires D in M.edges && n < |D| && Smallest(true, D, n) && s in D && c < |s.quads| && i < e.nx
    ensures |D[n].quads| == 2 && (s.isFine ==> c < 2)
    ensures var v := Owned(owner, W.E4)(At(e, MendLine(e, true, s, c), i));
      && (s.isFine ==> v == Source(e, owner, W, D, n, c, i))
      && (!s.isFine ==> v == 0.5 * (Source(e, owner, W, D, n, Half(e, i), Pair(e, i)) + Source(e, owner, W, D, n, Half(e, i), Pair(e, i) + 1)))
  {
    hide *;
    SideFacts(e, nq, owner, nproc, M, W, D, s, c);
    SmallestFacts(e, nq, M, D, n);
    PairBound(e, i);
    var o, l := owner(s.quads[c]), MendLine(e, true, s, c);
    var iq := EdgeWritten(e, nq, owner, M, W, D, s, c, i);
    EdgeKeptByUniform(e, nq, owner, o, M, W, D, s, c, i);
    LineOwner(e, owner, W.E4, l, i);
    MendLineQuad(e, s, c);
    MendValueIs(e, W.C(o), s.isFine, i, c, iq);
    if s.isFine {
      CorrectionsAgree(e, nq, owner, nproc, M, W, o, iq, n, c, i);
    } else {
      CorrectionsAgree(e, nq, owner, nproc, M, W, o, iq, n, Half(e, i), Pair(e, i));
      CorrectionsAgree(e, nq, owner, nproc, M, W, o, iq, n, Half(e, i), Pair(e, i) + 1);
    }
  }

  lemma SideFacts(e: Extents, nq: nat, owner: nat -> nat, nproc: nat, M: Mesh, W: EmfWorld,
                  D: Edge, s: GlobalSide, c: nat)
    requires e.Valid() && FacesOnce(nq, M) && Edges(e, nq, M) && AllRan(e, nq, owner, nproc, M, W)
    requires D in M.edges && s in D && c < |s.quads|
    ensures owner(s.quads[c]) < nproc && RankRan(e, nq, owner, owner(s.quads[c]), M, W)
    ensures (s.isFine ==> c < 2) && forall h | h in M.hanging :: |h.fine| == 4
  {
    SideIsReady(e, nq, true, M.edges, D, s);
    assert s.quads[c] < nq;
  }

  lemma SmallestFacts(e: Extents, nq: nat, M: Mesh, D: Edge, n: nat)
    requires Edges(e, nq, M) && D in M.edges && n < |D| && Smallest(true, D, n)
    ensures |D[n].quads| == 2
  {
    SideIsReady(e, nq, true, M.edges, D, D[n]);
  }

  lemma PairBound(e: Extents, i: nat)
    requires e.Valid() && i < e.nx
    ensures 0 <= Pair(e, i) && Pair(e, i) + 1 < e.nx && 0 <= Half(e, i) < 2
  {
    FineBase(e, i);
  }

  lemma MendValueIs(e: Extents, C: Corrections, takesPart: bool, i: nat, c: nat, iq: nat)
    requires e.nx > 0
    ensures takesPart ==> MendValue(e, C, takesPart, i, c, iq) == C(i, c, iq)
    ensures !takesPart ==> MendValue(e, C, takesPart, i, c, iq) == 0.5 * (C(Pair(e, i), Half(e, i), iq) + C(Pair(e, i) + 1, Half(e, i), iq))
    ensures 0 <= Half(e, i) < 2
  {
  }

  lemma MendLineQuad(e: Extents, s: GlobalSide, c: nat)
    requires c < |s.quads|
    ensures MendLine(e, true, s, c).q == s.quads[c]
  {
  }

  lemma MendInside(e: Extents, nq: nat, s: GlobalSide, c: nat, i: nat)
    requires SideReady(nq, true, s) && c < |s.quads| && i < e.nx
    ensures InGrid(e, nq, At(e, MendLine(e, true, s, c), i))
  {
    EdgeInGrid(e, nq, MendLine(e, true, s, c), i);
  }

  /** The last kernel does not touch edges with fine sides. */
  lemma EdgeKeptByUniform(e: Extents, nq: nat, owner: nat -> nat, o: nat, M: Mesh, W: EmfWorld,
                          D: Edge, s: GlobalSide, c: nat, i: nat)
    requires e.Valid() && FacesOnce(nq, M) && Edges(e, nq, M) && RankRan(e, nq, owner, o, M, W)
    requires D in M.edges && s in D && c < |s.quads| && i < e.nx
    ensures var x := At(e, MendLine(e, true, s, c), i); W.E4(o)(x) == W.E3(o)(x)
  {
    var l := MendLine(e, true, s, c);
    SideIsReady(e, nq, true, M.edges, D, s);
    MendInside(e, nq, s, c, i);
    MendLineAxis(e, nq, true, s, c);
    ListsReady(e, nq, owner, o, M, W);
    assert forall D', s', c' | D' in W.uniform(o) && s' in D' && 0 <= c' < |s'.quads| :: l != MendLine(e, false, s', c');
    assert Mended(e, nq, false, owner, o, W.D(o), W.uniform(o), W.E3(o), W.E4(o), W.mends2(o));
    hide At, MendLine, Mended, FacesOnce, Edges, RankRan, InGrid;
    MendedElsewhere(e, nq, false, owner, o, W.D(o), W.uniform(o), W.E3(o), W.E4(o), W.mends2(o), l, i);
  }

  /** On the rim and in the middle of the face, the coarse EMF is the mean of the fine ones on either side of the line. */
  lemma JoinedMatched(e: Extents, nq: nat, owner: nat -> nat, nproc: nat, M: Mesh, W: EmfWorld,
                      h: HangingFace, comp: nat, k: nat, c: nat, up: nat, along: nat)
    requires e.Valid() && FacesOnce(nq, M) && Edges(e, nq, M) && AllRan(e, nq, owner, nproc, M, W)
    requires h in M.hanging && |h.fine| == 4 && comp < 2 && k < 3 && c < 4 && up < 2 && along < e.nx && Joined(e, M, h, comp, k)
    requires HalfAcross(comp, c) + up == k && HalfAlong(comp, c) == Half(e, along)
    ensures OnLine(e, Owned(owner, W.E4), h.coarse, comp, along, Special(e, k))
         == PairMean(e, Owned(owner, W.E4), h.fine[c], comp, Pair(e, along), Rim(e, up))
  {
    hide *;
    var D, s, t, n := JoinedSides(e, nq, M, h, comp, k, c, up);
    PairBound(e, along);
    var F := Owned(owner, W.E4);
    EdgeValue(e, nq, owner, nproc, M, W, D, n, s, 0, along);
    EdgeValue(e, nq, owner, nproc, M, W, D, n, t, Half(e, along), Pair(e, along));
    EdgeValue(e, nq, owner, nproc, M, W, D, n, t, Half(e, along), Pair(e, along) + 1);
    OnLineIs(e, F, h.coarse, comp, along, Special(e, k));
    PairOf(e, F, h.fine[c], comp, Pair(e, along), Rim(e, up));
    OnLineIs(e, F, h.fine[c], comp, Pair(e, along), Rim(e, up));
    OnLineIs(e, F, h.fine[c], comp, Pair(e, along) + 1, Rim(e, up));
  }

  /** The edge that joins a rim or middle line: its coarse side s, its fine side t for child c, and its smallest side n. */
  lemma JoinedSides(e: Extents, nq: nat, M: Mesh, h: HangingFace, comp: nat, k: nat, c: nat, up: nat)
    returns (D: Edge, s: GlobalSide, t: GlobalSide, n: nat)
    requires Edges(e, nq, M) && |h.fine| == 4 && Joined(e, M, h, comp, k) && c < 4 && up < 2
    requires HalfAcross(comp, c) + up == k
    ensures D in M.edges && n < |D| && Smallest(true, D, n)
    ensures s in D && !s.isFine && |s.quads| == 1 && MendLine(e, true, s, 0) == FaceLine(e, h.coarse, comp, Special(e, k))
    ensures t in D && t.isFine && |t.quads| == 2 && HalfAlong(comp, c) < 2 && MendLine(e, true, t, HalfAlong(comp, c)) == FaceLine(e, h.fine[c], comp, Rim(e, up))
  {
    D :| D in M.edges && Joins(e, D, h, comp, Special(e, k));
    hide MendLine, FaceLine, MidLines, EdgesReady;
    n := SmallestExists(true, D);
    s :| s in D && !s.isFine && |s.quads| == 1 && MendLine(e, true, s, 0) == FaceLine(e, h.coarse, comp, Special(e, k));
    t :| t in D && t.isFine && |t.quads| == 2 && MendLine(e, true, t, HalfAlong(comp, c)) == FaceLine(e, h.fine[c], comp, Rim(e, up));
  }

  /** Cell index x beside the line at offset x + s: which special line it is, if any. */
  lemma SpecialLine(e: Extents, x: nat, s: nat)
    requires e.Valid() && x < e.nx && s < 2
    ensures var off, b, half := x + s, Pair(e, x), Half(e, x);
      && (0 < off < e.nx && off != e.nx / 2 ==> Half(e, off) == half && Pair(e, off) == b + 2 * s)
      && (!(0 < off < e.nx && off != e.nx / 2) ==>
           exists up :: 0 <= up < 2 && half + up < 3 && off == Special(e, half + up) && b + 2 * s == Rim(e, up))
  {
    var off, n := x + s, e.nx / 2;
    FineBase(e, x);
    if 0 < off < e.nx && off != n {
      FineBase(e, off);
    } else {
      var up := if off == 0 then 0 else if off == e.nx then 1 else if s == 0 then 0 else 1;
      assert off == Special(e, Half(e, x) + up) && Pair(e, x) + 2 * s == Rim(e, up);
    }
  }

  lemma ChildHalves(e: Extents, i: int, j: int)
    requires e.Valid() && 0 <= i < e.nx && 0 <= j < e.nx
    ensures var c := Child(e, i, j);
      && c < 4 && HalfAlong(0, c) == Half(e, i) && HalfAcross(0, c) == Half(e, j) && HalfAlong(1, c) == Half(e, j) && HalfAcross(1, c) == Half(e, i)
      && 0 <= Half(e, i) < 2 && 0 <= Half(e, j) < 2
  {
  }

  /** One coarse EMF beside a coarse cell face, on whatever kind of line. */
  lemma MatchedAt(e: Extents, nq: nat, owner: nat -> nat, nproc: nat, M: Mesh, W: EmfWorld,
                  h: HangingFace, comp: nat, along: nat, x: nat, s: nat)
    requires e.Valid() && FacesOnce(nq, M) && Edges(e, nq, M) && AllRan(e, nq, owner, nproc, M, W) && EdgesCover(e, M)
    requires h in M.hanging && |h.fine| == 4 && comp < 2 && along < e.nx && x < e.nx && s < 2
    ensures var c := Child(e, if comp == 0 then along else x, if comp == 0 then x else along);
      OnLine(e, Owned(owner, W.E4), h.coarse, comp, along, x + s) == PairMean(e, Owned(owner, W.E4), h.fine[c], comp, Pair(e, along), Pair(e, x) + 2 * s)
  {
    var a, b := if comp == 0 then along else x, if comp == 0 then x else along;
    var c, off := Child(e, a, b), x + s;
    hide *;
    SpecialLine(e, x, s);
    ChildHalves(e, a, b);
    if 0 < off < e.nx && off != e.nx / 2 {
      ActiveMatched(e, nq, owner, nproc, M, W, h, comp, along, off);
      ChildByHalves(e, comp, along, x, off);
    } else {
      var up :| 0 <= up < 2 && Half(e, x) + up < 3 && off == Special(e, Half(e, x) + up) && Pair(e, x) + 2 * s == Rim(e, up);
      CoarseFacts(e, nq, owner, nproc, M, W, h);
      CoverAt(e, M, h, comp, Half(e, x) + up);
      JoinedMatched(e, nq, owner, nproc, M, W, h, comp, Half(e, x) + up, c, up, along);
    }
  }

  lemma CoverAt(e: Extents, M: Mesh, h: HangingFace, comp: nat, k: nat)
    requires (forall h | h in M.hanging :: |h.fine| == 4) && EdgesCover(e, M) && h in M.hanging && comp < 2 && k < 3
    ensures Joined(e, M, h, comp, k)
  {
  }

  lemma ChildByHalves(e: Extents, comp: nat, along: nat, x: nat, off: nat)
    requires e.Valid() && Half(e, off) == Half(e, x)
    ensures Child(e, if comp == 0 then along else x, if comp == 0 then x else along)
         == Child(e, if comp == 0 then along else off, if comp == 0 then off else along)
  {
  }

  /** After the four kernels on all ranks, the EMFs match along every coarse-fine face; so the
      update that follows keeps the magnetic flux matched there. */
  lemma CorrectedEmfsMatch(e: Extents, nq: nat, owner: nat -> nat, nproc: nat, M: Mesh, W: EmfWorld,
                           h: HangingFace)
    requires e.Valid() && FacesOnce(nq, M) && Edges(e, nq, M) && AllRan(e, nq, owner, nproc, M, W) && EdgesCover(e, M)
    requires h in M.hanging
    ensures |h.fine| == 4 && EmfMatched(e, Owned(owner, W.E4), h.coarse, h.fine)
  {
    hide *;
    CoarseFacts(e, nq, owner, nproc, M, W, h);
    forall i, j, s | 0 <= i < e.nx && 0 <= j < e.nx && 0 <= s < 2 ensures CellMatched(e, Owned(owner, W.E4), h, i, j, s) {
      MatchedAt(e, nq, owner, nproc, M, W, h, 0, i, j, s);
      MatchedAt(e, nq, owner, nproc, M, W, h, 1, j, i, s);
      CellMatchedFrom(e, Owned(owner, W.E4), h, i, j, s);
    }
    AllCellsMatched(e, Owned(owner, W.E4), h);
  }

  ghost predicate CellMatched(e: Extents, E: EmfField, h: HangingFace, i: nat, j: nat, s: nat)
    requires e.nx > 0 && |h.fine| == 4
  {
    && OnLine(e, E, h.coarse, 0, i, j + s) == PairMean(e, E, h.fine[Child(e, i, j)], 0, Pair(e, i), Pair(e, j) + 2 * s)
    && OnLine(e, E, h.coarse, 1, j, i + s) == PairMean(e, E, h.fine[Child(e, i, j)], 1, Pair(e, j), Pair(e, i) + 2 * s)
  }

  lemma CellMatchedFrom(e: Extents, E: EmfField, h: HangingFace, i: nat, j: nat, s: nat)
    requires e.nx > 0 && |h.fine| == 4
    requires OnLine(e, E, h.coarse, 0, i, j + s) == PairMean(e, E, h.fine[Child(e, i, j)], 0, Pair(e, i), Pair(e, j) + 2 * s)
    requires OnLine(e, E, h.coarse, 1, j, i + s) == PairMean(e, E, h.fine[Child(e, i, j)], 1, Pair(e, j), Pair(e, i) + 2 * s)
    ensures CellMatched(e, E, h, i, j, s)
  {
  }

  lemma AllCellsMatched(e: Extents, E: EmfField, h: HangingFace)
    requires e.Valid() && |h.fine| == 4
    requires forall i, j, s | 0 <= i < e.nx && 0 <= j < e.nx && 0 <= s < 2 :: CellMatched(e, E, h, i, j, s)
    ensures EmfMatched(e, E, h.coarse, h.fine)
  {
    hide OnLine, PairMean;
    forall i, j, s | 0 <= i < e.nx && 0 <= j < e.nx && 0 <= s < 2
      ensures var r, a, b := h.fine[Child(e, i, j)], 2 * i % e.nx, 2 * j % e.nx;
        && OnLine(e, E, h.coarse, 0, i, Beside(j, s)) == PairMean(e, E, r, 0, a, b + 2 * s)
        && OnLine(e, E, h.coarse, 1, j, Beside(i, s)) == PairMean(e, E, r, 1, b, a + 2 * s)
    {
      assert CellMatched(e, E, h, i, j, s);
    }
  }

  lemma MagneticFluxAcrossFaces(e: Extents, nq: nat, owner: nat -> nat, nproc: nat, M: Mesh, W: EmfWorld,
                                B0: Stag, B1: Stag, idx: Spacing, w: real, h: HangingFace)
    requires e.Valid() && FacesOnce(nq, M) && Edges(e, nq, M) && AllRan(e, nq, owner, nproc, M, W) && EdgesCover(e, M)
    requires h in M.hanging && HangingGeometry(nq, h.coarse, h.fine, idx) && FluxMatched(e, B0, h.coarse, h.fine)
    requires Transported(e, nq, B0, B1, Owned(owner, W.E4), idx, w)
    ensures FluxMatched(e, B1, h.coarse, h.fine)
  {
    hide *;
    CorrectedEmfsMatch(e, nq, owner, nproc, M, W, h);
    MagneticFluxStaysMatched(e, nq, B0, B1, Owned(owner, W.E4), idx, w, h.coarse, h.fine);
  }
}
