/** The whole correction step on a composite grid spread over ranks: fluxes match at every
    interface afterwards, so the update conserves every variable. */
module DistributedConservation {
  import opened Arithmetic
  import opened Sums
  import opened Grid
  import opened FluxUpdate
  import opened Conservation
  import opened CompositeGrid
  import opened Ranks
  import opened HangingFaces
  import opened HangingAgreement
  import opened FluxCorrection
  import opened PartitionIndependence

  /** The coarse-fine faces among the interfaces. */
  function HangingOf(ifaces: seq<Interface>): seq<HangingFace> {
    if ifaces == [] then []
    else (if ifaces[0].Hanging? then [HangingFace(ifaces[0].coarse, ifaces[0].fine)] else []) + HangingOf(ifaces[1..])
  }

  lemma {:induction false} InHangingOf(ifaces: seq<Interface>, h: HangingFace)
    ensures h in HangingOf(ifaces) <==> Hanging(h.coarse, h.fine) in ifaces
  {
    if ifaces != [] {
      InHangingOf(ifaces[1..], h);
      assert ifaces == [ifaces[0]] + ifaces[1..];
    }
  }

  lemma CountPush(s: seq<FaceRef>, y: FaceRef, x: FaceRef)
    ensures multiset(s + [y])[x] == multiset(s)[x] + if x == y then 1 else 0
  {
  }

  lemma CountTwo(s: seq<FaceRef>, y: FaceRef, z: FaceRef, x: FaceRef)
    ensures multiset(s + [y, z])[x] == multiset(s)[x] + (if x == y then 1 else 0) + if x == z then 1 else 0
  {
    CountPush(s, y, x);
    CountPush(s + [y], z, x);
    assert s + [y, z] == s + [y] + [z];
  }

  lemma CountSix(s: seq<FaceRef>, q: nat, x: FaceRef)
    ensures multiset(s + [FaceRef(q, 0), FaceRef(q, 1), FaceRef(q, 2), FaceRef(q, 3), FaceRef(q, 4), FaceRef(q, 5)])[x]
            == multiset(s)[x] + if x.q == q && x.f < 6 then 1 else 0
  {
    var s2 := s + [FaceRef(q, 0), FaceRef(q, 1)];
    var s4 := s2 + [FaceRef(q, 2), FaceRef(q, 3)];
    CountTwo(s, FaceRef(q, 0), FaceRef(q, 1), x);
    CountTwo(s2, FaceRef(q, 2), FaceRef(q, 3), x);
    CountTwo(s4, FaceRef(q, 4), FaceRef(q, 5), x);
    assert s + [FaceRef(q, 0), FaceRef(q, 1), FaceRef(q, 2), FaceRef(q, 3), FaceRef(q, 4), FaceRef(q, 5)]
        == s4 + [FaceRef(q, 4), FaceRef(q, 5)];
  }

  lemma {:induction false} FaceOnce(n: nat, x: FaceRef)
    ensures multiset(AllFaces(n))[x] == if x.q < n && x.f < 6 then 1 else 0
  {
    assert AllFaces(0) == [];
    if n > 0 {
      var q := n - 1;
      assert AllFaces(n) == AllFaces(q) + [FaceRef(q, 0), FaceRef(q, 1), FaceRef(q, 2), FaceRef(q, 3), FaceRef(q, 4), FaceRef(q, 5)];
      hide AllFaces;
      FaceOnce(q, x);
      CountSix(AllFaces(q), q, x);
    }
  }

  ghost function Occurrences(s: seq<FaceRef>, x: FaceRef): nat { multiset(s)[x] }

  lemma OccursOnce(s: seq<FaceRef>, x: FaceRef)
    requires x in s
    ensures Occurrences(s, x) >= 1
  {
    assert x in multiset(s);
  }

  lemma FlattenHead(ifaces: seq<Interface>, x: FaceRef)
    requires ifaces != []
    ensures Occurrences(Flatten(ifaces), x) == Occurrences(ifaces[0].Faces(), x) + Occurrences(Flatten(ifaces[1..]), x)
  {
  }

  lemma {:induction false} FlattenCounts(ifaces: seq<Interface>, n: nat, x: FaceRef)
    requires n < |ifaces| && x in ifaces[n].Faces()
    ensures Occurrences(Flatten(ifaces), x) >= 1
  {
    hide *;
    FlattenHead(ifaces, x);
    if n > 0 { FlattenCounts(ifaces[1..], n - 1, x); } else { OccursOnce(ifaces[0].Faces(), x); }
  }

  lemma {:induction false} FlattenCountsTwice(ifaces: seq<Interface>, m: nat, n: nat, x: FaceRef)
    requires m < n < |ifaces| && x in ifaces[m].Faces() && x in ifaces[n].Faces()
    ensures Occurrences(Flatten(ifaces), x) >= 2
  {
    hide *;
    FlattenHead(ifaces, x);
    if m > 0 {
      FlattenCountsTwice(ifaces[1..], m - 1, n - 1, x);
    } else {
      FlattenCounts(ifaces[1..], n - 1, x);
      OccursOnce(ifaces[0].Faces(), x);
    }
  }

  /** A quadrant face lies in one interface only, and is a face of the grid. */
  lemma OneInterface(nq: nat, ifaces: seq<Interface>, dx: Spacing, x: FaceRef)
    requires Composite(nq, ifaces, dx)
    ensures forall m | 0 <= m < |ifaces| && x in ifaces[m].Faces() :: x.q < nq && x.f < 6
    ensures forall m, n | 0 <= m < |ifaces| && 0 <= n < |ifaces| && x in ifaces[m].Faces() && x in ifaces[n].Faces() :: m == n
  {
    FaceOnce(nq, x);
    hide Flatten, Geometric;
    forall m | 0 <= m < |ifaces| && x in ifaces[m].Faces() ensures x.q < nq && x.f < 6 {
      FlattenCounts(ifaces, m, x);
    }
    forall m, n | 0 <= m < |ifaces| && 0 <= n < |ifaces| && x in ifaces[m].Faces() && x in ifaces[n].Faces() ensures m == n {
      if m < n { FlattenCountsTwice(ifaces, m, n, x); }
      if n < m { FlattenCountsTwice(ifaces, n, m, x); }
    }
  }

  /** The coarse-fine faces of a composite grid are as the correction needs them. */
  lemma CompositeGridFaces(nq: nat, ifaces: seq<Interface>, dx: Spacing)
    requires Composite(nq, ifaces, dx)
    ensures GridFaces(nq, HangingOf(ifaces))
  {
    hide Composite, HangingOf, Opposite;
    var faces := HangingOf(ifaces);
    forall h | h in faces
      ensures |h.fine| == 4 && h.coarse.q < nq && h.coarse.f < 6
      ensures forall n | 0 <= n < 4 :: h.fine[n].q < nq && h.fine[n].f == Opposite(h.coarse.f)
    {
      SidesExist(nq, ifaces, dx, h);
    }
    forall g, h | g in faces && h in faces && g.coarse == h.coarse ensures g == h {
      CoarseOnce(nq, ifaces, dx, g, h);
    }
    forall g, h, n | g in faces && h in faces && 0 <= n < |h.fine| ensures g.coarse != h.fine[n] {
      CoarseIsNotFine(nq, ifaces, dx, g, h, n);
    }
  }

  lemma SidesExist(nq: nat, ifaces: seq<Interface>, dx: Spacing, h: HangingFace)
    requires Composite(nq, ifaces, dx) && h in HangingOf(ifaces)
    ensures |h.fine| == 4 && h.coarse.q < nq && h.coarse.f < 6
    ensures forall n | 0 <= n < 4 :: h.fine[n].q < nq && h.fine[n].f == Opposite(h.coarse.f)
  {
    hide Composite, HangingOf, Opposite;
    var k := PositionOf(nq, ifaces, dx, h);
    OneInterface(nq, ifaces, dx, h.coarse);
    assert h.coarse in ifaces[k].Faces();
    forall n | 0 <= n < 4 ensures h.fine[n].q < nq {
      OneInterface(nq, ifaces, dx, h.fine[n]);
      FineIsFace(h, n);
    }
  }

  lemma CoarseOnce(nq: nat, ifaces: seq<Interface>, dx: Spacing, g: HangingFace, h: HangingFace)
    requires Composite(nq, ifaces, dx) && g in HangingOf(ifaces) && h in HangingOf(ifaces) && g.coarse == h.coarse
    ensures g == h
  {
    hide Composite, HangingOf, Opposite;
    var m := PositionOf(nq, ifaces, dx, g);
    var n := PositionOf(nq, ifaces, dx, h);
    assert g.coarse in ifaces[m].Faces() && h.coarse in ifaces[n].Faces();
    OneInterface(nq, ifaces, dx, g.coarse);
  }

  lemma CoarseIsNotFine(nq: nat, ifaces: seq<Interface>, dx: Spacing, g: HangingFace, h: HangingFace, n: nat)
    requires Composite(nq, ifaces, dx) && g in HangingOf(ifaces) && h in HangingOf(ifaces) && n < |h.fine|
    ensures g.coarse != h.fine[n]
  {
    hide Composite, HangingOf;
    var m := PositionOf(nq, ifaces, dx, g);
    var k := PositionOf(nq, ifaces, dx, h);
    assert g.coarse in ifaces[m].Faces();
    FineIsFace(h, n);
    OneInterface(nq, ifaces, dx, g.coarse);
  }

  lemma FineIsFace(h: HangingFace, n: nat)
    requires n < |h.fine|
    ensures h.fine[n] in Hanging(h.coarse, h.fine).Faces()
  {
    assert ([h.coarse] + h.fine)[n + 1] == h.fine[n];
  }

  lemma PositionOf(nq: nat, ifaces: seq<Interface>, dx: Spacing, h: HangingFace) returns (k: nat)
    requires Composite(nq, ifaces, dx) && h in HangingOf(ifaces)
    ensures k < |ifaces| && ifaces[k] == Hanging(h.coarse, h.fine)
    ensures |h.fine| == 4 && h.coarse.f < 6 && forall n | 0 <= n < 4 :: h.fine[n].f == Opposite(h.coarse.f)
  {
    InHangingOf(ifaces, h);
    k :| 0 <= k < |ifaces| && ifaces[k] == Hanging(h.coarse, h.fine);
    assert Geometric(ifaces[k], dx);
  }

  /** A face that is nobody's coarse side keeps its fluxes. */
  lemma FaceKept(e: Extents, nq: nat, faces: seq<HangingFace>, G0: FluxField, G1: FluxField, r: FaceRef, i: nat, j: nat, v: nat)
    requires e.Valid() && GridFaces(nq, faces) && GloballyCorrected(e, nq, G0, G1, faces)
    requires r.q < nq && r.f < 6 && i < e.nx && j < e.nx && v < e.nvars
    requires forall h | h in faces :: h.coarse != r
    ensures G1(FaceIx(e, r.f, i, j, v, r.q)) == G0(FaceIx(e, r.f, i, j, v, r.q))
  {
    var y := FaceIx(e, r.f, i, j, v, r.q);
    FineInFace(e, nq, r, i, j, v);
    hide FaceIx, FineMean;
    if IsCoarse(e, faces, y) {
      var h, a, b, w :| h in faces && 0 <= a < e.nx && 0 <= b < e.nx && 0 <= w < e.nvars && y == FaceIx(e, h.coarse.f, a, b, w, h.coarse.q);
      assert h.fine[0].f == Opposite(h.coarse.f) && h.coarse.f < 6;
      FaceIxInjective(e, r.f, i, j, v, r.q, h.coarse.f, a, b, w, h.coarse.q);
    }
  }

  lemma NotCoarse(nq: nat, ifaces: seq<Interface>, dx: Spacing, k: nat, r: FaceRef)
    requires Composite(nq, ifaces, dx) && k < |ifaces| && r in ifaces[k].Faces()
    requires ifaces[k].Hanging? ==> r != ifaces[k].coarse
    ensures r.q < nq && r.f < 6 && forall h | h in HangingOf(ifaces) :: h.coarse != r
  {
    OneInterface(nq, ifaces, dx, r);
    forall h | h in HangingOf(ifaces) ensures h.coarse != r {
      var m := PositionOf(nq, ifaces, dx, h);
      hide Composite;
      assert h.coarse in ifaces[m].Faces();
    }
  }

  /** After the correction the two sides of every interface see the same flux. */
  lemma MatchedAfterCorrection(e: Extents, nq: nat, ifaces: seq<Interface>, dx: Spacing, G0: FluxField, G1: FluxField, k: nat)
    requires e.Valid() && Composite(nq, ifaces, dx) && k < |ifaces| && GridFaces(nq, HangingOf(ifaces))
    requires GloballyCorrected(e, nq, G0, G1, HangingOf(ifaces))
    requires ifaces[k].SameLevel? ==> Matched(e, G0, ifaces[k])
    ensures Matched(e, G1, ifaces[k])
  {
    match ifaces[k]
    case SameLevel(a, b) => SameLevelAfter(e, nq, ifaces, dx, G0, G1, k, a, b);
    case Hanging(c, fine) =>
      var h := HangingFace(c, fine);
      InHangingOf(ifaces, h);
      assert Geometric(ifaces[k], dx);
      hide Composite, HangingOf, FaceIx, FineMean;
      forall i, j, v | 0 <= i < e.nx && 0 <= j < e.nx && 0 <= v < e.nvars
        ensures G1(FaceIx(e, c.f, i, j, v, c.q)) == FineMean(e, G1, fine[Child(e, i, j)], i, j, v)
      {
        FineMeanKept(e, nq, ifaces, dx, G0, G1, k, i, j, v);
      }
    case Outer(_) =>
  }

  lemma SameLevelAfter(e: Extents, nq: nat, ifaces: seq<Interface>, dx: Spacing, G0: FluxField, G1: FluxField, k: nat, a: FaceRef, b: FaceRef)
    requires e.Valid() && Composite(nq, ifaces, dx) && k < |ifaces| && GridFaces(nq, HangingOf(ifaces)) && ifaces[k] == SameLevel(a, b)
    requires GloballyCorrected(e, nq, G0, G1, HangingOf(ifaces)) && Matched(e, G0, ifaces[k])
    ensures Matched(e, G1, ifaces[k])
  {
    NotCoarse(nq, ifaces, dx, k, a);
    NotCoarse(nq, ifaces, dx, k, b);
    hide Composite, HangingOf, GridFaces, GloballyCorrected, FaceIx;
    forall i, j, v | 0 <= i < e.nx && 0 <= j < e.nx && 0 <= v < e.nvars
      ensures G1(FaceIx(e, a.f, i, j, v, a.q)) == G1(FaceIx(e, b.f, i, j, v, b.q))
    {
      FaceKept(e, nq, HangingOf(ifaces), G0, G1, a, i, j, v);
      FaceKept(e, nq, HangingOf(ifaces), G0, G1, b, i, j, v);
    }
  }

  lemma FineMeanKept(e: Extents, nq: nat, ifaces: seq<Interface>, dx: Spacing, G0: FluxField, G1: FluxField, k: nat, i: nat, j: nat, v: nat)
    requires e.Valid() && Composite(nq, ifaces, dx) && k < |ifaces| && ifaces[k].Hanging? && GridFaces(nq, HangingOf(ifaces))
    requires GloballyCorrected(e, nq, G0, G1, HangingOf(ifaces)) && |ifaces[k].fine| == 4
    requires i < e.nx && j < e.nx && v < e.nvars
    ensures var r := ifaces[k].fine[Child(e, i, j)]; FineMean(e, G1, r, i, j, v) == FineMean(e, G0, r, i, j, v)
  {
    var c := Child(e, i, j);
    var h := HangingFace(ifaces[k].coarse, ifaces[k].fine);
    var r := h.fine[c];
    InHangingOf(ifaces, h);
    FineIsFace(h, c);
    NotCoarse(nq, ifaces, dx, k, r);
    ChildIndex(e, i);
    ChildIndex(e, j);
    hide Composite, HangingOf, FaceIx, GridFaces, GloballyCorrected;
    var a, b := 2 * i % e.nx, 2 * j % e.nx;
    forall p, s | a <= p < a + 2 && b <= s < b + 2 ensures OnFace(e, G1, v, r)(p, s) == OnFace(e, G0, v, r)(p, s) {
      FaceKept(e, nq, HangingOf(ifaces), G0, G1, r, p, s, v);
    }
  }

  /** What the ranks hold during the update, in their own quadrant numbers: state before and after,
      sources and inverse spacings. */
  datatype Substep = Substep(U0: nat -> CellField, U1: nat -> CellField, S: nat -> CellField, idx: nat -> Spacing)

  /** The global field the ranks hold together. */
  ghost function Gathered(P: Partition, U: nat -> CellField): (G: CellField)
    ensures forall x: CellIx {:trigger G(x)} | x.q >= 0 :: G(x) == U(P.owner(x.q))(x.(q := P.lid(x.q)))
  {
    (x: CellIx) => if x.q >= 0 then U(P.owner(x.q))(x.(q := P.lid(x.q))) else 0.0
  }

  /** Every rank ran the update kernel on its own quadrants with its corrected fluxes. */
  ghost predicate RanksUpdated(P: Partition, e: Extents, nq: nat, nloc: nat -> nat, W: World, V: Substep, idx: Spacing, c: real) {
    && (forall r | 0 <= r < P.nproc :: Updated(e, nloc(r), V.U0(r), V.U1(r), V.S(r), W(r).F1, V.idx(r), c))
    && SameSpacing(P, nq, V, idx)
  }

  ghost predicate SameSpacing(P: Partition, nq: nat, V: Substep, idx: Spacing) {
    forall d, q | 0 <= d < 3 && 0 <= q < nq :: V.idx(P.owner(q))(d, P.lid(q)) == idx(d, q)
  }

  /** The owner's flux is the global one. */
  lemma OwnerFlux(P: Partition, W: World, x: FluxIx)
    requires x.q >= 0
    ensures After(P, W)(x) == W(P.owner(x.q)).F1(x.(q := P.lid(x.q)))
  {
    hide After;
  }

  lemma NetIsLocal(F: FluxField, G: FluxField, d: int, x: CellIx, y: CellIx)
    requires forall i, j, k, v :: F(FluxIx(i, j, k, v, d, x.q)) == G(FluxIx(i, j, k, v, d, y.q))
    requires y == x.(q := y.q)
    ensures Net(F, d, x) == Net(G, d, y)
  {
  }

  lemma OwnerNet(P: Partition, W: World, d: int, x: CellIx)
    requires x.q >= 0
    ensures Net(W(P.owner(x.q)).F1, d, x.(q := P.lid(x.q))) == Net(After(P, W), d, x)
  {
    var o, y := P.owner(x.q), x.(q := P.lid(x.q));
    forall i, j, k, v ensures After(P, W)(FluxIx(i, j, k, v, d, x.q)) == W(o).F1(FluxIx(i, j, k, v, d, y.q)) {
      OwnerFlux(P, W, FluxIx(i, j, k, v, d, x.q));
    }
    hide After, Net;
    NetIsLocal(After(P, W), W(o).F1, d, x, y);
  }

  /** The owner's flux divergence is the global one. */
  lemma OwnerDivergence(P: Partition, nq: nat, W: World, V: Substep, idx: Spacing, x: CellIx)
    requires 0 <= x.q < nq && SameSpacing(P, nq, V, idx)
    ensures Divergence(W(P.owner(x.q)).F1, V.idx(P.owner(x.q)), x.(q := P.lid(x.q))) == Divergence(After(P, W), idx, x)
  {
    hide After, Net;
    OwnerNet(P, W, 0, x);
    OwnerNet(P, W, 1, x);
    OwnerNet(P, W, 2, x);
  }

  /** One cell of the global update. */
  lemma OwnerUpdate(P: Partition, e: Extents, nq: nat, nloc: nat -> nat, W: World, V: Substep, idx: Spacing, c: real, x: CellIx)
    requires P.Valid(nq) && Enumerates(P, nq, nloc) && RanksUpdated(P, e, nq, nloc, W, V, idx, c)
    requires Interior(e, nq)(CellItem(x.i, x.j, x.k, x.q)) && 0 <= x.v < e.nvars
    ensures x.q >= 0 && V.U1(P.owner(x.q))(x.(q := P.lid(x.q)))
         == V.U0(P.owner(x.q))(x.(q := P.lid(x.q))) + V.S(P.owner(x.q))(x.(q := P.lid(x.q))) + c * Divergence(After(P, W), idx, x)
  {
    hide *;
    OwnerRan(P, e, nq, nloc, W, V, idx, c, x);
    OwnerDivergence(P, nq, W, V, idx, x);
    var o, y, gain := P.owner(x.q), x.(q := P.lid(x.q)), Divergence(After(P, W), idx, x);
    UpdatedWith(e, nloc(o), V.U0(o), V.U1(o), V.S(o), W(o).F1, V.idx(o), c, y, gain);
  }

  lemma UpdatedWith(e: Extents, nq: nat, U0: CellField, U1: CellField, S: CellField, F: FluxField, idx: Spacing, c: real, x: CellIx, gain: real)
    requires Updated(e, nq, U0, U1, S, F, idx, c) && Interior(e, nq)(CellItem(x.i, x.j, x.k, x.q)) && 0 <= x.v < e.nvars
    requires Divergence(F, idx, x) == gain
    ensures U1(x) == U0(x) + S(x) + c * gain
  {
    hide Divergence;
  }

  lemma OwnerRan(P: Partition, e: Extents, nq: nat, nloc: nat -> nat, W: World, V: Substep, idx: Spacing, c: real, x: CellIx)
    requires P.Valid(nq) && Enumerates(P, nq, nloc) && RanksUpdated(P, e, nq, nloc, W, V, idx, c)
    requires Interior(e, nq)(CellItem(x.i, x.j, x.k, x.q))
    ensures 0 <= x.q < nq && SameSpacing(P, nq, V, idx)
    ensures var o := P.owner(x.q);
      Updated(e, nloc(o), V.U0(o), V.U1(o), V.S(o), W(o).F1, V.idx(o), c) && Interior(e, nloc(o))(CellItem(x.i, x.j, x.k, P.lid(x.q)))
  {
    hide Updated, SameSpacing;
  }

  /** Together the kernel runs of all ranks are one update of the global field with the global corrected fluxes. */
  lemma RanksComputeGlobalUpdate(P: Partition, e: Extents, nq: nat, nloc: nat -> nat, W: World, V: Substep, idx: Spacing, c: real)
    requires P.Valid(nq) && Enumerates(P, nq, nloc) && RanksUpdated(P, e, nq, nloc, W, V, idx, c)
    ensures Updated(e, nq, Gathered(P, V.U0), Gathered(P, V.U1), Gathered(P, V.S), After(P, W), idx, c)
  {
    hide Divergence, Interior, After, Gathered, RanksUpdated, Enumerates;
    forall x: CellIx | Interior(e, nq)(CellItem(x.i, x.j, x.k, x.q)) && 0 <= x.v < e.nvars
      ensures Gathered(P, V.U1)(x) == Gathered(P, V.U0)(x) + Gathered(P, V.S)(x) + c * Divergence(After(P, W), idx, x)
    {
      OwnerUpdate(P, e, nq, nloc, W, V, idx, c, x);
    }
  }

  /** Global conservation, end to end: on a composite grid spread over any number of ranks
      in any way, with same-level fluxes equal on both sides, the corrections and updates of all ranks together
      change the total of every variable by its sources and by the flux through the outer boundary only. */
  lemma DistributedUpdateConserves(P: Partition, e: Extents, nq: nat, nloc: nat -> nat, ifaces: seq<Interface>, W: World,
                                   V: Substep, idx: Spacing, dx: Spacing, c: real, v: nat)
    requires e.Valid() && v < e.nvars && Composite(nq, ifaces, dx) && InverseSpacing(idx, dx, nq)
    requires P.Valid(nq) && Enumerates(P, nq, nloc) && AllRan(P, e, nloc, HangingOf(ifaces), W)
    requires forall k | 0 <= k < |ifaces| && ifaces[k].SameLevel? :: Matched(e, Before(P, W), ifaces[k])
    requires RanksUpdated(P, e, nq, nloc, W, V, idx, c)
    ensures Total(e, Gathered(P, V.U1), dx, v, nq) == Total(e, Gathered(P, V.U0), dx, v, nq) + Total(e, Gathered(P, V.S), dx, v, nq)
                                                    + c * SumSeq(InflowOf(e, After(P, W), dx, v), OuterFaces(ifaces))
  {
    hide *;
    CompositeGridFaces(nq, ifaces, dx);
    RanksComputeGlobalCorrection(P, e, nq, nloc, HangingOf(ifaces), W);
    FourFine(nq, HangingOf(ifaces));
    forall k | 0 <= k < |ifaces| ensures Matched(e, After(P, W), ifaces[k]) {
      MatchedAfterCorrection(e, nq, ifaces, dx, Before(P, W), After(P, W), k);
    }
    RanksComputeGlobalUpdate(P, e, nq, nloc, W, V, idx, c);
    CompositeConservation(e, nq, ifaces, Gathered(P, V.U0), Gathered(P, V.U1), Gathered(P, V.S), After(P, W), idx, dx, c, v);
  }
}
