/** Conservation on the composite grid: fluxes that match across every interface
    make all interior exchange cancel, whatever the refinement pattern. */
module CompositeGrid {
  import opened Sums
  import opened Arithmetic
  import opened Grid
  import opened FluxUpdate
  import opened Conservation

  /** The mean of the four fine fluxes of fine face r that lie on coarse cell face (i, j). */
  ghost function FineMean(e: Extents, F: FluxField, r: FaceRef, i: int, j: int, v: int): real
    requires e.nx > 0
  {
    0.25 * Block(OnFace(e, F, v, r), 2 * i % e.nx, 2 * j % e.nx)
  }

  /** Both sides of the interface see the same flux; across a refinement
      boundary the coarse flux is the mean of the fine ones it faces. */
  ghost predicate Matched(e: Extents, F: FluxField, iface: Interface)
    requires e.Valid()
  {
    match iface
    case SameLevel(a, b) =>
      forall i, j, v | 0 <= i < e.nx && 0 <= j < e.nx && 0 <= v < e.nvars ::
        F(FaceIx(e, a.f, i, j, v, a.q)) == F(FaceIx(e, b.f, i, j, v, b.q))
    case Hanging(c, fine) =>
      && |fine| == 4
      && forall i, j, v | 0 <= i < e.nx && 0 <= j < e.nx && 0 <= v < e.nvars ::
           F(FaceIx(e, c.f, i, j, v, c.q)) == FineMean(e, F, fine[Child(e, i, j)], i, j, v)
    case Outer(_) => true
  }

  lemma QuarterSum(quarter: (int, int) -> real, fine: (int, int) -> real, n: nat)
    requires forall a, b | 0 <= a < n && 0 <= b < n :: quarter(a, b) == 0.25 * Block(fine, 2 * a, 2 * b)
    ensures Sum2(quarter, 0, n) == 0.25 * Sum2(fine, 0, 2 * n)
  {
    hide Sum2, Block;
    var blocks := (a, b) => Block(fine, 2 * a, 2 * b);
    SumBlocks(blocks, fine, n);
    Sum2Linear(quarter, blocks, blocks, 0.25, 0.0, 0, n);
  }

  /** A coarse index in either half of the face points at the same fine index of its child. */
  lemma QuarterIndex(e: Extents, a: int)
    requires e.Valid() && 0 <= a < e.nx / 2
    ensures 2 * a < e.nx && 2 * a % e.nx == 2 * a
    ensures 2 * (a + e.nx / 2) >= e.nx && 2 * (a + e.nx / 2) % e.nx == 2 * a
  {
    ModUnique(2 * a, e.nx, 0, 2 * a);
    ModUnique(2 * (a + e.nx / 2), e.nx, 1, 2 * a);
  }

  /** The matched coarse flux in each quarter of the face, seen from that quarter's fine quadrant. */
  lemma QuarterAt(e: Extents, F: FluxField, c: FaceRef, fine: seq<FaceRef>, v: nat, a: int, b: int)
    requires e.Valid() && v < e.nvars && |fine| == 4 && Matched(e, F, Hanging(c, fine))
    requires 0 <= a < e.nx / 2 && 0 <= b < e.nx / 2
    ensures var n, f := e.nx / 2, OnFace(e, F, v, c);
      && f(a, b) == 0.25 * Block(OnFace(e, F, v, fine[0]), 2 * a, 2 * b)
      && f(a + n, b) == 0.25 * Block(OnFace(e, F, v, fine[1]), 2 * a, 2 * b)
      && f(a, b + n) == 0.25 * Block(OnFace(e, F, v, fine[2]), 2 * a, 2 * b)
      && f(a + n, b + n) == 0.25 * Block(OnFace(e, F, v, fine[3]), 2 * a, 2 * b)
  {
    hide Block, OnFace, FaceIx;
    var n, f := e.nx / 2, OnFace(e, F, v, c);
    QuarterIndex(e, a);
    QuarterIndex(e, b);
    assert f(a, b) == FineMean(e, F, fine[Child(e, a, b)], a, b, v);
    assert f(a + n, b) == FineMean(e, F, fine[Child(e, a + n, b)], a + n, b, v);
    assert f(a, b + n) == FineMean(e, F, fine[Child(e, a, b + n)], a, b + n, v);
    assert f(a + n, b + n) == FineMean(e, F, fine[Child(e, a + n, b + n)], a + n, b + n, v);
  }

  /** Summed over the coarse face, the matched flux is a quarter of all the fine fluxes. */
  lemma HangingFaceSum(e: Extents, F: FluxField, c: FaceRef, fine: seq<FaceRef>, v: nat)
    requires e.Valid() && v < e.nvars && |fine| == 4 && Matched(e, F, Hanging(c, fine))
    ensures FaceSum(e, F, v, c) == 0.25 * (FaceSum(e, F, v, fine[0]) + FaceSum(e, F, v, fine[1])
                                         + FaceSum(e, F, v, fine[2]) + FaceSum(e, F, v, fine[3]))
  {
    hide Sum2, Block, OnFace, Matched;
    var n, f := e.nx / 2, OnFace(e, F, v, c);
    var q0 := (a, b) => f(a, b);
    var q1 := (a, b) => f(a + n, b);
    var q2 := (a, b) => f(a, b + n);
    var q3 := (a, b) => f(a + n, b + n);
    Sum2Quarters(f, q0, q1, q2, q3, n);
    forall a, b | 0 <= a < n && 0 <= b < n
      ensures q0(a, b) == 0.25 * Block(OnFace(e, F, v, fine[0]), 2 * a, 2 * b)
      ensures q1(a, b) == 0.25 * Block(OnFace(e, F, v, fine[1]), 2 * a, 2 * b)
      ensures q2(a, b) == 0.25 * Block(OnFace(e, F, v, fine[2]), 2 * a, 2 * b)
      ensures q3(a, b) == 0.25 * Block(OnFace(e, F, v, fine[3]), 2 * a, 2 * b)
    {
      QuarterAt(e, F, c, fine, v, a, b);
    }
    QuarterSum(q0, OnFace(e, F, v, fine[0]), n);
    QuarterSum(q1, OnFace(e, F, v, fine[1]), n);
    QuarterSum(q2, OnFace(e, F, v, fine[2]), n);
    QuarterSum(q3, OnFace(e, F, v, fine[3]), n);
  }

  /** A coarse face has four times the area of a fine one. */
  lemma CoarseFineArea(dx: Spacing, c: FaceRef, r: FaceRef, d: nat)
    requires d < 3 && forall k | 0 <= k < 3 :: dx(k, c.q) == 2.0 * dx(k, r.q)
    ensures Area(dx, d, c.q) == 4.0 * Area(dx, d, r.q)
  {
    assert dx(0, c.q) == 2.0 * dx(0, r.q) && dx(1, c.q) == 2.0 * dx(1, r.q) && dx(2, c.q) == 2.0 * dx(2, r.q);
  }

  /** Opposite faces share their axis and carry opposite signs. */
  lemma OppositeInflow(e: Extents, F: FluxField, dx: Spacing, v: int, c: FaceRef, r: FaceRef)
    requires r.f == Opposite(c.f)
    ensures r.f / 2 == c.f / 2
    ensures Inflow(e, F, dx, v, c) == Sign(c) * (Area(dx, c.f / 2, c.q) * FaceSum(e, F, v, c))
    ensures Inflow(e, F, dx, v, r) == -Sign(c) * (Area(dx, c.f / 2, r.q) * FaceSum(e, F, v, r))
  {
    hide Area, FaceSum;
  }

  ghost function Sign(r: FaceRef): real { if r.f % 2 == 0 then 1.0 else -1.0 }

  lemma SumOfFive(g: FaceRef -> real, c: FaceRef, fine: seq<FaceRef>)
    requires |fine| == 4
    ensures SumSeq(g, [c] + fine) == g(c) + g(fine[0]) + g(fine[1]) + g(fine[2]) + g(fine[3])
  {
    var s1 := ([c] + fine)[1..];
    var s2 := s1[1..];
    var s3 := s2[1..];
    var s4 := s3[1..];
    assert SumSeq(g, s4[1..]) == 0.0;
    assert SumSeq(g, s3) == g(fine[2]) + g(fine[3]);
    assert SumSeq(g, s1) == g(fine[0]) + g(fine[1]) + SumSeq(g, s3);
  }

  lemma Balance(s: real, a: real, ac: real, sum: real, p0: real, p1: real, p2: real, p3: real)
    requires ac == 4.0 * a && sum == 0.25 * (p0 + p1 + p2 + p3)
    ensures s * (ac * sum) - s * (a * p0) - s * (a * p1) - s * (a * p2) - s * (a * p3) == 0.0
  {
    assert ac * sum == a * (p0 + p1 + p2 + p3);
  }

  lemma HangingCancels(e: Extents, F: FluxField, dx: Spacing, v: nat, c: FaceRef, fine: seq<FaceRef>)
    requires e.Valid() && v < e.nvars && Geometric(Hanging(c, fine), dx) && Matched(e, F, Hanging(c, fine))
    ensures SumSeq(InflowOf(e, F, dx, v), [c] + fine) == 0.0
  {
    hide Area, FaceSum, Inflow, InflowOf, Matched, SumSeq, Opposite;
    var g, d := InflowOf(e, F, dx, v), c.f / 2;
    HangingFaceSum(e, F, c, fine, v);
    forall n | 0 <= n < 4
      ensures fine[n].f / 2 == d && Area(dx, d, fine[n].q) == 0.25 * Area(dx, d, c.q)
      ensures g(fine[n]) == -Sign(c) * (Area(dx, d, fine[n].q) * FaceSum(e, F, v, fine[n]))
    {
      OppositeInflow(e, F, dx, v, c, fine[n]);
      CoarseFineArea(dx, c, fine[n], d);
    }
    OppositeInflow(e, F, dx, v, c, fine[0]);
    SumOfFive(g, c, fine);
    Balance(Sign(c), Area(dx, d, fine[0].q), Area(dx, d, c.q), FaceSum(e, F, v, c), FaceSum(e, F, v, fine[0]),
            FaceSum(e, F, v, fine[1]), FaceSum(e, F, v, fine[2]), FaceSum(e, F, v, fine[3]));
  }

  lemma SameLevelCancels(e: Extents, F: FluxField, dx: Spacing, v: nat, a: FaceRef, b: FaceRef)
    requires e.Valid() && v < e.nvars && Geometric(SameLevel(a, b), dx) && Matched(e, F, SameLevel(a, b))
    ensures SumSeq(InflowOf(e, F, dx, v), [a, b]) == 0.0
  {
    var g := InflowOf(e, F, dx, v);
    var s1 := [a, b][1..];
    assert SumSeq(g, s1[1..]) == 0.0;
    assert SumSeq(g, [a, b]) == g(a) + g(b);
    OppositeInflow(e, F, dx, v, a, b);
    Sum2Eq(OnFace(e, F, v, a), OnFace(e, F, v, b), 0, e.nx);
    assert Area(dx, a.f / 2, a.q) == Area(dx, a.f / 2, b.q) by {
      assert dx(0, a.q) == dx(0, b.q) && dx(1, a.q) == dx(1, b.q) && dx(2, a.q) == dx(2, b.q);
    }
  }

  /** The faces on the outer boundary of the domain. */
  ghost function OuterFaces(ifaces: seq<Interface>): seq<FaceRef> {
    if ifaces == [] then []
    else (if ifaces[0].Outer? then [ifaces[0].a] else []) + OuterFaces(ifaces[1..])
  }

  /** Summed over all interfaces, only the outer boundary remains. */
  lemma {:induction false} InteriorCancels(e: Extents, F: FluxField, dx: Spacing, v: nat, ifaces: seq<Interface>)
    requires e.Valid() && v < e.nvars
    requires forall n | 0 <= n < |ifaces| :: Geometric(ifaces[n], dx) && Matched(e, F, ifaces[n])
    ensures SumSeq(InflowOf(e, F, dx, v), Flatten(ifaces)) == SumSeq(InflowOf(e, F, dx, v), OuterFaces(ifaces))
  {
    hide Geometric, Matched, InflowOf, SumSeq;
    var g := InflowOf(e, F, dx, v);
    if ifaces != [] {
      var first, rest := ifaces[0], ifaces[1..];
      InteriorCancels(e, F, dx, v, rest);
      SumSeqAppend(g, first.Faces(), Flatten(rest));
      match first
      case SameLevel(a, b) => SameLevelCancels(e, F, dx, v, a, b); assert [] + OuterFaces(rest) == OuterFaces(rest);
      case Hanging(c, fine) => HangingCancels(e, F, dx, v, c, fine); assert [] + OuterFaces(rest) == OuterFaces(rest);
      case Outer(a) => SumSeqAppend(g, [a], OuterFaces(rest));
    }
  }

  /** The volume-weighted total of variable v over the first n quadrants. */
  ghost function Total(e: Extents, U: CellField, dx: Spacing, v: int, n: nat): real {
    if n == 0 then 0.0 else Total(e, U, dx, v, n - 1) + QuadTotal(e, U, dx, v, n - 1)
  }

  /** c times x, named so that proofs that only add such terms need no multiplication. */
  ghost function Scaled(c: real, x: real): real { c * x }

  lemma ScaledSum(c: real, x: real, y: real)
    ensures Scaled(c, x + y) == Scaled(c, x) + Scaled(c, y)
  {
  }

  lemma QuadBalanceScaled(e: Extents, nq: nat, U0: CellField, U1: CellField, S: CellField, F: FluxField,
                          idx: Spacing, dx: Spacing, c: real, v: nat, q: nat)
    requires Updated(e, nq, U0, U1, S, F, idx, c) && InverseSpacing(idx, dx, nq) && v < e.nvars && q < nq
    ensures QuadTotal(e, U1, dx, v, q) == QuadTotal(e, U0, dx, v, q) + QuadTotal(e, S, dx, v, q)
                                        + Scaled(c, SumSeq(InflowOf(e, F, dx, v), Faces(q)))
  {
    QuadBalance(e, nq, U0, U1, S, F, idx, dx, c, v, q);
    hide Updated, InverseSpacing, QuadTotal, SumSeq, InflowOf;
  }

  lemma {:induction false} TotalBalance(e: Extents, nq: nat, U0: CellField, U1: CellField, S: CellField, F: FluxField,
                                        idx: Spacing, dx: Spacing, c: real, v: nat, n: nat)
    requires Updated(e, nq, U0, U1, S, F, idx, c) && InverseSpacing(idx, dx, nq) && v < e.nvars && n <= nq
    ensures Total(e, U1, dx, v, n) == Total(e, U0, dx, v, n) + Total(e, S, dx, v, n)
                                    + Scaled(c, SumSeq(InflowOf(e, F, dx, v), AllFaces(n)))
  {
    hide Updated, InverseSpacing, QuadTotal, InflowOf;
    var g := InflowOf(e, F, dx, v);
    if n == 0 {
      assert AllFaces(n) == [];
    } else {
      hide Scaled;
      TotalBalance(e, nq, U0, U1, S, F, idx, dx, c, v, n - 1);
      QuadBalanceScaled(e, nq, U0, U1, S, F, idx, dx, c, v, n - 1);
      SumSeqAppend(g, AllFaces(n - 1), Faces(n - 1));
      ScaledSum(c, SumSeq(g, AllFaces(n - 1)), SumSeq(g, Faces(n - 1)));
    }
  }

  lemma CompositeBalance(e: Extents, nq: nat, ifaces: seq<Interface>, U0: CellField, U1: CellField, S: CellField,
                         F: FluxField, idx: Spacing, dx: Spacing, c: real, v: nat)
    requires e.Valid() && v < e.nvars && Composite(nq, ifaces, dx) && InverseSpacing(idx, dx, nq)
    requires forall n | 0 <= n < |ifaces| :: Matched(e, F, ifaces[n])
    requires Updated(e, nq, U0, U1, S, F, idx, c)
    ensures Total(e, U1, dx, v, nq) == Total(e, U0, dx, v, nq) + Total(e, S, dx, v, nq)
                                     + Scaled(c, SumSeq(InflowOf(e, F, dx, v), OuterFaces(ifaces)))
  {
    hide Geometric, Matched, Updated, InverseSpacing, Total, InflowOf, SumSeq, AllFaces, Flatten, OuterFaces, Scaled;
    var g := InflowOf(e, F, dx, v);
    TotalBalance(e, nq, U0, U1, S, F, idx, dx, c, v, nq);
    SumSeqPermutation(g, AllFaces(nq), Flatten(ifaces));
    InteriorCancels(e, F, dx, v, ifaces);
  }

  /** Conservation across refinement levels: on any composite grid whose fluxes
      match at its interfaces, a substep changes the total of each variable by
      its sources and by what crosses the outer boundary, and by nothing else. */
  lemma CompositeConservation(e: Extents, nq: nat, ifaces: seq<Interface>, U0: CellField, U1: CellField, S: CellField,
                              F: FluxField, idx: Spacing, dx: Spacing, c: real, v: nat)
    requires e.Valid() && v < e.nvars && Composite(nq, ifaces, dx) && InverseSpacing(idx, dx, nq)
    requires forall n | 0 <= n < |ifaces| :: Matched(e, F, ifaces[n])
    requires Updated(e, nq, U0, U1, S, F, idx, c)
    ensures Total(e, U1, dx, v, nq) == Total(e, U0, dx, v, nq) + Total(e, S, dx, v, nq)
                                     + c * SumSeq(InflowOf(e, F, dx, v), OuterFaces(ifaces))
  {
    hide Composite, Matched, Updated, InverseSpacing, Total, InflowOf, SumSeq, OuterFaces;
    CompositeBalance(e, nq, ifaces, U0, U1, S, F, idx, dx, c, v);
  }
}
