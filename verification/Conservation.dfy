/** Conservation: within one quadrant the update moves only what crosses its six
    faces, and on the composite grid only what crosses the outer boundary. */
module Conservation {
  import opened Sums
  import opened Grid
  import opened FluxUpdate

  /** The interior cells of variable v in quadrant q, by offset from the first interior cell. */
  ghost function Cube(e: Extents, U: CellField, v: int, q: int): (g: (int, int, int) -> real)
    ensures forall a, b, c :: g(a, b, c) == U(CellAt(e, a, b, c, v, q))
  {
    (a, b, c) => U(CellAt(e, a, b, c, v, q))
  }

  ghost function QuadSum(e: Extents, U: CellField, v: int, q: int): real {
    Sum3(Cube(e, U, v, q), 0, e.nx)
  }

  /** The faces normal to axis d, by offset. */
  ghost function FaceCube(e: Extents, F: FluxField, v: int, d: int, q: int): (int, int, int) -> real {
    (a, b, c) => F(FluxIx(e.ngz + a, e.ngz + b, e.ngz + c, v, d, q))
  }

  ghost function Volume(dx: Spacing, q: int): real { dx(0, q) * dx(1, q) * dx(2, q) }

  ghost function Area(dx: Spacing, d: int, q: int): real {
    if d == 0 then dx(1, q) * dx(2, q) else if d == 1 then dx(0, q) * dx(2, q) else dx(0, q) * dx(1, q)
  }

  /** The fluxes through one quadrant face, as a function of the two offsets within it. */
  ghost function OnFace(e: Extents, F: FluxField, v: int, r: FaceRef): (g: (int, int) -> real)
    ensures forall a, b :: g(a, b) == F(FaceIx(e, r.f, a, b, v, r.q))
  {
    (a, b) => F(FaceIx(e, r.f, a, b, v, r.q))
  }

  ghost function FaceSum(e: Extents, F: FluxField, v: int, r: FaceRef): real {
    Sum2(OnFace(e, F, v, r), 0, e.nx)
  }

  /** What enters the quadrant through face r: positive through a lower face, negative through an upper one. */
  ghost function Inflow(e: Extents, F: FluxField, dx: Spacing, v: int, r: FaceRef): real {
    var through := Area(dx, r.f / 2, r.q) * FaceSum(e, F, v, r);
    if r.f % 2 == 0 then through else -through
  }

  ghost predicate InverseSpacing(idx: Spacing, dx: Spacing, nq: nat) {
    forall d, q | 0 <= d < 3 && 0 <= q < nq :: idx(d, q) * dx(d, q) == 1.0
  }

  /** Summed over a quadrant, the net fluxes along an axis reduce to its two faces normal to that axis. */
  lemma DifferenceSums(e: Extents, F: FluxField, v: int, q: nat)
    ensures Sum3(DifferenceX(FaceCube(e, F, v, 0, q)), 0, e.nx) == FaceSum(e, F, v, FaceRef(q, 0)) - FaceSum(e, F, v, FaceRef(q, 1))
    ensures Sum3(DifferenceY(FaceCube(e, F, v, 1, q)), 0, e.nx) == FaceSum(e, F, v, FaceRef(q, 2)) - FaceSum(e, F, v, FaceRef(q, 3))
    ensures Sum3(DifferenceZ(FaceCube(e, F, v, 2, q)), 0, e.nx) == FaceSum(e, F, v, FaceRef(q, 4)) - FaceSum(e, F, v, FaceRef(q, 5))
  {
    hide Sum, Sum2, Sum3;
    var n := e.nx;
    var gx, gy, gz := FaceCube(e, F, v, 0, q), FaceCube(e, F, v, 1, q), FaceCube(e, F, v, 2, q);
    GaussX(gx, n);
    GaussY(gy, n);
    GaussZ(gz, n);
    Sum2Eq(Layer(gx, 0), OnFace(e, F, v, FaceRef(q, 0)), 0, n);
    Sum2Eq(Layer(gx, n), OnFace(e, F, v, FaceRef(q, 1)), 0, n);
    Sum2Eq(LayerY(gy, 0), OnFace(e, F, v, FaceRef(q, 2)), 0, n);
    Sum2Eq(LayerY(gy, n), OnFace(e, F, v, FaceRef(q, 3)), 0, n);
    Sum2Eq(LayerZ(gz, 0), OnFace(e, F, v, FaceRef(q, 4)), 0, n);
    Sum2Eq(LayerZ(gz, n), OnFace(e, F, v, FaceRef(q, 5)), 0, n);
  }

  /** Summed over a quadrant, the flux divergence is the sum of its three axes' net fluxes. */
  lemma DivergenceSum(e: Extents, F: FluxField, idx: Spacing, v: int, q: nat, h: (int, int, int) -> real)
    requires forall a, b, c :: h(a, b, c) == Divergence(F, idx, CellAt(e, a, b, c, v, q))
    ensures Sum3(h, 0, e.nx) == idx(0, q) * Sum3(DifferenceX(FaceCube(e, F, v, 0, q)), 0, e.nx)
                              + idx(1, q) * Sum3(DifferenceY(FaceCube(e, F, v, 1, q)), 0, e.nx)
                              + idx(2, q) * Sum3(DifferenceZ(FaceCube(e, F, v, 2, q)), 0, e.nx)
  {
    hide *;
    var hx, hy, hz := DifferenceX(FaceCube(e, F, v, 0, q)), DifferenceY(FaceCube(e, F, v, 1, q)), DifferenceZ(FaceCube(e, F, v, 2, q));
    var ix, iy, iz := idx(0, q), idx(1, q), idx(2, q);
    var hxy := (a, b, c) => ix * hx(a, b, c) + iy * hy(a, b, c);
    forall a, b, c ensures h(a, b, c) == 1.0 * hxy(a, b, c) + iz * hz(a, b, c) {
      DivergenceByAxis(e, F, idx, v, q, a, b, c);
    }
    Sum3Linear(hxy, hx, hy, ix, iy, 0, e.nx);
    Sum3Linear(h, hxy, hz, 1.0, iz, 0, e.nx);
  }

  lemma DivergenceByAxis(e: Extents, F: FluxField, idx: Spacing, v: int, q: nat, a: int, b: int, c: int)
    ensures Divergence(F, idx, CellAt(e, a, b, c, v, q))
         == idx(0, q) * DifferenceX(FaceCube(e, F, v, 0, q))(a, b, c)
          + idx(1, q) * DifferenceY(FaceCube(e, F, v, 1, q))(a, b, c)
          + idx(2, q) * DifferenceZ(FaceCube(e, F, v, 2, q))(a, b, c)
  {
    hide Net, DifferenceX, DifferenceY, DifferenceZ, FaceCube;
    NetIsDifference(e, F, v, q, a, b, c);
  }

  lemma NetIsDifference(e: Extents, F: FluxField, v: int, q: nat, a: int, b: int, c: int)
    ensures Net(F, 0, CellAt(e, a, b, c, v, q)) == DifferenceX(FaceCube(e, F, v, 0, q))(a, b, c)
    ensures Net(F, 1, CellAt(e, a, b, c, v, q)) == DifferenceY(FaceCube(e, F, v, 1, q))(a, b, c)
    ensures Net(F, 2, CellAt(e, a, b, c, v, q)) == DifferenceZ(FaceCube(e, F, v, 2, q))(a, b, c)
  {
    hide FaceCube, DifferenceX, DifferenceY, DifferenceZ;
    DifferenceXAt(FaceCube(e, F, v, 0, q), a, b, c);
    DifferenceYAt(FaceCube(e, F, v, 1, q), a, b, c);
    DifferenceZAt(FaceCube(e, F, v, 2, q), a, b, c);
    CubeAt(e, F, v, 0, q, a, b, c);
    CubeAt(e, F, v, 0, q, a + 1, b, c);
    CubeAt(e, F, v, 1, q, a, b, c);
    CubeAt(e, F, v, 1, q, a, b + 1, c);
    CubeAt(e, F, v, 2, q, a, b, c);
    CubeAt(e, F, v, 2, q, a, b, c + 1);
  }

  lemma DifferenceXAt(g: (int, int, int) -> real, a: int, b: int, c: int)
    ensures DifferenceX(g)(a, b, c) == g(a, b, c) - g(a + 1, b, c)
  {
  }

  lemma DifferenceYAt(g: (int, int, int) -> real, a: int, b: int, c: int)
    ensures DifferenceY(g)(a, b, c) == g(a, b, c) - g(a, b + 1, c)
  {
  }

  lemma DifferenceZAt(g: (int, int, int) -> real, a: int, b: int, c: int)
    ensures DifferenceZ(g)(a, b, c) == g(a, b, c) - g(a, b, c + 1)
  {
  }

  lemma CubeAt(e: Extents, F: FluxField, v: int, d: int, q: int, a: int, b: int, c: int)
    ensures FaceCube(e, F, v, d, q)(a, b, c) == F(FluxIx(e.ngz + a, e.ngz + b, e.ngz + c, v, d, q))
  {
  }

  /** Face area is volume per cell width. */
  lemma AreaIsVolumePerWidth(dx: Spacing, idx: Spacing, d: int, q: int)
    requires 0 <= d < 3 && idx(d, q) * dx(d, q) == 1.0
    ensures Volume(dx, q) * idx(d, q) == Area(dx, d, q)
  {
    var x, y, z, w := dx(0, q), dx(1, q), dx(2, q), idx(d, q);
    if d == 0 {
      assert x * y * z * w == (w * x) * (y * z);
    } else if d == 1 {
      assert x * y * z * w == (w * y) * (x * z);
    } else {
      assert x * y * z * w == (w * z) * (x * y);
    }
  }

  ghost function Faces(q: nat): seq<FaceRef> {
    [FaceRef(q, 0), FaceRef(q, 1), FaceRef(q, 2), FaceRef(q, 3), FaceRef(q, 4), FaceRef(q, 5)]
  }

  ghost function InflowOf(e: Extents, F: FluxField, dx: Spacing, v: int): (g: FaceRef -> real)
    ensures forall r :: g(r) == Inflow(e, F, dx, v, r)
  {
    r => Inflow(e, F, dx, v, r)
  }

  lemma SumOfFaces(g: FaceRef -> real, q: nat)
    ensures SumSeq(g, Faces(q)) == g(FaceRef(q, 0)) + g(FaceRef(q, 1)) + g(FaceRef(q, 2))
                                 + g(FaceRef(q, 3)) + g(FaceRef(q, 4)) + g(FaceRef(q, 5))
  {
    var s0 := Faces(q);
    var s1 := s0[1..];
    var s2 := s1[1..];
    var s3 := s2[1..];
    var s4 := s3[1..];
    var s5 := s4[1..];
    assert SumSeq(g, s5[1..]) == 0.0;
    assert SumSeq(g, s4) == g(FaceRef(q, 4)) + g(FaceRef(q, 5));
    assert SumSeq(g, s2) == g(FaceRef(q, 2)) + g(FaceRef(q, 3)) + SumSeq(g, s4);
  }

  /** The inflow through the two faces normal to one axis. */
  lemma AxisInflow(e: Extents, F: FluxField, dx: Spacing, v: int, q: nat, d: nat)
    requires d < 3
    ensures Inflow(e, F, dx, v, FaceRef(q, 2 * d)) + Inflow(e, F, dx, v, FaceRef(q, 2 * d + 1))
         == Area(dx, d, q) * (FaceSum(e, F, v, FaceRef(q, 2 * d)) - FaceSum(e, F, v, FaceRef(q, 2 * d + 1)))
  {
    hide Area, FaceSum;
    assert (2 * d) / 2 == d && (2 * d + 1) / 2 == d && (2 * d) % 2 == 0 && (2 * d + 1) % 2 == 1;
  }

  /** The unweighted content of one quadrant after the update. */
  lemma QuadSumChange(e: Extents, nq: nat, U0: CellField, U1: CellField, S: CellField, F: FluxField,
                      idx: Spacing, c: real, v: nat, q: nat)
    requires Updated(e, nq, U0, U1, S, F, idx, c) && v < e.nvars && q < nq
    ensures QuadSum(e, U1, v, q) == QuadSum(e, U0, v, q) + QuadSum(e, S, v, q)
              + c * (idx(0, q) * Sum3(DifferenceX(FaceCube(e, F, v, 0, q)), 0, e.nx)
                   + idx(1, q) * Sum3(DifferenceY(FaceCube(e, F, v, 1, q)), 0, e.nx)
                   + idx(2, q) * Sum3(DifferenceZ(FaceCube(e, F, v, 2, q)), 0, e.nx))
  {
    hide Sum3, Divergence, DifferenceX, DifferenceY, DifferenceZ, Cube;
    var u0, u1, s := Cube(e, U0, v, q), Cube(e, U1, v, q), Cube(e, S, v, q);
    var div := (i, j, k) => Divergence(F, idx, CellAt(e, i, j, k, v, q));
    var us := (i, j, k) => u0(i, j, k) + s(i, j, k);
    forall i, j, k | 0 <= i < e.nx && 0 <= j < e.nx && 0 <= k < e.nx
      ensures u1(i, j, k) == 1.0 * us(i, j, k) + c * div(i, j, k)
    {
      assert U1(CellAt(e, i, j, k, v, q)) == u0(i, j, k) + s(i, j, k) + c * Divergence(F, idx, CellAt(e, i, j, k, v, q));
    }
    Sum3Linear(us, u0, s, 1.0, 1.0, 0, e.nx);
    Sum3Linear(u1, us, div, 1.0, c, 0, e.nx);
    DivergenceSum(e, F, idx, v, q, div);
  }

  lemma Distribute(vol: real, u: real, s: real, c: real, ix: real, iy: real, iz: real, x: real, y: real, z: real,
                   ax: real, ay: real, az: real)
    requires vol * ix == ax && vol * iy == ay && vol * iz == az
    ensures vol * (u + s + c * (ix * x + iy * y + iz * z)) == vol * u + vol * s + c * (ax * x + ay * y + az * z)
  {
    assert vol * (c * (ix * x + iy * y + iz * z)) == c * ((vol * ix) * x + (vol * iy) * y + (vol * iz) * z);
  }

  /** The volume-weighted content of quadrant q. */
  ghost function QuadTotal(e: Extents, U: CellField, dx: Spacing, v: int, q: int): real {
    Volume(dx, q) * QuadSum(e, U, v, q)
  }

  /** One quadrant's update: its volume-weighted content changes by its sources
      and by c times what crosses its six faces. */
  lemma QuadBalance(e: Extents, nq: nat, U0: CellField, U1: CellField, S: CellField, F: FluxField,
                    idx: Spacing, dx: Spacing, c: real, v: nat, q: nat)
    requires Updated(e, nq, U0, U1, S, F, idx, c) && InverseSpacing(idx, dx, nq) && v < e.nvars && q < nq
    ensures QuadTotal(e, U1, dx, v, q) == QuadTotal(e, U0, dx, v, q) + QuadTotal(e, S, dx, v, q)
                                        + c * SumSeq(InflowOf(e, F, dx, v), Faces(q))
  {
    hide Updated, Volume, QuadSum, Sum3, SumSeq, FaceSum, Area, Inflow, InflowOf;
    var g := InflowOf(e, F, dx, v);
    SumOfFaces(g, q);
    QuadSumChange(e, nq, U0, U1, S, F, idx, c, v, q);
    AreaIsVolumePerWidth(dx, idx, 0, q);
    AreaIsVolumePerWidth(dx, idx, 1, q);
    AreaIsVolumePerWidth(dx, idx, 2, q);
    DifferenceSums(e, F, v, q);
    AxisInflow(e, F, dx, v, q, 0);
    AxisInflow(e, F, dx, v, q, 1);
    AxisInflow(e, F, dx, v, q, 2);
    var x := Sum3(DifferenceX(FaceCube(e, F, v, 0, q)), 0, e.nx);
    var y := Sum3(DifferenceY(FaceCube(e, F, v, 1, q)), 0, e.nx);
    var z := Sum3(DifferenceZ(FaceCube(e, F, v, 2, q)), 0, e.nx);
    var ax, ay, az := Area(dx, 0, q), Area(dx, 1, q), Area(dx, 2, q);
    assert g(FaceRef(q, 0)) + g(FaceRef(q, 1)) == ax * x;
    assert g(FaceRef(q, 2)) + g(FaceRef(q, 3)) == ay * y;
    assert g(FaceRef(q, 4)) + g(FaceRef(q, 5)) == az * z;
    Distribute(Volume(dx, q), QuadSum(e, U0, v, q), QuadSum(e, S, v, q), c, idx(0, q), idx(1, q), idx(2, q), x, y, z, ax, ay, az);
  }
}
