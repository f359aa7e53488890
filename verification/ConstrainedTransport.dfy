/** Constrained transport: the staggered magnetic field, its in-place update from
    edge EMFs, and the discrete divergence that no run of updates can change. */
module ConstrainedTransport {
  import opened Grid

  /** Index of a face of the magnetic field; which face depends on the array. */
  datatype Ix = Ix(i: int, j: int, k: int, q: int)

  /** Edge EMF along axis d at the lower edge of cell (i, j, k). */
  datatype EmfIx = EmfIx(i: int, j: int, k: int, d: int, q: int)

  type FaceField = Ix -> real
  type EmfField = EmfIx -> real

  /** The three face-staggered components. */
  datatype Stag = Stag(x: FaceField, y: FaceField, z: FaceField)

  ghost predicate InFaces(a: array4<real>, p: Ix) {
    0 <= p.i < a.Length0 && 0 <= p.j < a.Length1 && 0 <= p.k < a.Length2 && 0 <= p.q < a.Length3
  }

  ghost predicate InEmf(a: array5<real>, p: EmfIx) {
    0 <= p.i < a.Length0 && 0 <= p.j < a.Length1 && 0 <= p.k < a.Length2 && 0 <= p.d < a.Length3 && 0 <= p.q < a.Length4
  }

  ghost function FacesOf(a: array4<real>): (f: FaceField)
    reads a
    ensures forall p | InFaces(a, p) :: f(p) == a[p.i, p.j, p.k, p.q]
    ensures forall p | !InFaces(a, p) :: f(p) == 0.0
  {
    var m := imap p: Ix | InFaces(a, p) :: a[p.i, p.j, p.k, p.q];
    p => if p in m then m[p] else 0.0
  }

  ghost function EmfOf(a: array5<real>): (f: EmfField)
    reads a
    ensures forall p | InEmf(a, p) :: f(p) == a[p.i, p.j, p.k, p.d, p.q]
  {
    var m := imap p: EmfIx | InEmf(a, p) :: a[p.i, p.j, p.k, p.d, p.q];
    p => if p in m then m[p] else 0.0
  }

  /** The faces updated in each direction: one layer more along the face normal. */
  ghost predicate Updates(e: Extents, nq: nat, d: int, p: Ix) {
    && e.ngz <= p.i < e.ngz + e.nx + (if d == 0 then 1 else 0)
    && e.ngz <= p.j < e.ngz + e.nx + (if d == 1 then 1 else 0)
    && e.ngz <= p.k < e.ngz + e.nx + (if d == 2 then 1 else 0)
    && 0 <= p.q < nq
  }

  /** Rate of change of the field on the face of cell p normal to d: the circulation of the EMF around that face. */
  ghost function Circulation(E: EmfField, idx: Spacing, d: int, p: Ix): real {
    if d == 0 then
      (E(EmfIx(p.i, p.j, p.k + 1, 1, p.q)) - E(EmfIx(p.i, p.j, p.k, 1, p.q))) * idx(2, p.q)
      + (E(EmfIx(p.i, p.j, p.k, 2, p.q)) - E(EmfIx(p.i, p.j + 1, p.k, 2, p.q))) * idx(1, p.q)
    else if d == 1 then
      (E(EmfIx(p.i + 1, p.j, p.k, 2, p.q)) - E(EmfIx(p.i, p.j, p.k, 2, p.q))) * idx(0, p.q)
      + (E(EmfIx(p.i, p.j, p.k, 0, p.q)) - E(EmfIx(p.i, p.j, p.k + 1, 0, p.q))) * idx(2, p.q)
    else
      (E(EmfIx(p.i, p.j + 1, p.k, 0, p.q)) - E(EmfIx(p.i, p.j, p.k, 0, p.q))) * idx(1, p.q)
      + (E(EmfIx(p.i, p.j, p.k, 1, p.q)) - E(EmfIx(p.i + 1, p.j, p.k, 1, p.q))) * idx(0, p.q)
  }

  /** One component advanced by weight c; faces outside the update range keep their value. */
  ghost predicate Advanced(e: Extents, nq: nat, d: int, B0: FaceField, B1: FaceField, E: EmfField, idx: Spacing, c: real) {
    forall p :: B1(p) == if Updates(e, nq, d, p) then B0(p) + c * Circulation(E, idx, d, p) else B0(p)
  }

  /** B1 is B0 after one constrained-transport update of weight c with EMF E. */
  ghost predicate Transported(e: Extents, nq: nat, B0: Stag, B1: Stag, E: EmfField, idx: Spacing, c: real) {
    && Advanced(e, nq, 0, B0.x, B1.x, E, idx, c)
    && Advanced(e, nq, 1, B0.y, B1.y, E, idx, c)
    && Advanced(e, nq, 2, B0.z, B1.z, E, idx, c)
  }

  /** The difference of f between two faces, per cell width. */
  ghost function Slope(f: FaceField, upper: Ix, lower: Ix, w: real): real { (f(upper) - f(lower)) * w }

  /** The discrete divergence of the field in cell p. */
  ghost function DivB(B: Stag, idx: Spacing, p: Ix): real {
    Slope(B.x, Ix(p.i + 1, p.j, p.k, p.q), p, idx(0, p.q))
    + Slope(B.y, Ix(p.i, p.j + 1, p.k, p.q), p, idx(1, p.q))
    + Slope(B.z, Ix(p.i, p.j, p.k + 1, p.q), p, idx(2, p.q))
  }

  ghost predicate InteriorCell(e: Extents, nq: nat, p: Ix) {
    && e.ngz <= p.i < e.ngz + e.nx && e.ngz <= p.j < e.ngz + e.nx && e.ngz <= p.k < e.ngz + e.nx && 0 <= p.q < nq
  }

  /** Each edge bounds two faces of the cell with opposite orientation: the circulations around its six faces cancel. */
  lemma CirculationsCancel(E: EmfField, idx: Spacing, p: Ix)
    ensures (Circulation(E, idx, 0, Ix(p.i + 1, p.j, p.k, p.q)) - Circulation(E, idx, 0, p)) * idx(0, p.q)
          + (Circulation(E, idx, 1, Ix(p.i, p.j + 1, p.k, p.q)) - Circulation(E, idx, 1, p)) * idx(1, p.q)
          + (Circulation(E, idx, 2, Ix(p.i, p.j, p.k + 1, p.q)) - Circulation(E, idx, 2, p)) * idx(2, p.q) == 0.0
  {
  }

  /** The slope of an advanced component changes by c times the slope of its circulation. */
  lemma SlopeOfAdvanced(e: Extents, nq: nat, d: int, B0: FaceField, B1: FaceField, E: EmfField, idx: Spacing, c: real,
                        upper: Ix, lower: Ix, w: real)
    requires Advanced(e, nq, d, B0, B1, E, idx, c) && Updates(e, nq, d, upper) && Updates(e, nq, d, lower)
    ensures Slope(B1, upper, lower, w)
         == Slope(B0, upper, lower, w) + c * ((Circulation(E, idx, d, upper) - Circulation(E, idx, d, lower)) * w)
  {
    hide Circulation, Updates;
    SlopeOfSum(B0(upper), B0(lower), Circulation(E, idx, d, upper), Circulation(E, idx, d, lower), c, w);
  }

  lemma SlopeOfSum(u: real, l: real, cu: real, cl: real, c: real, w: real)
    ensures ((u + c * cu) - (l + c * cl)) * w == (u - l) * w + c * ((cu - cl) * w)
  {
  }

  /** Whatever the EMF, the update leaves the divergence of every interior cell as it was. */
  lemma TransportKeepsDivergence(e: Extents, nq: nat, B0: Stag, B1: Stag, E: EmfField, idx: Spacing, c: real, p: Ix)
    requires Transported(e, nq, B0, B1, E, idx, c) && InteriorCell(e, nq, p)
    ensures DivB(B1, idx, p) == DivB(B0, idx, p)
  {
    hide Circulation, Slope, Advanced;
    var px, py, pz := Ix(p.i + 1, p.j, p.k, p.q), Ix(p.i, p.j + 1, p.k, p.q), Ix(p.i, p.j, p.k + 1, p.q);
    var ix, iy, iz := idx(0, p.q), idx(1, p.q), idx(2, p.q);
    CirculationsCancel(E, idx, p);
    SlopeOfAdvanced(e, nq, 0, B0.x, B1.x, E, idx, c, px, p, ix);
    SlopeOfAdvanced(e, nq, 1, B0.y, B1.y, E, idx, c, py, p, iy);
    SlopeOfAdvanced(e, nq, 2, B0.z, B1.z, E, idx, c, pz, p, iz);
    SumsAgree(Slope(B1.x, px, p, ix), Slope(B1.y, py, p, iy), Slope(B1.z, pz, p, iz),
              Slope(B0.x, px, p, ix), Slope(B0.y, py, p, iy), Slope(B0.z, pz, p, iz), c,
              (Circulation(E, idx, 0, px) - Circulation(E, idx, 0, p)) * ix,
              (Circulation(E, idx, 1, py) - Circulation(E, idx, 1, p)) * iy,
              (Circulation(E, idx, 2, pz) - Circulation(E, idx, 2, p)) * iz);
  }

  lemma SumsAgree(x1: real, y1: real, z1: real, x0: real, y0: real, z0: real, c: real, tx: real, ty: real, tz: real)
    requires x1 == x0 + c * tx && y1 == y0 + c * ty && z1 == z0 + c * tz && tx + ty + tz == 0.0
    ensures x1 + y1 + z1 == x0 + y0 + z0
  {
    assert c * tx + c * ty + c * tz == c * (tx + ty + tz);
  }

  ghost predicate EmfShape(e: Extents, nq: nat, emf: array5<real>, idx: array2<real>) {
    && emf.Length0 >= e.nx + 1 + 2 * e.ngz && emf.Length1 >= e.nx + 1 + 2 * e.ngz && emf.Length2 >= e.nx + 1 + 2 * e.ngz
    && emf.Length3 == 3 && emf.Length4 == nq && idx.Length0 == 3 && idx.Length1 == nq
  }

  ghost predicate FaceShape(e: Extents, nq: nat, d: int, b: array4<real>) {
    && b.Length0 >= e.nx + 2 * e.ngz + (if d == 0 then 1 else 0)
    && b.Length1 >= e.nx + 2 * e.ngz + (if d == 1 then 1 else 0)
    && b.Length2 >= e.nx + 2 * e.ngz + (if d == 2 then 1 else 0)
    && b.Length3 == nq
  }

  /** The right-hand side of the update kernel for direction d at face p. */
  method Rate(e: Extents, nq: nat, emf: array5<real>, idx: array2<real>, d: nat, p: Ix) returns (r: real)
    requires EmfShape(e, nq, emf, idx) && d < 3 && Updates(e, nq, d, p)
    ensures r == Circulation(EmfOf(emf), Table(idx), d, p)
  {
    hide EmfOf, Table;
    if d == 0 {
      r := (emf[p.i, p.j, p.k + 1, 1, p.q] - emf[p.i, p.j, p.k, 1, p.q]) * idx[2, p.q]
         + (emf[p.i, p.j, p.k, 2, p.q] - emf[p.i, p.j + 1, p.k, 2, p.q]) * idx[1, p.q];
    } else if d == 1 {
      r := (emf[p.i + 1, p.j, p.k, 2, p.q] - emf[p.i, p.j, p.k, 2, p.q]) * idx[0, p.q]
         + (emf[p.i, p.j, p.k, 0, p.q] - emf[p.i, p.j, p.k + 1, 0, p.q]) * idx[2, p.q];
    } else {
      r := (emf[p.i, p.j + 1, p.k, 0, p.q] - emf[p.i, p.j, p.k, 0, p.q]) * idx[1, p.q]
         + (emf[p.i, p.j, p.k, 1, p.q] - emf[p.i + 1, p.j, p.k, 1, p.q]) * idx[0, p.q];
    }
  }

  /** One of the three update loops; faces are visited in an arbitrary order. */
  method AdvanceComponent(e: Extents, nq: nat, d: nat, b: array4<real>, emf: array5<real>, idx: array2<real>,
                          dt: real, dtfact: real, order: seq<Ix>)
    requires EmfShape(e, nq, emf, idx) && FaceShape(e, nq, d, b) && d < 3
    requires Schedule(order, (p: Ix) => Updates(e, nq, d, p))
    modifies b
    ensures Advanced(e, nq, d, old(FacesOf(b)), FacesOf(b), EmfOf(emf), Table(idx), dt * dtfact)
  {
    hide Circulation, EmfOf, Table, FacesOf;
    ghost var B, E, I, c := FacesOf(b), EmfOf(emf), Table(idx), dt * dtfact;
    for n := 0 to |order|
      invariant forall p :: FacesOf(b)(p) == if p in order[..n] then B(p) + c * Circulation(E, I, d, p) else B(p)
    {
      var p := order[n];
      ScheduleStep(order, (p: Ix) => Updates(e, nq, d, p), n);
      var r := Rate(e, nq, emf, idx, d, p);
      b[p.i, p.j, p.k, p.q] := b[p.i, p.j, p.k, p.q] + dt * dtfact * r;
    }
    assert order[..|order|] == order;
  }

  /** The whole constrained-transport update. */
  method UpdateCT(e: Extents, nq: nat, fx: array4<real>, fy: array4<real>, fz: array4<real>, emf: array5<real>, idx: array2<real>,
                  dt: real, dtfact: real, ox: seq<Ix>, oy: seq<Ix>, oz: seq<Ix>)
    requires EmfShape(e, nq, emf, idx) && fx != fy && fx != fz && fy != fz
    requires FaceShape(e, nq, 0, fx) && FaceShape(e, nq, 1, fy) && FaceShape(e, nq, 2, fz)
    requires Schedule(ox, (p: Ix) => Updates(e, nq, 0, p)) && Schedule(oy, (p: Ix) => Updates(e, nq, 1, p))
    requires Schedule(oz, (p: Ix) => Updates(e, nq, 2, p))
    modifies fx, fy, fz
    ensures Transported(e, nq, old(Stag(FacesOf(fx), FacesOf(fy), FacesOf(fz))), Stag(FacesOf(fx), FacesOf(fy), FacesOf(fz)),
                        EmfOf(emf), Table(idx), dt * dtfact)
    ensures forall p | InteriorCell(e, nq, p) ::
              DivB(Stag(FacesOf(fx), FacesOf(fy), FacesOf(fz)), Table(idx), p)
              == old(DivB(Stag(FacesOf(fx), FacesOf(fy), FacesOf(fz)), Table(idx), p))
  {
    hide Circulation, EmfOf, Table, FacesOf, Advanced, DivB;
    ghost var B0 := Stag(FacesOf(fx), FacesOf(fy), FacesOf(fz));
    AdvanceComponent(e, nq, 0, fx, emf, idx, dt, dtfact, ox);
    AdvanceComponent(e, nq, 1, fy, emf, idx, dt, dtfact, oy);
    AdvanceComponent(e, nq, 2, fz, emf, idx, dt, dtfact, oz);
    ghost var B1 := Stag(FacesOf(fx), FacesOf(fy), FacesOf(fz));
    forall p | InteriorCell(e, nq, p) ensures DivB(B1, Table(idx), p) == DivB(B0, Table(idx), p) {
      TransportKeepsDivergence(e, nq, B0, B1, EmfOf(emf), Table(idx), dt * dtfact, p);
    }
  }
}
