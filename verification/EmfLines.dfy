/** Edge lines of the quadrants, and why EMFs that match along the lines of a coarse-fine
    face keep the magnetic flux matched across it. */
module EmfLines {
  import opened Arithmetic
  import opened Grid
  import opened ConstrainedTransport

  /** The cell edges of quadrant q along axis d at transverse offsets u and w, counted
      in cells along the two other axes in ascending order. */
  datatype Line = Line(q: nat, d: nat, u: int, w: int)

  /** The EMF at position i of a line. */
  function At(e: Extents, l: Line, i: int): EmfIx {
    if l.d == 0 then EmfIx(e.ngz + i, e.ngz + l.u, e.ngz + l.w, 0, l.q)
    else if l.d == 1 then EmfIx(e.ngz + l.u, e.ngz + i, e.ngz + l.w, 1, l.q)
    else EmfIx(e.ngz + l.u, e.ngz + l.w, e.ngz + i, 2, l.q)
  }

  /** The first and second axis along face f. */
  function AxisA(f: nat): nat { if f / 2 == 0 then 1 else 0 }

  function AxisB(f: nat): nat { if f / 2 == 2 then 1 else 2 }

  /** The plane of face f in cells: 0 or nx. */
  function Plane(e: Extents, f: nat): int { if f % 2 == 1 then e.nx else 0 }

  /** The line on face r at offset off across it: comp = 0 runs along the first in-face axis, comp = 1 along the second. */
  function FaceLine(e: Extents, r: FaceRef, comp: nat, off: int): Line {
    var d, p := if comp == 0 then AxisA(r.f) else AxisB(r.f), Plane(e, r.f);
    var across := if comp == 0 then AxisB(r.f) else AxisA(r.f);
    if r.f / 2 < across then Line(r.q, d, p, off) else Line(r.q, d, off, p)
  }

  /** The EMF of component comp at in-face position (a, b) of face r. */
  ghost function OnLine(e: Extents, E: EmfField, r: FaceRef, comp: nat, along: int, off: int): real {
    E(At(e, FaceLine(e, r, comp, off), along))
  }

  lemma AtInjective(e: Extents, l: Line, i: int, l': Line, i': int)
    requires l.d < 3 && l'.d < 3 && At(e, l, i) == At(e, l', i')
    ensures l == l' && i == i'
  {
  }

  /** The circulation around cell face (a, b) of face r, in face coordinates. */
  ghost function FaceCirculation(e: Extents, E: EmfField, idx: Spacing, r: FaceRef, a: int, b: int): real {
    (OnLine(e, E, r, 0, a, b + 1) - OnLine(e, E, r, 0, a, b)) * idx(AxisB(r.f), r.q)
    - (OnLine(e, E, r, 1, b, a + 1) - OnLine(e, E, r, 1, b, a)) * idx(AxisA(r.f), r.q)
  }

  /** Cell face (a, b) of quadrant face r as an index of the face-staggered field. */
  function FaceCell(e: Extents, r: FaceRef, a: int, b: int): Ix {
    var x := FaceIx(e, r.f, a, b, 0, r.q);
    Ix(x.i, x.j, x.k, x.q)
  }

  /** The normal field on cell face (a, b) of quadrant face r. */
  ghost function NormalB(e: Extents, B: Stag, r: FaceRef, a: int, b: int): real {
    var p := FaceCell(e, r, a, b);
    if r.f / 2 == 0 then B.x(p) else if r.f / 2 == 1 then B.y(p) else B.z(p)
  }

  lemma CirculationOnFace(e: Extents, E: EmfField, idx: Spacing, r: FaceRef, a: int, b: int)
    requires r.f < 6
    ensures Circulation(E, idx, r.f / 2, FaceCell(e, r, a, b))
         == if r.f / 2 == 1 then -FaceCirculation(e, E, idx, r, a, b) else FaceCirculation(e, E, idx, r, a, b)
  {
  }

  /** The mean of the two fine EMFs that share coarse position i: fine positions k and k + 1 of a line. */
  ghost function PairMean(e: Extents, E: EmfField, r: FaceRef, comp: nat, k: int, off: int): real {
    0.5 * (OnLine(e, E, r, comp, k, off) + OnLine(e, E, r, comp, k + 1, off))
  }

  /** Around every coarse cell face, each of its four EMFs is the mean of the two fine ones it faces. */
  ghost predicate EmfMatched(e: Extents, E: EmfField, c: FaceRef, fine: seq<FaceRef>)
    requires e.Valid() && |fine| == 4
  {
    forall i, j, s | 0 <= i < e.nx && 0 <= j < e.nx && 0 <= s < 2 ::
      var r, a, b := fine[Child(e, i, j)], 2 * i % e.nx, 2 * j % e.nx;
      && OnLine(e, E, c, 0, i, Beside(j, s)) == PairMean(e, E, r, 0, a, b + 2 * s)
      && OnLine(e, E, c, 1, j, Beside(i, s)) == PairMean(e, E, r, 1, b, a + 2 * s)
  }

  /** The lower (s = 0) or upper (s = 1) line beside cell i. */
  function Beside(i: int, s: int): int { i + s }

  /** The magnetic flux through a coarse cell face is that through the four fine ones it faces. */
  ghost predicate FluxMatched(e: Extents, B: Stag, c: FaceRef, fine: seq<FaceRef>)
    requires e.Valid() && |fine| == 4
  {
    forall i, j | 0 <= i < e.nx && 0 <= j < e.nx ::
      NormalB(e, B, c, i, j) == MeanB(e, B, fine[Child(e, i, j)], 2 * i % e.nx, 2 * j % e.nx)
  }

  ghost function MeanB(e: Extents, B: Stag, r: FaceRef, a: int, b: int): real {
    Mean4(NormalB(e, B, r, a, b), NormalB(e, B, r, a, b + 1), NormalB(e, B, r, a + 1, b), NormalB(e, B, r, a + 1, b + 1))
  }

  /** The four fine circulations: inner edges cancel, outer ones pair up. */
  lemma BlockArithmetic(A: real, B: real,
                        p00: real, p10: real, p01: real, p11: real, p02: real, p12: real,
                        s00: real, s10: real, s01: real, s11: real, s02: real, s12: real,
                        c0: real, c1: real, d0: real, d1: real)
    requires c0 == 0.5 * (p00 + p10) && c1 == 0.5 * (p02 + p12)
    requires d0 == 0.5 * (s00 + s10) && d1 == 0.5 * (s02 + s12)
    ensures 0.25 * (((p01 - p00) * (2.0 * B) - (s01 - s00) * (2.0 * A)) + ((p02 - p01) * (2.0 * B) - (s11 - s10) * (2.0 * A))
                  + ((p11 - p10) * (2.0 * B) - (s02 - s01) * (2.0 * A)) + ((p12 - p11) * (2.0 * B) - (s12 - s11) * (2.0 * A)))
         == (c1 - c0) * B - (d1 - d0) * A
  {
  }

  ghost function MeanCirculation(e: Extents, E: EmfField, idx: Spacing, r: FaceRef, a: int, b: int): real {
    Mean4(FaceCirculation(e, E, idx, r, a, b), FaceCirculation(e, E, idx, r, a, b + 1),
          FaceCirculation(e, E, idx, r, a + 1, b), FaceCirculation(e, E, idx, r, a + 1, b + 1))
  }

  lemma BlockCirculation(e: Extents, E: EmfField, idx: Spacing, c: FaceRef, r: FaceRef, i: int, j: int, a: int, b: int)
    requires AxisA(r.f) == AxisA(c.f) && AxisB(r.f) == AxisB(c.f)
    requires idx(AxisA(r.f), r.q) == 2.0 * idx(AxisA(c.f), c.q) && idx(AxisB(r.f), r.q) == 2.0 * idx(AxisB(c.f), c.q)
    requires OnLine(e, E, c, 0, i, j) == PairMean(e, E, r, 0, a, b) && OnLine(e, E, c, 0, i, j + 1) == PairMean(e, E, r, 0, a, b + 2)
    requires OnLine(e, E, c, 1, j, i) == PairMean(e, E, r, 1, b, a) && OnLine(e, E, c, 1, j, i + 1) == PairMean(e, E, r, 1, b, a + 2)
    ensures MeanCirculation(e, E, idx, r, a, b) == FaceCirculation(e, E, idx, c, i, j)
  {
    hide OnLine, AxisA, AxisB;
    BlockArithmetic(idx(AxisA(c.f), c.q), idx(AxisB(c.f), c.q),
      OnLine(e, E, r, 0, a, b), OnLine(e, E, r, 0, a + 1, b), OnLine(e, E, r, 0, a, b + 1), OnLine(e, E, r, 0, a + 1, b + 1),
      OnLine(e, E, r, 0, a, b + 2), OnLine(e, E, r, 0, a + 1, b + 2),
      OnLine(e, E, r, 1, b, a), OnLine(e, E, r, 1, b + 1, a), OnLine(e, E, r, 1, b, a + 1), OnLine(e, E, r, 1, b + 1, a + 1),
      OnLine(e, E, r, 1, b, a + 2), OnLine(e, E, r, 1, b + 1, a + 2),
      OnLine(e, E, c, 0, i, j), OnLine(e, E, c, 0, i, j + 1), OnLine(e, E, c, 1, j, i), OnLine(e, E, c, 1, j, i + 1));
  }

  /** A circulation in face coordinates, with the sign of the axis normal to the face. */
  ghost function Oriented(d: nat, x: real): real { if d == 1 then -x else x }

  ghost function Advance(n: real, w: real, x: real): real { n + w * x }

  /** One constrained-transport update advances the field on quadrant face r by the circulation around each cell face. */
  lemma NormalAdvances(e: Extents, nq: nat, B0: Stag, B1: Stag, E: EmfField, idx: Spacing, w: real, r: FaceRef, a: int, b: int)
    requires Transported(e, nq, B0, B1, E, idx, w) && r.f < 6 && r.q < nq && 0 <= a < e.nx && 0 <= b < e.nx
    ensures NormalB(e, B1, r, a, b) == Advance(NormalB(e, B0, r, a, b), w, Oriented(r.f / 2, FaceCirculation(e, E, idx, r, a, b)))
  {
    var p := FaceCell(e, r, a, b);
    CirculationOnFace(e, E, idx, r, a, b);
    assert Updates(e, nq, r.f / 2, p);
    hide Circulation, FaceCirculation, Updates, FaceCell;
  }

  ghost function Mean4(a: real, b: real, c: real, d: real): real { 0.25 * (a + b + c + d) }

  lemma MeanArithmetic(w: real, d: nat, n00: real, n01: real, n10: real, n11: real, f00: real, f01: real, f10: real, f11: real)
    ensures Advance(Mean4(n00, n01, n10, n11), w, Oriented(d, Mean4(f00, f01, f10, f11)))
         == Mean4(Advance(n00, w, Oriented(d, f00)), Advance(n01, w, Oriented(d, f01)), Advance(n10, w, Oriented(d, f10)), Advance(n11, w, Oriented(d, f11)))
  {
  }

  lemma OppositeAxis(f: nat, g: nat)
    requires f < 6 && g == Opposite(f)
    ensures g < 6 && g / 2 == f / 2
  {
  }

  lemma MeansOf(e: Extents, B: Stag, E: EmfField, idx: Spacing, r: FaceRef, a: int, b: int)
    ensures MeanB(e, B, r, a, b) == Mean4(NormalB(e, B, r, a, b), NormalB(e, B, r, a, b + 1), NormalB(e, B, r, a + 1, b), NormalB(e, B, r, a + 1, b + 1))
    ensures MeanCirculation(e, E, idx, r, a, b) == Mean4(FaceCirculation(e, E, idx, r, a, b), FaceCirculation(e, E, idx, r, a, b + 1),
                                                         FaceCirculation(e, E, idx, r, a + 1, b), FaceCirculation(e, E, idx, r, a + 1, b + 1))
  {
    hide NormalB, FaceCirculation;
  }

  lemma FluxMatchedAt(e: Extents, nq: nat, B0: Stag, B1: Stag, E: EmfField, idx: Spacing, w: real, c: FaceRef, r: FaceRef, i: int, j: int, a: int, b: int)
    requires Transported(e, nq, B0, B1, E, idx, w)
    requires c.f < 6 && c.q < nq && r.q < nq && r.f == Opposite(c.f) && 0 <= i < e.nx && 0 <= j < e.nx
    requires 0 <= a && a + 2 <= e.nx && 0 <= b && b + 2 <= e.nx
    requires MeanCirculation(e, E, idx, r, a, b) == FaceCirculation(e, E, idx, c, i, j)
    requires NormalB(e, B0, c, i, j) == MeanB(e, B0, r, a, b)
    ensures NormalB(e, B1, c, i, j) == MeanB(e, B1, r, a, b)
  {
    hide *;
    OppositeAxis(c.f, r.f);
    MeansOf(e, B0, E, idx, r, a, b);
    MeansOf(e, B1, E, idx, r, a, b);
    NormalAdvances(e, nq, B0, B1, E, idx, w, c, i, j);
    NormalAdvances(e, nq, B0, B1, E, idx, w, r, a, b);
    NormalAdvances(e, nq, B0, B1, E, idx, w, r, a, b + 1);
    NormalAdvances(e, nq, B0, B1, E, idx, w, r, a + 1, b);
    NormalAdvances(e, nq, B0, B1, E, idx, w, r, a + 1, b + 1);
    MeanArithmetic(w, c.f / 2, NormalB(e, B0, r, a, b), NormalB(e, B0, r, a, b + 1), NormalB(e, B0, r, a + 1, b), NormalB(e, B0, r, a + 1, b + 1),
      FaceCirculation(e, E, idx, r, a, b), FaceCirculation(e, E, idx, r, a, b + 1), FaceCirculation(e, E, idx, r, a + 1, b), FaceCirculation(e, E, idx, r, a + 1, b + 1));
  }

  /** The coarse-fine face as the iterator reports it, with cells half as wide on the fine side. */
  ghost predicate HangingGeometry(nq: nat, c: FaceRef, fine: seq<FaceRef>, idx: Spacing) {
    && |fine| == 4 && c.f < 6 && c.q < nq
    && forall n | 0 <= n < 4 :: fine[n].q < nq && fine[n].f == Opposite(c.f) && Doubled(idx, c.q, fine[n].q)
  }

  ghost predicate Doubled(idx: Spacing, coarse: nat, fine: nat) {
    idx(0, fine) == 2.0 * idx(0, coarse) && idx(1, fine) == 2.0 * idx(1, coarse) && idx(2, fine) == 2.0 * idx(2, coarse)
  }

  lemma FineBase(e: Extents, i: int)
    requires e.Valid() && 0 <= i < e.nx
    ensures 0 <= 2 * i % e.nx && 2 * i % e.nx + 2 <= e.nx
    ensures 2 * i % e.nx == if 2 * i >= e.nx then 2 * i - e.nx else 2 * i
  {
    ModUnique(2 * i, e.nx, if 2 * i >= e.nx then 1 else 0, if 2 * i >= e.nx then 2 * i - e.nx else 2 * i);
  }

  lemma OppositeAxes(f: nat, g: nat)
    requires f < 6 && g == Opposite(f)
    ensures AxisA(g) == AxisA(f) && AxisB(g) == AxisB(f) && AxisA(f) < 3 && AxisB(f) < 3
  {
  }

  /** Matched EMFs keep the magnetic flux matched across the coarse-fine face. */
  lemma MagneticFluxStaysMatched(e: Extents, nq: nat, B0: Stag, B1: Stag, E: EmfField, idx: Spacing, w: real, c: FaceRef, fine: seq<FaceRef>)
    requires e.Valid() && HangingGeometry(nq, c, fine, idx)
    requires EmfMatched(e, E, c, fine) && Transported(e, nq, B0, B1, E, idx, w) && FluxMatched(e, B0, c, fine)
    ensures FluxMatched(e, B1, c, fine)
  {
    hide Transported, NormalB, MeanB, OnLine, PairMean, FaceCirculation, MeanCirculation;
    forall i, j | 0 <= i < e.nx && 0 <= j < e.nx
      ensures NormalB(e, B1, c, i, j) == MeanB(e, B1, fine[Child(e, i, j)], 2 * i % e.nx, 2 * j % e.nx)
    {
      var r, a, b := fine[Child(e, i, j)], 2 * i % e.nx, 2 * j % e.nx;
      FineBase(e, i);
      FineBase(e, j);
      OppositeAxes(c.f, r.f);
      assert Doubled(idx, c.q, r.q);
      var l, h := Beside(j, 0), Beside(j, 1);
      var l', h' := Beside(i, 0), Beside(i, 1);
      hide AxisA, AxisB, Opposite;
      BlockCirculation(e, E, idx, c, r, i, j, a, b);
      FluxMatchedAt(e, nq, B0, B1, E, idx, w, c, r, i, j, a, b);
    }
  }
}
