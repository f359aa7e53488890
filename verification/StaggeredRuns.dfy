/** Runs of the time steppers on the staggered field: every buffer operation is a
    copy, a linear combination, a constrained-transport update or a fill of the ghost
    zones, so the divergence of every buffer follows a scalar shadow of the run. */
module StaggeredRuns {
  import opened Grid
  import opened ConstrainedTransport

  /** One buffer operation; buffers are numbered. */
  datatype Op =
    | Copy(dst: nat, src: nat)
    | Lin2(dst: nat, a: nat, b: nat, ca: real, cb: real)
    | Lin3(dst: nat, a: nat, b: nat, c: nat, ca: real, cb: real, cc: real)
    | Transport(dst: nat, E: EmfField, w: real)
    | Fill(dst: nat)
  {
    predicate Valid(n: nat) {
      && dst < n
      && (Copy? ==> src < n)
      && (Lin2? ==> a < n && b < n)
      && (Lin3? ==> a < n && b < n && c < n)
    }
  }

  /** D is ca A + cb B + cc C on every face. */
  ghost predicate Combines(D: Stag, A: Stag, B: Stag, C: Stag, ca: real, cb: real, cc: real) {
    forall p ::
      && D.x(p) == ca * A.x(p) + cb * B.x(p) + cc * C.x(p)
      && D.y(p) == ca * A.y(p) + cb * B.y(p) + cc * C.y(p)
      && D.z(p) == ca * A.z(p) + cb * B.z(p) + cc * C.z(p)
  }

  /** What the boundary conditions and the ghost exchange may do: change faces outside the update range. */
  ghost predicate Refilled(e: Extents, nq: nat, B: Stag, B': Stag) {
    forall p ::
      && (Updates(e, nq, 0, p) ==> B'.x(p) == B.x(p))
      && (Updates(e, nq, 1, p) ==> B'.y(p) == B.y(p))
      && (Updates(e, nq, 2, p) ==> B'.z(p) == B.z(p))
  }

  /** The effect of one operation; every buffer but its destination is untouched. */
  ghost predicate Step(e: Extents, nq: nat, idx: Spacing, R: seq<Stag>, op: Op, R': seq<Stag>) {
    && |R'| == |R| && op.Valid(|R|)
    && (forall r | 0 <= r < |R| && r != op.dst :: R'[r] == R[r])
    && match op
       case Copy(d, s) => R'[d] == R[s]
       case Lin2(d, a, b, ca, cb) => Combines(R'[d], R[a], R[b], R[b], ca, cb, 0.0)
       case Lin3(d, a, b, c, ca, cb, cc) => Combines(R'[d], R[a], R[b], R[c], ca, cb, cc)
       case Transport(d, E, w) => Transported(e, nq, R[d], R'[d], E, idx, w)
       case Fill(d) => Refilled(e, nq, R[d], R'[d])
  }

  /** A run: states R[0], R[1], ... linked by the operations. */
  ghost predicate Run(e: Extents, nq: nat, idx: Spacing, R: seq<seq<Stag>>, ops: seq<Op>) {
    && |R| == |ops| + 1
    && forall n | 0 <= n < |ops| :: Step(e, nq, idx, R[n], ops[n], R[n + 1])
  }

  function Weighted2(ca: real, a: real, cb: real, b: real): real { ca * a + cb * b }

  function Weighted3(ca: real, a: real, cb: real, b: real, cc: real, c: real): real { ca * a + cb * b + cc * c }

  /** The scalar shadow: one number per buffer, untouched by constrained transport and by fills. */
  function Shadow(v: seq<real>, op: Op): (v': seq<real>)
    requires op.Valid(|v|)
    ensures |v'| == |v|
  {
    match op
    case Copy(d, s) => v[d := v[s]]
    case Lin2(d, a, b, ca, cb) => v[d := Weighted2(ca, v[a], cb, v[b])]
    case Lin3(d, a, b, c, ca, cb, cc) => v[d := Weighted3(ca, v[a], cb, v[b], cc, v[c])]
    case Transport(_, _, _) => v
    case Fill(_) => v
  }

  predicate AllValid(ops: seq<Op>, n: nat) {
    forall i | 0 <= i < |ops| :: ops[i].Valid(n)
  }

  function Shadows(v: seq<real>, ops: seq<Op>): (v': seq<real>)
    requires AllValid(ops, |v|)
    ensures |v'| == |v|
    decreases |ops|
  {
    if ops == [] then v else Shadow(Shadows(v, ops[..|ops| - 1]), ops[|ops| - 1])
  }

  ghost function Divergences(idx: Spacing, p: Ix, R: seq<Stag>): seq<real> {
    seq(|R|, r requires 0 <= r < |R| => DivB(R[r], idx, p))
  }

  lemma SlopeIsLinear(d: FaceField, a: FaceField, b: FaceField, c: FaceField, ca: real, cb: real, cc: real, p': Ix, p: Ix, w: real)
    requires forall x :: d(x) == ca * a(x) + cb * b(x) + cc * c(x)
    ensures Slope(d, p', p, w) == ca * Slope(a, p', p, w) + cb * Slope(b, p', p, w) + cc * Slope(c, p', p, w)
  {
  }

  lemma SumOfCombinations(ca: real, cb: real, cc: real, a0: real, a1: real, a2: real, b0: real, b1: real, b2: real,
                          c0: real, c1: real, c2: real)
    ensures (ca * a0 + cb * b0 + cc * c0) + (ca * a1 + cb * b1 + cc * c1) + (ca * a2 + cb * b2 + cc * c2)
         == ca * (a0 + a1 + a2) + cb * (b0 + b1 + b2) + cc * (c0 + c1 + c2)
  {
  }

  lemma DivergenceIsLinear(idx: Spacing, p: Ix, D: Stag, A: Stag, B: Stag, C: Stag, ca: real, cb: real, cc: real)
    requires Combines(D, A, B, C, ca, cb, cc)
    ensures DivB(D, idx, p) == ca * DivB(A, idx, p) + cb * DivB(B, idx, p) + cc * DivB(C, idx, p)
  {
    hide Slope;
    var px, py, pz := Ix(p.i + 1, p.j, p.k, p.q), Ix(p.i, p.j + 1, p.k, p.q), Ix(p.i, p.j, p.k + 1, p.q);
    var ix, iy, iz := idx(0, p.q), idx(1, p.q), idx(2, p.q);
    SlopeIsLinear(D.x, A.x, B.x, C.x, ca, cb, cc, px, p, ix);
    SlopeIsLinear(D.y, A.y, B.y, C.y, ca, cb, cc, py, p, iy);
    SlopeIsLinear(D.z, A.z, B.z, C.z, ca, cb, cc, pz, p, iz);
    hide Combines;
    SumOfCombinations(ca, cb, cc, Slope(A.x, px, p, ix), Slope(A.y, py, p, iy), Slope(A.z, pz, p, iz),
                      Slope(B.x, px, p, ix), Slope(B.y, py, p, iy), Slope(B.z, pz, p, iz),
                      Slope(C.x, px, p, ix), Slope(C.y, py, p, iy), Slope(C.z, pz, p, iz));
  }

  /** The faces of an interior cell are not refilled. */
  lemma FillKeepsDivergence(e: Extents, nq: nat, B: Stag, B': Stag, idx: Spacing, p: Ix)
    requires Refilled(e, nq, B, B') && InteriorCell(e, nq, p)
    ensures DivB(B', idx, p) == DivB(B, idx, p)
  {
    var px, py, pz := Ix(p.i + 1, p.j, p.k, p.q), Ix(p.i, p.j + 1, p.k, p.q), Ix(p.i, p.j, p.k + 1, p.q);
    assert Updates(e, nq, 0, p) && Updates(e, nq, 0, px) && Updates(e, nq, 1, p) && Updates(e, nq, 1, py)
        && Updates(e, nq, 2, p) && Updates(e, nq, 2, pz);
    hide Updates;
  }

  lemma StepShadow(e: Extents, nq: nat, idx: Spacing, p: Ix, R: seq<Stag>, op: Op, R': seq<Stag>)
    requires Step(e, nq, idx, R, op, R') && InteriorCell(e, nq, p)
    ensures Divergences(idx, p, R') == Shadow(Divergences(idx, p, R), op)
  {
    hide DivB, Combines, Transported, Refilled, InteriorCell;
    var v, v' := Divergences(idx, p, R), Shadow(Divergences(idx, p, R), op);
    var d := op.dst;
    assert DivB(R'[d], idx, p) == v'[d] by {
      match op
      case Copy(_, s) =>
      case Lin2(_, a, b, ca, cb) =>
        DivergenceIsLinear(idx, p, R'[d], R[a], R[b], R[b], ca, cb, 0.0);
        assert v'[d] == ca * v[a] + cb * v[b];
      case Lin3(_, a, b, c, ca, cb, cc) =>
        DivergenceIsLinear(idx, p, R'[d], R[a], R[b], R[c], ca, cb, cc);
      case Transport(_, E, w) =>
        TransportKeepsDivergence(e, nq, R[d], R'[d], E, idx, w, p);
      case Fill(_) =>
        FillKeepsDivergence(e, nq, R[d], R'[d], idx, p);
    }
  }

  /** In every interior cell, the divergences of all buffers after any run are
      the scalar shadow of the run applied to the divergences before it. */
  lemma {:induction false} RunShadow(e: Extents, nq: nat, idx: Spacing, p: Ix, R: seq<seq<Stag>>, ops: seq<Op>)
    requires Run(e, nq, idx, R, ops) && InteriorCell(e, nq, p)
    ensures |R[|ops|]| == |R[0]| && AllValid(ops, |R[0]|)
    ensures Divergences(idx, p, R[|ops|]) == Shadows(Divergences(idx, p, R[0]), ops)
    decreases |ops|
  {
    hide InteriorCell, DivB, Combines, Transported, Refilled;
    if ops != [] {
      var m := |ops| - 1;
      assert Run(e, nq, idx, R[..m + 1], ops[..m]);
      RunShadow(e, nq, idx, p, R[..m + 1], ops[..m]);
      assert Step(e, nq, idx, R[m], ops[m], R[m + 1]);
      StepShadow(e, nq, idx, p, R[m], ops[m], R[m + 1]);
      assert forall i | 0 <= i < m :: ops[..m][i] == ops[i];
    }
  }

  lemma {:induction false} ZeroShadow(v: seq<real>, ops: seq<Op>)
    requires AllValid(ops, |v|) && forall r | 0 <= r < |v| :: v[r] == 0.0
    ensures forall r | 0 <= r < |v| :: Shadows(v, ops)[r] == 0.0
    decreases |ops|
  {
    if ops != [] { ZeroShadow(v, ops[..|ops| - 1]); }
  }

  /** A divergence-free field stays divergence-free in every buffer of every
      state that any sequence of copies, linear combinations, ghost-zone fills
      and constrained-transport updates with arbitrary EMFs can reach. */
  lemma DivergenceFreeRuns(e: Extents, nq: nat, idx: Spacing, p: Ix, R: seq<seq<Stag>>, ops: seq<Op>, n: nat, r: nat)
    requires Run(e, nq, idx, R, ops) && InteriorCell(e, nq, p) && n <= |ops| && r < |R[n]|
    requires forall s | 0 <= s < |R[0]| :: DivB(R[0][s], idx, p) == 0.0
    ensures DivB(R[n][r], idx, p) == 0.0
  {
    hide DivB, Step;
    assert Run(e, nq, idx, R[..n + 1], ops[..n]);
    RunShadow(e, nq, idx, p, R[..n + 1], ops[..n]);
    ZeroShadow(Divergences(idx, p, R[0]), ops[..n]);
    assert Divergences(idx, p, R[n])[r] == 0.0;
  }
}
