/** The buffer operations each time stepper performs on the staggered field
    (buffer 0 is the state, 1 the scratch copy, 2 the staging buffer), and what
    one step does to the divergence. */
module StaggeredSteppers {
  import opened Grid
  import opened ConstrainedTransport
  import opened StaggeredRuns
  import opened Rk4Stepper

  const STATE: nat := 0
  const SCRATCH: nat := 1
  const STAGING: nat := 2

  ghost function EulerOps(dt: real, E: EmfField): seq<Op> {
    [Copy(SCRATCH, STATE), Transport(STATE, E, dt), Fill(STATE), Copy(SCRATCH, STATE)]
  }

  ghost function Rk2Ops(dt: real, E1: EmfField, E2: EmfField): seq<Op> {
    [Copy(SCRATCH, STATE),
     Transport(SCRATCH, E1, dt * 0.5), Fill(SCRATCH),
     Transport(STATE, E2, dt), Fill(STATE),
     Copy(SCRATCH, STATE)]
  }

  ghost function Rk3Ops(dt: real, E1: EmfField, E2: EmfField, E3: EmfField): seq<Op> {
    [Copy(SCRATCH, STATE),
     Transport(SCRATCH, E1, dt), Fill(SCRATCH),
     Lin2(STAGING, STATE, SCRATCH, 0.75, 0.25),
     Transport(STAGING, E2, dt * 0.25), Fill(STAGING),
     Lin2(STATE, STATE, STAGING, 1.0 / 3.0, 2.0 / 3.0),
     Transport(STATE, E3, dt * (2.0 / 3.0)), Fill(STATE),
     Copy(SCRATCH, STATE)]
  }

  ghost function Rk4Ops(dt: real, E1: EmfField, E2: EmfField, E3: EmfField, E4: EmfField): seq<Op> {
    [Copy(SCRATCH, STATE),
     Lin2(STAGING, STATE, SCRATCH, 0.0, 1.0),
     Transport(STAGING, E1, dt * A21), Fill(STAGING),
     Lin2(SCRATCH, SCRATCH, STAGING, 1.0, D2),
     Lin2(STATE, STAGING, SCRATCH, G21, G22),
     Transport(STATE, E2, dt * A32), Fill(STATE),
     Lin2(SCRATCH, SCRATCH, STATE, 1.0, D3),
     Lin2(STAGING, STATE, SCRATCH, G31, G32),
     Transport(STAGING, E3, dt * A43), Fill(STAGING),
     Lin2(STATE, STAGING, SCRATCH, G41, G42),
     Transport(STATE, E4, dt * B4), Fill(STATE),
     Copy(SCRATCH, STATE)]
  }

  /** The combination weights of the IMEX step. */
  datatype ImexWeights = ImexWeights(ra: real, rb: real, k: real, m: real, ha: real, hb: real)

  function WeightsOf(gamma: real): ImexWeights
    requires gamma != 0.0
  {
    ImexWeights(1.0 / gamma, -1.0 / gamma, 1.0 - 2.0 * gamma, 2.0 - gamma, 1.0 / (2.0 * gamma), -1.0 / (2.0 * gamma))
  }

  /** The implicit substeps only copy the staggered field. */
  ghost function Imex222Ops(dt: real, w: ImexWeights, E1: EmfField, E2: EmfField): seq<Op> {
    [Copy(SCRATCH, STATE),
     Copy(STAGING, STATE),
     Copy(STAGING, STATE),
     Transport(SCRATCH, E1, dt), Fill(SCRATCH),
     Lin2(STAGING, STAGING, STATE, w.ra, w.rb),
     Lin3(STATE, STATE, SCRATCH, STAGING, 0.5, 0.5, 0.5),
     Lin2(SCRATCH, SCRATCH, STAGING, 1.0, w.k), Fill(SCRATCH),
     Lin2(STAGING, STAGING, SCRATCH, w.m, -1.0),
     Copy(STAGING, SCRATCH),
     Lin3(STATE, STATE, STAGING, SCRATCH, 1.0, w.ha, w.hb),
     Transport(STATE, E2, dt * 0.5), Fill(STATE),
     Copy(SCRATCH, STATE)]
  }

  /** The shadow of a run, one operation at a time. */
  ghost predicate Trace(v: seq<seq<real>>, ops: seq<Op>) {
    && |v| == |ops| + 1
    && forall n | 0 <= n < |ops| :: ops[n].Valid(|v[n]|) && v[n + 1] == Shadow(v[n], ops[n])
  }

  lemma {:induction false} TraceShadows(v: seq<seq<real>>, ops: seq<Op>)
    requires Trace(v, ops)
    ensures |v[|ops|]| == |v[0]| && AllValid(ops, |v[0]|) && Shadows(v[0], ops) == v[|ops|]
    decreases |ops|
  {
    if ops != [] {
      var m := |ops| - 1;
      assert Trace(v[..m + 1], ops[..m]);
      TraceShadows(v[..m + 1], ops[..m]);
      assert forall i | 0 <= i < m :: ops[..m][i] == ops[i];
    }
  }

  lemma ShadowOfOneStep(e: Extents, nq: nat, idx: Spacing, p: Ix, R: seq<seq<Stag>>, ops: seq<Op>, v: seq<seq<real>>)
    requires Run(e, nq, idx, R, ops) && InteriorCell(e, nq, p)
    requires Trace(v, ops) && v[0] == Divergences(idx, p, R[0])
    ensures Divergences(idx, p, R[|ops|]) == v[|ops|]
  {
    RunShadow(e, nq, idx, p, R, ops);
    TraceShadows(v, ops);
  }

  lemma EulerKeepsDivergence(e: Extents, nq: nat, idx: Spacing, p: Ix, R: seq<seq<Stag>>, dt: real, E: EmfField)
    requires Run(e, nq, idx, R, EulerOps(dt, E)) && |R[0]| == 3 && InteriorCell(e, nq, p)
    ensures |R[4]| == 3 && DivB(R[4][STATE], idx, p) == DivB(R[0][STATE], idx, p)
  {
    hide DivB, InteriorCell;
    var d, s, t := DivB(R[0][0], idx, p), DivB(R[0][1], idx, p), DivB(R[0][2], idx, p);
    var v := [[d, s, t], [d, d, t], [d, d, t], [d, d, t], [d, d, t]];
    assert v[0] == Divergences(idx, p, R[0]);
    ShadowOfOneStep(e, nq, idx, p, R, EulerOps(dt, E), v);
    assert Divergences(idx, p, R[4])[STATE] == d;
  }

  lemma Rk2KeepsDivergence(e: Extents, nq: nat, idx: Spacing, p: Ix, R: seq<seq<Stag>>, dt: real, E1: EmfField, E2: EmfField)
    requires Run(e, nq, idx, R, Rk2Ops(dt, E1, E2)) && |R[0]| == 3 && InteriorCell(e, nq, p)
    ensures |R[6]| == 3 && DivB(R[6][STATE], idx, p) == DivB(R[0][STATE], idx, p)
  {
    hide DivB, InteriorCell;
    var d, s, t := DivB(R[0][0], idx, p), DivB(R[0][1], idx, p), DivB(R[0][2], idx, p);
    var v := [[d, s, t], [d, d, t], [d, d, t], [d, d, t], [d, d, t], [d, d, t], [d, d, t]];
    assert v[0] == Divergences(idx, p, R[0]);
    ShadowOfOneStep(e, nq, idx, p, R, Rk2Ops(dt, E1, E2), v);
    assert Divergences(idx, p, R[6])[STATE] == d;
  }

  lemma CopyAt(v: seq<real>, dst: nat, src: nat)
    requires dst < |v| && src < |v|
    ensures Shadow(v, Copy(dst, src)) == v[dst := v[src]]
  {
  }

  lemma TransportAt(v: seq<real>, dst: nat, E: EmfField, w: real)
    requires dst < |v|
    ensures Shadow(v, Transport(dst, E, w)) == v
  {
  }

  lemma FillAt(v: seq<real>, dst: nat)
    requires dst < |v|
    ensures Shadow(v, Fill(dst)) == v
  {
  }

  lemma Lin2At(v: seq<real>, dst: nat, a: nat, b: nat, ca: real, cb: real, va: real, vb: real, r: real)
    requires dst < |v| && a < |v| && b < |v| && va == v[a] && vb == v[b] && r == ca * va + cb * vb
    ensures Shadow(v, Lin2(dst, a, b, ca, cb)) == v[dst := r]
  {
    assert Weighted2(ca, va, cb, vb) == r;
  }

  lemma Lin3At(v: seq<real>, dst: nat, a: nat, b: nat, c: nat, ca: real, cb: real, cc: real, va: real, vb: real, vc: real, r: real)
    requires dst < |v| && a < |v| && b < |v| && c < |v| && va == v[a] && vb == v[b] && vc == v[c]
    requires r == ca * va + cb * vb + cc * vc
    ensures Shadow(v, Lin3(dst, a, b, c, ca, cb, cc)) == v[dst := r]
  {
    assert Weighted3(ca, va, cb, vb, cc, vc) == r;
  }

  /** The shadow of a third-order step: its weights sum to one. */
  lemma Rk3Trace(d: real, s: real, t: real, dt: real, E1: EmfField, E2: EmfField, E3: EmfField) returns (v: seq<seq<real>>)
    ensures Trace(v, Rk3Ops(dt, E1, E2, E3)) && |v| == 11 && v[0] == [d, s, t] && v[10] == [d, d, d]
  {
    hide Shadow;
    v := [[d, s, t], [d, d, t], [d, d, t], [d, d, t], [d, d, d], [d, d, d], [d, d, d], [d, d, d], [d, d, d], [d, d, d], [d, d, d]];
    CopyAt(v[0], SCRATCH, STATE);
    TransportAt(v[1], SCRATCH, E1, dt);
    FillAt(v[2], SCRATCH);
    Lin2At(v[3], STAGING, STATE, SCRATCH, 0.75, 0.25, d, d, d);
    TransportAt(v[4], STAGING, E2, dt * 0.25);
    FillAt(v[5], STAGING);
    Lin2At(v[6], STATE, STATE, STAGING, 1.0 / 3.0, 2.0 / 3.0, d, d, d);
    TransportAt(v[7], STATE, E3, dt * (2.0 / 3.0));
    FillAt(v[8], STATE);
    CopyAt(v[9], SCRATCH, STATE);
  }

  /** A third-order Runge-Kutta step leaves the divergence exactly as it was. */
  lemma Rk3KeepsDivergence(e: Extents, nq: nat, idx: Spacing, p: Ix, R: seq<seq<Stag>>, dt: real,
                           E1: EmfField, E2: EmfField, E3: EmfField)
    requires Run(e, nq, idx, R, Rk3Ops(dt, E1, E2, E3)) && |R[0]| == 3 && InteriorCell(e, nq, p)
    ensures |R[10]| == 3 && DivB(R[10][STATE], idx, p) == DivB(R[0][STATE], idx, p)
  {
    hide DivB, InteriorCell, Trace, Step;
    var d, s, t := DivB(R[0][0], idx, p), DivB(R[0][1], idx, p), DivB(R[0][2], idx, p);
    var v := Rk3Trace(d, s, t, dt, E1, E2, E3);
    assert v[0] == Divergences(idx, p, R[0]);
    ShadowOfOneStep(e, nq, idx, p, R, Rk3Ops(dt, E1, E2, E3), v);
    assert Divergences(idx, p, R[10])[STATE] == d;
  }

  /** The shadow of an IMEX step: z and y are the staging buffer after its two combinations. */
  lemma Imex222Trace(d: real, s: real, t: real, z: real, y: real, w: ImexWeights, dt: real, E1: EmfField, E2: EmfField)
    returns (v: seq<seq<real>>)
    requires z == w.ra * d + w.rb * d && d == 0.5 * d + 0.5 * d + 0.5 * z && d == 1.0 * d + w.k * z
    requires y == w.m * z + -1.0 * d && d == 1.0 * d + w.ha * d + w.hb * d
    ensures Trace(v, Imex222Ops(dt, w, E1, E2)) && |v| == 16 && v[0] == [d, s, t] && v[15] == [d, d, d]
  {
    hide Shadow;
    var ops := Imex222Ops(dt, w, E1, E2);
    v := [[d, s, t], [d, d, t], [d, d, d], [d, d, d], [d, d, d], [d, d, d], [d, d, z], [d, d, z], [d, d, z], [d, d, z], [d, d, y],
          [d, d, d], [d, d, d], [d, d, d], [d, d, d], [d, d, d]];
    CopyAt(v[0], SCRATCH, STATE);
    CopyAt(v[1], STAGING, STATE);
    CopyAt(v[2], STAGING, STATE);
    TransportAt(v[3], SCRATCH, E1, dt);
    FillAt(v[4], SCRATCH);
    Lin2At(v[5], STAGING, STAGING, STATE, w.ra, w.rb, d, d, z);
    Lin3At(v[6], STATE, STATE, SCRATCH, STAGING, 0.5, 0.5, 0.5, d, d, z, d);
    Lin2At(v[7], SCRATCH, SCRATCH, STAGING, 1.0, w.k, d, z, d);
    FillAt(v[8], SCRATCH);
    Lin2At(v[9], STAGING, STAGING, SCRATCH, w.m, -1.0, z, d, y);
    CopyAt(v[10], STAGING, SCRATCH);
    Lin3At(v[11], STATE, STATE, STAGING, SCRATCH, 1.0, w.ha, w.hb, d, d, d, d);
    TransportAt(v[12], STATE, E2, dt * 0.5);
    FillAt(v[13], STATE);
    CopyAt(v[14], SCRATCH, STATE);
  }

  lemma OppositeWeights(d: real, gamma: real)
    requires gamma != 0.0
    ensures WeightsOf(gamma).ra * d + WeightsOf(gamma).rb * d == 0.0
    ensures 1.0 * d + WeightsOf(gamma).ha * d + WeightsOf(gamma).hb * d == d
  {
    var l := 2.0 * gamma;
    assert -1.0 / gamma == -(1.0 / gamma) && -1.0 / l == -(1.0 / l);
  }

  /** An IMEX step leaves the divergence exactly as it was, for every nonzero gamma. */
  lemma Imex222KeepsDivergence(e: Extents, nq: nat, idx: Spacing, p: Ix, R: seq<seq<Stag>>, dt: real, gamma: real,
                               E1: EmfField, E2: EmfField)
    requires gamma != 0.0
    requires Run(e, nq, idx, R, Imex222Ops(dt, WeightsOf(gamma), E1, E2)) && |R[0]| == 3 && InteriorCell(e, nq, p)
    ensures |R[15]| == 3 && DivB(R[15][STATE], idx, p) == DivB(R[0][STATE], idx, p)
  {
    hide DivB, InteriorCell, Trace, Step;
    var d, s, t := DivB(R[0][0], idx, p), DivB(R[0][1], idx, p), DivB(R[0][2], idx, p);
    OppositeWeights(d, gamma);
    hide WeightsOf;
    var w := WeightsOf(gamma);
    assert w.m * 0.0 == 0.0 && w.k * 0.0 == 0.0;
    var v := Imex222Trace(d, s, t, 0.0, -1.0 * d, w, dt, E1, E2);
    assert v[0] == Divergences(idx, p, R[0]);
    ShadowOfOneStep(e, nq, idx, p, R, Imex222Ops(dt, w, E1, E2), v);
    assert Divergences(idx, p, R[15])[STATE] == d;
  }

  /** The factor by which one fourth-order step multiplies the divergence: the
      combination weights, stored with fifteen decimals, do not quite sum to one. */
  lemma Rk4FactorIsNearlyOne()
    ensures 1.0 - 0.000000000000002 < K < 1.0
  {
  }

  lemma Rk4Weights(d: real)
    ensures 0.0 * d + 1.0 * d == d
    ensures 1.0 * d + D2 * d == (1.0 + D2) * d
    ensures G21 * d + G22 * ((1.0 + D2) * d) == K3 * d
    ensures 1.0 * ((1.0 + D2) * d) + D3 * (K3 * d) == S * d
    ensures G31 * (K3 * d) + G32 * (S * d) == K4 * d
    ensures G41 * (K4 * d) + G42 * (S * d) == K * d
  {
  }

  /** The shadow of a fourth-order step: c1, s1, c2, g, s2 are the combinations it forms, in order. */
  lemma Rk4Trace(d: real, s: real, t: real, c1: real, s1: real, c2: real, g: real, s2: real,
                 dt: real, E1: EmfField, E2: EmfField, E3: EmfField, E4: EmfField) returns (v: seq<seq<real>>)
    requires 1.0 * d + D2 * d == c1 && G21 * d + G22 * c1 == s1
    requires 1.0 * c1 + D3 * s1 == c2 && G31 * s1 + G32 * c2 == g
    requires G41 * g + G42 * c2 == s2
    ensures Trace(v, Rk4Ops(dt, E1, E2, E3, E4)) && |v| == 17 && v[0] == [d, s, t] && v[16] == [s2, s2, g]
  {
    hide Shadow;
    v := [[d, s, t], [d, d, t], [d, d, d], [d, d, d], [d, d, d], [d, c1, d], [s1, c1, d], [s1, c1, d], [s1, c1, d], [s1, c2, d], [s1, c2, g],
          [s1, c2, g], [s1, c2, g], [s2, c2, g], [s2, c2, g], [s2, c2, g], [s2, s2, g]];
    CopyAt(v[0], SCRATCH, STATE);
    Lin2At(v[1], STAGING, STATE, SCRATCH, 0.0, 1.0, d, d, d);
    TransportAt(v[2], STAGING, E1, dt * A21);
    FillAt(v[3], STAGING);
    Lin2At(v[4], SCRATCH, SCRATCH, STAGING, 1.0, D2, d, d, c1);
    Lin2At(v[5], STATE, STAGING, SCRATCH, G21, G22, d, c1, s1);
    TransportAt(v[6], STATE, E2, dt * A32);
    FillAt(v[7], STATE);
    Lin2At(v[8], SCRATCH, SCRATCH, STATE, 1.0, D3, c1, s1, c2);
    Lin2At(v[9], STAGING, STATE, SCRATCH, G31, G32, s1, c2, g);
    TransportAt(v[10], STAGING, E3, dt * A43);
    FillAt(v[11], STAGING);
    Lin2At(v[12], STATE, STAGING, SCRATCH, G41, G42, g, c2, s2);
    TransportAt(v[13], STATE, E4, dt * B4);
    FillAt(v[14], STATE);
    CopyAt(v[15], SCRATCH, STATE);
  }

  lemma Rk4ScalesDivergence(e: Extents, nq: nat, idx: Spacing, p: Ix, R: seq<seq<Stag>>, dt: real,
                            E1: EmfField, E2: EmfField, E3: EmfField, E4: EmfField)
    requires Run(e, nq, idx, R, Rk4Ops(dt, E1, E2, E3, E4)) && |R[0]| == 3 && InteriorCell(e, nq, p)
    ensures |R[16]| == 3 && DivB(R[16][STATE], idx, p) == K * DivB(R[0][STATE], idx, p)
  {
    hide DivB, InteriorCell, Trace, Step;
    var d, s, t := DivB(R[0][0], idx, p), DivB(R[0][1], idx, p), DivB(R[0][2], idx, p);
    Rk4Weights(d);
    var v := Rk4Trace(d, s, t, (1.0 + D2) * d, K3 * d, S * d, K4 * d, K * d,
                      dt, E1, E2, E3, E4);
    assert v[0] == Divergences(idx, p, R[0]);
    ShadowOfOneStep(e, nq, idx, p, R, Rk4Ops(dt, E1, E2, E3, E4), v);
    assert Divergences(idx, p, R[16])[STATE] == K * d;
  }
}
