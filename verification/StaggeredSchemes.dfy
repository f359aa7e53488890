/** What one step of each time stepper makes of the staggered field: on every face the update
    reaches, the same Butcher scheme as for the cells, with the circulations of the EMFs as rates. */
module StaggeredSchemes {
  import opened Grid
  import opened ConstrainedTransport
  import opened StaggeredRuns
  import opened StaggeredSteppers
  import Steppers
  import opened Rk4Stepper

  /** The field on one face normal to direction d. */
  ghost function On(B: Stag, d: int, p: Ix): real { if d == 0 then B.x(p) else if d == 1 then B.y(p) else B.z(p) }

  /** An updated face, watched during a run on three buffers. */
  ghost predicate Watched(e: Extents, nq: nat, idx: Spacing, R: seq<seq<Stag>>, ops: seq<Op>, d: int, p: Ix) {
    Run(e, nq, idx, R, ops) && |R[0]| == 3 && 0 <= d < 3 && Updates(e, nq, d, p)
  }

  /** The field there in buffer r of state n. */
  ghost function Val(R: seq<seq<Stag>>, d: int, p: Ix, n: nat, r: nat): real {
    if n < |R| && r < |R[n]| then On(R[n][r], d, p) else 0.0
  }

  /** What an update of weight w adds there. */
  ghost function Gain(w: real, E: EmfField, idx: Spacing, d: int, p: Ix): real { w * Circulation(E, idx, d, p) }

  lemma {:induction false} ThreeBuffers(e: Extents, nq: nat, idx: Spacing, R: seq<seq<Stag>>, ops: seq<Op>, n: nat)
    requires Run(e, nq, idx, R, ops) && |R[0]| == 3 && n <= |ops|
    ensures |R[n]| == 3
  {
    if n > 0 {
      ThreeBuffers(e, nq, idx, R, ops, n - 1);
      assert Step(e, nq, idx, R[n - 1], ops[n - 1], R[n - 1 + 1]);
    }
  }

  /** State n + 1 differs from state n in buffer r only. */
  ghost predicate Sets(R: seq<seq<Stag>>, d: int, p: Ix, n: nat, r: nat, x: real) {
    && Val(R, d, p, n + 1, 0) == (if r == 0 then x else Val(R, d, p, n, 0))
    && Val(R, d, p, n + 1, 1) == (if r == 1 then x else Val(R, d, p, n, 1))
    && Val(R, d, p, n + 1, 2) == (if r == 2 then x else Val(R, d, p, n, 2))
  }

  lemma OthersKept(e: Extents, nq: nat, idx: Spacing, R: seq<seq<Stag>>, ops: seq<Op>, d: int, p: Ix, n: nat)
    requires Watched(e, nq, idx, R, ops, d, p) && n < |ops|
    ensures |R[n]| == |R[n + 1]| == 3 && Step(e, nq, idx, R[n], ops[n], R[n + 1]) && ops[n].Valid(3)
    ensures Sets(R, d, p, n, ops[n].dst, Val(R, d, p, n + 1, ops[n].dst))
  {
    ThreeBuffers(e, nq, idx, R, ops, n);
    ThreeBuffers(e, nq, idx, R, ops, n + 1);
    hide On;
  }

  lemma CombinesOn(D: Stag, A: Stag, B: Stag, C: Stag, ca: real, cb: real, cc: real, d: int, p: Ix)
    requires Combines(D, A, B, C, ca, cb, cc) && 0 <= d < 3
    ensures On(D, d, p) == ca * On(A, d, p) + cb * On(B, d, p) + cc * On(C, d, p)
  {
  }

  lemma CopyTo(e: Extents, nq: nat, idx: Spacing, R: seq<seq<Stag>>, ops: seq<Op>, d: int, p: Ix, n: nat, r: nat, s: nat)
    requires Watched(e, nq, idx, R, ops, d, p) && n < |ops| && ops[n] == Copy(r, s)
    ensures Sets(R, d, p, n, r, Val(R, d, p, n, s))
  {
    OthersKept(e, nq, idx, R, ops, d, p, n);
  }

  lemma TransportOf(e: Extents, nq: nat, idx: Spacing, R: seq<seq<Stag>>, ops: seq<Op>, d: int, p: Ix, n: nat, r: nat, E: EmfField, w: real)
    requires Watched(e, nq, idx, R, ops, d, p) && n < |ops| && ops[n] == Transport(r, E, w)
    ensures Sets(R, d, p, n, r, Val(R, d, p, n, r) + Gain(w, E, idx, d, p))
  {
    OthersKept(e, nq, idx, R, ops, d, p, n);
    hide Circulation, Updates;
  }

  lemma FillOf(e: Extents, nq: nat, idx: Spacing, R: seq<seq<Stag>>, ops: seq<Op>, d: int, p: Ix, n: nat, r: nat)
    requires Watched(e, nq, idx, R, ops, d, p) && n < |ops| && ops[n] == Fill(r)
    ensures Sets(R, d, p, n, r, Val(R, d, p, n, r))
  {
    OthersKept(e, nq, idx, R, ops, d, p, n);
    hide Updates;
  }

  lemma Lin2To(e: Extents, nq: nat, idx: Spacing, R: seq<seq<Stag>>, ops: seq<Op>, d: int, p: Ix, n: nat, r: nat, a: nat, b: nat, ca: real, cb: real)
    requires Watched(e, nq, idx, R, ops, d, p) && n < |ops| && ops[n] == Lin2(r, a, b, ca, cb)
    ensures Sets(R, d, p, n, r, Weighted2(ca, Val(R, d, p, n, a), cb, Val(R, d, p, n, b)))
  {
    OthersKept(e, nq, idx, R, ops, d, p, n);
    CombinesOn(R[n + 1][r], R[n][a], R[n][b], R[n][b], ca, cb, 0.0, d, p);
    hide Updates, On, Combines;
  }

  lemma Lin3To(e: Extents, nq: nat, idx: Spacing, R: seq<seq<Stag>>, ops: seq<Op>, d: int, p: Ix, n: nat,
               r: nat, a: nat, b: nat, c: nat, ca: real, cb: real, cc: real)
    requires Watched(e, nq, idx, R, ops, d, p) && n < |ops| && ops[n] == Lin3(r, a, b, c, ca, cb, cc)
    ensures Sets(R, d, p, n, r, Weighted3(ca, Val(R, d, p, n, a), cb, Val(R, d, p, n, b), cc, Val(R, d, p, n, c)))
  {
    OthersKept(e, nq, idx, R, ops, d, p, n);
    CombinesOn(R[n + 1][r], R[n][a], R[n][b], R[n][c], ca, cb, cc, d, p);
    hide Updates, On, Combines;
  }

  /** The forward step. */
  lemma EulerSteps(e: Extents, nq: nat, idx: Spacing, R: seq<seq<Stag>>, d: int, p: Ix, dt: real, E: EmfField)
    requires Watched(e, nq, idx, R, EulerOps(dt, E), d, p)
    ensures Val(R, d, p, 4, STATE) == Val(R, d, p, 0, STATE) + Gain(dt, E, idx, d, p)
  {
    hide Watched, Val, Gain, Weighted2, Weighted3;
    var ops := EulerOps(dt, E);
    CopyTo(e, nq, idx, R, ops, d, p, 0, SCRATCH, STATE);
    TransportOf(e, nq, idx, R, ops, d, p, 1, STATE, E, dt);
    FillOf(e, nq, idx, R, ops, d, p, 2, STATE);
    CopyTo(e, nq, idx, R, ops, d, p, 3, SCRATCH, STATE);
  }

  /** The midpoint rule. */
  lemma Rk2Steps(e: Extents, nq: nat, idx: Spacing, R: seq<seq<Stag>>, d: int, p: Ix, dt: real, E1: EmfField, E2: EmfField)
    requires Watched(e, nq, idx, R, Rk2Ops(dt, E1, E2), d, p)
    ensures Val(R, d, p, 3, SCRATCH) == Val(R, d, p, 0, STATE) + Gain(dt * 0.5, E1, idx, d, p)
    ensures Val(R, d, p, 6, STATE) == Val(R, d, p, 0, STATE) + Gain(dt, E2, idx, d, p)
  {
    hide Watched, Val, Gain, Weighted2, Weighted3;
    var ops := Rk2Ops(dt, E1, E2);
    CopyTo(e, nq, idx, R, ops, d, p, 0, SCRATCH, STATE);
    TransportOf(e, nq, idx, R, ops, d, p, 1, SCRATCH, E1, dt * 0.5);
    FillOf(e, nq, idx, R, ops, d, p, 2, SCRATCH);
    TransportOf(e, nq, idx, R, ops, d, p, 3, STATE, E2, dt);
    FillOf(e, nq, idx, R, ops, d, p, 4, STATE);
    CopyTo(e, nq, idx, R, ops, d, p, 5, SCRATCH, STATE);
  }

  /** The stages of a third-order step. */
  lemma Rk3Steps(e: Extents, nq: nat, idx: Spacing, R: seq<seq<Stag>>, d: int, p: Ix, dt: real, E1: EmfField, E2: EmfField, E3: EmfField)
    requires Watched(e, nq, idx, R, Rk3Ops(dt, E1, E2, E3), d, p)
    ensures Val(R, d, p, 3, SCRATCH) == Val(R, d, p, 0, STATE) + Gain(dt, E1, idx, d, p)
    ensures Val(R, d, p, 6, STAGING) == Weighted2(0.75, Val(R, d, p, 0, STATE), 0.25, Val(R, d, p, 3, SCRATCH)) + Gain(dt * 0.25, E2, idx, d, p)
    ensures Val(R, d, p, 10, STATE) == Weighted2(1.0 / 3.0, Val(R, d, p, 0, STATE), 2.0 / 3.0, Val(R, d, p, 6, STAGING)) + Gain(dt * (2.0 / 3.0), E3, idx, d, p)
  {
    hide Watched, Val, Gain, Weighted2, Weighted3;
    var ops := Rk3Ops(dt, E1, E2, E3);
    CopyTo(e, nq, idx, R, ops, d, p, 0, SCRATCH, STATE);
    TransportOf(e, nq, idx, R, ops, d, p, 1, SCRATCH, E1, dt);
    FillOf(e, nq, idx, R, ops, d, p, 2, SCRATCH);
    Lin2To(e, nq, idx, R, ops, d, p, 3, STAGING, STATE, SCRATCH, 0.75, 0.25);
    TransportOf(e, nq, idx, R, ops, d, p, 4, STAGING, E2, dt * 0.25);
    FillOf(e, nq, idx, R, ops, d, p, 5, STAGING);
    Lin2To(e, nq, idx, R, ops, d, p, 6, STATE, STATE, STAGING, 1.0 / 3.0, 2.0 / 3.0);
    TransportOf(e, nq, idx, R, ops, d, p, 7, STATE, E3, dt * (2.0 / 3.0));
    FillOf(e, nq, idx, R, ops, d, p, 8, STATE);
    CopyTo(e, nq, idx, R, ops, d, p, 9, SCRATCH, STATE);
  }

  /** The stages of a four-stage step, and the two combinations kept in the scratch buffer. */
  lemma Rk4Steps(e: Extents, nq: nat, idx: Spacing, R: seq<seq<Stag>>, d: int, p: Ix, dt: real, E1: EmfField, E2: EmfField, E3: EmfField, E4: EmfField)
    requires Watched(e, nq, idx, R, Rk4Ops(dt, E1, E2, E3, E4), d, p)
    ensures Val(R, d, p, 4, STAGING) == Weighted2(0.0, Val(R, d, p, 0, STATE), 1.0, Val(R, d, p, 0, STATE)) + Gain(dt * A21, E1, idx, d, p)
    ensures Val(R, d, p, 5, SCRATCH) == Weighted2(1.0, Val(R, d, p, 0, STATE), D2, Val(R, d, p, 4, STAGING))
    ensures Val(R, d, p, 8, STATE) == Weighted2(G21, Val(R, d, p, 4, STAGING), G22, Val(R, d, p, 5, SCRATCH)) + Gain(dt * A32, E2, idx, d, p)
    ensures Val(R, d, p, 9, SCRATCH) == Weighted2(1.0, Val(R, d, p, 5, SCRATCH), D3, Val(R, d, p, 8, STATE))
    ensures Val(R, d, p, 12, STAGING) == Weighted2(G31, Val(R, d, p, 8, STATE), G32, Val(R, d, p, 9, SCRATCH)) + Gain(dt * A43, E3, idx, d, p)
    ensures Val(R, d, p, 16, STATE) == Weighted2(G41, Val(R, d, p, 12, STAGING), G42, Val(R, d, p, 9, SCRATCH)) + Gain(dt * B4, E4, idx, d, p)
  {
    hide Watched, Val, Gain, Weighted2, Weighted3;
    var ops := Rk4Ops(dt, E1, E2, E3, E4);
    CopyTo(e, nq, idx, R, ops, d, p, 0, SCRATCH, STATE);
    Lin2To(e, nq, idx, R, ops, d, p, 1, STAGING, STATE, SCRATCH, 0.0, 1.0);
    TransportOf(e, nq, idx, R, ops, d, p, 2, STAGING, E1, dt * A21);
    FillOf(e, nq, idx, R, ops, d, p, 3, STAGING);
    Lin2To(e, nq, idx, R, ops, d, p, 4, SCRATCH, SCRATCH, STAGING, 1.0, D2);
    Lin2To(e, nq, idx, R, ops, d, p, 5, STATE, STAGING, SCRATCH, G21, G22);
    TransportOf(e, nq, idx, R, ops, d, p, 6, STATE, E2, dt * A32);
    FillOf(e, nq, idx, R, ops, d, p, 7, STATE);
    Lin2To(e, nq, idx, R, ops, d, p, 8, SCRATCH, SCRATCH, STATE, 1.0, D3);
    Lin2To(e, nq, idx, R, ops, d, p, 9, STAGING, STATE, SCRATCH, G31, G32);
    TransportOf(e, nq, idx, R, ops, d, p, 10, STAGING, E3, dt * A43);
    FillOf(e, nq, idx, R, ops, d, p, 11, STAGING);
    Lin2To(e, nq, idx, R, ops, d, p, 12, STATE, STAGING, SCRATCH, G41, G42);
    TransportOf(e, nq, idx, R, ops, d, p, 13, STATE, E4, dt * B4);
    FillOf(e, nq, idx, R, ops, d, p, 14, STATE);
    CopyTo(e, nq, idx, R, ops, d, p, 15, SCRATCH, STATE);
  }

  /** The stages of an IMEX step, and its difference of copies. */
  lemma Imex222Steps(e: Extents, nq: nat, idx: Spacing, R: seq<seq<Stag>>, d: int, p: Ix, dt: real, w: ImexWeights, E1: EmfField, E2: EmfField)
    requires Watched(e, nq, idx, R, Imex222Ops(dt, w, E1, E2), d, p)
    ensures Val(R, d, p, 3, STAGING) == Val(R, d, p, 0, STATE) && Val(R, d, p, 5, SCRATCH) == Val(R, d, p, 0, STATE) + Gain(dt, E1, idx, d, p)
    ensures Val(R, d, p, 6, STAGING) == Weighted2(w.ra, Val(R, d, p, 0, STATE), w.rb, Val(R, d, p, 0, STATE))
    ensures Val(R, d, p, 8, SCRATCH) == Weighted2(1.0, Val(R, d, p, 5, SCRATCH), w.k, Val(R, d, p, 6, STAGING)) && Val(R, d, p, 11, STAGING) == Val(R, d, p, 8, SCRATCH)
    ensures Val(R, d, p, 7, STATE) == Weighted3(0.5, Val(R, d, p, 0, STATE), 0.5, Val(R, d, p, 5, SCRATCH), 0.5, Val(R, d, p, 6, STAGING))
    ensures Val(R, d, p, 15, STATE) == Weighted3(1.0, Val(R, d, p, 7, STATE), w.ha, Val(R, d, p, 11, STAGING), w.hb, Val(R, d, p, 8, SCRATCH)) + Gain(dt * 0.5, E2, idx, d, p)
  {
    hide Watched, Val, Gain, Weighted2, Weighted3;
    var ops := Imex222Ops(dt, w, E1, E2);
    CopyTo(e, nq, idx, R, ops, d, p, 0, SCRATCH, STATE);
    CopyTo(e, nq, idx, R, ops, d, p, 1, STAGING, STATE);
    CopyTo(e, nq, idx, R, ops, d, p, 2, STAGING, STATE);
    TransportOf(e, nq, idx, R, ops, d, p, 3, SCRATCH, E1, dt);
    FillOf(e, nq, idx, R, ops, d, p, 4, SCRATCH);
    Lin2To(e, nq, idx, R, ops, d, p, 5, STAGING, STAGING, STATE, w.ra, w.rb);
    Lin3To(e, nq, idx, R, ops, d, p, 6, STATE, STATE, SCRATCH, STAGING, 0.5, 0.5, 0.5);
    Lin2To(e, nq, idx, R, ops, d, p, 7, SCRATCH, SCRATCH, STAGING, 1.0, w.k);
    FillOf(e, nq, idx, R, ops, d, p, 8, SCRATCH);
    Lin2To(e, nq, idx, R, ops, d, p, 9, STAGING, STAGING, SCRATCH, w.m, -1.0);
    CopyTo(e, nq, idx, R, ops, d, p, 10, STAGING, SCRATCH);
    Lin3To(e, nq, idx, R, ops, d, p, 11, STATE, STATE, STAGING, SCRATCH, 1.0, w.ha, w.hb);
    TransportOf(e, nq, idx, R, ops, d, p, 12, STATE, E2, dt * 0.5);
    FillOf(e, nq, idx, R, ops, d, p, 13, STATE);
    CopyTo(e, nq, idx, R, ops, d, p, 14, SCRATCH, STATE);
  }

  /** A forward step advances every updated face by dt times its circulation. */
  lemma EulerScheme(e: Extents, nq: nat, idx: Spacing, R: seq<seq<Stag>>, d: int, p: Ix, dt: real, E: EmfField)
    requires Watched(e, nq, idx, R, EulerOps(dt, E), d, p)
    ensures Val(R, d, p, 4, STATE) == Val(R, d, p, 0, STATE) + dt * Circulation(E, idx, d, p)
  {
    hide Circulation, Watched, Val;
    EulerSteps(e, nq, idx, R, d, p, dt, E);
  }

  /** A two-stage step is the midpoint rule. */
  lemma Rk2Scheme(e: Extents, nq: nat, idx: Spacing, R: seq<seq<Stag>>, d: int, p: Ix, dt: real, E1: EmfField, E2: EmfField)
    requires Watched(e, nq, idx, R, Rk2Ops(dt, E1, E2), d, p)
    ensures Val(R, d, p, 3, SCRATCH) == Val(R, d, p, 0, STATE) + dt / 2.0 * Circulation(E1, idx, d, p)
    ensures Val(R, d, p, 6, STATE) == Val(R, d, p, 0, STATE) + dt * Circulation(E2, idx, d, p)
  {
    hide Circulation, Watched, Val;
    Rk2Steps(e, nq, idx, R, d, p, dt, E1, E2);
  }

  /** A three-stage step is the third-order scheme of the cells, with circulations as rates. */
  lemma Rk3Scheme(e: Extents, nq: nat, idx: Spacing, R: seq<seq<Stag>>, d: int, p: Ix, dt: real, E1: EmfField, E2: EmfField, E3: EmfField)
    requires Watched(e, nq, idx, R, Rk3Ops(dt, E1, E2, E3), d, p)
    ensures Steppers.Rk3At(dt, Val(R, d, p, 0, STATE), Circulation(E1, idx, d, p), Circulation(E2, idx, d, p), Circulation(E3, idx, d, p),
                           Val(R, d, p, 3, SCRATCH), Val(R, d, p, 6, STAGING), Val(R, d, p, 10, STATE))
  {
    hide Circulation, Watched, Val, Steppers.Rk3At;
    Rk3Steps(e, nq, idx, R, d, p, dt, E1, E2, E3);
    Steppers.Rk3Point(Val(R, d, p, 0, STATE), Circulation(E1, idx, d, p), Circulation(E2, idx, d, p), Circulation(E3, idx, d, p), dt,
                      Val(R, d, p, 3, SCRATCH), Val(R, d, p, 6, STAGING), Val(R, d, p, 10, STATE));
  }

  /** A four-stage step is the four-stage scheme of the cells. */
  lemma Rk4Scheme(e: Extents, nq: nat, idx: Spacing, R: seq<seq<Stag>>, d: int, p: Ix, dt: real, E1: EmfField, E2: EmfField, E3: EmfField, E4: EmfField)
    requires Watched(e, nq, idx, R, Rk4Ops(dt, E1, E2, E3, E4), d, p)
    ensures ButcherAt(Val(R, d, p, 0, STATE), Gain(dt, E1, idx, d, p), Gain(dt, E2, idx, d, p), Gain(dt, E3, idx, d, p), Gain(dt, E4, idx, d, p),
                      Val(R, d, p, 4, STAGING), Val(R, d, p, 8, STATE), Val(R, d, p, 12, STAGING), Val(R, d, p, 16, STATE))
  {
    hide Watched, Val, ButcherAt, Gain, Weighted2;
    Rk4Steps(e, nq, idx, R, d, p, dt, E1, E2, E3, E4);
    GainOf(dt, A21, E1, idx, d, p);
    GainOf(dt, A32, E2, idx, d, p);
    GainOf(dt, A43, E3, idx, d, p);
    GainOf(dt, B4, E4, idx, d, p);
    Rk4Values(Val(R, d, p, 0, STATE), Gain(dt, E1, idx, d, p), Gain(dt, E2, idx, d, p), Gain(dt, E3, idx, d, p), Gain(dt, E4, idx, d, p),
              Gain(dt * A21, E1, idx, d, p), Gain(dt * A32, E2, idx, d, p), Gain(dt * A43, E3, idx, d, p), Gain(dt * B4, E4, idx, d, p),
              Val(R, d, p, 4, STAGING), Val(R, d, p, 5, SCRATCH), Val(R, d, p, 8, STATE), Val(R, d, p, 9, SCRATCH), Val(R, d, p, 12, STAGING), Val(R, d, p, 16, STATE));
  }

  lemma Rk4Values(y: real, w1: real, w2: real, w3: real, w4: real, g1: real, g2: real, g3: real, g4: real,
                  y2: real, c1: real, y3: real, c2: real, y4: real, z: real)
    requires g1 == A21 * w1 && g2 == A32 * w2 && g3 == A43 * w3 && g4 == B4 * w4
    requires y2 == Weighted2(0.0, y, 1.0, y) + g1 && c1 == Weighted2(1.0, y, D2, y2)
    requires y3 == Weighted2(G21, y2, G22, c1) + g2 && c2 == Weighted2(1.0, c1, D3, y3)
    requires y4 == Weighted2(G31, y3, G32, c2) + g3 && z == Weighted2(G41, y4, G42, c2) + g4
    ensures ButcherAt(y, w1, w2, w3, w4, y2, y3, y4, z)
  {
    Rk4Point(y, w1, w2, w3, w4, y2, c1, y3, c2, y4, z);
  }

  lemma GainOf(dt: real, a: real, E: EmfField, idx: Spacing, d: int, p: Ix)
    ensures Gain(dt * a, E, idx, d, p) == a * Gain(dt, E, idx, d, p)
  {
    hide Circulation;
    assert dt * a * Circulation(E, idx, d, p) == a * (dt * Circulation(E, idx, d, p));
  }

  /** An IMEX step is the scheme of the cells without an implicit rate. */
  lemma Imex222Scheme(e: Extents, nq: nat, idx: Spacing, R: seq<seq<Stag>>, d: int, p: Ix, dt: real, gamma: real, E1: EmfField, E2: EmfField)
    requires gamma != 0.0 && Watched(e, nq, idx, R, Imex222Ops(dt, WeightsOf(gamma), E1, E2), d, p)
    ensures Steppers.Imex222At(dt, gamma, Val(R, d, p, 0, STATE), Val(R, d, p, 3, STAGING), Val(R, d, p, 5, SCRATCH), Val(R, d, p, 11, STAGING), Val(R, d, p, 15, STATE),
                               Circulation(E1, idx, d, p), Circulation(E2, idx, d, p), 0.0, 0.0)
  {
    hide Watched, Val, Circulation;
    var w := WeightsOf(gamma);
    Imex222Steps(e, nq, idx, R, d, p, dt, w, E1, E2);
    OppositeWeights(Val(R, d, p, 0, STATE), gamma);
    OppositeWeights(Val(R, d, p, 8, SCRATCH), gamma);
    assert w.k * 0.0 == 0.0;
    hide WeightsOf;
  }

  /** Every update is followed by a fill of the same buffer, before anything else happens. */
  ghost predicate FilledAfterUpdates(ops: seq<Op>) {
    forall n | 0 <= n < |ops| && ops[n].Transport? :: n + 1 < |ops| && ops[n + 1] == Fill(ops[n].dst)
  }

  lemma StepsFillAfterUpdates(dt: real, gamma: real, E1: EmfField, E2: EmfField, E3: EmfField, E4: EmfField)
    requires gamma != 0.0
    ensures FilledAfterUpdates(EulerOps(dt, E1)) && FilledAfterUpdates(Rk2Ops(dt, E1, E2)) && FilledAfterUpdates(Rk3Ops(dt, E1, E2, E3))
    ensures FilledAfterUpdates(Rk4Ops(dt, E1, E2, E3, E4)) && FilledAfterUpdates(Imex222Ops(dt, WeightsOf(gamma), E1, E2))
  {
  }
}
