/** The four-stage low-storage stepper: the scheme its buffers compute, and the
    order conditions its fifteen-digit coefficients satisfy. */
module Rk4Stepper {
  import opened Steppers

  /** The coefficients the low-storage recurrence amounts to. Ki multiplies the old
      state in stage i, Aij the rate of stage j in stage i, Bj that of stage j in the result. */
  const D2 := 0.217683334308543
  const D3 := 1.065841341361089
  const G21 := 0.121098479554482
  const G22 := 0.721781678111411
  const G31 := -3.843833699660025
  const G32 := 2.121209265338722
  const G41 := 0.546370891121863
  const G42 := 0.198653035682705
  const A21 := 1.193743905974738
  const A32 := 0.099279895495783
  const A43 := 1.131678018054042
  const B4 := 0.310665766509336

  const K3 := G21 + G22 * (1.0 + D2)
  const A31 := (G21 + G22 * D2) * A21
  const S := 1.0 + D2 + D3 * K3
  const S1 := D2 * A21 + D3 * A31
  const S2 := D3 * A32
  const K4 := G31 * K3 + G32 * S
  const A41 := G31 * A31 + G32 * S1
  const A42 := G31 * A32 + G32 * S2
  const K := G41 * K4 + G42 * S
  const B1 := G41 * A41 + G42 * S1
  const B2 := G41 * A42 + G42 * S2
  const B3 := G41 * A43

  ghost predicate Near(a: real, b: real) {
    -0.000000000000003 < a - b < 0.000000000000003
  }

  const C3 := A31 + A32
  const C4 := A41 + A42 + A43

  /** The eight conditions for fourth order hold to within three parts in 10^15,
      and so do the consistency conditions of the recurrence. */
  lemma OrderConditions()
    ensures Near(K3, 1.0) && Near(K4, 1.0) && Near(K, 1.0)
    ensures Near(B1 + B2 + B3 + B4, 1.0)
    ensures Near(B2 * A21 + B3 * C3 + B4 * C4, 1.0 / 2.0)
    ensures Near(B2 * A21 * A21 + B3 * C3 * C3 + B4 * C4 * C4, 1.0 / 3.0)
    ensures Near(B3 * A32 * A21 + B4 * (A42 * A21 + A43 * C3), 1.0 / 6.0)
    ensures Near(B2 * A21 * A21 * A21 + B3 * C3 * C3 * C3 + B4 * C4 * C4 * C4, 1.0 / 4.0)
    ensures Near(B3 * C3 * A32 * A21 + B4 * C4 * (A42 * A21 + A43 * C3), 1.0 / 8.0)
    ensures Near(B3 * A32 * A21 * A21 + B4 * (A42 * A21 * A21 + A43 * C3 * C3), 1.0 / 12.0)
    ensures Near(B4 * A43 * A32 * A21, 1.0 / 24.0)
  {
  }

  /** Component i of dt F(s). */
  ghost function Rate(ops: Operators, dt: real, s: State, i: nat): real
    requires i < |ops.F(s)|
  {
    dt * ops.F(s)[i]
  }

  /** Component i of the scheme the recurrence computes. */
  ghost predicate ButcherAt(y: real, w1: real, w2: real, w3: real, w4: real, y2: real, y3: real, y4: real, z: real) {
    && y2 == y + A21 * w1
    && y3 == K3 * y + A31 * w1 + A32 * w2
    && y4 == K4 * y + A41 * w1 + A42 * w2 + A43 * w3
    && z == K * y + B1 * w1 + B2 * w2 + B3 * w3 + B4 * w4
  }

  /** The ghost cells of the stages: filled over those of the combinations that the stages start from. */
  ghost predicate FilledRk4(ops: Operators, m: nat, y: State, y2: State, y3: State, y4: State, z: State)
    requires |y| == |y2| == |y3| == |y4| == |z|
  {
    var c1 := Lin(1.0, y, D2, y2);
    var c2 := Lin(1.0, c1, D3, y3);
    && Filled(ops, m, y2, y, y, A21)
    && Filled(ops, m, y3, Lin(G21, y2, G22, c1), y2, A32)
    && Filled(ops, m, y4, Lin(G31, y3, G32, c2), y3, A43)
    && Filled(ops, m, z, Lin(G41, y4, G42, c2), y4, B4)
  }

  /** The scheme the recurrence computes, on the interior cells and with their ghost cells filled as the code fills them. */
  ghost predicate ButcherRk4(ops: Operators, m: nat, dt: real, y: State, y2: State, y3: State, y4: State, z: State) {
    && |y| == |y2| == |y3| == |y4| == |z| && ops.Valid(m, |y|) && FilledRk4(ops, m, y, y2, y3, y4, z)
    && forall i | 0 <= i < m ::
         ButcherAt(y[i], Rate(ops, dt, y, i), Rate(ops, dt, y2, i), Rate(ops, dt, y3, i), Rate(ops, dt, y4, i), y2[i], y3[i], y4[i], z[i])
  }

  /** The scheme leaves nothing open: one step has one result. */
  lemma Rk4Determined(ops: Operators, m: nat, dt: real, y: State, y2: State, y3: State, y4: State, z: State,
                      x2: State, x3: State, x4: State, x: State)
    requires ButcherRk4(ops, m, dt, y, y2, y3, y4, z) && ButcherRk4(ops, m, dt, y, x2, x3, x4, x)
    ensures y2 == x2 && y3 == x3 && y4 == x4 && z == x
  {
    hide Lin, Filled, Operators.Valid;
    SameStage(ops, m, y2, x2, y, y, A21);
    var c1 := Lin(1.0, y, D2, y2);
    SameStage(ops, m, y3, x3, Lin(G21, y2, G22, c1), y2, A32);
    var c2 := Lin(1.0, c1, D3, y3);
    SameStage(ops, m, y4, x4, Lin(G31, y3, G32, c2), y3, A43);
    SameStage(ops, m, z, x, Lin(G41, y4, G42, c2), y4, B4);
  }

  lemma Rk4Point(y: real, w1: real, w2: real, w3: real, w4: real, y2: real, c1: real, y3: real, c2: real, y4: real, z: real)
    requires y2 == (0.0 * y + 1.0 * y) + A21 * w1
    requires c1 == 1.0 * y + D2 * y2
    requires y3 == (G21 * y2 + G22 * c1) + A32 * w2
    requires c2 == 1.0 * c1 + D3 * y3
    requires y4 == (G31 * y3 + G32 * c2) + A43 * w3
    requires z == (G41 * y4 + G42 * c2) + B4 * w4
    ensures ButcherAt(y, w1, w2, w3, w4, y2, y3, y4, z)
  {
  }

  /** A stage built as combination, interior advance and boundary fill, at one interior cell. */
  lemma StageAt(ops: Operators, m: nat, dt: real, a: real, b: State, c: State, wb: real, wc: real, p: State, f: State, s: State, y: State, i: nat)
    requires ops.Valid(m, |f|) && |f| == |b| && i < m
    requires IsLin2(p, b, c, wb, wc) && IsSubstep(m, s, p, dt, a, ops.F(f)) && SameInterior(m, y, s)
    ensures |y| == |b| && y[i] == (wb * b[i] + wc * c[i]) + a * Rate(ops, dt, f, i)
  {
    assert y[i] == y[..m][i] == s[i];
    assert (dt * a) * ops.F(f)[i] == a * (dt * ops.F(f)[i]);
  }

  lemma LinAt(p: State, b: State, c: State, wb: real, wc: real, i: nat)
    requires IsLin2(p, b, c, wb, wc) && i < |b|
    ensures |p| == |b| == |c| && p[i] == wb * b[i] + wc * c[i]
  {
  }

  lemma Rk4At(ops: Operators, m: nat, dt: real, y: State, p1: State, s1: State, y2: State, c1: State, p2: State, s2: State,
              y3: State, c2: State, p3: State, s3: State, y4: State, p4: State, s4: State, z: State, i: nat)
    requires ops.Valid(m, |y|) && |y2| == |y| && |y3| == |y| && |y4| == |y| && i < m
    requires IsLin2(p1, y, y, 0.0, 1.0) && IsSubstep(m, s1, p1, dt, A21, ops.F(y)) && SameInterior(m, y2, s1)
    requires IsLin2(c1, y, y2, 1.0, D2) && IsLin2(p2, y2, c1, G21, G22)
    requires IsSubstep(m, s2, p2, dt, A32, ops.F(y2)) && SameInterior(m, y3, s2)
    requires IsLin2(c2, c1, y3, 1.0, D3) && IsLin2(p3, y3, c2, G31, G32)
    requires IsSubstep(m, s3, p3, dt, A43, ops.F(y3)) && SameInterior(m, y4, s3)
    requires IsLin2(p4, y4, c2, G41, G42) && IsSubstep(m, s4, p4, dt, B4, ops.F(y4)) && SameInterior(m, z, s4)
    ensures |z| == |y| && ButcherAt(y[i], Rate(ops, dt, y, i), Rate(ops, dt, y2, i), Rate(ops, dt, y3, i), Rate(ops, dt, y4, i), y2[i], y3[i], y4[i], z[i])
  {
    assert |ops.F(y)| == |y| && |ops.F(y2)| == |y| && |ops.F(y3)| == |y| && |ops.F(y4)| == |y| && m <= |y|;
    hide *;
    StageAt(ops, m, dt, A21, y, y, 0.0, 1.0, p1, y, s1, y2, i);
    LinAt(c1, y, y2, 1.0, D2, i);
    StageAt(ops, m, dt, A32, y2, c1, G21, G22, p2, y2, s2, y3, i);
    LinAt(c2, c1, y3, 1.0, D3, i);
    StageAt(ops, m, dt, A43, y3, c2, G31, G32, p3, y3, s3, y4, i);
    StageAt(ops, m, dt, B4, y4, c2, G41, G42, p4, y4, s4, z, i);
    Rk4Point(y[i], Rate(ops, dt, y, i), Rate(ops, dt, y2, i), Rate(ops, dt, y3, i), Rate(ops, dt, y4, i),
             y2[i], c1[i], y3[i], c2[i], y4[i], z[i]);
  }

  /** The buffer contents a four-stage step goes through, in order, give the scheme. */
  lemma Rk4Refines(ops: Operators, m: nat, dt: real, y: State, p1: State, s1: State, y2: State, c1: State, p2: State, s2: State,
                   y3: State, c2: State, p3: State, s3: State, y4: State, p4: State, s4: State, z: State)
    requires ops.Valid(m, |y|) && |y2| == |y| && |y3| == |y| && |y4| == |y| && |z| == |y|
    requires IsLin2(p1, y, y, 0.0, 1.0) && IsSubstep(m, s1, p1, dt, A21, ops.F(y)) && y2 == ops.bc(s1, y, A21)
    requires IsLin2(c1, y, y2, 1.0, D2) && IsLin2(p2, y2, c1, G21, G22)
    requires IsSubstep(m, s2, p2, dt, A32, ops.F(y2)) && y3 == ops.bc(s2, y2, A32)
    requires IsLin2(c2, c1, y3, 1.0, D3) && IsLin2(p3, y3, c2, G31, G32)
    requires IsSubstep(m, s3, p3, dt, A43, ops.F(y3)) && y4 == ops.bc(s3, y3, A43)
    requires IsLin2(p4, y4, c2, G41, G42) && IsSubstep(m, s4, p4, dt, B4, ops.F(y4)) && z == ops.bc(s4, y4, B4)
    ensures ButcherRk4(ops, m, dt, y, y2, y3, y4, z)
  {
    AdvanceFills(ops, m, p1, dt * A21, ops.F(y), s1, y, A21, y2);
    AdvanceFills(ops, m, p2, dt * A32, ops.F(y2), s2, y2, A32, y3);
    AdvanceFills(ops, m, p3, dt * A43, ops.F(y3), s3, y3, A43, y4);
    AdvanceFills(ops, m, p4, dt * B4, ops.F(y4), s4, y4, B4, z);
    assert p1 == y;
    LinIs(c1, 1.0, y, D2, y2);
    LinIs(c2, 1.0, c1, D3, y3);
    LinIs(p2, G21, y2, G22, c1);
    LinIs(p3, G31, y3, G32, c2);
    LinIs(p4, G41, y4, G42, c2);
    hide IsLin2, IsSubstep, SameInterior, ButcherAt, Rate, Lin, Filled;
    forall i | 0 <= i < m
      ensures ButcherAt(y[i], Rate(ops, dt, y, i), Rate(ops, dt, y2, i), Rate(ops, dt, y3, i), Rate(ops, dt, y4, i), y2[i], y3[i], y4[i], z[i])
    {
      Rk4At(ops, m, dt, y, p1, s1, y2, c1, p2, s2, y3, c2, p3, s3, y4, p4, s4, z, i);
    }
  }

  lemma LinIs(p: State, wb: real, b: State, wc: real, c: State)
    requires IsLin2(p, b, c, wb, wc)
    ensures p == Lin(wb, b, wc, c)
  {
  }

  /** One step of the four-stage stepper on its three buffers. */
  method Rk4(ops: Operators, m: nat, dt: real, state: array<real>, scratch: array<real>, staging: array<real>)
    requires state != scratch && state != staging && scratch != staging
    requires state.Length == scratch.Length == staging.Length && ops.Valid(m, state.Length)
    modifies state, scratch, staging
    ensures exists y2, y3, y4 :: ButcherRk4(ops, m, dt, old(state[..]), y2, y3, y4, state[..])
    ensures scratch[..] == state[..]
  {
    hide *;
    ghost var y := state[..];
    DeepCopy(scratch, state);
    LinOp2(staging, state, scratch, 0.0, 1.0);
    ghost var p1 := staging[..];
    AdvanceSubstep(ops, m, dt, A21, staging, state);
    ghost var s1 := staging[..];
    ApplyBoundaryConditions(ops, m, staging, state, A21);
    ghost var y2 := staging[..];
    LinOp2(scratch, scratch, staging, 1.0, D2);
    ghost var c1 := scratch[..];
    LinOp2(state, staging, scratch, G21, G22);
    ghost var p2 := state[..];
    AdvanceSubstep(ops, m, dt, A32, state, staging);
    ghost var s2 := state[..];
    ApplyBoundaryConditions(ops, m, state, staging, A32);
    ghost var y3 := state[..];
    LinOp2(scratch, scratch, state, 1.0, D3);
    ghost var c2 := scratch[..];
    LinOp2(staging, state, scratch, G31, G32);
    ghost var p3 := staging[..];
    AdvanceSubstep(ops, m, dt, A43, staging, state);
    ghost var s3 := staging[..];
    ApplyBoundaryConditions(ops, m, staging, state, A43);
    ghost var y4 := staging[..];
    LinOp2(state, staging, scratch, G41, G42);
    ghost var p4 := state[..];
    AdvanceSubstep(ops, m, dt, B4, state, staging);
    ghost var s4 := state[..];
    ApplyBoundaryConditions(ops, m, state, staging, B4);
    ghost var z := state[..];
    Rk4Refines(ops, m, dt, y, p1, s1, y2, c1, p2, s2, y3, c2, p3, s3, y4, p4, s4, z);
    DeepCopy(scratch, state);
    assert state[..] == z;
  }
}
