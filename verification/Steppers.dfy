/** The low-storage time steppers: a few buffers, overwritten in place, refine the
    textbook Runge-Kutta and IMEX schemes for arbitrary operators. */
module Steppers {

  /** All cells of one variable array, the m interior ones first and the ghost cells after them. */
  type State = seq<real>

  /** The explicit operator, the boundary fill and the implicit solver, all arbitrary. */
  datatype Operators = Operators(F: State -> State, G: State -> State,
                                 bc: (State, State, real) -> State, solve: (State, real) -> State) {

    /** F and G keep the shape, bc writes ghost cells only, and solve(s, c) is some solution of x = s + c G(x). */
    ghost predicate Valid(m: nat, n: nat) {
      && m <= n
      && (forall s | |s| == n :: |F(s)| == n && |G(s)| == n)
      && (forall s, t, w | |s| == n && |t| == n :: SameInterior(m, bc(s, t, w), s))
      && (forall s, c {:trigger solve(s, c)} | |s| == n :: IsAdvanced(n, solve(s, c), s, c, G(solve(s, c))))
    }
  }

  ghost predicate SameInterior(m: nat, s': State, s: State) {
    |s'| == |s| && m <= |s| && s'[..m] == s[..m]
  }

  lemma SameAt(m: nat, s': State, s: State, i: nat)
    requires SameInterior(m, s', s) && i < m
    ensures |s'| == |s| && s'[i] == s[i]
  {
    assert s'[i] == s'[..m][i];
  }

  /** s' is s + w f on the first m cells and s elsewhere. */
  ghost predicate IsAdvanced(m: nat, s': State, s: State, w: real, f: State) {
    && |s'| == |s| == |f| && m <= |s| && s'[m..] == s[m..]
    && forall i | 0 <= i < m :: s'[i] == s[i] + w * f[i]
  }

  ghost predicate IsSubstep(m: nat, s': State, s: State, dt: real, dtfact: real, f: State) {
    IsAdvanced(m, s', s, dt * dtfact, f)
  }

  ghost predicate IsLin2(a: State, b: State, c: State, wb: real, wc: real) {
    |a| == |b| == |c| && forall i | 0 <= i < |a| :: a[i] == wb * b[i] + wc * c[i]
  }

  ghost predicate IsLin3(a: State, b: State, c: State, d: State, wb: real, wc: real, wd: real) {
    |a| == |b| == |c| == |d| && forall i | 0 <= i < |a| :: a[i] == wb * b[i] + wc * c[i] + wd * d[i]
  }

  /** a x + b y, on all cells. */
  ghost function Lin(a: real, x: State, b: real, y: State): (s: State)
    requires |x| == |y|
    ensures IsLin2(s, x, y, a, b)
  {
    seq(|x|, i requires 0 <= i < |x| => a * x[i] + b * y[i])
  }

  /** s is a filled stage: what the boundary fill makes of its interior cells and the ghost cells of g. */
  ghost predicate Filled(ops: Operators, m: nat, s: State, g: State, prev: State, w: real) {
    |s| == |g| == |prev| && m <= |s| && s == ops.bc(s[..m] + g[m..], prev, w)
  }

  /** An interior advance followed by a fill makes a filled stage with the same interior. */
  lemma AdvanceFills(ops: Operators, m: nat, g: State, c: real, f: State, s: State, prev: State, w: real, y: State)
    requires ops.Valid(m, |s|) && IsAdvanced(m, s, g, c, f) && |prev| == |s| && y == ops.bc(s, prev, w)
    ensures Filled(ops, m, y, g, prev, w) && SameInterior(m, y, s)
  {
    assert y[..m] + g[m..] == s[..m] + s[m..] == s;
  }

  /** A := b B + c C, in place: A may be B or C. */
  method LinOp2(A: array<real>, B: array<real>, C: array<real>, b: real, c: real)
    requires A.Length == B.Length == C.Length
    modifies A
    ensures IsLin2(A[..], old(B[..]), old(C[..]), b, c)
  {
    for i := 0 to A.Length
      invariant forall k | 0 <= k < i :: A[k] == b * old(B[k]) + c * old(C[k])
      invariant forall k | i <= k < A.Length :: A[k] == old(A[k]) && B[k] == old(B[k]) && C[k] == old(C[k])
    {
      A[i] := b * B[i] + c * C[i];
    }
  }

  /** A := b B + c C + d D, in place. */
  method LinOp3(A: array<real>, B: array<real>, C: array<real>, D: array<real>, b: real, c: real, d: real)
    requires A.Length == B.Length == C.Length == D.Length
    modifies A
    ensures IsLin3(A[..], old(B[..]), old(C[..]), old(D[..]), b, c, d)
  {
    for i := 0 to A.Length
      invariant forall k | 0 <= k < i :: A[k] == b * old(B[k]) + c * old(C[k]) + d * old(D[k])
      invariant forall k | i <= k < A.Length :: A[k] == old(A[k]) && B[k] == old(B[k]) && C[k] == old(C[k]) && D[k] == old(D[k])
    {
      A[i] := b * B[i] + c * C[i] + d * D[i];
      assert A[i] == b * old(B[i]) + c * old(C[i]) + d * old(D[i]);
    }
  }

  method DeepCopy(A: array<real>, B: array<real>)
    requires A.Length == B.Length
    modifies A
    ensures A[..] == old(B[..])
  {
    for i := 0 to A.Length
      invariant forall k | 0 <= k < i :: A[k] == old(B[k])
      invariant forall k | i <= k < A.Length :: B[k] == old(B[k])
    {
      A[i] := B[i];
    }
  }

  /** next += dt dtfact F(prev) on the interior. */
  method AdvanceSubstep(ops: Operators, m: nat, dt: real, dtfact: real, next: array<real>, prev: array<real>)
    requires next != prev && next.Length == prev.Length && ops.Valid(m, next.Length)
    modifies next
    ensures IsSubstep(m, next[..], old(next[..]), dt, dtfact, ops.F(prev[..]))
  {
    var rhs := ops.F(prev[..]);
    for i := 0 to m
      invariant forall k | 0 <= k < i :: next[k] == old(next[k]) + dt * dtfact * rhs[k]
      invariant forall k | i <= k < next.Length :: next[k] == old(next[k])
    {
      next[i] := next[i] + dt * dtfact * rhs[i];
    }
  }

  /** Fill the ghost cells; next and prev may be the same buffer. */
  method ApplyBoundaryConditions(ops: Operators, m: nat, next: array<real>, prev: array<real>, w: real)
    requires next.Length == prev.Length && ops.Valid(m, next.Length)
    modifies next
    ensures next[..] == ops.bc(old(next[..]), old(prev[..]), w)
    ensures SameInterior(m, next[..], old(next[..]))
  {
    var s := ops.bc(next[..], prev[..], w);
    assert forall k | 0 <= k < m :: s[k] == s[..m][k];
    for i := m to next.Length
      invariant next[..m] == old(next[..m]) && forall k | m <= k < i :: next[k] == s[k]
    {
      next[i] := s[i];
    }
    assert forall k | 0 <= k < m :: next[k] == next[..m][k];
    assert next[..] == s;
  }

  /** next := prev, then next := the solution of next = prev + dt dtfact G(next): nothing of its previous contents survives. */
  method AdvanceImplicitSubstep(ops: Operators, m: nat, dt: real, dtfact: real, next: array<real>, prev: array<real>)
    requires next != prev && next.Length == prev.Length && ops.Valid(m, next.Length)
    modifies next
    ensures IsSubstep(next.Length, next[..], prev[..], dt, dtfact, ops.G(next[..]))
  {
    DeepCopy(next, prev);
    var s := ops.solve(next[..], dt * dtfact);
    for i := 0 to next.Length
      invariant forall k | 0 <= k < i :: next[k] == s[k]
    {
      next[i] := s[i];
    }
    assert next[..] == s;
  }

  /** The third-order scheme in Butcher form: stages y1 and y2 and result z, on the
      interior cells and with their ghost cells filled as the code fills them. */
  ghost predicate TextbookRk3(ops: Operators, m: nat, dt: real, y: State, y1: State, y2: State, z: State) {
    && |y| == |y1| == |y2| == |z| && ops.Valid(m, |y|)
    && Filled(ops, m, y1, y, y, 1.0)
    && Filled(ops, m, y2, Lin(0.75, y, 0.25, y1), y1, 0.25)
    && Filled(ops, m, z, Lin(1.0 / 3.0, y, 2.0 / 3.0, y2), y2, 2.0 / 3.0)
    && forall i | 0 <= i < m :: Rk3At(dt, y[i], ops.F(y)[i], ops.F(y1)[i], ops.F(y2)[i], y1[i], y2[i], z[i])
  }

  ghost predicate Rk3At(dt: real, y: real, f0: real, f1: real, f2: real, y1: real, y2: real, z: real) {
    && y1 == y + dt * f0
    && y2 == y + dt * (0.25 * f0 + 0.25 * f1)
    && z == y + dt * (f0 / 6.0 + f1 / 6.0 + 2.0 * f2 / 3.0)
  }

  /** The scheme leaves nothing open: one step has one result. */
  lemma Rk3Determined(ops: Operators, m: nat, dt: real, y: State, y1: State, y2: State, z: State, x1: State, x2: State, x: State)
    requires TextbookRk3(ops, m, dt, y, y1, y2, z) && TextbookRk3(ops, m, dt, y, x1, x2, x)
    ensures y1 == x1 && y2 == x2 && z == x
  {
    SameStage(ops, m, y1, x1, y, y, 1.0);
    SameStage(ops, m, y2, x2, Lin(0.75, y, 0.25, y1), y1, 0.25);
    SameStage(ops, m, z, x, Lin(1.0 / 3.0, y, 2.0 / 3.0, y2), y2, 2.0 / 3.0);
  }

  lemma SameStage(ops: Operators, m: nat, s: State, t: State, g: State, prev: State, w: real)
    requires Filled(ops, m, s, g, prev, w) && Filled(ops, m, t, g, prev, w) && forall i | 0 <= i < m :: s[i] == t[i]
    ensures s == t
  {
    assert s[..m] == t[..m];
  }

  lemma Rk3Point(y: real, f0: real, f1: real, f2: real, dt: real, y1: real, y2: real, z: real)
    requires y1 == y + dt * 1.0 * f0
    requires y2 == (0.75 * y + 0.25 * y1) + dt * 0.25 * f1
    requires z == (1.0 / 3.0 * y + 2.0 / 3.0 * y2) + dt * (2.0 / 3.0) * f2
    ensures Rk3At(dt, y, f0, f1, f2, y1, y2, z)
  {
  }

  /** The buffer contents a third-order step goes through, in order, give the textbook scheme. */
  lemma Rk3Refines(ops: Operators, m: nat, dt: real, y: State, s1: State, y1: State, p: State, s2: State, y2: State,
                   q: State, s3: State, z: State)
    requires ops.Valid(m, |y|) && |y1| == |y| && |y2| == |y|
    requires IsSubstep(m, s1, y, dt, 1.0, ops.F(y)) && y1 == ops.bc(s1, y, 1.0)
    requires IsLin2(p, y, y1, 0.75, 0.25) && IsSubstep(m, s2, p, dt, 0.25, ops.F(y1)) && y2 == ops.bc(s2, y1, 0.25)
    requires IsLin2(q, y, y2, 1.0 / 3.0, 2.0 / 3.0) && IsSubstep(m, s3, q, dt, 2.0 / 3.0, ops.F(y2)) && z == ops.bc(s3, y2, 2.0 / 3.0)
    ensures TextbookRk3(ops, m, dt, y, y1, y2, z)
  {
    AdvanceFills(ops, m, y, dt * 1.0, ops.F(y), s1, y, 1.0, y1);
    AdvanceFills(ops, m, p, dt * 0.25, ops.F(y1), s2, y1, 0.25, y2);
    AdvanceFills(ops, m, q, dt * (2.0 / 3.0), ops.F(y2), s3, y2, 2.0 / 3.0, z);
    assert p == Lin(0.75, y, 0.25, y1) && q == Lin(1.0 / 3.0, y, 2.0 / 3.0, y2);
    hide Filled, Lin, Rk3At;
    forall i | 0 <= i < m ensures Rk3At(dt, y[i], ops.F(y)[i], ops.F(y1)[i], ops.F(y2)[i], y1[i], y2[i], z[i]) {
      SameAt(m, y1, s1, i);
      SameAt(m, y2, s2, i);
      SameAt(m, z, s3, i);
      Rk3Point(y[i], ops.F(y)[i], ops.F(y1)[i], ops.F(y2)[i], dt, y1[i], y2[i], z[i]);
    }
  }

  /** One step of the third-order stepper on its three buffers. */
  method Rk3(ops: Operators, m: nat, dt: real, state: array<real>, scratch: array<real>, staging: array<real>)
    requires state != scratch && state != staging && scratch != staging
    requires state.Length == scratch.Length == staging.Length && ops.Valid(m, state.Length)
    modifies state, scratch, staging
    ensures exists y1, y2 :: TextbookRk3(ops, m, dt, old(state[..]), y1, y2, state[..])
    ensures scratch[..] == state[..]
  {
    hide *;
    ghost var y := state[..];
    DeepCopy(scratch, state);
    AdvanceSubstep(ops, m, dt, 1.0, scratch, state);
    ghost var s1 := scratch[..];
    ApplyBoundaryConditions(ops, m, scratch, state, 1.0);
    ghost var y1 := scratch[..];
    LinOp2(staging, state, scratch, 0.75, 0.25);
    ghost var p := staging[..];
    AdvanceSubstep(ops, m, dt, 0.25, staging, scratch);
    ghost var s2 := staging[..];
    ApplyBoundaryConditions(ops, m, staging, scratch, 0.25);
    ghost var y2 := staging[..];
    LinOp2(state, state, staging, 1.0 / 3.0, 2.0 / 3.0);
    ghost var q := state[..];
    AdvanceSubstep(ops, m, dt, 2.0 / 3.0, state, staging);
    ghost var s3 := state[..];
    ApplyBoundaryConditions(ops, m, state, staging, 2.0 / 3.0);
    ghost var z := state[..];
    Rk3Refines(ops, m, dt, y, s1, y1, p, s2, y2, q, s3, z);
    DeepCopy(scratch, state);
    assert state[..] == z;
  }

  /** s is some solution of s = g + c G(s), ghost cells included. */
  ghost predicate Implicit(ops: Operators, s: State, g: State, c: real) {
    IsAdvanced(|s|, s, g, c, ops.G(s))
  }

  /** a x + b y + c z, on all cells. */
  ghost function Sum3(a: real, x: State, b: real, y: State, c: real, z: State): (s: State)
    requires |x| == |y| == |z|
    ensures IsLin3(s, x, y, z, a, b, c)
  {
    seq(|x|, i requires 0 <= i < |x| => a * x[i] + b * y[i] + c * z[i])
  }

  /** The two-stage IMEX scheme: implicit stages x1 and x2 of weight gamma (the source's lambda), the explicit stage e and
      the predictor h between them, and result z, on the interior cells and with ghost cells filled as the code fills them. */
  ghost predicate TextbookImex222(ops: Operators, m: nat, dt: real, gamma: real, y: State, x1: State, e: State, h: State, x2: State, z: State) {
    && |y| == |x1| == |e| == |h| == |x2| == |z| && ops.Valid(m, |y|)
    && Implicit(ops, x1, y, dt * gamma)
    && Filled(ops, m, e, y, x1, 1.0)
    && (var c := Lin(1.0, e, (1.0 - 2.0 * gamma) * dt, ops.G(x1)); h == ops.bc(c, c, 0.0))
    && Implicit(ops, x2, h, dt * gamma)
    && Filled(ops, m, z, Sum3(1.0, Lin(0.5, y, 0.5, e), dt / 2.0, ops.G(x1), dt / 2.0, ops.G(x2)), x2, 0.5)
    && Imex222Rates(m, dt, gamma, y, x1, e, x2, z, ops.F(x1), ops.F(x2), ops.G(x1), ops.G(x2))
  }

  /** Stages and result on the interior cells in terms of the four rates. */
  ghost predicate Imex222Rates(m: nat, dt: real, gamma: real, y: State, x1: State, e: State, x2: State, z: State,
                               f1: State, f2: State, g1: State, g2: State)
    requires m <= |y| == |x1| == |e| == |x2| == |z| == |f1| == |f2| == |g1| == |g2|
  {
    forall i | 0 <= i < m :: Imex222At(dt, gamma, y[i], x1[i], e[i], x2[i], z[i], f1[i], f2[i], g1[i], g2[i])
  }

  ghost predicate Imex222At(dt: real, gamma: real, y: real, x1: real, e: real, x2: real, z: real, f1: real, f2: real, g1: real, g2: real) {
    && x1 == y + gamma * dt * g1
    && e == y + dt * f1
    && x2 == y + dt * f1 + (1.0 - 2.0 * gamma) * dt * g1 + gamma * dt * g2
    && z == y + dt / 2.0 * (f1 + f2 + g1 + g2)
  }

  /** Given the solutions of the two implicit stages, the scheme leaves nothing open. */
  lemma Imex222Determined(ops: Operators, m: nat, dt: real, gamma: real, y: State, x1: State, e: State, h: State, x2: State, z: State,
                          e': State, h': State, z': State)
    requires TextbookImex222(ops, m, dt, gamma, y, x1, e, h, x2, z) && TextbookImex222(ops, m, dt, gamma, y, x1, e', h', x2, z')
    ensures e == e' && h == h' && z == z'
  {
    hide Lin, Sum3, Filled, Operators.Valid;
    SameStage(ops, m, e, e', y, x1, 1.0);
    SameStage(ops, m, z, z', Sum3(1.0, Lin(0.5, y, 0.5, e), dt / 2.0, ops.G(x1), dt / 2.0, ops.G(x2)), x2, 0.5);
  }

  /** One cell of the IMEX buffer algebra; g1 and g2 are the implicit increments gamma dt G. */
  lemma Imex222Point(y: real, f1: real, f2: real, g1: real, g2: real, dt: real, gamma: real,
                     x1: real, s1: real, d: real, a: real, s2: real, x2: real, b: real, z: real)
    requires gamma != 0.0
    requires x1 == y + dt * gamma * g1
    requires s1 == y + dt * 1.0 * f1
    requires d == 1.0 / gamma * x1 + -1.0 / gamma * y
    requires a == 0.5 * y + 0.5 * s1 + 0.5 * d
    requires s2 == 1.0 * s1 + (1.0 - 2.0 * gamma) * d
    requires x2 == s2 + dt * gamma * g2
    requires b == 1.0 * a + 1.0 / (2.0 * gamma) * x2 + -1.0 / (2.0 * gamma) * s2
    requires z == b + dt * 0.5 * f2
    ensures Imex222At(dt, gamma, y, x1, s1, x2, z, f1, f2, g1, g2)
  {
    ScaledDifference(gamma, x1, y, dt * g1);
    assert d == dt * g1;
    HalfScaledDifference(gamma, x2, s2, dt * g2);
    assert b == a + 0.5 * (dt * g2);
  }

  lemma ScaledDifference(gamma: real, x: real, y: real, g: real)
    requires gamma != 0.0 && x == y + gamma * g
    ensures 1.0 / gamma * x + -1.0 / gamma * y == g
  {
    var r := 1.0 / gamma;
    assert -1.0 / gamma == -r;
    assert r * x - r * y == (r * gamma) * g;
  }

  lemma HalfScaledDifference(gamma: real, x: real, y: real, g: real)
    requires gamma != 0.0 && x == y + gamma * g
    ensures 1.0 / (2.0 * gamma) * x + -1.0 / (2.0 * gamma) * y == 0.5 * g
  {
    var r := 1.0 / (2.0 * gamma);
    assert -1.0 / (2.0 * gamma) == -r;
    assert r * gamma == 0.5;
    assert r * x - r * y == (r * gamma) * g;
  }

  /** The buffer contents an IMEX step goes through, in order, give the textbook
      scheme. r is the combination meant to reset the staging buffer: it is
      overwritten by the second implicit solve and constrains nothing. */
  lemma Imex222Refines(ops: Operators, m: nat, dt: real, gamma: real, y: State, x1: State, s1: State, b1: State, d: State,
                       a: State, c: State, s2: State, x2: State, b: State, s3: State, z: State)
    requires gamma != 0.0 && ops.Valid(m, |y|) && |x1| == |y| && |x2| == |y|
    requires IsSubstep(|y|, x1, y, dt, gamma, ops.G(x1))
    requires IsSubstep(m, s1, y, dt, 1.0, ops.F(x1)) && b1 == ops.bc(s1, x1, 1.0)
    requires IsLin2(d, x1, y, 1.0 / gamma, -1.0 / gamma) && IsLin3(a, y, b1, d, 0.5, 0.5, 0.5)
    requires IsLin2(c, b1, d, 1.0, 1.0 - 2.0 * gamma) && s2 == ops.bc(c, c, 0.0)
    requires IsSubstep(|y|, x2, s2, dt, gamma, ops.G(x2))
    requires IsLin3(b, a, x2, s2, 1.0, 1.0 / (2.0 * gamma), -1.0 / (2.0 * gamma))
    requires IsSubstep(m, s3, b, dt, 0.5, ops.F(x2)) && z == ops.bc(s3, x2, 0.5)
    ensures TextbookImex222(ops, m, dt, gamma, y, x1, b1, s2, x2, z)
  {
    var g1, g2 := ops.G(x1), ops.G(x2);
    AdvanceFills(ops, m, y, dt * 1.0, ops.F(x1), s1, x1, 1.0, b1);
    AdvanceFills(ops, m, b, dt * 0.5, ops.F(x2), s3, x2, 0.5, z);
    assert SameInterior(m, s2, c);
    hide Operators.Valid, Filled, Lin, Sum3, Imex222Rates, SameInterior;
    assert Implicit(ops, x1, y, dt * gamma) && Implicit(ops, x2, s2, dt * gamma);
    Imex222Ghosts(dt, gamma, y, x1, g1, b1, d, a, c, s2, x2, g2, b);
    Imex222Interior(m, dt, gamma, y, x1, s1, b1, d, a, c, s2, x2, b, s3, z, ops.F(x1), ops.F(x2), g1, g2);
  }

  /** The same on the interior cells. */
  lemma Imex222Interior(m: nat, dt: real, gamma: real, y: State, x1: State, s1: State, e: State, d: State, a: State, c: State, h: State,
                        x2: State, b: State, s3: State, z: State, f1: State, f2: State, g1: State, g2: State)
    requires gamma != 0.0 && m <= |y| && IsAdvanced(|x1|, x1, y, dt * gamma, g1) && IsAdvanced(|x2|, x2, h, dt * gamma, g2)
    requires IsAdvanced(m, s1, y, dt * 1.0, f1) && IsAdvanced(m, s3, b, dt * 0.5, f2)
    requires IsLin2(d, x1, y, 1.0 / gamma, -1.0 / gamma) && IsLin3(a, y, e, d, 0.5, 0.5, 0.5) && IsLin2(c, e, d, 1.0, 1.0 - 2.0 * gamma)
    requires IsLin3(b, a, x2, h, 1.0, 1.0 / (2.0 * gamma), -1.0 / (2.0 * gamma))
    requires SameInterior(m, e, s1) && SameInterior(m, h, c) && SameInterior(m, z, s3)
    ensures Imex222Rates(m, dt, gamma, y, x1, e, x2, z, f1, f2, g1, g2)
  {
    assert |x1| == |y| && |e| == |y| && |x2| == |y| && |z| == |y| && |f1| == |y| && |f2| == |y| && |g1| == |y| && |g2| == |y|;
    forall i | 0 <= i < m ensures Imex222At(dt, gamma, y[i], x1[i], e[i], x2[i], z[i], f1[i], f2[i], g1[i], g2[i]) {
      hide *;
      Imex222Cell(m, dt, gamma, y, x1, s1, e, d, a, c, h, x2, b, s3, z, f1, f2, g1, g2, i);
    }
  }

  lemma Imex222Cell(m: nat, dt: real, gamma: real, y: State, x1: State, s1: State, e: State, d: State, a: State, c: State, h: State,
                    x2: State, b: State, s3: State, z: State, f1: State, f2: State, g1: State, g2: State, i: nat)
    requires gamma != 0.0 && i < m && m <= |y| && IsAdvanced(|x1|, x1, y, dt * gamma, g1) && IsAdvanced(|x2|, x2, h, dt * gamma, g2)
    requires IsAdvanced(m, s1, y, dt * 1.0, f1) && IsAdvanced(m, s3, b, dt * 0.5, f2)
    requires IsLin2(d, x1, y, 1.0 / gamma, -1.0 / gamma) && IsLin3(a, y, e, d, 0.5, 0.5, 0.5) && IsLin2(c, e, d, 1.0, 1.0 - 2.0 * gamma)
    requires IsLin3(b, a, x2, h, 1.0, 1.0 / (2.0 * gamma), -1.0 / (2.0 * gamma))
    requires SameInterior(m, e, s1) && SameInterior(m, h, c) && SameInterior(m, z, s3)
    requires |x1| == |e| == |x2| == |z| == |f1| == |f2| == |g1| == |g2| == |y|
    ensures Imex222At(dt, gamma, y[i], x1[i], e[i], x2[i], z[i], f1[i], f2[i], g1[i], g2[i])
  {
    SameAt(m, e, s1, i);
    SameAt(m, h, c, i);
    SameAt(m, z, s3, i);
    hide SameInterior, Imex222At;
    Imex222Point(y[i], f1[i], f2[i], g1[i], g2[i], dt, gamma, x1[i], e[i], d[i], a[i], h[i], x2[i], b[i], z[i]);
  }

  /** The combinations of the IMEX step on all cells, ghost cells included, in terms of the implicit rates. */
  lemma Imex222Ghosts(dt: real, gamma: real, y: State, x1: State, g1: State, e: State, d: State, a: State, c: State, h: State, x2: State, g2: State, b: State)
    requires gamma != 0.0 && IsAdvanced(|x1|, x1, y, dt * gamma, g1) && IsAdvanced(|x2|, x2, h, dt * gamma, g2) && |x1| == |x2|
    requires IsLin2(d, x1, y, 1.0 / gamma, -1.0 / gamma) && IsLin3(a, y, e, d, 0.5, 0.5, 0.5) && IsLin2(c, e, d, 1.0, 1.0 - 2.0 * gamma)
    requires IsLin3(b, a, x2, h, 1.0, 1.0 / (2.0 * gamma), -1.0 / (2.0 * gamma))
    ensures c == Lin(1.0, e, (1.0 - 2.0 * gamma) * dt, g1)
    ensures b == Sum3(1.0, Lin(0.5, y, 0.5, e), dt / 2.0, g1, dt / 2.0, g2)
  {
    forall i | 0 <= i < |x1|
      ensures c[i] == 1.0 * e[i] + (1.0 - 2.0 * gamma) * dt * g1[i]
      ensures b[i] == 1.0 * (0.5 * y[i] + 0.5 * e[i]) + dt / 2.0 * g1[i] + dt / 2.0 * g2[i]
    {
      GhostPoint(dt, gamma, y[i], x1[i], g1[i], e[i], d[i], a[i], c[i], h[i], x2[i], g2[i], b[i]);
    }
  }

  lemma GhostPoint(dt: real, gamma: real, y: real, x1: real, g1: real, e: real, d: real, a: real, c: real, h: real, x2: real, g2: real, b: real)
    requires gamma != 0.0 && x1 == y + dt * gamma * g1 && x2 == h + dt * gamma * g2
    requires d == 1.0 / gamma * x1 + -1.0 / gamma * y && a == 0.5 * y + 0.5 * e + 0.5 * d && c == 1.0 * e + (1.0 - 2.0 * gamma) * d
    requires b == 1.0 * a + 1.0 / (2.0 * gamma) * x2 + -1.0 / (2.0 * gamma) * h
    ensures c == 1.0 * e + (1.0 - 2.0 * gamma) * dt * g1
    ensures b == 1.0 * (0.5 * y + 0.5 * e) + dt / 2.0 * g1 + dt / 2.0 * g2
  {
    ScaledDifference(gamma, x1, y, dt * g1);
    HalfScaledDifference(gamma, x2, h, dt * g2);
  }

  /** One step of the IMEX stepper on its three buffers. */
  method Imex222(ops: Operators, m: nat, dt: real, gamma: real, state: array<real>, scratch: array<real>, staging: array<real>)
    requires gamma != 0.0
    requires state != scratch && state != staging && scratch != staging
    requires state.Length == scratch.Length == staging.Length && ops.Valid(m, state.Length)
    modifies state, scratch, staging
    ensures exists x1, e, h, x2 :: TextbookImex222(ops, m, dt, gamma, old(state[..]), x1, e, h, x2, state[..])
    ensures scratch[..] == state[..]
  {
    hide *;
    ghost var y := state[..];
    DeepCopy(scratch, state);
    DeepCopy(staging, state);
    AdvanceImplicitSubstep(ops, m, dt, gamma, staging, state);
    ghost var x1 := staging[..];
    AdvanceSubstep(ops, m, dt, 1.0, scratch, staging);
    ghost var s1 := scratch[..];
    ApplyBoundaryConditions(ops, m, scratch, staging, 1.0);
    ghost var b1 := scratch[..];
    LinOp2(staging, staging, state, 1.0 / gamma, -1.0 / gamma);
    ghost var d := staging[..];
    LinOp3(state, state, scratch, staging, 0.5, 0.5, 0.5);
    ghost var a := state[..];
    LinOp2(scratch, scratch, staging, 1.0, 1.0 - 2.0 * gamma);
    ghost var c := scratch[..];
    ApplyBoundaryConditions(ops, m, scratch, scratch, 0.0);
    ghost var s2 := scratch[..];
    LinOp2(staging, staging, scratch, 2.0 - gamma, -1.0);
    AdvanceImplicitSubstep(ops, m, dt, gamma, staging, scratch);
    ghost var x2 := staging[..];
    LinOp3(state, state, staging, scratch, 1.0, 1.0 / (2.0 * gamma), -1.0 / (2.0 * gamma));
    ghost var b := state[..];
    AdvanceSubstep(ops, m, dt, 0.5, state, staging);
    ghost var s3 := state[..];
    ApplyBoundaryConditions(ops, m, state, staging, 0.5);
    ghost var z := state[..];
    Imex222Refines(ops, m, dt, gamma, y, x1, s1, b1, d, a, c, s2, x2, b, s3, z);
    DeepCopy(scratch, state);
    assert state[..] == z;
  }

  /** The overwritten combination is not the first stage its comment names: with
      g = dt G(x1) and f = dt F(x1) it equals x1 = y + gamma g only when g = 2 y + f. */
  lemma ResetIsNotTheStage(y: real, f: real, g: real, gamma: real)
    ensures (2.0 - gamma) * g + -1.0 * (y + f + (1.0 - 2.0 * gamma) * g) == y + gamma * g <==> g == 2.0 * y + f
  {
  }
}
