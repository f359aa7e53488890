/** Linear stability of the IMEX scheme with the coded weight. */
module ImexStability {
  import Steppers

  /** On the linear test problem G(x) = mu x without explicit part, the scheme's
      amplification has the quadratic coefficient 1/2 - 2 gamma + gamma^2, which
      vanishes at gamma = 1 - 1/sqrt(2), the coded value. */
  lemma Imex222Stability(gamma: real, z: real, y: real, x1: real, x2: real, y': real)
    requires Step(gamma, z, y, x1, x2, y') && gamma * gamma - 2.0 * gamma + 0.5 == 0.0
    ensures y' * ((1.0 - gamma * z) * (1.0 - gamma * z)) == y * (1.0 + (1.0 - 2.0 * gamma) * z)
  {
    var w := 1.0 - gamma * z;
    assert x1 * w == y;
    assert x2 * w == y + (1.0 - 2.0 * gamma) * z * x1;
    assert x2 * (w * w) == y * w + (1.0 - 2.0 * gamma) * z * y;
    assert y' * (w * w) == y * (w * w) + z / 2.0 * (y * w + (y * w + (1.0 - 2.0 * gamma) * z * y));
  }

  /** The test problem is the scheme itself, on a cell with G(x) = mu x and no explicit rate. */
  lemma StepIsTheScheme(dt: real, gamma: real, mu: real, y: real, x1: real, e: real, x2: real, z: real)
    requires Steppers.Imex222At(dt, gamma, y, x1, e, x2, z, 0.0, 0.0, mu * x1, mu * x2)
    ensures Step(gamma, dt * mu, y, x1, x2, z)
  {
    assert dt * (mu * x1) == dt * mu * x1 && dt * (mu * x2) == dt * mu * x2;
    assert gamma * dt * (mu * x1) == gamma * (dt * mu) * x1 && gamma * dt * (mu * x2) == gamma * (dt * mu) * x2;
    assert (1.0 - 2.0 * gamma) * dt * (mu * x1) == (1.0 - 2.0 * gamma) * (dt * mu) * x1;
    assert dt / 2.0 * (mu * x1 + mu * x2) == dt * mu / 2.0 * (x1 + x2);
  }

  lemma PositiveProduct(a: real, b: real)
    requires a > 0.0 && b > 0.0
    ensures a * b > 0.0
  {
  }

  /** The coded weight 1 - 1/sqrt(2) is the smaller root of that polynomial. */
  predicate CodedWeight(gamma: real) { gamma * gamma - 2.0 * gamma + 0.5 == 0.0 && gamma < 1.0 }

  lemma WeightRange(gamma: real)
    requires CodedWeight(gamma)
    ensures 0.29 < gamma < 0.3
  {
    if gamma < 0.29 { PositiveProduct(0.29 - gamma, 1.71 - gamma); }
    if gamma > 0.3 { PositiveProduct(gamma - 0.3, 1.7 - gamma); }
  }

  /** In terms of the stiffness u = -z, the amplification is Num / Den. */
  function Num(gamma: real, u: real): real { 1.0 - (1.0 - 2.0 * gamma) * u }

  function Den(gamma: real, u: real): real { (1.0 + gamma * u) * (1.0 + gamma * u) }

  function NumTimes(gamma: real, u: real): real { Num(gamma, u) * u }

  /** Both as sums of u, t = gamma u, s = u u and tu = gamma u u. */
  lemma Parts(gamma: real, u: real) returns (t: real, s: real, tu: real)
    requires CodedWeight(gamma) && u > 0.0
    ensures s > 0.0 && 0.29 * u < t < 0.3 * u && 0.29 * s < tu < 0.3 * s
    ensures Den(gamma, u) == 1.0 + 2.0 * t + 2.0 * tu - 0.5 * s
    ensures Num(gamma, u) == 1.0 - u + 2.0 * t && NumTimes(gamma, u) == u - s + 2.0 * tu
  {
    WeightRange(gamma);
    t, s := gamma * u, u * u;
    tu := t * u;
    assert tu == gamma * s;
    PositiveProduct(u, u);
    PositiveProduct(gamma - 0.29, u);
    PositiveProduct(0.3 - gamma, u);
    PositiveProduct(gamma - 0.29, s);
    PositiveProduct(0.3 - gamma, s);
    Squared(gamma, u, t, s, tu);
  }

  lemma Squared(gamma: real, u: real, t: real, s: real, tu: real)
    requires gamma * gamma - 2.0 * gamma + 0.5 == 0.0 && t == gamma * u && s == u * u && tu == gamma * s
    ensures Den(gamma, u) == 1.0 + 2.0 * t + 2.0 * tu - 0.5 * s
  {
    assert t * t == (gamma * gamma) * s;
    assert gamma * gamma == 2.0 * gamma - 0.5;
    assert (2.0 * gamma - 0.5) * s == 2.0 * tu - 0.5 * s;
  }

  /** For every decaying mode the numerator lies strictly between plus and minus the denominator, and its
      product with the stiffness between plus and minus seven times the denominator. */
  lemma AmplificationBounds(gamma: real, u: real)
    requires CodedWeight(gamma) && u > 0.0
    ensures Den(gamma, u) > 0.0 && -Den(gamma, u) < Num(gamma, u) < Den(gamma, u)
    ensures -7.0 * Den(gamma, u) < NumTimes(gamma, u) < 7.0 * Den(gamma, u)
  {
    hide *;
    var t, s, tu := Parts(gamma, u);
  }

  function Abs(x: real): real { if x < 0.0 then -x else x }

  /** One step on the test problem: two implicit stages and the result. */
  predicate Step(gamma: real, z: real, y: real, x1: real, x2: real, y': real) {
    && x1 == y + gamma * z * x1
    && x2 == y + (1.0 - 2.0 * gamma) * z * x1 + gamma * z * x2
    && y' == y + z / 2.0 * (x1 + x2)
  }

  /** Every decaying mode is damped, and the stiffer the more: the amplification is below 1 and below 7 / |z|. */
  lemma Imex222Damps(gamma: real, z: real, y: real, x1: real, x2: real, y': real)
    requires Step(gamma, z, y, x1, x2, y') && CodedWeight(gamma) && z < 0.0 && y != 0.0
    ensures Abs(y') < Abs(y) && Abs(Times(z, y')) < 7.0 * Abs(y)
  {
    StepQuotient(gamma, z, y, x1, x2, y');
    AmplificationBounds(gamma, -z);
    hide *;
    QuotientBound(y', y, Den(gamma, -z), Num(gamma, -z), 1.0);
    QuotientBound(Times(z, y'), y, Den(gamma, -z), -NumTimes(gamma, -z), 7.0);
  }

  function Times(a: real, b: real): real { a * b }

  lemma StepQuotient(gamma: real, z: real, y: real, x1: real, x2: real, y': real)
    requires Step(gamma, z, y, x1, x2, y') && CodedWeight(gamma)
    ensures Times(y', Den(gamma, -z)) == Times(y, Num(gamma, -z)) && Times(Times(z, y'), Den(gamma, -z)) == Times(y, -NumTimes(gamma, -z))
  {
    Imex222Stability(gamma, z, y, x1, x2, y') by { hide Den, Num, NumTimes; }
    hide Step, CodedWeight;
    Rewritten(gamma, z, y, y');
  }

  lemma Rewritten(gamma: real, z: real, y: real, y': real)
    requires y' * ((1.0 - gamma * z) * (1.0 - gamma * z)) == y * (1.0 + (1.0 - 2.0 * gamma) * z)
    ensures Times(y', Den(gamma, -z)) == Times(y, Num(gamma, -z)) && Times(Times(z, y'), Den(gamma, -z)) == Times(y, -NumTimes(gamma, -z))
  {
    var w, n := Den(gamma, -z), Num(gamma, -z);
    assert gamma * -z == -(gamma * z);
    assert (1.0 - 2.0 * gamma) * -z == -((1.0 - 2.0 * gamma) * z);
    assert w == (1.0 - gamma * z) * (1.0 - gamma * z) && n == 1.0 + (1.0 - 2.0 * gamma) * z;
    hide Den, Num;
    Commute(z, y', w, y, n);
  }

  lemma Commute(z: real, y': real, w: real, y: real, n: real)
    requires y' * w == y * n
    ensures (z * y') * w == y * -(n * -z)
  {
    assert (z * y') * w == z * (y' * w);
    assert y * (n * z) == z * (y * n);
  }

  lemma QuotientBound(a: real, b: real, w: real, n: real, k: real)
    requires w > 0.0 && Times(a, w) == Times(b, n) && -k * w < n < k * w && b != 0.0
    ensures Abs(a) < k * Abs(b)
  {
    var x, y, m := Abs(a), Abs(b), Abs(n);
    assert x * w == y * m;
    PositiveProduct(y, k * w - m);
    assert y * (k * w) == (k * y) * w;
    if x > k * y { PositiveProduct(x - k * y, w); }
  }
}
