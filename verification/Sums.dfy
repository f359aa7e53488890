/** Finite sums of reals over integer ranges and over sequences: the double
    and triple sums behind every conservation statement of the project. */
module Sums {

  /** f(lo) + ... + f(hi - 1); zero for an empty range. */
  ghost function Sum(f: int -> real, lo: int, hi: int): real
    decreases hi - lo
  {
    if hi <= lo then 0.0 else Sum(f, lo, hi - 1) + f(hi - 1)
  }

  /** The sum of row i of f. */
  ghost function RowSum(f: (int, int) -> real, i: int, lo: int, hi: int): real {
    Sum(j => f(i, j), lo, hi)
  }

  /** The sum of f over the square [lo, hi) x [lo, hi). */
  ghost function Sum2(f: (int, int) -> real, lo: int, hi: int): real {
    Sum(i => RowSum(f, i, lo, hi), lo, hi)
  }

  /** Layer i of a three-dimensional function. */
  ghost function Layer(f: (int, int, int) -> real, i: int): (int, int) -> real {
    (j, k) => f(i, j, k)
  }

  ghost function LayerSum(f: (int, int, int) -> real, i: int, lo: int, hi: int): real {
    Sum2(Layer(f, i), lo, hi)
  }

  /** The sum of f over a cube. */
  ghost function Sum3(f: (int, int, int) -> real, lo: int, hi: int): real {
    Sum(i => LayerSum(f, i, lo, hi), lo, hi)
  }

  lemma {:induction false} SumEq(f: int -> real, g: int -> real, lo: int, hi: int)
    requires forall i | lo <= i < hi :: f(i) == g(i)
    ensures Sum(f, lo, hi) == Sum(g, lo, hi)
    decreases hi - lo
  {
    if lo < hi { SumEq(f, g, lo, hi - 1); }
  }

  lemma {:induction false} SumLinear(h: int -> real, f: int -> real, g: int -> real, a: real, b: real, lo: int, hi: int)
    requires forall i | lo <= i < hi :: h(i) == a * f(i) + b * g(i)
    ensures Sum(h, lo, hi) == a * Sum(f, lo, hi) + b * Sum(g, lo, hi)
    decreases hi - lo
  {
    if lo < hi { SumLinear(h, f, g, a, b, lo, hi - 1); }
  }

  /** Neighbouring differences cancel: only the two ends survive. */
  lemma {:induction false} SumTelescopes(h: int -> real, g: int -> real, lo: int, hi: int)
    requires lo <= hi
    requires forall i | lo <= i < hi :: h(i) == g(i) - g(i + 1)
    ensures Sum(h, lo, hi) == g(lo) - g(hi)
    decreases hi - lo
  {
    if lo < hi { SumTelescopes(h, g, lo, hi - 1); }
  }

  /** Summing pairs (2i, 2i+1) over half the range sums the whole range. */
  lemma {:induction false} SumPairs(h: int -> real, f: int -> real, n: nat)
    requires forall i | 0 <= i < n :: h(i) == f(2 * i) + f(2 * i + 1)
    ensures Sum(h, 0, n) == Sum(f, 0, 2 * n)
  {
    if n > 0 { SumPairs(h, f, n - 1); }
  }

  lemma {:induction false} SumSplit(f: int -> real, lo: int, mid: int, hi: int)
    requires lo <= mid <= hi
    ensures Sum(f, lo, hi) == Sum(f, lo, mid) + Sum(f, mid, hi)
    decreases hi - lo
  {
    if mid < hi { SumSplit(f, lo, mid, hi - 1); }
  }

  /** Re-indexing by a constant shift. */
  lemma {:induction false} SumShift(f: int -> real, g: int -> real, lo: int, hi: int, s: int)
    requires forall i | lo <= i < hi :: f(i + s) == g(i)
    ensures Sum(f, lo + s, hi + s) == Sum(g, lo, hi)
    decreases hi - lo
  {
    if lo < hi { SumShift(f, g, lo, hi - 1, s); }
  }

  lemma Sum2Eq(f: (int, int) -> real, g: (int, int) -> real, lo: int, hi: int)
    requires forall i, j {:induction false} | lo <= i < hi && lo <= j < hi :: f(i, j) == g(i, j)
    ensures Sum2(f, lo, hi) == Sum2(g, lo, hi)
  {
    hide Sum;
    forall i | lo <= i < hi ensures RowSum(f, i, lo, hi) == RowSum(g, i, lo, hi) {
      SumEq(j => f(i, j), j => g(i, j), lo, hi);
    }
    SumEq(i => RowSum(f, i, lo, hi), i => RowSum(g, i, lo, hi), lo, hi);
  }

  lemma Sum2Linear(h: (int, int) -> real, f: (int, int) -> real, g: (int, int) -> real,
                   a: real, b: real, lo: int, hi: int)
    requires forall i, j | lo <= i < hi && lo <= j < hi :: h(i, j) == a * f(i, j) + b * g(i, j)
    ensures Sum2(h, lo, hi) == a * Sum2(f, lo, hi) + b * Sum2(g, lo, hi)
  {
    hide Sum;
    forall i | lo <= i < hi
      ensures RowSum(h, i, lo, hi) == a * RowSum(f, i, lo, hi) + b * RowSum(g, i, lo, hi)
    {
      SumLinear(j => h(i, j), j => f(i, j), j => g(i, j), a, b, lo, hi);
    }
    SumLinear(i => RowSum(h, i, lo, hi), i => RowSum(f, i, lo, hi), i => RowSum(g, i, lo, hi), a, b, lo, hi);
  }

  lemma Sum3Linear(h: (int, int, int) -> real, f: (int, int, int) -> real, g: (int, int, int) -> real,
                   a: real, b: real, lo: int, hi: int)
    requires forall i, j, k | lo <= i < hi && lo <= j < hi && lo <= k < hi ::
               h(i, j, k) == a * f(i, j, k) + b * g(i, j, k)
    ensures Sum3(h, lo, hi) == a * Sum3(f, lo, hi) + b * Sum3(g, lo, hi)
  {
    hide Sum;
    forall i | lo <= i < hi
      ensures LayerSum(h, i, lo, hi) == a * LayerSum(f, i, lo, hi) + b * LayerSum(g, i, lo, hi)
    {
      Sum2Linear(Layer(h, i), Layer(f, i), Layer(g, i), a, b, lo, hi);
    }
    SumLinear(i => LayerSum(h, i, lo, hi), i => LayerSum(f, i, lo, hi), i => LayerSum(g, i, lo, hi), a, b, lo, hi);
  }

  /** Net differences of g along each of the three axes. */
  ghost function DifferenceX(g: (int, int, int) -> real): (int, int, int) -> real {
    (a, b, c) => g(a, b, c) - g(a + 1, b, c)
  }

  ghost function DifferenceY(g: (int, int, int) -> real): (int, int, int) -> real {
    (a, b, c) => g(a, b, c) - g(a, b + 1, c)
  }

  ghost function DifferenceZ(g: (int, int, int) -> real): (int, int, int) -> real {
    (a, b, c) => g(a, b, c) - g(a, b, c + 1)
  }

  /** The layers of g normal to the second and third axis. */
  ghost function LayerY(g: (int, int, int) -> real, b: int): (int, int) -> real {
    (a, c) => g(a, b, c)
  }

  ghost function LayerZ(g: (int, int, int) -> real, c: int): (int, int) -> real {
    (a, b) => g(a, b, c)
  }

  /** Discrete Gauss theorem along each axis: summed over a cube, the
      differences of g leave only the two end layers. */
  lemma GaussX(g: (int, int, int) -> real, n: nat)
    ensures Sum3(DifferenceX(g), 0, n) == Sum2(Layer(g, 0), 0, n) - Sum2(Layer(g, n), 0, n)
  {
    hide Sum, Sum2, DifferenceX, Layer;
    var h := DifferenceX(g);
    forall a | 0 <= a < n ensures LayerSum(h, a, 0, n) == LayerSum(g, a, 0, n) - LayerSum(g, a + 1, 0, n) {
      LayersDiffer(g, a, n);
    }
    SumTelescopes(a => LayerSum(h, a, 0, n), a => LayerSum(g, a, 0, n), 0, n);
  }

  /** The step of GaussX: one layer of differences. */
  lemma LayersDiffer(g: (int, int, int) -> real, a: int, n: nat)
    ensures LayerSum(DifferenceX(g), a, 0, n) == LayerSum(g, a, 0, n) - LayerSum(g, a + 1, 0, n)
  {
    hide Sum, Sum2;
    Sum2Linear(Layer(DifferenceX(g), a), Layer(g, a), Layer(g, a + 1), 1.0, -1.0, 0, n);
  }

  lemma GaussY(g: (int, int, int) -> real, n: nat)
    ensures Sum3(DifferenceY(g), 0, n) == Sum2(LayerY(g, 0), 0, n) - Sum2(LayerY(g, n), 0, n)
  {
    hide Sum;
    var h, lo, hi := DifferenceY(g), LayerY(g, 0), LayerY(g, n);
    forall a | 0 <= a < n ensures LayerSum(h, a, 0, n) == RowSum(lo, a, 0, n) - RowSum(hi, a, 0, n) {
      var ga := Layer(g, a);
      RowTelescopes(Layer(h, a), ga, n);
      SumEq(c => ga(0, c), c => lo(a, c), 0, n);
      SumEq(c => ga(n, c), c => hi(a, c), 0, n);
    }
    SumLinear(a => LayerSum(h, a, 0, n), a => RowSum(lo, a, 0, n), a => RowSum(hi, a, 0, n), 1.0, -1.0, 0, n);
  }

  /** The two-dimensional step of GaussY. */
  lemma RowTelescopes(h: (int, int) -> real, g: (int, int) -> real, n: nat)
    requires forall b, c :: h(b, c) == g(b, c) - g(b + 1, c)
    ensures Sum2(h, 0, n) == RowSum(g, 0, 0, n) - RowSum(g, n, 0, n)
  {
    hide Sum;
    forall b | 0 <= b < n ensures RowSum(h, b, 0, n) == RowSum(g, b, 0, n) - RowSum(g, b + 1, 0, n) {
      SumLinear(c => h(b, c), c => g(b, c), c => g(b + 1, c), 1.0, -1.0, 0, n);
    }
    SumTelescopes(b => RowSum(h, b, 0, n), b => RowSum(g, b, 0, n), 0, n);
  }

  lemma GaussZ(g: (int, int, int) -> real, n: nat)
    ensures Sum3(DifferenceZ(g), 0, n) == Sum2(LayerZ(g, 0), 0, n) - Sum2(LayerZ(g, n), 0, n)
  {
    hide Sum;
    var h, lo, hi := DifferenceZ(g), LayerZ(g, 0), LayerZ(g, n);
    forall a | 0 <= a < n ensures LayerSum(h, a, 0, n) == RowSum(lo, a, 0, n) - RowSum(hi, a, 0, n) {
      ColumnTelescopes(Layer(h, a), Layer(g, a), n);
      SumLinear(b => lo(a, b) - hi(a, b), b => lo(a, b), b => hi(a, b), 1.0, -1.0, 0, n);
      SumEq(b => Layer(g, a)(b, 0) - Layer(g, a)(b, n), b => lo(a, b) - hi(a, b), 0, n);
    }
    SumLinear(a => LayerSum(h, a, 0, n), a => RowSum(lo, a, 0, n), a => RowSum(hi, a, 0, n), 1.0, -1.0, 0, n);
  }

  /** The two-dimensional step of GaussZ. */
  lemma ColumnTelescopes(h: (int, int) -> real, g: (int, int) -> real, n: nat)
    requires forall b, c :: h(b, c) == g(b, c) - g(b, c + 1)
    ensures Sum2(h, 0, n) == Sum(b => g(b, 0) - g(b, n), 0, n)
  {
    hide Sum;
    forall b | 0 <= b < n ensures RowSum(h, b, 0, n) == g(b, 0) - g(b, n) {
      SumTelescopes(c => h(b, c), c => g(b, c), 0, n);
    }
    SumEq(b => RowSum(h, b, 0, n), b => g(b, 0) - g(b, n), 0, n);
  }

  /** The 2 x 2 block of f at (a, b). */
  ghost function Block(f: (int, int) -> real, a: int, b: int): real {
    f(a, b) + f(a, b + 1) + f(a + 1, b) + f(a + 1, b + 1)
  }

  /** Summing the 2 x 2 blocks of a 2n x 2n square sums the square. */
  lemma SumBlocks(h: (int, int) -> real, f: (int, int) -> real, n: nat)
    requires forall a, b | 0 <= a < n && 0 <= b < n :: h(a, b) == Block(f, 2 * a, 2 * b)
    ensures Sum2(h, 0, n) == Sum2(f, 0, 2 * n)
  {
    hide Sum;
    forall a | 0 <= a < n
      ensures RowSum(h, a, 0, n) == RowSum(f, 2 * a, 0, 2 * n) + RowSum(f, 2 * a + 1, 0, 2 * n)
    {
      var pair := b => f(2 * a, b) + f(2 * a + 1, b);
      SumPairs(b => h(a, b), pair, n);
      SumLinear(pair, b => f(2 * a, b), b => f(2 * a + 1, b), 1.0, 1.0, 0, 2 * n);
    }
    SumPairs(a => RowSum(h, a, 0, n), a => RowSum(f, a, 0, 2 * n), n);
  }

  /** Row a' of a function of width 2n is the row of its left half plus the row of its right half. */
  lemma RowHalves(f: (int, int) -> real, left: int -> real, right: int -> real, a: int, n: nat)
    requires forall b {:trigger left(b)} | 0 <= b < n :: left(b) == f(a, b)
    requires forall b {:trigger right(b)} | 0 <= b < n :: right(b) == f(a, b + n)
    ensures RowSum(f, a, 0, 2 * n) == Sum(left, 0, n) + Sum(right, 0, n)
  {
    hide Sum;
    var row := b => f(a, b);
    SumSplit(row, 0, n, 2 * n);
    SumEq(left, row, 0, n);
    SumShift(row, right, 0, n, n);
  }

  /** n rows of width 2n, starting at row s, are two n x n squares. */
  lemma BandHalves(f: (int, int) -> real, left: (int, int) -> real, right: (int, int) -> real, s: int, n: nat)
    requires forall a, b {:trigger left(a, b)} | 0 <= a < n && 0 <= b < n :: left(a, b) == f(a + s, b)
    requires forall a, b {:trigger right(a, b)} | 0 <= a < n && 0 <= b < n :: right(a, b) == f(a + s, b + n)
    ensures Sum(a => RowSum(f, a, 0, 2 * n), s, n + s) == Sum2(left, 0, n) + Sum2(right, 0, n)
  {
    hide Sum;
    var row := a => RowSum(f, a, 0, 2 * n);
    var l, r := a => RowSum(left, a, 0, n), a => RowSum(right, a, 0, n);
    var both := a => l(a) + r(a);
    forall a {:trigger both(a)} | 0 <= a < n ensures row(a + s) == both(a) {
      RowHalves(f, b => left(a, b), b => right(a, b), a + s, n);
    }
    SumShift(row, both, 0, n, s);
    SumLinear(both, l, r, 1.0, 1.0, 0, n);
  }

  /** A 2n x 2n square is the sum of its four quarters. */
  lemma Sum2Quarters(f: (int, int) -> real, q0: (int, int) -> real, q1: (int, int) -> real,
                     q2: (int, int) -> real, q3: (int, int) -> real, n: nat)
    requires forall a, b {:trigger q0(a, b)} | 0 <= a < n && 0 <= b < n :: q0(a, b) == f(a, b)
    requires forall a, b {:trigger q1(a, b)} | 0 <= a < n && 0 <= b < n :: q1(a, b) == f(a + n, b)
    requires forall a, b {:trigger q2(a, b)} | 0 <= a < n && 0 <= b < n :: q2(a, b) == f(a, b + n)
    requires forall a, b {:trigger q3(a, b)} | 0 <= a < n && 0 <= b < n :: q3(a, b) == f(a + n, b + n)
    ensures Sum2(f, 0, 2 * n) == Sum2(q0, 0, n) + Sum2(q1, 0, n) + Sum2(q2, 0, n) + Sum2(q3, 0, n)
  {
    hide Sum;
    SumSplit(a => RowSum(f, a, 0, 2 * n), 0, n, 2 * n);
    BandHalves(f, q0, q2, 0, n);
    BandHalves(f, q1, q3, n, n);
  }

  /** The sum of g over the elements of a sequence. */
  ghost function SumSeq<T(!new)>(g: T -> real, s: seq<T>): real {
    if s == [] then 0.0 else g(s[0]) + SumSeq(g, s[1..])
  }

  lemma {:induction false} SumSeqAppend<T(!new)>(g: T -> real, s: seq<T>, t: seq<T>)
    ensures SumSeq(g, s + t) == SumSeq(g, s) + SumSeq(g, t)
  {
    if s == [] {
      assert s + t == t;
    } else {
      assert (s + t)[1..] == s[1..] + t;
      SumSeqAppend(g, s[1..], t);
    }
  }

  /** The sum does not depend on the order of the elements. */
  lemma {:induction false} SumSeqPermutation<T(!new)>(g: T -> real, s: seq<T>, t: seq<T>)
    requires multiset(s) == multiset(t)
    ensures SumSeq(g, s) == SumSeq(g, t)
  {
    if s == [] {
      assert |t| == |multiset(t)| == 0;
    } else {
      assert s[0] in multiset(t);
      var k :| 0 <= k < |t| && t[k] == s[0];
      var rest := t[..k] + t[k + 1..];
      assert s == [s[0]] + s[1..];
      assert t == t[..k] + ([t[k]] + t[k + 1..]);
      assert multiset(rest) == multiset(t) - multiset{s[0]};
      SumSeqPermutation(g, s[1..], rest);
      SumSeqAppend(g, t[..k], [t[k]] + t[k + 1..]);
      SumSeqAppend(g, t[..k], t[k + 1..]);
    }
  }
}
