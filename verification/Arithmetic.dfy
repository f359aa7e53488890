/** Integer facts behind index computations: Euclidean division and mixed radices. */
module Arithmetic {

  lemma MultipleIsLarge(d: int, n: int)
    requires n > 0
    ensures d >= 1 ==> d * n >= n
    ensures d <= -1 ==> d * n <= -n
  {
  }

  lemma ModUnique(x: int, n: int, q: int, r: int)
    requires n > 0 && x == q * n + r && 0 <= r < n
    ensures x % n == r
  {
    var d := x / n - q;
    assert d * n == r - x % n;
    MultipleIsLarge(d, n);
  }

  /** The mixed-radix number with low digit a in base n and high part b. */
  function Mixed(n: nat, a: nat, b: nat): nat { a + n * b }

  lemma MixedInjective(n: nat, a: nat, b: nat, a': nat, b': nat)
    requires a < n && a' < n && Mixed(n, a, b) == Mixed(n, a', b')
    ensures a == a' && b == b'
  {
    ModUnique(a + n * b, n, b, a);
    ModUnique(a' + n * b', n, b', a');
    var d := b - b';
    assert d * n == 0;
    MultipleIsLarge(d, n);
  }

  lemma MixedBound(n: nat, a: nat, b: nat, m: nat)
    requires a < n && b < m
    ensures Mixed(n, a, b) < n * m
  {
    var d := m - b;
    MultipleIsLarge(d, n);
    assert d * n == n * m - n * b;
  }

  /** The sum of the first n entries. */
  ghost function PrefixSum(s: seq<nat>, n: nat): nat
    requires n <= |s|
  {
    if n == 0 then 0 else PrefixSum(s, n - 1) + s[n - 1]
  }

  lemma {:induction false} PrefixMonotone(s: seq<nat>, m: nat, n: nat)
    requires m <= n <= |s|
    ensures PrefixSum(s, m) <= PrefixSum(s, n)
    ensures m < n ==> PrefixSum(s, m) + s[m] <= PrefixSum(s, n)
  {
    if m < n { PrefixMonotone(s, m, n - 1); }
  }

  /** Every number below the total lies in exactly one of the consecutive intervals. */
  lemma {:induction false} PrefixLocate(s: seq<nat>, n: nat, x: nat) returns (k: nat)
    requires n <= |s| && x < PrefixSum(s, n)
    ensures k < n && PrefixSum(s, k) <= x < PrefixSum(s, k) + s[k]
  {
    if x < PrefixSum(s, n - 1) { k := PrefixLocate(s, n - 1, x); } else { k := n - 1; }
  }

  lemma PrefixUnique(s: seq<nat>, j: nat, k: nat, x: nat)
    requires j < |s| && k < |s| && PrefixSum(s, j) <= x < PrefixSum(s, j) + s[j] && PrefixSum(s, k) <= x < PrefixSum(s, k) + s[k]
    ensures j == k
  {
    if j < k { PrefixMonotone(s, j, k); }
    if k < j { PrefixMonotone(s, k, j); }
  }
}
