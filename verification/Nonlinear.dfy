/** Facts about products and quotients of variables. */
module Nonlinear {
  lemma MulMono(a: int, b: int, c: nat)
    requires a <= b
    ensures a * c <= b * c
  {}

  lemma MulBound(a: nat, b: nat, m: nat)
    requires a <= m && b <= m
    ensures 0 <= a * b <= m * m
  {
    MulMono(a, m, b);
    MulMono(b, m, m);
  }

  lemma Distribute(m: int, low: int, k: int, high: int)
    ensures m * (low + k * high) == m * low + (m * k) * high
  {
    assert m * (low + k * high) == m * low + m * (k * high);
    assert m * (k * high) == (m * k) * high;
  }

  lemma Commute(a: int, b: int)
    ensures a * b == b * a
  {}

  lemma Split(m: int, a: int, b: int)
    ensures m * (a + b) == m * a + m * b
  {}

  lemma Reorder(a: int, b: int, c: int)
    ensures a * (b * c) == (b * a) * c == b * (a * c)
  {}

  // The quotient and remainder of n by d are unique.
  lemma DivUnique(n: int, d: nat, k: int, r: int)
    requires d > 0 && n == k * d + r && 0 <= r < d
    ensures n / d == k && n % d == r
  {
    var k' := n / d;
    assert n == k' * d + n % d;
    assert (k' + 1) * d == k' * d + d;
    assert (k + 1) * d == k * d + d;
    if k' < k {
      MulMono(k' + 1, k, d);
    } else if k < k' {
      MulMono(k + 1, k', d);
    }
  }

  lemma Small(v: nat, m: nat)
    requires v < m
    ensures v / m == 0 && v % m == v
  {
    DivUnique(v, m, 0, v);
  }

  lemma MulLess(a: nat, b: nat, c: nat)
    requires a < b && c > 0
    ensures a * c < b * c
  {
    MulMono(a + 1, b, c);
  }

  // Counting up from start modulo n reaches every residue within n steps.
  lemma Rotation(b: nat, start: nat, n: nat) returns (k: nat)
    requires b < n
    ensures k < n && (k + start) % n == b
  {
    var r := start % n;
    var q := start / n;
    assert start == q * n + r;
    if b >= r {
      k := b - r;
      DivUnique(k + start, n, q, b);
    } else {
      k := b - r + n;
      assert (q + 1) * n == q * n + n;
      DivUnique(k + start, n, q + 1, b);
    }
  }
}
