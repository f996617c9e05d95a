/** Small facts about remainders by a symbolic modulus. */
module Modular {

  lemma MulMonotone(n: int, a: int, b: int)
    requires n >= 0 && a < b
    ensures n * a + n <= n * b
  {
    assert n * b == n * a + n * (b - a);
    assert n * (b - a) == n * (b - a - 1) + n;
    assert n * (b - a - 1) >= 0;
  }

  /** Quotient and remainder are unique. */
  lemma DivModUnique(x: int, n: int, q: int, r: int)
    requires x == n * q + r && 0 <= r < n
    ensures x / n == q && x % n == r
  {
    var q' := x / n;
    assert x == n * q' + x % n;
    if q < q' {
      MulMonotone(n, q, q');
    } else if q' < q {
      MulMonotone(n, q', q);
    }
  }

  /** Numbers closer than n apart have different remainders. */
  lemma Apart(i: int, j: int, n: int)
    requires i < j < i + n
    ensures i % n != j % n
  {
    var a, b := i / n, j / n;
    assert i == n * a + i % n && j == n * b + j % n;
    if a < b {
      MulMonotone(n, a, b);
    } else if b < a {
      MulMonotone(n, b, a);
    }
  }

  lemma AddMod(i: int, d: int, n: int)
    requires n > 0
    ensures (i % n + d) % n == (i + d) % n
  {
    var q, s := i / n, i % n + d;
    assert i == n * q + i % n;
    var q', r := s / n, s % n;
    assert s == n * q' + r;
    assert n * (q + q') == n * q + n * q';
    DivModUnique(i + d, n, q + q', r);
  }
}
