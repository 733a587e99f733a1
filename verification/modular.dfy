/** Facts about division with remainder that the verifier does not find by itself. */
module Modular {

  lemma MulAtLeast(d: int, n: nat)
    requires d >= 1
    ensures d * n >= n
  {
    assert d * n == (d - 1) * n + n;
    assert (d - 1) * n >= 0;
  }

  /** Quotient and remainder are the only ones of their kind. */
  lemma DivModUnique(x: int, n: int, q: int, r: int)
    requires n > 0 && 0 <= r < n && x == q * n + r
    ensures x / n == q && x % n == r
  {
    var d := q - x / n;
    assert x == (x / n) * n + x % n;
    assert d * n == q * n - (x / n) * n;
    if d >= 1 {
      MulAtLeast(d, n);
    }
  }

  lemma MultipleMod(k: int, n: int)
    requires n > 0
    ensures (k * n) % n == 0 && (k * n) / n == k
  {
    DivModUnique(k * n, n, k, 0);
  }

  /** Multiples of `n` may be added without changing the remainder. */
  lemma AddMultiple(x: int, y: int, n: int)
    requires n > 0 && y % n == 0
    ensures (x + y) % n == x % n
  {
    var a, b := x / n, y / n;
    assert x == a * n + x % n && y == b * n;
    assert (a + b) * n == a * n + b * n;
    DivModUnique(x + y, n, a + b, x % n);
  }

  lemma DividesTransitive(x: int, m: int, n: int)
    requires m > 0 && n > 0 && x % m == 0 && m % n == 0
    ensures x % n == 0
  {
    var a, b := x / m, m / n;
    assert x == a * m && m == b * n;
    assert a * (b * n) == (a * b) * n;
    DivModUnique(x, n, a * b, 0);
  }

  lemma MulSign(q: int, n: int)
    requires n > 0
    ensures q <= 0 ==> q * n <= 0
    ensures q >= 0 ==> q * n >= 0
  {
  }

  lemma QuotientPositive(x: int, n: int)
    requires x >= n > 0
    ensures x / n >= 1
  {
    assert x == (x / n) * n + x % n;
    MulSign(x / n, n);
  }

  lemma MulMono(a: int, b: int, n: nat)
    requires a <= b
    ensures a * n <= b * n
  {
    assert b * n - a * n == (b - a) * n;
  }

  /** Two multiples of `n` are at least `n` apart. */
  lemma NextMultiple(x: int, y: int, n: int)
    requires n > 0 && x % n == 0 && y % n == 0 && x < y
    ensures x + n <= y
  {
    var a, b := x / n, y / n;
    assert x == a * n && y == b * n;
    assert (a + 1) * n == a * n + n;
    if a >= b {
      MulMono(b, a, n);
    } else {
      MulMono(a + 1, b, n);
    }
  }
}
