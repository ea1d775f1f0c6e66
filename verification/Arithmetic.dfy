/** Products, quotients and remainders, one nonlinear step at a time. */
module Arithmetic {

  lemma Spread(a: int, b: int, n: nat)
    ensures (a - b) * n == a * n - b * n
  {
  }

  lemma AtLeastOne(a: int, n: nat)
    requires a >= 1
    ensures a * n >= n
  {
  }

  lemma Scale(a: nat, b: nat, n: nat)
    requires a <= b
    ensures a * n <= b * n
  {
  }

  lemma OneMore(a: int, n: nat)
    ensures (a + 1) * n == a * n + n
  {
  }

  /** Quotient and remainder are determined by what they add up to. */
  lemma DivModUnique(x: nat, d: nat, m: nat, n: nat)
    requires n > 0 && x == d * n + m && m < n
    ensures x / n == d && x % n == m
  {
    var e, r := x / n, x % n;
    assert x == e * n + r;
    Spread(d, e, n);
    Spread(e, d, n);
    if e < d {
      AtLeastOne(d - e, n);
    } else if e > d {
      AtLeastOne(e - d, n);
    }
  }

  /** Rounding up covers. */
  lemma CeilingCovers(x: nat, n: nat)
    requires 0 < n
    ensures x <= (x + n - 1) / n * n
  {
    assert x + n - 1 == (x + n - 1) / n * n + (x + n - 1) % n;
  }
}
