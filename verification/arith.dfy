/** Small facts of integer arithmetic that the solver does not find on its own
    (multiplication and division by a variable). */
module Arith {

  /** A positive multiple of p is at least p. */
  lemma MulAtLeast(d: nat, p: nat)
    requires d >= 1
    ensures d * p >= p
  {
    if d > 1 {
      MulAtLeast(d - 1, p);
      assert d * p == (d - 1) * p + p;
    }
  }

  /** Quotient and remainder are unique: x = q*p + m with 0 <= m < p fixes both. */
  lemma DivModUnique(x: int, p: int, q: int, m: int)
    requires p > 0 && 0 <= m < p && x == q * p + m
    ensures x / p == q && x % p == m
  {
    var q', m' := x / p, x % p;
    assert x == q' * p + m';
    if q > q' {
      assert (q - q') * p == m' - m;
      MulAtLeast(q - q', p);
    } else if q < q' {
      assert (q' - q) * p == m - m';
      MulAtLeast(q' - q, p);
    }
  }

  /** Multiplication by a natural number is monotone. */
  lemma MulMono(a: nat, b: nat, c: nat)
    requires a <= b
    ensures a * c <= b * c
  {
    if a < b {
      MulAtLeast(b - a, c);
      assert b * c == a * c + (b - a) * c;
    }
  }
}
