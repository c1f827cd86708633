/** Euclidean division facts that the solver does not find by itself. */
module Arith {
  lemma MulAtLeast(k: int, c: int)
    requires k >= 1 && c > 0
    ensures k * c >= c
  {
    assert (k - 1) * c >= 0;
  }

  /** Quotient and remainder are determined by a == q * c + r. */
  lemma DivModUnique(a: int, q: int, r: int, c: int)
    requires c > 0 && 0 <= r < c && a == q * c + r
    ensures a / c == q && a % c == r
  {
    var q', r' := a / c, a % c;
    assert a == q' * c + r';
    assert (q - q') * c == r' - r;
    if q > q' {
      MulAtLeast(q - q', c);
    } else if q < q' {
      MulAtLeast(q' - q, c);
    }
  }
}
