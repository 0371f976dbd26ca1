/** Products and quotients, in steps small enough for the solver. */
module Arithmetic {
  function Count(b: bool): nat { if b then 1 else 0 }

  lemma MulMonotone(a: int, b: int, c: int)
    requires a <= b && c >= 0
    ensures a * c <= b * c
  {
    assert b * c - a * c == (b - a) * c;
  }

  lemma MulStep(n: int, c: int)
    ensures (n + 1) * c == n * c + c
  {
  }

  lemma DivModUnique(x: int, c: int, q: int, r: int)
    requires c > 0 && x == q * c + r && 0 <= r < c
    ensures x / c == q && x % c == r
  {
    var p := x / c;
    assert p * c <= x < p * c + c;
    if p < q {
      MulStep(p, c);
      MulMonotone(p + 1, q, c);
    } else if q < p {
      MulStep(q, c);
      MulMonotone(q + 1, p, c);
    }
  }

  /** Division after taking one divisor away. */
  lemma DivModShift(x: int, c: int)
    requires c > 0
    ensures (x - c) % c == x % c && (x - c) / c == x / c - 1
  {
    var q, r := x / c, x % c;
    assert x - c == (q - 1) * c + r;
    DivModUnique(x - c, c, q - 1, r);
  }
}
