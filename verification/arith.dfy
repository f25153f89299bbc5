/** Small facts about multiplication and Euclidean division that the solver
    does not find on its own. */
module Arith {

  lemma MulLe(a: int, b: int, c: int)
    requires a <= b && 0 <= c
    ensures a * c <= b * c
  {
    assert b * c - a * c == (b - a) * c;
  }

  lemma MulLtCancel(a: int, b: int, c: int)
    requires 0 < c && a * c < b * c
    ensures a < b
  {
    assert (b - a) * c == b * c - a * c;
  }

  lemma MulSucc(k: int, c: int)
    ensures (k + 1) * c == k * c + c
  {
  }

  /** Division is determined by quotient and remainder. */
  lemma DivUnique(x: int, d: int, q: int, r: int)
    requires d > 0 && x == q * d + r && 0 <= r < d
    ensures x / d == q
  {
    var q' := x / d;
    assert x == q' * d + x % d;
    if q' < q {
      MulLe(q' + 1, q, d);
      MulSucc(q', d);
    } else if q < q' {
      MulLe(q + 1, q', d);
      MulSucc(q, d);
    }
  }

  /** Quotient and remainder together. */
  lemma DivModUnique(x: int, d: int, q: int, r: int)
    requires d > 0 && x == q * d + r && 0 <= r < d
    ensures x / d == q && x % d == r
  {
    DivUnique(x, d, q, r);
  }

  lemma DivStep(x: nat, d: nat)
    requires d > 0
    ensures (x + d) / d == x / d + 1
  {
    var q := x / d;
    assert x == q * d + x % d;
    MulSucc(q, d);
    DivUnique(x + d, d, q + 1, x % d);
  }
}
