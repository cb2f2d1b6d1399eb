/** Facts about multiplication and division that the solver does not find by itself. */
module Arithmetic {

  function Min(a: int, b: int): int { if a <= b then a else b }

  function Max(a: int, b: int): int { if a >= b then a else b }

  lemma MulMonotonic(x: int, y: int, b: int)
    requires x <= y && b >= 0
    ensures x * b <= y * b
  {
  }

  lemma Distribute(x: int, y: int, b: int)
    ensures (x + y) * b == x * b + y * b
  {
  }

  lemma MulAssociative(x: int, y: int, z: int)
    ensures (x * y) * z == x * (y * z)
  {
  }

  lemma DivModDefinition(a: int, b: int)
    requires b > 0
    ensures a == b * (a / b) + a % b
  {
  }

  /** Quotient and remainder are unique. */
  lemma DivModUnique(a: int, b: int, q: int, r: int)
    requires b > 0 && 0 <= r < b && a == q * b + r
    ensures a / b == q && a % b == r
  {
    var q', r' := a / b, a % b;
    assert a == q' * b + r';
    assert (q' - q) * b == r - r';
    if q' - q >= 1 {
      MulMonotonic(1, q' - q, b);
    } else if q' - q <= -1 {
      MulMonotonic(q' - q, -1, b);
    }
  }

  lemma QuotientAtLeast(a: int, b: int, q: int)
    requires b > 0 && a >= q * b
    ensures a / b >= q
  {
    var q' := a / b;
    assert a == q' * b + a % b;
    if q' + 1 <= q {
      MulMonotonic(q' + 1, q, b);
    }
  }
}
