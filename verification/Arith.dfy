/** Division and remainder by a divisor that is not a constant. */
module Arith {

  lemma DivMod(x: int, d: int)
    requires d > 0
    ensures x == x / d * d + x % d && 0 <= x % d < d
  {
  }

  lemma {:induction false} Grows(q: int, r: int, d: int)
    requires q < r && d > 0
    ensures q * d + d <= r * d
    decreases r - q
  {
    assert (q + 1) * d == q * d + d;
    if q + 1 < r { Grows(q + 1, r, d); }
  }

  lemma AtMostQuotient(q: int, r: int, q': int, r': int, d: int)
    requires 0 <= r < d && 0 <= r' < d && q * d + r == q' * d + r'
    ensures q >= q'
  {
    if q < q' { Grows(q, q', d); }
  }

  /** Quotient and remainder are determined by x == q * d + r with 0 <= r < d. */
  lemma Quotient(x: int, q: int, r: int, d: int)
    requires 0 <= r < d && x == q * d + r
    ensures x / d == q && x % d == r
  {
    DivMod(x, d);
    AtMostQuotient(q, r, x / d, x % d, d);
    AtMostQuotient(x / d, x % d, q, r, d);
  }

  /** Adding a multiple of the divisor. */
  lemma AddMultiple(x: int, o: int, d: int)
    requires d > 0
    ensures (x * d + o) % d == o % d && (x * d + o) / d == x + o / d
  {
    DivMod(o, d);
    assert (x + o / d) * d == x * d + o / d * d;
    Quotient(x * d + o, x + o / d, o % d, d);
  }

  /** The remainder does not change when a multiple `n` of the divisor is taken out first. */
  lemma ModMod(x: int, n: int, d: int, k: int)
    requires d > 0 && n > 0 && k * d == n
    ensures x % n % d == x % d
  {
    DivMod(x, n);
    assert x / n * k * d == x / n * n;
    AddMultiple(x / n * k, x % n, d);
  }

  lemma Product(a: nat, b: nat, d: nat)
    requires a <= b
    ensures a * d <= b * d
  {
  }

  lemma QuotientNat(a: nat, d: int)
    requires d > 0
    ensures a / d >= 0
  {
  }
}
