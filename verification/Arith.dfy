/** Integer arithmetic the other modules share, the nonlinear part in small steps. */
module Arith {
  function Min(a: int, b: int): int { if a < b then a else b }

  function Max(a: int, b: int): int { if a < b then b else a }

  function Pow2(n: nat): (p: nat)
    ensures p >= 1
  {
    if n == 0 then 1 else 2 * Pow2(n - 1)
  }

  lemma {:induction false} Pow2Grows(a: nat, b: nat)
    requires a <= b
    ensures Pow2(a) <= Pow2(b)
  {
    if a < b {
      Pow2Grows(a, b - 1);
    }
  }

  lemma {:induction false} Pow2Add(a: nat, b: nat)
    ensures Pow2(a + b) == Pow2(a) * Pow2(b)
  {
    if a > 0 {
      Pow2Add(a - 1, b);
      Regroup(2, Pow2(a - 1), 0, Pow2(b));
    }
  }

  lemma Pow2Eight()
    ensures Pow2(8) == 256
  {
  }

  lemma Distribute(a: int, b: int, d: int)
    ensures (a + b) * d == a * d + b * d
  {
  }

  lemma Regroup(q: int, k: int, c: int, m: int)
    ensures (q * k + c) * m == q * (k * m) + c * m
  {
    assert (q * k + c) * m == q * k * m + c * m;
    assert q * k * m == q * (k * m);
  }

  lemma Scale(x: int, y: int, m: int)
    requires m >= 0 && x <= y
    ensures x * m <= y * m
  {
  }

  lemma NonNegativeProduct(x: int, y: int)
    requires x >= 0 && y >= 0
    ensures x * y >= 0
  {
  }

  lemma Half(v: int, high: int, p: int, low: int)
    requires v == high * (2 * p) + low
    ensures v / 2 == high * p + low / 2 && v % 2 == low % 2
  {
    assert high * (2 * p) == 2 * (high * p);
  }

  lemma DivMod(x: int, m: int)
    requires m >= 1
    ensures x == x / m * m + x % m && 0 <= x % m < m
  {
  }

  /** A quotient and a small enough remainder are the quotient and the remainder. */
  lemma UniqueRemainder(x: int, q: int, m: int, r: int)
    requires m >= 1 && x == q * m + r && 0 <= r < m
    ensures x % m == r && x / m == q
  {
    DivMod(x, m);
    NoMultipleBetween(x / m - q, m, r - x % m);
    Distribute(x / m, -q, m);
  }

  lemma NoMultipleBetween(k: int, m: int, gap: int)
    requires m >= 1 && -m < gap < m
    ensures k * m == gap ==> k == 0
  {
    assert k >= 1 ==> k * m >= m;
    assert k <= -1 ==> k * m <= -m;
  }

  /** Division by a positive number, rounding down. */
  function Quotient(x: nat, m: nat): (q: nat)
    requires m >= 1
  {
    QuotientIsNatural(x, m);
    x / m
  }

  lemma QuotientIsNatural(x: nat, m: nat)
    requires m >= 1
    ensures x / m >= 0
  {
    DivMod(x, m);
  }

  lemma QuotientOfMultiple(q: int, d: int)
    requires d >= 1
    ensures q * d / d == q && q * d % d == 0
  {
    UniqueRemainder(q * d, q, d, 0);
  }
}
