/**
 Division and multiplication of positive double-precision numbers, in integers: each result is the
 nearest number with 53 significant bits, ties to even. Subnormals and overflow are out of range here.
 */
module Doubles {
  import opened Arith

  /** 2 ^ 52: a normal significand is from here to twice this. */
  const SIGNIFICAND := 0x10_0000_0000_0000

  /** The number m / 2 ^ k. */
  datatype Double = Double(m: nat, k: nat)

  predicate Within(x: int, bound: int) {
    -bound <= x <= bound
  }

  function HalfEven(n: nat, d: nat): (q: nat)
    requires d > 0
    ensures Within(2 * (q * d - n), d)
  {
    var q, r := n / d, n % d;
    assert n == q * d + r;
    if 2 * r < d || (2 * r == d && q % 2 == 0) then q
    else Distribute(q, 1, d); q + 1
  }

  /** By how many bits n / d is scaled up to have 53 of them before the point. */
  function Shift(n: nat, d: nat): (k: nat)
    requires n > 0 && d > 0
    ensures n * Pow2(k) >= SIGNIFICAND * d
    ensures n < 2 * SIGNIFICAND * d ==> n * Pow2(k) < 2 * SIGNIFICAND * d
    decreases SIGNIFICAND * d - n
  {
    if n >= SIGNIFICAND * d then 0
    else
      var k := Shift(2 * n, d);
      Regroup(n, 2, 0, Pow2(k));
      1 + k
  }

  /** The shift is the one that leaves 53 bits. */
  lemma {:induction false} ShiftIs(n: nat, d: nat, k: nat, scaled: nat)
    requires n > 0 && d > 0 && scaled == n * Pow2(k) && SIGNIFICAND * d <= scaled < 2 * SIGNIFICAND * d
    ensures Shift(n, d) == k
    decreases k
  {
    if k > 0 {
      Regroup(n, 2, 0, Pow2(k - 1));
      Scale(1, Pow2(k - 1), n);
      ShiftIs(2 * n, d, k - 1, scaled);
    }
  }

  /** The double nearest to n / d. */
  function Nearest(n: nat, d: nat): Double
    requires d > 0
  {
    if n == 0 then Double(0, 0) else Double(HalfEven(n * Pow2(Shift(n, d)), d), Shift(n, d))
  }

  /** Math.round: the nearest integer, ties up. */
  function Round(x: Double): nat {
    (2 * x.m + Pow2(x.k)) / (2 * Pow2(x.k))
  }

  /** What is off by less than one part of 2 ^ 53 of itself. */
  lemma NearestIsNear(n: nat, d: nat)
    requires n > 0 && d > 0
    ensures var x := Nearest(n, d);
      Within(2 * (x.m * d - n * Pow2(x.k)), d) && n * Pow2(x.k) >= SIGNIFICAND * d
  {
  }

  lemma Cancel(a: int, b: int, c: int)
    requires c > 0 && a * c >= b * c
    ensures a >= b
  {
    if a < b {
      Scale(a + 1, b, c);
      Distribute(a, 1, c);
    }
  }

  /** A quotient of at most 1 is scaled up by at least 52 bits, to no more than the scale. */
  lemma UnitQuotient(n: nat, d: nat)
    requires 0 < n <= d
    ensures Pow2(Nearest(n, d).k) >= SIGNIFICAND && 0 < Nearest(n, d).m <= Pow2(Nearest(n, d).k)
  {
    var x := Nearest(n, d);
    var j := Pow2(x.k);
    NearestIsNear(n, d);
    Scale(n, d, j);
    Cancel(j, SIGNIFICAND, d);
    if x.m > j {
      Scale(j + 1, x.m, d);
      Distribute(j, 1, d);
    }
  }

  /** A hundred times such a number is scaled up by at least 45 bits. */
  lemma HundredfoldQuotient(m: nat, j: nat)
    requires 0 < m <= j
    ensures 100 * Pow2(Nearest(100 * m, j).k) >= SIGNIFICAND
  {
    var k := Pow2(Nearest(100 * m, j).k);
    NearestIsNear(100 * m, j);
    Scale(100 * m, 100 * j, k);
    Regroup(j, 100, 0, k);
    assert (100 * k) * j == j * (100 * k);
    Cancel(100 * k, SIGNIFICAND, j);
  }

  /** Two roundings, of the quotient and of a hundred times it, miss by less than 1 / d. */
  lemma PercentIsNear(e: nat, d: nat)
    requires 0 < e <= d <= 0x4_0000_0000
    ensures var x := Nearest(e, d);
      var y := Nearest(100 * x.m, Pow2(x.k));
      Within(y.m * d - 100 * e * Pow2(y.k), Pow2(y.k) - 1)
  {
    var x := Nearest(e, d);
    var j := Pow2(x.k);
    NearestIsNear(e, d);
    UnitQuotient(e, d);
    var y := Nearest(100 * x.m, j);
    NearestIsNear(100 * x.m, j);
    HundredfoldQuotient(x.m, j);
    ErrorsAdd(e, d, x.m, j, y.m, Pow2(y.k));
  }

  lemma ErrorIdentity(e: int, d: int, m: int, j: int, m': int, k: int)
    ensures 2 * j * (m' * d - 100 * e * k) == d * (2 * (m' * j - 100 * m * k)) + 100 * k * (2 * (m * d - e * j))
  {
  }

  lemma Bounded(x: int, b: int, c: int)
    requires c >= 0 && Within(x, b)
    ensures Within(c * x, c * b)
  {
    Scale(x, b, c);
    Scale(-b, x, c);
  }

  lemma SumIsSmall(d: int, j: int, k: int)
    requires d > 0 && 100 * d < j && d < k
    ensures d * j + 100 * k * d < 2 * j * k
  {
    Scale(d + 1, k, j);
    Distribute(d, 1, j);
    Scale(100 * d + 1, j, k);
    Distribute(100 * d, 1, k);
    assert 100 * k * d == 100 * d * k && 2 * j * k == j * k + k * j;
  }

  lemma ErrorsAdd(e: int, d: int, m: int, j: int, m': int, k: int)
    requires d > 0 && Within(2 * (m * d - e * j), d) && Within(2 * (m' * j - 100 * m * k), j)
    requires 100 * d < j && d < k
    ensures Within(m' * d - 100 * e * k, k - 1)
  {
    ErrorIdentity(e, d, m, j, m', k);
    Bounded(2 * (m' * j - 100 * m * k), j, d);
    Bounded(2 * (m * d - e * j), d, 100 * k);
    SumIsSmall(d, j, k);
    SmallFactor(m' * d - 100 * e * k, j, k, d * j + 100 * k * d);
  }

  lemma SmallFactor(t: int, j: int, k: int, bound: int)
    requires j > 0 && k > 0 && Within(2 * j * t, bound) && bound < 2 * j * k
    ensures Within(t, k - 1)
  {
    if t >= k {
      Scale(k, t, 2 * j);
    } else if t <= -k {
      Scale(k, -t, 2 * j);
    }
  }

  /**
   Rounding y, which is n / (2 * p) - 1 / 2 but for less than 1 / (2 * p), gives n / (2 * p) rounded
   down, or one less: that exactly when 2 * p divides n and y is below.
   */
  lemma RoundOfNear(y: Double, n: nat, p: nat)
    requires 0 < p <= n && Within(y.m * (2 * p) - (n - p) * Pow2(y.k), Pow2(y.k) - 1)
    ensures Round(y) ==
      n / (2 * p) - if n % (2 * p) == 0 && y.m * (2 * p) < (n - p) * Pow2(y.k) then 1 else 0
  {
    var k, d := Pow2(y.k), 2 * p;
    var e, s, r := y.m * d - (n - p) * k, n / d, n % d;
    DivMod(n, d);
    Numerator(y.m, k, n, p);
    QuotientNear(2 * y.m + k, k, d, p, s, r, e);
  }

  lemma Numerator(m: int, k: int, n: int, p: int)
    ensures (2 * m + k) * p == k * n + (m * (2 * p) - (n - p) * k)
  {
  }

  lemma QuotientNear(a: int, k: int, d: int, p: int, s: int, r: int, e: int)
    requires k > 0 && p > 0 && d == 2 * p && 0 <= r < d && Within(e, k - 1)
    requires a * p == k * (s * d + r) + e
    ensures a / (2 * k) == if r == 0 && e < 0 then s - 1 else s
  {
    var t := if r == 0 && e < 0 then s - 1 else s;
    assert (2 * k * t) * p == k * (t * d);
    assert (2 * k * (t + 1)) * p == k * (t * d) + k * d;
    assert k * (s * d + r) == k * (s * d) + k * r;
    assert k * ((s - 1) * d) == k * (s * d) - k * d;
    if r > 0 {
      Scale(1, r, k);
    }
    Scale(r + 1, d, k);
    Distribute(r, 1, k);
    Scale(1, d, k);
    assert (2 * k * t) * p <= a * p < (2 * k * (t + 1)) * p;
    Cancel(a, 2 * k * t, p);
    Below(a, 2 * k * (t + 1), p);
    UniqueRemainder(a, t, 2 * k, a - t * (2 * k));
  }

  lemma Below(a: int, b: int, c: int)
    requires c > 0 && a * c < b * c
    ensures a < b
  {
    if a >= b {
      Scale(b, a, c);
    }
  }
}
