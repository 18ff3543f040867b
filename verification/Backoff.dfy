/** The exponential backoff with 20% jitter that the queues share. */
module Backoff {
  import opened Arith

  /** Math.round: the nearest integer, ties upward. */
  function Round(x: real): int { (x + 0.5).Floor }

  /** `random` is Math.random's value. */
  function Jittered(delay: int, random: real): int {
    Round(delay as real * (0.8 + random * 0.4))
  }

  lemma RoundBounds(x: real, low: real, high: real)
    requires low <= x <= high
    ensures low - 0.5 <= Round(x) as real <= high + 0.5
  {
  }

  lemma ScaleBounds(e: real, k: real)
    requires 0.0 <= e && 0.8 <= k <= 1.2
    ensures e * 0.8 <= e * k <= e * 1.2
  {
  }

  lemma JitteredBounds(delay: int, random: real)
    requires delay >= 0 && 0.0 <= random < 1.0
    ensures 8 * delay - 5 <= 10 * Jittered(delay, random) <= 12 * delay + 5
  {
    var e, k := delay as real, 0.8 + random * 0.4;
    ScaleBounds(e, k);
    RoundBounds(e * k, e * 0.8, e * 1.2);
  }

  function Exponential(base: int, cap: int, attempt: nat): int
    requires attempt >= 1
  {
    Min(cap, base * Pow2(attempt - 1))
  }

  lemma ExponentialBounds(base: int, cap: int, attempt: nat)
    requires 0 <= base <= cap && attempt >= 1
    ensures base <= Exponential(base, cap, attempt) <= cap
  {
    Scale(1, Pow2(attempt - 1), base);
  }

  /** The first delay is the base, and each further one doubles it, up to the cap. */
  lemma ExponentialDoubles(base: int, cap: int, attempt: nat)
    requires 0 <= base <= cap && attempt >= 1
    ensures Exponential(base, cap, 1) == base
    ensures Exponential(base, cap, attempt + 1) == Min(cap, 2 * Exponential(base, cap, attempt))
  {
    assert Pow2(0) == 1 && Pow2(attempt) == 2 * Pow2(attempt - 1);
    assert base * Pow2(attempt) == 2 * (base * Pow2(attempt - 1));
  }
}
