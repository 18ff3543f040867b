/**
 The weighted match percentage (backend/src/scoring/math.ts), in the double-precision arithmetic the
 code runs in, against the exact percentage.
 */
module ScoreMath {
  import opened Arith
  import opened Doubles

  datatype Weight = Must | Nice
  datatype Verdict = Strong | Partial | Missing
  datatype Scorable = Scorable(weight: Weight, verdict: Verdict)

  function Factor(w: Weight): nat {
    match w case Must => 2 case Nice => 1
  }

  /** Credit in half points. Sums of halves are exact in doubles, far beyond the length of any array. */
  function HalfPoints(v: Verdict): nat {
    match v case Strong => 2 case Partial => 1 case Missing => 0
  }

  function Possible(es: seq<Scorable>): nat {
    if es == [] then 0 else Factor(es[0].weight) + Possible(es[1..])
  }

  function Earned(es: seq<Scorable>): nat {
    if es == [] then 0 else Factor(es[0].weight) * HalfPoints(es[0].verdict) + Earned(es[1..])
  }

  /**
   (earned / possible) * 100 for half points of points: the quotient is rounded to a double, and so is its
   product.
   */
  function Percentage(earned: nat, possible: nat): Double
    requires possible > 0
  {
    var quotient := Nearest(earned, 2 * possible);
    Nearest(100 * quotient.m, Pow2(quotient.k))
  }

  /** The exact percentage, rounded to the nearest integer with ties up. */
  function NearestPercentage(earned: nat, possible: nat): nat
    requires possible > 0
  {
    (100 * earned + possible) / (2 * possible)
  }

  /** The exact percentage lies half way between two integers. */
  predicate IsTie(earned: nat, possible: nat)
    requires possible > 0
  {
    (100 * earned + possible) % (2 * possible) == 0
  }

  /** The computed percentage is below the exact one. */
  predicate ComputedBelow(earned: nat, possible: nat)
    requires possible > 0
  {
    var x := Percentage(earned, possible);
    x.m * (2 * possible) < 100 * earned * Pow2(x.k)
  }

  /** A tie that the doubles place below the half. */
  predicate LostTie(earned: nat, possible: nat)
    requires possible > 0
  {
    IsTie(earned, possible) && ComputedBelow(earned, possible)
  }

  function ScoreOf(es: seq<Scorable>): int {
    if es == [] then 0 else PossiblePositive(es); Round(Percentage(Earned(es), Possible(es)))
  }

  lemma PossiblePositive(es: seq<Scorable>)
    ensures Possible(es) >= |es| && Earned(es) <= 2 * Possible(es)
  {
  }

  lemma Append(es: seq<Scorable>, e: Scorable)
    ensures Possible(es + [e]) == Possible(es) + Factor(e.weight)
    ensures Earned(es + [e]) == Earned(es) + Factor(e.weight) * HalfPoints(e.verdict)
  {
    if es != [] {
      assert (es + [e])[1..] == es[1..] + [e];
      Append(es[1..], e);
    } else {
      assert (es + [e])[1..] == [];
    }
  }

  method ComputeScore(evaluations: seq<Scorable>) returns (score: int)
    ensures score == ScoreOf(evaluations)
  {
    if |evaluations| == 0 {
      return 0;
    }
    var earned: nat := 0;
    var possible: nat := 0;
    for i := 0 to |evaluations|
      invariant possible == Possible(evaluations[..i]) && earned == Earned(evaluations[..i])
    {
      var e := evaluations[i];
      Append(evaluations[..i], e);
      assert evaluations[..i + 1] == evaluations[..i] + [e];
      var factor := Factor(e.weight);
      possible := possible + factor;
      earned := earned + factor * HalfPoints(e.verdict);
    }
    assert evaluations[..|evaluations|] == evaluations;
    PossiblePositive(evaluations);
    score := Round(Percentage(earned, possible));
  }

  // ---- The score and the exact percentage ----

  /** No array is longer. */
  const MAX_LENGTH := 0xffff_ffff

  lemma NothingEarned(possible: nat)
    requires possible > 0
    ensures Round(Percentage(0, possible)) == 0 == NearestPercentage(0, possible) && !IsTie(0, possible)
  {
    assert Pow2(0) == 1 && Nearest(0, 2 * possible) == Double(0, 0) && Nearest(0, 1) == Double(0, 0);
    UniqueRemainder(possible, 0, 2 * possible, possible);
  }

  /** The computed percentage, rounded, is the exact one, rounded, but for a lost tie. */
  lemma RoundedUpToTies(earned: nat, possible: nat)
    requires 0 < possible && earned <= 2 * possible <= 0x4_0000_0000
    ensures Round(Percentage(earned, possible)) ==
      NearestPercentage(earned, possible) - if LostTie(earned, possible) then 1 else 0
  {
    if earned == 0 {
      NothingEarned(possible);
    } else {
      PercentIsNear(earned, 2 * possible);
      RoundOfNear(Percentage(earned, possible), 100 * earned + possible, possible);
    }
  }

  lemma PossibleBound(es: seq<Scorable>)
    ensures Possible(es) <= 2 * |es|
  {
  }

  /**
   The score is the exact percentage rounded to the nearest integer, ties up, with one exception: a
   tie that the doubles place below the half goes down.
   */
  lemma ScoreIsNearestUpToTies(es: seq<Scorable>)
    requires 0 < |es| <= MAX_LENGTH
    ensures Possible(es) > 0
    ensures ScoreOf(es) ==
      NearestPercentage(Earned(es), Possible(es)) - if LostTie(Earned(es), Possible(es)) then 1 else 0
  {
    PossiblePositive(es);
    PossibleBound(es);
    RoundedUpToTies(Earned(es), Possible(es));
  }

  /** The quotient of 11.5 and 20 as a double, and a hundred times it, which is 57.49999999999999. */
  lemma TieInDoubles()
    ensures Percentage(23, 20) == Double(8092405580431359, 47) && LostTie(23, 20) && NearestPercentage(23, 20) == 58
  {
    PowersOfTwo(53, 47);
    ShiftIs(23, 40, 53, 23 * 0x20_0000_0000_0000);
    ShiftIs(517913957147607000, 0x20_0000_0000_0000, 47, 517913957147607000 * 0x8000_0000_0000);
    NearestIs(23, 40, 53, 0x20_0000_0000_0000);
    NearestIs(517913957147607000, 0x20_0000_0000_0000, 47, 0x8000_0000_0000);
  }

  lemma PowersOfTwo(k: nat, l: nat)
    requires k == 53 && l == 47
    ensures Pow2(k) == 0x20_0000_0000_0000 && Pow2(l) == 0x8000_0000_0000
  {
    var p16 := EightMore(8, 256);
    var p24 := EightMore(16, p16);
    var p32 := EightMore(24, p24);
    var p40 := EightMore(32, p32);
    var p48 := EightMore(40, p40);
    assert Pow2(48) == 2 * Pow2(l);
    assert Pow2(k) == 2 * Pow2(52) == 4 * Pow2(51) == 8 * Pow2(50) == 16 * Pow2(49) == 32 * Pow2(48);
  }

  lemma EightMore(k: nat, p: nat) returns (q: nat)
    requires Pow2(k) == p
    ensures Pow2(k + 8) == 256 * p == q
  {
    Pow2Eight();
    Pow2Add(k, 8);
    q := 256 * p;
  }

  lemma NearestIs(n: nat, d: nat, k: nat, scale: nat)
    requires n > 0 && d > 0 && Shift(n, d) == k && Pow2(k) == scale
    ensures Nearest(n, d) == Double(HalfEven(n * scale, d), k)
  {
  }

  /**
   Nine must-haves, five of them strong, and two nice-to-haves, a strong and a partial one: 57, though 58 is
   nearest.
   */
  lemma TieGoesDown(strong: nat, missing: nat)
    requires strong == 5 && missing == 4
    ensures var es := Times(Scorable(Must, Strong), strong) + Times(Scorable(Must, Missing), missing) +
                      [Scorable(Nice, Strong)] + [Scorable(Nice, Partial)];
      ScoreOf(es) == 57 && Earned(es) == 23 && Possible(es) == 20 && NearestPercentage(23, 20) == 58
  {
    var es := TieExample(strong, missing);
    TieInDoubles();
    RoundedUpToTies(23, 20);
  }

  lemma TieExample(strong: nat, missing: nat) returns (es: seq<Scorable>)
    requires strong == 5 && missing == 4
    ensures es == Times(Scorable(Must, Strong), strong) + Times(Scorable(Must, Missing), missing) +
                    [Scorable(Nice, Strong)] + [Scorable(Nice, Partial)]
    ensures es != [] && Earned(es) == 23 && Possible(es) == 20
  {
    var yes, no := Times(Scorable(Must, Strong), strong), Times(Scorable(Must, Missing), missing);
    PointsOfTimes(Scorable(Must, Strong), strong);
    PointsOfTimes(Scorable(Must, Missing), missing);
    Concat(yes, no);
    Append(yes + no, Scorable(Nice, Strong));
    Append(yes + no + [Scorable(Nice, Strong)], Scorable(Nice, Partial));
    es := yes + no + [Scorable(Nice, Strong)] + [Scorable(Nice, Partial)];
  }

  function Times(e: Scorable, n: nat): (es: seq<Scorable>)
    ensures |es| == n
  {
    if n == 0 then [] else Times(e, n - 1) + [e]
  }

  lemma {:induction false} PointsOfTimes(e: Scorable, n: nat)
    ensures Possible(Times(e, n)) == n * Factor(e.weight)
    ensures Earned(Times(e, n)) == n * (Factor(e.weight) * HalfPoints(e.verdict))
  {
    if n > 0 {
      PointsOfTimes(e, n - 1);
      Append(Times(e, n - 1), e);
      Distribute(n - 1, 1, Factor(e.weight));
      Distribute(n - 1, 1, Factor(e.weight) * HalfPoints(e.verdict));
    }
  }

  lemma Quotient(n: int, d: int)
    requires d > 0
    ensures d * (n / d) <= n < d * (n / d) + d
  {
  }

  lemma QuotientAtLeast(n: int, d: int, k: int)
    requires d > 0
    ensures n / d >= k <==> n >= d * k
  {
    var q := n / d;
    Quotient(n, d);
    if q >= k {
      assert d * q >= d * k;
    } else {
      assert d * (q + 1) <= d * k;
    }
  }

  lemma PercentageBounds(earned: nat, possible: nat)
    requires possible > 0 && earned <= 2 * possible
    ensures var d, n, s := 2 * possible, 100 * earned + possible, NearestPercentage(earned, possible);
      0 <= s <= 100 && d * s <= n < d * s + d && (IsTie(earned, possible) ==> s >= 1 && d * s == n)
  {
    var d, n := 2 * possible, 100 * earned + possible;
    Quotient(n, d);
    QuotientAtLeast(n, d, 0);
    QuotientAtLeast(n, d, 101);
    DivMod(n, d);
  }

  /** 0 to 100, and within a half of the exact percentage, the half included. */
  lemma ScoreIsNearestPercentage(es: seq<Scorable>)
    requires 0 < |es| <= MAX_LENGTH
    ensures 0 <= ScoreOf(es) <= 100
    ensures 100 * Earned(es) - Possible(es) <= 2 * Possible(es) * ScoreOf(es) <= 100 * Earned(es) + Possible(es)
  {
    var p, s := Possible(es), ScoreOf(es);
    PossiblePositive(es);
    PercentageBounds(Earned(es), p);
    ScoreIsNearestUpToTies(es);
    OneLess(2 * p, NearestPercentage(Earned(es), p), s);
  }

  lemma OneLess(d: int, s: int, t: int)
    ensures t == s - 1 ==> d * t == d * s - d
  {
  }

  /** More points of as many: the exact percentage is no lower, and one that ties is a higher integer. */
  lemma MoreEarnsMore(e: nat, f: nat, possible: nat)
    requires possible > 0 && e < f
    ensures NearestPercentage(e, possible) <= NearestPercentage(f, possible)
    ensures IsTie(f, possible) ==> NearestPercentage(e, possible) < NearestPercentage(f, possible)
  {
    var d, n, m := 2 * possible, 100 * e + possible, 100 * f + possible;
    Quotient(n, d);
    QuotientAtLeast(m, d, n / d);
    DivMod(m, d);
    QuotientAtLeast(n, d, m / d);
  }

  lemma MoreScoresMore(e: nat, f: nat, possible: nat)
    requires 0 < possible && e <= f <= 2 * possible <= 0x4_0000_0000
    ensures Round(Percentage(e, possible)) <= Round(Percentage(f, possible))
  {
    RoundedUpToTies(e, possible);
    RoundedUpToTies(f, possible);
    if e < f {
      MoreEarnsMore(e, f, possible);
    }
  }

  /** A better verdict on any requirement never lowers the score, roundings and all. */
  lemma {:induction false} BetterVerdictsNeverLowerTheScore(es: seq<Scorable>, fs: seq<Scorable>)
    requires |es| == |fs| <= MAX_LENGTH
    requires forall i :: 0 <= i < |es| ==>
      es[i].weight == fs[i].weight && HalfPoints(es[i].verdict) <= HalfPoints(fs[i].verdict)
    ensures ScoreOf(es) <= ScoreOf(fs)
  {
    if es != [] {
      BetterEarnsMore(es, fs);
      PossiblePositive(fs);
      PossibleBound(fs);
      MoreScoresMore(Earned(es), Earned(fs), Possible(fs));
    }
  }

  lemma BetterEarnsMore(es: seq<Scorable>, fs: seq<Scorable>)
    requires |es| == |fs|
    requires forall i :: 0 <= i < |es| ==>
      es[i].weight == fs[i].weight && HalfPoints(es[i].verdict) <= HalfPoints(fs[i].verdict)
    ensures Possible(es) == Possible(fs) && Earned(es) <= Earned(fs)
  {
    if es != [] {
      BetterEarnsMore(es[1..], fs[1..]);
    }
  }

  lemma Concat(a: seq<Scorable>, b: seq<Scorable>)
    ensures Possible(a + b) == Possible(a) + Possible(b)
    ensures Earned(a + b) == Earned(a) + Earned(b)
  {
    if a == [] {
      assert a + b == b;
    } else {
      assert (a + b)[1..] == a[1..] + b;
      Concat(a[1..], b);
    }
  }

  /** A must-have counts exactly as two nice-to-haves with its verdict would. */
  lemma MustCountsTwice(a: seq<Scorable>, v: Verdict, b: seq<Scorable>)
    ensures ScoreOf(a + [Scorable(Must, v)] + b) == ScoreOf(a + [Scorable(Nice, v), Scorable(Nice, v)] + b)
  {
    MustEarnsTwice(a, v, b);
  }

  lemma MustEarnsTwice(a: seq<Scorable>, v: Verdict, b: seq<Scorable>)
    ensures var one, two := a + [Scorable(Must, v)] + b, a + [Scorable(Nice, v), Scorable(Nice, v)] + b;
      Earned(one) == Earned(two) && Possible(one) == Possible(two)
  {
    var one, two := [Scorable(Must, v)], [Scorable(Nice, v), Scorable(Nice, v)];
    assert two == [Scorable(Nice, v)] + [Scorable(Nice, v)];
    Concat([Scorable(Nice, v)], [Scorable(Nice, v)]);
    Concat(a, one);
    Concat(a + one, b);
    Concat(a, two);
    Concat(a + two, b);
    assert one[1..] == [] && [Scorable(Nice, v)][1..] == [];
  }
}
