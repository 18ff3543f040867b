/** Cohen's kappa of labelled verdicts (backend/evals/scoring/metrics.ts), in exact reals. */
module Kappa {
  datatype Verdict = STRONG | PARTIAL | MISSING

  /** The verdict expected and the one given. */
  datatype Pair = Pair(expected: Verdict, actual: Verdict)

  function CountExpected(pairs: seq<Pair>, v: Verdict): nat {
    if pairs == [] then 0 else (if pairs[0].expected == v then 1 else 0) + CountExpected(pairs[1..], v)
  }

  function CountActual(pairs: seq<Pair>, v: Verdict): nat {
    if pairs == [] then 0 else (if pairs[0].actual == v then 1 else 0) + CountActual(pairs[1..], v)
  }

  function CountAgreeing(pairs: seq<Pair>): nat {
    if pairs == [] then 0 else (if pairs[0].expected == pairs[0].actual then 1 else 0) + CountAgreeing(pairs[1..])
  }

  function Share(a: nat, n: nat): (x: real)
    requires n >= 1
    ensures x * n as real == a as real
  {
    a as real / n as real
  }

  function Observed(pairs: seq<Pair>): real
    requires pairs != []
  {
    Share(CountAgreeing(pairs), |pairs|)
  }

  function ChanceOf(pairs: seq<Pair>, v: Verdict): real
    requires pairs != []
  {
    Share(CountExpected(pairs, v), |pairs|) * Share(CountActual(pairs, v), |pairs|)
  }

  function Chance(pairs: seq<Pair>): real
    requires pairs != []
  {
    ChanceOf(pairs, STRONG) + ChanceOf(pairs, PARTIAL) + ChanceOf(pairs, MISSING)
  }

  function CohensKappa(pairs: seq<Pair>): real {
    if pairs == [] then 0.0
    else
      var observed, chance := Observed(pairs), Chance(pairs);
      if chance == 1.0 then (if observed == 1.0 then 1.0 else 0.0)
      else (observed - chance) / (1.0 - chance)
  }

  // ---- Counting ----

  function CountBoth(pairs: seq<Pair>, v: Verdict): nat {
    if pairs == [] then 0 else (if pairs[0] == Pair(v, v) then 1 else 0) + CountBoth(pairs[1..], v)
  }

  /** The margins sum to the number of pairs, and overlap in the agreeing pairs at least. */
  lemma {:induction false} Margins(pairs: seq<Pair>)
    ensures CountExpected(pairs, STRONG) + CountExpected(pairs, PARTIAL) + CountExpected(pairs, MISSING) == |pairs|
    ensures CountActual(pairs, STRONG) + CountActual(pairs, PARTIAL) + CountActual(pairs, MISSING) == |pairs|
    ensures CountBoth(pairs, STRONG) + CountBoth(pairs, PARTIAL) + CountBoth(pairs, MISSING) == CountAgreeing(pairs)
    ensures CountAgreeing(pairs) <= |pairs|
    ensures forall v :: CountExpected(pairs, v) + CountActual(pairs, v) <= |pairs| + CountBoth(pairs, v)
    ensures forall v :: CountBoth(pairs, v) <= |pairs|
  {
    if pairs != [] {
      Margins(pairs[1..]);
    }
  }

  lemma {:induction false} AllAgree(pairs: seq<Pair>)
    ensures CountAgreeing(pairs) == |pairs| <==> forall i :: 0 <= i < |pairs| ==> pairs[i].expected == pairs[i].actual
  {
    if pairs != [] {
      Margins(pairs[1..]);
      AllAgree(pairs[1..]);
      assert forall i :: 1 <= i < |pairs| ==> pairs[i] == pairs[1..][i - 1];
      if forall i :: 0 <= i < |pairs| ==> pairs[i].expected == pairs[i].actual {
        assert forall i :: 0 <= i < |pairs[1..]| ==> pairs[1..][i] == pairs[i + 1];
      }
    }
  }

  // ---- 2 * chance <= 1 + observed ----

  /** One verdict's share: 2rc <= (r + c)^2 / 2 <= (r + c)(n + d) / 2, and (r + c)d / 2 <= nd. */
  lemma OneVerdict(r: nat, c: nat, d: nat, n: nat)
    requires r + c <= n + d && d <= n
    ensures 4 * (r * c) <= n * (r + c) + 2 * (n * d)
  {
    var s := r + c;
    assert 4 * (r * c) <= s * s by {
      assert s * s - 4 * (r * c) == (r - c) * (r - c);
      Square(r - c);
    }
    Monotone(s, n + d, s);
    Monotone(s, 2 * n, d);
    assert s * (n + d) == n * s + s * d;
  }

  lemma Square(x: int)
    ensures x * x >= 0
  {
  }

  lemma Monotone(a: nat, b: nat, c: nat)
    requires a <= b
    ensures a * c <= b * c && c * a <= c * b
  {
  }

  lemma SumOfVerdicts(n: nat, a: nat, p0: nat, p1: nat, p2: nat, s0: nat, s1: nat, s2: nat, d0: nat, d1: nat, d2: nat)
    requires 4 * p0 <= n * s0 + 2 * (n * d0) && 4 * p1 <= n * s1 + 2 * (n * d1) && 4 * p2 <= n * s2 + 2 * (n * d2)
    requires s0 + s1 + s2 == 2 * n && d0 + d1 + d2 == a
    ensures 2 * (p0 + p1 + p2) <= n * n + n * a
  {
    assert n * (2 * n) == n * s0 + n * s1 + n * s2 by {
      Spread(n, s0, s1, s2);
    }
    Spread(n, d0, d1, d2);
    assert n * (2 * n) == 2 * (n * n);
  }

  lemma Spread(n: nat, a: nat, b: nat, c: nat)
    ensures n * (a + b + c) == n * a + n * b + n * c
  {
  }

  function Product(pairs: seq<Pair>, v: Verdict): nat {
    Multiply(CountExpected(pairs, v), CountActual(pairs, v))
  }

  function Multiply(a: nat, b: nat): nat {
    a * b
  }

  lemma ProductBound(pairs: seq<Pair>, v: Verdict)
    ensures var n := |pairs|;
      4 * Product(pairs, v) <= n * (CountExpected(pairs, v) + CountActual(pairs, v)) + 2 * (n * CountBoth(pairs, v))
  {
    Margins(pairs);
    OneVerdict(CountExpected(pairs, v), CountActual(pairs, v), CountBoth(pairs, v), |pairs|);
  }

  lemma ChanceBound(pairs: seq<Pair>)
    ensures 2 * (Product(pairs, STRONG) + Product(pairs, PARTIAL) + Product(pairs, MISSING)) <=
      |pairs| * |pairs| + |pairs| * CountAgreeing(pairs)
  {
    Margins(pairs);
    ProductBound(pairs, STRONG);
    ProductBound(pairs, PARTIAL);
    ProductBound(pairs, MISSING);
    SumOfVerdicts(|pairs|, CountAgreeing(pairs),
      Product(pairs, STRONG), Product(pairs, PARTIAL), Product(pairs, MISSING),
      CountExpected(pairs, STRONG) + CountActual(pairs, STRONG),
      CountExpected(pairs, PARTIAL) + CountActual(pairs, PARTIAL),
      CountExpected(pairs, MISSING) + CountActual(pairs, MISSING),
      CountBoth(pairs, STRONG), CountBoth(pairs, PARTIAL), CountBoth(pairs, MISSING));
  }

  // ---- From counts to shares ----

  lemma CastProduct(a: nat, b: nat)
    ensures (a * b) as real == a as real * b as real
  {
  }

  lemma ProductOfShares(x: real, y: real, n: real, a: real, b: real)
    requires x * n == a && y * n == b
    ensures x * y * (n * n) == a * b
  {
    assert x * y * (n * n) == (x * n) * (y * n);
  }

  /** x is p out of the square of n. */
  predicate IsPart(x: real, n: nat, p: nat) {
    x * (n as real * n as real) == p as real
  }

  lemma ChanceOfTimesSquare(pairs: seq<Pair>, v: Verdict)
    requires pairs != []
    ensures IsPart(ChanceOf(pairs, v), |pairs|, Product(pairs, v))
  {
    var r, c, n := CountExpected(pairs, v), CountActual(pairs, v), |pairs| as real;
    ProductOfShares(Share(r, |pairs|), Share(c, |pairs|), n, r as real, c as real);
    CastProduct(r, c);
  }

  lemma SumOfShares(a: real, b: real, c: real, m: real, p: nat, q: nat, r: nat)
    requires a * m == p as real && b * m == q as real && c * m == r as real
    ensures (a + b + c) * m == (p + q + r) as real
  {
    assert (a + b + c) * m == a * m + b * m + c * m;
  }

  lemma Cancel(a: real, b: real, m: real)
    requires m > 0.0 && a * m <= b * m
    ensures a <= b
  {
    assert a > b ==> a * m > b * m;
  }

  lemma ShareIsAtMostOne(x: real, n: real, a: real)
    requires n > 0.0 && x * n == a && 0.0 <= a <= n
    ensures 0.0 <= x <= 1.0
  {
    Cancel(x, 1.0, n);
    Cancel(0.0, x, n);
  }

  /** The bound on counts, divided by the square of the number of pairs. */
  lemma DivideBound(chance: real, observed: real, n: nat, a: nat, products: nat)
    requires n >= 1 && 2 * products <= n * n + n * a
    requires chance * (n as real * n as real) == products as real && observed * n as real == a as real
    ensures 2.0 * chance <= 1.0 + observed
  {
    var m := n as real * n as real;
    CastProduct(n, n);
    CastProduct(n, a);
    ObservedTimesSquare(observed, n as real, a as real);
    assert m > 0.0;
    assert 2.0 * chance * m == 2.0 * (chance * m);
    Cancel(2.0 * chance, 1.0 + observed, m);
  }

  lemma Halfway(x: real, y: real, z: real, observed: real, n: nat, a: nat, p: nat, q: nat, r: nat)
    requires n >= 1 && 2 * (p + q + r) <= n * n + n * a && observed * n as real == a as real
    requires IsPart(x, n, p) && IsPart(y, n, q) && IsPart(z, n, r)
    ensures 2.0 * (x + y + z) <= 1.0 + observed
  {
    SumOfShares(x, y, z, n as real * n as real, p, q, r);
    DivideBound(x + y + z, observed, n, a, p + q + r);
  }

  lemma ObservedIsShare(pairs: seq<Pair>)
    requires pairs != []
    ensures Observed(pairs) * |pairs| as real == CountAgreeing(pairs) as real
    ensures 0.0 <= Observed(pairs) <= 1.0
  {
    AgreeingAtMostAll(pairs);
    ShareIsProper(CountAgreeing(pairs), |pairs|);
  }

  lemma AgreeingAtMostAll(pairs: seq<Pair>)
    ensures CountAgreeing(pairs) <= |pairs|
  {
    Margins(pairs);
  }

  lemma ShareIsProper(a: nat, n: nat)
    requires n >= 1 && a <= n
    ensures Share(a, n) * n as real == a as real && 0.0 <= Share(a, n) <= 1.0
  {
    ShareIsAtMostOne(Share(a, n), n as real, a as real);
  }

  /** Chance agreement is at most halfway between the observed one and certainty. */
  lemma ChanceIsBounded(pairs: seq<Pair>)
    requires pairs != []
    ensures 2.0 * Chance(pairs) <= 1.0 + Observed(pairs)
  {
    ChanceBound(pairs);
    ChanceOfTimesSquare(pairs, STRONG);
    ChanceOfTimesSquare(pairs, PARTIAL);
    ChanceOfTimesSquare(pairs, MISSING);
    ObservedIsShare(pairs);
    Halfway(ChanceOf(pairs, STRONG), ChanceOf(pairs, PARTIAL), ChanceOf(pairs, MISSING), Observed(pairs),
      |pairs|, CountAgreeing(pairs), Product(pairs, STRONG), Product(pairs, PARTIAL), Product(pairs, MISSING));
  }

  lemma ObservedTimesSquare(observed: real, n: real, a: real)
    requires observed * n == a
    ensures (1.0 + observed) * (n * n) == n * n + n * a
  {
    assert observed * (n * n) == (observed * n) * n;
  }

  lemma Quotient(x: real, y: real)
    requires y > 0.0 && -y <= x <= y
    ensures -1.0 <= x / y <= 1.0
    ensures x / y == 1.0 <==> x == y
  {
    var q := x / y;
    assert q * y == x;
    Cancel(q, 1.0, y);
    Cancel(-1.0, q, y);
  }

  /** Kappa lies between -1 and 1, and is 1 exactly when every pair agrees. */
  lemma KappaIsBounded(pairs: seq<Pair>)
    requires pairs != []
    ensures -1.0 <= CohensKappa(pairs) <= 1.0
    ensures CohensKappa(pairs) == 1.0 <==> forall i :: 0 <= i < |pairs| ==> pairs[i].expected == pairs[i].actual
  {
    ChanceIsBounded(pairs);
    ObservedIsShare(pairs);
    AllAgree(pairs);
    FullShare(CountAgreeing(pairs), |pairs|);
    var observed, chance := Observed(pairs), Chance(pairs);
    if chance != 1.0 {
      Quotient(observed - chance, 1.0 - chance);
    }
  }

  lemma FullShare(a: nat, n: nat)
    requires n >= 1
    ensures Share(a, n) == 1.0 <==> a == n
  {
  }

  /** The guard against a zero divisor only meets full agreement: its 0 is never returned. */
  lemma CertainChanceMeansAgreement(pairs: seq<Pair>)
    requires pairs != [] && Chance(pairs) == 1.0
    ensures Observed(pairs) == 1.0 && CohensKappa(pairs) == 1.0
  {
    ChanceIsBounded(pairs);
    ObservedIsShare(pairs);
  }

  // ---- What kappa is ----

  /** The places from some place on where a verdict was expected, where it was given, and where the two agree. */
  function ExpectedFrom(pairs: seq<Pair>, v: Verdict, from: nat): set<int> {
    set i | from <= i < |pairs| && pairs[i].expected == v
  }

  function GivenFrom(pairs: seq<Pair>, v: Verdict, from: nat): set<int> {
    set i | from <= i < |pairs| && pairs[i].actual == v
  }

  function AgreeingFrom(pairs: seq<Pair>, from: nat): set<int> {
    set i | from <= i < |pairs| && pairs[i].expected == pairs[i].actual
  }

  lemma CountsFromFirst(p: Pair, rest: seq<Pair>)
    ensures forall v :: CountExpected([p] + rest, v) == CountExpected(rest, v) + if p.expected == v then 1 else 0
    ensures forall v :: CountActual([p] + rest, v) == CountActual(rest, v) + if p.actual == v then 1 else 0
    ensures CountAgreeing([p] + rest) == CountAgreeing(rest) + if p.expected == p.actual then 1 else 0
  {
    assert ([p] + rest)[1..] == rest;
  }

  lemma ExpectedStep(pairs: seq<Pair>, v: Verdict, from: nat)
    requires from < |pairs|
    ensures |ExpectedFrom(pairs, v, from)| ==
      |ExpectedFrom(pairs, v, from + 1)| + if pairs[from].expected == v then 1 else 0
  {
    var rest := ExpectedFrom(pairs, v, from + 1);
    if pairs[from].expected == v {
      assert ExpectedFrom(pairs, v, from) == rest + {from};
    } else {
      assert ExpectedFrom(pairs, v, from) == rest;
    }
  }

  lemma {:induction false} ExpectedCount(pairs: seq<Pair>, v: Verdict, from: nat)
    requires from <= |pairs|
    ensures CountExpected(pairs[from..], v) == |ExpectedFrom(pairs, v, from)|
    decreases |pairs| - from
  {
    if from == |pairs| {
      assert ExpectedFrom(pairs, v, from) == {};
    } else {
      ExpectedCount(pairs, v, from + 1);
      ExpectedStep(pairs, v, from);
      CountsFromFirst(pairs[from], pairs[from + 1..]);
      assert pairs[from..] == [pairs[from]] + pairs[from + 1..];
    }
  }

  lemma GivenStep(pairs: seq<Pair>, v: Verdict, from: nat)
    requires from < |pairs|
    ensures |GivenFrom(pairs, v, from)| == |GivenFrom(pairs, v, from + 1)| + if pairs[from].actual == v then 1 else 0
  {
    var rest := GivenFrom(pairs, v, from + 1);
    if pairs[from].actual == v {
      assert GivenFrom(pairs, v, from) == rest + {from};
    } else {
      assert GivenFrom(pairs, v, from) == rest;
    }
  }

  lemma {:induction false} GivenCount(pairs: seq<Pair>, v: Verdict, from: nat)
    requires from <= |pairs|
    ensures CountActual(pairs[from..], v) == |GivenFrom(pairs, v, from)|
    decreases |pairs| - from
  {
    if from == |pairs| {
      assert GivenFrom(pairs, v, from) == {};
    } else {
      GivenCount(pairs, v, from + 1);
      GivenStep(pairs, v, from);
      CountsFromFirst(pairs[from], pairs[from + 1..]);
      assert pairs[from..] == [pairs[from]] + pairs[from + 1..];
    }
  }

  lemma AgreeingStep(pairs: seq<Pair>, from: nat)
    requires from < |pairs|
    ensures |AgreeingFrom(pairs, from)| ==
      |AgreeingFrom(pairs, from + 1)| + if pairs[from].expected == pairs[from].actual then 1 else 0
  {
    var rest := AgreeingFrom(pairs, from + 1);
    if pairs[from].expected == pairs[from].actual {
      assert AgreeingFrom(pairs, from) == rest + {from};
    } else {
      assert AgreeingFrom(pairs, from) == rest;
    }
  }

  lemma {:induction false} AgreeingCount(pairs: seq<Pair>, from: nat)
    requires from <= |pairs|
    ensures CountAgreeing(pairs[from..]) == |AgreeingFrom(pairs, from)|
    decreases |pairs| - from
  {
    if from == |pairs| {
      assert AgreeingFrom(pairs, from) == {};
    } else {
      AgreeingCount(pairs, from + 1);
      AgreeingStep(pairs, from);
      CountsFromFirst(pairs[from], pairs[from + 1..]);
      assert pairs[from..] == [pairs[from]] + pairs[from + 1..];
    }
  }

  lemma CountsAre(pairs: seq<Pair>, v: Verdict)
    ensures CountExpected(pairs, v) == |ExpectedFrom(pairs, v, 0)| && CountActual(pairs, v) == |GivenFrom(pairs, v, 0)|
    ensures CountAgreeing(pairs) == |AgreeingFrom(pairs, 0)|
  {
    assert pairs[0..] == pairs;
    ExpectedCount(pairs, v, 0);
    GivenCount(pairs, v, 0);
    AgreeingCount(pairs, 0);
  }

  /** The share expected times the share given. */
  function ByChance(expected: nat, given: nat, n: nat): real
    requires n >= 1
  {
    (expected as real / n as real) * (given as real / n as real)
  }

  lemma ChanceByParts(pairs: seq<Pair>, expected: nat, given: nat, v: Verdict)
    requires pairs != [] && expected == CountExpected(pairs, v) && given == CountActual(pairs, v)
    ensures ChanceOf(pairs, v) == ByChance(expected, given, |pairs|)
  {
  }

  /**
   Kappa is the agreement beyond chance as a part of all that is beyond chance. Agreement is the share of
   pairs whose verdicts are the same; chance, the sum over the verdicts of the share expected times the
   share given.
   */
  lemma KappaIsAgreementBeyondChance(pairs: seq<Pair>)
    requires pairs != []
    ensures var n := |pairs|;
      && Observed(pairs) == |AgreeingFrom(pairs, 0)| as real / n as real
      && Chance(pairs) ==
           ByChance(|ExpectedFrom(pairs, STRONG, 0)|, |GivenFrom(pairs, STRONG, 0)|, n) +
           ByChance(|ExpectedFrom(pairs, PARTIAL, 0)|, |GivenFrom(pairs, PARTIAL, 0)|, n) +
           ByChance(|ExpectedFrom(pairs, MISSING, 0)|, |GivenFrom(pairs, MISSING, 0)|, n)
    ensures Chance(pairs) != 1.0 ==> CohensKappa(pairs) == (Observed(pairs) - Chance(pairs)) / (1.0 - Chance(pairs))
    ensures Chance(pairs) == 1.0 ==> CohensKappa(pairs) == 1.0
  {
    CountsAre(pairs, STRONG);
    CountsAre(pairs, PARTIAL);
    CountsAre(pairs, MISSING);
    ChanceByParts(pairs, |ExpectedFrom(pairs, STRONG, 0)|, |GivenFrom(pairs, STRONG, 0)|, STRONG);
    ChanceByParts(pairs, |ExpectedFrom(pairs, PARTIAL, 0)|, |GivenFrom(pairs, PARTIAL, 0)|, PARTIAL);
    ChanceByParts(pairs, |ExpectedFrom(pairs, MISSING, 0)|, |GivenFrom(pairs, MISSING, 0)|, MISSING);
    if Chance(pairs) == 1.0 {
      CertainChanceMeansAgreement(pairs);
    }
  }
}
