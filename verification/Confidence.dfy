/** `compute_confidence`: four factors, each in [0, 1], combined by minimum. The square root is a
    parameter, constrained only by what a square root is. */
module Confidence {
  import opened Common
  import opened Measures
  import opened Trajectories
  import opened Forecast

  datatype ForesightConfidence = ForesightConfidence(historicalAgreement: real, dataCompleteness: real, trajectorySimilarity: real,
                                                     replayCoverage: real, overall: real)

  ghost predicate IsSqrt(sqrt: real -> real) {
    forall v :: v >= 0.0 ==> sqrt(v) >= 0.0 && sqrt(v) * sqrt(v) == v
  }

  // ---------------------------------------------------------------- sums

  function Average(s: seq<real>): real
    requires s != []
  {
    Sum(s) / |s| as real
  }

  /** Every term within [lo, hi]. */
  ghost predicate AllWithin(s: seq<real>, lo: real, hi: real) { forall i :: 0 <= i < |s| ==> lo <= s[i] <= hi }

  lemma {:induction false} SumBounds(s: seq<real>, lo: real, hi: real)
    requires AllWithin(s, lo, hi)
    ensures Spans(lo, |s| as real, Sum(s), hi)
  {
    if s != [] {
      var front, last := s[..|s| - 1], s[|s| - 1];
      SumBounds(front, lo, hi);
      SpansStep(lo, hi, |front| as real, Sum(front), 1.0, last, |s| as real, Sum(s));
    }
  }

  lemma SuccBounds(n: nat, c: real)
    ensures c * (n + 1) as real == c * n as real + c
  {
  }

  lemma AverageBounds(s: seq<real>, lo: real, hi: real)
    requires s != [] && AllWithin(s, lo, hi)
    ensures lo <= Average(s) <= hi
  {
    SumBounds(s, lo, hi);
    QuotientBounds(Sum(s), |s| as real, lo, hi);
  }

  // ---------------------------------------------------------------- variance

  function SquareOf(x: real, c: real): real { (x - c) * (x - c) }

  function Squares(s: seq<real>, c: real): real {
    if s == [] then 0.0 else Squares(s[..|s| - 1], c) + SquareOf(s[|s| - 1], c)
  }

  function Variance(s: seq<real>): real
    requires s != []
  {
    Squares(s, Average(s)) / |s| as real
  }

  /** The sum of squared deviations from `c` of `n` terms with sum `t` and sum of squares `q`. */
  function Expansion(q: real, t: real, n: real, c: real): real { q - 2.0 * c * t + n * (c * c) }

  lemma {:induction false} SquaresExpand(s: seq<real>, c: real)
    ensures Squares(s, c) == Expansion(Squares(s, 0.0), Sum(s), |s| as real, c)
  {
    if s != [] {
      var front, x := s[..|s| - 1], s[|s| - 1];
      SquaresExpand(front, c);
      ExpandStep(Squares(front, 0.0), Sum(front), |front| as real, x, c, Squares(s, 0.0), Sum(s), |s| as real);
    }
  }

  lemma ExpandStep(q: real, t: real, n: real, x: real, c: real, q': real, t': real, n': real)
    requires q' == q + SquareOf(x, 0.0) && t' == t + x && n' == n + 1.0
    ensures Expansion(q, t, n, c) + SquareOf(x, c) == Expansion(q', t', n', c)
  {
    assert (x - c) * (x - c) == x * x - 2.0 * c * x + c * c;
    assert 2.0 * c * t' == 2.0 * c * t + 2.0 * c * x;
    assert n' * (c * c) == n * (c * c) + c * c;
  }

  /** n times a squared shift. */
  function Spread(n: real, d: real): real { n * (d * d) }

  /** Deviations from the mean are smallest: about any other centre they grow by n times the
      squared shift. */
  lemma SquaresShift(s: seq<real>, c: real)
    requires s != []
    ensures Squares(s, c) == Squares(s, Average(s)) + Spread(|s| as real, Average(s) - c)
  {
    AverageTimesCount(s);
    ShiftFrom(s, Average(s), c);
  }

  lemma ShiftFrom(s: seq<real>, m: real, c: real)
    requires Sum(s) == |s| as real * m
    ensures Squares(s, c) == Squares(s, m) + Spread(|s| as real, m - c)
  {
    SquaresExpand(s, c);
    SquaresExpand(s, m);
    ExpansionShift(Squares(s, 0.0), Sum(s), |s| as real, m, c);
  }

  lemma AverageTimesCount(s: seq<real>)
    requires s != []
    ensures Sum(s) == |s| as real * Average(s)
  {
  }

  lemma ExpansionShift(q: real, t: real, n: real, m: real, c: real)
    requires t == n * m
    ensures Expansion(q, t, n, c) == Expansion(q, t, n, m) + Spread(n, m - c)
  {
    assert (m - c) * (m - c) == m * m - 2.0 * c * m + c * c;
    assert n * (m * m - 2.0 * c * m + c * c) == n * (m * m) - n * (2.0 * c * m) + n * (c * c);
    assert 2.0 * c * (n * m) == n * (2.0 * c * m);
    assert 2.0 * m * (n * m) == n * (2.0 * m * m) == 2.0 * (n * (m * m));
  }

  lemma {:induction false} SquaresBounds(s: seq<real>, c: real, r: real)
    requires r >= 0.0 && AllWithin(s, c - r, c + r)
    ensures 0.0 <= Squares(s, c) <= r * r * |s| as real
  {
    if s != [] {
      SquaresBounds(s[..|s| - 1], c, r);
      SquareBound(s[|s| - 1] - c, r);
      SuccBounds(|s| - 1, r * r);
    }
  }

  lemma SquareBound(x: real, r: real)
    requires -r <= x <= r
    ensures 0.0 <= x * x <= r * r
  {
    assert (r - x) * (r + x) >= 0.0;
    assert (r - x) * (r + x) == r * r - x * x;
  }

  lemma {:induction false} SquaresNonNegative(s: seq<real>, c: real)
    ensures Squares(s, c) >= 0.0
  {
    if s != [] {
      SquaresNonNegative(s[..|s| - 1], c);
      SquareNotNegative(s[|s| - 1], c);
    }
  }

  lemma SquareNotNegative(x: real, c: real)
    ensures SquareOf(x, c) >= 0.0
  {
    assert (x - c) * (x - c) >= 0.0;
  }

  lemma ScaledSquare(n: real, x: real)
    requires n >= 0.0
    ensures n * (x * x) >= 0.0
  {
    assert x * x >= 0.0;
  }

  /** On the 0..100 scale no set of observations has a variance above 2500. */
  lemma VarianceBound(s: seq<real>)
    requires s != [] && AllWithin(s, 0.0, 100.0)
    ensures 0.0 <= Variance(s) <= 2500.0
  {
    var n, m := |s| as real, Average(s);
    SquaresShift(s, 50.0);
    SquaresBounds(s, 50.0, 50.0);
    SquaresNonNegative(s, m);
    ScaledSquare(n, m - 50.0);
    QuotientBounds(Squares(s, m), n, 0.0, 2500.0);
  }

  // ---------------------------------------------------------------- agreement

  function Risks(ev: seq<Evidence>): seq<real> { Map((e: Evidence) => e.observedRisk, ev) }

  function MaxReal(a: real, b: real): real { if a < b then b else a }

  function MinReal(a: real, b: real): real { if a < b then a else b }

  /** How far the observations of one horizon agree. */
  function AgreementOf(sqrt: real -> real, values: seq<real>): real
    requires values != []
  {
    MaxReal(0.0, 1.0 - sqrt(Variance(values)) / 100.0)
  }

  /** The loop's `agreements`: one term per horizon with at least two pieces of evidence. */
  function Agreements(sqrt: real -> real, points: seq<ForecastPoint>): seq<real> {
    if points == [] then []
    else
      var rest, last := Agreements(sqrt, points[..|points| - 1]), points[|points| - 1];
      if |last.evidence| < 2 then rest else rest + [AgreementOf(sqrt, Risks(last.evidence))]
  }

  lemma SqrtBound(sqrt: real -> real, v: real)
    requires IsSqrt(sqrt) && 0.0 <= v <= 2500.0
    ensures 0.0 <= sqrt(v) <= 50.0
  {
    var r := sqrt(v);
    assert r * r <= 2500.0;
    SquareMonotone(r, 50.0);
  }

  lemma SquareMonotone(a: real, b: real)
    requires a >= 0.0 && b >= 0.0 && a * a <= b * b
    ensures a <= b
  {
    if a > b { StrictSquare(a, b); }
  }

  lemma StrictSquare(a: real, b: real)
    requires a > b >= 0.0
    ensures a * a > b * b
  {
    ProductPositive(a - b, a + b);
    assert (a - b) * (a + b) == a * a - b * b;
  }

  lemma ProductPositive(x: real, y: real)
    requires x > 0.0 && y > 0.0
    ensures x * y > 0.0
  {
  }

  /** On the 0..100 scale agreement never drops below one half: the standard deviation of 100 that
      would map to no agreement cannot occur. */
  lemma AgreementBounds(sqrt: real -> real, values: seq<real>)
    requires IsSqrt(sqrt) && values != [] && AllWithin(values, 0.0, 100.0)
    ensures 0.5 <= AgreementOf(sqrt, values) <= 1.0
  {
    VarianceBound(values);
    SqrtBound(sqrt, Variance(values));
  }

  /** The floor is reached: two observations at the ends of the scale. */
  lemma AgreementFloorReached(sqrt: real -> real)
    requires IsSqrt(sqrt)
    ensures AgreementOf(sqrt, [0.0, 100.0]) == 0.5
  {
    var s := [0.0, 100.0];
    assert s[..1] == [0.0] && [0.0][..0] == [];
    assert Average(s) == 50.0 && Squares(s, 50.0) == 5000.0 && Variance(s) == 2500.0;
    var r := sqrt(2500.0);
    assert r * r == 50.0 * 50.0;
    SquareMonotone(r, 50.0);
    SquareMonotone(50.0, r);
  }

  ghost predicate OnScale(p: ForecastPoint) { RisksWithin(p.evidence, 0.0, 100.0) }

  lemma {:induction false} AgreementsBounds(sqrt: real -> real, points: seq<ForecastPoint>)
    requires IsSqrt(sqrt) && forall i :: 0 <= i < |points| ==> OnScale(points[i])
    ensures AllWithin(Agreements(sqrt, points), 0.5, 1.0)
    ensures Agreements(sqrt, points) == [] <==> forall i :: 0 <= i < |points| ==> |points[i].evidence| < 2
  {
    if points != [] {
      var front, last := points[..|points| - 1], points[|points| - 1];
      AgreementsBounds(sqrt, front);
      assert OnScale(last);
      if |last.evidence| >= 2 {
        forall i | 0 <= i < |Risks(last.evidence)| ensures 0.0 <= Risks(last.evidence)[i] <= 100.0 {
          assert last.evidence[i] in last.evidence;
        }
        AgreementBounds(sqrt, Risks(last.evidence));
      } else {
        assert forall i :: 0 <= i < |front| ==> front[i] == points[i];
      }
    }
  }

  // ---------------------------------------------------------------- the four factors

  function Similarities(matches: seq<TrajectoryMatch>): seq<real> { Map((m: TrajectoryMatch) => m.similarity, matches) }

  function Covered(points: seq<ForecastPoint>): nat {
    if points == [] then 0 else Covered(points[..|points| - 1]) + |points[|points| - 1].evidence|
  }

  lemma {:induction false} CoveredBound(points: seq<ForecastPoint>, n: nat)
    requires forall i :: 0 <= i < |points| ==> |points[i].evidence| <= n
    ensures Covered(points) <= n * |points|
  {
    if points != [] {
      CoveredBound(points[..|points| - 1], n);
      assert n * |points| == n * (|points| - 1) + n;
    }
  }

  method SumOf(s: seq<real>) returns (total: real)
    ensures total == Sum(s)
  {
    total := 0.0;
    for i := 0 to |s|
      invariant total == Sum(s[..i])
    {
      assert s[..i + 1][..i] == s[..i];
      total := total + s[i];
    }
    assert s[..|s|] == s;
  }

  method CollectAgreements(sqrt: real -> real, points: seq<ForecastPoint>) returns (agreements: seq<real>, covered: nat)
    ensures agreements == Agreements(sqrt, points) && covered == Covered(points)
  {
    agreements, covered := [], 0;
    for i := 0 to |points|
      invariant agreements == Agreements(sqrt, points[..i]) && covered == Covered(points[..i])
    {
      assert points[..i + 1][..i] == points[..i];
      covered := covered + |points[i].evidence|;
      if |points[i].evidence| < 2 { continue; }
      agreements := agreements + [AgreementOf(sqrt, Risks(points[i].evidence))];
    }
    assert points[..|points|] == points;
  }

  ghost predicate IsConfidence(c: ForesightConfidence, matches: seq<TrajectoryMatch>, points: seq<ForecastPoint>, sqrt: real -> real,
                               windowLength: nat, requested: int) {
    && c.dataCompleteness == Completeness(windowLength, requested)
    && c.trajectorySimilarity == (if matches == [] then 0.0 else Average(Similarities(matches)))
    && c.historicalAgreement == (if Agreements(sqrt, points) == [] then 0.0 else Average(Agreements(sqrt, points)))
    && c.replayCoverage == Coverage(matches, points)
    && c.overall == MinReal(MinReal(c.dataCompleteness, c.trajectorySimilarity), MinReal(c.historicalAgreement, c.replayCoverage))
  }

  /** The confidence of a forecast: a mean agreement (0 without two opinions anywhere), the filled
      share of the window, the mean similarity, the covered share of (match, horizon) pairs, and
      the least of the four. */
  method ComputeConfidence(windowLength: nat, requested: int, matches: seq<TrajectoryMatch>, points: seq<ForecastPoint>, sqrt: real -> real)
    returns (c: ForesightConfidence)
    ensures IsConfidence(c, matches, points, sqrt, windowLength, requested)
  {
    var completeness := if requested > 0 then MinReal(1.0, windowLength as real / requested as real) else 0.0;
    var similarity := 0.0;
    if matches != [] {
      var total := SumOf(Similarities(matches));
      similarity := total / |matches| as real;
    }
    var agreements, covered := CollectAgreements(sqrt, points);
    var agreement := 0.0;
    if agreements != [] {
      var total := SumOf(agreements);
      agreement := total / |agreements| as real;
    }
    var possible := |matches| * |points|;
    var coverage := if possible == 0 then 0.0 else covered as real / possible as real;
    c := ForesightConfidence(agreement, completeness, similarity, coverage,
                             MinReal(MinReal(completeness, similarity), MinReal(agreement, coverage)));
  }

  predicate InUnit(x: real) { 0.0 <= x <= 1.0 }

  lemma RatioInUnit(a: nat, b: nat)
    requires a <= b && b > 0
    ensures InUnit(a as real / b as real)
  {
    QuotientBounds(a as real, b as real, 0.0, 1.0);
  }

  function Completeness(windowLength: nat, requested: int): real {
    if requested > 0 then MinReal(1.0, windowLength as real / requested as real) else 0.0
  }

  function Coverage(matches: seq<TrajectoryMatch>, points: seq<ForecastPoint>): real {
    if |matches| * |points| == 0 then 0.0 else Covered(points) as real / (|matches| * |points|) as real
  }

  lemma CompletenessInUnit(windowLength: nat, requested: int)
    ensures InUnit(Completeness(windowLength, requested))
  {
    if requested > 0 {
      if windowLength <= requested {
        RatioInUnit(windowLength, requested);
      } else {
        assert windowLength as real / requested as real >= 0.0;
      }
    }
  }

  /** The points are a forecast from `matches`, all of whose observations are on the 0..100 scale. */
  ghost predicate ForecastFrom(matches: seq<TrajectoryMatch>, horizons: seq<int>, points: seq<ForecastPoint>) {
    && Anchored(matches) && |points| == |horizons|
    && forall i :: 0 <= i < |points| ==> IsPoint(matches, horizons[i], points[i]) && OnScale(points[i])
  }

  lemma CoverageInUnit(matches: seq<TrajectoryMatch>, horizons: seq<int>, points: seq<ForecastPoint>)
    requires ForecastFrom(matches, horizons, points)
    ensures InUnit(Coverage(matches, points))
  {
    CoveredBound(points, |matches|);
    if |matches| * |points| != 0 { RatioInUnit(Covered(points), |matches| * |points|); }
  }

  /** For a forecast generated from the same matches, over risks on the 0..100 scale, every factor
      and the overall confidence lie in [0, 1], the overall is at most each factor, and agreement
      is 0 exactly when no horizon has two pieces of evidence, at least one half otherwise. */
  lemma FactorsInUnit(c: ForesightConfidence, matches: seq<TrajectoryMatch>, horizons: seq<int>, points: seq<ForecastPoint>,
                      sqrt: real -> real, windowLength: nat, requested: int)
    requires IsSqrt(sqrt) && ForecastFrom(matches, horizons, points)
    requires IsConfidence(c, matches, points, sqrt, windowLength, requested)
    ensures InUnit(c.dataCompleteness) && InUnit(c.trajectorySimilarity) && InUnit(c.replayCoverage) && InUnit(c.overall)
    ensures c.historicalAgreement == 0.0 || 0.5 <= c.historicalAgreement <= 1.0
    ensures c.historicalAgreement == 0.0 <==> forall i :: 0 <= i < |points| ==> |points[i].evidence| < 2
    ensures c.overall <= c.dataCompleteness && c.overall <= c.trajectorySimilarity
    ensures c.overall <= c.historicalAgreement && c.overall <= c.replayCoverage
  {
    CompletenessInUnit(windowLength, requested);
    CoverageInUnit(matches, horizons, points);
    if matches != [] { AverageBounds(Similarities(matches), 0.0, 1.0); }
    AgreementsBounds(sqrt, points);
    if Agreements(sqrt, points) != [] { AverageBounds(Agreements(sqrt, points), 0.5, 1.0); }
  }

  // ---------------------------------------------------------------- the factors in the inputs' own fields

  /** Squared deviations, one by one. */
  ghost function Deviations(values: seq<real>, mean: real): seq<real> {
    seq(|values|, i requires 0 <= i < |values| => (values[i] - mean) * (values[i] - mean))
  }

  lemma {:induction false} SquaresIsSum(values: seq<real>, mean: real)
    ensures Squares(values, mean) == Sum(Deviations(values, mean))
  {
    if values != [] {
      var front := values[..|values| - 1];
      SquaresIsSum(front, mean);
      forall i | 0 <= i < |front| ensures Deviations(values, mean)[i] == Deviations(front, mean)[i] {
        assert front[i] == values[i];
      }
      assert Deviations(values, mean)[..|values| - 1] == Deviations(front, mean);
    }
  }

  /** `a` is the agreement of `values`: one, less a hundredth of their population standard deviation,
      but never negative. */
  ghost predicate Agrees(sqrt: real -> real, values: seq<real>, a: real) {
    exists mean, variance :: IsQuotient(Sum(values), |values| as real, mean) && IsQuotient(Sum(Deviations(values, mean)), |values| as real, variance)
      && if sqrt(variance) <= 100.0 then 100.0 * a == 100.0 - sqrt(variance) else a == 0.0
  }

  lemma AgreementMeaning(sqrt: real -> real, values: seq<real>)
    requires values != []
    ensures Agrees(sqrt, values, AgreementOf(sqrt, values))
  {
    var n, mean := |values| as real, Average(values);
    SquaresIsSum(values, mean);
    QuotientTimes(Sum(values), n, mean);
    QuotientTimes(Sum(Deviations(values, mean)), n, Variance(values));
  }

  ghost function ObservedRisks(ev: seq<Evidence>): seq<real> { seq(|ev|, i requires 0 <= i < |ev| => ev[i].observedRisk) }

  /** `terms` are the agreements at those of the first `n` points, listed in `from`, that have two pieces of
      evidence or more. */
  ghost predicate TermsIn(points: seq<ForecastPoint>, n: nat, sqrt: real -> real, terms: seq<real>, from: seq<nat>)
    requires n <= |points|
  {
    && |from| == |terms|
    && (forall i :: 0 <= i < |from| ==> from[i] < n && Agrees(sqrt, ObservedRisks(points[from[i]].evidence), terms[i]))
    && (forall i, j :: 0 <= i < j < |from| ==> from[i] < from[j])
    && forall k :: 0 <= k < n ==> (k in from <==> |points[k].evidence| >= 2)
  }

  lemma TermsStep(points: seq<ForecastPoint>, n: nat, sqrt: real -> real, terms: seq<real>, from: seq<nat>)
    requires n < |points| && TermsIn(points, n, sqrt, terms, from)
    ensures if |points[n].evidence| < 2 then TermsIn(points, n + 1, sqrt, terms, from)
            else TermsIn(points, n + 1, sqrt, terms + [AgreementOf(sqrt, Risks(points[n].evidence))], from + [n])
  {
    var values := Risks(points[n].evidence);
    assert values == ObservedRisks(points[n].evidence);
    if values != [] { AgreementMeaning(sqrt, values); }
  }

  lemma {:induction false} AgreementsInFields(points: seq<ForecastPoint>, n: nat, sqrt: real -> real) returns (from: seq<nat>)
    requires n <= |points|
    ensures TermsIn(points, n, sqrt, Agreements(sqrt, points[..n]), from)
  {
    from := [];
    if n > 0 {
      from := AgreementsInFields(points, n - 1, sqrt);
      TermsStep(points, n - 1, sqrt, Agreements(sqrt, points[..n - 1]), from);
      if |points[n - 1].evidence| >= 2 { from := from + [n - 1]; }
      assert points[..n][..n - 1] == points[..n - 1];
    }
  }

  ghost function Counts(points: seq<ForecastPoint>): seq<real> {
    seq(|points|, i requires 0 <= i < |points| => |points[i].evidence| as real)
  }

  lemma {:induction false} CoveredIsSum(points: seq<ForecastPoint>)
    ensures Covered(points) as real == Sum(Counts(points))
  {
    if points != [] {
      CoveredIsSum(points[..|points| - 1]);
      assert Counts(points)[..|points| - 1] == Counts(points[..|points| - 1]);
    }
  }

  /** `q` is the mean of the terms, or 0 without any. */
  ghost predicate MeanOrZero(terms: seq<real>, q: real) {
    if terms == [] then q == 0.0 else IsQuotient(Sum(terms), |terms| as real, q)
  }

  lemma AverageIsMean(terms: seq<real>, q: real)
    requires q == if terms == [] then 0.0 else Average(terms)
    ensures MeanOrZero(terms, q)
  {
    if terms != [] { QuotientTimes(Sum(terms), |terms| as real, q); }
  }

  /** `q` is the filled share of the window: all of it from the requested length on. */
  ghost predicate FilledShare(windowLength: nat, requested: int, q: real) {
    if requested <= 0 then q == 0.0
    else if windowLength >= requested then q == 1.0
    else IsQuotient(windowLength as real, requested as real, q)
  }

  lemma CompletenessInFields(windowLength: nat, requested: int)
    ensures FilledShare(windowLength, requested, Completeness(windowLength, requested))
  {
    if requested > 0 {
      QuotientTimes(windowLength as real, requested as real, windowLength as real / requested as real);
      if windowLength >= requested {
        AtLeastOne(windowLength as real, requested as real);
      } else {
        RatioInUnit(windowLength, requested);
      }
    }
  }

  lemma AtLeastOne(w: real, t: real)
    requires w >= t > 0.0
    ensures w / t >= 1.0
  {
    QuotientBounds(w, t, 1.0, w / t);
  }

  /** `q` is the share of (match, point) pairs that have evidence. */
  ghost predicate CoveredShare(matches: nat, points: seq<ForecastPoint>, q: real) {
    if matches * |points| == 0 then q == 0.0 else IsQuotient(Sum(Counts(points)), (matches * |points|) as real, q)
  }

  lemma CoverageInFields(matches: seq<TrajectoryMatch>, points: seq<ForecastPoint>)
    ensures CoveredShare(|matches|, points, Coverage(matches, points))
  {
    CoveredIsSum(points);
    var pairs := |matches| * |points|;
    if pairs != 0 { QuotientTimes(Covered(points) as real, pairs as real, Coverage(matches, points)); }
  }

  /** The factors in the inputs' own fields, and the least of them. */
  lemma FactorsInFields(c: ForesightConfidence, matches: seq<TrajectoryMatch>, points: seq<ForecastPoint>, sqrt: real -> real,
                        windowLength: nat, requested: int) returns (terms: seq<real>, from: seq<nat>)
    requires IsConfidence(c, matches, points, sqrt, windowLength, requested)
    ensures FilledShare(windowLength, requested, c.dataCompleteness)
    ensures MeanOrZero(seq(|matches|, i requires 0 <= i < |matches| => matches[i].similarity), c.trajectorySimilarity)
    ensures TermsIn(points, |points|, sqrt, terms, from) && MeanOrZero(terms, c.historicalAgreement)
    ensures CoveredShare(|matches|, points, c.replayCoverage)
    ensures c.overall in [c.dataCompleteness, c.trajectorySimilarity, c.historicalAgreement, c.replayCoverage]
    ensures forall x :: x in [c.dataCompleteness, c.trajectorySimilarity, c.historicalAgreement, c.replayCoverage] ==> c.overall <= x
  {
    terms := Agreements(sqrt, points);
    from := AgreementsInFields(points, |points|, sqrt);
    assert points[..|points|] == points;
    assert Similarities(matches) == seq(|matches|, i requires 0 <= i < |matches| => matches[i].similarity);
    CompletenessInFields(windowLength, requested);
    CoverageInFields(matches, points);
    AverageIsMean(Similarities(matches), c.trajectorySimilarity);
    AverageIsMean(terms, c.historicalAgreement);
  }
}
