/** `generate_operational_foresight`: matching, forecasting, confidence and early warning chained,
    and what holds of the chain as a whole. */
module OperationalForesight {
  import opened Common
  import opened Measures
  import opened StableSort
  import opened Trajectories
  import opened Forecast
  import opened Confidence
  import opened EarlyWarning

  const HORIZONS_MINUTES: seq<int> := [15, 30, 60]

  datatype ForesightResult = ForesightResult(matches: seq<TrajectoryMatch>, forecast: seq<ForecastPoint>, confidence: ForesightConfidence,
                                             earlyWarning: EarlyWarningSignal, resolution: Option<real>)

  /** Every recorded risk is on the 0..100 scale. */
  ghost predicate RecordedOnScale(candidates: seq<Trajectory>) {
    forall t :: t in candidates ==> StepsOnScale(t)
  }

  ghost predicate StepsOnScale(t: Trajectory) { forall s :: s in t.steps ==> 0.0 <= s.risk <= 100.0 }

  ghost predicate MatchesOnScale(matches: seq<TrajectoryMatch>) {
    forall i :: 0 <= i < |matches| ==> StepsOnScale(matches[i].trajectory)
  }

  /** Evidence cites recorded risks, so it stays on their scale. */
  lemma {:induction false} EvidenceOnScale(matches: seq<TrajectoryMatch>, horizon: int)
    requires Anchored(matches) && MatchesOnScale(matches)
    ensures RisksWithin(EvidenceOf(matches, horizon), 0.0, 100.0)
  {
    if matches != [] {
      var m := matches[|matches| - 1];
      EvidenceOnScale(matches[..|matches| - 1], horizon);
      var target := m.trajectory.steps[m.anchorIndex].timestamp + horizon * MICROSECONDS_PER_MINUTE;
      NearestMeaning(m.trajectory.steps, m.anchorIndex, target);
    }
  }

  /** A projection and its confidence: what every forecast point owes its evidence. */
  ghost predicate PointSound(p: ForecastPoint) {
    && (p.projectedRisk.Some? <==> p.evidence != []) && (p.projectedTier.Some? <==> p.evidence != [])
    && (p.projectedRisk.Some? ==> 0.0 <= p.projectedRisk.value <= 100.0)
    && (p.projectedRisk.Some? ==> forall lo, hi :: RisksWithin(p.evidence, lo, hi) ==> lo <= p.projectedRisk.value <= hi)
  }

  lemma PointIsSound(matches: seq<TrajectoryMatch>, horizon: int, p: ForecastPoint)
    requires Anchored(matches) && MatchesOnScale(matches) && IsPoint(matches, horizon, p)
    ensures PointSound(p) && OnScale(p)
  {
    EvidenceOnScale(matches, horizon);
    if p.evidence != [] {
      forall lo, hi | RisksWithin(p.evidence, lo, hi) ensures lo <= p.projectedRisk.value <= hi {
        ProjectionWithin(p.evidence, lo, hi);
      }
      assert RisksWithin(p.evidence, 0.0, 100.0);
    }
  }

  /** What a match list drawn from `candidates` inherits. */
  lemma MatchListFacts(distance: Distance, current: Trajectory, candidates: seq<Trajectory>, windowSize: int, topN: int, matches: seq<TrajectoryMatch>)
    requires TopMatches(distance, current, candidates, windowSize, topN, matches)
    ensures Anchored(matches) && (RecordedOnScale(candidates) ==> MatchesOnScale(matches))
  {
    var window := Window(current, windowSize);
    if window != [] {
      var all :| MatchesOf(distance, window, EligibleOf(current, candidates), all) && matches == PrefixSlice(Sort(MoreSimilar, all), topN);
      KeptMatchFacts(distance, window, current, candidates, all, topN);
    }
  }

  lemma KeptMatchFacts(distance: Distance, window: seq<TrajectoryStep>, current: Trajectory, candidates: seq<Trajectory>,
                       all: seq<TrajectoryMatch>, topN: int)
    requires MatchesOf(distance, window, EligibleOf(current, candidates), all)
    ensures Anchored(PrefixSlice(Sort(MoreSimilar, all), topN))
    ensures RecordedOnScale(candidates) ==> MatchesOnScale(PrefixSlice(Sort(MoreSimilar, all), topN))
  {
    var eligible := EligibleOf(current, candidates);
    var kept := PrefixSlice(Sort(MoreSimilar, all), topN);
    KeepsTheMostSimilar(distance, window, eligible, all, topN);
    SortPermutes(MoreSimilar, all);
    FilterMembers(IsEligible(current), candidates);
    forall i | 0 <= i < |kept| ensures ValidMatch(kept[i]) && kept[i].trajectory in candidates {
      assert kept[i] in kept && kept[i] in Sort(MoreSimilar, all);
      var k :| 0 <= k < |all| && all[k] == kept[i];
      assert eligible[k] in eligible;
    }
  }

  /** The stages, each fed by the one before: the most similar of one best match per eligible
      candidate, the forecast from exactly those matches, the confidence in that forecast, its
      early warning, and the expected time back to normal. */
  ghost predicate Chained(distance: Distance, sqrt: real -> real, current: Trajectory, candidates: seq<Trajectory>, windowSize: int, topN: int,
                          r: ForesightResult) {
    && TopMatches(distance, current, candidates, windowSize, topN, r.matches) && Anchored(r.matches)
    && IsForecast(r.matches, r.forecast)
    && IsConfidence(r.confidence, r.matches, r.forecast, sqrt, WindowLength(current, windowSize), windowSize)
    && current.steps != [] && SignalOf(Some(current.steps[|current.steps| - 1].tier), |r.matches|, r.forecast, r.earlyWarning)
    && r.resolution == (if ResolutionMinutes(r.matches) == [] then None else Some(Average(ResolutionMinutes(r.matches))))
  }

  /** How many of the current trajectory's steps the window holds. */
  ghost function WindowLength(current: Trajectory, windowSize: int): nat {
    if windowSize <= 0 then 0 else if windowSize < |current.steps| then windowSize else |current.steps|
  }

  lemma WindowLengthMeaning(current: Trajectory, windowSize: int)
    ensures |Window(current, windowSize)| == WindowLength(current, windowSize)
  {
  }

  /** The horizons in use are those of the forecast. */
  lemma PointAt(matches: seq<TrajectoryMatch>, points: seq<ForecastPoint>, i: nat)
    requires Anchored(matches) && i < 3 && |points| == 3
    ensures |HORIZONS_MINUTES| == 3
    ensures (forall k :: 0 <= k < 3 ==> IsPoint(matches, HORIZONS_MINUTES[k], points[k])) <==> IsForecast(matches, points)
    ensures IsForecast(matches, points) ==> IsPoint(matches, HORIZONS_MINUTES[i], points[i])
  {
    if forall k :: 0 <= k < 3 ==> IsPoint(matches, HORIZONS_MINUTES[k], points[k]) {
      assert IsPoint(matches, HORIZONS_MINUTES[0], points[0]) && IsPoint(matches, HORIZONS_MINUTES[1], points[1]);
      assert IsPoint(matches, HORIZONS_MINUTES[2], points[2]);
    }
  }

  ghost predicate IsForecast(matches: seq<TrajectoryMatch>, points: seq<ForecastPoint>)
    requires Anchored(matches)
  {
    |points| == 3 && IsPoint(matches, 15, points[0]) && IsPoint(matches, 30, points[1]) && IsPoint(matches, 60, points[2])
  }

  /** Evidence, once lost at a horizon, does not return at a longer one. */
  ghost predicate EvidenceNeverReturns(points: seq<ForecastPoint>) {
    forall i, j :: 0 <= i < j < |points| ==> |points[j].evidence| <= |points[i].evidence|
  }

  lemma ForecastShrinks(matches: seq<TrajectoryMatch>, points: seq<ForecastPoint>)
    requires Anchored(matches) && IsForecast(matches, points)
    ensures EvidenceNeverReturns(points)
  {
    forall i, j | 0 <= i < j < |points| ensures |points[j].evidence| <= |points[i].evidence| {
      PointAt(matches, points, i);
      PointAt(matches, points, j);
      EvidenceShrinks(matches, HORIZONS_MINUTES[i], HORIZONS_MINUTES[j]);
    }
  }

  /** Over risks recorded on the 0..100 scale, every projection is within its own evidence and the
      confidence is a share. */
  ghost predicate OnScaleResult(r: ForesightResult) {
    && (forall i :: 0 <= i < |r.forecast| ==> PointSound(r.forecast[i]))
    && InUnit(r.confidence.overall)
  }

  lemma ResultOnScale(distance: Distance, sqrt: real -> real, current: Trajectory, candidates: seq<Trajectory>, windowSize: int, topN: int,
                      r: ForesightResult)
    requires IsSqrt(sqrt) && Chained(distance, sqrt, current, candidates, windowSize, topN, r) && MatchesOnScale(r.matches)
    ensures OnScaleResult(r)
  {
    forall i | 0 <= i < 3
      ensures IsPoint(r.matches, HORIZONS_MINUTES[i], r.forecast[i]) && PointSound(r.forecast[i]) && OnScale(r.forecast[i])
    {
      PointAt(r.matches, r.forecast, i);
      PointIsSound(r.matches, HORIZONS_MINUTES[i], r.forecast[i]);
    }
    FactorsInUnit(r.confidence, r.matches, HORIZONS_MINUTES, r.forecast, sqrt, WindowLength(current, windowSize), windowSize);
  }

  /** The pipeline. Without any recent tick the source refuses to forecast. */
  method GenerateOperationalForesight(distance: Distance, sqrt: real -> real, current: Trajectory, candidates: seq<Trajectory>,
                                      windowSize: int, topN: int)
    returns (r: Option<ForesightResult>)
    requires NonNegative(distance) && IsSqrt(sqrt)
    ensures r.None? <==> current.steps == []
    ensures r.Some? ==> Chained(distance, sqrt, current, candidates, windowSize, topN, r.value)
    ensures r.Some? ==> EvidenceNeverReturns(r.value.forecast)
    ensures r.Some? && RecordedOnScale(candidates) ==> OnScaleResult(r.value)
    ensures r.Some? && r.value.confidence.overall > 0.0 ==>
              exists i :: 0 <= i < |r.value.forecast| && |r.value.forecast[i].evidence| >= 2
  {
    if current.steps == [] { return None; }
    var matches := MatchTrajectories(distance, current, candidates, windowSize, topN);
    MatchListFacts(distance, current, candidates, windowSize, topN, matches);
    var points := GenerateForecast(matches, HORIZONS_MINUTES);
    PointAt(matches, points, 0);
    ForecastShrinks(matches, points);
    var windowLength := |Window(current, windowSize)|;
    WindowLengthMeaning(current, windowSize);
    var confidence := ComputeConfidence(windowLength, windowSize, matches, points, sqrt);
    NoAgreementWithoutPairs(sqrt, points);
    var signal := DeriveEarlyWarning(Some(current.steps[|current.steps| - 1].tier), |matches|, points);
    var resolution, _ := ExpectedResolution(matches);
    var result := ForesightResult(matches, points, confidence, signal, resolution);
    if RecordedOnScale(candidates) { ResultOnScale(distance, sqrt, current, candidates, windowSize, topN, result); }
    r := Some(result);
  }

  lemma {:induction false} NoAgreementWithoutPairs(sqrt: real -> real, points: seq<ForecastPoint>)
    ensures (forall i :: 0 <= i < |points| ==> |points[i].evidence| < 2) ==> Agreements(sqrt, points) == []
  {
    if points != [] { NoAgreementWithoutPairs(sqrt, points[..|points| - 1]); }
  }
}
