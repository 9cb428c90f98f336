/** `derive_early_warning` and `_expected_resolution`. */
module EarlyWarning {
  import opened Common
  import opened Measures
  import opened Tiers
  import opened Trajectories
  import opened Forecast
  import opened Confidence

  datatype Category = PotentialShutdown | PotentialEscalation | PotentialRecovery | PotentialStabilization

  datatype EarlyWarningSignal = EarlyWarningSignal(category: Category, supportingMatches: nat, totalMatches: nat)

  function CriticalCount(ev: seq<Evidence>): nat { |Filter(IsCritical(), ev)| }

  function IsCritical(): Evidence -> bool { (e: Evidence) => e.observedTier == Critical }

  /** At least half of this horizon's similarity weight reached critical. */
  ghost predicate CriticalMajority(p: ForecastPoint) {
    p.evidence != [] && TotalWeight(p.evidence) > 0.0
    && 2.0 * TierWeight(p.evidence, Critical) >= TotalWeight(p.evidence)
  }

  /** The current tier's rank; a tier outside the known four counts as the lowest. */
  function CurrentRank(t: Option<Tier>): nat { if t.Some? then Rank(t.value) else 0 }

  /** `k` is the first point with a projection. */
  ghost predicate FirstProjected(points: seq<ForecastPoint>, k: nat) {
    && k <= |points| && (forall i :: 0 <= i < k ==> points[i].projectedTier.None?)
    && (k < |points| ==> points[k].projectedTier.Some?)
  }

  /** Critical weight of one point, as the loop sums it. */
  method CriticalWeight(ev: seq<Evidence>) returns (w: real)
    ensures w == TierWeight(ev, Critical)
  {
    w := 0.0;
    for i := 0 to |ev|
      invariant w == TierWeight(ev[..i], Critical)
    {
      assert ev[..i + 1][..i] == ev[..i];
      if ev[i].observedTier == Critical { w := w + ev[i].similarity; }
    }
    assert ev[..|ev|] == ev;
  }

  ghost predicate ShutdownAhead(points: seq<ForecastPoint>) { exists i :: 0 <= i < |points| && CriticalMajority(points[i]) }

  /** A shutdown is signalled exactly when some horizon has a critical majority, and cites the
      first such horizon; otherwise the first available projection is compared with the current
      tier. */
  ghost predicate SignalOf(currentTier: Option<Tier>, total: nat, points: seq<ForecastPoint>, signal: EarlyWarningSignal) {
    && signal.totalMatches == total
    && (signal.category == PotentialShutdown <==> ShutdownAhead(points))
    && (signal.category == PotentialShutdown ==>
          exists i :: 0 <= i < |points| && CriticalMajority(points[i]) && signal.supportingMatches == CriticalCount(points[i].evidence)
            && forall j :: 0 <= j < i ==> !CriticalMajority(points[j]))
    && (signal.category != PotentialShutdown ==> exists k: nat :: FirstProjected(points, k) && TrendOf(currentTier, points, k, signal))
  }

  /** The signal that the first projection, at `k`, gives. */
  ghost predicate TrendOf(currentTier: Option<Tier>, points: seq<ForecastPoint>, k: nat, signal: EarlyWarningSignal)
    requires FirstProjected(points, k)
  {
    if k == |points| then signal.category == PotentialStabilization && signal.supportingMatches == 0
    else
      var current, projected := CurrentRank(currentTier), Rank(points[k].projectedTier.value);
      && signal.supportingMatches == |points[k].evidence|
      && (signal.category == PotentialEscalation <==> projected > current)
      && (signal.category == PotentialRecovery <==> projected < current)
      && (signal.category == PotentialStabilization <==> projected == current)
  }

  method DeriveEarlyWarning(currentTier: Option<Tier>, total: nat, points: seq<ForecastPoint>) returns (signal: EarlyWarningSignal)
    ensures SignalOf(currentTier, total, points, signal)
  {
    for i := 0 to |points|
      invariant forall j :: 0 <= j < i ==> !CriticalMajority(points[j])
    {
      var ev := points[i].evidence;
      if ev == [] { continue; }
      var totalWeight, _ := SumWeights(ev);
      var criticalWeight := CriticalWeight(ev);
      if totalWeight > 0.0 && criticalWeight / totalWeight >= 0.5 {
        HalfShare(criticalWeight, totalWeight);
        assert CriticalMajority(points[i]);
        return EarlyWarningSignal(PotentialShutdown, CriticalCount(ev), total);
      }
      if totalWeight > 0.0 { HalfShare(criticalWeight, totalWeight); }
    }
    var k := 0;
    while k < |points| && points[k].projectedTier.None?
      invariant 0 <= k <= |points| && forall i :: 0 <= i < k ==> points[i].projectedTier.None?
    {
      k := k + 1;
    }
    assert FirstProjected(points, k);
    if k == |points| { return EarlyWarningSignal(PotentialStabilization, 0, total); }
    var current, projected := CurrentRank(currentTier), Rank(points[k].projectedTier.value);
    var category := if projected > current then PotentialEscalation
                    else if projected < current then PotentialRecovery
                    else PotentialStabilization;
    signal := EarlyWarningSignal(category, |points[k].evidence|, total);
  }

  lemma HalfShare(c: real, t: real)
    requires t > 0.0
    ensures c / t >= 0.5 <==> 2.0 * c >= t
  {
    var q := c / t;
    assert q * t == c;
  }

  /** More than half the weight at critical both signals a shutdown and makes critical the
      projected tier of that horizon. */
  lemma CriticalMajorityProjectsCritical(matches: seq<TrajectoryMatch>, horizon: int, p: ForecastPoint)
    requires Anchored(matches) && IsPoint(matches, horizon, p) && p.evidence != []
    requires 2.0 * TierWeight(p.evidence, Critical) > TotalWeight(p.evidence)
    ensures CriticalMajority(p) && p.projectedTier == Some(Critical)
  {
    MajorityWins(p.evidence, Critical, p.projectedTier.value);
  }

  // ---------------------------------------------------------------- expected resolution

  /** The first later step back at normal. */
  function FirstReturn(steps: seq<TrajectoryStep>): Option<TrajectoryStep> {
    if steps == [] then None else if steps[0].tier == Normal then Some(steps[0]) else FirstReturn(steps[1..])
  }

  /** Minutes from the anchor to the first return to normal, for each match that returns. */
  function ResolutionMinutes(matches: seq<TrajectoryMatch>): seq<real>
    requires Anchored(matches)
  {
    if matches == [] then []
    else
      var rest, m := ResolutionMinutes(matches[..|matches| - 1]), matches[|matches| - 1];
      var back := FirstReturn(m.trajectory.steps[m.anchorIndex + 1..]);
      if back.None? then rest
      else rest + [Minutes(back.value.timestamp - m.trajectory.steps[m.anchorIndex].timestamp)]
  }

  /** Mean resolution time and number of matches that resolved, or nothing when none did. */
  method ExpectedResolution(matches: seq<TrajectoryMatch>) returns (average: Option<real>, resolved: nat)
    requires Anchored(matches)
    ensures resolved == |ResolutionMinutes(matches)| <= |matches|
    ensures average == if resolved == 0 then None else Some(Average(ResolutionMinutes(matches)))
  {
    var minutes: seq<real> := [];
    for i := 0 to |matches|
      invariant minutes == ResolutionMinutes(matches[..i]) && |minutes| <= i
    {
      assert matches[..i + 1][..i] == matches[..i];
      var steps, anchor := matches[i].trajectory.steps, matches[i].anchorIndex;
      var j := anchor + 1;
      while j < |steps| && steps[j].tier != Normal
        invariant anchor < j <= |steps|
        invariant FirstReturn(steps[anchor + 1..]) == FirstReturn(steps[j..])
      {
        assert steps[j..][1..] == steps[j + 1..];
        j := j + 1;
      }
      if j < |steps| {
        minutes := minutes + [Minutes(steps[j].timestamp - steps[anchor].timestamp)];
      }
    }
    assert matches[..|matches|] == matches;
    resolved := |minutes|;
    if minutes == [] { return None, 0; }
    var total := SumOf(minutes);
    average := Some(total / |minutes| as real);
  }

  /** `_expected_resolution` agrees with the declarative reading: the tick found is later than the
      anchor, is normal, and nothing between is. */
  lemma {:induction false} FirstReturnMeaning(steps: seq<TrajectoryStep>)
    ensures FirstReturn(steps).None? <==> forall i :: 0 <= i < |steps| ==> steps[i].tier != Normal
    ensures FirstReturn(steps).Some? ==> exists k :: 0 <= k < |steps| && steps[k] == FirstReturn(steps).value && steps[k].tier == Normal
                                          && forall i :: 0 <= i < k ==> steps[i].tier != Normal
  {
    if steps != [] && steps[0].tier != Normal {
      FirstReturnMeaning(steps[1..]);
      if FirstReturn(steps).Some? {
        var k :| 0 <= k < |steps[1..]| && steps[1..][k] == FirstReturn(steps).value && steps[1..][k].tier == Normal
                 && forall i :: 0 <= i < k ==> steps[1..][i].tier != Normal;
        assert forall i :: 0 < i < k + 1 ==> steps[i] == steps[1..][i - 1];
        assert steps[k + 1] == FirstReturn(steps).value;
      } else {
        assert forall i :: 0 < i < |steps| ==> steps[i] == steps[1..][i - 1];
      }
    }
  }

  // ---------------------------------------------------------------- the signal in the points' own fields

  /** At least half of the evidence's similarity lies with observations of critical. */
  ghost predicate MostlyCritical(p: ForecastPoint) {
    p.evidence != [] && Sum(Weights(p.evidence)) > 0.0 && 2.0 * VoteFor(p.evidence, Critical) >= Sum(Weights(p.evidence))
  }

  lemma MajorityMeaning(p: ForecastPoint)
    ensures CriticalMajority(p) <==> MostlyCritical(p)
  {
    WeightsAreSums(p.evidence, Critical);
  }

  /** Point `i` is the first mostly critical one, and `n` of its observations are critical. */
  ghost predicate CitesCritical(points: seq<ForecastPoint>, i: nat, n: nat) {
    && i < |points| && MostlyCritical(points[i]) && (forall j :: 0 <= j < i ==> !MostlyCritical(points[j]))
    && n == |set j | 0 <= j < |points[i].evidence| && points[i].evidence[j].observedTier == Critical|
  }

  /** The first point `k` with a projected tier, if there is one, decides by its severity. */
  ghost predicate CitesTrend(current: Tier, points: seq<ForecastPoint>, k: nat, signal: EarlyWarningSignal) {
    && k <= |points| && (forall i :: 0 <= i < k ==> points[i].projectedTier.None?)
    && if k == |points| then signal.category == PotentialStabilization && signal.supportingMatches == 0
       else
         && points[k].projectedTier.Some? && signal.supportingMatches == |points[k].evidence|
         && var projected := points[k].projectedTier.value;
            if Milder(current, projected) then signal.category == PotentialEscalation
            else if Milder(projected, current) then signal.category == PotentialRecovery
            else signal.category == PotentialStabilization
  }

  lemma CriticalCountMeaning(ev: seq<Evidence>)
    ensures CriticalCount(ev) == |set j | 0 <= j < |ev| && ev[j].observedTier == Critical|
  {
    FilterCount(IsCritical(), ev, |ev|);
    assert ev[..|ev|] == ev;
    assert Positions(IsCritical(), ev, |ev|) == set j | 0 <= j < |ev| && ev[j].observedTier == Critical;
  }

  /** The signal in the points' own fields; an unknown current tier counts as normal. */
  lemma SignalInFields(currentTier: Option<Tier>, total: nat, points: seq<ForecastPoint>, signal: EarlyWarningSignal)
    requires SignalOf(currentTier, total, points, signal)
    ensures signal.totalMatches == total
    ensures signal.category == PotentialShutdown <==> exists i :: 0 <= i < |points| && MostlyCritical(points[i])
    ensures signal.category == PotentialShutdown ==> exists i: nat :: CitesCritical(points, i, signal.supportingMatches)
    ensures signal.category != PotentialShutdown ==> forall t :: currentTier == Some(t) ==> exists k :: CitesTrend(t, points, k, signal)
    ensures signal.category != PotentialShutdown && currentTier.None? ==> exists k :: CitesTrend(Normal, points, k, signal)
  {
    forall i | 0 <= i < |points|
      ensures CriticalMajority(points[i]) <==> MostlyCritical(points[i])
    {
      MajorityMeaning(points[i]);
    }
    if signal.category == PotentialShutdown {
      var i :| 0 <= i < |points| && CriticalMajority(points[i]) && signal.supportingMatches == CriticalCount(points[i].evidence)
        && forall j :: 0 <= j < i ==> !CriticalMajority(points[j]);
      CriticalCountMeaning(points[i].evidence);
      assert CitesCritical(points, i, signal.supportingMatches);
    } else {
      var k: nat :| FirstProjected(points, k) && TrendOf(currentTier, points, k, signal);
      TrendMeaning(currentTier, points, k, signal);
    }
  }

  lemma TrendMeaning(currentTier: Option<Tier>, points: seq<ForecastPoint>, k: nat, signal: EarlyWarningSignal)
    requires FirstProjected(points, k) && TrendOf(currentTier, points, k, signal)
    ensures CitesTrend(if currentTier.Some? then currentTier.value else Normal, points, k, signal)
  {
    var current := if currentTier.Some? then currentTier.value else Normal;
    if k < |points| {
      RankIsSeverity(current, points[k].projectedTier.value);
      RankIsSeverity(points[k].projectedTier.value, current);
    }
  }

  // ---------------------------------------------------------------- resolution in the matches' own steps

  /** Step `k` is the first after the anchor of `m` that is back at normal. */
  ghost predicate ReturnsAt(m: TrajectoryMatch, k: nat)
    requires m.anchorIndex < |m.trajectory.steps|
  {
    var steps := m.trajectory.steps;
    m.anchorIndex < k < |steps| && steps[k].tier == Normal && forall i :: m.anchorIndex < i < k ==> steps[i].tier != Normal
  }

  /** `minutes` is the time from the anchor of `m` to its return. */
  ghost predicate ReturnsAfter(m: TrajectoryMatch, minutes: real)
    requires m.anchorIndex < |m.trajectory.steps|
  {
    var steps := m.trajectory.steps;
    exists k: nat :: ReturnsAt(m, k) && minutes * 60_000_000.0 == (steps[k].timestamp - steps[m.anchorIndex].timestamp) as real
  }

  ghost predicate NeverReturns(m: TrajectoryMatch)
    requires m.anchorIndex < |m.trajectory.steps|
  {
    forall k :: m.anchorIndex < k < |m.trajectory.steps| ==> m.trajectory.steps[k].tier != Normal
  }

  lemma LaterSteps(m: TrajectoryMatch, k: nat)
    requires m.anchorIndex < |m.trajectory.steps|
    requires m.anchorIndex + 1 + k < |m.trajectory.steps|
    ensures k < |m.trajectory.steps[m.anchorIndex + 1..]|
    ensures m.trajectory.steps[m.anchorIndex + 1..][k] == m.trajectory.steps[m.anchorIndex + 1 + k]
  {
  }

  lemma FirstLaterReturns(m: TrajectoryMatch, later: seq<TrajectoryStep>, k: nat)
    requires m.anchorIndex < |m.trajectory.steps| && later == m.trajectory.steps[m.anchorIndex + 1..]
    requires k < |later| && later[k].tier == Normal && forall i :: 0 <= i < k ==> later[i].tier != Normal
    ensures ReturnsAt(m, m.anchorIndex + 1 + k)
  {
    var steps, a := m.trajectory.steps, m.anchorIndex;
    forall i | a < i < a + 1 + k ensures steps[i].tier != Normal {
      LaterSteps(m, i - a - 1);
    }
  }

  /** The minutes that `ResolutionMinutes` lists for one match. */
  ghost function BackAfter(m: TrajectoryMatch): Option<real>
    requires m.anchorIndex < |m.trajectory.steps|
  {
    var back := FirstReturn(m.trajectory.steps[m.anchorIndex + 1..]);
    if back.None? then None else Some(Minutes(back.value.timestamp - m.trajectory.steps[m.anchorIndex].timestamp))
  }

  lemma NotBack(m: TrajectoryMatch)
    requires m.anchorIndex < |m.trajectory.steps|
    ensures BackAfter(m).None? <==> NeverReturns(m)
  {
    var later := m.trajectory.steps[m.anchorIndex + 1..];
    FirstReturnMeaning(later);
    forall k | m.anchorIndex < k < |m.trajectory.steps| ensures later[k - m.anchorIndex - 1] == m.trajectory.steps[k] {
      LaterSteps(m, k - m.anchorIndex - 1);
    }
  }

  lemma BackAtReturn(m: TrajectoryMatch)
    requires m.anchorIndex < |m.trajectory.steps| && BackAfter(m).Some?
    ensures ReturnsAfter(m, BackAfter(m).value)
  {
    var later := m.trajectory.steps[m.anchorIndex + 1..];
    FirstReturnMeaning(later);
    var k :| 0 <= k < |later| && later[k] == FirstReturn(later).value && later[k].tier == Normal && forall i :: 0 <= i < k ==> later[i].tier != Normal;
    FirstLaterReturns(m, later, k);
    MinutesReturned(later[k].timestamp - m.trajectory.steps[m.anchorIndex].timestamp);
  }

  lemma MinutesReturned(d: int)
    ensures Minutes(d) * 60_000_000.0 == d as real
  {
  }

  lemma ResolutionStep(matches: seq<TrajectoryMatch>, n: nat)
    requires Anchored(matches) && n < |matches|
    ensures ResolutionMinutes(matches[..n + 1])
         == ResolutionMinutes(matches[..n]) + if BackAfter(matches[n]).None? then [] else [BackAfter(matches[n]).value]
  {
    assert matches[..n + 1][..n] == matches[..n];
  }

  /** Of the first `n` matches, those listed in `from` return, after `minutes` in match order, and no others. */
  ghost predicate ReturnsIn(matches: seq<TrajectoryMatch>, n: nat, minutes: seq<real>, from: seq<nat>)
    requires Anchored(matches) && n <= |matches|
  {
    && |from| == |minutes|
    && (forall i :: 0 <= i < |from| ==> from[i] < n && ReturnsAfter(matches[from[i]], minutes[i]))
    && (forall i, j :: 0 <= i < j < |from| ==> from[i] < from[j])
    && forall k :: 0 <= k < n ==> (k in from <==> !NeverReturns(matches[k]))
  }

  lemma ReturnsStep(matches: seq<TrajectoryMatch>, n: nat, minutes: seq<real>, from: seq<nat>)
    requires Anchored(matches) && n < |matches| && ReturnsIn(matches, n, minutes, from)
    ensures if BackAfter(matches[n]).None? then ReturnsIn(matches, n + 1, minutes, from)
            else ReturnsIn(matches, n + 1, minutes + [BackAfter(matches[n]).value], from + [n])
  {
    NotBack(matches[n]);
    if BackAfter(matches[n]).Some? { BackAtReturn(matches[n]); }
  }

  /** What the resolution is computed from. */
  lemma {:induction false} ResolutionInFields(matches: seq<TrajectoryMatch>, n: nat) returns (from: seq<nat>)
    requires Anchored(matches) && n <= |matches|
    ensures ReturnsIn(matches, n, ResolutionMinutes(matches[..n]), from)
  {
    from := [];
    if n > 0 {
      from := ResolutionInFields(matches, n - 1);
      ReturnsStep(matches, n - 1, ResolutionMinutes(matches[..n - 1]), from);
      ResolutionStep(matches, n - 1);
      if BackAfter(matches[n - 1]).Some? { from := from + [n - 1]; }
    }
  }

  /** `average` is the mean of the times, absent without any. */
  ghost predicate Resolves(minutes: seq<real>, average: Option<real>) {
    if minutes == [] then average.None? else average.Some? && IsQuotient(Sum(minutes), |minutes| as real, average.value)
  }

  /** The resolution in the matches' own steps: the mean time to the first return, over the matches that return. */
  lemma ResolutionMeaning(matches: seq<TrajectoryMatch>, average: Option<real>) returns (minutes: seq<real>, from: seq<nat>)
    requires Anchored(matches)
    requires average == if ResolutionMinutes(matches) == [] then None else Some(Average(ResolutionMinutes(matches)))
    ensures ReturnsIn(matches, |matches|, minutes, from) && |minutes| == |ResolutionMinutes(matches)| && Resolves(minutes, average)
  {
    minutes := ResolutionMinutes(matches);
    from := ResolutionInFields(matches, |matches|);
    assert matches[..|matches|] == matches;
    if minutes != [] { QuotientTimes(Sum(minutes), |minutes| as real, average.value); }
  }
}
