/** `generate_forecast`: per horizon, a similarity-weighted mean of really observed risks and a
    similarity-weighted vote on the tier. */
module Forecast {
  import opened Common
  import opened Measures
  import opened Tiers
  import opened Trajectories

  datatype Evidence = Evidence(scenarioKey: string, zoneId: string, similarity: real, observedRisk: real, observedTier: Tier,
                               observedTimestamp: int, minutesAfterAnchor: real)

  /** The risk and tier are absent together, exactly when the source records an unavailable reason. */
  datatype ForecastPoint = ForecastPoint(horizonMinutes: int, projectedRisk: Option<real>, projectedTier: Option<Tier>, evidence: seq<Evidence>)

  // ---------------------------------------------------------------- nearest later tick

  function AtOrAfter(target: int): TrajectoryStep -> bool { (s: TrajectoryStep) => s.timestamp >= target }

  /** The first of the steps with the least timestamp. */
  function Earliest(steps: seq<TrajectoryStep>): (e: TrajectoryStep)
    requires steps != []
    ensures e in steps && forall s :: s in steps ==> e.timestamp <= s.timestamp
  {
    if |steps| == 1 then steps[0]
    else
      var e := Earliest(steps[..|steps| - 1]);
      assert steps == steps[..|steps| - 1] + [steps[|steps| - 1]];
      if steps[|steps| - 1].timestamp < e.timestamp then steps[|steps| - 1] else e
  }

  function NearestAtOrAfter(steps: seq<TrajectoryStep>, anchor: nat, target: int): Option<TrajectoryStep>
    requires anchor < |steps|
  {
    var candidates := Filter(AtOrAfter(target), steps[anchor + 1..]);
    if candidates == [] then None else Some(Earliest(candidates))
  }

  /** The earliest really observed later tick at or after the target, if there is one. */
  lemma NearestMeaning(steps: seq<TrajectoryStep>, anchor: nat, target: int)
    requires anchor < |steps|
    ensures var r := NearestAtOrAfter(steps, anchor, target);
            && (r.None? <==> forall s :: s in steps[anchor + 1..] ==> s.timestamp < target)
            && (r.Some? ==> r.value in steps[anchor + 1..] && r.value.timestamp >= target)
            && (r.Some? ==> forall s :: s in steps[anchor + 1..] && s.timestamp >= target ==> r.value.timestamp <= s.timestamp)
  {
    var candidates := Filter(AtOrAfter(target), steps[anchor + 1..]);
    FilterMembers(AtOrAfter(target), steps[anchor + 1..]);
    if candidates != [] { assert candidates[0] in candidates; }
  }

  lemma NearestMonotone(steps: seq<TrajectoryStep>, anchor: nat, near: int, far: int)
    requires anchor < |steps| && near <= far && NearestAtOrAfter(steps, anchor, far).Some?
    ensures NearestAtOrAfter(steps, anchor, near).Some?
    ensures NearestAtOrAfter(steps, anchor, near).value.timestamp <= NearestAtOrAfter(steps, anchor, far).value.timestamp
  {
    NearestMeaning(steps, anchor, near);
    NearestMeaning(steps, anchor, far);
  }

  // ---------------------------------------------------------------- evidence

  /** What one match contributes at one horizon. */
  function EvidenceFor(m: TrajectoryMatch, horizon: int): Option<Evidence>
    requires m.anchorIndex < |m.trajectory.steps|
  {
    var anchor := m.trajectory.steps[m.anchorIndex];
    var step := NearestAtOrAfter(m.trajectory.steps, m.anchorIndex, anchor.timestamp + horizon * MICROSECONDS_PER_MINUTE);
    if step.None? then None
    else Some(Evidence(m.trajectory.scenarioKey, m.trajectory.zoneId, m.similarity, step.value.risk, step.value.tier, step.value.timestamp,
                       Minutes(step.value.timestamp - anchor.timestamp)))
  }

  ghost predicate Anchored(matches: seq<TrajectoryMatch>) {
    forall i :: 0 <= i < |matches| ==> ValidMatch(matches[i])
  }

  /** The evidence of all matches, in match order. */
  function EvidenceOf(matches: seq<TrajectoryMatch>, horizon: int): (r: seq<Evidence>)
    requires Anchored(matches)
    ensures |r| <= |matches|
    ensures forall e :: e in r ==> 0.0 < e.similarity <= 1.0
  {
    if matches == [] then []
    else
      var rest := EvidenceOf(matches[..|matches| - 1], horizon);
      var last := EvidenceFor(matches[|matches| - 1], horizon);
      if last.None? then rest else rest + [last.value]
  }

  /** A match with evidence at one horizon has evidence, observed no later, at every shorter one. */
  lemma ShorterHorizonEvidence(m: TrajectoryMatch, near: int, far: int)
    requires m.anchorIndex < |m.trajectory.steps| && near <= far && EvidenceFor(m, far).Some?
    ensures EvidenceFor(m, near).Some?
    ensures EvidenceFor(m, near).value.observedTimestamp <= EvidenceFor(m, far).value.observedTimestamp
  {
    var steps, anchor := m.trajectory.steps, m.anchorIndex;
    var t := steps[anchor].timestamp;
    NearestMonotone(steps, anchor, t + near * MICROSECONDS_PER_MINUTE, t + far * MICROSECONDS_PER_MINUTE);
  }

  /** So the evidence never grows with the horizon, and availability never returns once lost. */
  lemma {:induction false} EvidenceShrinks(matches: seq<TrajectoryMatch>, near: int, far: int)
    requires Anchored(matches) && near <= far
    ensures |EvidenceOf(matches, far)| <= |EvidenceOf(matches, near)|
    ensures EvidenceOf(matches, far) != [] ==> EvidenceOf(matches, near) != []
  {
    if matches != [] {
      var last := matches[|matches| - 1];
      EvidenceShrinks(matches[..|matches| - 1], near, far);
      if EvidenceFor(last, far).Some? { ShorterHorizonEvidence(last, near, far); }
    }
  }

  // ---------------------------------------------------------------- weighted mean

  function TotalWeight(ev: seq<Evidence>): real {
    if ev == [] then 0.0 else TotalWeight(ev[..|ev| - 1]) + ev[|ev| - 1].similarity
  }

  function WeightedRisk(ev: seq<Evidence>): real {
    if ev == [] then 0.0 else WeightedRisk(ev[..|ev| - 1]) + ev[|ev| - 1].observedRisk * ev[|ev| - 1].similarity
  }

  ghost predicate PositiveWeights(ev: seq<Evidence>) { forall e :: e in ev ==> e.similarity > 0.0 }

  ghost predicate RisksWithin(ev: seq<Evidence>, lo: real, hi: real) {
    forall e :: e in ev ==> lo <= e.observedRisk <= hi
  }

  lemma {:induction false} TotalPositive(ev: seq<Evidence>)
    requires PositiveWeights(ev)
    ensures TotalWeight(ev) >= 0.0 && (ev != [] ==> TotalWeight(ev) > 0.0)
  {
    if ev != [] {
      assert ev[|ev| - 1] in ev;
      TotalPositive(ev[..|ev| - 1]);
    }
  }

  lemma {:induction false} WeightsBound(ev: seq<Evidence>, lo: real, hi: real)
    requires PositiveWeights(ev) && RisksWithin(ev, lo, hi)
    ensures Spans(lo, TotalWeight(ev), WeightedRisk(ev), hi)
  {
    if ev != [] {
      var front, last := ev[..|ev| - 1], ev[|ev| - 1];
      assert last in ev;
      WeightsBound(front, lo, hi);
      SpansStep(lo, hi, TotalWeight(front), WeightedRisk(front), last.similarity, last.observedRisk, TotalWeight(ev), WeightedRisk(ev));
    }
  }

  /** The divisor is positive, and the projection lies between any bounds of the risks it cites. */
  lemma ProjectionWithin(ev: seq<Evidence>, lo: real, hi: real)
    requires ev != [] && PositiveWeights(ev) && RisksWithin(ev, lo, hi)
    ensures TotalWeight(ev) > 0.0
    ensures lo <= WeightedRisk(ev) / TotalWeight(ev) <= hi
  {
    TotalPositive(ev);
    WeightsBound(ev, lo, hi);
    QuotientBounds(WeightedRisk(ev), TotalWeight(ev), lo, hi);
  }

  // ---------------------------------------------------------------- tier vote

  function TierWeight(ev: seq<Evidence>, t: Tier): real {
    if ev == [] then 0.0
    else TierWeight(ev[..|ev| - 1], t) + if ev[|ev| - 1].observedTier == t then ev[|ev| - 1].similarity else 0.0
  }

  /** The tiers voted for, in the order they first occur: the key order of the vote dictionary. */
  function TiersSeen(ev: seq<Evidence>): seq<Tier> {
    if ev == [] then []
    else
      var seen, t := TiersSeen(ev[..|ev| - 1]), ev[|ev| - 1].observedTier;
      if t in seen then seen else seen + [t]
  }

  /** `t` carries the greatest weight, and was seen before any tier of equal weight. */
  ghost predicate Wins(ev: seq<Evidence>, t: Tier) {
    var seen := TiersSeen(ev);
    exists k :: 0 <= k < |seen| && seen[k] == t
      && (forall i :: 0 <= i < |seen| ==> TierWeight(ev, seen[i]) <= TierWeight(ev, t))
      && (forall i :: 0 <= i < k ==> TierWeight(ev, seen[i]) < TierWeight(ev, t))
  }

  /** The vote dictionary after counting `ev`. */
  ghost predicate Counted(ev: seq<Evidence>, weights: map<Tier, real>, order: seq<Tier>) {
    && order == TiersSeen(ev)
    && (forall t :: t in order <==> t in weights)
    && (forall t :: t in weights ==> weights[t] == TierWeight(ev, t))
    && (forall t :: t !in weights ==> TierWeight(ev, t) == 0.0)
  }

  lemma CountStep(ev: seq<Evidence>, i: nat, weights: map<Tier, real>, order: seq<Tier>)
    requires i < |ev| && Counted(ev[..i], weights, order)
    ensures var t, w := ev[i].observedTier, ev[i].similarity;
            if t in weights then Counted(ev[..i + 1], weights[t := weights[t] + w], order)
            else Counted(ev[..i + 1], weights[t := 0.0 + w], order + [t])
  {
    var before, after := ev[..i], ev[..i + 1];
    assert after[..|after| - 1] == before && after[|after| - 1] == ev[i];
    forall t ensures TierWeight(after, t) == TierWeight(before, t) + if ev[i].observedTier == t then ev[i].similarity else 0.0 {
    }
  }

  /** The voting loop. */
  method CountVotes(ev: seq<Evidence>) returns (weights: map<Tier, real>, order: seq<Tier>)
    ensures Counted(ev, weights, order)
  {
    weights, order := map[], [];
    for i := 0 to |ev|
      invariant Counted(ev[..i], weights, order)
    {
      CountStep(ev, i, weights, order);
      var t := ev[i].observedTier;
      if t !in weights { order := order + [t]; }
      weights := weights[t := (if t in weights then weights[t] else 0.0) + ev[i].similarity];
    }
    assert ev[..|ev|] == ev;
  }

  /** `max(tier_weights.items(), key=weight)`: the first of the greatest weights. */
  method FirstGreatest(order: seq<Tier>, weights: map<Tier, real>) returns (best: nat)
    requires order != [] && forall i :: 0 <= i < |order| ==> order[i] in weights
    ensures best < |order|
    ensures forall j :: 0 <= j < |order| ==> weights[order[j]] <= weights[order[best]]
    ensures forall j :: 0 <= j < best ==> weights[order[j]] < weights[order[best]]
  {
    best := 0;
    for i := 1 to |order|
      invariant 0 <= best < i
      invariant forall j :: 0 <= j < i ==> weights[order[j]] <= weights[order[best]]
      invariant forall j :: 0 <= j < best ==> weights[order[j]] < weights[order[best]]
    {
      if weights[order[i]] > weights[order[best]] { best := i; }
    }
  }

  method Vote(ev: seq<Evidence>) returns (winner: Tier)
    requires ev != []
    ensures Wins(ev, winner)
  {
    var weights, order := CountVotes(ev);
    var best := FirstGreatest(order, weights);
    winner := order[best];
    assert forall i :: 0 <= i < |order| ==> weights[order[i]] == TierWeight(ev, order[i]);
  }

  /** Conservation: the votes add up to the total evidence weight. */
  lemma {:induction false} VotesAddUp(ev: seq<Evidence>)
    ensures TierWeight(ev, Normal) + TierWeight(ev, Watch) + TierWeight(ev, Elevated) + TierWeight(ev, Critical) == TotalWeight(ev)
  {
    if ev != [] { VotesAddUp(ev[..|ev| - 1]); }
  }

  lemma {:induction false} VoteFacts(ev: seq<Evidence>, t: Tier)
    requires PositiveWeights(ev)
    ensures TierWeight(ev, t) >= 0.0 && (TierWeight(ev, t) > 0.0 <==> t in TiersSeen(ev))
  {
    if ev != [] {
      assert ev[|ev| - 1] in ev;
      VoteFacts(ev[..|ev| - 1], t);
    }
  }

  /** A tier holding more than half the weight is the one projected. */
  lemma MajorityWins(ev: seq<Evidence>, t: Tier, winner: Tier)
    requires PositiveWeights(ev) && Wins(ev, winner) && 2.0 * TierWeight(ev, t) > TotalWeight(ev)
    ensures winner == t
  {
    VotesAddUp(ev);
    VoteFacts(ev, Normal);
    VoteFacts(ev, Watch);
    VoteFacts(ev, Elevated);
    VoteFacts(ev, Critical);
    TotalPositive(ev);
    assert t in TiersSeen(ev);
  }

  // ---------------------------------------------------------------- the forecast

  /** One forecast point, for the evidence its horizon has. */
  ghost predicate IsPoint(matches: seq<TrajectoryMatch>, horizon: int, p: ForecastPoint)
    requires Anchored(matches)
  {
    && p.horizonMinutes == horizon && p.evidence == EvidenceOf(matches, horizon)
    && (if p.evidence == [] then p.projectedRisk.None? && p.projectedTier.None?
        else
          && TotalWeight(p.evidence) > 0.0
          && p.projectedRisk == Some(WeightedRisk(p.evidence) / TotalWeight(p.evidence))
          && p.projectedTier.Some? && Wins(p.evidence, p.projectedTier.value))
  }

  method CollectEvidence(matches: seq<TrajectoryMatch>, horizon: int) returns (evidence: seq<Evidence>)
    requires Anchored(matches)
    ensures evidence == EvidenceOf(matches, horizon)
  {
    evidence := [];
    for i := 0 to |matches|
      invariant evidence == EvidenceOf(matches[..i], horizon)
    {
      assert matches[..i + 1][..i] == matches[..i];
      var item := EvidenceFor(matches[i], horizon);
      if item.None? { continue; }
      evidence := evidence + [item.value];
    }
    assert matches[..|matches|] == matches;
  }

  method SumWeights(evidence: seq<Evidence>) returns (total: real, weighted: real)
    ensures total == TotalWeight(evidence) && weighted == WeightedRisk(evidence)
  {
    total, weighted := 0.0, 0.0;
    for i := 0 to |evidence|
      invariant total == TotalWeight(evidence[..i]) && weighted == WeightedRisk(evidence[..i])
    {
      assert evidence[..i + 1][..i] == evidence[..i];
      total := total + evidence[i].similarity;
      weighted := weighted + evidence[i].observedRisk * evidence[i].similarity;
    }
    assert evidence[..|evidence|] == evidence;
  }

  /** One point per horizon. */
  method GenerateForecast(matches: seq<TrajectoryMatch>, horizons: seq<int>) returns (points: seq<ForecastPoint>)
    requires Anchored(matches)
    ensures |points| == |horizons| && forall i :: 0 <= i < |points| ==> IsPoint(matches, horizons[i], points[i])
  {
    points := [];
    for i := 0 to |horizons|
      invariant |points| == i && forall j :: 0 <= j < i ==> IsPoint(matches, horizons[j], points[j])
    {
      var evidence := CollectEvidence(matches, horizons[i]);
      if evidence == [] {
        points := points + [ForecastPoint(horizons[i], None, None, [])];
        continue;
      }
      TotalPositive(evidence);
      var total, weighted := SumWeights(evidence);
      var winner := Vote(evidence);
      points := points + [ForecastPoint(horizons[i], Some(weighted / total), Some(winner), evidence)];
    }
  }

  // ---------------------------------------------------------------- a point in the matches' own steps

  /** `s` lies at least `horizon` minutes after the anchor of `m`. */
  ghost predicate FarEnough(m: TrajectoryMatch, horizon: int, s: TrajectoryStep)
    requires m.anchorIndex < |m.trajectory.steps|
  {
    s.timestamp >= m.trajectory.steps[m.anchorIndex].timestamp + horizon * 60_000_000
  }

  /** Step `k` of the matched trajectory is the first of the earliest that lie far enough after the anchor. */
  ghost predicate FirstFarEnough(m: TrajectoryMatch, horizon: int, k: nat)
    requires m.anchorIndex < |m.trajectory.steps|
  {
    var steps := m.trajectory.steps;
    && m.anchorIndex < k < |steps| && FarEnough(m, horizon, steps[k])
    && forall j :: m.anchorIndex < j < |steps| && FarEnough(m, horizon, steps[j]) ==>
         if j < k then steps[k].timestamp < steps[j].timestamp else steps[k].timestamp <= steps[j].timestamp
  }

  ghost predicate NeverFarEnough(m: TrajectoryMatch, horizon: int)
    requires m.anchorIndex < |m.trajectory.steps|
  {
    forall k :: m.anchorIndex < k < |m.trajectory.steps| ==> !FarEnough(m, horizon, m.trajectory.steps[k])
  }

  /** `e` says of match `m` what its step `k` observed. */
  ghost predicate Cites(m: TrajectoryMatch, k: nat, e: Evidence)
    requires m.anchorIndex < |m.trajectory.steps|
  {
    var steps := m.trajectory.steps;
    && k < |steps|
    && e.scenarioKey == m.trajectory.scenarioKey && e.zoneId == m.trajectory.zoneId && e.similarity == m.similarity
    && e.observedRisk == steps[k].risk && e.observedTier == steps[k].tier && e.observedTimestamp == steps[k].timestamp
    && e.minutesAfterAnchor * 60_000_000.0 == (steps[k].timestamp - steps[m.anchorIndex].timestamp) as real
  }

  /** The first of the earliest among the steps from `from` on that are at or after `target`. */
  ghost predicate FirstEarliest(steps: seq<TrajectoryStep>, from: nat, target: int, k: nat) {
    && from <= k < |steps| && steps[k].timestamp >= target
    && forall j :: from <= j < |steps| && steps[j].timestamp >= target ==>
         if j < k then steps[k].timestamp < steps[j].timestamp else steps[k].timestamp <= steps[j].timestamp
  }

  /** One more step: it takes over only if it is strictly earlier. */
  lemma FirstEarliestStep(front: seq<TrajectoryStep>, last: TrajectoryStep, from: nat, target: int, k: nat)
    requires FirstEarliest(front, from, target, k)
    ensures FirstEarliest(front + [last], from, target, if target <= last.timestamp < front[k].timestamp then |front| else k)
  {
  }

  lemma FilterLast(front: seq<TrajectoryStep>, last: TrajectoryStep, from: nat, target: int)
    requires from <= |front|
    ensures Filter(AtOrAfter(target), (front + [last])[from..])
         == Filter(AtOrAfter(target), front[from..]) + if last.timestamp >= target then [last] else []
  {
    assert (front + [last])[from..] == front[from..] + [last];
    FilterAppend(AtOrAfter(target), front[from..], [last]);
    assert [last][1..] == [];
  }

  lemma FirstLateStep(front: seq<TrajectoryStep>, last: TrajectoryStep, from: nat, target: int)
    requires from <= |front| && Filter(AtOrAfter(target), front[from..]) == [] && last.timestamp >= target
    ensures FirstEarliest(front + [last], from, target, |front|)
  {
    FilterMembers(AtOrAfter(target), front[from..]);
    forall j | from <= j < |front| ensures front[j].timestamp < target {
      assert front[from..][j - from] !in Filter(AtOrAfter(target), front[from..]);
    }
  }

  lemma {:induction false} EarliestOfFiltered(steps: seq<TrajectoryStep>, from: nat, target: int) returns (k: nat)
    requires from < |steps| && Filter(AtOrAfter(target), steps[from..]) != []
    ensures FirstEarliest(steps, from, target, k) && steps[k] == Earliest(Filter(AtOrAfter(target), steps[from..]))
    decreases |steps|
  {
    var n := |steps| - 1;
    var front, last := steps[..n], steps[n];
    assert steps == front + [last];
    FilterLast(front, last, from, target);
    var before := Filter(AtOrAfter(target), front[from..]);
    if before == [] {
      FirstLateStep(front, last, from, target);
      k := n;
    } else {
      assert front[from..] != [];
      k := EarliestOfFiltered(front, from, target);
      FirstEarliestStep(front, last, from, target, k);
      assert (before + [last])[..|before|] == before && before + [] == before;
      if target <= last.timestamp < front[k].timestamp { k := n; }
    }
  }

  /** Evidence item `e` is what match `m` observed at the horizon. */
  ghost predicate Observes(m: TrajectoryMatch, horizon: int, e: Evidence)
    requires m.anchorIndex < |m.trajectory.steps|
  {
    exists k :: FirstFarEnough(m, horizon, k) && Cites(m, k, e)
  }

  lemma NoneCited(m: TrajectoryMatch, horizon: int)
    requires m.anchorIndex < |m.trajectory.steps|
    ensures EvidenceFor(m, horizon).None? <==> NeverFarEnough(m, horizon)
  {
    var steps, a := m.trajectory.steps, m.anchorIndex;
    var later := steps[a + 1..];
    NearestMeaning(steps, a, steps[a].timestamp + horizon * 60_000_000);
    forall k | a < k < |steps| ensures steps[k] in later {
      assert later[k - a - 1] == steps[k];
    }
  }

  /** The step that a match cites, if it has one. */
  lemma EvidenceCites(m: TrajectoryMatch, horizon: int)
    requires m.anchorIndex < |m.trajectory.steps|
    ensures EvidenceFor(m, horizon).None? <==> NeverFarEnough(m, horizon)
    ensures EvidenceFor(m, horizon).Some? ==> Observes(m, horizon, EvidenceFor(m, horizon).value)
  {
    NoneCited(m, horizon);
    if EvidenceFor(m, horizon).Some? { SomeCited(m, horizon); }
  }

  lemma SomeCited(m: TrajectoryMatch, horizon: int)
    requires m.anchorIndex < |m.trajectory.steps| && EvidenceFor(m, horizon).Some?
    ensures Observes(m, horizon, EvidenceFor(m, horizon).value)
  {
    var steps, a := m.trajectory.steps, m.anchorIndex;
    var target := steps[a].timestamp + horizon * 60_000_000;
    assert Filter(AtOrAfter(target), steps[a + 1..]) != [];
    assert steps[a + 1..] != [];
    var k := EarliestOfFiltered(steps, a + 1, target);
    FirstEarliestIsFirstFar(m, horizon, target, k);
    MinutesCited(steps[k].timestamp - steps[a].timestamp);
    assert Cites(m, k, EvidenceFor(m, horizon).value);
  }

  lemma MinutesCited(d: int)
    ensures Minutes(d) * 60_000_000.0 == d as real
  {
  }

  lemma FirstEarliestIsFirstFar(m: TrajectoryMatch, horizon: int, target: int, k: nat)
    requires m.anchorIndex < |m.trajectory.steps| && target == m.trajectory.steps[m.anchorIndex].timestamp + horizon * 60_000_000
    requires FirstEarliest(m.trajectory.steps, m.anchorIndex + 1, target, k)
    ensures FirstFarEnough(m, horizon, k)
  {
  }

  /** Of the first `n` matches, those listed in `from` have evidence, `ev` in match order, and no others. */
  ghost predicate EvidenceIn(matches: seq<TrajectoryMatch>, n: nat, horizon: int, ev: seq<Evidence>, from: seq<nat>)
    requires Anchored(matches) && n <= |matches|
  {
    && |from| == |ev|
    && (forall i :: 0 <= i < |from| ==> from[i] < n && Observes(matches[from[i]], horizon, ev[i]))
    && (forall i, j :: 0 <= i < j < |from| ==> from[i] < from[j])
    && forall k :: 0 <= k < n ==> (k in from <==> !NeverFarEnough(matches[k], horizon))
  }

  lemma EvidenceInStep(matches: seq<TrajectoryMatch>, n: nat, horizon: int, ev: seq<Evidence>, from: seq<nat>)
    requires Anchored(matches) && n < |matches| && EvidenceIn(matches, n, horizon, ev, from)
    ensures var e := EvidenceFor(matches[n], horizon);
            if e.None? then EvidenceIn(matches, n + 1, horizon, ev, from)
            else EvidenceIn(matches, n + 1, horizon, ev + [e.value], from + [n])
  {
    EvidenceCites(matches[n], horizon);
  }

  lemma {:induction false} EvidenceInFields(matches: seq<TrajectoryMatch>, n: nat, horizon: int) returns (from: seq<nat>)
    requires Anchored(matches) && n <= |matches|
    ensures EvidenceIn(matches, n, horizon, EvidenceOf(matches[..n], horizon), from)
  {
    from := [];
    if n > 0 {
      from := EvidenceInFields(matches, n - 1, horizon);
      EvidenceInStep(matches, n - 1, horizon, EvidenceOf(matches[..n - 1], horizon), from);
      if EvidenceFor(matches[n - 1], horizon).Some? { from := from + [n - 1]; }
      assert matches[..n][..n - 1] == matches[..n - 1];
    }
  }

  /** What each item adds to the weight behind a tier. */
  ghost function Votes(ev: seq<Evidence>, t: Tier): seq<real> {
    seq(|ev|, i requires 0 <= i < |ev| => if ev[i].observedTier == t then ev[i].similarity else 0.0)
  }

  ghost function VoteFor(ev: seq<Evidence>, t: Tier): real { Sum(Votes(ev, t)) }

  ghost function Weights(ev: seq<Evidence>): seq<real> { seq(|ev|, i requires 0 <= i < |ev| => ev[i].similarity) }

  ghost function WeighedRisk(e: Evidence): real { e.observedRisk * e.similarity }

  ghost function WeighedRisks(ev: seq<Evidence>): seq<real> { seq(|ev|, i requires 0 <= i < |ev| => WeighedRisk(ev[i])) }

  lemma {:induction false} WeightsAreSums(ev: seq<Evidence>, t: Tier)
    ensures TotalWeight(ev) == Sum(Weights(ev))
    ensures WeightedRisk(ev) == Sum(WeighedRisks(ev))
    ensures TierWeight(ev, t) == VoteFor(ev, t)
  {
    if ev != [] {
      var front := ev[..|ev| - 1];
      WeightsAreSums(front, t);
      assert Weights(ev)[..|ev| - 1] == Weights(front);
      assert WeighedRisks(ev)[..|ev| - 1] == WeighedRisks(front);
      assert Votes(ev, t)[..|ev| - 1] == Votes(front, t);
    }
  }

  /** `t` is voted for, no tier voted for has more weight, and those first voted for before it have less. */
  ghost predicate Elected(ev: seq<Evidence>, t: Tier) {
    exists k :: 0 <= k < |ev| && ev[k].observedTier == t
      && (forall j :: 0 <= j < |ev| ==> VoteFor(ev, ev[j].observedTier) <= VoteFor(ev, t))
      && (forall j :: 0 <= j < k ==> VoteFor(ev, ev[j].observedTier) < VoteFor(ev, t))
  }

  lemma {:induction false} VotersAreSeen(ev: seq<Evidence>)
    ensures forall j :: 0 <= j < |ev| ==> ev[j].observedTier in TiersSeen(ev)
  {
    if ev != [] {
      var front := ev[..|ev| - 1];
      VotersAreSeen(front);
      forall j | 0 <= j < |front| ensures ev[j].observedTier in TiersSeen(ev) {
        assert front[j].observedTier in TiersSeen(front);
      }
    }
  }

  /** Where the `i`th tier seen was first voted for: only earlier ones were before. */
  lemma {:induction false} FirstVote(ev: seq<Evidence>, i: nat) returns (k: nat)
    requires i < |TiersSeen(ev)|
    ensures k < |ev| && ev[k].observedTier == TiersSeen(ev)[i]
    ensures forall j :: 0 <= j < k ==> ev[j].observedTier in TiersSeen(ev)[..i]
  {
    var n := |ev| - 1;
    var front := ev[..n];
    var seen := TiersSeen(front);
    assert i <= |seen| && TiersSeen(ev)[..i] == seen[..i];
    if i < |seen| {
      k := FirstVote(front, i);
    } else {
      k := n;
      VotersAreSeen(front);
      assert seen[..i] == seen;
    }
    forall j | 0 <= j < k ensures ev[j].observedTier in seen[..i] {
      assert front[j].observedTier in seen[..i];
    }
  }

  lemma WinnerIsElected(ev: seq<Evidence>, t: Tier)
    requires Wins(ev, t)
    ensures Elected(ev, t)
  {
    var seen := TiersSeen(ev);
    forall u ensures TierWeight(ev, u) == VoteFor(ev, u) { WeightsAreSums(ev, u); }
    var i :| 0 <= i < |seen| && seen[i] == t
      && (forall j :: 0 <= j < |seen| ==> TierWeight(ev, seen[j]) <= TierWeight(ev, t))
      && (forall j :: 0 <= j < i ==> TierWeight(ev, seen[j]) < TierWeight(ev, t));
    var k := FirstVote(ev, i);
    VotersAreSeen(ev);
  }

  /** The mean of the observed risks by similarity, and the tier with the most similarity behind it. */
  ghost predicate ProjectedFrom(ev: seq<Evidence>, risk: Option<real>, tier: Option<Tier>) {
    if ev == [] then risk.None? && tier.None?
    else
      && risk.Some? && IsQuotient(Sum(WeighedRisks(ev)), Sum(Weights(ev)), risk.value)
      && tier.Some? && Elected(ev, tier.value)
  }

  lemma ProjectionInFields(ev: seq<Evidence>, risk: real, tier: Tier)
    requires ev != [] && TotalWeight(ev) > 0.0 && risk == WeightedRisk(ev) / TotalWeight(ev) && Wins(ev, tier)
    ensures ProjectedFrom(ev, Some(risk), Some(tier))
  {
    QuotientTimes(WeightedRisk(ev), TotalWeight(ev), risk);
    WeightsAreSums(ev, tier);
    WinnerIsElected(ev, tier);
  }

  /** A forecast point in the matches' own steps: what each match with a late enough step observed there,
      and the projection from that. */
  lemma PointInFields(matches: seq<TrajectoryMatch>, horizon: int, p: ForecastPoint) returns (from: seq<nat>)
    requires Anchored(matches) && IsPoint(matches, horizon, p)
    ensures p.horizonMinutes == horizon && EvidenceIn(matches, |matches|, horizon, p.evidence, from)
    ensures ProjectedFrom(p.evidence, p.projectedRisk, p.projectedTier)
  {
    from := EvidenceInFields(matches, |matches|, horizon);
    assert matches[..|matches|] == matches;
    if p.evidence != [] { ProjectionInFields(p.evidence, p.projectedRisk.value, p.projectedTier.value); }
  }
}
