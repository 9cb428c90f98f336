/** Trajectories and `match_trajectories`: for every historical candidate, the anchor whose
    trailing window lies closest to the current one, then the most similar candidates. The
    per-step distance is any non-negative function of two feature vectors. */
module Trajectories {
  import opened Common
  import opened Measures
  import opened StableSort
  import opened Tiers

  datatype FeatureVector = FeatureVector(components: seq<real>)

  /** Timestamps count microseconds. */
  datatype TrajectoryStep = TrajectoryStep(timestamp: int, features: FeatureVector, risk: real, tier: Tier)

  datatype Trajectory = Trajectory(scenarioKey: string, zoneId: string, steps: seq<TrajectoryStep>)

  datatype TrajectoryMatch = TrajectoryMatch(trajectory: Trajectory, anchorIndex: nat, similarity: real, windowLength: nat)

  type Distance = (FeatureVector, FeatureVector) -> real

  ghost predicate NonNegative(distance: Distance) {
    forall a, b :: distance(a, b) >= 0.0
  }

  /** The last `n` steps, or all of them if there are fewer. */
  function Window(t: Trajectory, n: int): seq<TrajectoryStep> {
    if n <= 0 then [] else t.steps[Max(0, |t.steps| - n)..]
  }

  /** The strict zip requires slices of equal length; every call below supplies them. */
  function SumDistance(distance: Distance, a: seq<TrajectoryStep>, b: seq<TrajectoryStep>): real
    requires |a| == |b|
  {
    if a == [] then 0.0 else distance(a[0].features, b[0].features) + SumDistance(distance, a[1..], b[1..])
  }

  /** How many steps are compared when the window is aligned at `anchor`. */
  function Compared(window: seq<TrajectoryStep>, anchor: nat): nat { Min(|window|, anchor + 1) }

  /** `_windowed_distance`: mean distance and number of steps compared. */
  function WindowedDistance(distance: Distance, window: seq<TrajectoryStep>, steps: seq<TrajectoryStep>, anchor: nat): (r: (real, nat))
    requires anchor < |steps|
    ensures r.1 == 0 <==> window == []
  {
    var n := Compared(window, anchor);
    if n == 0 then (0.0, 0)
    else
      var alignedCurrent := window[|window| - n..];
      var alignedCandidate := steps[anchor - n + 1..anchor + 1];
      (SumDistance(distance, alignedCurrent, alignedCandidate) / n as real, n)
  }

  /** Aligned at a candidate's very first step, one step is compared. */
  lemma FirstStepIsCompared(distance: Distance, s: TrajectoryStep, steps: seq<TrajectoryStep>)
    requires steps != []
    ensures WindowedDistance(distance, [s], steps, 0) == (distance(s.features, steps[0].features), 1)
  {
    assert [s][1 - 1..] == [s] && steps[0..1] == [steps[0]];
    assert SumDistance(distance, [s][1..], [steps[0]][1..]) == 0.0;
  }

  /** The mean distance of the aligned windows. */
  function Mean(distance: Distance, window: seq<TrajectoryStep>, steps: seq<TrajectoryStep>, anchor: nat): real
    requires anchor < |steps|
  {
    WindowedDistance(distance, window, steps, anchor).0
  }

  lemma {:induction false} SumDistanceNonNegative(distance: Distance, a: seq<TrajectoryStep>, b: seq<TrajectoryStep>)
    requires NonNegative(distance) && |a| == |b|
    ensures SumDistance(distance, a, b) >= 0.0
  {
    if a != [] { SumDistanceNonNegative(distance, a[1..], b[1..]); }
  }

  lemma MeanNonNegative(distance: Distance, window: seq<TrajectoryStep>, steps: seq<TrajectoryStep>, anchor: nat)
    requires NonNegative(distance) && anchor < |steps|
    ensures Mean(distance, window, steps, anchor) >= 0.0
  {
    var n := Compared(window, anchor);
    if n > 0 {
      SumDistanceNonNegative(distance, window[|window| - n..], steps[anchor - n + 1..anchor + 1]);
    }
  }

  /** `anchor` is the first of the anchors with the least mean distance. */
  ghost predicate FirstMinimiser(distance: Distance, window: seq<TrajectoryStep>, steps: seq<TrajectoryStep>, limit: nat, anchor: nat) {
    && anchor < limit <= |steps|
    && (forall b :: 0 <= b < limit ==> Mean(distance, window, steps, anchor) <= Mean(distance, window, steps, b))
    && (forall b :: 0 <= b < anchor ==> Mean(distance, window, steps, anchor) < Mean(distance, window, steps, b))
  }

  /** The best anchor among the first `limit`, as the loop keeps it. */
  ghost predicate BestSoFar(distance: Distance, window: seq<TrajectoryStep>, steps: seq<TrajectoryStep>, limit: nat, best: Option<(nat, real, nat)>)
    requires limit <= |steps|
  {
    && (best.None? <==> window == [] || limit == 0)
    && (best.Some? ==>
          && FirstMinimiser(distance, window, steps, limit, best.value.0)
          && best.value.1 == Mean(distance, window, steps, best.value.0)
          && best.value.2 == Compared(window, best.value.0))
  }

  /** One anchor weighed against the best so far; an absent best stands for infinite distance. */
  function Better(best: Option<(nat, real, nat)>, anchor: nat, meanDistance: real, nCompared: nat): Option<(nat, real, nat)> {
    if nCompared == 0 then best
    else if best.None? || meanDistance < best.value.1 then Some((anchor, meanDistance, nCompared))
    else best
  }

  lemma MinimiserStep(distance: Distance, window: seq<TrajectoryStep>, steps: seq<TrajectoryStep>, limit: nat, anchor: nat)
    requires limit < |steps| && FirstMinimiser(distance, window, steps, limit, anchor)
    ensures FirstMinimiser(distance, window, steps, limit + 1,
              if Mean(distance, window, steps, limit) < Mean(distance, window, steps, anchor) then limit else anchor)
  {
  }

  lemma BetterStep(distance: Distance, window: seq<TrajectoryStep>, steps: seq<TrajectoryStep>, anchor: nat, best: Option<(nat, real, nat)>)
    requires anchor < |steps| && BestSoFar(distance, window, steps, anchor, best)
    ensures var (d, n) := WindowedDistance(distance, window, steps, anchor);
            BestSoFar(distance, window, steps, anchor + 1, Better(best, anchor, d, n))
  {
    if best.Some? { MinimiserStep(distance, window, steps, anchor, best.value.0); }
  }

  /** The loop over anchors of one candidate, from an infinite best distance. */
  method BestAnchor(distance: Distance, window: seq<TrajectoryStep>, steps: seq<TrajectoryStep>) returns (best: Option<(nat, real, nat)>)
    ensures BestSoFar(distance, window, steps, |steps|, best)
  {
    best := None;
    for anchor := 0 to |steps|
      invariant BestSoFar(distance, window, steps, anchor, best)
    {
      BetterStep(distance, window, steps, anchor, best);
      var (meanDistance, nCompared) := WindowedDistance(distance, window, steps, anchor);
      best := Better(best, anchor, meanDistance, nCompared);
    }
  }

  function Similarity(distance: real): real
    requires distance >= 0.0
  {
    1.0 / (1.0 + distance)
  }

  /** The match a candidate earns. */
  ghost predicate IsBestMatch(distance: Distance, window: seq<TrajectoryStep>, candidate: Trajectory, m: TrajectoryMatch) {
    && m.trajectory == candidate
    && FirstMinimiser(distance, window, candidate.steps, |candidate.steps|, m.anchorIndex)
    && m.windowLength == Compared(window, m.anchorIndex)
    && var d := Mean(distance, window, candidate.steps, m.anchorIndex); d >= 0.0 && m.similarity == Similarity(d)
  }

  /** Candidates other than the current trajectory itself that have at least one step. */
  predicate Eligible(current: Trajectory, t: Trajectory) {
    !(t.scenarioKey == current.scenarioKey && t.zoneId == current.zoneId) && t.steps != []
  }

  function IsEligible(current: Trajectory): Trajectory -> bool { (t: Trajectory) => Eligible(current, t) }

  function EligibleOf(current: Trajectory, candidates: seq<Trajectory>): seq<Trajectory> {
    Filter(IsEligible(current), candidates)
  }

  /** One best match per eligible candidate, in candidate order. */
  ghost predicate MatchesOf(distance: Distance, window: seq<TrajectoryStep>, eligible: seq<Trajectory>, all: seq<TrajectoryMatch>) {
    |all| == |eligible| && forall i :: 0 <= i < |all| ==> IsBestMatch(distance, window, eligible[i], all[i])
  }

  const MoreSimilar: (TrajectoryMatch, TrajectoryMatch) -> bool :=
    (a: TrajectoryMatch, b: TrajectoryMatch) => a.similarity >= b.similarity

  /** Every match considered, before sorting and truncation. */
  method CollectMatches(distance: Distance, current: Trajectory, candidates: seq<Trajectory>, window: seq<TrajectoryStep>)
    returns (matches: seq<TrajectoryMatch>)
    requires NonNegative(distance) && window != []
    ensures MatchesOf(distance, window, EligibleOf(current, candidates), matches)
  {
    matches := [];
    for i := 0 to |candidates|
      invariant MatchesOf(distance, window, EligibleOf(current, candidates[..i]), matches)
    {
      var t := candidates[i];
      EligibleStep(current, candidates, i);
      if t.scenarioKey == current.scenarioKey && t.zoneId == current.zoneId { continue; }
      var best := BestAnchor(distance, window, t.steps);
      if best.Some? {
        var (anchor, d, n) := best.value;
        MeanNonNegative(distance, window, t.steps, anchor);
        matches := matches + [TrajectoryMatch(t, anchor, Similarity(d), n)];
      }
    }
    assert candidates[..|candidates|] == candidates;
  }

  lemma EligibleStep(current: Trajectory, candidates: seq<Trajectory>, i: nat)
    requires i < |candidates|
    ensures EligibleOf(current, candidates[..i + 1])
         == EligibleOf(current, candidates[..i]) + if Eligible(current, candidates[i]) then [candidates[i]] else []
  {
    assert candidates[..i + 1] == candidates[..i] + [candidates[i]];
    FilterAppend(IsEligible(current), candidates[..i], [candidates[i]]);
    assert [candidates[i]][1..] == [];
  }

  /** The eligible candidates' best matches, most similar first, ties in candidate order, cut to
      `topN` as a Python slice cuts; nothing for an empty window. */
  ghost predicate TopMatches(distance: Distance, current: Trajectory, candidates: seq<Trajectory>, windowSize: int, topN: int,
                             r: seq<TrajectoryMatch>) {
    var window := Window(current, windowSize);
    if window == [] then r == []
    else exists all :: MatchesOf(distance, window, EligibleOf(current, candidates), all) && r == PrefixSlice(Sort(MoreSimilar, all), topN)
  }

  /** The whole function. */
  method MatchTrajectories(distance: Distance, current: Trajectory, candidates: seq<Trajectory>, windowSize: int, topN: int)
    returns (r: seq<TrajectoryMatch>)
    requires NonNegative(distance)
    ensures TopMatches(distance, current, candidates, windowSize, topN, r)
  {
    var window := Window(current, windowSize);
    if window == [] { return []; }
    var matches := CollectMatches(distance, current, candidates, window);
    r := PrefixSlice(Sort(MoreSimilar, matches), topN);
  }

  /** The result is determined by the inputs. */
  lemma TopMatchesUnique(distance: Distance, current: Trajectory, candidates: seq<Trajectory>, windowSize: int, topN: int,
                         r: seq<TrajectoryMatch>, r': seq<TrajectoryMatch>)
    requires TopMatches(distance, current, candidates, windowSize, topN, r)
    requires TopMatches(distance, current, candidates, windowSize, topN, r')
    ensures r == r'
  {
    var window, eligible := Window(current, windowSize), EligibleOf(current, candidates);
    if window != [] {
      var all :| MatchesOf(distance, window, eligible, all) && r == PrefixSlice(Sort(MoreSimilar, all), topN);
      var all' :| MatchesOf(distance, window, eligible, all') && r' == PrefixSlice(Sort(MoreSimilar, all'), topN);
      MatchesUnique(distance, window, eligible, all, all');
    }
  }

  lemma MatchesUnique(distance: Distance, window: seq<TrajectoryStep>, eligible: seq<Trajectory>, all: seq<TrajectoryMatch>, all': seq<TrajectoryMatch>)
    requires MatchesOf(distance, window, eligible, all) && MatchesOf(distance, window, eligible, all')
    ensures all == all'
  {
    forall i | 0 <= i < |all| ensures all[i] == all'[i] {
      BestMatchUnique(distance, window, eligible[i], all[i], all'[i]);
    }
  }

  /** What every later stage needs of a match. */
  predicate ValidMatch(m: TrajectoryMatch) {
    m.anchorIndex < |m.trajectory.steps| && 0.0 < m.similarity <= 1.0
  }

  lemma BestMatchIsValid(distance: Distance, window: seq<TrajectoryStep>, candidate: Trajectory, m: TrajectoryMatch)
    requires IsBestMatch(distance, window, candidate, m)
    ensures ValidMatch(m)
  {
    SimilarityBounds(Mean(distance, window, candidate.steps, m.anchorIndex));
  }

  lemma SimilarityBounds(d: real)
    requires d >= 0.0
    ensures 0.0 < Similarity(d) <= 1.0
  {
    var s := Similarity(d);
    assert s * (1.0 + d) == 1.0;
    assert s > 0.0;
    assert s * d >= 0.0;
  }

  /** A candidate earns exactly one match. */
  lemma BestMatchUnique(distance: Distance, window: seq<TrajectoryStep>, candidate: Trajectory, m: TrajectoryMatch, m': TrajectoryMatch)
    requires IsBestMatch(distance, window, candidate, m) && IsBestMatch(distance, window, candidate, m')
    ensures m == m'
  {
    assert m.anchorIndex == m'.anchorIndex;
  }

  lemma SimilarityOrder()
    ensures TotalPreorder(MoreSimilar)
  {
  }

  /** The result is in descending similarity, all its matches are valid, and no match left out is
      more similar than one kept. */
  lemma KeepsTheMostSimilar(distance: Distance, window: seq<TrajectoryStep>, eligible: seq<Trajectory>, all: seq<TrajectoryMatch>, topN: int)
    requires MatchesOf(distance, window, eligible, all)
    ensures var sorted := Sort(MoreSimilar, all);
            var n := |PrefixSlice(sorted, topN)|;
            && n <= |sorted| && PrefixSlice(sorted, topN) == sorted[..n]
            && multiset(sorted[..n]) + multiset(sorted[n..]) == multiset(all)
            && Sorted(MoreSimilar, sorted[..n])
            && forall i, j :: 0 <= i < n <= j < |sorted| ==> sorted[i].similarity >= sorted[j].similarity
    ensures forall m :: m in PrefixSlice(Sort(MoreSimilar, all), topN) ==> ValidMatch(m)
  {
    var sorted := Sort(MoreSimilar, all);
    var n := |PrefixSlice(sorted, topN)|;
    SimilarityOrder();
    SortCut(MoreSimilar, all, n);
    forall i, j | 0 <= i < n <= j < |sorted| ensures sorted[i].similarity >= sorted[j].similarity {
      assert MoreSimilar(sorted[i], sorted[j]);
    }
    forall m | m in PrefixSlice(sorted, topN) ensures ValidMatch(m) {
      assert m in sorted[..n];
      ValidMember(distance, window, eligible, all, m);
    }
  }

  lemma ValidMember(distance: Distance, window: seq<TrajectoryStep>, eligible: seq<Trajectory>, all: seq<TrajectoryMatch>, m: TrajectoryMatch)
    requires MatchesOf(distance, window, eligible, all) && m in all
    ensures ValidMatch(m)
  {
    var i :| 0 <= i < |all| && all[i] == m;
    BestMatchIsValid(distance, window, eligible[i], m);
  }

  // ---------------------------------------------------------------- the result in the trajectories' own steps

  /** The distances between the last `n` steps of `a` and the `n` steps of `b` that end at `anchor`. */
  ghost function StepDistances(distance: Distance, a: seq<TrajectoryStep>, b: seq<TrajectoryStep>, anchor: nat, n: nat): seq<real>
    requires n <= |a| && n <= anchor + 1 && anchor < |b|
  {
    seq(n, k requires 0 <= k < n => distance(a[|a| - n + k].features, b[anchor - n + 1 + k].features))
  }

  lemma {:induction false} SumOfZip(distance: Distance, a: seq<TrajectoryStep>, b: seq<TrajectoryStep>)
    requires |a| == |b|
    ensures SumDistance(distance, a, b) == Sum(seq(|a|, k requires 0 <= k < |a| => distance(a[k].features, b[k].features)))
  {
    var all := seq(|a|, k requires 0 <= k < |a| => distance(a[k].features, b[k].features));
    if a != [] {
      SumOfZip(distance, a[1..], b[1..]);
      assert all[1..] == seq(|a[1..]|, k requires 0 <= k < |a[1..]| => distance(a[1..][k].features, b[1..][k].features));
      SumFirst(all);
    }
  }

  /** The mean distance at an anchor is that of the min(window, anchor + 1) step pairs that end together. */
  lemma MeanOfPairs(distance: Distance, window: seq<TrajectoryStep>, steps: seq<TrajectoryStep>, anchor: nat)
    requires anchor < |steps| && window != []
    ensures var n := if |window| < anchor + 1 then |window| else anchor + 1;
            Mean(distance, window, steps, anchor) == Sum(StepDistances(distance, window, steps, anchor, n)) / n as real
  {
    var n := Compared(window, anchor);
    var a, b := window[|window| - n..], steps[anchor - n + 1..anchor + 1];
    SumOfZip(distance, a, b);
    assert seq(|a|, k requires 0 <= k < |a| => distance(a[k].features, b[k].features)) == StepDistances(distance, window, steps, anchor, n);
  }

  /** `d` is the mean distance of `m`'s alignment with `window`, in the steps themselves. */
  ghost predicate AlignedAt(distance: Distance, window: seq<TrajectoryStep>, steps: seq<TrajectoryStep>, anchor: nat, d: real) {
    && anchor < |steps| && window != []
    && var n := if |window| < anchor + 1 then |window| else anchor + 1;
       d == Sum(StepDistances(distance, window, steps, anchor, n)) / n as real
  }

  lemma AlignedMean(distance: Distance, window: seq<TrajectoryStep>, steps: seq<TrajectoryStep>, anchor: nat, d: real)
    requires window != []
    ensures AlignedAt(distance, window, steps, anchor, d) <==> anchor < |steps| && d == Mean(distance, window, steps, anchor)
  {
    if anchor < |steps| { MeanOfPairs(distance, window, steps, anchor); }
  }

  /** `d`, reached at `anchor`, is least, and less than at every earlier anchor. */
  ghost predicate FirstLeast(distance: Distance, window: seq<TrajectoryStep>, steps: seq<TrajectoryStep>, anchor: nat, d: real) {
    forall b: nat, e :: AlignedAt(distance, window, steps, b, e) ==> if b < anchor then d < e else d <= e
  }

  ghost predicate SimilarAt(similarity: real, d: real) { similarity * (1.0 + d) == 1.0 }

  lemma SimilarityTimes(d: real)
    requires d >= 0.0
    ensures SimilarAt(Similarity(d), d)
  {
  }

  /** What a match says: its anchor is the first of those with the least mean distance, its length the
      number of pairs compared, its similarity s such that s (1 + d) = 1. */
  ghost predicate MatchInSteps(distance: Distance, window: seq<TrajectoryStep>, m: TrajectoryMatch) {
    && m.windowLength == (if |window| < m.anchorIndex + 1 then |window| else m.anchorIndex + 1)
    && exists d :: AlignedAt(distance, window, m.trajectory.steps, m.anchorIndex, d) && SimilarAt(m.similarity, d)
         && FirstLeast(distance, window, m.trajectory.steps, m.anchorIndex, d)
  }

  lemma MinimiserIsFirstLeast(distance: Distance, window: seq<TrajectoryStep>, steps: seq<TrajectoryStep>, anchor: nat)
    requires window != [] && FirstMinimiser(distance, window, steps, |steps|, anchor)
    ensures FirstLeast(distance, window, steps, anchor, Mean(distance, window, steps, anchor))
  {
    var d := Mean(distance, window, steps, anchor);
    forall b: nat, e | AlignedAt(distance, window, steps, b, e) ensures if b < anchor then d < e else d <= e {
      AlignedMean(distance, window, steps, b, e);
    }
  }

  lemma BestMatchInSteps(distance: Distance, window: seq<TrajectoryStep>, candidate: Trajectory, m: TrajectoryMatch)
    requires IsBestMatch(distance, window, candidate, m) && window != []
    ensures MatchInSteps(distance, window, m)
  {
    var d := Mean(distance, window, candidate.steps, m.anchorIndex);
    AlignedMean(distance, window, candidate.steps, m.anchorIndex, d);
    MinimiserIsFirstLeast(distance, window, candidate.steps, m.anchorIndex);
    SimilarityTimes(d);
  }

  /** The window is the current trajectory's latest steps. */
  ghost predicate LatestSteps(current: Trajectory, windowSize: int, window: seq<TrajectoryStep>) {
    && (windowSize <= 0 ==> window == [])
    && (0 < windowSize <= |current.steps| ==> |window| == windowSize)
    && (windowSize >= |current.steps| && windowSize > 0 ==> window == current.steps)
    && |window| <= |current.steps|
    && forall k :: 0 <= k < |window| ==> window[k] == current.steps[|current.steps| - |window| + k]
  }

  /** The candidates that can match: with steps, and not the current zone of the current scenario. */
  ghost predicate CanMatch(current: Trajectory, t: Trajectory) {
    t.steps != [] && (t.scenarioKey != current.scenarioKey || t.zoneId != current.zoneId)
  }

  /** How many of `n` matches a Python slice up to `topN` keeps. */
  ghost predicate KeptCount(n: nat, topN: int, k: nat) {
    if topN >= 0 then k == (if topN < n then topN else n) else k == (if n + topN > 0 then n + topN else 0)
  }

  /** A match of one of the candidates, with the latest steps. */
  ghost predicate MatchesLatest(distance: Distance, current: Trajectory, candidates: seq<Trajectory>, windowSize: int, m: TrajectoryMatch) {
    && m.trajectory in candidates && CanMatch(current, m.trajectory)
    && exists window :: LatestSteps(current, windowSize, window) && MatchInSteps(distance, window, m)
  }

  /** What the result holds: each match is of an eligible candidate and says what it should of the
      latest steps, and they stand in descending similarity. */
  lemma TopMatchesInSteps(distance: Distance, current: Trajectory, candidates: seq<Trajectory>, windowSize: int, topN: int, r: seq<TrajectoryMatch>)
    requires TopMatches(distance, current, candidates, windowSize, topN, r)
    ensures windowSize <= 0 || current.steps == [] ==> r == []
    ensures forall m :: m in r ==> MatchesLatest(distance, current, candidates, windowSize, m)
    ensures forall i, j :: 0 <= i < j < |r| ==> r[i].similarity >= r[j].similarity
    ensures windowSize > 0 && current.steps != [] ==> KeptCount(|EligibleOf(current, candidates)|, topN, |r|)
  {
    var window, eligible := Window(current, windowSize), EligibleOf(current, candidates);
    WindowIsLatest(current, windowSize);
    if window != [] {
      var all :| MatchesOf(distance, window, eligible, all) && r == PrefixSlice(Sort(MoreSimilar, all), topN);
      MostSimilarFirst(all, topN);
      forall m | m in r ensures MatchesLatest(distance, current, candidates, windowSize, m) {
        KeptMatchInSteps(distance, window, current, candidates, windowSize, all, m);
      }
    }
  }

  lemma WindowIsLatest(current: Trajectory, windowSize: int)
    ensures LatestSteps(current, windowSize, Window(current, windowSize))
  {
  }

  lemma MostSimilarFirst(all: seq<TrajectoryMatch>, topN: int)
    ensures var r := PrefixSlice(Sort(MoreSimilar, all), topN);
            && KeptCount(|all|, topN, |r|)
            && (forall m :: m in r ==> m in all)
            && forall i, j :: 0 <= i < j < |r| ==> r[i].similarity >= r[j].similarity
  {
    var sorted := Sort(MoreSimilar, all);
    var r := PrefixSlice(sorted, topN);
    SimilarityOrder();
    SortSorts(MoreSimilar, all);
    SortPermutes(MoreSimilar, all);
    assert forall m :: m in r ==> m in sorted;
    forall i, j | 0 <= i < j < |r| ensures r[i].similarity >= r[j].similarity {
      assert MoreSimilar(sorted[i], sorted[j]);
    }
  }

  lemma KeptMatchInSteps(distance: Distance, window: seq<TrajectoryStep>, current: Trajectory, candidates: seq<Trajectory>, windowSize: int,
                         all: seq<TrajectoryMatch>, m: TrajectoryMatch)
    requires LatestSteps(current, windowSize, window) && window != []
    requires MatchesOf(distance, window, EligibleOf(current, candidates), all) && m in all
    ensures MatchesLatest(distance, current, candidates, windowSize, m)
  {
    var eligible := EligibleOf(current, candidates);
    var i :| 0 <= i < |all| && all[i] == m;
    assert eligible[i] in eligible;
    FilterMembers(IsEligible(current), candidates);
    BestMatchInSteps(distance, window, eligible[i], m);
  }

  /** Every candidate that can match is considered, and no other, in candidate order. */
  lemma {:induction false} EligibleExactly(current: Trajectory, candidates: seq<Trajectory>)
    ensures forall t :: t in EligibleOf(current, candidates) <==> t in candidates && CanMatch(current, t)
    ensures candidates != [] ==>
              var first := if CanMatch(current, candidates[0]) then [candidates[0]] else [];
              EligibleOf(current, candidates) == first + EligibleOf(current, candidates[1..])
  {
    FilterMembers(IsEligible(current), candidates);
  }

  /** Only the latest steps count: older ones in front of a full window change nothing. */
  lemma OlderStepsChangeNothing(distance: Distance, current: Trajectory, older: seq<TrajectoryStep>, candidates: seq<Trajectory>, windowSize: int,
                                topN: int, r: seq<TrajectoryMatch>)
    requires 0 < windowSize <= |current.steps|
    ensures TopMatches(distance, current, candidates, windowSize, topN, r)
       <==> TopMatches(distance, current.(steps := older + current.steps), candidates, windowSize, topN, r)
  {
    var longer := current.(steps := older + current.steps);
    assert Window(longer, windowSize) == Window(current, windowSize);
    forall t ensures IsEligible(current)(t) == IsEligible(longer)(t) {
    }
    SameFilter(IsEligible(current), IsEligible(longer), candidates);
  }

  lemma {:induction false} SameFilter<T(!new)>(p: T -> bool, q: T -> bool, s: seq<T>)
    requires forall x :: p(x) == q(x)
    ensures Filter(p, s) == Filter(q, s)
  {
    if s != [] { SameFilter(p, q, s[1..]); }
  }

  /** With at most `windowSize` steps, all of them are the window: a larger window changes nothing. */
  lemma ShortTrajectoryIsTheWindow(distance: Distance, current: Trajectory, candidates: seq<Trajectory>, windowSize: int, topN: int,
                                   r: seq<TrajectoryMatch>)
    requires windowSize >= |current.steps| && current.steps != []
    ensures TopMatches(distance, current, candidates, windowSize, topN, r)
       <==> (exists all :: MatchesOf(distance, current.steps, EligibleOf(current, candidates), all) && r == PrefixSlice(Sort(MoreSimilar, all), topN))
  {
    assert Window(current, windowSize) == current.steps;
  }
}
