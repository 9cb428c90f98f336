/** The tiering state machine: asymmetric hysteresis with dwell. Every statement is over arbitrary
    score sequences and, unless it says otherwise, arbitrary configurations. */
module Tiering {
  import opened Common
  import opened Tiers

  datatype Config = Config(watch: real, elevated: real, critical: real, margin: real, dwell: int)

  const DEFAULT_CONFIG := Config(40.0, 65.0, 85.0, 10.0, 2)

  datatype TierState = TierState(current: Tier, entryThreshold: real, pending: Option<Tier>, pendingTicks: nat)

  const INITIAL := TierState(Normal, 0.0, None, 0)

  function ThresholdFor(t: Tier, cfg: Config): real {
    match t
    case Normal => 0.0
    case Watch => cfg.watch
    case Elevated => cfg.elevated
    case Critical => cfg.critical
  }

  /** The band of a raw score, without hysteresis or dwell. */
  function RawBand(score: real, cfg: Config): Tier {
    if score >= cfg.critical then Critical
    else if score >= cfg.elevated then Elevated
    else if score >= cfg.watch then Watch
    else Normal
  }

  /** The tier this score argues for, if it argues for a change. */
  function Candidate(s: TierState, score: real, cfg: Config): Option<Tier> {
    var band := RawBand(score, cfg);
    if Rank(band) > Rank(s.current) then Some(band)
    else if Rank(band) < Rank(s.current) && score <= s.entryThreshold - cfg.margin then Some(band)
    else None
  }

  function Transition(s: TierState, score: real, cfg: Config): TierState {
    var candidate := Candidate(s, score, cfg);
    if candidate.None? then TierState(s.current, s.entryThreshold, None, 0)
    else
      var ticks := if s.pending == candidate then s.pendingTicks + 1 else 1;
      if ticks >= cfg.dwell then TierState(candidate.value, ThresholdFor(candidate.value, cfg), None, 0)
      else TierState(s.current, s.entryThreshold, candidate, ticks)
  }

  /** The state after a run of scores. */
  function Run(s: TierState, scores: seq<real>, cfg: Config): TierState {
    if scores == [] then s else Transition(Run(s, scores[..|scores| - 1], cfg), scores[|scores| - 1], cfg)
  }

  lemma RunStep(s: TierState, scores: seq<real>, k: nat, cfg: Config)
    requires k < |scores|
    ensures Run(s, scores[..k + 1], cfg) == Transition(Run(s, scores[..k], cfg), scores[k], cfg)
  {
    assert scores[..k + 1][..k] == scores[..k];
  }

  // ---------------------------------------------------------------- what every transition keeps

  /** The entry threshold is the current tier's own, and a pending tier differs from the current
      one and has not yet dwelt long enough. */
  ghost predicate Consistent(s: TierState, cfg: Config) {
    && s.entryThreshold == ThresholdFor(s.current, cfg)
    && (s.pending.None? <==> s.pendingTicks == 0)
    && (s.pending.Some? ==> s.pending.value != s.current && s.pendingTicks < cfg.dwell)
  }

  lemma TransitionKeeps(s: TierState, score: real, cfg: Config)
    requires Consistent(s, cfg)
    ensures Consistent(Transition(s, score, cfg), cfg)
  {
  }

  lemma {:induction false} RunKeeps(s: TierState, scores: seq<real>, cfg: Config)
    requires Consistent(s, cfg)
    ensures Consistent(Run(s, scores, cfg), cfg)
  {
    if scores != [] {
      RunKeeps(s, scores[..|scores| - 1], cfg);
      TransitionKeeps(Run(s, scores[..|scores| - 1], cfg), scores[|scores| - 1], cfg);
    }
  }

  // ---------------------------------------------------------------- dwell

  /** Each of the ticks lo..hi found the zone at `tier` and argued for `goal`. */
  ghost predicate ArguedFor(scores: seq<real>, lo: int, hi: int, tier: Tier, goal: Tier, cfg: Config) {
    0 <= lo <= hi <= |scores|
    && forall k :: lo <= k < hi ==>
         Run(INITIAL, scores[..k], cfg).current == tier && Candidate(Run(INITIAL, scores[..k], cfg), scores[k], cfg) == Some(goal)
  }

  lemma ArguedStep(scores: seq<real>, lo: int, n: nat, tier: Tier, goal: Tier, cfg: Config)
    requires n < |scores| && ArguedFor(scores[..n], lo, n, tier, goal, cfg)
    requires Run(INITIAL, scores[..n], cfg).current == tier && Candidate(Run(INITIAL, scores[..n], cfg), scores[n], cfg) == Some(goal)
    ensures ArguedFor(scores[..n + 1], lo, n + 1, tier, goal, cfg)
  {
    var before, after := scores[..n], scores[..n + 1];
    forall k | lo <= k < n + 1
      ensures Run(INITIAL, after[..k], cfg).current == tier && Candidate(Run(INITIAL, after[..k], cfg), after[k], cfg) == Some(goal)
    {
      assert after[..k] == scores[..k];
      if k < n { assert before[..k] == scores[..k] && before[k] == scores[k]; }
    }
  }

  /** The pending counter counts consecutive ticks that argued for the pending tier. */
  lemma {:induction false} PendingMeaning(scores: seq<real>, cfg: Config)
    ensures var s := Run(INITIAL, scores, cfg);
            s.pending.Some? ==> ArguedFor(scores, |scores| - s.pendingTicks, |scores|, s.current, s.pending.value, cfg)
  {
    if scores != [] {
      var n := |scores| - 1;
      var before, last := Run(INITIAL, scores[..n], cfg), scores[n];
      PendingMeaning(scores[..n], cfg);
      RunKeeps(INITIAL, scores[..n], cfg);
      assert scores[..n + 1] == scores;
      var s := Run(INITIAL, scores, cfg);
      if s.pending.Some? {
        if s.pendingTicks == 1 {
          assert ArguedFor(scores[..n], n, n, s.current, s.pending.value, cfg);
        }
        ArguedStep(scores, |scores| - s.pendingTicks, n, s.current, s.pending.value, cfg);
      }
    }
  }

  function Dwell(cfg: Config): nat { Max(1, cfg.dwell) }

  /** No tier change without dwell: a change at the last tick means that the last `dwell` ticks all
      found the zone at the old tier and all argued for the new one. */
  lemma ChangeNeedsDwell(scores: seq<real>, cfg: Config)
    requires scores != []
    requires Run(INITIAL, scores, cfg).current != Run(INITIAL, scores[..|scores| - 1], cfg).current
    ensures ArguedFor(scores, |scores| - Dwell(cfg), |scores|,
                      Run(INITIAL, scores[..|scores| - 1], cfg).current, Run(INITIAL, scores, cfg).current, cfg)
  {
    var n := |scores| - 1;
    var before, goal := Run(INITIAL, scores[..n], cfg), Run(INITIAL, scores, cfg).current;
    PendingMeaning(scores[..n], cfg);
    RunKeeps(INITIAL, scores[..n], cfg);
    assert scores[..n + 1] == scores;
    if Dwell(cfg) == 1 {
      assert ArguedFor(scores[..n], n, n, before.current, goal, cfg);
    }
    ArguedStep(scores, |scores| - Dwell(cfg), n, before.current, goal, cfg);
  }

  /** While the zone has not moved, the counter keeps up with the ticks that argue for `goal`. */
  lemma {:induction false} PendingKeepsUp(scores: seq<real>, lo: nat, hi: nat, k: nat, tier: Tier, goal: Tier, cfg: Config)
    requires ArguedFor(scores, lo, hi, tier, goal, cfg) && lo < k < hi
    ensures var s := Run(INITIAL, scores[..k], cfg); s.pending == Some(goal) && s.pendingTicks >= k - lo
    decreases k
  {
    RunStep(INITIAL, scores, k - 1, cfg);
    if k - 1 > lo { PendingKeepsUp(scores, lo, hi, k - 1, tier, goal, cfg); }
    var s, before := Run(INITIAL, scores[..k], cfg), Run(INITIAL, scores[..k - 1], cfg);
    assert before.current == tier && Candidate(before, scores[k - 1], cfg) == Some(goal);
    assert s.current == tier && goal != tier;
  }

  /** The converse: `dwell` consecutive ticks arguing for one tier do change to it. */
  lemma DwellForcesChange(scores: seq<real>, tier: Tier, goal: Tier, cfg: Config)
    requires ArguedFor(scores, |scores| - Dwell(cfg), |scores|, tier, goal, cfg)
    ensures Run(INITIAL, scores, cfg).current == goal
  {
    var n := |scores| - 1;
    if Dwell(cfg) > 1 { PendingKeepsUp(scores, |scores| - Dwell(cfg), |scores|, n, tier, goal, cfg); }
    RunStep(INITIAL, scores, n, cfg);
    assert scores[..n + 1] == scores;
  }

  /** What arguing for a tier says of the score: at or above its threshold on the way up, at least
      the margin below the current tier's threshold on the way down. */
  lemma ArguedScores(scores: seq<real>, k: nat, goal: Tier, cfg: Config)
    requires k < |scores| && Candidate(Run(INITIAL, scores[..k], cfg), scores[k], cfg) == Some(goal)
    ensures var tier := Run(INITIAL, scores[..k], cfg).current;
            && RawBand(scores[k], cfg) == goal != tier
            && (Rank(goal) > Rank(tier) ==> scores[k] >= ThresholdFor(goal, cfg))
            && (Rank(goal) < Rank(tier) ==> scores[k] <= ThresholdFor(tier, cfg) - cfg.margin)
  {
    RunKeeps(INITIAL, scores[..k], cfg);
  }

  // ---------------------------------------------------------------- change rate

  /** How often the tier changes over a run. */
  function Changes(scores: seq<real>, cfg: Config): nat {
    if scores == [] then 0
    else
      var front := scores[..|scores| - 1];
      Changes(front, cfg) + if Run(INITIAL, scores, cfg).current != Run(INITIAL, front, cfg).current then 1 else 0
  }

  /** At most one change per dwell period, however the score oscillates. */
  lemma {:induction false} ChangeRate(scores: seq<real>, cfg: Config)
    ensures Changes(scores, cfg) * Dwell(cfg) + Run(INITIAL, scores, cfg).pendingTicks <= |scores|
  {
    if scores != [] {
      var front := scores[..|scores| - 1];
      ChangeRate(front, cfg);
      RunKeeps(INITIAL, front, cfg);
      var c, before, after := Changes(front, cfg), Run(INITIAL, front, cfg), Run(INITIAL, scores, cfg);
      assert (c + 1) * Dwell(cfg) == c * Dwell(cfg) + Dwell(cfg);
      assert after.current != before.current ==> before.pendingTicks + 1 >= Dwell(cfg);
    }
  }

  // ---------------------------------------------------------------- hysteresis

  /** Scores that stay below the next band and less than the margin below this tier's threshold
      never move the zone, however long they go on. */
  lemma {:induction false} HoldsWithinMargin(s: TierState, scores: seq<real>, cfg: Config)
    requires Consistent(s, cfg)
    requires forall i :: 0 <= i < |scores| ==>
               Rank(RawBand(scores[i], cfg)) <= Rank(s.current) && scores[i] > ThresholdFor(s.current, cfg) - cfg.margin
    ensures Run(s, scores, cfg).current == s.current
  {
    if scores != [] {
      HoldsWithinMargin(s, scores[..|scores| - 1], cfg);
      RunKeeps(s, scores[..|scores| - 1], cfg);
    }
  }

  // ---------------------------------------------------------------- convergence

  function Repeat(x: real, n: nat): seq<real> { seq(n, _ => x) }

  /** Where a constant score leads from tier `t`. */
  function SettledTier(t: Tier, x: real, cfg: Config): Tier {
    var band := RawBand(x, cfg);
    if Rank(band) > Rank(t) || (Rank(band) < Rank(t) && x <= ThresholdFor(t, cfg) - cfg.margin) then band else t
  }

  ghost predicate Stable(s: TierState, x: real, cfg: Config) { Transition(s, x, cfg) == s }

  /** From any consistent state a constant score reaches its settled tier within the dwell time and
      then never changes anything again. */
  lemma {:induction false} ConstantScoreConverges(s: TierState, x: real, n: nat, cfg: Config)
    requires Consistent(s, cfg) && n >= Dwell(cfg)
    ensures var r := Run(s, Repeat(x, n), cfg);
            r == TierState(SettledTier(s.current, x, cfg), ThresholdFor(SettledTier(s.current, x, cfg), cfg), None, 0) && Stable(r, x, cfg)
  {
    Approach(s, x, n, cfg);
  }

  /** After n equal scores the zone has settled, or has been arguing for the settled tier n times. */
  lemma {:induction false} Approach(s: TierState, x: real, n: nat, cfg: Config)
    requires Consistent(s, cfg)
    ensures var r, goal := Run(s, Repeat(x, n), cfg), SettledTier(s.current, x, cfg);
            && Consistent(r, cfg)
            && (n > 0 ==>
                  || r == TierState(goal, ThresholdFor(goal, cfg), None, 0)
                  || (r.current == s.current && r.pending == Some(goal) && r.pendingTicks >= n))
  {
    if n > 0 {
      Approach(s, x, n - 1, cfg);
      assert Repeat(x, n)[..n - 1] == Repeat(x, n - 1);
      TransitionKeeps(Run(s, Repeat(x, n - 1), cfg), x, cfg);
    } else {
      assert Repeat(x, 0) == [];
    }
  }

  /** Starting more severe does not always end more severe. From a lower tier t and a higher tier c
      the same constant score settles in the same order exactly unless the score lies in t's
      hysteresis band but far enough below c's threshold to de-escalate past t. */
  lemma SettledOrder(t: Tier, c: Tier, x: real, cfg: Config)
    requires Rank(t) < Rank(c)
    ensures Rank(SettledTier(t, x, cfg)) <= Rank(SettledTier(c, x, cfg)) <==>
              !(Rank(RawBand(x, cfg)) < Rank(t) && x > ThresholdFor(t, cfg) - cfg.margin && x <= ThresholdFor(c, cfg) - cfg.margin)
  {
  }

  /** With the default configuration: a score of 60 keeps an elevated zone elevated, but takes a
      critical zone down to watch. */
  lemma CriticalFallsPastElevated()
    ensures SettledTier(Elevated, 60.0, DEFAULT_CONFIG) == Elevated
    ensures SettledTier(Critical, 60.0, DEFAULT_CONFIG) == Watch
  {
  }

  // ---------------------------------------------------------------- a tick in the configuration's own fields

  /** The score reaches what `band` asks for and nothing that a more severe tier asks for. */
  ghost predicate InBand(score: real, cfg: Config, band: Tier) {
    match band
    case Critical => score >= cfg.critical
    case Elevated => cfg.elevated <= score < cfg.critical
    case Watch => cfg.watch <= score && score < cfg.elevated && score < cfg.critical
    case Normal => score < cfg.watch && score < cfg.elevated && score < cfg.critical
  }

  /** The score argues for `goal`: it lies in that band, which is more severe than the current tier, or less
      severe with the score at least the margin below the threshold at which the current tier was entered. */
  ghost predicate ArguesFor(s: TierState, score: real, cfg: Config, goal: Tier) {
    InBand(score, cfg, goal) && (Milder(s.current, goal) || (Milder(goal, s.current) && score + cfg.margin <= s.entryThreshold))
  }

  /** The state on entering `t`: nothing pending, and the threshold of the configuration remembered. */
  ghost predicate Entered(r: TierState, t: Tier, cfg: Config) {
    && r.current == t && r.pending.None? && r.pendingTicks == 0
    && match t
       case Normal => r.entryThreshold == 0.0
       case Watch => r.entryThreshold == cfg.watch
       case Elevated => r.entryThreshold == cfg.elevated
       case Critical => r.entryThreshold == cfg.critical
  }

  /** A tick that argues for no tier forgets what was pending; one that argues for a tier adds to its own
      count and enters the tier once the count reaches the dwell. */
  lemma TickInFields(s: TierState, score: real, cfg: Config, goal: Tier)
    ensures (forall g :: !ArguesFor(s, score, cfg, g)) ==>
              Transition(s, score, cfg) == s.(pending := None, pendingTicks := 0)
    ensures ArguesFor(s, score, cfg, goal) ==>
              var count := if s.pending == Some(goal) then s.pendingTicks + 1 else 1;
              if count >= cfg.dwell then Entered(Transition(s, score, cfg), goal, cfg)
              else Transition(s, score, cfg) == s.(pending := Some(goal), pendingTicks := count)
  {
    var band := RawBand(score, cfg);
    assert InBand(score, cfg, band);
    RankIsSeverity(band, s.current);
    RankIsSeverity(s.current, band);
    if Candidate(s, score, cfg) == Some(band) { assert ArguesFor(s, score, cfg, band); }
    if ArguesFor(s, score, cfg, goal) { assert goal == band; }
  }

  /** The thresholds, margin and dwell in use. */
  lemma DefaultsInNumbers()
    ensures Run(INITIAL, [39.9, 39.9], DEFAULT_CONFIG).current == Normal
    ensures Run(INITIAL, [40.0, 40.0], DEFAULT_CONFIG).current == Watch == Run(INITIAL, [64.9, 64.9], DEFAULT_CONFIG).current
    ensures Run(INITIAL, [65.0, 65.0], DEFAULT_CONFIG).current == Elevated == Run(INITIAL, [84.9, 84.9], DEFAULT_CONFIG).current
    ensures Run(INITIAL, [85.0, 85.0], DEFAULT_CONFIG).current == Critical
    ensures Run(INITIAL, [85.0], DEFAULT_CONFIG).current == Normal
    ensures Run(INITIAL, [65.0, 65.0, 55.1, 55.1], DEFAULT_CONFIG).current == Elevated
    ensures Run(INITIAL, [65.0, 65.0, 55.0, 55.0], DEFAULT_CONFIG).current == Watch
    ensures Run(INITIAL, [65.0, 65.0, 55.0], DEFAULT_CONFIG).current == Elevated
  {
    TwoTicks([], 39.9, 39.9);
    TwoTicks([], 40.0, 40.0);
    TwoTicks([], 64.9, 64.9);
    TwoTicks([], 65.0, 65.0);
    TwoTicks([], 84.9, 84.9);
    TwoTicks([], 85.0, 85.0);
    TwoTicks([65.0, 65.0], 55.1, 55.1);
    TwoTicks([65.0, 65.0], 55.0, 55.0);
  }

  lemma TwoTicks(scores: seq<real>, x: real, y: real)
    ensures Run(INITIAL, [], DEFAULT_CONFIG) == INITIAL
    ensures scores + [x] + [y] == scores + [x, y] && [] + [x] == [x] && [] + [x] + [y] == [x, y]
    ensures scores == [65.0, 65.0] ==> scores + [x] == [65.0, 65.0, x] && scores + [x, y] == [65.0, 65.0, x, y]
    ensures Run(INITIAL, scores + [x], DEFAULT_CONFIG) == Transition(Run(INITIAL, scores, DEFAULT_CONFIG), x, DEFAULT_CONFIG)
    ensures Run(INITIAL, scores + [x] + [y], DEFAULT_CONFIG)
         == Transition(Transition(Run(INITIAL, scores, DEFAULT_CONFIG), x, DEFAULT_CONFIG), y, DEFAULT_CONFIG)
  {
    assert (scores + [x])[..|scores|] == scores;
    assert (scores + [x] + [y])[..|scores + [x]|] == scores + [x];
  }
}
