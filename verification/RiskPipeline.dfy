/** `run_zone_tick` as an engine of the tick loop: the scheduler's agents, then fusion, and what holds of
    every row such an execution writes. */
module RiskPipeline {
  import opened Common
  import opened Fusion
  import opened Scheduler
  import opened ScenarioTicks
  import Tiering

  /** The agents' answers at a time and tick, the execution plan, the staleness decay and the fusion
      configuration. */
  datatype Pipeline = Pipeline(evaluate: (int, nat) -> Evaluate, plan: seq<Level>, factor: Factor, fusion: FusionConfig)

  /** The rules the row records of fusion itself. */
  function RulesOf(f: FusionResult): seq<Rule> {
    [OtherRule("weighted_sum_fusion")] + if f.bonusFired then [InteractionBonusApplied] else []
  }

  /** Scheduler, then fusion; either may raise. */
  function EngineOf(p: Pipeline): Engine<Results> {
    (cache: Results, time: int, tick: nat) =>
      var ran := RunLevels(p.plan, Tick(p.evaluate(time, tick), time), cache, p.factor);
      if ran.None? then None
      else
        var f := Fuse(p.fusion, ran.value.results);
        if f.None? then None else Some((ran.value.cache, Fused(f.value.score, RulesOf(f.value), f.value.multiplier)))
  }

  /** One tick in the fields: asked with the cache at hand, it hands on the scheduler's cache, and its answer
      is what fusion makes of the scheduler's results. */
  ghost predicate Answers(p: Pipeline, cache: Results, time: int, tick: nat, cache': Results, fused: Fused) {
    var ran := RunLevels(p.plan, Tick(p.evaluate(time, tick), time), cache, p.factor);
    && ran.Some? && cache' == ran.value.cache
    && var f := Fuse(p.fusion, ran.value.results);
       && f.Some? && fused.score == f.value.score && fused.multiplier == f.value.multiplier
       && (InteractionBonusApplied in fused.rulesFired <==> f.value.bonusFired)
       && OtherRule("weighted_sum_fusion") in fused.rulesFired && |fused.rulesFired| == if f.value.bonusFired then 2 else 1
  }

  /** The caches of an execution: the ticks that ran, over the plan, from an empty cache. */
  ghost function TicksOf(p: Pipeline, times: seq<int>, n: nat): seq<Tick>
    requires n <= |times|
  {
    seq(n, i requires 0 <= i < n => Tick(p.evaluate(times[i], i), times[i]))
  }

  lemma EngineAnswers(p: Pipeline, cache: Results, time: int, tick: nat)
    requires EngineOf(p)(cache, time, tick).Some?
    ensures Answers(p, cache, time, tick, EngineOf(p)(cache, time, tick).value.0, EngineOf(p)(cache, time, tick).value.1)
  {
  }

  /** Every row of an execution of the agents is what one tick answers, asked with the cache that the ticks
      before it left: the most recent genuine answers. */
  lemma {:induction false} ExecutionCaches(p: Pipeline, cfg: Tiering.Config, times: seq<int>, rows: seq<Assessment>, caches: seq<Results>,
                                           tiers: seq<Tiering.TierState>, n: nat)
    requires Trace(EngineOf(p), cfg, map[], times, rows, caches, tiers) && n <= |rows|
    ensures CacheAfter(p.plan, TicksOf(p, times, n), p.factor) == Some(caches[n])
  {
    if n > 0 {
      ExecutionCaches(p, cfg, times, rows, caches, tiers, n - 1);
      var ticks := TicksOf(p, times, n);
      assert ticks[..n - 1] == TicksOf(p, times, n - 1);
      assert Ran(EngineOf(p), cfg, caches[n - 1], tiers[n - 1], times[n - 1], n - 1, caches[n], tiers[n], rows[n - 1]);
      EngineAnswers(p, caches[n - 1], times[n - 1], n - 1);
    }
  }

  /** A row shows its tick's fused result. */
  lemma RowShowsAnswer(p: Pipeline, cfg: Tiering.Config, times: seq<int>, rows: seq<Assessment>, caches: seq<Results>,
                       tiers: seq<Tiering.TierState>, i: nat)
    requires Trace(EngineOf(p), cfg, map[], times, rows, caches, tiers) && i < |rows|
    ensures var a := rows[i];
            a.justification.rulesFired.Some? && a.justification.multiplier.Some?
            && Answers(p, caches[i], times[i], i, caches[i + 1], Fused(a.score, a.justification.rulesFired.value, a.justification.multiplier.value))
  {
    assert Ran(EngineOf(p), cfg, caches[i], tiers[i], times[i], i, caches[i + 1], tiers[i + 1], rows[i]);
    EngineAnswers(p, caches[i], times[i], i);
  }

  // ---------------------------------------------------------------- when a tick raises

  /** The start-up assertion: the plan runs every agent that fusion weighs. */
  ghost predicate PlanCovers(p: Pipeline) {
    forall i :: 0 <= i < |p.fusion.weights| ==> Planned(p.plan, p.fusion.weights[i].agent)
  }

  ghost predicate Planned(plan: seq<Level>, name: AgentName) { exists k :: 0 <= k < |plan| && name in plan[k] }

  lemma {:induction false} PlannedReport(plan: seq<Level>, t: Tick, cache: Results, factor: Factor, name: AgentName, k: nat)
    requires k < |plan| && name in plan[k] && RunLevels(plan, t, cache, factor).Some?
    ensures name in RunLevels(plan, t, cache, factor).value.results
    decreases |plan|
  {
    var n := |plan| - 1;
    var p := RunLevels(plan[..n], t, cache, factor).value;
    if name in plan[n] {
      AgentInLevel(plan[n], t, p.results, p, factor, name);
    } else {
      PlannedReport(plan[..n], t, cache, factor, name, k);
      OthersUntouched(plan[n], t, p.results, p, factor, name);
    }
  }

  /** With the start-up assertion in force, a tick raises exactly when the scheduler does. */
  lemma RaisesExactlyWhen(p: Pipeline, cache: Results, time: int, tick: nat)
    requires PlanCovers(p) && p.fusion.weights != []
    ensures EngineOf(p)(cache, time, tick).None? <==> RunLevels(p.plan, Tick(p.evaluate(time, tick), time), cache, p.factor).None?
  {
    var t := Tick(p.evaluate(time, tick), time);
    var ran := RunLevels(p.plan, t, cache, p.factor);
    if ran.Some? {
      forall i | 0 <= i < |p.fusion.weights| ensures p.fusion.weights[i].agent in ran.value.results {
        assert Planned(p.plan, p.fusion.weights[i].agent);
        var k :| 0 <= k < |p.plan| && p.fusion.weights[i].agent in p.plan[k];
        PlannedReport(p.plan, t, cache, p.factor, p.fusion.weights[i].agent, k);
      }
    }
  }

  // ---------------------------------------------------------------- the scale of what is written

  ghost predicate AllOnScale(r: Results) { forall a :: a in r ==> 0.0 <= r[a].risk <= 100.0 }

  /** Whatever an agent is asked, a risk it answers is on the scale. */
  ghost predicate AnswersOnScale(evaluate: Evaluate) {
    forall a, seen :: evaluate(a, seen).Some? ==> 0.0 <= evaluate(a, seen).value.risk <= 100.0
  }

  lemma RecordOnScale(p: Progress, name: AgentName, outcome: Option<AgentResult>, now: int, factor: Factor)
    requires AllOnScale(p.results) && AllOnScale(p.cache) && Record(p, name, outcome, now, factor).Some?
    requires outcome.Some? ==> 0.0 <= outcome.value.risk <= 100.0
    ensures AllOnScale(Record(p, name, outcome, now, factor).value.results) && AllOnScale(Record(p, name, outcome, now, factor).value.cache)
  {
  }

  lemma {:induction false} LevelOnScale(names: Level, t: Tick, seen: Results, p: Progress, factor: Factor)
    requires AnswersOnScale(t.evaluate) && AllOnScale(p.results) && AllOnScale(p.cache) && RunAgents(names, t, seen, p, factor).Some?
    ensures AllOnScale(RunAgents(names, t, seen, p, factor).value.results) && AllOnScale(RunAgents(names, t, seen, p, factor).value.cache)
  {
    if names != [] {
      var front, last := names[..|names| - 1], names[|names| - 1];
      LevelOnScale(front, t, seen, p, factor);
      RecordOnScale(RunAgents(front, t, seen, p, factor).value, last, t.evaluate(last, seen), t.now, factor);
    }
  }

  /** A substitute carries its last genuine risk, so a tick never leaves the scale. */
  lemma {:induction false} TickOnScale(plan: seq<Level>, t: Tick, cache: Results, factor: Factor)
    requires AnswersOnScale(t.evaluate) && AllOnScale(cache) && RunLevels(plan, t, cache, factor).Some?
    ensures AllOnScale(RunLevels(plan, t, cache, factor).value.results) && AllOnScale(RunLevels(plan, t, cache, factor).value.cache)
  {
    if plan != [] {
      var n := |plan| - 1;
      TickOnScale(plan[..n], t, cache, factor);
      var p := RunLevels(plan[..n], t, cache, factor).value;
      LevelOnScale(plan[n], t, p.results, p, factor);
    }
  }

  ghost predicate Sane(p: Pipeline) {
    SumsToOne(p.fusion.weights) && KeepsScale(p.fusion) && forall time, tick: nat :: AnswersOnScale(p.evaluate(time, tick))
  }

  lemma EngineOnScale(p: Pipeline, cache: Results, time: int, tick: nat)
    requires Sane(p) && AllOnScale(cache) && EngineOf(p)(cache, time, tick).Some?
    ensures var (cache', fused) := EngineOf(p)(cache, time, tick).value; AllOnScale(cache') && 0.0 <= fused.score <= 100.0
  {
    var t := Tick(p.evaluate(time, tick), time);
    assert AnswersOnScale(p.evaluate(time, tick));
    TickOnScale(p.plan, t, cache, p.factor);
    KeptOnScale(p.fusion, RunLevels(p.plan, t, cache, p.factor).value.results);
  }

  /** Over any execution, with any pattern of failing agents, every row written is on the 0..100 scale
      that the foresight bounds start from. */
  lemma {:induction false} RowsOnScale(p: Pipeline, cfg: Tiering.Config, cache: Results, times: seq<int>)
    requires Sane(p) && AllOnScale(cache)
    ensures forall i :: 0 <= i < |RowsOf(EngineOf(p), cfg, cache, times)| ==> 0.0 <= RowsOf(EngineOf(p), cfg, cache, times)[i].score <= 100.0
    ensures StateAfter(EngineOf(p), cfg, cache, times).Some? ==> AllOnScale(StateAfter(EngineOf(p), cfg, cache, times).value.cache)
  {
    if times != [] {
      var n := |times| - 1;
      RowsOnScale(p, cfg, cache, times[..n]);
      var before := StateAfter(EngineOf(p), cfg, cache, times[..n]);
      if before.Some? && EngineOf(p)(before.value.cache, times[n], n).Some? { EngineOnScale(p, before.value.cache, times[n], n); }
    }
  }
}
