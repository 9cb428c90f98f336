/** The tick loop of `execute_builder_scenario` for one zone and gas type, and the persisted chain
    of tiers it leaves. Agents and fusion are an arbitrary step function over the agent cache;
    tiering is the real state machine. */
module ScenarioTicks {
  import opened Common
  import opened Tiers
  import opened Tiering

  /** A rule identifier; only the interaction bonus is told apart here. */
  datatype Rule = InteractionBonusApplied | OtherRule(name: string)

  /** The persisted justification; a reader must be ready for absent parts. */
  datatype Justification = Justification(tierBefore: Option<Tier>, tierAfter: Option<Tier>, rulesFired: Option<seq<Rule>>, multiplier: Option<real>)

  datatype Assessment = Assessment(timestamp: int, score: real, tier: Tier, justification: Justification)

  /** What agents and fusion deliver for one tick. */
  datatype Fused = Fused(score: real, rulesFired: seq<Rule>, multiplier: real)

  /** Scheduler and fusion: (cache, time, tick number) to (new cache, fused result); None when they
      raise, because an agent fails with nothing to fall back on or a result is missing. */
  type Engine<!C> = (C, int, nat) -> Option<(C, Fused)>

  /** What one tick hands to the next: the agent cache and the tier state. */
  datatype TickState<C> = TickState(cache: C, tier: TierState)

  function StepTick<C>(engine: Engine<C>, cfg: Config, s: TickState<C>, time: int, tick: nat): Option<(TickState<C>, Assessment)> {
    var outcome := engine(s.cache, time, tick);
    if outcome.None? then None
    else
      var (cache, fused) := outcome.value;
      var tier := Transition(s.tier, fused.score, cfg);
      Some((TickState(cache, tier),
            Assessment(time, fused.score, tier.current,
                       Justification(Some(s.tier.current), Some(tier.current), Some(fused.rulesFired), Some(fused.multiplier)))))
  }

  /** The state after the ticks; None once one of them has raised. */
  function StateAfter<C>(engine: Engine<C>, cfg: Config, cache: C, times: seq<int>): Option<TickState<C>> {
    if times == [] then Some(TickState(cache, INITIAL))
    else
      var before := StateAfter(engine, cfg, cache, times[..|times| - 1]);
      if before.None? then None
      else
        var step := StepTick(engine, cfg, before.value, times[|times| - 1], |times| - 1);
        if step.None? then None else Some(step.value.0)
  }

  /** The rows written: one per tick, up to the first that raises. */
  function RowsOf<C>(engine: Engine<C>, cfg: Config, cache: C, times: seq<int>): seq<Assessment> {
    if times == [] then []
    else
      var front := times[..|times| - 1];
      var before := StateAfter(engine, cfg, cache, front);
      RowsOf(engine, cfg, cache, front) + if before.None? then [] else RowOf(StepTick(engine, cfg, before.value, times[|times| - 1], |times| - 1))
  }

  function RowOf<C>(step: Option<(TickState<C>, Assessment)>): seq<Assessment> { if step.None? then [] else [step.value.1] }

  /** The loop threading cache and tier state forward. A tick that raises ends the execution; the rows
      already written stay. */
  method ExecuteZone<C>(engine: Engine<C>, cfg: Config, initialCache: C, times: seq<int>) returns (rows: seq<Assessment>, completed: bool)
    ensures rows == RowsOf(engine, cfg, initialCache, times)
    ensures completed <==> StateAfter(engine, cfg, initialCache, times).Some?
    ensures completed <==> |rows| == |times|
    ensures exists caches, tiers :: Trace(engine, cfg, initialCache, times, rows, caches, tiers)
  {
    ghost var caches, tiers := ExecutionTrace(engine, cfg, initialCache, times);
    RowsMatchTimes(engine, cfg, initialCache, times);
    rows := [];
    var state := TickState(initialCache, INITIAL);
    for i := 0 to |times|
      invariant StateAfter(engine, cfg, initialCache, times[..i]) == Some(state)
      invariant rows == RowsOf(engine, cfg, initialCache, times[..i])
    {
      assert times[..i + 1][..i] == times[..i];
      var step := StepTick(engine, cfg, state, times[i], i);
      if step.None? {
        StaysRaised(engine, cfg, initialCache, times, i + 1);
        return rows, false;
      }
      state, rows := step.value.0, rows + [step.value.1];
    }
    assert times[..|times|] == times;
    completed := true;
  }

  /** Tick `i` as it went: the engine was asked with the cache at hand and answered with the next one, and
      the row records its answer and the tiers before and after. */
  ghost predicate Ran<C>(engine: Engine<C>, cfg: Config, cache: C, tier: TierState, time: int, i: nat, cache': C, tier': TierState, row: Assessment) {
    && engine(cache, time, i).Some?
    && var (next, fused) := engine(cache, time, i).value;
       && cache' == next && tier' == Transition(tier, fused.score, cfg)
       && row.timestamp == time && row.score == fused.score && row.tier == tier'.current
       && row.justification.tierBefore == Some(tier.current) && row.justification.tierAfter == Some(tier'.current)
       && row.justification.rulesFired == Some(fused.rulesFired) && row.justification.multiplier == Some(fused.multiplier)
  }

  /** An execution as it went: every row was run from the cache and tier state that the one before left,
      and where rows are missing the engine raised at the next tick. */
  ghost predicate Trace<C>(engine: Engine<C>, cfg: Config, cache: C, times: seq<int>, rows: seq<Assessment>, caches: seq<C>, tiers: seq<TierState>) {
    && |rows| <= |times| && |caches| == |tiers| == |rows| + 1
    && caches[0] == cache && tiers[0].current == Normal && tiers[0].pending.None?
    && (forall i :: 0 <= i < |rows| ==> Ran(engine, cfg, caches[i], tiers[i], times[i], i, caches[i + 1], tiers[i + 1], rows[i]))
    && (|rows| < |times| ==> engine(caches[|rows|], times[|rows|], |rows|).None?)
  }

  lemma TraceStep<C>(engine: Engine<C>, cfg: Config, cache: C, times: seq<int>, rows: seq<Assessment>, caches: seq<C>, tiers: seq<TierState>,
                     cache': C, tier': TierState, row: Assessment)
    requires |rows| < |times| && Trace(engine, cfg, cache, times[..|rows|], rows, caches, tiers)
    requires Ran(engine, cfg, caches[|rows|], tiers[|rows|], times[|rows|], |rows|, cache', tier', row)
    ensures Trace(engine, cfg, cache, times[..|rows| + 1], rows + [row], caches + [cache'], tiers + [tier'])
  {
  }

  lemma {:induction false} ExecutionTrace<C>(engine: Engine<C>, cfg: Config, cache: C, times: seq<int>) returns (caches: seq<C>, tiers: seq<TierState>)
    ensures Trace(engine, cfg, cache, times, RowsOf(engine, cfg, cache, times), caches, tiers)
    ensures var state := StateAfter(engine, cfg, cache, times);
            state.Some? ==> state.value.cache == caches[|caches| - 1] && state.value.tier == tiers[|caches| - 1]
                            && |caches| == |times| + 1
    ensures StateAfter(engine, cfg, cache, times).None? ==> |caches| <= |times|
  {
    if times == [] {
      caches, tiers := [cache], [INITIAL];
    } else {
      var n := |times| - 1;
      caches, tiers := ExecutionTrace(engine, cfg, cache, times[..n]);
      var before, rows := StateAfter(engine, cfg, cache, times[..n]), RowsOf(engine, cfg, cache, times[..n]);
      if before.Some? {
        var step := StepTick(engine, cfg, before.value, times[n], n);
        assert times[..n + 1] == times;
        if step.Some? {
          TraceStep(engine, cfg, cache, times, rows, caches, tiers, step.value.0.cache, step.value.0.tier, step.value.1);
          caches, tiers := caches + [step.value.0.cache], tiers + [step.value.0.tier];
        }
      }
    }
  }

  lemma {:induction false} StaysRaised<C>(engine: Engine<C>, cfg: Config, cache: C, times: seq<int>, k: nat)
    requires k <= |times| && StateAfter(engine, cfg, cache, times[..k]).None?
    ensures StateAfter(engine, cfg, cache, times).None? && RowsOf(engine, cfg, cache, times) == RowsOf(engine, cfg, cache, times[..k])
    decreases |times| - k
  {
    if k < |times| {
      assert times[..k + 1][..k] == times[..k];
      StaysRaised(engine, cfg, cache, times, k + 1);
    } else {
      assert times[..k] == times;
    }
  }

  /** A row as the engine writes it: the recorded tier is the one transitioned to. */
  ghost predicate WellFormed(a: Assessment) {
    && a.justification.tierBefore.Some? && a.justification.tierAfter == Some(a.tier)
    && a.justification.rulesFired.Some? && a.justification.multiplier.Some?
  }

  /** Each row's tier before is the previous row's tier. */
  ghost predicate Chained(rows: seq<Assessment>) {
    && (forall i :: 0 <= i < |rows| ==> WellFormed(rows[i]))
    && (forall i :: 0 < i < |rows| ==> rows[i].justification.tierBefore == Some(rows[i - 1].tier))
  }

  /** One row per tick, in tick order, up to the first tick that raises. */
  lemma {:induction false} RowsMatchTimes<C>(engine: Engine<C>, cfg: Config, cache: C, times: seq<int>)
    ensures var rows := RowsOf(engine, cfg, cache, times);
            && |rows| <= |times| && (StateAfter(engine, cfg, cache, times).Some? <==> |rows| == |times|)
            && forall i :: 0 <= i < |rows| ==> rows[i].timestamp == times[i]
  {
    if times != [] { RowsMatchTimes(engine, cfg, cache, times[..|times| - 1]); }
  }

  /** A state that fits the rows written so far: the tiering run over their scores. */
  ghost predicate Fits<C>(cfg: Config, rows: seq<Assessment>, state: TickState<C>) {
    && state.tier == Run(INITIAL, Scores(rows), cfg)
    && state.tier.current == if rows == [] then Normal else rows[|rows| - 1].tier
  }

  /** Over any execution, completed or not and whatever the engine, the rows in tick order are chained,
      start from normal, and leave the tiering run on their own scores. */
  lemma {:induction false} RowsAreChained<C>(engine: Engine<C>, cfg: Config, cache: C, times: seq<int>)
    ensures var rows, state := RowsOf(engine, cfg, cache, times), StateAfter(engine, cfg, cache, times);
            && Chained(rows)
            && (rows != [] ==> rows[0].justification.tierBefore == Some(Normal))
            && (state.Some? ==> Fits(cfg, rows, state.value))
  {
    if times != [] {
      var n := |times| - 1;
      RowsAreChained(engine, cfg, cache, times[..n]);
      var before := StateAfter(engine, cfg, cache, times[..n]);
      if before.Some? {
        RowAppended(RowsOf(engine, cfg, cache, times[..n]), before.value, StepTick(engine, cfg, before.value, times[n], n), cfg);
      }
    }
  }

  lemma RowAppended<C>(rows: seq<Assessment>, state: TickState<C>, step: Option<(TickState<C>, Assessment)>, cfg: Config)
    requires Chained(rows) && Fits(cfg, rows, state)
    requires step.Some? ==> WellFormed(step.value.1) && step.value.1.justification.tierBefore == Some(state.tier.current)
    requires step.Some? ==> step.value.0.tier == Transition(state.tier, step.value.1.score, cfg) && step.value.1.tier == step.value.0.tier.current
    ensures Chained(rows + RowOf(step)) && (step.Some? ==> Fits(cfg, rows + RowOf(step), step.value.0))
  {
    if step.Some? {
      ChainedAppend(rows, [step.value.1]);
      assert Scores(rows + [step.value.1])[..|rows|] == Scores(rows);
    }
  }

  function Scores(rows: seq<Assessment>): seq<real> { Map((a: Assessment) => a.score, rows) }

  /** A contiguous window of a chained sequence is chained. */
  lemma WindowIsChained(rows: seq<Assessment>, lo: nat, hi: nat)
    requires lo <= hi <= |rows| && Chained(rows)
    ensures Chained(rows[lo..hi])
  {
  }

  // ---------------------------------------------------------------- persistence

  /** The table after merging the rows: a row's key is its zone and time, so a second row for the
      same time replaces the first. */
  function Persist(rows: seq<Assessment>): map<int, Assessment> {
    if rows == [] then map[] else Persist(rows[..|rows| - 1])[rows[|rows| - 1].timestamp := rows[|rows| - 1]]
  }

  /** What one more row makes of the rows kept so far, in ascending time. */
  function Keep(kept: seq<Assessment>, last: Assessment): seq<Assessment> {
    if kept != [] && kept[|kept| - 1].timestamp == last.timestamp then kept[..|kept| - 1] + [last] else kept + [last]
  }

  /** The same table read in time order, for rows written in ascending time. */
  function Kept(rows: seq<Assessment>): seq<Assessment> {
    if rows == [] then []
    else Keep(Kept(rows[..|rows| - 1]), rows[|rows| - 1])
  }

  ghost predicate AscendingTimes(times: seq<int>) { forall i, j :: 0 <= i < j < |times| ==> times[i] <= times[j] }

  ghost predicate InTimeOrder(rows: seq<Assessment>) { forall i, j :: 0 <= i < j < |rows| ==> rows[i].timestamp <= rows[j].timestamp }

  ghost predicate StrictlyAscending(rows: seq<Assessment>) {
    forall i, j :: 0 <= i < j < |rows| ==> rows[i].timestamp < rows[j].timestamp
  }

  lemma {:induction false} KeptAscends(rows: seq<Assessment>)
    requires InTimeOrder(rows)
    ensures StrictlyAscending(Kept(rows))
    ensures rows != [] ==> Kept(rows) != [] && Kept(rows)[|Kept(rows)| - 1] == rows[|rows| - 1]
  {
    if rows != [] {
      var n := |rows| - 1;
      KeptAscends(rows[..n]);
      if n > 0 { assert rows[n - 1].timestamp <= rows[n].timestamp; }
      ReplaceLast(Kept(rows[..n]), rows[n]);
    }
  }

  lemma ReplaceLast(before: seq<Assessment>, last: Assessment)
    requires StrictlyAscending(before) && (before != [] ==> before[|before| - 1].timestamp <= last.timestamp)
    ensures StrictlyAscending(Keep(before, last))
  {
  }

  /** Read in time order, the table holds the last row written for each time, and nothing else. */
  lemma {:induction false} KeptReadsTable(rows: seq<Assessment>)
    requires InTimeOrder(rows)
    ensures StrictlyAscending(Kept(rows))
    ensures forall a :: a in Kept(rows) <==> a.timestamp in Persist(rows) && Persist(rows)[a.timestamp] == a
  {
    KeptAscends(rows);
    if rows != [] {
      var front, last := rows[..|rows| - 1], rows[|rows| - 1];
      KeptReadsTable(front);
      KeptAscends(front);
      if front != [] { assert rows[|front| - 1].timestamp <= rows[|front|].timestamp; }
      forall a ensures a in Kept(rows) <==> a.timestamp in Persist(rows) && Persist(rows)[a.timestamp] == a {
        KeptStep(Kept(front), last, a);
      }
    }
  }

  lemma KeptStep(before: seq<Assessment>, last: Assessment, a: Assessment)
    requires StrictlyAscending(before)
    requires before != [] ==> before[|before| - 1].timestamp <= last.timestamp
    ensures a in Keep(before, last) <==> a == last || (a in before && a.timestamp != last.timestamp)
  {
    if a in before && a.timestamp != last.timestamp {
      var i :| 0 <= i < |before| && before[i] == a;
      if before[|before| - 1].timestamp == last.timestamp { assert before[..|before| - 1][i] == a; }
    }
  }

  /** Only the earliest tick time may be repeated. */
  ghost predicate RepeatsOnlyFirst(times: seq<int>) {
    forall i, j :: 0 <= i < j < |times| && times[i] == times[j] ==> times[i] == times[0]
  }

  ghost predicate RowsRepeatOnlyFirst(rows: seq<Assessment>) {
    forall i, j :: 0 <= i < j < |rows| && rows[i].timestamp == rows[j].timestamp ==> rows[i].timestamp == rows[0].timestamp
  }

  /** Then what is persisted is a suffix of what was produced. */
  lemma {:induction false} KeptIsSuffix(rows: seq<Assessment>) returns (lo: nat)
    requires InTimeOrder(rows) && RowsRepeatOnlyFirst(rows)
    ensures lo <= |rows| && Kept(rows) == rows[lo..]
  {
    if rows == [] {
      lo := 0;
    } else {
      var n := |rows| - 1;
      if rows[n].timestamp == rows[0].timestamp {
        AllOneTime(rows);
        lo := n;
      } else {
        lo := KeptIsSuffix(rows[..n]);
        assert rows[n - 1].timestamp != rows[n].timestamp;
        KeptAppends(rows);
        JoinSuffix(rows, lo);
      }
    }
  }

  lemma JoinSuffix<T>(s: seq<T>, lo: nat)
    requires lo < |s|
    ensures s[..|s| - 1][lo..] + [s[|s| - 1]] == s[lo..]
  {
  }

  lemma KeptAppends(rows: seq<Assessment>)
    requires |rows| > 1 && rows[|rows| - 2].timestamp != rows[|rows| - 1].timestamp
    ensures Kept(rows) == Kept(rows[..|rows| - 1]) + [rows[|rows| - 1]]
  {
    KeptEndsWithLast(rows, |rows| - 1);
  }

  lemma {:induction false} AllOneTime(rows: seq<Assessment>)
    requires rows != [] && InTimeOrder(rows) && rows[|rows| - 1].timestamp == rows[0].timestamp
    ensures Kept(rows) == [rows[|rows| - 1]]
  {
    var n := |rows| - 1;
    if n == 0 {
      assert rows[..0] == [];
    } else {
      assert rows[n - 1].timestamp <= rows[n].timestamp;
      AllOneTime(rows[..n]);
    }
  }

  lemma KeptEndsWithLast(rows: seq<Assessment>, k: nat)
    requires 0 < k <= |rows|
    ensures Kept(rows[..k]) != [] && Kept(rows[..k])[|Kept(rows[..k])| - 1] == rows[k - 1]
  {
  }

  lemma KeptChained(rows: seq<Assessment>)
    requires Chained(rows) && InTimeOrder(rows) && RowsRepeatOnlyFirst(rows)
    ensures Chained(Kept(rows))
  {
    var lo := KeptIsSuffix(rows);
    WindowIsChained(rows, lo, |rows|);
    assert rows[lo..|rows|] == rows[lo..];
  }

  lemma RowTimes<C>(engine: Engine<C>, cfg: Config, cache: C, times: seq<int>)
    ensures AscendingTimes(times) ==> InTimeOrder(RowsOf(engine, cfg, cache, times))
    ensures RepeatsOnlyFirst(times) ==> RowsRepeatOnlyFirst(RowsOf(engine, cfg, cache, times))
    ensures Chained(RowsOf(engine, cfg, cache, times))
  {
    RowsMatchTimes(engine, cfg, cache, times);
    RowsAreChained(engine, cfg, cache, times);
  }

  /** So the persisted chain is unbroken, whatever the engine. */
  lemma PersistedChain<C>(engine: Engine<C>, cfg: Config, cache: C, times: seq<int>)
    requires AscendingTimes(times) && RepeatsOnlyFirst(times)
    ensures Chained(Kept(RowsOf(engine, cfg, cache, times)))
  {
    RowTimes(engine, cfg, cache, times);
    KeptChained(RowsOf(engine, cfg, cache, times));
  }

  // ---------------------------------------------------------------- several executions

  /** The tiers of two neighbouring rows fit: the later one starts where the earlier one ended. */
  ghost predicate Joins(a: seq<Assessment>, b: seq<Assessment>) {
    a != [] && b != [] ==> b[0].justification.tierBefore == Some(a[|a| - 1].tier)
  }

  ghost predicate JoinsAt(runs: seq<seq<Assessment>>, i: int) { 0 < i < |runs| && Joins(runs[i - 1], runs[i]) }

  lemma ChainedAppend(a: seq<Assessment>, b: seq<Assessment>)
    ensures Chained(a + b) <==> Chained(a) && Chained(b) && Joins(a, b)
  {
    var all := a + b;
    assert forall i :: 0 <= i < |a| ==> all[i] == a[i];
    assert forall i :: 0 <= i < |b| ==> all[|a| + i] == b[i];
    if Chained(all) {
      forall i | 0 < i < |b| ensures b[i].justification.tierBefore == Some(b[i - 1].tier) {
        assert all[|a| + i].justification.tierBefore == Some(all[|a| + i - 1].tier);
      }
      if a != [] && b != [] { assert all[|a|].justification.tierBefore == Some(all[|a| - 1].tier); }
    }
  }

  lemma {:induction false} ConcatEnd(runs: seq<seq<Assessment>>)
    requires runs != [] && runs[|runs| - 1] != []
    ensures Concat(runs) != [] && Concat(runs)[|Concat(runs)| - 1] == runs[|runs| - 1][|runs[|runs| - 1]| - 1]
  {
  }

  ghost predicate AllChained(runs: seq<seq<Assessment>>) { forall i :: 0 <= i < |runs| ==> Chained(runs[i]) }

  ghost predicate AllJoin(runs: seq<seq<Assessment>>) { forall i :: 0 < i < |runs| ==> JoinsAt(runs, i) }

  lemma LastRun(runs: seq<seq<Assessment>>)
    requires runs != []
    ensures var front := runs[..|runs| - 1];
            && (AllChained(runs) <==> AllChained(front) && Chained(runs[|runs| - 1]))
            && (AllJoin(runs) <==> AllJoin(front) && (|runs| > 1 ==> JoinsAt(runs, |runs| - 1)))
  {
    var front := runs[..|runs| - 1];
    assert forall i :: 0 <= i < |front| ==> front[i] == runs[i];
    forall i | 0 < i < |front| ensures JoinsAt(front, i) <==> JoinsAt(runs, i) {
    }
  }

  /** Runs of rows, one after the other, are chained exactly when each is and each starts where the one
      before it ended. */
  lemma {:induction false} RunsChainExactlyWhen(runs: seq<seq<Assessment>>)
    requires forall i :: 0 <= i < |runs| ==> runs[i] != []
    ensures Chained(Concat(runs)) <==> AllChained(runs) && AllJoin(runs)
  {
    if runs != [] {
      var n := |runs| - 1;
      var front := runs[..n];
      RunsChainExactlyWhen(front);
      LastRun(runs);
      ChainedAppend(Concat(front), runs[n]);
      if n > 0 { ConcatEnd(front); }
    }
  }

  /** Each run comes strictly later than the one before it. */
  ghost predicate LaterAt(runs: seq<seq<Assessment>>, i: int) {
    0 < i < |runs| && runs[i - 1] != [] && runs[i] != [] && runs[i - 1][|runs[i - 1]| - 1].timestamp < runs[i][0].timestamp
  }

  /** Rows written strictly later leave what the table kept before them as it is. */
  lemma {:induction false} KeptAppendLater(a: seq<Assessment>, b: seq<Assessment>)
    requires a != [] && b != [] ==> a[|a| - 1].timestamp < b[0].timestamp
    ensures Kept(a + b) == Kept(a) + Kept(b)
  {
    if b == [] {
      assert a + b == a;
    } else {
      var n := |b| - 1;
      var front := b[..n];
      KeptAppendLater(a, front);
      assert (a + b)[..|a + b| - 1] == a + front && (a + b)[|a + b| - 1] == b[n];
      if n > 0 {
        KeptEndsWithLast(b, n);
      } else {
        KeptEarlier(a, b[0]);
      }
      KeepLast(Kept(a), Kept(front), b[n]);
    }
  }

  lemma KeptEarlier(a: seq<Assessment>, x: Assessment)
    requires a != [] ==> a[|a| - 1].timestamp < x.timestamp
    ensures Kept(a) != [] ==> Kept(a)[|Kept(a)| - 1].timestamp < x.timestamp
  {
    if a != [] {
      KeptEndsWithLast(a, |a|);
      assert a[..|a|] == a;
    }
  }

  lemma KeepLast(a: seq<Assessment>, b: seq<Assessment>, last: Assessment)
    requires b == [] && a != [] ==> a[|a| - 1].timestamp != last.timestamp
    ensures Keep(a + b, last) == a + Keep(b, last)
  {
    if b != [] { assert (a + b)[..|a + b| - 1] == a + b[..|b| - 1]; }
  }

  const KeptOf: seq<Assessment> -> seq<Assessment> := (rows: seq<Assessment>) => Kept(rows)

  function KeptRuns(runs: seq<seq<Assessment>>): seq<seq<Assessment>> { Map(KeptOf, runs) }

  lemma {:induction false} KeptOfRuns(runs: seq<seq<Assessment>>)
    requires forall i :: 0 <= i < |runs| ==> runs[i] != []
    requires forall i :: 0 < i < |runs| ==> LaterAt(runs, i)
    ensures Kept(Concat(runs)) == Concat(KeptRuns(runs))
  {
    if runs != [] {
      var n := |runs| - 1;
      var front := runs[..n];
      assert forall i :: 0 < i < n ==> (LaterAt(front, i) <==> LaterAt(runs, i));
      KeptOfRuns(front);
      if n > 0 {
        assert LaterAt(runs, n);
        ConcatEnd(front);
      }
      KeptAppendLater(Concat(front), runs[n]);
      ConcatMapStep(KeptOf, runs);
    }
  }

  /** One execution: its engine, configuration, initial cache and tick times. */
  datatype Execution<!C> = Execution(engine: Engine<C>, cfg: Config, cache: C, times: seq<int>)

  function RowsOfExecution<C>(e: Execution<C>): seq<Assessment> { RowsOf(e.engine, e.cfg, e.cache, e.times) }

  function RowsOfAll<C>(history: seq<Execution<C>>): seq<seq<Assessment>> { Map((e: Execution<C>) => RowsOfExecution(e), history) }

  /** Executions that wrote something, each strictly later than the one before. */
  ghost predicate Successive<C>(history: seq<Execution<C>>) {
    && (forall i :: 0 <= i < |history| ==> RowsOfExecution(history[i]) != [])
    && (forall i :: 0 < i < |history| ==> LaterAt(RowsOfAll(history), i))
  }

  /** The rows that successive executions leave in the table form one chain exactly when what each of
      them leaves is chained, and starts where what the one before left ended. */
  lemma ExecutionsChainExactlyWhen<C>(history: seq<Execution<C>>)
    requires Successive(history)
    ensures Chained(Kept(Concat(RowsOfAll(history)))) <==> AllChained(KeptRuns(RowsOfAll(history))) && AllJoin(KeptRuns(RowsOfAll(history)))
  {
    var runs := RowsOfAll(history);
    KeptOfRuns(runs);
    forall i | 0 <= i < |runs| ensures KeptRuns(runs)[i] != [] {
      KeptEndsWithLast(runs[i], |runs[i]|);
      assert runs[i][..|runs[i]|] == runs[i];
    }
    RunsChainExactlyWhen(KeptRuns(runs));
  }

  ghost predicate EndsNormal(rows: seq<Assessment>) { rows != [] && rows[|rows| - 1].tier == Normal }

  /** Every execution restarts from normal over the same table. With distinct tick times, successive
      executions therefore form one chain exactly when every one but the last ended at normal. */
  lemma DistinctTimesChainExactlyWhen<C>(history: seq<Execution<C>>)
    requires Successive(history) && forall i :: 0 <= i < |history| ==> StrictlyAscending(RowsOfExecution(history[i]))
    ensures Chained(Kept(Concat(RowsOfAll(history)))) <==> forall i :: 0 <= i < |history| - 1 ==> EndsNormal(RowsOfExecution(history[i]))
  {
    var runs := RowsOfAll(history);
    forall i | 0 <= i < |runs| ensures FreshRun(runs[i]) && KeptRuns(runs)[i] == runs[i] {
      ExecutionIsFresh(history[i]);
      KeptOfStrict(runs[i]);
    }
    assert KeptRuns(runs) == runs;
    ExecutionsChainExactlyWhen(history);
    FreshRunsJoin(runs);
    assert forall i :: 0 <= i < |history| ==> runs[i] == RowsOfExecution(history[i]);
  }

  ghost predicate FreshRun(rows: seq<Assessment>) {
    rows != [] && Chained(rows) && rows[0].justification.tierBefore == Some(Normal)
  }

  lemma ExecutionIsFresh<C>(e: Execution<C>)
    requires RowsOfExecution(e) != []
    ensures FreshRun(RowsOfExecution(e))
  {
    RowsAreChained(e.engine, e.cfg, e.cache, e.times);
  }

  lemma FreshRunsJoin(runs: seq<seq<Assessment>>)
    requires forall i :: 0 <= i < |runs| ==> FreshRun(runs[i])
    ensures AllJoin(runs) <==> (forall i :: 0 <= i < |runs| - 1 ==> EndsNormal(runs[i]))
  {
    forall i | 0 < i < |runs| ensures JoinsAt(runs, i) <==> EndsNormal(runs[i - 1]) {
      assert FreshRun(runs[i]) && FreshRun(runs[i - 1]);
    }
    if AllJoin(runs) {
      forall i | 0 <= i < |runs| - 1 ensures EndsNormal(runs[i]) {
        assert JoinsAt(runs, i + 1);
      }
    }
  }

  lemma {:induction false} KeptOfStrict(rows: seq<Assessment>)
    requires StrictlyAscending(rows)
    ensures Kept(rows) == rows
  {
    if rows != [] {
      var front := rows[..|rows| - 1];
      KeptOfStrict(front);
      assert rows == front + [rows[|rows| - 1]];
    }
  }

  lemma {:induction false} PersistAppend(a: seq<Assessment>, b: seq<Assessment>)
    ensures Persist(a + b) == Persist(a) + Persist(b)
  {
    if b == [] {
      assert a + b == a;
    } else {
      var front, last := b[..|b| - 1], b[|b| - 1];
      PersistAppend(a, front);
      assert (a + b)[..|a + b| - 1] == a + front;
    }
  }

  /** Executing again over all the times of an earlier execution leaves no trace of the earlier one. */
  lemma ReexecutionReplaces(a: seq<Assessment>, b: seq<Assessment>)
    requires forall t :: t in Persist(a) ==> t in Persist(b)
    ensures Persist(a + b) == Persist(b)
  {
    PersistAppend(a, b);
    var before, after := Persist(a), Persist(b);
    forall t ensures t in before + after <==> t in after {
      assert t in before ==> t in after;
    }
    assert before + after == after;
  }

  // A later repeated time, by contrast, can hide a tier change.

  /** Calm before tick k, at the top of the scale from tick k on. */
  function JumpAt(k: nat): Engine<()> {
    (c: (), time: int, tick: nat) => Some((c, Fused(if tick >= k then 100.0 else 0.0, [], 1.0)))
  }

  /** The tier state after `n` ticks of a jump at tick `k`, with the configuration in use. */
  function JumpState(k: nat, n: nat): TierState {
    if n <= k then TierState(Normal, 0.0, None, 0)
    else if n == k + 1 then TierState(Normal, 0.0, Some(Critical), 1)
    else TierState(Critical, 85.0, None, 0)
  }

  /** What a jump at tick `k` writes: one tick after it, the dwell of the configuration in use is over. */
  ghost predicate JumpShape(k: nat, times: seq<int>, rows: seq<Assessment>) {
    && |rows| == |times|
    && (forall i :: 0 <= i < |rows| ==> rows[i].timestamp == times[i])
    && (forall i :: 0 <= i < |rows| ==> rows[i].tier == if i > k then Critical else Normal)
    && (forall i :: 0 <= i < |rows| ==> rows[i].justification.tierBefore == Some(if i > k + 1 then Critical else Normal))
  }

  lemma {:induction false} JumpRows(k: nat, times: seq<int>)
    ensures StateAfter(JumpAt(k), DEFAULT_CONFIG, (), times) == Some(TickState((), JumpState(k, |times|)))
    ensures JumpShape(k, times, RowsOf(JumpAt(k), DEFAULT_CONFIG, (), times))
  {
    if times != [] {
      JumpRows(k, times[..|times| - 1]);
      JumpStep(k, |times| - 1);
    }
  }

  lemma JumpStep(k: nat, n: nat)
    ensures Transition(JumpState(k, n), if n >= k then 100.0 else 0.0, DEFAULT_CONFIG) == JumpState(k, n + 1)
  {
  }

  lemma RepeatReplaces(rows: seq<Assessment>, k: nat)
    requires 0 < k && k + 2 == |rows| && rows[k - 1].timestamp < rows[k].timestamp == rows[k + 1].timestamp
    ensures Kept(rows) == Kept(rows[..k]) + [rows[k + 1]]
    ensures Kept(rows[..k]) != [] && Kept(rows[..k])[|Kept(rows[..k])| - 1] == rows[k - 1]
  {
    KeptEndsWithLast(rows, k);
    KeptStepAt(rows, k);
    KeptStepAt(rows, k + 1);
    assert rows[..k + 2] == rows;
  }

  /** The tier changes from normal to critical at row `k`, whose time row `k + 1` repeats. */
  ghost predicate HidesChange(rows: seq<Assessment>, k: nat) {
    && 0 < k < |rows| - 1 && rows[k - 1].timestamp < rows[k].timestamp == rows[k + 1].timestamp
    && rows[k - 1].tier == Normal && forall i :: k < i < |rows| ==> rows[i].justification.tierBefore == Some(Critical)
  }

  lemma HidesInPrefix(rows: seq<Assessment>, k: nat)
    requires HidesChange(rows, k) && k + 2 < |rows|
    ensures HidesChange(rows[..|rows| - 1], k) && rows[..|rows| - 1][..k] == rows[..k]
    ensures rows[|rows| - 1].justification.tierBefore == Some(Critical)
  {
  }

  /** The kept row at `p` claims to start from critical, while the one before it ends at normal. */
  ghost predicate BreaksAt(kept: seq<Assessment>, p: nat) {
    0 < p < |kept| && kept[p - 1].tier == Normal && kept[p].justification.tierBefore == Some(Critical)
  }

  lemma BreakSurvives(kept: seq<Assessment>, last: Assessment, p: nat)
    requires BreaksAt(kept, p) && last.justification.tierBefore == Some(Critical)
    ensures BreaksAt(Keep(kept, last), p)
  {
  }

  /** From the repetition on, the table shows the break. */
  lemma {:induction false} HiddenChange(rows: seq<Assessment>, k: nat, p: nat)
    requires HidesChange(rows, k) && p == |Kept(rows[..k])|
    ensures BreaksAt(Kept(rows), p)
    decreases |rows|
  {
    var n := |rows| - 1;
    if n == k + 1 {
      RepeatReplaces(rows, k);
    } else {
      HidesInPrefix(rows, k);
      HiddenChange(rows[..n], k, p);
      BreakSurvives(Kept(rows[..n]), rows[n], p);
    }
  }

  lemma KeptStepAt(rows: seq<Assessment>, n: nat)
    requires n < |rows|
    ensures Kept(rows[..n + 1]) == Keep(Kept(rows[..n]), rows[n])
  {
    assert rows[..n + 1][..n] == rows[..n];
  }

  /** The persisted rows are chained whatever the engine and the configuration do. */
  ghost predicate AlwaysChained(times: seq<int>) {
    forall engine: Engine<()>, cfg: Config :: Chained(Kept(RowsOf(engine, cfg, (), times)))
  }

  /** The chain survives persistence for every engine and configuration exactly when only the first
      time repeats; otherwise some engine breaks it even with the configuration in use. */
  lemma ChainExactlyWhen(times: seq<int>)
    requires AscendingTimes(times)
    ensures RepeatsOnlyFirst(times) <==> AlwaysChained(times)
    ensures RepeatsOnlyFirst(times) <==> forall engine: Engine<()> :: Chained(Kept(RowsOf(engine, DEFAULT_CONFIG, (), times)))
  {
    if RepeatsOnlyFirst(times) {
      forall engine: Engine<()>, cfg: Config ensures Chained(Kept(RowsOf(engine, cfg, (), times))) {
        PersistedChain(engine, cfg, (), times);
      }
    } else {
      var i, j :| 0 <= i < j < |times| && times[i] == times[j] && times[i] != times[0];
      var k := FirstOfRun(times, i, j);
      JumpBreaksChain(times, k);
    }
  }

  /** The time at position `k`, a later one than before, is repeated. */
  ghost predicate RepeatsAt(times: seq<int>, k: int) { 0 < k < |times| - 1 && times[k - 1] < times[k] == times[k + 1] }

  /** A score that jumps one tick before a repeated later time: the tier changes at that time, its
      second row replaces the first, and the change is not to be seen in the table. */
  lemma JumpBreaksChain(times: seq<int>, k: nat)
    requires RepeatsAt(times, k)
    ensures !Chained(Kept(RowsOf(JumpAt(k - 1), DEFAULT_CONFIG, (), times)))
  {
    JumpRows(k - 1, times);
    ShapeBreaksChain(times, k, RowsOf(JumpAt(k - 1), DEFAULT_CONFIG, (), times));
  }

  lemma ShapeHidesChange(times: seq<int>, k: nat, rows: seq<Assessment>)
    requires RepeatsAt(times, k) && JumpShape(k - 1, times, rows)
    ensures HidesChange(rows, k)
  {
  }

  lemma ShapeBreaksChain(times: seq<int>, k: nat, rows: seq<Assessment>)
    requires RepeatsAt(times, k) && JumpShape(k - 1, times, rows)
    ensures !Chained(Kept(rows))
  {
    ShapeHidesChange(times, k, rows);
    HiddenMeansBroken(rows, k);
  }

  lemma HiddenMeansBroken(rows: seq<Assessment>, k: nat)
    requires HidesChange(rows, k)
    ensures !Chained(Kept(rows))
  {
    HiddenChange(rows, k, |Kept(rows[..k])|);
  }

  /** An execution that ends at critical, then another: the second starts from normal again. */
  lemma RestartBreaksChain()
    ensures var history := [Execution(JumpAt(0), DEFAULT_CONFIG, (), [0, 5]), Execution(JumpAt(0), DEFAULT_CONFIG, (), [10])];
            !Chained(Kept(Concat(RowsOfAll(history))))
  {
    var first, second := Execution(JumpAt(0), DEFAULT_CONFIG, (), [0, 5]), Execution(JumpAt(0), DEFAULT_CONFIG, (), [10]);
    var history := [first, second];
    JumpRows(0, [0, 5]);
    JumpRows(0, [10]);
    assert RowsOfAll(history) == [RowsOfExecution(first), RowsOfExecution(second)];
    assert history[0] == first && LaterAt(RowsOfAll(history), 1);
    DistinctTimesChainExactlyWhen(history);
  }

  /** For instance two adjoining sensor events that both sample their common boundary. */
  lemma BoundaryTickHidesChange()
    ensures !Chained(Kept(RowsOf(JumpAt(0), DEFAULT_CONFIG, (), [0, 5, 5, 10])))
  {
    JumpBreaksChain([0, 5, 5, 10], 1);
  }

  lemma FirstOfRun(times: seq<int>, i: nat, j: nat) returns (k: nat)
    requires AscendingTimes(times) && i < j < |times| && times[i] == times[j] && times[i] != times[0]
    ensures RepeatsAt(times, k)
  {
    k := i;
    assert times[i] <= times[i + 1] <= times[j];
    while times[k - 1] == times[k]
      invariant 0 < k <= i && times[k] == times[i] == times[k + 1]
      decreases k
    {
      k := k - 1;
    }
    assert times[k - 1] <= times[k];
  }
}
