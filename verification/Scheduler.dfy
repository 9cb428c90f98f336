/** `run_tick`: the agents level by level, with last-known results standing in, decayed, for agents
    that fail. The decay factor is any function of the elapsed time. */
module Scheduler {
  import opened Common
  import opened Fusion

  /** One level: agents that run concurrently and see only earlier levels. */
  type Level = seq<AgentName>

  /** What an agent makes of its name and the results of earlier levels; None when it raises. */
  type Evaluate = (AgentName, Results) -> Option<AgentResult>

  datatype Tick = Tick(evaluate: Evaluate, now: int)

  type Factor = nat -> real

  datatype Progress = Progress(results: Results, cache: Results)

  /** The last-known result with its confidence decayed by the time since it was computed. */
  function Decay(last: AgentResult, now: int, factor: Factor): AgentResult {
    AgentResult(last.risk, last.confidence * factor(Max(0, now - last.computedAt)), now)
  }

  /** One agent's outcome folded in: a success is recorded and cached, a failure is replaced by the
      decayed cached result, and without one the tick is refused. */
  function Record(p: Progress, name: AgentName, outcome: Option<AgentResult>, now: int, factor: Factor): Option<Progress> {
    if outcome.Some? then Some(Progress(p.results[name := outcome.value], p.cache[name := outcome.value]))
    else if name in p.cache then Some(p.(results := p.results[name := Decay(p.cache[name], now, factor)]))
    else None
  }

  /** The outcomes of a level were all computed from `seen`, before any of them is recorded. */
  function RunAgents(names: Level, t: Tick, seen: Results, p: Progress, factor: Factor): Option<Progress> {
    if names == [] then Some(p)
    else
      var q := RunAgents(names[..|names| - 1], t, seen, p, factor);
      if q.None? then None else Record(q.value, names[|names| - 1], t.evaluate(names[|names| - 1], seen), t.now, factor)
  }

  function RunLevels(plan: seq<Level>, t: Tick, cache: Results, factor: Factor): Option<Progress> {
    if plan == [] then Some(Progress(map[], cache))
    else
      var q := RunLevels(plan[..|plan| - 1], t, cache, factor);
      if q.None? then None else RunAgents(plan[|plan| - 1], t, q.value.results, q.value, factor)
  }

  method RunTick(plan: seq<Level>, t: Tick, cache: Results, factor: Factor) returns (r: Option<Progress>)
    ensures r == RunLevels(plan, t, cache, factor)
  {
    var p := Progress(map[], cache);
    for k := 0 to |plan|
      invariant RunLevels(plan[..k], t, cache, factor) == Some(p)
    {
      assert plan[..k + 1][..k] == plan[..k];
      var seen := p.results;
      ghost var start := p;
      for i := 0 to |plan[k]|
        invariant RunAgents(plan[k][..i], t, seen, start, factor) == Some(p)
      {
        assert plan[k][..i + 1][..i] == plan[k][..i];
        var next := Record(p, plan[k][i], t.evaluate(plan[k][i], seen), t.now, factor);
        if next.None? {
          StaysRefused(plan, t, cache, factor, k, i + 1);
          return None;
        }
        p := next.value;
      }
      assert plan[k][..|plan[k]|] == plan[k];
    }
    assert plan[..|plan|] == plan;
    r := Some(p);
  }

  lemma {:induction false} AgentsStayRefused(names: Level, t: Tick, seen: Results, p: Progress, factor: Factor, i: nat)
    requires i <= |names| && RunAgents(names[..i], t, seen, p, factor).None?
    ensures RunAgents(names, t, seen, p, factor).None?
    decreases |names| - i
  {
    if i < |names| {
      assert names[..i + 1][..i] == names[..i];
      AgentsStayRefused(names, t, seen, p, factor, i + 1);
    } else {
      assert names[..i] == names;
    }
  }

  lemma StaysRefused(plan: seq<Level>, t: Tick, cache: Results, factor: Factor, k: nat, i: nat)
    requires k < |plan| && i <= |plan[k]| && RunLevels(plan[..k], t, cache, factor).Some?
    requires var p := RunLevels(plan[..k], t, cache, factor).value; RunAgents(plan[k][..i], t, p.results, p, factor).None?
    ensures RunLevels(plan, t, cache, factor).None?
  {
    var p := RunLevels(plan[..k], t, cache, factor).value;
    AgentsStayRefused(plan[k], t, p.results, p, factor, i);
    assert plan[..k + 1][..k] == plan[..k];
    LevelsStayRefused(plan, t, cache, factor, k + 1);
  }

  lemma {:induction false} LevelsStayRefused(plan: seq<Level>, t: Tick, cache: Results, factor: Factor, k: nat)
    requires k <= |plan| && RunLevels(plan[..k], t, cache, factor).None?
    ensures RunLevels(plan, t, cache, factor).None?
    decreases |plan| - k
  {
    if k < |plan| {
      assert plan[..k + 1][..k] == plan[..k];
      LevelsStayRefused(plan, t, cache, factor, k + 1);
    } else {
      assert plan[..k] == plan;
    }
  }

  // ---------------------------------------------------------------- what becomes of one agent

  function CachedIn(cache: Results, name: AgentName): Option<AgentResult> { if name in cache then Some(cache[name]) else None }

  /** `name` is not among the agents. */
  lemma {:induction false} OthersUntouched(names: Level, t: Tick, seen: Results, p: Progress, factor: Factor, name: AgentName)
    requires name !in names && RunAgents(names, t, seen, p, factor).Some?
    ensures CachedIn(RunAgents(names, t, seen, p, factor).value.results, name) == CachedIn(p.results, name)
    ensures CachedIn(RunAgents(names, t, seen, p, factor).value.cache, name) == CachedIn(p.cache, name)
  {
    if names != [] {
      var front, last := names[..|names| - 1], names[|names| - 1];
      assert last in names && name !in front;
      OthersUntouched(front, t, seen, p, factor, name);
      RecordOther(RunAgents(front, t, seen, p, factor).value, last, t.evaluate(last, seen), t.now, factor, name);
    }
  }

  lemma RecordOther(p: Progress, other: AgentName, outcome: Option<AgentResult>, now: int, factor: Factor, name: AgentName)
    requires name != other && Record(p, other, outcome, now, factor).Some?
    ensures CachedIn(Record(p, other, outcome, now, factor).value.results, name) == CachedIn(p.results, name)
    ensures CachedIn(Record(p, other, outcome, now, factor).value.cache, name) == CachedIn(p.cache, name)
  {
  }

  /** `shown` stands in at `now` for `last`: its risk, its confidence decayed by the time since it was
      computed, which counts as none for an answer from the future, and the present time. */
  ghost predicate StandsIn(shown: AgentResult, last: AgentResult, now: int, factor: Factor) {
    && shown.risk == last.risk && shown.computedAt == now
    && shown.confidence == last.confidence * factor(if now > last.computedAt then now - last.computedAt else 0)
  }

  /** The result and the cache entry an outcome leaves. */
  ghost predicate Settles(q: Progress, name: AgentName, outcome: Option<AgentResult>, cached: Option<AgentResult>, now: int, factor: Factor) {
    && (outcome.Some? ==> CachedIn(q.results, name) == outcome && CachedIn(q.cache, name) == outcome)
    && (outcome.None? ==> cached.Some? && CachedIn(q.cache, name) == cached
                          && name in q.results && StandsIn(q.results[name], cached.value, now, factor))
  }

  /** A level that names an agent, once or more often. */
  lemma {:induction false} AgentInLevel(names: Level, t: Tick, seen: Results, p: Progress, factor: Factor, name: AgentName)
    requires name in names && RunAgents(names, t, seen, p, factor).Some?
    ensures Settles(RunAgents(names, t, seen, p, factor).value, name, t.evaluate(name, seen), CachedIn(p.cache, name), t.now, factor)
  {
    var n := |names| - 1;
    var front := names[..n];
    assert names == front + [names[n]];
    if name in front {
      AgentInLevel(front, t, seen, p, factor, name);
    } else {
      OthersUntouched(front, t, seen, p, factor, name);
    }
  }

  lemma LevelStep(plan: seq<Level>, t: Tick, cache: Results, factor: Factor, k: nat)
    requires k < |plan| && RunLevels(plan[..k + 1], t, cache, factor).Some?
    ensures RunLevels(plan[..k], t, cache, factor).Some?
    ensures var p := RunLevels(plan[..k], t, cache, factor).value;
            RunLevels(plan[..k + 1], t, cache, factor) == RunAgents(plan[k], t, p.results, p, factor)
  {
    assert plan[..k + 1][..k] == plan[..k];
  }

  /** What agent `name` answers at level `l` of a tick, from the results of the earlier levels; None if
      it is not asked there or fails. */
  function AnswerAtLevel(plan: seq<Level>, t: Tick, cache: Results, factor: Factor, name: AgentName, l: nat): Option<AgentResult>
    requires l < |plan|
  {
    var p := RunLevels(plan[..l], t, cache, factor);
    if name in plan[l] && p.Some? then t.evaluate(name, p.value.results) else None
  }

  lemma {:induction false} LaterLevels(plan: seq<Level>, t: Tick, cache: Results, factor: Factor, name: AgentName, k: nat, n: nat)
    requires k <= n <= |plan| && RunLevels(plan[..n], t, cache, factor).Some? && forall l :: k <= l < n ==> name !in plan[l]
    ensures RunLevels(plan[..k], t, cache, factor).Some?
    ensures CachedIn(RunLevels(plan[..n], t, cache, factor).value.results, name) == CachedIn(RunLevels(plan[..k], t, cache, factor).value.results, name)
    ensures CachedIn(RunLevels(plan[..n], t, cache, factor).value.cache, name) == CachedIn(RunLevels(plan[..k], t, cache, factor).value.cache, name)
    decreases n
  {
    if k < n {
      LevelStep(plan, t, cache, factor, n - 1);
      LaterLevels(plan, t, cache, factor, name, k, n - 1);
      var p := RunLevels(plan[..n - 1], t, cache, factor).value;
      OthersUntouched(plan[n - 1], t, p.results, p, factor, name);
    }
  }

  /** In a tick that succeeds, the last level that names an agent decides its result. There it is asked
      with exactly the results of the earlier levels; a success is its result and its new cache
      entry, a failure leaves the cache entry alone and shows it decayed. */
  lemma AgentFate(plan: seq<Level>, t: Tick, cache: Results, factor: Factor, name: AgentName, k: nat)
    requires k < |plan| && name in plan[k] && (forall l :: k < l < |plan| ==> name !in plan[l]) && RunLevels(plan, t, cache, factor).Some?
    ensures RunLevels(plan[..k], t, cache, factor).Some?
    ensures Settles(RunLevels(plan, t, cache, factor).value, name, AnswerAtLevel(plan, t, cache, factor, name, k),
                    CachedIn(RunLevels(plan[..k], t, cache, factor).value.cache, name), t.now, factor)
  {
    assert plan[..|plan|] == plan;
    LaterLevels(plan, t, cache, factor, name, k + 1, |plan|);
    LevelStep(plan, t, cache, factor, k);
    var p := RunLevels(plan[..k], t, cache, factor).value;
    AgentInLevel(plan[k], t, p.results, p, factor, name);
  }

  /** A tick starts without results and ends with one for each agent of the plan, and no other; the cache
      loses nothing. */
  lemma {:induction false} ResultsOfThePlan(plan: seq<Level>, t: Tick, cache: Results, factor: Factor, name: AgentName)
    requires RunLevels(plan, t, cache, factor).Some?
    ensures name in RunLevels(plan, t, cache, factor).value.results <==> exists k :: 0 <= k < |plan| && name in plan[k]
    ensures name in cache ==> name in RunLevels(plan, t, cache, factor).value.cache
    decreases |plan|
  {
    if plan != [] {
      var n := |plan| - 1;
      var p := RunLevels(plan[..n], t, cache, factor).value;
      ResultsOfThePlan(plan[..n], t, cache, factor, name);
      if name in plan[n] {
        AgentInLevel(plan[n], t, p.results, p, factor, name);
      } else {
        OthersUntouched(plan[n], t, p.results, p, factor, name);
        if k :| 0 <= k < |plan| && name in plan[k] { assert name in plan[..n][k]; }
      }
    }
  }

  // ---------------------------------------------------------------- over many ticks

  function OrElse<T>(a: Option<T>, b: Option<T>): Option<T> { if a.Some? then a else b }

  /** The last genuine answer of `name` among the first `k` levels of a tick. */
  function LastInTick(plan: seq<Level>, t: Tick, cache: Results, factor: Factor, name: AgentName, k: nat): Option<AgentResult>
    requires k <= |plan|
  {
    if k == 0 then None
    else OrElse(AnswerAtLevel(plan, t, cache, factor, name, k - 1), LastInTick(plan, t, cache, factor, name, k - 1))
  }

  /** Within a tick the cache holds the last genuine answer, or what it held before. */
  lemma {:induction false} CacheInTick(plan: seq<Level>, t: Tick, cache: Results, factor: Factor, name: AgentName, k: nat)
    requires k <= |plan| && RunLevels(plan[..k], t, cache, factor).Some?
    ensures CachedIn(RunLevels(plan[..k], t, cache, factor).value.cache, name)
         == OrElse(LastInTick(plan, t, cache, factor, name, k), CachedIn(cache, name))
  {
    if k == 0 {
      assert plan[..0] == [];
    } else {
      LevelStep(plan, t, cache, factor, k - 1);
      CacheInTick(plan, t, cache, factor, name, k - 1);
      var p := RunLevels(plan[..k - 1], t, cache, factor).value;
      if name in plan[k - 1] {
        AgentInLevel(plan[k - 1], t, p.results, p, factor, name);
      } else {
        OthersUntouched(plan[k - 1], t, p.results, p, factor, name);
      }
    }
  }

  /** The cache after a run of ticks, as long as none is refused. */
  function CacheAfter(plan: seq<Level>, ticks: seq<Tick>, factor: Factor): Option<Results> {
    if ticks == [] then Some(map[])
    else
      var before := CacheAfter(plan, ticks[..|ticks| - 1], factor);
      if before.None? then None
      else
        var p := RunLevels(plan, ticks[|ticks| - 1], before.value, factor);
        if p.None? then None else Some(p.value.cache)
  }

  /** The most recent genuine answer of `name` in a run: of the last tick, or else of the run before. */
  function LastAnswer(plan: seq<Level>, ticks: seq<Tick>, factor: Factor, name: AgentName): Option<AgentResult> {
    if ticks == [] then None
    else
      var n := |ticks| - 1;
      var before := CacheAfter(plan, ticks[..n], factor);
      if before.None? then None
      else OrElse(LastInTick(plan, ticks[n], before.value, factor, name, |plan|), LastAnswer(plan, ticks[..n], factor, name))
  }

  /** The cache holds exactly the most recent genuine answer of every agent, for any plan and any run:
      a substitute is never stored, so decay never compounds. */
  lemma {:induction false} CacheHoldsLastGenuine(plan: seq<Level>, ticks: seq<Tick>, factor: Factor, name: AgentName)
    requires CacheAfter(plan, ticks, factor).Some?
    ensures CachedIn(CacheAfter(plan, ticks, factor).value, name) == LastAnswer(plan, ticks, factor, name)
  {
    if ticks != [] {
      var n := |ticks| - 1;
      CacheHoldsLastGenuine(plan, ticks[..n], factor, name);
      assert plan[..|plan|] == plan;
      CacheInTick(plan, ticks[n], CacheAfter(plan, ticks[..n], factor).value, factor, name, |plan|);
    }
  }

  /** What `name` answers at level `l` of tick `n` of a run. */
  function AnswerAt(plan: seq<Level>, ticks: seq<Tick>, factor: Factor, name: AgentName, n: nat, l: nat): Option<AgentResult>
    requires n < |ticks| && l < |plan|
  {
    var before := CacheAfter(plan, ticks[..n], factor);
    if before.None? then None else AnswerAtLevel(plan, ticks[n], before.value, factor, name, l)
  }

  /** `r` is answered at level `l` of the tick and nothing at the later ones. */
  ghost predicate LastAtLevel(plan: seq<Level>, t: Tick, cache: Results, factor: Factor, name: AgentName, k: nat, l: int, r: AgentResult)
    requires k <= |plan|
  {
    0 <= l < k && AnswerAtLevel(plan, t, cache, factor, name, l) == Some(r)
    && forall j :: l < j < k ==> AnswerAtLevel(plan, t, cache, factor, name, j).None?
  }

  lemma {:induction false} LastInTickMeaning(plan: seq<Level>, t: Tick, cache: Results, factor: Factor, name: AgentName, k: nat)
    requires k <= |plan|
    ensures LastInTick(plan, t, cache, factor, name, k).None? <==> forall j :: 0 <= j < k ==> AnswerAtLevel(plan, t, cache, factor, name, j).None?
    ensures LastInTick(plan, t, cache, factor, name, k).Some? ==>
              exists l :: LastAtLevel(plan, t, cache, factor, name, k, l, LastInTick(plan, t, cache, factor, name, k).value)
  {
    if k > 0 {
      LastInTickMeaning(plan, t, cache, factor, name, k - 1);
      var last := LastInTick(plan, t, cache, factor, name, k);
      if AnswerAtLevel(plan, t, cache, factor, name, k - 1).Some? {
        assert LastAtLevel(plan, t, cache, factor, name, k, k - 1, last.value);
      } else if last.Some? {
        var l :| LastAtLevel(plan, t, cache, factor, name, k - 1, l, last.value);
        assert LastAtLevel(plan, t, cache, factor, name, k, l, last.value);
      }
    }
  }

  /** No agent of that name answers in tick `n`. */
  ghost predicate SilentIn(plan: seq<Level>, ticks: seq<Tick>, factor: Factor, name: AgentName, n: int) {
    0 <= n < |ticks| ==> forall l :: 0 <= l < |plan| ==> AnswerAt(plan, ticks, factor, name, n, l).None?
  }

  /** `r` is answered in tick `n`, at the last level that answers there, and no later tick answers. */
  ghost predicate GenuineAt(plan: seq<Level>, ticks: seq<Tick>, factor: Factor, name: AgentName, n: int, r: AgentResult) {
    && 0 <= n < |ticks| && CacheAfter(plan, ticks[..n], factor).Some?
    && (exists l :: LastAtLevel(plan, ticks[n], CacheAfter(plan, ticks[..n], factor).value, factor, name, |plan|, l, r))
    && forall m :: n < m < |ticks| ==> SilentIn(plan, ticks, factor, name, m)
  }

  /** The most recent answer is one that was given, and none was given after it. */
  lemma {:induction false} LastAnswerMeaning(plan: seq<Level>, ticks: seq<Tick>, factor: Factor, name: AgentName)
    requires CacheAfter(plan, ticks, factor).Some?
    ensures LastAnswer(plan, ticks, factor, name).None? ==> forall n :: 0 <= n < |ticks| ==> SilentIn(plan, ticks, factor, name, n)
    ensures LastAnswer(plan, ticks, factor, name).Some? ==>
              exists n :: GenuineAt(plan, ticks, factor, name, n, LastAnswer(plan, ticks, factor, name).value)
  {
    if ticks != [] {
      var n := |ticks| - 1;
      var front, cache, last := ticks[..n], CacheAfter(plan, ticks[..n], factor).value, LastAnswer(plan, ticks, factor, name);
      LastAnswerMeaning(plan, front, factor, name);
      LastInTickMeaning(plan, ticks[n], cache, factor, name, |plan|);
      if LastInTick(plan, ticks[n], cache, factor, name, |plan|).Some? {
        assert GenuineAt(plan, ticks, factor, name, n, last.value);
      } else {
        assert SilentIn(plan, ticks, factor, name, n);
        forall m | 0 <= m < n ensures SilentIn(plan, front, factor, name, m) <==> SilentIn(plan, ticks, factor, name, m) {
          SilentPrefix(plan, ticks, factor, name, m, n);
        }
        if last.Some? {
          var m :| GenuineAt(plan, front, factor, name, m, last.value);
          GenuineSurvives(plan, ticks, factor, name, m, last.value);
        }
      }
    }
  }

  lemma SilentPrefix(plan: seq<Level>, ticks: seq<Tick>, factor: Factor, name: AgentName, m: nat, len: nat)
    requires m < len <= |ticks|
    ensures SilentIn(plan, ticks[..len], factor, name, m) <==> SilentIn(plan, ticks, factor, name, m)
  {
    assert ticks[..len][..m] == ticks[..m];
    assert forall l :: 0 <= l < |plan| ==> AnswerAt(plan, ticks[..len], factor, name, m, l) == AnswerAt(plan, ticks, factor, name, m, l);
  }

  lemma GenuineSurvives(plan: seq<Level>, ticks: seq<Tick>, factor: Factor, name: AgentName, m: int, r: AgentResult)
    requires ticks != [] && GenuineAt(plan, ticks[..|ticks| - 1], factor, name, m, r) && SilentIn(plan, ticks, factor, name, |ticks| - 1)
    ensures GenuineAt(plan, ticks, factor, name, m, r)
  {
    var n := |ticks| - 1;
    assert ticks[..n][..m] == ticks[..m];
    forall i | m < i < |ticks| ensures SilentIn(plan, ticks, factor, name, i) {
      if i < n { SilentPrefix(plan, ticks, factor, name, i, n); }
    }
  }

  /** So a failing agent shows its most recent genuine risk, with the confidence of that answer decayed
      once, by the time since it was computed, however many ticks it has been failing. */
  lemma SubstituteDecaysOnce(plan: seq<Level>, ticks: seq<Tick>, factor: Factor, name: AgentName, k: nat) returns (r: AgentResult)
    requires ticks != [] && CacheAfter(plan, ticks, factor).Some?
    requires k < |plan| && name in plan[k] && (forall l :: k < l < |plan| ==> name !in plan[l])
    requires AnswerAt(plan, ticks, factor, name, |ticks| - 1, k).None?
    ensures var front, t := ticks[..|ticks| - 1], ticks[|ticks| - 1];
            && CacheAfter(plan, front, factor).Some? && RunLevels(plan, t, CacheAfter(plan, front, factor).value, factor).Some?
            && Some(r) == OrElse(LastInTick(plan, t, CacheAfter(plan, front, factor).value, factor, name, k), LastAnswer(plan, front, factor, name))
            && var shown := RunLevels(plan, t, CacheAfter(plan, front, factor).value, factor).value.results;
               name in shown && StandsIn(shown[name], r, t.now, factor)
  {
    var front, t := ticks[..|ticks| - 1], ticks[|ticks| - 1];
    var cache := CacheAfter(plan, front, factor).value;
    AgentFate(plan, t, cache, factor, name, k);
    CacheInTick(plan, t, cache, factor, name, k);
    CacheHoldsLastGenuine(plan, front, factor, name);
    var cached := CachedIn(RunLevels(plan[..k], t, cache, factor).value.cache, name);
    assert AnswerAtLevel(plan, t, cache, factor, name, k).None?;
    assert cached == OrElse(LastInTick(plan, t, cache, factor, name, k), LastAnswer(plan, front, factor, name));
    r := cached.value;
  }
}
