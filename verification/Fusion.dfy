/** The fusion formula: a weighted sum of the agents' risks, multiplied by an interaction bonus and
    capped, with the least of their confidences. */
module Fusion {
  import opened Common
  import opened Measures

  datatype AgentName = AgentName(name: string)

  datatype AgentResult = AgentResult(risk: real, confidence: real, computedAt: int)

  type Results = map<AgentName, AgentResult>

  datatype Weight = Weight(agent: AgentName, value: real)

  datatype FusionConfig = FusionConfig(weights: seq<Weight>, kappa: real, elevatedFloor: real)

  datatype FusionResult = FusionResult(score: real, confidence: real, multiplier: real, bonusFired: bool)

  function WeightSum(w: seq<Weight>): real { if w == [] then 0.0 else WeightSum(w[..|w| - 1]) + w[|w| - 1].value }

  /** Construction refuses weights that do not sum to one, but not negative ones. */
  ghost predicate SumsToOne(w: seq<Weight>) { WeightSum(w) == 1.0 }

  ghost predicate NonNegative(w: seq<Weight>) { forall i :: 0 <= i < |w| ==> w[i].value >= 0.0 }

  /** The weights come from a dictionary, so no agent has two. */
  ghost predicate DistinctAgents(w: seq<Weight>) { forall i, j :: 0 <= i < j < |w| ==> w[i].agent != w[j].agent }

  ghost predicate ValidConfig(cfg: FusionConfig) { SumsToOne(cfg.weights) && NonNegative(cfg.weights) && cfg.kappa >= 0.0 }

  predicate AllReported(w: seq<Weight>, r: Results) { forall i :: 0 <= i < |w| ==> w[i].agent in r }

  function Base(w: seq<Weight>, r: Results): real
    requires AllReported(w, r)
  {
    if w == [] then 0.0 else Base(w[..|w| - 1], r) + w[|w| - 1].value * r[w[|w| - 1].agent].risk
  }

  function ElevatedCount(w: seq<Weight>, r: Results, floor: real): nat
    requires AllReported(w, r)
  {
    if w == [] then 0 else ElevatedCount(w[..|w| - 1], r, floor) + if r[w[|w| - 1].agent].risk >= floor then 1 else 0
  }

  function Multiplier(cfg: FusionConfig, r: Results): real
    requires AllReported(cfg.weights, r)
  {
    1.0 + cfg.kappa * Max(0, ElevatedCount(cfg.weights, r, cfg.elevatedFloor) - 1) as real
  }

  function LeastConfidence(w: seq<Weight>, r: Results): real
    requires w != [] && AllReported(w, r)
  {
    var last := r[w[|w| - 1].agent].confidence;
    if |w| == 1 then last
    else
      var rest := LeastConfidence(w[..|w| - 1], r);
      if last < rest then last else rest
  }

  function Capped(x: real): real { if x < 100.0 then x else 100.0 }

  /** A missing agent result, or no agent at all, is an integration failure. */
  function Fuse(cfg: FusionConfig, r: Results): Option<FusionResult> {
    if cfg.weights == [] || !AllReported(cfg.weights, r) then None
    else
      var m := Multiplier(cfg, r);
      Some(FusionResult(Capped(Base(cfg.weights, r) * m), LeastConfidence(cfg.weights, r), m, m > 1.0))
  }

  ghost predicate RisksWithin(w: seq<Weight>, r: Results, lo: real, hi: real)
    requires AllReported(w, r)
  {
    forall i :: 0 <= i < |w| ==> lo <= r[w[i].agent].risk <= hi
  }

  lemma {:induction false} BaseBounds(w: seq<Weight>, r: Results, lo: real, hi: real)
    requires AllReported(w, r) && RisksWithin(w, r, lo, hi)
    requires NonNegative(w)
    ensures Spans(lo, WeightSum(w), Base(w, r), hi)
  {
    if w != [] {
      var front, last := w[..|w| - 1], w[|w| - 1];
      BaseBounds(front, r, lo, hi);
      SpansStep(lo, hi, WeightSum(front), Base(front, r), last.value, r[last.agent].risk, WeightSum(w), Base(w, r));
    }
  }

  lemma MultiplierAtLeastOne(cfg: FusionConfig, r: Results)
    requires AllReported(cfg.weights, r) && cfg.kappa >= 0.0
    ensures Multiplier(cfg, r) >= 1.0
  {
    var n := Max(0, ElevatedCount(cfg.weights, r, cfg.elevatedFloor) - 1) as real;
    assert cfg.kappa * n >= 0.0;
  }

  /** The compound score of risks on the 0..100 scale is on that scale, and is never less than the
      plain weighted mean (itself between the least and the greatest risk). */
  lemma ScoreBounds(cfg: FusionConfig, r: Results, lo: real, hi: real)
    requires ValidConfig(cfg) && Fuse(cfg, r).Some? && 0.0 <= lo <= hi <= 100.0 && RisksWithin(cfg.weights, r, lo, hi)
    ensures lo <= Base(cfg.weights, r) <= hi
    ensures Base(cfg.weights, r) <= Fuse(cfg, r).value.score <= 100.0
  {
    BaseInRange(cfg.weights, r, lo, hi);
    MultiplierAtLeastOne(cfg, r);
    CappedStretch(Base(cfg.weights, r), Multiplier(cfg, r));
  }

  lemma BaseInRange(w: seq<Weight>, r: Results, lo: real, hi: real)
    requires SumsToOne(w) && NonNegative(w) && AllReported(w, r) && RisksWithin(w, r, lo, hi)
    ensures lo <= Base(w, r) <= hi
  {
    BaseBounds(w, r, lo, hi);
    assert lo * 1.0 == lo && hi * 1.0 == hi;
  }

  lemma CappedStretch(b: real, m: real)
    requires 0.0 <= b <= 100.0 && m >= 1.0
    ensures b <= Capped(b * m) <= 100.0
  {
    Stretch(b, m);
  }

  lemma Stretch(b: real, m: real)
    requires b >= 0.0 && m >= 1.0
    ensures b * m >= b
  {
    assert b * (m - 1.0) >= 0.0;
    assert b * m == b * (m - 1.0) + b;
  }

  /** Every agent's risk is at least as high in `r'` as in `r`. */
  ghost predicate RisksRise(w: seq<Weight>, r: Results, r': Results)
    requires AllReported(w, r) && AllReported(w, r')
  {
    forall i :: 0 <= i < |w| ==> r[w[i].agent].risk <= r'[w[i].agent].risk
  }

  lemma {:induction false} BaseMonotone(w: seq<Weight>, r: Results, r': Results)
    requires AllReported(w, r) && AllReported(w, r') && RisksRise(w, r, r')
    requires NonNegative(w)
    ensures Base(w, r) <= Base(w, r')
  {
    if w != [] {
      BaseMonotone(w[..|w| - 1], r, r');
      TermMonotone(w[|w| - 1].value, r[w[|w| - 1].agent].risk, r'[w[|w| - 1].agent].risk);
    }
  }

  lemma TermMonotone(v: real, x: real, y: real)
    requires v >= 0.0 && x <= y
    ensures v * x <= v * y
  {
    assert v * (y - x) >= 0.0;
    assert v * y == v * (y - x) + v * x;
  }

  lemma {:induction false} CountMonotone(w: seq<Weight>, r: Results, r': Results, floor: real)
    requires AllReported(w, r) && AllReported(w, r') && RisksRise(w, r, r')
    ensures ElevatedCount(w, r, floor) <= ElevatedCount(w, r', floor)
  {
    if w != [] { CountMonotone(w[..|w| - 1], r, r', floor); }
  }

  /** Raising any agents' risks never lowers the compound score. */
  lemma ScoreMonotone(cfg: FusionConfig, r: Results, r': Results)
    requires ValidConfig(cfg) && Fuse(cfg, r).Some? && Fuse(cfg, r').Some?
    requires RisksRise(cfg.weights, r, r') && RisksWithin(cfg.weights, r, 0.0, 100.0)
    ensures Fuse(cfg, r).value.score <= Fuse(cfg, r').value.score
  {
    BaseBounds(cfg.weights, r, 0.0, 100.0);
    BaseMonotone(cfg.weights, r, r');
    MultiplierAtLeastOne(cfg, r);
    MultiplierMonotone(cfg, r, r');
    ProductMonotone(Base(cfg.weights, r), Base(cfg.weights, r'), Multiplier(cfg, r), Multiplier(cfg, r'));
  }

  lemma MultiplierMonotone(cfg: FusionConfig, r: Results, r': Results)
    requires AllReported(cfg.weights, r) && AllReported(cfg.weights, r') && RisksRise(cfg.weights, r, r') && cfg.kappa >= 0.0
    ensures Multiplier(cfg, r) <= Multiplier(cfg, r')
  {
    CountMonotone(cfg.weights, r, r', cfg.elevatedFloor);
    var n := Max(0, ElevatedCount(cfg.weights, r, cfg.elevatedFloor) - 1) as real;
    var n' := Max(0, ElevatedCount(cfg.weights, r', cfg.elevatedFloor) - 1) as real;
    TermMonotone(cfg.kappa, n, n');
  }

  lemma ProductMonotone(a: real, b: real, m: real, n: real)
    requires 0.0 <= a <= b && 1.0 <= m <= n
    ensures a * m <= b * n
  {
    TermMonotone(m, a, b);
    TermMonotone(b, m, n);
  }

  /** The bonus rule fires exactly when a positive bonus meets two or more elevated agents. */
  lemma BonusFiresExactlyWhen(cfg: FusionConfig, r: Results)
    requires Fuse(cfg, r).Some?
    ensures Fuse(cfg, r).value.bonusFired <==> cfg.kappa > 0.0 && ElevatedCount(cfg.weights, r, cfg.elevatedFloor) >= 2
  {
    PositiveMultiple(cfg.kappa, Max(0, ElevatedCount(cfg.weights, r, cfg.elevatedFloor) - 1));
  }

  lemma PositiveMultiple(x: real, n: nat)
    ensures x * n as real > 0.0 <==> x > 0.0 && n > 0
  {
    if x > 0.0 && n > 0 {
      TermMonotone(x, 1.0, n as real);
    } else if x <= 0.0 {
      TermMonotone(-x, 0.0, n as real);
    }
  }

  /** One doubtful agent is enough: the compound confidence is the least of theirs. */
  lemma {:induction false} ConfidenceIsLeast(w: seq<Weight>, r: Results)
    requires w != [] && AllReported(w, r)
    ensures forall i :: 0 <= i < |w| ==> LeastConfidence(w, r) <= r[w[i].agent].confidence
    ensures exists i :: 0 <= i < |w| && LeastConfidence(w, r) == r[w[i].agent].confidence
  {
    if |w| > 1 {
      var front := w[..|w| - 1];
      ConfidenceIsLeast(front, r);
      var i :| 0 <= i < |front| && LeastConfidence(front, r) == r[front[i].agent].confidence;
      assert w[i] == front[i];
      assert LeastConfidence(w, r) == r[w[i].agent].confidence || LeastConfidence(w, r) == r[w[|w| - 1].agent].confidence;
      assert forall k :: 0 <= k < |front| ==> w[k] == front[k];
    } else {
      assert LeastConfidence(w, r) == r[w[0].agent].confidence;
    }
  }

  // ---------------------------------------------------------------- when the configuration is sane

  function AgentsOf(w: seq<Weight>): set<AgentName> { set x | x in w :: x.agent }

  /** Agent `odd` reports `lo`, every other agent `hi`. */
  function Spike(w: seq<Weight>, odd: AgentName, lo: real, hi: real): Results {
    map a | a in AgentsOf(w) :: AgentResult(if a == odd then lo else hi, 1.0, 0)
  }

  /** The weighted base is a mean of these results, if the agents all report within the bounds. */
  ghost predicate IsMean(w: seq<Weight>, r: Results, lo: real, hi: real) {
    AllReported(w, r) && RisksWithin(w, r, lo, hi) ==> lo <= Base(w, r) <= hi
  }

  lemma SpikeReports(w: seq<Weight>, odd: AgentName, lo: real, hi: real)
    ensures AllReported(w, Spike(w, odd, lo, hi))
    ensures forall i :: 0 <= i < |w| ==> Spike(w, odd, lo, hi)[w[i].agent].risk == if w[i].agent == odd then lo else hi
  {
    forall i | 0 <= i < |w| ensures w[i].agent in AgentsOf(w) {
      assert w[i] in w;
    }
  }

  /** The weighted sum when weights of sum `t` report `hi`, except a weight `v` that reports `lo`. */
  function SpikeValue(lo: real, hi: real, t: real, v: real): real { hi * t - v * (hi - lo) }

  /** The base of a spike at agent `k` over the first `n` weights. */
  lemma {:induction false} SpikeBase(w: seq<Weight>, r: Results, k: nat, lo: real, hi: real, n: nat)
    requires DistinctAgents(w) && k < |w| && n <= |w| && AllReported(w, r)
    requires forall i :: 0 <= i < |w| ==> r[w[i].agent].risk == if w[i].agent == w[k].agent then lo else hi
    ensures Base(w[..n], r) == SpikeValue(lo, hi, WeightSum(w[..n]), if k < n then w[k].value else 0.0)
  {
    if n > 0 {
      SpikeBase(w, r, k, lo, hi, n - 1);
      assert w[..n][..n - 1] == w[..n - 1];
      SpikeTerm(lo, hi, WeightSum(w[..n - 1]), w[n - 1].value, if k < n - 1 then w[k].value else 0.0);
    }
  }

  lemma SpikeOfAll(w: seq<Weight>, k: nat, lo: real, hi: real)
    requires DistinctAgents(w) && k < |w|
    ensures AllReported(w, Spike(w, w[k].agent, lo, hi))
    ensures Base(w, Spike(w, w[k].agent, lo, hi)) == SpikeValue(lo, hi, WeightSum(w), w[k].value)
  {
    SpikeReports(w, w[k].agent, lo, hi);
    SpikeBase(w, Spike(w, w[k].agent, lo, hi), k, lo, hi, |w|);
    assert w[..|w|] == w;
  }

  lemma SpikeTerm(lo: real, hi: real, t: real, v: real, d: real)
    ensures SpikeValue(lo, hi, t, d) + v * hi == SpikeValue(lo, hi, t + v, d)
    ensures d == 0.0 ==> SpikeValue(lo, hi, t, d) + v * lo == SpikeValue(lo, hi, t + v, v)
  {
  }

  /** The base is always a mean of the risks exactly when no weight is negative. */
  lemma MeanExactlyWhen(w: seq<Weight>, lo: real, hi: real)
    requires SumsToOne(w) && DistinctAgents(w) && lo < hi
    ensures (forall r :: IsMean(w, r, lo, hi)) <==> NonNegative(w)
  {
    if NonNegative(w) {
      forall r ensures IsMean(w, r, lo, hi) {
        if AllReported(w, r) && RisksWithin(w, r, lo, hi) { BaseInRange(w, r, lo, hi); }
      }
    } else {
      var k :| 0 <= k < |w| && w[k].value < 0.0;
      NegativeOvershoots(w, k, lo, hi);
    }
  }

  /** With a negative weight, a spike at its agent takes the base above every risk. */
  lemma NegativeOvershoots(w: seq<Weight>, k: nat, lo: real, hi: real)
    requires SumsToOne(w) && DistinctAgents(w) && lo < hi && k < |w| && w[k].value < 0.0
    ensures !IsMean(w, Spike(w, w[k].agent, lo, hi), lo, hi)
  {
    SpikeReports(w, w[k].agent, lo, hi);
    SpikeOfAll(w, k, lo, hi);
    Overshoot(lo, hi, WeightSum(w), w[k].value);
  }

  lemma Overshoot(lo: real, hi: real, t: real, v: real)
    requires t == 1.0 && v < 0.0 && lo < hi
    ensures SpikeValue(lo, hi, t, v) > hi
  {
    Damped(-v, hi - lo);
    assert hi * t == hi;
  }

  /** All agents report the same risk. */
  function Uniform(w: seq<Weight>, x: real): Results { map a | a in AgentsOf(w) :: AgentResult(x, 1.0, 0) }

  lemma UniformReports(w: seq<Weight>, x: real)
    ensures AllReported(w, Uniform(w, x)) && forall i :: 0 <= i < |w| ==> Uniform(w, x)[w[i].agent].risk == x
  {
    forall i | 0 <= i < |w| ensures w[i].agent in AgentsOf(w) {
      assert w[i] in w;
    }
  }

  ghost predicate AllReport(w: seq<Weight>, r: Results, x: real) { AllReported(w, r) && forall i :: 0 <= i < |w| ==> r[w[i].agent].risk == x }

  lemma {:induction false} UniformBase(w: seq<Weight>, r: Results, x: real, floor: real)
    requires AllReport(w, r, x)
    ensures Base(w, r) == x * WeightSum(w) && ElevatedCount(w, r, floor) == if x >= floor then |w| else 0
  {
    if w != [] {
      var front, last := w[..|w| - 1], w[|w| - 1];
      UniformBase(front, r, x, floor);
      assert x * (WeightSum(front) + last.value) == x * WeightSum(front) + last.value * x;
    }
  }

  /** The multiplier when all agents are elevated. */
  function FullMultiplier(cfg: FusionConfig): real { 1.0 + cfg.kappa * Max(0, |cfg.weights| - 1) as real }

  lemma UniformScore(cfg: FusionConfig, x: real)
    requires SumsToOne(cfg.weights)
    ensures AllReport(cfg.weights, Uniform(cfg.weights, x), x) && Fuse(cfg, Uniform(cfg.weights, x)).Some?
    ensures Base(cfg.weights, Uniform(cfg.weights, x)) == x
    ensures Fuse(cfg, Uniform(cfg.weights, x)).value.score == Capped(if x >= cfg.elevatedFloor then x * FullMultiplier(cfg) else x)
  {
    var r := Uniform(cfg.weights, x);
    UniformReports(cfg.weights, x);
    UniformBase(cfg.weights, r, x, cfg.elevatedFloor);
    TimesOne(Base(cfg.weights, r), x, WeightSum(cfg.weights));
    UniformMultiplier(cfg, r, x);
    SameProduct(Base(cfg.weights, r), Multiplier(cfg, r), x, if x >= cfg.elevatedFloor then FullMultiplier(cfg) else 1.0);
  }

  lemma UniformMultiplier(cfg: FusionConfig, r: Results, x: real)
    requires AllReport(cfg.weights, r, x)
    ensures Multiplier(cfg, r) == if x >= cfg.elevatedFloor then FullMultiplier(cfg) else 1.0
  {
    UniformBase(cfg.weights, r, x, cfg.elevatedFloor);
  }

  lemma SameProduct(a: real, b: real, x: real, y: real)
    requires a == x && b == y
    ensures a * b == x * y
  {
  }

  lemma TimesOne(b: real, x: real, t: real)
    requires b == x * t && t == 1.0
    ensures b == x && x * 1.0 == x
  {
  }

  ghost predicate OnScale(w: seq<Weight>, r: Results) { AllReported(w, r) && RisksWithin(w, r, 0.0, 100.0) }

  /** Raising risks on the scale never lowers the score. */
  ghost predicate MonotoneFor(cfg: FusionConfig, r: Results, r': Results) {
    OnScale(cfg.weights, r) && OnScale(cfg.weights, r') && RisksRise(cfg.weights, r, r') && cfg.weights != [] ==>
      Fuse(cfg, r).value.score <= Fuse(cfg, r').value.score
  }

  /** No agent's rise can cost more by the bonus than it adds: the bonus is not negative, or it cannot
      apply, or it always applies and does not turn the sign. */
  ghost predicate BonusHarmless(cfg: FusionConfig) {
    || cfg.kappa >= 0.0 || |cfg.weights| < 2 || cfg.elevatedFloor > 100.0
    || (cfg.elevatedFloor <= 0.0 && FullMultiplier(cfg) >= 0.0)
  }

  /** Every report on the scale counts as elevated, and the bonus then cancels the score. */
  ghost predicate AlwaysCancelled(cfg: FusionConfig) { cfg.elevatedFloor <= 0.0 && FullMultiplier(cfg) == 0.0 }

  /** For every configuration that can be constructed: the compound score is monotone exactly when no
      weight is negative and the bonus is harmless, or the score is always zero. */
  lemma MonotoneExactlyWhen(cfg: FusionConfig)
    requires SumsToOne(cfg.weights) && DistinctAgents(cfg.weights)
    ensures (forall r, r' :: MonotoneFor(cfg, r, r')) <==> (NonNegative(cfg.weights) && BonusHarmless(cfg)) || AlwaysCancelled(cfg)
  {
    if (NonNegative(cfg.weights) && BonusHarmless(cfg)) || AlwaysCancelled(cfg) {
      forall r, r' ensures MonotoneFor(cfg, r, r') {
        if OnScale(cfg.weights, r) && OnScale(cfg.weights, r') && RisksRise(cfg.weights, r, r') && cfg.weights != [] {
          if AlwaysCancelled(cfg) {
            CancelledScore(cfg, r);
            CancelledScore(cfg, r');
          } else {
            HarmlessIsMonotone(cfg, r, r');
          }
        }
      }
    } else if NonNegative(cfg.weights) {
      HarmfulIsNotMonotone(cfg);
    } else {
      var k :| 0 <= k < |cfg.weights| && cfg.weights[k].value < 0.0;
      NegativeIsNotMonotone(cfg, k);
    }
  }

  lemma CancelledScore(cfg: FusionConfig, r: Results)
    requires AlwaysCancelled(cfg) && OnScale(cfg.weights, r) && cfg.weights != []
    ensures Fuse(cfg, r).value.score == 0.0
  {
    CountBounds(cfg.weights, r, cfg.elevatedFloor);
    SameProduct(Base(cfg.weights, r), Multiplier(cfg, r), Base(cfg.weights, r), 0.0);
  }

  /** With a negative weight some agent's rise lowers the score, unless the score is always zero. */
  lemma NegativeIsNotMonotone(cfg: FusionConfig, k: nat)
    requires SumsToOne(cfg.weights) && DistinctAgents(cfg.weights) && !AlwaysCancelled(cfg)
    requires k < |cfg.weights| && cfg.weights[k].value < 0.0
    ensures exists r, r' :: !MonotoneFor(cfg, r, r')
  {
    var m := FullMultiplier(cfg);
    if cfg.elevatedFloor > 0.0 {
      var x := SmallReport(cfg.weights[k].value, 1.0, cfg.elevatedFloor);
      var r, r' := SpikeDrops(cfg, k, x, 1.0);
    } else if m > 0.0 {
      var x := SmallReport(cfg.weights[k].value, m, 200.0);
      var r, r' := SpikeDrops(cfg, k, x, m);
    } else {
      assert 100.0 * m < 0.0;
      UniformDrops(cfg, 0.0, 100.0);
    }
  }

  /** A report so small that neither the floor nor the cap interferes. */
  lemma SmallReport(v: real, m: real, f: real) returns (x: real)
    requires v < 0.0 && m > 0.0 && f > 0.0
    ensures 0.0 < x <= 100.0 && x < f && Lifted(x, v) * m <= 100.0
  {
    var c := (1.0 - v) * m;
    Damped(1.0 - v, m);
    x := ShareOf(c, f);
    Regroup(x, v, m);
  }

  lemma ShareOf(c: real, f: real) returns (x: real)
    requires c > 0.0 && f > 0.0
    ensures 0.0 < x <= 100.0 && x < f && x * c <= 100.0
  {
    var y := 100.0 / c;
    assert y * c == 100.0 && y > 0.0;
    x := Least(y, f);
    TermMonotone(c, x, y);
  }

  lemma Least(y: real, f: real) returns (x: real)
    requires y > 0.0 && f > 0.0
    ensures 0.0 < x <= 100.0 && x < f && x <= y
  {
    x := if f / 2.0 < 100.0 then f / 2.0 else 100.0;
    if y < x { x := y; }
  }

  lemma Regroup(x: real, v: real, m: real)
    ensures Lifted(x, v) * m == x * ((1.0 - v) * m)
  {
    assert x - v * x == x * (1.0 - v);
    assert x * (1.0 - v) * m == x * ((1.0 - v) * m);
  }

  /** A uniform report of `x`, less what a weight `v` adds to it. */
  function Lifted(x: real, v: real): real { x - v * x }

  /** All others report `x`, agent `k` nothing. */
  lemma SpikeFromZero(w: seq<Weight>, k: nat, x: real)
    requires SumsToOne(w) && DistinctAgents(w) && k < |w|
    ensures AllReported(w, Spike(w, w[k].agent, 0.0, x)) && Base(w, Spike(w, w[k].agent, 0.0, x)) == Lifted(x, w[k].value)
  {
    SpikeOfAll(w, k, 0.0, x);
    SpikeAtOne(x, WeightSum(w), w[k].value);
  }

  lemma SpikeAtOne(x: real, t: real, v: real)
    requires t == 1.0
    ensures SpikeValue(0.0, x, t, v) == Lifted(x, v)
  {
  }

  lemma {:induction false} CountBelow(w: seq<Weight>, r: Results, floor: real)
    requires AllReported(w, r) && forall i :: 0 <= i < |w| ==> r[w[i].agent].risk < floor
    ensures ElevatedCount(w, r, floor) == 0
  {
    if w != [] { CountBelow(w[..|w| - 1], r, floor); }
  }

  /** Reports that are all below the floor, or all above it because everything is. */
  lemma PlainMultiplier(cfg: FusionConfig, r: Results, m: real)
    requires OnScale(cfg.weights, r)
    requires || (cfg.elevatedFloor <= 0.0 && m == FullMultiplier(cfg))
             || ((forall i :: 0 <= i < |cfg.weights| ==> r[cfg.weights[i].agent].risk < cfg.elevatedFloor) && m == 1.0)
    ensures Multiplier(cfg, r) == m
  {
    if cfg.elevatedFloor <= 0.0 {
      CountBounds(cfg.weights, r, cfg.elevatedFloor);
    } else {
      CountBelow(cfg.weights, r, cfg.elevatedFloor);
    }
  }

  lemma ScoreOf(cfg: FusionConfig, r: Results, b: real, m: real)
    requires AllReported(cfg.weights, r) && cfg.weights != [] && Base(cfg.weights, r) == b && Multiplier(cfg, r) == m
    ensures Fuse(cfg, r).Some? && Fuse(cfg, r).value.score == Capped(b * m)
  {
    SameProduct(Base(cfg.weights, r), Multiplier(cfg, r), b, m);
  }

  /** Under the same positive multiplier and below the cap, a lower base scores lower. */
  lemma LowerBaseScoresLower(cfg: FusionConfig, r: Results, r': Results, b: real, b': real, m: real)
    requires OnScale(cfg.weights, r) && OnScale(cfg.weights, r') && RisksRise(cfg.weights, r, r') && cfg.weights != []
    requires Base(cfg.weights, r) == b && Base(cfg.weights, r') == b' && Multiplier(cfg, r) == Multiplier(cfg, r') == m
    requires b' < b && m > 0.0 && b * m <= 100.0
    ensures !MonotoneFor(cfg, r, r')
  {
    ScoreOf(cfg, r, b, m);
    ScoreOf(cfg, r', b', m);
    CappedOrder(b, b', m);
  }

  lemma CappedOrder(b: real, b': real, m: real)
    requires b' < b && m > 0.0 && b * m <= 100.0
    ensures Capped(b' * m) < Capped(b * m)
  {
    Damped(b - b', m);
    assert (b - b') * m == b * m - b' * m;
  }

  /** The agent of a negative weight rises from nothing to what the others report. */
  lemma SpikeDrops(cfg: FusionConfig, k: nat, x: real, m: real) returns (r: Results, r': Results)
    requires SumsToOne(cfg.weights) && DistinctAgents(cfg.weights) && k < |cfg.weights| && cfg.weights[k].value < 0.0
    requires 0.0 < x <= 100.0 && m > 0.0 && Lifted(x, cfg.weights[k].value) * m <= 100.0
    requires (cfg.elevatedFloor <= 0.0 && m == FullMultiplier(cfg)) || (x < cfg.elevatedFloor && m == 1.0)
    ensures !MonotoneFor(cfg, r, r')
  {
    var b;
    r, r', b := SpikePair(cfg, k, x, m);
    LowerBaseScoresLower(cfg, r, r', b, x, m);
  }

  lemma SpikePair(cfg: FusionConfig, k: nat, x: real, m: real) returns (r: Results, r': Results, b: real)
    requires SumsToOne(cfg.weights) && DistinctAgents(cfg.weights) && k < |cfg.weights| && cfg.weights[k].value < 0.0 && 0.0 < x <= 100.0
    requires (cfg.elevatedFloor <= 0.0 && m == FullMultiplier(cfg)) || (x < cfg.elevatedFloor && m == 1.0)
    ensures OnScale(cfg.weights, r) && OnScale(cfg.weights, r') && RisksRise(cfg.weights, r, r')
    ensures Base(cfg.weights, r) == b && b == Lifted(x, cfg.weights[k].value) && x < b && Base(cfg.weights, r') == x
    ensures Multiplier(cfg, r) == Multiplier(cfg, r') == m
  {
    r, r', b := Spike(cfg.weights, cfg.weights[k].agent, 0.0, x), Uniform(cfg.weights, x), Lifted(x, cfg.weights[k].value);
    SpikeBelowUniform(cfg.weights, k, x);
    SpikeMultiplier(cfg, k, x, m);
    UniformMean(cfg.weights, x);
    SpikeFromZero(cfg.weights, k, x);
    LiftedExceeds(x, cfg.weights[k].value);
  }

  lemma SpikeMultiplier(cfg: FusionConfig, k: nat, x: real, m: real)
    requires k < |cfg.weights| && 0.0 < x <= 100.0
    requires (cfg.elevatedFloor <= 0.0 && m == FullMultiplier(cfg)) || (x < cfg.elevatedFloor && m == 1.0)
    ensures AllReported(cfg.weights, Spike(cfg.weights, cfg.weights[k].agent, 0.0, x)) && AllReported(cfg.weights, Uniform(cfg.weights, x))
    ensures Multiplier(cfg, Spike(cfg.weights, cfg.weights[k].agent, 0.0, x)) == Multiplier(cfg, Uniform(cfg.weights, x)) == m
  {
    SpikeBelowUniform(cfg.weights, k, x);
    PlainMultiplier(cfg, Spike(cfg.weights, cfg.weights[k].agent, 0.0, x), m);
    PlainMultiplier(cfg, Uniform(cfg.weights, x), m);
  }

  lemma UniformMean(w: seq<Weight>, x: real)
    requires SumsToOne(w)
    ensures AllReported(w, Uniform(w, x)) && Base(w, Uniform(w, x)) == x
  {
    UniformReports(w, x);
    UniformBase(w, Uniform(w, x), x, 0.0);
    TimesOne(Base(w, Uniform(w, x)), x, WeightSum(w));
  }

  lemma SpikeBelowUniform(w: seq<Weight>, k: nat, x: real)
    requires k < |w| && 0.0 < x <= 100.0
    ensures OnScale(w, Spike(w, w[k].agent, 0.0, x)) && OnScale(w, Uniform(w, x)) && RisksRise(w, Spike(w, w[k].agent, 0.0, x), Uniform(w, x))
    ensures RisksWithin(w, Spike(w, w[k].agent, 0.0, x), 0.0, x) && RisksWithin(w, Uniform(w, x), 0.0, x)
  {
    SpikeReports(w, w[k].agent, 0.0, x);
    UniformReports(w, x);
  }

  lemma LiftedExceeds(x: real, v: real)
    requires x > 0.0 && v < 0.0
    ensures Lifted(x, v) > x
  {
    Damped(-v, x);
  }

  lemma {:induction false} CountBounds(w: seq<Weight>, r: Results, floor: real)
    requires OnScale(w, r)
    ensures ElevatedCount(w, r, floor) <= |w|
    ensures floor > 100.0 ==> ElevatedCount(w, r, floor) == 0
    ensures floor <= 0.0 ==> ElevatedCount(w, r, floor) == |w|
  {
    if w != [] { CountBounds(w[..|w| - 1], r, floor); }
  }

  lemma HarmlessIsMonotone(cfg: FusionConfig, r: Results, r': Results)
    requires SumsToOne(cfg.weights) && NonNegative(cfg.weights) && BonusHarmless(cfg) && cfg.weights != []
    requires OnScale(cfg.weights, r) && OnScale(cfg.weights, r') && RisksRise(cfg.weights, r, r')
    ensures Fuse(cfg, r).value.score <= Fuse(cfg, r').value.score
  {
    if cfg.kappa >= 0.0 {
      ScoreMonotone(cfg, r, r');
    } else {
      CountBounds(cfg.weights, r, cfg.elevatedFloor);
      CountBounds(cfg.weights, r', cfg.elevatedFloor);
      BaseMonotone(cfg.weights, r, r');
      SameMultiplierMonotone(cfg, r, r', Multiplier(cfg, r), Base(cfg.weights, r), Base(cfg.weights, r'));
    }
  }

  lemma SameMultiplierMonotone(cfg: FusionConfig, r: Results, r': Results, m: real, b: real, b': real)
    requires AllReported(cfg.weights, r) && AllReported(cfg.weights, r') && cfg.weights != []
    requires Base(cfg.weights, r) == b <= b' == Base(cfg.weights, r') && Multiplier(cfg, r) == Multiplier(cfg, r') == m >= 0.0
    ensures Fuse(cfg, r).value.score <= Fuse(cfg, r').value.score
  {
    ScoreOf(cfg, r, b, m);
    ScoreOf(cfg, r', b', m);
    CappedMonotone(b, b', m);
  }

  lemma CappedMonotone(b: real, b': real, m: real)
    requires b <= b' && m >= 0.0
    ensures Capped(b * m) <= Capped(b' * m)
  {
    TermMonotone(m, b, b');
    assert b * m == m * b && b' * m == m * b';
  }

  lemma HarmfulIsNotMonotone(cfg: FusionConfig)
    requires SumsToOne(cfg.weights) && !BonusHarmless(cfg)
    ensures exists r, r' :: !MonotoneFor(cfg, r, r')
  {
    var m := FullMultiplier(cfg);
    DampingMultiplier(cfg);
    if cfg.elevatedFloor <= 0.0 {
      assert 100.0 * m < 0.0;
      UniformDrops(cfg, 0.0, 100.0);
    } else {
      var f := cfg.elevatedFloor;
      var x := JustBelow(f, m);
      UniformDrops(cfg, x, f);
    }
  }

  lemma DampingMultiplier(cfg: FusionConfig)
    requires cfg.kappa < 0.0 && |cfg.weights| >= 2
    ensures FullMultiplier(cfg) < 1.0
  {
    var n := (|cfg.weights| - 1) as real;
    TermMonotone(-cfg.kappa, 1.0, n);
  }

  lemma JustBelow(f: real, m: real) returns (x: real)
    requires 0.0 < f && m < 1.0
    ensures 0.0 <= x < f && f * m < x
  {
    Damped(f, 1.0 - m);
    assert f * (1.0 - m) == f - f * m;
    x := Between(f * m, f);
  }

  lemma Damped(f: real, d: real)
    requires f > 0.0 && d > 0.0
    ensures f * d > 0.0
  {
  }

  lemma Between(g: real, f: real) returns (x: real)
    requires g < f && 0.0 < f
    ensures 0.0 <= x < f && g < x
  {
    x := if g <= 0.0 then f / 2.0 else (f + g) / 2.0;
  }

  /** Two uniform reports of which the higher one scores lower. */
  lemma UniformDrops(cfg: FusionConfig, x: real, y: real)
    requires SumsToOne(cfg.weights) && 0.0 <= x <= y <= 100.0 && y >= cfg.elevatedFloor
    requires if x >= cfg.elevatedFloor then x == 0.0 && y * FullMultiplier(cfg) < 0.0 else y * FullMultiplier(cfg) < x
    ensures !MonotoneFor(cfg, Uniform(cfg.weights, x), Uniform(cfg.weights, y))
  {
    UniformScore(cfg, x);
    UniformScore(cfg, y);
  }

  /** The compound score is at least the weighted mean. */
  ghost predicate AtLeastMean(cfg: FusionConfig, r: Results) {
    OnScale(cfg.weights, r) && cfg.weights != [] ==> Base(cfg.weights, r) <= Fuse(cfg, r).value.score <= 100.0
  }

  /** For every configuration that can be constructed: the score never falls below the weighted mean
      exactly when no weight is negative and the bonus is not negative or cannot apply. */
  lemma AtLeastMeanExactlyWhen(cfg: FusionConfig)
    requires SumsToOne(cfg.weights) && DistinctAgents(cfg.weights)
    ensures (forall r :: AtLeastMean(cfg, r))
       <==> NonNegative(cfg.weights) && (cfg.kappa >= 0.0 || |cfg.weights| < 2 || cfg.elevatedFloor > 100.0)
  {
    if !NonNegative(cfg.weights) {
      var k :| 0 <= k < |cfg.weights| && cfg.weights[k].value < 0.0;
      NegativeBeatsCap(cfg, k);
    } else if cfg.kappa >= 0.0 || |cfg.weights| < 2 || cfg.elevatedFloor > 100.0 {
      forall r ensures AtLeastMean(cfg, r) {
        if OnScale(cfg.weights, r) && cfg.weights != [] { ScoreAtLeastMean(cfg, r); }
      }
    } else {
      DampingMultiplier(cfg);
      UniformScore(cfg, 100.0);
      assert !AtLeastMean(cfg, Uniform(cfg.weights, 100.0));
    }
  }

  /** With a negative weight the base can exceed 100, where the score is capped. */
  lemma NegativeBeatsCap(cfg: FusionConfig, k: nat)
    requires SumsToOne(cfg.weights) && DistinctAgents(cfg.weights) && k < |cfg.weights| && cfg.weights[k].value < 0.0
    ensures !AtLeastMean(cfg, Spike(cfg.weights, cfg.weights[k].agent, 0.0, 100.0))
  {
    SpikeReports(cfg.weights, cfg.weights[k].agent, 0.0, 100.0);
    SpikeFromZero(cfg.weights, k, 100.0);
    LiftedExceeds(100.0, cfg.weights[k].value);
  }

  lemma ScoreAtLeastMean(cfg: FusionConfig, r: Results)
    requires SumsToOne(cfg.weights) && NonNegative(cfg.weights) && cfg.weights != [] && OnScale(cfg.weights, r)
    requires cfg.kappa >= 0.0 || |cfg.weights| < 2 || cfg.elevatedFloor > 100.0
    ensures Base(cfg.weights, r) <= Fuse(cfg, r).value.score <= 100.0
  {
    if cfg.kappa >= 0.0 {
      ScoreBounds(cfg, r, 0.0, 100.0);
    } else {
      CountBounds(cfg.weights, r, cfg.elevatedFloor);
      BaseInRange(cfg.weights, r, 0.0, 100.0);
      assert Multiplier(cfg, r) == 1.0;
    }
  }

  // ---------------------------------------------------------------- the scale of the score

  /** Risks on the 0..100 scale give a score on that scale. */
  ghost predicate ScoresOnScale(cfg: FusionConfig, r: Results) {
    OnScale(cfg.weights, r) && cfg.weights != [] ==> 0.0 <= Fuse(cfg, r).value.score <= 100.0
  }

  /** No weight is negative and the bonus never turns the sign, or the score is always zero. */
  ghost predicate KeepsScale(cfg: FusionConfig) {
    (NonNegative(cfg.weights) && (cfg.elevatedFloor > 100.0 || FullMultiplier(cfg) >= 0.0)) || AlwaysCancelled(cfg)
  }

  /** For every configuration that can be constructed, exactly then the score stays on the scale. */
  lemma ScaleExactlyWhen(cfg: FusionConfig)
    requires SumsToOne(cfg.weights) && DistinctAgents(cfg.weights)
    ensures (forall r :: ScoresOnScale(cfg, r)) <==> KeepsScale(cfg)
  {
    if KeepsScale(cfg) {
      forall r ensures ScoresOnScale(cfg, r) {
        if OnScale(cfg.weights, r) && cfg.weights != [] { KeptOnScale(cfg, r); }
      }
    } else if FullMultiplier(cfg) < 0.0 && cfg.elevatedFloor <= 100.0 {
      UniformScore(cfg, 100.0);
      assert 100.0 * FullMultiplier(cfg) < 0.0;
      assert !ScoresOnScale(cfg, Uniform(cfg.weights, 100.0));
    } else {
      var k :| 0 <= k < |cfg.weights| && cfg.weights[k].value < 0.0;
      LoneReportFallsBelow(cfg, k);
    }
  }

  lemma KeptOnScale(cfg: FusionConfig, r: Results)
    requires SumsToOne(cfg.weights) && KeepsScale(cfg) && OnScale(cfg.weights, r) && cfg.weights != []
    ensures 0.0 <= Fuse(cfg, r).value.score <= 100.0
  {
    if AlwaysCancelled(cfg) {
      CancelledScore(cfg, r);
    } else {
      BaseInRange(cfg.weights, r, 0.0, 100.0);
      MultiplierNotNegative(cfg, r);
      ScoreOf(cfg, r, Base(cfg.weights, r), Multiplier(cfg, r));
      CappedMonotone(0.0, Base(cfg.weights, r), Multiplier(cfg, r));
    }
  }

  lemma MultiplierNotNegative(cfg: FusionConfig, r: Results)
    requires OnScale(cfg.weights, r) && (cfg.elevatedFloor > 100.0 || FullMultiplier(cfg) >= 0.0)
    ensures Multiplier(cfg, r) >= 0.0
  {
    CountBounds(cfg.weights, r, cfg.elevatedFloor);
    if cfg.kappa >= 0.0 {
      MultiplierAtLeastOne(cfg, r);
    } else {
      var n, all := Max(0, ElevatedCount(cfg.weights, r, cfg.elevatedFloor) - 1) as real, Max(0, |cfg.weights| - 1) as real;
      TermMonotone(-cfg.kappa, n, all);
    }
  }

  /** Only the agent of a negative weight reports anything. */
  lemma LoneReportFallsBelow(cfg: FusionConfig, k: nat)
    requires SumsToOne(cfg.weights) && DistinctAgents(cfg.weights) && k < |cfg.weights| && cfg.weights[k].value < 0.0
    requires cfg.elevatedFloor > 0.0 || FullMultiplier(cfg) > 0.0
    ensures exists r :: !ScoresOnScale(cfg, r)
  {
    var f := if cfg.elevatedFloor > 0.0 then cfg.elevatedFloor else 200.0;
    var m := if cfg.elevatedFloor > 0.0 then 1.0 else FullMultiplier(cfg);
    var x := Least(100.0, f);
    var r := LoneReport(cfg, k, x, m);
    ScoreOf(cfg, r, Share(cfg.weights[k].value, x), m);
    NegativeShare(cfg.weights[k].value, x, m);
    assert !ScoresOnScale(cfg, r);
  }

  lemma NegativeShare(v: real, x: real, m: real)
    requires v < 0.0 && x > 0.0 && m > 0.0
    ensures Share(v, x) * m < 0.0
  {
    Damped(-v, x);
    Damped(-Share(v, x), m);
  }

  lemma LoneReport(cfg: FusionConfig, k: nat, x: real, m: real) returns (r: Results)
    requires SumsToOne(cfg.weights) && DistinctAgents(cfg.weights) && k < |cfg.weights| && 0.0 < x <= 100.0
    requires (cfg.elevatedFloor <= 0.0 && m == FullMultiplier(cfg)) || (x < cfg.elevatedFloor && m == 1.0)
    ensures OnScale(cfg.weights, r) && Base(cfg.weights, r) == Share(cfg.weights[k].value, x) && Multiplier(cfg, r) == m
  {
    r := Spike(cfg.weights, cfg.weights[k].agent, x, 0.0);
    LoneScale(cfg.weights, k, x);
    LoneBase(cfg.weights, k, x);
    PlainMultiplier(cfg, r, m);
  }

  lemma LoneBase(w: seq<Weight>, k: nat, x: real)
    requires DistinctAgents(w) && k < |w| && 0.0 < x <= 100.0
    ensures AllReported(w, Spike(w, w[k].agent, x, 0.0)) && Base(w, Spike(w, w[k].agent, x, 0.0)) == Share(w[k].value, x)
  {
    SpikeOfAll(w, k, x, 0.0);
    LoneValue(x, WeightSum(w), w[k].value);
  }

  lemma LoneScale(w: seq<Weight>, k: nat, x: real)
    requires k < |w| && 0.0 < x <= 100.0
    ensures OnScale(w, Spike(w, w[k].agent, x, 0.0)) && RisksWithin(w, Spike(w, w[k].agent, x, 0.0), 0.0, x)
  {
    SpikeReports(w, w[k].agent, x, 0.0);
  }

  /** What one agent's report adds. */
  function Share(v: real, x: real): real { v * x }

  lemma LoneValue(x: real, t: real, v: real)
    ensures SpikeValue(x, 0.0, t, v) == Share(v, x)
  {
  }

  /** For instance weights of 1.5 and -0.5, which sum to one, without any bonus: the base exceeds the
      score, and raising the second agent lowers it. */
  lemma NegativeWeightInstance(a: AgentName, b: AgentName)
    requires a != b
    ensures var cfg := FusionConfig([Weight(a, 1.5), Weight(b, -0.5)], 0.0, 50.0);
            SumsToOne(cfg.weights) && (exists r :: !AtLeastMean(cfg, r)) && exists r, r' :: !MonotoneFor(cfg, r, r')
  {
    var w := [Weight(a, 1.5), Weight(b, -0.5)];
    var cfg := FusionConfig(w, 0.0, 50.0);
    assert w[..1] == [Weight(a, 1.5)] && w[..1][..0] == [];
    assert WeightSum(w) == WeightSum(w[..1]) + -0.5 == 1.0;
    assert DistinctAgents(w);
    NegativeBeatsCap(cfg, 1);
    NegativeIsNotMonotone(cfg, 1);
  }

  // ---------------------------------------------------------------- the formula in the reports' own fields

  /** Those of the first `n` weights whose agents report at least the elevated floor. */
  ghost function ElevatedAmong(w: seq<Weight>, r: Results, floor: real, n: nat): set<int>
    requires n <= |w| && AllReported(w, r)
  {
    set i | 0 <= i < n && r[w[i].agent].risk >= floor
  }

  lemma {:induction false} CountIsCardinality(w: seq<Weight>, r: Results, floor: real, n: nat)
    requires n <= |w| && AllReported(w, r)
    ensures ElevatedCount(w[..n], r, floor) == |ElevatedAmong(w, r, floor, n)|
  {
    if n == 0 {
      assert ElevatedAmong(w, r, floor, 0) == {};
    } else {
      CountIsCardinality(w, r, floor, n - 1);
      assert w[..n][..n - 1] == w[..n - 1];
      var before, after := ElevatedAmong(w, r, floor, n - 1), ElevatedAmong(w, r, floor, n);
      assert after == if r[w[n - 1].agent].risk >= floor then before + {n - 1} else before;
    }
  }

  /** Each weight times its agent's risk. */
  ghost function Shares(w: seq<Weight>, r: Results): seq<real>
    requires AllReported(w, r)
  {
    seq(|w|, i requires 0 <= i < |w| => Share(w[i].value, r[w[i].agent].risk))
  }

  lemma {:induction false} BaseIsSum(w: seq<Weight>, r: Results)
    requires AllReported(w, r)
    ensures Base(w, r) == Sum(Shares(w, r))
  {
    if w != [] {
      BaseIsSum(w[..|w| - 1], r);
      assert Shares(w, r)[..|w| - 1] == Shares(w[..|w| - 1], r);
    }
  }

  lemma {:induction false} WeightSumIsSum(w: seq<Weight>)
    ensures WeightSum(w) == Sum(seq(|w|, i requires 0 <= i < |w| => w[i].value))
  {
    if w != [] {
      var front := w[..|w| - 1];
      WeightSumIsSum(front);
      assert seq(|w|, i requires 0 <= i < |w| => w[i].value)[..|w| - 1] == seq(|front|, i requires 0 <= i < |front| => front[i].value);
    }
  }

  /** `f` is the sum of shares `base` under a bonus for `n` elevated agents: kappa for each beyond the first. */
  ghost predicate FusedFrom(base: real, n: nat, kappa: real, f: FusionResult) {
    && f.multiplier == 1.0 + kappa * (if n > 1 then n - 1 else 0) as real
    && f.score <= 100.0 && (base * f.multiplier <= 100.0 ==> f.score == base * f.multiplier) && (base * f.multiplier > 100.0 ==> f.score == 100.0)
    && (f.bonusFired <==> f.multiplier > 1.0)
  }

  /** `c` is the least confidence that an agent of `w` reports. */
  ghost predicate LeastOf(w: seq<Weight>, r: Results, c: real)
    requires AllReported(w, r)
  {
    (exists i :: 0 <= i < |w| && r[w[i].agent].confidence == c) && forall i :: 0 <= i < |w| ==> c <= r[w[i].agent].confidence
  }

  /** Fusion in the reports' own fields; it fails exactly without any weight or without a weighed report. */
  lemma FuseInFields(cfg: FusionConfig, r: Results)
    ensures Fuse(cfg, r).None? <==> cfg.weights == [] || exists i :: 0 <= i < |cfg.weights| && cfg.weights[i].agent !in r
    ensures Fuse(cfg, r).Some? ==>
              FusedFrom(Sum(Shares(cfg.weights, r)), |ElevatedAmong(cfg.weights, r, cfg.elevatedFloor, |cfg.weights|)|, cfg.kappa, Fuse(cfg, r).value)
    ensures Fuse(cfg, r).Some? ==> LeastOf(cfg.weights, r, Fuse(cfg, r).value.confidence)
  {
    if Fuse(cfg, r).Some? {
      ConfidenceIsLeast(cfg.weights, r);
      BaseIsSum(cfg.weights, r);
      CountIsCardinality(cfg.weights, r, cfg.elevatedFloor, |cfg.weights|);
      assert cfg.weights[..|cfg.weights|] == cfg.weights;
      FormulaInFields(Base(cfg.weights, r), ElevatedCount(cfg.weights, r, cfg.elevatedFloor), cfg.kappa, Fuse(cfg, r).value);
    }
  }

  lemma FormulaInFields(base: real, n: nat, kappa: real, f: FusionResult)
    requires f.multiplier == 1.0 + kappa * Max(0, n - 1) as real && f.score == Capped(base * f.multiplier) && (f.bonusFired <==> f.multiplier > 1.0)
    ensures FusedFrom(base, n, kappa, f)
  {
  }
}
