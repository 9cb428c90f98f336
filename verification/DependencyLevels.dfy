/** `buildDependencyLevels`: a memoised depth-first levelling of the action queue with a guard
    against configuration cycles, then grouping by level. */
module DependencyLevels {
  import opened Common
  import opened StableSort
  import opened Reachability

  datatype ActionId = ActionId(name: string)

  datatype Action = Action(id: ActionId, text: string, dependencyLabels: seq<ActionId>)

  datatype DependencyGraphLevel = DependencyGraphLevel(level: nat, actions: seq<Action>)

  type Table = map<ActionId, Action>

  /** `new Map(actions.map(a => [a.id, a]))`: a later action with the same id replaces an earlier one. */
  function ById(actions: seq<Action>): Table {
    if actions == [] then map[]
    else ById(actions[..|actions| - 1])[actions[|actions| - 1].id := actions[|actions| - 1]]
  }

  /** The dependencies of `id` that are themselves in the queue. */
  function PresentDeps(byId: Table, id: ActionId): seq<ActionId> {
    if id in byId then Filter((d: ActionId) => d in byId, byId[id].dependencyLabels) else []
  }

  function DepFn(byId: Table): ActionId -> seq<ActionId> { (id: ActionId) => PresentDeps(byId, id) }

  /** No chain of present dependencies returns to where it started. */
  ghost predicate Acyclic(byId: Table) {
    forall w :: IsWalk(DepFn(byId), w) && |w| > 1 ==> w[0] != w[|w| - 1]
  }

  ghost predicate HasChain(byId: Table, id: ActionId, n: nat) {
    exists w :: IsWalk(DepFn(byId), w) && w[0] == id && |w| == n + 1
  }

  ghost predicate NoLongerChain(byId: Table, id: ActionId, n: nat) {
    forall w :: IsWalk(DepFn(byId), w) && w[0] == id ==> |w| <= n + 1
  }

  /** `n` is the length of the longest chain of present dependencies that starts at `id`. */
  ghost predicate LongestChain(byId: Table, id: ActionId, n: nat) {
    HasChain(byId, id, n) && NoLongerChain(byId, id, n)
  }

  /** A non-trivial chain of present dependencies leads from `a` to `b`. */
  ghost predicate DependsOn(byId: Table, a: ActionId, b: ActionId) {
    exists w :: IsWalk(DepFn(byId), w) && |w| > 1 && w[0] == a && w[|w| - 1] == b
  }

  /** `b` is `a` or a dependency of it, direct or indirect. */
  ghost predicate LeadsTo(byId: Table, a: ActionId, b: ActionId) { a == b || DependsOn(byId, a, b) }

  /** No cycle can be reached from `id`. */
  ghost predicate CycleFree(byId: Table, id: ActionId) {
    forall y :: LeadsTo(byId, id, y) ==> !DependsOn(byId, y, y)
  }

  /** Every level is the longest chain of its action. */
  ghost predicate Exact(byId: Table, levels: map<ActionId, nat>) {
    forall x :: x in levels ==> LongestChain(byId, x, levels[x])
  }

  /** `level` is the longest chain of `id`, provided no cycle is reachable. */
  ghost predicate ExactIfFree(byId: Table, id: ActionId, level: nat) {
    CycleFree(byId, id) ==> LongestChain(byId, id, level)
  }

  /** Every level is the longest chain of its action, wherever no cycle is reachable. */
  ghost predicate ExactWhereFree(byId: Table, levels: map<ActionId, nat>) {
    forall x :: x in levels ==> ExactIfFree(byId, x, levels[x])
  }

  /** What memoisation keeps whatever the dependencies are: no level exceeds `count`, the number
      of levels already settled, level 0 is for actions without present dependencies, and nothing
      under visit is settled. */
  ghost predicate Bounded(byId: Table, levels: map<ActionId, nat>, count: nat, visiting: set<ActionId>) {
    && (forall x :: x in visiting ==> x !in levels)
    && (forall x :: x in levels ==> (levels[x] == 0 <==> PresentDeps(byId, x) == []))
    && (forall x :: x in levels ==> levels[x] <= count)
  }

  lemma PresentDepsMembers(byId: Table, id: ActionId)
    ensures forall d :: d in PresentDeps(byId, id) <==> id in byId && d in byId[id].dependencyLabels && d in byId
  {
    if id in byId { FilterMembers((d: ActionId) => d in byId, byId[id].dependencyLabels); }
  }

  lemma DependsStep(byId: Table, a: ActionId, b: ActionId)
    requires b in PresentDeps(byId, a)
    ensures DependsOn(byId, a, b)
    ensures forall v :: DependsOn(byId, v, a) ==> DependsOn(byId, v, b)
  {
    assert IsWalk(DepFn(byId), [a, b]);
    forall v | DependsOn(byId, v, a) ensures DependsOn(byId, v, b) {
      var w :| IsWalk(DepFn(byId), w) && |w| > 1 && w[0] == v && w[|w| - 1] == a;
      assert IsWalk(DepFn(byId), w + [b]);
    }
  }

  lemma SecondIsDependency(byId: Table, w: seq<ActionId>)
    requires IsWalk(DepFn(byId), w) && |w| > 1
    ensures w[1] in PresentDeps(byId, w[0])
  {
    assert w[0 + 1] in DepFn(byId)(w[0]);
  }

  /** Level 0: an action without present dependencies. */
  lemma LeafChain(byId: Table, id: ActionId)
    requires PresentDeps(byId, id) == []
    ensures LongestChain(byId, id, 0)
  {
    assert IsWalk(DepFn(byId), [id]);
    forall w | IsWalk(DepFn(byId), w) && w[0] == id ensures |w| <= 1 {
      if |w| > 1 { SecondIsDependency(byId, w); }
    }
  }

  /** `best` is the largest level among `deps`. */
  ghost predicate MaxLevel(byId: Table, deps: seq<ActionId>, best: nat) {
    && (exists d :: d in deps && HasChain(byId, d, best))
    && (forall d :: d in deps ==> NoLongerChain(byId, d, best))
  }

  lemma NodeChain(byId: Table, id: ActionId, best: nat)
    requires MaxLevel(byId, PresentDeps(byId, id), best)
    ensures LongestChain(byId, id, best + 1)
  {
    var succ, deps := DepFn(byId), PresentDeps(byId, id);
    var d :| d in deps && HasChain(byId, d, best);
    var tail :| IsWalk(succ, tail) && tail[0] == d && |tail| == best + 1;
    PrependWalk(succ, id, tail);
    forall w | IsWalk(succ, w) && w[0] == id ensures |w| <= best + 2 {
      if |w| > 1 {
        assert w[0 + 1] in succ(w[0]);
        assert NoLongerChain(byId, w[1], best);
        TailWalk(succ, w);
      }
    }
  }

  /** Later entries never change earlier ones. */
  ghost predicate Extends(byId: Table, levels: map<ActionId, nat>, levels': map<ActionId, nat>, id: ActionId) {
    && (forall x :: x in levels ==> x in levels' && levels'[x] == levels[x])
    && (forall x :: x in levels' ==> x in levels || x in byId || x == id)
  }

  /** What is under visit when `levelOf(id)` is called all depends on `id`. */
  ghost predicate OnPathTo(byId: Table, visiting: set<ActionId>, id: ActionId) {
    forall v :: v in visiting ==> DependsOn(byId, v, id)
  }

  lemma PathDescends(byId: Table, visiting: set<ActionId>, id: ActionId, d: ActionId)
    requires OnPathTo(byId, visiting, id) && d in PresentDeps(byId, id)
    ensures OnPathTo(byId, visiting + {id}, d)
  {
    DependsStep(byId, id, d);
  }

  lemma NotUnderVisit(byId: Table, visiting: set<ActionId>, id: ActionId)
    requires OnPathTo(byId, visiting, id) && CycleFree(byId, id)
    ensures id !in visiting
  {
    assert LeadsTo(byId, id, id);
  }

  lemma FreeDescends(byId: Table, id: ActionId, d: ActionId)
    requires CycleFree(byId, id) && d in PresentDeps(byId, id)
    ensures CycleFree(byId, d)
  {
    forall y | LeadsTo(byId, d, y) ensures !DependsOn(byId, y, y) {
      DependsOnFirst(byId, id, d, y);
      assert LeadsTo(byId, id, y);
    }
  }

  lemma DependsOnFirst(byId: Table, a: ActionId, b: ActionId, y: ActionId)
    requires b in PresentDeps(byId, a) && LeadsTo(byId, b, y)
    ensures DependsOn(byId, a, y)
  {
    if b == y {
      DependsStep(byId, a, b);
    } else {
      var w :| IsWalk(DepFn(byId), w) && |w| > 1 && w[0] == b && w[|w| - 1] == y;
      PrependWalk(DepFn(byId), a, w);
    }
  }

  lemma SettleBounded(byId: Table, levels: map<ActionId, nat>, count: nat, visiting: set<ActionId>, id: ActionId, level: nat)
    requires Bounded(byId, levels, count, visiting) && id !in levels && id !in visiting && level <= count + 1
    requires level == 0 <==> PresentDeps(byId, id) == []
    ensures Bounded(byId, levels[id := level], count + 1, visiting)
  {
  }

  /** A statement about an action and its level, in view of the levels settled so far. */
  type Claim = (map<ActionId, nat>, ActionId, nat) -> bool

  ghost predicate AllHold(claim: Claim, levels: map<ActionId, nat>) { forall x :: x in levels ==> claim(levels, x, levels[x]) }

  ghost predicate SubTable(levels: map<ActionId, nat>, levels': map<ActionId, nat>) {
    forall x :: x in levels ==> x in levels' && levels'[x] == levels[x]
  }

  /** Settling more actions does not undo a claim. */
  ghost predicate Stable(claim: Claim) {
    forall levels, levels', id, n: nat :: SubTable(levels, levels') && claim(levels, id, n) ==> claim(levels', id, n)
  }

  lemma SettleHolds(claim: Claim, levels: map<ActionId, nat>, id: ActionId, level: nat)
    requires Stable(claim) && AllHold(claim, levels) && id !in levels && claim(levels, id, level)
    ensures AllHold(claim, levels[id := level])
  {
    var after := levels[id := level];
    assert SubTable(levels, after);
    forall x | x in after ensures claim(after, x, after[x]) {
      assert claim(levels, x, after[x]);
    }
  }

  lemma SettleExtends(byId: Table, before: map<ActionId, nat>, levels: map<ActionId, nat>, id: ActionId, level: nat)
    requires Extends(byId, before, levels, id) && id !in levels
    ensures Extends(byId, before, levels[id := level], id)
  {
  }

  lemma PrependWalk<K>(succ: K -> seq<K>, u: K, w: seq<K>)
    requires IsWalk(succ, w) && w[0] in succ(u)
    ensures IsWalk(succ, [u] + w)
  {
    forall i | 0 <= i < |w| ensures ([u] + w)[i + 1] in succ(([u] + w)[i]) {
      if i > 0 { assert w[i - 1 + 1] in succ(w[i - 1]); }
    }
  }

  lemma TailWalk<K>(succ: K -> seq<K>, w: seq<K>)
    requires IsWalk(succ, w) && |w| > 1
    ensures IsWalk(succ, w[1..])
  {
    forall i | 0 <= i < |w[1..]| - 1 ensures w[1..][i + 1] in succ(w[1..][i]) {
      assert w[i + 1 + 1] in succ(w[i + 1]);
    }
  }

  /** The state in which `levelOf(id)` is called. */
  ghost predicate Ready(byId: Table, claim: Claim, levels: map<ActionId, nat>, count: nat, visiting: set<ActionId>, id: ActionId) {
    Bounded(byId, levels, count, visiting) && AllHold(claim, levels) && OnPathTo(byId, visiting, id)
  }

  /** The level a call for `d` answers: 0 under visit, the settled level otherwise. */
  function GuardedLevel(levels: map<ActionId, nat>, visiting: set<ActionId>, d: ActionId): nat {
    if d in visiting || d !in levels then 0 else levels[d]
  }

  ghost predicate Known(levels: map<ActionId, nat>, visiting: set<ActionId>, d: ActionId) { d in levels || d in visiting }

  /** What `levelOf(id)` answers and leaves: nothing settled before changes, and the action is
      settled unless it is under visit. */
  ghost predicate Answered(byId: Table, claim: Claim, before: map<ActionId, nat>, start: nat, levels: map<ActionId, nat>, count: nat,
                           visiting: set<ActionId>, id: ActionId, level: nat) {
    && Bounded(byId, levels, count, visiting) && AllHold(claim, levels) && Extends(byId, before, levels, id)
    && start <= count
    && Known(levels, visiting, id) && level == GuardedLevel(levels, visiting, id)
  }

  /** `best` is the largest level answered for the first `n` of `deps`. */
  ghost predicate BestOf(levels: map<ActionId, nat>, visiting: set<ActionId>, deps: seq<ActionId>, n: nat, best: nat) {
    && n <= |deps|
    && (forall k :: 0 <= k < n ==> Known(levels, visiting, deps[k]) && GuardedLevel(levels, visiting, deps[k]) <= best)
    && (if n == 0 then best == 0 else exists k :: 0 <= k < n && GuardedLevel(levels, visiting, deps[k]) == best)
  }

  lemma BestOfStep(byId: Table, levels: map<ActionId, nat>, levels': map<ActionId, nat>, visiting: set<ActionId>, deps: seq<ActionId>, n: nat, best: nat)
    requires BestOf(levels, visiting, deps, n, best) && n < |deps|
    requires Extends(byId, levels, levels', deps[n]) && Known(levels', visiting, deps[n])
    ensures BestOf(levels', visiting, deps, n + 1, Max(best, GuardedLevel(levels', visiting, deps[n])))
  {
    forall k | 0 <= k < n ensures Known(levels', visiting, deps[k]) && GuardedLevel(levels', visiting, deps[k]) == GuardedLevel(levels, visiting, deps[k]) {
      assert Known(levels, visiting, deps[k]);
    }
  }

  /** The state while the dependencies of `id`, itself under visit, are being answered. */
  ghost predicate Gathered(byId: Table, claim: Claim, before: map<ActionId, nat>, start: nat, levels: map<ActionId, nat>, count: nat,
                           visiting: set<ActionId>, id: ActionId, n: nat, best: nat) {
    && Bounded(byId, levels, count, visiting) && AllHold(claim, levels) && Extends(byId, before, levels, id)
    && best <= count && start <= count
    && BestOf(levels, visiting, PresentDeps(byId, id), n, best)
  }

  lemma GatherStep(byId: Table, claim: Claim, before: map<ActionId, nat>, start: nat, levels: map<ActionId, nat>, count: nat,
                   levels': map<ActionId, nat>, count': nat, visiting: set<ActionId>, id: ActionId, n: nat, best: nat, level: nat)
    requires Gathered(byId, claim, before, start, levels, count, visiting, id, n, best) && n < |PresentDeps(byId, id)|
    requires Answered(byId, claim, levels, count, levels', count', visiting, PresentDeps(byId, id)[n], level)
    ensures Gathered(byId, claim, before, start, levels', count', visiting, id, n + 1, Max(best, level))
  {
    PresentDepsMembers(byId, id);
    ExtendsFurther(byId, before, levels, levels', id, PresentDeps(byId, id)[n]);
    BestOfStep(byId, levels, levels', visiting, PresentDeps(byId, id), n, best);
  }

  lemma ExtendsFurther(byId: Table, before: map<ActionId, nat>, levels: map<ActionId, nat>, levels': map<ActionId, nat>, id: ActionId, d: ActionId)
    requires Extends(byId, before, levels, id) && Extends(byId, levels, levels', d) && d in byId
    ensures Extends(byId, before, levels', id)
  {
  }

  /** `claim` is about to hold of one more action: it holds of all that is settled, and `best` is the
      largest level answered for the dependencies of `id` under the guard. */
  ghost predicate Settling(byId: Table, claim: Claim, levels: map<ActionId, nat>, visiting: set<ActionId>, id: ActionId, best: nat) {
    && AllHold(claim, levels) && OnPathTo(byId, visiting, id) && PresentDeps(byId, id) != []
    && BestOf(levels, visiting + {id}, PresentDeps(byId, id), |PresentDeps(byId, id)|, best)
  }

  /** A claim that the way levels are computed passes on. */
  ghost predicate Hereditary(byId: Table, claim: Claim) {
    && Stable(claim)
    && (forall levels, id :: PresentDeps(byId, id) == [] ==> claim(levels, id, 0))
    && (forall levels, visiting, id, best: nat :: Settling(byId, claim, levels, visiting, id, best) ==> claim(levels, id, 1 + best))
  }

  lemma AnswerLeaf(byId: Table, claim: Claim, levels: map<ActionId, nat>, count: nat, visiting: set<ActionId>, id: ActionId)
    requires Hereditary(byId, claim) && Ready(byId, claim, levels, count, visiting, id)
    requires id !in levels && id !in visiting && PresentDeps(byId, id) == []
    ensures Answered(byId, claim, levels, count, levels[id := 0], count + 1, visiting, id, 0)
  {
    SettleBounded(byId, levels, count, visiting, id, 0);
    SettleHolds(claim, levels, id, 0);
    SettleExtends(byId, levels, levels, id, 0);
  }

  /** Where no cycle can be reached, none of the dependencies was cut short by the guard, so one
      more than the best of their levels is the longest chain. */
  lemma NodeIsExact(byId: Table, levels: map<ActionId, nat>, visiting: set<ActionId>, id: ActionId, best: nat)
    requires ExactWhereFree(byId, levels) && OnPathTo(byId, visiting, id)
    requires BestOf(levels, visiting + {id}, PresentDeps(byId, id), |PresentDeps(byId, id)|, best) && PresentDeps(byId, id) != []
    ensures ExactIfFree(byId, id, 1 + best)
  {
    var deps, inner := PresentDeps(byId, id), visiting + {id};
    if CycleFree(byId, id) {
      forall k | 0 <= k < |deps| ensures LongestChain(byId, deps[k], GuardedLevel(levels, inner, deps[k])) {
        DependencyIsExact(byId, levels, visiting, id, deps[k]);
      }
      BestIsMax(byId, levels, inner, deps, best);
      NodeChain(byId, id, best);
    }
  }

  lemma DependencyIsExact(byId: Table, levels: map<ActionId, nat>, visiting: set<ActionId>, id: ActionId, d: ActionId)
    requires ExactWhereFree(byId, levels) && OnPathTo(byId, visiting, id) && CycleFree(byId, id)
    requires d in PresentDeps(byId, id) && Known(levels, visiting + {id}, d)
    ensures LongestChain(byId, d, GuardedLevel(levels, visiting + {id}, d))
  {
    FreeDescends(byId, id, d);
    PathDescends(byId, visiting, id, d);
    NotUnderVisit(byId, visiting + {id}, d);
    assert ExactIfFree(byId, d, levels[d]);
  }

  lemma BestIsMax(byId: Table, levels: map<ActionId, nat>, visiting: set<ActionId>, deps: seq<ActionId>, best: nat)
    requires BestOf(levels, visiting, deps, |deps|, best) && deps != []
    requires forall k :: 0 <= k < |deps| ==> LongestChain(byId, deps[k], GuardedLevel(levels, visiting, deps[k]))
    ensures MaxLevel(byId, deps, best)
  {
    var k :| 0 <= k < |deps| && GuardedLevel(levels, visiting, deps[k]) == best;
    assert deps[k] in deps && HasChain(byId, deps[k], best);
    forall d | d in deps ensures NoLongerChain(byId, d, best) {
      var j :| 0 <= j < |deps| && deps[j] == d;
      NoLongerWeakens(byId, d, GuardedLevel(levels, visiting, d), best);
    }
  }

  lemma NoLongerWeakens(byId: Table, id: ActionId, m: nat, n: nat)
    requires NoLongerChain(byId, id, m) && m <= n
    ensures NoLongerChain(byId, id, n)
  {
  }

  lemma EnterVisit(byId: Table, levels: map<ActionId, nat>, count: nat, visiting: set<ActionId>, id: ActionId)
    requires Bounded(byId, levels, count, visiting) && id !in levels && id in byId && id !in visiting
    ensures Bounded(byId, levels, count, visiting + {id}) && byId.Keys - (visiting + {id}) < byId.Keys - visiting
  {
    assert id in byId.Keys - visiting;
  }

  lemma AddThenRemove<T>(s: set<T>, x: T)
    requires x !in s
    ensures s + {x} - {x} == s
  {
  }

  lemma LeaveVisit(byId: Table, levels: map<ActionId, nat>, count: nat, visiting: set<ActionId>, id: ActionId)
    requires Bounded(byId, levels, count, visiting + {id})
    ensures Bounded(byId, levels, count, visiting) && id !in levels
  {
    assert id in visiting + {id};
  }

  /** All dependencies of `id` have been answered: it may settle above `best`. */
  ghost predicate MaySettle(byId: Table, claim: Claim, before: map<ActionId, nat>, start: nat, levels: map<ActionId, nat>, count: nat,
                           visiting: set<ActionId>, id: ActionId, best: nat) {
    && Bounded(byId, levels, count, visiting) && AllHold(claim, levels) && Extends(byId, before, levels, id)
    && best <= count && start <= count
    && id !in levels && claim(levels, id, 1 + best)
  }

  lemma GatheredAll(byId: Table, claim: Claim, before: map<ActionId, nat>, start: nat, levels: map<ActionId, nat>, count: nat,
                    visiting: set<ActionId>, id: ActionId, best: nat)
    requires Hereditary(byId, claim) && OnPathTo(byId, visiting, id) && PresentDeps(byId, id) != []
    requires Gathered(byId, claim, before, start, levels, count, visiting + {id}, id, |PresentDeps(byId, id)|, best)
    ensures MaySettle(byId, claim, before, start, levels, count, visiting, id, best)
  {
    LeaveVisit(byId, levels, count, visiting, id);
    assert Settling(byId, claim, levels, visiting, id, best);
  }

  lemma AnswerNode(byId: Table, claim: Claim, before: map<ActionId, nat>, start: nat, levels: map<ActionId, nat>, count: nat,
                    visiting: set<ActionId>, id: ActionId, best: nat)
    requires Stable(claim) && MaySettle(byId, claim, before, start, levels, count, visiting, id, best)
    requires PresentDeps(byId, id) != [] && id !in visiting
    ensures Answered(byId, claim, before, start, levels[id := 1 + best], count + 1, visiting, id, 1 + best)
  {
    SettleBounded(byId, levels, count, visiting, id, 1 + best);
    SettleHolds(claim, levels, id, 1 + best);
    SettleExtends(byId, before, levels, id, 1 + best);
  }

  /** A level above 1 rests on a settled dependency one level below; level 1 may rest on an action that
      was under visit. */
  ghost predicate Supported(byId: Table, levels: map<ActionId, nat>, id: ActionId, level: nat) {
    level > 1 ==> exists d :: d in PresentDeps(byId, id) && d in levels && levels[d] == level - 1
  }

  /** That a level is exact where no cycle can be reached, and is supported. */
  ghost function LevelClaim(byId: Table): Claim {
    (levels: map<ActionId, nat>, id: ActionId, level: nat) => ExactIfFree(byId, id, level) && Supported(byId, levels, id, level)
  }

  lemma SupportIsStable(byId: Table, levels: map<ActionId, nat>, levels': map<ActionId, nat>, id: ActionId, level: nat)
    requires SubTable(levels, levels') && Supported(byId, levels, id, level)
    ensures Supported(byId, levels', id, level)
  {
    if level > 1 {
      var d :| d in PresentDeps(byId, id) && d in levels && levels[d] == level - 1;
      assert d in levels' && levels'[d] == level - 1;
    }
  }

  lemma BestSupports(byId: Table, levels: map<ActionId, nat>, visiting: set<ActionId>, id: ActionId, best: nat)
    requires BestOf(levels, visiting, PresentDeps(byId, id), |PresentDeps(byId, id)|, best) && PresentDeps(byId, id) != []
    ensures Supported(byId, levels, id, 1 + best)
  {
    var deps := PresentDeps(byId, id);
    var k :| 0 <= k < |deps| && GuardedLevel(levels, visiting, deps[k]) == best;
    if best > 0 { assert deps[k] in deps && deps[k] in levels && levels[deps[k]] == best; }
  }

  lemma LevelClaimHereditary(byId: Table)
    ensures Hereditary(byId, LevelClaim(byId))
  {
    var claim := LevelClaim(byId);
    forall levels, levels', id, n: nat | SubTable(levels, levels') && claim(levels, id, n) ensures claim(levels', id, n) {
      SupportIsStable(byId, levels, levels', id, n);
    }
    forall levels, id | PresentDeps(byId, id) == [] ensures claim(levels, id, 0) {
      LeafChain(byId, id);
      assert ExactIfFree(byId, id, 0) && Supported(byId, levels, id, 0);
    }
    forall levels, visiting, id, best: nat | Settling(byId, claim, levels, visiting, id, best) ensures claim(levels, id, 1 + best) {
      ClaimMeansExact(byId, levels);
      NodeIsExact(byId, levels, visiting, id, best);
      BestSupports(byId, levels, visiting + {id}, id, best);
      assert ExactIfFree(byId, id, 1 + best) && Supported(byId, levels, id, 1 + best);
    }
  }

  lemma ClaimMeansExact(byId: Table, levels: map<ActionId, nat>)
    requires AllHold(LevelClaim(byId), levels)
    ensures ExactWhereFree(byId, levels) && AllSupported(byId, levels)
  {
    forall x | x in levels ensures ExactIfFree(byId, x, levels[x]) && Supported(byId, levels, x, levels[x]) {
      assert LevelClaim(byId)(levels, x, levels[x]);
    }
  }

  /** `keys` names every settled id once. */
  ghost predicate Lists(keys: seq<ActionId>, levels: map<ActionId, nat>) {
    NoDuplicates(keys) && forall x :: x in keys <==> x in levels
  }

  class LevelResolver {
    const byId: Table
    var levelById: map<ActionId, nat>
    var visiting: set<ActionId>
    ghost var keys: seq<ActionId>

    /** `keys` lists the settled ids. */
    ghost predicate Listed()
      reads this
    {
      Lists(keys, levelById)
    }

    constructor (byId: Table)
      ensures this.byId == byId && levelById == map[] && visiting == {} && Listed()
    {
      this.byId := byId;
      levelById, visiting, keys := map[], {}, [];
    }

    /** The recursive, memoised `levelOf`. It terminates whatever the dependencies are, and keeps
        every claim about levels that passes from dependencies to dependents. */
    method LevelOf(actionId: ActionId, ghost claim: Claim) returns (level: nat)
      requires Listed() && Hereditary(byId, claim) && Ready(byId, claim, levelById, |keys|, visiting, actionId)
      modifies this
      ensures visiting == old(visiting) && Listed()
      ensures Answered(byId, claim, old(levelById), |old(keys)|, levelById, |keys|, visiting, actionId, level)
      decreases byId.Keys - visiting, 3
    {
      if actionId in levelById { return levelById[actionId]; }
      if actionId in visiting { return 0; }
      level := ComputeLevel(actionId, claim);
    }

    /** The part of `levelOf` beyond the memo and the guard. */
    method ComputeLevel(actionId: ActionId, ghost claim: Claim) returns (level: nat)
      requires Listed() && Hereditary(byId, claim) && Ready(byId, claim, levelById, |keys|, visiting, actionId)
      requires actionId !in levelById && actionId !in visiting
      modifies this
      ensures visiting == old(visiting) && Listed()
      ensures Answered(byId, claim, old(levelById), |old(keys)|, levelById, |keys|, visiting, actionId, level)
      decreases byId.Keys - visiting, 2
    {
      var presentDeps := PresentDeps(byId, actionId);
      if actionId !in byId || presentDeps == [] {
        AnswerLeaf(byId, claim, levelById, |keys|, visiting, actionId);
        levelById, keys := levelById[actionId := 0], keys + [actionId];
        return 0;
      }
      level := LevelAbove(actionId, presentDeps, claim);
    }

    /** The action settles one above the best of its dependencies. */
    method LevelAbove(actionId: ActionId, presentDeps: seq<ActionId>, ghost claim: Claim) returns (level: nat)
      requires Listed() && Hereditary(byId, claim) && Ready(byId, claim, levelById, |keys|, visiting, actionId)
      requires actionId in byId && actionId !in levelById && actionId !in visiting
      requires presentDeps == PresentDeps(byId, actionId) && presentDeps != []
      modifies this
      ensures visiting == old(visiting) && Listed()
      ensures Answered(byId, claim, old(levelById), |old(keys)|, levelById, |keys|, visiting, actionId, level)
      decreases byId.Keys - visiting, 1
    {
      var best := MaxDependencyLevel(actionId, presentDeps, claim);
      AnswerNode(byId, claim, old(levelById), |old(keys)|, levelById, |keys|, visiting, actionId, best);
      level := 1 + best;
      levelById, keys := levelById[actionId := level], keys + [actionId];
    }

    /** `Math.max(...presentDeps.map(d => levelOf(d, visiting)))`, with the action under visit. */
    method MaxDependencyLevel(actionId: ActionId, presentDeps: seq<ActionId>, ghost claim: Claim) returns (best: nat)
      requires Listed() && Hereditary(byId, claim) && Ready(byId, claim, levelById, |keys|, visiting, actionId)
      requires actionId in byId && actionId !in levelById && actionId !in visiting
      requires presentDeps == PresentDeps(byId, actionId) && presentDeps != []
      modifies this
      ensures visiting == old(visiting) && Listed()
      ensures MaySettle(byId, claim, old(levelById), |old(keys)|, levelById, |keys|, visiting, actionId, best)
      decreases byId.Keys - visiting, 0
    {
      ghost var outer := visiting;
      EnterVisit(byId, levelById, |keys|, outer, actionId);
      visiting := visiting + {actionId};
      best := 0;
      for i := 0 to |presentDeps|
        invariant visiting == outer + {actionId} && Listed()
        invariant Gathered(byId, claim, old(levelById), |old(keys)|, levelById, |keys|, visiting, actionId, i, best)
      {
        PathDescends(byId, outer, actionId, presentDeps[i]);
        ghost var before, start := levelById, |keys|;
        var depLevel := LevelOf(presentDeps[i], claim);
        GatherStep(byId, claim, old(levelById), |old(keys)|, before, start, levelById, |keys|, visiting, actionId, i, best, depLevel);
        best := Max(best, depLevel);
      }
      GatheredAll(byId, claim, old(levelById), |old(keys)|, levelById, |keys|, outer, actionId, best);
      AddThenRemove(outer, actionId);
      visiting := visiting - {actionId};
    }
  }

  /** `byId` indexes `actions` by their ids. */
  ghost predicate Indexes(byId: Table, actions: seq<Action>) {
    && (forall a :: a in actions ==> a.id in byId)
    && (forall x :: x in byId ==> byId[x] in actions && byId[x].id == x)
  }

  lemma {:induction false} ByIdIndexes(actions: seq<Action>)
    ensures Indexes(ById(actions), actions)
  {
    if actions != [] {
      var front, last := actions[..|actions| - 1], actions[|actions| - 1];
      ByIdIndexes(front);
      assert actions == front + [last];
    }
  }

  /** The table holds exactly the queue's ids, no level exceeding their number. */
  ghost predicate Levelled(byId: Table, levels: map<ActionId, nat>) {
    && (forall x :: x in levels <==> x in byId)
    && (forall x :: x in levels ==> levels[x] <= |byId|)
    && (forall x :: x in levels ==> (levels[x] == 0 <==> PresentDeps(byId, x) == []))
  }

  /** The first loop of `buildDependencyLevels`: every action is levelled, with a fresh visiting set. */
  method ResolveLevels(actions: seq<Action>, byId: Table, ghost claim: Claim) returns (levels: map<ActionId, nat>)
    requires Indexes(byId, actions) && Hereditary(byId, claim)
    ensures Levelled(byId, levels) && AllHold(claim, levels)
  {
    var resolver := new LevelResolver(byId);
    for i := 0 to |actions|
      invariant resolver.byId == byId && resolver.Listed()
      invariant Bounded(byId, resolver.levelById, |resolver.keys|, {}) && AllHold(claim, resolver.levelById)
      invariant Settled(resolver.levelById, actions, i)
      invariant forall x :: x in resolver.levelById ==> x in byId
    {
      resolver.visiting := {};
      assert actions[i] in actions;
      ghost var before := resolver.levelById;
      var _ := resolver.LevelOf(actions[i].id, claim);
      SettledGrows(byId, actions, i, before, resolver.levelById);
    }
    levels := resolver.levelById;
    AllSettled(actions, byId, levels, resolver.keys);
  }

  ghost predicate Settled(levels: map<ActionId, nat>, actions: seq<Action>, n: nat) {
    n <= |actions| && forall k :: 0 <= k < n ==> actions[k].id in levels
  }

  lemma SettledGrows(byId: Table, actions: seq<Action>, i: nat, before: map<ActionId, nat>, after: map<ActionId, nat>)
    requires i < |actions| && Settled(before, actions, i) && Extends(byId, before, after, actions[i].id)
    requires actions[i].id in after
    ensures Settled(after, actions, i + 1)
  {
  }

  lemma AllSettled(actions: seq<Action>, byId: Table, levels: map<ActionId, nat>, keys: seq<ActionId>)
    requires Indexes(byId, actions) && Bounded(byId, levels, |keys|, {}) && Lists(keys, levels)
    requires Settled(levels, actions, |actions|)
    requires forall x :: x in levels ==> x in byId
    ensures Levelled(byId, levels)
  {
    forall x | x in byId ensures x in levels {
      var k :| 0 <= k < |actions| && actions[k] == byId[x];
    }
    KeysFit(byId, keys);
  }

  lemma KeysFit(byId: Table, keys: seq<ActionId>)
    requires NoDuplicates(keys) && forall x :: x in keys ==> x in byId
    ensures |keys| <= |byId|
  {
    CardinalityOfDistinct(keys);
    SubsetCardinality(ToSet(keys), byId.Keys);
  }

  lemma {:induction false} SubsetCardinality<T>(a: set<T>, b: set<T>)
    requires a <= b
    ensures |a| <= |b|
  {
    if a != {} {
      var x :| x in a;
      SubsetCardinality(a - {x}, b - {x});
    }
  }

  /** `levelById.get(action.id) ?? 0`. */
  function LevelIn(levels: map<ActionId, nat>, a: Action): nat {
    if a.id in levels then levels[a.id] else 0
  }

  function OnLevel(levels: map<ActionId, nat>, n: nat): Action -> bool {
    (a: Action) => LevelIn(levels, a) == n
  }

  const AtMost: (nat, nat) -> bool := (a: nat, b: nat) => a <= b

  /** Each bucket holds the actions of its level in input order. */
  ghost predicate Buckets(actions: seq<Action>, levels: map<ActionId, nat>, buckets: map<nat, seq<Action>>, order: seq<nat>) {
    && (forall n :: n in order <==> n in buckets)
    && NoDuplicates(order)
    && (forall n :: n in buckets ==> buckets[n] != [] && buckets[n] == Filter(OnLevel(levels, n), actions))
    && (forall a :: a in actions ==> LevelIn(levels, a) in buckets)
  }

  lemma BucketStep(actions: seq<Action>, i: nat, levels: map<ActionId, nat>, buckets: map<nat, seq<Action>>, order: seq<nat>)
    requires i < |actions| && Buckets(actions[..i], levels, buckets, order)
    ensures var n, a := LevelIn(levels, actions[i]), actions[i];
            if n in buckets then Buckets(actions[..i + 1], levels, buckets[n := buckets[n] + [a]], order)
            else Buckets(actions[..i + 1], levels, buckets[n := [a]], order + [n])
  {
    var n, a := LevelIn(levels, actions[i]), actions[i];
    var before, after := actions[..i], actions[..i + 1];
    assert after == before + [a];
    forall m ensures Filter(OnLevel(levels, m), after) == Filter(OnLevel(levels, m), before) + (if m == n then [a] else []) {
      FilterAppend(OnLevel(levels, m), before, [a]);
      assert [a][1..] == [];
    }
    if n !in buckets {
      FilterNone(OnLevel(levels, n), before);
    }
  }

  /** The grouping stage: levels in ascending order, each with all its actions in input order. */
  ghost predicate Grouped(actions: seq<Action>, levels: map<ActionId, nat>, r: seq<DependencyGraphLevel>) {
    && AscendingLevels(r)
    && (forall i :: 0 <= i < |r| ==> r[i].actions != [] && r[i].actions == Filter(OnLevel(levels, r[i].level), actions))
    && (forall a :: a in actions ==> exists i :: 0 <= i < |r| && r[i].level == LevelIn(levels, a))
  }

  method GroupByLevel(actions: seq<Action>, levels: map<ActionId, nat>) returns (r: seq<DependencyGraphLevel>)
    ensures Grouped(actions, levels, r)
  {
    var buckets: map<nat, seq<Action>> := map[];
    var order: seq<nat> := [];
    for i := 0 to |actions|
      invariant Buckets(actions[..i], levels, buckets, order)
    {
      BucketStep(actions, i, levels, buckets, order);
      var n := LevelIn(levels, actions[i]);
      if n in buckets {
        buckets := buckets[n := buckets[n] + [actions[i]]];
      } else {
        buckets := buckets[n := [actions[i]]];
        order := order + [n];
      }
    }
    assert actions[..|actions|] == actions;
    var sorted := Sort(AtMost, order);
    SortSorts(AtMost, order);
    SortPermutes(AtMost, order);
    SortKeepsDistinct(AtMost, order);
    r := Entries(sorted, buckets);
    EntriesGroup(actions, levels, buckets, order, sorted);
  }

  lemma EntriesGroup(actions: seq<Action>, levels: map<ActionId, nat>, buckets: map<nat, seq<Action>>, order: seq<nat>, sorted: seq<nat>)
    requires Buckets(actions, levels, buckets, order)
    requires Sorted(AtMost, sorted) && NoDuplicates(sorted) && forall n :: n in sorted <==> n in order
    ensures Grouped(actions, levels, Entries(sorted, buckets))
  {
    var r := Entries(sorted, buckets);
    forall a | a in actions ensures exists i :: 0 <= i < |r| && r[i].level == LevelIn(levels, a) {
      var k :| 0 <= k < |sorted| && sorted[k] == LevelIn(levels, a);
      assert r[k].level == LevelIn(levels, a);
    }
    forall i, j | 0 <= i < j < |r| ensures r[i].level < r[j].level {
      assert AtMost(sorted[i], sorted[j]);
    }
  }

  function Entries(sorted: seq<nat>, buckets: map<nat, seq<Action>>): (r: seq<DependencyGraphLevel>)
    requires forall n :: n in sorted ==> n in buckets
    ensures |r| == |sorted|
    ensures forall i :: 0 <= i < |r| ==> r[i] == DependencyGraphLevel(sorted[i], buckets[sorted[i]])
  {
    seq(|sorted|, i requires 0 <= i < |sorted| => DependencyGraphLevel(sorted[i], buckets[sorted[i]]))
  }

  /** Every present dependency sits on a strictly lower level. */
  ghost predicate DependenciesLower(byId: Table, levels: map<ActionId, nat>) {
    forall x :: x in byId ==> x in levels && LowerThan(levels, PresentDeps(byId, x), levels[x])
  }

  ghost predicate LowerThan(levels: map<ActionId, nat>, deps: seq<ActionId>, n: nat) {
    forall d :: d in deps ==> d in levels && levels[d] < n
  }

  /** Levels strictly fall along a chain, so a chain cannot close. */
  lemma {:induction false} LowerMeansAcyclic(byId: Table, levels: map<ActionId, nat>, w: seq<ActionId>)
    requires DependenciesLower(byId, levels) && IsWalk(DepFn(byId), w) && |w| > 1
    ensures w[0] in levels && w[|w| - 1] in levels && levels[w[|w| - 1]] < levels[w[0]]
  {
    SecondIsDependency(byId, w);
    assert w[0] in byId && LowerThan(levels, PresentDeps(byId, w[0]), levels[w[0]]);
    if |w| > 2 {
      TailWalk(DepFn(byId), w);
      LowerMeansAcyclic(byId, levels, w[1..]);
    }
  }

  lemma LongestChainUnique(byId: Table, id: ActionId, m: nat, n: nat)
    requires LongestChain(byId, id, m) && LongestChain(byId, id, n)
    ensures m == n
  {
    var v :| IsWalk(DepFn(byId), v) && v[0] == id && |v| == m + 1;
    var w :| IsWalk(DepFn(byId), w) && w[0] == id && |w| == n + 1;
  }

  /** A longest chain of n + 1 steps leaves a longest chain of n from its second member. */
  lemma ShorterChain(byId: Table, id: ActionId, n: nat) returns (d: ActionId)
    requires LongestChain(byId, id, n + 1)
    ensures d in PresentDeps(byId, id) && LongestChain(byId, d, n)
  {
    var succ := DepFn(byId);
    var w :| IsWalk(succ, w) && w[0] == id && |w| == n + 2;
    SecondIsDependency(byId, w);
    d := w[1];
    TailWalk(succ, w);
    assert HasChain(byId, d, n);
    forall v | IsWalk(succ, v) && v[0] == d ensures |v| <= n + 1 {
      PrependWalk(succ, id, v);
    }
  }

  /** An exact level of n is explained by a dependency of exact level n - 1. */
  lemma SupportingDependency(byId: Table, levels: map<ActionId, nat>, id: ActionId) returns (d: ActionId)
    requires Levelled(byId, levels) && Exact(byId, levels) && id in levels && levels[id] > 0
    ensures d in PresentDeps(byId, id) && d in levels && levels[d] == levels[id] - 1
  {
    d := ShorterChain(byId, id, levels[id] - 1);
    PresentDepsMembers(byId, id);
    LongestChainUnique(byId, d, levels[id] - 1, levels[d]);
  }

  lemma ExactMeansLower(byId: Table, levels: map<ActionId, nat>)
    requires Levelled(byId, levels) && Exact(byId, levels)
    ensures DependenciesLower(byId, levels)
  {
    forall x | x in byId ensures x in levels && LowerThan(levels, PresentDeps(byId, x), levels[x]) {
      PresentDepsMembers(byId, x);
      forall d | d in PresentDeps(byId, x) ensures d in levels && levels[d] < levels[x] {
        ChainGrows(byId, x, d, levels[d], levels[x]);
      }
    }
  }

  lemma ChainGrows(byId: Table, x: ActionId, d: ActionId, m: nat, n: nat)
    requires d in PresentDeps(byId, x) && HasChain(byId, d, m) && NoLongerChain(byId, x, n)
    ensures m < n
  {
    var w :| IsWalk(DepFn(byId), w) && w[0] == d && |w| == m + 1;
    PrependWalk(DepFn(byId), x, w);
  }

  /** All levels below an occurring one occur. */
  lemma {:induction false} NoLevelSkipped(byId: Table, levels: map<ActionId, nat>, id: ActionId, n: nat) returns (x: ActionId)
    requires Levelled(byId, levels) && Exact(byId, levels) && id in levels && n <= levels[id]
    ensures x in levels && levels[x] == n
    decreases levels[id]
  {
    x := id;
    if n < levels[id] {
      var d := SupportingDependency(byId, levels, id);
      x := NoLevelSkipped(byId, levels, d, n);
    }
  }

  ghost predicate Occurs(r: seq<DependencyGraphLevel>, n: nat) { exists m :: 0 <= m < |r| && r[m].level == n }

  /** Below every level of the listing, all levels occur. */
  ghost predicate GapFree(r: seq<DependencyGraphLevel>) {
    forall i, n: nat :: 0 <= i < |r| && n <= r[i].level ==> Occurs(r, n)
  }

  ghost predicate AscendingLevels(r: seq<DependencyGraphLevel>) { forall i, j :: 0 <= i < j < |r| ==> r[i].level < r[j].level }

  /** An ascending listing without gaps counts 0, 1, 2, ... */
  lemma {:induction false} Consecutive(r: seq<DependencyGraphLevel>, i: nat)
    requires AscendingLevels(r) && GapFree(r) && i < |r|
    ensures r[i].level == i
  {
    if i > 0 { Consecutive(r, i - 1); }
    var n := if i == 0 then 0 else r[i - 1].level + 1;
    assert i > 0 ==> r[i - 1].level < r[i].level;
    assert n <= r[i].level;
    assert Occurs(r, n);
    var m :| 0 <= m < |r| && r[m].level == n;
    NothingBetween(r, i, m);
  }

  /** A level above the one before position `i` and not above the one at `i` is the one at `i`. */
  lemma NothingBetween(r: seq<DependencyGraphLevel>, i: nat, m: nat)
    requires AscendingLevels(r) && i < |r| && m < |r|
    requires r[m].level <= r[i].level && (i > 0 ==> r[i - 1].level < r[m].level)
    ensures m == i
  {
    assert i - 1 <= m <= i;
  }

  lemma FirstOf(actions: seq<Action>, levels: map<ActionId, nat>, n: nat) returns (a: Action)
    requires Filter(OnLevel(levels, n), actions) != []
    ensures a in actions && LevelIn(levels, a) == n
  {
    FilterMembers(OnLevel(levels, n), actions);
    a := Filter(OnLevel(levels, n), actions)[0];
    assert a in Filter(OnLevel(levels, n), actions);
  }

  ghost predicate AllSupported(byId: Table, levels: map<ActionId, nat>) { forall x :: x in levels ==> Supported(byId, levels, x, levels[x]) }

  /** Whatever the cycles, below an occurring level all levels down to 1 occur. */
  lemma {:induction false} Descend(byId: Table, levels: map<ActionId, nat>, id: ActionId, n: nat) returns (x: ActionId)
    requires AllSupported(byId, levels) && id in levels && 0 < n <= levels[id]
    ensures x in levels && levels[x] == n
    decreases levels[id]
  {
    x := id;
    if n < levels[id] {
      assert Supported(byId, levels, id, levels[id]);
      var d :| d in PresentDeps(byId, id) && d in levels && levels[d] == levels[id] - 1;
      x := Descend(byId, levels, d, n);
    }
  }

  lemma SettledOccurs(actions: seq<Action>, byId: Table, levels: map<ActionId, nat>, r: seq<DependencyGraphLevel>, x: ActionId)
    requires Indexes(byId, actions) && Grouped(actions, levels, r) && Levelled(byId, levels) && x in levels
    ensures Occurs(r, levels[x])
  {
    assert byId[x] in actions && LevelIn(levels, byId[x]) == levels[x];
  }

  /** Some action of the queue has no present dependency. */
  ghost predicate HasRoot(actions: seq<Action>) { exists a :: a in actions && PresentDeps(ById(actions), a.id) == [] }

  lemma RootMeansGapFree(actions: seq<Action>, byId: Table, levels: map<ActionId, nat>, r: seq<DependencyGraphLevel>, root: Action)
    requires Indexes(byId, actions) && Grouped(actions, levels, r) && Levelled(byId, levels) && AllSupported(byId, levels)
    requires root in actions && PresentDeps(byId, root.id) == []
    ensures GapFree(r)
  {
    SettledOccurs(actions, byId, levels, r, root.id);
    forall i, n: nat | 0 <= i < |r| && n <= r[i].level ensures Occurs(r, n) {
      if n > 0 {
        var a := FirstOf(actions, levels, r[i].level);
        var x := Descend(byId, levels, a.id, n);
        SettledOccurs(actions, byId, levels, r, x);
      }
    }
  }

  /** Only level 0 can ever be missing: for a non-empty queue, cycles included, the levels run 0, 1, 2,
      ... exactly when some action has no present dependency. */
  lemma ConsecutiveExactlyWhen(actions: seq<Action>, byId: Table, levels: map<ActionId, nat>, r: seq<DependencyGraphLevel>)
    requires byId == ById(actions) && Indexes(byId, actions) && Grouped(actions, levels, r) && Levelled(byId, levels) && AllSupported(byId, levels)
    requires actions != []
    ensures RunsFromZero(r) <==> HasRoot(actions)
  {
    if HasRoot(actions) {
      var root :| root in actions && PresentDeps(byId, root.id) == [];
      RootMeansGapFree(actions, byId, levels, r, root);
      forall i | 0 <= i < |r| ensures r[i].level == i {
        Consecutive(r, i);
      }
    }
    if RunsFromZero(r) {
      assert actions[0] in actions;
      var a := FirstOf(actions, levels, r[0].level);
      assert PresentDeps(byId, a.id) == [];
    }
  }

  /** Without cycles there is such an action. */
  lemma AcyclicHasRoot(actions: seq<Action>, levels: map<ActionId, nat>)
    requires actions != [] && Indexes(ById(actions), actions) && Levelled(ById(actions), levels) && Exact(ById(actions), levels)
    ensures HasRoot(actions)
  {
    assert actions[0] in actions;
    var x := NoLevelSkipped(ById(actions), levels, actions[0].id, 0);
    assert ById(actions)[x] in actions;
  }

  lemma AcyclicMeansExact(byId: Table, levels: map<ActionId, nat>)
    requires Acyclic(byId) && ExactWhereFree(byId, levels)
    ensures Exact(byId, levels)
  {
    forall x | x in levels ensures CycleFree(byId, x) {
      forall y ensures !DependsOn(byId, y, y) {
      }
    }
  }

  /** From an action on a cycle there are chains of every length. */
  lemma {:induction false} PumpCycle(byId: Table, y: ActionId, n: nat) returns (w: seq<ActionId>)
    requires DependsOn(byId, y, y)
    ensures IsWalk(DepFn(byId), w) && w[0] == y && |w| > n
  {
    w := [y];
    if n > 0 {
      var rest := PumpCycle(byId, y, n - 1);
      var cycle :| IsWalk(DepFn(byId), cycle) && |cycle| > 1 && cycle[0] == y && cycle[|cycle| - 1] == y;
      JoinWalks(DepFn(byId), cycle, rest);
      w := cycle[..|cycle| - 1] + rest;
    }
  }

  /** Two walks that meet, joined where they do. */
  lemma JoinWalks<K>(succ: K -> seq<K>, a: seq<K>, b: seq<K>)
    requires IsWalk(succ, a) && IsWalk(succ, b) && a[|a| - 1] == b[0]
    ensures IsWalk(succ, a[..|a| - 1] + b)
  {
    var n := |a| - 1;
    var w := a[..n] + b;
    forall i | 0 <= i < |w| - 1 ensures w[i + 1] in succ(w[i]) {
      if i < n {
        assert a[i + 1] in succ(a[i]);
        assert w[i] == a[i] && w[i + 1] == a[i + 1];
      } else {
        assert b[i - n + 1] in succ(b[i - n]);
      }
    }
  }

  /** An action from which a cycle can be reached has no longest chain. */
  lemma CycleHasNoLongestChain(byId: Table, x: ActionId, n: nat)
    requires !CycleFree(byId, x)
    ensures !NoLongerChain(byId, x, n)
  {
    var y :| LeadsTo(byId, x, y) && DependsOn(byId, y, y);
    var w := PumpCycle(byId, y, n + 1);
    if x != y {
      var path :| IsWalk(DepFn(byId), path) && |path| > 1 && path[0] == x && path[|path| - 1] == y;
      JoinWalks(DepFn(byId), path, w);
      w := path[..|path| - 1] + w;
    }
    assert IsWalk(DepFn(byId), w) && w[0] == x && |w| > n + 1;
  }

  /** A level is its action's longest chain exactly where no cycle can be reached. */
  lemma ExactExactlyWhereFree(byId: Table, levels: map<ActionId, nat>)
    requires ExactWhereFree(byId, levels)
    ensures forall x :: x in levels ==> (CycleFree(byId, x) <==> LongestChain(byId, x, levels[x]))
  {
    forall x | x in levels ensures CycleFree(byId, x) <==> LongestChain(byId, x, levels[x]) {
      if !CycleFree(byId, x) { CycleHasNoLongestChain(byId, x, levels[x]); }
    }
  }

  ghost predicate RunsFromZero(r: seq<DependencyGraphLevel>) { forall i :: 0 <= i < |r| ==> r[i].level == i }

  /** A level for every action, and the actions grouped by it: a level is its action's longest
      dependency chain exactly where no cycle can be reached, and dependencies all sit on lower
      levels exactly when nothing is cyclic. */
  ghost predicate Layering(actions: seq<Action>, levels: map<ActionId, nat>, r: seq<DependencyGraphLevel>) {
    var byId := ById(actions);
    && Levelled(byId, levels) && Grouped(actions, levels, r)
    && (Acyclic(byId) <==> DependenciesLower(byId, levels))
    && (forall x :: x in levels ==> (CycleFree(byId, x) <==> LongestChain(byId, x, levels[x])))
  }

  lemma AcyclicExactlyWhenLower(byId: Table, levels: map<ActionId, nat>)
    requires Levelled(byId, levels) && ExactWhereFree(byId, levels)
    ensures Acyclic(byId) <==> DependenciesLower(byId, levels)
    ensures Acyclic(byId) ==> Exact(byId, levels)
  {
    if Acyclic(byId) {
      AcyclicMeansExact(byId, levels);
      ExactMeansLower(byId, levels);
    }
    if DependenciesLower(byId, levels) {
      forall w | IsWalk(DepFn(byId), w) && |w| > 1 ensures w[0] != w[|w| - 1] {
        LowerMeansAcyclic(byId, levels, w);
      }
    }
  }

  lemma LayeringHolds(actions: seq<Action>, levels: map<ActionId, nat>, r: seq<DependencyGraphLevel>)
    requires Levelled(ById(actions), levels) && Grouped(actions, levels, r) && ExactWhereFree(ById(actions), levels)
    ensures Layering(actions, levels, r)
  {
    AcyclicExactlyWhenLower(ById(actions), levels);
    ExactExactlyWhereFree(ById(actions), levels);
  }

  lemma RootWhenAcyclic(actions: seq<Action>, levels: map<ActionId, nat>)
    requires Indexes(ById(actions), actions) && Levelled(ById(actions), levels) && ExactWhereFree(ById(actions), levels) && actions != []
    ensures Acyclic(ById(actions)) ==> HasRoot(actions)
  {
    if Acyclic(ById(actions)) {
      AcyclicMeansExact(ById(actions), levels);
      AcyclicHasRoot(actions, levels);
    }
  }

  /** The whole function. Whatever the dependencies, every action lands in exactly one level, in
      input order, and no level exceeds the number of distinct ids. The levels run 0, 1, 2, ...
      exactly when some action has no present dependency, as one does when nothing is cyclic. */
  method BuildDependencyLevels(actions: seq<Action>) returns (r: seq<DependencyGraphLevel>)
    ensures exists levels :: Layering(actions, levels, r)
    ensures actions != [] ==> (RunsFromZero(r) <==> HasRoot(actions))
    ensures actions != [] && Acyclic(ById(actions)) ==> HasRoot(actions)
  {
    var byId := ById(actions);
    ByIdIndexes(actions);
    LevelClaimHereditary(byId);
    var levels := ResolveLevels(actions, byId, LevelClaim(byId));
    ClaimMeansExact(byId, levels);
    r := GroupByLevel(actions, levels);
    LayeringHolds(actions, levels, r);
    if actions != [] {
      ConsecutiveExactlyWhen(actions, byId, levels, r);
      RootWhenAcyclic(actions, levels);
    }
  }

  /** The cycle guard answers 0 for the repeated id, but an action that depends on itself lands
      one above that answer: its queue has a level 1 and no level 0. */
  lemma SelfDependencyLandsOnLevelOne(a: Action, levels: map<ActionId, nat>, r: seq<DependencyGraphLevel>)
    requires a.dependencyLabels == [a.id]
    requires Levelled(ById([a]), levels) && Grouped([a], levels, r)
    ensures |r| == 1 && r[0] == DependencyGraphLevel(1, [a])
  {
    assert ById([a]) == map[a.id := a] by { assert [a][..0] == []; }
    PresentDepsMembers(ById([a]), a.id);
    assert a.id in PresentDeps(ById([a]), a.id);
    assert |ById([a])| == 1;
    assert LevelIn(levels, a) == 1;
    assert a in [a];
    forall i | 0 <= i < |r| ensures r[i] == DependencyGraphLevel(1, [a]) {
      FilterMembers(OnLevel(levels, r[i].level), [a]);
      assert r[i].actions[0] in [a];
      assert [a][1..] == [];
    }
    assert |r| > 1 ==> r[0].level < r[1].level;
  }

  // ---------------------------------------------------------------- the layering in the actions' own fields

  /** Position `i` holds the last action with that id, which is the one that counts. */
  ghost predicate LastWith(actions: seq<Action>, id: ActionId, i: int) {
    0 <= i < |actions| && actions[i].id == id && forall j :: i < j < |actions| ==> actions[j].id != id
  }

  ghost predicate Queued(actions: seq<Action>, id: ActionId) { exists i :: 0 <= i < |actions| && actions[i].id == id }

  /** The action of id `a` names `b`, and `b` is in the queue. */
  ghost predicate NeedsDirectly(actions: seq<Action>, a: ActionId, b: ActionId) {
    Queued(actions, b) && exists i :: LastWith(actions, a, i) && b in actions[i].dependencyLabels
  }

  ghost predicate NeedsChain(actions: seq<Action>, w: seq<ActionId>) {
    w != [] && forall i :: 0 <= i < |w| - 1 ==> NeedsDirectly(actions, w[i], w[i + 1])
  }

  lemma QueuedStep(front: seq<Action>, last: Action, id: ActionId)
    ensures Queued(front + [last], id) <==> Queued(front, id) || last.id == id
  {
    var all := front + [last];
    if last.id == id { assert all[|front|].id == id; }
    if i :| 0 <= i < |front| && front[i].id == id { assert all[i].id == id; }
  }

  /** The table's entry for `id` is the last action with it. */
  ghost predicate HoldsLast(actions: seq<Action>, id: ActionId, a: Action) {
    exists i :: LastWith(actions, id, i) && actions[i] == a
  }

  lemma HoldsLastStep(front: seq<Action>, last: Action, id: ActionId, a: Action)
    ensures last.id == id ==> HoldsLast(front + [last], id, last)
    ensures last.id != id && HoldsLast(front, id, a) ==> HoldsLast(front + [last], id, a)
  {
    var all := front + [last];
    if last.id == id { assert LastWith(all, id, |front|); }
    if last.id != id && HoldsLast(front, id, a) {
      var i :| LastWith(front, id, i) && front[i] == a;
      assert LastWith(all, id, i);
    }
  }

  lemma {:induction false} ByIdIsLast(actions: seq<Action>, id: ActionId)
    ensures id in ById(actions) <==> Queued(actions, id)
    ensures id in ById(actions) ==> HoldsLast(actions, id, ById(actions)[id])
  {
    if actions != [] {
      var n := |actions| - 1;
      var front, last := actions[..n], actions[n];
      ByIdIsLast(front, id);
      assert actions == front + [last];
      QueuedStep(front, last, id);
      HoldsLastStep(front, last, id, if id in ById(front) then ById(front)[id] else last);
    }
  }

  lemma NeedsInFields(actions: seq<Action>, a: ActionId, b: ActionId)
    ensures b in DepFn(ById(actions))(a) <==> NeedsDirectly(actions, a, b)
  {
    PresentDepsMembers(ById(actions), a);
    ByIdIsLast(actions, a);
    ByIdIsLast(actions, b);
    if i :| LastWith(actions, a, i) && b in actions[i].dependencyLabels {
      assert Queued(actions, a) && HoldsLast(actions, a, ById(actions)[a]);
      var j :| LastWith(actions, a, j) && actions[j] == ById(actions)[a];
      assert i == j;
    }
  }

  lemma ChainInFields(actions: seq<Action>, w: seq<ActionId>)
    ensures IsWalk(DepFn(ById(actions)), w) <==> NeedsChain(actions, w)
  {
    forall i | 0 <= i < |w| - 1 ensures w[i + 1] in DepFn(ById(actions))(w[i]) <==> NeedsDirectly(actions, w[i], w[i + 1]) {
      NeedsInFields(actions, w[i], w[i + 1]);
    }
  }

  /** `n` is the length of the longest chain of needs from `id`. */
  ghost predicate LongestNeeds(actions: seq<Action>, id: ActionId, n: nat) {
    && (exists w :: NeedsChain(actions, w) && w[0] == id && |w| == n + 1)
    && forall w :: NeedsChain(actions, w) && w[0] == id ==> |w| <= n + 1
  }

  /** Some chain of needs from `id` comes twice through the same action. */
  ghost predicate RunsInCircles(actions: seq<Action>, id: ActionId) {
    exists w, i, j :: NeedsChain(actions, w) && w[0] == id && 0 <= i < j < |w| && w[i] == w[j]
  }

  lemma LongestInFields(actions: seq<Action>, id: ActionId, n: nat)
    ensures LongestChain(ById(actions), id, n) <==> LongestNeeds(actions, id, n)
  {
    var byId := ById(actions);
    forall w ensures IsWalk(DepFn(byId), w) <==> NeedsChain(actions, w) {
      ChainInFields(actions, w);
    }
  }

  lemma SliceWalk<K>(succ: K -> seq<K>, w: seq<K>, i: nat, j: nat)
    requires IsWalk(succ, w) && i < j <= |w|
    ensures IsWalk(succ, w[i..j])
  {
    var s := w[i..j];
    forall k | 0 <= k < |s| - 1 ensures s[k + 1] in succ(s[k]) {
      assert w[i + k + 1] in succ(w[i + k]);
    }
  }

  /** A walk that comes twice through an action shows a reachable cycle. */
  lemma CircleIsCycle(byId: Table, id: ActionId, w: seq<ActionId>, i: nat, j: nat)
    requires IsWalk(DepFn(byId), w) && w[0] == id && i < j < |w| && w[i] == w[j]
    ensures !CycleFree(byId, id)
  {
    SliceWalk(DepFn(byId), w, 0, i + 1);
    SliceWalk(DepFn(byId), w, i, j + 1);
    var path, circle := w[0..i + 1], w[i..j + 1];
    assert circle[0] == w[i] && circle[|circle| - 1] == w[i];
    assert DependsOn(byId, w[i], w[i]);
    if id != w[i] { assert |path| > 1 && path[0] == id && path[|path| - 1] == w[i]; }
    assert LeadsTo(byId, id, w[i]);
  }

  lemma CycleIsCircle(byId: Table, id: ActionId) returns (w: seq<ActionId>, i: nat, j: nat)
    requires !CycleFree(byId, id)
    ensures IsWalk(DepFn(byId), w) && w[0] == id && i < j < |w| && w[i] == w[j]
  {
    var y :| LeadsTo(byId, id, y) && DependsOn(byId, y, y);
    w :| IsWalk(DepFn(byId), w) && |w| > 1 && w[0] == y && w[|w| - 1] == y;
    i, j := 0, |w| - 1;
    if id != y {
      var path :| IsWalk(DepFn(byId), path) && |path| > 1 && path[0] == id && path[|path| - 1] == y;
      JoinWalks(DepFn(byId), path, w);
      w, i, j := path[..|path| - 1] + w, |path| - 1, |path| - 1 + j;
    }
  }

  lemma CirclesInFields(actions: seq<Action>, id: ActionId)
    ensures CycleFree(ById(actions), id) <==> !RunsInCircles(actions, id)
  {
    var byId := ById(actions);
    if RunsInCircles(actions, id) {
      var w, i, j :| NeedsChain(actions, w) && w[0] == id && 0 <= i < j < |w| && w[i] == w[j];
      ChainInFields(actions, w);
      CircleIsCycle(byId, id, w, i, j);
    }
    if !CycleFree(byId, id) {
      var w, i, j := CycleIsCircle(byId, id);
      ChainInFields(actions, w);
    }
  }

  ghost predicate Disjoint(a: seq<int>, b: seq<int>) { forall k :: k in a ==> k !in b }

  /** Every position of the queue stands in exactly one level, in queue order. */
  ghost predicate Partitions(actions: seq<Action>, r: seq<DependencyGraphLevel>, at: seq<seq<int>>) {
    && |at| == |r|
    && (forall i, j :: 0 <= i < j < |r| ==> r[i].level < r[j].level && Disjoint(at[i], at[j]))
    && (forall i :: 0 <= i < |r| ==> r[i].actions != [] && PicksInOrder(actions, at[i], r[i].actions))
    && (forall k :: 0 <= k < |actions| ==> Stands(k, at))
  }

  ghost predicate Stands(k: int, at: seq<seq<int>>) { exists i :: 0 <= i < |at| && k in at[i] }

  /** `at` are the positions of level `e`. */
  ghost predicate Holds(actions: seq<Action>, levels: map<ActionId, nat>, e: DependencyGraphLevel, at: seq<int>) {
    && PicksInOrder(actions, at, e.actions)
    && forall k :: k in at <==> 0 <= k < |actions| && LevelIn(levels, actions[k]) == e.level
  }

  lemma LevelPicks(actions: seq<Action>, levels: map<ActionId, nat>, e: DependencyGraphLevel) returns (at: seq<int>)
    requires e.actions == Filter(OnLevel(levels, e.level), actions)
    ensures Holds(actions, levels, e, at)
  {
    at := FilterPicks(OnLevel(levels, e.level), actions, |actions|);
    assert actions[..|actions|] == actions;
  }

  lemma LevelsDisjoint(actions: seq<Action>, levels: map<ActionId, nat>, e: DependencyGraphLevel, f: DependencyGraphLevel, at: seq<int>, at': seq<int>)
    requires Holds(actions, levels, e, at) && Holds(actions, levels, f, at') && e.level != f.level
    ensures Disjoint(at, at')
  {
  }

  lemma GroupedPartitions(actions: seq<Action>, levels: map<ActionId, nat>, r: seq<DependencyGraphLevel>) returns (at: seq<seq<int>>)
    requires Grouped(actions, levels, r)
    ensures Partitions(actions, r, at)
  {
    at := HeldPositions(actions, levels, r, |r|);
    forall i, j | 0 <= i < j < |r| ensures Disjoint(at[i], at[j]) {
      LevelsDisjoint(actions, levels, r[i], r[j], at[i], at[j]);
    }
    forall k | 0 <= k < |actions| ensures Stands(k, at) {
      StandsSomewhere(actions, levels, r, at, k);
    }
  }

  lemma StandsSomewhere(actions: seq<Action>, levels: map<ActionId, nat>, r: seq<DependencyGraphLevel>, at: seq<seq<int>>, k: nat)
    requires Grouped(actions, levels, r) && k < |actions|
    requires |at| == |r| && forall i :: 0 <= i < |r| ==> Holds(actions, levels, r[i], at[i])
    ensures Stands(k, at)
  {
    assert actions[k] in actions;
    var i :| 0 <= i < |r| && r[i].level == LevelIn(levels, actions[k]);
    assert Holds(actions, levels, r[i], at[i]);
  }

  lemma {:induction false} HeldPositions(actions: seq<Action>, levels: map<ActionId, nat>, r: seq<DependencyGraphLevel>, n: nat) returns (at: seq<seq<int>>)
    requires n <= |r| && forall i :: 0 <= i < n ==> r[i].actions == Filter(OnLevel(levels, r[i].level), actions)
    ensures |at| == n && forall i :: 0 <= i < n ==> Holds(actions, levels, r[i], at[i])
  {
    at := [];
    if n > 0 {
      at := HeldPositions(actions, levels, r, n - 1);
      var last := LevelPicks(actions, levels, r[n - 1]);
      at := at + [last];
    }
  }

  /** In the actions' own fields, a layering is a partition of the queue. */
  lemma LayeringPartitions(actions: seq<Action>, levels: map<ActionId, nat>, r: seq<DependencyGraphLevel>) returns (at: seq<seq<int>>)
    requires Layering(actions, levels, r)
    ensures Partitions(actions, r, at)
  {
    at := GroupedPartitions(actions, levels, r);
  }

  /** The level that an action stands in is the length of its longest chain of needs exactly when no such
      chain runs in circles. */
  lemma LevelInFields(actions: seq<Action>, levels: map<ActionId, nat>, r: seq<DependencyGraphLevel>, i: nat, a: Action)
    requires Layering(actions, levels, r) && i < |r| && a in r[i].actions
    ensures LongestNeeds(actions, a.id, r[i].level) <==> !RunsInCircles(actions, a.id)
  {
    FilterMembers(OnLevel(levels, r[i].level), actions);
    ByIdIsLast(actions, a.id);
    QueuedMember(actions, a);
    LongestInFields(actions, a.id, r[i].level);
    CirclesInFields(actions, a.id);
  }

  lemma QueuedMember(actions: seq<Action>, a: Action)
    requires a in actions
    ensures Queued(actions, a.id)
  {
    var i :| 0 <= i < |actions| && actions[i] == a;
  }
}
