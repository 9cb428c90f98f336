/** The two forms of recommendation derivation: the Python mirror with a set of seen ids, and the
    TypeScript original that scans what it has so far. */
module Recommendations {
  import opened Common
  import opened Tiers

  datatype Id = Id(name: string)

  datatype Recommendation = Recommendation(id: Id, text: string, severity: string)

  /** The two lookup tables, which the mirror copies verbatim. */
  datatype Tables = Tables(baseline: map<Tier, Recommendation>, rules: map<Id, Recommendation>)

  function IdOf(r: Recommendation): Id { r.id }

  function Ids(s: seq<Recommendation>): seq<Id> { Map(IdOf, s) }

  function Baseline(t: Tables, tier: Tier): seq<Recommendation> {
    if tier in t.baseline then [t.baseline[tier]] else []
  }

  /** The rule at position `k` is recognised. */
  predicate Recognised(t: Tables, fired: seq<Id>, k: nat) { k < |fired| && fired[k] in t.rules }

  /** The rule at position `k` is the first to bring its recommendation. */
  ghost predicate FirstToBring(t: Tables, tier: Tier, fired: seq<Id>, k: nat) {
    && Recognised(t, fired, k)
    && (tier in t.baseline ==> t.baseline[tier].id != t.rules[fired[k]].id)
    && forall i :: 0 <= i < k && Recognised(t, fired, i) ==> t.rules[fired[i]].id != t.rules[fired[k]].id
  }

  /** The reference: the baseline, then each recommendation where it is first brought, in firing order. */
  ghost function Expected(t: Tables, tier: Tier, fired: seq<Id>, n: nat): seq<Recommendation>
    requires n <= |fired|
  {
    if n == 0 then Baseline(t, tier)
    else Expected(t, tier, fired, n - 1) + if FirstToBring(t, tier, fired, n - 1) then [t.rules[fired[n - 1]]] else []
  }

  /** An id is present so far exactly when the baseline or an earlier recognised rule brought it. */
  lemma {:induction false} ExpectedIds(t: Tables, tier: Tier, fired: seq<Id>, n: nat, id: Id)
    requires n <= |fired|
    ensures id in Ids(Expected(t, tier, fired, n)) <==>
              (tier in t.baseline && t.baseline[tier].id == id)
              || exists i :: 0 <= i < n && Recognised(t, fired, i) && t.rules[fired[i]].id == id
  {
    if n > 0 {
      ExpectedIds(t, tier, fired, n - 1, id);
      var before := Expected(t, tier, fired, n - 1);
      if FirstToBring(t, tier, fired, n - 1) {
        IdsAppend(before, t.rules[fired[n - 1]]);
      } else {
        assert Expected(t, tier, fired, n) == before;
      }
    } else {
      assert tier in t.baseline ==> Ids(Baseline(t, tier)) == [t.baseline[tier].id];
    }
  }

  lemma IdsAppend(s: seq<Recommendation>, r: Recommendation)
    ensures Ids(s + [r]) == Ids(s) + [r.id]
  {
  }

  lemma NewExactlyWhenFirst(t: Tables, tier: Tier, fired: seq<Id>, n: nat)
    requires n < |fired| && fired[n] in t.rules
    ensures t.rules[fired[n]].id !in Ids(Expected(t, tier, fired, n)) <==> FirstToBring(t, tier, fired, n)
  {
    ExpectedIds(t, tier, fired, n, t.rules[fired[n]].id);
  }

  /** No recommendation is given twice, and the baseline, if any, comes first. */
  lemma {:induction false} NoRepeats(t: Tables, tier: Tier, fired: seq<Id>, n: nat)
    requires n <= |fired|
    ensures NoDuplicates(Ids(Expected(t, tier, fired, n)))
    ensures Baseline(t, tier) <= Expected(t, tier, fired, n)
  {
    if n > 0 {
      NoRepeats(t, tier, fired, n - 1);
      if FirstToBring(t, tier, fired, n - 1) {
        NewExactlyWhenFirst(t, tier, fired, n - 1);
        AppendNew(Baseline(t, tier), Expected(t, tier, fired, n - 1), t.rules[fired[n - 1]]);
      }
    }
  }

  lemma AppendNew(base: seq<Recommendation>, s: seq<Recommendation>, r: Recommendation)
    requires NoDuplicates(Ids(s)) && base <= s && r.id !in Ids(s)
    ensures NoDuplicates(Ids(s + [r])) && base <= s + [r]
  {
    IdsAppend(s, r);
  }

  /** `recommendation_templates_for`, with its set of seen ids. */
  method RecommendationTemplatesFor(t: Tables, tier: Tier, fired: seq<Id>) returns (templates: seq<Recommendation>)
    ensures templates == Expected(t, tier, fired, |fired|)
  {
    templates := Baseline(t, tier);
    var seen := ToSet(Ids(templates));
    for i := 0 to |fired|
      invariant templates == Expected(t, tier, fired, i) && seen == ToSet(Ids(templates))
    {
      if fired[i] in t.rules {
        NewExactlyWhenFirst(t, tier, fired, i);
        var template := t.rules[fired[i]];
        if template.id !in seen {
          IdsAppend(templates, template);
          templates := templates + [template];
          seen := seen + {template.id};
        }
      }
    }
  }

  /** `deriveRecommendations`, scanning the recommendations given so far; without a justification
      only the baseline is given. */
  method DeriveRecommendations(t: Tables, tier: Tier, justification: Option<seq<Id>>) returns (r: seq<Recommendation>)
    ensures r == match justification case None => Baseline(t, tier) case Some(fired) => Expected(t, tier, fired, |fired|)
    ensures justification.None? ==> r == if tier in t.baseline then [t.baseline[tier]] else []
  {
    r := Baseline(t, tier);
    if justification.None? { return; }
    var fired := justification.value;
    for i := 0 to |fired|
      invariant r == Expected(t, tier, fired, i)
    {
      if fired[i] in t.rules {
        NewExactlyWhenFirst(t, tier, fired, i);
        var recommendation := t.rules[fired[i]];
        var known := false;
        for j := 0 to |r|
          invariant known <==> exists k :: 0 <= k < j && r[k].id == recommendation.id
        {
          if r[j].id == recommendation.id { known := true; }
        }
        IdPresent(r, recommendation.id);
        if !known { r := r + [recommendation]; }
      }
    }
  }

  lemma IdPresent(r: seq<Recommendation>, id: Id)
    ensures id in Ids(r) <==> exists k :: 0 <= k < |r| && r[k].id == id
  {
    if id in Ids(r) {
      var k :| 0 <= k < |Ids(r)| && Ids(r)[k] == id;
      assert r[k].id == id;
    }
    if k :| 0 <= k < |r| && r[k].id == id { assert Ids(r)[k] == id; }
  }

  /** The listing in the tables' own fields: the tier's baseline if it has one, then the recommendations of
      the rules at the positions `at`, which are those that bring a new one. */
  lemma {:induction false} ExpectedInFields(t: Tables, tier: Tier, fired: seq<Id>, n: nat) returns (at: seq<nat>)
    requires n <= |fired|
    ensures (forall i :: 0 <= i < |at| ==> at[i] < n && fired[at[i]] in t.rules) && forall i, j :: 0 <= i < j < |at| ==> at[i] < at[j]
    ensures var first := if tier in t.baseline then [t.baseline[tier]] else [];
            Expected(t, tier, fired, n) == first + seq(|at|, i requires 0 <= i < |at| => t.rules[fired[at[i]]])
    ensures forall k :: 0 <= k < n ==> (k in at <==> FirstToBring(t, tier, fired, k))
  {
    at := [];
    if n > 0 {
      at := ExpectedInFields(t, tier, fired, n - 1);
      if FirstToBring(t, tier, fired, n - 1) { at := at + [n - 1]; }
    }
  }

  /** Both forms on the same tables, tier and fired rules: one duplicate-free sequence. */
  method BothForms(t: Tables, tier: Tier, fired: seq<Id>) returns (python: seq<Recommendation>, typescript: seq<Recommendation>)
    ensures python == typescript && NoDuplicates(Ids(python)) && Baseline(t, tier) <= python
  {
    python := RecommendationTemplatesFor(t, tier, fired);
    typescript := DeriveRecommendations(t, tier, Some(fired));
    NoRepeats(t, tier, fired, |fired|);
  }

  // ---------------------------------------------------------------- how long the top one has stood

  /** What a tick's recommendations are derived from: its tier and, if its justification can be read,
      the rules that fired. */
  datatype TickRecord = TickRecord(tier: Tier, fired: Option<seq<Id>>)

  ghost function DerivedFor(t: Tables, r: TickRecord): seq<Recommendation> {
    match r.fired case None => Baseline(t, r.tier) case Some(fired) => Expected(t, r.tier, fired, |fired|)
  }

  /** The first recommendation of a tick; having none is an id of its own. */
  ghost function TopId(t: Tables, r: TickRecord): Option<Id> {
    var all := DerivedFor(t, r);
    if all == [] then None else Some(all[0].id)
  }

  /** The top recommendation is the tier's baseline, if it has one, whatever rules fired. */
  lemma TopIsBaseline(t: Tables, r: TickRecord)
    requires r.tier in t.baseline
    ensures TopId(t, r) == Some(t.baseline[r.tier].id)
  {
    if r.fired.Some? { NoRepeats(t, r.tier, r.fired.value, |r.fired.value|); }
  }

  /** Without a baseline it is that of the first recognised rule. */
  lemma {:induction false} TopWithoutBaseline(t: Tables, tier: Tier, fired: seq<Id>, n: nat)
    requires tier !in t.baseline && n <= |fired|
    ensures Expected(t, tier, fired, n) == [] <==> forall i :: 0 <= i < n ==> !Recognised(t, fired, i)
    ensures forall k :: 0 <= k < n && Recognised(t, fired, k) && (forall i :: 0 <= i < k ==> !Recognised(t, fired, i)) ==>
              Expected(t, tier, fired, n) != [] && Expected(t, tier, fired, n)[0] == t.rules[fired[k]]
  {
    if n > 0 {
      TopWithoutBaseline(t, tier, fired, n - 1);
      if Recognised(t, fired, n - 1) && Expected(t, tier, fired, n - 1) == [] { assert FirstToBring(t, tier, fired, n - 1); }
    }
  }

  method TopRecommendationId(t: Tables, r: TickRecord) returns (id: Option<Id>)
    ensures id == TopId(t, r)
  {
    var all := DeriveRecommendations(t, r.tier, r.fired);
    id := if all == [] then None else Some(all[0].id);
  }

  /** `countUnchangedRecommendationTicks`, newest tick first: the length of the longest run of ticks
      that share the newest tick's top recommendation (or lack one as it does). */
  method CountUnchanged(t: Tables, ticks: seq<TickRecord>) returns (count: nat)
    ensures count <= |ticks| && (count == 0 <==> ticks == [])
    ensures forall i :: 0 <= i < count ==> TopId(t, ticks[i]) == TopId(t, ticks[0])
    ensures 0 < count < |ticks| ==> TopId(t, ticks[count]) != TopId(t, ticks[0])
  {
    count := 0;
    if ticks == [] { return; }
    var latest := TopRecommendationId(t, ticks[0]);
    while count < |ticks|
      invariant count <= |ticks| && forall i :: 0 <= i < count ==> TopId(t, ticks[i]) == latest
    {
      var id := TopRecommendationId(t, ticks[count]);
      if id != latest { break; }
      count := count + 1;
    }
  }
}
