/** `_escalation_episode_minutes`: durations of the excursions of each zone away from normal. */
module Episodes {
  import opened Common
  import opened Measures
  import opened Tiers

  datatype Observation = Observation(timestamp: int, tier: Tier)

  /** Scan state of one sequence: the durations found and the start of an open excursion. */
  datatype Scan = Scan(durations: seq<real>, start: Option<int>)

  function Observe(s: Scan, o: Observation): Scan {
    if o.tier != Normal && s.start.None? then s.(start := Some(o.timestamp))
    else if o.tier == Normal && s.start.Some? then Scan(s.durations + [Minutes(o.timestamp - s.start.value)], None)
    else s
  }

  function ScanOf(seen: seq<Observation>): Scan {
    if seen == [] then Scan([], None) else Observe(ScanOf(seen[..|seen| - 1]), seen[|seen| - 1])
  }

  /** Each zone contributes its closed excursions, zone after zone. */
  function DurationsOf(zones: seq<seq<Observation>>): seq<real> {
    if zones == [] then [] else DurationsOf(zones[..|zones| - 1]) + ScanOf(zones[|zones| - 1]).durations
  }

  method EscalationEpisodeMinutes(zones: seq<seq<Observation>>) returns (durations: seq<real>)
    ensures durations == DurationsOf(zones)
  {
    durations := [];
    for z := 0 to |zones|
      invariant durations == DurationsOf(zones[..z])
    {
      assert zones[..z + 1][..z] == zones[..z];
      ghost var before := durations;
      var episodeStart: Option<int> := None;
      for i := 0 to |zones[z]|
        invariant durations == before + ScanOf(zones[z][..i]).durations
        invariant episodeStart == ScanOf(zones[z][..i]).start
      {
        assert zones[z][..i + 1][..i] == zones[z][..i];
        var o := zones[z][i];
        if o.tier != Normal && episodeStart.None? {
          episodeStart := Some(o.timestamp);
        } else if o.tier == Normal && episodeStart.Some? {
          durations := durations + [Minutes(o.timestamp - episodeStart.value)];
          episodeStart := None;
        }
      }
      assert zones[z][..|zones[z]|] == zones[z];
    }
    assert zones[..|zones|] == zones;
  }

  // ---------------------------------------------------------------- how many

  /** Steps from a non-normal tick to a normal one. */
  function Returns(seen: seq<Observation>): nat {
    if |seen| <= 1 then 0
    else Returns(seen[..|seen| - 1]) + if seen[|seen| - 2].tier != Normal && seen[|seen| - 1].tier == Normal then 1 else 0
  }

  /** An excursion is open exactly while the last tick is not normal. */
  lemma {:induction false} OpenIffNotNormal(seen: seq<Observation>)
    ensures ScanOf(seen).start.Some? <==> seen != [] && seen[|seen| - 1].tier != Normal
  {
    if seen != [] { OpenIffNotNormal(seen[..|seen| - 1]); }
  }

  /** One duration per return to normal. */
  lemma {:induction false} OneDurationPerReturn(seen: seq<Observation>)
    ensures |ScanOf(seen).durations| == Returns(seen)
  {
    if seen != [] {
      OneDurationPerReturn(seen[..|seen| - 1]);
      OpenIffNotNormal(seen[..|seen| - 1]);
    }
  }

  // ---------------------------------------------------------------- how long

  /** Time spent after non-normal ticks: the gap following each, up to the last tick. */
  function TimeAway(seen: seq<Observation>): int {
    if |seen| <= 1 then 0
    else TimeAway(seen[..|seen| - 1])
         + if seen[|seen| - 2].tier != Normal then seen[|seen| - 1].timestamp - seen[|seen| - 2].timestamp else 0
  }

  /** Closed durations plus the open excursion so far are exactly the time away. */
  lemma {:induction false} DurationsAccount(seen: seq<Observation>)
    ensures var s := ScanOf(seen);
            Minutes(TimeAway(seen)) == Sum(s.durations) + if s.start.Some? then Minutes(seen[|seen| - 1].timestamp - s.start.value) else 0.0
  {
    OpenIffNotNormal(seen);
    if seen != [] {
      var n := |seen| - 1;
      var front, o := seen[..n], seen[n];
      DurationsAccount(front);
      OpenIffNotNormal(front);
      var before := ScanOf(front);
      SumSnoc(before.durations, if before.start.Some? then Minutes(o.timestamp - before.start.value) else 0.0);
      if n > 0 && front[n - 1].tier != Normal {
        MinutesAdd(TimeAway(front), o.timestamp - front[n - 1].timestamp);
        MinutesAdd(front[n - 1].timestamp - before.start.value, o.timestamp - front[n - 1].timestamp);
      }
    }
  }

  lemma MinutesAdd(a: int, b: int)
    ensures Minutes(a + b) == Minutes(a) + Minutes(b)
  {
  }

  /** The part of a history up to its last normal tick. */
  function Settled(seen: seq<Observation>): seq<Observation> {
    if seen == [] || seen[|seen| - 1].tier == Normal then seen else Settled(seen[..|seen| - 1])
  }

  lemma {:induction false} OpenExcursionAddsNothing(seen: seq<Observation>)
    ensures ScanOf(seen).durations == ScanOf(Settled(seen)).durations
    ensures ScanOf(Settled(seen)).start.None?
  {
    OpenIffNotNormal(seen);
    if seen != [] && seen[|seen| - 1].tier != Normal { OpenExcursionAddsNothing(seen[..|seen| - 1]); }
  }

  /** The durations add up to the gaps after non-normal ticks before the last normal tick: an
      excursion still open at the end contributes nothing. */
  lemma DurationsAddUp(seen: seq<Observation>)
    ensures Sum(ScanOf(seen).durations) == Minutes(TimeAway(Settled(seen)))
  {
    OpenExcursionAddsNothing(seen);
    DurationsAccount(Settled(seen));
  }

  // ---------------------------------------------------------------- each excursion

  /** Ticks `a` to `b` are one closed excursion: away from normal from `a` on, back at `b`. */
  ghost predicate Excursion(seen: seq<Observation>, a: int, b: int) {
    && 0 <= a < b < |seen|
    && (a > 0 ==> seen[a - 1].tier == Normal) && (forall i :: a <= i < b ==> seen[i].tier != Normal) && seen[b].tier == Normal
  }

  /** `d` is the time, in minutes, that the excursion lasts. */
  ghost predicate Lasts(seen: seq<Observation>, span: (int, int), d: real) {
    Excursion(seen, span.0, span.1) && d * 60_000_000.0 == (seen[span.1].timestamp - seen[span.0].timestamp) as real
  }

  /** The durations are those of the excursions that `spans` lists in time order, of the first `n` ticks. */
  ghost predicate Spanned(seen: seq<Observation>, n: nat, durations: seq<real>, spans: seq<(int, int)>) {
    && |spans| == |durations| && n <= |seen|
    && (forall i :: 0 <= i < |spans| ==> Lasts(seen, spans[i], durations[i]) && spans[i].1 < n)
    && (forall i, j :: 0 <= i < j < |spans| ==> spans[i].1 < spans[j].0)
  }

  /** Where an open excursion began. */
  ghost predicate OpenedAt(seen: seq<Observation>, n: nat, a: int) {
    && 0 <= a < n <= |seen| && (a > 0 ==> seen[a - 1].tier == Normal) && forall i :: a <= i < n ==> seen[i].tier != Normal
  }

  lemma {:induction false} OpenMeaning(seen: seq<Observation>, n: nat) returns (a: int)
    requires n <= |seen| && ScanOf(seen[..n]).start.Some?
    ensures OpenedAt(seen, n, a) && ScanOf(seen[..n]).start == Some(seen[a].timestamp)
  {
    assert seen[..n][..n - 1] == seen[..n - 1];
    OpenIffNotNormal(seen[..n]);
    OpenIffNotNormal(seen[..n - 1]);
    if ScanOf(seen[..n - 1]).start.Some? {
      a := OpenMeaning(seen, n - 1);
    } else {
      a := n - 1;
    }
  }

  /** Each duration is that of one excursion, and since there is one for every return, of all of them. */
  lemma {:induction false} DurationsAreExcursions(seen: seq<Observation>, n: nat) returns (spans: seq<(int, int)>)
    requires n <= |seen|
    ensures Spanned(seen, n, ScanOf(seen[..n]).durations, spans)
  {
    spans := [];
    if n > 0 {
      spans := DurationsAreExcursions(seen, n - 1);
      assert seen[..n][..n - 1] == seen[..n - 1];
      var before := ScanOf(seen[..n - 1]);
      if seen[n - 1].tier == Normal && before.start.Some? {
        var a := OpenMeaning(seen, n - 1);
        SpanAdded(seen, n - 1, before.durations, spans, a);
        spans := spans + [(a, n - 1)];
      }
    }
  }

  lemma SpanAdded(seen: seq<Observation>, n: nat, durations: seq<real>, spans: seq<(int, int)>, a: int)
    requires n < |seen| && Spanned(seen, n, durations, spans) && OpenedAt(seen, n, a) && seen[n].tier == Normal
    ensures Spanned(seen, n + 1, durations + [Minutes(seen[n].timestamp - seen[a].timestamp)], spans + [(a, n)])
  {
    forall i | 0 <= i < |spans| ensures spans[i].1 < a {
      assert Lasts(seen, spans[i], durations[i]);
    }
  }

  /** The number of returns, counted by position. */
  lemma {:induction false} ReturnsByPosition(seen: seq<Observation>, n: nat)
    requires n <= |seen|
    ensures Returns(seen[..n]) == |ReturnedBefore(seen, n)|
  {
    if n <= 1 {
      assert ReturnedBefore(seen, n) == {};
    } else {
      ReturnsByPosition(seen, n - 1);
      assert seen[..n][..n - 1] == seen[..n - 1];
      var before, after := ReturnedBefore(seen, n - 1), ReturnedBefore(seen, n);
      assert after == if BackAt(seen, n - 1) then before + {n - 1} else before;
    }
  }

  ghost predicate BackAt(seen: seq<Observation>, i: int) { 0 < i < |seen| && seen[i - 1].tier != Normal && seen[i].tier == Normal }

  ghost function ReturnedBefore(seen: seq<Observation>, n: nat): set<int>
    requires n <= |seen|
  {
    set i | 0 < i < n && BackAt(seen, i)
  }
}
