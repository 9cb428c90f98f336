/** The two event detectors over a zone's assessments: the server's `_detect_bookmarks` and the
    client's `deriveTimelineEvents`, and where they agree. */
module Timeline {
  import opened Common
  import opened StableSort
  import opened Tiers
  import opened ScenarioTicks
  import Tiering

  /** An event, by what its label is rendered from. */
  datatype Event =
    | TierChange(at: int, before: Tier, after: Tier)
    | CriticalEntry(at: int)
    | InteractionBonus(at: int, multiplier: Option<real>)
    | HighestRisk(at: int, score: real)
    | PermitActivated(at: int, permitType: string)

  datatype Permit = Permit(issuedAt: int, permitType: string)

  // ---------------------------------------------------------------- highest risk

  /** `p` is the first of the first `n` rows with the greatest score among them. */
  ghost predicate FirstPeakOf(rows: seq<Assessment>, n: nat, p: int) {
    && 0 <= p < n <= |rows|
    && (forall i :: 0 <= i < n ==> rows[i].score <= rows[p].score)
    && (forall i :: 0 <= i < p ==> rows[i].score < rows[p].score)
  }

  ghost predicate FirstPeak(rows: seq<Assessment>, p: nat) { FirstPeakOf(rows, |rows|, p) }

  /** The client's running index of the peak, -1 before the first row. */
  ghost predicate PeakSoFar(rows: seq<Assessment>, n: nat, p: int) { if n == 0 then p == -1 else FirstPeakOf(rows, n, p) }

  lemma PeakStep(rows: seq<Assessment>, n: nat, p: int)
    requires n < |rows| && PeakSoFar(rows, n, p)
    ensures PeakSoFar(rows, n + 1, if p == -1 || rows[n].score > rows[p].score then n else p)
  {
  }

  lemma FirstPeakUnique(rows: seq<Assessment>, p: nat, q: nat)
    requires FirstPeak(rows, p) && FirstPeak(rows, q)
    ensures p == q
  {
    assert rows[p].score <= rows[q].score <= rows[p].score;
  }

  /** The first row with the greatest score, -1 when there is no row. */
  function PeakIndex(rows: seq<Assessment>): (p: int)
    ensures PeakSoFar(rows, |rows|, p)
  {
    if rows == [] then -1
    else
      var n := |rows| - 1;
      var p := PeakIndex(rows[..n]);
      if p == -1 || rows[n].score > rows[p].score then n else p
  }

  /** `max(assessments, key=score)`. */
  method PeakOf(rows: seq<Assessment>) returns (best: nat)
    requires rows != []
    ensures FirstPeak(rows, best) && best == PeakIndex(rows)
  {
    best := 0;
    for i := 1 to |rows|
      invariant FirstPeakOf(rows, i, best)
    {
      if rows[i].score > rows[best].score { best := i; }
    }
    FirstPeakUnique(rows, best, PeakIndex(rows));
  }

  // ---------------------------------------------------------------- server

  /** The tier events of one row, from its own justification. */
  function ServerTierEvents(a: Assessment): seq<Event> {
    var j := a.justification;
    if j.tierBefore.Some? && j.tierAfter.Some? && j.tierBefore.value != j.tierAfter.value then
      [TierChange(a.timestamp, j.tierBefore.value, j.tierAfter.value)]
      + if j.tierAfter.value == Critical then [CriticalEntry(a.timestamp)] else []
    else []
  }

  predicate HasBonus(a: Assessment) { a.justification.rulesFired.Some? && InteractionBonusApplied in a.justification.rulesFired.value }

  function ServerBonusEvents(a: Assessment): seq<Event> {
    if HasBonus(a) then [InteractionBonus(a.timestamp, a.justification.multiplier)] else []
  }

  function ServerRowEvents(a: Assessment): seq<Event> { ServerTierEvents(a) + ServerBonusEvents(a) }

  function ServerEvents(rows: seq<Assessment>): seq<Event> {
    if rows == [] then [] else ServerEvents(rows[..|rows| - 1]) + ServerRowEvents(rows[|rows| - 1])
  }

  function PermitEvents(permits: seq<Permit>): seq<Event> {
    Map((p: Permit) => PermitActivated(p.issuedAt, p.permitType), permits)
  }

  /** One turn of the server's loop. */
  method RowBookmarks(a: Assessment) returns (events: seq<Event>)
    ensures events == ServerRowEvents(a)
  {
    events := [];
    var j := a.justification;
    if j.tierBefore.Some? && j.tierAfter.Some? {
      if j.tierBefore.value != j.tierAfter.value {
        events := [TierChange(a.timestamp, j.tierBefore.value, j.tierAfter.value)];
        if j.tierAfter.value == Critical && j.tierBefore.value != Critical {
          events := events + [CriticalEntry(a.timestamp)];
        }
      }
    }
    if HasBonus(a) {
      events := events + [InteractionBonus(a.timestamp, j.multiplier)];
    }
  }

  /** The bookmarks of one zone, before `build_replay` sorts them all by time. */
  method DetectBookmarks(rows: seq<Assessment>, permits: seq<Permit>) returns (bookmarks: seq<Event>)
    ensures bookmarks == ServerBookmarks(rows, permits)
  {
    bookmarks := [];
    for i := 0 to |rows|
      invariant bookmarks == ServerEvents(rows[..i])
    {
      assert rows[..i + 1][..i] == rows[..i];
      var events := RowBookmarks(rows[i]);
      bookmarks := bookmarks + events;
    }
    assert rows[..|rows|] == rows;
    if rows != [] {
      var best := PeakOf(rows);
      bookmarks := bookmarks + [HighestRisk(rows[best].timestamp, rows[best].score)];
    }
    bookmarks := bookmarks + PermitEvents(permits);
  }

  function PeakEvents(rows: seq<Assessment>): seq<Event> {
    var peak := PeakIndex(rows);
    if rows == [] then [] else [HighestRisk(rows[peak].timestamp, rows[peak].score)]
  }

  function ServerBookmarks(rows: seq<Assessment>, permits: seq<Permit>): seq<Event> {
    ServerEvents(rows) + PeakEvents(rows) + PermitEvents(permits)
  }

  // ---------------------------------------------------------------- client

  /** The client trusts a justification only when it has its full shape. */
  predicate ClientBonus(a: Assessment) {
    var j := a.justification;
    j.tierBefore.Some? && j.tierAfter.Some? && j.multiplier.Some? && HasBonus(a)
  }

  /** The tier events of one row, from the tier of the row before it in the window. */
  function ClientTierEvents(previous: Option<Tier>, a: Assessment): seq<Event> {
    if previous.Some? && a.tier != previous.value then
      [TierChange(a.timestamp, previous.value, a.tier)] + if a.tier == Critical then [CriticalEntry(a.timestamp)] else []
    else []
  }

  /** Only the onset of a bonus is an event. */
  function ClientBonusEvents(previousBonus: bool, a: Assessment): seq<Event> {
    if ClientBonus(a) && !previousBonus then [InteractionBonus(a.timestamp, a.justification.multiplier)] else []
  }

  function PreviousTier(rows: seq<Assessment>): Option<Tier> { if rows == [] then None else Some(rows[|rows| - 1].tier) }

  function PreviousBonus(rows: seq<Assessment>): bool { rows != [] && ClientBonus(rows[|rows| - 1]) }

  function ClientEvents(rows: seq<Assessment>): seq<Event> {
    if rows == [] then []
    else
      var front, a := rows[..|rows| - 1], rows[|rows| - 1];
      ClientEvents(front) + (ClientTierEvents(PreviousTier(front), a) + ClientBonusEvents(PreviousBonus(front), a))
  }

  const Earlier: (Event, Event) -> bool := (a: Event, b: Event) => a.at <= b.at

  /** The client's single pass. */
  method ClientPass(rows: seq<Assessment>) returns (events: seq<Event>, highest: int)
    ensures events == ClientEvents(rows) && highest == PeakIndex(rows)
  {
    events := [];
    var previousTier: Option<Tier> := None;
    var previousBonus := false;
    highest := -1;
    for i := 0 to |rows|
      invariant events == ClientEvents(rows[..i])
      invariant previousTier == PreviousTier(rows[..i]) && previousBonus == PreviousBonus(rows[..i])
      invariant PeakSoFar(rows, i, highest)
    {
      ClientStep(rows, i);
      var a := rows[i];
      events := events + (ClientTierEvents(previousTier, a) + ClientBonusEvents(previousBonus, a));
      PeakStep(rows, i, highest);
      if highest == -1 || a.score > rows[highest].score { highest := i; }
      previousTier, previousBonus := Some(a.tier), ClientBonus(a);
    }
    assert rows[..|rows|] == rows;
    if rows != [] { FirstPeakUnique(rows, highest, PeakIndex(rows)); }
  }

  function ClientTimeline(rows: seq<Assessment>): seq<Event> { Sort(Earlier, ClientEvents(rows) + PeakEvents(rows)) }

  /** The pass, the peak event, then a stable sort by time. */
  method DeriveTimelineEvents(rows: seq<Assessment>) returns (events: seq<Event>)
    ensures events == ClientTimeline(rows)
  {
    var highest;
    events, highest := ClientPass(rows);
    if highest >= 0 {
      events := events + [HighestRisk(rows[highest].timestamp, rows[highest].score)];
    } else {
      assert events == events + PeakEvents(rows);
    }
    events := Sort(Earlier, events);
  }

  lemma ClientStep(rows: seq<Assessment>, i: nat)
    requires i < |rows|
    ensures ClientEvents(rows[..i + 1]) == ClientEvents(rows[..i])
              + (ClientTierEvents(PreviousTier(rows[..i]), rows[i]) + ClientBonusEvents(PreviousBonus(rows[..i]), rows[i]))
    ensures PreviousTier(rows[..i + 1]) == Some(rows[i].tier) && PreviousBonus(rows[..i + 1]) == ClientBonus(rows[i])
  {
    assert rows[..i + 1][..i] == rows[..i];
  }

  // ---------------------------------------------------------------- agreement

  function IsTierEvent(): Event -> bool { (e: Event) => e.TierChange? || e.CriticalEntry? }

  function IsPeak(): Event -> bool { (e: Event) => e.HighestRisk? }

  function IsBonus(): Event -> bool { (e: Event) => e.InteractionBonus? }

  lemma ServerTierStep(rows: seq<Assessment>)
    requires rows != []
    ensures Filter(IsTierEvent(), ServerEvents(rows))
         == Filter(IsTierEvent(), ServerEvents(rows[..|rows| - 1])) + ServerTierEvents(rows[|rows| - 1])
  {
    var a := rows[|rows| - 1];
    ServerRowKinds(a);
    TierPart(ServerEvents(rows[..|rows| - 1]), ServerTierEvents(a), ServerBonusEvents(a));
  }

  lemma ServerRowKinds(a: Assessment)
    ensures forall e :: e in ServerTierEvents(a) ==> e.TierChange? || e.CriticalEntry?
    ensures forall e :: e in ServerBonusEvents(a) ==> e.InteractionBonus?
  {
  }

  lemma ClientRowKinds(previous: Option<Tier>, bonus: bool, a: Assessment)
    ensures forall e :: e in ClientTierEvents(previous, a) ==> e.TierChange? || e.CriticalEntry?
    ensures forall e :: e in ClientBonusEvents(bonus, a) ==> e.InteractionBonus?
  {
  }

  lemma ClientTierStep(rows: seq<Assessment>)
    requires rows != []
    ensures Filter(IsTierEvent(), ClientEvents(rows))
         == Filter(IsTierEvent(), ClientEvents(rows[..|rows| - 1])) + ClientTierEvents(PreviousTier(rows[..|rows| - 1]), rows[|rows| - 1])
  {
    var front, a := rows[..|rows| - 1], rows[|rows| - 1];
    ClientRowKinds(PreviousTier(front), PreviousBonus(front), a);
    TierPart(ClientEvents(front), ClientTierEvents(PreviousTier(front), a), ClientBonusEvents(PreviousBonus(front), a));
  }

  lemma Reassociate<T>(a: seq<T>, b: seq<T>, c: seq<T>)
    ensures a + b + c == a + (b + c)
  {
  }

  /** Where the chain holds, both detectors read the same tier change off a row. */
  lemma SameRowEvents(previous: Tier, a: Assessment)
    requires WellFormed(a) && a.justification.tierBefore == Some(previous)
    ensures ServerTierEvents(a) == ClientTierEvents(Some(previous), a)
  {
  }

  /** What the server reports of a chained window, restricted to tiers: what its first row brought,
      then exactly what the client reports. */
  lemma {:induction false} TierEventsAgree(rows: seq<Assessment>)
    requires Chained(rows) && rows != []
    ensures Filter(IsTierEvent(), ServerEvents(rows)) == ServerTierEvents(rows[0]) + Filter(IsTierEvent(), ClientEvents(rows))
  {
    var n := |rows| - 1;
    var front, a := rows[..n], rows[n];
    ServerTierStep(rows);
    ClientTierStep(rows);
    if n > 0 {
      TierEventsAgree(front);
      SameRowEvents(rows[n - 1].tier, a);
      Reassociate(ServerTierEvents(rows[0]), Filter(IsTierEvent(), ClientEvents(front)), ServerTierEvents(a));
    } else {
      assert front == [];
    }
  }

  lemma TierPart(front: seq<Event>, tier: seq<Event>, bonus: seq<Event>)
    requires forall e :: e in tier ==> e.TierChange? || e.CriticalEntry?
    requires forall e :: e in bonus ==> e.InteractionBonus?
    ensures Filter(IsTierEvent(), front + (tier + bonus)) == Filter(IsTierEvent(), front) + tier
  {
    FilterAppend(IsTierEvent(), front, tier + bonus);
    FilterAppend(IsTierEvent(), tier, bonus);
    FilterNone(IsTierEvent(), bonus);
    FilterAll(IsTierEvent(), tier);
  }

  lemma {:induction false} FilterAll<T>(p: T -> bool, s: seq<T>)
    requires forall x :: x in s ==> p(x)
    ensures Filter(p, s) == s
  {
    if s != [] {
      assert s[0] in s;
      FilterAll(p, s[1..]);
    }
  }

  // ---------------------------------------------------------------- from the passes to the results

  ghost predicate NotAfter(events: seq<Event>, t: int) { forall e :: e in events ==> e.at <= t }

  ghost predicate AllAt(events: seq<Event>, t: int) { forall e :: e in events ==> e.at == t }

  /** No event of a history is later than its last row. */
  lemma {:induction false} EventsNotAfter(rows: seq<Assessment>, t: int)
    requires forall i :: 0 <= i < |rows| ==> rows[i].timestamp <= t
    ensures NotAfter(ServerEvents(rows), t) && NotAfter(ClientEvents(rows), t)
  {
    if rows != [] {
      var front, a := rows[..|rows| - 1], rows[|rows| - 1];
      EventsNotAfter(front, t);
      RowEventsAt(PreviousTier(front), PreviousBonus(front), a);
      NotAfterAppend(ServerEvents(front), ServerRowEvents(a), a.timestamp, t);
      NotAfterAppend(ClientEvents(front), ClientTierEvents(PreviousTier(front), a) + ClientBonusEvents(PreviousBonus(front), a), a.timestamp, t);
    }
  }

  lemma NotAfterAppend(before: seq<Event>, added: seq<Event>, at: int, t: int)
    requires NotAfter(before, t) && AllAt(added, at) && at <= t
    ensures NotAfter(before + added, t)
  {
  }

  lemma RowEventsAt(previous: Option<Tier>, bonus: bool, a: Assessment)
    ensures AllAt(ServerRowEvents(a), a.timestamp) && AllAt(ServerTierEvents(a), a.timestamp)
    ensures AllAt(ClientTierEvents(previous, a) + ClientBonusEvents(bonus, a), a.timestamp) && AllAt(ClientTierEvents(previous, a), a.timestamp)
  {
  }

  /** Both passes yield their events in time order. */
  lemma {:induction false} EventsSorted(rows: seq<Assessment>)
    requires InTimeOrder(rows)
    ensures Sorted(Earlier, ServerEvents(rows)) && Sorted(Earlier, ClientEvents(rows))
  {
    if rows != [] {
      var n := |rows| - 1;
      var front, a := rows[..n], rows[n];
      EventsSorted(front);
      EventsNotAfter(front, a.timestamp);
      RowEventsAt(PreviousTier(front), PreviousBonus(front), a);
      SortedAppend(ServerEvents(front), ServerRowEvents(a), a.timestamp);
      SortedAppend(ClientEvents(front), ClientTierEvents(PreviousTier(front), a) + ClientBonusEvents(PreviousBonus(front), a), a.timestamp);
    }
  }

  lemma SortedAppend(before: seq<Event>, added: seq<Event>, t: int)
    requires Sorted(Earlier, before) && NotAfter(before, t) && AllAt(added, t)
    ensures Sorted(Earlier, before + added)
  {
    var all := before + added;
    forall i, j | 0 <= i < j < |all| ensures Earlier(all[i], all[j]) {
      if j < |before| {
        assert Earlier(before[i], before[j]);
      } else {
        assert all[j] in added;
        assert all[i] in before || all[i] in added;
      }
    }
  }

  lemma EventOrder()
    ensures TotalPreorder(Earlier)
  {
  }

  /** The kinds of event that come from ticks. */
  function IsTick(): Event -> bool { (e: Event) => e.TierChange? || e.CriticalEntry? || e.InteractionBonus? }

  /** Tick events, then the peak, then permits: what a filter on tick events and the filter on the
      peak pick out. */
  lemma Parts(p: Event -> bool, ticks: seq<Event>, peaks: seq<Event>, others: seq<Event>)
    requires forall e :: p(e) ==> IsTick()(e)
    requires (forall e :: e in ticks ==> IsTick()(e)) && (forall e :: e in peaks ==> e.HighestRisk?)
    requires forall e :: e in others ==> e.PermitActivated?
    ensures Filter(p, ticks + peaks + others) == Filter(p, ticks)
    ensures Filter(IsPeak(), ticks + peaks + others) == peaks
  {
    TwoParts(p, ticks, peaks);
    FilterAppend(p, ticks + peaks, others);
    FilterNone(p, others);
    FilterAppend(IsPeak(), ticks + peaks, others);
    FilterNone(IsPeak(), others);
  }

  lemma TwoParts(p: Event -> bool, ticks: seq<Event>, peaks: seq<Event>)
    requires forall e :: p(e) ==> IsTick()(e)
    requires (forall e :: e in ticks ==> IsTick()(e)) && (forall e :: e in peaks ==> e.HighestRisk?)
    ensures Filter(p, ticks + peaks) == Filter(p, ticks)
    ensures Filter(IsPeak(), ticks + peaks) == peaks
  {
    FilterAppend(p, ticks, peaks);
    FilterNone(p, peaks);
    FilterAppend(IsPeak(), ticks, peaks);
    FilterNone(IsPeak(), ticks);
    FilterAll(IsPeak(), peaks);
  }

  /** What the server's bookmarks hold of tick events and of peaks, unsorted or sorted by time. */
  lemma ServerParts(p: Event -> bool, rows: seq<Assessment>, permits: seq<Permit>)
    requires InTimeOrder(rows) && forall e :: p(e) ==> IsTick()(e)
    ensures Filter(p, ServerBookmarks(rows, permits)) == Filter(p, Sort(Earlier, ServerBookmarks(rows, permits))) == Filter(p, ServerEvents(rows))
    ensures Filter(IsPeak(), ServerBookmarks(rows, permits)) == Filter(IsPeak(), Sort(Earlier, ServerBookmarks(rows, permits))) == PeakEvents(rows)
  {
    ServerKinds(rows);
    Parts(p, ServerEvents(rows), PeakEvents(rows), PermitEvents(permits));
    EventOrder();
    SortFilter(Earlier, p, ServerBookmarks(rows, permits));
    SortFilter(Earlier, IsPeak(), ServerBookmarks(rows, permits));
    EventsSorted(rows);
    FilterOfSorted(p, ServerEvents(rows));
    SortOfSorted(Earlier, PeakEvents(rows));
  }

  /** The same of the client's timeline. */
  lemma ClientParts(p: Event -> bool, rows: seq<Assessment>)
    requires InTimeOrder(rows) && forall e :: p(e) ==> IsTick()(e)
    ensures Filter(p, ClientTimeline(rows)) == Filter(p, ClientEvents(rows))
    ensures Filter(IsPeak(), ClientTimeline(rows)) == PeakEvents(rows)
  {
    ClientKinds(rows);
    TwoParts(p, ClientEvents(rows), PeakEvents(rows));
    EventOrder();
    SortFilter(Earlier, p, ClientEvents(rows) + PeakEvents(rows));
    SortFilter(Earlier, IsPeak(), ClientEvents(rows) + PeakEvents(rows));
    EventsSorted(rows);
    FilterOfSorted(p, ClientEvents(rows));
    SortOfSorted(Earlier, PeakEvents(rows));
  }

  lemma FilterOfSorted(p: Event -> bool, events: seq<Event>)
    requires Sorted(Earlier, events)
    ensures Sort(Earlier, Filter(p, events)) == Filter(p, events)
  {
    EventOrder();
    SortFilter(Earlier, p, events);
    SortOfSorted(Earlier, events);
  }

  /** Over any window of a history in time order both results name the same highest-risk tick, and
      the server's tier changes and critical entries are those of its first row followed by the
      client's whenever the window is chained. */
  lemma DetectorsAgree(rows: seq<Assessment>, permits: seq<Permit>)
    requires rows != [] && Chained(rows) && InTimeOrder(rows)
    ensures Filter(IsTierEvent(), ServerBookmarks(rows, permits)) == ServerTierEvents(rows[0]) + Filter(IsTierEvent(), ClientTimeline(rows))
    ensures Filter(IsPeak(), ServerBookmarks(rows, permits)) == Filter(IsPeak(), ClientTimeline(rows)) == PeakEvents(rows)
  {
    ServerParts(IsTierEvent(), rows, permits);
    ClientParts(IsTierEvent(), rows);
    TierEventsAgree(rows);
  }

  // ---------------------------------------------------------------- only where the chain holds

  /** The server's tier events are its first row's followed by the client's. */
  ghost predicate TiersAgree(rows: seq<Assessment>)
    requires rows != []
  {
    Filter(IsTierEvent(), ServerEvents(rows)) == ServerTierEvents(rows[0]) + Filter(IsTierEvent(), ClientEvents(rows))
  }

  /** Events at one time after earlier ones: the two parts can be told apart. */
  lemma SplitByTime(x: seq<Event>, a: seq<Event>, y: seq<Event>, b: seq<Event>, t: int)
    requires x + a == y + b && NotAfter(x, t - 1) && NotAfter(y, t - 1) && AllAt(a, t) && AllAt(b, t)
    ensures x == y && a == b
  {
    ShorterPart(x, a, y, b, t);
    ShorterPart(y, b, x, a, t);
    assert x == (x + a)[..|x|] && y == (y + b)[..|y|];
    assert a == (x + a)[|x|..] && b == (y + b)[|y|..];
  }

  lemma ShorterPart(x: seq<Event>, a: seq<Event>, y: seq<Event>, b: seq<Event>, t: int)
    requires x + a == y + b && NotAfter(y, t - 1) && AllAt(a, t)
    ensures |y| <= |x|
  {
    if y != [] {
      var k := |y| - 1;
      forall i | |x| <= i < |x + a| ensures (x + a)[i].at == t {
        assert (x + a)[i] == a[i - |x|];
      }
      assert (x + a)[k] == (y + b)[k] == y[k] && y[k] in y;
    }
  }

  /** Where the chain breaks, the two detectors read different changes off the row. */
  lemma DifferentRowEvents(previous: Tier, a: Assessment)
    requires WellFormed(a) && ServerTierEvents(a) == ClientTierEvents(Some(previous), a)
    ensures a.justification.tierBefore == Some(previous)
  {
    var before := a.justification.tierBefore.value;
    if before != a.tier { assert ServerTierEvents(a)[0] == TierChange(a.timestamp, before, a.tier); }
    if previous != a.tier { assert ClientTierEvents(Some(previous), a)[0] == TierChange(a.timestamp, previous, a.tier); }
  }

  lemma FilteredNotAfter(p: Event -> bool, events: seq<Event>, t: int)
    requires NotAfter(events, t)
    ensures NotAfter(Filter(p, events), t)
  {
    FilterMembers(p, events);
  }

  /** The tier events of the first row and of both passes over the rows before the last one all come
      before the last row's. */
  lemma EarlierTierEvents(rows: seq<Assessment>, t: int)
    requires rows != [] && forall i :: 0 <= i < |rows| ==> rows[i].timestamp < t
    ensures NotAfter(Filter(IsTierEvent(), ServerEvents(rows)), t - 1)
    ensures NotAfter(ServerTierEvents(rows[0]) + Filter(IsTierEvent(), ClientEvents(rows)), t - 1)
  {
    EventsNotAfter(rows, t - 1);
    FilteredNotAfter(IsTierEvent(), ServerEvents(rows), t - 1);
    FilteredNotAfter(IsTierEvent(), ClientEvents(rows), t - 1);
    RowEventsAt(None, false, rows[0]);
  }

  /** The two detectors read the same change off row `i`. */
  ghost predicate RowAgrees(rows: seq<Assessment>, i: int) {
    0 < i < |rows| && ServerTierEvents(rows[i]) == ClientTierEvents(Some(rows[i - 1].tier), rows[i])
  }

  lemma {:induction false} AllRowsAgree(rows: seq<Assessment>, i: nat)
    requires 0 < i < |rows| && StrictlyAscending(rows) && TiersAgree(rows)
    ensures RowAgrees(rows, i)
    decreases |rows|
  {
    LastRowAgrees(rows);
    if i < |rows| - 1 {
      AllRowsAgree(rows[..|rows| - 1], i);
    }
  }

  lemma AgreementMeansChained(rows: seq<Assessment>)
    requires rows != [] && (forall i :: 0 <= i < |rows| ==> WellFormed(rows[i])) && forall i :: 0 < i < |rows| ==> RowAgrees(rows, i)
    ensures Chained(rows)
  {
    forall i | 0 < i < |rows| ensures rows[i].justification.tierBefore == Some(rows[i - 1].tier) {
      assert RowAgrees(rows, i) && WellFormed(rows[i]);
      DifferentRowEvents(rows[i - 1].tier, rows[i]);
    }
  }

  lemma LastRowAgrees(rows: seq<Assessment>)
    requires |rows| > 1 && StrictlyAscending(rows) && TiersAgree(rows)
    ensures TiersAgree(rows[..|rows| - 1])
    ensures ServerTierEvents(rows[|rows| - 1]) == ClientTierEvents(Some(rows[|rows| - 2].tier), rows[|rows| - 1])
  {
    var n := |rows| - 1;
    var front, a, first := rows[..n], rows[n], ServerTierEvents(rows[0]);
    var server, client := Filter(IsTierEvent(), ServerEvents(front)), Filter(IsTierEvent(), ClientEvents(front));
    var clientLast := ClientTierEvents(Some(rows[n - 1].tier), a);
    ServerTierStep(rows);
    ClientTierStep(rows);
    Reassociate(first, client, clientLast);
    EarlierTierEvents(front, a.timestamp);
    RowEventsAt(Some(rows[n - 1].tier), false, a);
    SplitByTime(server, ServerTierEvents(a), first + client, clientLast, a.timestamp);
  }

  /** Over rows with distinct times the detectors agree on tiers exactly when the rows are chained. */
  lemma TiersAgreeExactlyWhen(rows: seq<Assessment>)
    requires rows != [] && StrictlyAscending(rows) && forall i :: 0 <= i < |rows| ==> WellFormed(rows[i])
    ensures TiersAgree(rows) <==> Chained(rows)
  {
    if Chained(rows) { TierEventsAgree(rows); }
    if TiersAgree(rows) {
      forall i | 0 < i < |rows| ensures RowAgrees(rows, i) {
        AllRowsAgree(rows, i);
      }
      AgreementMeansChained(rows);
    }
  }

  lemma {:induction false} ServerKinds(rows: seq<Assessment>)
    ensures forall e :: e in ServerEvents(rows) ==> IsTick()(e)
  {
    if rows != [] { ServerKinds(rows[..|rows| - 1]); }
  }

  lemma {:induction false} ClientKinds(rows: seq<Assessment>)
    ensures forall e :: e in ClientEvents(rows) ==> IsTick()(e)
  {
    if rows != [] { ClientKinds(rows[..|rows| - 1]); }
  }

  // ---------------------------------------------------------------- bonuses

  /** The bonus of this row is an event to the server but not to the client. */
  predicate BonusUnreported(previousBonus: bool, a: Assessment) { HasBonus(a) && !(ClientBonus(a) && !previousBonus) }

  /** How many bonus ticks the client does not report. */
  function UnreportedBonuses(rows: seq<Assessment>): nat {
    if rows == [] then 0
    else
      var front, a := rows[..|rows| - 1], rows[|rows| - 1];
      UnreportedBonuses(front) + if BonusUnreported(PreviousBonus(front), a) then 1 else 0
  }

  lemma BonusStep(rows: seq<Assessment>)
    requires rows != []
    ensures Filter(IsBonus(), ServerEvents(rows)) == Filter(IsBonus(), ServerEvents(rows[..|rows| - 1])) + ServerBonusEvents(rows[|rows| - 1])
    ensures Filter(IsBonus(), ClientEvents(rows))
         == Filter(IsBonus(), ClientEvents(rows[..|rows| - 1])) + ClientBonusEvents(PreviousBonus(rows[..|rows| - 1]), rows[|rows| - 1])
  {
    var front, a := rows[..|rows| - 1], rows[|rows| - 1];
    ServerRowKinds(a);
    ClientRowKinds(PreviousTier(front), PreviousBonus(front), a);
    BonusPart(ServerEvents(front), ServerTierEvents(a), ServerBonusEvents(a));
    BonusPart(ClientEvents(front), ClientTierEvents(PreviousTier(front), a), ClientBonusEvents(PreviousBonus(front), a));
  }

  /** The server flags every tick with a bonus, the client only onsets: the difference is exactly the
      number of bonus ticks the client does not report. */
  lemma {:induction false} BonusAccounting(rows: seq<Assessment>)
    ensures |Filter(IsBonus(), ServerEvents(rows))| == |Filter(IsBonus(), ClientEvents(rows))| + UnreportedBonuses(rows)
  {
    if rows != [] {
      BonusAccounting(rows[..|rows| - 1]);
      BonusStep(rows);
    }
  }

  lemma {:induction false} AllReportedAgree(rows: seq<Assessment>)
    requires UnreportedBonuses(rows) == 0
    ensures Filter(IsBonus(), ServerEvents(rows)) == Filter(IsBonus(), ClientEvents(rows))
  {
    if rows != [] {
      AllReportedAgree(rows[..|rows| - 1]);
      BonusStep(rows);
    }
  }

  /** The complete results hold the same bonus events exactly when no bonus tick goes unreported. */
  lemma BonusesAgreeExactlyWhen(rows: seq<Assessment>, permits: seq<Permit>)
    requires InTimeOrder(rows)
    ensures Filter(IsBonus(), ServerBookmarks(rows, permits)) == Filter(IsBonus(), ClientTimeline(rows)) <==> UnreportedBonuses(rows) == 0
  {
    ServerParts(IsBonus(), rows, permits);
    ClientParts(IsBonus(), rows);
    BonusAccounting(rows);
    if UnreportedBonuses(rows) == 0 { AllReportedAgree(rows); }
  }

  /** A bonus right after a bonus. */
  ghost predicate RepeatsBonus(rows: seq<Assessment>, i: int) { 0 < i < |rows| && HasBonus(rows[i - 1]) && HasBonus(rows[i]) }

  /** Of rows as the engine writes them, those are the bonuses that repeat from tick to tick. */
  lemma {:induction false} UnreportedAreRepeats(rows: seq<Assessment>)
    requires forall i :: 0 <= i < |rows| ==> WellFormed(rows[i])
    ensures UnreportedBonuses(rows) == 0 <==> forall i :: !RepeatsBonus(rows, i)
  {
    if rows != [] {
      var n := |rows| - 1;
      var front := rows[..n];
      UnreportedAreRepeats(front);
      assert WellFormed(rows[n]) && (n > 0 ==> WellFormed(rows[n - 1]));
      assert forall i :: i < n ==> (RepeatsBonus(front, i) <==> RepeatsBonus(rows, i));
      assert BonusUnreported(PreviousBonus(front), rows[n]) <==> RepeatsBonus(rows, n);
    }
  }

  /** A row of a calm zone whose bonus fired. */
  function BonusRow(t: int): Assessment {
    Assessment(t, 10.0, Normal, Justification(Some(Normal), Some(Normal), Some([InteractionBonusApplied]), Some(1.5)))
  }

  /** Two bonus ticks in a row: two bookmarks, one event. */
  lemma RepeatedBonusIsNotReported()
    ensures Filter(IsBonus(), ServerBookmarks([BonusRow(0), BonusRow(1)], [])) != Filter(IsBonus(), ClientTimeline([BonusRow(0), BonusRow(1)]))
  {
    var rows := [BonusRow(0), BonusRow(1)];
    UnreportedAreRepeats(rows);
    assert RepeatsBonus(rows, 1);
    BonusesAgreeExactlyWhen(rows, []);
  }

  lemma BonusPart(front: seq<Event>, tier: seq<Event>, bonus: seq<Event>)
    requires forall e :: e in tier ==> e.TierChange? || e.CriticalEntry?
    requires forall e :: e in bonus ==> e.InteractionBonus?
    ensures Filter(IsBonus(), front + (tier + bonus)) == Filter(IsBonus(), front) + bonus
  {
    FilterAppend(IsBonus(), front, tier + bonus);
    FilterAppend(IsBonus(), tier, bonus);
    FilterNone(IsBonus(), tier);
    FilterAll(IsBonus(), bonus);
  }

  // ---------------------------------------------------------------- from execution to detection

  /** The two detectors agree on every contiguous window of what any execution persists, provided
      only the first tick time repeats. */
  lemma ExecutionWindowsAgree<C>(engine: Engine<C>, cfg: Tiering.Config, cache: C, times: seq<int>, lo: nat, hi: nat)
    requires AscendingTimes(times) && RepeatsOnlyFirst(times)
    requires lo < hi <= |Kept(RowsOf(engine, cfg, cache, times))|
    ensures var window := Kept(RowsOf(engine, cfg, cache, times))[lo..hi];
            && Chained(window) && InTimeOrder(window)
            && Filter(IsTierEvent(), ServerEvents(window)) == ServerTierEvents(window[0]) + Filter(IsTierEvent(), ClientEvents(window))
  {
    var rows := RowsOf(engine, cfg, cache, times);
    PersistedChain(engine, cfg, cache, times);
    RowTimes(engine, cfg, cache, times);
    KeptReadsTable(rows);
    WindowIsChained(Kept(rows), lo, hi);
    TierEventsAgree(Kept(rows)[lo..hi]);
  }

  lemma {:induction false} KeptWellFormed(rows: seq<Assessment>)
    requires forall i :: 0 <= i < |rows| ==> WellFormed(rows[i])
    ensures forall i :: 0 <= i < |Kept(rows)| ==> WellFormed(Kept(rows)[i])
  {
    if rows != [] { KeptWellFormed(rows[..|rows| - 1]); }
  }

  /** Whatever an execution leaves in the table, the detectors agree on its tiers exactly when it is
      chained. */
  lemma TableAgreesExactlyWhen<C>(engine: Engine<C>, cfg: Tiering.Config, cache: C, times: seq<int>)
    requires AscendingTimes(times) && Kept(RowsOf(engine, cfg, cache, times)) != []
    ensures TiersAgree(Kept(RowsOf(engine, cfg, cache, times))) <==> Chained(Kept(RowsOf(engine, cfg, cache, times)))
  {
    RowTimes(engine, cfg, cache, times);
    KeptAscends(RowsOf(engine, cfg, cache, times));
    KeptWellFormed(RowsOf(engine, cfg, cache, times));
    TiersAgreeExactlyWhen(Kept(RowsOf(engine, cfg, cache, times)));
  }

  ghost predicate AgreeOn(rows: seq<Assessment>) { rows == [] || TiersAgree(rows) }

  /** So for every engine they agree on what an execution leaves exactly when only the first tick time
      repeats. */
  lemma AlwaysAgreeExactlyWhen(times: seq<int>)
    requires AscendingTimes(times)
    ensures RepeatsOnlyFirst(times) <==> forall engine: Engine<()> :: AgreeOn(Kept(RowsOf(engine, Tiering.DEFAULT_CONFIG, (), times)))
  {
    ChainExactlyWhen(times);
    forall engine: Engine<()>
      ensures AgreeOn(Kept(RowsOf(engine, Tiering.DEFAULT_CONFIG, (), times))) <==> Chained(Kept(RowsOf(engine, Tiering.DEFAULT_CONFIG, (), times)))
    {
      if Kept(RowsOf(engine, Tiering.DEFAULT_CONFIG, (), times)) != [] { TableAgreesExactlyWhen(engine, Tiering.DEFAULT_CONFIG, (), times); }
    }
  }

  /** The instance of a repeated boundary time: the two detectors report different tier changes. */
  lemma BoundaryTickMisreported()
    ensures !AgreeOn(Kept(RowsOf(JumpAt(0), Tiering.DEFAULT_CONFIG, (), [0, 5, 5, 10])))
  {
    var times := [0, 5, 5, 10];
    BoundaryTickHidesChange();
    if Kept(RowsOf(JumpAt(0), Tiering.DEFAULT_CONFIG, (), times)) != [] { TableAgreesExactlyWhen(JumpAt(0), Tiering.DEFAULT_CONFIG, (), times); }
  }

  // ---------------------------------------------------------------- both detectors in the rows' own fields

  ghost predicate Fired(a: Assessment) { a.justification.rulesFired.Some? && InteractionBonusApplied in a.justification.rulesFired.value }

  /** What the server reports of one row, from that row alone. */
  ghost predicate ServerReports(a: Assessment, e: Event) {
    var j := a.justification;
    e.at == a.timestamp && match e
      case TierChange(_, before, after) => j.tierBefore == Some(before) && j.tierAfter == Some(after) && before != after
      case CriticalEntry(_) => j.tierBefore.Some? && j.tierBefore != Some(Critical) && j.tierAfter == Some(Critical)
      case InteractionBonus(_, multiplier) => Fired(a) && multiplier == j.multiplier
      case HighestRisk(_, _) => false
      case PermitActivated(_, _) => false
  }

  /** The justification has the shape that the client asks for, and names the bonus. */
  ghost predicate ShowsBonus(a: Assessment) {
    a.justification.tierBefore.Some? && a.justification.tierAfter.Some? && a.justification.multiplier.Some? && Fired(a)
  }

  /** What the client reports of row `i`, from that row and the one before it. */
  ghost predicate ClientReports(rows: seq<Assessment>, i: nat, e: Event)
    requires i < |rows|
  {
    e.at == rows[i].timestamp && match e
      case TierChange(_, before, after) => i > 0 && rows[i - 1].tier == before && rows[i].tier == after && before != after
      case CriticalEntry(_) => i > 0 && rows[i - 1].tier != Critical && rows[i].tier == Critical
      case InteractionBonus(_, multiplier) => ShowsBonus(rows[i]) && !(i > 0 && ShowsBonus(rows[i - 1])) && multiplier == rows[i].justification.multiplier
      case HighestRisk(_, _) => false
      case PermitActivated(_, _) => false
  }

  /** A row's events, each once: the tier change first, the interaction bonus last. */
  ghost predicate RowOrdered(events: seq<Event>) {
    && NoDuplicates(events)
    && (forall i :: 0 <= i < |events| && events[i].TierChange? ==> i == 0)
    && (forall i :: 0 <= i < |events| && events[i].InteractionBonus? ==> i == |events| - 1)
  }

  lemma ServerRowMeaning(a: Assessment)
    ensures forall e :: e in ServerRowEvents(a) <==> ServerReports(a, e)
    ensures RowOrdered(ServerRowEvents(a))
  {
  }

  /** The client's events of row `i`. */
  function ClientRowEvents(rows: seq<Assessment>, i: nat): seq<Event>
    requires i < |rows|
  {
    ClientTierEvents(PreviousTier(rows[..i]), rows[i]) + ClientBonusEvents(PreviousBonus(rows[..i]), rows[i])
  }

  lemma ClientRowMeaning(rows: seq<Assessment>, i: nat)
    requires i < |rows|
    ensures forall e :: e in ClientRowEvents(rows, i) <==> ClientReports(rows, i, e)
    ensures RowOrdered(ClientRowEvents(rows, i))
  {
    assert ClientBonus(rows[i]) <==> ShowsBonus(rows[i]);
    if i > 0 {
      assert rows[..i][i - 1] == rows[i - 1];
      assert ClientBonus(rows[i - 1]) <==> ShowsBonus(rows[i - 1]);
    }
  }

  /** `lists` are the events that the server reports row by row. */
  ghost predicate ServerLists(rows: seq<Assessment>, lists: seq<seq<Event>>) {
    && |lists| == |rows|
    && forall i :: 0 <= i < |rows| ==> RowOrdered(lists[i]) && forall e :: e in lists[i] <==> ServerReports(rows[i], e)
  }

  /** `lists` are the events that the client reports row by row. */
  ghost predicate ClientLists(rows: seq<Assessment>, lists: seq<seq<Event>>) {
    && |lists| == |rows|
    && forall i :: 0 <= i < |rows| ==> RowOrdered(lists[i]) && forall e :: e in lists[i] <==> ClientReports(rows, i, e)
  }

  /** The peak event: the first row with the greatest score, if there is a row. */
  ghost predicate PeakReport(rows: seq<Assessment>, peak: seq<Event>) {
    if rows == [] then peak == []
    else exists p: nat :: FirstHighest(rows, p) && peak == [HighestRisk(rows[p].timestamp, rows[p].score)]
  }

  ghost predicate FirstHighest(rows: seq<Assessment>, p: nat) {
    && p < |rows|
    && forall i :: 0 <= i < |rows| ==> if i < p then rows[i].score < rows[p].score else rows[i].score <= rows[p].score
  }

  lemma PeakMeaning(rows: seq<Assessment>)
    ensures PeakReport(rows, PeakEvents(rows))
  {
    if rows != [] { assert FirstHighest(rows, PeakIndex(rows)); }
  }

  lemma {:induction false} ServerConcat(rows: seq<Assessment>, lists: seq<seq<Event>>)
    requires |lists| == |rows| && forall i :: 0 <= i < |rows| ==> lists[i] == ServerRowEvents(rows[i])
    ensures ServerEvents(rows) == Concat(lists)
  {
    if rows != [] { ServerConcat(rows[..|rows| - 1], lists[..|rows| - 1]); }
  }

  lemma {:induction false} ClientConcat(rows: seq<Assessment>, lists: seq<seq<Event>>, n: nat)
    requires n <= |lists| == |rows| && forall i :: 0 <= i < |rows| ==> lists[i] == ClientRowEvents(rows, i)
    ensures ClientEvents(rows[..n]) == Concat(lists[..n])
  {
    if n > 0 {
      ClientConcat(rows, lists, n - 1);
      ClientStep(rows, n - 1);
      assert lists[..n][..n - 1] == lists[..n - 1];
    }
  }

  /** The server's listing: each row's events in turn, then the peak, then the permits. */
  lemma ServerInFields(rows: seq<Assessment>, permits: seq<Permit>) returns (lists: seq<seq<Event>>, peak: seq<Event>, issued: seq<Event>)
    ensures ServerLists(rows, lists) && PeakReport(rows, peak)
    ensures |issued| == |permits| && forall i :: 0 <= i < |permits| ==> issued[i] == PermitActivated(permits[i].issuedAt, permits[i].permitType)
    ensures ServerBookmarks(rows, permits) == Concat(lists) + peak + issued
  {
    lists := seq(|rows|, i requires 0 <= i < |rows| => ServerRowEvents(rows[i]));
    peak, issued := PeakEvents(rows), PermitEvents(permits);
    forall i | 0 <= i < |rows| ensures RowOrdered(lists[i]) && forall e :: e in lists[i] <==> ServerReports(rows[i], e) {
      ServerRowMeaning(rows[i]);
    }
    ServerConcat(rows, lists);
    PeakMeaning(rows);
  }

  /** `sorted` holds the listing in ascending time, and of each time in the listed order. */
  ghost predicate InTime(listing: seq<Event>, sorted: seq<Event>) {
    && multiset(sorted) == multiset(listing)
    && (forall i, j :: 0 <= i < j < |sorted| ==> sorted[i].at <= sorted[j].at)
    && forall t :: Filter(AtTime(t), sorted) == Filter(AtTime(t), listing)
  }

  function AtTime(t: int): Event -> bool { (e: Event) => e.at == t }

  lemma SortsInTime(listing: seq<Event>)
    ensures InTime(listing, Sort(Earlier, listing))
  {
    var sorted := Sort(Earlier, listing);
    SortPermutes(Earlier, listing);
    SortSorts(Earlier, listing);
    forall i, j | 0 <= i < j < |sorted| ensures sorted[i].at <= sorted[j].at {
      assert Earlier(sorted[i], sorted[j]);
    }
    forall t ensures Filter(AtTime(t), sorted) == Filter(AtTime(t), listing) {
      var same := Filter(AtTime(t), listing);
      SortFilter(Earlier, AtTime(t), listing);
      FilterMembers(AtTime(t), listing);
      forall i, j | 0 <= i < j < |same| ensures Earlier(same[i], same[j]) {
        assert same[i] in same && same[j] in same;
      }
      SortOfSorted(Earlier, same);
    }
  }

  /** The client's timeline: each row's events in turn and the peak, in ascending time. */
  lemma ClientInFields(rows: seq<Assessment>) returns (lists: seq<seq<Event>>, peak: seq<Event>)
    ensures ClientLists(rows, lists) && PeakReport(rows, peak)
    ensures InTime(Concat(lists) + peak, ClientTimeline(rows))
  {
    lists := seq(|rows|, i requires 0 <= i < |rows| => ClientRowEvents(rows, i));
    peak := PeakEvents(rows);
    forall i | 0 <= i < |rows| ensures RowOrdered(lists[i]) && forall e :: e in lists[i] <==> ClientReports(rows, i, e) {
      ClientRowMeaning(rows, i);
    }
    ClientConcat(rows, lists, |rows|);
    assert rows[..|rows|] == rows && lists[..|rows|] == lists;
    PeakMeaning(rows);
    SortsInTime(ClientEvents(rows) + peak);
  }
}
