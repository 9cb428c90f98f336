/** `build_replay` and the Time Machine: the merged timestamp axis, the cursor that moves over it, and the lookup of a
    zone's assessment at the cursor. */
module TimeMachine {
  import opened Common
  import opened StableSort
  import opened ScenarioTicks
  import opened Replay
  import opened Timeline

  // ---------------------------------------------------------------- nearest timestamp

  function Gap(a: int, b: int): nat { if a < b then b - a else a - b }

  /** `i` is the first of the first `n` axis positions closest to `target`. */
  ghost predicate FirstNearest(axis: seq<int>, n: nat, target: int, i: nat) {
    && i < n <= |axis|
    && (forall j :: 0 <= j < n ==> Gap(axis[i], target) <= Gap(axis[j], target))
    && (forall j :: 0 <= j < i ==> Gap(axis[i], target) < Gap(axis[j], target))
  }

  /** The position `findNearestTimestampIndex` answers; 0 on an empty axis. */
  function NearestIndex(axis: seq<int>, target: int): (i: nat)
    ensures axis == [] ==> i == 0
    ensures axis != [] ==> FirstNearest(axis, |axis|, target, i)
  {
    if |axis| <= 1 then 0
    else
      var n := |axis| - 1;
      var i := NearestIndex(axis[..n], target);
      if Gap(axis[n], target) < Gap(axis[i], target) then n else i
  }

  method FindNearestTimestampIndex(axis: seq<int>, target: int) returns (best: nat)
    ensures best == NearestIndex(axis, target)
  {
    best := 0;
    for i := 0 to |axis|
      invariant i > 0 ==> best == NearestIndex(axis[..i], target)
      invariant i == 0 ==> best == 0
    {
      assert axis[..i + 1][..i] == axis[..i];
      if i > 0 && Gap(axis[i], target) < Gap(axis[best], target) { best := i; }
    }
    assert axis[..|axis|] == axis;
  }

  /** `x` is at most `d` away from `target`. */
  ghost predicate Close(x: int, target: int, d: int) { target - d <= x <= target + d }

  /** No entry of the axis is closer to `target` than entry `i`, and none before it is as close. */
  ghost predicate Nearest(axis: seq<int>, target: int, i: int) {
    && 0 <= i < |axis|
    && forall j, d :: 0 <= j < |axis| && Close(axis[j], target, d) ==> Close(axis[i], target, if j < i then d - 1 else d)
  }

  lemma NearestMeaning(axis: seq<int>, target: int)
    requires axis != []
    ensures Nearest(axis, target, NearestIndex(axis, target))
  {
    var i := NearestIndex(axis, target);
    forall j, d | 0 <= j < |axis| && Close(axis[j], target, d) ensures Close(axis[i], target, if j < i then d - 1 else d) {
      assert Gap(axis[i], target) <= Gap(axis[j], target);
      assert j < i ==> Gap(axis[i], target) < Gap(axis[j], target);
    }
  }

  lemma NearestHitsExactly(axis: seq<int>, t: int)
    requires t in axis
    ensures NearestIndex(axis, t) < |axis| && axis[NearestIndex(axis, t)] == t
  {
    var j :| 0 <= j < |axis| && axis[j] == t;
    assert Gap(axis[NearestIndex(axis, t)], t) <= Gap(axis[j], t);
  }

  // ---------------------------------------------------------------- the axis

  const IntAtMost: (int, int) -> bool := (a: int, b: int) => a <= b

  ghost predicate Increasing(axis: seq<int>) { forall i, j :: 0 <= i < j < |axis| ==> axis[i] < axis[j] }

  function TimesOf(rows: seq<Assessment>): set<int> { set a | a in rows :: a.timestamp }

  /** All the timestamps of all the zones. */
  function AllTimes(timelines: seq<seq<Assessment>>): set<int> {
    if timelines == [] then {} else AllTimes(timelines[..|timelines| - 1]) + TimesOf(timelines[|timelines| - 1])
  }

  /** `t` is the timestamp of some row of some zone. */
  ghost predicate Timed(timelines: seq<seq<Assessment>>, t: int) {
    exists z, i :: 0 <= z < |timelines| && 0 <= i < |timelines[z]| && timelines[z][i].timestamp == t
  }

  lemma {:induction false} AllTimesMeaning(timelines: seq<seq<Assessment>>, t: int)
    ensures t in AllTimes(timelines) <==> Timed(timelines, t)
  {
    if timelines != [] {
      var n := |timelines| - 1;
      var front := timelines[..n];
      AllTimesMeaning(front, t);
      if Timed(timelines, t) {
        var z, i :| 0 <= z < |timelines| && 0 <= i < |timelines[z]| && timelines[z][i].timestamp == t;
        if z < n { assert front[z][i].timestamp == t; } else { assert timelines[n][i] in timelines[n]; }
      }
      if Timed(front, t) {
        var z, i :| 0 <= z < |front| && 0 <= i < |front[z]| && front[z][i].timestamp == t;
        assert timelines[z][i].timestamp == t;
      }
      if a :| a in timelines[n] && a.timestamp == t {
        var i :| 0 <= i < |timelines[n]| && timelines[n][i] == a;
        assert timelines[n][i].timestamp == t;
      }
    }
  }

  method AddTimes(seen: seq<int>, rows: seq<Assessment>) returns (seen': seq<int>)
    requires NoDuplicates(seen)
    ensures NoDuplicates(seen') && ToSet(seen') == ToSet(seen) + TimesOf(rows)
  {
    seen' := seen;
    for i := 0 to |rows|
      invariant NoDuplicates(seen') && ToSet(seen') == ToSet(seen) + TimesOf(rows[..i])
    {
      assert rows[..i + 1] == rows[..i] + [rows[i]];
      assert TimesOf(rows[..i + 1]) == TimesOf(rows[..i]) + {rows[i].timestamp};
      assert ToSet(Add(seen', rows[i].timestamp)) == ToSet(seen') + {rows[i].timestamp};
      seen' := Add(seen', rows[i].timestamp);
    }
    assert rows[..|rows|] == rows;
  }

  /** `mergeTimestamps`: the axis is strictly increasing and holds every zone's every timestamp
      once, so its length is the number of distinct ticks. */
  method MergeTimestamps(timelines: seq<seq<Assessment>>) returns (axis: seq<int>)
    ensures Increasing(axis) && ToSet(axis) == AllTimes(timelines) && |axis| == |AllTimes(timelines)|
  {
    var seen: seq<int> := [];
    for i := 0 to |timelines|
      invariant NoDuplicates(seen) && ToSet(seen) == AllTimes(timelines[..i])
    {
      assert timelines[..i + 1][..i] == timelines[..i];
      seen := AddTimes(seen, timelines[i]);
    }
    assert timelines[..|timelines|] == timelines;
    axis := Sort(IntAtMost, seen);
    AxisFacts(seen);
  }

  lemma AxisFacts(seen: seq<int>)
    requires NoDuplicates(seen)
    ensures var axis := Sort(IntAtMost, seen); Increasing(axis) && ToSet(axis) == ToSet(seen) && |axis| == |ToSet(seen)|
  {
    var axis := Sort(IntAtMost, seen);
    SortSorts(IntAtMost, seen);
    SortPermutes(IntAtMost, seen);
    SortKeepsDistinct(IntAtMost, seen);
    CardinalityOfDistinct(seen);
    forall i, j | 0 <= i < j < |axis| ensures axis[i] < axis[j] {
      assert IntAtMost(axis[i], axis[j]);
    }
  }

  /** The server's count over the fetched timelines. */
  method CountTicks(timelines: seq<seq<Assessment>>) returns (tickCount: nat)
    ensures tickCount == |AllTimes(timelines)|
  {
    var all: set<int> := {};
    for i := 0 to |timelines|
      invariant all == AllTimes(timelines[..i])
    {
      assert timelines[..i + 1][..i] == timelines[..i];
      all := all + TimesOf(timelines[i]);
    }
    assert timelines[..|timelines|] == timelines;
    tickCount := |all|;
  }

  lemma {:induction false} ZoneTimesOnAxis(timelines: seq<seq<Assessment>>, z: nat, a: Assessment)
    requires z < |timelines| && a in timelines[z]
    ensures a.timestamp in AllTimes(timelines)
  {
    var n := |timelines| - 1;
    if z < n { ZoneTimesOnAxis(timelines[..n], z, a); }
  }

  // ---------------------------------------------------------------- lookup at a time

  /** The first of the latest rows at or before `t`. */
  function AtOrBefore(rows: seq<Assessment>, t: int): Option<Assessment> {
    if rows == [] then None
    else
      var best, last := AtOrBefore(rows[..|rows| - 1], t), rows[|rows| - 1];
      if last.timestamp <= t && (best.None? || last.timestamp > best.value.timestamp) then Some(last) else best
  }

  method AssessmentAtOrBefore(rows: seq<Assessment>, t: int) returns (best: Option<Assessment>)
    ensures best == AtOrBefore(rows, t)
  {
    best := None;
    for i := 0 to |rows|
      invariant best == AtOrBefore(rows[..i], t)
    {
      assert rows[..i + 1][..i] == rows[..i];
      if rows[i].timestamp <= t && (best.None? || rows[i].timestamp > best.value.timestamp) {
        best := Some(rows[i]);
      }
    }
    assert rows[..|rows|] == rows;
  }

  /** The lookup is the latest row not after `t`, and absent only when every row is after `t`. */
  lemma {:induction false} AtOrBeforeMeaning(rows: seq<Assessment>, t: int)
    ensures AtOrBefore(rows, t).None? <==> forall i :: 0 <= i < |rows| ==> rows[i].timestamp > t
    ensures AtOrBefore(rows, t).Some? ==> AtOrBefore(rows, t).value in rows && AtOrBefore(rows, t).value.timestamp <= t
    ensures AtOrBefore(rows, t).Some? ==> forall i :: 0 <= i < |rows| && rows[i].timestamp <= t ==> rows[i].timestamp <= AtOrBefore(rows, t).value.timestamp
  {
    if rows != [] {
      var n := |rows| - 1;
      AtOrBeforeMeaning(rows[..n], t);
      assert forall i :: 0 <= i < n ==> rows[..n][i] == rows[i];
    }
  }

  /** Row `k` is the first of the latest at or before `t`. */
  ghost predicate LatestAt(rows: seq<Assessment>, t: int, k: int) {
    && 0 <= k < |rows| && rows[k].timestamp <= t
    && forall i :: 0 <= i < |rows| && rows[i].timestamp <= t ==>
         if i < k then rows[i].timestamp < rows[k].timestamp else rows[i].timestamp <= rows[k].timestamp
  }

  /** The lookup's answer: that row, or nothing when every row is later. */
  ghost predicate LooksUp(rows: seq<Assessment>, t: int, r: Option<Assessment>) {
    if r.None? then forall i :: 0 <= i < |rows| ==> rows[i].timestamp > t
    else exists k :: LatestAt(rows, t, k) && rows[k] == r.value
  }

  lemma {:induction false} LookupMeaning(rows: seq<Assessment>, t: int)
    ensures LooksUp(rows, t, AtOrBefore(rows, t))
  {
    if rows != [] {
      var n := |rows| - 1;
      var front := rows[..n];
      LookupMeaning(front, t);
      AtOrBeforeMeaning(rows, t);
      var best := AtOrBefore(front, t);
      if best.Some? {
        var k :| LatestAt(front, t, k) && front[k] == best.value;
        if AtOrBefore(rows, t) == best {
          assert LatestAt(rows, t, k);
        } else {
          assert LatestAt(rows, t, n);
        }
      } else if AtOrBefore(rows, t).Some? {
        assert LatestAt(rows, t, n);
      }
    }
  }

  /** Looking up a tick's own time finds that tick. */
  lemma LookupFindsTick(rows: seq<Assessment>, a: Assessment)
    requires StrictlyAscending(rows) && a in rows
    ensures AtOrBefore(rows, a.timestamp) == Some(a)
  {
    AtOrBeforeMeaning(rows, a.timestamp);
    var i :| 0 <= i < |rows| && rows[i] == a;
    var found := AtOrBefore(rows, a.timestamp);
    var j :| 0 <= j < |rows| && rows[j] == found.value;
    assert rows[i].timestamp <= rows[j].timestamp;
  }

  /** A later time never shows an earlier row, and never loses a zone once it has appeared. */
  lemma LookupMonotone(rows: seq<Assessment>, t: int, u: int)
    requires t <= u && AtOrBefore(rows, t).Some?
    ensures AtOrBefore(rows, u).Some? && AtOrBefore(rows, t).value.timestamp <= AtOrBefore(rows, u).value.timestamp
  {
    AtOrBeforeMeaning(rows, t);
    AtOrBeforeMeaning(rows, u);
    var i :| 0 <= i < |rows| && rows[i] == AtOrBefore(rows, t).value;
    assert rows[i].timestamp <= u;
  }

  // ---------------------------------------------------------------- build_replay

  datatype ZoneId = ZoneId(uuid: nat)

  /** What the tables hold of one zone. */
  datatype ZoneRecord = ZoneRecord(rows: seq<Assessment>, permits: seq<Permit>)

  datatype ZoneTimeline = ZoneTimeline(zone: ZoneId, rows: seq<Assessment>)

  datatype ReplayBookmark = ReplayBookmark(zone: ZoneId, event: Event)

  /** The database and the requested range. */
  datatype Request = Request(records: ZoneId -> ZoneRecord, start: int, end: int)

  function IssuedWithin(start: int, end: int): Permit -> bool { (p: Permit) => start <= p.issuedAt <= end }

  function WindowOf(q: Request, z: ZoneId): seq<Assessment> { FetchZone(q.records(z).rows, q.start, q.end) }

  function PermitsOf(q: Request, z: ZoneId): seq<Permit> { Filter(IssuedWithin(q.start, q.end), q.records(z).permits) }

  function Tag(z: ZoneId, events: seq<Event>): seq<ReplayBookmark> { Map((e: Event) => ReplayBookmark(z, e), events) }

  /** What one zone contributes to the replay. */
  function ZoneBookmarks(q: Request, z: ZoneId): seq<ReplayBookmark> { Tag(z, ServerBookmarks(WindowOf(q, z), PermitsOf(q, z))) }

  function ContributionsTo(q: Request): ZoneId -> seq<ReplayBookmark> { (z: ZoneId) => ZoneBookmarks(q, z) }

  /** What the zones contribute, zone after zone; a zone asked for twice contributes twice. */
  function Gather(from: ZoneId -> seq<ReplayBookmark>, zones: seq<ZoneId>): seq<ReplayBookmark> {
    if zones == [] then [] else Gather(from, zones[..|zones| - 1]) + from(zones[|zones| - 1])
  }

  function AllBookmarks(q: Request, zones: seq<ZoneId>): seq<ReplayBookmark> { Gather(ContributionsTo(q), zones) }

  function Windows(q: Request, zones: seq<ZoneId>): seq<seq<Assessment>> { Map((z: ZoneId) => WindowOf(q, z), zones) }

  function Timelines(q: Request, zones: seq<ZoneId>): seq<ZoneTimeline> { Map((z: ZoneId) => ZoneTimeline(z, WindowOf(q, z)), zones) }

  const EarlierMark: (ReplayBookmark, ReplayBookmark) -> bool := (a: ReplayBookmark, b: ReplayBookmark) => a.event.at <= b.event.at

  /** The replay of the zones asked for: each zone's fetched window, all bookmarks in time order, and
      a tick count that equals the length of the client's merged axis. */
  method BuildReplay(q: Request, zones: seq<ZoneId>) returns (timelines: seq<ZoneTimeline>, bookmarks: seq<ReplayBookmark>, tickCount: nat)
    ensures timelines == Timelines(q, zones)
    ensures bookmarks == Sort(EarlierMark, AllBookmarks(q, zones))
    ensures tickCount == |AllTimes(Windows(q, zones))|
  {
    timelines, bookmarks := [], [];
    var windows: seq<seq<Assessment>> := [];
    for i := 0 to |zones|
      invariant timelines == Timelines(q, zones[..i]) && windows == Windows(q, zones[..i])
      invariant bookmarks == AllBookmarks(q, zones[..i])
    {
      ReplayStep(q, zones, i);
      var rows := FetchZone(q.records(zones[i]).rows, q.start, q.end);
      var found := DetectBookmarks(rows, Filter(IssuedWithin(q.start, q.end), q.records(zones[i]).permits));
      timelines := timelines + [ZoneTimeline(zones[i], rows)];
      windows := windows + [rows];
      bookmarks := bookmarks + Tag(zones[i], found);
    }
    assert zones[..|zones|] == zones;
    bookmarks := Sort(EarlierMark, bookmarks);
    tickCount := CountTicks(windows);
  }

  lemma ReplayStep(q: Request, zones: seq<ZoneId>, i: nat)
    requires i < |zones|
    ensures Timelines(q, zones[..i + 1]) == Timelines(q, zones[..i]) + [ZoneTimeline(zones[i], WindowOf(q, zones[i]))]
    ensures Windows(q, zones[..i + 1]) == Windows(q, zones[..i]) + [WindowOf(q, zones[i])]
    ensures AllBookmarks(q, zones[..i + 1]) == AllBookmarks(q, zones[..i]) + ZoneBookmarks(q, zones[i])
  {
    assert zones[..i + 1][..i] == zones[..i];
  }

  // ---------------------------------------------------------------- the replay in its own fields

  function MarkAt(t: int): ReplayBookmark -> bool { (m: ReplayBookmark) => m.event.at == t }

  /** `shown` holds the gathered bookmarks in ascending time, and of each time in the gathered order. */
  ghost predicate MarksInTime(gathered: seq<ReplayBookmark>, shown: seq<ReplayBookmark>) {
    && multiset(shown) == multiset(gathered)
    && (forall i, j :: 0 <= i < j < |shown| ==> shown[i].event.at <= shown[j].event.at)
    && forall t :: Filter(MarkAt(t), shown) == Filter(MarkAt(t), gathered)
  }

  lemma MarksSortInTime(gathered: seq<ReplayBookmark>)
    ensures MarksInTime(gathered, Sort(EarlierMark, gathered))
  {
    var shown := Sort(EarlierMark, gathered);
    SortPermutes(EarlierMark, gathered);
    SortSorts(EarlierMark, gathered);
    forall i, j | 0 <= i < j < |shown| ensures shown[i].event.at <= shown[j].event.at {
      assert EarlierMark(shown[i], shown[j]);
    }
    forall t ensures Filter(MarkAt(t), shown) == Filter(MarkAt(t), gathered) {
      var same := Filter(MarkAt(t), gathered);
      SortFilter(EarlierMark, MarkAt(t), gathered);
      FilterMembers(MarkAt(t), gathered);
      forall i, j | 0 <= i < j < |same| ensures EarlierMark(same[i], same[j]) {
        assert same[i] in same && same[j] in same;
      }
      SortOfSorted(EarlierMark, same);
    }
  }

  /** The permits issued in the closed range, in their own order. */
  ghost predicate PermitsShown(q: Request, z: ZoneId, permits: seq<Permit>) {
    && (forall p :: p in permits <==> p in q.records(z).permits && q.start <= p.issuedAt && p.issuedAt <= q.end)
    && |permits| == |set i | 0 <= i < |q.records(z).permits| && q.start <= q.records(z).permits[i].issuedAt <= q.end|
  }

  /** One zone's marks: each event of the detector on its window and permits, tagged with the zone. */
  ghost predicate MarksOf(q: Request, z: ZoneId, window: seq<Assessment>, permits: seq<Permit>, marks: seq<ReplayBookmark>) {
    && window == FetchZone(q.records(z).rows, q.start, q.end) && PermitsShown(q, z, permits)
    && |marks| == |ServerBookmarks(window, permits)|
    && forall i :: 0 <= i < |marks| ==> marks[i].zone == z && marks[i].event == ServerBookmarks(window, permits)[i]
  }

  lemma ZoneMarks(q: Request, z: ZoneId)
    ensures MarksOf(q, z, WindowOf(q, z), PermitsOf(q, z), ZoneBookmarks(q, z))
  {
    var all, p := q.records(z).permits, IssuedWithin(q.start, q.end);
    FilterMembers(p, all);
    FilterCount(p, all, |all|);
    assert all[..|all|] == all;
    assert Positions(p, all, |all|) == set i | 0 <= i < |all| && q.start <= all[i].issuedAt <= q.end;
  }

  lemma {:induction false} GatherIsConcat(from: ZoneId -> seq<ReplayBookmark>, zones: seq<ZoneId>, lists: seq<seq<ReplayBookmark>>)
    requires |lists| == |zones| && forall i :: 0 <= i < |zones| ==> lists[i] == from(zones[i])
    ensures Gather(from, zones) == Concat(lists)
  {
    if zones != [] { GatherIsConcat(from, zones[..|zones| - 1], lists[..|lists| - 1]); }
  }

  /** A replay in its own fields: a timeline per zone asked for, named after it, and the marks of the zones,
      zone after zone, in ascending time. */
  lemma ReplayInFields(q: Request, zones: seq<ZoneId>) returns (permits: seq<seq<Permit>>, lists: seq<seq<ReplayBookmark>>)
    ensures |Timelines(q, zones)| == |permits| == |lists| == |zones|
    ensures forall i :: 0 <= i < |zones| ==> Timelines(q, zones)[i].zone == zones[i]
    ensures forall i :: 0 <= i < |zones| ==> MarksOf(q, zones[i], Timelines(q, zones)[i].rows, permits[i], lists[i])
    ensures MarksInTime(Concat(lists), Sort(EarlierMark, AllBookmarks(q, zones)))
  {
    permits := seq(|zones|, i requires 0 <= i < |zones| => PermitsOf(q, zones[i]));
    lists := seq(|zones|, i requires 0 <= i < |zones| => ZoneBookmarks(q, zones[i]));
    forall i | 0 <= i < |zones| ensures MarksOf(q, zones[i], Timelines(q, zones)[i].rows, permits[i], lists[i]) {
      ZoneMarks(q, zones[i]);
    }
    GatherIsConcat(ContributionsTo(q), zones, lists);
    MarksSortInTime(AllBookmarks(q, zones));
  }

  // ---------------------------------------------------------------- a zone's part of the replay

  function OfZone(z: ZoneId): ReplayBookmark -> bool { (m: ReplayBookmark) => m.zone == z }

  function EventOf(): ReplayBookmark -> Event { (m: ReplayBookmark) => m.event }

  /** The events of one zone, in the order of the final list. */
  function ShownOf(z: ZoneId, bookmarks: seq<ReplayBookmark>): seq<Event> { Map(EventOf(), Filter(OfZone(z), bookmarks)) }

  function Multiplicity(zones: seq<ZoneId>, z: ZoneId): nat {
    if zones == [] then 0 else Multiplicity(zones[..|zones| - 1], z) + if zones[|zones| - 1] == z then 1 else 0
  }

  function Times<T>(s: seq<T>, n: nat): seq<T> { if n == 0 then [] else Times(s, n - 1) + s }

  lemma TagOfZone(z: ZoneId, y: ZoneId, events: seq<Event>)
    ensures Filter(OfZone(z), Tag(y, events)) == if y == z then Tag(y, events) else []
  {
    if y == z {
      FilterAll(OfZone(z), Tag(y, events));
    } else {
      FilterNone(OfZone(z), Tag(y, events));
    }
  }

  /** Among all that is gathered, a zone's own bookmarks are what it contributes, as often as it was
      asked for. */
  lemma {:induction false} OwnBookmarks(from: ZoneId -> seq<ReplayBookmark>, zones: seq<ZoneId>, z: ZoneId)
    requires forall y :: OwnOnly(from, z, y)
    ensures Filter(OfZone(z), Gather(from, zones)) == Times(from(z), Multiplicity(zones, z))
  {
    if zones != [] {
      var front, y := zones[..|zones| - 1], zones[|zones| - 1];
      OwnBookmarks(from, front, z);
      OwnStep(from, Gather(from, front), y, z);
    }
  }

  /** What zone `y` contributes belongs to it alone. */
  ghost predicate OwnOnly(from: ZoneId -> seq<ReplayBookmark>, z: ZoneId, y: ZoneId) {
    Filter(OfZone(z), from(y)) == if y == z then from(z) else []
  }

  lemma OwnStep(from: ZoneId -> seq<ReplayBookmark>, before: seq<ReplayBookmark>, y: ZoneId, z: ZoneId)
    requires OwnOnly(from, z, y)
    ensures Filter(OfZone(z), before + from(y)) == Filter(OfZone(z), before) + if y == z then from(z) else []
  {
    FilterAppend(OfZone(z), before, from(y));
  }

  lemma ContributionsAreOwn(q: Request, z: ZoneId)
    ensures forall y :: OwnOnly(ContributionsTo(q), z, y)
  {
    forall y ensures OwnOnly(ContributionsTo(q), z, y) {
      TagOfZone(z, y, ServerBookmarks(WindowOf(q, y), PermitsOf(q, y)));
    }
  }

  lemma MarkOrder()
    ensures TotalPreorder(EarlierMark)
  {
  }

  lemma EventsOfTag(z: ZoneId, events: seq<Event>)
    ensures Map(EventOf(), Tag(z, events)) == events
  {
    var m := Map(EventOf(), Tag(z, events));
    assert forall i :: 0 <= i < |events| ==> m[i] == events[i];
  }

  lemma {:induction false} EventsOfTimes(z: ZoneId, events: seq<Event>, n: nat)
    ensures Map(EventOf(), Times(Tag(z, events), n)) == Times(events, n)
  {
    if n > 0 {
      EventsOfTimes(z, events, n - 1);
      EventsOfTag(z, events);
      MapAppend(EventOf(), Times(Tag(z, events), n - 1), Tag(z, events));
    }
  }

  lemma MapAppend<T, U>(f: T -> U, a: seq<T>, b: seq<T>)
    ensures Map(f, a + b) == Map(f, a) + Map(f, b)
  {
  }

  /** Restricted to a zone, the final list is that zone's bookmarks, each as often as the zone was asked
      for, in time order, whatever the other zones contribute. */
  lemma ZoneIsShown(q: Request, zones: seq<ZoneId>, z: ZoneId)
    ensures ShownOf(z, Sort(EarlierMark, AllBookmarks(q, zones)))
         == Sort(Earlier, Times(ServerBookmarks(WindowOf(q, z), PermitsOf(q, z)), Multiplicity(zones, z)))
  {
    var own := Times(ZoneBookmarks(q, z), Multiplicity(zones, z));
    MarkOrder();
    SortFilter(EarlierMark, OfZone(z), AllBookmarks(q, zones));
    ContributionsAreOwn(q, z);
    OwnBookmarks(ContributionsTo(q), zones, z);
    SortMap(EarlierMark, Earlier, EventOf(), own);
    EventsOfTimes(z, ServerBookmarks(WindowOf(q, z), PermitsOf(q, z)), Multiplicity(zones, z));
  }

  // ---------------------------------------------------------------- repetitions in time order

  lemma {:induction false} FilterTimes<T>(p: T -> bool, s: seq<T>, n: nat)
    ensures Filter(p, Times(s, n)) == Times(Filter(p, s), n)
  {
    if n > 0 {
      FilterTimes(p, s, n - 1);
      FilterAppend(p, Times(s, n - 1), s);
    }
  }

  lemma {:induction false} TimesMembers<T>(s: seq<T>, n: nat)
    ensures |Times(s, n)| == n * |s| && forall x :: x in Times(s, n) ==> x in s
  {
    if n > 0 {
      TimesMembers(s, n - 1);
      assert n * |s| == (n - 1) * |s| + |s|;
    }
  }

  lemma TimesInjective<T>(a: seq<T>, b: seq<T>, n: nat)
    requires n > 0 && Times(a, n) == Times(b, n)
    ensures a == b
  {
    TimesMembers(a, n);
    TimesMembers(b, n);
    SameFactor(n, |a|, |b|);
    var all, k := Times(a, n), |Times(a, n)| - |a|;
    assert all == Times(a, n - 1) + a && all == Times(b, n - 1) + b;
    assert a == all[k..] && b == all[k..];
  }

  lemma SameFactor(n: nat, x: nat, y: nat)
    requires n > 0 && n * x == n * y
    ensures x == y
  {
    if x < y {
      GreaterFactor(n, x, y);
    } else if y < x {
      GreaterFactor(n, y, x);
    }
  }

  lemma GreaterFactor(n: nat, x: nat, y: nat)
    requires n > 0 && x < y
    ensures n * x < n * y
  {
    assert n * y == n * x + n * (y - x);
  }

  lemma AtTimeSorted(t: int, s: seq<Event>)
    ensures Filter(AtTime(t), Sort(Earlier, s)) == Filter(AtTime(t), s)
  {
    EventOrder();
    SortFilter(Earlier, AtTime(t), s);
    FilterMembers(AtTime(t), s);
    AllAtOnce(Filter(AtTime(t), s), t);
  }

  lemma AllAtOnce(s: seq<Event>, t: int)
    requires AllAt(s, t)
    ensures Sort(Earlier, s) == s
  {
    EventOrder();
    assert forall i :: 0 <= i < |s| ==> s[i] in s;
    SortOfSorted(Earlier, s);
  }

  /** A listing in time order is determined by what it lists at each time. */
  lemma {:induction false} SameAtEveryTime(a: seq<Event>, b: seq<Event>)
    requires Sorted(Earlier, a) && Sorted(Earlier, b) && forall t :: Filter(AtTime(t), a) == Filter(AtTime(t), b)
    ensures a == b
  {
    if a == [] {
      if b != [] { HeadIsListed(b); }
    } else {
      BothListed(a, b);
      HeadsMeet(a, b);
      forall t ensures Filter(AtTime(t), a[1..]) == Filter(AtTime(t), b[1..]) {
        assert Filter(AtTime(t), a) == Filter(AtTime(t), b);
        FilterTail(AtTime(t), a);
        FilterTail(AtTime(t), b);
      }
      SameAtEveryTime(a[1..], b[1..]);
      assert a == [a[0]] + a[1..] && b == [b[0]] + b[1..];
    }
  }

  lemma BothListed(a: seq<Event>, b: seq<Event>)
    requires a != [] && Filter(AtTime(a[0].at), a) == Filter(AtTime(a[0].at), b)
    ensures b != []
  {
    HeadIsListed(a);
  }

  lemma FilterTail<T>(p: T -> bool, s: seq<T>)
    requires s != []
    ensures p(s[0]) ==> Filter(p, s) == [s[0]] + Filter(p, s[1..]) && Filter(p, s)[1..] == Filter(p, s[1..])
    ensures !p(s[0]) ==> Filter(p, s) == Filter(p, s[1..])
  {
  }

  lemma HeadIsListed(a: seq<Event>)
    requires a != []
    ensures Filter(AtTime(a[0].at), a) != [] && Filter(AtTime(a[0].at), a)[0] == a[0]
  {
  }

  lemma HeadsMeet(a: seq<Event>, b: seq<Event>)
    requires a != [] && b != [] && Sorted(Earlier, a) && Sorted(Earlier, b)
    requires forall t :: Filter(AtTime(t), a) == Filter(AtTime(t), b)
    ensures a[0] == b[0]
  {
    NotEarlierThanHead(a, b[0].at, b);
    NotEarlierThanHead(b, a[0].at, a);
    HeadIsListed(a);
    HeadIsListed(b);
    assert Filter(AtTime(a[0].at), a) == Filter(AtTime(a[0].at), b);
  }

  /** What another listing starts with is listed here too, so not before the first entry. */
  lemma NotEarlierThanHead(a: seq<Event>, t: int, b: seq<Event>)
    requires a != [] && Sorted(Earlier, a) && b != [] && b[0].at == t && Filter(AtTime(t), a) == Filter(AtTime(t), b)
    ensures a[0].at <= t
  {
    HeadIsListed(b);
    FilterMembers(AtTime(t), a);
    var e := Filter(AtTime(t), a)[0];
    assert e in Filter(AtTime(t), a);
    var i :| 0 <= i < |a| && a[i] == e;
    if i > 0 { assert Earlier(a[0], a[i]); }
  }

  /** Repeating and sorting loses nothing: listings in time order agree exactly when their repetitions do. */
  lemma RepetitionsAgreeExactlyWhen(a: seq<Event>, b: seq<Event>, n: nat)
    requires Sorted(Earlier, a) && Sorted(Earlier, b) && n > 0
    ensures Sort(Earlier, Times(a, n)) == Sort(Earlier, Times(b, n)) <==> a == b
  {
    if Sort(Earlier, Times(a, n)) == Sort(Earlier, Times(b, n)) {
      forall t ensures Filter(AtTime(t), a) == Filter(AtTime(t), b) {
        AtTimeSorted(t, Times(a, n));
        AtTimeSorted(t, Times(b, n));
        FilterTimes(AtTime(t), a, n);
        FilterTimes(AtTime(t), b, n);
        TimesInjective(Filter(AtTime(t), a), Filter(AtTime(t), b), n);
      }
      SameAtEveryTime(a, b);
    }
  }

  /** A zone's window is contiguous, and keeps the times distinct. */
  lemma WindowFacts(rows: seq<Assessment>, start: int, end: int)
    requires StrictlyAscending(rows)
    ensures StrictlyAscending(FetchZone(rows, start, end)) && InTimeOrder(FetchZone(rows, start, end))
    ensures (forall i :: 0 <= i < |rows| ==> WellFormed(rows[i])) ==>
              forall i :: 0 <= i < |FetchZone(rows, start, end)| ==> WellFormed(FetchZone(rows, start, end)[i])
    ensures Chained(rows) ==> Chained(FetchZone(rows, start, end))
  {
    var lo, hi := FetchIsWindow(rows, start, end);
    if Chained(rows) { WindowIsChained(rows, lo, hi); }
  }

  /** What the client reports of a window's tiers, after what its first row brought. */
  function ClientTiers(window: seq<Assessment>): seq<Event>
    requires window != []
  {
    ServerTierEvents(window[0]) + Filter(IsTierEvent(), ClientTimeline(window))
  }

  lemma {:induction false} EventsNotBefore(rows: seq<Assessment>, t: int)
    requires forall i :: 0 <= i < |rows| ==> t <= rows[i].timestamp
    ensures forall e :: e in ClientEvents(rows) ==> t <= e.at
  {
    if rows != [] {
      var front, a := rows[..|rows| - 1], rows[|rows| - 1];
      EventsNotBefore(front, t);
      RowEventsAt(PreviousTier(front), PreviousBonus(front), a);
    }
  }

  lemma ClientTiersSorted(window: seq<Assessment>)
    requires window != [] && InTimeOrder(window)
    ensures Sorted(Earlier, ClientTiers(window))
  {
    var first, rest, t := ServerTierEvents(window[0]), Filter(IsTierEvent(), ClientEvents(window)), window[0].timestamp;
    ClientParts(IsTierEvent(), window);
    EventsSorted(window);
    FilteredSorted(IsTierEvent(), ClientEvents(window));
    EventsNotBefore(window, t);
    FilterMembers(IsTierEvent(), ClientEvents(window));
    RowEventsAt(None, false, window[0]);
    FirstThenRest(first, rest, t);
  }

  lemma FirstThenRest(first: seq<Event>, rest: seq<Event>, t: int)
    requires AllAt(first, t) && Sorted(Earlier, rest) && forall e :: e in rest ==> t <= e.at
    ensures Sorted(Earlier, first + rest)
  {
    var all := first + rest;
    forall i, j | 0 <= i < j < |all| ensures Earlier(all[i], all[j]) {
      if i < |first| {
        assert all[i] in first && (all[j] in first || all[j] in rest);
      } else {
        assert Earlier(rest[i - |first|], rest[j - |first|]);
      }
    }
  }

  lemma FilteredSorted(p: Event -> bool, events: seq<Event>)
    requires Sorted(Earlier, events)
    ensures Sorted(Earlier, Filter(p, events))
  {
    FilterOfSorted(p, events);
    EventOrder();
    SortSorts(Earlier, Filter(p, events));
  }

  /** `shown` is what the final list shows of a zone asked for `n` times whose window is `window`: it agrees
      with `n` times what the client derives on the highest-risk tick always, on tier changes and
      critical entries after the first tick exactly when the window is chained, on bonuses exactly
      when none goes unreported. */
  ghost predicate AgreesExactlyWhen(window: seq<Assessment>, n: nat, shown: seq<Event>)
    requires window != []
  {
    && Filter(IsPeak(), shown) == Times(PeakEvents(window), n)
    && (Filter(IsTierEvent(), shown) == Sort(Earlier, Times(ClientTiers(window), n)) <==> Chained(window))
    && (Filter(IsBonus(), shown) == Sort(Earlier, Times(Filter(IsBonus(), ClientTimeline(window)), n)) <==> UnreportedBonuses(window) == 0)
  }

  /** What the replay shows of a zone against what the client derives from that zone's window. */
  lemma ReplayAgreesExactlyWhen(q: Request, zones: seq<ZoneId>, z: ZoneId)
    requires Multiplicity(zones, z) > 0 && StrictlyAscending(q.records(z).rows) && WindowOf(q, z) != []
    requires forall i :: 0 <= i < |q.records(z).rows| ==> WellFormed(q.records(z).rows[i])
    ensures AgreesExactlyWhen(WindowOf(q, z), Multiplicity(zones, z), ShownOf(z, Sort(EarlierMark, AllBookmarks(q, zones))))
  {
    ZoneIsShown(q, zones, z);
    WindowFacts(q.records(z).rows, q.start, q.end);
    RepeatedDetectorsAgree(WindowOf(q, z), PermitsOf(q, z), Multiplicity(zones, z));
  }

  /** A kind of event in the sorted repetition of a zone's bookmarks. */
  lemma ShownKind(p: Event -> bool, window: seq<Assessment>, permits: seq<Permit>, n: nat)
    ensures Filter(p, Sort(Earlier, Times(ServerBookmarks(window, permits), n))) == Sort(Earlier, Times(Filter(p, ServerBookmarks(window, permits)), n))
  {
    EventOrder();
    SortFilter(Earlier, p, Times(ServerBookmarks(window, permits), n));
    FilterTimes(p, ServerBookmarks(window, permits), n);
  }

  lemma RepeatedPeak(window: seq<Assessment>, n: nat)
    requires window != []
    ensures Sort(Earlier, Times(PeakEvents(window), n)) == Times(PeakEvents(window), n)
  {
    TimesMembers(PeakEvents(window), n);
    AllAtOnce(Times(PeakEvents(window), n), PeakEvents(window)[0].at);
  }

  lemma RepeatedDetectorsAgree(window: seq<Assessment>, permits: seq<Permit>, n: nat)
    requires window != [] && n > 0 && StrictlyAscending(window) && InTimeOrder(window) && forall i :: 0 <= i < |window| ==> WellFormed(window[i])
    ensures AgreesExactlyWhen(window, n, Sort(Earlier, Times(ServerBookmarks(window, permits), n)))
  {
    ShownKind(IsPeak(), window, permits, n);
    ServerParts(IsTierEvent(), window, permits);
    RepeatedPeak(window, n);
    RepeatedTiersAgree(window, permits, n);
    RepeatedBonusesAgree(window, permits, n);
  }

  lemma RepeatedTiersAgree(window: seq<Assessment>, permits: seq<Permit>, n: nat)
    requires window != [] && n > 0 && StrictlyAscending(window) && InTimeOrder(window) && forall i :: 0 <= i < |window| ==> WellFormed(window[i])
    ensures Filter(IsTierEvent(), Sort(Earlier, Times(ServerBookmarks(window, permits), n))) == Sort(Earlier, Times(ClientTiers(window), n))
       <==> Chained(window)
  {
    var server := Filter(IsTierEvent(), ServerEvents(window));
    ShownKind(IsTierEvent(), window, permits, n);
    ServerParts(IsTierEvent(), window, permits);
    ClientParts(IsTierEvent(), window);
    EventsSorted(window);
    FilteredSorted(IsTierEvent(), ServerEvents(window));
    ClientTiersSorted(window);
    RepetitionsAgreeExactlyWhen(server, ClientTiers(window), n);
    TiersAgreeExactlyWhen(window);
  }

  lemma RepeatedBonusesAgree(window: seq<Assessment>, permits: seq<Permit>, n: nat)
    requires n > 0 && InTimeOrder(window)
    ensures Filter(IsBonus(), Sort(Earlier, Times(ServerBookmarks(window, permits), n)))
            == Sort(Earlier, Times(Filter(IsBonus(), ClientTimeline(window)), n))
       <==> UnreportedBonuses(window) == 0
  {
    var server, client := Filter(IsBonus(), ServerEvents(window)), Filter(IsBonus(), ClientEvents(window));
    ShownKind(IsBonus(), window, permits, n);
    ServerParts(IsBonus(), window, permits);
    ClientParts(IsBonus(), window);
    EventsSorted(window);
    FilteredSorted(IsBonus(), ServerEvents(window));
    FilteredSorted(IsBonus(), ClientEvents(window));
    RepetitionsAgreeExactlyWhen(server, client, n);
    BonusesAgreeExactlyWhen(window, permits);
  }

  /** End to end: execute any scenario with any engine, persist it, ask for any zones and any range.
      What the replay shows of the zone names the same tier changes and critical entries, after the
      range's first tick, as the client derives, and the same highest-risk tick, each as often as
      the zone was asked for. */
  lemma ReplayMatchesClient<C>(e: Execution<C>, q: Request, zones: seq<ZoneId>, z: ZoneId)
    requires AscendingTimes(e.times) && RepeatsOnlyFirst(e.times) && q.records(z).rows == Kept(RowsOfExecution(e))
    ensures var window, n, shown := WindowOf(q, z), Multiplicity(zones, z), ShownOf(z, Sort(EarlierMark, AllBookmarks(q, zones)));
            window != [] ==>
              && Filter(IsTierEvent(), shown) == Sort(Earlier, Times(ClientTiers(window), n))
              && (n == 1 ==> Filter(IsTierEvent(), shown) == ClientTiers(window))
              && Filter(IsPeak(), shown) == Times(PeakEvents(window), n)
  {
    ExecutionTable(e);
    WindowFacts(q.records(z).rows, q.start, q.end);
    var window, n := WindowOf(q, z), Multiplicity(zones, z);
    ZoneIsShown(q, zones, z);
    if window != [] {
      if n > 0 {
        RepeatedDetectorsAgree(window, PermitsOf(q, z), n);
      } else {
        assert Sort(Earlier, Times(ServerBookmarks(window, PermitsOf(q, z)), 0)) == [];
        assert Sort(Earlier, Times(ClientTiers(window), 0)) == [] && Times(PeakEvents(window), 0) == [];
      }
      SortedOnce(window);
    }
  }

  lemma SortedOnce(window: seq<Assessment>)
    requires window != [] && InTimeOrder(window)
    ensures Sort(Earlier, Times(ClientTiers(window), 1)) == ClientTiers(window)
  {
    ClientTiersSorted(window);
    EventOrder();
    SortOfSorted(Earlier, ClientTiers(window));
    OnceIsItself(ClientTiers(window));
  }

  lemma OnceIsItself<T>(s: seq<T>)
    ensures Times(s, 1) == s
  {
    assert Times(s, 0) + s == s;
  }

  lemma ExecutionTable<C>(e: Execution<C>)
    requires AscendingTimes(e.times) && RepeatsOnlyFirst(e.times)
    ensures StrictlyAscending(Kept(RowsOfExecution(e))) && Chained(Kept(RowsOfExecution(e)))
  {
    PersistedChain(e.engine, e.cfg, e.cache, e.times);
    RowTimes(e.engine, e.cfg, e.cache, e.times);
    KeptAscends(RowsOfExecution(e));
  }

  // ---------------------------------------------------------------- the cursor

  datatype Action =
    | StartReplay
    | Load(timestamps: seq<int>)
    | Tick
    | Play
    | Pause
    | Reset
    | Next
    | Previous
    | Scrub(position: int)
    | Jump(timestamp: int)

  datatype Cursor = Cursor(axis: seq<int>, index: int, playing: bool)

  /** What each action does to the cursor. The playback timer only runs while playing on a
      non-empty axis. */
  function Apply(c: Cursor, a: Action): Cursor {
    var last := |c.axis| - 1;
    match a
    case StartReplay => Cursor([], 0, false)
    case Load(timestamps) => c.(axis := timestamps)
    case Tick =>
      if !c.playing || c.axis == [] then c
      else if c.index >= last then c.(playing := false)
      else c.(index := c.index + 1)
    case Play => c.(playing := true)
    case Pause => c.(playing := false)
    case Reset => c.(index := 0, playing := false)
    case Next => c.(index := Min(c.index + 1, last), playing := false)
    case Previous => c.(index := Max(c.index - 1, 0), playing := false)
    case Scrub(position) => c.(index := Max(0, Min(position, last)), playing := false)
    case Jump(timestamp) => c.(index := NearestIndex(c.axis, timestamp), playing := false)
  }

  function ApplyAll(c: Cursor, actions: seq<Action>): Cursor {
    if actions == [] then c else Apply(ApplyAll(c, actions[..|actions| - 1]), actions[|actions| - 1])
  }

  predicate InRange(c: Cursor) { 0 <= c.index < |c.axis| }

  /** An action of the viewer or the timer, as opposed to opening a replay or its data arriving. */
  predicate Moves(a: Action) { !a.StartReplay? && !a.Load? }

  /** The provider's state cells. */
  class ReplayState {
    var allTimestamps: seq<int>
    var currentIndex: int
    var playing: bool
    var customBookmarks: seq<(int, string)>

    ghost function View(): Cursor
      reads this
    {
      Cursor(allTimestamps, currentIndex, playing)
    }

    constructor ()
      ensures View() == Cursor([], 0, false) && customBookmarks == []
      ensures allTimestamps == [] && currentIndex == 0 && !playing
    {
      allTimestamps, currentIndex, playing, customBookmarks := [], 0, false, [];
    }

    method StartReplay()
      modifies this
      ensures View() == Apply(old(View()), Action.StartReplay) && customBookmarks == []
      ensures allTimestamps == [] && currentIndex == 0 && !playing
    {
      allTimestamps, currentIndex, playing, customBookmarks := [], 0, false, [];
    }

    method DataArrived(timelines: seq<seq<Assessment>>)
      modifies this
      ensures exists axis :: View() == Apply(old(View()), Load(axis)) && Increasing(axis) && ToSet(axis) == AllTimes(timelines)
      ensures customBookmarks == old(customBookmarks)
      ensures forall i, j :: 0 <= i < j < |allTimestamps| ==> allTimestamps[i] < allTimestamps[j]
      ensures forall t :: t in allTimestamps <==> Timed(timelines, t)
      ensures currentIndex == old(currentIndex) && playing == old(playing)
    {
      var axis := MergeTimestamps(timelines);
      forall t ensures t in axis <==> Timed(timelines, t) {
        AllTimesMeaning(timelines, t);
        assert t in axis <==> t in ToSet(axis);
      }
      allTimestamps := axis;
    }

    method TimerTick()
      modifies this
      ensures View() == Apply(old(View()), Tick) && customBookmarks == old(customBookmarks)
      ensures allTimestamps == old(allTimestamps)
      ensures currentIndex == old(currentIndex) + if old(playing) && allTimestamps != [] && old(currentIndex) + 1 < |allTimestamps| then 1 else 0
      ensures playing <==> old(playing) && (old(currentIndex) + 1 < |allTimestamps| || allTimestamps == [])
    {
      if !playing || |allTimestamps| == 0 { return; }
      if currentIndex >= |allTimestamps| - 1 {
        playing := false;
      } else {
        currentIndex := currentIndex + 1;
      }
    }

    method PressPlay()
      modifies this
      ensures View() == Apply(old(View()), Play) && customBookmarks == old(customBookmarks)
      ensures playing && currentIndex == old(currentIndex) && allTimestamps == old(allTimestamps)
    {
      playing := true;
    }

    method PressPause()
      modifies this
      ensures View() == Apply(old(View()), Pause) && customBookmarks == old(customBookmarks)
      ensures !playing && currentIndex == old(currentIndex) && allTimestamps == old(allTimestamps)
    {
      playing := false;
    }

    method PressReset()
      modifies this
      ensures View() == Apply(old(View()), Reset) && customBookmarks == old(customBookmarks)
      ensures !playing && currentIndex == 0 && allTimestamps == old(allTimestamps)
    {
      playing := false;
      currentIndex := 0;
    }

    method PressNext()
      modifies this
      ensures View() == Apply(old(View()), Next) && customBookmarks == old(customBookmarks)
      ensures !playing && allTimestamps == old(allTimestamps)
      ensures currentIndex == if old(currentIndex) + 1 < |allTimestamps| then old(currentIndex) + 1 else |allTimestamps| - 1
    {
      playing := false;
      currentIndex := Min(currentIndex + 1, |allTimestamps| - 1);
    }

    method PressPrevious()
      modifies this
      ensures View() == Apply(old(View()), Previous) && customBookmarks == old(customBookmarks)
      ensures !playing && allTimestamps == old(allTimestamps)
      ensures currentIndex == if old(currentIndex) > 0 then old(currentIndex) - 1 else 0
    {
      playing := false;
      currentIndex := Max(currentIndex - 1, 0);
    }

    method ScrubToIndex(position: int)
      modifies this
      ensures View() == Apply(old(View()), Scrub(position)) && customBookmarks == old(customBookmarks)
      ensures !playing && allTimestamps == old(allTimestamps)
      ensures 0 <= position < |allTimestamps| ==> currentIndex == position
      ensures position < 0 || allTimestamps == [] ==> currentIndex == 0
      ensures position >= |allTimestamps| > 0 ==> currentIndex == |allTimestamps| - 1
    {
      playing := false;
      currentIndex := Max(0, Min(position, |allTimestamps| - 1));
    }

    method JumpToTimestamp(timestamp: int)
      modifies this
      ensures View() == Apply(old(View()), Jump(timestamp)) && customBookmarks == old(customBookmarks)
      ensures !playing && allTimestamps == old(allTimestamps)
      ensures if allTimestamps == [] then currentIndex == 0 else Nearest(allTimestamps, timestamp, currentIndex)
    {
      if allTimestamps != [] { NearestMeaning(allTimestamps, timestamp); }
      playing := false;
      currentIndex := FindNearestTimestampIndex(allTimestamps, timestamp);
    }

    /** A bookmark is added only where the cursor stands on the axis. */
    method AddCustomBookmark(caption: string)
      modifies this
      ensures View() == old(View())
      ensures customBookmarks == if 0 <= currentIndex < |allTimestamps| then old(customBookmarks) + [(allTimestamps[currentIndex], caption)] else old(customBookmarks)
    {
      if 0 <= currentIndex < |allTimestamps| {
        customBookmarks := customBookmarks + [(allTimestamps[currentIndex], caption)];
      }
    }

    /** The zone's latest assessment at or before the cursor; nothing when the cursor is off the axis. */
    method AssessmentAt(rows: seq<Assessment>) returns (r: Option<Assessment>)
      ensures r == Shown(View(), rows)
      ensures if 0 <= currentIndex < |allTimestamps| then LooksUp(rows, allTimestamps[currentIndex], r) else r.None?
    {
      if 0 <= currentIndex < |allTimestamps| { LookupMeaning(rows, allTimestamps[currentIndex]); }
      if !(0 <= currentIndex < |allTimestamps|) { return None; }
      r := AssessmentAtOrBefore(rows, allTimestamps[currentIndex]);
    }
  }

  function Shown(c: Cursor, rows: seq<Assessment>): Option<Assessment> {
    if InRange(c) then AtOrBefore(rows, c.axis[c.index]) else None
  }

  /** On a loaded non-empty axis the cursor stays in range under every sequence of actions. */
  lemma {:induction false} CursorStaysInRange(c: Cursor, actions: seq<Action>)
    requires InRange(c) && forall i :: 0 <= i < |actions| ==> Moves(actions[i])
    ensures InRange(ApplyAll(c, actions)) && ApplyAll(c, actions).axis == c.axis
  {
    if actions != [] { CursorStaysInRange(c, actions[..|actions| - 1]); }
  }

  function Ticks(n: nat): seq<Action> { seq(n, _ => Tick) }

  /** Uninterrupted playback advances one tick at a time and stops by itself: it shows the last
      index after `last - index` ticks and has stopped one tick later, for good. */
  lemma {:induction false} PlaybackRuns(c: Cursor, n: nat)
    requires InRange(c) && c.playing
    ensures var last := |c.axis| - 1;
            ApplyAll(c, Ticks(n)) == c.(index := Min(c.index + n, last), playing := n <= last - c.index)
  {
    if n > 0 {
      PlaybackRuns(c, n - 1);
      assert Ticks(n)[..n - 1] == Ticks(n - 1);
    } else {
      assert Ticks(0) == [];
    }
  }

  /** While nothing is loaded the index is 0, except that Next leaves it at -1. */
  predicate LastMoveWasNext(actions: seq<Action>) {
    actions != [] && (actions[|actions| - 1].Next?
                      || ((actions[|actions| - 1].Play? || actions[|actions| - 1].Pause? || actions[|actions| - 1].Tick?)
                          && LastMoveWasNext(actions[..|actions| - 1])))
  }

  lemma {:induction false} WaitingIndex(actions: seq<Action>)
    requires forall i :: 0 <= i < |actions| ==> Moves(actions[i])
    ensures var c := ApplyAll(Cursor([], 0, false), actions);
            c.axis == [] && c.index == if LastMoveWasNext(actions) then -1 else 0
  {
    if actions != [] { WaitingIndex(actions[..|actions| - 1]); }
  }

  /** Pressing Next while the replay is still loading leaves the cursor before the axis once the
      data arrives: it is in range exactly when the last cursor move before that was not Next. */
  lemma InRangeAfterLoadExactlyWhen(actions: seq<Action>, axis: seq<int>)
    requires axis != [] && forall i :: 0 <= i < |actions| ==> Moves(actions[i])
    ensures InRange(Apply(ApplyAll(Cursor([], 0, false), actions), Load(axis))) <==> !LastMoveWasNext(actions)
  {
    WaitingIndex(actions);
  }

  /** One press of Next while the replay loads, and the cursor shows nothing when the data arrives. */
  lemma NextWhileLoading(rows: seq<Assessment>)
    ensures var c := Apply(ApplyAll(Cursor([], 0, false), [Next]), Load([0, 5, 10]));
            c.index == -1 && !InRange(c) && Shown(c, rows) == None
  {
    assert [Next][..0] == [];
    InRangeAfterLoadExactlyWhen([Next], [0, 5, 10]);
  }

  /** Jumping to any tick of any zone and looking that zone up shows exactly that tick. */
  lemma JumpShowsTick(c: Cursor, timelines: seq<seq<Assessment>>, z: nat, a: Assessment)
    requires z < |timelines| && StrictlyAscending(timelines[z]) && a in timelines[z]
    requires ToSet(c.axis) == AllTimes(timelines)
    ensures Shown(Apply(c, Jump(a.timestamp)), timelines[z]) == Some(a)
  {
    ZoneTimesOnAxis(timelines, z, a);
    assert a.timestamp in ToSet(c.axis);
    NearestHitsExactly(c.axis, a.timestamp);
    LookupFindsTick(timelines[z], a);
  }

  /** Moving the cursor forward never moves any zone back in time. */
  lemma ForwardNeverGoesBack(c: Cursor, d: Cursor, rows: seq<Assessment>)
    requires Increasing(c.axis) && d.axis == c.axis && InRange(c) && InRange(d) && c.index <= d.index
    requires Shown(c, rows).Some?
    ensures Shown(d, rows).Some? && Shown(c, rows).value.timestamp <= Shown(d, rows).value.timestamp
  {
    LookupMonotone(rows, c.axis[c.index], d.axis[d.index]);
  }
}
