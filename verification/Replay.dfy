/** `_fetch_zone_assessments`: one zone's window of a replay. Timestamps are whole microseconds. */
module Replay {
  import opened Common
  import opened StableSort
  import opened ScenarioTicks

  const HISTORY_LIMIT := 5000

  function Between(after: int, before: int): Assessment -> bool {
    (a: Assessment) => after < a.timestamp < before
  }

  /** The repository query over one zone's rows: both bounds exclusive, newest first, limited. */
  function HistoryByZone(rows: seq<Assessment>, limit: nat, before: int, after: int): seq<Assessment> {
    var newestFirst := Reverse(Filter(Between(after, before), rows));
    newestFirst[..Min(limit, |newestFirst|)]
  }

  const ByTime: (Assessment, Assessment) -> bool := (a: Assessment, b: Assessment) => a.timestamp <= b.timestamp

  /** `_fetch_zone_assessments`: the exclusive bounds widened by one microsecond, then re-sorted. */
  function FetchZone(rows: seq<Assessment>, start: int, end: int): seq<Assessment> {
    Sort(ByTime, HistoryByZone(rows, HISTORY_LIMIT, end + 1, start - 1))
  }

  lemma {:induction false} RangeFromStart(rows: seq<Assessment>, after: int, before: int) returns (hi: nat)
    requires StrictlyAscending(rows) && forall i :: 0 <= i < |rows| ==> rows[i].timestamp > after
    ensures hi <= |rows| && Filter(Between(after, before), rows) == rows[..hi]
    ensures forall i :: 0 <= i < |rows| ==> (i < hi <==> rows[i].timestamp < before)
  {
    if rows == [] {
      hi := 0;
    } else if rows[0].timestamp >= before {
      hi := 0;
      FilterNone(Between(after, before), rows);
    } else {
      var k := RangeFromStart(rows[1..], after, before);
      hi := k + 1;
      assert rows[..hi] == [rows[0]] + rows[1..][..k];
    }
  }

  /** Rows in time order that fall in a time range are contiguous. */
  lemma {:induction false} RangeIsContiguous(rows: seq<Assessment>, after: int, before: int) returns (lo: nat, hi: nat)
    requires StrictlyAscending(rows) && after < before
    ensures lo <= hi <= |rows| && Filter(Between(after, before), rows) == rows[lo..hi]
    ensures forall i :: 0 <= i < lo ==> rows[i].timestamp <= after
    ensures forall i :: lo <= i < hi ==> after < rows[i].timestamp < before
    ensures forall i :: hi <= i < |rows| ==> before <= rows[i].timestamp
  {
    if rows == [] || rows[0].timestamp > after {
      lo := 0;
      hi := RangeFromStart(rows, after, before);
    } else {
      lo, hi := RangeIsContiguous(rows[1..], after, before);
      assert rows[1..][lo..hi] == rows[lo + 1..hi + 1];
      assert forall i :: 0 < i < |rows| ==> rows[i] == rows[1..][i - 1];
      lo, hi := lo + 1, hi + 1;
    }
  }

  lemma TimeOrder()
    ensures TotalPreorder(ByTime)
  {
  }

  /** The order of distinct times is unique: sorting the newest-first rows restores them. */
  lemma SortRestores(rows: seq<Assessment>)
    requires StrictlyAscending(rows)
    ensures Sort(ByTime, Reverse(rows)) == rows
  {
    var r := Reverse(rows);
    TimeOrder();
    SortSorts(ByTime, r);
    SortPermutes(ByTime, r);
    SortKeepsDistinct(ByTime, r);
    forall a ensures a in r <==> a in rows {
      ReverseMembers(rows, a);
    }
    SameSortedRows(Sort(ByTime, r), rows);
  }

  lemma ReverseMembers<T>(s: seq<T>, x: T)
    ensures x in Reverse(s) <==> x in s
  {
    if x in s {
      var i :| 0 <= i < |s| && s[i] == x;
      assert Reverse(s)[|s| - 1 - i] == x;
    }
  }

  lemma FirstIsMember<T>(s: seq<T>)
    requires s != []
    ensures s[0] in s
  {
  }

  lemma FirstIsEarliest(a: seq<Assessment>, j: nat)
    requires j < |a| && Sorted(ByTime, a)
    ensures a[0].timestamp <= a[j].timestamp
  {
    assert j > 0 ==> ByTime(a[0], a[j]);
  }

  /** Two listings of the same rows, each in time order without repeats, are the same listing. */
  lemma {:induction false} SameSortedRows(a: seq<Assessment>, b: seq<Assessment>)
    requires Sorted(ByTime, a) && NoDuplicates(a) && StrictlyAscending(b)
    requires forall x :: x in a <==> x in b
    ensures a == b
  {
    if b == [] {
      if a != [] { FirstIsMember(a); }
    } else {
      assert b[0] in a;
      assert a[0] in b;
      var i :| 0 <= i < |b| && b[i] == a[0];
      var j :| 0 <= j < |a| && a[j] == b[0];
      FirstIsEarliest(a, j);
      assert a[0] == b[0];
      forall x ensures x in a[1..] <==> x in b[1..] {
        TailMembers(a, x);
        TailMembers(b, x);
      }
      SameSortedRows(a[1..], b[1..]);
      assert a == [a[0]] + a[1..] && b == [b[0]] + b[1..];
    }
  }

  /** What a replay shows of a zone is a contiguous window of its history: every row of the closed
      time range, or the most recent of them when there are more than the limit; nothing when the
      range ends before it starts. */
  lemma FetchIsWindow(rows: seq<Assessment>, start: int, end: int) returns (lo: nat, hi: nat)
    requires StrictlyAscending(rows)
    ensures lo <= hi <= |rows| && FetchZone(rows, start, end) == rows[lo..hi] && hi - lo <= 5000
    ensures forall i :: lo <= i < hi ==> start <= rows[i].timestamp <= end
    ensures forall i :: hi <= i < |rows| ==> rows[i].timestamp > end
    ensures lo > 0 && rows[lo - 1].timestamp >= start ==> hi - lo == 5000
  {
    if start <= end {
      var first;
      first, hi := RangeIsContiguous(rows, start - 1, end + 1);
      lo := hi - Min(HISTORY_LIMIT, hi - first);
      FetchTail(rows, start, end, first, hi, lo);
    } else {
      lo, hi := RangeIsContiguous(rows, end, end + 1);
      lo := hi;
      FilterNone(Between(start - 1, end + 1), rows);
      assert Sort(ByTime, []) == [];
    }
  }

  lemma FetchTail(rows: seq<Assessment>, start: int, end: int, first: nat, hi: nat, lo: nat)
    requires StrictlyAscending(rows) && first <= lo <= hi <= |rows| && lo == hi - Min(HISTORY_LIMIT, hi - first)
    requires Filter(Between(start - 1, end + 1), rows) == rows[first..hi]
    ensures FetchZone(rows, start, end) == rows[lo..hi]
  {
    var all := rows[first..hi];
    var n := Min(HISTORY_LIMIT, |all|);
    NewestRestored(all, n);
    assert HistoryByZone(rows, HISTORY_LIMIT, end + 1, start - 1) == Reverse(all)[..n];
    SliceOfSlice(rows, first, lo, hi);
  }

  lemma SliceOfSlice<T>(s: seq<T>, a: nat, b: nat, c: nat)
    requires a <= b <= c <= |s|
    ensures s[a..c][b - a..] == s[b..c]
  {
  }

  /** Taking the newest n rows and sorting them gives the last n in time order. */
  lemma NewestRestored(all: seq<Assessment>, n: nat)
    requires StrictlyAscending(all) && n <= |all|
    ensures Sort(ByTime, Reverse(all)[..n]) == all[|all| - n..]
  {
    ReverseTake(all, n);
    SortRestores(all[|all| - n..]);
  }

  lemma ReverseTake<T>(s: seq<T>, n: nat)
    requires n <= |s|
    ensures Reverse(s)[..n] == Reverse(s[|s| - n..])
  {
  }
}
