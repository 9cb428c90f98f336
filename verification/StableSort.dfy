/** The stable sort that Python's `list.sort`/`sorted` and JavaScript's `Array.prototype.sort`
    promise, as a function of the sequence, with the facts every caller relies on. */
module StableSort {
  import opened Common

  ghost predicate TotalPreorder<T(!new)>(le: (T, T) -> bool) {
    && (forall a, b :: le(a, b) || le(b, a))
    && (forall a, b, c :: le(a, b) && le(b, c) ==> le(a, c))
  }

  ghost predicate Antisymmetric<T(!new)>(le: (T, T) -> bool) {
    forall a, b :: le(a, b) && le(b, a) ==> a == b
  }

  ghost predicate Sorted<T>(le: (T, T) -> bool, s: seq<T>) {
    forall i, j :: 0 <= i < j < |s| ==> le(s[i], s[j])
  }

  /** `x` placed before the first element it may precede. */
  function Insert<T>(le: (T, T) -> bool, x: T, s: seq<T>): seq<T> {
    if s == [] || le(x, s[0]) then [x] + s else [s[0]] + Insert(le, x, s[1..])
  }

  function Sort<T>(le: (T, T) -> bool, s: seq<T>): seq<T> {
    if s == [] then [] else Insert(le, s[0], Sort(le, s[1..]))
  }

  lemma {:induction false} InsertPermutes<T>(le: (T, T) -> bool, x: T, s: seq<T>)
    ensures multiset(Insert(le, x, s)) == multiset{x} + multiset(s)
  {
    if s == [] || le(x, s[0]) {
    } else {
      InsertPermutes(le, x, s[1..]);
      assert s == [s[0]] + s[1..];
    }
  }

  /** Sorting only rearranges. */
  lemma {:induction false} SortPermutes<T>(le: (T, T) -> bool, s: seq<T>)
    ensures multiset(Sort(le, s)) == multiset(s)
    ensures |Sort(le, s)| == |s|
    ensures forall x :: x in Sort(le, s) <==> x in s
  {
    if s != [] {
      SortPermutes(le, s[1..]);
      InsertPermutes(le, s[0], Sort(le, s[1..]));
      assert s == [s[0]] + s[1..];
    }
    assert |multiset(Sort(le, s))| == |Sort(le, s)|;
    assert forall x :: x in Sort(le, s) <==> x in multiset(Sort(le, s));
  }

  lemma {:induction false} InsertSorted<T(!new)>(le: (T, T) -> bool, x: T, s: seq<T>)
    requires TotalPreorder(le) && Sorted(le, s)
    ensures Sorted(le, Insert(le, x, s))
  {
    if s == [] {
    } else if le(x, s[0]) {
      forall j | 0 <= j < |s| ensures le(x, s[j]) {
        assert le(s[0], s[j]);
      }
    } else {
      InsertSorted(le, x, s[1..]);
      InsertPermutes(le, x, s[1..]);
      var r := Insert(le, x, s[1..]);
      forall j | 0 <= j < |r| ensures le(s[0], r[j]) {
        assert r[j] in multiset(r);
        assert r[j] == x || r[j] in s[1..];
      }
    }
  }

  /** The result is in order. */
  lemma {:induction false} SortSorts<T(!new)>(le: (T, T) -> bool, s: seq<T>)
    requires TotalPreorder(le)
    ensures Sorted(le, Sort(le, s))
  {
    if s != [] {
      SortSorts(le, s[1..]);
      InsertSorted(le, s[0], Sort(le, s[1..]));
    }
  }

  /** A sequence already in order is left as it is. */
  lemma {:induction false} SortOfSorted<T(!new)>(le: (T, T) -> bool, s: seq<T>)
    requires TotalPreorder(le) && Sorted(le, s)
    ensures Sort(le, s) == s
  {
    if s != [] {
      SortOfSorted(le, s[1..]);
      assert |s| > 1 ==> le(s[0], s[1]);
    }
  }

  lemma {:induction false} InsertFilter<T(!new)>(le: (T, T) -> bool, p: T -> bool, x: T, s: seq<T>)
    requires TotalPreorder(le) && Sorted(le, s)
    ensures Filter(p, Insert(le, x, s)) == if p(x) then Insert(le, x, Filter(p, s)) else Filter(p, s)
  {
    if s == [] {
    } else if le(x, s[0]) {
      assert ([x] + s)[1..] == s;
      FilterMembers(p, s);
      var f := Filter(p, s);
      if f != [] {
        assert f[0] in s;
        var k :| 0 <= k < |s| && s[k] == f[0];
        assert k == 0 || le(s[0], s[k]);
        assert le(x, f[0]);
      }
    } else {
      InsertFilter(le, p, x, s[1..]);
      var r := Insert(le, x, s[1..]);
      assert ([s[0]] + r)[1..] == r;
    }
  }

  /** Stability: sorting commutes with selecting any subset of the elements. */
  lemma {:induction false} SortFilter<T(!new)>(le: (T, T) -> bool, p: T -> bool, s: seq<T>)
    requires TotalPreorder(le)
    ensures Filter(p, Sort(le, s)) == Sort(le, Filter(p, s))
  {
    if s != [] {
      SortFilter(le, p, s[1..]);
      SortSorts(le, s[1..]);
      InsertFilter(le, p, s[0], Sort(le, s[1..]));
    }
  }

  /** Under a total order the sorted arrangement of a set of distinct elements is unique. */
  lemma {:induction false} SortedUnique<T(!new)>(le: (T, T) -> bool, a: seq<T>, b: seq<T>)
    requires TotalPreorder(le) && Antisymmetric(le)
    requires Sorted(le, a) && Sorted(le, b)
    requires NoDuplicates(a) && NoDuplicates(b)
    requires forall x :: x in a <==> x in b
    ensures a == b
  {
    if a == [] {
      assert forall i :: 0 <= i < |b| ==> b[i] in a;
    } else {
      assert a[0] in b;
      assert b[0] in a;
      assert le(a[0], b[0]) && le(b[0], a[0]);
      forall x ensures x in a[1..] <==> x in b[1..] {
        TailMembers(a, x);
        TailMembers(b, x);
      }
      SortedUnique(le, a[1..], b[1..]);
      assert a == [a[0]] + a[1..];
      assert b == [b[0]] + b[1..];
    }
  }

  lemma TailMembers<T>(s: seq<T>, x: T)
    requires s != [] && NoDuplicates(s)
    ensures x in s[1..] <==> x in s && x != s[0]
  {
    if x in s && x != s[0] {
      var i :| 0 <= i < |s| && s[i] == x;
      assert s[1..][i - 1] == x;
    }
    if x in s[1..] {
      var i :| 0 <= i < |s[1..]| && s[1..][i] == x;
      assert s[i + 1] == x;
    }
  }

  lemma {:induction false} SortKeepsDistinct<T(!new)>(le: (T, T) -> bool, s: seq<T>)
    requires NoDuplicates(s)
    ensures NoDuplicates(Sort(le, s))
  {
    SortPermutes(le, s);
    MultisetDistinct(s);
    DistinctFromMultiset(Sort(le, s));
  }

  lemma {:induction false} MultisetDistinct<T>(s: seq<T>)
    requires NoDuplicates(s)
    ensures forall x :: multiset(s)[x] <= 1
  {
    if s != [] {
      MultisetDistinct(s[1..]);
      assert s == [s[0]] + s[1..];
      assert s[0] !in s[1..];
    }
  }

  lemma {:induction false} DistinctFromMultiset<T>(s: seq<T>)
    requires forall x :: multiset(s)[x] <= 1
    ensures NoDuplicates(s)
  {
    if s != [] {
      assert s == [s[0]] + s[1..];
      assert multiset(s) == multiset{s[0]} + multiset(s[1..]);
      assert forall x :: multiset(s[1..])[x] <= multiset(s)[x];
      DistinctFromMultiset(s[1..]);
      assert multiset(s[1..])[s[0]] == 0;
    }
  }

  /** Cutting a sorted arrangement anywhere separates what precedes from what follows. */
  lemma SortCut<T(!new)>(le: (T, T) -> bool, s: seq<T>, n: nat)
    requires TotalPreorder(le) && n <= |Sort(le, s)|
    ensures multiset(Sort(le, s)[..n]) + multiset(Sort(le, s)[n..]) == multiset(s)
    ensures Sorted(le, Sort(le, s)[..n])
    ensures forall i, j :: 0 <= i < n <= j < |Sort(le, s)| ==> le(Sort(le, s)[i], Sort(le, s)[j])
    ensures forall x :: x in Sort(le, s)[..n] ==> x in s
  {
    var sorted := Sort(le, s);
    SortSorts(le, s);
    SortPermutes(le, s);
    assert sorted == sorted[..n] + sorted[n..];
  }

  /** Sorting commutes with a mapping that keeps the order. */
  lemma {:induction false} SortMap<T(!new), U>(le: (T, T) -> bool, le': (U, U) -> bool, f: T -> U, s: seq<T>)
    requires forall a, b :: le(a, b) == le'(f(a), f(b))
    ensures Map(f, Sort(le, s)) == Sort(le', Map(f, s))
  {
    if s != [] {
      SortMap(le, le', f, s[1..]);
      InsertMap(le, le', f, s[0], Sort(le, s[1..]));
    }
  }

  lemma {:induction false} InsertMap<T(!new), U>(le: (T, T) -> bool, le': (U, U) -> bool, f: T -> U, x: T, s: seq<T>)
    requires forall a, b :: le(a, b) == le'(f(a), f(b))
    ensures Map(f, Insert(le, x, s)) == Insert(le', f(x), Map(f, s))
  {
    if s == [] || le(x, s[0]) {
      assert ([x] + s)[1..] == s;
    } else {
      InsertMap(le, le', f, x, s[1..]);
      assert ([s[0]] + Insert(le, x, s[1..]))[1..] == Insert(le, x, s[1..]);
      assert Map(f, s)[1..] == Map(f, s[1..]);
    }
  }
}
