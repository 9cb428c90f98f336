/** Small shared vocabulary: optional values and order-preserving sequence operations. */
module Common {

  datatype Option<+T> = None | Some(value: T)

  function Max(a: int, b: int): int { if a < b then b else a }

  function Min(a: int, b: int): int { if a < b then a else b }

  /** The elements satisfying `p`, in their original order. */
  function Filter<T>(p: T -> bool, s: seq<T>): seq<T> {
    if s == [] then []
    else if p(s[0]) then [s[0]] + Filter(p, s[1..])
    else Filter(p, s[1..])
  }

  /** `f` applied to every element, in order. */
  function Map<T, U>(f: T -> U, s: seq<T>): (r: seq<U>)
    ensures |r| == |s|
    ensures forall i :: 0 <= i < |s| ==> r[i] == f(s[i])
  {
    if s == [] then [] else [f(s[0])] + Map(f, s[1..])
  }

  function Reverse<T>(s: seq<T>): (r: seq<T>)
    ensures |r| == |s|
    ensures forall i :: 0 <= i < |s| ==> r[i] == s[|s| - 1 - i]
  {
    seq(|s|, i requires 0 <= i < |s| => s[|s| - 1 - i])
  }

  /** The lists of `lists`, one after the other. */
  function Concat<T>(lists: seq<seq<T>>): seq<T> {
    if lists == [] then [] else Concat(lists[..|lists| - 1]) + lists[|lists| - 1]
  }

  lemma ConcatMapStep<T, U>(f: T -> seq<U>, s: seq<T>)
    requires s != []
    ensures Concat(Map(f, s)) == Concat(Map(f, s[..|s| - 1])) + f(s[|s| - 1])
  {
    assert Map(f, s)[..|s| - 1] == Map(f, s[..|s| - 1]);
  }

  /** `add` on an insertion-ordered set. */
  function Add<T(==)>(s: seq<T>, x: T): seq<T> { if x in s then s else s + [x] }

  function ToSet<T(==)>(s: seq<T>): set<T> { set x | x in s }

  ghost predicate NoDuplicates<T>(s: seq<T>) {
    forall i, j :: 0 <= i < j < |s| ==> s[i] != s[j]
  }

  /** A Python slice `s[:n]`, where a negative `n` counts from the end. */
  function PrefixSlice<T>(s: seq<T>, n: int): seq<T> {
    if n >= 0 then s[..Min(n, |s|)] else s[..Max(0, |s| + n)]
  }

  lemma PrefixSet<T>(s: seq<T>, j: nat)
    requires j < |s|
    ensures ToSet(s[..j + 1]) == ToSet(s[..j]) + {s[j]}
  {
    assert s[..j + 1] == s[..j] + [s[j]];
  }

  lemma {:induction false} FilterAppend<T>(p: T -> bool, a: seq<T>, b: seq<T>)
    ensures Filter(p, a + b) == Filter(p, a) + Filter(p, b)
  {
    if a == [] {
      assert a + b == b;
    } else {
      assert (a + b)[1..] == a[1..] + b;
      FilterAppend(p, a[1..], b);
    }
  }

  lemma {:induction false} FilterMembers<T>(p: T -> bool, s: seq<T>)
    ensures forall x :: x in Filter(p, s) <==> x in s && p(x)
    ensures |Filter(p, s)| <= |s|
  {
    if s != [] { FilterMembers(p, s[1..]); }
  }

  /** The positions before `n` of the elements that satisfy `p`. */
  ghost function Positions<T>(p: T -> bool, s: seq<T>, n: nat): set<int>
    requires n <= |s|
  {
    set i | 0 <= i < n && p(s[i])
  }

  /** As many are selected as there are such positions. */
  lemma {:induction false} FilterCount<T>(p: T -> bool, s: seq<T>, n: nat)
    requires n <= |s|
    ensures |Filter(p, s[..n])| == |Positions(p, s, n)|
  {
    if n == 0 {
      assert Positions(p, s, 0) == {};
    } else {
      FilterCount(p, s, n - 1);
      assert s[..n] == s[..n - 1] + [s[n - 1]];
      FilterAppend(p, s[..n - 1], [s[n - 1]]);
      assert [s[n - 1]][1..] == [];
      assert Positions(p, s, n) == if p(s[n - 1]) then Positions(p, s, n - 1) + {n - 1} else Positions(p, s, n - 1);
    }
  }

  /** `t` holds the elements of `s` at the positions `at`, which ascend. */
  ghost predicate PicksInOrder<T>(s: seq<T>, at: seq<int>, t: seq<T>) {
    && |at| == |t| && (forall k :: 0 <= k < |at| ==> 0 <= at[k] < |s| && t[k] == s[at[k]])
    && forall j, k :: 0 <= j < k < |at| ==> at[j] < at[k]
  }

  /** Where the selected elements stand. */
  lemma {:induction false} FilterPicks<T>(p: T -> bool, s: seq<T>, n: nat) returns (at: seq<int>)
    requires n <= |s|
    ensures PicksInOrder(s, at, Filter(p, s[..n]))
    ensures forall j :: j in at <==> 0 <= j < n && p(s[j])
  {
    at := [];
    if n > 0 {
      at := FilterPicks(p, s, n - 1);
      assert s[..n] == s[..n - 1] + [s[n - 1]];
      FilterAppend(p, s[..n - 1], [s[n - 1]]);
      assert [s[n - 1]][1..] == [];
      if p(s[n - 1]) {
        assert forall k :: 0 <= k < |at| ==> at[k] in at;
        at := at + [n - 1];
      }
    }
  }

  lemma {:induction false} FilterNone<T>(p: T -> bool, s: seq<T>)
    requires forall x :: x in s ==> !p(x)
    ensures Filter(p, s) == []
  {
    if s != [] {
      assert s[0] in s;
      FilterNone(p, s[1..]);
    }
  }

  lemma {:induction false} CardinalityOfDistinct<T>(s: seq<T>)
    requires NoDuplicates(s)
    ensures |ToSet(s)| == |s|
  {
    if s == [] {
      assert ToSet(s) == {};
    } else {
      var front, last := s[..|s| - 1], s[|s| - 1];
      CardinalityOfDistinct(front);
      assert s == front + [last];
      assert ToSet(s) == ToSet(front) + {last};
      assert last !in ToSet(front);
    }
  }
}
