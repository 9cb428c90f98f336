/** Durations, sums and weighted means, shared by foresight, fusion and analytics. */
module Measures {

  const MICROSECONDS_PER_MINUTE := 60_000_000

  function Minutes(d: int): real { d as real / MICROSECONDS_PER_MINUTE as real }

  function Sum(s: seq<real>): real { if s == [] then 0.0 else Sum(s[..|s| - 1]) + s[|s| - 1] }

  lemma SumSnoc(s: seq<real>, x: real)
    ensures Sum(s + [x]) == Sum(s) + x
  {
    assert (s + [x])[..|s|] == s;
  }

  /** `w` lies between `lo` and `hi` times `t`: what a weighted sum of terms in [lo, hi] does. */
  ghost predicate Spans(lo: real, t: real, w: real, hi: real) { lo * t <= w <= hi * t }

  /** One more term `x` of weight `v`. */
  lemma SpansStep(lo: real, hi: real, t: real, w: real, v: real, x: real, t': real, w': real)
    requires Spans(lo, t, w, hi) && lo <= x <= hi && v >= 0.0
    requires t' == t + v && w' == w + v * x
    ensures Spans(lo, t', w', hi)
  {
    assert lo * t' == lo * t + lo * v && hi * t' == hi * t + hi * v;
    assert lo * v <= x * v <= hi * v;
  }

  lemma QuotientBounds(w: real, t: real, lo: real, hi: real)
    requires t > 0.0 && Spans(lo, t, w, hi)
    ensures lo <= w / t <= hi
  {
    assert lo == lo * t / t && hi == hi * t / t;
  }

  /** `q` is `w` divided by the positive `t`. */
  ghost predicate IsQuotient(w: real, t: real, q: real) { t > 0.0 && q * t == w }

  lemma QuotientTimes(w: real, t: real, q: real)
    requires t > 0.0 && q == w / t
    ensures IsQuotient(w, t, q)
  {
  }

  /** A sum over a listing, and over the same listing with its first term apart. */
  lemma {:induction false} SumFirst(s: seq<real>)
    requires s != []
    ensures Sum(s) == s[0] + Sum(s[1..])
  {
    if |s| > 1 {
      var n := |s| - 1;
      SumFirst(s[..n]);
      assert s[..n][1..] == s[1..][..n - 1];
    }
  }
}
