/** Composite node ids: parts joined by a separator, and the parsers that split them again. */
module CompositeIds {
  import opened Common

  const SEPARATOR: char := '|'

  predicate Free(s: string) { SEPARATOR !in s }

  /** `str.split(separator)`: always at least one part. */
  function Split(s: string): (parts: seq<string>)
    ensures parts != []
  {
    if s == [] then [[]]
    else
      var rest := Split(s[1..]);
      if s[0] == SEPARATOR then [[]] + rest else [[s[0]] + rest[0]] + rest[1..]
  }

  function Join(parts: seq<string>): string
    requires parts != []
  {
    if |parts| == 1 then parts[0] else parts[0] + [SEPARATOR] + Join(parts[1..])
  }

  ghost predicate AllFree(parts: seq<string>) { forall i :: 0 <= i < |parts| ==> Free(parts[i]) }

  /** Splitting yields separator-free parts, and joining them gives the id back. */
  lemma {:induction false} SplitThenJoin(s: string)
    ensures AllFree(Split(s)) && Join(Split(s)) == s
  {
    if s != [] {
      SplitThenJoin(s[1..]);
      var rest := Split(s[1..]);
      assert s == [s[0]] + s[1..];
      if s[0] == SEPARATOR {
        assert ([[]] + rest)[1..] == rest;
      } else {
        assert Free([s[0]] + rest[0]);
        assert ([[s[0]] + rest[0]] + rest[1..])[1..] == rest[1..];
      }
    }
  }

  /** A separator-free first part is split off whole. */
  lemma {:induction false} SplitOffFirst(a: string, s: string)
    requires Free(a)
    ensures Split(a + [SEPARATOR] + s) == [a] + Split(s)
  {
    var whole := a + [SEPARATOR] + s;
    if a == [] {
      assert whole[0] == SEPARATOR && whole[1..] == s;
    } else {
      assert whole[0] == a[0] && whole[1..] == a[1..] + [SEPARATOR] + s;
      SplitOffFirst(a[1..], s);
      assert [a[0]] + a[1..] == a;
    }
  }

  lemma {:induction false} SplitFree(a: string)
    requires Free(a)
    ensures Split(a) == [a]
  {
    if a != [] {
      SplitFree(a[1..]);
      assert [a[0]] + a[1..] == a;
    }
  }

  /** Joining and splitting are inverse exactly on separator-free parts. */
  lemma {:induction false} JoinThenSplit(parts: seq<string>)
    requires parts != []
    ensures Split(Join(parts)) == parts <==> AllFree(parts)
  {
    if AllFree(parts) {
      JoinThenSplitFree(parts);
    } else {
      SplitThenJoin(Join(parts));
    }
  }

  lemma {:induction false} JoinThenSplitFree(parts: seq<string>)
    requires parts != [] && AllFree(parts)
    ensures Split(Join(parts)) == parts
  {
    if |parts| == 1 {
      SplitFree(parts[0]);
    } else {
      JoinThenSplitFree(parts[1..]);
      SplitOffFirst(parts[0], Join(parts[1..]));
    }
  }

  // ---------------------------------------------------------------- the printers and parsers

  /** triggered_agent_id, recommendation_id, forecast_id and counterfactual_id. */
  function PairId(a: string, b: string): string { a + [SEPARATOR] + b }

  /** business_impact_id. */
  function TripleId(a: string, b: string, c: string): string { a + [SEPARATOR] + b + [SEPARATOR] + c }

  function ParsePair(id: string): Option<(string, string)> {
    var parts := Split(id);
    if |parts| == 2 then Some((parts[0], parts[1])) else None
  }

  function ParseTriple(id: string): Option<(string, string, string)> {
    var parts := Split(id);
    if |parts| == 3 then Some((parts[0], parts[1], parts[2])) else None
  }

  lemma PairIsJoin(a: string, b: string)
    ensures PairId(a, b) == Join([a, b])
  {
    assert [a, b][1..] == [b];
  }

  lemma TripleIsJoin(a: string, b: string, c: string)
    ensures TripleId(a, b, c) == Join([a, b, c])
  {
    PairIsJoin(b, c);
    assert [a, b, c][1..] == [b, c];
    assert a + [SEPARATOR] + (b + [SEPARATOR] + c) == a + [SEPARATOR] + b + [SEPARATOR] + c;
  }

  /** The pair parser undoes the pair printer exactly when both parts are free of the separator. */
  lemma PairRoundTrip(a: string, b: string)
    ensures ParsePair(PairId(a, b)) == Some((a, b)) <==> Free(a) && Free(b)
  {
    PairIsJoin(a, b);
    JoinThenSplit([a, b]);
    var parts := Split(PairId(a, b));
    assert |parts| == 2 && parts[0] == a && parts[1] == b ==> parts == [a, b];
    assert AllFree([a, b]) <==> Free([a, b][0]) && Free([a, b][1]);
  }

  lemma TripleRoundTrip(a: string, b: string, c: string)
    ensures ParseTriple(TripleId(a, b, c)) == Some((a, b, c)) <==> Free(a) && Free(b) && Free(c)
  {
    TripleIsJoin(a, b, c);
    JoinThenSplit([a, b, c]);
    var parts := Split(TripleId(a, b, c));
    assert |parts| == 3 && parts[0] == a && parts[1] == b && parts[2] == c ==> parts == [a, b, c];
    assert AllFree([a, b, c]) <==> Free([a, b, c][0]) && Free([a, b, c][1]) && Free([a, b, c][2]);
  }

  /** Whatever parses was printed from exactly those parts, so an id is traced back to one pair. */
  lemma ParsedWasPrinted(id: string)
    ensures ParsePair(id).Some? ==> id == PairId(ParsePair(id).value.0, ParsePair(id).value.1)
    ensures ParseTriple(id).Some? ==> id == TripleId(ParseTriple(id).value.0, ParseTriple(id).value.1, ParseTriple(id).value.2)
    ensures !(ParsePair(id).Some? && ParseTriple(id).Some?)
  {
    SplitThenJoin(id);
    var parts := Split(id);
    if |parts| == 2 {
      assert parts == [parts[0], parts[1]];
      PairIsJoin(parts[0], parts[1]);
    } else if |parts| == 3 {
      assert parts == [parts[0], parts[1], parts[2]];
      TripleIsJoin(parts[0], parts[1], parts[2]);
    }
  }

  /** Two-part and three-part ids of separator-free parts are never confused. */
  lemma PairIsNotTriple(a: string, b: string, c: string, d: string, e: string)
    requires Free(a) && Free(b) && Free(c) && Free(d) && Free(e)
    ensures ParseTriple(PairId(a, b)).None? && ParsePair(TripleId(c, d, e)).None?
    ensures PairId(a, b) != TripleId(c, d, e)
  {
    PairRoundTrip(a, b);
    TripleRoundTrip(c, d, e);
  }

  /** A part that holds the separator: the pair it was printed into reads as a triple. */
  lemma SeparatorInPartConfuses()
    ensures ParsePair(PairId("a|b", "c")) == None
    ensures ParseTriple(PairId("a|b", "c")) == Some(("a", "b", "c"))
  {
    assert PairId("a|b", "c") == TripleId("a", "b", "c");
    TripleRoundTrip("a", "b", "c");
  }
}
