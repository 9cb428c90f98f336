/** `detectOscillation`: counting the reversals of severity direction in a tier history. */
module Oscillation {
  import opened Common
  import opened Tiers

  function Sign(x: int): int { if x > 0 then 1 else if x < 0 then -1 else 0 }

  /** The direction of one step, if it has one. */
  function Step(a: int, b: int): seq<int> { if a == b then [] else [Sign(b - a)] }

  /** The successive directions of a rank sequence, flat steps left out. */
  function Directions(r: seq<int>): seq<int> {
    if |r| <= 1 then [] else Directions(r[..|r| - 1]) + Step(r[|r| - 2], r[|r| - 1])
  }

  /** How often neighbouring directions differ. */
  function Turns(d: seq<int>): nat {
    if |d| <= 1 then 0 else Turns(d[..|d| - 1]) + if d[|d| - 2] != d[|d| - 1] then 1 else 0
  }

  function Reversals(r: seq<int>): nat { Turns(Directions(r)) }

  function Ranks(tiers: seq<Tier>): seq<int> { Map((t: Tier) => Rank(t), tiers) }

  /** The scan: the history arrives newest first and is read oldest first. */
  method DetectOscillation(newestFirst: seq<Tier>) returns (detected: bool, reversals: nat)
    ensures reversals == Reversals(Ranks(Reverse(newestFirst)))
    ensures detected <==> reversals >= 2
  {
    var ranks := Ranks(Reverse(newestFirst));
    reversals := 0;
    if ranks == [] { return false, 0; }
    var lastDirection := 0;
    for i := 1 to |ranks|
      invariant reversals == Reversals(ranks[..i]) && lastDirection == Last(Directions(ranks[..i]))
    {
      ScanStep(ranks, i);
      var direction := Sign(ranks[i] - ranks[i - 1]);
      if direction != 0 {
        if lastDirection != 0 && direction != lastDirection { reversals := reversals + 1; }
        lastDirection := direction;
      }
    }
    assert ranks[..|ranks|] == ranks;
    detected := reversals >= 2;
  }

  /** The last direction, 0 before there is one. */
  function Last(d: seq<int>): int { if d == [] then 0 else d[|d| - 1] }

  lemma DirectionsStep(r: seq<int>, i: nat)
    requires 0 < i < |r|
    ensures Directions(r[..i + 1]) == if r[i] == r[i - 1] then Directions(r[..i]) else Directions(r[..i]) + [Sign(r[i] - r[i - 1])]
  {
    assert r[..i + 1][..i] == r[..i];
  }

  /** One turn of the scan. */
  lemma ScanStep(r: seq<int>, i: nat)
    requires 0 < i < |r|
    ensures var direction, last := Sign(r[i] - r[i - 1]), Last(Directions(r[..i]));
            && Last(Directions(r[..i + 1])) == (if direction != 0 then direction else last)
            && Reversals(r[..i + 1]) == Reversals(r[..i]) + if direction != 0 && last != 0 && direction != last then 1 else 0
  {
    DirectionsStep(r, i);
    DirectionsNonZero(r[..i]);
    TurnsSnoc(Directions(r[..i]), Sign(r[i] - r[i - 1]));
  }

  lemma {:induction false} DirectionsNonZero(r: seq<int>)
    ensures forall i :: 0 <= i < |Directions(r)| ==> Directions(r)[i] == 1 || Directions(r)[i] == -1
  {
    if |r| > 1 { DirectionsNonZero(r[..|r| - 1]); }
  }

  lemma TurnsSnoc(d: seq<int>, x: int)
    ensures Turns(d + [x]) == Turns(d) + if d != [] && d[|d| - 1] != x then 1 else 0
  {
    assert (d + [x])[..|d|] == d;
  }

  // ---------------------------------------------------------------- splitting

  /** Directions of a concatenation: of each part, with the step between them in the middle. */
  lemma {:induction false} DirectionsAppend(a: seq<int>, b: seq<int>)
    requires a != [] && b != []
    ensures Directions(a + b) == Directions(a) + Step(a[|a| - 1], b[0]) + Directions(b)
  {
    var n := |b| - 1;
    assert (a + b)[..|a + b| - 1] == a + b[..n];
    if n == 0 {
      assert a + b[..0] == a;
    } else {
      DirectionsAppend(a, b[..n]);
      assert (a + b)[|a + b| - 2] == b[n - 1];
    }
  }

  function Differ(a: seq<int>, b: seq<int>): nat { if a != [] && b != [] && a[|a| - 1] != b[0] then 1 else 0 }

  lemma {:induction false} TurnsAppend(a: seq<int>, b: seq<int>)
    ensures Turns(a + b) == Turns(a) + Differ(a, b) + Turns(b)
  {
    if b == [] {
      assert a + b == a;
    } else {
      var front, x := b[..|b| - 1], b[|b| - 1];
      TurnsAppend(a, front);
      AppendLast(a, b);
      TurnsSnoc(a + front, x);
      TurnsSnoc(front, x);
      if front == [] { assert a + front == a; }
    }
  }

  lemma AppendLast<T>(a: seq<T>, b: seq<T>)
    requires b != []
    ensures a + b == (a + b[..|b| - 1]) + [b[|b| - 1]] && b == b[..|b| - 1] + [b[|b| - 1]]
  {
  }

  // ---------------------------------------------------------------- reading backwards

  function Negate(d: seq<int>): seq<int> { Map((x: int) => -x, d) }

  /** Read backwards, the directions come backwards and negated. */
  lemma {:induction false} DirectionsBackwards(r: seq<int>)
    ensures Directions(Reverse(r)) == Reverse(Negate(Directions(r)))
  {
    if |r| > 1 {
      var n := |r| - 1;
      var front, x, y := r[..n], r[n - 1], r[n];
      DirectionsBackwards(front);
      assert Reverse(r) == [y] + Reverse(front);
      DirectionsAppend([y], Reverse(front));
      assert Reverse(front)[0] == x;
      assert Step(y, x) == Negate(Step(x, y));
      ReverseNegateAppend(Directions(front), Step(x, y));
    }
  }

  lemma ReverseNegateAppend(a: seq<int>, b: seq<int>)
    requires |b| <= 1
    ensures Reverse(Negate(a + b)) == Negate(b) + Reverse(Negate(a))
  {
    var l, r := Reverse(Negate(a + b)), Negate(b) + Reverse(Negate(a));
    forall i | 0 <= i < |l| ensures l[i] == r[i] {
    }
  }

  lemma {:induction false} TurnsBackwards(d: seq<int>)
    ensures Turns(Reverse(Negate(d))) == Turns(d)
  {
    if d != [] {
      var n := |d| - 1;
      var front, x := d[..n], d[n];
      TurnsBackwards(front);
      assert d == front + [x];
      ReverseNegateAppend(front, [x]);
      TurnsAppend(Negate([x]), Reverse(Negate(front)));
      TurnsSnoc(front, x);
    }
  }

  /** The count is the same read forwards or backwards. */
  lemma ReversalsSymmetric(r: seq<int>)
    ensures Reversals(Reverse(r)) == Reversals(r)
  {
    DirectionsBackwards(r);
    TurnsBackwards(Directions(r));
  }

  // ---------------------------------------------------------------- repeating a tick

  /** Repeating the tick where two parts meet changes nothing. */
  lemma RepeatBetween(a: seq<int>, x: int, b: seq<int>)
    ensures Directions((a + [x]) + ([x] + b)) == Directions((a + [x]) + b)
  {
    DirectionsAppend(a + [x], [x] + b);
    if b == [] {
      assert [x] + b == [x] && (a + [x]) + b == a + [x];
    } else {
      DirectionsAppend(a + [x], b);
      DirectionsAppend([x], b);
      assert Step(x, ([x] + b)[0]) == [];
      Regroup(Directions(a + [x]), Step(x, b[0]), Directions(b));
    }
  }

  lemma Regroup<T>(a: seq<T>, b: seq<T>, c: seq<T>)
    ensures a + [] + ([] + b + c) == a + b + c
  {
  }

  /** Repeating any tick leaves the count as it was. */
  lemma RepeatingATick(r: seq<int>, i: nat)
    requires i < |r|
    ensures Reversals(r[..i + 1] + r[i..]) == Reversals(r)
  {
    RepeatBetween(r[..i], r[i], r[i + 1..]);
    assert r[..i + 1] == r[..i] + [r[i]] && r[i..] == [r[i]] + r[i + 1..];
    assert r == (r[..i] + [r[i]]) + r[i + 1..];
  }

  // ---------------------------------------------------------------- monotone histories

  ghost predicate Rising(r: seq<int>) { forall i, j :: 0 <= i < j < |r| ==> r[i] <= r[j] }

  ghost predicate Falling(r: seq<int>) { forall i, j :: 0 <= i < j < |r| ==> r[i] >= r[j] }

  ghost predicate AllAre(d: seq<int>, x: int) { forall i :: 0 <= i < |d| ==> d[i] == x }

  lemma {:induction false} RisingDirections(r: seq<int>)
    ensures AllAre(Directions(r), 1) <==> Rising(r)
  {
    if |r| > 1 {
      var n := |r| - 1;
      RisingDirections(r[..n]);
      AllAppend(Directions(r[..n]), Step(r[n - 1], r[n]), 1);
      StepSign(r[n - 1], r[n]);
      LastRise(r, n);
    }
  }

  lemma {:induction false} FallingDirections(r: seq<int>)
    ensures AllAre(Directions(r), -1) <==> Falling(r)
  {
    if |r| > 1 {
      var n := |r| - 1;
      FallingDirections(r[..n]);
      AllAppend(Directions(r[..n]), Step(r[n - 1], r[n]), -1);
      StepSign(r[n - 1], r[n]);
      LastFall(r, n);
    }
  }

  lemma StepSign(a: int, b: int)
    ensures AllAre(Step(a, b), 1) <==> a <= b
    ensures AllAre(Step(a, b), -1) <==> a >= b
  {
    if a != b { assert Step(a, b)[0] == Sign(b - a); }
  }

  lemma AllAppend(a: seq<int>, b: seq<int>, x: int)
    ensures AllAre(a + b, x) <==> AllAre(a, x) && AllAre(b, x)
  {
    if AllAre(a + b, x) {
      assert forall i :: 0 <= i < |a| ==> a[i] == (a + b)[i];
      assert forall i :: 0 <= i < |b| ==> b[i] == (a + b)[|a| + i];
    }
  }

  lemma LastRise(r: seq<int>, n: nat)
    requires 0 < n < |r| && |r| == n + 1
    ensures Rising(r) <==> Rising(r[..n]) && r[n - 1] <= r[n]
  {
  }

  lemma LastFall(r: seq<int>, n: nat)
    requires 0 < n < |r| && |r| == n + 1
    ensures Falling(r) <==> Falling(r[..n]) && r[n - 1] >= r[n]
  {
  }

  lemma {:induction false} NoTurns(d: seq<int>)
    requires d != []
    ensures Turns(d) == 0 <==> AllAre(d, d[0])
  {
    var n := |d| - 1;
    if n > 0 {
      NoTurns(d[..n]);
      assert d == d[..n] + [d[n]];
      AllAppend(d[..n], [d[n]], d[0]);
    }
  }

  /** No reversal at all exactly when the history only rises or only falls. */
  lemma NoReversalsIffMonotone(r: seq<int>)
    ensures Reversals(r) == 0 <==> Rising(r) || Falling(r)
  {
    var d := Directions(r);
    RisingDirections(r);
    FallingDirections(r);
    DirectionsNonZero(r);
    if d != [] { NoTurns(d); }
  }

  // ---------------------------------------------------------------- reversals by position

  /** Position `j` is the last before `i` at which the history moved. */
  ghost predicate LastMove(r: seq<int>, i: int, j: int) {
    0 < j < i <= |r| && r[j] != r[j - 1] && forall k :: j < k < i ==> r[k] == r[k - 1]
  }

  /** At position `i` the history moves against its last move. */
  ghost predicate TurnsAt(r: seq<int>, i: int) {
    0 < i < |r| && r[i] != r[i - 1] && exists j :: LastMove(r, i, j) && (r[j - 1] < r[j] <==> r[i] < r[i - 1])
  }

  ghost function Turning(r: seq<int>): int -> bool { i => TurnsAt(r, i) }

  ghost function Before(p: int -> bool, n: nat): set<int> { set i | 0 < i < n && p(i) }

  ghost function TurnsBefore(r: seq<int>, n: nat): set<int> { Before(Turning(r), n) }

  lemma BeforeGrows(p: int -> bool, n: nat)
    ensures |Before(p, n + 1)| == |Before(p, n)| + if n > 0 && p(n) then 1 else 0
    ensures n <= 1 ==> Before(p, n) == {}
  {
    assert Before(p, n + 1) == if n > 0 && p(n) then Before(p, n) + {n} else Before(p, n);
  }

  /** The last direction is that of the last move, and 0 as long as nothing has moved. */
  lemma {:induction false} LastDirection(r: seq<int>, n: nat) returns (j: int)
    requires 0 < n <= |r|
    ensures Last(Directions(r[..n])) == 0 ==> forall k :: 0 < k < n ==> r[k] == r[k - 1]
    ensures Last(Directions(r[..n])) != 0 ==> LastMove(r, n, j) && Last(Directions(r[..n])) == if r[j - 1] < r[j] then 1 else -1
  {
    j := 0;
    if n > 1 {
      j := LastDirection(r, n - 1);
      DirectionsStep(r, n - 1);
      DirectionsNonZero(r[..n - 1]);
      if r[n - 1] != r[n - 2] { j := n - 1; }
    }
  }

  lemma LastMoveUnique(r: seq<int>, i: int, j: int, k: int)
    requires LastMove(r, i, j) && LastMove(r, i, k)
    ensures j == k
  {
  }

  /** The scan's count is the number of positions at which the history turns. */
  lemma {:induction false} ReversalsCountTurns(r: seq<int>, n: nat)
    requires n <= |r|
    ensures Reversals(r[..n]) == |TurnsBefore(r, n)|
  {
    BeforeGrows(Turning(r), n);
    if n > 1 {
      ReversalsCountTurns(r, n - 1);
      ScanStep(r, n - 1);
      TurnMeaning(r, n - 1);
      BeforeGrows(Turning(r), n - 1);
    }
  }

  lemma TurnMeaning(r: seq<int>, i: nat)
    requires 0 < i < |r|
    ensures var direction, last := Sign(r[i] - r[i - 1]), Last(Directions(r[..i]));
            direction != 0 && last != 0 && direction != last <==> TurnsAt(r, i)
  {
    var j := LastDirection(r, i);
    if TurnsAt(r, i) {
      var k :| LastMove(r, i, k) && (r[k - 1] < r[k] <==> r[i] < r[i - 1]);
      if Last(Directions(r[..i])) != 0 { LastMoveUnique(r, i, j, k); }
    }
  }

  /** Moves are judged by severity. */
  lemma RanksMoveBySeverity(tiers: seq<Tier>, i: nat, j: nat)
    requires i < |tiers| && j < |tiers|
    ensures Ranks(tiers)[i] < Ranks(tiers)[j] <==> Milder(tiers[i], tiers[j])
    ensures Ranks(tiers)[i] == Ranks(tiers)[j] <==> tiers[i] == tiers[j]
  {
    RankIsSeverity(tiers[i], tiers[j]);
  }
}
