/** Breadth-first distances with a first-in-first-out queue and a distance map that is iterated in
    insertion order, as `layoutRadial` computes them. */
module QueueSearch {
  import opened Common
  import opened Reachability

  /** `order` lists the keys of `dist` as they were inserted; the first `h` have been dequeued. */
  ghost predicate Searching<K(!new)>(succ: K -> seq<K>, root: K, order: seq<K>, dist: map<K, nat>, h: nat) {
    && h <= |order| && NoDuplicates(order)
    && (forall v :: v in order <==> v in dist)
    && root in dist && dist[root] == 0
    && (forall v :: v in dist ==> v in Within(succ, root, dist[v]))
    && Ascending(order, dist)
    && (forall i, j :: h <= i < |order| && 0 <= j < |order| ==> dist[order[j]] <= dist[order[i]] + 1)
    && (forall i :: 0 <= i < h ==> Settled(succ, dist, order[i]))
  }

  /** Distances never fall along the insertion order. */
  ghost predicate Ascending<K>(order: seq<K>, dist: map<K, nat>)
    requires forall v :: v in order ==> v in dist
  {
    forall i, j :: 0 <= i < j < |order| ==> dist[order[i]] <= dist[order[j]]
  }

  /** Every successor of `u` has a distance at most one more. */
  ghost predicate Settled<K>(succ: K -> seq<K>, dist: map<K, nat>, u: K)
    requires u in dist
  {
    forall v :: v in succ(u) ==> v in dist && dist[v] <= dist[u] + 1
  }

  /** The distances are the exact hop counts. */
  ghost predicate ExactDistances<K(!new)>(succ: K -> seq<K>, root: K, dist: map<K, nat>) {
    forall v, k: nat :: Reaches(succ, root, v, k) <==> v in dist && dist[v] <= k
  }

  /** `found`, each at distance `d`, appended to the search. */
  ghost predicate Appended<K(!new)>(order: seq<K>, dist: map<K, nat>, found: seq<K>, d: nat, order': seq<K>, dist': map<K, nat>) {
    && order' == order + found
    && NoDuplicates(order')
    && (forall v :: v in order' <==> v in dist')
    && (forall v :: v in dist ==> v in dist' && dist'[v] == dist[v])
    && (forall v :: v in found ==> v in dist' && dist'[v] == d)
  }

  /** The inner loop: undiscovered neighbours get the next distance and join the queue. */
  method Enqueue<K(==, !new)>(neighbors: seq<K>, d: nat, order: seq<K>, dist: map<K, nat>, queue: seq<K>)
    returns (order': seq<K>, dist': map<K, nat>, queue': seq<K>, ghost found: seq<K>)
    requires NoDuplicates(order) && forall v :: v in order <==> v in dist
    ensures Appended(order, dist, found, d, order', dist') && queue' == queue + found
    ensures forall v :: v in found ==> v in neighbors
    ensures forall v :: v in neighbors ==> v in dist'
  {
    order', dist', queue', found := order, dist, queue, [];
    for j := 0 to |neighbors|
      invariant Appended(order, dist, found, d, order', dist') && queue' == queue + found
      invariant forall v :: v in found ==> v in neighbors
      invariant forall i :: 0 <= i < j ==> neighbors[i] in dist'
    {
      var neighbor := neighbors[j];
      if neighbor !in dist' {
        dist' := dist'[neighbor := d];
        order', queue', found := order' + [neighbor], queue' + [neighbor], found + [neighbor];
      }
    }
  }

  /** Dequeuing order[h] and appending its undiscovered neighbours keeps the search sound. */
  lemma DequeueStep<K(!new)>(succ: K -> seq<K>, root: K, order: seq<K>, dist: map<K, nat>, h: nat,
                             found: seq<K>, order': seq<K>, dist': map<K, nat>)
    requires Searching(succ, root, order, dist, h) && h < |order|
    requires Appended(order, dist, found, dist[order[h]] + 1, order', dist')
    requires forall v :: v in found ==> v in succ(order[h])
    requires forall v :: v in succ(order[h]) ==> v in dist'
    ensures Searching(succ, root, order', dist', h + 1)
  {
    var u := order[h];
    var d := dist[u];
    assert u in dist;
    forall i | 0 <= i < |order'|
      ensures dist'[order'[i]] == if i < |order| then dist[order[i]] else d + 1
    {
      if i >= |order| { assert order'[i] == found[i - |order|]; }
    }
    forall v | v in dist' ensures v in Within(succ, root, dist'[v]) && dist'[v] <= d + 1 {
      var i :| 0 <= i < |order'| && order'[i] == v;
      if i < |order| {
        assert dist[order[i]] <= dist[order[h]] + 1;
      } else {
        assert v == found[i - |order|];
        WithinStep(succ, root, d, u, v);
      }
    }
    forall i | 0 <= i < h + 1 ensures Settled(succ, dist', order'[i]) {
      if i < h { assert Settled(succ, dist, order[i]); }
    }
  }

  /** When everything discovered is settled, no walk beats a recorded distance. */
  lemma {:induction false} SettledCovers<K(!new)>(succ: K -> seq<K>, root: K, dist: map<K, nat>, k: nat, v: K)
    requires root in dist && dist[root] == 0
    requires forall u :: u in dist ==> Settled(succ, dist, u)
    requires v in Within(succ, root, k)
    ensures v in dist && dist[v] <= k
  {
    if k > 0 && v !in Within(succ, root, k - 1) {
      var u, j :| u in Within(succ, root, k - 1) && 0 <= j < |succ(u)| && succ(u)[j] == v;
      SettledCovers(succ, root, dist, k - 1, u);
      assert Settled(succ, dist, u) && v in succ(u);
    } else if k > 0 {
      SettledCovers(succ, root, dist, k - 1, v);
    }
  }

  lemma SearchExact<K(!new)>(succ: K -> seq<K>, root: K, order: seq<K>, dist: map<K, nat>)
    requires Searching(succ, root, order, dist, |order|)
    ensures ExactDistances(succ, root, dist)
  {
    forall u | u in dist ensures Settled(succ, dist, u) {
      var i :| 0 <= i < |order| && order[i] == u;
    }
    forall v, k: nat ensures Reaches(succ, root, v, k) <==> v in dist && dist[v] <= k {
      if v in Within(succ, root, k) { SettledCovers(succ, root, dist, k, v); }
      if v in dist && dist[v] <= k { WithinMonotone(succ, root, dist[v], k); }
    }
  }

  /** A node at distance d + 1 has a predecessor at distance d. */
  lemma CloserNeighbor<K(!new)>(succ: K -> seq<K>, root: K, dist: map<K, nat>, v: K) returns (u: K)
    requires ExactDistances(succ, root, dist) && v in dist && dist[v] > 0
    ensures u in dist && dist[u] == dist[v] - 1 && v in succ(u)
  {
    var d := dist[v] - 1;
    assert Reaches(succ, root, v, d + 1) && !Reaches(succ, root, v, d);
    var j;
    u, j :| u in Within(succ, root, d) && 0 <= j < |succ(u)| && succ(u)[j] == v;
    assert Reaches(succ, root, u, d) && Reaches(succ, root, u, dist[u]);
    WithinStep(succ, root, dist[u], u, v);
    assert Reaches(succ, root, v, dist[u] + 1);
  }

  ghost predicate AllIn<K>(s: seq<K>, universe: set<K>) {
    forall v :: v in s ==> v in universe
  }

  /** One turn of the search loop. */
  method Dequeue<K(==, !new)>(succ: K -> seq<K>, ghost root: K, dist: map<K, nat>, order: seq<K>, queue: seq<K>,
                              ghost h: nat, ghost universe: set<K>)
    returns (dist': map<K, nat>, order': seq<K>, queue': seq<K>)
    requires Searching(succ, root, order, dist, h) && queue == order[h..] && queue != []
    requires AllIn(order, universe) && forall u :: u in universe ==> AllIn(succ(u), universe)
    ensures Searching(succ, root, order', dist', h + 1) && queue' == order'[h + 1..]
    ensures AllIn(order', universe)
    ensures universe - ToSet(order'[..h + 1]) < universe - ToSet(order[..h])
  {
    var current := queue[0];
    assert current == order[h] && AllIn(succ(current), universe);
    queue' := queue[1..];
    ghost var found;
    order', dist', queue', found := Enqueue(succ(current), dist[current] + 1, order, dist, queue');
    DequeueStep(succ, root, order, dist, h, found, order', dist');
    Progress(order, order', found, h, universe);
  }

  /** The whole search. It ends because every dequeued node is a new one of `universe`. */
  method Distances<K(==, !new)>(succ: K -> seq<K>, root: K, ghost universe: set<K>) returns (dist: map<K, nat>, order: seq<K>)
    requires root in universe && forall u :: u in universe ==> AllIn(succ(u), universe)
    ensures ExactDistances(succ, root, dist)
    ensures NoDuplicates(order) && (forall v :: v in order <==> v in dist) && Ascending(order, dist)
    ensures AllIn(order, universe)
  {
    dist, order := map[root := 0], [root];
    var queue := [root];
    ghost var h := 0;
    while queue != []
      invariant Searching(succ, root, order, dist, h)
      invariant queue == order[h..]
      invariant AllIn(order, universe)
      decreases universe - ToSet(order[..h])
    {
      dist, order, queue := Dequeue(succ, root, dist, order, queue, h, universe);
      h := h + 1;
    }
    SearchExact(succ, root, order, dist);
  }

  lemma Progress<K>(order: seq<K>, order': seq<K>, found: seq<K>, h: nat, universe: set<K>)
    requires h < |order| && order' == order + found && NoDuplicates(order)
    requires AllIn(order, universe) && AllIn(found, universe)
    ensures universe - ToSet(order'[..h + 1]) < universe - ToSet(order[..h])
    ensures order[h..][1..] + found == order'[h + 1..]
    ensures AllIn(order', universe)
  {
    assert order'[..h + 1] == order[..h] + [order[h]];
    assert order[h] !in order[..h];
    assert order[h] in universe - ToSet(order[..h]);
  }
}
