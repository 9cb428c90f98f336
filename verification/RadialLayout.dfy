/** `layoutRadial`: concentric rings by undirected distance from the root, each ring sorted by key.
    A placement keeps ring number, index within the ring and ring size; the source turns these
    three into coordinates. */
module RadialLayout {
  import opened Common
  import opened StableSort
  import opened Reachability
  import opened KnowledgeGraph
  import opened QueueSearch

  /** A canvas key, `kind:id`. */
  datatype Key = Key(text: string)

  function KeyFor(n: NodeKey): Key { Key(n.kind + ":" + n.id) }

  function EntityKey(e: GraphEntity): Key { KeyFor(KeyOf(e)) }

  datatype Placement = Placement(key: Key, entity: GraphEntity, ring: nat, index: nat, size: nat)

  // ---------------------------------------------------------------- key order

  predicate LexAtMost(a: string, b: string) {
    if a == [] then true
    else if b == [] then false
    else if a[0] != b[0] then a[0] < b[0]
    else LexAtMost(a[1..], b[1..])
  }

  const KeyAtMost: (Key, Key) -> bool := (a: Key, b: Key) => LexAtMost(a.text, b.text)

  lemma {:induction false} LexTotal(a: string, b: string)
    ensures LexAtMost(a, b) || LexAtMost(b, a)
    ensures LexAtMost(a, b) && LexAtMost(b, a) ==> a == b
  {
    if a != [] && b != [] && a[0] == b[0] {
      LexTotal(a[1..], b[1..]);
      assert a == [a[0]] + a[1..] && b == [b[0]] + b[1..];
    }
  }

  lemma {:induction false} LexTransitive(a: string, b: string, c: string)
    requires LexAtMost(a, b) && LexAtMost(b, c)
    ensures LexAtMost(a, c)
  {
    if a != [] && b != [] && c != [] && a[0] == b[0] == c[0] {
      LexTransitive(a[1..], b[1..], c[1..]);
    }
  }

  lemma KeyOrder()
    ensures TotalPreorder(KeyAtMost) && Antisymmetric(KeyAtMost)
  {
    forall a, b ensures (KeyAtMost(a, b) || KeyAtMost(b, a)) && (KeyAtMost(a, b) && KeyAtMost(b, a) ==> a == b) {
      LexTotal(a.text, b.text);
    }
    forall a, b, c | KeyAtMost(a, b) && KeyAtMost(b, c) ensures KeyAtMost(a, c) {
      LexTransitive(a.text, b.text, c.text);
    }
  }

  // ---------------------------------------------------------------- the graph

  /** `new Map(nodes.map(n => [nodeKey(n), n]))`: a later node with the same key wins. */
  function ByKey(nodes: seq<GraphEntity>): map<Key, GraphEntity> {
    if nodes == [] then map[]
    else ByKey(nodes[..|nodes| - 1])[EntityKey(nodes[|nodes| - 1]) := nodes[|nodes| - 1]]
  }

  predicate Joins(e: GraphEdge, u: Key, v: Key) {
    (KeyFor(e.source) == u && KeyFor(e.target) == v) || (KeyFor(e.source) == v && KeyFor(e.target) == u)
  }

  predicate Joined(edges: seq<GraphEdge>, u: Key, v: Key) {
    exists e :: e in edges && Joins(e, u, v)
  }

  /** The reference graph: the nodes joined to `u` by some edge, whatever its direction. */
  function Neighbors(nodes: seq<GraphEntity>, edges: seq<GraphEdge>): Key -> seq<Key> {
    (u: Key) => Filter((v: Key) => u in ByKey(nodes) && Joined(edges, u, v), Map(EntityKey, nodes))
  }

  lemma {:induction false} ByKeyMembers(nodes: seq<GraphEntity>)
    ensures forall k :: k in ByKey(nodes) <==> k in Map(EntityKey, nodes)
    ensures forall k :: k in ByKey(nodes) ==> ByKey(nodes)[k] in nodes && EntityKey(ByKey(nodes)[k]) == k
  {
    if nodes != [] {
      var front, last := nodes[..|nodes| - 1], nodes[|nodes| - 1];
      ByKeyMembers(front);
      assert nodes == front + [last];
      assert Map(EntityKey, nodes) == Map(EntityKey, front) + [EntityKey(last)];
    }
  }

  lemma NeighborMembers(nodes: seq<GraphEntity>, edges: seq<GraphEdge>, u: Key)
    ensures forall v :: v in Neighbors(nodes, edges)(u) <==> u in ByKey(nodes) && v in ByKey(nodes) && Joined(edges, u, v)
  {
    ByKeyMembers(nodes);
    FilterMembers((v: Key) => u in ByKey(nodes) && Joined(edges, u, v), Map(EntityKey, nodes));
  }

  type Adjacency = map<Key, seq<Key>>

  function AdjFn(adjacency: Adjacency): Key -> seq<Key> {
    (u: Key) => if u in adjacency then adjacency[u] else []
  }

  /** The adjacency map holds, for each node, exactly the nodes joined to it by the edges so far. */
  ghost predicate Adjacent(byKey: map<Key, GraphEntity>, edges: seq<GraphEdge>, adjacency: Adjacency) {
    && (forall u :: u in adjacency <==> u in byKey)
    && (forall u, v :: u in adjacency ==> (v in adjacency[u] <==> v in byKey && Joined(edges, u, v)))
  }

  lemma JoinedStep(edges: seq<GraphEdge>, i: nat, u: Key, v: Key)
    requires i < |edges|
    ensures Joined(edges[..i + 1], u, v) <==> Joined(edges[..i], u, v) || Joins(edges[i], u, v)
  {
    assert edges[..i + 1] == edges[..i] + [edges[i]];
    if Joined(edges[..i], u, v) {
      var e :| e in edges[..i] && Joins(e, u, v);
      assert e in edges[..i + 1];
    }
    if Joins(edges[i], u, v) { assert edges[i] in edges[..i + 1]; }
  }

  /** Recording one edge in both directions, when both ends are nodes. */
  function AddEdge(adjacency: Adjacency, e: GraphEdge): Adjacency {
    var s, t := KeyFor(e.source), KeyFor(e.target);
    if s in adjacency && t in adjacency then
      var half := adjacency[s := Add(adjacency[s], t)];
      half[t := Add(half[t], s)]
    else adjacency
  }

  lemma AdjacentStep(byKey: map<Key, GraphEntity>, edges: seq<GraphEdge>, i: nat, adjacency: Adjacency)
    requires i < |edges| && Adjacent(byKey, edges[..i], adjacency)
    ensures Adjacent(byKey, edges[..i + 1], AddEdge(adjacency, edges[i]))
  {
    var s, t := KeyFor(edges[i].source), KeyFor(edges[i].target);
    var after := AddEdge(adjacency, edges[i]);
    forall u ensures u in after <==> u in byKey {
    }
    forall u, v | u in after ensures v in after[u] <==> v in byKey && Joined(edges[..i + 1], u, v) {
      JoinedStep(edges, i, u, v);
      assert v in adjacency[u] <==> v in byKey && Joined(edges[..i], u, v);
    }
  }

  method EmptyAdjacency(nodes: seq<GraphEntity>) returns (adjacency: Adjacency)
    ensures forall u :: u in adjacency <==> u in Map(EntityKey, nodes)
    ensures forall u :: u in adjacency ==> adjacency[u] == []
  {
    adjacency := map[];
    ghost var keys := Map(EntityKey, nodes);
    for i := 0 to |nodes|
      invariant forall u :: u in adjacency <==> u in keys[..i]
      invariant forall u :: u in adjacency ==> adjacency[u] == []
    {
      adjacency := adjacency[EntityKey(nodes[i]) := []];
      assert keys[..i + 1] == keys[..i] + [keys[i]];
    }
    assert keys[..|nodes|] == keys;
  }

  method BuildAdjacency(nodes: seq<GraphEntity>, edges: seq<GraphEdge>, ghost byKey: map<Key, GraphEntity>) returns (adjacency: Adjacency)
    requires forall k :: k in byKey <==> k in Map(EntityKey, nodes)
    ensures Adjacent(byKey, edges, adjacency)
  {
    adjacency := EmptyAdjacency(nodes);
    for i := 0 to |edges|
      invariant Adjacent(byKey, edges[..i], adjacency)
    {
      AdjacentStep(byKey, edges, i, adjacency);
      adjacency := AddEdge(adjacency, edges[i]);
    }
    assert edges[..|edges|] == edges;
  }

  lemma AdjacencyMembers(nodes: seq<GraphEntity>, edges: seq<GraphEdge>, adjacency: Adjacency, u: Key)
    requires Adjacent(ByKey(nodes), edges, adjacency)
    ensures SameSuccessors(AdjFn(adjacency), Neighbors(nodes, edges), u)
  {
    NeighborMembers(nodes, edges, u);
  }

  /** The adjacency map and the reference graph have the same reachability. */
  lemma AdjacencyReach(nodes: seq<GraphEntity>, edges: seq<GraphEdge>, adjacency: Adjacency, root: Key, dist: map<Key, nat>)
    requires Adjacent(ByKey(nodes), edges, adjacency) && ExactDistances(AdjFn(adjacency), root, dist)
    ensures ExactDistances(Neighbors(nodes, edges), root, dist)
  {
    forall u ensures SameSuccessors(AdjFn(adjacency), Neighbors(nodes, edges), u) {
      AdjacencyMembers(nodes, edges, adjacency, u);
    }
    forall v, k: nat ensures Reaches(Neighbors(nodes, edges), root, v, k) <==> v in dist && dist[v] <= k {
      assert Reaches(AdjFn(adjacency), root, v, k) <==> v in dist && dist[v] <= k;
      WithinCongruence(AdjFn(adjacency), Neighbors(nodes, edges), root, k);
    }
  }

  // ---------------------------------------------------------------- rings

  function AtRing(dist: map<Key, nat>, r: nat): Key -> bool { (k: Key) => k in dist && dist[k] == r }

  /** The rings found along `prefix`, numbered in the order they were found. */
  ghost predicate RingsOf(prefix: seq<Key>, dist: map<Key, nat>, members: map<nat, seq<Key>>, numbers: seq<nat>) {
    && (forall r: nat :: r in members <==> r < |numbers|)
    && (forall i :: 0 <= i < |numbers| ==> numbers[i] == i)
    && (forall r :: r in members ==> members[r] != [] && members[r] == Filter(AtRing(dist, r), prefix))
    && (forall k :: k in prefix ==> k in dist && dist[k] in members)
  }

  lemma RingStep(order: seq<Key>, i: nat, dist: map<Key, nat>, members: map<nat, seq<Key>>, numbers: seq<nat>)
    requires i < |order| && order[i] in dist && RingsOf(order[..i], dist, members, numbers)
    requires dist[order[i]] <= |numbers|
    ensures var k, r := order[i], dist[order[i]];
            if r in members then RingsOf(order[..i + 1], dist, members[r := members[r] + [k]], numbers)
            else RingsOf(order[..i + 1], dist, members[r := [k]], numbers + [r])
  {
    var k, r := order[i], dist[order[i]];
    var before, after := order[..i], order[..i + 1];
    assert after == before + [k];
    forall q ensures Filter(AtRing(dist, q), after) == Filter(AtRing(dist, q), before) + (if q == r then [k] else []) {
      FilterAppend(AtRing(dist, q), before, [k]);
      assert [k][1..] == [];
    }
    if r !in members {
      FilterNone(AtRing(dist, r), before);
    }
  }

  /** A node of ring r > 0 comes after some node of ring r - 1, so rings open in ascending order. */
  lemma EarlierRing(succ: Key -> seq<Key>, root: Key, order: seq<Key>, dist: map<Key, nat>, i: nat) returns (j: nat)
    requires ExactDistances(succ, root, dist) && (forall v :: v in order <==> v in dist) && Ascending(order, dist)
    requires i < |order| && dist[order[i]] > 0
    ensures j < i && dist[order[j]] == dist[order[i]] - 1
  {
    var u := CloserNeighbor(succ, root, dist, order[i]);
    j :| 0 <= j < |order| && order[j] == u;
  }

  lemma NextRingNumber(succ: Key -> seq<Key>, root: Key, order: seq<Key>, dist: map<Key, nat>, i: nat, members: map<nat, seq<Key>>, numbers: seq<nat>)
    requires ExactDistances(succ, root, dist) && (forall v :: v in order <==> v in dist) && Ascending(order, dist)
    requires i < |order| && RingsOf(order[..i], dist, members, numbers)
    ensures dist[order[i]] <= |numbers|
  {
    if dist[order[i]] > 0 {
      var j := EarlierRing(succ, root, order, dist, i);
      assert order[..i][j] == order[j];
    }
  }

  method GroupRings(order: seq<Key>, dist: map<Key, nat>, ghost succ: Key -> seq<Key>, ghost root: Key)
    returns (members: map<nat, seq<Key>>, numbers: seq<nat>)
    requires ExactDistances(succ, root, dist) && (forall v :: v in order <==> v in dist) && Ascending(order, dist)
    ensures RingsOf(order, dist, members, numbers)
  {
    members, numbers := map[], [];
    for i := 0 to |order|
      invariant RingsOf(order[..i], dist, members, numbers)
    {
      var ring := dist[order[i]];
      NextRingNumber(succ, root, order, dist, i, members, numbers);
      RingStep(order, i, dist, members, numbers);
      if ring in members {
        members := members[ring := members[ring] + [order[i]]];
      } else {
        members := members[ring := [order[i]]];
        numbers := numbers + [ring];
      }
    }
    assert order[..|order|] == order;
  }

  /** The keys at distance exactly r, each once, in key order. */
  ghost predicate IsRing(succ: Key -> seq<Key>, root: Key, r: nat, ring: seq<Key>) {
    && ring != [] && Sorted(KeyAtMost, ring) && NoDuplicates(ring)
    && forall v :: v in ring <==> Reaches(succ, root, v, r) && (r > 0 ==> !Reaches(succ, root, v, r - 1))
  }

  lemma SortedRing(succ: Key -> seq<Key>, root: Key, order: seq<Key>, dist: map<Key, nat>, r: nat)
    requires ExactDistances(succ, root, dist) && NoDuplicates(order) && forall v :: v in order <==> v in dist
    requires Filter(AtRing(dist, r), order) != []
    ensures IsRing(succ, root, r, Sort(KeyAtMost, Filter(AtRing(dist, r), order)))
  {
    var ring := Filter(AtRing(dist, r), order);
    KeyOrder();
    FilterMembers(AtRing(dist, r), order);
    FilterDistinct(AtRing(dist, r), order);
    SortSorts(KeyAtMost, ring);
    SortPermutes(KeyAtMost, ring);
    SortKeepsDistinct(KeyAtMost, ring);
  }

  lemma {:induction false} FilterDistinct<T>(p: T -> bool, s: seq<T>)
    requires NoDuplicates(s)
    ensures NoDuplicates(Filter(p, s))
  {
    if s != [] {
      FilterDistinct(p, s[1..]);
      FilterMembers(p, s[1..]);
      assert s[0] !in s[1..];
    }
  }

  // ---------------------------------------------------------------- placement

  predicate KeysIn(byKey: map<Key, GraphEntity>, ring: seq<Key>) { forall k :: k in ring ==> k in byKey }

  function PlaceRing(byKey: map<Key, GraphEntity>, r: nat, ring: seq<Key>): (p: seq<Placement>)
    requires KeysIn(byKey, ring)
    ensures |p| == |ring|
    ensures forall i :: 0 <= i < |p| ==> p[i] == Placement(ring[i], byKey[ring[i]], r, i, |ring|)
  {
    seq(|ring|, i requires 0 <= i < |ring| => Placement(ring[i], byKey[ring[i]], r, i, |ring|))
  }

  /** Ring after ring, from the centre outwards. */
  function PlaceAll(byKey: map<Key, GraphEntity>, rings: seq<seq<Key>>): seq<Placement>
    requires forall i :: 0 <= i < |rings| ==> KeysIn(byKey, rings[i])
  {
    if rings == [] then []
    else PlaceAll(byKey, rings[..|rings| - 1]) + PlaceRing(byKey, |rings| - 1, rings[|rings| - 1])
  }

  /** The rings of `root`, complete: nothing is reachable beyond the last one. */
  ghost predicate AllRings(succ: Key -> seq<Key>, root: Key, rings: seq<seq<Key>>) {
    && rings != []
    && (forall r :: 0 <= r < |rings| ==> IsRing(succ, root, r, rings[r]))
    && (forall v :: Reaches(succ, root, v, |rings|) ==> Reaches(succ, root, v, |rings| - 1))
  }

  /** `out` places the complete sorted rings of `root`, one after the other. */
  ghost predicate PlacesRings(succ: Key -> seq<Key>, root: Key, byKey: map<Key, GraphEntity>, rings: seq<seq<Key>>, out: seq<Placement>) {
    && AllRings(succ, root, rings)
    && (forall r :: 0 <= r < |rings| ==> KeysIn(byKey, rings[r]))
    && out == PlaceAll(byKey, rings)
  }

  /** What `layoutRadial` promises of its result. */
  ghost predicate IsLayout(root: Key, nodes: seq<GraphEntity>, edges: seq<GraphEdge>, out: seq<Placement>) {
    if root !in ByKey(nodes) then out == []
    else exists rings :: PlacesRings(Neighbors(nodes, edges), root, ByKey(nodes), rings, out)
  }

  lemma AdjacencyStaysInside(byKey: map<Key, GraphEntity>, edges: seq<GraphEdge>, adjacency: Adjacency)
    requires Adjacent(byKey, edges, adjacency)
    ensures forall u :: u in byKey.Keys ==> AllIn(AdjFn(adjacency)(u), byKey.Keys)
  {
    forall u, v | u in byKey && v in AdjFn(adjacency)(u) ensures v in byKey {
      assert v in adjacency[u];
    }
  }

  method LayoutRadial(root: Key, nodes: seq<GraphEntity>, edges: seq<GraphEdge>) returns (out: seq<Placement>)
    ensures IsLayout(root, nodes, edges, out)
  {
    var byKey := ByKey(nodes);
    if root !in byKey { return []; }
    ByKeyMembers(nodes);
    var adjacency := BuildAdjacency(nodes, edges, byKey);
    AdjacencyStaysInside(byKey, edges, adjacency);
    var dist, order := Distances(AdjFn(adjacency), root, byKey.Keys);
    AdjacencyReach(nodes, edges, adjacency, root, dist);
    assert KeysIn(byKey, order);
    out := PlaceByDistance(root, byKey, dist, order, Neighbors(nodes, edges));
  }

  /** Grouping, sorting and placing. */
  method PlaceByDistance(root: Key, byKey: map<Key, GraphEntity>, dist: map<Key, nat>, order: seq<Key>, ghost succ: Key -> seq<Key>)
    returns (out: seq<Placement>)
    requires ExactDistances(succ, root, dist) && NoDuplicates(order) && (forall v :: v in order <==> v in dist)
    requires Ascending(order, dist) && KeysIn(byKey, order)
    ensures exists rings :: PlacesRings(succ, root, byKey, rings, out)
  {
    var members, numbers := GroupRings(order, dist, succ, root);
    out := [];
    ghost var rings := [];
    for i := 0 to |numbers|
      invariant RingsPlaced(succ, root, byKey, i, rings, out)
    {
      var ring := numbers[i];
      var sorted := Sort(KeyAtMost, members[ring]);
      RingIsSound(succ, root, byKey, order, dist, members, numbers, i);
      RingsPlacedStep(succ, root, byKey, i, rings, out, sorted);
      rings := rings + [sorted];
      out := out + PlaceRing(byKey, ring, sorted);
    }
    RingsComplete(succ, root, order, dist, members, numbers);
    assert PlacesRings(succ, root, byKey, rings, out);
  }

  /** The first `n` rings have been placed. */
  ghost predicate RingsPlaced(succ: Key -> seq<Key>, root: Key, byKey: map<Key, GraphEntity>, n: nat, rings: seq<seq<Key>>, out: seq<Placement>) {
    && |rings| == n
    && (forall r :: 0 <= r < n ==> IsRing(succ, root, r, rings[r]))
    && (forall r :: 0 <= r < n ==> KeysIn(byKey, rings[r]))
    && out == PlaceAll(byKey, rings)
  }

  lemma RingsPlacedStep(succ: Key -> seq<Key>, root: Key, byKey: map<Key, GraphEntity>, n: nat, rings: seq<seq<Key>>, out: seq<Placement>, ring: seq<Key>)
    requires RingsPlaced(succ, root, byKey, n, rings, out) && IsRing(succ, root, n, ring) && KeysIn(byKey, ring)
    ensures RingsPlaced(succ, root, byKey, n + 1, rings + [ring], out + PlaceRing(byKey, n, ring))
  {
    assert (rings + [ring])[..n] == rings;
  }

  lemma RingIsSound(succ: Key -> seq<Key>, root: Key, byKey: map<Key, GraphEntity>, order: seq<Key>, dist: map<Key, nat>,
                    members: map<nat, seq<Key>>, numbers: seq<nat>, i: nat)
    requires ExactDistances(succ, root, dist) && NoDuplicates(order) && (forall v :: v in order <==> v in dist) && KeysIn(byKey, order)
    requires RingsOf(order, dist, members, numbers) && i < |numbers|
    ensures numbers[i] == i && i in members
    ensures IsRing(succ, root, i, Sort(KeyAtMost, members[i])) && KeysIn(byKey, Sort(KeyAtMost, members[i]))
  {
    SortedRing(succ, root, order, dist, i);
    FilterMembers(AtRing(dist, i), order);
    SortPermutes(KeyAtMost, members[i]);
  }

  lemma RingsComplete(succ: Key -> seq<Key>, root: Key, order: seq<Key>, dist: map<Key, nat>, members: map<nat, seq<Key>>, numbers: seq<nat>)
    requires ExactDistances(succ, root, dist) && (forall v :: v in order <==> v in dist)
    requires RingsOf(order, dist, members, numbers)
    ensures numbers != []
    ensures forall v :: Reaches(succ, root, v, |numbers|) ==> Reaches(succ, root, v, |numbers| - 1)
  {
    assert Reaches(succ, root, root, 0);
    assert root in order && dist[root] in members;
    forall v | Reaches(succ, root, v, |numbers|) ensures Reaches(succ, root, v, |numbers| - 1) {
      assert v in order && dist[v] in members;
    }
  }

  // ---------------------------------------------------------------- what the layout means

  lemma RingMember(succ: Key -> seq<Key>, root: Key, rings: seq<seq<Key>>, r: nat) returns (v: Key)
    requires AllRings(succ, root, rings) && 0 < r < |rings|
    ensures Reaches(succ, root, v, r) && !Reaches(succ, root, v, r - 1)
  {
    v := rings[r][0];
    assert v in rings[r] && IsRing(succ, root, r, rings[r]);
  }

  lemma NotMoreRings(succ: Key -> seq<Key>, succ': Key -> seq<Key>, root: Key, rings: seq<seq<Key>>, rings': seq<seq<Key>>)
    requires AllRings(succ, root, rings) && AllRings(succ', root, rings')
    requires forall v, k: nat :: Reaches(succ, root, v, k) <==> Reaches(succ', root, v, k)
    ensures |rings'| <= |rings|
  {
    if |rings| < |rings'| {
      var v := RingMember(succ', root, rings', |rings|);
    }
  }

  /** The rings depend on reachability alone. */
  lemma RingsUnique(succ: Key -> seq<Key>, succ': Key -> seq<Key>, root: Key, rings: seq<seq<Key>>, rings': seq<seq<Key>>)
    requires AllRings(succ, root, rings) && AllRings(succ', root, rings')
    requires forall v, k: nat :: Reaches(succ, root, v, k) <==> Reaches(succ', root, v, k)
    ensures rings == rings'
  {
    NotMoreRings(succ, succ', root, rings, rings');
    NotMoreRings(succ', succ, root, rings', rings);
    KeyOrder();
    forall r | 0 <= r < |rings| ensures rings[r] == rings'[r] {
      assert IsRing(succ, root, r, rings[r]) && IsRing(succ', root, r, rings'[r]);
      SortedUnique(KeyAtMost, rings[r], rings'[r]);
    }
  }

  /** Nodes with the same key are the same node. */
  ghost predicate DistinctKeys(nodes: seq<GraphEntity>) {
    forall m, n :: m in nodes && n in nodes && EntityKey(m) == EntityKey(n) ==> m == n
  }

  ghost predicate SameElements<T(!new)>(a: seq<T>, b: seq<T>) { forall x :: x in a <==> x in b }

  lemma SameEntry(nodes: seq<GraphEntity>, nodes': seq<GraphEntity>, k: Key)
    requires DistinctKeys(nodes) && SameElements(nodes, nodes')
    ensures k in ByKey(nodes) <==> k in ByKey(nodes')
    ensures k in ByKey(nodes) && k in ByKey(nodes') ==> ByKey(nodes)[k] == ByKey(nodes')[k]
  {
    EntryMeaning(nodes, k);
    EntryMeaning(nodes', k);
  }

  lemma EntryMeaning(nodes: seq<GraphEntity>, k: Key)
    ensures k in ByKey(nodes) <==> exists n :: n in nodes && EntityKey(n) == k
    ensures k in ByKey(nodes) ==> ByKey(nodes)[k] in nodes && EntityKey(ByKey(nodes)[k]) == k
  {
    ByKeyMembers(nodes);
    KeyMembers(nodes, k);
  }

  lemma ByKeyOrderFree(nodes: seq<GraphEntity>, nodes': seq<GraphEntity>)
    requires DistinctKeys(nodes) && SameElements(nodes, nodes')
    ensures ByKey(nodes) == ByKey(nodes')
  {
    var m, m' := ByKey(nodes), ByKey(nodes');
    forall k ensures (k in m <==> k in m') && (k in m && k in m' ==> m[k] == m'[k]) {
      SameEntry(nodes, nodes', k);
    }
    assert m == m';
  }

  lemma KeyMembers(nodes: seq<GraphEntity>, k: Key)
    ensures k in Map(EntityKey, nodes) <==> exists n :: n in nodes && EntityKey(n) == k
  {
    var keys := Map(EntityKey, nodes);
    if k in keys {
      var i :| 0 <= i < |keys| && keys[i] == k;
      assert nodes[i] in nodes && EntityKey(nodes[i]) == k;
    }
    if n :| n in nodes && EntityKey(n) == k {
      var i :| 0 <= i < |nodes| && nodes[i] == n;
      assert keys[i] == k;
    }
  }

  lemma ReachOrderFree(root: Key, nodes: seq<GraphEntity>, edges: seq<GraphEdge>, nodes': seq<GraphEntity>, edges': seq<GraphEdge>)
    requires ByKey(nodes) == ByKey(nodes') && SameElements(edges, edges')
    ensures forall v, k: nat :: Reaches(Neighbors(nodes, edges), root, v, k) <==> Reaches(Neighbors(nodes', edges'), root, v, k)
  {
    forall u, v ensures Joined(edges, u, v) <==> Joined(edges', u, v) {
    }
    forall u ensures SameSuccessors(Neighbors(nodes, edges), Neighbors(nodes', edges'), u) {
      NeighborMembers(nodes, edges, u);
      NeighborMembers(nodes', edges', u);
    }
    forall v, k: nat ensures Reaches(Neighbors(nodes, edges), root, v, k) <==> Reaches(Neighbors(nodes', edges'), root, v, k) {
      WithinCongruence(Neighbors(nodes, edges), Neighbors(nodes', edges'), root, k);
    }
  }

  /** The output, its order included, is unchanged by permuting or repeating edges, and by
      permuting (or repeating) nodes whose keys are distinct. */
  lemma LayoutIgnoresListOrder(root: Key, nodes: seq<GraphEntity>, edges: seq<GraphEdge>, out: seq<Placement>,
                               nodes': seq<GraphEntity>, edges': seq<GraphEdge>, out': seq<Placement>)
    requires IsLayout(root, nodes, edges, out) && IsLayout(root, nodes', edges', out')
    requires DistinctKeys(nodes) && SameElements(nodes, nodes') && SameElements(edges, edges')
    ensures out == out'
  {
    ByKeyOrderFree(nodes, nodes');
    if root in ByKey(nodes) {
      var rings :| PlacesRings(Neighbors(nodes, edges), root, ByKey(nodes), rings, out);
      var rings' :| PlacesRings(Neighbors(nodes', edges'), root, ByKey(nodes'), rings', out');
      ReachOrderFree(root, nodes, edges, nodes', edges');
      RingsUnique(Neighbors(nodes, edges), Neighbors(nodes', edges'), root, rings, rings');
    }
  }

  /** A placement is found in the ring it names. */
  lemma {:induction false} PlacedInRing(byKey: map<Key, GraphEntity>, rings: seq<seq<Key>>, p: Placement)
    requires forall r :: 0 <= r < |rings| ==> KeysIn(byKey, rings[r])
    requires p in PlaceAll(byKey, rings)
    ensures p.ring < |rings| && p.key in rings[p.ring]
  {
    var n := |rings| - 1;
    if p in PlaceAll(byKey, rings[..n]) {
      PlacedInRing(byKey, rings[..n], p);
    } else {
      assert p in PlaceRing(byKey, n, rings[n]);
    }
  }

  /** An edge between two placed nodes joins the same or adjacent rings. */
  lemma EdgeSpansAtMostOneRing(root: Key, nodes: seq<GraphEntity>, edges: seq<GraphEdge>, out: seq<Placement>, p: Placement, q: Placement)
    requires IsLayout(root, nodes, edges, out) && p in out && q in out && Joined(edges, p.key, q.key)
    ensures -1 <= p.ring - q.ring <= 1
  {
    var rings :| PlacesRings(Neighbors(nodes, edges), root, ByKey(nodes), rings, out);
    PlacedInRing(ByKey(nodes), rings, p);
    PlacedInRing(ByKey(nodes), rings, q);
    assert Joined(edges, q.key, p.key);
    NextRingBound(root, nodes, edges, rings, p.ring, q.ring, p.key, q.key);
    NextRingBound(root, nodes, edges, rings, q.ring, p.ring, q.key, p.key);
  }

  /** A node's ring is its shortest undirected distance from the root. */
  lemma RingIsDistance(root: Key, nodes: seq<GraphEntity>, edges: seq<GraphEdge>, out: seq<Placement>, p: Placement, k: nat)
    requires IsLayout(root, nodes, edges, out) && p in out
    ensures Reaches(Neighbors(nodes, edges), root, p.key, k) <==> p.ring <= k
  {
    var succ := Neighbors(nodes, edges);
    var rings :| PlacesRings(succ, root, ByKey(nodes), rings, out);
    PlacedInRing(ByKey(nodes), rings, p);
    assert IsRing(succ, root, p.ring, rings[p.ring]);
    if p.ring <= k {
      WithinMonotone(succ, root, p.ring, k);
    } else if Reaches(succ, root, p.key, k) {
      RingIsLeast(succ, root, p.ring, rings[p.ring], p.key, k);
    }
  }

  lemma NextRingBound(root: Key, nodes: seq<GraphEntity>, edges: seq<GraphEdge>, rings: seq<seq<Key>>, a: nat, b: nat, u: Key, v: Key)
    requires AllRings(Neighbors(nodes, edges), root, rings)
    requires forall r :: 0 <= r < |rings| ==> KeysIn(ByKey(nodes), rings[r])
    requires a < |rings| && b < |rings| && u in rings[a] && v in rings[b] && Joined(edges, u, v)
    ensures b <= a + 1
  {
    var succ := Neighbors(nodes, edges);
    assert IsRing(succ, root, a, rings[a]) && IsRing(succ, root, b, rings[b]);
    NeighborReach(root, nodes, edges, a, u, v);
    RingIsLeast(succ, root, b, rings[b], v, a + 1);
  }

  lemma NeighborReach(root: Key, nodes: seq<GraphEntity>, edges: seq<GraphEdge>, a: nat, u: Key, v: Key)
    requires u in ByKey(nodes) && v in ByKey(nodes) && Joined(edges, u, v)
    requires Reaches(Neighbors(nodes, edges), root, u, a)
    ensures Reaches(Neighbors(nodes, edges), root, v, a + 1)
  {
    NeighborMembers(nodes, edges, u);
    WithinStep(Neighbors(nodes, edges), root, a, u, v);
  }

  lemma RingIsLeast(succ: Key -> seq<Key>, root: Key, r: nat, ring: seq<Key>, v: Key, k: nat)
    requires IsRing(succ, root, r, ring) && v in ring && Reaches(succ, root, v, k)
    ensures r <= k
  {
    if k < r { WithinMonotone(succ, root, k, r - 1); }
  }

  function PlacedKeys(out: seq<Placement>): seq<Key> { Map((p: Placement) => p.key, out) }

  lemma PlacedKeysAppend(a: seq<Placement>, b: seq<Placement>)
    ensures PlacedKeys(a + b) == PlacedKeys(a) + PlacedKeys(b)
  {
  }

  lemma {:induction false} PlacedKeysConcat(byKey: map<Key, GraphEntity>, rings: seq<seq<Key>>)
    requires forall r :: 0 <= r < |rings| ==> KeysIn(byKey, rings[r])
    ensures PlacedKeys(PlaceAll(byKey, rings)) == Concat(rings)
  {
    if rings != [] {
      var front := rings[..|rings| - 1];
      PlacedKeysConcat(byKey, front);
      PlacedKeysAppend(PlaceAll(byKey, front), PlaceRing(byKey, |rings| - 1, rings[|rings| - 1]));
      assert PlacedKeys(PlaceRing(byKey, |rings| - 1, rings[|rings| - 1])) == rings[|rings| - 1];
    }
  }

  lemma DistinctAppend<T>(a: seq<T>, b: seq<T>)
    requires NoDuplicates(a) && NoDuplicates(b) && forall x :: x in a ==> x !in b
    ensures NoDuplicates(a + b)
  {
    forall i, j | 0 <= i < j < |a + b| ensures (a + b)[i] != (a + b)[j] {
      if i < |a| <= j { assert a[i] in a; }
    }
  }

  /** The first n rings hold exactly what is reachable in n - 1 hops, each key once. */
  lemma {:induction false} RingsReach(succ: Key -> seq<Key>, root: Key, rings: seq<seq<Key>>, n: nat)
    requires AllRings(succ, root, rings) && 0 < n <= |rings|
    ensures NoDuplicates(Concat(rings[..n]))
    ensures forall v :: v in Concat(rings[..n]) <==> Reaches(succ, root, v, n - 1)
  {
    assert rings[..n][..n - 1] == rings[..n - 1];
    assert Concat(rings[..n]) == Concat(rings[..n - 1]) + rings[n - 1];
    assert IsRing(succ, root, n - 1, rings[n - 1]);
    if n > 1 {
      RingsReach(succ, root, rings, n - 1);
      WithinMonotone(succ, root, n - 2, n - 1);
      DistinctAppend(Concat(rings[..n - 1]), rings[n - 1]);
    } else {
      assert rings[..0] == [];
      assert Concat(rings[..n]) == rings[0];
    }
  }

  /** Some undirected walk leads from the root to `v`. */
  ghost predicate Connected(root: Key, nodes: seq<GraphEntity>, edges: seq<GraphEdge>, v: Key) {
    exists k: nat :: Reaches(Neighbors(nodes, edges), root, v, k)
  }

  /** Every node connected to the root is placed exactly once, and no other node is. */
  lemma PlacesExactlyTheConnected(root: Key, nodes: seq<GraphEntity>, edges: seq<GraphEdge>, out: seq<Placement>)
    requires IsLayout(root, nodes, edges, out) && root in ByKey(nodes)
    ensures NoDuplicates(PlacedKeys(out))
    ensures forall v :: v in PlacedKeys(out) <==> Connected(root, nodes, edges, v)
  {
    var succ := Neighbors(nodes, edges);
    var rings :| PlacesRings(succ, root, ByKey(nodes), rings, out);
    PlacedKeysConcat(ByKey(nodes), rings);
    assert rings[..|rings|] == rings;
    RingsReach(succ, root, rings, |rings|);
    forall v, k: nat | Reaches(succ, root, v, k) ensures Reaches(succ, root, v, |rings| - 1) {
      if k < |rings| {
        WithinMonotone(succ, root, k, |rings| - 1);
      } else {
        Saturated(succ, root, |rings| - 1, k);
      }
    }
  }

  lemma NothingBeyond(succ: Key -> seq<Key>, root: Key, n: nat)
    requires forall v :: Reaches(succ, root, v, n + 1) ==> Reaches(succ, root, v, n)
    ensures Within(succ, root, n + 1) == Within(succ, root, n)
  {
    WithinMonotone(succ, root, n, n + 1);
    forall v | v in Within(succ, root, n + 1) ensures v in Within(succ, root, n) {
      assert Reaches(succ, root, v, n + 1) && Reaches(succ, root, v, n);
    }
  }

  lemma Saturated(succ: Key -> seq<Key>, root: Key, n: nat, k: nat)
    requires n <= k && forall v :: Reaches(succ, root, v, n + 1) ==> Reaches(succ, root, v, n)
    ensures forall v :: Reaches(succ, root, v, k) ==> Reaches(succ, root, v, n)
  {
    NothingBeyond(succ, root, n);
    WithinSaturates(succ, root, n, k);
  }

  // ---------------------------------------------------------------- the layout in the entities' own fields

  /** `a` is a proper prefix of `b`, or has the smaller character where the two first differ. */
  ghost predicate ComesFirst(a: string, b: string) {
    exists n: nat :: DifferAt(a, b, n) && n < |b| && (n == |a| || a[n] < b[n])
  }

  /** The two texts agree before position `n`, which is the end of one or where they differ. */
  ghost predicate DifferAt(a: string, b: string, n: nat) {
    n <= |a| && n <= |b| && a[..n] == b[..n] && (n < |a| && n < |b| ==> a[n] != b[n])
  }

  lemma {:induction false} LexMeaning(a: string, b: string)
    requires LexAtMost(a, b) && a != b
    ensures ComesFirst(a, b)
  {
    if a == [] || b == [] || a[0] != b[0] {
      assert DifferAt(a, b, 0);
    } else {
      assert a == [a[0]] + a[1..] && b == [b[0]] + b[1..];
      LexMeaning(a[1..], b[1..]);
      var n: nat :| DifferAt(a[1..], b[1..], n) && n < |b[1..]| && (n == |a[1..]| || a[1..][n] < b[1..][n]);
      assert a[..n + 1] == [a[0]] + a[1..][..n] && b[..n + 1] == [b[0]] + b[1..][..n];
      assert DifferAt(a, b, n + 1);
    }
  }

  /** `q` directly follows `p`: in the same ring, or as the first of the next. */
  ghost predicate Follows(p: Placement, q: Placement) {
    if p.index + 1 < p.size then q.ring == p.ring && q.index == p.index + 1 && q.size == p.size
    else q.ring == p.ring + 1 && q.index == 0
  }

  /** Ring after ring, and index after index, from the first of ring 0 to the last of some ring. */
  ghost predicate Consecutive(out: seq<Placement>) {
    && (out != [] ==> out[0].ring == 0 && out[0].index == 0 && out[|out| - 1].index + 1 == out[|out| - 1].size)
    && (forall i :: 0 <= i < |out| ==> out[i].index < out[i].size)
    && forall i :: 0 <= i < |out| - 1 ==> Follows(out[i], out[i + 1])
  }

  lemma {:induction false} PlacedConsecutively(byKey: map<Key, GraphEntity>, rings: seq<seq<Key>>)
    requires forall r :: 0 <= r < |rings| ==> KeysIn(byKey, rings[r]) && rings[r] != []
    ensures Consecutive(PlaceAll(byKey, rings))
    ensures rings != [] ==> |PlaceAll(byKey, rings)| > 0 && PlaceAll(byKey, rings)[|PlaceAll(byKey, rings)| - 1].ring == |rings| - 1
  {
    if rings != [] {
      var n := |rings| - 1;
      PlacedConsecutively(byKey, rings[..n]);
      var inner, last := PlaceAll(byKey, rings[..n]), PlaceRing(byKey, n, rings[n]);
      forall i | 0 <= i < |inner + last| - 1 ensures Follows((inner + last)[i], (inner + last)[i + 1]) {
        if i + 1 < |inner| { assert Follows(inner[i], inner[i + 1]); }
      }
    }
  }

  /** Placements run through the rings in order, each ring in key order, each key once. */
  ghost predicate InOrder(p: Placement, q: Placement) {
    p.ring < q.ring || (p.ring == q.ring && p.index < q.index && ComesFirst(p.key.text, q.key.text))
  }

  lemma RingInOrder(byKey: map<Key, GraphEntity>, r: nat, ring: seq<Key>, i: nat, j: nat)
    requires KeysIn(byKey, ring) && Sorted(KeyAtMost, ring) && NoDuplicates(ring) && i < j < |ring|
    ensures InOrder(PlaceRing(byKey, r, ring)[i], PlaceRing(byKey, r, ring)[j])
  {
    assert KeyAtMost(ring[i], ring[j]) && ring[i] != ring[j];
    LexMeaning(ring[i].text, ring[j].text);
  }

  lemma {:induction false} PlacedInOrder(byKey: map<Key, GraphEntity>, rings: seq<seq<Key>>, i: nat, j: nat)
    requires forall r :: 0 <= r < |rings| ==> KeysIn(byKey, rings[r]) && Sorted(KeyAtMost, rings[r]) && NoDuplicates(rings[r])
    requires i < j < |PlaceAll(byKey, rings)|
    ensures InOrder(PlaceAll(byKey, rings)[i], PlaceAll(byKey, rings)[j])
  {
    var n := |rings| - 1;
    var inner := PlaceAll(byKey, rings[..n]);
    if j < |inner| {
      PlacedInOrder(byKey, rings[..n], i, j);
    } else if i < |inner| {
      PlacedInRing(byKey, rings[..n], inner[i]);
    } else {
      RingInOrder(byKey, n, rings[n], i - |inner|, j - |inner|);
    }
  }

  /** `e` is the last of the nodes whose kind and id read `text`. */
  ghost predicate LastNamed(nodes: seq<GraphEntity>, text: string, e: GraphEntity) {
    exists i :: 0 <= i < |nodes| && nodes[i] == e && e.kind + ":" + e.id == text
             && forall j :: i < j < |nodes| ==> nodes[j].kind + ":" + nodes[j].id != text
  }

  lemma {:induction false} ByKeyIsLast(nodes: seq<GraphEntity>, k: Key)
    ensures k in ByKey(nodes) ==> LastNamed(nodes, k.text, ByKey(nodes)[k])
    ensures k in ByKey(nodes) <==> exists e :: e in nodes && e.kind + ":" + e.id == k.text
  {
    EntryMeaning(nodes, k);
    if nodes != [] {
      var front, last := nodes[..|nodes| - 1], nodes[|nodes| - 1];
      ByKeyIsLast(front, k);
      if EntityKey(last) == k {
        assert nodes[|nodes| - 1] == last;
      } else if k in ByKey(front) {
        LastNamedGrows(nodes, k.text, ByKey(front)[k]);
      }
    }
    forall e | e in nodes ensures EntityKey(e) == k <==> e.kind + ":" + e.id == k.text {
    }
  }

  lemma LastNamedGrows(nodes: seq<GraphEntity>, text: string, e: GraphEntity)
    requires nodes != [] && LastNamed(nodes[..|nodes| - 1], text, e)
    requires nodes[|nodes| - 1].kind + ":" + nodes[|nodes| - 1].id != text
    ensures LastNamed(nodes, text, e)
  {
    var front := nodes[..|nodes| - 1];
    var i :| 0 <= i < |front| && front[i] == e && forall j :: i < j < |front| ==> front[j].kind + ":" + front[j].id != text;
    forall j | i < j < |nodes| ensures nodes[j].kind + ":" + nodes[j].id != text {
      if j < |front| { assert front[j] == nodes[j]; }
    }
    assert nodes[i] == e;
  }

  lemma {:induction false} PlacedEntity(byKey: map<Key, GraphEntity>, rings: seq<seq<Key>>, p: Placement)
    requires forall r :: 0 <= r < |rings| ==> KeysIn(byKey, rings[r])
    requires p in PlaceAll(byKey, rings)
    ensures p.key in byKey && p.entity == byKey[p.key]
  {
    var n := |rings| - 1;
    if p in PlaceAll(byKey, rings[..n]) {
      PlacedEntity(byKey, rings[..n], p);
    } else {
      assert p in PlaceRing(byKey, n, rings[n]);
    }
  }

  /** The layout in the entities' own fields: nothing for a root that no node is named after; otherwise
      the last node of each name, ring after ring, each ring in the order of its names. */
  lemma LayoutInFields(root: Key, nodes: seq<GraphEntity>, edges: seq<GraphEdge>, out: seq<Placement>)
    requires IsLayout(root, nodes, edges, out)
    ensures out == [] <==> forall e :: e in nodes ==> e.kind + ":" + e.id != root.text
    ensures Consecutive(out)
    ensures forall i, j :: 0 <= i < j < |out| ==> InOrder(out[i], out[j])
    ensures forall p :: p in out ==> LastNamed(nodes, p.key.text, p.entity)
  {
    ByKeyIsLast(nodes, root);
    if root in ByKey(nodes) {
      var succ, byKey := Neighbors(nodes, edges), ByKey(nodes);
      var rings :| PlacesRings(succ, root, byKey, rings, out);
      assert forall r :: 0 <= r < |rings| ==> IsRing(succ, root, r, rings[r]);
      PlacedConsecutively(byKey, rings);
      forall i, j | 0 <= i < j < |out| ensures InOrder(out[i], out[j]) {
        PlacedInOrder(byKey, rings, i, j);
      }
      forall p | p in out ensures LastNamed(nodes, p.key.text, p.entity) {
        PlacedEntity(byKey, rings, p);
        ByKeyIsLast(nodes, p.key);
      }
    }
  }

  /** Some edge names both, in either direction. */
  ghost predicate EdgeBetween(edges: seq<GraphEdge>, a: string, b: string) {
    exists e :: e in edges && (EndsRead(e, a, b) || EndsRead(e, b, a))
  }

  ghost predicate EndsRead(e: GraphEdge, a: string, b: string) {
    e.source.kind + ":" + e.source.id == a && e.target.kind + ":" + e.target.id == b
  }

  ghost predicate Named(nodes: seq<GraphEntity>, text: string) { exists e :: e in nodes && e.kind + ":" + e.id == text }

  /** A walk along edges in either direction between names of nodes. */
  ghost predicate NameWalk(nodes: seq<GraphEntity>, edges: seq<GraphEdge>, w: seq<string>) {
    && w != [] && (forall i :: 0 <= i < |w| ==> Named(nodes, w[i]))
    && forall i :: 0 <= i < |w| - 1 ==> EdgeBetween(edges, w[i], w[i + 1])
  }

  lemma NeighborInFields(nodes: seq<GraphEntity>, edges: seq<GraphEdge>, u: Key, v: Key)
    ensures v in Neighbors(nodes, edges)(u) <==> Named(nodes, u.text) && Named(nodes, v.text) && EdgeBetween(edges, u.text, v.text)
  {
    NeighborMembers(nodes, edges, u);
    ByKeyIsLast(nodes, u);
    ByKeyIsLast(nodes, v);
    forall e ensures Joins(e, u, v) <==> EndsRead(e, u.text, v.text) || EndsRead(e, v.text, u.text) {
    }
  }

  lemma KeyWalkIsNameWalk(nodes: seq<GraphEntity>, edges: seq<GraphEdge>, keys: seq<Key>, names: seq<string>)
    requires |keys| == |names| > 0 && (forall i :: 0 <= i < |keys| ==> keys[i].text == names[i]) && Named(nodes, names[0])
    ensures IsWalk(Neighbors(nodes, edges), keys) <==> NameWalk(nodes, edges, names)
  {
    forall i | 0 <= i < |keys| - 1
      ensures keys[i + 1] in Neighbors(nodes, edges)(keys[i])
         <==> Named(nodes, names[i]) && Named(nodes, names[i + 1]) && EdgeBetween(edges, names[i], names[i + 1])
    {
      NeighborInFields(nodes, edges, keys[i], keys[i + 1]);
    }
    if IsWalk(Neighbors(nodes, edges), keys) {
      forall i | 0 <= i < |names| ensures Named(nodes, names[i]) {
        if i > 0 { assert keys[i - 1 + 1] in Neighbors(nodes, edges)(keys[i - 1]); }
      }
    }
  }

  /** A walk of at most `k` edges leads from name `a` to name `b`. */
  ghost predicate NamesLead(nodes: seq<GraphEntity>, edges: seq<GraphEdge>, a: string, b: string, k: nat) {
    exists w :: NameWalk(nodes, edges, w) && w[0] == a && w[|w| - 1] == b && |w| - 1 <= k
  }

  lemma ReachLeads(root: Key, nodes: seq<GraphEntity>, edges: seq<GraphEdge>, v: Key, k: nat)
    requires Named(nodes, root.text) && Reaches(Neighbors(nodes, edges), root, v, k)
    ensures NamesLead(nodes, edges, root.text, v.text, k)
  {
    var keys := WithinWalk(Neighbors(nodes, edges), root, k, v);
    var w := seq(|keys|, i requires 0 <= i < |keys| => keys[i].text);
    KeyWalkIsNameWalk(nodes, edges, keys, w);
  }

  lemma LeadsReach(root: Key, nodes: seq<GraphEntity>, edges: seq<GraphEdge>, v: Key, w: seq<string>, k: nat)
    requires NameWalk(nodes, edges, w) && w[0] == root.text && w[|w| - 1] == v.text && |w| - 1 <= k
    ensures Reaches(Neighbors(nodes, edges), root, v, k)
  {
    var keys := seq(|w|, i requires 0 <= i < |w| => Key(w[i]));
    KeyWalkIsNameWalk(nodes, edges, keys, w);
    WalkWithin(Neighbors(nodes, edges), keys);
    WithinMonotone(Neighbors(nodes, edges), root, |w| - 1, k);
  }

  /** A placement's ring is the least number of edges, taken in either direction, that lead to it. */
  lemma RingInFields(root: Key, nodes: seq<GraphEntity>, edges: seq<GraphEdge>, out: seq<Placement>, p: Placement, k: nat)
    requires IsLayout(root, nodes, edges, out) && p in out
    ensures p.ring <= k <==> NamesLead(nodes, edges, root.text, p.key.text, k)
  {
    RingIsDistance(root, nodes, edges, out, p, k);
    ByKeyIsLast(nodes, root);
    assert Named(nodes, root.text);
    if p.ring <= k { ReachLeads(root, nodes, edges, p.key, k); }
    forall w | NameWalk(nodes, edges, w) && w[0] == root.text && w[|w| - 1] == p.key.text && |w| - 1 <= k ensures p.ring <= k {
      LeadsReach(root, nodes, edges, p.key, w, k);
    }
  }

  /** Whatever such a walk leads to is placed. */
  lemma WalksArePlaced(root: Key, nodes: seq<GraphEntity>, edges: seq<GraphEdge>, out: seq<Placement>, w: seq<string>)
    requires IsLayout(root, nodes, edges, out) && NameWalk(nodes, edges, w) && w[0] == root.text
    ensures exists p :: p in out && p.key.text == w[|w| - 1]
  {
    ByKeyIsLast(nodes, root);
    var v := Key(w[|w| - 1]);
    LeadsReach(root, nodes, edges, v, w, |w| - 1);
    PlacesExactlyTheConnected(root, nodes, edges, out);
    assert v in PlacedKeys(out);
    var i :| 0 <= i < |PlacedKeys(out)| && PlacedKeys(out)[i] == v;
    assert out[i] in out;
  }
}
