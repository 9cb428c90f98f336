/** `GraphService.get_subgraph`: a breadth-first expansion bounded by depth and by node count. */
module Subgraph {
  import opened Common
  import opened Reachability
  import opened KnowledgeGraph
  import opened BreadthFirstOrder

  type Pair = (GraphEdge, GraphEntity)

  function EdgeList(pairs: seq<Pair>): seq<GraphEdge> { Map((p: Pair) => p.0, pairs) }

  /** The pairs that `get_neighbors` delivers for each node of `keys`, node after node. */
  function PairsOf(nb: NeighborFn, keys: seq<NodeKey>): seq<Pair> {
    if keys == [] then [] else PairsOf(nb, keys[..|keys| - 1]) + nb(keys[|keys| - 1])
  }

  function EdgesOf(nb: NeighborFn, keys: seq<NodeKey>): seq<GraphEdge> { EdgeList(PairsOf(nb, keys)) }

  function Take<T>(s: seq<T>, n: nat): seq<T> { s[..Min(n, |s|)] }

  /** How many nodes the cap admits: the root is always kept. */
  function Cap(maxNodes: int): nat { Max(1, maxNodes) }

  /** The entity that `pairs` delivers first for `key`. */
  function FirstFor(pairs: seq<Pair>, key: NodeKey): Option<GraphEntity> {
    if pairs == [] then None
    else
      var earlier, last := FirstFor(pairs[..|pairs| - 1], key), pairs[|pairs| - 1].1;
      if earlier.Some? then earlier else if KeyOf(last) == key then Some(last) else None
  }

  lemma FirstForStep(pairs: seq<Pair>, p: Pair, key: NodeKey)
    ensures FirstFor(pairs + [p], key)
         == if FirstFor(pairs, key).Some? then FirstFor(pairs, key) else if KeyOf(p.1) == key then Some(p.1) else None
  {
    assert (pairs + [p])[..|pairs|] == pairs;
  }

  /** The node dictionary after `pairs` have been delivered: its keys in insertion order, and for each
      key the root or the entity delivered first for it. */
  ghost predicate IsTable(pairs: seq<Pair>, root: GraphEntity, order: seq<NodeKey>, nodes: map<NodeKey, GraphEntity>) {
    && (forall k :: k in order <==> k in nodes)
    && KeyOf(root) in nodes && nodes[KeyOf(root)] == root
    && (forall k :: k in nodes && k != KeyOf(root) ==> FirstFor(pairs, k) == Some(nodes[k]))
  }

  /** Nothing delivered was left out. */
  ghost predicate HoldsAll(pairs: seq<Pair>, nodes: map<NodeKey, GraphEntity>) {
    forall k :: FirstFor(pairs, k).Some? ==> k in nodes
  }

  /** A table, complete unless the cap has been met. */
  ghost predicate Tabled(pairs: seq<Pair>, root: GraphEntity, order: seq<NodeKey>, nodes: map<NodeKey, GraphEntity>, maxNodes: int) {
    IsTable(pairs, root, order, nodes) && (|order| < maxNodes ==> HoldsAll(pairs, nodes))
  }

  /** A pair for a node already held, or beyond the cap, changes nothing. */
  lemma TableKeeps(pairs: seq<Pair>, root: GraphEntity, order: seq<NodeKey>, nodes: map<NodeKey, GraphEntity>, maxNodes: int, p: Pair)
    requires Tabled(pairs, root, order, nodes, maxNodes) && (KeyOf(p.1) in nodes || |order| >= maxNodes)
    ensures Tabled(pairs + [p], root, order, nodes, maxNodes)
  {
    forall k ensures FirstFor(pairs + [p], k)
                  == if FirstFor(pairs, k).Some? then FirstFor(pairs, k) else if KeyOf(p.1) == k then Some(p.1) else None {
      FirstForStep(pairs, p, k);
    }
  }

  /** A pair for a new node under the cap: nothing delivered it before. */
  lemma TableGrows(pairs: seq<Pair>, root: GraphEntity, order: seq<NodeKey>, nodes: map<NodeKey, GraphEntity>, maxNodes: int, p: Pair)
    requires Tabled(pairs, root, order, nodes, maxNodes) && KeyOf(p.1) !in nodes && |order| < maxNodes
    ensures Tabled(pairs + [p], root, order + [KeyOf(p.1)], nodes[KeyOf(p.1) := p.1], maxNodes)
  {
    forall k ensures FirstFor(pairs + [p], k)
                  == if FirstFor(pairs, k).Some? then FirstFor(pairs, k) else if KeyOf(p.1) == k then Some(p.1) else None {
      FirstForStep(pairs, p, k);
    }
  }

  lemma PrefixStep<T>(s: seq<T>, j: nat)
    requires j < |s|
    ensures s[..j + 1] == s[..j] + [s[j]]
    ensures s[j..][0] == s[j] && s[j..][1..] == s[j + 1..]
  {
  }

  /** The neighbours of one frontier node: every edge is appended, a new node only under the cap. */
  method ExpandNode(nb: NeighborFn, node: NodeKey, order: seq<NodeKey>, nodes: map<NodeKey, GraphEntity>,
                    next: seq<NodeKey>, edges: seq<GraphEdge>, maxNodes: int, ghost root: GraphEntity, ghost base: seq<NodeKey>, ghost past: seq<Pair>)
    returns (order': seq<NodeKey>, nodes': map<NodeKey, GraphEntity>, next': seq<NodeKey>, edges': seq<GraphEdge>)
    requires |order| < maxNodes && Tabled(past, root, order, nodes, maxNodes) && order == base + next
    ensures Tabled(past + nb(node), root, order', nodes', maxNodes)
    ensures order' == base + next'
    ensures order' == Take(Absorb(order, Succ(nb, node)), maxNodes)
    ensures edges' == edges + EdgeList(nb(node))
  {
    order', nodes', next', edges' := order, nodes, next, edges;
    var pairs := nb(node);
    ghost var keys := Succ(nb, node);
    AbsorbExtends(order, keys);
    assert keys[0..] == keys && past + pairs[..0] == past;
    for j := 0 to |pairs|
      invariant Tabled(past + pairs[..j], root, order', nodes', maxNodes)
      invariant order' == base + next' && edges' == edges + EdgeList(pairs)[..j]
      invariant Absorbing(order, keys, j, order', maxNodes)
    {
      var (edge, neighbor) := pairs[j];
      edges' := edges' + [edge];
      var key := KeyOf(neighbor);
      PairStep(past, pairs, j);
      PrefixStep(EdgeList(pairs), j);
      AbsorbingStep(order, keys, j, order', maxNodes);
      if key !in nodes' {
        if |order'| >= maxNodes {
          TableKeeps(past + pairs[..j], root, order', nodes', maxNodes, pairs[j]);
          continue;
        }
        TableGrows(past + pairs[..j], root, order', nodes', maxNodes, pairs[j]);
        nodes' := nodes'[key := neighbor];
        order' := order' + [key];
        next' := next' + [key];
      } else {
        TableKeeps(past + pairs[..j], root, order', nodes', maxNodes, pairs[j]);
      }
    }
    assert pairs[..|pairs|] == pairs && EdgeList(pairs)[..|pairs|] == EdgeList(pairs);
    AbsorbingDone(order, keys, order', maxNodes);
  }

  lemma PairStep(past: seq<Pair>, pairs: seq<Pair>, j: nat)
    requires j < |pairs|
    ensures past + pairs[..j + 1] == past + pairs[..j] + [pairs[j]]
  {
  }

  /** `found` is what absorbing the first `j` keys under the cap has made of `order`. */
  ghost predicate Absorbing(order: seq<NodeKey>, keys: seq<NodeKey>, j: nat, found: seq<NodeKey>, maxNodes: int) {
    && j <= |keys|
    && found <= Absorb(order, keys) && |found| <= maxNodes
    && (|found| < maxNodes ==> Absorb(found, keys[j..]) == Absorb(order, keys))
  }

  lemma AbsorbingStep(order: seq<NodeKey>, keys: seq<NodeKey>, j: nat, found: seq<NodeKey>, maxNodes: int)
    requires Absorbing(order, keys, j, found, maxNodes) && j < |keys|
    ensures keys[j] in found || |found| >= maxNodes ==> Absorbing(order, keys, j + 1, found, maxNodes)
    ensures keys[j] !in found && |found| < maxNodes ==> Absorbing(order, keys, j + 1, found + [keys[j]], maxNodes)
  {
    PrefixStep(keys, j);
    if keys[j] !in found && |found| < maxNodes { AbsorbExtends(found + [keys[j]], keys[j + 1..]); }
  }

  lemma AbsorbingDone(order: seq<NodeKey>, keys: seq<NodeKey>, found: seq<NodeKey>, maxNodes: int)
    requires Absorbing(order, keys, |keys|, found, maxNodes)
    ensures found == Take(Absorb(order, keys), maxNodes)
  {
    assert keys[|keys|..] == [];
  }

  /** The search has expanded exactly the first `e` nodes of the discovery order `target`, each
      while still under the cap. */
  ghost predicate Progress(nb: NeighborFn, target: seq<NodeKey>, order: seq<NodeKey>, edges: seq<GraphEdge>, e: nat, maxNodes: int) {
    && target != [] && e <= |target|
    && edges == EdgesOf(nb, target[..e])
    && order == Take(Discovered(SuccFn(nb), target[0], target[..e]), Cap(maxNodes))
    && (e > 0 ==> |Discovered(SuccFn(nb), target[0], target[..e - 1])| < maxNodes)
  }

  lemma ProgressStep(nb: NeighborFn, target: seq<NodeKey>, order: seq<NodeKey>, edges: seq<GraphEdge>, e: nat, maxNodes: int)
    requires Progress(nb, target, order, edges, e, maxNodes) && e < |target| && |order| < maxNodes
    ensures Progress(nb, target, Take(Absorb(order, Succ(nb, target[e])), maxNodes), edges + EdgeList(nb(target[e])), e + 1, maxNodes)
  {
    DiscoveredStep(SuccFn(nb), target[0], target, e);
    assert order == Discovered(SuccFn(nb), target[0], target[..e]);
    EdgesOfStep(nb, target, e);
  }

  lemma EdgesOfStep(nb: NeighborFn, s: seq<NodeKey>, e: nat)
    requires e < |s|
    ensures PairsOf(nb, s[..e + 1]) == PairsOf(nb, s[..e]) + nb(s[e])
    ensures EdgesOf(nb, s[..e + 1]) == EdgesOf(nb, s[..e]) + EdgeList(nb(s[e]))
  {
    assert s[..e + 1][..e] == s[..e];
    EdgeListAppend(PairsOf(nb, s[..e]), nb(s[e]));
  }

  lemma EdgeListAppend(a: seq<Pair>, b: seq<Pair>)
    ensures EdgeList(a + b) == EdgeList(a) + EdgeList(b)
  {
  }

  /** Expanding one more node of the frontier, seen as progress along `target`. */
  method ExpandNext(nb: NeighborFn, node: NodeKey, order: seq<NodeKey>, nodes: map<NodeKey, GraphEntity>, next: seq<NodeKey>,
                    edges: seq<GraphEdge>, maxNodes: int, ghost root: GraphEntity, ghost target: seq<NodeKey>, ghost e: nat,
                    ghost base: seq<NodeKey>)
    returns (order': seq<NodeKey>, nodes': map<NodeKey, GraphEntity>, next': seq<NodeKey>, edges': seq<GraphEdge>, ghost e': nat)
    requires |order| < maxNodes && e < |target| && Tabled(PairsOf(nb, target[..e]), root, order, nodes, maxNodes) && order == base + next
    requires Progress(nb, target, order, edges, e, maxNodes) && node == target[e]
    ensures e' == e + 1 && Tabled(PairsOf(nb, target[..e']), root, order', nodes', maxNodes) && order' == base + next'
    ensures Progress(nb, target, order', edges', e', maxNodes)
  {
    ProgressStep(nb, target, order, edges, e, maxNodes);
    EdgesOfStep(nb, target, e);
    order', nodes', next', edges' := ExpandNode(nb, node, order, nodes, next, edges, maxNodes, root, base, PairsOf(nb, target[..e]));
    e' := e + 1;
  }

  /** One level: the frontier nodes in order, stopping once the cap is met. */
  method ExpandLevel(nb: NeighborFn, order: seq<NodeKey>, nodes: map<NodeKey, GraphEntity>, edges: seq<GraphEdge>,
                     frontier: seq<NodeKey>, maxNodes: int, ghost root: GraphEntity, ghost target: seq<NodeKey>, ghost e: nat)
    returns (order': seq<NodeKey>, nodes': map<NodeKey, GraphEntity>, edges': seq<GraphEdge>, next: seq<NodeKey>, ghost e': nat)
    requires e + |frontier| <= |target| && frontier == target[e..e + |frontier|]
    requires |order| < maxNodes
    requires Tabled(PairsOf(nb, target[..e]), root, order, nodes, maxNodes) && Progress(nb, target, order, edges, e, maxNodes)
    ensures Progress(nb, target, order', edges', e', maxNodes) && Tabled(PairsOf(nb, target[..e']), root, order', nodes', maxNodes)
    ensures order' == order + next && e' <= e + |frontier|
    ensures |order'| < maxNodes ==> e' == e + |frontier|
  {
    order', nodes', edges', next, e' := order, nodes, edges, [], e;
    for i := 0 to |frontier|
      invariant e' == e + i && order' == order + next
      invariant Progress(nb, target, order', edges', e', maxNodes) && Tabled(PairsOf(nb, target[..e']), root, order', nodes', maxNodes)
    {
      if |order'| >= maxNodes { break; }
      order', nodes', next, edges', e' := ExpandNext(nb, frontier[i], order', nodes', next, edges', maxNodes, root, target, e', order);
    }
  }

  /** The discovery order of the same search without a node cap. */
  function Uncapped(nb: NeighborFn, root: GraphEntity, depth: int): seq<NodeKey> {
    Order(SuccFn(nb), KeyOf(root), Max(0, depth))
  }

  /** How many nodes a search of `d` rounds expands. */
  function ExpandedBy<K(==)>(succ: K -> seq<K>, root: K, d: nat): nat {
    if d == 0 then 0 else |Order(succ, root, d - 1)|
  }

  lemma ExpandedMonotone<K>(succ: K -> seq<K>, root: K, a: nat, b: nat)
    requires a <= b
    ensures ExpandedBy(succ, root, a) <= ExpandedBy(succ, root, b)
  {
    if a > 0 { OrderExtends(succ, root, a - 1, b - 1); }
  }

  /** Where the frontier of round `d` lies in the uncapped order. */
  lemma FrontierInTarget(nb: NeighborFn, root: NodeKey, d: nat, rounds: nat, frontier: seq<NodeKey>)
    requires d <= rounds
    requires ExpandedBy(SuccFn(nb), root, d) <= |Order(SuccFn(nb), root, d)|
    requires frontier == Order(SuccFn(nb), root, d)[ExpandedBy(SuccFn(nb), root, d)..]
    ensures ExpandedBy(SuccFn(nb), root, d) + |frontier| == |Order(SuccFn(nb), root, d)| <= |Order(SuccFn(nb), root, rounds)|
    ensures frontier == Order(SuccFn(nb), root, rounds)[ExpandedBy(SuccFn(nb), root, d)..|Order(SuccFn(nb), root, d)|]
  {
    OrderExtends(SuccFn(nb), root, d, rounds);
  }

  /** Under the cap, having expanded all of level d means having discovered level d + 1. */
  lemma LevelReached(nb: NeighborFn, root: NodeKey, d: nat, rounds: nat, order: seq<NodeKey>, edges: seq<GraphEdge>, maxNodes: int)
    requires d < rounds && |order| < maxNodes
    requires Progress(nb, Order(SuccFn(nb), root, rounds), order, edges, |Order(SuccFn(nb), root, d)|, maxNodes)
    ensures order == Order(SuccFn(nb), root, d + 1)
  {
    var succ, target := SuccFn(nb), Order(SuccFn(nb), root, rounds);
    OrderExtends(succ, root, d, rounds);
    OrderExtends(succ, root, 0, rounds);
    assert target[..|Order(succ, root, d)|] == Order(succ, root, d);
  }

  /** The state at the start of round `d`. */
  ghost predicate AtRound(nb: NeighborFn, root: NodeKey, rounds: nat, d: nat, order: seq<NodeKey>, edges: seq<GraphEdge>,
                          frontier: seq<NodeKey>, e: nat, maxNodes: int) {
    && Progress(nb, Order(SuccFn(nb), root, rounds), order, edges, e, maxNodes)
    && e <= ExpandedBy(SuccFn(nb), root, d) && e <= |order|
    && (|order| < maxNodes ==>
          && e == ExpandedBy(SuccFn(nb), root, d) <= |order|
          && order == Order(SuccFn(nb), root, d)
          && frontier == order[e..])
  }

  lemma FirstRound(nb: NeighborFn, root: NodeKey, rounds: nat, maxNodes: int)
    ensures AtRound(nb, root, rounds, 0, [root], [], [root], 0, maxNodes)
  {
    OrderExtends(SuccFn(nb), root, 0, rounds);
    assert Order(SuccFn(nb), root, rounds)[..0] == [];
  }

  lemma NextRound(nb: NeighborFn, root: NodeKey, rounds: nat, d: nat, order: seq<NodeKey>, edges: seq<GraphEdge>,
                  frontier: seq<NodeKey>, e: nat, maxNodes: int, order': seq<NodeKey>, edges': seq<GraphEdge>, next: seq<NodeKey>, e': nat)
    requires d < rounds && |order| < maxNodes && AtRound(nb, root, rounds, d, order, edges, frontier, e, maxNodes)
    requires Progress(nb, Order(SuccFn(nb), root, rounds), order', edges', e', maxNodes)
    requires order' == order + next && e' <= e + |frontier|
    requires |order'| < maxNodes ==> e' == e + |frontier|
    ensures AtRound(nb, root, rounds, d + 1, order', edges', next, e', maxNodes)
  {
    assert e + |frontier| == |order| == ExpandedBy(SuccFn(nb), root, d + 1);
    if |order'| < maxNodes { LevelReached(nb, root, d, rounds, order', edges', maxNodes); }
  }

  method Round(nb: NeighborFn, order: seq<NodeKey>, nodes: map<NodeKey, GraphEntity>, edges: seq<GraphEdge>,
               frontier: seq<NodeKey>, maxNodes: int, ghost root: GraphEntity, ghost rounds: nat, ghost d: nat, ghost e: nat)
    returns (order': seq<NodeKey>, nodes': map<NodeKey, GraphEntity>, edges': seq<GraphEdge>, next: seq<NodeKey>, ghost e': nat)
    requires d < rounds && |order| < maxNodes
    requires AtRound(nb, KeyOf(root), rounds, d, order, edges, frontier, e, maxNodes)
    requires Tabled(PairsOf(nb, Order(SuccFn(nb), KeyOf(root), rounds)[..e]), root, order, nodes, maxNodes)
    ensures AtRound(nb, KeyOf(root), rounds, d + 1, order', edges', next, e', maxNodes)
    ensures Tabled(PairsOf(nb, Order(SuccFn(nb), KeyOf(root), rounds)[..e']), root, order', nodes', maxNodes)
  {
    ghost var target := Order(SuccFn(nb), KeyOf(root), rounds);
    FrontierInTarget(nb, KeyOf(root), d, rounds, frontier);
    order', nodes', edges', next, e' := ExpandLevel(nb, order, nodes, edges, frontier, maxNodes, root, target, e);
    NextRound(nb, KeyOf(root), rounds, d, order, edges, frontier, e, maxNodes, order', edges', next, e');
  }

  /** The outcome of a search: the first `expanded` nodes of the uncapped order were expanded, all of
      the levels below `depth` unless the cap was met. */
  ghost predicate Searched(nb: NeighborFn, root: GraphEntity, depth: int, maxNodes: int, order: seq<NodeKey>, edges: seq<GraphEdge>, expanded: nat) {
    && Progress(nb, Uncapped(nb, root, depth), order, edges, expanded, maxNodes)
    && expanded <= ExpandedBy(SuccFn(nb), KeyOf(root), Max(0, depth)) && expanded <= |order|
    && (|order| < maxNodes ==> expanded == ExpandedBy(SuccFn(nb), KeyOf(root), Max(0, depth)))
  }

  lemma SearchStops(nb: NeighborFn, root: GraphEntity, depth: int, d: nat, order: seq<NodeKey>, edges: seq<GraphEdge>,
                    frontier: seq<NodeKey>, e: nat, maxNodes: int)
    requires d <= Max(0, depth) && (d == Max(0, depth) || |order| >= maxNodes)
    requires AtRound(nb, KeyOf(root), Max(0, depth), d, order, edges, frontier, e, maxNodes)
    ensures Searched(nb, root, depth, maxNodes, order, edges, e) && order == Take(Uncapped(nb, root, depth), Cap(maxNodes))
  {
    ExpandedMonotone(SuccFn(nb), KeyOf(root), d, Max(0, depth));
    SearchMeaning(nb, root, depth, maxNodes, order, edges, e);
  }

  lemma FirstTable(nb: NeighborFn, root: GraphEntity, maxNodes: int, target: seq<NodeKey>)
    ensures Tabled(PairsOf(nb, target[..0]), root, [KeyOf(root)], map[KeyOf(root) := root], maxNodes)
  {
    assert target[..0] == [];
  }

  /** The search itself: `depth` rounds, abandoned once the cap is met. */
  method SearchLevels(nb: NeighborFn, root: GraphEntity, depth: int, maxNodes: int)
    returns (order: seq<NodeKey>, nodes: map<NodeKey, GraphEntity>, edges: seq<GraphEdge>, ghost expanded: nat)
    ensures order == Take(Uncapped(nb, root, depth), Cap(maxNodes))
    ensures Searched(nb, root, depth, maxNodes, order, edges, expanded)
    ensures Tabled(PairsOf(nb, Uncapped(nb, root, depth)[..expanded]), root, order, nodes, maxNodes)
  {
    ghost var rounds := Max(0, depth);
    ghost var target := Order(SuccFn(nb), KeyOf(root), rounds);
    order, edges, expanded := [KeyOf(root)], [], 0;
    nodes := map[KeyOf(root) := root];
    var frontier := [KeyOf(root)];
    FirstRound(nb, KeyOf(root), rounds, maxNodes);
    FirstTable(nb, root, maxNodes, target);
    for d := 0 to Max(0, depth)
      invariant AtRound(nb, KeyOf(root), rounds, d, order, edges, frontier, expanded, maxNodes)
      invariant Tabled(PairsOf(nb, target[..expanded]), root, order, nodes, maxNodes)
    {
      if |order| >= maxNodes {
        SearchStops(nb, root, depth, d, order, edges, frontier, expanded, maxNodes);
        return;
      }
      order, nodes, edges, frontier, expanded := Round(nb, order, nodes, edges, frontier, maxNodes, root, rounds, d, expanded);
    }
    SearchStops(nb, root, depth, rounds, order, edges, frontier, expanded, maxNodes);
  }

  /** The dictionary's values, in insertion order. */
  function Values(order: seq<NodeKey>, nodes: map<NodeKey, GraphEntity>): (r: seq<GraphEntity>)
    requires forall k :: k in order ==> k in nodes
    ensures |r| == |order| && forall i :: 0 <= i < |r| ==> r[i] == nodes[order[i]]
  {
    seq(|order|, i requires 0 <= i < |order| => nodes[order[i]])
  }

  /** The root, then the entities that `pairs` delivers first for their keys. */
  ghost predicate FirstDelivered(pairs: seq<Pair>, root: GraphEntity, result: seq<GraphEntity>) {
    forall i :: 0 <= i < |result| ==> if i == 0 then result[i] == root else FirstFor(pairs, KeyOf(result[i])) == Some(result[i])
  }

  /** The returned nodes are the first `Cap` nodes of the uncapped discovery order: the root, then for
      each key the entity that an expanded node delivered first. The edges are the neighbour lists
      of the first `expanded` nodes of that order, which under the cap are all the nodes within
      `depth - 1` hops. */
  method GetSubgraph(nb: NeighborFn, root: Option<GraphEntity>, depth: int, maxNodes: int)
    returns (result: seq<GraphEntity>, edges: seq<GraphEdge>, ghost expanded: nat)
    ensures root.None? ==> result == [] && edges == []
    ensures root.Some? ==> Map(KeyOf, result) == Take(Uncapped(nb, root.value, depth), Cap(maxNodes))
    ensures root.Some? ==> Searched(nb, root.value, depth, maxNodes, Map(KeyOf, result), edges, expanded)
    ensures root.Some? ==> FirstDelivered(PairsOf(nb, Uncapped(nb, root.value, depth)[..expanded]), root.value, result)
    ensures root.Some? ==> InFields(nb, root.value, maxNodes, result, edges, expanded)
    ensures root.Some? && depth >= 1 && maxNodes > 1 ==> Map((p: Pair) => p.0, nb(NodeKey(root.value.kind, root.value.id))) <= edges
    ensures root.Some? && |result| < maxNodes ==>
              edges == if depth <= 0 then [] else EdgesOf(nb, Uncapped(nb, root.value, depth - 1))
  {
    if root.None? { return [], [], 0; }
    var order, nodes;
    order, nodes, edges, expanded := SearchLevels(nb, root.value, depth, maxNodes);
    SearchMeaning(nb, root.value, depth, maxNodes, order, edges, expanded);
    result := Values(order, nodes);
    ghost var past := PairsOf(nb, Uncapped(nb, root.value, depth)[..expanded]);
    TableValues(past, root.value, order, nodes);
    TableInFields(past, root.value, order, nodes, maxNodes);
    OffersOfResult(nb, root.value, depth, maxNodes, result, order, edges, expanded);
    if depth >= 1 && maxNodes > 1 { RootIsExpanded(nb, root.value, depth, maxNodes, result, order, edges, expanded); }
  }

  /** All that `get_neighbors` delivers for the first `expanded` nodes of `result`, node after node. */
  ghost function Offers(nb: NeighborFn, result: seq<GraphEntity>, expanded: nat): seq<Pair>
    requires expanded <= |result|
  {
    Concat(seq(expanded, i requires 0 <= i < expanded => nb(NodeKey(result[i].kind, result[i].id))))
  }

  /** `e` is the first entity of its kind and id that `offers` deliver. */
  ghost predicate FirstOffered(offers: seq<Pair>, e: GraphEntity) {
    exists k :: 0 <= k < |offers| && offers[k].1 == e && forall j :: 0 <= j < k ==> offers[j].1.kind != e.kind || offers[j].1.id != e.id
  }

  ghost predicate Represented(result: seq<GraphEntity>, e: GraphEntity) {
    exists j :: 0 <= j < |result| && result[j].kind == e.kind && result[j].id == e.id
  }

  /** A result in its own fields: the root first, no two nodes of one kind and id, each further node the
      first of its kind and id that an expanded node delivers, under the cap every delivered entity
      represented, and the edges those delivered. */
  ghost predicate InFields(nb: NeighborFn, root: GraphEntity, maxNodes: int, result: seq<GraphEntity>, edges: seq<GraphEdge>, expanded: nat) {
    && result != [] && result[0] == root && expanded <= |result| <= (if maxNodes > 1 then maxNodes else 1)
    && (forall i, j :: 0 <= i < j < |result| ==> result[i].kind != result[j].kind || result[i].id != result[j].id)
    && (forall j :: 1 <= j < |result| ==> FirstOffered(Offers(nb, result, expanded), result[j]))
    && (|result| < maxNodes ==> forall k :: 0 <= k < |Offers(nb, result, expanded)| ==> Represented(result, Offers(nb, result, expanded)[k].1))
    && |edges| == |Offers(nb, result, expanded)|
    && forall k :: 0 <= k < |edges| ==> edges[k] == Offers(nb, result, expanded)[k].0
  }

  lemma {:induction false} FirstForIsFirst(pairs: seq<Pair>, e: GraphEntity)
    requires FirstFor(pairs, KeyOf(e)) == Some(e)
    ensures FirstOffered(pairs, e)
  {
    var n := |pairs| - 1;
    var front := pairs[..n];
    if FirstFor(front, KeyOf(e)).Some? {
      FirstForIsFirst(front, e);
      var k :| 0 <= k < |front| && front[k].1 == e && forall j :: 0 <= j < k ==> front[j].1.kind != e.kind || front[j].1.id != e.id;
      assert pairs[k].1 == e && forall j :: 0 <= j < k ==> pairs[j] == front[j];
    } else {
      NoneBefore(front, KeyOf(e));
      assert forall j :: 0 <= j < n ==> pairs[j] == front[j];
    }
  }

  lemma {:induction false} NoneBefore(pairs: seq<Pair>, key: NodeKey)
    requires FirstFor(pairs, key).None?
    ensures forall j :: 0 <= j < |pairs| ==> pairs[j].1.kind != key.kind || pairs[j].1.id != key.id
  {
    if pairs != [] { NoneBefore(pairs[..|pairs| - 1], key); }
  }

  lemma ValuesDistinct(pairs: seq<Pair>, root: GraphEntity, order: seq<NodeKey>, nodes: map<NodeKey, GraphEntity>)
    requires IsTable(pairs, root, order, nodes) && order != [] && order[0] == KeyOf(root) && NoDuplicates(order)
    ensures var result := Values(order, nodes);
            && result[0] == root
            && (forall i :: 0 <= i < |result| ==> KeyOf(result[i]) == order[i])
            && (forall i, j :: 0 <= i < j < |result| ==> result[i].kind != result[j].kind || result[i].id != result[j].id)
  {
    var result := Values(order, nodes);
    TableValues(pairs, root, order, nodes);
    assert forall i :: 0 <= i < |result| ==> KeyOf(result[i]) == Map(KeyOf, result)[i] == order[i];
  }

  lemma PairRepresented(pairs: seq<Pair>, root: GraphEntity, order: seq<NodeKey>, nodes: map<NodeKey, GraphEntity>, k: nat)
    requires IsTable(pairs, root, order, nodes) && HoldsAll(pairs, nodes) && k < |pairs|
    requires forall i :: 0 <= i < |order| ==> KeyOf(Values(order, nodes)[i]) == order[i]
    ensures Represented(Values(order, nodes), pairs[k].1)
  {
    if FirstFor(pairs, KeyOf(pairs[k].1)).None? { NoneBefore(pairs, KeyOf(pairs[k].1)); }
    var i :| 0 <= i < |order| && order[i] == KeyOf(pairs[k].1);
    assert KeyOf(Values(order, nodes)[i]) == order[i];
  }

  lemma TableInFields(pairs: seq<Pair>, root: GraphEntity, order: seq<NodeKey>, nodes: map<NodeKey, GraphEntity>, maxNodes: int)
    requires Tabled(pairs, root, order, nodes, maxNodes) && order != [] && order[0] == KeyOf(root) && NoDuplicates(order)
    ensures var result := Values(order, nodes);
            && result[0] == root
            && (forall i, j :: 0 <= i < j < |result| ==> result[i].kind != result[j].kind || result[i].id != result[j].id)
            && (forall j :: 1 <= j < |result| ==> FirstOffered(pairs, result[j]))
            && (|result| < maxNodes ==> forall k :: 0 <= k < |pairs| ==> Represented(result, pairs[k].1))
  {
    var result := Values(order, nodes);
    ValuesDistinct(pairs, root, order, nodes);
    TableValues(pairs, root, order, nodes);
    forall j | 1 <= j < |result| ensures FirstOffered(pairs, result[j]) {
      FirstForIsFirst(pairs, result[j]);
    }
    if |result| < maxNodes {
      forall k | 0 <= k < |pairs| ensures Represented(result, pairs[k].1) {
        PairRepresented(pairs, root, order, nodes, k);
      }
    }
  }

  lemma {:induction false} PairsAreOffers(nb: NeighborFn, keys: seq<NodeKey>, lists: seq<seq<Pair>>)
    requires |lists| == |keys| && forall i :: 0 <= i < |keys| ==> lists[i] == nb(keys[i])
    ensures PairsOf(nb, keys) == Concat(lists)
  {
    if keys != [] { PairsAreOffers(nb, keys[..|keys| - 1], lists[..|keys| - 1]); }
  }

  lemma {:induction false} ConcatStarts<T>(lists: seq<seq<T>>)
    requires lists != []
    ensures lists[0] <= Concat(lists)
  {
    if |lists| > 1 { ConcatStarts(lists[..|lists| - 1]); }
  }

  lemma {:induction false} OffersOfResult(nb: NeighborFn, root: GraphEntity, depth: int, maxNodes: int, result: seq<GraphEntity>, order: seq<NodeKey>,
                       edges: seq<GraphEdge>, expanded: nat)
    requires Searched(nb, root, depth, maxNodes, order, edges, expanded) && Map(KeyOf, result) == order
    ensures expanded <= |result| && PairsOf(nb, Uncapped(nb, root, depth)[..expanded]) == Offers(nb, result, expanded)
    ensures edges == EdgeList(Offers(nb, result, expanded)) && |result| <= Cap(maxNodes)
  {
    var keys := Uncapped(nb, root, depth)[..expanded];
    var lists := seq(expanded, i requires 0 <= i < expanded => nb(NodeKey(result[i].kind, result[i].id)));
    SearchMeaning(nb, root, depth, maxNodes, order, edges, expanded);
    assert forall i :: 0 <= i < expanded ==> KeyOf(result[i]) == Map(KeyOf, result)[i] == keys[i];
    PairsAreOffers(nb, keys, lists);
  }

  /** With a level to search and room for a second node, the root is expanded first. */
  lemma {:induction false} RootIsExpanded(nb: NeighborFn, root: GraphEntity, depth: int, maxNodes: int, result: seq<GraphEntity>,
                                          order: seq<NodeKey>, edges: seq<GraphEdge>, expanded: nat)
    requires Searched(nb, root, depth, maxNodes, order, edges, expanded) && depth >= 1 && maxNodes > 1
    requires expanded <= |result| && |result| > 0 && result[0] == root && edges == EdgeList(Offers(nb, result, expanded))
    ensures EdgeList(nb(NodeKey(root.kind, root.id))) <= edges
  {
    DiscoveredInOrder(SuccFn(nb), KeyOf(root), depth - 1, 0);
    assert expanded > 0;
    var lists := seq(expanded, i requires 0 <= i < expanded => nb(NodeKey(result[i].kind, result[i].id)));
    ConcatStarts(lists);
    EdgeListAppend(lists[0], Concat(lists)[|lists[0]|..]);
  }

  /** Under the cap, the nodes found are exactly those that at most `depth` edges connect to the root. */
  lemma UncappedConnects(nb: NeighborFn, root: GraphEntity, depth: int, u: NodeKey)
    ensures u in Uncapped(nb, root, depth)
       <==> exists edges :: Connects(nb, NodeKey(root.kind, root.id), u, edges) && |edges| <= if depth > 0 then depth else 0
  {
    var succ, key, k := SuccFn(nb), KeyOf(root), Max(0, depth);
    UncappedReach(nb, root, depth);
    if u in Within(succ, key, k) {
      var edges := WithinConnects(nb, key, u, k);
    }
    forall edges | Connects(nb, key, u, edges) && |edges| <= k ensures u in Within(succ, key, k) {
      ConnectsWithin(nb, key, u, edges);
      WithinMonotone(succ, key, |edges|, k);
    }
  }

  lemma {:induction false} FirstForKey(pairs: seq<Pair>, key: NodeKey)
    ensures FirstFor(pairs, key).Some? ==> KeyOf(FirstFor(pairs, key).value) == key
  {
    if pairs != [] { FirstForKey(pairs[..|pairs| - 1], key); }
  }

  lemma TableValues(pairs: seq<Pair>, root: GraphEntity, order: seq<NodeKey>, nodes: map<NodeKey, GraphEntity>)
    requires IsTable(pairs, root, order, nodes) && order != [] && order[0] == KeyOf(root) && NoDuplicates(order)
    ensures Map(KeyOf, Values(order, nodes)) == order && FirstDelivered(pairs, root, Values(order, nodes))
  {
    forall i | 0 <= i < |order| ensures KeyOf(nodes[order[i]]) == order[i] && (i > 0 ==> FirstFor(pairs, order[i]) == Some(nodes[order[i]])) {
      TableEntry(pairs, root, order, nodes, i);
    }
    assert Map(KeyOf, Values(order, nodes)) == order;
  }

  lemma TableEntry(pairs: seq<Pair>, root: GraphEntity, order: seq<NodeKey>, nodes: map<NodeKey, GraphEntity>, i: nat)
    requires IsTable(pairs, root, order, nodes) && i < |order| && order[0] == KeyOf(root) && NoDuplicates(order)
    ensures order[i] in nodes && KeyOf(nodes[order[i]]) == order[i] && (i > 0 ==> FirstFor(pairs, order[i]) == Some(nodes[order[i]]))
  {
    assert order[i] in order;
    FirstForKey(pairs, order[i]);
    if i > 0 { assert order[0] != order[i]; }
  }

  lemma SearchMeaning(nb: NeighborFn, root: GraphEntity, depth: int, maxNodes: int, order: seq<NodeKey>, edges: seq<GraphEdge>, expanded: nat)
    requires Searched(nb, root, depth, maxNodes, order, edges, expanded)
    ensures order == Take(Uncapped(nb, root, depth), Cap(maxNodes))
    ensures order != [] && order[0] == KeyOf(root) && NoDuplicates(order)
    ensures |order| < maxNodes ==> edges == if depth <= 0 then [] else EdgesOf(nb, Uncapped(nb, root, depth - 1))
  {
    var succ, key, rounds := SuccFn(nb), KeyOf(root), Max(0, depth);
    OrderReach(succ, key, rounds);
    DiscoveredInOrder(succ, key, rounds, expanded);
  }

  /** What the first `e` nodes of the discovery order lead to is itself a prefix of that order. */
  lemma DiscoveredInOrder<K>(succ: K -> seq<K>, root: K, rounds: nat, e: nat)
    requires e <= ExpandedBy(succ, root, rounds)
    ensures e <= |Order(succ, root, rounds)| && [root] <= Order(succ, root, rounds)
    ensures [root] <= Discovered(succ, root, Order(succ, root, rounds)[..e]) <= Order(succ, root, rounds)
    ensures e == ExpandedBy(succ, root, rounds) ==> Discovered(succ, root, Order(succ, root, rounds)[..e]) == Order(succ, root, rounds)
    ensures rounds > 0 && e == ExpandedBy(succ, root, rounds) ==> Order(succ, root, rounds)[..e] == Order(succ, root, rounds - 1)
  {
    var target := Order(succ, root, rounds);
    if rounds == 0 {
      assert target[..e] == [];
    } else {
      var inner := Order(succ, root, rounds - 1);
      OrderExtends(succ, root, rounds - 1, rounds);
      assert target[..e] == inner[..e];
      DiscoveredExtends(succ, root, inner, e);
      DiscoveredExtends(succ, root, inner[..e], 0);
      if e == |inner| { assert inner[..e] == inner; }
    }
  }

  /** Every edge of the result leads to a returned node. */
  ghost predicate Closed(nb: NeighborFn, target: seq<NodeKey>, order: seq<NodeKey>, expanded: nat) {
    forall i, v :: 0 <= i < expanded <= |target| && v in Succ(nb, target[i]) ==> v in order
  }

  /** Edges are appended before the cap is tested, so a truncated result may hold edges to nodes it
      does not hold. It is closed exactly when all that the expanded nodes lead to fits the cap. */
  lemma ClosedWhenAllFits(nb: NeighborFn, target: seq<NodeKey>, order: seq<NodeKey>, edges: seq<GraphEdge>, expanded: nat, maxNodes: int)
    requires Progress(nb, target, order, edges, expanded, maxNodes)
    ensures Closed(nb, target, order, expanded)
       <==> |Discovered(SuccFn(nb), target[0], target[..expanded])| <= Cap(maxNodes)
  {
    var succ, used := SuccFn(nb), target[..expanded];
    var all := Discovered(succ, target[0], used);
    DiscoveredMembers(succ, target[0], used);
    if |all| <= Cap(maxNodes) {
      forall i, v | 0 <= i < expanded && v in Succ(nb, target[i]) ensures v in order {
        assert used[i] in ToSet(used);
        ImageMember(succ, ToSet(used), used[i], v);
        assert v in ToSet(all);
      }
    } else {
      DiscoveredExtends(succ, target[0], used, 0);
      var v := all[Cap(maxNodes)];
      assert v in ToSet(all) && v !in order && v != all[0];
      var u, j :| u in ToSet(used) && 0 <= j < |succ(u)| && succ(u)[j] == v;
      var i :| 0 <= i < |used| && used[i] == u;
      assert v in Succ(nb, target[i]);
    }
  }

  /** How many nodes are known once the first `e` nodes of the uncapped order have been expanded. */
  function KnownAfter(nb: NeighborFn, root: GraphEntity, depth: int, e: nat): nat
    requires e <= |Uncapped(nb, root, depth)|
  {
    |Discovered(SuccFn(nb), KeyOf(root), Uncapped(nb, root, depth)[..e])|
  }

  lemma KnownGrows(nb: NeighborFn, root: GraphEntity, depth: int, a: nat, b: nat)
    requires a <= b <= ExpandedBy(SuccFn(nb), KeyOf(root), Max(0, depth))
    ensures b <= |Uncapped(nb, root, depth)| && 0 < KnownAfter(nb, root, depth, a) <= KnownAfter(nb, root, depth, b) <= |Uncapped(nb, root, depth)|
    ensures b == ExpandedBy(SuccFn(nb), KeyOf(root), Max(0, depth)) ==> KnownAfter(nb, root, depth, b) == |Uncapped(nb, root, depth)|
  {
    var succ, key, rounds := SuccFn(nb), KeyOf(root), Max(0, depth);
    DiscoveredInOrder(succ, key, rounds, a);
    DiscoveredInOrder(succ, key, rounds, b);
    var used := Uncapped(nb, root, depth)[..b];
    assert used[..a] == Uncapped(nb, root, depth)[..a];
    DiscoveredExtends(succ, key, used, a);
  }

  /** Expanding some prefix of the uncapped order leads to exactly as many nodes as the cap admits. */
  ghost predicate FillsExactly(nb: NeighborFn, root: GraphEntity, depth: int, maxNodes: int) {
    exists e: nat :: e <= ExpandedBy(SuccFn(nb), KeyOf(root), Max(0, depth)) && e <= |Uncapped(nb, root, depth)|
                     && KnownAfter(nb, root, depth, e) == Cap(maxNodes)
  }

  /** The same condition on the inputs alone: a result is closed exactly when the whole uncapped
      search fits the cap, or the cap is met exactly when some node's expansion ends. */
  lemma ClosedExactlyWhen(nb: NeighborFn, root: GraphEntity, depth: int, maxNodes: int, order: seq<NodeKey>, edges: seq<GraphEdge>, expanded: nat)
    requires Searched(nb, root, depth, maxNodes, order, edges, expanded)
    ensures Closed(nb, Uncapped(nb, root, depth), order, expanded)
       <==> |Uncapped(nb, root, depth)| <= Cap(maxNodes) || FillsExactly(nb, root, depth, maxNodes)
  {
    var target, last := Uncapped(nb, root, depth), ExpandedBy(SuccFn(nb), KeyOf(root), Max(0, depth));
    KnownGrows(nb, root, depth, expanded, last);
    DiscoveredInOrder(SuccFn(nb), KeyOf(root), Max(0, depth), 0);
    ClosedWhenAllFits(nb, target, order, edges, expanded, maxNodes);
    if FillsExactly(nb, root, depth, maxNodes) {
      var e: nat :| e <= last && e <= |target| && KnownAfter(nb, root, depth, e) == Cap(maxNodes);
      StopsBy(nb, root, depth, maxNodes, order, edges, expanded, e);
    }
  }

  /** Once some prefix meets the cap exactly, the search does not expand beyond it. */
  lemma StopsBy(nb: NeighborFn, root: GraphEntity, depth: int, maxNodes: int, order: seq<NodeKey>, edges: seq<GraphEdge>, expanded: nat, e: nat)
    requires Searched(nb, root, depth, maxNodes, order, edges, expanded)
    requires e <= ExpandedBy(SuccFn(nb), KeyOf(root), Max(0, depth)) && e <= |Uncapped(nb, root, depth)|
    requires KnownAfter(nb, root, depth, e) == Cap(maxNodes)
    ensures expanded <= |Uncapped(nb, root, depth)| && KnownAfter(nb, root, depth, expanded) <= Cap(maxNodes)
  {
    DiscoveredInOrder(SuccFn(nb), KeyOf(root), Max(0, depth), 0);
    if expanded <= e {
      KnownGrows(nb, root, depth, expanded, e);
    } else {
      KnownGrows(nb, root, depth, e, expanded - 1);
    }
  }

  // An instance: a hub with two neighbours, searched one level deep under a cap of two.

  const HUB := GraphEntity("zone", "hub", "")
  const LEFT := GraphEntity("sensor", "left", "")
  const RIGHT := GraphEntity("worker", "right", "")

  function EdgeTo(e: GraphEntity): GraphEdge { GraphEdge(KeyOf(HUB), "contains", KeyOf(e), "") }

  function Star(): NeighborFn { (u: NodeKey) => if u == KeyOf(HUB) then [(EdgeTo(LEFT), LEFT), (EdgeTo(RIGHT), RIGHT)] else [] }

  lemma StarOrder()
    ensures Order(SuccFn(Star()), KeyOf(HUB), 0) == [KeyOf(HUB)]
    ensures Order(SuccFn(Star()), KeyOf(HUB), 1) == [KeyOf(HUB), KeyOf(LEFT), KeyOf(RIGHT)]
  {
    var hub, left, right := KeyOf(HUB), KeyOf(LEFT), KeyOf(RIGHT);
    assert hub.kind[0] != left.kind[0] && left.kind[0] != right.kind[0] && hub.kind[0] != right.kind[0];
    assert SuccFn(Star())(hub) == [left, right];
    assert [hub][..0] == [];
    assert [left, right][1..] == [right] && [right][1..] == [];
    assert Absorb([hub], [left, right]) == Absorb([hub] + [left], [right]) == Absorb([hub] + [left] + [right], []);
  }

  /** The result keeps the hub and one neighbour, but the edges to both. */
  lemma CapLeavesDanglingEdge(order: seq<NodeKey>, edges: seq<GraphEdge>, expanded: nat)
    requires Searched(Star(), HUB, 1, 2, order, edges, expanded)
    ensures order == [KeyOf(HUB), KeyOf(LEFT)] && KeyOf(RIGHT) !in order
    ensures !Closed(Star(), Uncapped(Star(), HUB, 1), order, expanded)
  {
    var succ, hub := SuccFn(Star()), KeyOf(HUB);
    StarOrder();
    SearchMeaning(Star(), HUB, 1, 2, order, edges, expanded);
    ClosedExactlyWhen(Star(), HUB, 1, 2, order, edges, expanded);
    assert ExpandedBy(succ, hub, 1) == 1;
    KnownGrows(Star(), HUB, 1, 1, 1);
    assert Uncapped(Star(), HUB, 1)[..0] == [];
    assert KnownAfter(Star(), HUB, 1, 0) == 1 && KnownAfter(Star(), HUB, 1, 1) == 3;
  }

  /** In particular a result that the cap did not shorten is closed. */
  lemma UncappedIsClosed(nb: NeighborFn, root: GraphEntity, depth: int, maxNodes: int, order: seq<NodeKey>, edges: seq<GraphEdge>, expanded: nat)
    requires Searched(nb, root, depth, maxNodes, order, edges, expanded) && |Uncapped(nb, root, depth)| <= Cap(maxNodes)
    ensures Closed(nb, Uncapped(nb, root, depth), order, expanded)
  {
    ClosedExactlyWhen(nb, root, depth, maxNodes, order, edges, expanded);
  }

  /** The nodes of an uncapped search are those within `depth` hops of the root, each once. */
  lemma UncappedReach(nb: NeighborFn, root: GraphEntity, depth: int)
    ensures NoDuplicates(Uncapped(nb, root, depth))
    ensures forall u :: u in Uncapped(nb, root, depth) <==> u in Within(SuccFn(nb), KeyOf(root), Max(0, depth))
  {
    OrderReach(SuccFn(nb), KeyOf(root), Max(0, depth));
    assert forall u :: u in Uncapped(nb, root, depth) <==> u in ToSet(Uncapped(nb, root, depth));
  }

  /** A node left out by the cap is never closer to the root than one that is kept. */
  lemma TruncationIsClosestFirst(nb: NeighborFn, root: GraphEntity, depth: int, maxNodes: int, v: NodeKey, k: nat)
    requires v in Uncapped(nb, root, depth) && v !in Take(Uncapped(nb, root, depth), Cap(maxNodes))
    requires v in Within(SuccFn(nb), KeyOf(root), k)
    ensures forall u :: u in Take(Uncapped(nb, root, depth), Cap(maxNodes)) ==> u in Within(SuccFn(nb), KeyOf(root), k)
  {
    var all := Uncapped(nb, root, depth);
    var kept := Take(all, Cap(maxNodes));
    var j :| 0 <= j < |all| && all[j] == v;
    assert kept == all[..|kept|];
    assert j >= |kept|;
    forall u | u in kept ensures u in Within(SuccFn(nb), KeyOf(root), k) {
      var i :| 0 <= i < |kept| && kept[i] == u;
      ClosestFirst(SuccFn(nb), KeyOf(root), Max(0, depth), i, j, k);
    }
  }
}
