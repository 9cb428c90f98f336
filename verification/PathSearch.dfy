/** `GraphService.get_path`: a level-by-level breadth-first search with a parent map, unwound
    into the edge sequence of a shortest path. */
module PathSearch {
  import opened Common
  import opened Reachability
  import opened KnowledgeGraph

  type ParentMap = map<NodeKey, (NodeKey, GraphEdge)>

  /** However `v` is reached, `u` is reached with one hop less. */
  ghost predicate Closer(nb: NeighborFn, start: NodeKey, u: NodeKey, v: NodeKey) {
    forall k: nat :: Reaches(SuccFn(nb), start, v, k) ==> k > 0 && Reaches(SuccFn(nb), start, u, k - 1)
  }

  /** Every recorded parent is a real hop, one step closer to `start`. */
  ghost predicate ParentTree(nb: NeighborFn, start: NodeKey, parent: ParentMap) {
    forall v :: v in parent ==>
      && (parent[v].0 == start || parent[v].0 in parent)
      && Hop(nb, parent[v].0, parent[v].1, v)
      && Closer(nb, start, parent[v].0, v)
  }

  /** The visited set is the tree's node set, and holds everything within d hops. */
  ghost predicate Visited(nb: NeighborFn, start: NodeKey, visited: set<NodeKey>, parent: ParentMap, d: nat) {
    && ParentTree(nb, start, parent)
    && visited == parent.Keys + {start}
    && Within(SuccFn(nb), start, d) <= visited
  }

  ghost predicate LeadsBetween(nb: NeighborFn, a: NodeKey, b: NodeKey, nodes: seq<NodeKey>, edges: seq<GraphEdge>) {
    Leads(nb, nodes, edges) && nodes[0] == a && nodes[|edges|] == b
  }

  /** A recorded parent of a node reached in k hops is a real hop away and reached in k - 1. */
  lemma ParentIsCloser(nb: NeighborFn, start: NodeKey, parent: ParentMap, v: NodeKey, k: nat)
    requires ParentTree(nb, start, parent) && v in parent && Reaches(SuccFn(nb), start, v, k)
    ensures Hop(nb, parent[v].0, parent[v].1, v) && (parent[v].0 == start || parent[v].0 in parent)
    ensures k > 0 && Reaches(SuccFn(nb), start, parent[v].0, k - 1)
  {
    assert Closer(nb, start, parent[v].0, v);
  }

  lemma LeadsPrepend(nb: NeighborFn, u: NodeKey, e: GraphEdge, a: NodeKey, b: NodeKey, nodes: seq<NodeKey>, edges: seq<GraphEdge>)
    requires LeadsBetween(nb, a, b, nodes, edges) && Hop(nb, u, e, a)
    ensures LeadsBetween(nb, u, b, [u] + nodes, [e] + edges)
  {
    var nodes', edges' := [u] + nodes, [e] + edges;
    forall i | 0 <= i < |edges'| ensures Hop(nb, nodes'[i], edges'[i], nodes'[i + 1]) {
      if i > 0 { assert Hop(nb, nodes[i - 1], edges[i - 1], nodes[i]); }
    }
  }

  lemma ReversePrepend<T>(x: T, s: seq<T>)
    ensures Reverse([x] + s) == Reverse(s) + [x]
  {
    var a, b := Reverse([x] + s), Reverse(s) + [x];
    forall i | 0 <= i < |a| ensures a[i] == b[i] {
      if i < |s| { assert ([x] + s)[|s| - i] == s[|s| - 1 - i]; }
    }
  }

  /** Follows parents from `goal` back to `start`. It always terminates: `hops`, a distance at
      which the goal is known to lie, bounds the number of steps. */
  method Unwind(nb: NeighborFn, start: NodeKey, goal: NodeKey, parent: ParentMap, ghost hops: nat)
    returns (path: seq<GraphEdge>)
    requires ParentTree(nb, start, parent) && goal in parent
    requires goal in Within(SuccFn(nb), start, hops)
    ensures Connects(nb, start, goal, path) && |path| <= hops
  {
    path := [];
    var cursor := goal;
    ghost var nodes, forward, left := [goal], [], hops;
    while cursor != start
      invariant cursor == start || cursor in parent
      invariant Reaches(SuccFn(nb), start, cursor, left) && |forward| + left == hops
      invariant LeadsBetween(nb, cursor, goal, nodes, forward)
      invariant path == Reverse(forward)
      decreases left
    {
      var (prev, edgeTaken) := parent[cursor];
      ParentIsCloser(nb, start, parent, cursor, left);
      LeadsPrepend(nb, prev, edgeTaken, cursor, goal, nodes, forward);
      ReversePrepend(edgeTaken, forward);
      path := path + [edgeTaken];
      nodes, forward, left := [prev] + nodes, [edgeTaken] + forward, left - 1;
      cursor := prev;
    }
    path := Reverse(path);
    assert path == forward;
  }

  /** A neighbour of a node within d hops that is not itself within d hops. */
  lemma NewNeighborIsFarther(nb: NeighborFn, start: NodeKey, d: nat, u: NodeKey, v: NodeKey)
    requires u in Within(SuccFn(nb), start, d) && v !in Within(SuccFn(nb), start, d)
    ensures Closer(nb, start, u, v)
  {
    forall k: nat | Reaches(SuccFn(nb), start, v, k)
      ensures k > 0 && Reaches(SuccFn(nb), start, u, k - 1)
    {
      FartherStep(SuccFn(nb), start, d, u, v, k);
    }
  }

  lemma FartherStep<K>(succ: K -> seq<K>, start: K, d: nat, u: K, v: K, k: nat)
    requires u in Within(succ, start, d) && v !in Within(succ, start, d) && Reaches(succ, start, v, k)
    ensures k > 0 && Reaches(succ, start, u, k - 1)
  {
    if k <= d {
      WithinMonotone(succ, start, k, d);
    } else {
      WithinMonotone(succ, start, d, k - 1);
    }
  }

  /** Recording a newly met neighbour of `node` keeps the parent tree. */
  lemma RecordParent(nb: NeighborFn, start: NodeKey, visited: set<NodeKey>, parent: ParentMap, d: nat, node: NodeKey, e: GraphEdge, key: NodeKey)
    requires Visited(nb, start, visited, parent, d)
    requires node in Within(SuccFn(nb), start, d) && Hop(nb, node, e, key) && key !in visited
    ensures Visited(nb, start, visited + {key}, parent[key := (node, e)], d)
  {
    NewNeighborIsFarther(nb, start, d, node, key);
    assert node in visited;
    var parent' := parent[key := (node, e)];
    forall v | v in parent'
      ensures parent'[v].0 == start || parent'[v].0 in parent'
      ensures Hop(nb, parent'[v].0, parent'[v].1, v) && Closer(nb, start, parent'[v].0, v)
    {
      if v != key { assert v in parent && parent'[v] == parent[v]; }
    }
  }

  /** The first `j` neighbours have been visited, and the new ones queued for the next round. */
  ghost predicate Queued(keys: seq<NodeKey>, j: nat, visited: set<NodeKey>, next: set<NodeKey>, visited': set<NodeKey>, next': seq<NodeKey>) {
    && j <= |keys|
    && visited' == visited + ToSet(keys[..j])
    && ToSet(next') == next + (visited' - visited)
  }

  lemma QueueStep(keys: seq<NodeKey>, j: nat, visited: set<NodeKey>, next: set<NodeKey>, visited': set<NodeKey>, next': seq<NodeKey>)
    requires Queued(keys, j, visited, next, visited', next') && j < |keys|
    ensures keys[j] in visited' ==> Queued(keys, j + 1, visited, next, visited', next')
    ensures keys[j] !in visited' ==> Queued(keys, j + 1, visited, next, visited' + {keys[j]}, next' + [keys[j]])
  {
    PrefixSet(keys, j);
    assert ToSet(next' + [keys[j]]) == ToSet(next') + {keys[j]};
  }

  /** The innermost loop: the neighbours of one frontier node, until the goal turns up. */
  method ExpandNode(nb: NeighborFn, goal: NodeKey, node: NodeKey, visited: set<NodeKey>, parent: ParentMap,
                    next: seq<NodeKey>, ghost start: NodeKey, ghost d: nat)
    returns (found: bool, visited': set<NodeKey>, parent': ParentMap, next': seq<NodeKey>)
    requires Visited(nb, start, visited, parent, d)
    requires node in Within(SuccFn(nb), start, d) && goal !in visited
    ensures Visited(nb, start, visited', parent', d)
    ensures found ==> goal in parent' && goal in Succ(nb, node)
    ensures !found ==> goal !in visited' && visited' == visited + ToSet(Succ(nb, node))
    ensures !found ==> ToSet(next') == ToSet(next) + (visited' - visited)
  {
    visited', parent', next' := visited, parent, next;
    var pairs := nb(node);
    ghost var keys := Succ(nb, node);
    for j := 0 to |pairs|
      invariant Visited(nb, start, visited', parent', d)
      invariant goal !in visited'
      invariant Queued(keys, j, visited, ToSet(next), visited', next')
    {
      var (edge, neighbor) := pairs[j];
      var key := KeyOf(neighbor);
      assert keys[j] == key;
      QueueStep(keys, j, visited, ToSet(next), visited', next');
      if key !in visited' {
        assert Hop(nb, node, edge, key);
        RecordParent(nb, start, visited', parent', d, node, edge, key);
        visited' := visited' + {key};
        parent' := parent'[key := (node, edge)];
        if key == goal {
          return true, visited', parent', next';
        }
        next' := next' + [key];
      }
    }
    assert keys[..|pairs|] == keys;
    found := false;
  }

  /** The nodes first reached by exactly `d` hops. */
  ghost function Layer(nb: NeighborFn, start: NodeKey, d: nat): set<NodeKey> {
    if d == 0 then {start} else Within(SuccFn(nb), start, d) - Within(SuccFn(nb), start, d - 1)
  }

  lemma LayerExpands(nb: NeighborFn, start: NodeKey, d: nat)
    ensures Within(SuccFn(nb), start, d) + Image(SuccFn(nb), Layer(nb, start, d)) == Within(SuccFn(nb), start, d + 1)
  {
    FrontierSuffices(SuccFn(nb), start, d, Layer(nb, start, d));
  }

  lemma ImageGrows(nb: NeighborFn, frontier: seq<NodeKey>, i: nat)
    requires i < |frontier|
    ensures Image(SuccFn(nb), ToSet(frontier[..i + 1]))
         == Image(SuccFn(nb), ToSet(frontier[..i])) + ToSet(Succ(nb, frontier[i]))
  {
    var succ := SuccFn(nb);
    PrefixSet(frontier, i);
    forall v | v in ToSet(Succ(nb, frontier[i])) ensures v in Image(succ, ToSet(frontier[..i + 1])) {
      ImageMember(succ, ToSet(frontier[..i + 1]), frontier[i], v);
    }
  }

  /** One round of the outer loop: every node of the frontier, in order, until the goal turns up. */
  method ExpandLayer(nb: NeighborFn, goal: NodeKey, visited: set<NodeKey>, parent: ParentMap, frontier: seq<NodeKey>,
                     ghost start: NodeKey, ghost d: nat)
    returns (found: bool, visited': set<NodeKey>, parent': ParentMap, next: seq<NodeKey>)
    requires Visited(nb, start, visited, parent, d) && visited == Within(SuccFn(nb), start, d)
    requires ToSet(frontier) == Layer(nb, start, d) && goal !in visited
    ensures ParentTree(nb, start, parent')
    ensures found ==> goal in parent' && goal in Within(SuccFn(nb), start, d + 1)
    ensures !found ==> goal !in visited'
    ensures !found ==> Visited(nb, start, visited', parent', d + 1) && visited' == Within(SuccFn(nb), start, d + 1)
    ensures !found ==> ToSet(next) == Layer(nb, start, d + 1)
  {
    next := [];
    visited', parent' := visited, parent;
    for i := 0 to |frontier|
      invariant Visited(nb, start, visited', parent', d)
      invariant goal !in visited'
      invariant visited' == visited + Image(SuccFn(nb), ToSet(frontier[..i]))
      invariant ToSet(next) == visited' - visited
    {
      ImageGrows(nb, frontier, i);
      assert frontier[i] in ToSet(frontier);
      found, visited', parent', next := ExpandNode(nb, goal, frontier[i], visited', parent', next, start, d);
      if found {
        WithinStep(SuccFn(nb), start, d, frontier[i], goal);
        return;
      }
    }
    assert frontier[..|frontier|] == frontier;
    LayerExpands(nb, start, d);
    found := false;
  }

  lemma NoDifference<T>(a: set<T>, b: set<T>)
    requires b <= a && a - b == {}
    ensures a == b
  {
    forall x | x in a ensures x in b {
      assert x in b || x in a - b;
    }
  }

  /** An empty layer means the search has exhausted what it can reach. */
  lemma EmptyLayer(nb: NeighborFn, start: NodeKey, d: nat, k: nat)
    requires Layer(nb, start, d + 1) == {} && d <= k
    ensures Within(SuccFn(nb), start, k) == Within(SuccFn(nb), start, d)
  {
    var succ := SuccFn(nb);
    var inner, outer := Within(succ, start, d), Within(succ, start, d + 1);
    WithinMonotone(succ, start, d, d + 1);
    NoDifference(outer, inner);
    WithinSaturates(succ, start, d, k);
  }

  ghost predicate NoPathWithin(nb: NeighborFn, source: NodeKey, target: NodeKey, k: nat) {
    forall edges :: Connects(nb, source, target, edges) ==> |edges| > k
  }

  ghost predicate ShortestPath(nb: NeighborFn, source: NodeKey, target: NodeKey, path: seq<GraphEdge>) {
    Connects(nb, source, target, path) && forall edges :: Connects(nb, source, target, edges) ==> |path| <= |edges|
  }

  lemma AtOnce(nb: NeighborFn, source: NodeKey, k: nat)
    ensures ShortestPath(nb, source, source, []) && !NoPathWithin(nb, source, source, k)
  {
    assert Leads(nb, [source], []);
    assert Connects(nb, source, source, []);
  }

  /** A path found in the first round that reaches its target is a shortest one. */
  lemma FirstFound(nb: NeighborFn, source: NodeKey, target: NodeKey, path: seq<GraphEdge>, d: nat, k: nat)
    requires Connects(nb, source, target, path) && |path| <= d + 1 <= k && target !in Within(SuccFn(nb), source, d)
    ensures ShortestPath(nb, source, target, path) && !NoPathWithin(nb, source, target, k)
  {
    NoShortConnection(nb, source, target, d);
  }

  /** Nothing connects to a node outside `Within(k)` in k edges or fewer. */
  lemma NoShortConnection(nb: NeighborFn, source: NodeKey, target: NodeKey, k: nat)
    requires target !in Within(SuccFn(nb), source, k)
    ensures NoPathWithin(nb, source, target, k)
  {
    forall edges | Connects(nb, source, target, edges) ensures |edges| > k {
      ConnectsWithin(nb, source, target, edges);
      if |edges| <= k { WithinMonotone(SuccFn(nb), source, |edges|, k); }
    }
  }

  /** One of the entities delivered for `source` is `target`. */
  ghost predicate Delivers(nb: NeighborFn, source: NodeKey, target: NodeKey) {
    exists j :: 0 <= j < |nb(source)| && nb(source)[j].1.kind == target.kind && nb(source)[j].1.id == target.id
  }

  /** A delivered neighbour is connected by its edge alone. */
  lemma OneHop(nb: NeighborFn, source: NodeKey, target: NodeKey, k: nat)
    ensures Delivers(nb, source, target) && k >= 1 ==> !NoPathWithin(nb, source, target, k)
    ensures Delivers(nb, source, target) ==> forall path :: ShortestPath(nb, source, target, path) ==> |path| <= 1
    ensures source != target ==> !ShortestPath(nb, source, target, [])
  {
    if Delivers(nb, source, target) {
      var j :| 0 <= j < |nb(source)| && nb(source)[j].1.kind == target.kind && nb(source)[j].1.id == target.id;
      var edges := [nb(source)[j].0];
      assert Hop(nb, source, edges[0], target);
      assert Leads(nb, [source, target], edges);
      assert Connects(nb, source, target, edges);
    }
  }

  /** Python's `range(n)` runs no round for a negative `n`. */
  function Rounds(n: int): nat { Max(0, n) }

  /** The answer for a bound of k hops: a shortest path if it is that short, in particular the edge of a
      neighbour delivered for the source, and None if nothing connects the two. */
  ghost predicate Answers(nb: NeighborFn, source: NodeKey, target: NodeKey, k: nat, r: Option<seq<GraphEdge>>) {
    && (r.Some? ==> ShortestPath(nb, source, target, r.value) && |r.value| <= k)
    && (r.None? <==> NoPathWithin(nb, source, target, k))
    && (r == Some([]) <==> source == target)
    && (k >= 1 && Delivers(nb, source, target) ==> r.Some? && |r.value| <= 1)
  }

  lemma PathAnswers(nb: NeighborFn, source: NodeKey, target: NodeKey, path: seq<GraphEdge>, k: nat)
    requires ShortestPath(nb, source, target, path) && |path| <= k && !NoPathWithin(nb, source, target, k)
    ensures Answers(nb, source, target, k, Some(path))
  {
    OneHop(nb, source, target, k);
    AtOnce(nb, source, k);
  }

  lemma NoneAnswers(nb: NeighborFn, source: NodeKey, target: NodeKey, k: nat)
    requires source != target && NoPathWithin(nb, source, target, k)
    ensures Answers(nb, source, target, k, None)
  {
    OneHop(nb, source, target, k);
  }

  /** The returned edges connect source to target, no connecting edge list is shorter, and None
      is returned exactly when nothing connects them within the depth bound. */
  method GetPath(nb: NeighborFn, source: NodeKey, target: NodeKey, maxDepth: int) returns (r: Option<seq<GraphEdge>>)
    ensures Answers(nb, source, target, if maxDepth > 0 then maxDepth else 0, r)
  {
    if source == target {
      AtOnce(nb, source, Rounds(maxDepth));
      PathAnswers(nb, source, target, [], Rounds(maxDepth));
      return Some([]);
    }
    var visited, frontier := {source}, [source];
    var parent: ParentMap := map[];
    ghost var succ := SuccFn(nb);
    for d := 0 to Rounds(maxDepth)
      invariant Visited(nb, source, visited, parent, d) && visited == Within(succ, source, d)
      invariant target !in visited
      invariant ToSet(frontier) == Layer(nb, source, d)
    {
      var found, next;
      found, visited, parent, next := ExpandLayer(nb, target, visited, parent, frontier, source, d);
      if found {
        var path := Unwind(nb, source, target, parent, d + 1);
        FirstFound(nb, source, target, path, d, Rounds(maxDepth));
        PathAnswers(nb, source, target, path, Rounds(maxDepth));
        return Some(path);
      }
      frontier := next;
      if frontier == [] {
        EmptyLayer(nb, source, d, Rounds(maxDepth));
        break;
      }
    }
    NoShortConnection(nb, source, target, Rounds(maxDepth));
    NoneAnswers(nb, source, target, Rounds(maxDepth));
    r := None;
  }
}
