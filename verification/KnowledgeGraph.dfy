/** The entities, edges and neighbour relation of the operational knowledge graph.
    `get_neighbors` reads database rows; here it is a fixed function of the node asked about. */
module KnowledgeGraph {
  import opened Common
  import opened Reachability

  datatype NodeKey = NodeKey(kind: string, id: string)

  datatype GraphEntity = GraphEntity(kind: string, id: string, caption: string)

  datatype GraphEdge = GraphEdge(source: NodeKey, relation: string, target: NodeKey, caption: string)

  type NeighborFn = NodeKey -> seq<(GraphEdge, GraphEntity)>

  function KeyOf(e: GraphEntity): NodeKey { NodeKey(e.kind, e.id) }

  /** The keys one hop away from `u`, in the order `get_neighbors` lists them. An edge may be
      stored reversed, so a hop follows the delivered neighbour, not the edge's own target. */
  function Succ(nb: NeighborFn, u: NodeKey): (r: seq<NodeKey>)
    ensures |r| == |nb(u)|
    ensures forall j :: 0 <= j < |r| ==> r[j] == KeyOf(nb(u)[j].1)
  {
    Map((p: (GraphEdge, GraphEntity)) => KeyOf(p.1), nb(u))
  }

  function SuccFn(nb: NeighborFn): NodeKey -> seq<NodeKey> {
    (u: NodeKey) => Succ(nb, u)
  }

  /** `e` is an edge that `get_neighbors(u)` delivers together with neighbour `v`. */
  ghost predicate Hop(nb: NeighborFn, u: NodeKey, e: GraphEdge, v: NodeKey) {
    exists j :: 0 <= j < |nb(u)| && nb(u)[j].0 == e && nb(u)[j].1.kind == v.kind && nb(u)[j].1.id == v.id
  }

  /** `edges` leads through `nodes`, one hop per edge. */
  ghost predicate Leads(nb: NeighborFn, nodes: seq<NodeKey>, edges: seq<GraphEdge>) {
    |nodes| == |edges| + 1
    && forall i :: 0 <= i < |edges| ==> Hop(nb, nodes[i], edges[i], nodes[i + 1])
  }

  ghost predicate Connects(nb: NeighborFn, source: NodeKey, target: NodeKey, edges: seq<GraphEdge>) {
    exists nodes :: Leads(nb, nodes, edges) && nodes[0] == source && nodes[|edges|] == target
  }

  /** `met` are entities met on the way from `source`, one per edge: each is delivered with its edge for
      the entity before it, and the last one is `target`. */
  ghost predicate Route(nb: NeighborFn, source: NodeKey, target: NodeKey, edges: seq<GraphEdge>, met: seq<GraphEntity>) {
    && |met| == |edges|
    && (forall i :: 0 <= i < |edges| ==> (edges[i], met[i]) in nb(if i == 0 then source else NodeKey(met[i - 1].kind, met[i - 1].id)))
    && if edges == [] then source == target else met[|edges| - 1].kind == target.kind && met[|edges| - 1].id == target.id
  }

  /** The nodes of a route: the source, then the entities met. */
  ghost function RouteNodes(source: NodeKey, met: seq<GraphEntity>): seq<NodeKey> {
    [source] + seq(|met|, i requires 0 <= i < |met| => NodeKey(met[i].kind, met[i].id))
  }

  lemma RouteHop(nb: NeighborFn, source: NodeKey, target: NodeKey, edges: seq<GraphEdge>, met: seq<GraphEntity>, i: nat)
    requires Route(nb, source, target, edges, met) && i < |edges|
    ensures Hop(nb, RouteNodes(source, met)[i], edges[i], RouteNodes(source, met)[i + 1])
  {
    var u := if i == 0 then source else NodeKey(met[i - 1].kind, met[i - 1].id);
    assert (edges[i], met[i]) in nb(u);
    var j :| 0 <= j < |nb(u)| && nb(u)[j] == (edges[i], met[i]);
    assert Hop(nb, u, edges[i], NodeKey(met[i].kind, met[i].id));
    assert RouteNodes(source, met)[i] == u;
  }

  lemma RouteConnects(nb: NeighborFn, source: NodeKey, target: NodeKey, edges: seq<GraphEdge>, met: seq<GraphEntity>)
    requires Route(nb, source, target, edges, met)
    ensures Connects(nb, source, target, edges)
  {
    var nodes := RouteNodes(source, met);
    forall i | 0 <= i < |edges| ensures Hop(nb, nodes[i], edges[i], nodes[i + 1]) {
      RouteHop(nb, source, target, edges, met, i);
    }
    assert Leads(nb, nodes, edges);
    assert nodes[|edges|] == target;
  }

  lemma ConnectsHasRoute(nb: NeighborFn, source: NodeKey, target: NodeKey, edges: seq<GraphEdge>) returns (met: seq<GraphEntity>)
    requires Connects(nb, source, target, edges)
    ensures Route(nb, source, target, edges, met)
  {
    var nodes :| Leads(nb, nodes, edges) && nodes[0] == source && nodes[|edges|] == target;
    met := MetOnTheWay(nb, nodes, edges);
    forall i | 0 <= i < |edges| ensures (edges[i], met[i]) in nb(if i == 0 then source else NodeKey(met[i - 1].kind, met[i - 1].id)) {
      assert i > 0 ==> NodeKey(met[i - 1].kind, met[i - 1].id) == nodes[i - 1 + 1];
    }
  }

  /** What connecting means, in the delivered entities themselves. */
  lemma ConnectsIsRoute(nb: NeighborFn, source: NodeKey, target: NodeKey, edges: seq<GraphEdge>)
    ensures Connects(nb, source, target, edges) <==> exists met :: Route(nb, source, target, edges, met)
  {
    if Connects(nb, source, target, edges) {
      var met := ConnectsHasRoute(nb, source, target, edges);
    }
    forall met | Route(nb, source, target, edges, met) ensures Connects(nb, source, target, edges) {
      RouteConnects(nb, source, target, edges, met);
    }
  }

  lemma {:induction false} MetOnTheWay(nb: NeighborFn, nodes: seq<NodeKey>, edges: seq<GraphEdge>) returns (met: seq<GraphEntity>)
    requires Leads(nb, nodes, edges)
    ensures |met| == |edges|
    ensures forall i :: 0 <= i < |edges| ==> (edges[i], met[i]) in nb(nodes[i]) && NodeKey(met[i].kind, met[i].id) == nodes[i + 1]
  {
    met := [];
    for k := 0 to |edges|
      invariant |met| == k
      invariant forall i :: 0 <= i < k ==> (edges[i], met[i]) in nb(nodes[i]) && NodeKey(met[i].kind, met[i].id) == nodes[i + 1]
    {
      assert Hop(nb, nodes[k], edges[k], nodes[k + 1]);
      var j :| 0 <= j < |nb(nodes[k])| && nb(nodes[k])[j].0 == edges[k]
               && nb(nodes[k])[j].1.kind == nodes[k + 1].kind && nb(nodes[k])[j].1.id == nodes[k + 1].id;
      assert nb(nodes[k])[j] == (edges[k], nb(nodes[k])[j].1);
      met := met + [nb(nodes[k])[j].1];
    }
  }

  lemma HopIsSucc(nb: NeighborFn, u: NodeKey, e: GraphEdge, v: NodeKey)
    requires Hop(nb, u, e, v)
    ensures v in SuccFn(nb)(u)
  {
    var j :| 0 <= j < |nb(u)| && nb(u)[j].0 == e && nb(u)[j].1.kind == v.kind && nb(u)[j].1.id == v.id;
    assert Succ(nb, u)[j] == v;
  }

  /** A connecting edge list of n edges puts its target within n hops. */
  lemma ConnectsWithin(nb: NeighborFn, source: NodeKey, target: NodeKey, edges: seq<GraphEdge>)
    requires Connects(nb, source, target, edges)
    ensures target in Within(SuccFn(nb), source, |edges|)
  {
    var nodes :| Leads(nb, nodes, edges) && nodes[0] == source && nodes[|edges|] == target;
    forall i | 0 <= i < |nodes| - 1 ensures nodes[i + 1] in SuccFn(nb)(nodes[i]) {
      HopIsSucc(nb, nodes[i], edges[i], nodes[i + 1]);
    }
    WalkWithin(SuccFn(nb), nodes);
  }

  /** A node within k hops is connected by at most k edges. */
  lemma WithinConnects(nb: NeighborFn, source: NodeKey, target: NodeKey, k: nat) returns (edges: seq<GraphEdge>)
    requires target in Within(SuccFn(nb), source, k)
    ensures Connects(nb, source, target, edges) && |edges| <= k
  {
    var w := WithinWalk(SuccFn(nb), source, k, target);
    edges := EdgesAlong(nb, w);
  }

  lemma {:induction false} EdgesAlong(nb: NeighborFn, w: seq<NodeKey>) returns (edges: seq<GraphEdge>)
    requires IsWalk(SuccFn(nb), w)
    ensures Leads(nb, w, edges)
  {
    if |w| == 1 {
      edges := [];
    } else {
      var front := w[..|w| - 1];
      var init := EdgesAlong(nb, front);
      var u := w[|w| - 2];
      assert w[|w| - 2 + 1] in Succ(nb, u);
      var j :| 0 <= j < |Succ(nb, u)| && Succ(nb, u)[j] == w[|w| - 1];
      edges := init + [nb(u)[j].0];
      assert Hop(nb, u, nb(u)[j].0, w[|w| - 1]);
      forall i | 0 <= i < |edges| ensures Hop(nb, w[i], edges[i], w[i + 1]) {
        if i < |init| { assert Hop(nb, front[i], init[i], front[i + 1]); }
      }
    }
  }
}
