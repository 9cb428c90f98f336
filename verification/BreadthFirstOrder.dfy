/** Breadth-first discovery as a function: the order in which a level-by-level expansion first
    meets the nodes of a graph, and what that order says about distance. */
module BreadthFirstOrder {
  import opened Common
  import opened Reachability

  /** `order` followed by the elements of `found` not met before, first occurrence first. */
  function Absorb<K(==)>(order: seq<K>, found: seq<K>): seq<K>
    decreases found
  {
    if found == [] then order
    else Absorb(if found[0] in order then order else order + [found[0]], found[1..])
  }

  /** Everything discovered from `root` once the nodes of `expanded`, in turn, have contributed
      their successors. */
  function Discovered<K(==)>(succ: K -> seq<K>, root: K, expanded: seq<K>): seq<K> {
    if expanded == [] then [root]
    else Absorb(Discovered(succ, root, expanded[..|expanded| - 1]), succ(expanded[|expanded| - 1]))
  }

  /** The discovery order of a search of `depth` levels: expand, in order, all that a search one
      level shallower discovers. */
  function Order<K(==)>(succ: K -> seq<K>, root: K, depth: nat): seq<K> {
    if depth == 0 then [root] else Discovered(succ, root, Order(succ, root, depth - 1))
  }

  lemma {:induction false} AbsorbExtends<K>(order: seq<K>, found: seq<K>)
    ensures order <= Absorb(order, found)
    decreases found
  {
    if found != [] {
      AbsorbExtends(if found[0] in order then order else order + [found[0]], found[1..]);
    }
  }

  lemma DiscoveredStep<K>(succ: K -> seq<K>, root: K, s: seq<K>, e: nat)
    requires e < |s|
    ensures Discovered(succ, root, s[..e + 1]) == Absorb(Discovered(succ, root, s[..e]), succ(s[e]))
  {
    assert s[..e + 1][..e] == s[..e];
  }

  /** Expanding more nodes only appends. */
  lemma {:induction false} DiscoveredExtends<K>(succ: K -> seq<K>, root: K, s: seq<K>, e: nat)
    requires e <= |s|
    ensures Discovered(succ, root, s[..e]) <= Discovered(succ, root, s)
    ensures [root] <= Discovered(succ, root, s)
  {
    if s == [] {
    } else if e == |s| {
      assert s[..e] == s;
      DiscoveredExtends(succ, root, s[..e - 1], e - 1);
      AbsorbExtends(Discovered(succ, root, s[..e - 1]), succ(s[e - 1]));
    } else {
      var front := s[..|s| - 1];
      assert front[..e] == s[..e];
      DiscoveredExtends(succ, root, front, e);
      AbsorbExtends(Discovered(succ, root, front), succ(s[|s| - 1]));
    }
  }

  /** Searching deeper only appends. */
  lemma {:induction false} OrderExtends<K>(succ: K -> seq<K>, root: K, a: nat, b: nat)
    requires a <= b
    ensures Order(succ, root, a) <= Order(succ, root, b)
    decreases b
  {
    if a == 0 {
      if b > 0 { DiscoveredExtends(succ, root, Order(succ, root, b - 1), 0); }
    } else {
      var shallow, deep := Order(succ, root, a - 1), Order(succ, root, b - 1);
      OrderExtends(succ, root, a - 1, b - 1);
      assert deep[..|shallow|] == shallow;
      DiscoveredExtends(succ, root, deep, |shallow|);
    }
  }

  lemma {:induction false} AbsorbMembers<K>(order: seq<K>, found: seq<K>)
    requires NoDuplicates(order)
    ensures NoDuplicates(Absorb(order, found))
    ensures ToSet(Absorb(order, found)) == ToSet(order) + ToSet(found)
    decreases found
  {
    if found != [] {
      var order' := if found[0] in order then order else order + [found[0]];
      AbsorbMembers(order', found[1..]);
      assert ToSet(found) == {found[0]} + ToSet(found[1..]) by {
        assert found == [found[0]] + found[1..];
      }
      assert ToSet(order') == ToSet(order) + {found[0]};
    }
  }

  lemma {:induction false} DiscoveredMembers<K>(succ: K -> seq<K>, root: K, s: seq<K>)
    ensures NoDuplicates(Discovered(succ, root, s))
    ensures ToSet(Discovered(succ, root, s)) == {root} + Image(succ, ToSet(s))
  {
    if s == [] {
      assert Image(succ, ToSet(s)) == {};
    } else {
      var front, last := s[..|s| - 1], s[|s| - 1];
      DiscoveredMembers(succ, root, front);
      AbsorbMembers(Discovered(succ, root, front), succ(last));
      ImageSnoc(succ, front, last);
      assert s == front + [last];
    }
  }

  lemma ImageSnoc<K>(succ: K -> seq<K>, s: seq<K>, u: K)
    ensures Image(succ, ToSet(s + [u])) == Image(succ, ToSet(s)) + ToSet(succ(u))
  {
    assert ToSet(s + [u]) == ToSet(s) + {u};
    forall v | v in ToSet(succ(u)) ensures v in Image(succ, ToSet(s + [u])) {
      ImageMember(succ, ToSet(s + [u]), u, v);
    }
    forall v | v in Image(succ, ToSet(s)) ensures v in Image(succ, ToSet(s + [u])) {
      var w, j :| w in ToSet(s) && 0 <= j < |succ(w)| && succ(w)[j] == v;
      ImageMember(succ, ToSet(s + [u]), w, v);
    }
    forall v | v in Image(succ, ToSet(s + [u])) ensures v in Image(succ, ToSet(s)) + ToSet(succ(u)) {
      var w, j :| w in ToSet(s + [u]) && 0 <= j < |succ(w)| && succ(w)[j] == v;
      if w in s { ImageMember(succ, ToSet(s), w, v); }
    }
  }

  /** A search of `depth` levels meets every node within `depth` hops exactly once, and no other. */
  lemma {:induction false} OrderReach<K>(succ: K -> seq<K>, root: K, depth: nat)
    ensures NoDuplicates(Order(succ, root, depth))
    ensures ToSet(Order(succ, root, depth)) == Within(succ, root, depth)
  {
    if depth > 0 {
      OrderReach(succ, root, depth - 1);
      DiscoveredMembers(succ, root, Order(succ, root, depth - 1));
      WithinFromRoot(succ, root, depth);
    }
  }

  /** Discovery is closest-first: a node never precedes one that is reachable in fewer hops. */
  lemma ClosestFirst<K>(succ: K -> seq<K>, root: K, depth: nat, i: nat, j: nat, k: nat)
    requires i < j < |Order(succ, root, depth)|
    requires Order(succ, root, depth)[j] in Within(succ, root, k)
    ensures Order(succ, root, depth)[i] in Within(succ, root, k)
  {
    var order := Order(succ, root, depth);
    OrderReach(succ, root, depth);
    assert order[i] in ToSet(order);
    if k >= depth {
      WithinMonotone(succ, root, depth, k);
    } else {
      var near := Order(succ, root, k);
      OrderReach(succ, root, k);
      OrderExtends(succ, root, k, depth);
      assert order[j] in ToSet(near);
      var p :| 0 <= p < |near| && near[p] == order[j];
      assert p == j;
      assert order[i] == near[i] && near[i] in ToSet(near);
    }
  }
}
