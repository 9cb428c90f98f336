/** Hop-bounded reachability in a graph given by its successor lists: the reference notion
    against which every breadth-first traversal of this project is proved. */
module Reachability {

  ghost function Image<K>(succ: K -> seq<K>, s: set<K>): set<K> {
    set u, j | u in s && 0 <= j < |succ(u)| :: succ(u)[j]
  }

  /** The nodes at most `k` hops from `root`. */
  ghost function Within<K>(succ: K -> seq<K>, root: K, k: nat): set<K> {
    if k == 0 then {root} else Within(succ, root, k - 1) + Image(succ, Within(succ, root, k - 1))
  }

  ghost predicate Reaches<K>(succ: K -> seq<K>, root: K, v: K, k: nat) { v in Within(succ, root, k) }

  /** A walk, listed node by node. */
  ghost predicate IsWalk<K>(succ: K -> seq<K>, w: seq<K>) {
    |w| > 0 && forall i :: 0 <= i < |w| - 1 ==> w[i + 1] in succ(w[i])
  }

  lemma {:induction false} WithinMonotone<K>(succ: K -> seq<K>, root: K, j: nat, k: nat)
    requires j <= k
    ensures Within(succ, root, j) <= Within(succ, root, k)
    decreases k
  {
    if j < k { WithinMonotone(succ, root, j, k - 1); }
  }

  lemma ImageMember<K>(succ: K -> seq<K>, s: set<K>, u: K, v: K)
    requires u in s && v in succ(u)
    ensures v in Image(succ, s)
  {
    var j :| 0 <= j < |succ(u)| && succ(u)[j] == v;
  }

  lemma WithinStep<K>(succ: K -> seq<K>, root: K, k: nat, u: K, v: K)
    requires u in Within(succ, root, k) && v in succ(u)
    ensures v in Within(succ, root, k + 1)
  {
    ImageMember(succ, Within(succ, root, k), u, v);
  }

  /** A walk of n hops stays within n hops. */
  lemma {:induction false} WalkWithin<K>(succ: K -> seq<K>, w: seq<K>)
    requires IsWalk(succ, w)
    ensures w[|w| - 1] in Within(succ, w[0], |w| - 1)
    decreases |w|
  {
    if |w| > 1 {
      var front := w[..|w| - 1];
      WalkWithin(succ, front);
      assert w[|w| - 2 + 1] in succ(w[|w| - 2]);
      WithinStep(succ, w[0], |w| - 2, w[|w| - 2], w[|w| - 1]);
    }
  }

  /** Every node within k hops is the end of a walk of at most k hops. */
  lemma {:induction false} WithinWalk<K>(succ: K -> seq<K>, root: K, k: nat, v: K) returns (w: seq<K>)
    requires v in Within(succ, root, k)
    ensures IsWalk(succ, w) && w[0] == root && w[|w| - 1] == v && |w| - 1 <= k
  {
    if k == 0 {
      w := [root];
    } else if v in Within(succ, root, k - 1) {
      w := WithinWalk(succ, root, k - 1, v);
    } else {
      var u, j :| u in Within(succ, root, k - 1) && 0 <= j < |succ(u)| && succ(u)[j] == v;
      var front := WithinWalk(succ, root, k - 1, u);
      w := front + [v];
    }
  }

  /** Expanding only the nodes not already within d - 1 hops reaches everything within d + 1. */
  lemma FrontierSuffices<K>(succ: K -> seq<K>, root: K, d: nat, frontier: set<K>)
    requires frontier <= Within(succ, root, d)
    requires Within(succ, root, d) <= frontier + if d == 0 then {} else Within(succ, root, d - 1)
    ensures Within(succ, root, d) + Image(succ, frontier) == Within(succ, root, d + 1)
  {
    var inner := Within(succ, root, d);
    forall v | v in Image(succ, inner) ensures v in inner + Image(succ, frontier) {
      var u, j :| u in inner && 0 <= j < |succ(u)| && succ(u)[j] == v;
      if u in frontier {
        ImageMember(succ, frontier, u, v);
      } else {
        WithinStep(succ, root, d - 1, u, v);
      }
    }
    forall v | v in Image(succ, frontier) ensures v in Image(succ, inner) {
      var u, j :| u in frontier && 0 <= j < |succ(u)| && succ(u)[j] == v;
      ImageMember(succ, inner, u, v);
    }
  }

  /** A node within k hops is the root or a successor of a node within k - 1 hops. */
  lemma {:induction false} WithinFromRoot<K>(succ: K -> seq<K>, root: K, k: nat)
    requires k > 0
    ensures Within(succ, root, k) == {root} + Image(succ, Within(succ, root, k - 1))
  {
    if k > 1 {
      WithinFromRoot(succ, root, k - 1);
      var inner, outer := Within(succ, root, k - 2), Within(succ, root, k - 1);
      forall v | v in Image(succ, inner) ensures v in Image(succ, outer) {
        var u, j :| u in inner && 0 <= j < |succ(u)| && succ(u)[j] == v;
        ImageMember(succ, outer, u, v);
      }
    }
    WithinMonotone(succ, root, 0, k);
  }

  /** One more hop, as a function of the set reached so far. */
  ghost function Widen<K>(succ: K -> seq<K>, s: set<K>): set<K> { s + Image(succ, s) }

  lemma WithinWidens<K>(succ: K -> seq<K>, root: K, k: nat)
    ensures Within(succ, root, k + 1) == Widen(succ, Within(succ, root, k))
  {
  }

  /** Once a hop adds nothing, no further hop does. */
  lemma {:induction false} WithinSaturates<K>(succ: K -> seq<K>, root: K, j: nat, k: nat)
    requires j <= k && Within(succ, root, j + 1) == Within(succ, root, j)
    ensures Within(succ, root, k) == Within(succ, root, j)
    decreases k
  {
    if j < k {
      WithinSaturates(succ, root, j, k - 1);
      WithinWidens(succ, root, k - 1);
      WithinWidens(succ, root, j);
    }
  }

  ghost predicate SameMembers<K>(a: seq<K>, b: seq<K>) {
    (forall i :: 0 <= i < |a| ==> a[i] in b) && (forall i :: 0 <= i < |b| ==> b[i] in a)
  }

  ghost predicate SameSuccessors<K>(succ: K -> seq<K>, succ': K -> seq<K>, u: K) {
    SameMembers(succ(u), succ'(u))
  }

  lemma ImageCarries<K(!new)>(succ: K -> seq<K>, succ': K -> seq<K>, s: set<K>, v: K)
    requires forall u :: SameSuccessors(succ, succ', u)
    requires v in Image(succ, s)
    ensures v in Image(succ', s)
  {
    var u, j :| u in s && 0 <= j < |succ(u)| && succ(u)[j] == v;
    assert SameSuccessors(succ, succ', u);
    ImageMember(succ', s, u, v);
  }

  lemma ImageCongruence<K(!new)>(succ: K -> seq<K>, succ': K -> seq<K>, s: set<K>)
    requires forall u :: SameSuccessors(succ, succ', u)
    ensures Image(succ, s) == Image(succ', s)
  {
    forall u ensures SameSuccessors(succ', succ, u) { assert SameSuccessors(succ, succ', u); }
    forall v ensures v in Image(succ, s) <==> v in Image(succ', s) {
      if v in Image(succ, s) { ImageCarries(succ, succ', s, v); }
      if v in Image(succ', s) { ImageCarries(succ', succ, s, v); }
    }
  }

  /** Reachability depends on which successors a node has, not on their order or repetition. */
  lemma {:induction false} WithinCongruence<K(!new)>(succ: K -> seq<K>, succ': K -> seq<K>, root: K, k: nat)
    requires forall u :: SameSuccessors(succ, succ', u)
    ensures Within(succ, root, k) == Within(succ', root, k)
  {
    if k > 0 {
      WithinCongruence(succ, succ', root, k - 1);
      ImageCongruence(succ, succ', Within(succ, root, k - 1));
      WithinWidens(succ, root, k - 1);
      WithinWidens(succ', root, k - 1);
    }
  }
}
