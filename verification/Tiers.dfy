/** The four operational tiers, least to most severe. The database admits no other value. */
module Tiers {

  datatype Tier = Normal | Watch | Elevated | Critical

  function Rank(t: Tier): nat {
    match t
    case Normal => 0
    case Watch => 1
    case Elevated => 2
    case Critical => 3
  }

  /** `a` is less severe than `b`. */
  ghost predicate Milder(a: Tier, b: Tier) {
    match b
    case Normal => false
    case Watch => a == Normal
    case Elevated => a == Normal || a == Watch
    case Critical => a != Critical
  }

  /** Ranks order the tiers by severity. */
  lemma RankIsSeverity(a: Tier, b: Tier)
    ensures Rank(a) < Rank(b) <==> Milder(a, b)
    ensures Rank(a) == Rank(b) <==> a == b
  {
  }
}
