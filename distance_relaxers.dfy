/** The shortest-distance relaxer: the policy that A* uses to start, combine and
    compare distances.  Distances are exact integers with an explicit infinity. */
module DistanceRelaxers {

  /** A tentative distance: unreached (`Inf`) or a finite path length. */
  datatype Dist = Inf | Fin(value: int)

  /** The distance every vertex starts with. */
  const InitialDistance: Dist := Inf

  /** Extends a distance by an edge weight (or a heuristic estimate). */
  function Combine(d: Dist, w: int): Dist
  {
    match d
    case Inf => Inf
    case Fin(x) => Fin(x + w)
  }

  /** The relaxer's comparison: `a` is strictly better (shorter) than `b`. */
  predicate Less(a: Dist, b: Dist)
  {
    match (a, b)
    case (Fin(x), Fin(y)) => x < y
    case (Fin(_), Inf) => true
    case (Inf, _) => false
  }

  /** `a` is no worse than `b`. */
  predicate AtMost(a: Dist, b: Dist)
  {
    !Less(b, a)
  }

  /** An edge of weight `w` from a vertex at distance `du` cannot improve `dv`. */
  predicate Relaxed(du: Dist, w: int, dv: Dist)
  {
    AtMost(dv, Combine(du, w))
  }

  /** `Less` is a strict total order and `AtMost` its reflexive closure. */
  lemma LessIsStrictTotalOrder(a: Dist, b: Dist, c: Dist)
    ensures !Less(a, a)
    ensures Less(a, b) && Less(b, c) ==> Less(a, c)
    ensures a != b ==> Less(a, b) || Less(b, a)
    ensures AtMost(a, b) <==> Less(a, b) || a == b
  {
  }

  /** Extending a distance by a non-negative weight never makes it better; this is why
      a relaxation needs the non-negative weights that examining an edge enforces. */
  lemma CombineNonNegative(d: Dist, w: int)
    requires w >= 0
    ensures !Less(Combine(d, w), d)
  {
  }
}
