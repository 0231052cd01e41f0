/**
 * Directed graphs with natural-number edge weights, the distance values the
 * shortest-path search stores on each vertex, and paths with their costs.
 */
module Graphs {

  /**
   * `edges[u]` maps each neighbour of `u` to the weight of the edge to it.
   * Weights are naturals, so every edge is non-negative.
   */
  datatype Graph<V> = Graph(vertices: set<V>, edges: map<V, map<V, nat>>)

  /** Every vertex has an edge map, and every edge ends at a vertex of the graph. */
  ghost predicate WellFormed<V>(g: Graph<V>)
  {
    g.edges.Keys == g.vertices &&
    forall u :: u in g.edges ==> g.edges[u].Keys <= g.vertices
  }

  predicate IsEdge<V>(g: Graph<V>, u: V, v: V)
  {
    u in g.edges && v in g.edges[u]
  }

  /**
   * A tentative distance: `Inf` is the "infinity" sentinel every vertex starts
   * with, `Fin(n)` the cost of some path found so far.
   */
  datatype Dist = Inf | Fin(n: nat)
  {
    /** Strictly smaller: every finite value is below the sentinel. */
    predicate Below(that: Dist)
    {
      Fin? && (that.Inf? || n < that.n)
    }

    predicate AtMost(that: Dist)
    {
      that.Inf? || (Fin? && n <= that.n)
    }
  }

  function Last<V>(p: seq<V>): (v: V)
    requires p != []
  {
    p[|p| - 1]
  }

  /** A non-empty sequence of vertices, each joined to the next by an edge. */
  ghost predicate IsPath<V>(g: Graph<V>, p: seq<V>)
  {
    |p| == 1 ||
    (|p| > 1 && IsPath(g, p[..|p| - 1]) && IsEdge(g, p[|p| - 2], p[|p| - 1]))
  }

  ghost predicate IsPathFrom<V>(g: Graph<V>, s: V, p: seq<V>)
  {
    IsPath(g, p) && p[0] == s
  }

  /** The sum of the weights of the edges along `p`. */
  ghost function Cost<V>(g: Graph<V>, p: seq<V>): (c: nat)
    requires IsPath(g, p)
  {
    if |p| == 1 then 0
    else Cost(g, p[..|p| - 1]) + g.edges[p[|p| - 2]][p[|p| - 1]]
  }

  ghost predicate Reachable<V(!new)>(g: Graph<V>, s: V, v: V)
  {
    exists p :: IsPathFrom(g, s, p) && Last(p) == v
  }

  /** Extending a path by one edge gives a path that costs that edge's weight more. */
  lemma {:induction false} Extend<V>(g: Graph<V>, s: V, p: seq<V>, v: V)
    requires IsPathFrom(g, s, p) && IsEdge(g, Last(p), v)
    ensures IsPathFrom(g, s, p + [v]) && Last(p + [v]) == v
    ensures Cost(g, p + [v]) == Cost(g, p) + g.edges[Last(p)][v]
  {
  }

  /** No path from `s` to `v` costs less than `d`; `Inf` says there is no path at all. */
  ghost predicate LowerBound<V(!new)>(g: Graph<V>, s: V, v: V, d: Dist)
  {
    forall p :: IsPathFrom(g, s, p) && Last(p) == v ==> d.AtMost(Fin(Cost(g, p)))
  }

  /** A finite `d` is the cost of some path from `s` to `v`. */
  ghost predicate Attained<V(!new)>(g: Graph<V>, s: V, v: V, d: Dist)
  {
    d.Fin? ==> exists p :: IsPathFrom(g, s, p) && Last(p) == v && Cost(g, p) == d.n
  }

  /** `d` is the shortest-path cost from `s` to `v`, `Inf` when `v` cannot be reached. */
  ghost predicate IsShortest<V(!new)>(g: Graph<V>, s: V, v: V, d: Dist)
  {
    LowerBound(g, s, v, d) && Attained(g, s, v, d)
  }

  /** The infinity sentinel marks exactly the vertices that cannot be reached. */
  lemma ShortestInfIffUnreachable<V(!new)>(g: Graph<V>, s: V, v: V, d: Dist)
    requires IsShortest(g, s, v, d)
    ensures d == Inf <==> !Reachable(g, s, v)
  {
  }

  /** Shortest distances are unique: any two runs agree on every distance. */
  lemma ShortestUnique<V(!new)>(g: Graph<V>, s: V, v: V, d1: Dist, d2: Dist)
    requires IsShortest(g, s, v, d1) && IsShortest(g, s, v, d2)
    ensures d1 == d2
  {
  }
}
