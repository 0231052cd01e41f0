/**
 * Single-source shortest paths by Dijkstra's algorithm.
 *
 * The per-vertex `distance` and `previous` fields the algorithm overwrites are
 * the maps `dist` and `prev`; the priority queue is the set `queue`, polled by
 * taking any vertex of least current distance; `inQueue` is the membership set,
 * which only grows, so no vertex is queued twice.
 */
module Dijkstra {
  import opened Wrappers
  import opened Graphs

  /** Resets every vertex to the infinity sentinel and no predecessor. */
  method Initialise<V>(g: Graph<V>) returns (dist: map<V, Dist>, prev: map<V, Option<V>>)
    ensures dist.Keys == prev.Keys == g.vertices
    ensures forall v :: v in g.vertices ==> dist[v] == Inf && prev[v] == None
  {
    dist, prev := map[], map[];
    var todo := g.vertices;
    while todo != {}
      invariant todo <= g.vertices
      invariant dist.Keys == prev.Keys == g.vertices - todo
      invariant forall v :: v in dist ==> dist[v] == Inf
      invariant forall v :: v in prev ==> prev[v] == None
      decreases todo
    {
      var v :| v in todo;
      dist := dist[v := Inf];
      prev := prev[v := None];
      todo := todo - {v};
    }
  }

  /** Going from polled vertex `u` along its edge improves the distance recorded for `x`. */
  ghost predicate Improves<V>(g: Graph<V>, u: V, dist: map<V, Dist>, x: V)
  {
    IsEdge(g, u, x) && u in dist && x in dist && dist[u].Fin? &&
    Fin(dist[u].n + g.edges[u][x]).Below(dist[x])
  }

  /** The body of the edge loop: relax the single edge from `u` to `x`. */
  method RelaxEdge<V>(g: Graph<V>, u: V, x: V, dist: map<V, Dist>, prev: map<V, Option<V>>,
                      queue: set<V>, inQueue: set<V>)
    returns (dist': map<V, Dist>, prev': map<V, Option<V>>, queue': set<V>, inQueue': set<V>)
    requires IsEdge(g, u, x) && u in dist && x in dist && dist[u].Fin?
    ensures Improves(g, u, dist, x) ==>
      dist' == dist[x := Fin(dist[u].n + g.edges[u][x])] && prev' == prev[x := Some(u)] &&
      inQueue' == inQueue + {x} && queue' == (if x in inQueue then queue else queue + {x})
    ensures !Improves(g, u, dist, x) ==>
      dist' == dist && prev' == prev && inQueue' == inQueue && queue' == queue
  {
    dist', prev', queue', inQueue' := dist, prev, queue, inQueue;
    var d := Fin(dist[u].n + g.edges[u][x]);
    if d.Below(dist[x]) {
      dist' := dist[x := d];
      prev' := prev[x := Some(u)];
      if x !in inQueue {
        queue' := queue + {x};
        inQueue' := inQueue + {x};
      }
    }
  }

  /**
   * The loop over the edges of the polled vertex `u`, taken in any order.
   * Each neighbour whose distance `dist[u] + weight` beats gets that distance
   * and `u` as predecessor, and is queued unless it has been queued before.
   */
  method RelaxEdges<V(!new)>(g: Graph<V>, u: V, dist: map<V, Dist>, prev: map<V, Option<V>>,
                       queue: set<V>, inQueue: set<V>)
    returns (dist': map<V, Dist>, prev': map<V, Option<V>>, queue': set<V>, inQueue': set<V>)
    requires u in g.edges && g.edges[u].Keys <= g.vertices
    requires dist.Keys == prev.Keys == g.vertices && u in g.vertices && dist[u].Fin?
    ensures dist'.Keys == prev'.Keys == g.vertices
    // a distance never increases
    ensures forall x :: x in g.vertices ==> dist'[x].AtMost(dist[x])
    // a distance changes only to the polled distance plus the edge weight, with `u` as predecessor
    ensures forall x :: x in g.vertices ==>
      if Improves(g, u, dist, x) then dist'[x] == Fin(dist[u].n + g.edges[u][x]) && prev'[x] == Some(u)
      else dist'[x] == dist[x] && prev'[x] == prev[x]
    // afterwards no edge from `u` can improve anything
    ensures forall x :: IsEdge(g, u, x) ==> dist'[x].AtMost(Fin(dist'[u].n + g.edges[u][x]))
    ensures dist'[u] == dist[u]
    // membership only grows, and only vertices never queued before are queued
    ensures forall x :: x in inQueue' <==> x in inQueue || Improves(g, u, dist, x)
    ensures forall x :: x in queue' <==> x in queue || (Improves(g, u, dist, x) && x !in inQueue)
  {
    dist', prev', queue', inQueue' := dist, prev, queue, inQueue;
    ghost var added: set<V> := {};
    var todo := g.edges[u].Keys;
    while todo != {}
      invariant todo <= g.edges[u].Keys
      invariant dist'.Keys == prev'.Keys == g.vertices
      invariant forall y :: y in g.vertices ==>
        if y !in todo && Improves(g, u, dist, y) then dist'[y] == Fin(dist[u].n + g.edges[u][y]) && prev'[y] == Some(u)
        else dist'[y] == dist[y] && prev'[y] == prev[y]
      invariant forall y :: y in added <==> y !in todo && Improves(g, u, dist, y)
      invariant inQueue' == inQueue + added
      invariant queue' == queue + (added - inQueue)
      decreases todo
    {
      var x :| x in todo;
      assert dist'[u] == dist[u] by {
        if u !in todo {
          assert !Improves(g, u, dist, u);
        }
      }
      assert dist'[x] == dist[x];
      ghost var improves := Improves(g, u, dist, x);
      assert Improves(g, u, dist', x) == improves;
      dist', prev', queue', inQueue' := RelaxEdge(g, u, x, dist', prev', queue', inQueue');
      if improves {
        added := added + {x};
      }
      todo := todo - {x};
    }
  }

  /**
   * The predecessor recorded for `v` is a vertex with an edge to `v`, and
   * `v`'s distance is that vertex's distance plus the edge's weight.
   */
  ghost predicate PrevStep<V>(g: Graph<V>, dist: map<V, Dist>, prev: map<V, Option<V>>, v: V)
  {
    v in prev && prev[v].Some? && IsEdge(g, prev[v].value, v) &&
    v in dist && prev[v].value in dist && dist[prev[v].value].Fin? &&
    dist[v] == Fin(dist[prev[v].value].n + g.edges[prev[v].value][v])
  }

  /**
   * The path read back by following `previous` from `v` until a vertex
   * without one, visiting at most `fuel` predecessors.
   */
  function Trace<V>(prev: map<V, Option<V>>, v: V, fuel: nat): (p: seq<V>)
    ensures p != [] && Last(p) == v && |p| <= fuel + 1
  {
    if fuel == 0 || v !in prev || prev[v].None? then [v]
    else Trace(prev, prev[v].value, fuel - 1) + [v]
  }

  /** Following `previous` from `v` leads back to `s` along a path costing `dist[v]`. */
  ghost predicate TraceReaches<V>(g: Graph<V>, s: V, dist: map<V, Dist>, prev: map<V, Option<V>>, v: V, fuel: nat)
    requires v in dist && dist[v].Fin?
  {
    var p := Trace(prev, v, fuel);
    IsPathFrom(g, s, p) && Cost(g, p) == dist[v].n
  }

  /** A non-empty queue holds a vertex of least distance, which `poll` returns. */
  lemma {:induction false} LeastExists<V>(queue: set<V>, dist: map<V, Dist>) returns (u: V)
    requires queue != {} && queue <= dist.Keys
    ensures u in queue && forall x :: x in queue ==> dist[u].AtMost(dist[x])
    decreases queue
  {
    var y :| y in queue;
    if queue == {y} {
      u := y;
    } else {
      var rest := queue - {y};
      u := LeastExists(rest, dist);
      if !dist[u].AtMost(dist[y]) {
        u := y;
      }
    }
  }

  /**
   * The key step of the correctness argument. Suppose every polled (`done`)
   * vertex has distance at most `m`, every queued one at least `m`, every
   * vertex in neither is still at the sentinel, and every edge out of a
   * polled vertex has been relaxed. Then a path from `s` ending at a polled
   * vertex costs at least that vertex's distance, and one ending anywhere
   * else costs at least `m`.
   */
  lemma {:induction false} Frontier<V>(g: Graph<V>, s: V, dist: map<V, Dist>,
                                       done: set<V>, queue: set<V>, m: nat, p: seq<V>)
    requires WellFormed(g) && dist.Keys == g.vertices && s in g.vertices
    requires done <= g.vertices && queue <= g.vertices
    requires dist[s] == Fin(0) && (s in done || s in queue)
    requires forall v :: v in g.vertices && v !in done && v !in queue ==> dist[v] == Inf
    requires forall v :: v in done ==> dist[v].AtMost(Fin(m))
    requires forall v :: v in queue ==> Fin(m).AtMost(dist[v])
    requires forall y, x :: y in done && IsEdge(g, y, x) ==>
      dist[y].Fin? && dist[x].AtMost(Fin(dist[y].n + g.edges[y][x]))
    requires IsPathFrom(g, s, p)
    ensures Last(p) in g.vertices
    ensures Last(p) in done ==> dist[Last(p)].AtMost(Fin(Cost(g, p)))
    ensures Last(p) !in done ==> m <= Cost(g, p)
  {
    if |p| > 1 {
      var q := p[..|p| - 1];
      Frontier(g, s, dist, done, queue, m, q);
      assert Cost(g, p) == Cost(g, q) + g.edges[Last(q)][Last(p)];
    }
  }

  /** Walking `previous` back from a polled vertex reconstructs a path of exactly its distance. */
  lemma {:induction false} TraceOk<V>(g: Graph<V>, s: V, dist: map<V, Dist>, prev: map<V, Option<V>>,
                                      done: set<V>, order: map<V, nat>, v: V, fuel: nat)
    requires s in prev && prev[s] == None && s in dist && dist[s] == Fin(0)
    requires order.Keys == done
    requires forall w :: w in done ==> w in dist && dist[w].Fin?
    requires forall w :: w in done && w != s ==>
      PrevStep(g, dist, prev, w) && prev[w].value in done && order[prev[w].value] < order[w]
    requires v in done && order[v] <= fuel
    ensures TraceReaches(g, s, dist, prev, v, fuel)
    decreases fuel
  {
    if v != s {
      var u := prev[v].value;
      TraceOk(g, s, dist, prev, done, order, u, fuel - 1);
      Extend(g, s, Trace(prev, u, fuel - 1), v);
    }
  }

  // ---------------------------------------------------------------------
  // The invariant of the poll loop, in four parts, and one lemma per part
  // showing that a poll followed by relaxing the polled vertex's edges keeps
  // it. `done` is the set of polled vertices, `inQueue - queue`.
  // ---------------------------------------------------------------------

  /** Which vertices have been touched: exactly those ever queued. */
  ghost predicate Shape<V>(g: Graph<V>, s: V, dist: map<V, Dist>, prev: map<V, Option<V>>,
                           queue: set<V>, inQueue: set<V>, done: set<V>)
  {
    dist.Keys == prev.Keys == g.vertices &&
    queue <= inQueue <= g.vertices && done == inQueue - queue &&
    s in inQueue && dist[s] == Fin(0) && prev[s] == None &&
    (forall v :: v in g.vertices && v !in inQueue ==> dist[v] == Inf && prev[v] == None) &&
    (forall v :: v in inQueue ==> dist[v].Fin?)
  }

  /**
   * Polled vertices lie at or below `level` (the last polled distance), queued
   * ones at or above it, and every edge out of a polled vertex is relaxed.
   */
  ghost predicate Levels<V(!new)>(g: Graph<V>, dist: map<V, Dist>, queue: set<V>, done: set<V>, level: nat)
    requires WellFormed(g) && dist.Keys == g.vertices && done <= g.vertices && queue <= g.vertices
  {
    (forall v :: v in done ==> dist[v].AtMost(Fin(level))) &&
    (forall v :: v in queue ==> Fin(level).AtMost(dist[v])) &&
    (forall y, x :: y in done && IsEdge(g, y, x) ==>
      dist[y].Fin? && dist[x].AtMost(Fin(dist[y].n + g.edges[y][x])))
  }

  /**
   * Every queued vertex other than the source has a consistent predecessor
   * that was polled, and polled earlier than the vertex itself.
   */
  ghost predicate Tree<V>(g: Graph<V>, s: V, dist: map<V, Dist>, prev: map<V, Option<V>>,
                          inQueue: set<V>, done: set<V>, order: map<V, nat>)
  {
    order.Keys == done &&
    (forall v :: v in done ==> order[v] < |done|) &&
    // triggered on PrevStep only: the predecessor of a queued vertex is queued too,
    // and a trigger on membership would follow the chain of predecessors forever
    (forall v {:trigger PrevStep(g, dist, prev, v)} :: v in inQueue && v != s ==>
      PrevStep(g, dist, prev, v) && prev[v].value in done &&
      (v in done ==> order[prev[v].value] < order[v]))
  }

  /** `polled` lists the polled vertices without repetition, in order of distance. */
  ghost predicate PollLog<V>(dist: map<V, Dist>, done: set<V>, order: map<V, nat>, polled: seq<V>)
    requires done <= dist.Keys && order.Keys == done
  {
    |polled| == |done| &&
    (forall i :: 0 <= i < |polled| ==> polled[i] in done && order[polled[i]] == i) &&
    (forall v :: v in done ==> order[v] < |polled| && polled[order[v]] == v) &&
    (forall i, j :: 0 <= i < j < |polled| ==> dist[polled[i]].AtMost(dist[polled[j]]))
  }

  /** The facts about one poll-and-relax step that the step lemmas rely on. */
  ghost predicate PollStep<V(!new)>(g: Graph<V>, u: V, dist: map<V, Dist>, prev: map<V, Option<V>>,
                              queue: set<V>, inQueue: set<V>,
                              dist': map<V, Dist>, prev': map<V, Option<V>>, queue': set<V>, inQueue': set<V>)
    requires WellFormed(g) && dist.Keys == prev.Keys == g.vertices && queue <= g.vertices
  {
    u in queue && dist[u].Fin? && (forall x :: x in queue ==> dist[u].AtMost(dist[x])) &&
    dist'.Keys == prev'.Keys == g.vertices &&
    (forall x :: x in g.vertices ==>
      if Improves(g, u, dist, x) then dist'[x] == Fin(dist[u].n + g.edges[u][x]) && prev'[x] == Some(u)
      else dist'[x] == dist[x] && prev'[x] == prev[x]) &&
    (forall x :: IsEdge(g, u, x) ==> dist'[x].AtMost(Fin(dist'[u].n + g.edges[u][x]))) &&
    dist'[u] == dist[u] &&
    (forall x :: x in inQueue' <==> x in inQueue || Improves(g, u, dist, x)) &&
    (forall x :: x in queue' <==> (x in queue && x != u) || (Improves(g, u, dist, x) && x !in inQueue))
  }

  lemma StepShape<V(!new)>(g: Graph<V>, s: V, u: V, dist: map<V, Dist>, prev: map<V, Option<V>>,
                           queue: set<V>, inQueue: set<V>, done: set<V>,
                           dist': map<V, Dist>, prev': map<V, Option<V>>, queue': set<V>, inQueue': set<V>)
    requires WellFormed(g) && Shape(g, s, dist, prev, queue, inQueue, done)
    requires PollStep(g, u, dist, prev, queue, inQueue, dist', prev', queue', inQueue')
    ensures Shape(g, s, dist', prev', queue', inQueue', done + {u})
  {
  }

  lemma StepLevels<V(!new)>(g: Graph<V>, s: V, u: V, dist: map<V, Dist>, prev: map<V, Option<V>>,
                            queue: set<V>, inQueue: set<V>, done: set<V>, level: nat,
                            dist': map<V, Dist>, prev': map<V, Option<V>>, queue': set<V>, inQueue': set<V>)
    requires WellFormed(g) && Shape(g, s, dist, prev, queue, inQueue, done)
    requires Levels(g, dist, queue, done, level)
    requires PollStep(g, u, dist, prev, queue, inQueue, dist', prev', queue', inQueue')
    ensures Shape(g, s, dist', prev', queue', inQueue', done + {u})
    ensures Levels(g, dist', queue', done + {u}, dist[u].n)
    ensures forall v :: v in done ==> dist[v].AtMost(dist[u])
    ensures forall v :: v in done + {u} ==> dist'[v] == dist[v]
  {
    StepShape(g, s, u, dist, prev, queue, inQueue, done, dist', prev', queue', inQueue');
    var m := dist[u].n;
    forall v | v in done + {u} ensures dist'[v] == dist[v] && dist'[v].AtMost(Fin(m)) {
      assert !Improves(g, u, dist, v);
    }
    forall v | v in queue' ensures Fin(m).AtMost(dist'[v]) {
      if !Improves(g, u, dist, v) {
        assert v in queue;
      }
    }
    forall y, x | y in done + {u} && IsEdge(g, y, x)
      ensures dist'[y].Fin? && dist'[x].AtMost(Fin(dist'[y].n + g.edges[y][x]))
    {
      if y != u {
        assert dist'[x].AtMost(dist[x]);
      }
    }
  }

  lemma StepTree<V(!new)>(g: Graph<V>, s: V, u: V, dist: map<V, Dist>, prev: map<V, Option<V>>,
                          inQueue: set<V>, done: set<V>, order: map<V, nat>,
                          dist': map<V, Dist>, prev': map<V, Option<V>>, inQueue': set<V>)
    requires dist.Keys == prev.Keys == dist'.Keys == prev'.Keys == g.vertices && done <= inQueue <= g.vertices
    requires u in inQueue && u !in done && dist[u].Fin? && dist'[u] == dist[u]
    requires forall v :: v in done ==> dist[v].AtMost(dist[u])
    requires forall x :: x in g.vertices ==>
      if Improves(g, u, dist, x) then dist'[x] == Fin(dist[u].n + g.edges[u][x]) && prev'[x] == Some(u)
      else dist'[x] == dist[x] && prev'[x] == prev[x]
    requires forall x :: x in inQueue' ==> x in inQueue || Improves(g, u, dist, x)
    requires Tree(g, s, dist, prev, inQueue, done, order)
    ensures Tree(g, s, dist', prev', inQueue', done + {u}, order[u := |done|])
  {
    var done', order' := done + {u}, order[u := |done|];
    forall v | v in inQueue' && v != s
      ensures PrevStep(g, dist', prev', v) && prev'[v].value in done' &&
        (v in done' ==> order'[prev'[v].value] < order'[v])
    {
      if Improves(g, u, dist, v) {
        assert prev'[v] == Some(u) && dist'[u] == dist[u];
        assert v !in done';
      } else {
        assert v in inQueue && PrevStep(g, dist, prev, v);
        var p := prev[v].value;
        assert p in done;
        assert !Improves(g, u, dist, p);
        assert prev'[v] == prev[v] && dist'[v] == dist[v] && dist'[p] == dist[p];
      }
    }
  }

  lemma StepLog<V>(u: V, dist: map<V, Dist>, done: set<V>, order: map<V, nat>, polled: seq<V>,
                   dist': map<V, Dist>)
    requires done <= dist.Keys && dist'.Keys == dist.Keys && order.Keys == done
    requires u in dist && u !in done && PollLog(dist, done, order, polled)
    requires forall v :: v in done ==> dist[v].AtMost(dist[u])
    requires forall v :: v in done + {u} ==> dist'[v] == dist[v]
    ensures PollLog(dist', done + {u}, order[u := |done|], polled + [u])
  {
  }

  /** The whole invariant of the poll loop. */
  ghost predicate Inv<V(!new)>(g: Graph<V>, s: V, dist: map<V, Dist>, prev: map<V, Option<V>>,
                               queue: set<V>, inQueue: set<V>, done: set<V>, level: nat,
                               order: map<V, nat>, polled: seq<V>)
  {
    WellFormed(g) && Shape(g, s, dist, prev, queue, inQueue, done) &&
    Levels(g, dist, queue, done, level) && Tree(g, s, dist, prev, inQueue, done, order) &&
    PollLog(dist, done, order, polled)
  }

  /** Polling a vertex of least distance and relaxing its edges keeps the invariant. */
  lemma Step<V(!new)>(g: Graph<V>, s: V, u: V, dist: map<V, Dist>, prev: map<V, Option<V>>,
                      queue: set<V>, inQueue: set<V>, done: set<V>, level: nat,
                      order: map<V, nat>, polled: seq<V>,
                      dist': map<V, Dist>, prev': map<V, Option<V>>, queue': set<V>, inQueue': set<V>)
    requires Inv(g, s, dist, prev, queue, inQueue, done, level, order, polled)
    requires u in queue && forall x :: x in queue ==> dist[u].AtMost(dist[x])
    requires dist'.Keys == prev'.Keys == g.vertices
    requires forall x :: x in g.vertices ==>
      if Improves(g, u, dist, x) then dist'[x] == Fin(dist[u].n + g.edges[u][x]) && prev'[x] == Some(u)
      else dist'[x] == dist[x] && prev'[x] == prev[x]
    requires forall x :: IsEdge(g, u, x) ==> dist'[x].AtMost(Fin(dist'[u].n + g.edges[u][x]))
    requires dist'[u] == dist[u]
    requires forall x :: x in inQueue' <==> x in inQueue || Improves(g, u, dist, x)
    requires forall x :: x in queue' <==> x in queue - {u} || (Improves(g, u, dist, x) && x !in inQueue)
    ensures u in g.vertices - done
    ensures Inv(g, s, dist', prev', queue', inQueue', done + {u}, dist[u].n, order[u := |done|], polled + [u])
  {
    assert PollStep(g, u, dist, prev, queue, inQueue, dist', prev', queue', inQueue');
    StepLevels(g, s, u, dist, prev, queue, inQueue, done, level, dist', prev', queue', inQueue');
    StepTree(g, s, u, dist, prev, inQueue, done, order, dist', prev', inQueue');
    StepLog(u, dist, done, order, polled, dist');
  }

  /** When the queue runs empty, the invariant gives everything `Run` promises. */
  lemma Finish<V(!new)>(g: Graph<V>, s: V, dist: map<V, Dist>, prev: map<V, Option<V>>,
                        inQueue: set<V>, done: set<V>, level: nat, order: map<V, nat>, polled: seq<V>)
    requires Inv(g, s, dist, prev, {}, inQueue, done, level, order, polled)
    ensures dist.Keys == prev.Keys == g.vertices
    ensures dist[s] == Fin(0) && prev[s] == None
    ensures forall v :: v in g.vertices ==> IsShortest(g, s, v, dist[v])
    ensures forall v :: v in g.vertices && dist[v] == Inf ==> prev[v] == None
    ensures forall v :: v in g.vertices && v != s && dist[v].Fin? ==> PrevStep(g, dist, prev, v)
    ensures forall v :: v in g.vertices && dist[v].Fin? ==> TraceReaches(g, s, dist, prev, v, |g.vertices|)
    ensures forall i :: 0 <= i < |polled| ==> polled[i] in g.vertices
    ensures forall v :: v in g.vertices ==> (v in polled <==> dist[v].Fin?)
    ensures forall i, j :: 0 <= i < j < |polled| ==> polled[i] != polled[j] && dist[polled[i]].AtMost(dist[polled[j]])
    ensures |polled| <= |g.vertices|
  {
    SubsetSize(done, g.vertices);
    forall v | v in g.vertices ensures v in polled <==> dist[v].Fin? {
      if v in done {
        assert polled[order[v]] == v;
      }
    }
    forall i, j | 0 <= i < j < |polled| ensures polled[i] != polled[j] {
      assert order[polled[i]] != order[polled[j]];
    }
    FinishPaths(g, s, dist, prev, inQueue, done, level, order, polled);
  }

  /** With the queue empty, every distance is optimal and every predecessor chain realises it. */
  lemma FinishPaths<V(!new)>(g: Graph<V>, s: V, dist: map<V, Dist>, prev: map<V, Option<V>>,
                             inQueue: set<V>, done: set<V>, level: nat, order: map<V, nat>, polled: seq<V>)
    requires Inv(g, s, dist, prev, {}, inQueue, done, level, order, polled)
    ensures forall v :: v in g.vertices ==> IsShortest(g, s, v, dist[v])
    ensures forall v :: v in g.vertices && dist[v].Fin? ==> TraceReaches(g, s, dist, prev, v, |g.vertices|)
  {
    SubsetSize(done, g.vertices);
    forall v | v in g.vertices
      ensures IsShortest(g, s, v, dist[v])
      ensures dist[v].Fin? ==> TraceReaches(g, s, dist, prev, v, |g.vertices|)
    {
      forall p | IsPathFrom(g, s, p) && Last(p) == v
        ensures dist[v].AtMost(Fin(Cost(g, p)))
      {
        Frontier(g, s, dist, done, {}, level + Cost(g, p) + 1, p);
      }
      if dist[v].Fin? {
        TraceOk(g, s, dist, prev, done, order, v, |g.vertices|);
      }
    }
  }

  /**
   * Dijkstra's algorithm from source `s`. Returns each vertex's final
   * distance and predecessor; the ghost `polled` lists the vertices in the
   * order the queue gave them up.
   */
  method Run<V(!new)>(g: Graph<V>, s: V) returns (dist: map<V, Dist>, prev: map<V, Option<V>>, ghost polled: seq<V>)
    requires WellFormed(g) && s in g.vertices
    ensures dist.Keys == prev.Keys == g.vertices
    ensures dist[s] == Fin(0) && prev[s] == None
    // every distance is the shortest-path cost, the sentinel exactly for unreachable vertices
    ensures forall v :: v in g.vertices ==> IsShortest(g, s, v, dist[v])
    ensures forall v :: v in g.vertices && dist[v] == Inf ==> prev[v] == None
    // predecessors are consistent and lead back to the source at exactly the recorded cost
    ensures forall v :: v in g.vertices && v != s && dist[v].Fin? ==> PrevStep(g, dist, prev, v)
    ensures forall v :: v in g.vertices && dist[v].Fin? ==> TraceReaches(g, s, dist, prev, v, |g.vertices|)
    // each reachable vertex is polled exactly once, in order of distance
    ensures forall i :: 0 <= i < |polled| ==> polled[i] in g.vertices
    ensures forall v :: v in g.vertices ==> (v in polled <==> dist[v].Fin?)
    ensures forall i, j :: 0 <= i < j < |polled| ==> polled[i] != polled[j] && dist[polled[i]].AtMost(dist[polled[j]])
    ensures |polled| <= |g.vertices|
  {
    dist, prev := Initialise(g);
    dist := dist[s := Fin(0)];
    var queue: set<V> := {s};
    var inQueue: set<V> := {s};
    ghost var done: set<V> := {};
    ghost var order: map<V, nat> := map[];
    ghost var level: nat := 0;
    polled := [];
    while queue != {}
      invariant Inv(g, s, dist, prev, queue, inQueue, done, level, order, polled)
      decreases g.vertices - done
    {
      ghost var least := LeastExists(queue, dist);
      var u :| u in queue && forall x :: x in queue ==> dist[u].AtMost(dist[x]);
      var dist', prev', queue', inQueue' := RelaxEdges(g, u, dist, prev, queue - {u}, inQueue);
      Step(g, s, u, dist, prev, queue, inQueue, done, level, order, polled, dist', prev', queue', inQueue');
      order := order[u := |done|];
      polled := polled + [u];
      done := done + {u};
      level := dist[u].n;
      dist, prev, queue, inQueue := dist', prev', queue', inQueue';
    }
    Finish(g, s, dist, prev, inQueue, done, level, order, polled);
  }

  lemma {:induction false} SubsetSize<V>(a: set<V>, b: set<V>)
    requires a <= b
    ensures |a| <= |b|
    decreases a
  {
    if a != {} {
      var x :| x in a;
      SubsetSize(a - {x}, b - {x});
    }
  }
}
