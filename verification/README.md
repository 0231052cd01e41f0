# Linked list and Dijkstra's shortest paths, modelled in Dafny

This project models two components of the `algorithms-and-data-structures`
repository and proves properties of them:

- **`LinkedList<T>`** is a singly-linked list. It keeps `head`, `tail` and
  `size` fields and `Node` objects whose `next` links are updated in place.
  It can append, prepend, peek at and remove from either end, and it has an
  iterator that walks the nodes until it meets `null`.
  - `LinkedList.dfy` models it as Dafny classes: `Node`, `LinkedList` and
    `ListIterator`.
  - The ghost `Contents` is the sequence of items and the ghost `Spine` is the
    sequence of nodes that hold them.
  - `Valid()` ties `head`, `tail` and `size` to these two sequences.
  - Two behaviours of the code are kept on purpose. First, `removeLast` leaves
    the new tail's `next` pointing at the removed node. Second, a `removeFirst`
    that empties the list leaves `tail` on the removed node, so `getLast` then
    reports a stale item.
- **`Dijkstra.run`** computes single-source shortest paths over a directed
  graph with non-negative weights.
  - `Graphs.dfy` holds the graph, the distance values and the paths:
    - a graph is a set of vertices plus, for each vertex, a map from its
      neighbours to natural-number weights;
    - a distance is `Inf`, which stands for the `Double.MAX_VALUE` sentinel,
      or `Fin(n)`;
    - paths and their costs are defined recursively, edge by edge.
  - `Dijkstra.dfy` models `run` as methods with loops:
    - the initialisation loop;
    - seeding the source;
    - the poll loop;
    - the loop over the polled vertex's edges, taken in any order.
  - The per-vertex `distance` and `previous` fields become the maps `dist` and
    `prev`, which `Run` returns.
  - The queue is a set, from which a poll takes any vertex of least current
    distance. `inQueue` is the set that only grows.
  - The proofs show:
    - on termination every distance is the shortest-path cost, and `Inf`
      exactly for unreachable vertices;
    - every predecessor is consistent, and following `previous` leads back to
      the source along a path of exactly that cost;
    - each vertex is polled at most once, in order of distance.

`Wrappers.dfy` holds `Option`. Its `None` stands for the `null` the Java code
returns, and for the `NoSuchElementException` of an exhausted iterator.

## Model

| member | source | states |
|---|---|---|
| `LinkedLists.Node.constructor` | src/main/java/com/stephenramthun/datastructures/LinkedList.java:208-211 | a new node holds the given value and has no successor |
| `LinkedLists.LinkedList.Empty` | src/main/java/com/stephenramthun/datastructures/LinkedList.java:21-25 | a new list is valid and empty, with `head`, `tail` null and `size` 0 |
| `LinkedLists.LinkedList.Singleton` | src/main/java/com/stephenramthun/datastructures/LinkedList.java:32-36 | the one-item list holds exactly `[item]`, with `head == tail`, size 1 and no successor |
| `LinkedLists.LinkedList.Size` | src/main/java/com/stephenramthun/datastructures/LinkedList.java:43-45 | the size returned is the number of items in the contents |
| `LinkedLists.LinkedList.IsEmpty` | src/main/java/com/stephenramthun/datastructures/LinkedList.java:51-53 | true exactly when the contents are empty |
| `LinkedLists.LinkedList.Add` | src/main/java/com/stephenramthun/datastructures/LinkedList.java:60-70 | contents become `old + [item]`, size grows by one, the list stays valid, and the tail is a fresh node holding `item` with no successor |
| `LinkedLists.LinkedList.AddFirst` | src/main/java/com/stephenramthun/datastructures/LinkedList.java:77-88 | contents become `[item] + old`, size grows by one, the list stays valid and `head` is a fresh node holding `item`; on an empty list the new node is both `head` and `tail` and has no successor; on a non-empty list `tail` and the node after it are unchanged |
| `LinkedLists.LinkedList.AddLast` | src/main/java/com/stephenramthun/datastructures/LinkedList.java:95-97 | the same as `add`: contents `old + [item]`, size plus one, the list stays valid, and the tail is a fresh node holding `item` with no successor |
| `LinkedLists.LinkedList.GetFirst` | src/main/java/com/stephenramthun/datastructures/LinkedList.java:104-110 | returns the first item, or `None` (null) exactly when the list is empty |
| `LinkedLists.LinkedList.RemoveFirst` | src/main/java/com/stephenramthun/datastructures/LinkedList.java:117-131 | an empty list gives `None` and stays empty; otherwise it returns the old first item, the contents become `old[1..]` and size drops by one; `tail` is never touched, so it goes stale when the list empties; validity is kept |
| `LinkedLists.LinkedList.GetLast` | src/main/java/com/stephenramthun/datastructures/LinkedList.java:138-144 | a non-empty list gives its last item; an empty one gives `None` exactly when `tail` is null, and otherwise the stale tail's value |
| `LinkedLists.LinkedList.RemoveLast` | src/main/java/com/stephenramthun/datastructures/LinkedList.java:151-176 | an empty list gives `None`; otherwise it returns the old last item, the contents become `old[..n-1]`, size drops by one and the list stays valid; an empty list keeps its (possibly stale) `tail`; a one-item list goes through `removeFirst` and ends with both `head` and `tail` null; for two or more items the new tail's `next` is still the old tail (`tail.next == old(tail)`) |
| `LinkedLists.LinkedList.Iterator` | src/main/java/com/stephenramthun/datastructures/LinkedList.java:179-181 | returns a fresh, valid iterator over this list at position 0 |
| `LinkedLists.ListIterator.constructor` | src/main/java/com/stephenramthun/datastructures/LinkedList.java:186-188 | the cursor starts at `head`, before the first item |
| `LinkedLists.ListIterator.HasNext` | src/main/java/com/stephenramthun/datastructures/LinkedList.java:190-192 | true exactly when the cursor is non-null; always true while items remain to be yielded; once all are yielded, true exactly when a stale link follows the last node |
| `LinkedLists.ListIterator.Next` | src/main/java/com/stephenramthun/datastructures/LinkedList.java:194-201 | within the contents it yields the item at the current position and advances; on a null cursor it yields `None` (the exception) and changes nothing; otherwise it yields the cursor's value and follows `next` |
| `LinkedLists.StaleLinkIteration` | src/main/java/com/stephenramthun/datastructures/LinkedList.java:164-201 | on `[1, 2]`, `removeLast()` then `addFirst(0)`, the iterator yields 0, 1 and then the removed 2, because the new tail still links to the removed node |
| `LinkedLists.AddFirstIterationStops` | src/main/java/com/stephenramthun/datastructures/LinkedList.java:77-201 | after `removeFirst()` empties `[1]` and `addFirst(2)` refills it, the iterator yields 2 and then `hasNext()` is false, since the new node has no successor |
| `Graphs.Extend` | src/main/java/com/stephenramthun/algorithms/graph/Dijkstra.java:54-58 | a path extended by one edge is a path whose cost grows by exactly that edge's weight |
| `Graphs.ShortestInfIffUnreachable` | src/main/java/com/stephenramthun/algorithms/graph/Dijkstra.java:34-38 | a shortest distance is the `Inf` sentinel exactly when no path reaches the vertex |
| `Graphs.ShortestUnique` | src/main/java/com/stephenramthun/algorithms/graph/Dijkstra.java:22-24 | the shortest distance to a vertex is unique |
| `Dijkstra.Initialise` | src/main/java/com/stephenramthun/algorithms/graph/Dijkstra.java:34-38 | every vertex of the graph, and only those, gets distance `Inf` and no predecessor |
| `Dijkstra.RelaxEdge` | src/main/java/com/stephenramthun/algorithms/graph/Dijkstra.java:54-63 | if `dist[u] + w` beats `dist[x]`, then `x` gets that distance and predecessor `u` and is queued unless it was queued before; otherwise nothing changes |
| `Dijkstra.RelaxEdges` | src/main/java/com/stephenramthun/algorithms/graph/Dijkstra.java:47-65 | over all edges of `u` in any order: no distance increases; a vertex changes only if `u`'s edge improves it, to `dist[u] + w` with predecessor `u`; afterwards every edge of `u` is relaxed; `inQueue` grows by exactly the improved vertices, and the queue gains only those never queued before |
| `Dijkstra.Trace` | src/main/java/com/stephenramthun/algorithms/graph/Dijkstra.java:58 | following `previous` from `v` gives a non-empty path ending at `v` of at most `fuel + 1` vertices |
| `Dijkstra.LeastExists` | src/main/java/com/stephenramthun/algorithms/graph/Dijkstra.java:44-45 | a non-empty queue holds a vertex of least current distance for `poll` to return |
| `Dijkstra.Frontier` | src/main/java/com/stephenramthun/algorithms/graph/Dijkstra.java:44-65 | given the loop's level invariant and relaxed edges out of polled vertices, a path from the source to a polled vertex costs at least its distance, and to any other vertex at least the current level |
| `Dijkstra.TraceOk` | src/main/java/com/stephenramthun/algorithms/graph/Dijkstra.java:56-58 | following `previous` from a polled vertex reaches the source along a path whose cost is exactly the vertex's distance |
| `Dijkstra.StepShape` | src/main/java/com/stephenramthun/algorithms/graph/Dijkstra.java:45-63 | after a poll and relaxation, exactly the vertices ever queued have finite distances, the rest keep `Inf` and no predecessor, and the source keeps distance 0 and no predecessor |
| `Dijkstra.StepLevels` | src/main/java/com/stephenramthun/algorithms/graph/Dijkstra.java:45-58 | after polling a least vertex `u`, polled vertices keep their distances, all at most `dist[u]`; queued ones are at least `dist[u]`; every edge out of a polled vertex is relaxed |
| `Dijkstra.StepTree` | src/main/java/com/stephenramthun/algorithms/graph/Dijkstra.java:56-58 | every queued vertex other than the source still has a consistent predecessor, polled before it |
| `Dijkstra.StepLog` | src/main/java/com/stephenramthun/algorithms/graph/Dijkstra.java:45 | appending the polled vertex keeps the poll log distinct and ordered by distance |
| `Dijkstra.Step` | src/main/java/com/stephenramthun/algorithms/graph/Dijkstra.java:44-65 | one pass of the poll loop keeps the whole loop invariant and polls a vertex not polled before |
| `Dijkstra.Finish` | src/main/java/com/stephenramthun/algorithms/graph/Dijkstra.java:44-66 | when the queue is empty, the invariant gives every promise of `run` listed under `Dijkstra.Run` |
| `Dijkstra.FinishPaths` | src/main/java/com/stephenramthun/algorithms/graph/Dijkstra.java:44-66 | when the queue is empty, every distance is the shortest-path cost and every predecessor chain realises it |
| `Dijkstra.Run` | src/main/java/com/stephenramthun/algorithms/graph/Dijkstra.java:30-67 | the whole algorithm: the source has distance 0 and no predecessor; every distance is the shortest-path cost from the source, and `Inf` exactly for unreachable vertices, which have no predecessor; every other reached vertex has a predecessor with an edge to it and a distance equal to the predecessor's plus the weight; following `previous` leads back to the source at exactly that cost; each reached vertex is polled exactly once, in non-decreasing order of distance, so the loop runs at most once per vertex |

## Left out

- Floating point: distances and weights are doubles in the code. Here weights
  are natural numbers and `Double.MAX_VALUE` is the explicit `Inf` value, so
  rounding and overflow of `distance + weight` are not modelled.
- Negative weights: the code does not check weights. Here they are natural
  numbers by type.
- The `Graph`, `Vertex` and `PriorityQueue` classes are not part of this model.
  - A graph is a vertex set with a per-vertex edge map. `Run` requires that
    every edge ends inside the graph and that the source is a vertex of it.
  - `poll` takes some queued vertex of least current distance. The code's heap
    is not re-ordered when a queued vertex's distance drops, so its real `poll`
    may return a different vertex. That heap logic is not modelled.
- `Vertex` fields updated in place: `Run` returns the distances and
  predecessors as maps. So it does not capture aliasing between vertex objects,
  or any fields of vertices outside the graph.
- Iteration order: the order of `getVertices()` and of `entrySet()` is not
  modelled. The loops take elements from a set in any order.
- Java generics, the unchecked casts, the `Comparable` bound and the
  `Iterable`/`Iterator` interfaces beyond `hasNext` and `next` are not
  modelled.
- `LinkedLists.LinkedList.Size`: `size` is an unbounded integer, so Java's
  32-bit overflow after 2^31 - 1 insertions is not modelled.
- An iterator over a list that is changed while it is in use: `ListIterator`
  requires the list to stay valid and unchanged, so it says nothing about
  interleaved updates.
- `null` items: items are values of `T`. An item that is itself `null` cannot
  be told apart from the `null` returned by an empty list in the code, but it
  can here.
