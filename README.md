# A* shortest paths and the filtered edge-list view of QuikGraph, in Dafny

This project models two parts of the QuikGraph graph library and proves properties of
them.

**The A\* shortest-path algorithm** (`AStarShortestPathAlgorithm`). The algorithm owns
several tables:

- a colour table (White = undiscovered, Gray = on the frontier, Black = finished);
- a distance table;
- a cost table: a vertex reached along a tree edge gets its distance plus the heuristic
  estimate, while the root and undiscovered vertices keep the initial cost;
- a priority frontier keyed on the costs.

A breadth-first engine walks the graph from a root and fires the algorithm's edge
handlers:

- examine-edge seeds missing entries and rejects negative weights;
- tree-edge, gray-target and black-target relax the edge and update the costs, the
  queue keys and, for a Black target, its colour.

`Compute` initialises the tables. It then searches from the given root, or, when there
is no root, from every vertex still White.

The model is imperative, as the source is:

- a class `ShortestPath.AStarShortestPathAlgorithm` holds the tables as `map`/`seq`
  fields;
- each handler is a method that states its new fields;
- the engine is the loop `Drain`, whose body is `ExpandNext`. Its inner loop over
  out-edges is in `ExpandVertex`.

The module `AStarSpec` describes one engine step on the tables as a value function
(`EdgeStep` after `Seed`). It defines the run invariant `RunInv` and proves that:

- every step keeps the invariant;
- every step makes progress on the measure (White vertices, sum of distances, frontier
  size), so the walk ends.

From these, `Compute` is proved to do the following on a completed run:

- the searches start from the given root or, without one, from each vertex of the
  enumeration that no earlier root reaches (`ForestRoots`);
- every root is finished at distance 0, has no tree edge and keeps its initial cost;
- every vertex reachable from a root is finished, and every discovered vertex is
  reachable from a root;
- no path from a root is shorter than the computed distance of its end;
- every recorded tree edge is tight;
- every vertex with a tree edge has a cost equal to its distance plus the heuristic.

A negative-weight error is proved to come from an out-edge of a vertex the walk
discovered. With an explicit root, that vertex is the end of a path from the root, so a
negative edge the walk cannot reach does not stop a run (`Examples.UnreachableNegative`).

**The filtered edge-list view** (`FilteredEdgeListGraph`). This is a read-only view of a
base graph. It keeps the vertices that satisfy a vertex predicate, and the edges that
satisfy an edge predicate and join two kept vertices. Its counting and emptiness queries
are one-pass loops over the base enumeration. They are proved against the filtered
enumerations `Vertices()` and `Edges()`.

Files:

- `wrappers.dfy`: Option and Result.
- `seqs.dfy`: filtering, subsequences, sums.
- `distance_relaxers.dfy`: distances with infinity, combine and compare.
- `quikgraph.dfy`: edges, colours, graphs, paths.
- `astar_spec.dfy`: the value-level step, the invariant and its lemmas.
- `astar.dfy`: the algorithm class.
- `predicates.dfy`: the filtered view.
- `examples.dfy`: concrete runs.

Where the tests' names and the code disagree, the model follows the code. The test
`ComputeWithoutRoot_Throws` (tests/QuikGraph.Tests/Algorithms/ShortestPath/AStarShortestPathAlgorithmTests.cs:250-256)
is named for an error when there is no root, but it calls the helper
`ComputeWithoutRoot_NoThrows_Test`. The code (AStarShortestPathAlgorithm.cs, lines 245-256)
raises nothing without a root, and neither does `RunForest`.

## Model

| member | source | states |
|---|---|---|
| ShortestPath.AStarShortestPathAlgorithm.New | src/QuikGraph/Algorithms/ShortestPath/AStarShortestPathAlgorithm.cs:35-76 | Fails with an argument-null error exactly when the graph, the weights, the heuristic or the relaxer is missing. Otherwise it builds a fresh algorithm over exactly those arguments, with empty colour, distance and cost tables, an empty frontier and no tree edges. |
| ShortestPath.AStarShortestPathAlgorithm.constructor | src/QuikGraph/Algorithms/ShortestPath/AStarShortestPathAlgorithm.cs:35-76 | The algorithm keeps the given graph, weights, heuristic and relaxer, and starts with empty tables, an empty frontier, no tree edges and no roots. |
| ShortestPath.AStarShortestPathAlgorithm.Relax | src/QuikGraph/Algorithms/ShortestPath/AStarShortestPathAlgorithm.cs:142 | Reports a decrease exactly when the source's distance plus the weight is strictly shorter than the target's distance. Only then is that sum the target's new distance; otherwise the distances are unchanged. |
| ShortestPath.AStarShortestPathAlgorithm.OnExamineEdge | src/QuikGraph/Algorithms/ShortestPath/AStarShortestPathAlgorithm.cs:120-136 | Adds the target's cost, colour (White) and distance only where they are missing, leaving existing entries alone. It fails with a negative-weight error exactly when the edge weight is negative. |
| ShortestPath.AStarShortestPathAlgorithm.OnAStarTreeEdge | src/QuikGraph/Algorithms/ShortestPath/AStarShortestPathAlgorithm.cs:138-155 | On a successful relaxation: the target gets the new distance, a cost equal to that distance plus the heuristic, and this edge as its tree edge. On a failed one nothing changes. |
| ShortestPath.AStarShortestPathAlgorithm.OnGrayTarget | src/QuikGraph/Algorithms/ShortestPath/AStarShortestPathAlgorithm.cs:157-175 | As the tree-edge handler; its queue key also becomes the new cost on success. On failure nothing changes. |
| ShortestPath.AStarShortestPathAlgorithm.OnBlackTarget | src/QuikGraph/Algorithms/ShortestPath/AStarShortestPathAlgorithm.cs:177-196 | On success the finished target is re-opened: new distance, cost and tree edge, appended to the frontier with the new cost as key, and painted Gray. On failure nothing changes. |
| ShortestPath.AStarShortestPathAlgorithm.Initialize | src/QuikGraph/Algorithms/ShortestPath/AStarShortestPathAlgorithm.cs:203-229 | When the graph enumerates its vertices, the tables hold exactly them, each White at the initial distance and cost. Otherwise the tables are empty. The frontier and the tree edges are empty either way. |
| ShortestPath.AStarShortestPathAlgorithm.InternalCompute | src/QuikGraph/Algorithms/ShortestPath/AStarShortestPathAlgorithm.cs:232-257 | Fails with vertex-not-found exactly when a root is given that the graph lacks; any negative-weight error comes from a real negative out-edge. A rooted run finishes the root at distance 0. A root-less run on an enumerable graph finishes every vertex, and its roots are exactly the vertices no earlier root reaches, in enumeration order (`ForestRoots`); on a non-enumerable graph it always completes and leaves the tables empty. A negative-weight error comes from an out-edge of a discovered vertex at the end of a path from a root of the run, which is the given root when there is one. |
| ShortestPath.AStarShortestPathAlgorithm.RunFromRoot | src/QuikGraph/Algorithms/ShortestPath/AStarShortestPathAlgorithm.cs:234-244 | The root's entries are reset, and a root outside the graph is then an error. Otherwise one search runs, which leaves the invariant, an empty frontier, nothing Gray and the root Black at distance 0. The root is then the run's only root, and a negative-weight error comes from an out-edge of a discovered vertex reached from it. |
| ShortestPath.AStarShortestPathAlgorithm.ResetRoot | src/QuikGraph/Algorithms/ShortestPath/AStarShortestPathAlgorithm.cs:237-240 | The root's colour becomes White and its distance and cost the initial distance; nothing else changes. |
| ShortestPath.AStarShortestPathAlgorithm.RunForest | src/QuikGraph/Algorithms/ShortestPath/AStarShortestPathAlgorithm.cs:245-256 | Starts a search from each vertex still White, in enumeration order. A completed run on an enumerable graph leaves every vertex Black, and its roots are `ForestRoots` of the enumeration: a vertex becomes a root exactly when no earlier root reaches it. The loop keeps that equality, using `UnreachedWhite` for a vertex still White and the walk invariant for one already discovered. On a non-enumerable graph it always completes and changes no table. A negative-weight error comes from an out-edge of a discovered vertex reached from one of the roots. |
| ShortestPath.AStarShortestPathAlgorithm.ComputeFromRoot | src/QuikGraph/Algorithms/ShortestPath/AStarShortestPathAlgorithm.cs:261-270 | The White root becomes Gray at distance 0 and is visited. On completion it is Black and still at distance 0, the invariant holds and nothing is Gray. No distance grew and no discovered vertex was lost. The root joins the run's roots. On a negative-weight failure, some discovered vertex reached from a root has a negative out-edge. |
| ShortestPath.AStarShortestPathAlgorithm.StartRoot | src/QuikGraph/Algorithms/ShortestPath/AStarShortestPathAlgorithm.cs:267-268 | The root becomes Gray at distance 0 and joins the roots; its cost and every other entry are unchanged. |
| ShortestPath.AStarShortestPathAlgorithm.Visit | src/QuikGraph/Algorithms/ShortestPath/AStarShortestPathAlgorithm.cs:272-315 | The engine's visit from the Gray root: the frontier ends empty with no Gray vertex and the root Black. On failure, a discovered vertex at the end of a path from a root has a negative out-edge. |
| ShortestPath.AStarShortestPathAlgorithm.Drain | src/QuikGraph/Algorithms/ShortestPath/AStarShortestPathAlgorithm.cs:291-296 | The engine loop keeps the invariant until the frontier is empty; the lexicographic measure proves that the loop terminates. A completed loop leaves no Gray vertex. A failed one has met a negative out-edge of a discovered vertex reached from a root. |
| ShortestPath.AStarShortestPathAlgorithm.ExpandNext | src/QuikGraph/Algorithms/ShortestPath/AStarShortestPathAlgorithm.cs:291-296 | One round (take out a least-cost vertex, expand it) keeps the invariant and strictly decreases the measure. A failed round has met a negative out-edge of a discovered vertex reached from a root. |
| ShortestPath.AStarShortestPathAlgorithm.ExpandVertex | src/QuikGraph/Algorithms/ShortestPath/AStarShortestPathAlgorithm.cs:291-294 | Handles every out-edge of the vertex, aborting at a negative one, then paints it Black. On success the vertex is Black and the invariant is kept with nothing under expansion, so every out-edge of the vertex is relaxed and its target discovered; the measure does not grow. On an abort the negative edge is an out-edge of this vertex, which is discovered and reached from a root. |
| ShortestPath.AStarShortestPathAlgorithm.FinishVertex | src/QuikGraph/Algorithms/ShortestPath/AStarShortestPathAlgorithm.cs:296 | The engine's finish step: the expanded vertex is painted Black and nothing else changes. |
| ShortestPath.AStarShortestPathAlgorithm.ExamineOutEdge | src/QuikGraph/Algorithms/ShortestPath/AStarShortestPathAlgorithm.cs:120-196 | For a non-negative edge the new tables are `EdgeStep` after the examine-edge seeding. The invariant is kept, the edge is done, earlier edges stay done and the measure does not grow. It fails exactly on a negative edge, and then only the examine-edge seeding has happened. |
| ShortestPath.AStarShortestPathAlgorithm.EdgeHandlers | src/QuikGraph/Algorithms/ShortestPath/AStarShortestPathAlgorithm.cs:291-294 | The handlers the engine fires for one edge (examine-edge, then the handler matching the target's colour) produce exactly `EdgeStep` after seeding. They succeed exactly when the weight is non-negative. |
| ShortestPath.AStarShortestPathAlgorithm.TreeEdgeStep | src/QuikGraph/Algorithms/ShortestPath/AStarShortestPathAlgorithm.cs:292 | The tree-edge case of an edge step: the handler, then discovery of the target. |
| ShortestPath.AStarShortestPathAlgorithm.GrayEdgeStep | src/QuikGraph/Algorithms/ShortestPath/AStarShortestPathAlgorithm.cs:293 | The gray-target case of an edge step. |
| ShortestPath.AStarShortestPathAlgorithm.BlackEdgeStep | src/QuikGraph/Algorithms/ShortestPath/AStarShortestPathAlgorithm.cs:294 | The black-target case of an edge step. |
| ShortestPath.AStarShortestPathAlgorithm.Discover | src/QuikGraph/Algorithms/ShortestPath/AStarShortestPathAlgorithm.cs:292 | The engine's discovery of a vertex after the tree-edge handler: painted Gray and appended to the frontier with its cost as key. |
| ShortestPath.AStarShortestPathAlgorithm.Dequeue | src/QuikGraph/Algorithms/ShortestPath/AStarShortestPathAlgorithm.cs:228 | The frontier's extract-minimum: removes exactly one occurrence of a vertex whose key is no larger than any queued vertex's key. |
| ShortestPath.AStarShortestPathAlgorithm.TakeNext | src/QuikGraph/Algorithms/ShortestPath/AStarShortestPathAlgorithm.cs:228 | The frontier hands out a queued vertex whose key is no larger than any queued key. It is Gray and a graph vertex, the frontier shrinks by one, colours and distances are unchanged, and the invariant holds with that vertex under expansion. |
| ShortestPath.MinIndex | src/QuikGraph/Algorithms/ShortestPath/AStarShortestPathAlgorithm.cs:228 | The first position of a minimal key under the relaxer's comparison: no key is smaller, and every earlier key is strictly larger. |
| ShortestPath.AStarShortestPathAlgorithm.Compute | src/QuikGraph/Algorithms/ShortestPath/AStarShortestPathAlgorithm.cs:203-257 | Error cases as for `InternalCompute`; without a root on a non-enumerable graph it always completes. On completion: the distance table covers exactly the vertices (enumerable graph); the roots are the given root, or else `ForestRoots` of the enumeration (each vertex no earlier root reaches); every root is Black at distance 0, with no tree edge and the initial cost; the end of every path from a root is Black, with a distance no larger than the path's weight; conversely, every discovered vertex is the end of a path from a root (from the given root, when there is one); every discovered vertex other than a root has a tree edge; every finished vertex's out-edges are non-negative; every tree edge is an out-edge of another vertex ending at its vertex (never a self-loop), tight (distance = source distance + weight, so no nearer than its source); every vertex with a tree edge has a cost equal to its distance plus the heuristic. A negative-weight error comes from an out-edge of a discovered vertex at the end of a path from a root of the run; with a given root, from the end of a path from that root. |
| AStarSpec.StepKeepsInv | src/QuikGraph/Algorithms/ShortestPath/AStarShortestPathAlgorithm.cs:120-196 | Examine-edge seeding, then the handler for the target's colour, keeps the run invariant for any non-negative out-edge of the vertex being expanded. The invariant covers aligned tables, distances in range, finished vertices closed, tree edges sound, discovered vertices reached and a sound frontier. |
| AStarSpec.StepProgress | src/QuikGraph/Algorithms/ShortestPath/AStarShortestPathAlgorithm.cs:120-196 | The same step leaves the edge relaxed and its target discovered. The expanded vertex keeps its colour and distance, done edges stay done, nothing is lost or lengthened, and the measure does not grow. |
| AStarSpec.SeedPreserves | src/QuikGraph/Algorithms/ShortestPath/AStarShortestPathAlgorithm.cs:124-132 | Seeding a graph vertex's missing entries keeps the invariant and only adds entries. |
| AStarSpec.Dequeued | src/QuikGraph/Algorithms/ShortestPath/AStarShortestPathAlgorithm.cs:228 | Any queued vertex is Gray and a graph vertex. Taking it out keeps the invariant, with it now under expansion. |
| AStarSpec.Finished | src/QuikGraph/Algorithms/ShortestPath/AStarShortestPathAlgorithm.cs:138-196 | Once all out-edges of the expanded vertex are done, painting it Black keeps the invariant with nothing under expansion. |
| AStarSpec.Started | src/QuikGraph/Algorithms/ShortestPath/AStarShortestPathAlgorithm.cs:261-268 | Making a White graph vertex the Gray root at distance 0 keeps the invariant with the root under expansion, and loses nothing. |
| AStarSpec.RootEnqueued | src/QuikGraph/Algorithms/ShortestPath/AStarShortestPathAlgorithm.cs:296 | Putting the Gray root on the empty frontier keeps the invariant with nothing under expansion. |
| AStarSpec.Drained | src/QuikGraph/Algorithms/ShortestPath/AStarShortestPathAlgorithm.cs:296 | With nothing under expansion, an empty frontier means no vertex is Gray. |
| AStarSpec.StepWalked | src/QuikGraph/Algorithms/ShortestPath/AStarShortestPathAlgorithm.cs:120-196 | The step on an out-edge of a discovered vertex that a path from a root reaches only discovers that edge's target, which the same path extended by the edge reaches. |
| AStarSpec.StartWalked | src/QuikGraph/Algorithms/ShortestPath/AStarShortestPathAlgorithm.cs:267-268 | Starting a search keeps every discovered vertex reached from a root, the new root by the empty path. |
| AStarSpec.WalkedKept | src/QuikGraph/Algorithms/ShortestPath/AStarShortestPathAlgorithm.cs:296 | Recolouring that discovers nothing new, with at least the old roots, keeps every discovered vertex reached from a root. |
| AStarSpec.NegativeMet | src/QuikGraph/Algorithms/ShortestPath/AStarShortestPathAlgorithm.cs:134-135 | A negative out-edge of a discovered, reached vertex is an edge the walk met, whatever the examine-edge seeding added. |
| AStarSpec.MetFromRoot | src/QuikGraph/Algorithms/ShortestPath/AStarShortestPathAlgorithm.cs:243 | With a single root, a met negative edge is an out-edge of the end of a path from that root. |
| AStarSpec.ResetPreserves | src/QuikGraph/Algorithms/ShortestPath/AStarShortestPathAlgorithm.cs:236-240 | Resetting the root's colour, distance and cost in fresh tables keeps the invariant and lengthens nothing. |
| AStarSpec.InitialInv | src/QuikGraph/Algorithms/ShortestPath/AStarShortestPathAlgorithm.cs:203-229 | Initialised tables (all White, infinite, empty frontier and tree edges) satisfy the invariant, and no vertex is discovered without a path from a root. |
| AStarSpec.StepRootsFixed | src/QuikGraph/Algorithms/ShortestPath/AStarShortestPathAlgorithm.cs:120-196 | The engine's step on a non-negative out-edge keeps every undiscovered vertex at the initial cost and every root at distance 0, with no tree edge and its initial cost: a root at 0 cannot be improved. |
| AStarSpec.StartRootsFixed | src/QuikGraph/Algorithms/ShortestPath/AStarShortestPathAlgorithm.cs:265-268 | A White vertex made a root at distance 0 has the initial cost and no tree edge. |
| AStarSpec.ForestRootsSnoc | src/QuikGraph/Algorithms/ShortestPath/AStarShortestPathAlgorithm.cs:250-253 | The next vertex of the enumeration becomes a root exactly when the earlier roots do not reach it. |
| AStarSpec.UnreachedWhite | src/QuikGraph/Algorithms/ShortestPath/AStarShortestPathAlgorithm.cs:250-253 | Between searches, a vertex still White is the end of no path from a root, so the root-less loop starts a search from it only when no earlier root reaches it. |
| AStarSpec.WalkOver | tests/QuikGraph.Tests/Algorithms/ShortestPath/AStarShortestPathAlgorithmTests.cs:59-77 | When the walk is over: every root is Black at distance 0 with no tree edge and the initial cost; every other discovered vertex has a tree edge; the end of every path from a root is Black no farther than the path's weight; every tree edge is tight, with cost = distance + heuristic. |
| AStarSpec.StaysAtZero | src/QuikGraph/Algorithms/ShortestPath/AStarShortestPathAlgorithm.cs:267-268 | A root at distance 0 stays at distance 0, since distances never grow and never go below 0. |
| AStarSpec.DiscoveredFinished | src/QuikGraph/Algorithms/ShortestPath/AStarShortestPathAlgorithm.cs:250-254 | When nothing is Gray, every discovered vertex of the enumeration is Black. |
| AStarSpec.PathBound | src/QuikGraph/Algorithms/ShortestPath/AStarShortestPathAlgorithm.cs:11-13 | When the walk is over, the end of any path from a finished vertex is finished. Its distance is at most that vertex's distance plus the path's weight. |
| AStarSpec.TreeEdgesTight | tests/QuikGraph.Tests/Algorithms/ShortestPath/AStarShortestPathAlgorithmTests.cs:59-77 | When the walk is over, each tree edge is an out-edge of its source ending at its vertex. The vertex's distance is the source's plus the weight, hence at least the source's distance. |
| Predicates.FilteredEdgeListGraph.Vertices | src/QuikGraph/Predicates/FilteredEdgeListGraph.cs:51-59 | Every enumerated vertex satisfies the vertex predicate. The enumeration is a subsequence of the base enumeration and no longer than it. |
| Predicates.FilteredEdgeListGraph.Edges | src/QuikGraph/Predicates/FilteredEdgeListGraph.cs:84-92 | Every enumerated edge passes the edge filter. The enumeration is a subsequence of the base edges and no longer than them. |
| Predicates.FilteredEdgeListGraph.IsVerticesEmpty | src/QuikGraph/Predicates/FilteredEdgeListGraph.cs:28-37 | True exactly when no base vertex satisfies the vertex predicate, that is, when the enumeration is empty. |
| Predicates.FilteredEdgeListGraph.VertexCount | src/QuikGraph/Predicates/FilteredEdgeListGraph.cs:39-49 | The length of the vertex enumeration, which is also the number of positions of the base enumeration whose vertex satisfies the predicate. |
| Predicates.FilteredEdgeListGraph.VerticesExactly | src/QuikGraph/Predicates/FilteredEdgeListGraph.cs:51-59 | A vertex is enumerated exactly when it is a base vertex satisfying the predicate. The enumeration is a subsequence of the base enumeration and no longer than it. |
| Predicates.FilteredEdgeListGraph.IsEdgesEmpty | src/QuikGraph/Predicates/FilteredEdgeListGraph.cs:61-70 | True exactly when no base edge passes the edge filter, that is, when the edge enumeration is empty. |
| Predicates.FilteredEdgeListGraph.EdgeCount | src/QuikGraph/Predicates/FilteredEdgeListGraph.cs:72-82 | The length of the edge enumeration, which is also the number of base positions whose edge passes the filter. |
| Predicates.FilteredEdgeListGraph.EdgesExactly | src/QuikGraph/Predicates/FilteredEdgeListGraph.cs:84-102 | An edge is enumerated exactly when it is a base edge whose endpoints satisfy the vertex predicate and which satisfies the edge predicate. The order of the base is kept. |
| Predicates.FilteredEdgeListGraph.EdgesKeepOrder | src/QuikGraph/Predicates/FilteredEdgeListGraph.cs:84-92 | The enumeration of two consecutive blocks of base edges is the first block's enumeration followed by the second's. |
| Predicates.FilteredEdgeListGraph.EdgesJoinVertices | src/QuikGraph/Predicates/FilteredEdgeListGraph.cs:97-102 | Every enumerated edge joins two vertices satisfying the vertex predicate. When the base edges join base vertices, both endpoints are enumerated vertices. |
| Predicates.FilteredEdgeListGraph.ContainsEdge | src/QuikGraph/Predicates/FilteredEdgeListGraph.cs:107-112 | Edge containment agrees exactly with the edge enumeration. |
| Examples.NegativeWeightChain | tests/QuikGraph.Tests/Algorithms/ShortestPath/AStarShortestPathAlgorithmTests.cs:334-361 | Computing from 1 on the chain 1→2→3→4 with weights 12, -23, 34 fails with a negative-weight error. |
| Examples.SingleEdge | tests/QuikGraph.Tests/Algorithms/ShortestPath/AStarShortestPathAlgorithmTests.cs:298-309 | Computing from 1 over the single edge 1→2 of weight 1 completes with both vertices Black, vertex 2 at distance 1 and that edge as its tree edge. |
| Examples.ForestRun | src/QuikGraph/Algorithms/ShortestPath/AStarShortestPathAlgorithm.cs:245-256 | Computing without a root over the single edge 1→2 of weight 5 starts one search, from 1; vertex 1 ends at distance 0 and vertex 2 at distance 5. |
| Examples.UnreachableNegative | src/QuikGraph/Algorithms/ShortestPath/AStarShortestPathAlgorithm.cs:120-136 | On vertices 1-4 with edges 1→2 of weight 1 and 3→4 of weight -1, computing from 1 completes: the walk never examines the negative edge. |
| Examples.FilteredView | src/QuikGraph/Predicates/FilteredEdgeListGraph.cs:39-82 | On base vertices 1, 2, 3 and edges 1→2, 2→3, 1→3, keeping the vertices other than 3: two vertices, one edge, and the edge set is not empty. |

## Left out

- Floating point: weights, heuristic values and distances are exact integers with an explicit infinity. Rounding, NaN and the relaxer's largest-double initial value are not modelled.
- The critical-distance relaxer and user-supplied relaxers: only the shortest-distance relaxer is modelled, and the relaxer argument is only checked for presence.
- The events (initialize, discover, start, examine, finish, edge-not-relaxed) and their subscription and removal in `ComputeNoInit` are not modelled, because they are observer callbacks with no effect on the tables. The attached predecessor recorder is modelled as the `predecessors` field, written at each tree-edge report.
- ShortestPath.AStarShortestPathAlgorithm.Initialize: clears `predecessors`, which the source's `Initialize` (lines 203-229) does not do, because the recorder is an outside observer. The model assumes a fresh recorder for each computation; stale tree edges left by an earlier run are not modelled, and `Compute`'s statements about tree edges rely on that.
- The optional host, the algorithm's state machine, cancellation and services are not modelled; they belong to the algorithm base class.
- The breadth-first engine and the Fibonacci queue are not part of this model's source files. The engine follows QuikGraph's breadth-first visiting order. The queue is a sequence with per-cell keys that hands out the first vertex of least key, so the heap's own tie-breaking is not modelled.
- The debug assertions of `ComputeFromRoot` become its preconditions.
- `GetVertexColor` and `TryGetDistance` from the base class are not modelled; the model reads the tables directly.
- Compute: shows that no path from the root is shorter than a vertex's distance, and that every tree edge is tight. It does not assemble the tree edges into a path that achieves the distance.
- Compute: after a failure, only the error and where it came from are stated, not the partly updated tables.
- Predicates.FilteredEdgeListGraph.VertexCount: does not model the 32-bit `int` counter wrapping past 2^31 - 1, because counts are unbounded naturals here.
- Predicates.FilteredEdgeListGraph.EdgeCount: does not model the 32-bit `int` counter wrapping past 2^31 - 1, because counts are unbounded naturals here.
- The lazy `yield` enumerations of the filtered view are modelled as functions that return the whole filtered sequence.
- The base graph's edge containment is modelled as membership in its edge list.
- Graphs are assumed well formed, as QuikGraph's containers keep them: vertices are listed once, and out-edges start at their vertex and end inside the graph.
- Graphs are assumed finite: even a graph that cannot enumerate its vertices has a finite vertex sequence, on which the termination measure rests. On an infinite implicit graph the source's walk need not end, and that case is not modelled.
- The test helper's handling of self-loop tree edges is not modelled separately: `Compute` proves that no tree edge is a self-loop.
