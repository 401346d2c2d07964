/** The A* single-source shortest-path driver.  The algorithm owns a colour table, a
    distance table, a heuristic-adjusted cost table and a priority frontier keyed on
    the costs; its edge handlers update those tables as the breadth-first engine walks
    the graph.  The engine and the Fibonacci queue are modelled here by the loop in
    `Visit` and by the fields `queue`/`queueKeys`; `AStarSpec` states what one step of
    that loop does to the tables and proves the run invariant. */
module ShortestPath {
  import opened Wrappers
  import opened Seqs
  import opened QuikGraph
  import opened DistanceRelaxers
  import opened AStarSpec

  /** The exceptions the algorithm can raise. */
  datatype Error = ArgumentNull | NegativeWeight | VertexNotFound

  /** How a computation ended. */
  datatype Outcome = Completed | Failed(error: Error)

  /** The relaxers a caller may pass; only the shortest-distance policy is modelled. */
  datatype Relaxer = ShortestDistance

  /** The index of the first entry of `q` whose key is minimal: the vertex the
      priority frontier hands out next. */
  method MinIndex<V>(q: seq<V>, keys: map<V, Dist>) returns (k: nat)
    requires q != [] && forall v :: v in q ==> v in keys
    ensures k < |q|
    ensures forall j :: 0 <= j < |q| ==> AtMost(keys[q[k]], keys[q[j]])
    ensures forall j :: 0 <= j < k ==> Less(keys[q[k]], keys[q[j]])
  {
    k := 0;
    var i := 1;
    while i < |q|
      invariant 0 <= k < i <= |q|
      invariant forall j :: 0 <= j < i ==> AtMost(keys[q[k]], keys[q[j]])
      invariant forall j :: 0 <= j < k ==> Less(keys[q[k]], keys[q[j]])
    {
      if Less(keys[q[i]], keys[q[k]]) {
        k := i;
      }
      i := i + 1;
    }
  }

  class AStarShortestPathAlgorithm<V(==,!new)> {
    /** The graph to visit, the edge weights and the cost heuristic. */
    const graph: IncidenceGraph<V>
    const weights: Edge<V> -> int
    const costHeuristic: V -> int
    const distanceRelaxer: Relaxer

    /** Vertex colours of the current run. */
    var colors: map<V, GraphColor>
    /** Raw distances from the root. */
    var distances: map<V, Dist>
    /** Heuristic-adjusted costs: the frontier's priorities. */
    var costs: map<V, Dist>
    /** The vertices held by the priority frontier, in insertion order. */
    var queue: seq<V>
    /** The priority each frontier cell was last given (at enqueue or update). */
    var queueKeys: map<V, Dist>
    /** What an attached predecessor recorder has seen: the tree edge of each vertex. */
    var predecessors: map<V, Edge<V>>
    /** The roots searches were started from in this run. */
    ghost var roots: set<V>

    constructor (g: IncidenceGraph<V>, w: Edge<V> -> int, h: V -> int, relaxer: Relaxer)
      requires WellFormed(g)
      ensures graph == g && weights == w && costHeuristic == h && distanceRelaxer == relaxer
      ensures colors == map[] && distances == map[] && costs == map[]
      ensures queue == [] && queueKeys == map[] && predecessors == map[] && roots == {}
    {
      graph, weights, costHeuristic, distanceRelaxer := g, w, h, relaxer;
      colors, distances, costs := map[], map[], map[];
      queue, queueKeys, predecessors := [], map[], map[];
      roots := {};
    }

    /** The constructors' argument checks: a missing graph, weight function, heuristic
        or relaxer raises an argument-null error and builds nothing. */
    static method New(g: Option<IncidenceGraph<V>>, w: Option<Edge<V> -> int>,
                      h: Option<V -> int>, relaxer: Option<Relaxer>)
      returns (r: Result<AStarShortestPathAlgorithm<V>, Error>)
      requires g.Some? ==> WellFormed(g.value)
      ensures r.Failure? <==> g.None? || w.None? || h.None? || relaxer.None?
      ensures r.Failure? ==> r.error == ArgumentNull
      ensures r.Success? ==> fresh(r.value)
      ensures r.Success? ==> r.value.graph == g.value && r.value.weights == w.value
      ensures r.Success? ==> r.value.costHeuristic == h.value && r.value.distanceRelaxer == relaxer.value
      ensures r.Success? ==> r.value.colors == map[] && r.value.distances == map[] && r.value.costs == map[]
      ensures r.Success? ==> r.value.queue == [] && r.value.queueKeys == map[] && r.value.predecessors == map[]
    {
      if g.None? || w.None? || relaxer.None? || h.None? {
        return Failure(ArgumentNull);
      }
      var algorithm := new AStarShortestPathAlgorithm(g.value, w.value, h.value, relaxer.value);
      return Success(algorithm);
    }

    // ---------------------------------------------------------------- the tables as values

    /** The graph, weights and heuristic this algorithm was built with. */
    function Input(): Problem<V>
    {
      Problem(graph, weights, costHeuristic)
    }

    /** The current tables. */
    ghost function State(): Tables<V>
      reads this
    {
      Tables(colors, distances, costs, queue, queueKeys, predecessors, roots)
    }

    /** The run invariant on the current tables, while `current` is being expanded,
        every discovered vertex reached from a root, and the roots fixed at distance 0.
        The conjunction is bound to a name so that callers see one fact and do not
        split it into its parts. */
    ghost predicate Valid(current: set<V>)
      reads this
    {
      var ok := RunInv(Input(), State(), current) && Walked(graph, State()) && RootsFixed(State());
      ok
    }

    // ---------------------------------------------------------------- handlers

    /** Relaxation with the shortest-distance relaxer: if the source's distance plus the
        weight is strictly shorter than the target's, it becomes the target's distance. */
    method Relax(e: Edge<V>) returns (decreased: bool)
      requires e.source in distances && e.target in distances
      modifies this`distances
      ensures decreased == Less(Combine(old(distances[e.source]), weights(e)), old(distances[e.target]))
      ensures distances ==
        if decreased then old(distances)[e.target := Combine(old(distances[e.source]), weights(e))]
        else old(distances)
    {
      var candidate := Combine(distances[e.source], weights(e));
      decreased := Less(candidate, distances[e.target]);
      if decreased {
        distances := distances[e.target := candidate];
      }
    }

    /** The examine-edge handler: seeds each missing table entry of the target (cost and
        distance at the initial distance, colour White), leaving existing entries alone,
        then rejects a negative weight. */
    method OnExamineEdge(e: Edge<V>) returns (r: Outcome)
      modifies this`costs, this`colors, this`distances
      ensures costs == if e.target in old(costs) then old(costs) else old(costs)[e.target := InitialDistance]
      ensures colors == if e.target in old(colors) then old(colors) else old(colors)[e.target := White]
      ensures distances ==
        if e.target in old(distances) then old(distances) else old(distances)[e.target := InitialDistance]
      ensures r.Failed? <==> weights(e) < 0
      ensures r.Failed? ==> r.error == NegativeWeight
    {
      if e.target !in costs {
        costs := costs[e.target := InitialDistance];
      }
      if e.target !in colors {
        colors := colors[e.target := White];
      }
      if e.target !in distances {
        distances := distances[e.target := InitialDistance];
      }
      if weights(e) < 0 {
        return Failed(NegativeWeight);
      }
      return Completed;
    }

    /** The tree-edge handler: relaxes; on success recomputes the target's cost from its
        new distance and the heuristic and reports the tree edge to the recorder. */
    method OnAStarTreeEdge(e: Edge<V>) returns (decreased: bool)
      requires e.source in distances && e.target in distances
      modifies this`distances, this`costs, this`predecessors
      ensures decreased == Less(Combine(old(distances[e.source]), weights(e)), old(distances[e.target]))
      ensures decreased ==>
        && distances == old(distances)[e.target := Combine(old(distances[e.source]), weights(e))]
        && costs == old(costs)[e.target := Combine(distances[e.target], costHeuristic(e.target))]
        && predecessors == old(predecessors)[e.target := e]
      ensures !decreased ==>
        distances == old(distances) && costs == old(costs) && predecessors == old(predecessors)
    {
      decreased := Relax(e);
      if decreased {
        var target := e.target;
        costs := costs[target := Combine(distances[target], costHeuristic(target))];
        predecessors := predecessors[target := e];
      }
    }

    /** The gray-target handler: like the tree-edge handler, and on success also gives
        the target's frontier cell the new cost as its key. */
    method OnGrayTarget(e: Edge<V>) returns (decreased: bool)
      requires e.source in distances && e.target in distances
      modifies this`distances, this`costs, this`predecessors, this`queueKeys
      ensures decreased == Less(Combine(old(distances[e.source]), weights(e)), old(distances[e.target]))
      ensures decreased ==>
        && distances == old(distances)[e.target := Combine(old(distances[e.source]), weights(e))]
        && costs == old(costs)[e.target := Combine(distances[e.target], costHeuristic(e.target))]
        && queueKeys == old(queueKeys)[e.target := costs[e.target]]
        && predecessors == old(predecessors)[e.target := e]
      ensures !decreased ==>
        && distances == old(distances) && costs == old(costs)
        && queueKeys == old(queueKeys) && predecessors == old(predecessors)
    {
      decreased := Relax(e);
      if decreased {
        var target := e.target;
        costs := costs[target := Combine(distances[target], costHeuristic(target))];
        queueKeys := queueKeys[target := costs[target]];
        predecessors := predecessors[target := e];
      }
    }

    /** The black-target handler: on a successful relaxation it reports the tree edge,
        recomputes the cost, puts the finished target back on the frontier and paints
        it Gray again. */
    method OnBlackTarget(e: Edge<V>) returns (decreased: bool)
      requires e.source in distances && e.target in distances
      modifies this`distances, this`costs, this`predecessors, this`queue, this`queueKeys, this`colors
      ensures decreased == Less(Combine(old(distances[e.source]), weights(e)), old(distances[e.target]))
      ensures decreased ==>
        && distances == old(distances)[e.target := Combine(old(distances[e.source]), weights(e))]
        && costs == old(costs)[e.target := Combine(distances[e.target], costHeuristic(e.target))]
        && queue == old(queue) + [e.target]
        && queueKeys == old(queueKeys)[e.target := costs[e.target]]
        && colors == old(colors)[e.target := Gray]
        && predecessors == old(predecessors)[e.target := e]
      ensures !decreased ==>
        && distances == old(distances) && costs == old(costs) && queue == old(queue)
        && queueKeys == old(queueKeys) && colors == old(colors) && predecessors == old(predecessors)
    {
      decreased := Relax(e);
      if decreased {
        var target := e.target;
        predecessors := predecessors[target := e];
        costs := costs[target := Combine(distances[target], costHeuristic(target))];
        queue, queueKeys := queue + [target], queueKeys[target := costs[target]];
        colors := colors[target := Gray];
      }
    }

    // ---------------------------------------------------------------- the engine

    /** The frontier's extract-minimum: removes and returns a vertex whose key is
        minimal among the queued ones. */
    method Dequeue() returns (u: V)
      requires queue != [] && forall v :: v in queue ==> v in queueKeys
      modifies this`queue
      ensures exists k :: 0 <= k < |old(queue)| && old(queue)[k] == u && queue == RemoveAt(old(queue), k)
      ensures forall v :: v in old(queue) ==> AtMost(queueKeys[u], queueKeys[v])
    {
      var k := MinIndex(queue, queueKeys);
      u := queue[k];
      queue := RemoveAt(queue, k);
    }

    /** The engine's handling of one out-edge `e` of the vertex `u` being expanded:
        fire examine-edge, then the tree-edge, gray-target or black-target handler
        according to the target's colour; a White target is then painted Gray and
        enqueued.  The new tables are `EdgeStep` after the examine-edge seeding; the
        run invariant is kept, the edge joins the edges of `u` already done, and the
        termination measure makes progress. */
    method ExamineOutEdge(u: V, e: Edge<V>, ghost done: seq<Edge<V>>) returns (ok: bool)
      requires Valid({u}) && u in colors && colors[u] == Gray && u in graph.vertices
      requires e in graph.outEdges(u)
      modifies this`colors, this`distances, this`costs, this`queue, this`queueKeys, this`predecessors
      ensures ok <==> weights(e) >= 0
      ensures !ok ==> State() == Seed(old(State()), e.target)
      ensures ok ==> e.source in old(distances) && State() == EdgeStep(Input(), Seed(old(State()), e.target), e)
      ensures ok ==> Valid({u}) && u in colors && colors[u] == Gray
      ensures ok ==> Extends(old(State()), State())
      ensures ok ==> AllDone(Input(), old(State()), u, done) ==> AllDone(Input(), State(), u, done + [e])
      ensures ok ==> Progress(old(WhiteCount(Input(), State())), old(Potential(Input(), State())), old(|queue|),
                              WhiteCount(Input(), State()), Potential(Input(), State()), |queue|)
    {
      ghost var s0 := State();
      ok := EdgeHandlers(e);
      if ok {
        StepKeepsInv(Input(), s0, u, e);
        StepWalked(Input(), s0, u, e);
        StepRootsFixed(Input(), s0, u, e);
        StepProgress(Input(), s0, u, e, done);
      }
    }

    /** The handlers the engine fires for one examined edge, as described at
        `ExamineOutEdge`. */
    method EdgeHandlers(e: Edge<V>) returns (ok: bool)
      requires e.source in distances
      modifies this`colors, this`distances, this`costs, this`queue, this`queueKeys, this`predecessors
      ensures ok <==> weights(e) >= 0
      ensures !ok ==> State() == Seed(old(State()), e.target)
      ensures ok ==> State() == EdgeStep(Input(), Seed(old(State()), e.target), e)
    {
      ghost var s0 := State();
      var r := OnExamineEdge(e);
      ghost var s1 := Seed(s0, e.target);
      assert State() == s1;
      if r.Failed? {
        return false;
      }
      ok := true;
      var color := colors[e.target];
      if color == White {
        TreeEdgeStep(e);
      } else if color == Gray {
        GrayEdgeStep(e);
      } else {
        BlackEdgeStep(e);
      }
    }

    /** The tree-edge case of an edge step: relax onto the White target, then discover it. */
    method TreeEdgeStep(e: Edge<V>)
      requires e.source in distances && e.target in distances && e.target in costs
      requires e.target in colors && colors[e.target] == White
      modifies this`colors, this`distances, this`costs, this`queue, this`queueKeys, this`predecessors
      ensures State() == EdgeStep(Input(), old(State()), e)
    {
      var decreased := OnAStarTreeEdge(e);
      Discover(e.target);
    }

    /** The Gray-target case of an edge step. */
    method GrayEdgeStep(e: Edge<V>)
      requires e.source in distances && e.target in distances && e.target in costs
      requires e.target in colors && colors[e.target] == Gray
      modifies this`distances, this`costs, this`predecessors, this`queueKeys
      ensures State() == EdgeStep(Input(), old(State()), e)
    {
      var decreased := OnGrayTarget(e);
    }

    /** The Black-target case of an edge step. */
    method BlackEdgeStep(e: Edge<V>)
      requires e.source in distances && e.target in distances && e.target in costs
      requires e.target in colors && colors[e.target] == Black
      modifies this`colors, this`distances, this`costs, this`queue, this`queueKeys, this`predecessors
      ensures State() == EdgeStep(Input(), old(State()), e)
    {
      var decreased := OnBlackTarget(e);
    }

    /** The engine's discovery of a vertex: painted Gray and enqueued with its cost as
        key. */
    method Discover(v: V)
      requires v in costs
      modifies this`colors, this`queue, this`queueKeys
      ensures State() == Enqueue(old(State()), v)
    {
      colors := colors[v := Gray];
      queue, queueKeys := queue + [v], queueKeys[v := costs[v]];
    }

    /** The engine's expansion of the dequeued vertex `u`: each out-edge in turn, then
        `u` is painted Black.  A negative weight aborts the walk. */
    method ExpandVertex(u: V) returns (ok: bool)
      requires Valid({u}) && u in colors && colors[u] == Gray && u in graph.vertices
      modifies this`colors, this`distances, this`costs, this`queue, this`queueKeys, this`predecessors
      ensures ok ==> Valid({}) && Extends(old(State()), State())
      ensures ok ==> u in colors && colors[u] == Black
      ensures ok ==> Progress(old(WhiteCount(Input(), State())), old(Potential(Input(), State())), old(|queue|),
                              WhiteCount(Input(), State()), Potential(Input(), State()), |queue|)
      ensures !ok ==> exists e :: e in graph.outEdges(u) && weights(e) < 0
      ensures !ok ==> MetNegative(Input(), State())
    {
      ghost var s0 := State();
      var es := graph.outEdges(u);
      ExtendsTransitive(s0, s0, s0);
      var i := 0;
      while i < |es|
        invariant 0 <= i <= |es|
        invariant Valid({u}) && u in colors && colors[u] == Gray
        invariant Extends(s0, State())
        invariant AllDone(Input(), State(), u, es[..i])
        invariant Progress(WhiteCount(Input(), s0), Potential(Input(), s0), |s0.queue|,
                           WhiteCount(Input(), State()), Potential(Input(), State()), |queue|)
      {
        ghost var sBefore := State();
        ok := ExamineOutEdge(u, es[i], es[..i]);
        if !ok {
          NegativeMet(Input(), sBefore, u, es[i]);
          return;
        }
        ExtendsTransitive(s0, sBefore, State());
        PrefixSnoc(es, i);
        i := i + 1;
      }
      ghost var sDone := State();
      PrefixAll(es);
      Finished(Input(), sDone, u);
      FinishKeepsMeasure(Input(), sDone, u);
      WalkedKept(graph, sDone, sDone.(colors := sDone.colors[u := Black]));
      FinishRootsFixed(sDone, u);
      FinishVertex(u);
      ExtendsTransitive(s0, sDone, State());
      ok := true;
    }

    /** The engine's finish-vertex step: the expanded vertex is painted Black. */
    method FinishVertex(u: V)
      modifies this`colors
      ensures State() == old(State()).(colors := old(colors)[u := Black])
    {
      colors := colors[u := Black];
    }

    /** The frontier's extract-minimum, taken as the next vertex to expand. */
    method TakeNext() returns (u: V)
      requires Valid({}) && queue != []
      modifies this`queue
      ensures Valid({u}) && u in colors && colors[u] == Gray && u in graph.vertices
      ensures |queue| == old(|queue|) - 1
      ensures colors == old(colors) && distances == old(distances)
      ensures forall v :: v in old(queue) ==> AtMost(queueKeys[u], queueKeys[v])
    {
      ghost var s0 := State();
      u := Dequeue();
      ghost var k :| 0 <= k < |s0.queue| && s0.queue[k] == u && queue == RemoveAt(s0.queue, k);
      Dequeued(Input(), s0, k);
      assert State() == s0.(queue := RemoveAt(s0.queue, k));
      WalkedKept(graph, s0, State());
      RootsFixedFrame(s0, State());
    }

    /** The engine's visit of one root: enqueue it, then repeatedly expand the frontier
        vertex of least cost, until the frontier is empty or a negative weight aborts
        the walk. */
    method Visit(root: V) returns (ok: bool)
      requires Valid({root}) && queue == []
      requires root in graph.vertices && root in colors && colors[root] == Gray
      modifies this`colors, this`distances, this`costs, this`queue, this`queueKeys, this`predecessors
      ensures ok ==> Valid({}) && queue == [] && NoGray(colors)
      ensures ok ==> root in colors && colors[root] == Black
      ensures ok ==> Extends(old(State()), State())
      ensures !ok ==> MetNegative(Input(), State())
      ensures roots == old(roots)
    {
      ghost var s0 := State();
      RootEnqueued(Input(), s0, root);
      WalkedKept(graph, s0, Enqueue(s0, root));
      RootsFixedFrame(s0, Enqueue(s0, root));
      Discover(root);
      RecolorExtends(s0, State());
      ok := Drain(root);
      if ok {
        ExtendsTransitive(s0, Enqueue(s0, root), State());
      }
    }

    /** The engine's loop: expand the frontier vertex of least cost until the frontier
        is empty or a negative weight aborts the walk. */
    method Drain(root: V) returns (ok: bool)
      requires Valid({}) && root in colors && colors[root] != White
      modifies this`colors, this`distances, this`costs, this`queue, this`queueKeys, this`predecessors
      ensures ok ==> Valid({}) && queue == [] && NoGray(colors)
      ensures ok ==> root in colors && colors[root] == Black
      ensures ok ==> Extends(old(State()), State())
      ensures !ok ==> MetNegative(Input(), State())
    {
      ghost var s0 := State();
      ExtendsTransitive(s0, s0, s0);
      while queue != []
        invariant Valid({})
        invariant Extends(s0, State())
        invariant root in colors && colors[root] != White
        decreases WhiteCount(Input(), State()), Potential(Input(), State()), |queue|
      {
        ghost var sNext := State();
        ok := ExpandNext();
        if !ok {
          return;
        }
        ExtendsTransitive(s0, sNext, State());
      }
      Drained(Input(), State());
      assert colors[root] == Black;
      ok := true;
    }

    /** One round of the engine's loop: the frontier vertex of least cost is taken out
        and expanded.  The measure strictly decreases. */
    method ExpandNext() returns (ok: bool)
      requires Valid({}) && queue != []
      modifies this`colors, this`distances, this`costs, this`queue, this`queueKeys, this`predecessors
      ensures ok ==> Valid({}) && Extends(old(State()), State())
      ensures ok ==> Decreased(old(WhiteCount(Input(), State())), old(Potential(Input(), State())), old(|queue|),
                               WhiteCount(Input(), State()), Potential(Input(), State()), |queue|)
      ensures !ok ==> MetNegative(Input(), State())
    {
      ghost var s0 := State();
      var u := TakeNext();
      ghost var s1 := State();
      assert WhiteCount(Input(), s1) == WhiteCount(Input(), s0);
      assert Potential(Input(), s1) == Potential(Input(), s0);
      ok := ExpandVertex(u);
    }

    /** One search: the root (which must be White) becomes Gray at distance 0 and the
        engine visits it. */
    method ComputeFromRoot(root: V) returns (ok: bool)
      requires Valid({}) && queue == []
      requires root in graph.vertices && root in colors && colors[root] == White
      modifies this`colors, this`distances, this`costs, this`queue, this`queueKeys, this`predecessors, this`roots
      ensures roots == old(roots) + {root}
      ensures ok ==> Valid({}) && queue == [] && NoGray(colors)
      ensures ok ==> root in colors && colors[root] == Black && root in distances && distances[root] == Fin(0)
      ensures ok ==> Extends(old(State()), State())
      ensures !ok ==> MetNegative(Input(), State())
    {
      ghost var s0 := State();
      Started(Input(), s0, root);
      StartWalked(graph, s0, root);
      StartRootsFixed(Input(), s0, root);
      StartRoot(root);
      ghost var s1 := State();
      ok := Visit(root);
      if ok {
        ExtendsTransitive(s0, s1, State());
        StaysAtZero(Input(), s1, State(), root);
      }
    }

    /** The start of a search: the root becomes Gray at distance 0 and is recorded as a
        root. */
    method StartRoot(root: V)
      modifies this`colors, this`distances, this`roots
      ensures State() == StartAt(old(State()), root)
      ensures roots == old(roots) + {root}
    {
      colors := colors[root := Gray];
      distances := distances[root := Fin(0)];
      roots := roots + {root};
    }

    // ---------------------------------------------------------------- set-up and runs

    /** Fresh tables: for a graph that can enumerate its vertices, every vertex is White
        at the initial distance and cost; otherwise the tables start empty. */
    method Initialize()
      modifies this`colors, this`distances, this`costs, this`queue, this`queueKeys, this`predecessors, this`roots
      ensures Initialized()
    {
      colors, distances, costs := map[], map[], map[];
      queue, queueKeys, predecessors := [], map[], map[];
      roots := {};
      if graph.isVertexSet {
        var i := 0;
        while i < |graph.vertices|
          invariant 0 <= i <= |graph.vertices|
          invariant forall v :: v in colors <==> v in graph.vertices[..i]
          invariant distances.Keys == colors.Keys && costs.Keys == colors.Keys
          invariant forall v :: v in colors ==>
            colors[v] == White && distances[v] == InitialDistance && costs[v] == InitialDistance
          invariant queue == [] && queueKeys == map[] && predecessors == map[] && roots == {}
        {
          var v := graph.vertices[i];
          colors := colors[v := White];
          distances := distances[v := InitialDistance];
          costs := costs[v := InitialDistance];
          i := i + 1;
        }
        assert graph.vertices[..i] == graph.vertices;
      }
    }

    /** The tables as `Initialize` leaves them: for a graph that enumerates its vertices,
        each of them White at the initial distance and cost, otherwise empty tables;
        an empty frontier and no tree edges. */
    ghost predicate Initialized()
      reads this
    {
      && (graph.isVertexSet ==> forall v :: v in colors <==> v in graph.vertices)
      && (!graph.isVertexSet ==> colors == map[])
      && distances.Keys == colors.Keys && costs.Keys == colors.Keys
      && (forall v :: v in colors ==>
            colors[v] == White && distances[v] == InitialDistance && costs[v] == InitialDistance)
      && queue == [] && queueKeys == map[] && predecessors == map[] && roots == {}
    }

    /** A run on initialised tables.  With a root: reset the root's entries, fail if the
        graph lacks it, else search from it.  Without one: search from every vertex still
        White, in enumeration order, when the graph can enumerate its vertices. */
    method InternalCompute(root: Option<V>) returns (r: Outcome)
      requires WellFormed(graph) && Initialized()
      modifies this`colors, this`distances, this`costs, this`queue, this`queueKeys, this`predecessors, this`roots
      ensures r == Failed(VertexNotFound) <==> root.Some? && !ContainsVertex(graph, root.value)
      ensures r == Failed(NegativeWeight) ==> MetNegative(Input(), State())
      ensures r != Failed(ArgumentNull)
      ensures r == Failed(NegativeWeight) && root.Some? ==> roots == {root.value}
      ensures r.Completed? ==> Valid({}) && queue == [] && NoGray(colors)
      ensures r.Completed? ==> Extends(old(State()), State())
      ensures r.Completed? && root.Some? ==>
        && roots == {root.value}
        && root.value in colors && colors[root.value] == Black
        && root.value in distances && distances[root.value] == Fin(0)
      ensures r.Completed? && root.None? && graph.isVertexSet ==>
        forall v :: v in graph.vertices ==> v in colors && colors[v] == Black
      ensures r.Completed? && root.None? && !graph.isVertexSet ==> colors == map[]
      ensures r.Completed? && root.None? && graph.isVertexSet ==> roots == ForestRoots(graph, graph.vertices)
      ensures root.None? && !graph.isVertexSet ==> r == Completed
    {
      InitialInv(Input(), State());
      if root.Some? {
        r := RunFromRoot(root.value);
      } else {
        r := RunForest();
      }
    }

    /** The run with an explicit root: its entries are reset to White at the initial
        distance and cost (even when the graph lacks it); a root outside the graph is an
        error, otherwise one search starts from it. */
    method RunFromRoot(root: V) returns (r: Outcome)
      requires Valid({}) && queue == [] && predecessors == map[] && roots == {}
      requires forall v :: v in colors ==> colors[v] == White
      modifies this`colors, this`distances, this`costs, this`queue, this`queueKeys, this`predecessors, this`roots
      ensures r == Failed(VertexNotFound) <==> !ContainsVertex(graph, root)
      ensures r == Failed(NegativeWeight) ==> MetNegative(Input(), State())
      ensures r != Failed(ArgumentNull)
      ensures r != Failed(VertexNotFound) ==> roots == {root}
      ensures r.Completed? ==> Valid({}) && queue == [] && NoGray(colors)
      ensures r.Completed? ==> Extends(old(State()), State())
      ensures r.Completed? ==>
        && roots == {root}
        && root in colors && colors[root] == Black
        && root in distances && distances[root] == Fin(0)
    {
      ghost var s0 := State();
      ResetRoot(root);
      if !ContainsVertex(graph, root) {
        return Failed(VertexNotFound);
      }
      ResetPreserves(Input(), s0, root);
      WalkedKept(graph, s0, State());
      ghost var s1 := State();
      var ok := ComputeFromRoot(root);
      if !ok {
        return Failed(NegativeWeight);
      }
      ExtendsTransitive(s0, s1, State());
      return Completed;
    }

    /** The reset of an explicit root's entries before the search. */
    method ResetRoot(root: V)
      modifies this`colors, this`distances, this`costs
      ensures State() == Reset(old(State()), root)
    {
      colors := colors[root := White];
      distances := distances[root := InitialDistance];
      costs := costs[root := InitialDistance];
    }

    /** The run without a root: when the graph can enumerate its vertices, a search from
        each vertex still White, in enumeration order; otherwise nothing. */
    method RunForest() returns (r: Outcome)
      requires Valid({}) && queue == [] && NoGray(colors)
      requires graph.isVertexSet ==> forall v :: v in graph.vertices ==> v in colors
      requires !graph.isVertexSet ==> colors == map[]
      requires roots == {}
      modifies this`colors, this`distances, this`costs, this`queue, this`queueKeys, this`predecessors, this`roots
      ensures r == Completed || r == Failed(NegativeWeight)
      ensures r == Failed(NegativeWeight) ==> MetNegative(Input(), State())
      ensures r.Completed? ==> Valid({}) && queue == [] && NoGray(colors)
      ensures r.Completed? ==> Extends(old(State()), State())
      ensures r.Completed? && graph.isVertexSet ==>
        forall v :: v in graph.vertices ==> v in colors && colors[v] == Black
      ensures r.Completed? && !graph.isVertexSet ==> colors == map[]
      // the searches start from the vertices no earlier search reached, in enumeration order
      ensures r.Completed? && graph.isVertexSet ==> roots == ForestRoots(graph, graph.vertices)
      // a graph that cannot enumerate its vertices gets no search at all
      ensures !graph.isVertexSet ==> r == Completed && State() == old(State())
    {
      ghost var s0 := State();
      ExtendsTransitive(s0, s0, s0);
      if graph.isVertexSet {
        var vs := graph.vertices;
        var i := 0;
        while i < |vs|
          invariant 0 <= i <= |vs|
          invariant Valid({}) && queue == [] && NoGray(colors)
          invariant Extends(s0, State())
          invariant Discovered(colors, vs[..i])
          invariant forall v :: v in vs ==> v in colors
          invariant roots == ForestRoots(graph, vs[..i])
        {
          var v := vs[i];
          ghost var sBefore := State();
          ForestRootsSnoc(graph, vs, i);
          if colors[v] == White {
            UnreachedWhite(Input(), sBefore, v);
            var ok := ComputeFromRoot(v);
            if !ok {
              return Failed(NegativeWeight);
            }
            ExtendsTransitive(s0, sBefore, State());
          }
          DiscoveredStep(sBefore, State(), vs, i);
          i := i + 1;
        }
        assert vs[..|vs|] == vs;
        DiscoveredFinished(colors, vs);
      }
      return Completed;
    }

    /** One computation: initialise the tables, then run from the root if one is given,
        otherwise from every vertex still White. */
    method Compute(root: Option<V>) returns (r: Outcome)
      requires WellFormed(graph)
      modifies this`colors, this`distances, this`costs, this`queue, this`queueKeys, this`predecessors, this`roots
      ensures r == Failed(VertexNotFound) <==> root.Some? && !ContainsVertex(graph, root.value)
      // a negative-weight error comes from an out-edge of a vertex the walk discovered,
      // at the end of a path from a root the searches started from
      ensures r == Failed(NegativeWeight) ==>
        exists x, e ::
          && x in colors && colors[x] != White && ReachedFrom(graph, roots, x)
          && e in graph.outEdges(x) && weights(e) < 0
      // with an explicit root, from that root
      ensures r == Failed(NegativeWeight) && root.Some? ==>
        exists path, e ::
          && IsPath(graph, root.value, path) && e in graph.outEdges(PathEnd(root.value, path)) && weights(e) < 0
      ensures r != Failed(ArgumentNull)
      // without a root, a graph that cannot enumerate its vertices is not searched
      ensures root.None? && !graph.isVertexSet ==> r == Completed
      // a completed run leaves a consistent state with nothing half-expanded
      ensures r.Completed? ==> Valid({}) && queue == [] && NoGray(colors)
      // the distance table covers exactly the graph's vertices when they can be enumerated
      ensures r.Completed? && graph.isVertexSet ==> forall v :: v in distances <==> v in graph.vertices
      ensures r.Completed? && root.None? && graph.isVertexSet ==>
        forall v :: v in graph.vertices ==> colors[v] == Black
      ensures r.Completed? && root.Some? ==>
        && root.value in colors && colors[root.value] == Black
        && root.value in distances && distances[root.value] == Fin(0)
      // the searches started from the given root, or else from each vertex that no
      // earlier root reaches, in enumeration order
      ensures r.Completed? && root.Some? ==> roots == {root.value}
      ensures r.Completed? && root.None? && graph.isVertexSet ==> roots == ForestRoots(graph, graph.vertices)
      // every root is finished at distance 0, with no tree edge and its initial cost
      ensures r.Completed? ==> forall x :: x in roots ==>
        && x in colors && colors[x] == Black && x in distances && distances[x] == Fin(0)
        && x !in predecessors && x in costs && costs[x] == InitialDistance
      // only vertices reachable from a root are discovered, and all but the roots have a
      // tree edge
      ensures r.Completed? ==> forall v :: v in colors && colors[v] != White ==> ReachedFrom(graph, roots, v)
      ensures r.Completed? ==> forall v :: v in colors && colors[v] != White && v !in roots ==> v in predecessors
      // no path from a root is shorter than the computed distance of its end
      ensures r.Completed? ==>
        forall x, path :: x in roots && IsPath(graph, x, path) ==>
          && PathEnd(x, path) in colors && colors[PathEnd(x, path)] == Black
          && PathEnd(x, path) in distances && distances[PathEnd(x, path)].Fin?
          && distances[PathEnd(x, path)].value <= PathWeight(weights, path)
      // every out-edge of a finished vertex has a non-negative weight
      ensures r.Completed? ==> forall x, e :: x in colors && colors[x] == Black && e in graph.outEdges(x) ==>
        weights(e) >= 0
      // a tree edge is an out-edge of another vertex ending at its vertex; the vertex
      // is exactly as far as the source plus the edge weight, so never nearer than its
      // predecessor, and its cost is distance plus heuristic
      ensures r.Completed? ==> forall v :: v in predecessors ==>
        var e := predecessors[v];
        && e.target == v && e.source != v && e in graph.outEdges(e.source)
        && e.source in distances && v in distances && v in costs
        && distances[v] == Combine(distances[e.source], weights(e))
        && AtMost(distances[e.source], distances[v])
        && costs[v] == Combine(distances[v], costHeuristic(v))
    {
      Initialize();
      r := InternalCompute(root);
      if r == Failed(NegativeWeight) {
        if root.Some? {
          MetFromRoot(Input(), State(), root.value);
        }
        assert MetNegative(Input(), State());
      }
      if r.Completed? {
        WalkOver(Input(), State());
      }
    }
  }
}
