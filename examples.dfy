/** Concrete runs: the negative-weight chain, a single edge from a root and without one,
    a negative edge out of reach, and a filtered view. */
module Examples {
  import opened Wrappers
  import opened Seqs
  import opened QuikGraph
  import opened DistanceRelaxers
  import opened AStarSpec
  import opened ShortestPath
  import opened Predicates

  /** The chain 1 -> 2 -> 3 -> 4 with weights 12, -23 and 34. */
  function ChainOut(v: int): seq<Edge<int>>
  {
    if 1 <= v <= 3 then [Edge(v, v + 1, 0)] else []
  }

  function ChainWeight(e: Edge<int>): int
  {
    if e.source == 1 then 12 else if e.source == 2 then -23 else 34
  }

  /** No heuristic guidance. */
  function Zero(v: int): int
  {
    0
  }

  function Chain(): (g: IncidenceGraph<int>)
    ensures WellFormed(g)
  {
    IncidenceGraph([1, 2, 3, 4], ChainOut, true)
  }

  /** Computing from 1 on the chain reaches the negative edge 2 -> 3 and fails with a
      negative-weight error. */
  method NegativeWeightChain() returns (r: Outcome)
    ensures r == Failed(NegativeWeight)
  {
    var g := Chain();
    var algorithm := new AStarShortestPathAlgorithm(g, ChainWeight, Zero, ShortestDistance);
    r := algorithm.Compute(Some(1));
    ChainOutcome(g, algorithm.weights, algorithm.colors, r);
  }

  /** What the run on the chain can end with. */
  lemma ChainOutcome(g: IncidenceGraph<int>, w: Edge<int> -> int, colors: map<int, GraphColor>, r: Outcome)
    requires g == Chain() && w == ChainWeight
    requires r == Failed(VertexNotFound) <==> !ContainsVertex(g, 1)
    requires r != Failed(ArgumentNull)
    requires r.Completed? ==>
      && (forall path :: IsPath(g, 1, path) ==> PathEnd(1, path) in colors && colors[PathEnd(1, path)] == Black)
      && (forall x, e :: x in colors && colors[x] == Black && e in g.outEdges(x) ==> w(e) >= 0)
    ensures r == Failed(NegativeWeight)
  {
    assert ContainsVertex(g, 1);
    var first, second := Edge(1, 2, 0), Edge(2, 3, 0);
    assert IsPath(g, 1, [first]) by {
      assert [first][..0] == [];
      assert PathEnd(1, []) == 1;
      assert first in g.outEdges(1);
    }
    assert PathEnd(1, [first]) == 2;
    assert second in g.outEdges(2) && w(second) == -23;
    if r.Completed? {
      assert false;
    }
    if r.Failed? {
      assert r.error != ArgumentNull && r.error != VertexNotFound;
    }
  }

  /** A single edge 1 -> 2 of weight 1. */
  function PairOut(v: int): seq<Edge<int>>
  {
    if v == 1 then [Edge(1, 2, 0)] else []
  }

  function PairWeight(e: Edge<int>): int
  {
    1
  }

  function Pair(): (g: IncidenceGraph<int>)
    ensures WellFormed(g)
  {
    IncidenceGraph([1, 2], PairOut, true)
  }

  /** Computing from 1 over the edge 1 -> 2 completes with both vertices finished, 2 at
      distance 1 and the edge recorded as 2's tree edge. */
  method SingleEdge() returns (r: Outcome, c1: GraphColor, c2: GraphColor, d2: Dist, tree: Edge<int>)
    ensures r == Completed && c1 == Black && c2 == Black
    ensures d2 == Fin(1) && tree == Edge(1, 2, 0)
  {
    var g := Pair();
    var algorithm := new AStarShortestPathAlgorithm(g, PairWeight, Zero, ShortestDistance);
    r := algorithm.Compute(Some(1));
    PairOutcome(g, algorithm.weights, algorithm.roots, algorithm.colors, algorithm.distances,
                algorithm.predecessors, r);
    c1, c2 := algorithm.colors[1], algorithm.colors[2];
    d2, tree := algorithm.distances[2], algorithm.predecessors[2];
  }

  /** What the run over the single edge ends with. */
  lemma PairOutcome(g: IncidenceGraph<int>, w: Edge<int> -> int, roots: set<int>,
                    colors: map<int, GraphColor>, distances: map<int, Dist>,
                    predecessors: map<int, Edge<int>>, r: Outcome)
    requires g == Pair() && w == PairWeight
    requires r == Failed(VertexNotFound) <==> !ContainsVertex(g, 1)
    requires r == Failed(NegativeWeight) ==> exists x, e :: x in g.vertices && e in g.outEdges(x) && w(e) < 0
    requires r != Failed(ArgumentNull)
    requires r.Completed? ==>
      && 1 in colors && colors[1] == Black && 1 in distances && distances[1] == Fin(0)
      && roots == {1}
      && (forall x, path :: x in roots && IsPath(g, x, path) ==>
            PathEnd(x, path) in colors && colors[PathEnd(x, path)] == Black)
      && (forall v :: v in colors && colors[v] != White && v !in roots ==> v in predecessors)
      && (forall v :: v in predecessors ==>
            var e := predecessors[v];
            && e.target == v && e in g.outEdges(e.source)
            && e.source in distances && v in distances
            && distances[v] == Combine(distances[e.source], w(e)))
    ensures r == Completed
    ensures 1 in colors && colors[1] == Black && 2 in colors && colors[2] == Black
    ensures 2 in distances && distances[2] == Fin(1)
    ensures 2 in predecessors && predecessors[2] == Edge(1, 2, 0)
  {
    assert ContainsVertex(g, 1);
    var e := Edge(1, 2, 0);
    assert IsPath(g, 1, [e]) by {
      assert [e][..0] == [];
      assert PathEnd(1, []) == 1;
      assert e in g.outEdges(1);
    }
    assert PathEnd(1, [e]) == 2;
    assert forall f :: w(f) == 1;
    if r.Failed? {
      match r.error
      case ArgumentNull => assert false;
      case NegativeWeight => assert false;
      case VertexNotFound => assert false;
    }
    var tree := predecessors[2];
    assert tree in g.outEdges(tree.source);
    assert tree.source == 1;
  }

  /** Every edge weighs 5. */
  function FiveWeight(e: Edge<int>): int
  {
    5
  }

  /** Computing without a root over the edge 1 -> 2 of weight 5: the only search starts
      at 1, which reaches 2, so 2 is not a root and ends at distance 5. */
  method ForestRun() returns (r: Outcome, d1: Dist, d2: Dist)
    ensures r == Completed && d1 == Fin(0) && d2 == Fin(5)
  {
    var g := Pair();
    var algorithm := new AStarShortestPathAlgorithm(g, FiveWeight, Zero, ShortestDistance);
    r := algorithm.Compute(None);
    ForestOutcome(g, algorithm.weights, algorithm.roots, algorithm.colors, algorithm.distances,
                  algorithm.predecessors, r);
    d1, d2 := algorithm.distances[1], algorithm.distances[2];
  }

  /** What the root-less run over the edge 1 -> 2 of weight 5 ends with. */
  lemma ForestOutcome(g: IncidenceGraph<int>, w: Edge<int> -> int, roots: set<int>,
                      colors: map<int, GraphColor>, distances: map<int, Dist>,
                      predecessors: map<int, Edge<int>>, r: Outcome)
    requires g == Pair() && w == FiveWeight
    requires r != Failed(VertexNotFound) && r != Failed(ArgumentNull)
    requires r == Failed(NegativeWeight) ==> exists x, e :: x in colors && e in g.outEdges(x) && w(e) < 0
    requires r.Completed? ==>
      && roots == ForestRoots(g, g.vertices)
      && (forall v :: v in g.vertices ==> v in colors && colors[v] == Black)
      && (forall x :: x in roots ==> x in distances && distances[x] == Fin(0))
      && (forall v :: v in colors && colors[v] != White && v !in roots ==> v in predecessors)
      && (forall v :: v in predecessors ==>
            var e := predecessors[v];
            && e.target == v && e in g.outEdges(e.source)
            && e.source in distances && v in distances
            && distances[v] == Combine(distances[e.source], w(e)))
    ensures r == Completed && roots == {1}
    ensures 1 in distances && distances[1] == Fin(0) && 2 in distances && distances[2] == Fin(5)
  {
    if r.Failed? {
      match r.error
      case ArgumentNull => assert false;
      case VertexNotFound => assert false;
      case NegativeWeight => assert false;
    }
    var e := Edge(1, 2, 0);
    assert IsPath(g, 1, [e]) by {
      assert [e][..0] == [];
      assert PathEnd(1, []) == 1;
      assert e in g.outEdges(1);
    }
    assert PathEnd(1, [e]) == 2;
    var vs := g.vertices;
    ForestRootsSnoc(g, vs, 0);
    ForestRootsSnoc(g, vs, 1);
    assert vs[..0] == [] && vs[..2] == vs;
    assert !ReachedFrom(g, {}, 1);
    assert ForestRoots(g, vs[..1]) == {1};
    assert ReachedFrom(g, {1}, 2);
    var tree := predecessors[2];
    assert tree in g.outEdges(tree.source);
    assert tree.source == 1;
  }

  /** Edges 1 -> 2 of weight 1 and 3 -> 4 of weight -1: the negative edge cannot be
      reached from 1. */
  function SplitOut(v: int): seq<Edge<int>>
  {
    if v == 1 then [Edge(1, 2, 0)] else if v == 3 then [Edge(3, 4, 0)] else []
  }

  function SplitWeight(e: Edge<int>): int
  {
    if e.source == 3 then -1 else 1
  }

  function Split(): (g: IncidenceGraph<int>)
    ensures WellFormed(g)
  {
    IncidenceGraph([1, 2, 3, 4], SplitOut, true)
  }

  /** Computing from 1 completes: the walk never examines the negative edge 3 -> 4. */
  method UnreachableNegative() returns (r: Outcome)
    ensures r == Completed
  {
    var g := Split();
    var algorithm := new AStarShortestPathAlgorithm(g, SplitWeight, Zero, ShortestDistance);
    r := algorithm.Compute(Some(1));
    SplitOutcome(g, SplitWeight, r);
  }

  /** What the run from 1 on the split graph can end with. */
  lemma SplitOutcome(g: IncidenceGraph<int>, w: Edge<int> -> int, r: Outcome)
    requires g == Split() && w == SplitWeight
    requires r == Failed(VertexNotFound) <==> !ContainsVertex(g, 1)
    requires r != Failed(ArgumentNull)
    requires r == Failed(NegativeWeight) ==>
      exists path, e :: IsPath(g, 1, path) && e in g.outEdges(PathEnd(1, path)) && w(e) < 0
    ensures r == Completed
  {
    assert ContainsVertex(g, 1);
    if r.Failed? {
      match r.error
      case ArgumentNull => assert false;
      case VertexNotFound => assert false;
      case NegativeWeight =>
        var path, e :| IsPath(g, 1, path) && e in g.outEdges(PathEnd(1, path)) && w(e) < 0;
        SplitPaths(g, path);
    }
  }

  /** Every path from 1 in the split graph ends at 1 or 2. */
  lemma {:induction false} SplitPaths(g: IncidenceGraph<int>, path: seq<Edge<int>>)
    requires g == Split() && IsPath(g, 1, path)
    ensures PathEnd(1, path) == 1 || PathEnd(1, path) == 2
  {
    if path != [] {
      var init := path[..|path| - 1];
      SplitPaths(g, init);
      assert path[|path| - 1] in g.outEdges(PathEnd(1, init));
    }
  }

  /** The view of the base graph 1, 2, 3 with edges 1 -> 2, 2 -> 3 and 1 -> 3 that keeps
      the vertices other than 3: two vertices and the one edge 1 -> 2. */
  method FilteredView() returns (vertices: nat, edges: nat, empty: bool)
    ensures vertices == 2 && edges == 1 && !empty
  {
    var v0: seq<int> := [];
    var v1 := v0 + [1];
    var v2 := v1 + [2];
    var v3 := v2 + [3];
    var e0: seq<Edge<int>> := [];
    var e1 := e0 + [Edge(1, 2, 0)];
    var e2 := e1 + [Edge(2, 3, 0)];
    var e3 := e2 + [Edge(1, 3, 0)];
    var view := FilteredEdgeListGraph(EdgeListGraph(v3, e3), (v: int) => v != 3, (e: Edge<int>) => true);
    var vp, ef := view.vertexPredicate, view.EdgeFilter();
    FilterSnoc(v0, 1, vp);
    FilterSnoc(v1, 2, vp);
    FilterSnoc(v2, 3, vp);
    assert |view.Vertices()| == 2;
    FilterSnoc(e0, Edge(1, 2, 0), ef);
    FilterSnoc(e1, Edge(2, 3, 0), ef);
    FilterSnoc(e2, Edge(1, 3, 0), ef);
    assert |view.Edges()| == 1;
    vertices := view.VertexCount();
    edges := view.EdgeCount();
    empty := view.IsEdgesEmpty();
  }
}
