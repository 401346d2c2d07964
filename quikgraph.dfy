/** The graph vocabulary shared by the algorithm and the filtered view: edges, vertex
    colours, the incidence graph A* walks, the edge-list graph the view wraps, and paths. */
module QuikGraph {
  import opened Seqs

  /** A directed edge.  `tag` tells apart parallel edges with the same endpoints,
      as object identity does for QuikGraph's edge classes. */
  datatype Edge<V> = Edge(source: V, target: V, tag: nat)

  /** The per-run state of a vertex: not yet discovered, discovered, finished. */
  datatype GraphColor = White | Gray | Black

  /** A graph that exposes the out-edges of each of its vertices.  `isVertexSet`
      says whether it can also enumerate its vertices (implements the vertex-set
      interface); `vertices` is then the enumeration order. */
  datatype IncidenceGraph<!V> = IncidenceGraph(
    vertices: seq<V>,
    outEdges: V -> seq<Edge<V>>,
    isVertexSet: bool)

  /** The structural invariant every graph container keeps: vertices are listed once,
      and each out-edge of a vertex starts there and ends at a vertex of the graph. */
  ghost predicate WellFormed<V>(g: IncidenceGraph<V>)
  {
    && Distinct(g.vertices)
    && forall u :: u in g.vertices ==>
         forall e :: e in g.outEdges(u) ==> e.source == u && e.target in g.vertices
  }

  /** Vertex containment of an incidence graph. */
  predicate ContainsVertex<V(==)>(g: IncidenceGraph<V>, v: V)
  {
    v in g.vertices
  }

  /** A graph given by its vertex list and its edge list. */
  datatype EdgeListGraph<V> = EdgeListGraph(vertices: seq<V>, edges: seq<Edge<V>>)

  /** Edges added through the vertices-and-edges interface have both endpoints
      among the vertices. */
  ghost predicate EndpointsAreVertices<V>(g: EdgeListGraph<V>)
  {
    forall e :: e in g.edges ==> e.source in g.vertices && e.target in g.vertices
  }

  /** Where a path that starts at `from` ends. */
  function PathEnd<V>(from: V, path: seq<Edge<V>>): V
  {
    if path == [] then from else path[|path| - 1].target
  }

  /** `path` is a chain of out-edges of `g` that starts at `from`. */
  ghost predicate IsPath<V>(g: IncidenceGraph<V>, from: V, path: seq<Edge<V>>)
  {
    if path == [] then true
    else
      var init, last := path[..|path| - 1], path[|path| - 1];
      && IsPath(g, from, init)
      && last.source == PathEnd(from, init)
      && last in g.outEdges(last.source)
  }

  /** A path extended by an out-edge of its end is a path to that edge's target. */
  lemma PathSnoc<V>(g: IncidenceGraph<V>, from: V, path: seq<Edge<V>>, e: Edge<V>)
    requires IsPath(g, from, path) && e.source == PathEnd(from, path) && e in g.outEdges(e.source)
    ensures IsPath(g, from, path + [e]) && PathEnd(from, path + [e]) == e.target
  {
    assert (path + [e])[..|path|] == path;
  }

  /** The total weight of a path. */
  function PathWeight<V>(w: Edge<V> -> int, path: seq<Edge<V>>): int
  {
    if path == [] then 0 else PathWeight(w, path[..|path| - 1]) + w(path[|path| - 1])
  }
}
