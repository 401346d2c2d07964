/** The filtered edge-list view: a read-only view of a base graph restricted to the
    vertices that satisfy a vertex predicate and to the edges that satisfy an edge
    predicate and join two such vertices. */
module Predicates {
  import opened Seqs
  import opened QuikGraph

  /** The view over `baseGraph`; nothing is copied or mutated, every query scans the
      base graph. */
  datatype FilteredEdgeListGraph<!V(==)> = FilteredEdgeListGraph(
    baseGraph: EdgeListGraph<V>,
    vertexPredicate: V -> bool,
    edgePredicate: Edge<V> -> bool)
  {
    /** An edge passes the filter when both endpoints and the edge itself satisfy
        their predicates. */
    predicate FilterEdge(e: Edge<V>)
    {
      vertexPredicate(e.source) && vertexPredicate(e.target) && edgePredicate(e)
    }

    /** The edge filter as a function value, for enumeration. */
    function EdgeFilter(): Edge<V> -> bool
    {
      e => FilterEdge(e)
    }

    /** Edge containment: the edge passes the filter and the base graph has it.  It
        agrees exactly with the edge enumeration. */
    predicate ContainsEdge(e: Edge<V>)
      ensures ContainsEdge(e) <==> e in Edges()
    {
      FilterMembership(baseGraph.edges, EdgeFilter(), e);
      FilterEdge(e) && e in baseGraph.edges
    }

    /** The enumeration of the view's vertices: the base vertices that satisfy the
        vertex predicate, in base order. */
    function Vertices(): (r: seq<V>)
      ensures forall i :: 0 <= i < |r| ==> vertexPredicate(r[i])
      ensures IsSubsequence(r, baseGraph.vertices) && |r| <= |baseGraph.vertices|
    {
      FilterBounds(baseGraph.vertices, vertexPredicate);
      FilterIsSubsequence(baseGraph.vertices, vertexPredicate);
      Filter(baseGraph.vertices, vertexPredicate)
    }

    /** The enumeration of the view's edges: the base edges that pass the filter, in
        base order. */
    function Edges(): (r: seq<Edge<V>>)
      ensures forall i :: 0 <= i < |r| ==> FilterEdge(r[i])
      ensures IsSubsequence(r, baseGraph.edges) && |r| <= |baseGraph.edges|
    {
      FilterBounds(baseGraph.edges, EdgeFilter());
      FilterIsSubsequence(baseGraph.edges, EdgeFilter());
      Filter(baseGraph.edges, EdgeFilter())
    }

    /** Counts the base vertices that satisfy the vertex predicate, one pass. */
    method VertexCount() returns (count: nat)
      ensures count == |Vertices()|
      ensures count == |set i | 0 <= i < |baseGraph.vertices| && vertexPredicate(baseGraph.vertices[i])|
    {
      var vs := baseGraph.vertices;
      count := 0;
      var i := 0;
      while i < |vs|
        invariant 0 <= i <= |vs|
        invariant count == |Filter(vs[..i], vertexPredicate)|
      {
        PrefixSnoc(vs, i);
        FilterSnoc(vs[..i], vs[i], vertexPredicate);
        if vertexPredicate(vs[i]) {
          count := count + 1;
        }
        i := i + 1;
      }
      PrefixAll(vs);
      FilterCountsPositions(vs, vertexPredicate);
    }

    /** Whether no base vertex satisfies the vertex predicate; stops at the first one
        that does. */
    method IsVerticesEmpty() returns (empty: bool)
      ensures empty <==> forall v :: v in baseGraph.vertices ==> !vertexPredicate(v)
      ensures empty <==> Vertices() == []
    {
      var vs := baseGraph.vertices;
      var i := 0;
      while i < |vs|
        invariant 0 <= i <= |vs|
        invariant forall j :: 0 <= j < i ==> !vertexPredicate(vs[j])
      {
        if vertexPredicate(vs[i]) {
          FilterEmpty(vs, vertexPredicate);
          return false;
        }
        i := i + 1;
      }
      FilterEmpty(vs, vertexPredicate);
      return true;
    }

    /** Counts the base edges that pass the filter, one pass. */
    method EdgeCount() returns (count: nat)
      ensures count == |Edges()|
      ensures count == |set i | 0 <= i < |baseGraph.edges| && FilterEdge(baseGraph.edges[i])|
    {
      var es := baseGraph.edges;
      count := 0;
      var i := 0;
      while i < |es|
        invariant 0 <= i <= |es|
        invariant count == |Filter(es[..i], EdgeFilter())|
      {
        PrefixSnoc(es, i);
        FilterSnoc(es[..i], es[i], EdgeFilter());
        if FilterEdge(es[i]) {
          count := count + 1;
        }
        i := i + 1;
      }
      PrefixAll(es);
      FilterCountsPositions(es, EdgeFilter());
      assert Positions(es, EdgeFilter()) == set i | 0 <= i < |es| && FilterEdge(es[i]);
    }

    /** Whether no base edge passes the filter; stops at the first one that does. */
    method IsEdgesEmpty() returns (empty: bool)
      ensures empty <==> forall e :: e in baseGraph.edges ==> !FilterEdge(e)
      ensures empty <==> Edges() == []
    {
      var es := baseGraph.edges;
      var i := 0;
      while i < |es|
        invariant 0 <= i <= |es|
        invariant forall j :: 0 <= j < i ==> !FilterEdge(es[j])
      {
        if FilterEdge(es[i]) {
          FilterEmpty(es, EdgeFilter());
          return false;
        }
        i := i + 1;
      }
      FilterEmpty(es, EdgeFilter());
      return true;
    }

    /** A vertex is enumerated exactly when it is a base vertex satisfying the vertex
        predicate; the enumeration keeps base order and is no longer than the base. */
    lemma VerticesExactly(v: V)
      ensures v in Vertices() <==> v in baseGraph.vertices && vertexPredicate(v)
      ensures IsSubsequence(Vertices(), baseGraph.vertices)
      ensures |Vertices()| <= |baseGraph.vertices|
    {
      FilterMembership(baseGraph.vertices, vertexPredicate, v);
      FilterIsSubsequence(baseGraph.vertices, vertexPredicate);
      FilterBounds(baseGraph.vertices, vertexPredicate);
    }

    /** An edge is enumerated exactly when it is a base edge whose endpoints satisfy
        the vertex predicate and which satisfies the edge predicate; the enumeration
        keeps base order. */
    lemma EdgesExactly(e: Edge<V>)
      ensures e in Edges() <==>
        && e in baseGraph.edges
        && vertexPredicate(e.source) && vertexPredicate(e.target) && edgePredicate(e)
      ensures IsSubsequence(Edges(), baseGraph.edges)
    {
      FilterMembership(baseGraph.edges, EdgeFilter(), e);
      FilterIsSubsequence(baseGraph.edges, EdgeFilter());
    }

    /** Every enumerated edge joins two vertices that satisfy the vertex predicate, and
        when the base graph's edges join base vertices, two enumerated vertices. */
    lemma EdgesJoinVertices(e: Edge<V>)
      requires e in Edges()
      ensures vertexPredicate(e.source) && vertexPredicate(e.target)
      ensures EndpointsAreVertices(baseGraph) ==> e.source in Vertices() && e.target in Vertices()
    {
      FilterMembership(baseGraph.edges, EdgeFilter(), e);
      FilterMembership(baseGraph.vertices, vertexPredicate, e.source);
      FilterMembership(baseGraph.vertices, vertexPredicate, e.target);
    }

    /** The enumeration of the edges of two consecutive blocks of the base edge list is
        the enumeration of the first block followed by that of the second: an edge
        listed before another in the base is enumerated before it. */
    lemma EdgesKeepOrder(k: nat)
      requires k <= |baseGraph.edges|
      ensures Edges() == Filter(baseGraph.edges[..k], EdgeFilter()) + Filter(baseGraph.edges[k..], EdgeFilter())
    {
      assert baseGraph.edges == baseGraph.edges[..k] + baseGraph.edges[k..];
      FilterConcat(baseGraph.edges[..k], baseGraph.edges[k..], EdgeFilter());
    }
  }
}
