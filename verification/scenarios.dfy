/**
 A worked instance: the three-edge graph a-b (2), b-c (3), a-c (10) solved
 from a, for any three distinct node names. Whatever order the solver
 expands nodes in, b ends at distance 2 by [a, b] and c at distance 5 by
 [a, b, c], less than the direct edge's weight 10.
 */
module Scenarios {
  import opened Graphs
  import opened Records
  import opened GraphBuilder
  import opened ShortestPaths

  function Triangle(a: NodeId, b: NodeId, c: NodeId): (edges: seq<Edge>)
  {
    [Edge(a, b, 2), Edge(b, c, 3), Edge(a, c, 10)]
  }

  /** The hand-solved table: a at 0, b at 2 via a, c at 5 via b. */
  function TriangleTable(a: NodeId, b: NodeId, c: NodeId): (t: Paths)
  {
    map[a := PathInfo(Fin(0), [a]),
        b := PathInfo(Fin(2), [a, b]),
        c := PathInfo(Fin(5), [a, b, c])]
  }

  predicate Distinct(a: NodeId, b: NodeId, c: NodeId)
  {
    a != b && b != c && a != c
  }

  lemma TriangleKeys(a: NodeId, b: NodeId, c: NodeId)
    ensures BuildGraph(Triangle(a, b, c)).Keys == {a, b, c}
  {
    var e := Triangle(a, b, c);
    assert forall r :: r in e <==> r == e[0] || r == e[1] || r == e[2];
    assert Endpoints(e) == {a, b, c};
  }

  /** Each row is the last one joining its two nodes, so its weight stands,
      in both directions. */
  lemma TriangleEntry(a: NodeId, b: NodeId, c: NodeId, i: nat)
    requires Distinct(a, b, c) && i < 3
    ensures var e := Triangle(a, b, c)[i];
            && Lookup(BuildGraph(Triangle(a, b, c)), e.source, e.destination) == Some(e.weight)
            && Lookup(BuildGraph(Triangle(a, b, c)), e.destination, e.source) == Some(e.weight)
  {
    var e := Triangle(a, b, c);
    var x, y := e[i].source, e[i].destination;
    forall j | i < j < |e|
      ensures !Connects(e[j], x, y) && !Connects(e[j], y, x)
    {
    }
    BuildGraphLastWriteWins(e, i, x, y);
    BuildGraphLastWriteWins(e, i, y, x);
  }

  /** The built triangle: three keys, each edge in both directions, and
      every neighbour a key. */
  lemma TriangleShape(a: NodeId, b: NodeId, c: NodeId)
    requires Distinct(a, b, c)
    ensures var g := BuildGraph(Triangle(a, b, c));
            && g.Keys == {a, b, c} && Closed(g)
            && Lookup(g, a, b) == Some(2) && Lookup(g, b, a) == Some(2)
            && Lookup(g, b, c) == Some(3) && Lookup(g, c, b) == Some(3)
            && Lookup(g, a, c) == Some(10) && Lookup(g, c, a) == Some(10)
            && g[a].Keys == {b, c} && g[b].Keys == {a, c} && g[c].Keys == {a, b}
  {
    TriangleNoLoops(a, b, c);
    TriangleKeys(a, b, c);
    TriangleEntry(a, b, c, 0);
    TriangleEntry(a, b, c, 1);
    TriangleEntry(a, b, c, 2);
    BuildGraphSymmetric(Triangle(a, b, c));
    TriangleNeighbours(a, b, c, BuildGraph(Triangle(a, b, c)));
  }

  lemma TriangleNoLoops(a: NodeId, b: NodeId, c: NodeId)
    requires Distinct(a, b, c)
    ensures forall x :: x in BuildGraph(Triangle(a, b, c)) ==> x !in BuildGraph(Triangle(a, b, c))[x]
  {
    var e := Triangle(a, b, c);
    assert forall i :: 0 <= i < |e| ==> e[i].source != e[i].destination;
    BuildGraphNoLoops(e);
  }

  /** With three keys, the six entries and no loops, each node's neighbours
      are exactly the other two. */
  lemma TriangleNeighbours(a: NodeId, b: NodeId, c: NodeId, g: Graph)
    requires Distinct(a, b, c) && g.Keys == {a, b, c} && Closed(g)
    requires forall x :: x in g ==> x !in g[x]
    requires Lookup(g, a, b) == Some(2) && Lookup(g, b, a) == Some(2)
    requires Lookup(g, b, c) == Some(3) && Lookup(g, c, b) == Some(3)
    requires Lookup(g, a, c) == Some(10) && Lookup(g, c, a) == Some(10)
    ensures g[a].Keys == {b, c} && g[b].Keys == {a, c} && g[c].Keys == {a, b}
  {
    assert Lookup(g, a, b).Some? && Lookup(g, a, c).Some?;
    assert Lookup(g, b, a).Some? && Lookup(g, b, c).Some?;
    assert Lookup(g, c, a).Some? && Lookup(g, c, b).Some?;
    forall y | y in g[a]
      ensures y == b || y == c
    {
      assert y in g && y != a;
    }
    forall y | y in g[b]
      ensures y == a || y == c
    {
      assert y in g && y != b;
    }
    forall y | y in g[c]
      ensures y == a || y == b
    {
      assert y in g && y != c;
    }
  }

  /** On any graph of that shape, the hand-solved table is a consistent
      shortest-path table. */
  lemma TriangleSolved(a: NodeId, b: NodeId, c: NodeId, g: Graph)
    requires Distinct(a, b, c) && g.Keys == {a, b, c} && Closed(g)
    requires Lookup(g, a, b) == Some(2) && Lookup(g, b, a) == Some(2)
    requires Lookup(g, b, c) == Some(3) && Lookup(g, c, b) == Some(3)
    requires Lookup(g, a, c) == Some(10) && Lookup(g, c, a) == Some(10)
    ensures Consistent(g, a, TriangleTable(a, b, c))
    ensures Shortest(g, a, TriangleTable(a, b, c))
  {
    var t := TriangleTable(a, b, c);
    TriangleConsistent(a, b, c, g, t);
    TriangleFeasible(a, b, c, g, t);
    FeasibleIsShortest(g, a, t);
  }

  lemma TriangleConsistent(a: NodeId, b: NodeId, c: NodeId, g: Graph, t: Paths)
    requires Distinct(a, b, c) && t == TriangleTable(a, b, c) && g.Keys == {a, b, c}
    requires Lookup(g, a, b) == Some(2) && Lookup(g, b, c) == Some(3)
    ensures Consistent(g, a, t)
  {
    ExtendPath(g, [a], b);
    assert [a] + [b] == [a, b];
    ExtendPath(g, [a, b], c);
    assert [a, b] + [c] == [a, b, c];
    assert RecordOk(g, a, a, t[a]);
    assert RecordOk(g, a, b, t[b]);
    assert RecordOk(g, a, c, t[c]);
  }

  lemma TriangleFeasible(a: NodeId, b: NodeId, c: NodeId, g: Graph, t: Paths)
    requires Distinct(a, b, c) && t == TriangleTable(a, b, c) && g.Keys == {a, b, c}
    requires Lookup(g, a, b) == Some(2) && Lookup(g, b, a) == Some(2)
    requires Lookup(g, b, c) == Some(3) && Lookup(g, c, b) == Some(3)
    requires Lookup(g, a, c) == Some(10) && Lookup(g, c, a) == Some(10)
    requires Closed(g)
    ensures Feasible(g, t)
  {
    assert t.Keys == {a, b, c};
    forall u, v | u in t && u in g && v in g[u] && t[u].distance.Fin?
      ensures v in t && AtMost(t[v].distance, Fin(t[u].distance.n + g[u][v]))
    {
      assert v in g;
      assert Lookup(g, u, v) == Some(g[u][v]);
    }
  }

  /** Every edge of the triangle weighs at least 2, so the only walk of
      weight 2 from a to b is the edge itself and the only walk of weight 5
      from a to c is the detour through b. */
  lemma TriangleWalks(a: NodeId, b: NodeId, c: NodeId, g: Graph, p: seq<NodeId>)
    requires Distinct(a, b, c) && g.Keys == {a, b, c}
    requires g[a].Keys == {b, c} && g[b].Keys == {a, c} && g[c].Keys == {a, b}
    requires Lookup(g, a, b) == Some(2) && Lookup(g, b, a) == Some(2)
    requires Lookup(g, b, c) == Some(3) && Lookup(g, c, b) == Some(3)
    requires Lookup(g, a, c) == Some(10) && Lookup(g, c, a) == Some(10)
    ensures PathFromTo(g, p, a, b) && PathWeight(g, p) == 2 ==> p == [a, b]
    ensures PathFromTo(g, p, a, c) && PathWeight(g, p) == 5 ==> p == [a, b, c]
  {
    if IsPath(g, p) && p[0] == a && (Last(p) == b || Last(p) == c) && PathWeight(g, p) <= 5 {
      forall u, v | u in g && v in g[u]
        ensures 2 <= g[u][v]
      {
        assert Lookup(g, u, v) == Some(g[u][v]);
      }
      PathWeightAtLeast(g, p, 2);
      assert |p| <= 3;
      if |p| == 2 {
        assert PathWeight(g, p[..1]) == 0;
        assert PathWeight(g, p) == g[a][p[1]];
        assert p == [a, p[1]];
      } else if |p| == 3 {
        assert p[1] in g[a] && p[2] in g[p[1]];
        assert p == [a, p[1], p[2]];
      }
    }
  }

  /** Any consistent shortest-path table for the triangle, in particular the
      one the solver returns, puts a at 0, b at 2 and c at 5. */
  lemma TriangleDistances(a: NodeId, b: NodeId, c: NodeId, paths: Paths)
    requires Distinct(a, b, c)
    requires paths.Keys == BuildGraph(Triangle(a, b, c)).Keys
    requires Consistent(BuildGraph(Triangle(a, b, c)), a, paths)
    requires Shortest(BuildGraph(Triangle(a, b, c)), a, paths)
    ensures paths.Keys == {a, b, c}
    ensures a in paths && paths[a].distance == Fin(0)
    ensures b in paths && paths[b].distance == Fin(2)
    ensures c in paths && paths[c].distance == Fin(5)
    ensures paths[b].path == [a, b] && paths[c].path == [a, b, c]
  {
    TriangleShape(a, b, c);
    TriangleDistancesOn(a, b, c, BuildGraph(Triangle(a, b, c)), paths);
  }

  lemma TriangleDistancesOn(a: NodeId, b: NodeId, c: NodeId, g: Graph, paths: Paths)
    requires Distinct(a, b, c) && g.Keys == {a, b, c} && Closed(g)
    requires Lookup(g, a, b) == Some(2) && Lookup(g, b, a) == Some(2)
    requires Lookup(g, b, c) == Some(3) && Lookup(g, c, b) == Some(3)
    requires Lookup(g, a, c) == Some(10) && Lookup(g, c, a) == Some(10)
    requires g[a].Keys == {b, c} && g[b].Keys == {a, c} && g[c].Keys == {a, b}
    requires paths.Keys == g.Keys && Consistent(g, a, paths) && Shortest(g, a, paths)
    ensures paths[a].distance == Fin(0) && paths[b].distance == Fin(2) && paths[c].distance == Fin(5)
    ensures paths[b].path == [a, b] && paths[c].path == [a, b, c]
  {
    var t := TriangleTable(a, b, c);
    TriangleSolved(a, b, c, g);
    ShortestDistancesUnique(g, a, t, paths);
    assert t[a].distance == Fin(0) && t[b].distance == Fin(2) && t[c].distance == Fin(5);
    assert RecordOk(g, a, b, paths[b]) && RecordOk(g, a, c, paths[c]);
    TriangleWalks(a, b, c, g, paths[b].path);
    TriangleWalks(a, b, c, g, paths[c].path);
  }

  /** Building the triangle and running the solver from a. */
  method SolveTriangle(a: NodeId, b: NodeId, c: NodeId) returns (paths: Paths)
    requires Distinct(a, b, c)
    ensures paths.Keys == {a, b, c}
    ensures paths[a] == PathInfo(Fin(0), [a])
    ensures paths[b] == PathInfo(Fin(2), [a, b])
    ensures paths[c] == PathInfo(Fin(5), [a, b, c])
  {
    var g := BuildGraph(Triangle(a, b, c));
    TriangleShape(a, b, c);
    ghost var settled;
    paths, settled := Dijkstra(g, a);
    TriangleDistances(a, b, c, paths);
  }
}
