/**
 The solver's per-node record (`PathInfo`) and what it means for a table of
 such records to be consistent with, and optimal for, a graph.
 */
module Records {
  import opened Graphs

  /** A recorded distance. `Inf` is the unreached sentinel, the Java code's
      `Double.MAX_VALUE`. */
  datatype Dist = Fin(n: nat) | Inf

  /** The Java code's strict `<` on distances. The sentinel lies above every
      finite distance and is not below itself. */
  predicate Less(a: Dist, b: Dist)
  {
    match (a, b)
    case (Fin(x), Fin(y)) => x < y
    case (Fin(_), Inf) => true
    case (Inf, _) => false
  }

  predicate AtMost(a: Dist, b: Dist)
  {
    !Less(b, a)
  }

  lemma AtMostTransitive(a: Dist, b: Dist, c: Dist)
    requires AtMost(a, b) && AtMost(b, c)
    ensures AtMost(a, c)
  {
  }

  /** The best known distance to a node and the walk that achieves it. */
  datatype PathInfo = PathInfo(distance: Dist, path: seq<NodeId>)

  type Paths = map<NodeId, PathInfo>

  /** A finite record carries a walk from s to v of exactly its distance;
      an unreached record carries the placeholder [s]. */
  ghost predicate RecordOk(g: Graph, s: NodeId, v: NodeId, info: PathInfo)
  {
    match info.distance
    case Inf => info.path == [s]
    case Fin(d) => PathFromTo(g, info.path, s, v) && PathWeight(g, info.path) == d
  }

  ghost predicate Consistent(g: Graph, s: NodeId, paths: Paths)
  {
    forall v :: v in paths ==> RecordOk(g, s, v, paths[v])
  }

  /** The relaxation inequality: no edge out of a reached node offers a
      shorter route to its neighbour. */
  ghost predicate Feasible(g: Graph, paths: Paths)
  {
    forall u, v ::
      u in paths && u in g && v in g[u] && paths[u].distance.Fin?
      ==> v in paths && AtMost(paths[v].distance, Fin(paths[u].distance.n + g[u][v]))
  }

  /** Every record is a shortest-path record: a node is reached exactly when
      some walk leads to it from s, and then its distance is at most the
      weight of every such walk. */
  ghost predicate Shortest(g: Graph, s: NodeId, paths: Paths)
  {
    && (forall v :: v in paths ==> (paths[v].distance.Fin? <==> Reachable(g, s, v)))
    && (forall v, p :: v in paths && paths[v].distance.Fin? && PathFromTo(g, p, s, v)
          ==> paths[v].distance.n <= PathWeight(g, p))
  }

  /** Along any walk from s, the relaxation inequality propagates the
      start node's distance 0 into a finite bound at the walk's end. */
  lemma {:induction false} FeasibleBoundsPaths(g: Graph, s: NodeId, paths: Paths, p: seq<NodeId>)
    requires paths.Keys == g.Keys
    requires Feasible(g, paths)
    requires s in paths && paths[s].distance == Fin(0)
    requires IsPath(g, p) && p[0] == s
    ensures paths[Last(p)].distance.Fin?
    ensures paths[Last(p)].distance.n <= PathWeight(g, p)
    decreases |p|
  {
    if |p| > 1 {
      var q := p[..|p| - 1];
      assert IsPath(g, q) by {
        assert forall i :: 0 <= i < |q| ==> q[i] == p[i];
      }
      FeasibleBoundsPaths(g, s, paths, q);
      assert Last(q) == p[|p| - 2];
      assert Last(p) in g[Last(q)];
    }
  }

  /** A consistent, feasible table whose source sits at distance 0 is a
      table of shortest paths. */
  lemma FeasibleIsShortest(g: Graph, s: NodeId, paths: Paths)
    requires paths.Keys == g.Keys
    requires Consistent(g, s, paths)
    requires Feasible(g, paths)
    requires s in paths && paths[s].distance == Fin(0)
    ensures Shortest(g, s, paths)
  {
    forall v | v in paths
      ensures paths[v].distance.Fin? <==> Reachable(g, s, v)
    {
      if paths[v].distance.Fin? {
        assert RecordOk(g, s, v, paths[v]);
        assert PathFromTo(g, paths[v].path, s, v);
      }
      if Reachable(g, s, v) {
        var p :| PathFromTo(g, p, s, v);
        FeasibleBoundsPaths(g, s, paths, p);
      }
    }
    forall v, p | v in paths && paths[v].distance.Fin? && PathFromTo(g, p, s, v)
      ensures paths[v].distance.n <= PathWeight(g, p)
    {
      FeasibleBoundsPaths(g, s, paths, p);
    }
  }

  /** Shortest-path distances do not depend on which of several equally
      short walks a table keeps: two consistent shortest-path tables for the
      same graph and source agree on every distance. */
  lemma ShortestDistancesUnique(g: Graph, s: NodeId, paths1: Paths, paths2: Paths)
    requires paths1.Keys == paths2.Keys
    requires Consistent(g, s, paths1) && Shortest(g, s, paths1)
    requires Consistent(g, s, paths2) && Shortest(g, s, paths2)
    ensures forall v :: v in paths1 ==> paths1[v].distance == paths2[v].distance
  {
    forall v | v in paths1
      ensures paths1[v].distance == paths2[v].distance
    {
      var d1, d2 := paths1[v].distance, paths2[v].distance;
      assert d1.Fin? <==> d2.Fin?;
      if d1.Fin? {
        assert RecordOk(g, s, v, paths1[v]) && RecordOk(g, s, v, paths2[v]);
        var p1, p2 := paths1[v].path, paths2[v].path;
        assert d2.n <= PathWeight(g, p1);
        assert d1.n <= PathWeight(g, p2);
      }
    }
  }
}
