/**
 The computation `main` performs between reading the edge table and
 printing: build the graph from the rows, then solve from the requested
 source. A source that names no node makes `dijkstra` fail on its first
 expansion; here that failure is the `None` result.
 */
module Route {
  import opened Graphs
  import opened Records
  import opened GraphBuilder
  import opened ShortestPaths

  method FindRoutes(edges: seq<Edge>, source: NodeId) returns (r: Option<Paths>)
    ensures r.None? <==> source !in Endpoints(edges)
    ensures r.Some? ==> r.value.Keys == Endpoints(edges)
    ensures r.Some? ==> r.value[source] == PathInfo(Fin(0), [source])
    ensures r.Some? ==> Consistent(BuildGraph(edges), source, r.value)
    ensures r.Some? ==> Shortest(BuildGraph(edges), source, r.value)
  {
    var g := BuildGraph(edges);
    BuildGraphSymmetric(edges);
    if source !in g {
      return None;
    }
    var paths;
    ghost var settled;
    paths, settled := Dijkstra(g, source);
    return Some(paths);
  }

  /** What the lookup of the destination in the solved table tells the
      caller: the destination is not a node (the Java code gets null here
      and fails at line 125), it kept the unreached sentinel, or it has a
      route. */
  datatype Answer = UnknownNode | Unreachable | Found(distance: nat, path: seq<NodeId>)

  function Query(paths: Paths, destination: NodeId): (a: Answer)
    ensures a.UnknownNode? <==> destination !in paths
    ensures a.Unreachable? <==> destination in paths && paths[destination].distance == Inf
    ensures a.Found? ==> destination in paths && paths[destination] == PathInfo(Fin(a.distance), a.path)
    ensures destination in paths && paths[destination].distance.Fin? ==>
              a == Found(paths[destination].distance.n, paths[destination].path)
  {
    if destination !in paths then UnknownNode
    else match paths[destination].distance
      case Inf => Unreachable
      case Fin(d) => Found(d, paths[destination].path)
  }

  /** On a solved table the three answers mean what they say: an unknown
      node is one no row names, an unreachable node is one no walk from the
      start reaches, and a found route is a walk from the start to the
      destination that no other walk beats. */
  lemma QueryMeaning(edges: seq<Edge>, source: NodeId, paths: Paths, destination: NodeId)
    requires paths.Keys == Endpoints(edges)
    requires Consistent(BuildGraph(edges), source, paths)
    requires Shortest(BuildGraph(edges), source, paths)
    ensures Query(paths, destination).UnknownNode? <==> destination !in Endpoints(edges)
    ensures Query(paths, destination).Unreachable?
            <==> destination in Endpoints(edges) && !Reachable(BuildGraph(edges), source, destination)
    ensures Query(paths, destination).Found? ==>
              && PathFromTo(BuildGraph(edges), Query(paths, destination).path, source, destination)
              && PathWeight(BuildGraph(edges), Query(paths, destination).path) == Query(paths, destination).distance
              && forall p :: PathFromTo(BuildGraph(edges), p, source, destination) ==>
                   Query(paths, destination).distance <= PathWeight(BuildGraph(edges), p)
  {
    if destination in paths {
      assert RecordOk(BuildGraph(edges), source, destination, paths[destination]);
    }
  }
}
