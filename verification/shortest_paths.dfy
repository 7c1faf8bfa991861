/**
 `dijkstra`: lazy-deletion Dijkstra over the adjacency map. Every key starts
 with a record, the frontier may hold stale entries, and a node is expanded
 only the first time it is polled.
 */
module ShortestPaths {
  import opened Graphs
  import opened Records

  /** A frontier entry, the Java code's `Node`: a node and the distance it was
      pushed with. The queue orders entries by the node's LIVE record, not
      by this stored distance. */
  datatype Node = Node(id: NodeId, distance: nat)

  /** The nodes that have at least one entry on the frontier. */
  ghost function Pending(frontier: multiset<Node>): set<NodeId>
  {
    set x | x in frontier :: x.id
  }

  /** The initial table: the start node at distance 0, every other key
      unreached, and all of them carrying the placeholder path [source]. */
  function Init(g: Graph, source: NodeId): (paths: Paths)
    ensures paths.Keys == g.Keys
    ensures Consistent(g, source, paths)
    ensures source in g ==> paths[source] == PathInfo(Fin(0), [source])
    ensures forall v :: v in paths && v != source ==> paths[v] == PathInfo(Inf, [source])
  {
    map v | v in g :: PathInfo(if v == source then Fin(0) else Inf, [source])
  }

  /** `priorityQueue.poll()`: removes and returns an entry whose node has
      the least live distance. Which of several tied entries comes out is
      left open. */
  method Poll(paths: Paths, frontier: multiset<Node>) returns (e: Node, rest: multiset<Node>)
    requires frontier != multiset{}
    requires forall x :: x in frontier ==> x.id in paths
    ensures frontier == rest + multiset{e}
    ensures forall x :: x in frontier ==> AtMost(paths[e.id].distance, paths[x.id].distance)
  {
    assert |frontier| != 0;
    e :| e in frontier;
    var todo := (set x | x in frontier) - {e};
    while todo != {}
      invariant e in frontier
      invariant forall x :: x in todo ==> x in frontier
      invariant forall x :: x in frontier && x !in todo ==> AtMost(paths[e.id].distance, paths[x.id].distance)
      decreases todo
    {
      var x :| x in todo;
      if Less(paths[x.id].distance, paths[e.id].distance) {
        e := x;
      }
      todo := todo - {x};
    }
    rest := frontier - multiset{e};
  }

  /** What relaxing every edge out of u, except those into `todo`, does to
      the table and the frontier. */
  ghost predicate RelaxedExcept(g: Graph, paths: Paths, frontier: multiset<Node>, u: NodeId,
                                todo: set<NodeId>, paths': Paths, frontier': multiset<Node>)
    requires Closed(g) && paths.Keys == g.Keys && u in g && paths[u].distance.Fin?
  {
    && todo <= g[u].Keys
    && paths'.Keys == paths.Keys
    && paths'[u] == paths[u]
    // the relaxation inequality holds for every relaxed edge out of u
    && (forall v :: v in g[u] && v !in todo ==>
          AtMost(paths'[v].distance, Fin(paths[u].distance.n + g[u][v])))
    // no distance grows
    && (forall v :: v in paths ==> AtMost(paths'[v].distance, paths[v].distance))
    // a record changes only on strict improvement through a relaxed edge
    && (forall v :: v in paths && paths'[v] != paths[v] ==>
          && v in g[u] && v !in todo
          && Less(Fin(paths[u].distance.n + g[u][v]), paths[v].distance)
          && paths'[v] == PathInfo(Fin(paths[u].distance.n + g[u][v]), paths[u].path + [v]))
    // exactly the improved nodes are pushed, once each, with their new distance
    && (forall x {:trigger frontier'[x]} :: frontier'[x] == frontier[x] +
          (if x.id in paths && paths'[x.id] != paths[x.id] && paths'[x.id].distance == Fin(x.distance)
           then 1 else 0))
  }

  ghost predicate RelaxedThrough(g: Graph, paths: Paths, frontier: multiset<Node>, u: NodeId,
                                 paths': Paths, frontier': multiset<Node>)
    requires Closed(g) && paths.Keys == g.Keys && u in g && paths[u].distance.Fin?
  {
    RelaxedExcept(g, paths, frontier, u, {}, paths', frontier')
  }

  /** The relaxation loop for an expanded node u: each neighbour v whose
      route through u is strictly shorter gets the record
      (dist[u] + w, path[u] + [v]) and is pushed once. The neighbours are
      visited in an arbitrary order. */
  method RelaxNeighbours(g: Graph, paths: Paths, frontier: multiset<Node>, u: NodeId)
    returns (paths': Paths, frontier': multiset<Node>)
    requires Closed(g)
    requires paths.Keys == g.Keys
    requires u in g && paths[u].distance.Fin?
    ensures RelaxedThrough(g, paths, frontier, u, paths', frontier')
  {
    paths' := paths;
    frontier' := frontier;
    var todo := g[u].Keys;
    while todo != {}
      invariant RelaxedExcept(g, paths, frontier, u, todo, paths', frontier')
      decreases todo
    {
      var v :| v in todo;
      RelaxEdgeKeeps(g, paths, frontier, u, todo, paths', frontier', v);
      var relaxed := RelaxEdge(paths', frontier', u, v, g[u][v]);
      paths', frontier' := relaxed.0, relaxed.1;
      todo := todo - {v};
    }
  }

  /** The body of the relaxation loop for one neighbour v of u at weight w:
      if the route through u is strictly shorter, v's record is replaced by
      (dist[u] + w, path[u] + [v]) and v is pushed. */
  function RelaxEdge(paths: Paths, frontier: multiset<Node>, u: NodeId, v: NodeId, w: Weight)
    : (r: (Paths, multiset<Node>))
    requires u in paths && v in paths && paths[u].distance.Fin?
    ensures r.0.Keys == paths.Keys
    ensures forall x :: x in paths && x != v ==> r.0[x] == paths[x]
    // afterwards the edge u -> v cannot improve v, and v's distance never grew
    ensures AtMost(r.0[v].distance, Fin(paths[u].distance.n + w))
    ensures AtMost(r.0[v].distance, paths[v].distance)
    // strict improvement: v takes the route through u and is pushed once
    ensures Less(Fin(paths[u].distance.n + w), paths[v].distance) ==>
              && r.0[v] == PathInfo(Fin(paths[u].distance.n + w), paths[u].path + [v])
              && r.1 == frontier + multiset{Node(v, paths[u].distance.n + w)}
    // otherwise nothing changes
    ensures !Less(Fin(paths[u].distance.n + w), paths[v].distance) ==>
              r.0[v] == paths[v] && r.1 == frontier
  {
    var newDistance := paths[u].distance.n + w;
    if Less(Fin(newDistance), paths[v].distance) then
      (paths[v := PathInfo(Fin(newDistance), paths[u].path + [v])],
       frontier + multiset{Node(v, newDistance)})
    else
      (paths, frontier)
  }

  /** Relaxing one more edge out of u extends what has been relaxed. */
  lemma RelaxEdgeKeeps(g: Graph, paths: Paths, frontier: multiset<Node>, u: NodeId, todo: set<NodeId>,
                       paths': Paths, frontier': multiset<Node>, v: NodeId)
    requires Closed(g) && paths.Keys == g.Keys && u in g && paths[u].distance.Fin?
    requires RelaxedExcept(g, paths, frontier, u, todo, paths', frontier')
    requires v in todo
    ensures v in paths' && u in paths' && paths'[u].distance.Fin?
    ensures var (paths'', frontier'') := RelaxEdge(paths', frontier', u, v, g[u][v]);
            RelaxedExcept(g, paths, frontier, u, todo - {v}, paths'', frontier'')
  {
    var newDistance := paths[u].distance.n + g[u][v];
    // v has not been relaxed yet, so its record is still the initial one
    assert paths'[v] == paths[v];
    if Less(Fin(newDistance), paths[v].distance) {
      var paths'' := paths'[v := PathInfo(Fin(newDistance), paths[u].path + [v])];
      var frontier'' := frontier' + multiset{Node(v, newDistance)};
      assert RelaxEdge(paths', frontier', u, v, g[u][v]) == (paths'', frontier'');
      RelaxImproving(g, paths, frontier, u, todo, paths', frontier', v, paths'', frontier'');
    } else {
      assert RelaxEdge(paths', frontier', u, v, g[u][v]) == (paths', frontier');
      assert RelaxedExcept(g, paths, frontier, u, todo - {v}, paths', frontier');
    }
  }

  /** The improving case: v gets the route through u and is pushed once. */
  lemma RelaxImproving(g: Graph, paths: Paths, frontier: multiset<Node>, u: NodeId, todo: set<NodeId>,
                       paths': Paths, frontier': multiset<Node>, v: NodeId,
                       paths'': Paths, frontier'': multiset<Node>)
    requires Closed(g) && paths.Keys == g.Keys && u in g && paths[u].distance.Fin?
    requires RelaxedExcept(g, paths, frontier, u, todo, paths', frontier')
    requires v in todo && paths'[v] == paths[v]
    requires Less(Fin(paths[u].distance.n + g[u][v]), paths[v].distance)
    requires paths'' == paths'[v := PathInfo(Fin(paths[u].distance.n + g[u][v]), paths[u].path + [v])]
    requires frontier'' == frontier' + multiset{Node(v, paths[u].distance.n + g[u][v])}
    ensures RelaxedExcept(g, paths, frontier, u, todo - {v}, paths'', frontier'')
  {
    var info := PathInfo(Fin(paths[u].distance.n + g[u][v]), paths[u].path + [v]);
    assert u != v;
    PushCounts(paths, frontier, paths', frontier', v, info, paths'', frontier'');
    ImproveTable(g, paths, u, todo, paths', v, paths'');
  }

  /** The table half of one improvement: v's new record keeps the relaxed
      edges relaxed, changes only v, and grows nothing. */
  lemma ImproveTable(g: Graph, paths: Paths, u: NodeId, todo: set<NodeId>, paths': Paths, v: NodeId,
                     paths'': Paths)
    requires Closed(g) && paths.Keys == g.Keys && u in g && paths[u].distance.Fin?
    requires todo <= g[u].Keys && paths'.Keys == paths.Keys
    requires forall y :: y in g[u] && y !in todo ==>
               AtMost(paths'[y].distance, Fin(paths[u].distance.n + g[u][y]))
    requires forall y :: y in paths ==> AtMost(paths'[y].distance, paths[y].distance)
    requires forall y :: y in paths && paths'[y] != paths[y] ==>
               && y in g[u] && y !in todo
               && Less(Fin(paths[u].distance.n + g[u][y]), paths[y].distance)
               && paths'[y] == PathInfo(Fin(paths[u].distance.n + g[u][y]), paths[u].path + [y])
    requires v in todo && paths'[v] == paths[v]
    requires Less(Fin(paths[u].distance.n + g[u][v]), paths[v].distance)
    requires paths'' == paths'[v := PathInfo(Fin(paths[u].distance.n + g[u][v]), paths[u].path + [v])]
    ensures forall y :: y in g[u] && y !in todo - {v} ==>
              AtMost(paths''[y].distance, Fin(paths[u].distance.n + g[u][y]))
    ensures forall y :: y in paths ==> AtMost(paths''[y].distance, paths[y].distance)
    ensures forall y :: y in paths && paths''[y] != paths[y] ==>
              && y in g[u] && y !in todo - {v}
              && Less(Fin(paths[u].distance.n + g[u][y]), paths[y].distance)
              && paths''[y] == PathInfo(Fin(paths[u].distance.n + g[u][y]), paths[u].path + [y])
  {
    var du := paths[u].distance.n;
    forall y | y in g[u] && y !in todo - {v}
      ensures AtMost(paths''[y].distance, Fin(du + g[u][y]))
    {
      if y != v {
        assert paths''[y] == paths'[y];
      }
    }
    forall y | y in paths && paths''[y] != paths[y]
      ensures && y in g[u] && y !in todo - {v}
              && Less(Fin(du + g[u][y]), paths[y].distance)
              && paths''[y] == PathInfo(Fin(du + g[u][y]), paths[u].path + [y])
    {
      if y != v {
        assert paths''[y] == paths'[y];
      }
    }
    forall y | y in paths
      ensures AtMost(paths''[y].distance, paths[y].distance)
    {
      if y != v {
        assert paths''[y] == paths'[y];
      }
    }
  }

  /** The frontier half of one improvement: pushing v with its new distance
      keeps "exactly the improved nodes are pushed once". */
  lemma PushCounts(paths: Paths, frontier: multiset<Node>, paths': Paths, frontier': multiset<Node>,
                   v: NodeId, info: PathInfo, paths'': Paths, frontier'': multiset<Node>)
    requires paths'.Keys == paths.Keys
    requires v in paths && paths'[v] == paths[v] && info != paths[v] && info.distance.Fin?
    requires forall x {:trigger frontier'[x]} :: frontier'[x] == frontier[x] +
               (if x.id in paths && paths'[x.id] != paths[x.id] && paths'[x.id].distance == Fin(x.distance)
                then 1 else 0)
    requires paths'' == paths'[v := info]
    requires frontier'' == frontier' + multiset{Node(v, info.distance.n)}
    ensures forall x {:trigger frontier''[x]} :: frontier''[x] == frontier[x] +
              (if x.id in paths && paths''[x.id] != paths[x.id] && paths''[x.id].distance == Fin(x.distance)
               then 1 else 0)
  {
    forall x {:trigger frontier''[x]}
      ensures frontier''[x] == frontier[x] +
        (if x.id in paths && paths''[x.id] != paths[x.id] && paths''[x.id].distance == Fin(x.distance)
         then 1 else 0)
    {
      assert frontier''[x] == frontier'[x] + (if x == Node(v, info.distance.n) then 1 else 0);
    }
  }

  /** The record table: one record per key, the start node's record fixed at
      (0, [source]), and every record consistent. */
  ghost predicate TableOk(g: Graph, source: NodeId, paths: Paths)
  {
    && Closed(g)
    && source in g
    && paths.Keys == g.Keys
    && paths[source] == PathInfo(Fin(0), [source])
    && Consistent(g, source, paths)
  }

  /** Every frontier entry names a reached key with a stored distance never
      below the live one (stale entries overestimate), and every reached
      node not yet expanded waits on the frontier. */
  ghost predicate FrontierOk(g: Graph, paths: Paths, visited: set<NodeId>, frontier: multiset<Node>)
  {
    && paths.Keys == g.Keys
    && (forall x :: x in frontier ==>
          x.id in g && paths[x.id].distance.Fin? && paths[x.id].distance.n <= x.distance)
    && (forall v :: v in g && v !in visited && paths[v].distance.Fin? ==> v in Pending(frontier))
  }

  /** Expanded nodes are reached, no farther than any unexpanded node, and
      satisfy the relaxation inequality on every edge out of them. */
  ghost predicate ExpandedOk(g: Graph, paths: Paths, visited: set<NodeId>)
  {
    && Closed(g)
    && paths.Keys == g.Keys
    && visited <= g.Keys
    && (forall x :: x in visited ==> paths[x].distance.Fin?)
    && (forall x, y :: x in visited && y in g && y !in visited ==>
          AtMost(paths[x].distance, paths[y].distance))
    && (forall x, y :: x in visited && y in g[x] ==>
          AtMost(paths[y].distance, Fin(paths[x].distance.n + g[x][y])))
  }

  /** `settled` lists the expanded nodes, each once, in non-decreasing
      distance. */
  ghost predicate OrderOk(paths: Paths, visited: set<NodeId>, settled: seq<NodeId>)
  {
    && visited <= paths.Keys
    && (forall v :: v in settled <==> v in visited)
    && (forall i, j :: 0 <= i < j < |settled| ==> settled[i] != settled[j])
    && (forall i, j :: 0 <= i < j < |settled| ==>
          AtMost(paths[settled[i]].distance, paths[settled[j]].distance))
  }

  /** The state the main loop keeps, with `visited` the expanded nodes and
      `settled` the order in which they were expanded. */
  ghost predicate SolverInvariant(g: Graph, source: NodeId, paths: Paths, visited: set<NodeId>,
                                  frontier: multiset<Node>, settled: seq<NodeId>)
  {
    && TableOk(g, source, paths)
    && FrontierOk(g, paths, visited, frontier)
    && ExpandedOk(g, paths, visited)
    && OrderOk(paths, visited, settled)
  }

  lemma InitEstablishes(g: Graph, source: NodeId)
    requires source in g && Closed(g)
    ensures SolverInvariant(g, source, Init(g, source), {}, multiset{Node(source, 0)}, [])
  {
    var paths := Init(g, source);
    forall v | v in g && paths[v].distance.Fin?
      ensures v in Pending(multiset{Node(source, 0)})
    {
      assert v == source;
      assert Node(source, 0) in multiset{Node(source, 0)};
    }
  }

  /** Polling an entry whose node was already expanded only shrinks the
      frontier. */
  lemma SkipStalePreserves(g: Graph, source: NodeId, paths: Paths, visited: set<NodeId>,
                           frontier: multiset<Node>, settled: seq<NodeId>, e: Node, rest: multiset<Node>)
    requires SolverInvariant(g, source, paths, visited, frontier, settled)
    requires frontier == rest + multiset{e}
    requires e.id in visited
    ensures SolverInvariant(g, source, paths, visited, rest, settled)
  {
    forall v | v in g && v !in visited && paths[v].distance.Fin?
      ensures v in Pending(rest)
    {
      var x :| x in frontier && x.id == v;
      assert x != e && x in rest;
    }
  }

  /** The polled node of least live distance is no farther than any
      unexpanded node, reached or not. */
  lemma PolledIsNearest(g: Graph, paths: Paths, visited: set<NodeId>, frontier: multiset<Node>, e: Node)
    requires FrontierOk(g, paths, visited, frontier)
    requires e in frontier
    requires forall x :: x in frontier ==> AtMost(paths[e.id].distance, paths[x.id].distance)
    ensures forall y :: y in g && y !in visited ==> AtMost(paths[e.id].distance, paths[y].distance)
  {
    forall y | y in g && y !in visited
      ensures AtMost(paths[e.id].distance, paths[y].distance)
    {
      if paths[y].distance.Fin? {
        var x :| x in frontier && x.id == y;
      }
    }
  }

  /** Expanding u, the nearest unexpanded node, leaves every expanded record
      (and so the start node's) as it was: no route through u can be strictly
      shorter. */
  lemma ExpandedRecordsFrozen(g: Graph, paths: Paths, visited: set<NodeId>, u: NodeId,
                              paths': Paths, frontier: multiset<Node>, frontier': multiset<Node>)
    requires ExpandedOk(g, paths, visited)
    requires u in g && u !in visited && paths[u].distance.Fin?
    requires RelaxedThrough(g, paths, frontier, u, paths', frontier')
    ensures forall x :: x in visited ==> paths'[x] == paths[x]
  {
    forall x | x in visited
      ensures paths'[x] == paths[x]
    {
      assert AtMost(paths[x].distance, paths[u].distance);
    }
  }

  lemma ExpandKeepsTable(g: Graph, source: NodeId, paths: Paths, u: NodeId,
                         paths': Paths, frontier: multiset<Node>, frontier': multiset<Node>)
    requires TableOk(g, source, paths)
    requires u in g && paths[u].distance.Fin?
    requires RelaxedThrough(g, paths, frontier, u, paths', frontier')
    ensures TableOk(g, source, paths')
  {
    assert paths'[source] == paths[source] by {
      assert paths[source].distance == Fin(0);
    }
    forall v | v in paths'
      ensures RecordOk(g, source, v, paths'[v])
    {
      if paths'[v] != paths[v] {
        assert RecordOk(g, source, u, paths[u]);
        ExtendPath(g, paths[u].path, v);
      } else {
        assert RecordOk(g, source, v, paths[v]);
      }
    }
  }

  lemma ExpandKeepsFrontier(g: Graph, paths: Paths, visited: set<NodeId>, frontier: multiset<Node>,
                            e: Node, rest: multiset<Node>, paths': Paths, frontier': multiset<Node>)
    requires Closed(g)
    requires FrontierOk(g, paths, visited, frontier)
    requires frontier == rest + multiset{e}
    requires e.id in g && paths[e.id].distance.Fin?
    requires RelaxedThrough(g, paths, rest, e.id, paths', frontier')
    ensures FrontierOk(g, paths', visited + {e.id}, frontier')
  {
    forall x | x in frontier'
      ensures x.id in g && paths'[x.id].distance.Fin? && paths'[x.id].distance.n <= x.distance
    {
      if x !in rest {
        assert frontier'[x] == rest[x] + 1;
      } else {
        assert x in frontier;
        assert AtMost(paths'[x.id].distance, paths[x.id].distance);
      }
    }
    forall v | v in g && v !in visited + {e.id} && paths'[v].distance.Fin?
      ensures v in Pending(frontier')
    {
      if paths'[v] != paths[v] {
        var x := Node(v, paths'[v].distance.n);
        assert frontier'[x] == rest[x] + 1;
      } else {
        var x :| x in frontier && x.id == v;
        assert x != e && x in rest;
        assert frontier'[x] >= rest[x];
      }
    }
  }

  lemma ExpandKeepsExpanded(g: Graph, paths: Paths, visited: set<NodeId>, u: NodeId,
                            paths': Paths, frontier: multiset<Node>, frontier': multiset<Node>)
    requires ExpandedOk(g, paths, visited)
    requires u in g && u !in visited && paths[u].distance.Fin?
    requires forall y :: y in g && y !in visited ==> AtMost(paths[u].distance, paths[y].distance)
    requires RelaxedThrough(g, paths, frontier, u, paths', frontier')
    ensures ExpandedOk(g, paths', visited + {u})
  {
    ExpandedRecordsFrozen(g, paths, visited, u, paths', frontier, frontier');
    RelaxedNotBelow(g, paths, frontier, u, paths', frontier');
    ExpandKeepsNearest(g, paths, visited, u, paths');
    ExpandKeepsRelaxed(g, paths, visited, u, paths', frontier, frontier');
  }

  /** Relaxing through u never brings a record below u's own distance. */
  lemma RelaxedNotBelow(g: Graph, paths: Paths, frontier: multiset<Node>, u: NodeId,
                        paths': Paths, frontier': multiset<Node>)
    requires Closed(g) && paths.Keys == g.Keys && u in g && paths[u].distance.Fin?
    requires RelaxedThrough(g, paths, frontier, u, paths', frontier')
    ensures forall y :: y in paths ==> paths'[y] == paths[y] || AtMost(paths[u].distance, paths'[y].distance)
  {
  }

  /** After expanding the nearest unexpanded node u, every expanded node is
      still no farther than every unexpanded one. */
  lemma ExpandKeepsNearest(g: Graph, paths: Paths, visited: set<NodeId>, u: NodeId, paths': Paths)
    requires paths.Keys == g.Keys && paths'.Keys == paths.Keys
    requires visited <= g.Keys && u in g && u !in visited && paths'[u] == paths[u]
    requires forall x, y :: x in visited && y in g && y !in visited ==>
               AtMost(paths[x].distance, paths[y].distance)
    requires forall y :: y in g && y !in visited ==> AtMost(paths[u].distance, paths[y].distance)
    requires forall x :: x in visited ==> paths'[x] == paths[x]
    requires forall y :: y in paths ==> paths'[y] == paths[y] || AtMost(paths[u].distance, paths'[y].distance)
    ensures forall x, y :: x in visited + {u} && y in g && y !in visited + {u} ==>
              AtMost(paths'[x].distance, paths'[y].distance)
  {
    forall x, y | x in visited + {u} && y in g && y !in visited + {u}
      ensures AtMost(paths'[x].distance, paths'[y].distance)
    {
      assert paths'[x] == paths[x];
      assert AtMost(paths[x].distance, paths[u].distance);
      assert AtMost(paths[u].distance, paths'[y].distance);
      AtMostTransitive(paths[x].distance, paths[u].distance, paths'[y].distance);
    }
  }

  /** After expanding u, the relaxation inequality holds on every edge out
      of every expanded node, u included. */
  lemma ExpandKeepsRelaxed(g: Graph, paths: Paths, visited: set<NodeId>, u: NodeId,
                           paths': Paths, frontier: multiset<Node>, frontier': multiset<Node>)
    requires ExpandedOk(g, paths, visited)
    requires u in g && u !in visited && paths[u].distance.Fin?
    requires RelaxedThrough(g, paths, frontier, u, paths', frontier')
    requires forall x :: x in visited ==> paths'[x] == paths[x]
    ensures forall x, y :: x in visited + {u} && y in g[x] ==>
              AtMost(paths'[y].distance, Fin(paths'[x].distance.n + g[x][y]))
  {
    forall x, y | x in visited + {u} && y in g[x]
      ensures AtMost(paths'[y].distance, Fin(paths'[x].distance.n + g[x][y]))
    {
      assert paths'[x] == paths[x];
      if x != u {
        assert AtMost(paths'[y].distance, paths[y].distance);
      }
    }
  }

  lemma ExpandKeepsOrder(g: Graph, paths: Paths, visited: set<NodeId>, settled: seq<NodeId>, u: NodeId,
                         paths': Paths, frontier: multiset<Node>, frontier': multiset<Node>)
    requires OrderOk(paths, visited, settled)
    requires ExpandedOk(g, paths, visited)
    requires u in g && u !in visited && paths[u].distance.Fin?
    requires RelaxedThrough(g, paths, frontier, u, paths', frontier')
    ensures OrderOk(paths', visited + {u}, settled + [u])
  {
    ExpandedRecordsFrozen(g, paths, visited, u, paths', frontier, frontier');
    var settled' := settled + [u];
    forall i, j | 0 <= i < j < |settled'|
      ensures AtMost(paths'[settled'[i]].distance, paths'[settled'[j]].distance)
    {
      if j < |settled| {
        assert settled'[i] == settled[i] && settled'[j] == settled[j];
      } else {
        assert settled'[i] in visited;
        assert AtMost(paths[settled'[i]].distance, paths[u].distance);
      }
    }
    assert forall v :: v in settled' <==> v in visited + {u};
  }

  /** Expanding the polled node keeps the loop's state. */
  lemma ExpandPreserves(g: Graph, source: NodeId, paths: Paths, visited: set<NodeId>,
                        frontier: multiset<Node>, settled: seq<NodeId>, e: Node, rest: multiset<Node>,
                        paths': Paths, frontier': multiset<Node>)
    requires SolverInvariant(g, source, paths, visited, frontier, settled)
    requires frontier == rest + multiset{e}
    requires forall x :: x in frontier ==> AtMost(paths[e.id].distance, paths[x.id].distance)
    requires e.id !in visited
    requires e.id in g && paths[e.id].distance.Fin?
    requires RelaxedThrough(g, paths, rest, e.id, paths', frontier')
    ensures SolverInvariant(g, source, paths', visited + {e.id}, frontier', settled + [e.id])
  {
    PolledIsNearest(g, paths, visited, frontier, e);
    ExpandKeepsTable(g, source, paths, e.id, paths', rest, frontier');
    ExpandKeepsFrontier(g, paths, visited, frontier, e, rest, paths', frontier');
    ExpandKeepsExpanded(g, paths, visited, e.id, paths', rest, frontier');
    ExpandKeepsOrder(g, paths, visited, settled, e.id, paths', rest, frontier');
  }

  /** Once the frontier is empty the reached nodes are exactly the expanded
      ones, so the relaxation inequality holds on every edge, the table is
      a shortest-path table, and `settled` lists every reached node. */
  lemma EmptyFrontierFinal(g: Graph, source: NodeId, paths: Paths, visited: set<NodeId>,
                           settled: seq<NodeId>)
    requires SolverInvariant(g, source, paths, visited, multiset{}, settled)
    ensures Feasible(g, paths)
    ensures Shortest(g, source, paths)
    ensures forall v :: v in settled <==> v in paths && paths[v].distance.Fin?
  {
    assert Pending(multiset{}) == {};
    assert forall v :: v in paths ==> (v in visited <==> paths[v].distance.Fin?);
    FeasibleIsShortest(g, source, paths);
  }

  lemma ExpandingShrinksUnexpanded(keys: set<NodeId>, visited: set<NodeId>, u: NodeId)
    requires u in keys && u !in visited
    ensures |keys - (visited + {u})| < |keys - visited|
  {
    assert keys - (visited + {u}) == (keys - visited) - {u};
  }

  /** The loop's state after one iteration, whichever branch it took. */
  lemma StepPreserves(g: Graph, source: NodeId, paths: Paths, visited: set<NodeId>,
                      frontier: multiset<Node>, settled: seq<NodeId>, e: Node, rest: multiset<Node>,
                      paths': Paths, visited': set<NodeId>, frontier': multiset<Node>, settled': seq<NodeId>)
    requires SolverInvariant(g, source, paths, visited, frontier, settled)
    requires frontier == rest + multiset{e}
    requires forall x :: x in frontier ==> AtMost(paths[e.id].distance, paths[x.id].distance)
    requires e.id in visited ==>
               paths' == paths && visited' == visited && frontier' == rest && settled' == settled
    requires e.id !in visited ==>
               && e.id in g && paths[e.id].distance.Fin?
               && RelaxedThrough(g, paths, rest, e.id, paths', frontier')
               && visited' == visited + {e.id} && settled' == settled + [e.id]
    ensures SolverInvariant(g, source, paths', visited', frontier', settled')
    ensures visited <= visited' <= g.Keys
    ensures |g.Keys - visited'| < |g.Keys - visited|
            || (visited' == visited && |frontier'| < |frontier|)
  {
    if e.id in visited {
      SkipStalePreserves(g, source, paths, visited, frontier, settled, e, rest);
    } else {
      ExpandPreserves(g, source, paths, visited, frontier, settled, e, rest, paths', frontier');
      ExpandingShrinksUnexpanded(g.Keys, visited, e.id);
    }
  }

  /** One iteration of the main loop: poll an entry e nearest by live
      distance. If its node was already expanded, drop the entry and change
      nothing else; otherwise mark the node expanded, append it to the
      expansion order and relax its edges. Either fewer nodes remain
      unexpanded, or as many remain and the frontier shrank. */
  method Step(g: Graph, source: NodeId, paths: Paths, visited: set<NodeId>, frontier: multiset<Node>,
              ghost settled: seq<NodeId>)
    returns (e: Node, paths': Paths, visited': set<NodeId>, frontier': multiset<Node>,
             ghost settled': seq<NodeId>)
    requires SolverInvariant(g, source, paths, visited, frontier, settled)
    requires frontier != multiset{}
    ensures e in frontier && e.id in paths
    ensures forall x :: x in frontier ==> AtMost(paths[e.id].distance, paths[x.id].distance)
    // a stale entry: skipped, nothing but the queue changes
    ensures e.id in visited ==>
              && paths' == paths && visited' == visited && settled' == settled
              && frontier' == frontier - multiset{e}
    // a fresh node: expanded exactly once, through its finite record
    ensures e.id !in visited ==>
              && e.id in g && paths[e.id].distance.Fin?
              && visited' == visited + {e.id} && settled' == settled + [e.id]
              && RelaxedThrough(g, paths, frontier - multiset{e}, e.id, paths', frontier')
    ensures SolverInvariant(g, source, paths', visited', frontier', settled')
    ensures visited <= visited' <= g.Keys
    ensures |g.Keys - visited'| < |g.Keys - visited|
            || (visited' == visited && |frontier'| < |frontier|)
  {
    var rest;
    e, rest := Poll(paths, frontier);
    assert rest == frontier - multiset{e};
    var u := e.id;
    if u in visited {
      paths', visited', frontier', settled' := paths, visited, rest, settled;
    } else {
      paths', frontier' := RelaxNeighbours(g, paths, rest, u);
      visited' := visited + {u};
      settled' := settled + [u];
    }
    StepPreserves(g, source, paths, visited, frontier, settled, e, rest,
                  paths', visited', frontier', settled');
  }

  /** The solver. Every key of the graph ends with a record; a node is
      reached exactly when some walk leads to it, and then its record holds
      a shortest such walk and its weight. */
  method Dijkstra(g: Graph, source: NodeId) returns (paths: Paths, ghost settled: seq<NodeId>)
    requires source in g
    requires Closed(g)
    ensures paths.Keys == g.Keys
    ensures paths[source] == PathInfo(Fin(0), [source])
    ensures Consistent(g, source, paths)
    ensures Feasible(g, paths)
    ensures Shortest(g, source, paths)
    // `settled` lists the expanded nodes in expansion order: each node at
    // most once, every reached node, and in non-decreasing distance
    ensures forall i, j :: 0 <= i < j < |settled| ==> settled[i] != settled[j]
    ensures forall v :: v in settled <==> v in paths && paths[v].distance.Fin?
    ensures forall i, j :: 0 <= i < j < |settled| ==>
              AtMost(paths[settled[i]].distance, paths[settled[j]].distance)
  {
    paths := Init(g, source);
    var visited: set<NodeId> := {};
    var frontier := multiset{Node(source, 0)};
    settled := [];
    InitEstablishes(g, source);
    while frontier != multiset{}
      invariant SolverInvariant(g, source, paths, visited, frontier, settled)
      decreases |g.Keys - visited|, |frontier|
    {
      var e;
      e, paths, visited, frontier, settled := Step(g, source, paths, visited, frontier, settled);
    }
    EmptyFrontierFinal(g, source, paths, visited, settled);
  }
}
