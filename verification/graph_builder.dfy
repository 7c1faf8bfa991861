/**
 `buildGraph`: turns the flat list of (source, destination, weight) rows
 into the undirected adjacency map, one row at a time.
 */
module GraphBuilder {
  import opened Graphs

  /** One row of the edge table. */
  datatype Edge = Edge(source: NodeId, destination: NodeId, weight: Weight)

  /** True when e joins a and b, in either direction. */
  predicate Connects(e: Edge, a: NodeId, b: NodeId)
  {
    (e.source == a && e.destination == b) || (e.source == b && e.destination == a)
  }

  /** Every node named by some edge. */
  function Endpoints(edges: seq<Edge>): (nodes: set<NodeId>)
  {
    (set e | e in edges :: e.source) + (set e | e in edges :: e.destination)
  }

  /** `graph.computeIfAbsent(a, k -> new HashMap<>()).put(b, w)`: the entry
      a -> b becomes w, a's neighbour map is created if a is new, and no
      other entry changes. */
  function Put(g: Graph, a: NodeId, b: NodeId, w: Weight): (r: Graph)
    ensures r.Keys == g.Keys + {a}
    ensures Lookup(r, a, b) == Some(w)
    ensures forall x, y {:trigger Lookup(r, x, y)} :: (x, y) != (a, b) ==> Lookup(r, x, y) == Lookup(g, x, y)
  {
    var row := if a in g then g[a] else map[];
    g[a := row[b := w]]
  }

  /** The loop body of `buildGraph`: insert the edge in both directions. */
  function AddEdge(g: Graph, e: Edge): (r: Graph)
    ensures r.Keys == g.Keys + {e.source, e.destination}
    ensures Lookup(r, e.source, e.destination) == Some(e.weight)
    ensures Lookup(r, e.destination, e.source) == Some(e.weight)
    ensures forall x, y {:trigger Lookup(r, x, y)} :: !Connects(e, x, y) ==> Lookup(r, x, y) == Lookup(g, x, y)
  {
    Put(Put(g, e.source, e.destination, e.weight), e.destination, e.source, e.weight)
  }

  /** Inserting both directions keeps an undirected graph undirected. */
  lemma AddEdgeKeepsSymmetric(g: Graph, e: Edge)
    requires Symmetric(g)
    ensures Symmetric(AddEdge(g, e))
  {
    var r := AddEdge(g, e);
    forall a, b
      ensures Lookup(r, a, b) == Lookup(r, b, a)
    {
      if !Connects(e, a, b) {
        assert !Connects(e, b, a);
        assert Lookup(g, a, b) == Lookup(g, b, a);
      }
    }
  }

  /** The whole builder: the edges are inserted in order into an initially
      empty map. Its nodes are exactly the edges' endpoints (so no edges give
      the empty map), and the last row inserted holds in both directions. */
  function BuildGraph(edges: seq<Edge>): (r: Graph)
    ensures r.Keys == Endpoints(edges)
    ensures edges != [] ==>
              && Lookup(r, edges[|edges| - 1].source, edges[|edges| - 1].destination) == Some(edges[|edges| - 1].weight)
              && Lookup(r, edges[|edges| - 1].destination, edges[|edges| - 1].source) == Some(edges[|edges| - 1].weight)
    decreases |edges|
  {
    if edges == [] then map[]
    else
      EndpointsSnoc(edges);
      AddEdge(BuildGraph(edges[..|edges| - 1]), edges[|edges| - 1])
  }

  lemma EndpointsSnoc(edges: seq<Edge>)
    requires edges != []
    ensures Endpoints(edges)
            == Endpoints(edges[..|edges| - 1]) + {edges[|edges| - 1].source, edges[|edges| - 1].destination}
  {
    var prefix, e := edges[..|edges| - 1], edges[|edges| - 1];
    assert edges == prefix + [e];
    assert forall x :: x in edges <==> x in prefix || x == e;
  }

  /** The built graph is undirected, and therefore every neighbour is itself
      a key, which the solver needs when it reads a neighbour's record. */
  lemma {:induction false} BuildGraphSymmetric(edges: seq<Edge>)
    ensures Symmetric(BuildGraph(edges))
    ensures Closed(BuildGraph(edges))
    decreases |edges|
  {
    if edges != [] {
      BuildGraphSymmetric(edges[..|edges| - 1]);
      AddEdgeKeepsSymmetric(BuildGraph(edges[..|edges| - 1]), edges[|edges| - 1]);
    }
    SymmetricIsClosed(BuildGraph(edges));
  }

  /** Unfolds BuildGraph by one edge. */
  lemma BuildGraphSnoc(edges: seq<Edge>, a: NodeId, b: NodeId)
    requires edges != []
    ensures Connects(edges[|edges| - 1], a, b)
            ==> Lookup(BuildGraph(edges), a, b) == Some(edges[|edges| - 1].weight)
    ensures !Connects(edges[|edges| - 1], a, b)
            ==> Lookup(BuildGraph(edges), a, b) == Lookup(BuildGraph(edges[..|edges| - 1]), a, b)
  {
    var e := edges[|edges| - 1];
    var r := AddEdge(BuildGraph(edges[..|edges| - 1]), e);
    assert BuildGraph(edges) == r;
    if Connects(e, a, b) {
      if e.source == a && e.destination == b {
        assert Lookup(r, a, b) == Some(e.weight);
      } else {
        assert Lookup(r, e.destination, e.source) == Some(e.weight);
      }
    }
  }

  /** An entry of the built graph always comes from some edge. */
  lemma {:induction false} EntryComesFromEdge(edges: seq<Edge>, a: NodeId, b: NodeId) returns (i: nat)
    requires Lookup(BuildGraph(edges), a, b).Some?
    ensures i < |edges| && Connects(edges[i], a, b)
    decreases |edges|
  {
    var n := |edges| - 1;
    BuildGraphSnoc(edges, a, b);
    if Connects(edges[n], a, b) {
      i := n;
    } else {
      i := EntryComesFromEdge(edges[..n], a, b);
    }
  }

  /** Every edge leaves an entry in the built graph, in both directions. */
  lemma {:induction false} EdgeGivesEntry(edges: seq<Edge>, i: nat, a: NodeId, b: NodeId)
    requires i < |edges| && Connects(edges[i], a, b)
    ensures Lookup(BuildGraph(edges), a, b).Some?
    decreases |edges|
  {
    var n := |edges| - 1;
    if Connects(edges[n], a, b) {
      BuildGraphSnoc(edges, a, b);
    } else {
      var prefix := edges[..n];
      assert i < n && prefix[i] == edges[i];
      EdgeGivesEntry(prefix, i, a, b);
      BuildGraphSnoc(edges, a, b);
    }
  }

  /** Rows that never join a node to itself build a graph without loops. */
  lemma BuildGraphNoLoops(edges: seq<Edge>)
    requires forall i :: 0 <= i < |edges| ==> edges[i].source != edges[i].destination
    ensures forall a :: a in BuildGraph(edges) ==> a !in BuildGraph(edges)[a]
  {
    forall a | a in BuildGraph(edges) && a in BuildGraph(edges)[a]
      ensures false
    {
      assert Lookup(BuildGraph(edges), a, a).Some?;
      var i := EntryComesFromEdge(edges, a, a);
    }
  }

  /** The built graph holds an entry a -> b exactly when some edge joins a
      and b. */
  lemma BuildGraphHasEntry(edges: seq<Edge>, a: NodeId, b: NodeId)
    ensures Lookup(BuildGraph(edges), a, b).Some?
            <==> exists i :: 0 <= i < |edges| && Connects(edges[i], a, b)
  {
    if Lookup(BuildGraph(edges), a, b).Some? {
      var i := EntryComesFromEdge(edges, a, b);
    }
    if i :| 0 <= i < |edges| && Connects(edges[i], a, b) {
      EdgeGivesEntry(edges, i, a, b);
    }
  }

  /** Last write wins: the weight of the entry a -> b is that of the LAST
      edge joining a and b. */
  lemma {:induction false} BuildGraphLastWriteWins(edges: seq<Edge>, i: nat, a: NodeId, b: NodeId)
    requires i < |edges| && Connects(edges[i], a, b)
    requires forall j :: i < j < |edges| ==> !Connects(edges[j], a, b)
    ensures Lookup(BuildGraph(edges), a, b) == Some(edges[i].weight)
    decreases |edges|
  {
    var n := |edges| - 1;
    if i < n {
      var prefix := edges[..n];
      assert !Connects(edges[n], a, b);
      assert prefix[i] == edges[i];
      assert forall j :: i < j < n ==> prefix[j] == edges[j];
      BuildGraphLastWriteWins(prefix, i, a, b);
      BuildGraphSnoc(edges, a, b);
      assert Lookup(BuildGraph(edges), a, b) == Lookup(BuildGraph(prefix), a, b);
      assert Lookup(BuildGraph(edges), a, b) == Some(edges[i].weight);
    } else {
      assert i == n;
      BuildGraphSnoc(edges, a, b);
    }
  }

  /** Two graphs with the same keys and the same entries are the same map. */
  lemma GraphEquality(g: Graph, h: Graph)
    requires g.Keys == h.Keys
    requires forall a, b :: Lookup(g, a, b) == Lookup(h, a, b)
    ensures g == h
  {
    forall a | a in g
      ensures g[a] == h[a]
    {
      forall b
        ensures b in g[a] <==> b in h[a]
        ensures b in g[a] ==> g[a][b] == h[a][b]
      {
        assert Lookup(g, a, b) == Lookup(h, a, b);
      }
    }
  }

  /** Inserting an edge and then one joining the same two nodes is the same
      as inserting only the second. */
  lemma AddEdgeOverwrites(g: Graph, first: Edge, second: Edge)
    requires Connects(second, first.source, first.destination)
    ensures AddEdge(AddEdge(g, first), second) == AddEdge(g, second)
  {
    var g1 := AddEdge(AddEdge(g, first), second);
    var g2 := AddEdge(g, second);
    forall x, y
      ensures Lookup(g1, x, y) == Lookup(g2, x, y)
    {
      AddEdgeOverwritesEntry(g, first, second, x, y);
    }
    GraphEquality(g1, g2);
  }

  lemma AddEdgeOverwritesEntry(g: Graph, first: Edge, second: Edge, x: NodeId, y: NodeId)
    requires Connects(second, first.source, first.destination)
    ensures Lookup(AddEdge(AddEdge(g, first), second), x, y) == Lookup(AddEdge(g, second), x, y)
  {
    var g0 := AddEdge(g, first);
    if !Connects(second, x, y) {
      assert !Connects(first, x, y);
      assert Lookup(g0, x, y) == Lookup(g, x, y);
    } else if x == second.destination && y == second.source {
      assert Lookup(AddEdge(g0, second), x, y) == Some(second.weight);
    }
  }

  /** A later row joining the same two nodes overwrites an earlier one,
      whatever rows lie before, between and after them: the earlier row
      leaves no trace in the built graph. */
  lemma RepeatedEdgeOverwrites(pre: seq<Edge>, first: Edge, mid: seq<Edge>, second: Edge, post: seq<Edge>)
    requires Connects(second, first.source, first.destination)
    ensures BuildGraph(pre + [first] + mid + [second] + post) == BuildGraph(pre + mid + [second] + post)
  {
    LaterRowOverwrites(pre, first, mid, second);
    BuildGraphCongruent(pre + [first] + mid + [second], pre + mid + [second], post);
  }

  /** Rows appended to two tables that build the same graph keep building
      the same graph. */
  lemma {:induction false} BuildGraphCongruent(x: seq<Edge>, y: seq<Edge>, post: seq<Edge>)
    requires BuildGraph(x) == BuildGraph(y)
    ensures BuildGraph(x + post) == BuildGraph(y + post)
    decreases |post|
  {
    if post == [] {
      assert x + post == x && y + post == y;
    } else {
      var rest, e := post[..|post| - 1], post[|post| - 1];
      var lx, ly := x + post, y + post;
      assert lx[..|lx| - 1] == x + rest && lx[|lx| - 1] == e;
      assert ly[..|ly| - 1] == y + rest && ly[|ly| - 1] == e;
      BuildGraphCongruent(x, y, rest);
      BuildGraphUnfold(lx);
      BuildGraphUnfold(ly);
    }
  }

  lemma BuildGraphUnfold(edges: seq<Edge>)
    requires edges != []
    ensures BuildGraph(edges) == AddEdge(BuildGraph(edges[..|edges| - 1]), edges[|edges| - 1])
  {
  }

  lemma LaterRowOverwrites(pre: seq<Edge>, first: Edge, mid: seq<Edge>, second: Edge)
    requires Connects(second, first.source, first.destination)
    ensures BuildGraph(pre + [first] + mid + [second]) == BuildGraph(pre + mid + [second])
  {
    var g1 := BuildGraph(pre + [first] + mid + [second]);
    var g2 := BuildGraph(pre + mid + [second]);
    EndpointsDropCovered(pre, first, mid, second);
    forall x, y
      ensures Lookup(g1, x, y) == Lookup(g2, x, y)
    {
      RepeatedEdgeOverwritesEntry(pre, first, mid, second, x, y);
    }
    GraphEquality(g1, g2);
  }

  lemma EndpointsDropCovered(pre: seq<Edge>, first: Edge, mid: seq<Edge>, second: Edge)
    requires Connects(second, first.source, first.destination)
    ensures Endpoints(pre + [first] + mid + [second]) == Endpoints(pre + mid + [second])
  {
    var l1, l2 := pre + [first] + mid + [second], pre + mid + [second];
    assert forall r :: r in l1 <==> r in l2 || r == first;
    assert second in l2;
  }

  lemma RepeatedEdgeOverwritesEntry(pre: seq<Edge>, first: Edge, mid: seq<Edge>, second: Edge, x: NodeId, y: NodeId)
    requires Connects(second, first.source, first.destination)
    ensures Lookup(BuildGraph(pre + [first] + mid + [second]), x, y)
            == Lookup(BuildGraph(pre + mid + [second]), x, y)
  {
    var l1, l2 := pre + [first] + mid + [second], pre + mid + [second];
    assert l1[..|l1| - 1] == pre + [first] + mid && l1[|l1| - 1] == second;
    assert l2[..|l2| - 1] == pre + mid && l2[|l2| - 1] == second;
    if !Connects(second, x, y) {
      assert !Connects(first, x, y);
      DropRow(pre, first, mid, x, y);
    }
    BuildGraphSnoc(l1, x, y);
    BuildGraphSnoc(l2, x, y);
  }

  /** A row that does not join a and b can be removed from anywhere in the
      list without changing the entry a -> b. */
  lemma {:induction false} DropRow(pre: seq<Edge>, e: Edge, suffix: seq<Edge>, a: NodeId, b: NodeId)
    requires !Connects(e, a, b)
    ensures Lookup(BuildGraph(pre + [e] + suffix), a, b) == Lookup(BuildGraph(pre + suffix), a, b)
    decreases |suffix|
  {
    var l1, l2 := pre + [e] + suffix, pre + suffix;
    if suffix == [] {
      assert l1 == pre + [e] && l1[..|l1| - 1] == pre && l1[|l1| - 1] == e;
      assert l2 == pre;
      BuildGraphSnoc(l1, a, b);
    } else {
      var rest := suffix[..|suffix| - 1];
      assert l1[..|l1| - 1] == pre + [e] + rest && l1[|l1| - 1] == suffix[|suffix| - 1];
      assert l2[..|l2| - 1] == pre + rest && l2[|l2| - 1] == suffix[|suffix| - 1];
      DropRow(pre, e, rest, a, b);
      BuildGraphSnoc(l1, a, b);
      BuildGraphSnoc(l2, a, b);
    }
  }
}
