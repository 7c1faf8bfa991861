/**
 The undirected weighted graph of DijkstraAlgorithm.java: a map from a node
 name to the map of its neighbours and edge weights. Node names are strings,
 and edge weights are natural numbers in place of the Java code's doubles.
 */
module Graphs {

  type NodeId = string

  /** An edge weight. The Java code reads a `double` column and relies on it
      being finite and non-negative. */
  type Weight = nat

  /** node -> (neighbour -> weight), `Map<String, Map<String, Double>>` */
  type Graph = map<NodeId, map<NodeId, Weight>>

  datatype Option<+T> = None | Some(value: T)

  /** The weight the graph records for the directed entry a -> b, if any. */
  function Lookup(g: Graph, a: NodeId, b: NodeId): (r: Option<Weight>)
  {
    if a in g && b in g[a] then Some(g[a][b]) else None
  }

  /** Every entry a -> b is matched by an entry b -> a of the same weight. */
  ghost predicate Symmetric(g: Graph)
  {
    forall a, b :: Lookup(g, a, b) == Lookup(g, b, a)
  }

  /** Every neighbour is itself a key, so looking up its record never fails. */
  ghost predicate Closed(g: Graph)
  {
    forall a, b :: a in g && b in g[a] ==> b in g
  }

  lemma SymmetricIsClosed(g: Graph)
    requires Symmetric(g)
    ensures Closed(g)
  {
    forall a, b | a in g && b in g[a]
      ensures b in g
    {
      assert Lookup(g, a, b).Some?;
      assert Lookup(g, b, a).Some?;
    }
  }

  /** A walk in g: a non-empty sequence of keys, each adjacent to the next. */
  ghost predicate IsPath(g: Graph, p: seq<NodeId>)
  {
    && |p| > 0
    && (forall i :: 0 <= i < |p| ==> p[i] in g)
    && (forall i :: 0 <= i < |p| - 1 ==> p[i + 1] in g[p[i]])
  }

  function Last(p: seq<NodeId>): (v: NodeId)
    requires |p| > 0
  {
    p[|p| - 1]
  }

  /** The sum of the edge weights along a walk. */
  ghost function PathWeight(g: Graph, p: seq<NodeId>): (w: nat)
    requires IsPath(g, p)
    decreases |p|
  {
    if |p| == 1 then 0
    else
      var q := p[..|p| - 1];
      assert IsPath(g, q) by {
        assert forall i :: 0 <= i < |q| ==> q[i] == p[i];
      }
      PathWeight(g, q) + g[p[|p| - 2]][p[|p| - 1]]
  }

  ghost predicate PathFromTo(g: Graph, p: seq<NodeId>, s: NodeId, v: NodeId)
  {
    IsPath(g, p) && p[0] == s && Last(p) == v
  }

  ghost predicate Reachable(g: Graph, s: NodeId, v: NodeId)
  {
    exists p :: PathFromTo(g, p, s, v)
  }

  /** Appending a neighbour of the last node extends a walk by that edge's weight. */
  lemma ExtendPath(g: Graph, p: seq<NodeId>, v: NodeId)
    requires IsPath(g, p) && v in g && v in g[Last(p)]
    ensures IsPath(g, p + [v])
    ensures PathWeight(g, p + [v]) == PathWeight(g, p) + g[Last(p)][v]
  {
    var q := p + [v];
    assert q[..|q| - 1] == p;
  }

  /** When every edge weighs at least m, a walk of k edges weighs at least
      m * k. */
  lemma {:induction false} PathWeightAtLeast(g: Graph, p: seq<NodeId>, m: nat)
    requires IsPath(g, p)
    requires forall u, v :: u in g && v in g[u] ==> m <= g[u][v]
    ensures m * (|p| - 1) <= PathWeight(g, p)
    decreases |p|
  {
    if |p| > 1 {
      var q := p[..|p| - 1];
      assert IsPath(g, q) by {
        assert forall i :: 0 <= i < |q| ==> q[i] == p[i];
      }
      PathWeightAtLeast(g, q, m);
      assert m * (|p| - 1) == m * (|q| - 1) + m;
    }
  }
}
