# Campus route finder: a Dafny model of its shortest-path core

The program reads a table of undirected, weighted campus links
(`Source`, `Destination`, `Distance`). It builds an adjacency map from
them (`buildGraph`) and runs a lazy-deletion Dijkstra search from a
requested start node (`dijkstra`). For every node it records the best
distance found and the walk that achieves it (`PathInfo`). This project
models those two operations and the records they use, and proves what they
compute.

Modules, in dependency order:

- `Graphs` (`graphs.dfy`): the graph type `map<NodeId, map<NodeId, Weight>>`,
  an `Option` view of its entries (`Lookup`), undirectedness (`Symmetric`),
  "every neighbour is a key" (`Closed`), walks and walk weights.
- `GraphBuilder` (`graph_builder.dfy`): the edge row `Edge` and `buildGraph`.
  It is `BuildGraph`, a fold of `AddEdge` over the rows. `AddEdge` is two
  `Put`s, one per direction, each the `computeIfAbsent(..).put(..)` idiom.
- `Records` (`records.dfy`): the distance domain `Dist`. `Fin(n)` is a
  finite distance. `Inf` stands for the Java code's `Double.MAX_VALUE`
  sentinel. `Less` is the Java code's strict `<`. The module also holds the
  `PathInfo` record and three table properties:
  - `Consistent`: every record's walk really has its distance;
  - `Feasible`: the relaxation inequality holds;
  - `Shortest`: optimality.
  Relaxation feasibility implies optimality (`FeasibleIsShortest`).
- `ShortestPaths` (`shortest_paths.dfy`) holds the queue entry `Node`, the
  initial table `Init`, the queue's `Poll`, the neighbour loop
  `RelaxNeighbours` and one loop iteration `Step`. The whole search is
  `Dijkstra`, together with the loop invariant (`SolverInvariant`) and the
  lemmas that maintain it.
- `Route` (`route.dfy`) is what `main` computes between reading the table
  and printing. It builds the graph, solves, and looks up the destination.
  A start node missing from the graph gives `None`, where the Java
  code throws. The lookup distinguishes three answers:
  - an unknown destination, for which the Java code's `paths.get` yields
    null and the next line fails;
  - an unreachable one, which keeps the sentinel;
  - a found route.
- `Scenarios` (`scenarios.dfy`) is a worked instance. The triangle a-b (2),
  b-c (3), a-c (10) is solved from a. c always ends at distance 5 by the
  walk [a, b, c], less than the direct edge's 10.

The queue holds `Node(id, distance)` entries and is modelled as a multiset.
The Java code orders entries by the node's live record, not by the stored
distance, and `Poll` does the same. An entry whose node is already visited
is skipped, so a node is expanded at most once. Unreached nodes keep
distance `Inf` and the placeholder walk `[source]`, as the Java code
initialises them.

## Model

| member | source | states |
|---|---|---|
| Graphs.SymmetricIsClosed | DijkstraAlgorithm.java:49-50 | every edge is stored in both directions, so every neighbour the search reads is itself a key of the graph |
| Graphs.ExtendPath | DijkstraAlgorithm.java:84-90 | appending a neighbour to a walk gives a walk, and its weight grows by exactly that edge's weight, as `newDistance` and `newPath` do |
| GraphBuilder.Put | DijkstraAlgorithm.java:49 | storing a -> b creates a's row if it is missing, makes a -> b the new weight, adds at most the key a, and leaves every other entry unchanged |
| GraphBuilder.AddEdge | DijkstraAlgorithm.java:49-50 | one row adds both endpoints as keys, sets the weight in both directions, and changes no entry between any other pair of nodes |
| GraphBuilder.AddEdgeKeepsSymmetric | DijkstraAlgorithm.java:49-50 | inserting a row in both directions keeps an undirected graph undirected |
| GraphBuilder.BuildGraph | DijkstraAlgorithm.java:41-54 | the built graph's nodes are exactly the endpoints named by the rows, so no rows give the empty graph; the last row's weight is stored in both directions |
| GraphBuilder.BuildGraphSymmetric | DijkstraAlgorithm.java:41-54 | the built graph is undirected, and every neighbour is a node |
| GraphBuilder.EntryComesFromEdge | DijkstraAlgorithm.java:44-51 | every entry a -> b of the built graph comes from a row joining a and b, in either orientation |
| GraphBuilder.EdgeGivesEntry | DijkstraAlgorithm.java:44-51 | every row leaves an entry in both directions between its endpoints |
| GraphBuilder.BuildGraphNoLoops | DijkstraAlgorithm.java:44-51 | rows that never join a node to itself build a graph in which no node is its own neighbour |
| GraphBuilder.BuildGraphHasEntry | DijkstraAlgorithm.java:44-51 | a -> b is an entry if and only if some row joins a and b |
| GraphBuilder.BuildGraphLastWriteWins | DijkstraAlgorithm.java:44-51 | when several rows join the same two nodes, the entry's weight is that of the last such row (`put` overwrites) |
| GraphBuilder.AddEdgeOverwrites | DijkstraAlgorithm.java:49-50 | inserting a row and then another joining the same two nodes gives the same map as inserting only the second |
| GraphBuilder.RepeatedEdgeOverwrites | DijkstraAlgorithm.java:44-51 | a later row joining the same two nodes, with any rows before, between and after the two, leaves no trace of the earlier row: the built graph equals the one built without it |
| GraphBuilder.BuildGraphCongruent | DijkstraAlgorithm.java:44-51 | appending the same rows to two tables that build the same graph keeps them building the same graph |
| GraphBuilder.DropRow | DijkstraAlgorithm.java:44-51 | a row that does not join a and b can be removed from anywhere in the table without changing the entry a -> b |
| Records.FeasibleBoundsPaths | DijkstraAlgorithm.java:84-93 | if no edge out of a reached node can improve its neighbour and the start is at 0, every walk from the start ends at a reached node whose distance is at most the walk's weight |
| Records.FeasibleIsShortest | DijkstraAlgorithm.java:56-98 | a consistent table with no improvable edge and the start at 0 is optimal: a node is reached exactly when a walk leads to it, and no walk is shorter than its distance |
| Records.ShortestDistancesUnique | DijkstraAlgorithm.java:56-98 | two consistent optimal tables agree on every distance, whatever walks they keep; the answer does not depend on tie-breaking or map iteration order |
| ShortestPaths.Init | DijkstraAlgorithm.java:57-63 | one record per node, the start at 0 and every other node at the `MAX_VALUE` sentinel, all with walk [start]; the table is consistent |
| ShortestPaths.Poll | DijkstraAlgorithm.java:65-71 | removes exactly one entry from the queue, and the removed entry's node has a live distance no greater than that of any entry's node |
| ShortestPaths.RelaxNeighbours | DijkstraAlgorithm.java:80-94 | after the loop over u's neighbours every edge out of u satisfies the relaxation inequality, no distance grows, and only strictly improved neighbours change. Each gets (dist u + w, path u + [v]) and is pushed exactly once with that distance |
| ShortestPaths.RelaxEdge | DijkstraAlgorithm.java:84-93 | handling one neighbour v of u keeps the nodes and every other record. If dist u + w is strictly below v's distance, v's record becomes (dist u + w, path u + [v]) and exactly one entry (v, dist u + w) is pushed; otherwise the record and the queue are unchanged. Either way v's distance never grows and ends at most dist u + w |
| ShortestPaths.RelaxEdgeKeeps | DijkstraAlgorithm.java:84-93 | handling one more neighbour extends everything the loop has established so far to that neighbour |
| ShortestPaths.RelaxImproving | DijkstraAlgorithm.java:86-93 | the strictly-shorter branch: the neighbour's record becomes the route through u and it is pushed once, while the other records keep the loop's guarantees |
| ShortestPaths.ImproveTable | DijkstraAlgorithm.java:86-90 | replacing one record by the shorter route through u changes only that record and keeps every record at or below its starting value |
| ShortestPaths.PushCounts | DijkstraAlgorithm.java:92 | after the push, the queue holds exactly one extra entry per improved node, carrying its new distance |
| ShortestPaths.InitEstablishes | DijkstraAlgorithm.java:57-68 | the initial table with a queue holding only (start, 0) satisfies the loop invariant |
| ShortestPaths.SkipStalePreserves | DijkstraAlgorithm.java:74-76 | dropping an entry whose node was already visited keeps the invariant |
| ShortestPaths.PolledIsNearest | DijkstraAlgorithm.java:70-78 | the polled node is no farther than any unvisited node, not just any queued one |
| ShortestPaths.ExpandedRecordsFrozen | DijkstraAlgorithm.java:78-94 | expanding the nearest unvisited node never changes the record of an already-visited node |
| ShortestPaths.ExpandKeepsTable | DijkstraAlgorithm.java:84-90 | after relaxation every record's walk still runs from the start to its node with exactly its distance, and the start keeps (0, [start]) |
| ShortestPaths.ExpandKeepsFrontier | DijkstraAlgorithm.java:78-92 | after expansion every reached, unvisited node still has an entry on the queue, and no entry is below its node's live distance |
| ShortestPaths.ExpandKeepsExpanded | DijkstraAlgorithm.java:78-94 | after expansion, visited nodes are no farther than unvisited ones, and no edge out of a visited node can improve its neighbour |
| ShortestPaths.ExpandKeepsNearest | DijkstraAlgorithm.java:78-94 | after expanding the nearest node, visited nodes stay no farther than unvisited ones |
| ShortestPaths.ExpandKeepsRelaxed | DijkstraAlgorithm.java:80-94 | after expanding u, no edge out of u or out of an earlier visited node can improve its neighbour |
| ShortestPaths.ExpandKeepsOrder | DijkstraAlgorithm.java:78 | the expansion order lists each visited node once, in non-decreasing distance |
| ShortestPaths.ExpandPreserves | DijkstraAlgorithm.java:78-94 | expanding the polled, unvisited node (marking it visited, appending it to the expansion order and relaxing its edges) keeps the loop invariant |
| ShortestPaths.EmptyFrontierFinal | DijkstraAlgorithm.java:70-97 | once the queue is empty no edge can improve any record, the table is optimal, and the visited nodes are exactly the reached ones |
| ShortestPaths.StepPreserves | DijkstraAlgorithm.java:70-94 | either branch of one iteration keeps the invariant and makes progress: fewer unvisited nodes, or the same visited set and a smaller queue |
| ShortestPaths.Step | DijkstraAlgorithm.java:70-94 | one iteration polls an entry nearest by live distance. If its node was already visited, only that entry leaves the queue; the table, the visited set and the expansion order are unchanged. Otherwise the node is reached, it alone joins the visited set and the end of the expansion order, and its edges are relaxed. Either way the invariant holds and the loop makes progress |
| ShortestPaths.Dijkstra | DijkstraAlgorithm.java:56-98 | one record per node, the start at (0, [start]). Each finite record holds a walk of its distance, and the node is reached exactly when some walk leads to it. No walk is shorter than a record's distance. Unreached nodes keep (MAX_VALUE, [start]). The ghost list `settled` holds each reached node once, in non-decreasing distance; it is the expansion order, because `Step`'s contract appends exactly the newly visited node on an expansion and nothing on a skip |
| Route.FindRoutes | DijkstraAlgorithm.java:115-122 | building the graph from the rows and solving fails exactly when the start names no node; otherwise every named node has a consistent, optimal record |
| Route.Query | DijkstraAlgorithm.java:124-126 | the destination is unknown exactly when it has no record, and unreachable exactly when its record keeps the `MAX_VALUE` sentinel. A finite record is always reported as found, with exactly that record's distance and walk |
| Route.QueryMeaning | DijkstraAlgorithm.java:122-126 | on a solved table, "unknown" means no row names the destination. "Unreachable" means it is a node but no walk from the start reaches it. A found route is a walk from the start to the destination, of the reported weight, that no other walk beats |
| Scenarios.TriangleWalks | DijkstraAlgorithm.java:84-90 | in the triangle every edge weighs at least 2, so the only walk of weight 2 from a to b is [a, b] and the only walk of weight 5 from a to c is [a, b, c] |
| Scenarios.TriangleDistances | DijkstraAlgorithm.java:41-98 | for the rows a-b (2), b-c (3), a-c (10), any consistent optimal table from a has a at 0, b at 2 via [a, b] and c at 5 via [a, b, c] |
| Scenarios.SolveTriangle | DijkstraAlgorithm.java:41-98 | building the triangle and running the search from a yields a at (0, [a]), b at (2, [a, b]) and c at (5, [a, b, c]), the detour beating the direct edge's 10 |

## Left out

- `main` (DijkstraAlgorithm.java:100-139) is left out, apart from the build, solve and look-up steps that `Route` models. The rest is I/O: the database connection, the query, reading the start and destination from standard input, printing the result, and closing resources. For an unknown destination the look-up at line 124 yields null, and `pathInfo.getDistance()` at line 125 then throws a NullPointerException, which the catch at line 134 prints. `Route.Query` returns `UnknownNode` there instead.
- Reading rows from the `ResultSet` (lines 44-47) is left out. It is I/O. The rows are given as a sequence of `Edge` values in table order.
- Weights are `nat`, not `double`. Rounding, NaN, infinities and negative weights are not modelled. Negative weights would break the algorithm's premise, and the Java code does not check for them. `Double.MAX_VALUE` is the `Inf` sentinel. A finite distance can never reach it in the model. In the Java code it can only if weights sum past the largest double.
- `HashMap` and `HashSet` iteration order is left out. The neighbours of a node are relaxed in an arbitrary order, chosen nondeterministically. The keys of `paths` are a set. The results hold for every order.
- Route.Query: for an unreachable destination it returns a bare `Unreachable`. The Java code (lines 124-129) instead prints the distance `Double.MAX_VALUE` and the placeholder path [start]. The model does not render that output.
- ShortestPaths.Poll returns an entry whose node has the least live distance. The Java `PriorityQueue` compares entries by the node's live distance, which changes while the entry sits in the heap. The heap does not re-sort, so `poll` is not guaranteed to return the minimum. The binary heap itself is not modelled. The optimality results assume the exact minimum is returned.
- ShortestPaths.Dijkstra requires the start node to be a key, because the Java code throws at line 80 otherwise (a null neighbour map, printed by the catch at line 134). It does not report every node as unreachable in that case. `Route.FindRoutes` models that case as a `None` result.
- ShortestPaths.Dijkstra requires every neighbour to be a key (`Closed`). The Java code throws at line 86 otherwise. Every graph `buildGraph` produces meets this (`GraphBuilder.BuildGraphSymmetric`).
- The ghost output `settled` of `ShortestPaths.Dijkstra` is not in the Java code. It records the expansion order so the order can be stated.
