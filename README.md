# City road graph with Dijkstra's shortest route

This project models `CityGraph` from `UAS-DJIKSTRA.CPP` and proves properties of the model. `CityGraph` is a
small city road map.

- **Vertices.** There is a fixed number of vertices, each labelled by a character. A map sends each label to its
  vertex index.
- **Roads.** Roads are undirected and weighted. Each road is stored as two directed arcs, one in the adjacency
  list of each endpoint.
- **Queries.** `findShortestPath` runs Dijkstra's algorithm between two labels and stops early when the target
  is popped from the priority queue. `printPath` rebuilds the route from the predecessor (`parent`) array by
  pushing the parent chain on a stack and draining the stack.

The files and modules are:

- `graphs.dfy` (module `Graphs`): the adjacency lists and their arcs; what `addRoad` does to them; walks and
  their weights.
- `frontier.dfy` (module `Frontier`): the priority queue of `(distance, vertex)` pairs, as a sequence with
  extraction of the least pair. Pairs compare as `std::pair` does: by distance, then by vertex.
- `parent_walk.dfy` (module `ParentWalk`): the path-building part of `printPath`, as a method with its two loops.
- `dijkstra.dfy` (module `Dijkstra`): the query itself.
  - `ShortestRoute` is the outer `while` loop.
  - `Relax` is the inner `for` loop over the popped vertex's arcs.
  - The rest are the invariants and lemmas that prove the answer is the shortest route.
- `city_graph.dfy` (module `City`): the class `CityGraph`.
  - Its fields are `adjList`, `vertexNames`, `vertexIndexMap` and `numVertices`.
  - Its members are the constructor and `SetVertexNames`, `VertexNameToIndex`, `AddRoad` and `FindShortestPath`.
  - `SetVertexNames` and `AddRoad` update the fields in place.

What the model proves:

- **Correct answer.** Given non-negative weights, the query's answer is correct. It says "no path" exactly when
  the target cannot be reached. Otherwise it gives a walk along arcs from the start to the target, whose weight
  is the reported cost and which no walk weighs less than. From a vertex to itself the answer is the one-vertex
  path at cost 0.
- **Termination.** The main loop terminates. Its measure is the set of vertices not yet settled, then the size
  of the frontier: a pop of a stale entry relaxes nothing.
- **Invariants.** The relaxation loop keeps three facts:
  - distances only decrease;
  - a parent changes only where the distance strictly decreased;
  - every reached vertex other than the start has distance equal to its parent's plus the weight of an arc from
    the parent.
- **Roads.** Adding a road appends exactly the two arcs and keeps the arcs symmetric, counted with multiplicity.
- **Labels.** Installing labels sends each label to its last occurrence.
- **Errors.** An unknown label is an error, never a default index.

## Model

| member | source | states |
|---|---|---|
| City.CityGraph.constructor | UAS-DJIKSTRA.CPP:19-22 | there are `vertices` vertices, each with an empty adjacency list and the null label; no label is mapped; the class invariant holds |
| City.CityGraph.SetVertexNames | UAS-DJIKSTRA.CPP:25-34 | a name list whose length is not the vertex count is refused with `NameCountMismatch` and changes nothing; otherwise the labels become `names`, the roads stay the same, the map becomes the old map with `names[i] -> i` stored in increasing `i`, and every label of `names` resolves to the position of its last occurrence |
| City.InstallLastWins | UAS-DJIKSTRA.CPP:31-33 | storing the labels adds exactly the labels of `names` to the map; each one maps to a position holding it, with no later position holding it (the last occurrence wins); other labels keep their old index |
| City.CityGraph.VertexNameToIndex | UAS-DJIKSTRA.CPP:45-52 | lookup succeeds exactly when the label is mapped; the index is a vertex, and that vertex carries the label whenever some vertex does; an unmapped label gives `UnknownVertex(name)` and never a default index |
| City.CityGraph.AddRoad | UAS-DJIKSTRA.CPP:37-42 | an unknown first label, or else an unknown second label, is refused and changes nothing; otherwise the lists become `WithRoad` of the old lists; labels and map do not change; the invariant (arcs inside the graph, symmetric with multiplicity) is kept |
| Graphs.WithRoad | UAS-DJIKSTRA.CPP:40-41 | `(v, w)` is appended to `u`'s list and `(u, w)` to `v`'s; every other list and every existing entry is unchanged; there are as many lists as before |
| Graphs.RoadCount | UAS-DJIKSTRA.CPP:40-41 | after a road is added, an arc occurs in a list once more for each end of the road it stands for, and otherwise as often as before |
| Graphs.RoadKeepsSymmetry | UAS-DJIKSTRA.CPP:37-42 | if `(v, w)` occurs in `adj[u]` as often as `(u, w)` occurs in `adj[v]` for all `u, v, w`, this still holds after adding a road, including a parallel road or a self-loop |
| City.CityGraph.FindShortestPath | UAS-DJIKSTRA.CPP:69-71 | an unknown start label, or else an unknown end label, is an error; otherwise the result is the query's answer between the two vertices, which satisfies `ShortestAnswer` |
| Dijkstra.ShortestRoute | UAS-DJIKSTRA.CPP:73-107 | with non-negative weights the query terminates, and its answer is a correct shortest answer: "no path" exactly when the target is unreachable; otherwise a walk from the start to the target whose weight is the cost and which no walk weighs less than; `Found(0, [s])` when start and target coincide |
| Dijkstra.StartState | UAS-DJIKSTRA.CPP:73-78 | the query's first state satisfies the main loop's invariant with nothing settled: the start at 0, every other distance infinite, every parent -1, and the frontier holding just `(0, start)` |
| Frontier.MinIndex | UAS-DJIKSTRA.CPP:81 | the position extracted by `top()` holds a pair that precedes every pair of the frontier in the `(distance, vertex)` order |
| Frontier.TopIsDetermined | UAS-DJIKSTRA.CPP:75 | two positions whose pairs both precede every pair hold the same pair, so what `top()` yields depends only on the frontier's contents |
| Frontier.RemoveAt | UAS-DJIKSTRA.CPP:82 | `pop()` removes exactly one occurrence of the extracted pair; the remaining pairs are, as a multiset, the old ones minus that pair |
| Dijkstra.FirstUnsettled | UAS-DJIKSTRA.CPP:80-103 | along any walk from the start to an unsettled vertex there is an unsettled vertex whose distance is at most the weight of the walk up to it, and it has a current entry in the frontier |
| Dijkstra.Settle | UAS-DJIKSTRA.CPP:80-83 | popping the least pair: if its vertex is not yet settled, its distance is at most the weight of every walk to it, and it becomes settled; the invariant holds for the remaining frontier |
| Dijkstra.Relax | UAS-DJIKSTRA.CPP:93-103 | relaxing every arc of the popped vertex keeps the main loop's invariant, including predecessor consistency (fact c); distances only decrease (fact a); a parent changes only where the distance strictly decreased (fact b); after a stale pop nothing changes |
| Dijkstra.RelaxStart | UAS-DJIKSTRA.CPP:93 | before the first arc, the inner loop's invariant holds, and the popped vertex's arcs are in range and non-negative |
| Dijkstra.RelaxKeep | UAS-DJIKSTRA.CPP:98 | an arc that fails the test `dist[u] + time < dist[v]` leaves everything as it is and counts as relaxed |
| Dijkstra.RelaxStep | UAS-DJIKSTRA.CPP:97-102 | an arc that passes the test leads to an unsettled vertex; lowering its distance and resetting its parent keeps facts (a) and (b) and relaxes that arc |
| Dijkstra.RelaxImprove | UAS-DJIKSTRA.CPP:98-102 | an arc that passes the test keeps the invariants of both loops once `dist[v]`, `parent[v]` and the frontier are updated |
| Dijkstra.RelaxDone | UAS-DJIKSTRA.CPP:93-103 | after the last arc, the popped vertex is relaxed and the main loop's invariant holds again |
| Dijkstra.Improve | UAS-DJIKSTRA.CPP:98-101 | setting `dist[v] := dist[u] + time`, `parent[v] := u` and pushing `(dist[v], v)` keeps the main loop's invariant |
| Dijkstra.ImproveParents | UAS-DJIKSTRA.CPP:99-100 | after an improvement, parents are still settled vertices ranked before their children, and every reached vertex other than the start still has distance equal to its parent's plus the weight of an arc from the parent |
| Dijkstra.ImproveFrontier | UAS-DJIKSTRA.CPP:99-101 | after an improvement, no frontier pair lies below its vertex's distance or below a settled distance, and every reached unsettled vertex has a current pair |
| Dijkstra.ImproveSettled | UAS-DJIKSTRA.CPP:99 | an improvement leaves settled distances reached, relaxed and optimal |
| ParentWalk.BuildPath | UAS-DJIKSTRA.CPP:55-65 | the stack walk from `vertex` along `parent` to -1, followed by draining the stack, yields `PathTo` of the vertex, i.e. the parent chain in start-to-vertex order |
| ParentWalk.PathToShape | UAS-DJIKSTRA.CPP:57-59 | the rebuilt path is non-empty and ends at the vertex; its first vertex has parent -1; each vertex is the parent of the next |
| Dijkstra.ChainWalk | UAS-DJIKSTRA.CPP:57-59 | the rebuilt path of a settled vertex starts at the start, ends at the vertex, joins consecutive vertices by arcs, and weighs exactly the vertex's distance |
| Dijkstra.Arrive | UAS-DJIKSTRA.CPP:84-89 | when the target is popped, its distance and rebuilt path form a correct shortest answer, which is `Found(0, [s])` when start and target coincide |
| Dijkstra.Exhausted | UAS-DJIKSTRA.CPP:104-107 | when the frontier is empty and the target was never popped, the target is unreachable from the start, so "no path" is the correct answer |

## Left out

- Console output is not modelled. This covers the `cout`/`cerr` messages, the cost line, the `" -> "` rendering of the path and the lookup of each path vertex's label for printing. The query returns `Found(cost, path)` or `NoPath` instead.
- `exit(1)` in `setVertexNames` and `vertexNameToIndex` is not modelled as process control. Each operation returns a typed error instead (`NameCountMismatch`, `UnknownVertex`), and a refused call changes nothing.
- The `INT_MAX` sentinel and the `int` width are not modelled. Distances are unbounded naturals with an explicit `Infinite`, and road weights are unbounded integers. The possible overflow of `dist[u] + time` is therefore not modelled.
- Dijkstra.ShortestRoute: requires non-negative road weights, which the source never checks. With negative weights the early stop is unsound, and the loop need not terminate.
- City.CityGraph.FindShortestPath: requires non-negative road weights for the same reason. `AddRoad` itself accepts any weight, as the source does.
- The heap layout of `std::priority_queue` is not modelled. The frontier is a sequence of pairs from which the least is extracted.
- A negative vertex count in the constructor is not modelled. The count is a natural number, because `resize` with a negative size does not produce a graph.
- The fixed 20-vertex graph and the query in `main` (UAS-DJIKSTRA.CPP:111-164) are not modelled.
- `setVertexNames` is modelled as the code behaves: it adds to the existing label map without clearing it. So a label from an earlier call that is absent from the new names keeps its old index. The class invariant still makes that index a vertex.
- `dist`, `parent` and the frontier are local vectors of the query. They are modelled as sequence variables that the loops reassign, not as arrays.
