/** Weighted adjacency lists, the roads added to them, and walks through them. */
module Graphs {

  /** One directed arc of an adjacency list: the neighbour it reaches and the road's weight ("time"). */
  datatype Arc = Arc(to: nat, weight: int)

  /** Adjacency lists indexed by vertex: `g[u]` lists the arcs leaving `u`, in insertion order. */
  type Graph = seq<seq<Arc>>

  /** Every arc points at a vertex of the graph. */
  predicate WellFormed(g: Graph) {
    forall u, a {:trigger a in g[u]} :: 0 <= u < |g| && a in g[u] ==> a.to < |g|
  }

  /** No arc has a negative weight: the assumption under which the early stop of the query is sound. */
  predicate NonNegative(g: Graph) {
    forall u, a {:trigger a in g[u]} :: 0 <= u < |g| && a in g[u] ==> a.weight >= 0
  }

  /** The graph is undirected: `Arc(v, w)` occurs in `g[u]` exactly as often as `Arc(u, w)` occurs in `g[v]`. */
  ghost predicate Symmetric(g: Graph) {
    forall u, v, w {:trigger multiset(g[u])[Arc(v, w)]} :: 0 <= u < |g| && 0 <= v < |g| ==> multiset(g[u])[Arc(v, w)] == multiset(g[v])[Arc(u, w)]
  }

  /** The adjacency lists after adding the road `u`-`v` of weight `w`: the arc to `v` is appended to
      `u`'s list, then the arc to `u` to `v`'s list; every other list is left as it was. */
  function WithRoad(g: Graph, u: nat, v: nat, w: int): (h: Graph)
    requires u < |g| && v < |g|
    ensures |h| == |g|
    ensures forall x :: 0 <= x < |g| ==>
      h[x] == g[x] + (if x == u then [Arc(v, w)] else []) + (if x == v then [Arc(u, w)] else [])
  {
    var h1 := g[u := g[u] + [Arc(v, w)]];
    h1[v := h1[v] + [Arc(u, w)]]
  }

  /** Adding a road keeps the arcs symmetric, counted with multiplicity (parallel roads and self-loops included). */
  lemma RoadKeepsSymmetry(g: Graph, u: nat, v: nat, w: int)
    requires u < |g| && v < |g|
    requires Symmetric(g)
    ensures Symmetric(WithRoad(g, u, v, w))
  {
    var h := WithRoad(g, u, v, w);
    forall x, y, w' | 0 <= x < |h| && 0 <= y < |h|
      ensures multiset(h[x])[Arc(y, w')] == multiset(h[y])[Arc(x, w')]
    {
      RoadCount(g, u, v, w, x, Arc(y, w'));
      RoadCount(g, u, v, w, y, Arc(x, w'));
    }
  }

  /** How often an arc occurs in a list after adding a road: once more for each end of the road it stands for. */
  lemma RoadCount(g: Graph, u: nat, v: nat, w: int, x: nat, a: Arc)
    requires u < |g| && v < |g| && x < |g|
    ensures multiset(WithRoad(g, u, v, w)[x])[a] == multiset(g[x])[a]
      + (if x == u && a == Arc(v, w) then 1 else 0) + (if x == v && a == Arc(u, w) then 1 else 0)
  {
    var extra1: seq<Arc> := if x == u then [Arc(v, w)] else [];
    var extra2: seq<Arc> := if x == v then [Arc(u, w)] else [];
    assert WithRoad(g, u, v, w)[x] == g[x] + extra1 + extra2;
    assert multiset(g[x] + extra1 + extra2) == multiset(g[x]) + multiset(extra1) + multiset(extra2);
  }

  /** Adding a road keeps every arc inside the graph. */
  lemma RoadKeepsWellFormed(g: Graph, u: nat, v: nat, w: int)
    requires u < |g| && v < |g|
    requires WellFormed(g)
    ensures WellFormed(WithRoad(g, u, v, w))
  {
  }

  /** `p` is a walk along arcs of `g`, `ws[i]` being the weight of the arc taken from `p[i]` to `p[i + 1]`. */
  ghost predicate IsWalk(g: Graph, p: seq<nat>, ws: seq<int>) {
    |p| >= 1 && |ws| == |p| - 1 &&
    (forall i :: 0 <= i < |p| ==> p[i] < |g|) &&
    (forall i {:trigger ws[i]} :: 0 <= i < |ws| ==> Arc(p[i + 1], ws[i]) in g[p[i]])
  }

  /** The total weight of a walk. */
  function Sum(ws: seq<int>): int {
    if ws == [] then 0 else Sum(ws[..|ws| - 1]) + ws[|ws| - 1]
  }

  /** Some walk leads from `s` to `t`. */
  ghost predicate Reachable(g: Graph, s: nat, t: nat) {
    exists p, ws :: IsWalk(g, p, ws) && p[0] == s && p[|p| - 1] == t
  }

  /** `d` is no greater than the weight of any walk from `s` to `t`. */
  ghost predicate LowerBound(g: Graph, s: nat, t: nat, d: int) {
    forall p, ws :: IsWalk(g, p, ws) && p[0] == s && p[|p| - 1] == t ==> d <= Sum(ws)
  }

  /** The vertex sequence `p` can be walked along arcs of `g` at total weight `c`. */
  ghost predicate WalkOfCost(g: Graph, p: seq<nat>, c: int) {
    exists ws :: IsWalk(g, p, ws) && Sum(ws) == c
  }

  /** A prefix of a walk is a walk. */
  lemma WalkPrefix(g: Graph, p: seq<nat>, ws: seq<int>, k: nat)
    requires IsWalk(g, p, ws) && 1 <= k <= |p|
    ensures IsWalk(g, p[..k], ws[..k - 1])
  {
  }

  /** A walk extended by one arc leaving its last vertex is a walk, and its weight grows by that arc's. */
  lemma WalkExtend(g: Graph, p: seq<nat>, ws: seq<int>, x: nat, w: int)
    requires IsWalk(g, p, ws) && x < |g| && Arc(x, w) in g[p[|p| - 1]]
    ensures IsWalk(g, p + [x], ws + [w])
    ensures Sum(ws + [w]) == Sum(ws) + w
  {
    assert (ws + [w])[..|ws|] == ws;
  }

  /** Along a walk with no negative weight, a prefix never weighs more than the whole walk. */
  lemma {:induction false} PrefixWeighsLess(ws: seq<int>, k: nat)
    requires k <= |ws|
    requires forall i :: 0 <= i < |ws| ==> ws[i] >= 0
    ensures Sum(ws[..k]) <= Sum(ws)
  {
    if k < |ws| {
      PrefixWeighsLess(ws[..|ws| - 1], k);
      assert ws[..|ws| - 1][..k] == ws[..k];
    } else {
      assert ws[..k] == ws;
    }
  }
}
