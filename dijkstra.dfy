/** Dijkstra's single-source shortest path with early stop at the target, over the adjacency lists
    of a road graph: the query's working state (distances, predecessors, frontier) and its proof. */
module Dijkstra {
  import opened Graphs
  import opened Frontier
  import opened ParentWalk

  /** A tentative distance; `Infinite` stands for the INT_MAX sentinel of an unreached vertex. */
  datatype Distance = Infinite | Finite(value: nat)

  /** The outcome of one query: the cost and start-to-target vertex sequence, or "no path". */
  datatype Route = Found(cost: nat, path: seq<nat>) | NoPath

  /** The relaxation test `dist[u] + time < dist[v]`: every finite value is below infinity. */
  predicate Below(d: int, dv: Distance) {
    dv.Infinite? || d < dv.value
  }

  /** What a correct answer to the query from `s` to `t` is: "no path" exactly when `t` cannot be
      reached; otherwise a walk from `s` to `t` whose weight is the reported cost, and no walk from
      `s` to `t` weighs less; from a vertex to itself, the one-vertex path at cost 0. */
  ghost predicate ShortestAnswer(adj: Graph, s: nat, t: nat, route: Route) {
    (route.NoPath? <==> !Reachable(adj, s, t)) &&
    (route.Found? ==>
       |route.path| >= 1 && route.path[0] == s && route.path[|route.path| - 1] == t &&
       WalkOfCost(adj, route.path, route.cost) &&
       LowerBound(adj, s, t, route.cost)) &&
    (s == t ==> route == Found(0, [s]))
  }

  /** Every arc leaving the settled vertex `y` has been relaxed: its head's distance is at most
      `dist[y]` plus the arc's weight. */
  ghost predicate RelaxedAt(adj: Graph, dist: seq<Distance>, y: nat) {
    y < |adj| && y < |dist| && dist[y].Finite? &&
    forall a {:trigger a in adj[y]} :: a in adj[y] ==> a.to < |dist| && dist[a.to].Finite? && dist[a.to].value <= dist[y].value + a.weight
  }

  /** `u` is reached, and no settled vertex is farther from the start than `u`. */
  ghost predicate SettledWithin(dist: seq<Distance>, rank: map<nat, nat>, u: nat) {
    u < |dist| && dist[u].Finite? &&
    forall v {:trigger v in rank} :: v in rank ==> v < |dist| && dist[v].Finite? && dist[v].value <= dist[u].value
  }

  /** The vertices not yet settled: the first component of the main loop's termination measure. */
  ghost function Unsettled(n: nat, rank: map<nat, nat>): set<nat> {
    set v: nat | v < n && v !in rank
  }

  /** Sizes and ranges of the working state: one distance and one parent per vertex, parents are
      -1 or vertices, frontier entries name vertices. */
  ghost predicate Shapes(adj: Graph, s: nat, dist: seq<Distance>, parent: seq<int>, pq: seq<Entry>) {
    WellFormed(adj) && NonNegative(adj) && s < |adj| && |dist| == |adj| && |parent| == |adj| &&
    (forall e {:trigger e in pq} :: e in pq ==> e.vertex < |adj|) &&
    (forall v :: 0 <= v < |adj| ==> -1 <= parent[v] < |adj|)
  }

  /** The start vertex is at distance 0 and has no parent. */
  ghost predicate StartFixed(s: nat, dist: seq<Distance>, parent: seq<int>) {
    s < |dist| && s < |parent| && dist[s] == Finite(0) && parent[s] == -1
  }

  /** Settled vertices are reached, and ranked 0, 1, ... in the order they were settled. */
  ghost predicate SettledReached(dist: seq<Distance>, rank: map<nat, nat>) {
    forall v {:trigger v in rank} :: v in rank ==> v < |dist| && rank[v] < |rank| && dist[v].Finite?
  }

  /** Every parent is a settled vertex, ranked before its settled children. */
  ghost predicate ParentsSettled(parent: seq<int>, rank: map<nat, nat>) {
    ParentsRanked(parent, rank) &&
    forall v :: 0 <= v < |parent| && parent[v] != -1 ==> 0 <= parent[v] && parent[v] as nat in rank
  }

  /** Predecessor consistency: every reached vertex other than the start has a parent, and its
      distance is its parent's plus the weight of an arc from the parent to it. */
  ghost predicate ParentArcs(adj: Graph, s: nat, dist: seq<Distance>, parent: seq<int>) {
    forall v {:trigger parent[v]} :: 0 <= v < |adj| && v < |dist| && v < |parent| && v != s && dist[v].Finite? ==>
      0 <= parent[v] < |adj| && parent[v] < |dist| && dist[parent[v]].Finite? &&
      Arc(v, dist[v].value - dist[parent[v]].value) in adj[parent[v]]
  }

  /** No frontier entry is below its vertex's current distance (entries may be stale, never too small). */
  ghost predicate FrontierSound(dist: seq<Distance>, pq: seq<Entry>) {
    forall e {:trigger e in pq} :: e in pq ==> e.vertex < |dist| && dist[e.vertex].Finite? && dist[e.vertex].value <= e.key
  }

  /** Every reached vertex that is not settled has a current entry in the frontier. */
  ghost predicate FrontierComplete(dist: seq<Distance>, pq: seq<Entry>, rank: map<nat, nat>) {
    forall v {:trigger Entry(dist[v].value, v) in pq} :: 0 <= v < |dist| && v !in rank && dist[v].Finite? ==>
      Entry(dist[v].value, v) in pq
  }

  /** No frontier entry is below the distance of a settled vertex. */
  ghost predicate SettledFirst(dist: seq<Distance>, pq: seq<Entry>, rank: map<nat, nat>) {
    forall v, e {:trigger v in rank, e in pq} :: v in rank && e in pq ==>
      v < |dist| && dist[v].Finite? && dist[v].value <= e.key
  }

  /** The vertices of `relaxed` are settled and have had all their arcs relaxed. */
  ghost predicate AllRelaxed(adj: Graph, dist: seq<Distance>, rank: map<nat, nat>, relaxed: set<nat>) {
    forall y {:trigger y in relaxed} :: y in relaxed ==> y in rank && RelaxedAt(adj, dist, y)
  }

  /** The distance of every settled vertex is no greater than the weight of any walk to it. */
  ghost predicate SettledOptimal(adj: Graph, s: nat, dist: seq<Distance>, rank: map<nat, nat>) {
    forall v {:trigger v in rank} :: v in rank ==> v < |dist| && dist[v].Finite? && LowerBound(adj, s, v, dist[v].value)
  }

  /** The invariant of the main loop. `rank` holds the settled vertices (those popped while their
      frontier entry was current), numbered in the order they were popped; `relaxed` are the settled
      vertices whose arcs have all been relaxed. */
  ghost predicate Inv(adj: Graph, s: nat, dist: seq<Distance>, parent: seq<int>, pq: seq<Entry>,
                      rank: map<nat, nat>, relaxed: set<nat>)
  {
    Shapes(adj, s, dist, parent, pq) && StartFixed(s, dist, parent) &&
    SettledReached(dist, rank) && ParentsSettled(parent, rank) && ParentArcs(adj, s, dist, parent) &&
    FrontierSound(dist, pq) && FrontierComplete(dist, pq, rank) && SettledFirst(dist, pq, rank) &&
    AllRelaxed(adj, dist, rank, relaxed) && SettledOptimal(adj, s, dist, rank)
  }

  /** Any walk from the start to an unsettled vertex passes through an unsettled vertex whose
      distance is at most the weight of the walk up to it. */
  lemma {:induction false} FirstUnsettled(adj: Graph, s: nat, dist: seq<Distance>, parent: seq<int>, pq: seq<Entry>,
                                          rank: map<nat, nat>, p: seq<nat>, ws: seq<int>) returns (i: nat)
    requires Inv(adj, s, dist, parent, pq, rank, rank.Keys)
    requires IsWalk(adj, p, ws) && p[0] == s && p[|p| - 1] !in rank
    ensures i < |p| && p[i] !in rank && dist[p[i]].Finite? && dist[p[i]].value <= Sum(ws[..i])
    ensures Entry(dist[p[i]].value, p[i]) in pq
    decreases |p|
  {
    if |p| == 1 {
      i := 0;
      assert ws[..0] == [];
    } else {
      var k := |p| - 1;
      WalkPrefix(adj, p, ws, k);
      var y := p[k - 1];
      if y !in rank {
        assert p[..k][k - 1] == y;
        i := FirstUnsettled(adj, s, dist, parent, pq, rank, p[..k], ws[..k - 1]);
        assert ws[..k - 1][..i] == ws[..i];
      } else {
        assert p[..k][0] == s && p[..k][k - 1] == y;
        assert dist[y].value <= Sum(ws[..k - 1]);
        assert RelaxedAt(adj, dist, y);
        assert Arc(p[k], ws[k - 1]) in adj[y];
        assert ws[..k] == ws;
        i := k;
      }
    }
  }

  /** Popping the least frontier entry: if its vertex was not settled, its distance is optimal and it
      becomes settled (ranked last); either way the invariant holds of the remaining frontier, with
      only the popped vertex possibly not yet relaxed. */
  lemma Settle(adj: Graph, s: nat, dist: seq<Distance>, parent: seq<int>, pq: seq<Entry>,
               rank: map<nat, nat>, i: nat) returns (rank': map<nat, nat>)
    requires Inv(adj, s, dist, parent, pq, rank, rank.Keys)
    requires i < |pq| && forall j :: 0 <= j < |pq| ==> Precedes(pq[i], pq[j])
    ensures rank' == if pq[i].vertex in rank then rank else rank[pq[i].vertex := |rank|]
    ensures Inv(adj, s, dist, parent, RemoveAt(pq, i), rank', rank'.Keys - {pq[i].vertex})
    ensures RelaxedAt(adj, dist, pq[i].vertex) || SettledWithin(dist, rank', pq[i].vertex)
  {
    var u := pq[i].vertex;
    var rest := RemoveAt(pq, i);
    assert pq[i] in pq;
    if u in rank {
      rank' := rank;
      assert RelaxedAt(adj, dist, u);
    } else {
      assert Entry(dist[u].value, u) in pq;
      forall p, ws | IsWalk(adj, p, ws) && p[0] == s && p[|p| - 1] == u
        ensures dist[u].value <= Sum(ws)
      {
        var k := FirstUnsettled(adj, s, dist, parent, pq, rank, p, ws);
        forall j | 0 <= j < |ws| ensures ws[j] >= 0 {
          assert Arc(p[j + 1], ws[j]) in adj[p[j]];
        }
        PrefixWeighsLess(ws, k);
        var x := p[k];
        var j :| 0 <= j < |pq| && pq[j] == Entry(dist[x].value, x);
        assert Precedes(pq[i], pq[j]);
      }
      rank' := rank[u := |rank|];
      assert |rank'| == |rank| + 1;
      forall v | v in rank' ensures RankedAt(parent, rank', v) {
        assert v in rank ==> RankedAt(parent, rank, v);
      }
      forall v, e | v in rank' && e in rest ensures dist[v].value <= e.key {
        var j :| 0 <= j < |pq| && pq[j] == e;
        assert Precedes(pq[i], pq[j]);
      }
    }
  }

  /** An improvement keeps the parents settled and consistent with the arcs: the new parent `u` is
      settled, and `v` (unsettled, so nobody's parent) is reached from `u` along `Arc(v, w)`. */
  lemma ImproveParents(adj: Graph, s: nat, dist: seq<Distance>, parent: seq<int>, rank: map<nat, nat>,
                       u: nat, v: nat, w: int)
    requires |dist| == |adj| && |parent| == |adj| && StartFixed(s, dist, parent)
    requires ParentsSettled(parent, rank) && ParentArcs(adj, s, dist, parent)
    requires u in rank && u < |adj| && Arc(v, w) in adj[u] && v < |adj| && v !in rank && v != s
    requires dist[u].Finite? && dist[u].value + w >= 0
    ensures ParentsSettled(parent[v := u], rank)
    ensures ParentArcs(adj, s, dist[v := Finite(dist[u].value + w)], parent[v := u])
  {
    var dist', parent' := dist[v := Finite(dist[u].value + w)], parent[v := u];
    forall x | x in rank ensures RankedAt(parent', rank, x) {
      assert RankedAt(parent, rank, x);
    }
    forall x {:trigger parent'[x]} | 0 <= x < |adj| && x != s && dist'[x].Finite?
      ensures 0 <= parent'[x] < |adj| && dist'[parent'[x]].Finite? &&
              Arc(x, dist'[x].value - dist'[parent'[x]].value) in adj[parent'[x]]
    {
      if x != v {
        assert parent[x] != -1;
        assert parent[x] as nat in rank;
        assert parent'[x] == parent[x] && dist'[x] == dist[x] && dist'[parent[x]] == dist[parent[x]];
      }
    }
  }

  /** An improvement keeps the frontier sound and complete: the new entry carries `v`'s new distance,
      which is no less than that of any settled vertex. */
  lemma ImproveFrontier(dist: seq<Distance>, pq: seq<Entry>, rank: map<nat, nat>, u: nat, v: nat, d: nat)
    requires FrontierSound(dist, pq) && FrontierComplete(dist, pq, rank) && SettledFirst(dist, pq, rank)
    requires SettledWithin(dist, rank, u) && dist[u].value <= d
    requires v < |dist| && v !in rank && Below(d, dist[v])
    ensures FrontierSound(dist[v := Finite(d)], pq + [Entry(d, v)])
    ensures FrontierComplete(dist[v := Finite(d)], pq + [Entry(d, v)], rank)
    ensures SettledFirst(dist[v := Finite(d)], pq + [Entry(d, v)], rank)
  {
  }

  /** An improvement touches no settled vertex, so settled distances stay relaxed and optimal. */
  lemma ImproveSettled(adj: Graph, s: nat, dist: seq<Distance>, rank: map<nat, nat>, relaxed: set<nat>,
                       v: nat, d: nat)
    requires AllRelaxed(adj, dist, rank, relaxed) && SettledOptimal(adj, s, dist, rank) && SettledReached(dist, rank)
    requires v < |dist| && v !in rank && Below(d, dist[v])
    ensures SettledReached(dist[v := Finite(d)], rank)
    ensures AllRelaxed(adj, dist[v := Finite(d)], rank, relaxed)
    ensures SettledOptimal(adj, s, dist[v := Finite(d)], rank)
  {
    var dist' := dist[v := Finite(d)];
    forall y | y in relaxed ensures RelaxedAt(adj, dist', y) {
      assert RelaxedAt(adj, dist, y);
    }
    forall x | x in rank ensures LowerBound(adj, s, x, dist'[x].value) {
      assert dist'[x] == dist[x];
    }
  }

  /** One improvement of the inner loop: `v` gets distance `dist[u] + w` through the arc `Arc(v, w)`
      of the settled vertex `u`, parent `u`, and a new frontier entry. */
  lemma Improve(adj: Graph, s: nat, dist: seq<Distance>, parent: seq<int>, pq: seq<Entry>,
                rank: map<nat, nat>, relaxed: set<nat>, u: nat, v: nat, w: int)
    requires Inv(adj, s, dist, parent, pq, rank, relaxed)
    requires u in rank && Arc(v, w) in adj[u] && v !in rank
    requires SettledWithin(dist, rank, u)
    requires Below(dist[u].value + w, dist[v])
    ensures dist[u].value + w >= 0
    ensures Inv(adj, s, dist[v := Finite(dist[u].value + w)], parent[v := u],
                pq + [Entry(dist[u].value + w, v)], rank, relaxed)
  {
    var d: nat := dist[u].value + w;
    ImproveParents(adj, s, dist, parent, rank, u, v, w);
    ImproveFrontier(dist, pq, rank, u, v, d);
    ImproveSettled(adj, s, dist, rank, relaxed, v, d);
  }

  /** Fact (a) of the relaxation loop: distances only ever decrease. */
  ghost predicate NoLonger(dist: seq<Distance>, dist': seq<Distance>) {
    |dist'| == |dist| &&
    forall x {:trigger dist'[x]} :: 0 <= x < |dist| ==> dist'[x] == dist[x] || (dist'[x].Finite? && Below(dist'[x].value, dist[x]))
  }

  /** Fact (b) of the relaxation loop: a parent changes only where the distance strictly decreased. */
  ghost predicate ParentsFollowDistance(dist: seq<Distance>, parent: seq<int>, dist': seq<Distance>, parent': seq<int>) {
    |parent'| == |parent| &&
    forall x {:trigger parent'[x]} :: 0 <= x < |parent| && x < |dist| && x < |dist'| && parent'[x] != parent[x] ==>
      dist'[x].Finite? && Below(dist'[x].value, dist[x])
  }

  /** The arcs leaving `u` point at vertices and weigh nothing negative. */
  ghost predicate ArcsOk(adj: Graph, u: nat) {
    u < |adj| && forall k {:trigger adj[u][k]} :: 0 <= k < |adj[u]| ==> adj[u][k].to < |adj| && adj[u][k].weight >= 0
  }

  /** Settled vertices keep their distances. */
  ghost predicate SettledKept(dist: seq<Distance>, dist': seq<Distance>, rank: map<nat, nat>) {
    forall x {:trigger x in rank} :: x in rank ==> x < |dist| && x < |dist'| && dist'[x] == dist[x]
  }

  /** The first `j` arcs of `u` have been relaxed against `u`'s distance `du`. */
  ghost predicate RelaxedUpTo(adj: Graph, u: nat, du: nat, dist': seq<Distance>, j: nat) {
    u < |adj| && j <= |adj[u]| &&
    forall k {:trigger adj[u][k]} :: 0 <= k < j ==>
      adj[u][k].to < |dist'| && dist'[adj[u][k].to].Finite? && dist'[adj[u][k].to].value <= du + adj[u][k].weight
  }

  /** What the inner loop has done after its first `j` arcs, from the state `dist`, `parent`, `pq` at
      the start of the loop to the current `dist'`, `parent'`, `pq'`: facts (a) and (b), settled
      vertices untouched, the first `j` arcs relaxed, and nothing changed after a stale pop. */
  ghost predicate RelaxProgress(adj: Graph, u: nat, dist: seq<Distance>, parent: seq<int>, pq: seq<Entry>,
                                rank: map<nat, nat>, j: nat, dist': seq<Distance>, parent': seq<int>, pq': seq<Entry>)
  {
    ArcsOk(adj, u) && j <= |adj[u]| && u in rank && u < |dist| && dist[u].Finite? && |dist| == |adj| && |parent| == |dist| &&
    NoLonger(dist, dist') && ParentsFollowDistance(dist, parent, dist', parent') &&
    SettledKept(dist, dist', rank) && RelaxedUpTo(adj, u, dist[u].value, dist', j) &&
    (RelaxedAt(adj, dist, u) ==> dist' == dist && parent' == parent && pq' == pq)
  }

  /** The invariant of the inner loop after relaxing the first `j` arcs of `u`. */
  ghost predicate RelaxInv(adj: Graph, s: nat, u: nat, dist: seq<Distance>, parent: seq<int>, pq: seq<Entry>,
                           rank: map<nat, nat>, j: nat, dist': seq<Distance>, parent': seq<int>, pq': seq<Entry>)
  {
    Inv(adj, s, dist', parent', pq', rank, rank.Keys - {u}) &&
    RelaxProgress(adj, u, dist, parent, pq, rank, j, dist', parent', pq')
  }

  /** The inner loop's invariant holds before its first arc. */
  lemma RelaxStart(adj: Graph, s: nat, u: nat, dist: seq<Distance>, parent: seq<int>, pq: seq<Entry>,
                   rank: map<nat, nat>)
    requires Inv(adj, s, dist, parent, pq, rank, rank.Keys - {u}) && u in rank
    ensures RelaxInv(adj, s, u, dist, parent, pq, rank, 0, dist, parent, pq)
  {
    assert ArcsOk(adj, u) by {
      forall k | 0 <= k < |adj[u]| ensures adj[u][k].to < |adj| && adj[u][k].weight >= 0 {
        assert adj[u][k] in adj[u];
      }
    }
  }

  /** An arc whose relaxation test fails leaves the state as it is. */
  lemma RelaxKeep(adj: Graph, u: nat, dist: seq<Distance>, parent: seq<int>, pq: seq<Entry>,
                  rank: map<nat, nat>, j: nat, dist': seq<Distance>, parent': seq<int>, pq': seq<Entry>)
    requires RelaxProgress(adj, u, dist, parent, pq, rank, j, dist', parent', pq') && j < |adj[u]|
    requires !Below(dist'[u].value + adj[u][j].weight, dist'[adj[u][j].to])
    ensures RelaxProgress(adj, u, dist, parent, pq, rank, j + 1, dist', parent', pq')
  {
    assert dist'[u] == dist[u];
    assert RelaxedUpTo(adj, u, dist[u].value, dist', j + 1);
  }

  /** An arc whose relaxation test succeeds: its head is not settled (a settled vertex is no farther
      than `u`), and lowering its distance and resetting its parent keeps facts (a) and (b). */
  lemma RelaxStep(adj: Graph, u: nat, dist: seq<Distance>, parent: seq<int>, pq: seq<Entry>,
                  rank: map<nat, nat>, j: nat, dist': seq<Distance>, parent': seq<int>, pq': seq<Entry>)
    requires RelaxedAt(adj, dist, u) || SettledWithin(dist, rank, u)
    requires RelaxProgress(adj, u, dist, parent, pq, rank, j, dist', parent', pq') && j < |adj[u]|
    requires Below(dist'[u].value + adj[u][j].weight, dist'[adj[u][j].to])
    ensures adj[u][j].to !in rank && SettledWithin(dist', rank, u)
    ensures RelaxProgress(adj, u, dist, parent, pq, rank, j + 1,
                          dist'[adj[u][j].to := Finite(dist'[u].value + adj[u][j].weight)],
                          parent'[adj[u][j].to := u],
                          pq' + [Entry(dist'[u].value + adj[u][j].weight, adj[u][j].to)])
  {
    var v, w := adj[u][j].to, adj[u][j].weight;
    assert adj[u][j] in adj[u];
    assert dist'[u] == dist[u];
    var d: nat := dist[u].value + w;
    if RelaxedAt(adj, dist, u) {
      assert false;
    }
    if v in rank {
      assert false;
    }
    assert SettledWithin(dist', rank, u) by {
      forall x | x in rank ensures x < |dist'| && dist'[x].Finite? && dist'[x].value <= dist'[u].value {
        assert dist'[x] == dist[x];
      }
    }
    var dist'', parent'' := dist'[v := Finite(d)], parent'[v := u];
    assert NoLonger(dist, dist'') by {
      forall x | 0 <= x < |dist| ensures dist''[x] == dist[x] || (dist''[x].Finite? && Below(dist''[x].value, dist[x])) {
        if x != v {
          assert dist''[x] == dist'[x];
        }
      }
    }
    assert ParentsFollowDistance(dist, parent, dist'', parent'') by {
      forall x | 0 <= x < |parent| && x < |dist| && x < |dist''| && parent''[x] != parent[x]
        ensures dist''[x].Finite? && Below(dist''[x].value, dist[x])
      {
        if x != v {
          assert parent''[x] == parent'[x] && dist''[x] == dist'[x];
        }
      }
    }
    assert RelaxedUpTo(adj, u, dist[u].value, dist'', j + 1) by {
      forall k | 0 <= k < j + 1
        ensures adj[u][k].to < |dist''| && dist''[adj[u][k].to].Finite? &&
                dist''[adj[u][k].to].value <= dist[u].value + adj[u][k].weight
      {
        if k < j {
          assert dist'[adj[u][k].to].Finite? && dist'[adj[u][k].to].value <= dist[u].value + adj[u][k].weight;
        }
      }
    }
  }

  /** An arc whose relaxation test succeeds keeps the invariants of both loops. */
  lemma RelaxImprove(adj: Graph, s: nat, u: nat, dist: seq<Distance>, parent: seq<int>, pq: seq<Entry>,
                     rank: map<nat, nat>, j: nat, dist': seq<Distance>, parent': seq<int>, pq': seq<Entry>)
    requires RelaxedAt(adj, dist, u) || SettledWithin(dist, rank, u)
    requires RelaxInv(adj, s, u, dist, parent, pq, rank, j, dist', parent', pq') && j < |adj[u]|
    requires Below(dist'[u].value + adj[u][j].weight, dist'[adj[u][j].to])
    ensures RelaxInv(adj, s, u, dist, parent, pq, rank, j + 1,
                     dist'[adj[u][j].to := Finite(dist'[u].value + adj[u][j].weight)],
                     parent'[adj[u][j].to := u],
                     pq' + [Entry(dist'[u].value + adj[u][j].weight, adj[u][j].to)])
  {
    assert adj[u][j] in adj[u];
    RelaxStep(adj, u, dist, parent, pq, rank, j, dist', parent', pq');
    Improve(adj, s, dist', parent', pq', rank, rank.Keys - {u}, u, adj[u][j].to, adj[u][j].weight);
  }

  /** After the last arc of `u`, `u` is relaxed as well. */
  lemma RelaxDone(adj: Graph, s: nat, u: nat, dist: seq<Distance>, parent: seq<int>, pq: seq<Entry>,
                  rank: map<nat, nat>, dist': seq<Distance>, parent': seq<int>, pq': seq<Entry>)
    requires u < |adj| && RelaxInv(adj, s, u, dist, parent, pq, rank, |adj[u]|, dist', parent', pq')
    ensures Inv(adj, s, dist', parent', pq', rank, rank.Keys)
  {
    assert dist'[u] == dist[u];
    assert RelaxedAt(adj, dist', u) by {
      forall a | a in adj[u]
        ensures a.to < |dist'| && dist'[a.to].Finite? && dist'[a.to].value <= dist'[u].value + a.weight
      {
        var k :| 0 <= k < |adj[u]| && adj[u][k] == a;
        assert RelaxedUpTo(adj, u, dist[u].value, dist', |adj[u]|);
      }
    }
    assert AllRelaxed(adj, dist', rank, rank.Keys) by {
      forall y | y in rank.Keys ensures y in rank && RelaxedAt(adj, dist', y) {
        if y != u {
          assert y in rank.Keys - {u};
        }
      }
    }
  }

  /** The inner loop: relax every arc leaving the popped vertex `u`, in list order. */
  method Relax(adj: Graph, s: nat, u: nat, dist: seq<Distance>, parent: seq<int>, pq: seq<Entry>,
               ghost rank: map<nat, nat>)
    returns (dist': seq<Distance>, parent': seq<int>, pq': seq<Entry>)
    requires Inv(adj, s, dist, parent, pq, rank, rank.Keys - {u})
    requires u in rank
    requires RelaxedAt(adj, dist, u) || SettledWithin(dist, rank, u)
    ensures Inv(adj, s, dist', parent', pq', rank, rank.Keys)
    ensures NoLonger(dist, dist') && ParentsFollowDistance(dist, parent, dist', parent')
    ensures RelaxedAt(adj, dist, u) ==> dist' == dist && parent' == parent && pq' == pq
  {
    dist', parent', pq' := dist, parent, pq;
    RelaxStart(adj, s, u, dist, parent, pq, rank);
    for j := 0 to |adj[u]|
      invariant RelaxInv(adj, s, u, dist, parent, pq, rank, j, dist', parent', pq')
    {
      var v := adj[u][j].to;
      var time := adj[u][j].weight;
      if Below(dist'[u].value + time, dist'[v]) {
        RelaxImprove(adj, s, u, dist, parent, pq, rank, j, dist', parent', pq');
        var d := dist'[u].value + time;
        dist' := dist'[v := Finite(d)];
        parent' := parent'[v := u];
        pq' := pq' + [Entry(d, v)];
      } else {
        RelaxKeep(adj, u, dist, parent, pq, rank, j, dist', parent', pq');
      }
    }
    RelaxDone(adj, s, u, dist, parent, pq, rank, dist', parent', pq');
  }

  /** The vertices on the parent chain of a settled vertex `v` form a walk from the start to `v`
      whose weight is `dist[v]`. */
  lemma {:induction false} ChainWalk(adj: Graph, s: nat, dist: seq<Distance>, parent: seq<int>, pq: seq<Entry>,
                                     rank: map<nat, nat>, relaxed: set<nat>, v: nat) returns (ws: seq<int>)
    requires Inv(adj, s, dist, parent, pq, rank, relaxed)
    requires v in rank
    ensures var p := PathTo(parent, rank, v);
      IsWalk(adj, p, ws) && Sum(ws) == dist[v].value && p[0] == s && p[|p| - 1] == v
    decreases rank[v]
  {
    assert RankedAt(parent, rank, v);
    if parent[v] == -1 {
      ws := [];
    } else {
      var u := parent[v] as nat;
      var wu := ChainWalk(adj, s, dist, parent, pq, rank, relaxed, u);
      var q := PathTo(parent, rank, u);
      var w := dist[v].value - dist[u].value;
      WalkExtend(adj, q, wu, v, w);
      ws := wu + [w];
      assert PathTo(parent, rank, v) == q + [v];
    }
  }

  /** When the target is popped, its distance and rebuilt path answer the query. */
  lemma Arrive(adj: Graph, s: nat, t: nat, dist: seq<Distance>, parent: seq<int>, pq: seq<Entry>,
               rank: map<nat, nat>, path: seq<nat>)
    requires Inv(adj, s, dist, parent, pq, rank, rank.Keys - {t})
    requires t in rank && path == PathTo(parent, rank, t)
    ensures ShortestAnswer(adj, s, t, Found(dist[t].value, path))
  {
    var ws := ChainWalk(adj, s, dist, parent, pq, rank, rank.Keys - {t}, t);
    assert Reachable(adj, s, t);
    if s == t {
      assert IsWalk(adj, [s], []);
      assert RankedAt(parent, rank, t);
    }
  }

  /** When the frontier runs empty before the target is popped, the target is unreachable. */
  lemma Exhausted(adj: Graph, s: nat, t: nat, dist: seq<Distance>, parent: seq<int>, rank: map<nat, nat>)
    requires Inv(adj, s, dist, parent, [], rank, rank.Keys)
    requires t < |adj| && t !in rank
    ensures ShortestAnswer(adj, s, t, NoPath)
  {
    if Reachable(adj, s, t) {
      var p, ws :| IsWalk(adj, p, ws) && p[0] == s && p[|p| - 1] == t;
      var i := FirstUnsettled(adj, s, dist, parent, [], rank, p, ws);
      assert false;
    }
    assert IsWalk(adj, [s], []);
  }

  /** The state the query starts from (every distance infinite but the start's 0, every parent -1,
      the start alone in the frontier) satisfies the main loop's invariant with nothing settled. */
  lemma StartState(adj: Graph, s: nat)
    requires WellFormed(adj) && NonNegative(adj) && s < |adj|
    ensures Inv(adj, s, seq(|adj|, _ => Infinite)[s := Finite(0)], seq(|adj|, _ => -1), [Entry(0, s)], map[], {})
  {
    var dist: seq<Distance> := seq(|adj|, _ => Infinite)[s := Finite(0)];
    var pq := [Entry(0, s)];
    assert FrontierComplete(dist, pq, map[]) by {
      forall v | 0 <= v < |dist| && dist[v].Finite? ensures Entry(dist[v].value, v) in pq {
        assert v == s;
      }
    }
  }

  /** The query: distances start infinite and parents at -1, the start is pushed at distance 0,
      and the least entry is popped until the target is popped or the frontier is empty. */
  method ShortestRoute(adj: Graph, s: nat, t: nat) returns (route: Route)
    requires WellFormed(adj) && NonNegative(adj) && s < |adj| && t < |adj|
    ensures ShortestAnswer(adj, s, t, route)
  {
    var n := |adj|;
    var dist: seq<Distance> := seq(n, _ => Infinite);
    var parent: seq<int> := seq(n, _ => -1);
    var pq: seq<Entry> := [];
    dist := dist[s := Finite(0)];
    pq := pq + [Entry(0, s)];
    ghost var rank: map<nat, nat> := map[];
    StartState(adj, s);
    while pq != []
      invariant Inv(adj, s, dist, parent, pq, rank, rank.Keys)
      invariant t !in rank
      decreases Unsettled(n, rank), |pq|
    {
      var i := MinIndex(pq);
      var u := pq[i].vertex;
      ghost var settled := rank;
      rank := Settle(adj, s, dist, parent, pq, rank, i);
      pq := RemoveAt(pq, i);
      if u == t {
        var path := BuildPath(parent, t, rank);
        Arrive(adj, s, t, dist, parent, pq, rank, path);
        return Found(dist[t].value, path);
      }
      dist, parent, pq := Relax(adj, s, u, dist, parent, pq, rank);
      if u !in settled {
        assert u in Unsettled(n, settled) && u !in Unsettled(n, rank);
      }
    }
    Exhausted(adj, s, t, dist, parent, rank);
    return NoPath;
  }
}
