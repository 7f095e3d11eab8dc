/** Rebuilding a path from the predecessor ("parent") array, as the path printer does: walk the
    parents from the target back to -1 onto a stack, then pop the stack to get start-to-target order. */
module ParentWalk {

  /** Every vertex in `rank` has a parent that is -1 or a vertex ranked strictly earlier, so
      following parents from a ranked vertex reaches -1. */
  ghost predicate ParentsRanked(parent: seq<int>, rank: map<nat, nat>) {
    forall v {:trigger RankedAt(parent, rank, v)} :: v in rank ==> RankedAt(parent, rank, v)
  }

  /** `v`'s parent is -1 or a vertex ranked before `v`. */
  ghost predicate RankedAt(parent: seq<int>, rank: map<nat, nat>, v: nat)
    requires v in rank
  {
    v < |parent| &&
    (parent[v] == -1 || (0 <= parent[v] && parent[v] as nat in rank && rank[parent[v] as nat] < rank[v]))
  }

  /** The path from the root of `v`'s parent chain to `v`, in forward order. */
  ghost function PathTo(parent: seq<int>, rank: map<nat, nat>, v: nat): seq<nat>
    requires ParentsRanked(parent, rank) && v in rank
    decreases rank[v]
  {
    assert RankedAt(parent, rank, v);
    if parent[v] == -1 then [v] else PathTo(parent, rank, parent[v] as nat) + [v]
  }

  /** The rebuilt path ends at `v`, starts at a vertex without a parent, and each vertex is the
      parent of the one after it; all its vertices are ranked. */
  lemma {:induction false} PathToShape(parent: seq<int>, rank: map<nat, nat>, v: nat)
    requires ParentsRanked(parent, rank) && v in rank
    ensures var p := PathTo(parent, rank, v);
      |p| >= 1 && p[|p| - 1] == v &&
      (forall i :: 0 <= i < |p| ==> p[i] in rank && p[i] < |parent|) &&
      parent[p[0]] == -1 &&
      (forall i :: 0 <= i < |p| - 1 ==> parent[p[i + 1]] == p[i])
    decreases rank[v]
  {
    assert RankedAt(parent, rank, v);
    if parent[v] != -1 {
      var u := parent[v] as nat;
      PathToShape(parent, rank, u);
      var q := PathTo(parent, rank, u);
      assert PathTo(parent, rank, v) == q + [v];
    }
  }

  /** `s` read from its last element to its first. */
  function Reversed(s: seq<nat>): (r: seq<nat>)
    ensures |r| == |s|
  {
    if s == [] then [] else [s[|s| - 1]] + Reversed(s[..|s| - 1])
  }

  /** The path printer: push the parent chain of `v` on a stack, then drain the stack. */
  method BuildPath(parent: seq<int>, v: nat, ghost rank: map<nat, nat>) returns (path: seq<nat>)
    requires ParentsRanked(parent, rank) && v in rank
    ensures path == PathTo(parent, rank, v)
  {
    var stack: seq<nat> := [];
    var vertex: int := v;
    while vertex != -1
      invariant vertex == -1 || (0 <= vertex && vertex as nat in rank)
      invariant vertex == -1 ==> Reversed(stack) == PathTo(parent, rank, v)
      invariant vertex != -1 ==> PathTo(parent, rank, vertex as nat) + Reversed(stack) == PathTo(parent, rank, v)
      decreases if vertex == -1 then 0 else rank[vertex as nat] + 1
    {
      assert RankedAt(parent, rank, vertex as nat);
      assert (stack + [vertex as nat])[..|stack|] == stack;
      stack := stack + [vertex as nat];
      vertex := parent[vertex];
    }
    path := [];
    while stack != []
      invariant path + Reversed(stack) == PathTo(parent, rank, v)
    {
      path := path + [stack[|stack| - 1]];
      stack := stack[..|stack| - 1];
    }
  }
}
