/** The query's min-priority frontier of `(tentative distance, vertex)` entries, kept as a sequence
    from which the least entry is extracted; no heap layout is modelled. */
module Frontier {

  /** A frontier entry: `vertex` pushed with tentative distance `key`. */
  datatype Entry = Entry(key: nat, vertex: nat)

  /** The order of a pair of ints: by key first, ties broken by the smaller vertex index. */
  predicate Precedes(a: Entry, b: Entry) {
    a.key < b.key || (a.key == b.key && a.vertex <= b.vertex)
  }

  /** The position of the entry that the queue's `top()` yields: one that precedes every entry. */
  function MinIndex(q: seq<Entry>): (i: nat)
    requires |q| > 0
    ensures i < |q|
    ensures forall j :: 0 <= j < |q| ==> Precedes(q[i], q[j])
  {
    if |q| == 1 then 0
    else
      var k := MinIndex(q[..|q| - 1]);
      assert forall j :: 0 <= j < |q| - 1 ==> q[..|q| - 1][j] == q[j];
      if Precedes(q[k], q[|q| - 1]) then k else |q| - 1
  }

  /** The least entry is determined by the frontier's contents: two positions that both precede
      everything hold the same entry, so the extraction does not depend on how ties are stored. */
  lemma TopIsDetermined(q: seq<Entry>, i: nat, j: nat)
    requires i < |q| && j < |q|
    requires forall k :: 0 <= k < |q| ==> Precedes(q[i], q[k])
    requires forall k :: 0 <= k < |q| ==> Precedes(q[j], q[k])
    ensures q[i] == q[j]
  {
    assert Precedes(q[i], q[j]) && Precedes(q[j], q[i]);
  }

  /** The frontier after `pop()`: one occurrence of the entry at `i` is gone and nothing else changed. */
  function RemoveAt(q: seq<Entry>, i: nat): (r: seq<Entry>)
    requires i < |q|
    ensures multiset(r) == multiset(q) - multiset{q[i]}
    ensures forall e :: e in q <==> e in r || e == q[i]
  {
    assert q == q[..i] + [q[i]] + q[i + 1..];
    q[..i] + q[i + 1..]
  }
}
