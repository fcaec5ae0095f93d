/** The dependency graph of a catalog, independent of how it is sorted. */
module CatalogGraph {
  import opened Common

  /** g[i] lists the resources that resource i depends on. */
  type Graph = seq<seq<nat>>

  /** What add_dependency keeps true of the lists: in range and free of duplicates. */
  ghost predicate WellFormed(g: Graph) {
    forall i :: 0 <= i < |g| ==> AllBelow(g[i], |g|) && Distinct(g[i])
  }

  /** Each node of the walk depends on the next one. */
  ghost predicate Walk(g: Graph, p: seq<nat>) {
    && (forall k :: 0 <= k < |p| ==> p[k] < |g|)
    && (forall k :: 0 <= k < |p| - 1 ==> p[k + 1] in g[p[k]])
  }

  ghost predicate ClosedWalk(g: Graph, p: seq<nat>) {
    |p| >= 2 && Walk(g, p) && p[0] == p[|p| - 1]
  }

  ghost predicate HasCycle(g: Graph) {
    exists p :: ClosedWalk(g, p)
  }

  /** Every index below n exactly once. */
  ghost predicate Permutation(order: seq<nat>, n: nat) {
    |order| == n && AllBelow(order, n) && Distinct(order)
  }

  /** A permutation of the resources in which every dependency stands before its dependent. */
  ghost predicate TopologicalOrder(g: Graph, order: seq<nat>) {
    && Permutation(order, |g|)
    && (forall k, d :: 0 <= k < |order| && d in g[order[k]] ==> d in order[..k])
  }

  ghost function Position(order: seq<nat>, x: nat): (k: nat)
    requires x in order
    ensures k < |order| && order[k] == x
  {
    var k :| 0 <= k < |order| && order[k] == x; k
  }

  lemma PositionUnique(order: seq<nat>, k: nat)
    requires Distinct(order) && k < |order|
    ensures Position(order, order[k]) == k
  {
  }

  lemma PermutationCovers(order: seq<nat>, n: nat, x: nat)
    requires Permutation(order, n) && x < n
    ensures x in order
  {
    DistinctBelow(order, n);
  }

  lemma SubWalk(g: Graph, p: seq<nat>, i: nat, j: nat)
    requires Walk(g, p) && i <= j <= |p|
    ensures Walk(g, p[i..j])
  {
    forall k | 0 <= k < |p[i..j]| - 1
      ensures p[i..j][k + 1] in g[p[i..j][k]]
    {
      var m := i + k;
      assert p[m + 1] in g[p[m]];
    }
  }

  /** Along a walk of a sorted graph positions go strictly down. */
  lemma {:induction false} WalkDescends(g: Graph, order: seq<nat>, p: seq<nat>)
    requires TopologicalOrder(g, order)
    requires |p| >= 2 && Walk(g, p)
    ensures p[0] in order && p[|p| - 1] in order
    ensures Position(order, p[|p| - 1]) < Position(order, p[0])
  {
    PermutationCovers(order, |g|, p[0]);
    var k := Position(order, p[0]);
    assert p[1] in order[..k];
    var j :| 0 <= j < k && order[..k][j] == p[1];
    PositionUnique(order, j);
    if |p| > 2 {
      var rest := p[1..];
      SubWalk(g, p, 1, |p|);
      WalkDescends(g, order, rest);
    }
  }

  lemma OrderExcludesCycles(g: Graph, order: seq<nat>)
    requires TopologicalOrder(g, order)
    ensures !HasCycle(g)
  {
    forall p | ClosedWalk(g, p)
      ensures false
    {
      WalkDescends(g, order, p);
    }
  }

  /** Some resource outside `done` exists and each such resource has a dependency outside `done`. */
  ghost predicate Stuck(g: Graph, done: seq<nat>) {
    && (exists x: nat :: x < |g| && x !in done)
    && (forall x: nat {:trigger OpenDependency(g, done, x)} :: x < |g| && x !in done ==> OpenDependency(g, done, x))
  }

  ghost predicate OpenDependency(g: Graph, done: seq<nat>, x: nat)
    requires x < |g|
  {
    exists d :: d in g[x] && d !in done
  }

  lemma {:induction false} StuckWalk(g: Graph, done: seq<nat>, steps: nat) returns (p: seq<nat>)
    requires WellFormed(g) && Stuck(g, done)
    ensures |p| == steps + 1 && Walk(g, p)
    ensures forall k :: 0 <= k < |p| ==> p[k] !in done
  {
    if steps == 0 {
      var x: nat :| x < |g| && x !in done;
      p := [x];
    } else {
      var q := StuckWalk(g, done, steps - 1);
      var last := q[|q| - 1];
      assert OpenDependency(g, done, last);
      var d :| d in g[last] && d !in done;
      p := q + [d];
    }
  }

  lemma StuckMeansCycle(g: Graph, done: seq<nat>)
    requires WellFormed(g) && Stuck(g, done)
    ensures HasCycle(g)
  {
    var p := StuckWalk(g, done, |g|);
    var i, j := Pigeonhole(p, |g|);
    var loop := p[i..j + 1];
    SubWalk(g, p, i, j + 1);
    assert ClosedWalk(g, loop);
  }
}
