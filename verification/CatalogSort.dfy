/** Kahn's algorithm with an array queue, as the agent runs it over its entries. */
module CatalogSort {
  import opened Common
  import opened CatalogGraph
  import opened CatalogEntries

  /** How many of `deps` are not in `done` yet. */
  ghost function Pending(deps: seq<nat>, done: seq<nat>): nat {
    if deps == [] then 0
    else (if deps[0] in done then 0 else 1) + Pending(deps[1..], done)
  }

  lemma {:induction false} PendingInitially(deps: seq<nat>)
    ensures Pending(deps, []) == |deps|
  {
    if deps != [] {
      PendingInitially(deps[1..]);
    }
  }

  lemma {:induction false} PendingZero(deps: seq<nat>, done: seq<nat>)
    ensures Pending(deps, done) == 0 <==> forall d :: d in deps ==> d in done
  {
    if deps != [] {
      PendingZero(deps[1..], done);
      assert forall d :: d in deps <==> d == deps[0] || d in deps[1..];
    }
  }

  /** Finishing x lowers the count of exactly the lists that mention x, by one. */
  lemma {:induction false} PendingStep(deps: seq<nat>, done: seq<nat>, x: nat)
    requires Distinct(deps) && x !in done
    ensures Pending(deps, done + [x]) + (if x in deps then 1 else 0) == Pending(deps, done)
  {
    if deps != [] {
      PendingStep(deps[1..], done, x);
      assert forall d :: d in deps <==> d == deps[0] || d in deps[1..];
      assert deps[0] == x ==> x !in deps[1..];
    }
  }

  /** The counters agree with `done`, and the queue holds exactly the resources whose counter is zero. */
  ghost predicate Counted(g: Graph, degree: seq<nat>, done: seq<nat>, queued: seq<nat>) {
    && |degree| == |g|
    && Distinct(queued) && AllBelow(queued, |g|)
    && done <= queued
    && (forall i :: 0 <= i < |g| ==> degree[i] == Pending(g[i], done))
    && (forall i :: 0 <= i < |g| ==> (degree[i] == 0 <==> i in queued))
  }

  ghost function Degrees(es: seq<Entry>): (d: seq<nat>)
    ensures |d| == |es|
    ensures forall i :: 0 <= i < |es| ==> d[i] == es[i].inDegree
  {
    seq(|es|, i requires 0 <= i < |es| => es[i].inDegree)
  }

  /** The entries agree on everything except the in-degree counters. */
  ghost predicate SameButDegrees(a: seq<Entry>, b: seq<Entry>) {
    |a| == |b| && forall i :: 0 <= i < |a| ==> a[i] == b[i].(inDegree := a[i].inDegree)
  }

  ghost predicate DependenciesFirst(g: Graph, order: seq<nat>)
    requires AllBelow(order, |g|)
  {
    forall k, d :: 0 <= k < |order| && d in g[order[k]] ==> d in order[..k]
  }

  lemma CountedStuck(g: Graph, degree: seq<nat>, done: seq<nat>)
    requires WellFormed(g) && Counted(g, degree, done, done) && |done| != |g|
    ensures Stuck(g, done)
  {
    DistinctBelow(done, |g|);
    if forall x: nat :: x < |g| ==> x in done {
      SubsetCount(Below(|g|), Elements(done));
      DistinctElementCount(done);
    }
    forall x: nat | x < |g| && x !in done
      ensures OpenDependency(g, done, x)
    {
      PendingZero(g[x], done);
    }
  }

  lemma StillDependenciesFirst(g: Graph, degree: seq<nat>, done: seq<nat>, before: seq<nat>, queued: seq<nat>)
    requires Counted(g, degree, done, queued)
    requires done <= before <= queued && DependenciesFirst(g, before)
    ensures DependenciesFirst(g, queued)
  {
    forall k, d | 0 <= k < |queued| && d in g[queued[k]]
      ensures d in queued[..k]
    {
      if k < |before| {
        assert d in before[..k];
        assert before[..k] == queued[..k];
      } else {
        PendingZero(g[queued[k]], done);
        assert done <= queued[..k];
      }
    }
  }

  /** After the counters of g[..i] have seen x finish and those of g[i..] have not. */
  ghost predicate PartlyReleased(g: Graph, degree: seq<nat>, done: seq<nat>, x: nat, i: nat, queued: seq<nat>) {
    && |degree| == |g| && i <= |g|
    && Distinct(queued) && AllBelow(queued, |g|)
    && done + [x] <= queued
    && (forall k :: 0 <= k < i ==> degree[k] == Pending(g[k], done + [x]))
    && (forall k :: i <= k < |g| ==> degree[k] == Pending(g[k], done))
    && (forall k :: 0 <= k < |g| ==> (degree[k] == 0 <==> k in queued))
  }

  lemma MentionedIsPending(g: Graph, degree: seq<nat>, done: seq<nat>, x: nat, i: nat, queued: seq<nat>)
    requires WellFormed(g) && x !in done && i < |g|
    requires PartlyReleased(g, degree, done, x, i, queued) && x in g[i]
    ensures degree[i] > 0 && |queued| < |g|
  {
    PendingStep(g[i], done, x);
    DistinctBelow(queued, |g|);
  }

  lemma ReleaseStep(g: Graph, degree: seq<nat>, newDegree: seq<nat>, done: seq<nat>, x: nat, i: nat,
                    queued: seq<nat>, newQueued: seq<nat>)
    requires WellFormed(g) && x !in done && i < |g|
    requires PartlyReleased(g, degree, done, x, i, queued)
    requires x in g[i] ==> degree[i] > 0 && newDegree == degree[i := degree[i] - 1]
    requires x in g[i] ==> newQueued == if newDegree[i] == 0 then queued + [i] else queued
    requires x !in g[i] ==> newDegree == degree && newQueued == queued
    ensures PartlyReleased(g, newDegree, done, x, i + 1, newQueued)
  {
    PendingStep(g[i], done, x);
  }

  /** Position of x in deps, or |deps|: the scan that stops at the first match. */
  method Scan(deps: seq<nat>, x: nat) returns (j: nat)
    ensures j <= |deps|
    ensures j < |deps| ==> deps[j] == x
    ensures j == |deps| <==> x !in deps
  {
    j := 0;
    while j < |deps| && deps[j] != x
      invariant j <= |deps| && x !in deps[..j]
    {
      j := j + 1;
    }
  }

  /** One dequeued resource: count it off in every list that mentions it, queue what becomes free. */
  method Release(entries: array<Entry>, x: nat, queue: array<nat>, oldTail: nat, ghost done: seq<nat>) returns (tail: nat)
    requires queue.Length == entries.Length
    requires oldTail <= queue.Length
    requires WellFormed(Deps(entries[..]))
    requires x < entries.Length && x !in done
    requires PartlyReleased(Deps(entries[..]), Degrees(entries[..]), done, x, 0, queue[..oldTail])
    modifies entries, queue
    ensures SameButDegrees(entries[..], old(entries[..]))
    ensures oldTail <= tail <= queue.Length && queue[..oldTail] == old(queue[..oldTail])
    ensures Counted(Deps(old(entries[..])), Degrees(entries[..]), done + [x], queue[..tail])
  {
    ghost var g := Deps(entries[..]);
    tail := oldTail;
    var i := 0;
    while i < entries.Length
      invariant i <= entries.Length
      invariant SameButDegrees(entries[..], old(entries[..]))
      invariant oldTail <= tail <= queue.Length && queue[..oldTail] == old(queue[..oldTail])
      invariant PartlyReleased(g, Degrees(entries[..]), done, x, i, queue[..tail])
    {
      ghost var degree, queued := Degrees(entries[..]), queue[..tail];
      var j := Scan(entries[i].deps, x);
      if j < |entries[i].deps| {
        MentionedIsPending(g, degree, done, x, i, queued);
        entries[i] := entries[i].(inDegree := entries[i].inDegree - 1);
        assert Degrees(entries[..]) == degree[i := degree[i] - 1];
        if entries[i].inDegree == 0 {
          queue[tail] := i;
          tail := tail + 1;
          assert queue[..tail] == queued + [i];
        }
      }
      ReleaseStep(g, degree, Degrees(entries[..]), done, x, i, queued, queue[..tail]);
      i := i + 1;
    }
  }

  /** Every counter starts at the number of dependencies. */
  method InitialDegrees(entries: array<Entry>)
    modifies entries
    ensures SameButDegrees(entries[..], old(entries[..]))
    ensures forall k :: 0 <= k < entries.Length ==> entries[k].inDegree == |old(entries[k].deps)|
  {
    var i := 0;
    while i < entries.Length
      invariant i <= entries.Length
      invariant SameButDegrees(entries[..], old(entries[..]))
      invariant forall k :: 0 <= k < i ==> entries[k].inDegree == |old(entries[k].deps)|
    {
      entries[i] := entries[i].(inDegree := |entries[i].deps|);
      i := i + 1;
    }
  }

  /** The queue starts with the resources that depend on nothing. */
  method SeedQueue(entries: array<Entry>, queue: array<nat>) returns (tail: nat)
    requires queue.Length == entries.Length
    requires forall k :: 0 <= k < entries.Length ==> entries[k].inDegree == |entries[k].deps|
    modifies queue
    ensures tail <= queue.Length
    ensures Counted(Deps(entries[..]), Degrees(entries[..]), [], queue[..tail])
    ensures DependenciesFirst(Deps(entries[..]), queue[..tail])
  {
    tail := 0;
    var i := 0;
    while i < entries.Length
      invariant tail <= i <= entries.Length
      invariant Distinct(queue[..tail]) && AllBelow(queue[..tail], i)
      invariant forall k :: 0 <= k < i ==> (entries[k].inDegree == 0 <==> k in queue[..tail])
    {
      if entries[i].inDegree == 0 {
        ghost var queued := queue[..tail];
        queue[tail] := i;
        tail := tail + 1;
        assert queue[..tail] == queued + [i];
      }
      i := i + 1;
    }
    forall k | 0 <= k < entries.Length
      ensures entries[k].inDegree == Pending(entries[k].deps, [])
    {
      PendingInitially(entries[k].deps);
    }
  }

  /** The main loop's invariant: the first `head` queue slots are finished and copied to `result`. */
  ghost predicate Draining(g: Graph, degree: seq<nat>, queue: seq<nat>, result: seq<nat>, head: nat, tail: nat) {
    && head <= tail <= |g| == |queue| == |result|
    && result[..head] == queue[..head]
    && Counted(g, degree, queue[..head], queue[..tail])
    && DependenciesFirst(g, queue[..tail])
  }

  /** Dequeue one resource, record it and release its dependents. */
  method Dequeue(entries: array<Entry>, queue: array<nat>, result: array<nat>, head: nat, tail: nat) returns (newTail: nat)
    requires WellFormed(Deps(entries[..])) && queue != result
    requires Draining(Deps(entries[..]), Degrees(entries[..]), queue[..], result[..], head, tail) && head < tail
    modifies entries, queue, result
    ensures SameButDegrees(entries[..], old(entries[..]))
    ensures Draining(Deps(old(entries[..])), Degrees(entries[..]), queue[..], result[..], head + 1, newTail)
  {
    ghost var g, done, queued := Deps(entries[..]), queue[..head], queue[..tail];
    assert queue[..][..head] == done && queue[..][..tail] == queued;
    var x := queue[head];
    assert result[..head] == done by { assert result[..][..head] == result[..head]; }
    result[head] := x;
    assert queued[..head + 1] == done + [x];
    newTail := Release(entries, x, queue, tail, done);
    StillDependenciesFirst(g, Degrees(entries[..]), done + [x], queued, queue[..newTail]);
    assert queue[..][..newTail] == queue[..newTail];
    assert queue[..][..head + 1] == queued[..head + 1];
    assert result[..][..head + 1] == done + [x];
  }

  /** None exactly when the dependencies are cyclic, otherwise an order with every dependency first. */
  method TopologicalSort(entries: array<Entry>) returns (order: Option<seq<nat>>)
    requires WellFormed(Deps(entries[..]))
    modifies entries
    ensures SameButDegrees(entries[..], old(entries[..]))
    ensures order.None? <==> HasCycle(Deps(old(entries[..])))
    ensures order.Some? ==> TopologicalOrder(Deps(old(entries[..])), order.value)
  {
    ghost var g := Deps(entries[..]);
    var n := entries.Length;
    var result := new nat[n];
    var resultCount := 0;
    InitialDegrees(entries);
    var queue := new nat[n];
    assert Deps(entries[..]) == g;
    var tail := SeedQueue(entries, queue);
    assert queue[..][..0] == [] && result[..][..0] == [] && queue[..][..tail] == queue[..tail];
    var head := 0;
    while head < tail
      invariant head == resultCount
      invariant SameButDegrees(entries[..], old(entries[..]))
      invariant Draining(g, Degrees(entries[..]), queue[..], result[..], head, tail)
      decreases n - head
    {
      assert Deps(entries[..]) == g;
      tail := Dequeue(entries, queue, result, head, tail);
      head := head + 1;
      resultCount := resultCount + 1;
    }
    if resultCount != n {
      CountedStuck(g, Degrees(entries[..]), queue[..][..head]);
      StuckMeansCycle(g, queue[..][..head]);
      return None;
    }
    assert result[..] == queue[..][..head];
    OrderExcludesCycles(g, result[..]);
    return Some(result[..]);
  }
}
