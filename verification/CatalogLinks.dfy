/**
 * The ordering and notification links a catalog asks for, and how the agent's bounded lists record them.
 * A link says that `target` depends on `source`; a notifying link also lets `source` refresh `target`.
 */
module CatalogLinks {
  import opened Common
  import opened CatalogGraph
  import opened CatalogEntries

  datatype Link = Link(source: nat, target: nat, notifies: bool)

  /** A bounded, duplicate-free list takes one more element; a full list drops it silently. */
  function Put(list: seq<nat>, x: nat, capacity: nat): seq<nat> {
    if x in list || |list| >= capacity then list else list + [x]
  }

  function WithDependency(es: seq<Entry>, from: nat, to: nat): (r: seq<Entry>)
    requires from < |es|
    ensures |r| == |es|
  {
    if from == to then es else es[from := es[from].(deps := Put(es[from].deps, to, MAX_DEPS))]
  }

  function WithNotify(es: seq<Entry>, from: nat, to: nat): (r: seq<Entry>)
    requires from < |es|
    ensures |r| == |es|
  {
    if from == to then es else es[from := es[from].(notifies := Put(es[from].notifies, to, MAX_NOTIFY))]
  }

  ghost predicate LinksBelow(links: seq<Link>, n: nat) {
    forall k :: 0 <= k < |links| ==> links[k].source < n && links[k].target < n
  }

  function Record(es: seq<Entry>, l: Link): (r: seq<Entry>)
    requires l.source < |es| && l.target < |es|
    ensures |r| == |es|
  {
    var ordered := WithDependency(es, l.target, l.source);
    if l.notifies then WithNotify(ordered, l.source, l.target) else ordered
  }

  function RecordAll(es: seq<Entry>, links: seq<Link>): (r: seq<Entry>)
    requires LinksBelow(links, |es|)
    ensures |r| == |es|
  {
    if links == [] then es
    else Record(RecordAll(es, links[..|links| - 1]), links[|links| - 1])
  }

  lemma {:induction false} RecordAllAppend(es: seq<Entry>, a: seq<Link>, b: seq<Link>)
    requires LinksBelow(a, |es|) && LinksBelow(b, |es|)
    ensures RecordAll(es, a + b) == RecordAll(RecordAll(es, a), b)
  {
    if b == [] {
      assert a + b == a;
    } else {
      var init := b[..|b| - 1];
      RecordAllAppend(es, a, init);
      assert (a + b)[..|a + b| - 1] == a + init;
    }
  }

  /** The resources i is asked to depend on. */
  ghost function Sources(links: seq<Link>, i: nat): set<nat> {
    set k | 0 <= k < |links| && links[k].target == i && links[k].source != i :: links[k].source
  }

  /** The resources i is asked to notify. */
  ghost function Notified(links: seq<Link>, i: nat): set<nat> {
    set k | 0 <= k < |links| && links[k].notifies && links[k].source == i && links[k].target != i :: links[k].target
  }

  /** A bounded list holds `wanted`, or is full with some of it. */
  ghost predicate Holds(list: seq<nat>, wanted: set<nat>, capacity: nat) {
    && Distinct(list)
    && |list| <= capacity
    && Elements(list) <= wanted
    && (|list| < capacity ==> Elements(list) == wanted)
  }

  lemma PutHolds(list: seq<nat>, wanted: set<nat>, x: nat, capacity: nat)
    requires Holds(list, wanted, capacity)
    ensures Holds(Put(list, x, capacity), wanted + {x}, capacity)
  {
    assert Elements(list + [x]) == Elements(list) + {x};
    assert x in list ==> x in Elements(list);
  }

  /** A bounded list drops nothing exactly when what was asked for fits. */
  lemma HoldsExactly(list: seq<nat>, wanted: set<nat>, capacity: nat)
    requires Holds(list, wanted, capacity)
    ensures Elements(list) == wanted <==> |wanted| <= capacity
    ensures |list| == if |wanted| <= capacity then |wanted| else capacity
  {
    DistinctElementCount(list);
    SubsetCount(Elements(list), wanted);
  }

  /** Entries recorded from `links`, starting from empty lists. */
  ghost predicate Recorded(es: seq<Entry>, links: seq<Link>) {
    forall i :: 0 <= i < |es| ==>
      && Holds(es[i].deps, Sources(links, i), MAX_DEPS)
      && Holds(es[i].notifies, Notified(links, i), MAX_NOTIFY)
  }

  lemma SourcesSnoc(links: seq<Link>, l: Link, i: nat)
    ensures Sources(links + [l], i) == Sources(links, i) + (if l.target == i && l.source != i then {l.source} else {})
    ensures Notified(links + [l], i) ==
            Notified(links, i) + (if l.notifies && l.source == i && l.target != i then {l.target} else {})
  {
    var all := links + [l];
    assert all[|links|] == l;
    assert forall k :: 0 <= k < |links| ==> all[k] == links[k];
  }

  lemma RecordKeeps(es: seq<Entry>, links: seq<Link>, l: Link)
    requires Recorded(es, links) && l.source < |es| && l.target < |es|
    ensures Recorded(Record(es, l), links + [l])
  {
    var after := Record(es, l);
    forall i | 0 <= i < |es|
      ensures Holds(after[i].deps, Sources(links + [l], i), MAX_DEPS)
      ensures Holds(after[i].notifies, Notified(links + [l], i), MAX_NOTIFY)
    {
      SourcesSnoc(links, l, i);
      PutHolds(es[i].deps, Sources(links, i), l.source, MAX_DEPS);
      PutHolds(es[i].notifies, Notified(links, i), l.target, MAX_NOTIFY);
    }
  }

  /** Everything recorded was asked for, and nothing is missing from a list that is not full. */
  lemma {:induction false} RecordAllRecords(es: seq<Entry>, links: seq<Link>)
    requires LinksBelow(links, |es|)
    requires forall i :: 0 <= i < |es| ==> es[i].deps == [] && es[i].notifies == []
    ensures Recorded(RecordAll(es, links), links)
  {
    if links == [] {
      assert forall i :: Sources(links, i) == {} && Notified(links, i) == {};
    } else {
      var init, last := links[..|links| - 1], links[|links| - 1];
      RecordAllRecords(es, init);
      RecordKeeps(RecordAll(es, init), init, last);
      assert links == init + [last];
    }
  }

  lemma HoldsBelow(list: seq<nat>, wanted: set<nat>, capacity: nat, n: nat, i: nat)
    requires Holds(list, wanted, capacity)
    requires forall x :: x in wanted ==> x < n && x != i
    ensures AllBelow(list, n) && i !in list
  {
    forall k | 0 <= k < |list|
      ensures list[k] < n && list[k] != i
    {
      assert list[k] in Elements(list);
    }
  }

  lemma RecordedWellFormed(es: seq<Entry>, links: seq<Link>)
    requires Recorded(es, links) && LinksBelow(links, |es|)
    ensures WellFormed(Deps(es)) && WellFormed(Notifies(es))
    ensures forall i :: 0 <= i < |es| ==> i !in es[i].deps && i !in es[i].notifies
  {
    forall i | 0 <= i < |es|
      ensures AllBelow(es[i].deps, |es|) && i !in es[i].deps
      ensures AllBelow(es[i].notifies, |es|) && i !in es[i].notifies
    {
      HoldsBelow(es[i].deps, Sources(links, i), MAX_DEPS, |es|, i);
      HoldsBelow(es[i].notifies, Notified(links, i), MAX_NOTIFY, |es|, i);
    }
  }

  /** Each list takes what is asked for up to 64 resources, and no more. */
  lemma SixtyFourAreKept(es: seq<Entry>, links: seq<Link>, i: nat)
    requires Recorded(es, links) && i < |es|
    ensures var sources := Sources(links, i); |es[i].deps| == (if |sources| <= 64 then |sources| else 64)
    ensures var notified := Notified(links, i); |es[i].notifies| == (if |notified| <= 64 then |notified| else 64)
  {
    HoldsExactly(es[i].deps, Sources(links, i), MAX_DEPS);
    HoldsExactly(es[i].notifies, Notified(links, i), MAX_NOTIFY);
  }

  /** Every recorded notification has its dependency, unless the target's dependency list is full. */
  lemma NotifyHasDependency(es: seq<Entry>, links: seq<Link>, i: nat, t: nat)
    requires Recorded(es, links) && LinksBelow(links, |es|)
    requires i < |es| && t in es[i].notifies
    ensures t < |es| && (i in es[t].deps || |es[t].deps| == 64)
  {
    assert t in Elements(es[i].notifies);
    assert t in Notified(links, i);
    assert i in Sources(links, t);
    assert i in Elements(es[t].deps) || |es[t].deps| == MAX_DEPS;
  }

  /** No resource is asked to depend on more than fits in its list. */
  ghost predicate DependenciesFit(links: seq<Link>, n: nat) {
    forall i :: 0 <= i < n ==> |Sources(links, i)| <= 64
  }

  ghost predicate NotificationsFit(links: seq<Link>, n: nat) {
    forall i :: 0 <= i < n ==> |Notified(links, i)| <= 64
  }

  /** Each node is asked to depend on the next one, and the walk returns to its start. */
  ghost predicate LinkCycle(links: seq<Link>, p: seq<nat>) {
    && |p| >= 2 && p[0] == p[|p| - 1]
    && (forall k :: 0 <= k < |p| - 1 ==> p[k + 1] in Sources(links, p[k]))
  }

  /** When the lists did not overflow, the sorted graph has a cycle exactly when the catalog asked for one. */
  lemma CyclesAreRequested(es: seq<Entry>, links: seq<Link>)
    requires Recorded(es, links) && LinksBelow(links, |es|) && DependenciesFit(links, |es|)
    ensures HasCycle(Deps(es)) <==> exists p :: LinkCycle(links, p)
  {
    var g := Deps(es);
    forall i | 0 <= i < |es|
      ensures Elements(g[i]) == Sources(links, i)
    {
      HoldsExactly(es[i].deps, Sources(links, i), MAX_DEPS);
    }
    forall p | ClosedWalk(g, p)
      ensures LinkCycle(links, p)
    {
      forall k | 0 <= k < |p| - 1
        ensures p[k + 1] in Sources(links, p[k])
      {
        assert p[k + 1] in Elements(g[p[k]]);
      }
    }
    forall p | LinkCycle(links, p)
      ensures ClosedWalk(g, p)
    {
      forall k | 0 <= k < |p| - 1
        ensures p[k] < |g| && p[k + 1] in g[p[k]]
      {
        var m :| 0 <= m < |links| && links[m].target == p[k] && links[m].source == p[k + 1];
        assert p[k + 1] in Elements(g[p[k]]);
      }
    }
  }
}
