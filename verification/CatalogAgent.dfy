/** Applying a whole catalog: record the requested links, sort, and run the providers. */
module CatalogAgent {
  import opened Common
  import opened CatalogGraph
  import opened CatalogEntries
  import opened CatalogLinks
  import opened CatalogExtract
  import opened CatalogRequests
  import opened CatalogSort
  import opened CatalogApply
  import opened CatalogRefresh

  const MAX_RESOURCES: nat := 1024

  function ResourcesOf(ds: seq<Declared>): (rs: seq<Option<Resource>>)
    ensures |rs| == |ds|
  {
    seq(|ds|, i requires 0 <= i < |ds| => ds[i].resource)
  }

  function BlankEntries(ds: seq<Declared>): (es: seq<Entry>)
    ensures |es| == |ds|
    ensures Resources(es) == ResourcesOf(ds)
  {
    seq(|ds|, i requires 0 <= i < |ds| => Blank(ds[i].resource))
  }

  ghost function LinksOf(ds: seq<Declared>, edges: seq<ChainEdge>): (ls: seq<Link>)
    ensures LinksBelow(ls, |ds|)
  {
    RequestedLinks(ResourcesOf(ds), ds, edges)
  }

  /** The refresh plan the catalog asks for, before any list is bounded or sorted. */
  ghost function RequestedPlan(ds: seq<Declared>, edges: seq<ChainEdge>, apply: seq<Outcome>, refresh: seq<Outcome>): (plan: Plan)
    requires |apply| == |refresh| == |ds|
    ensures plan.Valid() && |plan.parsed| == |ds|
  {
    Plan(seq(|ds|, i requires 0 <= i < |ds| => ds[i].resource.Some?),
         seq(|ds|, i requires 0 <= i < |ds| => Notified(LinksOf(ds, edges), i)),
         apply, refresh)
  }

  ghost predicate RequestsCycle(links: seq<Link>) {
    exists p :: LinkCycle(links, p)
  }

  /** Every requested dependency comes before its dependent. */
  ghost predicate Respects(order: seq<nat>, links: seq<Link>) {
    forall j, d :: 0 <= j < |order| && d in Sources(links, order[j]) ==> d in order[..j]
  }

  ghost predicate RunsBefore(order: seq<nat>, o: nat, i: nat) {
    exists a, b :: 0 <= a < b < |order| && order[a] == o && order[b] == i
  }

  /** Whatever asks to come after something else, by a metaparameter, an edge or its path, runs after it. */
  ghost predicate RequestsKept(order: seq<nat>, ds: seq<Declared>, edges: seq<ChainEdge>) {
    forall o, i :: AsksAfter(ResourcesOf(ds), ds, edges, o, i) ==> RunsBefore(order, o, i)
  }

  /** An order respects the links exactly when it keeps every request. */
  lemma RequestsKeptExactly(order: seq<nat>, ds: seq<Declared>, edges: seq<ChainEdge>)
    requires Permutation(order, |ds|)
    ensures RequestsKept(order, ds, edges) <==> Respects(order, LinksOf(ds, edges))
  {
    hide AsksAfter, AsksRefresh, Sources, Notified, RequestedLinks;
    var links := LinksOf(ds, edges);
    if Respects(order, links) {
      forall o, i | AsksAfter(ResourcesOf(ds), ds, edges, o, i)
        ensures RunsBefore(order, o, i)
      {
        RequestsExactly(ResourcesOf(ds), ds, edges, o, i);
        SourcesBelow(links, |ds|, o, i);
        PermutationCovers(order, |ds|, i);
        assert o in order[..Position(order, i)];
      }
    }
    if RequestsKept(order, ds, edges) {
      forall j, d | 0 <= j < |order| && d in Sources(links, order[j])
        ensures d in order[..j]
      {
        RequestsExactly(ResourcesOf(ds), ds, edges, d, order[j]);
        var a, b :| 0 <= a < b < |order| && order[a] == d && order[b] == order[j];
        assert order[..j][a] == d;
      }
    }
  }

  lemma SourcesBelow(links: seq<Link>, n: nat, o: nat, i: nat)
    requires LinksBelow(links, n) && o in Sources(links, i)
    ensures o < n && i < n
  {
  }

  /** The plan refreshes along exactly the requested notifications. */
  lemma PlanFollowsRequests(ds: seq<Declared>, edges: seq<ChainEdge>, apply: seq<Outcome>, refresh: seq<Outcome>, o: nat, i: nat)
    requires |apply| == |refresh| == |ds| && o < |ds|
    ensures var plan := RequestedPlan(ds, edges, apply, refresh);
            && (i in plan.targets[o] <==> AsksRefresh(ResourcesOf(ds), ds, edges, o, i))
            && plan.parsed[o] == ds[o].resource.Some?
  {
    hide AsksAfter, AsksRefresh, Notified, RequestedLinks;
    RequestsExactly(ResourcesOf(ds), ds, edges, o, i);
    assert RequestedPlan(ds, edges, apply, refresh).targets[o] == Notified(LinksOf(ds, edges), o);
  }

  datatype Report = Report(order: seq<nat>, calls: seq<Call>, applied: nat, refreshed: nat)

  /** The calls and the two counters are those of the apply loop over the recorded entries, in the reported order. */
  ghost predicate RanAs(r: Report, run: Run, ds: seq<Declared>, edges: seq<ChainEdge>) {
    && run.Valid() && Extracted(run.es, ds, LinksOf(ds, edges)) && run.order == r.order
    && r.calls == run.Calls(|r.order|)
    && r.applied == run.ApplyCount(|r.order|) && r.refreshed == run.RefreshCount(|r.order|)
  }

  /** What the lists hold and the flags say between extraction and sorting. */
  ghost predicate Extracted(es: seq<Entry>, ds: seq<Declared>, links: seq<Link>) {
    && |es| == |ds|
    && Recorded(es, links)
    && Resources(es) == ResourcesOf(ds)
    && (forall i :: 0 <= i < |es| ==> !es[i].applied && !es[i].changed && !es[i].needsRefresh)
  }

  lemma {:induction false} RecordAllKeepsFlags(es: seq<Entry>, links: seq<Link>)
    requires LinksBelow(links, |es|)
    requires forall i :: 0 <= i < |es| ==> !es[i].applied && !es[i].changed && !es[i].needsRefresh
    ensures forall i :: 0 <= i < |es| ==>
              var e := RecordAll(es, links)[i]; !e.applied && !e.changed && !e.needsRefresh
  {
    if links != [] {
      RecordAllKeepsFlags(es, links[..|links| - 1]);
    }
  }

  /** The entries after extraction, before sorting. */
  ghost function Loaded(ds: seq<Declared>, edges: seq<ChainEdge>): (es: seq<Entry>)
    ensures Extracted(es, ds, LinksOf(ds, edges))
  {
    RecordAllRecords(BlankEntries(ds), LinksOf(ds, edges));
    RecordAllKeepsFlags(BlankEntries(ds), LinksOf(ds, edges));
    RecordAllResources(BlankEntries(ds), LinksOf(ds, edges));
    RecordAll(BlankEntries(ds), LinksOf(ds, edges))
  }

  method LoadEntries(ds: seq<Declared>, edges: seq<ChainEdge>) returns (entries: array<Entry>)
    ensures fresh(entries)
    ensures entries[..] == Loaded(ds, edges)
  {
    entries := new Entry[|ds|](i requires 0 <= i < |ds| => Blank(ds[i].resource));
    assert entries[..] == BlankEntries(ds);
    ExtractLinks(entries, ds, edges);
  }

  /** The order the resources run in: sorted, or as written when the graph has a cycle. */
  method ChooseOrder(entries: array<Entry>, ghost ds: seq<Declared>, ghost links: seq<Link>) returns (order: seq<nat>)
    requires Extracted(entries[..], ds, links) && LinksBelow(links, |ds|)
    modifies entries
    ensures Extracted(entries[..], ds, links)
    ensures Permutation(order, |ds|)
    ensures DependenciesFit(links, |ds|) ==>
              if RequestsCycle(links) then order == seq(|ds|, i => i) else Respects(order, links)
  {
    ghost var es := entries[..];
    RecordedWellFormed(es, links);
    var sorted := TopologicalSort(entries);
    assert Resources(entries[..]) == Resources(es);
    assert Deps(entries[..]) == Deps(es);
    if sorted.Some? {
      order := sorted.value;
    } else {
      order := seq(entries.Length, i => i);
    }
    if DependenciesFit(links, |ds|) {
      CyclesAreRequested(es, links);
      if sorted.Some? {
        SortedRespects(es, links, order);
      }
    }
  }

  lemma SortedRespects(es: seq<Entry>, links: seq<Link>, order: seq<nat>)
    requires Recorded(es, links) && LinksBelow(links, |es|) && DependenciesFit(links, |es|)
    requires TopologicalOrder(Deps(es), order)
    ensures Respects(order, links)
  {
    forall j, d | 0 <= j < |order| && d in Sources(links, order[j])
      ensures d in order[..j]
    {
      HoldsExactly(es[order[j]].deps, Sources(links, order[j]), MAX_DEPS);
      assert d in Elements(es[order[j]].deps);
      assert d in Deps(es)[order[j]];
    }
  }

  lemma RespectsPutsNotifiersFirst(run: Run, links: seq<Link>)
    requires run.Valid() && Recorded(run.es, links) && LinksBelow(links, |run.es|)
    requires Respects(run.order, links)
    ensures NotifiersFirst(run.es, run.order)
  {
    forall a, b | 0 <= a < |run.order| && 0 <= b < |run.order| && NotifiesAt(run.es, run.order, a, b)
      ensures a < b
    {
      assert run.order[b] in Elements(run.es[run.order[a]].notifies);
      assert run.order[a] in Sources(links, run.order[b]);
      assert run.order[a] in run.order[..b];
    }
  }

  lemma PlanIsRequested(run: Run, ds: seq<Declared>, edges: seq<ChainEdge>)
    requires run.Valid() && Extracted(run.es, ds, LinksOf(ds, edges))
    requires NotificationsFit(LinksOf(ds, edges), |ds|)
    ensures PlanOf(run) == RequestedPlan(ds, edges, run.apply, run.refresh)
  {
    var links := LinksOf(ds, edges);
    forall i | 0 <= i < |ds|
      ensures Elements(run.es[i].notifies) == Notified(links, i)
      ensures run.es[i].resource == ds[i].resource
    {
      HoldsExactly(run.es[i].notifies, Notified(links, i), MAX_NOTIFY);
      assert Resources(run.es)[i] == ResourcesOf(ds)[i];
    }
  }

  ghost predicate AsksToNotify(ds: seq<Declared>, links: seq<Link>, i: nat, t: nat)
    requires i < |ds| && t < |ds|
  {
    ds[i].resource.Some? && ds[t].resource.Some? && t in Notified(links, i)
  }

  /** Every parsed resource stands after the parsed resources that are asked to notify it. */
  ghost predicate NotifiersInOrder(order: seq<nat>, ds: seq<Declared>, links: seq<Link>)
    requires Permutation(order, |ds|)
  {
    forall a, b :: 0 <= a < |order| && 0 <= b < |order| && AsksToNotify(ds, links, order[a], order[b]) ==> a < b
  }

  lemma NotifiersAreRequested(es: seq<Entry>, order: seq<nat>, ds: seq<Declared>, links: seq<Link>)
    requires Ready(es, order) && Extracted(es, ds, links) && NotificationsFit(links, |ds|)
    ensures NotifiersFirst(es, order) <==> NotifiersInOrder(order, ds, links)
  {
    forall a, b | 0 <= a < |order| && 0 <= b < |order|
      ensures NotifiesAt(es, order, a, b) <==> AsksToNotify(ds, links, order[a], order[b])
    {
      HoldsExactly(es[order[a]].notifies, Notified(links, order[a]), MAX_NOTIFY);
      assert order[b] in es[order[a]].notifies <==> order[b] in Elements(es[order[a]].notifies);
      assert Resources(es)[order[a]] == ResourcesOf(ds)[order[a]] && Resources(es)[order[b]] == ResourcesOf(ds)[order[b]];
    }
  }

  lemma ExtractedIsReady(es: seq<Entry>, order: seq<nat>, ds: seq<Declared>, links: seq<Link>)
    requires Extracted(es, ds, links) && LinksBelow(links, |ds|) && Permutation(order, |ds|)
    ensures Ready(es, order)
  {
    RecordedWellFormed(es, links);
    forall i | 0 <= i < |es|
      ensures AllBelow(es[i].notifies, |es|)
    {
      assert Notifies(es)[i] == es[i].notifies;
    }
  }

  /** Whatever the providers answer, a catalog run in this order refreshes exactly what it asks for. */
  ghost predicate ReportsExactly(order: seq<nat>, ds: seq<Declared>, edges: seq<ChainEdge>) {
    forall r, es, apply, refresh, i ::
      RanAs(r, Run(es, order, apply, refresh), ds, edges) && 0 <= i < |ds| ==>
        ReportedAsPlanned(r, ds, edges, apply, refresh, i)
  }

  ghost predicate ReportedAsPlanned(r: Report, ds: seq<Declared>, edges: seq<ChainEdge>,
                                    apply: seq<Outcome>, refresh: seq<Outcome>, i: nat)
  {
    |apply| == |refresh| == |ds| && i < |ds| &&
    (Refresh(i) in r.calls <==> RequestedPlan(ds, edges, apply, refresh).EndsRefreshed(i))
  }

  lemma RunIsReported(r: Report, run: Run, ds: seq<Declared>, edges: seq<ChainEdge>, j: nat)
    requires RanAs(r, run, ds, edges) && NotificationsFit(LinksOf(ds, edges), |ds|) && j < |run.order|
    ensures ReportedAsPlanned(r, ds, edges, run.apply, run.refresh, run.order[j]) <==> RefreshedAsPlanned(run, j)
  {
    CallsMade(run, |run.order|, run.order[j]);
    PositionUnique(run.order, j);
    PlanIsRequested(run, ds, edges);
  }

  /**
   * An order, such as the written one that a cyclic catalog falls back to, keeps every refresh exactly when the parsed
   * notifiers stand before what they notify.
   */
  lemma RefreshesReportedExactly(order: seq<nat>, ds: seq<Declared>, edges: seq<ChainEdge>)
    requires Permutation(order, |ds|) && NotificationsFit(LinksOf(ds, edges), |ds|)
    ensures ReportsExactly(order, ds, edges) <==> NotifiersInOrder(order, ds, LinksOf(ds, edges))
  {
    var links := LinksOf(ds, edges);
    if NotifiersInOrder(order, ds, links) {
      forall r, es, apply, refresh, i | RanAs(r, Run(es, order, apply, refresh), ds, edges) && 0 <= i < |ds|
        ensures ReportedAsPlanned(r, ds, edges, apply, refresh, i)
      {
        InOrderIsReported(r, Run(es, order, apply, refresh), ds, edges, i);
      }
    }
    if ReportsExactly(order, ds, edges) {
      var es := Loaded(ds, edges);
      ExtractedIsReady(es, order, ds, links);
      forall apply, refresh, j | |apply| == |es| && |refresh| == |es| && 0 <= j < |order|
        ensures RefreshedAsPlanned(Run(es, order, apply, refresh), j)
      {
        var run := Run(es, order, apply, refresh);
        var r := Report(order, run.Calls(|order|), run.ApplyCount(|order|), run.RefreshCount(|order|));
        assert RanAs(r, run, ds, edges);
        assert ReportedAsPlanned(r, ds, edges, apply, refresh, order[j]);
        RunIsReported(r, run, ds, edges, j);
      }
      RefreshesKeptExactly(es, order);
      NotifiersAreRequested(es, order, ds, links);
    }
  }

  lemma InOrderIsReported(r: Report, run: Run, ds: seq<Declared>, edges: seq<ChainEdge>, i: nat)
    requires RanAs(r, run, ds, edges) && NotificationsFit(LinksOf(ds, edges), |ds|) && i < |ds|
    requires NotifiersInOrder(run.order, ds, LinksOf(ds, edges))
    ensures ReportedAsPlanned(r, ds, edges, run.apply, run.refresh, i)
  {
    NotifiersAreRequested(run.es, run.order, ds, LinksOf(ds, edges));
    PermutationCovers(run.order, |ds|, i);
    var j := Position(run.order, i);
    RefreshedIffNotified(run, j);
    RunIsReported(r, run, ds, edges, j);
  }

  /** What a run of an extracted catalog promises about its provider calls. */
  lemma CallsAreRight(run: Run, ds: seq<Declared>, edges: seq<ChainEdge>, i: nat)
    requires run.Valid() && Extracted(run.es, ds, LinksOf(ds, edges)) && i < |ds|
    ensures var calls := run.Calls(|run.order|);
            && (Apply(i) in calls <==> ds[i].resource.Some?)
            && (Respects(run.order, LinksOf(ds, edges)) && NotificationsFit(LinksOf(ds, edges), |ds|) ==>
                  (Refresh(i) in calls <==> RequestedPlan(ds, edges, run.apply, run.refresh).EndsRefreshed(i)))
  {
    PermutationCovers(run.order, |run.es|, i);
    CallsMade(run, |run.order|, i);
    assert Resources(run.es)[i] == ResourcesOf(ds)[i];
    if Respects(run.order, LinksOf(ds, edges)) && NotificationsFit(LinksOf(ds, edges), |ds|) {
      RespectsPutsNotifiersFirst(run, LinksOf(ds, edges));
      RefreshedIffNotified(run, Position(run.order, i));
      PlanIsRequested(run, ds, edges);
    }
  }

  /**
   * Catalogs over the limit are refused. Otherwise each parsed resource is applied once; without overflow or cycle every
   * requested dependency comes first and exactly the resources that a refresh path reaches are refreshed.
   */
  method ApplyCatalog(ds: seq<Declared>, edges: seq<ChainEdge>, apply: seq<Outcome>, refresh: seq<Outcome>)
    returns (report: Option<Report>)
    requires |apply| == |refresh| == |ds|
    ensures report.None? <==> |ds| > 1024
    ensures report.Some? ==> Permutation(report.value.order, |ds|) && Distinct(report.value.calls)
    ensures report.Some? ==> exists es :: RanAs(report.value, Run(es, report.value.order, apply, refresh), ds, edges)
    ensures report.Some? ==> forall i :: 0 <= i < |ds| ==> (Apply(i) in report.value.calls <==> ds[i].resource.Some?)
    ensures report.Some? && DependenciesFit(LinksOf(ds, edges), |ds|) ==>
              if RequestsCycle(LinksOf(ds, edges)) then report.value.order == seq(|ds|, i => i)
              else Respects(report.value.order, LinksOf(ds, edges)) && RequestsKept(report.value.order, ds, edges)
    ensures report.Some? && DependenciesFit(LinksOf(ds, edges), |ds|) && NotificationsFit(LinksOf(ds, edges), |ds|)
              && !RequestsCycle(LinksOf(ds, edges)) ==>
              forall i :: 0 <= i < |ds| ==>
                (Refresh(i) in report.value.calls <==> RequestedPlan(ds, edges, apply, refresh).EndsRefreshed(i))
    ensures report.Some? && NotificationsFit(LinksOf(ds, edges), |ds|)
              && NotifiersInOrder(report.value.order, ds, LinksOf(ds, edges)) ==>
              forall i :: 0 <= i < |ds| ==> ReportedAsPlanned(report.value, ds, edges, apply, refresh, i)
  {
    if |ds| > MAX_RESOURCES {
      return None;
    }
    hide Extracted, LinksOf, NotifiersInOrder, Respects, RequestsKept, RequestsCycle, RequestedPlan, RanAs, ReportedAsPlanned,
      Permutation, Distinct, DependenciesFit, NotificationsFit;
    var entries := LoadEntries(ds, edges);
    var order := ChooseOrder(entries, ds, LinksOf(ds, edges));
    ghost var es := entries[..];
    var r := RunExtracted(entries, order, apply, refresh, ds, edges);
    ReportPromises(r, Run(es, order, apply, refresh), ds, edges);
    RequestsKeptExactly(order, ds, edges);
    return Some(r);
  }

  method RunExtracted(entries: array<Entry>, order: seq<nat>, apply: seq<Outcome>, refresh: seq<Outcome>,
                      ghost ds: seq<Declared>, ghost edges: seq<ChainEdge>)
    returns (r: Report)
    requires Extracted(entries[..], ds, LinksOf(ds, edges)) && Permutation(order, |ds|)
    requires |apply| == |refresh| == |ds|
    modifies entries
    ensures r.order == order && RanAs(r, Run(old(entries[..]), order, apply, refresh), ds, edges)
  {
    ghost var run := Run(entries[..], order, apply, refresh);
    ExtractedIsReady(run.es, order, ds, LinksOf(ds, edges));
    var calls, applied, refreshed := ApplyInOrder(entries, order, apply, refresh, run);
    return Report(order, calls, applied, refreshed);
  }

  /** What every report of a run promises. */
  lemma ReportPromises(r: Report, run: Run, ds: seq<Declared>, edges: seq<ChainEdge>)
    requires RanAs(r, run, ds, edges)
    ensures Distinct(r.calls)
    ensures forall i :: 0 <= i < |ds| ==> (Apply(i) in r.calls <==> ds[i].resource.Some?)
    ensures NotificationsFit(LinksOf(ds, edges), |ds|) && Respects(r.order, LinksOf(ds, edges)) ==>
              forall i :: 0 <= i < |ds| ==>
                (Refresh(i) in r.calls <==> RequestedPlan(ds, edges, run.apply, run.refresh).EndsRefreshed(i))
    ensures NotificationsFit(LinksOf(ds, edges), |ds|) && NotifiersInOrder(r.order, ds, LinksOf(ds, edges)) ==>
              forall i :: 0 <= i < |ds| ==> ReportedAsPlanned(r, ds, edges, run.apply, run.refresh, i)
  {
    CallsOnce(run, |run.order|);
    forall i | 0 <= i < |ds|
      ensures Apply(i) in r.calls <==> ds[i].resource.Some?
      ensures Respects(r.order, LinksOf(ds, edges)) && NotificationsFit(LinksOf(ds, edges), |ds|) ==>
                (Refresh(i) in r.calls <==> RequestedPlan(ds, edges, run.apply, run.refresh).EndsRefreshed(i))
    {
      CallsAreRight(run, ds, edges, i);
    }
    if NotificationsFit(LinksOf(ds, edges), |ds|) && NotifiersInOrder(r.order, ds, LinksOf(ds, edges)) {
      forall i | 0 <= i < |ds|
        ensures ReportedAsPlanned(r, ds, edges, run.apply, run.refresh, i)
      {
        InOrderIsReported(r, run, ds, edges, i);
      }
    }
  }
}
