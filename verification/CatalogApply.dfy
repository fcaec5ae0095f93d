/** Applying the sorted resources and passing refreshes along notification edges. */
module CatalogApply {
  import opened Common
  import opened CatalogGraph
  import opened CatalogEntries

  datatype Outcome = Success | Changed | Noop | Skipped | Failed

  /** A provider call that the run makes. */
  datatype Call = Apply(resource: nat) | Refresh(resource: nat)

  /** In noop mode a pending change is reported as Skipped, so both count as a change. */
  predicate Changes(o: Outcome) {
    o.Changed? || o.Skipped?
  }

  /** Entries and an order that a run can start with. */
  ghost predicate Ready(es: seq<Entry>, order: seq<nat>) {
    && Permutation(order, |es|)
    && (forall i :: 0 <= i < |es| ==> AllBelow(es[i].notifies, |es|) && i !in es[i].notifies)
    && (forall i :: 0 <= i < |es| ==> !es[i].applied && !es[i].changed && !es[i].needsRefresh)
  }

  /** What a run is given: the entries, an order, and what each provider call will answer. */
  datatype Run = Run(es: seq<Entry>, order: seq<nat>, apply: seq<Outcome>, refresh: seq<Outcome>) {
    ghost predicate Valid() {
      Ready(es, order) && |apply| == |es| && |refresh| == |es|
    }

    ghost predicate Starts(i: nat) requires Valid() && i < |es| {
      es[i].resource.Some? && Changes(apply[i])
    }

    ghost predicate Refreshable(i: nat) requires Valid() && i < |es| {
      es[i].resource.Some? && apply[i] != Failed
    }

    /** The resource at position j ends up changed: by its own apply, or by a refresh that an earlier changed one asked for. */
    ghost predicate ChangedAt(j: nat)
      requires Valid() && j < |order|
      decreases j, 2
    {
      Starts(order[j]) || (RefreshedAt(j) && Changes(refresh[order[j]]))
    }

    /** The resource at position j is refreshed: its apply did not fail and a changed resource before it notifies it. */
    ghost predicate RefreshedAt(j: nat)
      requires Valid() && j < |order|
      decreases j, 1
    {
      Refreshable(order[j]) && NotifiedBefore(j, order[j])
    }

    ghost predicate NotifiedBefore(k: nat, x: nat)
      requires Valid() && k <= |order|
      decreases k, 0
    {
      exists m :: 0 <= m < k && ChangedAt(m) && x in es[order[m]].notifies
    }

    /** The provider calls for the first k positions. */
    ghost function Calls(k: nat): seq<Call>
      requires Valid() && k <= |order|
    {
      if k == 0 then []
      else
        var x := order[k - 1];
        Calls(k - 1)
        + (if es[x].resource.Some? then [Apply(x)] else [])
        + (if RefreshedAt(k - 1) then [Refresh(x)] else [])
    }

    /** How many of the first k positions were refreshed and reported a change. */
    ghost function RefreshCount(k: nat): nat
      requires Valid() && k <= |order|
    {
      if k == 0 then 0
      else RefreshCount(k - 1) + if RefreshedAt(k - 1) && Changes(refresh[order[k - 1]]) then 1 else 0
    }

    /** How many of the first k positions hold a parsed resource. */
    ghost function ApplyCount(k: nat): nat
      requires Valid() && k <= |order|
    {
      if k == 0 then 0 else ApplyCount(k - 1) + if es[order[k - 1]].resource.Some? then 1 else 0
    }

    /** The flags after the first k positions were processed. */
    ghost predicate Progress(now: seq<Entry>, k: nat)
      requires Valid() && k <= |order|
    {
      && |now| == |es|
      && (forall i :: 0 <= i < |es| ==> now[i].resource == es[i].resource && now[i].notifies == es[i].notifies)
      && (forall j :: 0 <= j < k ==> (now[order[j]].changed <==> ChangedAt(j)))
      && (forall j :: 0 <= j < k ==> (now[order[j]].applied <==> es[order[j]].resource.Some?))
      && (forall j :: k <= j < |order| ==> !now[order[j]].changed && !now[order[j]].applied)
      && (forall j :: k <= j < |order| ==> (now[order[j]].needsRefresh <==> NotifiedBefore(k, order[j])))
    }

    /** What processing position k does to the entries. */
    ghost predicate Stepped(before: seq<Entry>, after: seq<Entry>, k: nat)
      requires Valid() && k < |order| && |before| == |es|
    {
      var x := order[k];
      && |after| == |es|
      && (forall i :: 0 <= i < |es| ==> after[i].resource == before[i].resource && after[i].notifies == before[i].notifies)
      && after[x].changed == ChangedAt(k) && after[x].applied == es[x].resource.Some?
      && (forall i :: 0 <= i < |es| && i != x ==> after[i].changed == before[i].changed && after[i].applied == before[i].applied)
      && (forall i :: 0 <= i < |es| && i != x && !before[i].applied ==>
            (after[i].needsRefresh <==> before[i].needsRefresh || (ChangedAt(k) && i in es[x].notifies)))
    }

    lemma ProgressStep(before: seq<Entry>, after: seq<Entry>, k: nat)
      requires Valid() && k < |order| && Progress(before, k) && Stepped(before, after, k)
      ensures Progress(after, k + 1)
    {
      forall j | k + 1 <= j < |order|
        ensures after[order[j]].needsRefresh <==> NotifiedBefore(k + 1, order[j])
      {
        assert order[j] != order[k];
        assert before[order[j]].needsRefresh <==> NotifiedBefore(k, order[j]);
        assert NotifiedBefore(k + 1, order[j]) <==> NotifiedBefore(k, order[j]) || (ChangedAt(k) && order[j] in es[order[k]].notifies);
      }
    }
  }

  /** Of the resources that had their turn already, only the first round of marks reaches the targets. */
  ghost predicate LateMarks(run: Run, before: seq<Entry>, after: seq<Entry>, x: nat)
    requires run.Valid() && x < |run.es| == |before| == |after|
  {
    forall i :: 0 <= i < |before| && i != x && before[i].applied ==>
      (after[i].needsRefresh <==> before[i].needsRefresh || (run.Starts(x) && i in run.es[x].notifies))
  }

  /** Where a turn starts, and what it has to find out. */
  lemma TurnStarts(run: Run, now: seq<Entry>, k: nat)
    requires run.Valid() && k < |run.order| && run.Progress(now, k)
    ensures var x := run.order[k];
            && x < |run.es| == |now| && now[x].resource == run.es[x].resource && now[x].notifies == run.es[x].notifies
            && AllBelow(now[x].notifies, |now|) && x !in now[x].notifies
            && !now[x].changed && !now[x].applied && (now[x].needsRefresh <==> run.NotifiedBefore(k, x))
            && (run.ChangedAt(k) <==> run.Starts(x) || (run.RefreshedAt(k) && Changes(run.refresh[x])))
            && (run.RefreshedAt(k) <==> run.Refreshable(x) && run.NotifiedBefore(k, x))
  {
  }

  lemma RunStarts(run: Run)
    requires run.Valid()
    ensures run.Progress(run.es, 0)
    ensures run.Calls(0) == [] && run.ApplyCount(0) == 0 && run.RefreshCount(0) == 0
  {
  }

  /** What one turn adds to the calls and the counters. */
  lemma TurnCounts(run: Run, k: nat)
    requires run.Valid() && k < |run.order|
    ensures var x := run.order[k];
            && run.Calls(k + 1) == run.Calls(k) + ((if run.es[x].resource.Some? then [Apply(x)] else [])
                                                   + (if run.RefreshedAt(k) then [Refresh(x)] else []))
            && run.ApplyCount(k + 1) == run.ApplyCount(k) + (if run.es[x].resource.Some? then 1 else 0)
            && run.RefreshCount(k + 1) == run.RefreshCount(k) + if run.RefreshedAt(k) && Changes(run.refresh[x]) then 1 else 0
  {
    hide run.RefreshedAt;
  }

  ghost predicate Marked(before: seq<Entry>, after: seq<Entry>, targets: seq<nat>, onlyUnapplied: bool) {
    && |after| == |before|
    && (forall i :: 0 <= i < |before| ==> after[i] == before[i].(needsRefresh := after[i].needsRefresh))
    && (forall i :: 0 <= i < |before| ==>
          (after[i].needsRefresh <==> before[i].needsRefresh || (i in targets && (onlyUnapplied ==> !before[i].applied))))
  }

  /** Mark every notify target for refresh, or only those not applied yet. */
  method MarkTargets(entries: array<Entry>, targets: seq<nat>, onlyUnapplied: bool)
    requires AllBelow(targets, entries.Length)
    modifies entries
    ensures Marked(old(entries[..]), entries[..], targets, onlyUnapplied)
  {
    var j := 0;
    while j < |targets|
      invariant j <= |targets|
      invariant Marked(old(entries[..]), entries[..], targets[..j], onlyUnapplied)
    {
      var target := targets[j];
      if !onlyUnapplied || !entries[target].applied {
        entries[target] := entries[target].(needsRefresh := true);
      }
      assert targets[..j + 1] == targets[..j] + [target];
      j := j + 1;
    }
    assert targets[..|targets|] == targets;
  }

  /** One turn of the apply loop; `calls` are the provider calls it makes. */
  method ApplyOne(entries: array<Entry>, idx: nat, applyOut: Outcome, refreshOut: Outcome, ghost run: Run, ghost k: nat)
    returns (calls: seq<Call>, refreshed: nat)
    requires run.Valid() && k < |run.order| && run.order[k] == idx
    requires run.apply[idx] == applyOut && run.refresh[idx] == refreshOut
    requires run.Progress(entries[..], k)
    modifies entries
    ensures run.Stepped(old(entries[..]), entries[..], k) && LateMarks(run, old(entries[..]), entries[..], idx)
    ensures calls == (if run.es[idx].resource.Some? then [Apply(idx)] else [])
                     + (if run.RefreshedAt(k) then [Refresh(idx)] else [])
    ensures refreshed == if run.RefreshedAt(k) && Changes(refreshOut) then 1 else 0
  {
    hide run.Valid, run.Progress, run.ChangedAt, run.RefreshedAt, run.NotifiedBefore;
    TurnStarts(run, entries[..], k);
    calls, refreshed := [], 0;
    if entries[idx].resource.None? {
      return;
    }
    calls := [Apply(idx)];
    if Changes(applyOut) {
      entries[idx] := entries[idx].(changed := true);
      MarkTargets(entries, entries[idx].notifies, false);
    }
    if entries[idx].needsRefresh && applyOut != Failed {
      calls := calls + [Refresh(idx)];
      if Changes(refreshOut) {
        entries[idx] := entries[idx].(changed := true);
        refreshed := 1;
        MarkTargets(entries, entries[idx].notifies, true);
      }
    }
    entries[idx] := entries[idx].(applied := true);
  }

  /** The whole apply loop, for any order of the resources. */
  method ApplyInOrder(entries: array<Entry>, order: seq<nat>, apply: seq<Outcome>, refresh: seq<Outcome>, ghost run: Run)
    returns (calls: seq<Call>, applied: nat, refreshed: nat)
    requires run == Run(entries[..], order, apply, refresh) && run.Valid()
    modifies entries
    ensures run.Progress(entries[..], |order|)
    ensures calls == run.Calls(|order|)
    ensures applied == run.ApplyCount(|order|) && refreshed == run.RefreshCount(|order|)
  {
    hide run.Progress, run.Stepped, run.Calls, run.ApplyCount, run.RefreshCount, run.RefreshedAt;
    calls, applied, refreshed := [], 0, 0;
    var k := 0;
    RunStarts(run);
    while k < |order|
      invariant k <= |order|
      invariant run.Progress(entries[..], k)
      invariant calls == run.Calls(k)
      invariant applied == run.ApplyCount(k) && refreshed == run.RefreshCount(k)
    {
      ghost var before := entries[..];
      var idx := order[k];
      TurnStarts(run, before, k);
      TurnCounts(run, k);
      if entries[idx].resource.Some? {
        applied := applied + 1;
      }
      var more, refreshes := ApplyOne(entries, idx, apply[idx], refresh[idx], run, k);
      calls, refreshed := calls + more, refreshed + refreshes;
      run.ProgressStep(before, entries[..], k);
      k := k + 1;
    }
  }
}
