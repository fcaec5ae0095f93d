/** What a run means without its order: refreshes travel along paths of notifications. */
module CatalogRefresh {
  import opened Common
  import opened CatalogGraph
  import opened CatalogEntries
  import opened CatalogApply

  /** Everything about a run except its order; targets[i] are the resources that i notifies. */
  datatype Plan = Plan(parsed: seq<bool>, targets: seq<set<nat>>, apply: seq<Outcome>, refresh: seq<Outcome>) {
    ghost predicate Valid() {
      |parsed| == |targets| == |apply| == |refresh|
    }

    /** A first resource changed by its own apply, then only resources whose refresh goes through and changes them. */
    ghost predicate RefreshPath(p: seq<nat>) requires Valid() {
      && p != []
      && (forall k :: 0 <= k < |p| ==> p[k] < |parsed| && parsed[p[k]])
      && (apply[p[0]] == Changed || apply[p[0]] == Skipped)
      && (forall k :: 1 <= k < |p| ==>
            p[k] in targets[p[k - 1]] && apply[p[k]] != Failed && (refresh[p[k]] == Changed || refresh[p[k]] == Skipped))
    }

    ghost predicate EndsChanged(i: nat) requires Valid() {
      exists p :: RefreshPath(p) && p[|p| - 1] == i
    }

    /** The resource is parsed, its apply did not fail, and some resource that notifies it ends up changed. */
    ghost predicate EndsRefreshed(i: nat) requires Valid() && i < |parsed| {
      parsed[i] && apply[i] != Failed && exists n :: 0 <= n < |parsed| && EndsChanged(n) && i in targets[n]
    }
  }

  ghost function PlanOf(run: Run): (plan: Plan)
    requires run.Valid()
    ensures plan.Valid() && |plan.parsed| == |run.es|
  {
    Plan(seq(|run.es|, i requires 0 <= i < |run.es| => run.es[i].resource.Some?),
         seq(|run.es|, i requires 0 <= i < |run.es| => Elements(run.es[i].notifies)),
         run.apply, run.refresh)
  }

  /** The parsed resource at position a notifies the parsed resource at position b. */
  ghost predicate NotifiesAt(es: seq<Entry>, order: seq<nat>, a: nat, b: nat)
    requires Ready(es, order) && a < |order| && b < |order|
  {
    es[order[a]].resource.Some? && es[order[b]].resource.Some? && order[b] in es[order[a]].notifies
  }

  /** Every parsed notifier stands before the parsed resources it notifies. */
  ghost predicate NotifiersFirst(es: seq<Entry>, order: seq<nat>)
    requires Ready(es, order)
  {
    forall a, b :: 0 <= a < |order| && 0 <= b < |order| && NotifiesAt(es, order, a, b) ==> a < b
  }

  lemma PathSnoc(plan: Plan, p: seq<nat>, x: nat)
    requires plan.Valid() && plan.RefreshPath(p)
    requires x < |plan.parsed| && plan.parsed[x] && x in plan.targets[p[|p| - 1]]
    requires plan.apply[x] != Failed && Changes(plan.refresh[x])
    ensures plan.RefreshPath(p + [x])
    ensures plan.EndsChanged(x)
  {
    var q := p + [x];
    assert forall k :: 0 <= k < |p| ==> q[k] == p[k];
    assert plan.RefreshPath(q) && q[|q| - 1] == x;
  }

  lemma {:induction false} ChangedMeansPath(run: Run, j: nat)
    requires run.Valid() && NotifiersFirst(run.es, run.order) && j < |run.order| && run.ChangedAt(j)
    ensures PlanOf(run).EndsChanged(run.order[j])
    decreases j
  {
    var plan, x := PlanOf(run), run.order[j];
    if run.Starts(x) {
      assert plan.RefreshPath([x]);
    } else {
      assert run.NotifiedBefore(j, x);
      var m :| 0 <= m < j && run.ChangedAt(m) && x in run.es[run.order[m]].notifies;
      ChangedMeansPath(run, m);
      var p :| plan.RefreshPath(p) && p[|p| - 1] == run.order[m];
      PathSnoc(plan, p, x);
    }
  }

  lemma {:induction false} PathMeansChanged(run: Run, j: nat, p: seq<nat>)
    requires run.Valid() && NotifiersFirst(run.es, run.order) && j < |run.order|
    requires PlanOf(run).RefreshPath(p) && p[|p| - 1] == run.order[j]
    ensures run.ChangedAt(j)
    decreases j
  {
    if |p| == 1 {
      assert run.Starts(p[0]);
    } else {
      var q, x := p[..|p| - 1], run.order[j];
      var y := q[|q| - 1];
      assert PlanOf(run).RefreshPath(q);
      assert x == p[|p| - 1] && y == p[|p| - 1 - 1];
      assert x in Elements(run.es[y].notifies);
      PermutationCovers(run.order, |run.es|, y);
      var m := Position(run.order, y);
      assert NotifiesAt(run.es, run.order, m, j);
      PathMeansChanged(run, m, q);
      assert run.NotifiedBefore(j, x);
      assert run.RefreshedAt(j) && Changes(run.refresh[p[|p| - 1]]);
    }
  }

  /** A resource ends up changed exactly when a refresh path leads to it; the order does not matter. */
  lemma ChangedIffPath(run: Run, j: nat)
    requires run.Valid() && NotifiersFirst(run.es, run.order) && j < |run.order|
    ensures run.ChangedAt(j) <==> PlanOf(run).EndsChanged(run.order[j])
  {
    if run.ChangedAt(j) {
      ChangedMeansPath(run, j);
    }
    if PlanOf(run).EndsChanged(run.order[j]) {
      var p :| PlanOf(run).RefreshPath(p) && p[|p| - 1] == run.order[j];
      PathMeansChanged(run, j, p);
    }
  }

  /** No refresh is lost or spurious. */
  lemma RefreshedIffNotified(run: Run, j: nat)
    requires run.Valid() && NotifiersFirst(run.es, run.order) && j < |run.order|
    ensures run.RefreshedAt(j) <==> PlanOf(run).EndsRefreshed(run.order[j])
  {
    var plan, x := PlanOf(run), run.order[j];
    if run.RefreshedAt(j) {
      assert run.NotifiedBefore(j, x);
      var m :| 0 <= m < j && run.ChangedAt(m) && x in run.es[run.order[m]].notifies;
      ChangedIffPath(run, m);
      assert x in plan.targets[run.order[m]];
    }
    if plan.EndsRefreshed(x) {
      var n :| 0 <= n < |plan.parsed| && plan.EndsChanged(n) && x in plan.targets[n];
      PermutationCovers(run.order, |run.es|, n);
      var m := Position(run.order, n);
      var p :| plan.RefreshPath(p) && p[|p| - 1] == n;
      assert x in run.es[run.order[m]].notifies;
      assert NotifiesAt(run.es, run.order, m, j);
      ChangedIffPath(run, m);
      assert x in run.es[run.order[m]].notifies;
    }
  }

  /** Two valid orders of the same plan end with the same changed flags and the same set of refreshes. */
  lemma RefreshIsConfluent(a: Run, b: Run, aEnd: seq<Entry>, bEnd: seq<Entry>, i: nat)
    requires a.Valid() && b.Valid() && b == a.(order := b.order)
    requires NotifiersFirst(a.es, a.order) && NotifiersFirst(b.es, b.order) && i < |a.es|
    requires a.Progress(aEnd, |a.order|) && b.Progress(bEnd, |b.order|)
    ensures aEnd[i].changed == bEnd[i].changed
    ensures Refresh(i) in a.Calls(|a.order|) <==> Refresh(i) in b.Calls(|b.order|)
  {
    PermutationCovers(a.order, |a.es|, i);
    PermutationCovers(b.order, |b.es|, i);
    ChangedIffPath(a, Position(a.order, i));
    ChangedIffPath(b, Position(b.order, i));
    RefreshedIffNotified(a, Position(a.order, i));
    RefreshedIffNotified(b, Position(b.order, i));
    CallsMade(a, |a.order|, i);
    CallsMade(b, |b.order|, i);
  }

  /** The calls made for resource i once its position is passed: apply when parsed, refresh when notified. */
  lemma {:induction false} CallsMade(run: Run, k: nat, i: nat)
    requires run.Valid() && k <= |run.order| && i in run.order
    ensures Apply(i) in run.Calls(k) <==> Position(run.order, i) < k && run.es[i].resource.Some?
    ensures Refresh(i) in run.Calls(k) <==> Position(run.order, i) < k && run.RefreshedAt(Position(run.order, i))
  {
    if k > 0 {
      CallsMade(run, k - 1, i);
      PositionUnique(run.order, k - 1);
    }
  }

  /** No provider call is made twice. */
  lemma {:induction false} CallsOnce(run: Run, k: nat)
    requires run.Valid() && k <= |run.order|
    ensures Distinct(run.Calls(k))
  {
    if k > 0 {
      CallsOnce(run, k - 1);
      PositionUnique(run.order, k - 1);
      CallsMade(run, k - 1, run.order[k - 1]);
    }
  }

  // ----- when an order loses refreshes -----

  /** Whatever the providers answer, exactly the resources that a refresh path reaches are refreshed. */
  ghost predicate RefreshesExactly(es: seq<Entry>, order: seq<nat>)
    requires Ready(es, order)
  {
    forall apply, refresh, j :: |apply| == |es| && |refresh| == |es| && 0 <= j < |order| ==>
      RefreshedAsPlanned(Run(es, order, apply, refresh), j)
  }

  ghost predicate RefreshedAsPlanned(run: Run, j: nat)
    requires run.Valid() && j < |run.order|
  {
    run.RefreshedAt(j) <==> PlanOf(run).EndsRefreshed(run.order[j])
  }

  /** When only the resource at position a starts a change, nothing before it changes. */
  lemma {:induction false} NothingChangesBefore(run: Run, a: nat, j: nat)
    requires run.Valid() && j < a < |run.order|
    requires forall i :: 0 <= i < |run.es| && i != run.order[a] ==> !Changes(run.apply[i])
    ensures !run.ChangedAt(j)
    decreases j
  {
    forall m | 0 <= m < j
      ensures !run.ChangedAt(m)
    {
      NothingChangesBefore(run, a, m);
    }
    assert run.order[j] != run.order[a];
    assert !run.NotifiedBefore(j, run.order[j]);
  }

  /** A parsed notifier that stands too late loses a refresh: let it be the only one that changes. */
  lemma LateNotifierLoses(es: seq<Entry>, order: seq<nat>, a: nat, b: nat)
    requires Ready(es, order) && b <= a < |order| && NotifiesAt(es, order, a, b)
    ensures !RefreshesExactly(es, order)
  {
    var x := order[a];
    var apply := seq(|es|, i => if i == x then Changed else Success);
    var run := Run(es, order, apply, apply);
    var plan := PlanOf(run);
    assert a != b;
    assert plan.RefreshPath([x]) && [x][|[x]| - 1] == x;
    assert plan.EndsChanged(x) && order[b] in plan.targets[x];
    assert plan.EndsRefreshed(order[b]);
    forall m | 0 <= m < b
      ensures !run.ChangedAt(m)
    {
      NothingChangesBefore(run, a, m);
    }
    assert !run.NotifiedBefore(b, order[b]);
    assert !RefreshedAsPlanned(run, b);
  }

  /** An order keeps every refresh, whatever the providers answer, exactly when parsed notifiers stand first. */
  lemma RefreshesKeptExactly(es: seq<Entry>, order: seq<nat>)
    requires Ready(es, order)
    ensures RefreshesExactly(es, order) <==> NotifiersFirst(es, order)
  {
    if NotifiersFirst(es, order) {
      forall apply, refresh, j | |apply| == |es| && |refresh| == |es| && 0 <= j < |order|
        ensures RefreshedAsPlanned(Run(es, order, apply, refresh), j)
      {
        RefreshedIffNotified(Run(es, order, apply, refresh), j);
      }
    } else {
      var a, b :| 0 <= a < |order| && 0 <= b < |order| && NotifiesAt(es, order, a, b) && b <= a;
      LateNotifierLoses(es, order, a, b);
    }
  }

  /** In an order that is not topological, as after a dependency cycle, a refresh can be lost. */
  lemma FallbackLosesRefresh(web: Resource, conf: Resource)
    ensures var es := [Entry(Some(web), [1], [], 1, false, false, false), Entry(Some(conf), [0], [0], 1, false, false, false)];
            var run := Run(es, [0, 1], [Success, Changed], [Changed, Changed]);
            run.Valid() && HasCycle(Deps(es)) && PlanOf(run).EndsRefreshed(0) && Refresh(0) !in run.Calls(2)
  {
    var es := [Entry(Some(web), [1], [], 1, false, false, false), Entry(Some(conf), [0], [0], 1, false, false, false)];
    var run := Run(es, [0, 1], [Success, Changed], [Changed, Changed]);
    assert ClosedWalk(Deps(es), [0, 1, 0]);
    var plan := PlanOf(run);
    assert plan.RefreshPath([1]) && [1][|[1]| - 1] == 1;
    assert 0 in plan.targets[1];
    PositionUnique(run.order, 0);
    CallsMade(run, 2, 0);
    assert !run.NotifiedBefore(0, 0);
  }
}
