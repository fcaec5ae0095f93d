/** What is dropped when a list overflows: the later requests, in the order in which the catalog makes them. */
module CatalogOverflow {
  import opened Common
  import opened CatalogEntries
  import opened CatalogLinks
  import opened CatalogExtract

  ghost predicate NothingRecorded(es: seq<Entry>) {
    forall i :: 0 <= i < |es| ==> es[i].deps == [] && es[i].notifies == []
  }

  /** Link k is the first one that asks i to depend on its source. */
  ghost predicate FirstToAsk(links: seq<Link>, i: nat, k: nat) {
    && k < |links| && links[k].target == i && links[k].source != i
    && links[k].source !in Sources(links[..k], i)
  }

  /** Link k is the first one that asks i to notify its target. */
  ghost predicate FirstToNotify(links: seq<Link>, i: nat, k: nat) {
    && k < |links| && links[k].notifies && links[k].source == i && links[k].target != i
    && links[k].target !in Notified(links[..k], i)
  }

  lemma {:induction false} ListsGrow(es: seq<Entry>, links: seq<Link>, i: nat)
    requires LinksBelow(links, |es|) && i < |es|
    ensures var after := RecordAll(es, links);
            && es[i].deps <= after[i].deps && (|es[i].deps| >= 64 ==> after[i].deps == es[i].deps)
            && es[i].notifies <= after[i].notifies && (|es[i].notifies| >= 64 ==> after[i].notifies == es[i].notifies)
  {
    if links != [] {
      ListsGrow(es, links[..|links| - 1], i);
    }
  }

  /** The lists after k links, as beginnings of the final ones. */
  lemma ListsAfter(es: seq<Entry>, links: seq<Link>, k: nat, i: nat)
    requires NothingRecorded(es) && LinksBelow(links, |es|) && k <= |links| && i < |es|
    ensures var now, after := RecordAll(es, links[..k])[i], RecordAll(es, links)[i];
            && Holds(now.deps, Sources(links[..k], i), 64) && Holds(now.notifies, Notified(links[..k], i), 64)
            && now.deps <= after.deps && (|now.deps| == 64 ==> after.deps == now.deps)
            && now.notifies <= after.notifies && (|now.notifies| == 64 ==> after.notifies == now.notifies)
  {
    hide RecordAll, Sources, Notified, Holds;
    assert links[..k] + links[k..] == links;
    RecordAllRecords(es, links[..k]);
    RecordAllAppend(es, links[..k], links[k..]);
    ListsGrow(RecordAll(es, links[..k]), links[k..], i);
  }

  /** When a dependency is kept, so is every one that the resource was asked for earlier. */
  lemma EarlierDependenciesAreKept(es: seq<Entry>, links: seq<Link>, i: nat, j: nat, k: nat)
    requires NothingRecorded(es) && LinksBelow(links, |es|) && i < |es|
    requires j < k && FirstToAsk(links, i, k) && links[j].target == i && links[j].source != i
    requires links[k].source in RecordAll(es, links)[i].deps
    ensures links[j].source in RecordAll(es, links)[i].deps
  {
    hide RecordAll;
    ListsAfter(es, links, k, i);
    var now := RecordAll(es, links[..k])[i];
    assert links[..k][j] == links[j];
    assert links[j].source in Sources(links[..k], i);
    assert links[k].source !in Elements(now.deps);
    assert links[j].source in Elements(now.deps);
  }

  lemma EarlierNotificationsAreKept(es: seq<Entry>, links: seq<Link>, i: nat, j: nat, k: nat)
    requires NothingRecorded(es) && LinksBelow(links, |es|) && i < |es|
    requires j < k && FirstToNotify(links, i, k) && links[j].notifies && links[j].source == i && links[j].target != i
    requires links[k].target in RecordAll(es, links)[i].notifies
    ensures links[j].target in RecordAll(es, links)[i].notifies
  {
    hide RecordAll;
    ListsAfter(es, links, k, i);
    var now := RecordAll(es, links[..k])[i];
    assert links[..k][j] == links[j];
    assert links[j].target in Notified(links[..k], i);
    assert links[k].target !in Elements(now.notifies);
    assert links[j].target in Elements(now.notifies);
  }

  // ----- the order of the requests -----

  lemma OneReference(rs: seq<Option<Resource>>, meta: Meta, idx: nat, before: seq<string>, ref: string)
    requires idx < |rs|
    ensures RefLinks(rs, meta, idx, []) == []
    ensures RefLinks(rs, meta, idx, before + [ref]) == RefLinks(rs, meta, idx, before) + RefLink(rs, meta, idx, ref)
  {
    hide RefLink;
    assert (before + [ref])[..|before + [ref]| - 1] == before;
  }

  /** References are taken from the left. */
  lemma {:induction false} ReferencesInOrder(rs: seq<Option<Resource>>, meta: Meta, idx: nat, before: seq<string>, ref: string,
                                             after: seq<string>)
    requires idx < |rs|
    ensures RefLinks(rs, meta, idx, before + [ref] + after)
         == RefLinks(rs, meta, idx, before) + RefLinks(rs, meta, idx, [ref]) + RefLinks(rs, meta, idx, after)
    decreases |after|
  {
    hide RefLinks, RefLink;
    var all := before + [ref] + after;
    OneReference(rs, meta, idx, [], ref);
    assert [] + [ref] == [ref];
    if after == [] {
      assert all == before + [ref];
      OneReference(rs, meta, idx, before, ref);
    } else {
      var init, last := after[..|after| - 1], after[|after| - 1];
      ReferencesInOrder(rs, meta, idx, before, ref, init);
      assert all == (before + [ref] + init) + [last] && after == init + [last];
      OneReference(rs, meta, idx, before + [ref] + init, last);
      OneReference(rs, meta, idx, init, last);
    }
  }

  /** What is left of a resource's requests when only this metaparameter is given. */
  function Only(d: Declared, meta: Meta): Declared {
    match meta
    case Require => Declared(d.resource, d.require, [], [], [])
    case Before => Declared(d.resource, [], d.before, [], [])
    case Notify => Declared(d.resource, [], [], d.notify, [])
    case Subscribe => Declared(d.resource, [], [], [], d.subscribe)
  }

  /** Of one resource: require, before, notify, subscribe. */
  lemma MetaparametersInOrder(rs: seq<Option<Resource>>, idx: nat, d: Declared)
    requires idx < |rs|
    ensures DeclaredLinks(rs, idx, d)
         == DeclaredLinks(rs, idx, Only(d, Require)) + DeclaredLinks(rs, idx, Only(d, Before))
            + DeclaredLinks(rs, idx, Only(d, Notify)) + DeclaredLinks(rs, idx, Only(d, Subscribe))
  {
    hide RefLink;
    assert forall meta :: RefLinks(rs, meta, idx, []) == [];
  }

  /** A resource that asks for nothing. */
  function Silent(d: Declared): Declared {
    Declared(d.resource, [], [], [], [])
  }

  /** The links of one resource when no other asks for anything. */
  lemma {:induction false} SilentOnesAskNothing(rs: seq<Option<Resource>>, ds: seq<Declared>, n: nat)
    requires n <= |ds| <= |rs| && forall k :: 0 <= k < n ==> ds[k] == Silent(ds[k])
    ensures AllDeclaredLinks(rs, ds, n) == []
  {
    if n > 0 {
      SilentOnesAskNothing(rs, ds, n - 1);
    }
  }

  /** Resources are taken from the left: those before position m first, then those from m on. */
  lemma {:induction false} ResourcesInOrder(rs: seq<Option<Resource>>, ds: seq<Declared>, early: seq<Declared>, late: seq<Declared>,
                                            m: nat, n: nat)
    requires m <= n <= |ds| == |rs| == |early| == |late|
    requires forall k :: 0 <= k < |ds| ==> early[k] == if k < m then ds[k] else Silent(ds[k])
    requires forall k :: 0 <= k < |ds| ==> late[k] == if k < m then Silent(ds[k]) else ds[k]
    ensures AllDeclaredLinks(rs, ds, n) == AllDeclaredLinks(rs, early, n) + AllDeclaredLinks(rs, late, n)
  {
    hide DeclaredLinks;
    if n == m {
      SilentOnesAskNothing(rs, late, m);
      SameDeclared(rs, ds, early, m);
    } else {
      ResourcesInOrder(rs, ds, early, late, m, n - 1);
      SilentLinks(rs, n - 1, ds[n - 1]);
    }
  }

  lemma SilentLinks(rs: seq<Option<Resource>>, idx: nat, d: Declared)
    requires idx < |rs|
    ensures DeclaredLinks(rs, idx, Silent(d)) == []
  {
  }

  lemma {:induction false} SameDeclared(rs: seq<Option<Resource>>, a: seq<Declared>, b: seq<Declared>, n: nat)
    requires n <= |a| == |b| <= |rs| && forall k :: 0 <= k < n ==> a[k] == b[k]
    ensures AllDeclaredLinks(rs, a, n) == AllDeclaredLinks(rs, b, n)
  {
    hide DeclaredLinks;
    if n > 0 {
      SameDeclared(rs, a, b, n - 1);
    }
  }

  /** First what the resources ask for, then the edges, then the parent directories. */
  lemma PhasesInOrder(rs: seq<Option<Resource>>, ds: seq<Declared>, silent: seq<Declared>, edges: seq<ChainEdge>)
    requires |ds| == |silent| == |rs| && forall k :: 0 <= k < |ds| ==> silent[k] == Silent(ds[k])
    ensures var parents := RequestedLinks(rs, silent, []);
            var declared, linked := RequestedLinks(rs, ds, []), RequestedLinks(rs, silent, edges);
            && |parents| <= |declared| && |parents| <= |linked|
            && RequestedLinks(rs, ds, edges)
               == declared[..|declared| - |parents|] + linked[..|linked| - |parents|] + parents
  {
    hide AllDeclaredLinks, AutoLinks;
    SilentOnesAskNothing(rs, silent, |ds|);
    assert EdgeLinks(rs, []) == [];
  }
}
