/** Turning metaparameters, catalog edges and file paths into recorded links. */
module CatalogExtract {
  import opened Common
  import opened CatalogGraph
  import opened CatalogEntries
  import opened CatalogLinks

  const TYPE_BUFFER: nat := 64
  const TITLE_BUFFER: nat := 256

  /** The references of the four metaparameters; a lone string counts as a list of one. */
  datatype Declared = Declared(
    resource: Option<Resource>,
    require: seq<string>,
    before: seq<string>,
    notify: seq<string>,
    subscribe: seq<string>)

  datatype ChainEdge = ChainEdge(
    sourceKind: string, sourceTitle: string, targetKind: string, targetTitle: string, relationship: Option<string>)

  datatype Meta = Require | Before | Notify | Subscribe

  // ----- names -----

  function LowerChar(c: char): char {
    if 'A' <= c <= 'Z' then ((c as int) + 32) as char else c
  }

  function Lower(s: string): (r: string)
    ensures |r| == |s|
  {
    seq(|s|, i requires 0 <= i < |s| => LowerChar(s[i]))
  }

  predicate Names(r: Option<Resource>, kind: string, title: string) {
    r.Some? && Lower(r.value.kind) == Lower(kind) && r.value.title == title
  }

  /** The first resource from index i on with this type (case ignored) and this exact title. */
  function FindFrom(rs: seq<Option<Resource>>, kind: string, title: string, i: nat): (r: Option<nat>)
    requires i <= |rs|
    ensures r.Some? ==> i <= r.value < |rs| && Names(rs[r.value], kind, title)
    ensures r.Some? ==> forall k :: i <= k < r.value ==> !Names(rs[k], kind, title)
    ensures r.None? ==> forall k :: i <= k < |rs| ==> !Names(rs[k], kind, title)
    decreases |rs| - i
  {
    if i == |rs| then None
    else if Names(rs[i], kind, title) then Some(i)
    else FindFrom(rs, kind, title, i + 1)
  }

  method FindResourceIndex(entries: array<Entry>, kind: string, title: string) returns (r: Option<nat>)
    ensures r == FindFrom(Resources(entries[..]), kind, title, 0)
  {
    var i := 0;
    while i < entries.Length
      invariant i <= entries.Length
      invariant FindFrom(Resources(entries[..]), kind, title, 0) == FindFrom(Resources(entries[..]), kind, title, i)
    {
      if Names(entries[i].resource, kind, title) {
        return Some(i);
      }
      i := i + 1;
    }
    return None;
  }

  // ----- references -----

  function FirstIndex(s: string, c: char): (r: Option<nat>)
    ensures r.Some? ==> r.value < |s| && s[r.value] == c && c !in s[..r.value]
    ensures r.None? <==> c !in s
  {
    if s == "" then None
    else if s[0] == c then Some(0)
    else match FirstIndex(s[1..], c) case None => None case Some(k) => Some(k + 1)
  }

  function LastIndex(s: string, c: char): (r: Option<nat>)
    ensures r.Some? ==> r.value < |s| && s[r.value] == c && c !in s[r.value + 1..]
    ensures r.None? <==> c !in s
  {
    if s == "" then None
    else if s[|s| - 1] == c then Some(|s| - 1)
    else LastIndex(s[..|s| - 1], c)
  }

  /** Type and title of a reference such as File[/etc/mysql]. */
  function ParseRef(ref: string): Option<(string, string)> {
    match FirstIndex(ref, '[')
    case None => None
    case Some(open) =>
      if open >= TYPE_BUFFER then None
      else match LastIndex(ref, ']')
        case None => None
        case Some(close) =>
          if close <= open + 1 || close - open - 1 >= TITLE_BUFFER then None
          else Some((ref[..open], ref[open + 1..close]))
  }

  /** Exactly the references that survive being written out as Type[title]. */
  lemma ParseRefRoundTrip(kind: string, title: string)
    ensures ParseRef(kind + "[" + title + "]") == Some((kind, title))
       <==> '[' !in kind && |kind| < TYPE_BUFFER && 0 < |title| < TITLE_BUFFER
  {
    var ref := kind + "[" + title + "]";
    assert ref[|kind|] == '[' && ref[|ref| - 1] == ']';
    var open := FirstIndex(ref, '[').value;
    var close := LastIndex(ref, ']').value;
    assert close == |ref| - 1;
    if '[' !in kind {
      assert open >= |kind| by {
        assert forall k :: 0 <= k < |kind| ==> ref[k] == kind[k];
      }
      assert open <= |kind| by {
        assert forall k :: 0 <= k < open ==> ref[..open][k] == ref[k];
      }
      assert ref[..open] == kind && ref[open + 1..close] == title;
    } else {
      assert '[' !in ref[..open];
    }
  }

  function LinkFor(meta: Meta, idx: nat, other: nat): Link {
    match meta
    case Require => Link(other, idx, false)
    case Before => Link(idx, other, false)
    case Notify => Link(idx, other, true)
    case Subscribe => Link(other, idx, true)
  }

  function RefLink(rs: seq<Option<Resource>>, meta: Meta, idx: nat, ref: string): (ls: seq<Link>)
    requires idx < |rs|
    ensures LinksBelow(ls, |rs|)
  {
    match ParseRef(ref)
    case None => []
    case Some(name) =>
      match FindFrom(rs, name.0, name.1, 0)
      case None => []
      case Some(other) => [LinkFor(meta, idx, other)]
  }

  function RefLinks(rs: seq<Option<Resource>>, meta: Meta, idx: nat, refs: seq<string>): (ls: seq<Link>)
    requires idx < |rs|
    ensures LinksBelow(ls, |rs|)
  {
    if refs == [] then []
    else RefLinks(rs, meta, idx, refs[..|refs| - 1]) + RefLink(rs, meta, idx, refs[|refs| - 1])
  }

  function DeclaredLinks(rs: seq<Option<Resource>>, idx: nat, d: Declared): (ls: seq<Link>)
    requires idx < |rs|
    ensures LinksBelow(ls, |rs|)
  {
    RefLinks(rs, Require, idx, d.require) + RefLinks(rs, Before, idx, d.before)
    + RefLinks(rs, Notify, idx, d.notify) + RefLinks(rs, Subscribe, idx, d.subscribe)
  }

  function AllDeclaredLinks(rs: seq<Option<Resource>>, ds: seq<Declared>, n: nat): (ls: seq<Link>)
    requires n <= |ds| <= |rs|
    ensures LinksBelow(ls, |rs|)
  {
    if n == 0 then [] else AllDeclaredLinks(rs, ds, n - 1) + DeclaredLinks(rs, n - 1, ds[n - 1])
  }

  // ----- explicit catalog edges -----

  function EdgeLink(rs: seq<Option<Resource>>, e: ChainEdge): (ls: seq<Link>)
    ensures LinksBelow(ls, |rs|)
  {
    var source := FindFrom(rs, e.sourceKind, e.sourceTitle, 0);
    var target := FindFrom(rs, e.targetKind, e.targetTitle, 0);
    if source.None? || target.None? then []
    else [Link(source.value, target.value, e.relationship == Some("notifies") || e.relationship == Some("notify"))]
  }

  function EdgeLinks(rs: seq<Option<Resource>>, edges: seq<ChainEdge>): (ls: seq<Link>)
    ensures LinksBelow(ls, |rs|)
  {
    if edges == [] then [] else EdgeLinks(rs, edges[..|edges| - 1]) + EdgeLink(rs, edges[|edges| - 1])
  }

  // ----- parent directories -----

  function ParentPath(path: string): (r: Option<string>)
    ensures r.Some? && |r.value| > 1 ==> |r.value| < |path|
  {
    if path == "" || path[0] != '/' then None
    else
      var slash := LastIndex(path, '/').value;
      Some(if slash == 0 then "/" else path[..slash])
  }

  /** The path parameter when given and non-empty, otherwise the title. */
  function EffectivePath(r: Resource): string {
    if r.path.Some? && r.path.value != "" then r.path.value else r.title
  }

  function AutoLink(rs: seq<Option<Resource>>, i: nat): (ls: seq<Link>)
    requires i < |rs|
    ensures LinksBelow(ls, |rs|)
  {
    if rs[i].None? || Lower(rs[i].value.kind) != Lower("file") then []
    else
      var parent := ParentPath(EffectivePath(rs[i].value));
      if parent.None? || |parent.value| <= 1 then []
      else match FindFrom(rs, "file", parent.value, 0)
        case None => []
        case Some(p) => if p == i then [] else [Link(p, i, false)]
  }

  function AutoLinks(rs: seq<Option<Resource>>, n: nat): (ls: seq<Link>)
    requires n <= |rs|
    ensures LinksBelow(ls, |rs|)
  {
    if n == 0 then [] else AutoLinks(rs, n - 1) + AutoLink(rs, n - 1)
  }

  /** Every file resource manages the path it is titled with. */
  ghost predicate TitledByPath(rs: seq<Option<Resource>>) {
    forall i :: 0 <= i < |rs| && rs[i].Some? && Lower(rs[i].value.kind) == Lower("file") ==>
      EffectivePath(rs[i].value) == rs[i].value.title
  }

  ghost predicate Shortens(rs: seq<Option<Resource>>, l: Link) {
    && l.source < |rs| && l.target < |rs| && rs[l.source].Some? && rs[l.target].Some?
    && |rs[l.source].value.title| < |rs[l.target].value.title|
  }

  lemma OneAutoLinkShortens(rs: seq<Option<Resource>>, i: nat, l: Link)
    requires TitledByPath(rs) && i < |rs| && l in AutoLink(rs, i)
    ensures Shortens(rs, l)
  {
    var parent := ParentPath(EffectivePath(rs[i].value)).value;
    assert Names(rs[l.source], "file", parent);
  }

  lemma {:induction false} AutoLinkShortens(rs: seq<Option<Resource>>, n: nat, l: Link)
    requires TitledByPath(rs) && n <= |rs| && l in AutoLinks(rs, n)
    ensures Shortens(rs, l)
  {
    hide AutoLink, Shortens;
    if l in AutoLinks(rs, n - 1) {
      AutoLinkShortens(rs, n - 1, l);
    } else {
      assert l in AutoLink(rs, n - 1);
      OneAutoLinkShortens(rs, n - 1, l);
    }
  }

  lemma {:induction false} AutoWalkShortens(rs: seq<Option<Resource>>, p: seq<nat>)
    requires TitledByPath(rs) && |p| >= 2
    requires forall k :: 0 <= k < |p| - 1 ==> p[k + 1] in Sources(AutoLinks(rs, |rs|), p[k])
    ensures p[0] < |rs| && rs[p[0]].Some? && p[|p| - 1] < |rs| && rs[p[|p| - 1]].Some?
    ensures |rs[p[|p| - 1]].value.title| < |rs[p[0]].value.title|
  {
    var links := AutoLinks(rs, |rs|);
    assert p[0 + 1] in Sources(links, p[0]);
    var k :| 0 <= k < |links| && links[k].target == p[0] && links[k].source == p[1];
    AutoLinkShortens(rs, |rs|, links[k]);
    if |p| > 2 {
      var rest := p[1..];
      forall j | 0 <= j < |rest| - 1
        ensures rest[j + 1] in Sources(links, rest[j])
      {
        var m := j + 1;
        assert p[m + 1] in Sources(links, p[m]);
      }
      AutoWalkShortens(rs, rest);
    }
  }

  /** Parent directories alone never make a cycle when files are titled by their path. */
  lemma AutoRequiresAcyclic(rs: seq<Option<Resource>>, p: seq<nat>)
    requires TitledByPath(rs)
    ensures !LinkCycle(AutoLinks(rs, |rs|), p)
  {
    if LinkCycle(AutoLinks(rs, |rs|), p) {
      AutoWalkShortens(rs, p);
    }
  }

  lemma LastIndexIs(s: string, c: char, k: nat)
    requires k < |s| && s[k] == c && c !in s[k + 1..]
    ensures LastIndex(s, c) == Some(k)
  {
    var j := LastIndex(s, c).value;
    assert forall m :: j < m < |s| ==> s[m] == s[j + 1..][m - j - 1];
    assert forall m :: k < m < |s| ==> s[m] == s[k + 1..][m - k - 1];
  }

  lemma AutoLinkIs(rs: seq<Option<Resource>>, i: nat, path: string, slash: nat, p: nat)
    requires i < |rs| && rs[i].Some? && Lower(rs[i].value.kind) == Lower("file")
    requires EffectivePath(rs[i].value) == path
    requires 1 < slash < |path| && path[0] == '/' && path[slash] == '/' && '/' !in path[slash + 1..]
    requires FindFrom(rs, "file", path[..slash], 0) == Some(p) && p != i
    ensures AutoLink(rs, i) == [Link(p, i, false)]
  {
    LastIndexIs(path, '/', slash);
  }

  /** With path parameters that differ from the titles two files can require each other. */
  lemma AutoRequiresCanCycle()
    ensures var rs := [Some(Resource("file", "/a", Some("/b/x"))), Some(Resource("file", "/b", Some("/a/y")))];
            LinkCycle(AutoLinks(rs, 2), [0, 1, 0])
  {
    var rs := [Some(Resource("file", "/a", Some("/b/x"))), Some(Resource("file", "/b", Some("/a/y")))];
    assert "/b/x"[..2] == "/b" && "/a/y"[..2] == "/a";
    AutoLinkIs(rs, 0, "/b/x", 2, 1);
    AutoLinkIs(rs, 1, "/a/y", 2, 0);
    assert AutoLinks(rs, 1) == AutoLinks(rs, 0) + AutoLink(rs, 0);
    var links := AutoLinks(rs, 2);
    assert links == [Link(1, 0, false), Link(0, 1, false)];
    assert links[0].target == 0 && links[1].target == 1;
    assert 1 in Sources(links, 0) && 0 in Sources(links, 1);
  }

  /** The file that a file is asked to depend on, if any. */
  function Parent(rs: seq<Option<Resource>>, i: nat): (p: Option<nat>)
    requires i < |rs|
    ensures p.Some? ==> p.value < |rs|
  {
    var links := AutoLink(rs, i);
    if links == [] then None else Some(links[0].source)
  }

  /** Starting at resource i there are n parents in a row. */
  predicate Climbs(rs: seq<Option<Resource>>, i: nat, n: nat)
    requires i < |rs|
    decreases n
  {
    n == 0 || (Parent(rs, i).Some? && Climbs(rs, Parent(rs, i).value, n - 1))
  }

  lemma OwnAutoLink(rs: seq<Option<Resource>>, i: nat, l: Link)
    requires i < |rs|
    ensures l in AutoLink(rs, i) <==> l.target == i && Parent(rs, i) == Some(l.source) && !l.notifies
  {
    assert AutoLink(rs, i) == [] || AutoLink(rs, i) == [Link(AutoLink(rs, i)[0].source, i, false)];
  }

  lemma {:induction false} AutoLinksAre(rs: seq<Option<Resource>>, n: nat, l: Link)
    requires n <= |rs|
    ensures l in AutoLinks(rs, n) <==> l.target < n && Parent(rs, l.target) == Some(l.source) && !l.notifies
  {
    hide AutoLink, Parent;
    if n > 0 {
      AutoLinksAre(rs, n - 1, l);
      OwnAutoLink(rs, n - 1, l);
      assert l in AutoLinks(rs, n) <==> l in AutoLinks(rs, n - 1) || l in AutoLink(rs, n - 1);
    }
  }

  lemma ParentIsSource(rs: seq<Option<Resource>>, i: nat, p: nat)
    ensures p in Sources(AutoLinks(rs, |rs|), i) <==> i < |rs| && Parent(rs, i) == Some(p)
  {
    var links := AutoLinks(rs, |rs|);
    AutoLinksAre(rs, |rs|, Link(p, i, false));
    if p in Sources(links, i) {
      var k :| 0 <= k < |links| && links[k].target == i && links[k].source == p;
      AutoLinksAre(rs, |rs|, links[k]);
    }
    if i < |rs| && Parent(rs, i) == Some(p) {
      var k :| 0 <= k < |links| && links[k] == Link(p, i, false);
    }
  }

  /** From anywhere on a cycle one can climb for ever. */
  lemma {:induction false} CycleClimbs(rs: seq<Option<Resource>>, p: seq<nat>, k: nat, n: nat)
    requires LinkCycle(AutoLinks(rs, |rs|), p) && k < |p| - 1
    ensures p[k] < |rs| && Climbs(rs, p[k], n)
    decreases n
  {
    hide Sources, AutoLinks, Parent;
    ParentIsSource(rs, p[k], p[k + 1]);
    if n > 0 {
      CycleClimbs(rs, p, if k + 1 == |p| - 1 then 0 else k + 1, n - 1);
    }
  }

  /** The resources met on the way up. */
  lemma {:induction false} ClimbingWalk(rs: seq<Option<Resource>>, i: nat, n: nat) returns (p: seq<nat>)
    requires i < |rs| && Climbs(rs, i, n)
    ensures |p| == n + 1 && AllBelow(p, |rs|) && p[0] == i
    ensures forall k :: 0 <= k < n ==> p[k + 1] in Sources(AutoLinks(rs, |rs|), p[k])
    decreases n
  {
    hide Sources, AutoLinks, Parent;
    if n == 0 {
      p := [i];
    } else {
      var rest := ClimbingWalk(rs, Parent(rs, i).value, n - 1);
      ParentIsSource(rs, i, rest[0]);
      p := [i] + rest;
      forall k | 0 <= k < n
        ensures p[k + 1] in Sources(AutoLinks(rs, |rs|), p[k])
      {
        assert k > 0 ==> p[k] == rest[k - 1] && p[k + 1] == rest[k - 1 + 1];
      }
    }
  }

  /** Parent directories make a cycle exactly when from some resource there are as many parents in a row as resources. */
  lemma AutoRequiresCycleExactly(rs: seq<Option<Resource>>)
    ensures (exists p :: LinkCycle(AutoLinks(rs, |rs|), p)) <==> (exists i :: 0 <= i < |rs| && Climbs(rs, i, |rs|))
  {
    hide Climbs, LinkCycle, AutoLinks;
    if p :| LinkCycle(AutoLinks(rs, |rs|), p) {
      CycleStart(AutoLinks(rs, |rs|), p);
      CycleClimbs(rs, p, 0, |rs|);
    }
    if i :| 0 <= i < |rs| && Climbs(rs, i, |rs|) {
      var q := ClimbRepeats(rs, i);
    }
  }

  lemma CycleStart(links: seq<Link>, p: seq<nat>)
    requires LinkCycle(links, p)
    ensures |p| >= 2
  {
  }

  /** With as many steps as resources some resource is met twice. */
  lemma ClimbRepeats(rs: seq<Option<Resource>>, i: nat) returns (q: seq<nat>)
    requires i < |rs| && Climbs(rs, i, |rs|)
    ensures LinkCycle(AutoLinks(rs, |rs|), q)
  {
    hide Climbs, Sources, AutoLinks;
    var p := ClimbingWalk(rs, i, |rs|);
    var a, b := Pigeonhole(p, |rs|);
    q := p[a..b + 1];
    forall k | 0 <= k < |q| - 1
      ensures q[k + 1] in Sources(AutoLinks(rs, |rs|), q[k])
    {
      var m := a + k;
      assert q[k] == p[m] && q[k + 1] == p[m + 1];
    }
  }

  // ----- everything a catalog asks for, in recording order -----

  function RequestedLinks(rs: seq<Option<Resource>>, ds: seq<Declared>, edges: seq<ChainEdge>): (ls: seq<Link>)
    requires |ds| == |rs|
    ensures LinksBelow(ls, |rs|)
  {
    AllDeclaredLinks(rs, ds, |ds|) + EdgeLinks(rs, edges) + AutoLinks(rs, |rs|)
  }

  // ----- the recording loops -----

  method AddDependency(entries: array<Entry>, from: nat, to: nat)
    requires from < entries.Length
    modifies entries
    ensures entries[..] == WithDependency(old(entries[..]), from, to)
  {
    if from == to {
      return;
    }
    var i := 0;
    while i < |entries[from].deps|
      invariant i <= |entries[from].deps| && to !in entries[from].deps[..i]
    {
      if entries[from].deps[i] == to {
        return;
      }
      i := i + 1;
    }
    if |entries[from].deps| < MAX_DEPS {
      entries[from] := entries[from].(deps := entries[from].deps + [to]);
    }
  }

  method AddNotify(entries: array<Entry>, from: nat, to: nat)
    requires from < entries.Length
    modifies entries
    ensures entries[..] == WithNotify(old(entries[..]), from, to)
  {
    if from == to {
      return;
    }
    var i := 0;
    while i < |entries[from].notifies|
      invariant i <= |entries[from].notifies| && to !in entries[from].notifies[..i]
    {
      if entries[from].notifies[i] == to {
        return;
      }
      i := i + 1;
    }
    if |entries[from].notifies| < MAX_NOTIFY {
      entries[from] := entries[from].(notifies := entries[from].notifies + [to]);
    }
  }

  lemma {:induction false} RecordAllResources(es: seq<Entry>, links: seq<Link>)
    requires LinksBelow(links, |es|)
    ensures Resources(RecordAll(es, links)) == Resources(es)
  {
    if links != [] {
      RecordAllResources(es, links[..|links| - 1]);
    }
  }

  method AddLink(entries: array<Entry>, l: Link)
    requires l.source < entries.Length && l.target < entries.Length
    modifies entries
    ensures entries[..] == RecordAll(old(entries[..]), [l])
    ensures Resources(entries[..]) == old(Resources(entries[..]))
  {
    ghost var es := entries[..];
    AddDependency(entries, l.target, l.source);
    if l.notifies {
      AddNotify(entries, l.source, l.target);
    }
    assert [l][..0] == [];
    RecordAllResources(es, [l]);
  }

  /** One reference of one metaparameter. */
  method ExtractRef(entries: array<Entry>, meta: Meta, idx: nat, ref: string)
    requires idx < entries.Length
    modifies entries
    ensures entries[..] == RecordAll(old(entries[..]), RefLink(old(Resources(entries[..])), meta, idx, ref))
    ensures Resources(entries[..]) == old(Resources(entries[..]))
  {
    var name := ParseRef(ref);
    if name.Some? {
      var other := FindResourceIndex(entries, name.value.0, name.value.1);
      if other.Some? {
        AddLink(entries, LinkFor(meta, idx, other.value));
      }
    }
  }

  lemma RecordNothing(es: seq<Entry>)
    ensures RecordAll(es, []) == es
  {
  }

  method ExtractRefs(entries: array<Entry>, meta: Meta, idx: nat, refs: seq<string>)
    requires idx < entries.Length
    modifies entries
    ensures entries[..] == RecordAll(old(entries[..]), RefLinks(old(Resources(entries[..])), meta, idx, refs))
    ensures Resources(entries[..]) == old(Resources(entries[..]))
  {
    hide RefLink, RecordAll;
    ghost var es := entries[..];
    ghost var rs := Resources(es);
    var j := 0;
    RecordNothing(es);
    while j < |refs|
      invariant j <= |refs|
      invariant entries[..] == RecordAll(es, RefLinks(rs, meta, idx, refs[..j]))
      invariant Resources(entries[..]) == rs
    {
      ExtractRef(entries, meta, idx, refs[j]);
      assert refs[..j + 1][..j] == refs[..j];
      RecordAllAppend(es, RefLinks(rs, meta, idx, refs[..j]), RefLink(rs, meta, idx, refs[j]));
      j := j + 1;
    }
    assert refs[..|refs|] == refs;
  }

  method ExtractDependencies(entries: array<Entry>, idx: nat, d: Declared)
    requires idx < entries.Length
    modifies entries
    ensures entries[..] == RecordAll(old(entries[..]), DeclaredLinks(old(Resources(entries[..])), idx, d))
    ensures Resources(entries[..]) == old(Resources(entries[..]))
  {
    ghost var es := entries[..];
    ghost var rs := Resources(es);
    ExtractRefs(entries, Require, idx, d.require);
    ExtractRefs(entries, Before, idx, d.before);
    ghost var first := RefLinks(rs, Require, idx, d.require);
    ghost var second := RefLinks(rs, Before, idx, d.before);
    RecordAllAppend(es, first, second);
    ExtractRefs(entries, Notify, idx, d.notify);
    ghost var third := RefLinks(rs, Notify, idx, d.notify);
    RecordAllAppend(es, first + second, third);
    ExtractRefs(entries, Subscribe, idx, d.subscribe);
    RecordAllAppend(es, first + second + third, RefLinks(rs, Subscribe, idx, d.subscribe));
  }

  method ExtractAllDependencies(entries: array<Entry>, ds: seq<Declared>)
    requires |ds| == entries.Length
    modifies entries
    ensures entries[..] == RecordAll(old(entries[..]), AllDeclaredLinks(old(Resources(entries[..])), ds, |ds|))
    ensures Resources(entries[..]) == old(Resources(entries[..]))
  {
    ghost var es := entries[..];
    ghost var rs := Resources(es);
    ghost var done := AllDeclaredLinks(rs, ds, 0);
    var i := 0;
    while i < |ds|
      invariant i <= |ds|
      invariant done == AllDeclaredLinks(rs, ds, i) && LinksBelow(done, |rs|)
      invariant entries[..] == RecordAll(es, done)
      invariant Resources(entries[..]) == rs
    {
      ghost var more := DeclaredLinks(rs, i, ds[i]);
      ExtractDependencies(entries, i, ds[i]);
      RecordAllAppend(es, done, more);
      done := done + more;
      i := i + 1;
    }
  }

  method ExtractEdge(entries: array<Entry>, e: ChainEdge)
    modifies entries
    ensures entries[..] == RecordAll(old(entries[..]), EdgeLink(old(Resources(entries[..])), e))
    ensures Resources(entries[..]) == old(Resources(entries[..]))
  {
    var source := FindResourceIndex(entries, e.sourceKind, e.sourceTitle);
    var target := FindResourceIndex(entries, e.targetKind, e.targetTitle);
    if source.Some? && target.Some? {
      var notifies := e.relationship == Some("notifies") || e.relationship == Some("notify");
      AddLink(entries, Link(source.value, target.value, notifies));
    }
  }

  method ExtractEdges(entries: array<Entry>, edges: seq<ChainEdge>)
    modifies entries
    ensures entries[..] == RecordAll(old(entries[..]), EdgeLinks(old(Resources(entries[..])), edges))
    ensures Resources(entries[..]) == old(Resources(entries[..]))
  {
    ghost var es := entries[..];
    ghost var rs := Resources(es);
    var i := 0;
    while i < |edges|
      invariant i <= |edges|
      invariant entries[..] == RecordAll(es, EdgeLinks(rs, edges[..i]))
      invariant Resources(entries[..]) == rs
    {
      ExtractEdge(entries, edges[i]);
      assert edges[..i + 1][..i] == edges[..i];
      RecordAllAppend(es, EdgeLinks(rs, edges[..i]), EdgeLink(rs, edges[i]));
      i := i + 1;
    }
    assert edges[..|edges|] == edges;
  }

  method AddFileAutorequire(entries: array<Entry>, i: nat)
    requires i < entries.Length
    modifies entries
    ensures entries[..] == RecordAll(old(entries[..]), AutoLink(old(Resources(entries[..])), i))
    ensures Resources(entries[..]) == old(Resources(entries[..]))
  {
    assert Resources(entries[..])[i] == entries[i].resource;
    if entries[i].resource.None? || Lower(entries[i].resource.value.kind) != Lower("file") {
      return;
    }
    var parent := ParentPath(EffectivePath(entries[i].resource.value));
    if parent.Some? && |parent.value| > 1 {
      var p := FindResourceIndex(entries, "file", parent.value);
      if p.Some? && p.value != i {
        AddLink(entries, Link(p.value, i, false));
      }
    }
  }

  method AddFileAutorequires(entries: array<Entry>)
    modifies entries
    ensures entries[..] == RecordAll(old(entries[..]), AutoLinks(old(Resources(entries[..])), entries.Length))
    ensures Resources(entries[..]) == old(Resources(entries[..]))
  {
    ghost var es := entries[..];
    ghost var rs := Resources(es);
    ghost var done := AutoLinks(rs, 0);
    var i := 0;
    while i < entries.Length
      invariant i <= entries.Length
      invariant done == AutoLinks(rs, i) && LinksBelow(done, |rs|)
      invariant entries[..] == RecordAll(es, done)
      invariant Resources(entries[..]) == rs
    {
      AddFileAutorequire(entries, i);
      RecordAllAppend(es, done, AutoLink(rs, i));
      done := done + AutoLink(rs, i);
      i := i + 1;
    }
  }

  /** Phases 2, 2b and 3 of applying a catalog. */
  method ExtractLinks(entries: array<Entry>, ds: seq<Declared>, edges: seq<ChainEdge>)
    requires |ds| == entries.Length
    modifies entries
    ensures entries[..] == RecordAll(old(entries[..]), RequestedLinks(old(Resources(entries[..])), ds, edges))
  {
    ghost var es := entries[..];
    ghost var rs := Resources(es);
    ExtractAllDependencies(entries, ds);
    ExtractEdges(entries, edges);
    RecordAllAppend(es, AllDeclaredLinks(rs, ds, |ds|), EdgeLinks(rs, edges));
    AddFileAutorequires(entries);
    RecordAllAppend(es, AllDeclaredLinks(rs, ds, |ds|) + EdgeLinks(rs, edges), AutoLinks(rs, |rs|));
  }
}
