/** Which resource a catalog asks to run after which, read off its metaparameters, edges and file paths. */
module CatalogRequests {
  import opened Common
  import opened CatalogEntries
  import opened CatalogLinks
  import opened CatalogExtract

  // ----- names -----

  /** The same letter in either case, or the same character. */
  predicate SameLetter(a: char, b: char) {
    || a == b
    || ('A' <= a <= 'Z' && b as int == a as int + 32)
    || ('A' <= b <= 'Z' && a as int == b as int + 32)
  }

  ghost predicate SameIgnoringCase(a: string, b: string) {
    |a| == |b| && forall i :: 0 <= i < |a| ==> SameLetter(a[i], b[i])
  }

  lemma LowerIgnoresCase(a: string, b: string)
    ensures Lower(a) == Lower(b) <==> SameIgnoringCase(a, b)
  {
    if Lower(a) == Lower(b) {
      forall i | 0 <= i < |a|
        ensures SameLetter(a[i], b[i])
      {
        assert Lower(a)[i] == Lower(b)[i];
      }
    }
  }

  ghost predicate Is(r: Option<Resource>, kind: string, title: string) {
    r.Some? && SameIgnoringCase(r.value.kind, kind) && r.value.title == title
  }

  /** Resource o is the first parsed one with this type and title. */
  ghost predicate FirstNamed(rs: seq<Option<Resource>>, kind: string, title: string, o: nat) {
    o < |rs| && Is(rs[o], kind, title) && forall k :: 0 <= k < o ==> !Is(rs[k], kind, title)
  }

  lemma FoundIsFirstNamed(rs: seq<Option<Resource>>, kind: string, title: string, o: nat)
    ensures FindFrom(rs, kind, title, 0) == Some(o) <==> FirstNamed(rs, kind, title, o)
  {
    forall r: Option<Resource>
      ensures Names(r, kind, title) <==> Is(r, kind, title)
    {
      if r.Some? {
        LowerIgnoresCase(r.value.kind, kind);
      }
    }
  }

  // ----- references -----

  /** A reference reads Type[title], possibly with more after it; type and title fit 64 and 256 bytes with their NUL. */
  ghost predicate RefersTo(ref: string, kind: string, title: string) {
    && '[' !in kind && |kind| <= 63 && 1 <= |title| <= 255
    && exists rest :: ref == kind + "[" + title + "]" + rest && ']' !in rest
  }

  lemma FirstIndexIs(s: string, c: char, k: nat)
    requires k < |s| && s[k] == c && c !in s[..k]
    ensures FirstIndex(s, c) == Some(k)
  {
    if k > 0 {
      assert s[..k][0] == s[0] && s[..k][1..] == s[1..][..k - 1];
      FirstIndexIs(s[1..], c, k - 1);
    }
  }

  lemma ParsedRefers(ref: string, kind: string, title: string)
    requires ParseRef(ref) == Some((kind, title))
    ensures RefersTo(ref, kind, title)
  {
    var open, close := FirstIndex(ref, '[').value, LastIndex(ref, ']').value;
    assert ref == kind + "[" + title + "]" + ref[close + 1..];
  }

  lemma ReferenceParts(kind: string, title: string, rest: string)
    ensures var ref, close := kind + "[" + title + "]" + rest, |kind| + 1 + |title|;
            && close < |ref| && ref[|kind|] == '[' && ref[close] == ']'
            && ref[..|kind|] == kind && ref[|kind| + 1..close] == title && ref[close + 1..] == rest
  {
  }

  lemma PartsParse(ref: string, open: nat, close: nat)
    requires open + 1 < close < |ref| && open < TYPE_BUFFER && close - open - 1 < TITLE_BUFFER
    requires FirstIndex(ref, '[') == Some(open) && LastIndex(ref, ']') == Some(close)
    ensures ParseRef(ref) == Some((ref[..open], ref[open + 1..close]))
  {
    hide FirstIndex, LastIndex;
  }

  lemma BracketsParse(ref: string, open: nat, close: nat)
    requires open + 1 < close < |ref| && open < TYPE_BUFFER && close - open - 1 < TITLE_BUFFER
    requires ref[open] == '[' && '[' !in ref[..open] && ref[close] == ']' && ']' !in ref[close + 1..]
    ensures ParseRef(ref) == Some((ref[..open], ref[open + 1..close]))
  {
    hide ParseRef, FirstIndex, LastIndex;
    FirstIndexIs(ref, '[', open);
    LastIndexIs(ref, ']', close);
    PartsParse(ref, open, close);
  }

  lemma ParseRefExactly(ref: string, kind: string, title: string)
    ensures ParseRef(ref) == Some((kind, title)) <==> RefersTo(ref, kind, title)
  {
    hide ParseRef;
    if ParseRef(ref) == Some((kind, title)) {
      ParsedRefers(ref, kind, title);
    }
    if RefersTo(ref, kind, title) {
      var rest :| ref == kind + "[" + title + "]" + rest && ']' !in rest;
      ReferenceParts(kind, title, rest);
      BracketsParse(ref, |kind|, |kind| + 1 + |title|);
    }
  }

  /** One of the references names resource o. */
  ghost predicate Mentions(rs: seq<Option<Resource>>, refs: seq<string>, o: nat) {
    exists k :: 0 <= k < |refs| && Mention(rs, refs[k], o)
  }

  ghost predicate Mention(rs: seq<Option<Resource>>, ref: string, o: nat) {
    exists kind, title :: RefersTo(ref, kind, title) && FirstNamed(rs, kind, title, o)
  }

  lemma RefLinkIs(rs: seq<Option<Resource>>, meta: Meta, idx: nat, ref: string, l: Link)
    requires idx < |rs|
    ensures l in RefLink(rs, meta, idx, ref) <==> exists o: nat :: l == LinkFor(meta, idx, o) && Mention(rs, ref, o)
  {
    hide RefersTo, FirstNamed;
    var name, links := ParseRef(ref), RefLink(rs, meta, idx, ref);
    if l in links {
      var o := FindFrom(rs, name.value.0, name.value.1, 0).value;
      ParseRefExactly(ref, name.value.0, name.value.1);
      FoundIsFirstNamed(rs, name.value.0, name.value.1, o);
      assert l == LinkFor(meta, idx, o) && Mention(rs, ref, o);
    }
    if o: nat :| l == LinkFor(meta, idx, o) && Mention(rs, ref, o) {
      var kind, title :| RefersTo(ref, kind, title) && FirstNamed(rs, kind, title, o);
      ParseRefExactly(ref, kind, title);
      FoundIsFirstNamed(rs, kind, title, o);
      assert links == [l];
    }
  }

  lemma {:induction false} RefLinksAre(rs: seq<Option<Resource>>, meta: Meta, idx: nat, refs: seq<string>, l: Link)
    requires idx < |rs|
    ensures l in RefLinks(rs, meta, idx, refs) <==> exists o: nat :: l == LinkFor(meta, idx, o) && Mentions(rs, refs, o)
  {
    hide RefLink, Mention, LinkFor;
    if refs != [] {
      var init, last := refs[..|refs| - 1], refs[|refs| - 1];
      RefLinksAre(rs, meta, idx, init, l);
      RefLinkIs(rs, meta, idx, last, l);
      forall o: nat
        ensures Mentions(rs, refs, o) <==> Mentions(rs, init, o) || Mention(rs, last, o)
      {
        OneMoreMention(rs, refs, o);
      }
    }
  }

  lemma OneMoreMention(rs: seq<Option<Resource>>, refs: seq<string>, o: nat)
    requires refs != []
    ensures Mentions(rs, refs, o) <==> Mentions(rs, refs[..|refs| - 1], o) || Mention(rs, refs[|refs| - 1], o)
  {
    hide Mention;
    var init := refs[..|refs| - 1];
    if k :| 0 <= k < |refs| && Mention(rs, refs[k], o) {
      assert k < |init| ==> init[k] == refs[k];
    }
    if k :| 0 <= k < |init| && Mention(rs, init[k], o) {
      assert refs[k] == init[k];
    }
  }

  // ----- what a resource asks for -----

  /** By its metaparameters, resource i of the catalog asks to come after resource o. */
  ghost predicate DeclaredAfter(rs: seq<Option<Resource>>, ds: seq<Declared>, o: nat, i: nat) {
    || (i < |ds| && (Mentions(rs, ds[i].require, o) || Mentions(rs, ds[i].subscribe, o)))
    || (o < |ds| && (Mentions(rs, ds[o].before, i) || Mentions(rs, ds[o].notify, i)))
  }

  /** By its metaparameters, resource o asks to refresh resource i, or i asks to be refreshed by o. */
  ghost predicate DeclaredRefresh(rs: seq<Option<Resource>>, ds: seq<Declared>, o: nat, i: nat) {
    || (i < |ds| && Mentions(rs, ds[i].subscribe, o))
    || (o < |ds| && Mentions(rs, ds[o].notify, i))
  }

  /** The link that one resource's metaparameters ask for. */
  ghost predicate OwnLink(rs: seq<Option<Resource>>, d: Declared, idx: nat, l: Link) {
    || (l.target == idx && !l.notifies && Mentions(rs, d.require, l.source))
    || (l.source == idx && !l.notifies && Mentions(rs, d.before, l.target))
    || (l.source == idx && l.notifies && Mentions(rs, d.notify, l.target))
    || (l.target == idx && l.notifies && Mentions(rs, d.subscribe, l.source))
  }

  lemma DeclaredLinksAre(rs: seq<Option<Resource>>, idx: nat, d: Declared, l: Link)
    requires idx < |rs|
    ensures l in DeclaredLinks(rs, idx, d) <==> OwnLink(rs, d, idx, l)
  {
    hide RefLinks, Mentions;
    RefLinksAre(rs, Require, idx, d.require, l);
    RefLinksAre(rs, Before, idx, d.before, l);
    RefLinksAre(rs, Notify, idx, d.notify, l);
    RefLinksAre(rs, Subscribe, idx, d.subscribe, l);
    assert l == LinkFor(Require, idx, l.source) <==> l.target == idx && !l.notifies;
    assert l == LinkFor(Before, idx, l.target) <==> l.source == idx && !l.notifies;
    assert l == LinkFor(Notify, idx, l.target) <==> l.source == idx && l.notifies;
    assert l == LinkFor(Subscribe, idx, l.source) <==> l.target == idx && l.notifies;
  }

  lemma {:induction false} AllDeclaredLinksAre(rs: seq<Option<Resource>>, ds: seq<Declared>, n: nat, l: Link)
    requires n <= |ds| <= |rs|
    ensures l in AllDeclaredLinks(rs, ds, n) <==> exists i :: 0 <= i < n && OwnLink(rs, ds[i], i, l)
  {
    hide DeclaredLinks, OwnLink;
    if n > 0 {
      AllDeclaredLinksAre(rs, ds, n - 1, l);
      DeclaredLinksAre(rs, n - 1, ds[n - 1], l);
    }
  }

  // ----- edges and parents -----

  /** A catalog edge from resource o to resource i. */
  ghost predicate Edge(rs: seq<Option<Resource>>, e: ChainEdge, o: nat, i: nat) {
    FirstNamed(rs, e.sourceKind, e.sourceTitle, o) && FirstNamed(rs, e.targetKind, e.targetTitle, i)
  }

  predicate EdgeNotifies(e: ChainEdge) {
    e.relationship.Some? && e.relationship.value in {"notifies", "notify"}
  }

  ghost predicate EdgeAsks(rs: seq<Option<Resource>>, e: ChainEdge, l: Link) {
    Edge(rs, e, l.source, l.target) && l.notifies == EdgeNotifies(e)
  }

  lemma {:induction false} EdgeLinksAre(rs: seq<Option<Resource>>, edges: seq<ChainEdge>, l: Link)
    ensures l in EdgeLinks(rs, edges) <==> exists k :: 0 <= k < |edges| && EdgeAsks(rs, edges[k], l)
  {
    hide EdgeLink, EdgeAsks;
    if edges != [] {
      var init, last := edges[..|edges| - 1], edges[|edges| - 1];
      EdgeLinksAre(rs, init, l);
      EdgeLinkIs(rs, last, l);
      assert l in EdgeLinks(rs, edges) <==> l in EdgeLinks(rs, init) || l in EdgeLink(rs, last);
      if k :| 0 <= k < |edges| && EdgeAsks(rs, edges[k], l) {
        assert k < |init| ==> init[k] == edges[k];
      }
      if k :| 0 <= k < |init| && EdgeAsks(rs, init[k], l) {
        assert edges[k] == init[k];
      }
    }
  }

  lemma EdgeLinkIs(rs: seq<Option<Resource>>, e: ChainEdge, l: Link)
    ensures l in EdgeLink(rs, e) <==> EdgeAsks(rs, e, l)
  {
    hide FirstNamed;
    FoundIsFirstNamed(rs, e.sourceKind, e.sourceTitle, l.source);
    FoundIsFirstNamed(rs, e.targetKind, e.targetTitle, l.target);
  }

  /** The path a file resource manages: its path parameter unless that is missing or empty, else its title. */
  ghost predicate Manages(r: Resource, path: string) {
    (r.path == Some(path) && path != "") || ((r.path == None || r.path == Some("")) && path == r.title)
  }

  /** The directory that holds the path; the root counts as none. */
  ghost predicate DirectoryOf(dir: string, path: string) {
    |dir| >= 2 && dir[0] == '/' && exists name :: path == dir + "/" + name && '/' !in name
  }

  /** A file resource i with the file resource o for its parent directory. */
  ghost predicate ParentFile(rs: seq<Option<Resource>>, o: nat, i: nat) {
    && o != i && i < |rs| && rs[i].Some? && SameIgnoringCase(rs[i].value.kind, "file")
    && exists path, dir :: Manages(rs[i].value, path) && DirectoryOf(dir, path) && FirstNamed(rs, "file", dir, o)
  }

  lemma ParentPathExactly(path: string, dir: string)
    ensures ParentPath(path) == Some(dir) && |dir| > 1 <==> DirectoryOf(dir, path)
  {
    if ParentPath(path) == Some(dir) && |dir| > 1 {
      var slash := LastIndex(path, '/').value;
      assert path == dir + "/" + path[slash + 1..];
      assert dir[0] == path[0];
    }
    if DirectoryOf(dir, path) {
      var name :| path == dir + "/" + name && '/' !in name;
      assert path[|dir| + 1..] == name && path[0] == dir[0];
      LastIndexIs(path, '/', |dir|);
      assert path[..|dir|] == dir;
    }
  }

  /** The root is the parent of what stands right below it. */
  lemma RootIsParentExactly(path: string)
    ensures ParentPath(path) == Some("/") <==> path != "" && path[0] == '/' && forall i :: 2 <= i < |path| ==> path[i] != '/'
  {
    if path != "" && path[0] == '/' {
      var slash := LastIndex(path, '/').value;
      assert |path[..slash]| == slash;
      assert slash >= 2 ==> path[slash] == '/';
      if slash == 1 {
        assert path[..1] == "/";
      }
    }
  }

  lemma ParentIsParentFile(rs: seq<Option<Resource>>, o: nat, i: nat)
    requires i < |rs|
    ensures Parent(rs, i) == Some(o) <==> ParentFile(rs, o, i)
  {
    hide FirstNamed, DirectoryOf, ParentPath, FindFrom;
    if rs[i].Some? {
      LowerIgnoresCase(rs[i].value.kind, "file");
      var path := EffectivePath(rs[i].value);
      assert forall p :: Manages(rs[i].value, p) <==> p == path;
      var dir := ParentPath(path);
      if dir.Some? {
        ParentPathExactly(path, dir.value);
        FoundIsFirstNamed(rs, "file", dir.value, o);
      }
      if ParentFile(rs, o, i) {
        var p, d :| Manages(rs[i].value, p) && DirectoryOf(d, p) && FirstNamed(rs, "file", d, o);
        ParentPathExactly(p, d);
      }
    }
  }

  // ----- all requests -----

  /** The catalog asks resource i to come after resource o. */
  ghost predicate AsksAfter(rs: seq<Option<Resource>>, ds: seq<Declared>, edges: seq<ChainEdge>, o: nat, i: nat) {
    o != i && (
      || DeclaredAfter(rs, ds, o, i)
      || (exists k :: 0 <= k < |edges| && Edge(rs, edges[k], o, i))
      || ParentFile(rs, o, i))
  }

  /** The catalog asks that a change of resource o refreshes resource i. */
  ghost predicate AsksRefresh(rs: seq<Option<Resource>>, ds: seq<Declared>, edges: seq<ChainEdge>, o: nat, i: nat) {
    o != i && (
      || DeclaredRefresh(rs, ds, o, i)
      || (exists k :: 0 <= k < |edges| && Edge(rs, edges[k], o, i) && EdgeNotifies(edges[k])))
  }

  lemma RequestedLinksAre(rs: seq<Option<Resource>>, ds: seq<Declared>, edges: seq<ChainEdge>, l: Link)
    requires |ds| == |rs|
    ensures l in RequestedLinks(rs, ds, edges) <==>
            || (exists i :: 0 <= i < |ds| && OwnLink(rs, ds[i], i, l))
            || (exists k :: 0 <= k < |edges| && EdgeAsks(rs, edges[k], l))
            || (l.target < |rs| && ParentFile(rs, l.source, l.target) && !l.notifies)
  {
    hide AllDeclaredLinks, EdgeLinks, AutoLinks, OwnLink, Edge, ParentFile, Parent, EdgeNotifies;
    AllDeclaredLinksAre(rs, ds, |ds|, l);
    EdgeLinksAre(rs, edges, l);
    AutoLinksAre(rs, |rs|, l);
    if l.target < |rs| {
      ParentIsParentFile(rs, l.source, l.target);
    }
  }

  lemma LinkGives(links: seq<Link>, o: nat, i: nat)
    requires o != i
    ensures o in Sources(links, i) <==> Link(o, i, false) in links || Link(o, i, true) in links
    ensures i in Notified(links, o) <==> Link(o, i, true) in links
  {
    if o in Sources(links, i) {
      var k :| 0 <= k < |links| && links[k].target == i && links[k].source == o;
      assert links[k] == Link(o, i, links[k].notifies);
    }
    if i in Notified(links, o) {
      var k :| 0 <= k < |links| && links[k].notifies && links[k].source == o && links[k].target == i;
      assert links[k] == Link(o, i, true);
    }
    if Link(o, i, true) in links {
      var k :| 0 <= k < |links| && links[k] == Link(o, i, true);
    }
    if Link(o, i, false) in links {
      var k :| 0 <= k < |links| && links[k] == Link(o, i, false);
    }
  }

  /** The links ask for exactly this: what must come before what, and what refreshes what. */
  lemma RequestsExactly(rs: seq<Option<Resource>>, ds: seq<Declared>, edges: seq<ChainEdge>, o: nat, i: nat)
    requires |ds| == |rs|
    ensures o in Sources(RequestedLinks(rs, ds, edges), i) <==> AsksAfter(rs, ds, edges, o, i)
    ensures i in Notified(RequestedLinks(rs, ds, edges), o) <==> AsksRefresh(rs, ds, edges, o, i)
  {
    var links := RequestedLinks(rs, ds, edges);
    if o != i {
      hide RequestedLinks, Mentions, Edge, EdgeNotifies, ParentFile, Sources, Notified;
      LinkGives(links, o, i);
      RequestedLinksAre(rs, ds, edges, Link(o, i, false));
      RequestedLinksAre(rs, ds, edges, Link(o, i, true));
      OwnLinksExactly(rs, ds, o, i);
      assert ParentFile(rs, o, i) ==> i < |rs| by { ParentBelow(rs, o, i); }
    }
  }

  lemma ParentBelow(rs: seq<Option<Resource>>, o: nat, i: nat)
    ensures ParentFile(rs, o, i) ==> i < |rs|
  {
  }

  lemma OwnLinksExactly(rs: seq<Option<Resource>>, ds: seq<Declared>, o: nat, i: nat)
    ensures (exists x :: 0 <= x < |ds| && OwnLink(rs, ds[x], x, Link(o, i, true))) <==> DeclaredRefresh(rs, ds, o, i)
    ensures (exists x, n :: 0 <= x < |ds| && OwnLink(rs, ds[x], x, Link(o, i, n))) <==> DeclaredAfter(rs, ds, o, i)
  {
    hide Mentions;
    if i < |ds| {
      assert Mentions(rs, ds[i].subscribe, o) ==> OwnLink(rs, ds[i], i, Link(o, i, true));
      assert Mentions(rs, ds[i].require, o) ==> OwnLink(rs, ds[i], i, Link(o, i, false));
    }
    if o < |ds| {
      assert Mentions(rs, ds[o].notify, i) ==> OwnLink(rs, ds[o], o, Link(o, i, true));
      assert Mentions(rs, ds[o].before, i) ==> OwnLink(rs, ds[o], o, Link(o, i, false));
    }
  }
}
