/** The per-resource record of the agent and its 64-slot edge lists. */
module CatalogEntries {
  import opened Common
  import opened CatalogGraph

  const MAX_DEPS: nat := 64
  const MAX_NOTIFY: nat := 64

  datatype Resource = Resource(kind: string, title: string, path: Option<string>)

  /** `resource` is None where the catalog element could not be parsed. */
  datatype Entry = Entry(
    resource: Option<Resource>,
    deps: seq<nat>,
    notifies: seq<nat>,
    inDegree: nat,
    applied: bool,
    changed: bool,
    needsRefresh: bool)

  function Blank(resource: Option<Resource>): Entry {
    Entry(resource, [], [], 0, false, false, false)
  }

  ghost function Deps(es: seq<Entry>): (g: Graph)
    ensures |g| == |es|
    ensures forall i :: 0 <= i < |es| ==> g[i] == es[i].deps
  {
    seq(|es|, i requires 0 <= i < |es| => es[i].deps)
  }

  ghost function Notifies(es: seq<Entry>): (g: Graph)
    ensures |g| == |es|
    ensures forall i :: 0 <= i < |es| ==> g[i] == es[i].notifies
  {
    seq(|es|, i requires 0 <= i < |es| => es[i].notifies)
  }

  ghost function Resources(es: seq<Entry>): (rs: seq<Option<Resource>>)
    ensures |rs| == |es|
    ensures forall i :: 0 <= i < |es| ==> rs[i] == es[i].resource
  {
    seq(|es|, i requires 0 <= i < |es| => es[i].resource)
  }
}
