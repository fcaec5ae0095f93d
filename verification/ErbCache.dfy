/**
 * The shared cache of parsed ERB templates, with entries for templates the native parser does not support. Threads look
 * a name up under the mutex, build the tree outside it, and insert it unless another thread was faster. Each locked
 * section is one step; nobody clears the cache during the run.
 */
module ErbCache {
  import opened Common

  /** `tree` is None for a template that is known not to be supported. */
  datatype Entry = Entry(name: string, tree: Option<nat>)

  /** Where a thread is inside the render call. `shared` tells that the cache owns the tree. */
  datatype Pc<A> =
    | Idle
    | Looking(name: string, text: string)
    | Building(key: Option<string>, text: string)
    | Built(name: string, text: string, tree: Option<nat>)
    | Rendering(text: string, use: nat, shared: bool)
    | Rendered(text: string, use: nat, shared: bool, seen: A)
    | Done(text: string, result: Option<A>)

  datatype Answer<A> = Answer(text: string, result: Option<A>)

  /**
   * `parse` is the template parser and `source` the content behind each name. `heap` holds every tree ever built; a
   * render answers with the tree it walked.
   */
  datatype State<!A> = State(
    parse: string -> Option<A>,
    source: string -> string,
    cache: seq<Entry>,
    pcs: seq<Pc<A>>,
    heap: seq<A>,
    freed: set<nat>,
    answers: seq<Answer<A>>)

  datatype Action =
    | Start(t: nat, name: Option<string>, text: string)
    | Lookup(t: nat)
    | Build(t: nat)
    | Insert(t: nat)
    | Render(t: nat)
    | Release(t: nat)
    | Finish(t: nat)

  function Initial<A>(parse: string -> Option<A>, source: string -> string, threads: nat): State<A> {
    State(parse, source, [], seq(threads, _ => Idle), [], {}, [])
  }

  function Find(cache: seq<Entry>, name: string): (r: Option<Entry>)
    ensures r.Some? ==> r.value in cache && r.value.name == name
    ensures r.None? ==> forall e :: e in cache ==> e.name != name
  {
    if cache == [] then None
    else if cache[0].name == name then Some(cache[0])
    else Find(cache[1..], name)
  }

  predicate Can<A>(s: State<A>, a: Action) {
    && a.t < |s.pcs|
    && match a
       case Start(t, name, text) => s.pcs[t].Idle? && (name.Some? ==> text == s.source(name.value))
       case Lookup(t) => s.pcs[t].Looking?
       case Build(t) => s.pcs[t].Building?
       case Insert(t) => s.pcs[t].Built?
       case Render(t) => s.pcs[t].Rendering? && s.pcs[t].use < |s.heap|
       case Release(t) => s.pcs[t].Rendered?
       case Finish(t) => s.pcs[t].Done?
  }

  /** With a tree go on to render it, without one give up. */
  function Continue<A>(text: string, tree: Option<nat>, shared: bool): Pc<A> {
    match tree case None => Done(text, None) case Some(id) => Rendering(text, id, shared)
  }

  function Next<A>(s: State<A>, a: Action): State<A>
    requires Can(s, a)
  {
    var pc := s.pcs[a.t];
    match a
    case Start(t, name, text) =>
      s.(pcs := s.pcs[t := match name case None => Building(None, text) case Some(n) => Looking(n, text)])
    case Lookup(t) =>
      s.(pcs := s.pcs[t := match Find(s.cache, pc.name)
                           case None => Building(Some(pc.name), pc.text)
                           case Some(e) => Continue(pc.text, e.tree, true)])
    case Build(t) =>
      var parsed := s.parse(pc.text);
      var tree := if parsed.Some? then Some(|s.heap|) else None;
      s.(heap := if parsed.Some? then s.heap + [parsed.value] else s.heap,
         pcs := s.pcs[t := match pc.key case None => Continue(pc.text, tree, false) case Some(n) => Built(n, pc.text, tree)])
    case Insert(t) =>
      if Find(s.cache, pc.name).Some? then s.(pcs := s.pcs[t := Continue(pc.text, pc.tree, false)])
      else s.(pcs := s.pcs[t := Continue(pc.text, pc.tree, true)], cache := [Entry(pc.name, pc.tree)] + s.cache)
    case Render(t) => s.(pcs := s.pcs[t := Rendered(pc.text, pc.use, pc.shared, s.heap[pc.use])])
    case Release(t) =>
      s.(pcs := s.pcs[t := Done(pc.text, Some(pc.seen))], freed := if pc.shared then s.freed else s.freed + {pc.use})
    case Finish(t) => s.(pcs := s.pcs[t := Idle], answers := s.answers + [Answer(pc.text, pc.result)])
  }

  // ----- invariant -----

  /** The tree only this thread knows. */
  function Own<A>(pc: Pc<A>): Option<nat> {
    match pc
    case Built(_, _, tree) => tree
    case Rendering(_, use, shared) => if shared then None else Some(use)
    case Rendered(_, use, shared, _) => if shared then None else Some(use)
    case _ => None
  }

  ghost predicate IsCached<A(!new)>(s: State<A>, id: nat) {
    exists i :: 0 <= i < |s.cache| && s.cache[i].tree == Some(id)
  }

  /** One entry a name, holding what parsing that name's content gives; its tree is live. */
  ghost predicate CacheRight<A(!new)>(s: State<A>) {
    && (forall i, j :: 0 <= i < j < |s.cache| ==> s.cache[i].name != s.cache[j].name)
    && (forall i :: 0 <= i < |s.cache| ==> EntryRight(s, s.cache[i]))
    && (forall d :: d in s.freed ==> d < |s.heap|)
  }

  ghost predicate EntryRight<A(!new)>(s: State<A>, e: Entry) {
    match e.tree
    case None => s.parse(s.source(e.name)) == None
    case Some(id) => id < |s.heap| && id !in s.freed && s.parse(s.source(e.name)) == Some(s.heap[id])
  }

  ghost predicate OwnPrivate<A(!new)>(s: State<A>) {
    && (forall t :: 0 <= t < |s.pcs| && Own(s.pcs[t]).Some? ==>
          Own(s.pcs[t]).value < |s.heap| && Own(s.pcs[t]).value !in s.freed && !IsCached(s, Own(s.pcs[t]).value))
    && (forall t, u :: 0 <= t < u < |s.pcs| && Own(s.pcs[t]).Some? ==> Own(s.pcs[t]) != Own(s.pcs[u]))
  }

  ghost predicate ThreadRight<A(!new)>(s: State<A>, pc: Pc<A>) {
    match pc
    case Looking(name, text) => text == s.source(name)
    case Building(key, text) => key.Some? ==> text == s.source(key.value)
    case Built(name, text, tree) =>
      text == s.source(name) &&
      (match tree case None => s.parse(text) == None case Some(id) => id < |s.heap| && s.parse(text) == Some(s.heap[id]))
    case Rendering(text, use, shared) =>
      use < |s.heap| && s.parse(text) == Some(s.heap[use]) && (shared ==> IsCached(s, use))
    case Rendered(text, use, shared, seen) => use < |s.heap| && s.parse(text) == Some(seen) && (shared ==> IsCached(s, use))
    case Done(text, result) => result == s.parse(text)
    case _ => true
  }

  ghost predicate ThreadsRight<A(!new)>(s: State<A>) {
    && (forall t :: 0 <= t < |s.pcs| ==> ThreadRight(s, s.pcs[t]))
    && (forall k :: 0 <= k < |s.answers| ==> s.answers[k].result == s.parse(s.answers[k].text))
  }

  /** Every tree is owned by the cache or by one thread, or has been freed. */
  ghost predicate NothingLeaked<A(!new)>(s: State<A>) {
    forall id: nat :: id < |s.heap| ==> Accounted(s, id)
  }

  ghost predicate Accounted<A(!new)>(s: State<A>, id: nat) {
    IsCached(s, id) || id in s.freed || exists t :: 0 <= t < |s.pcs| && Own(s.pcs[t]) == Some(id)
  }

  ghost predicate Inv<A(!new)>(s: State<A>) {
    CacheRight(s) && OwnPrivate(s) && ThreadsRight(s) && NothingLeaked(s)
  }

  lemma InvInitially<A(!new)>(parse: string -> Option<A>, source: string -> string, threads: nat)
    ensures Inv(Initial(parse, source, threads))
  {
  }

  lemma StillCached<A(!new)>(s: State<A>, a: Action, id: nat)
    requires Can(s, a) && IsCached(s, id)
    ensures IsCached(Next(s, a), id)
  {
    var i :| 0 <= i < |s.cache| && s.cache[i].tree == Some(id);
    var after := Next(s, a);
    assert after.cache[i + |after.cache| - |s.cache|] == s.cache[i];
  }

  lemma NotCachedBefore<A(!new)>(s: State<A>, a: Action, id: nat)
    requires Can(s, a) && IsCached(Next(s, a), id)
    ensures IsCached(s, id) || (a.Insert? && Own(s.pcs[a.t]) == Some(id))
  {
    var after := Next(s, a);
    var i :| 0 <= i < |after.cache| && after.cache[i].tree == Some(id);
    if after.cache != s.cache && i > 0 {
      assert s.cache[i - 1] == after.cache[i];
    }
  }

  lemma KeepsCache<A(!new)>(s: State<A>, a: Action)
    requires Inv(s) && Can(s, a)
    ensures CacheRight(Next(s, a))
  {
    hide NothingLeaked;
    var after := Next(s, a);
    assert ThreadRight(s, s.pcs[a.t]);
    forall i | 0 <= i < |after.cache|
      ensures EntryRight(after, after.cache[i])
    {
      var e := after.cache[i];
      if after.cache == s.cache || i > 0 {
        assert e == s.cache[if after.cache == s.cache then i else i - 1];
        assert EntryRight(s, e);
        assert e.tree.Some? ==> IsCached(s, e.tree.value);
      }
    }
    forall e | e in s.cache
      ensures a.Insert? && Find(s.cache, s.pcs[a.t].name).None? ==> e.name != s.pcs[a.t].name
    {
    }
  }

  /** A tree that is live and in no entry. */
  ghost predicate Private<A(!new)>(s: State<A>, id: nat) {
    id < |s.heap| && id !in s.freed && !IsCached(s, id)
  }

  /** What a step does to trees and owners. */
  lemma OwnersAfter<A(!new)>(s: State<A>, a: Action)
    requires Can(s, a)
    ensures var t, own, now := Next(s, a), Own(s.pcs[a.t]), Own(Next(s, a).pcs[a.t]);
            && |t.pcs| == |s.pcs| && t.pcs == s.pcs[a.t := t.pcs[a.t]] && |s.heap| <= |t.heap|
            && (t.freed == s.freed || (own.Some? && now.None? && t.freed == s.freed + {own.value}))
            && (now.None? || now == own || (a.Build? && now == Some(|s.heap|) && |s.heap| < |t.heap|))
            && (forall id: nat :: IsCached(t, id) ==> IsCached(s, id) || (own == Some(id) && now.None?))
  {
    forall id: nat | IsCached(Next(s, a), id) && !IsCached(s, id)
      ensures Own(s.pcs[a.t]) == Some(id) && Own(Next(s, a).pcs[a.t]).None?
    {
      InsertedIsGivenAway(s, a, id);
    }
  }

  lemma InsertedIsGivenAway<A(!new)>(s: State<A>, a: Action, id: nat)
    requires Can(s, a) && IsCached(Next(s, a), id) && !IsCached(s, id)
    ensures Own(s.pcs[a.t]) == Some(id) && Own(Next(s, a).pcs[a.t]).None?
  {
    NotCachedBefore(s, a, id);
  }

  lemma NewTreeIsUnknown<A(!new)>(s: State<A>)
    requires CacheRight(s)
    ensures !IsCached(s, |s.heap|) && |s.heap| !in s.freed
  {
    forall i | 0 <= i < |s.cache|
      ensures s.cache[i].tree != Some(|s.heap|)
    {
      assert EntryRight(s, s.cache[i]);
    }
  }

  lemma OwnStaysPrivate<A(!new)>(s: State<A>, a: Action, t: nat)
    requires Inv(s) && Can(s, a) && t < |Next(s, a).pcs| && Own(Next(s, a).pcs[t]).Some?
    ensures Private(Next(s, a), Own(Next(s, a).pcs[t]).value)
  {
    hide NothingLeaked, ThreadsRight, IsCached, Next, Own;
    OwnersAfter(s, a);
    NewTreeIsUnknown(s);
    if t != a.t {
      assert Own(s.pcs[t]).Some? && Own(s.pcs[t]) != Own(s.pcs[a.t]);
    }
  }

  lemma OwnersDiffer<A(!new)>(s: State<A>, a: Action, t: nat, u: nat)
    requires Inv(s) && Can(s, a) && t < u < |Next(s, a).pcs| && Own(Next(s, a).pcs[t]).Some?
    ensures Own(Next(s, a).pcs[t]) != Own(Next(s, a).pcs[u])
  {
    hide NothingLeaked, ThreadsRight, IsCached, Next, Own;
    OwnersAfter(s, a);
  }

  lemma KeepsOwn<A(!new)>(s: State<A>, a: Action)
    requires Inv(s) && Can(s, a)
    ensures OwnPrivate(Next(s, a))
  {
    hide Inv, IsCached, Next, Can, Own;
    var after := Next(s, a);
    forall t | 0 <= t < |after.pcs| && Own(after.pcs[t]).Some?
      ensures Private(after, Own(after.pcs[t]).value)
    {
      OwnStaysPrivate(s, a, t);
    }
    forall t, u | 0 <= t < u < |after.pcs| && Own(after.pcs[t]).Some?
      ensures Own(after.pcs[t]) != Own(after.pcs[u])
    {
      OwnersDiffer(s, a, t, u);
    }
  }

  lemma KeepsThreads<A(!new)>(s: State<A>, a: Action)
    requires Inv(s) && Can(s, a)
    ensures ThreadsRight(Next(s, a))
  {
    hide NothingLeaked, OwnPrivate, IsCached;
    var after := Next(s, a);
    forall t | 0 <= t < |after.pcs|
      ensures ThreadRight(after, after.pcs[t])
    {
      assert ThreadRight(s, s.pcs[t]);
      if (s.pcs[t].Rendering? || s.pcs[t].Rendered?) && s.pcs[t].shared {
        StillCached(s, a, s.pcs[t].use);
      }
      if t == a.t {
        MovedThreadRight(s, a);
      }
    }
  }

  lemma FoundEntryRight<A(!new)>(s: State<A>, name: string)
    requires CacheRight(s) && Find(s.cache, name).Some?
    ensures var e := Find(s.cache, name).value;
            e.name == name && EntryRight(s, e) && (e.tree.Some? ==> IsCached(s, e.tree.value))
  {
    var e := Find(s.cache, name).value;
    var i :| 0 <= i < |s.cache| && s.cache[i] == e;
    assert EntryRight(s, s.cache[i]);
  }

  lemma LookupRight<A(!new)>(s: State<A>, a: Action)
    requires Inv(s) && Can(s, a) && a.Lookup?
    ensures ThreadRight(Next(s, a), Next(s, a).pcs[a.t])
  {
    hide NothingLeaked, OwnPrivate, CacheRight, IsCached;
    assert ThreadRight(s, s.pcs[a.t]);
    var found := Find(s.cache, s.pcs[a.t].name);
    if found.Some? {
      FoundEntryRight(s, s.pcs[a.t].name);
      if found.value.tree.Some? {
        StillCached(s, a, found.value.tree.value);
      }
    }
  }

  lemma MovedThreadRight<A(!new)>(s: State<A>, a: Action)
    requires Inv(s) && Can(s, a)
    ensures ThreadRight(Next(s, a), Next(s, a).pcs[a.t])
  {
    hide NothingLeaked, OwnPrivate, CacheRight;
    if a.Lookup? {
      LookupRight(s, a);
    } else {
      assert ThreadRight(s, s.pcs[a.t]);
      var after := Next(s, a);
      if a.Insert? {
        assert after.cache != s.cache ==> after.cache[0].tree == s.pcs[a.t].tree;
      } else if a.Render? && s.pcs[a.t].shared {
        StillCached(s, a, s.pcs[a.t].use);
      }
    }
  }

  lemma KeepsLeaks<A(!new)>(s: State<A>, a: Action)
    requires Inv(s) && Can(s, a)
    ensures NothingLeaked(Next(s, a))
  {
    hide CacheRight, ThreadsRight;
    var after := Next(s, a);
    forall id: nat | id < |after.heap|
      ensures Accounted(after, id)
    {
      if id < |s.heap| {
        assert Accounted(s, id);
        if IsCached(s, id) {
          StillCached(s, a, id);
        } else if id !in s.freed {
          var t :| 0 <= t < |s.pcs| && Own(s.pcs[t]) == Some(id);
          assert t != a.t ==> Own(after.pcs[t]) == Some(id);
          assert t == a.t && a.Insert? && after.cache != s.cache ==> after.cache[0].tree == Some(id);
          assert t == a.t && (a.Render? || (a.Insert? && after.cache == s.cache)) ==> Own(after.pcs[t]) == Some(id);
        }
      } else {
        assert Own(after.pcs[a.t]) == Some(id);
      }
    }
  }

  lemma StepKeepsInv<A(!new)>(s: State<A>, a: Action)
    requires Inv(s) && Can(s, a)
    ensures Inv(Next(s, a))
  {
    hide Can, Next, CacheRight, OwnPrivate, ThreadsRight, NothingLeaked;
    KeepsCache(s, a);
    KeepsOwn(s, a);
    KeepsThreads(s, a);
    KeepsLeaks(s, a);
  }

  // ----- what every run satisfies -----

  ghost predicate IsRun<A(!new)>(parse: string -> Option<A>, source: string -> string, threads: nat,
                                 states: seq<State<A>>, actions: seq<Action>)
  {
    && |states| == |actions| + 1
    && states[0] == Initial(parse, source, threads)
    && (forall i :: 0 <= i < |actions| ==> Can(states[i], actions[i]) && states[i + 1] == Next(states[i], actions[i]))
  }

  lemma {:induction false} RunKeepsInv<A(!new)>(parse: string -> Option<A>, source: string -> string, threads: nat,
                                                states: seq<State<A>>, actions: seq<Action>, i: nat)
    requires IsRun(parse, source, threads, states, actions) && i < |states|
    ensures Inv(states[i]) && states[i].parse == parse && states[i].source == source
  {
    if i == 0 {
      InvInitially(parse, source, threads);
    } else {
      RunKeepsInv(parse, source, threads, states, actions, i - 1);
      assert Can(states[i - 1], actions[i - 1]) && states[i - 1 + 1] == Next(states[i - 1], actions[i - 1]);
      StepKeepsInv(states[i - 1], actions[i - 1]);
    }
  }

  /** Every render of a run answers as if the template had been parsed afresh, also when it is not supported. */
  lemma AnswersAsParsedAfresh<A(!new)>(parse: string -> Option<A>, source: string -> string, threads: nat,
                                       states: seq<State<A>>, actions: seq<Action>, i: nat, k: nat)
    requires IsRun(parse, source, threads, states, actions) && i < |states| && k < |states[i].answers|
    ensures states[i].answers[k].result == parse(states[i].answers[k].text)
  {
    RunKeepsInv(parse, source, threads, states, actions, i);
    assert ThreadsRight(states[i]);
  }

  /** A name has at most one entry, and a tree that is in the cache is never freed. */
  lemma OneEntryPerName<A(!new)>(parse: string -> Option<A>, source: string -> string, threads: nat,
                                 states: seq<State<A>>, actions: seq<Action>, i: nat, j: nat, k: nat)
    requires IsRun(parse, source, threads, states, actions) && i < |states|
    requires j < |states[i].cache| && k < |states[i].cache| && states[i].cache[j].name == states[i].cache[k].name
    ensures j == k
    ensures states[i].cache[j].tree.Some? ==> states[i].cache[j].tree.value !in states[i].freed
  {
    RunKeepsInv(parse, source, threads, states, actions, i);
    assert EntryRight(states[i], states[i].cache[j]);
  }

  /** No thread walks or frees a tree that has been freed, and a tree is only ever freed by the thread that owns it. */
  lemma TreesUsedWhileOwned<A(!new)>(parse: string -> Option<A>, source: string -> string, threads: nat,
                                     states: seq<State<A>>, actions: seq<Action>, i: nat)
    requires IsRun(parse, source, threads, states, actions) && i < |actions|
    ensures var s, t, a := states[i], states[i + 1], actions[i];
            && a.t < |s.pcs|
            && (a.Render? || a.Release? ==> s.pcs[a.t].use !in s.freed)
            && (forall id :: id in t.freed && id !in s.freed ==> a.Release? && Own(s.pcs[a.t]) == Some(id) && !IsCached(s, id))
            && (forall id, u :: id in t.freed && id !in s.freed && 0 <= u < |s.pcs| && u != a.t ==> Own(s.pcs[u]) != Some(id))
  {
    RunKeepsInv(parse, source, threads, states, actions, i);
    assert Can(states[i], actions[i]) && states[i + 1] == Next(states[i], actions[i]);
    StepFreesOwn(states[i], actions[i]);
  }

  lemma StepFreesOwn<A(!new)>(s: State<A>, a: Action)
    requires Inv(s) && Can(s, a)
    ensures a.Render? || a.Release? ==> s.pcs[a.t].use !in s.freed
    ensures forall id :: id in Next(s, a).freed && id !in s.freed ==> a.Release? && Own(s.pcs[a.t]) == Some(id) && !IsCached(s, id)
    ensures forall id, t :: id in Next(s, a).freed && id !in s.freed && 0 <= t < |s.pcs| && t != a.t ==> Own(s.pcs[t]) != Some(id)
  {
    if a.Render? || a.Release? {
      assert ThreadRight(s, s.pcs[a.t]);
      if s.pcs[a.t].shared {
        var i :| 0 <= i < |s.cache| && s.cache[i].tree == Some(s.pcs[a.t].use);
        assert EntryRight(s, s.cache[i]);
      }
    }
  }

  /** Once every thread is idle the live trees are exactly the cached ones. */
  lemma QuietState<A(!new)>(parse: string -> Option<A>, source: string -> string, threads: nat,
                            states: seq<State<A>>, actions: seq<Action>, i: nat, id: nat)
    requires IsRun(parse, source, threads, states, actions) && i < |states| && id < |states[i].heap|
    requires forall t :: 0 <= t < |states[i].pcs| ==> states[i].pcs[t].Idle?
    ensures id in states[i].freed <==> !IsCached(states[i], id)
  {
    RunKeepsInv(parse, source, threads, states, actions, i);
    var s := states[i];
    assert Accounted(s, id);
    if IsCached(s, id) {
      var k :| 0 <= k < |s.cache| && s.cache[k].tree == Some(id);
      assert EntryRight(s, s.cache[k]);
    }
  }

  // ----- what each call answers -----

  predicate Named(cache: seq<Entry>, name: string) {
    exists i :: 0 <= i < |cache| && cache[i].name == name
  }

  /** A call of thread t: it starts at step i, and step k is the first after it at which the thread returns. */
  ghost predicate IsCall(actions: seq<Action>, i: nat, k: nat, t: nat, name: Option<string>, text: string) {
    && i < k < |actions| && actions[i] == Start(t, name, text) && actions[k] == Finish(t)
    && Unfinished(actions, i, k, t)
  }

  ghost predicate Unfinished(actions: seq<Action>, i: nat, k: nat, t: nat)
    requires k <= |actions|
  {
    forall m :: i < m < k ==> actions[m] != Finish(t)
  }

  /** Between the two steps the thread built a tree, or tried to. */
  ghost predicate Builds(actions: seq<Action>, i: nat, k: nat, t: nat)
    requires k <= |actions|
  {
    exists m :: i < m < k && actions[m] == Build(t)
  }

  /** The name was in the cache when the thread looked it up. */
  ghost predicate FoundNamed<A(!new)>(states: seq<State<A>>, actions: seq<Action>, i: nat, k: nat, t: nat, name: Option<string>)
    requires k <= |actions| <= |states|
  {
    exists m :: i < m < k && actions[m] == Lookup(t) && name.Some? && Named(states[m].cache, name.value)
  }

  /** How far the call has come, and what it has done. */
  ghost predicate CallAt<A(!new)>(states: seq<State<A>>, actions: seq<Action>, i: nat, k: nat, t: nat,
                                  name: Option<string>, text: string)
    requires k <= |actions| < |states|
  {
    && t < |states[k].pcs|
    && var built, found := Builds(actions, i, k, t), FoundNamed(states, actions, i, k, t, name);
    match states[k].pcs[t]
    case Idle => false
    case Looking(n, x) => name == Some(n) && x == text && !built && !found
    case Building(key, x) => key == name && x == text && !built && !found
    case Built(n, x, _) => name == Some(n) && x == text && built && !found
    case Rendering(x, _, _) => x == text && (built <==> !found) && (name.Some? ==> Named(states[k].cache, name.value))
    case Rendered(x, _, _, _) => x == text && (built <==> !found) && (name.Some? ==> Named(states[k].cache, name.value))
    case Done(x, _) => x == text && (built <==> !found) && (name.Some? ==> Named(states[k].cache, name.value))
  }

  lemma CallLooksBack<A(!new)>(states: seq<State<A>>, actions: seq<Action>, i: nat, k: nat, t: nat, name: Option<string>)
    requires i < k < |actions| <= |states|
    ensures Builds(actions, i, k + 1, t) <==> Builds(actions, i, k, t) || actions[k] == Build(t)
    ensures FoundNamed(states, actions, i, k + 1, t, name) <==>
            FoundNamed(states, actions, i, k, t, name)
            || (actions[k] == Lookup(t) && name.Some? && Named(states[k].cache, name.value))
  {
  }

  lemma FindNamed(cache: seq<Entry>, name: string)
    ensures Find(cache, name).Some? <==> Named(cache, name)
  {
    if i :| 0 <= i < |cache| && cache[i].name == name {
      assert cache[i] in cache;
    }
  }

  lemma StillNamed<A(!new)>(s: State<A>, a: Action, name: string)
    requires Can(s, a) && Named(s.cache, name)
    ensures Named(Next(s, a).cache, name)
  {
    var i :| 0 <= i < |s.cache| && s.cache[i].name == name;
    var after := Next(s, a);
    assert after.cache[i + |after.cache| - |s.cache|] == s.cache[i];
  }

  lemma NowNamed<A(!new)>(s: State<A>, a: Action)
    requires Can(s, a) && a.Insert?
    ensures Named(Next(s, a).cache, s.pcs[a.t].name)
  {
    FindNamed(s.cache, s.pcs[a.t].name);
    if Find(s.cache, s.pcs[a.t].name).None? {
      assert Next(s, a).cache[0].name == s.pcs[a.t].name;
    }
  }

  /** One step of any thread, seen from the call. */
  lemma CallStep<A(!new)>(states: seq<State<A>>, actions: seq<Action>, i: nat, k: nat, t: nat, name: Option<string>, text: string)
    requires i < k < |actions| < |states| && CallAt(states, actions, i, k, t, name, text)
    requires Can(states[k], actions[k]) && states[k + 1] == Next(states[k], actions[k])
    requires actions[k] != Finish(t)
    ensures CallAt(states, actions, i, k + 1, t, name, text)
  {
    hide Builds, FoundNamed, Named, Find;
    CallLooksBack(states, actions, i, k, t, name);
    if name.Some? {
      FindNamed(states[k].cache, name.value);
      if Named(states[k].cache, name.value) {
        StillNamed(states[k], actions[k], name.value);
      }
    }
    if actions[k] == Insert(t) {
      NowNamed(states[k], actions[k]);
    }
  }

  lemma CallBegins<A(!new)>(states: seq<State<A>>, actions: seq<Action>, i: nat, t: nat, name: Option<string>, text: string)
    requires i < |actions| < |states| && actions[i] == Start(t, name, text)
    requires Can(states[i], actions[i]) && states[i + 1] == Next(states[i], actions[i])
    ensures CallAt(states, actions, i, i + 1, t, name, text)
  {
  }

  lemma {:induction false} CallGoesOn<A(!new)>(parse: string -> Option<A>, source: string -> string, threads: nat,
                                               states: seq<State<A>>, actions: seq<Action>, i: nat, k: nat, t: nat,
                                               name: Option<string>, text: string)
    requires IsRun(parse, source, threads, states, actions) && i < k <= |actions| && actions[i] == Start(t, name, text)
    requires Unfinished(actions, i, k, t)
    ensures CallAt(states, actions, i, k, t, name, text)
    decreases k
  {
    hide Can, Next, CallAt, Initial;
    assert Can(states[k - 1], actions[k - 1]) && states[k - 1 + 1] == Next(states[k - 1], actions[k - 1]);
    if k == i + 1 {
      CallBegins(states, actions, i, t, name, text);
    } else {
      CallGoesOn(parse, source, threads, states, actions, i, k - 1, t, name, text);
      CallStep(states, actions, i, k - 1, t, name, text);
    }
  }

  /**
   * A call answers for its own text what parsing that text afresh gives. It parses exactly when its name was not cached as
   * it looked, or it has none; in the end its name is cached.
   */
  lemma CallAnswers<A(!new)>(parse: string -> Option<A>, source: string -> string, threads: nat,
                             states: seq<State<A>>, actions: seq<Action>, i: nat, k: nat, t: nat,
                             name: Option<string>, text: string)
    requires IsRun(parse, source, threads, states, actions) && IsCall(actions, i, k, t, name, text)
    ensures states[k + 1].answers == states[k].answers + [Answer(text, parse(text))]
    ensures Builds(actions, i, k, t) <==> !FoundNamed(states, actions, i, k, t, name)
    ensures name.Some? ==> Named(states[k].cache, name.value)
  {
    hide Builds, FoundNamed, Named, CacheRight, OwnPrivate, NothingLeaked;
    CallGoesOn(parse, source, threads, states, actions, i, k, t, name, text);
    RunKeepsInv(parse, source, threads, states, actions, k);
    assert Can(states[k], actions[k]) && states[k + 1] == Next(states[k], actions[k]);
    assert ThreadRight(states[k], states[k].pcs[t]);
  }
}
