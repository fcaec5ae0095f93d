/**
 * The double-checked manifest cache of the module loader: threads look a path up under the mutex, parse outside it, and
 * publish or throw away their own program when they take the mutex again. Each locked section is one step.
 */
module ManifestCache {
  import opened Common

  datatype Entry = Entry(path: string, program: nat)

  /** Where a thread is inside the load call, with what it holds. */
  datatype Pc =
    | Idle
    | Searching(path: string)
    | Parsing(path: string)
    | Parsed(path: string, own: nat)
    | Losing(path: string, own: nat, cached: nat)
    | Published(path: string, own: nat)
    | Done(path: string, result: Option<nat>)

  datatype Answer = Answer(path: string, result: Option<nat>)

  /** Programs allocated so far have the numbers below `nextProgram`; `linted` and `answers` record the history. */
  datatype State = State(
    site: string,
    cache: seq<Entry>,
    pcs: seq<Pc>,
    nextProgram: nat,
    destroyed: set<nat>,
    linted: seq<string>,
    answers: seq<Answer>)

  datatype Action =
    | Start(t: nat, path: string)
    | Lookup(t: nat)
    | Parse(t: nat, ok: bool)
    | Publish(t: nat)
    | DestroyOwn(t: nat)
    | Lint(t: nat)
    | Finish(t: nat)

  function Initial(site: string, threads: nat): State {
    State(site, [], seq(threads, _ => Idle), 0, {}, [], [])
  }

  /** The cached program of a path: the first entry that names it. */
  function Cached(cache: seq<Entry>, path: string): (r: Option<nat>)
    ensures r.Some? ==> Entry(path, r.value) in cache
    ensures r.None? ==> forall e :: e in cache ==> e.path != path
  {
    if cache == [] then None
    else if cache[0].path == path then Some(cache[0].program)
    else Cached(cache[1..], path)
  }

  predicate Can(s: State, a: Action) {
    && a.t < |s.pcs|
    && match a
       case Start(t, _) => s.pcs[t] == Idle
       case Lookup(t) => s.pcs[t].Searching?
       case Parse(t, _) => s.pcs[t].Parsing?
       case Publish(t) => s.pcs[t].Parsed?
       case DestroyOwn(t) => s.pcs[t].Losing?
       case Lint(t) => s.pcs[t].Published?
       case Finish(t) => s.pcs[t].Done?
  }

  function Next(s: State, a: Action): State
    requires Can(s, a)
  {
    var pc := s.pcs[a.t];
    match a
    case Start(t, path) => s.(pcs := s.pcs[t := Searching(path)])
    case Lookup(t) =>
      var cached := Cached(s.cache, pc.path);
      s.(pcs := s.pcs[t := if cached.Some? then Done(pc.path, cached) else Parsing(pc.path)])
    case Parse(t, ok) =>
      if ok then s.(pcs := s.pcs[t := Parsed(pc.path, s.nextProgram)], nextProgram := s.nextProgram + 1)
      else s.(pcs := s.pcs[t := Done(pc.path, None)])
    case Publish(t) =>
      var cached := Cached(s.cache, pc.path);
      if cached.Some? then s.(pcs := s.pcs[t := Losing(pc.path, pc.own, cached.value)])
      else s.(pcs := s.pcs[t := Published(pc.path, pc.own)], cache := s.cache + [Entry(pc.path, pc.own)])
    case DestroyOwn(t) =>
      s.(pcs := s.pcs[t := Done(pc.path, Some(pc.cached))], destroyed := s.destroyed + {pc.own})
    case Lint(t) =>
      s.(pcs := s.pcs[t := Done(pc.path, Some(pc.own))], linted := if pc.path == s.site then s.linted else s.linted + [pc.path])
    case Finish(t) => s.(pcs := s.pcs[t := Idle], answers := s.answers + [Answer(pc.path, pc.result)])
  }

  // ----- invariant -----

  /** The program a thread holds that nobody else may know. */
  function Own(pc: Pc): Option<nat> {
    match pc
    case Parsed(_, own) => Some(own)
    case Losing(_, own, _) => Some(own)
    case _ => None
  }

  ghost predicate OnePerPath(s: State) {
    forall i, j :: 0 <= i < j < |s.cache| ==> s.cache[i].path != s.cache[j].path && s.cache[i].program != s.cache[j].program
  }

  ghost predicate IsCached(s: State, program: nat) {
    exists i :: 0 <= i < |s.cache| && s.cache[i].program == program
  }

  /** Only allocated programs are destroyed, and no cached one is. */
  ghost predicate CacheLive(s: State) {
    && (forall i :: 0 <= i < |s.cache| ==> s.cache[i].program < s.nextProgram && s.cache[i].program !in s.destroyed)
    && (forall d :: d in s.destroyed ==> d < s.nextProgram)
  }

  /** A private program is live, not cached and held by one thread only. */
  ghost predicate OwnPrivate(s: State) {
    && (forall t :: 0 <= t < |s.pcs| && Own(s.pcs[t]).Some? ==>
          Own(s.pcs[t]).value < s.nextProgram && Own(s.pcs[t]).value !in s.destroyed && !IsCached(s, Own(s.pcs[t]).value))
    && (forall t, u :: 0 <= t < u < |s.pcs| && Own(s.pcs[t]).Some? ==> Own(s.pcs[t]) != Own(s.pcs[u]))
  }

  /** Everything a thread or an answer says about the cache is so. */
  ghost predicate Truthful(s: State) {
    && (forall t :: 0 <= t < |s.pcs| ==> TruthfulPc(s, s.pcs[t]))
    && (forall k :: 0 <= k < |s.answers| ==>
          s.answers[k].result.Some? ==> Entry(s.answers[k].path, s.answers[k].result.value) in s.cache)
  }

  ghost predicate TruthfulPc(s: State, pc: Pc) {
    match pc
    case Losing(path, _, cached) => Entry(path, cached) in s.cache
    case Published(path, own) => Entry(path, own) in s.cache
    case Done(path, result) => result.Some? ==> Entry(path, result.value) in s.cache
    case _ => true
  }

  /** Every allocated program is cached, private to a thread, or destroyed. */
  ghost predicate NothingLeaked(s: State) {
    forall p: nat :: p < s.nextProgram ==> Accounted(s, p)
  }

  ghost predicate Accounted(s: State, p: nat) {
    IsCached(s, p) || p in s.destroyed || exists t :: 0 <= t < |s.pcs| && Own(s.pcs[t]) == Some(p)
  }

  ghost predicate ToLint(s: State, path: string) {
    exists t :: 0 <= t < |s.pcs| && s.pcs[t].Published? && s.pcs[t].path == path
  }

  /** Each cached path but the site's is linted once, or its publisher is about to lint it. */
  ghost predicate LintedOnce(s: State) {
    && Distinct(s.linted)
    && (forall k :: 0 <= k < |s.linted| ==> s.linted[k] != s.site && !ToLint(s, s.linted[k]) && Cached(s.cache, s.linted[k]).Some?)
    && (forall t, u :: 0 <= t < u < |s.pcs| && s.pcs[t].Published? && s.pcs[u].Published? ==> s.pcs[t].path != s.pcs[u].path)
    && (forall i :: 0 <= i < |s.cache| ==> LintDue(s, s.cache[i].path))
  }

  ghost predicate LintDue(s: State, path: string) {
    path == s.site || path in s.linted || ToLint(s, path)
  }

  ghost predicate Inv(s: State) {
    OnePerPath(s) && CacheLive(s) && OwnPrivate(s) && Truthful(s) && NothingLeaked(s) && LintedOnce(s)
  }

  lemma InvInitially(site: string, threads: nat)
    ensures Inv(Initial(site, threads))
  {
  }

  lemma KeepsCache(s: State, a: Action)
    requires Inv(s) && Can(s, a)
    ensures OnePerPath(Next(s, a)) && CacheLive(Next(s, a))
  {
    hide Truthful, NothingLeaked, LintedOnce;
    var own := Own(s.pcs[a.t]);
    assert own.Some? ==> !IsCached(s, own.value);
    forall i | 0 <= i < |s.cache|
      ensures own.Some? ==> s.cache[i].program != own.value
      ensures a.Publish? && Cached(s.cache, s.pcs[a.t].path).None? ==> s.cache[i].path != s.pcs[a.t].path
    {
      assert s.cache[i] in s.cache;
    }
    assert own.Some? ==> own.value < s.nextProgram && own.value !in s.destroyed;
    if a.Publish? {
      assert Next(s, a).cache == s.cache || Next(s, a).cache == s.cache + [Entry(s.pcs[a.t].path, own.value)];
    } else {
      assert Next(s, a).cache == s.cache;
    }
  }

  lemma KeepsOwn(s: State, a: Action)
    requires Inv(s) && Can(s, a)
    ensures OwnPrivate(Next(s, a))
  {
    hide Truthful, NothingLeaked, LintedOnce, OnePerPath;
    var after := Next(s, a);
    forall t | 0 <= t < |after.pcs| && Own(after.pcs[t]).Some?
      ensures Own(after.pcs[t]).value < after.nextProgram && Own(after.pcs[t]).value !in after.destroyed
      ensures !IsCached(after, Own(after.pcs[t]).value)
    {
      if t != a.t {
        assert !IsCached(s, Own(s.pcs[t]).value);
        assert Own(s.pcs[t]) != Own(s.pcs[a.t]);
      } else if a.Publish? {
        assert !IsCached(s, Own(s.pcs[t]).value);
      }
    }
  }

  lemma KeepsTruth(s: State, a: Action)
    requires Inv(s) && Can(s, a)
    ensures Truthful(Next(s, a))
  {
    hide NothingLeaked, LintedOnce, OwnPrivate, CacheLive, OnePerPath;
    var after := Next(s, a);
    forall t | 0 <= t < |after.pcs|
      ensures TruthfulPc(after, after.pcs[t])
    {
      assert TruthfulPc(s, s.pcs[t]);
    }
  }

  lemma KeepsLeaks(s: State, a: Action)
    requires Inv(s) && Can(s, a)
    ensures NothingLeaked(Next(s, a))
  {
    hide Truthful, LintedOnce, CacheLive, OnePerPath;
    var after := Next(s, a);
    forall p: nat | p < after.nextProgram
      ensures Accounted(after, p)
    {
      if p < s.nextProgram {
        assert Accounted(s, p);
        if IsCached(s, p) {
          var i :| 0 <= i < |s.cache| && s.cache[i].program == p;
          assert after.cache[i].program == p;
        } else if p !in s.destroyed {
          var t :| 0 <= t < |s.pcs| && Own(s.pcs[t]) == Some(p);
          if a.Publish? && t == a.t {
            assert after.pcs[t].Published? ==> after.cache[|s.cache|].program == p;
          }
          assert t != a.t ==> Own(after.pcs[t]) == Some(p);
        }
      } else {
        assert Own(after.pcs[a.t]) == Some(p);
      }
    }
  }

  lemma {:induction false} CachedGrows(cache: seq<Entry>, e: Entry, path: string)
    ensures Cached(cache + [e], path) == if Cached(cache, path).Some? then Cached(cache, path)
                                         else if e.path == path then Some(e.program) else None
  {
    if cache == [] {
      assert Cached([], path) == None && (cache + [e])[1..] == [];
    } else {
      CachedGrows(cache[1..], e, path);
      assert (cache + [e])[1..] == cache[1..] + [e];
    }
  }

  /** Publishing starts at most one linter per path and linting ends it. */
  lemma KeepsLinters(s: State, a: Action)
    requires Inv(s) && Can(s, a)
    ensures var after := Next(s, a);
            forall t, u :: 0 <= t < u < |after.pcs| && after.pcs[t].Published? && after.pcs[u].Published? ==>
              after.pcs[t].path != after.pcs[u].path
  {
    hide NothingLeaked, OwnPrivate, CacheLive, OnePerPath;
    forall t | 0 <= t < |s.pcs| && s.pcs[t].Published?
      ensures a.Publish? && Cached(s.cache, s.pcs[a.t].path).None? ==> s.pcs[t].path != s.pcs[a.t].path
    {
      assert TruthfulPc(s, s.pcs[t]);
    }
  }

  /** Linting records a path of the cache that nobody lints then; the record is never given up. */
  lemma LintRecordAt(s: State, a: Action, k: nat)
    requires Inv(s) && Can(s, a) && k < |Next(s, a).linted|
    ensures var after := Next(s, a);
            after.linted[k] != s.site && !ToLint(after, after.linted[k]) && Cached(after.cache, after.linted[k]).Some?
  {
    hide Truthful, NothingLeaked, OwnPrivate, CacheLive, OnePerPath;
    KeepsLinters(s, a);
    if k < |s.linted| {
      assert !ToLint(s, s.linted[k]);
      if a.Publish? {
        CachedGrows(s.cache, Entry(s.pcs[a.t].path, s.pcs[a.t].own), s.linted[k]);
      }
    } else {
      PublisherIsCached(s, a.t);
    }
  }

  lemma KeepsLintRecord(s: State, a: Action)
    requires Inv(s) && Can(s, a)
    ensures var after := Next(s, a);
            && Distinct(after.linted)
            && forall k :: 0 <= k < |after.linted| ==>
                 after.linted[k] != s.site && !ToLint(after, after.linted[k]) && Cached(after.cache, after.linted[k]).Some?
  {
    hide Truthful, NothingLeaked, OwnPrivate, CacheLive, OnePerPath, Cached;
    var after := Next(s, a);
    if a.Lint? {
      assert ToLint(s, s.pcs[a.t].path);
    }
    forall k | 0 <= k < |after.linted|
      ensures after.linted[k] != s.site && !ToLint(after, after.linted[k]) && Cached(after.cache, after.linted[k]).Some?
    {
      LintRecordAt(s, a, k);
    }
  }

  lemma PublisherIsCached(s: State, t: nat)
    requires Truthful(s) && t < |s.pcs| && s.pcs[t].Published?
    ensures Cached(s.cache, s.pcs[t].path).Some?
  {
    assert TruthfulPc(s, s.pcs[t]);
  }

  lemma KeepsLint(s: State, a: Action)
    requires Inv(s) && Can(s, a)
    ensures LintedOnce(Next(s, a))
  {
    KeepsLinters(s, a);
    KeepsLintRecord(s, a);
    hide Truthful, NothingLeaked, OwnPrivate, CacheLive;
    var after := Next(s, a);
    forall i | 0 <= i < |after.cache|
      ensures LintDue(after, after.cache[i].path)
    {
      var path := after.cache[i].path;
      if i < |s.cache| {
        assert LintDue(s, s.cache[i].path);
        if ToLint(s, path) {
          var t :| 0 <= t < |s.pcs| && s.pcs[t].Published? && s.pcs[t].path == path;
          if t == a.t {
            assert path == s.site || after.linted[|s.linted|] == path;
          } else {
            assert after.pcs[t] == s.pcs[t];
          }
        }
      } else {
        assert after.pcs[a.t].Published? && after.pcs[a.t].path == path;
      }
    }
  }

  lemma StepKeepsInv(s: State, a: Action)
    requires Inv(s) && Can(s, a)
    ensures Inv(Next(s, a))
  {
    hide Can, Next, OnePerPath, CacheLive, OwnPrivate, Truthful, NothingLeaked, LintedOnce;
    KeepsCache(s, a);
    KeepsOwn(s, a);
    KeepsTruth(s, a);
    KeepsLeaks(s, a);
    KeepsLint(s, a);
  }

  // ----- what every run satisfies -----

  ghost predicate IsRun(site: string, threads: nat, states: seq<State>, actions: seq<Action>) {
    && |states| == |actions| + 1
    && states[0] == Initial(site, threads)
    && (forall i :: 0 <= i < |actions| ==> Can(states[i], actions[i]) && states[i + 1] == Next(states[i], actions[i]))
  }

  lemma {:induction false} RunKeepsInv(site: string, threads: nat, states: seq<State>, actions: seq<Action>, i: nat)
    requires IsRun(site, threads, states, actions) && i < |states|
    ensures Inv(states[i]) && states[i].site == site
  {
    if i == 0 {
      InvInitially(site, threads);
    } else {
      RunKeepsInv(site, threads, states, actions, i - 1);
      assert Can(states[i - 1], actions[i - 1]) && states[i - 1 + 1] == Next(states[i - 1], actions[i - 1]);
      StepKeepsInv(states[i - 1], actions[i - 1]);
    }
  }

  /** Answers are never taken back. */
  lemma {:induction false} AnswersGrow(site: string, threads: nat, states: seq<State>, actions: seq<Action>, i: nat, n: nat)
    requires IsRun(site, threads, states, actions) && i <= n < |states|
    ensures states[i].answers <= states[n].answers
    decreases n
  {
    if i < n {
      AnswersGrow(site, threads, states, actions, i, n - 1);
      assert Can(states[n - 1], actions[n - 1]) && states[n - 1 + 1] == Next(states[n - 1], actions[n - 1]);
    }
  }

  /** All callers that ever got a program for one path got the same one. */
  lemma SameProgramForSamePath(site: string, threads: nat, states: seq<State>, actions: seq<Action>, i: nat, j: nat, k: nat)
    requires IsRun(site, threads, states, actions) && i < |states|
    requires j < |states[i].answers| && k < |states[i].answers|
    requires states[i].answers[j].path == states[i].answers[k].path
    requires states[i].answers[j].result.Some? && states[i].answers[k].result.Some?
    ensures states[i].answers[j].result == states[i].answers[k].result
  {
    RunKeepsInv(site, threads, states, actions, i);
    var s := states[i];
    var a, b := s.answers[j], s.answers[k];
    assert Entry(a.path, a.result.value) in s.cache && Entry(b.path, b.result.value) in s.cache;
  }

  /** A program once returned is, for ever after, the one entry of its path, and never destroyed by a thread that lost. */
  lemma ReturnedProgramStays(site: string, threads: nat, states: seq<State>, actions: seq<Action>, i: nat, n: nat, k: nat)
    requires IsRun(site, threads, states, actions) && i <= n < |states|
    requires k < |states[i].answers| && states[i].answers[k].result.Some?
    ensures var e := Entry(states[i].answers[k].path, states[i].answers[k].result.value);
            && e in states[n].cache && e.program !in states[n].destroyed
            && forall f :: f in states[n].cache && f.path == e.path ==> f == e
  {
    AnswersGrow(site, threads, states, actions, i, n);
    RunKeepsInv(site, threads, states, actions, n);
    var s := states[n];
    var e := Entry(s.answers[k].path, s.answers[k].result.value);
    assert e == Entry(states[i].answers[k].path, states[i].answers[k].result.value);
    var m :| 0 <= m < |s.cache| && s.cache[m] == e;
    forall f | f in s.cache && f.path == e.path
      ensures f == e
    {
      var l :| 0 <= l < |s.cache| && s.cache[l] == f;
      assert l == m;
    }
  }

  /** Once every thread is idle, each cached path but the site's was linted exactly once and each lost program is destroyed. */
  lemma QuietState(site: string, threads: nat, states: seq<State>, actions: seq<Action>, i: nat, path: string, p: nat)
    requires IsRun(site, threads, states, actions) && i < |states|
    requires forall t :: 0 <= t < |states[i].pcs| ==> states[i].pcs[t].Idle?
    ensures path in states[i].linted <==> Cached(states[i].cache, path).Some? && path != site
    ensures Distinct(states[i].linted)
    ensures p < states[i].nextProgram ==> (p in states[i].destroyed <==> !IsCached(states[i], p))
  {
    RunKeepsInv(site, threads, states, actions, i);
    var s := states[i];
    if path in s.linted {
      var k :| 0 <= k < |s.linted| && s.linted[k] == path;
    }
    if Cached(s.cache, path).Some? {
      var e := Entry(path, Cached(s.cache, path).value);
      var k :| 0 <= k < |s.cache| && s.cache[k] == e;
      assert LintDue(s, s.cache[k].path);
    }
    if p < s.nextProgram {
      assert Accounted(s, p);
    }
  }

  // ----- what each call answers -----

  /** A call of thread t: it starts at step i, and step k is the first after it at which the thread returns. */
  ghost predicate IsCall(actions: seq<Action>, i: nat, k: nat, t: nat, path: string) {
    && i < k < |actions| && actions[i] == Start(t, path) && actions[k] == Finish(t)
    && Unfinished(actions, i, k, t)
  }

  ghost predicate Unfinished(actions: seq<Action>, i: nat, k: nat, t: nat)
    requires k <= |actions|
  {
    forall m :: i < m < k ==> actions[m] != Finish(t)
  }

  /** Between the two steps the thread parsed, with this outcome. */
  ghost predicate Parses(actions: seq<Action>, i: nat, k: nat, t: nat, ok: bool)
    requires k <= |actions|
  {
    exists m :: i < m < k && actions[m] == Parse(t, ok)
  }

  /** When the thread looked the path up, this program was cached for it. */
  ghost predicate FoundCached(states: seq<State>, actions: seq<Action>, i: nat, k: nat, t: nat, path: string, program: nat)
    requires k <= |actions| <= |states|
  {
    exists m :: i < m < k && actions[m] == Lookup(t) && Entry(path, program) in states[m].cache
  }

  /** How far the call has come, and what it has seen. */
  ghost predicate CallAt(states: seq<State>, actions: seq<Action>, i: nat, k: nat, t: nat, path: string)
    requires k <= |actions| < |states|
  {
    && t < |states[k].pcs| && var pc := states[k].pcs[t];
    && !pc.Idle? && pc.path == path
    && (pc.Searching? || pc.Parsing? ==> !Parses(actions, i, k, t, true))
    && (pc.Parsed? || pc.Losing? || pc.Published? ==> Parses(actions, i, k, t, true))
    && (pc.Done? && pc.result.Some? ==> Parses(actions, i, k, t, true) || FoundCached(states, actions, i, k, t, path, pc.result.value))
    && (Parses(actions, i, k, t, false) <==> pc.Done? && pc.result.None?)
    && !(Parses(actions, i, k, t, true) && Parses(actions, i, k, t, false))
  }

  lemma ParsesStep(actions: seq<Action>, i: nat, k: nat, t: nat, ok: bool)
    requires i < k < |actions|
    ensures Parses(actions, i, k + 1, t, ok) <==> Parses(actions, i, k, t, ok) || actions[k] == Parse(t, ok)
  {
  }

  lemma FoundStep(states: seq<State>, actions: seq<Action>, i: nat, k: nat, t: nat, path: string, p: nat)
    requires i < k < |actions| <= |states|
    ensures FoundCached(states, actions, i, k + 1, t, path, p) <==>
            FoundCached(states, actions, i, k, t, path, p) || (actions[k] == Lookup(t) && Entry(path, p) in states[k].cache)
  {
  }

  lemma CachedIs(s: State, path: string, p: nat)
    requires OnePerPath(s)
    ensures Entry(path, p) in s.cache <==> Cached(s.cache, path) == Some(p)
  {
    if Entry(path, p) in s.cache {
      var j :| 0 <= j < |s.cache| && s.cache[j] == Entry(path, p);
      var e := Entry(path, Cached(s.cache, path).value);
      var l :| 0 <= l < |s.cache| && s.cache[l] == e;
      assert j == l;
    }
  }

  /** One step of any thread, seen from the call. */
  lemma CallStep(states: seq<State>, actions: seq<Action>, i: nat, k: nat, t: nat, path: string)
    requires i < k < |actions| < |states| && CallAt(states, actions, i, k, t, path)
    requires Can(states[k], actions[k]) && states[k + 1] == Next(states[k], actions[k])
    requires actions[k] != Finish(t)
    ensures CallAt(states, actions, i, k + 1, t, path)
  {
    hide Parses, FoundCached, Cached;
    ParsesStep(actions, i, k, t, true);
    ParsesStep(actions, i, k, t, false);
    var found := Cached(states[k].cache, path);
    if found.Some? {
      FoundStep(states, actions, i, k, t, path, found.value);
    }
    var pc := states[k].pcs[t];
    if pc.Done? && pc.result.Some? {
      FoundStep(states, actions, i, k, t, path, pc.result.value);
    }
  }

  lemma {:induction false} CallGoesOn(site: string, threads: nat, states: seq<State>, actions: seq<Action>, i: nat, k: nat,
                                      t: nat, path: string)
    requires IsRun(site, threads, states, actions) && i < k <= |actions| && actions[i] == Start(t, path)
    requires Unfinished(actions, i, k, t)
    ensures CallAt(states, actions, i, k, t, path)
    decreases k
  {
    hide Inv, Can, Next, CallAt;
    if k == i + 1 {
      assert Can(states[i], actions[i]) && states[i + 1] == Next(states[i], actions[i]);
      CallBegins(states, actions, i, t, path);
    } else {
      CallGoesOn(site, threads, states, actions, i, k - 1, t, path);
      assert Can(states[k - 1], actions[k - 1]) && states[k - 1 + 1] == Next(states[k - 1], actions[k - 1]);
      CallStep(states, actions, i, k - 1, t, path);
    }
  }

  lemma DoneStays(s: State, a: Action, t: nat)
    requires Can(s, a) && t < |s.pcs| && s.pcs[t].Done? && a != Finish(t)
    ensures t < |Next(s, a).pcs| && Next(s, a).pcs[t] == s.pcs[t]
    ensures a != Parse(t, true) && a != Parse(t, false) && a != Lookup(t)
  {
  }

  lemma LookupFinds(s: State, t: nat, path: string, p: nat)
    requires Can(s, Lookup(t)) && s.pcs[t].path == path && Cached(s.cache, path) == Some(p)
    ensures t < |Next(s, Lookup(t)).pcs| && Next(s, Lookup(t)).pcs[t] == Done(path, Some(p)) && s.pcs[t].Searching?
  {
  }

  /** Once the thread has found a program it does nothing more than answer it. */
  lemma {:induction false} FoundIsHeld(site: string, threads: nat, states: seq<State>, actions: seq<Action>, i: nat, k: nat,
                                       t: nat, path: string, p: nat)
    requires IsRun(site, threads, states, actions) && i < k <= |actions| && actions[i] == Start(t, path)
    requires Unfinished(actions, i, k, t) && FoundCached(states, actions, i, k, t, path, p)
    ensures t < |states[k].pcs| && states[k].pcs[t] == Done(path, Some(p))
    ensures !Parses(actions, i, k, t, true) && !Parses(actions, i, k, t, false)
    decreases k
  {
    hide Parses, FoundCached, Cached, Inv, Can, Next, Initial;
    if k == i + 1 {
      NothingBetween(states, actions, i, t, path, p);
    } else {
      var before := states[k - 1];
      assert Can(before, actions[k - 1]) && states[k - 1 + 1] == Next(before, actions[k - 1]);
      FoundStep(states, actions, i, k - 1, t, path, p);
      ParsesStep(actions, i, k - 1, t, true);
      ParsesStep(actions, i, k - 1, t, false);
      if FoundCached(states, actions, i, k - 1, t, path, p) {
        FoundIsHeld(site, threads, states, actions, i, k - 1, t, path, p);
        DoneStays(before, actions[k - 1], t);
      } else {
        CallGoesOn(site, threads, states, actions, i, k - 1, t, path);
        RunKeepsOnePerPath(site, threads, states, actions, k - 1);
        CachedIs(before, path, p);
        LookupFinds(before, t, path, p);
      }
    }
  }

  lemma NothingBetween(states: seq<State>, actions: seq<Action>, i: nat, t: nat, path: string, p: nat)
    requires i < |actions| <= |states|
    ensures !FoundCached(states, actions, i, i + 1, t, path, p)
  {
  }

  lemma RunKeepsOnePerPath(site: string, threads: nat, states: seq<State>, actions: seq<Action>, i: nat)
    requires IsRun(site, threads, states, actions) && i < |states|
    ensures OnePerPath(states[i])
  {
    RunKeepsInv(site, threads, states, actions, i);
  }

  lemma CallBegins(states: seq<State>, actions: seq<Action>, i: nat, t: nat, path: string)
    requires i < |actions| < |states| && actions[i] == Start(t, path)
    requires Can(states[i], actions[i]) && states[i + 1] == Next(states[i], actions[i])
    ensures CallAt(states, actions, i, i + 1, t, path)
  {
  }

  /**
   * What a call answers, for its own path: nothing exactly when it parsed the file and failed; the cached program, without
   * parsing, when there was one as it looked; otherwise it parsed, and answers the one program that is cached by then.
   */
  lemma CallAnswers(site: string, threads: nat, states: seq<State>, actions: seq<Action>, i: nat, k: nat, t: nat, path: string)
    returns (result: Option<nat>)
    requires IsRun(site, threads, states, actions) && IsCall(actions, i, k, t, path)
    ensures states[k + 1].answers == states[k].answers + [Answer(path, result)]
    ensures result.None? <==> Parses(actions, i, k, t, false)
    ensures forall p: nat :: FoundCached(states, actions, i, k, t, path, p) ==>
              result == Some(p) && !Parses(actions, i, k, t, true) && !Parses(actions, i, k, t, false)
    ensures Parses(actions, i, k, t, true) ==> result.Some? && forall p: nat :: !FoundCached(states, actions, i, k, t, path, p)
    ensures result.Some? ==> Entry(path, result.value) in states[k].cache
    ensures result.Some? ==> forall e :: e in states[k].cache && e.path == path ==> e.program == result.value
  {
    hide Parses, FoundCached, CacheLive, OwnPrivate, NothingLeaked, LintedOnce;
    CallGoesOn(site, threads, states, actions, i, k, t, path);
    RunKeepsInv(site, threads, states, actions, k);
    assert Can(states[k], actions[k]) && states[k + 1] == Next(states[k], actions[k]);
    result := states[k].pcs[t].result;
    assert TruthfulPc(states[k], states[k].pcs[t]);
    forall p: nat | FoundCached(states, actions, i, k, t, path, p)
      ensures result == Some(p) && !Parses(actions, i, k, t, true) && !Parses(actions, i, k, t, false)
    {
      FoundIsHeld(site, threads, states, actions, i, k, t, path, p);
    }
    if result.Some? {
      forall e | e in states[k].cache && e.path == path
        ensures e.program == result.value
      {
        CachedIs(states[k], path, e.program);
        CachedIs(states[k], path, result.value);
        assert e == Entry(path, e.program);
      }
    }
  }

  lemma {:induction false} CacheGrows(site: string, threads: nat, states: seq<State>, actions: seq<Action>, i: nat, n: nat)
    requires IsRun(site, threads, states, actions) && i <= n < |states|
    ensures states[i].cache <= states[n].cache
    decreases n
  {
    if i < n {
      CacheGrows(site, threads, states, actions, i, n - 1);
      assert Can(states[n - 1], actions[n - 1]) && states[n - 1 + 1] == Next(states[n - 1], actions[n - 1]);
    }
  }

  /** So a call for a path that is cached when it starts, or at any time before it looks, answers that program. */
  lemma CachedIsAnswered(site: string, threads: nat, states: seq<State>, actions: seq<Action>, i: nat, k: nat, t: nat, path: string,
                         program: nat)
    returns (result: Option<nat>)
    requires IsRun(site, threads, states, actions) && IsCall(actions, i, k, t, path)
    requires Entry(path, program) in states[i].cache
    ensures states[k + 1].answers == states[k].answers + [Answer(path, result)] && result == Some(program)
  {
    result := CallAnswers(site, threads, states, actions, i, k, t, path);
    CallLooks(site, threads, states, actions, i, k, t, path);
    var m :| i < m < k && actions[m] == Lookup(t);
    CacheGrows(site, threads, states, actions, i, m);
    assert FoundCached(states, actions, i, k, t, path, program);
  }

  /** No call returns without having looked. */
  lemma CallLooks(site: string, threads: nat, states: seq<State>, actions: seq<Action>, i: nat, k: nat, t: nat, path: string)
    requires IsRun(site, threads, states, actions) && IsCall(actions, i, k, t, path)
    ensures exists m :: i < m < k && actions[m] == Lookup(t)
  {
    assert Can(states[k], actions[k]);
    if forall m :: i < m < k ==> actions[m] != Lookup(t) {
      StillSearching(site, threads, states, actions, i, k, t, path);
    }
  }

  lemma {:induction false} StillSearching(site: string, threads: nat, states: seq<State>, actions: seq<Action>, i: nat, k: nat,
                                          t: nat, path: string)
    requires IsRun(site, threads, states, actions) && i < k <= |actions| && actions[i] == Start(t, path)
    requires forall m :: i < m < k ==> actions[m] != Lookup(t)
    ensures t < |states[k].pcs| && states[k].pcs[t] == Searching(path)
    decreases k
  {
    assert Can(states[k - 1], actions[k - 1]) && states[k - 1 + 1] == Next(states[k - 1], actions[k - 1]);
    if k > i + 1 {
      StillSearching(site, threads, states, actions, i, k - 1, t, path);
    }
  }
}
