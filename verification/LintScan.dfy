/** The lint as one scan of the program from left to right: what it meets in the text, and what it says of each. */
module LintScan {
  import opened Common
  import opened LintWalk

  // ----- the text, from left to right -----

  /** `Repeated` is a literal key that its hash has before; `Open` and `Close` bound a definition. */
  datatype Event =
    | Read(name: string, at: nat)
    | Call(name: string, at: nat)
    | Repeated(key: string, at: nat)
    | ImportLine(at: nat)
    | Inheriting(parent: string, at: nat)
    | Bind(name: string)
    | Open
    | Close

  function ExprEvents(e: Expr): seq<Event>
    decreases e, 0
  {
    match e
    case Literal(_) => []
    case Variable(name, at) => [Read(name, at)]
    case Funcall(name, args, lambda, at) => [Call(name, at)] + ExprsEvents(args) + ExprEvents(lambda)
    case Compound(parts) => ExprsEvents(parts)
    case Lambda(body, exprBody) => StmtsEvents(body) + ExprsEvents(exprBody)
    case HashLiteral(entries) => EntriesEvents(entries, |entries|)
  }

  function ExprsEvents(es: seq<Expr>): seq<Event>
    decreases es, 1
  {
    if es == [] then [] else ExprsEvents(es[..|es| - 1]) + ExprEvents(es[|es| - 1])
  }

  /** The literal text of a key, if it is one. */
  function KeyText(entry: Entry): Option<string> {
    match entry.key case Literal(text) => text case _ => None
  }

  function KeyEvents(entries: seq<Entry>, i: nat): seq<Event>
    requires i < |entries|
  {
    match KeyText(entries[i])
    case None => []
    case Some(text) =>
      if exists j :: 0 <= j < i && KeyText(entries[j]) == Some(text) then [Repeated(text, entries[i].at)] else []
  }

  function EntryEvents(entry: Entry): seq<Event>
    decreases entry, 0
  {
    ExprEvents(entry.key) + ExprEvents(entry.value)
  }

  function EntriesEvents(entries: seq<Entry>, n: nat): seq<Event>
    requires n <= |entries|
    decreases entries, n
  {
    if n == 0 then []
    else EntriesEvents(entries, n - 1) + KeyEvents(entries, n - 1) + EntryEvents(entries[n - 1])
  }

  function ParamEvents(params: seq<Param>): seq<Event> {
    if params == [] then [] else ParamEvents(params[..|params| - 1]) + [Bind(params[|params| - 1].name)]
  }

  function DefaultEvents(params: seq<Param>): seq<Event>
    decreases params, 1
  {
    if params == [] then [] else DefaultEvents(params[..|params| - 1]) + ExprsEvents(params[|params| - 1].default)
  }

  /** All parameters of a definition are bound before its defaults and its body. */
  function StmtEvents(s: Stmt): seq<Event>
    decreases s, 0
  {
    match s
    case Import(at) => [ImportLine(at)]
    case ClassDef(inherits, params, body, at) =>
      (if inherits != "" then [Inheriting(inherits, at)] else [])
      + ([Open] + ParamEvents(params) + DefaultEvents(params) + StmtsEvents(body) + [Close])
    case Scoped(params, body) => [Open] + ParamEvents(params) + DefaultEvents(params) + StmtsEvents(body) + [Close]
    case Values(parts) => ExprsEvents(parts)
    case Conditional(head, branches, elseBody) => ExprsEvents(head) + BranchesEvents(branches) + StmtsEvents(elseBody)
    case Assignment(variable, value) => ExprsEvents(value)
    case Other => []
  }

  function BranchesEvents(branches: seq<Branch>): seq<Event>
    decreases branches, 1
  {
    if branches == [] then []
    else
      var last := branches[|branches| - 1];
      BranchesEvents(branches[..|branches| - 1]) + ExprsEvents(last.condition) + StmtsEvents(last.body)
  }

  /** An assignment binds its name after its value. */
  function StmtsEvents(list: seq<Stmt>): seq<Event>
    decreases list, 1
  {
    if list == [] then []
    else
      var last := list[|list| - 1];
      StmtsEvents(list[..|list| - 1]) + StmtEvents(last) + if last.Assignment? then [Bind(last.variable)] else []
  }

  // ----- what is said of each event -----

  /** The name after a leading "::", when there is one. */
  predicate IsExplicit(name: string) {
    |name| >= 2 && name[0] == ':' && name[1] == ':'
  }

  function FactName(name: string): string {
    if IsExplicit(name) then name[2..] else name
  }

  predicate StartsWith(name: string, prefix: string) {
    |name| >= |prefix| && forall i :: 0 <= i < |prefix| ==> name[i] == prefix[i]
  }

  const VALID_NAMES: seq<string> := ["facts", "trusted", "server_facts", "environment"]
  const INDEXED: seq<string> := ["ipaddress_", "macaddress_", "netmask_", "network_", "blockdevice_", "processor"]

  /** A read that may be of a fact: neither qualified by a class, nor one of the names that stay valid. */
  predicate MayBeFact(name: string) {
    && FactName(name) != "" && (forall i :: 0 <= i < |FactName(name)| ==> FactName(name)[i] != ':')
    && FactName(name) !in VALID_NAMES
  }

  /** The findings for one event where these names are shadowed: none or one. */
  function Said(rules: Rules, e: Event, shadowed: set<string>): seq<Finding> {
    match e
    case Read(name, at) =>
      var fact := FactName(name);
      if !MayBeFact(name) || fact in shadowed then []
      else if fact in rules.legacy then [Finding(LegacyFact, fact, at, rules.strict)]
      else if IsExplicit(name) && (exists k :: 0 <= k < |INDEXED| && StartsWith(fact, INDEXED[k]))
      then [Finding(IndexedFact, fact, at, rules.strict)]
      else []
    case Call(name, at) =>
      if rules.factsOnly then []
      else if name in rules.removed then [Finding(RemovedFunction, name, at, true)]
      else if name in rules.deprecated then [Finding(DeprecatedFunction, name, at, false)]
      else []
    case Repeated(key, at) => [Finding(DuplicateKey, key, at, true)]
    case ImportLine(at) => if rules.factsOnly then [] else [Finding(ImportRemoved, "", at, true)]
    case Inheriting(parent, at) => if rules.factsOnly then [] else [Finding(Inherits, parent, at, false)]
    case _ => []
  }

  // ----- the scan -----

  /** One set of shadowed names for each definition that is open, innermost last. */
  datatype Scan = Scan(open: seq<set<string>>, findings: seq<Finding>)

  /** Opening keeps the names shadowed outside, closing forgets what was bound inside; empty names bind nothing. */
  function Step(rules: Rules, e: Event, s: Scan): Scan {
    if s.open == [] then s
    else
      var outer, inner := s.open[..|s.open| - 1], s.open[|s.open| - 1];
      match e
      case Bind(name) => if name == "" then s else Scan(outer + [inner + {name}], s.findings)
      case Open => Scan(s.open + [inner], s.findings)
      case Close => Scan(outer, s.findings)
      case _ => Scan(s.open, s.findings + Said(rules, e, inner))
  }

  function Scanned(rules: Rules, es: seq<Event>, s: Scan): Scan {
    if es == [] then s else Step(rules, es[|es| - 1], Scanned(rules, es[..|es| - 1], s))
  }

  lemma {:induction false} ScannedAppend(rules: Rules, a: seq<Event>, b: seq<Event>, s: Scan)
    ensures Scanned(rules, a + b, s) == Scanned(rules, b, Scanned(rules, a, s))
  {
    hide Step;
    if b == [] {
      assert a + b == a;
    } else {
      assert (a + b)[..|a + b| - 1] == a + b[..|b| - 1];
      ScannedAppend(rules, a, b[..|b| - 1], s);
    }
  }

  lemma ScannedOne(rules: Rules, e: Event, s: Scan)
    ensures Scanned(rules, [e], s) == Step(rules, e, s) && Scanned(rules, [], s) == s
  {
    assert [e][..0] == [];
  }

  /** The state of the walk as the innermost set of a scan. */
  function On(below: seq<set<string>>, st: State): Scan {
    Scan(below + [st.names], st.findings)
  }

  // ----- the checks -----

  lemma {:induction false} PrefixIs(name: string, prefix: string)
    ensures StartsWith(name, prefix) <==> prefix <= name
  {
  }

  lemma IndexedIs(fact: string)
    ensures IndexedPrefix(fact) <==> exists k :: 0 <= k < |INDEXED| && StartsWith(fact, INDEXED[k])
  {
    hide StartsWith;
    PrefixIs(fact, "ipaddress_");
    PrefixIs(fact, "macaddress_");
    PrefixIs(fact, "netmask_");
    PrefixIs(fact, "network_");
    PrefixIs(fact, "blockdevice_");
    PrefixIs(fact, "processor");
    assert INDEXED[0] == "ipaddress_" && INDEXED[1] == "macaddress_" && INDEXED[2] == "netmask_";
    assert INDEXED[3] == "network_" && INDEXED[4] == "blockdevice_" && INDEXED[5] == "processor";
  }

  lemma MayBeFactIs(name: string)
    ensures var fact := if "::" <= name then name[2..] else name;
            && IsExplicit(name) == ("::" <= name) && FactName(name) == fact
            && (MayBeFact(name) <==> fact != "" && ':' !in fact && !BuiltIn(fact))
  {
    assert VALID_NAMES[0] == "facts" && VALID_NAMES[1] == "trusted";
    assert VALID_NAMES[2] == "server_facts" && VALID_NAMES[3] == "environment";
  }

  lemma ReadIsSaid(rules: Rules, name: string, at: nat, st: State, below: seq<set<string>>)
    ensures Scanned(rules, [Read(name, at)], On(below, st)) == On(below, Reported(st, CheckVariable(rules, name, at, st.names)))
  {
    hide IndexedPrefix, BuiltIn, MayBeFact, StartsWith, IsExplicit;
    var e := Read(name, at);
    ScannedOne(rules, e, On(below, st));
    MayBeFactIs(name);
    IndexedIs(FactName(name));
    assert st.findings + [] == st.findings;
  }

  lemma CallIsSaid(rules: Rules, name: string, at: nat, st: State, below: seq<set<string>>)
    ensures Scanned(rules, [Call(name, at)], On(below, st)) == On(below, Reported(st, CheckFuncall(rules, name, at)))
  {
    ScannedOne(rules, Call(name, at), On(below, st));
    assert st.findings + [] == st.findings;
  }

  lemma KeyIsSaid(rules: Rules, entries: seq<Entry>, i: nat, st: State, below: seq<set<string>>)
    requires i < |entries|
    ensures Scanned(rules, KeyEvents(entries, i), On(below, st)) == On(below, Reported(st, CheckKey(entries, i)))
  {
    var events, text := KeyEvents(entries, i), KeyText(entries[i]);
    assert forall j :: 0 <= j < i ==>
             (SameLiteral(entries[j].key, entries[i].key) <==> text.Some? && KeyText(entries[j]) == text);
    if CheckKey(entries, i).Some? {
      var j :| 0 <= j < i && SameLiteral(entries[j].key, entries[i].key);
      assert KeyText(entries[j]) == text;
      ScannedOne(rules, Repeated(text.value, entries[i].at), On(below, st));
    } else {
      assert events == [];
    }
  }

  // ----- the walk is the scan -----

  lemma {:induction false} ExprIsScanned(rules: Rules, e: Expr, st: State, below: seq<set<string>>)
    ensures Scanned(rules, ExprEvents(e), On(below, st)) == On(below, LintExpr(rules, e, st))
    decreases e, 0
  {
    hide On, Scanned, Step, ExprsEvents, StmtsEvents, EntriesEvents, LintExprs, LintStmts, LintEntries;
    match e
    case Literal(_) => ScannedOne(rules, Open, On(below, st));
    case Variable(name, at) => ReadIsSaid(rules, name, at, st, below);
    case Funcall(name, args, lambda, at) =>
      var called := Reported(st, CheckFuncall(rules, name, at));
      CallIsSaid(rules, name, at, st, below);
      ExprsAreScanned(rules, args, called, below);
      ExprIsScanned(rules, lambda, LintExprs(rules, args, called), below);
      ScannedAppend(rules, [Call(name, at)], ExprsEvents(args), On(below, st));
      ScannedAppend(rules, [Call(name, at)] + ExprsEvents(args), ExprEvents(lambda), On(below, st));
    case Compound(parts) => ExprsAreScanned(rules, parts, st, below);
    case Lambda(body, exprBody) =>
      StmtsAreScanned(rules, body, st, below);
      ExprsAreScanned(rules, exprBody, LintStmts(rules, body, st), below);
      ScannedAppend(rules, StmtsEvents(body), ExprsEvents(exprBody), On(below, st));
    case HashLiteral(entries) => EntriesAreScanned(rules, entries, |entries|, st, below);
  }

  lemma {:induction false} ExprsAreScanned(rules: Rules, es: seq<Expr>, st: State, below: seq<set<string>>)
    ensures Scanned(rules, ExprsEvents(es), On(below, st)) == On(below, LintExprs(rules, es, st))
    decreases es, 1
  {
    hide On, Scanned, Step, ExprEvents, LintExpr;
    if es == [] {
      ScannedOne(rules, Open, On(below, st));
    } else {
      var init, last := es[..|es| - 1], es[|es| - 1];
      ExprsAreScanned(rules, init, st, below);
      ExprIsScanned(rules, last, LintExprs(rules, init, st), below);
      ScannedAppend(rules, ExprsEvents(init), ExprEvents(last), On(below, st));
    }
  }

  lemma {:induction false} EntryIsScanned(rules: Rules, entry: Entry, st: State, below: seq<set<string>>)
    ensures Scanned(rules, EntryEvents(entry), On(below, st)) == On(below, LintEntry(rules, entry, st))
    decreases entry, 0
  {
    hide On, Scanned, Step, ExprEvents, LintExpr;
    ExprIsScanned(rules, entry.key, st, below);
    ExprIsScanned(rules, entry.value, LintExpr(rules, entry.key, st), below);
    ScannedAppend(rules, ExprEvents(entry.key), ExprEvents(entry.value), On(below, st));
  }

  lemma {:induction false} EntriesAreScanned(rules: Rules, entries: seq<Entry>, n: nat, st: State, below: seq<set<string>>)
    requires n <= |entries|
    ensures Scanned(rules, EntriesEvents(entries, n), On(below, st)) == On(below, LintEntries(rules, entries, n, st))
    decreases entries, n
  {
    hide On, Scanned, Step, EntryEvents, LintEntry, KeyEvents, CheckKey, Reported;
    if n == 0 {
      ScannedOne(rules, Open, On(below, st));
    } else {
      var before := LintEntries(rules, entries, n - 1, st);
      var checked := Reported(before, CheckKey(entries, n - 1));
      var sofar, key := EntriesEvents(entries, n - 1), KeyEvents(entries, n - 1);
      EntriesAreScanned(rules, entries, n - 1, st, below);
      KeyIsSaid(rules, entries, n - 1, before, below);
      EntryIsScanned(rules, entries[n - 1], checked, below);
      ScannedAppend(rules, sofar, key, On(below, st));
      ScannedAppend(rules, sofar + key, EntryEvents(entries[n - 1]), On(below, st));
    }
  }

  lemma BindIsScanned(rules: Rules, name: string, st: State, below: seq<set<string>>)
    ensures Scanned(rules, [Bind(name)], On(below, st)) == On(below, st.Shadow(name))
  {
    ScannedOne(rules, Bind(name), On(below, st));
    assert On(below, st).open[..|below|] == below;
  }

  lemma {:induction false} ParamsAreScanned(rules: Rules, params: seq<Param>, st: State, below: seq<set<string>>)
    ensures Scanned(rules, ParamEvents(params), On(below, st)) == On(below, AddParams(params, st))
  {
    hide On, Scanned, Step;
    if params == [] {
      ScannedOne(rules, Open, On(below, st));
    } else {
      var init, last := params[..|params| - 1], params[|params| - 1];
      ParamsAreScanned(rules, init, st, below);
      BindIsScanned(rules, last.name, AddParams(init, st), below);
      ScannedAppend(rules, ParamEvents(init), [Bind(last.name)], On(below, st));
    }
  }

  lemma {:induction false} DefaultsAreScanned(rules: Rules, params: seq<Param>, st: State, below: seq<set<string>>)
    ensures Scanned(rules, DefaultEvents(params), On(below, st)) == On(below, LintDefaults(rules, params, st))
    decreases params, 1
  {
    hide On, Scanned, Step, ExprsEvents, LintExprs;
    if params == [] {
      ScannedOne(rules, Open, On(below, st));
    } else {
      var init, last := params[..|params| - 1], params[|params| - 1];
      DefaultsAreScanned(rules, init, st, below);
      ExprsAreScanned(rules, last.default, LintDefaults(rules, init, st), below);
      ScannedAppend(rules, DefaultEvents(init), ExprsEvents(last.default), On(below, st));
    }
  }

  /** What stands between the two ends of a definition. */
  function Inner(s: Stmt): seq<Event>
    requires s.ClassDef? || s.Scoped?
  {
    ParamEvents(s.params) + DefaultEvents(s.params) + StmtsEvents(s.body)
  }

  lemma OpenAndClose(rules: Rules, st: State, inside: State, below: seq<set<string>>)
    ensures Scanned(rules, [Open], On(below, st)) == On(below + [st.names], st)
    ensures Scanned(rules, [Close], On(below + [st.names], inside)) == On(below, State(st.names, inside.findings))
  {
    ScannedOne(rules, Open, On(below, st));
    ScannedOne(rules, Close, On(below + [st.names], inside));
    assert (below + [st.names] + [inside.names])[..|below| + 1] == below + [st.names];
  }

  lemma {:induction false} ScopeIsScanned(rules: Rules, s: Stmt, st: State, below: seq<set<string>>)
    requires s.ClassDef? || s.Scoped?
    ensures Scanned(rules, [Open] + Inner(s) + [Close], On(below, st)) == On(below, LintScope(rules, s, st))
    decreases s, 0
  {
    hide On, Scanned, Step, StmtsEvents, LintStmts, ParamEvents, DefaultEvents, AddParams, LintDefaults;
    var up := below + [st.names];
    var params := AddParams(s.params, st);
    var defaults := LintDefaults(rules, s.params, params);
    var inside := LintStmts(rules, s.body, defaults);
    OpenAndClose(rules, st, inside, below);
    ParamsAreScanned(rules, s.params, st, up);
    DefaultsAreScanned(rules, s.params, params, up);
    StmtsAreScanned(rules, s.body, defaults, up);
    ScannedAppend(rules, ParamEvents(s.params), DefaultEvents(s.params), On(up, st));
    ScannedAppend(rules, ParamEvents(s.params) + DefaultEvents(s.params), StmtsEvents(s.body), On(up, st));
    ScannedAppend(rules, [Open], Inner(s), On(below, st));
    ScannedAppend(rules, [Open] + Inner(s), [Close], On(below, st));
  }

  lemma DefinitionEvents(s: Stmt)
    requires s.ClassDef? || s.Scoped?
    ensures StmtEvents(s) == (if s.ClassDef? && s.inherits != "" then [Inheriting(s.inherits, s.at)] else [])
                             + ([Open] + Inner(s) + [Close])
  {
    hide StmtsEvents, ParamEvents, DefaultEvents;
    var body := StmtsEvents(s.body);
    assert [Open] + ParamEvents(s.params) + DefaultEvents(s.params) + body + [Close] == [Open] + Inner(s) + [Close];
    assert [] + ([Open] + Inner(s) + [Close]) == [Open] + Inner(s) + [Close];
  }

  lemma HeadIsScanned(rules: Rules, s: Stmt, st: State, below: seq<set<string>>)
    requires s.ClassDef?
    ensures Scanned(rules, if s.inherits != "" then [Inheriting(s.inherits, s.at)] else [], On(below, st)) ==
            On(below, if !rules.factsOnly && s.inherits != "" then st.Report(Finding(Inherits, s.inherits, s.at, false)) else st)
  {
    ScannedOne(rules, Inheriting(s.inherits, s.at), On(below, st));
    assert st.findings + [] == st.findings;
  }

  lemma ImportIsScanned(rules: Rules, at: nat, st: State, below: seq<set<string>>)
    ensures Scanned(rules, [ImportLine(at)], On(below, st)) ==
            On(below, if rules.factsOnly then st else st.Report(Finding(ImportRemoved, "", at, true)))
  {
    ScannedOne(rules, ImportLine(at), On(below, st));
    assert st.findings + [] == st.findings;
  }

  lemma {:induction false} StmtIsScanned(rules: Rules, s: Stmt, st: State, below: seq<set<string>>)
    ensures Scanned(rules, StmtEvents(s), On(below, st)) == On(below, LintStmt(rules, s, st))
    decreases s, 1
  {
    hide On, Scanned, Step, ExprsEvents, StmtsEvents, BranchesEvents, LintExprs, LintStmts, LintBranches, LintScope, Inner;
    match s
    case Import(at) => ImportIsScanned(rules, at, st, below);
    case ClassDef(inherits, params, body, at) =>
      hide StmtEvents;
      var head := if inherits != "" then [Inheriting(inherits, at)] else [];
      DefinitionEvents(s);
      HeadIsScanned(rules, s, st, below);
      ScopeIsScanned(rules, s, if !rules.factsOnly && inherits != "" then st.Report(Finding(Inherits, inherits, at, false)) else st,
                     below);
      ScannedAppend(rules, head, [Open] + Inner(s) + [Close], On(below, st));
    case Scoped(params, body) =>
      hide StmtEvents;
      DefinitionEvents(s);
      ScopeIsScanned(rules, s, st, below);
      assert [] + ([Open] + Inner(s) + [Close]) == [Open] + Inner(s) + [Close];
    case Values(parts) => ExprsAreScanned(rules, parts, st, below);
    case Conditional(head, branches, elseBody) =>
      var headed := LintExprs(rules, head, st);
      ExprsAreScanned(rules, head, st, below);
      BranchesAreScanned(rules, branches, headed, below);
      StmtsAreScanned(rules, elseBody, LintBranches(rules, branches, headed), below);
      ScannedAppend(rules, ExprsEvents(head), BranchesEvents(branches), On(below, st));
      ScannedAppend(rules, ExprsEvents(head) + BranchesEvents(branches), StmtsEvents(elseBody), On(below, st));
    case Assignment(variable, value) => ExprsAreScanned(rules, value, st, below);
    case Other => ScannedOne(rules, Open, On(below, st));
  }

  lemma {:induction false} BranchesAreScanned(rules: Rules, branches: seq<Branch>, st: State, below: seq<set<string>>)
    ensures Scanned(rules, BranchesEvents(branches), On(below, st)) == On(below, LintBranches(rules, branches, st))
    decreases branches, 1
  {
    hide On, Scanned, Step, ExprsEvents, StmtsEvents, LintExprs, LintStmts;
    if branches == [] {
      ScannedOne(rules, Open, On(below, st));
    } else {
      var init, last := branches[..|branches| - 1], branches[|branches| - 1];
      var before := LintBranches(rules, init, st);
      var tested := LintExprs(rules, last.condition, before);
      BranchesAreScanned(rules, init, st, below);
      ExprsAreScanned(rules, last.condition, before, below);
      StmtsAreScanned(rules, last.body, tested, below);
      ScannedAppend(rules, BranchesEvents(init), ExprsEvents(last.condition), On(below, st));
      ScannedAppend(rules, BranchesEvents(init) + ExprsEvents(last.condition), StmtsEvents(last.body), On(below, st));
    }
  }

  lemma {:induction false} StmtsAreScanned(rules: Rules, list: seq<Stmt>, st: State, below: seq<set<string>>)
    ensures Scanned(rules, StmtsEvents(list), On(below, st)) == On(below, LintStmts(rules, list, st))
    decreases list, 1
  {
    hide On, Scanned, Step, StmtEvents, LintStmt;
    if list == [] {
      ScannedOne(rules, Open, On(below, st));
    } else {
      var init, last := list[..|list| - 1], list[|list| - 1];
      var before := LintStmts(rules, init, st);
      var after := LintStmt(rules, last, before);
      var sofar, own := StmtsEvents(init), StmtEvents(last);
      StmtsAreScanned(rules, init, st, below);
      StmtIsScanned(rules, last, before, below);
      ScannedAppend(rules, sofar, own, On(below, st));
      if last.Assignment? {
        BindIsScanned(rules, last.variable, after, below);
        ScannedAppend(rules, sofar + own, [Bind(last.variable)], On(below, st));
      } else {
        assert sofar + own + [] == sofar + own;
      }
    }
  }

  /** The lint of a program finds exactly what the scan of its text says. */
  lemma LintIsScan(rules: Rules, program: seq<Stmt>, earlier: seq<Finding>)
    ensures LintStmts(rules, program, State({}, earlier)).findings
         == Scanned(rules, StmtsEvents(program), Scan([{}], earlier)).findings
  {
    hide LintStmts, Scanned, StmtsEvents;
    StmtsAreScanned(rules, program, State({}, earlier), []);
    assert On([], State({}, earlier)).open == [{}];
  }

  // ----- where names are shadowed -----

  /** How many definitions are open. */
  function Depth(es: seq<Event>): int {
    if es == [] then 0
    else
      var last := es[|es| - 1];
      Depth(es[..|es| - 1]) + if last == Open then 1 else if last == Close then -1 else 0
  }

  ghost predicate Nested(es: seq<Event>) {
    forall k :: 0 <= k <= |es| ==> Depth(es[..k]) >= 0
  }

  /** The definition around event j, if any, has not been closed since. */
  ghost predicate StillOpen(es: seq<Event>, j: nat)
    requires j < |es|
  {
    forall m :: j < m <= |es| ==> Depth(es[..m]) >= Depth(es[..j])
  }

  /** The name was bound, in this definition or in one around it. */
  ghost predicate Shadows(es: seq<Event>, name: string) {
    name != "" && exists j :: 0 <= j < |es| && es[j] == Bind(name) && StillOpen(es, j)
  }

  /** The name was bound in one of the outermost d definitions, or outside of all. */
  ghost predicate BoundUpTo(es: seq<Event>, name: string, d: int) {
    name != "" && exists j :: 0 <= j < |es| && es[j] == Bind(name) && StillOpen(es, j) && Depth(es[..j]) <= d
  }

  lemma SamePrefix(es: seq<Event>, e: Event, m: nat)
    requires m <= |es|
    ensures (es + [e])[..m] == es[..m] && (es + [e])[..|es| + 1] == es + [e]
  {
  }

  lemma StillOpenStep(es: seq<Event>, e: Event, j: nat)
    requires j < |es|
    ensures StillOpen(es + [e], j) <==> StillOpen(es, j) && Depth(es + [e]) >= Depth(es[..j])
  {
    hide Depth;
    var all := es + [e];
    SamePrefix(es, e, j);
    forall m | j < m <= |es|
      ensures all[..m] == es[..m]
    {
      SamePrefix(es, e, m);
    }
    if StillOpen(all, j) {
      assert Depth(all[..|es| + 1]) >= Depth(all[..j]);
      forall m | j < m <= |es|
        ensures Depth(es[..m]) >= Depth(es[..j])
      {
        assert Depth(all[..m]) >= Depth(all[..j]);
      }
    }
    if StillOpen(es, j) && Depth(all) >= Depth(es[..j]) {
      forall m | j < m <= |all|
        ensures Depth(all[..m]) >= Depth(all[..j])
      {
        if m <= |es| {
          assert Depth(es[..m]) >= Depth(es[..j]);
        } else {
          assert all[..m] == all;
        }
      }
    }
  }

  lemma DepthStep(es: seq<Event>, e: Event)
    ensures Depth(es + [e]) == Depth(es) + if e == Open then 1 else if e == Close then -1 else 0
  {
    assert (es + [e])[..|es|] == es;
  }

  lemma OpenIsShallow(es: seq<Event>, j: nat)
    requires j < |es| && StillOpen(es, j)
    ensures Depth(es[..j]) <= Depth(es)
  {
    assert es[..|es|] == es;
    assert Depth(es[..|es|]) >= Depth(es[..j]);
  }

  /** One more event, and the names bound up to a depth that is still open after it. */
  lemma BoundStep(es: seq<Event>, e: Event, name: string, d: int)
    requires d <= Depth(es + [e])
    ensures BoundUpTo(es + [e], name, d) <==>
            BoundUpTo(es, name, d) || (name != "" && e == Bind(name) && Depth(es) <= d)
  {
    hide StillOpen, Depth;
    var all := es + [e];
    forall j | 0 <= j < |es|
      ensures all[j] == es[j] && all[..j] == es[..j]
      ensures Depth(es[..j]) <= d ==> (StillOpen(all, j) <==> StillOpen(es, j))
    {
      assert all[..j] == es[..j];
      StillOpenStep(es, e, j);
    }
    assert all[|es|] == e && all[..|es|] == es;
    if e == Bind(name) {
      DepthStep(es, e);
      LastIsOpen(es, e);
    }
  }

  lemma LastIsOpen(es: seq<Event>, e: Event)
    requires e != Close
    ensures StillOpen(es + [e], |es|)
  {
    var all := es + [e];
    DepthStep(es, e);
    assert all[..|all|] == all && all[..|es|] == es;
  }

  lemma NestedPrefix(es: seq<Event>)
    requires Nested(es) && es != []
    ensures Nested(es[..|es| - 1]) && Depth(es) >= 0
  {
    var init := es[..|es| - 1];
    assert es[..|es|] == es;
    forall k | 0 <= k <= |init|
      ensures Depth(init[..k]) >= 0
    {
      assert init[..k] == es[..k];
    }
  }

  /** What one event does to the sets. */
  lemma StepOpens(rules: Rules, e: Event, s: Scan, d: nat)
    requires s.open != [] && d < |Step(rules, e, s).open|
    ensures |Step(rules, e, s).open| == |s.open| + if e == Open then 1 else if e == Close then -1 else 0
    ensures Step(rules, e, s).open[d] == if d == |s.open| then s.open[d - 1]
                                         else if d == |s.open| - 1 && e.Bind? && e.name != "" then s.open[d] + {e.name}
                                         else s.open[d]
  {
    hide Said;
  }

  lemma StepDepth(rules: Rules, e: Event, s: Scan)
    requires s.open != []
    ensures |Step(rules, e, s).open| == |s.open| + if e == Open then 1 else if e == Close then -1 else 0
  {
    hide Said;
  }

  /** The sets of a scan hold exactly the names bound up to their depth. */
  lemma {:induction false} OpenSetsAre(rules: Rules, es: seq<Event>, name: string)
    requires Nested(es)
    ensures var open := Scanned(rules, es, Scan([{}], [])).open;
            |open| == Depth(es) + 1 && forall d :: 0 <= d < |open| ==> (name in open[d] <==> BoundUpTo(es, name, d))
  {
    if es == [] {
      NoDepth();
    } else {
      hide BoundUpTo, StillOpen, Nested, Said, Step, Depth;
      var init, e := es[..|es| - 1], es[|es| - 1];
      var s := Scanned(rules, init, Scan([{}], []));
      var before, after := s.open, Step(rules, e, s).open;
      NestedPrefix(es);
      OpenSetsAre(rules, init, name);
      DepthStep(init, e);
      assert es == init + [e];
      StepDepth(rules, e, s);
      forall d | 0 <= d < |after|
        ensures name in after[d] <==> BoundUpTo(es, name, d)
      {
        StepOpens(rules, e, s, d);
        BoundStep(init, e, name, d);
        if e == Open && d == |before| {
          BoundDeep(init, name, d);
        }
      }
    }
  }

  lemma NoDepth()
    ensures Depth([]) == 0
  {
  }

  /** Nothing is bound deeper than the innermost definition. */
  lemma BoundDeep(es: seq<Event>, name: string, d: int)
    requires d >= Depth(es)
    ensures BoundUpTo(es, name, d) <==> BoundUpTo(es, name, Depth(es))
    ensures BoundUpTo(es, name, d) <==> Shadows(es, name)
  {
    forall j | 0 <= j < |es| && StillOpen(es, j)
      ensures Depth(es[..j]) <= Depth(es)
    {
      OpenIsShallow(es, j);
    }
  }

  /** What a scan says is only added to what was said before. */
  lemma {:induction false} FindingsAdd(rules: Rules, es: seq<Event>, open: seq<set<string>>, findings: seq<Finding>)
    ensures Scanned(rules, es, Scan(open, findings)) ==
            Scan(Scanned(rules, es, Scan(open, [])).open, findings + Scanned(rules, es, Scan(open, [])).findings)
  {
    if es == [] {
      assert findings + [] == findings;
    } else {
      FindingsAdd(rules, es[..|es| - 1], open, findings);
    }
  }

  /**
   * Each read, call, repeated key, import and inheritance contributes exactly what is said of it, given the names that are
   * shadowed there, whatever stands before and after it.
   */
  lemma EventIsReported(rules: Rules, before: seq<Event>, e: Event, after: seq<Event>) returns (shadowed: set<string>)
    requires Nested(before) && !e.Bind? && e != Open && e != Close
    ensures forall name :: name in shadowed <==> Shadows(before, name)
    ensures var first := Scanned(rules, before, Scan([{}], []));
            Scanned(rules, before + [e] + after, Scan([{}], [])).findings
            == first.findings + Said(rules, e, shadowed) + Scanned(rules, after, Scan(first.open, [])).findings
    ensures Scanned(rules, before + after, Scan([{}], [])).findings
         == Scanned(rules, before, Scan([{}], [])).findings
            + Scanned(rules, after, Scan(Scanned(rules, before, Scan([{}], [])).open, [])).findings
  {
    hide Scanned, Said, Shadows, BoundUpTo, Nested, Depth;
    var start := Scan([{}], []);
    var first := Scanned(rules, before, start);
    NestedWhole(before);
    OpenSetsAre(rules, before, "");
    shadowed := first.open[|first.open| - 1];
    forall name
      ensures name in shadowed <==> Shadows(before, name)
    {
      OpenSetsAre(rules, before, name);
      BoundDeep(before, name, Depth(before));
    }
    ScannedAppend(rules, before + [e], after, start);
    ScannedAppend(rules, before, [e], start);
    ScannedAppend(rules, before, after, start);
    ScannedOne(rules, e, first);
    FindingsAdd(rules, after, first.open, first.findings + Said(rules, e, shadowed));
    FindingsAdd(rules, after, first.open, first.findings);
  }

  lemma NestedWhole(es: seq<Event>)
    requires Nested(es)
    ensures Depth(es) >= 0
  {
    assert es[..|es|] == es;
  }

  // ----- the events of a program are nested -----

  /** Nested, and everything opened is closed. */
  ghost predicate Balanced(es: seq<Event>) {
    Nested(es) && Depth(es) == 0
  }

  lemma {:induction false} DepthAppend(a: seq<Event>, b: seq<Event>)
    ensures Depth(a + b) == Depth(a) + Depth(b)
  {
    if b == [] {
      assert a + b == a;
    } else {
      assert (a + b)[..|a + b| - 1] == a + b[..|b| - 1];
      DepthAppend(a, b[..|b| - 1]);
    }
  }

  lemma PrefixOfTwo(a: seq<Event>, b: seq<Event>, k: nat)
    requires k <= |a| + |b|
    ensures (a + b)[..k] == if k <= |a| then a[..k] else a + b[..k - |a|]
  {
  }

  lemma BalancedTwo(a: seq<Event>, b: seq<Event>)
    requires Balanced(a) && Balanced(b)
    ensures Balanced(a + b)
  {
    DepthAppend(a, b);
    forall k | 0 <= k <= |a + b|
      ensures Depth((a + b)[..k]) >= 0
    {
      PrefixOfTwo(a, b, k);
      if k > |a| {
        DepthAppend(a, b[..k - |a|]);
      }
    }
  }

  lemma BalancedOne(e: Event)
    requires e != Open && e != Close
    ensures Balanced([e]) && Balanced([])
  {
    assert [e][..0] == [] && [e][..1] == [e];
  }

  lemma BalancedScope(es: seq<Event>)
    requires Balanced(es)
    ensures Balanced([Open] + es + [Close])
  {
    var all := [Open] + es + [Close];
    DepthAppend([Open] + es, [Close]);
    DepthAppend([Open], es);
    assert [Open][..0] == [] && [Close][..0] == [] && [Open][..1] == [Open];
    forall k | 0 <= k <= |all|
      ensures Depth(all[..k]) >= 0
    {
      PrefixOfTwo([Open] + es, [Close], k);
      if k == |all| {
        assert all[..k] == all;
      } else {
        PrefixOfTwo([Open], es, k);
        if k > 0 {
          DepthAppend([Open], es[..k - 1]);
        }
      }
    }
  }

  lemma {:induction false} ExprBalanced(e: Expr)
    ensures Balanced(ExprEvents(e))
    decreases e, 0
  {
    hide Balanced, ExprsEvents, StmtsEvents, EntriesEvents;
    BalancedOne(Read("", 0));
    match e
    case Literal(_) =>
    case Variable(name, at) => BalancedOne(Read(name, at));
    case Funcall(name, args, lambda, at) =>
      BalancedOne(Call(name, at));
      ExprsBalanced(args);
      ExprBalanced(lambda);
      BalancedTwo([Call(name, at)], ExprsEvents(args));
      BalancedTwo([Call(name, at)] + ExprsEvents(args), ExprEvents(lambda));
    case Compound(parts) => ExprsBalanced(parts);
    case Lambda(body, exprBody) =>
      StmtsBalanced(body);
      ExprsBalanced(exprBody);
      BalancedTwo(StmtsEvents(body), ExprsEvents(exprBody));
    case HashLiteral(entries) => EntriesBalanced(entries, |entries|);
  }

  lemma {:induction false} ExprsBalanced(es: seq<Expr>)
    ensures Balanced(ExprsEvents(es))
    decreases es, 1
  {
    hide Balanced, ExprEvents;
    BalancedOne(Read("", 0));
    if es != [] {
      ExprsBalanced(es[..|es| - 1]);
      ExprBalanced(es[|es| - 1]);
      BalancedTwo(ExprsEvents(es[..|es| - 1]), ExprEvents(es[|es| - 1]));
    }
  }

  lemma {:induction false} EntryBalanced(entry: Entry)
    ensures Balanced(EntryEvents(entry))
    decreases entry, 0
  {
    hide Balanced, ExprEvents;
    ExprBalanced(entry.key);
    ExprBalanced(entry.value);
    BalancedTwo(ExprEvents(entry.key), ExprEvents(entry.value));
  }

  lemma KeyBalanced(entries: seq<Entry>, i: nat)
    requires i < |entries|
    ensures Balanced(KeyEvents(entries, i))
  {
    hide Balanced;
    BalancedOne(Read("", 0));
    if KeyEvents(entries, i) != [] {
      BalancedOne(KeyEvents(entries, i)[0]);
    }
  }

  lemma {:induction false} EntriesBalanced(entries: seq<Entry>, n: nat)
    requires n <= |entries|
    ensures Balanced(EntriesEvents(entries, n))
    decreases entries, n
  {
    hide Balanced, EntryEvents, KeyEvents;
    BalancedOne(Read("", 0));
    if n > 0 {
      var sofar, key := EntriesEvents(entries, n - 1), KeyEvents(entries, n - 1);
      EntriesBalanced(entries, n - 1);
      KeyBalanced(entries, n - 1);
      EntryBalanced(entries[n - 1]);
      BalancedTwo(sofar, key);
      BalancedTwo(sofar + key, EntryEvents(entries[n - 1]));
    }
  }

  lemma {:induction false} ParamsBalanced(params: seq<Param>)
    ensures Balanced(ParamEvents(params))
  {
    hide Balanced;
    BalancedOne(Read("", 0));
    if params != [] {
      var init, last := params[..|params| - 1], params[|params| - 1];
      ParamsBalanced(init);
      BalancedOne(Bind(last.name));
      BalancedTwo(ParamEvents(init), [Bind(last.name)]);
    }
  }

  lemma {:induction false} DefaultsBalanced(params: seq<Param>)
    ensures Balanced(DefaultEvents(params))
    decreases params, 1
  {
    hide Balanced, ExprsEvents;
    BalancedOne(Read("", 0));
    if params != [] {
      var init, last := params[..|params| - 1], params[|params| - 1];
      DefaultsBalanced(init);
      ExprsBalanced(last.default);
      BalancedTwo(DefaultEvents(init), ExprsEvents(last.default));
    }
  }

  lemma {:induction false} ScopeBalanced(s: Stmt)
    requires s.ClassDef? || s.Scoped?
    ensures Balanced([Open] + Inner(s) + [Close])
    decreases s, 0
  {
    hide Balanced, StmtsEvents, ParamEvents, DefaultEvents;
    ParamsBalanced(s.params);
    DefaultsBalanced(s.params);
    StmtsBalanced(s.body);
    BalancedTwo(ParamEvents(s.params), DefaultEvents(s.params));
    BalancedTwo(ParamEvents(s.params) + DefaultEvents(s.params), StmtsEvents(s.body));
    BalancedScope(Inner(s));
  }

  lemma {:induction false} StmtBalanced(s: Stmt)
    ensures Balanced(StmtEvents(s))
    decreases s, 1
  {
    hide Balanced, ExprsEvents, StmtsEvents, BranchesEvents, Inner;
    BalancedOne(Read("", 0));
    match s
    case Import(at) => BalancedOne(ImportLine(at));
    case ClassDef(inherits, params, body, at) =>
      hide StmtEvents;
      BalancedOne(Inheriting(inherits, at));
      DefinitionEvents(s);
      ScopeBalanced(s);
      BalancedTwo(if inherits != "" then [Inheriting(inherits, at)] else [], [Open] + Inner(s) + [Close]);
    case Scoped(params, body) =>
      hide StmtEvents;
      DefinitionEvents(s);
      ScopeBalanced(s);
      assert [] + ([Open] + Inner(s) + [Close]) == [Open] + Inner(s) + [Close];
    case Values(parts) => ExprsBalanced(parts);
    case Conditional(head, branches, elseBody) =>
      ExprsBalanced(head);
      BranchesBalanced(branches);
      StmtsBalanced(elseBody);
      BalancedTwo(ExprsEvents(head), BranchesEvents(branches));
      BalancedTwo(ExprsEvents(head) + BranchesEvents(branches), StmtsEvents(elseBody));
    case Assignment(variable, value) => ExprsBalanced(value);
    case Other =>
  }

  lemma {:induction false} BranchesBalanced(branches: seq<Branch>)
    ensures Balanced(BranchesEvents(branches))
    decreases branches, 1
  {
    hide Balanced, ExprsEvents, StmtsEvents;
    BalancedOne(Read("", 0));
    if branches != [] {
      var init, last := branches[..|branches| - 1], branches[|branches| - 1];
      BranchesBalanced(init);
      ExprsBalanced(last.condition);
      StmtsBalanced(last.body);
      BalancedTwo(BranchesEvents(init), ExprsEvents(last.condition));
      BalancedTwo(BranchesEvents(init) + ExprsEvents(last.condition), StmtsEvents(last.body));
    }
  }

  lemma {:induction false} StmtsBalanced(list: seq<Stmt>)
    ensures Balanced(StmtsEvents(list))
    decreases list, 1
  {
    hide Balanced, StmtEvents;
    BalancedOne(Read("", 0));
    if list != [] {
      var init, last := list[..|list| - 1], list[|list| - 1];
      var sofar, own := StmtsEvents(init), StmtEvents(last);
      StmtsBalanced(init);
      StmtBalanced(last);
      BalancedTwo(sofar, own);
      if last.Assignment? {
        BalancedOne(Bind(last.variable));
        BalancedTwo(sofar + own, [Bind(last.variable)]);
      } else {
        assert sofar + own + [] == sofar + own;
      }
    }
  }

  /**
   * So wherever something stands in a program, the lint says of it what the names bound before it, in its own definition or
   * in one around it, leave to be said; the rest of the program is reported as without it.
   */
  lemma EveryEventIsReported(rules: Rules, program: seq<Stmt>, before: seq<Event>, e: Event, after: seq<Event>)
    returns (earlier: seq<Finding>, shadowed: set<string>, later: seq<Finding>)
    requires StmtsEvents(program) == before + [e] + after && !e.Bind? && e != Open && e != Close
    ensures LintStmts(rules, program, State({}, [])).findings == earlier + Said(rules, e, shadowed) + later
    ensures forall name :: name in shadowed <==> Shadows(before, name)
    ensures earlier + later == Scanned(rules, before + after, Scan([{}], [])).findings
  {
    hide LintStmts, Scanned, StmtsEvents, Said, Shadows, Nested;
    StmtsBalanced(program);
    NestedStart(before, [e] + after);
    assert before + ([e] + after) == before + [e] + after;
    LintIsScan(rules, program, []);
    shadowed := EventIsReported(rules, before, e, after);
    var first := Scanned(rules, before, Scan([{}], []));
    earlier, later := first.findings, Scanned(rules, after, Scan(first.open, [])).findings;
  }

  lemma NestedStart(a: seq<Event>, b: seq<Event>)
    requires Balanced(a + b)
    ensures Nested(a)
  {
    forall k | 0 <= k <= |a|
      ensures Depth(a[..k]) >= 0
    {
      assert (a + b)[..k] == a[..k];
    }
  }
}
