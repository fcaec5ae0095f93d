/** What the lint walk means: scopes, shadowing, and how its two switches change the findings. */
module LintLaws {
  import opened Common
  import opened LintWalk

  // ----- which names a piece of manifest leaves shadowed -----

  function AssignedExpr(e: Expr): set<string>
    decreases e, 0
  {
    match e
    case Literal(_) => {}
    case Variable(_, _) => {}
    case Funcall(_, args, lambda, _) => AssignedExprs(args) + AssignedExpr(lambda)
    case Compound(parts) => AssignedExprs(parts)
    case Lambda(body, exprBody) => AssignedStmts(body) + AssignedExprs(exprBody)
    case HashLiteral(entries) => AssignedEntries(entries, |entries|)
  }

  function AssignedExprs(es: seq<Expr>): set<string>
    decreases es, 1
  {
    if es == [] then {} else AssignedExprs(es[..|es| - 1]) + AssignedExpr(es[|es| - 1])
  }

  function AssignedEntry(entry: Entry): set<string>
    decreases entry, 0
  {
    AssignedExpr(entry.key) + AssignedExpr(entry.value)
  }

  function AssignedEntries(entries: seq<Entry>, n: nat): set<string>
    requires n <= |entries|
    decreases entries, n
  {
    if n == 0 then {} else AssignedEntries(entries, n - 1) + AssignedEntry(entries[n - 1])
  }

  function Named(name: string): set<string> {
    if name == "" then {} else {name}
  }

  function ParamNames(params: seq<Param>): set<string> {
    if params == [] then {} else ParamNames(params[..|params| - 1]) + Named(params[|params| - 1].name)
  }

  function AssignedDefaults(params: seq<Param>): set<string>
    decreases params, 1
  {
    if params == [] then {} else AssignedDefaults(params[..|params| - 1]) + AssignedExprs(params[|params| - 1].default)
  }

  /** Definitions keep their names to themselves; branches and lambda bodies do not. */
  function AssignedStmt(s: Stmt): set<string>
    decreases s, 0
  {
    match s
    case Values(parts) => AssignedExprs(parts)
    case Conditional(head, branches, elseBody) =>
      AssignedExprs(head) + AssignedBranches(branches) + AssignedStmts(elseBody)
    case Assignment(variable, value) => AssignedExprs(value)
    case _ => {}
  }

  function AssignedBranches(branches: seq<Branch>): set<string>
    decreases branches, 1
  {
    if branches == [] then {}
    else
      var last := branches[|branches| - 1];
      AssignedBranches(branches[..|branches| - 1]) + AssignedExprs(last.condition) + AssignedStmts(last.body)
  }

  function AssignedStmts(list: seq<Stmt>): set<string>
    decreases list, 1
  {
    if list == [] then {}
    else
      var last := list[|list| - 1];
      AssignedStmts(list[..|list| - 1]) + AssignedStmt(last) + if last.Assignment? then Named(last.variable) else {}
  }

  // ----- every walk extends its state -----

  predicate AboutFact(f: Finding) {
    f.rule == LegacyFact || f.rule == IndexedFact
  }

  /** Exactly these names are added, findings are only added, and no added finding is about a shadowed fact. */
  ghost predicate Extends(st: State, r: State, added: set<string>) {
    && r.names == st.names + added
    && st.findings <= r.findings
    && forall i :: |st.findings| <= i < |r.findings| && AboutFact(r.findings[i]) ==> r.findings[i].name !in st.names
  }

  lemma ExtendsNothing(st: State)
    ensures Extends(st, st, {})
  {
  }

  lemma ExtendsTwice(a: State, b: State, c: State, x: set<string>, y: set<string>)
    requires Extends(a, b, x) && Extends(b, c, y)
    ensures Extends(a, c, x + y)
  {
    forall i | |a.findings| <= i < |c.findings| && AboutFact(c.findings[i])
      ensures c.findings[i].name !in a.names
    {
      assert i < |b.findings| ==> c.findings[i] == b.findings[i];
    }
  }

  lemma ReportedExtends(st: State, f: Option<Finding>)
    requires f.Some? && AboutFact(f.value) ==> f.value.name !in st.names
    ensures Extends(st, Reported(st, f), {})
  {
  }

  /** A walk adds to the shadowed names exactly those it assigns outside of definitions, in whatever order. */
  lemma {:induction false} ExprExtends(rules: Rules, e: Expr, st: State)
    ensures Extends(st, LintExpr(rules, e, st), AssignedExpr(e))
    decreases e, 0
  {
    hide Extends, LintExprs, LintStmts, LintEntries, AssignedExprs, AssignedStmts, AssignedEntries, Reported;
    match e
    case Literal(_) => ExtendsNothing(st);
    case Variable(name, at) => ReportedExtends(st, CheckVariable(rules, name, at, st.names));
    case Funcall(name, args, lambda, at) =>
      var checked := Reported(st, CheckFuncall(rules, name, at));
      ReportedExtends(st, CheckFuncall(rules, name, at));
      var walked := LintExprs(rules, args, checked);
      ExprsExtend(rules, args, checked);
      ExprExtends(rules, lambda, walked);
      ExtendsTwice(st, checked, walked, {}, AssignedExprs(args));
      assert {} + AssignedExprs(args) == AssignedExprs(args);
      ExtendsTwice(st, walked, LintExpr(rules, lambda, walked), AssignedExprs(args), AssignedExpr(lambda));
    case Compound(parts) => ExprsExtend(rules, parts, st);
    case Lambda(body, exprBody) =>
      var walked := LintStmts(rules, body, st);
      StmtsExtend(rules, body, st);
      ExprsExtend(rules, exprBody, walked);
      ExtendsTwice(st, walked, LintExprs(rules, exprBody, walked), AssignedStmts(body), AssignedExprs(exprBody));
    case HashLiteral(entries) => EntriesExtend(rules, entries, |entries|, st);
  }

  lemma {:induction false} ExprsExtend(rules: Rules, es: seq<Expr>, st: State)
    ensures Extends(st, LintExprs(rules, es, st), AssignedExprs(es))
    decreases es, 1
  {
    hide Extends, LintExpr, AssignedExpr;
    if es == [] {
      ExtendsNothing(st);
    } else {
      var init, last := es[..|es| - 1], es[|es| - 1];
      var before := LintExprs(rules, init, st);
      ExprsExtend(rules, init, st);
      ExprExtends(rules, last, before);
      ExtendsTwice(st, before, LintExpr(rules, last, before), AssignedExprs(init), AssignedExpr(last));
    }
  }

  lemma {:induction false} EntryExtends(rules: Rules, entry: Entry, st: State)
    ensures Extends(st, LintEntry(rules, entry, st), AssignedEntry(entry))
    decreases entry, 0
  {
    hide Extends, LintExpr, AssignedExpr;
    var keyed := LintExpr(rules, entry.key, st);
    ExprExtends(rules, entry.key, st);
    ExprExtends(rules, entry.value, keyed);
    ExtendsTwice(st, keyed, LintExpr(rules, entry.value, keyed), AssignedExpr(entry.key), AssignedExpr(entry.value));
  }

  lemma {:induction false} EntriesExtend(rules: Rules, entries: seq<Entry>, n: nat, st: State)
    requires n <= |entries|
    ensures Extends(st, LintEntries(rules, entries, n, st), AssignedEntries(entries, n))
    decreases entries, n
  {
    hide Extends, LintEntry, AssignedEntry, Reported;
    if n == 0 {
      ExtendsNothing(st);
    } else {
      var before, names := LintEntries(rules, entries, n - 1, st), AssignedEntries(entries, n - 1);
      var checked := Reported(before, CheckKey(entries, n - 1));
      EntriesExtend(rules, entries, n - 1, st);
      ReportedExtends(before, CheckKey(entries, n - 1));
      EntryExtends(rules, entries[n - 1], checked);
      ExtendsTwice(st, before, checked, names, {});
      assert names + {} == names;
      ExtendsTwice(st, checked, LintEntry(rules, entries[n - 1], checked), names, AssignedEntry(entries[n - 1]));
    }
  }

  lemma {:induction false} AddParamsFindings(params: seq<Param>, st: State)
    ensures AddParams(params, st) == State(st.names + ParamNames(params), st.findings)
  {
    if params != [] {
      AddParamsFindings(params[..|params| - 1], st);
    }
  }

  lemma {:induction false} DefaultsExtend(rules: Rules, params: seq<Param>, st: State)
    ensures Extends(st, LintDefaults(rules, params, st), AssignedDefaults(params))
    decreases params, 1
  {
    hide Extends, LintExprs, AssignedExprs;
    if params == [] {
      ExtendsNothing(st);
    } else {
      var init, last := params[..|params| - 1], params[|params| - 1];
      var before := LintDefaults(rules, init, st);
      DefaultsExtend(rules, init, st);
      ExprsExtend(rules, last.default, before);
      ExtendsTwice(st, before, LintExprs(rules, last.default, before), AssignedDefaults(init), AssignedExprs(last.default));
    }
  }

  /** A definition leaves the shadowed names exactly as they were. */
  lemma {:induction false} ScopeExtends(rules: Rules, s: Stmt, st: State)
    requires s.ClassDef? || s.Scoped?
    ensures Extends(st, LintScope(rules, s, st), {})
    decreases s, 0
  {
    var inside := AddParams(s.params, st);
    AddParamsFindings(s.params, st);
    var defaults := LintDefaults(rules, s.params, inside);
    DefaultsExtend(rules, s.params, inside);
    StmtsExtend(rules, s.body, defaults);
    ExtendsTwice(inside, defaults, LintStmts(rules, s.body, defaults), AssignedDefaults(s.params), AssignedStmts(s.body));
  }

  lemma {:induction false} StmtExtends(rules: Rules, s: Stmt, st: State)
    ensures Extends(st, LintStmt(rules, s, st), AssignedStmt(s))
    decreases s, 1
  {
    hide LintExprs, LintStmts, LintScope, LintBranches, AssignedExprs, AssignedStmts, AssignedBranches;
    match s
    case Import(at) =>
    case ClassDef(inherits, params, body, at) =>
      var warned := if !rules.factsOnly && inherits != "" then st.Report(Finding(Inherits, inherits, at, false)) else st;
      ScopeExtends(rules, s, warned);
      ExtendsTwice(st, warned, LintScope(rules, s, warned), {}, {});
    case Scoped(params, body) => ScopeExtends(rules, s, st);
    case Values(parts) => ExprsExtend(rules, parts, st);
    case Conditional(head, branches, elseBody) =>
      hide Extends;
      var headed := LintExprs(rules, head, st);
      var branched := LintBranches(rules, branches, headed);
      ExprsExtend(rules, head, st);
      BranchesExtend(rules, branches, headed);
      StmtsExtend(rules, elseBody, branched);
      ExtendsTwice(st, headed, branched, AssignedExprs(head), AssignedBranches(branches));
      ExtendsTwice(st, branched, LintStmts(rules, elseBody, branched),
                   AssignedExprs(head) + AssignedBranches(branches), AssignedStmts(elseBody));
    case Assignment(variable, value) => ExprsExtend(rules, value, st);
    case Other =>
  }

  lemma {:induction false} BranchesExtend(rules: Rules, branches: seq<Branch>, st: State)
    ensures Extends(st, LintBranches(rules, branches, st), AssignedBranches(branches))
    decreases branches, 1
  {
    hide Extends, LintExprs, LintStmts, AssignedExprs, AssignedStmts;
    if branches == [] {
      ExtendsNothing(st);
    } else {
      var init, last := branches[..|branches| - 1], branches[|branches| - 1];
      var before := LintBranches(rules, init, st);
      var tested := LintExprs(rules, last.condition, before);
      BranchesExtend(rules, init, st);
      ExprsExtend(rules, last.condition, before);
      StmtsExtend(rules, last.body, tested);
      ExtendsTwice(st, before, tested, AssignedBranches(init), AssignedExprs(last.condition));
      ExtendsTwice(st, tested, LintStmts(rules, last.body, tested),
                   AssignedBranches(init) + AssignedExprs(last.condition), AssignedStmts(last.body));
    }
  }

  lemma {:induction false} StmtsExtend(rules: Rules, list: seq<Stmt>, st: State)
    ensures Extends(st, LintStmts(rules, list, st), AssignedStmts(list))
    decreases list, 1
  {
    if list != [] {
      hide LintStmt, AssignedStmt;
      var init, last := list[..|list| - 1], list[|list| - 1];
      var before := LintStmts(rules, init, st);
      StmtsExtend(rules, init, st);
      StmtExtends(rules, last, before);
      ExtendsTwice(st, before, LintStmt(rules, last, before), AssignedStmts(init), AssignedStmt(last));
    }
  }

  // ----- the switches -----

  /** What remains of a finding of the plain lint under the two switches. */
  predicate Kept(rules: Rules, f: Finding) {
    rules.factsOnly ==> AboutFact(f) || f.rule == DuplicateKey
  }

  function Adjusted(rules: Rules, f: Finding): Finding {
    if AboutFact(f) then f.(error := rules.strict) else f
  }

  function Projected(rules: Rules, findings: seq<Finding>): seq<Finding> {
    if findings == [] then []
    else
      var last := findings[|findings| - 1];
      Projected(rules, findings[..|findings| - 1]) + if Kept(rules, last) then [Adjusted(rules, last)] else []
  }

  function Project(rules: Rules, st: State): State {
    State(st.names, Projected(rules, st.findings))
  }

  /** The same tables with both switches off. */
  function Plain(rules: Rules): Rules {
    rules.(strict := false, factsOnly := false)
  }

  lemma ProjectReport(rules: Rules, st: State, f: Finding)
    ensures Project(rules, st.Report(f)) ==
            if Kept(rules, f) then Project(rules, st).Report(Adjusted(rules, f)) else Project(rules, st)
  {
    assert (st.findings + [f])[..|st.findings|] == st.findings;
  }

  lemma ProjectShadow(rules: Rules, st: State, name: string)
    ensures Project(rules, st.Shadow(name)) == Project(rules, st).Shadow(name)
  {
  }

  lemma ProjectReported(rules: Rules, st: State, plain: Option<Finding>, here: Option<Finding>)
    requires here == if plain.Some? && Kept(rules, plain.value) then Some(Adjusted(rules, plain.value)) else None
    ensures Reported(Project(rules, st), here) == Project(rules, Reported(st, plain))
  {
    if plain.Some? {
      ProjectReport(rules, st, plain.value);
    }
  }

  /** The switches change no name, drop findings by rule, and set the severity of facts: nothing else. */
  lemma {:induction false} ExprProjects(rules: Rules, e: Expr, st: State)
    ensures LintExpr(rules, e, Project(rules, st)) == Project(rules, LintExpr(Plain(rules), e, st))
    decreases e, 0
  {
    hide Project, Reported, LintExprs, LintStmts, LintEntries;
    match e
    case Literal(_) =>
    case Variable(name, at) =>
      ProjectNames(rules, st);
      ProjectReported(rules, st, CheckVariable(Plain(rules), name, at, st.names), CheckVariable(rules, name, at, st.names));
    case Funcall(name, args, lambda, at) =>
      var plain := CheckFuncall(Plain(rules), name, at);
      ProjectReported(rules, st, plain, CheckFuncall(rules, name, at));
      ExprsProject(rules, args, Reported(st, plain));
      ExprProjects(rules, lambda, LintExprs(Plain(rules), args, Reported(st, plain)));
    case Compound(parts) => ExprsProject(rules, parts, st);
    case Lambda(body, exprBody) =>
      StmtsProject(rules, body, st);
      ExprsProject(rules, exprBody, LintStmts(Plain(rules), body, st));
    case HashLiteral(entries) => EntriesProject(rules, entries, |entries|, st);
  }

  lemma ProjectNames(rules: Rules, st: State)
    ensures Project(rules, st).names == st.names
  {
  }

  lemma {:induction false} ExprsProject(rules: Rules, es: seq<Expr>, st: State)
    ensures LintExprs(rules, es, Project(rules, st)) == Project(rules, LintExprs(Plain(rules), es, st))
    decreases es, 1
  {
    hide Project, LintExpr;
    if es != [] {
      ExprsProject(rules, es[..|es| - 1], st);
      ExprProjects(rules, es[|es| - 1], LintExprs(Plain(rules), es[..|es| - 1], st));
    }
  }

  lemma {:induction false} EntryProjects(rules: Rules, entry: Entry, st: State)
    ensures LintEntry(rules, entry, Project(rules, st)) == Project(rules, LintEntry(Plain(rules), entry, st))
    decreases entry, 0
  {
    hide Project, LintExpr;
    ExprProjects(rules, entry.key, st);
    ExprProjects(rules, entry.value, LintExpr(Plain(rules), entry.key, st));
  }

  lemma {:induction false} EntriesProject(rules: Rules, entries: seq<Entry>, n: nat, st: State)
    requires n <= |entries|
    ensures LintEntries(rules, entries, n, Project(rules, st)) == Project(rules, LintEntries(Plain(rules), entries, n, st))
    decreases entries, n
  {
    hide Project, Reported, LintEntry;
    if n > 0 {
      var before := LintEntries(Plain(rules), entries, n - 1, st);
      EntriesProject(rules, entries, n - 1, st);
      ProjectReported(rules, before, CheckKey(entries, n - 1), CheckKey(entries, n - 1));
      EntryProjects(rules, entries[n - 1], Reported(before, CheckKey(entries, n - 1)));
    }
  }

  lemma {:induction false} ParamsProject(rules: Rules, params: seq<Param>, st: State)
    ensures AddParams(params, Project(rules, st)) == Project(rules, AddParams(params, st))
  {
    hide Project;
    if params != [] {
      ParamsProject(rules, params[..|params| - 1], st);
      ProjectShadow(rules, AddParams(params[..|params| - 1], st), params[|params| - 1].name);
    }
  }

  lemma {:induction false} DefaultsProject(rules: Rules, params: seq<Param>, st: State)
    ensures LintDefaults(rules, params, Project(rules, st)) == Project(rules, LintDefaults(Plain(rules), params, st))
    decreases params, 1
  {
    hide Project, LintExprs;
    if params != [] {
      var init, last := params[..|params| - 1], params[|params| - 1];
      DefaultsProject(rules, init, st);
      ExprsProject(rules, last.default, LintDefaults(Plain(rules), init, st));
    }
  }

  lemma {:induction false} ScopeProjects(rules: Rules, s: Stmt, st: State)
    requires s.ClassDef? || s.Scoped?
    ensures LintScope(rules, s, Project(rules, st)) == Project(rules, LintScope(Plain(rules), s, st))
    decreases s, 0
  {
    var inside := AddParams(s.params, st);
    ParamsProject(rules, s.params, st);
    DefaultsProject(rules, s.params, inside);
    StmtsProject(rules, s.body, LintDefaults(Plain(rules), s.params, inside));
  }

  lemma {:induction false} StmtProjects(rules: Rules, s: Stmt, st: State)
    ensures LintStmt(rules, s, Project(rules, st)) == Project(rules, LintStmt(Plain(rules), s, st))
    decreases s, 1
  {
    hide Project, LintExprs, LintStmts, LintScope, LintBranches;
    match s
    case Import(at) => ProjectReport(rules, st, Finding(ImportRemoved, "", at, true));
    case ClassDef(inherits, params, body, at) =>
      var warning := Finding(Inherits, inherits, at, false);
      ProjectReport(rules, st, warning);
      ScopeProjects(rules, s, if inherits != "" then st.Report(warning) else st);
    case Scoped(params, body) => ScopeProjects(rules, s, st);
    case Values(parts) => ExprsProject(rules, parts, st);
    case Conditional(head, branches, elseBody) =>
      var headed := LintExprs(Plain(rules), head, st);
      ExprsProject(rules, head, st);
      BranchesProject(rules, branches, headed);
      StmtsProject(rules, elseBody, LintBranches(Plain(rules), branches, headed));
    case Assignment(variable, value) => ExprsProject(rules, value, st);
    case Other =>
  }

  lemma {:induction false} BranchesProject(rules: Rules, branches: seq<Branch>, st: State)
    ensures LintBranches(rules, branches, Project(rules, st)) == Project(rules, LintBranches(Plain(rules), branches, st))
    decreases branches, 1
  {
    hide Project, LintExprs, LintStmts;
    if branches != [] {
      var init, last := branches[..|branches| - 1], branches[|branches| - 1];
      var before := LintBranches(Plain(rules), init, st);
      BranchesProject(rules, init, st);
      ExprsProject(rules, last.condition, before);
      StmtsProject(rules, last.body, LintExprs(Plain(rules), last.condition, before));
    }
  }

  lemma {:induction false} StmtsProject(rules: Rules, list: seq<Stmt>, st: State)
    ensures LintStmts(rules, list, Project(rules, st)) == Project(rules, LintStmts(Plain(rules), list, st))
    decreases list, 1
  {
    hide Project, LintStmt;
    if list != [] {
      var init, last := list[..|list| - 1], list[|list| - 1];
      var before := LintStmts(Plain(rules), init, st);
      StmtsProject(rules, init, st);
      StmtProjects(rules, last, before);
      if last.Assignment? {
        ProjectShadow(rules, LintStmt(Plain(rules), last, before), last.variable);
      }
    }
  }
}
