/** The Puppet 8 lint as a pure walk that threads the set of shadowed names in statement order. */
module LintWalk {
  import opened Common

  // ----- manifests -----

  /**
   * Expressions, as far as the lint looks into them. `Compound` stands for every kind that is only walked through:
   * its parts are the operands in the order in which they are visited. `Lambda` is also a statement block used as a
   * value. Missing names and parts are empty ones.
   */
  datatype Expr =
    | Literal(text: Option<string>)
    | Variable(name: string, at: nat)
    | Funcall(function_: string, args: seq<Expr>, lambda: Expr, at: nat)
    | Compound(parts: seq<Expr>)
    | Lambda(body: seq<Stmt>, exprBody: seq<Expr>)
    | HashLiteral(entries: seq<Entry>)

  datatype Entry = Entry(key: Expr, value: Expr, at: nat)

  /**
   * Statements. `Scoped` stands for node, define and function definitions, `Conditional` for if, unless and case,
   * `Values` for all that merely hold expressions, in the order in which they are visited.
   */
  datatype Stmt =
    | Import(at: nat)
    | ClassDef(inherits: string, params: seq<Param>, body: seq<Stmt>, at: nat)
    | Scoped(params: seq<Param>, body: seq<Stmt>)
    | Values(parts: seq<Expr>)
    | Conditional(head: seq<Expr>, branches: seq<Branch>, elseBody: seq<Stmt>)
    | Assignment(variable: string, value: seq<Expr>)
    | Other

  datatype Param = Param(name: string, default: seq<Expr>)

  datatype Branch = Branch(condition: seq<Expr>, body: seq<Stmt>)

  // ----- findings -----

  datatype Rule = ImportRemoved | Inherits | RemovedFunction | DeprecatedFunction | LegacyFact | IndexedFact | DuplicateKey

  datatype Finding = Finding(rule: Rule, name: string, at: nat, error: bool)

  /** The tables of the lint and its two switches. */
  datatype Rules = Rules(removed: set<string>, deprecated: set<string>, legacy: set<string>, strict: bool, factsOnly: bool)

  /** What the walk knows: the names shadowed so far, and what it has reported. */
  datatype State = State(names: set<string>, findings: seq<Finding>) {
    function Report(f: Finding): State {
      State(names, findings + [f])
    }

    /** Empty names shadow nothing. */
    function Shadow(name: string): State {
      if name == "" then this else State(names + {name}, findings)
    }
  }

  // ----- single checks -----

  predicate IndexedPrefix(name: string) {
    || "ipaddress_" <= name || "macaddress_" <= name || "netmask_" <= name || "network_" <= name
    || "blockdevice_" <= name || "processor" <= name
  }

  predicate BuiltIn(name: string) {
    name == "facts" || name == "trusted" || name == "server_facts" || name == "environment"
  }

  /** The finding for a read of a variable, given the names shadowed there. */
  function CheckVariable(rules: Rules, name: string, at: nat, names: set<string>): Option<Finding> {
    var explicit := "::" <= name;
    var fact := if explicit then name[2..] else name;
    if fact == "" || ':' in fact || BuiltIn(fact) || fact in names then None
    else if fact in rules.legacy then Some(Finding(LegacyFact, fact, at, rules.strict))
    else if explicit && IndexedPrefix(fact) then Some(Finding(IndexedFact, fact, at, rules.strict))
    else None
  }

  function CheckFuncall(rules: Rules, name: string, at: nat): Option<Finding> {
    if rules.factsOnly then None
    else if name in rules.removed then Some(Finding(RemovedFunction, name, at, true))
    else if name in rules.deprecated then Some(Finding(DeprecatedFunction, name, at, false))
    else None
  }

  predicate SameLiteral(a: Expr, b: Expr) {
    a.Literal? && b.Literal? && a.text.Some? && a.text == b.text
  }

  /** A literal string key that an earlier entry of the same hash has already. */
  function CheckKey(entries: seq<Entry>, i: nat): Option<Finding>
    requires i < |entries|
  {
    if exists j :: 0 <= j < i && SameLiteral(entries[j].key, entries[i].key)
    then Some(Finding(DuplicateKey, entries[i].key.text.value, entries[i].at, true))
    else None
  }

  function Reported(st: State, f: Option<Finding>): State {
    if f.Some? then st.Report(f.value) else st
  }

  // ----- the walk -----

  function LintExpr(rules: Rules, e: Expr, st: State): State
    decreases e, 0
  {
    match e
    case Literal(_) => st
    case Variable(name, at) => Reported(st, CheckVariable(rules, name, at, st.names))
    case Funcall(name, args, lambda, at) =>
      LintExpr(rules, lambda, LintExprs(rules, args, Reported(st, CheckFuncall(rules, name, at))))
    case Compound(parts) => LintExprs(rules, parts, st)
    case Lambda(body, exprBody) => LintExprs(rules, exprBody, LintStmts(rules, body, st))
    case HashLiteral(entries) => LintEntries(rules, entries, |entries|, st)
  }

  function LintExprs(rules: Rules, es: seq<Expr>, st: State): State
    decreases es, 1
  {
    if es == [] then st else LintExpr(rules, es[|es| - 1], LintExprs(rules, es[..|es| - 1], st))
  }

  function LintEntry(rules: Rules, entry: Entry, st: State): State
    decreases entry, 0
  {
    LintExpr(rules, entry.value, LintExpr(rules, entry.key, st))
  }

  /** The first n entries of a hash. */
  function LintEntries(rules: Rules, entries: seq<Entry>, n: nat, st: State): State
    requires n <= |entries|
    decreases entries, n
  {
    if n == 0 then st
    else LintEntry(rules, entries[n - 1], Reported(LintEntries(rules, entries, n - 1, st), CheckKey(entries, n - 1)))
  }

  function AddParams(params: seq<Param>, st: State): State {
    if params == [] then st else AddParams(params[..|params| - 1], st).Shadow(params[|params| - 1].name)
  }

  function LintDefaults(rules: Rules, params: seq<Param>, st: State): State
    decreases params, 1
  {
    if params == [] then st
    else LintExprs(rules, params[|params| - 1].default, LintDefaults(rules, params[..|params| - 1], st))
  }

  /** All parameters shadow before any default is looked at; nothing shadowed inside is shadowed after. */
  function LintScope(rules: Rules, s: Stmt, st: State): State
    requires s.ClassDef? || s.Scoped?
    decreases s, 0
  {
    State(st.names, LintStmts(rules, s.body, LintDefaults(rules, s.params, AddParams(s.params, st))).findings)
  }

  function LintStmt(rules: Rules, s: Stmt, st: State): State
    decreases s, 1
  {
    match s
    case Import(at) => if rules.factsOnly then st else st.Report(Finding(ImportRemoved, "", at, true))
    case ClassDef(inherits, params, body, at) =>
      var warned := if !rules.factsOnly && inherits != "" then st.Report(Finding(Inherits, inherits, at, false)) else st;
      LintScope(rules, s, warned)
    case Scoped(params, body) => LintScope(rules, s, st)
    case Values(parts) => LintExprs(rules, parts, st)
    case Conditional(head, branches, elseBody) =>
      LintStmts(rules, elseBody, LintBranches(rules, branches, LintExprs(rules, head, st)))
    case Assignment(variable, value) => LintExprs(rules, value, st)
    case Other => st
  }

  function LintBranches(rules: Rules, branches: seq<Branch>, st: State): State
    decreases branches, 1
  {
    if branches == [] then st
    else
      var last := branches[|branches| - 1];
      LintStmts(rules, last.body, LintExprs(rules, last.condition, LintBranches(rules, branches[..|branches| - 1], st)))
  }

  /** An assigned name shadows from the next statement on. */
  function LintStmts(rules: Rules, list: seq<Stmt>, st: State): State
    decreases list, 1
  {
    if list == [] then st
    else
      var last := list[|list| - 1];
      var after := LintStmt(rules, last, LintStmts(rules, list[..|list| - 1], st));
      if last.Assignment? then after.Shadow(last.variable) else after
  }
}
