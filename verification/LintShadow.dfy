/** The lint as it runs: a stack of shadowed names, pushed and cut back, and running counters. */
module LintShadow {
  import opened Common
  import opened LintWalk
  import opened LintLaws
  import opened LintScan

  function Errors(findings: seq<Finding>): nat {
    if findings == [] then 0 else Errors(findings[..|findings| - 1]) + if findings[|findings| - 1].error then 1 else 0
  }

  /** Where the errors are, or the warnings. */
  ghost function At(findings: seq<Finding>, error: bool): set<nat> {
    set k | 0 <= k < |findings| && findings[k].error == error
  }

  lemma AtStep(findings: seq<Finding>, f: Finding, error: bool)
    ensures |At(findings + [f], error)| == |At(findings, error)| + if f.error == error then 1 else 0
  {
    var all, n := findings + [f], |findings|;
    assert all[n] == f && forall k :: 0 <= k < n ==> all[k] == findings[k];
    assert At(all, error) == At(findings, error) + if f.error == error then {n} else {};
  }

  lemma {:induction false} ErrorsCount(findings: seq<Finding>)
    ensures |At(findings, true)| == Errors(findings) && |At(findings, false)| == |findings| - Errors(findings)
  {
    if findings != [] {
      hide At;
      var init, last := findings[..|findings| - 1], findings[|findings| - 1];
      assert findings == init + [last];
      ErrorsCount(init);
      AtStep(init, last, true);
      AtStep(init, last, false);
    }
  }

  lemma {:induction false} ErrorsAdd(a: seq<Finding>, b: seq<Finding>)
    ensures Errors(a + b) == Errors(a) + Errors(b)
  {
    if b == [] {
      assert a + b == a;
    } else {
      assert (a + b)[..|a + b| - 1] == a + b[..|b| - 1];
      ErrorsAdd(a, b[..|b| - 1]);
    }
  }

  class Linter {
    const rules: Rules
    /** The names shadowed so far, innermost last. */
    var shadow: seq<string>
    var findings: seq<Finding>
    var errors: nat
    var warnings: nat

    /** No name is on the stack twice, and the counters count. */
    ghost predicate Valid()
      reads this
    {
      && Distinct(shadow) && "" !in shadow
      && errors == Errors(findings) && warnings == |findings| - Errors(findings)
    }

    /** The stack as a set, with the findings. */
    ghost function Abstract(): State
      reads this
    {
      State(Elements(shadow), findings)
    }

    constructor (rules: Rules)
      ensures Valid() && this.rules == rules && shadow == [] && findings == []
    {
      this.rules := rules;
      shadow, findings, errors, warnings := [], [], 0, 0;
    }

    // ----- the stack -----

    method ShadowContains(name: string) returns (found: bool)
      ensures found <==> name in shadow
    {
      for i := 0 to |shadow|
        invariant name !in shadow[..i]
      {
        if shadow[i] == name {
          return true;
        }
      }
      return false;
    }

    /** Push a name, unless it is empty or there already. */
    method ShadowAdd(name: string)
      requires Valid()
      modifies this`shadow
      ensures Valid() && old(shadow) <= shadow
      ensures Abstract() == old(Abstract()).Shadow(name)
    {
      var present := ShadowContains(name);
      if name == "" || present {
        assert Elements(shadow) + {name} == Elements(shadow) || name == "";
        return;
      }
      shadow := shadow + [name];
      assert Elements(shadow) == Elements(old(shadow)) + {name};
    }

    /** Cut the stack back to a mark. */
    method ShadowTruncate(mark: nat)
      requires Valid() && mark <= |shadow|
      modifies this`shadow
      ensures Valid() && shadow == old(shadow)[..mark]
    {
      while |shadow| > mark
        invariant mark <= |shadow| && Valid() && shadow == old(shadow)[..|shadow|]
      {
        shadow := shadow[..|shadow| - 1];
      }
    }

    method Report(f: Finding)
      requires Valid()
      modifies this`findings, this`errors, this`warnings
      ensures Valid() && Abstract() == old(Abstract()).Report(f)
    {
      assert (findings + [f])[..|findings|] == findings;
      findings := findings + [f];
      if f.error {
        errors := errors + 1;
      } else {
        warnings := warnings + 1;
      }
    }

    // ----- the checks -----

    method LintVariable(name: string, at: nat)
      requires Valid()
      modifies this`findings, this`errors, this`warnings
      ensures Valid() && Abstract() == Reported(old(Abstract()), CheckVariable(rules, name, at, Elements(shadow)))
    {
      var explicit := "::" <= name;
      var fact := if explicit then name[2..] else name;
      if fact == "" || ':' in fact || BuiltIn(fact) {
        return;
      }
      var shadowed := ShadowContains(fact);
      if shadowed {
        return;
      }
      if fact in rules.legacy {
        Report(Finding(LegacyFact, fact, at, rules.strict));
      } else if explicit && IndexedPrefix(fact) {
        Report(Finding(IndexedFact, fact, at, rules.strict));
      }
    }

    method LintFuncall(name: string, at: nat)
      requires Valid()
      modifies this`findings, this`errors, this`warnings
      ensures Valid() && Abstract() == Reported(old(Abstract()), CheckFuncall(rules, name, at))
    {
      if rules.factsOnly {
        return;
      }
      if name in rules.removed {
        Report(Finding(RemovedFunction, name, at, true));
      } else if name in rules.deprecated {
        Report(Finding(DeprecatedFunction, name, at, false));
      }
    }

    /** Report a literal key that an earlier entry has, once however many have it. */
    method LintKey(entries: seq<Entry>, i: nat)
      requires Valid() && i < |entries|
      modifies this`findings, this`errors, this`warnings
      ensures Valid() && Abstract() == Reported(old(Abstract()), CheckKey(entries, i))
    {
      var key := entries[i].key;
      if key.Literal? && key.text.Some? {
        for j := 0 to i
          invariant Valid() && Abstract() == old(Abstract())
          invariant forall k :: 0 <= k < j ==> !SameLiteral(entries[k].key, key)
        {
          if SameLiteral(entries[j].key, key) {
            Report(Finding(DuplicateKey, key.text.value, entries[i].at, true));
            return;
          }
        }
      }
    }

    // ----- the walk -----

    method WalkExpr(e: Expr)
      requires Valid()
      modifies this
      ensures Valid() && old(shadow) <= shadow && Abstract() == LintExpr(rules, e, old(Abstract()))
      decreases e, 0
    {
      hide LintExprs, LintStmts, LintEntries, CheckVariable, CheckFuncall, Distinct, Elements, Errors;
      match e
      case Literal(_) =>
      case Variable(name, at) => LintVariable(name, at);
      case Funcall(name, args, lambda, at) =>
        LintFuncall(name, at);
        WalkExprs(args);
        WalkExpr(lambda);
      case Compound(parts) => WalkExprs(parts);
      case Lambda(body, exprBody) =>
        WalkStmts(body);
        WalkExprs(exprBody);
      case HashLiteral(entries) => WalkEntries(entries);
    }

    method WalkExprs(es: seq<Expr>)
      requires Valid()
      modifies this
      ensures Valid() && old(shadow) <= shadow && Abstract() == LintExprs(rules, es, old(Abstract()))
      decreases es, 1
    {
      hide LintExpr, Distinct, Elements, Errors;
      for i := 0 to |es|
        invariant Valid() && old(shadow) <= shadow && Abstract() == LintExprs(rules, es[..i], old(Abstract()))
      {
        assert es[..i + 1][..i] == es[..i];
        WalkExpr(es[i]);
      }
      assert es[..|es|] == es;
    }

    method WalkEntries(entries: seq<Entry>)
      requires Valid()
      modifies this
      ensures Valid() && old(shadow) <= shadow
      ensures Abstract() == LintEntries(rules, entries, |entries|, old(Abstract()))
      decreases entries, 1
    {
      hide LintExpr, CheckKey, Distinct, Elements, Errors;
      for i := 0 to |entries|
        invariant Valid() && old(shadow) <= shadow && Abstract() == LintEntries(rules, entries, i, old(Abstract()))
      {
        LintKey(entries, i);
        WalkEntry(entries[i]);
      }
    }

    method WalkEntry(entry: Entry)
      requires Valid()
      modifies this
      ensures Valid() && old(shadow) <= shadow && Abstract() == LintEntry(rules, entry, old(Abstract()))
      decreases entry, 0
    {
      WalkExpr(entry.key);
      WalkExpr(entry.value);
    }

    /** A definition: push the parameters, walk, and cut back, which restores the stack exactly. */
    method WalkScope(s: Stmt)
      requires Valid() && (s.ClassDef? || s.Scoped?)
      modifies this
      ensures Valid() && shadow == old(shadow) && Abstract() == LintScope(rules, s, old(Abstract()))
      decreases s, 0
    {
      hide LintExprs, LintStmts, LintExpr, LintStmt, Distinct, Elements, Errors;
      var mark := |shadow|;
      var params := s.params;
      for i := 0 to |params|
        invariant Valid() && old(shadow) <= shadow && Abstract() == AddParams(params[..i], old(Abstract()))
      {
        assert params[..i + 1][..i] == params[..i];
        ShadowAdd(params[i].name);
      }
      assert params[..|params|] == params;
      WalkDefaults(params);
      WalkStmts(s.body);
      ShadowTruncate(mark);
    }

    method WalkDefaults(params: seq<Param>)
      requires Valid()
      modifies this
      ensures Valid() && old(shadow) <= shadow && Abstract() == LintDefaults(rules, params, old(Abstract()))
      decreases params, 1
    {
      hide LintExprs, Distinct, Elements, Errors;
      for i := 0 to |params|
        invariant Valid() && old(shadow) <= shadow && Abstract() == LintDefaults(rules, params[..i], old(Abstract()))
      {
        assert params[..i + 1][..i] == params[..i];
        WalkExprs(params[i].default);
      }
      assert params[..|params|] == params;
    }

    method WalkStmt(s: Stmt)
      requires Valid()
      modifies this
      ensures Valid() && old(shadow) <= shadow && Abstract() == LintStmt(rules, s, old(Abstract()))
      ensures s.ClassDef? || s.Scoped? ==> shadow == old(shadow)
      decreases s, 1
    {
      hide LintExprs, LintStmts, LintBranches, LintScope, Distinct, Elements, Errors;
      match s
      case Import(at) =>
        if !rules.factsOnly {
          Report(Finding(ImportRemoved, "", at, true));
        }
      case ClassDef(inherits, _, _, at) =>
        if !rules.factsOnly && inherits != "" {
          Report(Finding(Inherits, inherits, at, false));
        }
        WalkScope(s);
      case Scoped(_, _) => WalkScope(s);
      case Values(parts) => WalkExprs(parts);
      case Conditional(head, branches, elseBody) =>
        WalkExprs(head);
        WalkBranches(branches);
        WalkStmts(elseBody);
      case Assignment(_, value) => WalkExprs(value);
      case Other =>
    }

    method WalkBranches(branches: seq<Branch>)
      requires Valid()
      modifies this
      ensures Valid() && old(shadow) <= shadow && Abstract() == LintBranches(rules, branches, old(Abstract()))
      decreases branches, 1
    {
      hide LintExprs, LintStmts, Distinct, Elements, Errors;
      for i := 0 to |branches|
        invariant Valid() && old(shadow) <= shadow && Abstract() == LintBranches(rules, branches[..i], old(Abstract()))
      {
        assert branches[..i + 1][..i] == branches[..i];
        WalkExprs(branches[i].condition);
        WalkStmts(branches[i].body);
      }
      assert branches[..|branches|] == branches;
    }

    /** A list of statements: what it pushes stays above what was there. */
    method WalkStmts(list: seq<Stmt>)
      requires Valid()
      modifies this
      ensures Valid() && old(shadow) <= shadow && Abstract() == LintStmts(rules, list, old(Abstract()))
      decreases list, 1
    {
      hide LintStmt, Distinct, Elements, Errors;
      for i := 0 to |list|
        invariant Valid() && old(shadow) <= shadow && Abstract() == LintStmts(rules, list[..i], old(Abstract()))
      {
        assert list[..i + 1][..i] == list[..i];
        WalkStmt(list[i]);
        if list[i].Assignment? {
          ShadowAdd(list[i].variable);
        }
      }
      assert list[..|list|] == list;
    }

    /** A whole program, with a clear stack before and after. */
    method LintProgram(program: seq<Stmt>)
      requires Valid()
      modifies this
      ensures Valid() && shadow == []
      ensures findings == LintStmts(rules, program, State({}, old(findings))).findings
      ensures findings == Scanned(rules, StmtsEvents(program), Scan([{}], old(findings))).findings
      ensures errors == |At(findings, true)| && warnings == |At(findings, false)|
    {
      hide LintStmts, Scanned, StmtsEvents, Distinct, Errors, At;
      ShadowTruncate(0);
      assert Elements(shadow) == {};
      LintIsScan(rules, program, findings);
      WalkStmts(program);
      ShadowTruncate(0);
      ErrorsCount(findings);
    }
  }

  // ----- what the lint of a program promises -----

  /** The facts-only lint of module files finds what the plain lint finds, less what it must not report. */
  lemma FactsOnlyIsPlainFiltered(rules: Rules, program: seq<Stmt>)
    ensures LintStmts(rules, program, State({}, [])).findings ==
            Projected(rules, LintStmts(Plain(rules), program, State({}, [])).findings)
  {
    StmtsProject(rules, program, State({}, []));
  }

  lemma {:induction false} StmtsAppend(rules: Rules, a: seq<Stmt>, b: seq<Stmt>, st: State)
    ensures LintStmts(rules, a + b, st) == LintStmts(rules, b, LintStmts(rules, a, st))
    decreases |b|
  {
    hide LintStmt;
    if b == [] {
      assert a + b == a;
    } else {
      var init, last := b[..|b| - 1], b[|b| - 1];
      assert (a + b)[..|a + b| - 1] == a + init;
      StmtsAppend(rules, a, init, st);
    }
  }

  /** What follows statements that assign a name outside of definitions has no finding about a fact of that name. */
  lemma AssignmentShadowsTheRest(rules: Rules, before: seq<Stmt>, rest: seq<Stmt>, name: string)
    requires name in AssignedStmts(before)
    ensures var first, all := LintStmts(rules, before, State({}, [])), LintStmts(rules, before + rest, State({}, []));
            && first.findings <= all.findings
            && forall i :: |first.findings| <= i < |all.findings| && AboutFact(all.findings[i]) ==>
                 all.findings[i].name != name
  {
    var st := LintStmts(rules, before, State({}, []));
    StmtsExtend(rules, before, State({}, []));
    StmtsExtend(rules, rest, st);
    StmtsAppend(rules, before, rest, State({}, []));
  }

  // ----- reads at any depth of definitions -----

  /** A place in a program: after some statements, or inside a definition that itself stands at such a place. */
  datatype Place =
    | Top(before: seq<Stmt>)
    | Inside(outer: Place, definition: Stmt, before: seq<Stmt>)

  predicate Proper(p: Place) {
    match p
    case Top(_) => true
    case Inside(outer, definition, _) => Proper(outer) && (definition.ClassDef? || definition.Scoped?)
  }

  function WithBody(definition: Stmt, body: seq<Stmt>): Stmt
    requires definition.ClassDef? || definition.Scoped?
  {
    definition.(body := body)
  }

  /** The program up to the place, going on there with these statements. */
  function Program(p: Place, here: seq<Stmt>): seq<Stmt>
    requires Proper(p)
  {
    match p
    case Top(before) => before + here
    case Inside(outer, definition, before) => Program(outer, [WithBody(definition, before + here)])
  }

  /** The names that shadow facts at the place: what is assigned before it and, in its definitions, their parameters. */
  function NamesAt(p: Place): set<string>
    requires Proper(p)
  {
    match p
    case Top(before) => AssignedStmts(before)
    case Inside(outer, definition, before) =>
      NamesAt(outer) + ParamNames(definition.params) + AssignedDefaults(definition.params) + AssignedStmts(before)
  }

  function Warned(rules: Rules, s: Stmt, st: State): State {
    if s.ClassDef? && !rules.factsOnly && s.inherits != "" then st.Report(Finding(Inherits, s.inherits, s.at, false)) else st
  }

  /** What the walk knows when it reaches the place. */
  function StateAt(rules: Rules, p: Place): State
    requires Proper(p)
  {
    match p
    case Top(before) => LintStmts(rules, before, State({}, []))
    case Inside(outer, definition, before) =>
      var inside := AddParams(definition.params, Warned(rules, definition, StateAt(rules, outer)));
      LintStmts(rules, before, LintDefaults(rules, definition.params, inside))
  }

  lemma {:induction false} StateAtNames(rules: Rules, p: Place)
    requires Proper(p)
    ensures StateAt(rules, p).names == NamesAt(p)
  {
    hide LintStmts, LintDefaults, AddParams, AssignedStmts, AssignedDefaults, ParamNames;
    match p
    case Top(before) => StmtsExtend(rules, before, State({}, []));
    case Inside(outer, definition, before) =>
      StateAtNames(rules, outer);
      var warned := Warned(rules, definition, StateAt(rules, outer));
      AddParamsFindings(definition.params, warned);
      var inside := AddParams(definition.params, warned);
      DefaultsExtend(rules, definition.params, inside);
      StmtsExtend(rules, before, LintDefaults(rules, definition.params, inside));
  }

  lemma SingleStmt(rules: Rules, s: Stmt, st: State)
    requires !s.Assignment?
    ensures LintStmts(rules, [s], st) == LintStmt(rules, s, st)
  {
    assert [s][..0] == [];
    assert LintStmts(rules, [s], st) == LintStmt(rules, s, LintStmts(rules, [], st));
  }

  /** The findings of the program are those of the walk that goes on at the place. */
  lemma {:induction false} FindingsFromPlace(rules: Rules, p: Place, here: seq<Stmt>)
    requires Proper(p)
    ensures LintStmts(rules, Program(p, here), State({}, [])).findings == LintStmts(rules, here, StateAt(rules, p)).findings
  {
    hide LintStmts, LintDefaults, AddParams;
    match p
    case Top(before) => StmtsAppend(rules, before, here, State({}, []));
    case Inside(outer, definition, before) =>
      var s, st := WithBody(definition, before + here), StateAt(rules, outer);
      FindingsFromPlace(rules, outer, [s]);
      SingleStmt(rules, s, st);
      var inside := AddParams(definition.params, Warned(rules, definition, st));
      StmtsAppend(rules, before, here, LintDefaults(rules, definition.params, inside));
      assert s.params == definition.params && s.body == before + here;
  }

  /**
   * A read of a legacy fact, bare or with a leading `::`, at any depth of definitions, is reported exactly when nothing
   * before it in its own scope or in one around it shadows the name.
   */
  lemma ReadIsReportedExactly(rules: Rules, p: Place, name: string, explicit: bool, at: nat)
    requires Proper(p) && name in rules.legacy && name != "" && ':' !in name && !BuiltIn(name)
    ensures var read := Values([Variable(if explicit then "::" + name else name, at)]);
            LintStmts(rules, Program(p, [read]), State({}, [])).findings ==
            LintStmts(rules, Program(p, []), State({}, [])).findings
            + if name in NamesAt(p) then [] else [Finding(LegacyFact, name, at, rules.strict)]
  {
    hide LintStmts, NamesAt, StateAt, Program;
    var st := StateAt(rules, p);
    var e := Variable(if explicit then "::" + name else name, at);
    FindingsFromPlace(rules, p, [Values([e])]);
    FindingsFromPlace(rules, p, []);
    NoStatements(rules, st);
    StateAtNames(rules, p);
    SingleRead(rules, e, st);
    assert name[0] in name;
    if explicit {
      assert ("::" + name)[2..] == name;
    } else {
      NotExplicit(name);
    }
  }

  lemma NoStatements(rules: Rules, st: State)
    ensures LintStmts(rules, [], st) == st
  {
  }

  lemma NotExplicit(name: string)
    requires name != "" && name[0] != ':'
    ensures !("::" <= name)
  {
    assert "::"[0] == ':';
  }

  lemma SingleRead(rules: Rules, e: Expr, st: State)
    requires e.Variable?
    ensures LintStmts(rules, [Values([e])], st) == Reported(st, CheckVariable(rules, e.name, e.at, st.names))
  {
    SingleStmt(rules, Values([e]), st);
    assert [e][..0] == [];
    assert LintExprs(rules, [e], st) == LintExpr(rules, e, LintExprs(rules, [], st));
  }

  // ----- calls -----

  /**
   * Wherever a call stands in a program it adds one error when the function was removed, one warning when it is only
   * deprecated, and nothing otherwise or in a facts-only lint; the rest is reported and counted as without it.
   */
  lemma CallIsReportedExactly(rules: Rules, program: seq<Stmt>, before: seq<Event>, name: string, at: nat, after: seq<Event>)
    returns (earlier: seq<Finding>, later: seq<Finding>)
    requires StmtsEvents(program) == before + [Call(name, at)] + after
    ensures var findings := LintStmts(rules, program, State({}, [])).findings;
            var removed, warned := !rules.factsOnly && name in rules.removed,
                                   !rules.factsOnly && name !in rules.removed && name in rules.deprecated;
            && findings == earlier + (if removed then [Finding(RemovedFunction, name, at, true)]
                                      else if warned then [Finding(DeprecatedFunction, name, at, false)] else []) + later
            && earlier + later == Scanned(rules, before + after, Scan([{}], [])).findings
            && |At(findings, true)| == |At(earlier + later, true)| + (if removed then 1 else 0)
            && |At(findings, false)| == |At(earlier + later, false)| + (if warned then 1 else 0)
  {
    hide LintStmts, Scanned, StmtsEvents, Shadows, Errors, At;
    var findings := LintStmts(rules, program, State({}, [])).findings;
    var shadowed;
    earlier, shadowed, later := EveryEventIsReported(rules, program, before, Call(name, at), after);
    var said := Said(rules, Call(name, at), shadowed);
    ErrorsCount(findings);
    ErrorsCount(earlier + later);
    ErrorsAdd(earlier + said, later);
    ErrorsAdd(earlier, said);
    ErrorsAdd(earlier, later);
    ErrorsOfOne(said);
  }

  lemma ErrorsOfOne(said: seq<Finding>)
    requires |said| <= 1
    ensures Errors(said) == if said != [] && said[0].error then 1 else 0
  {
  }
}
