/** The dead-code tracker: the inventory of declared items, the marks made while compiling, and the report. */
module DeadCode {
  import opened Common
  import opened DeadCodeNames

  /** A declared item and the file that declares it. */
  datatype Declared = Declared(name: string, file: string)

  // ----- the inventory is sorted once, keeping each name with its file -----

  /** Earlier in the sorted order: by name, and by the place of declaration among equal names. */
  ghost predicate Earlier(found: seq<Declared>, x: nat, y: nat)
    requires x < |found| && y < |found|
  {
    var c := Strcmp(found[x].name, found[y].name);
    c < 0 || (c == 0 && x < y)
  }

  ghost predicate Permutation(perm: seq<nat>, n: nat) {
    |perm| == n && Distinct(perm) && AllBelow(perm, n)
  }

  ghost predicate InOrder(perm: seq<nat>, found: seq<Declared>)
    requires AllBelow(perm, |found|)
  {
    forall i, j :: 0 <= i < j < |perm| ==> Earlier(found, perm[i], perm[j])
  }

  lemma EarlierTransitive(found: seq<Declared>, x: nat, y: nat, z: nat)
    requires x < |found| && y < |found| && z < |found| && Earlier(found, x, y) && Earlier(found, y, z)
    ensures Earlier(found, x, z)
  {
    StrcmpEqual(found[x].name, found[y].name);
    StrcmpEqual(found[y].name, found[z].name);
    if Strcmp(found[x].name, found[y].name) < 0 && Strcmp(found[y].name, found[z].name) < 0 {
      StrcmpTransitive(found[x].name, found[y].name, found[z].name);
    }
  }

  /** The stable order leaves no choice. */
  lemma StableOrderIsUnique(a: seq<nat>, b: seq<nat>, found: seq<Declared>)
    requires Permutation(a, |found|) && Permutation(b, |found|)
    requires InOrder(a, found) && InOrder(b, found)
    ensures a == b
  {
    var less := (x: nat, y: nat) => x < |found| && y < |found| && Earlier(found, x, y);
    forall x: nat, y: nat | less(x, y)
      ensures !less(y, x)
    {
      StrcmpEqual(found[x].name, found[y].name);
    }
    DistinctBelow(a, |found|);
    DistinctBelow(b, |found|);
    OrderedIsUnique(less, a, b);
  }

  /** While item i is being inserted and stands at j: the rest is in order, and all from j to i come after item i. */
  ghost predicate Inserting(idx: seq<nat>, found: seq<Declared>, i: nat, j: nat)
    requires Permutation(idx, |found|)
  {
    && j <= i < |idx| && idx[j] == i
    && (forall p :: 0 <= p <= i && p != j ==> idx[p] < i)
    && (forall p :: i < p < |idx| ==> idx[p] == p)
    && (forall p, q :: 0 <= p < q <= i && p != j && q != j ==> Earlier(found, idx[p], idx[q]))
    && (forall q :: j < q <= i ==> Earlier(found, i, idx[q]))
  }

  lemma SwapKeepsInserting(idx: seq<nat>, found: seq<Declared>, i: nat, j: nat)
    requires Permutation(idx, |found|) && Inserting(idx, found, i, j) && j > 0
    requires Strcmp(found[idx[j - 1]].name, found[idx[j]].name) > 0
    ensures var r := idx[j - 1 := idx[j]][j := idx[j - 1]]; Permutation(r, |found|) && Inserting(r, found, i, j - 1)
  {
    hide Strcmp;
    StrcmpEqual(found[idx[j - 1]].name, found[idx[j]].name);
    assert Earlier(found, i, idx[j - 1]);
  }

  lemma InsertedInOrder(idx: seq<nat>, found: seq<Declared>, i: nat, j: nat)
    requires Permutation(idx, |found|) && Inserting(idx, found, i, j)
    requires j > 0 ==> Strcmp(found[idx[j - 1]].name, found[idx[j]].name) <= 0
    ensures forall p, q :: 0 <= p < q <= i ==> Earlier(found, idx[p], idx[q])
  {
    hide Strcmp;
    forall p | 0 <= p < j
      ensures Earlier(found, idx[p], i)
    {
      assert Earlier(found, idx[j - 1], i);
      if p < j - 1 {
        assert Earlier(found, idx[p], idx[j - 1]);
        EarlierTransitive(found, idx[p], idx[j - 1], i);
      }
    }
  }

  /** An insertion sort of the positions. */
  method SortPositions(found: seq<Declared>) returns (idx: array<nat>)
    ensures fresh(idx) && Permutation(idx[..], |found|) && InOrder(idx[..], found)
  {
    hide Strcmp, Earlier;
    var n := |found|;
    idx := new nat[n](i => i);
    var i := if n == 0 then 0 else 1;
    while i < n
      invariant 0 <= i <= n && (n > 0 ==> i >= 1) && Permutation(idx[..], n)
      invariant forall p :: 0 <= p < i ==> idx[p] < i
      invariant forall p :: i <= p < n ==> idx[p] == p
      invariant forall p, q :: 0 <= p < q < i ==> Earlier(found, idx[..][p], idx[..][q])
    {
      var j := i;
      while j > 0 && Strcmp(found[idx[j - 1]].name, found[idx[j]].name) > 0
        invariant 0 <= j <= i && Permutation(idx[..], n) && Inserting(idx[..], found, i, j)
      {
        SwapKeepsInserting(idx[..], found, i, j);
        ghost var swapped := idx[..][j - 1 := idx[j]][j := idx[j - 1]];
        idx[j - 1], idx[j] := idx[j], idx[j - 1];
        assert idx[..] == swapped;
        j := j - 1;
      }
      InsertedInOrder(idx[..], found, i, j);
      i := i + 1;
    }
  }

  lemma OrderedNames(perm: seq<nat>, found: seq<Declared>, i: nat, j: nat)
    requires AllBelow(perm, |found|) && InOrder(perm, found) && i < j < |perm|
    ensures Strcmp(found[perm[i]].name, found[perm[j]].name) <= 0
  {
    assert Earlier(found, perm[i], perm[j]);
  }

  /** Names and files are rearranged together, into the one stable order by name. */
  method SortDeclared(found: seq<Declared>) returns (sorted: seq<Declared>, ghost perm: seq<nat>)
    ensures Permutation(perm, |found|) && InOrder(perm, found)
    ensures |sorted| == |found| && forall i :: 0 <= i < |found| ==> sorted[i] == found[perm[i]]
    ensures forall i, j :: 0 <= i < j < |sorted| ==> Strcmp(sorted[i].name, sorted[j].name) <= 0
  {
    hide InOrder, Distinct, Strcmp;
    var n := |found|;
    var idx := SortPositions(found);
    perm := idx[..];
    var names, files := new string[n](_ => ""), new string[n](_ => "");
    for k := 0 to n
      invariant idx[..] == perm
      invariant forall p :: 0 <= p < k ==> names[p] == found[perm[p]].name && files[p] == found[perm[p]].file
    {
      assert perm[k] == idx[k];
      names[k], files[k] := found[idx[k]].name, found[idx[k]].file;
    }
    sorted := seq(n, k requires 0 <= k < n reads names, files => Declared(names[k], files[k]));
    forall i, j | 0 <= i < j < n
      ensures Strcmp(sorted[i].name, sorted[j].name) <= 0
    {
      OrderedNames(perm, found, i, j);
    }
  }

  // ----- marks -----

  datatype Kind = Class | Define | Function | Template | Type

  datatype Mark = Mark(kind: Kind, name: string)

  /** A leading "::" is dropped. */
  function Strip(name: string): string {
    if "::" <= name then name[2..] else name
  }

  function MarkedName(m: Mark): string {
    if m.kind == Template then m.name else Strip(m.name)
  }

  /** Ruby types are marked among the defines. */
  function SetFor(kind: Kind): Kind {
    if kind == Type then Define else kind
  }

  /** The names a list of marks puts in the set of a kind. */
  ghost function Used(marks: seq<Mark>, kind: Kind): set<string> {
    set m | m in marks && SetFor(m.kind) == kind :: MarkedName(m)
  }

  lemma UsedGrows(marks: seq<Mark>, m: Mark, kind: Kind)
    ensures Used(marks + [m], kind) == Used(marks, kind) + if SetFor(m.kind) == kind then {MarkedName(m)} else {}
  {
    var more := marks + [m];
    assert more[|marks|] == m;
    forall x | x in Used(marks, kind)
      ensures x in Used(more, kind)
    {
      var y :| y in marks && SetFor(y.kind) == kind && MarkedName(y) == x;
      assert y in more;
    }
  }

  lemma NothingUsed()
    ensures forall kind :: Used([], kind) == {}
    ensures Elements<string>([]) == {}
  {
  }

  // ----- the report -----

  datatype Section = Section(declared: nat, unused: nat, lines: seq<Declared>)

  /** The declared items that are not used, in their order. */
  function Unused(declared: seq<Declared>, used: set<string>): seq<Declared> {
    if declared == [] then []
    else
      var last := declared[|declared| - 1];
      Unused(declared[..|declared| - 1], used) + if last.name in used then [] else [last]
  }

  lemma {:induction false} UnusedExactly(declared: seq<Declared>, used: set<string>, d: Declared)
    ensures d in Unused(declared, used) <==> d in declared && d.name !in used
  {
    if declared != [] {
      UnusedExactly(declared[..|declared| - 1], used, d);
      assert declared == declared[..|declared| - 1] + [declared[|declared| - 1]];
    }
  }

  method ReportSection(declared: seq<Declared>, used: NameSet) returns (r: Section)
    requires used.Valid()
    ensures var lines := Unused(declared, Elements(used.Names())); r == Section(|declared|, |lines|, lines)
  {
    hide Strcmp, Increasing;
    ghost var names := Elements(used.Names());
    var dead := 0;
    for i := 0 to |declared|
      invariant dead == |Unused(declared[..i], names)|
    {
      assert declared[..i + 1][..i] == declared[..i];
      var found := used.Contains(declared[i].name);
      if !found {
        dead := dead + 1;
      }
    }
    var lines := [];
    for i := 0 to |declared|
      invariant lines == Unused(declared[..i], names)
    {
      assert declared[..i + 1][..i] == declared[..i];
      var found := used.Contains(declared[i].name);
      if !found {
        lines := lines + [declared[i]];
      }
    }
    assert declared[..|declared|] == declared;
    return Section(|declared|, dead, lines);
  }

  /** The sections of the report, each with the used set it is checked against. */
  datatype Inventory = Inventory(classes: seq<Declared>, defines: seq<Declared>, rubyTypes: seq<Declared>,
                                 functions: seq<Declared>, rubyFunctions: seq<Declared>, templates: seq<Declared>)

  ghost function SectionOf(declared: seq<Declared>, used: set<string>): Section {
    Section(|declared|, |Unused(declared, used)|, Unused(declared, used))
  }

  /** The report is a function of the inventory and of which marks were made. */
  ghost function ReportOf(inventory: Inventory, marks: seq<Mark>): seq<Section> {
    [SectionOf(inventory.classes, Used(marks, Class)),
     SectionOf(inventory.defines, Used(marks, Define)),
     SectionOf(inventory.rubyTypes, Used(marks, Define)),
     SectionOf(inventory.functions, Used(marks, Function)),
     SectionOf(inventory.rubyFunctions, Used(marks, Function)),
     SectionOf(inventory.templates, Used(marks, Template))]
  }

  class Tracker {
    const inventory: Inventory
    const classes: NameSet
    const defines: NameSet
    const functions: NameSet
    const templates: NameSet
    /** All marks made so far, by any thread, in the order in which they got the lock. */
    ghost var marks: seq<Mark>

    ghost function Objects(): set<object>
      reads this, classes, defines, functions, templates
    {
      {this, classes, defines, functions, templates,
       classes.items, defines.items, functions.items, templates.items}
    }

    ghost predicate Apart()
      reads this, classes, defines, functions, templates
    {
      && classes != defines && classes != functions && classes != templates
      && defines != functions && defines != templates && functions != templates
      && classes.items != defines.items && classes.items != functions.items && classes.items != templates.items
      && defines.items != functions.items && defines.items != templates.items && functions.items != templates.items
    }

    ghost predicate Valid()
      reads this, Objects()
    {
      && Apart()
      && classes.Valid() && defines.Valid() && functions.Valid() && templates.Valid()
      && Elements(classes.Names()) == Used(marks, Class)
      && Elements(defines.Names()) == Used(marks, Define)
      && Elements(functions.Names()) == Used(marks, Function)
      && Elements(templates.Names()) == Used(marks, Template)
    }

    constructor (inventory: Inventory)
      ensures Valid() && fresh(Objects()) && marks == [] && this.inventory == inventory
    {
      hide Used, Elements, NameSet.Valid, NameSet.Names;
      this.inventory := inventory;
      classes := new NameSet();
      defines := new NameSet();
      functions := new NameSet();
      templates := new NameSet();
      marks := [];
      new;
      NothingUsed();
    }

    /** Mark an item used, in the set of its kind. */
    method MarkUsed(m: Mark)
      requires Valid()
      modifies Objects()
      ensures Valid() && marks == old(marks) + [m] && fresh(Objects() - old(Objects()))
    {
      hide Used, Elements, Strip, Strcmp, Increasing;
      UsedGrows(marks, m, Class);
      UsedGrows(marks, m, Define);
      UsedGrows(marks, m, Function);
      UsedGrows(marks, m, Template);
      var name := MarkedName(m);
      match m.kind {
        case Class => classes.AddUsed(name);
        case Define => defines.AddUsed(name);
        case Type => defines.AddUsed(name);
        case Function => functions.AddUsed(name);
        case Template => templates.AddUsed(name);
      }
      marks := marks + [m];
    }

    method Report() returns (r: seq<Section>)
      requires Valid()
      ensures r == ReportOf(inventory, marks)
    {
      hide Used, Elements, Unused;
      var c := ReportSection(inventory.classes, classes);
      var d := ReportSection(inventory.defines, defines);
      var t := ReportSection(inventory.rubyTypes, defines);
      var f := ReportSection(inventory.functions, functions);
      var rf := ReportSection(inventory.rubyFunctions, functions);
      var e := ReportSection(inventory.templates, templates);
      return [c, d, t, f, rf, e];
    }
  }

  /** However the threads' marks interleave, the arrays come out the same. */
  lemma OrderOfMarksIsIrrelevant(a: Tracker, b: Tracker)
    requires a.Valid() && b.Valid() && multiset(a.marks) == multiset(b.marks)
    ensures a.classes.Names() == b.classes.Names() && a.defines.Names() == b.defines.Names()
    ensures a.functions.Names() == b.functions.Names() && a.templates.Names() == b.templates.Names()
  {
    hide Strcmp, Increasing;
    SameMarksSameUsed(a.marks, b.marks);
    IncreasingIsUnique(a.classes.Names(), b.classes.Names());
    IncreasingIsUnique(a.defines.Names(), b.defines.Names());
    IncreasingIsUnique(a.functions.Names(), b.functions.Names());
    IncreasingIsUnique(a.templates.Names(), b.templates.Names());
  }

  lemma SameMarksSameUsed(a: seq<Mark>, b: seq<Mark>)
    requires multiset(a) == multiset(b)
    ensures forall kind :: Used(a, kind) == Used(b, kind)
    ensures forall inventory :: ReportOf(inventory, a) == ReportOf(inventory, b)
  {
    forall m
      ensures m in a <==> m in b
    {
      assert m in a <==> m in multiset(a);
      assert m in b <==> m in multiset(b);
    }
    forall kind
      ensures Used(a, kind) == Used(b, kind)
    {
    }
  }

  /** An item is reported exactly when it is declared and no mark of a matching kind names it. */
  lemma ReportedExactly(declared: seq<Declared>, marks: seq<Mark>, kind: Kind, d: Declared)
    ensures d in SectionOf(declared, Used(marks, kind)).lines <==>
            d in declared && forall m :: m in marks && SetFor(m.kind) == kind ==> MarkedName(m) != d.name
  {
    UnusedExactly(declared, Used(marks, kind), d);
  }

  /** A mark of one of these kinds names the item, with or without a leading "::". */
  ghost predicate Marked(marks: seq<Mark>, kinds: set<Kind>, name: string) {
    exists m :: m in marks && m.kind in kinds && (m.name == "::" + name || (m.name == name && !StartsAtTop(name)))
  }

  predicate StartsAtTop(name: string) {
    |name| >= 2 && name[0] == ':' && name[1] == ':'
  }

  lemma StripIs(name: string, item: string)
    ensures Strip(name) == item <==> name == "::" + item || (name == item && !StartsAtTop(item))
  {
    assert ("::" + item)[2..] == item;
    if "::" <= name {
      assert name == "::" + name[2..];
    }
  }

  lemma NamedOrMarked(marks: seq<Mark>, kind: Kind, kinds: set<Kind>, name: string)
    requires kind != Template && kind != Type && kinds == if kind == Define then {Define, Type} else {kind}
    ensures (forall m :: m in marks && SetFor(m.kind) == kind ==> MarkedName(m) != name) <==> !Marked(marks, kinds, name)
  {
    hide Strip;
    forall m | m in marks
      ensures SetFor(m.kind) == kind <==> m.kind in kinds
      ensures m.kind in kinds ==> (MarkedName(m) == name <==> m.name == "::" + name || (m.name == name && !StartsAtTop(name)))
    {
      StripIs(m.name, name);
    }
  }

  /**
   * The six sections: what is declared and not marked by its kind, types among the defines and defines among the types;
   * a leading "::" of a mark does not matter, except that templates go by their exact names.
   */
  lemma DeadExactly(inventory: Inventory, marks: seq<Mark>, d: Declared)
    ensures var r := ReportOf(inventory, marks);
            && |r| == 6
            && (d in r[0].lines <==> d in inventory.classes && !Marked(marks, {Class}, d.name))
            && (d in r[1].lines <==> d in inventory.defines && !Marked(marks, {Define, Type}, d.name))
            && (d in r[2].lines <==> d in inventory.rubyTypes && !Marked(marks, {Define, Type}, d.name))
            && (d in r[3].lines <==> d in inventory.functions && !Marked(marks, {Function}, d.name))
            && (d in r[4].lines <==> d in inventory.rubyFunctions && !Marked(marks, {Function}, d.name))
            && (d in r[5].lines <==> d in inventory.templates && Mark(Template, d.name) !in marks)
  {
    hide Unused, Used, Marked;
    NamedOrMarked(marks, Class, {Class}, d.name);
    NamedOrMarked(marks, Define, {Define, Type}, d.name);
    NamedOrMarked(marks, Function, {Function}, d.name);
    ReportedExactly(inventory.classes, marks, Class, d);
    ReportedExactly(inventory.defines, marks, Define, d);
    ReportedExactly(inventory.rubyTypes, marks, Define, d);
    ReportedExactly(inventory.functions, marks, Function, d);
    ReportedExactly(inventory.rubyFunctions, marks, Function, d);
    ReportedExactly(inventory.templates, marks, Template, d);
    assert forall m :: m in marks && SetFor(m.kind) == Template ==> m == Mark(Template, MarkedName(m));
    assert Mark(Template, d.name) in marks ==> MarkedName(Mark(Template, d.name)) == d.name;
  }

  /** A section counts its items, and lists each dead one where it stands among the others. */
  lemma {:induction false} DeadInOrder(before: seq<Declared>, d: Declared, after: seq<Declared>, used: set<string>)
    ensures var r := SectionOf(before + [d] + after, used);
            && r.declared == |before| + 1 + |after| && r.unused == |r.lines|
            && r.lines == SectionOf(before, used).lines + (if d.name in used then [] else [d]) + SectionOf(after, used).lines
    decreases |after|
  {
    var all := before + [d] + after;
    if after == [] {
      assert all[..|all| - 1] == before && all[|all| - 1] == d;
    } else {
      var init := after[..|after| - 1];
      assert all[..|all| - 1] == before + [d] + init;
      DeadInOrder(before, d, init, used);
    }
  }
}
