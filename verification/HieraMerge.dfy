/** Hiera's four merge strategies: one merge step, and the fold over the values a hierarchy holds for a key. */
module HieraMerge {
  import opened Common
  import opened PuppetValue
  import opened PuppetCopy
  import opened PuppetMerge
  import opened PuppetMergeLaws

  datatype Strategy = First | Unique | TopLevel | Deep

  // ----- one step -----

  predicate IsScalar(v: Value) {
    v.Str? || v.Number? || v.Boolean?
  }

  /** Only strings, numbers and booleans are ever found to be present already. */
  method ArrayContainsValue(items: seq<Value>, v: Value) returns (found: bool)
    ensures found <==> IsScalar(v) && v in items
  {
    for i := 0 to |items|
      invariant !(IsScalar(v) && v in items[..i])
    {
      var item := items[i];
      if item.Str? && v.Str? {
        if item.s == v.s {
          return true;
        }
      } else if item.Number? && v.Number? {
        if item.n == v.n {
          return true;
        }
      } else if item.Boolean? && v.Boolean? {
        if item.b == v.b {
          return true;
        }
      }
    }
    return false;
  }

  predicate Present(items: seq<Value>, v: Value) {
    IsScalar(v) && v in items
  }

  /** Append copies of the items not already present, each tested against all appended before it. */
  function AppendUnique(items: seq<Value>, more: seq<Value>): seq<Value>
    decreases |more|
  {
    if more == [] then items
    else AppendUnique(if Present(items, more[0]) then items else items + [Copy(more[0])], more[1..])
  }

  /** Set copies of the entries whose key the table lacks. */
  function AddMissing(t: Table, c: Chain): (r: Table)
    requires Sized(t)
    ensures Sized(r)
    decreases c
  {
    match c
    case Nil => t
    case Node(key, v, next) => AddMissing(if Get(t, key).Some? then t else Set(t, key, Copy(v)), next)
  }

  function AddAllMissing(t: Table, bs: seq<Chain>): (r: Table)
    requires Sized(t)
    ensures Sized(r)
    decreases |bs|
  {
    if bs == [] then t else AddAllMissing(AddMissing(t, bs[0]), bs[1..])
  }

  /** Every table in sight has its full number of buckets. */
  predicate SizedHash(v: Value) {
    v.Hash? ==> Sized(v.table)
  }

  function Merged(existing: Value, v: Value, strategy: Strategy): Value
    requires SizedHash(existing)
  {
    match strategy
    case First => existing
    case Unique => if existing.Array? && v.Array? then Array(AppendUnique(existing.items, v.items)) else existing
    case TopLevel =>
      if existing.Hash? && v.Hash? then Hash(AddAllMissing(existing.table, v.table.buckets)) else existing
    case Deep => if existing.Hash? && v.Hash? then DeepMerge(existing, v) else existing
  }

  method AppendNew(existing: seq<Value>, more: seq<Value>) returns (items: seq<Value>)
    ensures items == AppendUnique(existing, more)
  {
    items := existing;
    for i := 0 to |more|
      invariant AppendUnique(items, more[i..]) == AppendUnique(existing, more)
    {
      assert more[i..][0] == more[i] && more[i..][1..] == more[i + 1..];
      var present := ArrayContainsValue(items, more[i]);
      if !present {
        var copy := CopyValue(more[i]);
        items := items + [copy];
      }
    }
  }

  method AddEntries(existing: Table, buckets: seq<Chain>) returns (t: Table)
    requires Sized(existing)
    ensures t == AddAllMissing(existing, buckets)
  {
    hide Set, Get;
    t := existing;
    for i := 0 to |buckets|
      invariant Sized(t) && AddAllMissing(t, buckets[i..]) == AddAllMissing(existing, buckets)
    {
      assert buckets[i..][0] == buckets[i] && buckets[i..][1..] == buckets[i + 1..];
      ghost var before := t;
      var entry := buckets[i];
      while entry.Node?
        invariant Sized(t) && AddMissing(t, entry) == AddMissing(before, buckets[i])
        decreases entry
      {
        var present := Get(t, entry.key);
        if present.None? {
          var copy := CopyValue(entry.value);
          t := Set(t, entry.key, copy);
        }
        entry := entry.next;
      }
    }
  }

  /** Merge a newly found value into what was found before it. */
  method MergeValues(existing: Option<Value>, later: Option<Value>, strategy: Strategy) returns (r: Option<Value>)
    requires existing.Some? ==> SizedHash(existing.value)
    ensures r == if later.None? then existing
                 else if existing.None? then Some(Copy(later.value))
                 else Some(Merged(existing.value, later.value, strategy))
  {
    if later.None? {
      return existing;
    }
    var v := later.value;
    if existing.None? {
      var copy := CopyValue(v);
      return Some(copy);
    }
    var e := existing.value;
    r := existing;
    match strategy {
      case First =>
      case Unique =>
        if e.Array? && v.Array? {
          var items := AppendNew(e.items, v.items);
          r := Some(Array(items));
        }
      case TopLevel =>
        if e.Hash? && v.Hash? {
          var t := AddEntries(e.table, v.table.buckets);
          r := Some(Hash(t));
        }
      case Deep =>
        if e.Hash? && v.Hash? {
          var merged := DeepMergeHashes(e, v);
          r := Some(merged);
        }
    }
  }

  // ----- the fold over the values found -----

  lemma MergedIsSized(existing: Value, v: Value, strategy: Strategy)
    requires SizedHash(existing)
    ensures SizedHash(Merged(existing, v, strategy)) && SizedHash(Copy(v))
  {
    if existing.Hash? && v.Hash? && strategy == Deep {
      assert DeepMerge(existing, v) == Hash(MergeChains(CopyTable(existing.table), v.table.buckets));
    }
    if v.Hash? {
      assert Copy(v) == Hash(CopyTable(v.table));
    }
  }

  /** Merge the values a hierarchy holds for a key, highest priority first. */
  function Fold(found: seq<Value>, strategy: Strategy): (r: Option<Value>)
    ensures r.None? <==> found == []
    ensures r.Some? ==> SizedHash(r.value)
  {
    if found == [] then None
    else
      var n := |found| - 1;
      var earlier := Fold(found[..n], strategy);
      if earlier.None? then MergedIsSized(Undef, found[n], strategy); Some(Copy(found[n]))
      else MergedIsSized(earlier.value, found[n], strategy); Some(Merged(earlier.value, found[n], strategy))
  }

  lemma FoldLast(found: seq<Value>, strategy: Strategy)
    requires found != []
    ensures var init, last := found[..|found| - 1], found[|found| - 1];
            Fold(found, strategy) ==
            Some(if init == [] then Copy(last) else Merged(Fold(init, strategy).value, last, strategy))
  {
  }

  ghost predicate AllDeepWellFormed(found: seq<Value>) {
    forall i :: 0 <= i < |found| ==> DeepWellFormed(found[i])
  }

  /** FIRST: the highest-priority value. */
  lemma {:induction false} FirstIsHighest(found: seq<Value>)
    requires found != []
    ensures Fold(found, First) == Some(Copy(found[0]))
  {
    if |found| > 1 {
      FirstIsHighest(found[..|found| - 1]);
    }
  }

  /** A strategy that merges only arrays, or only hashes, is FIRST when the first value is something else. */
  lemma {:induction false} OtherFirstValueStays(found: seq<Value>, strategy: Strategy)
    requires found != []
    requires match strategy case First => true case Unique => !found[0].Array? case _ => !found[0].Hash?
    ensures Fold(found, strategy) == Some(Copy(found[0]))
  {
    if |found| > 1 {
      OtherFirstValueStays(found[..|found| - 1], strategy);
    }
  }

  // ----- UNIQUE -----

  /** The items of all the arrays found, in order. */
  function AllItems(found: seq<Value>): seq<Value> {
    if found == [] then []
    else
      var last := found[|found| - 1];
      AllItems(found[..|found| - 1]) + if last.Array? then last.items else []
  }

  /** From position n on, drop the scalars that occur earlier. */
  function WithoutRepeats(all: seq<Value>, n: nat): seq<Value> {
    if |all| <= n then all
    else
      var last, before := all[|all| - 1], all[..|all| - 1];
      WithoutRepeats(before, n)
      + if (last.Str? || last.Number? || last.Boolean?) && last in before then [] else [last]
  }

  lemma {:induction false} WithoutRepeatsKeeps(all: seq<Value>, n: nat, v: Value)
    ensures v in WithoutRepeats(all, n) <==> v in all
  {
    if |all| > n {
      var last, before := all[|all| - 1], all[..|all| - 1];
      WithoutRepeatsKeeps(before, n, v);
      assert all == before + [last];
    }
  }

  lemma {:induction false} CopyItemsAppend(a: seq<Value>, b: seq<Value>)
    ensures CopyItems(a + b) == CopyItems(a) + CopyItems(b)
  {
  }

  lemma CopiedScalar(item: Value, v: Value)
    requires IsScalar(v)
    ensures Copy(item) == v <==> item == v
  {
  }

  lemma {:induction false} CopiedScalars(items: seq<Value>, v: Value)
    requires IsScalar(v)
    ensures v in CopyItems(items) <==> v in items
  {
    hide IsScalar, Copy;
    forall i | 0 <= i < |items|
      ensures CopyItems(items)[i] == v <==> items[i] == v
    {
      CopiedScalar(items[i], v);
    }
    if v in items {
      var i :| 0 <= i < |items| && items[i] == v;
      assert CopyItems(items)[i] == v;
    }
  }

  lemma FilterOneMore(all: seq<Value>, x: Value, n: nat)
    requires n <= |all|
    ensures var items := CopyItems(WithoutRepeats(all, n));
            CopyItems(WithoutRepeats(all + [x], n)) == if Present(items, x) then items else items + [Copy(x)]
  {
    hide Copy;
    var kept, next := WithoutRepeats(all, n), all + [x];
    assert next[..|next| - 1] == all && next[|next| - 1] == x;
    WithoutRepeatsKeeps(all, n, x);
    if IsScalar(x) {
      CopiedScalars(kept, x);
    }
    CopyItemsAppend(kept, [x]);
    assert CopyItems([x]) == [Copy(x)];
  }

  /** Appending to a copied, filtered list extends the list and filters again. */
  lemma {:induction false} AppendUniqueFilters(all: seq<Value>, more: seq<Value>, n: nat)
    requires n <= |all|
    ensures AppendUnique(CopyItems(WithoutRepeats(all, n)), more) == CopyItems(WithoutRepeats(all + more, n))
    decreases |more|
  {
    hide WithoutRepeats, CopyItems, Copy, Present;
    if more == [] {
      assert all + more == all;
    } else {
      assert all + [more[0]] + more[1..] == all + more;
      FilterOneMore(all, more[0], n);
      AppendUniqueFilters(all + [more[0]], more[1..], n);
    }
  }

  lemma AllItemsLength(found: seq<Value>)
    requires found != [] && found[0].Array?
    ensures |found[0].items| <= |AllItems(found)|
  {
    if |found| > 1 {
      AllItemsLength(found[..|found| - 1]);
    } else {
      assert found == [found[0]];
    }
  }

  /**
   * UNIQUE: the items of the first array as they are, then of every later array those that are no scalar or
   * have no equal earlier item.
   */
  lemma {:induction false} UniqueDropsRepeats(found: seq<Value>)
    requires found != [] && found[0].Array?
    ensures Fold(found, Unique) == Some(Array(CopyItems(WithoutRepeats(AllItems(found), |found[0].items|))))
  {
    var n := |found[0].items|;
    if |found| == 1 {
      assert found[..0] == [];
      assert AllItems(found) == found[0].items;
    } else {
      hide AppendUnique, WithoutRepeats;
      var init, last := found[..|found| - 1], found[|found| - 1];
      assert init[0] == found[0];
      UniqueDropsRepeats(init);
      AllItemsLength(init);
      var merged := Merged(Fold(init, Unique).value, last, Unique);
      assert Fold(found, Unique) == Some(merged);
      if last.Array? {
        AppendUniqueFilters(AllItems(init), last.items, n);
        assert AllItems(found) == AllItems(init) + last.items;
      } else {
        assert AllItems(found) == AllItems(init);
      }
    }
  }

  lemma {:induction false} FilteredRepeats(all: seq<Value>, n: nat, k: nat, j: nat)
    requires n <= k < |WithoutRepeats(all, n)| && j < k
    requires var v := WithoutRepeats(all, n)[k]; v.Str? || v.Number? || v.Boolean?
    ensures WithoutRepeats(all, n)[j] != WithoutRepeats(all, n)[k]
  {
    if |all| > n {
      var last, before := all[|all| - 1], all[..|all| - 1];
      if k < |WithoutRepeats(before, n)| {
        FilteredRepeats(before, n, k, j);
      } else {
        WithoutRepeatsKeeps(before, n, last);
        assert WithoutRepeats(all, n)[j] == WithoutRepeats(before, n)[j];
        assert WithoutRepeats(before, n)[j] in WithoutRepeats(before, n);
      }
    }
  }

  /** UNIQUE: after the first array no string, number or boolean is equal to an earlier item. */
  lemma NoScalarTwice(found: seq<Value>, j: nat, k: nat)
    requires found != [] && found[0].Array?
    ensures Fold(found, Unique).Some? && Fold(found, Unique).value.Array?
    ensures var items := Fold(found, Unique).value.items;
            |found[0].items| <= k < |items| && j < k && (items[k].Str? || items[k].Number? || items[k].Boolean?) ==>
              items[j] != items[k]
  {
    hide Fold, WithoutRepeats, Copy;
    UniqueDropsRepeats(found);
    var n, kept := |found[0].items|, WithoutRepeats(AllItems(found), |found[0].items|);
    var items := CopyItems(kept);
    if n <= k < |items| && j < k && (items[k].Str? || items[k].Number? || items[k].Boolean?) {
      CopiedKind(kept[k]);
      CopiedKind(kept[j]);
      FilteredRepeats(AllItems(found), n, k, j);
    }
  }

  lemma CopiedKind(v: Value)
    ensures (Copy(v).Str? || Copy(v).Number? || Copy(v).Boolean?) == (v.Str? || v.Number? || v.Boolean?)
    ensures v.Str? || v.Number? || v.Boolean? ==> Copy(v) == v
  {
  }

  // ----- HASH -----

  /** Both maps, the first winning. */
  ghost function LeftUnion(a: map<string, Meaning>, b: map<string, Meaning>): (r: map<string, Meaning>)
    ensures r.Keys == a.Keys + b.Keys
    ensures forall k :: k in a ==> r[k] == a[k]
    ensures forall k :: k in b && k !in a ==> r[k] == b[k]
  {
    map k | k in a.Keys + b.Keys :: if k in a then a[k] else b[k]
  }

  lemma UnionWithNothing(a: map<string, Meaning>)
    ensures LeftUnion(a, map[]) == a && LeftUnion(map[], a) == a
  {
  }

  lemma UnionStep(mt: map<string, Meaning>, key: string, v: Meaning, rest: map<string, Meaning>)
    requires key !in rest
    ensures LeftUnion(if key in mt then mt else mt[key := v], rest) == LeftUnion(mt, rest[key := v])
  {
  }

  lemma UnionDisjoint(mt: map<string, Meaning>, first: map<string, Meaning>, rest: map<string, Meaning>)
    requires first.Keys !! rest.Keys
    ensures LeftUnion(LeftUnion(mt, first), rest) == LeftUnion(mt, rest + first)
  {
  }

  /** Setting a copy under a key the table lacks. */
  lemma AddOneMeans(t: Table, key: string, v: Value)
    requires DeepTable(t) && DeepWellFormed(v)
    ensures WellFormed(t) && (key in MeanTable(t) <==> Get(t, key).Some?)
    ensures DeepTable(Set(t, key, Copy(v))) && MeanTable(Set(t, key, Copy(v))) == MeanTable(t)[key := Mean(v)]
  {
    hide MeanTable, Set, Get, Mean, BucketOf, Copy;
    DeepIsWellFormed(t);
    MeanTableIs(t, key);
    DeepCopy(v);
    CopyMeansSame(v);
    DeepSet(t, key, Copy(v));
    MeanOfSet(t, key, Copy(v));
  }

  lemma {:induction false} AddMissingMeans(t: Table, c: Chain, b: nat)
    requires DeepTable(t) && DeepChain(c) && ChainRight(c, b)
    ensures DeepTable(AddMissing(t, c))
    ensures MeanTable(AddMissing(t, c)) == LeftUnion(MeanTable(t), MeanChain(c))
    decreases c
  {
    match c
    case Nil =>
      UnionWithNothing(MeanTable(t));
    case Node(key, v, next) =>
      hide MeanTable, Set, Get, DeepTable, Mean, BucketOf, Copy, DeepWellFormed, LeftUnion;
      AddOneMeans(t, key, v);
      var t1 := if Get(t, key).Some? then t else Set(t, key, Copy(v));
      AddMissingMeans(t1, next, b);
      UnionStep(MeanTable(t), key, Mean(v), MeanChain(next));
  }

  lemma DeepIsWellFormed(t: Table)
    requires DeepTable(t)
    ensures WellFormed(t)
  {
  }

  lemma AddAllStep(t: Table, bs: seq<Chain>, i: nat)
    requires Sized(t) && i < |bs|
    ensures AddAllMissing(t, bs[i..]) == AddAllMissing(AddMissing(t, bs[i]), bs[i + 1..])
    ensures MeanBuckets(bs[i..]) == MeanBuckets(bs[i + 1..]) + MeanChain(bs[i])
  {
    hide AddMissing, MeanChain;
    assert bs[i..][0] == bs[i] && bs[i..][1..] == bs[i + 1..];
  }

  lemma {:induction false} AddAllMissingMeans(t: Table, bs: seq<Chain>, i: nat)
    requires DeepTable(t) && ChainsRight(bs) && (forall b :: 0 <= b < BUCKETS ==> DeepChain(bs[b])) && i <= BUCKETS
    ensures DeepTable(AddAllMissing(t, bs[i..]))
    ensures MeanTable(AddAllMissing(t, bs[i..])) == LeftUnion(MeanTable(t), MeanBuckets(bs[i..]))
    decreases BUCKETS - i
  {
    if i == BUCKETS {
      UnionWithNothing(MeanTable(t));
    } else {
      hide MeanTable, AddMissing, AddAllMissing, MeanChain, MeanBuckets, ChainRight, DeepChain, LeftUnion;
      AddAllStep(t, bs, i);
      assert ChainRight(bs[i], i) && DeepChain(bs[i]);
      AddMissingMeans(t, bs[i], i);
      AddAllMissingMeans(AddMissing(t, bs[i]), bs, i + 1);
      LaterBucketsDiffer(bs, i);
      UnionDisjoint(MeanTable(t), MeanChain(bs[i]), MeanBuckets(bs[i + 1..]));
    }
  }

  /** The keys of every hash found, the earliest hash winning. */
  ghost function EarliestWins(found: seq<Value>): map<string, Meaning> {
    if found == [] then map[]
    else
      var n := |found| - 1;
      var earlier := EarliestWins(found[..n]);
      if found[n].Hash? then LeftUnion(earlier, MeanTable(found[n].table)) else earlier
  }

  ghost predicate HasKey(v: Value, key: string) {
    v.Hash? && key in MeanTable(v.table)
  }

  /** What the last value found adds. */
  lemma EarliestStep(found: seq<Value>, key: string)
    requires found != []
    ensures var earlier, last := EarliestWins(found[..|found| - 1]), found[|found| - 1];
            && (key in EarliestWins(found) <==> key in earlier || HasKey(last, key))
            && (key in earlier ==> EarliestWins(found)[key] == earlier[key])
            && (key !in earlier && HasKey(last, key) ==> EarliestWins(found)[key] == MeanTable(last.table)[key])
  {
    hide MeanTable;
  }

  lemma {:induction false} EarliestHasHeld(found: seq<Value>, key: string)
    ensures key in EarliestWins(found) <==> exists i :: 0 <= i < |found| && HasKey(found[i], key)
  {
    hide HasKey;
    if found != [] {
      hide EarliestWins;
      var init := found[..|found| - 1];
      EarliestStep(found, key);
      EarliestHasHeld(init, key);
      if i :| 0 <= i < |found| && HasKey(found[i], key) {
        assert i < |init| ==> init[i] == found[i];
      }
    }
  }

  lemma {:induction false} FirstHolderWins(found: seq<Value>, key: string, i: nat)
    requires i < |found| && HasKey(found[i], key) && forall j :: 0 <= j < i ==> !HasKey(found[j], key)
    ensures key in EarliestWins(found) && EarliestWins(found)[key] == MeanTable(found[i].table)[key]
  {
    hide EarliestWins, MeanTable;
    var init := found[..|found| - 1];
    EarliestStep(found, key);
    if i < |init| {
      FirstHolderWins(init, key, i);
    } else {
      EarliestHasHeld(init, key);
    }
  }

  /** A key of the union has the value of the first hash that holds it. */
  lemma EarliestWinsAt(found: seq<Value>, key: string)
    ensures key in EarliestWins(found) <==> exists i :: 0 <= i < |found| && HasKey(found[i], key)
    ensures forall i :: 0 <= i < |found| && HasKey(found[i], key) && (forall j :: 0 <= j < i ==> !HasKey(found[j], key)) ==>
              key in EarliestWins(found) && EarliestWins(found)[key] == MeanTable(found[i].table)[key]
  {
    EarliestHasHeld(found, key);
    forall i | 0 <= i < |found| && HasKey(found[i], key) && (forall j :: 0 <= j < i ==> !HasKey(found[j], key))
      ensures key in EarliestWins(found) && EarliestWins(found)[key] == MeanTable(found[i].table)[key]
    {
      FirstHolderWins(found, key, i);
    }
  }

  /** HASH: the left-biased union of the hashes found, once the first value found is a hash. */
  lemma {:induction false} TopLevelIsUnion(found: seq<Value>)
    requires found != [] && found[0].Hash? && AllDeepWellFormed(found)
    ensures var r := Fold(found, TopLevel).value;
            r.Hash? && DeepWellFormed(r) && MeanTable(r.table) == EarliestWins(found)
  {
    var init, last := found[..|found| - 1], found[|found| - 1];
    assert DeepWellFormed(last);
    if init == [] {
      CopiedTable(last);
      UnionWithNothing(MeanTable(last.table));
    } else {
      hide DeepWellFormed, MeanTable, AddAllMissing, Copy, LeftUnion, Mean;
      assert init[0] == found[0];
      TopLevelIsUnion(init);
      if last.Hash? {
        AllMissingAdded(Fold(init, TopLevel).value.table, last.table);
      }
    }
  }

  lemma CopiedTable(v: Value)
    requires v.Hash? && DeepWellFormed(v)
    ensures Copy(v).Hash? && DeepWellFormed(Copy(v)) && MeanTable(Copy(v).table) == MeanTable(v.table)
  {
    hide MeanTable;
    DeepCopy(v);
    CopyTableMeansSame(v.table);
    assert Copy(v) == Hash(CopyTable(v.table));
  }

  lemma AllMissingAdded(t: Table, later: Table)
    requires DeepWellFormed(Hash(t)) && DeepWellFormed(Hash(later))
    ensures DeepWellFormed(Hash(AddAllMissing(t, later.buckets)))
    ensures MeanTable(AddAllMissing(t, later.buckets)) == LeftUnion(MeanTable(t), MeanTable(later))
  {
    assert later.buckets[0..] == later.buckets;
    AddAllMissingMeans(t, later.buckets, 0);
  }

  // ----- DEEP -----

  /** The hashes among the values found, as nested maps. */
  ghost function Hashes(found: seq<Value>): (ms: seq<Meaning>)
    ensures AllMaps(ms)
  {
    if found == [] then []
    else
      var n := |found| - 1;
      Hashes(found[..n]) + if found[n].Hash? then [Mean(found[n])] else []
  }

  /** All hashes found, each later one merged over the earlier ones. */
  ghost function MergeAll(found: seq<Value>): (r: Meaning)
    ensures r.Map?
  {
    MergeList(Hashes(found))
  }

  lemma HashesLast(found: seq<Value>, v: Value)
    ensures Hashes(found + [v]) == Hashes(found) + if v.Hash? then [Mean(v)] else []
    ensures MergeAll(found + [v]) == if v.Hash? then MergeMeaning(MergeAll(found), Mean(v)) else MergeAll(found)
  {
    assert (found + [v])[..|found|] == found;
    if v.Hash? {
      MergeListLast(Hashes(found), Mean(v));
    } else {
      assert Hashes(found) + [] == Hashes(found);
    }
  }

  lemma DeepMergesOne(v: Value)
    requires v.Hash? && DeepWellFormed(v)
    ensures Copy(v).Hash? && DeepWellFormed(Copy(v)) && Mean(Copy(v)) == MergeMeaning(MergeAll([]), Mean(v))
  {
    hide DeepWellFormed, MergeMeaning;
    DeepCopy(v);
    CopyMeansSame(v);
    MergeIdentity(MeanTable(v.table));
    assert Copy(v) == Hash(CopyTable(v.table));
  }

  lemma DeepMergesNext(r: Value, v: Value)
    requires r.Hash? && DeepWellFormed(r) && DeepWellFormed(v)
    ensures var next := Merged(r, v, Deep);
            && next.Hash? && DeepWellFormed(next)
            && Mean(next) == if v.Hash? then MergeMeaning(Mean(r), Mean(v)) else Mean(r)
  {
    hide DeepWellFormed, Mean, MergeMeaning, Copy;
    if v.Hash? {
      DeepMergeMeans(r, v);
    }
  }

  /** DEEP: each later hash is merged over the result so far, once the first value found is a hash. */
  lemma {:induction false} DeepMergesAll(found: seq<Value>)
    requires found != [] && found[0].Hash? && AllDeepWellFormed(found)
    ensures var r := Fold(found, Deep).value;
            r.Hash? && DeepWellFormed(r) && Mean(r) == MergeAll(found)
  {
    var init, last := found[..|found| - 1], found[|found| - 1];
    hide DeepWellFormed, Mean, MergeMeaning, Merged, Copy, Fold, MergeAll;
    assert found == init + [last];
    assert DeepWellFormed(last);
    HashesLast(init, last);
    FoldLast(found, Deep);
    if init == [] {
      DeepMergesOne(last);
    } else {
      assert init[0] == found[0];
      DeepMergesAll(init);
      DeepMergesNext(Fold(init, Deep).value, last);
    }
  }

  /** The value of DEEP at every path: the last level that holds something there decides. */
  lemma DeepAtPath(found: seq<Value>, path: seq<string>)
    requires found != [] && found[0].Hash? && AllDeepWellFormed(found)
    ensures At(Mean(Fold(found, Deep).value), path) == ListAt(Hashes(found), path)
  {
    hide At, ListAt, Fold, Mean, MergeList;
    DeepMergesAll(found);
    MergeListAtPath(Hashes(found), path);
  }

  /** So at a key where the last hash holding it has no hash, DEEP gives that last value, where HASH gives the first. */
  lemma {:induction false} DeepLastWins(found: seq<Value>, key: string, i: nat)
    requires i < |found| && HasKey(found[i], key) && !MeanTable(found[i].table)[key].Map?
    requires forall j :: i < j < |found| ==> !HasKey(found[j], key)
    ensures MergeAll(found).Map? && key in MergeAll(found).m && MergeAll(found).m[key] == MeanTable(found[i].table)[key]
  {
    hide MergeAll, MergeMeaning;
    var n := |found| - 1;
    assert found == found[..n] + [found[n]];
    HashesLast(found[..n], found[n]);
    if found[n].Hash? {
      MergeOfMaps(MergeAll(found[..n]).m, MeanTable(found[n].table));
    }
    if i < n {
      DeepLastWins(found[..n], key, i);
      assert !HasKey(found[n], key);
    }
  }

  // ----- when DEEP does not depend on the order of the levels -----

  lemma {:induction false} HashesPermute(found: seq<Value>, others: seq<Value>)
    requires multiset(found) == multiset(others)
    ensures multiset(Hashes(found)) == multiset(Hashes(others))
    decreases |others|
  {
    hide Hashes, Mean;
    if others == [] {
      NothingInEmpty(found);
    } else {
      var init, last := others[..|others| - 1], others[|others| - 1];
      assert others == init + [last];
      assert last in multiset(found);
      var i :| 0 <= i < |found| && found[i] == last;
      HashesWithout(found, i);
      WithoutOne(found, i);
      assert multiset(init) == multiset(others) - multiset{last};
      assert multiset(Without(found, i)) == multiset(found) - multiset{last};
      HashesPermute(Without(found, i), init);
      HashesLast(init, last);
    }
  }

  lemma {:induction false} HashesWithout(found: seq<Value>, i: nat)
    requires i < |found|
    ensures multiset(Hashes(found)) ==
            multiset(Hashes(Without(found, i))) + if found[i].Hash? then multiset{Mean(found[i])} else multiset{}
  {
    hide Hashes, Mean;
    var n := |found| - 1;
    assert found == found[..n] + [found[n]];
    HashesLast(found[..n], found[n]);
    if i == n {
      assert Without(found, i) == found[..n];
    } else {
      HashesWithout(found[..n], i);
      assert Without(found, i) == Without(found[..n], i) + [found[n]];
      HashesLast(Without(found[..n], i), found[n]);
    }
  }

  ghost predicate AllHashes(found: seq<Value>) {
    forall i :: 0 <= i < |found| ==> found[i].Hash?
  }

  lemma {:induction false} HashesOfHashes(found: seq<Value>)
    requires AllHashes(found)
    ensures |Hashes(found)| == |found| && forall i :: 0 <= i < |found| ==> Hashes(found)[i] == Mean(found[i])
  {
    if found != [] {
      HashesOfHashes(found[..|found| - 1]);
    }
  }

  /** Any two of the hashes agree wherever both hold something. */
  ghost predicate LevelsAgree(found: seq<Value>)
    requires AllHashes(found)
  {
    forall i, j :: 0 <= i < |found| && 0 <= j < |found| ==> Agrees(Mean(found[i]), Mean(found[j]))
  }

  ghost predicate DeepIgnoresOrder(found: seq<Value>) {
    forall others :: multiset(others) == multiset(found) ==> MergeAll(others) == MergeAll(found)
  }

  /** DEEP gives the same whatever the priorities of the levels exactly when the hashes agree pairwise. */
  lemma DeepIgnoresOrderExactly(found: seq<Value>)
    requires AllHashes(found)
    ensures DeepIgnoresOrder(found) <==> LevelsAgree(found)
  {
    hide Hashes, Mean, Agrees, MergeList, AllHashes;
    HashesOfHashes(found);
    if LevelsAgree(found) {
      forall others | multiset(others) == multiset(found)
        ensures MergeAll(others) == MergeAll(found)
      {
        HashesPermute(found, others);
        AgreeingListsPermute(Hashes(found), Hashes(others));
      }
    }
    if DeepIgnoresOrder(found) {
      forall i, j | 0 <= i < |found| && 0 <= j < |found|
        ensures Agrees(Mean(found[i]), Mean(found[j]))
      {
        if i == j {
          AgreesWithItself(Hashes(found)[i]);
        } else {
          LevelPairAgrees(found, i, j);
        }
      }
    }
  }

  lemma LevelPairAgrees(found: seq<Value>, i: nat, j: nat)
    requires AllHashes(found) && DeepIgnoresOrder(found) && i < |found| && j < |found| && i != j
    ensures Mean(found[i]).Map? && Mean(found[j]).Map? && Agrees(Mean(found[i]), Mean(found[j]))
  {
    hide Hashes, Agrees, MergeList, Mean;
    HashesOfHashes(found);
    assert Hashes(found)[i].Map? && Hashes(found)[j].Map?;
    var rest := PairLast(found, i, j);
    HashesOfPair(rest, found[i], found[j]);
    HashesOfPair(rest, found[j], found[i]);
    assert MergeAll(rest + [found[i], found[j]]) == MergeAll(found);
    assert MergeAll(rest + [found[j], found[i]]) == MergeAll(found);
    SwapLastTwo(Hashes(rest), Mean(found[i]), Mean(found[j]));
  }

  lemma HashesOfPair(found: seq<Value>, a: Value, b: Value)
    requires a.Hash? && b.Hash?
    ensures Hashes(found + [a, b]) == Hashes(found) + [Mean(a), Mean(b)]
  {
    hide Hashes, Mean;
    HashesLast(found, a);
    HashesLast(found + [a], b);
    assert found + [a, b] == found + [a] + [b];
    assert Hashes(found) + [Mean(a), Mean(b)] == Hashes(found) + [Mean(a)] + [Mean(b)];
  }
}
