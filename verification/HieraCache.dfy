/** The result cache across differing calls: exactly when a remembered answer is the right one. */
module HieraCache {
  import opened Common
  import opened PuppetValue
  import opened PuppetCopy
  import opened PuppetMerge
  import opened PuppetMergeLaws
  import opened HieraMerge
  import opened HieraLookup

  ghost predicate LevelsSized(levels: seq<Level>) {
    forall i :: 0 <= i < |levels| && levels[i].Some? ==> SizedHash(levels[i].value)
  }

  ghost predicate DefaultWellFormed(default: Option<Value>) {
    default.Some? ==> DeepWellFormed(default.value)
  }

  /** The answer to a lookup of a key that another lookup has just put in the cache. */
  function SecondAnswer(cache: map<string, Value>, levels: seq<Level>, key: string, first: Option<Value>, one: Strategy,
                        second: Option<Value>, two: Strategy): Option<Value>
    requires LevelsSized(levels)
  {
    CachedLookup(CachedLookup(cache, levels, key, first, one).1, levels, key, second, two).0
  }

  /** For all files, all keys and all caches without the key, the second lookup means what an uncached one means. */
  ghost predicate SecondIsRight(first: Option<Value>, one: Strategy, second: Option<Value>, two: Strategy) {
    forall cache, levels, key :: LevelsWellFormed(levels) && LevelsSized(levels) && key !in cache ==>
      SameMeaning(SecondAnswer(cache, levels, key, first, one, second, two), Uncached(levels, key, second, two))
  }

  lemma SecondAnswerIs(cache: map<string, Value>, levels: seq<Level>, key: string, first: Option<Value>, one: Strategy,
                       second: Option<Value>, two: Strategy)
    requires LevelsSized(levels) && key !in cache
    ensures var r := Uncached(levels, key, first, one);
            SecondAnswer(cache, levels, key, first, one, second, two) ==
            if r.Some? then Some(Copy(r.value)) else Uncached(levels, key, second, two)
  {
  }

  // ----- levels that hold given values -----

  function LevelWith(key: string, v: Value): Level {
    Some(Hash(Set(EmptyTable(), key, v)))
  }

  lemma LevelHolds(key: string, v: Value)
    requires DeepWellFormed(v)
    ensures LevelWith(key, v).Some? && DeepWellFormed(LevelWith(key, v).value)
    ensures SizedHash(LevelWith(key, v).value) && AtLevel(LevelWith(key, v), key) == Some(v)
  {
    hide DeepWellFormed;
    EmptyIsDeep();
    DeepSet(EmptyTable(), key, v);
    SetIsDeep(EmptyTable(), key, v);
    GetAfterSet(EmptyTable(), key, v, key);
  }

  lemma EmptyIsDeep()
    ensures DeepTable(EmptyTable()) && MeanTable(EmptyTable()) == map[] && DeepWellFormed(Hash(EmptyTable()))
  {
    EmptyContent();
    forall k
      ensures k !in MeanTable(EmptyTable())
    {
      MeanTableIs(EmptyTable(), k);
    }
  }

  lemma SetIsDeep(t: Table, key: string, v: Value)
    requires Sized(t) && DeepTable(Set(t, key, v))
    ensures DeepWellFormed(Hash(Set(t, key, v)))
  {
  }

  function TwoLevels(key: string, a: Value, b: Value): seq<Level> {
    [LevelWith(key, a), LevelWith(key, b)]
  }

  lemma TwoLevelsHold(key: string, a: Value, b: Value)
    requires DeepWellFormed(a) && DeepWellFormed(b)
    ensures LevelsWellFormed(TwoLevels(key, a, b)) && LevelsSized(TwoLevels(key, a, b))
    ensures Found(TwoLevels(key, a, b), key) == [a, b] && AllDeepWellFormed([a, b])
  {
    hide LevelWith, AtLevel, DeepWellFormed, SizedHash;
    LevelHolds(key, a);
    LevelHolds(key, b);
    var levels := TwoLevels(key, a, b);
    assert levels[..1][..0] == [] && levels[..1][0] == levels[0];
    assert Found(levels[..1], key) == Found(levels[..1][..0], key) + [a];
    assert Found(levels, key) == Found(levels[..1], key) + [b];
  }

  // ----- any two strategies differ somewhere -----

  /** The two strategies give values of different meaning for these two levels. */
  ghost predicate Separates(a: Value, b: Value, one: Strategy, two: Strategy) {
    && DeepWellFormed(a) && DeepWellFormed(b)
    && Mean(Fold([a, b], one).value) != Mean(Fold([a, b], two).value)
  }

  function Hashed(key: string, v: Value): Value {
    Hash(Set(EmptyTable(), key, v))
  }

  /** UNIQUE alone joins two arrays. */
  lemma ArraysSeparate(other: Strategy)
    requires other != Unique
    ensures Separates(Array([]), Array([Undef]), Unique, other) && Separates(Array([]), Array([Undef]), other, Unique)
  {
    var a, b := Array([]), Array([Undef]);
    UniqueOfArrays();
    OtherFirstValueStays([a, b], other);
    CopyItemsAppend([], []);
    assert Copy(a) == a;
    assert |Mean(Array([Undef])).items| == 1 && |Mean(a).items| == 0;
  }

  lemma UniqueOfArrays()
    ensures Fold([Array([]), Array([Undef])], Unique) == Some(Array([Undef]))
  {
    var a, b := Array([]), Array([Undef]);
    var found := [a, b];
    assert found[..1] == [a] && [a][..0] == [];
    FoldLast([a], Unique);
    FoldLast(found, Unique);
    assert Copy(a) == a && Copy(Undef) == Undef;
    assert AppendUnique([], [Undef]) == [Undef];
  }

  lemma HashedIs(key: string, v: Value)
    requires DeepWellFormed(v)
    ensures DeepWellFormed(Hashed(key, v)) && MeanTable(Hashed(key, v).table) == map[key := Mean(v)]
    ensures Mean(Hashed(key, v)) == Map(map[key := Mean(v)])
  {
    hide DeepWellFormed, MeanTable, Mean;
    EmptyIsDeep();
    DeepSet(EmptyTable(), key, v);
    SetIsDeep(EmptyTable(), key, v);
    EmptyContent();
    MeanOfSet(EmptyTable(), key, v);
    MeanOfHash(Hashed(key, v));
  }

  lemma MeanOfHash(v: Value)
    requires v.Hash?
    ensures Mean(v) == Map(MeanTable(v.table))
  {
  }

  /** FIRST alone ignores the keys of a later hash. */
  lemma HashesSeparate(other: Strategy)
    requires other == TopLevel || other == Deep
    ensures Separates(Hash(EmptyTable()), Hashed("k", Undef), First, other)
    ensures Separates(Hash(EmptyTable()), Hashed("k", Undef), other, First)
  {
    hide DeepWellFormed, MeanTable, Fold, Mean, Hashed, Copy, Agrees;
    var a, b := Hash(EmptyTable()), Hashed("k", Undef);
    EmptyIsDeep();
    UndefIsDeep();
    HashedIs("k", Undef);
    HashedIsHash("k", Undef);
    MeanOfHash(a);
    FirstIsHighest([a, b]);
    CopyMeansSame(a);
    if other == TopLevel {
      UnionHasKey(a, b, "k");
    } else {
      DeepHasKey(a, b, "k");
    }
  }

  lemma UndefIsDeep()
    ensures DeepWellFormed(Undef) && !Mean(Undef).Map?
  {
  }

  /** What HASH and DEEP hold at a key of the second of two hashes, where the first has none or a non-map. */
  lemma UnionHasKey(a: Value, b: Value, key: string)
    requires DeepWellFormed(a) && DeepWellFormed(b) && a.Hash? && HasKey(b, key)
    ensures Mean(Fold([a, b], TopLevel).value).Map? && key in Mean(Fold([a, b], TopLevel).value).m
    ensures HasKey(a, key) ==> Mean(Fold([a, b], TopLevel).value).m[key] == MeanTable(a.table)[key]
  {
    hide DeepWellFormed, MeanTable, Fold, Mean;
    var found := [a, b];
    assert found[0] == a && found[1] == b;
    TopLevelIsUnion(found);
    EarliestWinsAt(found, key);
    MeanOfHash(Fold(found, TopLevel).value);
  }

  lemma DeepHasKey(a: Value, b: Value, key: string)
    requires DeepWellFormed(a) && DeepWellFormed(b) && a.Hash? && HasKey(b, key) && !MeanTable(b.table)[key].Map?
    ensures Mean(Fold([a, b], Deep).value).Map? && key in Mean(Fold([a, b], Deep).value).m
    ensures Mean(Fold([a, b], Deep).value).m[key] == MeanTable(b.table)[key]
  {
    hide DeepWellFormed, MeanTable, Fold, Mean, MergeAll;
    var found := [a, b];
    assert found[0] == a && found[1] == b;
    DeepMergesAll(found);
    DeepLastWins(found, key, 1);
  }

  /** HASH keeps the first of two values where DEEP takes the last. */
  lemma ConflictsSeparate()
    ensures Separates(Hashed("k", Boolean(true)), Hashed("k", Boolean(false)), TopLevel, Deep)
    ensures Separates(Hashed("k", Boolean(true)), Hashed("k", Boolean(false)), Deep, TopLevel)
  {
    hide MeanTable, Fold, Hashed;
    var a, b := Hashed("k", Boolean(true)), Hashed("k", Boolean(false));
    HashedIs("k", Boolean(true));
    HashedIs("k", Boolean(false));
    HashedIsHash("k", Boolean(true));
    HashedIsHash("k", Boolean(false));
    UnionHasKey(a, b, "k");
    DeepHasKey(a, b, "k");
  }

  lemma HashedIsHash(key: string, v: Value)
    ensures Hashed(key, v).Hash?
  {
  }

  lemma StrategiesDiffer(one: Strategy, two: Strategy) returns (a: Value, b: Value)
    requires one != two
    ensures Separates(a, b, one, two)
  {
    if one == Unique || two == Unique {
      a, b := Array([]), Array([Undef]);
      ArraysSeparate(if one == Unique then two else one);
    } else if one == First || two == First {
      a, b := Hash(EmptyTable()), Hashed("k", Undef);
      HashesSeparate(if one == First then two else one);
    } else {
      a, b := Hashed("k", Boolean(true)), Hashed("k", Boolean(false));
      ConflictsSeparate();
    }
  }

  // ----- exactly when the remembered answer is right -----

  /** With another strategy some files make the remembered answer wrong. */
  lemma OtherStrategyIsWrong(first: Option<Value>, one: Strategy, second: Option<Value>, two: Strategy)
    requires one != two
    ensures !SecondIsRight(first, one, second, two)
  {
    hide DeepWellFormed, Mean, Fold, LevelsWellFormed, SizedHash, Copy, TwoLevels, Found;
    var a, b := StrategiesDiffer(one, two);
    var levels := TwoLevels("key", a, b);
    TwoLevelsHold("key", a, b);
    SecondAnswerIs(map[], levels, "key", first, one, second, two);
    FoldWellFormed([a, b], one);
    CopyMeansSame(Fold([a, b], one).value);
    assert !SameMeaning(SecondAnswer(map[], levels, "key", first, one, second, two), Uncached(levels, "key", second, two));
  }

  /** With another default the remembered one is wrong where no file holds the key. */
  lemma OtherDefaultIsWrong(first: Option<Value>, one: Strategy, second: Option<Value>, two: Strategy)
    requires DefaultWellFormed(first) && DefaultWellFormed(second) && first.Some? && !SameMeaning(first, second)
    ensures !SecondIsRight(first, one, second, two)
  {
    hide DeepWellFormed, Mean, Copy;
    var levels: seq<Level> := [];
    SecondAnswerIs(map[], levels, "key", first, one, second, two);
    DeepCopy(first.value);
    CopyMeansSame(first.value);
    CopyMeansSame(Copy(first.value));
    if second.Some? {
      CopyMeansSame(second.value);
    }
    assert Found(levels, "key") == [];
    assert !SameMeaning(SecondAnswer(map[], levels, "key", first, one, second, two), Uncached(levels, "key", second, two));
  }

  lemma SameCallIsRight(cache: map<string, Value>, levels: seq<Level>, key: string, first: Option<Value>,
                        second: Option<Value>, strategy: Strategy)
    requires DefaultWellFormed(first) && DefaultWellFormed(second) && (first.None? || SameMeaning(first, second))
    requires LevelsWellFormed(levels) && LevelsSized(levels) && key !in cache
    ensures SameMeaning(SecondAnswer(cache, levels, key, first, strategy, second, strategy),
                        Uncached(levels, key, second, strategy))
  {
    hide DeepWellFormed, Mean, Copy, Fold, Found;
    SecondAnswerIs(cache, levels, key, first, strategy, second, strategy);
    UncachedCopies(levels, key, first, strategy);
    if Fold(Found(levels, key), strategy).None? && first.Some? {
      CopyMeansSame(first.value);
      CopyMeansSame(second.value);
    }
  }

  /**
   * A lookup after another of the same key is answered right, whatever the files hold, exactly when it asks with the same
   * strategy, and with a default of the same meaning unless the first had none.
   */
  lemma SecondIsRightExactly(first: Option<Value>, one: Strategy, second: Option<Value>, two: Strategy)
    requires DefaultWellFormed(first) && DefaultWellFormed(second)
    ensures SecondIsRight(first, one, second, two) <==> one == two && (first.None? || SameMeaning(first, second))
  {
    hide SameMeaning, SecondAnswer, Uncached;
    if one != two {
      OtherStrategyIsWrong(first, one, second, two);
    } else if first.Some? && !SameMeaning(first, second) {
      OtherDefaultIsWrong(first, one, second, two);
    } else {
      forall cache, levels, key | LevelsWellFormed(levels) && LevelsSized(levels) && key !in cache
        ensures SameMeaning(SecondAnswer(cache, levels, key, first, one, second, two), Uncached(levels, key, second, two))
      {
        SameCallIsRight(cache, levels, key, first, second, one);
      }
    }
  }
}
