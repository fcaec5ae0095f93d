/** A Hiera lookup: the walk down the hierarchy, the default, and the cache of results. */
module HieraLookup {
  import opened Common
  import opened PuppetValue
  import opened PuppetCopy
  import opened PuppetMerge
  import opened PuppetHash
  import opened HieraMerge

  /** What the file of a level holds; None when there is no such file or it cannot be read. */
  type Level = Option<Value>

  ghost predicate LevelsWellFormed(levels: seq<Level>) {
    forall i :: 0 <= i < |levels| && levels[i].Some? ==> DeepWellFormed(levels[i].value)
  }

  /** The value of a key at a level: only a hash can hold one. */
  function AtLevel(level: Level, key: string): Option<Value>
    requires level.Some? ==> SizedHash(level.value)
  {
    if level.Some? && level.value.Hash? then Get(level.value.table, key) else None
  }

  /** The values a hierarchy holds for a key, highest priority first. */
  function Found(levels: seq<Level>, key: string): seq<Value>
    requires forall i :: 0 <= i < |levels| && levels[i].Some? ==> SizedHash(levels[i].value)
  {
    if levels == [] then []
    else
      var n := |levels| - 1;
      var value := AtLevel(levels[n], key);
      Found(levels[..n], key) + if value.Some? then [value.value] else []
  }

  lemma LevelsAreSized(levels: seq<Level>)
    requires LevelsWellFormed(levels)
    ensures forall i :: 0 <= i < |levels| && levels[i].Some? ==> SizedHash(levels[i].value)
  {
    forall i | 0 <= i < |levels| && levels[i].Some?
      ensures SizedHash(levels[i].value)
    {
      assert DeepWellFormed(levels[i].value);
    }
  }

  /** The fold of what the levels hold, or else a copy of the default. */
  function Uncached(levels: seq<Level>, key: string, default: Option<Value>, strategy: Strategy): Option<Value>
    requires forall i :: 0 <= i < |levels| && levels[i].Some? ==> SizedHash(levels[i].value)
  {
    var found := Fold(Found(levels, key), strategy);
    if found.Some? then found else if default.Some? then Some(Copy(default.value)) else None
  }

  lemma {:induction false} FoundWellFormed(levels: seq<Level>, key: string)
    requires LevelsWellFormed(levels)
    requires forall i :: 0 <= i < |levels| && levels[i].Some? ==> SizedHash(levels[i].value)
    ensures AllDeepWellFormed(Found(levels, key))
  {
    if levels != [] {
      var level := levels[|levels| - 1];
      FoundWellFormed(levels[..|levels| - 1], key);
      if AtLevel(level, key).Some? {
        assert DeepWellFormed(level.value);
        assert DeepChain(level.value.table.buckets[BucketOf(key)]);
        DeepFind(level.value.table.buckets[BucketOf(key)], key);
      }
    }
  }

  lemma {:induction false} FoldWellFormed(found: seq<Value>, strategy: Strategy)
    requires found != [] && AllDeepWellFormed(found)
    ensures DeepWellFormed(Fold(found, strategy).value)
  {
    assert DeepWellFormed(found[0]);
    if match strategy case First => true case Unique => !found[0].Array? case _ => !found[0].Hash? {
      OtherFirstValueStays(found, strategy);
      DeepCopy(found[0]);
    } else if strategy == Unique {
      UniqueDropsRepeats(found);
      var items := WithoutRepeats(AllItems(found), |found[0].items|);
      forall i | 0 <= i < |items|
        ensures DeepWellFormed(CopyItems(items)[i])
      {
        WithoutRepeatsKeeps(AllItems(found), |found[0].items|, items[i]);
        ItemsWellFormed(found, items[i]);
        DeepCopy(items[i]);
      }
    } else if strategy == TopLevel {
      TopLevelIsUnion(found);
    } else {
      DeepMergesAll(found);
    }
  }

  lemma {:induction false} ItemsWellFormed(found: seq<Value>, item: Value)
    requires AllDeepWellFormed(found) && item in AllItems(found)
    ensures DeepWellFormed(item)
  {
    var last := found[|found| - 1];
    assert DeepWellFormed(last);
    if item in AllItems(found[..|found| - 1]) {
      ItemsWellFormed(found[..|found| - 1], item);
    }
  }

  // ----- the cache, as a map -----

  /** The answer to a lookup and the cache after it. */
  function CachedLookup(cache: map<string, Value>, levels: seq<Level>, key: string,
                        default: Option<Value>, strategy: Strategy): (Option<Value>, map<string, Value>)
    requires forall i :: 0 <= i < |levels| && levels[i].Some? ==> SizedHash(levels[i].value)
  {
    if key in cache then (Some(cache[key]), cache)
    else
      var r := Uncached(levels, key, default, strategy);
      (r, if r.Some? then cache[key := Copy(r.value)] else cache)
  }

  /** Equal up to the order in which tables chain their entries. */
  ghost predicate SameMeaning(a: Option<Value>, b: Option<Value>) {
    (a.None? <==> b.None?) && (a.Some? ==> Mean(a.value) == Mean(b.value))
  }

  ghost predicate SourceWellFormed(source: string -> seq<Level>) {
    forall key :: LevelsWellFormed(source(key))
  }

  ghost function Fresh(source: string -> seq<Level>, key: string, default: Option<Value>, strategy: Strategy): Option<Value>
    requires SourceWellFormed(source)
  {
    LevelsAreSized(source(key));
    Uncached(source(key), key, default, strategy)
  }

  /** Every cached value is what a fresh lookup would give. */
  ghost predicate CacheAgrees(cache: map<string, Value>, source: string -> seq<Level>, default: Option<Value>, strategy: Strategy)
    requires SourceWellFormed(source)
  {
    forall key :: key in cache ==> SameMeaning(Some(cache[key]), Fresh(source, key, default, strategy))
  }

  lemma UncachedCopies(levels: seq<Level>, key: string, default: Option<Value>, strategy: Strategy)
    requires LevelsWellFormed(levels) && (default.Some? ==> DeepWellFormed(default.value))
    requires forall i :: 0 <= i < |levels| && levels[i].Some? ==> SizedHash(levels[i].value)
    ensures var r := Uncached(levels, key, default, strategy);
            r.Some? ==> DeepWellFormed(r.value) && Mean(Copy(r.value)) == Mean(r.value)
  {
    var found := Found(levels, key);
    FoundWellFormed(levels, key);
    if found != [] {
      FoldWellFormed(found, strategy);
      CopyMeansSame(Fold(found, strategy).value);
    } else if default.Some? {
      DeepCopy(default.value);
      CopyMeansSame(Copy(default.value));
    }
  }

  /** The cache after looking up keys one after the other, and the answers given. */
  ghost function Lookups(cache: map<string, Value>, source: string -> seq<Level>, keys: seq<string>,
                         default: Option<Value>, strategy: Strategy): (r: (seq<Option<Value>>, map<string, Value>))
    requires SourceWellFormed(source)
    ensures |r.0| == |keys|
  {
    if keys == [] then ([], cache)
    else
      var n := |keys| - 1;
      var earlier := Lookups(cache, source, keys[..n], default, strategy);
      LevelsAreSized(source(keys[n]));
      var last := CachedLookup(earlier.1, source(keys[n]), keys[n], default, strategy);
      (earlier.0 + [last.0], last.1)
  }

  lemma CachedStepAgrees(cache: map<string, Value>, source: string -> seq<Level>, key: string,
                         default: Option<Value>, strategy: Strategy)
    requires SourceWellFormed(source) && (default.Some? ==> DeepWellFormed(default.value))
    requires CacheAgrees(cache, source, default, strategy)
    ensures forall i :: 0 <= i < |source(key)| && source(key)[i].Some? ==> SizedHash(source(key)[i].value)
    ensures var (r, after) := CachedLookup(cache, source(key), key, default, strategy);
            SameMeaning(r, Fresh(source, key, default, strategy)) && CacheAgrees(after, source, default, strategy)
  {
    hide Uncached, Mean, Copy, DeepWellFormed;
    LevelsAreSized(source(key));
    UncachedCopies(source(key), key, default, strategy);
  }

  lemma LookupsStep(cache: map<string, Value>, source: string -> seq<Level>, keys: seq<string>,
                    default: Option<Value>, strategy: Strategy)
    requires SourceWellFormed(source) && keys != []
    ensures var levels := source(keys[|keys| - 1]);
            forall i :: 0 <= i < |levels| && levels[i].Some? ==> SizedHash(levels[i].value)
    ensures var n := |keys| - 1;
            var earlier := Lookups(cache, source, keys[..n], default, strategy);
            var (r, after) := CachedLookup(earlier.1, source(keys[n]), keys[n], default, strategy);
            Lookups(cache, source, keys, default, strategy) == (earlier.0 + [r], after)
  {
    LevelsAreSized(source(keys[|keys| - 1]));
  }

  lemma {:induction false} CacheKeepsAgreeing(cache: map<string, Value>, source: string -> seq<Level>, keys: seq<string>,
                                              default: Option<Value>, strategy: Strategy)
    requires SourceWellFormed(source) && (default.Some? ==> DeepWellFormed(default.value))
    requires CacheAgrees(cache, source, default, strategy)
    ensures CacheAgrees(Lookups(cache, source, keys, default, strategy).1, source, default, strategy)
  {
    if keys != [] {
      hide CachedLookup, CacheAgrees, SameMeaning, DeepWellFormed, SourceWellFormed, LevelsWellFormed, SizedHash, Fresh,
        Lookups;
      var n := |keys| - 1;
      CacheKeepsAgreeing(cache, source, keys[..n], default, strategy);
      CachedStepAgrees(Lookups(cache, source, keys[..n], default, strategy).1, source, keys[n], default, strategy);
      LookupsStep(cache, source, keys, default, strategy);
    }
  }

  lemma {:induction false} AnswerIsFresh(cache: map<string, Value>, source: string -> seq<Level>, keys: seq<string>, i: nat,
                                         default: Option<Value>, strategy: Strategy)
    requires SourceWellFormed(source) && (default.Some? ==> DeepWellFormed(default.value))
    requires CacheAgrees(cache, source, default, strategy) && i < |keys|
    ensures SameMeaning(Lookups(cache, source, keys, default, strategy).0[i], Fresh(source, keys[i], default, strategy))
    decreases |keys|
  {
    hide CachedLookup, CacheAgrees, SameMeaning, DeepWellFormed, SourceWellFormed, LevelsWellFormed, SizedHash, Fresh,
      Lookups;
    var n := |keys| - 1;
    LookupsStep(cache, source, keys, default, strategy);
    if i < n {
      assert keys[..n][i] == keys[i];
      AnswerIsFresh(cache, source, keys[..n], i, default, strategy);
    } else {
      CacheKeepsAgreeing(cache, source, keys[..n], default, strategy);
      CachedStepAgrees(Lookups(cache, source, keys[..n], default, strategy).1, source, keys[n], default, strategy);
    }
  }

  /** With the files, the default and the strategy fixed, the cache never changes what a lookup means. */
  lemma CacheIsInvisible(cache: map<string, Value>, source: string -> seq<Level>, keys: seq<string>,
                         default: Option<Value>, strategy: Strategy)
    requires SourceWellFormed(source) && (default.Some? ==> DeepWellFormed(default.value))
    requires CacheAgrees(cache, source, default, strategy)
    ensures CacheAgrees(Lookups(cache, source, keys, default, strategy).1, source, default, strategy)
    ensures forall i :: 0 <= i < |keys| ==>
              SameMeaning(Lookups(cache, source, keys, default, strategy).0[i], Fresh(source, keys[i], default, strategy))
  {
    hide CachedLookup, CacheAgrees, SameMeaning, DeepWellFormed, Fresh, Lookups;
    CacheKeepsAgreeing(cache, source, keys, default, strategy);
    forall i | 0 <= i < |keys|
      ensures SameMeaning(Lookups(cache, source, keys, default, strategy).0[i], Fresh(source, keys[i], default, strategy))
    {
      AnswerIsFresh(cache, source, keys, i, default, strategy);
    }
  }

  /** The cache knows only the key: a later lookup repeats the first answer whatever it asks for. */
  lemma CacheKnowsOnlyKeys(cache: map<string, Value>, levels: seq<Level>, key: string,
                           default: Option<Value>, strategy: Strategy, other: Option<Value>, another: Strategy)
    requires forall i :: 0 <= i < |levels| && levels[i].Some? ==> SizedHash(levels[i].value)
    requires key !in cache
    ensures var (first, after) := CachedLookup(cache, levels, key, default, strategy);
            CachedLookup(after, levels, key, other, another).0 ==
            if first.Some? then Some(Copy(first.value)) else Uncached(levels, key, other, another)
  {
  }

  // ----- the lookup -----

  lemma {:induction false} FoundGrows(levels: seq<Level>, key: string, n: nat)
    requires forall i :: 0 <= i < |levels| && levels[i].Some? ==> SizedHash(levels[i].value)
    requires n <= |levels|
    ensures Found(levels[..n], key) <= Found(levels, key)
    decreases |levels|
  {
    if n == |levels| {
      assert levels[..n] == levels;
    } else {
      assert levels[..|levels| - 1][..n] == levels[..n];
      FoundGrows(levels[..|levels| - 1], key, n);
    }
  }

  lemma FoundOneMore(levels: seq<Level>, key: string, i: nat, strategy: Strategy)
    requires forall i :: 0 <= i < |levels| && levels[i].Some? ==> SizedHash(levels[i].value)
    requires i < |levels|
    ensures var before, after, value := Found(levels[..i], key), Found(levels[..i + 1], key), AtLevel(levels[i], key);
            if value.None? then after == before
            else after == before + [value.value] &&
                 Fold(after, strategy) == Some(if before == [] then Copy(value.value)
                                               else Merged(Fold(before, strategy).value, value.value, strategy))
  {
    assert levels[..i + 1][..i] == levels[..i];
    var before, after := Found(levels[..i], key), Found(levels[..i + 1], key);
    if AtLevel(levels[i], key).Some? {
      assert after[..|after| - 1] == before;
    }
  }

  /** Walk down the hierarchy, merging what each level holds; FIRST stops at the first value. */
  method Search(levels: seq<Level>, key: string, strategy: Strategy) returns (r: Option<Value>)
    requires forall i :: 0 <= i < |levels| && levels[i].Some? ==> SizedHash(levels[i].value)
    ensures r == Fold(Found(levels, key), strategy)
  {
    hide Found, Fold, Merged, Copy;
    r := None;
    FoldNothing(levels, key, strategy);
    for i := 0 to |levels|
      invariant r == Fold(Found(levels[..i], key), strategy)
      invariant strategy == First ==> r.None?
    {
      var value := AtLevel(levels[i], key);
      FoundOneMore(levels, key, i, strategy);
      if value.Some? {
        if strategy == First {
          var copy := CopyValue(value.value);
          FoundGrows(levels, key, i + 1);
          FirstIsHighest(Found(levels, key));
          return Some(copy);
        }
        r := MergeValues(r, value, strategy);
      }
    }
    assert levels[..|levels|] == levels;
  }

  lemma FoldNothing(levels: seq<Level>, key: string, strategy: Strategy)
    requires forall i :: 0 <= i < |levels| && levels[i].Some? ==> SizedHash(levels[i].value)
    ensures Fold(Found(levels[..0], key), strategy) == None
  {
  }

  class Context {
    const cache: HashTable

    constructor ()
      ensures fresh(cache) && cache.Valid() && fresh(cache.buckets) && cache.values == map[]
      ensures Content(cache.table) == map[]
    {
      cache := new HashTable();
      new;
      EmptyContent();
    }

    /** Look a key up; a shared cache is neither read nor written. */
    method Lookup(levels: seq<Level>, key: string, default: Option<Value>, strategy: Strategy, useCache: bool)
      returns (r: Option<Value>)
      requires cache.Valid() && LevelsWellFormed(levels)
      requires forall i :: 0 <= i < |levels| && levels[i].Some? ==> SizedHash(levels[i].value)
      modifies cache, cache.buckets, cache.values.Keys
      ensures cache.Valid() && fresh(cache.values.Keys - old(cache.values.Keys))
      ensures useCache ==>
                (r, Content(cache.table)) == CachedLookup(old(Content(cache.table)), levels, key, default, strategy)
      ensures !useCache ==> r == Uncached(levels, key, default, strategy) && cache.table == old(cache.table)
    {
      hide Found, Fold, Copy, Content, WellFormed, BucketsHold, PuppetValue.Set, LevelsWellFormed;
      if useCache {
        var cached := cache.Get(key);
        if cached.Some? {
          return cached;
        }
      }
      r := Search(levels, key, strategy);
      if r.None? && default.Some? {
        var copy := CopyValue(default.value);
        r := Some(copy);
      }
      if r.Some? && useCache {
        var copy := CopyValue(r.value);
        cache.Set(key, copy);
      }
    }
  }
}
