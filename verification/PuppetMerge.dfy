/** Deep merging of hashes: what the bucket-by-bucket algorithm means as an operation on nested maps. */
module PuppetMerge {
  import opened Common
  import opened PuppetValue
  import opened PuppetCopy

  // ----- the algorithm -----

  /** The overlay is merged entry by entry into a copy of the base. */
  function DeepMerge(base: Value, overlay: Value): Value
    decreases overlay, 0
  {
    if !base.Hash? then Copy(overlay)
    else if !overlay.Hash? then Copy(base)
    else Hash(MergeChains(CopyTable(base.table), overlay.table.buckets))
  }

  /** Two hashes are merged, anything else is replaced. */
  function MergedValue(existing: Option<Value>, v: Value): Value
    decreases v, 1
  {
    if existing.Some? && existing.value.Hash? && v.Hash? then DeepMerge(existing.value, v) else Copy(v)
  }

  function MergeChain(t: Table, c: Chain): (r: Table)
    requires Sized(t)
    ensures Sized(r)
    decreases c, 2
  {
    match c
    case Nil => t
    case Node(key, v, next) => MergeChain(Set(t, key, MergedValue(Get(t, key), v)), next)
  }

  function MergeChains(t: Table, bs: seq<Chain>): (r: Table)
    requires Sized(t)
    ensures Sized(r)
    decreases bs, 3
  {
    if bs == [] then t else MergeChains(MergeChain(t, bs[0]), bs[1..])
  }

  /** The merge as the program makes it, entry by entry. */
  method DeepMergeHashes(base: Value, overlay: Value) returns (r: Value)
    ensures r == DeepMerge(base, overlay)
    decreases overlay, 0
  {
    if !base.Hash? {
      r := CopyValue(overlay);
      return;
    }
    var copy := CopyValue(base);
    if !overlay.Hash? {
      return copy;
    }
    hide Set, MergeChain;
    var t, buckets := copy.table, overlay.table.buckets;
    var i := 0;
    while i < |buckets|
      invariant 0 <= i <= |buckets| && Sized(t)
      invariant MergeChains(t, buckets[i..]) == MergeChains(CopyTable(base.table), buckets)
    {
      assert buckets[i..][0] == buckets[i] && buckets[i..][1..] == buckets[i + 1..];
      t := MergeEntries(t, buckets[i]);
      i := i + 1;
    }
    return Hash(t);
  }

  method MergeEntries(table: Table, chain: Chain) returns (t: Table)
    requires Sized(table)
    ensures t == MergeChain(table, chain)
    decreases chain, 1
  {
    var entry := chain;
    t := table;
    while entry.Node?
      invariant Sized(t) && (entry == chain || entry < chain)
      invariant MergeChain(t, entry) == MergeChain(table, chain)
      decreases entry
    {
      var existing := Get(t, entry.key);
      var merged;
      if existing.Some? && existing.value.Hash? && entry.value.Hash? {
        merged := DeepMergeHashes(existing.value, entry.value);
      } else {
        merged := CopyValue(entry.value);
      }
      t := Set(t, entry.key, merged);
      entry := entry.next;
    }
  }

  // ----- meanings -----

  /** A value without its representation: hashes are maps, at every depth. */
  datatype Meaning =
    | Scalar(v: Value)
    | List(items: seq<Meaning>)
    | Map(m: map<string, Meaning>)
    | Call(name: string, args: seq<Meaning>)

  ghost function Mean(v: Value): Meaning
    decreases v, 0
  {
    match v
    case Array(items) => List(MeanItems(items))
    case Hash(t) => Map(MeanBuckets(t.buckets))
    case Deferred(name, args) => Call(name, MeanItems(args))
    case _ => Scalar(v)
  }

  ghost function MeanItems(items: seq<Value>): (r: seq<Meaning>)
    ensures |r| == |items|
    ensures forall i :: 0 <= i < |items| ==> r[i] == Mean(items[i])
    decreases items, 1
  {
    if items == [] then [] else [Mean(items[0])] + MeanItems(items[1..])
  }

  ghost function MeanChain(c: Chain): (r: map<string, Meaning>)
    ensures r.Keys == ChainKeys(c)
    decreases c, 1
  {
    match c case Nil => map[] case Node(key, v, next) => MeanChain(next)[key := Mean(v)]
  }

  ghost function MeanBuckets(bs: seq<Chain>): map<string, Meaning>
    decreases bs, 2
  {
    if bs == [] then map[] else MeanBuckets(bs[1..]) + MeanChain(bs[0])
  }

  ghost function MeanTable(t: Table): map<string, Meaning> {
    MeanBuckets(t.buckets)
  }

  lemma {:induction false} MeanChainFinds(c: Chain, key: string)
    requires key in ChainKeys(c)
    ensures MeanChain(c)[key] == Mean(Find(c, key).value)
  {
    if c.key != key {
      MeanChainFinds(c.next, key);
    }
  }

  /** The buckets from i on hold exactly the keys that hash there. */
  lemma {:induction false} MeanBucketsFrom(t: Table, i: nat, key: string)
    requires Sized(t) && (forall b :: 0 <= b < BUCKETS ==> ChainRight(t.buckets[b], b)) && i <= BUCKETS
    ensures key in MeanBuckets(t.buckets[i..]) <==> BucketOf(key) >= i && key in ChainKeys(t.buckets[BucketOf(key)])
    ensures key in MeanBuckets(t.buckets[i..]) ==>
              MeanBuckets(t.buckets[i..])[key] == MeanChain(t.buckets[BucketOf(key)])[key]
    decreases BUCKETS - i
  {
    if i < BUCKETS {
      hide HashFrom, ChainRight, MeanChain;
      assert t.buckets[i..][0] == t.buckets[i] && t.buckets[i..][1..] == t.buckets[i + 1..];
      MeanBucketsFrom(t, i + 1, key);
      if key in ChainKeys(t.buckets[i]) {
        assert ChainRight(t.buckets[i], i);
        ChainBucket(t.buckets[i], i, key);
      }
    }
  }

  /** The meaning of a table is its content, value by value. */
  lemma MeanTableIs(t: Table, key: string)
    requires WellFormed(t)
    ensures key in MeanTable(t) <==> Get(t, key).Some?
    ensures key in MeanTable(t) ==> MeanTable(t)[key] == Mean(Get(t, key).value)
  {
    hide HashFrom, MeanBuckets;
    assert t.buckets[0..] == t.buckets;
    MeanBucketsFrom(t, 0, key);
    if Get(t, key).Some? {
      MeanChainFinds(t.buckets[BucketOf(key)], key);
    }
  }

  lemma MeanOfSet(t: Table, key: string, v: Value)
    requires WellFormed(t)
    ensures WellFormed(Set(t, key, v)) && MeanTable(Set(t, key, v)) == MeanTable(t)[key := Mean(v)]
  {
    hide MeanTable, Get, Set, BucketOf, Keys, ChainRight;
    var r := Set(t, key, v);
    SetWellFormed(t, key, v);
    forall k
      ensures k in MeanTable(r) <==> k in MeanTable(t) || k == key
      ensures k in MeanTable(r) ==> MeanTable(r)[k] == if k == key then Mean(v) else MeanTable(t)[k]
    {
      MeanTableIs(r, k);
      MeanTableIs(t, k);
      GetAfterSet(t, key, v, k);
    }
  }

  // ----- copies mean the same -----

  lemma {:induction false} CopyMeansSame(v: Value)
    requires DeepWellFormed(v)
    ensures Mean(Copy(v)) == Mean(v)
    decreases v, 0
  {
    match v
    case Array(items) => CopyItemsMeanSame(items);
    case Deferred(_, args) => CopyItemsMeanSame(args);
    case Hash(t) =>
      CopyTableMeansSame(t);
      assert Copy(v) == Hash(CopyTable(t));
    case _ =>
  }

  lemma {:induction false} CopyItemsMeanSame(items: seq<Value>)
    requires forall i :: 0 <= i < |items| ==> DeepWellFormed(items[i])
    ensures MeanItems(CopyItems(items)) == MeanItems(items)
    decreases items, 1
  {
    forall i | 0 <= i < |items|
      ensures MeanItems(CopyItems(items))[i] == MeanItems(items)[i]
    {
      CopyMeansSame(items[i]);
    }
  }

  lemma {:induction false} CopyTableMeansSame(t: Table)
    requires DeepWellFormed(Hash(t))
    ensures WellFormed(CopyTable(t)) && MeanTable(CopyTable(t)) == MeanTable(t)
    decreases t, 3
  {
    hide CopyTable, MeanTable, Get, HashFrom, Keys, ChainRight, Mean, Copy;
    CopyKeepsContent(t);
    forall k
      ensures k in MeanTable(CopyTable(t)) <==> k in MeanTable(t)
      ensures k in MeanTable(t) ==> MeanTable(CopyTable(t))[k] == MeanTable(t)[k]
    {
      MeanTableIs(t, k);
      MeanTableIs(CopyTable(t), k);
      CopyGets(t, k);
      CopyGetMeansSame(t, k);
    }
  }

  lemma {:induction false} CopyGetMeansSame(t: Table, key: string)
    requires DeepWellFormed(Hash(t))
    ensures Get(t, key).Some? ==> Mean(Copy(Get(t, key).value)) == Mean(Get(t, key).value)
    decreases t, 2
  {
    assert DeepChain(t.buckets[BucketOf(key)]);
    CopyFoundMeansSame(t.buckets[BucketOf(key)], key);
  }

  lemma {:induction false} CopyFoundMeansSame(c: Chain, key: string)
    requires DeepChain(c)
    ensures key in ChainKeys(c) ==> Mean(Copy(Find(c, key).value)) == Mean(Find(c, key).value)
    decreases c, 1
  {
    if c.Node? {
      CopyMeansSame(c.value);
      CopyFoundMeansSame(c.next, key);
    }
  }

  // ----- merging meanings -----

  /** The overlay's value wins, except that two maps are merged. */
  ghost function MergeMeaning(a: Meaning, b: Meaning): (r: Meaning)
    ensures a.Map? && b.Map? ==> r.Map?
    decreases b
  {
    if !a.Map? then b
    else if !b.Map? then a
    else
      Map(map k | k in a.m.Keys + b.m.Keys ::
            if k !in b.m then a.m[k]
            else if k in a.m && a.m[k].Map? && b.m[k].Map? then MergeMeaning(a.m[k], b.m[k])
            else b.m[k])
  }

  /** The merge at one key. */
  ghost function MergedAt(a: map<string, Meaning>, b: Meaning, k: string): Meaning {
    if k in a && a[k].Map? && b.Map? then MergeMeaning(a[k], b) else b
  }

  ghost function Overlay(a: map<string, Meaning>, b: map<string, Meaning>): (r: map<string, Meaning>)
    ensures r.Keys == a.Keys + b.Keys
    ensures forall k :: k in b ==> r[k] == MergedAt(a, b[k], k)
    ensures forall k :: k in a && k !in b ==> r[k] == a[k]
  {
    map k | k in a.Keys + b.Keys :: if k !in b then a[k] else MergedAt(a, b[k], k)
  }

  lemma MergeOfMaps(a: map<string, Meaning>, b: map<string, Meaning>)
    ensures MergeMeaning(Map(a), Map(b)) == Map(Overlay(a, b))
  {
    assert MergeMeaning(Map(a), Map(b)).m == Overlay(a, b);
  }

  lemma OverlayStep(mt: map<string, Meaning>, key: string, v: Meaning, rest: map<string, Meaning>)
    requires key !in rest
    ensures Overlay(mt[key := MergedAt(mt, v, key)], rest) == Overlay(mt, rest[key := v])
  {
    hide MergedAt;
    var l, r := Overlay(mt[key := MergedAt(mt, v, key)], rest), Overlay(mt, rest[key := v]);
    forall k | k in l
      ensures l[k] == r[k]
    {
      if k in rest {
        MergedAtOther(mt, key, MergedAt(mt, v, key), rest[k], k);
      }
    }
  }

  lemma MergedAtOther(mt: map<string, Meaning>, key: string, w: Meaning, b: Meaning, k: string)
    requires k != key
    ensures MergedAt(mt[key := w], b, k) == MergedAt(mt, b, k)
  {
  }

  // ----- the algorithm refines the merge of meanings -----

  ghost predicate DeepTable(t: Table) {
    DeepWellFormed(Hash(t))
  }

  lemma {:induction false} DeepFind(c: Chain, key: string)
    requires DeepChain(c) && key in ChainKeys(c)
    ensures DeepWellFormed(Find(c, key).value)
  {
    if c.key != key {
      DeepFind(c.next, key);
    }
  }

  lemma {:induction false} DeepOverwrite(c: Chain, key: string, v: Value)
    requires DeepChain(c) && DeepWellFormed(v)
    ensures DeepChain(Overwrite(c, key, v))
  {
    if c.Node? {
      DeepOverwrite(c.next, key, v);
    }
  }

  lemma DeepSet(t: Table, key: string, v: Value)
    requires DeepTable(t) && DeepWellFormed(v)
    ensures DeepTable(Set(t, key, v))
  {
    var r, b := Set(t, key, v), BucketOf(key);
    SetWellFormed(t, key, v);
    assert DeepChain(t.buckets[b]);
    DeepOverwrite(t.buckets[b], key, v);
    forall c | 0 <= c < BUCKETS
      ensures DeepChain(r.buckets[c])
    {
      assert DeepChain(t.buckets[c]);
    }
  }

  lemma {:induction false} DeepCopy(v: Value)
    requires DeepWellFormed(v)
    ensures DeepWellFormed(Copy(v))
    decreases v, 0
  {
    match v
    case Array(items) =>
      forall i | 0 <= i < |items|
        ensures DeepWellFormed(CopyItems(items)[i])
      {
        DeepCopy(items[i]);
      }
    case Deferred(_, args) =>
      forall i | 0 <= i < |args|
        ensures DeepWellFormed(CopyItems(args)[i])
      {
        DeepCopy(args[i]);
      }
    case Hash(t) =>
      CopyKeepsContent(t);
      forall b | 0 <= b < BUCKETS
        ensures DeepChain(CopyTable(t).buckets[b])
      {
        assert DeepChain(t.buckets[b]);
        DeepCopyChain(t.buckets[b]);
        CopyReversesChains(t, b);
        DeepRevAppend(CopyChain(t.buckets[b]), Nil);
      }
      assert Copy(v) == Hash(CopyTable(t));
    case _ =>
  }

  lemma {:induction false} DeepCopyChain(c: Chain)
    requires DeepChain(c)
    ensures DeepChain(CopyChain(c))
    decreases c, 1
  {
    if c.Node? {
      DeepCopy(c.value);
      DeepCopyChain(c.next);
    }
  }

  lemma {:induction false} DeepRevAppend(c: Chain, acc: Chain)
    requires DeepChain(c) && DeepChain(acc)
    ensures DeepChain(RevAppend(c, acc))
    decreases c
  {
    if c.Node? {
      DeepRevAppend(c.next, Node(c.key, c.value, acc));
    }
  }

  /** The bucket-by-bucket merge is the merge of the meanings, and its result is well formed at every depth. */
  lemma {:induction false} DeepMergeMeans(base: Value, overlay: Value)
    requires DeepWellFormed(base) && DeepWellFormed(overlay)
    ensures DeepWellFormed(DeepMerge(base, overlay))
    ensures Mean(DeepMerge(base, overlay)) == MergeMeaning(Mean(base), Mean(overlay))
    decreases overlay, 0, 0
  {
    DeepCopy(base);
    CopyMeansSame(base);
    if !base.Hash? {
      DeepCopy(overlay);
      CopyMeansSame(overlay);
    } else if overlay.Hash? {
      var t := CopyTable(base.table);
      assert Copy(base) == Hash(t);
      assert overlay.table.buckets[0..] == overlay.table.buckets;
      MergeChainsMean(t, overlay.table.buckets, 0);
      MergeOfMaps(MeanTable(t), MeanTable(overlay.table));
    }
  }

  lemma {:induction false} MergedValueMeans(t: Table, key: string, v: Value)
    requires DeepTable(t) && DeepWellFormed(v)
    ensures DeepWellFormed(MergedValue(Get(t, key), v))
    ensures Mean(MergedValue(Get(t, key), v)) == MergedAt(MeanTable(t), Mean(v), key)
    decreases v, 1, 0
  {
    hide MeanTable, Find, BucketOf, Copy, DeepMerge, DeepChain;
    MeanTableIs(t, key);
    var existing := Get(t, key);
    if existing.Some? {
      assert DeepChain(t.buckets[BucketOf(key)]);
      DeepFind(t.buckets[BucketOf(key)], key);
    }
    if existing.Some? && existing.value.Hash? && v.Hash? {
      DeepMergeMeans(existing.value, v);
    } else {
      DeepCopy(v);
      CopyMeansSame(v);
    }
  }

  lemma {:induction false} MergeChainMeans(t: Table, c: Chain, b: nat)
    requires DeepTable(t) && DeepChain(c) && ChainRight(c, b)
    ensures DeepTable(MergeChain(t, c))
    ensures MeanTable(MergeChain(t, c)) == Overlay(MeanTable(t), MeanChain(c))
    decreases c, 2, 0
  {
    match c
    case Nil =>
      assert Overlay(MeanTable(t), map[]) == MeanTable(t);
    case Node(key, v, next) =>
      hide MeanTable, Set, Get, MergedValue, Overlay, MergedAt, Mean, BucketOf;
      var merged := MergedValue(Get(t, key), v);
      MergedValueMeans(t, key, v);
      DeepSet(t, key, merged);
      MeanOfSet(t, key, merged);
      MergeChainMeans(Set(t, key, merged), next, b);
      OverlayStep(MeanTable(t), key, Mean(v), MeanChain(next));
  }

  lemma OverlayDisjoint(mt: map<string, Meaning>, first: map<string, Meaning>, rest: map<string, Meaning>)
    requires first.Keys !! rest.Keys
    ensures Overlay(Overlay(mt, first), rest) == Overlay(mt, rest + first)
  {
    var l, r := Overlay(Overlay(mt, first), rest), Overlay(mt, rest + first);
    forall k | k in l
      ensures l[k] == r[k]
    {
      assert k in rest ==> k !in first;
    }
  }

  lemma BucketsStep(t: Table, bs: seq<Chain>, i: nat)
    requires Sized(t) && i < |bs|
    ensures MergeChains(t, bs[i..]) == MergeChains(MergeChain(t, bs[i]), bs[i + 1..])
    ensures MeanBuckets(bs[i..]) == MeanBuckets(bs[i + 1..]) + MeanChain(bs[i])
  {
    hide MergeChain, MeanChain;
    assert bs[i..][0] == bs[i] && bs[i..][1..] == bs[i + 1..];
  }

  lemma {:induction false} MergeChainsMean(t: Table, bs: seq<Chain>, i: nat)
    requires DeepTable(t) && ChainsRight(bs) && (forall b :: 0 <= b < BUCKETS ==> DeepChain(bs[b])) && i <= BUCKETS
    ensures DeepTable(MergeChains(t, bs[i..]))
    ensures MeanTable(MergeChains(t, bs[i..])) == Overlay(MeanTable(t), MeanBuckets(bs[i..]))
    decreases bs, 3, BUCKETS - i
  {
    if i == BUCKETS {
      assert Overlay(MeanTable(t), map[]) == MeanTable(t);
    } else {
      hide MeanTable, MergeChain, MergeChains, MeanBuckets, Overlay, MeanChain, ChainRight, DeepChain;
      assert ChainRight(bs[i], i) && DeepChain(bs[i]);
      BucketsStep(t, bs, i);
      MergeChainMeans(t, bs[i], i);
      MergeChainsMean(MergeChain(t, bs[i]), bs, i + 1);
      LaterBucketsDiffer(bs, i);
      OverlayDisjoint(MeanTable(t), MeanChain(bs[i]), MeanBuckets(bs[i + 1..]));
    }
  }

  lemma LaterBucketsDiffer(bs: seq<Chain>, i: nat)
    requires ChainsRight(bs) && i < BUCKETS
    ensures MeanChain(bs[i]).Keys !! MeanBuckets(bs[i + 1..]).Keys
  {
    hide MeanBuckets, MeanChain, BucketOf;
    var t := Table(bs, 0);
    forall key | key in MeanChain(bs[i]) && key in MeanBuckets(bs[i + 1..])
      ensures false
    {
      assert ChainRight(bs[i], i);
      ChainBucket(bs[i], i, key);
      MeanBucketsFrom(t, i + 1, key);
    }
  }
}
