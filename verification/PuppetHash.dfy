/** The chained hash table as the linked structure the program updates in place. */
module PuppetHash {
  import opened Common
  import opened PuppetValue

  /** One entry of a bucket; only its value ever changes. */
  class Entry {
    const key: string
    var value: Value
    const next: Entry?

    constructor (key: string, value: Value, next: Entry?)
      ensures this.key == key && this.value == value && this.next == next
    {
      this.key, this.value, this.next := key, value, next;
    }
  }

  /** The linked entries from e on, with these values, are those of the chain. */
  ghost predicate Holds(e: Entry?, c: Chain, values: map<Entry, Value>)
    decreases c
  {
    match c
    case Nil => e == null
    case Node(key, value, rest) =>
      e != null && e in values && e.key == key && values[e] == value && Holds(e.next, rest, values)
  }

  /** The first linked entry with this key. */
  ghost function EntryFor(e: Entry?, c: Chain, values: map<Entry, Value>, key: string): Entry?
    requires Holds(e, c, values)
    decreases c
  {
    match c
    case Nil => null
    case Node(k, _, rest) => if k == key then e else EntryFor(e.next, rest, values, key)
  }

  /** A chain without the key does not notice that an entry of the key is new or has changed. */
  lemma {:induction false} HoldsWithout(e: Entry?, c: Chain, values: map<Entry, Value>, x: Entry, value: Value)
    requires Holds(e, c, values) && (x.key !in ChainKeys(c) || x !in values)
    ensures Holds(e, c, values[x := value])
    decreases c
  {
    if c.Node? {
      HoldsWithout(e.next, c.next, values, x, value);
    }
  }

  /** Changing the value of the key's entry overwrites it in its chain. */
  lemma {:induction false} HoldsOverwritten(e: Entry?, c: Chain, values: map<Entry, Value>, x: Entry, value: Value, b: nat)
    requires Holds(e, c, values) && ChainRight(c, b)
    requires EntryFor(e, c, values, x.key) == x
    ensures Holds(e, Overwrite(c, x.key, value), values[x := value])
    decreases c
  {
    if c.key == x.key {
      HoldsWithout(e.next, c.next, values, x, value);
    } else {
      HoldsOverwritten(e.next, c.next, values, x, value, b);
    }
  }

  /** Each bucket's linked entries are the chain of the table. */
  ghost predicate BucketsHold(heads: seq<Entry?>, t: Table, values: map<Entry, Value>) {
    |heads| == |t.buckets| && forall b :: 0 <= b < |heads| ==> Holds(heads[b], t.buckets[b], values)
  }

  /** Changing the value of a key's entry sets the key in the table. */
  lemma OverwrittenTable(heads: seq<Entry?>, t: Table, values: map<Entry, Value>, x: Entry, value: Value)
    requires WellFormed(t) && BucketsHold(heads, t, values)
    requires EntryFor(heads[BucketOf(x.key)], t.buckets[BucketOf(x.key)], values, x.key) == x
    requires x.key in ChainKeys(t.buckets[BucketOf(x.key)])
    ensures BucketsHold(heads, Set(t, x.key, value), values[x := value])
  {
    var r := Set(t, x.key, value);
    forall b | 0 <= b < BUCKETS
      ensures Holds(heads[b], r.buckets[b], values[x := value])
    {
      assert ChainRight(t.buckets[b], b) && Holds(heads[b], t.buckets[b], values);
      if b == BucketOf(x.key) {
        HoldsOverwritten(heads[b], t.buckets[b], values, x, value, b);
      } else {
        if x.key in ChainKeys(t.buckets[b]) {
          ChainBucket(t.buckets[b], b, x.key);
        }
        HoldsWithout(heads[b], t.buckets[b], values, x, value);
      }
    }
  }

  /** Linking a new entry in front of its bucket sets a key the table lacks. */
  lemma PrependedTable(heads: seq<Entry?>, t: Table, values: map<Entry, Value>, x: Entry, value: Value)
    requires Sized(t) && BucketsHold(heads, t, values) && x !in values
    requires x.key !in ChainKeys(t.buckets[BucketOf(x.key)]) && x.next == heads[BucketOf(x.key)]
    ensures BucketsHold(heads[BucketOf(x.key) := x], Set(t, x.key, value), values[x := value])
  {
    forall b | 0 <= b < BUCKETS
      ensures Holds(heads[b], t.buckets[b], values[x := value])
    {
      HoldsWithout(heads[b], t.buckets[b], values, x, value);
    }
  }

  /** The bucket of a key, as chain and as linked entries. */
  lemma BucketHolds(heads: seq<Entry?>, t: Table, values: map<Entry, Value>, key: string)
    requires WellFormed(t) && BucketsHold(heads, t, values)
    ensures Sized(t) && |heads| == BUCKETS && Holds(heads[BucketOf(key)], t.buckets[BucketOf(key)], values)
  {
  }

  /** A set counts a new key, and a known one not again. */
  lemma SetCounts(t: Table, key: string, value: Value)
    requires Sized(t)
    ensures PuppetValue.Set(t, key, value).count == t.count + if Find(t.buckets[BucketOf(key)], key).Some? then 0 else 1
  {
  }

  /** What looking at one linked entry of a chain tells. */
  lemma LookedAt(e: Entry?, c: Chain, values: map<Entry, Value>, key: string)
    requires Holds(e, c, values)
    ensures e == null ==> c == Nil && Find(c, key) == None
    ensures e != null ==> e in values && c.Node? && values[e] == c.value && Holds(e.next, c.next, values)
    ensures e != null && e.key == key ==> Find(c, key) == Some(c.value) && EntryFor(e, c, values, key) == e
    ensures e != null && e.key != key ==>
              Find(c, key) == Find(c.next, key) && EntryFor(e, c, values, key) == EntryFor(e.next, c.next, values, key)
  {
  }

  class HashTable {
    const buckets: array<Entry?>
    var count: nat
    /** The table as a value, and the value of every entry. */
    ghost var table: Table
    ghost var values: map<Entry, Value>

    ghost predicate Valid()
      reads this, buckets, values.Keys
    {
      && WellFormed(table)
      && count == table.count
      && BucketsHold(buckets[..], table, values)
      && forall e :: e in values ==> e.value == values[e]
    }

    constructor ()
      ensures Valid() && fresh(buckets) && table == EmptyTable() && values == map[]
    {
      buckets := new Entry?[BUCKETS](_ => null);
      count := 0;
      table, values := EmptyTable(), map[];
      new;
      EmptyContent();
    }

    /** The value stored under the key, if there is one. */
    method Get(key: string) returns (r: Option<Value>)
      requires Valid()
      ensures r == if key in Content(table) then Some(Content(table)[key]) else None
    {
      GetReadsContent(table, key);
      var entry := buckets[BucketOf(key)];
      ghost var rest := table.buckets[BucketOf(key)];
      while entry != null
        invariant Holds(entry, rest, values)
        invariant Find(rest, key) == PuppetValue.Get(table, key)
        decreases rest
      {
        if entry.key == key {
          return Some(entry.value);
        }
        entry, rest := entry.next, rest.next;
      }
      return None;
    }

    /** Link a new entry in front of the key's bucket. */
    method Prepend(key: string, value: Value)
      requires Valid() && key !in ChainKeys(table.buckets[BucketOf(key)])
      modifies this, buckets
      ensures Valid() && fresh(values.Keys - old(values.Keys))
      ensures table == PuppetValue.Set(old(table), key, value)
    {
      hide HashFrom, BucketOf, Content, Keys, SetInChain, WellFormed, BucketsHold, PuppetValue.Set, ChainKeys;
      ghost var heads := buckets[..];
      SetUpdatesContent(table, key, value);
      BucketHolds(heads, table, values, key);
      SetCounts(table, key, value);
      var b := BucketOf(key);
      var entry := new Entry(key, value, buckets[b]);
      PrependedTable(heads, table, values, entry, value);
      buckets[b] := entry;
      count := count + 1;
      table, values := PuppetValue.Set(table, key, value), values[entry := value];
      assert buckets[..] == heads[b := entry] && values.Keys == old(values).Keys + {entry};
    }

    /** Overwrite the key's entry, or link a new one in front of its bucket. */
    method Set(key: string, value: Value)
      requires Valid()
      modifies this, buckets, values.Keys
      ensures Valid() && fresh(values.Keys - old(values.Keys))
      ensures table == PuppetValue.Set(old(table), key, value)
      ensures Content(table) == Content(old(table))[key := value]
      ensures count == |Content(table)|
    {
      hide HashFrom, BucketOf, Content, Keys, SetInChain, WellFormed, BucketsHold, Holds, EntryFor, Find, PuppetValue.Set,
        ChainKeys;
      SetUpdatesContent(table, key, value);
      ghost var heads := buckets[..];
      BucketHolds(heads, table, values, key);
      SetCounts(table, key, value);
      var b := BucketOf(key);
      ghost var chain := table.buckets[b];
      var entry := buckets[b];
      assert heads[b] == entry && Holds(heads[b], chain, values);
      ghost var rest := chain;
      while entry != null
        invariant Valid() && heads == buckets[..] && table == old(table) && values == old(values)
        invariant Holds(heads[b], chain, values) && Holds(entry, rest, values)
        invariant Find(rest, key) == Find(chain, key)
        invariant EntryFor(entry, rest, values, key) == EntryFor(heads[b], chain, values, key)
        decreases rest
      {
        LookedAt(entry, rest, values, key);
        if entry.key == key {
          OverwrittenTable(heads, table, values, entry, value);
          entry.value := value;
          table, values := PuppetValue.Set(table, key, value), values[entry := value];
          assert buckets[..] == heads && values.Keys == old(values).Keys;
          return;
        }
        entry, rest := entry.next, rest.next;
      }
      LookedAt(entry, rest, values, key);
      Prepend(key, value);
    }
  }
}
