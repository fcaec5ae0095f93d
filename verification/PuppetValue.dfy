/** Puppet values with their chained hash tables, as plain values. */
module PuppetValue {
  import opened Common

  /** The table of a hash value has this many buckets. */
  const BUCKETS: nat := 16

  datatype Value =
    | Undef
    | Boolean(b: bool)
    | Number(n: real)
    | Str(s: string)
    | Regexp(pattern: string)
    | TypeRef(id: nat)
    | Array(items: seq<Value>)
    | Hash(table: Table)
    | Deferred(name: string, args: seq<Value>)

  /** A bucket: the linked entries of one chain. */
  datatype Chain = Nil | Node(key: string, value: Value, next: Chain)

  /** `count` is the table's own entry counter. */
  datatype Table = Table(buckets: seq<Chain>, count: nat)

  // ----- hashing -----

  /** A char of C: eight bits, signed. */
  function SignedChar(c: char): int {
    var b := c as int % 256;
    if b < 128 then b else b - 256
  }

  /** The 32-bit hash of a key: times 33 plus the next character, from 5381. */
  function HashFrom(key: string, h: nat): nat {
    if key == "" then h else HashFrom(key[1..], (33 * h + SignedChar(key[0])) % 0x1_0000_0000)
  }

  function BucketOf(key: string): (b: nat)
    ensures b < BUCKETS
  {
    HashFrom(key, 5381) % BUCKETS
  }

  /** The sum of the bytes of a key. */
  function ByteSum(key: string): nat {
    if key == "" then 0 else key[0] as int % 256 + ByteSum(key[1..])
  }

  lemma WrapKeepsBucket(x: int, y: int)
    requires exists k :: x == y + 16 * k
    ensures x % 0x1_0000_0000 % 16 == y % 16
  {
    var k :| x == y + 16 * k;
    var q, r := x / 0x1_0000_0000, x % 0x1_0000_0000;
    assert x == 16 * (0x1000_0000 * q) + r;
    SameRemainder(r, y, k - 0x1000_0000 * q);
  }

  lemma SameRemainder(x: int, y: int, k: int)
    requires x == y + 16 * k
    ensures x % 16 == y % 16
  {
  }

  lemma {:induction false} HashIsSum(key: string, h: nat)
    ensures HashFrom(key, h) % 16 == (h + ByteSum(key)) % 16
  {
    if key != "" {
      var c, b := SignedChar(key[0]), key[0] as int % 256;
      var next := (33 * h + c) % 0x1_0000_0000;
      assert 33 * h + c == h + b + 16 * (2 * h + if b < 128 then 0 else -16);
      WrapKeepsBucket(33 * h + c, h + b);
      HashIsSum(key[1..], next);
      SameRemainder(next + ByteSum(key[1..]), h + b + ByteSum(key[1..]), next / 16 - (h + b) / 16);
    }
  }

  /** With 16 buckets the factor 33 has no effect: the bucket depends on the sum of the bytes alone. */
  lemma BucketIsSum(key: string)
    ensures BucketOf(key) == (5 + ByteSum(key)) % 16
  {
    HashIsSum(key, 5381);
    SameRemainder(5381 + ByteSum(key), 5 + ByteSum(key), 336);
  }

  lemma {:induction false} ByteSumWithout(key: string, j: nat)
    requires j < |key|
    ensures ByteSum(key) == key[j] as int % 256 + ByteSum(key[..j] + key[j + 1..])
  {
    if j == 0 {
      assert key[..0] + key[1..] == key[1..];
    } else {
      ByteSumWithout(key[1..], j - 1);
      assert (key[..j] + key[j + 1..])[1..] == key[1..][..j - 1] + key[1..][j..];
    }
  }

  lemma LettersWithout(key: string, j: nat)
    requires j < |key|
    ensures multiset(key[..j] + key[j + 1..]) == multiset(key) - multiset{key[j]}
    ensures |key[..j] + key[j + 1..]| < |key|
  {
    assert key == key[..j] + ([key[j]] + key[j + 1..]);
    assert multiset([key[j]] + key[j + 1..]) == multiset{key[j]} + multiset(key[j + 1..]);
  }

  lemma {:induction false} SameLettersSum(a: string, b: string)
    requires multiset(a) == multiset(b)
    ensures ByteSum(a) == ByteSum(b)
    decreases |a|
  {
    hide ByteSum;
    if a == "" || b == "" {
      assert |a| == |multiset(a)| && |b| == |multiset(b)|;
    } else {
      assert a[0] in multiset(b);
      var j :| 0 <= j < |b| && b[j] == a[0];
      LettersWithout(a, 0);
      LettersWithout(b, j);
      ByteSumWithout(a, 0);
      ByteSumWithout(b, j);
      SameLettersSum(a[..0] + a[1..], b[..j] + b[j + 1..]);
    }
  }

  lemma SameLettersCollide(a: string, b: string)
    requires multiset(a) == multiset(b)
    ensures BucketOf(a) == BucketOf(b)
  {
    BucketIsSum(a);
    BucketIsSum(b);
    SameLettersSum(a, b);
  }

  // ----- chains -----

  ghost function ChainKeys(chain: Chain): set<string> {
    match chain case Nil => {} case Node(key, _, next) => {key} + ChainKeys(next)
  }

  /** The value of the first entry with this key. */
  function Find(chain: Chain, key: string): (r: Option<Value>)
    ensures r.Some? <==> key in ChainKeys(chain)
  {
    match chain
    case Nil => None
    case Node(k, v, next) => if k == key then Some(v) else Find(next, key)
  }

  /** Overwrite the value of the first entry with this key. */
  function Overwrite(chain: Chain, key: string, value: Value): (r: Chain)
    ensures ChainKeys(r) == ChainKeys(chain)
  {
    match chain
    case Nil => Nil
    case Node(k, v, next) => if k == key then Node(k, value, next) else Node(k, v, Overwrite(next, key, value))
  }

  /** Overwrite in place, or put a new entry in front. */
  function SetInChain(chain: Chain, key: string, value: Value): (r: Chain)
    ensures ChainKeys(r) == ChainKeys(chain) + {key}
  {
    if Find(chain, key).Some? then Overwrite(chain, key, value) else Node(key, value, chain)
  }

  /** Every entry belongs in bucket b and no key occurs twice. */
  ghost predicate ChainRight(chain: Chain, b: nat) {
    match chain
    case Nil => true
    case Node(key, _, next) => BucketOf(key) == b && key !in ChainKeys(next) && ChainRight(next, b)
  }

  lemma {:induction false} ChainBucket(chain: Chain, b: nat, key: string)
    requires ChainRight(chain, b) && key in ChainKeys(chain)
    ensures BucketOf(key) == b
  {
    if chain.key != key {
      ChainBucket(chain.next, b, key);
    }
  }

  lemma {:induction false} OverwriteRight(chain: Chain, key: string, value: Value, b: nat)
    requires ChainRight(chain, b)
    ensures ChainRight(Overwrite(chain, key, value), b)
  {
    if chain.Node? {
      OverwriteRight(chain.next, key, value, b);
    }
  }

  lemma SetInChainRight(chain: Chain, key: string, value: Value)
    requires ChainRight(chain, BucketOf(key))
    ensures ChainRight(SetInChain(chain, key, value), BucketOf(key))
  {
    OverwriteRight(chain, key, value, BucketOf(key));
  }

  lemma {:induction false} OverwriteFinds(chain: Chain, key: string, value: Value, k: string)
    ensures Find(Overwrite(chain, key, value), k) == if k == key && key in ChainKeys(chain) then Some(value) else Find(chain, k)
  {
    if chain.Node? {
      OverwriteFinds(chain.next, key, value, k);
    }
  }

  // ----- tables -----

  function EmptyTable(): (t: Table)
    ensures |t.buckets| == BUCKETS && t.count == 0
    ensures forall b :: 0 <= b < BUCKETS ==> t.buckets[b] == Nil
  {
    Table(seq(BUCKETS, _ => Nil), 0)
  }

  predicate Sized(t: Table) {
    |t.buckets| == BUCKETS
  }

  function Get(t: Table, key: string): Option<Value>
    requires Sized(t)
  {
    Find(t.buckets[BucketOf(key)], key)
  }

  function Set(t: Table, key: string, value: Value): (r: Table)
    requires Sized(t)
    ensures Sized(r)
  {
    var b := BucketOf(key);
    Table(t.buckets[b := SetInChain(t.buckets[b], key, value)], if Get(t, key).Some? then t.count else t.count + 1)
  }

  ghost function Keys(t: Table): set<string> {
    set b, k | 0 <= b < |t.buckets| && k in ChainKeys(t.buckets[b]) :: k
  }

  /** Every entry is in the bucket of its key, keys are distinct, and the counter is the number of keys. */
  ghost predicate WellFormed(t: Table) {
    && Sized(t)
    && (forall b :: 0 <= b < BUCKETS ==> ChainRight(t.buckets[b], b))
    && t.count == |Keys(t)|
  }

  lemma KeyIsFound(t: Table, key: string)
    requires WellFormed(t)
    ensures key in Keys(t) <==> Get(t, key).Some?
  {
    if key in Keys(t) {
      var b :| 0 <= b < |t.buckets| && key in ChainKeys(t.buckets[b]);
      ChainBucket(t.buckets[b], b, key);
    }
  }

  ghost function Lookup(t: Table, key: string): Value
    requires WellFormed(t) && key in Keys(t)
  {
    KeyIsFound(t, key);
    Get(t, key).value
  }

  /** The finite map a table stands for. */
  ghost function Content(t: Table): (m: map<string, Value>)
    requires WellFormed(t)
    ensures m.Keys == Keys(t)
  {
    map key | key in Keys(t) :: Lookup(t, key)
  }

  /** Reading the table is reading the map. */
  lemma GetReadsContent(t: Table, key: string)
    requires WellFormed(t)
    ensures Get(t, key) == if key in Content(t) then Some(Content(t)[key]) else None
  {
    KeyIsFound(t, key);
  }

  lemma KeysOfSet(t: Table, key: string, value: Value)
    requires WellFormed(t)
    ensures Keys(Set(t, key, value)) == Keys(t) + {key}
  {
    var r, b := Set(t, key, value), BucketOf(key);
    forall k
      ensures k in Keys(r) <==> k in Keys(t) || k == key
    {
      if k in Keys(t) {
        var c :| 0 <= c < |t.buckets| && k in ChainKeys(t.buckets[c]);
        assert k in ChainKeys(r.buckets[c]);
      }
      if k in Keys(r) {
        var c :| 0 <= c < |r.buckets| && k in ChainKeys(r.buckets[c]);
        assert k in ChainKeys(t.buckets[c]) || k == key;
      }
      assert key in ChainKeys(r.buckets[b]);
    }
  }

  lemma SetWellFormed(t: Table, key: string, value: Value)
    requires WellFormed(t)
    ensures WellFormed(Set(t, key, value))
  {
    hide HashFrom, Keys, ChainRight, SetInChain;
    var r, b := Set(t, key, value), BucketOf(key);
    SetInChainRight(t.buckets[b], key, value);
    forall c | 0 <= c < BUCKETS
      ensures ChainRight(r.buckets[c], c)
    {
      assert ChainRight(t.buckets[c], c);
    }
    KeysOfSet(t, key, value);
    KeyIsFound(t, key);
    CountWith(Keys(t), key);
  }

  lemma CountWith(keys: set<string>, key: string)
    ensures |keys + {key}| == if key in keys then |keys| else |keys| + 1
  {
    if key in keys {
      assert keys + {key} == keys;
    }
  }

  lemma GetAfterSet(t: Table, key: string, value: Value, k: string)
    requires Sized(t)
    ensures Get(Set(t, key, value), k) == if k == key then Some(value) else Get(t, k)
  {
    OverwriteFinds(t.buckets[BucketOf(key)], key, value, k);
  }

  /** A set is a map update, keeps the table well formed, and the counter stays the size of the map. */
  lemma SetUpdatesContent(t: Table, key: string, value: Value)
    requires WellFormed(t)
    ensures WellFormed(Set(t, key, value))
    ensures Content(Set(t, key, value)) == Content(t)[key := value]
    ensures Set(t, key, value).count == |Content(t)[key := value]|
  {
    hide Get, Set, Keys, HashFrom, BucketOf, ChainRight;
    var r := Set(t, key, value);
    SetWellFormed(t, key, value);
    KeysOfSet(t, key, value);
    forall k | k in Keys(r)
      ensures Lookup(r, k) == if k == key then value else Content(t)[k]
    {
      KeyIsFound(r, k);
      KeyIsFound(t, k);
      GetAfterSet(t, key, value, k);
    }
    assert Content(r) == Content(t)[key := value];
    assert r.count == |Content(r).Keys|;
  }

  lemma EmptyContent()
    ensures WellFormed(EmptyTable()) && Content(EmptyTable()) == map[]
  {
    assert Keys(EmptyTable()) == {};
  }

  /** A list of sets, one after the other. */
  function SetAll(t: Table, sets: seq<(string, Value)>): (r: Table)
    requires Sized(t)
    ensures Sized(r)
  {
    if sets == [] then t
    else Set(SetAll(t, sets[..|sets| - 1]), sets[|sets| - 1].0, sets[|sets| - 1].1)
  }

  ghost function UpdateAll(m: map<string, Value>, sets: seq<(string, Value)>): map<string, Value> {
    if sets == [] then m else UpdateAll(m, sets[..|sets| - 1])[sets[|sets| - 1].0 := sets[|sets| - 1].1]
  }

  /** After any sequence of sets the table is the map of those updates and counts its keys. */
  lemma {:induction false} SetAllRefines(t: Table, sets: seq<(string, Value)>)
    requires WellFormed(t)
    ensures WellFormed(SetAll(t, sets)) && Content(SetAll(t, sets)) == UpdateAll(Content(t), sets)
    ensures SetAll(t, sets).count == |UpdateAll(Content(t), sets)|
  {
    if sets != [] {
      var init, last := sets[..|sets| - 1], sets[|sets| - 1];
      SetAllRefines(t, init);
      SetUpdatesContent(SetAll(t, init), last.0, last.1);
    } else {
      assert t.count == |Content(t).Keys|;
    }
  }
}
