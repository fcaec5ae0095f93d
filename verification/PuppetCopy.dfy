/** The recursive deep copy of a value, which fills fresh tables by repeated sets. */
module PuppetCopy {
  import opened Common
  import opened PuppetValue

  /** The copy of a value; a table is copied by setting its entries, chain by chain, in a fresh table. */
  function Copy(v: Value): Value
    decreases v, 0
  {
    match v
    case Array(items) => Array(CopyItems(items))
    case Hash(t) => Hash(AddChains(EmptyTable(), CopyChains(t.buckets)))
    case Deferred(name, args) => Deferred(name, CopyItems(args))
    case _ => v
  }

  function CopyItems(items: seq<Value>): (r: seq<Value>)
    ensures |r| == |items|
    ensures forall i :: 0 <= i < |items| ==> r[i] == Copy(items[i])
    decreases items, 1
  {
    if items == [] then [] else [Copy(items[0])] + CopyItems(items[1..])
  }

  /** The same entries in the same order, each value copied. */
  function CopyChain(c: Chain): (r: Chain)
    ensures ChainKeys(r) == ChainKeys(c)
    decreases c, 1
  {
    match c case Nil => Nil case Node(key, value, next) => Node(key, Copy(value), CopyChain(next))
  }

  function CopyChains(bs: seq<Chain>): (r: seq<Chain>)
    ensures |r| == |bs|
    ensures forall b :: 0 <= b < |bs| ==> r[b] == CopyChain(bs[b])
    decreases bs, 2
  {
    if bs == [] then [] else [CopyChain(bs[0])] + CopyChains(bs[1..])
  }

  function CopyTable(t: Table): (r: Table)
    ensures Sized(r)
  {
    AddChains(EmptyTable(), CopyChains(t.buckets))
  }

  /** Set the entries of a chain, first to last. */
  function AddChain(t: Table, c: Chain): (r: Table)
    requires Sized(t)
    ensures Sized(r)
    decreases c
  {
    match c case Nil => t case Node(key, value, next) => AddChain(Set(t, key, value), next)
  }

  function AddChains(t: Table, bs: seq<Chain>): (r: Table)
    requires Sized(t)
    ensures Sized(r)
    decreases |bs|
  {
    if bs == [] then t else AddChains(AddChain(t, bs[0]), bs[1..])
  }

  /** The copy as the program makes it, item by item and entry by entry. */
  method CopyValue(v: Value) returns (r: Value)
    ensures r == Copy(v)
    decreases v, 0
  {
    match v
    case Array(items) =>
      var copies := CopyEach(items);
      return Array(copies);
    case Deferred(name, args) =>
      var copies := CopyEach(args);
      return Deferred(name, copies);
    case Hash(table) =>
      hide Set, CopyChain;
      var t := EmptyTable();
      var i := 0;
      while i < |table.buckets|
        invariant 0 <= i <= |table.buckets| && Sized(t)
        invariant AddChains(t, CopyChains(table.buckets[i..])) == CopyTable(table)
      {
        assert table.buckets[i..][0] == table.buckets[i] && table.buckets[i..][1..] == table.buckets[i + 1..];
        t := CopyEntries(t, table.buckets[i]);
        i := i + 1;
      }
      return Hash(t);
    case _ => return v;
  }

  method CopyEach(items: seq<Value>) returns (copies: seq<Value>)
    ensures copies == CopyItems(items)
    decreases items, 1
  {
    hide CopyItems, Copy;
    copies := [];
    for i := 0 to |items|
      invariant |copies| == i && forall k :: 0 <= k < i ==> copies[k] == Copy(items[k])
    {
      var copy := CopyValue(items[i]);
      copies := copies + [copy];
    }
  }

  /** Set a copy of each entry of a chain, first to last. */
  method CopyEntries(table: Table, chain: Chain) returns (t: Table)
    requires Sized(table)
    ensures t == AddChain(table, CopyChain(chain))
    decreases chain, 1
  {
    var entry := chain;
    t := table;
    while entry.Node?
      invariant Sized(t) && (entry == chain || entry < chain)
      invariant AddChain(t, CopyChain(entry)) == AddChain(table, CopyChain(chain))
      decreases entry
    {
      var copy := CopyValue(entry.value);
      t := Set(t, entry.key, copy);
      entry := entry.next;
    }
  }

  /** Every table in the value, at any depth, is well formed. */
  ghost predicate DeepWellFormed(v: Value)
    decreases v, 0
  {
    match v
    case Array(items) => forall i :: 0 <= i < |items| ==> DeepWellFormed(items[i])
    case Hash(t) => WellFormed(t) && forall b :: 0 <= b < |t.buckets| ==> DeepChain(t.buckets[b])
    case Deferred(_, args) => forall i :: 0 <= i < |args| ==> DeepWellFormed(args[i])
    case _ => true
  }

  ghost predicate DeepChain(c: Chain)
    decreases c, 0
  {
    match c case Nil => true case Node(_, value, next) => DeepWellFormed(value) && DeepChain(next)
  }

  // ----- chains come out reversed -----

  function RevAppend(c: Chain, acc: Chain): (r: Chain)
    ensures ChainKeys(r) == ChainKeys(c) + ChainKeys(acc)
  {
    match c case Nil => acc case Node(key, value, next) => RevAppend(next, Node(key, value, acc))
  }

  function Reverse(c: Chain): Chain {
    RevAppend(c, Nil)
  }

  function Length(c: Chain): nat {
    match c case Nil => 0 case Node(_, _, next) => 1 + Length(next)
  }

  lemma {:induction false} AddChainReverses(t: Table, c: Chain, b: nat)
    requires Sized(t) && b < BUCKETS && ChainRight(c, b)
    requires ChainKeys(c) !! ChainKeys(t.buckets[b])
    ensures AddChain(t, c) == Table(t.buckets[b := RevAppend(c, t.buckets[b])], t.count + Length(c))
    decreases c
  {
    match c
    case Nil =>
      assert t.buckets[b := t.buckets[b]] == t.buckets;
    case Node(key, value, next) =>
      var t1 := Set(t, key, value);
      assert t1 == Table(t.buckets[b := Node(key, value, t.buckets[b])], t.count + 1);
      AddChainReverses(t1, next, b);
      assert t1.buckets[b := RevAppend(next, t1.buckets[b])] == t.buckets[b := RevAppend(c, t.buckets[b])];
  }

  ghost function TotalLength(bs: seq<Chain>): nat {
    if bs == [] then 0 else Length(bs[0]) + TotalLength(bs[1..])
  }

  ghost predicate ChainsRight(bs: seq<Chain>) {
    |bs| == BUCKETS && forall b :: 0 <= b < BUCKETS ==> ChainRight(bs[b], b)
  }

  lemma AddChainsStep(t: Table, bs: seq<Chain>, i: nat)
    requires Sized(t) && i < |bs|
    ensures AddChains(t, bs[i..]) == AddChains(AddChain(t, bs[i]), bs[i + 1..])
    ensures TotalLength(bs[i..]) == Length(bs[i]) + TotalLength(bs[i + 1..])
  {
    hide AddChain, Length;
    assert bs[i..][0] == bs[i] && bs[i..][1..] == bs[i + 1..];
  }

  lemma {:induction false} AddChainsAt(t: Table, bs: seq<Chain>, i: nat, b: nat)
    requires Sized(t) && ChainsRight(bs) && i <= BUCKETS && b < BUCKETS
    requires forall c :: i <= c < BUCKETS ==> t.buckets[c] == Nil
    ensures var r := AddChains(t, bs[i..]);
            r.count == t.count + TotalLength(bs[i..]) && r.buckets[b] == if b < i then t.buckets[b] else Reverse(bs[b])
    decreases BUCKETS - i
  {
    if i < BUCKETS {
      hide AddChain, AddChains, TotalLength, Length, Reverse, ChainRight;
      assert ChainRight(bs[i], i);
      IntoEmptyBucket(t, bs[i], i);
      AddChainsAt(AddChain(t, bs[i]), bs, i + 1, b);
      AddChainsStep(t, bs, i);
    }
  }

  lemma AddChainsReverse(t: Table, bs: seq<Chain>, i: nat)
    requires Sized(t) && ChainsRight(bs) && i <= BUCKETS
    requires forall b :: i <= b < BUCKETS ==> t.buckets[b] == Nil
    ensures var r := AddChains(t, bs[i..]);
            && r.count == t.count + TotalLength(bs[i..])
            && forall b :: 0 <= b < BUCKETS ==> r.buckets[b] == if b < i then t.buckets[b] else Reverse(bs[b])
  {
    hide AddChains, TotalLength, Reverse, ChainRight;
    AddChainsAt(t, bs, i, 0);
    forall b | 0 <= b < BUCKETS
      ensures AddChains(t, bs[i..]).buckets[b] == if b < i then t.buckets[b] else Reverse(bs[b])
    {
      AddChainsAt(t, bs, i, b);
    }
  }

  lemma IntoEmptyBucket(t: Table, c: Chain, b: nat)
    requires Sized(t) && b < BUCKETS && ChainRight(c, b) && t.buckets[b] == Nil
    ensures AddChain(t, c) == Table(t.buckets[b := Reverse(c)], t.count + Length(c))
  {
    AddChainReverses(t, c, b);
  }

  lemma {:induction false} CopyChainRight(c: Chain, b: nat)
    requires ChainRight(c, b)
    ensures ChainRight(CopyChain(c), b)
  {
    if c.Node? {
      CopyChainRight(c.next, b);
    }
  }

  lemma CopyChainsRight(t: Table)
    requires WellFormed(t)
    ensures ChainsRight(CopyChains(t.buckets))
  {
    forall b | 0 <= b < BUCKETS
      ensures ChainRight(CopyChain(t.buckets[b]), b)
    {
      CopyChainRight(t.buckets[b], b);
    }
  }

  /** The copy of a table holds each chain copied and reversed. */
  lemma CopyReversesChains(t: Table, b: nat)
    requires WellFormed(t) && b < BUCKETS
    ensures CopyTable(t).buckets[b] == Reverse(CopyChain(t.buckets[b]))
  {
    var bs := CopyChains(t.buckets);
    CopyChainsRight(t);
    AddChainsReverse(EmptyTable(), bs, 0);
    assert bs[0..] == bs;
  }

  // ----- the copy is the same map -----

  lemma {:induction false} RevAppendFinds(c: Chain, acc: Chain, b: nat, key: string)
    requires ChainRight(c, b) && ChainRight(acc, b) && ChainKeys(c) !! ChainKeys(acc)
    ensures Find(RevAppend(c, acc), key) == if key in ChainKeys(c) then Find(c, key) else Find(acc, key)
    decreases c
  {
    if c.Node? {
      RevAppendFinds(c.next, Node(c.key, c.value, acc), b, key);
    }
  }

  function CopyFound(r: Option<Value>): Option<Value> {
    match r case None => None case Some(v) => Some(Copy(v))
  }

  lemma {:induction false} CopyChainFinds(c: Chain, key: string)
    ensures Find(CopyChain(c), key) == CopyFound(Find(c, key))
  {
    if c.Node? {
      CopyChainFinds(c.next, key);
    }
  }

  lemma CopyGets(t: Table, key: string)
    requires WellFormed(t)
    ensures Get(CopyTable(t), key) == CopyFound(Get(t, key))
  {
    var b := BucketOf(key);
    CopyReversesChains(t, b);
    CopyChainRight(t.buckets[b], b);
    RevAppendFinds(CopyChain(t.buckets[b]), Nil, b, key);
    CopyChainFinds(t.buckets[b], key);
  }

  lemma CopyKeys(t: Table)
    requires WellFormed(t)
    ensures Keys(CopyTable(t)) == Keys(t)
  {
    forall b | 0 <= b < BUCKETS
      ensures ChainKeys(CopyTable(t).buckets[b]) == ChainKeys(t.buckets[b])
    {
      CopyReversesChains(t, b);
    }
    var r := CopyTable(t);
    assert forall k :: k in Keys(r) <==> k in Keys(t) by {
      forall k
        ensures k in Keys(r) <==> k in Keys(t)
      {
        if k in Keys(r) {
          var b :| 0 <= b < |r.buckets| && k in ChainKeys(r.buckets[b]);
          assert k in ChainKeys(t.buckets[b]);
        }
        if k in Keys(t) {
          var b :| 0 <= b < |t.buckets| && k in ChainKeys(t.buckets[b]);
          assert k in ChainKeys(r.buckets[b]);
        }
      }
    }
  }

  /** Counting: adding well-formed chains to the empty table keeps the counter at the number of keys. */
  lemma {:induction false} AddChainWellFormed(t: Table, c: Chain)
    requires WellFormed(t)
    ensures WellFormed(AddChain(t, c))
    decreases c
  {
    if c.Node? {
      SetWellFormed(t, c.key, c.value);
      AddChainWellFormed(Set(t, c.key, c.value), c.next);
    }
  }

  lemma {:induction false} AddChainsWellFormed(t: Table, bs: seq<Chain>)
    requires WellFormed(t)
    ensures WellFormed(AddChains(t, bs))
    decreases |bs|
  {
    if bs != [] {
      AddChainWellFormed(t, bs[0]);
      AddChainsWellFormed(AddChain(t, bs[0]), bs[1..]);
    }
  }

  /** A copied table is well formed and stands for the map of the copied values. */
  lemma CopyKeepsContent(t: Table)
    requires WellFormed(t)
    ensures WellFormed(CopyTable(t)) && CopyTable(t).count == t.count
    ensures Content(CopyTable(t)).Keys == Content(t).Keys
    ensures forall k :: k in Content(t) ==> Content(CopyTable(t))[k] == Copy(Content(t)[k])
  {
    hide CopyTable, Get, Keys, BucketOf;
    EmptyContent();
    AddChainsWellFormed(EmptyTable(), CopyChains(t.buckets));
    assert WellFormed(CopyTable(t)) by { CopyTableIs(t); }
    CopyKeys(t);
    forall k | k in Content(t)
      ensures Content(CopyTable(t))[k] == Copy(Content(t)[k])
    {
      KeyIsFound(t, k);
      KeyIsFound(CopyTable(t), k);
      CopyGets(t, k);
    }
  }

  lemma CopyTableIs(t: Table)
    ensures CopyTable(t) == AddChains(EmptyTable(), CopyChains(t.buckets))
  {
  }

  // ----- copying twice -----

  lemma {:induction false} ReverseTwice(c: Chain, acc: Chain)
    ensures Reverse(RevAppend(c, acc)) == RevAppend(acc, c)
    decreases c
  {
    if c.Node? {
      ReverseTwice(c.next, Node(c.key, c.value, acc));
    }
  }

  lemma {:induction false} CopyCommutesWithReverse(c: Chain, acc: Chain)
    ensures CopyChain(RevAppend(c, acc)) == RevAppend(CopyChain(c), CopyChain(acc))
    decreases c
  {
    if c.Node? {
      CopyCommutesWithReverse(c.next, Node(c.key, c.value, acc));
    }
  }

  /** Copying a value twice gives back exactly the same structure, chain order included. */
  lemma {:induction false} CopyTwice(v: Value)
    requires DeepWellFormed(v)
    ensures Copy(Copy(v)) == v
    decreases v, 0
  {
    match v
    case Array(items) => CopyItemsTwice(items);
    case Deferred(name, args) => CopyItemsTwice(args);
    case Hash(t) =>
      CopyTwiceTable(t);
      assert Copy(v) == Hash(CopyTable(t));
    case _ =>
  }

  lemma {:induction false} CopyTwiceTable(t: Table)
    requires DeepWellFormed(Hash(t))
    ensures CopyTable(CopyTable(t)) == t
    decreases t, 2
  {
    hide CopyTable, ChainRight, CopyChain;
    CopyKeepsContent(t);
    CopyKeepsContent(CopyTable(t));
    forall b | 0 <= b < BUCKETS
      ensures CopyTable(CopyTable(t)).buckets[b] == t.buckets[b]
    {
      assert DeepChain(t.buckets[b]);
      CopyChainTwice(t.buckets[b]);
      CopyBucketTwice(t, b);
    }
    assert CopyTable(CopyTable(t)).buckets == t.buckets;
  }

  lemma CopyBucketTwice(t: Table, b: nat)
    requires WellFormed(t) && WellFormed(CopyTable(t)) && b < BUCKETS
    requires CopyChain(CopyChain(t.buckets[b])) == t.buckets[b]
    ensures CopyTable(CopyTable(t)).buckets[b] == t.buckets[b]
  {
    hide CopyTable;
    var c := CopyChain(t.buckets[b]);
    CopyReversesChains(t, b);
    CopyReversesChains(CopyTable(t), b);
    CopyCommutesWithReverse(c, Nil);
    ReverseTwice(CopyChain(c), Nil);
  }

  lemma {:induction false} CopyItemsTwice(items: seq<Value>)
    requires forall i :: 0 <= i < |items| ==> DeepWellFormed(items[i])
    ensures CopyItems(CopyItems(items)) == items
    decreases items, 1
  {
    forall i | 0 <= i < |items|
      ensures CopyItems(CopyItems(items))[i] == items[i]
    {
      CopyTwice(items[i]);
    }
  }

  lemma {:induction false} CopyChainTwice(c: Chain)
    requires DeepChain(c)
    ensures CopyChain(CopyChain(c)) == c
    decreases c, 1
  {
    if c.Node? {
      CopyTwice(c.value);
      CopyChainTwice(c.next);
    }
  }
}
