/** The allocation tracker's table and counters as values. */
module MemoryStats {
  import opened Common

  const BUCKETS: nat := 1024
  const NULL: nat := 0

  /** A tracked block: its address and its size. */
  datatype Info = Info(ptr: nat, size: nat)

  function HashPtr(ptr: nat): (b: nat)
    ensures b < BUCKETS
  {
    ptr / 8 % BUCKETS
  }

  /** The eight addresses of a word share a bucket, and words take the 1024 buckets in turn. */
  lemma WordsTakeTurns(word: nat, byte: nat)
    requires byte < 8
    ensures HashPtr(8 * word + byte) == word % 1024
  {
  }

  // ----- counting the table -----

  function Count(bs: seq<seq<Info>>): nat {
    if bs == [] then 0 else |bs[0]| + Count(bs[1..])
  }

  function Sizes(chain: seq<Info>): nat {
    if chain == [] then 0 else chain[0].size + Sizes(chain[1..])
  }

  function Bytes(bs: seq<seq<Info>>): nat {
    if bs == [] then 0 else Sizes(bs[0]) + Bytes(bs[1..])
  }

  lemma {:induction false} CountOfUpdate(bs: seq<seq<Info>>, b: nat, chain: seq<Info>)
    requires b < |bs|
    ensures Count(bs[b := chain]) == Count(bs) - |bs[b]| + |chain|
    ensures Bytes(bs[b := chain]) == Bytes(bs) - Sizes(bs[b]) + Sizes(chain)
  {
    if b > 0 {
      CountOfUpdate(bs[1..], b - 1, chain);
      assert bs[b := chain][1..] == bs[1..][b - 1 := chain];
    } else {
      assert bs[b := chain][1..] == bs[1..];
    }
  }

  lemma {:induction false} SizesWithout(chain: seq<Info>, i: nat)
    requires i < |chain|
    ensures Sizes(chain) == Sizes(chain[..i] + chain[i + 1..]) + chain[i].size
  {
    var r := chain[..i] + chain[i + 1..];
    if i == 0 {
      assert r == chain[1..];
    } else {
      SizesWithout(chain[1..], i - 1);
      assert r[1..] == chain[1..][..i - 1] + chain[1..][i..];
    }
  }

  lemma {:induction false} CountSplit(bs: seq<seq<Info>>, i: nat)
    requires i < |bs|
    ensures Count(bs[..i + 1]) == Count(bs[..i]) + |bs[i]|
  {
    if i == 0 {
      assert bs[..1][1..] == [];
    } else {
      CountSplit(bs[1..], i - 1);
      assert bs[..i + 1][1..] == bs[1..][..i] && bs[..i][1..] == bs[1..][..i - 1];
    }
  }

  lemma CountOfNone(bs: seq<seq<Info>>)
    ensures Count(bs[..0]) == 0
  {
  }

  lemma {:induction false} CountOfEmpty(bs: seq<seq<Info>>)
    requires forall b :: 0 <= b < |bs| ==> bs[b] == []
    ensures Count(bs) == 0 && Bytes(bs) == 0
  {
    if bs != [] {
      CountOfEmpty(bs[1..]);
    }
  }

  // ----- the counters -----

  datatype Stats = Stats(totalAllocations: int, totalFrees: int, currentAllocations: int, peakAllocations: int,
                         totalBytes: int, currentBytes: int, peakBytes: int)

  function NoStats(): Stats {
    Stats(0, 0, 0, 0, 0, 0, 0)
  }

  function Max(a: int, b: int): int {
    if a > b then a else b
  }

  /** What happens to the table: an entry comes or goes. */
  datatype Event = Added(size: nat) | Removed(size: nat)

  /** The current number of entries, and bytes in them, after the events. */
  function Current(log: seq<Event>): int {
    if log == [] then 0 else Current(log[..|log| - 1]) + if log[|log| - 1].Added? then 1 else -1
  }

  function CurrentBytes(log: seq<Event>): int {
    if log == [] then 0
    else
      var e := log[|log| - 1];
      CurrentBytes(log[..|log| - 1]) + if e.Added? then e.size else 0 - e.size
  }

  function Additions(log: seq<Event>): nat {
    if log == [] then 0 else Additions(log[..|log| - 1]) + if log[|log| - 1].Added? then 1 else 0
  }

  function AddedBytes(log: seq<Event>): nat {
    if log == [] then 0
    else AddedBytes(log[..|log| - 1]) + if log[|log| - 1].Added? then log[|log| - 1].size else 0
  }

  /** The highest value of both current counters at any moment of the log. */
  ghost predicate ArePeaks(log: seq<Event>, peak: int, peakBytes: int) {
    && (forall k :: 0 <= k <= |log| ==> Current(log[..k]) <= peak && CurrentBytes(log[..k]) <= peakBytes)
    && (exists k :: 0 <= k <= |log| && Current(log[..k]) == peak)
    && (exists k :: 0 <= k <= |log| && CurrentBytes(log[..k]) == peakBytes)
  }

  /** Each counter says of the log what its name says. */
  ghost predicate Describe(stats: Stats, log: seq<Event>) {
    && stats.totalAllocations == Additions(log)
    && stats.totalFrees == |log| - Additions(log)
    && stats.currentAllocations == Current(log)
    && stats.totalBytes == AddedBytes(log)
    && stats.currentBytes == CurrentBytes(log)
    && ArePeaks(log, stats.peakAllocations, stats.peakBytes)
  }

  /** The counters after one more entry, and after one less. */
  function AfterAdd(s: Stats, size: nat): Stats {
    Stats(s.totalAllocations + 1, s.totalFrees, s.currentAllocations + 1, Max(s.peakAllocations, s.currentAllocations + 1),
          s.totalBytes + size, s.currentBytes + size, Max(s.peakBytes, s.currentBytes + size))
  }

  function AfterRemove(s: Stats, size: nat): Stats {
    s.(totalFrees := s.totalFrees + 1, currentAllocations := s.currentAllocations - 1, currentBytes := s.currentBytes - size)
  }

  lemma NoStatsAreZero()
    ensures NoStats().currentAllocations == 0 && NoStats().currentBytes == 0
  {
  }

  lemma EmptyLog()
    ensures Describe(NoStats(), [])
  {
    var log: seq<Event> := [];
    assert log[..0] == [];
    assert Current(log[..0]) == 0 && CurrentBytes(log[..0]) == 0;
  }

  lemma PeaksGrow(log: seq<Event>, e: Event, peak: int, peakBytes: int)
    requires ArePeaks(log, peak, peakBytes)
    ensures ArePeaks(log + [e], Max(peak, Current(log + [e])), Max(peakBytes, CurrentBytes(log + [e])))
  {
    hide Current, CurrentBytes;
    var more := log + [e];
    assert more[..|more|] == more;
    forall k | 0 <= k <= |log|
      ensures more[..k] == log[..k]
    {
    }
    var i :| 0 <= i <= |log| && Current(log[..i]) == peak;
    var j :| 0 <= j <= |log| && CurrentBytes(log[..j]) == peakBytes;
    assert Current(more[..i]) == peak && CurrentBytes(more[..j]) == peakBytes;
  }

  lemma AddDescribes(s: Stats, log: seq<Event>, size: nat)
    requires Describe(s, log)
    ensures Describe(AfterAdd(s, size), log + [Added(size)])
  {
    hide ArePeaks;
    assert (log + [Added(size)])[..|log|] == log;
    PeaksGrow(log, Added(size), s.peakAllocations, s.peakBytes);
  }

  lemma RemoveDescribes(s: Stats, log: seq<Event>, size: nat)
    requires Describe(s, log)
    ensures Describe(AfterRemove(s, size), log + [Removed(size)])
  {
    hide ArePeaks;
    assert (log + [Removed(size)])[..|log|] == log;
    PeaksGrow(log, Removed(size), s.peakAllocations, s.peakBytes);
    PeaksAreReached(s, log);
  }

  lemma PeaksAreReached(s: Stats, log: seq<Event>)
    requires Describe(s, log)
    ensures s.currentAllocations <= s.peakAllocations && s.currentBytes <= s.peakBytes
  {
    assert log[..|log|] == log;
  }

  /** What the counters promise: frees account for the difference of totals, and the peaks are never exceeded. */
  lemma {:induction false} TotalsBalance(s: Stats, log: seq<Event>)
    requires Describe(s, log)
    ensures s.totalAllocations - s.totalFrees == s.currentAllocations
    ensures s.currentAllocations <= s.peakAllocations && s.currentBytes <= s.peakBytes
  {
    PeaksAreReached(s, log);
    CurrentIsDifference(log);
  }

  lemma {:induction false} CurrentIsDifference(log: seq<Event>)
    ensures Additions(log) <= |log| && Additions(log) - (|log| - Additions(log)) == Current(log)
  {
    if log != [] {
      CurrentIsDifference(log[..|log| - 1]);
    }
  }

  // ----- the table as the set of live blocks -----

  ghost predicate InTheirBuckets(bs: seq<seq<Info>>) {
    |bs| == BUCKETS && forall b, i :: 0 <= b < BUCKETS && 0 <= i < |bs[b]| ==> HashPtr(bs[b][i].ptr) == b
  }

  predicate InChain(chain: seq<Info>, ptr: nat) {
    exists i :: 0 <= i < |chain| && chain[i].ptr == ptr
  }

  /** One entry for every live block, with its size, and none besides. */
  ghost predicate Tracks(bs: seq<seq<Info>>, live: map<nat, nat>) {
    && InTheirBuckets(bs)
    && (forall b, i :: 0 <= b < BUCKETS && 0 <= i < |bs[b]| ==> bs[b][i].ptr in live && live[bs[b][i].ptr] == bs[b][i].size)
    && (forall b, i, j :: 0 <= b < BUCKETS && 0 <= i < j < |bs[b]| ==> bs[b][i].ptr != bs[b][j].ptr)
    && (forall p :: p in live ==> InChain(bs[HashPtr(p)], p))
  }

  ghost function Pointers(chain: seq<Info>): set<nat> {
    set i | 0 <= i < |chain| :: chain[i].ptr
  }

  ghost function LiveBelow(live: map<nat, nat>, n: nat): set<nat> {
    set p | p in live && HashPtr(p) < n
  }

  lemma {:induction false} PointersCount(chain: seq<Info>)
    requires forall i, j :: 0 <= i < j < |chain| ==> chain[i].ptr != chain[j].ptr
    ensures |Pointers(chain)| == |chain|
  {
    if chain != [] {
      var n := |chain| - 1;
      PointersCount(chain[..n]);
      assert Pointers(chain) == Pointers(chain[..n]) + {chain[n].ptr};
      assert chain[n].ptr !in Pointers(chain[..n]);
    }
  }

  /** The entries of a table that tracks the live blocks are as many as these. */
  lemma {:induction false} EntriesAreLive(bs: seq<seq<Info>>, live: map<nat, nat>, n: nat)
    requires Tracks(bs, live) && n <= BUCKETS
    ensures Count(bs[..n]) == |LiveBelow(live, n)|
  {
    if n == 0 {
      assert LiveBelow(live, 0) == {};
    } else {
      EntriesAreLive(bs, live, n - 1);
      CountSplit(bs, n - 1);
      PointersCount(bs[n - 1]);
      BucketIsLive(bs, live, n - 1);
    }
  }

  lemma BucketIsLive(bs: seq<seq<Info>>, live: map<nat, nat>, b: nat)
    requires Tracks(bs, live) && b < BUCKETS
    ensures LiveBelow(live, b + 1) == LiveBelow(live, b) + Pointers(bs[b])
    ensures LiveBelow(live, b) !! Pointers(bs[b])
  {
    forall p | p in live && HashPtr(p) == b
      ensures p in Pointers(bs[b])
    {
      assert InChain(bs[HashPtr(p)], p);
    }
  }

  /** The leak count is the number of live blocks. */
  lemma CountIsLive(bs: seq<seq<Info>>, live: map<nat, nat>)
    requires Tracks(bs, live)
    ensures Count(bs) == |live|
  {
    EntriesAreLive(bs, live, BUCKETS);
    assert bs[..BUCKETS] == bs;
    assert LiveBelow(live, BUCKETS) == live.Keys;
  }

  lemma TracksAfterAdd(bs: seq<seq<Info>>, live: map<nat, nat>, ptr: nat, size: nat)
    requires Tracks(bs, live) && ptr !in live
    ensures Tracks(bs[HashPtr(ptr) := [Info(ptr, size)] + bs[HashPtr(ptr)]], live[ptr := size])
  {
    var b := HashPtr(ptr);
    var chain := [Info(ptr, size)] + bs[b];
    var r := bs[b := chain];
    forall p | p in live[ptr := size]
      ensures InChain(r[HashPtr(p)], p)
    {
      if p == ptr {
        assert chain[0].ptr == p;
      } else {
        var i :| 0 <= i < |bs[HashPtr(p)]| && bs[HashPtr(p)][i].ptr == p;
        assert r[HashPtr(p)][if HashPtr(p) == b then i + 1 else i].ptr == p;
      }
    }
  }

  lemma TracksAfterRemove(bs: seq<seq<Info>>, live: map<nat, nat>, ptr: nat, i: nat)
    requires Tracks(bs, live) && i < |bs[HashPtr(ptr)]| && bs[HashPtr(ptr)][i].ptr == ptr
    ensures ptr in live && live[ptr] == bs[HashPtr(ptr)][i].size
    ensures var chain := bs[HashPtr(ptr)]; Tracks(bs[HashPtr(ptr) := chain[..i] + chain[i + 1..]], live - {ptr})
  {
    var b := HashPtr(ptr);
    var chain := bs[b];
    var shorter := chain[..i] + chain[i + 1..];
    var r := bs[b := shorter];
    assert forall k :: 0 <= k < |shorter| ==> shorter[k] == chain[if k < i then k else k + 1];
    forall p | p in live && p != ptr
      ensures InChain(r[HashPtr(p)], p)
    {
      var k :| 0 <= k < |bs[HashPtr(p)]| && bs[HashPtr(p)][k].ptr == p;
      assert r[HashPtr(p)][if HashPtr(p) == b && k > i then k - 1 else k].ptr == p;
    }
  }

  lemma EmptyTableTracks(bs: seq<seq<Info>>)
    requires |bs| == BUCKETS && forall b :: 0 <= b < BUCKETS ==> bs[b] == []
    ensures InTheirBuckets(bs) && Count(bs) == 0 && Bytes(bs) == 0
    ensures forall live :: Tracks(bs, live) <==> live == map[]
  {
    CountOfEmpty(bs);
    forall live | Tracks(bs, live)
      ensures live == map[]
    {
      assert forall p :: p in live ==> InChain(bs[HashPtr(p)], p);
      assert live.Keys == {};
    }
  }
}
