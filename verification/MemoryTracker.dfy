/** The allocation tracker: a chained table of blocks by address, and running counters. */
module MemoryTracker {
  import opened Common
  import opened MemoryStats

  /** Two to the width of a size. */
  const SIZE_LIMIT: nat := 0x1_0000_0000_0000_0000

  class Tracker {
    const table: array<seq<Info>>
    var stats: Stats
    var enabled: bool
    var initialized: bool
    /** The entries that came and went since the counters were zero. */
    ghost var log: seq<Event>
    /** The blocks handed out and not yet given back, with their sizes, whether the table knows them or not. */
    ghost var live: map<nat, nat>
    /** Entries dropped by a shutdown, which does not adjust the counters. */
    ghost var lost: nat
    ghost var lostBytes: nat

    ghost predicate Valid()
      reads this, table
    {
      && table.Length == BUCKETS
      && InTheirBuckets(table[..])
      && Describe(stats, log)
      && stats.currentAllocations == Count(table[..]) + lost
      && stats.currentBytes == Bytes(table[..]) + lostBytes
      && (initialized ==> lost == 0 && lostBytes == 0)
      && NULL !in live
    }

    /** The table holds exactly the live blocks. */
    ghost predicate Exact()
      reads this, table
    {
      Tracks(table[..], live)
    }

    constructor ()
      ensures Valid() && Exact() && fresh(table) && enabled && !initialized
      ensures log == [] && live == map[]
    {
      hide Describe, Tracks, InTheirBuckets, Count, Bytes, NoStats;
      table := new seq<Info>[BUCKETS](_ => []);
      stats := NoStats();
      enabled, initialized := true, false;
      log, live, lost, lostBytes := [], map[], 0, 0;
      new;
      EmptyLog();
      NoStatsAreZero();
      Clear();
    }

    // ----- the table -----

    /** Chain an entry; `room` says whether there was memory for the entry itself. */
    method AddAllocation(ptr: nat, size: nat, room: bool)
      requires Valid()
      modifies table, this`stats, this`log
      ensures Valid()
      ensures if enabled && ptr != NULL && room then
                && table[..] == old(table[..])[HashPtr(ptr) := [Info(ptr, size)] + old(table[..])[HashPtr(ptr)]]
                && log == old(log) + [Added(size)]
                && stats == AfterAdd(old(stats), size)
              else table[..] == old(table[..]) && log == old(log) && stats == old(stats)
    {
      hide Describe, Count, Bytes;
      if !enabled || ptr == NULL || !room {
        return;
      }
      var bucket := HashPtr(ptr);
      ghost var before := table[..];
      CountOfUpdate(before, bucket, [Info(ptr, size)] + table[bucket]);
      AddDescribes(stats, log, size);
      table[bucket] := [Info(ptr, size)] + table[bucket];
      assert table[..] == before[bucket := [Info(ptr, size)] + before[bucket]];
      stats := AfterAdd(stats, size);
      log := log + [Added(size)];
    }

    /** Unchain the first entry of the address and hand it back, if there is one. */
    method RemoveAllocation(ptr: nat) returns (found: Option<Info>, ghost at: nat)
      requires Valid()
      modifies table, this`stats, this`log
      ensures Valid()
      ensures found.Some? <==> enabled && ptr != NULL && InChain(old(table[..])[HashPtr(ptr)], ptr)
      ensures found.Some? ==>
                var chain := old(table[..])[HashPtr(ptr)];
                && at < |chain| && chain[at] == found.value && chain[at].ptr == ptr
                && table[..] == old(table[..])[HashPtr(ptr) := chain[..at] + chain[at + 1..]]
                && log == old(log) + [Removed(found.value.size)]
                && stats == AfterRemove(old(stats), found.value.size)
      ensures found.None? ==> table[..] == old(table[..]) && log == old(log) && stats == old(stats)
    {
      hide Describe, Count, Bytes;
      at := 0;
      if !enabled || ptr == NULL {
        return None, 0;
      }
      var bucket := HashPtr(ptr);
      ghost var before := table[..];
      var chain := table[bucket];
      var i := 0;
      while i < |chain|
        invariant 0 <= i <= |chain|
        invariant forall k :: 0 <= k < i ==> chain[k].ptr != ptr
      {
        if chain[i].ptr == ptr {
          var shorter := chain[..i] + chain[i + 1..];
          CountOfUpdate(before, bucket, shorter);
          SizesWithout(chain, i);
          RemoveDescribes(stats, log, chain[i].size);
          table[bucket] := shorter;
          assert table[..] == before[bucket := shorter];
          stats := AfterRemove(stats, chain[i].size);
          log := log + [Removed(chain[i].size)];
          return Some(chain[i]), i;
        }
        i := i + 1;
      }
      return None, 0;
    }

    /** Is the address in the table? When the table is exact, this is whether the block is live. */
    method IsTracked(ptr: nat) returns (found: bool)
      requires Valid()
      ensures found <==> enabled && ptr != NULL && InChain(table[HashPtr(ptr)], ptr)
      ensures enabled && Exact() ==> (found <==> ptr in live)
    {
      if !enabled || ptr == NULL {
        return false;
      }
      var chain := table[HashPtr(ptr)];
      for i := 0 to |chain|
        invariant forall k :: 0 <= k < i ==> chain[k].ptr != ptr
      {
        if chain[i].ptr == ptr {
          return true;
        }
      }
      return false;
    }

    // ----- the life of the tracker -----

    method Clear()
      requires table.Length == BUCKETS
      modifies table
      ensures forall b :: 0 <= b < BUCKETS ==> table[b] == []
      ensures InTheirBuckets(table[..]) && Count(table[..]) == 0 && Bytes(table[..]) == 0
      ensures forall blocks :: Tracks(table[..], blocks) <==> blocks == map[]
    {
      hide Tracks, InTheirBuckets, Count, Bytes;
      for i := 0 to BUCKETS
        invariant forall b :: 0 <= b < i ==> table[b] == []
      {
        table[i] := [];
      }
      EmptyTableTracks(table[..]);
    }

    /** Start over, unless already started; blocks that are still out are forgotten, so the table is exact if there are none. */
    method Init()
      requires Valid()
      modifies this, table
      ensures Valid() && initialized
      ensures old(initialized) ==> table[..] == old(table[..]) && stats == old(stats) && enabled == old(enabled)
      ensures live == old(live) && (old(initialized) ==> log == old(log))
      ensures !old(initialized) ==> stats == NoStats() && log == [] && enabled
      ensures !old(initialized) ==> (Exact() <==> live == map[])
    {
      hide Describe, Count, Bytes, Tracks, InTheirBuckets, NoStats;
      if initialized {
        return;
      }
      Clear();
      stats := NoStats();
      initialized, enabled := true, true;
      log, lost, lostBytes := [], 0, 0;
      EmptyLog();
      NoStatsAreZero();
    }

    method CountEntries() returns (n: nat)
      requires table.Length == BUCKETS
      ensures n == Count(table[..])
    {
      hide Count;
      n := 0;
      CountOfNone(table[..]);
      for i := 0 to BUCKETS
        invariant n == Count(table[..][..i])
      {
        CountSplit(table[..], i);
        var current := table[i];
        var seen := 0;
        while seen < |current|
          invariant 0 <= seen <= |current| && n == Count(table[..][..i]) + seen
        {
          n, seen := n + 1, seen + 1;
        }
      }
      assert table[..][..BUCKETS] == table[..];
    }

    /** Count the entries left, drop them all, and stop; the counters keep their values. */
    method Shutdown() returns (leaks: nat)
      requires Valid()
      modifies this, table
      ensures Valid() && !initialized && stats == old(stats) && log == old(log) && live == old(live)
      ensures leaks == if old(initialized) then old(stats.currentAllocations) else 0
      ensures old(initialized && Exact()) ==> leaks == |old(live)|
      ensures old(initialized) ==> forall b :: 0 <= b < BUCKETS ==> table[b] == []
      ensures old(initialized) ==> (Exact() <==> live == map[])
    {
      hide Describe, Count, Bytes, Tracks;
      if !initialized {
        return 0;
      }
      leaks := CountEntries();
      if Exact() {
        CountIsLive(table[..], live);
      }
      lost, lostBytes := leaks, Bytes(table[..]);
      Clear();
      initialized := false;
    }

    method SetTracking(on: bool)
      requires Valid()
      modifies this`enabled
      ensures Valid() && enabled == on && (old(Exact()) ==> Exact())
    {
      enabled := on;
    }

    // ----- the tracked calls -----

    /** Allocate; `answer` is the address the system gives, never that of a live block, or null. */
    method Malloc(size: nat, answer: nat, room: bool) returns (ptr: nat)
      requires Valid() && answer !in live
      modifies table, this`stats, this`log, this`live
      ensures Valid() && ptr == answer
      ensures live == if ptr == NULL then old(live) else old(live)[ptr := size]
      ensures log == if enabled && ptr != NULL && room then old(log) + [Added(size)] else old(log)
      ensures old(Exact()) && enabled && room ==> Exact()
    {
      hide Describe, Tracks, InTheirBuckets, Count, Bytes;
      ptr := answer;
      if ptr != NULL {
        if Exact() {
          TracksAfterAdd(table[..], live, ptr, size);
        }
        AddAllocation(ptr, size, room);
        live := live[ptr := size];
      }
    }

    /** Allocate an array; the system refuses when its size does not fit. */
    method Calloc(nmemb: nat, size: nat, answer: nat, room: bool) returns (ptr: nat)
      requires Valid() && answer !in live
      requires nmemb * size >= SIZE_LIMIT ==> answer == NULL
      modifies table, this`stats, this`log, this`live
      ensures Valid() && ptr == answer
      ensures live == if ptr == NULL then old(live) else old(live)[ptr := nmemb * size]
      ensures log == if enabled && ptr != NULL && room then old(log) + [Added(nmemb * size)] else old(log)
      ensures old(Exact()) && enabled && room ==> Exact()
    {
      hide Describe, Tracks, InTheirBuckets, Count, Bytes;
      ptr := answer;
      if ptr != NULL {
        var total := nmemb * size;
        assert total % SIZE_LIMIT == total;
        ptr := Malloc(total % SIZE_LIMIT, answer, room);
      }
    }

    /** Copy a string with its terminator. */
    method Strdup(s: Option<string>, answer: nat, room: bool) returns (ptr: nat)
      requires Valid() && answer !in live
      modifies table, this`stats, this`log, this`live
      ensures Valid() && ptr == if s.None? then NULL else answer
      ensures live == if ptr == NULL then old(live) else old(live)[ptr := |s.value| + 1]
      ensures log == if enabled && ptr != NULL && room then old(log) + [Added(|s.value| + 1)] else old(log)
      ensures old(Exact()) && (s.Some? ==> enabled && room) ==> Exact()
    {
      if s.None? {
        return NULL;
      }
      ptr := Malloc(|s.value| + 1, answer, room);
    }

    /** Give a block back; a warning means the table knows no such block. */
    method Free(ptr: nat) returns (warned: bool)
      requires Valid()
      modifies table, this`stats, this`log, this`live
      ensures Valid() && live == old(live) - {ptr}
      ensures warned <==> ptr != NULL && !(enabled && InChain(old(table[..])[HashPtr(ptr)], ptr))
      ensures old(Exact()) && enabled ==> Exact()
      ensures old(Exact()) && enabled ==> (warned <==> ptr != NULL && ptr !in old(live))
      ensures old(Exact()) && enabled ==> log == if ptr in old(live) then old(log) + [Removed(old(live)[ptr])] else old(log)
      ensures !enabled ==> log == old(log)
    {
      hide Describe, InTheirBuckets, Count, Bytes;
      if ptr == NULL {
        assert live == live - {ptr};
        return false;
      }
      ghost var before, exact := table[..], Exact();
      var info, at := RemoveAllocation(ptr);
      if exact {
        FreedExactly(before, live, ptr, info, at);
      }
      live := live - {ptr};
      return info.None?;
    }

    /** Resize a block: a null block is allocated, size zero frees, and a refusal puts the entry back. */
    method Realloc(ptr: nat, size: nat, answer: nat, room: bool) returns (r: nat)
      requires Valid()
      requires answer !in live || (answer == ptr && ptr != NULL)
      modifies table, this`stats, this`log, this`live
      ensures Valid() && r == if ptr != NULL && size == 0 then NULL else answer
      ensures live == if ptr != NULL && size == 0 then old(live) - {ptr}
                      else if answer == NULL then old(live)
                      else (old(live) - {ptr})[answer := size]
      ensures old(Exact()) && enabled && room ==> Exact()
      ensures old(Exact()) && enabled && room && ptr in old(live) && size > 0 ==>
                log == old(log) + [Removed(old(live)[ptr]), Added(if answer == NULL then old(live)[ptr] else size)]
    {
      hide Describe, InTheirBuckets, Count, Bytes;
      if ptr == NULL {
        r := Malloc(size, answer, room);
        assert live == if answer == NULL then old(live) else (old(live) - {ptr})[answer := size];
        return;
      }
      if size == 0 {
        var warned := Free(ptr);
        return NULL;
      }
      r := Resize(ptr, size, answer, room);
    }

    /** The resizing proper: the old entry comes out first. */
    method Resize(ptr: nat, size: nat, answer: nat, room: bool) returns (r: nat)
      requires Valid() && ptr != NULL && (answer !in live || answer == ptr)
      modifies table, this`stats, this`log, this`live
      ensures Valid() && r == answer
      ensures live == if answer == NULL then old(live) else (old(live) - {ptr})[answer := size]
      ensures old(Exact()) && enabled && room ==> Exact()
      ensures old(Exact()) && enabled && room && ptr in old(live) ==>
                log == old(log) + [Removed(old(live)[ptr]), Added(if answer == NULL then old(live)[ptr] else size)]
    {
      hide Describe, InTheirBuckets, Count, Bytes, Tracks, InChain;
      ghost var before, exact := table[..], Exact();
      var old_, at := RemoveAllocation(ptr);
      if exact && enabled {
        FreedExactly(before, live, ptr, old_, at);
        TracksAfterAdd(table[..], live - {ptr}, if answer == NULL then ptr else answer,
                       if answer != NULL then size else if old_.Some? then old_.value.size else 0);
      }
      r := answer;
      if answer != NULL {
        AddAllocation(answer, size, room);
        live := (live - {ptr})[answer := size];
      } else if old_.Some? {
        AddAllocation(ptr, old_.value.size, room);
        assert exact ==> (live - {ptr})[ptr := old_.value.size] == live;
      }
    }

    /** Taking a block's entry out of an exact table. */
    lemma FreedExactly(before: seq<seq<Info>>, live: map<nat, nat>, ptr: nat, info: Option<Info>, at: nat)
      requires Tracks(before, live) && ptr != NULL
      requires info.Some? ==>
                 var chain := before[HashPtr(ptr)];
                 at < |chain| && chain[at] == info.value && chain[at].ptr == ptr
      ensures info.Some? ==>
                && ptr in live && live[ptr] == info.value.size
                && var chain := before[HashPtr(ptr)];
                   Tracks(before[HashPtr(ptr) := chain[..at] + chain[at + 1..]], live - {ptr})
      ensures !InChain(before[HashPtr(ptr)], ptr) ==> ptr !in live && live - {ptr} == live
    {
      if info.Some? {
        TracksAfterRemove(before, live, ptr, at);
      }
    }
  }
}
