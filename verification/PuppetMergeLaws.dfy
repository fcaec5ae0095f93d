/** The algebra of deep merging: its meaning path by path, and which laws hold exactly when. */
module PuppetMergeLaws {
  import opened Common
  import opened PuppetValue
  import opened PuppetCopy
  import opened PuppetMerge

  /** What a value holds at a path of keys. */
  ghost function At(v: Meaning, path: seq<string>): Option<Meaning> {
    if path == [] then Some(v)
    else if !v.Map? || path[0] !in v.m then None
    else At(v.m[path[0]], path[1..])
  }

  ghost predicate MapAt(v: Meaning, path: seq<string>) {
    At(v, path).Some? && At(v, path).value.Map?
  }

  /** On the way to the path the overlay has something other than a map over a map. */
  ghost predicate OverlayDecides(a: Meaning, b: Meaning, path: seq<string>) {
    exists n :: 0 <= n <= |path| && At(b, path[..n]).Some? && !(MapAt(a, path[..n]) && MapAt(b, path[..n]))
  }

  lemma DecidesBelow(a: Meaning, b: Meaning, path: seq<string>)
    requires a.Map? && b.Map? && path != [] && path[0] in a.m && path[0] in b.m
    ensures OverlayDecides(a, b, path) <==> OverlayDecides(a.m[path[0]], b.m[path[0]], path[1..])
  {
    var x, y := a.m[path[0]], b.m[path[0]];
    if OverlayDecides(a, b, path) {
      var n :| 0 <= n <= |path| && At(b, path[..n]).Some? && !(MapAt(a, path[..n]) && MapAt(b, path[..n]));
      assert path[..n][1..] == path[1..][..n - 1];
    }
    if OverlayDecides(x, y, path[1..]) {
      var n :| 0 <= n <= |path| - 1 && At(y, path[1..][..n]).Some? && !(MapAt(x, path[1..][..n]) && MapAt(y, path[1..][..n]));
      assert path[..n + 1][1..] == path[1..][..n];
    }
  }

  /**
   * The merge at every path: where the overlay decides it is the overlay's, where both have maps all the way it is
   * their merge, and everywhere else it is the base's.
   */
  lemma {:induction false} MergeAtPath(a: Meaning, b: Meaning, path: seq<string>)
    requires a.Map? && b.Map?
    ensures !OverlayDecides(a, b, path) && At(b, path).Some? ==> MapAt(a, path) && MapAt(b, path)
    ensures At(MergeMeaning(a, b), path) ==
            if OverlayDecides(a, b, path) then At(b, path)
            else if MapAt(a, path) && MapAt(b, path) then Some(MergeMeaning(At(a, path).value, At(b, path).value))
            else At(a, path)
    decreases |path|
  {
    assert !OverlayDecides(a, b, path) && At(b, path).Some? ==> MapAt(a, path) && MapAt(b, path) by {
      assert path[..|path|] == path;
    }
    MergeOfMaps(a.m, b.m);
    if path == [] {
      assert forall n :: 0 <= n <= |path| ==> path[..n] == [];
    } else if path[0] !in b.m {
      forall n | 0 < n <= |path|
        ensures At(b, path[..n]) == None
      {
        assert path[..n][0] == path[0];
      }
    } else if path[0] in a.m && a.m[path[0]].Map? && b.m[path[0]].Map? {
      DecidesBelow(a, b, path);
      MergeAtPath(a.m[path[0]], b.m[path[0]], path[1..]);
    } else {
      assert path[..1][0] == path[0] && path[..1][1..] == [];
      assert At(b, path[..1]) == Some(b.m[path[0]]);
      assert At(a, path[..1]) == if path[0] in a.m then Some(a.m[path[0]]) else None;
      assert At(b, path[..1]).Some? && !(MapAt(a, path[..1]) && MapAt(b, path[..1]));
    }
  }

  // ----- identity and idempotence -----

  lemma MergeIdentity(a: map<string, Meaning>)
    ensures MergeMeaning(Map(map[]), Map(a)) == Map(a)
    ensures MergeMeaning(Map(a), Map(map[])) == Map(a)
  {
    MergeOfMaps(map[], a);
    MergeOfMaps(a, map[]);
    assert Overlay(map[], a) == a && Overlay(a, map[]) == a;
  }

  /** Every key of a is in c, with anything over a non-map and a larger map over a map. */
  ghost predicate Absorbed(a: Meaning, c: Meaning)
    requires a.Map? && c.Map?
    decreases a
  {
    forall k :: k in a.m ==> k in c.m && (a.m[k].Map? && c.m[k].Map? ==> Absorbed(a.m[k], c.m[k]))
  }

  /** An overlay hides a base completely exactly when the base is absorbed. */
  lemma {:induction false} AbsorbedIsHidden(a: Meaning, c: Meaning)
    requires a.Map? && c.Map?
    ensures MergeMeaning(a, c) == c <==> Absorbed(a, c)
    decreases a
  {
    MergeOfMaps(a.m, c.m);
    forall k | k in a.m && k in c.m && a.m[k].Map? && c.m[k].Map?
      ensures MergeMeaning(a.m[k], c.m[k]) == c.m[k] <==> Absorbed(a.m[k], c.m[k])
    {
      AbsorbedIsHidden(a.m[k], c.m[k]);
    }
    if Absorbed(a, c) {
      assert Overlay(a.m, c.m) == c.m;
    }
    if Overlay(a.m, c.m) == c.m {
      forall k | k in a.m
        ensures k in c.m && (a.m[k].Map? && c.m[k].Map? ==> Absorbed(a.m[k], c.m[k]))
      {
        assert k in Overlay(a.m, c.m);
      }
    }
  }

  lemma {:induction false} SelfAbsorbed(a: Meaning)
    requires a.Map?
    ensures Absorbed(a, a)
    decreases a
  {
    forall k | k in a.m && a.m[k].Map?
      ensures Absorbed(a.m[k], a.m[k])
    {
      SelfAbsorbed(a.m[k]);
    }
  }

  lemma {:induction false} MergeIdempotent(a: Meaning)
    requires a.Map?
    ensures MergeMeaning(a, a) == a
  {
    SelfAbsorbed(a);
    AbsorbedIsHidden(a, a);
  }

  // ----- associativity -----

  /** Wherever b puts a non-map between a map of a and a map of c, the map of a is absorbed. */
  ghost predicate Compatible(a: Meaning, b: Meaning, c: Meaning)
    requires a.Map? && b.Map? && c.Map?
    decreases a
  {
    forall k :: k in a.m && k in b.m && k in c.m && a.m[k].Map? && c.m[k].Map? ==>
      if b.m[k].Map? then Compatible(a.m[k], b.m[k], c.m[k]) else Absorbed(a.m[k], c.m[k])
  }

  ghost function Left(a: Meaning, b: Meaning, c: Meaning): Meaning {
    MergeMeaning(MergeMeaning(a, b), c)
  }

  ghost function Right(a: Meaning, b: Meaning, c: Meaning): Meaning {
    MergeMeaning(a, MergeMeaning(b, c))
  }

  /** Both groupings at one key, with None for a value that lacks the key. */
  lemma GroupingsAt(a: Meaning, b: Meaning, c: Meaning, k: string)
    requires a.Map? && b.Map? && c.Map? && k in a.m.Keys + b.m.Keys + c.m.Keys
    ensures Left(a, b, c).Map? && k in Left(a, b, c).m && Right(a, b, c).Map? && k in Right(a, b, c).m
    ensures var l, r := Left(a, b, c).m[k], Right(a, b, c).m[k];
            if k in a.m && k in b.m && k in c.m && a.m[k].Map? && c.m[k].Map? then
              if b.m[k].Map? then l == Left(a.m[k], b.m[k], c.m[k]) && r == Right(a.m[k], b.m[k], c.m[k])
              else l == c.m[k] && r == MergeMeaning(a.m[k], c.m[k])
            else l == r
  {
    MergeOfMaps(a.m, b.m);
    MergeOfMaps(b.m, c.m);
    MergeOfMaps(Overlay(a.m, b.m), c.m);
    MergeOfMaps(a.m, Overlay(b.m, c.m));
  }

  /** Deep merging associates exactly on compatible hashes. */
  lemma {:induction false} MergeAssociates(a: Meaning, b: Meaning, c: Meaning)
    requires a.Map? && b.Map? && c.Map?
    ensures Left(a, b, c) == Right(a, b, c) <==> Compatible(a, b, c)
    decreases a
  {
    hide Left, Right;
    forall k | k in a.m.Keys + b.m.Keys + c.m.Keys
      ensures Left(a, b, c).Map? && k in Left(a, b, c).m && Right(a, b, c).Map? && k in Right(a, b, c).m
      ensures Left(a, b, c).m[k] == Right(a, b, c).m[k] <==>
              (k in a.m && k in b.m && k in c.m && a.m[k].Map? && c.m[k].Map? ==>
                 if b.m[k].Map? then Compatible(a.m[k], b.m[k], c.m[k]) else Absorbed(a.m[k], c.m[k]))
    {
      GroupingsAt(a, b, c, k);
      if k in a.m && k in b.m && k in c.m && a.m[k].Map? && c.m[k].Map? {
        if b.m[k].Map? {
          MergeAssociates(a.m[k], b.m[k], c.m[k]);
        } else {
          AbsorbedIsHidden(a.m[k], c.m[k]);
        }
      }
    }
    GroupingKeys(a, b, c);
    if Compatible(a, b, c) {
      assert Left(a, b, c).m == Right(a, b, c).m;
    }
  }

  lemma GroupingKeys(a: Meaning, b: Meaning, c: Meaning)
    requires a.Map? && b.Map? && c.Map?
    ensures Left(a, b, c).Map? && Left(a, b, c).m.Keys == a.m.Keys + b.m.Keys + c.m.Keys
    ensures Right(a, b, c).Map? && Right(a, b, c).m.Keys == a.m.Keys + b.m.Keys + c.m.Keys
  {
  }

  /** A non-map in the middle can break associativity. */
  lemma NotAlwaysAssociative(x: Meaning, y: Meaning)
    requires !y.Map?
    ensures var a, b, c := Map(map["k" := Map(map["x" := x])]), Map(map["k" := y]), Map(map["k" := Map(map["z" := x])]);
            Left(a, b, c) != Right(a, b, c)
  {
    var a, b, c := Map(map["k" := Map(map["x" := x])]), Map(map["k" := y]), Map(map["k" := Map(map["z" := x])]);
    MergeAssociates(a, b, c);
    assert "k" in a.m && "x" in a.m["k"].m && "x" !in c.m["k"].m;
  }

  // ----- when the order does not matter -----

  /** At every shared key the two agree, recursively where both hold a map. */
  ghost predicate Agrees(a: Meaning, b: Meaning)
    requires a.Map? && b.Map?
    decreases a
  {
    forall k :: k in a.m && k in b.m ==>
      if a.m[k].Map? && b.m[k].Map? then Agrees(a.m[k], b.m[k]) else a.m[k] == b.m[k]
  }

  lemma {:induction false} AgreesSymmetric(a: Meaning, b: Meaning)
    requires a.Map? && b.Map? && Agrees(a, b)
    ensures Agrees(b, a)
    decreases a
  {
    forall k | k in a.m && k in b.m && a.m[k].Map? && b.m[k].Map?
      ensures Agrees(b.m[k], a.m[k])
    {
      AgreesSymmetric(a.m[k], b.m[k]);
    }
  }

  /** Between maps that agree nothing but a map stands over a map. */
  lemma {:induction false} AgreeingCompatible(m: Meaning, a: Meaning, b: Meaning)
    requires m.Map? && a.Map? && b.Map? && Agrees(a, b)
    ensures Compatible(m, a, b)
    decreases m
  {
    forall k | k in m.m && k in a.m && k in b.m && m.m[k].Map? && b.m[k].Map?
      ensures a.m[k].Map? && Compatible(m.m[k], a.m[k], b.m[k])
    {
      AgreeingCompatible(m.m[k], a.m[k], b.m[k]);
    }
  }

  lemma {:induction false} AgreeingCommute(a: Meaning, b: Meaning)
    requires a.Map? && b.Map? && Agrees(a, b)
    ensures MergeMeaning(a, b) == MergeMeaning(b, a)
    decreases a
  {
    hide MergeMeaning;
    MergeOfMaps(a.m, b.m);
    MergeOfMaps(b.m, a.m);
    forall k | k in a.m.Keys + b.m.Keys
      ensures Overlay(a.m, b.m)[k] == Overlay(b.m, a.m)[k]
    {
      if k in a.m && k in b.m && a.m[k].Map? && b.m[k].Map? {
        AgreeingCommute(a.m[k], b.m[k]);
      }
    }
    assert Overlay(a.m, b.m) == Overlay(b.m, a.m);
  }

  /** Two overlays at a shared key where not both hold a map: the later one decides. */
  lemma LaterDecides(m: Meaning, a: Meaning, b: Meaning, k: string)
    requires m.Map? && a.Map? && b.Map? && k in a.m && k in b.m
    ensures Left(m, a, b).Map? && k in Left(m, a, b).m
    ensures Left(m, a, b).m[k] ==
            if !a.m[k].Map? || !b.m[k].Map? then b.m[k]
            else Left(if k in m.m && m.m[k].Map? then m.m[k] else Map(map[]), a.m[k], b.m[k])
  {
    MergeOfMaps(m.m, a.m);
    MergeOfMaps(Overlay(m.m, a.m), b.m);
    if a.m[k].Map? {
      MergeIdentity(a.m[k].m);
    }
  }

  lemma {:induction false} SwappedOverlaysAgree(m: Meaning, a: Meaning, b: Meaning)
    requires m.Map? && a.Map? && b.Map? && Left(m, a, b) == Left(m, b, a)
    ensures Agrees(a, b)
    decreases a
  {
    hide Left, MergeMeaning;
    forall k | k in a.m && k in b.m
      ensures if a.m[k].Map? && b.m[k].Map? then Agrees(a.m[k], b.m[k]) else a.m[k] == b.m[k]
    {
      LaterDecides(m, a, b, k);
      LaterDecides(m, b, a, k);
      if a.m[k].Map? && b.m[k].Map? {
        SwappedOverlaysAgree(if k in m.m && m.m[k].Map? then m.m[k] else Map(map[]), a.m[k], b.m[k]);
      }
    }
  }

  /** Two overlays can trade places over a base exactly when they agree. */
  lemma OverlaysSwapExactly(m: Meaning, a: Meaning, b: Meaning)
    requires m.Map? && a.Map? && b.Map?
    ensures Left(m, a, b) == Left(m, b, a) <==> Agrees(a, b)
  {
    if Agrees(a, b) {
      AgreesSymmetric(a, b);
      AgreeingCompatible(m, a, b);
      AgreeingCompatible(m, b, a);
      MergeAssociates(m, a, b);
      MergeAssociates(m, b, a);
      AgreeingCommute(a, b);
    } else if Left(m, a, b) == Left(m, b, a) {
      SwappedOverlaysAgree(m, a, b);
    }
  }

  /** Deep merging commutes exactly on hashes that agree. */
  lemma MergeCommutes(a: Meaning, b: Meaning)
    requires a.Map? && b.Map?
    ensures MergeMeaning(a, b) == MergeMeaning(b, a) <==> Agrees(a, b)
  {
    MergeIdentity(a.m);
    MergeIdentity(b.m);
    OverlaysSwapExactly(Map(map[]), a, b);
  }

  // ----- merging a list, later over earlier -----

  ghost predicate AllMaps(ms: seq<Meaning>) {
    forall i :: 0 <= i < |ms| ==> ms[i].Map?
  }

  ghost function MergeList(ms: seq<Meaning>): (r: Meaning)
    ensures AllMaps(ms) ==> r.Map?
  {
    if ms == [] then Map(map[]) else MergeMeaning(MergeList(ms[..|ms| - 1]), ms[|ms| - 1])
  }

  lemma MergeListLast(ms: seq<Meaning>, x: Meaning)
    ensures MergeList(ms + [x]) == MergeMeaning(MergeList(ms), x)
  {
    assert (ms + [x])[..|ms|] == ms;
  }

  lemma {:induction false} MergeListPrefix(a: seq<Meaning>, b: seq<Meaning>, rest: seq<Meaning>)
    requires MergeList(a) == MergeList(b)
    ensures MergeList(a + rest) == MergeList(b + rest)
    decreases |rest|
  {
    if rest == [] {
      assert a + rest == a && b + rest == b;
    } else {
      var init, last := rest[..|rest| - 1], rest[|rest| - 1];
      assert a + rest == a + init + [last] && b + rest == b + init + [last];
      MergeListPrefix(a, b, init);
      MergeListLast(a + init, last);
      MergeListLast(b + init, last);
    }
  }

  /** Any two of the maps agree. */
  ghost predicate AllAgree(ms: seq<Meaning>)
    requires AllMaps(ms)
  {
    forall i, j :: 0 <= i < |ms| && 0 <= j < |ms| ==> Agrees(ms[i], ms[j])
  }

  lemma SwapLastTwo(ms: seq<Meaning>, a: Meaning, b: Meaning)
    requires AllMaps(ms) && a.Map? && b.Map?
    ensures MergeList(ms + [a, b]) == MergeList(ms + [b, a]) <==> Agrees(a, b)
  {
    assert ms + [a, b] == ms + [a] + [b] && ms + [b, a] == ms + [b] + [a];
    MergeListLast(ms, a);
    MergeListLast(ms + [a], b);
    MergeListLast(ms, b);
    MergeListLast(ms + [b], a);
    OverlaysSwapExactly(MergeList(ms), a, b);
  }

  /** One map moved to the end. */
  function MovedToEnd(ms: seq<Meaning>, i: nat): seq<Meaning>
    requires i < |ms|
  {
    ms[..i] + ms[i + 1..] + [ms[i]]
  }

  lemma SwappedNeighbours(ms: seq<Meaning>, i: nat)
    requires i + 1 < |ms|
    ensures ms == ms[..i] + [ms[i], ms[i + 1]] + ms[i + 2..]
    ensures var swapped := ms[..i] + [ms[i + 1], ms[i]] + ms[i + 2..];
            && |swapped| == |ms| && MovedToEnd(swapped, i + 1) == MovedToEnd(ms, i)
            && forall j :: 0 <= j < |ms| ==> swapped[j] == ms[if j == i then i + 1 else if j == i + 1 then i else j]
  {
  }

  lemma {:induction false} MoveToEnd(ms: seq<Meaning>, i: nat)
    requires AllMaps(ms) && AllAgree(ms) && i < |ms|
    ensures MergeList(MovedToEnd(ms, i)) == MergeList(ms)
    decreases |ms| - i
  {
    hide Agrees, MergeList;
    if i == |ms| - 1 {
      assert MovedToEnd(ms, i) == ms;
    } else {
      hide MovedToEnd;
      var swapped := ms[..i] + [ms[i + 1], ms[i]] + ms[i + 2..];
      SwappedNeighbours(ms, i);
      SwapLastTwo(ms[..i], ms[i], ms[i + 1]);
      MergeListPrefix(ms[..i] + [ms[i], ms[i + 1]], ms[..i] + [ms[i + 1], ms[i]], ms[i + 2..]);
      MoveToEnd(swapped, i + 1);
    }
  }

  lemma WithoutAgrees(ms: seq<Meaning>, i: nat)
    requires AllMaps(ms) && i < |ms|
    ensures AllMaps(Without(ms, i)) && (AllAgree(ms) ==> AllAgree(Without(ms, i)))
  {
    hide Agrees, Without;
    WithoutOne(ms, i);
  }

  lemma {:induction false} AgreeingListsPermute(ms: seq<Meaning>, xs: seq<Meaning>)
    requires AllMaps(ms) && AllAgree(ms) && multiset(ms) == multiset(xs)
    ensures MergeList(xs) == MergeList(ms)
    decreases |xs|
  {
    hide Agrees, MergeList, Without;
    if xs == [] {
      NothingInEmpty(ms);
    } else {
      var init, last := xs[..|xs| - 1], xs[|xs| - 1];
      assert xs == init + [last];
      assert last in multiset(ms);
      var i :| 0 <= i < |ms| && ms[i] == last;
      WithoutOne(ms, i);
      WithoutAgrees(ms, i);
      assert multiset(init) == multiset(xs) - multiset{last};
      assert multiset(Without(ms, i)) == multiset(ms) - multiset{last};
      AgreeingListsPermute(Without(ms, i), init);
      MoveToEnd(ms, i);
      MovedIsLast(ms, i);
      MergeListLast(init, last);
      MergeListLast(Without(ms, i), last);
    }
  }

  lemma MovedIsLast(ms: seq<Meaning>, i: nat)
    requires i < |ms|
    ensures MovedToEnd(ms, i) == Without(ms, i) + [ms[i]]
  {
  }

  /** No order of the maps merges differently. */
  ghost predicate OrderIrrelevant(ms: seq<Meaning>) {
    forall xs :: multiset(xs) == multiset(ms) ==> MergeList(xs) == MergeList(ms)
  }

  /** The order of a list of hashes does not matter exactly when any two of them agree. */
  lemma OrderIrrelevantExactly(ms: seq<Meaning>)
    requires AllMaps(ms)
    ensures OrderIrrelevant(ms) <==> AllAgree(ms)
  {
    if AllAgree(ms) {
      forall xs | multiset(xs) == multiset(ms)
        ensures MergeList(xs) == MergeList(ms)
      {
        AgreeingListsPermute(ms, xs);
      }
    }
    if OrderIrrelevant(ms) {
      forall i, j | 0 <= i < |ms| && 0 <= j < |ms|
        ensures Agrees(ms[i], ms[j])
      {
        if i == j {
          AgreesWithItself(ms[i]);
        } else if i < j {
          PairAgrees(ms, i, j);
        } else {
          PairAgrees(ms, j, i);
          AgreesSymmetric(ms[j], ms[i]);
        }
      }
    }
  }

  lemma {:induction false} AgreesWithItself(a: Meaning)
    requires a.Map?
    ensures Agrees(a, a)
    decreases a
  {
    forall k | k in a.m && a.m[k].Map?
      ensures Agrees(a.m[k], a.m[k])
    {
      AgreesWithItself(a.m[k]);
    }
  }

  lemma PairAgrees(ms: seq<Meaning>, i: nat, j: nat)
    requires AllMaps(ms) && OrderIrrelevant(ms) && i < j < |ms|
    ensures Agrees(ms[i], ms[j])
  {
    hide Agrees, MergeList;
    var rest := PairLast(ms, i, j);
    assert forall k :: 0 <= k < |rest| ==> rest[k] in rest && rest[k] in ms;
    assert MergeList(rest + [ms[i], ms[j]]) == MergeList(ms) == MergeList(rest + [ms[j], ms[i]]);
    SwapLastTwo(rest, ms[i], ms[j]);
  }

  // ----- the merge of a list at every path -----

  /** What the maps hold at a key, in order. */
  ghost function Holders(ms: seq<Meaning>, k: string): (vs: seq<Meaning>)
    requires AllMaps(ms)
  {
    if ms == [] then []
    else
      var last := ms[|ms| - 1];
      Holders(ms[..|ms| - 1], k) + if k in last.m then [last.m[k]] else []
  }

  /** The maps after the last value that is none. */
  ghost function TrailingMaps(vs: seq<Meaning>): (r: seq<Meaning>)
    ensures AllMaps(r)
    ensures |r| <= |vs|
  {
    if vs == [] || !vs[|vs| - 1].Map? then [] else TrailingMaps(vs[..|vs| - 1]) + [vs[|vs| - 1]]
  }

  /** The value at a path: the last holder decides; if it is a map, the maps since the last other value are merged. */
  ghost function ListAt(ms: seq<Meaning>, path: seq<string>): Option<Meaning>
    requires AllMaps(ms)
    decreases |path|
  {
    if path == [] then Some(MergeList(ms))
    else
      var vs := Holders(ms, path[0]);
      if vs == [] then None
      else if vs[|vs| - 1].Map? then ListAt(TrailingMaps(vs), path[1..])
      else At(vs[|vs| - 1], path[1..])
  }

  lemma {:induction false} MergeListAtKey(ms: seq<Meaning>, k: string)
    requires AllMaps(ms)
    ensures k in MergeList(ms).m <==> Holders(ms, k) != []
    ensures Holders(ms, k) != [] ==>
              var vs := Holders(ms, k);
              MergeList(ms).m[k] == if vs[|vs| - 1].Map? then MergeList(TrailingMaps(vs)) else vs[|vs| - 1]
  {
    if ms != [] {
      hide MergeMeaning;
      var init, last := ms[..|ms| - 1], ms[|ms| - 1];
      MergeListAtKey(init, k);
      MergeOfMaps(MergeList(init).m, last.m);
      if k in last.m {
        assert Holders(ms, k) == Holders(init, k) + [last.m[k]];
        HolderAdded(Holders(init, k), last.m[k]);
      } else {
        assert Holders(ms, k) == Holders(init, k);
      }
    }
  }

  /** One more holder: a map joins the trailing maps, anything else starts over. */
  lemma HolderAdded(vs: seq<Meaning>, v: Meaning)
    ensures v.Map? ==> TrailingMaps(vs + [v]) == TrailingMaps(vs) + [v]
    ensures v.Map? ==> MergeList(TrailingMaps(vs + [v])) ==
                       if vs != [] && vs[|vs| - 1].Map? then MergeMeaning(MergeList(TrailingMaps(vs)), v) else v
  {
    assert (vs + [v])[..|vs|] == vs;
    if v.Map? {
      MergeListLast(TrailingMaps(vs), v);
      MergeIdentity(v.m);
    }
  }

  lemma {:induction false} MergeListAtPath(ms: seq<Meaning>, path: seq<string>)
    requires AllMaps(ms)
    ensures At(MergeList(ms), path) == ListAt(ms, path)
    decreases |path|
  {
    if path != [] {
      MergeListAtKey(ms, path[0]);
      var vs := Holders(ms, path[0]);
      if vs != [] && vs[|vs| - 1].Map? {
        MergeListAtPath(TrailingMaps(vs), path[1..]);
      }
    }
  }

  // ----- the same laws for the program's values -----

  /** Merging a hash with itself or with an empty one changes nothing, as far as its content goes. */
  lemma DeepMergeLaws(v: Value, empty: Value)
    requires DeepWellFormed(v) && v.Hash? && DeepWellFormed(empty) && Mean(empty) == Map(map[])
    ensures Mean(DeepMerge(v, v)) == Mean(v)
    ensures Mean(DeepMerge(v, empty)) == Mean(v) && Mean(DeepMerge(empty, v)) == Mean(v)
  {
    DeepMergeMeans(v, v);
    DeepMergeMeans(v, empty);
    DeepMergeMeans(empty, v);
    MergeIdempotent(Mean(v));
    MergeIdentity(Mean(v).m);
  }

  /** Two ways of merging three hashes agree exactly when they are compatible. */
  lemma DeepMergeAssociates(a: Value, b: Value, c: Value)
    requires a.Hash? && b.Hash? && c.Hash? && DeepWellFormed(a) && DeepWellFormed(b) && DeepWellFormed(c)
    ensures Mean(DeepMerge(DeepMerge(a, b), c)) == Mean(DeepMerge(a, DeepMerge(b, c)))
       <==> Compatible(Mean(a), Mean(b), Mean(c))
  {
    DeepMergeMeans(a, b);
    DeepMergeMeans(b, c);
    DeepMergeMeans(DeepMerge(a, b), c);
    DeepMergeMeans(a, DeepMerge(b, c));
    MergeAssociates(Mean(a), Mean(b), Mean(c));
  }
}
