/** Small shared vocabulary: optional values and facts about sequences of naturals. */
module Common {

  datatype Option<+T> = None | Some(value: T)

  /** No element occurs twice. */
  ghost predicate Distinct<T>(s: seq<T>) {
    forall i, j :: 0 <= i < j < |s| ==> s[i] != s[j]
  }

  /** Every element is below n. */
  ghost predicate AllBelow(s: seq<nat>, n: nat) {
    forall i :: 0 <= i < |s| ==> s[i] < n
  }

  ghost function Elements<T>(s: seq<T>): set<T> {
    set x | x in s
  }

  lemma {:induction false} DistinctElementCount<T>(s: seq<T>)
    requires Distinct(s)
    ensures |Elements(s)| == |s|
  {
    if s != [] {
      var init := s[..|s| - 1];
      var last := s[|s| - 1];
      DistinctElementCount(init);
      assert Elements(s) == Elements(init) + {last};
    }
  }

  ghost function Below(n: nat): (b: set<nat>)
    ensures |b| == n
    ensures forall x: nat :: x in b <==> x < n
  {
    if n == 0 then {} else Below(n - 1) + {n - 1}
  }

  lemma SubsetCount<T>(a: set<T>, b: set<T>)
    requires a <= b
    ensures |a| <= |b|
    ensures |a| == |b| ==> a == b
  {
    assert b == a + (b - a);
    assert |b| == |a| + |b - a|;
  }

  /** A distinct sequence of numbers below n has at most n elements, and with n elements it has them all. */
  lemma DistinctBelow(s: seq<nat>, n: nat)
    requires Distinct(s) && AllBelow(s, n)
    ensures |s| <= n
    ensures |s| == n ==> forall x: nat :: x < n ==> x in s
  {
    DistinctElementCount(s);
    SubsetCount(Elements(s), Below(n));
    forall x: nat | |s| == n && x < n
      ensures x in s
    {
      assert x in Below(n);
    }
  }

  /** More than n numbers below n: two of them agree. */
  lemma Pigeonhole(s: seq<nat>, n: nat) returns (i: nat, j: nat)
    requires AllBelow(s, n) && |s| > n
    ensures i < j < |s| && s[i] == s[j]
  {
    if Distinct(s) {
      DistinctBelow(s, n);
    }
    i, j :| 0 <= i < j < |s| && s[i] == s[j];
  }

  /** A sequence without one of its elements. */
  function Without<T>(s: seq<T>, i: nat): seq<T>
    requires i < |s|
  {
    s[..i] + s[i + 1..]
  }

  lemma WithoutOne<T>(s: seq<T>, i: nat)
    requires i < |s|
    ensures multiset(s) == multiset(Without(s, i)) + multiset{s[i]}
    ensures |Without(s, i)| == |s| - 1
    ensures forall j :: 0 <= j < |s| - 1 ==> Without(s, i)[j] == s[if j < i then j else j + 1]
  {
    assert s == s[..i] + ([s[i]] + s[i + 1..]);
  }

  lemma NothingInEmpty<T>(s: seq<T>)
    requires multiset(s) == multiset{}
    ensures s == []
  {
    assert |s| == |multiset(s)|;
  }

  /** Two elements moved to the end, in either order. */
  lemma PairLast<T>(s: seq<T>, i: nat, j: nat) returns (rest: seq<T>)
    requires i < |s| && j < |s| && i != j
    ensures multiset(rest + [s[i], s[j]]) == multiset(s)
    ensures multiset(rest + [s[j], s[i]]) == multiset(s)
    ensures forall x :: x in rest ==> x in s
  {
    hide Without;
    var once := Without(s, j);
    WithoutOne(s, j);
    var at := if i < j then i else i - 1;
    assert once[at] == s[i];
    rest := Without(once, at);
    WithoutOne(once, at);
    WithTwo(rest, s[i], s[j]);
    WithTwo(rest, s[j], s[i]);
    forall x | x in rest
      ensures x in s
    {
      assert x in multiset(rest) && x in multiset(s);
    }
  }

  lemma WithTwo<T>(s: seq<T>, a: T, b: T)
    ensures multiset(s + [a, b]) == multiset(s) + multiset{a} + multiset{b}
  {
  }

  /** A sequence with one more element put in. */
  function Inserted<T>(s: seq<T>, at: nat, x: T): seq<T>
    requires at <= |s|
  {
    s[..at] + [x] + s[at..]
  }

  lemma InsertedAt<T>(s: seq<T>, at: nat, x: T, i: nat)
    requires at <= |s| && i <= |s|
    ensures |Inserted(s, at, x)| == |s| + 1
    ensures Inserted(s, at, x)[i] == if i < at then s[i] else if i == at then x else s[i - 1]
  {
  }

  lemma InsertedElements<T>(s: seq<T>, at: nat, x: T)
    requires at <= |s|
    ensures Elements(Inserted(s, at, x)) == Elements(s) + {x}
  {
    assert s == s[..at] + s[at..];
    forall y
      ensures y in Inserted(s, at, x) <==> y in s || y == x
    {
      assert y in s <==> y in s[..at] || y in s[at..];
      assert y in s[..at] + [x] <==> y in s[..at] || y == x;
    }
  }

  lemma FirstIn<T>(s: seq<T>)
    requires s != []
    ensures s[0] in s
  {
  }
}
