/** Sorted sets of names, kept in an array by binary search and insertion. */
module DeadCodeNames {
  import opened Common

  // ----- the order of names -----

  /** The C string comparison: by the first differing byte, an end of string coming first. */
  function Strcmp(a: string, b: string): int
    decreases |a|
  {
    if a == [] && b == [] then 0
    else if a == [] then -1
    else if b == [] then 1
    else if a[0] != b[0] then a[0] as int - b[0] as int
    else Strcmp(a[1..], b[1..])
  }

  lemma {:induction false} StrcmpEqual(a: string, b: string)
    ensures Strcmp(a, b) == 0 <==> a == b
    ensures (Strcmp(a, b) < 0 <==> Strcmp(b, a) > 0) && (Strcmp(a, b) > 0 <==> Strcmp(b, a) < 0)
    decreases |a|
  {
    if a != [] && b != [] && a[0] == b[0] {
      StrcmpEqual(a[1..], b[1..]);
      assert a == [a[0]] + a[1..] && b == [b[0]] + b[1..];
    }
  }

  lemma {:induction false} StrcmpTransitive(a: string, b: string, c: string)
    requires Strcmp(a, b) < 0 && Strcmp(b, c) < 0
    ensures Strcmp(a, c) < 0
    decreases |a|
  {
    if a != [] && a[0] == b[0] && b[0] == c[0] {
      StrcmpTransitive(a[1..], b[1..], c[1..]);
    }
  }

  lemma StrcmpIsOrder()
    ensures forall a, b :: Strcmp(a, b) == 0 <==> a == b
    ensures forall a, b :: Strcmp(a, b) < 0 <==> Strcmp(b, a) > 0
    ensures forall a, b, c :: Strcmp(a, b) < 0 && Strcmp(b, c) < 0 ==> Strcmp(a, c) < 0
  {
    forall a, b
      ensures Strcmp(a, b) == 0 <==> a == b
      ensures Strcmp(a, b) < 0 <==> Strcmp(b, a) > 0
    {
      StrcmpEqual(a, b);
    }
    forall a, b, c | Strcmp(a, b) < 0 && Strcmp(b, c) < 0
      ensures Strcmp(a, c) < 0
    {
      StrcmpTransitive(a, b, c);
    }
  }

  ghost predicate Increasing(names: seq<string>) {
    forall i, j :: 0 <= i < j < |names| ==> Strcmp(names[i], names[j]) < 0
  }

  /** A sequence in strict order is determined by its elements. */
  lemma {:induction false} OrderedIsUnique<T(!new)>(less: (T, T) -> bool, a: seq<T>, b: seq<T>)
    requires forall x, y :: less(x, y) ==> !less(y, x)
    requires forall i, j :: 0 <= i < j < |a| ==> less(a[i], a[j])
    requires forall i, j :: 0 <= i < j < |b| ==> less(b[i], b[j])
    requires forall x :: x in a <==> x in b
    ensures a == b
    decreases |a|
  {
    if a == [] {
      if b != [] {
        FirstIn(b);
        assert false;
      }
    } else {
      assert a[0] in a && b != [] && b[0] in b;
      var i :| 0 <= i < |a| && a[i] == b[0];
      var j :| 0 <= j < |b| && b[j] == a[0];
      assert a[0] == b[0];
      forall x
        ensures x in a[1..] <==> x in b[1..]
      {
        assert x in a <==> x == a[0] || x in a[1..];
        assert x in b <==> x == b[0] || x in b[1..];
        if x in a[1..] {
          assert less(a[0], x);
        }
        if x in b[1..] {
          assert less(b[0], x);
        }
      }
      OrderedIsUnique(less, a[1..], b[1..]);
    }
  }

  lemma IncreasingIsUnique(a: seq<string>, b: seq<string>)
    requires Increasing(a) && Increasing(b) && Elements(a) == Elements(b)
    ensures a == b
  {
    StrcmpIsOrder();
    forall x
      ensures x in a <==> x in b
    {
      assert x in a <==> x in Elements(a);
      assert x in b <==> x in Elements(b);
    }
    OrderedIsUnique((x, y) => Strcmp(x, y) < 0, a, b);
  }

  // ----- the set -----

  const FIRST_CAPACITY: nat := 32

  class NameSet {
    var items: array<string>
    var count: nat

    ghost predicate Valid()
      reads this, items
    {
      count <= items.Length && Increasing(items[..count])
    }

    ghost function Names(): seq<string>
      requires Valid()
      reads this, items
    {
      items[..count]
    }

    constructor ()
      ensures Valid() && fresh(items) && Names() == []
    {
      items := new string[0];
      count := 0;
    }

    /** Binary search: either the name is at the position, or it belongs there. */
    method Search(name: string) returns (found: bool, at: nat)
      requires Valid()
      ensures found <==> name in Names()
      ensures !found ==> at <= count && (forall i :: 0 <= i < at ==> Strcmp(items[i], name) < 0)
      ensures !found ==> forall i :: at <= i < count ==> Strcmp(name, items[i]) < 0
    {
      hide Strcmp, Increasing;
      var lo, hi := 0, count;
      while lo < hi
        invariant 0 <= lo <= hi <= count
        invariant forall i :: 0 <= i < lo ==> Strcmp(items[i], name) < 0
        invariant forall i :: hi <= i < count ==> Strcmp(name, items[i]) < 0
      {
        var mid := (lo + hi) / 2;
        var c := Strcmp(items[mid], name);
        StrcmpEqual(items[mid], name);
        if c == 0 {
          assert items[mid] == Names()[mid];
          return true, mid;
        }
        if c < 0 {
          BelowMid(items[..count], mid, name);
          lo := mid + 1;
        } else {
          AboveMid(items[..count], mid, name);
          hi := mid;
        }
      }
      SplitsAround(items[..count], lo, name);
      return false, lo;
    }

    method Contains(name: string) returns (found: bool)
      requires Valid()
      ensures found <==> name in Names()
    {
      if count == 0 {
        return false;
      }
      var at;
      found, at := Search(name);
    }

    /** Make room for one more name. */
    method Grow()
      requires Valid()
      modifies this
      ensures Valid() && Names() == old(Names()) && count == old(count) && count < items.Length
      ensures items == old(items) || fresh(items)
    {
      if count < items.Length {
        return;
      }
      var capacity := if items.Length == 0 then FIRST_CAPACITY else 2 * items.Length;
      var larger := new string[capacity](_ => "");
      forall i | 0 <= i < count {
        larger[i] := items[i];
      }
      assert larger[..count] == items[..count];
      items := larger;
    }

    /** Insert a name at its place, unless it is there already. */
    method AddUsed(name: string)
      requires Valid()
      modifies this, items
      ensures Valid() && (items == old(items) || fresh(items))
      ensures Elements(Names()) == Elements(old(Names())) + {name}
    {
      hide Strcmp, Increasing, Elements, Inserted;
      var found, at := Search(name);
      ghost var before := Names();
      if found {
        AddedAlready(before, name);
        return;
      }
      Grow();
      ShiftIn(items, count, at, name);
      count := count + 1;
      InsertedElements(before, at, name);
      InsertedIncreasing(before, at, name);
    }
  }

  lemma AddedAlready(names: seq<string>, name: string)
    requires name in names
    ensures Elements(names) == Elements(names) + {name}
  {
  }

  /** Move the names from a position on by one place, and put a name there. */
  method ShiftIn(items: array<string>, count: nat, at: nat, name: string)
    requires at <= count < items.Length
    modifies items
    ensures items[..count + 1] == Inserted(old(items[..count]), at, name)
  {
    hide Strcmp, Inserted;
    ghost var before := items[..count];
    forall i | at <= i < count {
      items[i + 1] := items[i];
    }
    items[at] := name;
    InsertedAt(before, at, name, at);
    forall k | 0 <= k <= count
      ensures items[k] == Inserted(before, at, name)[k]
    {
      InsertedAt(before, at, name, k);
    }
  }

  lemma SplitsAround(names: seq<string>, at: nat, name: string)
    requires at <= |names|
    requires forall i :: 0 <= i < at ==> Strcmp(names[i], name) < 0
    requires forall i :: at <= i < |names| ==> Strcmp(name, names[i]) < 0
    ensures name !in names
  {
    StrcmpEqual(name, name);
  }

  lemma BelowMid(names: seq<string>, mid: nat, name: string)
    requires Increasing(names) && mid < |names| && Strcmp(names[mid], name) < 0
    ensures forall i :: 0 <= i <= mid ==> Strcmp(names[i], name) < 0
  {
    StrcmpIsOrder();
  }

  lemma AboveMid(names: seq<string>, mid: nat, name: string)
    requires Increasing(names) && mid < |names| && Strcmp(names[mid], name) > 0
    ensures forall i :: mid <= i < |names| ==> Strcmp(name, names[i]) < 0
  {
    StrcmpIsOrder();
  }

  lemma InsertedIncreasing(names: seq<string>, at: nat, name: string)
    requires Increasing(names) && at <= |names|
    requires forall i :: 0 <= i < at ==> Strcmp(names[i], name) < 0
    requires forall i :: at <= i < |names| ==> Strcmp(name, names[i]) < 0
    ensures Increasing(Inserted(names, at, name))
  {
    hide Strcmp, Inserted;
    InsertedAt(names, at, name, at);
    var r := Inserted(names, at, name);
    forall i, j | 0 <= i < j < |r|
      ensures Strcmp(r[i], r[j]) < 0
    {
      InsertedAt(names, at, name, i);
      InsertedAt(names, at, name, j);
    }
  }
}
