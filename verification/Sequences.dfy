/** The query operators that the storage code chains: stable ordering, grouping, filtering. */
module Sequences {

  function Filter<T(!new)>(keep: T -> bool, s: seq<T>): (r: seq<T>)
    ensures forall x :: x in r <==> x in s && keep(x)
  {
    if s == [] then [] else
    var rest := Filter(keep, s[..|s| - 1]);
    assert s == s[..|s| - 1] + [s[|s| - 1]];
    if keep(s[|s| - 1]) then rest + [s[|s| - 1]] else rest
  }

  function Map<T, U>(f: T -> U, s: seq<T>): (r: seq<U>)
    ensures |r| == |s| && forall i :: 0 <= i < |s| ==> r[i] == f(s[i])
  {
    seq(|s|, i requires 0 <= i < |s| => f(s[i]))
  }

  ghost predicate Ascending<T>(key: T -> int, s: seq<T>)
  {
    forall i, k :: 0 <= i < k < |s| ==> key(s[i]) <= key(s[k])
  }

  ghost predicate StrictlyAscending<T>(key: T -> int, s: seq<T>)
  {
    forall i, k :: 0 <= i < k < |s| ==> key(s[i]) < key(s[k])
  }

  /** Puts `x` behind the elements whose key is not greater. */
  function InsertBy<T(!new)>(key: T -> int, s: seq<T>, x: T): (r: seq<T>)
    requires Ascending(key, s)
    ensures Ascending(key, r)
    ensures forall y :: y in r <==> y in s || y == x
  {
    if s == [] || key(s[|s| - 1]) <= key(x) then s + [x]
    else
      var r := InsertBy(key, s[..|s| - 1], x);
      assert s == s[..|s| - 1] + [s[|s| - 1]];
      assert forall y :: y in r ==> key(y) <= key(s[|s| - 1]);
      r + [s[|s| - 1]]
  }

  /** OrderBy, which keeps the order of elements with equal keys. */
  function OrderBy<T(!new)>(key: T -> int, s: seq<T>): (r: seq<T>)
    ensures Ascending(key, r)
    ensures forall y :: y in r <==> y in s
  {
    if s == [] then [] else
    assert s == s[..|s| - 1] + [s[|s| - 1]];
    InsertBy(key, OrderBy(key, s[..|s| - 1]), s[|s| - 1])
  }

  predicate HasKey<T>(key: T -> int, s: seq<T>, k: int)
  {
    exists i :: 0 <= i < |s| && key(s[i]) == k
  }

  /** GroupBy followed by the first of each group, in the order in which the keys appear. */
  function FirstOfEach<T>(key: T -> int, s: seq<T>): seq<T>
  {
    if s == [] then [] else
    var rest := FirstOfEach(key, s[..|s| - 1]);
    if HasKey(key, rest, key(s[|s| - 1])) then rest else rest + [s[|s| - 1]]
  }

  lemma HasKeySnoc<T>(key: T -> int, s: seq<T>, x: T, k: int)
    ensures HasKey(key, s + [x], k) <==> HasKey(key, s, k) || key(x) == k
  {
    if HasKey(key, s, k) {
      var i :| 0 <= i < |s| && key(s[i]) == k;
      assert key((s + [x])[i]) == k;
    } else if key(x) == k {
      assert key((s + [x])[|s|]) == k;
    }
  }

  /** The firsts of the groups are elements, one for each key. */
  lemma {:induction false} FirstsAreElements<T(!new)>(key: T -> int, s: seq<T>, k: int)
    ensures forall y :: y in FirstOfEach(key, s) ==> y in s
    ensures HasKey(key, FirstOfEach(key, s), k) <==> HasKey(key, s, k)
  {
    if s != [] {
      var front, x := s[..|s| - 1], s[|s| - 1];
      assert s == front + [x];
      FirstsAreElements(key, front, k);
      HasKeySnoc(key, front, x, k);
      HasKeySnoc(key, FirstOfEach(key, front), x, k);
    }
  }

  lemma {:induction false} FirstsAreDistinct<T>(key: T -> int, s: seq<T>)
    ensures forall i, k :: 0 <= i < k < |FirstOfEach(key, s)| ==> key(FirstOfEach(key, s)[i]) != key(FirstOfEach(key, s)[k])
  {
    if s != [] {
      FirstsAreDistinct(key, s[..|s| - 1]);
    }
  }

  lemma {:induction false} FilterAscending<T(!new)>(key: T -> int, keep: T -> bool, s: seq<T>)
    requires Ascending(key, s)
    ensures Ascending(key, Filter(keep, s))
  {
    if s != [] {
      var n := |s| - 1;
      FilterAscending(key, keep, s[..n]);
      assert forall x :: x in Filter(keep, s[..n]) ==> key(x) <= key(s[n]);
    }
  }

  lemma {:induction false} FirstsAscend<T(!new)>(key: T -> int, s: seq<T>)
    requires Ascending(key, s)
    ensures StrictlyAscending(key, FirstOfEach(key, s))
  {
    if s != [] {
      var front, x := s[..|s| - 1], s[|s| - 1];
      FirstsAscend(key, front);
      var rest := FirstOfEach(key, front);
      if !HasKey(key, rest, key(x)) {
        forall i | 0 <= i < |rest|
          ensures key(rest[i]) < key(x)
        {
          FirstsAreElements(key, front, 0);
          assert rest[i] in front;
        }
      }
    }
  }

  /** A strictly ascending sequence is determined by its elements. */
  lemma {:induction false} AscendingUnique<T(!new)>(key: T -> int, a: seq<T>, b: seq<T>)
    requires StrictlyAscending(key, a) && StrictlyAscending(key, b)
    requires forall x :: x in a <==> x in b
    ensures a == b
  {
    assert (a != [] ==> a[0] in b) && (b != [] ==> b[0] in a);
    if a != [] && b != [] {
      var x, y := a[|a| - 1], b[|b| - 1];
      assert x in b && y in a;
      assert key(x) == key(y) && x == y;
      var a', b' := a[..|a| - 1], b[..|b| - 1];
      forall z
        ensures z in a' <==> z in b'
      {
        assert z in a' <==> z in a && z != x;
        assert z in b' <==> z in b && z != y;
      }
      AscendingUnique(key, a', b');
      assert a == a' + [x] && b == b' + [y];
    }
  }

  function FlatMap<T(!new), U(!new)>(f: T -> seq<U>, s: seq<T>): (r: seq<U>)
    ensures forall y :: y in r <==> exists x :: x in s && y in f(x)
  {
    if s == [] then [] else
    assert s == s[..|s| - 1] + [s[|s| - 1]];
    FlatMap(f, s[..|s| - 1]) + f(s[|s| - 1])
  }
}
