/**
 The in-place quicksort of a range of an array, with an optional second array rearranged alongside.

 `Arrays.sortInternal` takes its swap as a callback; here `items` is null when only the keys are sorted.  How the
 slots move is recorded as a sequence `pi`: slot k holds what slot pi[k] held before.
 */
module QuickSort {

  function Compare<K>(comp: (K, K) -> int, a: K, b: K): int
  {
    comp(a, b)
  }

  /** `comp` orders its arguments totally, with ties allowed. */
  ghost predicate Preorder<K(!new)>(comp: (K, K) -> int)
  {
    && (forall a, b :: Compare(comp, a, b) < 0 <==> Compare(comp, b, a) > 0)
    && (forall a, b, c :: Compare(comp, a, b) <= 0 && Compare(comp, b, c) <= 0 ==> Compare(comp, a, c) <= 0)
  }

  ghost predicate SortedRange<K>(comp: (K, K) -> int, s: seq<K>, l: int, r: int)
    requires 0 <= l && r < |s|
  {
    forall i, k :: l <= i < k <= r ==> Compare(comp, s[i], s[k]) <= 0
  }

  /** A permutation of the first |pi| slots that moves only those from `l` to `r`, among themselves. */
  ghost predicate MovesWithin(pi: seq<int>, l: int, r: int)
  {
    && (forall k :: 0 <= k < |pi| ==> 0 <= pi[k] < |pi| && (if l <= k <= r then l <= pi[k] <= r else pi[k] == k))
    && (forall i, k :: 0 <= i < k < |pi| ==> pi[i] != pi[k])
  }

  ghost predicate Moved<T>(a: seq<T>, b: seq<T>, pi: seq<int>)
  {
    && |a| == |b| && |pi| <= |a|
    && (forall k :: 0 <= k < |pi| ==> 0 <= pi[k] < |pi| && b[k] == a[pi[k]])
    && (forall k :: |pi| <= k < |a| ==> b[k] == a[k])
  }

  function Compose(pi: seq<int>, rho: seq<int>): (r: seq<int>)
    requires |rho| == |pi| && forall k :: 0 <= k < |rho| ==> 0 <= rho[k] < |pi|
    ensures |r| == |pi| && forall k :: 0 <= k < |r| ==> r[k] == pi[rho[k]]
  {
    seq(|pi|, k requires 0 <= k < |pi| => pi[rho[k]])
  }

  function Identity(n: nat): (r: seq<int>)
    ensures |r| == n && forall k :: 0 <= k < n ==> r[k] == k
  {
    seq(n, k => k)
  }

  function Transposition(n: nat, i: nat, j: nat): (r: seq<int>)
    requires i < n && j < n
    ensures |r| == n && forall k :: 0 <= k < n ==> r[k] == if k == i then j else if k == j then i else k
  {
    Identity(n)[i := j][j := i]
  }

  lemma MovesCompose(pi: seq<int>, rho: seq<int>, l: int, r: int)
    requires |pi| == |rho| && MovesWithin(pi, l, r) && MovesWithin(rho, l, r)
    ensures MovesWithin(Compose(pi, rho), l, r)
  {
  }

  lemma MovedCompose<T>(a: seq<T>, b: seq<T>, c: seq<T>, pi: seq<int>, rho: seq<int>)
    requires |pi| == |rho| && Moved(a, b, pi) && Moved(b, c, rho)
    ensures Moved(a, c, Compose(pi, rho))
  {
  }

  lemma MovesWider(pi: seq<int>, l: int, r: int, l': int, r': int)
    requires MovesWithin(pi, l, r) && l' <= l && r <= r'
    ensures MovesWithin(pi, l', r')
  {
  }

  ghost function Slots<V>(items: array?<V>): seq<V>
    reads items
  {
    if items == null then [] else items[..]
  }

  /** Keys and items, now `a` and `b`, have moved alike since they were `ks` and `vs`; without items both are empty. */
  ghost predicate BothMoved<K, V>(ks: seq<K>, vs: seq<V>, a: seq<K>, b: seq<V>, pi: seq<int>)
  {
    Moved(ks, a, pi) && (Moved(vs, b, pi) || (vs == [] && b == []))
  }

  /** The range fits both arrays, which are two different ones. */
  ghost predicate Fits<K, V>(keys: array<K>, items: array?<V>, n: int)
  {
    0 <= n <= keys.Length && (items != null ==> n <= items.Length && items as object != keys)
  }

  function Swapped<T>(s: seq<T>, i: nat, j: nat): (r: seq<T>)
    requires i < |s| && j < |s|
    ensures |r| == |s|
  {
    s[i := s[j]][j := s[i]]
  }

  lemma MovedByTransposition<T>(a: seq<T>, b: seq<T>, n: nat, i: nat, j: nat)
    requires i < n && j < n && n <= |a| && b == Swapped(a, i, j)
    ensures Moved(a, b, Transposition(n, i, j))
  {
  }

  method Swap<K, V>(keys: array<K>, items: array?<V>, i: nat, j: nat, ghost n: nat)
    requires i < n && j < n && Fits(keys, items, n)
    modifies keys, items
    ensures keys[..] == Swapped(old(keys[..]), i, j)
    ensures BothMoved(old(keys[..]), old(Slots(items)), keys[..], Slots(items), Transposition(n, i, j))
  {
    var k := keys[i];
    keys[i] := keys[j];
    keys[j] := k;
    if items != null {
      var v := items[i];
      items[i] := items[j];
      items[j] := v;
      MovedByTransposition(old(items[..]), items[..], n, i, j);
    }
    MovedByTransposition(old(keys[..]), keys[..], n, i, j);
  }

  lemma BothCompose<K, V>(ks: seq<K>, vs: seq<V>, ks': seq<K>, vs': seq<V>, ks'': seq<K>, vs'': seq<V>, l: int, r: int,
                          pi: seq<int>, rho: seq<int>) returns (sigma: seq<int>)
    requires |pi| == |rho| && MovesWithin(pi, l, r) && MovesWithin(rho, l, r)
    requires BothMoved(ks, vs, ks', vs', pi) && BothMoved(ks', vs', ks'', vs'', rho)
    ensures |sigma| == |pi| && MovesWithin(sigma, l, r) && BothMoved(ks, vs, ks'', vs'', sigma)
  {
    sigma := Compose(pi, rho);
    MovesCompose(pi, rho, l, r);
    MovedCompose(ks, ks', ks'', pi, rho);
    if Moved(vs, vs', pi) && Moved(vs', vs'', rho) {
      MovedCompose(vs, vs', vs'', pi, rho);
    } else {
      assert vs == [] && vs'' == [];
    }
  }

  lemma NothingMoved<T>(a: seq<T>, n: nat, l: int, r: int)
    requires n <= |a|
    ensures Moved(a, a, Identity(n)) && MovesWithin(Identity(n), l, r)
  {
  }

  lemma NothingMovedYet<K, V>(keys: array<K>, items: array?<V>, n: nat, l: int, r: int)
    requires Fits(keys, items, n)
    ensures BothMoved(keys[..], Slots(items), keys[..], Slots(items), Identity(n)) && MovesWithin(Identity(n), l, r)
  {
    NothingMoved(keys[..], n, l, r);
    if items != null {
      NothingMoved(items[..], n, l, r);
    }
  }

  lemma TranspositionWithin(n: nat, i: nat, j: nat, l: int, r: int)
    requires l <= i <= r && l <= j <= r && i < n && j < n
    ensures MovesWithin(Transposition(n, i, j), l, r)
  {
  }

  /** The range is split around the slot returned: nothing greater before it, nothing less after it. */
  ghost predicate Split<K>(comp: (K, K) -> int, s: seq<K>, l: int, p: int, r: int)
    requires 0 <= l <= p <= r < |s|
  {
    && (forall k :: l <= k < p ==> Compare(comp, s[k], s[p]) <= 0)
    && (forall k :: p < k <= r ==> Compare(comp, s[p], s[k]) <= 0)
  }

  /** From `l` to `i` everything is below the pivot, after that and before `j` nothing is; the pivot waits at `r`. */
  ghost predicate Partitioning<K>(comp: (K, K) -> int, s: seq<K>, l: int, i: int, j: int, r: int, pivot: K)
  {
    && 0 <= l <= i + 1 <= j <= r < |s| && s[r] == pivot
    && (forall k :: l <= k <= i ==> Compare(comp, s[k], pivot) < 0)
    && (forall k :: i < k < j ==> Compare(comp, s[k], pivot) >= 0)
  }

  lemma PartitionStep<K>(comp: (K, K) -> int, s: seq<K>, l: int, i: int, j: int, r: int, pivot: K)
    requires Partitioning(comp, s, l, i, j, r, pivot) && j < r
    ensures Compare(comp, s[j], pivot) >= 0 ==> Partitioning(comp, s, l, i, j + 1, r, pivot)
    ensures Compare(comp, s[j], pivot) < 0 ==>
              Partitioning(comp, Swapped(s, i + 1, j), l, i + 1, j + 1, r, pivot)
  {
  }

  lemma PartitionEnd<K(!new)>(comp: (K, K) -> int, s: seq<K>, l: int, i: int, r: int, pivot: K)
    requires Preorder(comp) && Partitioning(comp, s, l, i, r, r, pivot)
    ensures Compare(comp, s[r], s[i + 1]) < 0 ==> Split(comp, Swapped(s, i + 1, r), l, i + 1, r)
    ensures Compare(comp, s[r], s[i + 1]) >= 0 ==> Split(comp, s, l, i + 1, r)
  {
    var p := i + 1;
    Reflexive(comp, pivot, s[p]);
    if Compare(comp, s[r], s[p]) < 0 {
      var s' := Swapped(s, p, r);
      assert forall k :: p < k <= r ==> Compare(comp, s'[k], pivot) >= 0;
      SplitAround(comp, s', l, p, r, pivot);
    } else {
      SplitAround(comp, s, l, p, r, pivot);
    }
  }

  lemma Reflexive<K(!new)>(comp: (K, K) -> int, a: K, b: K)
    requires Preorder(comp)
    ensures Compare(comp, a, a) == 0
    ensures Compare(comp, a, b) < 0 <==> Compare(comp, b, a) > 0
    ensures Compare(comp, b, a) < 0 <==> Compare(comp, a, b) > 0
  {
  }

  lemma SplitAround<K(!new)>(comp: (K, K) -> int, s: seq<K>, l: int, p: int, r: int, pivot: K)
    requires Preorder(comp) && 0 <= l <= p <= r < |s|
    requires Compare(comp, s[p], pivot) == 0
    requires forall k :: l <= k < p ==> Compare(comp, s[k], pivot) < 0
    requires forall k :: p < k <= r ==> Compare(comp, s[k], pivot) >= 0
    ensures Split(comp, s, l, p, r)
  {
    Reflexive(comp, s[p], pivot);
    forall k | p < k <= r
      ensures Compare(comp, s[p], s[k]) <= 0
    {
      Reflexive(comp, s[k], pivot);
    }
  }

  /** The swap, on top of what has moved so far. */
  method SwapOnTop<K, V>(keys: array<K>, items: array?<V>, i: nat, j: nat, ghost n: nat, ghost l: int, ghost r: int,
                         ghost ks: seq<K>, ghost vs: seq<V>, ghost pi: seq<int>)
    returns (ghost sigma: seq<int>)
    requires i < n && j < n && Fits(keys, items, n) && l <= i <= r && l <= j <= r
    requires |pi| == n && MovesWithin(pi, l, r) && BothMoved(ks, vs, keys[..], Slots(items), pi)
    modifies keys, items
    ensures keys[..] == Swapped(old(keys[..]), i, j)
    ensures |sigma| == n && MovesWithin(sigma, l, r) && BothMoved(ks, vs, keys[..], Slots(items), sigma)
  {
    ghost var ks', vs' := keys[..], Slots(items);
    Swap(keys, items, i, j, n);
    TranspositionWithin(n, i, j, l, r);
    sigma := BothCompose(ks, vs, ks', vs', keys[..], Slots(items), l, r, pi, Transposition(n, i, j));
  }

  /** Where a partitioning stands, and how the slots have moved since it began with `ks` and `vs`. */
  ghost predicate InProgress<K, V>(comp: (K, K) -> int, ks: seq<K>, vs: seq<V>, a: seq<K>, b: seq<V>,
                                   l: int, i: int, j: int, r: int, n: int, pivot: K, pi: seq<int>)
  {
    && Partitioning(comp, a, l, i, j, r, pivot)
    && |pi| == n && MovesWithin(pi, l, r) && BothMoved(ks, vs, a, b, pi)
  }

  /** The swap inside the loop, `i` being already raised. */
  method SwapBelow<K, V>(keys: array<K>, items: array?<V>, comp: (K, K) -> int, ghost ks: seq<K>, ghost vs: seq<V>,
                         ghost l: int, i: nat, j: nat, ghost r: int, ghost n: nat, ghost pivot: K, ghost pi: seq<int>)
    returns (ghost sigma: seq<int>)
    requires Fits(keys, items, n) && r < n && j < r
    requires InProgress(comp, ks, vs, keys[..], Slots(items), l, i - 1, j, r, n, pivot, pi)
    requires Compare(comp, keys[j], pivot) < 0
    modifies keys, items
    ensures InProgress(comp, ks, vs, keys[..], Slots(items), l, i, j + 1, r, n, pivot, sigma)
  {
    hide MovesWithin, BothMoved, Compare;
    PartitionStep(comp, keys[..], l, i - 1, j, r, pivot);
    hide Partitioning;
    assert l <= i <= j;
    sigma := SwapOnTop(keys, items, i, j, n, l, r, ks, vs, pi);
  }

  method Partition<K(!new), V>(keys: array<K>, items: array?<V>, l: nat, r: nat, comp: (K, K) -> int, ghost n: nat)
    returns (p: nat, ghost pi: seq<int>)
    requires Preorder(comp) && Fits(keys, items, n) && l <= r < n
    modifies keys, items
    ensures l <= p <= r && Split(comp, keys[..], l, p, r)
    ensures |pi| == n && MovesWithin(pi, l, r)
    ensures BothMoved(old(keys[..]), old(Slots(items)), keys[..], Slots(items), pi)
  {
    hide Compare, MovesWithin, BothMoved, Preorder, Split, InProgress;
    ghost var ks, vs := keys[..], Slots(items);
    pi := Identity(n);
    var pivot := keys[r];
    Begin(keys, items, comp, l, r, n);
    var i: int := l - 1;
    for j := l to r
      invariant l <= i + 1 <= j
      invariant InProgress(comp, ks, vs, keys[..], Slots(items), l, i, j, r, n, pivot, pi)
    {
      if Compare(comp, keys[j], pivot) < 0 {
        i := i + 1;
        pi := SwapBelow(keys, items, comp, ks, vs, l, i, j, r, n, pivot, pi);
      } else {
        SkipAbove(comp, ks, vs, keys[..], Slots(items), l, i, j, r, n, pivot, pi);
      }
    }
    p := i + 1;
    if Compare(comp, keys[r], keys[p]) < 0 {
      pi := SwapPivot(keys, items, comp, ks, vs, l, p, r, n, pivot, pi);
    } else {
      PivotInPlace(comp, ks, vs, keys[..], Slots(items), l, i, r, n, pivot, pi);
    }
  }

  lemma Begin<K, V>(keys: array<K>, items: array?<V>, comp: (K, K) -> int, l: nat, r: nat, n: nat)
    requires Fits(keys, items, n) && l <= r < n
    ensures InProgress(comp, keys[..], Slots(items), keys[..], Slots(items), l, l - 1, l, r, n, keys[r], Identity(n))
  {
    NothingMovedYet(keys, items, n, l, r);
  }

  lemma SkipAbove<K, V>(comp: (K, K) -> int, ks: seq<K>, vs: seq<V>, a: seq<K>, b: seq<V>,
                        l: int, i: int, j: int, r: int, n: int, pivot: K, pi: seq<int>)
    requires InProgress(comp, ks, vs, a, b, l, i, j, r, n, pivot, pi) && 0 <= j < r < |a|
    requires Compare(comp, a[j], pivot) >= 0
    ensures InProgress(comp, ks, vs, a, b, l, i, j + 1, r, n, pivot, pi)
  {
    PartitionStep(comp, a, l, i, j, r, pivot);
  }

  lemma PivotInPlace<K(!new), V>(comp: (K, K) -> int, ks: seq<K>, vs: seq<V>, a: seq<K>, b: seq<V>,
                           l: int, i: int, r: int, n: int, pivot: K, pi: seq<int>)
    requires Preorder(comp) && InProgress(comp, ks, vs, a, b, l, i, r, r, n, pivot, pi)
    requires Compare(comp, a[r], a[i + 1]) >= 0
    ensures Split(comp, a, l, i + 1, r) && |pi| == n && MovesWithin(pi, l, r) && BothMoved(ks, vs, a, b, pi)
  {
    PartitionEnd(comp, a, l, i, r, pivot);
  }

  /** The swap that brings the pivot to its place. */
  method SwapPivot<K(!new), V>(keys: array<K>, items: array?<V>, comp: (K, K) -> int, ghost ks: seq<K>, ghost vs: seq<V>,
                         ghost l: nat, p: nat, r: nat, ghost n: nat, ghost pivot: K, ghost pi: seq<int>)
    returns (ghost sigma: seq<int>)
    requires Preorder(comp) && Fits(keys, items, n) && l <= p <= r < n
    requires InProgress(comp, ks, vs, keys[..], Slots(items), l, p - 1, r, r, n, pivot, pi)
    requires Compare(comp, keys[r], keys[p]) < 0
    modifies keys, items
    ensures Split(comp, keys[..], l, p, r) && |sigma| == n && MovesWithin(sigma, l, r)
    ensures BothMoved(ks, vs, keys[..], Slots(items), sigma)
  {
    hide MovesWithin, BothMoved, Compare;
    PartitionEnd(comp, keys[..], l, p - 1, r, pivot);
    hide Partitioning, Split, Preorder;
    sigma := SwapOnTop(keys, items, p, r, n, l, r, ks, vs, pi);
  }

  lemma SplitMoved<K>(comp: (K, K) -> int, a: seq<K>, b: seq<K>, l: int, p: int, r: int, pi: seq<int>, l': int, r': int)
    requires 0 <= l <= p <= r < |a| && Split(comp, a, l, p, r) && Moved(a, b, pi) && r < |pi|
    requires MovesWithin(pi, l', r') && ((l' == l && r' == p - 1) || (l' == p + 1 && r' == r))
    ensures Split(comp, b, l, p, r)
  {
  }

  lemma SortedHalves<K(!new)>(comp: (K, K) -> int, s: seq<K>, l: int, p: int, r: int)
    requires Preorder(comp) && 0 <= l <= p <= r < |s| && Split(comp, s, l, p, r)
    requires SortedRange(comp, s, l, p - 1) && SortedRange(comp, s, p + 1, r)
    ensures SortedRange(comp, s, l, r)
  {
  }

  lemma SortedStays<K>(comp: (K, K) -> int, a: seq<K>, b: seq<K>, l: int, r: int, pi: seq<int>, l': int, r': int)
    requires 0 <= l && r < |a| && SortedRange(comp, a, l, r) && Moved(a, b, pi) && r < |pi|
    requires MovesWithin(pi, l', r') && r < l'
    ensures SortedRange(comp, b, l, r)
  {
  }

  method QuickSortRange<K(!new), V>(keys: array<K>, items: array?<V>, l: int, r: int, comp: (K, K) -> int, ghost n: nat)
    returns (ghost pi: seq<int>)
    requires Preorder(comp) && Fits(keys, items, n) && 0 <= l && -1 <= r < n
    modifies keys, items
    ensures SortedRange(comp, keys[..], l, r)
    ensures |pi| == n && MovesWithin(pi, l, r)
    ensures BothMoved(old(keys[..]), old(Slots(items)), keys[..], Slots(items), pi)
    decreases r - l
  {
    ghost var ks0, vs0 := keys[..], Slots(items);
    pi := Identity(n);
    NothingMovedYet(keys, items, n, l, r);
    if l < r {
      var p: int;
      p, pi := Partition(keys, items, l, r, comp, n);
      ghost var ks1, vs1 := keys[..], Slots(items);
      ghost var rho := QuickSortRange(keys, items, l, p - 1, comp, n);
      ghost var ks2, vs2 := keys[..], Slots(items);
      SplitMoved(comp, ks1, ks2, l, p, r, rho, l, p - 1);
      MovesWider(rho, l, p - 1, l, r);
      pi := BothCompose(ks0, vs0, ks1, vs1, ks2, vs2, l, r, pi, rho);
      ghost var sigma := QuickSortRange(keys, items, p + 1, r, comp, n);
      SplitMoved(comp, ks2, keys[..], l, p, r, sigma, p + 1, r);
      SortedStays(comp, ks2, keys[..], l, p - 1, sigma, p + 1, r);
      MovesWider(sigma, p + 1, r, l, r);
      pi := BothCompose(ks0, vs0, ks2, vs2, keys[..], Slots(items), l, r, pi, sigma);
      SortedHalves(comp, keys[..], l, p, r);
    }
  }

  /**
   The range from `index` on is sorted, nothing else is touched, and the items moved exactly as the keys did.
   */
  method SortByKeys<K(!new), V>(keys: array<K>, items: array<V>, index: nat, length: nat, comp: (K, K) -> int)
    returns (ghost pi: seq<int>)
    requires Preorder(comp) && Fits(keys, items, index + length)
    modifies keys, items
    ensures SortedRange(comp, keys[..], index, index + length - 1)
    ensures |pi| == index + length && MovesWithin(pi, index, index + length - 1)
    ensures Moved(old(keys[..]), keys[..], pi) && Moved(old(items[..]), items[..], pi)
  {
    pi := QuickSortRange(keys, items, index, index + length - 1, comp, index + length);
  }

  method SortSub<K(!new)>(keys: array<K>, index: nat, length: nat, comp: (K, K) -> int) returns (ghost pi: seq<int>)
    requires Preorder(comp) && index + length <= keys.Length
    modifies keys
    ensures SortedRange(comp, keys[..], index, index + length - 1)
    ensures |pi| == index + length && MovesWithin(pi, index, index + length - 1)
    ensures Moved(old(keys[..]), keys[..], pi)
  {
    var none: array?<K> := null;
    pi := QuickSortRange(keys, none, index, index + length - 1, comp, index + length);
  }

  function Shorter(pi: seq<int>): (r: seq<int>)
    requires pi != []
    ensures |r| == |pi| - 1
    ensures forall k :: 0 <= k < |r| ==> r[k] == if pi[k] == |pi| - 1 then pi[|pi| - 1] else pi[k]
  {
    var n := |pi| - 1;
    seq(n, k requires 0 <= k < n => if pi[k] == n then pi[n] else pi[k])
  }

  lemma ShorterMoves<T>(a: seq<T>, b: seq<T>, pi: seq<int>)
    requires pi != [] && Moved(a, b, pi) && MovesWithin(pi, 0, |pi| - 1)
    ensures var n := |pi| - 1; Moved(Swapped(a, n, pi[n]), b, Shorter(pi)) && MovesWithin(Shorter(pi), 0, n - 1)
  {
  }

  lemma SwappedElements<T>(a: seq<T>, i: nat, j: nat)
    requires i < |a| && j < |a|
    ensures multiset(Swapped(a, i, j)) == multiset(a)
  {
  }

  /** A move loses and doubles nothing. */
  lemma {:induction false} MovedKeepsElements<T>(a: seq<T>, b: seq<T>, pi: seq<int>)
    requires Moved(a, b, pi) && MovesWithin(pi, 0, |pi| - 1)
    ensures multiset(a) == multiset(b)
    decreases |pi|
  {
    if pi == [] {
      assert a == b;
    } else {
      hide Swapped;
      var n := |pi| - 1;
      ShorterMoves(a, b, pi);
      SwappedElements(a, n, pi[n]);
      MovedKeepsElements(Swapped(a, n, pi[n]), b, Shorter(pi));
    }
  }
}
