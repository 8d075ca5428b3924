/**
 F# maps and sets over the balanced trees, against finite maps and sets.

 Keys are compared by `order`, a total order with values -1, 0 and 1.  A map keeps pairs that are compared
 by key alone; a lookup probes with a pair that has no value.
 */
module FSharpCollections {
  import opened Wrappers
  import opened BalancedTree

  ghost predicate TotalOrder<K(!new)>(order: (K, K) -> int)
  {
    TotalPreorder(order) && forall a, b :: order(a, b) == 0 ==> a == b
  }

  datatype Pair<K, V> = Pair(key: K, value: Option<V>)

  function ByKey<K, V>(order: (K, K) -> int): (Pair<K, V>, Pair<K, V>) -> int
  {
    (p: Pair<K, V>, q: Pair<K, V>) => order(p.key, q.key)
  }

  datatype FSharpMap<K, V> = FSharpMap(tree: Tree<Pair<K, V>>)
  {
    function TryFind(order: (K, K) -> int, k: K): Option<V>
    {
      var o := BalancedTree.TryFind(ByKey(order), Pair(k, None), tree);
      if o.None? then None else o.value.value
    }

    function ContainsKey(order: (K, K) -> int, k: K): bool
    {
      BalancedTree.Contains(ByKey(order), Pair(k, None), tree)
    }

    function Add(order: (K, K) -> int, k: K, v: V): FSharpMap<K, V>
      requires Exact(tree)
    {
      FSharpMap(BalancedTree.Add(ByKey(order), Pair(k, Some(v)), tree))
    }

    function Remove(order: (K, K) -> int, k: K): FSharpMap<K, V>
      requires Exact(tree)
    {
      FSharpMap(BalancedTree.Remove(ByKey(order), Pair(k, None), tree))
    }

    function Count(): int
    {
      if tree.Null? then 0 else tree.count
    }

    function ToSeq(): seq<Pair<K, V>>
    {
      Enumerate(false, tree)
    }
  }

  /** The tree is a search tree with exact fields and holds the entries of `m`. */
  ghost predicate Represents<K(!new), V(!new)>(order: (K, K) -> int, f: FSharpMap<K, V>, m: map<K, V>)
  {
    && Exact(f.tree) && Sorted(ByKey(order), Inorder(f.tree))
    && forall p :: p in Inorder(f.tree) <==> p.key in m && p.value == Some(m[p.key])
  }

  lemma ByKeyIsPreorder<K(!new), V(!new)>(order: (K, K) -> int)
    requires TotalOrder(order)
    ensures TotalPreorder(ByKey<K, V>(order))
    ensures forall p: Pair<K, V>, q: Pair<K, V> :: ByKey<K, V>(order)(p, q) == 0 <==> p.key == q.key
  {
    var cmp := ByKey<K, V>(order);
    forall p: Pair<K, V>, q: Pair<K, V>
      ensures -1 <= cmp(p, q) <= 1 && cmp(p, q) == -cmp(q, p) && (cmp(p, q) == 0 <==> p.key == q.key)
    {
      var a, b := p.key, q.key;
      assert order(a, a) == -order(a, a);
      assert cmp(p, q) == order(a, b) && cmp(q, p) == order(b, a);
    }
    forall p: Pair<K, V>, q: Pair<K, V>, r: Pair<K, V>
      ensures cmp(p, q) <= 0 && cmp(q, r) <= 0 ==> cmp(p, r) <= 0
      ensures cmp(p, q) <= 0 && cmp(q, r) < 0 ==> cmp(p, r) < 0
      ensures cmp(p, q) < 0 && cmp(q, r) <= 0 ==> cmp(p, r) < 0
    {
      var a, b, c := p.key, q.key, r.key;
      assert cmp(p, q) == order(a, b) && cmp(q, r) == order(b, c) && cmp(p, r) == order(a, c);
    }
  }

  lemma AddRefines<K(!new), V(!new)>(order: (K, K) -> int, f: FSharpMap<K, V>, m: map<K, V>, k: K, v: V)
    requires TotalOrder(order) && Represents(order, f, m)
    ensures Represents(order, f.Add(order, k, v), m[k := v])
    ensures Balanced(f.tree) ==> Balanced(f.Add(order, k, v).tree)
  {
    ByKeyIsPreorder<K, V>(order);
    var cmp, x := ByKey<K, V>(order), Pair(k, Some(v));
    var combine := (_: Pair<K, V>, y: Pair<K, V>) => y;
    hide TotalOrder, TotalPreorder, Sorted, Exact;
    PutContents(cmp, combine, x, f.tree);
    if Balanced(f.tree) {
      PutBalances(cmp, combine, x, f.tree);
    }
    assert Inserted(cmp, combine, x, f.tree) == x;
  }

  lemma RemoveRefines<K(!new), V(!new)>(order: (K, K) -> int, f: FSharpMap<K, V>, m: map<K, V>, k: K)
    requires TotalOrder(order) && Represents(order, f, m)
    ensures Represents(order, f.Remove(order, k), m - {k})
  {
    ByKeyIsPreorder<K, V>(order);
    hide TotalOrder, TotalPreorder, Sorted, Exact;
    RemoveContents(ByKey<K, V>(order), Pair(k, None), f.tree);
  }

  lemma LookupRefines<K(!new), V(!new)>(order: (K, K) -> int, f: FSharpMap<K, V>, m: map<K, V>, k: K)
    requires TotalOrder(order) && Represents(order, f, m)
    ensures f.TryFind(order, k) == if k in m then Some(m[k]) else None
    ensures f.ContainsKey(order, k) <==> k in m
  {
    ByKeyIsPreorder<K, V>(order);
    hide TotalOrder, TotalPreorder, Sorted, Exact;
    TryFindFinds(ByKey<K, V>(order), Pair(k, None), f.tree);
    if k in m {
      assert Pair(k, Some(m[k])) in Inorder(f.tree);
    }
  }

  lemma CountEntries<K(!new), V(!new)>(s: seq<Pair<K, V>>, m: map<K, V>)
    requires forall p :: p in s ==> p.key in m && p.value == Some(m[p.key])
    requires forall k :: k in m ==> Pair(k, Some(m[k])) in s
    requires forall i, k :: 0 <= i < k < |s| ==> s[i].key != s[k].key
    ensures |s| == |m|
  {
    var keys := seq(|s|, i requires 0 <= i < |s| => s[i].key);
    forall k
      ensures k in keys <==> k in m.Keys
    {
      if k in keys {
        var i :| 0 <= i < |keys| && keys[i] == k;
        assert s[i] in s;
      }
      if k in m {
        var i :| 0 <= i < |s| && s[i] == Pair(k, Some(m[k]));
        assert keys[i] == k;
      }
    }
    CountElements(keys, m.Keys);
  }

  /** The count is exact, and the enumeration lists every entry once, in ascending order of keys. */
  lemma EnumerationRefines<K(!new), V(!new)>(order: (K, K) -> int, f: FSharpMap<K, V>, m: map<K, V>)
    requires TotalOrder(order) && Represents(order, f, m)
    ensures f.Count() == |m| == |f.ToSeq()|
    ensures forall p :: p in f.ToSeq() <==> p.key in m && p.value == Some(m[p.key])
    ensures forall i, k :: 0 <= i < k < |f.ToSeq()| ==> order(f.ToSeq()[i].key, f.ToSeq()[k].key) < 0
  {
    EnumerateIsInorder(false, f.tree);
    ExactSizes(f.tree);
    var s := Inorder(f.tree);
    forall i, k | 0 <= i < k < |s|
      ensures s[i].key != s[k].key && order(s[i].key, s[k].key) < 0
    {
      assert ByKey<K, V>(order)(s[i], s[k]) < 0;
      ByKeyIsPreorder<K, V>(order);
    }
    hide TotalOrder, Exact;
    CountEntries(s, m);
  }

  // ----- whole sequences of operations -----

  datatype Op<K, V> = Put(k: K, v: V) | Drop(k: K)

  function RunMap<K, V>(start: map<K, V>, ops: seq<Op<K, V>>): map<K, V>
  {
    if ops == [] then start else
    var m := RunMap(start, ops[..|ops| - 1]);
    match ops[|ops| - 1]
    case Put(k, v) => m[k := v]
    case Drop(k) => m - {k}
  }

  function RunTree<K, V>(order: (K, K) -> int, start: FSharpMap<K, V>, ops: seq<Op<K, V>>): (f: FSharpMap<K, V>)
    requires Exact(start.tree)
    ensures Exact(f.tree)
  {
    if ops == [] then start else
    var f := RunTree(order, start, ops[..|ops| - 1]);
    match ops[|ops| - 1]
    case Put(k, v) => f.Add(order, k, v)
    case Drop(k) => f.Remove(order, k)
  }

  /** Whatever is added and removed, in whatever order, the tree keeps standing for the same finite map. */
  lemma {:induction false} RunRefines<K(!new), V(!new)>(order: (K, K) -> int, start: FSharpMap<K, V>, m: map<K, V>,
                                                        ops: seq<Op<K, V>>)
    requires TotalOrder(order) && Represents(order, start, m)
    ensures Represents(order, RunTree(order, start, ops), RunMap(m, ops))
    decreases |ops|
  {
    hide TotalOrder, Sorted, Exact;
    if ops != [] {
      var front := ops[..|ops| - 1];
      RunRefines(order, start, m, front);
      match ops[|ops| - 1]
      case Put(k, v) => AddRefines(order, RunTree(order, start, front), RunMap(m, front), k, v);
      case Drop(k) => RemoveRefines(order, RunTree(order, start, front), RunMap(m, front), k);
    }
  }

  /** The tree built from the entries of a map, listed by ascending key, stands for that map and is balanced. */
  lemma BuiltRepresents<K(!new), V(!new)>(order: (K, K) -> int, data: seq<Pair<K, V>>, m: map<K, V>)
    requires Sorted(ByKey(order), data) && forall p :: p in data <==> p.key in m && p.value == Some(m[p.key])
    ensures Represents(order, FSharpMap(BuildFrom(data)), m) && Balanced(BuildFrom(data))
  {
    hide Sorted, Exact, Balanced;
    BuildAll(data);
  }

  /** From a balanced tree on, additions alone keep the tree balanced. */
  lemma {:induction false} AddsKeepBalance<K(!new), V(!new)>(order: (K, K) -> int, start: FSharpMap<K, V>, m: map<K, V>,
                                                             ops: seq<Op<K, V>>)
    requires TotalOrder(order) && Represents(order, start, m) && Balanced(start.tree)
    requires forall i :: 0 <= i < |ops| ==> ops[i].Put?
    ensures Balanced(RunTree(order, start, ops).tree)
    decreases |ops|
  {
    hide TotalOrder, Sorted, Exact, Balanced;
    if ops != [] {
      var front := ops[..|ops| - 1];
      AddsKeepBalance(order, start, m, front);
      RunRefines(order, start, m, front);
      AddRefines(order, RunTree(order, start, front), RunMap(m, front), ops[|ops| - 1].k, ops[|ops| - 1].v);
    }
  }

  /**
   A tree built from any array of entries and changed by additions alone is balanced, so its height is
   logarithmic in the number of entries.
   */
  lemma AddsStayBalanced<K(!new), V(!new)>(order: (K, K) -> int, data: seq<Pair<K, V>>, m: map<K, V>, ops: seq<Op<K, V>>)
    requires TotalOrder(order) && forall i :: 0 <= i < |ops| ==> ops[i].Put?
    requires Sorted(ByKey(order), data) && forall p :: p in data <==> p.key in m && p.value == Some(m[p.key])
    ensures var f := RunTree(order, FSharpMap(BuildFrom(data)), ops);
            && Represents(order, f, RunMap(m, ops)) && Balanced(f.tree)
            && Height(f.tree) >= 0 && |RunMap(m, ops)| >= Fib(Height(f.tree) + 2) - 1
  {
    hide TotalOrder, Balanced, Exact, Fib, Sorted;
    var start := FSharpMap(BuildFrom(data));
    BuiltRepresents(order, data, m);
    AddsKeepBalance(order, start, m, ops);
    RunRefines(order, start, m, ops);
    var f := RunTree(order, start, ops);
    EnumerationRefines(order, f, RunMap(m, ops));
    ExactSizes(f.tree);
    BalancedIsDense(f.tree);
  }

  // ----- sets -----

  datatype FSharpSet<T> = FSharpSet(tree: Tree<T>)
  {
    function Contains(order: (T, T) -> int, v: T): bool
    {
      BalancedTree.Contains(order, v, tree)
    }

    function Add(order: (T, T) -> int, x: T): FSharpSet<T>
      requires Exact(tree)
    {
      FSharpSet(BalancedTree.Add(order, x, tree))
    }

    function Remove(order: (T, T) -> int, v: T): FSharpSet<T>
      requires Exact(tree)
    {
      FSharpSet(BalancedTree.Remove(order, v, tree))
    }

    function Count(): int
    {
      if tree.Null? then 0 else tree.count
    }

    /** The head of the enumeration; an empty set has none. */
    function MinimumElement(): Option<T>
    {
      var s := Enumerate(false, tree);
      if s == [] then None else Some(s[0])
    }

    function MaximumElement(): Option<T>
    {
      var s := Enumerate(true, tree);
      if s == [] then None else Some(s[0])
    }
  }

  ghost predicate Holds<T(!new)>(order: (T, T) -> int, f: FSharpSet<T>, s: set<T>)
  {
    && Exact(f.tree) && Sorted(order, Inorder(f.tree))
    && forall x :: x in Inorder(f.tree) <==> x in s
  }

  /** Adding, removing and testing act as on a finite set. */
  lemma SetRefines<T(!new)>(order: (T, T) -> int, f: FSharpSet<T>, s: set<T>, x: T)
    requires TotalOrder(order) && Holds(order, f, s)
    ensures Holds(order, f.Add(order, x), s + {x})
    ensures Holds(order, f.Remove(order, x), s - {x})
    ensures f.Contains(order, x) <==> x in s
  {
    var combine := (_: T, y: T) => y;
    assert order(x, x) == -order(x, x);
    PutContents(order, combine, x, f.tree);
    RemoveContents(order, x, f.tree);
    TryFindFinds(order, x, f.tree);
    hide TotalPreorder, Sorted, Exact;
    assert Inserted(order, combine, x, f.tree) == x;
  }

  lemma {:induction false} CountElements<T(!new)>(q: seq<T>, s: set<T>)
    requires forall x :: x in q <==> x in s
    requires forall i, k :: 0 <= i < k < |q| ==> q[i] != q[k]
    ensures |q| == |s|
  {
    if q == [] {
      assert s == {};
    } else {
      var n := |q| - 1;
      assert q[n] in q;
      forall x
        ensures x in q[..n] <==> x in s - {q[n]}
      {
        assert x in q <==> x in q[..n] || x == q[n];
      }
      CountElements(q[..n], s - {q[n]});
    }
  }

  /** The count is exact; minimum and maximum exist exactly for nonempty sets and bound all elements. */
  lemma SetExtremes<T(!new)>(order: (T, T) -> int, f: FSharpSet<T>, s: set<T>)
    requires TotalOrder(order) && Holds(order, f, s)
    ensures f.Count() == |s|
    ensures f.MinimumElement().Some? <==> s != {}
    ensures f.MaximumElement().Some? <==> s != {}
    ensures s != {} ==>
              && f.MinimumElement().value in s && f.MaximumElement().value in s
              && forall x :: x in s ==> order(f.MinimumElement().value, x) <= 0 && order(x, f.MaximumElement().value) <= 0
  {
    EnumerateIsInorder(false, f.tree);
    EnumerateIsInorder(true, f.tree);
    ExactSizes(f.tree);
    var q := Inorder(f.tree);
    forall i, k | 0 <= i < k < |q|
      ensures q[i] != q[k]
    {
      assert order(q[i], q[k]) < 0;
      assert order(q[i], q[i]) == -order(q[i], q[i]);
    }
    CountElements(q, s);
    if s != {} {
      assert q != [];
      forall x | x in s
        ensures order(q[0], x) <= 0 && order(x, q[|q| - 1]) <= 0
      {
        var i :| 0 <= i < |q| && q[i] == x;
        assert order(x, x) == -order(x, x);
      }
      assert Reversed(q)[0] == q[|q| - 1] && q[0] in q && q[|q| - 1] in q;
    }
  }
}
