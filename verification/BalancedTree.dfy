/**
 The immutable balanced trees behind F# maps and sets.

 Every node carries its height and its size.  A lookup returns the subtree it stopped at and the spine that
 leads there, nearest node first; an update rebuilds the tree along the spine.  Rebuilding rotates only
 where the new subtree is the taller one, so insertion keeps trees balanced and removal need not.

 Elements are compared by `cmp`, any total preorder with values -1, 0 and 1.  Loops over local variables
 appear as methods, proved equal to the functions beside them.
 */
module BalancedTree {
  import opened Wrappers

  datatype Tree<T> = Null | Tree(node: T, left: Tree<T>, right: Tree<T>, height: int, count: int)

  /** A node passed on the way down, with the side that was not taken. */
  datatype Frame<T> = Frame(wentRight: bool, node: T, side: Tree<T>)

  type Spine<T> = seq<Frame<T>>

  // ----- orders -----

  ghost predicate TotalPreorder<T(!new)>(cmp: (T, T) -> int)
  {
    && (forall a, b :: -1 <= cmp(a, b) <= 1 && cmp(a, b) == -cmp(b, a))
    && (forall a, b, c :: cmp(a, b) <= 0 && cmp(b, c) <= 0 ==> cmp(a, c) <= 0)
    && (forall a, b, c :: cmp(a, b) <= 0 && cmp(b, c) < 0 ==> cmp(a, c) < 0)
    && (forall a, b, c :: cmp(a, b) < 0 && cmp(b, c) <= 0 ==> cmp(a, c) < 0)
  }

  ghost predicate Sorted<T>(cmp: (T, T) -> int, s: seq<T>)
  {
    forall i, k :: 0 <= i < k < |s| ==> cmp(s[i], s[k]) < 0
  }

  ghost predicate AllBelow<T>(cmp: (T, T) -> int, s: seq<T>, x: T)
  {
    forall i :: 0 <= i < |s| ==> cmp(s[i], x) < 0
  }

  ghost predicate AllAbove<T>(cmp: (T, T) -> int, s: seq<T>, x: T)
  {
    forall i :: 0 <= i < |s| ==> cmp(x, s[i]) < 0
  }

  // ----- trees -----

  function Height<T>(t: Tree<T>): int
  {
    if t.Null? then 0 else t.height
  }

  function Count<T>(t: Tree<T>): int
  {
    if t.Null? then 0 else t.count
  }

  function Branch<T>(node: T, left: Tree<T>, right: Tree<T>): Tree<T>
  {
    var a, b := Height(left), Height(right);
    Tree(node, left, right, 1 + (if a > b then a else b), 1 + Count(left) + Count(right))
  }

  /** The elements of a tree, in order. */
  function Inorder<T>(t: Tree<T>): seq<T>
  {
    if t.Null? then [] else Inorder(t.left) + [t.node] + Inorder(t.right)
  }

  /** The height and size fields are what they claim to be. */
  ghost predicate Exact<T>(t: Tree<T>)
  {
    t.Tree? ==>
      && Exact(t.left) && Exact(t.right)
      && t.height == 1 + (if Height(t.left) > Height(t.right) then Height(t.left) else Height(t.right))
      && t.count == 1 + Count(t.left) + Count(t.right)
  }

  ghost predicate Balanced<T>(t: Tree<T>)
  {
    t.Tree? ==>
      Balanced(t.left) && Balanced(t.right) && -1 <= Height(t.left) - Height(t.right) <= 1
  }

  lemma {:induction false} ExactSizes<T>(t: Tree<T>)
    requires Exact(t)
    ensures Height(t) >= 0 && (t.Tree? ==> Height(t) > 0)
    ensures Count(t) == |Inorder(t)|
  {
    if t.Tree? {
      ExactSizes(t.left);
      ExactSizes(t.right);
    }
  }

  function Fib(n: nat): nat
  {
    if n < 2 then n else Fib(n - 1) + Fib(n - 2)
  }

  lemma {:induction false} FibMonotone(m: nat, n: nat)
    requires m <= n
    ensures Fib(m) <= Fib(n)
    decreases n
  {
    if m < n {
      if n >= 2 {
        FibMonotone(m, n - 1);
      }
    }
  }

  lemma FibStep(a: nat, b: nat)
    requires -1 <= a - b <= 1
    ensures Fib(3 + (if a > b then a else b)) <= Fib(a + 2) + Fib(b + 2)
  {
    var h := 1 + if a > b then a else b;
    FibMonotone(h, a + 2);
    FibMonotone(h, b + 2);
  }

  /** A balanced tree is never sparse, so its height is logarithmic in its size. */
  lemma {:induction false} BalancedIsDense<T>(t: Tree<T>)
    requires Exact(t) && Balanced(t)
    ensures Height(t) >= 0 && |Inorder(t)| >= Fib(Height(t) + 2) - 1
  {
    if t.Tree? {
      BalancedIsDense(t.left);
      BalancedIsDense(t.right);
      FibStep(Height(t.left), Height(t.right));
    }
  }

  // ----- spines -----

  function Before<T>(spine: Spine<T>): seq<T>
  {
    if spine == [] then [] else
    Before(spine[1..]) + if spine[0].wentRight then Inorder(spine[0].side) + [spine[0].node] else []
  }

  function After<T>(spine: Spine<T>): seq<T>
  {
    if spine == [] then [] else
    (if spine[0].wentRight then [] else [spine[0].node] + Inorder(spine[0].side)) + After(spine[1..])
  }

  /** The elements of the tree that `t` under `spine` stands for. */
  function Whole<T>(spine: Spine<T>, t: Tree<T>): seq<T>
  {
    Before(spine) + Inorder(t) + After(spine)
  }

  function PlugOne<T>(f: Frame<T>, t: Tree<T>): Tree<T>
  {
    if f.wentRight then Branch(f.node, f.side, t) else Branch(f.node, t, f.side)
  }

  /** Put `t` back under its spine, without rotations. */
  function Plug<T>(spine: Spine<T>, t: Tree<T>): Tree<T>
  {
    if spine == [] then t else Plug(spine[1..], PlugOne(spine[0], t))
  }

  ghost predicate ExactSpine<T>(spine: Spine<T>)
  {
    forall i :: 0 <= i < |spine| ==> Exact(spine[i].side)
  }

  lemma Regroup<T>(a: seq<T>, b: seq<T>, x: T, c: seq<T>, d: seq<T>)
    ensures a + (b + [x]) + c + d == a + (b + [x] + c) + d
    ensures a + b + ([x] + c + d) == a + (b + [x] + c) + d
    ensures b + ([x] + c + d) == (b + [x] + c) + d
  {
    assert [x] + c + d == [x] + (c + d);
  }

  lemma WholePush<T>(spine: Spine<T>, f: Frame<T>, t: Tree<T>)
    ensures Before([f] + spine) == Before(spine) + if f.wentRight then Inorder(f.side) + [f.node] else []
    ensures After([f] + spine) == (if f.wentRight then [] else [f.node] + Inorder(f.side)) + After(spine)
    ensures Whole([f] + spine, t) == Whole(spine, PlugOne(f, t))
  {
    assert ([f] + spine)[1..] == spine;
    var b, a := Before(spine), After(spine);
    assert [] + a == a && b + [] == b;
    if f.wentRight {
      Regroup(b, Inorder(f.side), f.node, Inorder(t), a);
    } else {
      Regroup(b, Inorder(t), f.node, Inorder(f.side), a);
    }
  }

  // ----- lookup -----

  /** The way down from `t`, whose own spine is `spine`. */
  function Descend<T>(cmp: (T, T) -> int, k: T, t: Tree<T>, spine: Spine<T>): (Tree<T>, Spine<T>)
  {
    if t.Null? then (t, spine) else
    var m := cmp(k, t.node);
    if m == 0 then (t, spine)
    else if m == 1 then Descend(cmp, k, t.right, [Frame(true, t.node, t.left)] + spine)
    else Descend(cmp, k, t.left, [Frame(false, t.node, t.right)] + spine)
  }

  method Lookup<T>(cmp: (T, T) -> int, k: T, t: Tree<T>) returns (found: Tree<T>, spine: Spine<T>)
    ensures (found, spine) == Descend(cmp, k, t, [])
  {
    spine := [];
    found := t;
    var loop := true;
    while loop
      invariant loop ==> Descend(cmp, k, found, spine) == Descend(cmp, k, t, [])
      invariant !loop ==> (found, spine) == Descend(cmp, k, t, [])
      decreases loop, found
    {
      if found.Null? {
        loop := false;
      } else {
        var m := cmp(k, found.node);
        if m == 0 {
          loop := false;
        } else if m == 1 {
          spine := [Frame(true, found.node, found.left)] + spine;
          found := found.right;
        } else {
          spine := [Frame(false, found.node, found.right)] + spine;
          found := found.left;
        }
      }
    }
  }

  /** Nothing is lost on the way down: putting the end back under the spine gives the tree again. */
  lemma {:induction false} DescendPlugs<T>(cmp: (T, T) -> int, k: T, t: Tree<T>, spine: Spine<T>)
    requires Exact(t) && ExactSpine(spine)
    ensures var (t', spine') := Descend(cmp, k, t, spine);
            && Exact(t') && ExactSpine(spine')
            && Plug(spine', t') == Plug(spine, t) && Whole(spine', t') == Whole(spine, t)
  {
    if t.Tree? && cmp(k, t.node) != 0 {
      var right := cmp(k, t.node) == 1;
      var f := if right then Frame(true, t.node, t.left) else Frame(false, t.node, t.right);
      var next := if right then t.right else t.left;
      assert PlugOne(f, next) == t && ([f] + spine)[1..] == spine;
      WholePush(spine, f, next);
      DescendPlugs(cmp, k, next, [f] + spine);
    }
  }

  lemma Splits<T(!new)>(cmp: (T, T) -> int, a: seq<T>, x: T, b: seq<T>)
    requires TotalPreorder(cmp) && Sorted(cmp, a + [x] + b)
    ensures AllBelow(cmp, a, x) && AllAbove(cmp, b, x)
  {
    var s := a + [x] + b;
    forall i | 0 <= i < |a|
      ensures cmp(a[i], x) < 0
    {
      assert cmp(s[i], s[|a|]) < 0;
    }
    forall i | 0 <= i < |b|
      ensures cmp(x, b[i]) < 0
    {
      assert cmp(s[|a|], s[|a| + 1 + i]) < 0;
    }
  }

  lemma SortedPart<T>(cmp: (T, T) -> int, a: seq<T>, b: seq<T>, c: seq<T>)
    requires Sorted(cmp, a + b + c)
    ensures Sorted(cmp, b)
  {
    var s := a + b + c;
    assert forall i :: 0 <= i < |b| ==> b[i] == s[|a| + i];
  }

  lemma BelowTrans<T(!new)>(cmp: (T, T) -> int, s: seq<T>, x: T, y: T)
    requires TotalPreorder(cmp) && cmp(x, y) <= 0
    ensures AllBelow(cmp, s, x) ==> AllBelow(cmp, s, y)
    ensures AllAbove(cmp, s, y) ==> AllAbove(cmp, s, x)
  {
  }

  lemma SortedSides<T(!new)>(cmp: (T, T) -> int, a: seq<T>, x: T, b: seq<T>)
    requires TotalPreorder(cmp) && Sorted(cmp, a + [x] + b)
    ensures Sorted(cmp, a) && Sorted(cmp, b)
  {
    assert a + [x] + b == [] + a + ([x] + b);
    assert a + [x] + b == (a + [x]) + b + [];
    SortedPart(cmp, [], a, [x] + b);
    SortedPart(cmp, a + [x], b, []);
  }

  lemma BelowConcat<T>(cmp: (T, T) -> int, a: seq<T>, b: seq<T>, x: T)
    ensures AllBelow(cmp, a, x) && AllBelow(cmp, b, x) ==> AllBelow(cmp, a + b, x)
    ensures AllAbove(cmp, a, x) && AllAbove(cmp, b, x) ==> AllAbove(cmp, a + b, x)
  {
  }

  lemma GoRight<T(!new)>(cmp: (T, T) -> int, k: T, t: Tree<T>, spine: Spine<T>)
    requires TotalPreorder(cmp) && t.Tree? && Sorted(cmp, Inorder(t)) && cmp(k, t.node) > 0
    requires AllBelow(cmp, Before(spine), k)
    ensures var spine' := [Frame(true, t.node, t.left)] + spine;
            AllBelow(cmp, Before(spine'), k) && After(spine') == After(spine)
  {
    var l := Inorder(t.left);
    Splits(cmp, l, t.node, Inorder(t.right));
    WholePush(spine, Frame(true, t.node, t.left), t.right);
    assert cmp(t.node, k) <= 0;
    BelowTrans(cmp, l, t.node, k);
    hide TotalPreorder;
    assert AllBelow(cmp, [t.node], k);
    BelowConcat(cmp, l, [t.node], k);
    BelowConcat(cmp, Before(spine), l + [t.node], k);
    assert [] + After(spine) == After(spine);
  }

  lemma GoLeft<T(!new)>(cmp: (T, T) -> int, k: T, t: Tree<T>, spine: Spine<T>)
    requires TotalPreorder(cmp) && t.Tree? && Sorted(cmp, Inorder(t)) && cmp(k, t.node) < 0
    requires AllAbove(cmp, After(spine), k)
    ensures var spine' := [Frame(false, t.node, t.right)] + spine;
            AllAbove(cmp, After(spine'), k) && Before(spine') == Before(spine)
  {
    var r := Inorder(t.right);
    Splits(cmp, Inorder(t.left), t.node, r);
    WholePush(spine, Frame(false, t.node, t.right), t.left);
    BelowTrans(cmp, r, k, t.node);
    hide TotalPreorder;
    assert AllAbove(cmp, [t.node], k);
    BelowConcat(cmp, [t.node], r, k);
    BelowConcat(cmp, [t.node] + r, After(spine), k);
    assert Before(spine) + [] == Before(spine);
  }

  /** The lookup goes where the element belongs: everything before it is below, everything after it above. */
  lemma {:induction false} DescendFinds<T(!new)>(cmp: (T, T) -> int, k: T, t: Tree<T>, spine: Spine<T>)
    requires TotalPreorder(cmp) && Sorted(cmp, Inorder(t))
    requires AllBelow(cmp, Before(spine), k) && AllAbove(cmp, After(spine), k)
    ensures var (t', spine') := Descend(cmp, k, t, spine);
            && AllBelow(cmp, Before(spine'), k) && AllAbove(cmp, After(spine'), k)
            && Sorted(cmp, Inorder(t')) && (t'.Tree? ==> cmp(k, t'.node) == 0)
  {
    hide AllBelow, AllAbove, Sorted, Before, After;
    if t.Tree? && cmp(k, t.node) != 0 {
      assert -1 <= cmp(k, t.node) <= 1;
      SortedSides(cmp, Inorder(t.left), t.node, Inorder(t.right));
      if cmp(k, t.node) == 1 {
        GoRight(cmp, k, t, spine);
        DescendFinds(cmp, k, t.right, [Frame(true, t.node, t.left)] + spine);
      } else {
        GoLeft(cmp, k, t, spine);
        DescendFinds(cmp, k, t.left, [Frame(false, t.node, t.right)] + spine);
      }
    }
  }

  // ----- rebuilding -----

  /** The new right subtree `t` of `x` is too tall. */
  function RotateLeft<T>(x: T, l: Tree<T>, t: Tree<T>): Tree<T>
    requires t.Tree? && Exact(t)
  {
    ExactSizes(t.left);
    ExactSizes(t.right);
    if Height(t.left) == Height(t.right) + 1 then
      var m := t.left;
      Branch(m.node, Branch(x, l, m.left), Branch(t.node, m.right, t.right))
    else
      Branch(t.node, Branch(x, l, t.left), t.right)
  }

  /** The new left subtree `t` of `x` is too tall. */
  function RotateRight<T>(x: T, t: Tree<T>, r: Tree<T>): Tree<T>
    requires t.Tree? && Exact(t)
  {
    ExactSizes(t.left);
    ExactSizes(t.right);
    if Height(t.right) == Height(t.left) + 1 then
      var m := t.right;
      Branch(m.node, Branch(t.node, t.left, m.left), Branch(x, m.right, r))
    else
      Branch(t.node, t.left, Branch(x, t.right, r))
  }

  /** One step up the spine: a rotation if the new subtree is the taller one by more than one. */
  function RebuildOne<T>(f: Frame<T>, t: Tree<T>): Tree<T>
    requires Exact(f.side) && Exact(t)
  {
    ExactSizes(f.side);
    if Height(t) > Height(f.side) + 1 then
      if f.wentRight then RotateLeft(f.node, f.side, t) else RotateRight(f.node, t, f.side)
    else PlugOne(f, t)
  }

  lemma SingleRotation<T>(a: seq<T>, x: T, b: seq<T>, y: T, c: seq<T>)
    ensures (a + [x] + b) + [y] + c == a + [x] + (b + [y] + c)
  {
  }

  lemma DoubleRotation<T>(a: seq<T>, x: T, b: seq<T>, y: T, c: seq<T>, z: T, d: seq<T>)
    ensures (a + [x] + b) + [y] + (c + [z] + d) == a + [x] + ((b + [y] + c) + [z] + d)
    ensures (a + [x] + b) + [y] + (c + [z] + d) == (a + [x] + (b + [y] + c)) + [z] + d
  {
    SingleRotation(a, x, b, y, c + [z] + d);
    SingleRotation(b, y, c, z, d);
    SingleRotation(a, x, b + [y] + c, z, d);
  }

  lemma RotateLeftIsExact<T>(x: T, l: Tree<T>, t: Tree<T>)
    requires t.Tree? && Exact(t) && Exact(l)
    ensures Exact(RotateLeft(x, l, t))
  {
    ExactSizes(t.left);
    ExactSizes(t.right);
  }

  lemma RotateRightIsExact<T>(x: T, t: Tree<T>, r: Tree<T>)
    requires t.Tree? && Exact(t) && Exact(r)
    ensures Exact(RotateRight(x, t, r))
  {
    ExactSizes(t.left);
    ExactSizes(t.right);
  }

  lemma InorderBranch<T>(x: T, l: Tree<T>, r: Tree<T>)
    ensures Inorder(Branch(x, l, r)) == Inorder(l) + [x] + Inorder(r)
  {
  }

  lemma RotateLeftKeeps<T>(x: T, l: Tree<T>, t: Tree<T>)
    requires t.Tree? && Exact(t) && Exact(l)
    ensures Inorder(RotateLeft(x, l, t)) == Inorder(Branch(x, l, t))
  {
    ExactSizes(t.left);
    ExactSizes(t.right);
    var a, r := Inorder(l), Inorder(t.right);
    InorderBranch(x, l, t);
    InorderBranch(t.node, t.left, t.right);
    if Height(t.left) == Height(t.right) + 1 {
      var m := t.left;
      InorderBranch(x, l, m.left);
      InorderBranch(t.node, m.right, t.right);
      InorderBranch(m.node, Branch(x, l, m.left), Branch(t.node, m.right, t.right));
      assert Inorder(t) == (Inorder(m.left) + [m.node] + Inorder(m.right)) + [t.node] + r;
      hide Inorder, Branch;
      DoubleRotation(a, x, Inorder(m.left), m.node, Inorder(m.right), t.node, r);
    } else {
      InorderBranch(x, l, t.left);
      InorderBranch(t.node, Branch(x, l, t.left), t.right);
      assert Inorder(t) == Inorder(t.left) + [t.node] + r;
      hide Inorder, Branch;
      SingleRotation(a, x, Inorder(t.left), t.node, r);
    }
  }

  lemma RotateRightKeeps<T>(x: T, t: Tree<T>, r: Tree<T>)
    requires t.Tree? && Exact(t) && Exact(r)
    ensures Inorder(RotateRight(x, t, r)) == Inorder(Branch(x, t, r))
  {
    ExactSizes(t.left);
    ExactSizes(t.right);
    var l, d := Inorder(t.left), Inorder(r);
    InorderBranch(x, t, r);
    if Height(t.right) == Height(t.left) + 1 {
      var m := t.right;
      InorderBranch(t.node, t.left, m.left);
      InorderBranch(x, m.right, r);
      InorderBranch(m.node, Branch(t.node, t.left, m.left), Branch(x, m.right, r));
      assert Inorder(t) == l + [t.node] + (Inorder(m.left) + [m.node] + Inorder(m.right));
      hide Inorder, Branch;
      DoubleRotation(l, t.node, Inorder(m.left), m.node, Inorder(m.right), x, d);
    } else {
      InorderBranch(x, t.right, r);
      InorderBranch(t.node, t.left, Branch(x, t.right, r));
      assert Inorder(t) == l + [t.node] + Inorder(t.right);
      hide Inorder, Branch;
      SingleRotation(l, t.node, Inorder(t.right), x, d);
    }
  }

  /** A rotation changes neither the elements nor their order. */
  lemma RebuildOneKeeps<T>(f: Frame<T>, t: Tree<T>)
    requires Exact(f.side) && Exact(t)
    ensures Exact(RebuildOne(f, t))
    ensures Inorder(RebuildOne(f, t)) == Inorder(PlugOne(f, t))
  {
    ExactSizes(f.side);
    if Height(t) > Height(f.side) + 1 {
      RotateLeftKeeps(f.node, f.side, t);
      RotateRightKeeps(f.node, t, f.side);
      RotateLeftIsExact(f.node, f.side, t);
      RotateRightIsExact(f.node, t, f.side);
      hide RotateLeft, RotateRight;
    }
  }

  function RebuildAll<T>(spine: Spine<T>, t: Tree<T>): (r: Tree<T>)
    requires ExactSpine(spine) && Exact(t)
    ensures Exact(r)
    decreases |spine|
  {
    if spine == [] then t else
    RebuildOneKeeps(spine[0], t);
    RebuildAll(spine[1..], RebuildOne(spine[0], t))
  }

  method Rebuild<T>(spine: Spine<T>, t: Tree<T>) returns (r: Tree<T>)
    requires ExactSpine(spine) && Exact(t)
    ensures r == RebuildAll(spine, t)
  {
    r := t;
    for i := 0 to |spine|
      invariant Exact(r) && RebuildAll(spine[i..], r) == RebuildAll(spine, t)
    {
      assert spine[i..][1..] == spine[i + 1..] && spine[i..][0] == spine[i];
      RebuildOneKeeps(spine[i], r);
      r := RebuildOne(spine[i], r);
    }
  }

  /** Rebuilding keeps order and content, whatever the shape of the trees involved. */
  lemma {:induction false} RebuildKeeps<T>(spine: Spine<T>, t: Tree<T>)
    requires ExactSpine(spine) && Exact(t)
    ensures Inorder(RebuildAll(spine, t)) == Whole(spine, t)
    decreases |spine|
  {
    if spine == [] {
      assert Whole(spine, t) == Inorder(t);
    } else {
      assert [spine[0]] + spine[1..] == spine;
      WholePush(spine[1..], spine[0], t);
      RebuildOneKeeps(spine[0], t);
      RebuildKeeps(spine[1..], RebuildOne(spine[0], t));
    }
  }

  lemma {:induction false} PlugBalanced<T>(spine: Spine<T>, t: Tree<T>)
    requires Balanced(Plug(spine, t))
    ensures Balanced(t)
    decreases |spine|
  {
    if spine != [] {
      PlugBalanced(spine[1..], PlugOne(spine[0], t));
    }
  }

  lemma RotateLeftBalances<T>(x: T, l: Tree<T>, t: Tree<T>)
    requires t.Tree? && Exact(t) && Exact(l) && Balanced(t) && Balanced(l) && Height(t) == Height(l) + 2
    ensures Balanced(RotateLeft(x, l, t)) && Height(l) + 2 <= Height(RotateLeft(x, l, t)) <= Height(l) + 3
  {
    ExactSizes(l);
    ExactSizes(t.left);
    ExactSizes(t.right);
  }

  lemma RotateRightBalances<T>(x: T, t: Tree<T>, r: Tree<T>)
    requires t.Tree? && Exact(t) && Exact(r) && Balanced(t) && Balanced(r) && Height(t) == Height(r) + 2
    ensures Balanced(RotateRight(x, t, r)) && Height(r) + 2 <= Height(RotateRight(x, t, r)) <= Height(r) + 3
  {
    ExactSizes(r);
    ExactSizes(t.left);
    ExactSizes(t.right);
  }

  /** Where a balanced subtree grew by at most one, one step restores the balance, and passes at most one on. */
  lemma RebuildOneBalances<T>(f: Frame<T>, was: Tree<T>, t: Tree<T>)
    requires Exact(f.side) && Exact(t) && Balanced(PlugOne(f, was)) && Balanced(t)
    requires Height(was) <= Height(t) <= Height(was) + 1
    ensures Balanced(RebuildOne(f, t))
    ensures var h := Height(PlugOne(f, was)); h <= Height(RebuildOne(f, t)) <= h + 1
  {
    ExactSizes(f.side);
    hide RotateLeft, RotateRight;
    if Height(t) > Height(f.side) + 1 {
      if f.wentRight {
        RotateLeftBalances(f.node, f.side, t);
      } else {
        RotateRightBalances(f.node, t, f.side);
      }
    }
  }

  lemma {:induction false} RebuildBalances<T>(spine: Spine<T>, was: Tree<T>, t: Tree<T>)
    requires ExactSpine(spine) && Exact(t) && Balanced(Plug(spine, was)) && Balanced(t)
    requires Height(was) <= Height(t) <= Height(was) + 1
    ensures Balanced(RebuildAll(spine, t))
    decreases |spine|
  {
    if spine != [] {
      PlugBalanced(spine[1..], PlugOne(spine[0], was));
      RebuildOneKeeps(spine[0], t);
      RebuildOneBalances(spine[0], was, t);
      RebuildBalances(spine[1..], PlugOne(spine[0], was), RebuildOne(spine[0], t));
    }
  }

  // ----- updates -----

  function TryFind<T>(cmp: (T, T) -> int, k: T, t: Tree<T>): Option<T>
  {
    var x := Descend(cmp, k, t, []).0;
    if x.Null? then None else Some(x.node)
  }

  function Contains<T>(cmp: (T, T) -> int, k: T, t: Tree<T>): bool
  {
    !Descend(cmp, k, t, []).0.Null?
  }

  function Put<T>(cmp: (T, T) -> int, combine: (T, T) -> T, k: T, t: Tree<T>): (r: Tree<T>)
    requires Exact(t)
    ensures Exact(r)
  {
    var (t', spine) := Descend(cmp, k, t, []);
    DescendPlugs(cmp, k, t, []);
    if t'.Null? then RebuildAll(spine, Branch(k, Null, Null))
    else RebuildAll(spine, Branch(combine(t'.node, k), t'.left, t'.right))
  }

  function Add<T>(cmp: (T, T) -> int, x: T, t: Tree<T>): (r: Tree<T>)
    requires Exact(t)
    ensures Exact(r)
  {
    Put(cmp, (_, y) => y, x, t)
  }

  function Build<T>(data: seq<T>, min: int, max: int): (r: Tree<T>)
    requires 0 <= min <= max + 1 <= |data|
    ensures Exact(r)
    decreases max - min + 1
  {
    if max - min + 1 <= 0 then Null else
    var center := (min + max) / 2;
    Branch(data[center], Build(data, min, center - 1), Build(data, center + 1, max))
  }

  function BuildFrom<T>(data: seq<T>): (r: Tree<T>)
    ensures Exact(r)
  {
    Build(data, 0, |data| - 1)
  }

  /** The middle element is the root, the lower one of two; half of the rest goes to either side. */
  lemma BuildHalves<T>(data: seq<T>)
    requires data != []
    ensures var t := BuildFrom(data);
            && t.Tree? && t.node == data[(|data| - 1) / 2]
            && Count(t.left) == (|data| - 1) / 2 && Count(t.right) == |data| / 2
  {
    var max := |data| - 1;
    BuildCounts(data, 0, max / 2 - 1);
    BuildCounts(data, max / 2 + 1, max);
  }

  lemma {:induction false} BuildCounts<T>(data: seq<T>, min: int, max: int)
    requires 0 <= min <= max + 1 <= |data|
    ensures Count(Build(data, min, max)) == max - min + 1
    decreases max - min + 1
  {
    if min <= max {
      var center := (min + max) / 2;
      BuildCounts(data, min, center - 1);
      BuildCounts(data, center + 1, max);
    }
  }

  /** What takes the place of a removed node. */
  function Replacement<T>(t: Tree<T>): (r: Tree<T>)
    requires t.Tree? && Exact(t)
    ensures Exact(r)
  {
    if t.right.Null? then t.left
    else if t.left.Null? then t.right
    else BuildFrom(Enumerate(false, t.left) + Enumerate(false, t.right))
  }

  function Remove<T>(cmp: (T, T) -> int, k: T, src: Tree<T>): (r: Tree<T>)
    requires Exact(src)
    ensures Exact(r)
  {
    var (t, spine) := Descend(cmp, k, src, []);
    DescendPlugs(cmp, k, src, []);
    if t.Null? then src else RebuildAll(spine, Replacement(t))
  }

  // ----- enumeration -----

  /** The stack of an enumeration: nodes still to be visited, each with the subtree that follows it. */
  type Stack<T> = seq<(T, Tree<T>)>

  function Size<T>(t: Tree<T>): nat
  {
    if t.Null? then 0 else 1 + Size(t.left) + Size(t.right)
  }

  function StackSize<T>(stack: Stack<T>): nat
  {
    if stack == [] then 0 else 1 + Size(stack[0].1) + StackSize(stack[1..])
  }

  /** The next element and the state after it, if there is one. */
  function Gen<T>(flip: bool, t: Tree<T>, stack: Stack<T>): (r: Option<(T, (Tree<T>, Stack<T>))>)
    ensures r.Some? ==> Size(r.value.1.0) + StackSize(r.value.1.1) + 1 == Size(t) + StackSize(stack)
    decreases t
  {
    if t.Null? then
      if stack != [] then Some((stack[0].0, (stack[0].1, stack[1..]))) else None
    else if flip then
      assert ([(t.node, t.left)] + stack)[1..] == stack;
      Gen(flip, t.right, [(t.node, t.left)] + stack)
    else
      assert ([(t.node, t.right)] + stack)[1..] == stack;
      Gen(flip, t.left, [(t.node, t.right)] + stack)
  }

  method GenLoop<T>(flip: bool, t: Tree<T>, stack: Stack<T>) returns (r: Option<(T, (Tree<T>, Stack<T>))>)
    ensures r == Gen(flip, t, stack)
  {
    var t', stack' := t, stack;
    while true
      invariant Gen(flip, t', stack') == Gen(flip, t, stack)
      decreases t'
    {
      if t'.Null? {
        return if stack' != [] then Some((stack'[0].0, (stack'[0].1, stack'[1..]))) else None;
      } else if flip {
        stack' := [(t'.node, t'.left)] + stack';
        t' := t'.right;
      } else {
        stack' := [(t'.node, t'.right)] + stack';
        t' := t'.left;
      }
    }
  }

  function Unfold<T>(flip: bool, t: Tree<T>, stack: Stack<T>): seq<T>
    decreases Size(t) + StackSize(stack)
  {
    var next := Gen(flip, t, stack);
    if next.None? then [] else [next.value.0] + Unfold(flip, next.value.1.0, next.value.1.1)
  }

  function Enumerate<T>(flip: bool, t: Tree<T>): seq<T>
  {
    Unfold(flip, t, [])
  }

  function Reversed<T>(s: seq<T>): (r: seq<T>)
    ensures |r| == |s| && forall i :: 0 <= i < |s| ==> r[i] == s[|s| - 1 - i]
  {
    if s == [] then [] else Reversed(s[1..]) + [s[0]]
  }

  function Directed<T>(flip: bool, s: seq<T>): seq<T>
  {
    if flip then Reversed(s) else s
  }

  /** What an enumeration in this state has still to give. */
  function Pending<T>(flip: bool, stack: Stack<T>): seq<T>
  {
    if stack == [] then [] else [stack[0].0] + Directed(flip, Inorder(stack[0].1)) + Pending(flip, stack[1..])
  }

  lemma DirectedNode<T>(flip: bool, t: Tree<T>)
    requires t.Tree?
    ensures Directed(flip, Inorder(t)) ==
            if flip then Directed(flip, Inorder(t.right)) + [t.node] + Directed(flip, Inorder(t.left))
            else Directed(flip, Inorder(t.left)) + [t.node] + Directed(flip, Inorder(t.right))
  {
    ReversedNode(Inorder(t.left), t.node, Inorder(t.right));
    hide Reversed;
  }

  lemma ReversedNode<T>(l: seq<T>, x: T, r: seq<T>)
    ensures Reversed(l + [x] + r) == Reversed(r) + [x] + Reversed(l)
  {
    hide Reversed;
  }

  lemma {:induction false} GenGives<T>(flip: bool, t: Tree<T>, stack: Stack<T>)
    ensures var r := Gen(flip, t, stack);
            var all := Directed(flip, Inorder(t)) + Pending(flip, stack);
            && (r.None? <==> all == [])
            && (r.Some? ==> all == [r.value.0] + (Directed(flip, Inorder(r.value.1.0)) + Pending(flip, r.value.1.1)))
    decreases t
  {
    if t.Tree? {
      var next := if flip then t.right else t.left;
      var later := (t.node, if flip then t.left else t.right);
      assert ([later] + stack)[1..] == stack;
      DirectedNode(flip, t);
      GenGives(flip, next, [later] + stack);
      Regroup([], Directed(flip, Inorder(next)), t.node, Directed(flip, Inorder(later.1)), Pending(flip, stack));
    } else {
      GenPops(flip, t, stack);
    }
  }

  lemma GenPops<T>(flip: bool, t: Tree<T>, stack: Stack<T>)
    requires t.Null?
    ensures Directed(flip, Inorder(t)) + Pending(flip, stack) == Pending(flip, stack)
    ensures stack != [] ==>
              Pending(flip, stack) == [stack[0].0] + (Directed(flip, Inorder(stack[0].1)) + Pending(flip, stack[1..]))
  {
    assert Directed(flip, Inorder(t)) == [];
    hide Directed;
    if stack != [] {
      var d := Directed(flip, Inorder(stack[0].1));
      assert [stack[0].0] + d + Pending(flip, stack[1..]) == [stack[0].0] + (d + Pending(flip, stack[1..]));
    }
  }

  lemma {:induction false} UnfoldGives<T>(flip: bool, t: Tree<T>, stack: Stack<T>)
    ensures Unfold(flip, t, stack) == Directed(flip, Inorder(t)) + Pending(flip, stack)
    decreases Size(t) + StackSize(stack)
  {
    GenGives(flip, t, stack);
    var next := Gen(flip, t, stack);
    if next.Some? {
      UnfoldGives(flip, next.value.1.0, next.value.1.1);
    }
  }

  /** An enumeration gives the elements in order, or in reverse order. */
  lemma EnumerateIsInorder<T>(flip: bool, t: Tree<T>)
    ensures Enumerate(flip, t) == if flip then Reversed(Inorder(t)) else Inorder(t)
  {
    UnfoldGives(flip, t, []);
    assert Directed(flip, Inorder(t)) + [] == Directed(flip, Inorder(t));
  }

  // ----- building -----

  /** The height of a tree built from `n` elements. */
  function BuildHeight(n: nat): nat
  {
    if n == 0 then 0 else 1 + BuildHeight(n / 2)
  }

  lemma {:induction false} BuildHeightStep(n: nat)
    ensures BuildHeight(n) <= BuildHeight(n + 1) <= BuildHeight(n) + 1
  {
    if n > 0 && n % 2 == 1 {
      BuildHeightStep(n / 2);
    }
  }

  lemma BranchOfSlices<T>(data: seq<T>, min: int, center: int, end: int, l: Tree<T>, r: Tree<T>)
    requires 0 <= min <= center < end <= |data|
    requires Inorder(l) == data[min..center] && Inorder(r) == data[center + 1..end]
    ensures Inorder(Branch(data[center], l, r)) == data[min..end]
  {
    InorderBranch(data[center], l, r);
    hide Inorder;
    SliceAround(data, min, center, end);
  }

  lemma {:induction false} BuildKeeps<T>(data: seq<T>, min: int, max: int)
    requires 0 <= min <= max + 1 <= |data|
    ensures Inorder(Build(data, min, max)) == data[min..max + 1]
    decreases max - min + 1
  {
    hide Inorder, Exact, Build;
    if min <= max {
      var center := BuildUnfolds(data, min, max);
      BuildKeeps(data, min, center - 1);
      BuildKeeps(data, center + 1, max);
      BranchOfSlices(data, min, center, max + 1, Build(data, min, center - 1), Build(data, center + 1, max));
    } else {
      BuildOfNone(data, min);
      InorderOfNull<T>();
    }
  }

  lemma InorderOfNull<T>()
    ensures Inorder<T>(Null) == []
  {
  }

  lemma SliceAround<T>(data: seq<T>, min: int, center: int, end: int)
    requires 0 <= min <= center < end <= |data|
    ensures data[min..end] == data[min..center] + [data[center]] + data[center + 1..end]
  {
  }

  lemma HeightOfHalves(a: nat, b: nat)
    requires a <= b <= a + 1
    ensures BuildHeight(a + 1 + b) == 1 + BuildHeight(b)
    ensures BuildHeight(a) <= BuildHeight(b) <= BuildHeight(a) + 1
  {
    BuildHeightStep(a);
    assert (a + 1 + b) / 2 == b;
  }

  lemma BalancedBranch<T>(x: T, l: Tree<T>, r: Tree<T>)
    requires Balanced(l) && Balanced(r) && Height(l) <= Height(r) <= Height(l) + 1
    ensures Balanced(Branch(x, l, r)) && Height(Branch(x, l, r)) == 1 + Height(r)
  {
  }

  lemma BuildUnfolds<T>(data: seq<T>, min: int, max: int) returns (center: int)
    requires 0 <= min <= max < |data|
    ensures min <= center <= max && center - min <= max - center <= center - min + 1
    ensures Build(data, min, max) == Branch(data[center], Build(data, min, center - 1), Build(data, center + 1, max))
  {
    center := (min + max) / 2;
  }

  lemma BuildOfNone<T>(data: seq<T>, min: int)
    requires 0 <= min <= |data|
    ensures Build(data, min, min - 1).Null?
    ensures Balanced(Build(data, min, min - 1)) && Height(Build(data, min, min - 1)) == BuildHeight(0)
  {
  }

  /** Building from an array gives a balanced tree, as low as its size allows. */
  lemma {:induction false} BuildIsBalanced<T>(data: seq<T>, min: int, max: int)
    requires 0 <= min <= max + 1 <= |data|
    ensures Balanced(Build(data, min, max)) && Height(Build(data, min, max)) == BuildHeight(max - min + 1)
    decreases max - min + 1
  {
    hide Build, Balanced, Exact, Height, BuildHeight;
    if min <= max {
      var center := BuildUnfolds(data, min, max);
      BuildIsBalanced(data, min, center - 1);
      BuildIsBalanced(data, center + 1, max);
      HeightOfHalves(center - min, max - center);
      BalancedBranch(data[center], Build(data, min, center - 1), Build(data, center + 1, max));
    } else {
      BuildOfNone(data, min);
    }
  }

  // ----- what the operations mean -----

  /** The elements below `k`, and those above, as the lookup divides them. */
  function Lower<T>(cmp: (T, T) -> int, k: T, t: Tree<T>): seq<T>
  {
    var (t', spine) := Descend(cmp, k, t, []);
    Before(spine) + if t'.Tree? then Inorder(t'.left) else []
  }

  function Upper<T>(cmp: (T, T) -> int, k: T, t: Tree<T>): seq<T>
  {
    var (t', spine) := Descend(cmp, k, t, []);
    (if t'.Tree? then Inorder(t'.right) else []) + After(spine)
  }

  function Singleton<T>(o: Option<T>): seq<T>
  {
    if o.Some? then [o.value] else []
  }

  ghost predicate Divides<T>(cmp: (T, T) -> int, k: T, s: seq<T>, lower: seq<T>, found: Option<T>, upper: seq<T>)
  {
    && s == lower + Singleton(found) + upper
    && Sorted(cmp, lower) && AllBelow(cmp, lower, k)
    && Sorted(cmp, upper) && AllAbove(cmp, upper, k)
    && (found.Some? ==> cmp(k, found.value) == 0)
  }

  lemma Regroup5<T>(a: seq<T>, l: seq<T>, m: seq<T>, r: seq<T>, b: seq<T>)
    ensures a + (l + m + r) + b == (a + l) + m + (r + b)
  {
  }

  lemma DividesAtNode<T(!new)>(cmp: (T, T) -> int, k: T, b: seq<T>, l: seq<T>, n: T, r: seq<T>, a: seq<T>)
    requires TotalPreorder(cmp) && Sorted(cmp, b + (l + [n] + r) + a) && cmp(k, n) == 0
    ensures Divides(cmp, k, b + (l + [n] + r) + a, b + l, Some(n), r + a)
  {
    Regroup5(b, l, [n], r, a);
    Splits(cmp, b + l, n, r + a);
    SortedSides(cmp, b + l, n, r + a);
    assert cmp(n, k) <= 0 && cmp(k, n) <= 0;
    BelowTrans(cmp, b + l, n, k);
    BelowTrans(cmp, r + a, k, n);
  }

  lemma DividesBetween<T(!new)>(cmp: (T, T) -> int, k: T, b: seq<T>, a: seq<T>)
    requires Sorted(cmp, b + a) && AllBelow(cmp, b, k) && AllAbove(cmp, a, k)
    ensures Divides(cmp, k, b + a, b, None, a)
  {
    assert b + a == [] + b + a && b + a == b + a + [] && b + [] == b;
    SortedPart(cmp, [], b, a);
    SortedPart(cmp, b, a, []);
  }

  lemma LookupDivides<T(!new)>(cmp: (T, T) -> int, k: T, t: Tree<T>)
    requires TotalPreorder(cmp) && Exact(t) && Sorted(cmp, Inorder(t))
    ensures Divides(cmp, k, Inorder(t), Lower(cmp, k, t), TryFind(cmp, k, t), Upper(cmp, k, t))
  {
    var (t', spine) := Descend(cmp, k, t, []);
    DescendPlugs(cmp, k, t, []);
    DescendFinds(cmp, k, t, []);
    WholeOfTree(t);
    WholeOfNull(spine, t');
    hide Sorted, AllBelow, AllAbove, TotalPreorder, Divides, Before, After;
    if t'.Tree? {
      DividesAtNode(cmp, k, Before(spine), Inorder(t'.left), t'.node, Inorder(t'.right), After(spine));
    } else {
      DividesBetween(cmp, k, Before(spine), After(spine));
    }
  }

  lemma WholeOfTree<T>(t: Tree<T>)
    ensures Whole([], t) == Inorder(t)
  {
    assert [] + Inorder(t) + [] == Inorder(t);
  }

  lemma WholeOfNull<T>(spine: Spine<T>, t: Tree<T>)
    ensures t.Null? ==> Whole(spine, t) == Before(spine) + After(spine)
    ensures Before(spine) + [] == Before(spine) && [] + After(spine) == After(spine)
  {
  }

  lemma SortedConcat<T>(cmp: (T, T) -> int, a: seq<T>, b: seq<T>)
    requires Sorted(cmp, a) && Sorted(cmp, b)
    requires forall i, k :: 0 <= i < |a| && 0 <= k < |b| ==> cmp(a[i], b[k]) < 0
    ensures Sorted(cmp, a + b)
  {
  }

  lemma SortedInsert<T(!new)>(cmp: (T, T) -> int, a: seq<T>, x: T, b: seq<T>)
    requires TotalPreorder(cmp) && Sorted(cmp, a) && Sorted(cmp, b) && AllBelow(cmp, a, x) && AllAbove(cmp, b, x)
    ensures Sorted(cmp, a + [x] + b) && Sorted(cmp, a + b)
  {
    hide Sorted;
    forall i, k | 0 <= i < |a| && 0 <= k < |b|
      ensures cmp(a[i], b[k]) < 0
    {
      assert cmp(a[i], x) < 0 && cmp(x, b[k]) < 0;
    }
    OneIsSorted(cmp, x);
    SortedConcat(cmp, a, b);
    SortedConcat(cmp, a, [x]);
    SortedConcat(cmp, a + [x], b);
  }

  lemma OneIsSorted<T>(cmp: (T, T) -> int, x: T)
    ensures Sorted(cmp, [x])
  {
  }

  function Inserted<T>(cmp: (T, T) -> int, combine: (T, T) -> T, k: T, t: Tree<T>): T
  {
    var found := TryFind(cmp, k, t);
    if found.Some? then combine(found.value, k) else k
  }

  lemma PutIs<T>(cmp: (T, T) -> int, combine: (T, T) -> T, k: T, t: Tree<T>)
    requires Exact(t)
    ensures Inorder(Put(cmp, combine, k, t)) ==
            Lower(cmp, k, t) + [Inserted(cmp, combine, k, t)] + Upper(cmp, k, t)
  {
    var (t', spine) := Descend(cmp, k, t, []);
    var b, a := Before(spine), After(spine);
    DescendPlugs(cmp, k, t, []);
    if t'.Tree? {
      var x := Branch(combine(t'.node, k), t'.left, t'.right);
      RebuildKeeps(spine, x);
      InorderBranch(x.node, x.left, x.right);
      hide Before, After, Inorder, RebuildAll, Descend;
      Regroup5(b, Inorder(t'.left), [x.node], Inorder(t'.right), a);
    } else {
      RebuildKeeps(spine, Branch(k, Null, Null));
      assert Inorder(Branch(k, Null, Null)) == [k];
      hide Before, After, Inorder, RebuildAll, Descend;
      Regroup5(b, [], [k], [], a);
    }
  }

  lemma BuildAll<T>(data: seq<T>)
    ensures var t := BuildFrom(data);
            Inorder(t) == data && Balanced(t) && Height(t) == BuildHeight(|data|)
  {
    hide Build, Inorder, Balanced, BuildHeight, Exact;
    BuildKeeps(data, 0, |data| - 1);
    BuildIsBalanced(data, 0, |data| - 1);
    assert data[0..|data| - 1 + 1] == data;
  }

  lemma ReplacementIs<T>(t: Tree<T>)
    requires t.Tree? && Exact(t)
    ensures Inorder(Replacement(t)) == Inorder(t.left) + Inorder(t.right)
  {
    if t.left.Tree? && t.right.Tree? {
      EnumerateIsInorder(false, t.left);
      EnumerateIsInorder(false, t.right);
      BuildAll(Inorder(t.left) + Inorder(t.right));
    } else {
      assert Inorder(t.left) + [] == Inorder(t.left) && [] + Inorder(t.right) == Inorder(t.right);
    }
  }

  lemma RemoveIs<T>(cmp: (T, T) -> int, k: T, t: Tree<T>)
    requires Exact(t)
    ensures Inorder(Remove(cmp, k, t)) == Lower(cmp, k, t) + Upper(cmp, k, t)
  {
    var (t', spine) := Descend(cmp, k, t, []);
    DescendPlugs(cmp, k, t, []);
    WholeOfTree(t);
    WholeOfNull(spine, t');
    if t'.Tree? {
      ReplacementIs(t');
      RebuildKeeps(spine, Replacement(t'));
      hide Before, After, Inorder, RebuildAll, Descend, Replacement;
      Regroup4(Before(spine), Inorder(t'.left), Inorder(t'.right), After(spine));
    }
  }

  lemma Regroup4<T>(a: seq<T>, l: seq<T>, r: seq<T>, b: seq<T>)
    ensures a + (l + r) + b == (a + l) + (r + b)
  {
  }

  /** The lookup finds the element equal to `k`, if and only if there is one. */
  lemma TryFindFinds<T(!new)>(cmp: (T, T) -> int, k: T, t: Tree<T>)
    requires TotalPreorder(cmp) && Exact(t) && Sorted(cmp, Inorder(t))
    ensures var r := TryFind(cmp, k, t);
            && (r.Some? ==> r.value in Inorder(t) && cmp(k, r.value) == 0)
            && (forall x :: x in Inorder(t) && cmp(k, x) == 0 ==> r == Some(x))
    ensures Contains(cmp, k, t) <==> exists x :: x in Inorder(t) && cmp(k, x) == 0
  {
    LookupDivides(cmp, k, t);
    var lower, upper := Lower(cmp, k, t), Upper(cmp, k, t);
    assert forall x :: x in Inorder(t) <==> x in lower || x in upper || Some(x) == TryFind(cmp, k, t);
  }

  /**
   Insertion keeps the order, and replaces what was equal to `k`, if anything.  What `combine` gives must
   be equal to `k`, as it is for `Add`.
   */
  lemma PutContents<T(!new)>(cmp: (T, T) -> int, combine: (T, T) -> T, k: T, t: Tree<T>)
    requires TotalPreorder(cmp) && Exact(t) && Sorted(cmp, Inorder(t))
    requires forall x :: x in Inorder(t) && cmp(k, x) == 0 ==> cmp(k, combine(x, k)) == 0
    ensures var t', n := Put(cmp, combine, k, t), Inserted(cmp, combine, k, t);
            && Sorted(cmp, Inorder(t'))
            && (forall x :: x in Inorder(t') <==> x == n || (x in Inorder(t) && cmp(k, x) != 0))
            && Count(t') == Count(t) + if Contains(cmp, k, t) then 0 else 1
  {
    var n, lower, upper := Inserted(cmp, combine, k, t), Lower(cmp, k, t), Upper(cmp, k, t);
    LookupDivides(cmp, k, t);
    TryFindFinds(cmp, k, t);
    PutIs(cmp, combine, k, t);
    ExactSizes(t);
    ExactSizes(Put(cmp, combine, k, t));
    assert cmp(k, n) <= 0 && cmp(n, k) <= 0;
    BelowTrans(cmp, lower, k, n);
    BelowTrans(cmp, upper, n, k);
    SortedInsert(cmp, lower, n, upper);
    DividedMembers(cmp, k, t);
    assert forall x :: x in lower + [n] + upper <==> x == n || x in lower || x in upper;
  }

  lemma MembersOfDivision<T(!new)>(cmp: (T, T) -> int, k: T, s: seq<T>, lower: seq<T>, found: Option<T>, upper: seq<T>)
    requires TotalPreorder(cmp) && Divides(cmp, k, s, lower, found, upper)
    ensures forall x :: x in lower || x in upper <==> x in s && cmp(k, x) != 0
    ensures |lower| + |upper| + (if found.Some? then 1 else 0) == |s|
  {
    forall x
      ensures x in s <==> x in lower || x in upper || found == Some(x)
      ensures x in lower || x in upper ==> cmp(k, x) != 0
    {
      assert x in s <==> x in lower || x in Singleton(found) || x in upper;
      assert cmp(x, k) == -cmp(k, x);
    }
  }

  lemma DividedMembers<T(!new)>(cmp: (T, T) -> int, k: T, t: Tree<T>)
    requires TotalPreorder(cmp) && Exact(t) && Sorted(cmp, Inorder(t))
    ensures forall x :: x in Lower(cmp, k, t) || x in Upper(cmp, k, t) <==> x in Inorder(t) && cmp(k, x) != 0
    ensures |Lower(cmp, k, t)| + |Upper(cmp, k, t)| + (if Contains(cmp, k, t) then 1 else 0) == |Inorder(t)|
  {
    LookupDivides(cmp, k, t);
    MembersOfDivision(cmp, k, Inorder(t), Lower(cmp, k, t), TryFind(cmp, k, t), Upper(cmp, k, t));
  }

  /** Removal keeps the order and drops what is equal to `k`, and nothing else. */
  lemma RemoveContents<T(!new)>(cmp: (T, T) -> int, k: T, t: Tree<T>)
    requires TotalPreorder(cmp) && Exact(t) && Sorted(cmp, Inorder(t))
    ensures var t' := Remove(cmp, k, t);
            && Sorted(cmp, Inorder(t'))
            && (forall x :: x in Inorder(t') <==> x in Inorder(t) && cmp(k, x) != 0)
            && Count(t') == Count(t) - if Contains(cmp, k, t) then 1 else 0
  {
    var lower, upper := Lower(cmp, k, t), Upper(cmp, k, t);
    LookupDivides(cmp, k, t);
    RemoveIs(cmp, k, t);
    ExactSizes(t);
    ExactSizes(Remove(cmp, k, t));
    SortedInsert(cmp, lower, k, upper);
    DividedMembers(cmp, k, t);
    assert forall x :: x in lower + upper <==> x in lower || x in upper;
  }

  // ----- balance -----

  /** Insertion keeps trees balanced, whatever is inserted. */
  lemma PutBalances<T>(cmp: (T, T) -> int, combine: (T, T) -> T, k: T, t: Tree<T>)
    requires Exact(t) && Balanced(t)
    ensures Balanced(Put(cmp, combine, k, t))
  {
    var (t', spine) := Descend(cmp, k, t, []);
    DescendPlugs(cmp, k, t, []);
    PlugBalanced(spine, t');
    RebuildBalances(spine, t', if t'.Null? then Branch(k, Null, Null) else Branch(combine(t'.node, k), t'.left, t'.right));
  }

  function Pow2(n: nat): (r: nat)
    ensures r > 0
  {
    if n == 0 then 1 else 2 * Pow2(n - 1)
  }

  lemma {:induction false} SizeBound<T>(t: Tree<T>)
    requires Exact(t)
    ensures Height(t) >= 0 && |Inorder(t)| < Pow2(Height(t))
  {
    if t.Tree? {
      SizeBound(t.left);
      SizeBound(t.right);
      Pow2Monotone(Height(t.left), t.height - 1);
      Pow2Monotone(Height(t.right), t.height - 1);
    }
  }

  lemma {:induction false} Pow2Monotone(m: nat, n: nat)
    requires m <= n
    ensures Pow2(m) <= Pow2(n)
    decreases n
  {
    if m < n {
      Pow2Monotone(m, n - 1);
    }
  }

  lemma {:induction false} BuildIsLow(n: nat, h: nat)
    requires n < Pow2(h)
    ensures BuildHeight(n) <= h
  {
    if n > 0 {
      BuildIsLow(n / 2, h - 1);
    }
  }

  lemma BuiltFromChildren<T>(t: Tree<T>)
    requires t.Tree? && Exact(t) && t.left.Tree? && t.right.Tree?
    ensures Replacement(t) == BuildFrom(Inorder(t.left) + Inorder(t.right))
  {
    hide Exact, BuildFrom, Enumerate, Inorder, Reversed;
    EnumerateIsInorder(false, t.left);
    EnumerateIsInorder(false, t.right);
  }

  lemma ChildrenSize<T>(t: Tree<T>)
    requires t.Tree? && Exact(t)
    ensures Height(t) > 0 && |Inorder(t.left) + Inorder(t.right)| < Pow2(Height(t))
  {
    ExactSizes(t);
    SizeBound(t);
    hide Exact, Pow2;
  }

  lemma BuiltIsLower<T>(t: Tree<T>)
    requires t.Tree? && Exact(t) && t.left.Tree? && t.right.Tree?
    ensures Balanced(Replacement(t)) && Height(Replacement(t)) <= Height(t)
  {
    hide Replacement, Inorder, Exact, Balanced, Pow2;
    var d := Inorder(t.left) + Inorder(t.right);
    BuiltFromChildren(t);
    ChildrenSize(t);
    BuildAll(d);
    BuildIsLow(|d|, Height(t));
  }

  lemma ReplacementIsLower<T>(t: Tree<T>)
    requires t.Tree? && Exact(t) && Balanced(t)
    ensures Balanced(Replacement(t)) && Height(Replacement(t)) <= Height(t)
  {
    if t.left.Tree? && t.right.Tree? {
      BuiltIsLower(t);
    } else {
      ExactSizes(t.left);
      ExactSizes(t.right);
      assert Replacement(t) == t.left || Replacement(t) == t.right;
    }
  }

  lemma ShrinkingStep<T>(f: Frame<T>, was: Tree<T>, t: Tree<T>)
    requires Exact(f.side) && Exact(t) && Balanced(PlugOne(f, was)) && Height(t) <= Height(was)
    ensures RebuildOne(f, t) == PlugOne(f, t) && Exact(PlugOne(f, t))
    ensures Height(PlugOne(f, t)) <= Height(PlugOne(f, was))
  {
  }

  /** A subtree that did not grow never meets a rotation on its way up. */
  lemma {:induction false} ShrinkingRebuild<T>(spine: Spine<T>, was: Tree<T>, t: Tree<T>)
    requires ExactSpine(spine) && Exact(t) && Balanced(Plug(spine, was)) && Height(t) <= Height(was)
    ensures RebuildAll(spine, t) == Plug(spine, t)
    decreases |spine|
  {
    if spine != [] {
      PlugBalanced(spine[1..], PlugOne(spine[0], was));
      ShrinkingStep(spine[0], was, t);
      hide Exact, Balanced, PlugOne, RebuildOne;
      ShrinkingRebuild(spine[1..], PlugOne(spine[0], was), PlugOne(spine[0], t));
    }
  }

  /** The subtrees beside the path are at most one taller than what comes up the path from height `h`. */
  predicate Fits<T>(spine: Spine<T>, h: int)
  {
    spine != [] ==>
      var side := Height(spine[0].side);
      side <= h + 1 && Fits(spine[1..], 1 + if side > h then side else h)
  }

  lemma FitsStep<T>(f: Frame<T>, was: Tree<T>, t: Tree<T>)
    requires Balanced(PlugOne(f, was)) && Balanced(t) && Height(t) <= Height(was)
    ensures Balanced(PlugOne(f, t)) <==> Height(f.side) <= Height(t) + 1
    ensures Height(PlugOne(f, t)) <= Height(PlugOne(f, was))
    ensures Height(PlugOne(f, t)) == 1 + if Height(f.side) > Height(t) then Height(f.side) else Height(t)
  {
  }

  lemma {:induction false} FitsMeansBalanced<T>(spine: Spine<T>, was: Tree<T>, t: Tree<T>)
    requires Balanced(Plug(spine, was)) && Balanced(t) && Height(t) <= Height(was)
    ensures Balanced(Plug(spine, t)) <==> Fits(spine, Height(t))
    decreases |spine|
  {
    if spine != [] {
      PlugBalanced(spine[1..], PlugOne(spine[0], was));
      FitsStep(spine[0], was, t);
      hide Balanced, PlugOne;
      if Height(spine[0].side) <= Height(t) + 1 {
        FitsMeansBalanced(spine[1..], PlugOne(spine[0], was), PlugOne(spine[0], t));
      } else if Balanced(Plug(spine, t)) {
        PlugBalanced(spine[1..], PlugOne(spine[0], t));
      }
    }
  }

  /**
   On a balanced tree a removal never rotates, so the balance survives exactly if no subtree beside the
   path is too tall for what replaced the removed node.
   */
  lemma RemoveBalancedExactly<T>(cmp: (T, T) -> int, k: T, t: Tree<T>)
    requires Exact(t) && Balanced(t) && Contains(cmp, k, t)
    ensures var (t', spine) := Descend(cmp, k, t, []);
            && Exact(t') && Remove(cmp, k, t) == Plug(spine, Replacement(t'))
            && (Balanced(Remove(cmp, k, t)) <==> Fits(spine, Height(Replacement(t'))))
  {
    var (t', spine) := Descend(cmp, k, t, []);
    DescendPlugs(cmp, k, t, []);
    PlugBalanced(spine, t');
    ReplacementIsLower(t');
    ShrinkingRebuild(spine, t', Replacement(t'));
    FitsMeansBalanced(spine, t', Replacement(t'));
  }

  function CompareInts(a: int, b: int): int
  {
    if a < b then -1 else if a == b then 0 else 1
  }

  function Leaf(n: int): Tree<int>
  {
    Branch(n, Null, Null)
  }

  lemma DescendToLeaf(n: int, x: int, right: Tree<int>)
    requires n < x
    ensures var t, f := Branch(x, Leaf(n), right), Frame(false, x, right);
            Descend(CompareInts, n, t, []) == (Leaf(n), [f])
  {
    var t, f := Branch(x, Leaf(n), right), Frame(false, x, right);
    assert Descend(CompareInts, n, Leaf(n), [f]) == (Leaf(n), [f]);
    assert [f] + [] == [f];
  }

  const EXAMPLE_RIGHT: Tree<int> := Branch(3, Null, Leaf(4))
  const EXAMPLE: Tree<int> := Branch(2, Leaf(1), EXAMPLE_RIGHT)

  lemma TwoLevels(a: int, b: int, c: int, d: int)
    ensures var r := Branch(c, Null, Leaf(d));
            Exact(r) && Exact(Branch(b, Leaf(a), r)) && Balanced(Branch(b, Leaf(a), r))
  {
  }

  lemma ExampleElements()
    ensures Inorder(EXAMPLE) == [1, 2, 3, 4]
  {
    InorderBranch(1, Null, Null);
    InorderBranch(4, Null, Null);
    InorderBranch(3, Null, Leaf(4));
    InorderBranch(2, Leaf(1), EXAMPLE_RIGHT);
    assert Inorder<int>(Null) == [];
    hide Inorder;
  }

  lemma ExampleDoesNotFit()
    ensures Leaf(1).Tree? && Exact(Leaf(1)) && Height(Replacement(Leaf(1))) == 0
    ensures !Fits([Frame(false, 2, EXAMPLE_RIGHT)], 0)
  {
  }

  /** Four elements suffice: removing 1 leaves 2 with nothing on the left and two levels on the right. */
  lemma RemoveMayUnbalance()
    ensures Exact(EXAMPLE) && Balanced(EXAMPLE) && Inorder(EXAMPLE) == [1, 2, 3, 4]
    ensures !Balanced(Remove(CompareInts, 1, EXAMPLE))
  {
    hide Exact, Balanced, Remove, Descend, Inorder, Leaf, Replacement, Fits;
    TwoLevels(1, 2, 3, 4);
    ExampleElements();
    ExampleDoesNotFit();
    DescendToLeaf(1, 2, EXAMPLE_RIGHT);
    RemoveBalancedExactly(CompareInts, 1, EXAMPLE);
  }
}
