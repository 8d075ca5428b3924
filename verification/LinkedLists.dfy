/**
 The mutable doubly linked list.

 A list holds its first node `n`, its last node `p` and the count `c`; a node holds its successor `n` and
 its predecessor `p`.  The ghost sequence `nodes` is what the links represent, read in either direction.
 Reading a field of null is an exception; where a list method can run into it, it says so in its result.
 */
module LinkedLists {
  import opened Wrappers

  function InsertAt<A>(s: seq<A>, at: nat, x: A): seq<A>
    requires at <= |s|
  {
    s[..at] + [x] + s[at..]
  }

  function RemoveAt<A>(s: seq<A>, at: nat): seq<A>
    requires at < |s|
  {
    s[..at] + s[at + 1..]
  }

  class Node<T> {
    var p: Node?<T>
    var n: Node?<T>
    var v: T

    constructor (p: Node?<T>, n: Node?<T>, v: T)
      ensures this.p == p && this.n == n && this.v == v
    {
      this.p, this.n, this.v := p, n, v;
    }
  }

  /**
   `ps` and `ns` are the links of `nodes`: from `first` along the successors, and from `last` along the
   predecessors, one meets exactly these nodes.
   */
  ghost predicate Chain<T>(first: Node?<T>, last: Node?<T>, nodes: seq<Node<T>>, ps: seq<Node?<T>>, ns: seq<Node?<T>>)
  {
    && (forall i, k :: 0 <= i < k < |nodes| ==> nodes[i] != nodes[k])
    && |ps| == |ns| == |nodes|
    && first == (if nodes == [] then null else nodes[0])
    && last == (if nodes == [] then null else nodes[|nodes| - 1])
    && (forall i {:trigger ps[i]} :: 0 <= i < |nodes| ==> ps[i] == if i == 0 then null else nodes[i - 1])
    && (forall i {:trigger ns[i]} :: 0 <= i < |nodes| ==> ns[i] == if i == |nodes| - 1 then null else nodes[i + 1])
  }

  ghost function Predecessors<T>(nodes: seq<Node<T>>): (r: seq<Node?<T>>)
    reads nodes
    ensures |r| == |nodes| && forall i {:trigger r[i]} :: 0 <= i < |nodes| ==> r[i] == nodes[i].p
  {
    seq(|nodes|, i reads nodes requires 0 <= i < |nodes| => nodes[i].p)
  }

  ghost function Successors<T>(nodes: seq<Node<T>>): (r: seq<Node?<T>>)
    reads nodes
    ensures |r| == |nodes| && forall i {:trigger r[i]} :: 0 <= i < |nodes| ==> r[i] == nodes[i].n
  {
    seq(|nodes|, i reads nodes requires 0 <= i < |nodes| => nodes[i].n)
  }

  ghost predicate Links<T>(first: Node?<T>, last: Node?<T>, nodes: seq<Node<T>>)
    reads nodes
  {
    Chain(first, last, nodes, Predecessors(nodes), Successors(nodes))
  }

  /** A node goes in at `at`: its links and one link of each neighbour change. */
  lemma ChainInserted<T>(first: Node?<T>, last: Node?<T>, nodes: seq<Node<T>>, ps: seq<Node?<T>>, ns: seq<Node?<T>>,
                         x: Node<T>, at: nat, first': Node?<T>, last': Node?<T>, nodes': seq<Node<T>>,
                         ps': seq<Node?<T>>, ns': seq<Node?<T>>)
    requires Chain(first, last, nodes, ps, ns) && x !in nodes && at <= |nodes|
    requires nodes' == InsertAt(nodes, at, x) && |ps'| == |ns'| == |nodes'|
    requires ps'[at] == (if at == 0 then null else nodes[at - 1])
    requires ns'[at] == (if at == |nodes| then null else nodes[at])
    requires forall i :: 0 <= i < at ==> ps'[i] == ps[i] && ns'[i] == if i == at - 1 then x else ns[i]
    requires forall i :: at < i < |nodes'| ==> ns'[i] == ns[i - 1] && ps'[i] == if i == at + 1 then x else ps[i - 1]
    requires first' == (if at == 0 then x else first) && last' == (if at == |nodes| then x else last)
    ensures Chain(first', last', nodes', ps', ns')
  {
    Spliced(nodes, x, at, nodes');
  }

  /** The same, over the heap after the insertion: `ps`, `ns` and `vs` are what the fields held before. */
  lemma NodeInserted<T>(first: Node?<T>, last: Node?<T>, was: seq<Node<T>>, ps: seq<Node?<T>>, ns: seq<Node?<T>>,
                        vs: seq<T>, x: Node<T>, at: nat, first': Node?<T>, last': Node?<T>, nodes: seq<Node<T>>)
    requires Chain(first, last, was, ps, ns) && |vs| == |was| && x !in was && at <= |was|
    requires nodes == InsertAt(was, at, x)
    requires x.p == (if at == 0 then null else was[at - 1]) && x.n == if at == |was| then null else was[at]
    requires forall i :: 0 <= i < |was| ==>
               && was[i].p == (if i == at then x else ps[i])
               && was[i].n == (if i == at - 1 then x else ns[i])
               && was[i].v == vs[i]
    requires first' == (if at == 0 then x else first) && last' == (if at == |was| then x else last)
    ensures Links(first', last', nodes)
    ensures Values(nodes) == InsertAt(vs, at, x.v)
  {
    hide Chain;
    Spliced(was, x, at, nodes);
    SplicedValues(was, vs, x, x.v, at, nodes);
    ChainInserted(first, last, was, ps, ns, x, at, first', last', nodes, Predecessors(nodes), Successors(nodes));
  }

  /** A node is taken out at `at`: one link of each neighbour changes. */
  lemma ChainRemoved<T>(first: Node?<T>, last: Node?<T>, nodes: seq<Node<T>>, ps: seq<Node?<T>>, ns: seq<Node?<T>>,
                        at: nat, first': Node?<T>, last': Node?<T>, nodes': seq<Node<T>>,
                        ps': seq<Node?<T>>, ns': seq<Node?<T>>)
    requires Chain(first, last, nodes, ps, ns) && at < |nodes|
    requires nodes' == RemoveAt(nodes, at) && |ps'| == |ns'| == |nodes'|
    requires forall i :: 0 <= i < at ==> ps'[i] == ps[i] && ns'[i] == if i == at - 1 then ns[at] else ns[i]
    requires forall i :: at <= i < |nodes'| ==> ns'[i] == ns[i + 1] && ps'[i] == if i == at then ps[at] else ps[i + 1]
    requires first' == (if at == 0 then ns[at] else first) && last' == (if at == |nodes| - 1 then ps[at] else last)
    ensures Chain(first', last', nodes', ps', ns')
  {
    assert forall i :: 0 <= i < at ==> nodes'[i] == nodes[i];
    assert forall i :: at <= i < |nodes'| ==> nodes'[i] == nodes[i + 1];
  }

  lemma SplicedValues<T>(was: seq<Node<T>>, vs: seq<T>, x: Node<T>, v: T, at: nat, nodes: seq<Node<T>>)
    requires at <= |was| && nodes == InsertAt(was, at, x) && x.v == v
    requires |vs| == |was| && forall i {:trigger vs[i]} :: 0 <= i < |was| ==> was[i].v == vs[i]
    ensures Values(nodes) == InsertAt(vs, at, v)
  {
    Spliced(was, x, at, nodes);
    var r := InsertAt(vs, at, v);
    Spliced(vs, v, at, r);
    assert forall i {:trigger r[i]} :: 0 <= i < |r| ==> r[i] == nodes[i].v;
  }

  lemma InsertLength<A>(s: seq<A>, at: nat, x: A)
    requires at <= |s|
    ensures |InsertAt(s, at, x)| == |s| + 1
    ensures at == |s| ==> InsertAt(s, at, x) == s + [x]
  {
  }

  lemma RemoveLength<A>(s: seq<A>, at: nat)
    requires at < |s|
    ensures |RemoveAt(s, at)| == |s| - 1
  {
  }

  /** The same, over the heap after the removal. */
  lemma NodeRemoved<T>(first: Node?<T>, last: Node?<T>, was: seq<Node<T>>, ps: seq<Node?<T>>, ns: seq<Node?<T>>,
                       vs: seq<T>, at: nat, first': Node?<T>, last': Node?<T>, nodes: seq<Node<T>>)
    requires Chain(first, last, was, ps, ns) && |vs| == |was| && at < |was|
    requires nodes == RemoveAt(was, at)
    requires forall i :: 0 <= i < |was| ==>
               && was[i].p == (if i == at + 1 then ps[at] else ps[i])
               && was[i].n == (if i == at - 1 then ns[at] else ns[i])
               && was[i].v == vs[i]
    requires first' == (if at == 0 then ns[at] else first) && last' == (if at == |was| - 1 then ps[at] else last)
    ensures Links(first', last', nodes)
    ensures Values(nodes) == RemoveAt(vs, at)
  {
    hide Chain;
    assert forall i :: 0 <= i < at ==> nodes[i] == was[i];
    assert forall i :: at <= i < |nodes| ==> nodes[i] == was[i + 1];
    var r := RemoveAt(vs, at);
    assert forall i {:trigger r[i]} :: 0 <= i < |r| ==> r[i] == nodes[i].v;
    ChainRemoved(first, last, was, ps, ns, at, first', last', nodes, Predecessors(nodes), Successors(nodes));
  }

  lemma Distinct<T>(first: Node?<T>, last: Node?<T>, nodes: seq<Node<T>>, ps: seq<Node?<T>>, ns: seq<Node?<T>>,
                    i: int, k: int)
    requires Chain(first, last, nodes, ps, ns) && 0 <= i < |nodes| && 0 <= k < |nodes|
    ensures nodes[i] == nodes[k] <==> i == k
  {
  }

  /** Where the elements of a sequence are after one more was put in at `at`. */
  lemma Spliced<A>(s: seq<A>, x: A, at: nat, s': seq<A>)
    requires at <= |s| && s' == InsertAt(s, at, x)
    ensures |s'| == |s| + 1 && s'[at] == x
    ensures forall i :: 0 <= i < at ==> s'[i] == s[i]
    ensures forall i :: at < i < |s'| ==> s'[i] == s[i - 1]
  {
  }

  ghost function Values<T>(nodes: seq<Node<T>>): (r: seq<T>)
    reads nodes
    ensures |r| == |nodes| && forall i {:trigger r[i]} :: 0 <= i < |nodes| ==> r[i] == nodes[i].v
  {
    seq(|nodes|, i reads nodes requires 0 <= i < |nodes| => nodes[i].v)
  }

  lemma Neighbours<T>(first: Node?<T>, last: Node?<T>, nodes: seq<Node<T>>, k: int)
    requires Links(first, last, nodes) && 0 <= k < |nodes|
    ensures nodes[k].p == if k == 0 then null else nodes[k - 1]
    ensures nodes[k].n == if k == |nodes| - 1 then null else nodes[k + 1]
    ensures nodes[k].p == null <==> k == 0
    ensures nodes[k].n == null <==> k == |nodes| - 1
  {
    assert Predecessors(nodes)[k] == nodes[k].p && Successors(nodes)[k] == nodes[k].n;
  }

  /** The links represent one sequence only. */
  lemma OneSequence<T>(first: Node?<T>, last: Node?<T>, a: seq<Node<T>>, b: seq<Node<T>>)
    requires Links(first, last, a) && Links(first, last, b)
    ensures a == b
  {
    PrefixAgrees(first, last, a, b, if |a| < |b| then |a| else |b|);
    if |a| < |b| && a != [] {
      Neighbours(first, last, a, |a| - 1);
      Neighbours(first, last, b, |a| - 1);
    } else if |b| < |a| && b != [] {
      Neighbours(first, last, a, |b| - 1);
      Neighbours(first, last, b, |b| - 1);
    }
  }

  lemma {:induction false} PrefixAgrees<T>(first: Node?<T>, last: Node?<T>, a: seq<Node<T>>, b: seq<Node<T>>, k: nat)
    requires Links(first, last, a) && Links(first, last, b) && k <= |a| && k <= |b|
    ensures a[..k] == b[..k]
  {
    if k > 0 {
      PrefixAgrees(first, last, a, b, k - 1);
      if k > 1 {
        assert a[..k - 1][k - 2] == b[..k - 1][k - 2];
        Neighbours(first, last, a, k - 2);
        Neighbours(first, last, b, k - 2);
      }
    }
  }

  class LinkedList<T(==)> {
    var n: Node?<T>
    var p: Node?<T>
    var c: int
    ghost var nodes: seq<Node<T>>

    ghost predicate Valid()
      reads this, nodes
    {
      Links(n, p, nodes) && c == |nodes|
    }

    ghost function Contents(): seq<T>
      reads this, nodes
    {
      Values(nodes)
    }

    constructor (coll: seq<T>)
      ensures Valid() && fresh(nodes) && Contents() == coll
    {
      c, n, p, nodes := 0, null, null, [];
      new;
      if |coll| > 0 {
        var node := new Node<T>(null, null, coll[0]);
        n, p, c := node, node, 1;
        nodes := [node];
      }
      assert Valid() && Contents() == coll[..|nodes|];
      hide Chain, Links, Predecessors, Successors, Values, Valid;
      var i := 1;
      while i < |coll|
        invariant fresh(nodes) && Valid()
        invariant |coll| > 0 ==> i <= |coll|
        invariant i >= 1 && |nodes| == (if |coll| == 0 then 0 else i) && Contents() == coll[..|nodes|]
      {
        assert coll[..i + 1] == coll[..i] + [coll[i]];
        var _ := Extend(coll[i]);
        i := i + 1;
      }
      assert coll[..|nodes|] == coll;
    }

    /** The body of the constructor's loop: one more node behind the last. */
    method Extend(value: T) returns (node: Node<T>)
      requires Valid() && nodes != []
      modifies this, nodes
      ensures Valid() && nodes == old(nodes) + [node] && fresh(node)
      ensures Contents() == old(Contents()) + [value]
    {
      ghost var k := |nodes|;
      Neighbours(n, p, nodes, k - 1);
      ghost var was, ps, ns, vs := nodes, Predecessors(nodes), Successors(nodes), Contents();
      assert Chain(n, p, was, ps, ns) && p == was[k - 1];
      assert forall i :: 0 <= i < k - 1 ==> was[i] != p;
      node := new Node<T>(p, null, value);
      InsertLength(was, k, node);
      InsertLength(vs, k, value);
      hide Chain, Links, Predecessors, Successors, Values, InsertAt;
      p.n := node;
      p := node;
      c := c + 1;
      nodes := nodes + [node];
      NodeInserted(n, old(p), was, ps, ns, vs, node, k, n, p, nodes);
    }

    method AddAfter(after: Node<T>, value: T, ghost at: nat) returns (node: Node<T>)
      requires Valid() && at < |nodes| && nodes[at] == after
      modifies this, nodes
      ensures Valid() && fresh(node) && node.v == value
      ensures nodes == InsertAt(old(nodes), at + 1, node)
      ensures Contents() == InsertAt(old(Contents()), at + 1, value)
    {
      Neighbours(n, p, nodes, at);
      ghost var was, ps, ns, vs := nodes, Predecessors(nodes), Successors(nodes), Contents();
      assert Chain(n, p, was, ps, ns);
      assert forall i :: 0 <= i < |was| && i != at ==> was[i] != after;
      assert forall i :: 0 <= i < |was| && i != at + 1 ==> was[i] != after.n;
      hide Chain, Links, Predecessors, Successors, Values, InsertAt, RemoveAt;
      var before := after.n;
      node := new Node<T>(after, before, value);
      if after.n == null {
        p := node;
      }
      after.n := node;
      if before != null {
        before.p := node;
      }
      c := c + 1;
      nodes := InsertAt(nodes, at + 1, node);
      InsertLength(was, at + 1, node);
      assert n == old(n) && p == if at + 1 == |was| then node else old(p);
      NodeInserted(old(n), old(p), was, ps, ns, vs, node, at + 1, n, p, nodes);
    }

    method AddBefore(before: Node<T>, value: T, ghost at: nat) returns (node: Node<T>)
      requires Valid() && at < |nodes| && nodes[at] == before
      modifies this, nodes
      ensures Valid() && fresh(node) && node.v == value
      ensures nodes == InsertAt(old(nodes), at, node)
      ensures Contents() == InsertAt(old(Contents()), at, value)
    {
      Neighbours(n, p, nodes, at);
      ghost var was, ps, ns, vs := nodes, Predecessors(nodes), Successors(nodes), Contents();
      assert Chain(n, p, was, ps, ns);
      assert forall i :: 0 <= i < |was| && i != at ==> was[i] != before;
      assert forall i :: 0 <= i < |was| && i != at - 1 ==> was[i] != before.p;
      hide Chain, Links, Predecessors, Successors, Values, InsertAt;
      var after := before.p;
      node := new Node<T>(after, before, value);
      if before.p == null {
        n := node;
      }
      before.p := node;
      if after != null {
        after.n := node;
      }
      c := c + 1;
      nodes := InsertAt(nodes, at, node);
      InsertLength(was, at, node);
      assert p == old(p) && n == if at == 0 then node else old(n);
      NodeInserted(old(n), old(p), was, ps, ns, vs, node, at, n, p, nodes);
    }

    method AddLast(value: T) returns (node: Node<T>)
      requires Valid()
      modifies this, nodes
      ensures Valid() && fresh(node) && node.v == value
      ensures nodes == old(nodes) + [node]
      ensures Contents() == old(Contents()) + [value]
    {
      if c == 0 {
        node := new Node<T>(null, null, value);
        n := node;
        p := n;
        c := 1;
        nodes := [node];
      } else {
        node := AddAfter(p, value, |nodes| - 1);
      }
    }

    method AddFirst(value: T) returns (node: Node<T>)
      requires Valid()
      modifies this, nodes
      ensures Valid() && fresh(node) && node.v == value
      ensures nodes == [node] + old(nodes)
      ensures Contents() == [value] + old(Contents())
    {
      if c == 0 {
        node := new Node<T>(null, null, value);
        n := node;
        p := n;
        c := 1;
        nodes := [node];
      } else {
        node := AddBefore(n, value, 0);
      }
    }

    /** The node keeps its own links, but none leads to it any more. */
    method RemoveNode(node: Node<T>, ghost at: nat)
      requires Valid() && at < |nodes| && nodes[at] == node
      modifies this, nodes
      ensures Valid()
      ensures nodes == RemoveAt(old(nodes), at)
      ensures Contents() == RemoveAt(old(Contents()), at)
    {
      Neighbours(n, p, nodes, at);
      ghost var was, ps, ns, vs := nodes, Predecessors(nodes), Successors(nodes), Contents();
      assert Chain(n, p, was, ps, ns);
      assert forall i :: 0 <= i < |was| && i != at - 1 ==> was[i] != node.p;
      assert forall i :: 0 <= i < |was| && i != at + 1 ==> was[i] != node.n;
      hide Chain, Links, Predecessors, Successors, Values, RemoveAt;
      var before := node.p;
      var after := node.n;
      if before == null {
        n := after;
      } else {
        before.n := after;
      }
      if after == null {
        p := before;
      } else {
        after.p := before;
      }
      c := c - 1;
      nodes := RemoveAt(nodes, at);
      RemoveLength(was, at);
      NodeRemoved(old(n), old(p), was, ps, ns, vs, at, n, p, nodes);
    }

    /** An empty list has no last node to remove, which is an exception. */
    method RemoveLast() returns (ok: bool)
      requires Valid()
      modifies this, nodes
      ensures Valid() && ok == (old(Contents()) != [])
      ensures ok ==> Contents() == old(Contents())[..|old(Contents())| - 1]
      ensures !ok ==> nodes == old(nodes)
    {
      if p == null {
        return false;
      }
      RemoveNode(p, |nodes| - 1);
      return true;
    }

    method RemoveFirst() returns (ok: bool)
      requires Valid()
      modifies this, nodes
      ensures Valid() && ok == (old(Contents()) != [])
      ensures ok ==> Contents() == old(Contents())[1..]
      ensures !ok ==> nodes == old(nodes)
    {
      if n == null {
        return false;
      }
      RemoveNode(n, 0);
      return true;
    }

    /** Removes the first occurrence. */
    method Remove(value: T) returns (removed: bool)
      requires Valid()
      modifies this, nodes
      ensures Valid() && removed == (value in old(Contents()))
      ensures Contents() == WithoutFirst(old(Contents()), value)
    {
      ghost var at;
      var node;
      node, at := Find(value);
      WithoutFirstAt(Contents(), value, at);
      if node == null {
        return false;
      }
      RemoveNode(node, at);
      return true;
    }

    /** The first node with the value; `at` is where it is. */
    method Find(value: T) returns (node: Node?<T>, ghost at: nat)
      requires Valid()
      ensures node == null <==> value !in Contents()
      ensures node != null ==> node in nodes && node.v == value
      ensures at <= |nodes| && node == (if at < |nodes| then nodes[at] else null)
      ensures at < |nodes| ==> Contents()[at] == value
      ensures forall i :: 0 <= i < at ==> Contents()[i] != value
    {
      node := n;
      at := 0;
      var notFound := true;
      while notFound && node != null
        invariant at <= |nodes| && node == (if at < |nodes| then nodes[at] else null)
        invariant !notFound ==> at < |nodes| && nodes[at].v == value
        invariant forall i :: 0 <= i < at ==> Contents()[i] != value
        decreases |nodes| - at, notFound
      {
        if node.v == value {
          notFound := false;
        } else {
          Neighbours(n, p, nodes, at);
          node := node.n;
          at := at + 1;
        }
      }
      if notFound {
        node := null;
      } else {
        assert Contents()[at] == value;
      }
    }

    /** The last node with the value, searched for from the end. */
    method FindLast(value: T) returns (node: Node?<T>, ghost at: int)
      requires Valid()
      ensures node == null <==> value !in Contents()
      ensures node != null ==> node in nodes && node.v == value
      ensures -1 <= at < |nodes| && node == (if at >= 0 then nodes[at] else null)
      ensures at >= 0 ==> Contents()[at] == value
      ensures forall i :: at < i < |nodes| ==> Contents()[i] != value
    {
      node := p;
      at := |nodes| - 1;
      var notFound := true;
      while notFound && node != null
        invariant -1 <= at < |nodes| && node == (if at >= 0 then nodes[at] else null)
        invariant !notFound ==> at >= 0 && nodes[at].v == value
        invariant forall i :: at < i < |nodes| ==> Contents()[i] != value
        decreases at + 1, notFound
      {
        if node.v == value {
          notFound := false;
        } else {
          Neighbours(n, p, nodes, at);
          node := node.p;
          at := at - 1;
        }
      }
      if notFound {
        node := null;
      } else {
        assert Contents()[at] == value;
      }
    }

    method Contains(value: T) returns (found: bool)
      requires Valid()
      ensures found == (value in Contents())
    {
      found := false;
      var node := n;
      ghost var at := 0;
      while node != null && !found
        invariant 0 <= at <= |nodes| && node == (if at < |nodes| then nodes[at] else null)
        invariant found ==> at < |nodes| && Contents()[at] == value
        invariant forall i :: 0 <= i < at ==> Contents()[i] != value
        decreases |nodes| - at, !found
      {
        if node.v == value {
          found := true;
        } else {
          Neighbours(n, p, nodes, at);
          node := node.n;
          at := at + 1;
        }
      }
    }

    method Clear()
      modifies this
      ensures Valid() && Contents() == []
    {
      c, n, p := 0, null, null;
      nodes := [];
    }

    method GetEnumerator() returns (e: LinkedListEnumerator<T>)
      requires Valid()
      ensures fresh(e) && e.l == this && e.At(0)
    {
      e := new LinkedListEnumerator<T>(this);
    }
  }

  function WithoutFirst<T(==)>(s: seq<T>, x: T): seq<T>
  {
    if s == [] then [] else if s[0] == x then s[1..] else [s[0]] + WithoutFirst(s[1..], x)
  }

  lemma RemoveAtCons<T>(x: T, s: seq<T>, at: nat)
    requires at < |s|
    ensures [x] + RemoveAt(s, at) == RemoveAt([x] + s, at + 1)
  {
  }

  lemma {:induction false} WithoutFirstAt<T>(s: seq<T>, x: T, at: nat)
    requires at <= |s| && (at < |s| ==> s[at] == x)
    requires forall i :: 0 <= i < at ==> s[i] != x
    ensures WithoutFirst(s, x) == if at < |s| then RemoveAt(s, at) else s
    ensures at < |s| <==> x in s
    decreases at
  {
    if at > 0 {
      var rest := s[1..];
      assert forall i :: 0 <= i < at - 1 ==> rest[i] == s[i + 1];
      WithoutFirstAt(rest, x, at - 1);
      assert s == [s[0]] + rest;
      hide RemoveAt;
      if at < |s| {
        RemoveAtCons(s[0], rest, at - 1);
      }
    }
  }

  /** Where an enumerator stands: at the list itself, whose first node comes next, or at a node. */
  datatype Cursor<T> = AtList | AtNode(node: Node?<T>)

  class LinkedListEnumerator<T(==)> {
    const l: LinkedList<T>
    var c: Cursor<T>

    constructor (l: LinkedList<T>)
      requires l.Valid()
      ensures this.l == l && At(0)
    {
      this.l := l;
      c := AtList;
    }

    /** `k` elements have been passed, the latest being current; past the end stands for `|nodes| + 1`. */
    ghost predicate At(k: nat)
      reads this, l, l.nodes
    {
      && k <= |l.nodes| + 1
      && c == if k == 0 then AtList else if k <= |l.nodes| then AtNode(l.nodes[k - 1]) else AtNode(null)
    }

    /** Past the end there is nothing to move from, which is an exception. */
    method MoveNext(ghost k: nat) returns (r: Result<bool, ()>)
      requires l.Valid() && At(k)
      modifies this
      ensures r == if k > |l.nodes| then Err(()) else Ok(k < |l.nodes|)
      ensures At(if k > |l.nodes| then k else k + 1)
    {
      if c == AtNode(null) {
        return Err(());
      }
      if k > 0 {
        Neighbours(l.n, l.p, l.nodes, k - 1);
      }
      c := AtNode(if c.AtList? then l.n else c.node.n);
      return Ok(c.node != null);
    }

    method Current(ghost k: nat) returns (v: T)
      requires l.Valid() && At(k) && 0 < k <= |l.nodes|
      ensures v == l.Contents()[k - 1]
    {
      v := c.node.v;
    }
  }

  /** The loop that lists what an enumerator gives. */
  method ToArray<T(==)>(l: LinkedList<T>) returns (q: seq<T>)
    requires l.Valid()
    ensures q == l.Contents()
  {
    q := [];
    var o := l.GetEnumerator();
    var more := o.MoveNext(0);
    ghost var k := 1;
    while more == Ok(true)
      invariant l.Valid() && fresh(o) && o.l == l && o.At(k)
      invariant 1 <= k <= |l.nodes| + 1 && more == Ok(k <= |l.nodes|)
      invariant q == l.Contents()[..k - 1]
      decreases |l.nodes| + 1 - k
    {
      var v := o.Current(k);
      assert l.Contents()[..k] == l.Contents()[..k - 1] + [l.Contents()[k - 1]];
      q := q + [v];
      more := o.MoveNext(k);
      k := k + 1;
    }
    assert l.Contents()[..|l.nodes|] == l.Contents();
  }
}
