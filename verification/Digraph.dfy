// Directed graphs as adjacency maps, and the facts the three depth-first
// searches of the program rest on: a node met again on the search path closes a
// cycle, and a list in which every node follows its successors rules cycles out.
module Digraph {

  // A node that is no key has no successors.
  type Graph<N> = map<N, seq<N>>

  function Succ<N>(g: Graph<N>, n: N): seq<N> {
    if n in g then g[n] else []
  }

  ghost predicate IsPath<N>(g: Graph<N>, p: seq<N>) {
    && p != []
    && forall i :: 0 <= i < |p| - 1 ==> p[i + 1] in Succ(g, p[i])
  }

  ghost predicate IsCycle<N>(g: Graph<N>, p: seq<N>) {
    IsPath(g, p) && |p| >= 2 && p[0] == p[|p| - 1]
  }

  ghost predicate Cyclic<N(!new)>(g: Graph<N>) {
    exists p :: IsCycle(g, p)
  }

  // Every node of the list comes after all its successors.
  ghost predicate Sealed<N>(g: Graph<N>, order: seq<N>) {
    forall i, m :: 0 <= i < |order| && m in Succ(g, order[i]) ==> m in order[..i]
  }

  ghost function Elems<N>(s: seq<N>): set<N> {
    set n | n in s
  }

  lemma CloseCycle<N(!new)>(g: Graph<N>, trail: seq<N>, n: N)
    requires IsPath(g, trail + [n]) && n in trail
    ensures Cyclic(g)
  {
    var i :| 0 <= i < |trail| && trail[i] == n;
    var p := trail + [n];
    assert IsCycle(g, p[i..]);
  }

  lemma ExtendPath<N>(g: Graph<N>, p: seq<N>, n: N)
    requires IsPath(g, p) && n in Succ(g, p[|p| - 1])
    ensures IsPath(g, p + [n])
  {
  }

  lemma {:induction false} PathDescends<N>(g: Graph<N>, order: seq<N>, p: seq<N>, i: nat)
    requires Sealed(g, order) && IsPath(g, p) && |p| >= 2
    requires i < |order| && p[0] == order[i]
    ensures p[|p| - 1] in order[..i]
    decreases |p|
  {
    assert p[1] in Succ(g, p[0]);
    var j :| 0 <= j < i && order[j] == p[1];
    if |p| > 2 {
      PathDescends(g, order, p[1..], j);
    }
  }

  lemma SealedNodeOnNoCycle<N>(g: Graph<N>, order: seq<N>, p: seq<N>)
    requires Sealed(g, order) && IsCycle(g, p)
    ensures p[0] !in order
  {
    if p[0] in order {
      var i := FirstIndex(order, p[0]);
      PathDescends(g, order, p, i);
    }
  }

  lemma FirstIndex<N>(s: seq<N>, n: N) returns (i: nat)
    requires n in s
    ensures i < |s| && s[i] == n && n !in s[..i]
  {
    i := 0;
    while s[i] != n
      invariant i < |s| && n !in s[..i] && n in s
      decreases |s| - i
    {
      i := i + 1;
    }
  }

  // A sealed list holding every key leaves no room for a cycle.
  lemma SealedAcyclic<N(!new)>(g: Graph<N>, order: seq<N>)
    requires Sealed(g, order) && g.Keys <= Elems(order)
    ensures !Cyclic(g)
  {
    forall p | IsCycle(g, p)
      ensures false
    {
      assert p[1] in Succ(g, p[0]);
      assert p[0] in Elems(order);
      SealedNodeOnNoCycle(g, order, p);
    }
  }

  lemma SealAppend<N>(g: Graph<N>, order: seq<N>, n: N)
    requires Sealed(g, order) && forall m :: m in Succ(g, n) ==> m in order
    ensures Sealed(g, order + [n])
    ensures Elems(order + [n]) == Elems(order) + {n}
  {
    forall i, m | 0 <= i < |order + [n]| && m in Succ(g, (order + [n])[i])
      ensures m in (order + [n])[..i]
    {
      if i < |order| {
        assert (order + [n])[..i] == order[..i];
      } else {
        assert (order + [n])[..i] == order;
      }
    }
  }
}
