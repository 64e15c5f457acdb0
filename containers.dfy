/**
  The container graph that message threading works on.

  Containers live in an arena: a sequence indexed by handles, each container
  holding an optional message, the handle of its parent and the ordered handles
  of its children. The id table maps message ids to handles; handles are handed
  out in creation order. Handle 0 is the synthetic root container whose children
  are the root set returned by the builder.
*/
module Containers {

  datatype Option<T> = None | Some(value: T)

  /** A message as the builder receives it: subject, id and references, oldest first. */
  datatype Message = Message(subject: string, id: string, references: seq<string>)

  /** A container: a message (None for a placeholder), its parent, its children in order. */
  datatype Container = Container(message: Option<Message>, parent: Option<nat>, children: seq<nat>)

  /** The arena of containers and the id table. */
  datatype Graph = Graph(nodes: seq<Container>, index: map<string, nat>)

  /** Handle of the synthetic root container. */
  const Root: nat := 0

  /** A fresh container: no message, no parent, no children. */
  const Placeholder := Container(None, None, [])

  /** Every handle stored in a container points into an arena of size n. */
  ghost predicate ContainerWf(c: Container, n: nat) {
    && (c.parent.Some? ==> c.parent.value < n)
    && forall h :: h in c.children ==> h < n
  }

  /** The arena holds the root, and every handle it stores (id table included) is in range. */
  ghost predicate Wf(g: Graph) {
    && |g.nodes| > 0
    && (forall id :: id in g.index ==> 0 < g.index[id] < |g.nodes|)
    && (forall x :: 0 <= x < |g.nodes| ==> ContainerWf(g.nodes[x], |g.nodes|))
  }

  /** Different ids are registered under different containers. */
  ghost predicate Injective(g: Graph) {
    forall a, b :: a in g.index && b in g.index && a != b ==> g.index[a] != g.index[b]
  }

  /** The arena before any message is seen: the root container alone. */
  function Empty(): (g: Graph)
    ensures Forest(g) && |g.nodes| == 1 && g.index == map[]
    ensures g.nodes[Root] == Placeholder
  {
    var g := Graph([Placeholder], map[]);
    assert Ancestry(g, Root, 1) == [Root];
    g
  }

  /**
    The walk up the parent pointers from x, taking at most fuel steps:
    x, its parent, its grandparent, ...
  */
  function Ancestry(g: Graph, x: nat, fuel: nat): (r: seq<nat>)
    requires Wf(g) && x < |g.nodes|
    ensures 1 <= |r| <= fuel + 1 && r[0] == x
    ensures IsChain(g, r)
    ensures |r| <= fuel ==> EndsAtTop(g, r)
    decreases fuel
  {
    match g.nodes[x].parent
    case None => [x]
    case Some(p) => if fuel == 0 then [x] else [x] + Ancestry(g, p, fuel - 1)
  }

  /** One step up: the walk from a container with a parent continues from that parent. */
  lemma AncestryStep(g: Graph, x: nat, fuel: nat)
    requires Wf(g) && x < |g.nodes| && g.nodes[x].parent.Some? && fuel > 0
    ensures var p := g.nodes[x].parent.value;
      && p < |g.nodes| && Ancestry(g, x, fuel) == [x] + Ancestry(g, p, fuel - 1)
  {
    assert ContainerWf(g.nodes[x], |g.nodes|);
  }

  /** q is a path of handles in which each one is the parent of the one before it. */
  ghost predicate IsChain(g: Graph, q: seq<nat>) {
    && |q| > 0
    && (forall i :: 0 <= i < |q| ==> q[i] < |g.nodes|)
    && (forall i :: 0 < i < |q| ==> g.nodes[q[i - 1]].parent == Some(q[i]))
  }

  /** The last handle of q has no parent. */
  ghost predicate EndsAtTop(g: Graph, q: seq<nat>) {
    |q| > 0 && q[|q| - 1] < |g.nodes| && g.nodes[q[|q| - 1]].parent.None?
  }

  /** Walking up from any container reaches a parentless one within |nodes| steps. */
  ghost predicate Acyclic(g: Graph)
    requires Wf(g)
  {
    forall x :: 0 <= x < |g.nodes| ==> EndsAtTop(g, Ancestry(g, x, |g.nodes|))
  }

  /** No element occurs twice. */
  ghost predicate NoDup<T>(s: seq<T>) {
    forall i, j :: 0 <= i < j < |s| ==> s[i] != s[j]
  }

  /**
    Child lists and parent pointers agree: every child names its container as parent,
    every container with a parent is listed (once) among that parent's children.
  */
  ghost predicate Consistent(g: Graph)
    requires Wf(g)
  {
    && (forall x, y :: 0 <= x < |g.nodes| && y in g.nodes[x].children ==> g.nodes[y].parent == Some(x))
    && (forall y :: 0 <= y < |g.nodes| && g.nodes[y].parent.Some? ==>
          y in g.nodes[g.nodes[y].parent.value].children)
    && (forall x :: 0 <= x < |g.nodes| ==> NoDup(g.nodes[x].children))
  }

  /** The container graph is a forest whose root container has no parent. */
  ghost predicate Forest(g: Graph) {
    Wf(g) && Consistent(g) && Acyclic(g) && g.nodes[Root].parent.None?
  }

  /** Any suffix of a chain is a chain. */
  lemma ChainSuffix(g: Graph, q: seq<nat>, i: nat)
    requires IsChain(g, q) && i < |q|
    ensures IsChain(g, q[i..]) && (EndsAtTop(g, q) ==> EndsAtTop(g, q[i..]))
  {
    assert forall j :: 0 <= j < |q| - i ==> q[i..][j] == q[i + j];
  }

  /** A chain that ends at a parentless container is exactly the walk up from its head. */
  lemma {:induction false} ChainIsAncestry(g: Graph, q: seq<nat>, k: nat)
    requires Wf(g) && IsChain(g, q) && EndsAtTop(g, q) && |q| - 1 <= k
    ensures Ancestry(g, q[0], k) == q
    decreases |q|
  {
    if |q| > 1 {
      ChainSuffix(g, q, 1);
      ChainIsAncestry(g, q[1..], k - 1);
      assert q == [q[0]] + q[1..];
    }
  }

  /** A chain that ends at a parentless container never visits a container twice. */
  lemma TopChainDistinct(g: Graph, q: seq<nat>)
    requires Wf(g) && IsChain(g, q) && EndsAtTop(g, q)
    ensures NoDup(q)
  {
    forall i, j | 0 <= i < j < |q|
      ensures q[i] != q[j]
    {
      ChainSuffix(g, q, i);
      ChainSuffix(g, q, j);
      ChainIsAncestry(g, q[i..], |q|);
      ChainIsAncestry(g, q[j..], |q|);
      assert |q[i..]| != |q[j..]|;
    }
  }

  /** n distinct handles below n at most. */
  lemma {:induction false} DistinctBound(q: seq<nat>, n: nat)
    requires NoDup(q) && forall i :: 0 <= i < |q| ==> q[i] < n
    ensures |q| <= n
    decreases n
  {
    if |q| > 0 {
      assert q[0] < n;
      var m := n - 1;
      if k :| 0 <= k < |q| && q[k] == m {
        var q' := q[..k] + q[k + 1..];
        assert |q'| == |q| - 1;
        assert forall i :: 0 <= i < |q'| ==> q'[i] == (if i < k then q[i] else q[i + 1]);
        DistinctBound(q', m);
      } else {
        DistinctBound(q, m);
      }
    }
  }

  /** A chain ending at a parentless container is the full walk up from its head. */
  lemma TopChainAncestry(g: Graph, q: seq<nat>)
    requires Wf(g) && IsChain(g, q) && EndsAtTop(g, q)
    ensures Ancestry(g, q[0], |g.nodes|) == q
  {
    TopChainDistinct(g, q);
    DistinctBound(q, |g.nodes|);
    ChainIsAncestry(g, q, |g.nodes|);
  }

  /** In a forest the walk up from x visits each container at most once. */
  lemma AncestryDistinct(g: Graph, x: nat)
    requires Wf(g) && Acyclic(g) && x < |g.nodes|
    ensures NoDup(Ancestry(g, x, |g.nodes|))
  {
    TopChainDistinct(g, Ancestry(g, x, |g.nodes|));
  }

  /** Two arenas of the same size whose parent pointers agree except, possibly, at c. */
  ghost predicate SameParentsExcept(g: Graph, g': Graph, c: nat) {
    && |g.nodes| == |g'.nodes|
    && forall y :: 0 <= y < |g.nodes| && y != c ==> g'.nodes[y].parent == g.nodes[y].parent
  }

  /** A chain that does not pass through c (except at its end) survives a change of c's parent. */
  lemma ChainFrame(g: Graph, g': Graph, c: nat, q: seq<nat>)
    requires SameParentsExcept(g, g', c) && IsChain(g, q)
    requires forall i :: 0 <= i < |q| - 1 ==> q[i] != c
    ensures IsChain(g', q)
    ensures EndsAtTop(g, q) && q[|q| - 1] != c ==> EndsAtTop(g', q)
  {
  }

  /** Two chains joined where the first one's last container has the second's head as parent. */
  lemma ChainConcat(g: Graph, a: seq<nat>, b: seq<nat>)
    requires IsChain(g, a) && IsChain(g, b) && g.nodes[a[|a| - 1]].parent == Some(b[0])
    ensures IsChain(g, a + b) && (EndsAtTop(g, b) ==> EndsAtTop(g, a + b))
  {
    var q := a + b;
    assert forall j :: 0 <= j < |q| ==> q[j] == (if j < |a| then a[j] else b[j - |a|]);
  }

  /** After c is given the parent p, the walk up from x still ends at a parentless container. */
  lemma ReparentPath(g: Graph, g': Graph, c: nat, p: nat, x: nat)
    requires Wf(g) && Wf(g') && Acyclic(g) && SameParentsExcept(g, g', c)
    requires c < |g.nodes| && p < |g.nodes| && g'.nodes[c].parent == Some(p)
    requires c !in Ancestry(g, p, |g.nodes|) && x < |g.nodes|
    ensures EndsAtTop(g', Ancestry(g', x, |g.nodes|))
  {
    var n := |g.nodes|;
    var path := Ancestry(g, x, n);
    AncestryDistinct(g, x);
    if i :| 0 <= i < |path| && path[i] == c {
      var up := Ancestry(g, p, n);
      ChainFrame(g, g', c, path[..i + 1]);
      ChainFrame(g, g', c, up);
      ChainConcat(g', path[..i + 1], up);
      TopChainAncestry(g', path[..i + 1] + up);
    } else {
      ChainFrame(g, g', c, path);
      TopChainAncestry(g', path);
    }
  }

  /** Giving c a parent p whose walk up does not meet c keeps the arena acyclic. */
  lemma ReparentAcyclic(g: Graph, g': Graph, c: nat, p: nat)
    requires Wf(g) && Wf(g') && Acyclic(g) && SameParentsExcept(g, g', c)
    requires c < |g.nodes| && p < |g.nodes| && g'.nodes[c].parent == Some(p)
    requires c !in Ancestry(g, p, |g.nodes|)
    ensures Acyclic(g')
  {
    forall x | 0 <= x < |g.nodes|
      ensures EndsAtTop(g', Ancestry(g', x, |g.nodes|))
    {
      ReparentPath(g, g', c, p, x);
    }
  }

  /** Cutting c loose from its parent keeps the arena acyclic. */
  lemma CutAcyclic(g: Graph, g': Graph, c: nat)
    requires Wf(g) && Wf(g') && Acyclic(g) && SameParentsExcept(g, g', c)
    requires c < |g.nodes| && g'.nodes[c].parent.None?
    ensures Acyclic(g')
  {
    var n := |g.nodes|;
    forall x | 0 <= x < n
      ensures EndsAtTop(g', Ancestry(g', x, n))
    {
      var path := Ancestry(g, x, n);
      AncestryDistinct(g, x);
      if i :| 0 <= i < |path| && path[i] == c {
        ChainFrame(g, g', c, path[..i + 1]);
        TopChainAncestry(g', path[..i + 1]);
      } else {
        ChainFrame(g, g', c, path);
        TopChainAncestry(g', path);
      }
    }
  }

  /** The walk up from x is the same in g' when it does not pass through c, the only container whose parent changed. */
  lemma AncestryFrame(g: Graph, g': Graph, c: nat, x: nat)
    requires Wf(g) && Wf(g') && Acyclic(g) && SameParentsExcept(g, g', c) && x < |g.nodes|
    requires c !in Ancestry(g, x, |g.nodes|)
    ensures Ancestry(g', x, |g.nodes|) == Ancestry(g, x, |g.nodes|)
  {
    ChainFrame(g, g', c, Ancestry(g, x, |g.nodes|));
    TopChainAncestry(g', Ancestry(g, x, |g.nodes|));
  }

  /** Arenas with the same parent pointers are acyclic together. */
  lemma SameParentsAcyclic(g: Graph, g': Graph)
    requires Wf(g) && Wf(g') && Acyclic(g) && SameParentsExcept(g, g', |g.nodes|)
    ensures Acyclic(g')
  {
    forall x | 0 <= x < |g.nodes|
      ensures EndsAtTop(g', Ancestry(g', x, |g.nodes|))
    {
      AncestryFrame(g, g', |g.nodes|, x);
    }
  }

  /** Appending parentless containers to an acyclic arena keeps it acyclic. */
  lemma ExtendAcyclic(g: Graph, g': Graph)
    requires Wf(g) && Wf(g') && Acyclic(g) && |g.nodes| <= |g'.nodes|
    requires forall y :: 0 <= y < |g.nodes| ==> g'.nodes[y].parent == g.nodes[y].parent
    requires forall y :: |g.nodes| <= y < |g'.nodes| ==> g'.nodes[y].parent.None?
    ensures Acyclic(g')
  {
    forall x | 0 <= x < |g'.nodes|
      ensures EndsAtTop(g', Ancestry(g', x, |g'.nodes|))
    {
      if x < |g.nodes| {
        var path := Ancestry(g, x, |g.nodes|);
        assert IsChain(g', path) && EndsAtTop(g', path);
        TopChainAncestry(g', path);
      } else {
        assert Ancestry(g', x, |g'.nodes|) == [x];
      }
    }
  }

  /** In a forest the walk up from a child is the child followed by the walk up from its parent. */
  lemma ChildAncestry(g: Graph, x: nat, c: nat)
    requires Forest(g) && x < |g.nodes| && c in g.nodes[x].children
    ensures c < |g.nodes| && Ancestry(g, c, |g.nodes|) == [c] + Ancestry(g, x, |g.nodes|)
  {
    assert ContainerWf(g.nodes[x], |g.nodes|);
    var up := Ancestry(g, x, |g.nodes|);
    ChainConcat(g, [c], up);
    TopChainAncestry(g, [c] + up);
  }

  /** A child never lies on the walk up from its parent. */
  lemma ChildNotAbove(g: Graph, x: nat, c: nat)
    requires Forest(g) && x < |g.nodes| && c in g.nodes[x].children
    ensures c !in Ancestry(g, x, |g.nodes|)
  {
    ChildAncestry(g, x, c);
    AncestryDistinct(g, c);
    var up := Ancestry(g, x, |g.nodes|);
    forall k | 0 <= k < |up|
      ensures up[k] != c
    {
      assert ([c] + up)[k + 1] == up[k];
    }
  }

  /** The walk up from a container on a walk is the rest of that walk. */
  lemma AncestrySuffix(g: Graph, y: nat, i: nat)
    requires Wf(g) && Acyclic(g) && y < |g.nodes| && i < |Ancestry(g, y, |g.nodes|)|
    ensures Ancestry(g, Ancestry(g, y, |g.nodes|)[i], |g.nodes|) == Ancestry(g, y, |g.nodes|)[i..]
  {
    var path := Ancestry(g, y, |g.nodes|);
    ChainSuffix(g, path, i);
    TopChainAncestry(g, path[i..]);
  }

  /** On one walk up, two containers with the same parent are the same container. */
  lemma SiblingsApart(g: Graph, y: nat, a: nat, b: nat)
    requires Wf(g) && Acyclic(g) && y < |g.nodes| && a < |g.nodes| && b < |g.nodes|
    requires a in Ancestry(g, y, |g.nodes|) && b in Ancestry(g, y, |g.nodes|)
    requires g.nodes[a].parent.Some? && g.nodes[a].parent == g.nodes[b].parent
    ensures a == b
  {
    var path := Ancestry(g, y, |g.nodes|);
    AncestryDistinct(g, y);
    var i :| 0 <= i < |path| && path[i] == a;
    var j :| 0 <= j < |path| && path[j] == b;
    assert i + 1 < |path| && path[i + 1] == g.nodes[a].parent.value;
    assert j + 1 < |path| && path[j + 1] == g.nodes[b].parent.value;
  }

  /** A sibling of a container on a walk up is not on that walk. */
  lemma SiblingOff(g: Graph, y: nat, a: nat, b: nat)
    requires Wf(g) && Acyclic(g) && y < |g.nodes| && a < |g.nodes| && b < |g.nodes| && a != b
    requires b in Ancestry(g, y, |g.nodes|)
    requires g.nodes[a].parent.Some? && g.nodes[a].parent == g.nodes[b].parent
    ensures a !in Ancestry(g, y, |g.nodes|)
  {
    var path := Ancestry(g, y, |g.nodes|);
    AncestryDistinct(g, y);
    var j :| 0 <= j < |path| && path[j] == b;
    assert j + 1 < |path| && path[j + 1] == g.nodes[b].parent.value;
    forall i | 0 <= i < |path|
      ensures path[i] != a
    {
      if i + 1 < |path| {
        assert g.nodes[path[i]].parent == Some(path[i + 1]);
        if i != j {
          assert path[i + 1] != path[j + 1];
        }
      }
    }
  }

  /** A container x above y (and not y itself) has a child on the walk up from y. */
  lemma ChildOnPath(g: Graph, y: nat, x: nat) returns (c: nat)
    requires Forest(g) && y < |g.nodes| && x != y && x in Ancestry(g, y, |g.nodes|)
    ensures x < |g.nodes| && c in g.nodes[x].children && c in Ancestry(g, y, |g.nodes|)
  {
    var path := Ancestry(g, y, |g.nodes|);
    var i :| 0 <= i < |path| && path[i] == x;
    c := path[i - 1];
    assert g.nodes[c].parent == Some(x);
  }

  /**
    A walk up from y that reaches c survives into g1 when every container on it
    below c has the same parent in g1.
  */
  lemma PathKept(g: Graph, g1: Graph, y: nat, c: nat)
    requires Wf(g) && Acyclic(g) && Wf(g1) && Acyclic(g1) && |g1.nodes| == |g.nodes| && y < |g.nodes|
    requires c in Ancestry(g, y, |g.nodes|)
    requires forall z :: 0 <= z < |g.nodes| && z != c && z in Ancestry(g, y, |g.nodes|) && c in Ancestry(g, z, |g.nodes|) ==>
      g1.nodes[z].parent == g.nodes[z].parent
    ensures c in Ancestry(g1, y, |g.nodes|)
  {
    var n := |g.nodes|;
    var path := Ancestry(g, y, n);
    var i :| 0 <= i < |path| && path[i] == c;
    if i > 0 {
      var a := path[..i];
      PrefixKept(g, g1, y, c, i);
      var up := Ancestry(g1, c, n);
      ChainConcat(g1, a, up);
      TopChainAncestry(g1, a + up);
      assert (a + up)[i] == c;
    }
  }

  /** The part of the walk up from y below its i-th container c keeps its parents in g1. */
  lemma PrefixKept(g: Graph, g1: Graph, y: nat, c: nat, i: nat)
    requires Wf(g) && Acyclic(g) && |g1.nodes| == |g.nodes| && y < |g.nodes|
    requires 0 < i < |Ancestry(g, y, |g.nodes|)| && Ancestry(g, y, |g.nodes|)[i] == c
    requires forall z :: 0 <= z < |g.nodes| && z != c && z in Ancestry(g, y, |g.nodes|) && c in Ancestry(g, z, |g.nodes|) ==>
      g1.nodes[z].parent == g.nodes[z].parent
    ensures IsChain(g1, Ancestry(g, y, |g.nodes|)[..i])
    ensures g1.nodes[Ancestry(g, y, |g.nodes|)[i - 1]].parent == Some(c)
  {
    var n := |g.nodes|;
    var path := Ancestry(g, y, n);
    AncestryDistinct(g, y);
    forall j | 0 <= j < i
      ensures g1.nodes[path[j]].parent == g.nodes[path[j]].parent
    {
      AncestrySuffix(g, y, j);
      assert path[j..][i - j] == c;
    }
  }

  /** A set of handles below n has at most n elements. */
  lemma {:induction false} HandleSetBound(s: set<nat>, n: nat)
    requires forall y :: y in s ==> y < n
    ensures |s| <= n
    decreases n
  {
    if n == 0 {
      assert s == {};
    } else {
      HandleSetBound(s - {n - 1}, n - 1);
    }
  }

  /** No container of a forest is its own parent. */
  lemma NoSelfParent(g: Graph, x: nat)
    requires Wf(g) && Acyclic(g) && x < |g.nodes|
    ensures g.nodes[x].parent != Some(x)
  {
    AncestryDistinct(g, x);
    var path := Ancestry(g, x, |g.nodes|);
    if g.nodes[x].parent.Some? {
      assert |path| > 1 && path[1] == g.nodes[x].parent.value;
    }
  }

  /** Every container without a parent, other than the root container, has no children. */
  ghost predicate LooseBare(g: Graph)
    requires Wf(g)
  {
    forall y :: 0 < y < |g.nodes| && g.nodes[y].parent.None? ==> g.nodes[y].children == []
  }

  /** When only the root container has children among the parentless ones, every container with a parent lies below the root. */
  lemma ReachesRoot(g: Graph, y: nat)
    requires Forest(g) && LooseBare(g) && y < |g.nodes| && g.nodes[y].parent.Some?
    ensures Root in Ancestry(g, y, |g.nodes|)
  {
    var n := |g.nodes|;
    var path := Ancestry(g, y, n);
    assert ContainerWf(g.nodes[y], n);
    assert path == [y] + Ancestry(g, g.nodes[y].parent.value, n - 1);
    var top := path[|path| - 1];
    var z := path[|path| - 2];
    assert g.nodes[z].parent == Some(top);
    assert z in g.nodes[top].children;
  }
}
