/**
  Pruning of empty containers below the root set.

  Post-order, below every root-level container: a placeholder (a container without
  a message) with no children is removed from its parent; a placeholder with a
  single child is replaced, at the same position in its parent's child list, by
  that child; a placeholder with several children stays. Root-level containers are
  never pruned, so a placeholder that holds a thread together at the top stays.
*/
module Pruning {
  import opened Containers
  import opened Linking

  /** s with every occurrence of x replaced by y. */
  function Replace(s: seq<nat>, x: nat, y: nat): (r: seq<nat>)
    ensures |r| == |s|
    ensures forall i :: 0 <= i < |s| ==> r[i] == if s[i] == x then y else s[i]
    ensures forall z :: z in r ==> z == y || z in s
  {
    seq(|s|, i requires 0 <= i < |s| => if s[i] == x then y else s[i])
  }

  /** Replacing a member of a duplicate-free list by a non-member keeps it duplicate-free and keeps every other member. */
  lemma ReplaceMembers(s: seq<nat>, x: nat, y: nat)
    requires NoDup(s) && x in s && y !in s
    ensures NoDup(Replace(s, x, y))
    ensures forall z :: z in Replace(s, x, y) <==> z == y || (z in s && z != x)
  {
    var r := Replace(s, x, y);
    forall z | z in s && z != x
      ensures z in r
    {
      var i :| 0 <= i < |s| && s[i] == z;
      assert r[i] == z;
    }
    var k :| 0 <= k < |s| && s[k] == x;
    assert r[k] == y;
  }

  /** The placeholder x, which has a parent and exactly one child, gives its place in the parent's list to that child. */
  function Splice(g: Graph, x: nat): (r: Graph)
    requires Wf(g) && x < |g.nodes| && g.nodes[x].parent.Some? && |g.nodes[x].children| == 1
    ensures Wf(r) && r.index == g.index && |r.nodes| == |g.nodes|
    ensures forall y :: 0 <= y < |g.nodes| ==> r.nodes[y].message == g.nodes[y].message
  {
    var q := g.nodes[x].parent.value;
    var k := g.nodes[x].children[0];
    assert ContainerWf(g.nodes[x], |g.nodes|) && k in g.nodes[x].children;
    assert ContainerWf(g.nodes[q], |g.nodes|);
    var nodes := g.nodes[q := g.nodes[q].(children := Replace(g.nodes[q].children, x, k))];
    var nodes := nodes[x := nodes[x].(parent := None, children := [])];
    g.(nodes := nodes[k := nodes[k].(parent := Some(q))])
  }

  /** Removing a container from its parent keeps the forest. */
  lemma DetachForest(g: Graph, x: nat)
    requires Forest(g) && x < |g.nodes|
    ensures Forest(Detach(g, x))
  {
    NoSelfParent(g, x);
    DetachConsistent(g, x);
    CutAcyclic(g, Detach(g, x), x);
  }

  /** In an acyclic arena, the grandparent q of k (through x) lies above both: its walk up meets neither. */
  lemma GrandparentAbove(g: Graph, k: nat, x: nat, q: nat)
    requires Wf(g) && Acyclic(g) && k < |g.nodes| && x < |g.nodes| && q < |g.nodes|
    requires g.nodes[k].parent == Some(x) && g.nodes[x].parent == Some(q)
    ensures k !in Ancestry(g, q, |g.nodes|) && x !in Ancestry(g, q, |g.nodes|)
  {
    var up := Ancestry(g, q, |g.nodes|);
    var path := [k, x] + up;
    ChainConcat(g, [k, x], up);
    TopChainAncestry(g, path);
    AncestryDistinct(g, k);
    forall i | 0 <= i < |up|
      ensures up[i] != k && up[i] != x
    {
      assert path[i + 2] == up[i];
      assert path[0] != path[i + 2] && path[1] != path[i + 2];
    }
  }

  /** What splicing out x does: q (x's parent) lists k (x's only child) in x's place, x is cut loose, k hangs under q. */
  lemma SpliceShape(g: Graph, x: nat, q: nat, k: nat)
    requires Wf(g) && x < |g.nodes| && q < |g.nodes| && k < |g.nodes| && x != q && x != k && q != k
    requires g.nodes[x].parent == Some(q) && g.nodes[x].children == [k]
    ensures Splice(g, x).nodes[q] == g.nodes[q].(children := Replace(g.nodes[q].children, x, k))
    ensures Splice(g, x).nodes[x] == g.nodes[x].(parent := None, children := [])
    ensures Splice(g, x).nodes[k] == g.nodes[k].(parent := Some(q))
    ensures forall y :: 0 <= y < |g.nodes| && y != q && y != x && y != k ==> Splice(g, x).nodes[y] == g.nodes[y]
  {
  }

  lemma SpliceConsistent(g: Graph, x: nat, q: nat, k: nat)
    requires Wf(g) && Consistent(g) && x < |g.nodes| && q < |g.nodes| && k < |g.nodes| && x != q && x != k && q != k
    requires g.nodes[x].parent == Some(q) && g.nodes[x].children == [k]
    ensures Consistent(Splice(g, x))
  {
    SpliceShape(g, x, q, k);
    assert g.nodes[k].parent == Some(x);
    assert x in g.nodes[q].children && k !in g.nodes[q].children;
    ReplaceMembers(g.nodes[q].children, x, k);
    SpliceChildren(g, x, q, k);
    SpliceParents(g, x, q, k);
  }

  /** After a splice every child still names its container as parent. */
  lemma SpliceChildren(g: Graph, x: nat, q: nat, k: nat)
    requires Wf(g) && Consistent(g) && x < |g.nodes| && q < |g.nodes| && k < |g.nodes| && x != q && x != k && q != k
    requires g.nodes[x].parent == Some(q) && g.nodes[x].children == [k]
    requires forall z :: z in Replace(g.nodes[q].children, x, k) <==> z == k || (z in g.nodes[q].children && z != x)
    ensures forall z, y :: 0 <= z < |g.nodes| && y in Splice(g, x).nodes[z].children ==> Splice(g, x).nodes[y].parent == Some(z)
  {
    var r := Splice(g, x);
    SpliceShape(g, x, q, k);
    forall z, y | 0 <= z < |g.nodes| && y in r.nodes[z].children
      ensures r.nodes[y].parent == Some(z)
    {
      assert z != x;
      assert y == k || y in g.nodes[z].children;
    }
  }

  /** After a splice every container with a parent is listed among its parent's children. */
  lemma SpliceParents(g: Graph, x: nat, q: nat, k: nat)
    requires Wf(g) && Consistent(g) && x < |g.nodes| && q < |g.nodes| && k < |g.nodes| && x != q && x != k && q != k
    requires g.nodes[x].parent == Some(q) && g.nodes[x].children == [k]
    requires forall z :: z in Replace(g.nodes[q].children, x, k) <==> z == k || (z in g.nodes[q].children && z != x)
    ensures forall y :: 0 <= y < |g.nodes| && Splice(g, x).nodes[y].parent.Some? ==>
      y in Splice(g, x).nodes[Splice(g, x).nodes[y].parent.value].children
  {
    var r := Splice(g, x);
    SpliceShape(g, x, q, k);
    forall y | 0 <= y < |g.nodes| && r.nodes[y].parent.Some?
      ensures y in r.nodes[r.nodes[y].parent.value].children
    {
      assert y != x;
      assert y != k ==> g.nodes[y].parent == r.nodes[y].parent && y in g.nodes[g.nodes[y].parent.value].children;
    }
  }

  lemma SpliceAcyclic(g: Graph, x: nat, q: nat, k: nat)
    requires Wf(g) && Acyclic(g) && x < |g.nodes| && q < |g.nodes| && k < |g.nodes| && x != q && x != k && q != k
    requires g.nodes[x].parent == Some(q) && g.nodes[x].children == [k] && g.nodes[k].parent == Some(x)
    ensures Acyclic(Splice(g, x))
  {
    var r := Splice(g, x);
    SpliceShape(g, x, q, k);
    GrandparentAbove(g, k, x, q);
    // The two parent changes, one after the other.
    var g1 := g.(nodes := g.nodes[x := g.nodes[x].(parent := None)]);
    CutAcyclic(g, g1, x);
    AncestryFrame(g, g1, x, q);
    assert SameParentsExcept(g1, r, k);
    ReparentAcyclic(g1, r, k, q);
  }

  /** Splicing out a single-child placeholder keeps the forest. */
  lemma SpliceForest(g: Graph, x: nat)
    requires Forest(g) && x < |g.nodes| && g.nodes[x].parent.Some? && |g.nodes[x].children| == 1
    ensures Forest(Splice(g, x))
  {
    var q := g.nodes[x].parent.value;
    var k := g.nodes[x].children[0];
    assert ContainerWf(g.nodes[x], |g.nodes|) && k in g.nodes[x].children;
    assert g.nodes[x].children == [k];
    assert g.nodes[k].parent == Some(x);
    NoSelfParent(g, x);
    NoSelfParent(g, k);
    GrandparentAbove(g, k, x, q);
    assert q in Ancestry(g, q, |g.nodes|);
    SpliceConsistent(g, x, q, k);
    SpliceAcyclic(g, x, q, k);
    SpliceShape(g, x, q, k);
  }
  /**
    Splicing out x puts its only child k at x's position in the parent's list
    (the list is otherwise unchanged, and so is the parent's own parent), hangs
    k under x's parent, cuts x loose and changes no other container.
  */
  lemma SplicePosition(g: Graph, x: nat)
    requires Forest(g) && x < |g.nodes| && g.nodes[x].parent.Some? && |g.nodes[x].children| == 1
    ensures var q, k := g.nodes[x].parent.value, g.nodes[x].children[0];
      && q < |g.nodes| && k < |g.nodes|
      && (exists i :: 0 <= i < |g.nodes[q].children| && g.nodes[q].children[i] == x &&
            Splice(g, x).nodes[q].children == g.nodes[q].children[i := k])
      && Splice(g, x).nodes[q].parent == g.nodes[q].parent
      && Splice(g, x).nodes[k].parent == Some(q)
      && Splice(g, x).nodes[x].parent.None? && Splice(g, x).nodes[x].children == []
      && forall y :: 0 <= y < |g.nodes| && y != q && y != x && y != k ==> Splice(g, x).nodes[y] == g.nodes[y]
  {
    var q := g.nodes[x].parent.value;
    var k := g.nodes[x].children[0];
    assert ContainerWf(g.nodes[x], |g.nodes|) && k in g.nodes[x].children;
    assert g.nodes[x].children == [k];
    NoSelfParent(g, x);
    NoSelfParent(g, k);
    GrandparentAbove(g, k, x, q);
    assert q in Ancestry(g, q, |g.nodes|);
    SpliceShape(g, x, q, k);
    var cs := g.nodes[q].children;
    var i :| 0 <= i < |cs| && cs[i] == x;
    assert Replace(cs, x, k) == cs[i := k];
  }


  /**
    Prunes the subtree below x, then x itself when it is a placeholder below the
    root set. The fuel bounds the depth of the recursion.
  */
  function PruneNode(g: Graph, x: nat, fuel: nat): (r: Graph)
    requires Wf(g) && x < |g.nodes|
    ensures Wf(r) && r.index == g.index && |r.nodes| == |g.nodes|
    ensures forall y :: 0 <= y < |g.nodes| ==> r.nodes[y].message == g.nodes[y].message
    decreases fuel, 0
  {
    if fuel == 0 then g
    else
      assert ContainerWf(g.nodes[x], |g.nodes|);
      PruneSelf(PruneEach(g, g.nodes[x].children, fuel - 1), x)
  }

  /**
    Prunes x itself once its subtree is done: a placeholder below the root set
    goes when childless and gives way to its child when it has exactly one.
  */
  function PruneSelf(g: Graph, x: nat): (r: Graph)
    requires Wf(g) && x < |g.nodes|
    ensures Wf(r) && r.index == g.index && |r.nodes| == |g.nodes|
    ensures forall y :: 0 <= y < |g.nodes| ==> r.nodes[y].message == g.nodes[y].message
  {
    var c := g.nodes[x];
    if c.message.Some? || c.parent.None? || c.parent == Some(Root) then g
    else if |c.children| == 0 then Detach(g, x)
    else if |c.children| == 1 then Splice(g, x)
    else g
  }

  /** Prunes each container of cs in turn. */
  function PruneEach(g: Graph, cs: seq<nat>, fuel: nat): (r: Graph)
    requires Wf(g) && forall c :: c in cs ==> c < |g.nodes|
    ensures Wf(r) && r.index == g.index && |r.nodes| == |g.nodes|
    ensures forall y :: 0 <= y < |g.nodes| ==> r.nodes[y].message == g.nodes[y].message
    decreases fuel, 1, |cs|
  {
    if cs == [] then g
    else
      assert cs[0] in cs && forall c :: c in cs[1..] ==> c in cs;
      PruneEach(PruneNode(g, cs[0], fuel), cs[1..], fuel)
  }

  /** Prunes below each of the given root-level containers in turn. */
  function PruneBelow(g: Graph, roots: seq<nat>, fuel: nat): (r: Graph)
    requires Wf(g) && forall c :: c in roots ==> c < |g.nodes|
    ensures Wf(r) && r.index == g.index && |r.nodes| == |g.nodes|
    ensures forall y :: 0 <= y < |g.nodes| ==> r.nodes[y].message == g.nodes[y].message
    decreases |roots|
  {
    if roots == [] then g
    else
      assert roots[0] in roots && forall c :: c in roots[1..] ==> c in roots;
      assert ContainerWf(g.nodes[roots[0]], |g.nodes|);
      PruneBelow(PruneEach(g, g.nodes[roots[0]].children, fuel), roots[1..], fuel)
  }

  /** The pruning phase: below every container of the root set, with the arena size as depth bound. */
  function Prune(g: Graph): (r: Graph)
    requires Wf(g)
    ensures Wf(r) && r.index == g.index && |r.nodes| == |g.nodes|
    ensures forall y :: 0 <= y < |g.nodes| ==> r.nodes[y].message == g.nodes[y].message
  {
    assert ContainerWf(g.nodes[Root], |g.nodes|);
    PruneBelow(g, g.nodes[Root].children, |g.nodes|)
  }

  /**
    What pruning keeps: the root container and with it the root set, which
    containers are root-level, and the attachment of every container that holds a
    message.
  */
  ghost predicate Retains(g: Graph, r: Graph)
    requires |r.nodes| == |g.nodes| > 0
  {
    && (forall y :: 0 <= y < |g.nodes| ==> r.nodes[y].message == g.nodes[y].message)
    && r.nodes[Root] == g.nodes[Root]
    && (forall y :: 0 <= y < |g.nodes| ==> (r.nodes[y].parent == Some(Root) <==> g.nodes[y].parent == Some(Root)))
    && (forall y :: 0 <= y < |g.nodes| && g.nodes[y].message.Some? && g.nodes[y].parent.Some? ==>
          r.nodes[y].parent.Some?)
  }

  lemma RetainsTrans(g: Graph, g1: Graph, g2: Graph)
    requires |g.nodes| == |g1.nodes| == |g2.nodes| > 0 && Retains(g, g1) && Retains(g1, g2)
    ensures Retains(g, g2)
  {
  }

  /** Removing a childless placeholder from below the root set. */
  lemma DetachRetains(g: Graph, x: nat)
    requires Forest(g) && x < |g.nodes| && g.nodes[x].message.None?
    requires g.nodes[x].parent.Some? && g.nodes[x].parent != Some(Root)
    ensures Retains(g, Detach(g, x))
  {
  }

  /** Splicing out a single-child placeholder below the root set. */
  lemma SpliceRetains(g: Graph, x: nat)
    requires Forest(g) && x < |g.nodes| && g.nodes[x].message.None? && |g.nodes[x].children| == 1
    requires g.nodes[x].parent.Some? && g.nodes[x].parent != Some(Root)
    ensures Retains(g, Splice(g, x))
  {
    var q := g.nodes[x].parent.value;
    var k := g.nodes[x].children[0];
    assert ContainerWf(g.nodes[x], |g.nodes|) && k in g.nodes[x].children;
    assert g.nodes[x].children == [k];
    assert g.nodes[k].parent == Some(x);
    NoSelfParent(g, x);
    NoSelfParent(g, k);
    GrandparentAbove(g, k, x, q);
    assert q in Ancestry(g, q, |g.nodes|);
    SpliceRetainsShape(g, x, q, k);
  }

  /** SpliceRetains, once x, its parent q and its child k are known to be distinct and not the root container. */
  lemma SpliceRetainsShape(g: Graph, x: nat, q: nat, k: nat)
    requires Wf(g) && 0 < x < |g.nodes| && 0 < q < |g.nodes| && 0 < k < |g.nodes| && x != q && x != k && q != k
    requires g.nodes[x].message.None? && g.nodes[x].parent == Some(q) && g.nodes[x].children == [k]
    requires g.nodes[k].parent == Some(x)
    ensures Retains(g, Splice(g, x))
  {
    SpliceShape(g, x, q, k);
  }

  /** Pruning one container keeps the forest and retains what pruning promises to retain. */
  lemma {:induction false} PruneNodeKeeps(g: Graph, x: nat, fuel: nat)
    requires Forest(g) && x < |g.nodes|
    ensures Forest(PruneNode(g, x, fuel)) && Retains(g, PruneNode(g, x, fuel))
    decreases fuel, 0
  {
    if fuel == 0 {
      assert PruneNode(g, x, fuel) == g;
    } else {
      assert ContainerWf(g.nodes[x], |g.nodes|);
      PruneSelfKeeps(g, g.nodes[x].children, x, fuel - 1);
      assert PruneNode(g, x, fuel) == PruneSelf(PruneEach(g, g.nodes[x].children, fuel - 1), x);
    }
  }

  /**
    Pruning below x and then x itself keeps the forest and retains what pruning
    promises to retain.
  */
  lemma {:induction false} PruneSelfKeeps(g: Graph, cs: seq<nat>, x: nat, fuel: nat)
    requires Forest(g) && x < |g.nodes| && forall c :: c in cs ==> c < |g.nodes|
    ensures var g1 := PruneEach(g, cs, fuel);
      Forest(PruneSelf(g1, x)) && Retains(g, PruneSelf(g1, x))
    decreases fuel, 1, |cs| + 1
  {
    PruneEachKeeps(g, cs, fuel);
    var g1 := PruneEach(g, cs, fuel);
    var c := g1.nodes[x];
    if !(c.message.Some? || c.parent.None? || c.parent == Some(Root)) {
      if |c.children| == 0 {
        DetachForest(g1, x);
        DetachRetains(g1, x);
        RetainsTrans(g, g1, Detach(g1, x));
      } else if |c.children| == 1 {
        SpliceForest(g1, x);
        SpliceRetains(g1, x);
        RetainsTrans(g, g1, Splice(g1, x));
      }
    }
  }

  lemma {:induction false} PruneEachKeeps(g: Graph, cs: seq<nat>, fuel: nat)
    requires Forest(g) && forall c :: c in cs ==> c < |g.nodes|
    ensures Forest(PruneEach(g, cs, fuel)) && Retains(g, PruneEach(g, cs, fuel))
    decreases fuel, 1, |cs|
  {
    if cs != [] {
      assert cs[0] in cs && forall c :: c in cs[1..] ==> c in cs;
      PruneNodeKeeps(g, cs[0], fuel);
      var g1 := PruneNode(g, cs[0], fuel);
      PruneEachKeeps(g1, cs[1..], fuel);
      RetainsTrans(g, g1, PruneEach(g1, cs[1..], fuel));
    }
  }

  lemma {:induction false} PruneBelowKeeps(g: Graph, roots: seq<nat>, fuel: nat)
    requires Forest(g) && forall c :: c in roots ==> c < |g.nodes|
    ensures Forest(PruneBelow(g, roots, fuel)) && Retains(g, PruneBelow(g, roots, fuel))
    decreases |roots|
  {
    if roots != [] {
      assert roots[0] in roots && forall c :: c in roots[1..] ==> c in roots;
      assert ContainerWf(g.nodes[roots[0]], |g.nodes|);
      PruneEachKeeps(g, g.nodes[roots[0]].children, fuel);
      var g1 := PruneEach(g, g.nodes[roots[0]].children, fuel);
      PruneBelowKeeps(g1, roots[1..], fuel);
      RetainsTrans(g, g1, PruneBelow(g1, roots[1..], fuel));
    }
  }

  /**
    Pruning keeps the forest, never touches the root set or the root-level
    containers, never detaches a container holding a message, and changes no message.
  */
  lemma PruneKeeps(g: Graph)
    requires Forest(g)
    ensures Forest(Prune(g)) && Retains(g, Prune(g))
  {
    assert ContainerWf(g.nodes[Root], |g.nodes|);
    PruneBelowKeeps(g, g.nodes[Root].children, |g.nodes|);
  }

  /** Every container below the root set holds a message. */
  ghost predicate NoInnerPlaceholders(g: Graph)
    requires Wf(g)
  {
    forall x :: 0 <= x < |g.nodes| && g.nodes[x].parent.Some? && g.nodes[x].parent != Some(Root) ==>
      g.nodes[x].message.Some?
  }

  /** The root container is nobody's child. */
  lemma ChildrenNotRoot(g: Graph, x: nat)
    requires Forest(g) && x < |g.nodes|
    ensures forall c :: c in g.nodes[x].children ==> 0 < c < |g.nodes|
  {
    assert ContainerWf(g.nodes[x], |g.nodes|);
    assert forall c :: c in g.nodes[x].children ==> g.nodes[c].parent == Some(x);
  }

  lemma {:induction false} PruneNodeIdentity(g: Graph, x: nat, fuel: nat)
    requires Forest(g) && NoInnerPlaceholders(g) && 0 < x < |g.nodes|
    ensures PruneNode(g, x, fuel) == g
    decreases fuel, 0
  {
    if fuel > 0 {
      ChildrenNotRoot(g, x);
      PruneEachIdentity(g, g.nodes[x].children, fuel - 1);
    }
  }

  lemma {:induction false} PruneEachIdentity(g: Graph, cs: seq<nat>, fuel: nat)
    requires Forest(g) && NoInnerPlaceholders(g) && forall c :: c in cs ==> 0 < c < |g.nodes|
    ensures PruneEach(g, cs, fuel) == g
    decreases fuel, 1, |cs|
  {
    if cs != [] {
      assert cs[0] in cs && forall c :: c in cs[1..] ==> c in cs;
      PruneNodeIdentity(g, cs[0], fuel);
      PruneEachIdentity(g, cs[1..], fuel);
    }
  }

  lemma {:induction false} PruneBelowIdentity(g: Graph, roots: seq<nat>, fuel: nat)
    requires Forest(g) && NoInnerPlaceholders(g) && forall c :: c in roots ==> c < |g.nodes|
    ensures PruneBelow(g, roots, fuel) == g
    decreases |roots|
  {
    if roots != [] {
      assert roots[0] in roots && forall c :: c in roots[1..] ==> c in roots;
      ChildrenNotRoot(g, roots[0]);
      PruneEachIdentity(g, g.nodes[roots[0]].children, fuel);
      PruneBelowIdentity(g, roots[1..], fuel);
    }
  }

  /** When every container below the root set holds a message, pruning changes nothing. */
  lemma PruneIdentity(g: Graph)
    requires Forest(g) && NoInnerPlaceholders(g)
    ensures Prune(g) == g
  {
    ChildrenNotRoot(g, Root);
    PruneBelowIdentity(g, g.nodes[Root].children, |g.nodes|);
  }
}
