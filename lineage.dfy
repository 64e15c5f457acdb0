/**
  Pruning keeps every message's lineage.

  The lineage of a container is the list of message-holding containers met on
  the walk up from it. Pruning only removes or splices out placeholders, so for
  every container that holds a message the walk up passes the same
  message-holding containers, in the same order, before and after pruning: its
  nearest message-holding ancestor stays its nearest, and so on up to the top.
*/
module Lineage {
  import opened Containers
  import opened Linking
  import opened Pruning

  /** The message-holding containers of s, in order. */
  function Holding(g: Graph, s: seq<nat>): seq<nat>
  {
    if s == [] then []
    else (if s[0] < |g.nodes| && g.nodes[s[0]].message.Some? then [s[0]] else []) + Holding(g, s[1..])
  }

  /** The lineage of y: the message-holding containers on the walk up from y, y first when it holds one. */
  ghost function Lineage(g: Graph, y: nat): seq<nat>
    requires Wf(g) && y < |g.nodes|
  {
    Holding(g, Ancestry(g, y, |g.nodes|))
  }

  /** Every container holding a message has the same lineage in r as in g. */
  ghost predicate SameLineage(g: Graph, r: Graph)
    requires Wf(g) && Wf(r) && |r.nodes| == |g.nodes|
  {
    forall y :: 0 <= y < |g.nodes| && g.nodes[y].message.Some? ==> Lineage(r, y) == Lineage(g, y)
  }

  /** Only the messages decide which containers are kept. */
  lemma {:induction false} HoldingSame(g: Graph, r: Graph, s: seq<nat>)
    requires |r.nodes| == |g.nodes| && forall y :: 0 <= y < |g.nodes| ==> r.nodes[y].message == g.nodes[y].message
    ensures Holding(r, s) == Holding(g, s)
  {
    if s != [] {
      HoldingSame(g, r, s[1..]);
    }
  }

  /** Keeping the message holders of a + b is keeping those of a, then those of b. */
  lemma {:induction false} HoldingConcat(g: Graph, a: seq<nat>, b: seq<nat>)
    ensures Holding(g, a + b) == Holding(g, a) + Holding(g, b)
  {
    if a == [] {
      assert a + b == b;
    } else {
      var h := if a[0] < |g.nodes| && g.nodes[a[0]].message.Some? then [a[0]] else [];
      assert (a + b)[0] == a[0] && (a + b)[1..] == a[1..] + b;
      assert Holding(g, a + b) == h + Holding(g, a[1..] + b);
      assert Holding(g, a) == h + Holding(g, a[1..]);
      HoldingConcat(g, a[1..], b);
      assert h + (Holding(g, a[1..]) + Holding(g, b)) == (h + Holding(g, a[1..])) + Holding(g, b);
    }
  }

  /** A placeholder dropped from the middle of a walk does not change its message holders. */
  lemma HoldingSkip(g: Graph, a: seq<nat>, x: nat, b: seq<nat>)
    requires x < |g.nodes| && g.nodes[x].message.None?
    ensures Holding(g, a + [x] + b) == Holding(g, a + b)
  {
    assert a + [x] + b == a + ([x] + b);
    HoldingConcat(g, a, [x] + b);
    HoldingConcat(g, [x], b);
    assert Holding(g, [x]) == [];
    HoldingConcat(g, a, b);
  }

  /**
    Cutting loose a childless placeholder keeps every message's lineage: it lies
    on no other container's walk up.
  */
  lemma DetachLineage(g: Graph, x: nat)
    requires Forest(g) && x < |g.nodes| && g.nodes[x].message.None? && g.nodes[x].children == []
    ensures SameLineage(g, Detach(g, x))
  {
    var r := Detach(g, x);
    forall y | 0 <= y < |g.nodes| && g.nodes[y].message.Some?
      ensures Lineage(r, y) == Lineage(g, y)
    {
      if x in Ancestry(g, y, |g.nodes|) {
        var c := ChildOnPath(g, y, x);
        assert false;
      }
      AncestryFrame(g, r, x, y);
      HoldingSame(g, r, Ancestry(g, y, |g.nodes|));
    }
  }

  /**
    The parent changes of splicing out x, whose parent is q and whose only child
    is k: x is cut loose and k moves up to q; no other parent changes.
  */
  ghost predicate SplicedParents(g: Graph, r: Graph, x: nat, q: nat, k: nat)
    requires Wf(g) && Wf(r) && |r.nodes| == |g.nodes| && x < |g.nodes| && k < |g.nodes|
  {
    && g.nodes[x].parent == Some(q) && g.nodes[k].parent == Some(x)
    && (forall z :: 0 <= z < |g.nodes| && g.nodes[z].parent == Some(x) ==> z == k)
    && r.nodes[k].parent == Some(q)
    && (forall z :: 0 <= z < |g.nodes| && z != x && z != k ==> r.nodes[z].parent == g.nodes[z].parent)
  }

  /** A walk up that misses the spliced placeholder misses its child too, and stays as it was. */
  lemma SplicedWalkMissed(g: Graph, r: Graph, x: nat, q: nat, k: nat, y: nat)
    requires Wf(g) && Wf(r) && Acyclic(g) && |r.nodes| == |g.nodes| && x < |g.nodes| && k < |g.nodes|
    requires SplicedParents(g, r, x, q, k) && y < |g.nodes| && x !in Ancestry(g, y, |g.nodes|)
    ensures Ancestry(r, y, |g.nodes|) == Ancestry(g, y, |g.nodes|)
  {
    var path := Ancestry(g, y, |g.nodes|);
    assert EndsAtTop(g, path);
    forall i | 0 <= i < |path|
      ensures path[i] != k
    {
      if i < |path| - 1 {
        assert g.nodes[path[i]].parent == Some(path[i + 1]) && path[i + 1] != x;
      }
    }
    ChainFrameTwo(g, r, x, k, path);
    TopChainAncestry(r, path);
  }

  /** A walk up that passes the spliced placeholder x (above its start) goes from x's child k straight to q. */
  lemma SplicedWalkThrough(g: Graph, r: Graph, x: nat, q: nat, k: nat, y: nat, i: nat)
    requires Wf(g) && Wf(r) && |r.nodes| == |g.nodes| && x < |g.nodes| && k < |g.nodes|
    requires SplicedParents(g, r, x, q, k) && y < |g.nodes|
    requires EndsAtTop(g, Ancestry(g, y, |g.nodes|)) && NoDup(Ancestry(g, y, |g.nodes|))
    requires 0 < i < |Ancestry(g, y, |g.nodes|)| && Ancestry(g, y, |g.nodes|)[i] == x
    ensures var path := Ancestry(g, y, |g.nodes|);
      Ancestry(r, y, |g.nodes|) == path[..i] + path[i + 1..] && path == path[..i] + [x] + path[i + 1..]
  {
    var path := Ancestry(g, y, |g.nodes|);
    SplicedChain(g, r, x, q, k, path, i);
    TopChainAncestry(r, path[..i] + path[i + 1..]);
  }

  /** A chain to the top through x (above its start) goes from k straight to q once x is spliced out. */
  lemma SplicedChain(g: Graph, r: Graph, x: nat, q: nat, k: nat, path: seq<nat>, i: nat)
    requires Wf(g) && Wf(r) && |r.nodes| == |g.nodes| && x < |g.nodes| && k < |g.nodes|
    requires SplicedParents(g, r, x, q, k) && IsChain(g, path) && EndsAtTop(g, path) && NoDup(path)
    requires 0 < i < |path| && path[i] == x
    ensures IsChain(r, path[..i] + path[i + 1..]) && EndsAtTop(r, path[..i] + path[i + 1..])
    ensures (path[..i] + path[i + 1..])[0] == path[0] && path == path[..i] + [x] + path[i + 1..]
  {
    assert path[i - 1] == k;
    assert i + 1 < |path| && path[i + 1] == q;
    SplicedBelow(g, r, x, k, path, i);
    SplicedAbove(g, r, x, k, path, i);
    ChainConcat(r, path[..i], path[i + 1..]);
    assert path == path[..i] + [x] + path[i + 1..];
  }

  /** The part of the chain below x keeps its links: none of them starts at x or k. */
  lemma SplicedBelow(g: Graph, r: Graph, x: nat, k: nat, path: seq<nat>, i: nat)
    requires |r.nodes| == |g.nodes| && IsChain(g, path) && NoDup(path)
    requires forall z :: 0 <= z < |g.nodes| && z != x && z != k ==> r.nodes[z].parent == g.nodes[z].parent
    requires 0 < i < |path| && path[i] == x && path[i - 1] == k
    ensures IsChain(r, path[..i])
  {
    var a := path[..i];
    forall j | 0 <= j < |a| - 1
      ensures a[j] != x && a[j] != k
    {
      assert a[j] == path[j] && j < i - 1;
    }
    ChainFrameTwo(g, r, x, k, a);
  }

  /** The part of the chain above x keeps its links and its top: it holds neither x nor k. */
  lemma SplicedAbove(g: Graph, r: Graph, x: nat, k: nat, path: seq<nat>, i: nat)
    requires |r.nodes| == |g.nodes| && IsChain(g, path) && EndsAtTop(g, path) && NoDup(path)
    requires forall z :: 0 <= z < |g.nodes| && z != x && z != k ==> r.nodes[z].parent == g.nodes[z].parent
    requires 0 < i < |path| - 1 && path[i] == x && path[i - 1] == k
    ensures IsChain(r, path[i + 1..]) && EndsAtTop(r, path[i + 1..])
  {
    var b := path[i + 1..];
    forall j | 0 <= j < |b|
      ensures b[j] != x && b[j] != k
    {
      assert b[j] == path[i + 1 + j];
    }
    ChainSuffix(g, path, i + 1);
    ChainFrameTwo(g, r, x, k, b);
  }

  /** A chain through neither x nor k (except at its end) survives when only x's and k's parents change. */
  lemma ChainFrameTwo(g: Graph, r: Graph, x: nat, k: nat, s: seq<nat>)
    requires |r.nodes| == |g.nodes| && IsChain(g, s)
    requires forall z :: 0 <= z < |g.nodes| && z != x && z != k ==> r.nodes[z].parent == g.nodes[z].parent
    requires forall j :: 0 <= j < |s| - 1 ==> s[j] != x && s[j] != k
    ensures IsChain(r, s)
    ensures EndsAtTop(g, s) && s[|s| - 1] != x && s[|s| - 1] != k ==> EndsAtTop(r, s)
  {
  }

  /**
    Splicing out a single-child placeholder keeps every message's lineage: a walk
    through it loses only the placeholder itself.
  */
  lemma SpliceLineage(g: Graph, x: nat)
    requires Forest(g) && x < |g.nodes| && g.nodes[x].message.None?
    requires g.nodes[x].parent.Some? && |g.nodes[x].children| == 1
    ensures SameLineage(g, Splice(g, x))
  {
    var r := Splice(g, x);
    var q, k := g.nodes[x].parent.value, g.nodes[x].children[0];
    SplicePosition(g, x);
    assert ContainerWf(g.nodes[x], |g.nodes|) && k in g.nodes[x].children;
    assert g.nodes[x].children == [k];
    assert SplicedParents(g, r, x, q, k);
    forall y | 0 <= y < |g.nodes| && g.nodes[y].message.Some?
      ensures Lineage(r, y) == Lineage(g, y)
    {
      var path := Ancestry(g, y, |g.nodes|);
      if i :| 0 <= i < |path| && path[i] == x {
        AncestryDistinct(g, y);
        SplicedWalkThrough(g, r, x, q, k, y, i);
        HoldingSkip(g, path[..i], x, path[i + 1..]);
        HoldingSame(g, r, path[..i] + path[i + 1..]);
      } else {
        SplicedWalkMissed(g, r, x, q, k, y);
        HoldingSame(g, r, path);
      }
    }
  }

  lemma SameLineageTrans(g: Graph, g1: Graph, g2: Graph)
    requires Wf(g) && Wf(g1) && Wf(g2) && |g1.nodes| == |g.nodes| && |g2.nodes| == |g.nodes|
    requires forall y :: 0 <= y < |g.nodes| ==> g1.nodes[y].message == g.nodes[y].message
    requires SameLineage(g, g1) && SameLineage(g1, g2)
    ensures SameLineage(g, g2)
  {
  }

  /** Pruning x itself keeps every message's lineage. */
  lemma PruneSelfLineage(g: Graph, x: nat)
    requires Forest(g) && x < |g.nodes|
    ensures SameLineage(g, PruneSelf(g, x))
  {
    var c := g.nodes[x];
    if !(c.message.Some? || c.parent.None? || c.parent == Some(Root)) {
      if |c.children| == 0 {
        DetachLineage(g, x);
      } else if |c.children| == 1 {
        SpliceLineage(g, x);
      }
    }
  }

  lemma {:induction false} PruneNodeLineage(g: Graph, x: nat, fuel: nat)
    requires Forest(g) && x < |g.nodes|
    ensures SameLineage(g, PruneNode(g, x, fuel))
    decreases fuel, 0, 1
  {
    if fuel > 0 {
      PruneEachSelfLineage(g, x, fuel, fuel - 1);
    }
  }

  /** PruneNodeLineage, with the recursion below x unfolded: f is the fuel left below x. */
  lemma {:induction false} PruneEachSelfLineage(g: Graph, x: nat, fuel: nat, f: nat)
    requires Forest(g) && x < |g.nodes| && fuel == f + 1
    ensures SameLineage(g, PruneNode(g, x, fuel))
    decreases fuel, 0, 0
  {
    assert ContainerWf(g.nodes[x], |g.nodes|);
    var cs := g.nodes[x].children;
    PruneEachLineage(g, cs, f);
    PruneEachKeeps(g, cs, f);
    var g1 := PruneEach(g, cs, f);
    PruneSelfLineage(g1, x);
    SameLineageTrans(g, g1, PruneSelf(g1, x));
    LineageNode(g, x, f);
  }

  /** Pruning x with one more unit of fuel is pruning below x and then x itself. */
  lemma LineageNode(g: Graph, x: nat, fuel: nat)
    requires Wf(g) && x < |g.nodes| && forall c :: c in g.nodes[x].children ==> c < |g.nodes|
    requires SameLineage(g, PruneSelf(PruneEach(g, g.nodes[x].children, fuel), x))
    ensures SameLineage(g, PruneNode(g, x, fuel + 1))
  {
    assert PruneNode(g, x, fuel + 1) == PruneSelf(PruneEach(g, g.nodes[x].children, fuel), x);
  }

  lemma {:induction false} PruneEachLineage(g: Graph, cs: seq<nat>, fuel: nat)
    requires Forest(g) && forall c :: c in cs ==> c < |g.nodes|
    ensures SameLineage(g, PruneEach(g, cs, fuel))
    decreases fuel, 1, |cs|
  {
    if cs != [] {
      assert cs[0] in cs && forall c :: c in cs[1..] ==> c in cs;
      PruneNodeLineage(g, cs[0], fuel);
      PruneNodeKeeps(g, cs[0], fuel);
      var g1 := PruneNode(g, cs[0], fuel);
      PruneEachLineage(g1, cs[1..], fuel);
      SameLineageTrans(g, g1, PruneEach(g1, cs[1..], fuel));
    }
  }

  lemma {:induction false} PruneBelowLineage(g: Graph, roots: seq<nat>, fuel: nat)
    requires Forest(g) && forall c :: c in roots ==> c < |g.nodes|
    ensures SameLineage(g, PruneBelow(g, roots, fuel))
    decreases |roots|
  {
    if roots != [] {
      assert roots[0] in roots && forall c :: c in roots[1..] ==> c in roots;
      assert ContainerWf(g.nodes[roots[0]], |g.nodes|);
      PruneEachLineage(g, g.nodes[roots[0]].children, fuel);
      PruneEachKeeps(g, g.nodes[roots[0]].children, fuel);
      var g1 := PruneEach(g, g.nodes[roots[0]].children, fuel);
      PruneBelowLineage(g1, roots[1..], fuel);
      SameLineageTrans(g, g1, PruneBelow(g1, roots[1..], fuel));
    }
  }

  /**
    Pruning keeps every message's lineage: the message-holding containers on the
    walk up from any container holding a message are the same, in the same order,
    before and after pruning.
  */
  lemma PruneLineage(g: Graph)
    requires Forest(g)
    ensures SameLineage(g, Prune(g))
  {
    assert ContainerWf(g.nodes[Root], |g.nodes|);
    PruneBelowLineage(g, g.nodes[Root].children, |g.nodes|);
  }
}
