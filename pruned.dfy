/**
  What pruning achieves.

  A container is settled when pruning has nothing left to do with it: it holds a
  message, has no parent, sits at root level, or has several children. Pruning
  an arena in which every container but the root container has a parent (as
  root attachment leaves it) settles every container. The proof goes region by
  region: pruning below a container settles the containers of any region that
  holds it and every container below it, changes nothing outside that region
  but the container's parent, and never needs more depth than the region has
  containers, so the arena size is depth enough.
*/
module Pruned {
  import opened Containers
  import opened Linking
  import opened Pruning

  /** Pruning leaves a container as it is: it holds a message, has no parent, is at root level or has several children. */
  predicate Settled(c: Container) {
    c.message.Some? || c.parent.None? || c.parent == Some(Root) || |c.children| >= 2
  }

  /** Every container but the root container has a parent. */
  ghost predicate Rooted(g: Graph)
    requires Wf(g)
  {
    forall y :: 0 < y < |g.nodes| ==> g.nodes[y].parent.Some?
  }

  /** The handles of s name containers of the arena, and every child of a container of s is in s. */
  ghost predicate Region(g: Graph, s: set<nat>) {
    && (forall y :: y in s ==> y < |g.nodes|)
    && (forall y, c :: y in s && y < |g.nodes| && c in g.nodes[y].children ==> c in s)
  }

  /** y is settled or lies below one of cs. */
  ghost predicate Covered(g: Graph, cs: seq<nat>, y: nat)
    requires Wf(g) && y < |g.nodes|
  {
    Settled(g.nodes[y]) || exists c :: c in cs && c in Ancestry(g, y, |g.nodes|)
  }

  // ---- Regions stay closed under taking children --------------------------------

  lemma DetachRegion(g: Graph, x: nat, s: set<nat>)
    requires Wf(g) && x < |g.nodes| && Region(g, s)
    ensures Region(Detach(g, x), s)
  {
  }

  lemma SpliceRegion(g: Graph, x: nat, s: set<nat>)
    requires Forest(g) && x < |g.nodes| && g.nodes[x].parent.Some? && |g.nodes[x].children| == 1 && Region(g, s)
    ensures Region(Splice(g, x), s)
  {
    var q := g.nodes[x].parent.value;
    var k := g.nodes[x].children[0];
    assert ContainerWf(g.nodes[x], |g.nodes|) && k in g.nodes[x].children;
    assert g.nodes[x].children == [k];
    assert g.nodes[k].parent == Some(x);
    assert x in g.nodes[q].children;
    NoSelfParent(g, x);
    NoSelfParent(g, k);
    GrandparentAbove(g, k, x, q);
    assert q in Ancestry(g, q, |g.nodes|);
    SpliceShape(g, x, q, k);
  }

  lemma PruneSelfRegion(g: Graph, x: nat, s: set<nat>)
    requires Forest(g) && x < |g.nodes| && Region(g, s)
    ensures Region(PruneSelf(g, x), s)
  {
    var c := g.nodes[x];
    if !(c.message.Some? || c.parent.None? || c.parent == Some(Root)) {
      if |c.children| == 0 {
        DetachRegion(g, x, s);
      } else if |c.children| == 1 {
        SpliceRegion(g, x, s);
      }
    }
  }

  lemma {:induction false} PruneNodeRegion(g: Graph, x: nat, fuel: nat, s: set<nat>)
    requires Forest(g) && x < |g.nodes| && Region(g, s)
    ensures Region(PruneNode(g, x, fuel), s)
    decreases fuel, 0, 1
  {
    if fuel > 0 {
      PruneEachSelfRegion(g, x, fuel, fuel - 1, s);
    }
  }

  /** PruneNodeRegion, with the recursion below x unfolded: f is the fuel left below x. */
  lemma {:induction false} PruneEachSelfRegion(g: Graph, x: nat, fuel: nat, f: nat, s: set<nat>)
    requires Forest(g) && x < |g.nodes| && Region(g, s) && fuel == f + 1
    ensures Region(PruneNode(g, x, fuel), s)
    decreases fuel, 0, 0
  {
    assert ContainerWf(g.nodes[x], |g.nodes|);
    var cs := g.nodes[x].children;
    PruneEachRegion(g, cs, f, s);
    PruneEachKeeps(g, cs, f);
    PruneSelfRegion(PruneEach(g, cs, f), x, s);
    RegionNode(g, x, f, s);
  }

  /** Pruning x with one more unit of fuel is pruning below x and then x itself. */
  lemma RegionNode(g: Graph, x: nat, fuel: nat, s: set<nat>)
    requires Wf(g) && x < |g.nodes| && forall c :: c in g.nodes[x].children ==> c < |g.nodes|
    requires Region(PruneSelf(PruneEach(g, g.nodes[x].children, fuel), x), s)
    ensures Region(PruneNode(g, x, fuel + 1), s)
  {
    assert PruneNode(g, x, fuel + 1) == PruneSelf(PruneEach(g, g.nodes[x].children, fuel), x);
  }

  lemma {:induction false} PruneEachRegion(g: Graph, cs: seq<nat>, fuel: nat, s: set<nat>)
    requires Forest(g) && (forall c :: c in cs ==> c < |g.nodes|) && Region(g, s)
    ensures Region(PruneEach(g, cs, fuel), s)
    decreases fuel, 1, |cs|
  {
    if cs != [] {
      assert cs[0] in cs && forall c :: c in cs[1..] ==> c in cs;
      PruneNodeRegion(g, cs[0], fuel, s);
      PruneNodeKeeps(g, cs[0], fuel);
      PruneEachRegion(PruneNode(g, cs[0], fuel), cs[1..], fuel, s);
    }
  }

  // ---- Cut-loose containers are empty --------------------------------------------

  lemma DetachBare(g: Graph, x: nat)
    requires Forest(g) && LooseBare(g) && 0 < x < |g.nodes| && g.nodes[x].children == []
    ensures LooseBare(Detach(g, x))
  {
    NoSelfParent(g, x);
    if g.nodes[x].parent.Some? {
      assert x in g.nodes[g.nodes[x].parent.value].children;
    }
  }

  lemma SpliceBare(g: Graph, x: nat)
    requires Forest(g) && LooseBare(g) && x < |g.nodes| && g.nodes[x].parent.Some? && |g.nodes[x].children| == 1
    ensures LooseBare(Splice(g, x))
  {
    SplicePosition(g, x);
    assert x in g.nodes[g.nodes[x].parent.value].children;
  }

  lemma PruneSelfBare(g: Graph, x: nat)
    requires Forest(g) && LooseBare(g) && x < |g.nodes|
    ensures LooseBare(PruneSelf(g, x))
  {
    var c := g.nodes[x];
    if !(c.message.Some? || c.parent.None? || c.parent == Some(Root)) {
      if |c.children| == 0 {
        if x == Root {
          assert false;
        }
        DetachBare(g, x);
      } else if |c.children| == 1 {
        SpliceBare(g, x);
      }
    }
  }

  lemma {:induction false} PruneNodeBare(g: Graph, x: nat, fuel: nat)
    requires Forest(g) && LooseBare(g) && x < |g.nodes|
    ensures LooseBare(PruneNode(g, x, fuel))
    decreases fuel, 0, 1
  {
    if fuel > 0 {
      PruneEachSelfBare(g, x, fuel, fuel - 1);
    }
  }

  /** PruneNodeBare, with the recursion below x unfolded: f is the fuel left below x. */
  lemma {:induction false} PruneEachSelfBare(g: Graph, x: nat, fuel: nat, f: nat)
    requires Forest(g) && LooseBare(g) && x < |g.nodes| && fuel == f + 1
    ensures LooseBare(PruneNode(g, x, fuel))
    decreases fuel, 0, 0
  {
    assert ContainerWf(g.nodes[x], |g.nodes|);
    var cs := g.nodes[x].children;
    PruneEachBare(g, cs, f);
    PruneEachKeeps(g, cs, f);
    PruneSelfBare(PruneEach(g, cs, f), x);
    BareNode(g, x, f);
  }

  /** Pruning x with one more unit of fuel is pruning below x and then x itself. */
  lemma BareNode(g: Graph, x: nat, fuel: nat)
    requires Wf(g) && x < |g.nodes| && forall c :: c in g.nodes[x].children ==> c < |g.nodes|
    requires LooseBare(PruneSelf(PruneEach(g, g.nodes[x].children, fuel), x))
    ensures LooseBare(PruneNode(g, x, fuel + 1))
  {
    assert PruneNode(g, x, fuel + 1) == PruneSelf(PruneEach(g, g.nodes[x].children, fuel), x);
  }

  lemma {:induction false} PruneEachBare(g: Graph, cs: seq<nat>, fuel: nat)
    requires Forest(g) && LooseBare(g) && forall c :: c in cs ==> c < |g.nodes|
    ensures LooseBare(PruneEach(g, cs, fuel))
    decreases fuel, 1, |cs|
  {
    if cs != [] {
      assert cs[0] in cs && forall c :: c in cs[1..] ==> c in cs;
      PruneNodeBare(g, cs[0], fuel);
      PruneNodeKeeps(g, cs[0], fuel);
      PruneEachBare(PruneNode(g, cs[0], fuel), cs[1..], fuel);
    }
  }

  lemma {:induction false} PruneBelowBare(g: Graph, roots: seq<nat>, fuel: nat)
    requires Forest(g) && LooseBare(g) && forall c :: c in roots ==> c < |g.nodes|
    ensures LooseBare(PruneBelow(g, roots, fuel))
    decreases |roots|
  {
    if roots != [] {
      assert roots[0] in roots && forall c :: c in roots[1..] ==> c in roots;
      assert ContainerWf(g.nodes[roots[0]], |g.nodes|);
      var cs := g.nodes[roots[0]].children;
      PruneEachBare(g, cs, fuel);
      PruneEachKeeps(g, cs, fuel);
      PruneBelowBare(PruneEach(g, cs, fuel), roots[1..], fuel);
    }
  }

  /** Pruning cuts loose only containers without children: every parentless container but the root stays empty. */
  lemma PruneBare(g: Graph)
    requires Forest(g) && LooseBare(g)
    ensures LooseBare(Prune(g))
  {
    assert ContainerWf(g.nodes[Root], |g.nodes|);
    PruneBelowBare(g, g.nodes[Root].children, |g.nodes|);
  }

  // ---- One container ------------------------------------------------------------

  /**
    Pruning x itself settles x, changes nothing but x, its parent and its
    children, keeps the parent's own parent, and unsettles no container but the
    parent.
  */
  lemma PruneSelfSettles(g: Graph, x: nat)
    requires Forest(g) && x < |g.nodes|
    ensures SelfSettled(g, PruneSelf(g, x), x)
  {
    assert ContainerWf(g.nodes[x], |g.nodes|);
    var c := g.nodes[x];
    if !(c.message.Some? || c.parent.None? || c.parent == Some(Root)) && |c.children| == 1 {
      SpliceSettles(g, x);
    } else if !(c.message.Some? || c.parent.None? || c.parent == Some(Root)) && |c.children| == 0 {
      NoSelfParent(g, x);
    }
  }

  /**
    r is g with x settled, nothing changed but x, its parent and its children,
    the parent's own parent kept, and no container but the parent unsettled.
  */
  ghost predicate SelfSettled(g: Graph, r: Graph, x: nat)
    requires x < |g.nodes| == |r.nodes|
  {
    && Settled(r.nodes[x])
    && (forall y :: 0 <= y < |g.nodes| && y != x && Some(y) != g.nodes[x].parent && y !in g.nodes[x].children ==>
          r.nodes[y] == g.nodes[y])
    && (forall y :: 0 <= y < |g.nodes| && Some(y) != g.nodes[x].parent && Settled(g.nodes[y]) ==>
          Settled(r.nodes[y]))
    && (g.nodes[x].parent.Some? ==>
          (g.nodes[x].parent.value < |g.nodes| &&
           r.nodes[g.nodes[x].parent.value].parent == g.nodes[g.nodes[x].parent.value].parent))
  }

  /** Splicing out a single-child placeholder settles it in the sense of SelfSettled. */
  lemma SpliceSettles(g: Graph, x: nat)
    requires Forest(g) && x < |g.nodes| && g.nodes[x].parent.Some? && |g.nodes[x].children| == 1
    ensures SelfSettled(g, Splice(g, x), x)
  {
    assert ContainerWf(g.nodes[x], |g.nodes|);
    var q := g.nodes[x].parent.value;
    var k := g.nodes[x].children[0];
    assert k in g.nodes[x].children && g.nodes[x].children == [k];
    assert g.nodes[k].parent == Some(x);
    NoSelfParent(g, x);
    NoSelfParent(g, k);
    GrandparentAbove(g, k, x, q);
    assert q in Ancestry(g, q, |g.nodes|);
    SpliceShape(g, x, q, k);
  }

  // ---- Regions ------------------------------------------------------------------

  /**
    r is g with every container of d settled, nothing outside d but p changed,
    p's own parent kept, and no container but p unsettled.
  */
  ghost predicate SettledIn(g: Graph, r: Graph, d: set<nat>, p: nat)
    requires |r.nodes| == |g.nodes|
  {
    && (forall y :: 0 <= y < |g.nodes| && y in d ==> Settled(r.nodes[y]))
    && (forall y :: 0 <= y < |g.nodes| && y !in d && y != p ==> r.nodes[y] == g.nodes[y])
    && (forall y :: 0 <= y < |g.nodes| && y != p && Settled(g.nodes[y]) ==> Settled(r.nodes[y]))
    && (p < |g.nodes| ==> r.nodes[p].parent == g.nodes[p].parent)
  }

  /** Settling d0 and then e, both with p left aside, settles e when d0 lies inside e. */
  lemma SettledInTrans(g: Graph, g1: Graph, g2: Graph, d0: set<nat>, e: set<nat>, p: nat)
    requires |g.nodes| == |g1.nodes| == |g2.nodes| && d0 <= e
    requires SettledIn(g, g1, d0, p) && SettledIn(g1, g2, e, p)
    ensures SettledIn(g, g2, e, p)
  {
  }

  /**
    Pruning at x, whose parent p lies outside the region d that holds x, with
    every unsettled container of d below x: afterwards every container of d is
    settled, nothing outside d but p has changed, p keeps its own parent, and no
    container but p has become unsettled. Fuel as large as the region is enough.
  */
  lemma {:induction false} PruneNodeSettles(g: Graph, x: nat, fuel: nat, d: set<nat>)
    requires Forest(g) && x < |g.nodes| && g.nodes[x].parent.Some? && g.nodes[x].parent.value !in d
    requires x in d && Region(g, d) && |d| <= fuel
    requires forall y :: 0 <= y < |g.nodes| && y in d ==> Settled(g.nodes[y]) || x in Ancestry(g, y, |g.nodes|)
    ensures SettledIn(g, PruneNode(g, x, fuel), d, g.nodes[x].parent.value)
    decreases fuel, 0, 1
  {
    MemberCard(d, x);
    PruneSelfSettlesRegion(g, x, fuel, fuel - 1, d);
  }

  /** PruneNodeSettles, with the recursion below x unfolded: f is the fuel left below x. */
  lemma {:induction false} PruneSelfSettlesRegion(g: Graph, x: nat, fuel: nat, f: nat, d: set<nat>)
    requires Forest(g) && x < |g.nodes| && g.nodes[x].parent.Some? && g.nodes[x].parent.value !in d
    requires x in d && Region(g, d) && |d| <= fuel && fuel == f + 1
    requires forall y :: 0 <= y < |g.nodes| && y in d ==> Settled(g.nodes[y]) || x in Ancestry(g, y, |g.nodes|)
    ensures SettledIn(g, PruneNode(g, x, fuel), d, g.nodes[x].parent.value)
    decreases fuel, 0, 0
  {
    BelowSettled(g, x, f, d);
    var g1 := PruneEach(g, g.nodes[x].children, f);
    SelfStepAt(g, g1, x, d);
    SettledInNode(g, x, fuel, f, d, g.nodes[x].parent.value);
  }

  /** Once the region below x is settled, pruning x itself settles the region with x. */
  lemma SelfStepAt(g: Graph, g1: Graph, x: nat, d: set<nat>)
    requires Wf(g) && Forest(g1) && |g1.nodes| == |g.nodes| && x < |g.nodes| && x in d
    requires g.nodes[x].parent.Some? && g.nodes[x].parent.value !in d
    requires SettledIn(g, g1, d - {x}, x) && Region(g1, d)
    ensures SettledIn(g, PruneSelf(g1, x), d, g.nodes[x].parent.value)
  {
    PruneSelfSettles(g1, x);
    SelfStep(g, g1, PruneSelf(g1, x), x, d);
  }

  /** Pruning the children of x, with fuel f, settles the region d below x and keeps it a region. */
  lemma {:induction false} BelowSettled(g: Graph, x: nat, f: nat, d: set<nat>)
    requires Forest(g) && x < |g.nodes| && g.nodes[x].parent.Some? && g.nodes[x].parent.value !in d
    requires x in d && Region(g, d) && |d| <= f + 1
    requires forall y :: 0 <= y < |g.nodes| && y in d ==> Settled(g.nodes[y]) || x in Ancestry(g, y, |g.nodes|)
    ensures forall c :: c in g.nodes[x].children ==> c < |g.nodes|
    ensures var g1 := PruneEach(g, g.nodes[x].children, f);
      && Forest(g1) && |g1.nodes| == |g.nodes| && SettledIn(g, g1, d - {x}, x) && Region(g1, d)
    decreases f, 2
  {
    assert ContainerWf(g.nodes[x], |g.nodes|);
    var cs := g.nodes[x].children;
    MemberCard(d, x);
    BelowRegion(g, x, d);
    PruneEachSettles(g, cs, f, x, d - {x});
    PruneEachKeeps(g, cs, f);
    PruneEachRegion(g, cs, f, d);
  }

  /** Pruning x with one more unit of fuel is pruning below x and then x itself. */
  lemma SettledInNode(g: Graph, x: nat, fuel: nat, f: nat, d: set<nat>, p: nat)
    requires Wf(g) && x < |g.nodes| && fuel == f + 1 && forall c :: c in g.nodes[x].children ==> c < |g.nodes|
    requires SettledIn(g, PruneSelf(PruneEach(g, g.nodes[x].children, f), x), d, p)
    ensures SettledIn(g, PruneNode(g, x, fuel), d, p)
  {
    assert PruneNode(g, x, fuel) == PruneSelf(PruneEach(g, g.nodes[x].children, f), x);
  }

  /** Settling the region below x and then pruning x itself settles the region with x. */
  lemma SelfStep(g: Graph, g1: Graph, r: Graph, x: nat, d: set<nat>)
    requires Wf(g) && |g1.nodes| == |g.nodes| == |r.nodes| && x < |g.nodes| && x in d
    requires g.nodes[x].parent.Some? && g.nodes[x].parent.value !in d
    requires SettledIn(g, g1, d - {x}, x) && Region(g1, d)
    requires Settled(r.nodes[x])
    requires forall y :: 0 <= y < |g.nodes| && y != x && Some(y) != g1.nodes[x].parent && y !in g1.nodes[x].children ==>
      r.nodes[y] == g1.nodes[y]
    requires forall y :: 0 <= y < |g.nodes| && Some(y) != g1.nodes[x].parent && Settled(g1.nodes[y]) ==>
      Settled(r.nodes[y])
    requires g1.nodes[x].parent.Some? ==>
      (g1.nodes[x].parent.value < |g.nodes| &&
       r.nodes[g1.nodes[x].parent.value].parent == g1.nodes[g1.nodes[x].parent.value].parent)
    ensures SettledIn(g, r, d, g.nodes[x].parent.value)
  {
    assert forall c :: c in g1.nodes[x].children ==> c in d;
  }

  /** The region d without x is closed under children, holds x's children, and its unsettled containers lie below them. */
  lemma BelowRegion(g: Graph, x: nat, d: set<nat>)
    requires Forest(g) && x < |g.nodes| && g.nodes[x].parent.Some? && g.nodes[x].parent.value !in d
    requires x in d && Region(g, d)
    requires forall y :: 0 <= y < |g.nodes| && y in d ==> Settled(g.nodes[y]) || x in Ancestry(g, y, |g.nodes|)
    ensures Region(g, d - {x}) && NoDup(g.nodes[x].children)
    ensures forall c :: c in g.nodes[x].children ==> c in d - {x} && c < |g.nodes| && g.nodes[c].parent == Some(x)
    ensures forall y :: 0 <= y < |g.nodes| && y in d - {x} ==> Covered(g, g.nodes[x].children, y)
  {
    var n := |g.nodes|;
    forall y, c | y in d - {x} && y < n && c in g.nodes[y].children
      ensures c in d - {x}
    {
      assert g.nodes[c].parent == Some(y);
    }
    forall c | c in g.nodes[x].children
      ensures c in d - {x}
    {
      assert g.nodes[c].parent == Some(x);
    }
    forall y | 0 <= y < n && y in d - {x}
      ensures Covered(g, g.nodes[x].children, y)
    {
      if !Settled(g.nodes[y]) {
        var c := ChildOnPath(g, y, x);
      }
    }
  }

  /**
    Pruning each of cs, children of x, where every unsettled container of the
    region e (closed under children, without x) lies below one of them: afterwards
    every container of e is settled, nothing outside e but x has changed, x keeps
    its parent, and no container but x has become unsettled.
  */
  lemma {:induction false} PruneEachSettles(g: Graph, cs: seq<nat>, fuel: nat, x: nat, e: set<nat>)
    requires Forest(g) && x < |g.nodes| && x !in e && Region(g, e) && |e| <= fuel
    requires NoDup(cs) && forall c :: c in cs ==> c in e && c < |g.nodes| && g.nodes[c].parent == Some(x)
    requires forall y :: 0 <= y < |g.nodes| && y in e ==> Covered(g, cs, y)
    ensures SettledIn(g, PruneEach(g, cs, fuel), e, x)
    decreases fuel, 1, |cs|, 1
  {
    if cs != [] {
      PruneFirstSettles(g, cs, fuel, x, e);
      SettledInEach(g, cs, fuel, e, x);
    }
  }

  /** PruneEachSettles, with the first step unfolded. */
  lemma {:induction false} PruneFirstSettles(g: Graph, cs: seq<nat>, fuel: nat, x: nat, e: set<nat>)
    requires Forest(g) && x < |g.nodes| && x !in e && Region(g, e) && |e| <= fuel
    requires NoDup(cs) && forall c :: c in cs ==> c in e && c < |g.nodes| && g.nodes[c].parent == Some(x)
    requires forall y :: 0 <= y < |g.nodes| && y in e ==> Covered(g, cs, y)
    requires cs != []
    ensures cs[0] < |g.nodes| && forall c :: c in cs[1..] ==> c < |g.nodes|
    ensures SettledIn(g, PruneEach(PruneNode(g, cs[0], fuel), cs[1..], fuel), e, x)
    decreases fuel, 1, |cs|, 0
  {
    var n := |g.nodes|;
    var c0 := cs[0];
    assert c0 in cs;
    var d0 := set y | y in e && y < n && c0 in Ancestry(g, y, n);
    FirstRegion(g, cs, x, e, d0);
    SubsetBound(d0, e);
    PruneNodeSettles(g, c0, fuel, d0);
    var g1 := PruneNode(g, c0, fuel);
    PruneNodeKeeps(g, c0, fuel);
    PruneNodeRegion(g, c0, fuel, e);
    CoverKept(g, g1, cs, x, e, d0);
    PruneEachSettles(g1, cs[1..], fuel, x, e);
    var g2 := PruneEach(g1, cs[1..], fuel);
    SettledInTrans(g, g1, g2, d0, e, x);
  }

  /** A set holding x has x and |s| - 1 other elements. */
  lemma MemberCard(s: set<nat>, x: nat)
    requires x in s
    ensures |s| >= 1 && |s - {x}| == |s| - 1
  {
  }

  /** A subset is no larger than the set holding it. */
  lemma SubsetBound(a: set<nat>, b: set<nat>)
    requires a <= b
    ensures |a| <= |b|
  {
    assert b == a + (b - a);
  }

  /** The first step of PruneEach, folded back. */
  lemma SettledInEach(g: Graph, cs: seq<nat>, fuel: nat, e: set<nat>, x: nat)
    requires Wf(g) && cs != [] && forall c :: c in cs ==> c < |g.nodes|
    requires cs[0] < |g.nodes| && forall c :: c in cs[1..] ==> c < |g.nodes|
    requires SettledIn(g, PruneEach(PruneNode(g, cs[0], fuel), cs[1..], fuel), e, x)
    ensures SettledIn(g, PruneEach(g, cs, fuel), e, x)
  {
    assert cs[0] in cs && forall c :: c in cs[1..] ==> c in cs;
    assert PruneEach(g, cs, fuel) == PruneEach(PruneNode(g, cs[0], fuel), cs[1..], fuel);
  }

  /** The containers of e below the first of cs form a region below it, without x. */
  lemma FirstRegion(g: Graph, cs: seq<nat>, x: nat, e: set<nat>, d0: set<nat>)
    requires Forest(g) && x < |g.nodes| && x !in e && Region(g, e) && cs != []
    requires forall c :: c in cs ==> c in e && c < |g.nodes| && g.nodes[c].parent == Some(x)
    requires d0 == set y | y in e && y < |g.nodes| && cs[0] in Ancestry(g, y, |g.nodes|)
    ensures cs[0] in d0 && d0 <= e && Region(g, d0) && x !in d0
    ensures cs[0] < |g.nodes| && g.nodes[cs[0]].parent == Some(x)
    ensures forall y :: 0 <= y < |g.nodes| && y in d0 ==> Settled(g.nodes[y]) || cs[0] in Ancestry(g, y, |g.nodes|)
  {
    var n := |g.nodes|;
    assert cs[0] in cs;
    assert Ancestry(g, cs[0], n)[0] == cs[0];
    forall y, c | y in d0 && y < n && c in g.nodes[y].children
      ensures c in d0
    {
      ChildAncestry(g, y, c);
    }
  }

  /**
    After pruning at the first of cs (settling the region d0 below it), every
    container of e is still settled or below one of the rest of cs, and the rest
    of cs are still x's children.
  */
  lemma CoverKept(g: Graph, g1: Graph, cs: seq<nat>, x: nat, e: set<nat>, d0: set<nat>)
    requires Forest(g) && Forest(g1) && |g1.nodes| == |g.nodes| && x < |g.nodes| && x !in e && cs != []
    requires NoDup(cs) && forall c :: c in cs ==> c in e && c < |g.nodes| && g.nodes[c].parent == Some(x)
    requires forall y :: 0 <= y < |g.nodes| && y in e ==> Covered(g, cs, y)
    requires d0 == set y | y in e && y < |g.nodes| && cs[0] in Ancestry(g, y, |g.nodes|)
    requires SettledIn(g, g1, d0, x)
    ensures forall y :: 0 <= y < |g.nodes| && y in e ==> Covered(g1, cs[1..], y)
    ensures NoDup(cs[1..]) && forall c :: c in cs[1..] ==> c in e && c < |g.nodes| && g1.nodes[c].parent == Some(x)
  {
    RestKept(g, g1, cs, x, e, d0);
    assert cs[0] in cs;
    FirstFrame(g, g1, cs[0], x, e, d0);
    FirstCover(g, g1, cs[0], x, e, d0);
    ChildrenListed(g, cs, x);
    CoverKeptAll(g, g1, cs, x, e);
  }

  /** Every container of e is settled in g1 or is as it was and not below c0. */
  lemma FirstCover(g: Graph, g1: Graph, c0: nat, x: nat, e: set<nat>, d0: set<nat>)
    requires Wf(g) && |g1.nodes| == |g.nodes| && x !in e
    requires d0 == set y | y in e && y < |g.nodes| && c0 in Ancestry(g, y, |g.nodes|)
    requires SettledIn(g, g1, d0, x)
    ensures forall y :: 0 <= y < |g.nodes| && y in e ==>
      Settled(g1.nodes[y]) || (c0 !in Ancestry(g, y, |g.nodes|) && g1.nodes[y] == g.nodes[y])
  {
  }

  /** The rest of cs are still x's children after pruning at the first. */
  lemma RestKept(g: Graph, g1: Graph, cs: seq<nat>, x: nat, e: set<nat>, d0: set<nat>)
    requires Forest(g) && |g1.nodes| == |g.nodes| && x < |g.nodes| && x !in e && cs != []
    requires NoDup(cs) && forall c :: c in cs ==> c in e && c < |g.nodes| && g.nodes[c].parent == Some(x)
    requires d0 == set y | y in e && y < |g.nodes| && cs[0] in Ancestry(g, y, |g.nodes|)
    requires SettledIn(g, g1, d0, x)
    ensures NoDup(cs[1..]) && forall c :: c in cs[1..] ==> c in e && c < |g.nodes| && g1.nodes[c].parent == Some(x)
  {
    var c0 := cs[0];
    assert c0 in cs;
    forall c | c in cs[1..]
      ensures c in e && c < |g.nodes| && g1.nodes[c].parent == Some(x)
    {
      assert c in cs && c != c0;
      SiblingNotAbove(g, x, c0, c);
      assert c !in d0;
    }
  }

  /** A sibling of c is not on the walk up from c. */
  lemma SiblingNotAbove(g: Graph, x: nat, a: nat, c: nat)
    requires Forest(g) && x < |g.nodes| && a != c
    requires a < |g.nodes| && c < |g.nodes| && g.nodes[a].parent == Some(x) && g.nodes[c].parent == Some(x)
    ensures a !in Ancestry(g, c, |g.nodes|)
  {
    assert a in g.nodes[x].children && c in g.nodes[x].children;
    ChildAncestry(g, x, c);
    ChildNotAbove(g, x, a);
  }

  /** Pruning at c0 kept the parent of every container not below c0. */
  lemma FirstFrame(g: Graph, g1: Graph, c0: nat, x: nat, e: set<nat>, d0: set<nat>)
    requires Wf(g) && |g1.nodes| == |g.nodes| && x < |g.nodes| && c0 < |g.nodes|
    requires d0 == set y | y in e && y < |g.nodes| && c0 in Ancestry(g, y, |g.nodes|)
    requires SettledIn(g, g1, d0, x)
    ensures forall z :: 0 <= z < |g.nodes| && c0 !in Ancestry(g, z, |g.nodes|) ==> g1.nodes[z].parent == g.nodes[z].parent
  {
    forall z | 0 <= z < |g.nodes| && c0 !in Ancestry(g, z, |g.nodes|)
      ensures g1.nodes[z].parent == g.nodes[z].parent
    {
      assert z !in d0;
    }
  }

  /**
    Every container of s, settled in g1 or left as it was and not below the
    first of cs, stays settled or below one of the rest of cs, when only
    containers below the first of cs have changed parents.
  */
  lemma CoverKeptAll(g: Graph, g1: Graph, cs: seq<nat>, x: nat, s: set<nat>)
    requires Forest(g) && Forest(g1) && |g1.nodes| == |g.nodes| && x < |g.nodes| && cs != []
    requires NoDup(cs) && forall c :: c in cs ==> c in g.nodes[x].children
    requires forall y :: 0 <= y < |g.nodes| && y in s ==> Covered(g, cs, y)
    requires forall y :: 0 <= y < |g.nodes| && y in s ==>
      Settled(g1.nodes[y]) || (cs[0] !in Ancestry(g, y, |g.nodes|) && g1.nodes[y] == g.nodes[y])
    requires forall z :: 0 <= z < |g.nodes| && cs[0] !in Ancestry(g, z, |g.nodes|) ==> g1.nodes[z].parent == g.nodes[z].parent
    ensures forall y :: 0 <= y < |g.nodes| && y in s ==> Covered(g1, cs[1..], y)
  {
    var n := |g.nodes|;
    forall y | 0 <= y < n && y in s
      ensures Covered(g1, cs[1..], y)
    {
      if !Settled(g1.nodes[y]) {
        assert Covered(g, cs, y);
        var c :| c in cs && c in Ancestry(g, y, n);
        assert c != cs[0];
        assert c in cs[1..];
        SiblingPathFrame(g, g1, x, cs[0], c, y);
        PathKept(g, g1, y, c);
      }
    }
  }

  /**
    When only containers below c0 have changed parents, the walk up from y
    to c0's sibling c has kept every parent.
  */
  lemma SiblingPathFrame(g: Graph, g1: Graph, x: nat, c0: nat, c: nat, y: nat)
    requires Forest(g) && |g1.nodes| == |g.nodes| && x < |g.nodes| && y < |g.nodes|
    requires c0 in g.nodes[x].children && c in g.nodes[x].children && c0 != c
    requires c in Ancestry(g, y, |g.nodes|)
    requires forall z :: 0 <= z < |g.nodes| && c0 !in Ancestry(g, z, |g.nodes|) ==> g1.nodes[z].parent == g.nodes[z].parent
    ensures forall z :: 0 <= z < |g.nodes| && z != c && z in Ancestry(g, y, |g.nodes|) && c in Ancestry(g, z, |g.nodes|) ==>
      g1.nodes[z].parent == g.nodes[z].parent
  {
    assert ContainerWf(g.nodes[x], |g.nodes|);
    assert g.nodes[c0].parent == Some(x) && g.nodes[c].parent == Some(x);
    forall z | 0 <= z < |g.nodes| && z != c && z in Ancestry(g, y, |g.nodes|) && c in Ancestry(g, z, |g.nodes|)
      ensures g1.nodes[z].parent == g.nodes[z].parent
    {
      SiblingOff(g, z, c0, c);
    }
  }

  // ---- The whole phase ----------------------------------------------------------

  /** The handles below n. */
  function Handles(n: nat): (r: set<nat>)
    ensures forall y: nat :: y in r <==> y < n
  {
    if n == 0 then {} else Handles(n - 1) + {n - 1}
  }

  /** Every container is settled. */
  ghost predicate AllSettled(g: Graph) {
    forall y :: 0 <= y < |g.nodes| ==> Settled(g.nodes[y])
  }

  /**
    Pruning below each of the root-level containers roots, where every unsettled
    container lies below one of them, settles every container.
  */
  lemma {:induction false} PruneBelowSettles(g: Graph, roots: seq<nat>, fuel: nat)
    requires Forest(g) && |g.nodes| <= fuel && NoDup(roots)
    requires forall c :: c in roots ==> c < |g.nodes| && g.nodes[c].parent == Some(Root)
    requires forall y :: 0 <= y < |g.nodes| ==> Covered(g, roots, y)
    ensures AllSettled(PruneBelow(g, roots, fuel))
    decreases |roots|, 1
  {
    if roots == [] {
      forall y | 0 <= y < |g.nodes|
        ensures Settled(g.nodes[y])
      {
        assert Covered(g, roots, y);
      }
    } else {
      PruneRootSettles(g, roots, fuel);
      SettledBelow(g, roots, fuel);
    }
  }

  /** PruneBelowSettles, with the first root unfolded. */
  lemma {:induction false} PruneRootSettles(g: Graph, roots: seq<nat>, fuel: nat)
    requires Forest(g) && |g.nodes| <= fuel && NoDup(roots) && roots != []
    requires forall c :: c in roots ==> c < |g.nodes| && g.nodes[c].parent == Some(Root)
    requires forall y :: 0 <= y < |g.nodes| ==> Covered(g, roots, y)
    ensures roots[0] < |g.nodes| && forall c :: c in g.nodes[roots[0]].children ==> c < |g.nodes|
    ensures forall c :: c in roots[1..] ==> c < |g.nodes|
    ensures AllSettled(PruneBelow(PruneEach(g, g.nodes[roots[0]].children, fuel), roots[1..], fuel))
    decreases |roots|, 0
  {
    var n := |g.nodes|;
    var rho := roots[0];
    assert rho in roots;
    var e := set y: nat | y < n && y != rho && rho in Ancestry(g, y, n);
    HandleSetBound(e, n);
    RootRegion(g, rho, e);
    var cs := g.nodes[rho].children;
    PruneEachSettles(g, cs, fuel, rho, e);
    var g1 := PruneEach(g, cs, fuel);
    PruneEachKeeps(g, cs, fuel);
    RootCoverKept(g, g1, roots, e);
    PruneBelowSettles(g1, roots[1..], fuel);
  }

  /** The first step of PruneBelow, folded back. */
  lemma SettledBelow(g: Graph, roots: seq<nat>, fuel: nat)
    requires Wf(g) && roots != [] && forall c :: c in roots ==> c < |g.nodes|
    requires roots[0] < |g.nodes| && forall c :: c in roots[1..] ==> c < |g.nodes|
    requires forall c :: c in g.nodes[roots[0]].children ==> c < |g.nodes|
    requires AllSettled(PruneBelow(PruneEach(g, g.nodes[roots[0]].children, fuel), roots[1..], fuel))
    ensures AllSettled(PruneBelow(g, roots, fuel))
  {
    assert roots[0] in roots && forall c :: c in roots[1..] ==> c in roots;
    assert PruneBelow(g, roots, fuel) == PruneBelow(PruneEach(g, g.nodes[roots[0]].children, fuel), roots[1..], fuel);
  }

  /** The containers strictly below a root-level container rho form a region that holds its children. */
  lemma RootRegion(g: Graph, rho: nat, e: set<nat>)
    requires Forest(g) && rho < |g.nodes| && g.nodes[rho].parent == Some(Root)
    requires e == set y: nat | y < |g.nodes| && y != rho && rho in Ancestry(g, y, |g.nodes|)
    ensures Region(g, e) && rho !in e && NoDup(g.nodes[rho].children)
    ensures forall c :: c in g.nodes[rho].children ==> c in e && c < |g.nodes| && g.nodes[c].parent == Some(rho)
    ensures forall y :: 0 <= y < |g.nodes| && y in e ==> Covered(g, g.nodes[rho].children, y)
  {
    var n := |g.nodes|;
    assert Ancestry(g, Root, n) == [Root];
    forall y, c | y in e && y < n && c in g.nodes[y].children
      ensures c in e
    {
      ChildAncestry(g, y, c);
      assert g.nodes[c].parent == Some(y);
      assert y != Root;
    }
    forall c | c in g.nodes[rho].children
      ensures c in e
    {
      ChildAncestry(g, rho, c);
      NoSelfParent(g, rho);
      assert g.nodes[c].parent == Some(rho);
    }
    forall y | 0 <= y < n && y in e
      ensures Covered(g, g.nodes[rho].children, y)
    {
      var c := ChildOnPath(g, y, rho);
    }
  }

  /**
    After pruning below the first of roots, every container is still settled or
    below one of the rest of roots, and those are still root-level.
  */
  lemma RootCoverKept(g: Graph, g1: Graph, roots: seq<nat>, e: set<nat>)
    requires Forest(g) && Forest(g1) && |g1.nodes| == |g.nodes| && roots != [] && NoDup(roots)
    requires forall c :: c in roots ==> c < |g.nodes| && g.nodes[c].parent == Some(Root)
    requires forall y :: 0 <= y < |g.nodes| ==> Covered(g, roots, y)
    requires e == set y: nat | y < |g.nodes| && y != roots[0] && roots[0] in Ancestry(g, y, |g.nodes|)
    requires roots[0] < |g.nodes| && SettledIn(g, g1, e, roots[0])
    ensures forall y :: 0 <= y < |g.nodes| ==> Covered(g1, roots[1..], y)
    ensures NoDup(roots[1..]) && forall c :: c in roots[1..] ==> c < |g.nodes| && g1.nodes[c].parent == Some(Root)
  {
    RootsKept(g, g1, roots, e);
    RootFrame(g, g1, roots[0], e);
    RootCover(g, g1, roots[0], e);
    RootCoverRest(g, g1, roots);
  }

  /** RootCoverKept once the frame and the cover of the first root are known. */
  lemma RootCoverRest(g: Graph, g1: Graph, roots: seq<nat>)
    requires Forest(g) && Forest(g1) && |g1.nodes| == |g.nodes| && roots != [] && NoDup(roots)
    requires forall c :: c in roots ==> c < |g.nodes| && g.nodes[c].parent == Some(Root)
    requires forall y :: 0 <= y < |g.nodes| ==> Covered(g, roots, y)
    requires forall z :: 0 <= z < |g.nodes| && roots[0] !in Ancestry(g, z, |g.nodes|) ==> g1.nodes[z].parent == g.nodes[z].parent
    requires forall y :: 0 <= y < |g.nodes| ==>
      Settled(g1.nodes[y]) || (roots[0] !in Ancestry(g, y, |g.nodes|) && g1.nodes[y] == g.nodes[y])
    ensures forall y :: 0 <= y < |g.nodes| ==> Covered(g1, roots[1..], y)
  {
    ChildrenListed(g, roots, Root);
    CoverKeptAll(g, g1, roots, Root, Handles(|g.nodes|));
  }

  /** Containers whose parent is x are listed among x's children. */
  lemma ChildrenListed(g: Graph, cs: seq<nat>, x: nat)
    requires Forest(g) && forall c :: c in cs ==> c < |g.nodes| && g.nodes[c].parent == Some(x)
    ensures forall c :: c in cs ==> c in g.nodes[x].children
  {
  }

  /** The rest of roots are still root-level after pruning below the first. */
  lemma RootsKept(g: Graph, g1: Graph, roots: seq<nat>, e: set<nat>)
    requires Forest(g) && |g1.nodes| == |g.nodes| && roots != [] && NoDup(roots)
    requires forall c :: c in roots ==> c < |g.nodes| && g.nodes[c].parent == Some(Root)
    requires e == set y: nat | y < |g.nodes| && y != roots[0] && roots[0] in Ancestry(g, y, |g.nodes|)
    requires roots[0] < |g.nodes| && SettledIn(g, g1, e, roots[0])
    ensures NoDup(roots[1..]) && forall c :: c in roots[1..] ==> c < |g.nodes| && g1.nodes[c].parent == Some(Root)
  {
    var n := |g.nodes|;
    var rho := roots[0];
    assert rho in roots;
    assert Ancestry(g, Root, n) == [Root];
    forall c | c in roots[1..]
      ensures c < n && g1.nodes[c].parent == Some(Root)
    {
      assert c in roots && c != rho;
      ChildAncestry(g, Root, c);
      assert c !in e;
    }
  }

  /** Pruning below rho kept the parent of every container not below rho. */
  lemma RootFrame(g: Graph, g1: Graph, rho: nat, e: set<nat>)
    requires Wf(g) && |g1.nodes| == |g.nodes| && rho < |g.nodes|
    requires e == set y: nat | y < |g.nodes| && y != rho && rho in Ancestry(g, y, |g.nodes|)
    requires SettledIn(g, g1, e, rho)
    ensures forall z :: 0 <= z < |g.nodes| && rho !in Ancestry(g, z, |g.nodes|) ==> g1.nodes[z].parent == g.nodes[z].parent
  {
    forall z | 0 <= z < |g.nodes| && rho !in Ancestry(g, z, |g.nodes|)
      ensures g1.nodes[z].parent == g.nodes[z].parent
    {
      assert z !in e;
    }
  }

  /** Every container is settled in g1 or is as it was and not below rho. */
  lemma RootCover(g: Graph, g1: Graph, rho: nat, e: set<nat>)
    requires Wf(g) && |g1.nodes| == |g.nodes| && rho < |g.nodes| && g.nodes[rho].parent == Some(Root)
    requires e == set y: nat | y < |g.nodes| && y != rho && rho in Ancestry(g, y, |g.nodes|)
    requires SettledIn(g, g1, e, rho)
    ensures forall y :: 0 <= y < |g.nodes| ==>
      Settled(g1.nodes[y]) || (rho !in Ancestry(g, y, |g.nodes|) && g1.nodes[y] == g.nodes[y])
  {
    assert Ancestry(g, rho, |g.nodes|)[0] == rho;
  }

  /**
    Pruning an arena in which every container but the root container has a
    parent leaves no placeholder below the root set with fewer than two children:
    each one with none has been removed and each one with a single child has
    given its place to that child.
  */
  lemma PruneRemoves(g: Graph)
    requires Forest(g) && Rooted(g)
    ensures forall x ::
      (0 <= x < |Prune(g).nodes| && Prune(g).nodes[x].message.None? &&
       Prune(g).nodes[x].parent.Some? && Prune(g).nodes[x].parent != Some(Root)) ==>
      |Prune(g).nodes[x].children| >= 2
  {
    var n := |g.nodes|;
    var roots := g.nodes[Root].children;
    assert ContainerWf(g.nodes[Root], n);
    forall y | 0 <= y < n
      ensures Covered(g, roots, y)
    {
      if y != Root {
        var path := Ancestry(g, y, n);
        assert path[|path| - 1] == Root;
        var c := ChildOnPath(g, y, Root);
      }
    }
    forall c | c in roots
      ensures c < n && g.nodes[c].parent == Some(Root)
    {
    }
    PruneBelowSettles(g, roots, n);
    assert AllSettled(Prune(g));
  }
}
