/**
  What processing one message does to the arena, case by case: a new message
  without references, a reply whose references trace a path already in the
  arena, a reply to an id never seen, and a message whose link would close a
  cycle. Also the closed form of root attachment.
*/
module Replies {
  import opened Containers
  import opened Linking

  /** The containers of refs, in order, each one already a child of the one before it. */
  ghost predicate TracedPath(g: Graph, refs: seq<string>)
    requires Wf(g)
  {
    && (forall i :: 0 <= i < |refs| ==> refs[i] in g.index)
    && (forall i, j :: 0 <= i < j < |refs| ==> refs[i] != refs[j])
    && (forall i :: 0 < i < |refs| ==> g.nodes[g.index[refs[i]]].parent == Some(g.index[refs[i - 1]]))
  }

  /** Linking a reference list that traces an existing path changes nothing. */
  lemma {:induction false} LinkTracedPath(g: Graph, refs: seq<string>)
    requires Wf(g) && TracedPath(g, refs)
    ensures LinkReferences(g, refs) == (g, if refs == [] then None else Some(g.index[refs[|refs| - 1]]))
  {
    if refs != [] {
      var init := refs[..|refs| - 1];
      assert TracedPath(g, init);
      LinkTracedPath(g, init);
    }
  }

  /** Arenas with the same parent pointers have the same walks up. */
  lemma {:induction false} SameParentsAncestry(g: Graph, g': Graph, x: nat, fuel: nat)
    requires Wf(g) && Wf(g') && SameParentsExcept(g, g', |g.nodes|) && x < |g.nodes|
    ensures Ancestry(g', x, fuel) == Ancestry(g, x, fuel)
    decreases fuel
  {
    if fuel > 0 && g.nodes[x].parent.Some? {
      SameParentsAncestry(g, g', g.nodes[x].parent.value, fuel - 1);
    }
  }

  /** A container that is nobody's parent is on no other container's walk up. */
  lemma ChildlessNotAbove(g: Graph, c: nat, p: nat, fuel: nat)
    requires Wf(g) && p < |g.nodes| && c != p
    requires forall y :: 0 <= y < |g.nodes| ==> g.nodes[y].parent != Some(c)
    ensures c !in Ancestry(g, p, fuel)
  {
    var up := Ancestry(g, p, fuel);
    forall i | 0 <= i < |up|
      ensures up[i] != c
    {
      if i > 0 {
        assert g.nodes[up[i - 1]].parent == Some(up[i]);
      }
    }
  }

  /** Linking a parentless container that is nobody's parent under p appends it to p's children. */
  lemma LinkFresh(g: Graph, c: nat, p: nat)
    requires Wf(g) && c < |g.nodes| && p < |g.nodes| && c != p && g.nodes[c].parent.None?
    requires forall y :: 0 <= y < |g.nodes| ==> g.nodes[y].parent != Some(c)
    ensures Link(g, c, p).nodes == g.nodes[p := g.nodes[p].(children := g.nodes[p].children + [c])]
                                         [c := g.nodes[c].(parent := Some(p))]
    ensures Link(g, c, p).index == g.index
  {
    ChildlessNotAbove(g, c, p, |g.nodes|);
  }

  /** The arena with a new container holding m, registered under m's id, not yet linked anywhere. */
  function Enter(g: Graph, m: Message): (r: Graph)
    requires Wf(g)
    ensures Wf(r) && |r.nodes| == |g.nodes| + 1
    ensures forall y :: 0 <= y < |g.nodes| ==> r.nodes[y] == g.nodes[y]
    ensures r.nodes[|g.nodes|] == Container(Some(m), None, [])
    ensures r.index == g.index[m.id := |g.nodes|]
    ensures forall y :: 0 <= y < |r.nodes| ==> r.nodes[y].parent != Some(|g.nodes|)
  {
    var r := Graph(g.nodes + [Container(Some(m), None, [])], g.index[m.id := |g.nodes|]);
    assert forall y :: 0 <= y < |g.nodes| ==> ContainerWf(g.nodes[y], |g.nodes|);
    r
  }

  /** Enter, followed by a new placeholder registered under id a. */
  function EnterOrphan(g: Graph, m: Message, a: string): (r: Graph)
    requires Wf(g)
    ensures Wf(r) && |r.nodes| == |g.nodes| + 2
    ensures forall y :: 0 <= y < |r.nodes| ==> r.nodes[y].parent != Some(|g.nodes|)
  {
    var g2 := Enter(g, m);
    Graph(g2.nodes + [Placeholder], g2.index[a := |g.nodes| + 1])
  }

  /** A message with a new id and no references becomes a new parentless container. */
  lemma AddFresh(g: Graph, m: Message)
    requires Wf(g) && m.id !in g.index && m.references == []
    ensures AddMessage(g, m) == Enter(g, m)
  {
    assert Dedup([]) == [];
  }

  /** A message with a new id gets a new container, and the container receives the message. */
  lemma EnterSteps(g: Graph, m: Message)
    requires Wf(g) && m.id !in g.index
    ensures GetOrCreate(g, m.id).1 == |g.nodes|
    ensures Fill(GetOrCreate(g, m.id).0, |g.nodes|, m) == Enter(g, m)
  {
  }

  lemma EnterTracedPath(g: Graph, m: Message)
    requires Wf(g) && m.id !in g.index && m.references != [] && TracedPath(g, m.references)
    ensures TracedPath(Enter(g, m), m.references)
    ensures m.references[|m.references| - 1] in g.index
    ensures Enter(g, m).index[m.references[|m.references| - 1]] == g.index[m.references[|m.references| - 1]]
  {
    assert m.references[|m.references| - 1] in g.index;
  }

  lemma AddReplyUnfold(g: Graph, m: Message)
    requires Wf(g) && m.id !in g.index && m.references != [] && TracedPath(g, m.references)
    ensures m.references[|m.references| - 1] in g.index
    ensures AddMessage(g, m) == Link(Enter(g, m), |g.nodes|, g.index[m.references[|m.references| - 1]])
  {
    EnterSteps(g, m);
    EnterTracedPath(g, m);
    DedupDistinct(m.references);
    LinkTracedPath(Enter(g, m), m.references);
  }

  /** The arena with a new container holding m appended as the last child of p. */
  function Reply(g: Graph, m: Message, p: nat): (r: Graph)
    requires Wf(g) && p < |g.nodes|
    ensures Wf(r) && |r.nodes| == |g.nodes| + 1 && r.index == g.index[m.id := |g.nodes|]
    ensures r.nodes[|g.nodes|] == Container(Some(m), Some(p), [])
    ensures r.nodes[p] == g.nodes[p].(children := g.nodes[p].children + [|g.nodes|])
    ensures forall y :: 0 <= y < |g.nodes| && y != p ==> r.nodes[y] == g.nodes[y]
  {
    assert forall y :: 0 <= y < |g.nodes| ==> ContainerWf(g.nodes[y], |g.nodes|);
    Graph(g.nodes[p := g.nodes[p].(children := g.nodes[p].children + [|g.nodes|])] + [Container(Some(m), Some(p), [])],
          g.index[m.id := |g.nodes|])
  }

  lemma EnterLinked(g: Graph, m: Message, p: nat)
    requires Wf(g) && p < |g.nodes|
    ensures Link(Enter(g, m), |g.nodes|, p) == Reply(g, m, p)
  {
    var n := |g.nodes|;
    var g2 := Enter(g, m);
    LinkFresh(g2, n, p);
    var kids := g.nodes[p].children + [n];
    var lhs := g2.nodes[p := g2.nodes[p].(children := kids)][n := g2.nodes[n].(parent := Some(p))];
    var rhs := Reply(g, m, p).nodes;
    assert |lhs| == |rhs|;
    forall i | 0 <= i < |lhs|
      ensures lhs[i] == rhs[i]
    {
    }
  }

  /**
    A message with a new id whose references trace a path already in the arena
    (its full ancestry, or just its parent) becomes the last child of the
    container of its last reference; nothing else changes.
  */
  lemma AddReply(g: Graph, m: Message)
    requires Wf(g) && m.id !in g.index && m.references != [] && TracedPath(g, m.references)
    ensures m.references[|m.references| - 1] in g.index
    ensures AddMessage(g, m) == Reply(g, m, g.index[m.references[|m.references| - 1]])
  {
    AddReplyUnfold(g, m);
    EnterLinked(g, m, g.index[m.references[|m.references| - 1]]);
  }

  /** Looking up an id never seen in the arena after Enter adds a placeholder for it. */
  lemma OrphanCreated(g: Graph, m: Message, a: string)
    requires Wf(g) && a !in g.index && a != m.id
    ensures GetOrCreate(Enter(g, m), a).0 == EnterOrphan(g, m, a)
    ensures GetOrCreate(Enter(g, m), a).1 == |g.nodes| + 1
  {
  }

  /** A single reference is only looked up (or created); there is nothing to link it under. */
  lemma LinkSingle(g: Graph, a: string)
    requires Wf(g)
    ensures LinkReferences(g, [a]).0 == GetOrCreate(g, a).0
    ensures LinkReferences(g, [a]).1 == Some(GetOrCreate(g, a).1)
  {
    assert [a][..0] == [];
  }

  lemma OrphanSteps(g: Graph, m: Message)
    requires Wf(g) && m.id !in g.index && |m.references| == 1
    requires m.references[0] !in g.index && m.references[0] != m.id
    ensures LinkReferences(Enter(g, m), Dedup(m.references)).0 == EnterOrphan(g, m, m.references[0])
    ensures LinkReferences(Enter(g, m), Dedup(m.references)).1 == Some(|g.nodes| + 1)
  {
    var a := m.references[0];
    DedupDistinct(m.references);
    assert m.references == [a];
    LinkSingle(Enter(g, m), a);
    OrphanCreated(g, m, a);
  }

  lemma AddOrphanReplyUnfold(g: Graph, m: Message)
    requires Wf(g) && m.id !in g.index && |m.references| == 1
    requires m.references[0] !in g.index && m.references[0] != m.id
    ensures AddMessage(g, m) == Link(EnterOrphan(g, m, m.references[0]), |g.nodes|, |g.nodes| + 1)
  {
    EnterSteps(g, m);
    OrphanSteps(g, m);
  }

  /** The arena with a new container holding m below a new placeholder registered under id a. */
  function OrphanReply(g: Graph, m: Message, a: string): (r: Graph)
    requires Wf(g)
    ensures Wf(r) && |r.nodes| == |g.nodes| + 2
    ensures forall y :: 0 <= y < |g.nodes| ==> r.nodes[y] == g.nodes[y]
    ensures r.nodes[|g.nodes|] == Container(Some(m), Some(|g.nodes| + 1), [])
    ensures r.nodes[|g.nodes| + 1] == Container(None, None, [|g.nodes|])
    ensures r.index == g.index[m.id := |g.nodes|][a := |g.nodes| + 1]
  {
    assert forall y :: 0 <= y < |g.nodes| ==> ContainerWf(g.nodes[y], |g.nodes|);
    Graph(g.nodes + [Container(Some(m), Some(|g.nodes| + 1), []), Container(None, None, [|g.nodes|])],
          g.index[m.id := |g.nodes|][a := |g.nodes| + 1])
  }

  lemma OrphanLinked(g: Graph, m: Message, a: string)
    requires Wf(g)
    ensures Link(EnterOrphan(g, m, a), |g.nodes|, |g.nodes| + 1) == OrphanReply(g, m, a)
  {
    var n := |g.nodes|;
    var g3 := EnterOrphan(g, m, a);
    LinkFresh(g3, n, n + 1);
    assert g3.nodes[n + 1].children + [n] == [n];
    var lhs := g3.nodes[n + 1 := g3.nodes[n + 1].(children := [n])][n := g3.nodes[n].(parent := Some(n + 1))];
    var rhs := OrphanReply(g, m, a).nodes;
    assert |lhs| == |rhs|;
    forall i | 0 <= i < |lhs|
      ensures lhs[i] == rhs[i]
    {
    }
  }

  /**
    A message with a new id whose single reference names an id never seen gets
    a new container under a new placeholder for that id.
  */
  lemma AddOrphanReply(g: Graph, m: Message)
    requires Wf(g) && m.id !in g.index && |m.references| == 1
    requires m.references[0] !in g.index && m.references[0] != m.id
    ensures AddMessage(g, m) == OrphanReply(g, m, m.references[0])
  {
    AddOrphanReplyUnfold(g, m);
    OrphanLinked(g, m, m.references[0]);
  }

  lemma AddClosingCycleUnfold(g: Graph, m: Message)
    requires Wf(g) && m.id in g.index && m.references != [] && TracedPath(g, m.references)
    ensures m.references[|m.references| - 1] in g.index
    ensures AddMessage(g, m) == Link(Fill(g, g.index[m.id], m), g.index[m.id], g.index[m.references[|m.references| - 1]])
  {
    var h := g.index[m.id];
    var g2 := Fill(g, h, m);
    assert m.references[|m.references| - 1] in g.index;
    AddMessageKnown(g, m);
    DedupDistinct(m.references);
    FillTraced(g, h, m, m.references);
    LinkTracedPath(g2, m.references);
  }

  /** Processing a message whose container exists fills that container and links from there. */
  lemma AddMessageKnown(g: Graph, m: Message)
    requires Wf(g) && m.id in g.index
    ensures var g2 := Fill(g, g.index[m.id], m); var (g3, last) := LinkReferences(g2, Dedup(m.references));
      AddMessage(g, m) == if last.Some? then Link(g3, g.index[m.id], last.value) else g3
  {
    assert GetOrCreate(g, m.id) == (g, g.index[m.id]);
  }

  /** Filling a container keeps a traced path traced. */
  lemma FillTraced(g: Graph, h: nat, m: Message, refs: seq<string>)
    requires Wf(g) && h < |g.nodes| && TracedPath(g, refs)
    ensures TracedPath(Fill(g, h, m), refs)
  {
  }

  /**
    A message whose container already exists and lies on the walk up from its last
    reference (linking it there would close a cycle) is only filled in: the link
    is skipped.
  */
  lemma AddClosingCycle(g: Graph, m: Message)
    requires Wf(g) && m.id in g.index && m.references != [] && TracedPath(g, m.references)
    requires g.index[m.id] in Ancestry(g, g.index[m.references[|m.references| - 1]], |g.nodes|)
    ensures AddMessage(g, m) == Fill(g, g.index[m.id], m)
  {
    AddClosingCycleUnfold(g, m);
    var h := g.index[m.id];
    var p := g.index[m.references[|m.references| - 1]];
    SameParentsAncestry(g, Fill(g, h, m), p, |g.nodes|);
  }

  /**
    Root attachment in closed form: the parentless containers (other than the
    root) are appended to the root's children in creation order and get the root
    as parent; nothing else changes.
  */
  lemma AttachRootsClosed(g: Graph)
    requires Wf(g)
    ensures AttachRoots(g, |g.nodes|).index == g.index && |AttachRoots(g, |g.nodes|).nodes| == |g.nodes|
    ensures AttachRoots(g, |g.nodes|).nodes[Root] ==
      g.nodes[Root].(children := g.nodes[Root].children + Orphans(g, |g.nodes|))
    ensures forall x :: 0 < x < |g.nodes| ==>
      AttachRoots(g, |g.nodes|).nodes[x] == (if g.nodes[x].parent.None? then g.nodes[x].(parent := Some(Root)) else g.nodes[x])
  {
    AttachRootsOutcome(g, |g.nodes|);
  }

  /** With a single parentless container h below k, the root set found below k is h alone. */
  lemma OrphansSingle(g: Graph, h: nat, k: nat)
    requires k <= |g.nodes| && 0 < h < |g.nodes| && g.nodes[h].parent.None?
    requires forall x :: 0 < x < |g.nodes| && x != h ==> g.nodes[x].parent.Some?
    ensures Orphans(g, k) == if h < k then [h] else []
  {
    FirstTwoIn(Orphans(g, k));
  }

  /** The first two elements of a list, where present, are members of it. */
  lemma FirstTwoIn(r: seq<nat>)
    ensures 1 <= |r| ==> r[0] in r
    ensures 2 <= |r| ==> r[1] in r
  {
  }

  /** The handles 1 up to n, in order. */
  function Handles(n: nat): (r: seq<nat>)
    ensures |r| == n && forall i :: 0 <= i < n ==> r[i] == i + 1
  {
    if n == 0 then [] else Handles(n - 1) + [n]
  }

  /** When no container has a parent, the root set below k is every container from 1 up to k, in order. */
  lemma {:induction false} OrphansEvery(g: Graph, k: nat)
    requires 1 <= k <= |g.nodes|
    requires forall x :: 0 < x < |g.nodes| ==> g.nodes[x].parent.None?
    ensures Orphans(g, k) == Handles(k - 1)
  {
    if k > 1 {
      OrphansEvery(g, k - 1);
      assert Orphans(g, k) == Orphans(g, k - 1) + [k - 1];
    }
  }
}
