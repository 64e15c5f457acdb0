/**
  The builder's output and the phases composed.

  The output is the root set as a sequence of container trees. A test reads it
  back through `Abstract`, which keeps of each container only the id of its
  message (None for a placeholder) and its children, in order.
*/
module Threads {
  import opened Containers
  import opened Linking
  import opened Pruning
  import opened Grouping
  import opened Pruned

  /** A container as the builder returns it: its message (None for a placeholder) and its children. */
  datatype Thread = Thread(message: Option<Message>, children: seq<Thread>)

  /** The projection a test compares: the message id (None for a placeholder) and the children. */
  datatype Summary = Summary(id: Option<string>, children: seq<Summary>)

  /** The number of containers on the walk from x up to its tree's top, x included. */
  ghost function Depth(g: Graph, x: nat): nat
    requires Wf(g) && x < |g.nodes|
  {
    |Ancestry(g, x, |g.nodes|)|
  }

  /** In a forest a child lies one level below its parent, and no walk up is longer than the arena. */
  lemma ChildDepth(g: Graph, x: nat, c: nat)
    requires Forest(g) && x < |g.nodes| && c in g.nodes[x].children
    ensures c < |g.nodes| && Depth(g, c) == Depth(g, x) + 1 <= |g.nodes|
  {
    assert ContainerWf(g.nodes[x], |g.nodes|);
    var up := Ancestry(g, x, |g.nodes|);
    ChainConcat(g, [c], up);
    TopChainAncestry(g, [c] + up);
    AncestryDistinct(g, c);
    DistinctBound(Ancestry(g, c, |g.nodes|), |g.nodes|);
  }

  /** The tree of containers below x. */
  function Snapshot(g: Graph, x: nat): (t: Thread)
    requires Forest(g) && x < |g.nodes|
    ensures t.message == g.nodes[x].message && |t.children| == |g.nodes[x].children|
    decreases |g.nodes| - Depth(g, x), 1
  {
    Thread(g.nodes[x].message, SnapshotAll(g, x, g.nodes[x].children))
  }

  /** The trees below the containers cs, children of x. */
  function SnapshotAll(g: Graph, x: nat, cs: seq<nat>): (ts: seq<Thread>)
    requires Forest(g) && x < |g.nodes| && forall c :: c in cs ==> c in g.nodes[x].children
    ensures |ts| == |cs|
    decreases |g.nodes| - Depth(g, x), 0, |cs|
  {
    if cs == [] then []
    else
      assert cs[0] in cs && forall c :: c in cs[1..] ==> c in cs;
      ChildDepth(g, x, cs[0]);
      [Snapshot(g, cs[0])] + SnapshotAll(g, x, cs[1..])
  }

  /** The id of a container's message, None for a placeholder. */
  function IdOf(m: Option<Message>): Option<string> {
    match m
    case None => None
    case Some(msg) => Some(msg.id)
  }

  /** The test's projection: each container becomes its message id and the projection of its children, in order. */
  function Abstract(ts: seq<Thread>): (r: seq<Summary>)
    ensures |r| == |ts|
    ensures forall i :: 0 <= i < |ts| ==> r[i].id == IdOf(ts[i].message) && |r[i].children| == |ts[i].children|
    decreases ts
  {
    if ts == [] then []
    else [Summary(IdOf(ts[0].message), Abstract(ts[0].children))] + Abstract(ts[1..])
  }

  /** Linking phases: every message indexed and linked, then the parentless containers attached to the root. */
  function Linked(msgs: seq<Message>): (g: Graph)
    ensures Wf(g)
  {
    var g := IndexAll(msgs);
    AttachRoots(g, |g.nodes|)
  }

  lemma LinkedForest(msgs: seq<Message>)
    ensures Forest(Linked(msgs))
  {
    IndexAllForest(msgs);
    AttachRootsForest(IndexAll(msgs), |IndexAll(msgs).nodes|);
  }

  /** After root attachment every container but the root container has a parent. */
  lemma LinkedRooted(msgs: seq<Message>)
    ensures Rooted(Linked(msgs))
  {
    var g := IndexAll(msgs);
    AttachRootsOutcome(g, |g.nodes|);
  }

  /**
    After pruning the linked arena, every placeholder below the root set has at
    least two children: no empty placeholder and no single-child placeholder is
    left below the root set.
  */
  lemma LinkedPruned(msgs: seq<Message>)
    ensures var p := Prune(Linked(msgs));
      forall x :: (0 <= x < |p.nodes| && p.nodes[x].message.None? &&
        p.nodes[x].parent.Some? && p.nodes[x].parent != Some(Root)) ==> |p.nodes[x].children| >= 2
  {
    LinkedForest(msgs);
    LinkedRooted(msgs);
    PruneRemoves(Linked(msgs));
  }

  /** All four phases. */
  function Grouped(msgs: seq<Message>): (g: Graph)
    ensures Forest(g)
  {
    LinkedForest(msgs);
    PruneKeeps(Linked(msgs));
    GroupKeeps(Prune(Linked(msgs)));
    GroupBySubject(Prune(Linked(msgs)))
  }

  /** What the builder returns: the root set, each root with the tree below it. */
  function Build(msgs: seq<Message>): seq<Thread> {
    var g := Grouped(msgs);
    SnapshotAll(g, Root, g.nodes[Root].children)
  }
}
