/**
  The builder's documented scenarios, each proved for the model: the message
  list a scenario feeds the builder, and the projection of the result it
  expects. Where the outcome does not depend on the subjects, the scenario is
  proved for every choice of subjects, and the documented case is an instance.

  Each scenario goes in steps: the arena after indexing, in closed form,
  message by message (`...Indexing`); the containers of that arena
  (`...Nodes`); the arena after root attachment and the projection of its
  snapshot (`...Outcome`); and the builder's result, by the phases that leave
  that arena as it is.
*/
module Scenarios {
  import opened Containers
  import opened Linking
  import opened Subjects
  import opened Pruning
  import opened Grouping
  import opened Replies
  import opened Threads

  // ---- Indexing a short list, one message at a time --------------------------------

  /** Indexing one more message is processing it on the arena indexed so far. */
  lemma IndexAllSnoc(msgs: seq<Message>, m: Message)
    ensures IndexAll(msgs + [m]) == AddMessage(IndexAll(msgs), m)
  {
    assert (msgs + [m])[..|msgs|] == msgs;
  }

  /** The message ids the scenarios use are pairwise different. */
  lemma IdsDistinct()
    ensures "id1" != "id2" && "id1" != "id3" && "id1" != "id4" && "id1" != "id5"
    ensures "id1" != "id6" && "id1" != "id7" && "id2" != "id3" && "id2" != "id4"
    ensures "id2" != "id5" && "id2" != "id6" && "id2" != "id7" && "id3" != "id4"
    ensures "id3" != "id5" && "id3" != "id6" && "id3" != "id7" && "id4" != "id5"
    ensures "id4" != "id6" && "id4" != "id7" && "id5" != "id6" && "id5" != "id7"
    ensures "id6" != "id7"
  {
  }

  /** A new message naming only a known parent a gets a new container as a's last child. */
  lemma IndexParent(msgs: seq<Message>, m: Message, g: Graph, known: set<string>, a: string, p: nat)
    requires IndexAll(msgs) == g && g.index.Keys == known && m.id !in known && m.references == [a]
    requires a in known && g.index[a] == p
    ensures p < |g.nodes| && IndexAll(msgs + [m]) == Reply(g, m, p)
  {
    TracedOne(g, a);
    IndexReply(msgs, m, g, p);
  }

  /** A new reply keeps every path already traced. */
  lemma ReplyTraced(g: Graph, m: Message, p: nat, refs: seq<string>)
    requires Wf(g) && p < |g.nodes| && m.id !in g.index && TracedPath(g, refs)
    ensures TracedPath(Reply(g, m, p), refs)
  {
    var r := Reply(g, m, p);
    forall i | 0 <= i < |refs|
      ensures refs[i] in r.index && r.index[refs[i]] == g.index[refs[i]] < |g.nodes|
    {
      assert refs[i] != m.id;
    }
  }

  /** A new message without references gets a new top-level container. */
  lemma IndexFresh(msgs: seq<Message>, m: Message, g: Graph)
    requires IndexAll(msgs) == g && m.id !in g.index && m.references == []
    ensures IndexAll(msgs + [m]) == Enter(g, m)
  {
    IndexAllSnoc(msgs, m);
    AddFresh(g, m);
  }

  /** A new message whose references trace a path gets a new container below the last one, p. */
  lemma IndexReply(msgs: seq<Message>, m: Message, g: Graph, p: nat)
    requires IndexAll(msgs) == g && m.id !in g.index && m.references != [] && TracedPath(g, m.references)
    requires g.index[m.references[|m.references| - 1]] == p
    ensures p < |g.nodes| && IndexAll(msgs + [m]) == Reply(g, m, p)
  {
    IndexAllSnoc(msgs, m);
    AddReply(g, m);
  }

  /** A new message with one unknown reference gets a new container below a new placeholder. */
  lemma IndexOrphan(msgs: seq<Message>, m: Message, g: Graph)
    requires IndexAll(msgs) == g && m.id !in g.index && |m.references| == 1
    requires m.references[0] !in g.index && m.references[0] != m.id
    ensures IndexAll(msgs + [m]) == OrphanReply(g, m, m.references[0])
  {
    IndexAllSnoc(msgs, m);
    AddOrphanReply(g, m);
  }

  /** A message whose placeholder is an ancestor of its last reference only fills the placeholder. */
  lemma IndexClosing(msgs: seq<Message>, m: Message, g: Graph)
    requires IndexAll(msgs) == g && m.id in g.index && m.references != [] && TracedPath(g, m.references)
    requires g.index[m.id] in Ancestry(g, g.index[m.references[|m.references| - 1]], |g.nodes|)
    ensures IndexAll(msgs + [m]) == Fill(g, g.index[m.id], m)
  {
    IndexAllSnoc(msgs, m);
    AddClosingCycle(g, m);
  }
  /** Two new messages with the same traced references become the last two children of p, in order. */
  lemma IndexTwoReplies(msgs: seq<Message>, g: Graph, ma: Message, mb: Message, p: nat)
    requires IndexAll(msgs) == g && ma.id !in g.index && mb.id !in g.index && ma.id != mb.id
    requires ma.references == mb.references != [] && TracedPath(g, ma.references)
    requires g.index[ma.references[|ma.references| - 1]] == p
    ensures p < |g.nodes| && IndexAll(msgs + [ma] + [mb]) == Reply(Reply(g, ma, p), mb, p)
  {
    IndexReply(msgs, ma, g, p);
    ReplyTraced(g, ma, p, mb.references);
    IndexReply(msgs + [ma], mb, Reply(g, ma, p), p);
  }

  /** An index holding exactly the ids, id i mapped to i + 1. */
  ghost predicate IndexesInOrder(index: map<string, nat>, ids: seq<string>) {
    && (forall k :: k in index ==> k in ids)
    && (forall i :: 0 <= i < |ids| ==> ids[i] in index && index[ids[i]] == i + 1)
  }

  /** Adding the next id of a chain to an index of the chain so far. */
  lemma IndexesInOrderNext(index: map<string, nat>, ids: seq<string>)
    requires 0 < |ids| && NoDup(ids) && IndexesInOrder(index, ids[..|ids| - 1])
    ensures IndexesInOrder(index[ids[|ids| - 1] := |ids|], ids)
  {
    var n := |ids|;
    var ids' := ids[..n - 1];
    forall k | k in index
      ensures k in ids
    {
      var i :| 0 <= i < n - 1 && ids'[i] == k;
      assert ids[i] == k;
    }
    forall i | 0 <= i < n - 1
      ensures ids[i] != ids[n - 1] && ids[i] in index && index[ids[i]] == i + 1
    {
      assert ids'[i] == ids[i];
    }
  }


  /** A single reference to a known id traces a path. */
  lemma TracedOne(g: Graph, a: string)
    requires Wf(g) && a in g.index
    ensures TracedPath(g, [a])
  {
  }

  /** Two references trace a path when the second's container is a child of the first's. */
  lemma TracedTwo(g: Graph, a: string, b: string)
    requires Wf(g) && a in g.index && b in g.index && a != b
    requires g.nodes[g.index[b]].parent == Some(g.index[a])
    ensures TracedPath(g, [a, b])
  {
  }

  // ---- From the linked arena to the builder's result ---------------------------------

  /**
    When pruning and grouping have nothing to do (no placeholder below the top
    level, no two top-level containers with the same non-empty subject), the
    builder's result is the linked arena's root set, as it stands.
  */
  lemma QuietPhases(msgs: seq<Message>, l: Graph)
    requires Linked(msgs) == l
    requires NoInnerPlaceholders(l) && FreshKeys(l, map[], l.nodes[Root].children)
    ensures Forest(l) && Build(msgs) == SnapshotAll(l, Root, l.nodes[Root].children)
  {
    LinkedForest(msgs);
    PruneIdentity(l);
    GroupDistinct(l);
  }

  /** A single top-level container takes no part in grouping. */
  lemma OneRootFresh(l: Graph, a: nat)
    requires Wf(l)
    ensures FreshKeys(l, map[], [a])
  {
  }

  /** Container x has the message with the given id (None: a placeholder), the given parent and children. */
  ghost predicate Slot(g: Graph, x: nat, id: Option<string>, parent: Option<nat>, children: seq<nat>) {
    x < |g.nodes| && IdOf(g.nodes[x].message) == id && g.nodes[x].parent == parent && g.nodes[x].children == children
  }

  /** Root attachment leaves a placeholder below the top level only where one had a parent before. */
  lemma AttachedNoInner(g: Graph)
    requires Forest(g)
    requires forall x :: 0 < x < |g.nodes| && g.nodes[x].parent.Some? ==> g.nodes[x].message.Some?
    ensures NoInnerPlaceholders(AttachRoots(g, |g.nodes|))
  {
    AttachRootsClosed(g);
    var l := AttachRoots(g, |g.nodes|);
    forall x | 0 <= x < |l.nodes| && l.nodes[x].parent.Some? && l.nodes[x].parent != Some(Root)
      ensures l.nodes[x].message.Some?
    {
      assert x != Root && g.nodes[x].parent.Some?;
    }
  }

  /**
    Root attachment with a single parentless container h, every other container
    holding a message: h becomes the only top-level container, and nothing else
    changes.
  */
  lemma AttachSingle(g: Graph, h: nat)
    requires Forest(g) && 0 < h < |g.nodes| && g.nodes[Root].children == [] && g.nodes[h].parent.None?
    requires forall x :: 0 < x < |g.nodes| && x != h ==> g.nodes[x].parent.Some? && g.nodes[x].message.Some?
    ensures var l := AttachRoots(g, |g.nodes|);
      && Forest(l) && |l.nodes| == |g.nodes| && NoInnerPlaceholders(l)
      && l.nodes[Root].children == [h] && FreshKeys(l, map[], l.nodes[Root].children)
      && l.nodes[h] == g.nodes[h].(parent := Some(Root))
      && forall x :: 0 < x < |g.nodes| && x != h ==> l.nodes[x] == g.nodes[x]
  {
    AttachRootsForest(g, |g.nodes|);
    AttachedNoInner(g);
    AttachSingleShape(g, h);
    OneRootFresh(AttachRoots(g, |g.nodes|), h);
  }

  /** With h the only parentless container, root attachment hangs h alone under the root. */
  lemma AttachSingleShape(g: Graph, h: nat)
    requires Wf(g) && 0 < h < |g.nodes| && g.nodes[Root].children == [] && g.nodes[h].parent.None?
    requires forall x :: 0 < x < |g.nodes| && x != h ==> g.nodes[x].parent.Some?
    ensures var l := AttachRoots(g, |g.nodes|);
      && |l.nodes| == |g.nodes| && l.nodes[Root].children == [h]
      && l.nodes[h] == g.nodes[h].(parent := Some(Root))
      && forall x :: 0 < x < |g.nodes| && x != h ==> l.nodes[x] == g.nodes[x]
  {
    OrphansSingle(g, h, |g.nodes|);
    AttachRootsClosed(g);
  }

  /** Root attachment when no container has a parent: all of them go to the top level, in order. */
  lemma AttachEvery(g: Graph)
    requires Forest(g) && g.nodes[Root].children == []
    requires forall x :: 0 < x < |g.nodes| ==> g.nodes[x].parent.None?
    ensures var l := AttachRoots(g, |g.nodes|);
      && Forest(l) && |l.nodes| == |g.nodes| && NoInnerPlaceholders(l)
      && l.nodes[Root].children == Handles(|g.nodes| - 1)
      && forall x :: 0 < x < |g.nodes| ==> l.nodes[x] == g.nodes[x].(parent := Some(Root))
  {
    AttachRootsForest(g, |g.nodes|);
    AttachedNoInner(g);
    AttachEveryShape(g);
  }

  /** With no parent anywhere, root attachment hangs every container under the root, in order. */
  lemma AttachEveryShape(g: Graph)
    requires Wf(g) && g.nodes[Root].children == []
    requires forall x :: 0 < x < |g.nodes| ==> g.nodes[x].parent.None?
    ensures var l := AttachRoots(g, |g.nodes|);
      && |l.nodes| == |g.nodes| && l.nodes[Root].children == Handles(|g.nodes| - 1)
      && forall x :: 0 < x < |g.nodes| ==> l.nodes[x] == g.nodes[x].(parent := Some(Root))
  {
    OrphansEvery(g, |g.nodes|);
    AttachRootsClosed(g);
  }

  // ---- Projections of small shapes ---------------------------------------------------

  /** A message without references. */
  function Fresh(subject: string, id: string): Message {
    Message(subject, id, [])
  }

  /** A message with no reply in the expected projection. */
  function Leaf(id: string): Summary {
    Summary(Some(id), [])
  }

  /** The projection of the snapshots of cs, children of x: the first one's, then the rest's. */
  lemma AbstractStep(l: Graph, x: nat, cs: seq<nat>)
    requires Forest(l) && x < |l.nodes| && cs != [] && forall c :: c in cs ==> c in l.nodes[x].children
    ensures cs[0] < |l.nodes| && forall c :: c in cs[1..] ==> c in l.nodes[x].children
    ensures Abstract(SnapshotAll(l, x, cs)) ==
      [Summary(IdOf(l.nodes[cs[0]].message), Abstract(SnapshotAll(l, cs[0], l.nodes[cs[0]].children)))]
      + Abstract(SnapshotAll(l, x, cs[1..]))
  {
    assert cs[0] in cs && forall c :: c in cs[1..] ==> c in cs;
    ChildDepth(l, x, cs[0]);
    var t := SnapshotAll(l, x, cs);
    assert t == [Snapshot(l, cs[0])] + SnapshotAll(l, x, cs[1..]);
    assert t[1..] == SnapshotAll(l, x, cs[1..]);
  }

  /** The projection below a container with a single child a. */
  lemma OneChild(l: Graph, x: nat, a: nat, ida: Option<string>, below: seq<Summary>)
    requires Forest(l) && x < |l.nodes| && l.nodes[x].children == [a] && a < |l.nodes|
    requires IdOf(l.nodes[a].message) == ida && Abstract(SnapshotAll(l, a, l.nodes[a].children)) == below
    ensures Abstract(SnapshotAll(l, x, [a])) == [Summary(ida, below)]
  {
    AbstractStep(l, x, [a]);
    assert [a][1..] == [];
  }

  /** The projection below a container with two children a and b. */
  lemma TwoChildren(l: Graph, x: nat, a: nat, b: nat, ida: Option<string>, idb: Option<string>,
                    belowA: seq<Summary>, belowB: seq<Summary>)
    requires Forest(l) && x < |l.nodes| && l.nodes[x].children == [a, b] && a < |l.nodes| && b < |l.nodes|
    requires IdOf(l.nodes[a].message) == ida && Abstract(SnapshotAll(l, a, l.nodes[a].children)) == belowA
    requires IdOf(l.nodes[b].message) == idb && Abstract(SnapshotAll(l, b, l.nodes[b].children)) == belowB
    ensures Abstract(SnapshotAll(l, x, [a, b])) == [Summary(ida, belowA), Summary(idb, belowB)]
  {
    AbstractStep(l, x, [a, b]);
    assert [a, b][1..] == [b];
    AbstractStep(l, x, [b]);
    assert [b][1..] == [];
  }

  /** One thread: a container (possibly a placeholder) with two leaves below it. */
  lemma FanShape(l: Graph, a: nat, b: nat, c: nat, ida: Option<string>, idb: string, idc: string)
    requires Forest(l) && l.nodes[Root].children == [a]
    requires a < |l.nodes| && IdOf(l.nodes[a].message) == ida && l.nodes[a].children == [b, c]
    requires b < |l.nodes| && IdOf(l.nodes[b].message) == Some(idb) && l.nodes[b].children == []
    requires c < |l.nodes| && IdOf(l.nodes[c].message) == Some(idc) && l.nodes[c].children == []
    ensures Abstract(SnapshotAll(l, Root, [a])) == [Summary(ida, [Leaf(idb), Leaf(idc)])]
  {
    TwoChildren(l, a, b, c, Some(idb), Some(idc), [], []);
    OneChild(l, Root, a, ida, [Leaf(idb), Leaf(idc)]);
  }

  // ---- No messages -----------------------------------------------------------------

  /** No messages, no threads. */
  lemma BuildEmpty()
    ensures Build([]) == []
  {
    QuietPhases([], Empty());
  }

  // ---- A message and a reply naming it -----------------------------------------------

  function OneDeepMessages(s1: string, s2: string): seq<Message> {
    [Fresh(s1, "id1"), Message(s2, "id2", ["id1"])]
  }

  function OneDeepIndexed(s1: string, s2: string): Graph {
    Reply(Enter(Empty(), Fresh(s1, "id1")), Message(s2, "id2", ["id1"]), 1)
  }

  lemma OneDeepIndexing(s1: string, s2: string)
    ensures IndexAll(OneDeepMessages(s1, s2)) == OneDeepIndexed(s1, s2)
  {
    var m1, m2 := Fresh(s1, "id1"), Message(s2, "id2", ["id1"]);
    assert OneDeepMessages(s1, s2) == [] + [m1] + [m2];
    IndexFresh([], m1, Empty());
    var g1 := Enter(Empty(), m1);
    TracedOne(g1, "id1");
    IndexReply([] + [m1], m2, g1, 1);
  }


  lemma OneDeepForest(s1: string, s2: string)
    ensures Forest(OneDeepIndexed(s1, s2))
  {
    OneDeepIndexing(s1, s2);
    IndexAllForest(OneDeepMessages(s1, s2));
  }

  lemma OneDeepNodes(s1: string, s2: string)
    ensures var g := OneDeepIndexed(s1, s2);
      && |g.nodes| == 3 && g.nodes[Root].children == []
      && Slot(g, 1, Some("id1"), None, [2]) && Slot(g, 2, Some("id2"), Some(1), [])
  {
  }

  lemma OneDeepOutcome(g: Graph)
    requires Forest(g) && |g.nodes| == 3 && g.nodes[Root].children == []
    requires Slot(g, 1, Some("id1"), None, [2]) && Slot(g, 2, Some("id2"), Some(1), [])
    ensures var l := AttachRoots(g, |g.nodes|);
      && Forest(l) && NoInnerPlaceholders(l) && FreshKeys(l, map[], l.nodes[Root].children)
      && Abstract(SnapshotAll(l, Root, l.nodes[Root].children)) == [Summary(Some("id1"), [Leaf("id2")])]
  {
    AttachSingle(g, 1);
    var l := AttachRoots(g, |g.nodes|);
    OneChild(l, 1, 2, Some("id2"), []);
    OneChild(l, Root, 1, Some("id1"), [Leaf("id2")]);
  }

  /** A reply whose reference names its parent lands below that parent, whatever the two subjects. */
  lemma ReplyBelowParent(s1: string, s2: string)
    ensures Abstract(Build(OneDeepMessages(s1, s2))) == [Summary(Some("id1"), [Leaf("id2")])]
  {
    var g := OneDeepIndexed(s1, s2);
    OneDeepIndexing(s1, s2);
    OneDeepForest(s1, s2);
    OneDeepNodes(s1, s2);
    OneDeepOutcome(g);
    QuietPhases(OneDeepMessages(s1, s2), AttachRoots(g, |g.nodes|));
  }

  lemma BuildOneDeep()
    ensures Abstract(Build([Fresh("s1", "id1"), Message("Re:s1", "id2", ["id1"])]))
         == [Summary(Some("id1"), [Leaf("id2")])]
  {
    ReplyBelowParent("s1", "Re:s1");
  }

  lemma BuildOneDeepMismatchingSubjects()
    ensures Abstract(Build([Fresh("s1", "id1"), Message("s2", "id2", ["id1"])]))
         == [Summary(Some("id1"), [Leaf("id2")])]
  {
    ReplyBelowParent("s1", "s2");
  }

  // ---- A reply found by its subject alone --------------------------------------------

  /**
    Subject b joins a root with subject a below it: both have the same
    non-empty normal form, and a carries no reply marker unless b does too.
  */
  predicate JoinsBelow(a: string, b: string) {
    Normalize(a) != [] && Normalize(b) == Normalize(a) && (!HasMarker(a) || HasMarker(b))
  }

  /** Two subjects with the same non-empty normal form, only the first of them marked. */
  predicate JoinsAbove(a: string, b: string) {
    Normalize(a) != [] && Normalize(b) == Normalize(a) && HasMarker(a) && !HasMarker(b)
  }

  function NoReferencesMessages(a: string, b: string): seq<Message> {
    [Fresh(a, "id1"), Fresh(b, "id2")]
  }

  function NoReferencesIndexed(a: string, b: string): Graph {
    Enter(Enter(Empty(), Fresh(a, "id1")), Fresh(b, "id2"))
  }

  lemma NoReferencesIndexing(a: string, b: string)
    ensures IndexAll(NoReferencesMessages(a, b)) == NoReferencesIndexed(a, b)
  {
    var m1, m2 := Fresh(a, "id1"), Fresh(b, "id2");
    assert NoReferencesMessages(a, b) == [] + [m1] + [m2];
    IndexFresh([], m1, Empty());
    IndexFresh([] + [m1], m2, Enter(Empty(), m1));
  }

  lemma NoReferencesForest(a: string, b: string)
    ensures Forest(NoReferencesIndexed(a, b))
  {
    NoReferencesIndexing(a, b);
    IndexAllForest(NoReferencesMessages(a, b));
  }

  lemma NoReferencesNodes(a: string, b: string)
    ensures var g := NoReferencesIndexed(a, b);
      && |g.nodes| == 3 && g.nodes[Root].children == []
      && g.nodes[1] == Container(Some(Fresh(a, "id1")), None, [])
      && g.nodes[2] == Container(Some(Fresh(b, "id2")), None, [])
  {
  }

  /**
    Grouping visits the two top-level containers and links the second below the
    first, or, when only the first is marked, the first below the second.
  */
  lemma NoReferencesSteps(l: Graph, a: string, b: string)
    requires Forest(l) && |l.nodes| == 3 && l.nodes[Root].children == [1, 2]
    requires l.nodes[1].message == Some(Fresh(a, "id1")) && l.nodes[2].message == Some(Fresh(b, "id2"))
    requires JoinsBelow(a, b) || JoinsAbove(a, b)
    ensures GroupBySubject(l) == if JoinsAbove(a, b) then Link(l, 1, 2) else Link(l, 2, 1)
  {
    RootSetWf(l);
    var t1 := map[Normalize(a) := Entry(1, HasMarker(a))];
    GroupStepRecords(l, map[], 1, Fresh(a, "id1"));
    if JoinsAbove(a, b) {
      GroupStepJoinsAbove(l, t1, 2, Fresh(b, "id2"));
    } else {
      GroupStepJoinsBelow(l, t1, 2, Fresh(b, "id2"));
    }
    GroupFromTwo(l, map[], 1, 2);
  }

  /** Linking the second top-level container below the first. */
  lemma NoReferencesLinked(l: Graph)
    requires Forest(l) && |l.nodes| == 3 && l.nodes[Root].children == [1, 2]
    requires l.nodes[1].parent == Some(Root) && l.nodes[1].children == []
    requires l.nodes[2].parent == Some(Root) && l.nodes[2].children == []
    ensures var r := Link(l, 2, 1);
      && Forest(r) && r.nodes[Root].children == [1]
      && r.nodes[1].children == [2] && r.nodes[1].message == l.nodes[1].message
      && r.nodes[2].children == [] && r.nodes[2].message == l.nodes[2].message
  {
    RootLevelAncestry(l, 1);
    LinkOutcome(l, 2, 1);
    var r := Link(l, 2, 1);
    var k :| 0 <= k < 2 && l.nodes[Root].children[k] == 2
      && r.nodes[Root].children == l.nodes[Root].children[..k] + l.nodes[Root].children[k + 1..];
    assert k == 1;
    assert [1, 2][2..] == [];
  }

  /** Linking the first top-level container below the second. */
  lemma NoReferencesLinkedAbove(l: Graph)
    requires Forest(l) && |l.nodes| == 3 && l.nodes[Root].children == [1, 2]
    requires l.nodes[1].parent == Some(Root) && l.nodes[1].children == []
    requires l.nodes[2].parent == Some(Root) && l.nodes[2].children == []
    ensures var r := Link(l, 1, 2);
      && Forest(r) && r.nodes[Root].children == [2]
      && r.nodes[2].children == [1] && r.nodes[2].message == l.nodes[2].message
      && r.nodes[1].children == [] && r.nodes[1].message == l.nodes[1].message
  {
    RootLevelAncestry(l, 2);
    LinkOutcome(l, 1, 2);
    var r := Link(l, 1, 2);
    var k :| 0 <= k < 2 && l.nodes[Root].children[k] == 1
      && r.nodes[Root].children == l.nodes[Root].children[..k] + l.nodes[Root].children[k + 1..];
    assert k == 0;
    assert [1, 2][1..] == [2];
  }

  /** The projection of the two containers, c below p. */
  lemma NoReferencesShape(r: Graph, c: nat, p: nat, idc: string, idp: string)
    requires Forest(r) && |r.nodes| == 3 && c < 3 && p < 3
    requires r.nodes[Root].children == [p] && r.nodes[p].children == [c] && r.nodes[c].children == []
    requires IdOf(r.nodes[p].message) == Some(idp) && IdOf(r.nodes[c].message) == Some(idc)
    ensures Abstract(SnapshotAll(r, Root, r.nodes[Root].children)) == [Summary(Some(idp), [Leaf(idc)])]
  {
    OneChild(r, p, c, Some(idc), []);
    OneChild(r, Root, p, Some(idp), [Leaf(idc)]);
  }

  /** The root set root attachment gives an arena of two parentless containers. */
  lemma FirstTwo()
    ensures Handles(2) == [1, 2]
  {
  }

  /** Root attachment puts both containers at the top, pruning keeps them, grouping joins them. */
  lemma NoReferencesOutcome(g: Graph, a: string, b: string)
    requires Forest(g) && |g.nodes| == 3 && g.nodes[Root].children == [] && (JoinsBelow(a, b) || JoinsAbove(a, b))
    requires g.nodes[1] == Container(Some(Fresh(a, "id1")), None, [])
    requires g.nodes[2] == Container(Some(Fresh(b, "id2")), None, [])
    ensures var l := AttachRoots(g, |g.nodes|);
      && Forest(l) && Prune(l) == l
      && GroupBySubject(l) == if JoinsAbove(a, b) then Link(l, 1, 2) else Link(l, 2, 1)
  {
    NoReferencesAttached(g, a, b);
    var l := AttachRoots(g, |g.nodes|);
    PruneIdentity(l);
    NoReferencesSteps(l, a, b);
  }

  /** Root attachment puts the two parentless containers at the top, in order. */
  lemma NoReferencesAttached(g: Graph, a: string, b: string)
    requires Forest(g) && |g.nodes| == 3 && g.nodes[Root].children == []
    requires g.nodes[1] == Container(Some(Fresh(a, "id1")), None, [])
    requires g.nodes[2] == Container(Some(Fresh(b, "id2")), None, [])
    ensures var l := AttachRoots(g, |g.nodes|);
      && Forest(l) && NoInnerPlaceholders(l) && |l.nodes| == 3 && l.nodes[Root].children == [1, 2]
      && l.nodes[1].message == Some(Fresh(a, "id1")) && l.nodes[2].message == Some(Fresh(b, "id2"))
  {
    forall x | 0 < x < |g.nodes|
      ensures g.nodes[x].parent.None?
    {
      assert x == 1 || x == 2;
    }
    AttachEvery(g);
    FirstTwo();
  }

  /** After root attachment, linking one container, c, below the other, p, gives one thread of two. */
  lemma NoReferencesJoined(g: Graph, c: nat, p: nat, idc: string, idp: string)
    requires Forest(g) && |g.nodes| == 3 && g.nodes[Root].children == []
    requires (c == 2 && p == 1) || (c == 1 && p == 2)
    requires IdOf(g.nodes[c].message) == Some(idc) && IdOf(g.nodes[p].message) == Some(idp)
    requires g.nodes[1].parent.None? && g.nodes[1].children == []
    requires g.nodes[2].parent.None? && g.nodes[2].children == []
    ensures var l := AttachRoots(g, |g.nodes|);
      && Forest(l) && |l.nodes| == 3 && Forest(Link(l, c, p))
      && Abstract(SnapshotAll(Link(l, c, p), Root, Link(l, c, p).nodes[Root].children))
         == [Summary(Some(idp), [Leaf(idc)])]
  {
    AttachEvery(g);
    FirstTwo();
    var l := AttachRoots(g, |g.nodes|);
    if c == 2 {
      NoReferencesLinked(l);
    } else {
      NoReferencesLinkedAbove(l);
    }
    NoReferencesShape(Link(l, c, p), c, p, idc, idp);
  }

  /**
    Two messages without references whose subjects have the same non-empty
    normal form end up one thread, the second below the first, unless only the
    first carries a reply marker.
  */
  lemma JoinedBySubject(a: string, b: string)
    requires JoinsBelow(a, b)
    ensures Abstract(Build(NoReferencesMessages(a, b))) == [Summary(Some("id1"), [Leaf("id2")])]
  {
    var g := NoReferencesIndexed(a, b);
    NoReferencesIndexing(a, b);
    NoReferencesForest(a, b);
    NoReferencesNodes(a, b);
    NoReferencesOutcome(g, a, b);
    NoReferencesJoined(g, 2, 1, "id2", "id1");
  }

  /**
    Two messages without references whose subjects have the same non-empty
    normal form, only the first carrying a reply marker, end up one thread with
    the first below the second.
  */
  lemma JoinedAboveBySubject(a: string, b: string)
    requires JoinsAbove(a, b)
    ensures Abstract(Build(NoReferencesMessages(a, b))) == [Summary(Some("id2"), [Leaf("id1")])]
  {
    var g := NoReferencesIndexed(a, b);
    NoReferencesIndexing(a, b);
    NoReferencesForest(a, b);
    NoReferencesNodes(a, b);
    NoReferencesOutcome(g, a, b);
    NoReferencesJoined(g, 1, 2, "id1", "id2");
  }

  /** A reply marker in front of a subject joins the reply below the message it came from. */
  lemma ReplyBySubject(s: string)
    requires Normalize(s) != []
    ensures Abstract(Build(NoReferencesMessages(s, "Re:" + s))) == [Summary(Some("id1"), [Leaf("id2")])]
  {
    ReplyNormalizesAway(s);
    JoinedBySubject(s, "Re:" + s);
  }

  /** A reply listed before the unmarked message it answers goes below that message. */
  lemma OriginalAfterReply(s: string)
    requires Normalize(s) != [] && !HasMarker(s)
    ensures Abstract(Build(NoReferencesMessages("Re:" + s, s))) == [Summary(Some("id2"), [Leaf("id1")])]
  {
    ReplyNormalizesAway(s);
    JoinedAboveBySubject("Re:" + s, s);
  }

  lemma BuildReplyBeforeOriginal()
    ensures Abstract(Build([Fresh("Re:s1", "id1"), Fresh("s1", "id2")])) == [Summary(Some("id2"), [Leaf("id1")])]
  {
    NormalizeFixed("s1");
    var t := "Re:" + "s1";
    assert |t| == 5 && t[0] == 'R' && t[1] == 'e' && t[2] == ':' && t[3] == 's' && t[4] == '1';
    assert t == "Re:s1";
    OriginalAfterReply("s1");
  }

  lemma BuildOneDeepNoReferences()
    ensures Abstract(Build([Fresh("s1", "id1"), Fresh("Re:s1", "id2")])) == [Summary(Some("id1"), [Leaf("id2")])]
  {
    NormalizeFixed("s1");
    var t := "Re:" + "s1";
    assert |t| == 5 && t[0] == 'R' && t[1] == 'e' && t[2] == ':' && t[3] == 's' && t[4] == '1';
    assert t == "Re:s1";
    ReplyBySubject("s1");
  }

  // ---- A binary tree, with full and with partial references ---------------------------

  /** The references of a grandchild below a: a alone, or the top message and a. */
  predicate TreeRefs(refs: seq<string>, a: string) {
    refs == [a] || refs == ["id1", a]
  }

  function Grandchild(r: string, id: string, refs: seq<string>): Message {
    Message(r, id, refs)
  }

  /**
    Seven messages forming a binary tree of depth two: a top message with subject
    s, and replies with subject r. Each grandchild names its parent, with or
    without the top message in front (left below id2, right below id3).
  */
  function TreeMessages(s: string, r: string, left: seq<string>, right: seq<string>): seq<Message> {
    [Fresh(s, "id1"), Message(r, "id2", ["id1"]), Message(r, "id3", ["id1"]),
     Grandchild(r, "id4", left), Grandchild(r, "id5", left), Grandchild(r, "id6", right), Grandchild(r, "id7", right)]
  }

  lemma TreeMessagesSplit(s: string, r: string, left: seq<string>, right: seq<string>)
    ensures TreeMessages(s, r, left, right)
         == SiblingsMessages(s, r, r) + [Grandchild(r, "id4", left)] + [Grandchild(r, "id5", left)]
            + [Grandchild(r, "id6", right)] + [Grandchild(r, "id7", right)]
  {
  }

  /** The arena after a top message id1 and its two replies id2 and id3. */
  ghost predicate TopThree(g: Graph) {
    && Wf(g) && |g.nodes| == 4 && g.nodes[Root].children == []
    && (forall k :: k in g.index ==> k == "id1" || k == "id2" || k == "id3")
    && "id1" in g.index && "id2" in g.index && "id3" in g.index
    && g.index["id1"] == 1 && g.index["id2"] == 2 && g.index["id3"] == 3
    && Slot(g, 1, Some("id1"), None, [2, 3])
    && Slot(g, 2, Some("id2"), Some(1), []) && Slot(g, 3, Some("id3"), Some(1), [])
  }

  /** The arena after the grandchildren: id4 and id5 below id2, id6 and id7 below id3. */
  function TreeGrown(g: Graph, r: string, left: seq<string>, right: seq<string>): Graph
    requires TopThree(g)
  {
    var g5 := Reply(Reply(g, Grandchild(r, "id4", left), 2), Grandchild(r, "id5", left), 2);
    Reply(Reply(g5, Grandchild(r, "id6", right), 3), Grandchild(r, "id7", right), 3)
  }

  /** The references of a grandchild below handle p trace a path once the top three messages are in. */
  lemma TreeTraced(g: Graph, refs: seq<string>, a: string, p: nat)
    requires Wf(g) && "id1" in g.index && a in g.index && a != "id1" && g.index[a] == p < |g.nodes|
    requires g.index["id1"] == 1 && g.nodes[p].parent == Some(1)
    requires TreeRefs(refs, a)
    ensures TracedPath(g, refs) && refs != [] && refs[|refs| - 1] == a
  {
    if refs == [a] { TracedOne(g, a); } else { TracedTwo(g, "id1", a); }
  }

  /** Only the top three ids are in the arena of the top three messages. */
  lemma TopThreeAbsent(g: Graph, k: string)
    requires TopThree(g) && k != "id1" && k != "id2" && k != "id3"
    ensures k !in g.index
  {
  }

  /** None of the grandchildren's ids is in the arena of the top three messages. */
  lemma TopThreeFresh(g: Graph)
    requires TopThree(g)
    ensures "id4" !in g.index && "id5" !in g.index && "id6" !in g.index && "id7" !in g.index
  {
    IdsDistinct();
    TopThreeAbsent(g, "id4");
    TopThreeAbsent(g, "id5");
    TopThreeAbsent(g, "id6");
    TopThreeAbsent(g, "id7");
  }

  /** An id that two replies do not carry stays out of the index. */
  lemma AbsentAfterTwo(g: Graph, ma: Message, mb: Message, p: nat, k: string)
    requires Wf(g) && p < |g.nodes| && k !in g.index && k != ma.id && k != mb.id
    ensures k !in Reply(Reply(g, ma, p), mb, p).index
  {
  }

  /** Two replies below p leave the entry of another id and the node at another handle q alone. */
  lemma KeptAfterTwo(g: Graph, ma: Message, mb: Message, p: nat, k: string, q: nat)
    requires Wf(g) && p < |g.nodes| && q < |g.nodes| && q != p
    requires k in g.index && k != ma.id && k != mb.id
    ensures var t := Reply(Reply(g, ma, p), mb, p);
      k in t.index && t.index[k] == g.index[k] && q < |t.nodes| && t.nodes[q] == g.nodes[q]
  {
  }

  /** Two grandchildren b and c below the reply a, which sits at handle p below id1. */
  lemma GrandchildrenIndexing(msgs: seq<Message>, g: Graph, r: string, refs: seq<string>, a: string, p: nat, b: string, c: string)
    requires IndexAll(msgs) == g && TreeRefs(refs, a)
    requires "id1" in g.index && a in g.index && a != "id1" && g.index["id1"] == 1 && g.index[a] == p < |g.nodes|
    requires g.nodes[p].parent == Some(1) && b !in g.index && c !in g.index && b != c
    ensures IndexAll(msgs + [Grandchild(r, b, refs)] + [Grandchild(r, c, refs)])
         == Reply(Reply(g, Grandchild(r, b, refs), p), Grandchild(r, c, refs), p)
  {
    TreeTraced(g, refs, a, p);
    IndexTwoReplies(msgs, g, Grandchild(r, b, refs), Grandchild(r, c, refs), p);
  }

  /** Indexing the two grandchildren below id2 after the top three messages. */
  lemma TreeLeftIndexing(top: seq<Message>, g: Graph, r: string, left: seq<string>)
    requires IndexAll(top) == g && TopThree(g) && TreeRefs(left, "id2")
    ensures var g5 := Reply(Reply(g, Grandchild(r, "id4", left), 2), Grandchild(r, "id5", left), 2);
      && IndexAll(top + [Grandchild(r, "id4", left)] + [Grandchild(r, "id5", left)]) == g5
      && "id1" in g5.index && "id3" in g5.index && g5.index["id1"] == 1 && g5.index["id3"] == 3 < |g5.nodes|
      && g5.nodes[3].parent == Some(1) && "id6" !in g5.index && "id7" !in g5.index
  {
    var m4, m5 := Grandchild(r, "id4", left), Grandchild(r, "id5", left);
    TopThreeFresh(g);
    IdsDistinct();
    GrandchildrenIndexing(top, g, r, left, "id2", 2, "id4", "id5");
    AbsentAfterTwo(g, m4, m5, 2, "id6");
    AbsentAfterTwo(g, m4, m5, 2, "id7");
    KeptAfterTwo(g, m4, m5, 2, "id1", 1);
    KeptAfterTwo(g, m4, m5, 2, "id3", 3);
  }

  /** Indexing the four grandchildren after the top three messages. */
  lemma TreeIndexing(top: seq<Message>, g: Graph, r: string, left: seq<string>, right: seq<string>)
    requires IndexAll(top) == g && TopThree(g) && TreeRefs(left, "id2") && TreeRefs(right, "id3")
    ensures IndexAll(top + [Grandchild(r, "id4", left)] + [Grandchild(r, "id5", left)]
                         + [Grandchild(r, "id6", right)] + [Grandchild(r, "id7", right)])
         == TreeGrown(g, r, left, right)
  {
    var m4, m5 := Grandchild(r, "id4", left), Grandchild(r, "id5", left);
    TreeLeftIndexing(top, g, r, left);
    IdsDistinct();
    GrandchildrenIndexing(top + [m4] + [m5], Reply(Reply(g, m4, 2), m5, 2), r, right, "id3", 3, "id6", "id7");
  }

  lemma TreeNodes(g: Graph, r: string, left: seq<string>, right: seq<string>)
    requires TopThree(g)
    ensures var t := TreeGrown(g, r, left, right);
      && |t.nodes| == 8 && t.nodes[Root].children == []
      && Slot(t, 1, Some("id1"), None, [2, 3])
      && Slot(t, 2, Some("id2"), Some(1), [4, 5]) && Slot(t, 3, Some("id3"), Some(1), [6, 7])
      && Slot(t, 4, Some("id4"), Some(2), []) && Slot(t, 5, Some("id5"), Some(2), [])
      && Slot(t, 6, Some("id6"), Some(3), []) && Slot(t, 7, Some("id7"), Some(3), [])
  {
    var g4 := Reply(g, Grandchild(r, "id4", left), 2);
    assert g4.nodes[2].children == [4];
    var g6 := Reply(Reply(g4, Grandchild(r, "id5", left), 2), Grandchild(r, "id6", right), 3);
    assert g6.nodes[3].children == [6];
  }

  /** The projection the binary tree scenarios expect. */
  function TreeSummary(): seq<Summary> {
    [Summary(Some("id1"), [Summary(Some("id2"), [Leaf("id4"), Leaf("id5")]),
                           Summary(Some("id3"), [Leaf("id6"), Leaf("id7")])])]
  }

  lemma TreeShape(l: Graph)
    requires Forest(l) && |l.nodes| == 8 && l.nodes[Root].children == [1]
    requires IdOf(l.nodes[1].message) == Some("id1") && l.nodes[1].children == [2, 3]
    requires IdOf(l.nodes[2].message) == Some("id2") && l.nodes[2].children == [4, 5]
    requires IdOf(l.nodes[3].message) == Some("id3") && l.nodes[3].children == [6, 7]
    requires IdOf(l.nodes[4].message) == Some("id4") && l.nodes[4].children == []
    requires IdOf(l.nodes[5].message) == Some("id5") && l.nodes[5].children == []
    requires IdOf(l.nodes[6].message) == Some("id6") && l.nodes[6].children == []
    requires IdOf(l.nodes[7].message) == Some("id7") && l.nodes[7].children == []
    ensures Abstract(SnapshotAll(l, Root, [1])) == TreeSummary()
  {
    TwoChildren(l, 2, 4, 5, Some("id4"), Some("id5"), [], []);
    TwoChildren(l, 3, 6, 7, Some("id6"), Some("id7"), [], []);
    TwoChildren(l, 1, 2, 3, Some("id2"), Some("id3"), [Leaf("id4"), Leaf("id5")], [Leaf("id6"), Leaf("id7")]);
    OneChild(l, Root, 1, Some("id1"), TreeSummary()[0].children);
  }

  lemma TreeOutcome(g: Graph)
    requires Forest(g) && |g.nodes| == 8 && g.nodes[Root].children == []
    requires Slot(g, 1, Some("id1"), None, [2, 3])
    requires Slot(g, 2, Some("id2"), Some(1), [4, 5]) && Slot(g, 3, Some("id3"), Some(1), [6, 7])
    requires Slot(g, 4, Some("id4"), Some(2), []) && Slot(g, 5, Some("id5"), Some(2), [])
    requires Slot(g, 6, Some("id6"), Some(3), []) && Slot(g, 7, Some("id7"), Some(3), [])
    ensures var l := AttachRoots(g, |g.nodes|);
      && Forest(l) && NoInnerPlaceholders(l) && FreshKeys(l, map[], l.nodes[Root].children)
      && Abstract(SnapshotAll(l, Root, l.nodes[Root].children)) == TreeSummary()
  {
    forall x | 0 < x < 8 && x != 1
      ensures g.nodes[x].parent.Some? && g.nodes[x].message.Some?
    {
      assert x == 2 || x == 3 || x == 4 || x == 5 || x == 6 || x == 7;
    }
    AttachSingle(g, 1);
    TreeShape(AttachRoots(g, |g.nodes|));
  }

  /** The tree built on the arena of the top three messages. */
  lemma TreeFrom(top: seq<Message>, g: Graph, s: string, r: string, left: seq<string>, right: seq<string>)
    requires top == SiblingsMessages(s, r, r) && IndexAll(top) == g && TopThree(g)
    requires TreeRefs(left, "id2") && TreeRefs(right, "id3")
    ensures Abstract(Build(TreeMessages(s, r, left, right))) == TreeSummary()
  {
    var msgs := TreeMessages(s, r, left, right);
    TreeMessagesSplit(s, r, left, right);
    TreeIndexing(top, g, r, left, right);
    var t := TreeGrown(g, r, left, right);
    IndexAllForest(msgs);
    TreeNodes(g, r, left, right);
    TreeOutcome(t);
    QuietPhases(msgs, AttachRoots(t, |t.nodes|));
  }

  /**
    Replies naming their parent, with or without the top message above it, give
    the same tree, whatever the two subjects: the projection does not depend on
    whether the references are full or partial.
  */
  lemma BinaryTree(s: string, r: string, left: seq<string>, right: seq<string>)
    requires TreeRefs(left, "id2") && TreeRefs(right, "id3")
    ensures Abstract(Build(TreeMessages(s, r, left, right))) == TreeSummary()
  {
    SiblingsIndexing(s, r, r);
    SiblingsTop(s, r, r);
    TreeFrom(SiblingsMessages(s, r, r), SiblingsIndexed(s, r, r), s, r, left, right);
  }

  lemma BuildTree()
    ensures Abstract(Build([Fresh("s1", "id1"), Message("Re:s1", "id2", ["id1"]), Message("Re:s1", "id3", ["id1"]),
                            Message("Re:s1", "id4", ["id1", "id2"]), Message("Re:s1", "id5", ["id1", "id2"]),
                            Message("Re:s1", "id6", ["id1", "id3"]), Message("Re:s1", "id7", ["id1", "id3"])]))
         == TreeSummary()
  {
    BinaryTree("s1", "Re:s1", ["id1", "id2"], ["id1", "id3"]);
  }

  lemma BuildTreePartialRefs()
    ensures Abstract(Build([Fresh("s1", "id1"), Message("Re:s1", "id2", ["id1"]), Message("Re:s1", "id3", ["id1"]),
                            Message("Re:s1", "id4", ["id2"]), Message("Re:s1", "id5", ["id2"]),
                            Message("Re:s1", "id6", ["id3"]), Message("Re:s1", "id7", ["id3"])]))
         == TreeSummary()
  {
    BinaryTree("s1", "Re:s1", ["id2"], ["id3"]);
  }

  // ---- Two messages referencing each other -------------------------------------------

  function CyclicMessages(s1: string, s2: string): seq<Message> {
    [Message(s1, "id1", ["id2"]), Message(s2, "id2", ["id1"])]
  }

  function CyclicIndexed(s1: string, s2: string): Graph {
    Fill(OrphanReply(Empty(), Message(s1, "id1", ["id2"]), "id2"), 2, Message(s2, "id2", ["id1"]))
  }

  /** The walk up from x, whose parent y has no parent. */
  lemma AncestryTwo(g: Graph, x: nat, y: nat)
    requires Wf(g) && x < |g.nodes| && y < |g.nodes| && 2 <= |g.nodes|
    requires g.nodes[x].parent == Some(y) && g.nodes[y].parent.None?
    ensures Ancestry(g, x, |g.nodes|) == [x, y]
  {
  }

  lemma CyclicIndexing(s1: string, s2: string)
    ensures IndexAll(CyclicMessages(s1, s2)) == CyclicIndexed(s1, s2)
  {
    var m1, m2 := Message(s1, "id1", ["id2"]), Message(s2, "id2", ["id1"]);
    assert CyclicMessages(s1, s2) == [] + [m1] + [m2];
    IndexOrphan([], m1, Empty());
    var g1 := OrphanReply(Empty(), m1, "id2");
    TracedOne(g1, "id1");
    AncestryTwo(g1, 1, 2);
    IndexClosing([] + [m1], m2, g1);
  }


  lemma CyclicForest(s1: string, s2: string)
    ensures Forest(CyclicIndexed(s1, s2))
  {
    CyclicIndexing(s1, s2);
    IndexAllForest(CyclicMessages(s1, s2));
  }

  lemma CyclicNodes(s1: string, s2: string)
    ensures var g := CyclicIndexed(s1, s2);
      && |g.nodes| == 3 && g.nodes[Root].children == []
      && Slot(g, 1, Some("id1"), Some(2), []) && Slot(g, 2, Some("id2"), None, [1])
  {
  }

  lemma CyclicOutcome(g: Graph)
    requires Forest(g) && |g.nodes| == 3 && g.nodes[Root].children == []
    requires Slot(g, 1, Some("id1"), Some(2), []) && Slot(g, 2, Some("id2"), None, [1])
    ensures var l := AttachRoots(g, |g.nodes|);
      && Forest(l) && NoInnerPlaceholders(l) && FreshKeys(l, map[], l.nodes[Root].children)
      && Abstract(SnapshotAll(l, Root, l.nodes[Root].children)) == [Summary(Some("id2"), [Leaf("id1")])]
  {
    AttachSingle(g, 2);
    var l := AttachRoots(g, |g.nodes|);
    OneChild(l, 2, 1, Some("id1"), []);
    OneChild(l, Root, 2, Some("id2"), [Leaf("id1")]);
  }

  /**
    Two messages each referencing the other: the first one processed is linked
    below the placeholder for the second, and when the second arrives its
    reference would close a cycle, so it only fills the placeholder.
  */
  lemma MutualReferences(s1: string, s2: string)
    ensures Abstract(Build(CyclicMessages(s1, s2))) == [Summary(Some("id2"), [Leaf("id1")])]
  {
    var g := CyclicIndexed(s1, s2);
    CyclicIndexing(s1, s2);
    CyclicForest(s1, s2);
    CyclicNodes(s1, s2);
    CyclicOutcome(g);
    QuietPhases(CyclicMessages(s1, s2), AttachRoots(g, |g.nodes|));
  }

  lemma BuildCyclic()
    ensures Abstract(Build([Message("s1", "id1", ["id2"]), Message("s2", "id2", ["id1"])]))
         == [Summary(Some("id2"), [Leaf("id1")])]
  {
    MutualReferences("s1", "s2");
  }

  // ---- Two replies to one message, present or absent ---------------------------------

  function SiblingsMessages(s1: string, s2: string, s3: string): seq<Message> {
    [Fresh(s1, "id1"), Message(s2, "id2", ["id1"]), Message(s3, "id3", ["id1"])]
  }

  function SiblingsIndexed(s1: string, s2: string, s3: string): Graph {
    Reply(OneDeepIndexed(s1, s2), Message(s3, "id3", ["id1"]), 1)
  }

  lemma SiblingsIndexing(s1: string, s2: string, s3: string)
    ensures IndexAll(SiblingsMessages(s1, s2, s3)) == SiblingsIndexed(s1, s2, s3)
  {
    var m3 := Message(s3, "id3", ["id1"]);
    assert SiblingsMessages(s1, s2, s3) == OneDeepMessages(s1, s2) + [m3];
    OneDeepIndexing(s1, s2);
    var g2 := OneDeepIndexed(s1, s2);
    TracedOne(g2, "id1");
    IndexReply(OneDeepMessages(s1, s2), m3, g2, 1);
  }


  lemma SiblingsForest(s1: string, s2: string, s3: string)
    ensures Forest(SiblingsIndexed(s1, s2, s3))
  {
    SiblingsIndexing(s1, s2, s3);
    IndexAllForest(SiblingsMessages(s1, s2, s3));
  }

  lemma SiblingsNodes(s1: string, s2: string, s3: string)
    ensures var g := SiblingsIndexed(s1, s2, s3);
      && |g.nodes| == 4 && g.nodes[Root].children == []
      && Slot(g, 1, Some("id1"), None, [2, 3])
      && Slot(g, 2, Some("id2"), Some(1), []) && Slot(g, 3, Some("id3"), Some(1), [])
  {
    OneDeepNodes(s1, s2);
  }

  lemma SiblingsTop(s1: string, s2: string, s3: string)
    ensures TopThree(SiblingsIndexed(s1, s2, s3))
  {
    SiblingsNodes(s1, s2, s3);
    var g := SiblingsIndexed(s1, s2, s3);
    assert g.index == map[]["id1" := 1]["id2" := 2]["id3" := 3];
  }

  lemma SiblingsOutcome(g: Graph)
    requires Forest(g) && |g.nodes| == 4 && g.nodes[Root].children == []
    requires Slot(g, 1, Some("id1"), None, [2, 3])
    requires Slot(g, 2, Some("id2"), Some(1), []) && Slot(g, 3, Some("id3"), Some(1), [])
    ensures var l := AttachRoots(g, |g.nodes|);
      && Forest(l) && NoInnerPlaceholders(l) && FreshKeys(l, map[], l.nodes[Root].children)
      && Abstract(SnapshotAll(l, Root, l.nodes[Root].children)) == [Summary(Some("id1"), [Leaf("id2"), Leaf("id3")])]
  {
    AttachSingle(g, 1);
    FanShape(AttachRoots(g, |g.nodes|), 1, 2, 3, Some("id1"), "id2", "id3");
  }

  /** Two replies to one message become its children, in order, whatever the subjects. */
  lemma SiblingReplies(s1: string, s2: string, s3: string)
    ensures Abstract(Build(SiblingsMessages(s1, s2, s3))) == [Summary(Some("id1"), [Leaf("id2"), Leaf("id3")])]
  {
    var g := SiblingsIndexed(s1, s2, s3);
    SiblingsIndexing(s1, s2, s3);
    SiblingsForest(s1, s2, s3);
    SiblingsNodes(s1, s2, s3);
    SiblingsOutcome(g);
    QuietPhases(SiblingsMessages(s1, s2, s3), AttachRoots(g, |g.nodes|));
  }

  lemma BuildSiblingsWithRoot()
    ensures Abstract(Build([Fresh("s1", "id1"), Message("s2", "id2", ["id1"]), Message("s3", "id3", ["id1"])]))
         == [Summary(Some("id1"), [Leaf("id2"), Leaf("id3")])]
  {
    SiblingReplies("s1", "s2", "s3");
  }

  function OrphanSiblingsMessages(s2: string, s3: string): seq<Message> {
    [Message(s2, "id2", ["id1"]), Message(s3, "id3", ["id1"])]
  }

  function OrphanSiblingsIndexed(s2: string, s3: string): Graph {
    Reply(OrphanReply(Empty(), Message(s2, "id2", ["id1"]), "id1"), Message(s3, "id3", ["id1"]), 2)
  }

  lemma OrphanSiblingsIndexing(s2: string, s3: string)
    ensures IndexAll(OrphanSiblingsMessages(s2, s3)) == OrphanSiblingsIndexed(s2, s3)
  {
    var m2, m3 := Message(s2, "id2", ["id1"]), Message(s3, "id3", ["id1"]);
    assert OrphanSiblingsMessages(s2, s3) == [] + [m2] + [m3];
    IndexOrphan([], m2, Empty());
    var g1 := OrphanReply(Empty(), m2, "id1");
    TracedOne(g1, "id1");
    IndexReply([] + [m2], m3, g1, 2);
  }


  lemma OrphanSiblingsForest(s2: string, s3: string)
    ensures Forest(OrphanSiblingsIndexed(s2, s3))
  {
    OrphanSiblingsIndexing(s2, s3);
    IndexAllForest(OrphanSiblingsMessages(s2, s3));
  }

  lemma OrphanSiblingsNodes(s2: string, s3: string)
    ensures var g := OrphanSiblingsIndexed(s2, s3);
      && |g.nodes| == 4 && g.nodes[Root].children == []
      && Slot(g, 1, Some("id2"), Some(2), []) && Slot(g, 2, None, None, [1, 3])
      && Slot(g, 3, Some("id3"), Some(2), [])
  {
  }

  lemma OrphanSiblingsOutcome(g: Graph)
    requires Forest(g) && |g.nodes| == 4 && g.nodes[Root].children == []
    requires Slot(g, 1, Some("id2"), Some(2), []) && Slot(g, 2, None, None, [1, 3])
    requires Slot(g, 3, Some("id3"), Some(2), [])
    ensures var l := AttachRoots(g, |g.nodes|);
      && Forest(l) && NoInnerPlaceholders(l) && FreshKeys(l, map[], l.nodes[Root].children)
      && Abstract(SnapshotAll(l, Root, l.nodes[Root].children)) == [Summary(None, [Leaf("id2"), Leaf("id3")])]
  {
    AttachSingle(g, 2);
    FanShape(AttachRoots(g, |g.nodes|), 2, 1, 3, None, "id2", "id3");
  }

  /**
    Two replies to a message that is not there share a placeholder for it; the
    placeholder, at the top level with two children, is kept.
  */
  lemma SiblingsBelowPlaceholder(s2: string, s3: string)
    ensures Abstract(Build(OrphanSiblingsMessages(s2, s3))) == [Summary(None, [Leaf("id2"), Leaf("id3")])]
  {
    var g := OrphanSiblingsIndexed(s2, s3);
    OrphanSiblingsIndexing(s2, s3);
    OrphanSiblingsForest(s2, s3);
    OrphanSiblingsNodes(s2, s3);
    OrphanSiblingsOutcome(g);
    QuietPhases(OrphanSiblingsMessages(s2, s3), AttachRoots(g, |g.nodes|));
  }

  lemma BuildSiblingsWithoutRoot()
    ensures Abstract(Build([Message("Re:s1", "id2", ["id1"]), Message("Re:s2", "id3", ["id1"])]))
         == [Summary(None, [Leaf("id2"), Leaf("id3")])]
  {
    SiblingsBelowPlaceholder("Re:s1", "Re:s2");
  }
}
