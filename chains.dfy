/**
  Chains of replies: a first message without references, then messages each
  naming only the one before it. Whatever the subjects, the builder returns a
  single thread in which every message is the only child of the one before it.
*/
module Chains {
  import opened Containers
  import opened Linking
  import opened Pruning
  import opened Grouping
  import opened Replies
  import opened Threads
  import opened Scenarios

  /** The i-th message of a chain: the first names nothing, every later one names the one before it. */
  function ChainMessage(ids: seq<string>, subjects: seq<string>, i: nat): Message
    requires i < |ids| == |subjects|
  {
    Message(subjects[i], ids[i], if i == 0 then [] else [ids[i - 1]])
  }

  /** The messages of a chain with the given ids and subjects, in order. */
  function ChainMessages(ids: seq<string>, subjects: seq<string>): (msgs: seq<Message>)
    requires |ids| == |subjects|
    ensures |msgs| == |ids|
  {
    seq(|ids|, i requires 0 <= i < |ids| => ChainMessage(ids, subjects, i))
  }

  /** The arena after indexing a chain: message i in container i + 1, below container i. */
  function ChainArena(ids: seq<string>, subjects: seq<string>): (g: Graph)
    requires 0 < |ids| == |subjects|
    ensures Wf(g) && |g.nodes| == |ids| + 1
    decreases |ids|
  {
    var n := |ids|;
    if n == 1 then Enter(Empty(), ChainMessage(ids, subjects, 0))
    else Reply(ChainArena(ids[..n - 1], subjects[..n - 1]), ChainMessage(ids, subjects, n - 1), n - 1)
  }

  /** The container x of a chain's arena: message x - 1, the container above, and the one below. */
  function ChainNode(ids: seq<string>, subjects: seq<string>, x: nat): Container
    requires 0 < x <= |ids| == |subjects|
  {
    Container(Some(ChainMessage(ids, subjects, x - 1)), if x == 1 then None else Some(x - 1),
              if x < |ids| then [x + 1] else [])
  }

  /** The arena of a chain indexes exactly its ids, message i under container i + 1. */
  lemma {:induction false} ChainIndex(ids: seq<string>, subjects: seq<string>)
    requires 0 < |ids| == |subjects| && NoDup(ids)
    ensures IndexesInOrder(ChainArena(ids, subjects).index, ids)
    decreases |ids|
  {
    var n := |ids|;
    var g := ChainArena(ids, subjects);
    if n == 1 {
      assert g.index == map[][ids[0] := 1];
      assert IndexesInOrder(map[], ids[..0]);
      IndexesInOrderNext(map[], ids);
    } else {
      var ids', subjects' := ids[..n - 1], subjects[..n - 1];
      assert NoDup(ids');
      ChainIndex(ids', subjects');
      var g' := ChainArena(ids', subjects');
      assert g.index == g'.index[ids[n - 1] := n];
      IndexesInOrderNext(g'.index, ids);
    }
  }

  /** The containers of a chain's arena: an empty root, then the messages, each below the one before. */
  lemma {:induction false} ChainNodes(ids: seq<string>, subjects: seq<string>)
    requires 0 < |ids| == |subjects|
    ensures var g := ChainArena(ids, subjects);
      && g.nodes[Root] == Container(None, None, [])
      && (forall x :: 0 < x < |g.nodes| ==> g.nodes[x] == ChainNode(ids, subjects, x))
    decreases |ids|
  {
    var n := |ids|;
    if n > 1 {
      var ids', subjects' := ids[..n - 1], subjects[..n - 1];
      ChainNodes(ids', subjects');
      var g' := ChainArena(ids', subjects');
      ChainArenaStep(ids, subjects);
      var m := ChainMessage(ids, subjects, n - 1);
      forall x | 0 < x < n + 1
        ensures Reply(g', m, n - 1).nodes[x] == ChainNode(ids, subjects, x)
      {
        ChainNodeGrown(g', ids, subjects, x);
      }
    }
  }

  /** Container x of a chain's arena, from the arena g' of the chain one message shorter. */
  lemma ChainNodeGrown(g': Graph, ids: seq<string>, subjects: seq<string>, x: nat)
    requires 1 < |ids| == |subjects| && 0 < x <= |ids| && Wf(g') && |g'.nodes| == |ids|
    requires x < |ids| ==> g'.nodes[x] == ChainNode(ids[..|ids| - 1], subjects[..|ids| - 1], x)
    ensures Reply(g', ChainMessage(ids, subjects, |ids| - 1), |ids| - 1).nodes[x] == ChainNode(ids, subjects, x)
  {
    var n := |ids|;
    var g := Reply(g', ChainMessage(ids, subjects, n - 1), n - 1);
    if x < n {
      assert ChainMessage(ids[..n - 1], subjects[..n - 1], x - 1) == ChainMessage(ids, subjects, x - 1);
    }
  }

  lemma ChainArenaStep(ids: seq<string>, subjects: seq<string>)
    requires 1 < |ids| == |subjects|
    ensures var n := |ids|;
      ChainArena(ids, subjects) == Reply(ChainArena(ids[..n - 1], subjects[..n - 1]), ChainMessage(ids, subjects, n - 1), n - 1)
  {
  }

  /** Indexing a chain message by message builds its arena. */
  lemma {:induction false} ChainIndexing(ids: seq<string>, subjects: seq<string>)
    requires 0 < |ids| == |subjects| && NoDup(ids)
    ensures IndexAll(ChainMessages(ids, subjects)) == ChainArena(ids, subjects)
    decreases |ids|
  {
    var n := |ids|;
    var m := ChainMessage(ids, subjects, n - 1);
    if n == 1 {
      assert ChainMessages(ids, subjects) == [] + [m];
      IndexFresh([], m, Empty());
    } else {
      var ids', subjects' := ids[..n - 1], subjects[..n - 1];
      assert ChainMessages(ids, subjects) == ChainMessages(ids', subjects') + [m];
      ChainIndexing(ids', subjects');
      ChainIndex(ids', subjects');
      var g := ChainArena(ids', subjects');
      InOrderLast(g.index, ids);
      IndexParent(ChainMessages(ids', subjects'), m, g, g.index.Keys, ids[n - 2], n - 1);
    }
  }

  /** Below a chain indexed in order, the next id is new and the one before it sits at its position. */
  lemma InOrderLast(index: map<string, nat>, ids: seq<string>)
    requires 2 <= |ids| && NoDup(ids) && IndexesInOrder(index, ids[..|ids| - 1])
    ensures ids[|ids| - 1] !in index && ids[|ids| - 2] in index && index[ids[|ids| - 2]] == |ids| - 1
  {
    var ids' := ids[..|ids| - 1];
    assert ids'[|ids| - 2] == ids[|ids| - 2];
    forall i | 0 <= i < |ids'|
      ensures ids'[i] != ids[|ids| - 1]
    {
      assert ids'[i] == ids[i];
    }
  }

  /** The projection of a chain: each id the only child of the one before it. */
  function Nest(ids: seq<string>): (r: seq<Summary>)
    ensures |r| == if ids == [] then 0 else 1
    decreases |ids|
  {
    if ids == [] then [] else [Summary(Some(ids[0]), Nest(ids[1..]))]
  }

  /** Every container of l from 1 on holds the chain's message and has the next container as its only child. */
  ghost predicate ChainLinks(l: Graph, ids: seq<string>) {
    |l.nodes| == |ids| + 1 &&
    forall y :: 0 < y <= |ids| ==>
      IdOf(l.nodes[y].message) == Some(ids[y - 1]) && l.nodes[y].children == (if y < |ids| then [y + 1] else [])
  }

  /** The projection below container x of a chain is the rest of the chain. */
  lemma {:induction false} ChainBelow(l: Graph, ids: seq<string>, x: nat)
    requires Forest(l) && ChainLinks(l, ids) && 0 < x <= |ids|
    ensures Abstract(SnapshotAll(l, x, l.nodes[x].children)) == Nest(ids[x..])
    decreases |ids| - x
  {
    if x == |ids| {
      assert ids[x..] == [];
    } else {
      ChainBelow(l, ids, x + 1);
      OneChild(l, x, x + 1, Some(ids[x]), Nest(ids[x + 1..]));
      assert ids[x..][1..] == ids[x + 1..];
    }
  }

  /** The projection of the root set of a chain attached to the root. */
  lemma ChainTop(l: Graph, ids: seq<string>)
    requires Forest(l) && ChainLinks(l, ids) && 0 < |ids| && l.nodes[Root].children == [1]
    ensures Abstract(SnapshotAll(l, Root, l.nodes[Root].children)) == Nest(ids)
  {
    ChainBelow(l, ids, 1);
    OneChild(l, Root, 1, Some(ids[0]), Nest(ids[1..]));
    assert ids[0..] == ids;
  }

  /** Giving the top container of a chain's arena a parent keeps the links below it. */
  lemma ChainKept(g: Graph, l: Graph, ids: seq<string>, subjects: seq<string>)
    requires 0 < |ids| == |subjects| && |g.nodes| == |l.nodes| == |ids| + 1
    requires forall x :: 0 < x < |g.nodes| ==> g.nodes[x] == ChainNode(ids, subjects, x)
    requires l.nodes[1] == g.nodes[1].(parent := Some(Root))
    requires forall x :: 1 < x < |g.nodes| ==> l.nodes[x] == g.nodes[x]
    ensures ChainLinks(l, ids)
  {
  }

  /** Root attachment makes a chain's arena one thread, projected as the chain. */
  lemma ChainOutcome(g: Graph, ids: seq<string>, subjects: seq<string>)
    requires 0 < |ids| == |subjects| && Forest(g) && |g.nodes| == |ids| + 1
    requires g.nodes[Root] == Container(None, None, [])
    requires forall x :: 0 < x < |g.nodes| ==> g.nodes[x] == ChainNode(ids, subjects, x)
    ensures var l := AttachRoots(g, |g.nodes|);
      && Forest(l) && NoInnerPlaceholders(l) && FreshKeys(l, map[], l.nodes[Root].children)
      && Abstract(SnapshotAll(l, Root, l.nodes[Root].children)) == Nest(ids)
  {
    assert forall x :: 0 < x < |g.nodes| && x != 1 ==> g.nodes[x].parent.Some? && g.nodes[x].message.Some?;
    AttachSingle(g, 1);
    var l := AttachRoots(g, |g.nodes|);
    ChainKept(g, l, ids, subjects);
    ChainTop(l, ids);
  }

  /**
    Whatever the subjects, a chain of replies each naming only its parent is one
    thread, each message the only child of the one before it.
  */
  lemma ReplyChain(ids: seq<string>, subjects: seq<string>)
    requires 0 < |ids| == |subjects| && NoDup(ids)
    ensures Abstract(Build(ChainMessages(ids, subjects))) == Nest(ids)
  {
    var msgs := ChainMessages(ids, subjects);
    ChainIndexing(ids, subjects);
    ChainNodes(ids, subjects);
    var g := ChainArena(ids, subjects);
    IndexAllForest(msgs);
    ChainOutcome(g, ids, subjects);
    QuietPhases(msgs, AttachRoots(g, |g.nodes|));
  }

  /** Three messages, each naming its parent. */
  lemma BuildTwoDeep()
    ensures Abstract(Build([Fresh("s1", "id1"), Message("s2", "id2", ["id1"]), Message("s3", "id3", ["id2"])]))
         == [Summary(Some("id1"), [Summary(Some("id2"), [Leaf("id3")])])]
  {
    var ids, subjects := ["id1", "id2", "id3"], ["s1", "s2", "s3"];
    IdsDistinct();
    assert ChainMessages(ids, subjects)
        == [Fresh("s1", "id1"), Message("s2", "id2", ["id1"]), Message("s3", "id3", ["id2"])];
    assert ids[1..][1..] == ["id3"] && ids[1..][1..][1..] == [];
    ReplyChain(ids, subjects);
  }

  /** Four messages, each naming its parent, the replies with a marked subject. */
  lemma BuildFourDeep()
    ensures Abstract(Build([Fresh("s1", "id1"), Message("Re:s1", "id2", ["id1"]),
                            Message("Re:s1", "id3", ["id2"]), Message("Re:s1", "id4", ["id3"])]))
         == [Summary(Some("id1"), [Summary(Some("id2"), [Summary(Some("id3"), [Leaf("id4")])])])]
  {
    var ids, subjects := ["id1", "id2", "id3", "id4"], ["s1", "Re:s1", "Re:s1", "Re:s1"];
    IdsDistinct();
    assert ChainMessages(ids, subjects)
        == [Fresh("s1", "id1"), Message("Re:s1", "id2", ["id1"]),
            Message("Re:s1", "id3", ["id2"]), Message("Re:s1", "id4", ["id3"])];
    assert ids[1..][1..] == ["id3", "id4"] && ids[1..][1..][1..] == ["id4"] && ids[1..][1..][1..][1..] == [];
    ReplyChain(ids, subjects);
  }
}
