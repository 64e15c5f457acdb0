/**
  Messages without references whose subjects are unrelated: whatever their
  number, ids and subjects, the builder returns one single-message thread per
  message, in the order the messages came.
*/
module Separate {
  import opened Containers
  import opened Linking
  import opened Subjects
  import opened Pruning
  import opened Grouping
  import opened Replies
  import opened Threads
  import opened Scenarios

  /** The i-th message: no references. */
  function TopMessage(ids: seq<string>, subjects: seq<string>, i: nat): Message
    requires i < |ids| == |subjects|
  {
    Message(subjects[i], ids[i], [])
  }

  /** Messages with the given ids and subjects and no references, in order. */
  function TopMessages(ids: seq<string>, subjects: seq<string>): (msgs: seq<Message>)
    requires |ids| == |subjects|
    ensures |msgs| == |ids|
  {
    seq(|ids|, i requires 0 <= i < |ids| => TopMessage(ids, subjects, i))
  }

  /** The arena after indexing them: message i alone in container i + 1. */
  function TopArena(ids: seq<string>, subjects: seq<string>): (g: Graph)
    requires |ids| == |subjects|
    ensures Wf(g) && |g.nodes| == |ids| + 1
    decreases |ids|
  {
    var n := |ids|;
    if n == 0 then Empty()
    else Enter(TopArena(ids[..n - 1], subjects[..n - 1]), TopMessage(ids, subjects, n - 1))
  }

  /** The containers of that arena: an empty root and one parentless leaf per message. */
  lemma {:induction false} TopNodes(ids: seq<string>, subjects: seq<string>)
    requires |ids| == |subjects|
    ensures var g := TopArena(ids, subjects);
      && g.nodes[Root] == Container(None, None, [])
      && forall x :: 0 < x < |g.nodes| ==> g.nodes[x] == Container(Some(TopMessage(ids, subjects, x - 1)), None, [])
    decreases |ids|
  {
    var n := |ids|;
    if n > 0 {
      var ids', subjects' := ids[..n - 1], subjects[..n - 1];
      TopNodes(ids', subjects');
      var g := TopArena(ids, subjects);
      forall x | 0 < x < n
        ensures g.nodes[x] == Container(Some(TopMessage(ids, subjects, x - 1)), None, [])
      {
        assert TopMessage(ids', subjects', x - 1) == TopMessage(ids, subjects, x - 1);
      }
    }
  }

  /** The arena indexes exactly the ids, in order. */
  lemma {:induction false} TopIndex(ids: seq<string>, subjects: seq<string>)
    requires |ids| == |subjects| && NoDup(ids)
    ensures IndexesInOrder(TopArena(ids, subjects).index, ids)
    decreases |ids|
  {
    var n := |ids|;
    if n > 0 {
      var ids', subjects' := ids[..n - 1], subjects[..n - 1];
      assert NoDup(ids');
      TopIndex(ids', subjects');
      IndexesInOrderNext(TopArena(ids', subjects').index, ids);
    }
  }

  /** Indexing the messages one by one builds that arena. */
  lemma {:induction false} TopIndexing(ids: seq<string>, subjects: seq<string>)
    requires |ids| == |subjects| && NoDup(ids)
    ensures IndexAll(TopMessages(ids, subjects)) == TopArena(ids, subjects)
    decreases |ids|
  {
    var n := |ids|;
    if n > 0 {
      var ids', subjects' := ids[..n - 1], subjects[..n - 1];
      var m := TopMessage(ids, subjects, n - 1);
      assert TopMessages(ids, subjects) == TopMessages(ids', subjects') + [m];
      assert NoDup(ids');
      TopIndexing(ids', subjects');
      TopIndex(ids', subjects');
      IndexFresh(TopMessages(ids', subjects'), m, TopArena(ids', subjects'));
    }
  }

  /** No two subjects share a non-empty normal form. */
  ghost predicate Unrelated(subjects: seq<string>) {
    forall i, j :: 0 <= i < j < |subjects| && Normalize(subjects[i]) != [] ==>
      Normalize(subjects[i]) != Normalize(subjects[j])
  }

  /** One single-message thread per id, in order. */
  function Leaves(ids: seq<string>): (r: seq<Summary>)
    ensures |r| == |ids| && forall i :: 0 <= i < |ids| ==> r[i] == Summary(Some(ids[i]), [])
  {
    seq(|ids|, i requires 0 <= i < |ids| => Summary(Some(ids[i]), []))
  }

  /** l after root attachment: every message a childless top-level container, in order. */
  ghost predicate AllTop(l: Graph, ids: seq<string>, subjects: seq<string>)
    requires |ids| == |subjects|
  {
    Forest(l) && TopShape(l, ids, subjects)
  }

  /** The containers of l: the root listing 1..n in order, each a childless container of one message. */
  ghost predicate TopShape(l: Graph, ids: seq<string>, subjects: seq<string>)
    requires |ids| == |subjects|
  {
    && |l.nodes| == |ids| + 1 && l.nodes[Root].children == Handles(|ids|)
    && forall x :: 0 < x < |l.nodes| ==>
         l.nodes[x] == Container(Some(TopMessage(ids, subjects, x - 1)), Some(Root), [])
  }

  /** The projection of the top-level containers from the j-th on. */
  lemma {:induction false} LeavesFrom(l: Graph, ids: seq<string>, subjects: seq<string>, j: nat)
    requires |ids| == |subjects| && AllTop(l, ids, subjects) && j <= |ids|
    ensures Abstract(SnapshotAll(l, Root, l.nodes[Root].children[j..])) == Leaves(ids[j..])
    decreases |ids| - j
  {
    var cs := l.nodes[Root].children[j..];
    if j < |ids| {
      assert cs[0] == j + 1 && cs[1..] == l.nodes[Root].children[j + 1..];
      AbstractStep(l, Root, cs);
      LeavesFrom(l, ids, subjects, j + 1);
      assert SnapshotAll(l, j + 1, []) == [];
      assert Leaves(ids[j..]) == [Summary(Some(ids[j]), [])] + Leaves(ids[j + 1..]);
    }
  }

  /** Unrelated subjects give pairwise different grouping keys. */
  lemma TopKeys(l: Graph, ids: seq<string>, subjects: seq<string>)
    requires |ids| == |subjects| && Wf(l) && TopShape(l, ids, subjects) && Unrelated(subjects)
    ensures FreshKeys(l, map[], l.nodes[Root].children)
  {
    TopKeysAre(l, ids, subjects);
  }

  /** The grouping key of the i-th top-level container is the normal form of the i-th subject. */
  lemma TopKeysAre(l: Graph, ids: seq<string>, subjects: seq<string>)
    requires |ids| == |subjects| && Wf(l) && TopShape(l, ids, subjects)
    ensures forall i :: 0 <= i < |ids| ==> Key(l, l.nodes[Root].children[i]) == Normalize(subjects[i])
  {
    forall i | 0 <= i < |ids|
      ensures Key(l, l.nodes[Root].children[i]) == Normalize(subjects[i])
    {
      TopKey(l, ids, subjects, i);
    }
  }

  /** The grouping key of the i-th top-level container. */
  lemma TopKey(l: Graph, ids: seq<string>, subjects: seq<string>, i: nat)
    requires |ids| == |subjects| && Wf(l) && TopShape(l, ids, subjects) && i < |ids|
    ensures Key(l, l.nodes[Root].children[i]) == Normalize(subjects[i])
  {
    assert l.nodes[Root].children[i] == i + 1;
    assert l.nodes[i + 1].message == Some(TopMessage(ids, subjects, i));
    assert Representative(l, i + 1) == Some(TopMessage(ids, subjects, i));
  }

  /** Root attachment puts every message at the top; grouping and pruning leave them there. */
  lemma TopOutcome(g: Graph, ids: seq<string>, subjects: seq<string>)
    requires |ids| == |subjects| && Unrelated(subjects) && Forest(g) && |g.nodes| == |ids| + 1
    requires g.nodes[Root] == Container(None, None, [])
    requires forall x :: 0 < x < |g.nodes| ==> g.nodes[x] == Container(Some(TopMessage(ids, subjects, x - 1)), None, [])
    ensures var l := AttachRoots(g, |g.nodes|);
      && Forest(l) && NoInnerPlaceholders(l) && FreshKeys(l, map[], l.nodes[Root].children)
      && Abstract(SnapshotAll(l, Root, l.nodes[Root].children)) == Leaves(ids)
  {
    AttachEvery(g);
    var l := AttachRoots(g, |g.nodes|);
    assert AllTop(l, ids, subjects);
    TopKeys(l, ids, subjects);
    LeavesFrom(l, ids, subjects, 0);
    assert l.nodes[Root].children[0..] == l.nodes[Root].children && ids[0..] == ids;
  }

  /**
    Messages that neither reference each other nor share a normalised subject
    stay separate threads, in the order they came.
  */
  lemma SeparateThreads(ids: seq<string>, subjects: seq<string>)
    requires |ids| == |subjects| && NoDup(ids) && Unrelated(subjects)
    ensures Abstract(Build(TopMessages(ids, subjects))) == Leaves(ids)
  {
    var msgs := TopMessages(ids, subjects);
    TopIndexing(ids, subjects);
    TopNodes(ids, subjects);
    IndexAllForest(msgs);
    var g := TopArena(ids, subjects);
    TopOutcome(g, ids, subjects);
    QuietPhases(msgs, AttachRoots(g, |g.nodes|));
  }

  /** Three subjects whose normal forms differ pairwise are unrelated. */
  lemma UnrelatedThree(a: string, b: string, c: string)
    requires Normalize(a) != Normalize(b) && Normalize(a) != Normalize(c) && Normalize(b) != Normalize(c)
    ensures Unrelated([a, b, c])
  {
    var ss := [a, b, c];
    assert ss[0] == a && ss[1] == b && ss[2] == c;
    forall i, j | 0 <= i < j < |ss| && Normalize(ss[i]) != []
      ensures Normalize(ss[i]) != Normalize(ss[j])
    {
      if i == 0 && j == 1 {
      } else if i == 0 {
        assert j == 2;
      } else {
        assert i == 1 && j == 2;
      }
    }
  }

  /** "s1", "s2" and "s3" are their own normal forms, and differ. */
  lemma FlatSubjects()
    ensures Unrelated(["s1", "s2", "s3"])
  {
    NormalizeFixed("s1");
    NormalizeFixed("s2");
    NormalizeFixed("s3");
    assert "s1"[1] != "s2"[1] && "s1"[1] != "s3"[1] && "s2"[1] != "s3"[1];
    UnrelatedThree("s1", "s2", "s3");
  }

  /** Three messages with different subjects and no references. */
  lemma BuildFlat()
    ensures Abstract(Build([Fresh("s1", "id1"), Fresh("s2", "id2"), Fresh("s3", "id3")]))
         == [Leaf("id1"), Leaf("id2"), Leaf("id3")]
  {
    var ids, subjects := ["id1", "id2", "id3"], ["s1", "s2", "s3"];
    IdsDistinct();
    FlatSubjects();
    assert TopMessages(ids, subjects) == [Fresh("s1", "id1"), Fresh("s2", "id2"), Fresh("s3", "id3")];
    SeparateThreads(ids, subjects);
  }
}
