/**
  Every message comes out once.

  Read in pre-order, the projection of the built forest lists the id of every
  input message exactly once (for a repeated id, the message given last) and no
  other id; placeholders show up as None. The proof follows the phases: each
  message's container is registered under its id, it has a parent once the roots
  are attached, pruning and grouping never cut it loose, and every container
  left without a parent other than the root container is empty. So the walk up
  from the message's container reaches the root container, the snapshot lists
  every container below the root container once, and no other container holds a
  message with that id.
*/
module Coverage {
  import opened Containers
  import opened Linking
  import opened Pruning
  import opened Pruned
  import opened Grouping
  import opened Merging
  import opened Threads

  // ---- Reading the projection ---------------------------------------------------

  /** The ids of a projection in pre-order: each record, then its children, then the records after it. */
  function Flatten(ss: seq<Summary>): (r: seq<Option<string>>)
    ensures ss != [] ==> r != [] && r[0] == ss[0].id
    decreases ss
  {
    if ss == [] then [] else [ss[0].id] + Flatten(ss[0].children) + Flatten(ss[1..])
  }

  /** The ids of the messages the containers hs hold, None for a placeholder. */
  function Ids(g: Graph, hs: seq<nat>): (r: seq<Option<string>>)
    requires forall i :: 0 <= i < |hs| ==> hs[i] < |g.nodes|
    ensures |r| == |hs| && forall i :: 0 <= i < |hs| ==> r[i] == IdOf(g.nodes[hs[i]].message)
  {
    if hs == [] then [] else [IdOf(g.nodes[hs[0]].message)] + Ids(g, hs[1..])
  }

  /** The containers of the tree below x, x first, in the order the snapshot lists them. */
  function Preorder(g: Graph, x: nat): (r: seq<nat>)
    requires Forest(g) && x < |g.nodes|
    ensures r != [] && r[0] == x && forall i :: 0 <= i < |r| ==> r[i] < |g.nodes|
    decreases |g.nodes| - Depth(g, x), 1
  {
    [x] + PreorderAll(g, x, g.nodes[x].children)
  }

  /** The containers of the trees below cs, children of x, in order. */
  function PreorderAll(g: Graph, x: nat, cs: seq<nat>): (r: seq<nat>)
    requires Forest(g) && x < |g.nodes| && forall c :: c in cs ==> c in g.nodes[x].children
    ensures forall i :: 0 <= i < |r| ==> r[i] < |g.nodes|
    decreases |g.nodes| - Depth(g, x), 0, |cs|
  {
    if cs == [] then []
    else
      assert cs[0] in cs && forall c :: c in cs[1..] ==> c in cs;
      ChildDepth(g, x, cs[0]);
      Preorder(g, cs[0]) + PreorderAll(g, x, cs[1..])
  }

  lemma {:induction false} IdsConcat(g: Graph, a: seq<nat>, b: seq<nat>)
    requires (forall i :: 0 <= i < |a| ==> a[i] < |g.nodes|) && forall i :: 0 <= i < |b| ==> b[i] < |g.nodes|
    ensures Ids(g, a + b) == Ids(g, a) + Ids(g, b)
  {
    if a == [] {
      assert a + b == b;
    } else {
      var ab := a + b;
      assert ab[0] == a[0] && ab[1..] == a[1..] + b;
      IdsConcat(g, a[1..], b);
      assert Ids(g, ab) == [IdOf(g.nodes[a[0]].message)] + Ids(g, a[1..] + b);
    }
  }

  /** Reading the projection of the snapshot below cs in pre-order gives the ids of the containers in pre-order. */
  lemma {:induction false} FlattenSnapshot(g: Graph, x: nat, cs: seq<nat>)
    requires Forest(g) && x < |g.nodes| && forall c :: c in cs ==> c in g.nodes[x].children
    ensures Flatten(Abstract(SnapshotAll(g, x, cs))) == Ids(g, PreorderAll(g, x, cs))
    decreases |g.nodes| - Depth(g, x), |cs|
  {
    if cs != [] {
      var c0 := cs[0];
      assert c0 in cs && forall c :: c in cs[1..] ==> c in cs;
      ChildDepth(g, x, c0);
      assert ContainerWf(g.nodes[c0], |g.nodes|);
      var kids := g.nodes[c0].children;
      FlattenSnapshot(g, c0, kids);
      FlattenSnapshot(g, x, cs[1..]);
      SnapshotCons(g, x, cs);
      PreorderCons(g, x, cs);
    }
  }

  /** The projection of the snapshot below cs, read in pre-order: the first tree, then the rest. */
  lemma SnapshotCons(g: Graph, x: nat, cs: seq<nat>)
    requires Forest(g) && x < |g.nodes| && cs != [] && forall c :: c in cs ==> c in g.nodes[x].children
    ensures cs[0] < |g.nodes| && (forall c :: c in cs[1..] ==> c in g.nodes[x].children)
    ensures forall c :: c in g.nodes[cs[0]].children ==> c in g.nodes[cs[0]].children
    ensures Flatten(Abstract(SnapshotAll(g, x, cs))) ==
      [IdOf(g.nodes[cs[0]].message)] + Flatten(Abstract(SnapshotAll(g, cs[0], g.nodes[cs[0]].children)))
        + Flatten(Abstract(SnapshotAll(g, x, cs[1..])))
  {
    assert cs[0] in cs && forall c :: c in cs[1..] ==> c in cs;
    ChildDepth(g, x, cs[0]);
    var t := Snapshot(g, cs[0]);
    var rest := SnapshotAll(g, x, cs[1..]);
    assert SnapshotAll(g, x, cs) == [t] + rest;
    AbstractCons(t, rest);
    FlattenCons(Summary(IdOf(t.message), Abstract(t.children)), Abstract(rest));
  }

  lemma AbstractCons(t: Thread, ts: seq<Thread>)
    ensures Abstract([t] + ts) == [Summary(IdOf(t.message), Abstract(t.children))] + Abstract(ts)
  {
    assert ([t] + ts)[1..] == ts;
  }

  lemma FlattenCons(s: Summary, ss: seq<Summary>)
    ensures Flatten([s] + ss) == [s.id] + Flatten(s.children) + Flatten(ss)
  {
    assert ([s] + ss)[1..] == ss;
  }

  /** The ids of the pre-order below cs: the first container, the trees below it, then the rest. */
  lemma PreorderCons(g: Graph, x: nat, cs: seq<nat>)
    requires Forest(g) && x < |g.nodes| && cs != [] && forall c :: c in cs ==> c in g.nodes[x].children
    ensures cs[0] < |g.nodes| && (forall c :: c in cs[1..] ==> c in g.nodes[x].children)
    ensures Ids(g, PreorderAll(g, x, cs)) ==
      [IdOf(g.nodes[cs[0]].message)] + Ids(g, PreorderAll(g, cs[0], g.nodes[cs[0]].children))
        + Ids(g, PreorderAll(g, x, cs[1..]))
  {
    assert cs[0] in cs && forall c :: c in cs[1..] ==> c in cs;
    ChildDepth(g, x, cs[0]);
    var a := PreorderAll(g, cs[0], g.nodes[cs[0]].children);
    var b := PreorderAll(g, x, cs[1..]);
    assert PreorderAll(g, x, cs) == [cs[0]] + (a + b);
    IdsThree(g, cs[0], a, b);
  }

  /** The ids of a container followed by two runs of containers. */
  lemma IdsThree(g: Graph, c: nat, a: seq<nat>, b: seq<nat>)
    requires c < |g.nodes| && (forall i :: 0 <= i < |a| ==> a[i] < |g.nodes|) && forall i :: 0 <= i < |b| ==> b[i] < |g.nodes|
    ensures Ids(g, [c] + (a + b)) == [IdOf(g.nodes[c].message)] + Ids(g, a) + Ids(g, b)
  {
    IdsConcat(g, a, b);
    assert ([c] + (a + b))[1..] == a + b;
  }

  // ---- What the pre-order lists -------------------------------------------------

  /** The parent of a container on a walk up is on that walk. */
  lemma AboveChild(g: Graph, x: nat, c: nat, y: nat)
    requires Forest(g) && x < |g.nodes| && c in g.nodes[x].children && y < |g.nodes|
    requires c in Ancestry(g, y, |g.nodes|)
    ensures x in Ancestry(g, y, |g.nodes|)
  {
    var path := Ancestry(g, y, |g.nodes|);
    var j :| 0 <= j < |path| && path[j] == c;
    assert ContainerWf(g.nodes[x], |g.nodes|);
    NextOnChain(g, path, j, x);
  }

  /** On a walk up that ends at a parentless container, the parent of a container on it comes next. */
  lemma NextOnChain(g: Graph, path: seq<nat>, j: nat, x: nat)
    requires IsChain(g, path) && EndsAtTop(g, path) && j < |path| && g.nodes[path[j]].parent == Some(x)
    ensures x in path
  {
    assert j + 1 < |path|;
    assert path[j + 1] == x;
  }

  /** Everything the pre-order below x lists lies below x. */
  lemma {:induction false} InPreorder(g: Graph, x: nat, y: nat)
    requires Forest(g) && x < |g.nodes| && y in Preorder(g, x)
    ensures y < |g.nodes| && x in Ancestry(g, y, |g.nodes|)
    decreases |g.nodes| - Depth(g, x), 1
  {
    if y != x {
      assert ContainerWf(g.nodes[x], |g.nodes|);
      var c := InPreorderAll(g, x, g.nodes[x].children, y);
      AboveChild(g, x, c, y);
    }
  }

  /** Everything the pre-order below cs lists lies below one of cs. */
  lemma {:induction false} InPreorderAll(g: Graph, x: nat, cs: seq<nat>, y: nat) returns (c: nat)
    requires Forest(g) && x < |g.nodes| && (forall c :: c in cs ==> c in g.nodes[x].children)
    requires y in PreorderAll(g, x, cs)
    ensures y < |g.nodes| && c in cs && c in Ancestry(g, y, |g.nodes|)
    decreases |g.nodes| - Depth(g, x), 0, |cs|
  {
    assert cs[0] in cs && forall c :: c in cs[1..] ==> c in cs;
    ChildDepth(g, x, cs[0]);
    if y in Preorder(g, cs[0]) {
      InPreorder(g, cs[0], y);
      c := cs[0];
    } else {
      c := InPreorderAll(g, x, cs[1..], y);
    }
  }

  /** The pre-order below one of cs is part of the pre-order below cs. */
  lemma {:induction false} SubtreeInAll(g: Graph, x: nat, cs: seq<nat>, c: nat, y: nat)
    requires Forest(g) && x < |g.nodes| && (forall c :: c in cs ==> c in g.nodes[x].children)
    requires c in cs && c < |g.nodes| && y in Preorder(g, c)
    ensures y in PreorderAll(g, x, cs)
    decreases |cs|
  {
    assert cs[0] in cs && forall c :: c in cs[1..] ==> c in cs;
    if c != cs[0] {
      SubtreeInAll(g, x, cs[1..], c, y);
    }
  }

  /** Everything below x is listed by the pre-order below x. */
  lemma {:induction false} ReachedInPreorder(g: Graph, x: nat, y: nat)
    requires Forest(g) && x < |g.nodes| && y < |g.nodes| && x in Ancestry(g, y, |g.nodes|)
    ensures y in Preorder(g, x)
    decreases |g.nodes| - Depth(g, x)
  {
    if y != x {
      var c := ChildOnPath(g, y, x);
      ChildDepth(g, x, c);
      ReachedInPreorder(g, c, y);
      assert ContainerWf(g.nodes[x], |g.nodes|);
      SubtreeInAll(g, x, g.nodes[x].children, c, y);
    }
  }

  lemma NoDupConcat(a: seq<nat>, b: seq<nat>)
    requires NoDup(a) && NoDup(b) && forall y :: y in a ==> y !in b
    ensures NoDup(a + b)
  {
    var s := a + b;
    forall i, j | 0 <= i < j < |s|
      ensures s[i] != s[j]
    {
      if i < |a| && j >= |a| {
        assert s[i] in a && s[j] in b;
      }
    }
  }

  /** The pre-order below x lists no container twice. */
  lemma {:induction false} PreorderNoDup(g: Graph, x: nat)
    requires Forest(g) && x < |g.nodes|
    ensures NoDup(Preorder(g, x))
    decreases |g.nodes| - Depth(g, x), 1
  {
    var kids := g.nodes[x].children;
    assert ContainerWf(g.nodes[x], |g.nodes|);
    PreorderAllNoDup(g, x, kids);
    var rest := PreorderAll(g, x, kids);
    forall y | y in [x]
      ensures y !in rest
    {
      if x in rest {
        var c := InPreorderAll(g, x, kids, x);
        ChildNotAbove(g, x, c);
      }
    }
    NoDupConcat([x], rest);
  }

  /** The pre-order below cs, children of x without repeats, lists no container twice. */
  lemma {:induction false} PreorderAllNoDup(g: Graph, x: nat, cs: seq<nat>)
    requires Forest(g) && x < |g.nodes| && (forall c :: c in cs ==> c in g.nodes[x].children) && NoDup(cs)
    ensures NoDup(PreorderAll(g, x, cs))
    decreases |g.nodes| - Depth(g, x), 0, |cs|
  {
    if cs != [] {
      var c0 := cs[0];
      assert c0 in cs && forall c :: c in cs[1..] ==> c in cs;
      ChildDepth(g, x, c0);
      PreorderNoDup(g, c0);
      PreorderAllNoDup(g, x, cs[1..]);
      SubtreesApart(g, x, cs);
      NoDupConcat(Preorder(g, c0), PreorderAll(g, x, cs[1..]));
    }
  }

  /** The tree below the first of cs shares no container with the trees below the rest. */
  lemma SubtreesApart(g: Graph, x: nat, cs: seq<nat>)
    requires Forest(g) && x < |g.nodes| && cs != [] && (forall c :: c in cs ==> c in g.nodes[x].children) && NoDup(cs)
    ensures cs[0] < |g.nodes| && forall c :: c in cs[1..] ==> c in g.nodes[x].children
    ensures forall y :: y in Preorder(g, cs[0]) ==> y !in PreorderAll(g, x, cs[1..])
  {
    assert cs[0] in cs && forall c :: c in cs[1..] ==> c in cs;
    assert ContainerWf(g.nodes[x], |g.nodes|);
    forall y | y in Preorder(g, cs[0])
      ensures y !in PreorderAll(g, x, cs[1..])
    {
      ApartOne(g, x, cs, y);
    }
  }

  lemma ApartOne(g: Graph, x: nat, cs: seq<nat>, y: nat)
    requires Forest(g) && x < |g.nodes| && cs != [] && (forall c :: c in cs ==> c in g.nodes[x].children) && NoDup(cs)
    requires cs[0] < |g.nodes| && y in Preorder(g, cs[0])
    ensures (forall c :: c in cs[1..] ==> c in g.nodes[x].children) && y !in PreorderAll(g, x, cs[1..])
  {
    var c0 := cs[0];
    assert c0 in cs && forall c :: c in cs[1..] ==> c in cs;
    InPreorder(g, c0, y);
    if y in PreorderAll(g, x, cs[1..]) {
      var c := InPreorderAll(g, x, cs[1..], y);
      assert c != c0;
      SameParent(g, x, c0, c);
      SiblingOff(g, y, c0, c);
    }
  }

  lemma SameParent(g: Graph, x: nat, a: nat, b: nat)
    requires Wf(g) && Consistent(g) && x < |g.nodes| && a in g.nodes[x].children && b in g.nodes[x].children
    ensures a < |g.nodes| && b < |g.nodes| && g.nodes[a].parent == Some(x) == g.nodes[b].parent
  {
    assert ContainerWf(g.nodes[x], |g.nodes|);
  }

  // ---- Counting ids -------------------------------------------------------------

  /** In a list without repeats, a container that alone holds id makes id occur once. */
  lemma {:induction false} CountOnce(g: Graph, hs: seq<nat>, h0: nat, id: string)
    requires (forall i :: 0 <= i < |hs| ==> hs[i] < |g.nodes|) && NoDup(hs)
    requires forall h :: h in hs && IdOf(g.nodes[h].message) == Some(id) ==> h == h0
    ensures multiset(Ids(g, hs))[Some(id)] == (if h0 in hs && IdOf(g.nodes[h0].message) == Some(id) then 1 else 0)
  {
    if hs != [] {
      var tail := hs[1..];
      assert forall h :: h in tail ==> h in hs;
      assert NoDup(tail) && hs[0] !in tail;
      CountOnce(g, tail, h0, id);
      IdsCons(g, hs);
    }
  }

  lemma IdsCons(g: Graph, hs: seq<nat>)
    requires hs != [] && forall i :: 0 <= i < |hs| ==> hs[i] < |g.nodes|
    ensures multiset(Ids(g, hs)) == multiset{IdOf(g.nodes[hs[0]].message)} + multiset(Ids(g, hs[1..]))
  {
  }

  /** Every container holding a message is the one registered under the message's id. */
  ghost predicate Registered(g: Graph)
    requires Wf(g)
  {
    forall x :: 0 <= x < |g.nodes| && g.nodes[x].message.Some? ==>
      g.nodes[x].message.value.id in g.index && g.index[g.nodes[x].message.value.id] == x
  }

  lemma {:induction false} IndexAllRegistered(msgs: seq<Message>)
    ensures Registered(IndexAll(msgs))
  {
    if msgs != [] {
      var init := msgs[..|msgs| - 1];
      var m := msgs[|msgs| - 1];
      IndexAllRegistered(init);
      AddMessageRegistered(IndexAll(init), m);
    }
  }

  /** Processing a message keeps every message in the container registered under its id. */
  lemma AddMessageRegistered(g: Graph, m: Message)
    requires Wf(g) && Registered(g)
    ensures Registered(AddMessage(g, m))
  {
    AddMessageMessages(g, m);
  }

  /** Linking and root attachment: a forest in which every container but the root has a parent. */
  lemma LinkedPhase(msgs: seq<Message>)
    ensures var l, ix := Linked(msgs), IndexAll(msgs);
      && Forest(l) && Rooted(l) && LooseBare(l)
      && |l.nodes| == |ix.nodes| && l.index == ix.index
      && forall y :: 0 <= y < |ix.nodes| ==> l.nodes[y].message == ix.nodes[y].message
  {
    LinkedForest(msgs);
    LinkedRooted(msgs);
  }

  /** Pruning and grouping keep the forest and leave every parentless container but the root empty. */
  lemma LaterPhases(l: Graph)
    requires Forest(l) && LooseBare(l)
    ensures var p := Prune(l);
      && Forest(p) && LooseBare(p) && Retains(l, p)
      && Forest(GroupBySubject(p)) && LooseBare(GroupBySubject(p)) && Keeps(p, GroupBySubject(p))
  {
    PruneKeeps(l);
    PruneBare(l);
    GroupKeeps(Prune(l));
    GroupBare(Prune(l));
  }

  /** After all four phases: a forest whose only non-empty parentless container is the root, with indexing carried over. */
  lemma GroupedFacts(msgs: seq<Message>)
    ensures var g, ix := Grouped(msgs), IndexAll(msgs);
      && Forest(g) && LooseBare(g)
      && |g.nodes| == |ix.nodes| && g.index == ix.index
      && (forall y :: 0 <= y < |ix.nodes| ==> g.nodes[y].message == ix.nodes[y].message)
      && forall y :: 0 < y < |ix.nodes| && ix.nodes[y].message.Some? ==> g.nodes[y].parent.Some?
  {
    LinkedPhase(msgs);
    var l := Linked(msgs);
    LaterPhases(l);
    var p := Prune(l);
    GroupedIs(msgs, p);
    CarriedThrough(IndexAll(msgs), l, p, GroupBySubject(p));
  }

  lemma GroupedIs(msgs: seq<Message>, p: Graph)
    requires Forest(p) && p == Prune(Linked(msgs))
    ensures Grouped(msgs) == GroupBySubject(p)
  {
  }

  /** A container holding a message keeps a parent through root attachment, pruning and grouping. */
  lemma CarriedThrough(ix: Graph, l: Graph, p: Graph, r: Graph)
    requires |ix.nodes| == |l.nodes| == |p.nodes| == |r.nodes| > 0
    requires forall y :: 0 <= y < |ix.nodes| ==> l.nodes[y].message == ix.nodes[y].message
    requires Wf(l) && Rooted(l) && Retains(l, p) && Keeps(p, r)
    requires forall y :: 0 <= y < |p.nodes| ==> r.nodes[y].message == p.nodes[y].message
    ensures forall y :: 0 <= y < |ix.nodes| ==> r.nodes[y].message == ix.nodes[y].message
    ensures forall y :: 0 < y < |ix.nodes| && ix.nodes[y].message.Some? ==> r.nodes[y].parent.Some?
  {
  }

  /** The last message of msgs with the given id. */
  lemma {:induction false} LastWithId(msgs: seq<Message>, id: string) returns (i: nat)
    requires exists k :: 0 <= k < |msgs| && msgs[k].id == id
    ensures i < |msgs| && msgs[i].id == id && forall j :: i < j < |msgs| ==> msgs[j].id != id
  {
    if msgs[|msgs| - 1].id == id {
      i := |msgs| - 1;
    } else {
      var init := msgs[..|msgs| - 1];
      var k :| 0 <= k < |msgs| && msgs[k].id == id;
      assert init[k] == msgs[k];
      i := LastWithId(init, id);
      assert init[i] == msgs[i];
    }
  }

  /** The container of an input message's id lies in the built forest and holds that message's id. */
  lemma Registered1(msgs: seq<Message>, id: string) returns (h0: nat)
    requires exists k :: 0 <= k < |msgs| && msgs[k].id == id
    ensures var g := Grouped(msgs);
      && 0 < h0 < |g.nodes| && IdOf(g.nodes[h0].message) == Some(id)
      && h0 in PreorderAll(g, Root, g.nodes[Root].children)
  {
    var i := LastWithId(msgs, id);
    IndexAllLastWins(msgs, i);
    var ix := IndexAll(msgs);
    h0 := ix.index[id];
    assert 0 < h0 < |ix.nodes|;
    GroupedFacts(msgs);
    InForest(Grouped(msgs), h0);
  }

  /** A container with a parent in a forest whose cut-loose containers are empty is listed below the root container. */
  lemma InForest(g: Graph, y: nat)
    requires Forest(g) && LooseBare(g) && 0 < y < |g.nodes| && g.nodes[y].parent.Some?
    ensures forall c :: c in g.nodes[Root].children ==> c in g.nodes[Root].children
    ensures y in PreorderAll(g, Root, g.nodes[Root].children)
  {
    ReachesRoot(g, y);
    ReachedInPreorder(g, Root, y);
  }

  /** Every message a container holds is one of msgs. */
  ghost predicate OnlyGiven(g: Graph, msgs: seq<Message>) {
    forall x :: 0 <= x < |g.nodes| && g.nodes[x].message.Some? ==> g.nodes[x].message.value in msgs
  }

  /** Registration and provenance carry over to a graph holding the same messages under the same index. */
  lemma CarryRegistered(ix: Graph, g: Graph, msgs: seq<Message>)
    requires Wf(ix) && Wf(g) && |g.nodes| == |ix.nodes| && g.index == ix.index
    requires forall y :: 0 <= y < |ix.nodes| ==> g.nodes[y].message == ix.nodes[y].message
    requires Registered(ix) && OnlyGiven(ix, msgs)
    ensures Registered(g) && OnlyGiven(g, msgs)
  {
  }

  /**
    In a list of containers without repeats, where every id of msgs has a container,
    each id of msgs occurs once and no other id occurs.
  */
  lemma EachOnceIn(msgs: seq<Message>, g: Graph, hs: seq<nat>)
    requires Wf(g) && Registered(g) && OnlyGiven(g, msgs)
    requires (forall i :: 0 <= i < |hs| ==> hs[i] < |g.nodes|) && NoDup(hs)
    requires forall id :: Given(msgs, id) ==> Held(g, hs, id)
    ensures forall id ::
      multiset(Ids(g, hs))[Some(id)] == if exists k :: 0 <= k < |msgs| && msgs[k].id == id then 1 else 0
  {
    forall id
      ensures multiset(Ids(g, hs))[Some(id)] == if exists k :: 0 <= k < |msgs| && msgs[k].id == id then 1 else 0
    {
      if exists k :: 0 <= k < |msgs| && msgs[k].id == id {
        assert Held(g, hs, id);
        var h0 :| h0 in hs && h0 < |g.nodes| && IdOf(g.nodes[h0].message) == Some(id);
        CountOnce(g, hs, h0, id);
      } else {
        NotHeld(msgs, g, id);
        CountOnce(g, hs, 0, id);
      }
    }
  }

  /** No container holds an id that no input message carries. */
  lemma NotHeld(msgs: seq<Message>, g: Graph, id: string)
    requires OnlyGiven(g, msgs) && !Given(msgs, id)
    ensures forall h :: 0 <= h < |g.nodes| ==> IdOf(g.nodes[h].message) != Some(id)
  {
    forall h | 0 <= h < |g.nodes|
      ensures IdOf(g.nodes[h].message) != Some(id)
    {
      if g.nodes[h].message.Some? {
        var k :| 0 <= k < |msgs| && msgs[k] == g.nodes[h].message.value;
      }
    }
  }

  /**
    Read in pre-order, the projection of what the builder returns lists every id
    carried by an input message exactly once, and no other id.
  */
  lemma BuildEachOnce(msgs: seq<Message>)
    ensures forall id ::
      multiset(Flatten(Abstract(Build(msgs))))[Some(id)] == if exists k :: 0 <= k < |msgs| && msgs[k].id == id then 1 else 0
  {
    BuiltPreorder(msgs);
    AllBelowRoot(msgs);
    var g := Grouped(msgs);
    EachOnceIn(msgs, g, PreorderAll(g, Root, g.nodes[Root].children));
  }

  /** The projection of the built forest reads the ids of the containers below the root container, each listed once. */
  lemma BuiltPreorder(msgs: seq<Message>)
    ensures var g := Grouped(msgs);
      && Registered(g) && OnlyGiven(g, msgs)
      && (forall c :: c in g.nodes[Root].children ==> c in g.nodes[Root].children)
      && NoDup(PreorderAll(g, Root, g.nodes[Root].children))
      && Flatten(Abstract(Build(msgs))) == Ids(g, PreorderAll(g, Root, g.nodes[Root].children))
  {
    var g := Grouped(msgs);
    GroupedFacts(msgs);
    IndexAllRegistered(msgs);
    IndexAllOnlyGiven(msgs);
    CarryRegistered(IndexAll(msgs), g, msgs);
    FlattenSnapshot(g, Root, g.nodes[Root].children);
    PreorderAllNoDup(g, Root, g.nodes[Root].children);
  }

  /** Every id of an input message names a container listed below the root container of the built forest. */
  lemma AllBelowRoot(msgs: seq<Message>)
    ensures var g := Grouped(msgs);
      && (forall c :: c in g.nodes[Root].children ==> c in g.nodes[Root].children)
      && forall id :: Given(msgs, id) ==> Held(g, PreorderAll(g, Root, g.nodes[Root].children), id)
  {
    var g := Grouped(msgs);
    forall id | Given(msgs, id)
      ensures Held(g, PreorderAll(g, Root, g.nodes[Root].children), id)
    {
      var h0 := Registered1(msgs, id);
    }
  }

  /** Some input message carries id. */
  predicate Given(msgs: seq<Message>, id: string) {
    exists k :: 0 <= k < |msgs| && msgs[k].id == id
  }

  /** One of the containers hs holds a message with id. */
  predicate Held(g: Graph, hs: seq<nat>, id: string) {
    exists h :: h in hs && h < |g.nodes| && IdOf(g.nodes[h].message) == Some(id)
  }
}
