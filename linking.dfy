/**
  Building the id table and linking containers along reference chains.

  Messages are processed in input order. Each one gets the container registered
  under its id (created on first sight, a placeholder filled in otherwise); every
  adjacent pair of its de-duplicated references is linked child-under-parent, and
  finally the message's own container is linked under its last reference. A link
  that would close a cycle is skipped, so the arena stays a forest throughout.
*/
module Linking {
  import opened Containers

  /** s with every occurrence of x removed, the rest in order. */
  function Without(s: seq<nat>, x: nat): (r: seq<nat>)
    ensures forall y :: y in r <==> y in s && y != x
    ensures |r| <= |s|
  {
    if s == [] then [] else (if s[0] == x then [] else [s[0]]) + Without(s[1..], x)
  }

  /** Removing an element keeps a duplicate-free list duplicate-free. */
  lemma {:induction false} WithoutNoDup(s: seq<nat>, x: nat)
    requires NoDup(s)
    ensures NoDup(Without(s, x))
  {
    if s != [] {
      WithoutNoDup(s[1..], x);
      var rest := Without(s[1..], x);
      var head := if s[0] == x then [] else [s[0]];
      assert s[0] !in s[1..];
      assert forall i :: 0 <= i < |head + rest| ==> (head + rest)[i] == (if i < |head| then head[i] else rest[i - |head|]);
    }
  }

  /** In a duplicate-free list, removing x takes out exactly the entry at x's position. */
  lemma {:induction false} WithoutAt(s: seq<nat>, x: nat, k: nat)
    requires NoDup(s) && k < |s| && s[k] == x
    ensures Without(s, x) == s[..k] + s[k + 1..]
  {
    if k == 0 {
      WithoutAbsent(s[1..], x);
    } else {
      WithoutAt(s[1..], x, k - 1);
      assert s[1..][..k - 1] + s[1..][k..] == s[1..k] + s[k + 1..];
      assert [s[0]] + s[1..k] == s[..k];
    }
  }

  /** Removing an absent element changes nothing. */
  lemma {:induction false} WithoutAbsent(s: seq<nat>, x: nat)
    requires x !in s
    ensures Without(s, x) == s
  {
    if s != [] {
      WithoutAbsent(s[1..], x);
      assert s == [s[0]] + s[1..];
    }
  }

  /** Takes c out of its parent's child list and clears its parent pointer. */
  function Detach(g: Graph, c: nat): (r: Graph)
    requires Wf(g) && c < |g.nodes|
    ensures Wf(r) && r.index == g.index && SameParentsExcept(g, r, c) && r.nodes[c].parent.None?
    ensures forall x :: 0 <= x < |g.nodes| ==> r.nodes[x].message == g.nodes[x].message
  {
    match g.nodes[c].parent
    case None => g
    case Some(q) =>
      var nodes := g.nodes[q := g.nodes[q].(children := Without(g.nodes[q].children, c))];
      g.(nodes := nodes[c := nodes[c].(parent := None)])
  }

  /** Appends c to p's child list and makes p its parent. */
  function Attach(g: Graph, c: nat, p: nat): (r: Graph)
    requires Wf(g) && c < |g.nodes| && p < |g.nodes|
    ensures Wf(r) && r.index == g.index && SameParentsExcept(g, r, c) && r.nodes[c].parent == Some(p)
    ensures forall x :: 0 <= x < |g.nodes| ==> r.nodes[x].message == g.nodes[x].message
  {
    var nodes := g.nodes[p := g.nodes[p].(children := g.nodes[p].children + [c])];
    g.(nodes := nodes[c := nodes[c].(parent := Some(p))])
  }

  /**
    Makes c a child of p, unless c is p or one of p's ancestors (the link would
    close a cycle) or c already is p's child: then nothing changes. A c that had
    another parent is moved.
  */
  function Link(g: Graph, c: nat, p: nat): (r: Graph)
    requires Wf(g) && c < |g.nodes| && p < |g.nodes|
    ensures Wf(r) && r.index == g.index && |r.nodes| == |g.nodes|
    ensures forall x :: 0 <= x < |g.nodes| ==> r.nodes[x].message == g.nodes[x].message
  {
    if g.nodes[c].parent == Some(p) || c in Ancestry(g, p, |g.nodes|) then g
    else Attach(Detach(g, c), c, p)
  }

  lemma DetachConsistent(g: Graph, c: nat)
    requires Wf(g) && Consistent(g) && c < |g.nodes| && g.nodes[c].parent != Some(c)
    ensures Consistent(Detach(g, c))
  {
    if g.nodes[c].parent.Some? {
      var q := g.nodes[c].parent.value;
      WithoutNoDup(g.nodes[q].children, c);
    }
  }

  lemma AttachConsistent(g: Graph, c: nat, p: nat)
    requires Wf(g) && Consistent(g) && c < |g.nodes| && p < |g.nodes| && c != p
    requires g.nodes[c].parent.None?
    ensures Consistent(Attach(g, c, p))
  {
    var r := Attach(g, c, p);
    assert c !in g.nodes[p].children;
    var kids := g.nodes[p].children + [c];
    assert r.nodes[p].children == kids;
    assert forall i :: 0 <= i < |kids| - 1 ==> kids[i] == g.nodes[p].children[i];
  }

  /** A link that is taken keeps the forest: the cycle guard is what makes this hold. */
  lemma LinkForest(g: Graph, c: nat, p: nat)
    requires Forest(g) && c < |g.nodes| && p < |g.nodes| && c != Root
    ensures Forest(Link(g, c, p))
  {
    if !(g.nodes[c].parent == Some(p) || c in Ancestry(g, p, |g.nodes|)) {
      var g1 := Detach(g, c);
      NoSelfParent(g, c);
      DetachConsistent(g, c);
      assert c != p;
      AttachConsistent(g1, c, p);
      var r := Attach(g1, c, p);
      assert SameParentsExcept(g, r, c);
      ReparentAcyclic(g, r, c, p);
    }
  }

  /**
    What a link does to a forest: when the cycle guard rejects it, or c already is
    p's child, nothing changes; otherwise c ends up as p's last child and its former
    parent loses it from its list without reordering the rest. Either way c keeps
    its own children (its subtree moves with it), p and the former parent keep
    their own parents, and every other container is untouched.
  */
  lemma LinkOutcome(g: Graph, c: nat, p: nat)
    requires Forest(g) && c < |g.nodes| && p < |g.nodes| && c != Root
    ensures var r := Link(g, c, p);
      && Forest(r)
      && (c in Ancestry(g, p, |g.nodes|) ==> r == g)
      && (c !in Ancestry(g, p, |g.nodes|) ==> r.nodes[c].parent == Some(p))
      && (c !in Ancestry(g, p, |g.nodes|) && g.nodes[c].parent != Some(p) ==>
            && r.nodes[p].children == g.nodes[p].children + [c]
            && (g.nodes[c].parent.Some? ==>
                  var q := g.nodes[c].parent.value;
                  exists k :: 0 <= k < |g.nodes[q].children| && g.nodes[q].children[k] == c &&
                    r.nodes[q].children == g.nodes[q].children[..k] + g.nodes[q].children[k + 1..]))
      && (forall x :: 0 <= x < |g.nodes| && x != c && x != p && Some(x) != g.nodes[c].parent ==> r.nodes[x] == g.nodes[x])
      && (g.nodes[c].parent == Some(p) ==> r == g)
      && r.nodes[c].children == g.nodes[c].children
      && r.nodes[p].parent == g.nodes[p].parent
      && (g.nodes[c].parent.Some? && g.nodes[c].parent.value < |g.nodes| ==>
            r.nodes[g.nodes[c].parent.value].parent == g.nodes[g.nodes[c].parent.value].parent)
  {
    LinkForest(g, c, p);
    LinkFrame(g, c, p);
    LinkCarries(g, c, p);
    if !(g.nodes[c].parent == Some(p) || c in Ancestry(g, p, |g.nodes|)) {
      LinkMoves(g, c, p);
    }
  }

  /**
    A link moves c with its whole subtree: c keeps its child list, and neither the
    new parent nor the former one gets a new parent of its own.
  */
  lemma LinkCarries(g: Graph, c: nat, p: nat)
    requires Forest(g) && c < |g.nodes| && p < |g.nodes|
    ensures Link(g, c, p).nodes[c].children == g.nodes[c].children
    ensures Link(g, c, p).nodes[p].parent == g.nodes[p].parent
    ensures g.nodes[c].parent.Some? && g.nodes[c].parent.value < |g.nodes| ==>
      Link(g, c, p).nodes[g.nodes[c].parent.value].parent == g.nodes[g.nodes[c].parent.value].parent
  {
    NoSelfParent(g, c);
    assert Ancestry(g, p, |g.nodes|)[0] == p;
  }

  /** A link touches only the child, the new parent and the former parent. */
  lemma LinkFrame(g: Graph, c: nat, p: nat)
    requires Wf(g) && c < |g.nodes| && p < |g.nodes|
    ensures forall x :: 0 <= x < |g.nodes| && x != c && x != p && Some(x) != g.nodes[c].parent ==>
      Link(g, c, p).nodes[x] == g.nodes[x]
  {
  }

  /** A link that is taken appends c to p's children and takes just c out of its former parent's. */
  lemma LinkMoves(g: Graph, c: nat, p: nat)
    requires Forest(g) && c < |g.nodes| && p < |g.nodes| && c != Root
    requires c !in Ancestry(g, p, |g.nodes|) && g.nodes[c].parent != Some(p)
    ensures Link(g, c, p).nodes[c].parent == Some(p)
    ensures Link(g, c, p).nodes[p].children == g.nodes[p].children + [c]
    ensures g.nodes[c].parent.Some? ==>
      var q := g.nodes[c].parent.value;
      exists k :: 0 <= k < |g.nodes[q].children| && g.nodes[q].children[k] == c &&
        Link(g, c, p).nodes[q].children == g.nodes[q].children[..k] + g.nodes[q].children[k + 1..]
  {
    NoSelfParent(g, c);
    if g.nodes[c].parent.Some? {
      var q := g.nodes[c].parent.value;
      var kids := g.nodes[q].children;
      assert c in kids;
      var k :| 0 <= k < |kids| && kids[k] == c;
      WithoutAt(kids, c, k);
      assert Detach(g, c).nodes[p] == g.nodes[p];
    }
  }

  /** The container registered under id; on first sight of id a placeholder is created and registered. */
  function GetOrCreate(g: Graph, id: string): (r: (Graph, nat))
    requires Wf(g)
    ensures Wf(r.0) && r.0.index.Keys == g.index.Keys + {id} && r.0.index[id] == r.1
    ensures forall k :: k in g.index ==> r.0.index[k] == g.index[k]
    ensures id in g.index ==> r.0.nodes == g.nodes
    ensures id !in g.index ==> r.0.nodes == g.nodes + [Placeholder]
  {
    if id in g.index then (g, g.index[id])
    else (Graph(g.nodes + [Placeholder], g.index[id := |g.nodes|]), |g.nodes|)
  }

  /** A new id gets a container of its own. */
  lemma GetOrCreateInjective(g: Graph, id: string)
    requires Wf(g) && Injective(g)
    ensures Injective(GetOrCreate(g, id).0)
  {
  }

  /** Looking an id up a second time finds the same container and creates nothing. */
  lemma GetOrCreateIdempotent(g: Graph, id: string)
    requires Wf(g)
    ensures var (g1, h) := GetOrCreate(g, id); GetOrCreate(g1, id) == (g1, h)
  {
  }

  lemma GetOrCreateForest(g: Graph, id: string)
    requires Forest(g)
    ensures Forest(GetOrCreate(g, id).0)
  {
    var r := GetOrCreate(g, id).0;
    if id !in g.index {
      ExtendAcyclic(g, r);
    }
  }

  /** Puts m into container h (a placeholder is filled, an earlier message replaced). */
  function Fill(g: Graph, h: nat, m: Message): (r: Graph)
    requires Wf(g) && h < |g.nodes|
    ensures Wf(r) && r.index == g.index && SameParentsExcept(g, r, |g.nodes|)
    ensures r.nodes[h].message == Some(m)
    ensures forall x :: 0 <= x < |g.nodes| && x != h ==> r.nodes[x].message == g.nodes[x].message
  {
    g.(nodes := g.nodes[h := g.nodes[h].(message := Some(m))])
  }

  lemma FillForest(g: Graph, h: nat, m: Message)
    requires Forest(g) && h < |g.nodes|
    ensures Forest(Fill(g, h, m))
  {
    SameParentsAcyclic(g, Fill(g, h, m));
  }

  /**
    The references with repeated ids dropped: the last occurrence of each id is
    kept, in order, so the list still ends with the message's last reference.
  */
  function Dedup(s: seq<string>): (r: seq<string>)
    ensures forall x :: x in r <==> x in s
    ensures forall i, j :: 0 <= i < j < |r| ==> r[i] != r[j]
    ensures |r| <= |s|
    ensures s != [] ==> r != [] && r[|r| - 1] == s[|s| - 1]
  {
    if s == [] then []
    else if s[0] in s[1..] then Dedup(s[1..])
    else [s[0]] + Dedup(s[1..])
  }

  /** A reference list without repeated ids is left as it is. */
  lemma {:induction false} DedupDistinct(s: seq<string>)
    requires forall i, j :: 0 <= i < j < |s| ==> s[i] != s[j]
    ensures Dedup(s) == s
  {
    if s != [] {
      assert s[0] !in s[1..];
      DedupDistinct(s[1..]);
      assert s == [s[0]] + s[1..];
    }
  }

  /**
    Walks a reference list: every id gets a container and each one is linked under
    the one before it. Returns the container of the last reference, if any.
  */
  function LinkReferences(g: Graph, refs: seq<string>): (r: (Graph, Option<nat>))
    requires Wf(g)
    ensures Wf(r.0) && |g.nodes| <= |r.0.nodes|
    ensures r.0.index.Keys == g.index.Keys + set x | x in refs
    ensures forall k :: k in g.index ==> r.0.index[k] == g.index[k]
    ensures forall x :: 0 <= x < |g.nodes| ==> r.0.nodes[x].message == g.nodes[x].message
    ensures forall x :: |g.nodes| <= x < |r.0.nodes| ==> r.0.nodes[x].message.None?
    ensures r.1 == if refs == [] then None else Some(r.0.index[refs[|refs| - 1]])
  {
    if refs == [] then (g, None) else
    var init := refs[..|refs| - 1];
    var (g1, prev) := LinkReferences(g, init);
    var (g3, h) := LinkNext(g1, prev, refs[|refs| - 1]);
    ElementsSnoc(refs, init);
    (g3, Some(h))
  }

  /** The ids of a non-empty list are those of all but its last element, and the last. */
  lemma ElementsSnoc(s: seq<string>, init: seq<string>)
    requires s != [] && init == s[..|s| - 1]
    ensures (set x | x in s) == (set x | x in init) + {s[|s| - 1]}
  {
    assert s == init + [s[|s| - 1]];
  }

  /** One step of the walk: the container of id, linked under the previous reference's container if any. */
  function LinkNext(g: Graph, prev: Option<nat>, id: string): (r: (Graph, nat))
    requires Wf(g) && (prev.Some? ==> prev.value < |g.nodes|)
    ensures Wf(r.0) && |g.nodes| <= |r.0.nodes|
    ensures r.0.index.Keys == g.index.Keys + {id} && r.0.index[id] == r.1
    ensures forall k :: k in g.index ==> r.0.index[k] == g.index[k]
    ensures forall x :: 0 <= x < |g.nodes| ==> r.0.nodes[x].message == g.nodes[x].message
    ensures forall x :: |g.nodes| <= x < |r.0.nodes| ==> r.0.nodes[x].message.None?
  {
    var (g2, h) := GetOrCreate(g, id);
    (if prev.Some? then Link(g2, h, prev.value) else g2, h)
  }

  /** Walking one more reference is one more step of the walk. */
  lemma LinkReferencesNext(g: Graph, refs: seq<string>, i: nat)
    requires Wf(g) && i < |refs|
    ensures var (g1, prev) := LinkReferences(g, refs[..i]);
      && (prev.Some? ==> prev.value < |g1.nodes|)
      && var (g2, h) := LinkNext(g1, prev, refs[i]);
      LinkReferences(g, refs[..i + 1]) == (g2, Some(h))
  {
    assert refs[..i + 1][..i] == refs[..i];
  }

  lemma {:induction false} LinkReferencesInjective(g: Graph, refs: seq<string>)
    requires Wf(g) && Injective(g)
    ensures Injective(LinkReferences(g, refs).0)
  {
    if refs != [] {
      LinkReferencesInjective(g, refs[..|refs| - 1]);
      GetOrCreateInjective(LinkReferences(g, refs[..|refs| - 1]).0, refs[|refs| - 1]);
    }
  }

  lemma {:induction false} LinkReferencesForest(g: Graph, refs: seq<string>)
    requires Forest(g)
    ensures Forest(LinkReferences(g, refs).0)
  {
    if refs != [] {
      LinkReferencesForest(g, refs[..|refs| - 1]);
      var (g1, prev) := LinkReferences(g, refs[..|refs| - 1]);
      GetOrCreateForest(g1, refs[|refs| - 1]);
      var (g2, h) := GetOrCreate(g1, refs[|refs| - 1]);
      if prev.Some? {
        LinkForest(g2, h, prev.value);
      }
    }
  }

  /**
    Processes one message: its container (found or created) receives it, its
    de-duplicated references are linked pairwise, and its container is linked
    under the last reference.
  */
  function AddMessage(g: Graph, m: Message): (r: Graph)
    requires Wf(g)
    ensures Wf(r) && |g.nodes| <= |r.nodes|
    ensures r.index.Keys == g.index.Keys + {m.id} + set x | x in m.references
    ensures forall k :: k in g.index ==> r.index[k] == g.index[k]
  {
    var (g1, own) := GetOrCreate(g, m.id);
    var g2 := Fill(g1, own, m);
    var refs := Dedup(m.references);
    var (g3, last) := LinkReferences(g2, refs);
    assert (set x | x in refs) == (set x | x in m.references);
    if last.Some? then Link(g3, own, last.value) else g3
  }

  /**
    Processing m puts m into the container of its id and leaves every other
    container's message as it was; containers it creates for references are placeholders.
  */
  lemma AddMessageMessages(g: Graph, m: Message)
    requires Wf(g)
    ensures AddMessage(g, m).nodes[AddMessage(g, m).index[m.id]].message == Some(m)
    ensures forall x :: 0 <= x < |AddMessage(g, m).nodes| && x != AddMessage(g, m).index[m.id] ==>
      AddMessage(g, m).nodes[x].message == if x < |g.nodes| then g.nodes[x].message else None
  {
    var r := AddMessage(g, m);
    forall x | 0 <= x < |r.nodes|
      ensures r.nodes[x].message == if x == r.index[m.id] then Some(m) else if x < |g.nodes| then g.nodes[x].message else None
    {
      AddMessageAt(g, m, x);
    }
  }

  /** The message of container x after processing m. */
  lemma AddMessageAt(g: Graph, m: Message, x: nat)
    requires Wf(g) && x < |AddMessage(g, m).nodes|
    ensures AddMessage(g, m).nodes[x].message ==
      if x == AddMessage(g, m).index[m.id] then Some(m) else if x < |g.nodes| then g.nodes[x].message else None
  {
    var (g1, own) := GetOrCreate(g, m.id);
    var g2 := Fill(g1, own, m);
    var (g3, last) := LinkReferences(g2, Dedup(m.references));
    var r := AddMessage(g, m);
    assert r == if last.Some? then Link(g3, own, last.value) else g3;
    assert own == r.index[m.id];
    assert r.nodes[x].message == g3.nodes[x].message;
    if x < |g2.nodes| {
      assert g3.nodes[x].message == g2.nodes[x].message;
      if x != own {
        assert g2.nodes[x].message == g1.nodes[x].message;
        assert x < |g.nodes| && g1.nodes[x] == g.nodes[x];
      }
    } else {
      assert g3.nodes[x].message.None?;
    }
  }

  lemma AddMessageForest(g: Graph, m: Message)
    requires Forest(g)
    ensures Forest(AddMessage(g, m))
  {
    var (g1, own) := GetOrCreate(g, m.id);
    GetOrCreateForest(g, m.id);
    var g2 := Fill(g1, own, m);
    FillForest(g1, own, m);
    LinkReferencesForest(g2, Dedup(m.references));
    var (g3, last) := LinkReferences(g2, Dedup(m.references));
    if last.Some? {
      LinkForest(g3, own, last.value);
    }
  }

  /**
    Processing a message with references hangs its container below the container
    of its last reference, unless that container already lies below the message's
    own (the cycle guard), where the message stays above it.
  */
  lemma AddMessageUnderLast(g: Graph, m: Message)
    requires Forest(g) && m.references != []
    ensures var r := AddMessage(g, m); var own := r.index[m.id]; var p := r.index[m.references[|m.references| - 1]];
      r.nodes[own].parent == Some(p) || own in Ancestry(r, p, |r.nodes|)
  {
    var g3, own, p := AddMessageParts(g, m);
    LinkOutcome(g3, own, p);
  }

  /** Processing a message with references is a link of its container under its last reference's, in the arena g3 before it. */
  lemma AddMessageParts(g: Graph, m: Message) returns (g3: Graph, own: nat, p: nat)
    requires Forest(g) && m.references != []
    ensures Forest(g3) && 0 < own < |g3.nodes| && p < |g3.nodes|
    ensures m.id in g3.index && g3.index[m.id] == own
    ensures m.references[|m.references| - 1] in g3.index && g3.index[m.references[|m.references| - 1]] == p
    ensures AddMessage(g, m) == Link(g3, own, p)
  {
    var g1: Graph;
    g1, own := GetOrCreate(g, m.id).0, GetOrCreate(g, m.id).1;
    GetOrCreateForest(g, m.id);
    var g2 := Fill(g1, own, m);
    FillForest(g1, own, m);
    var refs := Dedup(m.references);
    LinkReferencesForest(g2, refs);
    g3 := LinkReferences(g2, refs).0;
    p := g3.index[refs[|refs| - 1]];
  }

  /** Processing a message keeps distinct ids in distinct containers. */
  lemma AddMessageInjective(g: Graph, m: Message)
    requires Wf(g) && Injective(g)
    ensures Injective(AddMessage(g, m))
  {
    var (g1, own) := GetOrCreate(g, m.id);
    GetOrCreateInjective(g, m.id);
    LinkReferencesInjective(Fill(g1, own, m), Dedup(m.references));
  }

  /** The arena after every message has been processed in input order. */
  function IndexAll(msgs: seq<Message>): (r: Graph)
    ensures Wf(r)
  {
    if msgs == [] then Empty() else AddMessage(IndexAll(msgs[..|msgs| - 1]), msgs[|msgs| - 1])
  }

  /** The ids a message list mentions: the messages' own ids and every id they reference. */
  ghost function MentionedIds(msgs: seq<Message>): set<string>
  {
    if msgs == [] then {} else
    var m := msgs[|msgs| - 1];
    MentionedIds(msgs[..|msgs| - 1]) + {m.id} + set x | x in m.references
  }

  /** After indexing, the id table holds exactly the ids the messages mention. */
  lemma {:induction false} IndexAllIds(msgs: seq<Message>)
    ensures IndexAll(msgs).index.Keys == MentionedIds(msgs)
  {
    if msgs != [] {
      IndexAllIds(msgs[..|msgs| - 1]);
    }
  }

  lemma {:induction false} IndexAllInjective(msgs: seq<Message>)
    ensures Injective(IndexAll(msgs))
  {
    if msgs != [] {
      IndexAllInjective(msgs[..|msgs| - 1]);
      AddMessageInjective(IndexAll(msgs[..|msgs| - 1]), msgs[|msgs| - 1]);
    }
  }

  /** Processing m leaves the message registered under any other id where it was. */
  lemma AddMessageKeepsOther(g: Graph, m: Message, id: string)
    requires Wf(g) && Injective(g) && id in g.index && id != m.id
    ensures id in AddMessage(g, m).index && AddMessage(g, m).index[id] == g.index[id]
    ensures AddMessage(g, m).nodes[g.index[id]].message == g.nodes[g.index[id]].message
  {
    var r := AddMessage(g, m);
    AddMessageMessages(g, m);
    AddMessageInjective(g, m);
    assert r.index[id] != r.index[m.id];
  }

  /** Each message sits in the container of its id, unless a later message with the same id replaced it. */
  lemma {:induction false} IndexAllLastWins(msgs: seq<Message>, i: nat)
    requires i < |msgs| && forall j :: i < j < |msgs| ==> msgs[j].id != msgs[i].id
    ensures msgs[i].id in IndexAll(msgs).index
    ensures IndexAll(msgs).nodes[IndexAll(msgs).index[msgs[i].id]].message == Some(msgs[i])
  {
    var init := msgs[..|msgs| - 1];
    var m := msgs[|msgs| - 1];
    var g := IndexAll(init);
    assert IndexAll(msgs) == AddMessage(g, m);
    if i < |msgs| - 1 {
      assert msgs[i] == init[i];
      assert forall j :: i < j < |init| ==> init[j] == msgs[j];
      IndexAllLastWins(init, i);
      IndexAllInjective(init);
      AddMessageKeepsOther(g, m, msgs[i].id);
    } else {
      AddMessageMessages(g, m);
    }
  }

  /** After indexing, every message held by a container is one of the given messages. */
  lemma {:induction false} IndexAllOnlyGiven(msgs: seq<Message>)
    ensures forall x :: 0 <= x < |IndexAll(msgs).nodes| && IndexAll(msgs).nodes[x].message.Some? ==>
      IndexAll(msgs).nodes[x].message.value in msgs
  {
    if msgs != [] {
      var init := msgs[..|msgs| - 1];
      var m := msgs[|msgs| - 1];
      IndexAllOnlyGiven(init);
      var g := IndexAll(init);
      AddMessageMessages(g, m);
      var r := IndexAll(msgs);
      assert r == AddMessage(g, m);
      forall x | 0 <= x < |r.nodes| && r.nodes[x].message.Some?
        ensures r.nodes[x].message.value in msgs
      {
        if x != r.index[m.id] && x < |g.nodes| {
          assert g.nodes[x].message.value in init;
        }
      }
    }
  }

  lemma {:induction false} IndexAllForest(msgs: seq<Message>)
    ensures Forest(IndexAll(msgs))
  {
    if msgs != [] {
      IndexAllForest(msgs[..|msgs| - 1]);
      AddMessageForest(IndexAll(msgs[..|msgs| - 1]), msgs[|msgs| - 1]);
    }
  }

  /** Handles 1..k-1 of containers without a parent, in creation order. */
  function Orphans(g: Graph, k: nat): (r: seq<nat>)
    requires k <= |g.nodes|
    ensures forall h :: h in r <==> 0 < h < k && g.nodes[h].parent.None?
    ensures forall i, j :: 0 <= i < j < |r| ==> r[i] < r[j]
  {
    if k <= 1 then [] else
    var init := Orphans(g, k - 1);
    assert forall i :: 0 <= i < |init| ==> init[i] < k - 1 by {
      forall i | 0 <= i < |init|
        ensures init[i] < k - 1
      {
        assert init[i] in init;
      }
    }
    init + (if g.nodes[k - 1].parent.None? then [k - 1] else [])
  }

  /**
    Hangs every parentless container with a handle below k (other than the root)
    under the root container, in creation order.
  */
  function AttachRoots(g: Graph, k: nat): (r: Graph)
    requires Wf(g) && k <= |g.nodes|
    ensures Wf(r) && r.index == g.index && |r.nodes| == |g.nodes|
    ensures forall x :: 0 <= x < |g.nodes| ==> r.nodes[x].message == g.nodes[x].message
  {
    if k <= 1 then g else
    var g1 := AttachRoots(g, k - 1);
    if g1.nodes[k - 1].parent.None? then Attach(g1, k - 1, Root) else g1
  }

  lemma {:induction false} AttachRootsForest(g: Graph, k: nat)
    requires Forest(g) && k <= |g.nodes|
    ensures Forest(AttachRoots(g, k))
  {
    if k > 1 {
      AttachRootsForest(g, k - 1);
      var g1 := AttachRoots(g, k - 1);
      if g1.nodes[k - 1].parent.None? {
        assert Ancestry(g1, Root, |g1.nodes|) == [Root];
        AttachConsistent(g1, k - 1, Root);
        ReparentAcyclic(g1, Attach(g1, k - 1, Root), k - 1, Root);
      }
    }
  }

  /**
    Attaching the roots appends the parentless containers below k to the root
    container's children in creation order and gives them the root as parent;
    nothing else changes.
  */
  lemma {:induction false} AttachRootsOutcome(g: Graph, k: nat)
    requires Wf(g) && k <= |g.nodes|
    ensures AttachRoots(g, k).nodes[Root].children == g.nodes[Root].children + Orphans(g, k)
    ensures AttachRoots(g, k).nodes[Root].parent == g.nodes[Root].parent
    ensures forall x :: 0 < x < |g.nodes| ==>
      AttachRoots(g, k).nodes[x].parent == if x < k && g.nodes[x].parent.None? then Some(Root) else g.nodes[x].parent
    ensures forall x :: 0 < x < |g.nodes| ==> AttachRoots(g, k).nodes[x].children == g.nodes[x].children
  {
    if k > 1 {
      AttachRootsOutcome(g, k - 1);
      var g1 := AttachRoots(g, k - 1);
      assert g1.nodes[k - 1].parent == g.nodes[k - 1].parent;
      AttachRootStep(g1, k - 1);
      if g.nodes[k - 1].parent.None? {
        assert g.nodes[Root].children + Orphans(g, k) == g.nodes[Root].children + Orphans(g, k - 1) + [k - 1];
      }
    }
  }

  /** One step of root attachment: only the root container and h can change. */
  lemma AttachRootStep(g: Graph, h: nat)
    requires Wf(g) && 0 < h < |g.nodes|
    ensures var r := if g.nodes[h].parent.None? then Attach(g, h, Root) else g;
      && r.nodes[Root].children == g.nodes[Root].children + (if g.nodes[h].parent.None? then [h] else [])
      && r.nodes[Root].parent == g.nodes[Root].parent
      && r.nodes[h].parent == (if g.nodes[h].parent.None? then Some(Root) else g.nodes[h].parent)
      && r.nodes[h].children == g.nodes[h].children
      && forall x :: 0 < x < |g.nodes| && x != h ==> r.nodes[x] == g.nodes[x]
  {
  }

  /** Links under containers other than the root leave the root without children. */
  lemma LinkKeepsRootAlone(g: Graph, c: nat, p: nat)
    requires Forest(g) && c < |g.nodes| && p < |g.nodes| && p != Root && c != Root
    requires g.nodes[Root].children == []
    ensures Link(g, c, p).nodes[Root] == g.nodes[Root]
  {
    if g.nodes[c].parent.Some? {
      assert g.nodes[c].parent != Some(Root);
    }
  }

  lemma {:induction false} LinkReferencesRootAlone(g: Graph, refs: seq<string>)
    requires Forest(g) && g.nodes[Root].children == []
    ensures LinkReferences(g, refs).0.nodes[Root] == g.nodes[Root]
  {
    if refs != [] {
      var (g1, prev) := LinkReferences(g, refs[..|refs| - 1]);
      LinkReferencesRootAlone(g, refs[..|refs| - 1]);
      LinkReferencesForest(g, refs[..|refs| - 1]);
      var (g2, h) := GetOrCreate(g1, refs[|refs| - 1]);
      GetOrCreateForest(g1, refs[|refs| - 1]);
      if prev.Some? {
        LinkKeepsRootAlone(g2, h, prev.value);
      }
    }
  }

  /** During indexing nothing is linked under the root container. */
  lemma {:induction false} IndexAllRootAlone(msgs: seq<Message>)
    ensures IndexAll(msgs).nodes[Root] == Placeholder
  {
    if msgs != [] {
      var init := msgs[..|msgs| - 1];
      var m := msgs[|msgs| - 1];
      IndexAllRootAlone(init);
      IndexAllForest(init);
      var g := IndexAll(init);
      var (g1, own) := GetOrCreate(g, m.id);
      GetOrCreateForest(g, m.id);
      var g2 := Fill(g1, own, m);
      FillForest(g1, own, m);
      LinkReferencesRootAlone(g2, Dedup(m.references));
      LinkReferencesForest(g2, Dedup(m.references));
      var (g3, last) := LinkReferences(g2, Dedup(m.references));
      if last.Some? {
        LinkKeepsRootAlone(g3, own, last.value);
      }
    }
  }
}
