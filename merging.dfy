/**
  What subject grouping achieves.

  Grouping visits the root set once, in order. Every visited root is accounted
  for: it takes no part (its key is empty), it is the root the table holds for
  its key, or it has gone below another root. When the visit is over, no two
  roots left in the root set share a non-empty key.
*/
module Merging {
  import opened Containers
  import opened Linking
  import opened Subjects
  import opened Grouping

  /** x sits directly in the root set. */
  ghost predicate AtTop(g: Graph, x: nat) {
    0 < x < |g.nodes| && g.nodes[x].parent == Some(Root)
  }

  /** The roots still to visit are in the root set, each once. */
  ghost predicate Pending(g: Graph, roots: seq<nat>) {
    && NoDup(roots)
    && forall x :: x in roots ==> AtTop(g, x)
  }

  /** The table's roots are in the root set, still to visit none of them, each held under one key only. */
  ghost predicate Recorded(g: Graph, table: map<string, Entry>, roots: seq<nat>) {
    && (forall s :: s in table ==> AtTop(g, table[s].root) && table[s].root !in roots)
    && (forall s, u :: s in table && u in table && table[s].root == table[u].root ==> s == u)
  }

  /** Every member of the root set is still to visit, has an empty key, or is the root the table holds for its key. */
  ghost predicate Accounted(g: Graph, table: map<string, Entry>, roots: seq<nat>)
    requires Wf(g)
  {
    forall a :: a in g.nodes[Root].children ==>
      a in roots || Key(g, a) == [] || (Key(g, a) in table && table[Key(g, a)].root == a)
  }

  /** The invariant of the visit. */
  ghost predicate Merged(g: Graph, table: map<string, Entry>, roots: seq<nat>) {
    Forest(g) && Pending(g, roots) && Recorded(g, table, roots) && Accounted(g, table, roots)
  }

  /** No two members of the root set share a non-empty key. */
  ghost predicate DistinctKeys(g: Graph)
    requires Wf(g)
  {
    forall a, b :: a in g.nodes[Root].children && b in g.nodes[Root].children && a != b && Key(g, a) != [] ==>
      Key(g, a) != Key(g, b)
  }

  // ---- Keys under a link --------------------------------------------------------

  /** A container whose children and the arena's messages are unchanged keeps its key. */
  lemma KeyFrame(g: Graph, g1: Graph, y: nat)
    requires Wf(g) && Wf(g1) && |g1.nodes| == |g.nodes| && y < |g.nodes|
    requires forall z :: 0 <= z < |g.nodes| ==> g1.nodes[z].message == g.nodes[z].message
    requires g1.nodes[y].children == g.nodes[y].children
    ensures Key(g1, y) == Key(g, y)
  {
    assert ContainerWf(g.nodes[y], |g.nodes|);
    if |g.nodes[y].children| == 1 {
      assert g.nodes[y].children[0] in g.nodes[y].children;
    }
  }

  /**
    A container t that gains the child c keeps its key, loses it, or (when it was
    an empty placeholder) takes the key of c's message.
  */
  lemma KeyGain(g: Graph, g1: Graph, t: nat, c: nat)
    requires Wf(g) && Wf(g1) && |g1.nodes| == |g.nodes| && t < |g.nodes| && c < |g.nodes|
    requires forall z :: 0 <= z < |g.nodes| ==> g1.nodes[z].message == g.nodes[z].message
    requires g1.nodes[t].children == g.nodes[t].children + [c]
    ensures || Key(g1, t) == Key(g, t)
            || Key(g1, t) == []
            || (g.nodes[t].message.None? && g.nodes[t].children == [] && g.nodes[c].message.Some? &&
                Key(g1, t) == Key(g, c))
  {
    assert ContainerWf(g.nodes[t], |g.nodes|);
    if g.nodes[t].message.None? && g.nodes[t].children == [] {
      assert g1.nodes[t].children == [c];
    }
  }

  /**
    What linking c below p, both in the root set, leaves: c below p, p in the
    root set with c as last child, the root set without c, messages as they
    were, and every other container untouched.
  */
  ghost predicate Joined(g: Graph, g1: Graph, c: nat, p: nat) {
    && Wf(g) && Wf(g1) && |g1.nodes| == |g.nodes| && c < |g.nodes| && p < |g.nodes|
    && (forall z :: 0 <= z < |g.nodes| ==> g1.nodes[z].message == g.nodes[z].message)
    && g1.nodes[c].parent == Some(p)
    && g1.nodes[p].parent == Some(Root)
    && g1.nodes[p].children == g.nodes[p].children + [c]
    && (forall a :: a in g1.nodes[Root].children ==> a in g.nodes[Root].children && a != c)
    && (forall x :: 0 <= x < |g.nodes| && x != c && x != p && x != Root ==> g1.nodes[x] == g.nodes[x])
  }

  /** Linking c below p, both in the root set, joins them. */
  lemma JoinLink(g: Graph, c: nat, p: nat)
    requires Forest(g) && AtTop(g, c) && AtTop(g, p) && c != p
    ensures Forest(Link(g, c, p)) && Joined(g, Link(g, c, p), c, p)
  {
    RootLevelAncestry(g, p);
    LinkOutcome(g, c, p);
    LinkKeepsParent(g, c, p);
    var r := Link(g, c, p);
    var kids := g.nodes[Root].children;
    var k :| 0 <= k < |kids| && kids[k] == c && r.nodes[Root].children == kids[..k] + kids[k + 1..];
    RemovedMembers(kids, k);
  }

  /** A link leaves the new parent's own parent as it was. */
  lemma LinkKeepsParent(g: Graph, c: nat, p: nat)
    requires Wf(g) && c < |g.nodes| && p < |g.nodes| && c != p
    ensures Link(g, c, p).nodes[p].parent == g.nodes[p].parent
  {
  }

  /** Dropping the k-th member of a list without repeats leaves members of the list other than that one. */
  lemma RemovedMembers(kids: seq<nat>, k: nat)
    requires NoDup(kids) && k < |kids|
    ensures forall a :: a in kids[..k] + kids[k + 1..] ==> a in kids && a != kids[k]
  {
    var rest := kids[..k] + kids[k + 1..];
    forall a | a in rest
      ensures a in kids && a != kids[k]
    {
      var i :| 0 <= i < |rest| && rest[i] == a;
      if i < k {
        assert a == kids[i];
      } else {
        assert a == kids[i + 1];
      }
    }
  }

  // ---- One step -----------------------------------------------------------------

  /** A root that takes no part leaves the arena and the table as they are. */
  lemma StepPass(g: Graph, table: map<string, Entry>, roots: seq<nat>)
    requires Merged(g, table, roots) && roots != [] && Key(g, roots[0]) == []
    ensures Merged(g, table, roots[1..])
  {
    forall a | a in g.nodes[Root].children
      ensures a in roots[1..] || Key(g, a) == [] || (Key(g, a) in table && table[Key(g, a)].root == a)
    {
      if a in roots && a != roots[0] {
        StillPending(roots, a);
      }
    }
    NoDupTail(roots);
  }

  /** The tail of a list without repeats has no repeats, and lacks the head. */
  lemma NoDupTail(roots: seq<nat>)
    requires NoDup(roots) && roots != []
    ensures NoDup(roots[1..]) && roots[0] !in roots[1..]
    ensures forall x :: x in roots[1..] ==> x in roots
  {
  }

  /** A member of the root set other than the visited root that was still to visit remains so. */
  lemma StillPending(roots: seq<nat>, a: nat)
    requires roots != [] && a in roots && a != roots[0]
    ensures a in roots[1..]
  {
    var i :| 0 <= i < |roots| && roots[i] == a;
    assert roots[1..][i - 1] == a;
  }

  /** The roots after the visited one are still to visit. */
  lemma PendingTail(g: Graph, roots: seq<nat>)
    requires Pending(g, roots) && roots != []
    ensures Pending(g, roots[1..]) && roots[0] !in roots[1..] && AtTop(g, roots[0])
  {
    NoDupTail(roots);
    assert roots[0] in roots;
  }

  /** A root with a new non-empty key is recorded under it. */
  lemma StepRecord(g: Graph, table: map<string, Entry>, roots: seq<nat>, s: string, marked: bool)
    requires Merged(g, table, roots) && roots != [] && Key(g, roots[0]) == s && s != [] && s !in table
    ensures Merged(g, table[s := Entry(roots[0], marked)], roots[1..])
  {
    PendingTail(g, roots);
    RecordRecorded(g, table, roots, s, marked);
    RecordAccounted(g, table, roots, s, marked);
  }

  lemma RecordAccounted(g: Graph, table: map<string, Entry>, roots: seq<nat>, s: string, marked: bool)
    requires Wf(g) && Accounted(g, table, roots) && roots != [] && Key(g, roots[0]) == s && s !in table
    ensures Accounted(g, table[s := Entry(roots[0], marked)], roots[1..])
  {
    var t1 := table[s := Entry(roots[0], marked)];
    forall a | a in g.nodes[Root].children
      ensures a in roots[1..] || Key(g, a) == [] || (Key(g, a) in t1 && t1[Key(g, a)].root == a)
    {
      if a in roots && a != roots[0] {
        StillPending(roots, a);
      }
    }
  }

  /** A root joined below the table's root for its key. */
  lemma StepBelow(g: Graph, table: map<string, Entry>, roots: seq<nat>, s: string)
    requires Merged(g, table, roots) && roots != [] && Key(g, roots[0]) == s && s != [] && s in table
    ensures Merged(Link(g, roots[0], table[s].root), table, roots[1..])
  {
    var r := roots[0];
    var t := table[s].root;
    PendingTail(g, roots);
    JoinLink(g, r, t);
    var g1 := Link(g, r, t);
    JoinedPending(g, g1, r, t, roots[1..]);
    BelowRecorded(g, g1, table, roots, t);
    RootSetWf(g);
    BelowAccounted(g, g1, table, roots, s);
  }

  /** Roots still to visit, neither of the joined two, stay in the root set. */
  lemma JoinedPending(g: Graph, g1: Graph, c: nat, p: nat, rest: seq<nat>)
    requires Joined(g, g1, c, p) && Pending(g, rest) && c !in rest && p !in rest
    ensures Pending(g1, rest)
  {
    forall x | x in rest
      ensures AtTop(g1, x)
    {
      assert AtTop(g, x);
    }
  }

  lemma BelowRecorded(g: Graph, g1: Graph, table: map<string, Entry>, roots: seq<nat>, t: nat)
    requires roots != [] && Joined(g, g1, roots[0], t) && Recorded(g, table, roots)
    ensures Recorded(g1, table, roots[1..])
  {
    forall u | u in table
      ensures AtTop(g1, table[u].root) && table[u].root !in roots[1..]
    {
      assert roots[0] in roots;
      assert forall x :: x in roots[1..] ==> x in roots;
    }
  }

  lemma BelowAccounted(g: Graph, g1: Graph, table: map<string, Entry>, roots: seq<nat>, s: string)
    requires roots != [] && s in table && Joined(g, g1, roots[0], table[s].root)
    requires Accounted(g, table, roots) && Key(g, roots[0]) == s && table[s].root !in roots
    requires forall x :: x in g.nodes[Root].children ==> 0 < x < |g.nodes|
    ensures Accounted(g1, table, roots[1..])
  {
    var r, t := roots[0], table[s].root;
    KeyGain(g, g1, t, r);
    forall a | a in g1.nodes[Root].children
      ensures a in roots[1..] || Key(g1, a) == [] || (Key(g1, a) in table && table[Key(g1, a)].root == a)
    {
      if a != t {
        KeyFrame(g, g1, a);
        if a in roots {
          StillPending(roots, a);
        }
      }
    }
  }

  /** A marked table root goes below the unmarked root r, which takes its place in the table. */
  lemma StepAbove(g: Graph, table: map<string, Entry>, roots: seq<nat>, s: string, marked: bool)
    requires Merged(g, table, roots) && roots != [] && Key(g, roots[0]) == s && s != [] && s in table
    ensures Merged(Link(g, table[s].root, roots[0]), table[s := Entry(roots[0], marked)], roots[1..])
  {
    var r := roots[0];
    var t := table[s].root;
    PendingTail(g, roots);
    JoinLink(g, t, r);
    var g1 := Link(g, t, r);
    JoinedPending(g, g1, t, r, roots[1..]);
    AboveRecorded(g, g1, table, roots, s, marked);
    RootSetWf(g);
    AboveAccounted(g, g1, table, roots, s, marked);
  }

  lemma AboveRecorded(g: Graph, g1: Graph, table: map<string, Entry>, roots: seq<nat>, s: string, marked: bool)
    requires roots != [] && s in table && Joined(g, g1, table[s].root, roots[0]) && Recorded(g, table, roots)
    requires roots[0] !in roots[1..] && AtTop(g, roots[0])
    ensures Recorded(g1, table[s := Entry(roots[0], marked)], roots[1..])
  {
    var t1 := table[s := Entry(roots[0], marked)];
    assert roots[0] in roots;
    assert forall x :: x in roots[1..] ==> x in roots;
    forall u | u in t1 && u != s
      ensures AtTop(g1, t1[u].root) && t1[u].root !in roots[1..] && t1[u].root != roots[0]
    {
      assert table[u].root != table[s].root;
    }
  }

  lemma RecordRecorded(g: Graph, table: map<string, Entry>, roots: seq<nat>, s: string, marked: bool)
    requires roots != [] && Recorded(g, table, roots) && roots[0] !in roots[1..] && AtTop(g, roots[0])
    ensures Recorded(g, table[s := Entry(roots[0], marked)], roots[1..])
  {
    assert roots[0] in roots;
    assert forall x :: x in roots[1..] ==> x in roots;
  }

  lemma AboveAccounted(g: Graph, g1: Graph, table: map<string, Entry>, roots: seq<nat>, s: string, marked: bool)
    requires roots != [] && s in table && Joined(g, g1, table[s].root, roots[0])
    requires Accounted(g, table, roots) && Key(g, roots[0]) == s && s != []
    requires forall x :: x in g.nodes[Root].children ==> 0 < x < |g.nodes|
    ensures Accounted(g1, table[s := Entry(roots[0], marked)], roots[1..])
  {
    var r, t := roots[0], table[s].root;
    var t1 := table[s := Entry(r, marked)];
    KeyGain(g, g1, r, t);
    forall a | a in g1.nodes[Root].children
      ensures a in roots[1..] || Key(g1, a) == [] || (Key(g1, a) in t1 && t1[Key(g1, a)].root == a)
    {
      if a != r {
        KeyFrame(g, g1, a);
        if a in roots {
          StillPending(roots, a);
        }
      }
    }
  }

  /** One grouping step keeps the invariant, with the next root to visit removed. */
  lemma GroupStepMerged(g: Graph, table: map<string, Entry>, roots: seq<nat>)
    requires Merged(g, table, roots) && roots != []
    ensures TableWf(g, table) && 0 < roots[0] < |g.nodes|
    ensures var (g1, t1) := GroupStep(g, table, roots[0]); Merged(g1, t1, roots[1..]) && TableWf(g1, t1)
  {
    var r := roots[0];
    assert r in roots;
    match Representative(g, r)
    case None =>
      StepPass(g, table, roots);
    case Some(m) =>
      var s := Normalize(m.subject);
      var marked := HasMarker(m.subject);
      if s == [] {
        StepPass(g, table, roots);
      } else if s !in table {
        StepRecord(g, table, roots, s, marked);
      } else if table[s].marked && !marked {
        StepAbove(g, table, roots, s, marked);
      } else {
        StepBelow(g, table, roots, s);
      }
  }

  /** The visit of the remaining roots ends with distinct keys in the root set. */
  lemma {:induction false} GroupFromMerged(g: Graph, table: map<string, Entry>, roots: seq<nat>)
    requires Merged(g, table, roots)
    ensures TableWf(g, table) && forall x :: x in roots ==> 0 < x < |g.nodes|
    ensures DistinctKeys(GroupFrom(g, table, roots))
    decreases |roots|
  {
    if roots == [] {
      forall a, b | a in g.nodes[Root].children && b in g.nodes[Root].children && a != b && Key(g, a) != []
        ensures Key(g, a) != Key(g, b)
      {
      }
    } else {
      GroupStepMerged(g, table, roots);
      var (g1, t1) := GroupStep(g, table, roots[0]);
      NoDupTail(roots);
      GroupFromMerged(g1, t1, roots[1..]);
      GroupFromStep(g, table, roots);
    }
  }

  /** Grouping a non-empty list of roots is one step, then grouping the rest. */
  lemma GroupFromStep(g: Graph, table: map<string, Entry>, roots: seq<nat>)
    requires Wf(g) && TableWf(g, table) && roots != [] && forall x :: x in roots ==> 0 < x < |g.nodes|
    ensures 0 < roots[0] < |g.nodes|
    ensures var (g1, t1) := GroupStep(g, table, roots[0]);
      TableWf(g1, t1) && (forall x :: x in roots[1..] ==> 0 < x < |g1.nodes|) &&
      GroupFrom(g, table, roots) == GroupFrom(g1, t1, roots[1..])
  {
    assert roots[0] in roots && forall x :: x in roots[1..] ==> x in roots;
  }

  /** At the start of grouping every root is still to visit and the table is empty. */
  lemma MergedStart(g: Graph)
    requires Forest(g)
    ensures Merged(g, map[], g.nodes[Root].children)
  {
    var roots := g.nodes[Root].children;
    assert ContainerWf(g.nodes[Root], |g.nodes|);
    forall x | x in roots
      ensures AtTop(g, x)
    {
      NoSelfParent(g, x);
    }
  }

  /**
    After grouping, no two members of the root set share a non-empty normalised
    subject: every pair of roots with a common subject has been joined.
  */
  lemma GroupMerges(g: Graph)
    requires Forest(g)
    ensures DistinctKeys(GroupBySubject(g))
  {
    MergedStart(g);
    GroupFromMerged(g, map[], g.nodes[Root].children);
  }

  // ---- Grouping cuts nothing loose ----------------------------------------------

  /** Joining two roots leaves no new parentless container with children. */
  lemma JoinedBare(g: Graph, g1: Graph, c: nat, p: nat)
    requires Joined(g, g1, c, p) && LooseBare(g)
    ensures LooseBare(g1)
  {
  }

  lemma GroupStepBare(g: Graph, table: map<string, Entry>, roots: seq<nat>)
    requires Merged(g, table, roots) && LooseBare(g) && roots != []
    ensures TableWf(g, table) && 0 < roots[0] < |g.nodes|
    ensures LooseBare(GroupStep(g, table, roots[0]).0)
  {
    var r := roots[0];
    PendingTail(g, roots);
    match Representative(g, r)
    case None =>
    case Some(m) =>
      var s := Normalize(m.subject);
      if s != [] && s in table {
        var t := table[s].root;
        if table[s].marked && !HasMarker(m.subject) {
          JoinLink(g, t, r);
          JoinedBare(g, Link(g, t, r), t, r);
        } else {
          JoinLink(g, r, t);
          JoinedBare(g, Link(g, r, t), r, t);
        }
      }
  }

  lemma {:induction false} GroupFromBare(g: Graph, table: map<string, Entry>, roots: seq<nat>)
    requires Merged(g, table, roots) && LooseBare(g)
    ensures TableWf(g, table) && forall x :: x in roots ==> 0 < x < |g.nodes|
    ensures LooseBare(GroupFrom(g, table, roots))
    decreases |roots|
  {
    if roots != [] {
      GroupStepBare(g, table, roots);
      GroupStepMerged(g, table, roots);
      var (g1, t1) := GroupStep(g, table, roots[0]);
      GroupFromBare(g1, t1, roots[1..]);
      GroupFromStep(g, table, roots);
    }
  }

  /** Grouping only moves roots below roots: every parentless container but the root stays empty. */
  lemma GroupBare(g: Graph)
    requires Forest(g) && LooseBare(g)
    ensures LooseBare(GroupBySubject(g))
  {
    MergedStart(g);
    GroupFromBare(g, map[], g.nodes[Root].children);
  }
}
