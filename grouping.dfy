/**
  Subject grouping of the root set.

  The roots are visited in order, keeping a table from normalised subject to the
  root first seen with it. A root whose representative message has a non-empty
  normalised subject already in the table is joined with that root: it becomes
  the table root's child, except when the table root's subject carries a reply
  marker and its own does not. Then the table root becomes its child and it takes
  the table root's place in the table.
*/
module Grouping {
  import opened Containers
  import opened Linking
  import opened Subjects

  /** A table entry: the root holding a subject, and whether its raw subject carries a reply marker. */
  datatype Entry = Entry(root: nat, marked: bool)

  /**
    The message a root stands for: its own, or, for a placeholder root with a
    single child, that child's message.
  */
  function Representative(g: Graph, r: nat): (m: Option<Message>)
    requires Wf(g)
    ensures r >= |g.nodes| ==> m.None?
    ensures r < |g.nodes| && g.nodes[r].message.Some? ==> m == g.nodes[r].message
    ensures r < |g.nodes| && m.Some? && g.nodes[r].message.None? ==>
      && |g.nodes[r].children| == 1 && g.nodes[r].children[0] < |g.nodes|
      && g.nodes[g.nodes[r].children[0]].message == m
  {
    if r >= |g.nodes| then None
    else
    var c := g.nodes[r];
    if c.message.Some? then c.message
    else if |c.children| == 1 then
      assert ContainerWf(c, |g.nodes|) && c.children[0] in c.children;
      g.nodes[c.children[0]].message
    else None
  }

  /** The normalised subject a root is grouped by; empty when the root takes no part in grouping. */
  function Key(g: Graph, r: nat): string
    requires Wf(g)
  {
    match Representative(g, r)
    case None => []
    case Some(m) => Normalize(m.subject)
  }

  /** Every table entry names a container of the arena other than the root container. */
  ghost predicate TableWf(g: Graph, table: map<string, Entry>) {
    forall s :: s in table ==> 0 < table[s].root < |g.nodes|
  }

  /** Grouping step for the root r. */
  function GroupStep(g: Graph, table: map<string, Entry>, r: nat): (res: (Graph, map<string, Entry>))
    requires Wf(g) && TableWf(g, table) && 0 < r < |g.nodes|
    ensures Wf(res.0) && res.0.index == g.index && |res.0.nodes| == |g.nodes| && TableWf(res.0, res.1)
    ensures forall y :: 0 <= y < |g.nodes| ==> res.0.nodes[y].message == g.nodes[y].message
  {
    match Representative(g, r)
    case None => (g, table)
    case Some(m) => GroupRoot(g, table, r, Normalize(m.subject), HasMarker(m.subject))
  }

  /**
    Entering the root r, whose subject normalises to s and carries a reply marker
    when marked holds: an empty s takes no part, a new s is recorded, a known s
    is joined.
  */
  function GroupRoot(g: Graph, table: map<string, Entry>, r: nat, s: string, marked: bool): (res: (Graph, map<string, Entry>))
    requires Wf(g) && TableWf(g, table) && 0 < r < |g.nodes|
    ensures Wf(res.0) && res.0.index == g.index && |res.0.nodes| == |g.nodes| && TableWf(res.0, res.1)
    ensures forall y :: 0 <= y < |g.nodes| ==> res.0.nodes[y].message == g.nodes[y].message
  {
    if s == [] then (g, table)
    else if s !in table then (g, table[s := Entry(r, marked)])
    else Join(g, table, s, r, marked)
  }

  /**
    Joining the root r, whose subject normalises to s and carries a reply marker
    when marked holds, with the root the table holds for s.
  */
  function Join(g: Graph, table: map<string, Entry>, s: string, r: nat, marked: bool): (res: (Graph, map<string, Entry>))
    requires Wf(g) && TableWf(g, table) && 0 < r < |g.nodes| && s in table
    ensures Wf(res.0) && res.0.index == g.index && |res.0.nodes| == |g.nodes| && TableWf(res.0, res.1)
    ensures forall y :: 0 <= y < |g.nodes| ==> res.0.nodes[y].message == g.nodes[y].message
  {
    var e := table[s];
    if e.marked && !marked then (Link(g, e.root, r), table[s := Entry(r, marked)])
    else (Link(g, r, e.root), table)
  }

  /** A root holding a message whose non-empty subject is not yet in the table is recorded under it. */
  lemma GroupStepRecords(g: Graph, table: map<string, Entry>, r: nat, m: Message)
    requires Wf(g) && TableWf(g, table) && 0 < r < |g.nodes| && g.nodes[r].message == Some(m)
    requires Normalize(m.subject) != [] && Normalize(m.subject) !in table
    ensures GroupStep(g, table, r) == (g, table[Normalize(m.subject) := Entry(r, HasMarker(m.subject))])
  {
    assert Representative(g, r) == Some(m);
  }

  /**
    A root holding a message whose non-empty subject is already held by another
    root goes below that root, unless that root's subject carries a reply marker
    and its own does not.
  */
  lemma GroupStepJoinsBelow(g: Graph, table: map<string, Entry>, r: nat, m: Message)
    requires Wf(g) && TableWf(g, table) && 0 < r < |g.nodes| && g.nodes[r].message == Some(m)
    requires Normalize(m.subject) != [] && Normalize(m.subject) in table
    requires !table[Normalize(m.subject)].marked || HasMarker(m.subject)
    ensures GroupStep(g, table, r) == (Link(g, r, table[Normalize(m.subject)].root), table)
  {
    assert Representative(g, r) == Some(m);
  }

  /**
    A root holding an unmarked message whose non-empty subject is held by a root
    with a marked subject takes that root below it.
  */
  lemma GroupStepJoinsAbove(g: Graph, table: map<string, Entry>, r: nat, m: Message)
    requires Wf(g) && TableWf(g, table) && 0 < r < |g.nodes| && g.nodes[r].message == Some(m)
    requires Normalize(m.subject) != [] && Normalize(m.subject) in table
    requires table[Normalize(m.subject)].marked && !HasMarker(m.subject)
    ensures GroupStep(g, table, r).0 == Link(g, table[Normalize(m.subject)].root, r)
  {
    assert Representative(g, r) == Some(m);
  }

  /** Grouping steps for each root of roots in turn. */
  function GroupFrom(g: Graph, table: map<string, Entry>, roots: seq<nat>): (r: Graph)
    requires Wf(g) && TableWf(g, table) && forall x :: x in roots ==> 0 < x < |g.nodes|
    ensures Wf(r) && r.index == g.index && |r.nodes| == |g.nodes|
    ensures forall y :: 0 <= y < |g.nodes| ==> r.nodes[y].message == g.nodes[y].message
    decreases |roots|
  {
    if roots == [] then g
    else
      assert roots[0] in roots && forall x :: x in roots[1..] ==> x in roots;
      var (g1, t1) := GroupStep(g, table, roots[0]);
      GroupFrom(g1, t1, roots[1..])
  }

  /** Grouping two roots is two grouping steps. */
  lemma GroupFromTwo(g: Graph, table: map<string, Entry>, r1: nat, r2: nat)
    requires Wf(g) && TableWf(g, table) && 0 < r1 < |g.nodes| && 0 < r2 < |g.nodes|
    ensures var (g1, t1) := GroupStep(g, table, r1);
      GroupFrom(g, table, [r1, r2]) == GroupStep(g1, t1, r2).0
  {
    var (g1, t1) := GroupStep(g, table, r1);
    assert [r1, r2][1..] == [r2];
    assert GroupFrom(g, table, [r1, r2]) == GroupFrom(g1, t1, [r2]);
    var (g2, t2) := GroupStep(g1, t1, r2);
    assert [r2][1..] == [];
    assert GroupFrom(g1, t1, [r2]) == GroupFrom(g2, t2, []);
  }

  /** The grouping phase, over the root set as it stands when the phase starts. */
  function GroupBySubject(g: Graph): (r: Graph)
    requires Forest(g)
    ensures Wf(r) && r.index == g.index && |r.nodes| == |g.nodes|
    ensures forall y :: 0 <= y < |g.nodes| ==> r.nodes[y].message == g.nodes[y].message
  {
    RootSetWf(g);
    GroupFrom(g, map[], g.nodes[Root].children)
  }

  /** The root set holds containers of the arena other than the root container itself. */
  lemma RootSetWf(g: Graph)
    requires Forest(g)
    ensures forall x :: x in g.nodes[Root].children ==> 0 < x < |g.nodes|
  {
    assert ContainerWf(g.nodes[Root], |g.nodes|);
    assert forall x :: x in g.nodes[Root].children ==> g.nodes[x].parent == Some(Root);
  }

  /**
    What grouping keeps: the forest, and the attachment of every container that
    had a parent (grouping only moves roots under other roots).
  */
  ghost predicate Keeps(g: Graph, r: Graph)
    requires |r.nodes| == |g.nodes|
  {
    forall y :: 0 <= y < |g.nodes| && g.nodes[y].parent.Some? ==> r.nodes[y].parent.Some?
  }

  lemma LinkKeeps(g: Graph, c: nat, p: nat)
    requires Forest(g) && 0 < c < |g.nodes| && p < |g.nodes|
    ensures Forest(Link(g, c, p)) && Keeps(g, Link(g, c, p))
  {
    LinkForest(g, c, p);
  }

  lemma GroupStepKeeps(g: Graph, table: map<string, Entry>, r: nat)
    requires Forest(g) && TableWf(g, table) && 0 < r < |g.nodes|
    ensures Forest(GroupStep(g, table, r).0) && Keeps(g, GroupStep(g, table, r).0)
  {
    match Representative(g, r)
    case None =>
    case Some(m) =>
      var s := Normalize(m.subject);
      if s != [] && s in table {
        LinkKeeps(g, table[s].root, r);
        LinkKeeps(g, r, table[s].root);
      }
  }

  lemma {:induction false} GroupFromKeeps(g: Graph, table: map<string, Entry>, roots: seq<nat>)
    requires Forest(g) && TableWf(g, table) && forall x :: x in roots ==> 0 < x < |g.nodes|
    ensures Forest(GroupFrom(g, table, roots)) && Keeps(g, GroupFrom(g, table, roots))
    decreases |roots|
  {
    if roots != [] {
      assert roots[0] in roots && forall x :: x in roots[1..] ==> x in roots;
      GroupStepKeeps(g, table, roots[0]);
      var (g1, t1) := GroupStep(g, table, roots[0]);
      GroupFromKeeps(g1, t1, roots[1..]);
    }
  }

  /** Grouping keeps the forest and never cuts a container loose from its parent. */
  lemma GroupKeeps(g: Graph)
    requires Forest(g)
    ensures Forest(GroupBySubject(g)) && Keeps(g, GroupBySubject(g))
  {
    RootSetWf(g);
    GroupFromKeeps(g, map[], g.nodes[Root].children);
  }

  /** The walk up from a root-level container. */
  lemma RootLevelAncestry(g: Graph, x: nat)
    requires Forest(g) && x < |g.nodes| && g.nodes[x].parent == Some(Root)
    ensures Ancestry(g, x, |g.nodes|) == [x, Root]
  {
    assert Ancestry(g, Root, |g.nodes| - 1) == [Root];
  }

  /**
    Two distinct root-level containers, the second with the same non-empty key as
    the table entry of the first, end up one the parent of the other. When only
    the table root's subject carries a reply marker, the table root goes below r
    and r takes its place in the table; otherwise r goes below the table root and
    the table stays as it was.
  */
  lemma GroupStepJoins(g: Graph, table: map<string, Entry>, r: nat)
    requires Forest(g) && TableWf(g, table) && 0 < r < |g.nodes|
    requires g.nodes[r].parent == Some(Root) && Key(g, r) != [] && Key(g, r) in table
    requires table[Key(g, r)].root != r && g.nodes[table[Key(g, r)].root].parent == Some(Root)
    ensures Representative(g, r).Some?
    ensures table[Key(g, r)].marked && !HasMarker(Representative(g, r).value.subject) ==>
      && GroupStep(g, table, r).0.nodes[table[Key(g, r)].root].parent == Some(r)
      && GroupStep(g, table, r).1 == table[Key(g, r) := Entry(r, false)]
    ensures !(table[Key(g, r)].marked && !HasMarker(Representative(g, r).value.subject)) ==>
      && GroupStep(g, table, r).0.nodes[r].parent == Some(table[Key(g, r)].root)
      && GroupStep(g, table, r).1 == table
  {
    var m := Representative(g, r).value;
    assert GroupStep(g, table, r) == Join(g, table, Key(g, r), r, HasMarker(m.subject));
    JoinOutcome(g, table, Key(g, r), r, HasMarker(m.subject));
  }

  /** Which way a join goes, for two distinct root-level containers. */
  lemma JoinOutcome(g: Graph, table: map<string, Entry>, s: string, r: nat, marked: bool)
    requires Forest(g) && TableWf(g, table) && 0 < r < |g.nodes| && s in table && table[s].root != r
    requires g.nodes[r].parent == Some(Root) && g.nodes[table[s].root].parent == Some(Root)
    ensures table[s].marked && !marked ==>
      Join(g, table, s, r, marked).0.nodes[table[s].root].parent == Some(r) &&
      Join(g, table, s, r, marked).1 == table[s := Entry(r, false)]
    ensures !(table[s].marked && !marked) ==>
      Join(g, table, s, r, marked).0.nodes[r].parent == Some(table[s].root) &&
      Join(g, table, s, r, marked).1 == table
  {
    var e := table[s];
    if e.marked && !marked {
      RootLevelAncestry(g, r);
      LinkOutcome(g, e.root, r);
    } else {
      RootLevelAncestry(g, e.root);
      LinkOutcome(g, r, e.root);
    }
  }

  /** No two roots of roots share a non-empty key, and none has a key already in the table. */
  ghost predicate FreshKeys(g: Graph, table: map<string, Entry>, roots: seq<nat>)
    requires Wf(g)
  {
    && (forall i :: 0 <= i < |roots| ==> Key(g, roots[i]) !in table)
    && (forall i, j :: 0 <= i < j < |roots| && Key(g, roots[i]) != [] ==> Key(g, roots[i]) != Key(g, roots[j]))
  }

  lemma {:induction false} GroupFromDistinct(g: Graph, table: map<string, Entry>, roots: seq<nat>)
    requires Wf(g) && TableWf(g, table) && forall x :: x in roots ==> 0 < x < |g.nodes|
    requires FreshKeys(g, table, roots)
    ensures GroupFrom(g, table, roots) == g
    decreases |roots|
  {
    if roots != [] {
      assert roots[0] in roots && forall x :: x in roots[1..] ==> x in roots;
      var (g1, t1) := GroupStep(g, table, roots[0]);
      assert g1 == g;
      assert forall i :: 0 <= i < |roots[1..]| ==> roots[1..][i] == roots[i + 1];
      GroupFromDistinct(g, t1, roots[1..]);
    }
  }

  /** When no two roots share a non-empty normalised subject, grouping changes nothing. */
  lemma GroupDistinct(g: Graph)
    requires Forest(g) && FreshKeys(g, map[], g.nodes[Root].children)
    ensures GroupBySubject(g) == g
  {
    RootSetWf(g);
    GroupFromDistinct(g, map[], g.nodes[Root].children);
  }
}
