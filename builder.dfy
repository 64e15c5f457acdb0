/**
  The builder as it works: one object owning the container arena and the id
  table, changed in place phase by phase. Every method is proved to leave the
  arena exactly as the corresponding phase function describes, so that what is
  proved about the phases (forest shape, the scenarios) holds of what the
  builder returns.
*/
module Builder {
  import opened Containers
  import opened Linking
  import opened Subjects
  import opened Pruning
  import opened Grouping
  import opened Threads

  class ThreadBuilder {
    /** The arena: container h is nodes[h]; nodes[Root] is the root container. */
    var nodes: seq<Container>
    /** The id table: message id to container handle. */
    var index: map<string, nat>

    /** The arena and id table as a value. */
    function State(): Graph
      reads this
    {
      Graph(nodes, index)
    }

    constructor ()
      ensures State() == Empty()
    {
      nodes, index := [Placeholder], map[];
    }

    /** The container for id, created as a placeholder on first sight. */
    method GetOrCreate(id: string) returns (h: nat)
      requires Wf(State())
      modifies this
      ensures (State(), h) == Linking.GetOrCreate(old(State()), id)
    {
      if id in index {
        h := index[id];
      } else {
        h := |nodes|;
        nodes, index := nodes + [Placeholder], index[id := h];
      }
    }

    /** Puts m into container h. */
    method Fill(h: nat, m: Message)
      requires Wf(State()) && h < |nodes|
      modifies this
      ensures State() == Linking.Fill(old(State()), h, m)
    {
      nodes := nodes[h := nodes[h].(message := Some(m))];
    }

    /** Takes c out of its parent's child list. */
    method Detach(c: nat)
      requires Wf(State()) && c < |nodes|
      modifies this
      ensures State() == Linking.Detach(old(State()), c)
    {
      match nodes[c].parent
      case None =>
      case Some(q) =>
        nodes := nodes[q := nodes[q].(children := Without(nodes[q].children, c))];
        nodes := nodes[c := nodes[c].(parent := None)];
    }

    /** Appends c to p's child list. */
    method Attach(c: nat, p: nat)
      requires Wf(State()) && c < |nodes| && p < |nodes|
      modifies this
      ensures State() == Linking.Attach(old(State()), c, p)
    {
      nodes := nodes[p := nodes[p].(children := nodes[p].children + [c])];
      nodes := nodes[c := nodes[c].(parent := Some(p))];
    }

    /** The cycle guard: walks up from p, at most |nodes| steps, looking for c. */
    method Reaches(p: nat, c: nat) returns (found: bool)
      requires Wf(State()) && p < |nodes|
      ensures found <==> c in Ancestry(State(), p, |nodes|)
    {
      ghost var g := State();
      var x: nat, fuel: nat := p, |nodes|;
      while x != c && nodes[x].parent.Some? && fuel > 0
        invariant x < |g.nodes|
        invariant c in Ancestry(g, p, |g.nodes|) <==> c in Ancestry(g, x, fuel)
        decreases fuel
      {
        AncestryStep(g, x, fuel);
        x, fuel := nodes[x].parent.value, fuel - 1;
      }
      found := x == c;
    }

    /** Makes c a child of p unless that closes a cycle or c already is p's child. */
    method Link(c: nat, p: nat)
      requires Wf(State()) && c < |nodes| && p < |nodes|
      modifies this
      ensures State() == Linking.Link(old(State()), c, p)
    {
      if nodes[c].parent == Some(p) {
        return;
      }
      var cycle := Reaches(p, c);
      if !cycle {
        Detach(c);
        Attach(c, p);
      }
    }

    /** Walks a reference list, linking each referenced container under the one before it. */
    method LinkReferences(refs: seq<string>) returns (last: Option<nat>)
      requires Wf(State())
      modifies this
      ensures (State(), last) == Linking.LinkReferences(old(State()), refs)
    {
      last := None;
      var i := 0;
      while i < |refs|
        invariant i <= |refs|
        invariant (State(), last) == Linking.LinkReferences(old(State()), refs[..i])
      {
        LinkReferencesNext(old(State()), refs, i);
        var h := LinkNext(last, refs[i]);
        last := Some(h);
        i := i + 1;
      }
      assert refs[..i] == refs;
    }

    /** The container of id, linked under prev's container if there is one. */
    method LinkNext(prev: Option<nat>, id: string) returns (h: nat)
      requires Wf(State()) && (prev.Some? ==> prev.value < |nodes|)
      modifies this
      ensures (State(), h) == Linking.LinkNext(old(State()), prev, id)
    {
      h := GetOrCreate(id);
      if prev.Some? {
        Link(h, prev.value);
      }
    }

    /** Processes one message: its container receives it and is linked under its last reference. */
    method AddMessage(m: Message)
      requires Wf(State())
      modifies this
      ensures State() == Linking.AddMessage(old(State()), m)
    {
      var own := GetOrCreate(m.id);
      Fill(own, m);
      var last := LinkReferences(Dedup(m.references));
      if last.Some? {
        Link(own, last.value);
      }
    }

    /** Starts from the root container alone and processes the messages in input order. */
    method IndexAll(msgs: seq<Message>)
      modifies this
      ensures State() == Linking.IndexAll(msgs)
    {
      nodes, index := [Placeholder], map[];
      for i := 0 to |msgs|
        invariant State() == Linking.IndexAll(msgs[..i])
      {
        assert msgs[..i + 1][..i] == msgs[..i];
        AddMessage(msgs[i]);
      }
      assert msgs[..|msgs|] == msgs;
    }

    /** Hangs every parentless container under the root container, in creation order. */
    method AttachRoots()
      requires Wf(State())
      modifies this
      ensures State() == Linking.AttachRoots(old(State()), |old(nodes)|)
    {
      var n := |nodes|;
      for k := 1 to n
        invariant State() == Linking.AttachRoots(old(State()), k)
      {
        if nodes[k].parent.None? {
          Attach(k, Root);
        }
      }
    }

    /** The placeholder x gives its place in its parent's child list to its only child. */
    method Splice(x: nat)
      requires Wf(State()) && x < |nodes| && nodes[x].parent.Some? && |nodes[x].children| == 1
      modifies this
      ensures State() == Pruning.Splice(old(State()), x)
    {
      var q := nodes[x].parent.value;
      var k := nodes[x].children[0];
      assert ContainerWf(nodes[x], |nodes|) && k in nodes[x].children;
      nodes := nodes[q := nodes[q].(children := Replace(nodes[q].children, x, k))];
      nodes := nodes[x := nodes[x].(parent := None, children := [])];
      nodes := nodes[k := nodes[k].(parent := Some(q))];
    }

    /** Removes or splices x when it is a placeholder below the root set. */
    method PruneSelf(x: nat)
      requires Wf(State()) && x < |nodes|
      modifies this
      ensures State() == Pruning.PruneSelf(old(State()), x)
    {
      var c := nodes[x];
      if c.message.Some? || c.parent.None? || c.parent == Some(Root) {
      } else if |c.children| == 0 {
        Detach(x);
      } else if |c.children| == 1 {
        Splice(x);
      }
    }

    /** Prunes the subtree below x, then x itself. */
    method PruneNode(x: nat, fuel: nat)
      requires Wf(State()) && x < |nodes|
      modifies this
      ensures State() == Pruning.PruneNode(old(State()), x, fuel)
      decreases fuel, 0
    {
      if fuel > 0 {
        assert ContainerWf(nodes[x], |nodes|);
        PruneEach(nodes[x].children, fuel - 1);
        PruneSelf(x);
      }
    }

    /** Prunes each container of cs in turn. */
    method PruneEach(cs: seq<nat>, fuel: nat)
      requires Wf(State()) && forall c :: c in cs ==> c < |nodes|
      modifies this
      ensures State() == Pruning.PruneEach(old(State()), cs, fuel)
      decreases fuel, 1
    {
      var rest: seq<nat> := cs;
      while rest != []
        invariant Wf(State()) && forall c :: c in rest ==> c < |nodes|
        invariant Pruning.PruneEach(old(State()), cs, fuel) == Pruning.PruneEach(State(), rest, fuel)
        decreases |rest|
      {
        assert rest[0] in rest && forall c :: c in rest[1..] ==> c in rest;
        PruneNode(rest[0], fuel);
        rest := rest[1..];
      }
    }

    /** The pruning phase: below every container of the root set. */
    method Prune()
      requires Wf(State())
      modifies this
      ensures State() == Pruning.Prune(old(State()))
    {
      assert ContainerWf(nodes[Root], |nodes|);
      var roots: seq<nat>, n: nat := nodes[Root].children, |nodes|;
      while roots != []
        invariant Wf(State()) && |nodes| == n && forall c :: c in roots ==> c < |nodes|
        invariant Pruning.Prune(old(State())) == PruneBelow(State(), roots, n)
        decreases |roots|
      {
        assert roots[0] in roots && forall c :: c in roots[1..] ==> c in roots;
        assert ContainerWf(nodes[roots[0]], |nodes|);
        PruneEach(nodes[roots[0]].children, n);
        roots := roots[1..];
      }
    }

    /** Grouping step for the root r: records its subject, or joins it with the root holding that subject. */
    method GroupStep(table: map<string, Entry>, r: nat) returns (table': map<string, Entry>)
      requires Wf(State()) && TableWf(State(), table) && 0 < r < |nodes|
      modifies this
      ensures (State(), table') == Grouping.GroupStep(old(State()), table, r)
    {
      table' := table;
      var rep := Representative(State(), r);
      if rep.Some? {
        var s, marked := Normalize(rep.value.subject), HasMarker(rep.value.subject);
        if s != [] && s !in table {
          table' := table[s := Entry(r, marked)];
        } else if s != [] {
          var e := table[s];
          if e.marked && !marked {
            Link(e.root, r);
            table' := table[s := Entry(r, marked)];
          } else {
            Link(r, e.root);
          }
        }
      }
    }

    /** The grouping phase, over the root set as it stands when the phase starts. */
    method GroupBySubject()
      requires Forest(State())
      modifies this
      ensures State() == Grouping.GroupBySubject(old(State()))
    {
      RootSetWf(State());
      var roots: seq<nat>, n: nat := nodes[Root].children, |nodes|;
      var table: map<string, Entry> := map[];
      while roots != []
        invariant Wf(State()) && TableWf(State(), table) && |nodes| == n
        invariant forall x :: x in roots ==> 0 < x < |nodes|
        invariant Grouping.GroupBySubject(old(State())) == GroupFrom(State(), table, roots)
        decreases |roots|
      {
        assert roots[0] in roots && forall x :: x in roots[1..] ==> x in roots;
        table := GroupStep(table, roots[0]);
        roots := roots[1..];
      }
    }

    /** All four phases over the messages, then the root set with the tree below each root. */
    method Build(msgs: seq<Message>) returns (threads: seq<Thread>)
      modifies this
      ensures threads == Threads.Build(msgs)
      ensures State() == Grouped(msgs)
    {
      IndexAll(msgs);
      AttachRoots();
      assert State() == Linked(msgs);
      LinkedForest(msgs);
      PruneKeeps(Linked(msgs));
      Prune();
      assert State() == Pruning.Prune(Linked(msgs));
      GroupBySubject();
      assert State() == Grouped(msgs);
      threads := SnapshotAll(State(), Root, nodes[Root].children);
    }
  }
}
