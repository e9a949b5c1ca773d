/** Conservation of edges over all stored graphs that migration `9079ae19374b` compiles in one run. */
module GraphConservation {
  import opened ActionGraph
  import opened Uuids
  import opened WorkflowGraphs
  import opened Wrappers

  function EdgesOf(w: Workflow): seq<Edge> {
    if w.graph.Some? then w.graph.value.edges else []
  }

  /** The edges of all stored graphs, graph by graph. */
  function StoredEdges(workflows: seq<Workflow>): seq<Edge> {
    if workflows == [] then [] else StoredEdges(workflows[..|workflows| - 1]) + EdgesOf(workflows[|workflows| - 1])
  }

  /** Every edge of the workflow's graph targets one of its udf nodes that is backed by an action row. */
  ghost predicate WorkflowLands(actions: seq<Action>, w: Workflow) {
    w.graph.Some? ==> AllLand(actions, w.graph.value.nodes, w.graph.value.edges)
  }

  /** No edge targets an action that the nodes stand for. */
  ghost predicate NoneServed(edges: seq<Edge>, nodes: seq<Node>) {
    forall i :: 0 <= i < |edges| ==> Coerce(edges[i].target).Some? ==> !Serves(nodes, Coerce(edges[i].target).value)
  }

  /** The later graph does not stand for an action that an edge of the earlier graph targets. */
  ghost predicate LeavesAlone(earlier: Workflow, later: Workflow) {
    earlier.graph.Some? && later.graph.Some? ==> NoneServed(earlier.graph.value.edges, later.graph.value.nodes)
  }

  ghost predicate AllLeftAlone(workflows: seq<Workflow>) {
    forall i, j {:trigger LeavesAlone(workflows[i], workflows[j])} :: 0 <= i < j < |workflows| ==>
      LeavesAlone(workflows[i], workflows[j])
  }

  ghost predicate AllWorkflowsLand(actions: seq<Action>, workflows: seq<Workflow>) {
    forall i :: 0 <= i < |workflows| ==> WorkflowLands(actions, workflows[i])
  }

  ghost predicate Conserving(actions: seq<Action>, workflows: seq<Workflow>) {
    AllWorkflowsLand(actions, workflows) && AllLeftAlone(workflows)
  }

  // ---------------------------------------------------------------- one more graph

  /** The links of the rows that some nodes stand for, and of the others. */
  ghost function LinksOf(nodes: seq<Node>, rows: seq<Action>, served: bool): seq<Link> {
    if rows == [] then []
    else
      var last := rows[|rows| - 1];
      LinksOf(nodes, rows[..|rows| - 1], served) +
      (if Serves(nodes, last.id) == served then UpstreamLinks(last.upstream, last.id) else [])
  }

  lemma {:induction false} LinksSplit(nodes: seq<Node>, rows: seq<Action>)
    ensures multiset(ActionLinks(rows)) == multiset(LinksOf(nodes, rows, true)) + multiset(LinksOf(nodes, rows, false))
    decreases |rows|
  {
    if rows != [] {
      LinksSplit(nodes, rows[..|rows| - 1]);
    }
  }

  function LinksInto(a: Action): seq<Link> {
    UpstreamLinks(a.upstream, a.id)
  }

  lemma ActionLinksSnoc(whole: seq<Action>, front: seq<Action>, a: Action)
    requires whole == front + [a]
    ensures multiset(ActionLinks(whole)) == multiset(ActionLinks(front)) + multiset(LinksInto(a))
  {
    assert whole[..|front|] == front;
  }

  lemma LinksOfSnoc(nodes: seq<Node>, whole: seq<Action>, front: seq<Action>, a: Action, served: bool)
    requires whole == front + [a]
    ensures multiset(LinksOf(nodes, whole, served)) == multiset(LinksOf(nodes, front, served)) +
              (if Serves(nodes, a.id) == served then multiset(LinksInto(a)) else multiset{})
  {
    assert whole[..|front|] == front;
  }

  lemma CompiledInto(edges: seq<Edge>, nodes: seq<Node>, b: Action, a: Action)
    requires Compiled(edges, nodes, b, a)
    ensures LinksInto(a) == if Serves(nodes, b.id) then UpstreamLinks(UpstreamOf(edges, b.id), b.id) else LinksInto(b)
  {}

  lemma LinksAfterMore(edges: seq<Edge>, nodes: seq<Node>, before: seq<Action>, front: seq<Action>, b: Action,
                       after: seq<Action>, front': seq<Action>, a: Action)
    requires before == front + [b] && after == front' + [a]
    requires LinksInto(a) == if Serves(nodes, b.id) then UpstreamLinks(UpstreamOf(edges, b.id), b.id) else LinksInto(b)
    requires multiset(ActionLinks(front')) ==
             multiset(CompiledLinks(edges, nodes, front)) + multiset(LinksOf(nodes, front, false))
    ensures multiset(ActionLinks(after)) ==
            multiset(CompiledLinks(edges, nodes, before)) + multiset(LinksOf(nodes, before, false))
  {
    ActionLinksSnoc(after, front', a);
    LinksOfSnoc(nodes, before, front, b, false);
    CompiledLinksSnoc(edges, nodes, front, b);
  }

  lemma {:induction false} LinksAfter(edges: seq<Edge>, nodes: seq<Node>, before: seq<Action>, after: seq<Action>)
    requires |after| == |before|
    requires forall i :: 0 <= i < |before| ==> Compiled(edges, nodes, before[i], after[i])
    ensures multiset(ActionLinks(after)) ==
            multiset(CompiledLinks(edges, nodes, before)) + multiset(LinksOf(nodes, before, false))
    decreases |before|
  {
    if before != [] {
      var front, b := Unsnoc(before);
      var front', a := Unsnoc(after);
      assert before[|front|] == b && after[|front|] == a;
      assert forall i :: 0 <= i < |front| ==> front[i] == before[i] && front'[i] == after[i];
      LinksAfter(edges, nodes, front, front');
      CompiledInto(edges, nodes, b, a);
      LinksAfterMore(edges, nodes, before, front, b, after, front', a);
    }
  }

  /** Compiling a graph adds the links of the edges that land, and takes away what the served rows held. */
  lemma {:induction false} OneMoreGraph(edges: seq<Edge>, nodes: seq<Node>, rows: seq<Action>)
    requires DistinctIds(rows)
    ensures multiset(ActionLinks(CompileNodes(edges, rows, nodes))) + multiset(LinksOf(nodes, rows, true)) ==
            multiset(ActionLinks(rows)) + multiset(EdgeLinks(Landing(rows, nodes, edges)))
  {
    CompileNodesMeaning(edges, rows, nodes);
    LinksAfter(edges, nodes, rows, CompileNodes(edges, rows, nodes));
    CompiledLinksAreLanding(edges, nodes, rows);
    LinksSplit(nodes, rows);
  }

  // ---------------------------------------------------------------- the rows in between

  ghost predicate SameIds(a: seq<Action>, b: seq<Action>) {
    |a| == |b| && forall i :: 0 <= i < |a| ==> a[i].id == b[i].id
  }

  lemma {:induction false} CompileKeepsIds(actions: seq<Action>, workflows: seq<Workflow>)
    ensures SameIds(actions, CompileGraphs(actions, workflows))
  {
    if workflows != [] {
      var prior := CompileGraphs(actions, workflows[..|workflows| - 1]);
      CompileKeepsIds(actions, workflows[..|workflows| - 1]);
      if workflows[|workflows| - 1].graph.Some? {
        var g := workflows[|workflows| - 1].graph.value;
        CompileNodesMeaning(g.edges, prior, g.nodes);
        assert forall i :: 0 <= i < |prior| ==> Compiled(g.edges, g.nodes, prior[i], CompileNodes(g.edges, prior, g.nodes)[i]);
      }
    }
  }

  lemma SameIdsLand(a: seq<Action>, b: seq<Action>, nodes: seq<Node>, edges: seq<Edge>)
    requires SameIds(a, b)
    ensures DistinctIds(a) <==> DistinctIds(b)
    ensures AllLand(a, nodes, edges) <==> AllLand(b, nodes, edges)
  {
    forall u ensures HasRow(a, u) <==> HasRow(b, u) {
      if HasRow(a, u) {
        var i :| 0 <= i < |a| && a[i].id == u;
        assert b[i].id == u;
      }
      if HasRow(b, u) {
        var i :| 0 <= i < |b| && b[i].id == u;
        assert a[i].id == u;
      }
    }
    assert forall i :: 0 <= i < |edges| ==> (Lands(a, nodes, edges[i]) <==> Lands(b, nodes, edges[i]));
  }

  /** Rows that some nodes stand for hold no links exactly when no link at all is into one of them. */
  lemma {:induction false} ServedHoldNothing(nodes: seq<Node>, rows: seq<Action>)
    ensures LinksOf(nodes, rows, true) == [] <==>
            forall l :: l in ActionLinks(rows) ==> l.target.Some? && !Serves(nodes, l.target.value)
    decreases |rows|
  {
    if rows != [] {
      var front, last := rows[..|rows| - 1], rows[|rows| - 1];
      ServedHoldNothing(nodes, front);
      var own := UpstreamLinks(last.upstream, last.id);
      assert forall l :: l in ActionLinks(rows) <==> l in ActionLinks(front) || l in own;
      if last.upstream != [] {
        assert own[0] in own;
      }
    }
  }

  /** The same of the edges that the links came from. */
  lemma {:induction false} ServedByLinks(nodes: seq<Node>, rows: seq<Action>, edges: seq<Edge>)
    requires multiset(ActionLinks(rows)) == multiset(EdgeLinks(edges))
    requires forall i :: 0 <= i < |edges| ==> Coerce(edges[i].target).Some?
    ensures LinksOf(nodes, rows, true) == [] <==> NoneServed(edges, nodes)
  {
    ServedHoldNothing(nodes, rows);
    var links := EdgeLinks(edges);
    forall l ensures l in ActionLinks(rows) <==> l in links {
      assert l in ActionLinks(rows) <==> l in multiset(ActionLinks(rows));
      assert l in links <==> l in multiset(links);
    }
    assert forall i :: 0 <= i < |edges| ==> links[i] in links && links[i].target == Coerce(edges[i].target);
  }

  // ---------------------------------------------------------------- conditions, one workflow at a time

  lemma LandsSnoc(actions: seq<Action>, whole: seq<Workflow>, front: seq<Workflow>, w: Workflow)
    requires whole == front + [w]
    ensures AllWorkflowsLand(actions, whole) <==> AllWorkflowsLand(actions, front) && WorkflowLands(actions, w)
  {
    assert whole[|front|] == w;
    assert forall i :: 0 <= i < |front| ==> whole[i] == front[i];
  }

  ghost predicate AllLeave(workflows: seq<Workflow>, w: Workflow) {
    forall i :: 0 <= i < |workflows| ==> LeavesAlone(workflows[i], w)
  }

  lemma AloneSnoc(whole: seq<Workflow>, front: seq<Workflow>, w: Workflow)
    requires whole == front + [w]
    ensures AllLeftAlone(whole) <==>
            AllLeftAlone(front) && AllLeave(front, w)
  {
    assert whole[|front|] == w;
    assert forall i :: 0 <= i < |front| ==> whole[i] == front[i];
    if AllLeftAlone(whole) {
      forall i, j | 0 <= i < j < |front| ensures LeavesAlone(front[i], front[j]) {
        assert LeavesAlone(whole[i], whole[j]);
      }
      forall i | 0 <= i < |front| ensures LeavesAlone(front[i], w) {
        assert LeavesAlone(whole[i], whole[|front|]);
      }
    }
  }

  lemma NoneServedConcat(a: seq<Edge>, b: seq<Edge>, nodes: seq<Node>)
    ensures NoneServed(a + b, nodes) <==> NoneServed(a, nodes) && NoneServed(b, nodes)
  {
    var all := a + b;
    assert forall i :: 0 <= i < |a| ==> all[i] == a[i];
    assert forall i :: 0 <= i < |b| ==> all[|a| + i] == b[i];
    if NoneServed(all, nodes) {
      forall i | 0 <= i < |b| ensures Coerce(b[i].target).Some? ==> !Serves(nodes, Coerce(b[i].target).value) {
        assert all[|a| + i] == b[i];
      }
    }
  }

  lemma StoredEdgesSnoc(whole: seq<Workflow>, front: seq<Workflow>, w: Workflow)
    requires whole == front + [w]
    ensures StoredEdges(whole) == StoredEdges(front) + EdgesOf(w)
  {
    assert whole[..|front|] == front;
  }

  lemma AllLeaveSnoc(whole: seq<Workflow>, front: seq<Workflow>, last: Workflow, w: Workflow)
    requires whole == front + [last]
    ensures AllLeave(whole, w) <==> AllLeave(front, w) && LeavesAlone(last, w)
  {
    assert whole[|front|] == last && forall i :: 0 <= i < |front| ==> whole[i] == front[i];
  }

  /** All graphs so far leave a graph alone exactly when none of their edges targets an action of its nodes. */
  lemma {:induction false} AloneIsUnserved(workflows: seq<Workflow>, w: Workflow, nodes: seq<Node>)
    requires w.graph.Some? && w.graph.value.nodes == nodes
    ensures AllLeave(workflows, w) <==> NoneServed(StoredEdges(workflows), nodes)
    decreases |workflows|
  {
    if workflows != [] {
      var front, last := Unsnoc(workflows);
      AloneIsUnserved(front, w, nodes);
      StoredEdgesSnoc(workflows, front, last);
      NoneServedConcat(StoredEdges(front), EdgesOf(last), nodes);
      AllLeaveSnoc(workflows, front, last, w);
      assert LeavesAlone(last, w) <==> NoneServed(EdgesOf(last), nodes);
    }
  }

  lemma {:induction false} LandingTargets(actions: seq<Action>, workflows: seq<Workflow>)
    requires AllWorkflowsLand(actions, workflows)
    ensures forall i :: 0 <= i < |StoredEdges(workflows)| ==> Coerce(StoredEdges(workflows)[i].target).Some?
    decreases |workflows|
  {
    if workflows != [] {
      var front, last := workflows[..|workflows| - 1], workflows[|workflows| - 1];
      assert workflows == front + [last];
      LandsSnoc(actions, workflows, front, last);
      LandingTargets(actions, front);
      if last.graph.Some? {
        assert forall i :: 0 <= i < |last.graph.value.edges| ==>
          Lands(actions, last.graph.value.nodes, last.graph.value.edges[i]);
      }
    }
  }

  // ---------------------------------------------------------------- all graphs

  /** Links and stored edges after some graphs: never more links, and the same ones exactly under the condition. */
  ghost predicate Balanced(actions: seq<Action>, workflows: seq<Workflow>, rows: seq<Action>) {
    && |ActionLinks(rows)| <= |StoredEdges(workflows)|
    && (|ActionLinks(rows)| == |StoredEdges(workflows)| <==> Conserving(actions, workflows))
    && (Conserving(actions, workflows) ==> multiset(ActionLinks(rows)) == multiset(EdgeLinks(StoredEdges(workflows))))
  }

  lemma MultisetSizes(links: seq<Link>, kept: seq<Link>, prior: seq<Link>, landing: seq<Link>)
    requires multiset(links) + multiset(kept) == multiset(prior) + multiset(landing)
    ensures |links| + |kept| == |prior| + |landing|
  {
    assert |multiset(links) + multiset(kept)| == |links| + |kept|;
    assert |multiset(prior) + multiset(landing)| == |prior| + |landing|;
  }

  lemma EdgeLinksSnoc(whole: seq<Edge>, front: seq<Edge>, e: Edge)
    requires whole == front + [e]
    ensures EdgeLinks(whole) == EdgeLinks(front) + [LinkOfEdge(e)]
  {}

  lemma {:induction false} EdgeLinksConcat(a: seq<Edge>, b: seq<Edge>)
    ensures multiset(EdgeLinks(a + b)) == multiset(EdgeLinks(a)) + multiset(EdgeLinks(b))
    decreases |b|
  {
    if b == [] {
      assert a + b == a;
    } else {
      var front, e := Unsnoc(b);
      EdgeLinksConcat(a, front);
      assert a + b == (a + front) + [e];
      EdgeLinksSnoc(a + b, a + front, e);
      EdgeLinksSnoc(b, front, e);
    }
  }

  lemma {:induction false} BalancedMore(
      actions: seq<Action>, whole: seq<Workflow>, front: seq<Workflow>, w: Workflow, g: Graph, rows: seq<Action>)
    requires DistinctIds(actions) && SameIds(actions, rows) && whole == front + [w] && w.graph == Some(g)
    requires Balanced(actions, front, rows)
    ensures Balanced(actions, whole, CompileNodes(g.edges, rows, g.nodes))
  {
    var landing, served := Landing(rows, g.nodes, g.edges), LinksOf(g.nodes, rows, true);
    var after, stored := CompileNodes(g.edges, rows, g.nodes), StoredEdges(front);
    SameIdsLand(actions, rows, g.nodes, g.edges);
    OneMoreGraph(g.edges, g.nodes, rows);
    MultisetSizes(ActionLinks(after), served, ActionLinks(rows), EdgeLinks(landing));
    LandingSize(rows, g.nodes, g.edges);
    LandsSnoc(actions, whole, front, w);
    AloneSnoc(whole, front, w);
    StoredEdgesSnoc(whole, front, w);
    EdgeLinksConcat(stored, g.edges);
    if Conserving(actions, front) {
      ServedUnlessAlone(actions, front, w, g, rows);
    }
  }

  /** While nothing is lost, the rows that a graph overwrites hold nothing exactly if the graphs so far leave it alone. */
  lemma ServedUnlessAlone(actions: seq<Action>, front: seq<Workflow>, w: Workflow, g: Graph, rows: seq<Action>)
    requires w.graph == Some(g) && AllWorkflowsLand(actions, front)
    requires multiset(ActionLinks(rows)) == multiset(EdgeLinks(StoredEdges(front)))
    ensures LinksOf(g.nodes, rows, true) == [] <==> AllLeave(front, w)
  {
    LandingTargets(actions, front);
    ServedByLinks(g.nodes, rows, StoredEdges(front));
    AloneIsUnserved(front, w, g.nodes);
  }

  lemma {:induction false} FreshHoldNothing(actions: seq<Action>)
    ensures ActionLinks(FreshActions(actions)) == []
    decreases |actions|
  {
    if actions != [] {
      assert FreshActions(actions)[..|actions| - 1] == FreshActions(actions[..|actions| - 1]);
      FreshHoldNothing(actions[..|actions| - 1]);
    }
  }

  /** A workflow without a graph changes nothing. */
  lemma BalancedSame(actions: seq<Action>, whole: seq<Workflow>, front: seq<Workflow>, w: Workflow, rows: seq<Action>)
    requires whole == front + [w] && w.graph == None && Balanced(actions, front, rows)
    ensures Balanced(actions, whole, rows)
  {
    LandsSnoc(actions, whole, front, w);
    AloneSnoc(whole, front, w);
    assert whole[..|front|] == front && StoredEdges(front) + [] == StoredEdges(front);
  }

  lemma {:induction false} AllBalanced(actions: seq<Action>, workflows: seq<Workflow>)
    requires DistinctIds(actions)
    ensures Balanced(actions, workflows, CompileGraphs(FreshActions(actions), workflows))
    decreases |workflows|
  {
    var rows := FreshActions(actions);
    if workflows == [] {
      FreshHoldNothing(actions);
    } else {
      var front, last := workflows[..|workflows| - 1], workflows[|workflows| - 1];
      var prior := CompileGraphs(rows, front);
      AllBalanced(actions, front);
      if last.graph.Some? {
        CompileKeepsIds(rows, front);
        assert SameIds(actions, prior);
        BalancedMore(actions, workflows, front, last, last.graph.value, prior);
      } else {
        BalancedSame(actions, workflows, front, last, prior);
      }
    }
  }

  /**
   * The whole upgrade conserves edges: the links of all action rows are those of the edges of all stored
   * graphs, none lost and none duplicated, exactly when every edge targets a udf node of its own graph that
   * is backed by an action row, and no later graph stands for an action that an earlier graph's edge targets.
   */
  lemma UpgradeConservesEdges(db: Db)
    requires DistinctIds(db.actions)
    ensures multiset(ActionLinks(Upgraded(db).actions)) == multiset(EdgeLinks(StoredEdges(db.workflows))) <==>
            AllWorkflowsLand(db.actions, db.workflows) && AllLeftAlone(db.workflows)
  {
    var rows := Upgraded(db).actions;
    AllBalanced(db.actions, db.workflows);
    if multiset(ActionLinks(rows)) == multiset(EdgeLinks(StoredEdges(db.workflows))) {
      assert |multiset(ActionLinks(rows))| == |ActionLinks(rows)|;
      assert |multiset(EdgeLinks(StoredEdges(db.workflows)))| == |StoredEdges(db.workflows)|;
    }
  }
}
