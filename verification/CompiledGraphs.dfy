/**
 * What migration `9079ae19374b` reads and writes, said on the keys of the stored graphs and on the columns
 * of the rows.
 */
module CompiledGraphs {
  import opened ActionGraph
  import opened GraphFormats
  import opened Uuids
  import opened WorkflowGraphs
  import opened Wrappers

  // ---------------------------------------------------------------- one edge

  predicate IsTriggerEdge(e: Edge) {
    e.source.Some? && "trigger-" <= e.source.value
  }

  /** The camel-case handle wherever there is one, and the snake-case one otherwise, says `error`. */
  predicate IsErrorEdge(e: Edge) {
    || e.sourceHandle == Some("error")
    || ((e.sourceHandle == None || e.sourceHandle == Some("")) && e.source_handle == Some("error"))
  }

  /** The entry names its source: a UUID printed, and any other text as it is. */
  ghost predicate NamesSource(source: string, id: string) {
    && (Coerce(Some(source)) == None ==> id == source)
    && (forall u :: Coerce(Some(source)) == Some(u) ==> |u| == 32 && id == UuidText(u))
  }

  ghost predicate IsEntryOf(e: Edge, up: Upstream) {
    if IsTriggerEdge(e) then up == Upstream(e.source, Some("trigger"), None)
    else
      && up.source_type == Some("udf") && up.source_handle == Some(if IsErrorEdge(e) then "error" else "success")
      && up.source_id.Some? && NamesSource(if e.source.Some? then e.source.value else "", up.source_id.value)
  }

  lemma SourceNamed(source: Option<string>, s: string)
    requires s == (if source.Some? then source.value else "")
    ensures "trigger-" <= s ==> NormalizeSource(source) == s
    ensures !("trigger-" <= s) ==> !IsTrigger(NormalizeSource(source)) && NamesSource(s, NormalizeSource(source))
  {
    NormalizeTwice(source);
    CoerceIsUuid(Some(s));
  }

  lemma HandleMeaning(e: Edge)
    ensures Handle(e) == if IsErrorEdge(e) then "error" else "success"
  {}

  /** An edge from a trigger gives an entry without handle; any other gives `error` exactly where its keys say so. */
  lemma EntryMeaning(e: Edge)
    ensures IsEntryOf(e, CompileEdge(e))
  {
    var source := if e.source.Some? then e.source.value else "";
    SourceNamed(e.source, source);
    var id := NormalizeSource(e.source);
    if IsTriggerEdge(e) {
      assert IsTrigger(id);
      assert CompileEdge(e) == Upstream(Some(id), Some("trigger"), None);
    } else {
      HandleMeaning(e);
      assert !("trigger-" <= source);
      assert CompileEdge(e) == Upstream(Some(id), Some("udf"), Some(if IsErrorEdge(e) then "error" else "success"));
    }
  }

  // ---------------------------------------------------------------- the edges of one action

  /** The chosen positions, in order. */
  ghost predicate InOrder(picks: seq<nat>, chosen: set<nat>) {
    && (forall j, k :: 0 <= j < k < |picks| ==> picks[j] < picks[k])
    && (forall i: nat :: i in picks <==> i in chosen)
  }

  lemma InOrderSnoc(picks: seq<nat>, chosen: set<nat>, n: nat)
    requires InOrder(picks, chosen) && forall i :: i in chosen ==> i < n
    ensures InOrder(picks + [n], chosen + {n})
  {
    forall k | 0 <= k < |picks| ensures picks[k] < n {
      assert picks[k] in picks;
    }
    forall i: nat ensures i in picks + [n] <==> i in picks || i == n {}
  }

  ghost predicate PointsAt(e: Edge, u: string) {
    Coerce(e.target) == Some(u)
  }

  ghost function Pointing(edges: seq<Edge>, u: string): set<nat> {
    set i: nat | i < |edges| && PointsAt(edges[i], u)
  }

  lemma PointingSnoc(whole: seq<Edge>, front: seq<Edge>, e: Edge, u: string)
    requires whole == front + [e]
    ensures Pointing(whole, u) == if PointsAt(e, u) then Pointing(front, u) + {|front|} else Pointing(front, u)
  {
    assert whole[|front|] == e && forall i :: 0 <= i < |front| ==> whole[i] == front[i];
  }

  /** One entry for each picked edge, in order. */
  ghost predicate AreEntriesOf(edges: seq<Edge>, picks: seq<nat>, upstream: seq<Upstream>) {
    && |upstream| == |picks|
    && (forall k :: 0 <= k < |picks| ==> picks[k] < |edges| && IsEntryOf(edges[picks[k]], upstream[k]))
  }

  ghost predicate Enters(edges: seq<Edge>, u: string, upstream: seq<Upstream>) {
    exists picks: seq<nat> :: InOrder(picks, Pointing(edges, u)) && AreEntriesOf(edges, picks, upstream)
  }

  lemma OneMoreEntry(
      whole: seq<Edge>, front: seq<Edge>, e: Edge, picks: seq<nat>, upstream: seq<Upstream>, up: Upstream)
    requires whole == front + [e] && AreEntriesOf(front, picks, upstream) && IsEntryOf(e, up)
    ensures AreEntriesOf(whole, picks, upstream) && AreEntriesOf(whole, picks + [|front|], upstream + [up])
  {
    assert whole[|front|] == e && forall i :: 0 <= i < |front| ==> whole[i] == front[i];
  }

  /** An action gets one entry for each edge that points at it, in edge order, and no other. */
  lemma {:induction false} UpstreamExactly(edges: seq<Edge>, u: string) returns (picks: seq<nat>)
    ensures InOrder(picks, Pointing(edges, u)) && AreEntriesOf(edges, picks, UpstreamOf(edges, u))
    decreases |edges|
  {
    if edges == [] {
      picks := [];
    } else {
      var front, last := Unsnoc(edges);
      picks := UpstreamExactly(front, u);
      UpstreamSnoc(edges, front, last, u);
      EntryMeaning(last);
      PointingSnoc(edges, front, last, u);
      OneMoreEntry(edges, front, last, picks, UpstreamOf(front, u), CompileEdge(last));
      if PointsAt(last, u) {
        InOrderSnoc(picks, Pointing(front, u), |front|);
        picks := picks + [|front|];
      } else {
        assert UpstreamOf(front, u) + [] == UpstreamOf(front, u);
      }
    }
  }

  // ---------------------------------------------------------------- one graph

  ghost predicate StandsFor(node: Node, u: string) {
    node.kind == Some("udf") && Coerce(node.id) == Some(u)
  }

  /** The i-th node is the last one that stands for the action. */
  ghost predicate LastFor(nodes: seq<Node>, u: string, i: nat) {
    && i < |nodes| && StandsFor(nodes[i], u)
    && forall j :: i < j < |nodes| ==> !StandsFor(nodes[j], u)
  }

  ghost predicate NoneFor(nodes: seq<Node>, u: string) {
    forall i :: 0 <= i < |nodes| ==> !StandsFor(nodes[i], u)
  }

  ghost predicate IsAt(position: Position, x: real, y: real) {
    && x == (if position.x.Some? then position.x.value else 0.0)
    && y == (if position.y.Some? then position.y.value else 0.0)
  }

  /** The row as the graph describes its action: where the last node lies, with the entries of its edges. */
  ghost predicate Describes(g: Graph, before: Action, after: Action) {
    && after.id == before.id && after.workflow == before.workflow && after.title == before.title
    && Enters(g.edges, before.id, after.upstream)
    && exists i: nat :: LastFor(g.nodes, before.id, i) && IsAt(g.nodes[i].position, after.x, after.y)
  }

  /** Compiling a graph describes exactly the rows that its udf nodes stand for, and keeps the others. */
  lemma GraphRows(g: Graph, actions: seq<Action>, k: nat)
    requires k < |actions|
    ensures |CompileNodes(g.edges, actions, g.nodes)| == |actions|
    ensures var after := CompileNodes(g.edges, actions, g.nodes)[k];
            if NoneFor(g.nodes, actions[k].id) then after == actions[k] else Describes(g, actions[k], after)
  {
    CompileNodesMeaning(g.edges, actions, g.nodes);
    var before, after := actions[k], CompileNodes(g.edges, actions, g.nodes)[k];
    assert Compiled(g.edges, g.nodes, before, after);
    forall i | 0 <= i < |g.nodes|
      ensures ActionOf(g.nodes[i]) == Some(before.id) <==> StandsFor(g.nodes[i], before.id)
    {}
    if Serves(g.nodes, before.id) {
      var picks := UpstreamExactly(g.edges, before.id);
      var i: nat :| LastNodeOf(g.nodes, after.id, i) &&
                    after.x == GetOr(g.nodes[i].position.x, 0.0) && after.y == GetOr(g.nodes[i].position.y, 0.0);
      assert LastFor(g.nodes, before.id, i) && IsAt(g.nodes[i].position, after.x, after.y);
    }
  }

  /** The i-th node is the last trigger. */
  ghost predicate LastTrigger(nodes: seq<Node>, i: nat) {
    i < |nodes| && nodes[i].kind == Some("trigger") && forall j :: i < j < |nodes| ==> nodes[j].kind != Some("trigger")
  }

  ghost predicate IsView(v: Viewport, layout: Layout) {
    && layout.x == (if v.x.Some? then v.x.value else 0.0)
    && layout.y == (if v.y.Some? then v.y.value else 0.0)
    && layout.zoom == (if v.zoom.Some? then v.zoom.value else 1.0)
  }

  /** What the last trigger of a graph, if it has one, makes of a layout. */
  ghost predicate IsLayoutOf(g: Graph, nodes: seq<Node>, layout: Layout, r: Layout) {
    && ((forall i :: 0 <= i < |nodes| ==> nodes[i].kind != Some("trigger")) ==> r == layout)
    && (forall i: nat :: LastTrigger(nodes, i) ==>
          IsAt(nodes[i].position, r.triggerX, r.triggerY) && IsView(g.viewport, r) && r.version == layout.version)
  }

  lemma LayoutSnoc(g: Graph, nodes: seq<Node>, front: seq<Node>, last: Node, layout: Layout, r: Layout)
    requires nodes == front + [last]
    ensures last.kind != Some("trigger") && IsLayoutOf(g, front, layout, r) ==> IsLayoutOf(g, nodes, layout, r)
    ensures last.kind == Some("trigger") && IsAt(last.position, r.triggerX, r.triggerY) &&
              IsView(g.viewport, r) && r.version == layout.version ==>
              IsLayoutOf(g, nodes, layout, r)
  {
    assert nodes[|front|] == last && forall i :: 0 <= i < |front| ==> nodes[i] == front[i];
    if last.kind != Some("trigger") {
      forall i: nat | LastTrigger(nodes, i) ensures LastTrigger(front, i) {
        assert i != |front|;
      }
    } else {
      forall i: nat | LastTrigger(nodes, i) ensures i == |front| {}
    }
  }

  /** The layout is that of the last trigger and the viewport; without a trigger it stays. */
  lemma {:induction false} LayoutExactly(g: Graph, nodes: seq<Node>, layout: Layout)
    ensures IsLayoutOf(g, nodes, layout, CompileLayout(g, nodes, layout))
    decreases |nodes|
  {
    if nodes != [] {
      var front, last := Unsnoc(nodes);
      assert front == nodes[..|nodes| - 1];
      LayoutExactly(g, front, layout);
      LayoutSnoc(g, nodes, front, last, layout, CompileLayout(g, nodes, layout));
    }
  }

  // ---------------------------------------------------------------- the whole upgrade

  ghost predicate DescribedBy(w: Workflow, u: string) {
    w.graph.Some? && !NoneFor(w.graph.value.nodes, u)
  }

  /** The j-th workflow is the last whose graph has a node for the action. */
  ghost predicate LastDescription(workflows: seq<Workflow>, u: string, j: nat) {
    && j < |workflows| && DescribedBy(workflows[j], u)
    && forall k :: j < k < |workflows| ==> !DescribedBy(workflows[k], u)
  }

  /** The row as the last graph with a node for the action describes it; without one, at the origin, no entries. */
  ghost predicate IsUpgradedRow(workflows: seq<Workflow>, before: Action, after: Action) {
    && after.id == before.id && after.workflow == before.workflow && after.title == before.title
    && ((forall j :: 0 <= j < |workflows| ==> !DescribedBy(workflows[j], before.id)) ==>
          after.x == 0.0 && after.y == 0.0 && after.upstream == [])
    && (forall j: nat :: LastDescription(workflows, before.id, j) ==>
          Describes(workflows[j].graph.value, before, after))
  }

  lemma OneMoreDescription(workflows: seq<Workflow>, front: seq<Workflow>, w: Workflow,
                           before: Action, prior: Action, after: Action)
    requires workflows == front + [w] && IsUpgradedRow(front, before, prior)
    requires if DescribedBy(w, before.id) then Describes(w.graph.value, prior, after) else after == prior
    ensures IsUpgradedRow(workflows, before, after)
  {
    assert workflows[|front|] == w && forall j :: 0 <= j < |front| ==> workflows[j] == front[j];
    forall j: nat | LastDescription(workflows, before.id, j)
      ensures Describes(workflows[j].graph.value, before, after)
    {
      if j < |front| {
        assert LastDescription(front, before.id, j);
      }
    }
  }

  lemma {:induction false} UpgradedRow(workflows: seq<Workflow>, actions: seq<Action>, k: nat)
    requires k < |actions|
    ensures |CompileGraphs(FreshActions(actions), workflows)| == |actions|
    ensures IsUpgradedRow(workflows, actions[k], CompileGraphs(FreshActions(actions), workflows)[k])
    decreases |workflows|
  {
    if workflows != [] {
      var front, w := Unsnoc(workflows);
      assert front == workflows[..|workflows| - 1];
      UpgradedRow(front, actions, k);
      var prior := CompileGraphs(FreshActions(actions), front);
      if w.graph.Some? {
        GraphRows(w.graph.value, prior, k);
      }
      OneMoreDescription(workflows, front, w, actions[k], prior[k], CompileGraphs(FreshActions(actions), workflows)[k]);
    }
  }

  /**
   * After the upgrade every action row is as the last graph with a node for it describes it, and every
   * workflow has the layout of its graph's last trigger, or zeros, zoom 1 and version 1.
   */
  lemma UpgradedExactly(db: Db)
    ensures var r := Upgraded(db);
            && |r.actions| == |db.actions| && |r.workflows| == |db.workflows|
            && (forall k :: 0 <= k < |db.actions| ==> IsUpgradedRow(db.workflows, db.actions[k], r.actions[k]))
            && (forall i :: 0 <= i < |db.workflows| ==>
                  r.workflows[i] == Workflow(db.workflows[i].id, None, r.workflows[i].layout) &&
                  var initial := Layout(0.0, 0.0, 0.0, 0.0, 1.0, 1);
                  if db.workflows[i].graph == None then r.workflows[i].layout == initial
                  else
                    var g := db.workflows[i].graph.value;
                    IsLayoutOf(g, g.nodes, initial, r.workflows[i].layout))
  {
    CompileGraphsLength(FreshActions(db.actions), db.workflows);
    forall k | 0 <= k < |db.actions| ensures IsUpgradedRow(db.workflows, db.actions[k], Upgraded(db).actions[k]) {
      UpgradedRow(db.workflows, db.actions, k);
    }
    forall i | 0 <= i < |db.workflows| && db.workflows[i].graph.Some?
      ensures var g := db.workflows[i].graph.value;
              IsLayoutOf(g, g.nodes, Layout(0.0, 0.0, 0.0, 0.0, 1.0, 1), Upgraded(db).workflows[i].layout)
    {
      var g := db.workflows[i].graph.value;
      LayoutExactly(g, g.nodes, DEFAULT_LAYOUT);
    }
  }

  // ---------------------------------------------------------------- the whole downgrade

  /** The positions of a workflow's actions. */
  ghost function OwnActions(actions: seq<Action>, workflow: string): set<nat> {
    set i: nat | i < |actions| && actions[i].workflow == workflow
  }

  ghost predicate AreAt(actions: seq<Action>, picks: seq<nat>, members: seq<Action>) {
    && |members| == |picks|
    && (forall k :: 0 <= k < |picks| ==> picks[k] < |actions| && members[k] == actions[picks[k]])
  }

  lemma OwnActionsSnoc(actions: seq<Action>, front: seq<Action>, last: Action, workflow: string)
    requires actions == front + [last]
    ensures OwnActions(actions, workflow) ==
            if last.workflow == workflow then OwnActions(front, workflow) + {|front|} else OwnActions(front, workflow)
  {
    assert actions[|front|] == last && forall i :: 0 <= i < |front| ==> actions[i] == front[i];
  }

  lemma OneMoreAt(actions: seq<Action>, front: seq<Action>, last: Action, picks: seq<nat>, members: seq<Action>)
    requires actions == front + [last] && AreAt(front, picks, members)
    ensures AreAt(actions, picks, members) && AreAt(actions, picks + [|front|], members + [last])
  {
    assert actions[|front|] == last && forall i :: 0 <= i < |front| ==> actions[i] == front[i];
  }

  /** A workflow's members are its actions, in order. */
  lemma {:induction false} MembersExactly(actions: seq<Action>, workflow: string) returns (picks: seq<nat>)
    ensures InOrder(picks, OwnActions(actions, workflow)) && AreAt(actions, picks, Members(actions, workflow))
    decreases |actions|
  {
    if actions == [] {
      picks := [];
    } else {
      var front, last := Unsnoc(actions);
      assert front == actions[..|actions| - 1];
      picks := MembersExactly(front, workflow);
      OwnActionsSnoc(actions, front, last, workflow);
      OneMoreAt(actions, front, last, picks, Members(front, workflow));
      if last.workflow == workflow {
        InOrderSnoc(picks, OwnActions(front, workflow), |front|);
        picks := picks + [|front|];
      } else {
        assert Members(front, workflow) + [] == Members(front, workflow);
      }
    }
  }

  /** The edge that an entry of an action becomes; a trigger's has no handle. */
  ghost predicate IsEdgeOf(a: Action, up: Upstream, e: Edge)
    requires |a.id| == 32
  {
    && e.source == Some(if up.source_id.Some? then up.source_id.value else "") && e.target == Some(UuidText(a.id))
    && e.source_handle == None
    && e.sourceHandle == (if up.source_type == Some("trigger") then None
                          else Some(if up.source_handle.Some? then up.source_handle.value else "success"))
  }

  ghost predicate IsEdgeOfSome(actions: seq<Action>, e: Edge)
    requires forall i :: 0 <= i < |actions| ==> |actions[i].id| == 32
  {
    exists i, k :: && 0 <= i < |actions| && 0 <= k < |actions[i].upstream|
                   && IsEdgeOf(actions[i], actions[i].upstream[k], e)
  }

  lemma EdgesOfOne(a: Action, e: Edge)
    requires |a.id| == 32
    ensures e in DecompileAction(a) <==> exists k :: 0 <= k < |a.upstream| && IsEdgeOf(a, a.upstream[k], e)
  {
    forall k | 0 <= k < |a.upstream| ensures IsEdgeOf(a, a.upstream[k], e) <==> e == DecompileAction(a)[k] {}
  }

  lemma EdgeOfSomeSnoc(actions: seq<Action>, front: seq<Action>, last: Action, e: Edge)
    requires actions == front + [last] && forall i :: 0 <= i < |actions| ==> |actions[i].id| == 32
    ensures forall i :: 0 <= i < |front| ==> |front[i].id| == 32
    ensures |last.id| == 32
    ensures IsEdgeOfSome(actions, e) <==>
            IsEdgeOfSome(front, e) || exists k :: 0 <= k < |last.upstream| && IsEdgeOf(last, last.upstream[k], e)
  {
    assert actions[|front|] == last && forall i :: 0 <= i < |front| ==> actions[i] == front[i];
  }

  /** The rebuilt edges are the edges of the actions' entries. */
  lemma {:induction false} EdgesExactly(actions: seq<Action>, e: Edge)
    requires forall i :: 0 <= i < |actions| ==> |actions[i].id| == 32
    ensures e in ActionEdges(actions) <==> IsEdgeOfSome(actions, e)
    decreases |actions|
  {
    if actions != [] {
      var front, last := Unsnoc(actions);
      assert front == actions[..|actions| - 1];
      EdgeOfSomeSnoc(actions, front, last, e);
      EdgesExactly(front, e);
      EdgesOfOne(last, e);
    }
  }

  ghost predicate IsTriggerNode(w: Workflow, node: Node) {
    && node.id == Some("trigger-" + w.id) && node.kind == Some("trigger")
    && node.position == Position(Some(w.layout.triggerX), Some(w.layout.triggerY))
  }

  ghost predicate IsActionNode(a: Action, node: Node)
    requires |a.id| == 32
  {
    node == Node(Some(UuidText(a.id)), Some("udf"), Position(Some(a.x), Some(a.y)), a.title)
  }

  /** A graph of a workflow: its trigger, one node for each of its actions in order, their edges, and the viewport. */
  ghost predicate Shows(g: Graph, w: Workflow, members: seq<Action>)
    requires forall i :: 0 <= i < |members| ==> |members[i].id| == 32
  {
    && |g.nodes| == |members| + 1 && IsTriggerNode(w, g.nodes[0])
    && (forall k :: 0 <= k < |members| ==> IsActionNode(members[k], g.nodes[k + 1]))
    && (forall e :: e in g.edges <==> IsEdgeOfSome(members, e))
    && g.viewport == Viewport(Some(w.layout.x), Some(w.layout.y), Some(w.layout.zoom))
  }

  lemma GraphShows(w: Workflow, members: seq<Action>)
    requires forall i :: 0 <= i < |members| ==> |members[i].id| == 32
    ensures Shows(DecompileGraph(w, members), w, members)
  {
    var g := DecompileGraph(w, members);
    assert g.nodes[0] == TriggerNode(w);
    forall k | 0 <= k < |members| ensures IsActionNode(members[k], g.nodes[k + 1]) {
      assert g.nodes[k + 1] == ActionNodes(members)[k];
    }
    forall e ensures e in g.edges <==> IsEdgeOfSome(members, e) {
      EdgesExactly(members, e);
    }
  }

  /** The downgrade stores with every workflow the graph that shows its own actions. */
  lemma DowngradedExactly(db: Db, i: nat) returns (picks: seq<nat>, members: seq<Action>)
    requires UuidIds(db.actions) && i < |db.workflows|
    ensures InOrder(picks, OwnActions(db.actions, db.workflows[i].id)) && AreAt(db.actions, picks, members)
    ensures forall k :: 0 <= k < |members| ==> |members[k].id| == 32
    ensures |Downgraded(db).workflows| == |db.workflows|
    ensures var w := Downgraded(db).workflows[i];
            && w == db.workflows[i].(graph := w.graph)
            && w.graph.Some? && Shows(w.graph.value, db.workflows[i], members)
  {
    picks := MembersExactly(db.actions, db.workflows[i].id);
    members := Members(db.actions, db.workflows[i].id);
    MembersAreActions(db.actions, db.workflows[i].id);
    forall k | 0 <= k < |members| ensures |members[k].id| == 32 {
      assert members[k] in db.actions;
    }
    GraphShows(db.workflows[i], members);
  }
}
