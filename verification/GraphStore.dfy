/** The two tables of migration `9079ae19374b`, updated in place by its loops. */
module GraphStore {
  import opened ActionGraph
  import opened Uuids
  import opened WorkflowGraphs
  import opened Wrappers

  /** `incoming` */
  method CollectIncoming(edges: seq<Edge>, u: string) returns (incoming: seq<Edge>)
    ensures incoming == Incoming(edges, u)
  {
    incoming := [];
    for i := 0 to |edges|
      invariant incoming == Incoming(edges[..i], u)
    {
      if Coerce(edges[i].target) == Some(u) {
        incoming := incoming + [edges[i]];
      }
      assert edges[..i + 1][..i] == edges[..i];
    }
    assert edges[..|edges|] == edges;
  }

  /** One turn of the loop that fills `upstream`. */
  method BuildEntry(e: Edge) returns (entry: Upstream)
    ensures entry == CompileEdge(e)
  {
    var source := NormalizeSource(e.source);
    var isTrigger := IsTrigger(source);
    var handle := if e.sourceHandle.Some? && e.sourceHandle.value != "" then e.sourceHandle else e.source_handle;
    if handle != Some("success") && handle != Some("error") {
      handle := Some("success");
    }
    entry := Upstream(Some(source), Some(if isTrigger then "trigger" else "udf"), None);
    if !isTrigger {
      entry := entry.(source_handle := handle);
    }
  }

  /** The loop over `incoming`. */
  method BuildEntries(incoming: seq<Edge>) returns (upstream: seq<Upstream>)
    ensures upstream == CompileAll(incoming)
  {
    upstream := [];
    for i := 0 to |incoming|
      invariant upstream == CompileAll(incoming[..i])
    {
      var entry := BuildEntry(incoming[i]);
      upstream := upstream + [entry];
      CompileAllNext(incoming, i);
    }
    assert incoming[..|incoming|] == incoming;
  }

  method CollectUpstream(edges: seq<Edge>, u: string) returns (upstream: seq<Upstream>)
    ensures upstream == UpstreamOf(edges, u)
  {
    var incoming := CollectIncoming(edges, u);
    upstream := BuildEntries(incoming);
  }

  class Tables {
    var workflows: seq<Workflow>
    var actions: seq<Action>

    constructor (db: Db)
      ensures Contents() == db
    {
      workflows := db.workflows;
      actions := db.actions;
    }

    ghost function Contents(): Db
      reads this
    {
      Db(workflows, actions)
    }

    /** The loop over trigger nodes. */
    method PlaceTriggers(row: nat, g: Graph)
      requires row < |workflows|
      modifies this`workflows
      ensures workflows == old(workflows)[row := old(workflows[row]).(
                             layout := CompileLayout(g, g.nodes, old(workflows[row].layout)))]
    {
      for i := 0 to |g.nodes|
        invariant row < |workflows|
        invariant workflows == old(workflows)[row := old(workflows[row]).(
                                 layout := CompileLayout(g, g.nodes[..i], old(workflows[row].layout)))]
      {
        var node := g.nodes[i];
        assert g.nodes[..i + 1][..i] == g.nodes[..i];
        if node.kind == Some("trigger") {
          var layout := Layout(GetOr(node.position.x, 0.0), GetOr(node.position.y, 0.0), GetOr(g.viewport.x, 0.0),
                               GetOr(g.viewport.y, 0.0), GetOr(g.viewport.zoom, 1.0), workflows[row].layout.version);
          workflows := workflows[row := workflows[row].(layout := layout)];
          LayoutKeepsVersion(g, g.nodes[..i], old(workflows[row].layout));
        }
      }
      assert g.nodes[..|g.nodes|] == g.nodes;
    }

    /** The loop over udf nodes. */
    method PlaceActions(g: Graph)
      modifies this`actions
      ensures actions == CompileNodes(g.edges, old(actions), g.nodes)
    {
      for i := 0 to |g.nodes|
        invariant actions == CompileNodes(g.edges, old(actions), g.nodes[..i])
      {
        var node := g.nodes[i];
        assert g.nodes[..i + 1][..i] == g.nodes[..i];
        if node.kind == Some("udf") {
          var u := Coerce(node.id);
          if u.Some? {
            var upstream := CollectUpstream(g.edges, u.value);
            actions := UpdateAction(actions, u.value, GetOr(node.position.x, 0.0), GetOr(node.position.y, 0.0), upstream);
          }
        }
      }
      assert g.nodes[..|g.nodes|] == g.nodes;
    }

    /** `upgrade`: columns with defaults, one pass over the stored graphs, then the graph column dropped. */
    method Upgrade()
      modifies this
      ensures Contents() == Upgraded(old(Contents()))
    {
      ghost var before := workflows;
      actions := FreshActions(actions);
      ghost var rows := actions;
      workflows := seq(|workflows|, i requires 0 <= i < |workflows| reads this => workflows[i].(layout := DEFAULT_LAYOUT));
      var stored := workflows;
      for i := 0 to |stored|
        invariant |workflows| == |stored| == |before|
        invariant forall j :: i <= j < |stored| ==> workflows[j] == stored[j]
        invariant forall j :: 0 <= j < i ==> workflows[j].(graph := None) == CompileWorkflow(before[j])
        invariant actions == CompileGraphs(rows, before[..i])
      {
        assert before[..i + 1][..i] == before[..i];
        if stored[i].graph.Some? {
          PlaceTriggers(i, stored[i].graph.value);
          PlaceActions(stored[i].graph.value);
        }
      }
      workflows := seq(|workflows|, i requires 0 <= i < |workflows| reads this => workflows[i].(graph := None));
      assert before[..|before|] == before;
      assert workflows == UpgradedWorkflows(before);
    }

    /** `downgrade`: each workflow's nodes and edges rebuilt from its action rows, then the columns dropped. */
    method Downgrade()
      requires UuidIds(actions)
      modifies this
      ensures Contents() == Downgraded(old(Contents()))
    {
      ghost var before := workflows;
      for i := 0 to |workflows|
        invariant |workflows| == |before| && actions == old(actions)
        invariant forall j :: 0 <= j < i ==> workflows[j] == DecompileWorkflow(before[j], actions)
        invariant forall j :: i <= j < |before| ==> workflows[j] == before[j]
      {
        var w := workflows[i];
        MembersAreActions(actions, w.id);
        var members := Members(actions, w.id);
        var nodes := [TriggerNode(w)];
        for k := 0 to |members|
          invariant nodes == [TriggerNode(w)] + ActionNodes(members[..k])
        {
          nodes := nodes + [ActionNode(members[k])];
        }
        assert members[..|members|] == members;
        var edges := CollectEdges(members);
        var viewport := Viewport(Some(w.layout.x), Some(w.layout.y), Some(w.layout.zoom));
        workflows := workflows[i := w.(graph := Some(Graph(nodes, edges, viewport)))];
      }
      actions := FreshActions(actions);
      assert workflows == DecompileWorkflows(before, old(actions));
    }
  }

  /** The edges of some actions, rebuilt from their upstream entries one by one. */
  method CollectEdges(actions: seq<Action>) returns (edges: seq<Edge>)
    requires forall i :: 0 <= i < |actions| ==> |actions[i].id| == 32
    ensures edges == ActionEdges(actions)
  {
    edges := [];
    for i := 0 to |actions|
      invariant edges == ActionEdges(actions[..i])
    {
      var a := actions[i];
      ghost var before := edges;
      for k := 0 to |a.upstream|
        invariant edges == before + DecompileAction(a)[..k]
      {
        edges := edges + [DecompileEdge(a.upstream[k], UuidText(a.id))];
      }
      assert actions[..i + 1][..i] == actions[..i];
      assert DecompileAction(a)[..|a.upstream|] == DecompileAction(a);
    }
    assert actions[..|actions|] == actions;
  }
}
