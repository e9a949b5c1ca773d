/**
 * Compiling workflow graphs into per-action upstream edges and back: migration `9079ae19374b`.
 */
module ActionGraph {
  import opened Uuids
  import opened WorkflowGraphs
  import opened Wrappers

  /** One entry of `action.upstream_edges`. */
  datatype Upstream = Upstream(source_id: Option<string>, source_type: Option<string>, source_handle: Option<string>)

  datatype Action = Action(id: string, workflow: string, title: Option<string>, x: real, y: real, upstream: seq<Upstream>)

  /** A workflow row: its graph while it is stored as JSON, its layout once it is normalised. */
  datatype Workflow = Workflow(id: string, graph: Option<Graph>, layout: Layout)

  datatype Layout = Layout(triggerX: real, triggerY: real, x: real, y: real, zoom: real, version: int)

  const DEFAULT_LAYOUT := Layout(0.0, 0.0, 0.0, 0.0, 1.0, 1)

  // ---------------------------------------------------------------- compiling one edge

  predicate IsTrigger(source: string) {
    "trigger-" <= source
  }

  /** `_normalize_source_id` */
  function NormalizeSource(source: Option<string>): string {
    var s := GetOr(source, "");
    if IsTrigger(s) then s
    else match Coerce(Some(s))
      case Some(u) => (CoerceIsUuid(Some(s)); UuidText(u))
      case None => s
  }

  /** `e.get("sourceHandle") or e.get("source_handle")`, or `success` where that is no known handle. */
  function Handle(e: Edge): string {
    var h := if e.sourceHandle.Some? && e.sourceHandle.value != "" then e.sourceHandle else e.source_handle;
    if h == Some("success") || h == Some("error") then h.value else "success"
  }

  function CompileEdge(e: Edge): Upstream {
    var source := NormalizeSource(e.source);
    if IsTrigger(source) then Upstream(Some(source), Some("trigger"), None)
    else Upstream(Some(source), Some("udf"), Some(Handle(e)))
  }

  // ---------------------------------------------------------------- compiling a graph

  predicate Targets(e: Edge, u: string) {
    Coerce(e.target) == Some(u)
  }

  function Incoming(edges: seq<Edge>, u: string): seq<Edge> {
    if edges == [] then []
    else Incoming(edges[..|edges| - 1], u) + (if Targets(edges[|edges| - 1], u) then [edges[|edges| - 1]] else [])
  }

  function CompileAll(edges: seq<Edge>): seq<Upstream> {
    seq(|edges|, i requires 0 <= i < |edges| => CompileEdge(edges[i]))
  }

  lemma CompileAllSnoc(whole: seq<Edge>, front: seq<Edge>, e: Edge)
    requires whole == front + [e]
    ensures CompileAll(whole) == CompileAll(front) + [CompileEdge(e)]
  {}

  lemma CompileAllNext(edges: seq<Edge>, i: nat)
    requires i < |edges|
    ensures CompileAll(edges[..i + 1]) == CompileAll(edges[..i]) + [CompileEdge(edges[i])]
  {
    CompileAllSnoc(edges[..i + 1], edges[..i], edges[i]);
  }

  /** The upstream entries of one action, in edge order. */
  function UpstreamOf(edges: seq<Edge>, u: string): seq<Upstream> {
    CompileAll(Incoming(edges, u))
  }

  /** The action a node stands for, if it is a udf node whose id reads as a UUID. */
  function ActionOf(node: Node): Option<string> {
    if node.kind == Some("udf") then Coerce(node.id) else None
  }

  /** `UPDATE action … WHERE id = u` */
  function UpdateAction(actions: seq<Action>, u: string, x: real, y: real, upstream: seq<Upstream>): seq<Action> {
    seq(|actions|, i requires 0 <= i < |actions| =>
      if actions[i].id == u then actions[i].(x := x, y := y, upstream := upstream) else actions[i])
  }

  function CompileNode(edges: seq<Edge>, actions: seq<Action>, node: Node): seq<Action> {
    match ActionOf(node)
    case None => actions
    case Some(u) =>
      UpdateAction(actions, u, GetOr(node.position.x, 0.0), GetOr(node.position.y, 0.0), UpstreamOf(edges, u))
  }

  function CompileNodes(edges: seq<Edge>, actions: seq<Action>, nodes: seq<Node>): seq<Action> {
    if nodes == [] then actions
    else CompileNode(edges, CompileNodes(edges, actions, nodes[..|nodes| - 1]), nodes[|nodes| - 1])
  }

  /** The layout after the loop over trigger nodes: the last one wins. */
  function CompileLayout(g: Graph, nodes: seq<Node>, layout: Layout): Layout {
    if nodes == [] then layout
    else
      var node := nodes[|nodes| - 1];
      if node.kind == Some("trigger") then
        Layout(GetOr(node.position.x, 0.0), GetOr(node.position.y, 0.0), GetOr(g.viewport.x, 0.0),
               GetOr(g.viewport.y, 0.0), GetOr(g.viewport.zoom, 1.0), layout.version)
      else CompileLayout(g, nodes[..|nodes| - 1], layout)
  }

  lemma {:induction false} LayoutKeepsVersion(g: Graph, nodes: seq<Node>, layout: Layout)
    ensures CompileLayout(g, nodes, layout).version == layout.version
  {
    if nodes != [] {
      LayoutKeepsVersion(g, nodes[..|nodes| - 1], layout);
    }
  }

  // ---------------------------------------------------------------- upgrade

  function FreshAction(a: Action): Action {
    a.(x := 0.0, y := 0.0, upstream := [])
  }

  function FreshActions(actions: seq<Action>): seq<Action> {
    seq(|actions|, i requires 0 <= i < |actions| => FreshAction(actions[i]))
  }

  function CompileWorkflow(w: Workflow): Workflow {
    match w.graph
    case None => Workflow(w.id, None, DEFAULT_LAYOUT)
    case Some(g) => Workflow(w.id, None, CompileLayout(g, g.nodes, DEFAULT_LAYOUT))
  }

  function CompileGraphs(actions: seq<Action>, workflows: seq<Workflow>): seq<Action> {
    if workflows == [] then actions
    else
      var prior := CompileGraphs(actions, workflows[..|workflows| - 1]);
      match workflows[|workflows| - 1].graph
      case None => prior
      case Some(g) => CompileNodes(g.edges, prior, g.nodes)
  }

  // ---------------------------------------------------------------- downgrade

  function DecompileEdge(up: Upstream, target: string): Edge {
    Edge(Some(GetOr(up.source_id, "")), Some(target),
         if GetOr(up.source_type, "udf") != "trigger" then Some(GetOr(up.source_handle, "success")) else None, None)
  }

  function DecompileAction(a: Action): seq<Edge>
    requires |a.id| == 32
  {
    seq(|a.upstream|, i requires 0 <= i < |a.upstream| => DecompileEdge(a.upstream[i], UuidText(a.id)))
  }

  function ActionNode(a: Action): Node
    requires |a.id| == 32
  {
    Node(Some(UuidText(a.id)), Some("udf"), Position(Some(a.x), Some(a.y)), a.title)
  }

  function Members(actions: seq<Action>, workflow: string): seq<Action> {
    if actions == [] then []
    else Members(actions[..|actions| - 1], workflow) +
         (if actions[|actions| - 1].workflow == workflow then [actions[|actions| - 1]] else [])
  }

  ghost predicate UuidIds(actions: seq<Action>) {
    forall i :: 0 <= i < |actions| ==> IsUuid(actions[i].id)
  }

  function ActionNodes(actions: seq<Action>): seq<Node>
    requires forall i :: 0 <= i < |actions| ==> |actions[i].id| == 32
  {
    seq(|actions|, i requires 0 <= i < |actions| => ActionNode(actions[i]))
  }

  function ActionEdges(actions: seq<Action>): seq<Edge>
    requires forall i :: 0 <= i < |actions| ==> |actions[i].id| == 32
  {
    if actions == [] then [] else ActionEdges(actions[..|actions| - 1]) + DecompileAction(actions[|actions| - 1])
  }

  function TriggerNode(w: Workflow): Node {
    Node(Some("trigger-" + w.id), Some("trigger"), Position(Some(w.layout.triggerX), Some(w.layout.triggerY)), None)
  }

  function DecompileGraph(w: Workflow, members: seq<Action>): Graph
    requires forall i :: 0 <= i < |members| ==> |members[i].id| == 32
  {
    Graph([TriggerNode(w)] + ActionNodes(members), ActionEdges(members),
          Viewport(Some(w.layout.x), Some(w.layout.y), Some(w.layout.zoom)))
  }

  lemma {:induction false} MembersAreActions(actions: seq<Action>, workflow: string)
    ensures forall i :: 0 <= i < |Members(actions, workflow)| ==>
              Members(actions, workflow)[i] in actions && Members(actions, workflow)[i].workflow == workflow
    ensures forall a :: a in actions && a.workflow == workflow ==> a in Members(actions, workflow)
  {
    if actions != [] {
      MembersAreActions(actions[..|actions| - 1], workflow);
      assert actions == actions[..|actions| - 1] + [actions[|actions| - 1]];
    }
  }

  function DecompileWorkflow(w: Workflow, actions: seq<Action>): Workflow
    requires UuidIds(actions)
  {
    MembersAreActions(actions, w.id);
    w.(graph := Some(DecompileGraph(w, Members(actions, w.id))))
  }

  function DecompileWorkflows(workflows: seq<Workflow>, actions: seq<Action>): seq<Workflow>
    requires UuidIds(actions)
  {
    seq(|workflows|, i requires 0 <= i < |workflows| => DecompileWorkflow(workflows[i], actions))
  }

  // ---------------------------------------------------------------- compiling by target

  /** Whether some node of the graph stands for the action. */
  ghost predicate Serves(nodes: seq<Node>, u: string) {
    exists i :: 0 <= i < |nodes| && ActionOf(nodes[i]) == Some(u)
  }

  /** The last node that stands for the action. */
  ghost predicate LastNodeOf(nodes: seq<Node>, u: string, i: nat) {
    i < |nodes| && ActionOf(nodes[i]) == Some(u) && forall j :: i < j < |nodes| ==> ActionOf(nodes[j]) != Some(u)
  }

  /** The action lies where the last node that stands for it lies. */
  ghost predicate Placed(nodes: seq<Node>, a: Action) {
    exists i: nat :: LastNodeOf(nodes, a.id, i) &&
                     a.x == GetOr(nodes[i].position.x, 0.0) && a.y == GetOr(nodes[i].position.y, 0.0)
  }

  /** What compiling a graph makes of one action row. */
  ghost predicate Compiled(edges: seq<Edge>, nodes: seq<Node>, before: Action, after: Action) {
    && after.id == before.id && after.workflow == before.workflow && after.title == before.title
    && if Serves(nodes, before.id) then Placed(nodes, after) && after.upstream == UpstreamOf(edges, after.id)
       else after == before
  }

  /** Compiling touches exactly the served actions, and gives each its incoming edges in order. */
  lemma {:induction false} CompileNodesMeaning(edges: seq<Edge>, actions: seq<Action>, nodes: seq<Node>)
    ensures |CompileNodes(edges, actions, nodes)| == |actions|
    ensures forall i :: 0 <= i < |actions| ==>
              Compiled(edges, nodes, actions[i], CompileNodes(edges, actions, nodes)[i])
  {
    if nodes != [] {
      var front, last := nodes[..|nodes| - 1], nodes[|nodes| - 1];
      CompileNodesMeaning(edges, actions, front);
      forall i | 0 <= i < |actions|
        ensures Compiled(edges, nodes, actions[i], CompileNodes(edges, actions, nodes)[i])
      {
        CompileOneMore(edges, front, last, actions[i], CompileNodes(edges, actions, front)[i]);
        assert nodes == front + [last];
      }
    }
  }

  lemma CompileOneMore(edges: seq<Edge>, front: seq<Node>, last: Node, before: Action, middle: Action)
    requires Compiled(edges, front, before, middle)
    ensures Compiled(edges, front + [last], before, CompileNode(edges, [middle], last)[0])
  {
    var nodes := front + [last];
    var after := CompileNode(edges, [middle], last)[0];
    assert forall i :: 0 <= i < |front| ==> nodes[i] == front[i];
    assert nodes[|front|] == last;
    if ActionOf(last) == Some(before.id) {
      assert LastNodeOf(nodes, before.id, |front|);
      assert Serves(nodes, before.id);
    } else if Serves(front, before.id) {
      var i: nat :| LastNodeOf(front, middle.id, i) &&
          middle.x == GetOr(front[i].position.x, 0.0) && middle.y == GetOr(front[i].position.y, 0.0);
      assert nodes[i] == front[i] && LastNodeOf(nodes, middle.id, i);
      assert Serves(nodes, before.id) && Placed(nodes, after);
    } else {
      assert !Serves(nodes, before.id);
    }
  }

  lemma {:induction false} IncomingConcat(a: seq<Edge>, b: seq<Edge>, u: string)
    ensures Incoming(a + b, u) == Incoming(a, u) + Incoming(b, u)
  {
    if b == [] {
      assert a + b == a;
    } else {
      assert (a + b)[..|a + b| - 1] == a + b[..|b| - 1];
      IncomingConcat(a, b[..|b| - 1], u);
    }
  }

  // ---------------------------------------------------------------- downgrade, then upgrade

  /** An upstream entry as the upgrade writes it. */
  ghost predicate Normal(up: Upstream) {
    && up.source_id.Some? && NormalizeSource(up.source_id) == up.source_id.value
    && if IsTrigger(up.source_id.value) then up.source_type == Some("trigger") && up.source_handle == None
       else up.source_type == Some("udf") && up.source_handle in {Some("success"), Some("error")}
  }

  /** An entry survives decompiling and compiling exactly when it is normal. */
  lemma EdgeRoundTrip(up: Upstream, target: string)
    ensures CompileEdge(DecompileEdge(up, target)) == up <==> Normal(up)
  {
    var e := DecompileEdge(up, target);
    var source := NormalizeSource(e.source);
    if Normal(up) {
      assert source == up.source_id.value;
    }
  }

  function Recompiled(a: Action): Action
    requires |a.id| == 32
  {
    a.(upstream := CompileAll(DecompileAction(a)))
  }

  ghost predicate NormalAction(a: Action) {
    forall i :: 0 <= i < |a.upstream| ==> Normal(a.upstream[i])
  }

  lemma RecompiledIsSame(a: Action)
    requires |a.id| == 32
    ensures Recompiled(a) == a <==> NormalAction(a)
  {
    var up := Recompiled(a).upstream;
    forall i | 0 <= i < |a.upstream| ensures up[i] == a.upstream[i] <==> Normal(a.upstream[i]) {
      EdgeRoundTrip(a.upstream[i], UuidText(a.id));
    }
    if NormalAction(a) {
      assert up == a.upstream;
    } else {
      var i :| 0 <= i < |a.upstream| && !Normal(a.upstream[i]);
      assert up[i] != a.upstream[i];
    }
  }

  lemma {:induction false} IncomingAll(edges: seq<Edge>, u: string)
    requires forall i :: 0 <= i < |edges| ==> Targets(edges[i], u)
    ensures Incoming(edges, u) == edges
  {
    if edges != [] {
      var front, last := edges[..|edges| - 1], edges[|edges| - 1];
      assert Targets(last, u);
      IncomingAll(front, u);
      assert edges == front + [last];
    }
  }

  lemma {:induction false} IncomingNone(edges: seq<Edge>, u: string)
    requires forall i :: 0 <= i < |edges| ==> !Targets(edges[i], u)
    ensures Incoming(edges, u) == []
  {
    if edges != [] {
      IncomingNone(edges[..|edges| - 1], u);
    }
  }

  lemma {:induction false} IncomingOfAction(a: Action, u: string)
    requires IsUuid(a.id)
    ensures Incoming(DecompileAction(a), u) == if a.id == u then DecompileAction(a) else []
  {
    CoercePrinted(a.id);
    if a.id == u {
      IncomingAll(DecompileAction(a), u);
    } else {
      IncomingNone(DecompileAction(a), u);
    }
  }

  ghost predicate DistinctIds(actions: seq<Action>) {
    forall i, j :: 0 <= i < j < |actions| ==> actions[i].id != actions[j].id
  }

  lemma {:induction false} IncomingOfMore(front: seq<Action>, last: Action, u: string)
    requires UuidIds(front) && IsUuid(last.id)
    ensures UuidIds(front + [last])
    ensures Incoming(ActionEdges(front + [last]), u) ==
            Incoming(ActionEdges(front), u) + (if last.id == u then DecompileAction(last) else [])
  {
    assert (front + [last])[..|front|] == front;
    assert ActionEdges(front + [last]) == ActionEdges(front) + DecompileAction(last);
    IncomingConcat(ActionEdges(front), DecompileAction(last), u);
    IncomingOfAction(last, u);
  }

  lemma {:induction false} IncomingOfOthers(actions: seq<Action>, u: string)
    requires UuidIds(actions) && forall i :: 0 <= i < |actions| ==> actions[i].id != u
    ensures Incoming(ActionEdges(actions), u) == []
  {
    if actions != [] {
      IncomingOfOthers(actions[..|actions| - 1], u);
      IncomingOfMore(actions[..|actions| - 1], actions[|actions| - 1], u);
      assert actions == actions[..|actions| - 1] + [actions[|actions| - 1]];
    }
  }

  /** Among the decompiled edges of some actions, those into one action are its own. */
  lemma {:induction false} IncomingOfActions(actions: seq<Action>, i: nat)
    requires UuidIds(actions) && DistinctIds(actions) && i < |actions|
    ensures Incoming(ActionEdges(actions), actions[i].id) == DecompileAction(actions[i])
  {
    var front, last := actions[..|actions| - 1], actions[|actions| - 1];
    IncomingOfMore(front, last, actions[i].id);
    assert actions == front + [last];
    if i < |front| {
      IncomingOfActions(front, i);
      assert last.id != actions[i].id;
    } else {
      IncomingOfOthers(front, last.id);
    }
  }

  lemma {:induction false} MembersDistinct(actions: seq<Action>, workflow: string)
    requires DistinctIds(actions)
    ensures DistinctIds(Members(actions, workflow))
  {
    if actions != [] {
      var front := actions[..|actions| - 1];
      MembersDistinct(front, workflow);
      MembersAreActions(front, workflow);
      forall i | 0 <= i < |Members(front, workflow)|
        ensures Members(front, workflow)[i].id != actions[|actions| - 1].id
      {
        var j :| 0 <= j < |front| && front[j] == Members(front, workflow)[i];
        assert actions[j] == front[j];
      }
    }
  }

  lemma TriggerIsNoAction(w: Workflow)
    ensures ActionOf(TriggerNode(w)) == None
  {
    assert "trigger"[0] != "udf"[0];
  }

  lemma NodeIsAction(a: Action)
    requires IsUuid(a.id)
    ensures ActionOf(ActionNode(a)) == Some(a.id)
  {
    CoercePrinted(a.id);
  }

  lemma NodeAt(w: Workflow, members: seq<Action>, i: nat, nodes: seq<Node>)
    requires UuidIds(members) && i <= |members| && nodes == [TriggerNode(w)] + ActionNodes(members)
    ensures |nodes| == |members| + 1
    ensures nodes[i] == if i == 0 then TriggerNode(w) else ActionNode(members[i - 1])
  {}

  lemma NodesOfGraph(w: Workflow, members: seq<Action>, i: nat)
    requires UuidIds(members) && i <= |members|
    ensures var nodes := DecompileGraph(w, members).nodes;
            |nodes| == |members| + 1 &&
            ActionOf(nodes[i]) == (if i == 0 then None else Some(members[i - 1].id)) &&
            (i > 0 ==> nodes[i] == ActionNode(members[i - 1]))
  {
    NodeAt(w, members, i, DecompileGraph(w, members).nodes);
    if i == 0 {
      TriggerIsNoAction(w);
    } else {
      NodeIsAction(members[i - 1]);
    }
  }

  /** A node of the rebuilt graph that stands for an action is that member's node. */
  lemma NodeOfMember(w: Workflow, members: seq<Action>, i: nat, u: string)
    requires UuidIds(members) && i < |DecompileGraph(w, members).nodes|
    requires ActionOf(DecompileGraph(w, members).nodes[i]) == Some(u)
    ensures i > 0 && members[i - 1].id == u
    ensures DecompileGraph(w, members).nodes[i].position == Position(Some(members[i - 1].x), Some(members[i - 1].y))
  {
    NodesOfGraph(w, members, i);
  }

  /** A node that stands for a member is that member's own. */
  lemma OwnNode(w: Workflow, members: seq<Action>, m: nat, i: nat)
    requires UuidIds(members) && DistinctIds(members) && m < |members| && i < |DecompileGraph(w, members).nodes|
    requires ActionOf(DecompileGraph(w, members).nodes[i]) == Some(members[m].id)
    ensures DecompileGraph(w, members).nodes[i].position == Position(Some(members[m].x), Some(members[m].y))
  {
    NodeOfMember(w, members, i, members[m].id);
    assert i - 1 == m;
  }

  /** Only its own node places a member's row. */
  lemma MemberPlaced(w: Workflow, members: seq<Action>, m: nat, after: Action)
    requires UuidIds(members) && DistinctIds(members) && m < |members| && after.id == members[m].id
    requires Placed(DecompileGraph(w, members).nodes, after)
    ensures after.x == members[m].x && after.y == members[m].y
  {
    var nodes := DecompileGraph(w, members).nodes;
    var i: nat :| LastNodeOf(nodes, after.id, i) &&
        after.x == GetOr(nodes[i].position.x, 0.0) && after.y == GetOr(nodes[i].position.y, 0.0);
    OwnNode(w, members, m, i);
  }

  /** A member's row gets its own layout and its own recompiled edges back. */
  lemma MemberRestored(w: Workflow, members: seq<Action>, m: nat, current: Action, after: Action)
    requires UuidIds(members) && DistinctIds(members) && m < |members|
    requires current == members[m].(x := current.x, y := current.y, upstream := current.upstream)
    requires Compiled(DecompileGraph(w, members).edges, DecompileGraph(w, members).nodes, current, after)
    ensures after == Recompiled(members[m])
  {
    var g := DecompileGraph(w, members);
    NodesOfGraph(w, members, m + 1);
    assert Serves(g.nodes, current.id);
    IncomingOfActions(members, m);
    MemberPlaced(w, members, m, after);
  }

  lemma OthersKept(w: Workflow, members: seq<Action>, current: Action, after: Action)
    requires UuidIds(members) && forall i :: 0 <= i < |members| ==> members[i].id != current.id
    requires Compiled(DecompileGraph(w, members).edges, DecompileGraph(w, members).nodes, current, after)
    ensures after == current
  {
    var g := DecompileGraph(w, members);
    if Serves(g.nodes, current.id) {
      var i :| 0 <= i < |g.nodes| && ActionOf(g.nodes[i]) == Some(current.id);
      NodesOfGraph(w, members, i);
    }
  }

  /** Compiling the decompiled graph of a workflow restores its own actions and no other. */
  lemma {:induction false} OneWorkflowRestored(
      w: Workflow, actions: seq<Action>, k: nat, current: Action, after: Action)
    requires UuidIds(actions) && DistinctIds(actions) && k < |actions| && UuidIds(Members(actions, w.id))
    requires current == actions[k].(x := current.x, y := current.y, upstream := current.upstream)
    requires var g := DecompileGraph(w, Members(actions, w.id)); Compiled(g.edges, g.nodes, current, after)
    ensures after == if actions[k].workflow == w.id then Recompiled(actions[k]) else current
  {
    var members := Members(actions, w.id);
    MembersAreActions(actions, w.id);
    if actions[k].workflow == w.id {
      MembersDistinct(actions, w.id);
      assert actions[k] in members;
      var m :| 0 <= m < |members| && members[m] == actions[k];
      MemberRestored(w, members, m, current, after);
    } else {
      forall i | 0 <= i < |members| ensures members[i].id != current.id {
        var j :| 0 <= j < |actions| && actions[j] == members[i];
        assert j != k;
      }
      OthersKept(w, members, current, after);
    }
  }

  ghost predicate Covered(a: Action, workflows: seq<Workflow>) {
    exists i :: 0 <= i < |workflows| && workflows[i].id == a.workflow
  }

  /** The row of an action after the graphs of some workflows have been compiled. */
  ghost function Restored(a: Action, workflows: seq<Workflow>): Action
    requires |a.id| == 32
  {
    if Covered(a, workflows) then Recompiled(a) else FreshAction(a)
  }

  lemma CoveredSnoc(a: Action, front: seq<Workflow>, w: Workflow)
    ensures Covered(a, front + [w]) <==> Covered(a, front) || w.id == a.workflow
  {
    if Covered(a, front) {
      var i :| 0 <= i < |front| && front[i].id == a.workflow;
      assert (front + [w])[i].id == a.workflow;
    }
    assert (front + [w])[|front|] == w;
  }

  lemma {:induction false} CompileGraphsSnoc(actions: seq<Action>, front: seq<Workflow>, w: Workflow)
    requires w.graph.Some?
    ensures CompileGraphs(actions, front + [w]) ==
            CompileNodes(w.graph.value.edges, CompileGraphs(actions, front), w.graph.value.nodes)
  {
    assert (front + [w])[..|front|] == front;
  }

  lemma {:induction false} OneMoreRestored(
      w: Workflow, front: seq<Workflow>, actions: seq<Action>, prior: seq<Action>, k: nat)
    requires UuidIds(actions) && DistinctIds(actions) && k < |actions| == |prior|
    requires prior[k] == Restored(actions[k], front)
    ensures UuidIds(Members(actions, w.id))
    ensures var g := DecompileGraph(w, Members(actions, w.id));
            |CompileNodes(g.edges, prior, g.nodes)| == |prior| &&
            CompileNodes(g.edges, prior, g.nodes)[k] == Restored(actions[k], front + [w])
  {
    MembersAreActions(actions, w.id);
    var g := DecompileGraph(w, Members(actions, w.id));
    CompileNodesMeaning(g.edges, prior, g.nodes);
    OneWorkflowRestored(w, actions, k, prior[k], CompileNodes(g.edges, prior, g.nodes)[k]);
    CoveredSnoc(actions[k], front, w);
  }

  /** The action's row is restored once the graphs of these workflows have been compiled. */
  ghost predicate IsRestored(workflows: seq<Workflow>, actions: seq<Action>, k: nat)
    requires UuidIds(actions) && k < |actions|
  {
    var rows := CompileGraphs(FreshActions(actions), DecompileWorkflows(workflows, actions));
    |rows| == |actions| && rows[k] == Restored(actions[k], workflows)
  }

  lemma DecompileSnoc(whole: seq<Workflow>, front: seq<Workflow>, w: Workflow, actions: seq<Action>)
    requires UuidIds(actions) && whole == front + [w]
    ensures DecompileWorkflows(whole, actions) == DecompileWorkflows(front, actions) + [DecompileWorkflow(w, actions)]
  {}

  lemma IsRestoredSnoc(whole: seq<Workflow>, front: seq<Workflow>, w: Workflow, actions: seq<Action>, k: nat)
    requires UuidIds(actions) && DistinctIds(actions) && k < |actions| && IsRestored(front, actions, k)
    requires whole == front + [w]
    ensures IsRestored(whole, actions, k)
  {
    var down, last := DecompileWorkflows(front, actions), DecompileWorkflow(w, actions);
    DecompileSnoc(whole, front, w, actions);
    OneMoreRestored(w, front, actions, CompileGraphs(FreshActions(actions), down), k);
    CompileGraphsSnoc(FreshActions(actions), down, last);
  }

  lemma NothingRestored(actions: seq<Action>, k: nat)
    requires UuidIds(actions) && k < |actions|
    ensures IsRestored([], actions, k)
  {
    assert DecompileWorkflows([], actions) == [];
    assert !Covered(actions[k], []);
  }

  lemma {:induction false} AllWorkflowsRestored(workflows: seq<Workflow>, actions: seq<Action>, k: nat)
    requires UuidIds(actions) && DistinctIds(actions) && k < |actions|
    ensures IsRestored(workflows, actions, k)
    decreases |workflows|
  {
    if workflows == [] {
      NothingRestored(actions, k);
    } else {
      var front, last := Unsnoc(workflows);
      AllWorkflowsRestored(front, actions, k);
      IsRestoredSnoc(workflows, front, last, actions, k);
    }
  }

  lemma {:induction false} LayoutOfActionNodes(g: Graph, first: Node, actions: seq<Action>, layout: Layout)
    requires UuidIds(actions)
    ensures CompileLayout(g, [first] + ActionNodes(actions), layout) == CompileLayout(g, [first], layout)
  {
    if actions != [] {
      var nodes := [first] + ActionNodes(actions);
      assert nodes[..|nodes| - 1] == [first] + ActionNodes(actions[..|actions| - 1]);
      LayoutOfActionNodes(g, first, actions[..|actions| - 1], layout);
    } else {
      assert [first] + ActionNodes(actions) == [first];
    }
  }

  datatype Db = Db(workflows: seq<Workflow>, actions: seq<Action>)

  function UpgradedWorkflows(workflows: seq<Workflow>): seq<Workflow> {
    seq(|workflows|, i requires 0 <= i < |workflows| => CompileWorkflow(workflows[i]))
  }

  /** The whole upgrade: new columns with defaults, then every stored graph compiled. */
  function Upgraded(db: Db): Db {
    Db(UpgradedWorkflows(db.workflows), CompileGraphs(FreshActions(db.actions), db.workflows))
  }

  /** The whole downgrade: every workflow's graph written, then the new columns dropped. */
  function Downgraded(db: Db): Db
    requires UuidIds(db.actions)
  {
    Db(DecompileWorkflows(db.workflows, db.actions), FreshActions(db.actions))
  }

  /** Normalised tables: unique UUID keys, a workflow for every action, no graph column. */
  ghost predicate Stored(db: Db) {
    && UuidIds(db.actions) && DistinctIds(db.actions)
    && (forall i :: 0 <= i < |db.actions| ==> Covered(db.actions[i], db.workflows))
    && (forall i :: 0 <= i < |db.workflows| ==> db.workflows[i].graph == None && db.workflows[i].layout.version == 1)
  }

  ghost predicate NormalActions(actions: seq<Action>) {
    forall k :: 0 <= k < |actions| ==> NormalAction(actions[k])
  }

  /** The rebuilt graph keeps the layout of its workflow in its viewport and its trigger node. */
  lemma LayoutRestored(w: Workflow, actions: seq<Action>)
    requires UuidIds(actions) && w.graph == None && w.layout.version == 1
    ensures CompileWorkflow(DecompileWorkflow(w, actions)) == w
  {
    MembersAreActions(actions, w.id);
    var g := DecompileGraph(w, Members(actions, w.id));
    LayoutOfActionNodes(g, TriggerNode(w), Members(actions, w.id), DEFAULT_LAYOUT);
    assert [TriggerNode(w)][..0] == [];
  }

  /**
   * `downgrade` then `upgrade` returns the same positions, viewports and per-action upstream lists,
   * in the same order, exactly when every upstream entry is normal. The graph version restarts at 1.
   */
  lemma DowngradeUpgrade(db: Db)
    requires Stored(db)
    ensures Upgraded(Downgraded(db)) == db <==> NormalActions(db.actions)
  {
    var down := Downgraded(db);
    var up := Upgraded(down);
    forall i | 0 <= i < |db.workflows| ensures up.workflows[i] == db.workflows[i] {
      LayoutRestored(db.workflows[i], db.actions);
    }
    assert up.workflows == db.workflows;
    assert FreshActions(FreshActions(db.actions)) == FreshActions(db.actions);
    ActionsRestored(db);
  }

  /** The rows are the ones before, with their entries compiled again. */
  lemma ActionsRestored(db: Db)
    requires Stored(db)
    ensures var rows := CompileGraphs(FreshActions(db.actions), DecompileWorkflows(db.workflows, db.actions));
            rows == db.actions <==> NormalActions(db.actions)
  {
    var rows := CompileGraphs(FreshActions(db.actions), DecompileWorkflows(db.workflows, db.actions));
    CompileGraphsLength(FreshActions(db.actions), DecompileWorkflows(db.workflows, db.actions));
    forall k | 0 <= k < |db.actions| ensures rows[k] == db.actions[k] <==> NormalAction(db.actions[k]) {
      AllWorkflowsRestored(db.workflows, db.actions, k);
      RecompiledIsSame(db.actions[k]);
    }
    if NormalActions(db.actions) {
      assert rows == db.actions;
    } else {
      var k :| 0 <= k < |db.actions| && !NormalAction(db.actions[k]);
      assert rows[k] != db.actions[k];
    }
  }

  lemma {:induction false} CompileGraphsLength(actions: seq<Action>, workflows: seq<Workflow>)
    ensures |CompileGraphs(actions, workflows)| == |actions|
  {
    if workflows != [] {
      CompileGraphsLength(actions, workflows[..|workflows| - 1]);
      if workflows[|workflows| - 1].graph.Some? {
        var g := workflows[|workflows| - 1].graph.value;
        CompileNodesMeaning(g.edges, CompileGraphs(actions, workflows[..|workflows| - 1]), g.nodes);
      }
    }
  }

  // ---------------------------------------------------------------- conservation of edges

  /** A normalised edge: source id, target action, handle. */
  datatype Link = Link(source: string, target: Option<string>, handle: Option<string>)

  function LinkOfEdge(e: Edge): Link {
    var source := NormalizeSource(e.source);
    Link(source, Coerce(e.target), if IsTrigger(source) then None else Some(Handle(e)))
  }

  function LinkOfUpstream(up: Upstream, u: string): Link {
    Link(GetOr(up.source_id, ""), Some(u), up.source_handle)
  }

  function EdgeLinks(edges: seq<Edge>): seq<Link> {
    seq(|edges|, i requires 0 <= i < |edges| => LinkOfEdge(edges[i]))
  }

  function UpstreamLinks(upstream: seq<Upstream>, u: string): seq<Link> {
    seq(|upstream|, i requires 0 <= i < |upstream| => LinkOfUpstream(upstream[i], u))
  }

  /** The links of all action rows together. */
  function ActionLinks(actions: seq<Action>): seq<Link> {
    if actions == [] then []
    else ActionLinks(actions[..|actions| - 1]) +
         UpstreamLinks(actions[|actions| - 1].upstream, actions[|actions| - 1].id)
  }

  ghost predicate HasRow(actions: seq<Action>, u: string) {
    exists i :: 0 <= i < |actions| && actions[i].id == u
  }

  /** The edge targets a udf node that is backed by an action row. */
  ghost predicate Lands(actions: seq<Action>, nodes: seq<Node>, e: Edge) {
    Coerce(e.target).Some? && Serves(nodes, Coerce(e.target).value) && HasRow(actions, Coerce(e.target).value)
  }

  ghost function Landing(actions: seq<Action>, nodes: seq<Node>, edges: seq<Edge>): seq<Edge> {
    if edges == [] then []
    else Landing(actions, nodes, edges[..|edges| - 1]) +
         (if Lands(actions, nodes, edges[|edges| - 1]) then [edges[|edges| - 1]] else [])
  }

  /** The links that compiling gives to some rows that start without upstream entries. */
  ghost function CompiledLinks(edges: seq<Edge>, nodes: seq<Node>, actions: seq<Action>): seq<Link> {
    if actions == [] then []
    else
      var last := actions[|actions| - 1];
      CompiledLinks(edges, nodes, actions[..|actions| - 1]) +
      (if Serves(nodes, last.id) then UpstreamLinks(UpstreamOf(edges, last.id), last.id) else [])
  }

  lemma LinkOfCompiled(e: Edge, u: string)
    requires Targets(e, u)
    ensures LinkOfUpstream(CompileEdge(e), u) == LinkOfEdge(e)
  {}

  ghost function AddedLink(actions: seq<Action>, nodes: seq<Node>, e: Edge): multiset<Link> {
    if Lands(actions, nodes, e) then multiset{LinkOfEdge(e)} else multiset{}
  }

  lemma {:induction false} CompiledLinksSnoc(edges: seq<Edge>, nodes: seq<Node>, front: seq<Action>, last: Action)
    ensures multiset(CompiledLinks(edges, nodes, front + [last])) ==
            multiset(CompiledLinks(edges, nodes, front)) +
            (if Serves(nodes, last.id) then multiset(UpstreamLinks(UpstreamOf(edges, last.id), last.id)) else multiset{})
  {
    assert (front + [last])[..|front|] == front;
  }

  /** The induction step of the next lemma, with one more action row. */
  lemma {:induction false} OneMoreRow(edges: seq<Edge>, e: Edge, nodes: seq<Node>, front: seq<Action>, last: Action)
    requires DistinctIds(front + [last])
    requires multiset(CompiledLinks(edges + [e], nodes, front)) ==
             multiset(CompiledLinks(edges, nodes, front)) + AddedLink(front, nodes, e)
    ensures multiset(CompiledLinks(edges + [e], nodes, front + [last])) ==
            multiset(CompiledLinks(edges, nodes, front + [last])) + AddedLink(front + [last], nodes, e)
  {
    CompiledLinksSnoc(edges, nodes, front, last);
    CompiledLinksSnoc(edges + [e], nodes, front, last);
    UpstreamOfMore(edges, e, last.id);
    LandsSnoc(front, last, nodes, e);
  }

  /** One more edge adds its link to the row it lands on, and to no other. */
  lemma {:induction false} OneMoreEdge(edges: seq<Edge>, e: Edge, nodes: seq<Node>, actions: seq<Action>)
    requires DistinctIds(actions)
    ensures multiset(CompiledLinks(edges + [e], nodes, actions)) ==
            multiset(CompiledLinks(edges, nodes, actions)) + AddedLink(actions, nodes, e)
    decreases |actions|
  {
    if actions != [] {
      OneMoreEdge(edges, e, nodes, actions[..|actions| - 1]);
      assert actions == actions[..|actions| - 1] + [actions[|actions| - 1]];
      OneMoreRow(edges, e, nodes, actions[..|actions| - 1], actions[|actions| - 1]);
    } else {
      assert !Lands(actions, nodes, e);
    }
  }

  lemma LandsSnoc(front: seq<Action>, last: Action, nodes: seq<Node>, e: Edge)
    ensures Lands(front + [last], nodes, e) <==>
            Lands(front, nodes, e) || (Targets(e, last.id) && Serves(nodes, last.id))
    ensures DistinctIds(front + [last]) ==> !(Lands(front, nodes, e) && Targets(e, last.id))
  {
    var actions := front + [last];
    assert forall i :: 0 <= i < |front| ==> actions[i] == front[i];
    assert actions[|front|] == last;
    if Coerce(e.target).Some? && HasRow(front, Coerce(e.target).value) {
      var i :| 0 <= i < |front| && front[i].id == Coerce(e.target).value;
      assert actions[i].id == Coerce(e.target).value;
    }
  }

  lemma UpstreamOfMore(edges: seq<Edge>, e: Edge, u: string)
    ensures UpstreamLinks(UpstreamOf(edges + [e], u), u) ==
            UpstreamLinks(UpstreamOf(edges, u), u) + (if Targets(e, u) then [LinkOfEdge(e)] else [])
  {
    assert (edges + [e])[..|edges|] == edges;
    if Targets(e, u) {
      LinkOfCompiled(e, u);
    }
  }

  lemma {:induction false} LandingSnoc(actions: seq<Action>, nodes: seq<Node>, front: seq<Edge>, e: Edge)
    ensures Landing(actions, nodes, front + [e]) ==
            Landing(actions, nodes, front) + (if Lands(actions, nodes, e) then [e] else [])
    ensures multiset(EdgeLinks(Landing(actions, nodes, front + [e]))) ==
            multiset(EdgeLinks(Landing(actions, nodes, front))) + AddedLink(actions, nodes, e)
  {
    var landing := Landing(actions, nodes, front);
    assert (front + [e])[..|front|] == front;
    assert EdgeLinks(landing + [e]) == EdgeLinks(landing) + [LinkOfEdge(e)];
    assert landing + [] == landing;
  }

  /** The compiled rows together hold the links of the edges that land. */
  ghost predicate RowsHoldLanding(edges: seq<Edge>, nodes: seq<Node>, actions: seq<Action>) {
    multiset(CompiledLinks(edges, nodes, actions)) == multiset(EdgeLinks(Landing(actions, nodes, edges)))
  }

  lemma OneMoreLanding(whole: seq<Edge>, front: seq<Edge>, e: Edge, nodes: seq<Node>, actions: seq<Action>)
    requires DistinctIds(actions) && whole == front + [e] && RowsHoldLanding(front, nodes, actions)
    ensures RowsHoldLanding(whole, nodes, actions)
  {
    OneMoreEdge(front, e, nodes, actions);
    LandingSnoc(actions, nodes, front, e);
  }

  lemma {:induction false} CompiledLinksAreLanding(edges: seq<Edge>, nodes: seq<Node>, actions: seq<Action>)
    requires DistinctIds(actions)
    ensures RowsHoldLanding(edges, nodes, actions)
    decreases |edges|
  {
    if edges == [] {
      NoEdgesNoLinks(nodes, actions);
    } else {
      CompiledLinksAreLanding(edges[..|edges| - 1], nodes, actions);
      OneMoreLanding(edges, edges[..|edges| - 1], edges[|edges| - 1], nodes, actions);
    }
  }

  lemma {:induction false} NoEdgesNoLinks(nodes: seq<Node>, actions: seq<Action>)
    ensures CompiledLinks([], nodes, actions) == []
  {
    if actions != [] {
      NoEdgesNoLinks(nodes, actions[..|actions| - 1]);
    }
  }

  lemma {:induction false} LinksOfCompiledRows(
      edges: seq<Edge>, nodes: seq<Node>, before: seq<Action>, after: seq<Action>)
    requires |after| == |before|
    requires forall i :: 0 <= i < |before| ==> Compiled(edges, nodes, before[i], after[i]) && before[i].upstream == []
    ensures ActionLinks(after) == CompiledLinks(edges, nodes, before)
  {
    if before != [] {
      LinksOfCompiledRows(edges, nodes, before[..|before| - 1], after[..|after| - 1]);
      assert Compiled(edges, nodes, before[|before| - 1], after[|after| - 1]);
    }
  }

  ghost predicate AllLand(actions: seq<Action>, nodes: seq<Node>, edges: seq<Edge>) {
    forall i :: 0 <= i < |edges| ==> Lands(actions, nodes, edges[i])
  }

  lemma AllLandSnoc(actions: seq<Action>, nodes: seq<Node>, front: seq<Edge>, e: Edge)
    ensures AllLand(actions, nodes, front + [e]) <==> AllLand(actions, nodes, front) && Lands(actions, nodes, e)
  {
    var edges := front + [e];
    assert edges[|front|] == e;
    assert forall i :: 0 <= i < |front| ==> edges[i] == front[i];
  }

  lemma {:induction false} LandingSize(actions: seq<Action>, nodes: seq<Node>, edges: seq<Edge>)
    ensures if AllLand(actions, nodes, edges) then Landing(actions, nodes, edges) == edges
            else |Landing(actions, nodes, edges)| < |edges|
    decreases |edges|
  {
    if edges != [] {
      var front, e := edges[..|edges| - 1], edges[|edges| - 1];
      LandingSize(actions, nodes, front);
      assert edges == front + [e];
      AllLandSnoc(actions, nodes, front, e);
    }
  }

  /**
   * Compiling a graph into fresh action rows conserves its edges, none lost and none duplicated, exactly
   * when every edge targets a udf node that is backed by an action row.
   */
  lemma {:induction false} EdgesConserved(edges: seq<Edge>, nodes: seq<Node>, actions: seq<Action>)
    requires DistinctIds(actions)
    ensures multiset(ActionLinks(CompileNodes(edges, FreshActions(actions), nodes))) == multiset(EdgeLinks(edges)) <==>
            AllLand(actions, nodes, edges)
  {
    var rows := FreshActions(actions);
    var after := CompileNodes(edges, rows, nodes);
    CompileNodesMeaning(edges, rows, nodes);
    LinksOfCompiledRows(edges, nodes, rows, after);
    CompiledLinksAreLanding(edges, nodes, rows);
    LandingSize(rows, nodes, edges);
    forall i | 0 <= i < |edges| ensures Lands(rows, nodes, edges[i]) <==> Lands(actions, nodes, edges[i]) {
      SameRows(actions, nodes, edges[i]);
    }
    if multiset(ActionLinks(after)) == multiset(EdgeLinks(edges)) {
      assert |multiset(EdgeLinks(Landing(rows, nodes, edges)))| == |Landing(rows, nodes, edges)|;
      assert |multiset(EdgeLinks(edges))| == |edges|;
    }
  }

  lemma SameRows(actions: seq<Action>, nodes: seq<Node>, e: Edge)
    ensures Lands(FreshActions(actions), nodes, e) <==> Lands(actions, nodes, e)
  {
    var rows := FreshActions(actions);
    forall u ensures HasRow(rows, u) <==> HasRow(actions, u) {
      if HasRow(rows, u) {
        var i :| 0 <= i < |rows| && rows[i].id == u;
        assert actions[i].id == u;
      }
      if HasRow(actions, u) {
        var i :| 0 <= i < |actions| && actions[i].id == u;
        assert rows[i].id == u;
      }
    }
  }
}
