/** Migration `9079ae19374b` on graphs that mix id formats and handle spellings. */
module GraphFormats {
  import opened ActionGraph
  import opened Uuids
  import opened WorkflowGraphs
  import opened Wrappers

  /** A reference in its one canonical form, where it reads as a UUID. */
  function CanonicalId(id: Option<string>): Option<string> {
    match Coerce(id)
    case Some(u) => (CoerceIsUuid(id); Some(UuidText(u)))
    case None => id
  }

  /** An edge with canonical ids and its handle under the camelCase key. */
  function CanonicalEdge(e: Edge): Edge {
    Edge(Some(NormalizeSource(e.source)), CanonicalId(e.target), Some(Handle(e)), None)
  }

  function CanonicalEdges(edges: seq<Edge>): seq<Edge> {
    seq(|edges|, i requires 0 <= i < |edges| => CanonicalEdge(edges[i]))
  }

  function CanonicalNodes(nodes: seq<Node>): seq<Node> {
    seq(|nodes|, i requires 0 <= i < |nodes| => nodes[i].(id := CanonicalId(nodes[i].id)))
  }

  /** Every id in any format has the UUID of its canonical form, which is its own canonical form. */
  lemma CanonicalIdReads(id: Option<string>)
    ensures Coerce(CanonicalId(id)) == Coerce(id)
    ensures CanonicalId(CanonicalId(id)) == CanonicalId(id)
  {
    if Coerce(id).Some? {
      CoerceIsUuid(id);
      CoercePrinted(Coerce(id).value);
    }
  }

  /** Normalising a source twice is normalising it once, and never makes or unmakes a trigger. */
  lemma NormalizeTwice(source: Option<string>)
    ensures NormalizeSource(Some(NormalizeSource(source))) == NormalizeSource(source)
    ensures IsTrigger(NormalizeSource(source)) <==> IsTrigger(GetOr(source, ""))
  {
    var s := GetOr(source, "");
    if !IsTrigger(s) && Coerce(Some(s)).Some? {
      CoerceIsUuid(Some(s));
      var u := Coerce(Some(s)).value;
      CoercePrinted(u);
      assert UuidText(u)[0] == u[0] && "trigger-"[0] == 't';
    }
  }

  lemma CanonicalEdgeCompiles(e: Edge)
    ensures CompileEdge(CanonicalEdge(e)) == CompileEdge(e)
    ensures Coerce(CanonicalEdge(e).target) == Coerce(e.target)
    ensures CanonicalEdge(CanonicalEdge(e)) == CanonicalEdge(e)
  {
    NormalizeTwice(e.source);
    CanonicalIdReads(e.target);
  }

  lemma UpstreamSnoc(whole: seq<Edge>, front: seq<Edge>, e: Edge, u: string)
    requires whole == front + [e]
    ensures UpstreamOf(whole, u) == UpstreamOf(front, u) + (if Targets(e, u) then [CompileEdge(e)] else [])
  {
    assert whole[..|front|] == front;
    if Targets(e, u) {
      CompileAllSnoc(Incoming(whole, u), Incoming(front, u), e);
    } else {
      assert Incoming(front, u) + [] == Incoming(front, u);
    }
  }

  /** All that compiling takes from an edge: the entry, and the action it is for. */
  datatype Compact = Compact(entry: Upstream, target: Option<string>)

  function CompactAll(edges: seq<Edge>): seq<Compact> {
    seq(|edges|, i requires 0 <= i < |edges| => Compact(CompileEdge(edges[i]), Coerce(edges[i].target)))
  }

  function Select(all: seq<Compact>, u: string): seq<Upstream> {
    if all == [] then []
    else Select(all[..|all| - 1], u) + (if all[|all| - 1].target == Some(u) then [all[|all| - 1].entry] else [])
  }

  lemma {:induction false} SelectSnoc(whole: seq<Compact>, front: seq<Compact>, last: Compact, u: string)
    requires whole == front + [last]
    ensures Select(whole, u) == Select(front, u) + (if last.target == Some(u) then [last.entry] else [])
  {
    assert whole[..|front|] == front;
  }

  lemma {:induction false} SelectOfMore(whole: seq<Edge>, front: seq<Edge>, e: Edge, u: string)
    requires whole == front + [e]
    ensures Select(CompactAll(whole), u) ==
            Select(CompactAll(front), u) + (if Targets(e, u) then [CompileEdge(e)] else [])
  {
    var last := Compact(CompileEdge(e), Coerce(e.target));
    assert CompactAll(whole) == CompactAll(front) + [last];
    SelectSnoc(CompactAll(whole), CompactAll(front), last, u);
  }

  lemma {:induction false} SelectsMore(whole: seq<Edge>, front: seq<Edge>, e: Edge, u: string)
    requires whole == front + [e] && UpstreamOf(front, u) == Select(CompactAll(front), u)
    ensures UpstreamOf(whole, u) == Select(CompactAll(whole), u)
  {
    UpstreamSnoc(whole, front, e, u);
    SelectOfMore(whole, front, e, u);
  }

  lemma {:induction false} UpstreamIsSelect(edges: seq<Edge>, u: string)
    ensures UpstreamOf(edges, u) == Select(CompactAll(edges), u)
    decreases |edges|
  {
    if edges != [] {
      var front, last := Unsnoc(edges);
      UpstreamIsSelect(front, u);
      SelectsMore(edges, front, last, u);
    }
  }

  /** Edges that compile to the same entries for the same actions give every action the same list. */
  lemma AlikeUpstream(a: seq<Edge>, b: seq<Edge>, u: string)
    requires CompactAll(a) == CompactAll(b)
    ensures UpstreamOf(a, u) == UpstreamOf(b, u)
  {
    UpstreamIsSelect(a, u);
    UpstreamIsSelect(b, u);
  }

  lemma IncomingCanonical(edges: seq<Edge>, u: string)
    ensures UpstreamOf(CanonicalEdges(edges), u) == UpstreamOf(edges, u)
  {
    forall i | 0 <= i < |edges| ensures CompactAll(CanonicalEdges(edges))[i] == CompactAll(edges)[i] {
      CanonicalEdgeCompiles(edges[i]);
    }
    AlikeUpstream(CanonicalEdges(edges), edges, u);
  }

  lemma CanonicalNodeCompiles(edges: seq<Edge>, prior: seq<Action>, node: Node)
    ensures CompileNode(CanonicalEdges(edges), prior, node.(id := CanonicalId(node.id))) == CompileNode(edges, prior, node)
  {
    CanonicalIdReads(node.id);
    if ActionOf(node).Some? {
      IncomingCanonical(edges, ActionOf(node).value);
    }
  }

  lemma {:induction false} CompileNodesSnoc(
      edges: seq<Edge>, actions: seq<Action>, whole: seq<Node>, front: seq<Node>, node: Node)
    requires whole == front + [node]
    ensures CompileNodes(edges, actions, whole) == CompileNode(edges, CompileNodes(edges, actions, front), node)
  {
    assert whole[..|front|] == front;
  }

  lemma CanonicalNodesSnoc(whole: seq<Node>, front: seq<Node>, node: Node)
    requires whole == front + [node]
    ensures CanonicalNodes(whole) == CanonicalNodes(front) + [node.(id := CanonicalId(node.id))]
  {}

  /** Any mix of id formats and handle spellings compiles to the rows of the canonical graph. */
  lemma {:induction false} CanonicalCompiles(edges: seq<Edge>, actions: seq<Action>, nodes: seq<Node>)
    ensures CompileNodes(CanonicalEdges(edges), actions, CanonicalNodes(nodes)) == CompileNodes(edges, actions, nodes)
    decreases |nodes|
  {
    if nodes != [] {
      var front, node := Unsnoc(nodes);
      CanonicalCompiles(edges, actions, front);
      CanonicalNodesSnoc(nodes, front, node);
      CompileNodesSnoc(edges, actions, nodes, front, node);
      CompileNodesSnoc(CanonicalEdges(edges), actions, CanonicalNodes(nodes), CanonicalNodes(front),
                       node.(id := CanonicalId(node.id)));
      CanonicalNodeCompiles(edges, CompileNodes(edges, actions, front), node);
    }
  }

  // ---------------------------------------------------------------- the upgrade writes normal rows

  lemma CompiledIsNormal(e: Edge)
    ensures Normal(CompileEdge(e))
  {
    NormalizeTwice(e.source);
  }

  /** The same rows by key, in the same places. */
  ghost predicate SameKeys(before: seq<Action>, after: seq<Action>) {
    && |after| == |before|
    && forall k :: 0 <= k < |before| ==> after[k].id == before[k].id && after[k].workflow == before[k].workflow
  }

  lemma RowStaysNormal(edges: seq<Edge>, nodes: seq<Node>, before: Action, after: Action)
    requires Compiled(edges, nodes, before, after) && NormalAction(before)
    ensures NormalAction(after)
  {
    if Serves(nodes, before.id) {
      forall i | 0 <= i < |after.upstream| ensures Normal(after.upstream[i]) {
        CompiledIsNormal(Incoming(edges, after.id)[i]);
      }
    }
  }

  lemma {:induction false} NodesWriteNormal(edges: seq<Edge>, actions: seq<Action>, nodes: seq<Node>)
    requires NormalActions(actions)
    ensures SameKeys(actions, CompileNodes(edges, actions, nodes))
    ensures NormalActions(CompileNodes(edges, actions, nodes))
  {
    var after := CompileNodes(edges, actions, nodes);
    CompileNodesMeaning(edges, actions, nodes);
    forall k | 0 <= k < |after| ensures NormalAction(after[k]) {
      RowStaysNormal(edges, nodes, actions[k], after[k]);
    }
  }

  lemma {:induction false} GraphsWriteNormal(actions: seq<Action>, workflows: seq<Workflow>)
    requires NormalActions(actions)
    ensures SameKeys(actions, CompileGraphs(actions, workflows))
    ensures NormalActions(CompileGraphs(actions, workflows))
    decreases |workflows|
  {
    if workflows != [] {
      var front, graph := workflows[..|workflows| - 1], workflows[|workflows| - 1].graph;
      GraphsWriteNormal(actions, front);
      if graph.Some? {
        NodesWriteNormal(graph.value.edges, CompileGraphs(actions, front), graph.value.nodes);
      }
    }
  }

  /** Unique UUID keys, and a workflow row for every action: what the two tables' constraints promise. */
  ghost predicate Keyed(db: Db) {
    && UuidIds(db.actions) && DistinctIds(db.actions)
    && forall i :: 0 <= i < |db.actions| ==> Covered(db.actions[i], db.workflows)
  }

  lemma StaysCovered(before: Action, after: Action, workflows: seq<Workflow>)
    requires Covered(before, workflows) && after.workflow == before.workflow
    ensures Covered(after, UpgradedWorkflows(workflows))
  {
    var i :| 0 <= i < |workflows| && workflows[i].id == before.workflow;
    assert UpgradedWorkflows(workflows)[i].id == after.workflow;
  }

  /** Whatever the stored graphs hold, the upgrade leaves normalised tables with normal entries only. */
  lemma UpgradedIsNormal(db: Db)
    requires Keyed(db)
    ensures Stored(Upgraded(db)) && NormalActions(Upgraded(db).actions)
  {
    var start, up := FreshActions(db.actions), Upgraded(db);
    GraphsWriteNormal(start, db.workflows);
    forall k | 0 <= k < |up.actions| ensures Covered(up.actions[k], up.workflows) {
      StaysCovered(start[k], up.actions[k], db.workflows);
    }
    forall i | 0 <= i < |up.workflows| ensures up.workflows[i].layout.version == 1 {
      if db.workflows[i].graph.Some? {
        var g := db.workflows[i].graph.value;
        LayoutKeepsVersion(g, g.nodes, DEFAULT_LAYOUT);
      }
    }
  }

  /** After any upgrade, `downgrade` and `upgrade` again change nothing, whatever the stored edges were. */
  lemma UpgradeDowngradeUpgrade(db: Db)
    requires Keyed(db)
    ensures UuidIds(Upgraded(db).actions) && Upgraded(Downgraded(Upgraded(db))) == Upgraded(db)
  {
    UpgradedIsNormal(db);
    DowngradeUpgrade(Upgraded(db));
  }
}
