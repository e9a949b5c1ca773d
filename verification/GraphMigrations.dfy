/**
 * The two graph migrations together: relabelling a graph's actions to UUID text (`b23b877ee161`) and
 * then compiling it (`9079ae19374b`), against compiling the legacy graph.
 */
module GraphMigrations {
  import opened ActionGraph
  import opened GraphFormats
  import opened PrefixedIds
  import opened Uuids
  import opened WorkflowGraphs
  import opened Wrappers

  /** Action identifiers that the first migration can convert, whatever four characters it drops from them. */
  ghost predicate ActionIds(ids: seq<string>) {
    Migratable(ids, |ACTION|)
  }

  /** The new names that `b23b877ee161` gives to the actions. */
  function NewNames(ids: seq<string>): (names: seq<string>)
    requires AllCast(ids, |ACTION|)
    ensures |names| == |ids|
  {
    CastsAreUuids(ids, |ACTION|);
    Texts(Casts(ids, |ACTION|))
  }

  /** Compiling gives every graph the same action rows, whether its references were relabelled first or not. */
  ghost predicate Commute(ids: seq<string>)
    requires AllCast(ids, |ACTION|)
  {
    forall g: Graph, rows: seq<Action> {:trigger CompileNodes(g.edges, rows, g.nodes)} ::
      var r := RelabelGraph(ids, NewNames(ids), g);
      CompileNodes(r.edges, rows, r.nodes) == CompileNodes(g.edges, rows, g.nodes)
  }

  /** Each identifier reads, behind its first four characters, as the UUID that the cast finds there. */
  ghost predicate AllRead(ids: seq<string>) {
    forall i :: 0 <= i < |ids| ==> |ids[i]| > |ACTION| && ReadsBehindPrefix(ids[i])
  }

  ghost predicate BareHex(ids: seq<string>) {
    forall i :: 0 <= i < |ids| ==> Hex32(Drop(ids[i], |ACTION|))
  }

  // ---------------------------------------------------------------- one reference

  /** The new name of a mapped reference is the text of its cast. */
  lemma MappedReference(ids: seq<string>, reference: string)
    requires ActionIds(ids) && reference in ids
    ensures |reference| > |ACTION| && CastUuid(reference[|ACTION|..]) == StripCast(reference, |ACTION|)
    ensures StripCast(reference, |ACTION|).Some? && IsUuid(StripCast(reference, |ACTION|).value)
    ensures Relabel(ids, NewNames(ids), Some(reference)) == Some(UuidText(StripCast(reference, |ACTION|).value))
    ensures AllRead(ids) ==> ReadsBehindPrefix(reference)
  {
    var j := Find(ids, reference).value;
    assert ids[j] == reference && StripCast(ids[j], |ACTION|).Some?;
    assert CastUuid("") == None;
    CastIsUuid(Drop(reference, |ACTION|));
  }

  /** No identifier that casts is taken for a trigger. */
  lemma CastIsNoTrigger(reference: string)
    requires |reference| > |ACTION| && CastUuid(reference[|ACTION|..]).Some?
    ensures !IsTrigger(reference)
  {
    CastOfOther(reference[|ACTION|..]);
    assert reference[|ACTION|..][0] == reference[4] && "trigger-"[4] == 'g';
  }

  lemma PrintedIsNoTrigger(u: string)
    requires IsUuid(u)
    ensures !IsTrigger(UuidText(u))
  {
    assert UuidText(u)[0] == u[0] && "trigger-"[0] == 't';
  }

  lemma ReferenceCommutes(ids: seq<string>, reference: Option<string>)
    requires ActionIds(ids) && AllRead(ids)
    ensures Coerce(Relabel(ids, NewNames(ids), reference)) == Coerce(reference)
    ensures NormalizeSource(Relabel(ids, NewNames(ids), reference)) == NormalizeSource(reference)
  {
    if NamesRow(ids, reference) {
      MappedReference(ids, reference.value);
      var u := StripCast(reference.value, |ACTION|).value;
      CoerceAgreesExactly(reference.value);
      CoercePrinted(u);
      CastIsNoTrigger(reference.value);
      PrintedIsNoTrigger(u);
    }
  }

  lemma CompilesAlike(e: Edge, e': Edge)
    requires NormalizeSource(e.source) == NormalizeSource(e'.source)
    requires e.sourceHandle == e'.sourceHandle && e.source_handle == e'.source_handle
    ensures CompileEdge(e) == CompileEdge(e')
  {}

  lemma EdgeCommutes(ids: seq<string>, e: Edge)
    requires ActionIds(ids) && AllRead(ids)
    ensures CompileEdge(RelabelEdge(ids, NewNames(ids), e)) == CompileEdge(e)
    ensures Coerce(RelabelEdge(ids, NewNames(ids), e).target) == Coerce(e.target)
  {
    ReferenceCommutes(ids, e.source);
    ReferenceCommutes(ids, e.target);
    CompilesAlike(RelabelEdge(ids, NewNames(ids), e), e);
  }

  // ---------------------------------------------------------------- one graph

  lemma UpstreamCommutes(ids: seq<string>, edges: seq<Edge>, u: string)
    requires ActionIds(ids) && AllRead(ids)
    ensures UpstreamOf(RelabelEdges(ids, NewNames(ids), edges), u) == UpstreamOf(edges, u)
  {
    var relabelled := RelabelEdges(ids, NewNames(ids), edges);
    forall i | 0 <= i < |edges| ensures CompactAll(relabelled)[i] == CompactAll(edges)[i] {
      EdgeCommutes(ids, edges[i]);
    }
    AlikeUpstream(relabelled, edges, u);
  }

  lemma {:induction false} NodesCommute(ids: seq<string>, edges: seq<Edge>, rows: seq<Action>, nodes: seq<Node>)
    requires ActionIds(ids) && AllRead(ids)
    ensures CompileNodes(RelabelEdges(ids, NewNames(ids), edges), rows, RelabelNodes(ids, NewNames(ids), nodes)) ==
            CompileNodes(edges, rows, nodes)
    decreases |nodes|
  {
    var relabelled := RelabelNodes(ids, NewNames(ids), nodes);
    if nodes != [] {
      var front, node := nodes[..|nodes| - 1], nodes[|nodes| - 1];
      NodesCommute(ids, edges, rows, front);
      assert relabelled[..|relabelled| - 1] == RelabelNodes(ids, NewNames(ids), front);
      ReferenceCommutes(ids, node.id);
      if ActionOf(node).Some? {
        UpstreamCommutes(ids, edges, ActionOf(node).value);
      }
    }
  }

  /** Relabelling leaves the trigger position and the viewport that compiling finds. */
  lemma {:induction false} LayoutCommutes(
      from: seq<string>, to: seq<string>, g: Graph, nodes: seq<Node>, layout: Layout)
    requires |from| == |to|
    ensures CompileLayout(RelabelGraph(from, to, g), RelabelNodes(from, to, nodes), layout) ==
            CompileLayout(g, nodes, layout)
    decreases |nodes|
  {
    if nodes != [] {
      var relabelled := RelabelNodes(from, to, nodes);
      assert relabelled[..|relabelled| - 1] == RelabelNodes(from, to, nodes[..|nodes| - 1]);
      LayoutCommutes(from, to, g, nodes[..|nodes| - 1], layout);
    }
  }

  // ---------------------------------------------------------------- a graph that tells them apart

  /** One udf node under the given name, away from the origin. */
  function Probe(id: string): Graph {
    Graph([Node(Some(id), Some("udf"), Position(Some(1.0), None), None)], [], Viewport(None, None, None))
  }

  lemma ProbeTells(ids: seq<string>, i: nat)
    requires ActionIds(ids) && i < |ids| && |ids[i]| > |ACTION| && !ReadsBehindPrefix(ids[i])
    ensures !Commute(ids)
  {
    MappedReference(ids, ids[i]);
    CoerceAgreesExactly(ids[i]);
    var u := StripCast(ids[i], |ACTION|).value;
    CoercePrinted(u);
    var g := Probe(ids[i]);
    var r := RelabelGraph(ids, NewNames(ids), g);
    var rows := [Action(u, "", None, 0.0, 0.0, [])];
    assert g.nodes[..0] == [] && r.nodes[..0] == [];
    assert CompileNodes(g.edges, rows, g.nodes) == CompileNode(g.edges, rows, g.nodes[0]);
    assert CompileNodes(g.edges, rows, g.nodes)[0].x == 0.0;
    assert CompileNodes(r.edges, rows, r.nodes) == CompileNode(r.edges, rows, r.nodes[0]);
    assert CompileNodes(r.edges, rows, r.nodes)[0].x == 1.0;
  }

  /**
   * The two migrations commute on every graph and every set of action rows exactly when each action
   * identifier reads behind its first four characters: those are `act-` before 32 bare hex digits, `urn:`,
   * four braces, or braces and then hyphens before a text without braces.
   */
  lemma MigrationsCommute(ids: seq<string>)
    requires ActionIds(ids)
    ensures Commute(ids) <==> AllRead(ids)
  {
    if AllRead(ids) {
      forall g: Graph, rows: seq<Action>
        ensures var r := RelabelGraph(ids, NewNames(ids), g);
                CompileNodes(r.edges, rows, r.nodes) == CompileNodes(g.edges, rows, g.nodes)
      {
        NodesCommute(ids, g.edges, rows, g.nodes);
      }
    } else {
      var i :| 0 <= i < |ids| && !(|ids[i]| > |ACTION| && ReadsBehindPrefix(ids[i]));
      MappedReference(ids, ids[i]);
      ProbeTells(ids, i);
    }
  }

  /** Among identifiers that start with `act-`, as the system makes them: exactly those of 32 bare hex digits. */
  lemma GeneratedIdsCommute(ids: seq<string>)
    requires ActionIds(ids) && forall i :: 0 <= i < |ids| ==> ACTION <= ids[i]
    ensures Commute(ids) <==> BareHex(ids)
  {
    MigrationsCommute(ids);
    forall i | 0 <= i < |ids|
      ensures |ids[i]| > |ACTION| && (ReadsBehindPrefix(ids[i]) <==> Hex32(Drop(ids[i], |ACTION|)))
    {
      MappedReference(ids, ids[i]);
      assert ids[i][..4] == ACTION;
    }
  }
}
