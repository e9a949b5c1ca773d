/**
 * Prefixed text identifiers replaced by UUIDs, and back: migration `b23b877ee161`. A table is the
 * sequence of its rows; a UUID column holds the 32 digits of each UUID.
 */
module PrefixedIds {
  import opened Uuids
  import opened WorkflowGraphs
  import opened Wrappers

  /** A row: its identifier, and its other columns as one opaque value. */
  datatype Row = Row(id: string, data: nat)

  datatype ApiKey = ApiKey(data: nat, webhook: Option<string>)

  datatype Workflow = Workflow(object_: Option<Graph>, entrypoint: Option<string>, data: nat)

  const SECRET := "secret-"
  const DEFINITION := "wf-defn-"
  const SCHEDULE := "sch-"
  const WEBHOOK := "wh-"
  const ACTION := "act-"

  // ---------------------------------------------------------------- one identifier

  /** `substring(id from n + 1)` */
  function Drop(id: string, n: nat): string {
    if |id| <= n then "" else id[n..]
  }

  /** `CAST(substring(id from n + 1) AS uuid)`: whatever the first n characters are, they are dropped. */
  function StripCast(id: string, n: nat): Option<string> {
    CastUuid(Drop(id, n))
  }

  /** `prefix || replace(id::text, '-', '')` */
  function Prefixed(prefix: string, u: string): string
    requires IsUuid(u)
  {
    prefix + RemoveAll(UuidText(u), '-')
  }

  /** An identifier as the repository generates them: the prefix and 32 lower-case hex digits. */
  ghost predicate Canonical(prefix: string, id: string) {
    prefix <= id && IsUuid(id[|prefix|..])
  }

  lemma LowerOfUuid(u: string)
    requires IsUuid(u)
    ensures Lower(u) == u
  {
    LowerIsUuid(u);
  }

  lemma StripPrefixed(prefix: string, u: string)
    requires IsUuid(u)
    ensures Prefixed(prefix, u) == prefix + u
    ensures StripCast(Prefixed(prefix, u), |prefix|) == Some(u)
  {
    DashesOut(u);
    assert (prefix + u)[|prefix|..] == u;
    CastHex32(u);
    LowerOfUuid(u);
  }

  /** Stripping and prefixing again restores an identifier exactly when it was canonical. */
  lemma PrefixedStrip(prefix: string, id: string)
    requires StripCast(id, |prefix|).Some?
    ensures IsUuid(StripCast(id, |prefix|).value)
    ensures Prefixed(prefix, StripCast(id, |prefix|).value) == id <==> Canonical(prefix, id)
  {
    CastIsUuid(Drop(id, |prefix|));
    var u := StripCast(id, |prefix|).value;
    DashesOut(u);
    if Canonical(prefix, id) {
      assert id == prefix + id[|prefix|..];
      StripPrefixed(prefix, id[|prefix|..]);
    }
    if prefix + u == id {
      assert id[|prefix|..] == u;
    }
  }

  // ---------------------------------------------------------------- one table

  ghost predicate Distinct(ids: seq<string>) {
    forall i, j :: 0 <= i < j < |ids| ==> ids[i] != ids[j]
  }

  ghost predicate AllUuids(ids: seq<string>) {
    forall i :: 0 <= i < |ids| ==> IsUuid(ids[i])
  }

  ghost predicate AllCanonical(prefix: string, ids: seq<string>) {
    forall i :: 0 <= i < |ids| ==> Canonical(prefix, ids[i])
  }

  ghost predicate AllCast(ids: seq<string>, n: nat) {
    forall i :: 0 <= i < |ids| ==> StripCast(ids[i], n).Some?
  }

  function Ids(rows: seq<Row>): seq<string> {
    seq(|rows|, i requires 0 <= i < |rows| => rows[i].id)
  }

  function WithIds(rows: seq<Row>, ids: seq<string>): seq<Row>
    requires |ids| == |rows|
  {
    seq(|rows|, i requires 0 <= i < |rows| => rows[i].(id := ids[i]))
  }

  /** The column `id_new`, where every cast succeeds. */
  function Casts(ids: seq<string>, n: nat): seq<string>
    requires AllCast(ids, n)
  {
    seq(|ids|, i requires 0 <= i < |ids| => StripCast(ids[i], n).value)
  }

  /** The column `id_old`. */
  function Prefixes(prefix: string, ids: seq<string>): seq<string>
    requires AllUuids(ids)
  {
    seq(|ids|, i requires 0 <= i < |ids| => Prefixed(prefix, ids[i]))
  }

  /** Every cast succeeds, and the unique index can be created again. */
  ghost predicate Migratable(ids: seq<string>, n: nat) {
    AllCast(ids, n) && Distinct(Casts(ids, n))
  }

  lemma CastsAreUuids(ids: seq<string>, n: nat)
    requires AllCast(ids, n)
    ensures AllUuids(Casts(ids, n))
  {
    forall i | 0 <= i < |ids| ensures IsUuid(Casts(ids, n)[i]) {
      CastIsUuid(Drop(ids[i], n));
    }
  }

  /** Identifiers of the generated form always migrate. */
  lemma CanonicalMigrates(prefix: string, ids: seq<string>)
    requires AllCanonical(prefix, ids) && Distinct(ids)
    ensures Migratable(ids, |prefix|)
  {
    forall i | 0 <= i < |ids| ensures StripCast(ids[i], |prefix|) == Some(ids[i][|prefix|..]) {
      assert Canonical(prefix, ids[i]);
      CastHex32(Drop(ids[i], |prefix|));
      LowerOfUuid(ids[i][|prefix|..]);
    }
    forall i, j | 0 <= i < j < |ids| ensures Casts(ids, |prefix|)[i] != Casts(ids, |prefix|)[j] {
      assert Canonical(prefix, ids[i]) && Canonical(prefix, ids[j]);
      assert ids[i] == prefix + ids[i][|prefix|..] && ids[j] == prefix + ids[j][|prefix|..];
    }
  }

  lemma ColumnRestored(prefix: string, ids: seq<string>)
    requires AllCast(ids, |prefix|)
    ensures AllUuids(Casts(ids, |prefix|))
    ensures Prefixes(prefix, Casts(ids, |prefix|)) == ids <==> AllCanonical(prefix, ids)
  {
    CastsAreUuids(ids, |prefix|);
    forall i | 0 <= i < |ids|
      ensures Prefixes(prefix, Casts(ids, |prefix|))[i] == ids[i] <==> Canonical(prefix, ids[i])
    {
      PrefixedStrip(prefix, ids[i]);
    }
    if !AllCanonical(prefix, ids) {
      var i :| 0 <= i < |ids| && !Canonical(prefix, ids[i]);
      assert Prefixes(prefix, Casts(ids, |prefix|))[i] != ids[i];
    }
  }

  lemma ColumnRoundTrip(prefix: string, ids: seq<string>)
    requires AllUuids(ids)
    ensures AllCast(Prefixes(prefix, ids), |prefix|) && Casts(Prefixes(prefix, ids), |prefix|) == ids
    ensures Distinct(ids) ==> Distinct(Prefixes(prefix, ids))
  {
    forall i | 0 <= i < |ids| ensures StripCast(Prefixes(prefix, ids)[i], |prefix|) == Some(ids[i]) {
      StripPrefixed(prefix, ids[i]);
    }
  }

  // ---------------------------------------------------------------- references

  /** The position of a key, if the column holds it. */
  function Find(ids: seq<string>, id: string): (r: Option<nat>)
    ensures r.Some? ==> r.value < |ids| && ids[r.value] == id
    ensures r == None ==> id !in ids
  {
    if ids == [] then None
    else if ids[|ids| - 1] == id then Some(|ids| - 1)
    else Find(ids[..|ids| - 1], id)
  }

  /** `SET ref = to FROM table WHERE ref = from`: a reference that matches no key comes out as `other`. */
  function Follow(from: seq<string>, to: seq<string>, reference: Option<string>, other: Option<string>): Option<string>
    requires |from| == |to|
  {
    if reference == None then other
    else match Find(from, reference.value)
      case None => other
      case Some(i) => Some(to[i])
  }

  lemma {:induction false} FindAt(ids: seq<string>, i: nat)
    requires Distinct(ids) && i < |ids|
    ensures Find(ids, ids[i]) == Some(i)
  {
    var j := Find(ids, ids[i]).value;
    assert ids[j] == ids[i];
  }

  /** A column that is filled by a join, so that a row without match gets NULL. */
  function Rejoin(keys: seq<ApiKey>, from: seq<string>, to: seq<string>): seq<ApiKey>
    requires |from| == |to|
  {
    seq(|keys|, i requires 0 <= i < |keys| => keys[i].(webhook := Follow(from, to, keys[i].webhook, None)))
  }

  /** A reference inside a graph, which is left alone unless it names an action. */
  function Relabel(from: seq<string>, to: seq<string>, reference: Option<string>): Option<string>
    requires |from| == |to|
  {
    Follow(from, to, reference, reference)
  }

  function RelabelNodes(from: seq<string>, to: seq<string>, nodes: seq<Node>): seq<Node>
    requires |from| == |to|
  {
    seq(|nodes|, i requires 0 <= i < |nodes| => nodes[i].(id := Relabel(from, to, nodes[i].id)))
  }

  function RelabelEdge(from: seq<string>, to: seq<string>, e: Edge): Edge
    requires |from| == |to|
  {
    e.(source := Relabel(from, to, e.source), target := Relabel(from, to, e.target))
  }

  function RelabelEdges(from: seq<string>, to: seq<string>, edges: seq<Edge>): seq<Edge>
    requires |from| == |to|
  {
    seq(|edges|, i requires 0 <= i < |edges| => RelabelEdge(from, to, edges[i]))
  }

  function RelabelGraph(from: seq<string>, to: seq<string>, g: Graph): Graph
    requires |from| == |to|
  {
    g.(nodes := RelabelNodes(from, to, g.nodes), edges := RelabelEdges(from, to, g.edges))
  }

  function RelabelWorkflow(from: seq<string>, to: seq<string>, w: Workflow): Workflow
    requires |from| == |to|
  {
    w.(object_ := if w.object_.Some? then Some(RelabelGraph(from, to, w.object_.value)) else None,
       entrypoint := Relabel(from, to, w.entrypoint))
  }

  function RelabelWorkflows(from: seq<string>, to: seq<string>, workflows: seq<Workflow>): seq<Workflow>
    requires |from| == |to|
  {
    seq(|workflows|, i requires 0 <= i < |workflows| => RelabelWorkflow(from, to, workflows[i]))
  }

  // ---------------------------------------------------------------- relabelling keeps names apart

  /** A reference that names no row, and is the new name of another reference of the graph. */
  ghost predicate Clashes(from: seq<string>, to: seq<string>, a: Option<string>, b: Option<string>)
    requires |from| == |to|
  {
    a.Some? && a.value !in from && b.Some? && b.value in from && Relabel(from, to, b) == a
  }

  /** Two references name the same thing after relabelling exactly when they did before, unless they clash. */
  lemma NamesKept(from: seq<string>, to: seq<string>, a: Option<string>, b: Option<string>)
    requires |from| == |to| && Distinct(from) && Distinct(to)
    ensures (Relabel(from, to, a) == Relabel(from, to, b) <==> a == b) <==>
            !(Clashes(from, to, a, b) || Clashes(from, to, b, a))
  {
    if a.Some? && b.Some? && a.value in from && b.value in from {
      var i, j := Find(from, a.value).value, Find(from, b.value).value;
      assert to[i] == to[j] ==> i == j;
    }
  }

  ghost predicate NamesGraph(g: Graph, reference: Option<string>) {
    || (exists i :: 0 <= i < |g.nodes| && g.nodes[i].id == reference)
    || (exists i :: 0 <= i < |g.edges| && g.edges[i].source == reference)
    || (exists i :: 0 <= i < |g.edges| && g.edges[i].target == reference)
  }

  /** The references that one workflow holds: in its graph, and its entry point. */
  ghost predicate Names(w: Workflow, reference: Option<string>) {
    (w.object_.Some? && NamesGraph(w.object_.value, reference)) || w.entrypoint == reference
  }

  ghost predicate NoClash(from: seq<string>, to: seq<string>, w: Workflow)
    requires |from| == |to|
  {
    forall a, b {:trigger Names(w, a), Names(w, b)} :: Names(w, a) && Names(w, b) ==> !Clashes(from, to, a, b)
  }

  /** Which references are equal to which, over all pairs of references of a workflow. */
  ghost predicate SameShape(from: seq<string>, to: seq<string>, w: Workflow)
    requires |from| == |to|
  {
    forall a, b {:trigger Names(w, a), Names(w, b)} :: Names(w, a) && Names(w, b) ==>
      (Relabel(from, to, a) == Relabel(from, to, b) <==> a == b)
  }

  /**
   * Relabelling keeps the graph up to the names of its nodes: every endpoint and the entry point
   * that named a node still names that node and no other, exactly when no reference clashes.
   */
  lemma ShapeKept(from: seq<string>, to: seq<string>, w: Workflow)
    requires |from| == |to| && Distinct(from) && Distinct(to)
    ensures SameShape(from, to, w) <==> NoClash(from, to, w)
  {
    forall a, b | Names(w, a) && Names(w, b)
      ensures (Relabel(from, to, a) == Relabel(from, to, b) <==> a == b) <==>
              !(Clashes(from, to, a, b) || Clashes(from, to, b, a))
    {
      NamesKept(from, to, a, b);
    }
  }

  /** Where the shape is kept, an edge leaves and enters the same nodes, and the entry point stays. */
  lemma EndpointsKept(from: seq<string>, to: seq<string>, w: Workflow, g: Graph, i: nat, k: nat)
    requires |from| == |to| && Distinct(from) && Distinct(to) && NoClash(from, to, w)
    requires w.object_ == Some(g) && i < |g.nodes| && k < |g.edges|
    ensures var r := RelabelGraph(from, to, g);
            && |r.nodes| == |g.nodes| && |r.edges| == |g.edges|
            && (r.edges[k].source == r.nodes[i].id <==> g.edges[k].source == g.nodes[i].id)
            && (r.edges[k].target == r.nodes[i].id <==> g.edges[k].target == g.nodes[i].id)
            && (Relabel(from, to, w.entrypoint) == r.nodes[i].id <==> w.entrypoint == g.nodes[i].id)
  {
    ShapeKept(from, to, w);
    assert Names(w, g.nodes[i].id) && Names(w, g.edges[k].source) && Names(w, g.edges[k].target);
    assert Names(w, w.entrypoint);
  }

  // ---------------------------------------------------------------- relabelling there and back

  ghost predicate NamesRow(ids: seq<string>, reference: Option<string>) {
    reference.Some? && reference.value in ids
  }

  /** A reference that names no row, but is the new name of some row. */
  ghost predicate Confusable(from: seq<string>, to: seq<string>, reference: Option<string>) {
    NamesRow(to, reference) && !NamesRow(from, reference)
  }

  lemma ReferenceRestored(from: seq<string>, to: seq<string>, reference: Option<string>)
    requires |from| == |to| && Distinct(from) && Distinct(to)
    ensures Relabel(to, from, Relabel(from, to, reference)) == reference <==> !Confusable(from, to, reference)
  {
    if NamesRow(from, reference) {
      FindAt(to, Find(from, reference.value).value);
    } else if NamesRow(to, reference) {
      var j := Find(to, reference.value).value;
      assert from[j] in from;
    }
  }

  ghost predicate NoneConfusable(from: seq<string>, to: seq<string>, w: Workflow) {
    forall a {:trigger Names(w, a)} :: Names(w, a) ==> !Confusable(from, to, a)
  }

  lemma NodesRestored(from: seq<string>, to: seq<string>, nodes: seq<Node>)
    requires |from| == |to| && Distinct(from) && Distinct(to)
    ensures RelabelNodes(to, from, RelabelNodes(from, to, nodes)) == nodes <==>
            forall i :: 0 <= i < |nodes| ==> !Confusable(from, to, nodes[i].id)
  {
    var back := RelabelNodes(to, from, RelabelNodes(from, to, nodes));
    forall i | 0 <= i < |nodes| ensures back[i] == nodes[i] <==> !Confusable(from, to, nodes[i].id) {
      ReferenceRestored(from, to, nodes[i].id);
    }
  }

  lemma EdgesRestored(from: seq<string>, to: seq<string>, edges: seq<Edge>)
    requires |from| == |to| && Distinct(from) && Distinct(to)
    ensures RelabelEdges(to, from, RelabelEdges(from, to, edges)) == edges <==>
            forall i :: 0 <= i < |edges| ==>
              !Confusable(from, to, edges[i].source) && !Confusable(from, to, edges[i].target)
  {
    var back := RelabelEdges(to, from, RelabelEdges(from, to, edges));
    forall i | 0 <= i < |edges|
      ensures back[i] == edges[i] <==>
              !Confusable(from, to, edges[i].source) && !Confusable(from, to, edges[i].target)
    {
      ReferenceRestored(from, to, edges[i].source);
      ReferenceRestored(from, to, edges[i].target);
    }
  }

  lemma WorkflowRestored(from: seq<string>, to: seq<string>, w: Workflow)
    requires |from| == |to| && Distinct(from) && Distinct(to)
    ensures RelabelWorkflow(to, from, RelabelWorkflow(from, to, w)) == w <==> NoneConfusable(from, to, w)
  {
    ReferenceRestored(from, to, w.entrypoint);
    assert Names(w, w.entrypoint);
    if w.object_.Some? {
      NodesRestored(from, to, w.object_.value.nodes);
      EdgesRestored(from, to, w.object_.value.edges);
      GraphNames(w, w.object_.value, from, to);
    }
  }

  lemma GraphNames(w: Workflow, g: Graph, from: seq<string>, to: seq<string>)
    requires w.object_ == Some(g)
    ensures NoneConfusable(from, to, w) ==> forall i :: 0 <= i < |g.nodes| ==> !Confusable(from, to, g.nodes[i].id)
    ensures NoneConfusable(from, to, w) ==> forall i :: 0 <= i < |g.edges| ==>
              !Confusable(from, to, g.edges[i].source) && !Confusable(from, to, g.edges[i].target)
  {
    assert forall i :: 0 <= i < |g.nodes| ==> Names(w, g.nodes[i].id);
    assert forall i :: 0 <= i < |g.edges| ==> Names(w, g.edges[i].source);
    assert forall i :: 0 <= i < |g.edges| ==> Names(w, g.edges[i].target);
  }

  ghost predicate NoneConfusableIn(from: seq<string>, to: seq<string>, workflows: seq<Workflow>) {
    forall i :: 0 <= i < |workflows| ==> NoneConfusable(from, to, workflows[i])
  }

  lemma WorkflowsRestored(from: seq<string>, to: seq<string>, workflows: seq<Workflow>)
    requires |from| == |to| && Distinct(from) && Distinct(to)
    ensures RelabelWorkflows(to, from, RelabelWorkflows(from, to, workflows)) == workflows <==>
            NoneConfusableIn(from, to, workflows)
  {
    var back := RelabelWorkflows(to, from, RelabelWorkflows(from, to, workflows));
    forall i | 0 <= i < |workflows|
      ensures back[i] == workflows[i] <==> NoneConfusable(from, to, workflows[i])
    {
      WorkflowRestored(from, to, workflows[i]);
    }
  }

  // ---------------------------------------------------------------- the database

  /** One of the tables that nothing refers to, with the prefix of its identifiers. */
  datatype Table = Table(prefix: string, rows: seq<Row>)

  /** `SIMPLE_TABLES`, in order: `secret`, `organization_secret`, `workflow_definition` and `schedule`. */
  function SimpleTables(secrets: seq<Row>, organizationSecrets: seq<Row>, definitions: seq<Row>, schedules: seq<Row>)
    : seq<Table>
  {
    [Table(SECRET, secrets), Table(SECRET, organizationSecrets), Table(DEFINITION, definitions), Table(SCHEDULE, schedules)]
  }

  datatype Db = Db(
    simple: seq<Table>,
    webhooks: seq<Row>,
    apiKeys: seq<ApiKey>,
    actions: seq<Row>,
    workflows: seq<Workflow>)

  ghost predicate KeysValid(keys: seq<ApiKey>, ids: seq<string>) {
    forall i :: 0 <= i < |keys| ==> NamesRow(ids, keys[i].webhook)
  }

  ghost predicate KeysUnique(keys: seq<ApiKey>) {
    forall i, j :: 0 <= i < j < |keys| ==> keys[i].webhook != keys[j].webhook
  }

  ghost predicate TablesKeyed(tables: seq<Table>) {
    forall i :: 0 <= i < |tables| ==> Distinct(Ids(tables[i].rows))
  }

  /** The unique indexes, and the unique foreign key from `webhook_api_key` to `webhook`. */
  ghost predicate Constrained(db: Db) {
    && TablesKeyed(db.simple)
    && Distinct(Ids(db.webhooks)) && Distinct(Ids(db.actions))
    && KeysValid(db.apiKeys, Ids(db.webhooks)) && KeysUnique(db.apiKeys)
  }

  ghost predicate TablesMigratable(tables: seq<Table>) {
    forall i :: 0 <= i < |tables| ==> Migratable(Ids(tables[i].rows), |tables[i].prefix|)
  }

  ghost predicate CanMigrate(db: Db) {
    && TablesMigratable(db.simple)
    && Migratable(Ids(db.webhooks), |WEBHOOK|) && Migratable(Ids(db.actions), |ACTION|)
  }

  function Texts(ids: seq<string>): seq<string>
    requires AllUuids(ids)
  {
    seq(|ids|, i requires 0 <= i < |ids| => UuidText(ids[i]))
  }

  function MigratedRows(rows: seq<Row>, n: nat): seq<Row>
    requires AllCast(Ids(rows), n)
  {
    WithIds(rows, Casts(Ids(rows), n))
  }

  function MigratedTables(tables: seq<Table>): seq<Table>
    requires TablesMigratable(tables)
  {
    seq(|tables|, i requires 0 <= i < |tables| =>
      tables[i].(rows := MigratedRows(tables[i].rows, |tables[i].prefix|)))
  }

  function Migrated(db: Db): Db
    requires CanMigrate(db)
  {
    var webhooks, actions := Ids(db.webhooks), Ids(db.actions);
    CastsAreUuids(actions, |ACTION|);
    Db(MigratedTables(db.simple),
       MigratedRows(db.webhooks, |WEBHOOK|),
       Rejoin(db.apiKeys, webhooks, Casts(webhooks, |WEBHOOK|)),
       MigratedRows(db.actions, |ACTION|),
       RelabelWorkflows(actions, Texts(Casts(actions, |ACTION|)), db.workflows))
  }

  ghost predicate TablesHoldUuids(tables: seq<Table>) {
    forall i :: 0 <= i < |tables| ==> AllUuids(Ids(tables[i].rows))
  }

  ghost predicate HoldsUuids(db: Db) {
    TablesHoldUuids(db.simple) && AllUuids(Ids(db.webhooks)) && AllUuids(Ids(db.actions))
  }

  function RevertedRows(prefix: string, rows: seq<Row>): seq<Row>
    requires AllUuids(Ids(rows))
  {
    WithIds(rows, Prefixes(prefix, Ids(rows)))
  }

  function RevertedTables(tables: seq<Table>): seq<Table>
    requires TablesHoldUuids(tables)
  {
    seq(|tables|, i requires 0 <= i < |tables| =>
      tables[i].(rows := RevertedRows(tables[i].prefix, tables[i].rows)))
  }

  function Reverted(db: Db): Db
    requires HoldsUuids(db)
  {
    var webhooks, actions := Ids(db.webhooks), Ids(db.actions);
    Db(RevertedTables(db.simple),
       RevertedRows(WEBHOOK, db.webhooks),
       Rejoin(db.apiKeys, webhooks, Prefixes(WEBHOOK, webhooks)),
       RevertedRows(ACTION, db.actions),
       RelabelWorkflows(Texts(actions), Prefixes(ACTION, actions), db.workflows))
  }

  // ---------------------------------------------------------------- what the migration keeps

  lemma IdsOfRows(rows: seq<Row>, ids: seq<string>)
    requires |ids| == |rows|
    ensures Ids(WithIds(rows, ids)) == ids
    ensures WithIds(WithIds(rows, ids), Ids(rows)) == rows
    ensures WithIds(rows, ids) == rows <==> ids == Ids(rows)
  {
    if WithIds(rows, ids) == rows {
      assert forall i :: 0 <= i < |rows| ==> ids[i] == WithIds(rows, ids)[i].id;
      assert ids == Ids(rows);
    }
  }

  lemma TextsDistinct(ids: seq<string>)
    requires AllUuids(ids) && Distinct(ids)
    ensures Distinct(Texts(ids))
  {
    forall i, j | 0 <= i < j < |ids| ensures Texts(ids)[i] != Texts(ids)[j] {
      UuidTextInjective(ids[i], ids[j]);
    }
  }

  /** A key that pointed at a webhook points at the same row under its new identifier. */
  lemma KeysFollow(keys: seq<ApiKey>, from: seq<string>, to: seq<string>)
    requires |from| == |to| && Distinct(from) && Distinct(to)
    requires KeysValid(keys, from) && KeysUnique(keys)
    ensures KeysValid(Rejoin(keys, from, to), to) && KeysUnique(Rejoin(keys, from, to))
    ensures forall i, j :: 0 <= i < |keys| && 0 <= j < |from| ==>
              (Rejoin(keys, from, to)[i].webhook == Some(to[j]) <==> keys[i].webhook == Some(from[j]))
    ensures Rejoin(Rejoin(keys, from, to), to, from) == keys
  {
    var joined := Rejoin(keys, from, to);
    forall i | 0 <= i < |keys|
      ensures NamesRow(to, joined[i].webhook)
      ensures Relabel(to, from, joined[i].webhook) == keys[i].webhook
    {
      assert NamesRow(from, keys[i].webhook);
      ReferenceRestored(from, to, keys[i].webhook);
    }
    forall i, j | 0 <= i < |keys| && 0 <= j < |from|
      ensures joined[i].webhook == Some(to[j]) <==> keys[i].webhook == Some(from[j])
    {
      FindAt(from, j);
      FindAt(to, j);
    }
    forall i, j | 0 <= i < j < |keys| ensures joined[i].webhook != joined[j].webhook {
      assert keys[i].webhook != keys[j].webhook;
    }
  }

  lemma TablesConstrained(tables: seq<Table>)
    requires TablesMigratable(tables)
    ensures TablesKeyed(MigratedTables(tables)) && TablesHoldUuids(MigratedTables(tables))
  {
    forall i | 0 <= i < |tables|
      ensures Ids(MigratedTables(tables)[i].rows) == Casts(Ids(tables[i].rows), |tables[i].prefix|)
      ensures AllUuids(Ids(MigratedTables(tables)[i].rows))
    {
      IdsOfRows(tables[i].rows, Casts(Ids(tables[i].rows), |tables[i].prefix|));
      CastsAreUuids(Ids(tables[i].rows), |tables[i].prefix|);
    }
  }

  /** A migrated database meets the recreated indexes and foreign key, and holds UUIDs only. */
  lemma MigratedIsConstrained(db: Db)
    requires Constrained(db) && CanMigrate(db)
    ensures Constrained(Migrated(db)) && HoldsUuids(Migrated(db))
    ensures Ids(Migrated(db).webhooks) == Casts(Ids(db.webhooks), |WEBHOOK|)
    ensures Ids(Migrated(db).actions) == Casts(Ids(db.actions), |ACTION|)
  {
    TablesConstrained(db.simple);
    IdsOfRows(db.webhooks, Casts(Ids(db.webhooks), |WEBHOOK|));
    IdsOfRows(db.actions, Casts(Ids(db.actions), |ACTION|));
    CastsAreUuids(Ids(db.webhooks), |WEBHOOK|);
    CastsAreUuids(Ids(db.actions), |ACTION|);
    KeysFollow(db.apiKeys, Ids(db.webhooks), Casts(Ids(db.webhooks), |WEBHOOK|));
  }

  // ---------------------------------------------------------------- upgrade, then downgrade

  ghost predicate TablesCanonical(tables: seq<Table>) {
    forall i :: 0 <= i < |tables| ==> AllCanonical(tables[i].prefix, Ids(tables[i].rows))
  }

  lemma RowsRestored(prefix: string, rows: seq<Row>)
    requires AllCast(Ids(rows), |prefix|)
    ensures AllUuids(Casts(Ids(rows), |prefix|)) && AllUuids(Ids(MigratedRows(rows, |prefix|)))
    ensures Ids(RevertedRows(prefix, MigratedRows(rows, |prefix|))) == Prefixes(prefix, Casts(Ids(rows), |prefix|))
    ensures RevertedRows(prefix, MigratedRows(rows, |prefix|)) == rows <==> AllCanonical(prefix, Ids(rows))
  {
    var casts := Casts(Ids(rows), |prefix|);
    ColumnRestored(prefix, Ids(rows));
    IdsOfRows(rows, casts);
    IdsOfRows(WithIds(rows, casts), Prefixes(prefix, casts));
    assert WithIds(WithIds(rows, casts), Prefixes(prefix, casts)) == WithIds(rows, Prefixes(prefix, casts));
    IdsOfRows(rows, Prefixes(prefix, casts));
  }

  lemma TablesRestored(tables: seq<Table>)
    requires TablesMigratable(tables)
    ensures TablesHoldUuids(MigratedTables(tables))
    ensures RevertedTables(MigratedTables(tables)) == tables <==> TablesCanonical(tables)
  {
    TablesConstrained(tables);
    var back := RevertedTables(MigratedTables(tables));
    forall i | 0 <= i < |tables|
      ensures back[i] == tables[i] <==> AllCanonical(tables[i].prefix, Ids(tables[i].rows))
    {
      RowsRestored(tables[i].prefix, tables[i].rows);
    }
  }

  /** The condition under which the downgrade restores the database that was upgraded. */
  ghost predicate Restorable(db: Db)
    requires CanMigrate(db)
  {
    CastsAreUuids(Ids(db.actions), |ACTION|);
    && TablesCanonical(db.simple)
    && AllCanonical(WEBHOOK, Ids(db.webhooks)) && AllCanonical(ACTION, Ids(db.actions))
    && NoneConfusableIn(Ids(db.actions), Texts(Casts(Ids(db.actions), |ACTION|)), db.workflows)
  }

  /**
   * `upgrade` then `downgrade` is the identity exactly when every identifier was the prefix and 32
   * lower-case hex digits, and no reference that named no action equals the new text of some action.
   */
  lemma UpgradeDowngrade(db: Db)
    requires Constrained(db) && CanMigrate(db)
    ensures HoldsUuids(Migrated(db))
    ensures Reverted(Migrated(db)) == db <==> Restorable(db)
  {
    var actions := Ids(db.actions);
    var casts := Casts(actions, |ACTION|);
    MigratedIsConstrained(db);
    var back := Reverted(Migrated(db));
    TablesRestored(db.simple);
    RowsRestored(WEBHOOK, db.webhooks);
    RowsRestored(ACTION, db.actions);
    if AllCanonical(WEBHOOK, Ids(db.webhooks)) {
      ColumnRestored(WEBHOOK, Ids(db.webhooks));
      KeysFollow(db.apiKeys, Ids(db.webhooks), Casts(Ids(db.webhooks), |WEBHOOK|));
      assert back.apiKeys == db.apiKeys;
    }
    if AllCanonical(ACTION, actions) {
      ColumnRestored(ACTION, actions);
      TextsDistinct(casts);
      WorkflowsRestored(actions, Texts(casts), db.workflows);
    }
  }

  // ---------------------------------------------------------------- downgrade, then upgrade

  lemma RowsRoundTrip(prefix: string, rows: seq<Row>)
    requires AllUuids(Ids(rows)) && Distinct(Ids(rows))
    ensures Ids(RevertedRows(prefix, rows)) == Prefixes(prefix, Ids(rows))
    ensures Distinct(Ids(RevertedRows(prefix, rows)))
    ensures Migratable(Ids(RevertedRows(prefix, rows)), |prefix|)
    ensures MigratedRows(RevertedRows(prefix, rows), |prefix|) == rows
  {
    ColumnRoundTrip(prefix, Ids(rows));
    IdsOfRows(rows, Prefixes(prefix, Ids(rows)));
  }

  lemma TablesRoundTrip(tables: seq<Table>)
    requires TablesHoldUuids(tables) && TablesKeyed(tables)
    ensures TablesMigratable(RevertedTables(tables))
    ensures TablesKeyed(RevertedTables(tables))
    ensures MigratedTables(RevertedTables(tables)) == tables
  {
    var down := RevertedTables(tables);
    forall i | 0 <= i < |tables|
      ensures Migratable(Ids(down[i].rows), |down[i].prefix|)
      ensures Distinct(Ids(down[i].rows))
      ensures MigratedRows(down[i].rows, |down[i].prefix|) == tables[i].rows
    {
      RowsRoundTrip(tables[i].prefix, tables[i].rows);
    }
  }

  /**
   * A downgraded database can always be upgraded again. That returns the same database exactly when
   * no reference that names no action equals the prefixed identifier of some action.
   */
  lemma DowngradeUpgrade(db: Db)
    requires Constrained(db) && HoldsUuids(db)
    ensures Constrained(Reverted(db)) && CanMigrate(Reverted(db))
    ensures Migrated(Reverted(db)) == db <==>
            NoneConfusableIn(Texts(Ids(db.actions)), Prefixes(ACTION, Ids(db.actions)), db.workflows)
  {
    var webhooks, actions := Ids(db.webhooks), Ids(db.actions);
    TablesRoundTrip(db.simple);
    RowsRoundTrip(WEBHOOK, db.webhooks);
    RowsRoundTrip(ACTION, db.actions);
    ColumnRoundTrip(WEBHOOK, webhooks);
    ColumnRoundTrip(ACTION, actions);
    KeysFollow(db.apiKeys, webhooks, Prefixes(WEBHOOK, webhooks));
    TextsDistinct(actions);
    WorkflowsRestored(Texts(actions), Prefixes(ACTION, actions), db.workflows);
  }
}
