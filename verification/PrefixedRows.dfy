/** What migration `b23b877ee161` makes of every row and reference, table by table and prefix by prefix. */
module PrefixedRows {
  import opened PrefixedIds
  import opened Uuids
  import opened WorkflowGraphs
  import opened Wrappers

  // ---------------------------------------------------------------- the tables, by name

  datatype Rows = Rows(
    secrets: seq<Row>,
    organizationSecrets: seq<Row>,
    definitions: seq<Row>,
    schedules: seq<Row>,
    webhooks: seq<Row>,
    actions: seq<Row>)

  ghost function Stored(r: Rows, keys: seq<ApiKey>, workflows: seq<Workflow>): Db {
    Db(SimpleTables(r.secrets, r.organizationSecrets, r.definitions, r.schedules), r.webhooks, keys, r.actions,
       workflows)
  }

  // ---------------------------------------------------------------- when the upgrade succeeds

  /** Every id reads as a UUID behind its first n characters, and no two as the same. */
  ghost predicate CastsApart(rows: seq<Row>, n: nat) {
    && (forall i :: 0 <= i < |rows| ==> |rows[i].id| >= n && CastUuid(rows[i].id[n..]).Some?)
    && (forall i, j :: 0 <= i < j < |rows| ==> CastUuid(rows[i].id[n..]) != CastUuid(rows[j].id[n..]))
  }

  lemma ShortIdFails(id: string, n: nat)
    ensures StripCast(id, n) == if |id| >= n then CastUuid(id[n..]) else None
  {
    if |id| == n {
      assert id[n..] == "";
    }
  }

  lemma MigratableExactly(rows: seq<Row>, n: nat)
    ensures Migratable(Ids(rows), n) <==> CastsApart(rows, n)
  {
    forall i | 0 <= i < |rows|
      ensures StripCast(Ids(rows)[i], n) == if |rows[i].id| >= n then CastUuid(rows[i].id[n..]) else None
    {
      ShortIdFails(rows[i].id, n);
    }
    if AllCast(Ids(rows), n) {
      assert forall i :: 0 <= i < |rows| ==> Casts(Ids(rows), n)[i] == CastUuid(rows[i].id[n..]).value;
    }
  }

  ghost predicate AllCastApart(r: Rows) {
    && CastsApart(r.secrets, 7) && CastsApart(r.organizationSecrets, 7) && CastsApart(r.definitions, 8)
    && CastsApart(r.schedules, 4) && CastsApart(r.webhooks, 3) && CastsApart(r.actions, 4)
  }

  lemma FourTables(tables: seq<Table>, a: Table, b: Table, c: Table, d: Table)
    requires tables == [a, b, c, d]
    ensures TablesMigratable(tables) <==>
            && Migratable(Ids(a.rows), |a.prefix|) && Migratable(Ids(b.rows), |b.prefix|)
            && Migratable(Ids(c.rows), |c.prefix|) && Migratable(Ids(d.rows), |d.prefix|)
  {
    assert tables[0] == a && tables[1] == b && tables[2] == c && tables[3] == d;
  }

  /**
   * The upgrade succeeds exactly if in every table the ids read as distinct UUIDs behind as many characters
   * as `secret-`, `wf-defn-`, `sch-`, `wh-` and `act-` have.
   */
  lemma UpgradeSucceeds(r: Rows, keys: seq<ApiKey>, workflows: seq<Workflow>)
    ensures CanMigrate(Stored(r, keys, workflows)) <==> AllCastApart(r)
  {
    FourTables(SimpleTables(r.secrets, r.organizationSecrets, r.definitions, r.schedules),
               Table("secret-", r.secrets), Table("secret-", r.organizationSecrets),
               Table("wf-defn-", r.definitions), Table("sch-", r.schedules));
    MigratableExactly(r.secrets, 7);
    MigratableExactly(r.organizationSecrets, 7);
    MigratableExactly(r.definitions, 8);
    MigratableExactly(r.schedules, 4);
    MigratableExactly(r.webhooks, 3);
    MigratableExactly(r.actions, 4);
  }

  // ---------------------------------------------------------------- rows

  /** Each row has for its id the UUID that reads behind the first n characters, and its data as before. */
  ghost predicate HaveCasts(rows: seq<Row>, n: nat, after: seq<Row>) {
    && |after| == |rows|
    && forall i :: 0 <= i < |rows| ==>
         |rows[i].id| >= n && CastUuid(rows[i].id[n..]) == Some(after[i].id) && after[i].data == rows[i].data
  }

  /** Each row has for its id the prefix and its 32 digits, and its data as before. */
  ghost predicate HavePrefix(rows: seq<Row>, prefix: string, after: seq<Row>) {
    && |after| == |rows|
    && forall i :: 0 <= i < |rows| ==> after[i] == Row(prefix + rows[i].id, rows[i].data)
  }

  lemma MigratedRowsExactly(rows: seq<Row>, n: nat)
    requires Migratable(Ids(rows), n)
    ensures HaveCasts(rows, n, MigratedRows(rows, n))
  {
    forall i | 0 <= i < |rows|
      ensures |rows[i].id| >= n && CastUuid(rows[i].id[n..]) == Some(MigratedRows(rows, n)[i].id)
    {
      assert StripCast(Ids(rows)[i], n).Some?;
      ShortIdFails(rows[i].id, n);
    }
  }

  lemma RevertedRowsExactly(rows: seq<Row>, prefix: string)
    requires AllUuids(Ids(rows))
    ensures HavePrefix(rows, prefix, RevertedRows(prefix, rows))
  {
    forall i | 0 <= i < |rows| ensures RevertedRows(prefix, rows)[i] == Row(prefix + rows[i].id, rows[i].data) {
      assert IsUuid(Ids(rows)[i]);
      StripPrefixed(prefix, rows[i].id);
    }
  }

  // ---------------------------------------------------------------- references

  /** A reference to row i of the old names becomes one to row i of the new, and any other stays. */
  ghost predicate Becomes(from: seq<string>, to: seq<string>, before: Option<string>, after: Option<string>)
    requires |from| == |to|
  {
    && (forall i :: 0 <= i < |from| && before == Some(from[i]) ==> after == Some(to[i]))
    && ((forall i :: 0 <= i < |from| ==> before != Some(from[i])) ==> after == before)
  }

  lemma RelabelExactly(from: seq<string>, to: seq<string>, reference: Option<string>)
    requires |from| == |to| && Distinct(from)
    ensures Becomes(from, to, reference, Relabel(from, to, reference))
  {
    forall i | 0 <= i < |from| && reference == Some(from[i]) ensures Relabel(from, to, reference) == Some(to[i]) {
      FindAt(from, i);
    }
  }

  ghost predicate GraphBecomes(from: seq<string>, to: seq<string>, g: Graph, r: Graph)
    requires |from| == |to|
  {
    && |r.nodes| == |g.nodes| && |r.edges| == |g.edges| && r.viewport == g.viewport
    && (forall i :: 0 <= i < |g.nodes| ==>
          r.nodes[i] == g.nodes[i].(id := r.nodes[i].id) && Becomes(from, to, g.nodes[i].id, r.nodes[i].id))
    && (forall i :: 0 <= i < |g.edges| ==>
          && r.edges[i] == g.edges[i].(source := r.edges[i].source, target := r.edges[i].target)
          && Becomes(from, to, g.edges[i].source, r.edges[i].source)
          && Becomes(from, to, g.edges[i].target, r.edges[i].target))
  }

  ghost predicate WorkflowsBecome(from: seq<string>, to: seq<string>, workflows: seq<Workflow>, r: seq<Workflow>)
    requires |from| == |to|
  {
    && |r| == |workflows|
    && forall i :: 0 <= i < |workflows| ==>
         && r[i].data == workflows[i].data && Becomes(from, to, workflows[i].entrypoint, r[i].entrypoint)
         && (workflows[i].object_ == None ==> r[i].object_ == None)
         && (workflows[i].object_.Some? ==>
               r[i].object_.Some? && GraphBecomes(from, to, workflows[i].object_.value, r[i].object_.value))
  }

  lemma RelabelGraphExactly(from: seq<string>, to: seq<string>, g: Graph)
    requires |from| == |to| && Distinct(from)
    ensures GraphBecomes(from, to, g, RelabelGraph(from, to, g))
  {
    var r := RelabelGraph(from, to, g);
    forall i | 0 <= i < |g.nodes| ensures Becomes(from, to, g.nodes[i].id, r.nodes[i].id) {
      RelabelExactly(from, to, g.nodes[i].id);
    }
    forall i | 0 <= i < |g.edges|
      ensures Becomes(from, to, g.edges[i].source, r.edges[i].source)
      ensures Becomes(from, to, g.edges[i].target, r.edges[i].target)
    {
      RelabelExactly(from, to, g.edges[i].source);
      RelabelExactly(from, to, g.edges[i].target);
    }
  }

  lemma RelabelWorkflowsExactly(from: seq<string>, to: seq<string>, workflows: seq<Workflow>)
    requires |from| == |to| && Distinct(from)
    ensures WorkflowsBecome(from, to, workflows, RelabelWorkflows(from, to, workflows))
  {
    var r := RelabelWorkflows(from, to, workflows);
    forall i | 0 <= i < |workflows|
      ensures Becomes(from, to, workflows[i].entrypoint, r[i].entrypoint)
      ensures workflows[i].object_.Some? ==>
                r[i].object_.Some? && GraphBecomes(from, to, workflows[i].object_.value, r[i].object_.value)
    {
      RelabelExactly(from, to, workflows[i].entrypoint);
      if workflows[i].object_.Some? {
        RelabelGraphExactly(from, to, workflows[i].object_.value);
      }
    }
  }

  /** An API key refers to the same webhook row as before, and keeps the rest. */
  ghost predicate KeysStay(before: seq<Row>, after: seq<Row>, keys: seq<ApiKey>, r: seq<ApiKey>)
    requires |after| == |before|
  {
    && |r| == |keys|
    && forall i :: 0 <= i < |keys| ==>
         && r[i].data == keys[i].data
         && (forall j :: 0 <= j < |before| ==>
               (r[i].webhook == Some(after[j].id) <==> keys[i].webhook == Some(before[j].id)))
  }

  lemma RejoinExactly(before: seq<Row>, after: seq<Row>, keys: seq<ApiKey>)
    requires |after| == |before| && Distinct(Ids(before)) && Distinct(Ids(after))
    requires KeysValid(keys, Ids(before)) && KeysUnique(keys)
    ensures KeysStay(before, after, keys, Rejoin(keys, Ids(before), Ids(after)))
  {
    KeysFollow(keys, Ids(before), Ids(after));
    assert forall j :: 0 <= j < |before| ==> Ids(before)[j] == before[j].id && Ids(after)[j] == after[j].id;
  }

  // ---------------------------------------------------------------- the two directions

  ghost predicate AllHaveCasts(r: Rows, after: Rows) {
    && HaveCasts(r.secrets, 7, after.secrets) && HaveCasts(r.organizationSecrets, 7, after.organizationSecrets)
    && HaveCasts(r.definitions, 8, after.definitions) && HaveCasts(r.schedules, 4, after.schedules)
    && HaveCasts(r.webhooks, 3, after.webhooks) && HaveCasts(r.actions, 4, after.actions)
  }

  ghost predicate AllHavePrefix(r: Rows, after: Rows) {
    && HavePrefix(r.secrets, "secret-", after.secrets)
    && HavePrefix(r.organizationSecrets, "secret-", after.organizationSecrets)
    && HavePrefix(r.definitions, "wf-defn-", after.definitions) && HavePrefix(r.schedules, "sch-", after.schedules)
    && HavePrefix(r.webhooks, "wh-", after.webhooks) && HavePrefix(r.actions, "act-", after.actions)
  }

  ghost function Names(rows: seq<Row>): seq<string> {
    seq(|rows|, i requires 0 <= i < |rows| => rows[i].id)
  }

  /** The ids as they stand in graphs once they are UUIDs. */
  ghost function Printed(rows: seq<Row>): seq<string>
    requires forall i :: 0 <= i < |rows| ==> |rows[i].id| == 32
  {
    seq(|rows|, i requires 0 <= i < |rows| => UuidText(rows[i].id))
  }

  /**
   * The upgrade gives every row the UUID behind its prefix and every reference inside a graph, and every entry
   * point, that names an action the action's printed UUID; API keys stay with their webhooks.
   */
  lemma UpgradedExactly(r: Rows, keys: seq<ApiKey>, workflows: seq<Workflow>)
    returns (after: Rows, keys': seq<ApiKey>, workflows': seq<Workflow>)
    requires Constrained(Stored(r, keys, workflows)) && AllCastApart(r)
    ensures CanMigrate(Stored(r, keys, workflows))
    ensures Migrated(Stored(r, keys, workflows)) == Stored(after, keys', workflows')
    ensures AllHaveCasts(r, after) && KeysStay(r.webhooks, after.webhooks, keys, keys')
    ensures forall i :: 0 <= i < |after.actions| ==> |after.actions[i].id| == 32
    ensures WorkflowsBecome(Names(r.actions), Printed(after.actions), workflows, workflows')
  {
    UpgradeSucceeds(r, keys, workflows);
    var db := Stored(r, keys, workflows);
    MigratedIsConstrained(db);
    var m := Migrated(db);
    after := MigratedParts(r);
    keys', workflows' := m.apiKeys, m.workflows;
    assert m.simple == MigratedTables(db.simple);
    assert m.simple == SimpleTables(after.secrets, after.organizationSecrets, after.definitions, after.schedules);
    RejoinExactly(r.webhooks, after.webhooks, keys);
    ActionsPrinted(r.actions, after.actions);
    RelabelWorkflowsExactly(Ids(r.actions), Printed(after.actions), workflows);
  }

  lemma MigratedParts(r: Rows) returns (after: Rows)
    requires AllCastApart(r)
    ensures AllHaveCasts(r, after)
    ensures Migratable(Ids(r.secrets), 7) && after.secrets == MigratedRows(r.secrets, 7)
    ensures Migratable(Ids(r.organizationSecrets), 7)
    ensures after.organizationSecrets == MigratedRows(r.organizationSecrets, 7)
    ensures Migratable(Ids(r.definitions), 8) && after.definitions == MigratedRows(r.definitions, 8)
    ensures Migratable(Ids(r.schedules), 4) && after.schedules == MigratedRows(r.schedules, 4)
    ensures Migratable(Ids(r.webhooks), 3) && after.webhooks == MigratedRows(r.webhooks, 3)
    ensures Migratable(Ids(r.actions), 4) && after.actions == MigratedRows(r.actions, 4)
  {
    MigratableExactly(r.secrets, 7);
    MigratableExactly(r.organizationSecrets, 7);
    MigratableExactly(r.definitions, 8);
    MigratableExactly(r.schedules, 4);
    MigratableExactly(r.webhooks, 3);
    MigratableExactly(r.actions, 4);
    MigratedRowsExactly(r.secrets, 7);
    MigratedRowsExactly(r.organizationSecrets, 7);
    MigratedRowsExactly(r.definitions, 8);
    MigratedRowsExactly(r.schedules, 4);
    MigratedRowsExactly(r.webhooks, 3);
    MigratedRowsExactly(r.actions, 4);
    after := Rows(MigratedRows(r.secrets, 7), MigratedRows(r.organizationSecrets, 7), MigratedRows(r.definitions, 8),
                  MigratedRows(r.schedules, 4), MigratedRows(r.webhooks, 3), MigratedRows(r.actions, 4));
  }

  lemma ActionsPrinted(before: seq<Row>, after: seq<Row>)
    requires Migratable(Ids(before), 4) && after == MigratedRows(before, 4)
    ensures forall i :: 0 <= i < |after| ==> |after[i].id| == 32
    ensures AllUuids(Casts(Ids(before), 4)) && Printed(after) == Texts(Casts(Ids(before), 4))
    ensures Names(before) == Ids(before)
  {
    CastsAreUuids(Ids(before), 4);
    assert forall i :: 0 <= i < |after| ==> after[i].id == Casts(Ids(before), 4)[i] && IsUuid(after[i].id);
  }

  /**
   * The downgrade gives every row its prefix and 32 digits, and every reference that is the printed UUID of an
   * action the action's prefixed id; API keys stay with their webhooks.
   */
  lemma DowngradedExactly(r: Rows, keys: seq<ApiKey>, workflows: seq<Workflow>)
    returns (after: Rows, keys': seq<ApiKey>, workflows': seq<Workflow>)
    requires Constrained(Stored(r, keys, workflows)) && HoldsUuids(Stored(r, keys, workflows))
    ensures Reverted(Stored(r, keys, workflows)) == Stored(after, keys', workflows')
    ensures AllHavePrefix(r, after) && KeysStay(r.webhooks, after.webhooks, keys, keys')
    ensures forall i :: 0 <= i < |r.actions| ==> |r.actions[i].id| == 32
    ensures |after.actions| == |r.actions|
    ensures WorkflowsBecome(Printed(r.actions), Names(after.actions), workflows, workflows')
  {
    var db := Stored(r, keys, workflows);
    var d := Reverted(db);
    after := RevertedParts(r);
    keys', workflows' := d.apiKeys, d.workflows;
    assert d.simple == SimpleTables(after.secrets, after.organizationSecrets, after.definitions, after.schedules);
    assert Distinct(Ids(after.webhooks)) by {
      RowsRoundTrip("wh-", r.webhooks);
    }
    IdsOfRows(r.webhooks, Prefixes("wh-", Ids(r.webhooks)));
    RejoinExactly(r.webhooks, after.webhooks, keys);
    assert forall i :: 0 <= i < |r.actions| ==> IsUuid(Ids(r.actions)[i]);
    IdsOfRows(r.actions, Prefixes("act-", Ids(r.actions)));
    assert Printed(r.actions) == Texts(Ids(r.actions)) && Names(after.actions) == Ids(after.actions);
    TextsDistinct(Ids(r.actions));
    RelabelWorkflowsExactly(Texts(Ids(r.actions)), Prefixes("act-", Ids(r.actions)), workflows);
  }

  lemma TablesOf(r: Rows)
    requires TablesHoldUuids(SimpleTables(r.secrets, r.organizationSecrets, r.definitions, r.schedules))
    ensures AllUuids(Ids(r.secrets)) && AllUuids(Ids(r.organizationSecrets))
    ensures AllUuids(Ids(r.definitions)) && AllUuids(Ids(r.schedules))
  {
    var simple := SimpleTables(r.secrets, r.organizationSecrets, r.definitions, r.schedules);
    assert AllUuids(Ids(simple[0].rows)) && AllUuids(Ids(simple[1].rows));
    assert AllUuids(Ids(simple[2].rows)) && AllUuids(Ids(simple[3].rows));
  }

  lemma RevertedParts(r: Rows) returns (after: Rows)
    requires TablesHoldUuids(SimpleTables(r.secrets, r.organizationSecrets, r.definitions, r.schedules))
    requires AllUuids(Ids(r.webhooks)) && AllUuids(Ids(r.actions))
    ensures AllHavePrefix(r, after)
    ensures AllUuids(Ids(r.secrets)) && after.secrets == RevertedRows("secret-", r.secrets)
    ensures AllUuids(Ids(r.organizationSecrets))
    ensures after.organizationSecrets == RevertedRows("secret-", r.organizationSecrets)
    ensures AllUuids(Ids(r.definitions)) && after.definitions == RevertedRows("wf-defn-", r.definitions)
    ensures AllUuids(Ids(r.schedules)) && after.schedules == RevertedRows("sch-", r.schedules)
    ensures after.webhooks == RevertedRows("wh-", r.webhooks) && after.actions == RevertedRows("act-", r.actions)
  {
    TablesOf(r);
    RevertedRowsExactly(r.secrets, "secret-");
    RevertedRowsExactly(r.organizationSecrets, "secret-");
    RevertedRowsExactly(r.definitions, "wf-defn-");
    RevertedRowsExactly(r.schedules, "sch-");
    RevertedRowsExactly(r.webhooks, "wh-");
    RevertedRowsExactly(r.actions, "act-");
    after := Rows(RevertedRows("secret-", r.secrets), RevertedRows("secret-", r.organizationSecrets),
                  RevertedRows("wf-defn-", r.definitions), RevertedRows("sch-", r.schedules),
                  RevertedRows("wh-", r.webhooks), RevertedRows("act-", r.actions));
  }
}
