/** The ordered in-place table updates of migration `b23b877ee161`, in one transaction. */
module PrefixedTables {
  import opened PrefixedIds
  import opened Wrappers

  lemma CastsSnoc(whole: seq<string>, front: seq<string>, id: string, n: nat)
    requires whole == front + [id] && AllCast(front, n) && StripCast(id, n).Some?
    ensures AllCast(whole, n) && Casts(whole, n) == Casts(front, n) + [StripCast(id, n).value]
  {}

  /** `SET id_new = CAST(substring(id from n + 1) AS uuid)`, or nothing where a cast fails. */
  method CastColumn(ids: seq<string>, n: nat) returns (column: Option<seq<string>>)
    ensures column.Some? <==> AllCast(ids, n)
    ensures column.Some? ==> column.value == Casts(ids, n)
  {
    var filled := [];
    for i := 0 to |ids|
      invariant AllCast(ids[..i], n) && filled == Casts(ids[..i], n)
    {
      var u := StripCast(ids[i], n);
      if u == None {
        assert !AllCast(ids, n);
        return None;
      }
      CastsSnoc(ids[..i + 1], ids[..i], ids[i], n);
      filled := filled + [u.value];
    }
    assert ids[..|ids|] == ids;
    return Some(filled);
  }

  /** Creating a unique index: whether it succeeds. */
  method CreateUniqueIndex(ids: seq<string>) returns (ok: bool)
    ensures ok <==> Distinct(ids)
  {
    var seen: set<string> := {};
    for i := 0 to |ids|
      invariant Distinct(ids[..i])
      invariant forall id :: id in seen <==> id in ids[..i]
    {
      if ids[i] in seen {
        var j :| 0 <= j < i && ids[..i][j] == ids[i];
        assert ids[j] == ids[i];
        return false;
      }
      assert forall j :: 0 <= j < i ==> ids[..i][j] == ids[j] && ids[j] in seen;
      assert ids[..i + 1] == ids[..i] + [ids[i]];
      seen := seen + {ids[i]};
    }
    assert ids[..|ids|] == ids;
    return true;
  }

  /** A new column with an index of its own takes the place of `id`. */
  method ReplaceIds(rows: seq<Row>, n: nat) returns (migrated: Option<seq<Row>>)
    ensures migrated.Some? <==> Migratable(Ids(rows), n)
    ensures migrated.Some? ==> migrated.value == MigratedRows(rows, n)
  {
    var idNew := CastColumn(Ids(rows), n);
    if idNew == None {
      return None;
    }
    var unique := CreateUniqueIndex(idNew.value);
    return if unique then Some(WithIds(rows, idNew.value)) else None;
  }

  function SetNodes(from: seq<string>, to: seq<string>, w: Workflow): Workflow
    requires |from| == |to|
  {
    if w.object_ == None then w
    else w.(object_ := Some(w.object_.value.(nodes := RelabelNodes(from, to, w.object_.value.nodes))))
  }

  function SetEdges(from: seq<string>, to: seq<string>, w: Workflow): Workflow
    requires |from| == |to|
  {
    if w.object_ == None then w
    else w.(object_ := Some(w.object_.value.(edges := RelabelEdges(from, to, w.object_.value.edges))))
  }

  function SetEntrypoint(from: seq<string>, to: seq<string>, w: Workflow): Workflow
    requires |from| == |to|
  {
    w.(entrypoint := Relabel(from, to, w.entrypoint))
  }

  class Tables {
    var simple: seq<Table>
    var webhooks: seq<Row>
    var apiKeys: seq<ApiKey>
    var actions: seq<Row>
    var workflows: seq<Workflow>

    constructor (secrets: seq<Row>, organizationSecrets: seq<Row>, definitions: seq<Row>, schedules: seq<Row>,
                 webhooks: seq<Row>, apiKeys: seq<ApiKey>, actions: seq<Row>, workflows: seq<Workflow>)
      ensures Contents() ==
              Db(SimpleTables(secrets, organizationSecrets, definitions, schedules), webhooks, apiKeys, actions, workflows)
    {
      simple := SimpleTables(secrets, organizationSecrets, definitions, schedules);
      this.webhooks, this.apiKeys := webhooks, apiKeys;
      this.actions, this.workflows := actions, workflows;
    }

    ghost function Contents(): Db
      reads this
    {
      Db(simple, webhooks, apiKeys, actions, workflows)
    }

    /** The loop over the tables that nothing refers to. */
    method MigrateSimple() returns (ok: bool)
      modifies this`simple
      ensures ok <==> TablesMigratable(old(simple))
      ensures ok ==> simple == MigratedTables(old(simple))
    {
      ghost var before := simple;
      for i := 0 to |simple|
        invariant |simple| == |before|
        invariant forall j :: i <= j < |before| ==> simple[j] == before[j]
        invariant forall j :: 0 <= j < i ==> Migratable(Ids(before[j].rows), |before[j].prefix|)
        invariant forall j :: 0 <= j < i ==>
                    simple[j] == before[j].(rows := MigratedRows(before[j].rows, |before[j].prefix|))
      {
        var rows := ReplaceIds(simple[i].rows, |simple[i].prefix|);
        if rows == None {
          return false;
        }
        simple := simple[i := simple[i].(rows := rows.value)];
      }
      assert simple == MigratedTables(before);
      return true;
    }

    /** Three statements: the nodes, the edges, the entry point. */
    method RelabelReferences(from: seq<string>, to: seq<string>)
      requires |from| == |to|
      modifies this`workflows
      ensures workflows == RelabelWorkflows(from, to, old(workflows))
    {
      workflows := seq(|workflows|, i requires 0 <= i < |workflows| reads this => SetNodes(from, to, workflows[i]));
      workflows := seq(|workflows|, i requires 0 <= i < |workflows| reads this => SetEdges(from, to, workflows[i]));
      workflows := seq(|workflows|, i requires 0 <= i < |workflows| reads this => SetEntrypoint(from, to, workflows[i]));
    }

    /** `webhook` and `webhook_api_key`; the key column is filled by a join before `webhook.id` is replaced. */
    method MigrateWebhooks() returns (ok: bool)
      modifies this`webhooks, this`apiKeys
      ensures ok <==> Migratable(Ids(old(webhooks)), |WEBHOOK|)
      ensures ok ==> webhooks == MigratedRows(old(webhooks), |WEBHOOK|)
      ensures ok ==> apiKeys == Rejoin(old(apiKeys), Ids(old(webhooks)), Casts(Ids(old(webhooks)), |WEBHOOK|))
    {
      var from := Ids(webhooks);
      var idNew := CastColumn(from, |WEBHOOK|);
      if idNew == None {
        return false;
      }
      apiKeys := Rejoin(apiKeys, from, idNew.value);
      webhooks := WithIds(webhooks, idNew.value);
      ok := CreateUniqueIndex(idNew.value);
    }

    /** `action` and the references to it; the workflows are rewritten before `action.id` is replaced. */
    method MigrateActions() returns (ok: bool)
      modifies this`actions, this`workflows
      ensures ok <==> Migratable(Ids(old(actions)), |ACTION|)
      ensures ok ==> actions == MigratedRows(old(actions), |ACTION|)
      ensures ok ==> AllUuids(Casts(Ids(old(actions)), |ACTION|))
      ensures ok ==> workflows ==
                     RelabelWorkflows(Ids(old(actions)), Texts(Casts(Ids(old(actions)), |ACTION|)), old(workflows))
    {
      var from := Ids(actions);
      var idNew := CastColumn(from, |ACTION|);
      if idNew == None {
        return false;
      }
      CastsAreUuids(from, |ACTION|);
      RelabelReferences(from, Texts(idNew.value));
      actions := WithIds(actions, idNew.value);
      ok := CreateUniqueIndex(idNew.value);
    }

    /** `upgrade`; a failing statement rolls the transaction back. */
    method Upgrade() returns (ok: bool)
      requires Constrained(Contents())
      modifies this
      ensures ok <==> CanMigrate(old(Contents()))
      ensures ok ==> Contents() == Migrated(old(Contents())) && Constrained(Contents()) && HoldsUuids(Contents())
      ensures !ok ==> Contents() == old(Contents())
    {
      var simple0, webhooks0, apiKeys0, actions0, workflows0 := simple, webhooks, apiKeys, actions, workflows;
      ok := MigrateSimple();
      if ok {
        ok := MigrateWebhooks();
      }
      if ok {
        ok := MigrateActions();
      }
      if ok {
        MigratedIsConstrained(old(Contents()));
      } else {
        simple, webhooks, apiKeys, actions, workflows := simple0, webhooks0, apiKeys0, actions0, workflows0;
      }
    }

    /** `downgrade`: actions first, the simple tables last. */
    method Downgrade()
      requires HoldsUuids(Contents())
      modifies this
      ensures Contents() == Reverted(old(Contents()))
    {
      var actionOld := Prefixes(ACTION, Ids(actions));
      RelabelReferences(Texts(Ids(actions)), actionOld);
      actions := WithIds(actions, actionOld);

      var webhookOld := Prefixes(WEBHOOK, Ids(webhooks));
      apiKeys := Rejoin(apiKeys, Ids(webhooks), webhookOld);
      webhooks := WithIds(webhooks, webhookOld);

      ghost var before := simple;
      for i := 0 to |simple|
        invariant |simple| == |before| && TablesHoldUuids(before)
        invariant forall j :: i <= j < |before| ==> simple[j] == before[j]
        invariant forall j :: 0 <= j < i ==> simple[j] == before[j].(rows := RevertedRows(before[j].prefix, before[j].rows))
        invariant webhooks == RevertedRows(WEBHOOK, old(webhooks)) && actions == RevertedRows(ACTION, old(actions))
        invariant apiKeys == Reverted(old(Contents())).apiKeys && workflows == Reverted(old(Contents())).workflows
      {
        var t := simple[i];
        simple := simple[i := t.(rows := WithIds(t.rows, Prefixes(t.prefix, Ids(t.rows))))];
      }
      assert simple == RevertedTables(before);
    }
  }
}
