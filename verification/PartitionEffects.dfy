/** The columns that migration `b4d8b2f2c9dd` gives a workspace table, and when its rollback succeeds. */
module PartitionEffects {
  import opened Base62
  import opened CaseFieldPartition
  import opened Wrappers

  // ---------------------------------------------------------------- the upgrade

  /** A workspace's schema is named by a prefix and 22 digits that stand for its id. */
  lemma SchemaNamesWorkspace(workspace: nat)
    requires workspace < 0x1_0000_0000_0000_0000_0000_0000_0000_0000
    ensures "custom_fields_ws_" <= SchemaName(workspace) && |SchemaName(workspace)| == 17 + 22
    ensures IsNumeral(SchemaName(workspace)[17..]) && Value(SchemaName(workspace)[17..]) == workspace
  {
    var short := Short(workspace, "ws_");
    ShortRoundTrip(workspace, "ws_");
    SchemaNameParts(SchemaName(workspace), short, short[3..]);
  }

  lemma SchemaNameParts(name: string, short: string, digits: string)
    requires name == "custom_fields_" + short && "ws_" <= short && digits == short[3..]
    ensures "custom_fields_ws_" <= name && name[17..] == digits && |name| == 17 + |digits|
  {
    assert short == "ws_" + digits;
    assert name == "custom_fields_ws_" + digits;
  }

  /** The workspace's table before the upgrade, if it has one. */
  ghost predicate Exists(db: Db, workspace: Workspace) {
    workspace.schema in db.schemas && db.schemas[workspace.schema].table.Some?
  }

  ghost function Existing(db: Db, workspace: Workspace): FieldTable
    requires Exists(db, workspace)
  {
    db.schemas[workspace.schema].table.value
  }

  /** No workspace has a table with rows, or one without a timestamp. */
  ghost predicate CanPartition(db: Db) {
    forall i :: 0 <= i < |db.workspaces| && Exists(db, db.workspaces[i]) ==>
      && Existing(db, db.workspaces[i]).rows == map[]
      && "created_at" in Existing(db, db.workspaces[i]).columns
      && "updated_at" in Existing(db, db.workspaces[i]).columns
  }

  /** The columns of the workspace's table: those of the public table, and those that it had. */
  ghost predicate HasColumns(db: Db, workspace: Workspace, columns: set<string>) {
    forall c :: c in columns <==> c in db.columns || (Exists(db, workspace) && c in Existing(db, workspace).columns)
  }

  /** The table holds the workspace's public rows, with their case, their cells, and NULL in every other column. */
  ghost predicate HoldsOwn(db: Db, workspace: Workspace, t: FieldTable) {
    && (forall id :: id in t.rows <==> id in db.public && db.public[id].owner == workspace.id)
    && (forall id :: id in t.rows && id in db.public ==>
          && t.rows[id].caseId == db.public[id].caseId && t.rows[id].cells.Keys == t.columns
          && (forall c :: c in t.columns ==>
                t.rows[id].cells[c] == if c in db.public[id].cells then db.public[id].cells[c] else None))
  }

  lemma ReadyExactly(db: Db)
    ensures AllReady(db, db.workspaces) <==> CanPartition(db)
  {
    forall i | 0 <= i < |db.workspaces|
      ensures Ready(db.schemas, db.workspaces[i]) <==>
              (Exists(db, db.workspaces[i]) ==>
                 && Existing(db, db.workspaces[i]).rows == map[]
                 && "created_at" in Existing(db, db.workspaces[i]).columns
                 && "updated_at" in Existing(db, db.workspaces[i]).columns)
    {}
  }

  lemma MovedExactly(row: PublicRow, columns: set<string>)
    requires row.cells.Keys <= columns
    ensures Moved(row, columns).caseId == row.caseId && Moved(row, columns).cells.Keys == columns
    ensures forall c :: c in columns ==> Moved(row, columns).cells[c] == if c in row.cells then row.cells[c] else None
  {}

  lemma FinalColumnsExactly(db: Db, workspace: Workspace, columns: set<string>)
    requires "created_at" in db.columns && "updated_at" in db.columns && Ready(db.schemas, workspace)
    requires columns == FinalColumns(db.schemas, db.columns, workspace)
    ensures HasColumns(db, workspace, columns) && db.columns <= columns
  {}

  lemma ShareExactly(db: Db, workspace: Workspace, columns: set<string>, t: FieldTable)
    requires t == ShareWith(db, columns, workspace) && db.columns <= columns
    requires forall id :: id in db.public ==> db.public[id].cells.Keys == db.columns
    ensures t.columns == columns && HoldsOwn(db, workspace, t)
  {
    forall id | id in t.rows
      ensures t.rows[id].caseId == db.public[id].caseId && t.rows[id].cells.Keys == columns
      ensures forall c :: c in columns ==>
                t.rows[id].cells[c] == if c in db.public[id].cells then db.public[id].cells[c] else None
    {
      MovedExactly(db.public[id], columns);
    }
  }

  /** Every workspace's table has all public columns and its own, and exactly the rows that the workspace owns. */
  ghost predicate OwnTables(db: Db, after: Db) {
    forall i :: 0 <= i < |db.workspaces| ==>
      && Exists(after, db.workspaces[i])
      && HasColumns(db, db.workspaces[i], Existing(after, db.workspaces[i]).columns)
      && HoldsOwn(db, db.workspaces[i], Existing(after, db.workspaces[i]))
  }

  ghost predicate OtherSchemasKept(db: Db, after: Db) {
    forall n :: (forall i :: 0 <= i < |db.workspaces| ==> db.workspaces[i].schema != n) ==>
      (n in after.schemas <==> n in db.schemas) && (n in db.schemas ==> after.schemas[n] == db.schemas[n])
  }

  lemma SharesAreOwnTables(db: Db, after: Db)
    requires PublicTyped(db) && AllReady(db, db.workspaces) && HoldsShares(db, db.workspaces, after)
    ensures OwnTables(db, after)
  {
    forall i | 0 <= i < |db.workspaces|
      ensures Exists(after, db.workspaces[i])
      ensures HasColumns(db, db.workspaces[i], Existing(after, db.workspaces[i]).columns)
      ensures HoldsOwn(db, db.workspaces[i], Existing(after, db.workspaces[i]))
    {
      var workspace := db.workspaces[i];
      assert Ready(db.schemas, workspace) && TableOf(after.schemas, workspace.schema) == Some(Share(db, workspace));
      var columns := FinalColumns(db.schemas, db.columns, workspace);
      assert "created_at" in TIMESTAMPS && "updated_at" in TIMESTAMPS;
      FinalColumnsExactly(db, workspace, columns);
      ShareExactly(db, workspace, columns, Share(db, workspace));
    }
  }

  lemma OthersAreKept(db: Db, after: Db)
    requires Partitioned(db, db.workspaces, after)
    ensures OtherSchemasKept(db, after)
  {
    forall n | forall i :: 0 <= i < |db.workspaces| ==> db.workspaces[i].schema != n
      ensures !IsWorkspaceSchema(db.workspaces, n)
    {}
  }

  /**
   * The partition succeeds exactly if no workspace has a table with rows or without a timestamp. Then every
   * workspace's table holds exactly the workspace's rows, and nothing else changes.
   */
  lemma PartitionExactly(db: Db)
    requires Valid(db)
    ensures Upgraded(db).Ok? <==> CanPartition(db)
    ensures Upgraded(db).Ok? ==>
              && Upgraded(db).value == db.(schemas := Upgraded(db).value.schemas)
              && OwnTables(db, Upgraded(db).value) && OtherSchemasKept(db, Upgraded(db).value)
  {
    UpgradeExactly(db);
    ReadyExactly(db);
    if Upgraded(db).Ok? {
      SharesAreOwnTables(db, Upgraded(db).value);
      OthersAreKept(db, Upgraded(db).value);
    }
  }

  /** A row of the table has the key of an owned public row, or its case. */
  ghost predicate Meets(db: Db, workspace: Workspace, t: FieldTable) {
    exists i, j :: && i in t.rows && j in db.public && db.public[j].owner == workspace.id
                   && (i == j || t.rows[i].caseId == db.public[j].caseId)
  }

  /** Filling a table that has rows fails on a key or a case that it has already, and otherwise on the counts. */
  lemma OccupiedFails(db: Db, workspace: Workspace, t: FieldTable)
    requires t.rows != map[] && db.columns <= t.columns
    ensures Filled(db.columns, db.public, t, workspace) ==
            Err(if Meets(db, workspace, t) then DuplicateKey else CountMismatch)
  {
    var source := OwnedBy(db.public, workspace.id);
    if Meets(db, workspace, t) {
      var i, j :| && i in t.rows && j in db.public && db.public[j].owner == workspace.id
                  && (i == j || t.rows[i].caseId == db.public[j].caseId);
      assert Clash(t.rows, source, i, j);
    }
    assert Collide(t.rows, source) ==> Meets(db, workspace, t);
    if !Collide(t.rows, source) {
      OccupiedCount(t.rows, source, t.columns);
    }
  }

  /** A table that exists keeps its columns, its rows and their cells, and gets the missing columns with NULL. */
  lemma WidenedExactly(t: FieldTable, columns: set<string>, r: FieldTable)
    requires r == EnsuredTable(Some(t), columns) && forall id :: id in t.rows ==> t.rows[id].cells.Keys == t.columns
    ensures forall c :: c in r.columns <==> c in t.columns || (c in columns && c != "created_at" && c != "updated_at")
    ensures r.rows.Keys == t.rows.Keys
    ensures forall id :: id in t.rows ==>
              && r.rows[id].caseId == t.rows[id].caseId && r.rows[id].cells.Keys == r.columns
              && (forall c :: c in r.columns ==>
                    r.rows[id].cells[c] == if c in t.columns then t.rows[id].cells[c] else None)
  {
    forall id | id in t.rows
      ensures r.rows[id].caseId == t.rows[id].caseId && r.rows[id].cells.Keys == r.columns
      ensures forall c :: c in r.columns ==>
                r.rows[id].cells[c] == if c in t.columns then t.rows[id].cells[c] else None
    {
      assert r.rows[id] == Widened(t.rows[id], r.columns);
    }
  }

  // ---------------------------------------------------------------- the rollback

  /** The case of a public row once some workspaces have been merged: the last holder's, or its own. */
  ghost predicate HasCase(db: Db, workspaces: seq<Workspace>, id: nat, c: nat) {
    || (exists i: nat :: LastHolder(db, workspaces, i, id) &&
                         TableOf(db.schemas, workspaces[i].schema).value.rows[id].caseId == c)
    || (HeldByNone(db, workspaces, id) && id in db.public && db.public[id].caseId == c)
  }

  /** No two rows share a case once these workspaces have been merged. */
  ghost predicate CasesApart(db: Db, workspaces: seq<Workspace>) {
    forall i, j, c :: HasCase(db, workspaces, i, c) && HasCase(db, workspaces, j, c) ==> i == j
  }

  ghost predicate ColumnsFit(db: Db, workspace: Workspace) {
    Exists(db, workspace) ==> Existing(db, workspace).columns <= db.columns
  }

  /** The public table fits what the workspaces hold, whichever of them have been merged so far. */
  ghost predicate CanMerge(db: Db, workspaces: seq<Workspace>) {
    && (forall i :: 0 <= i < |workspaces| ==> ColumnsFit(db, workspaces[i]))
    && (forall k :: 0 <= k <= |workspaces| ==> CasesApart(db, workspaces[..k]))
  }

  lemma CaseSnoc(db: Db, whole: seq<Workspace>, front: seq<Workspace>, last: Workspace, id: nat, c: nat)
    requires whole == front + [last]
    ensures HasCase(db, whole, id, c) <==>
            if Holds(db, last, id) then TableOf(db.schemas, last.schema).value.rows[id].caseId == c
            else HasCase(db, front, id, c)
  {
    assert whole[|front|] == last && forall i :: 0 <= i < |front| ==> whole[i] == front[i];
    if Holds(db, last, id) {
      assert LastHolder(db, whole, |front|, id);
      forall i: nat | LastHolder(db, whole, i, id) ensures i == |front| {}
    } else {
      forall i: nat ensures LastHolder(db, whole, i, id) <==> LastHolder(db, front, i, id) {}
    }
  }

  /** What some merged workspaces have left: the columns, the other schemas, and the cases of the public rows. */
  ghost predicate MergedTo(db: Db, workspaces: seq<Workspace>, r: Db) {
    && r.columns == db.columns && r.workspaces == db.workspaces
    && (forall n :: n in r.schemas <==> n in db.schemas && !IsWorkspaceSchema(workspaces, n))
    && (forall n :: n in r.schemas ==> r.schemas[n] == db.schemas[n])
    && (forall id, c :: HasCase(db, workspaces, id, c) <==> id in r.public && r.public[id].caseId == c)
  }

  lemma CasesAreUnique(db: Db, workspaces: seq<Workspace>, r: Db)
    requires forall id, c :: HasCase(db, workspaces, id, c) <==> id in r.public && r.public[id].caseId == c
    ensures CasesUnique(r.public) <==> CasesApart(db, workspaces)
  {
    if CasesApart(db, workspaces) {
      forall i, j | i in r.public && j in r.public && SameCase(r.public, i, j) ensures i == j {
        assert HasCase(db, workspaces, i, r.public[i].caseId) && HasCase(db, workspaces, j, r.public[i].caseId);
      }
    }
    if CasesUnique(r.public) {
      forall i, j, c | HasCase(db, workspaces, i, c) && HasCase(db, workspaces, j, c) ensures i == j {
        assert SameCase(r.public, i, j);
      }
    }
  }

  lemma MergeOneExactly(db: Db, front: seq<Workspace>, last: Workspace, prior: Db)
    requires MergedTo(db, front, prior) && !IsWorkspaceSchema(front, last.schema)
    requires Exists(db, last) && ColumnsFit(db, last)
    ensures MergeOne(prior, last).Ok? <==> CasesApart(db, front + [last])
    ensures MergeOne(prior, last).Ok? ==>
              forall id, c :: HasCase(db, front + [last], id, c) <==>
                id in MergeOne(prior, last).value.public && MergeOne(prior, last).value.public[id].caseId == c
  {
    var t := Existing(db, last);
    assert TableOf(prior.schemas, last.schema) == Some(t);
    var merged := prior.(public := prior.public + MergedRows(prior, t, last));
    forall id, c
      ensures HasCase(db, front + [last], id, c) <==> id in merged.public && merged.public[id].caseId == c
    {
      CaseSnoc(db, front + [last], front, last, id, c);
    }
    CasesAreUnique(db, front + [last], merged);
  }

  lemma NothingToMerge(db: Db, front: seq<Workspace>, last: Workspace)
    requires !Exists(db, last)
    ensures forall id, c :: HasCase(db, front + [last], id, c) <==> HasCase(db, front, id, c)
    ensures CasesApart(db, front + [last]) <==> CasesApart(db, front)
  {
    forall id, c ensures HasCase(db, front + [last], id, c) <==> HasCase(db, front, id, c) {
      CaseSnoc(db, front + [last], front, last, id, c);
    }
  }

  lemma SchemasSnoc(db: Db, front: seq<Workspace>, last: Workspace, prior: Db, after: Db)
    requires MergedTo(db, front, prior) && MergeOne(prior, last) == Ok(after)
    ensures after.columns == db.columns && after.workspaces == db.workspaces
    ensures forall n :: n in after.schemas <==> n in db.schemas && !IsWorkspaceSchema(front + [last], n)
    ensures forall n :: n in after.schemas ==> after.schemas[n] == db.schemas[n]
  {
    forall n ensures IsWorkspaceSchema(front + [last], n) <==> IsWorkspaceSchema(front, n) || last.schema == n {
      SnocSchemas(front, last, n);
    }
  }

  lemma OneMoreExactly(db: Db, front: seq<Workspace>, last: Workspace, prior: Db)
    requires WorkspacesDistinct(front + [last]) && MergedTo(db, front, prior) && CasesApart(db, front)
    ensures MergeOne(prior, last).Ok? <==> ColumnsFit(db, last) && CasesApart(db, front + [last])
    ensures MergeOne(prior, last).Ok? ==> MergedTo(db, front + [last], MergeOne(prior, last).value)
  {
    NotAmong(front, last);
    assert TableOf(prior.schemas, last.schema) == TableOf(db.schemas, last.schema);
    if !Exists(db, last) {
      NothingToMerge(db, front, last);
    } else if ColumnsFit(db, last) {
      MergeOneExactly(db, front, last, prior);
    }
    if MergeOne(prior, last).Ok? {
      SchemasSnoc(db, front, last, prior, MergeOne(prior, last).value);
    }
  }

  lemma CanMergeSnoc(db: Db, whole: seq<Workspace>, front: seq<Workspace>, last: Workspace)
    requires whole == front + [last]
    ensures CanMerge(db, whole) <==> CanMerge(db, front) && ColumnsFit(db, last) && CasesApart(db, whole)
  {
    assert whole[|front|] == last && forall i :: 0 <= i < |front| ==> whole[i] == front[i];
    assert whole[..|whole|] == whole;
    forall k | 0 <= k <= |front| ensures whole[..k] == front[..k] {}
  }

  lemma NothingMerged(db: Db)
    requires CasesUnique(db.public)
    ensures MergedTo(db, [], db) && CanMerge(db, []) && CasesApart(db, [])
  {
    forall id, c ensures HasCase(db, [], id, c) <==> id in db.public && db.public[id].caseId == c {}
    CasesAreUnique(db, [], db);
    var none: seq<Workspace> := [];
    assert none[..0] == [];
  }

  lemma {:induction false} MergesExactly(db: Db, workspaces: seq<Workspace>)
    requires WorkspacesDistinct(workspaces) && CasesUnique(db.public)
    ensures MergeAll(db, workspaces).Ok? <==> CanMerge(db, workspaces)
    ensures MergeAll(db, workspaces).Ok? ==> MergedTo(db, workspaces, MergeAll(db, workspaces).value)
    decreases |workspaces|
  {
    if workspaces == [] {
      NothingMerged(db);
    } else {
      var front, last := Unsnoc(workspaces);
      NotAmong(front, last);
      MergesExactly(db, front);
      MergeAllSnoc(db, front, last);
      CanMergeSnoc(db, workspaces, front, last);
      if MergeAll(db, front).Ok? {
        assert front[..|front|] == front;
        OneMoreExactly(db, front, last, MergeAll(db, front).value);
      }
    }
  }

  /**
   * A downgrade succeeds, after any edits, exactly if no workspace's table has a column that the public table
   * lacks and no two rows share a case at any point of the merge. It drops the workspace schemas and keeps the
   * others, and each row has the case that its last holder gives it.
   */
  lemma DowngradeSucceeds(db: Db)
    requires WorkspacesDistinct(db.workspaces)
    requires forall i, j :: i in db.public && j in db.public && db.public[i].caseId == db.public[j].caseId ==> i == j
    ensures Downgraded(db).Ok? <==> CanMerge(db, db.workspaces)
    ensures Downgraded(db).Ok? ==> MergedTo(db, db.workspaces, Downgraded(db).value)
  {
    assert CasesUnique(db.public) by {
      forall i, j | i in db.public && j in db.public && SameCase(db.public, i, j) ensures i == j {}
    }
    MergesExactly(db, db.workspaces);
  }
}
