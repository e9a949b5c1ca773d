/** The tables of migration `b4d8b2f2c9dd`, filled and merged in place, workspace by workspace. */
module FieldStore {
  import opened CaseFieldPartition
  import opened Wrappers

  function AddColumn(t: FieldTable, column: string): FieldTable {
    FieldTable(t.columns + {column}, map id | id in t.rows :: t.rows[id].(cells := map[column := None] + t.rows[id].cells))
  }

  /** The table with its rows widened to the given columns. */
  ghost predicate IsWidened(t: FieldTable, r: FieldTable, columns: set<string>) {
    r == FieldTable(columns, map id | id in t.rows :: Widened(t.rows[id], columns))
  }

  lemma WidenedAlready(row: FieldRow)
    ensures Widened(row, row.cells.Keys) == row
  {
    assert Nulls(row.cells.Keys - row.cells.Keys) + row.cells == row.cells;
  }

  lemma WidenedMore(row: FieldRow, columns: set<string>, c: string)
    requires row.cells.Keys <= columns && c !in columns
    ensures row.(cells := map[c := None] + Widened(row, columns).cells) == Widened(row, columns + {c})
  {
    assert map[c := None] + Widened(row, columns).cells == Widened(row, columns + {c}).cells;
  }

  lemma StartsWidened(t: FieldTable)
    requires TableTyped(t)
    ensures IsWidened(t, t, t.columns)
  {
    forall id | id in t.rows ensures Widened(t.rows[id], t.columns) == t.rows[id] {
      WidenedAlready(t.rows[id]);
    }
  }

  lemma StaysWidened(t: FieldTable, r: FieldTable, columns: set<string>, c: string)
    requires TableTyped(t) && t.columns <= columns && IsWidened(t, r, columns) && c !in columns
    ensures IsWidened(t, AddColumn(r, c), columns + {c})
  {
    forall id | id in t.rows ensures AddColumn(r, c).rows[id] == Widened(t.rows[id], columns + {c}) {
      WidenedMore(t.rows[id], columns, c);
      assert r.rows[id] == Widened(t.rows[id], columns);
    }
  }

  /** The loop that adds the dynamic columns an existing table lacks. */
  method AddMissingColumns(t: FieldTable, dynamic: set<string>) returns (r: FieldTable)
    requires TableTyped(t)
    ensures IsWidened(t, r, t.columns + dynamic)
  {
    var existing := t.columns;
    var todo := dynamic;
    r := t;
    StartsWidened(t);
    assert existing + (dynamic - todo) == existing;
    while todo != {}
      invariant todo <= dynamic && IsWidened(t, r, existing + (dynamic - todo))
      decreases |todo|
    {
      var c :| c in todo;
      ghost var reached := existing + (dynamic - todo);
      todo := todo - {c};
      assert existing + (dynamic - todo) == reached + {c};
      if c !in existing {
        StaysWidened(t, r, reached, c);
        r := AddColumn(r, c);
      } else {
        assert reached + {c} == reached;
      }
    }
    assert dynamic - todo == dynamic;
  }

  lemma UpdateTwice<K, V>(m: map<K, V>, k: K, v: V, w: V)
    ensures m[k := v][k := w] == m[k := w]
  {}

  /** The copy into the workspace table, and the comparison of the counts. */
  method FillTable(columns: set<string>, public: map<nat, PublicRow>, t: FieldTable, workspace: Workspace)
    returns (filled: Result<FieldTable, Failure>)
    ensures filled == Filled(columns, public, t, workspace)
  {
    var source := OwnedBy(public, workspace.id);
    if !(columns <= t.columns) {
      return Err(UnknownColumn);
    }
    if Collide(t.rows, source) {
      return Err(DuplicateKey);
    }
    var rows := t.rows + MovedRows(source, t.columns);
    var sourceCount, destCount := |source|, |rows|;
    if sourceCount != destCount {
      return Err(CountMismatch);
    }
    return Ok(t.(rows := rows));
  }

  class Database {
    var public: map<nat, PublicRow>
    var schemas: map<string, Schema>
    const columns: set<string>
    const workspaces: seq<Workspace>

    constructor (db: Db)
      ensures Contents() == db
    {
      public, schemas, columns, workspaces := db.public, db.schemas, db.columns, db.workspaces;
    }

    ghost function Contents(): Db
      reads this
    {
      Db(columns, public, schemas, workspaces)
    }

    /** `_ensure_workspace_table` */
    method EnsureTable(name: string) returns (t: FieldTable)
      requires TIMESTAMPS <= columns && SchemasTyped(schemas)
      modifies this`schemas
      ensures t == EnsuredTable(TableOf(old(schemas), name), columns)
      ensures schemas == old(schemas)[name := Schema(Some(t))]
    {
      var existing := TableOf(schemas, name);
      var dynamic := columns - TIMESTAMPS;
      if existing == None {
        t := FieldTable(TIMESTAMPS + dynamic, map[]);
      } else {
        t := AddMissingColumns(existing.value, dynamic);
      }
      schemas := schemas[name := Schema(Some(t))];
    }

    /** One turn of the loop: create, copy, compare the counts. */
    method MoveWorkspace(workspace: Workspace) returns (failure: Option<Failure>)
      requires TIMESTAMPS <= columns && SchemasTyped(schemas)
      modifies this`schemas
      ensures failure == FailureOf(MoveOne(old(Contents()), workspace))
      ensures failure == None ==> Contents() == MoveOne(old(Contents()), workspace).value
    {
      var name := workspace.schema;
      var t := EnsureTable(name);
      var filled := FillTable(columns, public, t, workspace);
      if filled.Err? {
        return Some(filled.error);
      }
      UpdateTwice(old(schemas), name, Schema(Some(t)), Schema(Some(filled.value)));
      schemas := schemas[name := Schema(Some(filled.value))];
      return None;
    }

    /** The loop over the workspaces. */
    method MoveEach() returns (failure: Option<Failure>)
      requires PublicTyped(Contents()) && SchemasTyped(schemas)
      modifies this`schemas
      ensures failure == FailureOf(MoveAll(old(Contents()), workspaces))
      ensures failure == None ==> Contents() == MoveAll(old(Contents()), workspaces).value
    {
      ghost var before := Contents();
      for i := 0 to |workspaces|
        invariant MoveAll(before, workspaces[..i]) == Ok(Contents()) && SchemasTyped(schemas)
      {
        assert workspaces[..i + 1][..i] == workspaces[..i];
        ghost var middle := Contents();
        failure := MoveWorkspace(workspaces[i]);
        if failure.Some? {
          MoveAllFails(before, workspaces, i + 1);
          return;
        }
        MoveKeepsTyped(middle, workspaces[i]);
      }
      assert workspaces[..|workspaces|] == workspaces;
      return None;
    }

    /** `upgrade`; an exception rolls the transaction back. */
    method Upgrade() returns (failure: Option<Failure>)
      requires Valid(Contents())
      modifies this
      ensures failure == FailureOf(Upgraded(old(Contents())))
      ensures Contents() == if failure == None then Upgraded(old(Contents())).value else old(Contents())
    {
      var schemas0 := schemas;
      failure := MoveEach();
      if failure.Some? {
        schemas := schemas0;
      }
    }

    /** One turn of the rollback loop: merge the table, if there is one, and drop the schema. */
    method MergeWorkspace(workspace: Workspace) returns (failure: Option<Failure>)
      modifies this`public, this`schemas
      ensures failure == FailureOf(MergeOne(old(Contents()), workspace))
      ensures failure == None ==> Contents() == MergeOne(old(Contents()), workspace).value
    {
      var name := workspace.schema;
      if name !in schemas {
        assert schemas - {name} == schemas;
        return None;
      }
      var existing := schemas[name].table;
      if existing.Some? {
        if !(existing.value.columns <= columns) {
          return Some(UnknownColumn);
        }
        public := public + MergedRows(Db(columns, public, schemas, workspaces), existing.value, workspace);
        if !CasesUnique(public) {
          return Some(DuplicateKey);
        }
      }
      schemas := schemas - {name};
      return None;
    }

    method MergeEach() returns (failure: Option<Failure>)
      modifies this`public, this`schemas
      ensures failure == FailureOf(MergeAll(old(Contents()), workspaces))
      ensures failure == None ==> Contents() == MergeAll(old(Contents()), workspaces).value
    {
      ghost var before := Contents();
      for i := 0 to |workspaces|
        invariant MergeAll(before, workspaces[..i]) == Ok(Contents())
      {
        assert workspaces[..i + 1][..i] == workspaces[..i];
        failure := MergeWorkspace(workspaces[i]);
        if failure.Some? {
          MergeAllFails(before, workspaces, i + 1);
          return;
        }
      }
      assert workspaces[..|workspaces|] == workspaces;
      return None;
    }

    /** `downgrade` */
    method Downgrade() returns (failure: Option<Failure>)
      modifies this
      ensures failure == FailureOf(Downgraded(old(Contents())))
      ensures Contents() == if failure == None then Downgraded(old(Contents())).value else old(Contents())
    {
      var public0, schemas0 := public, schemas;
      failure := MergeEach();
      if failure.Some? {
        public, schemas := public0, schemas0;
      }
    }
  }

  lemma {:induction false} MoveAllFails(db: Db, workspaces: seq<Workspace>, n: nat)
    requires n <= |workspaces| && MoveAll(db, workspaces[..n]).Err?
    ensures MoveAll(db, workspaces) == MoveAll(db, workspaces[..n])
    decreases |workspaces|
  {
    if n < |workspaces| {
      assert workspaces[..|workspaces| - 1][..n] == workspaces[..n];
      MoveAllFails(db, workspaces[..|workspaces| - 1], n);
    } else {
      assert workspaces[..n] == workspaces;
    }
  }

  lemma {:induction false} MergeAllFails(db: Db, workspaces: seq<Workspace>, n: nat)
    requires n <= |workspaces| && MergeAll(db, workspaces[..n]).Err?
    ensures MergeAll(db, workspaces) == MergeAll(db, workspaces[..n])
    decreases |workspaces|
  {
    if n < |workspaces| {
      assert workspaces[..|workspaces| - 1][..n] == workspaces[..n];
      MergeAllFails(db, workspaces[..|workspaces| - 1], n);
    } else {
      assert workspaces[..n] == workspaces;
    }
  }

  lemma MoveKeepsTyped(db: Db, workspace: Workspace)
    requires PublicTyped(db) && SchemasTyped(db.schemas) && MoveOne(db, workspace).Ok?
    ensures SchemasTyped(MoveOne(db, workspace).value.schemas)
  {
    MoveOneExactly(db, workspace);
    var t := Share(db, workspace);
    FinalColumnsCover(db, workspace);
    forall id | id in t.rows ensures t.rows[id].cells.Keys == t.columns {
      RowOfShare(db, t.columns, workspace, id);
    }
  }
}
