/**
 * Splitting the shared `case_fields` table into one table per workspace schema, and merging it back:
 * migration `b4d8b2f2c9dd`. A table is a map from its primary key.
 */
module CaseFieldPartition {
  import opened Base62
  import opened Wrappers

  /** The columns of a row beside `id`, `case_id` and `owner_id`; an absent value is NULL. */
  type Cells = map<string, Option<nat>>

  datatype PublicRow = PublicRow(owner: nat, caseId: nat, cells: Cells)

  datatype FieldRow = FieldRow(caseId: nat, cells: Cells)

  datatype FieldTable = FieldTable(columns: set<string>, rows: map<nat, FieldRow>)

  /** A schema, with its `case_fields` table if it has one. */
  datatype Schema = Schema(table: Option<FieldTable>)

  /** A workspace and the name of its schema. */
  datatype Workspace = Workspace(id: nat, schema: string)

  datatype Db = Db(columns: set<string>, public: map<nat, PublicRow>, schemas: map<string, Schema>, workspaces: seq<Workspace>)

  datatype Failure = UnknownColumn | DuplicateKey | CountMismatch

  const TIMESTAMPS: set<string> := {"created_at", "updated_at"}

  /** `_workspace_schema` */
  function SchemaName(workspace: nat): string {
    "custom_fields_" + Short(workspace, "ws_")
  }

  lemma SchemaNameInjective(a: nat, b: nat)
    requires a < UUID_LIMIT && b < UUID_LIMIT
    ensures SchemaName(a) == SchemaName(b) <==> a == b
  {
    ShortInjective(a, b, "ws_");
    assert SchemaName(a)[14..] == Short(a, "ws_") && SchemaName(b)[14..] == Short(b, "ws_");
  }

  ghost predicate WorkspacesDistinct(workspaces: seq<Workspace>) {
    forall i, j :: 0 <= i < j < |workspaces| ==>
      workspaces[i].id != workspaces[j].id && workspaces[i].schema != workspaces[j].schema
  }

  ghost predicate Ids(workspaces: seq<Workspace>, ids: seq<nat>) {
    |workspaces| == |ids| && forall i :: 0 <= i < |ids| ==> workspaces[i].id == ids[i]
  }

  /** Names for all workspaces: distinct workspaces get distinct schemas. */
  method NameSchemas(ids: seq<nat>) returns (workspaces: seq<Workspace>)
    requires forall i :: 0 <= i < |ids| ==> ids[i] < UUID_LIMIT
    requires forall i, j :: 0 <= i < j < |ids| ==> ids[i] != ids[j]
    ensures Ids(workspaces, ids) && WorkspacesDistinct(workspaces)
    ensures forall i :: 0 <= i < |ids| ==> workspaces[i].schema == SchemaName(ids[i])
  {
    workspaces := [];
    for k := 0 to |ids|
      invariant Ids(workspaces, ids[..k]) && WorkspacesDistinct(workspaces)
      invariant forall i :: 0 <= i < k ==> workspaces[i].schema == SchemaName(ids[i])
    {
      forall i | 0 <= i < k ensures workspaces[i].schema != SchemaName(ids[k]) && workspaces[i].id != ids[k] {
        SchemaNameInjective(ids[i], ids[k]);
      }
      workspaces := workspaces + [Workspace(ids[k], SchemaName(ids[k]))];
    }
  }

  // ---------------------------------------------------------------- upgrade

  function Nulls(columns: set<string>): Cells {
    map c | c in columns :: None
  }

  function Widened(row: FieldRow, columns: set<string>): FieldRow {
    row.(cells := Nulls(columns - row.cells.Keys) + row.cells)
  }

  /** `_ensure_workspace_table`: every dynamic column, and the timestamps where the table is new. */
  function EnsuredTable(existing: Option<FieldTable>, columns: set<string>): FieldTable {
    var dynamic := columns - TIMESTAMPS;
    match existing
    case None => FieldTable(TIMESTAMPS + dynamic, map[])
    case Some(t) =>
      FieldTable(t.columns + dynamic, map id | id in t.rows :: Widened(t.rows[id], t.columns + dynamic))
  }

  function TableOf(schemas: map<string, Schema>, name: string): Option<FieldTable> {
    if name in schemas then schemas[name].table else None
  }

  function OwnedBy(public: map<nat, PublicRow>, workspace: nat): map<nat, PublicRow> {
    map id | id in public && public[id].owner == workspace :: public[id]
  }

  /** A public row as the workspace table stores it. */
  function Moved(row: PublicRow, columns: set<string>): FieldRow {
    Widened(FieldRow(row.caseId, row.cells), columns)
  }

  function MovedRows(rows: map<nat, PublicRow>, columns: set<string>): map<nat, FieldRow> {
    map id | id in rows :: Moved(rows[id], columns)
  }

  /** The same primary key, or the same case. */
  predicate Clash(rows: map<nat, FieldRow>, added: map<nat, PublicRow>, i: nat, j: nat)
    requires i in rows && j in added
  {
    i == j || rows[i].caseId == added[j].caseId
  }

  predicate Collide(rows: map<nat, FieldRow>, added: map<nat, PublicRow>) {
    exists i, j {:trigger Clash(rows, added, i, j)} :: i in rows && j in added && Clash(rows, added, i, j)
  }

  /** `INSERT INTO workspace table SELECT …`, then the comparison of the row counts. */
  function Filled(columns: set<string>, public: map<nat, PublicRow>, t: FieldTable, workspace: Workspace)
    : Result<FieldTable, Failure>
  {
    var source := OwnedBy(public, workspace.id);
    if !(columns <= t.columns) then Err(UnknownColumn)
    else if Collide(t.rows, source) then Err(DuplicateKey)
    else
      var filled := t.(rows := t.rows + MovedRows(source, t.columns));
      if |source| != |filled.rows| then Err(CountMismatch) else Ok(filled)
  }

  function MoveOne(db: Db, workspace: Workspace): Result<Db, Failure> {
    var name := workspace.schema;
    var filled := Filled(db.columns, db.public, EnsuredTable(TableOf(db.schemas, name), db.columns), workspace);
    if filled.Err? then Err(filled.error) else Ok(db.(schemas := db.schemas[name := Schema(Some(filled.value))]))
  }

  function MoveAll(db: Db, workspaces: seq<Workspace>): Result<Db, Failure> {
    if workspaces == [] then Ok(db)
    else
      var prior := MoveAll(db, workspaces[..|workspaces| - 1]);
      if prior.Err? then prior else MoveOne(prior.value, workspaces[|workspaces| - 1])
  }

  function Upgraded(db: Db): Result<Db, Failure> {
    MoveAll(db, db.workspaces)
  }

  // ---------------------------------------------------------------- downgrade

  /** What the upsert makes of one public row: columns that the workspace table lacks keep their value. */
  function Merged(public: map<nat, PublicRow>, columns: set<string>, workspace: nat, id: nat, row: FieldRow): PublicRow {
    var base := if id in public then public[id].cells else Nulls(columns);
    PublicRow(workspace, row.caseId, base + row.cells)
  }

  function MergedRows(db: Db, t: FieldTable, workspace: Workspace): map<nat, PublicRow> {
    map id | id in t.rows :: Merged(db.public, db.columns, workspace.id, id, t.rows[id])
  }

  predicate SameCase(public: map<nat, PublicRow>, i: nat, j: nat)
    requires i in public && j in public
  {
    public[i].caseId == public[j].caseId
  }

  predicate CasesUnique(public: map<nat, PublicRow>) {
    forall i, j {:trigger SameCase(public, i, j)} :: i in public && j in public && SameCase(public, i, j) ==> i == j
  }

  function MergeOne(db: Db, workspace: Workspace): Result<Db, Failure> {
    var name := workspace.schema;
    match TableOf(db.schemas, name)
    case None => Ok(db.(schemas := db.schemas - {name}))
    case Some(t) =>
      if !(t.columns <= db.columns) then Err(UnknownColumn)
      else
        var public := db.public + MergedRows(db, t, workspace);
        if !CasesUnique(public) then Err(DuplicateKey) else Ok(db.(public := public, schemas := db.schemas - {name}))
  }

  function MergeAll(db: Db, workspaces: seq<Workspace>): Result<Db, Failure> {
    if workspaces == [] then Ok(db)
    else
      var prior := MergeAll(db, workspaces[..|workspaces| - 1]);
      if prior.Err? then prior else MergeOne(prior.value, workspaces[|workspaces| - 1])
  }

  function Downgraded(db: Db): Result<Db, Failure> {
    MergeAll(db, db.workspaces)
  }

  // ---------------------------------------------------------------- well-formed databases

  ghost predicate TableTyped(t: FieldTable) {
    forall id :: id in t.rows ==> t.rows[id].cells.Keys == t.columns
  }

  ghost predicate SchemasTyped(schemas: map<string, Schema>) {
    forall n :: n in schemas && schemas[n].table.Some? ==> TableTyped(schemas[n].table.value)
  }

  ghost predicate Known(workspaces: seq<Workspace>, id: nat) {
    exists i :: 0 <= i < |workspaces| && workspaces[i].id == id
  }

  ghost predicate PublicTyped(db: Db) {
    && TIMESTAMPS <= db.columns && CasesUnique(db.public)
    && (forall id :: id in db.public ==> db.public[id].cells.Keys == db.columns && Known(db.workspaces, db.public[id].owner))
  }

  ghost predicate Valid(db: Db) {
    PublicTyped(db) && SchemasTyped(db.schemas) && WorkspacesDistinct(db.workspaces)
  }

  // ---------------------------------------------------------------- one workspace

  /** A table that is missing, or empty and complete enough to be filled. */
  ghost predicate Fillable(existing: Option<FieldTable>) {
    existing == None || (existing.value.rows == map[] && TIMESTAMPS <= existing.value.columns)
  }

  ghost predicate Ready(schemas: map<string, Schema>, workspace: Workspace) {
    Fillable(TableOf(schemas, workspace.schema))
  }

  /** The columns that the workspace's table ends up with. */
  function FinalColumns(schemas: map<string, Schema>, columns: set<string>, workspace: Workspace): set<string> {
    EnsuredTable(TableOf(schemas, workspace.schema), columns).columns
  }

  /** Exactly the public rows of the workspace, without their owner. */
  ghost function ShareWith(db: Db, columns: set<string>, workspace: Workspace): FieldTable {
    FieldTable(columns, MovedRows(OwnedBy(db.public, workspace.id), columns))
  }

  ghost function Share(db: Db, workspace: Workspace): FieldTable {
    ShareWith(db, FinalColumns(db.schemas, db.columns, workspace), workspace)
  }

  lemma CountsAgree(rows: map<nat, FieldRow>, added: map<nat, FieldRow>)
    requires forall id :: id in added ==> id !in rows
    ensures |rows + added| == |rows| + |added|
  {
    assert (rows + added).Keys == rows.Keys + added.Keys;
  }

  lemma MovedCount(rows: map<nat, PublicRow>, columns: set<string>)
    ensures |MovedRows(rows, columns)| == |rows| && MovedRows(rows, columns).Keys == rows.Keys
  {
    assert MovedRows(rows, columns).Keys == rows.Keys;
  }

  lemma EmptyPlus<K, V>(m: map<K, V>)
    ensures map[] + m == m
  {}

  lemma PlusSame<K, V>(m: map<K, V>, n: map<K, V>)
    requires forall k :: k in n ==> k in m && m[k] == n[k]
    ensures m + n == m
  {}

  lemma FillEmpty(db: Db, columns: set<string>, workspace: Workspace)
    ensures Filled(db.columns, db.public, FieldTable(columns, map[]), workspace) ==
            if db.columns <= columns then Ok(ShareWith(db, columns, workspace)) else Err(UnknownColumn)
  {
    var moved := MovedRows(OwnedBy(db.public, workspace.id), columns);
    MovedCount(OwnedBy(db.public, workspace.id), columns);
    EmptyPlus(moved);
  }

  lemma NoneMovedTwice(rows: map<nat, FieldRow>, source: map<nat, PublicRow>, moved: map<nat, FieldRow>)
    requires !Collide(rows, source) && moved.Keys == source.Keys
    ensures forall id :: id in moved ==> id !in rows
  {
    forall id | id in moved ensures id !in rows {
      assert id in rows ==> Clash(rows, source, id, id);
    }
  }

  lemma NotEmpty(rows: map<nat, FieldRow>)
    requires rows != map[]
    ensures |rows| > 0
  {
    var id :| id in rows;
    assert id in rows.Keys;
  }

  lemma OccupiedCount(rows: map<nat, FieldRow>, source: map<nat, PublicRow>, columns: set<string>)
    requires rows != map[] && !Collide(rows, source)
    ensures |source| != |rows + MovedRows(source, columns)|
  {
    var moved := MovedRows(source, columns);
    MovedCount(source, columns);
    NoneMovedTwice(rows, source, moved);
    CountsAgree(rows, moved);
    NotEmpty(rows);
  }

  /** The count comparison lets no copy through into a table that already had rows. */
  lemma FillOccupied(db: Db, t: FieldTable, workspace: Workspace)
    requires t.rows != map[]
    ensures Filled(db.columns, db.public, t, workspace).Err?
  {
    var source := OwnedBy(db.public, workspace.id);
    if !Collide(t.rows, source) {
      OccupiedCount(t.rows, source, t.columns);
    }
  }

  lemma EnsuredShape(existing: Option<FieldTable>, columns: set<string>)
    ensures EnsuredTable(existing, columns).rows == map[] <==> existing == None || existing.value.rows == map[]
    ensures TIMESTAMPS <= columns ==>
              (columns <= EnsuredTable(existing, columns).columns <==>
               existing == None || TIMESTAMPS <= existing.value.columns)
  {
    if existing.Some? {
      assert EnsuredTable(existing, columns).rows.Keys == existing.value.rows.Keys;
    }
  }

  lemma FilledExactly(db: Db, existing: Option<FieldTable>, workspace: Workspace)
    requires TIMESTAMPS <= db.columns
    ensures Filled(db.columns, db.public, EnsuredTable(existing, db.columns), workspace).Ok? <==> Fillable(existing)
    ensures Fillable(existing) ==>
              (Filled(db.columns, db.public, EnsuredTable(existing, db.columns), workspace) ==
               Ok(ShareWith(db, EnsuredTable(existing, db.columns).columns, workspace)))
  {
    var t := EnsuredTable(existing, db.columns);
    EnsuredShape(existing, db.columns);
    if t.rows == map[] {
      FillEmpty(db, t.columns, workspace);
      assert t == FieldTable(t.columns, map[]);
    } else {
      FillOccupied(db, t, workspace);
    }
  }

  lemma MoveOneExactly(db: Db, workspace: Workspace)
    requires TIMESTAMPS <= db.columns
    ensures MoveOne(db, workspace).Ok? <==> Ready(db.schemas, workspace)
    ensures Ready(db.schemas, workspace) ==>
              MoveOne(db, workspace) ==
              Ok(db.(schemas := db.schemas[workspace.schema := Schema(Some(Share(db, workspace)))]))
  {
    FilledExactly(db, TableOf(db.schemas, workspace.schema), workspace);
  }

  // ---------------------------------------------------------------- all workspaces

  ghost predicate AllReady(db: Db, workspaces: seq<Workspace>) {
    forall i :: 0 <= i < |workspaces| ==> Ready(db.schemas, workspaces[i])
  }

  ghost predicate IsWorkspaceSchema(workspaces: seq<Workspace>, name: string) {
    exists i :: 0 <= i < |workspaces| && workspaces[i].schema == name
  }

  /** The workspace's table has no column that the public table lacks. */
  ghost predicate NoExtraColumns(db: Db, workspace: Workspace) {
    FinalColumns(db.schemas, db.columns, workspace) <= db.columns
  }

  ghost predicate NoneHasExtras(db: Db, workspaces: seq<Workspace>) {
    forall i :: 0 <= i < |workspaces| ==> NoExtraColumns(db, workspaces[i])
  }

  ghost predicate HoldsShares(db: Db, workspaces: seq<Workspace>, after: Db) {
    forall i :: 0 <= i < |workspaces| ==>
      TableOf(after.schemas, workspaces[i].schema) == Some(Share(db, workspaces[i]))
  }

  lemma SnocWorkspaces(db: Db, front: seq<Workspace>, last: Workspace, after: Db)
    ensures HoldsShares(db, front + [last], after) <==>
            HoldsShares(db, front, after) && TableOf(after.schemas, last.schema) == Some(Share(db, last))
    ensures AllReady(db, front + [last]) <==> AllReady(db, front) && Ready(db.schemas, last)
    ensures NoneHasExtras(db, front + [last]) <==> NoneHasExtras(db, front) && NoExtraColumns(db, last)
  {
    var all := front + [last];
    assert all[|front|] == last;
    assert forall i :: 0 <= i < |front| ==> all[i] == front[i];
  }

  /** Each listed workspace has its share, every other schema and everything else is as before. */
  ghost predicate Partitioned(db: Db, workspaces: seq<Workspace>, after: Db) {
    && after == db.(schemas := after.schemas)
    && HoldsShares(db, workspaces, after)
    && (forall n :: n !in db.schemas && !IsWorkspaceSchema(workspaces, n) ==> n !in after.schemas)
    && (forall n :: n in db.schemas && !IsWorkspaceSchema(workspaces, n) ==>
          n in after.schemas && after.schemas[n] == db.schemas[n])
  }

  lemma SnocSchemas(front: seq<Workspace>, last: Workspace, name: string)
    ensures IsWorkspaceSchema(front + [last], name) <==> IsWorkspaceSchema(front, name) || last.schema == name
  {
    if IsWorkspaceSchema(front, name) {
      var i :| 0 <= i < |front| && front[i].schema == name;
      assert (front + [last])[i] == front[i];
    }
    assert (front + [last])[|front|] == last;
  }

  lemma NotAmong(front: seq<Workspace>, last: Workspace)
    requires WorkspacesDistinct(front + [last])
    ensures WorkspacesDistinct(front) && !IsWorkspaceSchema(front, last.schema)
  {
    var all := front + [last];
    assert all[|front|] == last;
    assert forall i :: 0 <= i < |front| ==> all[i] == front[i];
  }

  lemma SharesKept(db: Db, front: seq<Workspace>, prior: Db, after: Db, name: string, schema: Schema)
    requires HoldsShares(db, front, prior) && !IsWorkspaceSchema(front, name)
    requires after.schemas == prior.schemas[name := schema]
    ensures HoldsShares(db, front, after)
  {
    forall i | 0 <= i < |front| ensures TableOf(after.schemas, front[i].schema) == TableOf(prior.schemas, front[i].schema) {
      assert IsWorkspaceSchema(front, front[i].schema);
    }
  }

  lemma OneMoreShare(db: Db, front: seq<Workspace>, last: Workspace, prior: Db)
    requires TIMESTAMPS <= db.columns && WorkspacesDistinct(front + [last]) && Partitioned(db, front, prior)
    ensures MoveOne(prior, last).Ok? <==> Ready(db.schemas, last)
    ensures MoveOne(prior, last).Ok? ==> Partitioned(db, front + [last], MoveOne(prior, last).value)
  {
    NotAmong(front, last);
    var name := last.schema;
    assert TableOf(prior.schemas, name) == TableOf(db.schemas, name);
    MoveOneExactly(prior, last);
    if Ready(db.schemas, last) {
      var after := MoveOne(prior, last).value;
      assert Share(prior, last) == Share(db, last);
      forall n ensures IsWorkspaceSchema(front + [last], n) <==> IsWorkspaceSchema(front, n) || name == n {
        SnocSchemas(front, last, n);
      }
      SharesKept(db, front, prior, after, name, after.schemas[name]);
      SnocWorkspaces(db, front, last, after);
    }
  }

  lemma ReadySnoc(db: Db, front: seq<Workspace>, last: Workspace)
    ensures AllReady(db, front + [last]) <==> AllReady(db, front) && Ready(db.schemas, last)
  {
    SnocWorkspaces(db, front, last, db);
  }

  lemma {:induction false} MoveAllSnoc(db: Db, front: seq<Workspace>, last: Workspace)
    ensures MoveAll(db, front + [last]) ==
            if MoveAll(db, front).Err? then MoveAll(db, front) else MoveOne(MoveAll(db, front).value, last)
  {
    assert (front + [last])[..|front|] == front;
  }

  lemma {:induction false} MovesAll(db: Db, workspaces: seq<Workspace>)
    requires TIMESTAMPS <= db.columns && WorkspacesDistinct(workspaces)
    ensures MoveAll(db, workspaces).Ok? <==> AllReady(db, workspaces)
    ensures MoveAll(db, workspaces).Ok? ==> Partitioned(db, workspaces, MoveAll(db, workspaces).value)
  {
    if workspaces != [] {
      var front, last := workspaces[..|workspaces| - 1], workspaces[|workspaces| - 1];
      assert workspaces == front + [last];
      NotAmong(front, last);
      MovesAll(db, front);
      ReadySnoc(db, front, last);
      MoveAllSnoc(db, front, last);
      if MoveAll(db, front).Ok? {
        OneMoreShare(db, front, last, MoveAll(db, front).value);
      }
    }
  }

  /**
   * The partition succeeds exactly when every workspace table was missing, or empty with its
   * timestamps; then each workspace table holds exactly the public rows of that workspace.
   */
  lemma UpgradeExactly(db: Db)
    requires Valid(db)
    ensures Upgraded(db).Ok? <==> AllReady(db, db.workspaces)
    ensures Upgraded(db).Ok? ==> Partitioned(db, db.workspaces, Upgraded(db).value)
  {
    MovesAll(db, db.workspaces);
  }

  lemma RowOfShare(db: Db, columns: set<string>, workspace: Workspace, id: nat)
    requires PublicTyped(db) && id in db.public && db.columns <= columns
    ensures id in ShareWith(db, columns, workspace).rows <==> db.public[id].owner == workspace.id
    ensures id in ShareWith(db, columns, workspace).rows ==>
              var row := ShareWith(db, columns, workspace).rows[id];
              && row.caseId == db.public[id].caseId && row.cells.Keys == columns
              && (forall c :: c in columns ==> row.cells[c] == if c in db.columns then db.public[id].cells[c] else None)
  {
    if db.public[id].owner == workspace.id {
      assert id in OwnedBy(db.public, workspace.id);
    }
  }

  lemma FinalColumnsCover(db: Db, workspace: Workspace)
    requires TIMESTAMPS <= db.columns && Ready(db.schemas, workspace)
    ensures db.columns <= FinalColumns(db.schemas, db.columns, workspace)
  {}

  /** Every public row lies in the table of its owner with its case and all its cells, and in no other table. */
  lemma SharesCover(db: Db, id: nat, workspace: Workspace)
    requires Valid(db) && Upgraded(db).Ok? && id in db.public && workspace in db.workspaces
    ensures Known(db.workspaces, db.public[id].owner)
    ensures TableOf(Upgraded(db).value.schemas, workspace.schema) == Some(Share(db, workspace))
    ensures id in Share(db, workspace).rows <==> workspace.id == db.public[id].owner
    ensures id in Share(db, workspace).rows ==>
              var row := Share(db, workspace).rows[id];
              && row.caseId == db.public[id].caseId && db.columns <= row.cells.Keys
              && (forall c :: c in db.columns ==> row.cells[c] == db.public[id].cells[c])
  {
    UpgradeExactly(db);
    var i :| 0 <= i < |db.workspaces| && db.workspaces[i] == workspace;
    assert Ready(db.schemas, db.workspaces[i]);
    FinalColumnsCover(db, workspace);
    RowOfShare(db, FinalColumns(db.schemas, db.columns, workspace), workspace, id);
  }

  // ---------------------------------------------------------------- merging back

  lemma MovedSame(row: PublicRow)
    ensures Moved(row, row.cells.Keys) == FieldRow(row.caseId, row.cells)
  {
    assert Nulls(row.cells.Keys - row.cells.Keys) + row.cells == row.cells;
  }

  lemma MergedSame(db: Db, workspace: Workspace)
    requires PublicTyped(db)
    ensures db.public + MergedRows(db, ShareWith(db, db.columns, workspace), workspace) == db.public
  {
    var t := ShareWith(db, db.columns, workspace);
    var merged := MergedRows(db, t, workspace);
    forall id | id in merged ensures id in db.public && merged[id] == db.public[id] {
      var row := db.public[id];
      assert row.owner == workspace.id && t.rows[id] == Moved(row, row.cells.Keys);
      MovedSame(row);
      PlusSame(row.cells, row.cells);
    }
    PlusSame(db.public, merged);
  }

  /** Merging a share back leaves the public table as it is. */
  lemma MergeShare(db: Db, after: Db, workspace: Workspace)
    requires Valid(db) && Ready(db.schemas, workspace) && after.public == db.public && after.columns == db.columns
    requires TableOf(after.schemas, workspace.schema) == Some(Share(db, workspace))
    ensures MergeOne(after, workspace) ==
            if NoExtraColumns(db, workspace) then Ok(after.(schemas := after.schemas - {workspace.schema}))
            else Err(UnknownColumn)
  {
    FinalColumnsCover(db, workspace);
    if NoExtraColumns(db, workspace) {
      assert FinalColumns(db.schemas, db.columns, workspace) == db.columns;
      MergedSame(db, workspace);
      assert MergedRows(after, Share(db, workspace), workspace) == MergedRows(db, Share(db, workspace), workspace);
    }
  }

  /** Some workspaces merged back: the same public table, and their schemas gone. */
  ghost predicate MergedBack(after: Db, workspaces: seq<Workspace>, back: Db) {
    && back == after.(schemas := back.schemas)
    && (forall n :: n in back.schemas <==> n in after.schemas && !IsWorkspaceSchema(workspaces, n))
    && (forall n :: n in back.schemas ==> back.schemas[n] == after.schemas[n])
  }

  lemma OneMoreMerged(db: Db, after: Db, front: seq<Workspace>, last: Workspace, prior: Db)
    requires Valid(db) && WorkspacesDistinct(front + [last]) && MergedBack(after, front, prior)
    requires Ready(db.schemas, last) && after.public == db.public && after.columns == db.columns
    requires TableOf(after.schemas, last.schema) == Some(Share(db, last))
    ensures MergeOne(prior, last).Ok? <==> NoExtraColumns(db, last)
    ensures MergeOne(prior, last).Ok? ==> MergedBack(after, front + [last], MergeOne(prior, last).value)
  {
    NotAmong(front, last);
    assert TableOf(prior.schemas, last.schema) == TableOf(after.schemas, last.schema);
    MergeShare(db, prior, last);
    forall n ensures IsWorkspaceSchema(front + [last], n) <==> IsWorkspaceSchema(front, n) || last.schema == n {
      SnocSchemas(front, last, n);
    }
  }

  /** What merging some shares back amounts to. */
  ghost predicate MergesTo(db: Db, after: Db, workspaces: seq<Workspace>, merged: Result<Db, Failure>) {
    (merged.Ok? <==> NoneHasExtras(db, workspaces)) && (merged.Ok? ==> MergedBack(after, workspaces, merged.value))
  }

  lemma {:induction false} MergeAllSnoc(db: Db, front: seq<Workspace>, last: Workspace)
    ensures MergeAll(db, front + [last]) ==
            if MergeAll(db, front).Err? then MergeAll(db, front) else MergeOne(MergeAll(db, front).value, last)
  {
    assert (front + [last])[..|front|] == front;
  }

  lemma {:induction false} MergesOneMore(db: Db, after: Db, front: seq<Workspace>, last: Workspace)
    requires Valid(db) && WorkspacesDistinct(front + [last]) && Ready(db.schemas, last)
    requires after.public == db.public && after.columns == db.columns
    requires TableOf(after.schemas, last.schema) == Some(Share(db, last))
    requires MergesTo(db, after, front, MergeAll(after, front))
    ensures MergesTo(db, after, front + [last], MergeAll(after, front + [last]))
  {
    SnocWorkspaces(db, front, last, after);
    MergeAllSnoc(after, front, last);
    if MergeAll(after, front).Ok? {
      OneMoreMerged(db, after, front, last, MergeAll(after, front).value);
    }
  }

  lemma {:induction false} MergesBack(db: Db, after: Db, workspaces: seq<Workspace>)
    requires Valid(db) && WorkspacesDistinct(workspaces) && AllReady(db, workspaces)
    requires after.public == db.public && after.columns == db.columns && HoldsShares(db, workspaces, after)
    ensures MergesTo(db, after, workspaces, MergeAll(after, workspaces))
  {
    if workspaces != [] {
      var front, last := workspaces[..|workspaces| - 1], workspaces[|workspaces| - 1];
      assert workspaces == front + [last];
      NotAmong(front, last);
      SnocWorkspaces(db, front, last, after);
      MergesBack(db, after, front);
      MergesOneMore(db, after, front, last);
    }
  }

  /**
   * An immediate downgrade succeeds exactly when no workspace table had a column of its own. It leaves
   * the public table as it was before the partition, drops the workspace schemas and keeps the others.
   */
  lemma UpgradeDowngrade(db: Db)
    requires Valid(db) && Upgraded(db).Ok?
    ensures Downgraded(Upgraded(db).value).Ok? <==> NoneHasExtras(db, db.workspaces)
    ensures Downgraded(Upgraded(db).value).Ok? ==>
              var back := Downgraded(Upgraded(db).value).value;
              && back == db.(schemas := back.schemas)
              && (forall n :: n in back.schemas <==> n in db.schemas && !IsWorkspaceSchema(db.workspaces, n))
              && (forall n :: n in back.schemas ==> back.schemas[n] == db.schemas[n])
  {
    UpgradeExactly(db);
    MergesBack(db, Upgraded(db).value, db.workspaces);
  }

  // ---------------------------------------------------------------- a downgrade after edits

  /**
   * Merging any workspace table, edited or not: its rows take over their public rows under the
   * workspace, columns it lacks keep their value, and a row deleted from it stays public as it was.
   */
  lemma UpsertMeaning(db: Db, workspace: Workspace, t: FieldTable, id: nat)
    requires PublicTyped(db) && TableTyped(t) && TableOf(db.schemas, workspace.schema) == Some(t)
    requires MergeOne(db, workspace).Ok?
    ensures var public := MergeOne(db, workspace).value.public;
            && (id in public <==> id in db.public || id in t.rows)
            && (id in db.public && id !in t.rows ==> public[id] == db.public[id])
            && (id in t.rows ==>
                  && public[id].owner == workspace.id && public[id].caseId == t.rows[id].caseId
                  && public[id].cells.Keys == db.columns
                  && (forall c :: c in t.columns ==> public[id].cells[c] == t.rows[id].cells[c])
                  && (forall c :: c in db.columns - t.columns ==>
                        (public[id].cells[c] == if id in db.public then db.public[id].cells[c] else None)))
  {}

  ghost predicate Holds(db: Db, workspace: Workspace, id: nat) {
    TableOf(db.schemas, workspace.schema).Some? && id in TableOf(db.schemas, workspace.schema).value.rows
  }

  /** The public row is the workspace's own: its owner, its case and every cell of the row. */
  ghost predicate TakenOver(public: map<nat, PublicRow>, db: Db, workspace: Workspace, id: nat)
    requires Holds(db, workspace, id)
  {
    var row := TableOf(db.schemas, workspace.schema).value.rows[id];
    && id in public && public[id].owner == workspace.id && public[id].caseId == row.caseId
    && (forall c :: c in row.cells ==> c in public[id].cells && public[id].cells[c] == row.cells[c])
  }

  /** The workspace is the last one of the list whose table holds the row. */
  ghost predicate LastHolder(db: Db, workspaces: seq<Workspace>, i: nat, id: nat) {
    && i < |workspaces| && Holds(db, workspaces[i], id)
    && forall j :: i < j < |workspaces| ==> !Holds(db, workspaces[j], id)
  }

  ghost predicate HeldByNone(db: Db, workspaces: seq<Workspace>, id: nat) {
    forall j :: 0 <= j < |workspaces| ==> !Holds(db, workspaces[j], id)
  }

  /** Both maps have the row, the same one, or neither has it. */
  ghost predicate SameRow(a: map<nat, PublicRow>, b: map<nat, PublicRow>, id: nat) {
    (id in a <==> id in b) && (id in a ==> a[id] == b[id])
  }

  lemma MergeOneRow(db: Db, workspace: Workspace, id: nat)
    requires MergeOne(db, workspace).Ok?
    ensures var public := MergeOne(db, workspace).value.public;
            if Holds(db, workspace, id) then TakenOver(public, db, workspace, id) else SameRow(public, db.public, id)
  {}

  lemma MergeOneFrame(db: Db, workspace: Workspace, name: string)
    requires MergeOne(db, workspace).Ok? && name != workspace.schema
    ensures TableOf(MergeOne(db, workspace).value.schemas, name) == TableOf(db.schemas, name)
  {}

  /** Merging some workspaces leaves the tables of the others as they are. */
  lemma {:induction false} MergeAllFrame(db: Db, workspaces: seq<Workspace>, name: string)
    requires MergeAll(db, workspaces).Ok? && !IsWorkspaceSchema(workspaces, name)
    ensures TableOf(MergeAll(db, workspaces).value.schemas, name) == TableOf(db.schemas, name)
    decreases |workspaces|
  {
    if workspaces != [] {
      var front, last := workspaces[..|workspaces| - 1], workspaces[|workspaces| - 1];
      assert workspaces == front + [last];
      SnocSchemas(front, last, name);
      MergeAllFrame(db, front, name);
      MergeOneFrame(MergeAll(db, front).value, last, name);
    }
  }

  /** After one more workspace, its own rows are taken over and all others are as they were. */
  lemma {:induction false} OneMoreMergedRow(db: Db, front: seq<Workspace>, last: Workspace, id: nat)
    requires WorkspacesDistinct(front + [last]) && MergeAll(db, front + [last]).Ok?
    ensures MergeAll(db, front).Ok?
    ensures var public := MergeAll(db, front + [last]).value.public;
            if Holds(db, last, id) then TakenOver(public, db, last, id)
            else SameRow(public, MergeAll(db, front).value.public, id)
  {
    MergeAllSnoc(db, front, last);
    NotAmong(front, last);
    MergeAllFrame(db, front, last.schema);
    MergeOneRow(MergeAll(db, front).value, last, id);
  }

  lemma {:induction false} LastHolderWins(db: Db, workspaces: seq<Workspace>, i: nat, id: nat)
    requires WorkspacesDistinct(workspaces) && MergeAll(db, workspaces).Ok? && LastHolder(db, workspaces, i, id)
    ensures TakenOver(MergeAll(db, workspaces).value.public, db, workspaces[i], id)
    decreases |workspaces|
  {
    var front, last := workspaces[..|workspaces| - 1], workspaces[|workspaces| - 1];
    assert workspaces == front + [last];
    OneMoreMergedRow(db, front, last, id);
    if i < |front| {
      NotAmong(front, last);
      LastHolderWins(db, front, i, id);
    }
  }

  lemma {:induction false} UnheldRowStays(db: Db, workspaces: seq<Workspace>, id: nat)
    requires WorkspacesDistinct(workspaces) && MergeAll(db, workspaces).Ok? && HeldByNone(db, workspaces, id)
    ensures SameRow(MergeAll(db, workspaces).value.public, db.public, id)
    decreases |workspaces|
  {
    if workspaces != [] {
      var front, last := workspaces[..|workspaces| - 1], workspaces[|workspaces| - 1];
      assert workspaces == front + [last];
      OneMoreMergedRow(db, front, last, id);
      NotAmong(front, last);
      UnheldRowStays(db, front, id);
    }
  }

  /**
   * A downgrade that succeeds after any edits of the workspace tables loses none of them: the last
   * workspace whose table holds a row decides its owner, its case and every cell of that row, and a
   * public row that no table holds any more stays as it was.
   */
  lemma DowngradeKeepsEdits(db: Db, id: nat)
    requires WorkspacesDistinct(db.workspaces) && Downgraded(db).Ok?
    ensures var public, workspaces := Downgraded(db).value.public, db.workspaces;
            && (forall i: nat :: LastHolder(db, workspaces, i, id) ==> TakenOver(public, db, workspaces[i], id))
            && (HeldByNone(db, workspaces, id) ==> SameRow(public, db.public, id))
  {
    var workspaces := db.workspaces;
    forall i: nat | LastHolder(db, workspaces, i, id)
      ensures TakenOver(Downgraded(db).value.public, db, workspaces[i], id)
    {
      LastHolderWins(db, workspaces, i, id);
    }
    if HeldByNone(db, workspaces, id) {
      UnheldRowStays(db, workspaces, id);
    }
  }
}
