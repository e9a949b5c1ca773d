/**
 * Replacing the hard-coded organization key under foreign keys that are found in the system catalogue:
 * migration `4ef4d2e1d57b`.
 */
module OrganizationKey {
  import opened Wrappers

  type Row = map<string, Option<string>>

  datatype Table = Table(schema: string, name: string, columns: set<string>, rows: seq<Row>)

  /** A single-column foreign key to `organization(id)`, with PostgreSQL's one-letter action codes. */
  datatype ForeignKey = ForeignKey(
    name: string, table: nat, column: string, onDelete: char, onUpdate: char, deferrable: bool)

  /** `organization` is the table at index `org`. */
  datatype Db = Db(tables: seq<Table>, org: nat, keys: seq<ForeignKey>)

  const DEFAULT_ORG := "00000000-0000-0000-0000-000000000000"

  // ---------------------------------------------------------------- constraint actions

  predicate IsActionCode(c: char) {
    c in "arcnd"
  }

  /** The words that the catalogue query puts for a code. */
  function ActionWords(c: char): string
    requires IsActionCode(c)
  {
    match c
    case 'a' => "NO ACTION"
    case 'r' => "RESTRICT"
    case 'c' => "CASCADE"
    case 'n' => "SET NULL"
    case _ => "SET DEFAULT"
  }

  /** The code that `ADD CONSTRAINT` stores for the words. */
  function ActionCode(words: string): char {
    if words == "NO ACTION" then 'a'
    else if words == "RESTRICT" then 'r'
    else if words == "CASCADE" then 'c'
    else if words == "SET NULL" then 'n'
    else 'd'
  }

  lemma ActionRoundTrip(c: char)
    requires IsActionCode(c)
    ensures ActionCode(ActionWords(c)) == c
  {
    var words := ActionWords(c);
    assert |words| == match c case 'a' => 9 case 'r' => 8 case 'c' => 7 case 'n' => 8 case _ => 11;
    assert words[0] == match c case 'a' => 'N' case 'r' => 'R' case 'c' => 'C' case 'n' => 'S' case _ => 'S';
  }

  /** A constraint dropped and added again: its name, columns and actions, and nothing else. */
  function Recreated(k: ForeignKey): ForeignKey
    requires IsActionCode(k.onDelete) && IsActionCode(k.onUpdate)
  {
    ForeignKey(k.name, k.table, k.column, ActionCode(ActionWords(k.onDelete)), ActionCode(ActionWords(k.onUpdate)), false)
  }

  // ---------------------------------------------------------------- tables

  function Rename(value: Option<string>, from: string, to: string): Option<string> {
    if value == Some(from) then Some(to) else value
  }

  function SetInRow(row: Row, column: string, from: string, to: string): Row {
    if column in row then row[column := Rename(row[column], from, to)] else row
  }

  /** `UPDATE t SET column = to WHERE column = from` */
  function SetInRows(rows: seq<Row>, column: string, from: string, to: string): seq<Row> {
    seq(|rows|, i requires 0 <= i < |rows| => SetInRow(rows[i], column, from, to))
  }

  /** The tables of `all_org_id_tables`. */
  predicate Rewrites(t: Table) {
    t.schema == "public" && "organization_id" in t.columns && t.name != "organization"
  }

  /** The column that the migration rewrites in the table at an index, if it rewrites any. */
  function RewrittenColumn(db: Db, t: nat): Option<string>
    requires t < |db.tables|
  {
    if t == db.org then Some("id") else if Rewrites(db.tables[t]) then Some("organization_id") else None
  }

  function RekeyedTable(db: Db, t: nat, to: string): Table
    requires t < |db.tables|
  {
    var column := RewrittenColumn(db, t);
    if column == None then db.tables[t]
    else db.tables[t].(rows := SetInRows(db.tables[t].rows, column.value, DEFAULT_ORG, to))
  }

  function RekeyedTables(db: Db, to: string): seq<Table> {
    seq(|db.tables|, t requires 0 <= t < |db.tables| => RekeyedTable(db, t, to))
  }

  predicate HasOrganization(t: Table, id: string) {
    exists i :: 0 <= i < |t.rows| && "id" in t.rows[i] && t.rows[i]["id"] == Some(id)
  }

  /** A row meets the foreign key: its column is NULL or names an organization. */
  predicate RowMeets(organization: Table, row: Row, column: string) {
    column in row && (row[column] == None || HasOrganization(organization, row[column].value))
  }

  predicate Meets(organization: Table, rows: seq<Row>, column: string) {
    forall i :: 0 <= i < |rows| ==> RowMeets(organization, rows[i], column)
  }

  ghost predicate KeyValid(db: Db, k: ForeignKey) {
    k.table < |db.tables| && IsActionCode(k.onDelete) && IsActionCode(k.onUpdate)
  }

  ghost predicate KeysValid(db: Db) {
    forall j :: 0 <= j < |db.keys| ==> KeyValid(db, db.keys[j])
  }

  ghost predicate KeyMet(db: Db, k: ForeignKey)
    requires k.table < |db.tables| && db.org < |db.tables|
  {
    Meets(db.tables[db.org], db.tables[k.table].rows, k.column)
  }

  ghost predicate KeysMet(db: Db)
    requires KeysValid(db) && db.org < |db.tables|
  {
    forall j :: 0 <= j < |db.keys| ==> KeyMet(db, db.keys[j])
  }

  ghost predicate RowsTyped(t: Table) {
    forall i :: 0 <= i < |t.rows| ==> t.rows[i].Keys == t.columns
  }

  ghost predicate Typed(db: Db) {
    && db.org < |db.tables| && "id" in db.tables[db.org].columns
    && (forall t :: 0 <= t < |db.tables| ==> RowsTyped(db.tables[t]))
  }

  /** A schema with its constraints in force. */
  ghost predicate Valid(db: Db) {
    Typed(db) && KeysValid(db) && KeysMet(db)
  }

  /** `uuid4()`: a value that no row holds. */
  ghost predicate Unused(db: Db, id: string) {
    forall t, i, c :: 0 <= t < |db.tables| && 0 <= i < |db.tables[t].rows| && c in db.tables[t].rows[i] ==>
      db.tables[t].rows[i][c] != Some(id)
  }

  ghost predicate Holds(rows: seq<Row>, column: string, id: string) {
    exists i :: 0 <= i < |rows| && column in rows[i] && rows[i][column] == Some(id)
  }

  /** The foreign key's column is rewritten, or does not hold the old key. */
  ghost predicate KeyFollows(db: Db, k: ForeignKey)
    requires k.table < |db.tables|
  {
    RewrittenColumn(db, k.table) == Some(k.column) || !Holds(db.tables[k.table].rows, k.column, DEFAULT_ORG)
  }

  ghost predicate KeysFollow(db: Db)
    requires KeysValid(db)
  {
    forall j :: 0 <= j < |db.keys| ==> KeyFollows(db, db.keys[j])
  }

  function RecreatedKeys(keys: seq<ForeignKey>): seq<ForeignKey>
    requires forall j :: 0 <= j < |keys| ==> IsActionCode(keys[j].onDelete) && IsActionCode(keys[j].onUpdate)
  {
    seq(|keys|, j requires 0 <= j < |keys| => Recreated(keys[j]))
  }

  function Rekeyed(db: Db, to: string): Db
    requires KeysValid(db)
  {
    Db(RekeyedTables(db, to), db.org, RecreatedKeys(db.keys))
  }

  // ---------------------------------------------------------------- which organizations exist afterwards

  lemma OrganizationsRenamed(db: Db, to: string, id: string)
    requires Typed(db) && Unused(db, to) && to != DEFAULT_ORG && HasOrganization(db.tables[db.org], DEFAULT_ORG)
    ensures HasOrganization(RekeyedTable(db, db.org, to), id) <==>
            id == to || (id != DEFAULT_ORG && HasOrganization(db.tables[db.org], id))
  {
    var before, after := db.tables[db.org].rows, RekeyedTable(db, db.org, to).rows;
    assert forall i :: 0 <= i < |before| ==> "id" in before[i] && "id" in after[i];
    assert forall i :: 0 <= i < |before| ==> after[i]["id"] == Rename(before[i]["id"], DEFAULT_ORG, to);
    if id == to {
      var i :| 0 <= i < |before| && "id" in before[i] && before[i]["id"] == Some(DEFAULT_ORG);
      assert after[i]["id"] == Some(to);
    } else if id != DEFAULT_ORG && HasOrganization(db.tables[db.org], id) {
      var i :| 0 <= i < |before| && "id" in before[i] && before[i]["id"] == Some(id);
      assert after[i]["id"] == Some(id);
    }
  }

  lemma CellAfter(db: Db, to: string, t: nat, i: nat, column: string)
    requires t < |db.tables| && i < |db.tables[t].rows| && column in db.tables[t].rows[i]
    ensures i < |RekeyedTable(db, t, to).rows| && column in RekeyedTable(db, t, to).rows[i]
    ensures RekeyedTable(db, t, to).rows[i][column] ==
            if RewrittenColumn(db, t) == Some(column) then Rename(db.tables[t].rows[i][column], DEFAULT_ORG, to)
            else db.tables[t].rows[i][column]
  {}

  /**
   * The one thing that changes: the old key, as an organization's id or in the `organization_id` of a
   * public table. Tables, rows and every other cell stay as they were.
   */
  lemma OnlyTheKeyMoves(db: Db, to: string, t: nat)
    requires Typed(db) && KeysValid(db) && t < |db.tables|
    ensures |Rekeyed(db, to).tables| == |db.tables|
    ensures var before, after := db.tables[t], Rekeyed(db, to).tables[t];
            && after == before.(rows := after.rows) && |after.rows| == |before.rows|
            && (forall i :: 0 <= i < |before.rows| ==> after.rows[i].Keys == before.rows[i].Keys)
            && (forall i, c :: 0 <= i < |before.rows| && c in before.rows[i] ==>
                  (after.rows[i][c] == Some(to) && before.rows[i][c] == Some(DEFAULT_ORG) &&
                   (if t == db.org then c == "id"
                    else c == "organization_id" && before.schema == "public" && before.name != "organization")) ||
                  (after.rows[i][c] == before.rows[i][c] &&
                   (before.rows[i][c] == Some(DEFAULT_ORG) && to != DEFAULT_ORG ==>
                    if t == db.org then c != "id"
                    else c != "organization_id" || before.schema != "public" || before.name == "organization")))
  {
    forall i, c | 0 <= i < |db.tables[t].rows| && c in db.tables[t].rows[i]
      ensures c in RekeyedTable(db, t, to).rows[i]
      ensures RekeyedTable(db, t, to).rows[i][c] ==
              if RewrittenColumn(db, t) == Some(c) then Rename(db.tables[t].rows[i][c], DEFAULT_ORG, to)
              else db.tables[t].rows[i][c]
    {
      CellAfter(db, to, t, i, c);
      assert RowsTyped(db.tables[t]) && db.tables[t].rows[i].Keys == db.tables[t].columns;
    }
  }

  /** Keys that are all `organization_id` columns of public tables always follow. */
  lemma PublicKeysFollow(db: Db)
    requires Typed(db) && KeysValid(db)
    requires forall j :: 0 <= j < |db.keys| ==>
               db.keys[j].table != db.org && db.keys[j].column == "organization_id" && Rewrites(db.tables[db.keys[j].table])
    ensures KeysFollow(db)
  {
    assert forall j :: 0 <= j < |db.keys| ==> KeyValid(db, db.keys[j]);
  }

  /** A foreign key can be added again exactly when its column follows the organization's new key. */
  lemma KeyMetAfter(db: Db, to: string, k: ForeignKey)
    requires Typed(db) && Unused(db, to) && to != DEFAULT_ORG && HasOrganization(db.tables[db.org], DEFAULT_ORG)
    requires KeyValid(db, k) && KeyMet(db, k)
    ensures Meets(RekeyedTable(db, db.org, to), RekeyedTable(db, k.table, to).rows, k.column) <==> KeyFollows(db, k)
  {
    var before, after := db.tables[k.table].rows, RekeyedTable(db, k.table, to).rows;
    var organization := RekeyedTable(db, db.org, to);
    forall i | 0 <= i < |before|
      ensures RowMeets(organization, after[i], k.column) <==>
              RewrittenColumn(db, k.table) == Some(k.column) || before[i][k.column] != Some(DEFAULT_ORG)
    {
      assert RowMeets(db.tables[db.org], before[i], k.column);
      CellAfter(db, to, k.table, i, k.column);
      if before[i][k.column].Some? {
        OrganizationsRenamed(db, to, before[i][k.column].value);
        OrganizationsRenamed(db, to, to);
      }
    }
    if !KeyFollows(db, k) {
      var i :| 0 <= i < |before| && k.column in before[i] && before[i][k.column] == Some(DEFAULT_ORG);
      assert !RowMeets(organization, after[i], k.column);
    }
  }

  lemma RecreatedSame(keys: seq<ForeignKey>)
    requires forall j :: 0 <= j < |keys| ==> IsActionCode(keys[j].onDelete) && IsActionCode(keys[j].onUpdate)
    ensures forall j :: 0 <= j < |keys| ==> RecreatedKeys(keys)[j] == keys[j].(deferrable := false)
    ensures RecreatedKeys(keys) == keys <==> forall j :: 0 <= j < |keys| ==> !keys[j].deferrable
  {
    forall j | 0 <= j < |keys| ensures RecreatedKeys(keys)[j] == keys[j].(deferrable := false) {
      ActionRoundTrip(keys[j].onDelete);
      ActionRoundTrip(keys[j].onUpdate);
    }
  }

  // ---------------------------------------------------------------- the outcome

  /** No column that the migration rewrites holds the old key any more. */
  ghost predicate OldKeyGone(db: Db) {
    forall t :: 0 <= t < |db.tables| && RewrittenColumn(db, t).Some? ==>
      !Holds(db.tables[t].rows, RewrittenColumn(db, t).value, DEFAULT_ORG)
  }

  /** A row belongs to the organization in row o of `organization`. */
  ghost predicate BelongsTo(db: Db, t: nat, i: nat, column: string, o: nat) {
    && t < |db.tables| && i < |db.tables[t].rows| && column in db.tables[t].rows[i]
    && db.org < |db.tables| && o < |db.tables[db.org].rows| && "id" in db.tables[db.org].rows[o]
    && db.tables[t].rows[i][column] == db.tables[db.org].rows[o]["id"]
  }

  /**
   * Adding every foreign key again succeeds exactly when each one's column follows the new key. Then
   * the constraints hold again under their names, columns and actions, though none stays deferrable.
   */
  lemma ReplacementSucceeds(db: Db, to: string)
    requires Valid(db) && Unused(db, to) && to != DEFAULT_ORG && HasOrganization(db.tables[db.org], DEFAULT_ORG)
    ensures KeysValid(Rekeyed(db, to))
    ensures KeysMet(Rekeyed(db, to)) <==> KeysFollow(db)
    ensures forall j :: 0 <= j < |db.keys| ==> Rekeyed(db, to).keys[j] == db.keys[j].(deferrable := false)
  {
    RecreatedSame(db.keys);
    var after := Rekeyed(db, to);
    forall j | 0 <= j < |db.keys| ensures KeyMet(after, after.keys[j]) <==> KeyFollows(db, db.keys[j]) {
      assert KeyValid(db, db.keys[j]) && KeyMet(db, db.keys[j]);
      KeyMetAfter(db, to, db.keys[j]);
    }
    if KeysMet(after) {
      forall j | 0 <= j < |db.keys| ensures KeyFollows(db, db.keys[j]) {
        assert KeyMet(after, after.keys[j]);
      }
    }
  }

  lemma OldKeyIsGone(db: Db, to: string)
    requires Typed(db) && KeysValid(db) && to != DEFAULT_ORG
    ensures OldKeyGone(Rekeyed(db, to))
  {
    var after := Rekeyed(db, to);
    forall t | 0 <= t < |after.tables| && RewrittenColumn(after, t).Some?
      ensures !Holds(after.tables[t].rows, RewrittenColumn(after, t).value, DEFAULT_ORG)
    {
      var column := RewrittenColumn(db, t).value;
      assert RewrittenColumn(after, t) == RewrittenColumn(db, t);
      forall i | 0 <= i < |after.tables[t].rows| && column in after.tables[t].rows[i]
        ensures after.tables[t].rows[i][column] != Some(DEFAULT_ORG)
      {
        CellAfter(db, to, t, i, column);
      }
    }
  }

  /** Every row belongs to the same organization as before, through every foreign key. */
  lemma MembershipKept(db: Db, to: string, k: ForeignKey, i: nat, o: nat)
    requires Valid(db) && Unused(db, to) && to != DEFAULT_ORG && KeyValid(db, k) && KeyMet(db, k) && KeyFollows(db, k)
    requires i < |db.tables[k.table].rows| && o < |db.tables[db.org].rows|
    ensures BelongsTo(Rekeyed(db, to), k.table, i, k.column, o) <==> BelongsTo(db, k.table, i, k.column, o)
  {
    assert RowMeets(db.tables[db.org], db.tables[k.table].rows[i], k.column);
    CellAfter(db, to, k.table, i, k.column);
    CellAfter(db, to, db.org, o, "id");
  }

  /** Without a default organization nothing is touched; `migrated` is nothing where a constraint fails. */
  ghost predicate Outcome(db: Db, to: string, migrated: Option<Db>)
    requires Valid(db)
  {
    if !HasOrganization(db.tables[db.org], DEFAULT_ORG) then migrated == Some(db)
    else migrated == if KeysFollow(db) then Some(Rekeyed(db, to)) else None
  }

  ghost predicate InRange(tables: seq<Table>, keys: seq<ForeignKey>) {
    forall j :: 0 <= j < |keys| ==> keys[j].table < |tables|
  }

  /** Every row meets every constraint. */
  ghost predicate AllMet(tables: seq<Table>, org: nat, keys: seq<ForeignKey>)
    requires org < |tables| && InRange(tables, keys)
  {
    forall j :: 0 <= j < |keys| ==> Meets(tables[org], tables[keys[j].table].rows, keys[j].column)
  }

  lemma KeysInRange(db: Db)
    requires KeysValid(db)
    ensures forall j :: 0 <= j < |db.keys| ==> IsActionCode(db.keys[j].onDelete) && IsActionCode(db.keys[j].onUpdate)
    ensures InRange(db.tables, RecreatedKeys(db.keys))
  {
    assert forall j :: 0 <= j < |db.keys| ==> KeyValid(db, db.keys[j]);
  }

  lemma AllMetAgain(db: Db, to: string)
    requires Valid(db) && Unused(db, to) && to != DEFAULT_ORG && HasOrganization(db.tables[db.org], DEFAULT_ORG)
    ensures InRange(RekeyedTables(db, to), Rekeyed(db, to).keys)
    ensures AllMet(RekeyedTables(db, to), db.org, Rekeyed(db, to).keys) <==> KeysFollow(db)
  {
    ReplacementSucceeds(db, to);
    KeysInRange(db);
    var after := Rekeyed(db, to);
    if KeysMet(after) {
      forall j | 0 <= j < |after.keys|
        ensures Meets(after.tables[after.org], after.tables[after.keys[j].table].rows, after.keys[j].column)
      {
        assert KeyMet(after, after.keys[j]);
      }
    }
    if AllMet(after.tables, after.org, after.keys) {
      forall j | 0 <= j < |after.keys| ensures KeyMet(after, after.keys[j]) {}
    }
  }

  // ---------------------------------------------------------------- in place

  /** The tables and constraints, updated statement by statement. */
  class Database {
    var tables: seq<Table>
    var keys: seq<ForeignKey>
    const org: nat

    constructor (db: Db)
      ensures Contents() == db
    {
      tables, keys, org := db.tables, db.keys, db.org;
    }

    ghost function Contents(): Db
      reads this
    {
      Db(tables, org, keys)
    }

    /** One `UPDATE` for the primary key, then one for each table with an `organization_id`. */
    method UpdateTables(to: string)
      requires org < |tables|
      modifies this`tables
      ensures tables == RekeyedTables(old(Contents()), to)
    {
      ghost var before := Contents();
      tables := tables[org := tables[org].(rows := SetInRows(tables[org].rows, "id", DEFAULT_ORG, to))];
      for t := 0 to |tables|
        invariant |tables| == |before.tables| && org < |tables|
        invariant tables[org] == RekeyedTable(before, org, to)
        invariant forall j :: 0 <= j < t ==> tables[j] == RekeyedTable(before, j, to)
        invariant forall j :: t <= j < |tables| && j != org ==> tables[j] == before.tables[j]
      {
        if t != org && Rewrites(tables[t]) {
          tables := tables[t := tables[t].(rows := SetInRows(tables[t].rows, "organization_id", DEFAULT_ORG, to))];
        }
      }
      assert tables == RekeyedTables(before, to);
    }

    /** `ALTER TABLE … ADD CONSTRAINT`, which checks every row of the table. */
    method AddKey(k: ForeignKey) returns (ok: bool)
      requires k.table < |tables| && org < |tables|
      modifies this`keys
      ensures ok <==> Meets(tables[org], tables[k.table].rows, k.column)
      ensures keys == if ok then old(keys) + [k] else old(keys)
    {
      var rows := tables[k.table].rows;
      for i := 0 to |rows|
        invariant keys == old(keys) && forall j :: 0 <= j < i ==> RowMeets(tables[org], rows[j], k.column)
      {
        if !RowMeets(tables[org], rows[i], k.column) {
          return false;
        }
      }
      keys := keys + [k];
      return true;
    }

    /** The loop that adds the constraints again. */
    method AddKeys(again: seq<ForeignKey>) returns (ok: bool)
      requires org < |tables| && keys == [] && InRange(tables, again)
      modifies this`keys
      ensures ok <==> AllMet(tables, org, again)
      ensures ok ==> keys == again
    {
      for j := 0 to |again|
        invariant keys == again[..j]
        invariant forall i :: 0 <= i < j ==> Meets(tables[org], tables[again[i].table].rows, again[i].column)
      {
        ok := AddKey(again[j]);
        if !ok {
          return false;
        }
      }
      return true;
    }

    /** `upgrade`; a constraint that cannot be added again rolls the transaction back. */
    method Upgrade(to: string) returns (ok: bool)
      requires Valid(Contents()) && Unused(Contents(), to) && to != DEFAULT_ORG
      modifies this
      ensures Outcome(old(Contents()), to, if ok then Some(Contents()) else None)
      ensures !ok ==> Contents() == old(Contents())
    {
      ghost var before := Contents();
      if !HasOrganization(tables[org], DEFAULT_ORG) {
        return true;
      }
      var tables0, keys0 := tables, keys;
      AllMetAgain(before, to);
      KeysInRange(before);
      keys := [];
      UpdateTables(to);
      assert tables == Rekeyed(before, to).tables && RecreatedKeys(keys0) == Rekeyed(before, to).keys;
      ok := AddKeys(RecreatedKeys(keys0));
      assert ok ==> Contents() == Rekeyed(before, to);
      assert ok <==> KeysFollow(before);
      if !ok {
        tables, keys := tables0, keys0;
      }
    }
  }
}
