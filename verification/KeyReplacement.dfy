/** What migration `4ef4d2e1d57b` does to every cell and constraint. */
module KeyReplacement {
  import opened OrganizationKey
  import opened Wrappers

  /** A cell that the migration rewrites: an organization's id, or the `organization_id` of another public table. */
  ghost predicate IsRewritten(db: Db, t: nat, column: string)
    requires t < |db.tables|
  {
    if t == db.org then column == "id"
    else
      && column == "organization_id" && column in db.tables[t].columns
      && db.tables[t].schema == "public" && db.tables[t].name != "organization"
  }

  ghost predicate HoldsAt(db: Db, t: nat, i: nat, column: string, id: string) {
    && t < |db.tables| && i < |db.tables[t].rows| && column in db.tables[t].rows[i]
    && db.tables[t].rows[i][column] == Some(id)
  }

  /** Some organization has the hard-coded key. */
  ghost predicate HasDefault(db: Db) {
    exists i: nat :: HoldsAt(db, db.org, i, "id", "00000000-0000-0000-0000-000000000000")
  }

  /** The cell of a foreign key is NULL or some organization's id. */
  ghost predicate Refers(db: Db, t: nat, i: nat, column: string)
    requires t < |db.tables| && i < |db.tables[t].rows|
  {
    && column in db.tables[t].rows[i]
    && (db.tables[t].rows[i][column].Some? ==>
          exists o: nat :: HoldsAt(db, db.org, o, "id", db.tables[t].rows[i][column].value))
  }

  ghost predicate KeyInForce(db: Db, k: ForeignKey) {
    && k.table < |db.tables|
    && k.onDelete in {'a', 'r', 'c', 'n', 'd'} && k.onUpdate in {'a', 'r', 'c', 'n', 'd'}
    && forall i: nat :: i < |db.tables[k.table].rows| ==> Refers(db, k.table, i, k.column)
  }

  /** Rows of one shape per table, organizations with an id, and all foreign keys in force. */
  ghost predicate WellFormed(db: Db) {
    && db.org < |db.tables| && "id" in db.tables[db.org].columns
    && (forall t, i :: 0 <= t < |db.tables| && 0 <= i < |db.tables[t].rows| ==>
          db.tables[t].rows[i].Keys == db.tables[t].columns)
    && (forall j :: 0 <= j < |db.keys| ==> KeyInForce(db, db.keys[j]))
  }

  lemma HasOrganizationExactly(db: Db, id: string)
    requires db.org < |db.tables|
    ensures HasOrganization(db.tables[db.org], id) <==> exists i: nat :: HoldsAt(db, db.org, i, "id", id)
  {
    var rows := db.tables[db.org].rows;
    if exists i: nat :: HoldsAt(db, db.org, i, "id", id) {
      var i: nat :| HoldsAt(db, db.org, i, "id", id);
      assert "id" in rows[i] && rows[i]["id"] == Some(id);
    }
    if HasOrganization(db.tables[db.org], id) {
      var i: nat :| i < |rows| && "id" in rows[i] && rows[i]["id"] == Some(id);
      assert HoldsAt(db, db.org, i, "id", id);
    }
  }

  lemma KeyInForceIsMet(db: Db, k: ForeignKey)
    requires db.org < |db.tables| && KeyInForce(db, k)
    ensures KeyValid(db, k) && KeyMet(db, k)
  {
    var rows := db.tables[k.table].rows;
    forall i: nat | i < |rows| ensures RowMeets(db.tables[db.org], rows[i], k.column) {
      assert Refers(db, k.table, i, k.column);
      if rows[i][k.column].Some? {
        HasOrganizationExactly(db, rows[i][k.column].value);
      }
    }
  }

  lemma WellFormedIsValid(db: Db)
    requires WellFormed(db)
    ensures Valid(db)
  {
    forall j | 0 <= j < |db.keys| ensures KeyValid(db, db.keys[j]) && KeyMet(db, db.keys[j]) {
      KeyInForceIsMet(db, db.keys[j]);
    }
  }

  /** The foreign key's column is rewritten, or holds the hard-coded key in no row. */
  ghost predicate Follows(db: Db, k: ForeignKey)
    requires k.table < |db.tables|
  {
    || IsRewritten(db, k.table, k.column)
    || forall i: nat :: !HoldsAt(db, k.table, i, k.column, "00000000-0000-0000-0000-000000000000")
  }

  lemma RewrittenExactly(db: Db, t: nat, column: string)
    requires t < |db.tables|
    ensures RewrittenColumn(db, t) == Some(column) <==> IsRewritten(db, t, column)
  {}

  lemma FollowsExactly(db: Db, k: ForeignKey)
    requires k.table < |db.tables|
    ensures KeyFollows(db, k) <==> Follows(db, k)
  {
    RewrittenExactly(db, k.table, k.column);
    var rows := db.tables[k.table].rows;
    var id := "00000000-0000-0000-0000-000000000000";
    assert forall i: nat :: HoldsAt(db, k.table, i, k.column, id) <==>
      i < |rows| && k.column in rows[i] && rows[i][k.column] == Some(id);
  }

  /** Every rewritten cell that held the hard-coded key holds the new one, and every other cell what it held. */
  ghost predicate CellsReplaced(db: Db, to: string, after: Db) {
    && |after.tables| == |db.tables|
    && (forall t: nat :: t < |db.tables| ==>
          && after.tables[t] == db.tables[t].(rows := after.tables[t].rows)
          && |after.tables[t].rows| == |db.tables[t].rows|)
    && (forall t: nat, i: nat, c :: t < |db.tables| && i < |db.tables[t].rows| ==>
          (c in after.tables[t].rows[i] <==> c in db.tables[t].rows[i]))
    && (forall t: nat, i: nat, c :: t < |db.tables| && i < |db.tables[t].rows| && c in db.tables[t].rows[i] ==>
          c in after.tables[t].rows[i] &&
          after.tables[t].rows[i][c] ==
          (if IsRewritten(db, t, c) && db.tables[t].rows[i][c] == Some("00000000-0000-0000-0000-000000000000")
           then Some(to) else db.tables[t].rows[i][c]))
  }

  lemma CellsAreReplaced(db: Db, to: string)
    requires Typed(db) && KeysValid(db)
    ensures CellsReplaced(db, to, Rekeyed(db, to))
  {
    var after := Rekeyed(db, to);
    forall t: nat | t < |db.tables|
      ensures after.tables[t] == db.tables[t].(rows := after.tables[t].rows)
      ensures |after.tables[t].rows| == |db.tables[t].rows|
    {
      OnlyTheKeyMoves(db, to, t);
    }
    forall t: nat, i: nat, c | t < |db.tables| && i < |db.tables[t].rows|
      ensures c in after.tables[t].rows[i] <==> c in db.tables[t].rows[i]
    {
      OnlyTheKeyMoves(db, to, t);
      assert after.tables[t].rows[i].Keys == db.tables[t].rows[i].Keys;
    }
    forall t: nat, i: nat, c | t < |db.tables| && i < |db.tables[t].rows| && c in db.tables[t].rows[i]
      ensures c in after.tables[t].rows[i]
      ensures after.tables[t].rows[i][c] ==
              if IsRewritten(db, t, c) && db.tables[t].rows[i][c] == Some("00000000-0000-0000-0000-000000000000")
              then Some(to) else db.tables[t].rows[i][c]
    {
      CellAfter(db, to, t, i, c);
      RewrittenExactly(db, t, c);
    }
  }

  /**
   * Without an organization under the hard-coded key nothing happens. Otherwise the upgrade succeeds exactly if
   * the column of every foreign key follows; then the key is replaced cell by cell, and the foreign keys are
   * back under their names, columns and actions, none of them deferrable.
   */
  lemma UpgradeExactly(db: Db, to: string, migrated: Option<Db>)
    requires WellFormed(db) && Unused(db, to) && to != "00000000-0000-0000-0000-000000000000"
    ensures Valid(db)
    ensures Outcome(db, to, migrated) && !HasDefault(db) ==> migrated == Some(db)
    ensures Outcome(db, to, migrated) && HasDefault(db) ==>
              (migrated.Some? <==> forall j :: 0 <= j < |db.keys| ==> Follows(db, db.keys[j]))
    ensures Outcome(db, to, migrated) && HasDefault(db) && migrated.Some? ==>
              var after := migrated.value;
              && CellsReplaced(db, to, after) && after.org == db.org && |after.keys| == |db.keys|
              && (forall j :: 0 <= j < |db.keys| ==> after.keys[j] == db.keys[j].(deferrable := false))
  {
    WellFormedIsValid(db);
    HasOrganizationExactly(db, "00000000-0000-0000-0000-000000000000");
    forall j | 0 <= j < |db.keys| ensures KeyFollows(db, db.keys[j]) <==> Follows(db, db.keys[j]) {
      assert KeyValid(db, db.keys[j]);
      FollowsExactly(db, db.keys[j]);
    }
    if Outcome(db, to, migrated) && HasDefault(db) && migrated.Some? {
      CellsAreReplaced(db, to);
      ReplacementSucceeds(db, to);
    }
  }
}
