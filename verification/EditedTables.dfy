/**
 * Migration `b5fc4168fe22` on tables that users go on working with: which names and comments the upgrade
 * writes, when it fails, and what a downgrade returns for a table that was edited after the upgrade.
 */
module EditedTables {
  import opened Decimals
  import opened ReservedColumns
  import opened Wrappers

  // ---------------------------------------------------------------- names handed out

  /** The k-th name that is tried for the column `__tc_` + rest. */
  function Target(rest: string, k: nat): string {
    if k == 0 then "migrated_tc_" + rest else "migrated_tc_" + rest + "_" + Decimal(k)
  }

  lemma TargetIsCandidate(rest: string, k: nat)
    ensures Reserved("__tc_" + rest) && Candidate("__tc_" + rest, k) == Target(rest, k)
  {
    assert ("__tc_" + rest)[2..] == "tc_" + rest;
    assert "migrated_" + ("tc_" + rest) == "migrated_tc_" + rest;
  }

  ghost predicate FirstFree(existing: set<string>, rest: string, name: string) {
    exists n: nat :: && name == Target(rest, n) && name !in existing
                     && forall k: nat :: k < n ==> Target(rest, k) in existing
  }

  lemma {:induction false} FreshIsFirst(existing: set<string>, name: string, k: nat) returns (n: nat)
    requires forall j :: 0 <= j < k ==> Candidate(name, j) in existing
    ensures FreshFrom(existing, name, k) == Candidate(name, n) && Candidate(name, n) !in existing
    ensures forall j :: 0 <= j < n ==> Candidate(name, j) in existing
    decreases |existing| + 1 - k
  {
    CandidatesFit(existing, name, k);
    if Candidate(name, k) !in existing {
      n := k;
    } else {
      CandidatesFit(existing, name, k + 1);
      n := FreshIsFirst(existing, name, k + 1);
    }
  }

  lemma FreshNameExactly(existing: set<string>, rest: string)
    ensures FirstFree(existing, rest, FreshName(existing, "__tc_" + rest))
  {
    var n := FreshIsFirst(existing, "__tc_" + rest, 0);
    forall k: nat ensures Candidate("__tc_" + rest, k) == Target(rest, k) {
      TargetIsCandidate(rest, k);
    }
  }

  /** The columns after the loop's turn at column i. */
  function AfterTurn(c: Codec, columns: seq<Column>, i: nat): (next: seq<Column>)
    requires i < |columns|
    ensures |next| == |columns| && next[i + 1..] == columns[i + 1..]
    ensures RenamedColumns(c, columns, i) == RenamedColumns(c, next, i + 1)
  {
    var col := columns[i];
    var col' := if !Reserved(col.name) then col
                else Column(FreshName(Names(columns), col.name),
                            Some(RenameComment(c, col.name, col.comment)), col.cells);
    columns[i := col']
  }

  lemma AtOwnTurn(c: Codec, columns: seq<Column>, i: nat, after: seq<Column>)
    requires i < |columns| && Reserved(columns[i].name) && after == RenamedColumns(c, columns, i)
    ensures after[i] == Column(FreshName(Names(after[..i] + columns[i..]), columns[i].name),
                               Some(RenameComment(c, columns[i].name, columns[i].comment)), columns[i].cells)
  {
    assert after[..i] + columns[i..] == columns by {
      RenamedPrefix(c, columns, i);
    }
    HandedOut(c, columns, i, after);
  }

  lemma TailsAlike(columns: seq<Column>, next: seq<Column>, i: nat, j: nat)
    requires i < j < |columns| == |next| && next[i + 1..] == columns[i + 1..]
    ensures next[j..] == columns[j..] && next[j] == columns[j]
  {
    assert next[j..] == next[i + 1..][j - i - 1..] == columns[i + 1..][j - i - 1..] == columns[j..];
    assert next[j] == next[j..][0] == columns[j..][0] == columns[j];
  }

  /** When the loop reaches column j, the columns before j have their final form and the others their first. */
  lemma {:induction false} NameAtTurn(c: Codec, columns: seq<Column>, i: nat, j: nat, after: seq<Column>)
    requires i <= j < |columns| && Reserved(columns[j].name) && after == RenamedColumns(c, columns, i)
    ensures after[j] == Column(FreshName(Names(after[..j] + columns[j..]), columns[j].name),
                               Some(RenameComment(c, columns[j].name, columns[j].comment)), columns[j].cells)
    decreases j - i
  {
    if i == j {
      AtOwnTurn(c, columns, i, after);
    } else {
      var next := AfterTurn(c, columns, i);
      TailsAlike(columns, next, i, j);
      NameAtTurn(c, next, i + 1, j, after);
    }
  }

  /** What the upgrade makes of column i, given the names in use when it reaches it. */
  ghost predicate MovedAside(c: Codec, col: Column, inUse: set<string>, r: Column) {
    if "__tc_" <= col.name then
      && r.cells == col.cells && FirstFree(inUse, col.name[5..], r.name)
      && r.comment == Some("tracecat:b5fc4168fe22:legacy-internal-column:" + c.dump((col.name, col.comment)))
    else r == col
  }

  /**
   * An upgrade gives every column `__tc_x` the first unused of the names `migrated_tc_x`, `migrated_tc_x_1`,
   * `migrated_tc_x_2` and so on, and writes its name and comment into its comment; it leaves the other
   * columns alone, and appends the tenant column with the workspace in every row.
   */
  lemma UpgradedExactly(c: Codec, t: Table, workspace: string, r: Table)
    requires DistinctNames(t.columns) && Upgraded(c, t, workspace) == Ok(r)
    ensures |r.columns| == |t.columns| + 1 && r.rows == t.rows && r.kind == t.kind
    ensures r.columns[|t.columns|] == Column("__tc_workspace_id", None, seq(t.rows, _ => Some(workspace)))
    ensures forall i :: 0 <= i < |t.columns| ==>
              MovedAside(c, t.columns[i], Names(r.columns[..i] + t.columns[i..]), r.columns[i])
  {
    var after := RenamedColumns(c, t.columns, 0);
    UpgradeShape(c, t, workspace);
    forall i | 0 <= i < |t.columns|
      ensures MovedAside(c, t.columns[i], Names(r.columns[..i] + t.columns[i..]), r.columns[i])
    {
      var col := t.columns[i];
      assert RenamesColumn(c, t.columns, i, after[i]);
      assert r.columns[..i] == after[..i];
      if "__tc_" <= col.name {
        assert col.name == "__tc_" + col.name[5..];
        NameAtTurn(c, t.columns, 0, i, after);
        FreshNameExactly(Names(after[..i] + t.columns[i..]), col.name[5..]);
      }
    }
  }

  /** A comment is a marker exactly if it is the literal prefix and a text that reads as a name and a comment. */
  lemma MarkerExactly(c: Codec, comment: Option<string>, original: (string, Option<string>))
    ensures ParseComment(c, comment) == Some(original) <==>
            exists text: string :: comment == Some("tracecat:b5fc4168fe22:legacy-internal-column:" + text) &&
                                   c.load(text) == Some(original)
  {
    var prefix := "tracecat:b5fc4168fe22:legacy-internal-column:";
    if ParseComment(c, comment) == Some(original) {
      assert comment.value == prefix + comment.value[|prefix|..];
    }
    if text: string :| comment == Some(prefix + text) && c.load(text) == Some(original) {
      assert comment.value[|prefix|..] == text;
    }
  }

  // ---------------------------------------------------------------- when the upgrade fails

  /** Some column from i on has a metadata row under its name, and another has its new name already. */
  ghost predicate Blocked(t: Table, after: seq<Column>, i: nat)
    requires |after| == |t.columns|
  {
    t.kind == TableRows &&
    exists j :: && i <= j < |after| && "__tc_" <= t.columns[j].name
                && t.columns[j].name in t.keys && after[j].name in t.keys
  }

  /** Moving the entry of column i aside blocks and frees no later column. */
  lemma BlockedLater(c: Codec, original: seq<Column>, t: Table, t': Table, after: seq<Column>, i: nat)
    requires Progress(c, original, t.columns, i) && Renames(c, original, after) && i < |t.columns|
    requires Reserved(t.columns[i].name) && t.kind == t'.kind && t'.columns == t.columns[i := after[i]]
    requires RenameKey(t.kind, t.keys, t.columns[i].name, after[i].name) == Ok(t'.keys)
    requires after[i].name !in Names(t.columns)
    ensures Blocked(t', after, i + 1) <==> Blocked(t, after, i + 1)
  {
    forall j | i < j < |after| && Reserved(t.columns[j].name)
      ensures t'.columns[j].name in t'.keys <==> t.columns[j].name in t.keys
      ensures after[j].name in t'.keys <==> after[j].name in t.keys
    {
      assert t.columns[j] == t.columns[i..][j - i] == original[i..][j - i] == original[j];
      assert RenamesColumn(c, original, j, after[j]);
      assert t.columns[j].name in Names(t.columns);
    }
  }

  /** The loop skips an ordinary column. */
  lemma OrdinaryTurn(c: Codec, original: seq<Column>, after: seq<Column>, t: Table, i: nat)
    requires Progress(c, original, t.columns, i) && RenamedColumns(c, t.columns, i) == after
    requires i < |t.columns| && !Reserved(t.columns[i].name)
    ensures Progress(c, original, t.columns, i + 1) && RenamedColumns(c, t.columns, i + 1) == after
    ensures Blocked(t, after, i) <==> Blocked(t, after, i + 1)
    ensures RenameFrom(c, t, i) == RenameFrom(c, t, i + 1)
  {
    assert t.columns[i] == t.columns[i..][0] == original[i..][0] == original[i];
    assert t.columns[i := t.columns[i]] == t.columns;
    assert t.columns[i + 1..] == t.columns[i..][1..] == original[i + 1..];
  }

  /** The loop moves a reserved column aside, or fails on its metadata. */
  lemma ReservedTurn(c: Codec, original: seq<Column>, after: seq<Column>, t: Table, i: nat) returns (t': Table)
    requires Progress(c, original, t.columns, i) && Renames(c, original, after)
    requires RenamedColumns(c, t.columns, i) == after && i < |t.columns| && Reserved(t.columns[i].name)
    requires RenameKey(t.kind, t.keys, t.columns[i].name, after[i].name).Ok?
    ensures Progress(c, original, t'.columns, i + 1) && RenamedColumns(c, t'.columns, i + 1) == after
    ensures |t'.columns| == |t.columns| && (Blocked(t', after, i + 1) <==> Blocked(t, after, i + 1))
    ensures RenameFrom(c, t, i) == RenameFrom(c, t', i + 1)
  {
    HandedOut(c, t.columns, i, after);
    t' := RenameTurn(c, t, i, after[i]);
    RenameProgresses(c, original, t.columns, i, after[i].name);
    BlockedLater(c, original, t, t', after, i);
  }

  lemma FailingTurn(c: Codec, after: seq<Column>, t: Table, i: nat)
    requires i < |t.columns| && Reserved(t.columns[i].name) && RenamedColumns(c, t.columns, i) == after
    ensures |after| == |t.columns| && after[i].name !in Names(t.columns)
    ensures RenameKey(t.kind, t.keys, t.columns[i].name, after[i].name).Err? ==> RenameFrom(c, t, i).Err?
  {
    HandedOut(c, t.columns, i, after);
  }

  lemma BlockedHere(t: Table, after: seq<Column>, i: nat)
    requires i < |after| == |t.columns| && Reserved(t.columns[i].name) && after[i].name !in Names(t.columns)
    ensures Blocked(t, after, i) <==>
            RenameKey(t.kind, t.keys, t.columns[i].name, after[i].name).Err? || Blocked(t, after, i + 1)
  {
    assert t.columns[i].name in Names(t.columns);
  }

  lemma {:induction false} RenameSucceeds(c: Codec, original: seq<Column>, after: seq<Column>, t: Table, i: nat)
    requires Progress(c, original, t.columns, i) && Renames(c, original, after)
    requires RenamedColumns(c, t.columns, i) == after
    ensures RenameFrom(c, t, i).Ok? <==> !Blocked(t, after, i)
    decreases |t.columns| - i
  {
    if i < |t.columns| {
      if Reserved(t.columns[i].name) {
        FailingTurn(c, after, t, i);
        BlockedHere(t, after, i);
        if RenameKey(t.kind, t.keys, t.columns[i].name, after[i].name).Ok? {
          var t' := ReservedTurn(c, original, after, t, i);
          RenameSucceeds(c, original, after, t', i + 1);
        }
      } else {
        OrdinaryTurn(c, original, after, t, i);
        RenameSucceeds(c, original, after, t, i + 1);
      }
    }
  }

  /**
   * The upgrade fails exactly where the metadata are rows and some reserved column has a row while another
   * row already has the column's new name.
   */
  lemma UpgradeSucceeds(c: Codec, t: Table, workspace: string)
    requires DistinctNames(t.columns)
    ensures Upgraded(c, t, workspace).Ok? <==> !Blocked(t, RenamedColumns(c, t.columns, 0), 0)
  {
    RenamedColumnsRename(c, t.columns, t.columns, 0);
    RenameSucceeds(c, t.columns, RenamedColumns(c, t.columns, 0), t, 0);
  }

  // ---------------------------------------------------------------- dropping the tenant column

  lemma {:induction false} DropsTenant(front: seq<Column>, tenant: Column, rest: seq<Column>)
    requires tenant.name == "__tc_workspace_id" && forall i :: 0 <= i < |front| ==> front[i].name != "__tc_workspace_id"
    ensures WithoutTenant(front + [tenant] + rest) == front + rest
  {
    if front == [] {
      assert [] + [tenant] + rest == [tenant] + rest && ([tenant] + rest)[1..] == rest;
    } else {
      DropsTenant(front[1..], tenant, rest);
      assert (front + [tenant] + rest)[1..] == front[1..] + [tenant] + rest;
      assert [front[0]] + (front[1..] + rest) == front + rest;
    }
  }

  lemma {:induction false} DropsNothing(columns: seq<Column>)
    requires forall i :: 0 <= i < |columns| ==> columns[i].name != "__tc_workspace_id"
    ensures WithoutTenant(columns) == columns
  {
    if columns != [] {
      DropsNothing(columns[1..]);
      assert [columns[0]] + columns[1..] == columns;
    }
  }

  lemma SplitAt<T>(s: seq<T>, i: nat) returns (front: seq<T>, at: T, rest: seq<T>)
    requires i < |s|
    ensures s == front + [at] + rest && front == s[..i] && at == s[i] && rest == s[i + 1..]
  {
    front, at, rest := s[..i], s[i], s[i + 1..];
  }

  lemma DropsAt(columns: seq<Column>, i: nat)
    requires i < |columns| && columns[i].name == "__tc_workspace_id" && DistinctNames(columns)
    ensures WithoutTenant(columns) == columns[..i] + columns[i + 1..]
  {
    var front, tenant, rest := SplitAt(columns, i);
    DropsTenant(front, tenant, rest);
  }

  /** Where no column is the tenant column nothing is dropped; otherwise that column alone is, wherever it stands. */
  lemma TenantDropped(columns: seq<Column>)
    requires DistinctNames(columns)
    ensures "__tc_workspace_id" !in Names(columns) ==> WithoutTenant(columns) == columns
    ensures forall i :: 0 <= i < |columns| && columns[i].name == "__tc_workspace_id" ==>
              WithoutTenant(columns) == columns[..i] + columns[i + 1..]
  {
    if "__tc_workspace_id" !in Names(columns) {
      assert forall i :: 0 <= i < |columns| ==> columns[i].name in Names(columns);
      DropsNothing(columns);
    }
    forall i | 0 <= i < |columns| && columns[i].name == "__tc_workspace_id"
      ensures WithoutTenant(columns) == columns[..i] + columns[i + 1..]
    {
      DropsAt(columns, i);
    }
  }

  // ---------------------------------------------------------------- downgrading an edited table

  /** The columns with the cells that others have, position by position. */
  function WithCells(columns: seq<Column>, edited: seq<Column>): seq<Column>
    requires |columns| <= |edited|
  {
    seq(|columns|, i requires 0 <= i < |columns| => columns[i].(cells := edited[i].cells))
  }

  /** Columns that users add: their names are not reserved and not in use, and their comments are no markers. */
  ghost predicate Added(c: Codec, columns: seq<Column>, added: seq<Column>) {
    && DistinctNames(added) && (forall i :: 0 <= i < |columns| ==> columns[i].name !in Names(added))
    && (forall i :: 0 <= i < |added| ==>
          !("__tc_" <= added[i].name) && added[i].comment != Some("") && !Marked(c, added[i]))
  }

  ghost predicate KeysKept(added: seq<Column>, before: map<string, string>, after: map<string, string>) {
    forall k :: k !in Names(added) ==> SameKey(k, before, after)
  }

  /**
   * A table after edits: any rows and cells, columns added behind the others, and metadata changed under the
   * names of added columns only.
   */
  ghost predicate Edited(c: Codec, u: Table, e: Table) {
    && |u.columns| <= |e.columns| && e.kind == u.kind
    && e.columns[..|u.columns|] == WithCells(u.columns, e.columns)
    && Added(c, u.columns, e.columns[|u.columns|..])
    && KeysKept(e.columns[|u.columns|..], u.keys, e.keys)
  }

  /** The original table with the edits: its own names and comments, today's rows and cells, and the added columns. */
  ghost predicate RestoredWithEdits(t: Table, e: Table, r: Table)
    requires |t.columns| < |e.columns|
  {
    var added := e.columns[|t.columns| + 1..];
    && r.rows == e.rows && r.kind == t.kind && r.columns == WithCells(t.columns, e.columns) + added
    && (forall k :: SameKey(k, if k in Names(added) then e.keys else t.keys, r.keys))
  }

  /** The metadata that a downgrade returns: what users wrote under added names, and the original otherwise. */
  function KeysWithEdits(added: seq<Column>, original: map<string, string>, edited: map<string, string>)
    : (keys: map<string, string>)
    ensures forall k :: SameKey(k, if k in Names(added) then edited else original, keys)
  {
    map k | k in original.Keys + edited.Keys && k in (if k in Names(added) then edited else original) ::
      (if k in Names(added) then edited else original)[k]
  }

  /** Columns with the same names and comments, and the added ones behind them. */
  ghost predicate Extends(columns: seq<Column>, added: seq<Column>, r: seq<Column>) {
    && |r| == |columns| + |added|
    && (forall i :: 0 <= i < |columns| ==> r[i].name == columns[i].name && r[i].comment == columns[i].comment)
    && (forall i :: |columns| <= i < |r| ==> r[i] == added[i - |columns|])
  }

  lemma ExtendsWithCells(columns: seq<Column>, edited: seq<Column>, added: seq<Column>)
    requires |columns| <= |edited|
    ensures Extends(columns, added, WithCells(columns, edited) + added)
  {}

  lemma ExtendedNames(c: Codec, columns: seq<Column>, added: seq<Column>, r: seq<Column>)
    requires DistinctNames(columns) && Added(c, columns, added) && Extends(columns, added, r)
    ensures DistinctNames(r)
  {
    forall i, j | 0 <= i < j < |r| ensures r[i].name != r[j].name {
      if i < |columns| <= j {
        assert added[j - |columns|].name in Names(added);
      }
    }
  }

  /** The columns of an edited table without the tenant column. */
  lemma EditedColumns(c: Codec, after: seq<Column>, tenant: Column, u: Table, e: Table) returns (added: seq<Column>)
    requires u.columns == after + [tenant] && tenant.name == "__tc_workspace_id" && DistinctNames(u.columns)
    requires Edited(c, u, e)
    ensures |after| < |e.columns| && added == e.columns[|after| + 1..]
    ensures Dropped(e).columns == WithCells(after, e.columns) + added
    ensures Added(c, after, added) && KeysKept(added, u.keys, e.keys)
  {
    var n := |after|;
    added := e.columns[n + 1..];
    assert e.columns == e.columns[..n + 1] + added;
    assert DistinctNames(e.columns) by {
      ExtendsWithCells(u.columns, e.columns, added);
      ExtendedNames(c, u.columns, added, e.columns);
    }
    assert e.columns[n] == e.columns[..n + 1][n] && u.columns[n] == tenant;
    assert e.columns[..n] == WithCells(after, e.columns) by {
      assert forall i :: 0 <= i < n ==> e.columns[i] == e.columns[..n + 1][i] && u.columns[i] == after[i];
    }
    assert Dropped(e).columns == e.columns[..n] + added by {
      DropsAt(e.columns, n);
    }
    assert forall i :: 0 <= i < n ==> u.columns[i] == after[i];
  }

  /** No added column has a name that the upgrade took from or gave to a column. */
  lemma NotAdded(c: Codec, before: seq<Column>, after: seq<Column>, added: seq<Column>, i: nat)
    requires Renames(c, before, after) && Added(c, after, added) && i < |before|
    ensures before[i].name !in Names(added) && after[i].name !in Names(added)
  {
    assert RenamesColumn(c, before, i, after[i]);
    assert Reserved(before[i].name) ==> forall j :: 0 <= j < |added| ==> added[j].name != before[i].name;
  }

  lemma AddedToOriginal(c: Codec, before: seq<Column>, after: seq<Column>, added: seq<Column>)
    requires Renames(c, before, after) && Added(c, after, added)
    ensures Added(c, before, added)
  {
    forall i | 0 <= i < |before| ensures before[i].name !in Names(added) {
      NotAdded(c, before, after, added, i);
    }
  }

  /** Columns of the original and the upgraded table, each with today's cells and the added columns. */
  ghost predicate BothExtend(c: Codec, before: seq<Column>, after: seq<Column>, added: seq<Column>,
                             before': seq<Column>, after': seq<Column>) {
    && Renames(c, before, after) && Added(c, after, added)
    && Extends(before, added, before') && Extends(after, added, after')
    && (forall i :: 0 <= i < |before'| ==> before'[i].cells == after'[i].cells)
  }

  lemma RenamesColumnWithEdits(c: Codec, before: seq<Column>, after: seq<Column>, added: seq<Column>,
                               before': seq<Column>, after': seq<Column>, i: nat)
    requires BothExtend(c, before, after, added, before', after') && i < |before'|
    ensures RenamesColumn(c, before', i, after'[i])
  {
    if i < |before| {
      assert RenamesColumn(c, before, i, after[i]);
      if Reserved(before[i].name) {
        NotAdded(c, before, after, added, i);
        forall j | 0 <= j < |before'| ensures before'[j].name != after[i].name {
          if j < |before| {
            assert before[j].name in Names(before);
          } else {
            assert added[j - |before|].name in Names(added);
          }
        }
      }
    }
  }

  /** Edits of cells and added columns leave the renaming what it was. */
  lemma RenamesWithEdits(c: Codec, before: seq<Column>, after: seq<Column>, added: seq<Column>,
                         before': seq<Column>, after': seq<Column>)
    requires BothExtend(c, before, after, added, before', after')
    ensures Renames(c, before', after')
  {
    assert DistinctNames(after') by {
      ExtendedNames(c, after, added, after');
    }
    forall i: nat | i < |before'| ensures RenamesColumn(c, before', i, after'[i]) {
      RenamesColumnWithEdits(c, before, after, added, before', after', i);
    }
  }

  lemma StoredWithEdits(c: Codec, t: Table, after: seq<Column>, added: seq<Column>, before': Table)
    requires Stored(t) && NoneMarked(c, t) && Renames(c, t.columns, after) && Added(c, after, added)
    requires Extends(t.columns, added, before'.columns)
    ensures Stored(before') && NoneMarked(c, before')
  {
    AddedToOriginal(c, t.columns, after, added);
    ExtendedNames(c, t.columns, added, before'.columns);
  }

  lemma NoStaleWithEdits(c: Codec, before: seq<Column>, after: seq<Column>, added: seq<Column>,
                         before': seq<Column>, after': seq<Column>,
                         keys: map<string, string>, keys': map<string, string>)
    requires BothExtend(c, before, after, added, before', after')
    requires NoStaleKeys(before, after, keys) && KeysKept(added, keys, keys')
    ensures NoStaleKeys(before', after', keys')
  {
    forall i | 0 <= i < |before'| && Reserved(before'[i].name) ensures after'[i].name !in keys' {
      if i < |before| {
        NotAdded(c, before, after, added, i);
        assert SameKey(after[i].name, keys, keys');
      }
    }
  }

  lemma TouchedWithEdits(before: seq<Column>, after: seq<Column>, added: seq<Column>,
                         before': seq<Column>, after': seq<Column>, k: string)
    requires |before| == |after| && Extends(before, added, before') && Extends(after, added, after')
    requires Touched(before, after, Upto(|after|), k)
    ensures Touched(before', after', Upto(|after'|), k)
  {
    var i: nat :| IsMoved(before, i, Upto(|after|)) && (k == before[i].name || k == after[i].name);
    assert IsMoved(before', i, Upto(|after'|));
  }

  /** The metadata of an edited table still follows the moved columns. */
  lemma FollowWithEdits(c: Codec, before: seq<Column>, after: seq<Column>, added: seq<Column>,
                        before': seq<Column>, after': seq<Column>,
                        keys0: map<string, string>, keys: map<string, string>,
                        keys0': map<string, string>, keys': map<string, string>)
    requires BothExtend(c, before, after, added, before', after')
    requires KeysFollow(before, after, Upto(|after|), keys0, keys)
    requires KeysKept(added, keys0, keys0') && KeysKept(added, keys, keys')
    requires forall k :: k in Names(added) ==> SameKey(k, keys', keys0')
    ensures KeysFollow(before', after', Upto(|after'|), keys0', keys')
  {
    forall i: nat | IsMoved(before', i, Upto(|after'|))
      ensures KeyMoved(before'[i].name, after'[i].name, keys0', keys')
    {
      if i < |before| {
        assert IsMoved(before, i, Upto(|after|));
        NotAdded(c, before, after, added, i);
        assert SameKey(before[i].name, keys0, keys0') && SameKey(before[i].name, keys, keys');
        assert SameKey(after[i].name, keys, keys');
      }
    }
    forall k | !Touched(before', after', Upto(|after'|), k) ensures SameKey(k, keys0', keys') {
      if k !in Names(added) {
        if Touched(before, after, Upto(|after|), k) {
          TouchedWithEdits(before, after, added, before', after', k);
        }
        assert SameKey(k, keys0, keys) && SameKey(k, keys0, keys0') && SameKey(k, keys, keys');
      }
    }
  }

  lemma SameKeys(a: map<string, string>, b: map<string, string>)
    requires forall k :: SameKey(k, a, b)
    ensures a == b
  {
    assert forall k :: k in a || k in b ==> SameKey(k, a, b);
    assert a.Keys == b.Keys;
  }

  lemma AllFollowWithEdits(c: Codec, kind: Kind, before: seq<Column>, after: seq<Column>, added: seq<Column>,
                           before': seq<Column>, after': seq<Column>,
                           keys0: map<string, string>, keys: map<string, string>,
                           keys0': map<string, string>, keys': map<string, string>)
    requires BothExtend(c, before, after, added, before', after')
    requires kind != Unmanaged ==> NoStaleKeys(before, after, keys0)
    requires Follows(kind, before, after, Upto(|after|), keys0, keys)
    requires KeysKept(added, keys, keys') && keys0' == KeysWithEdits(added, keys0, keys')
    ensures kind != Unmanaged ==> NoStaleKeys(before', after', keys0')
    ensures Follows(kind, before', after', Upto(|after'|), keys0', keys')
  {
    assert forall k :: SameKey(k, if k in Names(added) then keys' else keys0, keys0');
    if kind != Unmanaged {
      NoStaleWithEdits(c, before, after, added, before', after', keys0, keys0');
      FollowWithEdits(c, before, after, added, before', after', keys0, keys, keys0', keys');
    } else {
      forall k ensures SameKey(k, keys0', keys') {
        assert k !in Names(added) ==> SameKey(k, keys, keys');
      }
      SameKeys(keys0', keys');
    }
  }

  lemma RestoresEdited(c: Codec, before: Table, after: seq<Column>, e: Table, order: seq<nat>)
    requires Faithful(c) && Stored(before) && NoneMarked(c, before) && Renames(c, before.columns, after)
    requires before.kind != Unmanaged ==> NoStaleKeys(before.columns, after, before.keys)
    requires Follows(before.kind, before.columns, after, Upto(|after|), before.keys, e.keys)
    requires Dropped(e).columns == after && e.rows == before.rows && e.kind == before.kind
    requires Enumerates(c, after, order)
    ensures Downgraded(c, e, order) == Ok(before)
  {
    AllToRestore(c, before.columns, after, order);
    FollowsOnlyReserved(before.kind, before.columns, after, Upto(|after|), Elements(order), before.keys, e.keys);
    RestoreFollows(c, before, after, Dropped(e), order, {});
  }

  lemma UpgradeParts(c: Codec, t: Table, workspace: string, u: Table)
    returns (after: seq<Column>, renamed: Table, tenant: Column)
    requires DistinctNames(t.columns) && Restorable(c, t) && Upgraded(c, t, workspace) == Ok(u)
    ensures Renames(c, t.columns, after) && NoneMarked(c, t)
    ensures t.kind != Unmanaged ==> NoStaleKeys(t.columns, after, t.keys)
    ensures Follows(t.kind, t.columns, after, Upto(|after|), t.keys, renamed.keys)
    ensures u.columns == after + [tenant] && tenant.name == "__tc_workspace_id" && DistinctNames(u.columns)
    ensures u.keys == renamed.keys && u.kind == t.kind
  {
    after := RenamedColumns(c, t.columns, 0);
    UpgradeShape(c, t, workspace);
    renamed := RenamesAll(c, t, after);
    tenant := Column("__tc_workspace_id", None, seq(t.rows, _ => Some(workspace)));
    NoneReserved(c, t.columns, after);
    NamesWithTenant(after, tenant, u.columns);
  }

  lemma DowngradeParts(c: Codec, t: Table, after: seq<Column>, renamed: Table, e: Table, added: seq<Column>,
                       r: Table, after': seq<Column>, order: seq<nat>)
    requires Faithful(c) && Stored(t) && NoneMarked(c, t)
    requires BothExtend(c, t.columns, after, added, r.columns, after')
    requires t.kind != Unmanaged ==> NoStaleKeys(t.columns, after, t.keys)
    requires Follows(t.kind, t.columns, after, Upto(|after|), t.keys, renamed.keys)
    requires KeysKept(added, renamed.keys, e.keys) && r.keys == KeysWithEdits(added, t.keys, e.keys)
    requires Dropped(e).columns == after' && e.kind == r.kind == t.kind && r.rows == e.rows
    requires Enumerates(c, after', order)
    ensures Downgraded(c, e, order) == Ok(r)
  {
    StoredWithEdits(c, t, after, added, r);
    RenamesWithEdits(c, t.columns, after, added, r.columns, after');
    AllFollowWithEdits(c, t.kind, t.columns, after, added, r.columns, after', t.keys, renamed.keys, r.keys, e.keys);
    RestoresEdited(c, r, after', e, order);
  }

  lemma BothExtendWithCells(c: Codec, before: seq<Column>, after: seq<Column>, edited: seq<Column>, added: seq<Column>)
    requires Renames(c, before, after) && Added(c, after, added) && |after| <= |edited|
    ensures BothExtend(c, before, after, added, WithCells(before, edited) + added, WithCells(after, edited) + added)
  {
    ExtendsWithCells(before, edited, added);
    ExtendsWithCells(after, edited, added);
  }

  lemma KeepsEdits(t: Table, e: Table, added: seq<Column>, r: Table)
    requires |t.columns| < |e.columns| && added == e.columns[|t.columns| + 1..]
    requires r == Table(WithCells(t.columns, e.columns) + added, e.rows, t.kind,
                        KeysWithEdits(added, t.keys, e.keys))
    ensures RestoredWithEdits(t, e, r)
  {}

  /**
   * The downgrade of a restorable table that was upgraded and then edited succeeds, and returns the original
   * names, comments and metadata with the rows and cells of today, followed by the columns that were added.
   */
  lemma EditedDowngrade(c: Codec, t: Table, workspace: string, u: Table, e: Table, order: seq<nat>) returns (r: Table)
    requires Faithful(c) && Stored(t) && Restorable(c, t) && Upgraded(c, t, workspace) == Ok(u)
    requires Edited(c, u, e) && Enumerates(c, Dropped(e).columns, order)
    ensures |t.columns| < |e.columns| && Downgraded(c, e, order) == Ok(r) && RestoredWithEdits(t, e, r)
  {
    var after, renamed, tenant := UpgradeParts(c, t, workspace, u);
    var added := EditedColumns(c, after, tenant, u, e);
    r := Table(WithCells(t.columns, e.columns) + added, e.rows, t.kind, KeysWithEdits(added, t.keys, e.keys));
    BothExtendWithCells(c, t.columns, after, e.columns, added);
    DowngradeParts(c, t, after, renamed, e, added, r, WithCells(after, e.columns) + added, order);
    KeepsEdits(t, e, added, r);
  }
}
