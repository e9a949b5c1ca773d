/**
 * Moving user columns out of the reserved `__tc_` namespace and back: migration `b5fc4168fe22`
 * on one dynamic workspace table.
 */
module ReservedColumns {
  import opened Decimals
  import opened Wrappers

  const RENAME_PREFIX := "tracecat:b5fc4168fe22:legacy-internal-column:"
  const INTERNAL_PREFIX := "__tc_"
  const TENANT_COLUMN := "__tc_workspace_id"

  /** A physical column: its name, its comment (never an empty string) and its cells. */
  datatype Column = Column(name: string, comment: Option<string>, cells: seq<Option<string>>)

  /**
   * Which metadata follows the physical names: rows of `table_column`, whose names are unique per
   * table, the keys of the case-field schema, or none.
   */
  datatype Kind = TableRows | CaseSchema | Unmanaged

  /** A dynamic table with its metadata entries by name. */
  datatype Table = Table(columns: seq<Column>, rows: nat, kind: Kind, keys: map<string, string>)

  datatype Error = DuplicateColumn(name: string) | DuplicateMetadata(name: string) | MultipleMigrated(name: string)

  /** The JSON text of (original name, original comment) and its reader. */
  datatype Codec = Codec(dump: ((string, Option<string>)) -> string, load: string -> Option<(string, Option<string>)>)

  ghost predicate Faithful(c: Codec) {
    forall name, comment {:trigger c.dump((name, comment))} :: c.load(c.dump((name, comment))) == Some((name, comment))
  }

  // ---------------------------------------------------------------- names

  predicate Reserved(name: string) {
    INTERNAL_PREFIX <= name
  }

  function BaseName(name: string): string {
    "migrated_" + (if "__" <= name then name[2..] else name)
  }

  /** The k-th rename target that is tried. */
  function Candidate(name: string, k: nat): string {
    if k == 0 then BaseName(name) else BaseName(name) + "_" + Decimal(k)
  }

  lemma CandidateFacts(name: string, j: nat, k: nat)
    ensures !Reserved(Candidate(name, j))
    ensures Candidate(name, j) == Candidate(name, k) ==> j == k
  {
    var base := BaseName(name);
    assert Candidate(name, j)[0] == 'm' && INTERNAL_PREFIX[0] == '_';
    if j > 0 && k > 0 && Candidate(name, j) == Candidate(name, k) {
      assert Decimal(j) == Candidate(name, j)[|base| + 1..] == Decimal(k);
      DecimalInjective(j, k);
    }
  }

  /** n candidates that are all taken need n existing names. */
  lemma {:induction false} CandidatesFit(existing: set<string>, name: string, n: nat)
    requires forall k :: 0 <= k < n ==> Candidate(name, k) in existing
    ensures n <= |existing|
    decreases n
  {
    if n > 0 {
      var last := Candidate(name, n - 1);
      forall k | 0 <= k < n - 1 ensures Candidate(name, k) in existing - {last} {
        CandidateFacts(name, k, n - 1);
      }
      CandidatesFit(existing - {last}, name, n - 1);
    }
  }

  /** The first candidate from k on that is not taken. */
  function FreshFrom(existing: set<string>, name: string, k: nat): (r: string)
    requires forall j :: 0 <= j < k ==> Candidate(name, j) in existing
    ensures r !in existing && !Reserved(r)
    ensures exists n :: k <= n <= |existing| && r == Candidate(name, n)
    decreases |existing| + 1 - k
  {
    CandidateFacts(name, k, k);
    CandidatesFit(existing, name, k);
    if Candidate(name, k) !in existing then Candidate(name, k)
    else
      CandidatesFit(existing, name, k + 1);
      FreshFrom(existing, name, k + 1)
  }

  function FreshName(existing: set<string>, name: string): string {
    FreshFrom(existing, name, 0)
  }

  /** `_next_legacy_internal_column_name`: at most |existing| + 1 candidates are tried. */
  method NextLegacyName(existing: set<string>, original: string) returns (candidate: string)
    ensures candidate == FreshName(existing, original)
    ensures candidate !in existing && !Reserved(candidate)
    ensures exists n :: 0 <= n <= |existing| && candidate == Candidate(original, n) &&
              forall k :: 0 <= k < n ==> Candidate(original, k) in existing
  {
    candidate := BaseName(original);
    var suffix := 1;
    while candidate in existing
      invariant 1 <= suffix <= |existing| + 1
      invariant candidate == Candidate(original, suffix - 1)
      invariant forall k :: 0 <= k < suffix - 1 ==> Candidate(original, k) in existing
      invariant FreshName(existing, original) == FreshFrom(existing, original, suffix - 1)
      decreases |existing| + 1 - suffix
    {
      CandidatesFit(existing, original, suffix);
      candidate := BaseName(original) + "_" + Decimal(suffix);
      suffix := suffix + 1;
    }
    CandidateFacts(original, suffix - 1, suffix - 1);
    assert candidate == Candidate(original, suffix - 1);
  }

  // ---------------------------------------------------------------- comments

  function RenameComment(c: Codec, name: string, comment: Option<string>): string {
    RENAME_PREFIX + c.dump((name, comment))
  }

  function ParseComment(c: Codec, comment: Option<string>): Option<(string, Option<string>)> {
    if comment.Some? && RENAME_PREFIX <= comment.value then c.load(comment.value[|RENAME_PREFIX|..]) else None
  }

  lemma ParseOfRename(c: Codec, name: string, comment: Option<string>)
    requires Faithful(c)
    ensures ParseComment(c, Some(RenameComment(c, name, comment))) == Some((name, comment))
  {
    assert RenameComment(c, name, comment)[|RENAME_PREFIX|..] == c.dump((name, comment));
  }

  /** `COMMENT ON COLUMN`: PostgreSQL stores an empty comment as none. */
  function StoredComment(comment: Option<string>): Option<string> {
    if comment == Some("") then None else comment
  }

  // ---------------------------------------------------------------- one rename

  function Names(columns: seq<Column>): set<string> {
    set i | 0 <= i < |columns| :: columns[i].name
  }

  ghost predicate DistinctNames(columns: seq<Column>) {
    forall i, j :: 0 <= i < j < |columns| ==> columns[i].name != columns[j].name
  }

  /** Move a metadata entry, where there is one, to a new name. */
  function RenameKey(kind: Kind, keys: map<string, string>, from: string, to: string): Result<map<string, string>, Error> {
    if kind == Unmanaged || from !in keys then Ok(keys)
    else if kind == TableRows && to in keys && to != from then Err(DuplicateMetadata(to))
    else Ok((keys - {from})[to := keys[from]])
  }

  /** Rename column i, set its comment, and let the metadata follow. */
  function RenameColumn(t: Table, i: nat, name: string, comment: Option<string>): Result<Table, Error>
    requires i < |t.columns|
  {
    if name in Names(t.columns) then Err(DuplicateColumn(name))
    else match RenameKey(t.kind, t.keys, t.columns[i].name, name)
      case Err(e) => Err(e)
      case Ok(keys) =>
        Ok(t.(columns := t.columns[i := Column(name, StoredComment(comment), t.columns[i].cells)], keys := keys))
  }

  // ---------------------------------------------------------------- upgrade

  /** Rename the reserved columns from position i on. */
  function RenameFrom(c: Codec, t: Table, i: nat): Result<Table, Error>
    requires i <= |t.columns|
    decreases |t.columns| - i
  {
    if i == |t.columns| then Ok(t)
    else
      var col := t.columns[i];
      if !Reserved(col.name) then RenameFrom(c, t, i + 1)
      else
        match RenameColumn(t, i, FreshName(Names(t.columns), col.name), Some(RenameComment(c, col.name, col.comment)))
        case Err(e) => Err(e)
        case Ok(t') => RenameFrom(c, t', i + 1)
  }

  function FillNulls(cells: seq<Option<string>>, value: string): seq<Option<string>> {
    seq(|cells|, i requires 0 <= i < |cells| => if cells[i] == None then Some(value) else cells[i])
  }

  function Nulls(rows: nat): seq<Option<string>> {
    seq(rows, _ => None)
  }

  /** Add the tenant column where it is missing and fill in the workspace. */
  function WithTenant(t: Table, workspace: string): Table {
    var columns := if TENANT_COLUMN in Names(t.columns) then t.columns
                   else t.columns + [Column(TENANT_COLUMN, None, Nulls(t.rows))];
    t.(columns := seq(|columns|, i requires 0 <= i < |columns| =>
         if columns[i].name == TENANT_COLUMN then columns[i].(cells := FillNulls(columns[i].cells, workspace))
         else columns[i]))
  }

  function Upgraded(c: Codec, t: Table, workspace: string): Result<Table, Error> {
    match RenameFrom(c, t, 0)
    case Err(e) => Err(e)
    case Ok(renamed) => Ok(WithTenant(renamed, workspace))
  }

  // ---------------------------------------------------------------- downgrade

  function WithoutTenant(columns: seq<Column>): seq<Column> {
    if columns == [] then []
    else if columns[0].name == TENANT_COLUMN then columns[1..]
    else [columns[0]] + WithoutTenant(columns[1..])
  }

  predicate Marked(c: Codec, col: Column) {
    ParseComment(c, col.comment).Some?
  }

  function OriginalName(c: Codec, col: Column): string
    requires Marked(c, col)
  {
    ParseComment(c, col.comment).value.0
  }

  /** The marked positions, in some order of restoration. */
  ghost predicate Enumerates(c: Codec, columns: seq<Column>, order: seq<nat>) {
    && (forall k :: 0 <= k < |order| ==> order[k] < |columns| && Marked(c, columns[order[k]]))
    && (forall j, k :: 0 <= j < k < |order| ==> order[j] != order[k])
    && (forall i :: 0 <= i < |columns| && Marked(c, columns[i]) ==> i in order)
  }

  /** Restore the columns at the given positions, as their comments said at the start. */
  function Restore(c: Codec, t: Table, start: seq<Column>, order: seq<nat>, restored: set<string>): Result<Table, Error>
    requires |start| == |t.columns|
    requires forall k :: 0 <= k < |order| ==> order[k] < |start| && Marked(c, start[order[k]])
    decreases |order|
  {
    if order == [] then Ok(t)
    else
      assert Marked(c, start[order[0]]);
      var (name, comment) := ParseComment(c, start[order[0]].comment).value;
      if name in restored then Err(MultipleMigrated(name))
      else match RenameColumn(t, order[0], name, comment)
        case Err(e) => Err(e)
        case Ok(t') => Restore(c, t', start, order[1..], restored + {name})
  }

  function Dropped(t: Table): Table {
    t.(columns := WithoutTenant(t.columns))
  }

  function Downgraded(c: Codec, t: Table, order: seq<nat>): Result<Table, Error>
    requires forall k :: 0 <= k < |order| ==>
               order[k] < |Dropped(t).columns| && Marked(c, Dropped(t).columns[order[k]])
  {
    Restore(c, Dropped(t), Dropped(t).columns, order, {})
  }

  // ---------------------------------------------------------------- what renaming does to columns

  /** The columns after the rename loop. */
  function RenamedColumns(c: Codec, columns: seq<Column>, i: nat): (r: seq<Column>)
    requires i <= |columns|
    ensures |r| == |columns|
    decreases |columns| - i
  {
    if i == |columns| then columns
    else
      var col := columns[i];
      var col' := if !Reserved(col.name) then col
                  else Column(FreshName(Names(columns), col.name), Some(RenameComment(c, col.name, col.comment)), col.cells);
      RenamedColumns(c, columns[i := col'], i + 1)
  }

  /**
   * Column by column: a reserved one has a new unreserved name, unused before, and its prior name and
   * comment in its comment; any other is as it was.
   */
  ghost predicate Renames(c: Codec, before: seq<Column>, after: seq<Column>) {
    && |after| == |before|
    && (forall i :: 0 <= i < |before| ==> RenamesColumn(c, before, i, after[i]))
    && DistinctNames(after)
  }

  ghost predicate RenamesColumn(c: Codec, before: seq<Column>, i: nat, col: Column)
    requires i < |before|
  {
    if Reserved(before[i].name) then
      !Reserved(col.name) && col.name !in Names(before) && col.cells == before[i].cells &&
      col.comment == Some(RenameComment(c, before[i].name, before[i].comment))
    else col == before[i]
  }

  lemma NamesOfUpdate(columns: seq<Column>, i: nat, col: Column)
    requires i < |columns| && DistinctNames(columns) && col.name !in Names(columns)
    ensures DistinctNames(columns[i := col])
    ensures forall name :: name in Names(columns[i := col]) <==>
              name == col.name || (name in Names(columns) && name != columns[i].name)
  {
    var after := columns[i := col];
    forall j, k | 0 <= j < k < |after| ensures after[j].name != after[k].name {
      assert columns[j].name in Names(columns) && columns[k].name in Names(columns);
    }
    forall name ensures name in Names(after) <==> name == col.name || (name in Names(columns) && name != columns[i].name) {
      if name in Names(columns) && name != columns[i].name {
        var j :| 0 <= j < |columns| && columns[j].name == name;
        assert after[j].name == name;
      }
      if name == col.name {
        assert after[i].name == name;
      }
      if name in Names(after) {
        var j :| 0 <= j < |after| && after[j].name == name;
        assert j != i ==> columns[j].name == name;
      }
    }
  }

  /** While the loop runs, positions before i are final and the others untouched. */
  ghost predicate Progress(c: Codec, original: seq<Column>, columns: seq<Column>, i: nat) {
    && i <= |columns| == |original| && DistinctNames(columns)
    && columns[i..] == original[i..]
    && (forall j :: 0 <= j < i ==> RenamesColumn(c, original, j, columns[j]))
  }

  /** A fresh unreserved name clashes with no original name, not even one already renamed away. */
  lemma FreshForOriginal(c: Codec, original: seq<Column>, columns: seq<Column>, i: nat, name: string)
    requires Progress(c, original, columns, i) && !Reserved(name) && name !in Names(columns)
    ensures name !in Names(original)
  {
    forall j | 0 <= j < |original| ensures original[j].name != name {
      assert columns[j].name in Names(columns);
      assert j >= i ==> columns[j] == columns[i..][j - i] == original[i..][j - i] == original[j];
    }
  }

  lemma RenameProgresses(c: Codec, original: seq<Column>, columns: seq<Column>, i: nat, name: string)
    requires Progress(c, original, columns, i) && i < |columns| && Reserved(columns[i].name)
    requires name == FreshName(Names(columns), columns[i].name)
    ensures var col := columns[i];
            Progress(c, original, columns[i := Column(name, Some(RenameComment(c, col.name, col.comment)), col.cells)], i + 1)
  {
    var col := columns[i];
    var col' := Column(name, Some(RenameComment(c, col.name, col.comment)), col.cells);
    var next := columns[i := col'];
    assert col == columns[i..][0] == original[i..][0] == original[i];
    NamesOfUpdate(columns, i, col');
    FreshForOriginal(c, original, columns, i, name);
    assert RenamesColumn(c, original, i, next[i]);
    assert next[i + 1..] == columns[i..][1..] == original[i + 1..];
  }

  lemma {:induction false} RenamedColumnsRename(c: Codec, original: seq<Column>, columns: seq<Column>, i: nat)
    requires Progress(c, original, columns, i)
    ensures Renames(c, original, RenamedColumns(c, columns, i))
    decreases |columns| - i
  {
    if i < |columns| {
      var col := columns[i];
      assert col == columns[i..][0] == original[i..][0] == original[i];
      if Reserved(col.name) {
        var name := FreshName(Names(columns), col.name);
        RenameProgresses(c, original, columns, i, name);
        RenamedColumnsRename(c, original,
                             columns[i := Column(name, Some(RenameComment(c, col.name, col.comment)), col.cells)], i + 1);
      } else {
        assert columns[i := col] == columns;
        assert columns[i + 1..] == columns[i..][1..] == original[i + 1..];
        RenamedColumnsRename(c, original, columns, i + 1);
      }
    }
  }

  /** One rename touches one column and the metadata. */
  lemma RenameColumnShape(t: Table, i: nat, name: string, comment: string)
    requires i < |t.columns| && comment != ""
    ensures var r := RenameColumn(t, i, name, Some(comment));
            r.Ok? ==> r.value == t.(columns := t.columns[i := Column(name, Some(comment), t.columns[i].cells)],
                                    keys := r.value.keys)
  {}

  /** One turn of the rename loop, as the loop over the table sees it. */
  lemma MoveAsideFacts(c: Codec, t: Table, i: nat, name: string, comment: string)
    requires i < |t.columns| && Reserved(t.columns[i].name) && DistinctNames(t.columns)
    requires name == FreshName(Names(t.columns), t.columns[i].name)
    requires comment == RenameComment(c, t.columns[i].name, t.columns[i].comment)
    ensures var r := RenameColumn(t, i, name, Some(comment));
            if r.Err? then RenameFrom(c, t, i) == Err(r.error)
            else
              && RenameFrom(c, t, i) == RenameFrom(c, r.value, i + 1)
              && |r.value.columns| == |t.columns| && r.value.columns[i + 1..] == t.columns[i + 1..]
              && DistinctNames(r.value.columns)
              && Names(r.value.columns) == Names(t.columns) - {t.columns[i].name} + {name}
  {
    RenameColumnShape(t, i, name, comment);
    NamesOfUpdate(t.columns, i, Column(name, Some(comment), t.columns[i].cells));
  }

  /** A successful rename loop has done exactly that to the columns. */
  lemma {:induction false} RenameFromColumns(c: Codec, t: Table, i: nat)
    requires i <= |t.columns|
    ensures var r := RenameFrom(c, t, i);
            r.Ok? ==> r.value == t.(columns := RenamedColumns(c, t.columns, i), keys := r.value.keys)
    decreases |t.columns| - i
  {
    if i < |t.columns| {
      var col := t.columns[i];
      if Reserved(col.name) {
        var name, comment := FreshName(Names(t.columns), col.name), RenameComment(c, col.name, col.comment);
        RenameColumnShape(t, i, name, comment);
        var r := RenameColumn(t, i, name, Some(comment));
        if r.Ok? {
          RenameFromColumns(c, r.value, i + 1);
          assert RenamedColumns(c, t.columns, i) == RenamedColumns(c, r.value.columns, i + 1);
        }
      } else {
        assert t.columns[i := col] == t.columns;
        RenameFromColumns(c, t, i + 1);
      }
    }
  }

  // ---------------------------------------------------------------- the tenant column

  lemma NoneReserved(c: Codec, before: seq<Column>, after: seq<Column>)
    requires Renames(c, before, after)
    ensures forall name :: name in Names(after) ==> !Reserved(name)
  {
    forall i | 0 <= i < |after| ensures !Reserved(after[i].name) {
      assert RenamesColumn(c, before, i, after[i]);
    }
  }

  lemma {:induction false} WithoutTenantAppended(columns: seq<Column>, tenant: Column)
    requires forall i :: 0 <= i < |columns| ==> columns[i].name != TENANT_COLUMN
    requires tenant.name == TENANT_COLUMN
    ensures WithoutTenant(columns + [tenant]) == columns
  {
    if columns != [] {
      assert (columns + [tenant])[1..] == columns[1..] + [tenant];
      WithoutTenantAppended(columns[1..], tenant);
    } else {
      assert columns + [tenant] == [tenant];
    }
  }

  /** On a table without reserved names: one new column, holding the workspace in every row. */
  lemma TenantAdded(t: Table, workspace: string)
    requires forall name :: name in Names(t.columns) ==> !Reserved(name)
    ensures WithTenant(t, workspace) ==
            t.(columns := t.columns + [Column(TENANT_COLUMN, None, seq(t.rows, _ => Some(workspace)))])
    ensures Dropped(WithTenant(t, workspace)) == t
  {
    assert Reserved(TENANT_COLUMN);
    forall i | 0 <= i < |t.columns| ensures t.columns[i].name != TENANT_COLUMN {
      assert t.columns[i].name in Names(t.columns);
    }
    var tenant := Column(TENANT_COLUMN, None, seq(t.rows, _ => Some(workspace)));
    assert FillNulls(Nulls(t.rows), workspace) == tenant.cells;
    assert WithTenant(t, workspace).columns == t.columns + [tenant];
    WithoutTenantAppended(t.columns, tenant);
  }

  // ---------------------------------------------------------------- restoring, column by column

  /** The columns when exactly the positions in `moved` carry their new names. */
  function Mix(before: seq<Column>, after: seq<Column>, moved: set<nat>): seq<Column>
    requires |before| == |after|
  {
    seq(|before|, i requires 0 <= i < |before| => if i in moved then after[i] else before[i])
  }

  predicate IsMoved(before: seq<Column>, i: nat, moved: set<nat>) {
    i < |before| && Reserved(before[i].name) && i in moved
  }

  /**
   * The metadata when exactly the positions in `moved` carry their new names: an entry follows its
   * column, and entries of no moved column are untouched.
   */
  ghost predicate KeysFollow(before: seq<Column>, after: seq<Column>, moved: set<nat>,
                             keys0: map<string, string>, keys: map<string, string>)
    requires |before| == |after|
  {
    && (forall i: nat {:trigger IsMoved(before, i, moved)} :: IsMoved(before, i, moved) ==>
          KeyMoved(before[i].name, after[i].name, keys0, keys))
    && (forall k {:trigger k in keys0} {:trigger k in keys} :: !Touched(before, after, moved, k) ==> SameKey(k, keys0, keys))
  }

  predicate SameKey(k: string, keys0: map<string, string>, keys: map<string, string>) {
    (k in keys <==> k in keys0) && (k in keys0 ==> keys[k] == keys0[k])
  }

  predicate KeyMoved(from: string, to: string, keys0: map<string, string>, keys: map<string, string>) {
    from !in keys && (to in keys <==> from in keys0) && (from in keys0 ==> keys[to] == keys0[from])
  }

  ghost predicate Touched(before: seq<Column>, after: seq<Column>, moved: set<nat>, k: string)
    requires |before| == |after|
  {
    exists i: nat :: IsMoved(before, i, moved) && (k == before[i].name || k == after[i].name)
  }

  /** No metadata entry already has one of the new names. */
  ghost predicate NoStaleKeys(before: seq<Column>, after: seq<Column>, keys: map<string, string>)
    requires |before| == |after|
  {
    forall i :: 0 <= i < |before| && Reserved(before[i].name) ==> after[i].name !in keys
  }

  lemma MixNames(c: Codec, before: seq<Column>, after: seq<Column>, moved: set<nat>, i: nat)
    requires DistinctNames(before) && Renames(c, before, after) && i < |before| && Reserved(before[i].name)
    ensures DistinctNames(Mix(before, after, moved))
    ensures i in moved ==> before[i].name !in Names(Mix(before, after, moved))
    ensures i !in moved ==> after[i].name !in Names(Mix(before, after, moved))
  {
    var mix := Mix(before, after, moved);
    forall j, k | 0 <= j < |mix| && 0 <= k < |mix| && j != k ensures before[j].name != after[k].name {
      assert RenamesColumn(c, before, k, after[k]);
      assert before[j].name in Names(before);
    }
    assert RenamesColumn(c, before, i, after[i]);
    assert before[i].name in Names(before);
  }

  /** Moving one more entry, in either direction, keeps the metadata in step. */
  lemma MoveKey(c: Codec, before: seq<Column>, after: seq<Column>, moved: set<nat>, i: nat,
                kind: Kind, keys0: map<string, string>, keys: map<string, string>)
    requires DistinctNames(before) && Renames(c, before, after) && NoStaleKeys(before, after, keys0)
    requires i < |before| && Reserved(before[i].name) && kind != Unmanaged
    requires KeysFollow(before, after, moved, keys0, keys)
    ensures var from, to := if i in moved then after[i].name else before[i].name,
                            if i in moved then before[i].name else after[i].name;
            var r := RenameKey(kind, keys, from, to);
            r.Ok? && KeysFollow(before, after, if i in moved then moved - {i} else moved + {i}, keys0, r.value)
  {
    var moved' := if i in moved then moved - {i} else moved + {i};
    var prior, later := before[i].name, after[i].name;
    assert RenamesColumn(c, before, i, after[i]);
    if i in moved {
      assert IsMoved(before, i, moved);
    } else {
      NotTouched(c, before, after, moved, i);
    }
    var from, to := if i in moved then later else prior, if i in moved then prior else later;
    var keys' := RenameKey(kind, keys, from, to).value;
    forall j: nat | IsMoved(before, j, moved') ensures KeyMoved(before[j].name, after[j].name, keys0, keys') {
      if j != i {
        assert IsMoved(before, j, moved);
        NamesApart(c, before, after, i, j);
      }
    }
    forall k | !Touched(before, after, moved', k) ensures SameKey(k, keys0, keys') {
      if k != prior && k != later {
        if Touched(before, after, moved, k) {
          var j: nat :| IsMoved(before, j, moved) && (k == before[j].name || k == after[j].name);
          assert IsMoved(before, j, moved');
        }
      } else {
        assert i in moved ==> i !in moved';
        assert i !in moved ==> IsMoved(before, i, moved');
      }
    }
  }

  lemma NamesApart(c: Codec, before: seq<Column>, after: seq<Column>, i: nat, j: nat)
    requires DistinctNames(before) && Renames(c, before, after) && i < |before| && j < |before| && i != j
    requires Reserved(before[i].name)
    ensures before[i].name != before[j].name && after[i].name != after[j].name
    ensures before[i].name != after[j].name && after[i].name != before[j].name
  {
    assert RenamesColumn(c, before, i, after[i]) && RenamesColumn(c, before, j, after[j]);
    assert before[j].name in Names(before);
  }

  lemma NotTouched(c: Codec, before: seq<Column>, after: seq<Column>, moved: set<nat>, i: nat)
    requires DistinctNames(before) && Renames(c, before, after)
    requires i < |before| && Reserved(before[i].name) && i !in moved
    ensures !Touched(before, after, moved, before[i].name) && !Touched(before, after, moved, after[i].name)
  {
    forall j: nat | IsMoved(before, j, moved)
      ensures before[i].name != before[j].name && before[i].name != after[j].name
      ensures after[i].name != before[j].name && after[i].name != after[j].name
    {
      NamesApart(c, before, after, i, j);
    }
  }

  // ---------------------------------------------------------------- restorable tables

  /** What the catalog guarantees: distinct names, no empty comments. */
  ghost predicate Stored(t: Table) {
    DistinctNames(t.columns) && forall i :: 0 <= i < |t.columns| ==> t.columns[i].comment != Some("")
  }

  /**
   * The guard of an exact round trip: no ordinary column carries a comment that reads as a rename
   * marker, and no metadata entry already has a name that the upgrade hands out.
   */
  ghost predicate Restorable(c: Codec, t: Table) {
    && (forall i :: 0 <= i < |t.columns| && !Reserved(t.columns[i].name) ==> !Marked(c, t.columns[i]))
    && (t.kind != Unmanaged ==> NoStaleKeys(t.columns, RenamedColumns(c, t.columns, 0), t.keys))
  }

  ghost predicate Follows(kind: Kind, before: seq<Column>, after: seq<Column>, moved: set<nat>,
                          keys0: map<string, string>, keys: map<string, string>)
    requires |before| == |after|
  {
    if kind == Unmanaged then keys == keys0 else KeysFollow(before, after, moved, keys0, keys)
  }

  lemma MoveEntry(c: Codec, before: seq<Column>, after: seq<Column>, moved: set<nat>, i: nat,
                  kind: Kind, keys0: map<string, string>, keys: map<string, string>)
    requires DistinctNames(before) && Renames(c, before, after)
    requires kind != Unmanaged ==> NoStaleKeys(before, after, keys0)
    requires i < |before| && Reserved(before[i].name)
    requires Follows(kind, before, after, moved, keys0, keys)
    ensures var from, to := if i in moved then after[i].name else before[i].name,
                            if i in moved then before[i].name else after[i].name;
            var r := RenameKey(kind, keys, from, to);
            r.Ok? && Follows(kind, before, after, if i in moved then moved - {i} else moved + {i}, keys0, r.value)
  {
    if kind != Unmanaged {
      MoveKey(c, before, after, moved, i, kind, keys0, keys);
    }
  }

  lemma FollowsOnlyReserved(kind: Kind, before: seq<Column>, after: seq<Column>, moved: set<nat>, moved': set<nat>,
                            keys0: map<string, string>, keys: map<string, string>)
    requires |before| == |after| && Follows(kind, before, after, moved, keys0, keys)
    requires forall i: nat :: IsMoved(before, i, moved) <==> IsMoved(before, i, moved')
    ensures Follows(kind, before, after, moved', keys0, keys)
  {
    if kind != Unmanaged {
      forall i: nat | IsMoved(before, i, moved') ensures KeyMoved(before[i].name, after[i].name, keys0, keys) {
        assert IsMoved(before, i, moved);
      }
      forall k | Touched(before, after, moved, k) ensures Touched(before, after, moved', k) {
        var i: nat :| IsMoved(before, i, moved) && (k == before[i].name || k == after[i].name);
        assert IsMoved(before, i, moved');
      }
      forall k | !Touched(before, after, moved', k) ensures SameKey(k, keys0, keys) {
        assert !Touched(before, after, moved, k);
      }
    }
  }

  lemma NothingMoved(
      kind: Kind, before: seq<Column>, after: seq<Column>, keys0: map<string, string>, keys: map<string, string>)
    requires |before| == |after|
    ensures Follows(kind, before, after, {}, keys0, keys) <==> keys == keys0
  {
    if kind != Unmanaged {
      forall k ensures !Touched(before, after, {}, k) {}
      if KeysFollow(before, after, {}, keys0, keys) {
        forall k | k in keys0 || k in keys ensures SameKey(k, keys0, keys) {
          assert !Touched(before, after, {}, k);
        }
        assert keys.Keys == keys0.Keys;
        assert forall k :: k in keys0 ==> SameKey(k, keys0, keys);
      } else {
        assert forall i: nat :: !IsMoved(before, i, {});
        assert keys == keys0 ==> forall k :: SameKey(k, keys0, keys);
      }
    }
  }

  lemma {:induction false} RenamedPrefix(c: Codec, columns: seq<Column>, i: nat)
    requires i <= |columns|
    ensures RenamedColumns(c, columns, i)[..i] == columns[..i]
    decreases |columns| - i
  {
    if i < |columns| {
      var col := columns[i];
      var col' := if !Reserved(col.name) then col
                  else Column(FreshName(Names(columns), col.name), Some(RenameComment(c, col.name, col.comment)), col.cells);
      RenamedPrefix(c, columns[i := col'], i + 1);
      assert RenamedColumns(c, columns, i)[..i] == RenamedColumns(c, columns[i := col'], i + 1)[..i + 1][..i];
    }
  }

  function Upto(i: nat): (r: set<nat>)
    ensures forall j: nat :: j in r <==> j < i
  {
    if i == 0 then {} else Upto(i - 1) + {i - 1}
  }

  /** The loop's turn at a reserved column gives it its final form. */
  lemma HandedOut(c: Codec, columns: seq<Column>, i: nat, after: seq<Column>)
    requires i < |columns| && Reserved(columns[i].name) && RenamedColumns(c, columns, i) == after
    ensures after[i] == Column(FreshName(Names(columns), columns[i].name),
                               Some(RenameComment(c, columns[i].name, columns[i].comment)), columns[i].cells)
    ensures RenamedColumns(c, columns[i := after[i]], i + 1) == after
  {
    var col := columns[i];
    var col' := Column(FreshName(Names(columns), col.name), Some(RenameComment(c, col.name, col.comment)), col.cells);
    RenamedPrefix(c, columns[i := col'], i + 1);
    assert after[i] == after[..i + 1][i] == col';
  }

  lemma RenameFollowsOne(c: Codec, before: Table, after: seq<Column>, t: Table, i: nat) returns (t': Table)
    requires DistinctNames(before.columns) && Renames(c, before.columns, after) && t.kind == before.kind
    requires before.kind != Unmanaged ==> NoStaleKeys(before.columns, after, before.keys)
    requires Progress(c, before.columns, t.columns, i) && RenamedColumns(c, t.columns, i) == after
    requires Follows(t.kind, before.columns, after, Upto(i), before.keys, t.keys)
    requires i < |t.columns| && t.columns[i] == before.columns[i] && Reserved(t.columns[i].name)
    ensures t'.kind == t.kind && Progress(c, before.columns, t'.columns, i + 1)
    ensures RenamedColumns(c, t'.columns, i + 1) == after
    ensures Follows(t.kind, before.columns, after, Upto(i + 1), before.keys, t'.keys)
    ensures RenameFrom(c, t, i) == RenameFrom(c, t', i + 1)
  {
    HandedOut(c, t.columns, i, after);
    RenameProgresses(c, before.columns, t.columns, i, after[i].name);
    MoveEntry(c, before.columns, after, Upto(i), i, t.kind, before.keys, t.keys);
    assert Upto(i) + {i} == Upto(i + 1);
    t' := RenameTurn(c, t, i, after[i]);
  }

  /** One turn of the rename loop whose metadata statement succeeds. */
  lemma RenameTurn(c: Codec, t: Table, i: nat, col: Column) returns (t': Table)
    requires i < |t.columns| && Reserved(t.columns[i].name)
    requires col == Column(FreshName(Names(t.columns), t.columns[i].name),
                           Some(RenameComment(c, t.columns[i].name, t.columns[i].comment)), t.columns[i].cells)
    requires RenameKey(t.kind, t.keys, t.columns[i].name, col.name).Ok?
    ensures t'.kind == t.kind && t'.columns == t.columns[i := col]
    ensures Ok(t'.keys) == RenameKey(t.kind, t.keys, t.columns[i].name, col.name)
    ensures RenameFrom(c, t, i) == RenameFrom(c, t', i + 1)
  {
    t' := RenameColumn(t, i, col.name, col.comment).value;
  }

  /** Without stale entries the rename loop succeeds and the metadata follows every column. */
  lemma {:induction false} RenameFollows(c: Codec, before: Table, after: seq<Column>, t: Table, i: nat)
    requires DistinctNames(before.columns) && Renames(c, before.columns, after) && t.kind == before.kind
    requires before.kind != Unmanaged ==> NoStaleKeys(before.columns, after, before.keys)
    requires Progress(c, before.columns, t.columns, i) && RenamedColumns(c, t.columns, i) == after
    requires Follows(t.kind, before.columns, after, Upto(i), before.keys, t.keys)
    ensures RenameFrom(c, t, i).Ok?
    ensures Follows(t.kind, before.columns, after, Upto(|after|), before.keys, RenameFrom(c, t, i).value.keys)
    decreases |t.columns| - i
  {
    if i < |t.columns| {
      var col := t.columns[i];
      assert col == t.columns[i..][0] == before.columns[i..][0] == before.columns[i];
      if Reserved(col.name) {
        var t' := RenameFollowsOne(c, before, after, t, i);
        RenameFollows(c, before, after, t', i + 1);
      } else {
        assert t.columns[i := col] == t.columns;
        assert t.columns[i + 1..] == t.columns[i..][1..] == before.columns[i + 1..];
        forall j: nat ensures IsMoved(before.columns, j, Upto(i)) <==> IsMoved(before.columns, j, Upto(i + 1)) {}
        FollowsOnlyReserved(t.kind, before.columns, after, Upto(i), Upto(i + 1), before.keys, t.keys);
        RenameFollows(c, before, after, t, i + 1);
      }
    }
  }

  function Elements(order: seq<nat>): set<nat> {
    set i | i in order
  }

  /** The positions still to be restored: moved ones, whose names have not been restored yet. */
  ghost predicate Pending(c: Codec, before: seq<Column>, after: seq<Column>, order: seq<nat>, restored: set<string>)
    requires |before| == |after|
  {
    && (forall k :: 0 <= k < |order| ==>
          order[k] < |after| && Reserved(before[order[k]].name) && Marked(c, after[order[k]]) &&
          before[order[k]].name !in restored)
    && (forall j, k :: 0 <= j < k < |order| ==> order[j] != order[k])
  }

  lemma PendingRest(c: Codec, before: seq<Column>, after: seq<Column>, order: seq<nat>, restored: set<string>)
    requires DistinctNames(before) && |before| == |after| && order != [] && Pending(c, before, after, order, restored)
    ensures Pending(c, before, after, order[1..], restored + {before[order[0]].name})
    ensures order[0] in Elements(order) && Elements(order[1..]) == Elements(order) - {order[0]}
  {
    forall k | 0 <= k < |order[1..]| ensures before[order[1..][k]].name != before[order[0]].name {
      assert order[1..][k] == order[k + 1];
    }
  }

  /** Column i is restored: its name, its comment and its metadata entry. */
  lemma RestoreOne(c: Codec, before: Table, after: seq<Column>, t: Table, moved: set<nat>, i: nat) returns (t': Table)
    requires Faithful(c) && Stored(before) && Renames(c, before.columns, after)
    requires before.kind != Unmanaged ==> NoStaleKeys(before.columns, after, before.keys)
    requires i < |after| && Reserved(before.columns[i].name) && i in moved
    requires t == before.(columns := Mix(before.columns, after, moved), keys := t.keys)
    requires Follows(t.kind, before.columns, after, moved, before.keys, t.keys)
    ensures RenameColumn(t, i, before.columns[i].name, before.columns[i].comment) == Ok(t')
    ensures t' == before.(columns := Mix(before.columns, after, moved - {i}), keys := t'.keys)
    ensures Follows(t.kind, before.columns, after, moved - {i}, before.keys, t'.keys)
  {
    var col := before.columns[i];
    assert RenamesColumn(c, before.columns, i, after[i]);
    MixNames(c, before.columns, after, moved, i);
    MoveEntry(c, before.columns, after, moved, i, t.kind, before.keys, t.keys);
    t' := RenameColumn(t, i, col.name, col.comment).value;
    assert t'.columns == Mix(before.columns, after, moved - {i});
  }

  /** Restoring the moved columns, in any order, brings back the table. */
  lemma {:induction false} RestoreFollows(
      c: Codec, before: Table, after: seq<Column>, t: Table, order: seq<nat>, restored: set<string>)
    requires Faithful(c) && Stored(before) && Renames(c, before.columns, after)
    requires before.kind != Unmanaged ==> NoStaleKeys(before.columns, after, before.keys)
    requires Pending(c, before.columns, after, order, restored)
    requires t == before.(columns := Mix(before.columns, after, Elements(order)), keys := t.keys)
    requires Follows(t.kind, before.columns, after, Elements(order), before.keys, t.keys)
    ensures Restore(c, t, after, order, restored) == Ok(before)
    decreases |order|
  {
    if order == [] {
      assert Elements(order) == {};
      assert Mix(before.columns, after, {}) == before.columns;
      NothingMoved(t.kind, before.columns, after, before.keys, t.keys);
    } else {
      var i, name := order[0], before.columns[order[0]].name;
      PendingRest(c, before.columns, after, order, restored);
      var t' := RestoreOne(c, before, after, t, Elements(order), i);
      RestoreFollows(c, before, after, t', order[1..], restored + {name});
      assert RenamesColumn(c, before.columns, i, after[i]);
      ParseOfRename(c, name, before.columns[i].comment);
    }
  }

  // ---------------------------------------------------------------- when the round trip fails

  /** The names that the columns still to be restored had at the start. */
  ghost predicate AtStart(t: Table, start: seq<Column>, order: seq<nat>) {
    |start| == |t.columns| && forall k :: 0 <= k < |order| ==>
      order[k] < |start| && t.columns[order[k]].name == start[order[k]].name
  }

  ghost predicate AllMarked(c: Codec, start: seq<Column>, order: seq<nat>) {
    && (forall k :: 0 <= k < |order| ==> order[k] < |start| && Marked(c, start[order[k]]))
    && (forall j, k :: 0 <= j < k < |order| ==> order[j] != order[k])
  }

  lemma {:induction false} RestoreLeavesOthers(
      c: Codec, t: Table, start: seq<Column>, order: seq<nat>, restored: set<string>, i: nat)
    requires |start| == |t.columns| && AllMarked(c, start, order) && i < |start| && i !in order
    requires Restore(c, t, start, order, restored).Ok?
    ensures var r := Restore(c, t, start, order, restored).value;
            |r.columns| == |t.columns| && r.columns[i] == t.columns[i]
    decreases |order|
  {
    if order != [] {
      var (name, comment) := ParseComment(c, start[order[0]].comment).value;
      assert order[0] in order && order[0] != i;
      assert forall k :: 0 <= k < |order[1..]| ==> order[1..][k] in order;
      RestoreLeavesOthers(c, RenameColumn(t, order[0], name, comment).value, start, order[1..], restored + {name}, i);
    }
  }

  /** A marked column never keeps its name: it is renamed, or the downgrade fails. */
  lemma {:induction false} RestoreRenames(
      c: Codec, t: Table, start: seq<Column>, order: seq<nat>, restored: set<string>, i: nat)
    requires AtStart(t, start, order) && AllMarked(c, start, order) && i in order
    requires Restore(c, t, start, order, restored).Ok?
    ensures var r := Restore(c, t, start, order, restored).value;
            |r.columns| == |t.columns| && r.columns[i].name != start[i].name
    decreases |order|
  {
    var (name, comment) := ParseComment(c, start[order[0]].comment).value;
    var t' := RenameColumn(t, order[0], name, comment).value;
    if order[0] == i {
      assert i !in order[1..];
      assert t.columns[i].name in Names(t.columns);
      RestoreLeavesOthers(c, t', start, order[1..], restored + {name}, i);
    } else {
      RestoreRenames(c, t', start, order[1..], restored + {name}, i);
    }
  }

  lemma RenameKeyFacts(kind: Kind, keys: map<string, string>, from: string, to: string)
    requires RenameKey(kind, keys, from, to).Ok?
    ensures var r := RenameKey(kind, keys, from, to).value;
            && |r| <= |keys|
            && (kind != Unmanaged && from in keys && to in keys && from != to ==> |r| < |keys|)
            && (forall k :: k in keys && k != from ==> k in r)
            && (kind != Unmanaged && from in keys ==> to in r)
  {
    var r := RenameKey(kind, keys, from, to).value;
    if kind != Unmanaged && from in keys {
      assert r.Keys == (keys.Keys - {from}) + {to};
      assert |keys.Keys - {from}| == |keys| - 1;
      if to in keys && from != to {
        assert r.Keys == keys.Keys - {from};
      }
    }
  }

  /** A reserved column and its new name both had metadata entries. */
  ghost predicate Collides(t: Table, r: Table, j: nat)
    requires j < |t.columns| == |r.columns|
  {
    && t.kind != Unmanaged && Reserved(t.columns[j].name) && !Reserved(r.columns[j].name)
    && t.columns[j].name in t.keys && r.columns[j].name in t.keys
  }

  /** One successful iteration of the rename loop on a reserved column. */
  lemma RenameStep(c: Codec, t: Table, i: nat) returns (t': Table)
    requires i < |t.columns| && Reserved(t.columns[i].name) && RenameFrom(c, t, i).Ok?
    ensures |t'.columns| == |t.columns| && RenameFrom(c, t', i + 1) == RenameFrom(c, t, i)
    ensures t'.columns == t.columns[i := t'.columns[i]] && t'.kind == t.kind
    ensures t'.columns[i].name !in Names(t.columns)
    ensures RenameKey(t.kind, t.keys, t.columns[i].name, t'.columns[i].name) == Ok(t'.keys)
  {
    var col := t.columns[i];
    t' := RenameColumn(t, i, FreshName(Names(t.columns), col.name), Some(RenameComment(c, col.name, col.comment))).value;
  }

  /** No entry gained, none with an unreserved name lost, and as many columns. */
  ghost predicate KeepsKeys(t: Table, r: Table) {
    && |r.keys| <= |t.keys| && |r.columns| == |t.columns|
    && (forall k :: k in t.keys && !Reserved(k) ==> k in r.keys)
  }

  lemma KeepsKeysThen(t: Table, t': Table, r: Table, from: string, to: string)
    requires Reserved(from) && RenameKey(t.kind, t.keys, from, to) == Ok(t'.keys) && |t'.columns| == |t.columns|
    requires KeepsKeys(t', r)
    ensures KeepsKeys(t, r)
  {
    RenameKeyFacts(t.kind, t.keys, from, to);
  }

  /** The rename loop never gains entries, and touches none with an unreserved name. */
  lemma {:induction false} RenameKeepsKeys(c: Codec, t: Table, i: nat)
    requires i <= |t.columns| && RenameFrom(c, t, i).Ok?
    ensures KeepsKeys(t, RenameFrom(c, t, i).value)
    decreases |t.columns| - i
  {
    if i < |t.columns| {
      if Reserved(t.columns[i].name) {
        var t' := RenameStep(c, t, i);
        RenameKeepsKeys(c, t', i + 1);
        KeepsKeysThen(t, t', RenameFrom(c, t', i + 1).value, t.columns[i].name, t'.columns[i].name);
      } else {
        RenameKeepsKeys(c, t, i + 1);
      }
    }
  }

  /** The turn that moves an entry onto another loses one. */
  lemma CollisionHere(c: Codec, t: Table, t': Table, i: nat)
    requires i < |t.columns| == |t'.columns| && t'.columns[i].name !in Names(t.columns)
    requires RenameKey(t.kind, t.keys, t.columns[i].name, t'.columns[i].name) == Ok(t'.keys)
    requires RenameFrom(c, t', i + 1).Ok? && |RenameFrom(c, t', i + 1).value.columns| == |t.columns|
    requires Collides(t, RenameFrom(c, t', i + 1).value, i)
    ensures |RenameFrom(c, t', i + 1).value.keys| < |t.keys|
  {
    NameIsFinal(c, t', i);
    RenameKeyFacts(t.kind, t.keys, t.columns[i].name, t'.columns[i].name);
    RenameKeepsKeys(c, t', i + 1);
    assert t.columns[i].name in Names(t.columns);
  }

  /** Earlier turns leave a coming collision in place. */
  lemma CollisionComes(t: Table, t': Table, r: Table, i: nat, j: nat)
    requires i < j < |t.columns| == |r.columns| && DistinctNames(t.columns) && Reserved(t.columns[i].name)
    requires |t'.columns| == |t.columns| && t'.columns == t.columns[i := t'.columns[i]] && t'.kind == t.kind
    requires t'.columns[i].name !in Names(t.columns)
    requires RenameKey(t.kind, t.keys, t.columns[i].name, t'.columns[i].name) == Ok(t'.keys)
    requires Collides(t, r, j)
    ensures DistinctNames(t'.columns) && Collides(t', r, j) && |t'.keys| <= |t.keys|
  {
    RenameKeyFacts(t.kind, t.keys, t.columns[i].name, t'.columns[i].name);
    NamesOfUpdate(t.columns, i, t'.columns[i]);
    assert t'.columns[j] == t.columns[j];
  }

  /** It loses an entry when one already has the new name of another. */
  lemma {:induction false} CollisionLoses(c: Codec, t: Table, i: nat, j: nat)
    requires i <= j < |t.columns| && DistinctNames(t.columns) && RenameFrom(c, t, i).Ok?
    requires |RenameFrom(c, t, i).value.columns| == |t.columns| && Collides(t, RenameFrom(c, t, i).value, j)
    ensures |RenameFrom(c, t, i).value.keys| < |t.keys|
    decreases |t.columns| - i
  {
    if !Reserved(t.columns[i].name) {
      CollisionLoses(c, t, i + 1, j);
    } else {
      var t' := RenameStep(c, t, i);
      if i == j {
        CollisionHere(c, t, t', i);
      } else {
        CollisionComes(t, t', RenameFrom(c, t, i).value, i, j);
        CollisionLoses(c, t', i + 1, j);
      }
    }
  }

  lemma NameIsFinal(c: Codec, t: Table, i: nat)
    requires i < |t.columns| && RenameFrom(c, t, i + 1).Ok?
    ensures |RenameFrom(c, t, i + 1).value.columns| == |t.columns|
    ensures RenameFrom(c, t, i + 1).value.columns[i] == t.columns[i]
  {
    RenameFromColumns(c, t, i + 1);
    RenamedPrefix(c, t.columns, i + 1);
    assert RenamedColumns(c, t.columns, i + 1)[..i + 1][i] == t.columns[..i + 1][i];
  }

  /** Restoring never gains entries, and gives a marked column's entry its original name. */
  lemma {:induction false} RestoreKeepsKeys(
      c: Codec, t: Table, start: seq<Column>, order: seq<nat>, restored: set<string>, i: nat, k: string)
    requires AtStart(t, start, order) && AllMarked(c, start, order) && DistinctNames(start)
    requires Restore(c, t, start, order, restored).Ok?
    requires forall n :: 0 <= n < |order| ==> start[order[n]].name != k
    ensures var r := Restore(c, t, start, order, restored).value;
            && |r.keys| <= |t.keys|
            && (k in t.keys ==> k in r.keys)
            && (t.kind != Unmanaged && i in order && start[i].name in t.keys && OriginalName(c, start[i]) == k ==>
                  k in r.keys)
    decreases |order|
  {
    if order != [] {
      var (name, comment) := ParseComment(c, start[order[0]].comment).value;
      var t' := RenameColumn(t, order[0], name, comment).value;
      RenameKeyFacts(t.kind, t.keys, start[order[0]].name, name);
      if i in order && i != order[0] {
        assert i in order[1..];
        assert start[i].name != start[order[0]].name;
      }
      RestoreKeepsKeys(c, t', start, order[1..], restored + {name}, i, k);
    }
  }

  // ---------------------------------------------------------------- main results

  lemma {:induction false} UpgradeShape(c: Codec, t: Table, workspace: string)
    requires DistinctNames(t.columns)
    ensures Renames(c, t.columns, RenamedColumns(c, t.columns, 0))
    ensures var r := RenameFrom(c, t, 0);
            r.Ok? ==>
              r.value == t.(columns := RenamedColumns(c, t.columns, 0), keys := r.value.keys) &&
              Dropped(WithTenant(r.value, workspace)) == r.value &&
              WithTenant(r.value, workspace).columns ==
                r.value.columns + [Column(TENANT_COLUMN, None, seq(t.rows, _ => Some(workspace)))]
  {
    RenamedColumnsRename(c, t.columns, t.columns, 0);
    RenameFromColumns(c, t, 0);
    if RenameFrom(c, t, 0).Ok? {
      NoneReserved(c, t.columns, RenamedColumns(c, t.columns, 0));
      TenantAdded(RenameFrom(c, t, 0).value, workspace);
    }
  }

  lemma MarkedIfMoved(c: Codec, before: seq<Column>, after: seq<Column>, i: nat)
    requires Faithful(c) && i < |before| == |after| && RenamesColumn(c, before, i, after[i])
    requires !Reserved(before[i].name) ==> !Marked(c, before[i])
    ensures Marked(c, after[i]) <==> Reserved(before[i].name)
  {
    ParseOfRename(c, before[i].name, before[i].comment);
  }

  /** Where no ordinary column is marked, the marked columns are the ones that were moved. */
  lemma {:induction false} AllToRestore(c: Codec, before: seq<Column>, after: seq<Column>, order: seq<nat>)
    requires Faithful(c) && Renames(c, before, after) && Enumerates(c, after, order)
    requires forall i :: 0 <= i < |before| && !Reserved(before[i].name) ==> !Marked(c, before[i])
    ensures Pending(c, before, after, order, {})
    ensures forall i: nat :: IsMoved(before, i, Upto(|after|)) <==> IsMoved(before, i, Elements(order))
    ensures Mix(before, after, Elements(order)) == after
  {
    forall i: nat | i < |after| ensures Marked(c, after[i]) <==> Reserved(before[i].name) {
      MarkedIfMoved(c, before, after, i);
    }
    forall i | 0 <= i < |after| ensures Mix(before, after, Elements(order))[i] == after[i] {
      assert RenamesColumn(c, before, i, after[i]);
    }
  }

  lemma {:induction false} RestorableRoundTrips(c: Codec, t: Table, workspace: string, order: seq<nat>)
    requires Faithful(c) && Stored(t) && Restorable(c, t)
    requires Enumerates(c, RenamedColumns(c, t.columns, 0), order)
    ensures Upgraded(c, t, workspace).Ok?
    ensures Dropped(Upgraded(c, t, workspace).value).columns == RenamedColumns(c, t.columns, 0)
    ensures Downgraded(c, Upgraded(c, t, workspace).value, order) == Ok(t)
  {
    var after := RenamedColumns(c, t.columns, 0);
    UpgradeShape(c, t, workspace);
    var renamed := RenamesAll(c, t, after);
    AllToRestore(c, t.columns, after, order);
    FollowsOnlyReserved(t.kind, t.columns, after, Upto(|after|), Elements(order), t.keys, renamed.keys);
    RestoreFollows(c, t, after, renamed, order, {});
  }

  lemma {:induction false} UnmarkedOrFails(c: Codec, t: Table, workspace: string, order: seq<nat>, i: nat)
    requires Faithful(c) && Stored(t) && Upgraded(c, t, workspace).Ok?
    requires Enumerates(c, RenamedColumns(c, t.columns, 0), order)
    requires i < |t.columns| && !Reserved(t.columns[i].name) && Marked(c, t.columns[i])
    ensures Dropped(Upgraded(c, t, workspace).value).columns == RenamedColumns(c, t.columns, 0)
    ensures Downgraded(c, Upgraded(c, t, workspace).value, order) != Ok(t)
  {
    var after := RenamedColumns(c, t.columns, 0);
    UpgradeShape(c, t, workspace);
    var renamed := RenameFrom(c, t, 0).value;
    assert RenamesColumn(c, t.columns, i, after[i]);
    if Restore(c, renamed, after, order, {}).Ok? {
      RestoreRenames(c, renamed, after, order, {}, i);
    }
  }

  lemma {:induction false} FreshOrFails(c: Codec, t: Table, workspace: string, order: seq<nat>, i: nat)
    requires Faithful(c) && Stored(t) && Upgraded(c, t, workspace).Ok? && t.kind != Unmanaged
    requires Enumerates(c, RenamedColumns(c, t.columns, 0), order)
    requires i < |t.columns| && Reserved(t.columns[i].name) && RenamedColumns(c, t.columns, 0)[i].name in t.keys
    ensures Dropped(Upgraded(c, t, workspace).value).columns == RenamedColumns(c, t.columns, 0)
    ensures Downgraded(c, Upgraded(c, t, workspace).value, order) != Ok(t)
  {
    var after := RenamedColumns(c, t.columns, 0);
    var name := t.columns[i].name;
    UpgradeShape(c, t, workspace);
    var renamed := RenameFrom(c, t, 0).value;
    assert RenamesColumn(c, t.columns, i, after[i]);
    ParseOfRename(c, name, t.columns[i].comment);
    RenameKeepsKeys(c, t, 0);
    if name in t.keys {
      CollisionLoses(c, t, 0, i);
    }
    if Restore(c, renamed, after, order, {}).Ok? {
      NoneReserved(c, t.columns, after);
      forall n | 0 <= n < |order| ensures after[order[n]].name != name {
        assert after[order[n]].name in Names(after);
      }
      assert i in order;
      RestoreKeepsKeys(c, renamed, after, order, {}, i, name);
    }
  }

  /**
   * `upgrade` then `downgrade` succeed and return exactly the original table, data, comments and
   * metadata included, if and only if the table is restorable; in whatever order columns are restored.
   */
  lemma {:induction false} RoundTrip(c: Codec, t: Table, workspace: string, order: seq<nat>)
    requires Faithful(c) && Stored(t)
    requires Enumerates(c, RenamedColumns(c, t.columns, 0), order)
    ensures Upgraded(c, t, workspace).Ok? ==>
              Dropped(Upgraded(c, t, workspace).value).columns == RenamedColumns(c, t.columns, 0)
    ensures (Upgraded(c, t, workspace).Ok? && Downgraded(c, Upgraded(c, t, workspace).value, order) == Ok(t)) <==>
            Restorable(c, t)
  {
    UpgradeShape(c, t, workspace);
    if Restorable(c, t) {
      RestorableRoundTrips(c, t, workspace, order);
    } else if Upgraded(c, t, workspace).Ok? {
      if i :| 0 <= i < |t.columns| && !Reserved(t.columns[i].name) && Marked(c, t.columns[i]) {
        UnmarkedOrFails(c, t, workspace, order, i);
      } else {
        var i: nat :| i < |t.columns| && Reserved(t.columns[i].name) && RenamedColumns(c, t.columns, 0)[i].name in t.keys;
        FreshOrFails(c, t, workspace, order, i);
      }
    }
  }

  /** Where metadata names only physical columns, no entry has a handed-out name. */
  ghost predicate NamesPhysical(t: Table) {
    forall k :: k in t.keys ==> k in Names(t.columns)
  }

  /** No ordinary column carries a comment that reads as a rename marker. */
  ghost predicate NoneMarked(c: Codec, t: Table) {
    forall i :: 0 <= i < |t.columns| && !Reserved(t.columns[i].name) ==> !Marked(c, t.columns[i])
  }

  /**
   * Where metadata names only physical columns, the round trip is exact if and only if no ordinary column
   * carries a rename marker.
   */
  lemma {:induction false} PhysicalRoundTrip(c: Codec, t: Table, workspace: string, order: seq<nat>)
    requires Faithful(c) && Stored(t) && NamesPhysical(t)
    requires Enumerates(c, RenamedColumns(c, t.columns, 0), order)
    ensures Upgraded(c, t, workspace).Ok?
    ensures Dropped(Upgraded(c, t, workspace).value).columns == RenamedColumns(c, t.columns, 0)
    ensures Downgraded(c, Upgraded(c, t, workspace).value, order) == Ok(t) <==> NoneMarked(c, t)
  {
    UpgradedNames(c, t, workspace);
    RoundTrip(c, t, workspace, order);
    NoStaleNames(c, t, workspace);
  }

  lemma {:induction false} NoStaleNames(c: Codec, t: Table, workspace: string)
    requires DistinctNames(t.columns) && NamesPhysical(t)
    ensures NoStaleKeys(t.columns, RenamedColumns(c, t.columns, 0), t.keys)
  {
    var after := RenamedColumns(c, t.columns, 0);
    UpgradeShape(c, t, workspace);
    forall i | 0 <= i < |after| && Reserved(t.columns[i].name) ensures after[i].name !in t.keys {
      assert RenamesColumn(c, t.columns, i, after[i]);
    }
  }

  /**
   * After the upgrade names are distinct, only the tenant column is in the reserved namespace, and
   * metadata that named physical columns still names them.
   */
  lemma UpgradedNames(c: Codec, t: Table, workspace: string)
    requires DistinctNames(t.columns) && NamesPhysical(t)
    ensures Upgraded(c, t, workspace).Ok?
    ensures var r := Upgraded(c, t, workspace).value;
            && DistinctNames(r.columns)
            && (forall name :: name in Names(r.columns) && Reserved(name) ==> name == TENANT_COLUMN)
            && (t.kind != Unmanaged ==> NamesPhysical(r))
  {
    var after := RenamedColumns(c, t.columns, 0);
    var tenant := Column(TENANT_COLUMN, None, seq(t.rows, _ => Some(workspace)));
    UpgradeShape(c, t, workspace);
    NoStaleNames(c, t, workspace);
    var renamed := RenamesAll(c, t, after);
    var r := WithTenant(renamed, workspace);
    NoneReserved(c, t.columns, after);
    NamesWithTenant(after, tenant, r.columns);
    if t.kind != Unmanaged {
      forall k | k in r.keys ensures k in Names(r.columns) {
        StillPhysical(c, t, after, renamed.keys, k);
      }
    }
  }

  /** Without stale entries the whole rename loop succeeds. */
  lemma RenamesAll(c: Codec, t: Table, after: seq<Column>) returns (renamed: Table)
    requires DistinctNames(t.columns) && after == RenamedColumns(c, t.columns, 0) && Renames(c, t.columns, after)
    requires t.kind != Unmanaged ==> NoStaleKeys(t.columns, after, t.keys)
    ensures RenameFrom(c, t, 0) == Ok(renamed)
    ensures Follows(t.kind, t.columns, after, Upto(|after|), t.keys, renamed.keys)
  {
    NothingMoved(t.kind, t.columns, after, t.keys, t.keys);
    assert Upto(0) == {};
    RenameFollows(c, t, after, t, 0);
    renamed := RenameFrom(c, t, 0).value;
  }

  lemma NamesWithTenant(after: seq<Column>, tenant: Column, columns: seq<Column>)
    requires columns == after + [tenant] && tenant.name == TENANT_COLUMN
    requires DistinctNames(after) && forall name :: name in Names(after) ==> !Reserved(name)
    ensures DistinctNames(columns)
    ensures forall name :: name in Names(columns) <==> name in Names(after) || name == TENANT_COLUMN
  {
    assert Reserved(TENANT_COLUMN);
    assert forall i :: 0 <= i < |after| ==> columns[i] == after[i] && after[i].name in Names(after);
    assert columns[|after|] == tenant;
    forall name | name in Names(after) ensures name in Names(columns) {
      var i :| 0 <= i < |after| && after[i].name == name;
      assert columns[i].name == name;
    }
  }

  /** The entry of a moved column names it under its new name, and no entry keeps its prior name. */
  lemma MovedStillPhysical(before: seq<Column>, after: seq<Column>, moved: set<nat>,
                           keys0: map<string, string>, keys: map<string, string>, k: string)
    requires |before| == |after| && Touched(before, after, moved, k) && k in keys
    requires KeysFollow(before, after, moved, keys0, keys)
    ensures k in Names(after)
  {
    var i: nat :| IsMoved(before, i, moved) && (k == before[i].name || k == after[i].name);
    assert KeyMoved(before[i].name, after[i].name, keys0, keys);
  }

  /** An entry of no moved column names an ordinary one, which keeps its name. */
  lemma OtherStillPhysical(c: Codec, before: seq<Column>, after: seq<Column>, moved: set<nat>, i: nat)
    requires i < |before| == |after| && i in moved && !Touched(before, after, moved, before[i].name)
    requires RenamesColumn(c, before, i, after[i])
    ensures before[i].name in Names(after)
  {
    assert !IsMoved(before, i, moved);
    assert after[i].name in Names(after);
  }

  lemma UntouchedEntry(before: seq<Column>, after: seq<Column>, moved: set<nat>,
                       keys0: map<string, string>, keys: map<string, string>, k: string)
    requires |before| == |after| && !Touched(before, after, moved, k) && k in keys
    requires KeysFollow(before, after, moved, keys0, keys)
    ensures k in keys0
  {
    assert SameKey(k, keys0, keys);
  }

  lemma {:induction false} StillPhysical(c: Codec, t: Table, after: seq<Column>, keys: map<string, string>, k: string)
    requires Renames(c, t.columns, after) && NamesPhysical(t) && k in keys
    requires KeysFollow(t.columns, after, Upto(|after|), t.keys, keys)
    ensures k in Names(after)
  {
    var moved := Upto(|after|);
    if Touched(t.columns, after, moved, k) {
      MovedStillPhysical(t.columns, after, moved, t.keys, keys, k);
    } else {
      UntouchedEntry(t.columns, after, moved, t.keys, keys, k);
      var i: nat :| i < |t.columns| && t.columns[i].name == k;
      OtherStillPhysical(c, t.columns, after, moved, i);
    }
  }

  // ---------------------------------------------------------------- the table, in place

  lemma RestIsInspected(inspected: seq<Column>, columns: seq<Column>, i: nat)
    requires i < |columns| == |inspected| && columns[i..] == inspected[i..]
    ensures inspected[i] == columns[i] && inspected[i + 1..] == columns[i + 1..]
  {
    assert inspected[i] == columns[i..][0] == columns[i];
    assert inspected[i + 1..] == columns[i..][1..] == columns[i + 1..];
  }

  /** One turn of the loop that restores, as the loop over the table sees it. */
  lemma {:induction false} NextTurn(
      c: Codec, t: Table, start: seq<Column>, order: seq<nat>, k: nat, restored: set<string>)
    requires k < |order| && |start| == |t.columns|
    requires forall n :: 0 <= n < |order| ==> order[n] < |start| && Marked(c, start[order[n]])
    requires Marked(c, start[order[k]])
    ensures var (name, comment) := ParseComment(c, start[order[k]].comment).value;
            Restore(c, t, start, order[k..], restored) ==
            if name in restored then Err(MultipleMigrated(name))
            else
              match RenameColumn(t, order[k], name, comment)
              case Err(e) => Err(e)
              case Ok(t') => Restore(c, t', start, order[k + 1..], restored + {name})
  {
    assert order[k..][0] == order[k] && order[k..][1..] == order[k + 1..];
  }

  /** A physical dynamic table that the migration alters statement by statement. */
  class DynamicTable {
    const rows: nat
    const kind: Kind
    var columns: seq<Column>
    var keys: map<string, string>

    ghost function Contents(): Table
      reads this
    {
      Table(columns, rows, kind, keys)
    }

    constructor (t: Table)
      ensures Contents() == t
    {
      rows, kind, columns, keys := t.rows, t.kind, t.columns, t.keys;
    }

    /** `ALTER TABLE … RENAME COLUMN`, `COMMENT ON COLUMN`, and the metadata statement. */
    method Rename(i: nat, name: string, comment: Option<string>) returns (failure: Option<Error>)
      requires i < |columns|
      modifies this
      ensures failure.None? ==> RenameColumn(old(Contents()), i, name, comment) == Ok(Contents())
      ensures failure.Some? ==> RenameColumn(old(Contents()), i, name, comment) == Err(failure.value)
    {
      if name in Names(columns) {
        return Some(DuplicateColumn(name));
      }
      var renamed := RenameKey(kind, keys, columns[i].name, name);
      if renamed.Err? {
        return Some(renamed.error);
      }
      columns := columns[i := Column(name, StoredComment(comment), columns[i].cells)];
      keys := renamed.value;
      return None;
    }

    /** One turn of the loop on a reserved column, with the running set of names. */
    method MoveAside(c: Codec, i: nat, columnNames: set<string>) returns (failure: Option<Error>, names: set<string>)
      requires i < |columns| && Reserved(columns[i].name)
      requires columnNames == Names(columns) && DistinctNames(columns)
      modifies this
      ensures failure.None? ==> |columns| == |old(columns)| && columns[i + 1..] == old(columns)[i + 1..]
      ensures failure.None? ==> names == Names(columns) && DistinctNames(columns)
      ensures failure.None? ==> RenameFrom(c, old(Contents()), i) == RenameFrom(c, Contents(), i + 1)
      ensures failure.Some? ==> RenameFrom(c, old(Contents()), i) == Err(failure.value)
    {
      ghost var prior := Contents();
      var original, comment := columns[i].name, RenameComment(c, columns[i].name, columns[i].comment);
      var name := NextLegacyName(columnNames, original);
      MoveAsideFacts(c, prior, i, name, comment);
      failure := Rename(i, name, Some(comment));
      names := columnNames - {original} + {name};
    }

    /** One turn of the loop, on a column as inspected at the start. */
    method Turn(c: Codec, i: nat, inspected: Column, columnNames: set<string>)
      returns (failure: Option<Error>, names: set<string>)
      requires i < |columns| && columns[i] == inspected
      requires columnNames == Names(columns) && DistinctNames(columns)
      modifies this
      ensures failure.None? ==> |columns| == |old(columns)| && columns[i + 1..] == old(columns)[i + 1..]
      ensures failure.None? ==> names == Names(columns) && DistinctNames(columns)
      ensures failure.None? ==> RenameFrom(c, old(Contents()), i) == RenameFrom(c, Contents(), i + 1)
      ensures failure.Some? ==> RenameFrom(c, old(Contents()), i) == Err(failure.value)
    {
      failure, names := None, columnNames;
      if Reserved(inspected.name) {
        failure, names := MoveAside(c, i, columnNames);
      }
    }

    /** `_rename_legacy_internal_columns` over the columns as inspected at the start. */
    method RenameLegacyColumns(c: Codec) returns (failure: Option<Error>)
      requires DistinctNames(columns)
      modifies this
      ensures failure.None? ==> RenameFrom(c, old(Contents()), 0) == Ok(Contents())
      ensures failure.Some? ==> RenameFrom(c, old(Contents()), 0) == Err(failure.value)
    {
      ghost var start := Contents();
      var inspected := columns;
      var columnNames := Names(inspected);
      for i := 0 to |inspected|
        invariant |columns| == |inspected| && columns[i..] == inspected[i..]
        invariant columnNames == Names(columns) && DistinctNames(columns)
        invariant RenameFrom(c, Contents(), i) == RenameFrom(c, start, 0)
      {
        RestIsInspected(inspected, columns, i);
        failure, columnNames := Turn(c, i, inspected[i], columnNames);
        if failure.Some? {
          return;
        }
      }
      return None;
    }

    /** `_ensure_tenant_column` */
    method EnsureTenantColumn(c: Codec, workspace: string) returns (failure: Option<Error>)
      requires DistinctNames(columns)
      modifies this
      ensures failure.None? ==> Upgraded(c, old(Contents()), workspace) == Ok(Contents())
      ensures failure.Some? ==> Upgraded(c, old(Contents()), workspace) == Err(failure.value)
    {
      failure := RenameLegacyColumns(c);
      if failure.Some? {
        return;
      }
      if TENANT_COLUMN !in Names(columns) {
        columns := columns + [Column(TENANT_COLUMN, None, Nulls(rows))];
      }
      var all := columns;
      columns := seq(|all|, i requires 0 <= i < |all| =>
        if all[i].name == TENANT_COLUMN then all[i].(cells := FillNulls(all[i].cells, workspace)) else all[i]);
    }

    /** One turn of the loop that restores: the column at the k-th position of the order. */
    method RestoreTurn(c: Codec, ghost start: seq<Column>, inspected: Column, ghost order: seq<nat>, ghost k: nat,
                       i: nat, restored: set<string>)
      returns (failure: Option<Error>, names: set<string>)
      requires k < |order| && i == order[k] && |start| == |columns|
      requires forall n :: 0 <= n < |order| ==> order[n] < |start| && Marked(c, start[order[n]])
      requires inspected == start[i] && Marked(c, inspected)
      modifies this
      ensures failure.None? ==>
                |columns| == |start| &&
                Restore(c, old(Contents()), start, order[k..], restored) ==
                Restore(c, Contents(), start, order[k + 1..], names)
      ensures failure.Some? ==> Restore(c, old(Contents()), start, order[k..], restored) == Err(failure.value)
    {
      var (name, comment) := ParseComment(c, inspected.comment).value;
      NextTurn(c, Contents(), start, order, k, restored);
      if name in restored {
        return Some(MultipleMigrated(name)), restored;
      }
      failure := Rename(i, name, comment);
      names := restored + {name};
    }

    /** The loop over the marked columns, in the given order. */
    method RestoreColumns(c: Codec, order: seq<nat>) returns (failure: Option<Error>)
      requires forall n :: 0 <= n < |order| ==> order[n] < |columns| && Marked(c, columns[order[n]])
      modifies this
      ensures failure.None? ==> Restore(c, old(Contents()), old(columns), order, {}) == Ok(Contents())
      ensures failure.Some? ==> Restore(c, old(Contents()), old(columns), order, {}) == Err(failure.value)
    {
      ghost var start := Contents();
      var inspected := columns;
      var restored: set<string> := {};
      assert order[0..] == order;
      for k := 0 to |order|
        invariant |columns| == |inspected|
        invariant Restore(c, Contents(), inspected, order[k..], restored) == Restore(c, start, inspected, order, {})
      {
        failure, restored := RestoreTurn(c, inspected, inspected[order[k]], order, k, order[k], restored);
        if failure.Some? {
          return;
        }
      }
      return None;
    }

    /** `downgrade`: drop the tenant column, then restore the marked columns. */
    method Downgrade(c: Codec, order: seq<nat>) returns (failure: Option<Error>)
      requires Enumerates(c, WithoutTenant(columns), order)
      modifies this
      ensures failure.None? ==> Downgraded(c, old(Contents()), order) == Ok(Contents())
      ensures failure.Some? ==> Downgraded(c, old(Contents()), order) == Err(failure.value)
    {
      columns := WithoutTenant(columns);
      failure := RestoreColumns(c, order);
    }
  }
}
