# Tracecat: verified data migrations and runtime helpers

Tracecat's database moves forward by Alembic migrations, and several of them are real transformations of
data: they rename, relabel, renumber, compile, partition, merge and link rows, most of them with a way back.
This project models those migrations, and four runtime modules with proper invariants, in Dafny, and proves
what they keep, what they undo and when exactly they do so. A SQL statement is one atomic step on tables
held as maps, sequences or sets of rows; a failing statement rolls the migration back. Ids that the system
draws at random are taken from a supply of unused values. Where a promise of the code's documentation does
not hold on all inputs, the theorem is an if-and-only-if with the exact condition.

| files | what they model |
|---|---|
| `ReservedColumns.dfy`, `EditedTables.dfy` | user columns moved out of the `__tc_` namespace and back (`b5fc4168fe22`) |
| `WorkflowGraphs.dfy`, `Uuids.dfy`, `UuidTexts.dfy`, `ActionGraph.dfy`, `CompiledGraphs.dfy`, `GraphFormats.dfy`, `GraphConservation.dfy`, `GraphStore.dfy` | stored workflow graphs compiled into upstream edge lists and back (`9079ae19374b`) |
| `PrefixedIds.dfy`, `PrefixedRows.dfy`, `PrefixedTables.dfy` | prefixed ids and all references to them replaced by UUIDs, and back (`b23b877ee161`) |
| `GraphMigrations.dfy` | the commuting diagram of those two migrations |
| `CaseNumbers.dfy` | workspace-scoped case numbers, allocated by concurrent transactions (`13cfd6e83e36`) |
| `CatalogBackfill.dfy`, `BackfillEffects.dfy`, `BackfillRows.dfy`, `BackfillStore.dfy` | the idempotent backfill of catalog, grants and links (`96470fdcc686`) |
| `EntitlementCache.dfy`, `CacheInterleavings.dfy` | the LRU entitlement cache with its suspended misses (`tracecat/service.py`) |
| `FlatObjects.dfy`, `LeafLocations.dfy`, `NestedDicts.dfy` | flattening and rebuilding of nested objects (`tracecat/parse.py`) |
| `OrganizationKey.dfy`, `KeyReplacement.dfy` | a primary key replaced under discovered foreign keys (`4ef4d2e1d57b`) |
| `CaseFieldPartition.dfy`, `PartitionEffects.dfy`, `FieldStore.dfy` | one table split over workspace schemas and merged back (`b4d8b2f2c9dd`) |
| `ScopeLinks.dfy` | duplicate scopes replaced by canonical ones (`c9e4f54f0a2b`) |
| `SchemaTypes.dfy`, `SchemaRanks.dfy`, `TypeTexts.dfy` | JSON-schema types rendered for the docs (`scripts/generate_ai_docs.py`) |
| `Base62.dfy`, `Decimals.dfy`, `Wrappers.dfy` | short ids, decimal numerals, and the values and facts that several modules share |

Each migration has a specification on values, about which the theorems are stated, and a class or methods
that update the tables in place, loop by loop and statement by statement, proved equal to the specification.
What each operation computes is also said on the rows, keys and texts themselves, in terms of the literal
names and constants of the code (the theorems ending in `Exactly`, and those of `BackfillRows`, `TypeTexts`
and `CompiledGraphs`). Lemmas over recursive definitions carry `{:induction false}`: every induction is
written out.

## Where the code and its promises part

- The cache is meant to be least-recently-used. It is as long as no key is looked up while a miss on it is
  suspended, and only then safely (`DisciplinedRunsKeepRecency`, `DisciplineIsExact`). With the eight
  entitlements and 32 places that there are, nothing is ever evicted and only the order of use can drift
  (`ServiceNeverEvicts`); an answer could be lost as soon as there were as many keys as places
  (`NeverLosesExactly`, `DoubleMissEvicts`).
- Restoring renamed columns is exact unless an ordinary column already carries a rename marker as its
  comment, or a metadata entry already has a name that the upgrade hands out (`RoundTrip`).
- Relabelling drops the first four characters of an action id unseen and accepts every text PostgreSQL casts.
  Among ids that start with `act-`, those of another form than 32 bare hex digits behind it are relabelled,
  but the later migration reads them differently (`GeneratedIdsCommute`); `MigrationsCommute` has the exact
  condition for any four characters. A downgrade restores no id of another form (`UpgradeDowngrade`).
- The backfill's description says that presets are linked when the match is unambiguous. The code links them
  also where several rows match, to any one of the foremost; `ChooseBest` and `Rerun` hold for every choice.
  It also says that each step is idempotent, which is proved, but a run fails where an organization keeps a
  provider's secret in several environments (`RunSucceeds`).
- Partitioning is described as tolerating workspace tables that exist already. The count comparison lets
  them pass only while they are empty (`UpgradeExactly`).
- The renderer follows every `$ref` without a guard. It ends exactly on schemas from which no chain of
  references comes back to a definition it has been through (`RenderableExactly`).
- Foreign keys are described as re-created with their original actions, which is proved; a constraint that
  was deferrable comes back without that property (`ReplacementSucceeds`).

## Model

| member | source | states |
|---|---|---|
| `ReservedColumns.CandidatesFit` | alembic/versions/b5fc4168fe22_apply_model_a_rls_to_dynamic_workspace_.py:89-97 | If the first n rename candidates are all taken then n names exist already, so the search cannot run past the number of existing names |
| `ReservedColumns.NextLegacyName` | alembic/versions/b5fc4168fe22_apply_model_a_rls_to_dynamic_workspace_.py:86-97 | The search ends after at most one candidate more than there are names, with the first candidate that is unused, and that candidate is outside the reserved namespace |
| `ReservedColumns.ParseOfRename` | alembic/versions/b5fc4168fe22_apply_model_a_rls_to_dynamic_workspace_.py:100-133 | Reading a rename comment returns the original name and the original comment, absent or present |
| `ReservedColumns.FreshForOriginal` | alembic/versions/b5fc4168fe22_apply_model_a_rls_to_dynamic_workspace_.py:307-346 | A name handed out during the loop equals no original name of any column, not even of one already renamed away |
| `ReservedColumns.UpgradeShape` | alembic/versions/b5fc4168fe22_apply_model_a_rls_to_dynamic_workspace_.py:299-471 | The upgrade renames exactly the reserved columns, each to a new unreserved name with its past in its comment, leaves every other column and all cells as they were, and appends one tenant column that holds the workspace in every row |
| `ReservedColumns.RenameFollows` | alembic/versions/b5fc4168fe22_apply_model_a_rls_to_dynamic_workspace_.py:312-360 | Without stale entries no rename fails, and after the loop every metadata entry of a renamed column stands under its new name and no other entry has moved |
| `ReservedColumns.UpgradedNames` | alembic/versions/b5fc4168fe22_apply_model_a_rls_to_dynamic_workspace_.py:299-490 | Where metadata names physical columns the upgrade cannot fail; afterwards names are distinct, the tenant column is the only reserved one, and metadata still names physical columns |
| `ReservedColumns.RestoreFollows` | alembic/versions/b5fc4168fe22_apply_model_a_rls_to_dynamic_workspace_.py:363-426 | Restoring the renamed columns in any order, with any of them restored already, never meets an existing name and brings back columns, comments and metadata |
| `ReservedColumns.UnmarkedOrFails` | alembic/versions/b5fc4168fe22_apply_model_a_rls_to_dynamic_workspace_.py:374-426 | An ordinary column whose comment reads as a rename marker spoils every round trip: the downgrade fails or the table differs |
| `ReservedColumns.FreshOrFails` | alembic/versions/b5fc4168fe22_apply_model_a_rls_to_dynamic_workspace_.py:248-296 | A metadata entry that already has a name the upgrade hands out spoils every round trip |
| `ReservedColumns.RoundTrip` | alembic/versions/b5fc4168fe22_apply_model_a_rls_to_dynamic_workspace_.py:299-460 | `upgrade` then `downgrade` succeed and return exactly the original columns, cells, comments and metadata if and only if no ordinary column carries a rename marker and no metadata entry has a handed-out name; a user column called `__tc_workspace_id` is no exception |
| `ReservedColumns.PhysicalRoundTrip` | alembic/versions/b5fc4168fe22_apply_model_a_rls_to_dynamic_workspace_.py:224-460 | Where metadata names only physical columns, the upgrade succeeds and the round trip is exact if and only if no ordinary column carries a comment that reads as a rename marker |
| `EditedTables.UpgradedExactly` | alembic/versions/b5fc4168fe22_apply_model_a_rls_to_dynamic_workspace_.py:81-471 | An upgrade gives every column `__tc_x` the first of the names `migrated_tc_x`, `migrated_tc_x_1`, `migrated_tc_x_2`, … that no column has when its turn comes, writes its name and comment behind `tracecat:b5fc4168fe22:legacy-internal-column:` into its comment, leaves all other columns alone and appends `__tc_workspace_id` with the workspace in every row |
| `EditedTables.UpgradeSucceeds` | alembic/versions/b5fc4168fe22_apply_model_a_rls_to_dynamic_workspace_.py:224-360 | The upgrade fails if and only if the metadata are rows, some reserved column has one, and another row already has the column's new name |
| `EditedTables.TenantDropped` | alembic/versions/b5fc4168fe22_apply_model_a_rls_to_dynamic_workspace_.py:569-575 | Of a table with distinct names the downgrade drops the column called `__tc_workspace_id`, wherever it stands, and no other; without one of that name it drops nothing |
| `EditedTables.EditedDowngrade` | alembic/versions/b5fc4168fe22_apply_model_a_rls_to_dynamic_workspace_.py:363-426 | Downgrading a restorable table that was edited since its upgrade (any rows and cells, columns added behind, metadata written under their names) succeeds and returns the original names, comments and metadata with today's cells, followed by the added columns; in whatever order columns are restored |
| `ReservedColumns.DynamicTable.Rename` | alembic/versions/b5fc4168fe22_apply_model_a_rls_to_dynamic_workspace_.py:323-360 | One `RENAME COLUMN`, its comment and its metadata statement have the effect and the failures of the specified rename |
| `ReservedColumns.DynamicTable.RenameLegacyColumns` | alembic/versions/b5fc4168fe22_apply_model_a_rls_to_dynamic_workspace_.py:299-360 | The loop over the columns as inspected at the start, with its running set of names, renames exactly as specified and fails exactly where a metadata name is taken |
| `ReservedColumns.DynamicTable.EnsureTenantColumn` | alembic/versions/b5fc4168fe22_apply_model_a_rls_to_dynamic_workspace_.py:429-490 | Rename, add the tenant column unless it is there, fill the missing cells: the table afterwards is the specified upgrade |
| `ReservedColumns.DynamicTable.Downgrade` | alembic/versions/b5fc4168fe22_apply_model_a_rls_to_dynamic_workspace_.py:556-581 | Drop the tenant column, then restore the marked columns: the table afterwards is the specified downgrade, with the same failures |
| `Uuids.ReadPrinted` | alembic/versions/9079ae19374b_add_action_graph_fields.py:43-46 | The UUID reader returns the UUID from its printed form |
| `Uuids.CoerceIsUuid` | alembic/versions/9079ae19374b_add_action_graph_fields.py:29-46 | Whatever the coercion accepts is a canonical UUID |
| `Uuids.CoercePrinted` | alembic/versions/9079ae19374b_add_action_graph_fields.py:29-46 | The printed form of a UUID coerces to that UUID, and is never taken for a legacy id |
| `Uuids.CoerceAgreesWithCast` | alembic/versions/9079ae19374b_add_action_graph_fields.py:26-46 | For an id with the prefix `act-` whose rest PostgreSQL casts, the coercion finds the cast's UUID if and only if that rest is 32 bare hex digits |
| `Uuids.CoerceAgreesExactly` | alembic/versions/9079ae19374b_add_action_graph_fields.py:26-46 | For any id whose rest after four characters PostgreSQL casts, the coercion finds the cast's UUID if and only if those characters are `act-` before 32 bare hex digits, `urn:`, four braces, or braces and then hyphens before a rest without braces |
| `UuidTexts.CastExactly` | alembic/versions/b23b877ee161_migrate_prefixed_ids_to_uuid.py:48-57 | PostgreSQL casts a text to a UUID if and only if it is 32 hex digits with a hyphen or none between groups of four, bare or in one pair of braces; the UUID is those digits in lower case |
| `UuidTexts.CoerceExactly` | alembic/versions/9079ae19374b_add_action_graph_fields.py:26-46 | A text coerces to a UUID if and only if it is `act-` and 32 hex digits, or what is left of it without `urn:` and `uuid:` is braces, 32 hex digits with hyphens anywhere, and braces; the UUID is those digits in lower case |
| `ActionGraph.CompileNodesMeaning` | alembic/versions/9079ae19374b_add_action_graph_fields.py:154-217 | Compiling a graph touches exactly the action rows that some udf node names; each gets the position of the last such node and all its incoming edges in edge order, and no other row changes |
| `CompiledGraphs.EntryMeaning` | alembic/versions/9079ae19374b_add_action_graph_fields.py:182-203 | An edge whose source starts with `trigger-` gives a `trigger` entry without handle; any other gives a `udf` entry whose handle is `error` if its non-empty camel-case key, or without one its snake-case key, says `error`, and `success` in every other case |
| `CompiledGraphs.UpstreamExactly` | alembic/versions/9079ae19374b_add_action_graph_fields.py:178-203 | An action's entries are those of the edges whose target reads as the action's UUID, all of them, once each, in edge order |
| `CompiledGraphs.UpgradedExactly` | alembic/versions/9079ae19374b_add_action_graph_fields.py:59-217 | After the upgrade every action row is as the last graph with a udf node for it describes it (position of the last such node, entries of its edges), or at the origin without entries; every workflow has the layout of its graph's last trigger and the viewport, or zeros, zoom 1 and version 1 |
| `CompiledGraphs.DowngradedExactly` | alembic/versions/9079ae19374b_add_action_graph_fields.py:223-311 | The downgrade stores with every workflow a trigger node, one udf node for each of its actions in order, exactly the edges of their entries (`sourceHandle` with default `success`, none from triggers), and the viewport |
| `ActionGraph.EdgeRoundTrip` | alembic/versions/9079ae19374b_add_action_graph_fields.py:187-203 | An upstream entry survives being written as an edge and compiled again if and only if its source is normalised, its type matches a `trigger-` source, and a handle stands exactly on udf entries |
| `ActionGraph.IncomingOfActions` | alembic/versions/9079ae19374b_add_action_graph_fields.py:285-301 | Among the edges rebuilt for a whole workflow, those into one action are its own upstream entries in their order |
| `ActionGraph.LayoutOfActionNodes` | alembic/versions/9079ae19374b_add_action_graph_fields.py:151-171 | The trigger position and viewport come from the trigger node alone, whatever action nodes follow |
| `ActionGraph.AllWorkflowsRestored` | alembic/versions/9079ae19374b_add_action_graph_fields.py:223-311 | After any number of workflows has been rebuilt and compiled, each action of those workflows has its own position and recompiled entries, and actions of other workflows are untouched |
| `ActionGraph.DowngradeUpgrade` | alembic/versions/9079ae19374b_add_action_graph_fields.py:137-311 | On normalised tables `downgrade` then `upgrade` returns the same positions, viewports and upstream lists in the same order if and only if every upstream entry is normal |
| `ActionGraph.OneMoreEdge` | alembic/versions/9079ae19374b_add_action_graph_fields.py:173-203 | One more edge adds its normalised link to the one action row it lands on, and to no other row |
| `ActionGraph.EdgesConserved` | alembic/versions/9079ae19374b_add_action_graph_fields.py:173-217 | The multiset of normalised (source, target, handle) links over all action rows equals that of the graph's edges if and only if every edge targets a udf node backed by an action row |
| `GraphConservation.OneMoreGraph` | alembic/versions/9079ae19374b_add_action_graph_fields.py:173-217 | Compiling a graph into rows that already hold links adds the links of its landing edges and takes away exactly what the rows it serves held |
| `GraphConservation.UpgradeConservesEdges` | alembic/versions/9079ae19374b_add_action_graph_fields.py:137-220 | Over the whole upgrade the links of all action rows are those of the edges of all stored graphs, none lost or duplicated, if and only if every edge targets a udf node of its own graph backed by an action row, and no later graph stands for an action that an earlier graph's edge targets |
| `GraphFormats.NormalizeTwice` | alembic/versions/9079ae19374b_add_action_graph_fields.py:49-56 | Normalising a source twice is normalising it once, and neither makes nor unmakes a trigger |
| `GraphFormats.CanonicalIdReads` | alembic/versions/9079ae19374b_add_action_graph_fields.py:29-46 | An id in any accepted format has the UUID of its canonical text, which is its own canonical form |
| `GraphFormats.UpgradedIsNormal` | alembic/versions/9079ae19374b_add_action_graph_fields.py:137-217 | Whatever the stored graphs hold, the upgrade leaves distinct UUID keys, every action's workflow, graph version 1 and only normal upstream entries |
| `GraphFormats.UpgradeDowngradeUpgrade` | alembic/versions/9079ae19374b_add_action_graph_fields.py:137-311 | For all actions with distinct UUIDs and a workflow row each, and any stored graphs at all, upgrading, downgrading and upgrading again gives what the first upgrade gave |
| `GraphFormats.CanonicalCompiles` | alembic/versions/9079ae19374b_add_action_graph_fields.py:29-217 | A graph in any mix of id formats and handle spellings compiles to the same rows as its canonical form |
| `GraphStore.BuildEntry` | alembic/versions/9079ae19374b_add_action_graph_fields.py:187-203 | One turn of the loop, with either spelling of the handle, builds the specified upstream entry |
| `GraphStore.CollectUpstream` | alembic/versions/9079ae19374b_add_action_graph_fields.py:182-203 | The two loops that filter and append collect the upstream entries of one action in edge order |
| `GraphStore.Tables.PlaceTriggers` | alembic/versions/9079ae19374b_add_action_graph_fields.py:151-171 | The loop over trigger nodes leaves the layout of the last trigger node in the workflow's row and changes no other row |
| `GraphStore.Tables.PlaceActions` | alembic/versions/9079ae19374b_add_action_graph_fields.py:173-217 | The loop over udf nodes updates the action rows as the compiled graph says |
| `GraphStore.Tables.Upgrade` | alembic/versions/9079ae19374b_add_action_graph_fields.py:59-220 | The whole migration in place equals compiling every stored graph into freshly defaulted rows |
| `GraphStore.Tables.Downgrade` | alembic/versions/9079ae19374b_add_action_graph_fields.py:223-322 | The whole rollback in place equals rebuilding every workflow's graph from its action rows |
| `PrefixedIds.PrefixedStrip` | alembic/versions/b23b877ee161_migrate_prefixed_ids_to_uuid.py:284-289 | Stripping a prefix and putting it back restores an id if and only if it was that prefix and 32 lower-case hex digits; the prefix itself is never checked on the way |
| `PrefixedIds.CanonicalMigrates` | alembic/versions/b23b877ee161_migrate_prefixed_ids_to_uuid.py:51-70 | Distinct ids of the generated form always cast and stay distinct, so the unique index can be created again |
| `PrefixedIds.ShapeKept` | alembic/versions/b23b877ee161_migrate_prefixed_ids_to_uuid.py:158-254 | Over all references of a workflow, two are equal after relabelling exactly when they were before, if and only if no reference that names no action equals the new text of one that does |
| `PrefixedIds.EndpointsKept` | alembic/versions/b23b877ee161_migrate_prefixed_ids_to_uuid.py:158-254 | Node and edge sequences keep length and order, and every edge endpoint and the entry point still names the same nodes and no others |
| `PrefixedIds.WorkflowsRestored` | alembic/versions/b23b877ee161_migrate_prefixed_ids_to_uuid.py:291-386 | Relabelling there and back returns all graphs and entry points if and only if no reference that names no action equals a new name |
| `PrefixedIds.KeysFollow` | alembic/versions/b23b877ee161_migrate_prefixed_ids_to_uuid.py:107-140 | Every API key that pointed at a webhook points at the same webhook row afterwards, the foreign key and its uniqueness hold again, and joining back restores the column |
| `PrefixedIds.MigratedIsConstrained` | alembic/versions/b23b877ee161_migrate_prefixed_ids_to_uuid.py:38-267 | A migrated database holds UUIDs only and meets every recreated index and the foreign key |
| `PrefixedIds.UpgradeDowngrade` | alembic/versions/b23b877ee161_migrate_prefixed_ids_to_uuid.py:38-476 | `upgrade` then `downgrade` is the identity on all tables and graphs if and only if every id was its prefix and 32 lower-case hex digits and no unmapped reference equals a mapped UUID text |
| `PrefixedIds.DowngradeUpgrade` | alembic/versions/b23b877ee161_migrate_prefixed_ids_to_uuid.py:38-476 | A downgraded database can always be upgraded again, and comes back unchanged if and only if no reference that names no action equals the prefixed id of one |
| `PrefixedRows.UpgradeSucceeds` | alembic/versions/b23b877ee161_migrate_prefixed_ids_to_uuid.py:48-254 | The upgrade succeeds if and only if in each of the six tables the ids read as distinct UUIDs behind as many characters as `secret-` (twice), `wf-defn-`, `sch-`, `wh-` and `act-` have |
| `PrefixedRows.UpgradedExactly` | alembic/versions/b23b877ee161_migrate_prefixed_ids_to_uuid.py:38-267 | Every row gets the UUID behind its prefix and keeps its data; in graphs and entry points every reference that is an action's id becomes its printed UUID and every other stays; API keys stay with their webhook rows |
| `PrefixedRows.DowngradedExactly` | alembic/versions/b23b877ee161_migrate_prefixed_ids_to_uuid.py:272-474 | Every row gets its table's prefix and the 32 digits back and keeps its data; every reference that is an action's printed UUID becomes its prefixed id and every other stays; API keys stay with their webhook rows |
| `PrefixedTables.CastColumn` | alembic/versions/b23b877ee161_migrate_prefixed_ids_to_uuid.py:48-57 | The update that casts a column succeeds if and only if every cast does, and fills in exactly the casts |
| `PrefixedTables.CreateUniqueIndex` | alembic/versions/b23b877ee161_migrate_prefixed_ids_to_uuid.py:69-70 | Creating the index succeeds if and only if the column has no repeats |
| `PrefixedTables.Tables.MigrateSimple` | alembic/versions/b23b877ee161_migrate_prefixed_ids_to_uuid.py:45-70 | The loop over the simple tables succeeds if and only if each table's ids cast without collision, and then every id is replaced by its cast |
| `PrefixedTables.Tables.RelabelReferences` | alembic/versions/b23b877ee161_migrate_prefixed_ids_to_uuid.py:158-254 | Three statements for nodes, edges and entry points together relabel every reference exactly once |
| `PrefixedTables.Tables.MigrateWebhooks` | alembic/versions/b23b877ee161_migrate_prefixed_ids_to_uuid.py:76-140 | The API keys are joined to the new webhook ids before the old ones are dropped |
| `PrefixedTables.Tables.Upgrade` | alembic/versions/b23b877ee161_migrate_prefixed_ids_to_uuid.py:38-267 | The ordered statements succeed if and only if all casts do without collisions; then the constraints hold, and otherwise everything is rolled back |
| `PrefixedTables.Tables.Downgrade` | alembic/versions/b23b877ee161_migrate_prefixed_ids_to_uuid.py:272-474 | The ordered statements of the rollback restore prefixed ids and references as specified |
| `GraphMigrations.ReferenceCommutes` | alembic/versions/9079ae19374b_add_action_graph_fields.py:29-56 | A reference coerces and normalises to the same result before and after its relabelling |
| `GraphMigrations.UpstreamCommutes` | alembic/versions/9079ae19374b_add_action_graph_fields.py:182-203 | Every action gets the same upstream entries in the same order from the legacy edges and from the relabelled edges |
| `GraphMigrations.LayoutCommutes` | alembic/versions/9079ae19374b_add_action_graph_fields.py:151-171 | Relabelling changes neither the trigger position nor the viewport that compiling finds |
| `GraphMigrations.MigrationsCommute` | alembic/versions/9079ae19374b_add_action_graph_fields.py:26-217 | Compiling a legacy graph gives the same rows as relabelling and then compiling, for every graph and all rows, if and only if every action id reads behind its first four characters: `act-` before 32 bare hex digits, or one of the prefixes that the UUID reader removes |
| `GraphMigrations.GeneratedIdsCommute` | alembic/versions/9079ae19374b_add_action_graph_fields.py:26-217 | Among ids that start with `act-`, the two migrations commute if and only if each is `act-` and 32 bare hex digits, in any case |
| `CaseNumbers.RenumberingKeepsOrder` | alembic/versions/13cfd6e83e36_scope_case_numbers_to_workspace.py:36-52 | Within a workspace the new numbers are in the order of the old ones |
| `CaseNumbers.RenumberedIsDense` | alembic/versions/13cfd6e83e36_scope_case_numbers_to_workspace.py:36-52 | The new numbers of each workspace are exactly 1 to n, each held by one case |
| `CaseNumbers.MigratedCounters` | alembic/versions/13cfd6e83e36_scope_case_numbers_to_workspace.py:36-64 | After the migration each counter equals the number of cases of its workspace and those cases hold exactly the numbers up to it |
| `CaseNumbers.RunKeepsInv` | alembic/versions/13cfd6e83e36_scope_case_numbers_to_workspace.py:70-106 | In every interleaving of begins, inserts, deletes, commits and aborts, counters bound every number ever committed, no two open transactions lock the same workspace row, and numbers stay unique |
| `CaseNumbers.AutomaticNumbersAreNew` | alembic/versions/13cfd6e83e36_scope_case_numbers_to_workspace.py:36-107 | After any interleaving an automatic insert never violates uniqueness, and its number exceeds every number ever committed in its workspace, those of deleted cases included |
| `CaseNumbers.NumbersAreNeverReused` | alembic/versions/13cfd6e83e36_scope_case_numbers_to_workspace.py:36-107 | An automatic number at any later point of an interleaving exceeds the number of every case committed at an earlier point, deleted since or not |
| `CaseNumbers.CommittedNumbersStayUnique` | alembic/versions/13cfd6e83e36_scope_case_numbers_to_workspace.py:36-107 | Committed numbers stay unique per workspace in every interleaving with explicit numbers |
| `CaseNumbers.AutomaticNumbersHaveNoGaps` | alembic/versions/13cfd6e83e36_scope_case_numbers_to_workspace.py:70-107 | With automatic inserts only and no deletions, whatever aborts, the committed numbers of each workspace are exactly 1 to its counter |
| `CaseNumbers.AutomaticInsertExactly` | alembic/versions/13cfd6e83e36_scope_case_numbers_to_workspace.py:75-98 | In every reachable state an automatic insert succeeds if and only if no other open transaction has raised the workspace's counter or deals with the identifier, the identifier is free and the counter is below 2147483647; the row then has the next number and the counter is that number |
| `CaseNumbers.ExplicitInsertExactly` | alembic/versions/13cfd6e83e36_scope_case_numbers_to_workspace.py:75-98 | In every reachable state an insert with number n succeeds if and only if nothing hinders it, n fits 32 bits and is free or freed by the transaction itself, and the identifier is free; the row then has number n and the counter is the larger of n and what it was |
| `CaseNumbers.DeleteExactly` | alembic/versions/13cfd6e83e36_scope_case_numbers_to_workspace.py:70-106 | In every reachable state a deletion succeeds if and only if the transaction sees the row and no other is deleting it; once it commits, the committed rows are those it would have left without that row |
| `CaseNumbers.CaseStore.Upgrade` | alembic/versions/13cfd6e83e36_scope_case_numbers_to_workspace.py:36-64 | The two statements renumber the cases and set each counter to the largest number in use |
| `CaseNumbers.CaseStore.Insert` | alembic/versions/13cfd6e83e36_scope_case_numbers_to_workspace.py:70-106 | The trigger and the index checks have exactly the outcome and the effect of the specified insert, waiting included |
| `CaseNumbers.CaseStore.Delete` | alembic/versions/13cfd6e83e36_scope_case_numbers_to_workspace.py:70-106 | A deletion takes no number back: the counter and its lock stay |
| `CaseNumbers.CaseStore.Commit` | alembic/versions/13cfd6e83e36_scope_case_numbers_to_workspace.py:70-106 | Committing publishes rows and counters together |
| `CaseNumbers.CaseStore.Abort` | alembic/versions/13cfd6e83e36_scope_case_numbers_to_workspace.py:70-106 | Aborting forgets the transaction's rows and its counter updates together |
| `CatalogBackfill.OwnersAreVisited` | alembic/versions/96470fdcc686_v2_backfill_catalog_and_access.py:317-325 | Every organization with a secret under some provider's name is among those the name pattern selects |
| `CatalogBackfill.SeedSteps` | alembic/versions/96470fdcc686_v2_backfill_catalog_and_access.py:278-314 | Upserting distinct seeds leaves a platform row with each seed's metadata, and changes nothing where they are there already |
| `CatalogBackfill.CustomStep` | alembic/versions/96470fdcc686_v2_backfill_catalog_and_access.py:440-526 | After the step the organization has exactly one custom provider for its one secret, its catalog row and its grant; only rows and grants of that organization were added |
| `CatalogBackfill.CloudSteps` | alembic/versions/96470fdcc686_v2_backfill_catalog_and_access.py:380-437 | After the loop each cloud provider with a secret has its row and grant, added in any order of providers, with only rows and grants of that organization added |
| `CatalogBackfill.DirectSteps` | alembic/versions/96470fdcc686_v2_backfill_catalog_and_access.py:365-377 | After the loop every platform row of a direct provider with a secret is granted, and nothing but grants of that organization was added |
| `CatalogBackfill.OrgStep` | alembic/versions/96470fdcc686_v2_backfill_catalog_and_access.py:670-691 | One organization's steps leave everything of it settled and add only rows and grants of that organization |
| `CatalogBackfill.OrgKept` | alembic/versions/96470fdcc686_v2_backfill_catalog_and_access.py:670-691 | What is settled for one organization stays settled while another is migrated |
| `CatalogBackfill.RunSettles` | alembic/versions/96470fdcc686_v2_backfill_catalog_and_access.py:193-207 | A run that succeeds leaves every seed, provider row, grant, setting and preset settled |
| `CatalogBackfill.SettledIsFixed` | alembic/versions/96470fdcc686_v2_backfill_catalog_and_access.py:193-207 | A settled database is a fixed point of every run, in whatever order it visits organizations and providers and breaks ties |
| `CatalogBackfill.Rerun` | alembic/versions/96470fdcc686_v2_backfill_catalog_and_access.py:193-207 | Running twice equals running once, even when the second run enumerates and breaks ties differently |
| `BackfillRows.BlobsExactly` | alembic/versions/96470fdcc686_v2_backfill_catalog_and_access.py:328-338 | A provider's lookup finds nothing if and only if no secret has that organization and the name `agent-`, provider, `-credentials`, and it finds one ciphertext if and only if one secret alone has them and that ciphertext |
| `BackfillRows.RunSucceedsExactly` | alembic/versions/96470fdcc686_v2_backfill_catalog_and_access.py:193-207 | A run succeeds if and only if there are seeds, each names a provider and a model, no two the same, no organization has two secrets of one provider's name, and none has two custom providers beside a custom-provider secret |
| `BackfillRows.CloudRowsWritten` | alembic/versions/96470fdcc686_v2_backfill_catalog_and_access.py:380-437 | After a run every organization with a secret for bedrock, azure_openai, azure_ai or vertex_ai has the row of that provider and an organization-wide grant on it |
| `BackfillRows.CustomRowWritten` | alembic/versions/96470fdcc686_v2_backfill_catalog_and_access.py:440-526 | After a run every organization with a custom-provider secret has exactly one custom provider, its row and an organization-wide grant on it |
| `BackfillRows.DirectRowsGranted` | alembic/versions/96470fdcc686_v2_backfill_catalog_and_access.py:365-377 | After a run every organization with a secret for openai, anthropic or gemini has an organization-wide grant on every platform row of that provider |
| `BackfillRows.AddedRows` | alembic/versions/96470fdcc686_v2_backfill_catalog_and_access.py:278-437 | Rows keep id and ciphertext, and their metadata unless a seed names them; every added row is a seed's platform row without ciphertext, or an organization's own row with the ciphertext of its one secret for that provider |
| `BackfillRows.AddedGrant` | alembic/versions/96470fdcc686_v2_backfill_catalog_and_access.py:341-377 | Every added grant is organization-wide, on a platform row of a direct provider or the organization's own row, and goes back to the organization's one secret for that row's provider |
| `BackfillRows.AddedCustoms` | alembic/versions/96470fdcc686_v2_backfill_catalog_and_access.py:453-487 | Custom providers are only appended, each of an organization with one custom-provider secret and with its ciphertext |
| `BackfillRows.AddedSettings` | alembic/versions/96470fdcc686_v2_backfill_catalog_and_access.py:598-667 | Settings are kept; an added one is a default-model pointer of an organization with some provider's secret and a readable old default, to the best visible row of that name |
| `BackfillRows.DefaultWritten` | alembic/versions/96470fdcc686_v2_backfill_catalog_and_access.py:598-667 | Every organization with some provider's secret whose readable old default names a visible row has a pointer after a run |
| `BackfillRows.LinksWritten` | alembic/versions/96470fdcc686_v2_backfill_catalog_and_access.py:529-595 | After a run every unlinked preset and preset version of a known workspace is linked if and only if some visible row has its provider and name, and then to a platform row wherever there is one; all others are as they were |
| `BackfillEffects.RunSucceeds` | alembic/versions/96470fdcc686_v2_backfill_catalog_and_access.py:193-526 | A run succeeds if and only if the seeds are well formed and distinct, and each organization with a provider secret has at most one secret per provider name and at most one custom provider to attach it to |
| `BackfillEffects.ChooseBest` | alembic/versions/96470fdcc686_v2_backfill_catalog_and_access.py:559-592 | The chosen row matches, is visible to the organization, and is a platform row whenever a platform row matches; nothing is chosen if and only if nothing matches |
| `BackfillEffects.OrgJustified` | alembic/versions/96470fdcc686_v2_backfill_catalog_and_access.py:380-526 | Every catalog row and custom provider added for an organization carries the ciphertext of its one secret for that provider, and every added grant is backed by such a secret |
| `BackfillEffects.OrgSettingsJustified` | alembic/versions/96470fdcc686_v2_backfill_catalog_and_access.py:598-667 | A default-model pointer is written only for the name in the organization's readable old setting, and names a best match |
| `BackfillEffects.RunWrites` | alembic/versions/96470fdcc686_v2_backfill_catalog_and_access.py:193-667 | A successful run removes nothing; added rows, providers and grants are backed by secrets, added pointers and new preset links name best matches, existing links stay, and a preset stays unlinked exactly when nothing visible matches |
| `BackfillEffects.RunIsSound` | alembic/versions/96470fdcc686_v2_backfill_catalog_and_access.py:193-526 | Catalog ids stay unique, so a link names one row, and custom rows keep naming a provider of their own organization |
| `BackfillStore.CheckSeeds` | alembic/versions/96470fdcc686_v2_backfill_catalog_and_access.py:244-313 | A multi-row upsert is refused if and only if two seeds have the same key or a seed is malformed |
| `BackfillStore.Tables.GetBlob` | alembic/versions/96470fdcc686_v2_backfill_catalog_and_access.py:328-338 | The lookup returns the one secret of that name, nothing, or the error for several |
| `BackfillStore.Tables.AddCustom` | alembic/versions/96470fdcc686_v2_backfill_catalog_and_access.py:440-526 | Look up, reuse or insert the provider, upsert and grant: same outcome and tables as specified |
| `BackfillStore.Tables.AddClouds` | alembic/versions/96470fdcc686_v2_backfill_catalog_and_access.py:677-678 | The loop over the cloud providers has the specified outcome, stopping at the first error |
| `BackfillStore.Tables.GrantPlatform` | alembic/versions/96470fdcc686_v2_backfill_catalog_and_access.py:365-377 | The loop over platform rows, in any order, adds exactly their grants |
| `BackfillStore.Tables.LinkRows` | alembic/versions/96470fdcc686_v2_backfill_catalog_and_access.py:529-595 | The loop over unlinked presets links each as specified and no other |
| `BackfillStore.Tables.Upgrade` | alembic/versions/96470fdcc686_v2_backfill_catalog_and_access.py:193-207 | The whole migration in place equals the specified run, and an error rolls everything back |
| `EntitlementCache.RecencyMeaning` | tracecat/service.py:175-188 | The recency list of a history has exactly the keys used, each once, by increasing position of last use |
| `EntitlementCache.HoldsMostRecent` | tracecat/service.py:175-188 | After any sequence of lookups the cache holds exactly the most recently used keys that fit, oldest first |
| `EntitlementCache.SmallerIsSuffix` | tracecat/service.py:175-188 | The keys of a smaller cache are always a suffix of those of a larger one after the same lookups |
| `EntitlementCache.InterleavingsAreSound` | tracecat/service.py:175-188 | With misses suspended, resumed and cancelled in any order, the cache stays within its bound, holds no key twice, and only true answers |
| `CacheInterleavings.DisciplinedRunsKeepRecency` | tracecat/service.py:175-188 | If no key is looked up while a miss on it is suspended, then after any sequence of lookups, resumptions and cancellations the cache holds exactly the most recently completed keys that fit, oldest first |
| `CacheInterleavings.OrderKeptExactly` | tracecat/service.py:175-188 | Any run keeps that order throughout if and only if each landing miss finds its key, by the lookups completed so far, not among the last ones that fit, or at the one place among them where eviction or the tail makes up for the missing `move_to_end` |
| `CacheInterleavings.DisciplineIsExact` | tracecat/service.py:175-188 | Over any two or more keys, no point of a run can be led out of order by well-behaved lookups if and only if the run never looks a key up while a miss on it is suspended, or the cache has a single place |
| `CacheInterleavings.NeverLosesExactly` | tracecat/service.py:182-187 | Whatever is suspended, resumed and cancelled, no completed answer is ever evicted if and only if there are fewer keys than places, or at most one key |
| `CacheInterleavings.DoubleMissEvicts` | tracecat/service.py:182-187 | In a cache of any size from two on, with as many keys as places, missing the last key twice before either miss lands evicts the first key, though all keys are among the most recently used that fit |
| `CacheInterleavings.ServiceNeverEvicts` | tracecat/service.py:158-188 | With the eight entitlements and 32 places a key is cached after any interleaving if and only if some lookup of it has completed |
| `EntitlementCache.OrgService.Begin` | tracecat/service.py:177-182 | A hit answers and moves its key to the end; a miss only suspends |
| `EntitlementCache.OrgService.Finish` | tracecat/service.py:182-188 | A resumed miss evicts the oldest key when full, stores the answer and returns it |
| `EntitlementCache.OrgService.HasEntitlement` | tracecat/service.py:175-188 | The answer equals the uncached lookup, and the cache order is the specified one |
| `FlatObjects.SplitChild` | tracecat/parse.py:16-42 | Splitting a child location gives the parent's segments and the key, for a key without separator |
| `FlatObjects.InsertUnder` | tracecat/parse.py:13-19 | Leaves inserted below one key act on that key's dict alone |
| `FlatObjects.InsertSpineLeaves` | tracecat/parse.py:13-19 | An insertion adds its leaf and drops exactly the leaves that were at or below its path |
| `FlatObjects.InsertFree` | tracecat/parse.py:13-19 | A path that clashes with no leaf neither fails nor overwrites |
| `FlatObjects.InsertClashing` | tracecat/parse.py:13-19 | A path that is a prefix of a leaf's path, or extends it, fails or overwrites |
| `FlatObjects.InsertSpineExact` | tracecat/parse.py:22-32 | Inserting a list of paths keeps all old leaves and adds all new ones if and only if no two paths clash |
| `FlatObjects.RebuildFlattened` | tracecat/parse.py:13-49 | Rebuilding from the flattened leaves returns the object, key order included, if and only if keys have no separator, there are no lists and no empty inner dicts, and an empty top-level key holds a scalar |
| `FlatObjects.FlattenRebuilt` | tracecat/parse.py:13-49 | Flattening the rebuilt object returns the same pairs, whatever the insertion order, if and only if no path is a prefix of another and none starts with the separator |
| `LeafLocations.LeavesExactly` | tracecat/parse.py:35-49 | The traversal yields a location and a scalar if and only if keys and indices lead to that scalar and spell that location: keys joined by dots, list items numbered from 0 in brackets |
| `LeafLocations.PathsClash` | tracecat/parse.py:13-19 | One split path is a prefix of another if and only if the texts are equal or one continues the other after a dot |
| `LeafLocations.FlatIsKept` | tracecat/parse.py:22-32 | A flat dict of keys without dots is rebuilt key by key: a list of one item becomes that item, and any other value, longer and empty lists included, stays as it is |
| `NestedDicts.DictNode.Assign` | tracecat/parse.py:19-19 | Assignment on a dict object replaces or appends one key and keeps the children separate |
| `NestedDicts.DictNode.InsertByPath` | tracecat/parse.py:13-19 | Descending with `setdefault` and assigning in place has the effect of the specified insertion, and fails exactly where a stem key holds no mapping, leaving the object as it was |
| `NestedDicts.ReconstructObj` | tracecat/parse.py:22-32 | The loop that mutates one nested dict builds the specified object or fails where it does |
| `OrganizationKey.OrganizationsRenamed` | alembic/versions/4ef4d2e1d57b_update_default_org_uuid.py:139-146 | Afterwards exactly the same organizations exist, the default one under its new key |
| `OrganizationKey.OnlyTheKeyMoves` | alembic/versions/4ef4d2e1d57b_update_default_org_uuid.py:110-157 | Nothing changes but the old key where it stands as an organization's id or in the `organization_id` of a public table; tables, rows and all other cells stay |
| `OrganizationKey.PublicKeysFollow` | alembic/versions/4ef4d2e1d57b_update_default_org_uuid.py:101-124 | Foreign keys that are all `organization_id` columns of public tables always follow the new key |
| `OrganizationKey.KeyMetAfter` | alembic/versions/4ef4d2e1d57b_update_default_org_uuid.py:147-180 | A foreign key can be added again if and only if its column is one that was rewritten, or did not hold the old key |
| `OrganizationKey.ReplacementSucceeds` | alembic/versions/4ef4d2e1d57b_update_default_org_uuid.py:101-180 | All foreign keys can be added again if and only if each one's column follows the new key; they come back under their names, columns and actions, though none stays deferrable |
| `OrganizationKey.OldKeyIsGone` | alembic/versions/4ef4d2e1d57b_update_default_org_uuid.py:139-157 | No rewritten column holds the old key any more |
| `OrganizationKey.MembershipKept` | alembic/versions/4ef4d2e1d57b_update_default_org_uuid.py:101-180 | Through every foreign key each row belongs to the same organization row as before |
| `KeyReplacement.UpgradeExactly` | alembic/versions/4ef4d2e1d57b_update_default_org_uuid.py:71-180 | Without an organization under the nil UUID nothing happens; otherwise the upgrade succeeds if and only if the column of every foreign key is an organization's id, an `organization_id` of another public table, or free of that key; then exactly those cells change, and the foreign keys are back as they were but for being deferrable |
| `OrganizationKey.Database.UpdateTables` | alembic/versions/4ef4d2e1d57b_update_default_org_uuid.py:139-157 | The key update and the loop over the tables rewrite exactly the specified columns |
| `OrganizationKey.Database.AddKeys` | alembic/versions/4ef4d2e1d57b_update_default_org_uuid.py:164-180 | The loop succeeds if and only if every row of every table meets its constraint |
| `OrganizationKey.Database.Upgrade` | alembic/versions/4ef4d2e1d57b_update_default_org_uuid.py:71-180 | Nothing happens without a default organization; otherwise the outcome is the specified replacement, or a rollback |
| `CaseFieldPartition.SchemaNameInjective` | alembic/versions/b4d8b2f2c9dd_migrate_case_fields_to_workspace_schemas.py:30-41 | Distinct workspaces get distinct schema names |
| `CaseFieldPartition.NameSchemas` | alembic/versions/b4d8b2f2c9dd_migrate_case_fields_to_workspace_schemas.py:182-203 | Naming the schemas of distinct workspaces gives distinct names |
| `CaseFieldPartition.FillOccupied` | alembic/versions/b4d8b2f2c9dd_migrate_case_fields_to_workspace_schemas.py:212-243 | A table that already has rows never passes: a key collides or the counts differ |
| `PartitionEffects.OccupiedFails` | alembic/versions/b4d8b2f2c9dd_migrate_case_fields_to_workspace_schemas.py:205-243 | Filling a table that has rows fails on a duplicate key if it has a key or a case of the workspace's public rows, and on the counts otherwise |
| `CaseFieldPartition.UpgradeExactly` | alembic/versions/b4d8b2f2c9dd_migrate_case_fields_to_workspace_schemas.py:154-243 | The partition succeeds if and only if each workspace table is missing, or empty with its timestamps; then each holds exactly its workspace's rows, and every other schema and the public table are untouched |
| `CaseFieldPartition.SharesCover` | alembic/versions/b4d8b2f2c9dd_migrate_case_fields_to_workspace_schemas.py:195-221 | Every public row lies, with its case and all its cells, in the table of its owner and in no other |
| `CaseFieldPartition.MergeShare` | alembic/versions/b4d8b2f2c9dd_migrate_case_fields_to_workspace_schemas.py:289-324 | Merging a workspace's rows back leaves the public table as it was, and fails if and only if the workspace table has a column of its own |
| `CaseFieldPartition.UpgradeDowngrade` | alembic/versions/b4d8b2f2c9dd_migrate_case_fields_to_workspace_schemas.py:154-324 | An immediate downgrade succeeds if and only if no workspace table has a column of its own; then the public table is unchanged, the workspace schemas are gone and the others are kept |
| `CaseFieldPartition.DowngradeKeepsEdits` | alembic/versions/b4d8b2f2c9dd_migrate_case_fields_to_workspace_schemas.py:262-324 | A downgrade that succeeds after any edits of the workspace tables loses none: the last workspace whose table holds a row decides its owner, its case and each of its cells, and a public row that no table holds any more stays as it was |
| `PartitionEffects.PartitionExactly` | alembic/versions/b4d8b2f2c9dd_migrate_case_fields_to_workspace_schemas.py:154-243 | The partition succeeds if and only if no workspace has a table with rows or without `created_at` or `updated_at`; then each workspace's table has the public columns and its own, and exactly the rows that the workspace owns, NULL where the public table has no such column |
| `PartitionEffects.DowngradeSucceeds` | alembic/versions/b4d8b2f2c9dd_migrate_case_fields_to_workspace_schemas.py:262-324 | After any edits the downgrade succeeds if and only if no workspace's table has a column that the public table lacks and no two rows share a case at any point of the merge; then the workspace schemas are gone, the others kept, and each row has the case of its last holder |
| `PartitionEffects.SchemaNamesWorkspace` | alembic/versions/b4d8b2f2c9dd_migrate_case_fields_to_workspace_schemas.py:30-41 | A workspace's schema name is `custom_fields_ws_` and 22 digits that stand for the workspace |
| `FieldStore.AddMissingColumns` | alembic/versions/b4d8b2f2c9dd_migrate_case_fields_to_workspace_schemas.py:134-151 | The loop widens every existing row by exactly the missing columns, with NULL in them |
| `FieldStore.Database.MoveWorkspace` | alembic/versions/b4d8b2f2c9dd_migrate_case_fields_to_workspace_schemas.py:195-243 | Create, copy and compare the counts: same outcome and table as specified |
| `FieldStore.Database.Upgrade` | alembic/versions/b4d8b2f2c9dd_migrate_case_fields_to_workspace_schemas.py:154-243 | The loop over the workspaces equals the specified partition, and an error rolls everything back |
| `FieldStore.Database.Downgrade` | alembic/versions/b4d8b2f2c9dd_migrate_case_fields_to_workspace_schemas.py:246-324 | The loop that merges and drops equals the specified rollback |
| `CaseFieldPartition.UpsertMeaning` | alembic/versions/b4d8b2f2c9dd_migrate_case_fields_to_workspace_schemas.py:289-324 | Merging a workspace table that was edited since: its rows take over their public rows under the workspace, columns it lacks keep their value, and rows deleted from it stay public as they were |
| `ScopeLinks.LinksAfter` | alembic/versions/c9e4f54f0a2b_canonicalize_duplicate_custom_scope_links.py:28-99 | A role is linked afterwards to a scope exactly when that scope is no duplicate and the role was linked to it or to a duplicate of it |
| `ScopeLinks.PermissionsKept` | alembic/versions/c9e4f54f0a2b_canonicalize_duplicate_custom_scope_links.py:28-99 | Every role holds exactly the same scope names, with resource, action and source, as before |
| `ScopeLinks.LinksStayValid` | alembic/versions/c9e4f54f0a2b_canonicalize_duplicate_custom_scope_links.py:58-99 | No link points at a duplicate once the second statement is through, and none dangles after the third |
| `ScopeLinks.DuplicatesGone` | alembic/versions/c9e4f54f0a2b_canonicalize_duplicate_custom_scope_links.py:83-99 | Exactly the custom action scopes that share name and source reference with a platform scope are deleted, and none is left |
| `ScopeLinks.RemovedExactly` | alembic/versions/c9e4f54f0a2b_canonicalize_duplicate_custom_scope_links.py:83-99 | A scope is deleted if and only if it is a custom one of some organization for executing actions and a platform scope for executing actions has its name and source reference |
| `ScopeLinks.Idempotent` | alembic/versions/c9e4f54f0a2b_canonicalize_duplicate_custom_scope_links.py:25-99 | Running the three statements again changes nothing |
| `ScopeLinks.Tables.Upgrade` | alembic/versions/c9e4f54f0a2b_canonicalize_duplicate_custom_scope_links.py:25-99 | The three updates in place have the specified result and keep the foreign key |
| `SchemaTypes.DistinctMeaning` | scripts/generate_ai_docs.py:321-327 | A union lists each different part once, in first-seen order |
| `SchemaTypes.FormatUnion` | scripts/generate_ai_docs.py:320-327 | The loop over the variants builds the specified union |
| `SchemaTypes.FormatType` | scripts/generate_ai_docs.py:307-348 | Rendering terminates on definitions that are acyclic through references, by (rank of the last reference, schema), and returns the specified text |
| `SchemaTypes.InlineResolves` | scripts/generate_ai_docs.py:329-333 | Inlining leaves no resolvable reference where rendering looks |
| `SchemaTypes.FormatIsFormatOfInlined` | scripts/generate_ai_docs.py:307-348 | Rendering with definitions equals rendering, without any, the schema with every resolvable reference inlined |
| `SchemaTypes.RanksDoNotMatter` | scripts/generate_ai_docs.py:307-348 | The text does not depend on which ranks witness acyclicity |
| `SchemaRanks.RenderableExactly` | scripts/generate_ai_docs.py:307-348 | The ranks that rendering one schema needs exist if and only if no chain of references that rendering it follows comes back to a definition it has been through, whatever other definitions there are |
| `SchemaRanks.RanksExactly` | scripts/generate_ai_docs.py:329-333 | Definitions can be ranked for rendering if and only if no chain of references leads from a definition back to it |
| `SchemaRanks.EverySchemaRanked` | scripts/generate_ai_docs.py:307-348 | Without such a cycle one ranking serves the rendering of every schema |
| `SchemaTypes.FindObjectIsFirst` | scripts/generate_ai_docs.py:351-363 | The search returns the first object-like schema among the nested variants in depth-first order, and nothing if and only if there is none |
| `TypeTexts.RefNameExactly` | scripts/generate_ai_docs.py:329-330 | The name of a reference is the text without a slash that is all of it or follows its last slash |
| `TypeTexts.EnumText` | scripts/generate_ai_docs.py:313-318 | An enumeration shows its type, a list of types as Python prints it, or `enum` where it has none |
| `TypeTexts.UnionText` | scripts/generate_ai_docs.py:320-327 | A schema without enumeration shows the different texts of `anyOf`, or else of `oneOf`, joined by bars in first-seen order |
| `TypeTexts.ReferenceText` | scripts/generate_ai_docs.py:329-333 | A schema without those shows the definition that its reference names, or the name where there is none |
| `TypeTexts.ArrayText` | scripts/generate_ai_docs.py:338-339 | A schema without those and of type array shows `array[` its items `]`, or `array[any]` |
| `TypeTexts.ObjectText` | scripts/generate_ai_docs.py:340-344 | A schema without those and of type object shows `map[string, ` its values `]`, or `object` |
| `TypeTexts.FindObjectExactly` | scripts/generate_ai_docs.py:351-363 | A schema of type object or with properties is found itself; otherwise the first found in `anyOf`, or else in `oneOf` |
| `Base62.DigitTablesAgree` | tracecat/base62.py:2-5 | The digit functions are the alphabet and its inverse |
| `Base62.Encode` | tracecat/base62.py:8-31 | Negative numbers are refused; any other gives its digits, most significant first |
| `Base62.Decode` | tracecat/base62.py:34-52 | A numeral gives its positional value; other text gives the error for the first character that is no digit |
| `Base62.DecodeEncode` | tracecat/base62.py:20-52 | Decoding an encoding returns the number |
| `Base62.EncodeDecode` | tracecat/base62.py:20-52 | Encoding a decoded numeral strips exactly its leading zeros, leaving `0` if nothing remains |
| `Base62.LengthExact` | tracecat/base62.py:20-31 | For n at least 1 the encoding has k digits if and only if 62^(k-1) <= n < 62^k |
| `Base62.FromShort` | tracecat/identifiers/common.py:29-35 | A short id gives its value; a foreign prefix, a foreign digit or a value of 2^128 or more gives an error |
| `Base62.ShortRoundTrip` | tracecat/identifiers/common.py:13-35 | Every 128-bit id has a short form of one fixed length, which decodes to it |
| `Base62.ShortInjective` | tracecat/identifiers/common.py:13-26 | Distinct ids have distinct short forms |

## Left out

- ReservedColumns.ParseOfRename: the JSON text of a rename comment is a parameter with a faithful reader; the prefix test is the real one. PostgreSQL's truncation of identifiers to 63 bytes is not modelled, so names are taken to be short enough.
- ReservedColumns.RoundTrip: one dynamic table with its own metadata; how the metadata rows of a physical table are found by normalised name (lines 160-221), row-level security policies, the tenant column's type, default and NOT NULL are not part of the model. Columns are restored in any order, where the code sorts them.
- EditedTables.EditedDowngrade: the edits are to rows and cells, and columns added behind the others with unreserved names and comments that are no markers; columns that users rename or drop after the upgrade are not covered.
- ActionGraph.CompileNodesMeaning: keys of the stored JSON other than those the migration reads are dropped, and values of another JSON type than expected (a number as id, a null position) are not modelled. Positions are exact reals.
- ActionGraph.DowngradeUpgrade: `graph_version` restarts at 1, as in the code, so the statement takes version 1 before.
- Uuids.ReadPrinted: `uuid.UUID` also accepts whitespace, underscores, signs and non-ASCII digits inside 32 characters, which Python's `int` reads; here only hex digits are accepted.
- PrefixedIds.UpgradeDowngrade: stated for any list of tables with their prefixes; the code has the four of `SimpleTables`.
- CaseNumbers.RunKeepsInv: a statement that fails leaves the transaction open and unchanged, as under a savepoint; PostgreSQL would otherwise abort it. Only the workspace row lock and the waits of the unique indexes are modelled; deadlocks are not.
- CatalogBackfill.Rerun: refresh timestamps, ids of grant rows and display columns are not modelled. The platform catalogue file is a parameter, already parsed; its malformed entries are those with an empty provider or name. Encrypted blobs are opaque values.
- CatalogBackfill.RunSettles: which of several equally ranked rows a query returns first is a choice function of the asking row and the candidates.
- EntitlementCache.HoldsMostRecent: for every positive capacity, where the code has 32. The uncached lookup is a fixed function while the service object lives.
- NestedDicts.DictNode.InsertByPath: the loop over the stem is written as recursion along it. A dict that is inserted as a value is copied into objects of its own, so aliasing between the flat input and the rebuilt object is not captured, and inserted dicts are taken to have distinct keys, as Python's have.
- FlatObjects.RebuildFlattened: scalars are integers, standing for any value that is no dict and no list.
- OrganizationKey.ReplacementSucceeds: composite foreign keys, match types, unvalidated constraints and triggers are not modelled.
- CaseFieldPartition.UpgradeExactly: column types, NOT NULL and defaults of columns that only a workspace table has, and the foreign key to cases are not modelled; uniqueness in the merge is checked at the end of the statement.
- SchemaTypes.FormatType: a schema is the keys the renderer reads, with values of the expected JSON types; `enum` counts where it is not empty.
- `_coerce_action_uuid` on values that are already UUID objects, and the leaf and node traversals other than `traverse_leaves`, would only add easy members.
- Migrations that only add columns, tables, indexes or enum values have no data logic to prove.
- Authentication, encryption, HTTP, Temporal workflows, SQLAlchemy sessions and the rest of the runtime are not modelled.
