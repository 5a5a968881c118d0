# Tijaero ERP: data movers, seeders and harnesses, modelled in Dafny

The project models the scripts of the repository that move or reconcile data, and the two load-test
programs with real logic, and proves what they keep, lose and restore.

- **Legacy migration** (`MigrationSession`, `MigrationScript`, `MigrationRefinement`, `MigrationTheorems`,
  `MigrationLoads`, `MigrationContents`). A PostgreSQL session with savepoints, abort state, trigger switches and
  non-transactional sequences; a `Connection` class whose methods change it; the table functions and the
  orchestrator as loops over it. The session machine refines a pure fold in which a step merges its whole
  table or changes nothing. About the fold: no target row is lost, a second run at a later clock changes
  nothing, data closed under foreign keys arrives whole, invoice money is conserved. The server's row and
  unique constraints are arbitrary functions, so every rejection pattern is covered.
- **Cashbook rebuild** (`LedgerGrouping`, `Cashbook`, `CashbookRebuild`). Grouping of ledger lines, the writer
  `record_cashbook_from_gl`, the database function it calls, the replay and the final window update.
- **Worker pool** (`WorkerPool`). Every interleaving of the benchmark's threads on a locked work list, and
  the order in which the list is handed out.
- **Schema resolver and sampler** (`JsonSchema`, `SchemaResolver`, `SchemaSampler`). Validity as in JSON
  Schema 2020-12 (Core sections 8.2.3.1, 10.2.1.1, 10.2.1.2; Validation sections 6.1 to 6.5), shown equal to the
  keyword-by-keyword statement without step bounds (`JsonSchema.ValidIffKeywordsHold`), and when the generated
  body is valid for the schema it was generated from.
- **Reconcilers** (`ChartSeeder`, `PermissionSeeder`, `PermissionRun`, `SchemaMigration`, `StockTransferMigration`,
  `AuditColumnMigration`). The two-pass chart seeder, the permission and group seeder, and two Alembic
  revisions over a schema with foreign keys and indexes.

Money is in cents. `dafny verify dfyconfig.toml` checks everything.

## Where the code and its documentation disagree

The model follows the code.

- `db_migration/migrate.py:1573-1580` means to release the savepoint after each table. Every non-empty table
  function has committed by then, which discards the savepoint, so the release fails and the step is
  summarised as FAILED with its rows committed; only an empty source table is summarised as OK
  (`MigrationRefinement.StepRefinesFold`).
- `upsert_seq` promises that new ids will not collide with imported ones. That holds, but setval also moves a
  sequence backwards, so they may collide with rows that were already there
  (`MigrationLoads.SequenceCoversTable`).
- Loading invoices with all triggers off also switches off foreign-key checks; an invoice without a customer
  is then committed (`MigrationLoads.RunClosure`, `MigrationLoads.InvoiceWithoutCustomerIsCommitted`).
- The cashbook rebuild lists entries whose lines are out of range, but a group total or a running balance out
  of range loses its row silently (`Cashbook.BalancesFollowLedger`, `CashbookRebuild.OverflowLosesRow`). The
  writer is documented never to raise; a NULL reference type does raise, before its savepoint
  (`CashbookRebuild.Session.RecordFromGl`).
- Bank deposits are recorded as money leaving the till although they net to zero in the ledger, so a
  balance is debits less credits exactly if a branch's deposits cancel (`CashbookRebuild.MovedIsNet`,
  `CashbookRebuild.RebuiltBalanceIsLedgerSum`).
- The permission seeder lists four permissions whose resource, `employees`, it also purges as legacy: every
  run deletes and recreates them, and custom groups and users lose them
  (`PermissionSeeder.CustomGroupKeepsIff`).

## Model

| member | source | states |
|---|---|---|
| MigrationSession.WrapStepIsolates | db_migration/migrate.py:1566-1594 | whatever statements, commits, rollbacks and errors a table function produces, the connection is idle at the next loop head, its commits stay, and the step succeeds exactly when the function returned unaborted with its savepoint alive |
| MigrationSession.RollbackToUndoes | db_migration/migrate.py:1569-1592 | going back to a savepoint undoes everything since it, errors included, except sequences; it can be gone back to again, and releasing it leaves the earlier ones |
| MigrationScript.Connection.Send | db_migration/migrate.py:1569-1592 | one statement on the connection: new state and whether the driver raises, including the aborted state |
| MigrationScript.LoadEachRow | db_migration/migrate.py:151-163 | the row loop with its per-row try block, against the actions that remain |
| MigrationScript.MigrateTable | db_migration/migrate.py:145-167 | a table function does to the connection exactly its actions: row loop, setval, commit |
| MigrationScript.RunStep | db_migration/migrate.py:1566-1594 | one loop turn is the wrapped step, and its summary entry bears the step's name |
| MigrationRefinement.StepRefinesFold | db_migration/migrate.py:1566-1594 | a wrapped step commits its whole table or nothing, leaves the connection idle, advances the sequence only if accepted, and is OK exactly for an empty source |
| MigrationRefinement.RunRefinesFold | db_migration/migrate.py:1566-1594 | the machine over all steps ends idle with the fold committed |
| MigrationRefinement.RunMigration | db_migration/migrate.py:1536-1599 | every step is attempted, one summary entry per step in order, the fold is committed |
| MigrationTheorems.LoadRowsExtends | db_migration/migrate.py:127 | existing ids win; an update keeps references and stamps; other tables stay |
| MigrationTheorems.RunKeepsTargetRows | db_migration/migrate.py:1450-1594 | no run loses a target row, and triggers are on again afterwards |
| MigrationTheorems.LoadRowsDetermined | db_migration/migrate.py:113-142 | whether a table is accepted depends only on its own rows, up to clock stamps, and on which parent ids exist |
| MigrationTheorems.StepAgain | db_migration/migrate.py:170-197 | an accepted step is a no-op when met again, a refused one is refused again |
| MigrationTheorems.SecondRunChangesNothing | db_migration/migrate.py:1450-1594 | with parents first, a second run at any later clock commits no change |
| MigrationLoads.StepClosure | db_migration/migrate.py:958-1039 | a step breaks foreign-key closure exactly if it loads with triggers off, is accepted and brings a new row without a parent |
| MigrationLoads.RunClosure | db_migration/migrate.py:1450-1594 | with parents first a whole run ends closed exactly if no step did that in its turn: no later step mends it |
| MigrationLoads.InvoiceWithoutCustomerIsCommitted | db_migration/migrate.py:970-1038 | the exception occurs: a concrete invoice without its customer is committed |
| MigrationLoads.ClosedDataArrivesWhole | db_migration/migrate.py:1450-1533 | closed source and target, parents earlier or present, no row faulty in itself or in the way of a unique column of the rows around it: every source id arrives and the target stays closed |
| MigrationLoads.UniqueRowsLoadIff | db_migration/migrate.py:113-142 | a table of otherwise good rows loads exactly if no two rows of target and source together, of different ids, share a unique value |
| MigrationLoads.LoadedRowsDoNotCollide | db_migration/migrate.py:113-197 | no accepted load, updating or not, leaves two rows with a shared unique value |
| MigrationLoads.SequenceCoversTable | db_migration/migrate.py:98-104 | the sequence covers the imported ids, and the whole table exactly if no earlier row had a larger id |
| MigrationLoads.IdsBeyondSequenceRefuseTable | db_migration/migrate.py:98-104 | a largest id outside the sequence's range refuses the whole table |
| MigrationContents.LoadedInvoicesAddUp | db_migration/migrate.py:972-1030 | the loaded grand totals grow by the seven legacy amount columns of the new readable invoices; new invoices are balanced, old ones untouched |
| MigrationContents.AcceptedTableHoldsItsSource | db_migration/migrate.py:113-197 | an accepted table is the one before with every source row settled: unreadable rows leave no trace, new rows are stored as read, existing ones stay but for updated content, invoices file payments as paid and credit as due |
| MigrationContents.InvoiceStepConservesMoney | db_migration/migrate.py:958-1039 | the invoices step commits nothing or exactly that money; each new invoice has its six payment columns as paid, its credit column as balance due and the status these decide; invoices already there stay, cancelled ones included; triggers are on again |
| LedgerGrouping.GroupByEntry | backend/scripts/rebuild_cashbook_from_gl.py:46-48 | the dictionary of lists holds each entry's lines in ledger order, its keys in order of first appearance |
| LedgerGrouping.GroupingIsLossless | backend/scripts/rebuild_cashbook_from_gl.py:46-48 | the groups flatten to a permutation of the ledger |
| LedgerGrouping.GroupKeepsLedgerOrder | backend/scripts/rebuild_cashbook_from_gl.py:46-48 | a group's lines follow each other as in the ledger |
| LedgerGrouping.ReplayPartitionsLedger | backend/scripts/rebuild_cashbook_from_gl.py:50-62 | skipped and replayed groups partition the ledger; an entry is skipped exactly if a line of it exceeds NUMERIC(15,2), else replayed whole |
| LedgerGrouping.HeadDatesDoNotDecrease | backend/scripts/rebuild_cashbook_from_gl.py:44-48 | head dates follow the ledger's date order |
| Cashbook.ReplayRuns | backend/alembic/versions/a1b2c3d4e5f6_create_materialized_cashbook_entries.py:92-114 | over a date-ordered replay the incremental balances are running sums per branch |
| Cashbook.PostingWritesOneRow | backend/app/modules/finance/gl_posting_service.py:1073-1126 | a posting writes at most one row, headed like its first line, with money in or money out and not both, moving debits less credits or for a deposit what leaves the till; none exactly if nothing moves or a number is out of range |
| Cashbook.WindowIsRunningBalance | backend/scripts/rebuild_cashbook_from_gl.py:73-79 | what the window update does to any table: each balance is that of the row before it by date and id in its branch plus what the row moves |
| Cashbook.WindowUpdateIsNoOp | backend/scripts/rebuild_cashbook_from_gl.py:73-79 | the final window update changes no row and cannot overflow |
| Cashbook.BalancesFollowLedger | backend/scripts/rebuild_cashbook_from_gl.py:59-79 | on each branch cashbook and ledger agree after every group exactly if every group headed there is in range |
| CashbookRebuild.Session.RecordFromGl | backend/app/modules/finance/gl_posting_service.py:1053-1126 | the writer appends its row, nothing, or raises, as a function of lines, kind and earlier balance |
| CashbookRebuild.Rebuild | backend/scripts/rebuild_cashbook_from_gl.py:34-83 | the stored cashbook becomes the replay of the ledger whatever it held before, or stays as it was |
| CashbookRebuild.MovedIsNet | backend/app/modules/finance/gl_posting_service.py:1073-1096 | a row moves the net of its entry, except a bank deposit whose bank amounts and till receipts do not cancel |
| CashbookRebuild.DepositLowersBalance | backend/app/modules/finance/gl_posting_service.py:1086-1087 | an ordinary deposit nets to zero and lowers the balance |
| CashbookRebuild.OverflowLosesRow | backend/app/modules/finance/gl_posting_service.py:1098-1126 | two in-range entries whose second row is lost |
| CashbookRebuild.GroupsSumIsEntriesSum | backend/scripts/rebuild_cashbook_from_gl.py:46-51 | sums by group are sums by line |
| CashbookRebuild.RebuiltBalanceIsLedgerSum | backend/scripts/rebuild_cashbook_from_gl.py:46-79 | with the branch's groups in range, its last balance is debits less credits of the replayed entries headed on it, less the bank amounts and till receipts of its deposits; so debits less credits exactly if those cancel |
| WorkerPool.StepKeepsItems | backend/loadtest/write_bench.py:90-103 | a step loses and repeats no item and lowers the measure |
| WorkerPool.EveryRunIsSafe | backend/loadtest/write_bench.py:90-104 | under every interleaving items are conserved, the lock excludes, the list shrinks from its end, and runs have at most 3T + 10W steps |
| WorkerPool.NeverStuck | backend/loadtest/write_bench.py:90-104 | while a thread has not ended, some thread can step |
| WorkerPool.JoinedRunHandlesEverything | backend/loadtest/write_bench.py:104-109 | after the joins, successes and errors account for all work exactly if no thread died with an item and the list is empty, which one returned thread suffices for; successes are the items created in the run, errors those rolled back |
| WorkerPool.EveryRunFiles | backend/loadtest/write_bench.py:95-103 | under every interleaving an item is filed as a success as often as it was created, as an error as often as it was rolled back, counting the threads about to file |
| WorkerPool.ItemCanBeLost | backend/loadtest/write_bench.py:100-101 | on every work list a rollback that raises loses its item |
| WorkerPool.WorkCanBeLeft | backend/loadtest/write_bench.py:103 | on every work list a close that raises leaves the rest of it |
| WorkerPool.BuildWork | backend/loadtest/write_bench.py:89 | the nested comprehension, reversed |
| WorkerPool.HandoutOrder | backend/loadtest/write_bench.py:89-94 | N times B items; the k-th popped is fixture k mod B, unit N + k div B |
| WorkerPool.HandoutsAreFresh | backend/loadtest/write_bench.py:50-89 | with distinct barcodes no unit is handed out twice or was used by the sequential phase |
| SchemaResolver.ResolveByLoop | backend/loadtest/qa_api_audit.py:31-51 | the merging loop computes the resolver's function |
| SchemaResolver.FirstOtherBranchIsResolved | backend/loadtest/qa_api_audit.py:45-51 | leading null branches of an anyOf are skipped and the first other one is resolved; if all are null the schema stays |
| SchemaResolver.SiblingsAreDropped | backend/loadtest/qa_api_audit.py:34-51 | a reference, then allOf, then a picked branch hide everything beside them |
| SchemaResolver.MergedHasAll | backend/loadtest/qa_api_audit.py:37-44 | a merged allOf has the properties of all branches and requires what any requires |
| SchemaResolver.LastBranchWins | backend/loadtest/qa_api_audit.py:40-43 | where branches disagree on a property the last one wins |
| SchemaResolver.LongChainIsCut | backend/loadtest/qa_api_audit.py:32-36 | long or cyclic reference chains are followed nine steps and returned as they stand |
| SchemaResolver.ResolvedValidIsValid | backend/loadtest/qa_api_audit.py:31-51 | a value valid for the resolved schema is valid for the schema, through $ref, allOf and anyOf, when resolution drops no assertion |
| SchemaResolver.ValidIsResolvedValid | backend/loadtest/qa_api_audit.py:31-51 | the converse where no anyOf branch is picked, for objects if allOf branches are merged |
| SchemaSampler.PlainTextLength | backend/loadtest/qa_api_audit.py:85-89 | a plain string is the prefix, the letters and padding, of exactly the length the bounds give; within them exactly if they are consistent and maxLength is not 0 |
| SchemaSampler.TextFollowsFormat | backend/loadtest/qa_api_audit.py:73-89 | the text of a string is shaped as its format says, else a phone number for fields that mention one, else plain |
| SchemaSampler.NumberSampleIsLeast | backend/loadtest/qa_api_audit.py:69-72 | the least number from 1 on that reaches the minimum |
| SchemaSampler.DefaultThenEnum | backend/loadtest/qa_api_audit.py:55-59 | a default that is not null comes first, then the first enum value |
| SchemaSampler.LeafSampleValidIff | backend/loadtest/qa_api_audit.py:69-90 | exactly when a scalar sample is valid |
| SchemaSampler.CutOffValidIff | backend/loadtest/qa_api_audit.py:62-63 | the sample of an object below the nesting limit is valid exactly if the schema admits an object without properties |
| SchemaSampler.SampleIsValid | backend/loadtest/qa_api_audit.py:54-90 | the sample of a samplable schema is valid for the schema as given |
| SchemaSampler.SampleIsValidIff | backend/loadtest/qa_api_audit.py:54-90 | where no anyOf branch is picked, the sample exists and is valid exactly if the schema is samplable |
| ChartSeeder.ChartTable.Seed | backend/scripts/seed_chart_of_accounts.py:232-315 | the guard and both passes: new table, created, skipped and link counts |
| ChartSeeder.SeededChart | backend/scripts/seed_chart_of_accounts.py:259-306 | each listed code is there once, under its named parent in any listing order, a new one with its listed details; existing accounts keep all but listed links; the counters tell how many are new and how many got another parent |
| ChartSeeder.SeedingKeepsForestIff | backend/scripts/seed_chart_of_accounts.py:259-306 | an acyclic chart stays acyclic exactly if no existing listed top-level account already hangs below itself, climbing old parents to the first listed child and on from the top that child is listed under |
| ChartSeeder.SeedingKeepsForest | backend/scripts/seed_chart_of_accounts.py:293-306 | in particular if no existing listed top-level account has a parent |
| ChartSeeder.ParentedTopMakesCycle | backend/scripts/seed_chart_of_accounts.py:298-304 | without that condition a concrete chart becomes cyclic |
| ChartSeeder.SecondRunIsNoOp | backend/scripts/seed_chart_of_accounts.py:246-315 | a second forced run creates nothing and sets no link |
| PermissionRun.AccessTables.PurgeLegacy | backend/scripts/seed_permissions.py:18-28 | legacy permissions go, with their rows in groups and user grants |
| PermissionRun.AccessTables.UpsertListed | backend/scripts/seed_permissions.py:455-475 | the upserts as the session writes them: renames at the next creation or commit, and a refused row takes everything since the purge back |
| PermissionRun.AccessTables.Seed | backend/scripts/seed_permissions.py:11-824 | the tables after purge, upserts and group reset, and what stays if the permission commit or the group commit fails |
| PermissionRun.UpsertRaisesIff | backend/scripts/seed_permissions.py:455-475 | the permission commit fails exactly if a remaining row has a listed pair up to case and outer blanks, or holds another entry's name and is not renamed before that entry is written |
| PermissionRun.ClashesDecide | backend/scripts/seed_permissions.py:455-475 | without clashes the run does not fail; a listed name held by an unlisted permission always fails it |
| PermissionRun.SeededConforms | backend/scripts/seed_permissions.py:455-475 | a run that does not fail leaves names and pairs unique and a table on which the next run does not fail |
| PermissionRun.GroupsFailIff | backend/scripts/seed_permissions.py:809-824 | the group commit fails exactly if the groups it would leave were not apart up to case and outer blanks |
| PermissionSeeder.SeededPermissions | backend/scripts/seed_permissions.py:455-475 | the permissions are exactly the listed ones, once each, and earlier ones neither legacy nor of a listed pair |
| PermissionSeeder.GroupHoldsItsList | backend/scripts/seed_permissions.py:480-481 | a default group holds exactly the permissions its list names |
| PermissionSeeder.CustomGroupKeepsIff | backend/scripts/seed_permissions.py:18-28 | a custom group keeps a permission exactly if its resource is not legacy, and ends with none that is |
| PermissionSeeder.UserKeepsIff | backend/scripts/seed_permissions.py:18-28 | a user keeps a granted permission exactly if its resource is not legacy, with its id and pair |
| PermissionSeeder.SecondRunSameState | backend/scripts/seed_permissions.py:455-824 | when neither run fails, the second ends in the same permissions and group contents up to ids |
| SchemaMigration.UndoRestores | backend/alembic/versions/002_add_stock_transfer_tables.py:19-177 | undoing any constructive program in reverse restores the schema exactly, and no drop fails |
| SchemaMigration.ApplyKeepsWellFormed | backend/alembic/versions/002_add_stock_transfer_tables.py:19-177 | every operation that does not fail leaves keys and indexes with what they name, and names apart |
| SchemaMigration.DropTableSucceedsIff | backend/alembic/versions/002_add_stock_transfer_tables.py:176-177 | a table is dropped exactly if it exists and no other table's key would lose its parent |
| SchemaMigration.KeyDropMovesPastColumns | backend/alembic/versions/002_add_stock_transfer_tables.py:150-160 | a key of one table may be dropped before or after columns of another |
| StockTransferMigration.UpgradeSucceedsIff | backend/alembic/versions/002_add_stock_transfer_tables.py:19-140 | the upgrade succeeds exactly on schemas with none of the new names and all referred tables |
| StockTransferMigration.Upgrade | backend/alembic/versions/002_add_stock_transfer_tables.py:19-140 | the program run on the database: all of it on such schemas, else nothing |
| StockTransferMigration.DowngradeRestores | backend/alembic/versions/002_add_stock_transfer_tables.py:143-177 | the downgrade then succeeds and gives the schema back exactly, though not in reverse order |
| StockTransferMigration.Downgrade | backend/alembic/versions/002_add_stock_transfer_tables.py:143-177 | the program run on an upgraded database leaves the schema found before |
| AuditColumnMigration.Upgrade | backend/alembic/versions/add_audit_columns_001.py:85-94 | both guarded loops visit each listed column in order; a missing table takes all back |
| AuditColumnMigration.Downgrade | backend/alembic/versions/add_audit_columns_001.py:97-106 | the dropping loops in the same order |
| AuditColumnMigration.UpgradeIsIdempotent | backend/alembic/versions/add_audit_columns_001.py:85-94 | upgrading twice is upgrading once |
| AuditColumnMigration.DowngradeRestoresIff | backend/alembic/versions/add_audit_columns_001.py:85-106 | the downgrade undoes the upgrade exactly if no listed column was there before |
| AuditColumnMigration.UpAddsOnlyListed | backend/alembic/versions/add_audit_columns_001.py:85-94 | the upgrade adds exactly the listed columns that were missing, as nullable integers |
| AuditColumnMigration.DownDropsOnlyListed | backend/alembic/versions/add_audit_columns_001.py:97-106 | the downgrade drops exactly the listed columns, with the keys and indexes that use them |
| AuditColumnMigration.ProgramsOnTheLists | backend/alembic/versions/add_audit_columns_001.py:85-106 | on the two table lists: the upgrade succeeds exactly if every table exists, the downgrade restores exactly if no listed column existed, and either program twice is once |

## Left out

- The column lists of the `migrate_*` functions: one generic table step with an id, references and a payload, plus the auth_group and invoices variants; `invoice_items` is the generic step.
- Deferred constraints, lost connections and other sessions: a commit of a sound transaction succeeds, and only the script's own connection is modelled.
- The inserted and skipped counts of the migration summary.
- Float rounding of legacy amounts, `NOW` beyond one stamp per row, and log output.
- Display columns of cashbook rows (party, method, reference, description), gaps in their ids, and NULL ledger amounts, on which the script stops before deleting anything.
- The sequential phase of the benchmark, its timings and its invoice service: each call of a worker to open a session, create an invoice, roll back or close succeeds or raises.
- Names other than those of tables and indexes in PostgreSQL's shared namespace: sequences, views, and the primary-key index and sequence that come with a table.
- Boolean schemas, and the keywords const, multipleOf, pattern, uniqueItems, contains and dependentRequired.
- SchemaSampler.SampleIsValidIff: not for schemas where an anyOf branch is picked, because a sample may be valid through another branch than the first non-null one; there SampleIsValid gives the one direction.
- MigrationLoads.ClosedDataArrivesWhole: for auth_group, which updates rows, the condition on unique names does not depend on the order of its rows; in a lucky order a chain of renames may load that it excludes.
- MIGRATION_STEPS, the 77 rows of COA_DATA, the 299 of permissions_data and the audit revision's two table lists are parameters with the properties the theorems need; StockTransferMigration spells its programs out.
- `seed_finance_defaults`, the grant of the Admin group to one user, group descriptions, and all other scripts, services, revisions and user interface code.
