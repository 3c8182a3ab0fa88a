# What the migration and cutover tooling guarantees

This project models the operational code of the repository: the scripts and modules that move, convert, back up and
restore its data and decide which process does background work. It proves what they keep at every step, over
whole runs, and, where a promise fails, exactly when.

Code that changes things step by step is a class or a method with loops, proved against a specification on values; what the
source promises is then a lemma about that specification or a clause of the method.

## The parts

**Cross-database migrator.** `Relational` has tables, rows, foreign keys with MATCH SIMPLE, and a target database that checks
every row as it goes in and records every state. `Kahn` is the ordering algorithm used for tables and for rows.
`RowOrder` sorts the rows of a table that refers to itself. `TableCopy` copies one table in chunks through the cached orphan
filter, `Integrity` says why no row dangles on arrival, and `CrossMigrate` is the job: order, delete in reverse, widen, copy, compare
counts. `OrphanFilter` asks when the filter drops too much. `Sequences` is the reset of serial sequences with which a
job ends.

- A job that meets `JobCovered`, a condition on schemas and source that can be checked beforehand, succeeds, with or without a reset,
  if and only if every widening works and every sequence can be reset, and every state recorded during the deletes and inserts is
  referentially consistent. This holds on targets that do not check foreign keys too, such as every SQLite target (`build_engine` sets
  no pragma), where only the order protects the rows. The source may hold history rows whose item is gone.
- On PostgreSQL the job ends with moving the sequences of serial keys, which cannot be set below one: a table whose keys are all below
  one makes a job fail that is otherwise covered. Whether this happens can be told from the source and the target beforehand. PostgreSQL
  does not undo the setting of a sequence with the transaction, so after such a failure sequences can stand below keys that are back.
- The script passes over a self-reference to anything but the whole primary key when it sorts rows. Such rows arrive in the order of
  the SELECT, and the copy works if and only if that order has parents first already; `JobCovered` asks for that. The columns of
  foreign keys must not be JSON.
- On MySQL a text column that is too small is widened between two tables. The ALTER commits, so a job that fails later leaves what was
  copied before the last widening. Without a widening a failed job leaves the target as it was.
- With constraints switched off, tables in a cycle are appended by name. `test_run_item_result_history` sorts before
  `test_run_items`, so when the items reach a cycle the filter sees the target before they arrive. The counts still match, and the
  result is right if and only if no history row has a living item. `OrphanFilter` proves this and gives a job that loses a row.

**Three-database bootstrap.** `Backups` is retention, `BackupNames` the file names, `Bootstrap` one start-up over main, audit and
usm, and `RestartLoop` reasons over histories of start-ups by their failure markers.

- `Run` says for every policy and every course of events how a start-up ends and what it leaves. Code 0 means every target that was
  behind was upgraded and all passed verification. Main may hold one more user then: the closing step seeds a super admin and commits
  (database_init.py:822-866), also when main was at head before, and also in a run that then ends with code 1.
- Exit code 8 is documented to mean that the databases are back to what they were. For targets that were not fresh this is so if and
  only if all backups of the run are still on file; a fresh target is left as its upgrade left it. The backups are on file if fewer
  than the number kept are as new; they are not if that many are newer, which takes a clock set back.
- Where the file is gone, `_restore_sqlite` (app/db_backup.py:188-203) opens its path all the same, which makes an empty file, and copies
  that over the database: no error, code 8, and the database is empty. On MySQL and PostgreSQL the tables are dropped before the file is
  looked for (app/db_backup.py:283, 353): the database is empty too, and the code is 9.
- README.md:108 and docs/database-cutover-readiness.md:142 promise that mode `best-effort` goes on after a failed backup. The code calls
  `logger.warning` (database_init.py:645), which its `Logger` class (lines 240-257) does not have, so the run ends with another
  exception. It goes on if and only if the target is fresh or was backed up. Such a run is not counted, so it repeats for ever.
- Exceptions other than a target failure end the run with code 1, without a rollback or a marker. The cubic bound on failing start-ups
  holds as long as no such run forgets a failed attempt, and it is reached; runs that forget one lift it, unless the limit is one. Both
  are given as runs.

**Qdrant cutover.** `PayloadChecksum` is the JSON encoding and the byte stream under the checksum. `QdrantServer` is a server
whose calls may fail, with or without having taken effect, and whose names are never alias and collection at once.
`Cutover` has the steps on one target, `Rebuild` the whole run.

- Either all targets expose the new points under a physical collection that passed validation, or each logical name that existed
  leads to the points it had. A backup keeps its points from cloning to the end, however the run ends. Rollback calls are taken not to
  fail.
- Validation compares the set of point ids and the multiset of payloads, but not which payload belongs to which id. What `Run`
  exposes is stated about the points themselves and is stronger. A backup has no payload indexes, and deleting a collection
  drops its other aliases: what is restored is the points.

**Bullet trees.** `BulletTree` is the forest as a value, with preorder, parents and printing. `BulletParser` is the parser on heap
nodes with its stack. A text line before any bullet becomes a root of level one that never gets children; the model keeps those apart.

**Smaller protocols.** `EnumStorage` converts enum columns on three kinds of database, `LeaderElection` is the background leader
lock and the bootstrap lock, `CutoverWorkflow` the one-command migration, `AssigneeBackfill` the assignee migration.

- The three kinds of database convert alike except for cells that MySQL's collation (docker-compose.mysql.yml:8) takes for an old value
  without their being spelt as that or as its new value. Matching is any equivalence in the model; the exact condition is proved.
- The scan that guards the one-command migration treats any error as "no data" (app/db_cutover_workflow.py:189-190): the guard is
  exact only for targets whose tables can all be counted.
- A leader never checks again that it still holds the lock. With a lost session, or a stop that fails, two processes can serve; both
  are given as runs, and when exactly it can happen is proved.

## Model

| member | source | states |
|---|---|---|
| Kahn.TopologicalOrder | scripts/db_cross_migrate.py:340-350 | the queue loop produces a Kahn order: released nodes in order of release, dependencies first, nothing more can be released |
| Kahn.ReverseMap | scripts/db_cross_migrate.py:325-338 | for every node exactly the nodes that depend on it |
| Kahn.ReleaseDependants | scripts/db_cross_migrate.py:347-350 | placing a node leaves every other with its unplaced dependencies and queues exactly those left with none |
| Kahn.KahnOrderIsExact | scripts/db_cross_migrate.py:340-361 | the queue places exactly the nodes from which no cycle can be reached, also when cycles are allowed |
| Kahn.CompleteIffAcyclic | scripts/db_cross_migrate.py:352-353 | everything is placed, the script's cycle test, if and only if the graph is acyclic |
| Kahn.KahnOrderIsUnique | scripts/db_cross_migrate.py:340-350 | the result depends on the graph alone, not on how sets are enumerated |
| CrossMigrate.ResolveTableOrder | scripts/db_cross_migrate.py:317-361 | refused if and only if cycles are not allowed and there is one; otherwise a permutation: a Kahn prefix, then the leftovers by name; a refusal names exactly the tables that reach a cycle |
| RowOrder.SelfReferentialSpecs | scripts/db_cross_migrate.py:534-553 | each self-reference to the whole primary key once, of both schemas, and no other |
| RowOrder.BuildRowGraph | scripts/db_cross_migrate.py:568-585 | each row waits for the other rows of the batch it refers to, over all specs, NULLs aside |
| RowOrder.SortRows | scripts/db_cross_migrate.py:556-606 | fails with a cycle error exactly on a repeated key or a cycle, with a column error exactly on an unknown column, and sorts otherwise |
| RowOrder.SortingIsParentsFirst | scripts/db_cross_migrate.py:556-606 | in the result every row comes after the rows it refers to, over all self-references at once |
| RowOrder.SortingIsPermutation | scripts/db_cross_migrate.py:556-606 | with distinct keys the result holds the same rows, each as often |
| RowOrder.CompleteCount | scripts/db_cross_migrate.py:599-606 | comparing lengths is right: it tells both a repeated key and a cycle |
| Relational.StatesInBatches | scripts/db_cross_migrate.py:748-772 | inserting in two batches passes through the same states as inserting in one |
| Relational.InsertableInBatches | scripts/db_cross_migrate.py:748-772 | two batches can be inserted one after the other exactly when their concatenation can |
| Relational.Database.DeleteAll | scripts/db_cross_migrate.py:782-784 | refused exactly when a row elsewhere would lose its parent; otherwise the table is empty and the state recorded |
| Relational.Database.Insert | scripts/db_cross_migrate.py:748-772 | refused exactly when a row would dangle as it goes in; otherwise the rows are appended and every state recorded |
| TableCopy.LoadPrimaryKeyValues | scripts/db_cross_migrate.py:609-629 | the cached keys, or those of the target table now, which are then cached |
| TableCopy.FilterHistory | scripts/db_cross_migrate.py:632-655 | keeps exactly the rows whose item is known, in order, and counts the others |
| TableCopy.BuildPayload | scripts/db_cross_migrate.py:714-740 | projecting, repairing and adapting a chunk is one pass of the filter-and-map on its rows |
| TableCopy.StagesAreTransfer | scripts/db_cross_migrate.py:658-740 | the three passes over a chunk equal one filter-and-map, though the filter sees values before they are adapted |
| TableCopy.TransferInBatches | scripts/db_cross_migrate.py:748-772 | the filter-and-map of a concatenation is the concatenation of the results |
| TableCopy.CopyChunks | scripts/db_cross_migrate.py:748-779 | for every chunk size the target gains what one whole-table filter-and-map gives, and succeeds exactly when that could be written at once |
| TableCopy.OrderRows | scripts/db_cross_migrate.py:742-762 | rows of a self-referring table come parents first, all others in the order of the SELECT |
| TableCopy.CopyOrderIsUnique | scripts/db_cross_migrate.py:742-762 | the order in which rows are copied is determined by the rows and their keys |
| TableCopy.CopyTable | scripts/db_cross_migrate.py:690-779 | both paths append the whole-table filter-and-map; copied plus skipped rows are the source rows; tables without shared columns are left alone |
| Integrity.AdaptedKey | scripts/db_cross_migrate.py:677-740 | after adapting, a key column list reads as before or holds a NULL and refers to nothing |
| Integrity.AdaptedParent | scripts/db_cross_migrate.py:677-740 | a parent is found under the same key after the copy |
| Integrity.KeptItemIsThere | scripts/db_cross_migrate.py:632-655 | a history row the filter keeps finds its item in the target |
| Integrity.SelfReferenceLands | scripts/db_cross_migrate.py:556-606 | a self-reference finds its parent among the rows already written or in the row itself |
| Integrity.TableLands | scripts/db_cross_migrate.py:690-779 | no row of a table dangles as it goes in, once the tables it refers to have arrived |
| Integrity.InsertKeepsConsistent | scripts/db_cross_migrate.py:690-779 | every state a table passes through while its rows go in is consistent |
| Integrity.SelfReferencesNeedOrder | scripts/db_cross_migrate.py:534-606 | in a table where only self-references can dangle, the rows go in if and only if those the sort passes over come parents first already |
| Integrity.PassedOverSelfReferenceDangles | scripts/db_cross_migrate.py:534-553 | a consistent table of two rows whose self-reference is not to the primary key: a covered schema, and the first row dangles |
| CrossMigrate.ResetTarget | scripts/db_cross_migrate.py:782-784 | reverse-order deletes empty exactly the ordered tables, and from a consistent state every intermediate state is consistent |
| CrossMigrate.DeleteIsSafe | scripts/db_cross_migrate.py:782-784 | a table is emptied only after everything that refers to it |
| CrossMigrate.EnsureTextCapacity | scripts/db_cross_migrate.py:488-523 | widening commits what the job has done so far, also when the ALTER fails afterwards; without widening nothing is committed |
| CrossMigrate.CopyTables | scripts/db_cross_migrate.py:1028-1065 | every table gains its filter-and-map, the others keep what they had, the filter goes by the items its order lets it see; covered jobs pass through consistent states only, whether or not the target checks its keys; the last commit is as of the last widening |
| CrossMigrate.VerifyCounts | scripts/db_cross_migrate.py:1076-1104 | one record per table with source, filtered and target rows; a match if and only if all records match |
| CrossMigrate.CountsTell | scripts/db_cross_migrate.py:1076-1104 | with every table sharing a column, the counts match if and only if every table was empty as its copy began |
| CrossMigrate.CoveredJobOrder | scripts/db_cross_migrate.py:317-361 | for a covered job the order makes deleting and copying safe and puts items before their history |
| CrossMigrate.LoadTables | scripts/db_cross_migrate.py:1021-1065 | with or without emptying the tables first: what was loaded, and in a covered run it loads exactly if every widening works, through consistent states and commits only, on targets that check their keys and on those that do not |
| CrossMigrate.RunTables | scripts/db_cross_migrate.py:1021-1104 | completes exactly if the tables were loaded and every sequence could be reset; a completed run copied and counted as stated; the sequences stand where the reset got to |
| CrossMigrate.RunJob | scripts/db_cross_migrate.py:959-1110 | refused exactly on a cycle when cycles are not allowed; the order is a Kahn prefix and the leftovers by name; a failed job leaves what the last widening committed, and nothing without one; a covered job, with or without reset, completes if and only if every widening works and every key column with a sequence will be empty or have a positive key, and every state up to the end, failed or not, is consistent; after a completed job no default insert ever collides with a row of a copied table |
| CrossMigrate.WillDoIsSettable | scripts/db_cross_migrate.py:917-956 | what the reset of sequences will ask for, told from the source and the target as they were before the job |
| OrphanFilter.ItemsFirstDropsOrphansOnly | scripts/db_cross_migrate.py:632-655 | with items first only history rows whose item the source lacks are dropped |
| OrphanFilter.HistoryFirstLosesLiveRows | scripts/db_cross_migrate.py:355-361 | with the history first the counts match all the same, and the result is right if and only if no history row has a living item |
| OrphanFilter.LeftOversPutHistoryFirst | scripts/db_cross_migrate.py:355-361 | whenever both tables are leftovers of a cycle they come in the bad order |
| OrphanFilter.ItemsFirstExactly | scripts/db_cross_migrate.py:317-361 | the order of a job puts items before their history if and only if the items reach no cycle of the table graph |
| OrphanFilter.FilterIsRightExactly | scripts/db_cross_migrate.py:632-655 | into emptied tables the filter drops orphans only, if and only if the items reach no cycle or no history row has a living item |
| OrphanFilter.LoseLiveRow | scripts/db_cross_migrate.py:959-1110 | one whole job on a consistent source of three rows: it completes, its counts match, and the only history row is gone though its item is there |
| Sequences.AheadNeverCollides | scripts/db_cross_migrate.py:917-930 | no number of default inserts collides if and only if the sequence is past every key |
| Sequences.Catalog.ResetSequences | scripts/db_cross_migrate.py:930-956 | table after table and key column after key column, the sequences are set to the greatest key, or to one where there is none, up to the first that has keys but no positive one |
| Sequences.MovedNeverCollides | scripts/db_cross_migrate.py:930-956 | after a complete reset no default insert into any of the columns ever collides |
| Sequences.AfterRefusal | scripts/db_cross_migrate.py:1067-1074 | a refused reset undoes the rows and not the sequences: a sequence then collides with the old rows if and only if these have a key beyond all that were loaded |
| Sequences.Catalog.InsertDefaults | scripts/db_cross_migrate.py:922-930 | after the reset any number of default inserts get new, distinct keys |
| Sequences.CopiedKeysCollide | scripts/db_cross_migrate.py:922-930 | without the reset, copied keys collide with the next insert |
| Backups.ApplyRetention | app/db_backup.py:138-160 | exactly the `keep` newest backups stay, with their contents |
| Backups.RetentionCount | app/db_backup.py:153-160 | `keep` backups are left, or all of them if there were fewer |
| Backups.SurvivesWithRoom | app/db_backup.py:138-160 | a backup survives if fewer than `keep` others are as new, and is deleted if `keep` are newer |
| BackupNames.StampOrder | app/db_backup.py:63-66 | the time stamps compare as strings exactly as the times they stand for |
| BackupNames.ParseFindsStamp | app/db_backup.py:129-135 | parsing a generated file name returns its time stamp, whatever the revisions are called |
| Bootstrap.Host.BootstrapTarget | database_init.py:587-680 | how an attempt ends, what the target then holds, and which files are there, for every mode and every event, also where a backup that raised leaves a file; other targets are untouched |
| Bootstrap.SavedFirst | database_init.py:621-658 | contents that are not fresh are overwritten only once they are on file, unless backups are off |
| Bootstrap.BestEffortContinues | database_init.py:626-645 | with mode best-effort an attempt goes on if and only if the target is fresh or was backed up; else nothing changes and it ends in an exception that is neither handled nor counted |
| Bootstrap.Host.RecordFailure | app/db_backup.py:380-406 | one more attempt for the same head, the first one for another head |
| Bootstrap.Host.Restore | database_init.py:721-741 | succeeds exactly when no restore raises, by itself or for want of a file on MySQL or PostgreSQL; every target reached holds what its backup holds, or nothing if the file is gone; the target that raised has been emptied; the others are as they were |
| Bootstrap.Host.HandleFailure | database_init.py:683-755 | always records the failure; code 1 exactly without rollback or backups, and then databases and files are left alone; 8 exactly when no restore raises, 9 exactly when one does |
| Bootstrap.Host.Settle | database_init.py:1110-1114 | clears the marker and thins the backups of the target just brought up |
| Bootstrap.RolledBack | app/db_backup.py:188-203 | after code 8 every target that was not fresh holds what it held before if and only if all backups of the run are still on file; one whose file is gone is an SQLite database and ends empty; the whole run is undone if and only if, besides, no fresh target was changed |
| Bootstrap.RoomyKeepsBackups | database_init.py:1110-1114 | if fewer than the kept number of older backups are as new, the backups of a run are on file when it fails |
| Bootstrap.RollbackCompletes | database_init.py:683-755 | then a failed run ends in code 8 if and only if it is to roll back, has a backup, and no restore raises by itself |
| Bootstrap.CrowdedOut | app/db_backup.py:138-160 | with as many newer backups on file as are kept, the backup is thinned away: the target ends empty as soon as the rollback gets to it, with code 9 on MySQL and PostgreSQL, and with code 8 if all three are SQLite and no restore raises by itself |
| Bootstrap.RollbackEmptiesMain | app/db_backup.py:188-203 | one start-up of three SQLite databases that ends in code 8 with main empty |
| Bootstrap.OneEnding | database_init.py:1076-1121 | a start-up either brings up all three or stops at one first target |
| Bootstrap.Host.Run | database_init.py:1076-1131 | code 10 exactly when a marker is at its limit, and then nothing changes; the first target that does not come up decides the code, the markers, the databases and the backups, whether by a failure or by another exception; if all come up, code 0 exactly when the closing steps do not raise, audit and usm as brought up, main also seeded |
| RestartLoop.FailureRaisesScore | app/db_backup.py:380-410 | a failure raises the attempts read as a base-N number |
| RestartLoop.CrashAndScore | database_init.py:1101-1114 | a run ended by another exception leaves that number alone if it forgets no failed attempt, and lowers it if it does |
| RestartLoop.AtMostCubeFailures | database_init.py:1076-1121 | at most N cubed start-ups can fail on a target, also with other exceptions in between, as long as these forget no failed attempt |
| RestartLoop.FailUpToTheCube | database_init.py:1076-1121 | the bound is reached: N cubed start-ups of one host fail one after the other from no markers, and the next is refused |
| RestartLoop.FailForever | database_init.py:1101-1114 | start-ups of one host that fail on main and, in turn, get past main and end in an exception: any number fail, and none is refused |
| RestartLoop.BoundSurvivesCrashes | database_init.py:1076-1121 | the bound holds for every history of failures and other exceptions if and only if the limit is one |
| RestartLoop.BestEffortNeverStarts | database_init.py:626-645 | with mode best-effort and a main database that is behind and cannot be backed up, every start-up ends in code 1, changes nothing and counts nothing |
| PayloadChecksum.EncodeUnique | scripts/rebuild_qdrant_usm_nodes.py:282-287 | the JSON text of a payload determines it, and none is a prefix of another where lines are read |
| PayloadChecksum.ChecksumStream | scripts/rebuild_qdrant_usm_nodes.py:279-289 | the digest is fed the payloads sorted by entity key, one line each |
| PayloadChecksum.LinesInjective | scripts/rebuild_qdrant_usm_nodes.py:288-289 | newline framing decodes uniquely: equal streams come from equal payload sequences |
| PayloadChecksum.ChecksumIdentifies | scripts/rebuild_qdrant_usm_nodes.py:279-290 | equal checksums mean the same payloads, each as often, if the digest does not collide |
| PayloadChecksum.SortedOrderIsUnique | scripts/rebuild_qdrant_usm_nodes.py:281 | with distinct entity keys the checksum does not depend on the order of the payloads |
| QdrantServer.Server.Scroll | scripts/rebuild_qdrant_usm_nodes.py:333-339 | a page is exactly the points from the offset up to the next one |
| Cutover.CopyCollectionPoints | scripts/rebuild_qdrant_usm_nodes.py:324-356 | the destination gains every point of the source, page by page, and the count is theirs; no other collection changes; termination |
| Cutover.CreateCanonical | scripts/rebuild_qdrant_usm_nodes.py:382-402 | an empty collection with all canonical indexes, never over an existing one |
| Cutover.ReadPayloads | scripts/rebuild_qdrant_usm_nodes.py:464-484 | every point once, with its payload |
| Cutover.ValidateCollection | scripts/rebuild_qdrant_usm_nodes.py:487-520 | passes only for the expected dimensions, indexes, ids, fields and checksum, and passes what holds the source when no call fails |
| Cutover.ListingsAgree | scripts/rebuild_qdrant_usm_nodes.py:464-484 | however a collection is paged, the payload multiset is the same |
| Cutover.ValidatedMeansSource | scripts/rebuild_qdrant_usm_nodes.py:487-520 | what passed holds exactly the payloads of the source, each as often, if the digest does not collide |
| Rebuild.TargetState.Inspect | scripts/rebuild_qdrant_usm_nodes.py:303-321 | passes only if there is something to replace and the generated names are free; reads only |
| Rebuild.TargetState.Clone | scripts/rebuild_qdrant_usm_nodes.py:359-379 | a backup with the original points; the logical name untouched whether or not it succeeds |
| Rebuild.TargetState.RemoveLogicalName | scripts/rebuild_qdrant_usm_nodes.py:552-565 | the name is neither alias nor collection afterwards; other collections are untouched |
| Rebuild.TargetState.Rollback | scripts/rebuild_qdrant_usm_nodes.py:601-604 | the logical name leads to the original points again; backup and shadow are untouched |
| Rebuild.TargetState.Switch | scripts/rebuild_qdrant_usm_nodes.py:568-598 | either the shadow's points stand under a physical collection, or the original points stand under the name |
| Rebuild.TargetState.SwitchAndCheck | scripts/rebuild_qdrant_usm_nodes.py:731-743 | success means switched, validated and physical; failure means restored or still to be rolled back |
| Rebuild.NamesDiffer | scripts/rebuild_qdrant_usm_nodes.py:686-698 | backup, shadow and logical name differ for every collection name and run id |
| Rebuild.BackUpAll | scripts/rebuild_qdrant_usm_nodes.py:712-715 | every target has its backup and an empty canonical shadow, or all logical names are intact; the targets cloned so far have whole backups and at most one further has been begun |
| Rebuild.LoadShadows | scripts/rebuild_qdrant_usm_nodes.py:413-461 | window by window, for every window size, every shadow ends up with the points of all payloads |
| Rebuild.ValidateShadows | scripts/rebuild_qdrant_usm_nodes.py:718-727 | passes only if every shadow is valid |
| Rebuild.RollBackAll | scripts/rebuild_qdrant_usm_nodes.py:744-748 | rolling back those switched restores all targets, and their backups are still whole |
| Rebuild.SwitchAll | scripts/rebuild_qdrant_usm_nodes.py:729-748 | all targets expose the new points, or all of them the original ones |
| Rebuild.LoadedIsCanonical | scripts/rebuild_qdrant_usm_nodes.py:413-520 | what is loaded from canonical payloads passes the checks computed from them |
| Rebuild.Run | scripts/rebuild_qdrant_usm_nodes.py:650-761 | all or nothing over every failure outside rollback; every backup finished by then still holds the original points, however the run ends; a dry run changes no server; without failures and with free names the run replaces |
| BulletTree.ParseKeepsContent | scripts/qa_ai_helper_preclean.py:199-241 | printing what was parsed gives every line of content back in input order |
| BulletTree.ParseFindsNearest | scripts/qa_ai_helper_preclean.py:219-229 | every bullet hangs under the nearest earlier bullet with fewer stars, or is a root if there is none |
| BulletTree.ParseIsCanonical | scripts/qa_ai_helper_preclean.py:219-229 | children are deeper than their parent, and no tree is deeper than the one before it |
| BulletTree.PrintThenParse | scripts/qa_ai_helper_preclean.py:199-241 | printing and parsing again gives back every forest of that shape |
| BulletTree.SameForestSameContent | scripts/qa_ai_helper_preclean.py:199-241 | two inputs give the same forest if and only if their content lines are the same |
| BulletParser.PopTo | scripts/qa_ai_helper_preclean.py:221-222 | popping leaves exactly the open nodes that are shallower than the new bullet |
| BulletParser.AddBullet | scripts/qa_ai_helper_preclean.py:213-230 | hanging the node under the stack's top is attaching its entry to the forest; the stack is again the rightmost path |
| BulletParser.AddProse | scripts/qa_ai_helper_preclean.py:232-239 | text goes to the last bullet, or becomes a root of its own before the first |
| BulletParser.ParseBulletTree | scripts/qa_ai_helper_preclean.py:199-241 | the nodes built on the heap are the parsed forest, each node once, all of them new |
| BulletParser.SpineIncreases | scripts/qa_ai_helper_preclean.py:221-229 | the levels on the stack strictly increase |
| BulletParser.AttachedUnder | scripts/qa_ai_helper_preclean.py:224-225 | adding a child to one heap node is attaching an entry deep in the forest, and nothing else changes |
| EnumStorage.SequentialIsSimultaneous | app/db_migrations_enum_support.py:43-48 | under any collation, one UPDATE per pair does what the mapping says, for every value, if and only if no update catches and changes what an earlier one wrote |
| EnumStorage.SecondTimeIsIdle | app/db_migrations_enum_support.py:43-48 | converting twice is converting once if and only if no update catches and changes what any update wrote |
| EnumStorage.OldLabelsReturn | alembic/versions/21a93e84da75_convert_enum_columns_to_portable_values.py:105-119 | downgrade after upgrade is the identity on old labels if and only if no two new values are the same to the database |
| EnumStorage.ValueReturns | alembic/versions/21a93e84da75_convert_enum_columns_to_portable_values.py:105-119 | any value comes back exactly if it is spelt as an old label, or the database takes it for no old or new value of a pair that changes anything |
| EnumStorage.CellsReturn | alembic/versions/21a93e84da75_convert_enum_columns_to_portable_values.py:105-119 | a whole column comes back exactly if each of its values does |
| EnumStorage.DowngradeTakes | app/db_migrations_enum_support.py:51-77 | a native downgrade is possible exactly when the database takes every cell for an old or a new value |
| EnumStorage.UpdateEnumValues | app/db_migrations_enum_support.py:43-48 | the column's cells are converted as the collation matches them, NULLs stay, no other column changes |
| EnumStorage.MigrateColumnMysql | app/db_migrations_enum_support.py:51-77 | widening and updating never fail; narrowing to an inline type fails exactly when two labels are the same to the collation or a cell is the same as none, and stores every cell as its label |
| EnumStorage.RetypeAll | app/db_migrations_enum_support.py:110-133 | succeeds exactly when every cell fits the new type; only listed columns change |
| EnumStorage.MigrateAllPostgresql | app/db_migrations_enum_support.py:109-135 | the named type is dropped only when no unlisted column uses it |
| EnumStorage.MigrateEnumStorage | app/db_migrations_enum_support.py:80-139 | succeeds exactly when the type is free and a native target takes every cell; then the listed columns are converted and the unlisted ones untouched |
| EnumStorage.CollationMatters | app/db_migrations_enum_support.py:43-48 | a database with a collation converts a value like one that compares exactly, if and only if the value is not taken for an old value without being it or its new value |
| EnumStorage.SameCellsEverywhere | app/db_migrations_enum_support.py:80-139 | what the other two kinds of database take MySQL takes, provided its collation tells the labels of a native type apart, and it ends with the same cells if and only if no cell is such a lookalike |
| EnumStorage.CaseMatters | docker-compose.mysql.yml:5-8 | under a collation that ignores case the cell `high` is converted, elsewhere it is left alone |
| LeaderElection.App.TryAcquire | app/runtime_locks.py:170-204 | leadership exactly with the lock; an error means no leadership |
| LeaderElection.App.GiveUp | app/runtime_locks.py:206-241 | whether or not the unlock call goes through, the lock is free afterwards and another holder keeps it |
| LeaderElection.App.Advance | app/main.py:392-444 | each stretch between awaits is one step of the process state machine |
| LeaderElection.UnderBootstrapLock | app/runtime_locks.py:112-157 | a lock that was taken is free on every way out, and a failed attempt never releases another holder's |
| LeaderElection.AtMostOneLeaderServes | app/main.py:392-444 | in every interleaving of any number of processes at most one runs the services, given lasting sessions and stops that succeed |
| LeaderElection.NextInLineTakesOver | app/main.py:420-432 | after a crash or a release of the leader the next process that asks takes over |
| LeaderElection.FailedStopLetsTwoServe | app/main.py:539-596 | a stop that fails is followed by the release all the same, and two processes serve |
| LeaderElection.LostSessionLetsTwoServe | app/runtime_locks.py:170-173 | a leader that lost its session does not notice, and two processes serve |
| LeaderElection.WhenTwoCanServe | app/main.py:392-444 | from any consistent cluster, a lost session or a failed stop of a process can be followed by two serving if and only if it is serving, or about to in the case of a session, and there is another process |
| CutoverWorkflow.DetectNonEmpty | app/db_cutover_workflow.py:166-193 | reports data exactly where there is some and every table could be counted |
| CutoverWorkflow.UnreadableHidesData | app/db_cutover_workflow.py:166-193 | scanning a target with users in it and one table that cannot be read reports no data |
| CutoverWorkflow.Workflow.CopyAll | app/db_cutover_workflow.py:757-786 | the copy counts as done if and only if all three jobs ran in order, returned 0 and matched |
| CutoverWorkflow.Workflow.RunMigrateWorkflow | app/db_cutover_workflow.py:703-823 | success if and only if the health check passed, which takes three matching jobs; nothing is copied over counted data without force; services brought up are taken down last on every way out unless kept |
| AssigneeBackfill.SetExactlyWhenIdentified | alembic/versions/c4d5e6f7a8b9_add_test_run_item_assignee_user.py:114-138 | a user is set if and only if every identifier the item has picks out that one active user with a write role; assigned items are untouched |
| AssigneeBackfill.BackfillIsIdempotent | alembic/versions/c4d5e6f7a8b9_add_test_run_item_assignee_user.py:77-138 | a second backfill changes nothing |
| AssigneeBackfill.OneCandidate | alembic/versions/c4d5e6f7a8b9_add_test_run_item_assignee_user.py:100-112 | a candidate list of one is exactly one user who goes by the identifier |
| AssigneeBackfill.IndexUsers | alembic/versions/c4d5e6f7a8b9_add_test_run_item_assignee_user.py:100-112 | the two dictionaries hold, for every identifier, the users who match |
| AssigneeBackfill.ChosenIsOwner | alembic/versions/c4d5e6f7a8b9_add_test_run_item_assignee_user.py:119-131 | the branches choose the owner's id, and nobody when there is no owner |
| AssigneeBackfill.BackfillExactLocalAssignees | alembic/versions/c4d5e6f7a8b9_add_test_run_item_assignee_user.py:77-138 | whatever the order of users and items, the table ends up as the set of users says |

## Left out

- Reflection, Alembic commands, dump and restore programs, and the drivers: tables are read, an upgrade leaves some contents and may
  fail, a snapshot holds the contents and a restore puts them back or fails.
- Relational.Database.DeleteAll: a foreign key with an ON DELETE action would delete or clear the rows that refer to the table instead
  of refusing; such actions are not modelled.
- Relational.Database.Insert: uniqueness of keys, column defaults and NOT NULL are not modelled; a target column the source does not
  give reads as NULL, and a job without reset is taken to bring no key that is there already.
- CrossMigrate.EnsureTextCapacity: which columns need widening, and whether the ALTER works, is given.
- CrossMigrate.RunJob: selection and creation of target tables, the checks of `validate_target_tables`, dry runs and the
  legacy purge are not modelled; chunk_size is taken to be at least 1.
- Bootstrap.Host.Run: the engine of a target does not change between backup and restore, and a restore that raises leaves
  no file behind; other processes that start at the same time and a bootstrap lock that cannot be taken are not modelled; exceptions
  about legacy databases, which end with codes 3 and 4 (database_init.py:1140-1145), are taken for others, which end with code 1.
- RestartLoop.AtMostCubeFailures: heads stay the same and nobody clears markers by hand.
- Rebuild.Run: the calls inside a rollback do not fail a second time; the targets are distinct servers; calls gathered concurrently
  are made one after the other; vectors are opaque values.
- PayloadChecksum.EncodeUnique: a payload has its fields in key order, each once; floating-point numbers are not modelled, and the
  text is characters rather than UTF-8.
- BulletParser.ParseBulletTree: lines come classified and cleaned; the regular expressions, section splitting and the text made from
  nodes are not modelled. The scenario parser in the same file is not modelled.
- LeaderElection.App.Advance: cancellation in the middle of a lock call is not modelled; the several services are one.
- LeaderElection.AtMostOneLeaderServes: only for runs without lost sessions and failed stops; the two counterexamples show both are needed.
- EnumStorage.MigrateEnumStorage: one group of columns; one collation for all columns; each column is listed once and exists; a failed
  conversion stops where it is, without the rollback PostgreSQL would do.
- CutoverWorkflow.Workflow.RunMigrateWorkflow: stopping the server and taking services down are taken to return; the rehearsal mode and
  its comparison are not modelled.
- AssigneeBackfill.BackfillExactLocalAssignees: trimming and lower-casing are arbitrary functions of strings.
- HTTP routes, the clients of Jira, GitHub and Jenkins, URL handling, settings, and plain schema migrations.
