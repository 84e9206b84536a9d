# Arcanon's service graph: model and proofs

Arcanon stores a cross-repository service graph in SQLite, rewrites it on every scan, answers impact
queries over it and uploads it to a hub. This project models the parts that keep the graph right and proves
what they keep:

- the scan write pipeline (`persistScanResult`): `ScanTables` (the tables and one function per SQL
  statement), `ScanPipeline` (the composed functions), `ScanEngine` (the class that runs the statements one
  at a time, any of which may fail), and what every run of it keeps: `ScanIntegrity`, `ScanRuns`,
  `ScanEffects`, `ScanTheorems`, `ScanIsolation`, `ScanOverrides`, `PathTemplates`, `ScanRescan`,
  `ScanFindings`, `ScanFields`, `ScanActions`, `ScanKept`; when a scan commits and returns:
  `ScanCommits`, `ScanCleanup`, `ScanNames`, `ScanReturns`;
- the graph queries: `Impact` (the recursive query behind `transitiveImpact`), `GraphQuery` (`queryGraph`);
- `Transactions` (nested `transaction()` over BEGIN, SAVEPOINT, RELEASE, ROLLBACK TO);
- `UploadQueue` (the offline upload queue and its drain), `UploadLosses` (which accepted uploads a drain deletes
  or kills unsent), `BoundedRunner` (`allSettledBounded`);
- `Dedup` (migrations 004, 006 and 013), `ScanDiff` and `DiffReport` (`diffScanVersions`), `Mismatches`
  (`detectMismatches`), `StmtCache`, and the string functions they share: `Paths`, `Text`, `JsMap`, `Common`.

Tables are maps from row id to row with an AUTOINCREMENT counter. A statement that a UNIQUE index or a foreign
key rejects is `Thrown`. Clock values, hub verdicts, what arrives while an upload is in flight, which findings
fail the evidence check, which statement of an override fails, and the point where a process is cut off are
parameters, quantified over.
Functions that the source writes as loops over mutable state are methods of classes (or methods with loops),
proved equal to functions of the state before; the theorems are about those functions.

`dafny verify dfyconfig.toml` checks the whole project.

## What the proofs found

- **When a scan cannot commit.** With no override pending, the write transaction of any findings throws if and only if
  (`ScanReturns.AnyScanThrowsIff`) the repository is unknown; or an evidenced finding resolves to the ends, and has the
  method and path, of a connection with a schema; or two evidenced findings are the same call and a schema belongs to
  the earlier one; or, in a full scan, a schema hangs on a connection of a service that the scan does not find again:
  an old schema of another repository's, or one that the scan itself writes. With closed findings, which name only
  services they contain, this is `ScanCommits.ScanThrowsIff`.
  - The second cause makes re-scans fail: `INSERT OR REPLACE` deletes the old connection row, which a `schemas` row
    still refers to, and the schema clean-up comes later, in `endScan`. After a scan that stores
    a schema on a call with a method and a path, the next scan of the same findings throws, in either mode
    (`ScanCommits.SecondScanThrows`; from the empty tables: `ScanCommits.FirstScanCommitsSecondThrows`). The transaction
    rolls back, so nothing is corrupted, and trying again throws again.
  - In the third, the map from finding index to row id keeps the id that the later finding's `REPLACE` deleted
    (`ScanFindings.SchemasThrowIffReplaced`).
  - In the fourth, `endScan` throws: a schema it keeps hangs on a connection that must go
    (`ScanIntegrity.EndScanThrowsIffBlocked`).
  - Writing the findings, also with overrides pending, throws by the second and third cause alone
    (`ScanNames.AnyFindingsThrowIff`).
- **An incremental scan can commit and then fail.** Its clean-up deletes connections without their schemas, outside the
  transaction. With no override pending, a scan returns if and only if it commits and, when incremental, no schema that
  it keeps or writes hangs on a connection of a service whose file was deleted, by the service's last finding or, if it
  is not found, by its row (`ScanReturns.ScanReturnsIff`). Deleting the file of a service whose calls have schemas is
  such a case: after a full scan that stored one, the incremental scan that is told of the deletion commits, and cannot
  return (`ScanReturns.DeletedFileNeverReturns`; from the empty tables: `ScanReturns.DeletedFileRun`).
- **A full scan keeps connections it no longer finds, but not their schemas**: an old connection between services that
  stay is kept (`ScanKept.FullScanKeepsConnections`); its schemas and fields are deleted unless another repository owns
  it (`ScanKept.SchemasAfterAScan`).
- **An override is applied again when only its stamp fails.** The pass catches the failure and goes on, so the change
  commits and the override stays pending (`ScanOverrides.StampedUnlessTheStampFails`). An override's changes are
  committed once for its stamp and once for every stamp that failed alone (`ScanOverrides.ChangesPerOverride`), so at
  most once in a run whose scans never fail at its stamp (`ScanOverrides.AtMostOneChange`). In
  `ScanOverrides.StampFailureRun` one stamp fails and the change is committed twice.
- **Edge keys can clash** in `queryGraph`: `a→b` + `c` and `a` + `b→c` have one key. The edges are exact if and
  only if no two name pairs share a key (`GraphQuery.ExactIffNoClash`); names without an arrow never clash, and a
  chain of four services shows two that do (`GraphQuery.ArrowNamesClash`).
- **The statement cache forgets the handle**: a statement comes back on the requested handle if and only if the
  text was not cached from another one (`StmtCache.StmtCache.Get`); otherwise it comes on the handle that asked for it
  first (`StmtCache.ServeTwice`). With one handle this cannot happen.
- **A drain can delete an accepted upload unsent.** Rows are sent as they were listed, so an entry that rewrites a
  listed row before its turn ends, whether the row is in flight or listed after the one in flight, can go with the row.
  The upload standing in a listed row at the end of its turn is lost if and only if the listed body does not parse, or
  the listed upload is delivered and another one stands in the row (`UploadLosses.DrainLosesIff`). If no accepted entry
  for the listed commit arrives up to then, no body that parses is lost (`UploadLosses.ParsableLostIff`).
  `UploadLosses.EntriesAreLost` has three drains that lose one.
- **A drain can kill an accepted upload unsent**, in the same way: the row is dead at the end of the drain, with an
  upload in it that was not sent, if and only if the listed upload was another one and met a final failure or its fifth
  retriable one (`UploadLosses.DrainKillsIff`; two such drains: `UploadLosses.EntriesDie`). `pruneDead` then deletes it.
- **A base path with a named parameter never strips**: stored connection paths are blanked to `{_}`, base paths are
  not. A path stored below a base path, at any depth, is recognised if and only if the base path is canonical
  (`Mismatches.StoredPathStripsIffBaseIsCanonical`; for the base itself, `Mismatches.StoredBaseStripsIffCanonical`).
  For paths as such, blanked or not, renaming parameters of called paths is without effect if and only if the target's
  base path has no parameter (`Mismatches.NamesDoNotMatterIff`); the paths that make the difference are raw ones, which
  only rows written before canonicalization have.
- **The first endpoint of a target can add mismatches** (`Mismatches.FirstEndpointAddsMismatchesIff`; an
  input: `Mismatches.FirstEndpointAddsOne`); later ones never do.
- **Migration 006 throws** if and only if a scan version belongs to a repository that would be merged away, or two
  merged services expose one (method, path) (`Dedup.Database.Up006`); 004 throws if and only if the latter.
- Where the code and its comments disagree the code is modelled: `endScan` deletes services and connections with a
  NULL version (plugins/arcanon/worker/db/query-engine.js:1649-1651), although the comment at lines 1580-1584 says
  they stay.

## Model

| member | source | states |
|---|---|---|
| ScanRuns.RunsStaySettled | plugins/arcanon/worker/scan/scan-service.js:60-117 | after any sequence of scans over any repos, full or incremental, each cut off at any statement, rolled back or with any override statement failing, with repos added and overrides staged in between: connections, schemas and fields never dangle, (repo, name) and concrete connection keys are unique, every service carries its repo's latest completed scan, every connection stamp names a scan, and no scan is left uncompleted |
| ScanRuns.StepKeepsSettled | plugins/arcanon/worker/scan/scan-service.js:75-114 | one scan, committed, rolled back or cut off in the clean-up after COMMIT, keeps all of that from any state that has it |
| ScanRuns.WriteTxSettles | plugins/arcanon/worker/scan/scan-service.js:75-106 | the write transaction, when it commits, re-establishes it: re-stamping and endScan leave no service of the repo with an older version |
| ScanRuns.NothingAbandoned | plugins/arcanon/worker/db/query-engine.js:1527-1536 | between scans the abandoned-scan clean-up finds nothing, so it never takes a stamp back |
| ScanRuns.CleanupRemovesAbandoned | plugins/arcanon/worker/db/query-engine.js:1527-1536 | in any tables the clean-up takes away exactly the repo's uncompleted scans begun before the cutoff, and their stamps off overrides, or does nothing when a row carries one |
| ScanEngine.QueryEngine.PersistScanResult | plugins/arcanon/worker/scan/scan-service.js:60-117 | the statement-by-statement run, with a failure possible at every statement, is one step of the run model; when it returns it has done all of the function pipeline; when the transaction throws the tables are as before; and, with no override pending, it returns unless a statement failed or the tables before the call and the findings meet the conditions of ScanReturnsIff |
| ScanEngine.QueryEngine.WriteTransaction | plugins/arcanon/worker/scan/scan-service.js:75-106 | commits exactly the composed function of begin, re-stamp, findings, overrides and end, or changes nothing |
| ScanEngine.QueryEngine.BeginScan | plugins/arcanon/worker/db/query-engine.js:1553-1566 | cleans up, inserts an uncompleted version and hands out its id |
| ScanEngine.QueryEngine.RestampExistingRows | plugins/arcanon/worker/scan/scan-service.js:137-163 | its two UPDATE statements equal the re-stamp function, which moves the previous scan's services and the connections out of them to this scan |
| ScanEngine.QueryEngine.UpsertService | plugins/arcanon/worker/db/query-engine.js:979-1005 | inserts the service or rewrites the row of that (repo, name), and returns its id |
| ScanEngine.QueryEngine.PersistFindings | plugins/arcanon/worker/db/query-engine.js:2326-2516 | the loops over services, connections, schemas and fields, with the local id maps, equal the recursive functions that look ids up in the tables |
| ScanEngine.QueryEngine.PersistServices | plugins/arcanon/worker/db/query-engine.js:2331-2344 | the loop's name-to-id map gives, for every name, what a lookup in the tables gives |
| ScanEngine.QueryEngine.PersistConnections | plugins/arcanon/worker/db/query-engine.js:2368-2484 | stores the resolvable, evidenced findings in order and records which row each got |
| ScanEngine.QueryEngine.PersistSchemas | plugins/arcanon/worker/db/query-engine.js:2497-2516 | the loops over schemas and their fields equal the function that ScanFields.SchemasAreStored is about |
| ScanEngine.QueryEngine.ApplyPendingOverrides | plugins/arcanon/worker/scan/overrides.js:60-139 | the pass over the rows pending at its start, statement by statement with a failure of any one caught and counted, equals the function pass, with its three counters |
| ScanEngine.QueryEngine.Mutate | plugins/arcanon/worker/scan/overrides.js:170-232 | the statements of one override, of which any one may fail, leave what the function with that fault leaves, which ScanActions.MutateDoes is about |
| ScanEngine.QueryEngine.EndScan | plugins/arcanon/worker/db/query-engine.js:1592-1679 | the seven statements in their order equal the endScan function, or fail without effect on the caller |
| ScanEngine.QueryEngine.DeleteDeletedFileFindings | plugins/arcanon/worker/scan/scan-service.js:183-219 | the loops over deleted files and their services, stopped at any statement, leave what the function with that budget leaves |
| ScanIntegrity.EndScanClosedForm | plugins/arcanon/worker/db/query-engine.js:1592-1679 | on return exactly the current services of the repo, the connections among surviving services and the schemas and fields of what is left remain, and the version is completed |
| ScanIntegrity.EndScanThrowsIffBlocked | plugins/arcanon/worker/db/query-engine.js:1646-1651 | endScan throws if and only if a schema that its clean-up keeps hangs on a connection of a service that must go |
| ScanIntegrity.EvictThrowsIffSchemas | plugins/arcanon/worker/db/query-engine.js:570-589 | deleting connections before their services can fail only on schemas, never on the services' own foreign key |
| ScanIntegrity.NoOrphans | plugins/arcanon/worker/db/query-engine.js:1662-1673 | with the constraints in force the closing orphan clean-up has nothing to delete |
| ScanIntegrity.OrphansGo | plugins/arcanon/worker/db/query-engine.js:1662-1673 | in any tables it takes away exactly the fields without a schema and the schemas without a connection, the latter all or, while a field has one of them, none |
| ScanIntegrity.UpsertConnectionKeepsIntegrity | plugins/arcanon/worker/db/query-engine.js:1015-1047 | INSERT OR REPLACE under the dedup index keeps every declared constraint, when it does not throw |
| ScanIntegrity.ApplyOneKeepsIntegrity | plugins/arcanon/worker/scan/overrides.js:170-232 | every override action keeps the constraints and touches services and connections only |
| ScanIntegrity.MutateKeepsIntegrity | plugins/arcanon/worker/scan/overrides.js:107-134 | so does an override cut short by a failing statement: connections go before their services |
| ScanEffects.PersistServicesEffect | plugins/arcanon/worker/db/query-engine.js:2331-2344 | after the service loop a named service has its last finding's columns under the id it had, the others are untouched, and each name has a row |
| ScanEffects.PersistConnectionsEffect | plugins/arcanon/worker/db/query-engine.js:2368-2484 | an old connection stays as it was unless a stored finding has its concrete key; new rows belong to stored findings |
| ScanEffects.PersistConnectionsStoresAll | plugins/arcanon/worker/db/query-engine.js:2368-2484 | every finding that resolves and is evidenced has a new row with its key at the end |
| ScanEffects.DeleteFilesEffect | plugins/arcanon/worker/scan/scan-service.js:183-219 | a completed clean-up removes exactly the services defined in the deleted or renamed files and the connections touching them |
| ScanTheorems.FullScanLeavesExactlyTheFindings | plugins/arcanon/worker/db/query-engine.js:1592-1679 | with no override pending, a full scan that commits leaves the repo with exactly the findings' service names, each row with the columns of the last finding of its name, or their defaults, services already there under their old ids |
| ScanTheorems.IncrementalScanKeepsServices | plugins/arcanon/worker/scan/scan-service.js:85-114 | an incremental scan that returns leaves the old and the found services less those of deleted or renamed files; found ones have the columns of the last finding of their name, or the defaults, under their old ids; services not found keep their id and every column but the version |
| ScanTheorems.IncrementalScanKeepsConnections | plugins/arcanon/worker/scan/scan-service.js:137-219 | a connection between surviving services stays, up to its version, unless a new row with the same concrete key replaced it; another repo's stays entirely |
| ScanKept.FullScanKeepsConnections | plugins/arcanon/worker/db/query-engine.js:1646-1651 | a full scan keeps every old connection between services that stay, found again or not, unless a new row with the same concrete key replaced it |
| ScanKept.SchemasAfterAScan | plugins/arcanon/worker/db/query-engine.js:1622-1643 | a committed scan keeps an old schema with its fields if and only if another repo owns its connection or an incremental scan moved the connection to itself |
| ScanKept.ScanIsRecorded | plugins/arcanon/worker/db/query-engine.js:1553-1566 | a committed scan adds one scan version, under the next id, with its repo and its times of beginning and completion, and changes no other |
| ScanTheorems.StagesOfAScan | plugins/arcanon/worker/scan/scan-service.js:75-106 | the table states between the stages of a committed scan and how each follows from the one before |
| ScanTheorems.PreviousScanStampedAll | plugins/arcanon/worker/scan/scan-service.js:137-163 | the re-stamp finds every service of the repo stamped with the latest completed scan, by the invariant of the earlier runs |
| ScanIsolation.ScansLeaveOtherReposAlone | plugins/arcanon/worker/scan/scan-service.js:60-117 | with closed findings and no override pending, a scan that returns changes no service, connection, schema or field owned by another repo, and adds none, except that connections into a removed service go |
| ScanIsolation.StoredKeysAreOwn | plugins/arcanon/worker/db/query-engine.js:2631-2650 | closed findings resolve to the repo's own services, so every stored key is the repo's own |
| ScanOverrides.PassIsBooked | plugins/arcanon/worker/scan/overrides.js:60-139 | applied + skipped + errors is the number pending; a pending override is stamped with this scan if and only if it was applied, a stamped one is left alone |
| ScanActions.MutateDoes | plugins/arcanon/worker/scan/overrides.js:170-232 | an override whose statements all run does to its row what it says and nothing else: an update sets the ends and the evidence given and keeps the other columns, a rename sets the trimmed name, set-base-path the text or NULL for an empty one, a delete removes the row and, for a service, every connection touching it |
| ScanActions.CompletesIff | plugins/arcanon/worker/scan/overrides.js:170-232 | all of its statements run if and only if none of them fails and nothing rejects it: a schema on a connection to delete, another service with the name, an end that is no service, another connection with the method, path and ends, a null payload |
| ScanActions.AllowedIff | plugins/arcanon/worker/scan/overrides.js:35-43 | which actions each kind has |
| ScanActions.PassDoes | plugins/arcanon/worker/scan/overrides.js:60-139 | each override of a pass, in order: it does that to the tables it meets or leaves them, but for a service delete cut between its statements; it is applied if and only if its statements and its stamp all run |
| ScanActions.PassCounts | plugins/arcanon/worker/scan/overrides.js:60-139 | the skipped counter is the number of pending overrides with an action their kind does not have or an unreadable payload, the errors counter that of the others which are rejected or of which a statement or the stamp fails |
| ScanActions.OverrideShows | plugins/arcanon/worker/scan/overrides.js:60-139 | at the end of a pass an override that ran shows in its row, unless a later one names the row |
| ScanActions.OverrideShowsAfterScan | plugins/arcanon/worker/scan/scan-service.js:75-106 | and so it does in the tables a scan commits |
| ScanOverrides.OverridesApplyExactlyOnce | plugins/arcanon/worker/scan/overrides.js:60-139 | over every run with arbitrary rollbacks and failing statements no override is applied, stamped and committed twice, and the stamped overrides are exactly those |
| ScanOverrides.StampedUnlessTheStampFails | plugins/arcanon/worker/scan/overrides.js:107-134 | of the overrides met, exactly those whose statements all run are applied or, when the statement that fails is the stamp, changed but left pending |
| ScanOverrides.ChangesPerOverride | plugins/arcanon/worker/scan/overrides.js:107-134 | over every run an override's changes are committed exactly once if it is stamped, plus once for each pass in which only its stamp failed |
| ScanOverrides.AtMostOneChange | plugins/arcanon/worker/scan/overrides.js:107-134 | in a run whose scans never fail at the stamp of an override, its change is committed at most once |
| ScanOverrides.StampFailureRun | plugins/arcanon/worker/scan/overrides.js:107-134 | a run that commits one override's change twice: a base-path override is staged, the first scan fails at its stamp, the second does not |
| ScanOverrides.UnstampedStaysPending | plugins/arcanon/worker/scan/overrides.js:128-134 | an override whose stamp failed is pending before and after the step |
| ScanOverrides.StampsAreFinal | plugins/arcanon/worker/db/query-engine.js:1388-1410 | a committed stamp names a completed scan and no later step changes it |
| ScanRescan.RerunKeepsServiceIds | plugins/arcanon/worker/db/query-engine.js:979-1005 | running a full scan again keeps every service id of the repo and every column but the version |
| ScanRescan.RerunKeepsTemplates | plugins/arcanon/worker/db/query-engine.js:2435-2474 | running it again with closed findings and clean paths keeps, for every stored concrete key, a row with the same path template |
| ScanRescan.FirstTemplateIsFirstSeen | plugins/arcanon/worker/db/query-engine.js:1176-1221 | in either mode, a key stored for the first time lists its distinct raw paths in first-seen order |
| ScanRescan.RescanOverASchemaThrows | plugins/arcanon/worker/db/query-engine.js:2435-2474 | a scan with any findings, closed or not, and any overrides pending throws, in either mode, when an evidenced one lands on the method and path of a connection with a schema |
| ScanCommits.ConnectionsThrowIff | plugins/arcanon/worker/db/query-engine.js:2435-2474 | the connection loop throws if and only if an evidenced, resolvable finding has the concrete key of a connection that had a schema before the loop |
| ScanCommits.FindingsThrowIff | plugins/arcanon/worker/db/query-engine.js:2326-2516 | writing closed findings throws if and only if, in the tables before the scan, one lands on a connection with a schema, or a schema belongs to a call that is found again |
| ScanCommits.ScanThrowsIff | plugins/arcanon/worker/scan/scan-service.js:75-106 | the write transaction throws if and only if one of four causes holds of the tables before it and its findings: unknown repo, landing on a schema, a schema on a repeated call, another repo's schema into a service that goes |
| ScanCommits.SecondScanThrows | plugins/arcanon/worker/db/query-engine.js:2435-2474 | after a committed scan that declares a schema on a call with method and path, the next scan of the same findings throws, in either mode |
| ScanCommits.FirstScanCommitsSecondThrows | plugins/arcanon/worker/scan/scan-service.js:60-117 | a run from the empty tables: the first scan of one call with a schema commits, the second throws |
| ScanNames.ResolvesTo | plugins/arcanon/worker/db/query-engine.js:2631-2650 | what a finding's name resolves to once the services are written, from the tables before the scan: the repo's own service, else one the scan adds, else the first of that name anywhere |
| ScanNames.AnyFindingsThrowIff | plugins/arcanon/worker/db/query-engine.js:2326-2516 | writing any findings, closed or not, with overrides pending or not, throws if and only if, in the tables before the scan, an evidenced finding resolves to the ends of a connection with a schema and has its concrete key, or two are the same call and a schema belongs to the earlier one |
| ScanReturns.AnyScanThrowsIff | plugins/arcanon/worker/scan/scan-service.js:75-106 | with no override pending, the write transaction of any findings throws if and only if the repo is unknown, one of those two holds, or, in a full scan, another repo's old schema or a schema of the scan itself hangs on a connection of a service not found again |
| ScanReturns.CleanupFailsIff | plugins/arcanon/worker/scan/scan-service.js:183-219 | after a committed incremental transaction the clean-up meets a schema in its way if and only if, in the tables before the scan and its findings, a schema that the scan keeps or writes hangs on a connection of a service whose file was deleted |
| ScanReturns.ScanReturnsIff | plugins/arcanon/worker/scan/scan-service.js:60-117 | with no override pending, the call can return if and only if neither of these holds of the tables before it and its findings |
| ScanReturns.ClosedScanReturnsIff | plugins/arcanon/worker/scan/scan-service.js:60-117 | for closed findings: if and only if none of the four causes of ScanThrowsIff holds and the clean-up meets no schema |
| ScanReturns.DeletedFileNeverReturns | plugins/arcanon/worker/scan/scan-service.js:183-219 | after any committed full scan that declares a schema on a call, an incremental scan that finds nothing and is told that the calling service's file is deleted commits and does not return |
| ScanReturns.DeletedFileRun | plugins/arcanon/worker/scan/scan-service.js:60-117 | a run from the empty tables that does this |
| ScanReturns.FoundInADeletedFileRun | plugins/arcanon/worker/scan/scan-service.js:183-219 | the first scan of a repo that does not return: it finds a call with a schema in a file it is told is deleted |
| ScanCleanup.CleanupNeeds | plugins/arcanon/worker/scan/scan-service.js:183-219 | without such a schema the clean-up runs an exact number of statements, ends if it may run them all, and stops otherwise |
| ScanCleanup.CleanupEndsIff | plugins/arcanon/worker/scan/scan-service.js:183-219 | the clean-up can end if and only if no connection of a service in the deleted files has a schema |
| ScanFindings.NewConnectionsAreFindings | plugins/arcanon/worker/db/query-engine.js:2368-2484 | a connection that is new after a committed scan joins services with the names of one of the evidenced findings and has that finding's columns |
| ScanFindings.EvidencedFindingsAreConnected | plugins/arcanon/worker/db/query-engine.js:2368-2484 | every evidenced finding of a closed set has a new connection between the repo's own services of its names, under its canonical protocol, method and path |
| ScanFindings.NewRowsAreFindings | plugins/arcanon/worker/db/query-engine.js:1015-1047 | the rows the connection loop adds are findings' rows; of several findings with one concrete key, the last one's |
| ScanFindings.IdsOfFindings | plugins/arcanon/worker/db/query-engine.js:2476-2477 | the index map has exactly the stored findings, and the row it names exists, with the finding's key, if and only if no later finding took that key |
| ScanFindings.SchemasFollowTheirFindings | plugins/arcanon/worker/db/query-engine.js:2491-2516 | a new schema hangs on the connection of the finding its index names, and on no other |
| ScanFields.FieldsAreStored | plugins/arcanon/worker/db/query-engine.js:2507-2514 | writing a schema's fields adds one row for each, in order, with its name, its required flag and its type, "unknown" if it has none, and no other |
| ScanFields.SchemasAreStored | plugins/arcanon/worker/db/query-engine.js:2497-2516 | each schema finding whose index has a connection has its own new row with its role, name and file on that connection, and that row has one field row for each field finding; no other schema or field is new |
| ScanFields.SchemasAndFieldsAreStored | plugins/arcanon/worker/scan/scan-service.js:75-106 | after a committed scan with no override pending each schema finding of an evidenced call that resolves has such a row, with its fields, on a new connection between services of the call's names with its canonical protocol, method and path; no other schema or field is new |
| ScanFindings.SchemasThrowIffReplaced | plugins/arcanon/worker/db/query-engine.js:2497-2516 | once the connections are stored, writing the schemas throws if and only if one names a finding whose row a later finding replaced |
| ScanFindings.DuplicateCallWithSchemaThrows | plugins/arcanon/worker/db/query-engine.js:2458-2516 | a scan throws, in either mode and from any state, when two evidenced findings are the same call and a schema belongs to the earlier one |
| PathTemplates.PartsOfMerge | plugins/arcanon/worker/db/query-engine.js:1176-1186 | merging a clean path adds it to the column's list once, at the end |
| PathTemplates.MergingAgainChangesNothing | plugins/arcanon/worker/db/query-engine.js:1176-1186 | merging paths that were merged before leaves the column as it is |
| PathTemplates.FreshColumnIsFirstSeen | plugins/arcanon/worker/db/query-engine.js:1176-1186 | merging paths into an empty column gives the distinct ones, joined, in first-seen order |
| Impact.TransitiveImpactIsBreadthFirst | plugins/arcanon/worker/db/query-engine.js:333-382 | for every graph, start and depth the recursive query lists exactly the other services within the depth, each with its breadth-first distance, and the start at depth 1 if and only if it has a self-loop |
| Impact.ImpactByWalks | plugins/arcanon/worker/db/query-engine.js:333-382 | the same over the stored rows: a service other than the start is listed if and only if a walk of at most maxDepth rows, at least one, leads to it, and its depth is the length of the shortest |
| Impact.UpstreamIsReversed | plugins/arcanon/worker/db/query-engine.js:358-382 | upstream is downstream on the reversed graph |
| Impact.StringTestIsMembership | plugins/arcanon/worker/db/query-engine.js:333-357 | the LIKE test on the comma-bracketed path string holds if and only if the id was visited |
| Impact.RoundIsTrails | plugins/arcanon/worker/db/query-engine.js:333-357 | round d of the recursion holds exactly the rows of the guarded trails of d edges |
| Impact.RoundsDieOut | plugins/arcanon/worker/db/query-engine.js:333-357 | the path guard alone ends the recursion: no round after the last target adds a row |
| GraphQuery.WalksReachLayers | plugins/arcanon/worker/mcp/server.js:367-413 | the unguarded walks of at most k edges end exactly in the breadth-first layers up to k |
| GraphQuery.WalksAgreeWithSimplePaths | plugins/arcanon/worker/mcp/server.js:367-413 | root aside, the walk enumeration finds the same services as the simple-path query |
| GraphQuery.QueryGraph | plugins/arcanon/worker/mcp/server.js:343-468 | the nodes are the services reached, root aside, each once; the edges are one per key of the name pairs induced on them and the root; each comes from a connection with both ends in one pass's ids, has the names of its ends and its own columns, and no connection earlier in that order, the downstream pass first, has its key; every such connection has its edge, in order |
| GraphQuery.EdgesComeFromConnections | plugins/arcanon/worker/mcp/server.js:392-463 | for every graph: the deduplicated rows of the passes are the edges of the connections that come first with their key |
| GraphQuery.ReachByWalks | plugins/arcanon/worker/mcp/server.js:343-390 | a pass reaches the services at the end of walks of at most as many connections as the depth says, one at least and five at most |
| GraphQuery.ExactIffNoClash | plugins/arcanon/worker/mcp/server.js:416-468 | those edges list every induced name pair exactly once if and only if no two pairs share a key |
| GraphQuery.ArrowFreeNamesDoNotClash | plugins/arcanon/worker/mcp/server.js:416-468 | names without an arrow never share a key |
| GraphQuery.ArrowNamesClash | plugins/arcanon/worker/mcp/server.js:416-468 | a chain of four services, two of their names with arrows, on which no answer of the query lists every induced pair |
| Transactions.Database.Run | plugins/arcanon/worker/db/sqlite-adapter.js:302-339 | running any program of nested transactions, writes, throws and catches ends in the data of the recursive meaning, with the depth counter, the savepoint stack and what others see as they were |
| Transactions.Database.Transaction | plugins/arcanon/worker/db/sqlite-adapter.js:302-339 | one call, at any depth and with an opening or closing statement that fails: entry state restored if it throws, writes kept if it returns |
| Transactions.OnlyLastingWritesRemain | plugins/arcanon/worker/db/sqlite-adapter.js:302-339 | that meaning is: exactly the writes with no throwing transaction around them, in order |
| StmtCache.StmtCache.Get | plugins/arcanon/worker/db/query-engine.js:61-81 | after any run the cache holds exactly the most recently used texts in recency order; the statement has the requested text, is the cached one if the text is cached, and is on the requested handle if and only if the text was not cached from another |
| StmtCache.ServeTwice | plugins/arcanon/worker/db/query-engine.js:61-81 | a text requested on one handle and then on another is served on the first both times |
| StmtCache.StmtCache.Clear | plugins/arcanon/worker/db/query-engine.js:83-85 | empties the cache, whose history then starts anew |
| StmtCache.RecencyOrdersByLastUse | plugins/arcanon/worker/db/query-engine.js:44-91 | the recency list orders texts by their last use |
| StmtCache.RecentAfterHit | plugins/arcanon/worker/db/query-engine.js:61-70 | moving a cached text to the end gives the most recent texts of the longer history |
| StmtCache.RecentAfterMiss | plugins/arcanon/worker/db/query-engine.js:71-81 | so does evicting the oldest and adding the new text |
| StmtCache.StmtCache.OneHandleServesItself | plugins/arcanon/worker/db/query-engine.js:44-91 | with one handle, every cached statement is on it |
| UploadQueue.Queue.Run | plugins/arcanon/worker/hub-sync/queue.js:57-259 | every run of enqueues, drains, prunes and reopens keeps: what was POSTed came, body and destination together, from one enqueue; one pending row per commit; pending rows below five attempts, all rows at most five, no row sent more than five times |
| UploadQueue.Queue.Drain | plugins/arcanon/worker/hub-sync/index.js:161-215 | succeeded, failed and dead are the numbers of listed rows that were accepted; that did not parse or were refused for now with an attempt left; and that were refused for good or for the fifth time; dead is the rise in dead rows; only rows pending and due when listed are sent, with their own body and destination, whatever arrives in between; the table and what was sent are those of the listed turns, one after another |
| UploadQueue.Queue.DrainRow | plugins/arcanon/worker/hub-sync/index.js:165-205 | one listed row is sent once or, unparsable, discarded; the verdict lands on the row as the arrivals left it; no other row's status or attempts change; the table is that of the turn |
| UploadQueue.Queue.Settle | plugins/arcanon/worker/hub-sync/queue.js:226-259 | a delivered row goes; a failed one counts the attempt and takes the error, and is due after the next wait or, at the fifth, dead; a final failure kills at once; every other column stays |
| UploadQueue.Queue.EnqueueDuring | plugins/arcanon/worker/hub-sync/queue.js:143-175 | throws if and only if a destination part is missing; else the entry is in one row, due in 30 seconds: the pending row of its commit, with its attempts and enqueue time, or a new one; no other row changes |
| UploadQueue.EntryIsStored | plugins/arcanon/worker/hub-sync/queue.js:143-175 | what the statement makes of the table, column by column, for a new row and for the pending one |
| UploadQueue.VerdictIsMet | plugins/arcanon/worker/hub-sync/queue.js:214-259 | what each verdict makes of its row, column by column, with the wait before each attempt |
| UploadQueue.EnqueueKeepsInvariant | plugins/arcanon/worker/hub-sync/queue.js:143-175 | an enqueue, also one for a row in flight, keeps the run invariant |
| UploadQueue.SettleKeepsInvariant | plugins/arcanon/worker/hub-sync/queue.js:226-259 | so does every verdict |
| UploadQueue.RetrySchedule | plugins/arcanon/worker/hub-sync/queue.js:36-37 | a row meeting only retriable failures waits 30, 120, 600, 3600 and 21600 seconds in that order and dies at the fifth failure |
| UploadQueue.ListDueUploads | plugins/arcanon/worker/hub-sync/queue.js:177-188 | the earliest due pending rows, at most the limit, in order of their time, each once |
| UploadQueue.QuarantineKeepsInvariant | plugins/arcanon/worker/hub-sync/queue.js:77-96 | the migration's quarantine holds no row a current enqueue made |
| UploadQueue.QuarantineHolds | plugins/arcanon/worker/hub-sync/queue.js:77-96 | in any table exactly the pending rows without an organisation are held, and nothing else of them changes |
| UploadQueue.Queue.PruneDead | plugins/arcanon/worker/hub-sync/queue.js:208-212 | removes exactly the dead rows and returns their number |
| UploadQueue.Queue.Stats | plugins/arcanon/worker/hub-sync/queue.js:270-286 | the three counts partition the rows; the oldest pending row's time is the least one, and there is none if and only if no row is pending |
| UploadLosses.DrainLosesIff | plugins/arcanon/worker/hub-sync/index.js:161-205 | of the rows a drain lists, for any arrivals and verdicts: the upload standing in the row when its turn ends is deleted unsent if and only if the listed body does not parse, or the listed upload is delivered and another one stands |
| UploadLosses.LostIff | plugins/arcanon/worker/hub-sync/index.js:161-205 | the same for every table with one pending row per commit, where rows without destination are passed over |
| UploadLosses.ParsableLostIff | plugins/arcanon/worker/hub-sync/index.js:172-192 | a standing body that parses is lost if and only if it differs from the listed upload and the row is deleted; with no accepted entry for the commit up to then, none is |
| UploadLosses.StandingAtTheEnd | plugins/arcanon/worker/hub-sync/queue.js:143-175 | what stands in a listed row is the last accepted entry for its commit in any turn so far, else what was listed |
| UploadLosses.EntriesAreLost | plugins/arcanon/worker/hub-sync/index.js:161-192 | three drains of two enqueued rows that lose an entry: for the row in flight, for a later listed row, and for a later listed row whose listed body does not parse |
| UploadLosses.DrainKillsIff | plugins/arcanon/worker/hub-sync/index.js:172-205 | of the rows a drain lists: the upload standing in the row when its turn ends is not sent, and the row dead with it after the drain, if and only if another upload was listed and met a final failure or its fifth retriable one; with no accepted entry for the commit up to then, it is not |
| UploadLosses.DiesUnsentIff | plugins/arcanon/worker/hub-sync/queue.js:226-259 | the same for every table with one pending row per commit |
| UploadLosses.EntriesDie | plugins/arcanon/worker/hub-sync/index.js:172-205 | two drains that kill an entry: for the row in flight, and for a later listed row |
| BoundedRunner.EachItemClaimedOnce | plugins/arcanon/worker/scan/manager.js:106-126 | under every schedule of the workers, as far as it goes, the calls are on items 0, 1, 2, ... once each, and at most `limit` are open |
| BoundedRunner.LimitIsUsed | plugins/arcanon/worker/scan/manager.js:106-126 | while an item is unclaimed and fewer than `limit` calls are open, a worker is ready to claim the item |
| BoundedRunner.EveryScheduleAgrees | plugins/arcanon/worker/scan/manager.js:106-126 | every schedule is at most twice the items plus the workers long, ends exactly then, and ends with the same index-aligned outcomes |
| BoundedRunner.StepKeepsInv | plugins/arcanon/worker/scan/manager.js:111-120 | each worker step keeps: claimed items are with exactly one worker or settled with their own outcome, and no worker leaves while an item is unclaimed |
| BoundedRunner.AllSettledBounded | plugins/arcanon/worker/scan/manager.js:106-126 | whichever worker goes on next, the call ends with the outcomes in item order, or with nothing for a limit of 0 or less |
| BoundedRunner.Pool.Advance | plugins/arcanon/worker/scan/manager.js:111-120 | one resumption of a worker on the shared index and array is one step of the model |
| Dedup.Database.Up004 | plugins/arcanon/worker/db/migrations/004_dedup_constraints.js:29-81 | completes if and only if the merged services expose no (method, path) twice; then of each repository and name the service with the largest id is left unchanged, nothing dangles and the graph by names is unchanged; else nothing changes |
| Dedup.Database.Up006 | plugins/arcanon/worker/db/migrations/006_dedup_repos.js:21-105 | completes if and only if no scan version belongs to a repository that goes and no endpoints collide; then of each path the repository with the largest id is left with its state, of each path and name the service with the largest id, scan versions stay, nothing dangles and the graph by names is unchanged; else nothing changes |
| Dedup.WhatIsLeftBy004 | plugins/arcanon/worker/db/migrations/004_dedup_constraints.js:29-81 | row by row, which services 004 leaves, unchanged |
| Dedup.WhatIsLeftBy006 | plugins/arcanon/worker/db/migrations/006_dedup_repos.js:21-105 | row by row, which repositories, states and services 006 leaves: a state stays, unchanged, if and only if no repository of its path has a larger id |
| Dedup.CanMergeServicesIff | plugins/arcanon/worker/db/migrations/004_dedup_constraints.js:62-67 | 004's condition in rows: no two endpoints with one method and path are of one repository id and service name |
| Dedup.CanMergeReposIff | plugins/arcanon/worker/db/migrations/006_dedup_repos.js:50-54 | 006's first condition in rows: every scan version belongs to the repository with the largest id of its path |
| Dedup.CanMergeBothIff | plugins/arcanon/worker/db/migrations/006_dedup_repos.js:57-91 | 006's second condition in rows: no two endpoints with one method and path are of one repository path and service name |
| Dedup.Database.Up013 | plugins/arcanon/worker/db/migrations/013_connections_path_template.js:68-113 | the remap table and the two statements equal merging connections by key, and do nothing when the index is there |
| Dedup.WhatIsLeftBy013 | plugins/arcanon/worker/db/migrations/013_connections_path_template.js:68-113 | left are exactly the last connection of every key, unchanged, and every schema on the one of its connection's key; nothing else changes, and where the index is there nothing at all |
| Dedup.Database.RepointEndpoints | plugins/arcanon/worker/db/migrations/004_dedup_constraints.js:62-67 | a row-by-row UPDATE under the UNIQUE index, in any order, fails if and only if its result would violate the index |
| Dedup.MergingServicesKeepsTheGraph | plugins/arcanon/worker/db/migrations/004_dedup_constraints.js:29-81 | every edge and every exposure keeps its names (repository path, service name), and no service name is lost |
| Dedup.MergeKeepsTheGraph | plugins/arcanon/worker/db/migrations/006_dedup_repos.js:21-105 | the same across the merge of repositories and the second merge of services |
| Dedup.BothKeepTheNewest | plugins/arcanon/worker/db/migrations/006_dedup_repos.js:57-91 | 004 then 006 keep, of all services with one repository path and name, the one with the largest id |
| Dedup.OneConnectionPerKey | plugins/arcanon/worker/db/migrations/013_connections_path_template.js:78-107 | 013 leaves, for every key (NULL and empty method or path alike), exactly the row with the largest id, unchanged |
| Dedup.SameKeyIff | plugins/arcanon/worker/db/migrations/013_connections_path_template.js:78-88 | two connections have one key when ends and protocols agree, and methods and paths, NULL and empty alike |
| Dedup.SchemasKeepTheirKey | plugins/arcanon/worker/db/migrations/013_connections_path_template.js:90-101 | every schema stays with a connection of the key it had |
| Dedup.EveryKeyIsLeft | plugins/arcanon/worker/db/migrations/013_connections_path_template.js:103-107 | no connection key is lost |
| Dedup.ScannedDuplicateBlocksMerge | plugins/arcanon/worker/db/migrations/006_dedup_repos.js:50-54 | a store on which 006 throws: scan versions are not re-pointed |
| Dedup.SharedEndpointBlocksMerge | plugins/arcanon/worker/db/migrations/004_dedup_constraints.js:62-67 | a store on which 004 throws |
| ScanDiff.DiffIsAPatch | plugins/arcanon/worker/diff/scan-version-diff.js:230-262 | applying removed, added and the changed fields to scan A gives scan B, up to fields that are not tracked |
| ScanDiff.KeysFallIntoFour | plugins/arcanon/worker/diff/scan-version-diff.js:230-262 | added, removed, modified and unchanged partition the keys |
| ScanDiff.DiffFlips | plugins/arcanon/worker/diff/scan-version-diff.js:230-262 | diff(B, A) has added and removed exchanged, in order, and the same modified rows with before and after exchanged, in both directions |
| ScanDiff.DiffSet | plugins/arcanon/worker/diff/scan-version-diff.js:230-262 | the two loops compute that diff, with the projected key columns of each modified row |
| ScanDiff.LastRowWins | plugins/arcanon/worker/diff/scan-version-diff.js:209-215 | the map holds, for every key that occurs, the last row with it |
| ScanDiff.NoRowHiddenIffKeysDiffer | plugins/arcanon/worker/diff/scan-version-diff.js:209-215 | every row of a scan takes part in the diff if and only if no two have one key |
| ScanDiff.ChangesLeadToTheNewRow | plugins/arcanon/worker/diff/scan-version-diff.js:217-227 | the changed fields, written over the old row, give the new one in the tracked fields, and are none if and only if those agree; a missing column is NULL |
| ScanDiff.DiffScanVersions | plugins/arcanon/worker/diff/scan-version-diff.js:308-359 | the short cut for one scan of one database reports what the full diff would, another database is compared even under the same id, and the counts are the lengths |
| DiffReport.ServicesReport | plugins/arcanon/worker/diff/scan-version-diff.js:88-97 | for every two scans: rows are one service when repository and name agree; added, removed and modified list, each once, the newest rows only one scan has and those of both that differ in one of the eight columns compared, with exactly the columns that differ |
| DiffReport.ConnectionsReport | plugins/arcanon/worker/diff/scan-version-diff.js:99-110 | the same for connections, which are one when the names of their ends, their protocol tokens, methods and paths agree, and for the seven columns compared |
| DiffReport.ServiceKeysAgree | plugins/arcanon/worker/diff/scan-version-diff.js:201-203 | two keys are equal if and only if repository and name are |
| DiffReport.ConnectionKeysAgree | plugins/arcanon/worker/diff/scan-version-diff.js:205-220 | two keys are equal if and only if the names of the ends are, the protocol tokens but for case and surrounding space, and methods and paths with NULL as empty |
| Mismatches.DetectMismatches | plugins/arcanon/worker/db/query-engine.js:2113-2301 | the batched computation with its per-target method map, wildcard set and base-path strip reports exactly the connections the quantified definition reports, in order, each with its id, the names of its two services and its method, or protocol, and path |
| Mismatches.MismatchIff | plugins/arcanon/worker/db/query-engine.js:2113-2301 | a mismatch in plain terms: a REST or gRPC call with a path, to a target that exposes something, none of it with a method that meets and a path that differs in parameter texts at most, as it stands or below the base path |
| Mismatches.MismatchesAreListed | plugins/arcanon/worker/db/query-engine.js:2288-2298 | one entry per mismatch, in order, with what it says |
| Mismatches.TablesAnswer | plugins/arcanon/worker/db/query-engine.js:2239-2275 | the three tables of a target answer what a search through all exposures answers |
| Mismatches.RenamingExposuresChangesNothing | plugins/arcanon/worker/db/query-engine.js:2239-2275 | renaming parameters of exposed paths, or writing exposed methods differently, changes nothing in the report |
| Mismatches.MethodsIgnoreCaseAndSpace | plugins/arcanon/worker/db/query-engine.js:260-265 | methods that differ in case or surrounding space are one method |
| Mismatches.MoreEndpointsNeverAddMismatches | plugins/arcanon/worker/db/query-engine.js:2150-2301 | endpoints added to targets that expose one already never add a mismatch |
| Mismatches.FirstEndpointAddsMismatchesIff | plugins/arcanon/worker/db/query-engine.js:2150-2301 | exactly when the first endpoint of a target adds one |
| Mismatches.FirstEndpointAddsOne | plugins/arcanon/worker/db/query-engine.js:2150-2301 | a call that is no mismatch while its target exposes nothing, and one once it exposes another path |
| Mismatches.NamesDoNotMatterIff | plugins/arcanon/worker/db/query-engine.js:308-317 | over all paths, blanked or raw, renaming parameters of called paths never changes a verdict if and only if the base path has no parameter |
| Mismatches.StoredPathStripsIffBaseIsCanonical | plugins/arcanon/worker/db/query-engine.js:308-317 | for every base path, with or without a trailing slash, and every path below it, at any depth: the stored path is recognised as below the base, and stripped to its canonical rest, if and only if the base path is itself canonical |
| Mismatches.StoredBaseStripsIffCanonical | plugins/arcanon/worker/db/query-engine.js:308-317 | the base path itself, as stored, strips to "/" if and only if it is canonical |
| Paths.CanonicalizeIsIdempotent | plugins/arcanon/worker/db/query-engine.js:242-246 | canonicalizePath twice is canonicalizePath once |
| Paths.CanonicalizeKeepsSlashes | plugins/arcanon/worker/db/query-engine.js:242-246 | the number of slashes stays |
| Paths.SameCanonicalFormIffSameShape | plugins/arcanon/worker/db/query-engine.js:242-246 | two paths have one canonical form if and only if they differ only in parameter texts |
| Paths.SpellTokens | plugins/arcanon/worker/db/query-engine.js:242-246 | reading a path into literals and parameters loses nothing |
| Paths.StripBasePath | plugins/arcanon/worker/db/query-engine.js:308-317 | a strip applies if and only if the base, less one trailing slash, ends at a segment boundary of the path; base and result make up the path |
| Paths.ParameterIsBlanked | plugins/arcanon/worker/db/query-engine.js:242-246 | a parameter of any text becomes {_} |
| Paths.ProtocolBuckets | plugins/arcanon/worker/ui/modules/protocol.js:97-107 | the bucket of every token: messaging, stores and HTTP with their aliases, seven buckets under their own name, everything else other |
| Paths.CanonicalProtocolIsIdempotent | plugins/arcanon/worker/ui/modules/protocol.js:97-107 | a bucket is its own bucket |

## Left out

- Actors, actor connections, exposed endpoints, repo state, node metadata, dependencies, the enrichment log and the quality score in the scan pipeline: `persistFindings` wipes and refills the first three per repo; they would add tables of the same kind.
- The clock order of overrides: they are applied in insertion order, which is `created_at` order unless the clock steps back.
- The repos table is the set of its ids in the scan model; `upsertRepo` and lookups by path are not modelled there.
- External-target connections (those that become actor edges) count as findings whose target does not resolve.
- A name held by several services resolves to the one with the smallest id when no own service has it; SQLite gives no order there.
- The evidence check is a set of rejected findings fixed during a call; file reading is not modelled.
- The fallback statements for databases before the last migration.
- FTS5 tables and their triggers.
- ScanRescan.RerunKeepsTemplates: is about paths without comma or surrounding space, and findings closed under their own services, because the column is a comma-joined list and unclosed findings may resolve elsewhere the second time.
- ScanIsolation.ScansLeaveOtherReposAlone: is about closed findings with no override pending, because unclosed findings may attach to services of other repos and overrides name rows of any repo.
- GraphQuery.QueryGraph: takes any one of several services with the requested name; the order of nodes is not stated, and that of edges only for a given order of the connection rows, which SQLite does not fix.
- Impact.TransitiveImpactIsBreadthFirst: gives the result as a map from id to depth; the order by depth is presentation.
- `queryImpact`, whose path string has no outer commas, and the other tool handlers.
- Errors on which SQLite itself rolls the whole transaction back (disk full, out of memory): a failing statement leaves the transaction open in `Transactions`.
- ScanEngine.QueryEngine.PersistFindings: leaves out the wipe and refill of the repo's exposed endpoints and actor connections, and node metadata.
- ScanEngine.QueryEngine.PersistConnections: leaves out the actor edges that an external target makes; such a finding is one whose target does not resolve.
- ScanEngine.QueryEngine.EndScan: leaves out the quality score and the actor clean-up, whose failures the source swallows; a schema clean-up that fails fails the call here, where the source swallows that too.
- ScanEngine.QueryEngine.ApplyPendingOverrides: at most one statement fails per override; when the database fails for good the pass ends at once, where the source counts an error for each override that is left and the transaction fails at its next statement; both roll back.
- ScanReturns.AnyScanThrowsIff: is about scans with no override pending, because an override may delete what would block, or put a service in its way; `ScanNames.AnyFindingsThrowIff` and `ScanIntegrity.EndScanThrowsIffBlocked` give the conditions for the rest, stage by stage.
- ScanReturns.ScanReturnsIff: is about scans with no override pending, for the same reason.
- ScanKept.SchemasAfterAScan: is about scans with no override pending, because an override may delete the connection.
- UploadQueue.Queue.Drain: is about one drain at a time, and a run with credentials; without them `drainQueue` returns before it lists anything.
- Legacy queue rows without a destination: runs start from a fresh queue, so a held row never occurs.
- BoundedRunner.EveryScheduleAgrees: the outcome of each call is fixed per item; a call that depends on when it is made is not modelled.
- Dedup.OneConnectionPerKey: the index created afterwards treats NULLs as distinct, so later inserts may repeat such keys.
- ScanDiff.DiffFlips: leaves the order of the modified rows open, because each direction walks its own second map.
- Case mapping, trimming and digits are those of ASCII.
- The scan lock, git, prompts, HTTP and CLI handlers, exports, hub client and user interface.
