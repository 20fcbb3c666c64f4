# Verified cores of the KRONOS HR system

The system keeps leave requests, a time ledger, audit tables and user identities in step by
scheduled repair jobs, caches and small protocols. This project models these cores and proves
what they keep over whole runs.

- `Reconciliation.dfy`, `LedgerRepair.dfy`, `RepairColumns.dfy`: the anomaly detector and the batched auto-fix of the
  time ledger. The LIMIT is applied before the type filter, so convergence is a counting
  argument: C counts the missing requests of mapped types, N those of unmapped types, L is the
  limit (100 in the source, any number here).
- `IdentityCache.dfy`: the read-through identity cache, with concurrent resolutions cut at their
  awaits; d bounds the time between sampling the auth service and writing the cache. The auth
  service answers per user and per roles of the presented token.
- `Permissions.dfy`: the string-encoded permission checks of backend and frontend.
- `AuditRetention.dfy`: insertion, archival, purge and the statistics view of the audit tables.
- `PyStrings.dfy`, `ImportCleanup.dfy`, `ImportExactness.dfy`: the import cleanup as a chain of
  string replacements.
- `AuditDiff.dfy`: recursive redaction of snapshots and the changed-fields diff.
- `NotificationStream.dfy`: the reconnecting event stream of the browser.
- `ApprovalSync.dfy`: phase 2 of the approvals repair script, with crashes.
- `Wrappers.dfy`: optional values.

Where the source updates state in place there is a class or a loop; its methods are proved equal
to transition functions, and the results are lemmas about those functions over all runs. `dafny
verify dfyconfig.toml` verifies everything.

Several results differ from what one would first expect of the code:

- SQL leaves the order of equal `approved_at` open, so "the run stalls" has two exact
  conditions (`StallPossible`, `StallCertain`).
- A failed insert of the auto-fix makes PostgreSQL roll the whole run back at its commit, so a
  run with an error changes nothing, although it reports the rows before the error as fixed
  (`AutoFix`).
- Python finds `1`, `1.0` and `True` equal, so the changed fields rebuild a snapshot up to that
  equality; `PatchIsExactIff` says when they rebuild it exactly.
- The recorded snapshots are redacted but the changed fields are computed from the raw ones:
  the record misses a sensitive key that comes or goes with value None (`RecordedReplayIff`).
- The redaction does not look into lists: `ExposedIffInList` says exactly what stays readable.
- `deduct_balance`, which the repair script calls, is a stub in this repository
  (backend/src/services/leaves/balance_service.py:183). The exactly-once result is for a
  `deduct_balance` that writes; `StubFlagsWithoutTransaction` says what the stub leaves.
- The approvals query of the repair script has no ORDER BY. A rerun after a complete run changes
  nothing in any order; a rerun after a crash gives the same books in every order iff no leave
  still pending has both an APPROVED and an APPROVED_CONDITIONAL approval (`ReorderedRerunIff`).
- The import cleanup is a list filter exactly when no name has a removed name as a proper part,
  for one round (`RemovalIsFilterIff`) and for the whole chain (`RewriteIsFilterIff`).
- The cleanup also takes the comma at the end of a rewritten list line (`TrailingCommaLost`), which
  breaks a continued import list.
- The identity cache is keyed by user, while the auth service's answer depends on the roles in
  the token: a hit answers the presented token's own query iff the token of the last cache write
  had the same roles (`HitAnswersOwnQueryIff`, with the run of `ServedForAnotherToken`).
- INSERT and DELETE of the archive function are separate statements: a row below the cutoff that
  is committed between them is deleted without having been archived (`LostIff`).

## Model

| member | source | states |
|---|---|---|
| `Reconciliation.LeavesDatabase.CheckLeavesConsistency` | backend/background_jobs/tasks/reconciliation.py:52-124 | the report has exactly one item per approved, deducted request without a USAGE row and one per USAGE row of no approved or conditionally approved request, for any tables |
| `Reconciliation.ReportComplete` | backend/background_jobs/tasks/reconciliation.py:64-124 | the two enumerations of query rows together give a complete report without duplicates |
| `Reconciliation.CheckExpensesConsistency` | backend/background_jobs/tasks/reconciliation.py:127-164 | exactly one item per approved, dated trip without a budget allocation |
| `Reconciliation.LeavesDatabase.CheckBalanceConsistency` | backend/background_jobs/tasks/reconciliation.py:167-218 | leaves and expenses counts are the numbers of anomalies of each kind and sum to the total, also when a check raises; the report is the one followed by the other |
| `Reconciliation.LeavesDatabase.SelectBatch` | backend/background_jobs/tasks/reconciliation.py:249-268 | the rows are approved or conditionally approved, deducted requests without a USAGE row, and a legal answer to ORDER BY approved_at LIMIT L over those: distinct, oldest first, complete below the limit |
| `Reconciliation.LeavesDatabase.AutoFix` | backend/background_jobs/tasks/reconciliation.py:225-366 | a disabled run changes nothing; an enabled run works on a legal batch; if no insert fails it is a run in the sense of RunInColumns and reports the number of rows it added; if one fails nothing is changed, the mapped rows before it are reported as fixed and the others as errors |
| `RepairColumns.RunInColumns` | backend/background_jobs/tasks/reconciliation.py:249-338 | a run appends only rows of approved or conditionally approved, deducted requests without a USAGE row, at most one each and L in all, with the balance type of the code and the request's user, year, days and approver; each such request with one of the five codes gets its row, unless L others are no newer |
| `RepairColumns.RunWithinLimit` | backend/background_jobs/tasks/reconciliation.py:249-338 | when at most L requests are owed a row, each one with one of the five codes gets exactly one |
| `RepairColumns.LeavesReportInColumns` | backend/background_jobs/tasks/reconciliation.py:64-124 | type, severity, entity and details of every item of the leaves report, and which rows of the tables it stands for |
| `RepairColumns.ExpensesReportInColumns` | backend/background_jobs/tasks/reconciliation.py:134-164 | the same for the expenses report; a zero estimate shows as None |
| `LedgerRepair.FixEffect` | backend/background_jobs/tasks/reconciliation.py:297-338 | a run only appends, removes exactly its mapped rows from the missing and the reported requests, and leaves the orphan set as it was |
| `LedgerRepair.FixCounts` | backend/background_jobs/tasks/reconciliation.py:258-338 | a run adds exactly one USAGE row for each fixed request and none for any other |
| `LedgerRepair.RunProgress` | backend/background_jobs/tasks/reconciliation.py:249-304 | every run inserts at least min(C, L - N) rows; the unmapped missing requests and the orphans never change |
| `LedgerRepair.DrainBound` | backend/background_jobs/tasks/reconciliation.py:249-304 | after n runs with n * (L - N) >= C no request of a mapped type is missing |
| `LedgerRepair.StallIsFullUnmappedBatch` | backend/background_jobs/tasks/reconciliation.py:262-306 | a run with C > 0 changes nothing exactly when its batch is full and all unmapped |
| `LedgerRepair.StallPossible` | backend/background_jobs/tasks/reconciliation.py:262-306 | ties are open in SQL: some legal batch stalls iff at least L unmapped requests are no newer than the oldest mapped one |
| `LedgerRepair.StallCertain` | backend/background_jobs/tasks/reconciliation.py:262-306 | every legal batch stalls iff at least L unmapped requests are strictly older than the oldest mapped one |
| `LedgerRepair.BlockedForever` | backend/background_jobs/tasks/reconciliation.py:258-306 | a mapped request behind L strictly older unmapped ones stays missing over any number of runs |
| `LedgerRepair.DrainsWhenUnblocked` | backend/background_jobs/tasks/reconciliation.py:258-306 | if fewer than L unmapped requests are as old as each mapped one, C runs leave none missing, whatever N is |
| `LedgerRepair.RunsCores` | backend/background_jobs/tasks/reconciliation.py:285-340 | after any number of runs the ledger is the old one plus the deserved row of every request fixed so far, as multisets |
| `LedgerRepair.BatchedRefinesOneShot` | backend/background_jobs/tasks/reconciliation.py:285-340 | running to the fixpoint gives the same multiset of rows and the same USAGE totals as one pass without a limit |
| `LedgerRepair.FixTotals` | backend/background_jobs/tasks/reconciliation.py:308-338 | each (user, year, balance type) USAGE total grows by exactly the days of the requests fixed under it |
| `LedgerRepair.DrainedReport` | backend/background_jobs/tasks/reconciliation.py:64-92 | after draining the detector reports exactly the approved, deducted, unmapped requests without a USAGE row; these are all approved, deducted, unmapped requests iff none of those had a row before |
| `IdentityCache.VisibleIffStored` | backend/src/core/cache.py:24-47 | over any run, a record is visible under a user's key iff the last write or deletion of that key stored it, less than 600 s ago; other keys do not interfere |
| `IdentityCache.IdentityService.ResolveBegin` | backend/src/core/security.py:197-210 | on a hit every field of the payload is the cached record's or the token's; on a miss the resolution waits for the auth service |
| `IdentityCache.IdentityService.ResolveReceive` | backend/src/core/security.py:213-250 | 401 for an unknown user, 500 for another status or an unusable record, 503 when unreachable; otherwise the sampled record goes on to the cache write |
| `IdentityCache.IdentityService.ResolveStore` | backend/src/core/security.py:223-252 | the sampled record is cached for 600 s, and every field of the payload is the record's or the token's |
| `IdentityCache.PayloadFields` | backend/src/core/security.py:199-232 | in every run, a successful payload has the presented token's sub and roles, and id, four flags and permissions of a record answered about that user at most 600 + d s ago; a missing flag is False, a missing list empty |
| `IdentityCache.ServedPermissionIff` | backend/src/core/security.py:87-110 | a served permission passes exactly for the realm admin role, the record's admin flag, or an entry of the record: any of the code without a scope, that scope or GLOBAL with one |
| `IdentityCache.ReadThrough` | backend/src/core/security.py:197-232 | a miss that is answered is served and cached under user_identity:<id>, and any token of the user presented less than 600 s later is served the same record |
| `IdentityCache.AnswerDecides` | backend/src/core/security.py:221-250 | 401 exactly for an unknown user, 503 exactly when unreachable, 500 exactly for another status or a record without an id, otherwise the resolution goes on |
| `IdentityCache.KnownSinceAlways` | backend/src/core/security.py:199-232 | in every interleaving, the cache entry of a user is that of the last store under the key, and what it or a suspended resolution knows was received from the auth service at an instant the expiry accounts for |
| `IdentityCache.BoundedStaleness` | backend/src/core/security.py:199-252 | a payload returned at t carries a record that the auth service answered for that keycloak id at some instant in [t - 600 - d, t]: on a miss to the presented token, on a hit to the token of the last cache write |
| `IdentityCache.RevocationIsBounded` | backend/src/core/security.py:87-110 | if no answer about the user that is received after t0 grants a permission or the admin flag, for whatever cause, the permission is gone from every identity resolved after t0 + 600 + d without the realm admin role |
| `IdentityCache.InvalidationIsImmediate` | backend/src/services/auth/service.py:219-224 | after a key deletion with no sampled answer of that user in flight, every resolution carries a record answered since the deletion |
| `IdentityCache.BoundIsTight` | backend/src/core/security.py:212-232 | an older sample can overwrite a newer record after a deletion and be served 600 + d - 1 seconds after the change |
| `IdentityCache.ServedForAnotherToken` | backend/src/services/auth/routers/users.py:87-103 | the cache key has no roles, so for any two role lists there is a run that serves one token the permissions answered to the other |
| `IdentityCache.HitAnswersOwnQueryIff` | backend/src/core/security.py:199-210 | a hit carries the answer that the last store under the key received, and that answered the presented token's own query iff the storing token had its roles |
| `IdentityCache.SameRolesOwnAnswer` | backend/src/core/security.py:199-252 | if all tokens of a user presented so far have the same roles, every resolution carries an answer to the presented token's own query, at most 600 + d s old |
| `IdentityCache.OnlySuccessIsCached` | backend/src/core/security.py:221-250 | failures are never cached, a hit never fails, and 401 means that the auth service did not know the user |
| `Permissions.UnscopedIsSetCheck` | backend/src/core/security.py:94-105 | on resource:action:scope entries, an unscoped check holds iff some grant has exactly that code, or for the realm admin role or the database flag |
| `Permissions.PermissionMeaning` | backend/src/core/security.py:87-110 | for any strings: the realm role alone and the database flag alone each suffice, otherwise an entry of the code, the scope or GLOBAL decides; an empty scope is no scope |
| `Permissions.ScopedIsSetCheck` | backend/src/core/security.py:94-102 | a scoped check holds iff that scope or GLOBAL is granted, or for the realm admin role or the database flag |
| `Permissions.ScopedImpliesUnscoped` | backend/src/core/security.py:87-105 | for any strings, a permission that holds with a scope holds without one |
| `Permissions.UiUnscopedAgrees` | frontend/src/context/AuthContext.tsx:39-45 | on such entries the frontend's unscoped check equals the backend's under the same admin flag |
| `Permissions.UiUnscopedExact` | frontend/src/context/AuthContext.tsx:43-44 | on any entries it differs exactly by accepting the bare permission code |
| `Permissions.UiScopedExact` | frontend/src/context/AuthContext.tsx:43-44 | with a scope the frontend accepts exactly grants whose scope starts with the upper-cased one; GLOBAL does not help |
| `AuditRetention.AuditDatabase.ArchiveOldLogs` | backend/alembic/versions/028_enterprise_audit.py:187-230 | both tables are archived and the view is recomputed, or on a key collision nothing is archived; the result is the number of logs that the archive gained; rows of other sessions may be committed between the INSERT and the DELETE |
| `AuditRetention.AuditDatabase.PurgeArchives` | backend/alembic/versions/028_enterprise_audit.py:237-256 | both archives lose exactly the rows archived more than the retention ago, which become purged, and nothing else changes; the result is the loss of the log archive |
| `AuditRetention.AuditDatabase.RefreshDailyStats` | backend/src/services/audit/tasks.py:50-72 | recomputes the view and nothing else |
| `AuditRetention.ComputeStats` | backend/alembic/versions/028_enterprise_audit.py:161-174 | the grouping loop computes, per group, the number of rows and of distinct non-null users |
| `AuditRetention.AuditRecordsConserved` | backend/alembic/versions/028_enterprise_audit.py:195-254 | in every reachable state live, archived, purged and lost ids are disjoint and make up everything inserted, rows keep their content, and no archive call can violate the archive's primary key |
| `AuditRetention.LostIff` | backend/alembic/versions/028_enterprise_audit.py:195-222 | a row is lost iff some archive call had its INSERT before and its DELETE after the row was committed, with the row below the cutoff; with no such row nothing is ever lost |
| `AuditRetention.BackDatedLogLost` | backend/alembic/versions/028_enterprise_audit.py:195-211 | a run in which a back-dated log vanishes from all tables |
| `AuditRetention.ArchiveCount` | backend/alembic/versions/028_enterprise_audit.py:205-209 | the archive count is the gain of the archive, and the loss of the live table up to rows committed during the call |
| `AuditRetention.PurgeCount` | backend/alembic/versions/028_enterprise_audit.py:245-248 | the purge count is the loss of the archive |
| `AuditRetention.PurgeInColumns` | backend/alembic/versions/028_enterprise_audit.py:243-251 | logs and trail: archived rows with archived_at below now - days go to the purged ids, those at or above it stay as they were, nothing else changes |
| `AuditRetention.ArchiveInColumns` | backend/alembic/versions/028_enterprise_audit.py:193-225 | in every reachable state: live rows below now - days move to the archive unchanged with archived_at = now, the others stay |
| `AuditRetention.ArchivedUntilPurgeDue` | backend/alembic/versions/028_enterprise_audit.py:193-251 | an archived row stays in the archive, unchanged and with the time of its archive call, exactly up to the first purge later than that time plus the purge's retention; then it is purged |
| `AuditRetention.RetentionTimes` | backend/alembic/versions/028_enterprise_audit.py:193-251 | if archives use at least R days and purges at least A, no log or trail row leaves the live table before R days or is purged before R + A days |
| `AuditRetention.NothingOldStaysLive` | backend/alembic/versions/028_enterprise_audit.py:193-222 | right after an archive call with R days no live row is older than R days |
| `AuditRetention.ArchiveComposes` | backend/alembic/versions/028_enterprise_audit.py:193-225 | at one instant, with nothing else committed, archiving with r1 and then r2 days is archiving with the smaller, view included |
| `AuditRetention.ViewAgrees` | backend/alembic/versions/028_enterprise_audit.py:161-180 | the view has one row per non-empty group, its counts sum to the number of live logs, and no group has more users than rows |
| `AuditRetention.ViewInColumns` | backend/alembic/versions/028_enterprise_audit.py:161-174 | each group has the UTC day and four columns of its key, its number of rows, and its number of distinct non-null users |
| `AuditRetention.ViewExactUntilInsert` | backend/alembic/versions/028_enterprise_audit.py:161-225 | after an archive call or a refresh the view stays exact until the next log is inserted |
| `PyStrings.ReplaceSkips` | cleanup_imports.py:45-56 | str.replace copies every stretch in which no occurrence starts |
| `PyStrings.JoinSplit` | cleanup_imports.py:38-63 | joining the split lines gives the file back |
| `PyStrings.SplitJoin` | cleanup_imports.py:38-63 | splitting joined newline-free lines gives the lines back |
| `PyStrings.StripMeaning` | cleanup_imports.py:58-59 | the strips cut off exactly the longest run of white space, or of commas, at the end |
| `ImportCleanup.RewriteFile` | cleanup_imports.py:32-69 | the nested loops compute the line-by-line rewrite; a write happens iff the content changed |
| `ImportCleanup.ItemRemoved` | cleanup_imports.py:43-52 | one round of three replacements drops every occurrence of an item from the list, first, last, only or repeated, in order |
| `ImportCleanup.RewriteIsFilter` | cleanup_imports.py:42-59 | the whole chain on an import line of well-formed names yields the same prefix and the names that are not among the four to be removed, in order |
| `ImportCleanup.TargetedListIsFilter` | cleanup_imports.py:42-59 | the same for an indented list line, which __init__.py files have rewritten when require_ is in it |
| `ImportCleanup.TrailingCommaLost` | cleanup_imports.py:42-59 | a rewritten list line that ends with a comma is filtered and always loses the comma |
| `ImportCleanup.NoCommaAtEnd` | cleanup_imports.py:42-59 | no rewritten line, whatever it was, ends with a comma |
| `ImportCleanup.EmptyPlaceClosed` | cleanup_imports.py:55 | an empty place in a list is closed |
| `ImportCleanup.EmptyFirstPlaceClosed` | cleanup_imports.py:56 | an empty first place of an import list loses its comma |
| `ImportExactness.RemovalIsFilterIff` | cleanup_imports.py:43-52 | for any list of names, one round of three replacements is the filter iff no name has the removed name as a proper part; otherwise the line comes out too short |
| `ImportExactness.RewriteIsFilterIff` | cleanup_imports.py:42-59 | for any list of names, the whole chain of four rounds and the comma tidying is the filter iff no name has a removed name as a proper part |
| `ImportCleanup.FileIsCleanedLineByLine` | cleanup_imports.py:38-63 | the line count is kept, each line is the rewrite of the line in its place, untargeted lines are identical |
| `ImportCleanup.RewriteIsIdempotent` | cleanup_imports.py:38-65 | outside __init__.py, files with well-formed targeted lines are a fixpoint after one rewrite |
| `AuditDiff.SanitizeData` | backend/src/shared/audit_client.py:396-414 | computes the redacted tree on the heap: no existing dict is modified and every dict of the result is new |
| `AuditDiff.RedactionAtDepth` | backend/src/shared/audit_client.py:407-414 | along a path of harmless keys: a sensitive last key holds the mask whatever it held; otherwise a value that is no dict is untouched, an empty dict becomes None, any other dict keeps its keys and is redacted in turn |
| `AuditDiff.SensitiveIff` | backend/src/shared/audit_client.py:407-409 | a key is sensitive iff it spells one of the fifteen words somewhere, in letters of either case |
| `AuditDiff.DictPathsMasked` | backend/src/shared/audit_client.py:407-414 | along dict keys, every path of the result existed in the input, and any sensitive key on it is last and holds the mask; lists are not entered |
| `AuditDiff.ExposedIffInList` | backend/src/shared/audit_client.py:405-414 | at any depth, lists included, the result holds an unmasked sensitive key iff harmless dict keys of the input lead to a list that holds one |
| `AuditDiff.PasswordInList` | backend/src/shared/audit_client.py:405-414 | a password in a dict in a list goes through unchanged |
| `AuditDiff.CleanIdempotent` | backend/src/shared/audit_client.py:396-414 | redacting twice is redacting once |
| `AuditDiff.DiffIsPatch` | backend/src/shared/audit_client.py:296-302 | patching before with after on the changed fields is get-equal to after, and no smaller set of fields will do |
| `AuditDiff.PyEqMeaning` | backend/src/shared/audit_client.py:299-302 | Python equality for all values: strings by text, None only with None, booleans, integers and floats by value, lists and dicts element by element, never across other kinds |
| `AuditDiff.ListedIff` | backend/src/shared/audit_client.py:296-302 | a key is listed iff both have it with unequal values or one alone has it with something else than None; there is no list unless both snapshots are non-empty and it is an update |
| `AuditDiff.ChangedStringListed` | backend/src/shared/audit_client.py:299-302 | a string that changes to anything else, or a value that becomes that string, is listed |
| `AuditDiff.PatchIsExactIff` | backend/src/shared/audit_client.py:296-302 | the patch is exactly after iff no key of both changed to a Python-equal value and no key that only one has holds None |
| `AuditDiff.TypeChangeUnlisted` | backend/src/shared/audit_client.py:299-302 | a change from 1 to True is not listed, because Python finds the two equal |
| `AuditDiff.ReplayRebuildsLast` | backend/src/shared/audit_client.py:296-310 | folding the patches of a chain of non-empty updates over the first version rebuilds the last, up to the equality of PyEqMeaning |
| `AuditDiff.SanitizedAgreeOffDiff` | backend/src/shared/audit_client.py:304-310 | on a key with Python-equal values the sanitised snapshots agree, except for a sensitive key that only one of them has |
| `AuditDiff.RecordedReplayIff` | backend/src/shared/audit_client.py:296-310 | replaying the recorded fields over the recorded, sanitised snapshots rebuilds the last one iff every sensitive key is in the version that last listed it exactly when it is in the last version |
| `AuditDiff.DroppedNonePassword` | backend/src/shared/audit_client.py:296-310 | a sensitive field of None that is dropped stays in the replay, masked |
| `NotificationStream.StreamHook.OpenStream` | frontend/src/hooks/useNotificationStream.ts:41-49 | closes the stream in the ref and opens one new stream, which the ref then names |
| `NotificationStream.StreamHook.OnRefreshSettled` | frontend/src/hooks/useNotificationStream.ts:30-39 | a settled refresh opens a stream, a rejected one ends the connect |
| `NotificationStream.StreamHook.OnError` | frontend/src/hooks/useNotificationStream.ts:69-78 | closes the stream, clears the pending timer and arms one new timer |
| `NotificationStream.StreamHook.OnTimer` | frontend/src/hooks/useNotificationStream.ts:16-39 | a fired timer runs connect again |
| `NotificationStream.StreamHook.OnUnmount` | frontend/src/hooks/useNotificationStream.ts:85-92 | closes and clears what the refs name and leaves the refs set |
| `NotificationStream.AlwaysDisciplined` | frontend/src/hooks/useNotificationStream.ts:16-93 | in every interleaving an open stream or armed timer is the one in its ref, at most one each, and open streams, suspended connects and armed timers together never exceed the mounts |
| `NotificationStream.HistoryDecides` | frontend/src/hooks/useNotificationStream.ts:16-93 | in every interleaving a stream is open iff a connect with a usable token came after the last stream error and unmount, a timer is armed iff an error came after the last fired timer and unmount, and one connect is suspended per refresh begun and not settled |
| `NotificationStream.CleanUnmountStaysIdle` | frontend/src/hooks/useNotificationStream.ts:85-92 | an unmount with no connect suspended leaves neither stream nor timer, until the next mount |
| `NotificationStream.LeakIffSuspended` | frontend/src/hooks/useNotificationStream.ts:28-49 | a stream can open after an unmount without a new mount exactly when a connect was suspended at the unmount |
| `NotificationStream.ErrorThenTimerReconnects` | frontend/src/hooks/useNotificationStream.ts:69-80 | a failed stream is replaced by exactly one new stream through exactly one timer |
| `ApprovalSync.SyncSession.Reconcile` | backend/scripts/sync_approvals.py:47-80 | one visit approves (which also sets the flag), deducts and flags as needed, and commits exactly when the loaded object of an approved leave lacks the flag, so a second visit after the SQL update commits again |
| `ApprovalSync.SyncSession.Phase2` | backend/scripts/sync_approvals.py:41-80 | the loop computes the specified sync and ends committed; from every commit on the way a rerun in the same order ends in the same state, and a rerun in any order in the same books if no pending leave is contested |
| `ApprovalSync.RerunFromCrash` | backend/scripts/sync_approvals.py:47-80 | a crash after any effect of any visit followed by a rerun over the same order ends in the same state, transaction order included |
| `ApprovalSync.ReorderedRerunIff` | backend/scripts/sync_approvals.py:43-80 | after such a crash, reruns in all orders end in the same leaves and the same multiset of transactions iff no leave still pending has both an APPROVED and an APPROVED_CONDITIONAL approval |
| `ApprovalSync.OrderMattersIff` | backend/scripts/sync_approvals.py:43-80 | from any state, the books after a run are the same for all orders of the approvals iff no pending leave is contested |
| `ApprovalSync.FinalTransactions` | backend/scripts/sync_approvals.py:65-74 | a run adds exactly one transaction for each visited leave that ends approved and had none, with its own breakdown, and no other |
| `ApprovalSync.NewTransactions` | backend/scripts/sync_approvals.py:65-74 | every new transaction is the only one of its leave, which was visited, ends approved and had none; it carries the deduction details, or the requested days as vacation when there are none |
| `ApprovalSync.SyncIdempotent` | backend/scripts/sync_approvals.py:47-80 | a rerun after a complete run changes nothing, whatever the order and number in which it sees the approvals |
| `ApprovalSync.NoSecondDeduction` | backend/scripts/sync_approvals.py:65-74 | transactions are only appended, at most one per leave, and none for a leave that had one or does not end approved |
| `ApprovalSync.RepairedExactlyOnce` | backend/scripts/sync_approvals.py:65-80 | when deduct_balance writes, every visited approved leave ends flagged, with the transactions it had or exactly one |
| `ApprovalSync.StubFlagsWithoutTransaction` | backend/src/services/leaves/balance_service.py:182-183 | with the repository's stub, visited approved leaves are flagged all the same and have a transaction iff they had one before |
| `ApprovalSync.FinalStatus` | backend/scripts/sync_approvals.py:57-63 | a pending leave ends as its first decisive approval says, any other status is kept; a flag is set exactly on visited leaves that end approved |

## Left out

- Transport and driver layers: SQLAlchemy sessions, Celery, httpx, the Redis, Keycloak and MinIO clients, JWT checks and logging. JSON values are taken to survive the cache.
- Column values: statuses and codes are the values the columns hold; the auto-fix query's `approved_by` and the expenses query's `estimated_total` are modelled as the columns they stand for.
- Reconciliation.LeavesDatabase.AutoFix: which inserts fail is an input; `approved_at` is non-null and `days_requested` non-negative; the year of a timestamp is a parameter, `created_at` and the fixed notes are dropped.
- Reconciliation.LeavesDatabase.CheckLeavesConsistency: the free-text message and the detection time of an anomaly are dropped.
- LedgerRepair.DrainBound: nothing else writes to the two tables between the runs, and a run with a failed insert, which changes nothing, does not count as a run.
- IdentityCache.BoundedStaleness: the cache read and the return on a hit are one instant, and so are the cache write and the return on a miss; a run starts from an empty cache.
- IdentityCache.IdentityService.ResolveReceive: a record without a usable id is one case (500), whatever exception it causes.
- AuditRetention.RetentionTimes: a day is 86400 seconds, that is, a session in UTC; ids are fresh when a row is inserted.
- AuditRetention.AuditRecordsConserved: archive and purge calls do not overlap. A row committed after the DELETE and before the refresh of the view is the run archive, insert, refresh.
- AuditRetention.ViewAgrees: the ORDER BY of the view is not modelled.
- ImportCleanup.RewriteIsFilter: names are non-empty and contain neither commas nor any white space, since an empty name would be eaten by the comma tidying; the same holds for `ImportExactness.RewriteIsFilterIff`; lines with `as` aliases or parentheses are covered only by the general file results.
- Permissions.UiScopedExact: upper-casing is ASCII only. Lower-casing in the redaction is ASCII only as well.
- AuditDiff.SanitizeData: keys are strings, dicts are acyclic, key order is not modelled, and NaN and infinities do not occur.
- NotificationStream.AlwaysDisciplined: message delivery and the isConnected flag are not modelled; the outcome of the token check is an input of each step.
- ApprovalSync.SyncSession.Reconcile: approving also writes the approver's columns, the history and the time ledger, none of which the script reads.
- ApprovalSync.ReorderedRerunIff: the rows of the approvals query are the same in the rerun.
- Phase 1 of the repair script, the React pages, the schema migrations and the domain services.
