# CivicPress, modelled and proved in Dafny

This project models the stateful parts of CivicPress whose behaviour is hardest to see from one
function body, and proves what they keep over whole runs. `dafny verify dfyconfig.toml` checks it.

| file | models |
|---|---|
| `RoleManager.dfy` | the role inheritance resolver (depth-first, with an ancestor set and a memo) and the permission check |
| `EmailValidation.dfy` | the email verification and email change protocol over its two tables |
| `LoginThrottle.dfy` | account lockout behind its gate, and the maintenance sweep |
| `IsoDate.dfy` | instants as ISO text, on which the sweep's string comparisons rest |
| `AuditLogger.dfy` | the bounded activity log as the text of its file |
| `MigrateFolders.dfy` | the migration of record files into year folders |
| `Backup.dfy`, `FileTree.dfy` | backup and restore over an abstract file system |
| `Csv.dfy` | CSV export, the quote-toggling line parser, and import |
| `Diff.dfy` | the front-matter parser and the metadata comparison |
| `Html.dfy` | HTML escaping |
| `Text.dfy`, `Optional.dfy`, `Collections.dfy` | split, join, trim, text order; optional values; facts about collections |

Code that changes things step by step is a class or a method here, proved equal to a
specification function of the old state; the theorems are about those functions, over all inputs
and all runs. What the outside world contributes (clock, random tokens, hash, parsers, git, tar,
failing writes) is a parameter.

Where the code and its comments differ, the code is modelled and the exact condition is proved:

- core/src/auth/role-manager.ts:432-436 says that only complete resolutions are memoized. Inside a
  cycle partial ones are. The answer of the resolution itself is complete all the same
  (`ResolvesExactly`); the memo is complete exactly when no two different reachable roles inherit
  from each other (`MemoIsCompleteIff`, `HierarchyDecidesMemo`).
- core/src/auth/login-throttle.ts:134 says that the sweep drops rows that can no longer affect a
  decision. It also drops an idle row that still counts failures. A sweep changes no later
  decision exactly when it drops no such row (`SweepHarmlessIff`; `SweepCanChangeDecisions` is a
  reachable table where it does).
- `maxEntries` of core/src/audit/audit-logger.ts bounds the log exactly when it is at least 2,
  because `slice(-0)` keeps every line (`BoundHoldsIff`).
- `verify` of core/src/security/secrets.ts decodes the presented signature from hex, so more
  strings than the two that the service hands out stand for a token (`ResolvedIff` gives exactly
  which, `SignatureTailIsIgnored` shows others).
- core/src/auth/role-manager.ts:560-602 lets an undefined role fall back to public, so adding a role
  can take permissions away. It takes nothing away from anybody exactly under
  `DefiningARoleKeepsIff`.
- The metadata comparison of cli/src/commands/diff.ts:422-423 reads names that every object
  inherits. A field such as `constructor` that only one version has is reported as modified, and
  the list is a patch in a direction exactly when no such field is lost in it
  (`ChangesAreAPatchIff`, `ConstructorIsModified`); a field `__proto__` is never set.
- The CSV writer doubles quotes, the line parser drops them, and raw cells are not escaped; a
  single row that is handed to the parser comes back as it was exactly under
  `RowRoundTripsIff`. The import moreover splits at newlines before it looks at quotes, so a
  record with several lines of content comes back as several rows (`MultilineContentAddsRows`);
  a file comes back as it was exactly under `FileRoundTripsIff`, and every cell reads back,
  trimmed and without its quotes, exactly under `ImportOfExportIff`.

## Model

| member | source | states |
|---|---|---|
| RoleManager.Resolution.GetRolePermissions | core/src/auth/role-manager.ts:422-626 | the recursive, memoizing resolver on its shared collections gives the answer and memo of the specification and leaves the ancestor set as it found it; it terminates on every configuration |
| RoleManager.ResolveKeeps | core/src/auth/role-manager.ts:437-626 | from any consistent path and memo, a call keeps the memo closed under inheritance up to the path, adds only roles reachable from its own, keeps every new entry below its result, answers soundly, and makes one call per edge that leaves a newly finished role |
| RoleManager.ResolvesExactly | core/src/auth/role-manager.ts:422-626 | for every configuration, cyclic or not, the answer is exactly the union of the direct grants of all reachable roles (an undefined role contributing public's list), without repeats; the memo holds exactly the reachable roles; the number of calls is exactly one more than the edges leaving reachable roles; every entry is sound, and complete when no two roles below it inherit from each other |
| RoleManager.MemoIsCompleteIff | core/src/auth/role-manager.ts:432-437 | with grants that tell roles apart, all memo entries are complete if and only if no two different reachable roles inherit from each other |
| RoleManager.HierarchyDecidesMemo | core/src/auth/role-manager.ts:432-437 | for defined roles, the memo is complete under every assignment of permissions to them if and only if no two different reachable roles inherit from each other |
| RoleManager.CycleMemoIsPartial | core/src/auth/role-manager.ts:449-454 | a two-role cycle whose memo holds an incomplete entry |
| RoleManager.GetUserPermissions | core/src/auth/role-manager.ts:139-149 | a permission is in the answer exactly when a chain of hierarchy entries, each a list with the next role or an object whose value is one, leads from the role to a defined role whose permissions have it, or to an undefined role while public's have it; and none occurs twice |
| RoleManager.CheckPermissionIff | core/src/auth/role-manager.ts:370-420 | without a transition a check grants exactly a permission of a reachable role, everything under the wildcard, or a record type of the role itself (public's for an undefined role) |
| RoleManager.UserCanIff | core/src/auth/role-manager.ts:75-116 | a list of permissions is granted exactly when one of them is |
| RoleManager.UserCanIffMayDo | core/src/auth/role-manager.ts:75-116 | a request is granted exactly when one of its permissions, or the wildcard, is given along such a chain, or the role's own entry (public's for an undefined role) has the record type for the action |
| RoleManager.GrantsSurviveGrowth | core/src/auth/role-manager.ts:370-420 | a configuration that takes nothing away role by role never turns a grant into a denial |
| RoleManager.FixedRolesGrow | core/src/auth/role-manager.ts:456-604 | with the set of defined roles fixed, adding edges, permissions or record types takes nothing away |
| RoleManager.KeepsRoleIff | core/src/auth/role-manager.ts:370-420 | of any two configurations, the second grants a role every request that the first does if and only if it grants the role the wildcard, or all its permissions and record types of the first |
| RoleManager.DefiningARoleKeepsIff | core/src/auth/role-manager.ts:560-602 | defining a role that was not defined denies nobody anything if and only if it is public, or the role now has the wildcard, or it has all of public's list and of public's record types |
| RoleManager.DefiningARoleCanRevoke | core/src/auth/role-manager.ts:560-602 | defining a role without permissions ends its fallback to public and revokes a grant |
| EmailValidation.ResolvedIff | core/src/auth/email-validation-service.ts:317-341 | a presented string stands for a raw token exactly when it is that token, or, with secrets set, the token, a dot and a dot-free text that decodes to the bytes of its signature |
| EmailValidation.SignatureVerifiesIff | core/src/security/secrets.ts:271-281 | a presented signature verifies exactly when it starts with the digits of the signature, in either case, and no further pair of digits follows them |
| EmailValidation.FinalTokenResolves | core/src/auth/email-validation-service.ts:237-243 | the token that is mailed stands for the raw token whose hash is stored |
| EmailValidation.SignatureTailIsIgnored | core/src/security/secrets.ts:271-281 | further strings verify: text after the signature that starts with no hex digit is ignored |
| EmailValidation.TableHoldsLiveTokens | core/src/auth/email-validation-service.ts:228-261 | over every run that starts without tokens, there is a row for exactly those mailed tokens that no later token of the same user and type, cancellation, accepted use, expired use or sweep has ended, with the user, address, type and expiry they were mailed for |
| EmailValidation.OneTokenPerKind | core/src/auth/email-validation-service.ts:251-261 | in every state reachable from a table without tokens a user has at most one row of a type |
| EmailValidation.VerifiedMeansProved | core/src/auth/email-validation-service.ts:724-755 | over every run that starts without tokens, the current address of a verified user who was not verified at the start is one to which a token for that user was mailed, and that token was presented and accepted |
| EmailValidation.RunTellsUsers | core/src/auth/email-validation-service.ts:649-755 | the invariant behind it: a live initial token's address is the user's address or the user's address is proved; a live change token's address is the pending one, and the token expires in no later second than the pending change |
| EmailValidation.ChangeIff | core/src/auth/email-validation-service.ts:455-511 | in every state reachable from a table without tokens a change succeeds exactly for a live, unexpired change token whose address nobody else has, and then gives its user, and nobody else, the address it was mailed to |
| EmailValidation.VerifyIff | core/src/auth/email-validation-service.ts:724-755 | in every state reachable from a table without tokens a verification succeeds exactly for a live, unexpired initial token, and marks its user and changes nothing else about users |
| EmailValidation.RequestIff | core/src/auth/email-validation-service.ts:228-450 | a change is requested exactly for a valid address that nobody else has and an existing user; then the mailed token goes to that address and stands for the stored one, which lives a day and replaces the user's change token, the pending fields are the address, that token and its expiry, and nothing else changes; otherwise nothing does |
| EmailValidation.SendIff | core/src/auth/email-validation-service.ts:649-719 | an initial token is mailed exactly to an existing user with an address who is not verified, to that address; no user changes |
| EmailValidation.CancelClears | core/src/auth/email-validation-service.ts:539-563 | a cancellation clears the user's pending fields and change tokens and nothing else |
| EmailValidation.MailedChangeCompletes | core/src/auth/email-validation-service.ts:455-511 | in every state reachable from a table without tokens, following the link of a live change token within the day gives its user the address it was mailed to, unless somebody else has it |
| EmailValidation.MailedInitialVerifies | core/src/auth/email-validation-service.ts:724-755 | likewise, following the link of a live initial token within the day verifies its user |
| EmailValidation.AcceptedOnce | core/src/auth/email-validation-service.ts:508-511 | a token accepted once is never accepted again, by either operation and in whatever form |
| EmailValidation.EmailsStayDistinct | core/src/auth/email-validation-service.ts:490-506 | if no two users share an address at the start, none ever do |
| EmailValidation.SweepIsExactToTheSecond | core/src/auth/email-validation-service.ts:582-589 | a sweep deletes every row that a lookup would reject and none with a second or more left; a later lookup differs only for a token in its last second |
| EmailValidation.SweepClearsPending | core/src/auth/email-validation-service.ts:586-589 | a sweep clears exactly the pending changes whose expiry lies in a second that is not after the present one, and nothing else about users |
| EmailValidation.EmailValidationService.CreateVerificationToken | core/src/auth/email-validation-service.ts:228-261 | replaces the user's token of the type by a row for the new one, and returns the signed token |
| EmailValidation.EmailValidationService.VerifyToken | core/src/auth/email-validation-service.ts:317-385 | returns the unexpired row that the string stands for, and purges an expired one |
| EmailValidation.EmailValidationService.RequestEmailChange | core/src/auth/email-validation-service.ts:390-450 | is the request step, with its three refusals; the pending change is recorded by a second, later reading of the clock |
| EmailValidation.EmailValidationService.CompleteEmailChange | core/src/auth/email-validation-service.ts:455-534 | is the completion step, with its five refusals |
| EmailValidation.EmailValidationService.CancelEmailChange | core/src/auth/email-validation-service.ts:539-563 | is the cancellation step |
| EmailValidation.EmailValidationService.SendEmailVerification | core/src/auth/email-validation-service.ts:649-719 | is the step that mails an initial token, with its refusals |
| EmailValidation.EmailValidationService.VerifyCurrentEmail | core/src/auth/email-validation-service.ts:724-769 | is the step that accepts an initial token |
| EmailValidation.EmailValidationService.CleanupExpiredTokens | core/src/auth/email-validation-service.ts:568-599 | is the sweep step, and returns the number of deleted rows |
| LoginThrottle.DecisionsFollowHistory | core/src/auth/login-throttle.ts:73-131 | over every run of gated attempts with a clock that does not run back, an attempt is turned away exactly while the account's last lock is less than the lockout old, with the rest of that time; and a refusal locks exactly when it is the maxAttempts-th in a row since the last accepted login or lock |
| LoginThrottle.RowsTellHistory | core/src/auth/login-throttle.ts:94-126 | after every run the row's count is that streak, its lock is the last lock, the count stays below the limit, and it is zero whenever a lock is set |
| LoginThrottle.SweepKeepsLocks | core/src/auth/login-throttle.ts:150-167 | a sweep never changes what the gate answers for the table as it stands, now or later |
| LoginThrottle.SweepHarmlessIff | core/src/auth/login-throttle.ts:134-167 | a sweep leaves all later decisions of all continuations alike if and only if no row it deletes still counts failures |
| LoginThrottle.SweepCanChangeDecisions | core/src/auth/login-throttle.ts:134-167 | with a limit above one, after one failure a sweep as late as the retention changes later decisions |
| LoginThrottle.SweptRunsAgree | core/src/auth/login-throttle.ts:150-167 | if the refusals of a streak are less than the shortest retention apart, runs with and without sweeps make the same decisions throughout |
| LoginThrottle.SweptDecisionsFollowHistory | core/src/auth/login-throttle.ts:73-167 | over every run with sweeps, however spaced, an attempt is turned away exactly while the account's last lock is less than the lockout old, and a refusal locks exactly when it is the maxAttempts-th in a row of those that no sweep has forgotten |
| LoginThrottle.SweepDeletesIff | core/src/auth/login-throttle.ts:150-167 | at the end of every run, a sweep keeps exactly the rows of accounts that are locked or whose last refusal is later than the retention allows, told from what the callers saw |
| LoginThrottle.EventRowsOk | core/src/auth/login-throttle.ts:94-126 | the form of rows survives sweeps too |
| LoginThrottle.UngatedFailureUnlocksIff | core/src/auth/login-throttle.ts:96-105 | a failure recorded past the gate inside a lock unlocks the account if and only if the limit is above one |
| LoginThrottle.Throttle.AssertNotLocked | core/src/auth/login-throttle.ts:73-80 | reads the stored text back to the remaining lock time of the specification |
| LoginThrottle.Throttle.RecordFailure | core/src/auth/login-throttle.ts:87-131 | writes the row of the specification as text and returns whether it locked |
| LoginThrottle.Throttle.RecordSuccess | core/src/auth/login-throttle.ts:170-180 | deletes the account's row |
| LoginThrottle.Throttle.Authenticate | core/src/auth/auth-service/password-ops.ts:115-145 | one login is one gated attempt of the specification |
| LoginThrottle.Throttle.CleanupStaleAttempts | core/src/auth/login-throttle.ts:150-167 | deleting by comparing texts deletes exactly the rows that are stale in time, and returns how many rows are gone |
| IsoDate.TextOrderIsTimeOrder | core/src/auth/login-throttle.ts:144-161 | for instants of the years 0000 to 9999 the lexicographic order of ISO texts is the order of time |
| IsoDate.ParseOfIso | core/src/auth/login-throttle.ts:76-98 | parsing an ISO text gives back the instant |
| IsoDate.IsoLayout | core/src/auth/login-throttle.ts:92-102 | every ISO text has the form YYYY-MM-DDTHH:mm:ss.sssZ |
| IsoDate.EpochFields | core/src/auth/login-throttle.ts:76-98 | time counts from the start of 1970, in hours, minutes, seconds and milliseconds of the day |
| IsoDate.NextDaysDate | core/src/auth/login-throttle.ts:144-161 | a day later the date is the next one of the calendar, at the same time of day |
| IsoDate.IsoIsFixedWidth | core/src/auth/login-throttle.ts:92-102 | every ISO text of those years has 24 characters |
| AuditLogger.LogIsBoundedSuffix | core/src/audit/audit-logger.ts:82-135 | after every run of calls on any file that ends a line, whatever fails, the file is a suffix of the history (what it held and what was written) of at least the last four fifths of maxEntries entries, every failure is counted, and from maxEntries 2 on the file is within maxEntries whenever the last write was followed by a rotation that went through, however long it was before |
| AuditLogger.RotationRestoresBound | core/src/audit/audit-logger.ts:111-123 | a rotation that goes through brings any file back within its bound after any failures |
| AuditLogger.RotationLeavesFourFifths | core/src/audit/audit-logger.ts:118-121 | a call that goes through appends its entry, and only when the file would exceed its bound keeps the newest four fifths of it, rounded down |
| AuditLogger.BoundHoldsIff | core/src/audit/audit-logger.ts:118-121 | the bound holds over all runs without failed rotations from any file within it if and only if maxEntries is at least 2 |
| AuditLogger.TailIsNewest | core/src/audit/audit-logger.ts:77-80 | for a positive limit, tail is the newest entries of the history, newest first, as many as asked for and still there |
| AuditLogger.TailWithoutLimit | core/src/audit/audit-logger.ts:77-80 | for any other limit, tail is everything but the first -limit entries |
| AuditLogger.ActivityLog.Append | core/src/audit/audit-logger.ts:82-109 | one call on the text of the file, with its failure count and rethrow |
| AuditLogger.ActivityLog.RotateIfNeeded | core/src/audit/audit-logger.ts:111-135 | keeps the newest lines when there are too many |
| AuditLogger.ActivityLog.ReadTail | core/src/audit/audit-logger.ts:77-80 | reads the lines of the file back as that tail |
| MigrateFolders.DataDir.MigrateFolders | cli/src/commands/records.ts:94-235 | the loop, guard by guard, gives the files, rows and report of the specification |
| MigrateFolders.DataDir.UpdateRecordPath | cli/src/commands/records.ts:212-223 | updates the row by id, or by the old path when no row has the id |
| MigrateFolders.MigrationConserves | cli/src/commands/records.ts:94-235 | for every listing and record parser the multiset of contents is unchanged, a migrated file lies at its formerly free target, every other file where it lay, and nothing else exists |
| MigrateFolders.DryRunChangesNothing | cli/src/commands/records.ts:203-235 | a dry run leaves files and rows alone and reports no migrated file |
| MigrateFolders.EntriesNameTargets | cli/src/commands/records.ts:171-206 | a migrated entry was listed as records/type/file, as archive/type/file with archives included, or as type/file meaning records; it carries the id of the record that lay there when the run began, and its target is that path with the year of the record (the current year if it has none) before the file |
| MigrateFolders.ListedFilesMove | cli/src/commands/records.ts:94-235 | every file listed in one of these forms that can be read leaves its place, unless its target is taken |
| MigrateFolders.ReportNext | cli/src/commands/records.ts:94-206 | what the run reports of each listed path, in terms of its segments: nothing, a skip, or a target and whether it was moved there |
| MigrateFolders.RowsFollowFiles | cli/src/commands/records.ts:212-223 | every row is told from the report: the row of a migrated id names the target of the last migration of that id; else a row at the old path of a migrated file without a row of its own names that file's target; else it is unchanged |
| MigrateFolders.MigratedRowsNameFiles | cli/src/commands/records.ts:212-223 | when every listed file that can be moved has an id with a row, and no two of them share one, each migrated file's row names its new path |
| Backup.BackupHolds | core/src/backup/backup-service.ts:155-176 | a created backup holds exactly the data tree, exactly the storage tree if one is included, and a git bundle exactly if git makes one, and its tarball, named after it, holds the same tree |
| Backup.BackupFiles | core/src/backup/backup-service.ts:300-398 | a created backup holds the metadata, the exported table if there is one, the minimal storage configuration if storage is included and configured, and nothing under other names |
| Backup.BackupGit | core/src/backup/backup-service.ts:184-240 | its git directory holds exactly the bundle that git made, and is there whenever a bundle of a repository was asked for |
| Backup.CreateGoesThroughIff | core/src/backup/backup-service.ts:155-176 | a backup is created exactly if the data directory exists, unless making the backup directory makes it |
| Backup.BackupThenRestore | core/src/backup/backup-service.ts:456-628 | after a backup and any changes that leave its tarball alone, or the backup if there is none, restoring with overwrite or to where no data are brings back the data tree (all of it if the backup has no bundle, and otherwise with the .git of the cloned bundle, or none if cloning fails), and the included storage tree to the place then configured, unless something there must stay |
| Backup.RestoreGoesThroughIff | core/src/backup/backup-service.ts:456-628 | a restore goes through exactly if the backup has data, overwriting is allowed or no data are there, and the storage configuration can be read in case there is storage to restore |
| Backup.NothingToRestore | core/src/backup/backup-service.ts:499-503 | without a tarball and a directory a restore is refused and nothing happens |
| Backup.TarballNamesBackup | core/src/backup/backup-service.ts:463-466 | naming the tarball restores the same as naming the backup |
| Backup.ExtractedIsRemoved | core/src/backup/backup-service.ts:672-688 | what was extracted is gone after a restore that goes through |
| Backup.CloneIsRemoved | core/src/backup/backup-service.ts:530-574 | the temporary clone is gone, whether or not the bundle could be cloned |
| Backup.StorageTargetIff | core/src/backup/backup-service.ts:578-604 | storage goes to where the chosen provider keeps it if that is local, and else to storage in the system directory |
| Backup.LocalPathIff | core/src/backup/backup-service.ts:252-268 | which provider is chosen, and where a local one keeps its files |
| Backup.CreatedBackupIsReady | core/src/backup/backup-service.ts:401-423 | a created backup meets what the restore asks of it, with a tarball, without one, or when the tarball failed |
| Backup.RefusedRestoreChangesNothing | core/src/backup/backup-service.ts:518-523 | a restore refused because the data directory exists changes nothing outside its temporary directory |
| Backup.NothingIsOverwritten | core/src/backup/backup-service.ts:516-612 | a restore without overwrite, refused, failed or gone through, changes no path that exists outside its two temporary directories |
| Backup.Disk.Create | core/src/backup/backup-service.ts:155-439 | the steps of a backup, in order, on the file system |
| Backup.Disk.CopyStorage | core/src/backup/backup-service.ts:242-341 | copies the files of a local provider and writes the minimal configuration |
| Backup.Disk.Restore | core/src/backup/backup-service.ts:456-697 | the steps of a restore, the tarball taking precedence, with its refusals |
| Backup.Disk.RestoreGit | core/src/backup/backup-service.ts:530-574 | replaces the git directory by the one cloned from the bundle |
| Backup.Disk.RestoreStorage | core/src/backup/backup-service.ts:578-629 | replaces the storage of the configured or default place, or skips it |
| Csv.ParseCSVLine | cli/src/commands/import.ts:307-327 | the index loop computes the cells of the quote-state scanner |
| Csv.RowReadsBackIff | cli/src/commands/import.ts:307-327 | a written row parses to as many cells, raw cells trimmed and quoted cells of any text without their quotes and trimmed, if and only if its raw cells have no comma and no quote |
| Csv.RowRoundTripsIff | cli/src/commands/export.ts:339-377 | a row that is parsed as one line comes back as it was if and only if every text is trimmed and quote-free and every raw text comma-free |
| Csv.FormatCSV | cli/src/commands/export.ts:339-377 | the loops write the header and one row per record, with the optional columns |
| Csv.RowText | cli/src/commands/export.ts:352-376 | a record's row, column by column |
| Csv.QuotedIsEscaped | cli/src/commands/export.ts:364-370 | a quoted cell is an escaped field of section 2 of RFC 4180 that stands for its text, whatever the text holds |
| Csv.ParseCSVImport | cli/src/commands/import.ts:279-305 | the loop over lines gives the column names and the parsed cells, or refuses fewer than two lines |
| Csv.ImportOfExportIff | cli/src/commands/import.ts:279-305 | importing an export gives back the column names and, row by row, what every cell reads back as, if and only if there is a record, no cell has a newline and no raw cell a comma or a quote, blanks at the end of the file not counted |
| Csv.FileRoundTripsIff | cli/src/commands/import.ts:279-305 | importing an export gives back every text as it was if and only if there is a record and every text is trimmed and free of quotes and newlines and every raw text free of commas |
| Csv.MultilineContentAddsRows | cli/src/commands/import.ts:283-290 | whenever some exported content has more than one line, more rows are imported than records were exported |
| Csv.ImportedFieldsIff | cli/src/commands/import.ts:293-299 | each record is imported as one object whose fields are the cells of their columns, under exactly the same condition |
| Csv.ColumnNamesOf | cli/src/commands/import.ts:288 | the column names are the parts of the header, trimmed and then without quotes |
| Csv.ImportedRecord | cli/src/commands/import.ts:291-299 | the imported object of a record, field by field |
| Diff.CompareMetadata | cli/src/commands/diff.ts:416-454 | the loop over all keys, which also finds inherited names, pushes the changes of the specification |
| Diff.ChangesAreAPatchIff | cli/src/commands/diff.ts:416-454 | no field occurs twice, and the list is empty exactly when the maps are equal; applied to the first map it gives the second if and only if no key of the first alone is an inherited name, and its inverse applied to the second gives the first if and only if no key of the second alone is |
| Diff.ChangesInOrder | cli/src/commands/diff.ts:416-421 | changes come in the order of the first version's keys, then of those that only the second has |
| Diff.ConstructorIsModified | cli/src/commands/diff.ts:422-451 | a record that gains the field constructor: it is reported as modified, and undoing the change leaves the inherited value behind |
| Diff.ParseRecordMetadata | cli/src/commands/diff.ts:529-548 | the loop over front-matter lines fills the metadata of the specification, with keys in the order of Object.keys and never `__proto__` |
| Diff.LineSetsField | cli/src/commands/diff.ts:539-544 | a line sets the trimmed text before its first colon to all the text after it, trimmed; lines without a colon or key, or with the key `__proto__`, set nothing |
| Diff.FrontMatterIff | cli/src/commands/diff.ts:533-535 | the front matter is exactly what stands between a fence at the very start and the first line after it that starts with one, and without both there is no metadata |
| Diff.IndicesAscend | cli/src/commands/diff.ts:416-419 | keys that are array indices come first and ascend |
| Diff.DocumentParses | cli/src/commands/diff.ts:533-546 | a fenced document parses to its lines, whatever follows the closing fence |
| Diff.DocumentsPatchIff | cli/src/commands/diff.ts:416-454 | the comparison of two documents patches the metadata of one into that of the other, and back, if and only if no field of one alone has an inherited name |
| Html.EscapeIsSubstitution | cli/src/commands/export.ts:442-449 | the five replacements in a row equal one simultaneous substitution of every character |
| Html.DecodeOfEscape | cli/src/commands/export.ts:442-449 | a left-to-right decoder undoes escaping for every text |
| Html.EscapeIsInjective | cli/src/commands/export.ts:442-449 | different texts escape differently |
| Html.EscapedIsInert | cli/src/commands/export.ts:442-449 | no angle bracket or quote is left |

## Left out

- Command registration, prompts, console output, logging, audit entries, templates and configuration loading: no state of their own.
- Status-transition decisions of `checkPermission`: they read one field and never reach the resolver.
- Configurations of roles and of storage stand for what looking a name up in them finds: a name that objects inherit is an entry without fields, and a null is no entry.
- Real SQL, file systems, tar, git, YAML and JSON libraries: maps, sequences and parameters stand for them. Tar writes the whole archive or nothing, an append writes the whole line or nothing, and lines of the activity log stand for their entries.
- Overlapping operations: each operation of the email service and each login is one step. Store errors, on which the throttle lets logins pass, do not occur.
- Writers of `users.email` other than the email service, and deletion of users.
- Delivery of mail: a token counts as mailed once the message to the address is made. `isValidEmailFormat` is a parameter.
- Local time and daylight saving in `setHours` (a token lives 24 hours), `parseSqliteDatetime` (instants are milliseconds in `EmailValidation.dfy`), and rounding in `maxEntries * 0.8` (four fifths, rounded down).
- LoginThrottle.Throttle.RecordFailure: its instants lie in the years 0000 to 9999; outside them `toISOString` widens the year and text order is no longer time order. `first_failed_at`, which nothing reads, is not stored. User-name normalization is a parameter.
- LoginThrottle.Throttle.CleanupStaleAttempts: has the same range of years, for now and for the cutoff.
- MigrateFolders.DataDir.MigrateFolders: paths are sequences of plain segments (`.` and `..` do not occur), directories are not entities, the listing is an arbitrary sequence, and the year and reason columns of the report, and the id of a file whose date cannot be read, are not kept.
- Backup.BackupThenRestore: what `git clone` makes of the bundle is a parameter; the database checkpoint and the restored table are not modelled; and the directories involved must not lie inside one another.
- Csv.ParseCSVImport: the defaulting step that follows the import is not modelled.
- Diff.CompareMetadata: the names that objects inherit are a parameter; the textual content diff is a library's.
