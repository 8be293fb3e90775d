# A verified model of the control-plane logic of ApexQuant

These Dafny modules model seven parts of the repository whose correctness is decided by plain code,
and prove what those parts are for. Databases, clocks, digests, external commands and files appear
as parameters, maps or uninterpreted functions; everything else is computed as the code computes it.

| part | modules |
|---|---|
| permission patterns, evaluation, the reconciliation sweep | `Rbac`, `Permissions`, `RbacTables`, `SweepProofs`, `Reconciliation` |
| canonical JSON in Python and Rust | `JsonText`, `CanonicalJson` |
| semantic versions and the service version registry | `SemVer`, `VersionRegistry`, `RegistryProofs`, `VersioningService` |
| the audit hash chain | `AuditHash`, `AuditChain` |
| the distributed lock, backups, migrations | `DistributedLock`, `BackupModel`, `BackupProofs`, `RetentionProofs`, `BackupRuns`, `BackupService`, `Migrations`, `MigrationDiscovery`, `SplitSql` |
| feature flags in Rust and Python | `FlagEngine`, `FlagProvider` |
| disaster recovery readiness and drills | `Readiness`, `RecoveryDrill` |

`Text` and `Outcomes` hold the string operations and result types they share. Code that works by
changing things step by step is a class or a method with loops, proved against a function of the
old state; the theorems are lemmas about that function. `dafny verify dfyconfig.toml` checks it all.

Where the code does not do what one would expect, the model follows the code and a lemma says
exactly when the expectation holds:

- `*:*:*` admits every request but does not cover `*` (`Rbac.CoversIsInclusion`).
- Two patterns that share requests without one including the other do not overlap, so that an evaluation can be GRANTED although a held and a forbidden pattern share requests: exactly when they cross (`Rbac.OverlapMissesCrossing`, `Rbac.GrantedMissesCrossing`; `*:submit` beside a forbidden `broker:*` in `Rbac.CrossingIsGranted`). Authorisation still denies every forbidden request.
- One sweep leaves a principal without roles but with a grant exactly when all its roles are bad and some grant is not (`SweepProofs.OneSweepSuffices`, `SweepProofs.OneSweepMayNotSuffice`); two sweeps never do.
- Python escapes non-ASCII text in canonical JSON and Rust does not, so the texts they hash agree only below U+007F (`CanonicalJson.LanguagesAgree`).
- The number of an audit event is not hashed, and deleting the last row of a log is invisible (`AuditChain.DeletionDetected`).
- A refused append uses up a number, so a log that was appended to as intended can fail verification: exactly when a refused append precedes an accepted one (`AuditChain.AttemptsVerify`, `AuditChain.RetryLeavesGap`).
- A lock that is acquired again while held forgets that it holds the key (`DistributedLock.ReacquireForgets`).
- A migration whose recording fails after its execution is executed again by the next run that executes anything; `Migrations.RunsExecuteOnce` says exactly when that happens, `Migrations.LostRecordExecutesAgain` shows one.
- A retention pass stops at the first deletion that raises and leaves the older artifacts ACTIVE, beyond the policy's count or age (`RetentionProofs.SurvivorsExact`, `RetentionProofs.RaisingLeavesActive`).
- A slug that ends in a newline is accepted, and the file created for it stops every later discovery of its domain (`MigrationDiscovery.DiscoveryAfterCreate`, `MigrationDiscovery.NewlineSlugBlocks`).
- A baseline records what is pending and keeps reporting drift (`Migrations.BaselineLeavesDrift`).
- The health cap is applied before the points for a recent drill, so a plan with an unhealthy component can score up to 89, never READY (`Readiness.UnhealthyScore` says when it passes the cap, `Readiness.UnhealthyScoreReached`, `Readiness.ReadyMeans`).
- With health checks switched off every step of a drill can pass while READY is out of reach (`RecoveryDrill.PassingIsReady`, `RecoveryDrill.PassingNotReady`).

## Model

| member | source | states |
|---|---|---|
| `Rbac.CoversBySegments` | python/apexquant-auth/src/apexquant_auth/rbac.py:116-130 | For a pattern other than `*`, `covers` holds exactly when every segment of the pattern equals the target's segment there or is a wildcard, a trailing wildcard also past the end of the target; so a pattern without a trailing wildcard covers every target it is a segmentwise prefix of. |
| `Rbac.CoversTransitive` | python/apexquant-auth/src/apexquant_auth/rbac.py:116-130 | A request covered by q is covered by every pattern that covers q. |
| `Rbac.SeparatingRequest` | crates/control/apex-rbac/src/lib.rs:112-133 | When p does not cover q there is a concrete request of two or three segments that q covers and p does not: each wildcard of q is filled with a segment p never mentions. |
| `Rbac.CoversIsInclusion` | python/apexquant-auth/src/apexquant_auth/rbac.py:91-130 | For all grammatical patterns `covers(p, q)` says that every request of q is a request of p, with one exact exception: `*:*:*` admits every request and yet does not cover `*`. |
| `Rbac.IncludesEverything` | python/apexquant-auth/src/apexquant_auth/rbac.py:91-130 | A pattern other than `*` admits every request exactly when all its segments are wildcards. |
| `Rbac.OverlapIsComparability` | python/apexquant-auth/src/apexquant_auth/rbac.py:133-134 | Two grammatical patterns overlap exactly when the requests of one are among those of the other. |
| `Rbac.SharesBySegments` | python/apexquant-auth/src/apexquant_auth/rbac.py:116-130 | Two patterns share a request exactly when their segments are equal or wildcard up to the shorter length. |
| `Rbac.OverlapMissesCrossing` | python/apexquant-auth/src/apexquant_auth/rbac.py:133-134 | `overlaps` misses a shared request exactly when the patterns cross: they are compatible, and each has a wildcard, or has ended, where the other is concrete. |
| `Rbac.EvaluateMeans` | python/apexquant-auth/src/apexquant_auth/rbac.py:137-149 | A principal with roles is GRANTED exactly when its plane is unrestricted or none of its permissions is global or overlaps a forbidden pattern. |
| `Rbac.GrantedIsIncomparable` | crates/control/apex-rbac/src/lib.rs:141-166 | What GRANTED guarantees on a restricted plane: no granted pattern includes, or is included in, a forbidden one. |
| `Rbac.GrantedMissesCrossing` | python/apexquant-auth/src/apexquant_auth/rbac.py:137-164 | What GRANTED misses on a restricted plane: some request is both held and forbidden exactly when a held pattern crosses a forbidden one; authorisation denies every forbidden request all the same. |
| `Rbac.CrossingIsGranted` | python/apexquant-auth/src/apexquant_auth/rbac.py:137-149 | With `broker:*`, `execution:*` and `kill_switch:*` forbidden, holding `*:submit` evaluates to GRANTED although it shares `broker:submit` with the first. |
| `Rbac.RedundantGrant` | python/apexquant-auth/src/apexquant_auth/rbac.py:152-164 | Dropping a grant that another grant covers changes no authorisation decision. |
| `Rbac.GrantKeepsEvaluation` | python/apexquant-auth/src/apexquant_auth/rbac.py:167-177 | `validate_grant` accepts a grammatical permission exactly when adding it keeps a GRANTED principal GRANTED. |
| `Permissions.AllowsBySegments` | python/apexquant-auth/src/apexquant_auth/permissions.py:15-27 | The character-level test (equality or a `:*` prefix) is a test on segments, for all strings. |
| `Permissions.HasPermissionIsCovered` | python/apexquant-auth/src/apexquant_auth/permissions.py:4-27 | Whatever `has_permission` allows, some stripped granted pattern covers segment by segment. |
| `Permissions.AgreesWithCovers` | python/apexquant-auth/src/apexquant_auth/permissions.py:15-27 | The converse, exactly: a covering pattern is also allowed by `has_permission` if and only if the requirement is as deep as the pattern asks and has a wildcard wherever the pattern has one before its last segment; for a requirement without wildcards: if and only if it is deep enough and the pattern has no wildcard before its last segment. |
| `Reconciliation.Group` | python/apexquant-auth/src/apexquant_auth/reconciliation.py:117-131 | The grouping loops give every principal its role permissions, direct grants, distinct-role count and assignments in row order. |
| `Reconciliation.DetectViolations` | python/apexquant-auth/src/apexquant_auth/reconciliation.py:49-72 | The detection loop reports, per principal, UNPROVISIONED or every forbidden or global permission it holds. |
| `SweepProofs.ViolationsMean` | python/apexquant-auth/src/apexquant_auth/reconciliation.py:49-72 | Violations in terms of the tables: exactly the forbidden permissions held on restricted planes by principals with roles, and the principals with grants and no role. |
| `Reconciliation.RevokeBad` | python/apexquant-auth/src/apexquant_auth/reconciliation.py:145-175 | The remediation of one violation deletes exactly the bad roles and bad grants of that principal and reports one action per bad assignment. |
| `Reconciliation.ReconcileAndRemediate` | python/apexquant-auth/src/apexquant_auth/reconciliation.py:75-194 | A sweep leaves the tables of the sweep function, reports the violations found at its start and the remediations they cause, alerts exactly when there is a violation, and changes the tables exactly when it alerts. |
| `SweepProofs.OneSweepClearsForbidden` | python/apexquant-auth/src/apexquant_auth/reconciliation.py:117-187 | After one sweep no principal of a restricted plane holds a forbidden permission, from any tables. |
| `SweepProofs.OnlyViolatorsLoseRows` | python/apexquant-auth/src/apexquant_auth/reconciliation.py:136-187 | A sweep only deletes, and every deleted row belongs to a principal that had a violation. |
| `SweepProofs.SweepFixedIffClean` | python/apexquant-auth/src/apexquant_auth/reconciliation.py:117-187 | A sweep changes nothing exactly when nothing is detected. |
| `SweepProofs.OneSweepSuffices` | python/apexquant-auth/src/apexquant_auth/reconciliation.py:117-187 | One sweep is enough exactly when no principal has roles that are all bad and a grant that is not, in the tables before the sweep. |
| `SweepProofs.OneSweepMayNotSuffice` | python/apexquant-auth/src/apexquant_auth/reconciliation.py:117-187 | On any restricted plane some tables need a second sweep. |
| `SweepProofs.TwoSweepsSettle` | python/apexquant-auth/src/apexquant_auth/reconciliation.py:117-187 | From any tables two sweeps leave nothing to detect and a third changes nothing. |
| `SweepProofs.SettledEvaluation` | python/apexquant-auth/src/apexquant_auth/rbac.py:137-149 | After two sweeps every principal with roles evaluates to GRANTED on what it holds, and a principal without roles holds nothing. |
| `JsonText.PrintInjective` | python/apexquant-config-validation/src/apexquant-config-validation/canonical.py:18-25 | The compact JSON text is unambiguous, with ASCII escaping or without: two values have the same text exactly when they are equal (strings escaped as in section 7 of RFC 8259). |
| `CanonicalJson.CanonicalTextIdentifies` | python/apexquant-config-validation/src/apexquant-config-validation/canonical.py:8-25 | Two documents have the same canonical text exactly when they are equal up to the order of keys at every depth; also for the Rust text. |
| `CanonicalJson.CanonicalizeIdempotent` | python/apexquant-config-validation/src/apexquant-config-validation/canonical.py:8-15 | Canonicalising twice is canonicalising once. |
| `CanonicalJson.PermutedKeys` | python/apexquant-config-validation/src/apexquant-config-validation/canonical.py:8-15 | Permuting the keys of an object leaves its canonical form unchanged. |
| `CanonicalJson.KeyByKey` | python/apexquant-config-validation/src/apexquant-config-validation/canonical.py:8-15 | Going through the sorted keys, as the Python comprehension does, gives the canonical members. |
| `CanonicalJson.CanonicalizeByInsertion` | crates/common/apex-config-validation/src/lib.rs:70-90 | The Rust `canonicalize`, which inserts canonical children into a sorted map and copies it out, computes the same canonical form. |
| `CanonicalJson.LanguagesAgree` | crates/common/apex-config-validation/src/lib.rs:92-100 | The Python and the Rust canonical text of a document are equal exactly when all its strings stay below U+007F; beyond that the two texts that are hashed differ. |
| `SemVer.ParseIsInverse` | python/apexquant-service-versioning/src/apexquant-service-versioning/semver.py:7-38 | Parsing accepts exactly the texts of well-formed versions, after stripping, and printing the result gives the text back. |
| `SemVer.ParsePrinted` | python/apexquant-service-versioning/src/apexquant-service-versioning/semver.py:25-38 | Printing a well-formed version and parsing it gives the version back. |
| `SemVer.CollectIdentifiers` | python/apexquant-service-versioning/src/apexquant-service-versioning/semver.py:47-59 | The loop over the dotted pre-release yields numbers for digit runs and texts otherwise. |
| `SemVer.CompareIsLexicographic` | python/apexquant-service-versioning/src/apexquant-service-versioning/semver.py:61-95 | `compare` is the lexicographic order of numbers and mixed identifier lists (item 11 of Semantic Versioning 2.0.0), and 0 exactly on equal keys. |
| `SemVer.ComparePreorder` | python/apexquant-service-versioning/src/apexquant-service-versioning/semver.py:61-95 | `compare` is a total preorder: antisymmetric sign and transitive, also with equivalence. |
| `SemVer.BuildIgnored` | python/apexquant-service-versioning/src/apexquant-service-versioning/semver.py:61-95 | Build metadata never changes a comparison. |
| `SemVer.CompatibleTransitive` | python/apexquant-service-versioning/src/apexquant-service-versioning/semver.py:120-137 | Backward compatibility chains. |
| `SemVer.HighestCompatibleMeans` | python/apexquant-service-versioning/src/apexquant-service-versioning/semver.py:140-155 | Resolution returns a compatible candidate that no compatible candidate exceeds, none exactly when there is none, and raises exactly when there are candidates and one of them or the minimum does not parse. |
| `VersionRegistry.KeyInjective` | python/apexquant-service-versioning/src/apexquant-service-versioning/repository.py:86-105 | A `service:version` key built from a stored name and version names no other pair. |
| `VersioningService.InMemoryRepository.UpsertService` | python/apexquant-service-versioning/src/apexquant-service-versioning/repository.py:35-61 | Insert or update a service, keeping its creation time. |
| `VersioningService.InMemoryRepository.InsertVersion` | python/apexquant-service-versioning/src/apexquant-service-versioning/repository.py:69-110 | Insert a draft record with a new id and no dependencies, or report a conflict and change nothing. |
| `VersioningService.InMemoryRepository.UpdateVersionRelease` | python/apexquant-service-versioning/src/apexquant-service-versioning/repository.py:140-168 | Replace a record by its released form; an unknown key changes nothing. |
| `VersioningService.InMemoryRepository.UpdateVersionStatus` | python/apexquant-service-versioning/src/apexquant-service-versioning/repository.py:170-196 | Replace the status and stamp the one time that belongs to it. |
| `VersioningService.InMemoryRepository.GetReleasedVersions` | python/apexquant-service-versioning/src/apexquant-service-versioning/repository.py:227-245 | The released versions of a service, highest numbers first, equals in insertion order. |
| `VersioningService.Versioning.RegisterService` | python/apexquant-service-versioning/src/apexquant-service-versioning/service.py:34-39 | Registration accepts or refuses, and leaves the registry, as the step function says. |
| `VersioningService.Versioning.CollectDependencies` | python/apexquant-service-versioning/src/apexquant-service-versioning/service.py:71-102 | The dependency loop reports the first fault in order, or collects the dependencies unchanged. |
| `VersioningService.Versioning.CreateVersion` | python/apexquant-service-versioning/src/apexquant-service-versioning/service.py:44-127 | Creation accepts or refuses with the first failing check, and leaves the registry, as the step function says. |
| `VersioningService.Versioning.ReleaseVersion` | python/apexquant-service-versioning/src/apexquant-service-versioning/service.py:166-210 | Release of a stable draft, with its event; every refusal changes nothing. |
| `VersioningService.Versioning.DeprecateVersion` | python/apexquant-service-versioning/src/apexquant-service-versioning/service.py:212-239 | Deprecation of a released version, with its event; every refusal changes nothing. |
| `VersioningService.Versioning.RetireVersion` | python/apexquant-service-versioning/src/apexquant-service-versioning/service.py:241-268 | Retirement of a deprecated version, with its event; every refusal changes nothing. |
| `VersioningService.Versioning.CheckCompatibility` | python/apexquant-service-versioning/src/apexquant-service-versioning/service.py:270-320 | The report loop resolves each dependency in order, is ok when all resolve, and raises the first parse error. |
| `RegistryProofs.RunKeeps` | python/apexquant-service-versioning/src/apexquant-service-versioning/service.py:44-268 | Over every run of operations: each version's log is the prefix of CREATED, RELEASED, DEPRECATED, RETIRED that its status says; time stamps are set exactly for reached statuses and do not decrease; what was released is stable and its commit, image, checksum and release time never change; ids and keys name one version; dependencies are registered, distinct and parse; no version disappears or goes back. |
| `RegistryProofs.KeyIsOwn` | python/apexquant-service-versioning/src/apexquant-service-versioning/repository.py:112-114 | In every reachable registry a lookup finds the record of exactly that service and version, however the arguments are cut. |
| `RegistryProofs.ResolutionMeans` | python/apexquant-service-versioning/src/apexquant-service-versioning/service.py:288-296 | In every reachable registry resolving a parsable minimum raises nothing and returns a maximal compatible released version exactly when there is one. |
| `RegistryProofs.CheckNeverUnparsable` | python/apexquant-service-versioning/src/apexquant-service-versioning/service.py:270-320 | In every reachable registry a compatibility check never raises a parse error, reports every dependency with its maximal match, and is ok exactly when each has a compatible release. |
| `RegistryProofs.CompatibilityStays` | python/apexquant-service-versioning/src/apexquant-service-versioning/service.py:270-320 | Over any run without deprecation a report that is ok stays ok and no resolved version goes down. |
| `AuditHash.HashIdentifies` | python/apexquant-audit/src/apexquant-audit/hashing.py:40-76 | Under a collision-free digest an event hash is equal exactly for the same event, up to key order in its data, and the same previous hash; it is never the genesis value. |
| `AuditHash.AuditHashingCommits` | python/apexquant-audit/src/apexquant-audit/hashing.py:65-76 | The hashing of the program is one of those the chain theorems are about. |
| `AuditChain.VerifyChain` | python/apexquant-audit/src/apexquant-audit/hashing.py:102-147 | The verification loop returns the violations of the verification function in order, the number of rows, and ok exactly when there are none. |
| `AuditChain.VerifyMeans` | python/apexquant-audit/src/apexquant-audit/hashing.py:102-147 | A log verifies exactly when every row continues the hash chain and the numbers leave no gap. |
| `AuditChain.SplitVerification` | python/apexquant-audit/src/apexquant-audit/hashing.py:102-147 | A log verifies exactly when both parts of any split verify, the second from the last hash of the first, and the numbers continue. |
| `AuditChain.EditDetected` | python/apexquant-audit/src/apexquant-audit/hashing.py:102-147 | Rewriting the fields of one row of a verified log is reported as one EVENT_HASH_MISMATCH at that row, unless only key order changed. |
| `AuditChain.DeletionDetected` | python/apexquant-audit/src/apexquant-audit/hashing.py:102-147 | Deleting an interior row leaves both mismatches at exactly the next row and a SEQUENCE_GAP at every later row; deleting the first row leaves only the mismatches, deleting the last row nothing. |
| `AuditChain.LastHashCommits` | python/apexquant-audit/src/apexquant-audit/hashing.py:65-76 | Two verified logs from genesis with the same last hash hold the same events in the same order. |
| `AuditChain.HashesDistinct` | python/apexquant-audit/src/apexquant-audit/hashing.py:65-76 | No hash of a log from genesis occurs twice. |
| `AuditChain.AuditLog.AppendEvent` | python/apexquant-audit/src/apexquant-audit/repository.py:68-167 | An append chains the event to the last row; an event id already stored returns the stored record and leaves the log unchanged; a taken idempotency key is a conflict. |
| `AuditChain.BuiltLogVerifies` | python/apexquant-audit/src/apexquant-audit/repository.py:68-167 | Every log built by appends, whatever increasing numbers the database gives, only grows and is linked from genesis; verification reports nothing but gaps in the numbers, and nothing exactly when there are none. |
| `AuditChain.AttemptsVerify` | python/apexquant-audit/src/apexquant-audit/repository.py:68-167 | With one number handed out per attempt: a verified log goes on verifying through any series of appends exactly when no refused append (a stored id, a taken key) comes before an accepted one. |
| `AuditChain.RetryLeavesGap` | migrations/postgres/audit/0001_audit.sql:10-10 | Appending an event, retrying it and appending another leaves a log that does not verify. |
| `AuditChain.ReappendFindsFirst` | python/apexquant-audit/src/apexquant-audit/repository.py:68-167 | Appending a stored event id again, after any further appends, finds the row first stored and changes nothing. |
| `AuditChain.FetchedRangeVerifies` | python/apexquant-audit/src/apexquant-audit/repository.py:199-243 | Every range fetched from a verified log, whatever number the log begins with, verifies from the hash fetched with it; fetching fails exactly when the row before the range is missing. |
| `AuditChain.FetchIsSlice` | python/apexquant-audit/src/apexquant-audit/repository.py:199-243 | The rows fetched are one slice of the log, cut to the limit, with the hash of the row before it, whatever number the log begins with. |
| `DistributedLock.Lock.TryAcquire` | python/apexquant-redis/src/apexquant-redis/lock.py:46-54 | Acquisition sets the key exactly when no live entry holds it and remembers whether it did. |
| `DistributedLock.Lock.Release` | crates/control/apex-redis/src/lock.rs:50-66 | Release deletes the key exactly when it still holds the caller's token, and forgets the acquisition. |
| `DistributedLock.InvKept` | python/apexquant-redis/src/apexquant-redis/lock.py:46-62 | Every action of the interleaving machine (calls, lost replies, expiry) keeps the token invariant. |
| `DistributedLock.RunSafe` | crates/control/apex-redis/src/lock.rs:34-66 | In every state of every interleaving at most one lock per key holds it, that is, is acquired, within its time to live and has sent no release since; and the stored token and deadline are that lock's. |
| `DistributedLock.ReleaseIsOwn` | python/apexquant-redis/src/apexquant-redis/lock.py:10-16 | A release deletes the key exactly while its caller is within its time to live; an expired holder's release changes nothing, and no other key is touched. |
| `DistributedLock.HoldersKeep` | crates/control/apex-redis/src/lock.rs:34-66 | No call of one lock takes away what another holds. |
| `DistributedLock.ReacquireForgets` | python/apexquant-redis/src/apexquant-redis/lock.py:46-62 | Acquiring again while holding fails and clears the flag, whatever other locks and the clock do before the reply is handled, so that a later release is not even sent and the key stays until it expires. |
| `BackupModel.KeyTextInjective` | python/apexquant-backup-recovery/src/apexquant-backup-recovery/service.py:100-105 | Object names of different runs differ, whatever prefix, system and target come before. |
| `BackupService.InMemoryBackupRepository.ListArtifacts` | python/apexquant-backup-recovery/src/apexquant-backup-recovery/repository.py:167-176 | The artifacts of a policy, newest first, equals in insertion order. |
| `BackupService.InMemoryBackupRepository.GetArtifactByRun` | python/apexquant-backup-recovery/src/apexquant-backup-recovery/repository.py:178-183 | The first artifact of a run. |
| `BackupService.InMemoryBackupRepository.UpdateArtifactStatus` | python/apexquant-backup-recovery/src/apexquant-backup-recovery/repository.py:185-191 | Change one status, or report an unknown artifact. |
| `BackupService.LocalDirectoryStorage.DeleteObject` | python/apexquant-backup-recovery/src/apexquant-backup-recovery/storage.py:80-84 | Deleting removes exactly one object, and what is not there is no error. |
| `BackupService.Service.CreatePolicy` | python/apexquant-backup-recovery/src/apexquant-backup-recovery/service.py:52-56 | A new enabled policy is scheduled one interval ahead. |
| `BackupService.Service.CreateBackup` | python/apexquant-backup-recovery/src/apexquant-backup-recovery/service.py:64-153 | A backup leaves a succeeded run, its artifact and its object, or a failed run and possibly a partial object, as the specification function says, at every failure point. |
| `BackupService.Service.VerifyBackup` | python/apexquant-backup-recovery/src/apexquant-backup-recovery/service.py:155-199 | A verification downloads, compares and runs the check, and records its verdict on the run. |
| `BackupService.Service.RestoreBackup` | python/apexquant-backup-recovery/src/apexquant-backup-recovery/service.py:201-280 | A restore passes its safety gates in order and loads only checked bytes. |
| `BackupService.Service.SelectExpired` | python/apexquant-backup-recovery/src/apexquant-backup-recovery/service.py:288-313 | The retention loop selects those beyond the count or past their age, from the sorted active artifacts. |
| `BackupService.Service.ApplyRetention` | python/apexquant-backup-recovery/src/apexquant-backup-recovery/service.py:282-329 | The expiry loop marks and deletes in order and stops at the first deletion that raises. |
| `BackupService.Service.RunDue` | python/apexquant-backup-recovery/src/apexquant-backup-recovery/service.py:331-349 | The scheduled pass backs up the due policies by name, skipping failures. |
| `BackupRuns.RunKept` | python/apexquant-backup-recovery/src/apexquant-backup-recovery/service.py:52-349 | Over any run of operations, with backups failing anywhere and deletions raising: every artifact not deleted has its object with the recorded checksum and size, every deleted one has none, the succeeded runs are exactly those with an artifact, and no record is lost or revived. |
| `BackupRuns.ActiveIsStored` | python/apexquant-backup-recovery/src/apexquant-backup-recovery/service.py:92-137 | In every reachable state an ACTIVE artifact can be fetched intact. |
| `BackupProofs.DeleteKeeps` | python/apexquant-backup-recovery/src/apexquant-backup-recovery/storage.py:80-84 | Deleting one artifact's object never removes the object of another run. |
| `BackupRuns.VerifyMeans` | python/apexquant-backup-recovery/src/apexquant-backup-recovery/service.py:155-199 | In every reachable state a verification never finds a damaged object, and its outcome is decided by the run, its artifact's status and the check command. |
| `BackupRuns.RestoreMeans` | python/apexquant-backup-recovery/src/apexquant-backup-recovery/service.py:201-280 | In every reachable state something is loaded exactly for a confirmed, permitted restore of a succeeded run whose artifact was kept, and it has that run's checksum. |
| `RetentionProofs.RankIsIndex` | python/apexquant-backup-recovery/src/apexquant-backup-recovery/service.py:296-304 | The place of an artifact in the sorted listing is the number of active artifacts of the policy that are newer, or as new and inserted earlier. |
| `RetentionProofs.RetentionExact` | python/apexquant-backup-recovery/src/apexquant-backup-recovery/service.py:282-329 | Whatever deletions raise: retention changes exactly the active artifacts ranked beyond the count or past their age, newest first, up to the first whose deletion raises, and deletes exactly their objects when the policy says so; the raising one is marked and keeps its object, the later ones and everything else stay as they were. |
| `RetentionProofs.RetentionCompletes` | python/apexquant-backup-recovery/src/apexquant-backup-recovery/service.py:282-329 | A pass completes exactly when the policy deletes nothing or no expiring artifact's deletion raises. |
| `RetentionProofs.SurvivorsExact` | python/apexquant-backup-recovery/src/apexquant-backup-recovery/service.py:282-329 | An artifact is active after a pass exactly when it was and does not expire, or stands behind a newer expiring one whose deletion raises. |
| `RetentionProofs.SurvivorsAreNewest` | python/apexquant-backup-recovery/src/apexquant-backup-recovery/service.py:282-329 | The surviving active artifacts are exactly the newest `retention_count` without those expired by age, if and only if no deletion raises while an older artifact waits to expire. |
| `RetentionProofs.SecondRetentionExpiresNothing` | python/apexquant-backup-recovery/src/apexquant-backup-recovery/service.py:282-329 | A second retention at the same instant, whatever raises in it, expires nothing, if and only if in the first no deletion raised while an older artifact waited. |
| `RetentionProofs.RaisingLeavesActive` | python/apexquant-backup-recovery/src/apexquant-backup-recovery/service.py:282-329 | With the newer of two aged artifacts failing to delete, the older stays ACTIVE and the newer is EXPIRED with its object kept. |
| `BackupRuns.DueAfterPass` | python/apexquant-backup-recovery/src/apexquant-backup-recovery/service.py:331-349 | After a scheduled pass the policies still due are exactly those that were due and whose backup failed. |
| `BackupRuns.PassAttemptsEachOnce` | python/apexquant-backup-recovery/src/apexquant-backup-recovery/service.py:331-349 | A scheduled pass adds exactly one run for each due policy and none for any other. |
| `Migrations.BuildPlan` | python/apexquant-migrations/src/apexquant-migrations/planner.py:13-42 | The planning loop sorts the files into pending, drifted and skipped. |
| `Migrations.Registry.Verify` | python/apexquant-migrations/src/apexquant-migrations/postgres.py:186-224 | Verification is ok exactly when nothing drifted and nothing is pending. |
| `Migrations.Registry.ApplyPending` | python/apexquant-migrations/src/apexquant-migrations/postgres.py:288-343 | The apply loop executes and records in order until one file fails. |
| `Migrations.Registry.Apply` | python/apexquant-migrations/src/apexquant-migrations/postgres.py:226-386 | A run refuses drift, does nothing in a dry run, and otherwise records the prefix before the failure and reports it. |
| `Migrations.Registry.Baseline` | python/apexquant-migrations/src/apexquant-migrations/postgres.py:388-469 | A confirmed baseline records everything pending without executing it. |
| `Migrations.RunsRecordPrefix` | python/apexquant-migrations/src/apexquant-migrations/postgres.py:226-386 | Over any series of runs, each failing anywhere or nowhere, the migrations recorded are a prefix of the first pending list, in its order and once each; the rest stays pending. |
| `Migrations.RegistryHoldsRecords` | python/apexquant-migrations/src/apexquant-migrations/postgres.py:226-386 | The registry after a series of runs is the one before plus what the runs recorded. |
| `Migrations.RunsExecuteOnce` | python/apexquant-migrations/src/apexquant-migrations/postgres.py:288-343 | Over any series of runs, failing anywhere: what is executed is what is recorded, in order, exactly when no run fails between executing and recording one of the pending files; and no migration is executed twice exactly when no run executes anything after such a failure. |
| `Migrations.LostRecordExecutesAgain` | python/apexquant-migrations/src/apexquant-migrations/postgres.py:288-343 | When the first pending migration is executed and its record lost, the next run executes it again. |
| `Migrations.SuccessMakesVerifyOk` | python/apexquant-migrations/src/apexquant-migrations/postgres.py:186-386 | A run without a fault makes the next verification ok, whatever failed before. |
| `Migrations.BaselineLeavesDrift` | python/apexquant-migrations/src/apexquant-migrations/postgres.py:388-469 | After a baseline nothing is pending and earlier drift is still reported. |
| `MigrationDiscovery.Discover` | python/apexquant-migrations/src/apexquant-migrations/discovery.py:30-78 | Discovery selects the files of the asked domain, refuses a name that does not fit, and sorts. |
| `MigrationDiscovery.DiscoveryDetermined` | python/apexquant-migrations/src/apexquant-migrations/discovery.py:45-78 | What is discovered does not depend on the order of the directory listing; the order is strict and the ids are distinct. |
| `MigrationDiscovery.ListingOrderIrrelevant` | python/apexquant-migrations/src/apexquant-migrations/discovery.py:45-78 | Two listings of one tree in different orders are accepted alike and give the same migrations in the same order. |
| `MigrationDiscovery.CreatedIsLast` | python/apexquant-migrations/src/apexquant-migrations/discovery.py:81-90 | A newly numbered migration sorts after every migration of its domain. |
| `MigrationDiscovery.NewFilenameReadsBack` | python/apexquant-migrations/src/apexquant-migrations/discovery.py:126-159 | For every slug the slug check accepts, the created name reads back as the next version, and it is a valid name exactly when the slug does not end in a newline. |
| `MigrationDiscovery.DiscoveryAfterCreate` | python/apexquant-migrations/src/apexquant-migrations/discovery.py:30-159 | After a file is created, discovery accepts the tree as before exactly when the slug does not end in a newline. |
| `MigrationDiscovery.NewlineSlugBlocks` | python/apexquant-migrations/src/apexquant-migrations/discovery.py:10-27 | The slug `abc` followed by a newline is accepted, and its file makes every later discovery of the domain raise. |
| `SplitSql.SplitSql` | python/apexquant-migrations/src/apexquant-migrations/clickhouse.py:67-92 | The line loop computes the statement function. |
| `SplitSql.StatementsAreTrimmed` | python/apexquant-migrations/src/apexquant-migrations/clickhouse.py:67-92 | No statement is empty or has white space at its ends. |
| `SplitSql.SplitInvertsPrint` | python/apexquant-migrations/src/apexquant-migrations/clickhouse.py:67-92 | For any list of clean statements, writing each with a semicolon and a newline and splitting gives the list back. |
| `SplitSql.CommentChangesNothing` | python/apexquant-migrations/src/apexquant-migrations/clickhouse.py:67-92 | Inserting a comment line at any line boundary changes nothing. |
| `FlagEngine.SelectBucketingEntity` | python/apexquant-flags/src/apexquant-flags/determinism.py:49-62 | The Python loops fill the dictionary with first non-empty values and try the priorities in turn. |
| `FlagEngine.SelectionsAgree` | crates/apex-flag-engine/src/determinism.rs:75-87 | The Rust nested scan and the Python dictionary select the same entity, for all attributes and priorities. |
| `FlagEngine.SelectionMeans` | crates/apex-flag-engine/src/determinism.rs:75-87 | The entity is the first non-empty value under the first priority that has one; there is none exactly when no priority has one. |
| `FlagEngine.EvaluatorsAgree` | python/apexquant-flags/src/apexquant-flags/evaluator.py:31-86 | The Rust and Python evaluators give the same outcome kind and verdict, and the same reason exactly when they fail safe. |
| `FlagEngine.RolloutGrows` | crates/apex-flag-engine/src/evaluator.rs:102-113 | Raising a rollout takes the flag from nobody and changes exactly the contexts whose bucket is in the added share. |
| `FlagEngine.ClockOnlyExpires` | crates/apex-flag-engine/src/evaluator.rs:60-65 | The clock changes an evaluation only at the expiry. |
| `FlagProvider.ProvidersAgree` | python/apexquant-flags/src/apexquant-flags/provider.py:55-95 | The Rust and Python providers serve the same verdict, degradation and generation on the same snapshot, and the same reason exactly when they fail safe. |
| `FlagProvider.VerdictSwitchesOnce` | crates/apex-flag-engine/src/provider.rs:72-118 | The answer for a flag on a snapshot stands still until one fixed moment, the expiry or the first stale millisecond, and is the failure value from then on. |
| `FlagProvider.PinnedVerdictHolds` | crates/apex-flag-engine/src/store.rs:73-85 | The same for a pinned snapshot over any run of swaps and clock ticks. |
| `FlagProvider.FlagStore.Swap` | crates/apex-flag-engine/src/store.rs:82-85 | A swap installs a new object that is never taken for the baked-in defaults. |
| `FlagProvider.FlagStore.PinnedAnswers` | crates/apex-flag-engine/src/store.rs:73-85 | A pin answers, after any swaps of the store, as the current snapshot answered when it was taken, until the flag's switch time, and the failure value from then on. |
| `FlagProvider.Provider.Evaluate` | python/apexquant-flags/src/apexquant-flags/provider.py:55-95 | The Python ladder serves the provider function's answer, which agrees with the Rust engine. |
| `Readiness.ScoreReadiness` | python/apexquant-disaster-recovery/src/apexquant-disaster-recovery/scoring.py:20-93 | The sequential scoring with its caps computes the score function, its state and the fail-closed flag; the score is between 0 and 100. |
| `Readiness.ScoreBounds` | python/apexquant-disaster-recovery/src/apexquant-disaster-recovery/scoring.py:84-84 | The final clamp never changes the score. |
| `Readiness.ScoreMonotone` | python/apexquant-disaster-recovery/src/apexquant-disaster-recovery/scoring.py:20-93 | Neither the score nor the state goes down, and the fail-closed flag is never newly raised, when a backup becomes fresh or verified, a component healthy, the plan active or a drill recent. |
| `Readiness.ReadyMeans` | python/apexquant-disaster-recovery/src/apexquant-disaster-recovery/scoring.py:81-91 | READY means exactly: active plan, all required backups fresh, all applicable components healthy, and all required backups verified, or three in five of them with a recent drill. |
| `Readiness.UnhealthyScore` | python/apexquant-disaster-recovery/src/apexquant-disaster-recovery/scoring.py:56-81 | With an applicable component not healthy the score is at most 89; it passes the health cap of 79 exactly with a recent drill, all required backups fresh, and a score before the cap above 69. |
| `Readiness.UnhealthyScoreReached` | python/apexquant-disaster-recovery/src/apexquant-disaster-recovery/scoring.py:56-81 | Three of four components healthy, no backup required and a recent drill give 89. |
| `Readiness.FailClosedMeans` | python/apexquant-disaster-recovery/src/apexquant-disaster-recovery/scoring.py:29-54 | The fail-closed flag means an inactive plan or a stale required backup, and then the state is NOT_READY with at most 49 points. |
| `RecoveryDrill.AssessBackupRequirements` | python/apexquant-disaster-recovery/src/apexquant-disaster-recovery/verifier.py:83-144 | The assessment loop fills one requirement per component. |
| `RecoveryDrill.CheckHealth` | python/apexquant-disaster-recovery/src/apexquant-disaster-recovery/verifier.py:212-254 | The health loop lists every component's status and fails with the names of the unhealthy ones. |
| `RecoveryDrill.CollectWarnings` | python/apexquant-disaster-recovery/src/apexquant-disaster-recovery/verifier.py:274-299 | The warning loops list the plan, backup and health warnings in order. |
| `RecoveryDrill.BuildReadinessReport` | python/apexquant-disaster-recovery/src/apexquant-disaster-recovery/verifier.py:256-312 | The report holds the assessment, the score, its state and the warnings, for a known plan. |
| `RecoveryDrill.StepsMean` | python/apexquant-disaster-recovery/src/apexquant-disaster-recovery/verifier.py:50-254 | All five steps pass exactly when the plan is active with components, every component that needs one has a fresh and verified backup, and no checked component is unhealthy. |
| `RecoveryDrill.WarningsMeanSteps` | python/apexquant-disaster-recovery/src/apexquant-disaster-recovery/verifier.py:274-299 | For a plan with components, a report without warnings is exactly one whose five drill steps pass. |
| `RecoveryDrill.PassingScore` | python/apexquant-disaster-recovery/src/apexquant-disaster-recovery/drill_engine.py:118-120 | When the five steps pass the score is 75, plus 15 unless health checks are off for some endpoint, plus 10 for a recent drill. |
| `RecoveryDrill.PassingIsReady` | python/apexquant-disaster-recovery/src/apexquant-disaster-recovery/drill_engine.py:118-120 | A plan whose five steps pass is READY exactly when no endpoint is left unchecked. |
| `RecoveryDrill.PassingNotReady` | python/apexquant-disaster-recovery/src/apexquant-disaster-recovery/verifier.py:212-254 | With health checks off, a plan of one service with an endpoint passes every step and is not READY. |
| `RecoveryDrill.SucceedsIffStepsPass` | python/apexquant-disaster-recovery/src/apexquant-disaster-recovery/drill_engine.py:118-122 | The 70-point test never fails a drill whose steps passed: a drill succeeds exactly when all five steps do. |
| `RecoveryDrill.RepeatedDrill` | python/apexquant-disaster-recovery/src/apexquant-disaster-recovery/repository.py:200-224 | Repeating a successful drill at once succeeds again with 10 points more, unless an earlier drill already counted. |
| `RecoveryDrill.Repository.LatestPassedDrillWithinDays` | python/apexquant-disaster-recovery/src/apexquant-disaster-recovery/repository.py:200-224 | Looking at the latest success decides whether any success is recent enough. |
| `RecoveryDrill.DrillEngine.TakeSteps` | python/apexquant-disaster-recovery/src/apexquant-disaster-recovery/drill_engine.py:77-116 | The step loop records every step with its verdict and stops after a failed validation. |
| `RecoveryDrill.DrillEngine.RunDrill` | python/apexquant-disaster-recovery/src/apexquant-disaster-recovery/drill_engine.py:24-130 | A drill records five steps, or one if the validation failed, its score, and SUCCEEDED exactly when all five steps pass; an unknown plan changes nothing. |

## Left out

- Backups: the clock is read once per operation, records are values in the repository's maps (the aliasing of Python objects is not modelled), ids are handed out in increasing order so that insertion order is id order, and storage is a map from object names whose path normalisation by the file system is not part of the model.
- Backup storage is deterministic: objects change only through the service, so that damage to a stored file shows only as the checksum test in `VerifyBackup` and `RestoreBackup`.
- Backup, verify and restore commands are inputs of an operation (whether the connection reference resolves and the command succeeds); command lines, redaction and time-outs are not modelled.
- Canonical JSON covers null, booleans, integers, strings, lists and objects with string keys; floats, `default=str`, duplicate keys in source text and lone surrogates are left out, and a string is a sequence of Unicode scalar values.
- The digests of configuration, audit, backup and migration files are uninterpreted functions; audit results assume a digest free of collisions that never yields the genesis value.
- Audit time stamps and UUIDs are their formatted texts; the SQL statements, the unpublished-event queue and delivery records are left out, and appends are serialised as the table lock of the repository serialises them.
- The distributed lock models single commands of the server as atomic steps with one clock, without fail-over; the blocking acquire loop is a series of attempts, and the Rust destructor's warning is left out.
- Migrations run one migrator at a time over a fixed file set, because planning happens before the advisory lock is taken; file templates, the ClickHouse execution of statements and SQL itself are left out.
- Statement splitting treats newline as the only line break and ASCII white space as the only white space; regular expressions for digits and identifiers are over ASCII.
- The registry keeps versions in insertion order next to the map, ids and times are fresh inputs, and metadata, event details and the request patterns for commit, checksum and field lengths are not modelled; get_version and the list methods only read.
- The permission matrix is a parameter: its file, its hash and its cache are left out, and so are the audit rows and run records that a sweep inserts beside its remediations.
- Flag buckets are an uninterpreted function of the flag key and the entity; the pinning of snapshots relies on their immutability, which is that of the constants of a `FlagSnapshot` object. Times are not negative.
- Readiness is computed over exact real numbers, where the program uses floating point; provider or health-checker exceptions inside a drill step, the completion event record and the serialised report are left out, and the surroundings of a drill are held fixed while it runs.
- The SQL repositories, HTTP and gRPC services, command lines, settings, metrics, secrets, token signing and the finite tables of configuration rules are not part of this model.
