# Certhub, verified

Certhub issues, renews and hands out TLS certificates. This project models the parts of it whose
correctness is not visible in any single function, and proves what they keep over whole runs. To
check the whole project, run `dafny verify dfyconfig.toml` with Dafny 4.11.

**How the models are built.** A repository call on the database is one atomic step on maps of rows.
The specification functions (`Issuance`, `Challenges`, `Sessions`, `Zones`) say what each statement does,
with unique indexes, foreign keys, CHECK constraints and triggers as guards that leave the rows alone;
a run is any sequence of steps with times, and the run lemmas quantify over all of them. The classes
(`CertificateRepository.Repository`, `AuthRepository.Repository`, `Zones.Repository`) hold the tables as
fields, update them in place, and are proved to do exactly those steps. Application and database share
one clock, new ids are arguments, and `for update skip locked` is a set of skipped rows.

What a statement achieves is told a second time in the law modules (`JobLaws`, `CertificateLaws`,
`ServiceLaws`, `SessionLaws`, `ZoneLaws`): when exactly it answers, and what every column then holds, in
literal values and without the specification functions. Where calls of the outside world may fail, a ghost
counter of failures says when exactly the operation succeeds.

| Files | Subject |
|---|---|
| Issuance, Versions, Leases, Challenges, ChallengeRuns | tables and statements of the issuance engine; numbering, status, material; the leased job queue; DNS challenge records |
| JobLaws, CertificateLaws, Retries | what each statement achieves, column by column; repeating a statement after a lost answer |
| CertificateRepository, CertificateService, ServiceLaws | the repository as it runs; ensure and lifecycle transactions with roles and domain coverage, and exactly when they accept |
| Sessions, SessionRuns, SessionLaws, AuthRepository | access-token rotation and reuse, one-time tokens; what every run keeps; what each statement achieves; the repository as it runs |
| ResetRace, ResetAlone | login, setup confirmation, handoff exchange and credential resets, statement by statement, under the user row lock; what each comes to when undisturbed |
| Publishing, LinkPaths | writing a release and switching `current`, with failing calls, dying processes and power loss; which link targets lead into `releases` |
| Zones, ZoneLaws, ZoneLookup | zone ownership and refresh jobs; what each statement achieves; longest-suffix lookup and challenge record names |
| Cloudflare | the list-then-create and list-then-delete loops against an unreliable provider |
| TlsCache | concurrent reloads of the TLS certificate cache and what is served from it |
| PasswordHash, Base64, Text | printing and parsing of stored password hashes |
| Totp, Scopes, Sans | one-time codes, wildcard coverage, the normal form of identifier lists |

**What the proofs brought to light.**

- Revoking a valid version is refused by the failure check exactly when its certificate is `failed` although some version is usable (`Versions.RevocationRefused`). That state is reachable: a renewal that fails before the stored material becomes valid leads to it (`Versions.RefusalHappens`). And a `ready` certificate may have no usable version (`Versions.ReadyWithoutUsable`).
- A challenge record cannot be inserted as `cleanup_failed` or `cleaned`; the CHECK constraints refuse it (`ChallengeRuns.Recordable`).
- A requeued job that failed earlier can collide with a newer active job; the partial unique index then refuses the statement, so one active job per key still holds (`Leases.RunKeepsOneActivePerKey`).
- On the very first publish into a directory a power loss between the switch and the last sync can leave `current` dangling, because the entry of `releases` itself is synced only at the end (`Publishing.FirstSwitchDangles`; `Publishing.SwitchIsAnchored` is the exact condition). After one publish has succeeded no power loss can (`Publishing.SafeOnceSynced`), and process crashes never do.
- One page of 100 records is listed. A client with two attempts or more can end with one copy too many if and only if the other records of the name fill a page (`Cloudflare.CopiesBounded`).
- A TLS handshake may get an older pair than the one a finished reload has loaded, when a slower concurrent reload stores what it read before the change (`TlsCache.OlderPairServed`; `TlsCache.ServedIsFresh` is the exact condition).
- Of all statements of the issuance engine, only a claim and a mark as cleaned do something new when they are sent again after a lost answer (`Retries`).
- Rotation may cap an access token's expiry at exactly the session's, where validation at login demands a strictly later session expiry; the model follows the code.

## Model

| member | source | states |
|---|---|---|
| Leases.LeasesNeverOverlap | internal/certificates/repository.go:841-872 | In every run with a non-decreasing clock, the leases that two different claims of one job gave are disjoint in time, counting renewals and early ends. |
| Leases.ActsInsideOwnLease | internal/certificates/repository.go:543-988 | Every renew, attach, job-bound store, and succeed or fail of a running job that takes effect happens inside the acting worker's own lease, and no other lease of the job holds at that time. |
| Leases.AttemptsAccounted | internal/certificates/repository.go:854-866 | In every run the attempt counter is its starting value plus takeovers of lapsed leases plus requeuing failures. |
| Leases.RequeuesAreBounded | internal/certificates/repository.go:926-947 | Under a fixed limit M of at least 1, at most max(0, M - start) requeues are ever granted, whatever takeovers happen. |
| Leases.SucceededIsFinal | internal/certificates/repository.go:893-919 | A succeeded job keeps every column at all later points of a run, until it is deleted. |
| Leases.RunKeepsOneActivePerKey | internal/certificates/repository.go:627-669 | In every run no two active jobs are for one version, or for one certificate and reason without a version, requeues and attachments included. |
| Leases.StepMoves | internal/certificates/repository.go:841-988 | For every statement and every job row: a claim or worker statement that answers the row has its effect on it under its guard, and any other statement keeps it, drops it or inserts it pending. |
| Leases.RunBalances | internal/certificates/repository.go:841-988 | A ledger kept only by watching the row agrees with it at every point of a run: disjoint leases, the last one being the row's lock, and the attempt sum. |
| Versions.RunIsNumbered | internal/certificates/repository.go:469-522 | In every reachable state the versions of a certificate are numbered from 1 without gaps or repeats, and an issuing version bears the greatest number. |
| Versions.VersionsOfCertificate | internal/certificates/repository.go:469-522 | The numbers in use are exactly 1 to the number of versions, and at most one version is issuing. |
| Versions.ReadsTopVersion | internal/certificates/service.go:767-776 | latestIssuingVersion, which reads only the top row, finds a version exactly when an issuing one exists, and then that one. |
| Versions.StepChanges | internal/certificates/repository.go:469-794 | Every statement changes at most one version row along the allowed moves, opens one with the next number, or drops all rows of a deleted certificate. |
| Versions.StatusMovesForward | internal/certificates/repository.go:543-988 | Over whole runs a version that stays in the table only moves issuing to valid to revoked, or issuing to failed. |
| Versions.RunDownloadsMatchStatus | internal/certificates/service.go:1212-1223 | In every reachable state versionDownloadable holds of exactly the valid and revoked versions. |
| Versions.ReadyHasDownload | internal/certificates/repository.go:583-606 | A certificate not inserted as ready is ready only while it has at least one downloadable version. |
| Versions.AtMostTwoUnexpired | migrations/postgres/00001_initial_schema.sql:44-80 | In every run at most two valid versions of a certificate are unexpired at any time from the last statement on. |
| Versions.RevokeLeavesUsable | internal/certificates/repository.go:725-747 | After a revocation that takes effect usable material is left exactly when another version was usable, although the parent is set ready whenever any version, the revoked one included, was usable before. |
| Versions.ReadyWithoutUsable | internal/certificates/repository.go:725-747 | A concrete run for all inputs of the named kind in which a ready certificate has no usable version: ready does not imply usable material. |
| Versions.RunKeepsFailureState | migrations/postgres/00001_initial_schema.sql:615-615 | In every run a certificate has a failure code exactly when its status is failed. |
| Versions.RevocationRefused | internal/certificates/repository.go:725-747 | In reachable states revoking a valid version is refused exactly when its certificate is failed although some version is usable, because the statement sets ready and keeps the failure code; otherwise the version is revoked. |
| Versions.RefusalHappens | internal/certificates/repository.go:725-747 | The refusal is reachable: in a clocked run for any valid material, job failure and worker, a renewal that fails before the material becomes valid leaves the certificate failed, and at that moment the valid version cannot be revoked. |
| JobLaws.RenewalExtends | internal/certificates/repository.go:874-891 | A renewal answers exactly the worker that runs the job under a lease still to come, for a lease that ends later than asked at; the lease then ends at the later of its old end and the asked one, and nothing else changes. |
| JobLaws.RenewalKeepsOthersOut | internal/certificates/repository.go:874-891 | In any clocked run, from a renewal that answered up to that later end, no claim answers the job, unless a worker reported its end or its row was deleted. |
| JobLaws.ClaimTakesFirst | internal/certificates/repository.go:841-872 | On the columns alone: a claim finds none exactly when no unskipped job is due or has a lapsed lease; otherwise it answers the one with the earliest next run, then creation, then id, and writes lock, status, first start and, on a takeover, the attempt. |
| JobLaws.SuccessEnds | internal/certificates/repository.go:893-919 | A success report answers exactly the holder of a live lease or a succeeded job, and then ends the job and keeps its first completion. |
| JobLaws.AttachGivesVersion | internal/certificates/repository.go:671-688 | An attachment goes through exactly for the holder, with an existing version that no other unfinished job has; a version once given stays. |
| JobLaws.EnsuredIsUnfinished | internal/certificates/repository.go:627-669 | Ensuring answers the unfinished job of the key, or inserts one that waits for the asked time; refused exactly for a taken id or a missing parent. |
| JobLaws.FailureMovesJob | internal/certificates/repository.go:921-945 | A failure report answers exactly the holder or a failed job; under the limit the job waits for the asked delay, one minute by default, with its attempt counted, unless its key is taken; otherwise it ends with the failure. |
| JobLaws.FailureEndsVersion | internal/certificates/repository.go:946-985 | A final failure fails the job's issuing version, and its certificate becomes ready when some version can still be handed out and failed otherwise; no other row changes. |
| CertificateLaws.ReusedOrCreated | internal/certificates/repository.go:210-235 | The row of the identity is answered as it is, or one is inserted enabled, in the asked status; refused exactly for a status that needs more columns or a taken id. |
| CertificateLaws.RowUpdated | internal/certificates/repository.go:251-271 | The flag is set on the one row. |
| CertificateLaws.OpensNextVersion | internal/certificates/repository.go:469-522 | Opening answers the issuing version, or opens one without material under the next free number, and the certificate shows what is under way and no failure; refused exactly for a missing, deleted or disabled certificate or a taken id. |
| CertificateLaws.KeyKeptOnce | internal/certificates/repository.go:524-541 | The key columns of an issuing version are filled once, with an encrypted envelope only. |
| CertificateLaws.StoresEachColumn | internal/certificates/repository.go:543-608 | Each text goes into its own column of the issuing version, which becomes valid and its certificate ready; every refusal has its exact condition. |
| CertificateLaws.RevokesOnce | internal/certificates/repository.go:690-756 | A revocation marks the version and keeps an earlier one; the certificate becomes ready when any version, this one included, served before. |
| CertificateLaws.DeletedWithAll | internal/certificates/repository.go:758-794 | A deletion takes exactly the certificate, its versions and every job and record that refers to one of them; refused exactly while a job, an issuing version or an uncleaned record is there, or a valid version without force. |
| CertificateLaws.RecordedOnce | internal/certificates/repository.go:990-1022 | The record of job, name and value is answered, or one is inserted whose instants fit its status. |
| CertificateLaws.PresentedOver | internal/certificates/repository.go:1024-1043 | Presenting starts a pending record, starts a cleaned or failed one over, and otherwise fills only a missing instant. |
| CertificateLaws.CleanupMarked | internal/certificates/repository.go:1069-1088 | Cleanup moves a record to one of three statuses with exactly the instants and the code that go with it. |
| ChallengeRuns.RunKeepsConsistent | internal/certificates/repository.go:1024-1088 | In every reachable state each challenge record has cleaned_at exactly when cleaned, a failure code exactly when cleanup_failed, validated_at exactly when past presented, presented_at exactly when not pending, and ordered instants, also after a cleaned record is presented again. |
| ChallengeRuns.Recordable | internal/certificates/repository.go:990-1022 | Of the six statuses a caller may record, exactly pending, presented, validated and cleanup_pending pass the table's CHECK constraints. |
| ChallengeRuns.StaysConsistent | internal/certificates/repository.go:1024-1088 | Presenting again and cleaning up keep the record consistent from any consistent state. |
| CertificateRepository.ClaimServesFirst | internal/certificates/repository.go:841-872 | A worker asking for a live lease gets no job exactly when none can be claimed, and otherwise the first by next run, creation and id among the rows not locked by others. |
| Retries.RetryIsSafe | internal/certificates/repository.go:210-1088 | A caller that lost the answer to any statement but a claim or a cleaned mark may send it again at any later time, with another fresh id: no row changes, and the answer is the first one, or NoRows because the row is deleted, the lease has ended or the job was requeued. |
| Retries.SecondClaimIsAnother | internal/certificates/repository.go:841-872 | A claim sent again, by whatever worker, never returns the row of the first while that lease lasts. |
| Retries.CleanedAgainMovesTime | internal/certificates/repository.go:1069-1088 | Marking a record cleaned again moves cleaned_at to the later time and nothing else. |
| CertificateRepository.Repository.CreateOrReuse | internal/certificates/repository.go:210-235 | The caller gets the one row of the identity, old or new, and no second row of it can exist afterwards. |
| CertificateRepository.Repository.CreateIssuingVersion | internal/certificates/repository.go:469-522 | The caller gets the only issuing version of the certificate; a new one has the number after the greatest, and no number is used twice. |
| CertificateRepository.Repository.StoreMaterial | internal/certificates/repository.go:543-608 | Either version and parent change together or no row does: a refused material, a lost lease, a version no longer issuing and the overlap trigger leave everything as it was. |
| CertificateRepository.Repository.RevokeCertificateVersion | internal/certificates/repository.go:690-756 | Version and parent change together or not at all, and the parent's new status is decided on the rows before the revocation. |
| CertificateRepository.Repository.DeleteCertificate | internal/certificates/repository.go:758-794 | Takes the certificate with all that refers to it, or nothing, and never while work is under way. |
| CertificateRepository.Repository.EnsureIssuanceJob | internal/certificates/repository.go:627-669 | The caller gets the one active job of the key; two callers cannot get two. |
| CertificateRepository.Repository.AttachIssuingVersionToJob | internal/certificates/repository.go:671-688 | The job keeps the version it got first, and only a live lease can give it one; another active job of that version refuses it. |
| CertificateRepository.Repository.ClaimNextIssuanceJob | internal/certificates/repository.go:841-872 | The caller gets the first claimable row in the claim order among those not skipped, raised in attempt only on a takeover, or learns that there is none. |
| CertificateRepository.Repository.FailIssuanceJob | internal/certificates/repository.go:921-988 | Job, version and certificate move together: a requeue touches the job only, a final failure also ends the version and decides the parent by what is still usable. |
| CertificateRepository.Repository.RecordDNSChallenge | internal/certificates/repository.go:990-1022 | The caller gets the one record of job, name and value, and no second one can exist afterwards. |
| CertificateService.AcceptedIsUnderWay | internal/certificates/service.go:708-765 | An accepted ensure request leaves the wanted certificate with an issuing version that an active job works on. |
| CertificateService.EnsureTwice | internal/certificates/service.go:708-765 | Asking again for the same certificate, with other fresh ids and at any later time, changes nothing and answers the same. |
| CertificateService.StartedIsUnderWay | internal/certificates/service.go:516-621 | A started lifecycle leaves an issuing version that latestIssuingVersion reads, with an active job; it adds at most one version, changes none, and a fresh renewal was due. |
| CertificateService.AcceptedIsCovered | internal/certificates/service.go:708-765 | A request is accepted only when its criteria normalise and the application's scopes cover every name, and then an issuing version with an active job exists for exactly the normalised names of that application. |
| CertificateService.CoveredByRule | internal/certificates/service.go:1127-1140 | Every name that passes the coverage test normalises and is covered by a scope under the rule on labels, unless the empty wildcard is a scope. |
| CertificateService.RequireDomainCoverage | internal/certificates/service.go:1127-1140 | Succeeds exactly when every name normalises and some scope covers it. |
| ServiceLaws.StartsExactly | internal/certificates/service.go:516-621 | With fresh ids a lifecycle starts if and only if an administrator or a manager of the ordinary application asks, every name is covered by a scope, the certificate is enabled, and its versions fit the reason: material in use for renewal and rotation, none for reissue, nothing under way for another reason, and a renewal under way or due within the window. |
| ServiceLaws.StartedRows | internal/certificates/service.go:516-621 | A start writes the opening of the version and one job of the same reason that may run at once, unless an unfinished one is there, and nothing else. |
| ServiceLaws.EnsuresExactly | internal/certificates/service.go:708-765 | With fresh ids a request is refused if and only if its criteria do not normalise or a name is uncovered; a certificate not to be issued is answered unchanged; in every other case issuance is under way for the certificate there or a new one. |
| ServiceLaws.EnsuredWrites | internal/certificates/service.go:708-765 | An accepted request writes what the three statements write, and a job for the initial issue that may run at once. |
| ServiceLaws.RolesAreOrdered | internal/certificates/service.go:1174-1185 | A grant allows a role exactly when it is that role or a higher one: manager, certificate reader, viewer. |
| CertificateService.Ensure | internal/certificates/service.go:708-765 | The transaction, statement by statement on the repository, from criteria and coverage to version and job, does exactly what the specified step does, and rolls back as a whole on a refusal. |
| CertificateService.StartLifecycle | internal/certificates/service.go:516-621 | The same for renewal, rotation and reissue. Role, ordinary application, coverage and state are all tested before the first write, so a refusal writes nothing. |
| SessionRuns.FastTestIsFaithful | internal/auth/service.go:297-311 | In every reachable state the session-row test accepts a hash at a time exactly when its history row is active and token and session expire later. |
| SessionRuns.RunIsFaithful | internal/auth/repository.go:572-654 | In every run each session row caches one history row, active tokens are current tokens of active sessions, and no token outlives its session. |
| SessionRuns.OneActiveToken | internal/auth/repository.go:572-654 | A session has at most one active history row, and a revoked session none. |
| SessionRuns.ReuseClosesSession | internal/auth/repository.go:580-596 | Presenting a retired token to rotation answers reuse and leaves its session revoked, whatever the session was. |
| SessionRuns.RevokedForGood | internal/auth/repository.go:312-402 | No step undoes a revocation: at every later point none of the session's tokens is accepted or rotated. |
| SessionRuns.RetiredForGood | internal/auth/repository.go:615-653 | A token retired by rotation is never accepted again. |
| SessionRuns.NothingOutlivesSession | internal/auth/repository.go:597-653 | No chain of rotations gives a token that is valid at or past the expiry the session got at login. |
| SessionRuns.RowsLast | internal/auth/repository.go:241-284 | Rows are never dropped, a session keeps user and expiry, and retired tokens and revoked sessions stay so. |
| SessionRuns.SpentForGood | internal/auth/repository.go:448-544 | A setup, handoff or reset token that was consumed, superseded or expired by recovery can never be consumed at a later point. |
| SessionRuns.RunKeepsOneTimeHashes | internal/auth/repository.go:404-544 | In every run the hashes of one table of one-time tokens are distinct. |
| SessionLaws.ClosesAllOfUser | internal/auth/repository.go:344-402 | In every reachable state, after closing a user's sessions nothing of that user is active and no hash of these sessions is accepted at any time; what belongs to others and all reset tokens stay as they were; the reply counts the sessions that were active. |
| SessionLaws.RotatesOrCloses | internal/auth/repository.go:572-654 | On the columns alone, what presenting a token leads to: the next token is valid until the earlier of the asked time and the session's end, an expired one is marked, and a retired one or one of a closed session marks reuse and closes the session. |
| SessionLaws.OpensWithFirstToken | internal/auth/repository.go:241-284 | A session opens with its first token exactly when session outlives token, token its issue, and ids and hash are new. |
| SessionLaws.ClosesOneSession | internal/auth/repository.go:312-342 | An active session closes with its active tokens and keeps an earlier reason; all else stays. |
| SessionLaws.IssuesOneTime | internal/auth/repository.go:404-511 | A new setup or reset token ends the user's active ones of its kind, a handoff leaves them; refused exactly for a taken hash or id or an expiry already past. |
| SessionLaws.ConsumesLiveRow | internal/auth/repository.go:462-544 | Exactly an active row of the hash that has not expired is consumed. |
| AuthRepository.Repository.CreateSession | internal/auth/repository.go:241-284 | Inserts session and first history row, or nothing. |
| AuthRepository.Repository.RotateAccessToken | internal/auth/repository.go:546-570 | Rotates, or marks reuse or expiry, exactly as the specified step. |
| AuthRepository.Repository.RotateToken | internal/auth/repository.go:572-654 | The branches of rotation on the locked history row. |
| AuthRepository.Repository.MarkTokenReuse | internal/auth/repository.go:955-980 | Marks the presented token, revokes its siblings and closes the session. |
| AuthRepository.Repository.RevokeTokens | internal/auth/repository.go:323-341 | Revokes exactly the active tokens of one session. |
| AuthRepository.Repository.RevokeSession | internal/auth/repository.go:312-342 | Closes one active session with its tokens. |
| AuthRepository.Repository.RevokeUserSessions | internal/auth/repository.go:344-402 | Ends unfinished logins, closes all active sessions of the user, and by a loop over the ids revokes exactly their active tokens: what SessionLaws.ClosesAllOfUser tells of the step. |
| AuthRepository.Repository.CreateOneTimeToken | internal/auth/repository.go:404-511 | Supersedes the user's active rows (not for handoffs) and inserts a row under a free hash. |
| AuthRepository.Repository.ConsumeOneTimeToken | internal/auth/repository.go:462-544 | Consumes the active unexpired row of the hash, or changes nothing. |
| ResetRace.ResetCutsOff | internal/auth/service.go:572-607 | In every statement-level interleaving under the user row lock, once a reset has committed: each active session was committed after it, and stems from a newer password, or from a setup or handoff that was itself committed after the reset, the setup with a newer password. |
| ResetRace.RunKeeps | internal/users/repository.go:280-290 | Every interleaving of login, setup confirmation, handoff exchange, callback and both resets keeps the invariant behind it, aborts at any statement included: the lock on the user row, which the key-share lock of a callback's uncommitted insert holds off and which holds off the insert, orders them all. |
| ResetRace.TokensCutOff | migrations/postgres/00001_initial_schema.sql:2110-2115 | The same for what could still become a session: in every reachable state each active handoff and setup was committed after every committed reset, and no callback has an uncommitted insert while the user row is locked, because of its foreign key. |
| ResetRace.ResetStep | internal/auth/repository.go:344-402 | Each statement of a recovery ends what it should: afterwards no setup the transaction sees is active, no earlier handoff is, and no session is. |
| ResetRace.ConfirmStep | internal/auth/service.go:657-718 | Between the re-read under the lock and the new session, a confirmation works on a setup that no committed reset has invalidated. |
| ResetRace.ExchangeStep | internal/auth/service.go:865-903 | An exchange consumes a handoff that no committed reset has invalidated. |
| ResetAlone.LogsIn | internal/auth/service.go:226-247 | Undisturbed, a login goes through to a session opened from the password it verified. |
| ResetAlone.AsksSecondFactor | internal/auth/service.go:226-247 | With a second factor it ends the earlier setups and leaves one for that password. |
| ResetAlone.ConfirmsSetup | internal/auth/service.go:657-718 | Undisturbed, a confirmation consumes its active setup and opens a session from it. |
| ResetAlone.ExchangesHandoff | internal/auth/service.go:865-903 | Undisturbed, an exchange consumes its active handoff and opens a session from it. |
| ResetAlone.HandsOff | internal/auth/repository.go:702-727 | A callback leaves an active handoff. |
| ResetAlone.ResetsPasswordAlone | internal/auth/service.go:572-607 | A password reset changes the password and leaves every session, setup and handoff there, inactive and otherwise unchanged. |
| ResetAlone.ResetsTwoFactorAlone | internal/auth/repository.go:344-402 | A reset of the second factor does the same and keeps the password. |
| Publishing.AlwaysResolves | cmd/certhub-cli/writer.go:41-136 | At every moment of any sound trace from a directory whose current is absent or a link the program wrote, current is absent or names a release with the five complete files of one call. Sound traces are those that PublishAll makes: any failing call, crash and power loss, apart from a loss at the moment that SwitchIsAnchored singles out. |
| Publishing.PublishedNeverChanges | cmd/certhub-cli/writer.go:41-136 | A release that current named at any moment is there, unchanged, at every later moment. |
| Publishing.PowerLossSafe | cmd/certhub-cli/writer.go:54-59 | A power loss can leave current dangling exactly when a release may be switched in before the entry of the releases directory itself was synced; otherwise every outcome resolves. |
| Publishing.SwitchIsAnchored | cmd/certhub-cli/writer.go:54-135 | A power loss right after the switch can leave current dangling if and only if the entry of the releases directory was not on disk when the publish began. |
| Publishing.FirstSwitchDangles | cmd/certhub-cli/writer.go:54-135 | Every publish of any complete files into an empty directory passes such a moment. |
| Publishing.SafeOnceSynced | cmd/certhub-cli/writer.go:135-135 | Once the entry of the releases directory is on disk, which one successful publish makes so, it stays there, and every power loss at every later moment leaves current absent or resolving. |
| Publishing.SafeCurrentLeads | cmd/certhub-cli/writer.go:165-190 | The test of current accepts exactly an absent one and the links that name an entry of the releases directory. |
| Publishing.PowerLossKeeps | cmd/certhub-cli/writer.go:116-135 | From any anchored sound state every power-loss outcome, lost or torn unsynced entries and texts included, is sound again. |
| Publishing.SuccessIsDurable | cmd/certhub-cli/writer.go:135-135 | What a successful publish put in place survives every power loss. |
| Publishing.SwitchNeedsSync | cmd/certhub-cli/writer.go:121-123 | Without syncing the releases directory first, the switched link could dangle after a power loss. |
| Publishing.MovedKeeps | cmd/certhub-cli/writer.go:117-119 | Moving a complete synced folder to its name publishes it and changes no other release. |
| Publishing.SwitchedKeeps | cmd/certhub-cli/writer.go:127-134 | The link may move to a release whose entry is on disk. |
| Publishing.FilesOfOneCall | cmd/certhub-cli/writer.go:81-116 | At every moment where current leads to a release, that release holds exactly five files, and cert.pem, chain.pem, fullchain.pem, privkey.pem and the metadata file each hold their own text of one and the same call. |
| Publishing.MetadataFits | cmd/certhub-cli/writer.go:28-39 | Whatever the decoder makes of the metadata text, what is read through current is the decoding of the text of the very call whose certificate and key are behind it, and nothing when current does not lead to a release. |
| Publishing.FileSystem.PublishMaterial | cmd/certhub-cli/writer.go:41-136 | Whatever call fails or wherever the process dies: current is untouched or names a new release with this call's files, success leaves exactly the switched directory with its root entry synced and each text of this call under its own name, having passed the moment of the switch, no release changes, a durable root entry stays and other staging folders stay. It succeeds if and only if no call fails, falls short or kills the process, current is absent or leads into releases, and nothing of the new name is there yet; a folder or link of its own stays behind only when the process dies or the cleanup fails too. |
| Publishing.FileSystem.PublishStaged | cmd/certhub-cli/writer.go:81-135 | The same for the part behind the staging folder; the folder still needs removing only when it was not moved. |
| Publishing.FileSystem.StageFiles | cmd/certhub-cli/writer.go:87-116 | The loop over the files leaves the complete, synced folder with each text under its own name, and reports an error only when a call failed. |
| Publishing.FileSystem.WriteReleaseFile | cmd/certhub-cli/writer.go:192-219 | Writes exactly the new file with its text synced; an existing name is an error; a torn write stays in the staging folder. |
| Publishing.FileSystem.RemoveStaging | cmd/certhub-cli/writer.go:77-80 | The deferred cleanup touches nothing but the call's own staging folder. |
| Publishing.FileSystem.SafeCurrentSymlink | cmd/certhub-cli/writer.go:165-190 | Succeeds only when current is absent or a relative link to a release. |
| Publishing.FileSystem.MoveIntoPlace | cmd/certhub-cli/writer.go:117-123 | Moves the folder to a free name and syncs the releases directory. |
| Publishing.FileSystem.SwitchCurrent | cmd/certhub-cli/writer.go:124-136 | Switches current by renaming a temporary link over it. |
| Publishing.FileSystem.PublishAll | cmd/certhub-cli/writer.go:41-136 | Any sequence of publishes, each possibly cut short by a crash or a power loss, has a sound trace. Left out are the losses at an unanchored moment, which exist only until the first publish has succeeded. |
| LinkPaths.SafeTargets | cmd/certhub-cli/writer.go:180-190 | On any target text, the absolute, Clean, prefix and Dir tests together let through exactly the relative paths that, followed element by element, lead straight to one name inside releases. |
| LinkPaths.OwnTarget | cmd/certhub-cli/writer.go:127-128 | The target a publish writes passes them, for every name without a separator that is neither empty nor a dot name. |
| LinkPaths.NamedAfterEtag | cmd/certhub-cli/writer.go:272-279 | A release is named after the last sixteen characters of the ETag between its quotes, dots and slashes replaced, then version and time. |
| LinkPaths.NamesDiffer | cmd/certhub-cli/writer.go:272-279 | Releases of different versions or times never have the same name, whatever their ETags. |
| LinkPaths.ReleaseNameIsPlain | cmd/certhub-cli/writer.go:272-279 | Whatever the ETag, version and time, the name of a release is such a name, so a release never leaves the releases directory. |
| PasswordHash.ParseUndoesFormat | internal/crypto/password.go:83-123 | Parsing a printed hash gives back params, salt and hash if and only if the three numbers are positive, the salt has 16 bytes, the hash is not empty and the length fields match modulo 2^32. |
| PasswordHash.ParseOfFormat | internal/crypto/password.go:83-123 | What parsing makes of any printed hash, the refused ones included. |
| PasswordHash.Reprinted | internal/crypto/password.go:83-123 | Printing whatever was parsed, however it was written, parses to the same values. |
| PasswordHash.ParamsAccepted | internal/crypto/password.go:112-146 | The parameter list is accepted with given values if and only if it is one m, one t and one p item, in any order, each a positive 32-bit number, p at most 255. |
| PasswordHash.ParsePHCParams | internal/crypto/password.go:112-146 | The loop with its seen map computes exactly the specified parse. |
| PasswordHash.HashThenVerify | internal/crypto/password.go:63-81 | For any key derivation of the right length a stored password verifies without a rehash, and another one exactly when its derived key is the same. |
| PasswordHash.ParsesExactly | internal/crypto/password.go:93-146 | A text is parsed with given values if and only if it consists of the six parts, the parameters rearrange one m, t and p item, salt and hash decode to at least 16 and 1 bytes, and the lengths are theirs. |
| PasswordHash.HashedForm | internal/crypto/password.go:54-61 | A new hash is the text for version 19, 65536 KiB, three passes, one lane and a 32-byte key. |
| PasswordHash.VerifiesStored | internal/crypto/password.go:63-81 | For any stored hash the password matches if and only if its derived key under the stored parameters is the stored one, and is hashed anew if and only if a stored parameter or length is below 65536, 3, 1, 16 or 32. |
| Base64.EncodesNumbers | internal/crypto/password.go:83-91 | Each group of three bytes becomes four symbols for the same number, a last byte or two become two or three with zero bits added (section 4 of RFC 4648). |
| Base64.DecodesAlphabet | internal/crypto/password.go:104-111 | Apart from line breaks exactly the texts over the alphabet are decoded whose length leaves no single symbol. |
| Base64.RoundTrip | internal/crypto/password.go:83-91 | Decoding undoes encoding for all byte strings, with a decoder that skips line breaks and ignores spare bits. |
| Text.SplitJoin | internal/crypto/password.go:93-97 | Splitting undoes joining for parts without the separator. |
| Text.ParseDecimal | internal/crypto/password.go:123-126 | Parsing undoes printing for 32-bit numbers and refuses larger ones. |
| Text.ParsesPadded | internal/crypto/password.go:123-126 | Exactly the printed numbers below 2^32, with any number of zeros in front, are parsed. |
| Zones.RunKeepsIndexes | internal/dnsproviders/repository.go:305-348 | In every run each zone name has at most one owner and each provider at most one unfinished refresh. |
| Zones.CompleteIsExact | internal/dnsproviders/repository.go:490-574 | A completion under a live lease leaves the provider exactly the discovered zones, kept rows unchanged and other providers untouched; in every other case, a clash included, no zone changes. |
| Zones.ClashReported | internal/dnsproviders/repository.go:512-519 | Of several clashing names the longest, first in order, is reported. |
| Zones.StaleWorkerChangesNothing | internal/dnsproviders/repository.go:498-507 | Without a live lease neither completion nor failure changes any row. |
| Zones.LeasesDoNotOverlap | internal/dnsproviders/repository.go:450-488 | Two claims of one refresh job never hold it at the same time. |
| Zones.EndedUnderOwnLease | internal/dnsproviders/repository.go:490-614 | A completion or failure that takes effect is by the worker of the job's last claim, inside that claim's lease. |
| Zones.FinishedForGood | internal/dnsproviders/repository.go:450-614 | A finished refresh job never changes again. |
| Zones.ZoneRowsAreFinal | internal/dnsproviders/repository.go:330-348 | Zone rows never change, one that a challenge record refers to stays, and only its own deletion or its provider's refresh removes one. |
| ZoneLaws.ClaimsOldest | internal/dnsproviders/repository.go:450-488 | On the columns alone: a claim for a lease that ends later finds none exactly when no unskipped job waits or has a lapsed lease; otherwise it answers the oldest of them, the smaller id among equals, and writes lease, first start and the provider's status. |
| ZoneLaws.CompletesOrReports | internal/dnsproviders/repository.go:490-574 | A completion is refused for repeated names and for anyone but the holder of the lease; with a clash job and provider fail with the longest clashing name and an owner of it; without one zones are replaced and the job succeeds with their count, unless a zone in use would go. |
| ZoneLaws.FailsOwnJob | internal/dnsproviders/repository.go:576-614 | A failure report ends exactly the job that the worker holds, with any code but the one completions use. |
| ZoneLaws.EnsuresOneRefresh | internal/dnsproviders/repository.go:416-448 | The provider's unfinished job is answered or one is inserted, and the provider shows whether it waits or runs. |
| ZoneLaws.AddsFreeName | internal/dnsproviders/repository.go:305-328 | A zone is added exactly to a manual provider under a name nobody has. |
| ZoneLaws.DeletesUnusedZone | internal/dnsproviders/repository.go:330-348 | A zone goes exactly from its own manual provider and while no record refers to it. |
| Zones.Repository.AddZone | internal/dnsproviders/repository.go:305-328 | Adds a zone to a manual provider under a free name, or changes nothing. |
| Zones.Repository.DeleteZone | internal/dnsproviders/repository.go:330-348 | Deletes an unreferenced zone of a manual provider, or changes nothing. |
| Zones.Repository.EnsureRefreshJob | internal/dnsproviders/repository.go:416-448 | Returns the unfinished job of the provider or inserts one. |
| Zones.Repository.ClaimNextRefreshJob | internal/dnsproviders/repository.go:450-488 | Claims the oldest open job, the smaller id among equals: what ZoneLaws.ClaimsOldest tells of the step. |
| Zones.Repository.CompleteRefreshJobSuccess | internal/dnsproviders/repository.go:490-574 | Does exactly what the specified completion does, zone by zone, and keeps names uniquely owned. |
| Zones.Repository.InsertZones | internal/dnsproviders/repository.go:526-538 | Inserts exactly the names the provider did not have. |
| Zones.Repository.FailRefreshJob | internal/dnsproviders/repository.go:576-614 | Fails the job under a live lease only. |
| Zones.NormalizeZoneNames | internal/dnsproviders/repository.go:944-967 | Accepts exactly lists of valid names without repetition after normalisation, and leaves them normalised in place. |
| ZoneLookup.FindsLongestZone | internal/dnsproviders/repository.go:396-414 | The lookup finds a zone exactly when an active provider has one whose name is the given one or follows a dot in it; every other such zone is strictly shorter, so the tie-break is never needed. |
| ZoneLookup.WithinIsLabelSuffix | internal/dnsproviders/repository.go:396-414 | The equality-or-dotted-suffix test is the suffix relation on labels. |
| ZoneLookup.FoundZoneAccepts | internal/dnsproviders/clients.go:70-98 | The challenge record of a name always passes the in-zone check for the zone found for that name, unchanged. |
| ZoneLookup.AcceptsExactly | internal/dnsproviders/clients.go:70-98 | An operation is accepted if and only if zone and host normalise, the record bears the challenge label in any case, the host's labels end with the zone's, and the text is valid; its normal form is given, with 120 seconds by default. |
| ZoneLookup.InZone | internal/dnsproviders/clients.go:79-81 | The in-zone check asks exactly whether the host behind the challenge label lies in the zone. |
| ZoneLookup.RelativeRebuilds | internal/dnsproviders/clients.go:111-118 | For every accepted operation the relative name, a dot and the zone rebuild the record, and "@" is never produced. |
| Cloudflare.Present | internal/dnsproviders/cloudflare.go:90-126 | The call is a run of list-then-create rounds, at most maxAttempts of them. It only adds copies of the record; while the other records of the name leave room on a page there are at most max(1, before) copies whatever is lost, and success leaves exactly that many. It succeeds if and only if the setting is 1 to 10, no error or interruption ends it, and fewer requests fail than it has attempts. |
| Cloudflare.CopiesBounded | internal/dnsproviders/cloudflare.go:90-126 | A client with at least two attempts never leaves more than max(1, before) copies if and only if the other records of the name leave room on a page. |
| Cloudflare.RoundsExceed | internal/dnsproviders/cloudflare.go:90-126 | Without that room at most two rounds, the answer of the first being lost, can end with one copy more than max(1, before). |
| Cloudflare.PageShowsCopy | internal/dnsproviders/cloudflare.go:209-227 | With that room every page that the provider may list shows a copy whenever there is one. |
| Cloudflare.PresentOnce | internal/dnsproviders/cloudflare.go:107-121 | One round is a listing and at most one creation, none when the page shows a copy; it is done exactly when no request failed. |
| Cloudflare.CleanUp | internal/dnsproviders/cloudflare.go:128-160 | Only copies of the record go away, and success leaves none when the name has at most 100 records. It succeeds under the same exact condition as Present. |
| Cloudflare.CleanUpOnce | internal/dnsproviders/cloudflare.go:141-155 | One round deletes matching records only, and all of them when it ends well. |
| Cloudflare.PageShowsAll | internal/dnsproviders/cloudflare.go:209-227 | A listing that fits on one page shows every record of the name. |
| TlsCache.ReloadIsFresh | internal/config/tls.go:113-159 | Under any interleaving of calls and file changes without a repeated stamp, a call that ends well saw or stored a matching pair no older than what its stat calls saw, hence no older than the files when it began. |
| TlsCache.ReadsOnlyChanges | internal/config/tls.go:125-141 | The files are read again exactly when nothing is cached or a time or size of either file differs from the cached one. |
| TlsCache.StampsVouch | internal/config/tls.go:125-134 | An unchanged stamp vouches for the cached text if and only if no stamp of the file repeats. |
| TlsCache.RunKeeps | internal/config/tls.go:113-181 | In every run the cached pair matches and neither text is older than its stored stamp. |
| TlsCache.OnlyValidatedStores | internal/config/tls.go:136-141 | Only a call that validated a new pair changes the cache, so a failed reload leaves it alone. |
| TlsCache.NeverDropped | internal/config/tls.go:161-181 | A certificate once loaded is never dropped. |
| TlsCache.ServedIsFresh | internal/config/tls.go:93-111 | After a reload has ended, the cached pair stays as new as it saw in every later run if and only if no other call has by then read an older file that it may still store. |
| TlsCache.OlderPairServed | internal/config/tls.go:93-111 | It can go wrong: for any two certificates for one key, a run in which the call that loaded the renewed one ends well, and then an overtaken call puts the old pair back. |
| TlsCache.TLSCertificateLoader.Reload | internal/config/tls.go:113-159 | The call itself, with anything allowed to happen between its steps: its result is as fresh as above and it interferes with other calls only as they may with it. It fails only when a call of the operating system fails or, meanwhile, a file is missing or a pair does not match. |
| TlsCache.TLSCertificateLoader.GetCertificate | internal/config/tls.go:93-111 | Serves the pair that is cached after its own reload, a matching one; between the two any other call may store. A cached pair is served even when the reload fails, and nothing is served only after a failure or when files are missing or do not match. |
| TlsCache.TLSCertificateLoader.Renew | internal/config/tls.go:136-141 | Stores a validated pair with the stamps stat saw before the reads. |
| TlsCache.TLSCertificateLoader.Stat | internal/config/tls.go:194-212 | Sees a version of each file no older than at its start. |
| TlsCache.TLSCertificateLoader.Load | internal/config/tls.go:275-307 | Reads a matching pair no older than at its start. |
| Totp.VerifyTOTP | internal/auth/totp.go:16-31 | Accepts a code if and only if the secret decodes and the six digits are the code, in that sense, of a non-negative counter within one of the time divided by thirty, truncating toward zero. |
| Totp.GeneratesNothing | internal/auth/totp.go:33-40 | There is no code exactly for a negative counter, a secret that does not decode, or a length outside 1 to 8. |
| Totp.TruncateIsNumber | internal/auth/totp.go:43-47 | The four bytes at the offset are in bounds and form, top bit masked, a number below 2^31 (section 5.3 of RFC 4226). |
| Totp.CodeDigits | internal/auth/totp.go:48-49 | The printed code has exactly the requested number of decimal digits, and they spell the value modulo the power of ten. |
| Totp.MessageSpellsCounter | internal/auth/totp.go:41-42 | The eight-byte message spells the counter, most significant byte first, so different counters have different messages. |
| Totp.GeneratesCode | internal/auth/totp.go:33-50 | GenerateTOTP gives a text if and only if it is the code of the counter: its digits spell the truncated digest of the key and of eight bytes that spell the counter, modulo the power of ten (section 5.3 of RFC 4226). |
| Totp.AcceptedNearby | internal/auth/totp.go:23-30 | A code shown at one moment is accepted for thirty seconds before and after it (section 5.2 of RFC 6238). |
| Totp.AcceptedOnlyNearby | internal/auth/totp.go:23-30 | An accepted code is the one shown at some moment less than sixty seconds away. |
| Scopes.CoversIsTheLabelRule | internal/applications/scopes.go:58-73 | For every scope but "*." the suffix-and-dot-count test agrees with the rule on labels: equal, or the wildcard stands for exactly one leftmost label (section 6.4.3 of RFC 6125). |
| Scopes.EmptyWildcard | internal/applications/scopes.go:58-73 | On "*.", which no normalised name is, the two differ. |
| Scopes.ScopesCoverIdentifiers | internal/applications/scopes.go:34-56 | An error exactly when an identifier does not normalise; otherwise the normal forms in order and the uncovered ones. |
| Scopes.UncoveredExactly | internal/applications/scopes.go:44-53 | The reported names are exactly those no scope covers, in order, repetitions included. |
| Sans.NormalizeSANs | internal/certificates/validation.go:22-44 | Accepts exactly when all values normalise to between 1 and 100 distinct names, and gives these in strictly increasing order. |
| Sans.SameNamesSameForm | internal/certificates/validation.go:22-44 | Two lists have the same normal form if and only if they have the same set of normalised names. |
| Sans.LessIsLexicographic | internal/certificates/validation.go:40-40 | The order is lexicographic: the first character that differs decides, and a proper beginning comes first. |
| Sans.SortSorts | internal/certificates/validation.go:40-40 | Sorting keeps the members and the count and gives a strictly increasing list. |

## Left out

- Versions.StatusMovesForward: says nothing of a version after its row was deleted with its certificate.
- Versions.ReadyWithoutUsable: is about one family of runs; `Versions.RevokeLeavesUsable` has the exact condition for all.
- Leases.RequeuesAreBounded: needs the same limit in every failure report, because the limit is a parameter of each call; 0 means no limit.
- ServiceLaws.StartsExactly: is for fresh ids; with a taken id the transaction is refused as a whole.
- JobLaws.RenewalKeepsOthersOut: ends where a worker's report or a deletion takes the job out of the lease.
- Totp.GeneratesCode: the counter is a 64-bit integer, and the truncated digest is written in the same 32-bit arithmetic.
- Totp.TruncateIsNumber: states the value in 32-bit arithmetic, in which the sum does not wrap.
- Publishing.PowerLossKeeps: assumes a symbolic link is on disk as soon as its directory entry is, and that a failed sync leaves the entries as uncertain as before.
- Cloudflare.Present: an effect that arrives after its answer, and other clients writing the same name, are not modelled; more pages than the first are never listed.
- ResetRace.ResetCutsOff: rows of reset tokens, token rotation and logout are not part of this machine; checks that can only refuse (expiry, codes, user status) are choices of the scheduler, and each reset writes a password that counts as new.
- CertificateService.Ensure: the criteria normaliser, which also picks the issuer, is a parameter; the scopes are those of the first listed page of 1000; the role checks of the entry points that call it, and audit events, are left out.
- CertificateService.StartLifecycle: grants, applications and scopes are read once at the start, as one value.
- Publishing.FileSystem.PublishAll: leaves out the power losses at an unanchored moment, the one kind of loss that is not survived; `Publishing.SwitchIsAnchored` says which moments these are.
- Publishing.FileSystem.SafeCurrentSymlink: a target that passes the test on its text but goes through a directory that is not there is taken to lead to the release it names.
- TlsCache.TLSCertificateLoader.GetCertificate: that the pair is still in its validity period and fits the host name is the part of the choice to refuse.
- Retries.RetryIsSafe: is about a repetition with no other statement in between.
- Zones.Repository.CompleteRefreshJobSuccess: the name order of the database collation is taken as Go's string order.
- ZoneLookup.FoundZoneAccepts: the DNS name normaliser and the test of the TXT value are parameters.
- TlsCache.ReloadIsFresh: reading a file is one step; expiry and host checks are part of the choice to refuse.
- ACME order and certificate URLs, and `MarkACMERevocationSucceeded` and `MarkACMERevocationFailed`, which touch ACME columns only.
- Races inside a single statement under READ COMMITTED; a statement is atomic here.
- Formats of ids, URLs, digests, ETags and human strings; enum checks; updated_at, last_used_at and last_seen_at; events and audit.
- The limit trigger for the system application and the deletion of whole applications.
- Lists, counts, pagination, error classification, HTTP, CLI prompts, configuration and metrics.
- Cryptography: HMAC, Argon2id, X.509 and encryption are parameters; token hashes stand for tokens.
- File modes, ownership and directory permissions of the publisher; the lock file is taken as held.
- The ArvanCloud client, which follows the same protocol with another matching of fields.
- ACME, OIDC, Kubernetes and resolver clients, the workers' own loops, and the operator.
