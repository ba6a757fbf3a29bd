/**
  The issuance engine's tables and the statements that move their rows: certificates, numbered
  versions, the leased job queue and DNS challenge records. Every statement is one atomic step
  from a database to a database; unique indexes, foreign keys, CHECK constraints and triggers
  that can refuse a statement are guards that leave the database as it was.
 */
module Issuance {
  import opened Base
  import opened Challenges

  type Worker = string

  datatype CertificateStatus =
    | Pending | ValidatingDns | Issuing | Ready | Renewing | RotatingKey | Expired | Revoked | Failed | Deleted

  datatype VersionStatus = VersionIssuing | VersionValid | VersionFailed | VersionRevoked

  datatype JobStatus = JobPending | JobRunning | JobSucceeded | JobFailed | JobCanceled

  datatype IssuanceReason = InitialIssue | Renewal | KeyRotation | Reissue

  datatype JobReason = ForIssuance(reason: IssuanceReason) | RevocationRetry | DnsCleanup

  // `failure_code` and `failure_message` are set and cleared together.
  datatype Failure = Failure(code: string, message: Option<string>)

  // What `uniq_active_certificate_identity_per_application` keys on.
  datatype Identity = Identity(application: Id, sans: seq<string>, keyType: string, issuer: Id)

  datatype Certificate = Certificate(
    identity: Identity,
    enabled: bool,
    status: CertificateStatus,
    failure: Option<Failure>)

  // What `StoreMaterial` is given.
  datatype Material = Material(
    certPem: string,
    chainPem: string,
    fullchainPem: string,
    privateKey: string,
    serial: string,
    fingerprint: string,
    keyFingerprint: string,
    etag: string,
    notBefore: Time,
    notAfter: Time)

  // The nullable material columns of a version row.
  datatype Columns = Columns(
    certPem: Option<string>,
    chainPem: Option<string>,
    fullchainPem: Option<string>,
    privateKey: Option<string>,
    serial: Option<string>,
    fingerprint: Option<string>,
    keyFingerprint: Option<string>,
    etag: Option<string>,
    notBefore: Option<Time>,
    notAfter: Option<Time>)

  datatype Revocation = Revocation(reason: string, at: Time, user: Id)

  datatype Version = Version(
    certificate: Id,
    number: nat,
    status: VersionStatus,
    reason: IssuanceReason,
    columns: Columns,
    startedAt: Time,
    completedAt: Option<Time>,
    failure: Option<Failure>,
    revocation: Option<Revocation>)

  // `locked_by` and `locked_until`, which a CHECK constraint keeps null together.
  datatype Lock = Lock(holder: Worker, until: Time)

  datatype Job = Job(
    certificate: Id,
    version: Option<Id>,
    reason: JobReason,
    status: JobStatus,
    attempt: int,
    lock: Option<Lock>,
    nextRunAt: Time,
    createdAt: Time,
    startedAt: Option<Time>,
    completedAt: Option<Time>,
    failure: Option<Failure>)

  datatype Database = Database(
    certificates: map<Id, Certificate>,
    versions: map<Id, Version>,
    jobs: map<Id, Job>,
    challenges: map<Id, Challenge>)

  const EMPTY := Database(map[], map[], map[], map[])

  /**
    What the caller gets back: the id of a returned row, no row, a refused parameter, a
    constraint or trigger error, or the two deletion errors.
   */
  datatype Reply = Row(id: Id) | NoRows | Invalid | Conflict | Busy | HasValidVersions

  datatype Outcome = Outcome(db: Database, reply: Reply)

  datatype Step =
    | CreateOrReuse(id: Id, identity: Identity, status: CertificateStatus)
    | UpdateEnabled(certificate: Id, enabled: bool)
    | UpdateIssuanceStatus(certificate: Id, status: CertificateStatus)
    | CreateIssuingVersion(id: Id, certificate: Id, reason: IssuanceReason)
    | PrepareIssuingVersion(version: Id, privateKey: string, keyFingerprint: string)
    | StoreMaterial(version: Id, material: Material, onBehalfOf: Option<Id>, worker: Worker)
    | RevokeVersion(certificate: Id, version: Id, revocationReason: string, user: Id)
    | DeleteCertificate(certificate: Id, force: bool)
    | EnsureJob(id: Id, certificate: Id, forVersion: Option<Id>, jobReason: JobReason, nextRunAt: Time)
    | AttachVersion(job: Id, worker: Worker, version: Id)
    | Claim(worker: Worker, lockedUntil: Time, asked: Time, skipped: set<Id>)
    | Renew(job: Id, worker: Worker, lockedUntil: Time, asked: Time)
    | Succeed(job: Id, worker: Worker)
    | Fail(job: Id, worker: Worker, failure: Failure, retryable: bool, maxAttempts: int, retryAfter: int, asked: Time)
    | RecordChallenge(id: Id, key: ChallengeKey, challengeStatus: ChallengeStatus)
    | MarkPresented(challenge: Id)
    | MarkCleanup(challenge: Id, cleanup: ChallengeStatus, failureCode: Option<string>)

  // ----- Reading rows -----

  /** The versions of a certificate in one status. */
  function VersionsIn(db: Database, certificate: Id, status: VersionStatus): set<Id> {
    set v | v in db.versions && db.versions[v].certificate == certificate && db.versions[v].status == status
  }

  function Numbers(db: Database, certificate: Id): set<nat> {
    set v | v in db.versions && db.versions[v].certificate == certificate :: db.versions[v].number
  }

  predicate Greatest(numbers: set<nat>, m: nat) {
    m in numbers && forall n :: n in numbers ==> n <= m
  }

  lemma {:induction false} GreatestExists(numbers: set<nat>)
    requires numbers != {}
    ensures exists m: nat :: Greatest(numbers, m)
  {
    var n :| n in numbers;
    var rest := numbers - {n};
    if rest == {} {
      assert forall k :: k in numbers ==> k == n || k in rest;
      assert Greatest(numbers, n);
    } else {
      GreatestExists(rest);
      var m: nat :| Greatest(rest, m);
      assert forall k :: k in numbers ==> k == n || k in rest;
      assert Greatest(numbers, if n < m then m else n);
    }
  }

  /** `coalesce(max(version), 0)` over the given numbers. */
  ghost function MaxNumber(numbers: set<nat>): (m: nat)
    ensures numbers == {} ==> m == 0
    ensures numbers != {} ==> Greatest(numbers, m)
  {
    if numbers == {} then 0 else
      GreatestExists(numbers);
      var m: nat :| Greatest(numbers, m); m
  }

  function WithIdentity(db: Database, identity: Identity): set<Id> {
    set c | c in db.certificates && db.certificates[c].identity == identity
  }

  /** The records with this job, owner name and value, of which a unique index allows one. */
  function WithTxt(db: Database, key: ChallengeKey): set<Id> {
    set r | r in db.challenges && db.challenges[r].job == key.job
            && db.challenges[r].recordName == key.recordName && db.challenges[r].txtValue == key.txtValue
  }

  /** All columns that `GetLatestValidMaterial` and the guards of revoking and failing require. */
  predicate HasMaterial(c: Columns) {
    c.certPem.Some? && c.chainPem.Some? && c.fullchainPem.Some? && c.privateKey.Some? && c.etag.Some?
  }

  /** A valid version with complete material whose validity window contains `now`. */
  predicate Usable(v: Version, now: Time) {
    && v.status == VersionValid
    && HasMaterial(v.columns)
    && v.columns.notBefore.Some? && v.columns.notBefore.value <= now
    && v.columns.notAfter.Some? && now < v.columns.notAfter.value
  }

  predicate HasUsable(db: Database, certificate: Id, now: Time) {
    exists v :: v in db.versions && db.versions[v].certificate == certificate && Usable(db.versions[v], now)
  }

  /** Valid and not yet expired: what the overlap trigger counts. */
  predicate Unexpired(v: Version, now: Time) {
    v.status == VersionValid && v.columns.notAfter.Some? && now < v.columns.notAfter.value
  }

  function UnexpiredIds(db: Database, certificate: Id, now: Time): set<Id> {
    set v | v in db.versions && db.versions[v].certificate == certificate && Unexpired(db.versions[v], now)
  }

  predicate Active(j: Job) {
    j.status == JobPending || j.status == JobRunning
  }

  /** The worker holds a lease on this row that has not lapsed. */
  predicate LeasedTo(j: Job, worker: Worker, now: Time) {
    j.status == JobRunning && j.lock.Some? && j.lock.value.holder == worker && now < j.lock.value.until
  }

  /** A row the claim query may pick: due, or running under a lapsed lease. */
  predicate Claimable(j: Job, now: Time) {
    || (j.status == JobPending && j.nextRunAt <= now)
    || (j.status == JobRunning && j.lock.Some? && j.lock.value.until <= now)
  }

  /** `order by next_run_at asc, created_at asc, id asc`. */
  predicate Before(a: Job, i: Id, b: Job, k: Id) {
    || a.nextRunAt < b.nextRunAt
    || (a.nextRunAt == b.nextRunAt && a.createdAt < b.createdAt)
    || (a.nextRunAt == b.nextRunAt && a.createdAt == b.createdAt && i < k)
  }

  predicate Candidate(db: Database, now: Time, skipped: set<Id>, j: Id) {
    j in db.jobs && j !in skipped && Claimable(db.jobs[j], now)
  }

  predicate FirstCandidate(db: Database, now: Time, skipped: set<Id>, j: Id) {
    && Candidate(db, now, skipped, j)
    && forall k :: k in db.jobs && k != j && Candidate(db, now, skipped, k) ==> Before(db.jobs[j], j, db.jobs[k], k)
  }

  /** Active jobs other than `except` that the partial unique index on `certificate_version_id` sees. */
  function ActiveForVersion(db: Database, version: Id, except: set<Id>): set<Id> {
    set j | j in db.jobs && j !in except && Active(db.jobs[j]) && db.jobs[j].version == Some(version)
  }

  /** The same for the index on `(certificate_id, reason)` of version-less jobs. */
  function ActiveForReason(db: Database, certificate: Id, reason: JobReason, except: set<Id>): set<Id> {
    set j | j in db.jobs && j !in except && Active(db.jobs[j]) && db.jobs[j].version == None
            && db.jobs[j].certificate == certificate && db.jobs[j].reason == reason
  }

  /** The rows that hold the unique key an active row like `j` would take. */
  function Rivals(db: Database, j: Job, except: set<Id>): set<Id> {
    match j.version
    case Some(v) => ActiveForVersion(db, v, except)
    case None => ActiveForReason(db, j.certificate, j.reason, except)
  }

  ghost function Pick(s: set<Id>): (x: Id)
    requires s != {}
    ensures x in s
  {
    var x :| x in s; x
  }

  // ----- Certificates -----

  function SetCertificate(db: Database, id: Id, row: Certificate): Database {
    db.(certificates := db.certificates[id := row])
  }

  function SetVersion(db: Database, id: Id, row: Version): Database {
    db.(versions := db.versions[id := row])
  }

  function SetJob(db: Database, id: Id, row: Job): Database {
    db.(jobs := db.jobs[id := row])
  }

  /** `CreateOrReuse`: the row with this identity, inserted when there is none. */
  ghost function DoCreateOrReuse(db: Database, id: Id, identity: Identity, status: CertificateStatus): (r: Outcome)
    ensures r.db == db.(certificates := r.db.certificates)
  {
    var same := WithIdentity(db, identity);
    // The revoked, failed and deleted states need columns that the insert leaves null.
    if status in {Revoked, Failed, Deleted} then Outcome(db, Conflict)
    else if same != {} then Outcome(db, Row(Pick(same)))
    else if id in db.certificates then Outcome(db, Conflict)
    else Outcome(SetCertificate(db, id, Certificate(identity, true, status, None)), Row(id))
  }

  function DoUpdateEnabled(db: Database, c: Id, enabled: bool): (r: Outcome)
    ensures r.db == db.(certificates := r.db.certificates)
  {
    if c !in db.certificates then Outcome(db, NoRows)
    else Outcome(SetCertificate(db, c, db.certificates[c].(enabled := enabled)), Row(c))
  }

  function DoUpdateIssuanceStatus(db: Database, c: Id, status: CertificateStatus): (r: Outcome)
    ensures r.db == db.(certificates := r.db.certificates)
  {
    if status !in {ValidatingDns, Issuing, Renewing, RotatingKey} then Outcome(db, Invalid)
    else if c !in db.certificates || db.certificates[c].status in {Ready, Revoked, Failed, Deleted}
    then Outcome(db, NoRows)
    else Outcome(SetCertificate(db, c, db.certificates[c].(status := status)), Row(c))
  }

  /** Rows a hard delete blocks on. */
  function Blockers(db: Database, c: Id): set<Id> {
    (set j | j in db.jobs && db.jobs[j].certificate == c && Active(db.jobs[j]))
    + VersionsIn(db, c, VersionIssuing)
    + (set r | r in db.challenges && db.challenges[r].certificate == c && db.challenges[r].status != Cleaned)
  }

  /** The hard delete with its `on delete cascade` foreign keys. */
  function Cascade(db: Database, c: Id): Database {
    var gone := set v | v in db.versions && db.versions[v].certificate == c;
    var jobs := map j | j in db.jobs && !JobCascades(db.jobs[j], c, gone) :: db.jobs[j];
    Database(
      map k | k in db.certificates && k != c :: db.certificates[k],
      map v | v in db.versions && v !in gone :: db.versions[v],
      jobs,
      map r | r in db.challenges && db.challenges[r].certificate != c && db.challenges[r].version !in gone
              && db.challenges[r].job in jobs :: db.challenges[r])
  }

  predicate JobCascades(j: Job, c: Id, versions: set<Id>) {
    j.certificate == c || (j.version.Some? && j.version.value in versions)
  }

  function DoDeleteCertificate(db: Database, c: Id, force: bool): Outcome {
    if c !in db.certificates then Outcome(db, NoRows)
    else if Blockers(db, c) != {} then Outcome(db, Busy)
    else if VersionsIn(db, c, VersionValid) != {} && !force then Outcome(db, HasValidVersions)
    else Outcome(Cascade(db, c), Row(c))
  }

  // ----- Versions -----

  function StatusForReason(reason: IssuanceReason): CertificateStatus {
    match reason
    case Renewal => Renewing
    case KeyRotation => RotatingKey
    case _ => Issuing
  }

  const NO_COLUMNS := Columns(None, None, None, None, None, None, None, None, None, None)

  /** `CreateIssuingVersion`: the certificate's issuing version, opened with the next number when there is none. */
  ghost function DoCreateIssuingVersion(db: Database, id: Id, c: Id, reason: IssuanceReason, now: Time): (r: Outcome)
    ensures r.db == db.(certificates := r.db.certificates, versions := r.db.versions)
  {
    var existing := VersionsIn(db, c, VersionIssuing);
    if existing != {} then Outcome(db, Row(Pick(existing)))
    else if c !in db.certificates || db.certificates[c].status == Deleted || !db.certificates[c].enabled
    then Outcome(db, NoRows)
    else if id in db.versions then Outcome(db, Conflict)
    else
      var row := Version(c, MaxNumber(Numbers(db, c)) + 1, VersionIssuing, reason, NO_COLUMNS, now, None, None, None);
      var parent := db.certificates[c].(status := StatusForReason(reason), failure := None);
      Outcome(SetCertificate(SetVersion(db, id, row), c, parent), Row(id))
  }

  function DoPrepareIssuingVersion(db: Database, v: Id, privateKey: string, keyFingerprint: string): (r: Outcome)
    ensures r.db == db.(versions := r.db.versions)
  {
    if !ValidEnvelope(privateKey) then Outcome(db, Invalid)
    else if v !in db.versions || db.versions[v].status != VersionIssuing then Outcome(db, NoRows)
    else
      var was := db.versions[v].columns;
      var columns := was.(privateKey := Some(Coalesce(was.privateKey, privateKey)),
                          keyFingerprint := Some(Coalesce(was.keyFingerprint, keyFingerprint)));
      Outcome(SetVersion(db, v, db.versions[v].(columns := columns)), Row(v))
  }

  /** `storage.ValidateEncryptedEnvelope`. */
  predicate ValidEnvelope(s: string) {
    && 1 <= |s| <= 8192 && s[0] == '{'
    && forall i :: 0 <= i < |s| ==> !Control(s[i])
  }

  predicate Control(c: char) {
    c < ' ' || '\U{7f}' <= c <= '\U{9f}'
  }

  /** `validateStoreMaterial`, without the digest, ETag and URL formats. */
  predicate ValidMaterial(m: Material) {
    && m.certPem != "" && m.chainPem != "" && m.fullchainPem != "" && m.serial != ""
    && m.fingerprint != "" && m.keyFingerprint != "" && m.etag != ""
    && ValidEnvelope(m.privateKey)
    && m.notBefore < m.notAfter
  }

  function Filled(m: Material): Columns {
    Columns(Some(m.certPem), Some(m.chainPem), Some(m.fullchainPem), Some(m.privateKey), Some(m.serial),
            Some(m.fingerprint), Some(m.keyFingerprint), Some(m.etag), Some(m.notBefore), Some(m.notAfter))
  }

  /** The lease test of `StoreMaterial`, skipped for an empty job id. */
  predicate MayStore(db: Database, v: Id, onBehalfOf: Option<Id>, worker: Worker, now: Time) {
    match onBehalfOf
    case None => true
    case Some(j) => j in db.jobs && db.jobs[j].version == Some(v) && LeasedTo(db.jobs[j], worker, now)
  }

  function DoStoreMaterial(db: Database, v: Id, m: Material, onBehalfOf: Option<Id>, worker: Worker,
      now: Time): (r: Outcome)
    ensures r.db == db.(certificates := r.db.certificates, versions := r.db.versions)
  {
    if !ValidMaterial(m) then Outcome(db, Invalid)
    else if v !in db.versions then Outcome(db, NoRows)
    else if db.versions[v].status != VersionIssuing || !MayStore(db, v, onBehalfOf, worker, now)
    then Outcome(db, Row(v))
    else
      var c := db.versions[v].certificate;
      // The overlap trigger: at most one other unexpired valid version may stay.
      if now < m.notAfter && |UnexpiredIds(db, c, now) - {v}| >= 2 then Outcome(db, Conflict)
      else
        var row := db.versions[v].(status := VersionValid, columns := Filled(m), completedAt := Some(now),
          failure := None);
        Outcome(WithStatus(SetVersion(db, v, row), c, Ready, None), Row(v))
  }

  /** `update certificates set status, failure_code, failure_message where id = c`. */
  function WithStatus(db: Database, c: Id, status: CertificateStatus, failure: Option<Failure>): Database {
    if c !in db.certificates then db
    else SetCertificate(db, c, db.certificates[c].(status := status, failure := failure))
  }

  predicate Revocable(db: Database, c: Id, v: Id) {
    && v in db.versions && db.versions[v].certificate == c
    && c in db.certificates && db.certificates[c].status != Deleted
    && db.versions[v].status in {VersionValid, VersionRevoked}
    && HasMaterial(db.versions[v].columns)
  }

  /**
    `RevokeCertificateVersion`. Whether the parent becomes `ready` is decided on the rows before
    the statement, so the version being revoked still counts; a parent that would become `ready`
    while it keeps a failure code trips `certificates_failure_state`.
   */
  function DoRevokeVersion(db: Database, c: Id, v: Id, reason: string, user: Id, now: Time): (r: Outcome)
    ensures r.db == db.(certificates := r.db.certificates, versions := r.db.versions)
  {
    if !Revocable(db, c, v) then Outcome(db, NoRows)
    else if db.versions[v].status == VersionRevoked then Outcome(db, Row(v))
    else if HasUsable(db, c, now) && db.certificates[c].failure.Some? then Outcome(db, Conflict)
    else
      var was := db.versions[v];
      var row := was.(status := VersionRevoked,
                      revocation := Some(Coalesce(was.revocation, Revocation(reason, now, user))),
                      completedAt := Some(Coalesce(was.completedAt, now)));
      var parent := db.certificates[c];
      var moved := if HasUsable(db, c, now) then parent.(status := Ready) else parent;
      Outcome(SetCertificate(SetVersion(db, v, row), c, moved), Row(v))
  }

  // ----- Jobs -----

  ghost function DoEnsureJob(db: Database, id: Id, c: Id, v: Option<Id>, reason: JobReason, nextRunAt: Time,
      now: Time): (r: Outcome)
    ensures r.db == db.(jobs := r.db.jobs)
  {
    var row := Job(c, v, reason, JobPending, 1, None, nextRunAt, now, None, None, None);
    var existing := Rivals(db, row, {});
    if existing != {} then Outcome(db, Row(Pick(existing)))
    else if id in db.jobs || c !in db.certificates || (v.Some? && v.value !in db.versions) then Outcome(db, Conflict)
    else Outcome(SetJob(db, id, row), Row(id))
  }

  function DoAttachVersion(db: Database, j: Id, worker: Worker, v: Id, now: Time): (r: Outcome)
    ensures r.db == db.(jobs := r.db.jobs)
  {
    if j !in db.jobs || !LeasedTo(db.jobs[j], worker, now) then Outcome(db, NoRows)
    else
      var row := db.jobs[j].(version := Some(Coalesce(db.jobs[j].version, v)));
      if row.version.value !in db.versions || Rivals(db, row, {j}) != {} then Outcome(db, Conflict)
      else Outcome(SetJob(db, j, row), Row(j))
  }

  ghost function DoClaim(db: Database, worker: Worker, lockedUntil: Time, asked: Time, skipped: set<Id>,
      now: Time): (r: Outcome)
    ensures r.db == db.(jobs := r.db.jobs)
  {
    if lockedUntil <= asked then Outcome(db, Invalid)
    else if !exists j :: FirstCandidate(db, now, skipped, j) then Outcome(db, NoRows)
    else
      var j :| FirstCandidate(db, now, skipped, j);
      Outcome(SetJob(db, j, Claimed(db.jobs[j], worker, lockedUntil, now)), Row(j))
  }

  /** The claimed row; taking over a lapsed lease raises `attempt`, with no cap. */
  function Claimed(job: Job, worker: Worker, lockedUntil: Time, now: Time): Job {
    job.(status := JobRunning,
         attempt := if job.status == JobRunning then job.attempt + 1 else job.attempt,
         lock := Some(Lock(worker, lockedUntil)),
         startedAt := Some(Coalesce(job.startedAt, now)),
         completedAt := None)
  }

  function DoRenew(db: Database, j: Id, worker: Worker, lockedUntil: Time, asked: Time, now: Time): (r: Outcome)
    ensures r.db == db.(jobs := r.db.jobs)
  {
    if lockedUntil <= asked then Outcome(db, Invalid)
    else if j !in db.jobs || !LeasedTo(db.jobs[j], worker, now) then Outcome(db, NoRows)
    else
      var until := db.jobs[j].lock.value.until;
      var longer := if until < lockedUntil then lockedUntil else until;
      Outcome(SetJob(db, j, db.jobs[j].(lock := Some(Lock(worker, longer)))), Row(j))
  }

  function DoSucceed(db: Database, j: Id, worker: Worker, now: Time): (r: Outcome)
    ensures r.db == db.(jobs := r.db.jobs)
  {
    if j !in db.jobs || !(LeasedTo(db.jobs[j], worker, now) || db.jobs[j].status == JobSucceeded)
    then Outcome(db, NoRows)
    else
      var was := db.jobs[j];
      Outcome(SetJob(db, j, was.(status := JobSucceeded, lock := None,
                                 completedAt := Some(Coalesce(was.completedAt, now)), failure := None)), Row(j))
  }

  /** The `case` condition of `FailIssuanceJob`: a retryable failure under the attempt limit, 0 meaning no limit. */
  predicate Requeues(job: Job, retryable: bool, maxAttempts: int) {
    retryable && (maxAttempts == 0 || job.attempt < maxAttempts)
  }

  function FailedRow(job: Job, failure: Failure, retryable: bool, maxAttempts: int, nextRunAt: Time, now: Time): Job {
    if Requeues(job, retryable, maxAttempts) then
      job.(status := JobPending, attempt := job.attempt + 1, lock := None, nextRunAt := nextRunAt,
           completedAt := None, failure := None)
    else
      job.(status := JobFailed, lock := None, completedAt := Some(Coalesce(job.completedAt, now)),
        failure := Some(failure))
  }

  /** The `version_update` and `cert_update` parts of `FailIssuanceJob`, run when the job ended `failed`. */
  function FailVersion(db: Database, version: Option<Id>, failure: Failure, now: Time): (after: Database)
    ensures after == db.(certificates := after.certificates, versions := after.versions)
  {
    if version.None? || version.value !in db.versions || db.versions[version.value].status != VersionIssuing then db
    else
      var v := version.value;
      var row := db.versions[v].(status := VersionFailed,
        completedAt := Some(Coalesce(db.versions[v].completedAt, now)), failure := Some(failure));
      if HasUsable(db, row.certificate, now)
      then WithStatus(SetVersion(db, v, row), row.certificate, Ready, None)
      else WithStatus(SetVersion(db, v, row), row.certificate, Failed, Some(failure))
  }

  /** `FailIssuanceJob`, which also accepts a job that already failed and may requeue it. */
  function DoFail(db: Database, j: Id, worker: Worker, failure: Failure, retryable: bool, maxAttempts: int,
                  retryAfter: int, asked: Time, now: Time): (r: Outcome)
    ensures r.db.challenges == db.challenges
  {
    if maxAttempts < 0 || retryAfter < 0 then Outcome(db, Invalid)
    else if j !in db.jobs || !(LeasedTo(db.jobs[j], worker, now) || db.jobs[j].status == JobFailed)
    then Outcome(db, NoRows)
    else
      var nextRunAt := asked + if retryAfter <= 0 then 60 else retryAfter;
      var row := FailedRow(db.jobs[j], failure, retryable, maxAttempts, nextRunAt, now);
      // A requeued row re-enters the partial unique indexes.
      if row.status == JobPending && Rivals(db, row, {j}) != {} then Outcome(db, Conflict)
      else
        var after := SetJob(db, j, row);
        Outcome(if row.status == JobFailed then FailVersion(after, row.version, failure, now) else after, Row(j))
  }

  // ----- Challenges -----

  ghost function DoRecordChallenge(db: Database, id: Id, key: ChallengeKey, status: ChallengeStatus,
      now: Time): (r: Outcome)
    ensures r.db == db.(challenges := r.db.challenges)
  {
    var same := WithTxt(db, key);
    var row := Recorded(key, status, now);
    if !RowChecks(row) then Outcome(db, Conflict)
    else if same != {} then Outcome(db, Row(Pick(same)))
    else if id in db.challenges || key.job !in db.jobs || key.certificate !in db.certificates
      || key.version !in db.versions
    then Outcome(db, Conflict)
    else Outcome(db.(challenges := db.challenges[id := row]), Row(id))
  }

  function DoMarkPresented(db: Database, k: Id, now: Time): (r: Outcome)
    ensures r.db == db.(challenges := r.db.challenges)
  {
    if k !in db.challenges then Outcome(db, NoRows)
    else Outcome(db.(challenges := db.challenges[k := Presented(db.challenges[k], now)]), Row(k))
  }

  function DoMarkCleanup(db: Database, k: Id, status: ChallengeStatus, failureCode: Option<string>,
      now: Time): (r: Outcome)
    ensures r.db == db.(challenges := r.db.challenges)
  {
    if !ValidCleanup(status, failureCode) then Outcome(db, Invalid)
    else if k !in db.challenges then Outcome(db, NoRows)
    else Outcome(db.(challenges := db.challenges[k := CleanedUp(db.challenges[k], status, failureCode, now)]), Row(k))
  }

  // ----- Steps and runs -----

  ghost function Apply(db: Database, step: Step, now: Time): Outcome {
    match step
    case CreateOrReuse(id, identity, status) => DoCreateOrReuse(db, id, identity, status)
    case UpdateEnabled(c, enabled) => DoUpdateEnabled(db, c, enabled)
    case UpdateIssuanceStatus(c, status) => DoUpdateIssuanceStatus(db, c, status)
    case CreateIssuingVersion(id, c, reason) => DoCreateIssuingVersion(db, id, c, reason, now)
    case PrepareIssuingVersion(v, key, fp) => DoPrepareIssuingVersion(db, v, key, fp)
    case StoreMaterial(v, m, j, worker) => DoStoreMaterial(db, v, m, j, worker, now)
    case RevokeVersion(c, v, reason, user) => DoRevokeVersion(db, c, v, reason, user, now)
    case DeleteCertificate(c, force) => DoDeleteCertificate(db, c, force)
    case EnsureJob(id, c, v, reason, at) => DoEnsureJob(db, id, c, v, reason, at, now)
    case AttachVersion(j, worker, v) => DoAttachVersion(db, j, worker, v, now)
    case Claim(worker, until, asked, skipped) => DoClaim(db, worker, until, asked, skipped, now)
    case Renew(j, worker, until, asked) => DoRenew(db, j, worker, until, asked, now)
    case Succeed(j, worker) => DoSucceed(db, j, worker, now)
    case Fail(j, worker, failure, retryable, max, after, asked) =>
      DoFail(db, j, worker, failure, retryable, max, after, asked, now)
    case RecordChallenge(id, key, status) => DoRecordChallenge(db, id, key, status, now)
    case MarkPresented(r) => DoMarkPresented(db, r, now)
    case MarkCleanup(r, status, code) => DoMarkCleanup(db, r, status, code, now)
  }

  datatype Timed = Timed(step: Step, now: Time)

  /** The clock never runs backwards along a run. */
  ghost predicate Clocked(run: seq<Timed>) {
    forall i, k :: 0 <= i < k < |run| ==> run[i].now <= run[k].now
  }

  /** The database after the first `i` steps of a run that starts with empty tables. */
  ghost function At(run: seq<Timed>, i: nat): Database
    requires i <= |run|
  {
    if i == 0 then EMPTY else Apply(At(run, i - 1), run[i - 1].step, run[i - 1].now).db
  }
}
