/**
  The certificate repository as it runs: four tables updated in place, one method a statement.
  Each method is proved to do exactly what the statement's step in `Issuance` does.
 */
module CertificateRepository {
  import opened Base
  import opened Challenges
  import opened Issuance
  import opened Leases

  ghost predicate OneIssuing(db: Database) {
    forall v, w :: v in db.versions && w in db.versions && v != w
      && db.versions[v].certificate == db.versions[w].certificate
      ==> db.versions[v].status != VersionIssuing || db.versions[w].status != VersionIssuing
  }

  ghost predicate OnePerIdentity(db: Database) {
    forall c, d :: c in db.certificates && d in db.certificates && c != d
      ==> db.certificates[c].identity != db.certificates[d].identity
  }

  predicate SameTxt(a: Challenge, job: Id, recordName: string, txtValue: string) {
    a.job == job && a.recordName == recordName && a.txtValue == txtValue
  }

  ghost predicate OnePerTxt(db: Database) {
    forall r, s :: r in db.challenges && s in db.challenges && r != s
      ==> !SameTxt(db.challenges[s], db.challenges[r].job, db.challenges[r].recordName, db.challenges[r].txtValue)
  }

  ghost predicate OnePerNumber(db: Database) {
    forall v, w :: v in db.versions && w in db.versions && v != w
      && db.versions[v].certificate == db.versions[w].certificate
      ==> db.versions[v].number != db.versions[w].number
  }

  /** The unique indexes of the four tables. */
  ghost predicate UniqueIndexes(db: Database) {
    OneIssuing(db) && OnePerNumber(db) && OnePerIdentity(db) && OneActivePerKey(db) && OnePerTxt(db)
  }

  lemma Only(s: set<Id>, x: Id)
    requires x in s && forall y :: y in s ==> y == x
    ensures Pick(s) == x
  {
  }

  /** The claim order has a first row whenever there is a row to claim. */
  lemma {:induction false} FirstCandidateExists(db: Database, now: Time, skipped: set<Id>, among: set<Id>, j: Id)
    returns (f: Id)
    requires j in among && among <= db.jobs.Keys && (forall k :: k in among ==> Candidate(db, now, skipped, k))
    ensures f in among
    ensures forall k :: k in among && k != f ==> Before(db.jobs[f], f, db.jobs[k], k)
  {
    var rest := among - {j};
    if rest == {} {
      f := j;
    } else {
      var k: Id :| k in rest;
      var g: Id := FirstCandidateExists(db, now, skipped, rest, k);
      f := if Before(db.jobs[g], g, db.jobs[j], j) then g else j;
    }
    assert forall k :: k in among ==> k == j || k in rest;
  }

  /** A worker that asks for a live lease gets a job whenever one can be claimed, and it is the first in order. */
  lemma ClaimServesFirst(db: Database, worker: Worker, lockedUntil: Time, asked: Time, skipped: set<Id>, now: Time)
    requires asked < lockedUntil
    ensures var reply := DoClaim(db, worker, lockedUntil, asked, skipped, now).reply;
            && (reply == NoRows <==> !exists j :: Candidate(db, now, skipped, j))
            && (reply != NoRows ==> reply.Row? && FirstCandidate(db, now, skipped, reply.id))
  {
    if j :| Candidate(db, now, skipped, j) {
      var all := set k | k in db.jobs && Candidate(db, now, skipped, k);
      var f := FirstCandidateExists(db, now, skipped, all, j);
      assert FirstCandidate(db, now, skipped, f);
    }
  }

  lemma FirstIsUnique(db: Database, now: Time, skipped: set<Id>, f: Id, g: Id)
    requires FirstCandidate(db, now, skipped, f) && FirstCandidate(db, now, skipped, g)
    ensures f == g
  {
  }

  /** A new issuing version fits the indexes when the certificate has none and its number is beyond the others. */
  lemma IssuingKeepsIndexes(db: Database, id: Id, row: Version)
    requires UniqueIndexes(db) && id !in db.versions
    requires VersionsIn(db, row.certificate, VersionIssuing) == {}
    requires row.number == MaxNumber(Numbers(db, row.certificate)) + 1
    ensures UniqueIndexes(SetVersion(db, id, row))
  {
    forall v | v in db.versions && db.versions[v].certificate == row.certificate
      ensures db.versions[v].number < row.number
    {
      assert db.versions[v].number in Numbers(db, row.certificate);
      assert v !in VersionsIn(db, row.certificate, VersionIssuing);
    }
    hide MaxNumber, Numbers;
    assert forall v :: v in db.versions && db.versions[v].certificate == row.certificate ==>
      v !in VersionsIn(db, row.certificate, VersionIssuing);
  }

  lemma CertificatesKeepIndexes(db: Database, c: Id, row: Certificate)
    requires UniqueIndexes(db) && c in db.certificates && db.certificates[c].identity == row.identity
    ensures UniqueIndexes(SetCertificate(db, c, row))
  {
  }

  class Repository {
    var certificates: map<Id, Certificate>
    var versions: map<Id, Version>
    var jobs: map<Id, Job>
    var challenges: map<Id, Challenge>

    function Db(): Database
      reads this
    {
      Database(certificates, versions, jobs, challenges)
    }

    ghost predicate Valid()
      reads this
    {
      UniqueIndexes(Db())
    }

    constructor ()
      ensures Valid() && Db() == EMPTY
    {
      certificates, versions, jobs, challenges := map[], map[], map[], map[];
    }

    /** Undoes every change since `before` was read: the rollback of a transaction. */
    method Rollback(before: Database)
      requires UniqueIndexes(before)
      modifies this
      ensures Valid() && Db() == before
    {
      certificates, versions, jobs, challenges := before.certificates, before.versions, before.jobs, before.challenges;
    }

    method CreateOrReuse(id: Id, identity: Identity, status: CertificateStatus) returns (reply: Reply)
      requires Valid()
      modifies this
      ensures Valid()
      ensures Outcome(Db(), reply) == DoCreateOrReuse(old(Db()), id, identity, status)
    {
      if status in {Revoked, Failed, Deleted} {
        return Conflict;
      }
      var same := WithIdentity(Db(), identity);
      if same != {} {
        var c :| c in same;
        Only(same, c);
        return Row(c);
      }
      if id in certificates {
        return Conflict;
      }
      assert forall c :: c in certificates ==> c !in same;
      certificates := certificates[id := Certificate(identity, true, status, None)];
      return Row(id);
    }

    method UpdateEnabled(c: Id, enabled: bool) returns (reply: Reply)
      requires Valid()
      modifies this
      ensures Valid()
      ensures Outcome(Db(), reply) == DoUpdateEnabled(old(Db()), c, enabled)
    {
      if c !in certificates {
        return NoRows;
      }
      if certificates[c].enabled != enabled {
        certificates := certificates[c := certificates[c].(enabled := enabled)];
      } else {
        assert certificates[c := certificates[c].(enabled := enabled)] == certificates;
      }
      return Row(c);
    }

    method UpdateIssuanceStatus(c: Id, status: CertificateStatus) returns (reply: Reply)
      requires Valid()
      modifies this
      ensures Valid()
      ensures Outcome(Db(), reply) == DoUpdateIssuanceStatus(old(Db()), c, status)
    {
      if status !in {ValidatingDns, Issuing, Renewing, RotatingKey} {
        return Invalid;
      }
      if c !in certificates || certificates[c].status in {Ready, Revoked, Failed, Deleted} {
        return NoRows;
      }
      certificates := certificates[c := certificates[c].(status := status)];
      return Row(c);
    }

    method CreateIssuingVersion(id: Id, c: Id, reason: IssuanceReason, now: Time) returns (reply: Reply)
      requires Valid()
      modifies this
      ensures Valid()
      ensures Outcome(Db(), reply) == DoCreateIssuingVersion(old(Db()), id, c, reason, now)
    {
      var existing := VersionsIn(Db(), c, VersionIssuing);
      if existing != {} {
        var v :| v in existing;
        Only(existing, v);
        return Row(v);
      }
      if c !in certificates || certificates[c].status == Deleted || !certificates[c].enabled {
        return NoRows;
      }
      if id in versions {
        return Conflict;
      }
      var number := NextNumber(c);
      var row := Version(c, number, VersionIssuing, reason, NO_COLUMNS, now, None, None, None);
      IssuingKeepsIndexes(Db(), id, row);
      hide UniqueIndexes, MaxNumber, VersionsIn;
      versions := versions[id := row];
      CertificatesKeepIndexes(Db(), c, certificates[c].(status := StatusForReason(reason), failure := None));
      certificates := certificates[c := certificates[c].(status := StatusForReason(reason), failure := None)];
      return Row(id);
    }

    /** The subquery `coalesce((select max(version) ...), 0) + 1`. */
    method NextNumber(c: Id) returns (number: nat)
      ensures number == MaxNumber(Numbers(Db(), c)) + 1
    {
      var numbers := Numbers(Db(), c);
      if numbers == {} {
        return 1;
      }
      GreatestExists(numbers);
      var m :| m in numbers && Greatest(numbers, m);
      return m + 1;
    }

    method PrepareIssuingVersion(v: Id, privateKey: string, keyFingerprint: string) returns (reply: Reply)
      requires Valid()
      modifies this
      ensures Valid()
      ensures Outcome(Db(), reply) == DoPrepareIssuingVersion(old(Db()), v, privateKey, keyFingerprint)
    {
      if !ValidEnvelope(privateKey) {
        return Invalid;
      }
      if v !in versions || versions[v].status != VersionIssuing {
        return NoRows;
      }
      var was := versions[v].columns;
      var columns := was.(privateKey := Some(Coalesce(was.privateKey, privateKey)),
                          keyFingerprint := Some(Coalesce(was.keyFingerprint, keyFingerprint)));
      versions := versions[v := versions[v].(columns := columns)];
      return Row(v);
    }

    method StoreMaterial(v: Id, m: Material, onBehalfOf: Option<Id>, worker: Worker, now: Time) returns (reply: Reply)
      requires Valid()
      modifies this
      ensures Valid()
      ensures Outcome(Db(), reply) == DoStoreMaterial(old(Db()), v, m, onBehalfOf, worker, now)
    {
      if !ValidMaterial(m) {
        return Invalid;
      }
      if v !in versions {
        return NoRows;
      }
      if versions[v].status != VersionIssuing || !MayStore(Db(), v, onBehalfOf, worker, now) {
        return Row(v);
      }
      var c := versions[v].certificate;
      if now < m.notAfter && |UnexpiredIds(Db(), c, now) - {v}| >= 2 {
        return Conflict;
      }
      versions := versions[v :=
        versions[v].(status := VersionValid, columns := Filled(m), completedAt := Some(now), failure := None)];
      if c in certificates {
        certificates := certificates[c := certificates[c].(status := Ready, failure := None)];
      }
      return Row(v);
    }

    method RevokeCertificateVersion(c: Id, v: Id, reason: string, user: Id, now: Time) returns (reply: Reply)
      requires Valid()
      modifies this
      ensures Valid()
      ensures Outcome(Db(), reply) == DoRevokeVersion(old(Db()), c, v, reason, user, now)
    {
      if !Revocable(Db(), c, v) {
        return NoRows;
      }
      if versions[v].status == VersionRevoked {
        return Row(v);
      }
      var active := HasUsable(Db(), c, now);
      if active && certificates[c].failure.Some? {
        return Conflict;
      }
      var was := versions[v];
      versions := versions[v := was.(status := VersionRevoked,
                                     revocation := Some(Coalesce(was.revocation, Revocation(reason, now, user))),
                                     completedAt := Some(Coalesce(was.completedAt, now)))];
      certificates := certificates[c := if active then certificates[c].(status := Ready) else certificates[c]];
      return Row(v);
    }

    method DeleteCertificate(c: Id, force: bool) returns (reply: Reply)
      requires Valid()
      modifies this
      ensures Valid()
      ensures Outcome(Db(), reply) == DoDeleteCertificate(old(Db()), c, force)
    {
      if c !in certificates {
        return NoRows;
      }
      if Blockers(Db(), c) != {} {
        return Busy;
      }
      if VersionsIn(Db(), c, VersionValid) != {} && !force {
        return HasValidVersions;
      }
      var after := Cascade(Db(), c);
      certificates, versions, jobs, challenges := after.certificates, after.versions, after.jobs, after.challenges;
      return Row(c);
    }

    method EnsureIssuanceJob(id: Id, c: Id, v: Option<Id>, reason: JobReason, nextRunAt: Time, now: Time)
      returns (reply: Reply)
      requires Valid()
      modifies this
      ensures Valid()
      ensures Outcome(Db(), reply) == DoEnsureJob(old(Db()), id, c, v, reason, nextRunAt, now)
    {
      var row := Job(c, v, reason, JobPending, 1, None, nextRunAt, now, None, None, None);
      var existing := Rivals(Db(), row, {});
      if existing != {} {
        var j :| j in existing;
        Only(existing, j);
        return Row(j);
      }
      if id in jobs || c !in certificates || (v.Some? && v.value !in versions) {
        return Conflict;
      }
      NoRivals(Db(), row, id);
      PutJob(id, row);
      return Row(id);
    }

    /** Puts a job row whose key no other active row holds. */
    method PutJob(j: Id, row: Job)
      requires Valid()
      requires Active(row) ==> Rivals(Db(), row, {j}) == {} || (j in jobs && Active(jobs[j]) && SameKey(jobs[j], row))
      modifies this
      ensures Valid()
      ensures Db() == SetJob(old(Db()), j, row)
    {
      forall k | k in jobs && k != j && Active(jobs[k]) && Active(row) ensures !SameKey(row, jobs[k]) {
        if SameKey(row, jobs[k]) {
          IsRival(Db(), row, j, k);
        }
      }
      jobs := jobs[j := row];
    }

    method AttachIssuingVersionToJob(j: Id, worker: Worker, v: Id, now: Time) returns (reply: Reply)
      requires Valid()
      modifies this
      ensures Valid()
      ensures Outcome(Db(), reply) == DoAttachVersion(old(Db()), j, worker, v, now)
    {
      if j !in jobs || !LeasedTo(jobs[j], worker, now) {
        return NoRows;
      }
      var row := jobs[j].(version := Some(Coalesce(jobs[j].version, v)));
      if row.version.value !in versions || Rivals(Db(), row, {j}) != {} {
        return Conflict;
      }
      PutJob(j, row);
      return Row(j);
    }

    method ClaimNextIssuanceJob(worker: Worker, lockedUntil: Time, asked: Time, skipped: set<Id>, now: Time)
      returns (reply: Reply)
      requires Valid()
      modifies this
      ensures Valid()
      ensures Outcome(Db(), reply) == DoClaim(old(Db()), worker, lockedUntil, asked, skipped, now)
    {
      if lockedUntil <= asked {
        return Invalid;
      }
      ClaimServesFirst(Db(), worker, lockedUntil, asked, skipped, now);
      if !exists k :: k in jobs && Candidate(Db(), now, skipped, k) {
        return NoRows;
      }
      var j :| j in jobs && FirstCandidate(Db(), now, skipped, j);
      forall k | FirstCandidate(Db(), now, skipped, k) ensures k == j {
        FirstIsUnique(Db(), now, skipped, j, k);
      }
      PutJob(j, Claimed(jobs[j], worker, lockedUntil, now));
      return Row(j);
    }

    method RenewIssuanceJobLease(j: Id, worker: Worker, lockedUntil: Time, asked: Time, now: Time)
      returns (reply: Reply)
      requires Valid()
      modifies this
      ensures Valid()
      ensures Outcome(Db(), reply) == DoRenew(old(Db()), j, worker, lockedUntil, asked, now)
    {
      if lockedUntil <= asked {
        return Invalid;
      }
      if j !in jobs || !LeasedTo(jobs[j], worker, now) {
        return NoRows;
      }
      var until := jobs[j].lock.value.until;
      if until < lockedUntil {
        until := lockedUntil;
      }
      PutJob(j, jobs[j].(lock := Some(Lock(worker, until))));
      return Row(j);
    }

    method SucceedIssuanceJob(j: Id, worker: Worker, now: Time) returns (reply: Reply)
      requires Valid()
      modifies this
      ensures Valid()
      ensures Outcome(Db(), reply) == DoSucceed(old(Db()), j, worker, now)
    {
      if j !in jobs || !(LeasedTo(jobs[j], worker, now) || jobs[j].status == JobSucceeded) {
        return NoRows;
      }
      PutJob(j, jobs[j].(status := JobSucceeded, lock := None,
                         completedAt := Some(Coalesce(jobs[j].completedAt, now)), failure := None));
      return Row(j);
    }

    method FailIssuanceJob(j: Id, worker: Worker, failure: Failure, retryable: bool, maxAttempts: int, retryAfter: int,
                           asked: Time, now: Time) returns (reply: Reply)
      requires Valid()
      modifies this
      ensures Valid()
      ensures
        Outcome(Db(), reply)
        == DoFail(old(Db()), j, worker, failure, retryable, maxAttempts, retryAfter, asked, now)
    {
      if maxAttempts < 0 || retryAfter < 0 {
        return Invalid;
      }
      if j !in jobs || !(LeasedTo(jobs[j], worker, now) || jobs[j].status == JobFailed) {
        return NoRows;
      }
      var delay := retryAfter;
      if delay <= 0 {
        delay := 60;
      }
      var row := FailedRow(jobs[j], failure, retryable, maxAttempts, asked + delay, now);
      if row.status == JobPending && Rivals(Db(), row, {j}) != {} {
        return Conflict;
      }
      PutJob(j, row);
      if row.status == JobFailed && row.version.Some? {
        FailIssuingVersion(row.version.value, failure, now);
      }
      return Row(j);
    }

    /** The `version_update` and `cert_update` parts of the failing statement. */
    method FailIssuingVersion(v: Id, failure: Failure, now: Time)
      requires Valid()
      modifies this
      ensures Valid()
      ensures Db() == FailVersion(old(Db()), Some(v), failure, now)
    {
      if v !in versions || versions[v].status != VersionIssuing {
        return;
      }
      var c := versions[v].certificate;
      var usable := HasUsable(Db(), c, now);
      versions := versions[v :=
        versions[v].(status := VersionFailed, completedAt := Some(Coalesce(versions[v].completedAt, now)),
          failure := Some(failure))];
      if c in certificates {
        certificates := certificates[c := certificates[c].(status := if usable then Ready else Failed,
                                                           failure := if usable then None else Some(failure))];
      }
    }

    method RecordDNSChallenge(id: Id, key: ChallengeKey, status: ChallengeStatus, now: Time) returns (reply: Reply)
      requires Valid()
      modifies this
      ensures Valid()
      ensures Outcome(Db(), reply) == DoRecordChallenge(old(Db()), id, key, status, now)
    {
      var row := Recorded(key, status, now);
      if !RowChecks(row) {
        return Conflict;
      }
      var same := WithTxt(Db(), key);
      if same != {} {
        var r :| r in same;
        Only(same, r);
        return Row(r);
      }
      if id in challenges || key.job !in jobs || key.certificate !in certificates || key.version !in versions {
        return Conflict;
      }
      assert forall r :: r in challenges ==> r !in same;
      challenges := challenges[id := row];
      return Row(id);
    }

    method MarkDNSChallengePresented(k: Id, now: Time) returns (reply: Reply)
      requires Valid()
      modifies this
      ensures Valid()
      ensures Outcome(Db(), reply) == DoMarkPresented(old(Db()), k, now)
    {
      if k !in challenges {
        return NoRows;
      }
      challenges := challenges[k := Presented(challenges[k], now)];
      return Row(k);
    }

    method MarkDNSChallengeCleanup(k: Id, status: ChallengeStatus, failureCode: Option<string>, now: Time)
      returns (reply: Reply)
      requires Valid()
      modifies this
      ensures Valid()
      ensures Outcome(Db(), reply) == DoMarkCleanup(old(Db()), k, status, failureCode, now)
    {
      if !ValidCleanup(status, failureCode) {
        return Invalid;
      }
      if k !in challenges {
        return NoRows;
      }
      challenges := challenges[k := CleanedUp(challenges[k], status, failureCode, now)];
      return Row(k);
    }
  }
}
