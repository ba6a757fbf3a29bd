/**
  The two transactions that start issuance: `ensure` for a wanted certificate and
  `StartLifecycle` for renewal, key rotation and reissue. Each is all or nothing.
 */
module CertificateService {
  import opened Base
  import opened Issuance
  import opened Versions
  import opened Leases
  import opened CertificateRepository
  import opened Scopes

  // ----- Who may ask for what -----

  datatype Role = Viewer | CertificateReader | Manager

  datatype Application = Application(systemManaged: bool)

  // The rows read about the caller and the applications: grants of the caller, domain scopes as listed for an
  // application, and the name normaliser.
  datatype Policy = Policy(
    admin: bool,
    grants: map<Id, Role>,
    applications: map<Id, Application>,
    scopes: map<Id, seq<string>>,
    normalize: Normalizer)

  /** grantAllows. */
  predicate GrantAllows(role: Role, required: Role) {
    match required
    case Viewer => true
    case CertificateReader => role == CertificateReader || role == Manager
    case Manager => role == Manager
  }

  function ScopesOf(policy: Policy, application: Id): seq<string> {
    if application in policy.scopes then policy.scopes[application] else []
  }

  /** requireDomainCoverage: every name normalises and is covered by a scope of the application. */
  predicate NamesCovered(policy: Policy, application: Id, names: seq<string>) {
    forall i :: 0 <= i < |names| ==>
      policy.normalize(names[i]).Some? && Covered(ScopesOf(policy, application), policy.normalize(names[i]).value)
  }

  /** The tests of StartLifecycle on the caller, the application and the names of the certificate. */
  predicate Permitted(policy: Policy, db: Database, c: Id) {
    && c in db.certificates
    && var identity := db.certificates[c].identity;
       && (policy.admin
          || (identity.application in policy.grants && GrantAllows(policy.grants[identity.application], Manager)))
       && identity.application in policy.applications && !policy.applications[identity.application].systemManaged
       && NamesCovered(policy, identity.application, identity.sans)
  }

  /** Covered names are covered by the rule on labels. */
  lemma CoveredByRule(policy: Policy, application: Id, names: seq<string>, i: nat)
    requires NamesCovered(policy, application, names) && i < |names| && "*." !in ScopesOf(policy, application)
    ensures policy.normalize(names[i]).Some?
    ensures exists scope ::
      scope in ScopesOf(policy, application) && CoversByLabels(scope, policy.normalize(names[i]).value)
  {
    var name := policy.normalize(names[i]).value;
    var scopes := ScopesOf(policy, application);
    var k :| 0 <= k < |scopes| && Covers(scopes[k], name);
    CoversIsTheLabelRule(scopes[k], name);
    assert scopes[k] in scopes;
  }

  method RequireDomainCoverage(policy: Policy, application: Id, names: seq<string>) returns (ok: bool)
    ensures ok == NamesCovered(policy, application, names)
  {
    hide ScopesOf, Covered, Uncovered;
    var scopes := ScopesOf(policy, application);
    var coverage := ScopesCoverIdentifiers(policy.normalize, scopes, names);
    if coverage.None? {
      return false;
    }
    ghost var at := UncoveredExactly(scopes, coverage.value.normalized);
    ok := |coverage.value.uncovered| == 0;
    assert !ok ==> 0 < |at| && !Covered(scopes, coverage.value.normalized[at[0]]);
  }

  // ----- ensure -----

  // What a caller asks for, and what the criteria normaliser and the choice of the issuer make of it.
  datatype Criteria = Criteria(domains: seq<string>, keyType: string, issuer: string)

  datatype Wanted = Wanted(domains: seq<string>, keyType: string, issuer: Id)

  type CriteriaNormalizer = Criteria -> Option<Wanted>

  datatype EnsureReply = Accepted(certificate: Id, version: Id) | NotStarted(certificate: Id) | EnsureRefused

  // The ids the transaction draws for the rows it may insert.
  datatype Fresh = Fresh(certificate: Id, version: Id, job: Id)

  ghost function DoEnsure(db: Database, identity: Identity, ids: Fresh, now: Time): (Database, EnsureReply) {
    var a := DoCreateOrReuse(db, ids.certificate, identity, Pending);
    if !a.reply.Row? then (db, EnsureRefused)
    else if !a.db.certificates[a.reply.id].enabled
      || a.db.certificates[a.reply.id].status in {Failed, Revoked, Ready, Deleted}
    then (a.db, NotStarted(a.reply.id))
    else
      var b := DoCreateIssuingVersion(a.db, ids.version, a.reply.id, InitialIssue, now);
      if !b.reply.Row? then (db, EnsureRefused)
      else
        var d := DoEnsureJob(b.db, ids.job, a.reply.id, Some(b.reply.id), ForIssuance(InitialIssue), now, now);
        if d.reply.Row? then (d.db, Accepted(a.reply.id, b.reply.id)) else (db, EnsureRefused)
  }

  /** The identity that an application may ask for with these criteria. */
  function Identified(policy: Policy, normalizer: CriteriaNormalizer, application: Id,
      criteria: Criteria): Option<Identity> {
    match normalizer(criteria)
    case None => None
    case Some(wanted) =>
      if NamesCovered(policy, application, wanted.domains)
      then Some(Identity(application, wanted.domains, wanted.keyType, wanted.issuer))
      else None
  }

  /** The whole of ensure: the checks of the criteria and their domains, then the rows. */
  ghost function DoEnsureCriteria(db: Database, policy: Policy, normalizer: CriteriaNormalizer, application: Id,
      criteria: Criteria, ids: Fresh, now: Time): (Database, EnsureReply) {
    match Identified(policy, normalizer, application, criteria)
    case None => (db, EnsureRefused)
    case Some(identity) => DoEnsure(db, identity, ids, now)
  }

  /** Some pending or running job is for this version. */
  predicate HasActiveJob(db: Database, v: Id) {
    exists j :: j in db.jobs && Active(db.jobs[j]) && db.jobs[j].version == Some(v)
  }

  lemma EnsureJobLeavesActiveJob(db: Database, id: Id, c: Id, v: Id, reason: JobReason, at: Time, now: Time)
    requires DoEnsureJob(db, id, c, Some(v), reason, at, now).reply.Row?
    ensures var r := DoEnsureJob(db, id, c, Some(v), reason, at, now);
            && r.reply.id in r.db.jobs && Active(r.db.jobs[r.reply.id]) && r.db.jobs[r.reply.id].version == Some(v)
            && HasActiveJob(r.db, v)
  {
  }

  lemma CreateLeavesIssuing(db: Database, id: Id, c: Id, reason: IssuanceReason, now: Time)
    requires DoCreateIssuingVersion(db, id, c, reason, now).reply.Row?
    ensures var r := DoCreateIssuingVersion(db, id, c, reason, now);
            && r.reply.id in VersionsIn(r.db, c, VersionIssuing)
            && (r.reply.id in db.versions ==> r.db == db)
            && (r.db != db ==> r.reply.id == id && VersionsIn(db, c, VersionIssuing) == {}
                               && r.db.versions[id].reason == reason && c in db.certificates)
            && forall v :: v in db.versions ==> v in r.db.versions && r.db.versions[v] == db.versions[v]
  {
  }

  /** An accepted request leaves the wanted certificate with an issuing version that an active job works on. */
  lemma AcceptedIsUnderWay(db: Database, identity: Identity, ids: Fresh, now: Time)
    requires DoEnsure(db, identity, ids, now).1.Accepted?
    ensures var (after, reply) := DoEnsure(db, identity, ids, now);
            && reply.certificate in after.certificates && after.certificates[reply.certificate].identity == identity
            && reply.version in VersionsIn(after, reply.certificate, VersionIssuing)
            && HasActiveJob(after, reply.version)
  {
    var a := DoCreateOrReuse(db, ids.certificate, identity, Pending);
    var b := DoCreateIssuingVersion(a.db, ids.version, a.reply.id, InitialIssue, now);
    CreateLeavesIssuing(a.db, ids.version, a.reply.id, InitialIssue, now);
    EnsureJobLeavesActiveJob(b.db, ids.job, a.reply.id, b.reply.id, ForIssuance(InitialIssue), now, now);
  }

  /**
    A request is accepted only for names that the application's scopes all cover, and then it is under way for
    just these names.
   */
  lemma AcceptedIsCovered(db: Database, policy: Policy, normalizer: CriteriaNormalizer, application: Id,
                          criteria: Criteria, ids: Fresh, now: Time)
    requires DoEnsureCriteria(db, policy, normalizer, application, criteria, ids, now).1.Accepted?
    ensures
      var (after, reply) := DoEnsureCriteria(db, policy, normalizer, application, criteria, ids, now);
      && normalizer(criteria).Some? && reply.certificate in after.certificates
      && var identity := after.certificates[reply.certificate].identity;
         && identity.application == application && identity.sans == normalizer(criteria).value.domains
         && NamesCovered(policy, application, identity.sans)
         && reply.version in VersionsIn(after, reply.certificate, VersionIssuing) && HasActiveJob(after, reply.version)
  {
    hide DoEnsure, NamesCovered, HasActiveJob;
    AcceptedIsUnderWay(db, Identified(policy, normalizer, application, criteria).value, ids, now);
  }

  lemma CreateAgain(db: Database, id: Id, id2: Id, c: Id, reason: IssuanceReason, now: Time, later: Time)
    requires OneIssuing(db) && DoCreateIssuingVersion(db, id, c, reason, now).reply.Row?
    ensures var r := DoCreateIssuingVersion(db, id, c, reason, now);
            forall jobs ::
              DoCreateIssuingVersion(r.db.(jobs := jobs), id2, c, reason, later)
              == Outcome(r.db.(jobs := jobs), r.reply)
  {
    var r := DoCreateIssuingVersion(db, id, c, reason, now);
    CreateLeavesIssuing(db, id, c, reason, now);
    forall jobs
      ensures DoCreateIssuingVersion(r.db.(jobs := jobs), id2, c, reason, later)
              == Outcome(r.db.(jobs := jobs), r.reply)
    {
      var existing := VersionsIn(r.db.(jobs := jobs), c, VersionIssuing);
      assert r.reply.id in existing;
      assert forall v :: v in existing && v in db.versions && r.reply.id in db.versions ==> v == r.reply.id;
      assert forall v :: v in existing && r.reply.id !in db.versions ==>
        v == r.reply.id || v in VersionsIn(db, c, VersionIssuing);
      Only(existing, r.reply.id);
    }
  }

  lemma SameCertificate(db: Database, id: Id, id2: Id, identity: Identity, after: Database)
    requires OnePerIdentity(db) && DoCreateOrReuse(db, id, identity, Pending).reply.Row?
    requires var a := DoCreateOrReuse(db, id, identity, Pending);
             after.certificates.Keys == a.db.certificates.Keys
             && forall c :: c in after.certificates ==> after.certificates[c].identity == a.db.certificates[c].identity
    ensures
      DoCreateOrReuse(after, id2, identity, Pending)
      == Outcome(after, DoCreateOrReuse(db, id, identity, Pending).reply)
  {
    var a := DoCreateOrReuse(db, id, identity, Pending);
    var before := WithIdentity(db, identity);
    var same := WithIdentity(after, identity);
    assert a.reply.id in same;
    forall c | c in same ensures c == a.reply.id {
      if c in db.certificates {
        assert db.certificates[c] == a.db.certificates[c];
        assert c in before;
        assert a.reply.id in before;
      }
    }
    Only(same, a.reply.id);
  }

  lemma JobAgain(db: Database, id: Id, c: Id, v: Id, reason: JobReason, at: Time, now: Time)
    requires HasActiveJob(db, v)
    ensures var r := DoEnsureJob(db, id, c, Some(v), reason, at, now);
            r.db == db && r.reply.Row?
  {
    var j :| j in db.jobs && Active(db.jobs[j]) && db.jobs[j].version == Some(v);
    assert j in ActiveForVersion(db, v, {});
  }

  /**
    Asking again for the same certificate, with other fresh ids and at any time, changes nothing and answers the
    same.
   */
  lemma EnsureTwice(db: Database, identity: Identity, ids: Fresh, again: Fresh, now: Time, later: Time)
    requires UniqueIndexes(db) && DoEnsure(db, identity, ids, now).1.Accepted?
    ensures var (after, reply) := DoEnsure(db, identity, ids, now);
            DoEnsure(after, identity, again, later) == (after, reply)
  {
    hide DoCreateOrReuse, DoCreateIssuingVersion, DoEnsureJob, HasActiveJob;
    var (after, reply) := DoEnsure(db, identity, ids, now);
    var a := DoCreateOrReuse(db, ids.certificate, identity, Pending);
    var c := a.reply.id;
    var b := DoCreateIssuingVersion(a.db, ids.version, c, InitialIssue, now);
    CreateAgain(a.db, ids.version, again.version, c, InitialIssue, now, later);
    EnsureJobLeavesActiveJob(b.db, ids.job, c, b.reply.id, ForIssuance(InitialIssue), now, now);
    CreateKeepsIdentity(a.db, ids.version, c, InitialIssue, now);
    SameCertificate(db, ids.certificate, again.certificate, identity, after);
    ReusedExists(db, ids.certificate, identity);
    JobAgain(after, again.job, c, b.reply.id, ForIssuance(InitialIssue), later, later);
    assert after == b.db.(jobs := after.jobs);
  }

  lemma ReusedExists(db: Database, id: Id, identity: Identity)
    ensures var r := DoCreateOrReuse(db, id, identity, Pending);
            r.reply.Row? ==> r.reply.id in r.db.certificates
  {
  }

  lemma CreateKeepsIdentity(db: Database, id: Id, c: Id, reason: IssuanceReason, now: Time)
    ensures var r := DoCreateIssuingVersion(db, id, c, reason, now).db;
            && r.certificates.Keys == db.certificates.Keys
            && (forall k :: k in r.certificates ==> r.certificates[k].identity == db.certificates[k].identity)
            && (c in db.certificates ==>
                  && r.certificates[c].enabled == db.certificates[c].enabled
                  && r.certificates[c].status in {db.certificates[c].status, StatusForReason(reason)})
  {
  }

  // ----- StartLifecycle -----

  datatype StartReply = Started(version: Id) | StartRefused

  /** `GetLatestValidMaterial`: the newest usable version of a certificate that has not failed. */
  predicate LatestUsable(db: Database, c: Id, now: Time, v: Id) {
    && v in db.versions && db.versions[v].certificate == c && Usable(db.versions[v], now)
    && c in db.certificates && db.certificates[c].status !in {Failed, Deleted}
    && forall w :: w in db.versions && db.versions[w].certificate == c && Usable(db.versions[w], now)
         ==> db.versions[w].number <= db.versions[v].number
  }

  predicate HasActive(db: Database, c: Id, now: Time) {
    HasUsable(db, c, now) && c in db.certificates && db.certificates[c].status !in {Failed, Deleted}
  }

  /** `requireRenewalWindow`: the newest usable version expires within the issuer's window. */
  ghost predicate RenewalDue(db: Database, c: Id, window: int, now: Time) {
    exists v :: LatestUsable(db, c, now, v) && db.versions[v].columns.notAfter.value - window <= now
  }

  function JobReasonFor(reason: IssuanceReason): JobReason {
    match reason
    case KeyRotation => ForIssuance(KeyRotation)
    case Reissue => ForIssuance(Reissue)
    case _ => ForIssuance(Renewal)
  }

  /** The tests before anything is written. */
  ghost predicate MayStart(db: Database, policy: Policy, c: Id, reason: IssuanceReason, now: Time) {
    && Permitted(policy, db, c)
    && c in db.certificates && db.certificates[c].status != Deleted && db.certificates[c].enabled
    && (reason in {Renewal, KeyRotation} ==> HasActive(db, c, now))
    && (reason == Reissue ==>
          !HasActive(db, c, now) && VersionsIn(db, c, VersionIssuing) == {} && LatestIssuing(db, c).None?)
  }

  ghost function DoStart(db: Database, policy: Policy, c: Id, reason: IssuanceReason, window: int, ids: Fresh,
                         now: Time)
    : (Database, StartReply)
  {
    if !MayStart(db, policy, c, reason, now) then (db, StartRefused)
    else if reason == Renewal && LatestIssuing(db, c).Some? then
      var v := LatestIssuing(db, c).value;
      if v !in db.versions || db.versions[v].reason != Renewal then (db, StartRefused)
      else WithJob(db, db, c, v, JobReasonFor(Renewal), ids, now)
    else if reason == Renewal && !RenewalDue(db, c, window, now) then (db, StartRefused)
    else
      var b := DoCreateIssuingVersion(db, ids.version, c, reason, now);
      if !b.reply.Row? || b.reply.id !in b.db.versions || b.db.versions[b.reply.id].reason != reason
      then (db, StartRefused)
      else WithJob(db, b.db, c, b.reply.id, JobReasonFor(reason), ids, now)
  }

  ghost function WithJob(before: Database, db: Database, c: Id, v: Id, reason: JobReason, ids: Fresh,
      now: Time): (Database, StartReply) {
    var d := DoEnsureJob(db, ids.job, c, Some(v), reason, now, now);
    if d.reply.Row? then (d.db, Started(v)) else (before, StartRefused)
  }

  /**
    A started lifecycle leaves the certificate's one issuing version on top, for the requested reason and with
    an active job; every other version is untouched; a renewal opens a new version only when it is due.
   */
  lemma StartedIsUnderWay(db: Database, policy: Policy, c: Id, reason: IssuanceReason, window: int, ids: Fresh,
                          now: Time)
    requires Numbered(db) && DoStart(db, policy, c, reason, window, ids, now).1.Started?
    ensures var (after, reply) := DoStart(db, policy, c, reason, window, ids, now);
            var v := reply.version;
            && VersionsIn(after, c, VersionIssuing) == {v} && LatestIssuing(after, c) == Some(v)
            && after.versions[v].reason == reason && HasActiveJob(after, v)
            && (forall w :: w in db.versions ==> w in after.versions && after.versions[w] == db.versions[w])
            && (forall w :: w in after.versions && w !in db.versions ==> w == v)
            && (reason == Renewal && v !in db.versions ==> RenewalDue(db, c, window, now))
  {
    hide DoEnsureJob;
    var (after, reply) := DoStart(db, policy, c, reason, window, ids, now);
    ReadsTopVersion(db, c);
    if reason == Renewal && LatestIssuing(db, c).Some? {
      var v := LatestIssuing(db, c).value;
      EnsureJobLeavesActiveJob(db, ids.job, c, v, JobReasonFor(Renewal), now, now);
      SameVersions(db, after, c);
    } else {
      var b := DoCreateIssuingVersion(db, ids.version, c, reason, now);
      CreateLeavesIssuing(db, ids.version, c, reason, now);
      EnsureJobLeavesActiveJob(b.db, ids.job, c, b.reply.id, JobReasonFor(reason), now, now);
      var change := CreateChanges(db, ids.version, c, reason, now);
      ChangeKeepsNumbered(db, b.db, change, now);
      ReadsTopVersion(b.db, c);
      SameVersions(b.db, after, c);
    }
  }

  /**
    Only an administrator or a manager of a certificate's ordinary application starts it, and only while all
    its names are covered.
   */
  lemma StartedIsPermitted(db: Database, policy: Policy, c: Id, reason: IssuanceReason, window: int, ids: Fresh,
                           now: Time)
    ensures DoStart(db, policy, c, reason, window, ids, now).1.Started? ==>
      Permitted(policy, db, c) && db.certificates[c].enabled
    ensures !Permitted(policy, db, c) ==> DoStart(db, policy, c, reason, window, ids, now) == (db, StartRefused)
  {
  }

  /** Reading versions does not depend on the other tables. */
  lemma SameVersions(db: Database, after: Database, c: Id)
    requires after.versions == db.versions && Numbered(db)
    ensures VersionsIn(after, c, VersionIssuing) == VersionsIn(db, c, VersionIssuing)
    ensures LatestIssuing(after, c) == LatestIssuing(db, c)
  {
    forall v ensures Newest(db, c, v) <==> Newest(after, c, v) {
    }
    forall v, w | Newest(db, c, v) && Newest(db, c, w) ensures v == w {
    }
    hide Numbered, Newest;
  }

  // ----- The transactions on the repository -----

  method Ensure(repo: Repository, policy: Policy, normalizer: CriteriaNormalizer, application: Id, criteria: Criteria,
                ids: Fresh, now: Time)
    returns (reply: EnsureReply)
    requires repo.Valid()
    modifies repo
    ensures repo.Valid()
    ensures (repo.Db(), reply) == DoEnsureCriteria(old(repo.Db()), policy, normalizer, application, criteria, ids, now)
  {
    var wanted := normalizer(criteria);
    if wanted.None? {
      return EnsureRefused;
    }
    var covered := RequireDomainCoverage(policy, application, wanted.value.domains);
    if !covered {
      return EnsureRefused;
    }
    reply := EnsureRows(repo, Identity(application, wanted.value.domains, wanted.value.keyType, wanted.value.issuer),
      ids, now);
  }

  /** The rows of ensure. */
  method EnsureRows(repo: Repository, identity: Identity, ids: Fresh, now: Time) returns (reply: EnsureReply)
    requires repo.Valid()
    modifies repo
    ensures repo.Valid()
    ensures (repo.Db(), reply) == DoEnsure(old(repo.Db()), identity, ids, now)
  {
    var before := repo.Db();
    var made := repo.CreateOrReuse(ids.certificate, identity, Pending);
    if !made.Row? {
      repo.Rollback(before);
      return EnsureRefused;
    }
    var c := made.id;
    if !repo.certificates[c].enabled || repo.certificates[c].status in {Failed, Revoked, Ready, Deleted} {
      return NotStarted(c);
    }
    var issuing := repo.CreateIssuingVersion(ids.version, c, InitialIssue, now);
    if !issuing.Row? {
      repo.Rollback(before);
      return EnsureRefused;
    }
    var job := repo.EnsureIssuanceJob(ids.job, c, Some(issuing.id), ForIssuance(InitialIssue), now, now);
    if !job.Row? {
      repo.Rollback(before);
      return EnsureRefused;
    }
    return Accepted(c, issuing.id);
  }

  method StartLifecycle(repo: Repository, policy: Policy, c: Id, reason: IssuanceReason, window: int, ids: Fresh,
                        now: Time)
    returns (reply: StartReply)
    requires repo.Valid()
    modifies repo
    ensures repo.Valid()
    ensures (repo.Db(), reply) == DoStart(old(repo.Db()), policy, c, reason, window, ids, now)
  {
    var before := repo.Db();
    var allowed := CheckStart(repo, policy, c, reason, now);
    if !allowed {
      return StartRefused;
    }
    if reason == Renewal {
      var existing := ReadLatestIssuing(repo, c);
      if existing.Some? {
        if repo.versions[existing.value].reason != Renewal {
          return StartRefused;
        }
        reply := StartJob(repo, before, c, existing.value, JobReasonFor(Renewal), ids, now);
        return;
      }
      var due := CheckRenewalWindow(repo, c, window, now);
      if !due {
        return StartRefused;
      }
    }
    var issuing := repo.CreateIssuingVersion(ids.version, c, reason, now);
    CreateRowExists(before, ids.version, c, reason, now);
    if !issuing.Row? || repo.versions[issuing.id].reason != reason {
      repo.Rollback(before);
      return StartRefused;
    }
    reply := StartJob(repo, before, c, issuing.id, JobReasonFor(reason), ids, now);
  }

  lemma CreateRowExists(db: Database, id: Id, c: Id, reason: IssuanceReason, now: Time)
    ensures var r := DoCreateIssuingVersion(db, id, c, reason, now);
            r.reply.Row? ==> r.reply.id in r.db.versions
  {
  }

  method CheckStart(repo: Repository, policy: Policy, c: Id, reason: IssuanceReason, now: Time) returns (ok: bool)
    requires repo.Valid()
    ensures ok == MayStart(repo.Db(), policy, c, reason, now)
  {
    // visibleCertificate and the application.
    if c !in repo.certificates || repo.certificates[c].status == Deleted {
      return false;
    }
    var application := repo.certificates[c].identity.application;
    if !policy.admin && (application !in policy.grants || !GrantAllows(policy.grants[application], Manager)) {
      return false;
    }
    if application !in policy.applications || policy.applications[application].systemManaged {
      return false;
    }
    if !repo.certificates[c].enabled {
      return false;
    }
    var covered := RequireDomainCoverage(policy, application, repo.certificates[c].identity.sans);
    if !covered {
      return false;
    }
    var active := HasActive(repo.Db(), c, now);
    var latest := ReadLatestIssuing(repo, c);
    if reason in {Renewal, KeyRotation} && !active {
      return false;
    }
    if reason == Reissue && (active || VersionsIn(repo.Db(), c, VersionIssuing) != {} || latest.Some?) {
      return false;
    }
    return true;
  }

  /** The top row of `order by version desc limit 1`, if it is issuing. */
  method ReadLatestIssuing(repo: Repository, c: Id) returns (latest: Option<Id>)
    requires repo.Valid()
    ensures latest == LatestIssuing(repo.Db(), c)
  {
    if !exists v :: v in repo.versions && Newest(repo.Db(), c, v) {
      return None;
    }
    var v :| v in repo.versions && Newest(repo.Db(), c, v);
    assert forall w :: Newest(repo.Db(), c, w) ==> w == v;
    return if repo.versions[v].status == VersionIssuing then Some(v) else None;
  }

  method CheckRenewalWindow(repo: Repository, c: Id, window: int, now: Time) returns (due: bool)
    ensures due == RenewalDue(repo.Db(), c, window, now)
  {
    due := exists v ::
      v in repo.versions && LatestUsable(repo.Db(), c, now, v)
      && repo.versions[v].columns.notAfter.value - window <= now;
  }

  /** The last statement of the transaction: the job, or a rollback. */
  method StartJob(repo: Repository, saved: Database, c: Id, v: Id, reason: JobReason, ids: Fresh, now: Time)
    returns (reply: StartReply)
    requires repo.Valid() && UniqueIndexes(saved)
    modifies repo
    ensures repo.Valid()
    ensures (repo.Db(), reply) == WithJob(saved, old(repo.Db()), c, v, reason, ids, now)
  {
    var job := repo.EnsureIssuanceJob(ids.job, c, Some(v), reason, now, now);
    if !job.Row? {
      repo.Rollback(saved);
      return StartRefused;
    }
    return Started(v);
  }
}
