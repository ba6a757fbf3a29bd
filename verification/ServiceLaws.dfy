/**
  Exactly when `ensure` and `StartLifecycle` accept, and what rows they then leave, told on callers, scopes and
  columns alone.
 */
module ServiceLaws {
  import opened Base
  import opened CertificateLaws
  import opened CertificateService
  import opened Issuance
  import opened JobLaws
  import opened Scopes
  import opened Versions

  // ----- Words -----

  ghost predicate SomeScopeCovers(policy: Policy, application: Id, name: string) {
    application in policy.scopes && exists scope :: scope in policy.scopes[application] && Covers(scope, name)
  }

  /** Each name normalises to one that a scope of the application covers. */
  ghost predicate AllCovered(policy: Policy, application: Id, names: seq<string>) {
    forall i :: 0 <= i < |names| ==>
      policy.normalize(names[i]).Some? && SomeScopeCovers(policy, application, policy.normalize(names[i]).value)
  }

  /** An administrator or a manager of the certificate's application, which is an ordinary one. */
  predicate Manages(policy: Policy, application: Id) {
    && (policy.admin || (application in policy.grants && policy.grants[application] == Manager))
    && application in policy.applications && policy.applications[application] == Application(false)
  }

  predicate IssuingFor(db: Database, c: Id, v: Id) {
    v in db.versions && db.versions[v].certificate == c && db.versions[v].status == VersionIssuing
  }

  /** The serving version with the greatest number ends within the window. */
  ghost predicate EndsSoon(db: Database, c: Id, window: int, now: Time) {
    exists v ::
      && v in db.versions && db.versions[v].certificate == c && Serves(db.versions[v], now)
      && (forall w :: w in db.versions && db.versions[w].certificate == c && Serves(db.versions[w], now) ==>
            db.versions[w].number <= db.versions[v].number)
      && db.versions[v].columns.notAfter.value - window <= now
  }

  /** What the reason asks of the versions: material in use or none, and nothing else under way. */
  ghost predicate Fitting(db: Database, c: Id, reason: IssuanceReason, window: int, now: Time)
    requires c in db.certificates
  {
    var inUse := AnyServes(db, c, now) && db.certificates[c].status != Failed;
    match reason
    case Renewal =>
      inUse && (forall v :: IssuingFor(db, c, v) ==> db.versions[v].reason == Renewal)
      && ((exists v :: IssuingFor(db, c, v)) || EndsSoon(db, c, window, now))
    case KeyRotation => inUse && forall v :: IssuingFor(db, c, v) ==> db.versions[v].reason == KeyRotation
    case Reissue => !inUse && forall v :: !IssuingFor(db, c, v)
    case InitialIssue => forall v :: IssuingFor(db, c, v) ==> db.versions[v].reason == InitialIssue
  }

  ghost predicate MayBegin(db: Database, policy: Policy, c: Id, reason: IssuanceReason, window: int, now: Time) {
    && c in db.certificates && db.certificates[c].status != Deleted && db.certificates[c].enabled
    && Manages(policy, db.certificates[c].identity.application)
    && AllCovered(policy, db.certificates[c].identity.application, db.certificates[c].identity.sans)
    && Fitting(db, c, reason, window, now)
  }

  // ----- StartLifecycle -----

  lemma CoveredName(policy: Policy, application: Id, name: string)
    ensures Covered(ScopesOf(policy, application), name) <==> SomeScopeCovers(policy, application, name)
  {
    var scopes := ScopesOf(policy, application);
    if Covered(scopes, name) {
      var i :| 0 <= i < |scopes| && Covers(scopes[i], name);
      assert scopes[i] in policy.scopes[application];
    }
    if application in policy.scopes {
      if scope :| scope in policy.scopes[application] && Covers(scope, name) {
        var i :| 0 <= i < |scopes| && scopes[i] == scope;
        assert Covers(scopes[i], name);
      }
    }
  }

  lemma CoveredNames(policy: Policy, application: Id, names: seq<string>)
    ensures NamesCovered(policy, application, names) <==> AllCovered(policy, application, names)
  {
    forall name ensures Covered(ScopesOf(policy, application), name) <==> SomeScopeCovers(policy, application, name) {
      CoveredName(policy, application, name);
    }
    hide Covered, ScopesOf, SomeScopeCovers;
  }

  lemma TopIsIssuing(db: Database, c: Id)
    requires Numbered(db)
    ensures LatestIssuing(db, c).Some? ==> IssuingFor(db, c, LatestIssuing(db, c).value)
    ensures forall v: Id :: IssuingFor(db, c, v) ==> LatestIssuing(db, c) == Some(v)
    ensures VersionsIn(db, c, VersionIssuing) == {} <==> LatestIssuing(db, c).None?
  {
    ReadsTopVersion(db, c);
    forall v ensures v in VersionsIn(db, c, VersionIssuing) <==> IssuingFor(db, c, v) {
    }
    hide Numbered, LatestIssuing, VersionsIn, MaxNumber;
  }

  /** The tests that StartLifecycle makes in turn come to this. */
  lemma TestsTogether(db: Database, policy: Policy, c: Id, reason: IssuanceReason, window: int, now: Time)
    requires Numbered(db)
    ensures
      MayBegin(db, policy, c, reason, window, now)
      <==>
      && MayStart(db, policy, c, reason, now)
      && (forall v :: IssuingFor(db, c, v) ==> db.versions[v].reason == reason)
      && (reason == Renewal && LatestIssuing(db, c).None? ==> RenewalDue(db, c, window, now))
  {
    hide NamesCovered, AllCovered, Numbered, LatestIssuing, HasUsable, AnyServes, RenewalDue, EndsSoon, VersionsIn,
         IssuingFor;
    if c in db.certificates {
      CoveredNames(policy, db.certificates[c].identity.application, db.certificates[c].identity.sans);
      TopIsIssuing(db, c);
      UsableServes(db, now);
      DueSoon(db, c, window, now);
    }
  }

  lemma DueSoon(db: Database, c: Id, window: int, now: Time)
    ensures
      RenewalDue(db, c, window, now)
      <==> c in db.certificates && db.certificates[c].status !in {Failed, Deleted} && EndsSoon(db, c, window, now)
  {
    forall v: Version ensures Usable(v, now) <==> Serves(v, now) {
    }
  }

  /**
    With fresh ids a lifecycle starts exactly when a manager asks, every name is covered, the certificate is
    enabled and its versions fit the reason.
   */
  lemma StartsExactly(db: Database, policy: Policy, c: Id, reason: IssuanceReason, window: int, ids: Fresh, now: Time)
    requires Numbered(db) && ids.version !in db.versions && ids.job !in db.jobs
    ensures
      DoStart(db, policy, c, reason, window, ids, now).1.Started? <==> MayBegin(db, policy, c, reason, window, now)
  {
    hide MayBegin, MayStart, Numbered, RenewalDue, DoCreateIssuingVersion, DoEnsureJob, LatestIssuing, Fitting;
    TestsTogether(db, policy, c, reason, window, now);
    if MayStart(db, policy, c, reason, now) {
      Existing(db, policy, c, reason, now);
      TopIsIssuing(db, c);
      Opened(db, ids.version, c, reason, now);
      var b := DoCreateIssuingVersion(db, ids.version, c, reason, now);
      if LatestIssuing(db, c).Some? {
        JobFound(db, ids.job, c, LatestIssuing(db, c).value, JobReasonFor(Renewal), now);
      }
      JobFound(b.db, ids.job, c, b.reply.id, JobReasonFor(reason), now);
    }
  }

  lemma Existing(db: Database, policy: Policy, c: Id, reason: IssuanceReason, now: Time)
    requires MayStart(db, policy, c, reason, now)
    ensures c in db.certificates && db.certificates[c].status != Deleted && db.certificates[c].enabled
  {
  }

  /** Opening under a fresh id answers a version: one that is issuing, or a new one for the reason. */
  lemma Opened(db: Database, id: Id, c: Id, reason: IssuanceReason, now: Time)
    requires c in db.certificates && db.certificates[c].status != Deleted && db.certificates[c].enabled
    requires id !in db.versions
    ensures
      var b := DoCreateIssuingVersion(db, id, c, reason, now);
      && b.reply.Row? && b.reply.id in b.db.versions && b.db.jobs == db.jobs && c in b.db.certificates
      && (if exists v :: IssuingFor(db, c, v) then b.db == db && IssuingFor(db, c, b.reply.id)
          else b.db.versions[b.reply.id].reason == reason)
  {
    OpensNextVersion(db, id, c, reason, now);
    assert Apply(db, CreateIssuingVersion(id, c, reason), now) == DoCreateIssuingVersion(db, id, c, reason, now);
    hide DoCreateIssuingVersion;
    assert (exists v :: IssuingFor(db, c, v)) <==>
      exists v :: v in db.versions && db.versions[v].certificate == c && db.versions[v].status == VersionIssuing by {
      if v :| v in db.versions && db.versions[v].certificate == c && db.versions[v].status == VersionIssuing {
        assert IssuingFor(db, c, v);
      }
    }
  }

  lemma JobFound(db: Database, id: Id, c: Id, v: Id, reason: JobReason, now: Time)
    requires c in db.certificates && v in db.versions && id !in db.jobs
    ensures DoEnsureJob(db, id, c, Some(v), reason, now, now).reply.Row?
  {
    EnsuredIsUnfinished(db, id, c, Some(v), reason, now, now);
    assert Apply(db, EnsureJob(id, c, Some(v), reason, now), now)
      == DoEnsureJob(db, id, c, Some(v), reason, now, now);
    hide Apply, DoEnsureJob;
  }

  /** The rows of a start: at most the new version with its certificate's status, and at most the new job. */
  ghost predicate JobAdded(before: Database, after: Database, id: Id, c: Id, v: Id, reason: IssuanceReason, now: Time) {
    after == before || after == before.(jobs := before.jobs[id :=
      Job(c, Some(v), ForIssuance(reason), JobPending, 1, None, now, now, None, None, None)])
  }

  /**
    What a started lifecycle wrote: nothing but the opening of the version, as that statement does it, and a job
    of the same reason that may run at once, unless an unfinished one was there.
   */
  lemma StartedRows(db: Database, policy: Policy, c: Id, reason: IssuanceReason, window: int, ids: Fresh, now: Time)
    requires Numbered(db) && ids.version !in db.versions && ids.job !in db.jobs && reason != InitialIssue
    requires MayBegin(db, policy, c, reason, window, now)
    ensures
      var (after, reply) := DoStart(db, policy, c, reason, window, ids, now);
      var made := Apply(db, CreateIssuingVersion(ids.version, c, reason), now);
      reply.Started? && made.reply == Row(reply.version)
      && JobAdded(made.db, after, ids.job, c, reply.version, reason, now)
  {
    hide MayBegin, MayStart, Numbered, RenewalDue, DoCreateIssuingVersion, DoEnsureJob, LatestIssuing, Fitting;
    StartsExactly(db, policy, c, reason, window, ids, now);
    TestsTogether(db, policy, c, reason, window, now);
    Existing(db, policy, c, reason, now);
    TopIsIssuing(db, c);
    Opened(db, ids.version, c, reason, now);
    var b := DoCreateIssuingVersion(db, ids.version, c, reason, now);
    JobWritten(b.db, ids.job, c, b.reply.id, JobReasonFor(reason), now);
  }

  lemma JobWritten(db: Database, id: Id, c: Id, v: Id, reason: JobReason, now: Time)
    ensures
      var r := DoEnsureJob(db, id, c, Some(v), reason, now, now);
      r.reply.Row? ==> r.db == db || r.db == db.(jobs := db.jobs[id :=
        Job(c, Some(v), reason, JobPending, 1, None, now, now, None, None, None)])
  {
    EnsuredIsUnfinished(db, id, c, Some(v), reason, now, now);
    assert Apply(db, EnsureJob(id, c, Some(v), reason, now), now)
      == DoEnsureJob(db, id, c, Some(v), reason, now, now);
    hide Apply, DoEnsureJob;
  }

  // ----- ensure -----

  ghost predicate HasIdentity(db: Database, c: Id, identity: Identity) {
    c in db.certificates && db.certificates[c].identity == identity
  }

  /** The certificate is on its way and may be issued. */
  predicate Issuable(row: Certificate) {
    row.enabled && row.status in {Pending, ValidatingDns, Issuing, Renewing, RotatingKey, Expired}
  }

  lemma IssuableStatus(row: Certificate)
    ensures Issuable(row) <==> row.enabled && row.status !in {Failed, Revoked, Ready, Deleted}
  {
    match row.status {
      case Pending =>
      case ValidatingDns =>
      case Issuing =>
      case Renewing =>
      case RotatingKey =>
      case Expired =>
      case _ =>
    }
  }

  /**
    With fresh ids a request is refused exactly when its criteria do not normalise or a name is not covered; a
    certificate of the wanted identity that is not to be issued is answered as it is; in every other case
    issuance is under way for the certificate that is there or a new one.
   */
  lemma EnsuresExactly(db: Database, policy: Policy, normalizer: CriteriaNormalizer, application: Id,
                       criteria: Criteria, ids: Fresh, now: Time)
    requires ids.certificate !in db.certificates && ids.version !in db.versions && ids.job !in db.jobs
    ensures
      var (after, reply) := DoEnsureCriteria(db, policy, normalizer, application, criteria, ids, now);
      match normalizer(criteria)
      case None => (after, reply) == (db, EnsureRefused)
      case Some(w) =>
        var identity := Identity(application, w.domains, w.keyType, w.issuer);
        if !AllCovered(policy, application, w.domains) then (after, reply) == (db, EnsureRefused)
        else
          match reply
          case EnsureRefused => false
          case NotStarted(c) => after == db && HasIdentity(db, c, identity) && !Issuable(db.certificates[c])
          case Accepted(c, v) =>
            && HasIdentity(after, c, identity) && IssuingFor(after, c, v) && HasActiveJob(after, v)
            && (if HasIdentity(db, c, identity) then Issuable(db.certificates[c])
                else c == ids.certificate && forall k :: !HasIdentity(db, k, identity))
  {
    if normalizer(criteria).Some? {
      var w := normalizer(criteria).value;
      CoveredNames(policy, application, w.domains);
      hide NamesCovered, AllCovered, DoEnsure, HasIdentity, Issuable, IssuingFor, HasActiveJob;
      EnsuredRows(db, Identity(application, w.domains, w.keyType, w.issuer), ids, now);
    }
  }

  lemma EnsuredRows(db: Database, identity: Identity, ids: Fresh, now: Time)
    requires ids.certificate !in db.certificates && ids.version !in db.versions && ids.job !in db.jobs
    ensures
      var (after, reply) := DoEnsure(db, identity, ids, now);
      match reply
      case EnsureRefused => false
      case NotStarted(c) => after == db && HasIdentity(db, c, identity) && !Issuable(db.certificates[c])
      case Accepted(c, v) =>
        && HasIdentity(after, c, identity) && IssuingFor(after, c, v) && HasActiveJob(after, v)
        && (if HasIdentity(db, c, identity) then Issuable(db.certificates[c])
            else c == ids.certificate && forall k :: !HasIdentity(db, k, identity))
  {
    hide DoCreateIssuingVersion, DoEnsureJob, HasActiveJob;
    var a := DoCreateOrReuse(db, ids.certificate, identity, Pending);
    Found(db, ids.certificate, identity, now);
    var c := a.reply.id;
    IssuableStatus(a.db.certificates[c]);
    if Issuable(a.db.certificates[c]) {
      Opened(a.db, ids.version, c, InitialIssue, now);
      var b := DoCreateIssuingVersion(a.db, ids.version, c, InitialIssue, now);
      JobFound(b.db, ids.job, c, b.reply.id, ForIssuance(InitialIssue), now);
    }
    if DoEnsure(db, identity, ids, now).1.Accepted? {
      AcceptedIsUnderWay(db, identity, ids, now);
    }
  }

  lemma Found(db: Database, id: Id, identity: Identity, now: Time)
    requires id !in db.certificates
    ensures
      var a := DoCreateOrReuse(db, id, identity, Pending);
      && a.reply.Row? && a.db.versions == db.versions && a.db.jobs == db.jobs && HasIdentity(a.db, a.reply.id, identity)
      && (if exists k :: HasIdentity(db, k, identity) then a.db == db
          else a.reply.id == id && Issuable(a.db.certificates[id]))
  {
    ReusedOrCreated(db, id, identity, Pending, now);
    assert Apply(db, CreateOrReuse(id, identity, Pending), now) == DoCreateOrReuse(db, id, identity, Pending);
    hide Apply, DoCreateOrReuse;
    assert (exists k :: HasIdentity(db, k, identity)) <==>
      exists k :: k in db.certificates && db.certificates[k].identity == identity by {
      if k :| k in db.certificates && db.certificates[k].identity == identity {
        assert HasIdentity(db, k, identity);
      }
    }
  }

  /**
    What an accepted request wrote: the certificate and the version as those statements do it, and a job for the
    initial issue that may run at once, unless an unfinished one was there.
   */
  lemma EnsuredWrites(db: Database, identity: Identity, ids: Fresh, now: Time)
    requires DoEnsure(db, identity, ids, now).1.Accepted?
    ensures
      var (after, reply) := DoEnsure(db, identity, ids, now);
      var reused := Apply(db, CreateOrReuse(ids.certificate, identity, Pending), now);
      var made := Apply(reused.db, CreateIssuingVersion(ids.version, reply.certificate, InitialIssue), now);
      && reused.reply == Row(reply.certificate) && made.reply == Row(reply.version)
      && JobAdded(made.db, after, ids.job, reply.certificate, reply.version, InitialIssue, now)
  {
    hide DoCreateIssuingVersion, DoEnsureJob, DoCreateOrReuse;
    var reply := DoEnsure(db, identity, ids, now).1;
    var a := DoCreateOrReuse(db, ids.certificate, identity, Pending);
    var b := DoCreateIssuingVersion(a.db, ids.version, a.reply.id, InitialIssue, now);
    JobWritten(b.db, ids.job, a.reply.id, b.reply.id, ForIssuance(InitialIssue), now);
  }

  /** The roles are ordered: a manager may do what a certificate reader may, who may do what a viewer may. */
  lemma RolesAreOrdered(role: Role, required: Role)
    ensures
      GrantAllows(role, required) <==>
      || role == Manager
      || (role == CertificateReader && required != Manager)
      || (role == Viewer && required == Viewer)
  {
    match role {
      case Viewer =>
      case CertificateReader =>
      case Manager =>
    }
  }
}
