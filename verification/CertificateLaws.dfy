/**
  What the statements on certificates, versions and DNS challenge records achieve, and exactly when, told on the
  columns of the rows alone.
 */
module CertificateLaws {
  import opened Base
  import opened Challenges
  import opened Issuance
  import opened JobLaws

  // ----- Certificates -----

  /**
    The row of the identity is answered, and inserted when there is none, enabled and in the asked status; the
    statuses that need more columns are refused.
   */
  lemma ReusedOrCreated(db: Database, id: Id, identity: Identity, status: CertificateStatus, now: Time)
    ensures
      var r := Apply(db, CreateOrReuse(id, identity, status), now);
      if status in {Revoked, Failed, Deleted} then r == Outcome(db, Conflict)
      else if exists c :: c in db.certificates && db.certificates[c].identity == identity then
        r.db == db && r.reply.Row? && r.reply.id in db.certificates
        && db.certificates[r.reply.id].identity == identity
      else if id in db.certificates then r == Outcome(db, Conflict)
      else r == Outcome(db.(certificates := db.certificates[id := Certificate(identity, true, status, None)]), Row(id))
  {
    forall c ensures c in WithIdentity(db, identity) <==>
      c in db.certificates && db.certificates[c].identity == identity {
    }
    hide WithIdentity;
  }

  /** The flag of the one row changes; so does its status, while it is still on its way. */
  lemma RowUpdated(db: Database, c: Id, enabled: bool, status: CertificateStatus, now: Time)
    ensures
      Apply(db, UpdateEnabled(c, enabled), now)
      == if c !in db.certificates then Outcome(db, NoRows)
         else Outcome(db.(certificates := db.certificates[c := db.certificates[c].(enabled := enabled)]), Row(c))
    ensures
      Apply(db, UpdateIssuanceStatus(c, status), now)
      == if status in {Pending, Ready, Expired, Revoked, Failed, Deleted} then Outcome(db, Invalid)
         else if c !in db.certificates || db.certificates[c].status in {Ready, Revoked, Failed, Deleted}
         then Outcome(db, NoRows)
         else Outcome(db.(certificates := db.certificates[c := db.certificates[c].(status := status)]), Row(c))
  {
  }

  /** The rows that stand in the way of a hard delete. */
  ghost predicate UnderWay(db: Database, c: Id) {
    || (exists j :: j in db.jobs && db.jobs[j].certificate == c && Unfinished(db.jobs[j]))
    || (exists v :: v in db.versions && db.versions[v].certificate == c && db.versions[v].status == VersionIssuing)
    || (exists r :: r in db.challenges && db.challenges[r].certificate == c && db.challenges[r].status != Cleaned)
  }

  ghost predicate HasValid(db: Database, c: Id) {
    exists v :: v in db.versions && db.versions[v].certificate == c && db.versions[v].status == VersionValid
  }

  /** A row goes exactly when it is of the certificate, or refers to a version or job that goes. */
  ghost predicate OnlyWithout(db: Database, after: Database, c: Id) {
    && (forall k :: k in after.certificates <==> k in db.certificates && k != c)
    && (forall k :: k in after.certificates ==> after.certificates[k] == db.certificates[k])
    && (forall v :: v in after.versions <==> v in db.versions && db.versions[v].certificate != c)
    && (forall v :: v in after.versions ==> after.versions[v] == db.versions[v])
    && (forall j :: j in after.jobs <==> j in db.jobs && db.jobs[j].certificate != c
                                         && !OfCertificate(db, db.jobs[j].version, c))
    && (forall j :: j in after.jobs ==> after.jobs[j] == db.jobs[j])
    && (forall r :: r in after.challenges <==>
          r in db.challenges && db.challenges[r].certificate != c && db.challenges[r].job in after.jobs
          && !OfCertificate(db, Some(db.challenges[r].version), c))
    && (forall r :: r in after.challenges ==> after.challenges[r] == db.challenges[r])
  }

  predicate OfCertificate(db: Database, v: Option<Id>, c: Id) {
    v.Some? && v.value in db.versions && db.versions[v.value].certificate == c
  }

  lemma DeletedWithAll(db: Database, c: Id, force: bool, now: Time)
    ensures
      var r := Apply(db, DeleteCertificate(c, force), now);
      if c !in db.certificates then r == Outcome(db, NoRows)
      else if UnderWay(db, c) then r == Outcome(db, Busy)
      else if HasValid(db, c) && !force then r == Outcome(db, HasValidVersions)
      else r.reply == Row(c) && OnlyWithout(db, r.db, c)
  {
    BlockersUnderWay(db, c);
    assert VersionsIn(db, c, VersionValid) != {} <==> HasValid(db, c) by {
      forall v ensures v in VersionsIn(db, c, VersionValid) <==>
        v in db.versions && db.versions[v].certificate == c && db.versions[v].status == VersionValid {
      }
    }
    CascadeLeaves(db, c);
    hide Cascade, Blockers, UnderWay, OnlyWithout, VersionsIn, HasValid;
  }

  lemma BlockersUnderWay(db: Database, c: Id)
    ensures Blockers(db, c) != {} <==> UnderWay(db, c)
  {
    if j :| j in db.jobs && db.jobs[j].certificate == c && Unfinished(db.jobs[j]) {
      assert j in Blockers(db, c);
    }
    if v :| v in db.versions && db.versions[v].certificate == c && db.versions[v].status == VersionIssuing {
      assert v in Blockers(db, c);
    }
    if r :| r in db.challenges && db.challenges[r].certificate == c && db.challenges[r].status != Cleaned {
      assert r in Blockers(db, c);
    }
    if x :| x in Blockers(db, c) {
      assert UnderWay(db, c);
    }
  }

  lemma CascadeLeaves(db: Database, c: Id)
    ensures OnlyWithout(db, Cascade(db, c), c)
  {
  }

  // ----- Versions -----

  const NO_MATERIAL := Columns(None, None, None, None, None, None, None, None, None, None)

  /** The next free number: above every number of the certificate, and leaving no gap. */
  ghost predicate NextFree(db: Database, c: Id, n: nat) {
    && n >= 1
    && (forall v :: v in db.versions && db.versions[v].certificate == c ==> db.versions[v].number < n)
    && (n == 1 || exists v :: v in db.versions && db.versions[v].certificate == c && db.versions[v].number == n - 1)
  }

  function StatusWhile(reason: IssuanceReason): CertificateStatus {
    if reason == Renewal then Renewing else if reason == KeyRotation then RotatingKey else Issuing
  }

  /**
    Opening answers the certificate's issuing version, or opens one with the next free number and no material;
    the certificate then shows what is under way and no failure.
   */
  lemma OpensNextVersion(db: Database, id: Id, c: Id, reason: IssuanceReason, now: Time)
    ensures
      var r := Apply(db, CreateIssuingVersion(id, c, reason), now);
      if exists v :: v in db.versions && db.versions[v].certificate == c && db.versions[v].status == VersionIssuing
      then
        r.db == db && r.reply.Row? && r.reply.id in db.versions
        && db.versions[r.reply.id].certificate == c && db.versions[r.reply.id].status == VersionIssuing
      else if c !in db.certificates || db.certificates[c].status == Deleted || !db.certificates[c].enabled
      then r == Outcome(db, NoRows)
      else if id in db.versions then r == Outcome(db, Conflict)
      else
        && r.reply == Row(id) && id in r.db.versions && NextFree(db, c, r.db.versions[id].number)
        && r.db == db.(
             versions := db.versions[id :=
               Version(c, r.db.versions[id].number, VersionIssuing, reason, NO_MATERIAL, now, None, None, None)],
             certificates := db.certificates[c :=
               db.certificates[c].(status := StatusWhile(reason), failure := None)])
  {
    assert VersionsIn(db, c, VersionIssuing) != {}
      <==> exists v :: v in db.versions && db.versions[v].certificate == c && db.versions[v].status == VersionIssuing
    by {
      forall v ensures v in VersionsIn(db, c, VersionIssuing) <==>
        v in db.versions && db.versions[v].certificate == c && db.versions[v].status == VersionIssuing {
      }
    }
    GreatestIsNext(db, c);
    hide VersionsIn, MaxNumber, Numbers, NextFree;
  }

  lemma GreatestIsNext(db: Database, c: Id)
    ensures NextFree(db, c, MaxNumber(Numbers(db, c)) + 1)
  {
    forall v | v in db.versions && db.versions[v].certificate == c
      ensures db.versions[v].number <= MaxNumber(Numbers(db, c))
    {
      assert db.versions[v].number in Numbers(db, c);
    }
  }

  /** A JSON object of at most 8192 characters without control characters. */
  predicate Enveloped(s: string) {
    && 0 < |s| <= 8192 && s[0] == '{'
    && forall c :: c in s ==> ' ' <= c <= '~' || '\U{a0}' <= c
  }

  /** The key columns of an issuing version are filled once. */
  lemma KeyKeptOnce(db: Database, v: Id, key: string, fingerprint: string, now: Time)
    ensures
      var r := Apply(db, PrepareIssuingVersion(v, key, fingerprint), now);
      if !Enveloped(key) then r == Outcome(db, Invalid)
      else if v !in db.versions || db.versions[v].status != VersionIssuing then r == Outcome(db, NoRows)
      else
        var kept := db.versions[v].columns;
        r == Outcome(db.(versions := db.versions[v := db.versions[v].(columns := kept.(
               privateKey := First(kept.privateKey, key),
               keyFingerprint := First(kept.keyFingerprint, fingerprint)))]), Row(v))
  {
    EnvelopesAgree(key);
    hide ValidEnvelope, Enveloped;
  }

  lemma EnvelopesAgree(s: string)
    ensures ValidEnvelope(s) <==> Enveloped(s)
  {
    forall c: char ensures Control(c) <==> !(' ' <= c <= '~' || '\U{a0}' <= c) {
      assert c <= '~' <==> c as int <= 0x7e;
      assert '\U{7f}' <= c <==> 0x7f <= c as int;
    }
    if ValidEnvelope(s) {
      forall c | c in s ensures ' ' <= c <= '~' || '\U{a0}' <= c {
        var i :| 0 <= i < |s| && s[i] == c;
        assert !Control(s[i]);
      }
    }
    if Enveloped(s) {
      forall i | 0 <= i < |s| ensures !Control(s[i]) {
        assert s[i] in s;
      }
    }
  }

  /** Every text present, an encrypted key and a proper period of validity. */
  predicate Storable(m: Material) {
    && "" !in {m.certPem, m.chainPem, m.fullchainPem, m.serial, m.fingerprint, m.keyFingerprint, m.etag}
    && Enveloped(m.privateKey) && m.notBefore < m.notAfter
  }

  /** Two other versions of the certificate are valid and not yet expired. */
  ghost predicate Crowded(db: Database, c: Id, v: Id, now: Time) {
    exists u, w ::
      u != w && v != u && v != w && Lasts(db, c, u, now) && Lasts(db, c, w, now)
  }

  predicate Lasts(db: Database, c: Id, v: Id, now: Time) {
    && v in db.versions && db.versions[v].certificate == c && db.versions[v].status == VersionValid
    && match db.versions[v].columns.notAfter case Some(t) => now < t case None => false
  }

  /** The store may go ahead: on nobody's behalf, or for a job of this version that the worker holds. */
  ghost predicate Entitled(db: Database, v: Id, job: Option<Id>, worker: Worker, now: Time) {
    match job
    case None => true
    case Some(j) => Held(db, j, worker, now) && db.jobs[j].version == Some(v)
  }

  lemma MaterialTested(m: Material)
    ensures ValidMaterial(m) <==> Storable(m)
  {
    EnvelopesAgree(m.privateKey);
    hide ValidEnvelope, Enveloped;
  }

  lemma EntitledTested(db: Database, v: Id, job: Option<Id>, worker: Worker, now: Time)
    ensures MayStore(db, v, job, worker, now) <==> Entitled(db, v, job, worker, now)
  {
    if job.Some? {
      HeldIsLeased(db, job.value, worker, now);
    }
    hide Held, LeasedTo;
  }

  /**
    Storing puts each text into its own column of an issuing version, makes it valid and its certificate ready;
    without an issuing version or a lease the row is answered as it is.
   */
  lemma StoresEachColumn(db: Database, v: Id, m: Material, job: Option<Id>, worker: Worker, now: Time)
    ensures
      var r := Apply(db, StoreMaterial(v, m, job, worker), now);
      if !Storable(m) then r == Outcome(db, Invalid)
      else if v !in db.versions then r == Outcome(db, NoRows)
      else if db.versions[v].status != VersionIssuing || !Entitled(db, v, job, worker, now)
      then r == Outcome(db, Row(v))
      else if now < m.notAfter && Crowded(db, db.versions[v].certificate, v, now) then r == Outcome(db, Conflict)
      else
        var c := db.versions[v].certificate;
        && r.reply == Row(v) && v in r.db.versions
        && r.db == db.(versions := r.db.versions, certificates := r.db.certificates)
        && r.db.versions == db.versions[v := r.db.versions[v]]
        && r.db.versions[v] == db.versions[v].(status := VersionValid, columns := r.db.versions[v].columns,
                                               completedAt := Some(now), failure := None)
        && Holds(r.db.versions[v].columns, m)
        && r.db.certificates
           == if c in db.certificates
              then db.certificates[c := db.certificates[c].(status := Ready, failure := None)]
              else db.certificates
  {
    hide UnexpiredIds, Crowded, ValidMaterial, Storable, MayStore, Entitled;
    if v in db.versions {
      UnexpiredCrowd(db, v, now);
    }
    MaterialTested(m);
    EntitledTested(db, v, job, worker, now);
  }

  predicate Holds(columns: Columns, m: Material) {
    && columns.certPem == Some(m.certPem) && columns.chainPem == Some(m.chainPem)
    && columns.fullchainPem == Some(m.fullchainPem) && columns.privateKey == Some(m.privateKey)
    && columns.serial == Some(m.serial) && columns.fingerprint == Some(m.fingerprint)
    && columns.keyFingerprint == Some(m.keyFingerprint) && columns.etag == Some(m.etag)
    && columns.notBefore == Some(m.notBefore) && columns.notAfter == Some(m.notAfter)
  }

  lemma UnexpiredCrowd(db: Database, v: Id, now: Time)
    requires v in db.versions
    ensures
      var c := db.versions[v].certificate;
      |UnexpiredIds(db, c, now) - {v}| >= 2 <==> Crowded(db, c, v, now)
  {
    var c := db.versions[v].certificate;
    var others := UnexpiredIds(db, c, now) - {v};
    forall u ensures u in others <==> u != v && Lasts(db, c, u, now) {
    }
    hide UnexpiredIds, Lasts;
    if |others| >= 2 {
      var u :| u in others;
      assert |others - {u}| >= 1;
      var w :| w in others - {u};
    }
    if u: Id, w: Id :| u != w && v != u && v != w && Lasts(db, c, u, now) && Lasts(db, c, w, now) {
      SubsetSize({u, w}, others);
    }
  }

  /**
    Revoking marks a valid version and keeps an earlier revocation; its certificate becomes ready when any
    version, this one included, served before, and the statement is refused when that certificate has a failure.
   */
  lemma RevokesOnce(db: Database, c: Id, v: Id, reason: string, user: Id, now: Time)
    ensures
      var r := Apply(db, RevokeVersion(c, v, reason, user), now);
      if !Revoking(db, c, v) then r == Outcome(db, NoRows)
      else if db.versions[v].status == VersionRevoked then r == Outcome(db, Row(v))
      else if AnyServes(db, c, now) && db.certificates[c].failure.Some? then r == Outcome(db, Conflict)
      else
        r == Outcome(db.(
          versions := db.versions[v := db.versions[v].(
            status := VersionRevoked,
            revocation := First(db.versions[v].revocation, Revocation(reason, now, user)),
            completedAt := First(db.versions[v].completedAt, now))],
          certificates :=
            if AnyServes(db, c, now) then db.certificates[c := db.certificates[c].(status := Ready)]
            else db.certificates), Row(v))
  {
    UsableServes(db, now);
    hide HasUsable, AnyServes;
    if c in db.certificates {
      assert db.certificates[c := db.certificates[c]] == db.certificates;
    }
  }

  /** A version of an existing certificate, valid or revoked, with all its texts. */
  predicate Revoking(db: Database, c: Id, v: Id) {
    && v in db.versions && db.versions[v].certificate == c && c in db.certificates
    && db.certificates[c].status != Deleted && db.versions[v].status in {VersionValid, VersionRevoked}
    && db.versions[v].columns.certPem.Some? && db.versions[v].columns.chainPem.Some?
    && db.versions[v].columns.fullchainPem.Some? && db.versions[v].columns.privateKey.Some?
    && db.versions[v].columns.etag.Some?
  }

  // ----- Challenge records -----

  predicate SameRecord(c: Challenge, key: ChallengeKey) {
    c.job == key.job && c.recordName == key.recordName && c.txtValue == key.txtValue
  }

  /**
    Recording answers the record of this job, name and value, or inserts one whose instants fit its status; the
    two statuses that need more columns are refused.
   */
  lemma RecordedOnce(db: Database, id: Id, key: ChallengeKey, status: ChallengeStatus, now: Time)
    ensures
      var r := Apply(db, RecordChallenge(id, key, status), now);
      if status in {CleanupFailed, Cleaned} then r == Outcome(db, Conflict)
      else if exists k :: k in db.challenges && SameRecord(db.challenges[k], key) then
        r.db == db && r.reply.Row? && r.reply.id in db.challenges && SameRecord(db.challenges[r.reply.id], key)
      else if id in db.challenges || key.job !in db.jobs || key.certificate !in db.certificates
        || key.version !in db.versions
      then r == Outcome(db, Conflict)
      else
        r == Outcome(db.(challenges := db.challenges[id :=
          Challenge(key.job, key.certificate, key.version, key.recordName, key.txtValue, status,
                    if status == ChallengePending then None else Some(now),
                    if status in {ChallengePending, ChallengePresented} then None else Some(now),
                    None, None)]), Row(id))
  {
    forall k ensures k in WithTxt(db, key) <==> k in db.challenges && SameRecord(db.challenges[k], key) {
    }
    assert WithTxt(db, key) != {} <==> exists k :: k in db.challenges && SameRecord(db.challenges[k], key);
    hide WithTxt;
  }

  /**
    Presenting starts a pending record, starts a cleaned or failed one over, and otherwise only fills a missing
    instant.
   */
  lemma PresentedOver(db: Database, k: Id, now: Time)
    ensures
      var r := Apply(db, MarkPresented(k), now);
      if k !in db.challenges then r == Outcome(db, NoRows)
      else
        var was := db.challenges[k];
        var row := match was.status
          case ChallengePending => was.(status := ChallengePresented, presentedAt := Some(now))
          case Cleaned =>
            was.(status := ChallengePresented, presentedAt := Some(now), validatedAt := None, cleanedAt := None)
          case CleanupFailed =>
            was.(status := ChallengePresented, presentedAt := Some(now), validatedAt := None, cleanedAt := None,
                 failureCode := None)
          case _ => was.(presentedAt := First(was.presentedAt, now));
        r == Outcome(db.(challenges := db.challenges[k := row]), Row(k))
  {
  }

  /**
    Cleanup moves a record to one of three statuses, with a failure code exactly for the failed one and the
    instant of cleaning exactly for the clean one, and fills the missing instants before it.
   */
  lemma CleanupMarked(db: Database, k: Id, status: ChallengeStatus, code: Option<string>, now: Time)
    ensures
      var r := Apply(db, MarkCleanup(k, status, code), now);
      if status in {ChallengePending, ChallengePresented, ChallengeValidated}
         || (status == CleanupFailed && code == None) || (status != CleanupFailed && code != None)
      then r == Outcome(db, Invalid)
      else if k !in db.challenges then r == Outcome(db, NoRows)
      else
        var was := db.challenges[k];
        var row := was.(status := status, presentedAt := First(was.presentedAt, now),
                        validatedAt := First(was.validatedAt, now),
                        cleanedAt := if status == Cleaned then Some(now) else None, failureCode := code);
        r == Outcome(db.(challenges := db.challenges[k := row]), Row(k))
  {
  }
}
