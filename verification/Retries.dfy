/**
  Statements sent again after their answer was lost: which of them may be repeated without changing
  a row, and what the second answer says.
 */
module Retries {
  import opened Base
  import opened CertificateRepository
  import opened Challenges
  import opened Issuance
  import opened Leases

  /** The same call once more, with another fresh id and at another time of the caller's own clock. */
  predicate Repeats(first: Step, again: Step) {
    match first
    case CreateOrReuse(_, identity, status) =>
      again.CreateOrReuse? && again == CreateOrReuse(again.id, identity, status)
    case CreateIssuingVersion(_, c, reason) =>
      again.CreateIssuingVersion? && again == CreateIssuingVersion(again.id, c, reason)
    case EnsureJob(_, c, v, reason, at) =>
      again.EnsureJob? && again == EnsureJob(again.id, c, v, reason, at)
    case RecordChallenge(_, key, status) =>
      again.RecordChallenge? && again == RecordChallenge(again.id, key, status)
    case Renew(j, worker, until, asked) =>
      again.Renew? && again == Renew(j, worker, until, again.asked)
    case Fail(j, worker, failure, retryable, max, after, asked) =>
      again.Fail? && again == Fail(j, worker, failure, retryable, max, after, again.asked)
    case _ => again == first
  }

  /** The two statements that do something new when they are repeated. */
  predicate Advances(step: Step) {
    step.Claim? || (step.MarkCleanup? && step.cleanup == Cleaned)
  }

  /** How the second answer may differ: the row is gone, the lease has ended or the job was requeued. */
  predicate AnswersAgain(step: Step, x: Id, reply: Reply) {
    match reply
    case Row(y) => y == x
    case NoRows => step.DeleteCertificate? || step.AttachVersion? || step.Renew? || step.Fail?
    case Invalid => step.Renew?
    case _ => false
  }

  /** The second call changes nothing and answers as above. */
  ghost predicate Harmless(db: Database, first: Step, again: Step, now: Time, later: Time)
    requires Apply(db, first, now).reply.Row?
  {
    var once := Apply(db, first, now);
    var twice := Apply(once.db, again, later);
    twice.db == once.db && AnswersAgain(first, once.reply.id, twice.reply)
  }

  lemma ReuseAgain(db: Database, first: Step, again: Step, now: Time, later: Time)
    requires OnePerIdentity(db) && Repeats(first, again) && Apply(db, first, now).reply.Row?
    requires first.CreateOrReuse?
    ensures Harmless(db, first, again, now, later)
  {
    var once := Apply(db, first, now);
    assert WithIdentity(once.db, first.identity) == {once.reply.id};
  }

  lemma CertificateAgain(db: Database, first: Step, again: Step, now: Time, later: Time)
    requires Repeats(first, again) && Apply(db, first, now).reply.Row?
    requires first.UpdateEnabled? || first.UpdateIssuanceStatus? || first.DeleteCertificate?
    ensures Harmless(db, first, again, now, later)
  {
    if !first.DeleteCertificate? {
      var once := Apply(db, first, now);
      assert Apply(once.db, again, later).db.certificates == once.db.certificates;
    }
  }

  lemma OpenAgain(db: Database, first: Step, again: Step, now: Time, later: Time)
    requires OneIssuing(db) && Repeats(first, again) && Apply(db, first, now).reply.Row?
    requires first.CreateIssuingVersion?
    ensures Harmless(db, first, again, now, later)
  {
    var once := Apply(db, first, now);
    assert VersionsIn(once.db, first.certificate, VersionIssuing) == {once.reply.id};
  }

  lemma PrepareAgain(db: Database, first: Step, again: Step, now: Time, later: Time)
    requires Repeats(first, again) && Apply(db, first, now).reply.Row?
    requires first.PrepareIssuingVersion?
    ensures Harmless(db, first, again, now, later)
  {
    var once := Apply(db, first, now);
    assert Apply(once.db, again, later).db.versions == once.db.versions;
  }

  lemma StoreAgain(db: Database, first: Step, again: Step, now: Time, later: Time)
    requires Repeats(first, again) && Apply(db, first, now).reply.Row? && now <= later
    requires first.StoreMaterial?
    ensures Harmless(db, first, again, now, later)
  {
    hide ValidMaterial, UnexpiredIds;
    var v := first.version;
    var once := Apply(db, first, now).db;
    if db.versions[v].status == VersionIssuing && MayStore(db, v, first.onBehalfOf, first.worker, now) {
      assert once.versions[v].status == VersionValid;
    } else {
      assert once == db;
    }
  }

  lemma RevokeAgain(db: Database, first: Step, again: Step, now: Time, later: Time)
    requires Repeats(first, again) && Apply(db, first, now).reply.Row?
    requires first.RevokeVersion?
    ensures Harmless(db, first, again, now, later)
  {
  }

  lemma EnsureAgain(db: Database, first: Step, again: Step, now: Time, later: Time)
    requires OneActivePerKey(db) && Repeats(first, again) && Apply(db, first, now).reply.Row?
    requires first.EnsureJob?
    ensures Harmless(db, first, again, now, later)
  {
    var once := Apply(db, first, now);
    var row := Job(first.certificate, first.forVersion, first.jobReason, JobPending, 1, None, first.nextRunAt, later,
                   None, None, None);
    assert Rivals(once.db, row, {}) == {once.reply.id};
  }

  lemma AttachAgain(db: Database, first: Step, again: Step, now: Time, later: Time)
    requires Repeats(first, again) && Apply(db, first, now).reply.Row?
    requires first.AttachVersion?
    ensures Harmless(db, first, again, now, later)
  {
    var once := Apply(db, first, now);
    var row := once.db.jobs[first.job];
    if LeasedTo(row, first.worker, later) {
      assert Rivals(once.db, row, {first.job}) == Rivals(db, row, {first.job}) == {};
      assert SetJob(once.db, first.job, row) == once.db;
    }
  }

  lemma LeaseAgain(db: Database, first: Step, again: Step, now: Time, later: Time)
    requires Repeats(first, again) && Apply(db, first, now).reply.Row?
    requires first.Renew? || first.Succeed?
    ensures Harmless(db, first, again, now, later)
  {
    var once := Apply(db, first, now);
    assert Apply(once.db, again, later).db.jobs == once.db.jobs;
  }

  lemma FailAgain(db: Database, first: Step, again: Step, now: Time, later: Time)
    requires Repeats(first, again) && Apply(db, first, now).reply.Row?
    requires first.Fail?
    ensures Harmless(db, first, again, now, later)
  {
    var once := Apply(db, first, now);
    assert Apply(once.db, again, later).db.jobs == once.db.jobs;
  }

  lemma RecordAgain(db: Database, first: Step, again: Step, now: Time, later: Time)
    requires OnePerTxt(db) && Repeats(first, again) && Apply(db, first, now).reply.Row?
    requires first.RecordChallenge?
    ensures Harmless(db, first, again, now, later)
  {
    var once := Apply(db, first, now);
    assert WithTxt(once.db, first.key) == {once.reply.id};
  }

  lemma MarkAgain(db: Database, first: Step, again: Step, now: Time, later: Time)
    requires Repeats(first, again) && Apply(db, first, now).reply.Row?
    requires (first.MarkPresented? || first.MarkCleanup?) && !Advances(first)
    ensures Harmless(db, first, again, now, later)
  {
    var once := Apply(db, first, now);
    assert Apply(once.db, again, later).db.challenges == once.db.challenges;
  }

  /**
    A caller that lost the answer may send any statement again, except the two that advance: no row
    changes, and the second answer is the first or says that the lease, the certificate or the
    running job is gone.
   */
  lemma RetryIsSafe(db: Database, first: Step, again: Step, now: Time, later: Time)
    requires UniqueIndexes(db) && Repeats(first, again) && Apply(db, first, now).reply.Row? && now <= later
    requires !Advances(first)
    ensures var once := Apply(db, first, now);
            var twice := Apply(once.db, again, later);
            twice.db == once.db && AnswersAgain(first, once.reply.id, twice.reply)
  {
    hide Apply, AnswersAgain;
    match first
    case CreateOrReuse(_, _, _) => ReuseAgain(db, first, again, now, later);
    case CreateIssuingVersion(_, _, _) => OpenAgain(db, first, again, now, later);
    case PrepareIssuingVersion(_, _, _) => PrepareAgain(db, first, again, now, later);
    case StoreMaterial(_, _, _, _) => StoreAgain(db, first, again, now, later);
    case RevokeVersion(_, _, _, _) => RevokeAgain(db, first, again, now, later);
    case EnsureJob(_, _, _, _, _) => EnsureAgain(db, first, again, now, later);
    case AttachVersion(_, _, _) => AttachAgain(db, first, again, now, later);
    case Renew(_, _, _, _) => LeaseAgain(db, first, again, now, later);
    case Succeed(_, _) => LeaseAgain(db, first, again, now, later);
    case Fail(_, _, _, _, _, _, _) => FailAgain(db, first, again, now, later);
    case RecordChallenge(_, _, _) => RecordAgain(db, first, again, now, later);
    case MarkPresented(_) => MarkAgain(db, first, again, now, later);
    case MarkCleanup(_, _, _) => MarkAgain(db, first, again, now, later);
    case _ => CertificateAgain(db, first, again, now, later);
  }

  /** A claim sent again gets another job or none while the first lease holds, so the first job waits for its end. */
  lemma SecondClaimIsAnother(db: Database, first: Step, again: Step, now: Time, later: Time)
    requires first.Claim? && again.Claim? && Apply(db, first, now).reply.Row? && later < first.lockedUntil
    ensures Apply(Apply(db, first, now).db, again, later).reply != Apply(db, first, now).reply
  {
    var once := Apply(db, first, now);
    assert !Claimable(once.db.jobs[once.reply.id], later);
  }

  /** Marking a record cleaned once more moves `cleaned_at` to the later time, and nothing else. */
  lemma CleanedAgainMovesTime(db: Database, first: Step, now: Time, later: Time)
    requires first.MarkCleanup? && first.cleanup == Cleaned && Apply(db, first, now).reply.Row?
    ensures var once := Apply(db, first, now).db;
            var k := first.challenge;
            Apply(once, first, later)
            == Outcome(once.(challenges := once.challenges[k := once.challenges[k].(cleanedAt := Some(later))]), Row(k))
  {
    var once := Apply(db, first, now).db;
    var k := first.challenge;
    assert Apply(once, first, later).db.challenges
        == once.challenges[k := once.challenges[k].(cleanedAt := Some(later))];
  }
}
