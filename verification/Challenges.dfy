/** DNS challenge records: one row moved by present, cleanup and retry statements. */
module Challenges {
  import opened Base

  datatype ChallengeStatus =
    | ChallengePending | ChallengePresented | ChallengeValidated
    | CleanupPending | CleanupFailed | Cleaned

  datatype Challenge = Challenge(
    job: Id,
    certificate: Id,
    version: Id,
    recordName: string,
    txtValue: string,
    status: ChallengeStatus,
    presentedAt: Option<Time>,
    validatedAt: Option<Time>,
    cleanedAt: Option<Time>,
    failureCode: Option<string>)

  // What a row is recorded from: `RecordDNSChallenge`.
  datatype ChallengeKey = ChallengeKey(job: Id, certificate: Id, version: Id, recordName: string, txtValue: string)

  /** The inserted row. A caller may record a challenge in any status. */
  function Recorded(key: ChallengeKey, status: ChallengeStatus, now: Time): Challenge {
    Challenge(key.job, key.certificate, key.version, key.recordName, key.txtValue, status,
              if status in {ChallengePresented, ChallengeValidated, CleanupPending} then Some(now) else None,
              if status in {ChallengeValidated, CleanupPending} then Some(now) else None,
              None, None)
  }

  /** The table's CHECK constraints on an inserted row. */
  predicate RowChecks(c: Challenge) {
    && (c.status == Cleaned <==> c.cleanedAt.Some?)
    && (c.status == CleanupFailed <==> c.failureCode.Some?)
    && (c.presentedAt.Some? || c.status == ChallengePending)
    && (c.validatedAt.Some? || c.status in {ChallengePending, ChallengePresented})
  }

  /** `MarkDNSChallengePresented`: a pending, cleaned or failed record is (re)presented, others keep their status. */
  function Presented(c: Challenge, now: Time): Challenge {
    var again := c.status in {Cleaned, CleanupFailed};
    c.(status := if again || c.status == ChallengePending then ChallengePresented else c.status,
       presentedAt := if again || c.status == ChallengePending then Some(now) else Some(Coalesce(c.presentedAt, now)),
       validatedAt := if again then None else c.validatedAt,
       cleanedAt := if again then None else c.cleanedAt,
       failureCode := if c.status == CleanupFailed then None else c.failureCode)
  }

  /** `validateMarkDNSChallengeCleanup`: a failure code goes with `cleanup_failed` and with nothing else. */
  predicate ValidCleanup(status: ChallengeStatus, failureCode: Option<string>) {
    && status in {CleanupPending, CleanupFailed, Cleaned}
    && (status == CleanupFailed <==> failureCode.Some?)
  }

  /** `MarkDNSChallengeCleanup`. */
  function CleanedUp(c: Challenge, status: ChallengeStatus, failureCode: Option<string>, now: Time): Challenge
    requires ValidCleanup(status, failureCode)
  {
    c.(status := status,
       presentedAt := Some(Coalesce(c.presentedAt, now)),
       validatedAt := Some(Coalesce(c.validatedAt, now)),
       cleanedAt := if status == Cleaned then Some(now) else None,
       failureCode := if status == CleanupFailed then failureCode else None)
  }
}
