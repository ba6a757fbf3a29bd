/** What every run keeps about DNS challenge records, cleaned and presented again included. */
module ChallengeRuns {
  import opened Base
  import opened Challenges
  import opened Issuance

  predicate PastPresented(status: ChallengeStatus) {
    status in {ChallengeValidated, CleanupPending, CleanupFailed, Cleaned}
  }

  /** `a` is not after `b` where both are set. */
  predicate InOrder(a: Option<Time>, b: Option<Time>) {
    a.Some? && b.Some? ==> a.value <= b.value
  }

  /** The row's status says exactly which instants and codes are set, and the instants are in order. */
  predicate Consistent(c: Challenge, now: Time) {
    && (c.cleanedAt.Some? <==> c.status == Cleaned)
    && (c.failureCode.Some? <==> c.status == CleanupFailed)
    && (c.validatedAt.Some? <==> PastPresented(c.status))
    && (c.presentedAt.Some? <==> c.status != ChallengePending)
    && InOrder(c.presentedAt, c.validatedAt) && InOrder(c.validatedAt, c.cleanedAt)
    && InOrder(c.presentedAt, Some(now)) && InOrder(c.validatedAt, Some(now)) && InOrder(c.cleanedAt, Some(now))
  }

  /** Exactly four statuses can be recorded: the CHECK constraints refuse the two that need more columns. */
  lemma Recordable(key: ChallengeKey, status: ChallengeStatus, now: Time)
    ensures RowChecks(Recorded(key, status, now)) <==>
              status in {ChallengePending, ChallengePresented, ChallengeValidated, CleanupPending}
    ensures RowChecks(Recorded(key, status, now)) ==> Consistent(Recorded(key, status, now), now)
  {
  }

  lemma StaysConsistent(c: Challenge, earlier: Time, now: Time)
    requires Consistent(c, earlier) && earlier <= now
    ensures Consistent(c, now)
    ensures Consistent(Presented(c, now), now)
    ensures forall status, code :: ValidCleanup(status, code) ==> Consistent(CleanedUp(c, status, code, now), now)
  {
  }

  /** The row after a statement: kept, inserted, presented or cleaned up. */
  lemma StepRow(db: Database, step: Step, now: Time, r: Id)
    requires r in Apply(db, step, now).db.challenges
    ensures var after := Apply(db, step, now).db.challenges[r];
            if r in db.challenges then
              || after == db.challenges[r]
              || after == Presented(db.challenges[r], now)
              || (step.MarkCleanup? && ValidCleanup(step.cleanup, step.failureCode)
                  && after == CleanedUp(db.challenges[r], step.cleanup, step.failureCode, now))
            else
              step.RecordChallenge? && after == Recorded(step.key, step.challengeStatus, now) && RowChecks(after)
  {
    hide DoCreateOrReuse, DoUpdateEnabled, DoUpdateIssuanceStatus, DoCreateIssuingVersion, DoPrepareIssuingVersion,
         DoStoreMaterial, DoRevokeVersion, DoEnsureJob, DoAttachVersion, DoClaim, DoRenew, DoSucceed, DoFail, RowChecks;
  }

  /** In every reachable state of a run with a clock that does not go back, every record is consistent. */
  lemma {:induction false} RunKeepsConsistent(run: seq<Timed>, i: nat, r: Id, now: Time)
    requires Clocked(run) && i <= |run| && r in At(run, i).challenges
    requires i > 0 ==> run[i - 1].now <= now
    ensures Consistent(At(run, i).challenges[r], now)
  {
    hide Apply;
    if i > 0 {
      var t := run[i - 1].now;
      StepRow(At(run, i - 1), run[i - 1].step, t, r);
      if r in At(run, i - 1).challenges {
        RunKeepsConsistent(run, i - 1, r, t);
        StaysConsistent(At(run, i - 1).challenges[r], t, t);
      } else {
        Recordable(run[i - 1].step.key, run[i - 1].step.challengeStatus, t);
      }
      StaysConsistent(At(run, i).challenges[r], t, now);
    }
  }
}
