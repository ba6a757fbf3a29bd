/**
  What each statement on the job queue achieves when it answers with a row, and exactly when it does so, told
  on the columns of the rows alone.
 */
module JobLaws {
  import opened Base
  import opened CertificateRepository
  import opened Issuance
  import opened Leases
  import Versions

  // ----- The words of the laws -----

  /** The worker runs the job under a lease that ends at `end`, which is still to come. */
  predicate HeldUntil(db: Database, j: Id, worker: Worker, end: Time, now: Time) {
    j in db.jobs && db.jobs[j].status == JobRunning && db.jobs[j].lock == Some(Lock(worker, end)) && now < end
  }

  ghost predicate Held(db: Database, j: Id, worker: Worker, now: Time) {
    exists end :: HeldUntil(db, j, worker, end, now)
  }

  predicate Unfinished(job: Job) {
    job.status == JobPending || job.status == JobRunning
  }

  /** Unfinished job `k` works for the same version, or without one for the same certificate and reason. */
  predicate HoldsKey(db: Database, row: Job, k: Id) {
    && k in db.jobs && Unfinished(db.jobs[k]) && db.jobs[k].version == row.version
    && (row.version == None ==> db.jobs[k].certificate == row.certificate && db.jobs[k].reason == row.reason)
  }

  ghost predicate KeyTaken(db: Database, row: Job, j: Id) {
    exists k :: k != j && HoldsKey(db, row, k)
  }

  /** A version that can be handed out at this moment. */
  predicate Serves(v: Version, now: Time) {
    && v.status == VersionValid
    && v.columns.certPem.Some? && v.columns.chainPem.Some? && v.columns.fullchainPem.Some?
    && v.columns.privateKey.Some? && v.columns.etag.Some?
    && (match v.columns.notBefore case Some(t) => t <= now case None => false)
    && (match v.columns.notAfter case Some(t) => now < t case None => false)
  }

  ghost predicate AnyServes(db: Database, c: Id, now: Time) {
    exists v :: v in db.versions && db.versions[v].certificate == c && Serves(db.versions[v], now)
  }

  predicate Waiting(job: Job, now: Time) {
    || (job.status == JobPending && job.nextRunAt <= now)
    || (job.status == JobRunning && match job.lock case Some(lock) => lock.until <= now case None => false)
  }

  predicate ComesFirst(a: Job, i: Id, b: Job, k: Id) {
    if a.nextRunAt != b.nextRunAt then a.nextRunAt < b.nextRunAt
    else if a.createdAt != b.createdAt then a.createdAt < b.createdAt
    else i < k
  }

  // ----- Leases -----

  /**
    A renewal answers exactly the worker that holds the lease, and then the lease ends at the later of its old
    end and the asked one; nothing else changes.
   */
  lemma RenewalExtends(db: Database, j: Id, worker: Worker, until: Time, asked: Time, now: Time)
    ensures
      var r := Apply(db, Renew(j, worker, until, asked), now);
      && (r.reply == Row(j) <==> asked < until && Held(db, j, worker, now))
      && (r.reply != Row(j) ==> r.db == db)
      && (r.reply == Row(j) ==>
            exists end, later ::
              && HeldUntil(db, j, worker, end, now) && HeldUntil(r.db, j, worker, later, now)
              && later >= end && later >= until && (later == end || later == until)
              && r.db == db.(jobs := db.jobs[j := db.jobs[j].(lock := Some(Lock(worker, later)))]))
  {
    if Held(db, j, worker, now) && asked < until {
      var end :| HeldUntil(db, j, worker, end, now);
      var later := if end < until then until else end;
      var after := Apply(db, Renew(j, worker, until, asked), now).db;
      assert HeldUntil(after, j, worker, later, now);
    } else if j in db.jobs && db.jobs[j].lock.Some? {
      assert asked < until ==> !HeldUntil(db, j, worker, db.jobs[j].lock.value.until, now);
    }
  }

  /** While a lease lasts no claim answers its job or touches the row. */
  lemma LeaseKeepsOthersOut(db: Database, j: Id, worker: Worker, end: Time, claim: Step, t: Time)
    requires claim.Claim? && HeldUntil(db, j, worker, end, t)
    ensures
      var r := Apply(db, claim, t);
      r.reply != Row(j) && j in r.db.jobs && r.db.jobs[j] == db.jobs[j]
  {
  }

  /** A claim needs a lease that ends later, answers the first waiting job and says so when there is none. */
  lemma ClaimTakesFirst(db: Database, worker: Worker, until: Time, asked: Time, skipped: set<Id>, now: Time)
    requires asked < until
    ensures
      var r := Apply(db, Claim(worker, until, asked, skipped), now);
      match r.reply
      case NoRows => r.db == db && forall k :: k in db.jobs && k !in skipped ==> !Waiting(db.jobs[k], now)
      case Row(j) =>
        && j in db.jobs && j !in skipped && Waiting(db.jobs[j], now)
        && (forall k :: k in db.jobs && k !in skipped && k != j && Waiting(db.jobs[k], now) ==>
              ComesFirst(db.jobs[j], j, db.jobs[k], k))
        && r.db == db.(jobs := db.jobs[j := db.jobs[j].(
             status := JobRunning,
             lock := Some(Lock(worker, until)),
             attempt := db.jobs[j].attempt + if db.jobs[j].status == JobRunning then 1 else 0,
             startedAt := First(db.jobs[j].startedAt, now),
             completedAt := None)])
      case _ => false
  {
    ClaimServesFirst(db, worker, until, asked, skipped, now);
    forall k | k in db.jobs && k !in skipped && Waiting(db.jobs[k], now) ensures Candidate(db, now, skipped, k) {}
  }

  /** Reporting success ends a job that the worker holds, or repeats what is already so; nothing else changes. */
  lemma SuccessEnds(db: Database, j: Id, worker: Worker, now: Time)
    ensures
      var r := Apply(db, Succeed(j, worker), now);
      && (r.reply == Row(j) <==> Held(db, j, worker, now) || (j in db.jobs && db.jobs[j].status == JobSucceeded))
      && (if r.reply == Row(j) then
            r.db == db.(jobs := db.jobs[j := db.jobs[j].(
              status := JobSucceeded,
              lock := None,
              completedAt := First(db.jobs[j].completedAt, now),
              failure := None)])
          else r == Outcome(db, NoRows))
  {
    HeldIsLeased(db, j, worker, now);
  }

  lemma HeldIsLeased(db: Database, j: Id, worker: Worker, now: Time)
    ensures Held(db, j, worker, now) <==> j in db.jobs && LeasedTo(db.jobs[j], worker, now)
  {
    if j in db.jobs && LeasedTo(db.jobs[j], worker, now) {
      assert HeldUntil(db, j, worker, db.jobs[j].lock.value.until, now);
    }
  }

  lemma RivalsTakeKey(db: Database, row: Job, j: Id)
    ensures Rivals(db, row, {j}) != {} <==> KeyTaken(db, row, j)
  {
    if KeyTaken(db, row, j) {
      var k :| k != j && HoldsKey(db, row, k);
      assert k in Rivals(db, row, {j});
    } else {
      forall k ensures k !in Rivals(db, row, {j}) {
        assert k == j || !HoldsKey(db, row, k);
      }
    }
  }

  /**
    Attaching gives the job its version once: a version it has stays. It goes through exactly for the worker that
    holds the job, with an existing version that no other unfinished job works for.
   */
  lemma AttachGivesVersion(db: Database, j: Id, worker: Worker, v: Id, now: Time)
    ensures
      var r := Apply(db, AttachVersion(j, worker, v), now);
      && (r.reply == NoRows <==> !Held(db, j, worker, now))
      && (r.reply != NoRows ==>
            var row := db.jobs[j].(version := First(db.jobs[j].version, v));
            if row.version.value in db.versions && !KeyTaken(db, row, j)
            then r == Outcome(db.(jobs := db.jobs[j := row]), Row(j))
            else r == Outcome(db, Conflict))
      && (r.reply == NoRows ==> r.db == db)
  {
    HeldIsLeased(db, j, worker, now);
    if j in db.jobs {
      RivalsTakeKey(db, db.jobs[j].(version := First(db.jobs[j].version, v)), j);
    }
  }

  /**
    Ensuring a job answers the unfinished job of its key, or inserts one that waits until the asked time; it is
    refused exactly when there is no such job and the id is taken or certificate or version do not exist.
   */
  lemma EnsuredIsUnfinished(db: Database, id: Id, c: Id, v: Option<Id>, reason: JobReason, at: Time, now: Time)
    ensures
      var r := Apply(db, EnsureJob(id, c, v, reason, at), now);
      var row := Job(c, v, reason, JobPending, 1, None, at, now, None, None, None);
      if exists k :: HoldsKey(db, row, k) then
        r.db == db && r.reply.Row? && HoldsKey(db, row, r.reply.id)
      else if id in db.jobs || c !in db.certificates || (v.Some? && v.value !in db.versions) then
        r == Outcome(db, Conflict)
      else
        r == Outcome(db.(jobs := db.jobs[id := row]), Row(id)) && HoldsKey(r.db, row, id)
  {
    var row := Job(c, v, reason, JobPending, 1, None, at, now, None, None, None);
    forall k ensures k in Rivals(db, row, {}) <==> HoldsKey(db, row, k) {
    }
    assert Rivals(db, row, {}) != {} <==> exists k :: HoldsKey(db, row, k);
    hide Rivals;
  }

  // ----- Failures -----

  /** A failure is tried again while it is retryable and under the limit, 0 meaning no limit. */
  predicate TriedAgain(job: Job, retryable: bool, max: int) {
    retryable && (max == 0 || job.attempt < max)
  }

  /**
    A reported failure of a held, or already failed, job: a job to be tried again waits for the asked delay, a
    minute when none is asked, with its attempt counted, unless its key was taken meanwhile. Otherwise it ends.
   */
  lemma FailureMovesJob(db: Database, j: Id, worker: Worker, failure: Failure, retryable: bool, max: int, delay: int,
                        asked: Time, now: Time)
    ensures
      var r := Apply(db, Fail(j, worker, failure, retryable, max, delay, asked), now);
      && (r.reply == Invalid <==> max < 0 || delay < 0)
      && (r.reply != Invalid ==>
            (r.reply == NoRows <==>
              !Held(db, j, worker, now) && !(j in db.jobs && db.jobs[j].status == JobFailed)))
      && (r.reply !in {Invalid, NoRows} ==>
            var job := db.jobs[j];
            if TriedAgain(job, retryable, max) then
              var again := job.(status := JobPending, attempt := job.attempt + 1, lock := None,
                                nextRunAt := asked + if delay == 0 then 60 else delay, completedAt := None,
                                failure := None);
              r == if KeyTaken(db, again, j) then Outcome(db, Conflict)
                   else Outcome(db.(jobs := db.jobs[j := again]), Row(j))
            else
              r.reply == Row(j) && r.db.jobs == db.jobs[j := job.(
                status := JobFailed,
                lock := None,
                completedAt := First(job.completedAt, now),
                failure := Some(failure))])
      && (r.reply in {Invalid, NoRows} ==> r.db == db)
  {
    HeldIsLeased(db, j, worker, now);
    if j in db.jobs {
      var job := db.jobs[j];
      RivalsTakeKey(db, job.(status := JobPending, attempt := job.attempt + 1, lock := None,
                             nextRunAt := asked + if delay == 0 then 60 else delay, completedAt := None,
                             failure := None), j);
    }
    hide Rivals, HasUsable, KeyTaken;
  }

  /**
    A failure that ends the job takes its issuing version along, and the certificate becomes ready when another
    version still serves, failed otherwise. No other row of the three tables changes.
   */
  lemma FailureEndsVersion(db: Database, j: Id, worker: Worker, failure: Failure, retryable: bool, max: int,
                           delay: int, asked: Time, now: Time)
    requires Apply(db, Fail(j, worker, failure, retryable, max, delay, asked), now).reply == Row(j)
    requires !TriedAgain(db.jobs[j], retryable, max)
    ensures
      var after := Apply(db, Fail(j, worker, failure, retryable, max, delay, asked), now).db;
      match db.jobs[j].version
      case None => after == db.(jobs := after.jobs)
      case Some(v) =>
        if v !in db.versions || db.versions[v].status != VersionIssuing then after == db.(jobs := after.jobs)
        else
          var c := db.versions[v].certificate;
          && after.challenges == db.challenges
          && after.versions == db.versions[v := db.versions[v].(
               status := VersionFailed,
               completedAt := First(db.versions[v].completedAt, now),
               failure := Some(failure))]
          && after.certificates
             == if c !in db.certificates then db.certificates
                else if AnyServes(db, c, now) then
                  db.certificates[c := db.certificates[c].(status := Ready, failure := None)]
                else db.certificates[c := db.certificates[c].(status := Failed, failure := Some(failure))]
  {
    hide Rivals;
    UsableServes(db, now);
    UsableServes(db.(jobs := Apply(db, Fail(j, worker, failure, retryable, max, delay, asked), now).db.jobs), now);
  }

  lemma UsableServes(db: Database, now: Time)
    ensures forall c :: HasUsable(db, c, now) <==> AnyServes(db, c, now)
  {
    forall v: Version ensures Usable(v, now) <==> Serves(v, now) {
    }
    hide Usable, Serves;
  }

  // ----- Over whole runs -----

  /** The job runs for the worker, under a lease that ends at `end` or later. */
  predicate RunsFor(db: Database, j: Id, worker: Worker, end: Time) {
    && j in db.jobs && db.jobs[j].status == JobRunning
    && match db.jobs[j].lock case Some(lock) => lock.holder == worker && end <= lock.until case None => false
  }

  /** A worker reports the end of the job, or the job's row is deleted. */
  predicate Ends(db: Database, step: Step, outcome: Outcome, j: Id) {
    ((step.Succeed? || step.Fail?) && outcome.reply == Row(j)) || j !in outcome.db.jobs
  }

  lemma StaysHeld(db: Database, step: Step, now: Time, j: Id, worker: Worker, end: Time)
    requires RunsFor(db, j, worker, end) && now < end && !Ends(db, step, Apply(db, step, now), j)
    ensures RunsFor(Apply(db, step, now).db, j, worker, end) && !ClaimedBy(step, Apply(db, step, now).reply, j)
  {
    StepMoves(db, step, now, j);
    match step
    case Succeed(k, w) => SuccessEnds(db, k, w, now);
    case Fail(k, w, failure, retryable, max, delay, asked) =>
      FailureMovesJob(db, k, w, failure, retryable, max, delay, asked, now);
      hide Apply;
    case _ => hide Apply;
  }

  lemma {:induction false} StaysHeldOn(run: seq<Timed>, i: nat, k: nat, j: Id, worker: Worker, end: Time)
    requires i <= k <= |run| && RunsFor(At(run, i), j, worker, end)
    requires forall m {:trigger At(run, m)} :: i <= m < k ==>
      run[m].now < end && !Ends(At(run, m), run[m].step, Apply(At(run, m), run[m].step, run[m].now), j)
    ensures RunsFor(At(run, k), j, worker, end)
  {
    hide Apply, Ends, RunsFor;
    if i < k {
      var m: nat := k - 1;
      StaysHeldOn(run, i, m, j, worker, end);
      assert !Ends(At(run, m), run[m].step, Apply(At(run, m), run[m].step, run[m].now), j) && run[m].now < end;
      StaysHeld(At(run, m), run[m].step, run[m].now, j, worker, end);
      Versions.AtNext(run, m);
    }
  }

  lemma RenewedRuns(db: Database, j: Id, worker: Worker, first: Time, until: Time, asked: Time, now: Time)
    requires HeldUntil(db, j, worker, first, now) && Apply(db, Renew(j, worker, until, asked), now).reply == Row(j)
    ensures
      RunsFor(Apply(db, Renew(j, worker, until, asked), now).db, j, worker, if first < until then until else first)
  {
    RenewalExtends(db, j, worker, until, asked, now);
    hide Apply;
  }

  lemma RunsKeepsOut(db: Database, j: Id, worker: Worker, end: Time, claim: Step, t: Time)
    requires claim.Claim? && RunsFor(db, j, worker, end) && t < end
    ensures Apply(db, claim, t).reply != Row(j)
  {
    LeaseKeepsOthersOut(db, j, worker, db.jobs[j].lock.value.until, claim, t);
  }

  /**
    A renewal that answers its job keeps every other worker out: in any clocked run, up to the later of the first
    end and the asked one, no claim answers the job unless its end was reported or its row was deleted before.
   */
  lemma RenewalKeepsOthersOut(run: seq<Timed>, i: nat, k: nat, j: Id, worker: Worker, first: Time, until: Time,
                              asked: Time)
    requires Clocked(run) && i < k < |run| && HeldUntil(At(run, i), j, worker, first, run[i].now)
    requires run[i].step == Renew(j, worker, until, asked)
    requires Apply(At(run, i), run[i].step, run[i].now).reply == Row(j)
    requires run[k].now < first || run[k].now < until
    requires forall m {:trigger At(run, m)} :: i < m < k ==>
      !Ends(At(run, m), run[m].step, Apply(At(run, m), run[m].step, run[m].now), j)
    ensures run[k].step.Claim? ==> Apply(At(run, k), run[k].step, run[k].now).reply != Row(j)
  {
    hide Apply, Ends, At, RunsFor;
    var end := if first < until then until else first;
    RenewedRuns(At(run, i), j, worker, first, until, asked, run[i].now);
    Versions.AtNext(run, i);
    StaysHeldOn(run, i + 1, k, j, worker, end);
    if run[k].step.Claim? {
      RunsKeepsOut(At(run, k), j, worker, end, run[k].step, run[k].now);
    }
  }
}
