/**
  The leased job queue over whole runs: leases of one job never overlap, every guarded act happens
  inside the acting worker's own lease, attempts are accounted for, and `succeeded` is final.
 */
module Leases {
  import opened Base
  import opened Issuance

  function RowOf(db: Database, j: Id): Option<Job> {
    if j in db.jobs then Some(db.jobs[j]) else None
  }

  // ----- How one statement may change one job row -----

  /** What the table's CHECK constraints say of a row, and that nothing here cancels a job. */
  predicate Shaped(job: Job) {
    && (job.status == JobRunning <==> job.lock.Some?)
    && (Active(job) <==> job.completedAt.None?)
    && (job.status == JobFailed <==> job.failure.Some?)
    && (job.status == JobRunning ==> job.startedAt.Some?)
    && job.status != JobCanceled
    && 1 <= job.attempt
  }

  predicate ClaimedBy(step: Step, reply: Reply, j: Id) {
    step.Claim? && reply == Row(j)
  }

  /** The moves of row `j`: each statement that answers the row has its effect on it, and nothing else moves it. */
  predicate Moves(before: Option<Job>, after: Option<Job>, step: Step, reply: Reply, j: Id, now: Time) {
    if ClaimedBy(step, reply, j) then
      && before.Some? && Claimable(before.value, now)
      && after == Some(Claimed(before.value, step.worker, step.lockedUntil, now))
    else if WorkedBy(step, reply, j) then
      before.Some? && after.Some? && Worked(before.value, after.value, step, j, now)
    else
      || after == before
      || after.None?
      || (before.None? && after.value.status == JobPending && after.value.attempt == 1 && Shaped(after.value))
  }

  /** A worker's statement on the job went through. */
  predicate WorkedBy(step: Step, reply: Reply, j: Id) {
    match step
    case Renew(k, _, _, _) => k == j && reply == Row(j)
    case AttachVersion(k, _, _) => k == j && reply == Row(j)
    case Succeed(k, _) => k == j && reply == Row(j)
    case Fail(k, _, _, _, _, _, _) => k == j && reply == Row(j)
    case _ => false
  }

  /** The moves made by a worker that names the job. */
  predicate Worked(a: Job, b: Job, step: Step, j: Id, now: Time) {
    match step
    case Renew(k, worker, until, _) =>
      && k == j && LeasedTo(a, worker, now)
      && b == a.(lock := Some(Lock(worker, if a.lock.value.until < until then until else a.lock.value.until)))
    case AttachVersion(k, worker, v) =>
      k == j && LeasedTo(a, worker, now) && b == a.(version := Some(Coalesce(a.version, v)))
    case Succeed(k, worker) =>
      && k == j && (LeasedTo(a, worker, now) || a.status == JobSucceeded)
      && b == a.(status := JobSucceeded, lock := None, completedAt := Some(Coalesce(a.completedAt, now)),
        failure := None)
    case Fail(k, worker, failure, retryable, max, _, _) =>
      && k == j && (LeasedTo(a, worker, now) || a.status == JobFailed) && 0 <= max
      && b == FailedRow(a, failure, retryable, max, b.nextRunAt, now)
    case _ => false
  }

  lemma StepMoves(db: Database, step: Step, now: Time, j: Id)
    ensures Moves(RowOf(db, j), RowOf(Apply(db, step, now).db, j), step, Apply(db, step, now).reply, j, now)
  {
    hide DoCreateOrReuse, DoUpdateEnabled, DoUpdateIssuanceStatus, DoCreateIssuingVersion, DoPrepareIssuingVersion,
         DoStoreMaterial, DoRevokeVersion, DoRecordChallenge, DoMarkPresented, DoMarkCleanup, Rivals;
  }

  // ----- The ledger of a job -----

  // A half-open interval of time [from, until) that one claim gave to one worker.
  datatype Lease = Lease(worker: Worker, from: Time, until: Time)

  // `start`, `takeovers` and `requeues` count from the last insert of the row.
  datatype Ledger = Ledger(leases: seq<Lease>, start: int, takeovers: nat, requeues: nat)

  predicate Running(row: Option<Job>) {
    row.Some? && row.value.status == JobRunning
  }

  function EndLast(leases: seq<Lease>, until: Time): seq<Lease> {
    if leases == [] then [] else leases[|leases| - 1 := leases[|leases| - 1].(until := until)]
  }

  function Earlier(a: Time, b: Time): Time {
    if a < b then a else b
  }

  /**
    Keeps the books by watching the row before and after a statement. A claim opens a lease that
    ends at the row's `locked_until`; later values of `locked_until` move that end; leaving the
    running state (or the table) before that ends it then and there.
   */
  function Observe(l: Ledger, before: Option<Job>, after: Option<Job>, claimed: bool, now: Time): Ledger {
    if before.None? && after.None? then l
    else if before.None? then Ledger(l.leases, after.value.attempt, 0, 0)
    else if claimed && after.Some? && after.value.lock.Some? then
      l.(leases := l.leases + [Lease(after.value.lock.value.holder, now, after.value.lock.value.until)],
         takeovers := l.takeovers + if Running(before) then 1 else 0)
    else if Running(before) && Running(after) && after.value.lock.Some? then
      l.(leases := EndLast(l.leases, after.value.lock.value.until))
    else
      var requeued := after.Some? && before.value.status != JobPending && after.value.status == JobPending;
      l.(leases := if Running(before) && before.value.lock.Some?
        then EndLast(l.leases, Earlier(before.value.lock.value.until, now)) else l.leases,
         requeues := l.requeues + if requeued then 1 else 0)
  }

  ghost function LedgerAt(run: seq<Timed>, i: nat, j: Id): Ledger
    requires i <= |run|
  {
    if i == 0 then Ledger([], 0, 0, 0) else
      var step := run[i - 1].step;
      var outcome := Apply(At(run, i - 1), step, run[i - 1].now);
      Observe(LedgerAt(run, i - 1, j), RowOf(At(run, i - 1), j), RowOf(outcome.db, j),
        ClaimedBy(step, outcome.reply, j), run[i - 1].now)
  }

  ghost predicate Disjoint(leases: seq<Lease>) {
    forall a, b :: 0 <= a < b < |leases| ==> leases[a].until <= leases[b].from
  }

  /** The books agree with the row at time `now`. */
  ghost predicate Balanced(l: Ledger, row: Option<Job>, now: Time) {
    && Disjoint(l.leases)
    && (forall a :: 0 <= a < |l.leases| ==> l.leases[a].from <= now)
    && (row.Some? ==> Shaped(row.value) && row.value.attempt == l.start + l.takeovers + l.requeues)
    && (Running(row) ==>
          && l.leases != []
          && l.leases[|l.leases| - 1].worker == row.value.lock.value.holder
          && l.leases[|l.leases| - 1].until == row.value.lock.value.until)
    && (!Running(row) ==> forall a :: 0 <= a < |l.leases| ==> l.leases[a].until <= now)
  }

  lemma ObserveBalances(l: Ledger, before: Option<Job>, after: Option<Job>, step: Step, reply: Reply, j: Id,
                        earlier: Time, now: Time)
    requires Balanced(l, before, earlier) && earlier <= now
    requires Moves(before, after, step, reply, j, now)
    ensures Balanced(Observe(l, before, after, ClaimedBy(step, reply, j), now), after, now)
  {
  }

  lemma {:induction false} RunBalances(run: seq<Timed>, i: nat, j: Id, now: Time)
    requires Clocked(run) && i <= |run| && (i > 0 ==> run[i - 1].now <= now)
    ensures Balanced(LedgerAt(run, i, j), RowOf(At(run, i), j), now)
  {
    hide Apply, Moves, Observe;
    if i > 0 {
      var t := run[i - 1].now;
      RunBalances(run, i - 1, j, t);
      StepMoves(At(run, i - 1), run[i - 1].step, t, j);
      var outcome := Apply(At(run, i - 1), run[i - 1].step, t);
      ObserveBalances(LedgerAt(run, i - 1, j), RowOf(At(run, i - 1), j), RowOf(At(run, i), j), run[i - 1].step,
        outcome.reply, j, t, t);
      StaysBalanced(LedgerAt(run, i, j), RowOf(At(run, i), j), t, now);
    }
  }

  lemma StaysBalanced(l: Ledger, row: Option<Job>, earlier: Time, now: Time)
    requires Balanced(l, row, earlier) && earlier <= now
    ensures Balanced(l, row, now)
  {
  }

  // ----- Main results -----

  /** The leases of two different claims of one job never overlap in time. */
  lemma LeasesNeverOverlap(run: seq<Timed>, i: nat, j: Id)
    requires Clocked(run) && i <= |run|
    ensures Disjoint(LedgerAt(run, i, j).leases)
  {
    hide Apply;
    RunBalances(run, i, j, if i > 0 then run[i - 1].now else 0);
  }

  /** The step is a worker's act on a running job `j` that took effect. */
  ghost predicate ActsOn(db: Database, step: Step, now: Time, j: Id) {
    var outcome := Apply(db, step, now);
    match step
    case Renew(k, _, _, _) => k == j && outcome.reply == Row(j)
    case AttachVersion(k, _, _) => k == j && outcome.reply == Row(j)
    case Succeed(k, _) => k == j && outcome.reply == Row(j) && Running(RowOf(db, j))
    case Fail(k, _, _, _, _, _, _) => k == j && outcome.reply == Row(j) && Running(RowOf(db, j))
    case StoreMaterial(v, _, k, _) => k == Some(j) && outcome.db != db
    case _ => false
  }

  predicate Contains(lease: Lease, now: Time) {
    lease.from <= now < lease.until
  }

  lemma ActsUnderLease(db: Database, step: Step, now: Time, j: Id)
    requires ActsOn(db, step, now, j)
    ensures j in db.jobs && LeasedTo(db.jobs[j], step.worker, now)
  {
  }

  /**
    Every renew, attach, job-bound store, and succeed or fail of a running job that takes effect
    happens inside a lease of the acting worker, which is the only lease of the job at that time.
   */
  lemma ActsInsideOwnLease(run: seq<Timed>, i: nat, j: Id)
    requires Clocked(run) && i < |run|
    requires ActsOn(At(run, i), run[i].step, run[i].now, j)
    ensures var leases := LedgerAt(run, i, j).leases;
            && leases != []
            && leases[|leases| - 1].worker == run[i].step.worker
            && forall a :: 0 <= a < |leases| ==> (Contains(leases[a], run[i].now) <==> a == |leases| - 1)
  {
    hide Apply;
    ActsUnderLease(At(run, i), run[i].step, run[i].now, j);
    RunBalances(run, i, j, run[i].now);
  }

  /** The attempt counter is its starting value plus takeovers of lapsed leases plus requeuing failures. */
  lemma AttemptsAccounted(run: seq<Timed>, i: nat, j: Id)
    requires Clocked(run) && i <= |run| && j in At(run, i).jobs
    ensures var l := LedgerAt(run, i, j);
            At(run, i).jobs[j].attempt == l.start + l.takeovers + l.requeues
  {
    hide Apply;
    RunBalances(run, i, j, if i > 0 then run[i - 1].now else 0);
  }

  /** Every failure report on the job comes with the same attempt limit. */
  ghost predicate Limited(run: seq<Timed>, j: Id, max: int) {
    forall i :: 0 <= i < |run| && run[i].step.Fail? && run[i].step.job == j ==> run[i].step.maxAttempts == max
  }

  predicate Bounded(l: Ledger, max: int) {
    l.requeues == 0 || l.start + l.requeues <= max
  }

  lemma ObserveBounded(l: Ledger, before: Option<Job>, after: Option<Job>, step: Step, reply: Reply, j: Id, now: Time,
                       max: int)
    requires Balanced(l, before, now) && Moves(before, after, step, reply, j, now)
    requires 1 <= max && Bounded(l, max) && (step.Fail? && step.job == j ==> step.maxAttempts == max)
    ensures Bounded(Observe(l, before, after, ClaimedBy(step, reply, j), now), max)
  {
  }

  /** Under a fixed limit at most max(0, limit - start) requeues are ever granted, whatever the takeovers. */
  lemma {:induction false} RequeuesAreBounded(run: seq<Timed>, i: nat, j: Id, max: int)
    requires Clocked(run) && i <= |run| && 1 <= max && Limited(run, j, max)
    ensures var l := LedgerAt(run, i, j);
            l.requeues == 0 || l.start + l.requeues <= max
  {
    hide Apply, Moves, Observe, Balanced;
    if i > 0 {
      var db, step, now := At(run, i - 1), run[i - 1].step, run[i - 1].now;
      RequeuesAreBounded(run, i - 1, j, max);
      RunBalances(run, i - 1, j, now);
      StepMoves(db, step, now, j);
      ObserveBounded(LedgerAt(run, i - 1, j), RowOf(db, j), RowOf(At(run, i), j), step, Apply(db, step, now).reply, j,
        now, max);
    }
  }

  ghost predicate JobLives(run: seq<Timed>, k: nat, i: nat, j: Id)
    requires k <= i <= |run|
  {
    forall n {:trigger At(run, n)} :: k <= n <= i ==> j in At(run, n).jobs
  }

  /** A succeeded job never changes again, until it is deleted. */
  lemma {:induction false} SucceededIsFinal(run: seq<Timed>, k: nat, i: nat, j: Id)
    requires Clocked(run) && k <= i <= |run| && JobLives(run, k, i, j)
    requires At(run, k).jobs[j].status == JobSucceeded
    ensures At(run, i).jobs[j] == At(run, k).jobs[j]
    decreases i
  {
    hide Apply;
    if k < i {
      SucceededIsFinal(run, k, i - 1, j);
      RunBalances(run, i - 1, j, run[i - 1].now);
      StepMoves(At(run, i - 1), run[i - 1].step, run[i - 1].now, j);
      assert j in At(run, i - 1).jobs && j in At(run, i).jobs;
    }
  }

  // ----- One active job per key -----

  /** Two rows collide in one of the partial unique indexes on active jobs. */
  predicate SameKey(a: Job, b: Job) {
    match a.version
    case Some(v) => b.version == Some(v)
    case None => b.version == None && a.certificate == b.certificate && a.reason == b.reason
  }

  ghost predicate OneActivePerKey(db: Database) {
    forall j, k :: j in db.jobs && k in db.jobs && j != k && Active(db.jobs[j]) && Active(db.jobs[k])
      ==> !SameKey(db.jobs[j], db.jobs[k])
  }

  /** At most one row is put, and an active row takes a key that was free or already its own. */
  ghost predicate PutsJob(db: Database, after: Database, j: Id) {
    && (forall k :: k in after.jobs && k != j ==> k in db.jobs && after.jobs[k] == db.jobs[k])
    && (j in after.jobs && Active(after.jobs[j]) ==>
          || Rivals(db, after.jobs[j], {j}) == {}
          || (j in db.jobs && Active(db.jobs[j]) && SameKey(db.jobs[j], after.jobs[j])))
  }

  lemma EnsurePutsJob(db: Database, id: Id, certificate: Id, forVersion: Option<Id>, reason: JobReason, at: Time,
                      now: Time) returns (j: Id)
    ensures PutsJob(db, DoEnsureJob(db, id, certificate, forVersion, reason, at, now).db, j)
  {
    hide Rivals;
    var outcome := DoEnsureJob(db, id, certificate, forVersion, reason, at, now);
    j := if outcome.reply.Row? then outcome.reply.id else 0;
    if outcome.db != db {
      NoRivals(db, outcome.db.jobs[j], j);
    }
  }

  lemma FailPutsJob(db: Database, job: Id, worker: Worker, failure: Failure, retryable: bool, maxAttempts: int,
                    retryAfter: int, asked: Time, now: Time) returns (j: Id)
    ensures PutsJob(db, DoFail(db, job, worker, failure, retryable, maxAttempts, retryAfter, asked, now).db, j)
  {
    hide Rivals, FailVersion;
    j := job;
  }

  lemma ClaimPutsJob(db: Database, worker: Worker, until: Time, asked: Time, skipped: set<Id>, now: Time)
    returns (j: Id)
    ensures PutsJob(db, DoClaim(db, worker, until, asked, skipped, now).db, j)
  {
    hide Rivals;
    var outcome := DoClaim(db, worker, until, asked, skipped, now);
    j := if outcome.reply.Row? then outcome.reply.id else 0;
  }

  lemma AttachPutsJob(db: Database, job: Id, worker: Worker, v: Id, now: Time)
    ensures PutsJob(db, DoAttachVersion(db, job, worker, v, now).db, job)
  {
    hide Rivals;
  }

  lemma HolderPutsJob(db: Database, job: Id, worker: Worker, until: Time, asked: Time, now: Time)
    ensures PutsJob(db, DoRenew(db, job, worker, until, asked, now).db, job)
    ensures PutsJob(db, DoSucceed(db, job, worker, now).db, job)
  {
    hide Rivals;
  }

  lemma DeletePutsJob(db: Database, c: Id, force: bool)
    ensures PutsJob(db, DoDeleteCertificate(db, c, force).db, 0)
  {
    hide Rivals;
  }

  lemma StepPutsJob(db: Database, step: Step, now: Time) returns (j: Id)
    ensures PutsJob(db, Apply(db, step, now).db, j)
  {
    hide DoCreateOrReuse, DoUpdateEnabled, DoUpdateIssuanceStatus, DoCreateIssuingVersion, DoPrepareIssuingVersion,
         DoEnsureJob, DoFail, DoStoreMaterial, DoRevokeVersion, DoRecordChallenge, DoMarkPresented, DoMarkCleanup,
         DoClaim, DoAttachVersion, DoRenew, DoSucceed, DoDeleteCertificate, Rivals;
    match step
    case EnsureJob(id, c, v, reason, at) => j := EnsurePutsJob(db, id, c, v, reason, at, now);
    case Fail(k, worker, failure, retryable, max, after, asked) =>
      j := FailPutsJob(db, k, worker, failure, retryable, max, after, asked, now);
    case Claim(worker, until, asked, skipped) => j := ClaimPutsJob(db, worker, until, asked, skipped, now);
    case AttachVersion(k, worker, v) =>
      j := k;
      AttachPutsJob(db, k, worker, v, now);
    case Renew(k, worker, until, asked) =>
      j := k;
      HolderPutsJob(db, k, worker, until, asked, now);
    case Succeed(k, worker) =>
      j := k;
      HolderPutsJob(db, k, worker, 0, 0, now);
    case DeleteCertificate(c, force) =>
      j := 0;
      DeletePutsJob(db, c, force);
    case _ => j := 0;
  }

  lemma NoRivals(db: Database, row: Job, j: Id)
    requires Rivals(db, row, {}) == {}
    ensures Rivals(db, row, {j}) == {}
  {
    assert Rivals(db, row, {j}) <= Rivals(db, row, {});
  }

  lemma IsRival(db: Database, row: Job, p: Id, k: Id)
    requires k in db.jobs && k != p && Active(db.jobs[k]) && SameKey(row, db.jobs[k])
    ensures k in Rivals(db, row, {p})
  {
  }

  /** No two active jobs are for the same version, or for the same certificate and reason without a version. */
  lemma {:induction false} RunKeepsOneActivePerKey(run: seq<Timed>, i: nat)
    requires i <= |run|
    ensures OneActivePerKey(At(run, i))
  {
    hide Apply;
    if i > 0 {
      RunKeepsOneActivePerKey(run, i - 1);
      var db, after := At(run, i - 1), At(run, i);
      var p := StepPutsJob(db, run[i - 1].step, run[i - 1].now);
      forall j, k | j in after.jobs && k in after.jobs && j != k && Active(after.jobs[j]) && Active(after.jobs[k])
        ensures !SameKey(after.jobs[j], after.jobs[k])
      {
        if SameKey(after.jobs[j], after.jobs[k]) {
          if j == p { IsRival(db, after.jobs[p], p, k); }
          if k == p { IsRival(db, after.jobs[p], p, j); }
        }
      }
    }
  }
}
