/**
  What every run keeps about certificate versions: their numbering, the single issuing version
  at the top, the status moves, what can be downloaded and what `ready` promises.
 */
module Versions {
  import opened Base
  import opened Issuance

  // ----- How one statement may change the version table -----

  datatype VersionChange =
    | Same
    | Opened(id: Id, row: Version)
    | Moved(id: Id, row: Version)
    | Dropped(certificate: Id)

  predicate StatusMove(a: VersionStatus, b: VersionStatus) {
    || a == b
    || (a == VersionIssuing && b == VersionValid)
    || (a == VersionIssuing && b == VersionFailed)
    || (a == VersionValid && b == VersionRevoked)
  }

  /** A required column holds a non-empty string. */
  predicate Present(column: Option<string>) {
    column.Some? && column.value != ""
  }

  /** `versionDownloadable` of service.go. */
  predicate Downloadable(v: Version) {
    && v.status in {VersionValid, VersionRevoked}
    && Present(v.columns.certPem) && Present(v.columns.chainPem) && Present(v.columns.fullchainPem)
    && Present(v.columns.privateKey) && Present(v.columns.serial) && Present(v.columns.fingerprint)
    && Present(v.columns.keyFingerprint) && Present(v.columns.etag)
    && v.columns.notBefore.Some? && v.columns.notAfter.Some?
  }

  ghost predicate Changes(db: Database, after: Database, change: VersionChange, now: Time) {
    match change
    case Same => after.versions == db.versions
    case Opened(v, row) =>
      && v !in db.versions && after.versions == db.versions[v := row]
      && row.status == VersionIssuing
      && row.number == MaxNumber(Numbers(db, row.certificate)) + 1
      && VersionsIn(db, row.certificate, VersionIssuing) == {}
    case Moved(v, row) =>
      && v in db.versions && after.versions == db.versions[v := row]
      && row.certificate == db.versions[v].certificate && row.number == db.versions[v].number
      && StatusMove(db.versions[v].status, row.status)
      && (db.versions[v].status != VersionIssuing ==> row.columns == db.versions[v].columns)
      && (row.status == VersionValid ==>
            Downloadable(row) && (Unexpired(row, now) ==> |UnexpiredIds(db, row.certificate, now) - {v}| <= 1))
      && (row.status == VersionRevoked ==> db.versions[v].status in {VersionValid, VersionRevoked})
    case Dropped(c) =>
      && after.versions == (map v | v in db.versions && db.versions[v].certificate != c :: db.versions[v])
      && c !in after.certificates
  }

  lemma CreateChanges(db: Database, id: Id, c: Id, reason: IssuanceReason, now: Time) returns (change: VersionChange)
    ensures Changes(db, DoCreateIssuingVersion(db, id, c, reason, now).db, change, now)
  {
    var after := DoCreateIssuingVersion(db, id, c, reason, now);
    change := if after.db == db then Same else Opened(id, after.db.versions[id]);
  }

  lemma PrepareChanges(db: Database, v: Id, privateKey: string, keyFingerprint: string, now: Time)
    returns (change: VersionChange)
    ensures Changes(db, DoPrepareIssuingVersion(db, v, privateKey, keyFingerprint).db, change, now)
  {
    var after := DoPrepareIssuingVersion(db, v, privateKey, keyFingerprint);
    change := if after.reply == Row(v) then Moved(v, after.db.versions[v]) else Same;
  }

  lemma StoreChanges(db: Database, v: Id, m: Material, j: Option<Id>, worker: Worker, now: Time)
    returns (change: VersionChange)
    ensures Changes(db, DoStoreMaterial(db, v, m, j, worker, now).db, change, now)
  {
    var after := DoStoreMaterial(db, v, m, j, worker, now);
    change := if after.db.versions == db.versions then Same else Moved(v, after.db.versions[v]);
  }

  lemma RevokeChanges(db: Database, c: Id, v: Id, reason: string, user: Id, now: Time) returns (change: VersionChange)
    ensures Changes(db, DoRevokeVersion(db, c, v, reason, user, now).db, change, now)
  {
    var after := DoRevokeVersion(db, c, v, reason, user, now);
    change := if after.db.versions == db.versions then Same else Moved(v, after.db.versions[v]);
  }

  lemma FailVersionChanges(db: Database, version: Option<Id>, failure: Failure, now: Time)
    returns (change: VersionChange)
    ensures Changes(db, FailVersion(db, version, failure, now), change, now)
  {
    var after := FailVersion(db, version, failure, now);
    change := if after.versions == db.versions then Same else Moved(version.value, after.versions[version.value]);
  }

  lemma FailChanges(db: Database, j: Id, worker: Worker, failure: Failure, retryable: bool, max: int, retryAfter: int,
                    asked: Time, now: Time) returns (change: VersionChange)
    ensures Changes(db, DoFail(db, j, worker, failure, retryable, max, retryAfter, asked, now).db, change, now)
  {
    hide FailVersion;
    change := Same;
    if DoFail(db, j, worker, failure, retryable, max, retryAfter, asked, now).reply == Row(j) {
      var row := FailedRow(db.jobs[j], failure, retryable, max, asked + if retryAfter <= 0 then 60 else retryAfter,
        now);
      if row.status == JobFailed {
        change := FailVersionChanges(SetJob(db, j, row), row.version, failure, now);
      }
    }
  }

  lemma DeleteChanges(db: Database, c: Id, force: bool, now: Time) returns (change: VersionChange)
    ensures Changes(db, DoDeleteCertificate(db, c, force).db, change, now)
  {
    change := if DoDeleteCertificate(db, c, force).reply == Row(c) then Dropped(c) else Same;
  }

  /** Every statement changes at most one version, or drops all versions of a certificate. */
  lemma StepChanges(db: Database, step: Step, now: Time) returns (change: VersionChange)
    ensures Changes(db, Apply(db, step, now).db, change, now)
  {
    hide DoCreateOrReuse, DoUpdateEnabled, DoUpdateIssuanceStatus, DoCreateIssuingVersion, DoPrepareIssuingVersion,
         DoStoreMaterial, DoRevokeVersion, DoDeleteCertificate, DoEnsureJob, DoAttachVersion, DoClaim, DoRenew,
         DoSucceed, DoFail, DoRecordChallenge, DoMarkPresented, DoMarkCleanup;
    match step {
      case CreateIssuingVersion(id, c, reason) => change := CreateChanges(db, id, c, reason, now);
      case PrepareIssuingVersion(v, key, fp) => change := PrepareChanges(db, v, key, fp, now);
      case StoreMaterial(v, m, j, worker) => change := StoreChanges(db, v, m, j, worker, now);
      case RevokeVersion(c, v, reason, user) => change := RevokeChanges(db, c, v, reason, user, now);
      case Fail(j, worker, failure, retryable, max, after, asked) =>
        change := FailChanges(db, j, worker, failure, retryable, max, after, asked, now);
      case DeleteCertificate(c, force) => change := DeleteChanges(db, c, force, now);
      case _ => change := Same;
    }
  }

  // ----- Numbering -----

  /** A set of numbers is {1..n} for some n. */
  ghost predicate Segment(numbers: set<nat>) {
    && 0 !in numbers
    && forall n, k: nat :: n in numbers && 1 <= k <= n ==> k in numbers
  }

  /** Versions are numbered from 1 without gaps or repeats, and an issuing version is the newest. */
  ghost predicate Numbered(db: Database) {
    && (forall c :: Segment(Numbers(db, c)))
    && (forall v, w ::
          v in db.versions && w in db.versions && v != w && db.versions[v].certificate == db.versions[w].certificate
          ==> db.versions[v].number != db.versions[w].number)
    && (forall v, w :: v in db.versions && w in db.versions && db.versions[v].certificate == db.versions[w].certificate
          ==> db.versions[v].status == VersionIssuing ==> db.versions[w].number <= db.versions[v].number)
  }

  lemma NumberListed(db: Database, v: Id)
    requires v in db.versions
    ensures db.versions[v].number in Numbers(db, db.versions[v].certificate)
  {
  }

  lemma OpenedNumbers(db: Database, after: Database, v: Id, row: Version)
    requires v !in db.versions && after.versions == db.versions[v := row]
    ensures Numbers(after, row.certificate) == Numbers(db, row.certificate) + {row.number}
  {
    NumberListed(after, v);
    forall w | w in db.versions && db.versions[w].certificate == row.certificate
      ensures db.versions[w].number in Numbers(after, row.certificate)
    {
      assert after.versions[w] == db.versions[w];
      NumberListed(after, w);
    }
  }

  lemma NumbersShrink(db: Database, after: Database, c: Id)
    requires forall v :: v in after.versions && after.versions[v].certificate == c ==>
               v in db.versions && db.versions[v].certificate == c && db.versions[v].number == after.versions[v].number
    ensures Numbers(after, c) <= Numbers(db, c)
  {
    forall n | n in Numbers(after, c) ensures n in Numbers(db, c) {
      var v :| v in after.versions && after.versions[v].certificate == c && after.versions[v].number == n;
      NumberListed(db, v);
    }
  }

  lemma SegmentGrows(numbers: set<nat>)
    requires Segment(numbers)
    ensures Segment(numbers + {MaxNumber(numbers) + 1})
  {
  }

  lemma ChangeKeepsSegment(db: Database, after: Database, change: VersionChange, now: Time, c: Id)
    requires Segment(Numbers(db, c)) && Changes(db, after, change, now)
    ensures Segment(Numbers(after, c))
  {
    hide Numbers, Segment, Downloadable, VersionsIn, UnexpiredIds;
    if change == Dropped(c) {
      NoNumbers(after, c);
    } else if change.Opened? && change.row.certificate == c {
      OpenedNumbers(db, after, change.id, change.row);
      SegmentGrows(Numbers(db, c));
    } else {
      NumbersShrink(db, after, c);
      NumbersShrink(after, db, c);
      assert Numbers(after, c) == Numbers(db, c);
    }
  }

  lemma NoNumbers(db: Database, c: Id)
    requires forall v :: v in db.versions ==> db.versions[v].certificate != c
    ensures Segment(Numbers(db, c))
  {
    assert Numbers(db, c) == {};
  }

  lemma ChangeKeepsNumbered(db: Database, after: Database, change: VersionChange, now: Time)
    requires Numbered(db) && Changes(db, after, change, now)
    ensures Numbered(after)
  {
    forall c ensures Segment(Numbers(after, c)) {
      ChangeKeepsSegment(db, after, change, now, c);
    }
    if change.Opened? {
      forall w | w in db.versions && db.versions[w].certificate == change.row.certificate
        ensures db.versions[w].number < change.row.number && db.versions[w].status != VersionIssuing
      {
        NumberListed(db, w);
        assert w !in VersionsIn(db, change.row.certificate, VersionIssuing);
      }
    }
  }

  lemma {:induction false} RunIsNumbered(run: seq<Timed>, i: nat)
    requires i <= |run|
    ensures Numbered(At(run, i))
  {
    hide Apply;
    if i > 0 {
      RunIsNumbered(run, i - 1);
      var change := StepChanges(At(run, i - 1), run[i - 1].step, run[i - 1].now);
      ChangeKeepsNumbered(At(run, i - 1), At(run, i), change, run[i - 1].now);
    }
  }

  /** The version with the greatest number: `order by version desc limit 1`. */
  predicate Newest(db: Database, c: Id, v: Id) {
    && v in db.versions && db.versions[v].certificate == c
    && forall w ::
         w in db.versions && db.versions[w].certificate == c
         ==> db.versions[w].number <= db.versions[v].number
  }

  /** `latestIssuingVersion`: the top row, if it is issuing. */
  ghost function LatestIssuing(db: Database, c: Id): Option<Id> {
    if exists v :: Newest(db, c, v) then
      var v :| Newest(db, c, v);
      if db.versions[v].status == VersionIssuing then Some(v) else None
    else None
  }

  lemma NewestExists(db: Database, c: Id, v: Id)
    requires v in db.versions && db.versions[v].certificate == c
    ensures exists w :: Newest(db, c, w)
  {
    assert db.versions[v].number in Numbers(db, c);
    var m := MaxNumber(Numbers(db, c));
    var w :| w in db.versions && db.versions[w].certificate == c && db.versions[w].number == m;
    forall u | u in db.versions && db.versions[u].certificate == c ensures db.versions[u].number <= m {
      assert db.versions[u].number in Numbers(db, c);
    }
    assert Newest(db, c, w);
  }

  /**
    In every reachable state a certificate's versions are numbered 1..n, at most one is issuing
    and it is version n, so reading only the top row finds an issuing version exactly when one exists.
   */
  lemma VersionsOfCertificate(run: seq<Timed>, i: nat, c: Id)
    requires i <= |run|
    ensures var db := At(run, i);
            var n := MaxNumber(Numbers(db, c));
            && (forall k: nat :: k in Numbers(db, c) <==> 1 <= k <= n)
            && (forall v, w ::
                  v in db.versions && w in db.versions
                  && db.versions[v].certificate == c == db.versions[w].certificate
                  ==> db.versions[v].number == db.versions[w].number ==> v == w)
            && (forall v :: v in VersionsIn(db, c, VersionIssuing) ==> db.versions[v].number == n)
            && (LatestIssuing(db, c).None? <==> VersionsIn(db, c, VersionIssuing) == {})
            && (LatestIssuing(db, c).Some? ==> VersionsIn(db, c, VersionIssuing) == {LatestIssuing(db, c).value})
  {
    hide Apply;
    RunIsNumbered(run, i);
    ReadsTopVersion(At(run, i), c);
  }

  lemma ReadsTopVersion(db: Database, c: Id)
    requires Numbered(db)
    ensures var n := MaxNumber(Numbers(db, c));
            && (forall k: nat :: k in Numbers(db, c) <==> 1 <= k <= n)
            && (forall v :: v in VersionsIn(db, c, VersionIssuing) ==> db.versions[v].number == n)
            && (LatestIssuing(db, c).None? <==> VersionsIn(db, c, VersionIssuing) == {})
            && (LatestIssuing(db, c).Some? ==> VersionsIn(db, c, VersionIssuing) == {LatestIssuing(db, c).value})
  {
    assert Segment(Numbers(db, c));
    forall v | v in VersionsIn(db, c, VersionIssuing)
      ensures db.versions[v].number == MaxNumber(Numbers(db, c)) && Newest(db, c, v)
    {
      NumberListed(db, v);
      var w :| w in db.versions && db.versions[w].certificate == c
        && db.versions[w].number == MaxNumber(Numbers(db, c));
    }
    forall v, w | Newest(db, c, v) && Newest(db, c, w) ensures v == w {
    }
  }

  // ----- Status, downloads and `ready` -----

  /** Between two databases of a run, a version that is still there moved forward only. */
  predicate Forward(a: VersionStatus, b: VersionStatus) {
    || StatusMove(a, b)
    || (a == VersionIssuing && b == VersionRevoked)
  }

  /** The version is in the table after every step from `k` to `i`. */
  ghost predicate Lives(run: seq<Timed>, k: nat, i: nat, v: Id)
    requires k <= i <= |run|
  {
    forall n {:trigger At(run, n)} :: k <= n <= i ==> v in At(run, n).versions
  }

  lemma {:induction false} StatusMovesForward(run: seq<Timed>, k: nat, i: nat, v: Id)
    requires k <= i <= |run| && Lives(run, k, i, v)
    ensures var a := At(run, k).versions[v];
            var b := At(run, i).versions[v];
            && Forward(a.status, b.status)
            && a.certificate == b.certificate && a.number == b.number
            && (a.status != VersionIssuing ==> a.columns == b.columns)
    decreases i
  {
    hide Apply;
    if k < i {
      StatusMovesForward(run, k, i - 1, v);
      var change := StepChanges(At(run, i - 1), run[i - 1].step, run[i - 1].now);
      assert v in At(run, i - 1).versions && v in At(run, i).versions;
    }
  }

  /** Exactly the valid and the revoked versions can be downloaded. */
  ghost predicate DownloadsMatchStatus(db: Database) {
    forall v :: v in db.versions ==>
      (Downloadable(db.versions[v]) <==> db.versions[v].status in {VersionValid, VersionRevoked})
  }

  lemma {:induction false} RunDownloadsMatchStatus(run: seq<Timed>, i: nat)
    requires i <= |run|
    ensures DownloadsMatchStatus(At(run, i))
  {
    hide Apply;
    if i > 0 {
      RunDownloadsMatchStatus(run, i - 1);
      var change := StepChanges(At(run, i - 1), run[i - 1].step, run[i - 1].now);
    }
  }

  /** Some version of the certificate can be downloaded. */
  predicate HasDownload(db: Database, c: Id) {
    exists v :: v in db.versions && db.versions[v].certificate == c && Downloadable(db.versions[v])
  }

  /** The row of certificate `c` after step `i` goes back to an insert that gave it the status `ready`. */
  ghost predicate BornReady(run: seq<Timed>, i: nat, c: Id)
    requires i <= |run|
  {
    && i > 0
    && if c in At(run, i - 1).certificates then BornReady(run, i - 1, c)
       else run[i - 1].step.CreateOrReuse? && run[i - 1].step.status == Ready
  }

  /** Which statements make a certificate `ready`: material was stored, or a usable version was found. */
  lemma BecomesReady(db: Database, step: Step, now: Time, c: Id)
    requires c in db.certificates && c in Apply(db, step, now).db.certificates
    requires Apply(db, step, now).db.certificates[c].status == Ready && db.certificates[c].status != Ready
    ensures HasUsable(db, c, now) ||
            (step.StoreMaterial? && step.version in db.versions && db.versions[step.version].certificate == c
             && Apply(db, step, now).db.versions[step.version].status == VersionValid)
  {
  }

  lemma StepEarnsReady(db: Database, step: Step, now: Time, c: Id)
    requires DownloadsMatchStatus(db) && DownloadsMatchStatus(Apply(db, step, now).db) && c in db.certificates
    requires db.certificates[c].status == Ready ==> HasDownload(db, c)
    ensures var after := Apply(db, step, now).db;
            c in after.certificates && after.certificates[c].status == Ready ==> HasDownload(after, c)
  {
    hide Apply;
    var after := Apply(db, step, now).db;
    if c in after.certificates && after.certificates[c].status == Ready {
      var change := StepChanges(db, step, now);
      if db.certificates[c].status != Ready { BecomesReady(db, step, now, c); }
      if HasDownload(db, c) || HasUsable(db, c, now) {
        var v :| v in db.versions && db.versions[v].certificate == c && Downloadable(db.versions[v]);
        assert v in after.versions && Downloadable(after.versions[v]);
      } else {
        assert after.versions[step.version].certificate == c && Downloadable(after.versions[step.version]);
      }
    }
  }

  /** A certificate that was not inserted as `ready` is `ready` only while it has a downloadable version. */
  lemma {:induction false} ReadyHasDownload(run: seq<Timed>, i: nat, c: Id)
    requires i <= |run| && c in At(run, i).certificates && !BornReady(run, i, c)
    ensures At(run, i).certificates[c].status == Ready ==> HasDownload(At(run, i), c)
  {
    if i > 0 {
      var before := At(run, i - 1);
      if c in before.certificates {
        hide Apply;
        ReadyHasDownload(run, i - 1, c);
        RunDownloadsMatchStatus(run, i - 1);
        RunDownloadsMatchStatus(run, i);
        StepEarnsReady(before, run[i - 1].step, run[i - 1].now, c);
      } else {
        InsertsStatus(before, run[i - 1].step, run[i - 1].now, c);
      }
    }
  }

  /** Only `CreateOrReuse` inserts certificates, with the status it is given. */
  lemma InsertsStatus(db: Database, step: Step, now: Time, c: Id)
    requires c !in db.certificates && c in Apply(db, step, now).db.certificates
    ensures step.CreateOrReuse? && Apply(db, step, now).db.certificates[c].status == step.status
  {
  }

  // ----- Overlapping validity -----

  lemma Later(db: Database, c: Id, earlier: Time, now: Time)
    requires earlier <= now
    ensures |UnexpiredIds(db, c, now)| <= |UnexpiredIds(db, c, earlier)|
  {
    SubsetSize(UnexpiredIds(db, c, now), UnexpiredIds(db, c, earlier));
  }

  lemma ChangeKeepsOverlap(db: Database, after: Database, change: VersionChange, now: Time, c: Id)
    requires Changes(db, after, change, now) && |UnexpiredIds(db, c, now)| <= 2
    ensures |UnexpiredIds(after, c, now)| <= 2
  {
    if change.Moved? && change.row.certificate == c && Unexpired(change.row, now) {
      SubsetSize(UnexpiredIds(after, c, now) - {change.id}, UnexpiredIds(db, c, now) - {change.id});
    } else {
      SubsetSize(UnexpiredIds(after, c, now), UnexpiredIds(db, c, now));
    }
  }

  /** At most two valid versions of a certificate are unexpired at any time from the last statement on. */
  lemma {:induction false} AtMostTwoUnexpired(run: seq<Timed>, i: nat, c: Id, now: Time)
    requires Clocked(run) && i <= |run| && (i > 0 ==> run[i - 1].now <= now)
    ensures |UnexpiredIds(At(run, i), c, now)| <= 2
  {
    hide Apply;
    if i > 0 {
      var t := run[i - 1].now;
      AtMostTwoUnexpired(run, i - 1, c, t);
      var change := StepChanges(At(run, i - 1), run[i - 1].step, t);
      ChangeKeepsOverlap(At(run, i - 1), At(run, i), change, t, c);
      Later(At(run, i), c, t, now);
    } else {
      assert UnexpiredIds(EMPTY, c, now) == {};
    }
  }

  // ----- What revoking leaves -----

  /**
    Revoking looks for usable material in the rows before the statement. When it takes effect it
    therefore leaves a `ready` parent with usable material exactly when another version is usable.
   */
  lemma RevokeLeavesUsable(db: Database, c: Id, v: Id, reason: string, user: Id, now: Time)
    requires Revocable(db, c, v) && db.versions[v].status == VersionValid
    requires DoRevokeVersion(db, c, v, reason, user, now).db != db
    ensures var after := DoRevokeVersion(db, c, v, reason, user, now).db;
            && (HasUsable(after, c, now) <==>
                  exists w :: w in db.versions && w != v && db.versions[w].certificate == c
                    && Usable(db.versions[w], now))
            && (Usable(db.versions[v], now) ==> after.certificates[c].status == Ready)
  {
    var after := DoRevokeVersion(db, c, v, reason, user, now).db;
    if w :| w in db.versions && w != v && db.versions[w].certificate == c && Usable(db.versions[w], now) {
      assert after.versions[w] == db.versions[w];
    }
    if w :| w in after.versions && after.versions[w].certificate == c && Usable(after.versions[w], now) {
      assert w != v && after.versions[w] == db.versions[w];
    }
  }

  /** A run that issues one version and revokes it. */
  function RevokeOnly(identity: Identity, m: Material, user: Id): seq<Timed> {
    [Timed(CreateOrReuse(1, identity, Pending), m.notBefore),
     Timed(CreateIssuingVersion(2, 1, InitialIssue), m.notBefore),
     Timed(StoreMaterial(2, m, None, ""), m.notBefore),
     Timed(RevokeVersion(1, 2, "superseded", user), m.notBefore)]
  }

  /** A run that begins by making certificate 1 and its first version. */
  lemma FirstIssues(run: seq<Timed>, identity: Identity, t: Time)
    requires |run| > 2 && run[0] == Timed(CreateOrReuse(1, identity, Pending), t)
    requires run[1] == Timed(CreateIssuingVersion(2, 1, InitialIssue), t)
    ensures var db := At(run, 2);
            && db.certificates == map[1 := Certificate(identity, true, Issuing, None)] && db.jobs == map[]
            && db.versions == map[2 := Version(1, 1, VersionIssuing, InitialIssue, NO_COLUMNS, t, None, None, None)]
  {
    var a := DoCreateOrReuse(EMPTY, 1, identity, Pending).db;
    assert At(run, 1) == a by { hide DoCreateOrReuse; }
    assert VersionsIn(a, 1, VersionIssuing) == {} && Numbers(a, 1) == {};
    assert At(run, 2) == DoCreateIssuingVersion(a, 2, 1, InitialIssue, t).db by {
      hide DoCreateOrReuse, DoCreateIssuingVersion;
    }
  }

  lemma StoreOnly(db: Database, m: Material)
    requires ValidMaterial(m) && db.versions.Keys == {2} && db.certificates.Keys == {1}
    requires db.versions[2].certificate == 1 && db.versions[2].status == VersionIssuing
    ensures var d := DoStoreMaterial(db, 2, m, None, "", m.notBefore).db;
            && d.versions.Keys == {2} && d.certificates.Keys == {1}
            && d.versions[2].certificate == 1 && Usable(d.versions[2], m.notBefore)
            && d.certificates[1].status == Ready && d.certificates[1].failure == None
  {
    assert UnexpiredIds(db, 1, m.notBefore) - {2} == {};
  }

  lemma RevokeLast(db: Database, now: Time, user: Id)
    requires db.versions.Keys == {2} && db.certificates.Keys == {1}
    requires db.versions[2].certificate == 1 && Usable(db.versions[2], now)
    requires db.certificates[1].status == Ready && db.certificates[1].failure == None
    ensures var e := DoRevokeVersion(db, 1, 2, "superseded", user, now).db;
            1 in e.certificates && e.certificates[1].status == Ready && !HasUsable(e, 1, now)
  {
    var e := DoRevokeVersion(db, 1, 2, "superseded", user, now).db;
    assert e.versions.Keys == {2} && e.versions[2].status == VersionRevoked;
  }

  /** So `ready` does not promise usable material: revoking the only version of a ready certificate keeps it ready. */
  lemma ReadyWithoutUsable(identity: Identity, m: Material, user: Id)
    requires ValidMaterial(m)
    ensures var db := At(RevokeOnly(identity, m, user), 4);
            1 in db.certificates && db.certificates[1].status == Ready && !HasUsable(db, 1, m.notBefore)
  {
    hide DoStoreMaterial, DoRevokeVersion, DoCreateOrReuse, DoCreateIssuingVersion;
    var run := RevokeOnly(identity, m, user);
    FirstIssues(run, identity, m.notBefore);
    StoreOnly(At(run, 2), m);
    RevokeLast(At(run, 3), m.notBefore, user);
  }

  /** `certificates_failure_state`: a failure code goes with the status `failed` and with nothing else. */
  predicate FailureState(db: Database) {
    forall c :: c in db.certificates ==> (db.certificates[c].status == Failed <==> db.certificates[c].failure.Some?)
  }

  /** No statement that is let through breaks `certificates_failure_state`. */
  lemma StepKeepsFailureState(db: Database, step: Step, now: Time)
    requires FailureState(db)
    ensures FailureState(Apply(db, step, now).db)
  {
    hide DoPrepareIssuingVersion, DoEnsureJob, DoAttachVersion, DoClaim, DoRenew, DoSucceed, Rivals, HasUsable,
         DoRecordChallenge, DoMarkPresented, DoMarkCleanup, UnexpiredIds, VersionsIn, Numbers, Blockers, JobCascades,
         ValidMaterial, MayStore, FailedRow, WithIdentity, MaxNumber, HasMaterial, LeasedTo;
  }

  lemma {:induction false} RunKeepsFailureState(run: seq<Timed>, i: nat)
    requires i <= |run|
    ensures FailureState(At(run, i))
  {
    hide Apply;
    if i > 0 {
      RunKeepsFailureState(run, i - 1);
      StepKeepsFailureState(At(run, i - 1), run[i - 1].step, run[i - 1].now);
    }
  }

  /**
    In reachable states revoking a valid version is refused exactly when its certificate is `failed`
    although some version is usable: the statement sets `ready` but keeps the failure code.
   */
  lemma RevocationRefused(run: seq<Timed>, i: nat, c: Id, v: Id, reason: string, user: Id, now: Time)
    requires i <= |run|
    requires v in VersionsIn(At(run, i), c, VersionValid) && c in At(run, i).certificates
    requires At(run, i).certificates[c].status != Deleted
    ensures var db := At(run, i);
            var outcome := DoRevokeVersion(db, c, v, reason, user, now);
            && (outcome.reply == Conflict <==> db.certificates[c].status == Failed && HasUsable(db, c, now))
            && (outcome.reply != Conflict <==> outcome.db.versions[v].status == VersionRevoked)
  {
    hide Apply;
    RunKeepsFailureState(run, i);
    RunDownloadsMatchStatus(run, i);
    assert Downloadable(At(run, i).versions[v]);
  }

  // ----- The refusal happens -----

  /** Material valid from later on is stored, a renewal fails before that, and then the usable version is revoked. */
  function RevokeAfterFailure(identity: Identity, m: Material, worker: Worker, failure: Failure, user: Id): seq<Timed> {
    var t := m.notBefore - 1;
    [Timed(CreateOrReuse(1, identity, Pending), t),
     Timed(CreateIssuingVersion(2, 1, InitialIssue), t),
     Timed(StoreMaterial(2, m, None, ""), t),
     Timed(CreateIssuingVersion(3, 1, Renewal), t),
     Timed(EnsureJob(4, 1, Some(3), ForIssuance(Renewal), t), t),
     Timed(Claim(worker, m.notBefore, t, {}), t),
     Timed(Fail(4, worker, failure, false, 0, 0, t), t),
     Timed(RevokeVersion(1, 2, "superseded", user), m.notBefore)]
  }

  /** Version 2 of certificate 1 holds the material and is the only one. */
  predicate Stored(db: Database, m: Material) {
    && db.versions.Keys == {2} && db.versions[2].certificate == 1 && db.versions[2].status == VersionValid
    && db.versions[2].columns == Filled(m)
    && db.certificates.Keys == {1} && db.certificates[1].status == Ready && db.certificates[1].enabled
    && db.jobs == map[]
  }

  /** Version 3 is being issued beside it. */
  predicate Reissuing(db: Database, m: Material) {
    && db.versions.Keys == {2, 3} && db.certificates.Keys == {1}
    && db.versions[2].certificate == 1 && db.versions[2].status == VersionValid && db.versions[2].columns == Filled(m)
    && db.versions[3].certificate == 1 && db.versions[3].status == VersionIssuing
    && db.certificates[1].status == Renewing
  }

  lemma StoresEarly(db: Database, identity: Identity, m: Material, now: Time)
    requires ValidMaterial(m) && db.versions.Keys == {2} && db.jobs == map[]
    requires db.versions[2].certificate == 1 && db.versions[2].status == VersionIssuing
    requires db.certificates == map[1 := Certificate(identity, true, Issuing, None)]
    ensures Stored(Apply(db, StoreMaterial(2, m, None, ""), now).db, m)
  {
    assert UnexpiredIds(db, 1, now) - {2} == {};
  }

  lemma OpensRenewal(db: Database, m: Material, now: Time)
    requires Stored(db, m)
    ensures var after := Apply(db, CreateIssuingVersion(3, 1, Renewal), now).db;
            Reissuing(after, m) && after.jobs == map[]
  {
    assert VersionsIn(db, 1, VersionIssuing) == {};
  }

  lemma QueuesRenewal(db: Database, m: Material, now: Time)
    requires Reissuing(db, m) && db.jobs == map[]
    ensures
      var after := Apply(db, EnsureJob(4, 1, Some(3), ForIssuance(Renewal), now), now).db;
      && Reissuing(after, m) && after.jobs.Keys == {4} && after.jobs[4].status == JobPending
      && after.jobs[4].version == Some(3) && after.jobs[4].nextRunAt == now
  {
    assert ActiveForVersion(db, 3, {}) == {};
  }

  lemma ClaimsRenewal(db: Database, m: Material, worker: Worker, until: Time, now: Time)
    requires Reissuing(db, m) && db.jobs.Keys == {4} && db.jobs[4].status == JobPending && db.jobs[4].nextRunAt == now
    requires db.jobs[4].version == Some(3) && now < until
    ensures
      var after := Apply(db, Claim(worker, until, now, {}), now).db;
      Reissuing(after, m) && after.jobs.Keys == {4} && LeasedTo(after.jobs[4], worker, now)
        && after.jobs[4].version == Some(3)
  {
    assert FirstCandidate(db, now, {}, 4);
  }

  lemma FailsRenewal(db: Database, m: Material, worker: Worker, failure: Failure, now: Time)
    requires Reissuing(db, m) && 4 in db.jobs && LeasedTo(db.jobs[4], worker, now) && db.jobs[4].version == Some(3)
    requires now < m.notBefore
    ensures
      var after := Apply(db, Fail(4, worker, failure, false, 0, 0, now), now).db;
      && 2 in after.versions && after.versions[2] == db.versions[2]
      && 1 in after.certificates && after.certificates[1].status == Failed
         && after.certificates[1].failure == Some(failure)
  {
    assert !HasUsable(db, 1, now);
  }

  lemma RefusesRevocation(db: Database, m: Material, user: Id)
    requires ValidMaterial(m) && 2 in db.versions && 1 in db.certificates
    requires db.versions[2].certificate == 1 && db.versions[2].status == VersionValid
    requires db.versions[2].columns == Filled(m)
    requires db.certificates[1].status == Failed && db.certificates[1].failure.Some?
    ensures HasUsable(db, 1, m.notBefore)
    ensures Apply(db, RevokeVersion(1, 2, "superseded", user), m.notBefore) == Outcome(db, Conflict)
  {
    assert Usable(db.versions[2], m.notBefore);
  }

  lemma AtNext(run: seq<Timed>, i: nat)
    requires i < |run|
    ensures At(run, i + 1) == Apply(At(run, i), run[i].step, run[i].now).db
  {
  }

  /** The run up to the claim of the renewal's job. */
  lemma ReachesClaim(identity: Identity, m: Material, worker: Worker, failure: Failure, user: Id)
    requires ValidMaterial(m)
    ensures var db := At(RevokeAfterFailure(identity, m, worker, failure, user), 6);
            && Reissuing(db, m) && db.jobs.Keys == {4} && LeasedTo(db.jobs[4], worker, m.notBefore - 1)
            && db.jobs[4].version == Some(3)
  {
    var run := RevokeAfterFailure(identity, m, worker, failure, user);
    var t := m.notBefore - 1;
    FirstIssues(run, identity, t);
    hide At, Apply, ValidMaterial, LeasedTo, Stored, Reissuing;
    AtNext(run, 2);
    StoresEarly(At(run, 2), identity, m, t);
    AtNext(run, 3);
    OpensRenewal(At(run, 3), m, t);
    AtNext(run, 4);
    QueuesRenewal(At(run, 4), m, t);
    AtNext(run, 5);
    ClaimsRenewal(At(run, 5), m, worker, m.notBefore, t);
  }

  lemma RunIsClocked(identity: Identity, m: Material, worker: Worker, failure: Failure, user: Id)
    ensures Clocked(RevokeAfterFailure(identity, m, worker, failure, user))
  {
  }

  /**
    The refusal is reachable: after this clocked run the certificate is `failed` with a usable version that
    cannot be revoked.
   */
  lemma RefusalHappens(identity: Identity, m: Material, worker: Worker, failure: Failure, user: Id)
    requires ValidMaterial(m)
    ensures var run := RevokeAfterFailure(identity, m, worker, failure, user);
            var db := At(run, 7);
            && Clocked(run) && 1 in db.certificates && 2 in VersionsIn(db, 1, VersionValid)
            && db.certificates[1].status == Failed && HasUsable(db, 1, m.notBefore)
            && Apply(db, run[7].step, run[7].now) == Outcome(db, Conflict)
  {
    hide At, Apply, ValidMaterial, LeasedTo, HasUsable, Clocked;
    var run := RevokeAfterFailure(identity, m, worker, failure, user);
    ReachesClaim(identity, m, worker, failure, user);
    RunIsClocked(identity, m, worker, failure, user);
    AtNext(run, 6);
    FailsRenewal(At(run, 6), m, worker, failure, m.notBefore - 1);
    RefusesRevocation(At(run, 7), m, user);
  }
}
