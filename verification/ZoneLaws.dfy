/**
  What the statements on providers, zones and refresh jobs achieve, and exactly when, told on the columns of the
  rows alone.
 */
module ZoneLaws {
  import opened Base
  import Sans
  import opened Zones

  // ----- Words -----

  predicate Unfinished(job: Job) {
    job.state.Waiting? || job.state.Running?
  }

  /** Nobody works on the job: it waits, or the lease on it has ended. */
  predicate Open(job: Job, now: Time) {
    match job.state
    case Waiting => true
    case Running(_, until) => until <= now
    case _ => false
  }

  predicate Older(a: Job, i: Id, b: Job, k: Id) {
    if a.createdAt != b.createdAt then a.createdAt < b.createdAt else i < k
  }

  predicate RunBy(db: Db, j: Id, p: Id, worker: Worker, now: Time) {
    && j in db.jobs && db.jobs[j].provider == p
    && match db.jobs[j].state case Running(holder, until) => holder == worker && now < until case _ => false
  }

  ghost predicate NameUsed(db: Db, name: string) {
    exists z :: z in db.zones && db.zones[z].name == name
  }

  /** The provider shows how its refresh stands; no other provider changes. */
  predicate ShowsRefresh(db: Db, after: Db, p: Id, refresh: RefreshStatus) {
    after.providers == if p in db.providers then db.providers[p := db.providers[p].(refresh := refresh)]
                       else db.providers
  }

  // ----- Providers and zones -----

  lemma ProviderRows(db: Db, p: Id, mode: ZoneMode, active: bool, now: Time)
    ensures
      Apply(db, CreateProvider(p, mode, active), now)
      == if p in db.providers then Outcome(db, Refused)
         else Outcome(db.(providers := db.providers[p := Provider(mode, active, Idle, None)]), Row(p))
    ensures
      Apply(db, UpdateProvider(p, mode, active), now)
      == if p !in db.providers then Outcome(db, NoRows)
         else
           var row := Provider(mode, active, db.providers[p].refresh, db.providers[p].lastRefresh);
           Outcome(db.(providers := db.providers[p := row]), Row(p))
  {
  }

  /** A zone is added to a manual provider under a name that no provider has. */
  lemma AddsFreeName(db: Db, z: Id, p: Id, name: string, now: Time)
    ensures
      Apply(db, AddZone(z, p, name), now)
      == if p !in db.providers || db.providers[p].mode == Auto then Outcome(db, NoRows)
         else if z in db.zones || NameUsed(db, name) then Outcome(db, Refused)
         else Outcome(db.(zones := db.zones[z := Zone(p, name)]), Row(z))
  {
  }

  /** A zone of a manual provider goes, unless a challenge record refers to it. */
  lemma DeletesUnusedZone(db: Db, p: Id, z: Id, now: Time)
    ensures
      var r := Apply(db, DeleteZone(p, z), now);
      if p !in db.providers || db.providers[p].mode == Auto || z !in db.zones || db.zones[z].provider != p
      then r == Outcome(db, NoRows)
      else if z in db.pinned then r == Outcome(db, Refused)
      else r == Outcome(db.(zones := db.zones - {z}), Row(z))
  {
  }

  lemma PinsZone(db: Db, z: Id, now: Time)
    ensures
      Apply(db, Pin(z), now)
      == if z in db.zones then Outcome(db.(pinned := db.pinned + {z}), Row(z)) else Outcome(db, Refused)
    ensures Apply(db, Unpin(z), now).db == db.(pinned := db.pinned - {z})
  {
  }

  // ----- Refresh jobs -----

  /** Asking for a refresh answers the provider's unfinished job or inserts a waiting one, and the provider shows it. */
  lemma EnsuresOneRefresh(db: Db, j: Id, p: Id, now: Time)
    ensures
      var r := Apply(db, EnsureJob(j, p), now);
      if p !in db.providers then r == Outcome(db, Refused)
      else if exists k :: k in db.jobs && db.jobs[k].provider == p && Unfinished(db.jobs[k]) then
        && r.reply.Row? && r.reply.id in db.jobs
        && var job := db.jobs[r.reply.id];
           && job.provider == p && Unfinished(job)
           && r.db == db.(providers := r.db.providers)
           && ShowsRefresh(db, r.db, p, if job.state.Waiting? then RefreshPending else RefreshRunning)
      else if j in db.jobs then r == Outcome(db, Refused)
      else
        && r.reply == Row(j)
        && r.db == db.(providers := r.db.providers, jobs := db.jobs[j := Job(p, Waiting, now, None)])
        && ShowsRefresh(db, r.db, p, RefreshPending)
  {
    forall k ensures k in ActiveJobs(db, p) <==>
      k in db.jobs && db.jobs[k].provider == p && Unfinished(db.jobs[k]) {
    }
    assert ActiveJobs(db, p) != {}
      <==> exists k :: k in db.jobs && db.jobs[k].provider == p && Unfinished(db.jobs[k]);
    hide ActiveJobs, Active;
  }

  lemma {:induction false} OldestExists(db: Db, among: set<Id>, j: Id) returns (first: Id)
    requires j in among && among <= db.jobs.Keys
    ensures first in among && forall k :: k in among && k != first ==> Older(db.jobs[first], first, db.jobs[k], k)
  {
    var rest := among - {j};
    if rest == {} {
      first := j;
    } else {
      var k: Id :| k in rest;
      var g: Id := OldestExists(db, rest, k);
      first := if Older(db.jobs[g], g, db.jobs[j], j) then g else j;
    }
    assert forall k :: k in among ==> k == j || k in rest;
  }

  /**
    A claim for a lease that ends later answers the oldest open job not skipped, the smaller id among equals, and
    gives the worker the lease; it finds none exactly when there is none.
   */
  lemma ClaimsOldest(db: Db, worker: Worker, until: Time, asked: Time, skipped: set<Id>, now: Time)
    ensures
      var r := Apply(db, Claim(worker, until, asked, skipped), now);
      match r.reply
      case Invalid => until <= asked && r.db == db
      case NoRows =>
        asked < until && r.db == db && forall k :: k in db.jobs && k !in skipped ==> !Open(db.jobs[k], now)
      case Row(j) =>
        && asked < until && j in db.jobs && j !in skipped && Open(db.jobs[j], now)
        && (forall k :: k in db.jobs && k !in skipped && k != j && Open(db.jobs[k], now) ==>
              Older(db.jobs[j], j, db.jobs[k], k))
        && r.db == db.(providers := r.db.providers,
                       jobs := db.jobs[j := db.jobs[j].(state := Running(worker, until),
                                                        startedAt := First(db.jobs[j].startedAt, now))])
        && ShowsRefresh(db, r.db, db.jobs[j].provider, RefreshRunning)
      case Refused => false
  {
    if i :| i in db.jobs && i !in skipped && Open(db.jobs[i], now) {
      var open := set k | k in db.jobs && k !in skipped && Open(db.jobs[k], now);
      var first := OldestExists(db, open, i);
      assert NextJob(db, skipped, now, first);
    }
  }

  /** The longest of the names that another provider owns, the first in order among those of its length. */
  ghost predicate ReportedClash(db: Db, p: Id, names: seq<string>, name: string) {
    && name in names && OwnedElsewhere(db, p, name)
    && forall other :: other in names && other != name && OwnedElsewhere(db, p, other) ==>
         |name| > |other| || (|name| == |other| && Sans.Less(name, other))
  }

  ghost predicate OwnedElsewhere(db: Db, p: Id, name: string) {
    exists z :: z in db.zones && db.zones[z].name == name && db.zones[z].provider != p
  }

  predicate Repeats(names: seq<string>) {
    exists i, k :: 0 <= i < k < |names| && names[i] == names[k]
  }

  /** A new id is a zone's already, or given twice. */
  predicate IdsTaken(db: Db, ids: seq<Id>) {
    || (exists i :: 0 <= i < |ids| && ids[i] in db.zones)
    || (exists i, k :: 0 <= i < k < |ids| && ids[i] == ids[k])
  }

  lemma IdsTested(db: Db, ids: seq<Id>)
    ensures FreshIds(db, ids) <==> !IdsTaken(db, ids)
  {
  }

  /** A zone that a challenge record refers to was not discovered again. */
  ghost predicate DropsPinned(db: Db, p: Id, names: seq<string>) {
    exists z :: z in db.pinned && z in db.zones && db.zones[z].provider == p && db.zones[z].name !in names
  }

  /** The worker's job succeeds with so many zones, at this moment, which its provider shows. */
  predicate RefreshDone(db: Db, after: Db, j: Id, p: Id, count: nat, now: Time)
    requires j in db.jobs
  {
    && after.jobs == db.jobs[j := db.jobs[j].(state := Succeeded(now, count))]
    && after.pinned == db.pinned
    && if p in db.providers then
         after.providers == db.providers[p := db.providers[p].(refresh := RefreshSucceeded, lastRefresh := Some(now))]
       else after.providers == db.providers
  }

  /**
    A worker that runs the job ends it: with a clash the job and its provider fail with the reported name and one
    owner of it and no zone changes; without one the provider has exactly the discovered zones and the job
    succeeds with their count, unless a zone in use would go or an id is taken.
   */
  lemma CompletesOrReports(db: Db, j: Id, p: Id, worker: Worker, names: seq<string>, ids: seq<Id>, now: Time)
    requires |ids| == |names|
    ensures
      var r := Apply(db, Complete(j, p, worker, names, ids), now);
      if Repeats(names) then r == Outcome(db, Invalid)
      else if !RunBy(db, j, p, worker, now) then r == Outcome(db, NoRows)
      else if exists name :: name in names && OwnedElsewhere(db, p, name) then
        && r.reply == Row(j) && r.db == db.(providers := r.db.providers, jobs := r.db.jobs)
        && ShowsRefresh(db, r.db, p, RefreshFailed("dns_provider_zone_conflict"))
        && exists name, z ::
             && ReportedClash(db, p, names, name)
             && z in db.zones && db.zones[z].name == name && db.zones[z].provider != p
             && r.db.jobs == db.jobs[j := db.jobs[j].(
                  state := Failed(now, "dns_provider_zone_conflict", Some((name, db.zones[z].provider))))]
      else if DropsPinned(db, p, names) || IdsTaken(db, ids) then r == Outcome(db, Refused)
      else
        r.reply == Row(j) && Replaces(db.zones, r.db.zones, p, names) && RefreshDone(db, r.db, j, p, |names|, now)
  {
    hide Inserted, NamesOf, Clashes, OwnedElsewhere, Gone, DropsPinned, FirstClash, ReportedClash, Replaces, FreshIds,
         IdsTaken, Repeats;
    RepeatsTested(names);
    ClashesElsewhere(db, p);
    PinnedGone(db, p, names);
    IdsTested(db, ids);
    if FirstClash(db, p, names).Some? {
      ClashIsReported(db, p, names);
    } else if FreshIds(db, ids) {
      InsertedReplaces(db, p, names, ids);
    }
  }

  lemma RepeatsTested(names: seq<string>)
    ensures Repeats(names) <==> !Sans.Distinct(names)
  {
  }

  lemma ClashesElsewhere(db: Db, p: Id)
    ensures forall name :: Clashes(db, p, name) <==> OwnedElsewhere(db, p, name)
  {
  }

  lemma PinnedGone(db: Db, p: Id, names: seq<string>)
    ensures Gone(db, p, names) * db.pinned != {} <==> DropsPinned(db, p, names)
  {
    if z :| z in Gone(db, p, names) * db.pinned {
      assert DropsPinned(db, p, names);
    }
    if z :| z in db.pinned && z in db.zones && db.zones[z].provider == p && db.zones[z].name !in names {
      assert z in Gone(db, p, names) * db.pinned;
    }
  }

  lemma ClashIsReported(db: Db, p: Id, names: seq<string>)
    requires FirstClash(db, p, names).Some?
    ensures ReportedClash(db, p, names, FirstClash(db, p, names).value)
  {
    var name := FirstClash(db, p, names).value;
    forall other | other in names && other != name && OwnedElsewhere(db, p, other)
      ensures |name| > |other| || (|name| == |other| && Sans.Less(name, other))
    {
      ClashReported(db, p, names, other);
    }
  }

  /** A failure ends the job that the worker runs, with any code but the one that completions report. */
  lemma FailsOwnJob(db: Db, j: Id, p: Id, worker: Worker, code: string, now: Time)
    ensures
      var r := Apply(db, Fail(j, p, worker, code), now);
      if !RunBy(db, j, p, worker, now) then r == Outcome(db, NoRows)
      else if code == "dns_provider_zone_conflict" then r == Outcome(db, Refused)
      else
        && r.reply == Row(j)
        && r.db == db.(providers := r.db.providers,
                       jobs := db.jobs[j := db.jobs[j].(state := Failed(now, code, None))])
        && ShowsRefresh(db, r.db, p, RefreshFailed(code))
  {
  }
}
