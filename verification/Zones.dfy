/**
  DNS providers, the zones they own and the leased jobs that refresh them. As in the issuance engine,
  a statement is one step; a unique index or a foreign key that refuses it leaves the rows as they were.
 */
module Zones {
  import opened Base
  import opened Sans

  type Worker = string

  datatype ZoneMode = Auto | Manual

  datatype RefreshStatus = Idle | RefreshPending | RefreshRunning | RefreshSucceeded | RefreshFailed(code: string)

  datatype Provider = Provider(mode: ZoneMode, active: bool, refresh: RefreshStatus, lastRefresh: Option<Time>)

  datatype Zone = Zone(provider: Id, name: string)

  // The lease holds exactly while the job runs; a clash names the zone and its owner.
  datatype JobState =
    | Waiting
    | Running(holder: Worker, until: Time)
    | Succeeded(at: Time, zones: nat)
    | Failed(at: Time, code: string, clash: Option<(string, Id)>)

  datatype Job = Job(provider: Id, state: JobState, createdAt: Time, startedAt: Option<Time>)

  // `pinned` holds the zones that DNS challenge records refer to.
  datatype Db = Db(providers: map<Id, Provider>, zones: map<Id, Zone>, pinned: set<Id>, jobs: map<Id, Job>)

  const EMPTY := Db(map[], map[], {}, map[])

  datatype Reply = Row(id: Id) | NoRows | Invalid | Refused

  datatype Outcome = Outcome(db: Db, reply: Reply)

  const ZONE_CONFLICT := "dns_provider_zone_conflict"

  // ----- Reading rows -----

  function ZonesOf(db: Db, p: Id): set<Id> {
    set z | z in db.zones && db.zones[z].provider == p
  }

  function NamesOf(db: Db, p: Id): set<string> {
    set z | z in db.zones && db.zones[z].provider == p :: db.zones[z].name
  }

  predicate Owns(db: Db, p: Id, name: string) {
    name in NamesOf(db, p)
  }

  /** Another provider owns a zone of that name. */
  predicate Clashes(db: Db, p: Id, name: string) {
    exists z :: z in db.zones && db.zones[z].name == name && db.zones[z].provider != p
  }

  /** `order by length(zone_name) desc, zone_name asc`. */
  predicate Precedes(a: string, b: string) {
    |a| > |b| || (|a| == |b| && Less(a, b))
  }

  /** The conflicting name that the statement reports. */
  function FirstClash(db: Db, p: Id, names: seq<string>): (r: Option<string>)
    ensures r.None? <==> forall i :: 0 <= i < |names| ==> !Clashes(db, p, names[i])
    ensures r.Some? ==> r.value in names && Clashes(db, p, r.value)
  {
    if names == [] then None
    else
      var last := names[|names| - 1];
      var before := FirstClash(db, p, names[..|names| - 1]);
      if !Clashes(db, p, last) then before
      else if before.Some? && !Precedes(last, before.value) then before
      else Some(last)
  }

  predicate Live(job: Job, worker: Worker, now: Time) {
    job.state.Running? && job.state.holder == worker && now < job.state.until
  }

  predicate Active(job: Job) {
    job.state.Waiting? || job.state.Running?
  }

  predicate Claimable(job: Job, now: Time) {
    job.state.Waiting? || (job.state.Running? && job.state.until <= now)
  }

  // ----- Statements -----

  function SetRefresh(db: Db, p: Id, refresh: RefreshStatus): Db {
    if p in db.providers then db.(providers := db.providers[p := db.providers[p].(refresh := refresh)]) else db
  }

  function DoCreateProvider(db: Db, p: Id, mode: ZoneMode, active: bool): Outcome {
    if p in db.providers then Outcome(db, Refused)
    else Outcome(db.(providers := db.providers[p := Provider(mode, active, Idle, None)]), Row(p))
  }

  function DoUpdateProvider(db: Db, p: Id, mode: ZoneMode, active: bool): Outcome {
    if p !in db.providers then Outcome(db, NoRows)
    else Outcome(db.(providers := db.providers[p := db.providers[p].(mode := mode, active := active)]), Row(p))
  }

  function DoAddZone(db: Db, z: Id, p: Id, name: string): Outcome {
    if p !in db.providers || db.providers[p].mode != Manual then Outcome(db, NoRows)
    else if z in db.zones || exists k :: k in db.zones && db.zones[k].name == name then Outcome(db, Refused)
    else Outcome(db.(zones := db.zones[z := Zone(p, name)]), Row(z))
  }

  function DoDeleteZone(db: Db, p: Id, z: Id): Outcome {
    if p !in db.providers || db.providers[p].mode != Manual || z !in db.zones || db.zones[z].provider != p
    then Outcome(db, NoRows)
    else if z in db.pinned then Outcome(db, Refused)
    else Outcome(db.(zones := db.zones - {z}), Row(z))
  }

  function ActiveJobs(db: Db, p: Id): set<Id> {
    set j | j in db.jobs && db.jobs[j].provider == p && Active(db.jobs[j])
  }

  ghost function DoEnsureJob(db: Db, j: Id, p: Id, now: Time): Outcome {
    if p !in db.providers then Outcome(db, Refused)
    else if ActiveJobs(db, p) != {} then
      var k :| k in ActiveJobs(db, p);
      Outcome(SetRefresh(db, p, if db.jobs[k].state.Running? then RefreshRunning else RefreshPending), Row(k))
    else if j in db.jobs then Outcome(db, Refused)
    else Outcome(SetRefresh(db, p, RefreshPending).(jobs := db.jobs[j := Job(p, Waiting, now, None)]), Row(j))
  }

  /** The first claimable job in `order by created_at asc, id asc`, among those no other transaction has locked. */
  predicate NextJob(db: Db, skipped: set<Id>, now: Time, j: Id) {
    && j in db.jobs && j !in skipped && Claimable(db.jobs[j], now)
    && forall k :: k in db.jobs && k !in skipped && Claimable(db.jobs[k], now) ==>
         db.jobs[j].createdAt < db.jobs[k].createdAt || (db.jobs[j].createdAt == db.jobs[k].createdAt && j <= k)
  }

  ghost function DoClaim(db: Db, worker: Worker, until: Time, asked: Time, skipped: set<Id>, now: Time): Outcome {
    if until <= asked then Outcome(db, Invalid)
    else if j :| NextJob(db, skipped, now, j) then
      var row := db.jobs[j].(state := Running(worker, until), startedAt := Some(Coalesce(db.jobs[j].startedAt, now)));
      Outcome(SetRefresh(db, row.provider, RefreshRunning).(jobs := db.jobs[j := row]), Row(j))
    else Outcome(db, NoRows)
  }

  predicate FreshIds(db: Db, ids: seq<Id>) {
    && (forall i :: 0 <= i < |ids| ==> ids[i] !in db.zones)
    && (forall i, k :: 0 <= i < k < |ids| ==> ids[i] != ids[k])
  }

  /** The provider's zones that were not discovered again. */
  function Gone(db: Db, p: Id, names: seq<string>): set<Id> {
    set z | z in db.zones && db.zones[z].provider == p && db.zones[z].name !in names
  }

  /** The zones after inserting those of the first `n` names that the provider does not have yet. */
  function Inserted(db: Db, p: Id, names: seq<string>, ids: seq<Id>, n: nat): map<Id, Zone>
    requires |ids| == |names| && n <= |names|
  {
    if n == 0 then db.zones - Gone(db, p, names)
    else
      var before := Inserted(db, p, names, ids, n - 1);
      if Owns(db, p, names[n - 1]) then before else before[ids[n - 1] := Zone(p, names[n - 1])]
  }

  ghost function Owner(db: Db, p: Id, name: string): (owner: Id)
    requires Clashes(db, p, name)
    ensures exists z :: z in db.zones && db.zones[z] == Zone(owner, name) && owner != p
  {
    var z :| z in db.zones && db.zones[z].name == name && db.zones[z].provider != p;
    assert db.zones[z] == Zone(db.zones[z].provider, name);
    db.zones[z].provider
  }

  function EndJob(db: Db, j: Id, state: JobState, refresh: RefreshStatus): Db
    requires j in db.jobs
  {
    SetRefresh(db, db.jobs[j].provider, refresh).(jobs := db.jobs[j := db.jobs[j].(state := state)])
  }

  ghost function DoComplete(db: Db, j: Id, p: Id, worker: Worker, names: seq<string>, ids: seq<Id>, now: Time): Outcome
    requires |ids| == |names|
  {
    if !Distinct(names) then Outcome(db, Invalid)
    else if j !in db.jobs || db.jobs[j].provider != p || !Live(db.jobs[j], worker, now) then Outcome(db, NoRows)
    else
      match FirstClash(db, p, names)
      case Some(name) =>
        Outcome(EndJob(db, j, Failed(now, ZONE_CONFLICT, Some((name, Owner(db, p, name)))),
          RefreshFailed(ZONE_CONFLICT)), Row(j))
      case None =>
        // The foreign key of the challenge records, and the primary key.
        if Gone(db, p, names) * db.pinned != {} || !FreshIds(db, ids) then Outcome(db, Refused)
        else
          var after := EndJob(db, j, Succeeded(now, |names|), RefreshSucceeded);
          var zones := Inserted(db, p, names, ids, |names|);
          var providers :=
            if p in after.providers then after.providers[p := after.providers[p].(lastRefresh := Some(now))]
            else after.providers;
          Outcome(after.(zones := zones, providers := providers), Row(j))
  }

  function DoFail(db: Db, j: Id, p: Id, worker: Worker, code: string, now: Time): Outcome {
    if j !in db.jobs || db.jobs[j].provider != p || !Live(db.jobs[j], worker, now) then Outcome(db, NoRows)
    else if code == ZONE_CONFLICT then Outcome(db, Refused)
    else Outcome(EndJob(db, j, Failed(now, code, None), RefreshFailed(code)), Row(j))
  }

  /** A challenge record is inserted for the zone. */
  function DoPin(db: Db, z: Id): Outcome {
    if z !in db.zones then Outcome(db, Refused) else Outcome(db.(pinned := db.pinned + {z}), Row(z))
  }

  /** The last challenge record of the zone goes away. */
  function DoUnpin(db: Db, z: Id): Outcome {
    Outcome(db.(pinned := db.pinned - {z}), NoRows)
  }

  // ----- One refresh -----

  /** The unique index on zone names. */
  predicate OneOwner(db: Db) {
    forall y, z :: y in db.zones && z in db.zones && db.zones[y].name == db.zones[z].name ==> y == z
  }

  lemma {:induction false} InsertedRows(db: Db, p: Id, names: seq<string>, ids: seq<Id>, n: nat)
    requires |ids| == |names| && n <= |names| && FreshIds(db, ids)
    ensures
      var zones := Inserted(db, p, names, ids, n);
      && (forall z :: z in db.zones ==>
            (z in zones <==> z !in Gone(db, p, names)) && (z in zones ==> zones[z] == db.zones[z]))
      && (forall i :: 0 <= i < |ids| ==> (ids[i] in zones <==> i < n && !Owns(db, p, names[i])))
      && (forall i :: 0 <= i < n && !Owns(db, p, names[i]) ==> zones[ids[i]] == Zone(p, names[i]))
      && (forall z :: z in zones && z !in db.zones ==> exists i :: 0 <= i < n && z == ids[i])
  {
    hide Owns, Gone;
    if n > 0 {
      InsertedRows(db, p, names, ids, n - 1);
    }
  }

  /**
    What a refresh that finds no clash makes of the zones: the provider has exactly the names, kept rows are the
    old ones, others' rows stay.
   */
  ghost predicate Replaces(before: map<Id, Zone>, after: map<Id, Zone>, p: Id, names: seq<string>) {
    && (forall name :: name in names <==> exists z :: z in after && after[z] == Zone(p, name))
    && (forall z :: z in before && (before[z].provider != p || before[z].name in names) ==> z in after)
    && (forall z :: z in before && z in after ==> after[z] == before[z])
    && (forall z :: z in after && z !in before ==> after[z].provider == p)
  }

  lemma InsertedReplaces(db: Db, p: Id, names: seq<string>, ids: seq<Id>)
    requires |ids| == |names| && FreshIds(db, ids) && FirstClash(db, p, names).None?
    ensures Replaces(db.zones, Inserted(db, p, names, ids, |names|), p, names)
  {
    var zones := Inserted(db, p, names, ids, |names|);
    InsertedRows(db, p, names, ids, |names|);
    hide Inserted, FreshIds;
    forall name | name in names ensures exists z :: z in zones && zones[z] == Zone(p, name) {
      var i :| 0 <= i < |names| && names[i] == name;
      if Owns(db, p, name) {
        var z :| z in db.zones && db.zones[z].provider == p && db.zones[z].name == name;
        assert z !in Gone(db, p, names);
        assert zones[z] == Zone(p, name);
      } else {
        assert zones[ids[i]] == Zone(p, name);
      }
    }
    forall z | z in zones && z !in db.zones ensures zones[z].provider == p && zones[z].name in names {
      var i :| 0 <= i < |ids| && z == ids[i];
    }
    forall z | z in zones && zones[z].provider == p ensures zones[z].name in names {
      if z in db.zones {
        assert z !in Gone(db, p, names);
      }
    }
  }

  /** A name inserted without a clash was no zone's before. */
  lemma NewNameIsFree(db: Db, p: Id, name: string)
    requires !Owns(db, p, name) && !Clashes(db, p, name)
    ensures forall z :: z in db.zones ==> db.zones[z].name != name
  {
  }

  lemma InsertedOneOwner(db: Db, p: Id, names: seq<string>, ids: seq<Id>)
    requires |ids| == |names| && FreshIds(db, ids) && FirstClash(db, p, names).None? && OneOwner(db) && Distinct(names)
    ensures OneOwner(db.(zones := Inserted(db, p, names, ids, |names|)))
  {
    var zones := Inserted(db, p, names, ids, |names|);
    InsertedRows(db, p, names, ids, |names|);
    hide Inserted, Owns, Clashes, Gone;
    forall i | 0 <= i < |names| && !Owns(db, p, names[i])
      ensures forall z :: z in db.zones ==> db.zones[z].name != names[i]
    {
      NewNameIsFree(db, p, names[i]);
    }
  }

  /**
    A completed refresh leaves the provider exactly the discovered zones and touches no other provider; on a
    clash it changes no zone.
   */
  lemma CompleteIsExact(db: Db, j: Id, p: Id, worker: Worker, names: seq<string>, ids: seq<Id>, now: Time)
    requires |ids| == |names| && OneOwner(db)
    ensures
      var r := DoComplete(db, j, p, worker, names, ids, now);
      && OneOwner(r.db)
      && (if r.reply.Row? && FirstClash(db, p, names).None? then
            Replaces(db.zones, r.db.zones, p, names) && r.db.jobs[j].state == Succeeded(now, |names|)
          else r.db.zones == db.zones)
  {
    hide Inserted;
    if FirstClash(db, p, names).None? && FreshIds(db, ids) && Distinct(names) {
      InsertedReplaces(db, p, names, ids);
      InsertedOneOwner(db, p, names, ids);
    }
  }

  /** A clash is reported as the longest clashing name, the first of those in order, with its real owner. */
  lemma {:induction false} ClashReported(db: Db, p: Id, names: seq<string>, name: string)
    requires name in names && Clashes(db, p, name)
    ensures
      var first := FirstClash(db, p, names);
      first.Some? && first.value in names && Clashes(db, p, first.value)
        && (first.value == name || Precedes(first.value, name))
  {
    hide Clashes;
    var rest, last := names[..|names| - 1], names[|names| - 1];
    assert names == rest + [last];
    if name in rest {
      ClashReported(db, p, rest, name);
      var before := FirstClash(db, p, rest).value;
      if Clashes(db, p, last) && Precedes(last, before) {
        PrecedesIsTransitive(last, before, name);
      }
    } else if FirstClash(db, p, rest).Some? {
      PrecedesIsTotal(FirstClash(db, p, rest).value, last);
    }
  }

  lemma PrecedesIsTransitive(a: string, b: string, c: string)
    requires Precedes(a, b) && (b == c || Precedes(b, c))
    ensures Precedes(a, c)
  {
    if |a| == |b| == |c| && b != c {
      LessIsTransitive(a, b, c);
    }
  }

  lemma PrecedesIsTotal(a: string, b: string)
    ensures a == b || Precedes(a, b) || Precedes(b, a)
  {
    LessIsTotal(a, b);
  }

  /** A worker without a live lease on the job changes nothing, whichever way it tries to end it. */
  lemma StaleWorkerChangesNothing(db: Db, j: Id, p: Id, worker: Worker, names: seq<string>, ids: seq<Id>, code: string,
                                  now: Time)
    requires |ids| == |names| && !(j in db.jobs && db.jobs[j].provider == p && Live(db.jobs[j], worker, now))
    ensures DoComplete(db, j, p, worker, names, ids, now).db == db
    ensures DoFail(db, j, p, worker, code, now) == Outcome(db, NoRows)
  {
  }

  // ----- Steps and runs -----

  datatype Step =
    | CreateProvider(provider: Id, mode: ZoneMode, active: bool)
    | UpdateProvider(provider: Id, mode: ZoneMode, active: bool)
    | AddZone(zone: Id, provider: Id, name: string)
    | DeleteZone(provider: Id, zone: Id)
    | EnsureJob(job: Id, provider: Id)
    | Claim(worker: Worker, until: Time, asked: Time, skipped: set<Id>)
    | Complete(job: Id, provider: Id, worker: Worker, names: seq<string>, ids: seq<Id>)
    | Fail(job: Id, provider: Id, worker: Worker, code: string)
    | Pin(zone: Id)
    | Unpin(zone: Id)

  ghost function Apply(db: Db, step: Step, now: Time): Outcome {
    match step
    case CreateProvider(p, mode, active) => DoCreateProvider(db, p, mode, active)
    case UpdateProvider(p, mode, active) => DoUpdateProvider(db, p, mode, active)
    case AddZone(z, p, name) => DoAddZone(db, z, p, name)
    case DeleteZone(p, z) => DoDeleteZone(db, p, z)
    case EnsureJob(j, p) => DoEnsureJob(db, j, p, now)
    case Claim(worker, until, asked, skipped) => DoClaim(db, worker, until, asked, skipped, now)
    // One id is made for each name.
    case Complete(j, p, worker, names, ids) =>
      if |ids| == |names| then DoComplete(db, j, p, worker, names, ids, now) else Outcome(db, Invalid)
    case Fail(j, p, worker, code) => DoFail(db, j, p, worker, code, now)
    case Pin(z) => DoPin(db, z)
    case Unpin(z) => DoUnpin(db, z)
  }

  datatype Timed = Timed(step: Step, now: Time)

  ghost predicate Clocked(run: seq<Timed>) {
    forall i, k :: 0 <= i < k < |run| ==> run[i].now <= run[k].now
  }

  ghost function At(run: seq<Timed>, i: nat): Db
    requires i <= |run|
  {
    if i == 0 then EMPTY else Apply(At(run, i - 1), run[i - 1].step, run[i - 1].now).db
  }

  ghost function ReplyAt(run: seq<Timed>, i: nat): Reply
    requires i < |run|
  {
    Apply(At(run, i), run[i].step, run[i].now).reply
  }

  /** The partial unique index on the jobs still to finish. */
  predicate OneActiveJob(db: Db) {
    forall j, k ::
      j in db.jobs && k in db.jobs && db.jobs[j].provider == db.jobs[k].provider
      && Active(db.jobs[j]) && Active(db.jobs[k])
      ==> j == k
  }

  /** The foreign keys. */
  predicate Linked(db: Db) {
    && (forall z :: z in db.zones ==> db.zones[z].provider in db.providers)
    && (forall j :: j in db.jobs ==> db.jobs[j].provider in db.providers)
    && (forall z :: z in db.pinned ==> z in db.zones)
  }

  predicate Indexes(db: Db) {
    OneOwner(db) && OneActiveJob(db) && Linked(db)
  }

  /**
    What a completion leaves alone: providers' ids, the challenge records' references, and every job but its
    own, which ends.
   */
  lemma CompleteFrame(db: Db, j: Id, p: Id, worker: Worker, names: seq<string>, ids: seq<Id>, now: Time)
    requires |ids| == |names|
    ensures
      var r := DoComplete(db, j, p, worker, names, ids, now);
      && r.db.providers.Keys == db.providers.Keys && r.db.pinned == db.pinned && r.db.jobs.Keys == db.jobs.Keys
      && (forall k :: k in db.jobs ==>
            r.db.jobs[k] == db.jobs[k] || (r.db.jobs[k].provider == db.jobs[k].provider && !Active(r.db.jobs[k])))
  {
    hide Inserted, FirstClash, FreshIds, Gone;
  }

  lemma CompleteLinks(db: Db, j: Id, p: Id, worker: Worker, names: seq<string>, ids: seq<Id>, now: Time)
    requires |ids| == |names| && Linked(db)
    ensures
      var r := DoComplete(db, j, p, worker, names, ids, now);
      && (forall z :: z in r.db.zones ==> r.db.zones[z].provider in db.providers)
      && (forall z :: z in db.pinned ==> z in r.db.zones)
  {
    var r := DoComplete(db, j, p, worker, names, ids, now);
    if r.db.zones != db.zones {
      assert FreshIds(db, ids) && p == db.jobs[j].provider && Gone(db, p, names) * db.pinned == {};
      InsertedRows(db, p, names, ids, |names|);
      InsertedReplaces(db, p, names, ids);
      assert r.db.zones == Inserted(db, p, names, ids, |names|);
      hide DoComplete, Inserted, FirstClash, FreshIds, Gone;
      forall z | z in db.pinned ensures z in r.db.zones {
        assert z !in Gone(db, p, names) * db.pinned;
      }
    }
  }

  lemma EnsureKeepsIndexes(db: Db, j: Id, p: Id, now: Time)
    requires Indexes(db)
    ensures Indexes(DoEnsureJob(db, j, p, now).db)
  {
    assert forall k :: k in db.jobs && db.jobs[k].provider == p && Active(db.jobs[k]) ==> k in ActiveJobs(db, p);
  }

  lemma StepKeepsIndexes(db: Db, step: Step, now: Time)
    requires Indexes(db)
    ensures Indexes(Apply(db, step, now).db)
  {
    hide DoComplete, DoEnsureJob;
    match step
    case Complete(j, p, worker, names, ids) =>
      if |ids| == |names| {
        CompleteIsExact(db, j, p, worker, names, ids, now);
        CompleteFrame(db, j, p, worker, names, ids, now);
        CompleteLinks(db, j, p, worker, names, ids, now);
      }
    case EnsureJob(j, p) => EnsureKeepsIndexes(db, j, p, now);
    case _ =>
  }

  /** In every run each zone name has at most one owner, and each provider at most one unfinished refresh. */
  lemma {:induction false} RunKeepsIndexes(run: seq<Timed>, i: nat)
    requires i <= |run|
    ensures Indexes(At(run, i))
  {
    if i > 0 {
      hide Apply, Indexes;
      RunKeepsIndexes(run, i - 1);
      StepKeepsIndexes(At(run, i - 1), run[i - 1].step, run[i - 1].now);
    } else {
      hide Apply;
    }
  }

  /** Zone rows never change, and one that a challenge record refers to does not go away. */
  lemma ZoneRowsAreFinal(db: Db, step: Step, now: Time, z: Id)
    requires Indexes(db) && z in db.zones
    ensures
      var after := Apply(db, step, now).db;
      && (z in after.zones ==> after.zones[z] == db.zones[z])
      && (z in db.pinned ==> z in after.zones)
      && (z !in after.zones ==>
            (step.DeleteZone? && step.zone == z) || (step.Complete? && step.provider == db.zones[z].provider))
  {
    hide Inserted, FirstClash, FreshIds;
    if step.Complete? && |step.ids| == |step.names| {
      hide DoEnsureJob, DoClaim;
      if FirstClash(db, step.provider, step.names).None? && FreshIds(db, step.ids) {
        InsertedRows(db, step.provider, step.names, step.ids, |step.names|);
        InsertedReplaces(db, step.provider, step.names, step.ids);
      }
    } else {
      hide DoComplete;
    }
  }

  // ----- Leases of refresh jobs -----

  /**
    What a step does to one job: nothing, a claim once it waits or its lease has lapsed, or its end under the
    lease.
   */
  ghost predicate JobMoves(before: Job, after: Job, step: Step, now: Time) {
    || after == before
    || (step.Claim? && Claimable(before, now) && after.state == Running(step.worker, step.until)
       && step.asked < step.until)
    || (step.Complete? && Live(before, step.worker, now) && (after.state.Succeeded? || after.state.Failed?))
    || (step.Fail? && Live(before, step.worker, now) && after.state.Failed?)
  }

  lemma StepMovesJobs(db: Db, step: Step, now: Time, j: Id)
    requires j in db.jobs
    ensures j in Apply(db, step, now).db.jobs && JobMoves(db.jobs[j], Apply(db, step, now).db.jobs[j], step, now)
  {
    hide Inserted, FirstClash, FreshIds;
    if !step.Complete? {
      hide DoComplete;
    } else {
      hide DoEnsureJob, DoClaim;
    }
  }

  /** The claim of job `j` at step `i` took effect. */
  ghost predicate ClaimedAt(run: seq<Timed>, i: nat, j: Id)
    requires i < |run|
  {
    run[i].step.Claim? && ReplyAt(run, i) == Row(j)
  }

  lemma ClaimTakes(db: Db, step: Step, now: Time, j: Id)
    requires step.Claim? && Apply(db, step, now).reply == Row(j)
    ensures
      var after := Apply(db, step, now).db;
      j in db.jobs && Claimable(db.jobs[j], now) && j in after.jobs
        && after.jobs[j].state == Running(step.worker, step.until)
  {
    hide DoComplete, DoEnsureJob;
  }

  /** After a claim the job runs under that claim, or ended, or was claimed again once that lease was over. */
  lemma {:induction false} AfterClaim(run: seq<Timed>, i: nat, m: nat, j: Id)
    requires Clocked(run) && i < m <= |run| && ClaimedAt(run, i, j)
    ensures
      && j in At(run, m).jobs
      && match At(run, m).jobs[j].state
         case Waiting => false
         case Running(holder, until) =>
           (holder == run[i].step.worker && until == run[i].step.until) || run[i].step.until <= run[m - 1].now
         case _ => true
    decreases m
  {
    if m == i + 1 {
      ClaimTakes(At(run, i), run[i].step, run[i].now, j);
    } else {
      AfterClaim(run, i, m - 1, j);
      StepMovesJobs(At(run, m - 1), run[m - 1].step, run[m - 1].now, j);
    }
    hide Apply;
  }

  /** Two claims of one job never hold it at the same time. */
  lemma LeasesDoNotOverlap(run: seq<Timed>, i: nat, k: nat, j: Id)
    requires Clocked(run) && i < k < |run| && ClaimedAt(run, i, j) && ClaimedAt(run, k, j)
    ensures run[i].step.until <= run[k].now
  {
    AfterClaim(run, i, k, j);
    ClaimTakes(At(run, k), run[k].step, run[k].now, j);
    hide Apply;
  }

  /**
    A completion or failure that takes effect is the holder's own, inside the lease of its claim, with no claim
    of the job in between.
   */
  lemma EndedUnderOwnLease(run: seq<Timed>, k: nat, j: Id) returns (i: nat)
    requires k < |run| && (run[k].step.Complete? || run[k].step.Fail?) && ReplyAt(run, k) == Row(j)
    ensures i < k && ClaimedAt(run, i, j) && (forall m: nat :: i < m < k ==> !ClaimedAt(run, m, j))
    ensures run[i].step.worker == run[k].step.worker && run[k].now < run[i].step.until
  {
    assert j in At(run, k).jobs && Live(At(run, k).jobs[j], run[k].step.worker, run[k].now) by {
      hide DoEnsureJob, DoClaim, Inserted, FirstClash, FreshIds;
    }
    hide Apply;
    i := LastClaim(run, k, j);
  }

  lemma {:induction false} LastClaim(run: seq<Timed>, k: nat, j: Id) returns (i: nat)
    requires k <= |run| && j in At(run, k).jobs && At(run, k).jobs[j].state.Running?
    ensures i < k && ClaimedAt(run, i, j) && (forall m: nat :: i < m < k ==> !ClaimedAt(run, m, j))
    ensures At(run, k).jobs[j].state == Running(run[i].step.worker, run[i].step.until)
  {
    var before, step, now := At(run, k - 1), run[k - 1].step, run[k - 1].now;
    if ClaimedAt(run, k - 1, j) {
      ClaimTakes(before, step, now, j);
      i := k - 1;
    } else {
      RunsOn(before, step, now, j);
      hide Apply;
      i := LastClaim(run, k - 1, j);
    }
  }

  /** Only a claim makes a job run. */
  lemma RunsOn(db: Db, step: Step, now: Time, j: Id)
    requires
      var r := Apply(db, step, now);
      j in r.db.jobs && r.db.jobs[j].state.Running? && !(step.Claim? && r.reply == Row(j))
    ensures j in db.jobs && db.jobs[j].state == Apply(db, step, now).db.jobs[j].state
  {
    hide Inserted, FirstClash, FreshIds;
  }

  /** A finished refresh stays finished. */
  lemma {:induction false} FinishedForGood(run: seq<Timed>, i: nat, k: nat, j: Id)
    requires i <= k <= |run| && j in At(run, i).jobs && !Active(At(run, i).jobs[j])
    ensures j in At(run, k).jobs && At(run, k).jobs[j] == At(run, i).jobs[j]
    decreases k
  {
    if i < k {
      FinishedForGood(run, i, k - 1, j);
      StepMovesJobs(At(run, k - 1), run[k - 1].step, run[k - 1].now, j);
      hide Apply;
    }
  }

  // ----- The repository -----

  lemma OneNext(db: Db, skipped: set<Id>, now: Time, j: Id, k: Id)
    requires NextJob(db, skipped, now, j) && NextJob(db, skipped, now, k)
    ensures j == k
  {
  }

  lemma OwnerIs(db: Db, p: Id, name: string, z: Id)
    requires OneOwner(db) && z in db.zones && db.zones[z].name == name && db.zones[z].provider != p
    ensures Clashes(db, p, name) && Owner(db, p, name) == db.zones[z].provider
  {
  }

  class Repository {
    var providers: map<Id, Provider>
    var zones: map<Id, Zone>
    var pinned: set<Id>
    var jobs: map<Id, Job>

    function Rows(): Db
      reads this
    {
      Db(providers, zones, pinned, jobs)
    }

    constructor ()
      ensures Rows() == EMPTY
    {
      providers, zones, pinned, jobs := map[], map[], {}, map[];
    }

    method AddZone(z: Id, p: Id, name: string) returns (reply: Reply)
      modifies this`zones
      ensures Outcome(Rows(), reply) == DoAddZone(old(Rows()), z, p, name)
    {
      if p !in providers || providers[p].mode != Manual {
        return NoRows;
      }
      if z in zones || exists k :: k in zones && zones[k].name == name {
        return Refused;
      }
      zones := zones[z := Zone(p, name)];
      return Row(z);
    }

    method DeleteZone(p: Id, z: Id) returns (reply: Reply)
      modifies this`zones
      ensures Outcome(Rows(), reply) == DoDeleteZone(old(Rows()), p, z)
    {
      if p !in providers || providers[p].mode != Manual || z !in zones || zones[z].provider != p {
        return NoRows;
      }
      if z in pinned {
        return Refused;
      }
      zones := zones - {z};
      return Row(z);
    }

    method EnsureRefreshJob(j: Id, p: Id, now: Time) returns (reply: Reply)
      requires OneActiveJob(Rows())
      modifies this`jobs, this`providers
      ensures OneActiveJob(Rows())
      ensures Outcome(Rows(), reply) == DoEnsureJob(old(Rows()), j, p, now)
    {
      if p !in providers {
        return Refused;
      }
      var active := ActiveJobs(Rows(), p);
      assert forall k :: k in jobs && jobs[k].provider == p && Active(jobs[k]) ==> k in active;
      if active != {} {
        var k :| k in active;
        providers := providers[p :=
          providers[p].(refresh := if jobs[k].state.Running? then RefreshRunning else RefreshPending)];
        return Row(k);
      }
      if j in jobs {
        return Refused;
      }
      providers := providers[p := providers[p].(refresh := RefreshPending)];
      jobs := jobs[j := Job(p, Waiting, now, None)];
      return Row(j);
    }

    method ClaimNextRefreshJob(worker: Worker, until: Time, asked: Time, skipped: set<Id>, now: Time)
      returns (reply: Reply)
      modifies this`jobs, this`providers
      ensures Outcome(Rows(), reply) == DoClaim(old(Rows()), worker, until, asked, skipped, now)
    {
      if until <= asked {
        return Invalid;
      }
      if j :| j in jobs && NextJob(Rows(), skipped, now, j) {
        forall k | NextJob(Rows(), skipped, now, k) ensures k == j {
          OneNext(Rows(), skipped, now, j, k);
        }
        var row := jobs[j];
        jobs := jobs[j := row.(state := Running(worker, until), startedAt := Some(Coalesce(row.startedAt, now)))];
        if row.provider in providers {
          providers := providers[row.provider := providers[row.provider].(refresh := RefreshRunning)];
        }
        return Row(j);
      }
      return NoRows;
    }

    /** Deletes the zones that were not discovered again and inserts the new ones, or fails the job on a clash. */
    method CompleteRefreshJobSuccess(j: Id, p: Id, worker: Worker, names: seq<string>, ids: seq<Id>, now: Time)
      returns (reply: Reply)
      requires |ids| == |names| && OneOwner(Rows())
      modifies this
      ensures OneOwner(Rows())
      ensures Outcome(Rows(), reply) == DoComplete(old(Rows()), j, p, worker, names, ids, now)
    {
      CompleteIsExact(Rows(), j, p, worker, names, ids, now);
      hide Inserted, FreshIds, Replaces, OneOwner;
      if !Distinct(names) {
        return Invalid;
      }
      if j !in jobs || jobs[j].provider != p || !Live(jobs[j], worker, now) {
        return NoRows;
      }
      var before := Rows();
      var clash := FirstClash(before, p, names);
      if clash.Some? {
        var z :| z in zones && zones[z].name == clash.value && zones[z].provider != p;
        OwnerIs(before, p, clash.value, z);
        End(j, Failed(now, ZONE_CONFLICT, Some((clash.value, zones[z].provider))), RefreshFailed(ZONE_CONFLICT));
        return Row(j);
      }
      var gone := Gone(before, p, names);
      if gone * pinned != {} || !FreshIds(before, ids) {
        return Refused;
      }
      zones := zones - gone;
      InsertZones(before, p, names, ids);
      End(j, Succeeded(now, |names|), RefreshSucceeded);
      if p in providers {
        providers := providers[p := providers[p].(lastRefresh := Some(now))];
      }
      return Row(j);
    }

    /** `insert into dns_provider_zones` for the names the provider did not have. */
    method InsertZones(before: Db, p: Id, names: seq<string>, ids: seq<Id>)
      requires |ids| == |names| && zones == before.zones - Gone(before, p, names)
      modifies this`zones
      ensures zones == Inserted(before, p, names, ids, |names|)
    {
      hide Owns, Gone;
      for i := 0 to |names|
        invariant zones == Inserted(before, p, names, ids, i)
      {
        if !Owns(before, p, names[i]) {
          zones := zones[ids[i] := Zone(p, names[i])];
        }
      }
    }

    method End(j: Id, state: JobState, refresh: RefreshStatus)
      requires j in jobs
      modifies this`jobs, this`providers
      ensures Rows() == EndJob(old(Rows()), j, state, refresh)
    {
      var row := jobs[j];
      jobs := jobs[j := row.(state := state)];
      if row.provider in providers {
        providers := providers[row.provider := providers[row.provider].(refresh := refresh)];
      }
    }

    method FailRefreshJob(j: Id, p: Id, worker: Worker, code: string, now: Time) returns (reply: Reply)
      modifies this`jobs, this`providers
      ensures Outcome(Rows(), reply) == DoFail(old(Rows()), j, p, worker, code, now)
    {
      if j !in jobs || jobs[j].provider != p || !Live(jobs[j], worker, now) {
        return NoRows;
      }
      if code == ZONE_CONFLICT {
        return Refused;
      }
      End(j, Failed(now, code, None), RefreshFailed(code));
      return Row(j);
    }
  }

  // ----- Validation -----

  /** The zone names of a completion, normalised in place; a repeated or invalid name is refused. */
  method NormalizeZoneNames(normalize: Normalizer, names: array<string>) returns (ok: bool)
    modifies names
    ensures ok <==>
      && AllValid(normalize, old(names[..]))
      && forall i, k :: 0 <= i < k < names.Length ==> normalize(old(names[i])) != normalize(old(names[k]))
    ensures ok ==>
              && Distinct(names[..])
              && forall i :: 0 <= i < names.Length ==> normalize(old(names[i])) == Some(names[i])
  {
    var seen: set<string> := {};
    for i := 0 to names.Length
      invariant AllValid(normalize, old(names[..i])) && Distinct(names[..i])
      invariant forall k :: 0 <= k < i ==> normalize(old(names[k])) == Some(names[k])
      invariant forall k :: i <= k < names.Length ==> names[k] == old(names[k])
      invariant forall name :: name in seen <==> name in names[..i]
    {
      var name := normalize(names[i]);
      if name.None? {
        assert normalize(old(names[..])[i]).None?;
        return false;
      }
      if name.value in seen {
        assert exists k :: 0 <= k < i && names[..i][k] == name.value;
        return false;
      }
      seen := seen + {name.value};
      names[i] := name.value;
    }
    return true;
  }
}
