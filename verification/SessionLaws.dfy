/**
  What the statements on login sessions and one-time tokens achieve, and exactly when, told on the columns of the
  rows alone.
 */
module SessionLaws {
  import opened Base
  import opened Sessions
  import opened SessionRuns

  // ----- Words -----

  predicate Taken(db: AuthDb, hash: string) {
    || (exists s :: s in db.sessions && db.sessions[s].hash == hash)
    || (exists k :: k in db.tokens && db.tokens[k].hash == hash)
  }

  /** An active session is closed, with the reason it has or the given one; any other session stays. */
  predicate ClosedFor(before: Session, after: Session, reason: string) {
    after == if before.status == SessionActive
             then before.(status := SessionRevoked, revokedReason := First(before.revokedReason, reason))
             else before
  }

  predicate RevokedToken(before: Token, after: Token) {
    after == if before.status == TokenActive then before.(status := TokenRevoked) else before
  }

  /** The user's active rows of a table of one-time tokens are ended; every other row stays. */
  predicate EndedFor(before: map<Id, OneTime>, after: map<Id, OneTime>, user: Id, status: OneTimeStatus) {
    && after.Keys == before.Keys
    && forall r :: r in before ==>
         after[r] == if before[r].user == user && before[r].status == OneTimeActive then before[r].(status := status)
                     else before[r]
  }

  // ----- Sessions -----

  /** A session opens with its first token, when it outlives the token, the token its issue, and the hash is new. */
  lemma OpensWithFirstToken(db: AuthDb, step: AuthStep, now: Time)
    requires step.CreateSession?
    ensures
      var r := Step(db, step, now);
      if !(step.issuedAt < step.accessExpiresAt < step.sessionExpiresAt) then r == AuthOutcome(db, Invalid)
      else if step.id in db.sessions || step.token in db.tokens || Taken(db, step.hash)
      then r == AuthOutcome(db, Conflict)
      else
        r == AuthOutcome(db.(
          sessions := db.sessions[step.id :=
            Session(step.user, step.hash, SessionActive, step.accessExpiresAt, step.sessionExpiresAt, None)],
          tokens := db.tokens[step.token :=
            Token(step.id, step.hash, TokenActive, step.issuedAt, step.accessExpiresAt, None)]), Done(step.id))
  {
  }

  /** One active session closes together with its active tokens. */
  lemma ClosesOneSession(db: AuthDb, s: Id, reason: string, now: Time)
    ensures
      var r := Step(db, RevokeSession(s, reason), now);
      if s !in db.sessions || db.sessions[s].status != SessionActive then r == AuthOutcome(db, NoRows)
      else
        && r.reply == Done(s)
        && r.db == db.(sessions := r.db.sessions, tokens := r.db.tokens)
        && s in r.db.sessions && r.db.sessions == db.sessions[s := r.db.sessions[s]]
        && ClosedFor(db.sessions[s], r.db.sessions[s], reason)
        && r.db.tokens.Keys == db.tokens.Keys
        && forall k :: k in db.tokens ==>
             if db.tokens[k].session == s then RevokedToken(db.tokens[k], r.db.tokens[k])
             else r.db.tokens[k] == db.tokens[k]
  {
  }

  /**
    Closing a user's sessions: in every reachable state the user afterwards has no active session, token, setup or
    handoff, and none of the sessions' hashes is accepted at any time; sessions, tokens, setups and handoffs of
    others and all reset tokens stay; the reply counts the sessions that were active.
   */
  lemma ClosesAllOfUser(run: seq<Timed>, i: nat, user: Id, reason: string, now: Time)
    requires Clocked(run) && i <= |run|
    ensures
      var db := At(run, i);
      var r := Step(db, RevokeUserSessions(user, reason), now);
      && UserClosed(db, r.db, user, reason) && UserIsOut(db, r.db, user)
      && r.reply.Changed? && exists ids: set<Id> ::
           r.reply.count == |ids|
           && forall s :: s in ids <==> s in db.sessions && db.sessions[s].user == user
                                        && db.sessions[s].status == SessionActive
  {
    var db := At(run, i);
    RunIsFaithful(run, i, if i > 0 then run[i - 1].now else 0);
    hide At, Clocked;
    UserStatement(db, user, reason, now);
    UserOut(db, Step(db, RevokeUserSessions(user, reason), now).db, user, reason,
            if i > 0 then run[i - 1].now else 0);
  }

  /** Row by row: what belongs to the user ends, all else stays. */
  ghost predicate UserClosed(db: AuthDb, after: AuthDb, user: Id, reason: string) {
    && after.sessions.Keys == db.sessions.Keys && after.tokens.Keys == db.tokens.Keys
    && (forall s :: s in db.sessions ==>
          if db.sessions[s].user == user then ClosedFor(db.sessions[s], after.sessions[s], reason)
          else after.sessions[s] == db.sessions[s])
    && (forall k :: k in db.tokens ==>
          var s := db.tokens[k].session;
          if s in db.sessions && db.sessions[s].user == user && db.sessions[s].status == SessionActive
          then RevokedToken(db.tokens[k], after.tokens[k])
          else after.tokens[k] == db.tokens[k])
    && EndedFor(db.setups, after.setups, user, Superseded)
    && EndedFor(db.handoffs, after.handoffs, user, Expired)
    && after.resets == db.resets
  }

  /** Nothing of the user is active, and no hash of the user's sessions opens anything. */
  ghost predicate UserIsOut(db: AuthDb, after: AuthDb, user: Id) {
    && (forall s :: s in after.sessions && after.sessions[s].user == user ==>
          && after.sessions[s].status != SessionActive
          && (forall t :: !FastAccepts(after, after.sessions[s].hash, t))
          && (forall k :: k in after.tokens && after.tokens[k].session == s ==> after.tokens[k].status != TokenActive))
    && (forall r :: r in after.setups && after.setups[r].user == user ==> after.setups[r].status != OneTimeActive)
    && (forall r :: r in after.handoffs && after.handoffs[r].user == user ==> after.handoffs[r].status != OneTimeActive)
  }

  lemma UserStatement(db: AuthDb, user: Id, reason: string, now: Time)
    ensures
      var r := Step(db, RevokeUserSessions(user, reason), now);
      && UserClosed(db, r.db, user, reason)
      && r.reply.Changed? && exists ids: set<Id> ::
           r.reply.count == |ids|
           && forall s :: s in ids <==> s in db.sessions && db.sessions[s].user == user
                                        && db.sessions[s].status == SessionActive
  {
    var ids := ActiveSessions(db, user);
    assert forall s :: s in ids <==> s in db.sessions && db.sessions[s].user == user
                                     && db.sessions[s].status == SessionActive;
  }

  lemma UserOut(db: AuthDb, after: AuthDb, user: Id, reason: string, now: Time)
    requires Faithful(db, now) && UserClosed(db, after, user, reason)
    ensures UserIsOut(db, after, user)
  {
    forall k | k in db.tokens ensures TokenFits(db, k) {
    }
    forall s, t | s in after.sessions && after.sessions[s].user == user
      ensures !FastAccepts(after, after.sessions[s].hash, t)
    {
    }
  }

  // ----- Rotation -----

  /** The presented token is `reused`, its active siblings are revoked, its session is closed for that reason. */
  ghost predicate ReuseRecorded(db: AuthDb, after: AuthDb, k: Id)
    requires k in db.tokens
  {
    var s := db.tokens[k].session;
    && after == db.(sessions := after.sessions, tokens := after.tokens)
    && after.tokens.Keys == db.tokens.Keys && after.sessions.Keys == db.sessions.Keys
    && after.tokens[k] == db.tokens[k].(status := TokenReused)
    && (forall l :: l in db.tokens && l != k ==>
          if db.tokens[l].session == s then RevokedToken(db.tokens[l], after.tokens[l])
          else after.tokens[l] == db.tokens[l])
    && (forall t :: t in db.sessions ==>
          if t == s then ClosedFor(db.sessions[t], after.sessions[t], "token_reuse")
          else after.sessions[t] == db.sessions[t])
  }

  predicate TokenEnded(db: AuthDb, after: AuthDb, k: Id)
    requires k in db.tokens
  {
    after == db.(tokens := db.tokens[k := db.tokens[k].(status := TokenExpired)])
  }

  /**
    The next token is valid until the earlier of the asked time and the session's end; the presented one is
    retired and the session row caches the next one.
   */
  ghost predicate TokenReplaced(db: AuthDb, after: AuthDb, k: Id, newId: Id, next: string, expiresAt: Time, now: Time)
    requires k in db.tokens && db.tokens[k].session in db.sessions
  {
    var s := db.tokens[k].session;
    exists until ::
      && until <= expiresAt && until <= db.sessions[s].sessionExpiresAt
      && (until == expiresAt || until == db.sessions[s].sessionExpiresAt)
      && now < until && newId !in db.tokens && !Taken(db, next)
      && after == db.(
           tokens := db.tokens[k := db.tokens[k].(status := TokenRotated, rotatedAt := Some(now))]
                              [newId := Token(s, next, TokenActive, now, until, None)],
           sessions := db.sessions[s := db.sessions[s].(hash := next, accessExpiresAt := until)])
  }

  /** What presenting the token of history row `k` leads to. */
  ghost predicate Presented(db: AuthDb, r: AuthOutcome, k: Id, newId: Id, next: string, expiresAt: Time, now: Time)
    requires k in db.tokens
  {
    var s := db.tokens[k].session;
    if db.tokens[k].status == TokenActive && s !in db.sessions then r == AuthOutcome(db, NoRows)
    else if db.tokens[k].status != TokenActive || db.sessions[s].status != SessionActive
            || db.sessions[s].hash != db.tokens[k].hash
    then r.reply == AccessTokenReused && ReuseRecorded(db, r.db, k)
    else if db.sessions[s].sessionExpiresAt <= now then r.reply == SessionExpired && TokenEnded(db, r.db, k)
    else if db.tokens[k].accessExpiresAt <= now || db.sessions[s].accessExpiresAt <= now
    then r.reply == AccessTokenExpired && TokenEnded(db, r.db, k)
    else if expiresAt <= now || newId in db.tokens || Taken(db, next) then r == AuthOutcome(db, Conflict)
    else r.reply == Done(s) && TokenReplaced(db, r.db, k, newId, next, expiresAt, now)
  }

  lemma RotatesOrCloses(db: AuthDb, current: string, newId: Id, next: string, expiresAt: Time, now: Time)
    ensures
      var r := Step(db, Rotate(current, newId, next, expiresAt), now);
      if forall k :: k in db.tokens ==> db.tokens[k].hash != current then r == AuthOutcome(db, NoRows)
      else exists k ::
        k in db.tokens && db.tokens[k].hash == current && Presented(db, r, k, newId, next, expiresAt, now)
  {
    hide DoRotate, Presented;
    if k :| HoldsHash(db, k, current) {
      var j := RotatedRow(db, current, newId, next, expiresAt, now);
      PresentedRow(db, j, newId, next, expiresAt, now);
    } else {
      assert forall k :: k in db.tokens ==> HoldsHash(db, k, current) || db.tokens[k].hash != current;
    }
  }

  lemma RotatedRow(db: AuthDb, current: string, newId: Id, next: string, expiresAt: Time, now: Time) returns (j: Id)
    requires exists k :: HoldsHash(db, k, current)
    ensures HoldsHash(db, j, current)
    ensures Step(db, Rotate(current, newId, next, expiresAt), now) == DoRotate(db, j, newId, next, expiresAt, now)
  {
    hide DoRotate;
    j :| HoldsHash(db, j, current)
      && Step(db, Rotate(current, newId, next, expiresAt), now) == DoRotate(db, j, newId, next, expiresAt, now);
  }

  lemma PresentedRow(db: AuthDb, k: Id, newId: Id, next: string, expiresAt: Time, now: Time)
    requires k in db.tokens
    ensures Presented(db, DoRotate(db, k, newId, next, expiresAt, now), k, newId, next, expiresAt, now)
  {
    var after := DoRotate(db, k, newId, next, expiresAt, now);
    if after.reply == AccessTokenReused {
      ReuseRows(db, k);
    } else {
      hide ReuseMarked, ReuseRecorded;
    }
  }

  lemma ReuseRows(db: AuthDb, k: Id)
    requires k in db.tokens
    ensures ReuseRecorded(db, ReuseMarked(db, db.tokens[k].session, k), k)
  {
  }

  // ----- One-time tokens -----

  function Table(db: AuthDb, kind: OneTimeKind): map<Id, OneTime> {
    if kind == SetupToken then db.setups else if kind == HandoffToken then db.handoffs else db.resets
  }

  /** The other tables stay as they are. */
  predicate OnlyTable(db: AuthDb, after: AuthDb, kind: OneTimeKind) {
    && after.sessions == db.sessions && after.tokens == db.tokens
    && (kind != SetupToken ==> after.setups == db.setups)
    && (kind != HandoffToken ==> after.handoffs == db.handoffs)
    && (kind != ResetToken ==> after.resets == db.resets)
  }

  /**
    A new setup or reset token ends the user's active ones of its kind, a handoff leaves them; the hash must be
    new, and a setup or reset token must expire later than now.
   */
  lemma IssuesOneTime(db: AuthDb, kind: OneTimeKind, id: Id, user: Id, hash: string, expiresAt: Time, asked: Time,
                      now: Time)
    ensures
      var r := Step(db, CreateOneTime(kind, id, user, hash, expiresAt, asked), now);
      var rows, after := Table(db, kind), Table(r.db, kind);
      if kind != HandoffToken && expiresAt <= asked then r == AuthOutcome(db, Invalid)
      else if id in rows || exists x :: x in rows && rows[x].hash == hash then r == AuthOutcome(db, Conflict)
      else
        && r.reply == Done(id) && OnlyTable(db, r.db, kind)
        && id in after && after[id] == OneTime(user, hash, OneTimeActive, expiresAt)
        && if kind == HandoffToken then after - {id} == rows else EndedFor(rows, after - {id}, user, Superseded)
  {
    hide Ended, EndedFor;
    var rows := Table(db, kind);
    EndedRows(rows, user, Superseded);
    PutAside(rows, id, OneTime(user, hash, OneTimeActive, expiresAt));
    PutAside(Ended(rows, user, Superseded), id, OneTime(user, hash, OneTimeActive, expiresAt));
  }

  lemma EndedRows(rows: map<Id, OneTime>, user: Id, status: OneTimeStatus)
    ensures EndedFor(rows, Ended(rows, user, status), user, status) && Ended(rows, user, status).Keys == rows.Keys
    ensures forall x :: x in rows ==> Ended(rows, user, status)[x].hash == rows[x].hash
  {
  }

  lemma PutAside(rows: map<Id, OneTime>, id: Id, row: OneTime)
    ensures id !in rows ==> rows[id := row] - {id} == rows
  {
  }

  /** An active row of this hash that has not expired is consumed; without one nothing changes. */
  lemma ConsumesLiveRow(db: AuthDb, kind: OneTimeKind, hash: string, now: Time)
    ensures
      var r := Step(db, ConsumeOneTime(kind, hash), now);
      var rows, after := Table(db, kind), Table(r.db, kind);
      match r.reply
      case Done(x) =>
        && x in rows && rows[x].hash == hash && rows[x].status == OneTimeActive && now < rows[x].expiresAt
        && OnlyTable(db, r.db, kind) && after == rows[x := rows[x].(status := Consumed)]
      case NoRows =>
        r.db == db
        && forall x :: x in rows && rows[x].hash == hash ==> rows[x].status != OneTimeActive || rows[x].expiresAt <= now
      case _ => false
  {
    assert Rows(db, kind) == Table(db, kind);
    forall x | x in Rows(db, kind) && Rows(db, kind)[x].hash == hash && Rows(db, kind)[x].status == OneTimeActive
      && now < Rows(db, kind)[x].expiresAt
      ensures Redeemable(Rows(db, kind), hash, now, x)
    {
    }
  }
}
