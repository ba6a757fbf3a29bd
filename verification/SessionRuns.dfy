/**
  What every run keeps about sessions: the session row is a faithful cache of the token history,
  reuse of a retired token closes the session for good, and no rotation outlives the session.
 */
module SessionRuns {
  import opened Base
  import opened Sessions

  // ----- The cache invariant -----

  ghost predicate UniqueHashes(db: AuthDb) {
    && (forall k, l :: k in db.tokens && l in db.tokens && k != l ==> db.tokens[k].hash != db.tokens[l].hash)
    && (forall s, t :: s in db.sessions && t in db.sessions && s != t ==> db.sessions[s].hash != db.sessions[t].hash)
  }

  /** `k` is the history row that the session row caches. */
  predicate CachedBy(db: AuthDb, k: Id, s: Id) {
    && k in db.tokens && s in db.sessions
    && db.tokens[k].session == s && db.tokens[k].hash == db.sessions[s].hash
    && db.tokens[k].accessExpiresAt == db.sessions[s].accessExpiresAt
  }

  ghost predicate IsCached(db: AuthDb, s: Id) {
    exists k :: CachedBy(db, k, s)
  }

  /** A token of a live session that is no longer active although it is the current one has run out. */
  predicate RanOut(db: AuthDb, k: Id, s: Id, now: Time) {
    (CachedBy(db, k, s) && db.sessions[s].status == SessionActive && db.tokens[k].status != TokenActive) ==>
      db.sessions[s].accessExpiresAt <= now || db.sessions[s].sessionExpiresAt <= now
  }

  /** An active token is the current token of an active session, and no token outlives its session. */
  predicate TokenFits(db: AuthDb, k: Id)
    requires k in db.tokens
  {
    var s := db.tokens[k].session;
    && s in db.sessions
    && db.tokens[k].accessExpiresAt <= db.sessions[s].sessionExpiresAt
    && (db.tokens[k].status == TokenActive ==> db.sessions[s].status == SessionActive && CachedBy(db, k, s))
  }

  ghost predicate Faithful(db: AuthDb, now: Time) {
    && UniqueHashes(db)
    && (forall s {:trigger IsCached(db, s)} :: s in db.sessions ==> IsCached(db, s))
    && (forall k {:trigger TokenFits(db, k)} :: k in db.tokens ==> TokenFits(db, k))
    && (forall k, s :: RanOut(db, k, s, now))
  }

  lemma StaysFaithful(db: AuthDb, earlier: Time, now: Time)
    requires Faithful(db, earlier) && earlier <= now
    ensures Faithful(db, now)
  {
    forall k, s ensures RanOut(db, k, s, now) {
      assert RanOut(db, k, s, earlier);
    }
  }

  /** Some sessions are closed together with their active tokens. */
  predicate Closes(db: AuthDb, after: AuthDb, ids: set<Id>, reason: string) {
    after.sessions == SessionsClosed(db.sessions, ids, reason) && after.tokens == TokensRevoked(db.tokens, ids)
  }

  lemma ClosedRow(db: AuthDb, after: AuthDb, ids: set<Id>, reason: string, k: Id, s: Id)
    requires Closes(db, after, ids, reason)
    ensures CachedBy(after, k, s) <==> CachedBy(db, k, s)
    ensures k in db.tokens && TokenFits(db, k) ==> k in after.tokens && TokenFits(after, k)
    ensures k in after.tokens <==> k in db.tokens
  {
  }

  lemma ClosedRanOut(db: AuthDb, after: AuthDb, ids: set<Id>, reason: string, k: Id, s: Id, now: Time)
    requires Closes(db, after, ids, reason) && RanOut(db, k, s, now)
    ensures RanOut(after, k, s, now)
  {
    ClosedRow(db, after, ids, reason, k, s);
  }

  lemma ClosedHashes(db: AuthDb, after: AuthDb, ids: set<Id>, reason: string)
    requires Closes(db, after, ids, reason) && UniqueHashes(db)
    ensures UniqueHashes(after)
  {
  }

  /** Closing some sessions together with their active tokens keeps the cache faithful. */
  lemma ClosingIsFaithful(db: AuthDb, after: AuthDb, ids: set<Id>, reason: string, now: Time)
    requires Faithful(db, now) && Closes(db, after, ids, reason)
    ensures Faithful(after, now)
  {
    hide Closes, CachedBy, RanOut, TokenFits, UniqueHashes;
    ClosedHashes(db, after, ids, reason);
    forall s | s in after.sessions ensures IsCached(after, s) {
      ClosedKeys(db, after, ids, reason);
      assert IsCached(db, s);
      var k :| CachedBy(db, k, s);
      ClosedRow(db, after, ids, reason, k, s);
    }
    forall k | k in after.tokens ensures TokenFits(after, k) {
      ClosedKeys(db, after, ids, reason);
      assert TokenFits(db, k);
      ClosedRow(db, after, ids, reason, k, 0);
    }
    forall k, s ensures RanOut(after, k, s, now) {
      ClosedRanOut(db, after, ids, reason, k, s, now);
    }
  }

  lemma ClosedKeys(db: AuthDb, after: AuthDb, ids: set<Id>, reason: string)
    requires Closes(db, after, ids, reason)
    ensures after.sessions.Keys == db.sessions.Keys && after.tokens.Keys == db.tokens.Keys
  {
  }

  lemma CreatingIsFaithful(db: AuthDb, id: Id, token: Id, user: Id, hash: string, access: Time, session: Time,
                           issued: Time, now: Time)
    requires Faithful(db, now)
    ensures Faithful(DoCreateSession(db, id, token, user, hash, access, session, issued).db, now)
  {
    var after := DoCreateSession(db, id, token, user, hash, access, session, issued).db;
    if after != db {
      forall s | s in after.sessions ensures IsCached(after, s) {
        if s == id {
          assert CachedBy(after, token, id);
        } else {
          assert IsCached(db, s);
          var k :| CachedBy(db, k, s);
          assert CachedBy(after, k, s);
        }
      }
      forall k | k in after.tokens ensures TokenFits(after, k) {
        assert k != token ==> TokenFits(db, k);
      }
      forall k, s ensures RanOut(after, k, s, now) {
        assert RanOut(db, k, s, now);
      }
    }
  }

  /** Only the status of one token changes; it was not active, or its session has run out. */
  lemma RestatusIsFaithful(db: AuthDb, token: Id, status: TokenStatus, now: Time)
    requires Faithful(db, now) && token in db.tokens && status != TokenActive
    requires db.tokens[token].status == TokenActive ==>
               var s := db.tokens[token].session;
               s in db.sessions ==> db.sessions[s].accessExpiresAt <= now || db.sessions[s].sessionExpiresAt <= now
    ensures Faithful(WithToken(db, token, status), now)
  {
    var after := WithToken(db, token, status);
    assert after.sessions == db.sessions && after.tokens.Keys == db.tokens.Keys && UniqueHashes(after);
    hide WithToken, CachedBy, TokenFits, RanOut, UniqueHashes;
    forall s | s in after.sessions ensures IsCached(after, s) {
      assert IsCached(db, s);
      var k :| CachedBy(db, k, s);
      RestatusRow(db, token, status, k, s, now);
    }
    forall k | k in after.tokens ensures TokenFits(after, k) {
      assert TokenFits(db, k);
      RestatusRow(db, token, status, k, 0, now);
    }
    forall k, s ensures RanOut(after, k, s, now) {
      assert RanOut(db, k, s, now);
      RestatusRow(db, token, status, k, s, now);
    }
  }

  lemma RestatusRow(db: AuthDb, token: Id, status: TokenStatus, k: Id, s: Id, now: Time)
    requires token in db.tokens && status != TokenActive
    requires db.tokens[token].status == TokenActive ==>
               var s := db.tokens[token].session;
               s in db.sessions ==> db.sessions[s].accessExpiresAt <= now || db.sessions[s].sessionExpiresAt <= now
    ensures CachedBy(WithToken(db, token, status), k, s) <==> CachedBy(db, k, s)
    ensures k in db.tokens && TokenFits(db, k) ==> TokenFits(WithToken(db, token, status), k)
    ensures RanOut(db, k, s, now) ==> RanOut(WithToken(db, token, status), k, s, now)
  {
  }

  /** The rows after a rotation that went through. */
  predicate Rotates(db: AuthDb, after: AuthDb, token: Id, newId: Id, next: string, until: Time, now: Time) {
    && token in db.tokens && newId !in db.tokens && !HashTaken(db, next) && db.tokens[token].status == TokenActive
    && var row := db.tokens[token];
       row.session in db.sessions && db.sessions[row.session].status == SessionActive
         && until <= db.sessions[row.session].sessionExpiresAt
       && after.tokens == db.tokens[token := row.(status := TokenRotated, rotatedAt := Some(now))]
                                   [newId := Token(row.session, next, TokenActive, now, until, None)]
       && after.sessions == db.sessions[row.session :=
          db.sessions[row.session].(hash := next, accessExpiresAt := until)]
  }

  lemma RotationRotates(db: AuthDb, token: Id, newId: Id, next: string, expiresAt: Time, now: Time)
    returns (until: Time)
    requires token in db.tokens && DoRotate(db, token, newId, next, expiresAt, now).reply.Done?
    ensures Rotates(db, DoRotate(db, token, newId, next, expiresAt, now).db, token, newId, next, until, now)
  {
    var session := db.sessions[db.tokens[token].session];
    until := if session.sessionExpiresAt < expiresAt then session.sessionExpiresAt else expiresAt;
  }

  lemma RotatedHashes(db: AuthDb, after: AuthDb, token: Id, newId: Id, next: string, until: Time, now: Time)
    requires Rotates(db, after, token, newId, next, until, now) && UniqueHashes(db)
    ensures UniqueHashes(after)
  {
  }

  lemma RotatedCached(db: AuthDb, after: AuthDb, token: Id, newId: Id, next: string, until: Time, now: Time, s: Id)
    requires Rotates(db, after, token, newId, next, until, now) && s in db.sessions && IsCached(db, s)
    ensures IsCached(after, s)
  {
    if s == db.tokens[token].session {
      assert CachedBy(after, newId, s);
    } else {
      var k :| CachedBy(db, k, s);
      assert CachedBy(after, k, s);
    }
  }

  lemma RotatedFits(db: AuthDb, after: AuthDb, token: Id, newId: Id, next: string, until: Time, now: Time, k: Id)
    requires Rotates(db, after, token, newId, next, until, now) && UniqueHashes(db)
    requires TokenFits(db, token) && k in after.tokens && (k in db.tokens ==> TokenFits(db, k))
    ensures TokenFits(after, k)
  {
  }

  lemma RotatedRanOut(db: AuthDb, after: AuthDb, token: Id, newId: Id, next: string, until: Time, now: Time, k: Id,
                      s: Id)
    requires Rotates(db, after, token, newId, next, until, now) && RanOut(db, k, s, now)
    ensures RanOut(after, k, s, now)
  {
  }

  lemma RotatingIsFaithful(db: AuthDb, token: Id, newId: Id, next: string, expiresAt: Time, now: Time)
    requires Faithful(db, now) && token in db.tokens
    requires DoRotate(db, token, newId, next, expiresAt, now).reply.Done?
    ensures Faithful(DoRotate(db, token, newId, next, expiresAt, now).db, now)
  {
    var after := DoRotate(db, token, newId, next, expiresAt, now).db;
    var until := RotationRotates(db, token, newId, next, expiresAt, now);
    assert after.sessions.Keys == db.sessions.Keys && forall k :: k in after.tokens ==> k in db.tokens || k == newId;
    hide DoRotate, Rotates, UniqueHashes, TokenFits, RanOut, IsCached;
    RotatedHashes(db, after, token, newId, next, until, now);
    forall s | s in after.sessions ensures IsCached(after, s) {
      RotatedCached(db, after, token, newId, next, until, now, s);
    }
    assert TokenFits(db, token);
    forall k | k in after.tokens ensures TokenFits(after, k) {
      assert k in db.tokens ==> TokenFits(db, k);
      RotatedFits(db, after, token, newId, next, until, now, k);
    }
    forall k, s ensures RanOut(after, k, s, now) {
      assert RanOut(db, k, s, now);
      RotatedRanOut(db, after, token, newId, next, until, now, k, s);
    }
  }

  lemma RevokeCloses(db: AuthDb, s: Id, reason: string)
    ensures var after := DoRevokeSession(db, s, reason).db;
            after == db || Closes(db, after, {s}, reason)
  {
  }

  lemma StepIsFaithful(db: AuthDb, step: AuthStep, now: Time)
    requires Faithful(db, now)
    ensures Faithful(Step(db, step, now).db, now)
  {
    hide Faithful, DoCreateSession, DoRotate, DoRevokeSession, DoCreateOneTime, DoConsume, SessionsClosed,
         TokensRevoked;
    var after := Step(db, step, now).db;
    match step {
      case CreateSession(id, token, user, hash, access, session, issued) =>
        CreatingIsFaithful(db, id, token, user, hash, access, session, issued, now);
      case Rotate(current, newId, next, expiresAt) =>
        forall k | HoldsHash(db, k, current) ensures Faithful(DoRotate(db, k, newId, next, expiresAt, now).db, now) {
          RotateStepIsFaithful(db, k, newId, next, expiresAt, now);
        }
      case RevokeSession(s, reason) =>
        RevokeCloses(db, s, reason);
        if after != db { ClosingIsFaithful(db, after, {s}, reason, now); }
      case RevokeUserSessions(user, reason) =>
        ClosingIsFaithful(db, after, ActiveSessions(db, user), reason, now);
      case _ =>
        SameTables(db, after, now);
    }
  }

  lemma SameTables(db: AuthDb, after: AuthDb, now: Time)
    requires Faithful(db, now) && after.sessions == db.sessions && after.tokens == db.tokens
    ensures Faithful(after, now)
  {
    ClosingIsFaithful(db, after, {}, "", now);
  }

  lemma RotateStepIsFaithful(db: AuthDb, token: Id, newId: Id, next: string, expiresAt: Time, now: Time)
    requires Faithful(db, now) && token in db.tokens
    ensures Faithful(DoRotate(db, token, newId, next, expiresAt, now).db, now)
  {
    assert TokenFits(db, token);
    var outcome := DoRotate(db, token, newId, next, expiresAt, now);
    var row := db.tokens[token];
    if outcome.reply == AccessTokenReused {
      RestatusIsFaithful(db, token, TokenReused, now);
      ClosingIsFaithful(WithToken(db, token, TokenReused), outcome.db, {row.session}, "token_reuse", now);
    } else if outcome.reply == SessionExpired || outcome.reply == AccessTokenExpired {
      RestatusIsFaithful(db, token, TokenExpired, now);
    } else if outcome.reply.Done? {
      RotatingIsFaithful(db, token, newId, next, expiresAt, now);
    }
  }

  /** The first `i` steps happened no later than `t`. */
  predicate NoLater(run: seq<Timed>, i: nat, t: Time)
    requires i <= |run|
  {
    i > 0 ==> run[i - 1].now <= t
  }

  lemma {:induction false} RunIsFaithful(run: seq<Timed>, i: nat, now: Time)
    requires Clocked(run) && i <= |run| && NoLater(run, i, now)
    ensures Faithful(At(run, i), now)
  {
    hide Step, Faithful;
    if i > 0 {
      var t := run[i - 1].now;
      RunIsFaithful(run, i - 1, t);
      StepIsFaithful(At(run, i - 1), run[i - 1].step, t);
      StaysFaithful(At(run, i), t, now);
    } else {
      EmptyIsFaithful(now);
    }
  }

  lemma EmptyIsFaithful(now: Time)
    ensures Faithful(EMPTY_AUTH, now)
  {
  }

  // ----- Main results about the cache -----

  /** `ValidateUserAccessToken`'s fast test: it reads the session row only. */
  ghost predicate FastAccepts(db: AuthDb, hash: string, t: Time) {
    exists s :: s in db.sessions && db.sessions[s].hash == hash && db.sessions[s].status == SessionActive
                && t < db.sessions[s].accessExpiresAt && t < db.sessions[s].sessionExpiresAt
  }

  /** The token is active in the history and neither it nor its session has expired. */
  ghost predicate HistoryAccepts(db: AuthDb, hash: string, t: Time) {
    exists k :: HoldsHash(db, k, hash) && db.tokens[k].status == TokenActive && t < db.tokens[k].accessExpiresAt
                && db.tokens[k].session in db.sessions && t < db.sessions[db.tokens[k].session].sessionExpiresAt
  }

  lemma FaithfulAccepts(db: AuthDb, hash: string, t: Time)
    requires Faithful(db, t)
    ensures FastAccepts(db, hash, t) <==> HistoryAccepts(db, hash, t)
  {
    if FastAccepts(db, hash, t) {
      var s :| s in db.sessions && db.sessions[s].hash == hash && db.sessions[s].status == SessionActive
               && t < db.sessions[s].accessExpiresAt && t < db.sessions[s].sessionExpiresAt;
      assert IsCached(db, s);
      var k :| CachedBy(db, k, s);
      assert RanOut(db, k, s, t);
      assert HoldsHash(db, k, hash);
    }
    if HistoryAccepts(db, hash, t) {
      var k :| HoldsHash(db, k, hash) && db.tokens[k].status == TokenActive && t < db.tokens[k].accessExpiresAt
               && db.tokens[k].session in db.sessions && t < db.sessions[db.tokens[k].session].sessionExpiresAt;
      assert TokenFits(db, k);
    }
  }

  /**
    In every reachable state, from the last step's time on, the fast test and the token history agree on every
    hash.
   */
  lemma FastTestIsFaithful(run: seq<Timed>, i: nat, hash: string, t: Time)
    requires Clocked(run) && i <= |run| && NoLater(run, i, t)
    ensures FastAccepts(At(run, i), hash, t) <==> HistoryAccepts(At(run, i), hash, t)
  {
    hide Step, Faithful;
    RunIsFaithful(run, i, t);
    FaithfulAccepts(At(run, i), hash, t);
  }

  function LastTime(run: seq<Timed>, i: nat): Time
    requires i <= |run|
  {
    if i == 0 then 0 else run[i - 1].now
  }

  /** A session has at most one active token, and a revoked session has none. */
  lemma OneActiveToken(run: seq<Timed>, i: nat, k: Id, l: Id)
    requires Clocked(run) && i <= |run|
    requires k in At(run, i).tokens && At(run, i).tokens[k].status == TokenActive
    ensures var db := At(run, i);
            && db.tokens[k].session in db.sessions && db.sessions[db.tokens[k].session].status == SessionActive
            && (l in db.tokens && db.tokens[l].status == TokenActive && db.tokens[l].session == db.tokens[k].session
               ==> l == k)
  {
    hide Step;
    RunIsFaithful(run, i, LastTime(run, i));
    assert TokenFits(At(run, i), k);
    if l in At(run, i).tokens {
      assert TokenFits(At(run, i), l);
    }
  }

  // ----- Reuse and revocation -----

  /** What one step may do to a token or session row that is already there. */
  predicate TokenStep(a: Token, b: Token) {
    && b.session == a.session && b.hash == a.hash && b.issuedAt == a.issuedAt && b.accessExpiresAt == a.accessExpiresAt
    && (a.status != TokenActive ==> b.status != TokenActive)
  }

  predicate SessionStep(a: Session, b: Session) {
    && b.user == a.user && b.sessionExpiresAt == a.sessionExpiresAt
    && (a.status == SessionRevoked ==> b == a)
  }

  lemma ReuseSteps(db: AuthDb, session: Id, token: Id, k: Id, s: Id)
    requires token in db.tokens
    ensures var after := ReuseMarked(db, session, token);
            && (k in db.tokens ==> k in after.tokens && TokenStep(db.tokens[k], after.tokens[k]))
            && (s in db.sessions ==> s in after.sessions && SessionStep(db.sessions[s], after.sessions[s]))
  {
  }

  lemma RotateSteps(db: AuthDb, token: Id, newId: Id, next: string, expiresAt: Time, now: Time, k: Id, s: Id)
    requires token in db.tokens
    ensures var after := DoRotate(db, token, newId, next, expiresAt, now).db;
            && (k in db.tokens ==> k in after.tokens && TokenStep(db.tokens[k], after.tokens[k]))
            && (s in db.sessions ==> s in after.sessions && SessionStep(db.sessions[s], after.sessions[s]))
  {
    hide ReuseMarked;
    ReuseSteps(db, db.tokens[token].session, token, k, s);
  }

  lemma StepSteps(db: AuthDb, step: AuthStep, now: Time, k: Id, s: Id)
    ensures var after := Step(db, step, now).db;
            && (k in db.tokens ==> k in after.tokens && TokenStep(db.tokens[k], after.tokens[k]))
            && (s in db.sessions ==> s in after.sessions && SessionStep(db.sessions[s], after.sessions[s]))
  {
    hide DoRotate, DoCreateOneTime, DoConsume;
    if step.Rotate? {
      forall token | HoldsHash(db, token, step.current) {
        RotateSteps(db, token, step.newId, step.next, step.expiresAt, now, k, s);
      }
    }
  }

  /** Rows are never dropped, a session keeps its user and expiry, and retired tokens and closed sessions stay so. */
  lemma {:induction false} RowsLast(run: seq<Timed>, k: nat, i: nat, token: Id, s: Id)
    requires k <= i <= |run|
    ensures var a, b := At(run, k), At(run, i);
            && (token in a.tokens ==> token in b.tokens && TokenStep(a.tokens[token], b.tokens[token]))
            && (s in a.sessions ==> s in b.sessions && SessionStep(a.sessions[s], b.sessions[s]))
    decreases i
  {
    hide Step;
    if k < i {
      RowsLast(run, k, i - 1, token, s);
      StepSteps(At(run, i - 1), run[i - 1].step, run[i - 1].now, token, s);
    }
  }

  /** Presenting a token that is no longer active to rotation is reported as reuse and revokes its session. */
  lemma ReuseClosesSession(run: seq<Timed>, i: nat, token: Id, hash: string, newId: Id, next: string, expiresAt: Time,
                           now: Time)
    requires Clocked(run) && i <= |run|
    requires HoldsHash(At(run, i), token, hash) && At(run, i).tokens[token].status != TokenActive
    ensures var db := At(run, i);
            var outcome := Step(db, Rotate(hash, newId, next, expiresAt), now);
            var s := db.tokens[token].session;
            && outcome.reply == AccessTokenReused
            && s in outcome.db.sessions && outcome.db.sessions[s].status == SessionRevoked
            && forall k ::
                 k in outcome.db.tokens && outcome.db.tokens[k].session == s
                 ==> outcome.db.tokens[k].status != TokenActive
  {
    hide At;
    RunIsFaithful(run, i, LastTime(run, i));
    var db := At(run, i);
    assert TokenFits(db, token);
    forall k | HoldsHash(db, k, hash) ensures k == token {
    }
  }

  /** Revocation is never undone: no token of a revoked session is accepted or rotated at any later point of the run. */
  lemma RevokedForGood(run: seq<Timed>, k: nat, i: nat, s: Id, token: Id, t: Time)
    requires Clocked(run) && k <= i <= |run| && NoLater(run, i, t)
    requires s in At(run, k).sessions && At(run, k).sessions[s].status == SessionRevoked
    requires token in At(run, i).tokens && At(run, i).tokens[token].session == s
    ensures var db := At(run, i);
            && s in db.sessions && db.sessions[s].status == SessionRevoked
            && !FastAccepts(db, db.tokens[token].hash, t)
            && forall newId, next, expiresAt ::
               !Step(db, Rotate(db.tokens[token].hash, newId, next, expiresAt), t).reply.Done?
  {
    var db := At(run, i);
    RowsLast(run, k, i, token, s);
    RunIsFaithful(run, i, t);
    assert TokenFits(db, token);
    FaithfulAccepts(db, db.tokens[token].hash, t);
    hide At;
    forall l | HoldsHash(db, l, db.tokens[token].hash) ensures l == token {
    }
  }

  /** A token retired by rotation is never accepted again. */
  lemma RetiredForGood(run: seq<Timed>, k: nat, i: nat, token: Id, t: Time)
    requires Clocked(run) && k <= i <= |run| && NoLater(run, i, t)
    requires token in At(run, k).tokens && At(run, k).tokens[token].status != TokenActive
    ensures !FastAccepts(At(run, i), At(run, k).tokens[token].hash, t)
  {
    var db := At(run, i);
    RowsLast(run, k, i, token, 0);
    RunIsFaithful(run, i, t);
    FaithfulAccepts(db, db.tokens[token].hash, t);
    hide At;
    forall l | HoldsHash(db, l, db.tokens[token].hash) ensures l == token {
    }
  }

  /** No chain of rotations makes a token valid at or past the session's expiry, which was fixed at login. */
  lemma NothingOutlivesSession(run: seq<Timed>, k: nat, i: nat, s: Id, token: Id, t: Time)
    requires Clocked(run) && k <= i <= |run| && NoLater(run, i, t)
    requires s in At(run, k).sessions && token in At(run, i).tokens && At(run, i).tokens[token].session == s
    requires At(run, k).sessions[s].sessionExpiresAt <= t
    ensures At(run, i).tokens[token].accessExpiresAt <= At(run, k).sessions[s].sessionExpiresAt
    ensures !FastAccepts(At(run, i), At(run, i).tokens[token].hash, t)
  {
    var db := At(run, i);
    RowsLast(run, k, i, token, s);
    RunIsFaithful(run, i, t);
    assert TokenFits(db, token);
    FaithfulAccepts(db, db.tokens[token].hash, t);
    hide At;
    forall l | HoldsHash(db, l, db.tokens[token].hash) ensures l == token {
    }
  }

  // ----- One-time tokens -----

  predicate OneTimeStep(a: OneTime, b: OneTime) {
    b.hash == a.hash && b.user == a.user && b.expiresAt == a.expiresAt && (a.status != OneTimeActive ==> b == a)
  }

  /** What may become of a table of one-time tokens: rows stay, and a new one is the created one, under a free hash. */
  predicate OneTimeRows(before: map<Id, OneTime>, after: map<Id, OneTime>, step: AuthStep) {
    && (forall r :: r in before ==> r in after && OneTimeStep(before[r], after[r]))
    && (forall r :: r in after && r !in before ==>
          && step.CreateOneTime? && r == step.id && after[r].hash == step.hash
          && forall q :: q in before ==> before[q].hash != step.hash)
  }

  lemma EndedSteps(rows: map<Id, OneTime>, user: Id, status: OneTimeStatus)
    requires status != OneTimeActive
    ensures
      var after := Ended(rows, user, status);
      after.Keys == rows.Keys && forall r :: r in rows ==> OneTimeStep(rows[r], after[r])
  {
  }

  lemma AddedRow(before: map<Id, OneTime>, ended: map<Id, OneTime>, row: OneTime, step: AuthStep)
    requires ended.Keys == before.Keys && forall r :: r in before ==> OneTimeStep(before[r], ended[r])
    requires step.CreateOneTime? && step.id !in ended && row.hash == step.hash && forall r :: r in ended ==>
      ended[r].hash != step.hash
    ensures OneTimeRows(before, ended[step.id := row], step)
  {
  }

  lemma CreateOneTimeRows(db: AuthDb, step: AuthStep, kind: OneTimeKind)
    requires step.CreateOneTime?
    ensures
      OneTimeRows(Rows(db, kind),
        Rows(DoCreateOneTime(db, step.kind, step.id, step.user, step.hash, step.expiresAt, step.asked).db, kind), step)
  {
    SameOneTime(Rows(db, kind));
    EndedSteps(Rows(db, kind), step.user, Superseded);
    hide Ended, OneTimeStep, OneTimeRows;
    var before := Rows(db, kind);
    var after := Rows(DoCreateOneTime(db, step.kind, step.id, step.user, step.hash, step.expiresAt, step.asked).db,
      kind);
    if after == before {
      Unchanged(before, step);
    } else {
      var ended := if step.kind == HandoffToken then before else Ended(before, step.user, Superseded);
      AddedRow(before, ended, OneTime(step.user, step.hash, OneTimeActive, step.expiresAt), step);
    }
  }

  lemma Unchanged(rows: map<Id, OneTime>, step: AuthStep)
    ensures OneTimeRows(rows, rows, step)
  {
  }

  lemma SameOneTime(rows: map<Id, OneTime>)
    ensures forall r :: r in rows ==> OneTimeStep(rows[r], rows[r])
  {
  }

  lemma ConsumeOneTimeRows(db: AuthDb, step: AuthStep, now: Time, kind: OneTimeKind)
    requires step.ConsumeOneTime?
    ensures OneTimeRows(Rows(db, kind), Rows(DoConsume(db, step.kind, step.hash, now).db, kind), step)
  {
  }

  lemma RevokeUserOneTimeRows(db: AuthDb, step: AuthStep, kind: OneTimeKind)
    requires step.RevokeUserSessions?
    ensures OneTimeRows(Rows(db, kind), Rows(DoRevokeUserSessions(db, step.user, step.reason).db, kind), step)
  {
    hide SessionsClosed, TokensRevoked, ActiveSessions;
  }

  lemma StepOneTimeRows(db: AuthDb, step: AuthStep, now: Time, kind: OneTimeKind)
    ensures OneTimeRows(Rows(db, kind), Rows(Step(db, step, now).db, kind), step)
  {
    hide DoRotate, DoCreateSession, DoRevokeSession, DoRevokeUserSessions, DoCreateOneTime, DoConsume;
    match step
    case Rotate(current, newId, next, expiresAt) =>
      forall token | HoldsHash(db, token, current)
        ensures Rows(DoRotate(db, token, newId, next, expiresAt, now).db, kind) == Rows(db, kind)
      {
        RotateKeepsOneTime(db, token, newId, next, expiresAt, now, kind);
      }
    case RevokeUserSessions(_, _) => RevokeUserOneTimeRows(db, step, kind);
    case CreateOneTime(_, _, _, _, _, _) => CreateOneTimeRows(db, step, kind);
    case ConsumeOneTime(_, _) => ConsumeOneTimeRows(db, step, now, kind);
    case _ => SessionsKeepOneTime(db, step, now, kind);
  }

  lemma RotateKeepsOneTime(db: AuthDb, token: Id, newId: Id, next: string, expiresAt: Time, now: Time,
                           kind: OneTimeKind)
    requires token in db.tokens
    ensures Rows(DoRotate(db, token, newId, next, expiresAt, now).db, kind) == Rows(db, kind)
  {
  }

  lemma SessionsKeepOneTime(db: AuthDb, step: AuthStep, now: Time, kind: OneTimeKind)
    requires step.CreateSession? || step.RevokeSession?
    ensures Rows(Step(db, step, now).db, kind) == Rows(db, kind)
  {
  }

  lemma {:induction false} OneTimeRowsLast(run: seq<Timed>, k: nat, i: nat, kind: OneTimeKind, r: Id)
    requires k <= i <= |run| && r in Rows(At(run, k), kind)
    ensures r in Rows(At(run, i), kind) && OneTimeStep(Rows(At(run, k), kind)[r], Rows(At(run, i), kind)[r])
    decreases i
  {
    hide Step;
    if k < i {
      OneTimeRowsLast(run, k, i - 1, kind, r);
      StepOneTimeRows(At(run, i - 1), run[i - 1].step, run[i - 1].now, kind);
    }
  }

  /** Hashes of one-time tokens are never reused within their table. */
  ghost predicate OneTimeHashes(db: AuthDb, kind: OneTimeKind) {
    forall r, q :: r in Rows(db, kind) && q in Rows(db, kind) && r != q
      ==> Rows(db, kind)[r].hash != Rows(db, kind)[q].hash
  }

  lemma {:induction false} RunKeepsOneTimeHashes(run: seq<Timed>, i: nat, kind: OneTimeKind)
    requires i <= |run|
    ensures OneTimeHashes(At(run, i), kind)
  {
    hide Step;
    if i > 0 {
      var db, after := At(run, i - 1), At(run, i);
      RunKeepsOneTimeHashes(run, i - 1, kind);
      StepOneTimeRows(db, run[i - 1].step, run[i - 1].now, kind);
    }
  }

  /** A one-time token that was consumed, superseded or expired by recovery can never be consumed again. */
  lemma SpentForGood(run: seq<Timed>, k: nat, i: nat, kind: OneTimeKind, r: Id, now: Time)
    requires k <= i <= |run| && r in Rows(At(run, k), kind) && Rows(At(run, k), kind)[r].status != OneTimeActive
    ensures Step(At(run, i), ConsumeOneTime(kind, Rows(At(run, k), kind)[r].hash), now).reply == NoRows
  {
    OneTimeRowsLast(run, k, i, kind, r);
    RunKeepsOneTimeHashes(run, i, kind);
    hide At;
  }
}
