/** The auth repository as it runs: its tables updated in place, one method a call. */
module AuthRepository {
  import opened Base
  import opened Sessions
  import opened SessionRuns

  ghost predicate UniqueOneTime(rows: map<Id, OneTime>) {
    forall r, q :: r in rows && q in rows && r != q ==> rows[r].hash != rows[q].hash
  }

  lemma EndedUnique(rows: map<Id, OneTime>, user: Id, status: OneTimeStatus)
    requires UniqueOneTime(rows)
    ensures UniqueOneTime(Ended(rows, user, status))
  {
  }

  lemma NoneRevoked(tokens: map<Id, Token>)
    ensures TokensRevoked(tokens, {}) == tokens
  {
  }

  lemma RevokedMore(tokens: map<Id, Token>, ids: set<Id>, s: Id)
    ensures TokensRevoked(TokensRevoked(tokens, ids), {s}) == TokensRevoked(tokens, ids + {s})
  {
  }

  lemma ClosedUnique(db: AuthDb, ids: set<Id>, reason: string)
    requires UniqueHashes(db)
    ensures UniqueHashes(db.(sessions := SessionsClosed(db.sessions, ids, reason)))
  {
  }

  lemma RevokedUnique(db: AuthDb, ids: set<Id>)
    requires UniqueHashes(db)
    ensures UniqueHashes(db.(tokens := TokensRevoked(db.tokens, ids)))
  {
  }

  lemma OneClosed(sessions: map<Id, Session>, s: Id, reason: string)
    ensures
      SessionsClosed(sessions, {s}, reason)
      == if s in sessions then sessions[s := Closed(sessions[s], reason)] else sessions
  {
  }

  class Repository {
    var sessions: map<Id, Session>
    var tokens: map<Id, Token>
    var setups: map<Id, OneTime>
    var handoffs: map<Id, OneTime>
    var resets: map<Id, OneTime>

    function Db(): AuthDb
      reads this
    {
      AuthDb(sessions, tokens, setups, handoffs, resets)
    }

    /** The unique indexes on hashes. */
    ghost predicate Valid()
      reads this
    {
      UniqueHashes(Db()) && UniqueOneTime(setups) && UniqueOneTime(handoffs) && UniqueOneTime(resets)
    }

    constructor ()
      ensures Valid() && Db() == EMPTY_AUTH
    {
      sessions, tokens, setups, handoffs, resets := map[], map[], map[], map[], map[];
    }

    method CreateSession(id: Id, token: Id, user: Id, hash: string, accessExpiresAt: Time, sessionExpiresAt: Time,
                         issuedAt: Time)
      returns (reply: AuthReply)
      requires Valid()
      modifies this
      ensures Valid()
      ensures
        AuthOutcome(Db(), reply)
        == DoCreateSession(old(Db()), id, token, user, hash, accessExpiresAt, sessionExpiresAt, issuedAt)
    {
      if sessionExpiresAt <= accessExpiresAt || accessExpiresAt <= issuedAt {
        return Invalid;
      }
      if id in sessions || token in tokens || HashTaken(Db(), hash) {
        return Conflict;
      }
      sessions := sessions[id := Session(user, hash, SessionActive, accessExpiresAt, sessionExpiresAt, None)];
      tokens := tokens[token := Token(id, hash, TokenActive, issuedAt, accessExpiresAt, None)];
      return Done(id);
    }

    method RotateAccessToken(current: string, newId: Id, next: string, expiresAt: Time, now: Time)
      returns (reply: AuthReply)
      requires Valid()
      modifies this
      ensures Valid()
      ensures AuthOutcome(Db(), reply) == Step(old(Db()), Rotate(current, newId, next, expiresAt), now)
    {
      if !exists k :: k in tokens && HoldsHash(Db(), k, current) {
        return NoRows;
      }
      var token :| token in tokens && HoldsHash(Db(), token, current);
      assert forall k :: HoldsHash(Db(), k, current) ==> k == token;
      reply := RotateToken(token, newId, next, expiresAt, now);
    }

    /** The rotation once the history row of the presented hash is locked. */
    method RotateToken(token: Id, newId: Id, next: string, expiresAt: Time, now: Time) returns (reply: AuthReply)
      requires Valid() && token in tokens
      modifies this
      ensures Valid()
      ensures AuthOutcome(Db(), reply) == DoRotate(old(Db()), token, newId, next, expiresAt, now)
    {
      hide ReuseMarked;
      var row := tokens[token];
      if row.status != TokenActive {
        MarkTokenReuse(row.session, token);
        return AccessTokenReused;
      }
      if row.session !in sessions {
        return NoRows;
      }
      var session := sessions[row.session];
      if session.status != SessionActive || session.hash != row.hash {
        MarkTokenReuse(row.session, token);
        return AccessTokenReused;
      }
      if session.sessionExpiresAt <= now {
        tokens := tokens[token := row.(status := TokenExpired)];
        return SessionExpired;
      }
      if row.accessExpiresAt <= now || session.accessExpiresAt <= now {
        tokens := tokens[token := row.(status := TokenExpired)];
        return AccessTokenExpired;
      }
      var until := expiresAt;
      if session.sessionExpiresAt < until {
        until := session.sessionExpiresAt;
      }
      if newId in tokens || HashTaken(Db(), next) || until <= now {
        return Conflict;
      }
      tokens := tokens[token := row.(status := TokenRotated, rotatedAt := Some(now))];
      tokens := tokens[newId := Token(row.session, next, TokenActive, now, until, None)];
      sessions := sessions[row.session := session.(hash := next, accessExpiresAt := until)];
      return Done(row.session);
    }

    method MarkTokenReuse(session: Id, token: Id)
      requires Valid() && token in tokens
      modifies this
      ensures Valid()
      ensures Db() == ReuseMarked(old(Db()), session, token)
    {
      tokens := tokens[token := tokens[token].(status := TokenReused)];
      RevokeTokens(session);
      if session in sessions && sessions[session].status == SessionActive {
        sessions := sessions[session := Closed(sessions[session], "token_reuse")];
      }
      OneClosed(old(sessions), session, "token_reuse");
    }

    /**
      `update user_session_token_history set status = 'revoked' where user_session_id = session and status =
      'active'`.
     */
    method RevokeTokens(session: Id)
      requires Valid()
      modifies this`tokens
      ensures Valid()
      ensures tokens == TokensRevoked(old(tokens), {session})
    {
      RevokedUnique(Db(), {session});
      tokens := map k | k in tokens ::
        if tokens[k].status == TokenActive && tokens[k].session == session then tokens[k].(status := TokenRevoked)
        else tokens[k];
      assert tokens == TokensRevoked(old(tokens), {session});
    }

    method RevokeSession(s: Id, reason: string) returns (reply: AuthReply)
      requires Valid()
      modifies this
      ensures Valid()
      ensures AuthOutcome(Db(), reply) == DoRevokeSession(old(Db()), s, reason)
    {
      if s !in sessions || sessions[s].status != SessionActive {
        return NoRows;
      }
      sessions := sessions[s := Closed(sessions[s], reason)];
      RevokeTokens(s);
      return Done(s);
    }

    /**
      Ends unfinished logins, closes the user's sessions in one statement, then revokes their tokens session by
      session.
     */
    method RevokeUserSessions(user: Id, reason: string) returns (reply: AuthReply)
      requires Valid()
      modifies this
      ensures Valid()
      ensures AuthOutcome(Db(), reply) == DoRevokeUserSessions(old(Db()), user, reason)
    {
      hide Ended, SessionsClosed, TokensRevoked;
      EndedUnique(setups, user, Superseded);
      EndedUnique(handoffs, user, Expired);
      NoneRevoked(tokens);
      ClosedUnique(Db(), ActiveSessions(Db(), user), reason);
      setups := Ended(setups, user, Superseded);
      handoffs := Ended(handoffs, user, Expired);
      var ids := ActiveSessions(Db(), user);
      assert ids == ActiveSessions(old(Db()), user);
      sessions := SessionsClosed(sessions, ids, reason);
      var pending := ids;
      assert ids - pending == {};
      while pending != {}
        invariant pending <= ids && Valid()
        invariant tokens == TokensRevoked(old(tokens), ids - pending)
        invariant sessions == SessionsClosed(old(sessions), ids, reason)
        invariant setups == Ended(old(setups), user, Superseded) && handoffs == Ended(old(handoffs), user, Expired)
        invariant resets == old(resets)
        decreases pending
      {
        var s :| s in pending;
        RevokedMore(old(tokens), ids - pending, s);
        assert ids - pending + {s} == ids - (pending - {s});
        RevokeTokens(s);
        pending := pending - {s};
      }
      assert ids - pending == ids;
      return Changed(|ids|);
    }

    method CreateOneTimeToken(kind: OneTimeKind, id: Id, user: Id, hash: string, expiresAt: Time, asked: Time)
      returns (reply: AuthReply)
      requires Valid()
      modifies this
      ensures Valid()
      ensures AuthOutcome(Db(), reply) == DoCreateOneTime(old(Db()), kind, id, user, hash, expiresAt, asked)
    {
      if kind != HandoffToken && expiresAt <= asked {
        return Invalid;
      }
      var rows := Rows(Db(), kind);
      if kind != HandoffToken {
        rows := Ended(rows, user, Superseded);
      }
      if id in rows || exists r :: r in rows && rows[r].hash == hash {
        return Conflict;
      }
      PutRows(kind, rows[id := OneTime(user, hash, OneTimeActive, expiresAt)]);
      return Done(id);
    }

    method PutRows(kind: OneTimeKind, rows: map<Id, OneTime>)
      requires Valid() && UniqueOneTime(rows)
      modifies this
      ensures Valid()
      ensures Db() == WithRows(old(Db()), kind, rows)
    {
      match kind {
        case SetupToken => setups := rows;
        case HandoffToken => handoffs := rows;
        case ResetToken => resets := rows;
      }
    }

    method ConsumeOneTimeToken(kind: OneTimeKind, hash: string, now: Time) returns (reply: AuthReply)
      requires Valid()
      modifies this
      ensures Valid()
      ensures AuthOutcome(Db(), reply) == DoConsume(old(Db()), kind, hash, now)
    {
      var rows := Rows(Db(), kind);
      if !exists r :: r in rows && Redeemable(rows, hash, now, r) {
        return NoRows;
      }
      var r :| r in rows && Redeemable(rows, hash, now, r);
      assert forall q :: Redeemable(rows, hash, now, q) ==> q == r;
      PutRows(kind, rows[r := rows[r].(status := Consumed)]);
      return Done(r);
    }
  }
}
