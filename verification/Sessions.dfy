/**
  Login sessions and their access tokens. A session row caches the hash and expiry of its current
  token; the token history keeps every token ever issued. Each repository call is one step.
 */
module Sessions {
  import opened Base

  datatype SessionStatus = SessionActive | SessionRevoked

  datatype TokenStatus = TokenActive | TokenRotated | TokenRevoked | TokenReused | TokenExpired

  datatype Session = Session(
    user: Id,
    hash: string,
    status: SessionStatus,
    accessExpiresAt: Time,
    sessionExpiresAt: Time,
    revokedReason: Option<string>)

  datatype Token = Token(
    session: Id,
    hash: string,
    status: TokenStatus,
    issuedAt: Time,
    accessExpiresAt: Time,
    rotatedAt: Option<Time>)

  datatype OneTimeStatus = OneTimeActive | Consumed | Expired | Superseded

  // 2FA login setups, OIDC handoffs and password reset tokens.
  datatype OneTime = OneTime(user: Id, hash: string, status: OneTimeStatus, expiresAt: Time)

  datatype AuthDb = AuthDb(
    sessions: map<Id, Session>,
    tokens: map<Id, Token>,
    setups: map<Id, OneTime>,
    handoffs: map<Id, OneTime>,
    resets: map<Id, OneTime>)

  const EMPTY_AUTH := AuthDb(map[], map[], map[], map[], map[])

  datatype AuthReply =
    | Done(id: Id) | Changed(count: nat) | NoRows | Invalid | Conflict
    | AccessTokenReused | AccessTokenExpired | SessionExpired

  datatype AuthOutcome = AuthOutcome(db: AuthDb, reply: AuthReply)

  datatype OneTimeKind = SetupToken | HandoffToken | ResetToken

  datatype AuthStep =
    | CreateSession(id: Id, token: Id, user: Id, hash: string, accessExpiresAt: Time, sessionExpiresAt: Time,
      issuedAt: Time)
    | Rotate(current: string, newId: Id, next: string, expiresAt: Time)
    | RevokeSession(session: Id, reason: string)
    | RevokeUserSessions(user: Id, reason: string)
    | CreateOneTime(kind: OneTimeKind, id: Id, user: Id, hash: string, expiresAt: Time, asked: Time)
    | ConsumeOneTime(kind: OneTimeKind, hash: string)

  // ----- Sessions and access tokens -----

  predicate HashTaken(db: AuthDb, hash: string) {
    || (exists s :: s in db.sessions && db.sessions[s].hash == hash)
    || (exists k :: k in db.tokens && db.tokens[k].hash == hash)
  }

  /** `CreateSessionTx`. */
  function DoCreateSession(db: AuthDb, id: Id, token: Id, user: Id, hash: string,
                           accessExpiresAt: Time, sessionExpiresAt: Time, issuedAt: Time): AuthOutcome {
    if sessionExpiresAt <= accessExpiresAt || accessExpiresAt <= issuedAt then AuthOutcome(db, Invalid)
    else if id in db.sessions || token in db.tokens || HashTaken(db, hash) then AuthOutcome(db, Conflict)
    else
      AuthOutcome(
        db.(sessions := db.sessions[id := Session(user, hash, SessionActive, accessExpiresAt, sessionExpiresAt, None)],
            tokens := db.tokens[token := Token(id, hash, TokenActive, issuedAt, accessExpiresAt, None)]),
        Done(id))
  }

  /** `update user_session_token_history set status where id = token`. */
  function WithToken(db: AuthDb, token: Id, status: TokenStatus): AuthDb
    requires token in db.tokens
  {
    db.(tokens := db.tokens[token := db.tokens[token].(status := status)])
  }

  /** The active tokens of some sessions become `revoked`. */
  function TokensRevoked(tokens: map<Id, Token>, sessions: set<Id>): map<Id, Token> {
    map k | k in tokens ::
      if tokens[k].status == TokenActive && tokens[k].session in sessions then tokens[k].(status := TokenRevoked)
      else tokens[k]
  }

  function Closed(s: Session, reason: string): Session {
    if s.status == SessionActive
    then s.(status := SessionRevoked, revokedReason := Some(Coalesce(s.revokedReason, reason)))
    else s
  }

  function SessionsClosed(sessions: map<Id, Session>, ids: set<Id>, reason: string): map<Id, Session> {
    map s | s in sessions :: if s in ids then Closed(sessions[s], reason) else sessions[s]
  }

  /** `markTokenReuse`: the presented token is `reused`, its siblings and its session are revoked. */
  function ReuseMarked(db: AuthDb, session: Id, token: Id): AuthDb
    requires token in db.tokens
  {
    db.(tokens := TokensRevoked(WithToken(db, token, TokenReused).tokens, {session}),
        sessions := SessionsClosed(db.sessions, {session}, "token_reuse"))
  }

  predicate HoldsHash(db: AuthDb, token: Id, hash: string) {
    token in db.tokens && db.tokens[token].hash == hash
  }

  /** `RotateAccessTokenTx` on the history row of the presented hash. */
  function DoRotate(db: AuthDb, token: Id, newId: Id, next: string, expiresAt: Time, now: Time): AuthOutcome
    requires token in db.tokens
  {
    var row := db.tokens[token];
    if row.status != TokenActive then AuthOutcome(ReuseMarked(db, row.session, token), AccessTokenReused)
    else if row.session !in db.sessions then AuthOutcome(db, NoRows)
    else
      var session := db.sessions[row.session];
      if session.status != SessionActive || session.hash != row.hash then
        AuthOutcome(ReuseMarked(db, row.session, token), AccessTokenReused)
      else if session.sessionExpiresAt <= now then AuthOutcome(WithToken(db, token, TokenExpired), SessionExpired)
      else if row.accessExpiresAt <= now || session.accessExpiresAt <= now then
        AuthOutcome(WithToken(db, token, TokenExpired), AccessTokenExpired)
      else
        var until := if session.sessionExpiresAt < expiresAt then session.sessionExpiresAt else expiresAt;
        // Unique hashes and the check that a token expires after it is issued.
        if newId in db.tokens || HashTaken(db, next) || until <= now then AuthOutcome(db, Conflict)
        else
          AuthOutcome(
            db.(tokens := db.tokens[token := row.(status := TokenRotated, rotatedAt := Some(now))]
                                   [newId := Token(row.session, next, TokenActive, now, until, None)],
                sessions := db.sessions[row.session := session.(hash := next, accessExpiresAt := until)]),
            Done(row.session))
  }

  /** `RevokeSession`. */
  function DoRevokeSession(db: AuthDb, s: Id, reason: string): AuthOutcome {
    if s !in db.sessions || db.sessions[s].status != SessionActive then AuthOutcome(db, NoRows)
    else
      var sessions := db.sessions[s := Closed(db.sessions[s], reason)];
      AuthOutcome(db.(sessions := sessions, tokens := TokensRevoked(db.tokens, {s})), Done(s))
  }

  function ActiveSessions(db: AuthDb, user: Id): set<Id> {
    set s | s in db.sessions && db.sessions[s].user == user && db.sessions[s].status == SessionActive
  }

  /** The active one-time tokens of a user get another status. */
  function Ended(rows: map<Id, OneTime>, user: Id, status: OneTimeStatus): map<Id, OneTime> {
    map r | r in rows ::
      if rows[r].user == user && rows[r].status == OneTimeActive then rows[r].(status := status) else rows[r]
  }

  /** `RevokeUserSessions`: sessions, and unfinished logins that could become sessions. */
  function DoRevokeUserSessions(db: AuthDb, user: Id, reason: string): AuthOutcome {
    var ids := ActiveSessions(db, user);
    AuthOutcome(
      db.(setups := Ended(db.setups, user, Superseded),
          handoffs := Ended(db.handoffs, user, Expired),
          sessions := SessionsClosed(db.sessions, ids, reason),
          tokens := TokensRevoked(db.tokens, ids)),
      Changed(|ids|))
  }

  // ----- One-time tokens -----

  function Rows(db: AuthDb, kind: OneTimeKind): map<Id, OneTime> {
    match kind
    case SetupToken => db.setups
    case HandoffToken => db.handoffs
    case ResetToken => db.resets
  }

  function WithRows(db: AuthDb, kind: OneTimeKind, rows: map<Id, OneTime>): AuthDb {
    match kind
    case SetupToken => db.(setups := rows)
    case HandoffToken => db.(handoffs := rows)
    case ResetToken => db.(resets := rows)
  }

  /** Creating a setup or reset token supersedes the user's active ones; handoffs may coexist. */
  function DoCreateOneTime(db: AuthDb, kind: OneTimeKind, id: Id, user: Id, hash: string, expiresAt: Time,
      asked: Time): (r: AuthOutcome)
    ensures r.db.sessions == db.sessions && r.db.tokens == db.tokens
  {
    var rows := if kind == HandoffToken then Rows(db, kind) else Ended(Rows(db, kind), user, Superseded);
    if kind != HandoffToken && expiresAt <= asked then AuthOutcome(db, Invalid)
    else if id in rows || exists r :: r in rows && rows[r].hash == hash then AuthOutcome(db, Conflict)
    else AuthOutcome(WithRows(db, kind, rows[id := OneTime(user, hash, OneTimeActive, expiresAt)]), Done(id))
  }

  predicate Redeemable(rows: map<Id, OneTime>, hash: string, now: Time, r: Id) {
    r in rows && rows[r].hash == hash && rows[r].status == OneTimeActive && now < rows[r].expiresAt
  }

  /** `ConsumePassword2FASetup`, `ConsumeOIDCHandoff` and `ConsumePasswordReset`. */
  ghost function DoConsume(db: AuthDb, kind: OneTimeKind, hash: string, now: Time): (r: AuthOutcome)
    ensures r.db.sessions == db.sessions && r.db.tokens == db.tokens
  {
    var rows := Rows(db, kind);
    if r :| Redeemable(rows, hash, now, r)
    then AuthOutcome(WithRows(db, kind, rows[r := rows[r].(status := Consumed)]), Done(r))
    else AuthOutcome(db, NoRows)
  }

  // ----- Steps and runs -----

  ghost function Step(db: AuthDb, step: AuthStep, now: Time): AuthOutcome {
    match step
    case CreateSession(id, token, user, hash, access, session, issued) =>
      DoCreateSession(db, id, token, user, hash, access, session, issued)
    case Rotate(current, newId, next, expiresAt) =>
      if exists k :: HoldsHash(db, k, current) then
        var k :| HoldsHash(db, k, current); DoRotate(db, k, newId, next, expiresAt, now)
      else AuthOutcome(db, NoRows)
    case RevokeSession(s, reason) => DoRevokeSession(db, s, reason)
    case RevokeUserSessions(user, reason) => DoRevokeUserSessions(db, user, reason)
    case CreateOneTime(kind, id, user, hash, expiresAt, asked) =>
      DoCreateOneTime(db, kind, id, user, hash, expiresAt, asked)
    case ConsumeOneTime(kind, hash) => DoConsume(db, kind, hash, now)
  }

  datatype Timed = Timed(step: AuthStep, now: Time)

  ghost predicate Clocked(run: seq<Timed>) {
    forall i, k :: 0 <= i < k < |run| ==> run[i].now <= run[k].now
  }

  /** The tables after the first `i` steps of a run that starts with empty tables. */
  ghost function At(run: seq<Timed>, i: nat): AuthDb
    requires i <= |run|
  {
    if i == 0 then EMPTY_AUTH else Step(At(run, i - 1), run[i - 1].step, run[i - 1].now).db
  }
}
