/**
  Login, 2FA-setup confirmation, OIDC handoff exchange and credential resets racing for one user.
  Transactions run statement by statement in any interleaving: a statement sees the committed rows
  overlaid with the transaction's own writes, and a transaction may end without committing at any
  point. `GetForUpdate` waits for the user row, and so does the handoff insert of an OIDC callback:
  its foreign key shares the row's key until the callback ends, which a `for update` excludes.
  Expiry, code and token checks that can only refuse are left to the scheduler.
 */
module ResetRace {
  import opened Base

  type TxId = nat

  // Where a session comes from: the password it was opened with, a setup or a handoff row.
  datatype Origin = ByPassword(password: nat) | BySetup(setup: TxId) | ByHandoff(handoff: TxId)

  // `since` is the moment the row was committed.
  datatype SessionRow = SessionRow(origin: Origin, active: bool, since: nat)

  // `password` is the one verified by the login that made the setup.
  datatype SetupRow = SetupRow(password: nat, active: bool, since: nat)

  datatype HandoffRow = HandoffRow(active: bool, since: nat)

  // The user's rows. Each reset writes a new password; rows carry the id of the transaction that inserted them.
  datatype Store = Store(
    password: nat,
    sessions: map<TxId, SessionRow>,
    setups: map<TxId, SetupRow>,
    handoffs: map<TxId, HandoffRow>)

  // A transaction's own uncommitted writes.
  datatype Writes = Writes(
    password: Option<nat>,
    sessions: map<TxId, SessionRow>,
    setups: map<TxId, SetupRow>,
    handoffs: map<TxId, HandoffRow>)

  const NO_WRITES := Writes(None, map[], map[], map[])

  datatype Kind =
    | Login
    | Confirm(setup: TxId)
    | Exchange(handoff: TxId)
    | ResetPassword
    | ResetTwoFactor
    | Callback

  datatype Pc =
    | Begun | Peeked | Locked | Verified | Consumed | UserUpdated | SetupsEnded | HandoffsEnded | Wrote
    | Committed | Aborted

  // `seen` is the password read with the lock; `doneAt` is the moment of commit.
  datatype Tx = Tx(kind: Kind, pc: Pc, seen: nat, doneAt: nat, writes: Writes)

  // `tick` counts moments; the last committed reset committed at `done`.
  datatype State = State(store: Store, txs: map<TxId, Tx>, lock: Option<TxId>, tick: nat, done: nat)

  // `choice` resolves what the scheduler or the data decides: session or setup, go on or refuse.
  datatype Action = Begin(tx: TxId, kind: Kind) | Advance(tx: TxId, choice: bool) | Abort(tx: TxId)

  const INITIAL := State(Store(0, map[], map[], map[]), map[], None, 1, 0)

  // ----- Statements -----

  function View(store: Store, w: Writes): Store {
    Store(Coalesce(w.password, store.password),
      store.sessions + w.sessions, store.setups + w.setups, store.handoffs + w.handoffs)
  }

  predicate ActiveSetup(v: Store, k: TxId) {
    k in v.setups && v.setups[k].active
  }

  predicate ActiveHandoff(v: Store, k: TxId) {
    k in v.handoffs && v.handoffs[k].active
  }

  /** `update password_2fa_login_setups set status = 'superseded' where user_id = $1 and status = 'active'`. */
  function EndSetups(v: Store, w: Writes): Writes {
    w.(setups := w.setups + (map k | k in v.setups && v.setups[k].active :: v.setups[k].(active := false)))
  }

  /** `update oidc_login_handoffs set status = 'expired' where user_id = $1 and status = 'active'`. */
  function EndHandoffs(v: Store, w: Writes): Writes {
    w.(handoffs := w.handoffs + (map k | k in v.handoffs && v.handoffs[k].active :: v.handoffs[k].(active := false)))
  }

  /** `update user_sessions set status = 'revoked' where user_id = $1 and status = 'active'`. */
  function CloseSessions(v: Store, w: Writes): Writes {
    w.(sessions := w.sessions + (map k | k in v.sessions && v.sessions[k].active :: v.sessions[k].(active := false)))
  }

  function OpenSession(w: Writes, t: TxId, origin: Origin): Writes {
    w.(sessions := w.sessions[t := SessionRow(origin, true, 0)])
  }

  /** The next statement of a transaction that holds the user lock. */
  function LockedStatement(v: Store, t: TxId, tx: Tx, choice: bool): Tx {
    match (tx.kind, tx.pc)
    // VerifyPassword on the row read under the lock.
    case (Login, Locked) => if choice then tx.(pc := Verified) else Stopped(tx)
    case (Login, Verified) =>
      if choice then tx.(pc := Wrote, writes := OpenSession(tx.writes, t, ByPassword(tx.seen)))
      else tx.(pc := SetupsEnded, writes := EndSetups(v, tx.writes))
    case (Login, SetupsEnded) =>
      tx.(pc := Wrote, writes := tx.writes.(setups := tx.writes.setups[t := SetupRow(tx.seen, true, 0)]))
    // The setup is read again under the lock, then consumed.
    case (Confirm(k), Locked) => if choice && ActiveSetup(v, k) then tx.(pc := Verified) else Stopped(tx)
    case (Confirm(k), Verified) =>
      if ActiveSetup(v, k)
      then tx.(pc := Consumed, writes := tx.writes.(setups := tx.writes.setups[k := v.setups[k].(active := false)]))
      else Stopped(tx)
    case (Confirm(k), Consumed) => tx.(pc := Wrote, writes := OpenSession(tx.writes, t, BySetup(k)))
    case (Exchange(k), Locked) =>
      if choice && ActiveHandoff(v, k)
      then tx.(pc := Consumed, writes :=
        tx.writes.(handoffs := tx.writes.handoffs[k := v.handoffs[k].(active := false)]))
      else Stopped(tx)
    case (Exchange(k), Consumed) => tx.(pc := Wrote, writes := OpenSession(tx.writes, t, ByHandoff(k)))
    // The reset token is consumed, then the password is written.
    case (ResetPassword, Locked) => if choice then tx.(pc := Consumed) else Stopped(tx)
    case (ResetPassword, Consumed) => tx.(pc := UserUpdated, writes := tx.writes.(password := Some(v.password + 1)))
    case (ResetTwoFactor, Locked) => tx.(pc := UserUpdated)
    // RevokeUserSessions.
    case (_, UserUpdated) => tx.(pc := SetupsEnded, writes := EndSetups(v, tx.writes))
    case (_, SetupsEnded) => tx.(pc := HandoffsEnded, writes := EndHandoffs(v, tx.writes))
    case (_, HandoffsEnded) => tx.(pc := Wrote, writes := CloseSessions(v, tx.writes))
    case _ => tx
  }

  function Stopped(tx: Tx): Tx {
    tx.(pc := Aborted, writes := NO_WRITES)
  }

  predicate IsReset(kind: Kind) {
    kind == ResetPassword || kind == ResetTwoFactor
  }

  /** A transaction that may hold the user lock and does. */
  predicate Holding(tx: Tx) {
    !tx.kind.Callback? && tx.pc in {Locked, Verified, Consumed, UserUpdated, SetupsEnded, HandoffsEnded, Wrote}
  }

  /** The committed rows, with the moment of commit on the rows the transaction inserted. */
  function Merge(store: Store, t: TxId, w: Writes, tick: nat): Store {
    var v := View(store, w);
    v.(sessions := if t in w.sessions then v.sessions[t := w.sessions[t].(since := tick)] else v.sessions,
       setups := if t in w.setups then v.setups[t := w.setups[t].(since := tick)] else v.setups,
       handoffs := if t in w.handoffs then v.handoffs[t := w.handoffs[t].(since := tick)] else v.handoffs)
  }

  function Commit(s: State, t: TxId): State
    requires t in s.txs
  {
    var tx := s.txs[t];
    s.(store := Merge(s.store, t, tx.writes, s.tick),
       txs := s.txs[t := tx.(pc := Committed, doneAt := s.tick, writes := NO_WRITES)],
       lock := if s.lock == Some(t) then None else s.lock,
       done := if IsReset(tx.kind) then s.tick else s.done)
  }

  /** A callback that inserted its handoff shares the key of the user row until it ends. */
  predicate KeyShared(s: State) {
    exists t :: t in s.txs && s.txs[t].kind == Callback && s.txs[t].pc == Wrote
  }

  /** A transaction's next statement; it waits while another one holds the lock it needs. */
  function Statement(s: State, t: TxId, choice: bool): State
    requires t in s.txs
  {
    var tx := s.txs[t];
    if tx.pc in {Committed, Aborted} then s
    else if tx.pc == Wrote then Commit(s, t)
    else if tx.kind == Callback then
      if s.lock.Some? then s
      else s.(txs := s.txs[t := tx.(pc := Wrote, writes := NO_WRITES.(handoffs := map[t := HandoffRow(true, 0)]))])
    else if tx.pc == Begun && (tx.kind.Confirm? || tx.kind.Exchange?) then
      // The first, unlocked look at the token.
      s.(txs := s.txs[t := if choice then tx.(pc := Peeked) else Stopped(tx)])
    else if tx.pc in {Begun, Peeked} then
      if s.lock.Some? || KeyShared(s) then s
      else s.(lock := Some(t), txs := s.txs[t := tx.(pc := Locked, seen := s.store.password)])
    else if s.lock != Some(t) then s
    else
      var next := LockedStatement(View(s.store, tx.writes), t, tx, choice);
      s.(txs := s.txs[t := next], lock := if next.pc == Aborted then None else s.lock)
  }

  function Apply(s: State, a: Action): State {
    var after :=
      match a
      case Begin(t, kind) => if t in s.txs then s else s.(txs := s.txs[t := Tx(kind, Begun, 0, 0, NO_WRITES)])
      case Advance(t, choice) => if t in s.txs then Statement(s, t, choice) else s
      case Abort(t) =>
        if t in s.txs && s.txs[t].pc !in {Committed, Aborted}
        then s.(txs := s.txs[t := Stopped(s.txs[t])], lock := if s.lock == Some(t) then None else s.lock)
        else s;
    after.(tick := s.tick + 1)
  }

  function Run(actions: seq<Action>, i: nat): State
    requires i <= |actions|
  {
    if i == 0 then INITIAL else Apply(Run(actions, i - 1), actions[i - 1])
  }

  // ----- The invariant -----

  /** The origin is the current password, or a setup or handoff made since the last reset committed. */
  predicate Fresh(s: State, origin: Origin) {
    match origin
    case ByPassword(p) => p == s.store.password
    case BySetup(k) =>
      k in s.store.setups && s.store.setups[k].password == s.store.password && s.done < s.store.setups[k].since
    case ByHandoff(k) => k in s.store.handoffs && s.done < s.store.handoffs[k].since
  }

  ghost predicate Safe(s: State) {
    forall x :: x in s.store.sessions && s.store.sessions[x].active ==>
      Fresh(s, s.store.sessions[x].origin) && s.done < s.store.sessions[x].since
  }

  /** Setups and handoffs that can still become sessions are as fresh as the sessions. */
  ghost predicate Pending(s: State) {
    && (forall k :: ActiveSetup(s.store, k) ==> Fresh(s, BySetup(k)))
    && (forall k :: ActiveHandoff(s.store, k) ==> Fresh(s, ByHandoff(k)))
  }

  predicate Finished(s: State, t: TxId) {
    t in s.txs && s.txs[t].pc == Committed
  }

  /** Rows come from committed transactions. */
  predicate RowsCommitted(s: State) {
    && (forall k :: k in s.store.sessions ==> Finished(s, k))
    && (forall k :: k in s.store.setups ==> Finished(s, k))
    && (forall k :: k in s.store.handoffs ==> Finished(s, k))
  }

  predicate NoSetups(v: Store) {
    forall k :: k in v.setups ==> !v.setups[k].active
  }

  predicate NoSessions(v: Store) {
    forall k :: k in v.sessions ==> !v.sessions[k].active
  }

  predicate NoHandoffs(v: Store) {
    forall k :: k in v.handoffs ==> !v.handoffs[k].active
  }

  /** Rows a transaction changed but did not insert are inactive copies of the committed ones. */
  predicate KeepsRows(store: Store, t: TxId, w: Writes) {
    && (forall k :: k in w.handoffs && k != t ==>
          k in store.handoffs && w.handoffs[k] == store.handoffs[k].(active := false))
    && (forall k :: k in w.setups && k != t ==> k in store.setups && w.setups[k] == store.setups[k].(active := false))
    && (forall k :: k in w.sessions && k != t ==>
          k in store.sessions && w.sessions[k] == store.sessions[k].(active := false))
  }

  predicate LoginOk(t: TxId, tx: Tx) {
    && tx.pc in {Locked, Verified, SetupsEnded, Wrote} && tx.writes.password == None && tx.writes.handoffs == map[]
    && (tx.pc in {Locked, Verified} ==> tx.writes == NO_WRITES)
    && (tx.pc == SetupsEnded ==> tx.writes.sessions == map[] && t !in tx.writes.setups)
    && (forall k :: k in tx.writes.sessions ==> k == t && tx.writes.sessions[k].origin == ByPassword(tx.seen))
    && (t in tx.writes.setups ==> tx.writes.setups[t].password == tx.seen)
  }

  predicate ConfirmOk(s: State, t: TxId, tx: Tx, k: TxId) {
    && tx.pc in {Locked, Verified, Consumed, Wrote} && tx.writes.password == None && tx.writes.handoffs == map[]
    && (tx.pc in {Locked, Verified} ==> tx.writes == NO_WRITES)
    && (tx.pc in {Consumed, Wrote} ==> tx.writes.setups.Keys == {k} && Fresh(s, BySetup(k)))
    && (forall x :: x in tx.writes.sessions ==> x == t && tx.writes.sessions[x].origin == BySetup(k))
  }

  predicate ExchangeOk(s: State, t: TxId, tx: Tx, k: TxId) {
    && tx.pc in {Locked, Consumed, Wrote} && tx.writes.password == None && tx.writes.setups == map[]
    && (tx.pc == Locked ==> tx.writes == NO_WRITES)
    && (tx.pc in {Consumed, Wrote} ==> tx.writes.handoffs.Keys == {k} && Fresh(s, ByHandoff(k)))
    && (forall x :: x in tx.writes.sessions ==> x == t && tx.writes.sessions[x].origin == ByHandoff(k))
  }

  predicate ResetSteps(s: State, t: TxId, tx: Tx) {
    && tx.pc in {Locked, Consumed, UserUpdated, SetupsEnded, HandoffsEnded, Wrote}
    && t !in tx.writes.setups && t !in tx.writes.handoffs && t !in tx.writes.sessions
    && (tx.pc in {SetupsEnded, HandoffsEnded, Wrote} ==> NoSetups(View(s.store, tx.writes)))
    && (tx.pc in {HandoffsEnded, Wrote} ==> NoHandoffs(View(s.store, tx.writes)))
    && (tx.pc == Wrote ==> NoSessions(View(s.store, tx.writes)))
    && (tx.kind == ResetPassword ==>
          tx.writes.password == if tx.pc in {Locked, Consumed} then None else Some(s.store.password + 1))
    && (tx.kind == ResetTwoFactor ==> tx.writes.password == None && tx.pc != Consumed)
  }

  /** What a transaction that holds the lock has read and written so far. */
  predicate HolderOk(s: State, t: TxId, tx: Tx) {
    && tx.seen == s.store.password
    && KeepsRows(s.store, t, tx.writes)
    && match tx.kind
       case Login => LoginOk(t, tx)
       case Confirm(k) => ConfirmOk(s, t, tx, k)
       case Exchange(k) => ExchangeOk(s, t, tx, k)
       case Callback => false
       case _ => ResetSteps(s, t, tx)
  }

  predicate IdleOk(t: TxId, tx: Tx) {
    if tx.kind == Callback && tx.pc == Wrote then tx.writes == NO_WRITES.(handoffs := map[t := HandoffRow(true, 0)])
    else
      && tx.writes == NO_WRITES
      && tx.pc in {Begun, Peeked, Committed, Aborted}
      && (tx.kind == Callback ==> tx.pc != Peeked)
  }

  /** The last reset is no older than any committed one, and a reset password is older than the current one. */
  predicate ResetOk(s: State, tx: Tx) {
    tx.pc == Committed && IsReset(tx.kind) ==>
      tx.doneAt <= s.done && (tx.kind == ResetPassword ==> tx.seen < s.store.password)
  }

  predicate TxOk(s: State, t: TxId)
    requires t in s.txs
  {
    && (if Holding(s.txs[t]) then s.lock == Some(t) && HolderOk(s, t, s.txs[t])
        else s.lock != Some(t) && IdleOk(t, s.txs[t]))
    && (s.txs[t].kind == Callback && s.txs[t].pc == Wrote ==> s.lock == None)
    && ResetOk(s, s.txs[t])
  }

  ghost predicate Inv(s: State) {
    && Safe(s) && Pending(s) && RowsCommitted(s) && s.done < s.tick
    && (s.lock.Some? ==> s.lock.value in s.txs)
    && (forall t {:trigger TxOk(s, t)} :: t in s.txs ==> TxOk(s, t))
  }

  // ----- Steps that leave the rows alone -----

  /** A step of transaction `t` that commits nothing keeps the invariant when it keeps `t`'s own part of it. */
  lemma QuietStep(s: State, n: State, t: TxId)
    requires Inv(s)
    requires n == s.(txs := n.txs, lock := n.lock, tick := s.tick + 1)
    requires t in n.txs && n.txs == s.txs[t := n.txs[t]]
    requires Finished(s, t) ==> Finished(n, t)
    requires n.lock == s.lock || (s.lock == None && n.lock == Some(t) && !KeyShared(s))
      || (s.lock == Some(t) && n.lock == None)
    requires TxOk(n, t)
    ensures Inv(n)
  {
    hide View;
    forall k | Finished(s, k) ensures Finished(n, k) {}
    forall u | u in n.txs ensures TxOk(n, u) {
      if u != t {
        assert TxOk(s, u);
        OthersKeep(s, n, u);
      }
    }
  }

  lemma OthersKeep(s: State, n: State, u: TxId)
    requires u in s.txs && TxOk(s, u)
    requires n.store == s.store && n.done == s.done
    requires u in n.txs && n.txs[u] == s.txs[u] && (s.lock == Some(u) <==> n.lock == Some(u))
    requires s.txs[u].kind == Callback && s.txs[u].pc == Wrote ==> n.lock == None
    ensures TxOk(n, u)
  {
    hide View, KeepsRows, NoSetups, NoSessions, NoHandoffs;
  }

  /** A transaction that holds the lock, about to run its next statement. */
  ghost predicate InStep(s: State, t: TxId, tx: Tx) {
    && RowsCommitted(s) && t in s.txs && s.txs[t] == tx && Holding(tx) && tx.pc != Wrote
    && HolderOk(s, t, tx)
    && t !in s.store.sessions && t !in s.store.setups && t !in s.store.handoffs
  }

  ghost predicate StaysOk(s: State, t: TxId, next: Tx) {
    if next.pc == Aborted then next.writes == NO_WRITES else Holding(next) && HolderOk(s, t, next)
  }

  lemma LoginStep(s: State, t: TxId, tx: Tx, choice: bool)
    requires InStep(s, t, tx) && tx.kind == Login
    ensures StaysOk(s, t, LockedStatement(View(s.store, tx.writes), t, tx, choice))
  {
    hide ConfirmOk, ExchangeOk, ResetSteps, NoSetups, NoSessions, NoHandoffs, Fresh, EndSetups, KeepsRows, View;
    SetupsEnd(s.store, t, tx.writes);
    OwnRows(s.store, t, tx);
  }

  lemma OwnRows(store: Store, t: TxId, tx: Tx)
    requires KeepsRows(store, t, tx.writes)
    ensures KeepsRows(store, t, OpenSession(tx.writes, t, ByPassword(tx.seen)))
    ensures KeepsRows(store, t, tx.writes.(setups := tx.writes.setups[t := SetupRow(tx.seen, true, 0)]))
    ensures KeepsRows(store, t, NO_WRITES)
  {
  }

  lemma ConfirmStep(s: State, t: TxId, tx: Tx, choice: bool)
    requires InStep(s, t, tx) && Pending(s) && tx.kind.Confirm?
    ensures StaysOk(s, t, LockedStatement(View(s.store, tx.writes), t, tx, choice))
  {
    hide LoginOk, ExchangeOk, ResetSteps, NoSetups, NoSessions, NoHandoffs, KeepsRows, EndSetups, EndHandoffs,
         CloseSessions;
    ConsumedRows(s.store, t, tx);
  }

  lemma ConsumedRows(store: Store, t: TxId, tx: Tx)
    requires KeepsRows(store, t, tx.writes)
    ensures KeepsRows(store, t, NO_WRITES)
    ensures forall origin :: KeepsRows(store, t, OpenSession(tx.writes, t, origin))
    ensures
      var v := View(store, tx.writes);
      && (forall k :: k in store.setups ==>
            KeepsRows(store, t, tx.writes.(setups := tx.writes.setups[k := v.setups[k].(active := false)])))
      && (forall k :: k in store.handoffs ==>
            KeepsRows(store, t, tx.writes.(handoffs := tx.writes.handoffs[k := v.handoffs[k].(active := false)])))
  {
  }

  lemma ExchangeStep(s: State, t: TxId, tx: Tx, choice: bool)
    requires InStep(s, t, tx) && Pending(s) && tx.kind.Exchange?
    ensures StaysOk(s, t, LockedStatement(View(s.store, tx.writes), t, tx, choice))
  {
    hide LoginOk, ConfirmOk, ResetSteps, NoSetups, NoSessions, NoHandoffs, KeepsRows, EndSetups, EndHandoffs,
         CloseSessions;
    ConsumedRows(s.store, t, tx);
  }

  lemma SetupsEnd(store: Store, t: TxId, w: Writes)
    requires KeepsRows(store, t, w) && t !in w.setups && t !in store.setups
    ensures
      var n := EndSetups(View(store, w), w);
      n == w.(setups := n.setups) && t !in n.setups && KeepsRows(store, t, n) && NoSetups(View(store, n))
  {
  }

  lemma HandoffsEnd(store: Store, t: TxId, w: Writes)
    requires KeepsRows(store, t, w) && t !in w.handoffs && t !in store.handoffs
    ensures
      var n := EndHandoffs(View(store, w), w);
      n == w.(handoffs := n.handoffs) && t !in n.handoffs && KeepsRows(store, t, n) && NoHandoffs(View(store, n))
  {
  }

  lemma SessionsClose(store: Store, t: TxId, w: Writes)
    requires KeepsRows(store, t, w) && t !in w.sessions && t !in store.sessions
    ensures
      var n := CloseSessions(View(store, w), w);
      n == w.(sessions := n.sessions) && t !in n.sessions && KeepsRows(store, t, n) && NoSessions(View(store, n))
  {
  }

  lemma ResetStep(s: State, t: TxId, tx: Tx, choice: bool)
    requires InStep(s, t, tx) && IsReset(tx.kind)
    ensures StaysOk(s, t, LockedStatement(View(s.store, tx.writes), t, tx, choice))
  {
    hide LoginOk, ConfirmOk, ExchangeOk, Fresh, EndSetups, EndHandoffs, CloseSessions, KeepsRows, RowsCommitted;
    match tx.pc
    case UserUpdated => SetupsEnd(s.store, t, tx.writes);
    case SetupsEnded => HandoffsEnd(s.store, t, tx.writes);
    case HandoffsEnded => SessionsClose(s.store, t, tx.writes);
    case _ => KeepsRowsAlone(s.store, t, tx.writes);
  }

  lemma KeepsRowsAlone(store: Store, t: TxId, w: Writes)
    requires KeepsRows(store, t, w)
    ensures forall p :: KeepsRows(store, t, w.(password := p))
    ensures KeepsRows(store, t, NO_WRITES)
  {
  }

  /** Time passing keeps the invariant. */
  lemma Waited(s: State)
    requires Inv(s)
    ensures Inv(s.(tick := s.tick + 1))
  {
    hide View;
    var n := s.(tick := s.tick + 1);
    forall k | Finished(s, k) ensures Finished(n, k) {}
    forall u | u in n.txs ensures TxOk(n, u) {
      assert TxOk(s, u);
      OthersKeep(s, n, u);
    }
  }

  lemma HolderStep(s: State, t: TxId, tx: Tx, choice: bool)
    requires InStep(s, t, tx) && Pending(s)
    ensures StaysOk(s, t, LockedStatement(View(s.store, tx.writes), t, tx, choice))
  {
    hide LockedStatement, HolderOk, StaysOk, Pending, RowsCommitted, View;
    match tx.kind
    case Login => LoginStep(s, t, tx, choice);
    case Confirm(_) => ConfirmStep(s, t, tx, choice);
    case Exchange(_) => ExchangeStep(s, t, tx, choice);
    case Callback => assert false;
    case _ => ResetStep(s, t, tx, choice);
  }

  lemma NextKind(v: Store, t: TxId, tx: Tx, choice: bool)
    requires Holding(tx) && tx.pc != Wrote
    ensures var next := LockedStatement(v, t, tx, choice);
            next.kind == tx.kind && next.pc !in {Committed, Begun, Peeked}
  {
    hide EndSetups, EndHandoffs, CloseSessions;
  }

  lemma LaterOk(s: State, n: State, t: TxId, tx: Tx)
    requires HolderOk(s, t, tx)
    requires n.store == s.store && n.done == s.done
    ensures HolderOk(n, t, tx)
  {
    hide View, KeepsRows, NoSetups, NoSessions, NoHandoffs;
  }

  /** A statement of the lock holder keeps the invariant. */
  lemma LockedAdvance(s: State, t: TxId, choice: bool)
    requires Inv(s) && t in s.txs && Holding(s.txs[t]) && s.txs[t].pc != Wrote
    ensures Inv(Apply(s, Advance(t, choice)))
  {
    hide LockedStatement, View, HolderOk, Safe, Pending;
    var tx := s.txs[t];
    assert TxOk(s, t);
    assert InStep(s, t, tx) by {
      assert !Finished(s, t);
    }
    hide RowsCommitted;
    var next := LockedStatement(View(s.store, tx.writes), t, tx, choice);
    NextKind(View(s.store, tx.writes), t, tx, choice);
    HolderStep(s, t, tx, choice);
    var n := Apply(s, Advance(t, choice));
    assert n.txs == s.txs[t := next];
    if next.pc != Aborted {
      LaterOk(s, n, t, next);
    }
    assert TxOk(n, t);
    QuietStep(s, n, t);
  }

  /** Taking the lock, and every statement run without it, keeps the invariant. */
  lemma UnlockedAdvance(s: State, t: TxId, choice: bool)
    requires Inv(s) && t in s.txs && !Holding(s.txs[t]) && s.txs[t].pc != Wrote
    ensures Inv(Apply(s, Advance(t, choice)))
  {
    hide LockedStatement, View, Safe, Pending, RowsCommitted;
    var n := Apply(s, Advance(t, choice));
    assert TxOk(s, t);
    assert n.txs == s.txs[t := n.txs[t]];
    QuietStep(s, n, t);
  }

  lemma AbortKeeps(s: State, t: TxId)
    requires Inv(s) && t in s.txs
    ensures Inv(Apply(s, Abort(t)))
  {
    hide View, Safe, Pending, RowsCommitted;
    var n := Apply(s, Abort(t));
    assert TxOk(s, t);
    assert n.txs == s.txs[t := n.txs[t]];
    assert s.txs[t].pc == Committed ==> !Holding(s.txs[t]);
    assert TxOk(n, t);
    QuietStep(s, n, t);
  }

  // ----- Commits -----

  /**
    After a commit by `t`, the other transactions are as they were; none of them holds the lock unless it did
    before.
   */
  predicate Commits(s: State, n: State, t: TxId) {
    && t in s.txs && s.txs[t].pc == Wrote && n == Apply(s, Advance(t, true))
  }

  lemma RowsCommittedKept(s: State, n: State, t: TxId)
    requires Inv(s) && Commits(s, n, t)
    ensures RowsCommitted(n)
  {
    hide Fresh;
    assert TxOk(s, t);
    var tx := s.txs[t];
    forall k | Finished(s, k) || k == t ensures Finished(n, k) {}
    assert forall k :: k in tx.writes.sessions ==> k in s.store.sessions || k == t;
  }

  /** When the committing transaction holds the lock, or none does, every other one is idle. */
  lemma OthersIdle(s: State, n: State, t: TxId)
    requires Inv(s) && Commits(s, n, t) && (s.lock == Some(t) || s.lock == None)
    requires s.done <= n.done && s.store.password <= n.store.password
    requires ResetOk(n, n.txs[t])
    ensures n.lock == None && forall u {:trigger TxOk(n, u)} :: u in n.txs ==> TxOk(n, u)
  {
    hide Merge, HolderOk;
    forall u | u in n.txs ensures TxOk(n, u) {
      if u != t {
        assert TxOk(s, u);
      }
    }
  }

  /** A callback commits while nobody holds the lock. */
  lemma CallbackCommit(s: State, n: State, t: TxId)
    requires Inv(s) && Commits(s, n, t) && s.txs[t].kind == Callback
    ensures Inv(n)
  {
    assert TxOk(s, t);
    assert t !in s.store.handoffs by {
      assert !Finished(s, t);
    }
    RowsCommittedKept(s, n, t);
    CallbackRows(s, n, t);
    OthersIdle(s, n, t);
    hide Commits, Merge, View, RowsCommitted, TxOk;
    CallbackFresh(s, n, t);
  }

  lemma CallbackFresh(s: State, n: State, t: TxId)
    requires Safe(s) && Pending(s) && s.done < s.tick && t !in s.store.handoffs
    requires n.store == s.store.(handoffs := s.store.handoffs[t := HandoffRow(true, s.tick)]) && n.done == s.done
    ensures Safe(n) && Pending(n)
  {
  }

  lemma CallbackRows(s: State, n: State, t: TxId)
    requires Commits(s, n, t) && s.txs[t].kind == Callback && s.lock == None
    requires s.txs[t].writes == NO_WRITES.(handoffs := map[t := HandoffRow(true, 0)])
    ensures n.store == s.store.(handoffs := s.store.handoffs[t := HandoffRow(true, s.tick)])
    ensures n.tick == s.tick + 1 && n.done == s.done && n.lock == None
    ensures n.txs == s.txs[t := s.txs[t].(pc := Committed, doneAt := s.tick, writes := NO_WRITES)]
  {
  }

  /** The committed rows of a transaction that opens a session or a setup. */
  lemma SessionCommit(s: State, n: State, t: TxId)
    requires Inv(s) && Commits(s, n, t) && !s.txs[t].kind.Callback? && !IsReset(s.txs[t].kind)
    ensures Inv(n)
  {
    assert TxOk(s, t);
    RowsCommittedKept(s, n, t);
    assert t !in s.store.sessions && t !in s.store.setups && t !in s.store.handoffs by {
      assert !Finished(s, t);
    }
    assert n.done == s.done && n.store.password == s.store.password;
    OthersIdle(s, n, t);
    hide RowsCommitted, TxOk;
    StaysFresh(s, n, t);
    SessionsFresh(s, n, t);
    SetupsFresh(s, n, t);
  }

  lemma StaysFresh(s: State, n: State, t: TxId)
    requires Commits(s, n, t) && KeepsRows(s.store, t, s.txs[t].writes) && s.txs[t].writes.password == None
    requires !IsReset(s.txs[t].kind)
    requires t !in s.store.setups && t !in s.store.handoffs
    ensures forall origin :: Fresh(s, origin) ==> Fresh(n, origin)
  {
  }

  lemma SessionsFresh(s: State, n: State, t: TxId)
    requires Commits(s, n, t) && HolderOk(s, t, s.txs[t]) && Safe(s)
    requires !IsReset(s.txs[t].kind) && s.done < s.tick
    requires forall origin :: Fresh(s, origin) ==> Fresh(n, origin)
    ensures Safe(n)
  {
    hide Fresh;
    var tx := s.txs[t];
    if t in tx.writes.sessions {
      assert Fresh(s, tx.writes.sessions[t].origin) by {
        if tx.kind == Login { OwnPassword(s, tx.seen); }
      }
    }
  }

  lemma OwnPassword(s: State, p: nat)
    requires p == s.store.password
    ensures Fresh(s, ByPassword(p))
  {
  }

  lemma SetupsFresh(s: State, n: State, t: TxId)
    requires Commits(s, n, t) && HolderOk(s, t, s.txs[t]) && Pending(s)
    requires !IsReset(s.txs[t].kind) && s.done < s.tick
    requires forall origin :: Fresh(s, origin) ==> Fresh(n, origin)
    ensures Pending(n)
  {
  }

  lemma ResetCommit(s: State, n: State, t: TxId)
    requires Inv(s) && Commits(s, n, t) && IsReset(s.txs[t].kind)
    ensures Inv(n)
  {
    assert TxOk(s, t);
    RowsCommittedKept(s, n, t);
    OthersIdle(s, n, t);
    assert n.store == View(s.store, s.txs[t].writes);
  }

  // ----- Runs -----

  lemma ApplyKeeps(s: State, a: Action)
    requires Inv(s)
    ensures Inv(Apply(s, a))
  {
    hide Inv;
    var t, n := a.tx, Apply(s, a);
    if a.Begin? && t !in s.txs {
      Begun0(s, t, a.kind);
    } else if t !in s.txs || a.Begin? {
      Waited(s);
    } else if a.Abort? {
      AbortKeeps(s, t);
    } else if s.txs[t].pc == Wrote {
      assert Commits(s, n, t);
      match s.txs[t].kind
      case Callback => CallbackCommit(s, n, t);
      case ResetPassword => ResetCommit(s, n, t);
      case ResetTwoFactor => ResetCommit(s, n, t);
      case _ => SessionCommit(s, n, t);
    } else if Holding(s.txs[t]) {
      LockedAdvance(s, t, a.choice);
    } else {
      UnlockedAdvance(s, t, a.choice);
    }
  }

  lemma Begun0(s: State, t: TxId, kind: Kind)
    requires Inv(s) && t !in s.txs
    ensures Inv(Apply(s, Begin(t, kind)))
  {
    hide View, Safe, Pending, RowsCommitted;
    var n := Apply(s, Begin(t, kind));
    QuietStep(s, n, t);
  }

  lemma {:induction false} RunKeeps(actions: seq<Action>, i: nat)
    requires i <= |actions|
    ensures Inv(Run(actions, i))
  {
    if i > 0 {
      hide Inv, Apply;
      RunKeeps(actions, i - 1);
      ApplyKeeps(Run(actions, i - 1), actions[i - 1]);
    }
  }

  /**
    Once a reset has committed, no session from before its commit remains, and none from an older password,
    setup or handoff.
   */
  lemma ResetCutsOff(actions: seq<Action>, i: nat, r: TxId, x: TxId)
    requires i <= |actions|
    requires
      var s := Run(actions, i);
      && r in s.txs && s.txs[r].pc == Committed && IsReset(s.txs[r].kind)
      && x in s.store.sessions && s.store.sessions[x].active
    ensures
      var s := Run(actions, i);
      && s.txs[r].doneAt < s.store.sessions[x].since
      && match s.store.sessions[x].origin
         case ByPassword(p) => s.txs[r].kind == ResetPassword ==> s.txs[r].seen < p
         case BySetup(k) =>
           && k in s.store.setups && s.txs[r].doneAt < s.store.setups[k].since
           && (s.txs[r].kind == ResetPassword ==> s.txs[r].seen < s.store.setups[k].password)
         case ByHandoff(k) => k in s.store.handoffs && s.txs[r].doneAt < s.store.handoffs[k].since
  {
    RunKeeps(actions, i);
    hide Run, Apply, HolderOk;
    assert TxOk(Run(actions, i), r);
  }

  /**
    The same for what could still become a session: every handoff and setup that is active was committed after
    every committed reset. For a handoff this rests on the key-share lock of the callback's insert, which is
    never out together with the lock that a reset takes.
   */
  lemma TokensCutOff(actions: seq<Action>, i: nat, r: TxId, k: TxId)
    requires i <= |actions|
    requires r in Run(actions, i).txs && Run(actions, i).txs[r].pc == Committed && IsReset(Run(actions, i).txs[r].kind)
    ensures
      var s := Run(actions, i);
      && (ActiveHandoff(s.store, k) ==> s.txs[r].doneAt < s.store.handoffs[k].since)
      && (ActiveSetup(s.store, k) ==>
            && s.txs[r].doneAt < s.store.setups[k].since
            && (s.txs[r].kind == ResetPassword ==> s.txs[r].seen < s.store.setups[k].password))
      && (KeyShared(s) ==> s.lock == None)
  {
    RunKeeps(actions, i);
    hide Run, Apply, HolderOk;
    var s := Run(actions, i);
    assert TxOk(s, r);
    assert forall t :: t in s.txs ==> TxOk(s, t);
  }
}
