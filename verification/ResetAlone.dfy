/**
  What each login, confirmation, exchange, callback and reset achieves when nothing disturbs it: statement by
  statement it goes through to its commit, with exactly these rows.
 */
module ResetAlone {
  import opened Base
  import opened ResetRace

  // ----- One statement after the other -----

  /** The state after some actions. */
  function After(s: State, actions: seq<Action>): State {
    if actions == [] then s else Apply(After(s, actions[..|actions| - 1]), actions[|actions| - 1])
  }

  lemma AfterOne(s: State, actions: seq<Action>, a: Action)
    ensures After(s, actions + [a]) == Apply(After(s, actions), a)
  {
    assert (actions + [a])[..|actions|] == actions;
  }

  /** A new transaction comes to a user row that nobody holds. */
  predicate Undisturbed(s: State, t: TxId) {
    t !in s.txs && s.lock == None && !KeyShared(s)
  }

  /** It is the only thing that has changed, `k` moments later. */
  function Alone(s: State, t: TxId, tx: Tx, lock: Option<TxId>, k: nat): State {
    s.(txs := s.txs[t := tx], lock := lock, tick := s.tick + k)
  }

  lemma BeginsAlone(s: State, t: TxId, kind: Kind)
    requires Undisturbed(s, t)
    ensures After(s, [Begin(t, kind)]) == Alone(s, t, Tx(kind, Begun, 0, 0, NO_WRITES), None, 1)
  {
    AfterOne(s, [], Begin(t, kind));
    assert [] + [Begin(t, kind)] == [Begin(t, kind)];
  }

  lemma PeeksAlone(s: State, t: TxId, tx: Tx, k: nat)
    requires Undisturbed(s, t) && (tx.kind.Confirm? || tx.kind.Exchange?) && tx.pc == Begun
    ensures Apply(Alone(s, t, tx, None, k), Advance(t, true)) == Alone(s, t, tx.(pc := Peeked), None, k + 1)
  {
  }

  lemma LocksAlone(s: State, t: TxId, tx: Tx, k: nat)
    requires Undisturbed(s, t) && tx.kind != Callback
    requires tx.pc == if tx.kind.Confirm? || tx.kind.Exchange? then Peeked else Begun
    ensures Apply(Alone(s, t, tx, None, k), Advance(t, true))
      == Alone(s, t, tx.(pc := Locked, seen := s.store.password), Some(t), k + 1)
  {
    var n := Alone(s, t, tx, None, k);
    assert forall u :: u in n.txs && u != t ==> u in s.txs && n.txs[u] == s.txs[u];
    assert !KeyShared(n);
  }

  lemma WorksAlone(s: State, t: TxId, tx: Tx, next: Tx, k: nat, choice: bool)
    requires t !in s.txs && tx.kind != Callback
    requires tx.pc in {Locked, Verified, Consumed, UserUpdated, SetupsEnded, HandoffsEnded}
    requires next == LockedStatement(View(s.store, tx.writes), t, tx, choice) && next.pc != Aborted
    ensures Apply(Alone(s, t, tx, Some(t), k), Advance(t, choice)) == Alone(s, t, next, Some(t), k + 1)
  {
    hide LockedStatement, View;
  }

  lemma CommitsAlone(s: State, t: TxId, tx: Tx, k: nat, choice: bool)
    requires t !in s.txs && tx.pc == Wrote
    ensures
      var after := Apply(Alone(s, t, tx, Some(t), k), Advance(t, choice));
      after.store == Merge(s.store, t, tx.writes, s.tick + k) && after.lock == None
  {
    hide Merge;
  }

  predicate OnlyBy(actions: seq<Action>, t: TxId) {
    forall a :: a in actions ==> a.tx == t
  }

  lemma AddsAction(s: State, actions: seq<Action>, a: Action, t: TxId)
    requires OnlyBy(actions, t) && a.tx == t
    ensures OnlyBy(actions + [a], t) && After(s, actions + [a]) == Apply(After(s, actions), a)
  {
    AfterOne(s, actions, a);
  }

  // ----- From the lock to the commit -----

  /** The transaction after the statements under the lock that these choices resolve. */
  function Worked(store: Store, t: TxId, tx: Tx, choices: seq<bool>): Tx
    decreases |choices|
  {
    if choices == [] then tx
    else Worked(store, t, LockedStatement(View(store, tx.writes), t, tx, choices[0]), choices[1..])
  }

  /** None of these statements refuses. */
  predicate Works(store: Store, t: TxId, tx: Tx, choices: seq<bool>)
    decreases |choices|
  {
    choices == [] ||
    var next := LockedStatement(View(store, tx.writes), t, tx, choices[0]);
    && tx.pc in {Locked, Verified, Consumed, UserUpdated, SetupsEnded, HandoffsEnded} && next.pc != Aborted
    && next.kind == tx.kind && Works(store, t, next, choices[1..])
  }

  lemma {:induction false} WorksThrough(s: State, t: TxId, tx: Tx, choices: seq<bool>, before: seq<Action>, k: nat)
    returns (actions: seq<Action>)
    requires t !in s.txs && tx.kind != Callback && Works(s.store, t, tx, choices)
    requires OnlyBy(before, t) && After(s, before) == Alone(s, t, tx, Some(t), k)
    ensures OnlyBy(actions, t)
    ensures After(s, actions) == Alone(s, t, Worked(s.store, t, tx, choices), Some(t), k + |choices|)
    decreases |choices|
  {
    hide Apply, After, LockedStatement, View, OnlyBy;
    if choices == [] {
      actions := before;
    } else {
      var next := LockedStatement(View(s.store, tx.writes), t, tx, choices[0]);
      WorksAlone(s, t, tx, next, k, choices[0]);
      AddsAction(s, before, Advance(t, choices[0]), t);
      actions := WorksThrough(s, t, next, choices[1..], before + [Advance(t, choices[0])], k + 1);
    }
  }

  function Entered(s: State, kind: Kind): Tx {
    Tx(kind, Locked, s.store.password, 0, NO_WRITES)
  }

  /** A new transaction reaches the user lock, with a first look at the token where there is one. */
  lemma Enters(s: State, t: TxId, kind: Kind) returns (actions: seq<Action>)
    requires Undisturbed(s, t) && kind != Callback
    ensures OnlyBy(actions, t)
    ensures After(s, actions)
      == Alone(s, t, Entered(s, kind), Some(t), if kind.Confirm? || kind.Exchange? then 3 else 2)
  {
    var begun := Tx(kind, Begun, 0, 0, NO_WRITES);
    hide Apply, After;
    BeginsAlone(s, t, kind);
    actions := [Begin(t, kind)];
    if kind.Confirm? || kind.Exchange? {
      PeeksAlone(s, t, begun, 1);
      AddsAction(s, actions, Advance(t, true), t);
      actions := actions + [Advance(t, true)];
      LocksAlone(s, t, begun.(pc := Peeked), 2);
    } else {
      LocksAlone(s, t, begun, 1);
    }
    AddsAction(s, actions, Advance(t, true), t);
    actions := actions + [Advance(t, true)];
  }

  /** It goes through, and its writes are committed. */
  lemma GoesThrough(s: State, t: TxId, kind: Kind, choices: seq<bool>) returns (actions: seq<Action>, tick: nat)
    requires Undisturbed(s, t) && kind != Callback
    requires Works(s.store, t, Entered(s, kind), choices)
    requires Worked(s.store, t, Entered(s, kind), choices).pc == Wrote
    ensures OnlyBy(actions, t) && tick > s.tick
    ensures
      var after := After(s, actions);
      after.store == Merge(s.store, t, Worked(s.store, t, Entered(s, kind), choices).writes, tick) && after.lock == None
  {
    hide Apply, After, Merge, Works, Worked, OnlyBy;
    actions := Enters(s, t, kind);
    var k := if kind.Confirm? || kind.Exchange? then 3 else 2;
    actions := WorksThrough(s, t, Entered(s, kind), choices, actions, k);
    var tx := Worked(s.store, t, Entered(s, kind), choices);
    CommitsAlone(s, t, tx, k + |choices|, true);
    AddsAction(s, actions, Advance(t, true), t);
    actions := actions + [Advance(t, true)];
    tick := s.tick + k + |choices|;
  }

  lemma OneMore(store: Store, t: TxId, tx: Tx, choice: bool, rest: seq<bool>)
    requires tx.pc in {Locked, Verified, Consumed, UserUpdated, SetupsEnded, HandoffsEnded}
    requires
      var next := LockedStatement(View(store, tx.writes), t, tx, choice);
      next.pc != Aborted && next.kind == tx.kind && Works(store, t, next, rest)
    ensures
      var next := LockedStatement(View(store, tx.writes), t, tx, choice);
      && Works(store, t, tx, [choice] + rest)
      && Worked(store, t, tx, [choice] + rest) == Worked(store, t, next, rest)
  {
    hide LockedStatement, View;
    assert ([choice] + rest)[1..] == rest;
  }

  // ----- What they come to -----

  /** A login with the right password and no second factor opens a session from that password. */
  lemma LogsIn(s: State, t: TxId) returns (actions: seq<Action>, tick: nat)
    requires Undisturbed(s, t)
    ensures OnlyBy(actions, t) && tick > s.tick
    ensures
      After(s, actions).store
      == s.store.(sessions := s.store.sessions[t := SessionRow(ByPassword(s.store.password), true, tick)])
  {
    var locked := Entered(s, Login);
    OneMore(s.store, t, locked.(pc := Verified), true, []);
    OneMore(s.store, t, locked, true, [true]);
    assert [true] + [] == [true] && [true] + [true] == [true, true];
    actions, tick := GoesThrough(s, t, Login, [true, true]);
    SessionMerged(s.store, t, ByPassword(s.store.password), tick);
    hide After;
  }

  lemma SessionMerged(store: Store, t: TxId, origin: Origin, tick: nat)
    ensures
      Merge(store, t, OpenSession(NO_WRITES, t, origin), tick)
      == store.(sessions := store.sessions[t := SessionRow(origin, true, tick)])
  {
    var w := OpenSession(NO_WRITES, t, origin);
    assert store.sessions + w.sessions == store.sessions[t := SessionRow(origin, true, 0)];
    assert store.setups + w.setups == store.setups && store.handoffs + w.handoffs == store.handoffs;
    assert store.sessions[t := SessionRow(origin, true, 0)][t := SessionRow(origin, true, tick)]
        == store.sessions[t := SessionRow(origin, true, tick)];
  }

  /** With a second factor it ends the earlier setups and leaves one for this password. */
  lemma AsksSecondFactor(s: State, t: TxId) returns (actions: seq<Action>, tick: nat)
    requires Undisturbed(s, t)
    ensures OnlyBy(actions, t) && tick > s.tick
    ensures
      var after := After(s, actions).store;
      && after == s.store.(setups := after.setups)
      && after.setups.Keys == s.store.setups.Keys + {t} && after.setups[t] == SetupRow(s.store.password, true, tick)
      && forall k :: k in s.store.setups && k != t ==> after.setups[k] == s.store.setups[k].(active := false)
  {
    hide After, Merge, Works, Worked, EndSetups, View;
    var locked := Entered(s, Login);
    var verified := locked.(pc := Verified);
    NothingWritten(s.store);
    var w := EndSetups(s.store, NO_WRITES);
    var wrote := w.(setups := w.setups[t := SetupRow(s.store.password, true, 0)]);
    assert [true] + [] == [true] && [false] + [true] == [false, true] && [true] + [false, true] == [true, false, true];
    Ready(s.store, t, verified.(pc := Wrote, writes := wrote));
    OneMore(s.store, t, verified.(pc := SetupsEnded, writes := w), true, []);
    OneMore(s.store, t, verified, false, [true]);
    OneMore(s.store, t, locked, true, [false, true]);
    actions, tick := GoesThrough(s, t, Login, [true, false, true]);
    SetupMerged(s.store, t, s.store.password, tick);
  }

  lemma Ready(store: Store, t: TxId, tx: Tx)
    ensures Works(store, t, tx, []) && Worked(store, t, tx, []) == tx
  {
  }

  lemma SetupMerged(store: Store, t: TxId, password: nat, tick: nat)
    ensures
      var w := EndSetups(store, NO_WRITES);
      var after := Merge(store, t, w.(setups := w.setups[t := SetupRow(password, true, 0)]), tick);
      && after == store.(setups := after.setups)
      && after.setups.Keys == store.setups.Keys + {t} && after.setups[t] == SetupRow(password, true, tick)
      && forall k :: k in store.setups && k != t ==> after.setups[k] == store.setups[k].(active := false)
  {
    assert store.sessions + map[] == store.sessions && store.handoffs + map[] == store.handoffs;
  }

  lemma NothingWritten(store: Store)
    ensures View(store, NO_WRITES) == store
  {
    assert store.sessions + map[] == store.sessions;
    assert store.setups + map[] == store.setups && store.handoffs + map[] == store.handoffs;
  }

  /** Confirming an active setup consumes it and opens a session from it. */
  lemma ConfirmsSetup(s: State, t: TxId, k: TxId) returns (actions: seq<Action>, tick: nat)
    requires Undisturbed(s, t) && k in s.store.setups && s.store.setups[k].active && t !in s.store.setups
    ensures OnlyBy(actions, t) && tick > s.tick
    ensures
      After(s, actions).store
      == s.store.(setups := s.store.setups[k := s.store.setups[k].(active := false)],
                  sessions := s.store.sessions[t := SessionRow(BySetup(k), true, tick)])
  {
    var locked := Entered(s, Confirm(k));
    var verified := locked.(pc := Verified);
    NothingWritten(s.store);
    var used := map[k := s.store.setups[k].(active := false)];
    var consumed := verified.(pc := Consumed, writes := NO_WRITES.(setups := used));
    OneMore(s.store, t, consumed, true, []);
    OneMore(s.store, t, verified, true, [true]);
    OneMore(s.store, t, locked, true, [true, true]);
    assert [true] + [] == [true] && [true] + [true] == [true, true] && [true] + [true, true] == [true, true, true];
    actions, tick := GoesThrough(s, t, Confirm(k), [true, true, true]);
    hide After;
    assert s.store.setups + used == s.store.setups[k := s.store.setups[k].(active := false)];
    assert s.store.sessions + map[t := SessionRow(BySetup(k), true, 0)]
        == s.store.sessions[t := SessionRow(BySetup(k), true, 0)];
    assert s.store.handoffs + map[] == s.store.handoffs;
  }

  /** Exchanging an active handoff consumes it and opens a session from it. */
  lemma ExchangesHandoff(s: State, t: TxId, k: TxId) returns (actions: seq<Action>, tick: nat)
    requires Undisturbed(s, t) && k in s.store.handoffs && s.store.handoffs[k].active && t !in s.store.handoffs
    ensures OnlyBy(actions, t) && tick > s.tick
    ensures
      After(s, actions).store
      == s.store.(handoffs := s.store.handoffs[k := s.store.handoffs[k].(active := false)],
                  sessions := s.store.sessions[t := SessionRow(ByHandoff(k), true, tick)])
  {
    var locked := Entered(s, Exchange(k));
    NothingWritten(s.store);
    var used := map[k := s.store.handoffs[k].(active := false)];
    var consumed := locked.(pc := Consumed, writes := NO_WRITES.(handoffs := used));
    OneMore(s.store, t, consumed, true, []);
    OneMore(s.store, t, locked, true, [true]);
    assert [true] + [] == [true] && [true] + [true] == [true, true];
    actions, tick := GoesThrough(s, t, Exchange(k), [true, true]);
    hide After;
    assert s.store.handoffs + used == s.store.handoffs[k := s.store.handoffs[k].(active := false)];
    assert s.store.sessions + map[t := SessionRow(ByHandoff(k), true, 0)]
        == s.store.sessions[t := SessionRow(ByHandoff(k), true, 0)];
    assert s.store.setups + map[] == s.store.setups;
  }

  /** Every session, setup and handoff is there and inactive, and otherwise as it was. */
  predicate AllEnded(before: Store, after: Store) {
    && after.sessions.Keys == before.sessions.Keys && after.setups.Keys == before.setups.Keys
    && after.handoffs.Keys == before.handoffs.Keys
    && (forall k :: k in before.sessions ==> after.sessions[k] == before.sessions[k].(active := false))
    && (forall k :: k in before.setups ==> after.setups[k] == before.setups[k].(active := false))
    && (forall k :: k in before.handoffs ==> after.handoffs[k] == before.handoffs[k].(active := false))
  }

  /** A password reset changes the password and ends everything. */
  lemma ResetsPasswordAlone(s: State, t: TxId) returns (actions: seq<Action>)
    requires Undisturbed(s, t) && t !in s.store.sessions && t !in s.store.setups && t !in s.store.handoffs
    ensures OnlyBy(actions, t)
    ensures After(s, actions).store.password == s.store.password + 1 && AllEnded(s.store, After(s, actions).store)
  {
    hide After, Merge, Works, Worked, EndSetups, EndHandoffs, CloseSessions, View, Revoked, AllEnded;
    var tick;
    var locked := Entered(s, ResetPassword);
    var updated := locked.(pc := UserUpdated, writes := NO_WRITES.(password := Some(s.store.password + 1)));
    NothingWritten(s.store);
    RevokesAll(s.store, t, updated);
    assert [true] + [true, true, true] == [true, true, true, true];
    assert [true] + [true, true, true, true] == [true, true, true, true, true];
    OneMore(s.store, t, locked.(pc := Consumed), true, [true, true, true]);
    OneMore(s.store, t, locked, true, [true, true, true, true]);
    actions, tick := GoesThrough(s, t, ResetPassword, [true, true, true, true, true]);
    MergedAll(s.store, t, updated.writes, tick);
  }

  /** A reset of the second factor ends everything and keeps the password. */
  lemma ResetsTwoFactorAlone(s: State, t: TxId) returns (actions: seq<Action>)
    requires Undisturbed(s, t) && t !in s.store.sessions && t !in s.store.setups && t !in s.store.handoffs
    ensures OnlyBy(actions, t)
    ensures After(s, actions).store.password == s.store.password && AllEnded(s.store, After(s, actions).store)
  {
    hide After, Merge, Works, Worked, EndSetups, EndHandoffs, CloseSessions, View, Revoked, AllEnded;
    var tick;
    var updated := Entered(s, ResetTwoFactor).(pc := UserUpdated);
    RevokesAll(s.store, t, updated);
    OneMore(s.store, t, Entered(s, ResetTwoFactor), true, [true, true, true]);
    assert [true] + [true, true, true] == [true, true, true, true];
    actions, tick := GoesThrough(s, t, ResetTwoFactor, [true, true, true, true]);
    MergedAll(s.store, t, NO_WRITES, tick);
  }

  /** What the three statements of a recovery write. */
  function Revoked(store: Store, w: Writes): Writes {
    var w1 := EndSetups(View(store, w), w);
    var w2 := EndHandoffs(View(store, w1), w1);
    CloseSessions(View(store, w2), w2)
  }

  lemma RevokesAll(store: Store, t: TxId, tx: Tx)
    requires IsReset(tx.kind) && tx.pc == UserUpdated
    ensures Works(store, t, tx, [true, true, true])
    ensures Worked(store, t, tx, [true, true, true]) == tx.(pc := Wrote, writes := Revoked(store, tx.writes))
  {
    var w1 := EndSetups(View(store, tx.writes), tx.writes);
    var w2 := EndHandoffs(View(store, w1), w1);
    hide EndSetups, EndHandoffs, CloseSessions, View;
    OneMore(store, t, tx.(pc := HandoffsEnded, writes := w2), true, []);
    OneMore(store, t, tx.(pc := SetupsEnded, writes := w1), true, [true]);
    OneMore(store, t, tx, true, [true, true]);
    assert [true] + [] == [true] && [true] + [true] == [true, true] && [true] + [true, true] == [true, true, true];
  }

  lemma MergedAll(store: Store, t: TxId, w: Writes, tick: nat)
    requires w == NO_WRITES.(password := w.password)
    requires t !in store.sessions && t !in store.setups && t !in store.handoffs
    ensures
      var after := Merge(store, t, Revoked(store, w), tick);
      after.password == Coalesce(w.password, store.password) && AllEnded(store, after)
  {
    RevokedRows(store, w);
    hide Revoked;
  }

  /** The writes of a recovery are the inactive copies of all active rows. */
  lemma RevokedRows(store: Store, w: Writes)
    requires w == NO_WRITES.(password := w.password)
    ensures
      Revoked(store, w) == Writes(w.password,
        map k | k in store.sessions && store.sessions[k].active :: store.sessions[k].(active := false),
        map k | k in store.setups && store.setups[k].active :: store.setups[k].(active := false),
        map k | k in store.handoffs && store.handoffs[k].active :: store.handoffs[k].(active := false))
  {
    var w1 := EndSetups(View(store, w), w);
    assert store.setups + map[] == store.setups;
    assert store.handoffs + map[] == store.handoffs && store.sessions + map[] == store.sessions;
  }

  /** A callback leaves a handoff. */
  lemma HandsOff(s: State, t: TxId) returns (actions: seq<Action>)
    requires Undisturbed(s, t)
    ensures OnlyBy(actions, t)
    ensures After(s, actions).store == s.store.(handoffs := s.store.handoffs[t := HandoffRow(true, s.tick + 2)])
  {
    hide After;
    BeginsAlone(s, t, Callback);
    actions := [Begin(t, Callback)];
    AddsAction(s, actions, Advance(t, true), t);
    AddsAction(s, actions + [Advance(t, true)], Advance(t, true), t);
    actions := actions + [Advance(t, true)] + [Advance(t, true)];
    CallbackCommits(s, t);
  }

  lemma CallbackCommits(s: State, t: TxId)
    requires Undisturbed(s, t)
    ensures
      var begun := Alone(s, t, Tx(Callback, Begun, 0, 0, NO_WRITES), None, 1);
      Apply(Apply(begun, Advance(t, true)), Advance(t, true)).store
      == s.store.(handoffs := s.store.handoffs[t := HandoffRow(true, s.tick + 2)])
  {
    assert s.store.handoffs + map[t := HandoffRow(true, 0)] == s.store.handoffs[t := HandoffRow(true, 0)];
    assert s.store.handoffs[t := HandoffRow(true, 0)][t := HandoffRow(true, s.tick + 2)]
        == s.store.handoffs[t := HandoffRow(true, s.tick + 2)];
    assert s.store.sessions + map[] == s.store.sessions && s.store.setups + map[] == s.store.setups;
  }
}
