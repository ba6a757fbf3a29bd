/**
  The TLS certificate loader's cache under concurrent reloads and file changes. A value read from a
  file is recorded by the version it came from; the loader itself only compares stamps.
 */
module TlsCache {
  import opened Base

  datatype Stamp = Stamp(modTime: int, size: int)

  // One state of a file since the start.
  datatype Version = Missing | Present(stamp: Stamp, text: string)

  // The cached pair, and the versions whose stamps were stored with it.
  datatype Entry = Entry(cert: nat, key: nat, certStat: nat, keyStat: nat)

  // The last version of each history is the file as it is now.
  datatype World = World(certs: seq<Version>, keys: seq<Version>, cached: Option<Entry>)

  // Whether certificate and key text form a pair.
  type Matching = (string, string) -> bool

  // A call that ends well saw an unchanged cache or stored a new pair; `entry` is that pair.
  datatype Outcome = Unchanged(entry: Entry) | Stored(entry: Entry)

  predicate At(history: seq<Version>, i: nat) {
    i < |history| && history[i].Present?
  }

  /** The pair matches, and neither text is older than the stamp stored for it. */
  predicate EntryOk(w: World, matching: Matching, e: Entry) {
    && At(w.certs, e.certStat) && At(w.certs, e.cert) && e.certStat <= e.cert
    && At(w.keys, e.keyStat) && At(w.keys, e.key) && e.keyStat <= e.key
    && matching(w.certs[e.cert].text, w.keys[e.key].text)
  }

  predicate CacheOk(w: World, matching: Matching) {
    w.cached.Some? ==> EntryOk(w, matching, w.cached.value)
  }

  /** The test under the read lock: the stored stamps are those of versions `c` and `k`. */
  predicate SameStamps(w: World, e: Entry, c: nat, k: nat)
    requires At(w.certs, e.certStat) && At(w.keys, e.keyStat) && At(w.certs, c) && At(w.keys, k)
  {
    w.certs[e.certStat].stamp == w.certs[c].stamp && w.keys[e.keyStat].stamp == w.keys[k].stamp
  }

  predicate NoRepeat(history: seq<Version>) {
    forall i, j :: 0 <= i < j < |history| && history[i].Present? && history[j].Present?
      ==> history[i].stamp != history[j].stamp
  }

  /** An unchanged stamp vouches for the cached text exactly when no stamp of the file repeats. */
  lemma StampsVouch(certs: seq<Version>)
    ensures NoRepeat(certs) <==>
      forall stat: nat, text: nat, c: nat {:trigger At(certs, stat), At(certs, text), At(certs, c)} ::
        (At(certs, stat) && At(certs, text) && At(certs, c) && stat <= text && certs[stat].stamp == certs[c].stamp)
          ==> c <= text
  {
    if i, j :| 0 <= i < j < |certs| && certs[i].Present? && certs[j].Present? && certs[i].stamp == certs[j].stamp {
      assert At(certs, i) && At(certs, j);
    }
  }

  // ----- Calls as threads -----

  // Versions seen by stat (c, k) and by reading (rc, rk).
  datatype Pc =
    | Begun
    | CertSeen(c: nat)
    | BothSeen(c: nat, k: nat)
    | Reading(c: nat, k: nat)
    | CertRead(c: nat, k: nat, rc: nat)
    | PairRead(c: nat, k: nat, rc: nat, rk: nat)
    | Validated(c: nat, k: nat, rc: nat, rk: nat)
    | Ended(c: nat, k: nat, outcome: Outcome)
    | Gone

  // `initial` calls load without comparing; `cert` and `key` are the file versions when the call began.
  datatype Thread = Thread(initial: bool, cert: nat, key: nat, pc: Pc)

  datatype State = State(w: World, threads: map<nat, Thread>)

  // `ok` is false when the operating system or the validation refuses.
  datatype Action =
    | ChangeCert(version: Version)
    | ChangeKey(version: Version)
    | Call(thread: nat, initial: bool)
    | Advance(thread: nat, ok: bool)

  function Current(history: seq<Version>): nat
    requires |history| > 0
  {
    |history| - 1
  }

  predicate Readable(history: seq<Version>, ok: bool)
    requires |history| > 0
  {
    ok && history[Current(history)].Present?
  }

  predicate InBounds(w: World, pc: Pc) {
    && |w.certs| > 0 && |w.keys| > 0
    && (w.cached.Some? ==> At(w.certs, w.cached.value.certStat) && At(w.keys, w.cached.value.keyStat))
    && match pc
       case BothSeen(c, k) => At(w.certs, c) && At(w.keys, k)
       case PairRead(_, _, rc, rk) => At(w.certs, rc) && At(w.keys, rk)
       case _ => true
  }

  /** The next step of ReloadIfChanged or loadInitial. */
  function NextPc(w: World, matching: Matching, initial: bool, pc: Pc, ok: bool): Pc
    requires InBounds(w, pc)
  {
    match pc
    case Begun => if Readable(w.certs, ok) then CertSeen(Current(w.certs)) else Gone
    case CertSeen(c) => if Readable(w.keys, ok) then BothSeen(c, Current(w.keys)) else Gone
    case BothSeen(c, k) =>
      if !initial && w.cached.Some? && SameStamps(w, w.cached.value, c, k) then Ended(c, k, Unchanged(w.cached.value))
      else Reading(c, k)
    case Reading(c, k) => if Readable(w.certs, ok) then CertRead(c, k, Current(w.certs)) else Gone
    case CertRead(c, k, rc) => if Readable(w.keys, ok) then PairRead(c, k, rc, Current(w.keys)) else Gone
    case PairRead(c, k, rc, rk) =>
      if ok && matching(w.certs[rc].text, w.keys[rk].text) then Validated(c, k, rc, rk) else Gone
    case Validated(c, k, rc, rk) => Ended(c, k, Stored(Entry(rc, rk, c, k)))
    case _ => pc
  }

  /** The files are read again exactly when nothing is cached or a time or size of either file differs. */
  lemma ReadsOnlyChanges(w: World, matching: Matching, c: nat, k: nat, ok: bool)
    requires InBounds(w, BothSeen(c, k))
    ensures
      NextPc(w, matching, false, BothSeen(c, k), ok)
      == match w.cached
         case None => Reading(c, k)
         case Some(e) =>
           var (oldCert, oldKey) := (w.certs[e.certStat].stamp, w.keys[e.keyStat].stamp);
           var (cert, key) := (w.certs[c].stamp, w.keys[k].stamp);
           if oldCert.modTime != cert.modTime || oldKey.modTime != key.modTime
              || oldCert.size != cert.size || oldKey.size != key.size
           then Reading(c, k)
           else Ended(c, k, Unchanged(e))
    ensures NextPc(w, matching, true, BothSeen(c, k), ok) == Reading(c, k)
  {
  }

  predicate ThreadOk(w: World, matching: Matching, th: Thread) {
    && th.cert < |w.certs| && th.key < |w.keys|
    && match th.pc
       case CertSeen(c) => At(w.certs, c) && th.cert <= c
       case BothSeen(c, k) => At(w.certs, c) && At(w.keys, k) && th.cert <= c && th.key <= k
       case Reading(c, k) => At(w.certs, c) && At(w.keys, k) && th.cert <= c && th.key <= k
       case CertRead(c, k, rc) =>
         At(w.certs, c) && At(w.keys, k) && th.cert <= c && th.key <= k && At(w.certs, rc) && c <= rc
       case PairRead(c, k, rc, rk) => EntryOk(w, (x, y) => true, Entry(rc, rk, c, k)) && th.cert <= c && th.key <= k
       case Validated(c, k, rc, rk) => EntryOk(w, matching, Entry(rc, rk, c, k)) && th.cert <= c && th.key <= k
       case Ended(c, k, Unchanged(e)) =>
         EntryOk(w, matching, e) && At(w.certs, c) && At(w.keys, k) && SameStamps(w, e, c, k)
         && th.cert <= c && th.key <= k
       case Ended(c, k, Stored(e)) =>
         EntryOk(w, matching, e) && e.certStat == c && e.keyStat == k && th.cert <= c && th.key <= k
       case _ => true
  }

  ghost predicate Inv(s: State, matching: Matching) {
    && |s.w.certs| > 0 && |s.w.keys| > 0 && CacheOk(s.w, matching)
    && forall t :: t in s.threads ==> ThreadOk(s.w, matching, s.threads[t])
  }

  function Apply(s: State, matching: Matching, a: Action): State {
    match a
    case ChangeCert(v) => s.(w := s.w.(certs := s.w.certs + [v]))
    case ChangeKey(v) => s.(w := s.w.(keys := s.w.keys + [v]))
    case Call(t, initial) =>
      if t in s.threads || |s.w.certs| == 0 || |s.w.keys| == 0 then s
      else s.(threads := s.threads[t := Thread(initial, Current(s.w.certs), Current(s.w.keys), Begun)])
    case Advance(t, ok) =>
      if t !in s.threads || !InBounds(s.w, s.threads[t].pc) then s
      else
        var th := s.threads[t];
        var next := NextPc(s.w, matching, th.initial, th.pc, ok);
        // The write under the lock.
        var w := if th.pc.Validated? then s.w.(cached := Some(Entry(th.pc.rc, th.pc.rk, th.pc.c, th.pc.k))) else s.w;
        State(w, s.threads[t := th.(pc := next)])
  }

  function Run(start: State, matching: Matching, actions: seq<Action>, i: nat): State
    requires i <= |actions|
  {
    if i == 0 then start else Apply(Run(start, matching, actions, i - 1), matching, actions[i - 1])
  }

  /** Histories only grow; what holds of old versions goes on holding. */
  predicate Grows(a: World, b: World) {
    a.certs <= b.certs && a.keys <= b.keys
  }

  lemma ThreadOkLater(a: World, b: World, matching: Matching, th: Thread)
    requires ThreadOk(a, matching, th) && Grows(a, b)
    ensures ThreadOk(b, matching, th)
  {
  }

  /** A call's own next step keeps its part of the invariant. */
  lemma NextOk(w: World, matching: Matching, th: Thread, ok: bool)
    requires InBounds(w, th.pc) && CacheOk(w, matching) && ThreadOk(w, matching, th)
    ensures ThreadOk(w, matching, th.(pc := NextPc(w, matching, th.initial, th.pc, ok)))
  {
  }

  lemma ApplyKeeps(s: State, matching: Matching, a: Action)
    requires Inv(s, matching)
    ensures Inv(Apply(s, matching, a), matching) && Grows(s.w, Apply(s, matching, a).w)
  {
    var n := Apply(s, matching, a);
    assert Grows(s.w, n.w) && CacheOk(n.w, matching);
    forall t | t in n.threads ensures ThreadOk(n.w, matching, n.threads[t]) {
      if t in s.threads && n.threads[t] == s.threads[t] {
        ThreadOkLater(s.w, n.w, matching, s.threads[t]);
      } else if t in s.threads {
        var th := s.threads[t];
        NextOk(s.w, matching, th, a.ok);
        ThreadOkLater(s.w, n.w, matching, th.(pc := NextPc(s.w, matching, th.initial, th.pc, a.ok)));
      }
      hide ThreadOk, NextPc, EntryOk;
    }
  }

  lemma {:induction false} RunKeeps(start: State, matching: Matching, actions: seq<Action>, i: nat)
    requires i <= |actions| && Inv(start, matching)
    ensures Inv(Run(start, matching, actions, i), matching)
  {
    if i > 0 {
      RunKeeps(start, matching, actions, i - 1);
      hide Inv, Apply;
      ApplyKeeps(Run(start, matching, actions, i - 1), matching, actions[i - 1]);
    }
  }

  /**
    Under any interleaving, as long as no stamp repeats: a call that ends well saw or stored a matching
    pair no older than what its stat calls saw, hence no older than the files when it began.
   */
  lemma ReloadIsFresh(start: State, matching: Matching, actions: seq<Action>, i: nat, t: nat)
    requires i <= |actions| && Inv(start, matching)
    requires
      var s := Run(start, matching, actions, i);
      t in s.threads && s.threads[t].pc.Ended? && NoRepeat(s.w.certs) && NoRepeat(s.w.keys)
    ensures
      var s := Run(start, matching, actions, i);
      var th := s.threads[t];
      && th.cert <= th.pc.c <= th.pc.outcome.entry.cert && th.key <= th.pc.k <= th.pc.outcome.entry.key
      && EntryOk(s.w, matching, th.pc.outcome.entry)
  {
    RunKeeps(start, matching, actions, i);
    var s := Run(start, matching, actions, i);
    hide Run;
    assert ThreadOk(s.w, matching, s.threads[t]);
    StampsVouch(s.w.certs);
    StampsVouch(s.w.keys);
  }

  /** Only a call that validated a new pair writes the cache, so one that fails leaves the pair as it was. */
  lemma OnlyValidatedStores(s: State, matching: Matching, a: Action)
    requires Apply(s, matching, a).w.cached != s.w.cached
    ensures a.Advance? && a.thread in s.threads && s.threads[a.thread].pc.Validated?
    ensures Apply(s, matching, a).threads[a.thread].pc.Ended?
    ensures Apply(s, matching, a).w.cached == Some(Apply(s, matching, a).threads[a.thread].pc.outcome.entry)
  {
  }

  /** A certificate once loaded is never dropped. */
  lemma {:induction false} NeverDropped(start: State, matching: Matching, actions: seq<Action>, i: nat, k: nat)
    requires i <= k <= |actions| && Run(start, matching, actions, i).w.cached.Some?
    ensures Run(start, matching, actions, k).w.cached.Some?
    decreases k
  {
    if i < k {
      NeverDropped(start, matching, actions, i, k - 1);
    }
  }

  // ----- What is served after a reload -----

  /** The cached pair is no older than versions `c` and `k`. */
  predicate FreshFor(w: World, c: nat, k: nat) {
    w.cached.Some? && c <= w.cached.value.cert && k <= w.cached.value.key
  }

  /** The call has read an older file and may still store what it read. */
  ghost predicate Stale(w: World, matching: Matching, pc: Pc, c: nat, k: nat) {
    match pc
    case CertRead(_, _, rc) => rc < c && At(w.certs, rc) && exists key :: matching(w.certs[rc].text, key)
    case PairRead(_, _, rc, rk) =>
      (rc < c || rk < k) && At(w.certs, rc) && At(w.keys, rk) && matching(w.certs[rc].text, w.keys[rk].text)
    case Validated(_, _, rc, rk) => rc < c || rk < k
    case _ => false
  }

  ghost predicate NoneStale(s: State, matching: Matching, c: nat, k: nat) {
    forall t :: t in s.threads ==> !Stale(s.w, matching, s.threads[t].pc, c, k)
  }

  /** A call's next step does not make it stale, and what it stores then is fresh. */
  lemma NextNotStale(w: World, matching: Matching, th: Thread, ok: bool, c: nat, k: nat)
    requires InBounds(w, th.pc) && ThreadOk(w, matching, th) && c < |w.certs| && k < |w.keys|
    requires !Stale(w, matching, th.pc, c, k)
    ensures !Stale(w, matching, NextPc(w, matching, th.initial, th.pc, ok), c, k)
    ensures th.pc.Validated? ==> c <= th.pc.rc && k <= th.pc.rk
  {
  }

  lemma StaleEarlier(a: World, b: World, matching: Matching, th: Thread, c: nat, k: nat)
    requires ThreadOk(a, matching, th) && Grows(a, b)
    ensures Stale(a, matching, th.pc, c, k) <==> Stale(b, matching, th.pc, c, k)
  {
  }

  lemma ApplyStaysFresh(s: State, matching: Matching, a: Action, c: nat, k: nat)
    requires Inv(s, matching) && c < |s.w.certs| && k < |s.w.keys| && FreshFor(s.w, c, k)
    requires NoneStale(s, matching, c, k)
    ensures
      var n := Apply(s, matching, a);
      c < |n.w.certs| && k < |n.w.keys| && FreshFor(n.w, c, k) && NoneStale(n, matching, c, k)
  {
    var n := Apply(s, matching, a);
    assert Grows(s.w, n.w);
    if a.Advance? && a.thread in s.threads {
      NextNotStale(s.w, matching, s.threads[a.thread], a.ok, c, k);
    }
    hide Stale;
    forall t | t in n.threads ensures !Stale(n.w, matching, n.threads[t].pc, c, k) {
      if t in s.threads && n.threads[t] == s.threads[t] {
        StaleEarlier(s.w, n.w, matching, s.threads[t], c, k);
      } else if t in s.threads {
        var th := s.threads[t];
        var next := th.(pc := NextPc(s.w, matching, th.initial, th.pc, a.ok));
        NextOk(s.w, matching, th, a.ok);
        StaleEarlier(s.w, n.w, matching, next, c, k);
      } else {
        BegunNotStale(n.w, matching, c, k);
      }
    }
  }

  lemma BegunNotStale(w: World, matching: Matching, c: nat, k: nat)
    ensures !Stale(w, matching, Begun, c, k)
  {
  }

  lemma {:induction false} RunStaysFresh(s: State, matching: Matching, actions: seq<Action>, i: nat, c: nat, k: nat)
    requires i <= |actions| && Inv(s, matching) && c < |s.w.certs| && k < |s.w.keys|
    requires FreshFor(s.w, c, k) && NoneStale(s, matching, c, k)
    ensures
      var n := Run(s, matching, actions, i);
      c < |n.w.certs| && k < |n.w.keys| && FreshFor(n.w, c, k) && NoneStale(n, matching, c, k)
  {
    if i > 0 {
      RunStaysFresh(s, matching, actions, i - 1, c, k);
      RunKeeps(s, matching, actions, i - 1);
      hide Apply, Inv, NoneStale;
      ApplyStaysFresh(Run(s, matching, actions, i - 1), matching, actions[i - 1], c, k);
    }
  }

  /** A validated call stores what it read. */
  lemma StoresStale(s: State, matching: Matching, t: nat, c: nat, k: nat)
    requires Inv(s, matching) && t in s.threads && s.threads[t].pc.Validated?
    requires Stale(s.w, matching, s.threads[t].pc, c, k)
    ensures !FreshFor(Apply(s, matching, Advance(t, true)).w, c, k)
  {
  }

  /** A call that read a matching pair validates it. */
  lemma ValidatesStale(s: State, matching: Matching, t: nat, c: nat, k: nat)
    requires Inv(s, matching) && t in s.threads && s.threads[t].pc.PairRead?
    requires Stale(s.w, matching, s.threads[t].pc, c, k)
    ensures
      var n := Apply(s, matching, Advance(t, true));
      t in n.threads && n.threads[t].pc.Validated? && Stale(n.w, matching, n.threads[t].pc, c, k)
  {
  }

  /** A call that read an old certificate reads the key that then comes to match it. */
  lemma ReadsStale(s: State, matching: Matching, t: nat, c: nat, k: nat) returns (version: Version)
    requires Inv(s, matching) && t in s.threads && s.threads[t].pc.CertRead?
    requires Stale(s.w, matching, s.threads[t].pc, c, k)
    ensures
      var n := Apply(Apply(s, matching, ChangeKey(version)), matching, Advance(t, true));
      t in n.threads && n.threads[t].pc.PairRead? && Stale(n.w, matching, n.threads[t].pc, c, k)
  {
    var key :| matching(s.w.certs[s.threads[t].pc.rc].text, key);
    version := Present(Stamp(0, 0), key);
  }

  lemma RunFirst(s: State, matching: Matching, a: Action, rest: seq<Action>, i: nat)
    requires i <= |rest|
    ensures Run(s, matching, [a] + rest, i + 1) == Run(Apply(s, matching, a), matching, rest, i)
  {
    if i > 0 {
      RunFirst(s, matching, a, rest, i - 1);
    }
  }

  lemma StaleGoesBack(s: State, matching: Matching, t: nat, c: nat, k: nat) returns (actions: seq<Action>)
    requires Inv(s, matching) && t in s.threads && Stale(s.w, matching, s.threads[t].pc, c, k)
    ensures !FreshFor(Run(s, matching, actions, |actions|).w, c, k)
    decreases if s.threads[t].pc.Validated? then 0 else if s.threads[t].pc.PairRead? then 1 else 2
  {
    var go := Advance(t, true);
    if s.threads[t].pc.Validated? {
      StoresStale(s, matching, t, c, k);
      actions := [go];
      assert Run(s, matching, actions, 1) == Apply(Run(s, matching, actions, 0), matching, go);
    } else if s.threads[t].pc.PairRead? {
      ValidatesStale(s, matching, t, c, k);
      ApplyKeeps(s, matching, go);
      var rest := StaleGoesBack(Apply(s, matching, go), matching, t, c, k);
      actions := [go] + rest;
      RunFirst(s, matching, go, rest, |rest|);
    } else {
      var version := ReadsStale(s, matching, t, c, k);
      var change := ChangeKey(version);
      var n := Apply(s, matching, change);
      ApplyKeeps(s, matching, change);
      ApplyKeeps(n, matching, go);
      var rest := StaleGoesBack(Apply(n, matching, go), matching, t, c, k);
      actions := [change] + ([go] + rest);
      RunFirst(n, matching, go, rest, |rest|);
      RunFirst(s, matching, change, [go] + rest, |rest| + 1);
    }
  }

  /**
    After a reload has ended with a pair as new as its stat saw, what `current` gives at any later moment of any
    run is as new if and only if no other call had by then read an older file that it can still store.
   */
  lemma ServedIsFresh(s: State, matching: Matching, c: nat, k: nat)
    requires Inv(s, matching) && c < |s.w.certs| && k < |s.w.keys| && FreshFor(s.w, c, k)
    ensures NoneStale(s, matching, c, k) <==>
      forall actions {:trigger Run(s, matching, actions, |actions|)} ::
        FreshFor(Run(s, matching, actions, |actions|).w, c, k)
  {
    hide Inv, Stale, Run, FreshFor;
    if NoneStale(s, matching, c, k) {
      forall actions: seq<Action> ensures FreshFor(Run(s, matching, actions, |actions|).w, c, k) {
        RunStaysFresh(s, matching, actions, |actions|, c, k);
      }
    } else {
      var t :| t in s.threads && Stale(s.w, matching, s.threads[t].pc, c, k);
      var actions := StaleGoesBack(s, matching, t, c, k);
    }
  }

  /** The actions of a first load by thread `t`, up to its validation. */
  function LoadActions(t: nat): seq<Action> {
    [Call(t, false), Advance(t, true), Advance(t, true), Advance(t, true), Advance(t, true), Advance(t, true),
      Advance(t, true)]
  }

  lemma LoadStep(s: State, matching: Matching, t: nat, pc: Pc, i: nat)
    requires i < 6 && |s.w.certs| > 0 && |s.w.keys| > 0 && s.w.cached == None && InBounds(s.w, pc) && !pc.Validated?
    requires
      var c, k := Current(s.w.certs), Current(s.w.keys);
      Run(s, matching, LoadActions(t), i + 1) == State(s.w, s.threads[t := Thread(false, c, k, pc)])
    ensures
      var c, k := Current(s.w.certs), Current(s.w.keys);
      Run(s, matching, LoadActions(t), i + 2)
      == State(s.w, s.threads[t := Thread(false, c, k, NextPc(s.w, matching, false, pc, true))])
  {
    hide NextPc;
    var c, k := Current(s.w.certs), Current(s.w.keys);
    var th := Thread(false, c, k, pc);
    assert LoadActions(t)[i + 1] == Advance(t, true);
    assert s.threads[t := th][t := th.(pc := NextPc(s.w, matching, false, pc, true))]
        == s.threads[t := th.(pc := NextPc(s.w, matching, false, pc, true))];
  }

  lemma LoadBegins(s: State, matching: Matching, t: nat)
    requires |s.w.certs| > 0 && |s.w.keys| > 0 && t !in s.threads
    ensures
      var begun := Thread(false, Current(s.w.certs), Current(s.w.keys), Begun);
      Run(s, matching, LoadActions(t), 1) == State(s.w, s.threads[t := begun])
  {
    assert Run(s, matching, LoadActions(t), 0) == s;
  }

  /** Where a first load is after its call and `i` steps, seeing versions `c` and `k`. */
  function LoadPc(c: nat, k: nat, i: nat): Pc
    requires i <= 6
  {
    match i
    case 0 => Begun
    case 1 => CertSeen(c)
    case 2 => BothSeen(c, k)
    case 3 => Reading(c, k)
    case 4 => CertRead(c, k, c)
    case 5 => PairRead(c, k, c, k)
    case _ => Validated(c, k, c, k)
  }

  lemma LoadPcNext(w: World, matching: Matching, i: nat)
    requires i < 6 && |w.certs| > 0 && |w.keys| > 0 && w.cached == None
    requires Readable(w.certs, true) && Readable(w.keys, true)
    requires matching(w.certs[Current(w.certs)].text, w.keys[Current(w.keys)].text)
    ensures
      var c, k := Current(w.certs), Current(w.keys);
      && InBounds(w, LoadPc(c, k, i)) && !LoadPc(c, k, i).Validated?
      && NextPc(w, matching, false, LoadPc(c, k, i), true) == LoadPc(c, k, i + 1)
  {
  }

  lemma {:induction false} Loads(s: State, matching: Matching, t: nat, i: nat)
    requires i <= 6 && |s.w.certs| > 0 && |s.w.keys| > 0 && s.w.cached == None && t !in s.threads
    requires Readable(s.w.certs, true) && Readable(s.w.keys, true)
    requires matching(s.w.certs[Current(s.w.certs)].text, s.w.keys[Current(s.w.keys)].text)
    ensures
      var c, k := Current(s.w.certs), Current(s.w.keys);
      Run(s, matching, LoadActions(t), i + 1) == State(s.w, s.threads[t := Thread(false, c, k, LoadPc(c, k, i))])
  {
    hide Run, Apply, LoadActions, NextPc, InBounds, Readable;
    if i == 0 {
      LoadBegins(s, matching, t);
    } else {
      Loads(s, matching, t, i - 1);
      LoadPcNext(s.w, matching, i - 1);
      LoadStep(s, matching, t, LoadPc(Current(s.w.certs), Current(s.w.keys), i - 1), i - 1);
    }
  }

  lemma {:induction false} RunOn(s: State, matching: Matching, a: seq<Action>, b: seq<Action>, i: nat)
    requires i <= |b|
    ensures Run(s, matching, a + b, |a| + i) == Run(Run(s, matching, a, |a|), matching, b, i)
  {
    if i > 0 {
      RunOn(s, matching, a, b, i - 1);
      assert (a + b)[|a| + i - 1] == b[i - 1];
    } else {
      SameStart(s, matching, a, b, |a|);
    }
  }

  lemma {:induction false} SameStart(s: State, matching: Matching, a: seq<Action>, b: seq<Action>, i: nat)
    requires i <= |a|
    ensures Run(s, matching, a + b, i) == Run(s, matching, a, i)
  {
    if i > 0 {
      SameStart(s, matching, a, b, i - 1);
      assert (a + b)[i - 1] == a[i - 1];
    }
  }

  /** Nothing loaded, nobody reading, one version of each file. */
  function Start(cert: Version, key: Version): State {
    State(World([cert], [key], None), map[])
  }

  /** One call loads the old pair up to its validation; the certificate changes; another call loads the new pair. */
  function Overtaken(renewed: Version): seq<Action> {
    LoadActions(0) + ([ChangeCert(renewed)] + LoadActions(1))
  }

  lemma OvertakenState(matching: Matching, cert: Version, renewed: Version, key: Version)
    requires cert.Present? && renewed.Present? && key.Present? && matching(cert.text, key.text)
    requires matching(renewed.text, key.text)
    ensures
      Run(Start(cert, key), matching, Overtaken(renewed), |Overtaken(renewed)|)
      == State(World([cert, renewed], [key], None),
               map[0 := Thread(false, 0, 0, Validated(0, 0, 0, 0)), 1 := Thread(false, 1, 0, Validated(1, 0, 1, 0))])
  {
    hide Run, LoadActions, NextPc, InBounds;
    LoadLength(0);
    LoadLength(1);
    var s := Start(cert, key);
    Loads(s, matching, 0, 6);
    var loaded := Run(s, matching, LoadActions(0), 7);
    var changed := Apply(loaded, matching, ChangeCert(renewed));
    assert changed.w == World([cert, renewed], [key], None);
    Loads(changed, matching, 1, 6);
    var rest := [ChangeCert(renewed)] + LoadActions(1);
    RunFirst(loaded, matching, ChangeCert(renewed), LoadActions(1), 7);
    RunOn(s, matching, LoadActions(0), rest, |rest|);
    assert Overtaken(renewed) == LoadActions(0) + rest;
  }

  lemma LoadLength(t: nat)
    ensures |LoadActions(t)| == 7
  {
  }

  /** Both calls store: the later one first. */
  lemma StoreOneAfterOther(matching: Matching, cert: Version, renewed: Version, key: Version)
    requires cert.Present? && renewed.Present? && key.Present?
    ensures
      var w := World([cert, renewed], [key], None);
      var slow, fast := Thread(false, 0, 0, Validated(0, 0, 0, 0)), Thread(false, 1, 0, Validated(1, 0, 1, 0));
      var b := [Advance(1, true), Advance(0, true)];
      var s := State(w, map[0 := slow, 1 := fast]);
      && Run(s, matching, b, 1) == State(w.(cached := Some(Entry(1, 0, 1, 0))),
                                         s.threads[1 := fast.(pc := Ended(1, 0, Stored(Entry(1, 0, 1, 0))))])
      && Run(s, matching, b, 2).w.cached == Some(Entry(0, 0, 0, 0))
  {
    var slow, fast := Thread(false, 0, 0, Validated(0, 0, 0, 0)), Thread(false, 1, 0, Validated(1, 0, 1, 0));
    var s := State(World([cert, renewed], [key], None), map[0 := slow, 1 := fast]);
    var b := [Advance(1, true), Advance(0, true)];
    assert Run(s, matching, b, 0) == s;
    assert Run(s, matching, b, 1) == Apply(s, matching, b[0]);
    assert Run(s, matching, b, 2) == Apply(Run(s, matching, b, 1), matching, b[1]);
  }

  /**
    It happens: the call that loaded the renewed certificate ends well, and then the overtaken one puts the
    old pair back.
   */
  lemma OlderPairServed(matching: Matching, cert: Version, renewed: Version, key: Version)
    returns (actions: seq<Action>)
    requires cert.Present? && renewed.Present? && key.Present? && matching(cert.text, key.text)
    requires matching(renewed.text, key.text)
    ensures |actions| > 0
    ensures
      var before := Run(Start(cert, key), matching, actions, |actions| - 1);
      var after := Run(Start(cert, key), matching, actions, |actions|);
      && 1 in before.threads && before.threads[1].pc == Ended(1, 0, Stored(Entry(1, 0, 1, 0)))
         && FreshFor(before.w, 1, 0)
      && after.w.cached == Some(Entry(0, 0, 0, 0))
  {
    hide Run, Overtaken;
    var s, a, b := Start(cert, key), Overtaken(renewed), [Advance(1, true), Advance(0, true)];
    OvertakenState(matching, cert, renewed, key);
    actions := a + b;
    RunOn(s, matching, a, b, 1);
    RunOn(s, matching, a, b, 2);
    StoreOneAfterOther(matching, cert, renewed, key);
  }

  // ----- The loader -----

  /** What other calls and the writers of the files may do between two steps of a call. */
  predicate Interferes(a: World, b: World, matching: Matching) {
    Grows(a, b) && (b.cached == a.cached || (b.cached.Some? && EntryOk(b, matching, b.cached.value)))
  }

  /** From `a` to `b` both files were there all the time, and any two of their texts matched. */
  predicate Steady(a: World, b: World, matching: Matching) {
    && (forall i :: 0 <= i < |b.certs| && |a.certs| <= i + 1 ==> b.certs[i].Present?)
    && (forall k :: 0 <= k < |b.keys| && |a.keys| <= k + 1 ==> b.keys[k].Present?)
    && (forall i, k :: 0 <= i < |b.certs| && |a.certs| <= i + 1 && 0 <= k < |b.keys| && |a.keys| <= k + 1 ==>
          matching(b.certs[i].text, b.keys[k].text))
  }

  lemma SteadyWithin(a: World, b: World, c: World, d: World, matching: Matching)
    requires Grows(a, b) && Grows(c, d) && Steady(a, d, matching)
    ensures Steady(b, c, matching)
  {
  }

  lemma InterferesOn(a: World, b: World, c: World, matching: Matching)
    requires Interferes(a, b, matching) && Interferes(b, c, matching)
    ensures Interferes(a, c, matching)
  {
  }

  /** With no stamp repeated, a pair whose stamps were found unchanged is as new as the files then were. */
  lemma Vouched(w: World, matching: Matching, e: Entry, c: nat, k: nat)
    requires EntryOk(w, matching, e) && At(w.certs, c) && At(w.keys, k) && SameStamps(w, e, c, k)
    requires NoRepeat(w.certs) && NoRepeat(w.keys)
    ensures c <= e.cert && k <= e.key
  {
    StampsVouch(w.certs);
    StampsVouch(w.keys);
  }

  class TLSCertificateLoader {
    const matching: Matching
    var w: World
    // Calls of the operating system that failed although the file was there, and pairs found out of date.
    ghost var faults: nat
    // How often the pair was read.
    ghost var loads: nat

    predicate Valid()
      reads this
    {
      |w.certs| > 0 && |w.keys| > 0 && CacheOk(w, matching)
    }

    constructor (matching: Matching, cert: Version, key: Version)
      ensures Valid() && this.matching == matching && w == World([cert], [key], None)
    {
      this.matching := matching;
      this.w := World([cert], [key], None);
      this.faults := 0;
      this.loads := 0;
    }

    /** Anything the environment may do, any number of times. */
    method Interfere()
      requires Valid()
      modifies this`w
      ensures Valid() && Interferes(old(w), w, matching)
    {
      var next: World := *;
      if Interferes(w, next, matching) {
        w := next;
      }
    }

    /** A failing call of the operating system, or the present version. */
    method Look(history: seq<Version>) returns (seen: Option<nat>)
      requires |history| > 0
      modifies this`faults
      ensures seen.Some? ==> seen.value == Current(history) && At(history, seen.value) && faults == old(faults)
      ensures faults >= old(faults)
      ensures seen.None? && history[|history| - 1].Present? ==> faults > old(faults)
    {
      if * {
        faults := faults + 1;
        return None;
      }
      if history[|history| - 1].Missing? {
        return None;
      }
      return Some(|history| - 1);
    }

    /** statTLSFiles. */
    method Stat() returns (seen: Option<(nat, nat)>)
      requires Valid()
      modifies this`w, this`faults
      ensures Valid() && Interferes(old(w), w, matching)
      ensures seen.Some? ==>
        && Current(old(w).certs) <= seen.value.0 && Current(old(w).keys) <= seen.value.1
        && At(w.certs, seen.value.0) && At(w.keys, seen.value.1)
      ensures faults >= old(faults) && (seen.Some? ==> faults == old(faults))
      ensures !seen.Some? && Steady(old(w), w, matching) ==> faults > old(faults)
    {
      var cert := Look(w.certs);
      if cert.None? {
        return None;
      }
      Interfere();
      var key := Look(w.keys);
      if key.None? {
        return None;
      }
      return Some((cert.value, key.value));
    }

    /** loadTLSCertificatePair. */
    method Load() returns (read: Option<(nat, nat)>)
      requires Valid()
      modifies this
      ensures Valid() && Interferes(old(w), w, matching)
      ensures read.Some? ==>
        && Current(old(w).certs) <= read.value.0 && Current(old(w).keys) <= read.value.1
        && At(w.certs, read.value.0) && At(w.keys, read.value.1)
        && matching(w.certs[read.value.0].text, w.keys[read.value.1].text)
      ensures faults >= old(faults) && (read.Some? ==> faults == old(faults))
      ensures !read.Some? && Steady(old(w), w, matching) ==> faults > old(faults)
      ensures loads == old(loads) + 1
    {
      loads := loads + 1;
      var cert := Look(w.certs);
      if cert.None? {
        return None;
      }
      Interfere();
      var key := Look(w.keys);
      if key.None? || !matching(w.certs[cert.value].text, w.keys[key.value].text) {
        return None;
      }
      return Some((cert.value, key.value));
    }

    /** Reads the pair anew and stores it with the stamps that stat saw. */
    method Renew(c: nat, k: nat) returns (ok: bool, entry: Entry)
      requires Valid() && At(w.certs, c) && At(w.keys, k)
      modifies this
      ensures Valid() && Interferes(old(w), w, matching)
      ensures ok ==> EntryOk(w, matching, entry) && entry.certStat == c && entry.keyStat == k && w.cached == Some(entry)
      ensures loads == old(loads) + 1
      ensures faults >= old(faults) && (ok ==> faults == old(faults))
      ensures !ok && Steady(old(w), w, matching) ==> faults > old(faults)
    {
      ok, entry := false, Entry(0, 0, 0, 0);
      Interfere();
      var read := Load();
      if read.None? {
        return;
      }
      Interfere();
      entry := Entry(read.value.0, read.value.1, c, k);
      w := w.(cached := Some(entry));
      ok := true;
    }

    /** ReloadIfChanged, or loadInitial when nothing is to be compared. */
    method Reload(initial: bool) returns (ok: bool, entry: Entry, c: nat, k: nat, ghost compared: World)
      requires Valid()
      modifies this
      ensures Valid() && Interferes(old(w), w, matching)
      ensures ok ==> Current(old(w).certs) <= c && Current(old(w).keys) <= k && At(w.certs, c) && At(w.keys, k)
      ensures ok ==> EntryOk(w, matching, entry) && SameStamps(w, entry, c, k)
      ensures ok && NoRepeat(w.certs) && NoRepeat(w.keys) ==> c <= entry.cert && k <= entry.key
      ensures ok ==> w.cached.Some?
      // The pair is read once, and not at all when the stamps found are those of what was cached when it compared.
      ensures Interferes(old(w), compared, matching) && Interferes(compared, w, matching)
      ensures loads <= old(loads) + 1 && (ok && initial ==> loads > old(loads))
      ensures ok ==> At(compared.certs, c) && At(compared.keys, k) && CacheOk(compared, matching)
      ensures ok && !initial ==>
        (loads == old(loads) <==> compared.cached.Some? && SameStamps(compared, compared.cached.value, c, k))
      ensures faults >= old(faults) && (ok ==> faults == old(faults))
      ensures !ok && Steady(old(w), w, matching) ==> faults > old(faults)
    {
      hide NoRepeat;
      ok, entry, c, k, compared := false, Entry(0, 0, 0, 0), 0, 0, w;
      var stat := Stat();
      if stat.None? {
        return;
      }
      c, k := stat.value.0, stat.value.1;
      Interfere();
      compared := w;
      if !initial && w.cached.Some? && SameStamps(w, w.cached.value, c, k) {
        ok, entry := true, w.cached.value;
      } else {
        ok, entry := Renew(c, k);
      }
      if ok && NoRepeat(w.certs) && NoRepeat(w.keys) {
        Vouched(w, matching, entry, c, k);
      }
    }

    /** GetCertificate: reloads, then serves whatever pair is cached by then if it still passes validation. */
    method GetCertificate()
      returns (served: Option<Entry>, ghost ok: bool, ghost entry: Entry, ghost c: nat, ghost k: nat,
               ghost compared: World)
      requires Valid()
      modifies this
      ensures Valid() && Interferes(old(w), w, matching)
      ensures served.Some? ==> served == w.cached && EntryOk(w, matching, served.value)
      // An old pair is served even when the reload fails; without one, a reload without failures finds one.
      ensures faults >= old(faults)
      ensures served.None? && old(w).cached.Some? ==> faults > old(faults)
      ensures served.None? && Steady(old(w), w, matching) ==> faults > old(faults)
      // Its own reload is as above: as fresh as the files at the start, and without a read when nothing changed.
      ensures ok ==> Current(old(w).certs) <= c && Current(old(w).keys) <= k && At(w.certs, c) && At(w.keys, k)
      ensures ok && NoRepeat(w.certs) && NoRepeat(w.keys) ==> c <= entry.cert && k <= entry.key
      ensures loads <= old(loads) + 1 && Interferes(old(w), compared, matching)
      ensures ok ==> At(compared.certs, c) && At(compared.keys, k) && CacheOk(compared, matching)
      ensures ok ==>
        (loads == old(loads) <==> compared.cached.Some? && SameStamps(compared, compared.cached.value, c, k))
    {
      var done, found, certSeen, keySeen, seen := Reload(false);
      ok, entry, c, k, compared := done, found, certSeen, keySeen, seen;
      ghost var reloaded := w;
      Interfere();
      if Steady(old(w), w, matching) {
        SteadyWithin(old(w), old(w), reloaded, w, matching);
      }
      served := w.cached;
      if * {
        faults := faults + 1;
        served := None;
      }
    }
  }
}
