/** The single-flight pool manager. Each step is one critical section of the
    manager's mutex, or one foreign call between two of them. */
module PoolManager {
  import opened Prelude
  import opened Keys

  type Handle = nat

  datatype Outcome = Failed | Got(db: Handle)

  /** One attempt to open a pool; its number is that of the request that makes it. */
  datatype Phase = Opening | Opened(ok: bool) | Done(outcome: Outcome)

  datatype Attempt = Attempt(key: string, db: Option<Handle>, tunnel: Option<Handle>, phase: Phase)

  /** Where an opened handle is. */
  datatype Place = HeldBy(p: nat) | InPool(key: string) | InTunnel(key: string) | Closing | Closed

  /** attempts are the poolOpening records; place, source and stale are history, not program state. */
  datatype State = State(
    closed: bool,
    pools: map<string, Handle>,
    tunnels: map<string, Handle>,
    opening: map<string, nat>,
    attempts: map<nat, Attempt>,
    waiting: map<nat, nat>,
    answers: map<nat, Outcome>,
    place: map<Handle, Place>,
    source: map<string, nat>,
    stale: set<nat>)

  datatype Step =
    | Ask(p: nat, key: string)              // first critical section of database
    | Dial(p: nat, h: Handle)               // the SSH tunnel
    | Open(p: nat, db: Option<Handle>, ok: bool)
    | Publish(p: nat)                       // second critical section
    | Wake(w: nat)                          // a waiter after ready is closed
    | Invalidate(id: string)
    | CloseAll
    | CloseHandle(h: Handle)

  function Start(): State {
    State(false, map[], map[], map[], map[], map[], map[], map[], map[], {})
  }

  /** Handles a Publish that fails has to close. */
  function Leftover(a: Attempt): set<Handle> {
    (if a.db.Some? then {a.db.value} else {}) + (if a.tunnel.Some? then {a.tunnel.value} else {})
  }

  ghost function Moved(place: map<Handle, Place>, hs: set<Handle>, to: Place): map<Handle, Place>
    decreases |hs|
  {
    if hs == {} then place
    else
      var h :| h in hs;
      Moved(place, hs - {h}, to)[h := to]
  }

  lemma {:induction false} MovedAt(place: map<Handle, Place>, hs: set<Handle>, to: Place)
    ensures forall h :: h in Moved(place, hs, to) <==> h in place || h in hs
    ensures forall h :: h in Moved(place, hs, to) ==> Moved(place, hs, to)[h] == if h in hs then to else place[h]
    decreases |hs|
  {
    if hs != {} {
      var h :| h in hs && Moved(place, hs, to) == Moved(place, hs - {h}, to)[h := to];
      MovedAt(place, hs - {h}, to);
    }
  }

  ghost predicate Enabled(s: State, step: Step) {
    match step
    case Ask(p, _) => p !in s.attempts && p !in s.waiting && p !in s.answers
    case Dial(p, h) => p in s.attempts && s.attempts[p].phase == Opening && s.attempts[p].tunnel == None && h !in s.place
    case Open(p, h, ok) =>
      && p in s.attempts && s.attempts[p].phase == Opening && (ok ==> h.Some?) && (h.Some? ==> h.value !in s.place)
    case Publish(p) => p in s.attempts && s.attempts[p].phase.Opened?
    case Wake(w) => w in s.waiting && w !in s.answers && s.waiting[w] in s.attempts && s.attempts[s.waiting[w]].phase.Done?
    case CloseHandle(h) => Lookup(s.place, h) == Some(Closing)
    case _ => true
  }

  function AskNext(s: State, p: nat, key: string): State {
    if s.closed then s.(answers := s.answers[p := Failed])
    else if key in s.pools then s.(answers := s.answers[p := Got(s.pools[key])])
    else if key in s.opening then s.(waiting := s.waiting[p := s.opening[key]])
    else s.(opening := s.opening[key := p], attempts := s.attempts[p := Attempt(key, None, None, Opening)])
  }

  /** A pool is published only if the manager is open and still expects this attempt. */
  predicate Publishes(s: State, p: nat)
    requires p in s.attempts
  {
    !s.closed && Lookup(s.opening, s.attempts[p].key) == Some(p) && s.attempts[p].phase == Opened(true) && s.attempts[p].db.Some?
  }

  ghost function PublishNext(s: State, p: nat): State
    requires p in s.attempts
  {
    var a := s.attempts[p];
    var opening := if Lookup(s.opening, a.key) == Some(p) then s.opening - {a.key} else s.opening;
    if Publishes(s, p) then
      var tunnelled := if a.tunnel.Some? then Moved(s.place, {a.tunnel.value}, InTunnel(a.key)) else s.place;
      s.(opening := opening,
         pools := s.pools[a.key := a.db.value],
         tunnels := if a.tunnel.Some? then s.tunnels[a.key := a.tunnel.value] else s.tunnels,
         attempts := s.attempts[p := a.(phase := Done(Got(a.db.value)))],
         answers := s.answers[p := Got(a.db.value)],
         place := Moved(tunnelled, {a.db.value}, InPool(a.key)),
         source := s.source[a.key := p])
    else
      s.(opening := opening,
         attempts := s.attempts[p := a.(phase := Done(Failed))],
         answers := s.answers[p := Failed],
         place := Moved(s.place, Leftover(a), Closing))
  }

  /** The pools, tunnels and openings of these keys leave the manager. */
  ghost function Forget(s: State, keys: set<string>): State {
    s.(pools := s.pools - keys, tunnels := s.tunnels - keys, opening := s.opening - keys,
       place := Moved(s.place, ValuesAt(s.pools, keys) + ValuesAt(s.tunnels, keys), Closing))
  }

  function Begun(s: State, id: string): set<nat> {
    set p | p in s.attempts && Belongs(s.attempts[p].key, id)
  }

  ghost function Next(s: State, step: Step): State {
    match step
    case Ask(p, key) => AskNext(s, p, key)
    case Dial(p, h) =>
      if p !in s.attempts then s
      else s.(attempts := s.attempts[p := s.attempts[p].(tunnel := Some(h))], place := s.place[h := HeldBy(p)])
    case Open(p, h, ok) =>
      if p !in s.attempts then s
      else s.(attempts := s.attempts[p := s.attempts[p].(db := h, phase := Opened(ok))],
              place := if h.Some? then s.place[h.value := HeldBy(p)] else s.place)
    case Publish(p) => if p !in s.attempts then s else PublishNext(s, p)
    case Wake(w) =>
      if w in s.waiting && s.waiting[w] in s.attempts && s.attempts[s.waiting[w]].phase.Done?
      then s.(answers := s.answers[w := s.attempts[s.waiting[w]].phase.outcome]) else s
    case Invalidate(id) =>
      if id == "" then s
      else Forget(s, Under(s.pools.Keys + s.tunnels.Keys + s.opening.Keys, id)).(stale := s.stale + Begun(s, id))
    case CloseAll => Forget(s, s.pools.Keys + s.tunnels.Keys + s.opening.Keys).(closed := true, stale := s.attempts.Keys)
    case CloseHandle(h) => s.(place := s.place[h := Closed])
  }

  // ------------------------------------------------------------------
  // What every step keeps.

  predicate Unfinished(attempts: map<nat, Attempt>, p: nat, key: string) {
    p in attempts && attempts[p].key == key && !attempts[p].phase.Done?
  }

  /** A key is published, or being opened by one unfinished attempt, or neither. */
  ghost predicate Keyed(closed: bool, pools: map<string, Handle>, tunnels: map<string, Handle>, opening: map<string, nat>, attempts: map<nat, Attempt>) {
    && (forall k :: k in pools ==> k !in opening)
    && (forall k :: k in tunnels ==> k in pools)
    && (closed ==> pools == map[] && opening == map[])
    && (forall k :: k in opening ==> Unfinished(attempts, opening[k], k))
  }

  predicate Ready(a: Attempt) {
    && (a.phase == Opened(true) ==> a.db.Some?)
    && (a.phase == Opening ==> a.db == None)
    && (a.db.Some? ==> a.db != a.tunnel)
  }

  predicate Holds(a: Attempt, h: Handle) {
    !a.phase.Done? && (a.db == Some(h) || a.tunnel == Some(h))
  }

  predicate HeldIn(attempts: map<nat, Attempt>, p: nat, h: Handle) {
    p in attempts && Holds(attempts[p], h)
  }

  /** Each opened handle is where its place says, and nowhere else. */
  ghost predicate Placed(pools: map<string, Handle>, tunnels: map<string, Handle>, attempts: map<nat, Attempt>, place: map<Handle, Place>) {
    && (forall h: Handle, k: string :: Lookup(place, h) == Some(InPool(k)) <==> Lookup(pools, k) == Some(h))
    && (forall h: Handle, k: string :: Lookup(place, h) == Some(InTunnel(k)) <==> Lookup(tunnels, k) == Some(h))
    && (forall h: Handle, p: nat :: Lookup(place, h) == Some(HeldBy(p)) <==> HeldIn(attempts, p, h))
    && (forall p :: p in attempts ==> Ready(attempts[p]))
  }

  predicate PublishedBy(attempts: map<nat, Attempt>, p: nat, key: string, db: Handle) {
    p in attempts && attempts[p].key == key && attempts[p].phase == Done(Got(db))
  }

  /** Nothing that began before an invalidation is expected, or published. */
  ghost predicate Fresh(pools: map<string, Handle>, opening: map<string, nat>, attempts: map<nat, Attempt>, source: map<string, nat>, stale: set<nat>) {
    && (forall k :: k in opening ==> opening[k] !in stale)
    && (forall k :: k in pools ==> k in source && source[k] !in stale && PublishedBy(attempts, source[k], k, pools[k]))
    && stale <= attempts.Keys
  }

  /** What an attempt has answered so far. */
  function AnswerOf(a: Attempt): Option<Outcome> {
    if a.phase.Done? then Some(a.phase.outcome) else None
  }

  /** A finished attempt answered its own request, and its waiters with the same. */
  ghost predicate Shared(attempts: map<nat, Attempt>, waiting: map<nat, nat>, answers: map<nat, Outcome>) {
    && (forall p :: p in attempts ==> Lookup(answers, p) == AnswerOf(attempts[p]))
    && (forall w :: w in waiting ==> waiting[w] in attempts && w !in attempts)
    && (forall w :: w in waiting && w in answers ==> AnswerOf(attempts[waiting[w]]) == Some(answers[w]))
  }

  ghost predicate Invariant(s: State) {
    && Keyed(s.closed, s.pools, s.tunnels, s.opening, s.attempts)
    && Placed(s.pools, s.tunnels, s.attempts, s.place)
    && Fresh(s.pools, s.opening, s.attempts, s.source, s.stale)
    && Shared(s.attempts, s.waiting, s.answers)
    && (s.closed ==> s.stale == s.attempts.Keys)
  }

  lemma StartHolds()
    ensures Invariant(Start())
  {
  }

  // ------------------------------------------------------------------
  // Step by step.

  lemma AskHolds(s: State, p: nat, key: string)
    requires Invariant(s) && Enabled(s, Ask(p, key))
    ensures Invariant(AskNext(s, p, key))
  {
    hide Keyed, Placed, Fresh, Shared;
    if s.closed || key in s.pools {
      AnswerShares(s, p, if s.closed then Failed else Got(s.pools[key]));
    } else if key in s.opening {
      WaitShares(s, p, key);
    } else {
      BeginHolds(s, p, key);
    }
  }

  lemma AnswerShares(s: State, p: nat, outcome: Outcome)
    requires Shared(s.attempts, s.waiting, s.answers) && p !in s.attempts && p !in s.waiting
    ensures Shared(s.attempts, s.waiting, s.answers[p := outcome])
  {
  }

  lemma WaitShares(s: State, w: nat, key: string)
    requires Invariant(s) && key in s.opening && w !in s.attempts && w !in s.waiting && w !in s.answers
    ensures Shared(s.attempts, s.waiting[w := s.opening[key]], s.answers)
  {
    hide Placed, Fresh;
  }

  lemma BeginHolds(s: State, p: nat, key: string)
    requires Invariant(s) && !s.closed && key !in s.pools && key !in s.opening && p !in s.attempts && p !in s.waiting && p !in s.answers
    ensures Invariant(s.(opening := s.opening[key := p], attempts := s.attempts[p := Attempt(key, None, None, Opening)]))
  {
    var a := Attempt(key, None, None, Opening);
    BeginKeyed(s, p, key);
    BeginPlaced(s, p, key);
    BeginFresh(s, p, key);
    BeginShared(s, p, key);
  }

  lemma BeginKeyed(s: State, p: nat, key: string)
    requires Keyed(s.closed, s.pools, s.tunnels, s.opening, s.attempts) && !s.closed && key !in s.pools && key !in s.opening && p !in s.attempts
    ensures Keyed(s.closed, s.pools, s.tunnels, s.opening[key := p], s.attempts[p := Attempt(key, None, None, Opening)])
  {
  }

  lemma BeginPlaced(s: State, p: nat, key: string)
    requires Placed(s.pools, s.tunnels, s.attempts, s.place) && p !in s.attempts
    ensures Placed(s.pools, s.tunnels, s.attempts[p := Attempt(key, None, None, Opening)], s.place)
  {
    var attempts := s.attempts[p := Attempt(key, None, None, Opening)];
    forall h: Handle, q: nat ensures HeldIn(attempts, q, h) <==> HeldIn(s.attempts, q, h) {
    }
  }

  lemma BeginFresh(s: State, p: nat, key: string)
    requires Fresh(s.pools, s.opening, s.attempts, s.source, s.stale) && p !in s.attempts
    ensures Fresh(s.pools, s.opening[key := p], s.attempts[p := Attempt(key, None, None, Opening)], s.source, s.stale)
  {
  }

  lemma BeginShared(s: State, p: nat, key: string)
    requires Shared(s.attempts, s.waiting, s.answers) && p !in s.attempts && p !in s.answers && p !in s.waiting
    ensures Shared(s.attempts[p := Attempt(key, None, None, Opening)], s.waiting, s.answers)
  {
  }

  /** An attempt still under way takes a new handle, or a new phase. */
  lemma AttemptHolds(s: State, p: nat, b: Attempt, taken: Option<Handle>)
    requires Invariant(s) && p in s.attempts && s.attempts[p].phase == Opening && b.key == s.attempts[p].key && !b.phase.Done? && Ready(b)
    requires taken.Some? ==> taken.value !in s.place
    requires forall h: Handle :: Holds(b, h) <==> Holds(s.attempts[p], h) || taken == Some(h)
    ensures Invariant(s.(attempts := s.attempts[p := b], place := if taken.Some? then s.place[taken.value := HeldBy(p)] else s.place))
  {
    var attempts := s.attempts[p := b];
    assert Keyed(s.closed, s.pools, s.tunnels, s.opening, attempts) by { hide Placed, Fresh, Shared; }
    assert Fresh(s.pools, s.opening, attempts, s.source, s.stale) by { hide Placed, Keyed, Shared; }
    assert Shared(attempts, s.waiting, s.answers) by { hide Placed, Keyed, Fresh; }
    AttemptPlaced(s, p, b, taken);
  }

  lemma AttemptPlaced(s: State, p: nat, b: Attempt, taken: Option<Handle>)
    requires Placed(s.pools, s.tunnels, s.attempts, s.place) && p in s.attempts && Ready(b)
    requires taken.Some? ==> taken.value !in s.place
    requires forall h: Handle :: Holds(b, h) <==> Holds(s.attempts[p], h) || taken == Some(h)
    ensures Placed(s.pools, s.tunnels, s.attempts[p := b], if taken.Some? then s.place[taken.value := HeldBy(p)] else s.place)
  {
    hide Holds, Ready;
    var attempts, place := s.attempts[p := b], if taken.Some? then s.place[taken.value := HeldBy(p)] else s.place;
    forall h: Handle ensures Lookup(place, h) == if taken == Some(h) then Some(HeldBy(p)) else Lookup(s.place, h) {
    }
    forall h: Handle, q: nat ensures Lookup(place, h) == Some(HeldBy(q)) <==> HeldIn(attempts, q, h) {
      assert Lookup(s.place, h) == Some(HeldBy(q)) <==> HeldIn(s.attempts, q, h);
      if taken == Some(h) {
        assert Lookup(s.place, h) == None;
      }
    }
    forall h: Handle, k: string ensures Lookup(place, h) == Some(InPool(k)) <==> Lookup(s.pools, k) == Some(h) {
      assert Lookup(s.place, h) == Some(InPool(k)) <==> Lookup(s.pools, k) == Some(h);
    }
    forall h: Handle, k: string ensures Lookup(place, h) == Some(InTunnel(k)) <==> Lookup(s.tunnels, k) == Some(h) {
      assert Lookup(s.place, h) == Some(InTunnel(k)) <==> Lookup(s.tunnels, k) == Some(h);
    }
  }

  lemma DialHolds(s: State, p: nat, h: Handle)
    requires Invariant(s) && Enabled(s, Dial(p, h))
    ensures Invariant(Next(s, Dial(p, h)))
  {
    hide Keyed, Fresh, Shared;
    assert Ready(s.attempts[p]);
    AttemptHolds(s, p, s.attempts[p].(tunnel := Some(h)), Some(h));
  }

  lemma OpenHolds(s: State, p: nat, db: Option<Handle>, ok: bool)
    requires Invariant(s) && Enabled(s, Open(p, db, ok))
    ensures Invariant(Next(s, Open(p, db, ok)))
  {
    hide Keyed, Fresh, Shared;
    assert Ready(s.attempts[p]);
    var a := s.attempts[p];
    if a.tunnel.Some? {
      assert HeldIn(s.attempts, p, a.tunnel.value);
      assert Lookup(s.place, a.tunnel.value) == Some(HeldBy(p));
    }
    AttemptHolds(s, p, a.(db := db, phase := Opened(ok)), db);
  }

  // ------------------------------------------------------------------
  // Publishing.

  lemma PublishHolds(s: State, p: nat)
    requires Invariant(s) && Enabled(s, Publish(p))
    ensures Invariant(PublishNext(s, p))
  {
    hide Keyed, Placed, Fresh, Shared, Moved;
    PublishKeyed(s, p);
    PublishPlaced(s, p);
    PublishFresh(s, p);
    PublishShared(s, p, if Publishes(s, p) then Got(s.attempts[p].db.value) else Failed);
    PublishClosed(s, p);
  }

  lemma PublishClosed(s: State, p: nat)
    requires Enabled(s, Publish(p)) && (s.closed ==> s.stale == s.attempts.Keys)
    ensures var t := PublishNext(s, p); t.closed ==> t.stale == t.attempts.Keys
  {
    hide Moved;
  }

  lemma PublishKeyed(s: State, p: nat)
    requires Keyed(s.closed, s.pools, s.tunnels, s.opening, s.attempts) && Enabled(s, Publish(p))
    ensures var t := PublishNext(s, p); Keyed(t.closed, t.pools, t.tunnels, t.opening, t.attempts)
  {
    hide Moved, Leftover;
    var t, key := PublishNext(s, p), s.attempts[p].key;
    forall k | k in t.opening ensures Unfinished(t.attempts, t.opening[k], k) {
      assert k in s.opening && Unfinished(s.attempts, s.opening[k], k);
      assert t.opening[k] == s.opening[k] != p;
    }
  }

  lemma PublishFresh(s: State, p: nat)
    requires Keyed(s.closed, s.pools, s.tunnels, s.opening, s.attempts)
    requires Fresh(s.pools, s.opening, s.attempts, s.source, s.stale) && Enabled(s, Publish(p))
    ensures var t := PublishNext(s, p); Fresh(t.pools, t.opening, t.attempts, t.source, t.stale)
  {
    hide Moved, Leftover, Keyed, Fresh;
    var a := s.attempts[p];
    var opening := if Lookup(s.opening, a.key) == Some(p) then s.opening - {a.key} else s.opening;
    DoneStaysFresh(s, p, if Publishes(s, p) then Got(a.db.value) else Failed, opening);
    if Publishes(s, p) {
      assert s.opening[a.key] !in s.stale by { ExpectedIsFresh(s, a.key); }
      PublishedIsFresh(s, p, opening);
    }
  }

  lemma ExpectedIsFresh(s: State, key: string)
    requires Fresh(s.pools, s.opening, s.attempts, s.source, s.stale) && key in s.opening
    ensures s.opening[key] !in s.stale
  {
  }

  lemma DoneStaysFresh(s: State, p: nat, outcome: Outcome, opening: map<string, nat>)
    requires Fresh(s.pools, s.opening, s.attempts, s.source, s.stale) && p in s.attempts && !s.attempts[p].phase.Done?
    requires forall k :: k in opening ==> k in s.opening && opening[k] == s.opening[k]
    ensures Fresh(s.pools, opening, s.attempts[p := s.attempts[p].(phase := Done(outcome))], s.source, s.stale)
  {
    var attempts := s.attempts[p := s.attempts[p].(phase := Done(outcome))];
    forall k | k in s.pools ensures k in s.source && s.source[k] !in s.stale && PublishedBy(attempts, s.source[k], k, s.pools[k]) {
      assert PublishedBy(s.attempts, s.source[k], k, s.pools[k]);
    }
  }

  lemma PublishedIsFresh(s: State, p: nat, opening: map<string, nat>)
    requires p in s.attempts && Publishes(s, p) && p !in s.stale
    requires var a := s.attempts[p]; Fresh(s.pools, opening, s.attempts[p := a.(phase := Done(Got(a.db.value)))], s.source, s.stale)
    ensures var a := s.attempts[p];
            Fresh(s.pools[a.key := a.db.value], opening, s.attempts[p := a.(phase := Done(Got(a.db.value)))], s.source[a.key := p], s.stale)
  {
  }

  lemma PublishShared(s: State, p: nat, outcome: Outcome)
    requires Shared(s.attempts, s.waiting, s.answers) && Enabled(s, Publish(p))
    ensures Shared(s.attempts[p := s.attempts[p].(phase := Done(outcome))], s.waiting, s.answers[p := outcome])
  {
  }

  lemma PublishPlaced(s: State, p: nat)
    requires Invariant(s) && Enabled(s, Publish(p))
    ensures var t := PublishNext(s, p); Placed(t.pools, t.tunnels, t.attempts, t.place)
  {
    hide Fresh, Shared, Moved, Keyed, Placed;
    var a := s.attempts[p];
    if Publishes(s, p) {
      NoPoolYet(s, p);
      SuccessPlaced(s, p);
    } else {
      FailurePlaced(s, p);
    }
  }

  lemma NoPoolYet(s: State, p: nat)
    requires Keyed(s.closed, s.pools, s.tunnels, s.opening, s.attempts) && p in s.attempts && Lookup(s.opening, s.attempts[p].key) == Some(p)
    ensures s.attempts[p].key !in s.pools && s.attempts[p].key !in s.tunnels
  {
  }

  lemma FailurePlaced(s: State, p: nat)
    requires Placed(s.pools, s.tunnels, s.attempts, s.place) && p in s.attempts && s.attempts[p].phase.Opened?
    ensures Placed(s.pools, s.tunnels, s.attempts[p := s.attempts[p].(phase := Done(Failed))], Moved(s.place, Leftover(s.attempts[p]), Closing))
  {
    hide Moved;
    var a := s.attempts[p];
    var attempts, place := s.attempts[p := a.(phase := Done(Failed))], Moved(s.place, Leftover(a), Closing);
    MovedAt(s.place, Leftover(a), Closing);
    forall h: Handle ensures h in Leftover(a) <==> Lookup(s.place, h) == Some(HeldBy(p)) {
      assert Lookup(s.place, h) == Some(HeldBy(p)) <==> HeldIn(s.attempts, p, h);
    }
    forall h: Handle, q: nat ensures Lookup(place, h) == Some(HeldBy(q)) <==> HeldIn(attempts, q, h) {
      assert Lookup(s.place, h) == Some(HeldBy(q)) <==> HeldIn(s.attempts, q, h);
    }
    forall h: Handle, k: string ensures Lookup(place, h) == Some(InPool(k)) <==> Lookup(s.pools, k) == Some(h) {
      assert Lookup(s.place, h) == Some(InPool(k)) <==> Lookup(s.pools, k) == Some(h);
    }
    forall h: Handle, k: string ensures Lookup(place, h) == Some(InTunnel(k)) <==> Lookup(s.tunnels, k) == Some(h) {
      assert Lookup(s.place, h) == Some(InTunnel(k)) <==> Lookup(s.tunnels, k) == Some(h);
    }
    assert Ready(a);
  }

  lemma SuccessPlaced(s: State, p: nat)
    requires Placed(s.pools, s.tunnels, s.attempts, s.place) && p in s.attempts && Publishes(s, p)
    requires s.attempts[p].key !in s.pools && s.attempts[p].key !in s.tunnels
    ensures var t := PublishNext(s, p); Placed(t.pools, t.tunnels, t.attempts, t.place)
  {
    hide Moved;
    var a, t := s.attempts[p], PublishNext(s, p);
    var h0 := a.db.value;
    var tunnelled := if a.tunnel.Some? then Moved(s.place, {a.tunnel.value}, InTunnel(a.key)) else s.place;
    if a.tunnel.Some? {
      MovedAt(s.place, {a.tunnel.value}, InTunnel(a.key));
      assert HeldIn(s.attempts, p, a.tunnel.value);
    }
    MovedAt(tunnelled, {h0}, InPool(a.key));
    assert HeldIn(s.attempts, p, h0) && Ready(a);
    forall h: Handle
      ensures Lookup(t.place, h) == if h == h0 then Some(InPool(a.key)) else if a.tunnel == Some(h) then Some(InTunnel(a.key)) else Lookup(s.place, h)
    {
    }
    SuccessHeld(s, p, t);
    forall h: Handle, k: string ensures Lookup(t.place, h) == Some(InPool(k)) <==> Lookup(t.pools, k) == Some(h) {
      assert Lookup(s.place, h) == Some(InPool(k)) <==> Lookup(s.pools, k) == Some(h);
      assert Lookup(s.place, h) == Some(HeldBy(p)) <==> HeldIn(s.attempts, p, h);
    }
    forall h: Handle, k: string ensures Lookup(t.place, h) == Some(InTunnel(k)) <==> Lookup(t.tunnels, k) == Some(h) {
      assert Lookup(s.place, h) == Some(InTunnel(k)) <==> Lookup(s.tunnels, k) == Some(h);
      assert Lookup(s.place, h) == Some(HeldBy(p)) <==> HeldIn(s.attempts, p, h);
    }
  }

  lemma SuccessHeld(s: State, p: nat, t: State)
    requires Placed(s.pools, s.tunnels, s.attempts, s.place) && p in s.attempts && Publishes(s, p)
    requires t.attempts == s.attempts[p := s.attempts[p].(phase := Done(Got(s.attempts[p].db.value)))]
    requires forall h: Handle :: Lookup(t.place, h) ==
               if Some(h) == s.attempts[p].db then Some(InPool(s.attempts[p].key))
               else if s.attempts[p].tunnel == Some(h) then Some(InTunnel(s.attempts[p].key)) else Lookup(s.place, h)
    ensures forall h: Handle, q: nat :: Lookup(t.place, h) == Some(HeldBy(q)) <==> HeldIn(t.attempts, q, h)
    ensures forall q :: q in t.attempts ==> Ready(t.attempts[q])
  {
    assert Ready(s.attempts[p]);
    forall h: Handle, q: nat ensures Lookup(t.place, h) == Some(HeldBy(q)) <==> HeldIn(t.attempts, q, h) {
      assert Lookup(s.place, h) == Some(HeldBy(q)) <==> HeldIn(s.attempts, q, h);
      assert Lookup(s.place, h) == Some(HeldBy(p)) <==> HeldIn(s.attempts, p, h);
    }
  }

  // ------------------------------------------------------------------
  // Forgetting.

  lemma ForgetPlaced(s: State, keys: set<string>)
    requires Placed(s.pools, s.tunnels, s.attempts, s.place)
    ensures var t := Forget(s, keys); Placed(t.pools, t.tunnels, t.attempts, t.place)
  {
    hide Moved, Holds, Ready, HeldIn;
    var t, gone := Forget(s, keys), ValuesAt(s.pools, keys) + ValuesAt(s.tunnels, keys);
    MovedAt(s.place, gone, Closing);
    forall h: Handle | h in gone ensures exists k: string :: k in keys && (Lookup(s.place, h) == Some(InPool(k)) || Lookup(s.place, h) == Some(InTunnel(k))) {
      if h in ValuesAt(s.pools, keys) {
        var k :| k in keys && k in s.pools && s.pools[k] == h;
        assert Lookup(s.pools, k) == Some(h);
      } else {
        var k :| k in keys && k in s.tunnels && s.tunnels[k] == h;
        assert Lookup(s.tunnels, k) == Some(h);
      }
    }
    forall h: Handle, k: string ensures Lookup(t.place, h) == Some(InPool(k)) <==> Lookup(t.pools, k) == Some(h) {
      assert Lookup(s.place, h) == Some(InPool(k)) <==> Lookup(s.pools, k) == Some(h);
      assert Lookup(t.pools, k) == if k in keys then None else Lookup(s.pools, k);
      if k in keys && Lookup(s.pools, k) == Some(h) {
        assert h in ValuesAt(s.pools, keys);
      }
    }
    forall h: Handle, k: string ensures Lookup(t.place, h) == Some(InTunnel(k)) <==> Lookup(t.tunnels, k) == Some(h) {
      assert Lookup(s.place, h) == Some(InTunnel(k)) <==> Lookup(s.tunnels, k) == Some(h);
      assert Lookup(t.tunnels, k) == if k in keys then None else Lookup(s.tunnels, k);
      if k in keys && Lookup(s.tunnels, k) == Some(h) {
        assert h in ValuesAt(s.tunnels, keys);
      }
    }
    forall h: Handle, p: nat ensures Lookup(t.place, h) == Some(HeldBy(p)) <==> HeldIn(t.attempts, p, h) {
      assert Lookup(s.place, h) == Some(HeldBy(p)) <==> HeldIn(s.attempts, p, h);
    }
  }

  lemma ForgetKeyed(s: State, keys: set<string>)
    requires Keyed(s.closed, s.pools, s.tunnels, s.opening, s.attempts)
    ensures Keyed(s.closed, s.pools - keys, s.tunnels - keys, s.opening - keys, s.attempts)
  {
  }

  /** What stays after an Invalidate belongs to other connections. */
  lemma InvalidateFresh(s: State, id: string)
    requires Keyed(s.closed, s.pools, s.tunnels, s.opening, s.attempts) && Fresh(s.pools, s.opening, s.attempts, s.source, s.stale) && id != ""
    ensures var t := Next(s, Invalidate(id)); Fresh(t.pools, t.opening, t.attempts, t.source, t.stale)
  {
    hide Moved, ValuesAt, Belongs;
    var t := Next(s, Invalidate(id));
    forall k | k in t.opening ensures t.opening[k] !in t.stale {
      assert Unfinished(s.attempts, s.opening[k], k) && !Belongs(k, id);
    }
    forall k | k in t.pools ensures k in t.source && t.source[k] !in t.stale && PublishedBy(t.attempts, t.source[k], k, t.pools[k]) {
      assert PublishedBy(s.attempts, s.source[k], k, s.pools[k]) && !Belongs(k, id);
    }
  }

  lemma ClosedForgetsAll(s: State)
    ensures var t := Next(s, CloseAll); t.pools == map[] && t.tunnels == map[] && t.opening == map[] && t.attempts == s.attempts
    ensures var t := Next(s, CloseAll); t.waiting == s.waiting && t.answers == s.answers && t.stale == s.attempts.Keys && t.closed
  {
    hide Moved, ValuesAt;
  }

  lemma CloseHolds(s: State)
    requires Invariant(s)
    ensures Invariant(Next(s, CloseAll))
  {
    hide Moved, ValuesAt, Placed, Shared, Forget;
    ForgetPlaced(s, s.pools.Keys + s.tunnels.Keys + s.opening.Keys);
    ClosedForgetsAll(s);
  }

  lemma InvalidateHolds(s: State, id: string)
    requires Invariant(s)
    ensures Invariant(Next(s, Invalidate(id)))
  {
    hide Moved, ValuesAt, Placed, Shared, Keyed, Fresh, Under, Begun, Belongs;
    if id != "" {
      var keys := Under(s.pools.Keys + s.tunnels.Keys + s.opening.Keys, id);
      ForgetPlaced(s, keys);
      ForgetKeyed(s, keys);
      InvalidateFresh(s, id);
      BegunIsAttempts(s, id);
    }
  }

  lemma BegunIsAttempts(s: State, id: string)
    ensures Begun(s, id) <= s.attempts.Keys
  {
  }

  lemma WakeShares(s: State, w: nat)
    requires Shared(s.attempts, s.waiting, s.answers) && Enabled(s, Wake(w))
    ensures Shared(s.attempts, s.waiting, s.answers[w := s.attempts[s.waiting[w]].phase.outcome])
  {
  }

  lemma CloseHandlePlaced(s: State, h: Handle)
    requires Placed(s.pools, s.tunnels, s.attempts, s.place) && Lookup(s.place, h) == Some(Closing)
    ensures Placed(s.pools, s.tunnels, s.attempts, s.place[h := Closed])
  {
    hide Holds, Ready, HeldIn;
    forall g: Handle ensures Lookup(s.place[h := Closed], g) == if g == h then Some(Closed) else Lookup(s.place, g) {
    }
  }

  /** Every step keeps the invariant. */
  lemma StepHolds(s: State, step: Step)
    requires Invariant(s) && Enabled(s, step)
    ensures Invariant(Next(s, step))
  {
    hide Keyed, Placed, Fresh, Shared, AskNext, PublishNext, Forget, Under, Begun, Moved;
    match step
    case Ask(p, key) => AskHolds(s, p, key);
    case Dial(p, h) => DialHolds(s, p, h);
    case Open(p, db, ok) => OpenHolds(s, p, db, ok);
    case Publish(p) => PublishHolds(s, p);
    case Wake(w) => WakeShares(s, w);
    case Invalidate(id) => InvalidateHolds(s, id);
    case CloseAll => CloseHolds(s);
    case CloseHandle(h) => CloseHandlePlaced(s, h);
  }

  // ------------------------------------------------------------------
  // Whole runs.

  ghost predicate Run(s: State, steps: seq<Step>, t: State)
    decreases |steps|
  {
    if steps == [] then s == t else Enabled(s, steps[0]) && Run(Next(s, steps[0]), steps[1..], t)
  }

  lemma {:induction false} RunHolds(s: State, steps: seq<Step>, t: State)
    requires Invariant(s) && Run(s, steps, t)
    ensures Invariant(t)
    decreases |steps|
  {
    hide Invariant, Enabled, Next;
    if steps != [] {
      StepHolds(s, steps[0]);
      RunHolds(Next(s, steps[0]), steps[1..], t);
    }
  }

  predicate Located(s: State, h: Handle, at: Place) {
    match at
    case HeldBy(p) => HeldIn(s.attempts, p, h)
    case InPool(k) => Lookup(s.pools, k) == Some(h)
    case InTunnel(k) => Lookup(s.tunnels, k) == Some(h)
    case Closing => true
    case Closed => true
  }

  /** Main result: after any interleaving no key is both published and being opened, so a publication never replaces
      a pool; and a handle stands published under one key, or with one unfinished attempt, or is closing or closed. */
  lemma NoHandleIsLostOrShared(steps: seq<Step>, t: State)
    requires Run(Start(), steps, t)
    ensures t.pools.Keys !! t.opening.Keys
    ensures forall p :: p in t.attempts && Publishes(t, p) ==> t.attempts[p].key !in t.pools && t.attempts[p].key !in t.tunnels
    ensures forall h: Handle :: h in t.place ==> Located(t, h, t.place[h])
    ensures forall j, k :: j in t.pools && k in t.pools && j != k ==> t.pools[j] != t.pools[k]
    ensures forall k :: k in t.pools ==> Lookup(t.place, t.pools[k]) == Some(InPool(k))
  {
    hide Run, Fresh, Shared, HeldIn;
    StartHolds();
    RunHolds(Start(), steps, t);
    forall p | p in t.attempts && Publishes(t, p) ensures t.attempts[p].key !in t.pools && t.attempts[p].key !in t.tunnels {
      NoPoolYet(t, p);
    }
    forall k | k in t.pools ensures Lookup(t.place, t.pools[k]) == Some(InPool(k)) {
      assert Lookup(t.pools, k) == Some(t.pools[k]);
    }
  }

  lemma RunKeepsStale(s: State, steps: seq<Step>, t: State)
    requires Run(s, steps, t)
    ensures s.stale <= t.stale || t.closed
    ensures s.closed ==> t.closed
    decreases |steps|
  {
    hide Enabled, AskNext, PublishNext, Forget, Moved, Begun, Under;
    if steps != [] {
      RunKeepsStale(Next(s, steps[0]), steps[1..], t);
      StepKeepsStale(s, steps[0]);
    }
  }

  lemma AskKeepsStale(s: State, p: nat, key: string)
    ensures AskNext(s, p, key).stale == s.stale && AskNext(s, p, key).closed == s.closed
  {
    if s.closed {
      assert AskNext(s, p, key) == s.(answers := s.answers[p := Failed]);
    } else if key in s.pools {
      assert AskNext(s, p, key) == s.(answers := s.answers[p := Got(s.pools[key])]);
    } else if key in s.opening {
      assert AskNext(s, p, key) == s.(waiting := s.waiting[p := s.opening[key]]);
    }
  }

  lemma PublishKeepsStale(s: State, p: nat)
    requires p in s.attempts
    ensures PublishNext(s, p).stale == s.stale && PublishNext(s, p).closed == s.closed
  {
    hide Moved, Leftover, Publishes;
  }

  lemma ForgetKeepsStale(s: State, keys: set<string>)
    ensures Forget(s, keys).stale == s.stale && Forget(s, keys).closed == s.closed
  {
    hide Moved, ValuesAt;
  }

  lemma StepKeepsStale(s: State, step: Step)
    ensures s.stale <= Next(s, step).stale || Next(s, step).closed
    ensures s.closed ==> Next(s, step).closed
  {
    hide Moved, Begun, Under, ValuesAt, AskNext, PublishNext, Forget;
    match step
    case Ask(p, key) => AskKeepsStale(s, p, key);
    case Publish(p) => if p in s.attempts { PublishKeepsStale(s, p); }
    case Invalidate(id) => ForgetKeepsStale(s, Under(s.pools.Keys + s.tunnels.Keys + s.opening.Keys, id));
    case CloseAll => ForgetKeepsStale(s, s.pools.Keys + s.tunnels.Keys + s.opening.Keys);
    case _ =>
  }

  /** Main result: once an Invalidate of a connection has run, no attempt for it that had begun before is ever the one
      a published pool came from; and once Close has run nothing is published. */
  lemma NothingStaleIsPublished(steps: seq<Step>, s: State, id: string, more: seq<Step>, t: State, key: string)
    requires Run(Start(), steps, s) && id != "" && Run(Next(s, Invalidate(id)), more, t)
    requires key in t.pools
    ensures key in t.source && t.source[key] in t.attempts && t.attempts[t.source[key]].phase == Done(Got(t.pools[key]))
    ensures t.source[key] in s.attempts ==> forall c: Connection :: s.attempts[t.source[key]].key == PoolKey(c) ==> c.id != id
    ensures !t.closed
  {
    hide Run, Placed, Shared, Begun, Next, PoolKey;
    StartHolds();
    RunHolds(Start(), steps, s);
    var u := Next(s, Invalidate(id));
    StepHolds(s, Invalidate(id));
    RunHolds(u, more, t);
    RunKeepsStale(u, more, t);
    StaleAfterInvalidate(s, id);
    assert PublishedBy(t.attempts, t.source[key], key, t.pools[key]);
    forall c: Connection | t.source[key] in s.attempts && s.attempts[t.source[key]].key == PoolKey(c) ensures c.id != id {
      BegunForConnection(s, c, t.source[key]);
    }
  }

  lemma BegunForConnection(s: State, c: Connection, p: nat)
    requires p in s.attempts && s.attempts[p].key == PoolKey(c)
    ensures p in Begun(s, c.id)
  {
    hide Belongs, PoolKey;
    KeysBelongById(c, c.id, "");
  }

  lemma StaleAfterInvalidate(s: State, id: string)
    requires id != ""
    ensures Begun(s, id) <= Next(s, Invalidate(id)).stale
  {
    hide Begun, Forget;
  }

  /** Main result: everyone who waited on an attempt gets exactly what the request that made it got. */
  lemma WaitersShareTheOutcome(steps: seq<Step>, t: State, w: nat)
    requires Run(Start(), steps, t) && w in t.waiting && w in t.answers
    ensures t.waiting[w] in t.answers && t.answers[w] == t.answers[t.waiting[w]]
  {
    hide Run, Fresh, Placed, Keyed;
    StartHolds();
    RunHolds(Start(), steps, t);
    assert Lookup(t.answers, t.waiting[w]) == AnswerOf(t.attempts[t.waiting[w]]);
  }
}
