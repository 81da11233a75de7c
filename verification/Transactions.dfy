/** The registry of manual transactions: claims, the idle reaper, connection
    deletion, lost connections and the one end every transaction has. A step is one
    critical section of the registry's lock, or work done under a transaction's own lock. */
module Transactions {
  import opened Prelude

  datatype Purpose = Query | Finish(commit: bool)

  /** How far a request has come with the transaction it claimed. */
  datatype Stage = Claimed | Locked | Removed | Over | Unlocked

  datatype Request = Request(item: nat, purpose: Purpose, stage: Stage)

  datatype Effect = Pending | Committed | RolledBack

  datatype Cause = Idle | Deleted

  /** doomed: taken out of the registry to be rolled back. ends and winner are history, not program state. */
  datatype Item = Item(
    user: string, connection: string,
    registered: bool, running: nat, lastUsed: nat,
    holder: Option<nat>, doomed: Option<Cause>,
    lost: bool, aborted: bool,
    ended: bool, effect: Effect, ends: nat, winner: Option<nat>)

  /** What the driver says of an end it was asked for. */
  datatype Report = Acked | ServerRolledBack | Failed

  datatype Told = CommitDone(item: nat) | CommitLost(item: nat) | WasRolledBack | FinishFailed | RollbackDone(item: nat)

  datatype State = State(items: map<nat, Item>, requests: map<nat, Request>, told: map<nat, Told>, now: nat, timeout: nat)

  datatype Step =
    | Begin(t: nat, user: string, connection: string)
    | Claim(r: nat, t: nat, purpose: Purpose)
    | Lock(r: nat)
    | Execute(r: nat)
    | Remove(r: nat)
    | End(r: nat, report: Report, effective: bool)
    | Unlock(r: nat)
    | Leave(r: nat)
    | Reap
    | DeleteConnection(connection: string)
    | ForceRollback(t: nat)
    | Lose(t: nat)
    | Abort(t: nat)
    | Pass(time: nat)

  function Start(timeout: nat): State {
    State(map[], map[], map[], 0, timeout)
  }

  // ------------------------------------------------------------------
  // The transaction handle.

  datatype Health = Active | Aborted | Lost

  /** After an end the pinned connection is gone, so it reads as lost. */
  function HealthOf(i: Item): Health {
    if i.ended || i.lost then Lost else if i.aborted then Aborted else Active
  }

  /** sync.Once: only the first end reaches the database. */
  function RollBack(i: Item): Item {
    if i.ended then i else i.(ended := true, effect := RolledBack, ends := i.ends + 1)
  }

  /** What the handle's Commit or Rollback reports: an end that was not the first reports no error. */
  function Reports(i: Item, report: Report): Report {
    if i.ended then Acked else report
  }

  function Commit(i: Item, effective: bool): Item {
    if i.ended then i else i.(ended := true, effect := if effective then Committed else RolledBack, ends := i.ends + 1)
  }

  // ------------------------------------------------------------------
  // The steps.

  predicate IdleTooLong(s: State, i: Item) {
    i.running == 0 && s.now > i.lastUsed + s.timeout
  }

  ghost predicate Enabled(s: State, step: Step) {
    match step
    case Begin(t, _, _) => t !in s.items
    case Claim(r, t, _) => r !in s.requests && r !in s.told && t in s.items && s.items[t].registered
    case Lock(r) => r in s.requests && s.requests[r].stage == Claimed && ItemOf(s, r).holder == None
    case Execute(r) => r in s.requests && s.requests[r].stage == Locked && s.requests[r].purpose == Query
    case Remove(r) => r in s.requests && s.requests[r].stage == Locked && s.requests[r].purpose.Finish?
    case End(r, report, effective) =>
      && r in s.requests && s.requests[r].stage == Removed && r !in s.told
      && (report == Acked ==> effective && !ItemOf(s, r).lost) && (report == ServerRolledBack ==> !effective)
    case Unlock(r) => r in s.requests && s.requests[r].stage == Over
    case Leave(r) => r in s.requests && (s.requests[r].stage == Unlocked || s.requests[r].stage == Claimed)
    case ForceRollback(t) => t in s.items && s.items[t].doomed.Some? && s.items[t].holder == None
    case Lose(t) => t in s.items
    case Abort(t) => t in s.items
    case _ => true
  }

  function ItemOf(s: State, r: nat): Item {
    if r in s.requests && s.requests[r].item in s.items then s.items[s.requests[r].item]
    else Item("", "", false, 0, 0, None, None, false, false, true, Pending, 0, None)
  }

  predicate Leaves(i: Item, fits: Item -> bool) {
    i.registered && fits(i)
  }

  /** An item that fits leaves the registry for a forced rollback. */
  function Swept(i: Item, fits: Item -> bool, cause: Cause): Item {
    if Leaves(i, fits) then i.(registered := false, doomed := Some(cause)) else i
  }

  ghost function Doom(items: map<nat, Item>, fits: Item -> bool, cause: Cause): map<nat, Item>
    decreases |items|
  {
    if items == map[] then map[]
    else
      var t :| t in items;
      Doom(items - {t}, fits, cause)[t := Swept(items[t], fits, cause)]
  }

  lemma {:induction false} DoomAt(items: map<nat, Item>, fits: Item -> bool, cause: Cause)
    ensures forall t :: t in Doom(items, fits, cause) <==> t in items
    ensures forall t :: t in items ==> Doom(items, fits, cause)[t] == Swept(items[t], fits, cause)
    decreases |items|
  {
    hide Swept;
    if items != map[] {
      var t :| t in items && Doom(items, fits, cause) == Doom(items - {t}, fits, cause)[t := Swept(items[t], fits, cause)];
      DoomAt(items - {t}, fits, cause);
    }
  }

  function ReapOne(s: State): Item -> bool {
    (i: Item) => IdleTooLong(s, i)
  }

  function OfConnection(connection: string): Item -> bool {
    (i: Item) => i.connection == connection
  }

  function Put(s: State, t: nat, i: Item): State {
    s.(items := s.items[t := i])
  }

  function Advance(s: State, r: nat, stage: Stage): State
    requires r in s.requests
  {
    s.(requests := s.requests[r := s.requests[r].(stage := stage)])
  }

  function ClaimNext(s: State, r: nat, t: nat, purpose: Purpose): State
    requires t in s.items
  {
    var i := s.items[t];
    if IdleTooLong(s, i) then Put(s, t, i.(registered := false, doomed := Some(Idle)))
    else Put(s, t, i.(running := i.running + 1, lastUsed := s.now)).(requests := s.requests[r := Request(t, purpose, Claimed)])
  }

  /** What a finishing request is told, and what it does to the transaction. */
  function EndNext(s: State, r: nat, report: Report, effective: bool): State
    requires r in s.requests
  {
    var t, i, purpose := s.requests[r].item, ItemOf(s, r), s.requests[r].purpose;
    var over := Advance(s, r, Over);
    if purpose == Query then Put(over, t, RollBack(i))
    else if HealthOf(i) == Lost then Put(over, t, RollBack(i)).(told := s.told[r := if purpose.commit then CommitLost(t) else RollbackDone(t)])
    else if HealthOf(i) == Aborted && purpose.commit then Put(over, t, RollBack(i)).(told := s.told[r := WasRolledBack])
    else
      var j := if purpose.commit then Commit(i, effective) else RollBack(i);
      match Reports(i, report)
      case ServerRolledBack => Put(over, t, j).(told := s.told[r := WasRolledBack])
      case Failed => Put(over, t, j).(told := s.told[r := FinishFailed])
      case Acked =>
        if purpose.commit then Put(over, t, j.(winner := Some(r))).(told := s.told[r := CommitDone(t)])
        else Put(over, t, j).(told := s.told[r := RollbackDone(t)])
  }

  ghost function Next(s: State, step: Step): State {
    match step
    case Begin(t, user, connection) =>
      Put(s, t, Item(user, connection, true, 0, s.now, None, None, false, false, false, Pending, 0, None))
    case Claim(r, t, purpose) => if t in s.items then ClaimNext(s, r, t, purpose) else s
    case Lock(r) => if r !in s.requests then s else Put(Advance(s, r, Locked), s.requests[r].item, ItemOf(s, r).(holder := Some(r)))
    case Execute(r) =>
      if r !in s.requests then s
      else if HealthOf(ItemOf(s, r)) == Lost then Put(Advance(s, r, Removed), s.requests[r].item, ItemOf(s, r).(registered := false))
      else Advance(s, r, Over)
    case Remove(r) =>
      if r !in s.requests then s else Put(Advance(s, r, Removed), s.requests[r].item, ItemOf(s, r).(registered := false))
    case End(r, report, effective) => if r !in s.requests then s else EndNext(s, r, report, effective)
    case Unlock(r) => if r !in s.requests then s else Put(Advance(s, r, Unlocked), s.requests[r].item, ItemOf(s, r).(holder := None))
    case Leave(r) =>
      if r !in s.requests then s
      else
        var i := ItemOf(s, r);
        Put(s, s.requests[r].item, i.(running := if i.running > 0 then i.running - 1 else 0, lastUsed := s.now)).(requests := s.requests - {r})
    case Reap => s.(items := Doom(s.items, ReapOne(s), Idle))
    case DeleteConnection(connection) => s.(items := Doom(s.items, OfConnection(connection), Deleted))
    case ForceRollback(t) => if t !in s.items then s else Put(s, t, RollBack(s.items[t]).(doomed := None))
    case Lose(t) => if t !in s.items then s else Put(s, t, s.items[t].(lost := true))
    case Abort(t) => if t !in s.items then s else Put(s, t, s.items[t].(aborted := true))
    case Pass(time) => s.(now := s.now + time)
  }

  // ------------------------------------------------------------------
  // What every step keeps.

  function Claimants(requests: map<nat, Request>, t: nat): set<nat> {
    set r | r in requests && requests[r].item == t
  }

  predicate Holding(q: Request) {
    q.stage == Locked || q.stage == Removed || q.stage == Over
  }

  /** A request under way, and the item it works on. */
  predicate RequestFits(items: map<nat, Item>, r: nat, q: Request) {
    && q.item in items
    && (Holding(q) ==> items[q.item].holder == Some(r))
    && (q.stage == Removed ==> !items[q.item].registered)
  }

  predicate HolderFits(requests: map<nat, Request>, t: nat, i: Item) {
    i.holder.Some? ==> i.holder.value in requests && requests[i.holder.value].item == t && Holding(requests[i.holder.value])
  }

  /** Someone still has to end it: the registry, a forced rollback, or the request that removed it. */
  predicate Owned(requests: map<nat, Request>, t: nat, i: Item) {
    || i.ended || i.registered || i.doomed.Some?
    || (i.holder.Some? && i.holder.value in requests && requests[i.holder.value].item == t && requests[i.holder.value].stage == Removed)
  }

  predicate ItemFits(requests: map<nat, Request>, t: nat, i: Item) {
    && i.running == |Claimants(requests, t)|
    && HolderFits(requests, t, i) && Owned(requests, t, i)
    && (i.registered ==> i.doomed == None)
    && (i.doomed == Some(Idle) ==> i.running == 0)
    && i.ends == (if i.ended then 1 else 0)
    && (i.ended <==> i.effect != Pending)
    && (i.winner.Some? ==> i.effect == Committed)
  }

  predicate ToldFits(items: map<nat, Item>, r: nat, told: Told) {
    && (told.CommitDone? ==> told.item in items && items[told.item].winner == Some(r))
    && (told.CommitLost? || told.RollbackDone? ==> told.item in items && items[told.item].ended)
  }

  ghost predicate Invariant(s: State) {
    && (forall r :: r in s.requests ==> RequestFits(s.items, r, s.requests[r]))
    && (forall t :: t in s.items ==> ItemFits(s.requests, t, s.items[t]))
    && (forall r :: r in s.told ==> ToldFits(s.items, r, s.told[r]))
  }

  lemma StartHolds(timeout: nat)
    ensures Invariant(Start(timeout))
  {
  }

  lemma SameClaimants(requests: map<nat, Request>, r: nat, q: Request)
    requires r in requests && requests[r].item == q.item
    ensures forall t :: Claimants(requests[r := q], t) == Claimants(requests, t)
  {
  }

  lemma OneMoreClaimant(requests: map<nat, Request>, r: nat, q: Request)
    requires r !in requests
    ensures Claimants(requests[r := q], q.item) == Claimants(requests, q.item) + {r}
    ensures |Claimants(requests[r := q], q.item)| == |Claimants(requests, q.item)| + 1
    ensures forall t :: t != q.item ==> Claimants(requests[r := q], t) == Claimants(requests, t)
  {
    assert r !in Claimants(requests, q.item);
  }

  lemma OneFewerClaimant(requests: map<nat, Request>, r: nat)
    requires r in requests
    ensures |Claimants(requests - {r}, requests[r].item)| == |Claimants(requests, requests[r].item)| - 1
    ensures forall t :: t != requests[r].item ==> Claimants(requests - {r}, t) == Claimants(requests, t)
  {
    var t := requests[r].item;
    assert Claimants(requests, t) == Claimants(requests - {r}, t) + {r};
  }

  /** A step of one request on its item leaves the other items as they fit. */
  lemma OtherItemFits(s: State, r: nat, q: Request, u: nat)
    requires Invariant(s) && r in s.requests && q.item == s.requests[r].item && u in s.items && u != q.item
    ensures ItemFits(s.requests[r := q], u, s.items[u])
  {
    hide Claimants, RequestFits, ToldFits;
    SameClaimants(s.requests, r, q);
    assert ItemFits(s.requests, u, s.items[u]);
  }

  /** One request moves on and its item changes with it. */
  lemma MoveHolds(s: State, r: nat, stage: Stage, i: Item, told: map<nat, Told>)
    requires Invariant(s) && r in s.requests
    requires var q := s.requests[r].(stage := stage);
             && RequestFits(s.items[q.item := i], r, q)
             && ItemFits(s.requests[r := q], q.item, i)
             && (s.items[q.item].holder != Some(r) ==> i.holder == s.items[q.item].holder || (s.items[q.item].holder == None && i.holder == Some(r)))
             && (s.items[q.item].holder == Some(r) ==> i.holder == Some(r) || i.holder == None)
             && (!s.items[q.item].registered ==> !i.registered)
             && (i.winner == s.items[q.item].winner || s.items[q.item].winner == None)
    requires forall p :: p in told ==> ToldFits(s.items[s.requests[r].item := i], p, told[p])
    ensures Invariant(State(s.items[s.requests[r].item := i], s.requests[r := s.requests[r].(stage := stage)], told, s.now, s.timeout))
  {
    hide ToldFits, ItemFits;
    var q := s.requests[r].(stage := stage);
    var t, items, requests := q.item, s.items[q.item := i], s.requests[r := q];
    forall p | p in requests ensures RequestFits(items, p, requests[p]) {
      if p != r {
        assert RequestFits(s.items, p, s.requests[p]);
      }
    }
    forall u | u in items ensures ItemFits(requests, u, items[u]) {
      if u != t {
        OtherItemFits(s, r, q, u);
      }
    }
  }

  // ------------------------------------------------------------------
  // Step by step.

  lemma Facts(s: State, r: nat)
    requires Invariant(s) && r in s.requests
    ensures var q := s.requests[r];
            && RequestFits(s.items, r, q) && q.item in s.items && ItemOf(s, r) == s.items[q.item]
            && ItemFits(s.requests, q.item, s.items[q.item])
  {
    hide ItemFits, ToldFits;
    assert RequestFits(s.items, r, s.requests[r]);
  }

  lemma SameTold(s: State, t: nat, i: Item)
    requires Invariant(s) && t in s.items && (s.items[t].winner == None || i.winner == s.items[t].winner) && (s.items[t].ended ==> i.ended)
    ensures forall p :: p in s.told ==> ToldFits(s.items[t := i], p, s.told[p])
  {
    hide ItemFits, RequestFits;
    forall p | p in s.told ensures ToldFits(s.items[t := i], p, s.told[p]) {
      assert ToldFits(s.items, p, s.told[p]);
    }
  }

  lemma MoveItemHolds(s: State, r: nat, stage: Stage, i: Item)
    requires Invariant(s) && r in s.requests
    requires var q := s.requests[r].(stage := stage);
             && RequestFits(s.items[q.item := i], r, q)
             && ItemFits(s.requests[r := q], q.item, i)
             && (s.items[q.item].holder != Some(r) ==> i.holder == s.items[q.item].holder || (s.items[q.item].holder == None && i.holder == Some(r)))
             && (s.items[q.item].holder == Some(r) ==> i.holder == Some(r) || i.holder == None)
             && (!s.items[q.item].registered ==> !i.registered)
             && i.winner == s.items[q.item].winner && (s.items[q.item].ended ==> i.ended)
    ensures Invariant(Put(Advance(s, r, stage), s.requests[r].item, i))
  {
    hide ItemFits, RequestFits, Invariant;
    Facts(s, r);
    SameTold(s, s.requests[r].item, i);
    MoveHolds(s, r, stage, i, s.told);
  }

  lemma LockHolds(s: State, r: nat)
    requires Invariant(s) && Enabled(s, Lock(r))
    ensures Invariant(Next(s, Lock(r)))
  {
    hide Invariant, Claimants;
    Facts(s, r);
    SameClaimants(s.requests, r, s.requests[r].(stage := Locked));
    MoveItemHolds(s, r, Locked, ItemOf(s, r).(holder := Some(r)));
  }

  lemma RemoveHolds(s: State, r: nat)
    requires Invariant(s) && r in s.requests && s.requests[r].stage == Locked
    ensures Invariant(Put(Advance(s, r, Removed), s.requests[r].item, ItemOf(s, r).(registered := false)))
  {
    hide Invariant, Claimants;
    Facts(s, r);
    SameClaimants(s.requests, r, s.requests[r].(stage := Removed));
    MoveItemHolds(s, r, Removed, ItemOf(s, r).(registered := false));
  }

  lemma ExecuteHolds(s: State, r: nat)
    requires Invariant(s) && Enabled(s, Execute(r))
    ensures Invariant(Next(s, Execute(r)))
  {
    hide Invariant, Claimants;
    Facts(s, r);
    if HealthOf(ItemOf(s, r)) == Lost {
      RemoveHolds(s, r);
    } else {
      SameClaimants(s.requests, r, s.requests[r].(stage := Over));
      MoveItemHolds(s, r, Over, ItemOf(s, r));
      assert s.items[s.requests[r].item := ItemOf(s, r)] == s.items;
    }
  }

  lemma UnlockHolds(s: State, r: nat)
    requires Invariant(s) && Enabled(s, Unlock(r))
    ensures Invariant(Next(s, Unlock(r)))
  {
    hide Invariant, Claimants;
    Facts(s, r);
    SameClaimants(s.requests, r, s.requests[r].(stage := Unlocked));
    MoveItemHolds(s, r, Unlocked, ItemOf(s, r).(holder := None));
  }

  /** The item after an end, whichever end it is. */
  predicate EndsAs(i: Item, j: Item, r: nat) {
    && j == i.(ended := true, effect := j.effect, ends := j.ends, winner := j.winner)
    && (if i.ended then j.ends == i.ends && j.effect == i.effect else j.ends == i.ends + 1 && j.effect != Pending)
    && (j.winner == i.winner || (!i.ended && j.winner == Some(r) && j.effect == Committed))
  }

  lemma EndFits(s: State, r: nat, j: Item)
    requires Invariant(s) && r in s.requests && s.requests[r].stage == Removed && EndsAs(ItemOf(s, r), j, r)
    ensures var q := s.requests[r].(stage := Over);
            RequestFits(s.items[q.item := j], r, q) && ItemFits(s.requests[r := q], q.item, j)
    ensures ItemOf(s, r).winner == None || j.winner == ItemOf(s, r).winner
  {
    hide Invariant, Claimants;
    Facts(s, r);
    SameClaimants(s.requests, r, s.requests[r].(stage := Over));
  }

  function Telling(s: State, r: nat, x: Option<Told>): map<nat, Told> {
    if x.Some? then s.told[r := x.value] else s.told
  }

  lemma EndedHolds(s: State, r: nat, j: Item, x: Option<Told>)
    requires Invariant(s) && r in s.requests && s.requests[r].stage == Removed && EndsAs(ItemOf(s, r), j, r) && r !in s.told
    requires x.Some? && x.value.CommitDone? ==> x.value.item == s.requests[r].item && j.winner == Some(r)
    requires x.Some? && (x.value.CommitLost? || x.value.RollbackDone?) ==> x.value.item == s.requests[r].item
    ensures Invariant(Put(Advance(s, r, Over), s.requests[r].item, j).(told := Telling(s, r, x)))
  {
    hide ItemFits, RequestFits, EndsAs;
    EndKeepsHolder(s, r, j);
    EndFits(s, r, j);
    Facts(s, r);
    var t, told := s.requests[r].item, Telling(s, r, x);
    SameTold(s, t, j);
    forall p | p in told ensures ToldFits(s.items[t := j], p, told[p]) {
      if p in s.told {
        assert told[p] == s.told[p];
      }
    }
    MoveHolds(s, r, Over, j, told);
  }

  lemma EndKeepsHolder(s: State, r: nat, j: Item)
    requires EndsAs(ItemOf(s, r), j, r)
    ensures j.holder == ItemOf(s, r).holder && j.registered == ItemOf(s, r).registered && j.ended
  {
  }

  lemma EndHolds(s: State, r: nat, report: Report, effective: bool)
    requires Invariant(s) && Enabled(s, End(r, report, effective))
    ensures Invariant(EndNext(s, r, report, effective))
  {
    hide Invariant, Claimants;
    var i, t, purpose := ItemOf(s, r), s.requests[r].item, s.requests[r].purpose;
    Facts(s, r);
    var rolled := RollBack(i);
    assert EndsAs(i, rolled, r);
    if purpose == Query {
      EndedHolds(s, r, rolled, None);
    } else if HealthOf(i) == Lost {
      EndedHolds(s, r, rolled, Some(if purpose.commit then CommitLost(t) else RollbackDone(t)));
    } else if HealthOf(i) == Aborted && purpose.commit {
      EndedHolds(s, r, rolled, Some(WasRolledBack));
    } else {
      var j := if purpose.commit then Commit(i, effective) else rolled;
      match Reports(i, report)
      case ServerRolledBack => EndedHolds(s, r, j, Some(WasRolledBack));
      case Failed => EndedHolds(s, r, j, Some(FinishFailed));
      case Acked =>
        if purpose.commit {
          EndedHolds(s, r, j.(winner := Some(r)), Some(CommitDone(t)));
        } else {
          EndedHolds(s, r, j, Some(RollbackDone(t)));
        }
    }
  }

  /** A step that touches one item and no request. */
  lemma ItemHolds(s: State, t: nat, i: Item)
    requires Invariant(s) && t in s.items && ItemFits(s.requests, t, i)
    requires i.holder == s.items[t].holder && (!s.items[t].registered ==> !i.registered) && i.winner == s.items[t].winner
    requires s.items[t].ended ==> i.ended
    ensures Invariant(Put(s, t, i))
  {
    hide ItemFits;
    SameTold(s, t, i);
    var items := s.items[t := i];
    forall p | p in s.requests ensures RequestFits(items, p, s.requests[p]) {
      assert RequestFits(s.items, p, s.requests[p]);
    }
    forall u | u in items ensures ItemFits(s.requests, u, items[u]) {
      if u != t {
        assert ItemFits(s.requests, u, s.items[u]);
      }
    }
  }

  lemma QuietHolds(s: State, step: Step)
    requires Invariant(s) && Enabled(s, step) && (step.ForceRollback? || step.Lose? || step.Abort?)
    ensures Invariant(Next(s, step))
  {
    hide Claimants, RequestFits, ToldFits;
    var i := s.items[step.t];
    assert ItemFits(s.requests, step.t, i);
    match step
    case ForceRollback(t) => ItemHolds(s, t, RollBack(i).(doomed := None));
    case Lose(t) => ItemHolds(s, t, i.(lost := true));
    case Abort(t) => ItemHolds(s, t, i.(aborted := true));
  }

  lemma BeginHolds(s: State, t: nat, user: string, connection: string)
    requires Invariant(s) && t !in s.items
    ensures Invariant(Next(s, Begin(t, user, connection)))
  {
    var n := Next(s, Begin(t, user, connection));
    forall p | p in s.requests ensures RequestFits(n.items, p, s.requests[p]) {
      assert RequestFits(s.items, p, s.requests[p]);
    }
    forall p | p in s.told ensures ToldFits(n.items, p, s.told[p]) {
      assert ToldFits(s.items, p, s.told[p]);
    }
    assert Claimants(s.requests, t) == {} by {
      forall p | p in s.requests ensures s.requests[p].item != t {
        assert RequestFits(s.items, p, s.requests[p]);
      }
    }
    forall u | u in n.items ensures ItemFits(n.requests, u, n.items[u]) {
      if u != t {
        assert ItemFits(s.requests, u, s.items[u]);
      }
    }
  }

  lemma ClaimHolds(s: State, r: nat, t: nat, purpose: Purpose)
    requires Invariant(s) && Enabled(s, Claim(r, t, purpose))
    ensures Invariant(ClaimNext(s, r, t, purpose))
  {
    var i := s.items[t];
    assert ItemFits(s.requests, t, i);
    if IdleTooLong(s, i) {
      hide Claimants;
      ItemHolds(s, t, i.(registered := false, doomed := Some(Idle)));
    } else {
      NewClaimHolds(s, r, t, purpose);
    }
  }

  lemma ClaimedItemFits(s: State, r: nat, t: nat, purpose: Purpose, u: nat)
    requires Invariant(s) && Enabled(s, Claim(r, t, purpose)) && !IdleTooLong(s, s.items[t]) && u in s.items
    ensures var n := ClaimNext(s, r, t, purpose); ItemFits(n.requests, u, n.items[u])
  {
    hide Claimants, ToldFits, RequestFits;
    OneMoreClaimant(s.requests, r, Request(t, purpose, Claimed));
    assert ItemFits(s.requests, u, s.items[u]);
  }

  lemma NewClaimHolds(s: State, r: nat, t: nat, purpose: Purpose)
    requires Invariant(s) && Enabled(s, Claim(r, t, purpose)) && !IdleTooLong(s, s.items[t])
    ensures Invariant(ClaimNext(s, r, t, purpose))
  {
    hide Claimants, ToldFits, ItemFits;
    var n, q, i := ClaimNext(s, r, t, purpose), Request(t, purpose, Claimed), ClaimNext(s, r, t, purpose).items[t];
    forall p | p in n.requests ensures RequestFits(n.items, p, n.requests[p]) {
      if p != r {
        assert RequestFits(s.items, p, s.requests[p]);
      }
    }
    forall u | u in n.items ensures ItemFits(n.requests, u, n.items[u]) {
      ClaimedItemFits(s, r, t, purpose, u);
    }
    SameTold(s, t, i);
  }

  lemma LeftItemFits(s: State, r: nat, u: nat)
    requires Invariant(s) && Enabled(s, Leave(r)) && u in s.items
    ensures ItemFits(Next(s, Leave(r)).requests, u, Next(s, Leave(r)).items[u])
  {
    hide Claimants, ToldFits;
    Facts(s, r);
    OneFewerClaimant(s.requests, r);
    assert ItemFits(s.requests, u, s.items[u]);
  }

  lemma LeaveHolds(s: State, r: nat)
    requires Invariant(s) && Enabled(s, Leave(r))
    ensures Invariant(Next(s, Leave(r)))
  {
    hide Claimants, ItemFits;
    var n := Next(s, Leave(r));
    Facts(s, r);
    forall p | p in n.requests ensures RequestFits(n.items, p, n.requests[p]) {
      assert RequestFits(s.items, p, s.requests[p]);
    }
    forall u | u in n.items ensures ItemFits(n.requests, u, n.items[u]) {
      LeftItemFits(s, r, u);
    }
    forall p | p in s.told ensures ToldFits(n.items, p, s.told[p]) {
      assert ToldFits(s.items, p, s.told[p]);
    }
  }

  lemma DoomHolds(s: State, fits: Item -> bool, cause: Cause)
    requires Invariant(s) && (cause == Idle ==> forall t :: t in s.items && fits(s.items[t]) ==> s.items[t].running == 0)
    ensures Invariant(s.(items := Doom(s.items, fits, cause)))
  {
    hide Claimants, Doom;
    var items := Doom(s.items, fits, cause);
    DoomAt(s.items, fits, cause);
    forall p | p in s.requests ensures RequestFits(items, p, s.requests[p]) {
      assert RequestFits(s.items, p, s.requests[p]);
    }
    forall u | u in items ensures ItemFits(s.requests, u, items[u]) {
      assert ItemFits(s.requests, u, s.items[u]);
    }
    forall p | p in s.told ensures ToldFits(items, p, s.told[p]) {
      assert ToldFits(s.items, p, s.told[p]);
    }
  }

  /** Every step keeps the invariant. */
  lemma StepHolds(s: State, step: Step)
    requires Invariant(s) && Enabled(s, step)
    ensures Invariant(Next(s, step))
  {
    hide Invariant, EndNext, ClaimNext, Doom;
    match step
    case Begin(t, user, connection) => BeginHolds(s, t, user, connection);
    case Claim(r, t, purpose) => ClaimHolds(s, r, t, purpose);
    case Lock(r) => LockHolds(s, r);
    case Execute(r) => ExecuteHolds(s, r);
    case Remove(r) => RemoveHolds(s, r);
    case End(r, report, effective) => EndHolds(s, r, report, effective);
    case Unlock(r) => UnlockHolds(s, r);
    case Leave(r) => LeaveHolds(s, r);
    case Reap => DoomHolds(s, ReapOne(s), Idle);
    case DeleteConnection(connection) => DoomHolds(s, OfConnection(connection), Deleted);
    case ForceRollback(_) => QuietHolds(s, step);
    case Lose(_) => QuietHolds(s, step);
    case Abort(_) => QuietHolds(s, step);
    case Pass(time) => PassHolds(s, time);
  }

  lemma PassHolds(s: State, time: nat)
    requires Invariant(s)
    ensures Invariant(s.(now := s.now + time))
  {
    hide ItemFits, RequestFits, ToldFits;
  }

  // ------------------------------------------------------------------
  // Whole runs.

  ghost predicate Run(s: State, steps: seq<Step>, t: State)
    decreases |steps|
  {
    if steps == [] then s == t else Enabled(s, steps[0]) && Run(Next(s, steps[0]), steps[1..], t)
  }

  lemma {:induction false} RunHolds(s: State, steps: seq<Step>, t: State)
    requires Invariant(s) && Run(s, steps, t)
    ensures Invariant(t)
    decreases |steps|
  {
    hide Invariant, Enabled, Next;
    if steps != [] {
      StepHolds(s, steps[0]);
      RunHolds(Next(s, steps[0]), steps[1..], t);
    }
  }

  lemma Reached(timeout: nat, steps: seq<Step>, t: State)
    requires Run(Start(timeout), steps, t)
    ensures Invariant(t)
  {
    hide Invariant, Run;
    StartHolds(timeout);
    RunHolds(Start(timeout), steps, t);
  }

  /** Main result: a transaction waiting for the reaper's rollback is claimed by no request, and can no longer be. */
  lemma ReaperSparesClaimed(timeout: nat, steps: seq<Step>, s: State, t: nat)
    requires Run(Start(timeout), steps, s) && t in s.items && s.items[t].doomed == Some(Idle)
    ensures forall r :: r in s.requests ==> s.requests[r].item != t
    ensures forall r, purpose :: !Enabled(s, Claim(r, t, purpose))
  {
    hide Run, ToldFits, RequestFits, Owned, HolderFits;
    Reached(timeout, steps, s);
    assert ItemFits(s.requests, t, s.items[t]);
    assert Claimants(s.requests, t) == {};
    forall r | r in s.requests ensures s.requests[r].item != t {
      assert r !in Claimants(s.requests, t);
    }
  }

  /** Main result: whatever races, the database sees at most one end of each transaction, and one
      that has left the registry without an end is in someone's hands to be ended. */
  lemma EndsExactlyOnce(timeout: nat, steps: seq<Step>, s: State, t: nat)
    requires Run(Start(timeout), steps, s) && t in s.items
    ensures s.items[t].ends == if s.items[t].ended then 1 else 0
    ensures !s.items[t].ended ==> s.items[t].effect == Pending
    ensures s.items[t].registered || s.items[t].ended || s.items[t].doomed.Some?
         || exists r :: r in s.requests && s.requests[r].item == t && s.requests[r].stage == Removed && s.items[t].holder == Some(r)
  {
    hide Run, ToldFits, RequestFits, Claimants;
    Reached(timeout, steps, s);
    assert ItemFits(s.requests, t, s.items[t]);
  }

  /** Main result: a request is told its commit succeeded only when that commit took effect, and at most one request is. */
  lemma CommitIsToldOnceAndTruly(timeout: nat, steps: seq<Step>, s: State, r: nat)
    requires Run(Start(timeout), steps, s) && r in s.told && s.told[r].CommitDone?
    ensures s.told[r].item in s.items && s.items[s.told[r].item].effect == Committed
    ensures forall q :: q in s.told && s.told[q] == s.told[r] ==> q == r
  {
    hide Run, RequestFits, Owned, HolderFits, Claimants;
    Reached(timeout, steps, s);
    var t := s.told[r].item;
    assert ToldFits(s.items, r, s.told[r]);
    assert ItemFits(s.requests, t, s.items[t]);
    forall q | q in s.told && s.told[q] == s.told[r] ensures q == r {
      assert ToldFits(s.items, q, s.told[q]);
    }
  }

  // ------------------------------------------------------------------
  // Answers to those who come second.

  ghost function After(s: State, steps: seq<Step>): State
    decreases |steps|
  {
    if steps == [] then s else After(Next(s, steps[0]), steps[1..])
  }

  /** The step sends the commit of q to the database, as the first end of t, and it takes effect there. */
  predicate CommitsNow(s: State, step: Step, q: nat, t: nat) {
    && step.End? && step.r == q && step.effective
    && q in s.requests && s.requests[q].item == t && s.requests[q].purpose == Finish(true)
    && t in s.items && HealthOf(s.items[t]) == Active
  }

  /** Step k of the run does that. */
  ghost predicate CommitsAt(timeout: nat, steps: seq<Step>, k: nat, q: nat, t: nat)
    requires k < |steps|
  {
    CommitsNow(After(Start(timeout), steps[..k]), steps[k], q, t)
  }

  ghost predicate SomeCommits(timeout: nat, steps: seq<Step>, t: nat) {
    exists k, q :: 0 <= k < |steps| && CommitsAt(timeout, steps, k, q, t)
  }

  predicate ToldOfCommit(told: map<nat, Told>, q: nat, t: nat) {
    q in told && (told[q] == CommitDone(t) || told[q] == FinishFailed)
  }

  /** The end of a finishing request commits its own transaction, or nothing; and tells that request. */
  lemma EndCommits(s: State, r: nat, report: Report, effective: bool, q: nat, t: nat)
    requires Invariant(s) && Enabled(s, End(r, report, effective))
    ensures var n, step := EndNext(s, r, report, effective), End(r, report, effective);
            && (CommitsNow(s, step, q, t) ==> t in n.items && n.items[t].effect == Committed && ToldOfCommit(n.told, q, t))
            && (t in n.items <==> t in s.items)
            && (t in n.items ==> (n.items[t].effect == Committed <==> s.items[t].effect == Committed || CommitsNow(s, step, r, t)))
            && (q in s.told ==> q in n.told && n.told[q] == s.told[q])
            && (forall p :: p in n.requests ==> ClaimedBefore(s, p, n.requests[p]))
  {
    hide Invariant, ToldFits, Claimants, HolderFits, Owned;
    Facts(s, r);
    EndsKnown(s, r);
  }

  lemma EndsKnown(s: State, r: nat)
    requires Invariant(s) && r in s.requests
    ensures ItemOf(s, r).ended <==> ItemOf(s, r).effect != Pending
  {
    hide Claimants;
    Facts(s, r);
  }

  predicate ClaimedBefore(s: State, r: nat, q: Request) {
    r in s.requests && s.requests[r].item == q.item && s.requests[r].purpose == q.purpose
  }

  /** No other step commits anything or tells anyone. */
  lemma OthersCommitNothing(s: State, step: Step, t: nat)
    requires Invariant(s) && Enabled(s, step) && !step.End?
    ensures var n := Next(s, step);
            && n.told == s.told
            && (t in s.items ==> t in n.items)
            && (t in n.items ==> (n.items[t].effect == Committed <==> t in s.items && s.items[t].effect == Committed))
  {
    hide EndNext, Claimants, HolderFits, Owned, ToldFits, RequestFits, Doom;
    if step.Reap? {
      DoomAt(s.items, ReapOne(s), Idle);
    } else if step.DeleteConnection? {
      DoomAt(s.items, OfConnection(step.connection), Deleted);
    }
    if t in s.items {
      assert ItemFits(s.requests, t, s.items[t]);
    }
  }

  /** A request under way was under way before, or claims its transaction now. */
  lemma OthersClaim(s: State, step: Step, q: nat)
    requires Enabled(s, step) && !step.End? && q in Next(s, step).requests
    ensures var n := Next(s, step);
            ClaimedBefore(s, q, n.requests[q]) || step == Claim(q, n.requests[q].item, n.requests[q].purpose)
  {
    hide EndNext, Doom;
  }

  /** What one step adds to the commits, the answers and the requests. */
  lemma OneStepCommits(s: State, step: Step, q: nat, t: nat)
    requires Invariant(s) && Enabled(s, step)
    ensures var n := Next(s, step);
            && (CommitsNow(s, step, q, t) ==> t in n.items && n.items[t].effect == Committed && ToldOfCommit(n.told, q, t))
            && (t in n.items && n.items[t].effect == Committed ==>
                 (t in s.items && s.items[t].effect == Committed) || (step.End? && CommitsNow(s, step, step.r, t)))
            && (t in s.items && s.items[t].effect == Committed ==> t in n.items && n.items[t].effect == Committed)
            && (q in s.told ==> q in n.told && n.told[q] == s.told[q])
            && (q in n.requests ==> ClaimedBefore(s, q, n.requests[q]) || step == Claim(q, n.requests[q].item, n.requests[q].purpose))
  {
    hide Invariant, EndNext, ClaimedBefore, ToldOfCommit, ClaimNext, Doom;
    if step.End? {
      EndCommits(s, step.r, step.report, step.effective, q, t);
    } else {
      OthersCommitNothing(s, step, t);
      if q in Next(s, step).requests {
        OthersClaim(s, step, q);
      }
    }
  }

  /** What a run has come to, told from its steps. */
  ghost predicate Traced(timeout: nat, steps: seq<Step>, s: State) {
    && (forall t :: t in s.items && s.items[t].effect == Committed ==> SomeCommits(timeout, steps, t))
    && (forall k, q, t :: 0 <= k < |steps| && CommitsAt(timeout, steps, k, q, t) ==>
          && t in s.items && s.items[t].effect == Committed && ToldOfCommit(s.told, q, t)
          && Claim(q, t, Finish(true)) in steps)
    && (forall q :: q in s.requests ==> Claim(q, s.requests[q].item, s.requests[q].purpose) in steps)
  }

  lemma {:induction false} LastOfRun(s: State, front: seq<Step>, last: Step, t: State)
    requires Run(s, front + [last], t)
    ensures Run(s, front, After(s, front)) && Enabled(After(s, front), last) && t == Next(After(s, front), last)
    decreases |front|
  {
    hide Enabled, Next;
    if front == [] {
      assert [] + [last] == [last] && [last][1..] == [];
      assert Run(Next(s, last), [], t);
    } else {
      assert (front + [last])[0] == front[0] && (front + [last])[1..] == front[1..] + [last];
      LastOfRun(Next(s, front[0]), front[1..], last, t);
    }
  }

  lemma NothingTraced(timeout: nat, s: State)
    requires Run(Start(timeout), [], s)
    ensures Traced(timeout, [], s)
  {
  }

  /** The commits of a longer run are those of the shorter one, and what the last step does. */
  lemma CommitsOfLonger(timeout: nat, front: seq<Step>, last: Step, k: nat, q: nat, t: nat)
    requires k <= |front|
    ensures CommitsAt(timeout, front + [last], k, q, t)
       <==> if k < |front| then CommitsAt(timeout, front, k, q, t) else CommitsNow(After(Start(timeout), front), last, q, t)
  {
    hide CommitsNow, After, Start;
    var steps := front + [last];
    assert steps[..k] == front[..k] && front[..|front|] == front;
  }

  lemma {:induction false} RunIsTraced(timeout: nat, steps: seq<Step>, s: State)
    requires Run(Start(timeout), steps, s)
    ensures Traced(timeout, steps, s)
    decreases |steps|
  {
    if steps == [] {
      NothingTraced(timeout, s);
    } else {
      hide Run, Traced;
      var n := |steps| - 1;
      var front, last := steps[..n], steps[n];
      assert front + [last] == steps;
      LastOfRun(Start(timeout), front, last, s);
      RunIsTraced(timeout, front, After(Start(timeout), front));
      Reached(timeout, front, After(Start(timeout), front));
      OneStepTraced(timeout, front, After(Start(timeout), front), last);
    }
  }

  lemma OneStepTraced(timeout: nat, front: seq<Step>, mid: State, last: Step)
    requires mid == After(Start(timeout), front) && Traced(timeout, front, mid) && Invariant(mid) && Enabled(mid, last)
    ensures Traced(timeout, front + [last], Next(mid, last))
  {
    hide Invariant, Enabled, Next, CommitsNow, CommitsAt, ToldOfCommit, After, Start;
    var steps, s := front + [last], Next(mid, last);
    forall t | t in s.items && s.items[t].effect == Committed ensures SomeCommits(timeout, steps, t) {
      OneStepCommits(mid, last, 0, t);
      if t in mid.items && mid.items[t].effect == Committed {
        var k, q :| 0 <= k < |front| && CommitsAt(timeout, front, k, q, t);
        CommitsOfLonger(timeout, front, last, k, q, t);
        assert CommitsAt(timeout, steps, k, q, t);
      } else {
        CommitsOfLonger(timeout, front, last, |front|, last.r, t);
        assert CommitsAt(timeout, steps, |front|, last.r, t);
      }
    }
    forall k, q, t | 0 <= k < |steps| && CommitsAt(timeout, steps, k, q, t)
      ensures t in s.items && s.items[t].effect == Committed && ToldOfCommit(s.told, q, t) && Claim(q, t, Finish(true)) in steps {
      OneStepCommits(mid, last, q, t);
      CommitsOfLonger(timeout, front, last, k, q, t);
      if k < |front| {
        StaysTold(mid, s, q, t);
        InFront(front, last, Claim(q, t, Finish(true)));
      } else {
        CommitterClaimed(mid, last, q, t);
        InFront(front, last, Claim(q, t, Finish(true)));
      }
    }
    forall q | q in s.requests ensures Claim(q, s.requests[q].item, s.requests[q].purpose) in steps {
      OneStepCommits(mid, last, q, 0);
    }
  }

  lemma StaysTold(mid: State, s: State, q: nat, t: nat)
    requires ToldOfCommit(mid.told, q, t) && (q in mid.told ==> q in s.told && s.told[q] == mid.told[q])
    ensures ToldOfCommit(s.told, q, t)
  {
  }

  lemma InFront(front: seq<Step>, last: Step, step: Step)
    requires step in front
    ensures step in front + [last]
  {
  }

  lemma CommitterClaimed(s: State, step: Step, q: nat, t: nat)
    requires CommitsNow(s, step, q, t)
    ensures q in s.requests && s.requests[q].item == t && s.requests[q].purpose == Finish(true)
  {
  }

  /** Main result: the answers that say a transaction was discarded, "lost" to a commit and "done" to a rollback, are true if
      and only if no commit of another request took effect; one that did was claimed, and its request was told of success or of
      a failure, not of a discard. So, while no other request claims the transaction to commit it, they are true. */
  lemma DiscardIsToldTrulyExactly(timeout: nat, steps: seq<Step>, s: State, r: nat)
    requires Run(Start(timeout), steps, s) && r in s.told && (s.told[r].CommitLost? || s.told[r].RollbackDone?)
    ensures var t := s.told[r].item;
            && t in s.items && s.items[t].ended
            && (s.items[t].effect == RolledBack <==> !OtherCommits(timeout, steps, s, r, t))
            && ((forall q :: q != r ==> Claim(q, t, Finish(true)) !in steps) ==> s.items[t].effect == RolledBack)
  {
    hide Run, RequestFits, Owned, HolderFits, Claimants, CommitsAt;
    var t := s.told[r].item;
    Reached(timeout, steps, s);
    RunIsTraced(timeout, steps, s);
    assert ToldFits(s.items, r, s.told[r]);
    assert ItemFits(s.requests, t, s.items[t]);
    if SomeCommits(timeout, steps, t) {
      var k, q :| 0 <= k < |steps| && CommitsAt(timeout, steps, k, q, t);
      assert OtherCommitsAt(timeout, steps, s, r, k, q, t);
    }
  }

  /** Step k of the run commits t for a request other than r, which claimed it for that, and was told of a commit. */
  ghost predicate OtherCommitsAt(timeout: nat, steps: seq<Step>, s: State, r: nat, k: nat, q: nat, t: nat)
    requires k < |steps|
  {
    q != r && CommitsAt(timeout, steps, k, q, t) && Claim(q, t, Finish(true)) in steps && ToldOfCommit(s.told, q, t)
  }

  ghost predicate OtherCommits(timeout: nat, steps: seq<Step>, s: State, r: nat, t: nat) {
    exists k, q :: 0 <= k < |steps| && OtherCommitsAt(timeout, steps, s, r, k, q, t)
  }

  // ------------------------------------------------------------------
  // The handle by itself.

  /** Main result: a handle whose Commit reports no error has committed if and only if the transaction
      had not been rolled back before; the state check before a Commit rules exactly that out. */
  lemma HandleReportsTrulyExactly(timeout: nat, steps: seq<Step>, s: State, t: nat, report: Report, effective: bool)
    requires Run(Start(timeout), steps, s) && t in s.items
    requires (report == Acked ==> effective) && Reports(s.items[t], report) == Acked
    ensures Commit(s.items[t], effective).effect == Committed <==> s.items[t].effect != RolledBack
    ensures HealthOf(s.items[t]) != Lost ==> s.items[t].effect == Pending && Commit(s.items[t], effective).effect == Committed
    ensures s.items[t].effect != Pending ==> HealthOf(s.items[t]) == Lost
  {
    hide Run, ToldFits, RequestFits, Claimants, HolderFits, Owned;
    Reached(timeout, steps, s);
    assert ItemFits(s.requests, t, s.items[t]);
  }

  function RollingBack(): seq<Step> {
    [Begin(0, "", ""), DeleteConnection(""), ForceRollback(0)]
  }

  function CommittingAlone(): seq<Step> {
    [Begin(0, "", ""), Claim(0, 0, Finish(true)), Lock(0), Remove(0), End(0, Acked, true)]
  }

  lemma OneStep(s: State, steps: seq<Step>, t: State)
    requires steps != [] && Enabled(s, steps[0]) && Run(Next(s, steps[0]), steps[1..], t)
    ensures Run(s, steps, t)
  {
    hide Enabled, Next;
  }

  lemma RollsBack(timeout: nat) returns (s: State)
    ensures Run(Start(timeout), RollingBack(), s) && 0 in s.items && s.items[0].ended && s.items[0].effect == RolledBack
  {
    var a := Next(Start(timeout), RollingBack()[0]);
    var b := Next(a, RollingBack()[1]);
    s := Next(b, RollingBack()[2]);
    assert Run(s, [], s);
    OneStep(b, [ForceRollback(0)], s);
    OneStep(a, [DeleteConnection(""), ForceRollback(0)], s);
    OneStep(Start(timeout), RollingBack(), s);
  }

  lemma Commits(timeout: nat) returns (t: State)
    ensures Run(Start(timeout), CommittingAlone(), t) && 0 in t.items && t.items[0].ended && t.items[0].effect == Committed
  {
    var c := Next(Start(timeout), CommittingAlone()[0]);
    var e := Next(c, CommittingAlone()[1]);
    var f := Next(e, CommittingAlone()[2]);
    var g := Next(f, CommittingAlone()[3]);
    t := Next(g, CommittingAlone()[4]);
    assert Run(t, [], t);
    OneStep(g, [End(0, Acked, true)], t);
    OneStep(f, [Remove(0), End(0, Acked, true)], t);
    OneStep(e, [Lock(0), Remove(0), End(0, Acked, true)], t);
    OneStep(c, [Claim(0, 0, Finish(true)), Lock(0), Remove(0), End(0, Acked, true)], t);
    OneStep(Start(timeout), CommittingAlone(), t);
  }

  /** Both kinds of ended transactions are reached, so both answers of such a handle occur. */
  lemma BothEndsAreReached(timeout: nat) returns (s: State, t: State)
    ensures Run(Start(timeout), RollingBack(), s) && 0 in s.items && s.items[0].ended && s.items[0].effect == RolledBack
    ensures Run(Start(timeout), CommittingAlone(), t) && 0 in t.items && t.items[0].ended && t.items[0].effect == Committed
  {
    hide Run, Start;
    s := RollsBack(timeout);
    t := Commits(timeout);
  }

  // ------------------------------------------------------------------
  // Losing a race.

  /** Request r and request q both wait for transaction t, q to commit it and r to end it. */
  predicate BothClaim(s: State, r: nat, q: nat, t: nat, commit: bool) {
    && r != q && r in s.requests && q in s.requests && r !in s.told && q !in s.told
    && s.requests[r] == Request(t, Finish(commit), Claimed) && s.requests[q] == Request(t, Finish(true), Claimed)
    && t in s.items && s.items[t].holder == None && HealthOf(s.items[t]) == Active
  }

  function Committing(q: nat): seq<Step> {
    [Lock(q), Remove(q), End(q, Acked, true), Unlock(q)]
  }

  function Finishing(r: nat): seq<Step> {
    [Lock(r), Remove(r), End(r, Failed, false)]
  }

  lemma FirstCommits(s: State, r: nat, q: nat, t: nat, commit: bool) returns (u: State)
    requires BothClaim(s, r, q, t, commit)
    ensures Run(s, Committing(q), u)
    ensures r in u.requests && u.requests[r] == s.requests[r] && u.told == s.told[q := CommitDone(t)]
    ensures t in u.items && u.items[t].holder == None && u.items[t].ended && u.items[t].effect == Committed
  {
    var a := Next(s, Lock(q));
    var b := Next(a, Remove(q));
    var c := Next(b, End(q, Acked, true));
    u := Next(c, Unlock(q));
    assert Run(u, [], u);
    OneStep(c, [Unlock(q)], u);
    OneStep(b, [End(q, Acked, true), Unlock(q)], u);
    OneStep(a, [Remove(q), End(q, Acked, true), Unlock(q)], u);
    OneStep(s, Committing(q), u);
  }

  lemma SecondIsDiscarded(u: State, r: nat, t: nat, commit: bool) returns (v: State)
    requires r in u.requests && r !in u.told && u.requests[r] == Request(t, Finish(commit), Claimed)
    requires t in u.items && u.items[t].holder == None && u.items[t].ended && u.items[t].effect == Committed
    ensures Run(u, Finishing(r), v)
    ensures v.told == u.told[r := if commit then CommitLost(t) else RollbackDone(t)]
    ensures t in v.items && v.items[t].effect == Committed
  {
    var a := Next(u, Lock(r));
    var b := Next(a, Remove(r));
    v := Next(b, End(r, Failed, false));
    assert Run(v, [], v);
    OneStep(b, [End(r, Failed, false)], v);
    OneStep(a, [Remove(r), End(r, Failed, false)], v);
    OneStep(u, Finishing(r), v);
  }

  /** Main result, the other half: wherever another request waits to commit the transaction, the answer can come out false. */
  lemma OtherClaimCanMislead(s: State, r: nat, q: nat, t: nat, commit: bool) returns (v: State)
    requires BothClaim(s, r, q, t, commit)
    ensures Run(s, Committing(q) + Finishing(r), v)
    ensures r in v.told && v.told[r] == if commit then CommitLost(t) else RollbackDone(t)
    ensures q in v.told && v.told[q] == CommitDone(t) && t in v.items && v.items[t].effect == Committed
  {
    hide Run;
    var u := FirstCommits(s, r, q, t, commit);
    v := SecondIsDiscarded(u, r, t, commit);
    RunThenRun(s, Committing(q), u, Finishing(r), v);
  }

  lemma {:induction false} RunThenRun(s: State, a: seq<Step>, t: State, b: seq<Step>, u: State)
    requires Run(s, a, t) && Run(t, b, u)
    ensures Run(s, a + b, u)
    decreases |a|
  {
    hide Enabled, Next;
    if a == [] {
      assert a + b == b;
    } else {
      assert (a + b)[0] == a[0] && (a + b)[1..] == a[1..] + b;
      RunThenRun(Next(s, a[0]), a[1..], t, b, u);
    }
  }

  function Claiming(commit: bool): seq<Step> {
    [Begin(0, "", ""), Claim(0, 0, Finish(true)), Claim(1, 0, Finish(commit))]
  }

  lemma BothCanClaim(timeout: nat, commit: bool) returns (s: State)
    ensures Run(Start(timeout), Claiming(commit), s) && BothClaim(s, 1, 0, 0, commit)
  {
    var a := Next(Start(timeout), Begin(0, "", ""));
    var b := Next(a, Claim(0, 0, Finish(true)));
    s := Next(b, Claim(1, 0, Finish(commit)));
    assert Run(s, [], s);
    OneStep(b, [Claim(1, 0, Finish(commit))], s);
    OneStep(a, [Claim(0, 0, Finish(true)), Claim(1, 0, Finish(commit))], s);
    OneStep(Start(timeout), Claiming(commit), s);
  }

  /** Such a state is reached, so both answers occur where they are false. */
  lemma LosingARaceIsToldAsDiscard(timeout: nat, commit: bool) returns (s: State)
    ensures Run(Start(timeout), Claiming(commit) + (Committing(0) + Finishing(1)), s)
    ensures 1 in s.told && s.told[1] == if commit then CommitLost(0) else RollbackDone(0)
    ensures 0 in s.told && s.told[0] == CommitDone(0) && 0 in s.items && s.items[0].effect == Committed
  {
    hide Run;
    var a := BothCanClaim(timeout, commit);
    s := OtherClaimCanMislead(a, 1, 0, 0, commit);
    RunThenRun(Start(timeout), Claiming(commit), a, Committing(0) + Finishing(1), s);
  }

  // ------------------------------------------------------------------
  // When a transaction expires.

  predicate IdlePast(s: State, t: nat)
    requires t in s.items
  {
    s.items[t].registered && s.items[t].running == 0 && s.now - s.items[t].lastUsed > s.timeout
  }

  lemma SweepExpires(s: State, step: Step, t: nat)
    requires t in s.items && s.items[t].doomed != Some(Idle) && (step.Reap? || step.DeleteConnection?)
    ensures t in Next(s, step).items && (Next(s, step).items[t].doomed == Some(Idle) <==> step.Reap? && IdlePast(s, t))
  {
    if step.Reap? {
      DoomAt(s.items, ReapOne(s), Idle);
    } else {
      DoomAt(s.items, OfConnection(step.connection), Deleted);
    }
  }

  lemma ClaimExpires(s: State, step: Step, t: nat)
    requires t in s.items && s.items[t].doomed != Some(Idle) && step.Claim? && Enabled(s, step)
    ensures t in Next(s, step).items && (Next(s, step).items[t].doomed == Some(Idle) <==> step.t == t && IdlePast(s, t))
  {
  }

  lemma EndSpares(s: State, step: Step, t: nat)
    requires t in s.items && s.items[t].doomed != Some(Idle) && step.End? && Enabled(s, step)
    ensures t in Next(s, step).items && Next(s, step).items[t].doomed != Some(Idle)
  {
  }

  lemma RestSpares(s: State, step: Step, t: nat)
    requires t in s.items && s.items[t].doomed != Some(Idle) && Enabled(s, step)
    requires !step.Reap? && !step.DeleteConnection? && !step.Claim? && !step.End?
    ensures t in Next(s, step).items && Next(s, step).items[t].doomed != Some(Idle)
  {
    hide EndNext, ClaimNext, Doom;
  }

  /** A transaction expires exactly when the reaper runs, or a request asks for it, after it has stood in the registry unclaimed and
      unused for longer than the timeout. */
  lemma ExpiresExactly(s: State, step: Step, t: nat)
    requires t in s.items && Enabled(s, step) && s.items[t].doomed != Some(Idle)
    ensures t in Next(s, step).items
    ensures Next(s, step).items[t].doomed == Some(Idle) <==>
              && (step.Reap? || (step.Claim? && step.t == t))
              && s.items[t].registered && s.items[t].running == 0 && s.now - s.items[t].lastUsed > s.timeout
  {
    hide Next, Enabled;
    if step.Reap? || step.DeleteConnection? {
      SweepExpires(s, step, t);
    } else if step.Claim? {
      ClaimExpires(s, step, t);
    } else if step.End? {
      EndSpares(s, step, t);
    } else {
      RestSpares(s, step, t);
    }
  }

  function Elapsed(steps: seq<Step>): nat {
    if steps == [] then 0 else (if steps[0].Pass? then steps[0].time else 0) + Elapsed(steps[1..])
  }

  lemma EndKeepsUse(s: State, step: Step, t: nat)
    requires step.End? && Enabled(s, step) && t in s.items
    ensures t in Next(s, step).items && Next(s, step).items[t].lastUsed == s.items[t].lastUsed
    ensures Next(s, step).timeout == s.timeout && Next(s, step).now == s.now
  {
  }

  lemma SweepKeepsUse(s: State, step: Step, t: nat)
    requires (step.Reap? || step.DeleteConnection?) && t in s.items
    ensures t in Next(s, step).items && Next(s, step).items[t].lastUsed == s.items[t].lastUsed
    ensures Next(s, step).timeout == s.timeout && Next(s, step).now == s.now
  {
    if step.Reap? {
      DoomAt(s.items, ReapOne(s), Idle);
    } else {
      DoomAt(s.items, OfConnection(step.connection), Deleted);
    }
  }

  lemma RestKeepsUse(s: State, step: Step, t: nat)
    requires Enabled(s, step) && t in s.items && s.items[t].lastUsed <= s.now && !step.Reap? && !step.DeleteConnection? && !step.End?
    ensures t in Next(s, step).items && s.items[t].lastUsed <= Next(s, step).items[t].lastUsed <= Next(s, step).now
    ensures Next(s, step).timeout == s.timeout && Next(s, step).now == s.now + (if step.Pass? then step.time else 0)
  {
    hide EndNext, Doom;
  }

  lemma UseIsKept(s: State, step: Step, t: nat)
    requires Enabled(s, step) && t in s.items && s.items[t].lastUsed <= s.now
    ensures t in Next(s, step).items && s.items[t].lastUsed <= Next(s, step).items[t].lastUsed <= Next(s, step).now
    ensures Next(s, step).timeout == s.timeout && Next(s, step).now == s.now + (if step.Pass? then step.time else 0)
  {
    hide Next, Enabled;
    if step.End? {
      EndKeepsUse(s, step, t);
    } else if step.Reap? || step.DeleteConnection? {
      SweepKeepsUse(s, step, t);
    } else {
      RestKeepsUse(s, step, t);
    }
  }

  /** Main result: whatever happens, a transaction does not expire within the timeout of its last use. */
  lemma {:induction false} RecentUseSurvives(s: State, steps: seq<Step>, u: State, t: nat)
    requires Run(s, steps, u) && t in s.items && s.items[t].doomed != Some(Idle)
    requires s.items[t].lastUsed <= s.now && s.now + Elapsed(steps) <= s.items[t].lastUsed + s.timeout
    ensures t in u.items && u.items[t].doomed != Some(Idle)
    decreases |steps|
  {
    hide Next, Enabled;
    if steps != [] {
      ExpiresExactly(s, steps[0], t);
      UseIsKept(s, steps[0], t);
      RecentUseSurvives(Next(s, steps[0]), steps[1..], u, t);
    }
  }
}
