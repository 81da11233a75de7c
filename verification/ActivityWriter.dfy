/** The buffered activity writer: requests queue records, one writer stores them in
    batches, a Flush waits behind a barrier, Close drains. Each step below is one
    atomic section of the program; a run is any interleaving of steps. */
module ActivityWriter {
  import opened AuditChain

  type History = string

  /** A barrier is a Flush's channel, named by a number of its own. */
  datatype Record = Audit(entry: Entry) | Ran(history: History) | Barrier(id: nat)

  /** A stored record, and whether a request wrote it around the queue. */
  datatype Kept = Kept(record: Record, direct: bool)

  datatype Phase = Idle | Collecting | Storing | Releasing | Finished

  const MAX_BATCH := 256

  /** senders hold the read lock; accepted, settled and lost are history, not program state. */
  datatype State = State(
    capacity: nat,
    queue: seq<Record>,
    sealed: bool,
    closed: bool,
    shutdown: bool,
    senders: map<nat, Record>,
    refused: map<nat, Record>,
    phase: Phase,
    batch: seq<Record>,
    cancelled: bool,
    released: set<nat>,
    stored: seq<Kept>,
    log: seq<Row>,
    history: seq<History>,
    accepted: seq<Record>,
    settled: seq<Record>,
    lost: bool)

  datatype Step =
    | Enter(p: nat, r: Record)   // take the read lock; a closed writer refuses at once
    | Send(p: nat)               // room in the queue
    | GiveUp(p: nat)             // shutdown began, or the queue stayed full
    | WriteDirect(p: nat)        // a refused record, stored by its own request
    | TakeFirst | Collect | EndCollect
    | StoreBatch | FailBatch | Abandon
    | ReleaseOne | NextBatch | Exit
    | BeginClose | Seal | Cancel

  function Start(capacity: nat): State {
    State(if capacity < 1 then 1 else capacity, [], false, false, false, map[], map[], Idle, [], false, {}, [], [], [], [], [], false)
  }

  // ------------------------------------------------------------------
  // What the writer hands to the backend.

  predicate HasData(r: Record) {
    !r.Barrier?
  }

  function Data(rs: seq<Record>): seq<Record> {
    if rs == [] then [] else Data(rs[..|rs| - 1]) + (if HasData(rs[|rs| - 1]) then [rs[|rs| - 1]] else [])
  }

  function Audits(rs: seq<Record>): seq<Entry> {
    if rs == [] then []
    else Audits(rs[..|rs| - 1]) + (if rs[|rs| - 1].Audit? then [rs[|rs| - 1].entry] else [])
  }

  function Histories(rs: seq<Record>): seq<History> {
    if rs == [] then []
    else Histories(rs[..|rs| - 1]) + (if rs[|rs| - 1].Ran? then [rs[|rs| - 1].history] else [])
  }

  method Gather(records: seq<Record>) returns (audits: seq<Entry>, histories: seq<History>)
    ensures audits == Audits(records) && histories == Histories(records)
  {
    audits, histories := [], [];
    for i := 0 to |records|
      invariant audits == Audits(records[..i]) && histories == Histories(records[..i])
    {
      assert records[..i + 1][..i] == records[..i];
      match records[i] {
        case Audit(entry) => audits := audits + [entry];
        case Ran(h) => histories := histories + [h];
        case Barrier(_) =>
      }
    }
    assert records[..|records|] == records;
  }

  function Mark(rs: seq<Record>, direct: bool): (r: seq<Kept>)
    ensures |r| == |rs| && forall i :: 0 <= i < |rs| ==> r[i] == Kept(rs[i], direct)
  {
    seq(|rs|, i requires 0 <= i < |rs| => Kept(rs[i], direct))
  }

  /** The records stored through the queue, or around it, in storing order. */
  function Through(stored: seq<Kept>, direct: bool): seq<Record> {
    if stored == [] then []
    else Through(stored[..|stored| - 1], direct) + (if stored[|stored| - 1].direct == direct then [stored[|stored| - 1].record] else [])
  }

  function Records(stored: seq<Kept>): (r: seq<Record>)
    ensures |r| == |stored|
  {
    seq(|stored|, i requires 0 <= i < |stored| => stored[i].record)
  }

  // ------------------------------------------------------------------
  // The steps.

  ghost predicate Enabled(s: State, step: Step) {
    match step
    case Enter(p, r) => p !in s.senders && p !in s.refused && (r.Barrier? ==> FreshBarrier(s, r.id))
    case Send(p) => p in s.senders && |s.queue| < s.capacity
    case GiveUp(p) => p in s.senders
    case WriteDirect(p) => p in s.refused
    case TakeFirst => s.phase == Idle && s.queue != []
    case Collect => s.phase == Collecting && |s.batch| < MAX_BATCH && s.queue != []
    case EndCollect => s.phase == Collecting
    case StoreBatch => s.phase == Storing
    case FailBatch => s.phase == Storing && Data(s.batch) != []
    case Abandon => s.phase == Storing && Data(s.batch) != [] && s.cancelled
    case ReleaseOne => s.phase == Releasing && s.batch != []
    case NextBatch => s.phase == Releasing && s.batch == []
    case Exit => s.phase == Idle && s.queue == [] && s.sealed
    case BeginClose => !s.shutdown
    case Seal => s.shutdown && !s.sealed && s.senders == map[]
    case Cancel => s.sealed
  }

  /** A Flush makes a new channel. */
  ghost predicate FreshBarrier(s: State, id: nat) {
    && Barrier(id) !in s.accepted && id !in s.released
    && (forall p :: p in s.senders ==> s.senders[p] != Barrier(id))
    && (forall p :: p in s.refused ==> s.refused[p] != Barrier(id))
  }

  function Drop<K, V>(m: map<K, V>, k: K): map<K, V> {
    m - {k}
  }

  function Next(s: State, step: Step): State {
    match step
    case Enter(p, r) => if s.closed then s.(refused := s.refused[p := r]) else s.(senders := s.senders[p := r])
    case Send(p) =>
      if p !in s.senders then s
      else s.(senders := Drop(s.senders, p), queue := s.queue + [s.senders[p]], accepted := s.accepted + [s.senders[p]])
    case GiveUp(p) =>
      if p !in s.senders then s
      else s.(senders := Drop(s.senders, p), refused := s.refused[p := s.senders[p]])
    case WriteDirect(p) =>
      if p !in s.refused then s
      else Store(s.(refused := Drop(s.refused, p)), [s.refused[p]], true)
    case TakeFirst => if s.queue == [] then s else s.(phase := Collecting, batch := [s.queue[0]], queue := s.queue[1..])
    case Collect => if s.queue == [] then s else s.(batch := s.batch + [s.queue[0]], queue := s.queue[1..])
    case EndCollect => s.(phase := Storing)
    case StoreBatch => Store(s, s.batch, false).(phase := Releasing)
    case FailBatch => s
    case Abandon => s.(phase := Releasing, lost := true)
    case ReleaseOne =>
      if s.batch == [] then s
      else s.(batch := s.batch[1..], settled := s.settled + [s.batch[0]],
              released := s.released + if s.batch[0].Barrier? then {s.batch[0].id} else {})
    case NextBatch => s.(phase := Idle)
    case Exit => s.(phase := Finished)
    case BeginClose => s.(shutdown := true)
    case Seal => s.(closed := true, sealed := true)
    case Cancel => s.(cancelled := true)
  }

  /** One transaction of the backend. */
  function Store(s: State, rs: seq<Record>, direct: bool): State {
    s.(stored := s.stored + Mark(Data(rs), direct),
       log := AppendAll(s.log, Audits(rs)),
       history := s.history + Histories(rs))
  }

  // ------------------------------------------------------------------
  // What every step keeps.

  ghost predicate Invariant(s: State) {
    && s.accepted == s.settled + s.batch + s.queue
    && (s.phase == Idle || s.phase == Finished ==> s.batch == [])
    && |s.queue| <= s.capacity && |s.batch| <= MAX_BATCH
    && (s.sealed <==> s.closed) && (s.sealed ==> s.shutdown && s.senders == map[])
    && (s.phase == Finished ==> s.sealed && s.queue == [])
    && (s.cancelled ==> s.sealed) && (s.lost ==> s.cancelled)
    && (forall id :: id in s.released <==> Barrier(id) in s.settled)
    && (!s.lost ==> Through(s.stored, false) == Data(if s.phase == Releasing then s.settled + s.batch else s.settled))
    && s.log == AppendAll([], Audits(Records(s.stored)))
    && s.history == Histories(Records(s.stored))
  }

  /** Barriers are told apart by their numbers. */
  ghost predicate Distinct(s: State) {
    && (forall i, j :: 0 <= i < j < |s.accepted| && s.accepted[i].Barrier? ==> s.accepted[i] != s.accepted[j])
    && (forall p :: p in s.senders && s.senders[p].Barrier? ==> s.senders[p] !in s.accepted)
    && (forall p, q :: p in s.senders && q in s.senders && p != q && s.senders[p].Barrier? ==> s.senders[p] != s.senders[q])
  }

  lemma {:induction false} DataConcat(a: seq<Record>, b: seq<Record>)
    ensures Data(a + b) == Data(a) + Data(b)
    ensures Audits(a + b) == Audits(a) + Audits(b)
    ensures Histories(a + b) == Histories(a) + Histories(b)
    decreases |b|
  {
    if b == [] {
      assert a + b == a;
    } else {
      var front := b[..|b| - 1];
      assert (a + b)[..|a + b| - 1] == a + front;
      DataConcat(a, front);
    }
  }

  lemma LastRecord(rs: seq<Record>, r: Record)
    ensures Data(rs + [r]) == Data(rs) + (if HasData(r) then [r] else [])
    ensures Audits(rs + [r]) == Audits(rs) + (if r.Audit? then [r.entry] else [])
    ensures Histories(rs + [r]) == Histories(rs) + (if r.Ran? then [r.history] else [])
  {
    assert (rs + [r])[..|rs|] == rs;
  }

  lemma {:induction false} DataOnly(rs: seq<Record>)
    ensures Audits(Data(rs)) == Audits(rs) && Histories(Data(rs)) == Histories(rs)
    decreases |rs|
  {
    if rs != [] {
      var front, last := rs[..|rs| - 1], rs[|rs| - 1];
      DataOnly(front);
      LastRecord(Data(front), last);
      if !HasData(last) {
        assert Data(front) + [] == Data(front);
      }
    }
  }

  lemma ThroughLast(stored: seq<Kept>, k: Kept, which: bool)
    ensures Through(stored + [k], which) == Through(stored, which) + (if k.direct == which then [k.record] else [])
  {
    assert (stored + [k])[..|stored|] == stored;
  }

  lemma {:induction false} ThroughConcat(a: seq<Kept>, rs: seq<Record>, direct: bool, which: bool)
    ensures Through(a + Mark(rs, direct), which) == Through(a, which) + (if direct == which then rs else [])
    decreases |rs|
  {
    hide Through;
    if rs == [] {
      assert a + Mark(rs, direct) == a;
    } else {
      var front, last := rs[..|rs| - 1], rs[|rs| - 1];
      ThroughConcat(a, front, direct, which);
      assert a + Mark(rs, direct) == (a + Mark(front, direct)) + [Kept(last, direct)];
      ThroughLast(a + Mark(front, direct), Kept(last, direct), which);
      assert front + [last] == rs;
      assert Through(a, which) + [] + [] == Through(a, which) + [];
      assert Through(a, which) + front + [last] == Through(a, which) + (front + [last]);
    }
  }

  /** A transaction keeps the log and the history in step with what is stored. */
  lemma StoreKeepsBackend(s: State, rs: seq<Record>, direct: bool)
    requires s.log == AppendAll([], Audits(Records(s.stored))) && s.history == Histories(Records(s.stored))
    ensures var t := Store(s, rs, direct); t.log == AppendAll([], Audits(Records(t.stored))) && t.history == Histories(Records(t.stored))
  {
    hide AppendAll, Data, Audits, Histories;
    var t := Store(s, rs, direct);
    assert Records(t.stored) == Records(s.stored) + Data(rs);
    DataConcat(Records(s.stored), Data(rs));
    DataOnly(rs);
    AppendInTwo([], Audits(Records(s.stored)), Audits(rs));
  }

  lemma StartHolds(capacity: nat)
    ensures Invariant(Start(capacity)) && Distinct(Start(capacity))
  {
  }

  lemma StoreHolds(s: State)
    requires Invariant(s) && s.phase == Storing
    ensures Invariant(Next(s, StoreBatch))
  {
    hide AppendAll, Data, Audits, Histories, Through, Records;
    StoreKeepsBackend(s, s.batch, false);
    ThroughConcat(s.stored, Data(s.batch), false, false);
    DataConcat(s.settled, s.batch);
  }

  lemma DirectHolds(s: State, p: nat)
    requires Invariant(s) && p in s.refused
    ensures Invariant(Next(s, WriteDirect(p)))
  {
    hide AppendAll, Data, Audits, Histories, Through, Records;
    StoreKeepsBackend(s, [s.refused[p]], true);
    ThroughConcat(s.stored, Data([s.refused[p]]), true, false);
    assert Through(s.stored, false) + [] == Through(s.stored, false);
  }

  lemma QueueHolds(s: State, step: Step)
    requires Invariant(s) && Enabled(s, step) && (step.Enter? || step.Send? || step.GiveUp? || step.TakeFirst? || step.Collect?)
    ensures Invariant(Next(s, step))
  {
    hide AppendAll, Data, Audits, Histories, Through, Records, FreshBarrier;
  }

  lemma ReleaseHolds(s: State)
    requires Invariant(s) && s.phase == Releasing && s.batch != []
    ensures Invariant(Next(s, ReleaseOne))
  {
    hide AppendAll, Data, Audits, Histories, Through, Records;
    var t := Next(s, ReleaseOne);
    assert t.settled + t.batch == s.settled + s.batch;
    assert t.settled + t.batch + t.queue == s.settled + s.batch + s.queue;
  }

  /** Every step keeps the invariant. */
  lemma StepHolds(s: State, step: Step)
    requires Invariant(s) && Enabled(s, step)
    ensures Invariant(Next(s, step))
  {
    hide AppendAll, Data, Audits, Histories, Through, Records, Store, FreshBarrier;
    match step
    case StoreBatch => StoreHolds(s);
    case WriteDirect(p) => DirectHolds(s, p);
    case Enter(_, _) => QueueHolds(s, step);
    case Send(_) => QueueHolds(s, step);
    case GiveUp(_) => QueueHolds(s, step);
    case TakeFirst => QueueHolds(s, step);
    case Collect => QueueHolds(s, step);
    case ReleaseOne => ReleaseHolds(s);
    case NextBatch => assert s.settled + s.batch == s.settled;
    case _ =>
  }

  lemma StoringKeepsSenders(s: State, rs: seq<Record>, direct: bool)
    ensures Store(s, rs, direct).accepted == s.accepted && Store(s, rs, direct).senders == s.senders
  {
    hide AppendAll, Data, Audits, Histories, Mark;
  }

  /** Only entering adds a sender, and only sending adds to what was accepted. */
  lemma WhoIsWaiting(s: State, step: Step)
    ensures var t := Next(s, step);
            && (step.Send? && step.p in s.senders ==> t.accepted == s.accepted + [s.senders[step.p]] && t.senders == Drop(s.senders, step.p))
            && (!step.Send? ==> t.accepted == s.accepted)
            && (step.Enter? ==> t.senders == s.senders || t.senders == s.senders[step.p := step.r])
            && (step.GiveUp? ==> t.senders == s.senders || t.senders == Drop(s.senders, step.p))
            && (!step.Enter? && !step.Send? && !step.GiveUp? ==> t.senders == s.senders)
  {
    hide Store, Drop;
    match step
    case WriteDirect(p) =>
      if p in s.refused {
        StoringKeepsSenders(s.(refused := Drop(s.refused, p)), [s.refused[p]], true);
      }
    case StoreBatch => StoringKeepsSenders(s, s.batch, false);
    case _ =>
  }

  lemma StepKeepsBarriersApart(s: State, step: Step)
    requires Invariant(s) && Distinct(s) && Enabled(s, step)
    ensures Distinct(Next(s, step))
  {
    hide AppendAll, Data, Audits, Histories, Through, Records, Invariant, Next;
    WhoIsWaiting(s, step);
  }

  // ------------------------------------------------------------------
  // Whole runs.

  ghost predicate Run(s: State, steps: seq<Step>, t: State)
    decreases |steps|
  {
    if steps == [] then s == t else Enabled(s, steps[0]) && Run(Next(s, steps[0]), steps[1..], t)
  }

  lemma {:induction false} RunHolds(s: State, steps: seq<Step>, t: State)
    requires Invariant(s) && Distinct(s) && Run(s, steps, t)
    ensures Invariant(t) && Distinct(t)
    decreases |steps|
  {
    hide Invariant, Distinct, Enabled, Next;
    if steps != [] {
      StepHolds(s, steps[0]);
      StepKeepsBarriersApart(s, steps[0]);
      RunHolds(Next(s, steps[0]), steps[1..], t);
    }
  }

  lemma Reached(capacity: nat, steps: seq<Step>, t: State)
    requires Run(Start(capacity), steps, t)
    ensures Invariant(t) && Distinct(t)
  {
    hide Invariant, Distinct, Run;
    StartHolds(capacity);
    RunHolds(Start(capacity), steps, t);
  }

  /** Main result: after any interleaving, what was accepted is what is stored, in the batch or in the queue, in
      order; and while no batch was abandoned each accepted record is stored exactly once, in that order. */
  lemma NothingIsLostOrReordered(capacity: nat, steps: seq<Step>, t: State)
    requires Run(Start(capacity), steps, t) && !t.lost
    ensures Data(t.accepted) == Through(t.stored, false) + Data((if t.phase == Releasing then [] else t.batch) + t.queue)
    ensures |t.queue| <= t.capacity && |t.batch| <= 256
  {
    hide Run, Data, Through, AppendAll, Audits, Histories, Records;
    Reached(capacity, steps, t);
    var done := if t.phase == Releasing then t.settled + t.batch else t.settled;
    var pending := (if t.phase == Releasing then [] else t.batch) + t.queue;
    assert t.accepted == done + pending;
    DataConcat(done, pending);
  }

  /** A barrier the writer released comes after nothing that is not stored. */
  lemma BarrierComesAfterStorage(capacity: nat, steps: seq<Step>, t: State, i: nat)
    requires Run(Start(capacity), steps, t) && !t.lost
    requires i < |t.accepted| && t.accepted[i].Barrier? && t.accepted[i].id in t.released
    ensures Data(t.accepted[..i]) <= Through(t.stored, false)
  {
    hide Run, Data, Through, AppendAll, Audits, Histories, Records;
    Reached(capacity, steps, t);
    var k :| 0 <= k < |t.settled| && t.settled[k] == t.accepted[i];
    assert t.accepted[k] == t.settled[k];
    assert k == i;
    var done := if t.phase == Releasing then t.settled + t.batch else t.settled;
    assert done == t.accepted[..i] + done[i..];
    DataConcat(t.accepted[..i], done[i..]);
  }

  /** A sender inside the read lock never meets a closed channel. */
  lemma NothingIsSentOnAClosedChannel(capacity: nat, steps: seq<Step>, t: State, p: nat)
    requires Run(Start(capacity), steps, t) && Enabled(t, Send(p))
    ensures !t.sealed
  {
    hide Run, Data, Through, AppendAll, Audits, Histories, Records;
    Reached(capacity, steps, t);
  }

  /** When the writer stops by itself, everything accepted is stored. */
  lemma CloseDrains(capacity: nat, steps: seq<Step>, t: State)
    requires Run(Start(capacity), steps, t) && !t.lost && t.phase == Finished
    ensures Through(t.stored, false) == Data(t.accepted) && t.closed
    ensures forall p :: !Enabled(t, Send(p))
  {
    hide Run, Data, Through, AppendAll, Audits, Histories, Records;
    Reached(capacity, steps, t);
    assert t.settled + [] + [] == t.settled;
  }

  /** The audit log depends on the order of storing alone: not on batches, failed attempts or which path a record took. */
  lemma LogDependsOnOrderOnly(capacity: nat, steps: seq<Step>, t: State)
    requires Run(Start(capacity), steps, t)
    ensures t.log == AppendAll([], Audits(Records(t.stored))) && t.history == Histories(Records(t.stored))
    ensures forall org :: org != "" ==> Intact(OfOrg(t.log, org))
  {
    hide Run, Data, Through, AppendAll, Audits, Histories, Records, OfOrg, FirstBad;
    Reached(capacity, steps, t);
    forall org | org != "" ensures Intact(OfOrg(t.log, org)) {
      WrittenChainsAreIntact(Audits(Records(t.stored)), org);
    }
  }
}
