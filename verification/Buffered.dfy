/** The buffered writer's atomic sections in place: each method changes the
    fields the program changes, and is one step of the protocol. */
module Buffered {
  import opened Prelude
  import opened AuditChain
  import opened ActivityWriter

  function Repeat(step: Step, k: nat): seq<Step> {
    if k == 0 then [] else [step] + Repeat(step, k - 1)
  }

  lemma FirstIsThere(s: State)
    requires s.phase == Idle && s.queue != []
    ensures Enabled(s, TakeFirst)
  {
  }

  lemma EndOfCollecting(s: State)
    requires s.phase == Collecting
    ensures Enabled(s, EndCollect) && Next(s, EndCollect) == s.(phase := Storing)
  {
  }

  lemma MoreAccepted(queue: seq<Record>, first: seq<Record>, second: seq<Record>, third: seq<Record>)
    requires first <= second <= third
    ensures queue + second[|first|..] + third[|second|..] == queue + third[|first|..]
  {
  }

  lemma OneStepIsARun(s: State, step: Step)
    requires Enabled(s, step)
    ensures Run(s, [step], Next(s, step))
  {
    hide Enabled, Next;
    assert [step][1..] == [];
  }

  lemma {:induction false} RunThen(s: State, steps: seq<Step>, t: State, step: Step)
    requires Run(s, steps, t) && Enabled(t, step)
    ensures Run(s, steps + [step], Next(t, step))
    decreases |steps|
  {
    hide Enabled, Next;
    if steps == [] {
      assert [] + [step] == [step];
      OneStepIsARun(s, step);
    } else {
      assert (steps + [step])[1..] == steps[1..] + [step];
      RunThen(Next(s, steps[0]), steps[1..], t, step);
    }
  }

  /** Releasing a batch is a run of single releases. */
  lemma {:induction false} ReleasingIsARun(s: State, t: State)
    requires s.phase == Releasing && t == s.(batch := [], settled := s.settled + s.batch, released := t.released)
    requires forall id :: id in t.released <==> id in s.released || Barrier(id) in s.batch
    ensures Run(s, Repeat(ReleaseOne, |s.batch|), t)
    decreases |s.batch|
  {
    if s.batch == [] {
      assert s.settled + s.batch == s.settled && s.released == t.released;
    } else {
      var u := Next(s, ReleaseOne);
      assert s.batch == [s.batch[0]] + u.batch;
      assert u.settled + u.batch == s.settled + s.batch;
      ReleasingIsARun(u, t);
      assert Repeat(ReleaseOne, |s.batch|)[1..] == Repeat(ReleaseOne, |u.batch|);
    }
  }

  /** What storing a batch, or giving it up, makes of a state. */
  lemma StoredIsNext(s: State)
    ensures Next(s, Abandon) == s.(phase := Releasing, lost := true)
    ensures Next(s, StoreBatch) == s.(stored := s.stored + Mark(Data(s.batch), false), log := AppendAll(s.log, Audits(s.batch)),
                                      history := s.history + Histories(s.batch), phase := Releasing)
  {
    hide AppendAll, Data, Audits, Histories, Mark;
  }

  class Buffer {
    const capacity: nat
    const backend: Log<History>
    var queue: seq<Record>
    var sealed: bool
    var closed: bool
    var shutdown: bool
    var senders: map<nat, Record>
    var refused: map<nat, Record>
    var phase: Phase
    var batch: seq<Record>
    var cancelled: bool
    var released: set<nat>
    ghost var stored: seq<Kept>
    ghost var accepted: seq<Record>
    ghost var settled: seq<Record>
    ghost var lost: bool

    ghost function View(): State
      reads this, backend
    {
      State(capacity, queue, sealed, closed, shutdown, senders, refused, phase, batch, cancelled, released,
            stored, backend.rows, backend.history, accepted, settled, lost)
    }

    constructor (size: nat)
      ensures View() == Start(size)
    {
      capacity := if size < 1 then 1 else size;
      backend := new Log<History>();
      queue, sealed, closed, shutdown, senders, refused := [], false, false, false, map[], map[];
      phase, batch, cancelled, released := Idle, [], false, {};
      stored, accepted, settled, lost := [], [], [], false;
    }

    /** Taking the read lock: a closed writer takes nothing. */
    method EnterEnqueue(p: nat, r: Record) returns (inside: bool)
      modifies this
      ensures View() == Next(old(View()), Enter(p, r)) && inside == !old(closed)
    {
      if closed {
        refused := refused[p := r];
        return false;
      }
      senders := senders[p := r];
      inside := true;
    }

    /** The channel send, when there is room. */
    method TrySend(p: nat) returns (sent: bool)
      requires p in senders
      modifies this
      ensures sent == (|old(queue)| < capacity)
      ensures View() == if sent then Next(old(View()), Send(p)) else old(View())
      ensures phase == old(phase) && batch == old(batch) && sealed == old(sealed)
      ensures queue == old(queue) + (if sent then [old(senders)[p]] else [])
      ensures accepted == old(accepted) + (if sent then [old(senders)[p]] else [])
    {
      sent := |queue| < capacity;
      if sent {
        queue := queue + [senders[p]];
        accepted := accepted + [senders[p]];
        senders := senders - {p};
      }
    }

    method StopWaiting(p: nat)
      requires p in senders
      modifies this
      ensures View() == Next(old(View()), GiveUp(p))
    {
      refused := refused[p := senders[p]];
      senders := senders - {p};
    }

    /** A refused record is written by its own request, alone. */
    method WriteAround(p: nat, fault: Fault) returns (ok: bool)
      requires p in refused
      modifies this, backend
      ensures fault == NoFault ==> ok
      ensures View() == if ok then Next(old(View()), WriteDirect(p)) else old(View())
    {
      hide AppendAll, Data;
      var audits, histories := Gather([refused[p]]);
      ok := backend.WriteActivity(audits, histories, fault);
      if ok {
        stored := stored + Mark(Data([refused[p]]), true);
        refused := refused - {p};
      }
    }

    method ReceiveFirst()
      requires queue != []
      modifies this`phase, this`batch, this`queue
      ensures phase == Collecting && batch == [old(queue)[0]] && queue == old(queue)[1..]
      ensures View() == Next(old(View()), TakeFirst)
    {
      phase, batch, queue := Collecting, [queue[0]], queue[1..];
    }

    method ReceiveNext()
      requires queue != []
      modifies this`batch, this`queue
      ensures batch == old(batch) + [old(queue)[0]] && queue == old(queue)[1..]
      ensures View() == Next(old(View()), Collect)
    {
      batch, queue := batch + [queue[0]], queue[1..];
    }

    /** One turn of the collecting loop: a request gets its record into the queue, or the writer receives. */
    method Turn(turn: Option<nat>) returns (ghost step: Option<Step>)
      requires phase == Collecting && |batch| < MAX_BATCH
      modifies this
      ensures phase == Collecting && |old(batch)| <= |batch| <= |old(batch)| + 1
      ensures old(accepted) <= accepted && batch + queue == old(batch) + old(queue) + accepted[|old(accepted)|..]
      ensures step.None? ==> View() == old(View())
      ensures step.Some? ==> Enabled(old(View()), step.value) && View() == Next(old(View()), step.value)
    {
      hide Next;
      step := None;
      if turn.None? {
        if queue != [] {
          ReceiveNext();
          step := Some(Collect);
          assert batch + queue == old(batch) + old(queue);
        }
      } else if turn.value in senders {
        var sent := TrySend(turn.value);
        step := if sent then Some(Send(turn.value)) else None;
        assert accepted[|old(accepted)|..] == queue[|old(queue)|..];
      }
    }

    /** The writer's collecting loop: it ends when the batch is full, the closed queue is empty, or the window is over. */
    method CollectBatch(turns: seq<Option<nat>>) returns (ghost steps: seq<Step>)
      requires phase == Idle && queue != []
      modifies this
      ensures phase == Storing && 0 < |batch| <= 256
      ensures old(accepted) <= accepted && batch + queue == old(queue) + accepted[|old(accepted)|..]
      ensures Run(old(View()), steps, View())
    {
      hide Run, Next, Enabled;
      assert Enabled(View(), TakeFirst) by { FirstIsThere(View()); }
      OneStepIsARun(View(), TakeFirst);
      steps := [TakeFirst];
      ReceiveFirst();
      for i := 0 to |turns|
        invariant phase == Collecting && 0 < |batch| <= MAX_BATCH
        invariant old(accepted) <= accepted && batch + queue == old(queue) + accepted[|old(accepted)|..]
        invariant Run(old(View()), steps, View())
      {
        if |batch| == MAX_BATCH || (queue == [] && sealed) {
          break;
        }
        ghost var before := View();
        ghost var step := Turn(turns[i]);
        MoreAccepted(old(queue), old(accepted), before.accepted, accepted);
        if step.Some? {
          RunThen(old(View()), steps, before, step.value);
          steps := steps + [step.value];
        }
      }
      ghost var before := View();
      EndOfCollecting(before);
      RunThen(old(View()), steps, before, EndCollect);
      phase := Storing;
      steps := steps + [EndCollect];
    }

    /** Attempts until one succeeds, the writer is cancelled, or the given attempts are used up: a
        failed attempt leaves no trace, so a batch is never stored in part or twice. */
    method StoreRecords(faults: seq<Fault>) returns (ok: bool)
      requires phase == Storing
      modifies this, backend
      ensures (exists i :: 0 <= i < |faults| && faults[i] == NoFault) && !cancelled ==> ok
      ensures ok ==> View() == Next(old(View()), StoreBatch)
      ensures !ok ==> View() == if cancelled && |faults| > 0 then Next(old(View()), Abandon) else old(View())
    {
      hide AppendAll, Data, Audits, Histories, Next, Mark;
      StoredIsNext(View());
      var audits, histories := Gather(batch);
      ok := false;
      for i := 0 to |faults|
        invariant unchanged(this) && !(cancelled && i > 0)
        invariant backend.rows == old(backend.rows) && backend.history == old(backend.history)
        invariant forall k :: 0 <= k < i ==> faults[k] != NoFault
        invariant !ok
      {
        ok := backend.WriteActivity(audits, histories, faults[i]);
        if ok {
          stored := stored + Mark(Data(batch), false);
          phase := Releasing;
          return true;
        }
        if cancelled {
          lost, phase := true, Releasing;
          return false;
        }
      }
    }

    /** After a batch: every barrier in it is released. */
    method ReleaseBarriers()
      requires phase == Releasing
      modifies this
      ensures phase == Idle && batch == []
      ensures settled == old(settled) + old(batch)
      ensures forall id :: id in released <==> id in old(released) || Barrier(id) in old(batch)
      ensures View() == old(View()).(phase := Idle, batch := [], settled := settled, released := released)
    {
      var ids: set<nat> := {};
      for i := 0 to |batch|
        invariant forall id :: id in ids <==> Barrier(id) in batch[..i]
      {
        assert batch[..i + 1] == batch[..i] + [batch[i]];
        if batch[i].Barrier? {
          ids := ids + {batch[i].id};
        }
      }
      assert batch[..|batch|] == batch;
      released := released + ids;
      settled, batch, phase := settled + batch, [], Idle;
    }

    method BeginShutdown()
      modifies this
      ensures View() == Next(old(View()), BeginClose)
    {
      shutdown := true;
    }

    /** Under the write lock, so with no sender inside. */
    method SealQueue()
      requires senders == map[]
      modifies this
      ensures View() == Next(old(View()), Seal)
    {
      closed, sealed := true, true;
    }
  }
}
