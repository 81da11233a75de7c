/** Starting due queries: the next run is stored first, and a query that is
    running is not started again. Each step is one critical section or one store write. */
module Scheduler {
  import opened Prelude
  import S = Schedule

  const TICK := 15 * S.SECOND

  datatype Trigger = Scheduled(due: int) | Manual

  datatype Query = Query(spec: S.Spec, enabled: bool, catchUp: bool, nextRun: Option<int>)

  datatype Run = Run(query: nat, trigger: Trigger, finished: bool)

  /** running is the program's map; runs is every run ever started. */
  datatype State = State(queries: map<nat, Query>, running: set<nat>, stopped: bool, runs: seq<Run>)

  datatype Step =
    | Add(q: nat, query: Query)
    | Due(q: nat, now: int, next: int, stored: bool)   // one turn of startDueSchedules
    | RunNow(q: nat)
    | Finish(r: nat)
    | Stop

  function Start(): State {
    State(map[], {}, false, [])
  }

  ghost predicate Enabled(s: State, step: Step) {
    match step
    case Add(q, query) => q !in s.queries && S.ClockParsed(query.spec.clock)
    case Due(q, now, next, _) =>
      && q in s.queries && IsDue(s.queries[q], now)
      && now < next
    case RunNow(q) => q in s.queries
    case Finish(r) => r < |s.runs| && !s.runs[r].finished
    case Stop => true
  }

  predicate IsDue(q: Query, now: int) {
    q.enabled && q.nextRun.Some? && q.nextRun.value <= now
  }

  /** startScheduled: refused while the query is running or the scheduler has stopped. */
  function Launch(s: State, q: nat, trigger: Trigger): State {
    if q in s.running || s.stopped then s
    else s.(running := s.running + {q}, runs := s.runs + [Run(q, trigger, false)])
  }

  /** A missed run is skipped unless the query asks to catch up. */
  predicate Missed(q: Query, now: int)
    requires q.nextRun.Some?
  {
    now - q.nextRun.value > 2 * TICK && !q.catchUp
  }

  function DueNext(s: State, q: nat, now: int, next: int, stored: bool): State
    requires q in s.queries && s.queries[q].nextRun.Some?
  {
    var query := s.queries[q];
    if !stored then s
    else
      var advanced := s.(queries := s.queries[q := query.(nextRun := Some(next))]);
      if Missed(query, now) then advanced else Launch(advanced, q, Scheduled(query.nextRun.value))
  }

  function Next(s: State, step: Step): State {
    match step
    case Add(q, query) => s.(queries := s.queries[q := query])
    case Due(q, now, next, stored) =>
      if q in s.queries && s.queries[q].nextRun.Some? then DueNext(s, q, now, next, stored) else s
    case RunNow(q) => Launch(s, q, Manual)
    case Finish(r) =>
      if r >= |s.runs| then s
      else s.(runs := s.runs[r := s.runs[r].(finished := true)], running := s.running - {s.runs[r].query})
    case Stop => s.(stopped := true)
  }

  // ------------------------------------------------------------------
  // What every step keeps.

  /** A scheduled run was started for a due time the query has already left behind. */
  predicate Spent(s: State, r: Run) {
    r.trigger.Scheduled? ==>
      r.query in s.queries && s.queries[r.query].nextRun.Some? && r.trigger.due < s.queries[r.query].nextRun.value
  }

  ghost predicate Invariant(s: State) {
    && (forall i :: 0 <= i < |s.runs| ==> Spent(s, s.runs[i]))
    && (forall i, j :: 0 <= i < j < |s.runs| && s.runs[i].query == s.runs[j].query && s.runs[i].trigger.Scheduled? && s.runs[j].trigger.Scheduled?
          ==> s.runs[i].trigger.due < s.runs[j].trigger.due)
    && (forall q :: q in s.running <==> Running(s, q))
    && (forall i, j :: 0 <= i < j < |s.runs| && s.runs[i].query == s.runs[j].query ==> s.runs[i].finished || s.runs[j].finished)
    && (forall i :: 0 <= i < |s.runs| ==> s.runs[i].query in s.queries)
  }

  predicate Running(s: State, q: nat) {
    exists i :: 0 <= i < |s.runs| && s.runs[i].query == q && !s.runs[i].finished
  }

  lemma StartHolds()
    ensures Invariant(Start())
  {
  }

  lemma LaunchHolds(s: State, q: nat, trigger: Trigger)
    requires Invariant(s) && q in s.queries
    requires trigger.Scheduled? ==> Spent(s, Run(q, trigger, false))
    requires trigger.Scheduled? ==>
               forall i :: 0 <= i < |s.runs| && s.runs[i].query == q && s.runs[i].trigger.Scheduled? ==> s.runs[i].trigger.due < trigger.due
    ensures Invariant(Launch(s, q, trigger))
  {
    var t := Launch(s, q, trigger);
    if q !in s.running && !s.stopped {
      var n := |s.runs|;
      assert !Running(s, q);
      forall i | 0 <= i < |t.runs| ensures Spent(t, t.runs[i]) {
        if i < n {
          assert Spent(s, s.runs[i]);
        }
      }
      forall p ensures p in t.running <==> Running(t, p) {
        if Running(s, p) {
          var i :| 0 <= i < n && s.runs[i].query == p && !s.runs[i].finished;
          assert t.runs[i] == s.runs[i];
        }
        if p == q {
          assert t.runs[n].query == q && !t.runs[n].finished;
        }
      }
    }
  }

  lemma AdvanceHolds(s: State, q: nat, next: int)
    requires Invariant(s) && q in s.queries && s.queries[q].nextRun.Some? && s.queries[q].nextRun.value < next
    ensures Invariant(s.(queries := s.queries[q := s.queries[q].(nextRun := Some(next))]))
  {
    var t := s.(queries := s.queries[q := s.queries[q].(nextRun := Some(next))]);
    forall i | 0 <= i < |t.runs| ensures Spent(t, t.runs[i]) {
      assert Spent(s, s.runs[i]);
    }
    forall p ensures p in t.running <==> Running(t, p) {
      assert Running(t, p) <==> Running(s, p);
    }
  }

  lemma DueHolds(s: State, q: nat, now: int, next: int, stored: bool)
    requires Invariant(s) && Enabled(s, Due(q, now, next, stored))
    ensures Invariant(DueNext(s, q, now, next, stored))
  {
    hide Invariant;
    var query := s.queries[q];
    if stored {
      AdvanceHolds(s, q, next);
      var t := s.(queries := s.queries[q := query.(nextRun := Some(next))]);
      if !Missed(query, now) {
        DueIsLater(s, q);
        LaunchHolds(t, q, Scheduled(query.nextRun.value));
      }
    }
  }

  lemma DueIsLater(s: State, q: nat)
    requires Invariant(s) && q in s.queries && s.queries[q].nextRun.Some?
    ensures forall i :: 0 <= i < |s.runs| && s.runs[i].query == q && s.runs[i].trigger.Scheduled? ==> s.runs[i].trigger.due < s.queries[q].nextRun.value
  {
    forall i | 0 <= i < |s.runs| && s.runs[i].query == q && s.runs[i].trigger.Scheduled?
      ensures s.runs[i].trigger.due < s.queries[q].nextRun.value
    {
      assert Spent(s, s.runs[i]);
    }
  }

  lemma FinishHolds(s: State, r: nat)
    requires Invariant(s) && Enabled(s, Finish(r))
    ensures Invariant(Next(s, Finish(r)))
  {
    var t := Next(s, Finish(r));
    forall i | 0 <= i < |t.runs| ensures Spent(t, t.runs[i]) {
      assert Spent(s, s.runs[i]);
    }
    forall p ensures p in t.running <==> Running(t, p) {
      if Running(s, p) {
        var i :| 0 <= i < |s.runs| && s.runs[i].query == p && !s.runs[i].finished;
        if i != r {
          assert t.runs[i] == s.runs[i];
        }
      }
      if Running(t, p) {
        var i :| 0 <= i < |t.runs| && t.runs[i].query == p && !t.runs[i].finished;
        assert s.runs[i] == t.runs[i] && i != r;
        assert Running(s, p);
      }
    }
  }

  lemma AddHolds(s: State, q: nat, query: Query)
    requires Invariant(s) && q !in s.queries
    ensures Invariant(Next(s, Add(q, query)))
  {
    var t := Next(s, Add(q, query));
    forall i | 0 <= i < |t.runs| ensures Spent(t, t.runs[i]) {
      assert Spent(s, s.runs[i]);
    }
    forall p ensures p in t.running <==> Running(t, p) {
      assert Running(t, p) <==> Running(s, p);
    }
  }

  lemma StepHolds(s: State, step: Step)
    requires Invariant(s) && Enabled(s, step)
    ensures Invariant(Next(s, step))
  {
    hide Invariant, Launch, DueNext;
    match step
    case Add(q, query) => AddHolds(s, q, query);
    case Due(q, now, next, stored) => DueHolds(s, q, now, next, stored);
    case RunNow(q) => LaunchHolds(s, q, Manual);
    case Finish(r) => FinishHolds(s, r);
    case Stop => StopHolds(s);
  }

  lemma StopHolds(s: State)
    requires Invariant(s)
    ensures Invariant(s.(stopped := true))
  {
    var t := s.(stopped := true);
    forall i | 0 <= i < |t.runs| ensures Spent(t, t.runs[i]) {
      assert Spent(s, s.runs[i]);
    }
    forall p ensures p in t.running <==> Running(t, p) {
      assert Running(t, p) <==> Running(s, p);
    }
  }

  // ------------------------------------------------------------------
  // Whole runs.

  ghost predicate Reaches(s: State, steps: seq<Step>, t: State)
    decreases |steps|
  {
    if steps == [] then s == t else Enabled(s, steps[0]) && Reaches(Next(s, steps[0]), steps[1..], t)
  }

  lemma {:induction false} ReachesHolds(s: State, steps: seq<Step>, t: State)
    requires Invariant(s) && Reaches(s, steps, t)
    ensures Invariant(t)
    decreases |steps|
  {
    hide Invariant, Enabled, Next;
    if steps != [] {
      StepHolds(s, steps[0]);
      ReachesHolds(Next(s, steps[0]), steps[1..], t);
    }
  }

  /** Main result: whatever ticks, manual starts and failures interleave, no query has two runs in
      flight, and no due time starts two runs. */
  lemma AtMostOneRun(steps: seq<Step>, t: State, i: nat, j: nat)
    requires Reaches(Start(), steps, t) && i < j < |t.runs| && t.runs[i].query == t.runs[j].query
    ensures t.runs[i].finished || t.runs[j].finished
    ensures t.runs[i].trigger.Scheduled? && t.runs[j].trigger.Scheduled? ==> t.runs[i].trigger.due < t.runs[j].trigger.due
  {
    hide Reaches;
    StartHolds();
    ReachesHolds(Start(), steps, t);
  }

  // ------------------------------------------------------------------
  // The loop over the due queries.

  class Server {
    var queries: map<nat, Query>
    var running: set<nat>
    var stopped: bool
    ghost var runs: seq<Run>

    ghost function View(): State
      reads this
    {
      State(queries, running, stopped, runs)
    }

    method StartScheduled(q: nat, trigger: Trigger) returns (started: bool)
      modifies this`running, this`runs
      ensures View() == Launch(old(View()), q, trigger)
      ensures started == (q !in old(running) && !stopped)
    {
      if q in running || stopped {
        return false;
      }
      running, runs := running + {q}, runs + [Run(q, trigger, false)];
      started := true;
    }

    /** One due query: the next run is stored before the run is started. */
    method StartDue(q: nat, now: int, stored: bool) returns (next: Option<int>)
      requires q in queries && IsDue(queries[q], now) && S.ClockParsed(queries[q].spec.clock)
      modifies this`queries, this`running, this`runs
      ensures next.Some? <==> S.Validate(old(queries)[q].spec) == None
      ensures next.Some? ==> now < next.value && View() == Next(old(View()), Due(q, now, next.value, stored))
      ensures next == None ==> View() == old(View())
      ensures forall p :: p in queries && p != q ==> p in old(queries) && queries[p] == old(queries)[p]
      ensures queries.Keys == old(queries).Keys
    {
      hide S.Validate, S.Calendar, S.IsNext, S.InstantOn, S.LocalDay, Missed;
      var query := queries[q];
      var computed := S.Next(query.spec, now);
      if computed.Err? {
        return None;
      }
      next := Some(computed.value);
      if !stored {
        return;
      }
      queries := queries[q := query.(nextRun := next)];
      if Missed(query, now) {
        return;
      }
      var _ := StartScheduled(q, Scheduled(query.nextRun.value));
    }
  }

  /** A due query is started exactly when it is not running, the scheduler goes on, its next run was stored, and it is at most
      thirty seconds late or catches up; its due time is what the run is named after. */
  lemma DueStartsExactly(s: State, q: nat, now: int, next: int, stored: bool)
    requires Enabled(s, Due(q, now, next, stored))
    ensures var after, due := Next(s, Due(q, now, next, stored)), s.queries[q].nextRun.value;
            var starts := stored && q !in s.running && !s.stopped && (now - due <= 30_000_000_000 || s.queries[q].catchUp);
            && after.runs == s.runs + (if starts then [Run(q, Scheduled(due), false)] else [])
            && after.queries == (if stored then s.queries[q := s.queries[q].(nextRun := Some(next))] else s.queries)
            && after.running == (if starts then s.running + {q} else s.running)
  {
    assert s.runs + [] == s.runs;
  }
}
