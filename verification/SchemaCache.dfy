/** The schema cache: one load at a time per key, shared by its waiters, dropped
    by a refresh, an error, its age or an invalidation. A step is one critical
    section, the end of a load, or a waiter waking. `now` orders the steps;
    `wall` is the clock that ages entries. */
module SchemaCache {
  import opened Prelude
  import opened Keys

  type Schema = string

  type Loaded = Result<Schema, string>

  const SCHEMA_TTL := 30

  /** A cache entry, numbered by the call that loads it. */
  datatype Entry = Entry(key: string, began: nat, outcome: Option<Loaded>, finished: nat, loaded: nat)

  /** A call, and the entry it is served from. */
  datatype Call = Call(key: string, refresh: bool, at: nat, wall: nat, entry: nat)

  datatype Answer = Served(outcome: Loaded) | Abandoned

  /** calls, events and now are history, not program state. */
  datatype State = State(
    entries: map<string, nat>,
    records: map<nat, Entry>,
    calls: map<nat, Call>,
    answers: map<nat, Answer>,
    events: set<(string, nat)>,
    now: nat,
    wall: nat)

  datatype Step =
    | Ask(r: nat, key: string, refresh: bool)
    | FinishLoad(r: nat, outcome: Loaded)
    | DropFailed(r: nat)
    | Wake(r: nat)
    | GiveUp(r: nat)
    | InvalidateSchema(id: string)
    | Pass(time: nat)

  function Start(): State {
    State(map[], map[], map[], map[], {}, 0, 0)
  }

  /** Whether a call may be served from what is cached. */
  predicate Usable(s: State, key: string, refresh: bool) {
    && key in s.entries && s.entries[key] in s.records && !refresh
    && var e := s.records[s.entries[key]];
       e.outcome.Some? ==> e.outcome.value.Ok? && s.wall <= e.loaded + SCHEMA_TTL
  }

  predicate Loading(s: State, r: nat) {
    r in s.records && s.records[r].outcome == None
  }

  predicate LoadFailed(s: State, r: nat) {
    r in s.records && s.records[r].outcome.Some? && s.records[r].outcome.value.Err?
  }

  ghost predicate Enabled(s: State, step: Step) {
    match step
    case Ask(r, _, _) => r !in s.calls && r !in s.records
    case FinishLoad(r, _) => Loading(s, r)
    case DropFailed(r) => LoadFailed(s, r)
    case Wake(r) => r in s.calls && r !in s.answers && s.calls[r].entry in s.records && s.records[s.calls[r].entry].outcome.Some?
    case GiveUp(r) => r in s.calls && r !in s.answers && s.calls[r].entry != r
    case _ => true
  }

  function Next(s: State, step: Step): State {
    var t := s.(now := s.now + 1);
    match step
    case Ask(r, key, refresh) =>
      if Usable(s, key, refresh) then t.(calls := s.calls[r := Call(key, refresh, s.now, s.wall, s.entries[key])])
      else t.(entries := s.entries[key := r],
              records := s.records[r := Entry(key, s.now, None, 0, 0)],
              calls := s.calls[r := Call(key, refresh, s.now, s.wall, r)])
    case FinishLoad(r, outcome) =>
      if r !in s.records then t
      else t.(records := s.records[r := s.records[r].(outcome := Some(outcome), finished := s.now, loaded := s.wall)])
    case DropFailed(r) =>
      if r !in s.records || Lookup(s.entries, s.records[r].key) != Some(r) then t
      else t.(entries := s.entries - {s.records[r].key})
    case Wake(r) =>
      if r in s.calls && s.calls[r].entry in s.records && s.records[s.calls[r].entry].outcome.Some?
      then t.(answers := s.answers[r := Served(s.records[s.calls[r].entry].outcome.value)]) else t
    case GiveUp(r) => t.(answers := s.answers[r := Abandoned])
    case InvalidateSchema(id) =>
      if id == "" then t
      else t.(entries := s.entries - Under(s.entries.Keys, id), events := s.events + {(id, s.now)})
    case Pass(time) => t.(wall := s.wall + time)
  }

  // ------------------------------------------------------------------
  // What every step keeps.

  ghost predicate EntryFits(s: State, k: string, e: nat) {
    && e in s.records && s.records[e].key == k
    && forall x :: x in s.events && Belongs(k, x.0) ==> x.1 < s.records[e].began
  }

  predicate RecordFits(e: Entry, now: nat, wall: nat) {
    e.began < now && (e.outcome.Some? ==> e.finished < now && e.loaded <= wall)
  }

  /** What a call may rely on of the entry it is served from. */
  ghost predicate CallFits(s: State, r: nat, c: Call) {
    && c.entry in s.records && s.records[c.entry].key == c.key && c.at < s.now
    && (c.refresh ==> c.entry == r)
    && (c.entry == r ==> s.records[r].began == c.at)
    && (forall x :: x in s.events && Belongs(c.key, x.0) && x.1 < c.at ==> x.1 < s.records[c.entry].began)
    && (c.entry != r && s.records[c.entry].outcome.Some? && s.records[c.entry].finished < c.at ==>
          s.records[c.entry].outcome.value.Ok? && c.wall <= s.records[c.entry].loaded + SCHEMA_TTL)
  }

  predicate AnswerFits(s: State, r: nat, a: Answer) {
    && r in s.calls
    && (a.Served? ==> s.calls[r].entry in s.records && s.records[s.calls[r].entry].outcome == Some(a.outcome))
  }

  ghost predicate Invariant(s: State) {
    && (forall k :: k in s.entries ==> EntryFits(s, k, s.entries[k]))
    && (forall r :: r in s.records ==> RecordFits(s.records[r], s.now, s.wall))
    && (forall r :: r in s.calls ==> CallFits(s, r, s.calls[r]))
    && (forall r :: r in s.answers ==> AnswerFits(s, r, s.answers[r]))
    && (forall x :: x in s.events ==> x.1 < s.now)
  }

  lemma StartHolds()
    ensures Invariant(Start())
  {
  }

  /** What a call is served from, and what it has to find there. */
  lemma AskedCallFits(s: State, r: nat, key: string, refresh: bool, q: nat)
    requires Invariant(s) && Enabled(s, Ask(r, key, refresh))
    ensures var t := Next(s, Ask(r, key, refresh)); q in t.calls ==> CallFits(t, q, t.calls[q])
  {
    hide Belongs, AnswerFits;
    if Usable(s, key, refresh) {
      assert EntryFits(s, key, s.entries[key]);
    }
    if q in s.calls {
      assert CallFits(s, q, s.calls[q]);
    }
  }

  lemma AskHolds(s: State, r: nat, key: string, refresh: bool)
    requires Invariant(s) && Enabled(s, Ask(r, key, refresh))
    ensures Invariant(Next(s, Ask(r, key, refresh)))
  {
    hide Belongs, CallFits;
    var t := Next(s, Ask(r, key, refresh));
    forall k | k in t.entries ensures EntryFits(t, k, t.entries[k]) {
      if k in s.entries {
        assert EntryFits(s, k, s.entries[k]);
      }
    }
    forall q | q in t.records ensures RecordFits(t.records[q], t.now, t.wall) {
      if q in s.records {
        assert RecordFits(s.records[q], s.now, s.wall);
      }
    }
    forall q | q in t.calls ensures CallFits(t, q, t.calls[q]) {
      AskedCallFits(s, r, key, refresh, q);
    }
    forall q | q in t.answers ensures AnswerFits(t, q, t.answers[q]) {
      assert AnswerFits(s, q, s.answers[q]);
    }
  }

  lemma FinishHolds(s: State, r: nat, outcome: Loaded)
    requires Invariant(s) && Loading(s, r)
    ensures Invariant(Next(s, FinishLoad(r, outcome)))
  {
    hide Belongs;
    var t := Next(s, FinishLoad(r, outcome));
    forall k | k in t.entries ensures EntryFits(t, k, t.entries[k]) {
      assert EntryFits(s, k, s.entries[k]);
    }
    forall q | q in t.records ensures RecordFits(t.records[q], t.now, t.wall) {
      assert RecordFits(s.records[q], s.now, s.wall);
    }
    forall q | q in t.calls ensures CallFits(t, q, t.calls[q]) {
      assert CallFits(s, q, s.calls[q]);
    }
    forall q | q in t.answers ensures AnswerFits(t, q, t.answers[q]) {
      assert AnswerFits(s, q, s.answers[q]);
    }
  }

  lemma InvalidateHolds(s: State, id: string)
    requires Invariant(s) && id != ""
    ensures Invariant(Next(s, InvalidateSchema(id)))
  {
    hide Belongs, Under, RecordFits;
    var t := Next(s, InvalidateSchema(id));
    KeptAreOthers(s, id);
    forall k | k in t.entries ensures EntryFits(t, k, t.entries[k]) {
      assert EntryFits(s, k, s.entries[k]);
      assert RecordFits(s.records[s.entries[k]], s.now, s.wall);
    }
    forall q | q in t.records ensures RecordFits(t.records[q], t.now, t.wall) {
      RecordStillFits(s.records[q], s.now, s.wall, t.now, t.wall);
    }
    forall q | q in t.calls ensures CallFits(t, q, t.calls[q]) {
      assert CallFits(s, q, s.calls[q]);
    }
    forall q | q in t.answers ensures AnswerFits(t, q, t.answers[q]) {
      assert AnswerFits(s, q, s.answers[q]);
    }
  }

  lemma RecordStillFits(e: Entry, now: nat, wall: nat, now': nat, wall': nat)
    requires RecordFits(e, now, wall) && now <= now' && wall <= wall'
    ensures RecordFits(e, now', wall')
  {
  }

  /** Time passes and entries may go; records, calls and events stay. */
  lemma QuietHolds(s: State, t: State)
    requires Invariant(s)
    requires t.records == s.records && t.calls == s.calls && t.events == s.events && s.now < t.now && s.wall <= t.wall
    requires forall k :: k in t.entries ==> k in s.entries && t.entries[k] == s.entries[k]
    requires forall q :: q in t.answers ==> AnswerFits(t, q, t.answers[q])
    ensures Invariant(t)
  {
    hide Belongs, RecordFits, AnswerFits;
    forall k | k in t.entries ensures EntryFits(t, k, t.entries[k]) {
      assert EntryFits(s, k, s.entries[k]);
    }
    forall q | q in t.records ensures RecordFits(t.records[q], t.now, t.wall) {
      RecordStillFits(s.records[q], s.now, s.wall, t.now, t.wall);
    }
    forall q | q in t.calls ensures CallFits(t, q, t.calls[q]) {
      assert CallFits(s, q, s.calls[q]);
    }
  }

  lemma AnswersHold(s: State, step: Step)
    requires Invariant(s) && Enabled(s, step) && (step.DropFailed? || step.Wake? || step.GiveUp? || step.Pass?)
    ensures var t := Next(s, step); forall q :: q in t.answers ==> AnswerFits(t, q, t.answers[q])
  {
    hide Belongs, RecordFits, CallFits, EntryFits, Under;
    var t := Next(s, step);
    forall q | q in t.answers ensures AnswerFits(t, q, t.answers[q]) {
      if q in s.answers {
        assert AnswerFits(s, q, s.answers[q]);
      }
    }
  }

  lemma OtherHolds(s: State, step: Step)
    requires Invariant(s) && Enabled(s, step) && !step.Ask? && !step.FinishLoad?
    ensures Invariant(Next(s, step))
  {
    hide Belongs, Under, Invariant, AnswerFits;
    if step.InvalidateSchema? && step.id != "" {
      InvalidateHolds(s, step.id);
    } else if step.InvalidateSchema? {
      SameAnswers(s);
      QuietHolds(s, s.(now := s.now + 1));
    } else {
      AnswersHold(s, step);
      QuietHolds(s, Next(s, step));
    }
  }

  lemma SameAnswers(s: State)
    requires Invariant(s)
    ensures var t := s.(now := s.now + 1); forall q :: q in t.answers ==> AnswerFits(t, q, t.answers[q])
  {
    hide CallFits, EntryFits, RecordFits;
    forall q | q in s.answers ensures AnswerFits(s.(now := s.now + 1), q, s.answers[q]) {
      assert AnswerFits(s, q, s.answers[q]);
    }
  }

  lemma KeptAreOthers(s: State, id: string)
    ensures forall k :: k in s.entries - Under(s.entries.Keys, id) ==> k in s.entries && !Belongs(k, id)
  {
    hide Belongs;
  }

  lemma StepHolds(s: State, step: Step)
    requires Invariant(s) && Enabled(s, step)
    ensures Invariant(Next(s, step))
  {
    hide Invariant, Next;
    match step
    case Ask(r, key, refresh) => AskHolds(s, r, key, refresh);
    case FinishLoad(r, outcome) => FinishHolds(s, r, outcome);
    case _ => OtherHolds(s, step);
  }

  // ------------------------------------------------------------------
  // Whole runs.

  ghost predicate Run(s: State, steps: seq<Step>, t: State)
    decreases |steps|
  {
    if steps == [] then s == t else Enabled(s, steps[0]) && Run(Next(s, steps[0]), steps[1..], t)
  }

  lemma {:induction false} RunHolds(s: State, steps: seq<Step>, t: State)
    requires Invariant(s) && Run(s, steps, t)
    ensures Invariant(t)
    decreases |steps|
  {
    hide Invariant, Enabled, Next;
    if steps != [] {
      StepHolds(s, steps[0]);
      RunHolds(Next(s, steps[0]), steps[1..], t);
    }
  }

  lemma Reached(steps: seq<Step>, t: State)
    requires Run(Start(), steps, t)
    ensures Invariant(t)
  {
    hide Invariant, Run;
    StartHolds();
    RunHolds(Start(), steps, t);
  }

  /** Main result: a refresh is served by a load that its own call began, whatever was cached or loading. */
  lemma RefreshReadsAgain(steps: seq<Step>, t: State, r: nat)
    requires Run(Start(), steps, t) && r in t.calls && t.calls[r].refresh && Lookup(t.answers, r).Some? && t.answers[r].Served?
    ensures t.calls[r].entry == r && r in t.records
    ensures t.records[r].began == t.calls[r].at && t.records[r].outcome == Some(t.answers[r].outcome)
  {
    hide Run, Belongs;
    Reached(steps, t);
    assert CallFits(t, r, t.calls[r]) && AnswerFits(t, r, t.answers[r]);
  }

  /** Main result: a call made after an InvalidateSchema of its connection is served by a load that began
      after it, even while older loads are still running. */
  lemma InvalidationIsSeen(steps: seq<Step>, t: State, r: nat, c: Connection, time: nat)
    requires Run(Start(), steps, t) && r in t.calls && r in t.answers && t.answers[r].Served?
    requires t.calls[r].key == PoolKey(c) && (c.id, time) in t.events && time < t.calls[r].at
    ensures t.calls[r].entry in t.records && t.records[t.calls[r].entry].began > time
    ensures t.records[t.calls[r].entry].key == t.calls[r].key && t.records[t.calls[r].entry].outcome == Some(t.answers[r].outcome)
  {
    hide Run, Belongs, PoolKey;
    Reached(steps, t);
    KeysBelongById(c, c.id, "");
    assert CallFits(t, r, t.calls[r]) && AnswerFits(t, r, t.answers[r]);
  }

  /** Main result: a load that failed is never served to a call made after it failed, and a
      load that succeeded is served to such a call only while it is no older than thirty seconds. */
  lemma FailureIsNotServedLater(steps: seq<Step>, t: State, r: nat)
    requires Run(Start(), steps, t) && r in t.calls && t.calls[r].entry != r
    requires t.calls[r].entry in t.records && t.records[t.calls[r].entry].outcome.Some? && t.records[t.calls[r].entry].finished < t.calls[r].at
    ensures t.records[t.calls[r].entry].outcome.value.Ok?
    ensures t.calls[r].wall <= t.records[t.calls[r].entry].loaded + 30
  {
    hide Run, Belongs;
    Reached(steps, t);
    assert CallFits(t, r, t.calls[r]);
  }

  /** Clearing up after a failed load removes that load's own entry and no other. */
  lemma FailureDeletesOnlyItself(steps: seq<Step>, t: State, r: nat, k: string)
    requires Run(Start(), steps, t) && LoadFailed(t, r) && k in t.entries && t.entries[k] != r
    ensures k in Next(t, DropFailed(r)).entries && Next(t, DropFailed(r)).entries[k] == t.entries[k]
  {
    hide Run, Belongs, Invariant;
    Reached(steps, t);
  }

  // ------------------------------------------------------------------
  // The critical sections in place.

  class Cache {
    var entries: map<string, nat>
    var records: map<nat, Entry>
    var wall: nat
    ghost var calls: map<nat, Call>
    ghost var answers: map<nat, Answer>
    ghost var events: set<(string, nat)>
    var now: nat

    ghost function View(): State
      reads this
    {
      State(entries, records, calls, answers, events, now, wall)
    }

    constructor ()
      ensures View() == Start()
    {
      entries, records, wall := map[], map[], 0;
      calls, answers, events, now := map[], map[], {}, 0;
    }

    /** Finds an entry to wait on, or makes one for this call to load. */
    method Choose(r: nat, key: string, refresh: bool) returns (entry: nat, loads: bool)
      requires key in entries ==> entries[key] in records
      modifies this
      ensures View() == Next(old(View()), Ask(r, key, refresh))
      ensures loads <==> !Usable(old(View()), key, refresh)
      ensures entry == if loads then r else old(entries)[key]
    {
      var found := None;
      if key in entries {
        var e := records[entries[key]];
        found := Some(entries[key]);
        if e.outcome.Some? {
          if refresh || e.outcome.value.Err? || wall > e.loaded + SCHEMA_TTL {
            found := None;
          }
        } else if refresh {
          found := None;
        }
      }
      if found.Some? {
        calls := calls[r := Call(key, refresh, now, wall, found.value)];
        now := now + 1;
        return found.value, false;
      }
      entries, records := entries[key := r], records[r := Entry(key, now, None, 0, 0)];
      calls := calls[r := Call(key, refresh, now, wall, r)];
      now := now + 1;
      return r, true;
    }

    method Finish(r: nat, outcome: Loaded)
      requires r in records
      modifies this
      ensures View() == Next(old(View()), FinishLoad(r, outcome))
    {
      records := records[r := records[r].(outcome := Some(outcome), finished := now, loaded := wall)];
      now := now + 1;
    }

    /** After a failed load: the entry goes only if it is still this load's. */
    method RemoveFailed(r: nat)
      requires r in records
      modifies this
      ensures View() == Next(old(View()), DropFailed(r))
    {
      var key := records[r].key;
      if key in entries && entries[key] == r {
        entries := entries - {key};
      }
      now := now + 1;
    }

    method Invalidate(id: string)
      modifies this
      ensures View() == Next(old(View()), InvalidateSchema(id))
      ensures id != "" ==> DropsConnection(old(entries), entries, id)
    {
      hide Under, Belongs, ValuesAt, DropsConnection;
      if id != "" {
        var kept, _ := DeleteUnder(entries, id);
        entries, events := kept, events + {(id, now)};
      }
      now := now + 1;
    }
  }
}
