/** When a scheduled query runs next, in a zone of fixed offset. Times are whole
    nanoseconds since 1970-01-01T00:00Z. */
module Schedule {
  import opened Prelude

  const SECOND := 1_000_000_000
  const MINUTE := 60 * SECOND
  const DAY := 24 * 60 * MINUTE

  datatype Kind = Daily | Weekly | Interval | OtherKind

  datatype Clock = Clock(hour: nat, minute: nat)

  /** clock and zone are None where the text does not parse. The zone is the offset added to UTC. */
  datatype Spec = Spec(kind: Kind, clock: Option<Clock>, days: seq<int>, everyMinutes: int, zone: Option<int>)

  datatype Problem = BadZone | BadInterval | BadClock | NoDays | BadDay | BadKind | NoNextRun

  predicate DayOfWeek(d: int) {
    0 <= d <= 6
  }

  predicate ClockParsed(c: Option<Clock>) {
    c.Some? ==> c.value.hour < 24 && c.value.minute < 60
  }

  function Validate(s: Spec): Option<Problem> {
    if s.zone.None? then Some(BadZone)
    else
      match s.kind
      case Interval => if s.everyMinutes < 5 || s.everyMinutes > 7 * 24 * 60 then Some(BadInterval) else None
      case Daily => if s.clock.None? then Some(BadClock) else None
      case Weekly =>
        if s.clock.None? then Some(BadClock)
        else if s.days == [] then Some(NoDays)
        else if exists i :: 0 <= i < |s.days| && !DayOfWeek(s.days[i]) then Some(BadDay)
        else None
      case OtherKind => Some(BadKind)
  }

  // ------------------------------------------------------------------
  // The instants of a daily or weekly schedule.

  predicate Calendar(s: Spec) {
    (s.kind == Daily || s.kind == Weekly) && s.clock.Some? && s.zone.Some? && ClockParsed(s.clock)
  }

  function LocalDay(t: int, zone: int): int {
    (t + zone) / DAY
  }

  /** 0 is Sunday; the first of January 1970 was a Thursday. */
  function WeekdayOf(day: int): int {
    (day + 4) % 7
  }

  function OfDay(c: Clock): nat {
    (c.hour * 60 + c.minute) * MINUTE
  }

  /** The schedule's clock time on a local day, as an instant. */
  function InstantOn(s: Spec, day: int): int
    requires Calendar(s)
  {
    day * DAY + OfDay(s.clock.value) - s.zone.value
  }

  predicate RunsOn(s: Spec, day: int) {
    s.kind == Weekly ==> WeekdayOf(day) in s.days
  }

  /** t is one of the schedule's instants. */
  predicate Matches(s: Spec, t: int)
    requires Calendar(s)
  {
    var day := LocalDay(t, s.zone.value);
    t == InstantOn(s, day) && RunsOn(s, day)
  }

  /** t is the first instant of the schedule after `after`. */
  ghost predicate IsNext(s: Spec, after: int, t: int)
    requires Calendar(s)
  {
    after < t && Matches(s, t) && forall u :: after < u && Matches(s, u) ==> t <= u
  }

  // ------------------------------------------------------------------
  // Days and weeks.

  lemma OfDayFits(c: Clock)
    requires c.hour < 24 && c.minute < 60
    ensures OfDay(c) < DAY
  {
  }

  lemma DayOfInstant(s: Spec, day: int)
    requires Calendar(s)
    ensures LocalDay(InstantOn(s, day), s.zone.value) == day
  {
    OfDayFits(s.clock.value);
    DivideDay(day, OfDay(s.clock.value));
  }

  lemma DivideDay(day: int, rest: int)
    requires 0 <= rest < DAY
    ensures (day * DAY + rest) / DAY == day
  {
  }

  lemma DayBounds(t: int, zone: int)
    ensures var d := LocalDay(t, zone); d * DAY <= t + zone < (d + 1) * DAY
  {
  }

  /** Every weekday comes round within seven days of any day. */
  lemma WeekComesRound(days: seq<int>, day: int) returns (k: nat)
    requires days != [] && forall i :: 0 <= i < |days| ==> DayOfWeek(days[i])
    ensures 1 <= k <= 7 && WeekdayOf(day + k) in days
  {
    var d := days[0];
    assert DayOfWeek(days[0]);
    var r := (d - WeekdayOf(day)) % 7;
    k := if r == 0 then 7 else r;
    assert WeekdayOf(day + k) == d;
  }

  /** The schedule runs on this local day, after `after`. */
  predicate Fits(s: Spec, after: int, day: int)
    requires Calendar(s)
  {
    after < InstantOn(s, day) && RunsOn(s, day)
  }

  /** The first qualifying day from the local day of `after` on. */
  ghost predicate FirstFit(s: Spec, after: int, day: int)
    requires Calendar(s)
  {
    && LocalDay(after, s.zone.value) <= day && Fits(s, after, day)
    && forall d :: LocalDay(after, s.zone.value) <= d < day ==> !Fits(s, after, d)
  }

  lemma FirstFitIsNext(s: Spec, after: int, day: int)
    requires Calendar(s) && FirstFit(s, after, day)
    ensures IsNext(s, after, InstantOn(s, day))
  {
    hide LocalDay, InstantOn, RunsOn;
    var zone := s.zone.value;
    var t := InstantOn(s, day);
    DayOfInstant(s, day);
    forall u | after < u && Matches(s, u) ensures t <= u {
      var d := LocalDay(u, zone);
      LaterDay(after, u, zone);
      assert Fits(s, after, d);
      assert day <= d;
      InstantsInOrder(s, day, d);
    }
  }

  lemma LaterDay(t: int, u: int, zone: int)
    requires t < u
    ensures LocalDay(t, zone) <= LocalDay(u, zone)
  {
    DayBounds(t, zone);
    DayBounds(u, zone);
  }

  lemma InstantsInOrder(s: Spec, a: int, b: int)
    requires Calendar(s) && a <= b
    ensures InstantOn(s, a) <= InstantOn(s, b)
  {
  }

  /** Some day within a week qualifies. */
  lemma FitsWithinAWeek(s: Spec, after: int) returns (k: nat)
    requires Calendar(s) && Validate(s) == None
    ensures k <= 7 && Fits(s, after, LocalDay(after, s.zone.value) + k)
  {
    var day := LocalDay(after, s.zone.value);
    DayBounds(after, s.zone.value);
    if s.kind == Weekly {
      k := WeekComesRound(s.days, day);
    } else {
      k := 1;
    }
    InstantsInOrder(s, day + 1, day + k);
  }

  function Truncate(t: int, unit: int): int
    requires unit > 0
  {
    (t / unit) * unit
  }

  /** The program's bounded search over day offsets. */
  method Next(s: Spec, after: int) returns (r: Result<int, Problem>)
    requires ClockParsed(s.clock)
    ensures Validate(s).Some? ==> r == Err(Validate(s).value)
    ensures Validate(s) == None ==> r.Ok? && after < r.value
    ensures Validate(s) == None && s.kind != Interval ==> Calendar(s) && IsNext(s, after, r.value)
    ensures Validate(s) == None && s.kind != Interval ==> r.value <= InstantOn(s, LocalDay(after, s.zone.value) + 7)
    ensures Validate(s) == None && s.kind == Interval ==>
              r.value % SECOND == 0 && r.value <= after + s.everyMinutes * MINUTE < r.value + SECOND
  {
    hide IsNext, Matches, LocalDay, InstantOn, Validate, Truncate;
    var problem := Validate(s);
    if problem.Some? {
      return Err(problem.value);
    }
    ValidSpec(s);
    if s.kind == Interval {
      IntervalBounds(after, s.everyMinutes);
      return Ok(Truncate(after + s.everyMinutes * MINUTE, SECOND));
    }
    var zone := s.zone.value;
    var day := LocalDay(after, zone);
    ghost var k := FitsWithinAWeek(s, after);
    for offset := 0 to 9
      invariant forall d :: day <= d < day + offset ==> !Fits(s, after, d)
      invariant offset <= k
    {
      var candidate := InstantOn(s, day + offset);
      if !(after < candidate) {
        continue;
      }
      DayOfInstant(s, day + offset);
      if s.kind == Weekly && WeekdayOf(LocalDay(candidate, zone)) !in s.days {
        continue;
      }
      FirstFitIsNext(s, after, day + offset);
      InstantsInOrder(s, day + offset, day + 7);
      return Ok(candidate);
    }
    assert false;
    r := Err(NoNextRun);
  }

  lemma ValidSpec(s: Spec)
    requires ClockParsed(s.clock) && Validate(s) == None
    ensures s.kind == Interval ==> s.everyMinutes >= 5
    ensures s.kind != Interval ==> Calendar(s)
  {
  }

  lemma IntervalBounds(after: int, every: int)
    requires every >= 5
    ensures var t := Truncate(after + every * MINUTE, SECOND);
            after < t && t % SECOND == 0 && t <= after + every * MINUTE < t + SECOND
  {
  }

  // ------------------------------------------------------------------
  // Iterating.

  /** A run of the schedule: each instant is the next one after the instant before. */
  ghost predicate Chain(s: Spec, after: int, ts: seq<int>)
    requires Calendar(s)
    decreases |ts|
  {
    ts != [] ==> IsNext(s, after, ts[0]) && Chain(s, ts[0], ts[1..])
  }

  lemma {:induction false} ChainRises(s: Spec, after: int, ts: seq<int>)
    requires Calendar(s) && Chain(s, after, ts)
    ensures forall i :: 0 <= i < |ts| ==> after < ts[i] && Matches(s, ts[i])
    ensures forall i, j :: 0 <= i < j < |ts| ==> ts[i] < ts[j]
    decreases |ts|
  {
    hide Matches;
    if ts != [] {
      ChainRises(s, ts[0], ts[1..]);
      forall i | 0 < i < |ts| ensures ts[0] < ts[i] && Matches(s, ts[i]) {
        assert ts[i] == ts[1..][i - 1];
      }
      forall i, j | 0 < i < j < |ts| ensures ts[i] < ts[j] {
        assert ts[i] == ts[1..][i - 1] && ts[j] == ts[1..][j - 1];
      }
    }
  }

  /** Main result: following the schedule from any time reaches every later instant of it, exactly once. */
  lemma {:induction false} EveryInstantIsVisitedOnce(s: Spec, after: int, u: int) returns (ts: seq<int>)
    requires Calendar(s) && Validate(s) == None && after < u && Matches(s, u)
    ensures Chain(s, after, ts) && ts != [] && ts[|ts| - 1] == u
    ensures forall i :: 0 <= i < |ts| - 1 ==> ts[i] != u
    ensures forall v :: after < v <= u && Matches(s, v) ==> v in ts
    decreases u - after
  {
    hide Matches;
    var t := NextExists(s, after);
    if t == u {
      ts := [t];
      assert ts[1..] == [];
    } else {
      var rest := EveryInstantIsVisitedOnce(s, t, u);
      ts := [t] + rest;
      assert ts[1..] == rest;
      ChainRises(s, after, ts);
      forall v | after < v <= u && Matches(s, v) ensures v in ts {
        assert t <= v;
        if v > t {
          assert v in rest;
        }
      }
    }
  }

  lemma NextExists(s: Spec, after: int) returns (t: int)
    requires Calendar(s) && Validate(s) == None
    ensures IsNext(s, after, t)
  {
    hide IsNext, LocalDay, Fits, Validate;
    var k := FitsWithinAWeek(s, after);
    var day := LocalDay(after, s.zone.value);
    var end := day + k;
    while !Fits(s, after, day)
      invariant LocalDay(after, s.zone.value) <= day <= end
      invariant forall d :: LocalDay(after, s.zone.value) <= d < day ==> !Fits(s, after, d)
      decreases end - day
    {
      day := day + 1;
    }
    FirstFitIsNext(s, after, day);
    t := InstantOn(s, day);
  }

  // ------------------------------------------------------------------
  // Instants on the wall clock.

  const HOUR := 60 * MINUTE

  lemma ByHour(hour: int, rest: int)
    requires 0 <= rest < HOUR
    ensures (hour * HOUR + rest) / HOUR == hour && (hour * HOUR + rest) % HOUR == rest
  {
  }

  lemma ByMinute(minute: int, rest: int)
    requires 0 <= rest < MINUTE
    ensures (minute * MINUTE + rest) / MINUTE == minute && (minute * MINUTE + rest) % MINUTE == rest
  {
  }

  lemma ClockOfDay(rest: int, hour: int, minute: int)
    requires 0 <= rest < DAY && 0 <= hour < 24 && 0 <= minute < 60
    ensures rest == hour * HOUR + minute * MINUTE <==> rest / HOUR == hour && rest % HOUR / MINUTE == minute && rest % MINUTE == 0
  {
    if rest == hour * HOUR + minute * MINUTE {
      ByHour(hour, minute * MINUTE);
      ByMinute(hour * 60 + minute, 0);
      ByMinute(minute, 0);
    } else {
      var h, m := rest / HOUR, rest % HOUR;
      assert rest == h * HOUR + m;
      ByMinute(h * 60 + m / MINUTE, m % MINUTE);
    }
  }

  /** An instant of the schedule shows, on the local wall clock, its hour and minute and no second, on one of its weekdays;
      and every such time is an instant. Days count from Thursday, the first of January 1970, and weekdays from Sunday. */
  lemma ShowsItsClock(s: Spec, t: int)
    requires Calendar(s)
    ensures var local := t + s.zone.value;
            Matches(s, t) <==>
              && local % DAY / HOUR == s.clock.value.hour && local % DAY % HOUR / MINUTE == s.clock.value.minute && local % DAY % MINUTE == 0
              && (s.kind == Weekly ==> (local / DAY + 4) % 7 in s.days)
  {
    var local := t + s.zone.value;
    var c := s.clock.value;
    assert OfDay(c) == c.hour * HOUR + c.minute * MINUTE;
    ClockOfDay(local % DAY, c.hour, c.minute);
    assert local == local / DAY * DAY + local % DAY;
  }

  /** Which schedules are accepted: an interval of five minutes to seven days, a clock time every day, or on at least one weekday. */
  lemma AcceptedExactly(s: Spec)
    ensures Validate(s).None? <==>
              && s.zone.Some?
              && match s.kind
                 case Interval => 5 <= s.everyMinutes <= 10080
                 case Daily => s.clock.Some?
                 case Weekly => s.clock.Some? && s.days != [] && forall d :: d in s.days ==> 0 <= d <= 6
                 case OtherKind => false
  {
    assert (exists i :: 0 <= i < |s.days| && !DayOfWeek(s.days[i])) <==> exists d :: d in s.days && !DayOfWeek(d);
    assert forall d :: DayOfWeek(d) <==> 0 <= d <= 6;
  }
}
