/** The limiter's bounds are attained: runs with 20 submissions let through in an hour, and 100 in a day. */
module RateWitness {
  import opened Base
  import opened RateLimiter

  function Repeat(t: int, n: nat): seq<int> {
    if n == 0 then [] else Repeat(t, n - 1) + [t]
  }

  /** n submissions of one reporter at one time. */
  function Burst(a: Addr, t: int, n: nat): seq<Event> {
    if n == 0 then [] else Burst(a, t, n - 1) + [Submitted(a, t)]
  }

  /** A run has come to this: the counters the next submission, from t on, finds, and the times let through so far. */
  ghost predicate At(events: seq<Event>, a: Addr, t: int, s: Stats, times: seq<int>) {
    && ClockMoves(events) && (forall e | e in events :: e.now <= t)
    && StatsOf(Run(events), a, t) == s && LetThrough(events, a) == times && s.bannedUntil.None?
  }

  /** The counters after n more submissions let through. */
  function Counted(s: Stats, t: int, n: nat): Stats {
    var hour, day := Restart(s.hour, t, HOUR), Restart(s.day, t, DAY);
    s.(hour := Counter(hour.count + n, hour.reset), day := Counter(day.count + n, day.reset))
  }

  lemma OneMore(events: seq<Event>, a: Addr, t: int, s: Stats, times: seq<int>, later: int)
    requires At(events, a, t, s, times) && t <= later
    ensures var (s', ok) := Check(s, t);
            At(events + [Submitted(a, t)], a, later, s', if ok then times + [t] else times)
  {
    var longer := events + [Submitted(a, t)];
    assert longer[..|events|] == events;
    forall i, j | 0 <= i < j < |longer| ensures longer[i].now <= longer[j].now {
      if j == |events| { assert longer[i] in events; }
    }
  }

  lemma OneMoreCounts(s: Stats, t: int, n: nat)
    requires s.bannedUntil.None? && n >= 1
    requires Restart(s.hour, t, HOUR).count + n <= MAX_PER_HOUR && Restart(s.day, t, DAY).count + n <= MAX_PER_DAY
    ensures Check(if n == 1 then s else Counted(s, t, n - 1), t) == (Counted(s, t, n), true)
  {
  }

  lemma {:induction false} BurstPasses(events: seq<Event>, a: Addr, t: int, s: Stats, times: seq<int>, n: nat,
                                       later: int)
    requires At(events, a, t, s, times) && t <= later && n >= 1
    requires Restart(s.hour, t, HOUR).count + n <= MAX_PER_HOUR && Restart(s.day, t, DAY).count + n <= MAX_PER_DAY
    ensures At(events + Burst(a, t, n), a, later, Counted(s, t, n), times + Repeat(t, n))
    decreases n
  {
    if n == 1 {
      assert Burst(a, t, 0) == [] && Repeat(t, 0) == [];
      assert Burst(a, t, 1) == [Submitted(a, t)] && Repeat(t, 1) == [t];
      OneMoreCounts(s, t, 1);
      OneMore(events, a, t, s, times, later);
    } else {
      BurstPasses(events, a, t, s, times, n - 1, t);
      OneMoreCounts(s, t, n);
      OneMore(events + Burst(a, t, n - 1), a, t, Counted(s, t, n - 1), times + Repeat(t, n - 1), later);
      assert events + Burst(a, t, n) == events + Burst(a, t, n - 1) + [Submitted(a, t)];
      assert times + Repeat(t, n) == times + Repeat(t, n - 1) + [t];
    }
  }

  lemma {:induction false} CountRepeat(t: int, n: nat, from: int, to: int)
    requires from <= t < to
    ensures CountIn(Repeat(t, n), from, to) == n
    decreases n
  {
    if n > 0 {
      CountRepeat(t, n - 1, from, to);
      assert Repeat(t, n)[..|Repeat(t, n)| - 1] == Repeat(t, n - 1);
    }
  }

  /** Ten at t and ten more in each of the next four hours: all fifty of a day. */
  function FiveHours(a: Addr, t: int, n: nat): seq<Event> {
    if n == 0 then [] else FiveHours(a, t, n - 1) + Burst(a, t + (n - 1) * HOUR, 10)
  }

  function FiveHoursTimes(t: int, n: nat): seq<int> {
    if n == 0 then [] else FiveHoursTimes(t, n - 1) + Repeat(t + (n - 1) * HOUR, 10)
  }

  /** The counters after n of these hours, the first of which restarts the hour's counter. */
  function AfterHours(s: Stats, t: int, n: nat): Stats
    requires n >= 1
  {
    s.(hour := Counter(10, t + (n - 1) * HOUR), day := Counter(10 * n, Restart(s.day, t, DAY).reset))
  }

  /** Each hour restarts the hour's counter and adds ten to the day's. */
  lemma NextHour(s: Stats, t: int, n: nat)
    requires 2 <= n <= 5 && t + (n - 1) * HOUR < Restart(s.day, t, DAY).reset + DAY
    ensures var before, next := AfterHours(s, t, n - 1), t + (n - 1) * HOUR;
            && Restart(before.hour, next, HOUR) == Counter(0, next) && Restart(before.day, next, DAY) == before.day
            && before.day.count + 10 <= MAX_PER_DAY && Counted(before, next, 10) == AfterHours(s, t, n)
  {
  }

  lemma FirstHour(s: Stats, t: int)
    requires Restart(s.hour, t, HOUR) == Counter(0, t) && Restart(s.day, t, DAY).count == 0
    ensures Counted(s, t, 10) == AfterHours(s, t, 1)
  {
  }

  lemma HourMore(events: seq<Event>, a: Addr, t: int, s: Stats, times: seq<int>, n: nat, later: int)
    requires 2 <= n <= 5 && t + (n - 1) * HOUR <= later && t + (n - 1) * HOUR < Restart(s.day, t, DAY).reset + DAY
    requires At(events, a, t + (n - 1) * HOUR, AfterHours(s, t, n - 1), times)
    ensures At(events + Burst(a, t + (n - 1) * HOUR, 10), a, later, AfterHours(s, t, n),
               times + Repeat(t + (n - 1) * HOUR, 10))
  {
    NextHour(s, t, n);
    BurstPasses(events, a, t + (n - 1) * HOUR, AfterHours(s, t, n - 1), times, 10, later);
  }

  lemma Regroup(events: seq<Event>, a: Addr, t: int, times: seq<int>, n: nat)
    requires n >= 1
    ensures events + FiveHours(a, t, n) == events + FiveHours(a, t, n - 1) + Burst(a, t + (n - 1) * HOUR, 10)
    ensures times + FiveHoursTimes(t, n) == times + FiveHoursTimes(t, n - 1) + Repeat(t + (n - 1) * HOUR, 10)
  {
  }

  lemma OneHour(a: Addr, t: int, n: nat, k: nat)
    requires n == 1 && k == 10
    ensures FiveHours(a, t, n) == Burst(a, t, k) && FiveHoursTimes(t, n) == Repeat(t, k)
  {
    assert FiveHours(a, t, n - 1) == [] && FiveHoursTimes(t, n - 1) == [];
  }

  lemma FirstHourPasses(events: seq<Event>, a: Addr, t: int, s: Stats, times: seq<int>, n: nat, k: nat, later: int)
    requires At(events, a, t, s, times) && t <= later && n == 1 && k == 10
    requires Restart(s.hour, t, HOUR) == Counter(0, t) && Restart(s.day, t, DAY).count == 0
    ensures At(events + FiveHours(a, t, n), a, later, AfterHours(s, t, n), times + FiveHoursTimes(t, n))
  {
    BurstPasses(events, a, t, s, times, k, later);
    FirstHour(s, t);
    OneHour(a, t, n, k);
  }

  lemma {:induction false} HoursPass(events: seq<Event>, a: Addr, t: int, s: Stats, times: seq<int>, n: nat, later: int)
    requires At(events, a, t, s, times) && 1 <= n <= 5 && t + (n - 1) * HOUR <= later
    requires Restart(s.hour, t, HOUR) == Counter(0, t) && Restart(s.day, t, DAY).count == 0
    requires t + (n - 1) * HOUR < Restart(s.day, t, DAY).reset + DAY
    ensures At(events + FiveHours(a, t, n), a, later, AfterHours(s, t, n), times + FiveHoursTimes(t, n))
    decreases n
  {
    if n == 1 {
      FirstHourPasses(events, a, t, s, times, n, 10, later);
    } else {
      Regroup(events, a, t, times, n);
      HoursPass(events, a, t, s, times, n - 1, t + (n - 1) * HOUR);
      HourMore(events + FiveHours(a, t, n - 1), a, t, s, times + FiveHoursTimes(t, n - 1), n, later);
    }
  }

  lemma {:induction false} CountHours(t: int, n: nat, from: int, to: int)
    requires from <= t && n <= 5 && t + 4 * HOUR < to
    ensures CountIn(FiveHoursTimes(t, n), from, to) == 10 * n
    decreases n
  {
    if n > 0 {
      CountHours(t, n - 1, from, to);
      CountRepeat(t + (n - 1) * HOUR, 10, from, to);
      CountSplits(FiveHoursTimes(t, n - 1), Repeat(t + (n - 1) * HOUR, 10), from, to);
    }
  }

  lemma NothingYet(a: Addr, t: int)
    ensures At([], a, t, Fresh(t), [])
  {
  }

  // ---- More than ten in an hour ----

  /** The counters after one submission at the start and nine just before the hour is over. */
  const HOUR_NEARLY_OVER := Stats(Counter(10, 0), Counter(10, 0), 0, None)

  lemma HourNearlyOver(a: Addr) returns (events: seq<Event>, times: seq<int>)
    ensures At(events, a, HOUR, HOUR_NEARLY_OVER, times) && CountIn(times, 1, 1 + HOUR) == 9
  {
    NothingYet(a, 0);
    OneMore([], a, 0, Fresh(0), [], HOUR - 1);
    var s1 := Counted(Fresh(0), 0, 1);
    BurstPasses([] + [Submitted(a, 0)], a, HOUR - 1, s1, [] + [0], 9, HOUR);
    events, times := [] + [Submitted(a, 0)] + Burst(a, HOUR - 1, 9), [] + [0] + Repeat(HOUR - 1, 9);
    CountSplits([] + [0], Repeat(HOUR - 1, 9), 1, 1 + HOUR);
    NoneAfter([] + [0], 1, 1 + HOUR);
    CountRepeat(HOUR - 1, 9, 1, 1 + HOUR);
  }

  /** With ten more when the hour is over: nineteen within an hour. */
  lemma NineteenInAnHour(a: Addr) returns (events: seq<Event>)
    ensures ClockMoves(events) && CountIn(LetThrough(events, a), 1, 1 + HOUR) == 19
  {
    var e1, t1 := HourNearlyOver(a);
    BurstPasses(e1, a, HOUR, HOUR_NEARLY_OVER, t1, 10, HOUR);
    events := e1 + Burst(a, HOUR, 10);
    CountSplits(t1, Repeat(HOUR, 10), 1, 1 + HOUR);
    CountRepeat(HOUR, 10, 1, 1 + HOUR);
  }

  /** The counters of a reporter who has used up the day and then tries again just before it is over. */
  const DAY_USED_UP := Stats(Counter(0, DAY - 1), Counter(50, 0), 0, None)

  lemma DayUsedUp(a: Addr) returns (events: seq<Event>, times: seq<int>)
    ensures At(events, a, DAY + HOUR - 2, DAY_USED_UP, times)
  {
    NothingYet(a, 0);
    HoursPass([], a, 0, Fresh(0), [], 5, DAY - 1);
    var s := AfterHours(Fresh(0), 0, 5);
    events, times := [] + FiveHours(a, 0, 5), [] + FiveHoursTimes(0, 5);
    OneMore(events, a, DAY - 1, s, times, DAY + HOUR - 2);
    events := events + [Submitted(a, DAY - 1)];
  }

  /**
   * Twenty within an hour: the day's limit refuses the submission that restarts the hour's counter,
   * so that ten are left for its last moment and ten more for the moment after.
   */
  lemma TwentyInAnHour(a: Addr) returns (events: seq<Event>, from: int)
    ensures ClockMoves(events) && CountIn(LetThrough(events, a), from, from + HOUR) == 20
  {
    var e0, t0 := DayUsedUp(a);
    from := DAY + HOUR - 2;
    BurstPasses(e0, a, from, DAY_USED_UP, t0, 10, from + 1);
    var s1, e1, t1 := Counted(DAY_USED_UP, from, 10), e0 + Burst(a, from, 10), t0 + Repeat(from, 10);
    BurstPasses(e1, a, from + 1, s1, t1, 10, from + 1);
    events := e1 + Burst(a, from + 1, 10);
    CountSplits(t1, Repeat(from + 1, 10), from, from + HOUR);
    CountSplits(t0, Repeat(from, 10), from, from + HOUR);
    CountRepeat(from, 10, from, from + HOUR);
    CountRepeat(from + 1, 10, from, from + HOUR);
    BoundedInAnyWindow(events, a, from);
  }

  // ---- More than fifty in a day ----

  /** The counters of a reporter whose hour's limit refuses the submission that restarts the day's counter. */
  const HOUR_USED_UP := Stats(Counter(10, DAY - 1), Counter(0, DAY), 0, None)

  /** The counters after one submission at the start and ten just before the day is over. */
  const DAY_NEARLY_OVER := Stats(Counter(10, DAY - 1), Counter(11, 0), 0, None)

  lemma DayNearlyOver(a: Addr) returns (events: seq<Event>, times: seq<int>)
    ensures At(events, a, DAY, DAY_NEARLY_OVER, times)
  {
    NothingYet(a, 0);
    OneMore([], a, 0, Fresh(0), [], DAY - 1);
    events, times := [] + [Submitted(a, 0)], [] + [0];
    BurstPasses(events, a, DAY - 1, Counted(Fresh(0), 0, 1), times, 10, DAY);
    events, times := events + Burst(a, DAY - 1, 10), times + Repeat(DAY - 1, 10);
  }

  lemma HourUsedUp(a: Addr) returns (events: seq<Event>, times: seq<int>)
    ensures At(events, a, 2 * DAY - 4 * HOUR - 1, HOUR_USED_UP, times)
  {
    events, times := DayNearlyOver(a);
    OneMore(events, a, DAY, DAY_NEARLY_OVER, times, 2 * DAY - 4 * HOUR - 1);
    events := events + [Submitted(a, DAY)];
  }

  /** A hundred within a day: fifty in the last hours of one of the counter's days, fifty in the first of the next. */
  lemma HundredInADay(a: Addr) returns (events: seq<Event>, from: int)
    ensures ClockMoves(events) && CountIn(LetThrough(events, a), from, from + DAY) == 100
  {
    var e0, t0 := HourUsedUp(a);
    from := 2 * DAY - 4 * HOUR - 1;
    var next := 2 * DAY + HOUR - 1;
    HoursPass(e0, a, from, HOUR_USED_UP, t0, 5, next);
    var s1, e1, t1 := AfterHours(HOUR_USED_UP, from, 5), e0 + FiveHours(a, from, 5), t0 + FiveHoursTimes(from, 5);
    HoursPass(e1, a, next, s1, t1, 5, next + 4 * HOUR);
    events := e1 + FiveHours(a, next, 5);
    CountSplits(t1, FiveHoursTimes(next, 5), from, from + DAY);
    CountSplits(t0, FiveHoursTimes(from, 5), from, from + DAY);
    CountHours(from, 5, from, from + DAY);
    CountHours(next, 5, from, from + DAY);
    BoundedInAnyWindow(events, a, from);
  }
}
