/** The evidence rate limiter: what any hour and any day can let through. */
module RateLimiter {
  import opened Base

  /** Nanoseconds, as in Go's time.Duration. */
  const HOUR: int := 3_600_000_000_000
  const DAY: int := 24 * HOUR
  const MAX_PER_HOUR: nat := 10
  const MAX_PER_DAY: nat := 50
  const SUSPICION_LEVEL: nat := 5
  const BAN_DURATION: int := 24 * HOUR

  /** A count and the time its window was last restarted. */
  datatype Counter = Counter(count: nat, reset: int)

  datatype Stats = Stats(hour: Counter, day: Counter, rejected: nat, bannedUntil: Option<int>)

  function Fresh(now: int): Stats {
    Stats(Counter(0, now), Counter(0, now), 0, None)
  }

  function Restart(c: Counter, now: int, window: int): Counter {
    if now - c.reset >= window then Counter(0, now) else c
  }

  predicate Banned(s: Stats, now: int) {
    s.bannedUntil.Some? && now < s.bannedUntil.value
  }

  /** CheckReporter for one reporter: the new counters, and whether the submission may go on. */
  function Check(s: Stats, now: int): (Stats, bool) {
    if Banned(s, now) then (s, false) else
      var hour := Restart(s.hour, now, HOUR);
      var day := Restart(s.day, now, DAY);
      if hour.count >= MAX_PER_HOUR || day.count >= MAX_PER_DAY then (s.(hour := hour, day := day), false)
      else (s.(hour := hour.(count := hour.count + 1), day := day.(count := day.count + 1)), true)
  }

  // ---- Any half-open window of the same length ----

  /** How many of the times lie in [from, to). */
  function CountIn(times: seq<int>, from: int, to: int): nat {
    if times == [] then 0 else
      CountIn(times[..|times| - 1], from, to) + if from <= times[|times| - 1] < to then 1 else 0
  }

  lemma {:induction false} CountSplits(a: seq<int>, b: seq<int>, from: int, to: int)
    ensures CountIn(a + b, from, to) == CountIn(a, from, to) + CountIn(b, from, to)
    decreases |b|
  {
    if b == [] {
      assert a + b == a;
    } else {
      CountSplits(a, b[..|b| - 1], from, to);
      assert (a + b)[..|a + b| - 1] == a + b[..|b| - 1];
    }
  }

  lemma {:induction false} CountAtMostLength(times: seq<int>, from: int, to: int)
    ensures CountIn(times, from, to) <= |times|
    decreases |times|
  {
    if times != [] { CountAtMostLength(times[..|times| - 1], from, to); }
  }

  lemma {:induction false} NoneAfter(times: seq<int>, from: int, to: int)
    requires forall i | 0 <= i < |times| :: times[i] < from
    ensures CountIn(times, from, to) == 0
    decreases |times|
  {
    if times != [] { NoneAfter(times[..|times| - 1], from, to); }
  }

  /**
   * older are the submissions let through before the current restart, newer those since. No window
   * that reaches past the restart can hold more than `limit` of the older ones.
   */
  ghost predicate WindowOk(older: seq<int>, newer: seq<int>, c: Counter, limit: nat, window: int) {
    && |newer| == c.count <= limit
    && (forall i | 0 <= i < |older| :: older[i] < c.reset)
    && (forall from, to {:trigger AtMost(older, from, to, limit)} |
          from <= to <= from + window && to > c.reset :: AtMost(older, from, to, limit))
    && (forall from, to {:trigger AtMost(older, from, to, 2 * limit)} |
          from <= to <= from + window :: AtMost(older, from, to, 2 * limit))
  }

  ghost predicate AtMost(times: seq<int>, from: int, to: int, n: nat) {
    CountIn(times, from, to) <= n
  }

  /** The bound for every window, from the invariant. */
  lemma AnyWindow(older: seq<int>, newer: seq<int>, c: Counter, limit: nat, window: int, from: int)
    requires WindowOk(older, newer, c, limit, window) && window >= 0
    requires forall i | 0 <= i < |newer| :: newer[i] >= c.reset
    ensures CountIn(older + newer, from, from + window) <= 2 * limit
  {
    CountSplits(older, newer, from, from + window);
    CountAtMostLength(newer, from, from + window);
    if from + window <= c.reset {
      NoneFrom(newer, from, from + window);
      assert AtMost(older, from, from + window, 2 * limit);
    } else {
      assert AtMost(older, from, from + window, limit);
    }
  }

  lemma {:induction false} NoneFrom(times: seq<int>, from: int, to: int)
    requires forall i | 0 <= i < |times| :: times[i] >= to
    ensures CountIn(times, from, to) == 0
    decreases |times|
  {
    if times != [] { NoneFrom(times[..|times| - 1], from, to); }
  }

  /** A restart turns everything into the past: at most one window's worth of it is recent. */
  lemma RestartKeepsWindow(older: seq<int>, newer: seq<int>, c: Counter, limit: nat, window: int, now: int)
    requires WindowOk(older, newer, c, limit, window) && window >= 0
    requires forall i | 0 <= i < |newer| :: c.reset <= newer[i] < c.reset + window
    requires now - c.reset >= window
    ensures WindowOk(older + newer, [], Counter(0, now), limit, window)
  {
    var all := older + newer;
    forall from, to | from <= to <= from + window && to > now ensures AtMost(all, from, to, limit) {
      CountSplits(older, newer, from, to);
      CountAtMostLength(newer, from, to);
      NoneAfter(older, from, to);
    }
    forall from, to | from <= to <= from + window ensures AtMost(all, from, to, 2 * limit) {
      CountSplits(older, newer, from, to);
      CountAtMostLength(newer, from, to);
      if to <= c.reset {
        NoneFrom(newer, from, to);
        assert AtMost(older, from, to, 2 * limit);
      } else {
        assert AtMost(older, from, to, limit);
      }
    }
  }

  // ---- One reporter over a run ----

  /** The submissions let through, split at the last restart of each counter. */
  datatype History = History(olderHour: seq<int>, newerHour: seq<int>, olderDay: seq<int>, newerDay: seq<int>)

  function Times(h: History): seq<int> {
    h.olderHour + h.newerHour
  }

  ghost predicate Inv(s: Stats, h: History, now: int) {
    && WindowOk(h.olderHour, h.newerHour, s.hour, MAX_PER_HOUR, HOUR)
    && WindowOk(h.olderDay, h.newerDay, s.day, MAX_PER_DAY, DAY)
    && (forall i | 0 <= i < |h.newerHour| ::
        s.hour.reset <= h.newerHour[i] <= now && h.newerHour[i] < s.hour.reset + HOUR)
    && (forall i | 0 <= i < |h.newerDay| :: s.day.reset <= h.newerDay[i] <= now && h.newerDay[i] < s.day.reset + DAY)
    && h.olderHour + h.newerHour == h.olderDay + h.newerDay
    && s.hour.reset <= now && s.day.reset <= now
  }

  function AfterRestarts(s: Stats, h: History, now: int): History {
    var h1 := if now - s.hour.reset >= HOUR then h.(olderHour := h.olderHour + h.newerHour, newerHour := []) else h;
    if now - s.day.reset >= DAY then h1.(olderDay := h.olderDay + h.newerDay, newerDay := []) else h1
  }

  function AfterCheck(s: Stats, h: History, now: int): History {
    if Banned(s, now) then h else
      var h1 := AfterRestarts(s, h, now);
      if Check(s, now).1 then h1.(newerHour := h1.newerHour + [now], newerDay := h1.newerDay + [now]) else h1
  }

  lemma RestartsKeepInv(s: Stats, h: History, before: int, now: int)
    requires Inv(s, h, before) && before <= now
    ensures Inv(s.(hour := Restart(s.hour, now, HOUR), day := Restart(s.day, now, DAY)), AfterRestarts(s, h, now), now)
  {
    if now - s.hour.reset >= HOUR { RestartKeepsWindow(h.olderHour, h.newerHour, s.hour, MAX_PER_HOUR, HOUR, now); }
    if now - s.day.reset >= DAY { RestartKeepsWindow(h.olderDay, h.newerDay, s.day, MAX_PER_DAY, DAY, now); }
  }

  /** One more of both counters, after their restarts. */
  lemma CountKeepsInv(s: Stats, h: History, now: int)
    requires Inv(s, h, now) && s.hour.count < MAX_PER_HOUR && s.day.count < MAX_PER_DAY
    requires now < s.hour.reset + HOUR && now < s.day.reset + DAY
    ensures Inv(s.(hour := s.hour.(count := s.hour.count + 1), day := s.day.(count := s.day.count + 1)),
                h.(newerHour := h.newerHour + [now], newerDay := h.newerDay + [now]), now)
  {
    assert h.olderHour + (h.newerHour + [now]) == (h.olderHour + h.newerHour) + [now];
    assert h.olderDay + (h.newerDay + [now]) == (h.olderDay + h.newerDay) + [now];
  }

  lemma CheckKeepsInv(s: Stats, h: History, before: int, now: int)
    requires Inv(s, h, before) && before <= now
    ensures Inv(Check(s, now).0, AfterCheck(s, h, now), now)
    ensures Times(AfterCheck(s, h, now)) == if Check(s, now).1 then Times(h) + [now] else Times(h)
  {
    if !Banned(s, now) {
      RestartsKeepInv(s, h, before, now);
      var s1 := s.(hour := Restart(s.hour, now, HOUR), day := Restart(s.day, now, DAY));
      var h1 := AfterRestarts(s, h, now);
      if Check(s, now).1 { CountKeepsInv(s1, h1, now); }
      assert Times(h1) == Times(h);
      assert h1.olderHour + (h1.newerHour + [now]) == Times(h1) + [now];
    }
  }

  // ---- The limiter as a whole ----

  datatype Event =
    | Submitted(reporter: Addr, now: int)
    | Rejected(reporter: Addr, now: int)
    | Accepted(reporter: Addr, now: int)

  type Reporters = map<Addr, Stats>

  function StatsOf(rs: Reporters, a: Addr, now: int): Stats {
    if a in rs then rs[a] else Fresh(now)
  }

  /** RecordRejection: the fifth unanswered rejection bans the reporter for a day. */
  function Reject(s: Stats, now: int): Stats {
    var n := s.rejected + 1;
    if n >= SUSPICION_LEVEL then s.(rejected := n, bannedUntil := Some(now + BAN_DURATION)) else s.(rejected := n)
  }

  function Accept(s: Stats): Stats {
    if s.rejected > 0 then s.(rejected := s.rejected - 1) else s
  }

  function Step(rs: Reporters, e: Event): Reporters {
    match e
    case Submitted(a, now) => rs[a := Check(StatsOf(rs, a, now), now).0]
    case Rejected(a, now) => if a in rs then rs[a := Reject(rs[a], now)] else rs
    case Accepted(a, now) => if a in rs then rs[a := Accept(rs[a])] else rs
  }

  function Run(events: seq<Event>): Reporters {
    if events == [] then map[] else Step(Run(events[..|events| - 1]), events[|events| - 1])
  }

  /** The times at which the limiter let this reporter through. */
  function LetThrough(events: seq<Event>, a: Addr): seq<int> {
    if events == [] then [] else
      var rest, e := events[..|events| - 1], events[|events| - 1];
      LetThrough(rest, a) +
      if e.Submitted? && e.reporter == a && Check(StatsOf(Run(rest), a, e.now), e.now).1 then [e.now] else []
  }

  ghost predicate ClockMoves(events: seq<Event>) {
    forall i, j | 0 <= i < j < |events| :: events[i].now <= events[j].now
  }

  lemma FreshIsInv(now: int)
    ensures Inv(Fresh(now), History([], [], [], []), now)
  {
  }

  const NO_HISTORY := History([], [], [], [])

  /** A submission finds the counters it needs, whether or not the reporter is known. */
  lemma SubmitKeepsInv(rs: Reporters, a: Addr, h: History, before: int, now: int)
    requires if a in rs then Inv(rs[a], h, before) && before <= now else h == NO_HISTORY
    ensures var s := StatsOf(rs, a, now);
            && Inv(Check(s, now).0, AfterCheck(s, h, now), now)
            && Times(AfterCheck(s, h, now)) == if Check(s, now).1 then Times(h) + [now] else Times(h)
  {
    if a in rs {
      CheckKeepsInv(rs[a], h, before, now);
    } else {
      FreshIsInv(now);
      CheckKeepsInv(Fresh(now), h, now, now);
    }
  }

  lemma InvLater(s: Stats, h: History, before: int, now: int)
    requires Inv(s, h, before) && before <= now
    ensures Inv(s, h, now) && Inv(Accept(s), h, now) && Inv(Reject(s, now), h, now)
  {
  }

  /** The reporter's counters and their history go together; a reporter not known yet has neither. */
  ghost predicate Goes(rs: Reporters, a: Addr, h: History, now: int) {
    if a in rs then Inv(rs[a], h, now) else h == NO_HISTORY
  }

  lemma StepKeepsInv(rs: Reporters, e: Event, a: Addr, h: History, before: int) returns (after: History)
    requires Goes(rs, a, h, before) && (a in rs ==> before <= e.now)
    ensures Goes(Step(rs, e), a, after, e.now)
    ensures Times(after) == Times(h) +
              if e.Submitted? && e.reporter == a && Check(StatsOf(rs, a, e.now), e.now).1 then [e.now] else []
  {
    after := h;
    assert Times(h) + [] == Times(h);
    if e.Submitted? && e.reporter == a {
      SubmitKeepsInv(rs, a, h, before, e.now);
      after := AfterCheck(StatsOf(rs, a, e.now), h, e.now);
    } else if a in rs {
      InvLater(rs[a], h, before, e.now);
    }
  }

  lemma {:induction false} RunKeepsInv(events: seq<Event>, a: Addr) returns (h: History)
    requires ClockMoves(events)
    ensures Times(h) == LetThrough(events, a)
    ensures a !in Run(events) ==> h == NO_HISTORY
    ensures a in Run(events) ==> events != [] && Inv(Run(events)[a], h, events[|events| - 1].now)
    decreases |events|
  {
    if events == [] {
      return NO_HISTORY;
    }
    var rest, e := events[..|events| - 1], events[|events| - 1];
    h := RunKeepsInv(rest, a);
    var before := if rest != [] then rest[|rest| - 1].now else e.now;
    assert rest != [] ==> rest[|rest| - 1] == events[|events| - 2];
    h := StepKeepsInv(Run(rest), e, a, h, before);
  }

  /**
   * Although the windows restart at arrival times, no half-open hour lets a reporter through more
   * than 20 times and no half-open day more than 100 times, in any run.
   */
  lemma BoundedInAnyWindow(events: seq<Event>, a: Addr, from: int)
    requires ClockMoves(events)
    ensures CountIn(LetThrough(events, a), from, from + HOUR) <= 20
    ensures CountIn(LetThrough(events, a), from, from + DAY) <= 100
  {
    var h := RunKeepsInv(events, a);
    if a in Run(events) {
      var s := Run(events)[a];
      AnyWindow(h.olderHour, h.newerHour, s.hour, MAX_PER_HOUR, HOUR, from);
      AnyWindow(h.olderDay, h.newerDay, s.day, MAX_PER_DAY, DAY, from);
    }
  }

  lemma WindowFromReset(older: seq<int>, newer: seq<int>, c: Counter, limit: nat, window: int)
    requires WindowOk(older, newer, c, limit, window)
    ensures CountIn(older + newer, c.reset, c.reset + window) <= limit
  {
    CountSplits(older, newer, c.reset, c.reset + window);
    NoneAfter(older, c.reset, c.reset + window);
    CountAtMostLength(newer, c.reset, c.reset + window);
  }

  /** Each counter's own window, from its restart on, is within its limit. */
  ghost predicate OwnWindowsOk(s: Stats, times: seq<int>, now: int) {
    && CountIn(times, s.hour.reset, s.hour.reset + HOUR) <= MAX_PER_HOUR
    && CountIn(times, s.day.reset, s.day.reset + DAY) <= MAX_PER_DAY
    && s.hour.reset <= now && s.day.reset <= now
  }

  lemma InvLimits(s: Stats, h: History, now: int)
    requires Inv(s, h, now)
    ensures OwnWindowsOk(s, Times(h), now)
  {
    WindowFromReset(h.olderHour, h.newerHour, s.hour, MAX_PER_HOUR, HOUR);
    WindowFromReset(h.olderDay, h.newerDay, s.day, MAX_PER_DAY, DAY);
  }

  lemma RunLimits(events: seq<Event>, a: Addr)
    requires ClockMoves(events) && a in Run(events)
    ensures events != [] && OwnWindowsOk(Run(events)[a], LetThrough(events, a), events[|events| - 1].now)
  {
    var h := RunKeepsInv(events, a);
    InvLimits(Run(events)[a], h, events[|events| - 1].now);
  }

  /** The counter was last restarted at r, or no earlier than a whole window after it. */
  predicate SinceRestart(c: Counter, r: int, window: int) {
    c.reset == r || c.reset >= r + window
  }

  /** Where r holds the counters at some earlier time, the windows from their restarts stayed within the limits. */
  ghost predicate Limited(s: Stats, times: seq<int>, r: Stats) {
    && SinceRestart(s.hour, r.hour.reset, HOUR) && SinceRestart(s.day, r.day.reset, DAY)
    && CountIn(times, r.hour.reset, r.hour.reset + HOUR) <= MAX_PER_HOUR
    && CountIn(times, r.day.reset, r.day.reset + DAY) <= MAX_PER_DAY
  }

  /** A time let through after the counter moved on is outside the earlier window. */
  lemma LimitGoesOn(before: seq<int>, after: seq<int>, c: Counter, r: int, window: int, limit: nat, now: int)
    requires after == before || after == before + [now]
    requires SinceRestart(c, r, window) && c.reset <= now
    requires CountIn(before, r, r + window) <= limit && CountIn(after, c.reset, c.reset + window) <= limit
    ensures CountIn(after, r, r + window) <= limit
  {
    if c.reset != r && after != before {
      CountSplits(before, [now], r, r + window);
      NoneFrom([now], r, r + window);
    }
  }

  lemma LimitedGoesOn(s: Stats, t: Stats, before: seq<int>, after: seq<int>, r: Stats, now: int)
    requires Limited(s, before, r) && OwnWindowsOk(t, after, now)
    requires t.hour.reset == s.hour.reset || t.hour.reset >= s.hour.reset + HOUR
    requires t.day.reset == s.day.reset || t.day.reset >= s.day.reset + DAY
    requires after == before || after == before + [now]
    ensures Limited(t, after, r)
  {
    LimitGoesOn(before, after, t.hour, r.hour.reset, HOUR, MAX_PER_HOUR, now);
    LimitGoesOn(before, after, t.day, r.day.reset, DAY, MAX_PER_DAY, now);
  }

  /** One event restarts a counter only after its window, and lets through at most one more. */
  lemma StepMovesOn(rest: seq<Event>, e: Event, a: Addr)
    requires a in Run(rest)
    ensures a in Run(rest + [e])
    ensures var s, t := Run(rest)[a], Run(rest + [e])[a];
            && (t.hour.reset == s.hour.reset || t.hour.reset >= s.hour.reset + HOUR)
            && (t.day.reset == s.day.reset || t.day.reset >= s.day.reset + DAY)
    ensures LetThrough(rest + [e], a) == LetThrough(rest, a)
            || LetThrough(rest + [e], a) == LetThrough(rest, a) + [e.now]
  {
    assert (rest + [e])[..|rest|] == rest;
    assert LetThrough(rest, a) + [] == LetThrough(rest, a);
  }

  /**
   * What the limits do promise: an hour that begins with a restart of the hour's counter lets the
   * reporter through at most 10 times, and a day that begins with a restart of the day's at most 50.
   */
  lemma {:induction false} LimitFromARestart(events: seq<Event>, a: Addr, k: nat)
    requires ClockMoves(events) && k <= |events| && a in Run(events[..k])
    ensures a in Run(events) && Limited(Run(events)[a], LetThrough(events, a), Run(events[..k])[a])
    decreases |events|
  {
    if k == |events| {
      assert events[..k] == events;
      RunLimits(events, a);
    } else {
      var rest, e := events[..|events| - 1], events[|events| - 1];
      assert rest[..k] == events[..k] && rest + [e] == events;
      LimitFromARestart(rest, a, k);
      StepMovesOn(rest, e, a);
      RunLimits(events, a);
      LimitedGoesOn(Run(rest)[a], Run(events)[a], LetThrough(rest, a), LetThrough(events, a), Run(events[..k])[a],
                    e.now);
    }
  }

  lemma {:induction false} AllWithin(times: seq<int>, from: int, to: int)
    requires forall i | 0 <= i < |times| :: from <= times[i] < to
    ensures CountIn(times, from, to) == |times|
    decreases |times|
  {
    if times != [] { AllWithin(times[..|times| - 1], from, to); }
  }

  /** What the counter holds after a possible restart was let through within the last window. */
  lemma CounterIsRecent(older: seq<int>, newer: seq<int>, c: Counter, limit: nat, window: int, before: int, now: int)
    requires WindowOk(older, newer, c, limit, window) && before <= now
    requires forall i | 0 <= i < |newer| :: c.reset <= newer[i] <= before
    ensures Restart(c, now, window).count <= CountIn(older + newer, now - window + 1, now + 1)
  {
    if now - c.reset < window {
      CountSplits(older, newer, now - window + 1, now + 1);
      AllWithin(newer, now - window + 1, now + 1);
    }
  }

  /**
   * The other direction: a reporter who is not banned and has been let through fewer than 10 times
   * in the last hour and fewer than 50 times in the last day is let through.
   */
  lemma LetThroughBelowTheLimits(events: seq<Event>, a: Addr, now: int)
    requires ClockMoves(events) && (events != [] ==> events[|events| - 1].now <= now)
    requires var ban := StatsOf(Run(events), a, now).bannedUntil; ban.Some? ==> ban.value <= now
    requires CountIn(LetThrough(events, a), now - HOUR + 1, now + 1) < MAX_PER_HOUR
    requires CountIn(LetThrough(events, a), now - DAY + 1, now + 1) < MAX_PER_DAY
    ensures Check(StatsOf(Run(events), a, now), now).1
  {
    var h := RunKeepsInv(events, a);
    if a in Run(events) {
      CountersAreRecent(Run(events)[a], h, events[|events| - 1].now, now);
    }
  }

  lemma CountersAreRecent(s: Stats, h: History, before: int, now: int)
    requires Inv(s, h, before) && before <= now
    ensures Restart(s.hour, now, HOUR).count <= CountIn(Times(h), now - HOUR + 1, now + 1)
    ensures Restart(s.day, now, DAY).count <= CountIn(Times(h), now - DAY + 1, now + 1)
  {
    CounterIsRecent(h.olderHour, h.newerHour, s.hour, MAX_PER_HOUR, HOUR, before, now);
    CounterIsRecent(h.olderDay, h.newerDay, s.day, MAX_PER_DAY, DAY, before, now);
  }

  /** The reporter is banned at least until t. */
  predicate BannedUntil(rs: Reporters, a: Addr, t: int) {
    a in rs && rs[a].bannedUntil.Some? && rs[a].bannedUntil.value >= t
  }

  /** Once five rejections have piled up, nothing lets the reporter through for a day, whatever happens meanwhile. */
  lemma {:induction false} BanHolds(events: seq<Event>, k: nat, now: int)
    requires ClockMoves(events) && k < |events| && events[k].Rejected?
    requires var rs := Run(events[..k]); var a := events[k].reporter; a in rs && rs[a].rejected + 1 >= SUSPICION_LEVEL
    ensures BannedUntil(Run(events), events[k].reporter, events[k].now + BAN_DURATION)
    ensures now < events[k].now + BAN_DURATION ==> !Check(StatsOf(Run(events), events[k].reporter, now), now).1
    decreases |events|
  {
    var rest := events[..|events| - 1];
    if k < |rest| {
      assert rest[..k] == events[..k] && rest[k] == events[k];
      BanHolds(rest, k, now);
    } else {
      assert rest == events[..k];
    }
  }

  // ---- Rejections ----

  /** Rejections less acceptances of a reporter. */
  function Surplus(events: seq<Event>, a: Addr): int {
    if events == [] then 0 else
      var e := events[|events| - 1];
      Surplus(events[..|events| - 1], a) +
      if e.Rejected? && e.reporter == a then 1 else if e.Accepted? && e.reporter == a then -1 else 0
  }

  /** Nothing is counted before the reporter's first submission. */
  ghost predicate CountsFrom(events: seq<Event>, a: Addr, j: nat) {
    j <= |events| && a in Run(events[..j])
  }

  lemma SurplusGrows(events: seq<Event>, a: Addr, j: nat)
    requires j < |events|
    ensures var rest, e := events[..|events| - 1], events[|events| - 1];
            Surplus(events[j..], a) == Surplus(rest[j..], a) +
              if e.Rejected? && e.reporter == a then 1 else if e.Accepted? && e.reporter == a then -1 else 0
  {
    var rest := events[..|events| - 1];
    assert events[j..][..|events[j..]| - 1] == rest[j..];
  }

  /** A reporter once known stays known. */
  lemma {:induction false} StaysKnown(events: seq<Event>, a: Addr, j: nat)
    requires CountsFrom(events, a, j)
    ensures a in Run(events)
    decreases |events|
  {
    if j < |events| {
      var rest := events[..|events| - 1];
      assert rest[..j] == events[..j];
      StaysKnown(rest, a, j);
    } else {
      assert events[..j] == events;
    }
  }

  /** The rejections on record are the largest surplus of any stretch that lasts until now. */
  ghost predicate IsLargestSurplus(events: seq<Event>, a: Addr, n: nat) {
    && (forall j: nat | CountsFrom(events, a, j) :: Surplus(events[j..], a) <= n)
    && (exists j: nat :: CountsFrom(events, a, j) && Surplus(events[j..], a) == n)
  }

  lemma {:induction false} RejectionsAreSurplus(events: seq<Event>, a: Addr)
    requires a in Run(events)
    ensures IsLargestSurplus(events, a, Run(events)[a].rejected)
    decreases |events|
  {
    var rest, e, n := events[..|events| - 1], events[|events| - 1], |events|;
    assert events[..n] == events && events[n..] == [];
    assert CountsFrom(events, a, n) && Surplus(events[n..], a) == 0;
    forall j: nat | j < n ensures CountsFrom(events, a, j) <==> CountsFrom(rest, a, j) {
      assert rest[..j] == events[..j];
    }
    if a in Run(rest) {
      RejectionsAreSurplus(rest, a);
      SurplusStep(events, a, Run(rest)[a].rejected, Run(events)[a].rejected);
    } else {
      forall j: nat | CountsFrom(events, a, j) ensures j == n {
        if j < n { StaysKnown(rest, a, j); }
      }
    }
  }

  lemma SurplusStep(events: seq<Event>, a: Addr, before: nat, after: nat)
    requires events != []
    requires var rest := events[..|events| - 1];
             && IsLargestSurplus(rest, a, before)
             && forall j: nat | j < |events| :: CountsFrom(events, a, j) <==> CountsFrom(rest, a, j)
    requires CountsFrom(events, a, |events|) && Surplus(events[|events|..], a) == 0
    requires var e := events[|events| - 1];
             after == if e.Rejected? && e.reporter == a then before + 1
                      else if e.Accepted? && e.reporter == a && before > 0 then before - 1 else before
    ensures IsLargestSurplus(events, a, after)
  {
    var rest := events[..|events| - 1];
    forall j: nat | CountsFrom(events, a, j) ensures Surplus(events[j..], a) <= after {
      if j < |events| { SurplusGrows(events, a, j); }
    }
    var j: nat :| CountsFrom(rest, a, j) && Surplus(rest[j..], a) == before;
    SurplusGrows(events, a, j);
    if Surplus(events[j..], a) != after {
      assert after == 0 && Surplus(events[|events|..], a) == after;
    }
  }

  /** The k-th event is a rejection that bans the reporter: the fifth in surplus, or a later one. */
  ghost predicate Bans(events: seq<Event>, a: Addr, k: nat) {
    && k < |events| && events[k].Rejected? && events[k].reporter == a
    && a in Run(events[..k]) && Run(events[..k])[a].rejected + 1 >= 5
  }

  /** t is what the last of the first n that are marked says, if any is. */
  ghost predicate IsLast(marked: nat -> bool, says: nat -> int, n: nat, t: Option<int>) {
    match t
    case None => forall k: nat | k < n :: !marked(k)
    case Some(x) => exists k: nat :: k < n && marked(k) && x == says(k) && forall i: nat | k < i < n :: !marked(i)
  }

  lemma LastGoesOn(marked: nat -> bool, says: nat -> int, marked': nat -> bool, says': nat -> int, n: nat,
                   before: Option<int>, after: Option<int>)
    requires IsLast(marked, says, n, before)
    requires forall k: nat | k < n :: (marked'(k) <==> marked(k)) && says'(k) == says(k)
    requires after == if marked'(n) then Some(says'(n)) else before
    ensures IsLast(marked', says', n + 1, after)
  {
    if !marked'(n) && before.Some? {
      var k: nat :| k < n && marked(k) && before.value == says(k) && forall i: nat | k < i < n :: !marked(i);
      assert marked'(k) && after.value == says'(k) && forall i: nat | k < i < n + 1 :: !marked'(i);
    }
  }

  ghost function Banning(events: seq<Event>, a: Addr): nat -> bool {
    (k: nat) => Bans(events, a, k)
  }

  function BannedTo(events: seq<Event>): nat -> int {
    (k: nat) => if k < |events| then events[k].now + 24 * HOUR else 0
  }

  /** What one event does to the ban. */
  lemma BanAfter(rs: Reporters, e: Event, a: Addr)
    requires a in Step(rs, e)
    ensures Step(rs, e)[a].bannedUntil ==
            if e.Rejected? && e.reporter == a && a in rs && rs[a].rejected + 1 >= 5 then Some(e.now + 24 * HOUR)
            else if a in rs then rs[a].bannedUntil else None
  {
  }

  lemma BansSame(rest: seq<Event>, e: Event, a: Addr, k: nat)
    requires k < |rest|
    ensures Bans(rest + [e], a, k) <==> Bans(rest, a, k)
  {
    assert (rest + [e])[..k] == rest[..k];
  }

  lemma BanStep(rest: seq<Event>, e: Event, a: Addr)
    requires a in Run(rest + [e])
    ensures var events, n := rest + [e], |rest|;
            Run(events)[a].bannedUntil ==
              if Bans(events, a, n) then Some(e.now + 24 * HOUR)
              else if a in Run(rest) then Run(rest)[a].bannedUntil else None
  {
    assert (rest + [e])[..|rest|] == rest;
    BanAfter(Run(rest), e, a);
  }

  lemma NoBanYet(events: seq<Event>, a: Addr)
    requires a !in Run(events)
    ensures IsLast(Banning(events, a), BannedTo(events), |events|, None)
  {
    forall k: nat | k < |events| ensures !Bans(events, a, k) {
      if Bans(events, a, k) { StaysKnown(events, a, k); }
    }
  }

  lemma {:induction false} LastBan(events: seq<Event>, a: Addr)
    requires a in Run(events)
    ensures IsLast(Banning(events, a), BannedTo(events), |events|, Run(events)[a].bannedUntil)
    decreases |events|
  {
    var rest, e := events[..|events| - 1], events[|events| - 1];
    assert events == rest + [e];
    BanStep(rest, e, a);
    forall k: nat | k < |rest| ensures Bans(events, a, k) <==> Bans(rest, a, k) { BansSame(rest, e, a, k); }
    if a in Run(rest) { LastBan(rest, a); } else { NoBanYet(rest, a); }
    LastGoesOn(Banning(rest, a), BannedTo(rest), Banning(events, a), BannedTo(events), |rest|,
               if a in Run(rest) then Run(rest)[a].bannedUntil else None, Run(events)[a].bannedUntil);
  }

  /** A ban lasts a day from the last event that bans, and there is none without such an event. */
  lemma BanIs(events: seq<Event>, a: Addr)
    requires a in Run(events)
    ensures match Run(events)[a].bannedUntil
            case None => forall k: nat | k < |events| :: !Bans(events, a, k)
            case Some(t) => exists k: nat :: Bans(events, a, k) && t == events[k].now + 24 * HOUR
                                             && forall i: nat | k < i < |events| :: !Bans(events, a, i)
  {
    LastBan(events, a);
    var marked, says, ban := Banning(events, a), BannedTo(events), Run(events)[a].bannedUntil;
    assert forall k: nat :: marked(k) <==> Bans(events, a, k);
    if ban.Some? {
      var k: nat :| k < |events| && marked(k) && ban.value == says(k) && forall i: nat | k < i < |events| :: !marked(i);
      assert Bans(events, a, k) && forall i: nat | k < i < |events| :: !Bans(events, a, i);
    }
  }

  // ---- The methods ----

  class EvidenceRateLimiter {
    var reporters: Reporters

    constructor ()
      ensures reporters == map[]
    {
      reporters := map[];
    }

    method CheckReporter(a: Addr, now: int) returns (ok: bool)
      modifies this
      ensures reporters == Step(old(reporters), Submitted(a, now))
      ensures ok == Check(StatsOf(old(reporters), a, now), now).1
    {
      var stats := if a in reporters then reporters[a] else Fresh(now);
      ghost var before := stats;
      reporters := reporters[a := stats];
      if stats.bannedUntil.Some? && now < stats.bannedUntil.value {
        return false;
      }
      if now - stats.hour.reset >= HOUR {
        stats := stats.(hour := Counter(0, now));
      }
      if now - stats.day.reset >= DAY {
        stats := stats.(day := Counter(0, now));
      }
      ok := stats.hour.count < MAX_PER_HOUR && stats.day.count < MAX_PER_DAY;
      if ok {
        stats := stats.(hour := stats.hour.(count := stats.hour.count + 1),
                        day := stats.day.(count := stats.day.count + 1));
      }
      assert stats == Check(before, now).0;
      reporters := reporters[a := stats];
    }

    method RecordRejection(a: Addr, now: int)
      modifies this
      ensures reporters == Step(old(reporters), Rejected(a, now))
    {
      if a in reporters {
        var stats := reporters[a].(rejected := reporters[a].rejected + 1);
        if stats.rejected >= SUSPICION_LEVEL {
          stats := stats.(bannedUntil := Some(now + BAN_DURATION));
        }
        reporters := reporters[a := stats];
      }
    }

    method RecordAcceptance(a: Addr, now: int)
      modifies this
      ensures reporters == Step(old(reporters), Accepted(a, now))
    {
      if a in reporters {
        if reporters[a].rejected > 0 {
          reporters := reporters[a := reporters[a].(rejected := reporters[a].rejected - 1)];
        }
      }
    }
  }
}
