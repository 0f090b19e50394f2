/** ProcessEvidence: the layers a report passes before anyone is slashed. */
module EvidencePipeline {
  import opened Base
  import RateLimiter
  import Confirmations

  type EvidenceId = Confirmations.EvidenceId

  /** A report. The deduplication digest covers all of it, reporter and creation time included. */
  datatype Report = Report(id: EvidenceId, reporter: Addr, createdAt: int)

  const GRACE_HEIGHT: int := 100

  /** Evidence kinds in declaration order; a kind without an entry has no cooldown. */
  const DOUBLE_VOTING := 0
  const SURROUND_VOTING := 1
  const INVALID_PROPOSAL := 2
  const DOWNTIME := 3
  const INVALID_SIGNATURE := 4

  function Cooldown(kind: nat): int {
    if kind == DOUBLE_VOTING || kind == SURROUND_VOTING then 2 * RateLimiter.HOUR
    else if kind == INVALID_PROPOSAL || kind == INVALID_SIGNATURE then RateLimiter.HOUR
    else if kind == DOWNTIME then 6 * RateLimiter.HOUR
    else 0
  }

  /**
   * confirmLog and executed are histories: the confirmations that reached layer five, and the
   * reports that were executed, with their times.
   */
  datatype State = State(
    reporters: RateLimiter.Reporters,
    pending: Confirmations.Pending,
    processed: set<Report>,
    lastSlashed: map<(Addr, nat), int>,
    confirmLog: seq<Confirmations.Event>,
    executed: seq<(Report, int)>)

  const EMPTY: State := State(map[], map[], {}, map[], [], [])

  datatype Outcome =
    | Ignored | RateLimited | Invalid | AlreadyProcessed | CoolingDown | Unconfirmed | Waiting | ApplyFailed | Executed

  /** valid and applied are the verdicts of signature checking and of the slashing step itself. */
  datatype Env = Env(height: int, now: int, valid: bool, applied: bool)

  predicate CoolsDown(s: State, r: Report, now: int) {
    (r.id.accused, r.id.kind) in s.lastSlashed && now - s.lastSlashed[(r.id.accused, r.id.kind)] < Cooldown(r.id.kind)
  }

  function Confirm(s: State, r: Report, now: int): (State, Confirmations.Answer) {
    var (pending, answer) := Confirmations.Confirm(s.pending, r.id, r.reporter, now);
    (s.(pending := pending, confirmLog := s.confirmLog + [Confirmations.Confirmed(r.id, r.reporter, now)]), answer)
  }

  /** Layers six to nine, for a report that is ready. */
  function Execute(s: State, r: Report, env: Env): (State, Outcome) {
    var s1 := s.(processed := s.processed + {r},
                 reporters := RateLimiter.Step(s.reporters, RateLimiter.Accepted(r.reporter, env.now)));
    if !env.applied then (s1, ApplyFailed)
    else (s1.(lastSlashed := s1.lastSlashed[(r.id.accused, r.id.kind) := env.now],
              executed := s1.executed + [(r, env.now)]), Executed)
  }

  /** Layers three to nine, for a report that the limiter let through and that is valid. */
  function Admit(s: State, r: Report, env: Env): (State, Outcome) {
    if r in s.processed then (s, AlreadyProcessed)
    else if CoolsDown(s, r, env.now) then (s, CoolingDown)
    else
      var (s1, answer) := Confirm(s, r, env.now);
      match answer
      case Ready => Execute(s1, r, env)
      case NotReady => (s1, Waiting)
      case Expired => (s1, Unconfirmed)
      case OwnSlashing => (s1, Unconfirmed)
  }

  function Process(s: State, r: Report, env: Env): (State, Outcome) {
    if env.height < GRACE_HEIGHT then (s, Ignored) else
      var allowed := RateLimiter.Check(RateLimiter.StatsOf(s.reporters, r.reporter, env.now), env.now).1;
      var s1 := s.(reporters := RateLimiter.Step(s.reporters, RateLimiter.Submitted(r.reporter, env.now)));
      if !allowed then (s1, RateLimited)
      else if !env.valid then
        (s1.(reporters := RateLimiter.Step(s1.reporters, RateLimiter.Rejected(r.reporter, env.now))), Invalid)
      else Admit(s1, r, env)
  }

  function DropExpired(s: State, now: int): State {
    s.(pending := Confirmations.CleanupExpired(s.pending, now),
       confirmLog := s.confirmLog + [Confirmations.CleanedUp(now)])
  }

  // ---- Invariants ----

  /** The confirmation table is what its own history makes it, and that history is in order. */
  ghost predicate LogOk(s: State, now: int) {
    && s.pending == Confirmations.Run(s.confirmLog)
    && Confirmations.ClockMoves(s.confirmLog)
    && forall e | e in s.confirmLog :: e.now <= now
  }

  /** Executions against one validator for one kind are a cooldown apart, and no report is executed twice. */
  ghost predicate ExecutedOk(s: State, now: int) {
    && (forall i | 0 <= i < |s.executed| ::
          var (r, t) := s.executed[i];
          && r in s.processed && t <= now
          && (r.id.accused, r.id.kind) in s.lastSlashed && t <= s.lastSlashed[(r.id.accused, r.id.kind)])
    && (forall i, j | 0 <= i < j < |s.executed| :: ApartOk(s.executed[i], s.executed[j]))
    && (forall k | k in s.lastSlashed :: s.lastSlashed[k] <= now)
  }

  ghost predicate ApartOk(a: (Report, int), b: (Report, int)) {
    && a.0 != b.0
    && (a.0.id.accused == b.0.id.accused && a.0.id.kind == b.0.id.kind ==> b.1 - a.1 >= Cooldown(a.0.id.kind))
  }

  lemma LogGrows(s: State, t: State, e: Confirmations.Event, before: int)
    requires LogOk(s, before) && before <= e.now
    requires t.confirmLog == s.confirmLog + [e] && t.pending == Confirmations.Apply(s.pending, e)
    ensures LogOk(t, e.now)
  {
    assert t.confirmLog[..|t.confirmLog| - 1] == s.confirmLog;
    forall i, j | 0 <= i < j < |t.confirmLog| ensures t.confirmLog[i].now <= t.confirmLog[j].now {
      if j == |s.confirmLog| { assert t.confirmLog[i] in s.confirmLog; }
    }
  }

  lemma ExecutedGrows(s: State, t: State, r: Report, now: int)
    requires ExecutedOk(s, now) && r !in s.processed && !CoolsDown(s, r, now)
    requires t.executed == s.executed + [(r, now)] && t.processed == s.processed + {r}
    requires t.lastSlashed == s.lastSlashed[(r.id.accused, r.id.kind) := now]
    ensures ExecutedOk(t, now)
  {
    forall i, j | 0 <= i < j < |t.executed| ensures ApartOk(t.executed[i], t.executed[j]) {
      if j == |s.executed| {
        assert s.executed[i] == t.executed[i];
      } else {
        assert ApartOk(s.executed[i], s.executed[j]);
      }
    }
  }

  ghost predicate Inv(s: State, now: int) {
    LogOk(s, now) && ExecutedOk(s, now)
  }

  lemma InvLater(s: State, before: int, now: int)
    requires Inv(s, before) && before <= now
    ensures Inv(s, now)
  {
    forall i | 0 <= i < |s.executed| ensures s.executed[i].1 <= now {
      var (r, t) := s.executed[i];
    }
    assert ExecutedOk(s, now);
  }

  /** How one report may change the histories. */
  ghost predicate Shape(s: State, r: Report, now: int, t: State, outcome: Outcome) {
    && LogShape(s, Confirmations.Confirmed(r.id, r.reporter, now), t)
    && if outcome.Executed? then
         && r !in s.processed && !CoolsDown(s, r, now)
         && t.executed == s.executed + [(r, now)] && t.processed == s.processed + {r}
         && t.lastSlashed == s.lastSlashed[(r.id.accused, r.id.kind) := now]
       else t.executed == s.executed && t.lastSlashed == s.lastSlashed && s.processed <= t.processed
  }

  ghost predicate LogShape(s: State, e: Confirmations.Event, t: State) {
    || (t.confirmLog == s.confirmLog && t.pending == s.pending)
    || (t.confirmLog == s.confirmLog + [e] && t.pending == Confirmations.Apply(s.pending, e))
  }

  lemma AdmitShape(s: State, r: Report, env: Env)
    ensures Shape(s, r, env.now, Admit(s, r, env).0, Admit(s, r, env).1)
  {
  }

  lemma ProcessShape(s: State, r: Report, env: Env)
    ensures Shape(s, r, env.now, Process(s, r, env).0, Process(s, r, env).1)
  {
    AdmitShape(s.(reporters := RateLimiter.Step(s.reporters, RateLimiter.Submitted(r.reporter, env.now))), r, env);
  }

  lemma ExecutedKept(s: State, t: State, now: int)
    requires ExecutedOk(s, now)
    requires t.executed == s.executed && t.lastSlashed == s.lastSlashed && s.processed <= t.processed
    ensures ExecutedOk(t, now)
  {
  }

  lemma ShapeKeepsInv(s: State, r: Report, now: int, t: State, outcome: Outcome)
    requires Inv(s, now) && Shape(s, r, now, t, outcome)
    ensures Inv(t, now)
  {
    if t.confirmLog != s.confirmLog { LogGrows(s, t, Confirmations.Confirmed(r.id, r.reporter, now), now); }
    if outcome.Executed? { ExecutedGrows(s, t, r, now); } else { ExecutedKept(s, t, now); }
  }

  lemma ProcessKeepsInv(s: State, r: Report, env: Env, before: int)
    requires Inv(s, before) && before <= env.now
    ensures Inv(Process(s, r, env).0, env.now)
  {
    InvLater(s, before, env.now);
    ProcessShape(s, r, env);
    ShapeKeepsInv(s, r, env.now, Process(s, r, env).0, Process(s, r, env).1);
  }

  /**
   * A report is executed only if at least three reporters other than the accused confirmed the same
   * evidence within one ten-minute window.
   */
  lemma ExecutionIsConfirmed(s: State, r: Report, env: Env, before: int)
    requires Inv(s, before) && before <= env.now
    requires Process(s, r, env).1.Executed?
    ensures exists reporters: set<Addr>, from ::
              |reporters| >= Confirmations.REQUIRED
              && Confirmations.ConfirmedBy(Process(s, r, env).0.confirmLog, r.id, reporters, from)
  {
    var e := Confirmations.Confirmed(r.id, r.reporter, env.now);
    LogGrows(s, s.(confirmLog := s.confirmLog + [e], pending := Confirmations.Apply(s.pending, e)), e, before);
    Confirmations.ReadyMeansConfirmed(s.confirmLog, r.id, r.reporter, env.now);
  }

  /** How long, in nanoseconds, a validator is left alone after an execution of this kind. */
  function Rest(kind: nat): int {
    if kind == 0 || kind == 1 then 7_200_000_000_000
    else if kind == 2 || kind == 4 then 3_600_000_000_000
    else if kind == 3 then 21_600_000_000_000
    else 0
  }

  /** This report brings the different reporters, the accused apart, to three within the open window. */
  ghost predicate Completes(pending: Confirmations.Pending, r: Report, now: int) {
    var open := r.id in pending;
    && r.reporter != r.id.accused
    && (open ==> now <= pending[r.id].submittedAt + 600_000_000_000)
    && |(if open then pending[r.id].confirmers.Keys else {}) + {r.reporter}| >= 3
  }

  /** The layers after validity: new, rested, confirmed, applied. */
  lemma AdmitExecutesIff(s: State, r: Report, env: Env)
    ensures var (t, outcome) := Admit(s, r, env);
            var key := (r.id.accused, r.id.kind);
            && (outcome.Executed? <==>
                && r !in s.processed
                && (key in s.lastSlashed ==> env.now - s.lastSlashed[key] >= Rest(r.id.kind))
                && Completes(s.pending, r, env.now) && env.applied)
            && (outcome.Executed? ==>
                  t.executed == s.executed + [(r, env.now)] && t.lastSlashed == s.lastSlashed[key := env.now]
                  && t.processed == s.processed + {r} && r.id !in t.pending)
  {
    Confirmations.ReadyIff(s.pending, r.id, r.reporter, env.now);
  }

  /** What a report leaves behind that is not executed. */
  lemma NotExecuted(s: State, r: Report, env: Env)
    ensures var (t, outcome) := Admit(s, r, env);
            && (outcome.ApplyFailed? ==> t.processed == s.processed + {r} && t.lastSlashed == s.lastSlashed)
            && (!outcome.Executed? && !outcome.ApplyFailed? ==> t.processed == s.processed)
  {
  }

  /** The limiter and the validity check come first. */
  lemma ProcessIs(s: State, r: Report, env: Env, s1: State)
    requires s1 == s.(reporters := RateLimiter.Step(s.reporters, RateLimiter.Submitted(r.reporter, env.now)))
    ensures if env.height < 100 then Process(s, r, env) == (s, Ignored)
            else if !RateLimiter.Check(RateLimiter.StatsOf(s.reporters, r.reporter, env.now), env.now).1
            then Process(s, r, env) == (s1, RateLimited)
            else if !env.valid
            then Process(s, r, env) ==
                 (s1.(reporters := RateLimiter.Step(s1.reporters, RateLimiter.Rejected(r.reporter, env.now))), Invalid)
            else Process(s, r, env) == Admit(s1, r, env) && Process(s, r, env).1 !in {Ignored, RateLimited, Invalid}
  {
  }

  /**
   * A report is executed if and only if the chain has passed its first hundred blocks, the limiter lets its reporter
   * through, it is valid and new, the validator's rest is over, it completes the confirmations, and the penalty goes
   * through. The execution is then on record with its time; a penalty that fails still uses the report up.
   */
  lemma ExecutedIff(s: State, r: Report, env: Env)
    ensures var (t, outcome) := Process(s, r, env);
            var key := (r.id.accused, r.id.kind);
            && (outcome.Executed? <==>
                && env.height >= 100
                && RateLimiter.Check(RateLimiter.StatsOf(s.reporters, r.reporter, env.now), env.now).1
                && env.valid && r !in s.processed
                && (key in s.lastSlashed ==> env.now - s.lastSlashed[key] >= Rest(r.id.kind))
                && Completes(s.pending, r, env.now) && env.applied)
            && (outcome.Executed? ==>
                  t.executed == s.executed + [(r, env.now)] && t.lastSlashed == s.lastSlashed[key := env.now]
                  && t.processed == s.processed + {r} && r.id !in t.pending)
            && (outcome.ApplyFailed? ==> t.processed == s.processed + {r} && t.lastSlashed == s.lastSlashed)
            && (!outcome.Executed? && !outcome.ApplyFailed? ==> t.processed == s.processed)
  {
    var s1 := s.(reporters := RateLimiter.Step(s.reporters, RateLimiter.Submitted(r.reporter, env.now)));
    ProcessIs(s, r, env, s1);
    AdmitExecutesIff(s1, r, env);
    NotExecuted(s1, r, env);
  }

  function RejectionsOf(rs: RateLimiter.Reporters, a: Addr): nat {
    if a in rs then rs[a].rejected else 0
  }

  lemma RejectionsAfter(rs: RateLimiter.Reporters, e: RateLimiter.Event, a: Addr)
    ensures RejectionsOf(RateLimiter.Step(rs, e), a) ==
            if e.reporter == a && a in rs && e.Rejected? then RejectionsOf(rs, a) + 1
            else if e.reporter == a && e.Accepted? && RejectionsOf(rs, a) > 0 then RejectionsOf(rs, a) - 1
            else RejectionsOf(rs, a)
  {
  }

  lemma AdmitReporters(s: State, r: Report, env: Env)
    ensures var (t, outcome) := Admit(s, r, env);
            t.reporters == if outcome.Executed? || outcome.ApplyFailed?
                           then RateLimiter.Step(s.reporters, RateLimiter.Accepted(r.reporter, env.now))
                           else s.reporters
  {
  }

  /** An invalid report counts against its reporter, and one that reaches execution cancels an earlier one. */
  lemma StandingAfter(s: State, r: Report, env: Env, a: Addr)
    ensures var (t, outcome) := Process(s, r, env);
            var before, after := RejectionsOf(s.reporters, a), RejectionsOf(t.reporters, a);
            if a == r.reporter && outcome.Invalid? then after == before + 1
            else if a == r.reporter && (outcome.Executed? || outcome.ApplyFailed?)
            then after == if before > 0 then before - 1 else 0
            else after == before
  {
    var submitted := RateLimiter.Submitted(r.reporter, env.now);
    var s1 := s.(reporters := RateLimiter.Step(s.reporters, submitted));
    ProcessIs(s, r, env, s1);
    RejectionsAfter(s.reporters, submitted, a);
    RejectionsAfter(s1.reporters, RateLimiter.Rejected(r.reporter, env.now), a);
    RejectionsAfter(s1.reporters, RateLimiter.Accepted(r.reporter, env.now), a);
    AdmitReporters(s1, r, env);
  }

  // ---- Runs ----

  datatype Event = Reported(report: Report, env: Env) | CleanedUp(now: int)

  function Time(e: Event): int {
    match e
    case Reported(_, env) => env.now
    case CleanedUp(now) => now
  }

  function Apply(s: State, e: Event): State {
    match e
    case Reported(r, env) => Process(s, r, env).0
    case CleanedUp(now) => DropExpired(s, now)
  }

  function Run(events: seq<Event>): State {
    if events == [] then EMPTY else Apply(Run(events[..|events| - 1]), events[|events| - 1])
  }

  ghost predicate ClockMoves(events: seq<Event>) {
    forall i, j | 0 <= i < j < |events| :: Time(events[i]) <= Time(events[j])
  }

  /** In every run, executions of one kind against one validator are at least its cooldown apart. */
  lemma {:induction false} RunKeepsInv(events: seq<Event>)
    requires events != [] && ClockMoves(events)
    ensures Inv(Run(events), Time(events[|events| - 1]))
    decreases |events|
  {
    var rest, e := events[..|events| - 1], events[|events| - 1];
    var now := Time(e);
    if rest == [] {
      assert Inv(EMPTY, now);
    } else {
      assert rest[|rest| - 1] == events[|events| - 2];
      RunKeepsInv(rest);
      InvLater(Run(rest), Time(rest[|rest| - 1]), now);
    }
    match e
    case Reported(r, env) => ProcessKeepsInv(Run(rest), r, env, now);
    case CleanedUp(_) => LogGrows(Run(rest), DropExpired(Run(rest), now), Confirmations.CleanedUp(now), now);
  }

  lemma ExecutionsAreApart(events: seq<Event>, i: nat, j: nat)
    requires events != [] && ClockMoves(events)
    requires i < j < |Run(events).executed|
    requires var a, b := Run(events).executed[i].0.id, Run(events).executed[j].0.id;
             a.accused == b.accused && a.kind == b.kind
    ensures Run(events).executed[j].1 - Run(events).executed[i].1 >= Cooldown(Run(events).executed[i].0.id.kind)
    ensures Run(events).executed[i].0 != Run(events).executed[j].0
  {
    RunKeepsInv(events);
    assert ApartOk(Run(events).executed[i], Run(events).executed[j]);
  }

  // ---- The method ----

  class SlashingPipeline {
    const rateLimiter: RateLimiter.EvidenceRateLimiter
    const confirmations: Confirmations.SlashingConfirmation
    var processedEvidence: set<Report>
    var lastSlashed: map<(Addr, nat), int>
    ghost var confirmLog: seq<Confirmations.Event>
    ghost var executed: seq<(Report, int)>

    ghost function Now(): State
      reads this, rateLimiter, confirmations
    {
      State(rateLimiter.reporters, confirmations.pending, processedEvidence, lastSlashed, confirmLog, executed)
    }

    constructor (limiter: RateLimiter.EvidenceRateLimiter, table: Confirmations.SlashingConfirmation)
      ensures rateLimiter == limiter && confirmations == table
      ensures processedEvidence == {} && lastSlashed == map[] && confirmLog == [] && executed == []
    {
      rateLimiter, confirmations := limiter, table;
      processedEvidence, lastSlashed, confirmLog, executed := {}, map[], [], [];
    }

    method ProcessEvidence(r: Report, env: Env) returns (outcome: Outcome)
      modifies this, rateLimiter, confirmations
      ensures (Now(), outcome) == Process(old(Now()), r, env)
    {
      if env.height < GRACE_HEIGHT {
        return Ignored;
      }
      var allowed := rateLimiter.CheckReporter(r.reporter, env.now);
      if !allowed {
        return RateLimited;
      }
      if !env.valid {
        rateLimiter.RecordRejection(r.reporter, env.now);
        return Invalid;
      }
      if r in processedEvidence {
        return AlreadyProcessed;
      }
      var key := (r.id.accused, r.id.kind);
      if key in lastSlashed && env.now - lastSlashed[key] < Cooldown(r.id.kind) {
        return CoolingDown;
      }
      var answer := confirmations.AddConfirmation(r.id, r.reporter, env.now);
      confirmLog := confirmLog + [Confirmations.Confirmed(r.id, r.reporter, env.now)];
      if answer.Expired? || answer.OwnSlashing? {
        return Unconfirmed;
      }
      if answer.NotReady? {
        return Waiting;
      }
      processedEvidence := processedEvidence + {r};
      rateLimiter.RecordAcceptance(r.reporter, env.now);
      if !env.applied {
        return ApplyFailed;
      }
      lastSlashed := lastSlashed[key := env.now];
      executed := executed + [(r, env.now)];
      outcome := Executed;
    }
  }
}
