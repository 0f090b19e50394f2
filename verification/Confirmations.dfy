/** Multi-reporter confirmation of evidence. */
module Confirmations {
  import opened Base

  const REQUIRED: nat := 3
  const WINDOW: int := 600_000_000_000

  /** Evidence as the confirmation layer sees it; its identifier is derived from type, accused and height. */
  datatype EvidenceId = EvidenceId(kind: nat, accused: Addr, height: int)

  /** confirmers maps a reporter to the time of its latest confirmation. */
  datatype Entry = Entry(confirmers: map<Addr, int>, submittedAt: int)

  type Pending = map<EvidenceId, Entry>

  datatype Answer = Ready | NotReady | Expired | OwnSlashing

  function ExpiresAt(e: Entry): int {
    e.submittedAt + WINDOW
  }

  function EntryFor(p: Pending, id: EvidenceId, now: int): Entry {
    if id in p then p[id] else Entry(map[], now)
  }

  /** AddConfirmation: the new table and the answer. */
  function Confirm(p: Pending, id: EvidenceId, reporter: Addr, now: int): (Pending, Answer) {
    var entry := EntryFor(p, id, now);
    if now > ExpiresAt(entry) then (p - {id}, Expired)
    else if reporter == id.accused then (p[id := entry], OwnSlashing)
    else
      var confirmed := entry.(confirmers := entry.confirmers[reporter := now]);
      if |confirmed.confirmers| >= REQUIRED then (p - {id}, Ready) else (p[id := confirmed], NotReady)
  }

  function CleanupExpired(p: Pending, now: int): Pending {
    map id | id in p && now <= ExpiresAt(p[id]) :: p[id]
  }

  // ---- Every confirmation in the table happened ----

  datatype Event = Confirmed(id: EvidenceId, reporter: Addr, now: int) | CleanedUp(now: int)

  function Apply(p: Pending, e: Event): Pending {
    match e
    case Confirmed(id, reporter, now) => Confirm(p, id, reporter, now).0
    case CleanedUp(now) => CleanupExpired(p, now)
  }

  function Run(events: seq<Event>): Pending {
    if events == [] then map[] else Apply(Run(events[..|events| - 1]), events[|events| - 1])
  }

  ghost predicate ClockMoves(events: seq<Event>) {
    forall i, j | 0 <= i < j < |events| :: events[i].now <= events[j].now
  }

  /** Some event is a confirmation of id by this reporter at this time. */
  ghost predicate Happened(events: seq<Event>, id: EvidenceId, reporter: Addr, time: int) {
    Confirmed(id, reporter, time) in events
  }

  ghost predicate EntryOk(events: seq<Event>, id: EvidenceId, e: Entry, now: int) {
    && |e.confirmers| < REQUIRED
    && id.accused !in e.confirmers
    && e.submittedAt <= now
    && forall r | r in e.confirmers ::
         Happened(events, id, r, e.confirmers[r]) && e.submittedAt <= e.confirmers[r] <= ExpiresAt(e)
  }

  ghost predicate PendingOk(events: seq<Event>, p: Pending, now: int) {
    forall id | id in p :: EntryOk(events, id, p[id], now)
  }

  lemma EntryOkGrows(events: seq<Event>, more: seq<Event>, id: EvidenceId, e: Entry, before: int, now: int)
    requires EntryOk(events, id, e, before) && before <= now
    requires forall x | x in events :: x in more
    ensures EntryOk(more, id, e, now)
  {
  }

  function Last(events: seq<Event>, default: int): int {
    if events == [] then default else events[|events| - 1].now
  }

  lemma ConfirmKeepsPendingOk(events: seq<Event>, p: Pending, id: EvidenceId, reporter: Addr, now: int)
    requires PendingOk(events, p, now) && Happened(events, id, reporter, now)
    ensures PendingOk(events, Confirm(p, id, reporter, now).0, now)
  {
    var q := Confirm(p, id, reporter, now).0;
    forall x | x in q ensures EntryOk(events, x, q[x], now) {
      if x != id {
        assert EntryOk(events, x, p[x], now);
      } else if id in p {
        assert EntryOk(events, id, p[id], now);
      }
    }
  }

  lemma StepKeepsPendingOk(events: seq<Event>, p: Pending, e: Event)
    requires PendingOk(events, p, e.now) && e in events
    ensures PendingOk(events, Apply(p, e), e.now)
  {
    match e
    case Confirmed(id, reporter, now) =>
      ConfirmKeepsPendingOk(events, p, id, reporter, now);
    case CleanedUp(now) =>
      forall x | x in Apply(p, e) ensures EntryOk(events, x, Apply(p, e)[x], now) {
        assert EntryOk(events, x, p[x], now);
      }
  }

  /** Every pending entry of a run holds fewer than three confirmers, all of them real and none the accused. */
  lemma {:induction false} RunKeepsPendingOk(events: seq<Event>, default: int)
    requires ClockMoves(events)
    ensures PendingOk(events, Run(events), Last(events, default))
    decreases |events|
  {
    if events != [] {
      var rest, e := events[..|events| - 1], events[|events| - 1];
      RunKeepsPendingOk(rest, e.now);
      var p, before := Run(rest), Last(rest, e.now);
      assert before <= e.now by { if rest != [] { assert rest[|rest| - 1] == events[|events| - 2]; } }
      assert events == rest + [e];
      forall id | id in p ensures EntryOk(events, id, p[id], e.now) {
        EntryOkGrows(rest, events, id, p[id], before, e.now);
      }
      StepKeepsPendingOk(events, p, e);
    }
  }

  /** The reporters behind a "ready" answer. */
  ghost predicate ConfirmedBy(events: seq<Event>, id: EvidenceId, reporters: set<Addr>, from: int) {
    && id.accused !in reporters
    && forall r | r in reporters :: exists time :: from <= time <= from + WINDOW && Happened(events, id, r, time)
  }

  /**
   * A "ready" answer means that at least three different reporters, none of them the accused, have
   * confirmed this evidence, all within one ten-minute window.
   */
  lemma ReadyMeansConfirmed(events: seq<Event>, id: EvidenceId, reporter: Addr, now: int)
    requires ClockMoves(events + [Confirmed(id, reporter, now)])
    requires Confirm(Run(events), id, reporter, now).1 == Ready
    ensures exists reporters: set<Addr>, from ::
              |reporters| >= REQUIRED && ConfirmedBy(events + [Confirmed(id, reporter, now)], id, reporters, from)
  {
    var all := events + [Confirmed(id, reporter, now)];
    forall i, j | 0 <= i < j < |events| ensures events[i].now <= events[j].now {
      assert all[i] == events[i] && all[j] == events[j];
    }
    RunKeepsPendingOk(events, now);
    var p := Run(events);
    var entry := EntryFor(p, id, now);
    assert id in p ==> EntryOk(events, id, p[id], Last(events, now));
    assert entry.submittedAt <= now by {
      if id in p && events != [] { assert all[|events| - 1].now <= all[|events|].now; }
    }
    var confirmers := entry.confirmers[reporter := now];
    var reporters := confirmers.Keys;
    assert |reporters| == |confirmers|;
    forall r | r in reporters
      ensures exists time :: entry.submittedAt <= time <= entry.submittedAt + WINDOW && Happened(all, id, r, time)
    {
      if r == reporter {
        assert all[|events|] == Confirmed(id, reporter, now);
        assert Happened(all, id, r, now);
      } else {
        assert Happened(events, id, r, entry.confirmers[r]);
        assert Happened(all, id, r, entry.confirmers[r]);
      }
    }
    assert ConfirmedBy(all, id, reporters, entry.submittedAt);
  }

  /**
   * The answer is "ready" exactly when the window is open and this confirmation brings the distinct
   * confirmers to three.
   */
  lemma ReadyIff(p: Pending, id: EvidenceId, reporter: Addr, now: int)
    ensures var entry := EntryFor(p, id, now);
            Confirm(p, id, reporter, now).1 == Ready <==>
              now <= ExpiresAt(entry) && reporter != id.accused && |entry.confirmers.Keys + {reporter}| >= REQUIRED
    ensures Confirm(p, id, reporter, now).1 == Ready ==> id !in Confirm(p, id, reporter, now).0
  {
    var entry := EntryFor(p, id, now);
    var confirmers := entry.confirmers[reporter := now];
    assert confirmers.Keys == entry.confirmers.Keys + {reporter};
    assert |confirmers.Keys| == |confirmers|;
  }

  // ---- Three reporters are enough ----

  function RunFrom(p: Pending, events: seq<Event>): Pending {
    if events == [] then p else Apply(RunFrom(p, events[..|events| - 1]), events[|events| - 1])
  }

  /** Who has confirmed this evidence, the accused apart. */
  ghost function ReportersIn(events: seq<Event>, id: EvidenceId): set<Addr> {
    set i | 0 <= i < |events| && events[i].Confirmed? && events[i].id == id && events[i].reporter != id.accused ::
      events[i].reporter
  }

  lemma ReportersGrow(events: seq<Event>, e: Event, id: EvidenceId)
    ensures ReportersIn(events + [e], id) == ReportersIn(events, id)
              + if e.Confirmed? && e.id == id && e.reporter != id.accused then {e.reporter} else {}
    ensures |ReportersIn(events, id)| <= |ReportersIn(events + [e], id)|
  {
    var longer := events + [e];
    forall r | r in ReportersIn(events, id) ensures r in ReportersIn(longer, id) {
      var i :| 0 <= i < |events| && events[i].Confirmed? && events[i].id == id && events[i].reporter == r
          && r != id.accused;
      assert longer[i] == events[i];
    }
    if e.Confirmed? && e.id == id && e.reporter != id.accused {
      assert longer[|events|] == e;
    }
    Larger(ReportersIn(events, id), ReportersIn(longer, id));
  }

  lemma Larger(s: set<Addr>, t: set<Addr>)
    requires s <= t
    ensures |s| <= |t|
  {
    assert t == s + (t - s);
  }

  /** The events open a window for this evidence and stay within it. */
  ghost predicate Opens(p: Pending, events: seq<Event>, id: EvidenceId, from: int) {
    && id !in p && events != [] && events[0].Confirmed? && events[0].id == id && events[0].now == from
    && forall i | 0 <= i < |events| :: from <= events[i].now <= from + WINDOW
  }

  lemma StepInWindow(p: Pending, e: Event, id: EvidenceId, after: set<Addr>, from: int)
    requires id in p && p[id].submittedAt == from && from <= e.now <= from + WINDOW && |after| < REQUIRED
    requires after == p[id].confirmers.Keys
                      + if e.Confirmed? && e.id == id && e.reporter != id.accused then {e.reporter} else {}
    ensures id in Apply(p, e) && Apply(p, e)[id].submittedAt == from && Apply(p, e)[id].confirmers.Keys == after
  {
    if e.Confirmed? && e.id == id && e.reporter != id.accused {
      var confirmers := p[id].confirmers[e.reporter := e.now];
      assert confirmers.Keys == after && |confirmers.Keys| == |confirmers|;
    }
  }

  /** The window's entry, with these reporters. */
  ghost predicate Holds(p: Pending, id: EvidenceId, from: int, reporters: set<Addr>) {
    id in p && p[id].submittedAt == from && p[id].confirmers.Keys == reporters
  }

  lemma FirstInWindow(p: Pending, e: Event, id: EvidenceId)
    requires id !in p && e.Confirmed? && e.id == id
    ensures Holds(Apply(p, e), id, e.now, if e.reporter != id.accused then {e.reporter} else {})
  {
    if e.reporter != id.accused {
      var confirmers := map[e.reporter := e.now];
      assert confirmers.Keys == {e.reporter} && |confirmers| == 1;
    }
  }

  /** Until they are three, the table holds just the reporters so far, whatever else happens. */
  lemma {:induction false} WindowHolds(p: Pending, events: seq<Event>, id: EvidenceId, from: int, after: set<Addr>)
    requires Opens(p, events, id, from) && after == ReportersIn(events, id) && |after| < REQUIRED
    ensures Holds(RunFrom(p, events), id, from, after)
    decreases |events|
  {
    var rest, e := events[..|events| - 1], events[|events| - 1];
    assert events == rest + [e];
    var before := ReportersIn(rest, id);
    ReportersGrow(rest, e, id);
    if rest == [] {
      assert before == {};
      FirstInWindow(p, e, id);
    } else {
      assert Opens(p, rest, id, from);
      WindowHolds(p, rest, id, from, before);
      StepInWindow(RunFrom(p, rest), e, id, after, from);
    }
  }

  /**
   * Within a window that the first report opens, a report is answered "ready" if and only if it brings the different
   * reporters, the accused apart, to three: whatever other evidence is confirmed and cleaned up meanwhile.
   */
  lemma ReadyInWindowIff(p: Pending, events: seq<Event>, id: EvidenceId, from: int, reporter: Addr, now: int)
    requires Opens(p, events, id, from) && |ReportersIn(events, id)| < REQUIRED && from <= now <= from + WINDOW
    ensures Confirm(RunFrom(p, events), id, reporter, now).1 == Ready <==>
            reporter != id.accused && |ReportersIn(events, id) + {reporter}| >= REQUIRED
  {
    WindowHolds(p, events, id, from, ReportersIn(events, id));
    ReadyIff(RunFrom(p, events), id, reporter, now);
  }

  /** But the window is the first report's: one by the accused makes it close on three others a moment apart. */
  lemma OlderWindowSpoils(id: EvidenceId, a: Addr, b: Addr, c: Addr)
    requires |{a, b, c}| == 3 && id.accused !in {a, b, c}
    ensures var events := [Confirmed(id, id.accused, 0), Confirmed(id, a, WINDOW), Confirmed(id, b, WINDOW)];
            Confirm(RunFrom(map[], events), id, c, WINDOW + 1) == (map[], Expired)
  {
    var events := [Confirmed(id, id.accused, 0), Confirmed(id, a, WINDOW), Confirmed(id, b, WINDOW)];
    assert events[0] == Confirmed(id, id.accused, 0);
    assert ReportersIn(events, id) == {a, b} by {
      assert events[1].reporter == a && events[2].reporter == b;
    }
    WindowHolds(map[], events, id, 0, {a, b});
    OnlyThisEvidence(events, id);
  }

  lemma {:induction false} OnlyThisEvidence(events: seq<Event>, id: EvidenceId)
    requires forall i | 0 <= i < |events| :: events[i].Confirmed? && events[i].id == id
    ensures RunFrom(map[], events).Keys <= {id}
    decreases |events|
  {
    if events != [] { OnlyThisEvidence(events[..|events| - 1], id); }
  }

  // ---- The methods ----

  class SlashingConfirmation {
    var pending: Pending

    constructor ()
      ensures pending == map[]
    {
      pending := map[];
    }

    method AddConfirmation(id: EvidenceId, reporter: Addr, now: int) returns (answer: Answer)
      modifies this
      ensures (pending, answer) == Confirm(old(pending), id, reporter, now)
    {
      if id !in pending {
        pending := pending[id := Entry(map[], now)];
      }
      var entry := pending[id];
      if now > entry.submittedAt + WINDOW {
        pending := pending - {id};
        assert pending == old(pending) - {id};
        return Expired;
      }
      if reporter == id.accused {
        assert pending == old(pending)[id := entry];
        return OwnSlashing;
      }
      entry := entry.(confirmers := entry.confirmers[reporter := now]);
      pending := pending[id := entry];
      assert pending == old(pending)[id := entry];
      if |entry.confirmers| >= REQUIRED {
        pending := pending - {id};
        assert pending == old(pending) - {id};
        return Ready;
      }
      return NotReady;
    }

    method DropExpired(now: int) returns (count: nat)
      modifies this
      ensures pending == CleanupExpired(old(pending), now)
      ensures forall id :: id in pending <==> id in old(pending) && now <= old(pending)[id].submittedAt + WINDOW
      ensures count == |old(pending)| - |pending|
    {
      count := 0;
      var todo := pending.Keys;
      while todo != {}
        invariant todo <= old(pending).Keys
        invariant pending == map id | id in old(pending) && (id in todo || now <= ExpiresAt(old(pending)[id])) ::
                  old(pending)[id]
        invariant count == |old(pending)| - |pending|
      {
        var id :| id in todo;
        todo := todo - {id};
        if now > ExpiresAt(pending[id]) {
          assert pending.Keys == (pending - {id}).Keys + {id};
          assert |pending.Keys| == |pending| && |(pending - {id}).Keys| == |pending - {id}|;
          pending := pending - {id};
          count := count + 1;
        }
      }
    }
  }
}
