/** Penalties for double and surround votes: who is charged, once, and how much is left. */
module Ledger {
  import opened Base
  import Votes

  datatype Attestation = Attestation(
    validator: Addr, blockHash: Hash, blockHeight: int, epoch: nat, slot: nat, signature: seq<int>, timestamp: int)

  datatype Condition = DoubleVoting | SurroundVoting

  /**
   * What the evidence digest covers: the two attestations in the order they are written into it,
   * and nothing that tells a double vote from a surround vote. The digest is taken as injective.
   */
  type Evidence = (Attestation, Attestation)

  /** The second attestation of a double vote is rebuilt from a record that has no slot or height. */
  function Rebuilt(a: Attestation): Attestation {
    a.(blockHeight := ToInt64(a.epoch * 32 % TWO_64), slot := a.epoch * 32 % TWO_64)
  }

  /** Go's conversion from uint64 to int64 keeps the bits. */
  function ToInt64(x: nat): int {
    if x < TWO_64 / 2 then x else x - TWO_64
  }

  function DoubleVoteEvidence(first: Attestation, second: Attestation): Evidence {
    (first, Rebuilt(second))
  }

  function SurroundEvidence(inner: Attestation, outer: Attestation): Evidence {
    (outer, inner)
  }

  datatype Record = Record(validator: Addr, condition: Condition, evidence: Evidence, amount: nat)

  datatype State = State(
    balances: map<Addr, nat>,
    processed: set<Evidence>,
    records: map<Addr, seq<Record>>,
    jailedUntil: map<Addr, int>,
    status: map<Addr, Status>)

  /** Percentages are bytes; what exceeds 100 is refused when the penalty is computed. */
  datatype Config = Config(doubleVotingPenalty: nat, surroundVotingPenalty: nat, minimumStake: nat, jailDuration: int)

  function Percent(cfg: Config, c: Condition): nat {
    match c
    case DoubleVoting => cfg.doubleVotingPenalty
    case SurroundVoting => cfg.surroundVotingPenalty
  }

  datatype Outcome =
    | Charged(amount: nat) | AlreadySlashed | NoBalance | BadPercentage | WriteFailed | DifferentValidators | NoSurround

  function Recorded(s: State, a: Addr): seq<Record> {
    if a in s.records then s.records[a] else []
  }

  /** The penalty: the configured percentage of the balance, rounded down. */
  function Penalty(balance: nat, percent: nat): nat {
    balance * percent / 100
  }

  /** applySlashing: the evidence is spent before the balance is written. */
  function Charge(s: State, cfg: Config, a: Addr, c: Condition, e: Evidence, amount: nat, now: int,
                  writeOk: bool): (State, Outcome)
    requires a in s.balances
  {
    var spent := s.(processed := s.processed + {e});
    if !writeOk then (spent, WriteFailed) else
      var left: nat := if s.balances[a] < amount then 0 else s.balances[a] - amount;
      (spent.(balances := s.balances[a := left],
              jailedUntil := s.jailedUntil[a := now + cfg.jailDuration],
              status := s.status[a := if left < cfg.minimumStake then SlashedStatus else JailedStatus],
              records := s.records[a := Recorded(s, a) + [Record(a, c, e, amount)]]),
       Charged(amount))
  }

  function Slash(s: State, cfg: Config, a: Addr, c: Condition, e: Evidence, now: int, writeOk: bool): (State, Outcome) {
    if e in s.processed then (s, AlreadySlashed)
    else if a !in s.balances then (s, NoBalance)
    else if Percent(cfg, c) > 100 then (s, BadPercentage)
    else Charge(s, cfg, a, c, e, Penalty(s.balances[a], Percent(cfg, c)), now, writeOk)
  }

  /** What the slashing manager is told: attestations from evidence, or the pair of votes it noticed itself. */
  datatype Report =
    | DoubleVote(first: Attestation, second: Attestation)
    | SurroundVote(inner: Attestation, outer: Attestation)
    | SurroundVotes(innerVote: Votes.Vote, outerVote: Votes.Vote, innerAt: int, outerAt: int)

  /** A vote written as an attestation of its target, stamped with the second at which that is done. */
  function AsAttestation(vote: Votes.Vote, at: int): Attestation {
    Rebuilt(Attestation(vote.validator, vote.targetHash, 0, vote.targetEpoch, 0, vote.signature, at))
  }

  datatype Target = Target(validator: Addr, condition: Condition, evidence: Evidence)

  function TargetOf(first: Attestation, second: Attestation, c: Condition, e: Evidence): Option<Target> {
    if first.validator != second.validator then None else Some(Target(first.validator, c, e))
  }

  /** Whom a report accuses of what; None if it is refused at sight. */
  function Accuses(r: Report): Option<Target> {
    match r
    case DoubleVote(first, second) => TargetOf(first, second, DoubleVoting, DoubleVoteEvidence(first, second))
    case SurroundVote(inner, outer) => TargetOf(inner, outer, SurroundVoting, SurroundEvidence(inner, outer))
    case SurroundVotes(inner, outer, innerAt, outerAt) =>
      if !Votes.IsSurroundPair(inner, outer) then None
      else
        var innerAtt, outerAtt := AsAttestation(inner, innerAt), AsAttestation(outer, outerAt);
        TargetOf(innerAtt, outerAtt, SurroundVoting, SurroundEvidence(innerAtt, outerAtt))
  }

  function Refusal(r: Report): Outcome {
    if r.SurroundVotes? && r.innerVote.validator == r.outerVote.validator then NoSurround else DifferentValidators
  }

  function Handle(s: State, cfg: Config, r: Report, now: int, writeOk: bool): (State, Outcome) {
    match Accuses(r)
    case None => (s, Refusal(r))
    case Some(t) => Slash(s, cfg, t.validator, t.condition, t.evidence, now, writeOk)
  }

  // ---- Nothing is lost and nothing is charged twice ----

  function Total(records: seq<Record>): nat {
    if records == [] then 0 else Total(records[..|records| - 1]) + records[|records| - 1].amount
  }

  /** What the validator started with is what it has plus what the records took. */
  ghost predicate Balanced(start: map<Addr, nat>, s: State) {
    && s.balances.Keys == start.Keys
    && (forall a | a in start :: start[a] == s.balances[a] + Total(Recorded(s, a)))
    && (forall a | a in s.records :: a in start)
  }

  /** Every recorded charge has its own evidence, and that evidence is spent. */
  ghost predicate ChargedOnce(s: State) {
    && (forall a, i | a in s.records && 0 <= i < |s.records[a]| :: s.records[a][i].evidence in s.processed)
    && (forall a, b, i, j | a in s.records && b in s.records && 0 <= i < |s.records[a]| && 0 <= j < |s.records[b]| ::
          s.records[a][i].evidence == s.records[b][j].evidence ==> a == b && i == j)
  }

  lemma PenaltyFits(balance: nat, percent: nat)
    requires percent <= 100
    ensures Penalty(balance, percent) <= balance
    ensures 100 * (balance - Penalty(balance, percent)) >= (100 - percent) * balance
    ensures 100 * Penalty(balance, percent) <= balance * percent < 100 * Penalty(balance, percent) + 100
  {
    assert balance * percent <= balance * 100;
    assert (100 - percent) * balance == 100 * balance - balance * percent;
  }

  lemma TotalGrows(records: seq<Record>, r: Record)
    ensures Total(records + [r]) == Total(records) + r.amount
  {
    assert (records + [r])[..|records|] == records;
  }

  lemma SlashKeepsBalanced(start: map<Addr, nat>, s: State, cfg: Config, a: Addr, c: Condition, e: Evidence, now: int,
                           writeOk: bool)
    requires Balanced(start, s)
    ensures Balanced(start, Slash(s, cfg, a, c, e, now, writeOk).0)
  {
    var (t, outcome) := Slash(s, cfg, a, c, e, now, writeOk);
    if outcome.Charged? {
      PenaltyFits(s.balances[a], Percent(cfg, c));
      TotalGrows(Recorded(s, a), Record(a, c, e, outcome.amount));
      forall x | x in start ensures start[x] == t.balances[x] + Total(Recorded(t, x)) {
        if x != a { assert Recorded(t, x) == Recorded(s, x); }
      }
    }
  }

  lemma SlashKeepsChargedOnce(s: State, cfg: Config, a: Addr, c: Condition, e: Evidence, now: int, writeOk: bool)
    requires ChargedOnce(s)
    ensures ChargedOnce(Slash(s, cfg, a, c, e, now, writeOk).0)
  {
    var (t, outcome) := Slash(s, cfg, a, c, e, now, writeOk);
    if outcome.Charged? {
      var n := |Recorded(s, a)|;
      forall x, i | x in t.records && 0 <= i < |t.records[x]|
        ensures t.records[x][i].evidence in t.processed
        ensures if x == a && i == n then t.records[x][i].evidence == e
                else x in s.records && i < |s.records[x]| && t.records[x][i] == s.records[x][i]
      {
      }
    }
  }

  /** Each charge leaves at least the rest of the percentage: bounds for the validator's balance after k charges. */
  ghost predicate Floor(start: nat, balance: nat, percent: nat, k: nat) {
    percent <= 100 && Pow(100, k) * balance >= Pow(100 - percent, k) * start
  }

  lemma FloorStep(start: nat, balance: nat, percent: nat, charged: nat, k: nat)
    requires charged <= percent && Floor(start, balance, percent, k)
    ensures Penalty(balance, charged) <= balance
    ensures Floor(start, balance - Penalty(balance, charged), percent, k + 1)
  {
    PenaltyFits(balance, charged);
    var left, q := balance - Penalty(balance, charged), 100 - percent;
    ScaleUp(balance, 100 - charged, q);
    Compose(Pow(100, k), left, q, balance, Pow(q, k), start);
  }

  /** From 100 left >= q balance and p balance >= r start to (100 p) left >= (q r) start. */
  lemma Compose(p: nat, left: nat, q: nat, balance: nat, r: nat, start: nat)
    requires 100 * left >= q * balance && p * balance >= r * start
    ensures (100 * p) * left >= (q * r) * start
  {
    ScaleUp(p, 100 * left, q * balance);
    ScaleUp(q, p * balance, r * start);
    Regroup(p, 100, left);
    Regroup(p, q, balance);
    Regroup(q, r, start);
  }

  lemma Regroup(a: nat, b: nat, c: nat)
    ensures a * (b * c) == b * (a * c) == (a * b) * c
  {
  }

  lemma ScaleUp(p: nat, x: nat, y: nat)
    requires x >= y
    ensures p * x >= p * y
  {
  }

  // ---- Runs ----

  datatype Event = Reported(report: Report, now: int, writeOk: bool)

  function Apply(s: State, cfg: Config, e: Event): State {
    Handle(s, cfg, e.report, e.now, e.writeOk).0
  }

  /** The ledger after these reports, from what was loaded at the start. */
  function Run(start: State, cfg: Config, events: seq<Event>): State {
    if events == [] then start else Apply(Run(start, cfg, events[..|events| - 1]), cfg, events[|events| - 1])
  }

  /** Spent evidence, jail and statuses may be loaded from storage; records are not. */
  predicate Initial(s: State) {
    s.records == map[]
  }

  /** Over every run: balances plus recorded amounts are conserved, and no evidence is charged twice. */
  lemma {:induction false} RunIsSound(start: State, cfg: Config, events: seq<Event>)
    requires Initial(start)
    ensures Balanced(start.balances, Run(start, cfg, events))
    ensures ChargedOnce(Run(start, cfg, events))
    decreases |events|
  {
    if events != [] {
      var s, e := Run(start, cfg, events[..|events| - 1]), events[|events| - 1];
      RunIsSound(start, cfg, events[..|events| - 1]);
      if Accuses(e.report).Some? {
        var t := Accuses(e.report).value;
        SlashKeepsBalanced(start.balances, s, cfg, t.validator, t.condition, t.evidence, e.now, e.writeOk);
        SlashKeepsChargedOnce(s, cfg, t.validator, t.condition, t.evidence, e.now, e.writeOk);
      }
    }
  }

  lemma SlashKeepsFloor(start: map<Addr, nat>, s: State, cfg: Config, percent: nat, a: Addr, c: Condition, e: Evidence,
                        now: int, writeOk: bool, x: Addr)
    requires Balanced(start, s) && x in start && percent <= 100
    requires Percent(cfg, c) <= percent
    requires Floor(start[x], s.balances[x], percent, |Recorded(s, x)|)
    ensures var t := Slash(s, cfg, a, c, e, now, writeOk).0;
            x in t.balances && Floor(start[x], t.balances[x], percent, |Recorded(t, x)|)
  {
    var (t, outcome) := Slash(s, cfg, a, c, e, now, writeOk);
    if outcome.Charged? && a == x {
      PenaltyFits(s.balances[x], Percent(cfg, c));
      FloorStep(start[x], s.balances[x], percent, Percent(cfg, c), |Recorded(s, x)|);
    }
  }

  /** k charges of at most p percent leave at least ((100-p)/100)^k of what the validator started with. */
  lemma {:induction false} RunKeepsFloor(start: State, cfg: Config, events: seq<Event>, percent: nat, x: Addr)
    requires Initial(start) && x in start.balances && percent <= 100
    requires cfg.doubleVotingPenalty <= percent && cfg.surroundVotingPenalty <= percent
    ensures var s := Run(start, cfg, events);
            x in s.balances && Floor(start.balances[x], s.balances[x], percent, |Recorded(s, x)|)
    decreases |events|
  {
    if events != [] {
      var s, e := Run(start, cfg, events[..|events| - 1]), events[|events| - 1];
      RunKeepsFloor(start, cfg, events[..|events| - 1], percent, x);
      RunIsSound(start, cfg, events[..|events| - 1]);
      if Accuses(e.report).Some? {
        var t := Accuses(e.report).value;
        SlashKeepsFloor(start.balances, s, cfg, percent, t.validator, t.condition, t.evidence, e.now, e.writeOk, x);
      }
    }
  }

  // ---- One report ----

  /**
   * A charge takes exactly its penalty from exactly one validator, who is in jail afterwards; a failed
   * write spends the evidence.
   */
  lemma ChargeIsExact(s: State, cfg: Config, a: Addr, c: Condition, e: Evidence, now: int, writeOk: bool)
    ensures var (t, outcome) := Slash(s, cfg, a, c, e, now, writeOk);
            if outcome.Charged? then
              && a in s.balances && outcome.amount == Penalty(s.balances[a], Percent(cfg, c)) <= s.balances[a]
              && t.balances == s.balances[a := s.balances[a] - outcome.amount]
              && a in t.jailedUntil && t.jailedUntil[a] == now + cfg.jailDuration
              && a in t.status && t.status[a] != ActiveStatus
              && (t.status[a] == SlashedStatus <==> t.balances[a] < cfg.minimumStake)
              && Recorded(t, a) == Recorded(s, a) + [Record(a, c, e, outcome.amount)]
              && t.processed == s.processed + {e}
            else t == s.(processed := if outcome.WriteFailed? then s.processed + {e} else s.processed)
  {
    if a in s.balances && Percent(cfg, c) <= 100 { PenaltyFits(s.balances[a], Percent(cfg, c)); }
  }

  /** What a report is charged with: whom, for how many percent, on what evidence. */
  datatype Demand = Demand(validator: Addr, percent: nat, evidence: Evidence)

  /**
   * The charge a report asks for. Two attestations must be of one validator, and two votes must also surround one
   * another; the evidence is written down in this order, a vote as an attestation of slot and height 32 per epoch.
   */
  function Asks(cfg: Config, r: Report): Option<Demand> {
    match r
    case DoubleVote(a, b) =>
      if a.validator != b.validator then None
      else Some(Demand(a.validator, cfg.doubleVotingPenalty, (a, Rebuilt(b))))
    case SurroundVote(inner, outer) =>
      if inner.validator != outer.validator then None
      else Some(Demand(inner.validator, cfg.surroundVotingPenalty, (outer, inner)))
    case SurroundVotes(inner, outer, innerAt, outerAt) =>
      if inner.validator != outer.validator || outer.sourceEpoch >= inner.sourceEpoch
         || outer.targetEpoch <= inner.targetEpoch
      then None
      else Some(Demand(inner.validator, cfg.surroundVotingPenalty,
                       (AsAttestation(outer, outerAt), AsAttestation(inner, innerAt))))
  }

  /** An attestation is written down with slot and height 32 per epoch, where that fits, and is otherwise unchanged. */
  lemma RebuiltIs(a: Attestation)
    requires 32 * a.epoch < TWO_64 / 2
    ensures Rebuilt(a) == a.(blockHeight := 32 * a.epoch, slot := 32 * a.epoch)
  {
  }

  /**
   * A report is charged if and only if it asks for a charge on evidence not spent yet, of a validator with a balance,
   * of at most a hundred percent, and the new balance can be written. The charge is the percentage, rounded down, of
   * that validator's balance and of nobody else's.
   */
  lemma ChargedIff(s: State, cfg: Config, r: Report, now: int, writeOk: bool)
    ensures var (t, outcome) := Handle(s, cfg, r, now, writeOk);
            match Asks(cfg, r)
            case None =>
              t == s && outcome == if r.SurroundVotes? && r.innerVote.validator == r.outerVote.validator then NoSurround
                                   else DifferentValidators
            case Some(c) =>
              && (outcome.Charged? <==>
                  c.evidence !in s.processed && c.validator in s.balances && c.percent <= 100 && writeOk)
              && (outcome.AlreadySlashed? <==> c.evidence in s.processed)
              && (outcome.Charged? ==>
                    && 100 * outcome.amount <= s.balances[c.validator] * c.percent < 100 * outcome.amount + 100
                    && outcome.amount <= s.balances[c.validator]
                    && t.balances == s.balances[c.validator := s.balances[c.validator] - outcome.amount])
  {
    if Accuses(r).Some? {
      var t := Accuses(r).value;
      ChargeIsExact(s, cfg, t.validator, t.condition, t.evidence, now, writeOk);
      if t.validator in s.balances && Percent(cfg, t.condition) <= 100 {
        PenaltyFits(s.balances[t.validator], Percent(cfg, t.condition));
      }
    }
  }

  ghost predicate NeverCharged(s: State, e: Evidence) {
    forall a, i | a in s.records && 0 <= i < |s.records[a]| :: s.records[a][i].evidence != e
  }

  /** The report would be charged, but the new balance cannot be written. */
  predicate LosesEvidence(cfg: Config, t: Target, balances: map<Addr, nat>, writeOk: bool) {
    !writeOk && t.validator in balances && Percent(cfg, t.condition) <= 100
  }

  /** A report of unspent evidence leaves it spent and uncharged exactly when the balance write fails. */
  lemma LosesEvidenceIff(s: State, cfg: Config, t: Target, now: int, writeOk: bool)
    requires t.evidence !in s.processed && NeverCharged(s, t.evidence)
    ensures var after := Slash(s, cfg, t.validator, t.condition, t.evidence, now, writeOk).0;
            && (t.evidence in after.processed && NeverCharged(after, t.evidence) <==>
                LosesEvidence(cfg, t, s.balances, writeOk))
            && (t.evidence in after.processed && !LosesEvidence(cfg, t, s.balances, writeOk) ==>
                !NeverCharged(after, t.evidence))
  {
    var (after, outcome) := Slash(s, cfg, t.validator, t.condition, t.evidence, now, writeOk);
    if outcome.Charged? {
      var n := |Recorded(s, t.validator)|;
      assert after.records[t.validator][n].evidence == t.evidence;
    }
  }

  /** Every record of s is still there in t. */
  ghost predicate KeepsRecords(s: State, t: State) {
    forall a | a in s.records :: a in t.records && s.records[a] <= t.records[a]
  }

  lemma ChargedStaysCharged(s: State, t: State, e: Evidence)
    requires KeepsRecords(s, t) && !NeverCharged(s, e)
    ensures !NeverCharged(t, e)
  {
    var a, i :| a in s.records && 0 <= i < |s.records[a]| && s.records[a][i].evidence == e;
    assert t.records[a][i].evidence == e;
  }

  lemma SpentStaysUncharged(s: State, cfg: Config, a: Addr, c: Condition, reported: Evidence, now: int, writeOk: bool,
                            e: Evidence)
    requires e in s.processed && NeverCharged(s, e)
    ensures e in Slash(s, cfg, a, c, reported, now, writeOk).0.processed
    ensures NeverCharged(Slash(s, cfg, a, c, reported, now, writeOk).0, e)
  {
    var (t, outcome) := Slash(s, cfg, a, c, reported, now, writeOk);
    if outcome.Charged? {
      forall x, i | x in t.records && 0 <= i < |t.records[x]| ensures t.records[x][i].evidence != e {
        if x != a || i < |Recorded(s, a)| { assert x in s.records && t.records[x][i] == s.records[x][i]; }
      }
    }
  }

  /** From any point of a run on, records stay, and evidence spent without a charge stays uncharged. */
  lemma {:induction false} RunGoesOn(start: State, cfg: Config, events: seq<Event>, k: nat, e: Evidence)
    requires k <= |events|
    ensures KeepsRecords(Run(start, cfg, events[..k]), Run(start, cfg, events))
    ensures e in Run(start, cfg, events[..k]).processed && NeverCharged(Run(start, cfg, events[..k]), e) ==>
              e in Run(start, cfg, events).processed && NeverCharged(Run(start, cfg, events), e)
    decreases |events|
  {
    if k == |events| {
      assert events[..k] == events;
    } else {
      var rest, last := events[..|events| - 1], events[|events| - 1];
      assert rest[..k] == events[..k];
      RunGoesOn(start, cfg, rest, k, e);
      if Accuses(last.report).Some? && e in Run(start, cfg, rest).processed && NeverCharged(Run(start, cfg, rest), e) {
        var t := Accuses(last.report).value;
        SpentStaysUncharged(Run(start, cfg, rest), cfg, t.validator, t.condition, t.evidence, last.now, last.writeOk,
                            e);
      }
      StepKeepsRecords(Run(start, cfg, events[..k]), Run(start, cfg, rest), cfg, last);
    }
  }

  lemma StepKeepsRecords(first: State, s: State, cfg: Config, e: Event)
    requires KeepsRecords(first, s)
    ensures KeepsRecords(first, Apply(s, cfg, e))
  {
  }

  /**
   * Evidence is spent before the balance is written. Whenever unspent evidence is reported, it is
   * spent by that report and never charged in the rest of the run if and only if that write fails.
   */
  lemma FailedWriteLosesEvidenceIff(start: State, cfg: Config, events: seq<Event>, k: nat, t: Target)
    requires Initial(start) && k < |events| && Accuses(events[k].report) == Some(t)
    requires t.evidence !in Run(start, cfg, events[..k]).processed
    ensures t.evidence in Run(start, cfg, events[..k + 1]).processed
            && NeverCharged(Run(start, cfg, events), t.evidence)
            <==> LosesEvidence(cfg, t, start.balances, events[k].writeOk)
  {
    var s, after := Run(start, cfg, events[..k]), Run(start, cfg, events[..k + 1]);
    assert events[..k + 1][..k] == events[..k];
    RunIsSound(start, cfg, events[..k]);
    assert NeverCharged(s, t.evidence);
    LosesEvidenceIff(s, cfg, t, events[k].now, events[k].writeOk);
    RunGoesOn(start, cfg, events, k + 1, t.evidence);
    if t.evidence in after.processed && !LosesEvidence(cfg, t, start.balances, events[k].writeOk) {
      ChargedStaysCharged(after, Run(start, cfg, events), t.evidence);
    }
  }

  /**
   * The digest depends on the order of the two attestations: the same double vote reported the other
   * way round is charged again, unless the two attestations are one and the same.
   */
  lemma SwappedReportChargedAgainIff(s: State, cfg: Config, first: Attestation, second: Attestation, now: int)
    requires first.validator == second.validator && first.validator in s.balances && cfg.doubleVotingPenalty <= 100
    requires DoubleVoteEvidence(first, second) !in s.processed && DoubleVoteEvidence(second, first) !in s.processed
    ensures var (t, once) := Handle(s, cfg, DoubleVote(first, second), now, true);
            && once.Charged?
            && (Handle(t, cfg, DoubleVote(second, first), now, true).1.Charged? <==> first != second)
  {
  }

  /**
   * The digest of a noticed surround holds the seconds at which it was written down: the same two
   * votes are charged again exactly when they are reported in other seconds.
   */
  lemma SameVotesChargedAgainIff(s: State, cfg: Config, inner: Votes.Vote, outer: Votes.Vote,
                                 innerAt: int, outerAt: int, innerAt': int, outerAt': int, now: int, now': int)
    requires Votes.IsSurroundPair(inner, outer) && inner.validator in s.balances && cfg.surroundVotingPenalty <= 100
    requires Accuses(SurroundVotes(inner, outer, innerAt, outerAt)).value.evidence !in s.processed
    requires Accuses(SurroundVotes(inner, outer, innerAt', outerAt')).value.evidence !in s.processed
    ensures var (t, once) := Handle(s, cfg, SurroundVotes(inner, outer, innerAt, outerAt), now, true);
            && once.Charged?
            && (Handle(t, cfg, SurroundVotes(inner, outer, innerAt', outerAt'), now', true).1.Charged?
                <==> (innerAt, outerAt) != (innerAt', outerAt'))
  {
  }

  // ---- The methods ----

  class PenaltyLedger {
    const cfg: Config
    var balances: map<Addr, nat>
    var processedEvidence: set<Evidence>
    var slashingRecords: map<Addr, seq<Record>>
    var jailedUntil: map<Addr, int>
    var validatorStatus: map<Addr, Status>

    ghost function Now(): State
      reads this
    {
      State(balances, processedEvidence, slashingRecords, jailedUntil, validatorStatus)
    }

    /** A new manager over the balances of the world state, with what loading from storage gave. */
    constructor (config: Config, start: map<Addr, nat>, evidence: set<Evidence>, jailed: map<Addr, int>,
                 status: map<Addr, Status>)
      ensures cfg == config && Now() == State(start, evidence, map[], jailed, status) && Initial(Now())
    {
      cfg, balances := config, start;
      processedEvidence, slashingRecords, jailedUntil, validatorStatus := evidence, map[], jailed, status;
    }

    method JailValidator(a: Addr, now: int)
      modifies `jailedUntil, `validatorStatus
      ensures jailedUntil == old(jailedUntil)[a := now + cfg.jailDuration]
      ensures validatorStatus == old(validatorStatus)[a := JailedStatus]
    {
      jailedUntil := jailedUntil[a := now + cfg.jailDuration];
      validatorStatus := validatorStatus[a := JailedStatus];
    }

    method ApplySlashing(r: Record, now: int, writeOk: bool) returns (outcome: Outcome)
      requires r.validator in balances && r.evidence !in processedEvidence
      modifies `balances, `processedEvidence, `slashingRecords, `jailedUntil, `validatorStatus
      ensures (Now(), outcome) == Charge(old(Now()), cfg, r.validator, r.condition, r.evidence, r.amount, now, writeOk)
    {
      processedEvidence := processedEvidence + {r.evidence};
      var newBalance := balances[r.validator] - r.amount;
      if newBalance < 0 {
        newBalance := 0;
      }
      if !writeOk {
        return WriteFailed;
      }
      balances := balances[r.validator := newBalance];
      JailValidator(r.validator, now);
      if newBalance < cfg.minimumStake {
        validatorStatus := validatorStatus[r.validator := SlashedStatus];
        assert validatorStatus == old(validatorStatus)[r.validator := SlashedStatus];
      }
      var before := if r.validator in slashingRecords then slashingRecords[r.validator] else [];
      slashingRecords := slashingRecords[r.validator := before + [r]];
      outcome := Charged(r.amount);
    }

    method SlashFor(a: Addr, c: Condition, e: Evidence, now: int, writeOk: bool) returns (outcome: Outcome)
      modifies `balances, `processedEvidence, `slashingRecords, `jailedUntil, `validatorStatus
      ensures (Now(), outcome) == Slash(old(Now()), cfg, a, c, e, now, writeOk)
    {
      if e in processedEvidence {
        return AlreadySlashed;
      }
      if a !in balances {
        return NoBalance;
      }
      var percent := Percent(cfg, c);
      if percent > 100 {
        return BadPercentage;
      }
      outcome := ApplySlashing(Record(a, c, e, balances[a] * percent / 100), now, writeOk);
    }

    method ApplyDoubleVoteSlashing(first: Attestation, second: Attestation, now: int, writeOk: bool)
        returns (outcome: Outcome)
      modifies `balances, `processedEvidence, `slashingRecords, `jailedUntil, `validatorStatus
      ensures (Now(), outcome) == Handle(old(Now()), cfg, DoubleVote(first, second), now, writeOk)
    {
      if first.validator != second.validator {
        return DifferentValidators;
      }
      outcome := SlashFor(first.validator, DoubleVoting, DoubleVoteEvidence(first, second), now, writeOk);
    }

    method ApplySurroundEvidence(inner: Attestation, outer: Attestation, now: int, writeOk: bool)
        returns (outcome: Outcome)
      modifies `balances, `processedEvidence, `slashingRecords, `jailedUntil, `validatorStatus
      ensures (Now(), outcome) == Handle(old(Now()), cfg, SurroundVote(inner, outer), now, writeOk)
    {
      if inner.validator != outer.validator {
        return DifferentValidators;
      }
      outcome := SlashFor(inner.validator, SurroundVoting, SurroundEvidence(inner, outer), now, writeOk);
    }

    /** innerAt and outerAt are the two readings of the clock, in seconds. */
    method ApplySurroundVoteSlashing(inner: Votes.Vote, outer: Votes.Vote, innerAt: int, outerAt: int, now: int,
                                     writeOk: bool)
        returns (outcome: Outcome)
      modifies `balances, `processedEvidence, `slashingRecords, `jailedUntil, `validatorStatus
      ensures (Now(), outcome) == Handle(old(Now()), cfg, SurroundVotes(inner, outer, innerAt, outerAt), now, writeOk)
    {
      if inner.validator != outer.validator {
        return DifferentValidators;
      }
      if !(outer.sourceEpoch < inner.sourceEpoch && outer.targetEpoch > inner.targetEpoch) {
        return NoSurround;
      }
      outcome := ApplySurroundEvidence(AsAttestation(inner, innerAt), AsAttestation(outer, outerAt), now, writeOk);
    }
  }
}
