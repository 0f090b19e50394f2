/** Finality votes: surround detection over a rolling window, and what a node accepts. */
module Votes {
  import opened Base

  datatype Vote = Vote(
    validator: Addr, sourceHash: Hash, targetHash: Hash, sourceEpoch: nat, targetEpoch: nat, signature: seq<int>)

  /** The second slashing condition of Casper FFG: the outer vote's span strictly contains the inner one's. */
  predicate Surrounds(outer: Vote, inner: Vote) {
    outer.sourceEpoch < inner.sourceEpoch && outer.targetEpoch > inner.targetEpoch
  }

  predicate Conflict(a: Vote, b: Vote) {
    Surrounds(a, b) || Surrounds(b, a)
  }

  /** The check that ApplySurroundVoteSlashing makes before it charges anyone. */
  predicate IsSurroundPair(inner: Vote, outer: Vote) {
    inner.validator == outer.validator && Surrounds(outer, inner)
  }

  datatype VoteResult = Clean | Jailed | SurroundFound(inner: Vote, outer: Vote)

  const GRACE_HEIGHT: int := 100
  const MAX_KEPT: nat := 1000

  /** The most recent votes, at most MAX_KEPT of them. */
  function Recent(votes: seq<Vote>): seq<Vote> {
    if |votes| > MAX_KEPT then votes[|votes| - MAX_KEPT..] else votes
  }

  /** The circumstances of one vote: verdicts of code outside this model, and the clock. */
  datatype Env = Env(
    signatureOk: bool,
    lookupOk: bool,
    active: bool,
    height: int,
    now: int,
    saveOk: bool,
    slashOk: bool,
    slashedStatus: Status,
    jailDuration: int)

  /**
   * kept, jailed and status belong to the slashing manager, persisted and accepted to the engine.
   * recorded is the history of kept: every vote ever put into it, in order.
   */
  datatype State = State(
    kept: map<Addr, seq<Vote>>,
    jailed: map<Addr, int>,
    status: map<Addr, Status>,
    persisted: set<(nat, Addr)>,
    accepted: seq<Vote>,
    recorded: map<Addr, seq<Vote>>)

  /** Jail, statuses and persisted votes may be loaded from storage; the kept votes are not. */
  predicate Initial(s: State) {
    s.kept == map[] && s.accepted == [] && s.recorded == map[]
  }

  function Of(m: map<Addr, seq<Vote>>, a: Addr): seq<Vote> {
    if a in m then m[a] else []
  }

  predicate IsJailed(s: State, a: Addr, now: int) {
    a in s.jailed && now <= s.jailed[a]
  }

  /** An expired jail entry is dropped when it is looked at, and whatever the status was, it is active again. */
  function AfterJailCheck(s: State, a: Addr, now: int): State {
    if a in s.jailed && now > s.jailed[a]
    then s.(jailed := s.jailed - {a}, status := s.status[a := ActiveStatus])
    else s
  }

  /** The first kept vote that forms a surround pair with the new one. */
  function FirstConflict(kept: seq<Vote>, vote: Vote): Option<Vote> {
    if kept == [] then None
    else if Conflict(vote, kept[0]) then Some(kept[0])
    else FirstConflict(kept[1..], vote)
  }

  function Witness(prev: Vote, vote: Vote): VoteResult {
    if Surrounds(vote, prev) then SurroundFound(prev, vote) else SurroundFound(vote, prev)
  }

  function CheckVote(s: State, vote: Vote, height: int, now: int): VoteResult {
    if height < GRACE_HEIGHT then Clean
    else if IsJailed(s, vote.validator, now) then Jailed
    else match FirstConflict(Of(s.kept, vote.validator), vote)
      case Some(prev) => Witness(prev, vote)
      case None => Clean
  }

  /** The slashing manager after a vote: only a clean vote past the grace period is remembered. */
  function Remember(s: State, vote: Vote, height: int, now: int): State {
    if height < GRACE_HEIGHT then s else
      var s1 := AfterJailCheck(s, vote.validator, now);
      if CheckVote(s, vote, height, now) != Clean then s1 else
        s1.(kept := s1.kept[vote.validator := Recent(Of(s1.kept, vote.validator) + [vote])],
            recorded := s1.recorded[vote.validator := Of(s1.recorded, vote.validator) + [vote]])
  }

  /** validateVote: an active validator, and a target after the source. */
  predicate IsValid(vote: Vote, active: bool) {
    active && vote.sourceEpoch < vote.targetEpoch
  }

  /** handleVote. A failed duplicate lookup reads as "has not voted". */
  function Handle(s: State, vote: Vote, env: Env): State {
    if !env.signatureOk then s
    else if env.lookupOk && (vote.targetEpoch, vote.validator) in s.persisted then s
    else if !IsValid(vote, env.active) then s
    else
      var s1 := Remember(s, vote, env.height, env.now);
      match CheckVote(s, vote, env.height, env.now)
      case Jailed => s1
      case SurroundFound(inner, outer) =>
        if env.slashOk
        then s1.(jailed := s1.jailed[vote.validator := env.now + env.jailDuration],
                 status := s1.status[vote.validator := env.slashedStatus])
        else s1
      case Clean =>
        if !env.saveOk then s1
        else s1.(persisted := s1.persisted + {(vote.targetEpoch, vote.validator)}, accepted := s1.accepted + [vote])
  }

  // ---- Detection is exact ----

  lemma {:induction false} FirstConflictIsExact(kept: seq<Vote>, vote: Vote)
    ensures FirstConflict(kept, vote).Some? <==> exists prev :: prev in kept && Conflict(vote, prev)
    ensures FirstConflict(kept, vote).Some? ==>
            FirstConflict(kept, vote).value in kept && Conflict(vote, FirstConflict(kept, vote).value)
    decreases |kept|
  {
    if kept != [] && !Conflict(vote, kept[0]) {
      FirstConflictIsExact(kept[1..], vote);
      assert kept == [kept[0]] + kept[1..];
    }
  }

  /**
   * Past the grace period a vote of a free validator is reported exactly when a kept vote forms a
   * surround with it, and the reported pair always passes the check of the slashing step.
   */
  lemma DetectionIsExact(s: State, vote: Vote, height: int, now: int)
    requires height >= GRACE_HEIGHT && (vote.validator in s.jailed ==> s.jailed[vote.validator] < now)
    requires KeptOk(s)
    ensures var r := CheckVote(s, vote, height, now);
            && (r.SurroundFound? <==> exists prev :: prev in Of(s.kept, vote.validator) && Conflict(vote, prev))
            && (r.SurroundFound? ==> IsSurroundPair(r.inner, r.outer) && vote in {r.inner, r.outer})
  {
    FirstConflictIsExact(Of(s.kept, vote.validator), vote);
  }

  // ---- Invariants ----

  ghost predicate NonSurrounding(votes: seq<Vote>) {
    forall i, j | 0 <= i < j < |votes| :: !Conflict(votes[i], votes[j])
  }

  /** Every vote was checked against the MAX_KEPT recorded just before it. */
  ghost predicate CheckedInWindow(votes: seq<Vote>) {
    forall i, j | 0 <= i < j < |votes| && j - i <= MAX_KEPT :: !Conflict(votes[i], votes[j])
  }

  ghost predicate KeptOk(s: State) {
    && (forall a | a in s.kept :: forall i | 0 <= i < |s.kept[a]| :: s.kept[a][i].validator == a)
    && (forall a :: Of(s.kept, a) == Recent(Of(s.recorded, a)))
    && (forall a :: CheckedInWindow(Of(s.recorded, a)))
  }

  ghost predicate AcceptedOk(s: State) {
    && (forall i | 0 <= i < |s.accepted| ::
          && s.accepted[i].sourceEpoch < s.accepted[i].targetEpoch
          && (s.accepted[i].targetEpoch, s.accepted[i].validator) in s.persisted)
    && (forall i, j | 0 <= i < j < |s.accepted| ::
          s.accepted[i].validator != s.accepted[j].validator || s.accepted[i].targetEpoch != s.accepted[j].targetEpoch)
  }

  /** What a validator has in memory is always free of surround pairs. */
  lemma KeptIsNonSurrounding(s: State, a: Addr)
    requires KeptOk(s)
    ensures NonSurrounding(Of(s.kept, a)) && |Of(s.kept, a)| <= MAX_KEPT
  {
    var all := Of(s.recorded, a);
    assert CheckedInWindow(all);
    if |all| > MAX_KEPT {
      var kept := all[|all| - MAX_KEPT..];
      forall i, j | 0 <= i < j < |kept| ensures !Conflict(kept[i], kept[j]) {
        assert kept[i] == all[|all| - MAX_KEPT + i] && kept[j] == all[|all| - MAX_KEPT + j];
      }
    }
  }

  lemma RecentOfLonger(all: seq<Vote>, vote: Vote)
    ensures Recent(Recent(all) + [vote]) == Recent(all + [vote])
  {
  }

  lemma WindowGrows(all: seq<Vote>, vote: Vote)
    requires CheckedInWindow(all)
    requires forall prev | prev in Recent(all) :: !Conflict(vote, prev)
    ensures CheckedInWindow(all + [vote])
  {
    var longer := all + [vote];
    forall i, j | 0 <= i < j < |longer| && j - i <= MAX_KEPT ensures !Conflict(longer[i], longer[j]) {
      if j == |all| {
        assert longer[i] == all[i] && longer[j] == vote;
        assert all[i] in Recent(all) by {
          if |all| > MAX_KEPT { assert Recent(all)[i - (|all| - MAX_KEPT)] == all[i]; }
        }
      }
    }
  }

  lemma RememberKeepsKeptOk(s: State, vote: Vote, height: int, now: int)
    requires KeptOk(s)
    ensures KeptOk(Remember(s, vote, height, now))
  {
    if height >= GRACE_HEIGHT && CheckVote(s, vote, height, now).Clean? {
      var a := vote.validator;
      var t := Remember(s, vote, height, now);
      FirstConflictIsExact(Of(s.kept, a), vote);
      RecentOfLonger(Of(s.recorded, a), vote);
      WindowGrows(Of(s.recorded, a), vote);
      forall x ensures Of(t.kept, x) == Recent(Of(t.recorded, x)) && CheckedInWindow(Of(t.recorded, x)) {
        if x != a { assert Of(t.kept, x) == Of(s.kept, x) && Of(t.recorded, x) == Of(s.recorded, x); }
      }
      forall x | x in t.kept ensures forall i | 0 <= i < |t.kept[x]| :: t.kept[x][i].validator == x {
        if x == a { RecentMembers(Of(s.kept, a), vote); } else { assert x in s.kept; }
      }
    }
  }

  lemma RecentMembers(kept: seq<Vote>, vote: Vote)
    requires forall i | 0 <= i < |kept| :: kept[i].validator == vote.validator
    ensures forall i | 0 <= i < |Recent(kept + [vote])| :: Recent(kept + [vote])[i].validator == vote.validator
  {
  }

  lemma HandleKeepsKeptOk(s: State, vote: Vote, env: Env)
    requires KeptOk(s)
    ensures KeptOk(Handle(s, vote, env))
  {
    RememberKeepsKeptOk(s, vote, env.height, env.now);
    var t := Handle(s, vote, env);
    assert t == s || (t.kept == Remember(s, vote, env.height, env.now).kept
                      && t.recorded == Remember(s, vote, env.height, env.now).recorded);
  }

  lemma HandleKeepsAcceptedOk(s: State, vote: Vote, env: Env)
    requires AcceptedOk(s) && env.lookupOk
    ensures AcceptedOk(Handle(s, vote, env))
  {
    var s1 := Remember(s, vote, env.height, env.now);
    assert s1.accepted == s.accepted && s1.persisted == s.persisted;
  }

  /**
   * Exactly which votes are accepted: signed, valid and not known to be duplicates, from a validator
   * who is free and whose last MAX_KEPT recorded votes form no surround with it, if it can be saved.
   * A surround with an older vote is not noticed.
   */
  lemma AcceptsIff(s: State, vote: Vote, env: Env)
    requires KeptOk(s)
    ensures Handle(s, vote, env).accepted == s.accepted + [vote] <==>
      && env.signatureOk && env.saveOk && env.active && vote.sourceEpoch < vote.targetEpoch
      && !(env.lookupOk && (vote.targetEpoch, vote.validator) in s.persisted)
      && (env.height >= 100 ==>
            && (vote.validator in s.jailed ==> s.jailed[vote.validator] < env.now)
            && forall prev | prev in Recent(Of(s.recorded, vote.validator)) :: !Conflict(vote, prev))
    ensures Handle(s, vote, env).accepted in {s.accepted, s.accepted + [vote]}
  {
    FirstConflictIsExact(Of(s.kept, vote.validator), vote);
    assert Of(s.kept, vote.validator) == Recent(Of(s.recorded, vote.validator));
  }

  /** A surround vote that is noticed is not accepted, and its validator is jailed if the penalty goes through. */
  lemma SurroundIsPunished(s: State, vote: Vote, env: Env, prev: Vote)
    requires env.signatureOk && IsValid(vote, env.active) && env.slashOk && env.height >= GRACE_HEIGHT
    requires !(env.lookupOk && (vote.targetEpoch, vote.validator) in s.persisted)
             && (vote.validator in s.jailed ==> s.jailed[vote.validator] < env.now)
    requires prev in Of(s.kept, vote.validator) && Conflict(vote, prev)
    ensures Handle(s, vote, env).accepted == s.accepted
    ensures Handle(s, vote, env).jailed == s.jailed[vote.validator := env.now + env.jailDuration]
    ensures Handle(s, vote, env).status == s.status[vote.validator := env.slashedStatus]
    ensures forall t | env.now <= t <= env.now + env.jailDuration :: IsJailed(Handle(s, vote, env), vote.validator, t)
    ensures Of(Handle(s, vote, env).kept, vote.validator) == Of(s.kept, vote.validator)
  {
    FirstConflictIsExact(Of(s.kept, vote.validator), vote);
  }

  /** Once its release time has passed a validator is free, its entry goes, and its status is active again. */
  lemma JailEnds(s: State, a: Addr, now: int)
    requires a in s.jailed
    ensures IsJailed(s, a, now) <==> now <= s.jailed[a]
    ensures AfterJailCheck(s, a, now) ==
            if s.jailed[a] < now then s.(jailed := s.jailed - {a}, status := s.status[a := ActiveStatus]) else s
  {
  }

  /**
   * Punishment ends: after a noticed surround, the validator's next vote, if it is in order itself, is accepted if and
   * only if it comes after the jail term. It then finds the validator active, and the jail entry is gone.
   */
  lemma AcceptedAgainIff(s: State, vote: Vote, env: Env, prev: Vote, next: Vote, later: Env)
    requires KeptOk(s) && env.signatureOk && IsValid(vote, env.active) && env.slashOk && env.height >= GRACE_HEIGHT
    requires !(env.lookupOk && (vote.targetEpoch, vote.validator) in s.persisted)
             && (vote.validator in s.jailed ==> s.jailed[vote.validator] < env.now)
    requires prev in Of(s.kept, vote.validator) && Conflict(vote, prev)
    requires next.validator == vote.validator && later.signatureOk && IsValid(next, later.active) && later.saveOk
    requires later.height >= GRACE_HEIGHT && (next.targetEpoch, next.validator) !in s.persisted
    requires forall kept | kept in Recent(Of(s.recorded, vote.validator)) :: !Conflict(next, kept)
    ensures var t := Handle(s, vote, env);
            var u := Handle(t, next, later);
            && (u.accepted == s.accepted + [next] <==> env.now + env.jailDuration < later.now)
            && (env.now + env.jailDuration < later.now ==>
                  u.jailed == t.jailed - {next.validator} && u.status == t.status[next.validator := ActiveStatus])
            && (later.now <= env.now + env.jailDuration ==> u == t)
  {
    var t := Handle(s, vote, env);
    SurroundIsPunished(s, vote, env, prev);
    HandleKeepsKeptOk(s, vote, env);
    PunishedKeepsRest(s, vote, env, prev);
    AcceptsIff(t, next, later);
    JailEnds(t, next.validator, later.now);
  }

  lemma PunishedKeepsRest(s: State, vote: Vote, env: Env, prev: Vote)
    requires env.signatureOk && IsValid(vote, env.active) && env.slashOk && env.height >= GRACE_HEIGHT
    requires !(env.lookupOk && (vote.targetEpoch, vote.validator) in s.persisted)
             && (vote.validator in s.jailed ==> s.jailed[vote.validator] < env.now)
    requires prev in Of(s.kept, vote.validator) && Conflict(vote, prev)
    ensures var t := Handle(s, vote, env);
            t.recorded == s.recorded && t.persisted == s.persisted && t.accepted == s.accepted
  {
    FirstConflictIsExact(Of(s.kept, vote.validator), vote);
  }

  /**
   * A target is on file only once a vote for it is accepted; and the jail changes only by a punished surround or by
   * the end of a term.
   */
  lemma HandleChangesOnly(s: State, vote: Vote, env: Env)
    ensures var t, v := Handle(s, vote, env), vote.validator;
            && t.persisted == s.persisted + (if t.accepted == s.accepted then {} else {(vote.targetEpoch, v)})
            && (|| t.jailed == s.jailed
                || (v in s.jailed && s.jailed[v] < env.now && t.jailed == s.jailed - {v})
                || (env.slashOk && t.jailed == s.jailed[v := env.now + env.jailDuration]
                    && exists prev :: prev in Of(s.kept, v) && Conflict(vote, prev)))
  {
    FirstConflictIsExact(Of(s.kept, vote.validator), vote);
    assert s.persisted + {} == s.persisted;
  }

  /** A second vote for a target already persisted gets through exactly when its duplicate lookup fails. */
  lemma DuplicateAcceptedIff(s: State, vote: Vote, env: Env)
    requires (vote.targetEpoch, vote.validator) in s.persisted
    requires env.signatureOk && IsValid(vote, env.active) && env.saveOk
             && CheckVote(s, vote, env.height, env.now).Clean?
    ensures Handle(s, vote, env).accepted == s.accepted + [vote] <==> !env.lookupOk
    ensures !env.lookupOk && HasAccepted(s, vote.validator, vote.targetEpoch) ==> !AcceptedOk(Handle(s, vote, env))
  {
    var t := Handle(s, vote, env);
    if !env.lookupOk && HasAccepted(s, vote.validator, vote.targetEpoch) {
      var i :| 0 <= i < |s.accepted| && s.accepted[i].validator == vote.validator
          && s.accepted[i].targetEpoch == vote.targetEpoch;
      assert t.accepted[i] == s.accepted[i] && t.accepted[|s.accepted|] == vote;
    }
  }

  ghost predicate HasAccepted(s: State, a: Addr, target: nat) {
    exists i :: 0 <= i < |s.accepted| && s.accepted[i].validator == a && s.accepted[i].targetEpoch == target
  }

  // ---- Runs ----

  function Run(start: State, events: seq<(Vote, Env)>): State {
    if events == [] then start else
      Handle(Run(start, events[..|events| - 1]), events[|events| - 1].0, events[|events| - 1].1)
  }

  /** In every run, every kept history is free of surround pairs within its window. */
  lemma {:induction false} RunKeepsVotesApart(start: State, events: seq<(Vote, Env)>)
    requires Initial(start)
    ensures KeptOk(Run(start, events))
    decreases |events|
  {
    if events != [] {
      RunKeepsVotesApart(start, events[..|events| - 1]);
      HandleKeepsKeptOk(Run(start, events[..|events| - 1]), events[|events| - 1].0, events[|events| - 1].1);
    }
  }

  /** As long as the duplicate lookup works, accepted votes never repeat a target and always move forward. */
  lemma {:induction false} AcceptedVotesAreDistinct(start: State, events: seq<(Vote, Env)>)
    requires Initial(start) && forall i | 0 <= i < |events| :: events[i].1.lookupOk
    ensures AcceptedOk(Run(start, events))
    decreases |events|
  {
    if events != [] {
      var rest := events[..|events| - 1];
      forall i | 0 <= i < |rest| ensures rest[i].1.lookupOk { assert rest[i] == events[i]; }
      AcceptedVotesAreDistinct(start, rest);
      HandleKeepsAcceptedOk(Run(start, rest), events[|events| - 1].0, events[|events| - 1].1);
    }
  }

  /** A vote accepted past the grace period is in the recorded history of its validator. */
  lemma {:induction false} AcceptedIsRecorded(start: State, events: seq<(Vote, Env)>, k: nat)
    requires Initial(start) && forall i | 0 <= i < |events| :: events[i].1.height >= GRACE_HEIGHT
    requires k < |Run(start, events).accepted|
    ensures Run(start, events).accepted[k] in Of(Run(start, events).recorded, Run(start, events).accepted[k].validator)
    decreases |events|
  {
    var rest := events[..|events| - 1];
    forall i | 0 <= i < |rest| ensures rest[i].1.height >= GRACE_HEIGHT { assert rest[i] == events[i]; }
    var s, vote, env := Run(start, rest), events[|events| - 1].0, events[|events| - 1].1;
    var t := Handle(s, vote, env);
    if k < |s.accepted| {
      AcceptedIsRecorded(start, rest, k);
      HistoryGrows(s, vote, env, s.accepted[k].validator);
      assert t.accepted[k] == s.accepted[k];
    }
  }

  lemma HistoryGrows(s: State, vote: Vote, env: Env, a: Addr)
    ensures Of(s.recorded, a) <= Of(Handle(s, vote, env).recorded, a)
    ensures |s.accepted| <= |Handle(s, vote, env).accepted| && s.accepted <= Handle(s, vote, env).accepted
  {
  }

  /**
   * Both Casper FFG conditions together: in a run with working lookups, any two votes a node accepts
   * from one validator have different targets, and neither surrounds the other if they were recorded
   * with fewer than the window's worth of votes between them.
   */
  lemma AcceptedVotesObeyBothConditions(start: State, events: seq<(Vote, Env)>, i: nat, j: nat, x: nat, y: nat)
    requires Initial(start) && forall k | 0 <= k < |events| :: events[k].1.lookupOk
    requires i < j < |Run(start, events).accepted|
    requires Run(start, events).accepted[i].validator == Run(start, events).accepted[j].validator
    requires var all := Of(Run(start, events).recorded, Run(start, events).accepted[i].validator);
             && x < |all| && y < |all| && x <= y + MAX_KEPT && y <= x + MAX_KEPT
             && all[x] == Run(start, events).accepted[i] && all[y] == Run(start, events).accepted[j]
    ensures Run(start, events).accepted[i].targetEpoch != Run(start, events).accepted[j].targetEpoch
    ensures !Conflict(Run(start, events).accepted[i], Run(start, events).accepted[j])
  {
    AcceptedVotesAreDistinct(start, events);
    RunKeepsVotesApart(start, events);
    ApartInWindow(Of(Run(start, events).recorded, Run(start, events).accepted[i].validator), x, y);
  }

  lemma ApartInWindow(all: seq<Vote>, x: nat, y: nat)
    requires CheckedInWindow(all) && x < |all| && y < |all| && x <= y + MAX_KEPT && y <= x + MAX_KEPT
    ensures !Conflict(all[x], all[y])
  {
    if x < y { assert !Conflict(all[x], all[y]); } else if y < x { assert !Conflict(all[y], all[x]); }
  }

  // ---- The methods ----

  class VoteTracker {
    var votesByValidator: map<Addr, seq<Vote>>
    var jailedUntil: map<Addr, int>
    var validatorStatus: map<Addr, Status>
    var persisted: set<(nat, Addr)>
    var votes: map<(Addr, nat), Vote>
    ghost var accepted: seq<Vote>
    ghost var recorded: map<Addr, seq<Vote>>

    ghost function Now(): State
      reads this
    {
      State(votesByValidator, jailedUntil, validatorStatus, persisted, accepted, recorded)
    }

    /** A new manager and engine, with what loading from storage gave. */
    constructor (jailed: map<Addr, int>, status: map<Addr, Status>, saved: set<(nat, Addr)>)
      ensures Now() == State(map[], jailed, status, saved, [], map[]) && Initial(Now()) && votes == map[]
    {
      votesByValidator, jailedUntil, validatorStatus, persisted, votes := map[], jailed, status, saved, map[];
      accepted, recorded := [], map[];
    }

    method IsValidatorJailed(a: Addr, now: int) returns (r: bool)
      modifies `jailedUntil, `validatorStatus
      ensures r <==> a in old(jailedUntil) && now <= old(jailedUntil)[a]
      ensures if a in old(jailedUntil) && old(jailedUntil)[a] < now
              then jailedUntil == old(jailedUntil) - {a} && validatorStatus == old(validatorStatus)[a := ActiveStatus]
              else jailedUntil == old(jailedUntil) && validatorStatus == old(validatorStatus)
    {
      if a !in jailedUntil {
        return false;
      }
      if now > jailedUntil[a] {
        jailedUntil := jailedUntil - {a};
        validatorStatus := validatorStatus[a := ActiveStatus];
        return false;
      }
      return true;
    }

    /** Scans the kept votes of the validator, then remembers a clean vote, forgetting the oldest beyond the window. */
    method ProcessVote(vote: Vote, height: int, now: int) returns (r: VoteResult)
      modifies `votesByValidator, `jailedUntil, `validatorStatus, `recorded
      ensures r == CheckVote(old(Now()), vote, height, now)
      ensures Now() == Remember(old(Now()), vote, height, now)
    {
      if height < GRACE_HEIGHT {
        return Clean;
      }
      var a := vote.validator;
      var jailed := IsValidatorJailed(a, now);
      if jailed {
        return Jailed;
      }
      var prevVotes := if a in votesByValidator then votesByValidator[a] else [];
      for i := 0 to |prevVotes|
        invariant FirstConflict(prevVotes, vote) == FirstConflict(prevVotes[i..], vote)
      {
        var prev := prevVotes[i];
        if vote.sourceEpoch < prev.sourceEpoch && vote.targetEpoch > prev.targetEpoch {
          return SurroundFound(prev, vote);
        }
        if prev.sourceEpoch < vote.sourceEpoch && prev.targetEpoch > vote.targetEpoch {
          return SurroundFound(vote, prev);
        }
      }
      var longer := prevVotes + [vote];
      if |longer| > MAX_KEPT {
        longer := longer[|longer| - MAX_KEPT..];
      }
      votesByValidator := votesByValidator[a := longer];
      recorded := recorded[a := Of(recorded, a) + [vote]];
      r := Clean;
    }

    method HandleVote(vote: Vote, env: Env)
      modifies this
      ensures Now() == Handle(old(Now()), vote, env)
      ensures votes ==
              if accepted == old(accepted) then old(votes)
              else old(votes)[(vote.validator, vote.targetEpoch) := vote]
    {
      if !env.signatureOk {
        return;
      }
      var hasVoted := env.lookupOk && (vote.targetEpoch, vote.validator) in persisted;
      if hasVoted {
        return;
      }
      if !(env.active && vote.targetEpoch > vote.sourceEpoch) {
        return;
      }
      var r := ProcessVote(vote, env.height, env.now);
      if !r.Clean? {
        if r.SurroundFound? && env.slashOk {
          jailedUntil := jailedUntil[vote.validator := env.now + env.jailDuration];
          validatorStatus := validatorStatus[vote.validator := env.slashedStatus];
        }
        return;
      }
      if !env.saveOk {
        return;
      }
      persisted := persisted + {(vote.targetEpoch, vote.validator)};
      votes := votes[(vote.validator, vote.targetEpoch) := vote];
      accepted := accepted + [vote];
    }
  }
}
