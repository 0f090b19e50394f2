/** What the per-epoch tallies are worth: when they count real votes, and each vote once. */
module Tallies {
  import opened Base
  import opened StakeSums
  import opened ForkChoiceSpec
  import opened ForkChoiceInvariants
  import opened ForkChoiceEffects

  /** Every block in a tally is tracked, so that its attesters are known. */
  ghost predicate NoStrays(t: Tracked) {
    forall e, h | e in t.epochAttestations && h in t.epochAttestations[e] :: h in t.validatorAttestations
  }

  /** The validators that voted for the block in this epoch and are known as its attesters. */
  ghost function Backers(s: State, epoch: nat, h: Hash): set<Addr> {
    VotersFor(s.messages, epoch, h) * AttestersOf(s.tracked, h)
  }

  ghost predicate TallyOk(s: State, table: Table, e: nat, h: Hash)
    requires e in s.tracked.epochAttestations && h in s.tracked.epochAttestations[e]
  {
    e in s.messages && s.tracked.epochAttestations[e][h] <= Sum(Backers(s, e, h), Stake(table))
  }

  ghost predicate TalliesOk(s: State, table: Table) {
    forall e, h | e in s.tracked.epochAttestations && h in s.tracked.epochAttestations[e] :: TallyOk(s, table, e, h)
  }

  // ---- One removal ----

  predicate IsEpochOf(t: Tracked, h: Hash, e: nat) {
    h in t.blockEpochMap && t.blockEpochMap[h] == e
  }

  /** No other epoch than the block's own has it in its tally. */
  ghost predicate TalliedInOwnEpoch(t: Tracked, h: Hash) {
    forall e | e in t.epochAttestations && h in t.epochAttestations[e] :: IsEpochOf(t, h, e)
  }

  /** Removing a block leaves it in no tally exactly when only its own epoch has it. */
  lemma RemovalIsCleanIff(t: Tracked, h: Hash)
    ensures var u := RemoveTracked(t, h);
            && ((forall e | e in u.epochAttestations :: h !in u.epochAttestations[e]) <==> TalliedInOwnEpoch(t, h))
            && (NoStrays(t) ==> (NoStrays(u) <==> TalliedInOwnEpoch(t, h)))
  {
    var u := RemoveTracked(t, h);
    forall e, x | x != h && e in t.epochAttestations && x in t.epochAttestations[e]
      ensures e in u.epochAttestations && x in u.epochAttestations[e]
    {
      if IsEpochOf(t, h, e) { assert x in t.epochAttestations[e] - {h}; }
    }
    if e :| e in t.epochAttestations && h in t.epochAttestations[e] && !IsEpochOf(t, h, e) {
      assert e in u.epochAttestations && h in u.epochAttestations[e];
    }
  }

  // ---- Removals only remove from tallies ----

  ghost predicate TallyOnlyRemoves(t: Tracked, u: Tracked) {
    forall e, h | e in u.epochAttestations && h in u.epochAttestations[e] ::
      e in t.epochAttestations && h in t.epochAttestations[e] && u.epochAttestations[e][h] == t.epochAttestations[e][h]
  }

  lemma RemovalOnlyRemoves(t: Tracked, u: Tracked, h: Hash)
    requires TallyOnlyRemoves(t, u)
    ensures TallyOnlyRemoves(t, RemoveTracked(u, h))
  {
  }

  lemma {:induction false} RemovalsOnlyRemoveTallies(t: Tracked, u: Tracked, hs: seq<Hash>)
    requires TallyOnlyRemoves(t, u)
    ensures TallyOnlyRemoves(t, RemoveAll(u, hs))
    decreases |hs|
  {
    if hs != [] {
      RemovalsOnlyRemoveTallies(t, u, hs[..|hs| - 1]);
      RemovalOnlyRemoves(t, RemoveAll(u, hs[..|hs| - 1]), hs[|hs| - 1]);
    }
  }

  lemma {:induction false} PruningOnlyRemovesTallies(t: Tracked, u: Tracked, epoch: nat, limit: nat,
                                                     backing: seq<Hash>, start: nat)
    requires TallyOnlyRemoves(t, u) && start <= |backing| && |View(u, epoch)| <= |backing|
    ensures TallyOnlyRemoves(t, PruneFrom(u, epoch, limit, backing, start))
    decreases |backing| - start
  {
    if |backing| - start > limit {
      var oldest := backing[start];
      ViewShrinks(u, epoch, oldest);
      RemovalOnlyRemoves(t, u, oldest);
      PruningOnlyRemovesTallies(t, RemoveTracked(u, oldest), epoch, limit,
                                BackingAfterRemoval(u, epoch, backing, oldest), start + 1);
    }
  }

  lemma CountingOnlyRemovesTallies(t: Tracked, cfg: Config, att: Attestation, stake: nat)
    ensures TallyOnlyRemoves(t, Counted(t, cfg, att, stake))
  {
    if att.blockHash !in t.blockScores && cfg.maxBlocksPerEpoch > 0 {
      var t1 := RecordAttester(t, cfg, att, stake);
      var t2 := t1.(epochBlockOrder := t1.epochBlockOrder[att.epoch := View(t1, att.epoch) + [att.blockHash]]);
      PruningOnlyRemovesTallies(t, t2, att.epoch, cfg.maxBlocksPerEpoch, View(t2, att.epoch), 0);
    }
  }

  function TallyOf(t: Tracked, e: nat, h: Hash): nat {
    if e in t.epochAttestations && h in t.epochAttestations[e] then t.epochAttestations[e][h] else 0
  }

  /** The attestation's stake is added to one entry; no other entry grows, and none appears. */
  ghost predicate AddsOne(t: Tracked, u: Tracked, att: Attestation, stake: nat) {
    forall e, h | e in u.epochAttestations && h in u.epochAttestations[e] ::
      if e == att.epoch && h == att.blockHash
      then TallyOf(u, e, h) <= TallyOf(t, e, h) + stake
      else e in t.epochAttestations && h in t.epochAttestations[e] && TallyOf(u, e, h) == TallyOf(t, e, h)
  }

  lemma AddingIsOne(t: Tracked, u: Tracked, att: Attestation, stake: nat)
    requires TallyOnlyRemoves(t, u)
    ensures AddsOne(t, AddToTally(u, att.epoch, att.blockHash, stake), att, stake)
  {
  }

  lemma RemovingAddsNone(t: Tracked, u: Tracked, u': Tracked, att: Attestation, stake: nat)
    requires AddsOne(t, u, att, stake) && TallyOnlyRemoves(u, u')
    ensures AddsOne(t, u', att, stake)
  {
  }

  lemma RecordingTallies(s: State, cfg: Config, att: Attestation, stake: nat, removals: seq<Hash>)
    ensures AddsOne(s.tracked, Recorded(s, cfg, att, stake, removals).tracked, att, stake)
  {
    CountingOnlyRemovesTallies(s.tracked, cfg, att, stake);
    var counted := Counted(s.tracked, cfg, att, stake);
    AddingIsOne(s.tracked, counted, att, stake);
    var s1 := State(AddToTally(counted, att.epoch, att.blockHash, stake), RecordMessage(s.messages, att), s.finality);
    if att.epoch !in counted.epochAttestations {
      var dropped := DropOldEpochs(s1.tracked, CutoffOf(s1, cfg));
      RemovalsOnlyRemoveTallies(s1.tracked, dropped, removals);
      RemovingAddsNone(s.tracked, s1.tracked, RemoveAll(dropped, removals), att, stake);
    }
  }

  /** An epoch that keeps its tally keeps its votes. */
  lemma RecordingKeepsVotes(s: State, cfg: Config, att: Attestation, stake: nat, removals: seq<Hash>, e: nat)
    requires e == att.epoch || e in s.messages
    requires e in Recorded(s, cfg, att, stake, removals).tracked.epochAttestations
    ensures var m := Recorded(s, cfg, att, stake, removals).messages;
            e in m && m[e] == RecordMessage(s.messages, att)[e]
  {
    var counted := Counted(s.tracked, cfg, att, stake);
    var s1 := State(AddToTally(counted, att.epoch, att.blockHash, stake), RecordMessage(s.messages, att), s.finality);
    if att.epoch !in counted.epochAttestations {
      RemovalsShrinkTally(DropOldEpochs(s1.tracked, CutoffOf(s1, cfg)), removals);
    }
  }

  // ---- One step ----

  lemma MoreBackers(s: State, t: State, table: Table, e: nat, h: Hash, v: Addr)
    requires Backers(s, e, h) <= Backers(t, e, h)
    ensures Sum(Backers(s, e, h), Stake(table)) <= Sum(Backers(t, e, h), Stake(table))
    ensures v in Backers(t, e, h) && v !in Backers(s, e, h) ==>
              Sum(Backers(s, e, h), Stake(table)) + Stake(table)(v) <= Sum(Backers(t, e, h), Stake(table))
  {
    SumSubset(Backers(s, e, h), Backers(t, e, h), Stake(table));
    if v in Backers(t, e, h) && v !in Backers(s, e, h) {
      SumAdd(Backers(s, e, h), Stake(table), v);
      SumSubset(Backers(s, e, h) + {v}, Backers(t, e, h), Stake(table));
    }
  }

  /** A vote that does not contradict an earlier one only adds voters. */
  lemma VotersGrow(m: Messages, att: Attestation, e: nat, h: Hash)
    requires !Equivocates(m, att)
    ensures VotersFor(m, e, h) <= VotersFor(RecordMessage(m, att), e, h)
    ensures e == att.epoch && h == att.blockHash ==> att.validator in VotersFor(RecordMessage(m, att), e, h)
  {
  }

  lemma EntryAfterCounting(s: State, table: Table, cfg: Config, att: Attestation, removals: seq<Hash>, t: State,
                           e: nat, h: Hash)
    requires TalliesOk(s, table) && Counts(s, table, att, true)
    requires t.tracked == Recorded(s, cfg, att, table[att.validator].stake, removals).tracked
    requires t.messages == Recorded(s, cfg, att, table[att.validator].stake, removals).messages
    requires e in t.tracked.epochAttestations && h in t.tracked.epochAttestations[e]
             && h in t.tracked.validatorAttestations
    ensures TallyOk(t, table, e, h)
  {
    var stake := table[att.validator].stake;
    RecordingTallies(s, cfg, att, stake, removals);
    if e != att.epoch || h != att.blockHash { assert TallyOk(s, table, e, h); }
    RecordingKeepsVotes(s, cfg, att, stake, removals, e);
    RecordingOnlyRemoves(s, cfg, att, stake, removals);
    VotersGrow(s.messages, att, e, h);
    assert VotersFor(t.messages, e, h) == VotersFor(RecordMessage(s.messages, att), e, h);
    assert AttestersOf(s.tracked, h) <= AttestersOf(t.tracked, h);
    MoreBackers(s, t, table, e, h, att.validator);
    if e == att.epoch && h == att.blockHash {
      if e in s.tracked.epochAttestations && h in s.tracked.epochAttestations[e] { assert TallyOk(s, table, e, h); }
      assert att.validator in Backers(t, e, h) && att.validator !in Backers(s, e, h);
    }
  }

  lemma AttestKeepsTallies(s: State, table: Table, cfg: Config, att: Attestation, admitted: bool, now: int,
                           choice: Choice)
    requires TalliesOk(s, table)
    requires NoStrays(Attest(s, table, cfg, att, admitted, now, choice).tracked)
    ensures TalliesOk(Attest(s, table, cfg, att, admitted, now, choice), table)
  {
    var t := Attest(s, table, cfg, att, admitted, now, choice);
    forall e, h | e in t.tracked.epochAttestations && h in t.tracked.epochAttestations[e]
      ensures TallyOk(t, table, e, h)
    {
      if Counts(s, table, att, admitted) {
        EntryAfterCounting(s, table, cfg, att, choice.removals, t, e, h);
      } else {
        assert TallyOk(s, table, e, h);
        if t.messages != s.messages { VotersGrow(s.messages, att, e, h); }
        MoreBackers(s, t, table, e, h, att.validator);
      }
    }
  }

  lemma CleanupKeepsTallies(s: State, table: Table, cfg: Config, removals: seq<Hash>)
    requires TalliesOk(s, table) && NoStrays(Cleanup(s, cfg, removals).tracked)
    ensures TalliesOk(Cleanup(s, cfg, removals), table)
  {
    var t := Cleanup(s, cfg, removals);
    var dropped := DropOldEpochs(s.tracked, CutoffOf(s, cfg));
    RemovalsOnlyRemove(dropped, removals);
    RemovalsShrinkTally(dropped, removals);
    RemovalsOnlyRemoveTallies(s.tracked, dropped, removals);
    forall e, h | e in t.tracked.epochAttestations && h in t.tracked.epochAttestations[e]
      ensures TallyOk(t, table, e, h)
    {
      assert TallyOk(s, table, e, h);
      assert Backers(t, e, h) == Backers(s, e, h);
    }
  }

  // ---- Runs ----

  /** At no point of the run is a block in a tally without being tracked. */
  ghost predicate CleanRun(table: Table, cfg: Config, events: seq<Event>) {
    NoStrays(Run(table, cfg, events).tracked) && (events == [] || CleanRun(table, cfg, events[..|events| - 1]))
  }

  lemma StepKeepsTallies(s: State, table: Table, cfg: Config, e: Event)
    requires TalliesOk(s, table) && NoStrays(Apply(s, table, cfg, e).tracked)
    ensures TalliesOk(Apply(s, table, cfg, e), table)
  {
    match e
    case Attested(att, admitted, now, choice) => AttestKeepsTallies(s, table, cfg, att, admitted, now, choice);
    case CleanedUp(removals) => CleanupKeepsTallies(s, table, cfg, removals);
    case AutoFinalized(epoch, wait) =>
      var t := Apply(s, table, cfg, e);
      forall x, h | x in t.tracked.epochAttestations && h in t.tracked.epochAttestations[x]
        ensures TallyOk(t, table, x, h)
      {
        assert TallyOk(s, table, x, h);
        assert Backers(t, x, h) == Backers(s, x, h);
      }
  }

  lemma {:induction false} CleanRunTallies(table: Table, cfg: Config, events: seq<Event>)
    requires CleanRun(table, cfg, events)
    ensures TalliesOk(Run(table, cfg, events), table)
    decreases |events|
  {
    if events != [] {
      CleanRunTallies(table, cfg, events[..|events| - 1]);
      StepKeepsTallies(Run(table, cfg, events[..|events| - 1]), table, cfg, events[|events| - 1]);
    }
  }

  lemma TallyWithinVotes(s: State, table: Table, e: nat, h: Hash)
    requires e in s.tracked.epochAttestations && h in s.tracked.epochAttestations[e] && TallyOk(s, table, e, h)
    ensures s.tracked.epochAttestations[e][h] <= VoteStake(s.messages, table, e, h)
  {
    SumSubset(Backers(s, e, h), VotersFor(s.messages, e, h), Stake(table));
  }

  /**
   * Where no removal leaves a block in a tally, no tally counts more than the votes cast for the block
   * in that epoch.
   */
  lemma TalliesCountVotes(table: Table, cfg: Config, events: seq<Event>, e: nat, h: Hash)
    requires CleanRun(table, cfg, events)
    requires e in Run(table, cfg, events).tracked.epochAttestations
             && h in Run(table, cfg, events).tracked.epochAttestations[e]
    ensures var s := Run(table, cfg, events);
            s.tracked.epochAttestations[e][h] <= VoteStake(s.messages, table, e, h)
  {
    var s := Run(table, cfg, events);
    CleanRunTallies(table, cfg, events);
    TallyWithinVotes(s, table, e, h);
  }

  // ---- What is finalized ----

  /** The checkpoint is new, and its attesting stake is an entry of a tally. */
  ghost predicate RecordsTally(c: Option<Checkpoint>, tallies: map<nat, map<Hash, nat>>, total: nat) {
    && c.Some? && c.value.totalStake == total && c.value.epoch in tallies
    && c.value.blockHash in tallies[c.value.epoch]
    && c.value.attestingStake == tallies[c.value.epoch][c.value.blockHash]
  }

  lemma NewlyFinalized(f: Finality, tallies: map<nat, map<Hash, nat>>, total: nat, cfg: Config,
                       epoch: nat, h: Hash, score: nat, now: int, best: Hash)
    requires Justification(f, total)
    ensures var c := CheckQuorum(f, tallies, total, cfg, epoch, h, score, now, best).finalized;
            c != f.finalized ==> RecordsTally(c, tallies, total)
  {
  }

  lemma NewlyFinalizedAfter(s: State, table: Table, cfg: Config, att: Attestation, now: int,
                            tallies: map<nat, map<Hash, nat>>, best: Hash, f0: Finality, total: nat, score: nat)
    requires att.validator in table && f0 == s.finality && total == TotalStake(table) && Justification(f0, total)
    requires score == ScoreOf(s.tracked, att.blockHash) + table[att.validator].stake
    ensures var c := FinalityAfter(s, table, cfg, att, now, tallies, best).finalized;
            c != f0.finalized ==> RecordsTally(c, tallies, total)
  {
    FinalityAfterIs(s, table, cfg, att, now, tallies, best, f0, total, score);
    NewlyFinalized(f0, tallies, total, cfg, att.epoch, att.blockHash, score, now, best);
  }

  /** A checkpoint that an attestation finalizes records a tally of the state it leaves behind. */
  lemma FinalizedByAttestation(s: State, table: Table, cfg: Config, att: Attestation, admitted: bool, now: int,
                               choice: Choice)
    requires Justification(s.finality, TotalStake(table))
    ensures var t := Attest(s, table, cfg, att, admitted, now, choice);
            t.finality.finalized != s.finality.finalized ==>
              RecordsTally(t.finality.finalized, t.tracked.epochAttestations, TotalStake(table))
  {
    if Counts(s, table, att, admitted) {
      var s1 := Recorded(s, cfg, att, table[att.validator].stake, choice.removals);
      var tallies := s1.tracked.epochAttestations;
      var score := ScoreOf(s.tracked, att.blockHash) + table[att.validator].stake;
      NewlyFinalizedAfter(s, table, cfg, att, now, tallies, choice.best, s.finality, TotalStake(table), score);
      AttestInTwoParts(s, table, cfg, att, now, choice, s1,
                       FinalityAfter(s, table, cfg, att, now, tallies, choice.best));
    }
  }

  /**
   * In a run where no removal leaves a block in a tally, the stake a finalized checkpoint records is
   * stake that voted for its block in its epoch: with a quorum on record, the quorum is real.
   */
  lemma FinalizedQuorumIsReal(table: Table, cfg: Config, events: seq<Event>)
    requires events != [] && CleanRun(table, cfg, events) && events[|events| - 1].Attested?
    ensures var before, t := Run(table, cfg, events[..|events| - 1]), Run(table, cfg, events);
            var c := t.finality.finalized;
            c != before.finality.finalized ==>
              && c.Some? && c.value.attestingStake <= VoteStake(t.messages, table, c.value.epoch, c.value.blockHash)
              && (c.value.attestingStake >= Threshold(c.value.totalStake) ==>
                  HasQuorumOf(c, t.messages, table, c.value.epoch))
  {
    var rest, e := events[..|events| - 1], events[|events| - 1];
    RunKeepsInv(table, cfg, rest);
    FinalizedByAttestation(Run(table, cfg, rest), table, cfg, e.att, e.admitted, e.now, e.choice);
    CleanRunTallies(table, cfg, events);
    var t := Run(table, cfg, events);
    var c := t.finality.finalized;
    if c != Run(table, cfg, rest).finality.finalized {
      TallyWithinVotes(t, table, c.value.epoch, c.value.blockHash);
    }
  }

  /**
   * There a block whose tally reaches the quorum is the only best of its epoch: it is finalized
   * whatever the iteration order.
   */
  lemma QuorumTallyIsOnlyBest(s: State, table: Table, e: nat, h: Hash)
    requires TalliesOk(s, table) && VotersActive(s.messages, table)
    requires e in s.tracked.epochAttestations && h in s.tracked.epochAttestations[e]
    requires s.tracked.epochAttestations[e][h] >= Threshold(TotalStake(table))
    ensures IsOnlyBest(s.tracked.epochAttestations[e], h)
    ensures VoteStake(s.messages, table, e, h) >= Threshold(TotalStake(table))
  {
    assert TallyOk(s, table, e, h);
    TallyWithinVotes(s, table, e, h);
    var tally := s.tracked.epochAttestations[e];
    forall x | x in tally && x != h ensures tally[x] < tally[h] {
      assert TallyOk(s, table, e, x);
      TallyWithinVotes(s, table, e, x);
      if tally[x] >= tally[h] { OneQuorumPerEpoch(s.messages, table, e, h, x); }
    }
  }

  /**
   * A vote already on record is counted once more exactly when the block does not know the validator as
   * an attester.
   */
  lemma CountedAgainIff(s: State, table: Table, att: Attestation)
    requires att.validator in Active(table) && att.validator in VotersFor(s.messages, att.epoch, att.blockHash)
    ensures Counts(s, table, att, true) <==> att.validator !in AttestersOf(s.tracked, att.blockHash)
    ensures RecordMessage(s.messages, att) == s.messages
  {
    var votes := VotesOf(s.messages, att.epoch);
    assert votes[att.validator := att.blockHash] == votes;
  }

  // ---- Runs that are clean ----

  /** Every attestation of a block is for the epoch that `of` gives the block. */
  predicate InEpochs(events: seq<Event>, of: Hash -> nat) {
    forall e | e in events && e.Attested? :: e.att.epoch == of(e.att.blockHash)
  }

  /** Blocks are tracked and tallied under their one epoch. */
  ghost predicate OneEpoch(t: Tracked, of: Hash -> nat) {
    && t.blockScores.Keys == t.validatorAttestations.Keys && t.blockScores.Keys == t.blockEpochMap.Keys
    && (forall h | h in t.blockEpochMap :: t.blockEpochMap[h] == of(h))
    && (forall e, h | e in t.epochAttestations && h in t.epochAttestations[e] ::
        e == of(h) && h in t.validatorAttestations)
  }

  lemma OneEpochAfterRemoval(t: Tracked, of: Hash -> nat, h: Hash)
    requires OneEpoch(t, of)
    ensures OneEpoch(RemoveTracked(t, h), of)
  {
    RemovalIsCleanIff(t, h);
    RemovalOnlyRemoves(t, t, h);
  }

  lemma {:induction false} OneEpochAfterRemovals(t: Tracked, of: Hash -> nat, hs: seq<Hash>)
    requires OneEpoch(t, of)
    ensures OneEpoch(RemoveAll(t, hs), of)
    decreases |hs|
  {
    if hs != [] {
      OneEpochAfterRemovals(t, of, hs[..|hs| - 1]);
      OneEpochAfterRemoval(RemoveAll(t, hs[..|hs| - 1]), of, hs[|hs| - 1]);
    }
  }

  lemma OneEpochAfterTally(t: Tracked, of: Hash -> nat, cfg: Config, att: Attestation, stake: nat)
    requires OneEpoch(t, of) && cfg.maxBlocksPerEpoch <= 0 && att.epoch == of(att.blockHash)
    ensures OneEpoch(AddToTally(Counted(t, cfg, att, stake), att.epoch, att.blockHash, stake), of)
  {
    var t1 := RecordAttester(t, cfg, att, stake);
    assert OneEpoch(t1, of);
    var t2 := Counted(t, cfg, att, stake);
    assert t2 == t1.(epochBlockOrder := t2.epochBlockOrder);
    TallyAdded(t2, of, att.epoch, att.blockHash, stake);
  }

  lemma TallyAdded(t: Tracked, of: Hash -> nat, epoch: nat, h: Hash, stake: nat)
    requires OneEpoch(t, of) && epoch == of(h) && h in t.validatorAttestations
    ensures OneEpoch(AddToTally(t, epoch, h, stake), of)
  {
  }

  lemma OneEpochAfterRecording(s: State, of: Hash -> nat, cfg: Config, att: Attestation, stake: nat,
                               removals: seq<Hash>)
    requires OneEpoch(s.tracked, of) && cfg.maxBlocksPerEpoch <= 0 && att.epoch == of(att.blockHash)
    ensures OneEpoch(Recorded(s, cfg, att, stake, removals).tracked, of)
  {
    var counted := Counted(s.tracked, cfg, att, stake);
    var s1 := State(AddToTally(counted, att.epoch, att.blockHash, stake), RecordMessage(s.messages, att), s.finality);
    OneEpochAfterTally(s.tracked, of, cfg, att, stake);
    if att.epoch !in counted.epochAttestations {
      OneEpochAfterRemovals(DropOldEpochs(s1.tracked, CutoffOf(s1, cfg)), of, removals);
    }
  }

  lemma OneEpochAfterStep(s: State, of: Hash -> nat, table: Table, cfg: Config, e: Event)
    requires OneEpoch(s.tracked, of) && cfg.maxBlocksPerEpoch <= 0
    requires e.Attested? ==> e.att.epoch == of(e.att.blockHash)
    ensures OneEpoch(Apply(s, table, cfg, e).tracked, of)
  {
    match e
    case Attested(att, admitted, now, choice) =>
      if Counts(s, table, att, admitted) {
        OneEpochAfterRecording(s, of, cfg, att, table[att.validator].stake, choice.removals);
      }
    case CleanedUp(removals) =>
      OneEpochAfterRemovals(DropOldEpochs(s.tracked, CutoffOf(s, cfg)), of, removals);
    case AutoFinalized(_, _) =>
  }

  /** Without a cap on blocks, and with every block attested in one epoch only, every run is clean. */
  lemma {:induction false} OneEpochRunsAreClean(table: Table, cfg: Config, events: seq<Event>, of: Hash -> nat)
    requires cfg.maxBlocksPerEpoch <= 0 && InEpochs(events, of)
    ensures CleanRun(table, cfg, events) && OneEpoch(Run(table, cfg, events).tracked, of)
    decreases |events|
  {
    if events != [] {
      var rest, e := events[..|events| - 1], events[|events| - 1];
      assert events == rest + [e];
      OneEpochRunsAreClean(table, cfg, rest, of);
      OneEpochAfterStep(Run(table, cfg, rest), of, table, cfg, e);
    }
  }
}
