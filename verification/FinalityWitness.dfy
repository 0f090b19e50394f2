/** Runs the code can make that finalize a minority's block, and that take the finalized epoch back. */
module FinalityWitness {
  import opened Base
  import opened StakeSums
  import opened ForkChoiceSpec
  import opened ForkChoiceInvariants

  const CONFIG := Config(50, 0, 5, 0, 0)

  function Vote(v: Addr, h: Hash, epoch: nat, choice: Choice): Event {
    Attested(Attestation(v, h, 0, epoch, 0, 0), true, 0, choice)
  }

  type Tallies = map<nat, map<Hash, nat>>

  // ---- One vote for a new block in a new epoch ----

  /** What the lemmas below need to know of a state. */
  datatype Known = Known(
    tallies: Tallies, votes: Messages, attesters: map<Hash, set<Addr>>, epochs: map<Hash, nat>, finality: Finality)

  ghost predicate Is(s: State, k: Known) {
    && s.tracked.epochAttestations == k.tallies && s.messages == k.votes && s.finality == k.finality
    && s.tracked.validatorAttestations == k.attesters && s.tracked.blockEpochMap == k.epochs
    && s.tracked.blockScores.Keys == k.attesters.Keys
  }

  const NOTHING := Known(map[], map[], map[], map[], EMPTY.finality)

  ghost predicate IsNew(table: Table, k: Known, v: Addr, h: Hash, epoch: nat) {
    v in Active(table) && h !in k.attesters && epoch !in k.tallies && epoch !in k.votes
  }

  /** What is known once the vote is recorded. */
  function After(k: Known, v: Addr, h: Hash, epoch: nat, stake: nat, f: Finality): Known {
    Known(k.tallies[epoch := map[h := stake]], k.votes[epoch := map[v := h]],
          k.attesters[h := {v}], k.epochs[h := epoch], f)
  }

  lemma NewVoteCounts(s: State, table: Table, k: Known, att: Attestation)
    requires Is(s, k) && IsNew(table, k, att.validator, att.blockHash, att.epoch)
    ensures Counts(s, table, att, true) && ScoreOf(s.tracked, att.blockHash) == 0
  {
  }

  /** What is recorded before any cleanup: without a cap on blocks nothing is pruned. */
  lemma RecordedFirst(s: State, table: Table, k: Known, att: Attestation, stake: nat, s1: State)
    requires Is(s, k) && IsNew(table, k, att.validator, att.blockHash, att.epoch)
    requires s1 == State(AddToTally(Counted(s.tracked, CONFIG, att, stake), att.epoch, att.blockHash, stake),
                         RecordMessage(s.messages, att), s.finality)
    ensures Is(s1, After(k, att.validator, att.blockHash, att.epoch, stake, k.finality))
    ensures att.epoch !in Counted(s.tracked, CONFIG, att, stake).epochAttestations
  {
    assert AttestersOf(s.tracked, att.blockHash) + {att.validator} == {att.validator};
  }

  /** With no epoch old enough the cleanup that follows drops nothing. */
  lemma NothingStale(s1: State)
    requires s1.finality.finalized.None? && s1.tracked.blockScores.Keys == s1.tracked.blockEpochMap.Keys
    requires forall e | e in s1.tracked.epochAttestations :: e <= 50
    ensures CutoffOf(s1, CONFIG) == 0 && ListsStale(s1.tracked, 0, []) && Cleanup(s1, CONFIG, []) == s1
  {
    assert KeepFrom(s1.tracked.epochAttestations, 0) == s1.tracked.epochAttestations;
    assert KeepFrom(s1.messages, 0) == s1.messages;
    assert DroppedEpochs(s1.tracked, 0) == {};
    assert s1.tracked.epochBlockOrder - {} == s1.tracked.epochBlockOrder;
  }

  /** What the quorum check makes of the checkpoints, and that it can. */
  ghost predicate Checks(table: Table, k: Known, h: Hash, epoch: nat, stake: nat, best: Hash, f: Finality) {
    var tallies := k.tallies[epoch := map[h := stake]];
    && f == CheckQuorum(k.finality, tallies, TotalStake(table), CONFIG, epoch, h, stake, 0, best)
    && QuorumChoice(k.finality, tallies, TotalStake(table), CONFIG, epoch, h, stake, 0, best)
  }

  /** One vote while nothing is finalized: what is known before, and so what is known after. */
  lemma VoteStep(s: State, table: Table, k: Known, v: Addr, h: Hash, epoch: nat, best: Hash, stake: nat, f: Finality)
    requires Is(s, k) && k.finality.finalized.None? && k.epochs.Keys == k.attesters.Keys
    requires IsNew(table, k, v, h, epoch) && stake == table[v].stake
    requires epoch <= 50 && forall e | e in k.tallies :: e <= 50
    requires Checks(table, k, h, epoch, stake, best, f)
    ensures CanHappen(s, table, CONFIG, Vote(v, h, epoch, Choice([], best)))
    ensures Is(Apply(s, table, CONFIG, Vote(v, h, epoch, Choice([], best))), After(k, v, h, epoch, stake, f))
  {
    var choice := Choice([], best);
    var att := Vote(v, h, epoch, choice).att;
    NewVoteCounts(s, table, k, att);
    var s1 := State(AddToTally(Counted(s.tracked, CONFIG, att, stake), epoch, h, stake),
                    RecordMessage(s.messages, att), s.finality);
    RecordedFirst(s, table, k, att, stake, s1);
    NothingStale(s1);
    var tallies := s1.tracked.epochAttestations;
    FinalityAfterIs(s, table, CONFIG, att, 0, tallies, best, k.finality, TotalStake(table), stake);
    FinalityChoiceIs(s, table, CONFIG, att, 0, tallies, best, k.finality, TotalStake(table), stake);
    CountedAttestation(s, table, CONFIG, att, 0, choice, s1, f);
  }

  /** The same at the end of a run. */
  lemma VoteOnRun(events: seq<Event>, table: Table, k: Known, v: Addr, h: Hash, epoch: nat, best: Hash, stake: nat,
                  f: Finality)
    requires PossibleRun(table, CONFIG, events) && Is(Run(table, CONFIG, events), k)
    requires k.finality.finalized.None? && k.epochs.Keys == k.attesters.Keys
    requires IsNew(table, k, v, h, epoch) && stake == table[v].stake
    requires epoch <= 50 && forall e | e in k.tallies :: e <= 50
    requires Checks(table, k, h, epoch, stake, best, f)
    ensures PossibleRun(table, CONFIG, events + [Vote(v, h, epoch, Choice([], best))])
    ensures Is(Run(table, CONFIG, events + [Vote(v, h, epoch, Choice([], best))]), After(k, v, h, epoch, stake, f))
  {
    VoteStep(Run(table, CONFIG, events), table, k, v, h, epoch, best, stake, f);
    PossibleRunGrows(table, CONFIG, events, Vote(v, h, epoch, Choice([], best)));
  }

  lemma Constants()
    ensures Interval(CONFIG) == 10 && Threshold(100) == 67
  {
  }

  // ---- A minority's block is finalized ----

  const SMALL: Addr := "s"
  const LARGE: Addr := "l"

  /** One validator holds 1 of 100, the other the remaining 99. */
  const TWO: Table := map[SMALL := Validator(1, true), LARGE := Validator(99, true)]

  lemma StakeOfTwo()
    ensures Active(TWO) == {SMALL, LARGE} && TotalStake(TWO) == 100
  {
    assert Active(TWO) == {SMALL} + {LARGE};
    SumAdd({}, Stake(TWO), SMALL);
    SumAdd({SMALL}, Stake(TWO), LARGE);
    assert {} + {SMALL} == {SMALL};
  }

  const SMALL_VOTE := Vote(SMALL, "a", 0, Choice([], "a"))
  const LARGE_VOTE := Vote(LARGE, "b", 2, Choice([], "a"))
  const WITH_TOTAL := Finality(None, None, 100, 0)

  lemma SmallVote(events: seq<Event>)
    requires events == [SMALL_VOTE]
    ensures PossibleRun(TWO, CONFIG, events)
    ensures Is(Run(TWO, CONFIG, events), After(NOTHING, SMALL, "a", 0, 1, WITH_TOTAL))
  {
    StakeOfTwo();
    Constants();
    VoteOnRun([], TWO, NOTHING, SMALL, "a", 0, "a", 1, WITH_TOTAL);
    assert [] + [SMALL_VOTE] == events;
  }

  lemma LargeCheck(tallies: Tallies)
    requires 0 in tallies && tallies[0] == map["a" := 1]
    ensures var f := CheckQuorum(WITH_TOTAL, tallies, 100, CONFIG, 2, "b", 99, 0, "a");
            f.finalized == Some(Checkpoint(0, "a", 0, 1, 100))
    ensures QuorumChoice(WITH_TOTAL, tallies, 100, CONFIG, 2, "b", 99, 0, "a")
  {
    Constants();
    var justified := Finality(Some(Checkpoint(2, "b", 0, 99, 100)), None, 100, 0);
    assert "a" in tallies[0] && tallies[0] != map[];
    assert EpochToFinalize(justified, tallies) == Some(0) && IsBest(tallies[0], "a");
    assert Finalize(justified, tallies, 100, CONFIG, 0, "a").finalized == Some(Checkpoint(0, "a", 0, 1, 100));
  }

  lemma LargeOnRun(events: seq<Event>)
    requires PossibleRun(TWO, CONFIG, events)
    requires Is(Run(TWO, CONFIG, events), After(NOTHING, SMALL, "a", 0, 1, WITH_TOTAL))
    ensures PossibleRun(TWO, CONFIG, events + [LARGE_VOTE])
    ensures Run(TWO, CONFIG, events + [LARGE_VOTE]).finality.finalized == Some(Checkpoint(0, "a", 0, 1, 100))
  {
    StakeOfTwo();
    var k := After(NOTHING, SMALL, "a", 0, 1, WITH_TOTAL);
    var tallies := k.tallies[2 := map["b" := 99]];
    LargeCheck(tallies);
    VoteOnRun(events, TWO, k, LARGE, "b", 2, "a", 99,
              CheckQuorum(WITH_TOTAL, tallies, 100, CONFIG, 2, "b", 99, 0, "a"));
  }

  /**
   * The small validator votes in epoch 0, the large one in epoch 2: justifying epoch 2 finalizes
   * epoch 0 with 1 of 100 behind it. Go has no other choice in this run, each tally has one block.
   */
  lemma MinorityIsFinalized(events: seq<Event>)
    requires events == [SMALL_VOTE] + [LARGE_VOTE]
    ensures PossibleRun(TWO, CONFIG, events)
    ensures Run(TWO, CONFIG, events).finality.finalized == Some(Checkpoint(0, "a", 0, 1, 100))
    ensures 1 < Threshold(TotalStake(TWO))
  {
    StakeOfTwo();
    var first := [SMALL_VOTE];
    SmallVote(first);
    LargeOnRun(first);
  }

  // ---- The finalized epoch is taken back ----

  const ALL: Addr := "v"
  const ONE: Table := map[ALL := Validator(100, true)]

  lemma StakeOfOne()
    ensures Active(ONE) == {ALL} && TotalStake(ONE) == 100
  {
    SumAdd({}, Stake(ONE), ALL);
    assert {} + {ALL} == {ALL};
  }

  const VOTE_TEN := Vote(ALL, "a", 10, Choice([], "a"))
  const VOTE_TWELVE := Vote(ALL, "b", 12, Choice([], "a"))
  const VOTE_ZERO := Vote(ALL, "c", 0, Choice(["c"], "a"))
  const UPDATE := AutoFinalized(12, 0)

  const IN_TEN := Finality(Some(Checkpoint(10, "a", 0, 100, 100)), None, 100, 0)
  const IN_TWELVE := Finality(Some(Checkpoint(12, "b", 0, 100, 100)), Some(Checkpoint(10, "a", 0, 100, 100)), 100, 0)
  const IN_ZERO := IN_TWELVE.(justified := Some(Checkpoint(0, "c", 0, 100, 100)))

  ghost function AfterTen(): Known {
    After(NOTHING, ALL, "a", 10, 100, IN_TEN)
  }

  ghost function AfterTwelve(): Known {
    After(AfterTen(), ALL, "b", 12, 100, IN_TWELVE)
  }

  lemma CheckTen(tallies: Tallies)
    ensures CheckQuorum(EMPTY.finality, tallies, 100, CONFIG, 10, "a", 100, 0, "a") == IN_TEN
    ensures QuorumChoice(EMPTY.finality, tallies, 100, CONFIG, 10, "a", 100, 0, "a")
  {
    Constants();
  }

  lemma CheckTwelve(tallies: Tallies)
    requires 10 in tallies && tallies[10] == map["a" := 100]
    ensures CheckQuorum(IN_TEN, tallies, 100, CONFIG, 12, "b", 100, 0, "a") == IN_TWELVE
    ensures QuorumChoice(IN_TEN, tallies, 100, CONFIG, 12, "b", 100, 0, "a")
  {
    Constants();
    var justified := IN_TEN.(justified := Some(Checkpoint(12, "b", 0, 100, 100)));
    assert "a" in tallies[10] && tallies[10] != map[];
    assert EpochToFinalize(justified, tallies) == Some(10) && IsBest(tallies[10], "a");
    assert Finalize(justified, tallies, 100, CONFIG, 0, "a") == IN_TWELVE;
  }

  lemma CheckZero(tallies: Tallies)
    ensures CheckQuorum(IN_TWELVE, tallies, 100, CONFIG, 0, "c", 100, 0, "a") == IN_ZERO
    ensures QuorumChoice(IN_TWELVE, tallies, 100, CONFIG, 0, "c", 100, 0, "a")
  {
    Constants();
  }

  lemma RunToTen(events: seq<Event>)
    requires events == [VOTE_TEN]
    ensures PossibleRun(ONE, CONFIG, events) && Is(Run(ONE, CONFIG, events), AfterTen())
  {
    StakeOfOne();
    CheckTen(NOTHING.tallies[10 := map["a" := 100]]);
    VoteOnRun([], ONE, NOTHING, ALL, "a", 10, "a", 100, IN_TEN);
    assert [] + [VOTE_TEN] == events;
  }

  lemma TwelveOnRun(events: seq<Event>)
    requires PossibleRun(ONE, CONFIG, events) && Is(Run(ONE, CONFIG, events), AfterTen())
    ensures PossibleRun(ONE, CONFIG, events + [VOTE_TWELVE])
    ensures Is(Run(ONE, CONFIG, events + [VOTE_TWELVE]), AfterTwelve())
  {
    StakeOfOne();
    CheckTwelve(AfterTen().tallies[12 := map["b" := 100]]);
    VoteOnRun(events, ONE, AfterTen(), ALL, "b", 12, "a", 100, IN_TWELVE);
  }

  /** With epoch 10 finalized, a block of epoch 0 is swept away by the cleanup its own vote triggers. */
  lemma OnlyTheOldBlockIsStale(s1: State)
    requires Is(s1, After(AfterTwelve(), ALL, "c", 0, 100, IN_TWELVE))
    ensures CutoffOf(s1, CONFIG) == 8 && ListsStale(s1.tracked, 8, ["c"])
  {
    var tallies := s1.tracked.epochAttestations;
    assert 12 in tallies;
    assert forall e | e in tallies :: e <= 12;
    assert CurrentEpoch(s1.tracked) == 12;
  }

  lemma ZeroVote(s: State)
    requires Is(s, AfterTwelve())
    ensures CanHappen(s, ONE, CONFIG, VOTE_ZERO)
    ensures Apply(s, ONE, CONFIG, VOTE_ZERO).finality == IN_ZERO
  {
    StakeOfOne();
    var att, choice := VOTE_ZERO.att, VOTE_ZERO.choice;
    NewVoteCounts(s, ONE, AfterTwelve(), att);
    var s1 := State(AddToTally(Counted(s.tracked, CONFIG, att, 100), 0, "c", 100), RecordMessage(s.messages, att),
                    s.finality);
    RecordedFirst(s, ONE, AfterTwelve(), att, 100, s1);
    OnlyTheOldBlockIsStale(s1);
    var s2 := Recorded(s, CONFIG, att, 100, choice.removals);
    var tallies := s2.tracked.epochAttestations;
    CheckZero(tallies);
    FinalityAfterIs(s, ONE, CONFIG, att, 0, tallies, "a", IN_TWELVE, 100, 100);
    FinalityChoiceIs(s, ONE, CONFIG, att, 0, tallies, "a", IN_TWELVE, 100, 100);
    CountedAttestation(s, ONE, CONFIG, att, 0, choice, s2, IN_ZERO);
  }

  lemma ZeroOnRun(events: seq<Event>)
    requires PossibleRun(ONE, CONFIG, events) && Is(Run(ONE, CONFIG, events), AfterTwelve())
    ensures PossibleRun(ONE, CONFIG, events + [VOTE_ZERO])
    ensures Run(ONE, CONFIG, events + [VOTE_ZERO]).finality == IN_ZERO
  {
    ZeroVote(Run(ONE, CONFIG, events));
    PossibleRunGrows(ONE, CONFIG, events, VOTE_ZERO);
  }

  lemma UpdateOnRun(events: seq<Event>)
    requires PossibleRun(ONE, CONFIG, events) && Run(ONE, CONFIG, events).finality == IN_ZERO
    ensures PossibleRun(ONE, CONFIG, events + [UPDATE]) && GoesBack(Run(ONE, CONFIG, events), UPDATE)
    ensures Run(ONE, CONFIG, events + [UPDATE]).finality.finalized == Some(Checkpoint(0, "c", 0, 100, 100))
  {
    PossibleRunGrows(ONE, CONFIG, events, UPDATE);
  }

  /**
   * One validator with all the stake votes in epochs 10, 12 and 0. The second vote finalizes epoch 10,
   * the third justifies epoch 0 as a periodic checkpoint, and UpdateFinalization then finalizes epoch 0.
   */
  lemma FinalityIsTakenBack(votes: seq<Event>)
    requires votes == [VOTE_TEN] + [VOTE_TWELVE] + [VOTE_ZERO]
    ensures PossibleRun(ONE, CONFIG, votes + [UPDATE]) && GoesBack(Run(ONE, CONFIG, votes), UPDATE)
    ensures Run(ONE, CONFIG, votes).finality.finalized == Some(Checkpoint(10, "a", 0, 100, 100))
    ensures Run(ONE, CONFIG, votes + [UPDATE]).finality.finalized == Some(Checkpoint(0, "c", 0, 100, 100))
  {
    var first := [VOTE_TEN];
    RunToTen(first);
    TwelveOnRun(first);
    ZeroOnRun(first + [VOTE_TWELVE]);
    UpdateOnRun(votes);
  }
}
