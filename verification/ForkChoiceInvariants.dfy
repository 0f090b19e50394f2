/** What every run of attestations and cleanups keeps. */
module ForkChoiceInvariants {
  import opened Base
  import opened StakeSums
  import opened ForkChoiceSpec

  // ---- The books: scores, attesters and stored attestations agree ----

  function Min(a: nat, b: nat): nat {
    if a < b then a else b
  }

  /** The stored attestations of one block: distinct attesters of that block, all of them up to the limit. */
  ghost predicate StoredOk(stored: seq<Attestation>, attesters: set<Addr>, h: Hash, cfg: Config) {
    && |stored| == Min(|attesters|, cfg.maxAttestationsPerBlock)
    && (forall i | 0 <= i < |stored| :: stored[i].validator in attesters && stored[i].blockHash == h)
    && (forall i, j | 0 <= i < j < |stored| :: stored[i].validator != stored[j].validator)
  }

  ghost predicate EntryOk(score: nat, attesters: set<Addr>, stored: seq<Attestation>, table: Table, cfg: Config,
                          h: Hash) {
    && attesters <= Active(table)
    && score == Sum(attesters, Stake(table))
    && StoredOk(stored, attesters, h, cfg)
  }

  ghost predicate BlockOk(t: Tracked, table: Table, cfg: Config, h: Hash) {
    && h in t.attestationsByBlock && h in t.validatorAttestations && h in t.blockScores
    && EntryOk(t.blockScores[h], t.validatorAttestations[h], t.attestationsByBlock[h], table, cfg, h)
  }

  ghost predicate Books(t: Tracked, table: Table, cfg: Config) {
    && t.blockScores.Keys == t.attestationsByBlock.Keys
    && t.blockScores.Keys == t.validatorAttestations.Keys
    && t.blockScores.Keys == t.blockEpochMap.Keys
    && forall h | h in t.blockScores :: BlockOk(t, table, cfg, h)
  }

  /** Books does not look at the per-epoch maps. */
  lemma BooksIgnoreEpochMaps(t: Tracked, u: Tracked, table: Table, cfg: Config)
    requires Books(t, table, cfg)
    requires u == t.(epochAttestations := u.epochAttestations, epochBlockOrder := u.epochBlockOrder)
    ensures Books(u, table, cfg)
  {
    forall h | h in u.blockScores ensures BlockOk(u, table, cfg, h) {
      assert BlockOk(t, table, cfg, h);
    }
  }

  lemma BooksAfterRemoval(t: Tracked, table: Table, cfg: Config, h: Hash)
    requires Books(t, table, cfg)
    ensures Books(RemoveTracked(t, h), table, cfg)
  {
    var u := RemoveTracked(t, h);
    forall x | x in u.blockScores ensures BlockOk(u, table, cfg, x) {
      assert BlockOk(t, table, cfg, x);
    }
  }

  lemma {:induction false} BooksAfterRemovals(t: Tracked, table: Table, cfg: Config, hs: seq<Hash>)
    requires Books(t, table, cfg)
    ensures Books(RemoveAll(t, hs), table, cfg)
    decreases |hs|
  {
    if hs != [] {
      BooksAfterRemovals(t, table, cfg, hs[..|hs| - 1]);
      BooksAfterRemoval(RemoveAll(t, hs[..|hs| - 1]), table, cfg, hs[|hs| - 1]);
    }
  }

  lemma {:induction false} BooksAfterPruning(t: Tracked, table: Table, cfg: Config, epoch: nat, limit: nat,
                                             backing: seq<Hash>, start: nat)
    requires start <= |backing| && |View(t, epoch)| <= |backing|
    requires Books(t, table, cfg)
    ensures Books(PruneFrom(t, epoch, limit, backing, start), table, cfg)
    decreases |backing| - start
  {
    if |backing| - start > limit {
      var oldest := backing[start];
      ViewShrinks(t, epoch, oldest);
      BooksAfterRemoval(t, table, cfg, oldest);
      BooksAfterPruning(RemoveTracked(t, oldest), table, cfg, epoch, limit,
                        BackingAfterRemoval(t, epoch, backing, oldest), start + 1);
    } else {
      BooksIgnoreEpochMaps(t, PruneFrom(t, epoch, limit, backing, start), table, cfg);
    }
  }

  lemma StoredAfterNewAttester(stored: seq<Attestation>, attesters: set<Addr>, cfg: Config, att: Attestation)
    requires StoredOk(stored, attesters, att.blockHash, cfg) && att.validator !in attesters
    ensures StoredOk(if |stored| < cfg.maxAttestationsPerBlock then stored + [att] else stored,
                     attesters + {att.validator}, att.blockHash, cfg)
  {
    assert |attesters + {att.validator}| == |attesters| + 1;
  }

  /** The new score is the stake of the block's attesters, the new one included, and at most all stake. */
  lemma ScoreAfterNewAttester(t: Tracked, table: Table, cfg: Config, att: Attestation)
    requires Books(t, table, cfg)
    requires att.validator in Active(table) && att.validator !in AttestersOf(t, att.blockHash)
    ensures ScoreOf(t, att.blockHash) + table[att.validator].stake ==
            Sum(AttestersOf(t, att.blockHash) + {att.validator}, Stake(table))
    ensures ScoreOf(t, att.blockHash) + table[att.validator].stake <= TotalStake(table)
    ensures AttestersOf(t, att.blockHash) + {att.validator} <= Active(table)
  {
    if att.blockHash in t.blockScores { assert BlockOk(t, table, cfg, att.blockHash); }
    SumAdd(AttestersOf(t, att.blockHash), Stake(table), att.validator);
    SumSubset(AttestersOf(t, att.blockHash) + {att.validator}, Active(table), Stake(table));
  }

  lemma EntryAfterNewAttester(t: Tracked, table: Table, cfg: Config, att: Attestation)
    requires Books(t, table, cfg)
    requires att.validator in Active(table) && att.validator !in AttestersOf(t, att.blockHash)
    ensures var stored := StoredFor(t, att.blockHash);
            EntryOk(ScoreOf(t, att.blockHash) + table[att.validator].stake,
                    AttestersOf(t, att.blockHash) + {att.validator},
                    if |stored| < cfg.maxAttestationsPerBlock then stored + [att] else stored,
                    table, cfg, att.blockHash)
  {
    if att.blockHash in t.blockScores { assert BlockOk(t, table, cfg, att.blockHash); }
    ScoreAfterNewAttester(t, table, cfg, att);
    StoredAfterNewAttester(StoredFor(t, att.blockHash), AttestersOf(t, att.blockHash), cfg, att);
  }

  /** Both keep the same entries for x. */
  ghost predicate SameAt(t: Tracked, u: Tracked, x: Hash) {
    && x in t.blockScores && x in t.validatorAttestations && x in t.attestationsByBlock
    && x in u.blockScores && x in u.validatorAttestations && x in u.attestationsByBlock
    && u.blockScores[x] == t.blockScores[x] && u.validatorAttestations[x] == t.validatorAttestations[x]
    && u.attestationsByBlock[x] == t.attestationsByBlock[x]
  }

  lemma SameEntry(t: Tracked, u: Tracked, table: Table, cfg: Config, x: Hash)
    requires BlockOk(t, table, cfg, x) && SameAt(t, u, x)
    ensures BlockOk(u, table, cfg, x)
  {
  }

  lemma OneEntryChanged(t: Tracked, u: Tracked, table: Table, cfg: Config, h: Hash)
    requires Books(t, table, cfg) && BlockOk(u, table, cfg, h)
    requires u.blockScores.Keys == u.attestationsByBlock.Keys && u.blockScores.Keys == u.validatorAttestations.Keys
    requires u.blockScores.Keys == u.blockEpochMap.Keys
    requires forall x | x in u.blockScores && x != h :: SameAt(t, u, x)
    ensures Books(u, table, cfg)
  {
    forall x | x in u.blockScores ensures BlockOk(u, table, cfg, x) {
      if x != h { SameEntry(t, u, table, cfg, x); }
    }
  }

  lemma NewEntryOk(t: Tracked, table: Table, cfg: Config, att: Attestation)
    requires Books(t, table, cfg)
    requires att.validator in Active(table) && att.validator !in AttestersOf(t, att.blockHash)
    ensures BlockOk(RecordAttester(t, cfg, att, table[att.validator].stake), table, cfg, att.blockHash)
  {
    EntryAfterNewAttester(t, table, cfg, att);
  }

  lemma OthersUntouched(t: Tracked, cfg: Config, att: Attestation, stake: nat)
    requires t.blockScores.Keys == t.attestationsByBlock.Keys && t.blockScores.Keys == t.validatorAttestations.Keys
    requires t.blockScores.Keys == t.blockEpochMap.Keys
    ensures var u := RecordAttester(t, cfg, att, stake);
            && u.blockScores.Keys == u.attestationsByBlock.Keys && u.blockScores.Keys == u.validatorAttestations.Keys
            && u.blockScores.Keys == u.blockEpochMap.Keys
            && forall x | x in u.blockScores && x != att.blockHash :: SameAt(t, u, x)
  {
  }

  lemma BooksAfterNewAttester(t: Tracked, table: Table, cfg: Config, att: Attestation)
    requires Books(t, table, cfg)
    requires att.validator in Active(table) && att.validator !in AttestersOf(t, att.blockHash)
    ensures Books(RecordAttester(t, cfg, att, table[att.validator].stake), table, cfg)
  {
    NewEntryOk(t, table, cfg, att);
    OthersUntouched(t, cfg, att, table[att.validator].stake);
    OneEntryChanged(t, RecordAttester(t, cfg, att, table[att.validator].stake), table, cfg, att.blockHash);
  }

  lemma BooksAfterCounting(t: Tracked, table: Table, cfg: Config, att: Attestation)
    requires Books(t, table, cfg)
    requires att.validator in Active(table) && att.validator !in AttestersOf(t, att.blockHash)
    ensures Books(Counted(t, cfg, att, table[att.validator].stake), table, cfg)
  {
    BooksAfterNewAttester(t, table, cfg, att);
    if att.blockHash !in t.blockScores {
      var t1 := RecordAttester(t, cfg, att, table[att.validator].stake);
      var t2 := t1.(epochBlockOrder := t1.epochBlockOrder[att.epoch := View(t1, att.epoch) + [att.blockHash]]);
      BooksIgnoreEpochMaps(t1, t2, table, cfg);
      if cfg.maxBlocksPerEpoch > 0 {
        BooksAfterPruning(t2, table, cfg, att.epoch, cfg.maxBlocksPerEpoch, View(t2, att.epoch), 0);
      }
    }
  }

  lemma BooksAfterCleanup(t: Tracked, table: Table, cfg: Config, cutoff: nat, removals: seq<Hash>)
    requires Books(t, table, cfg)
    ensures Books(CleanupTracked(t, cutoff, removals), table, cfg)
  {
    BooksIgnoreEpochMaps(t, DropOldEpochs(t, cutoff), table, cfg);
    BooksAfterRemovals(DropOldEpochs(t, cutoff), table, cfg, removals);
  }

  lemma BooksAfterRecording(s: State, table: Table, cfg: Config, att: Attestation, removals: seq<Hash>)
    requires Books(s.tracked, table, cfg)
    requires att.validator in Active(table) && att.validator !in AttestersOf(s.tracked, att.blockHash)
    ensures Books(Recorded(s, cfg, att, table[att.validator].stake, removals).tracked, table, cfg)
  {
    var stake := table[att.validator].stake;
    BooksAfterCounting(s.tracked, table, cfg, att);
    var counted := Counted(s.tracked, cfg, att, stake);
    var s1 := State(AddToTally(counted, att.epoch, att.blockHash, stake), RecordMessage(s.messages, att), s.finality);
    BooksIgnoreEpochMaps(counted, s1.tracked, table, cfg);
    BooksAfterCleanup(s1.tracked, table, cfg, CutoffOf(s1, cfg), removals);
  }

  lemma BooksAfterAttest(s: State, table: Table, cfg: Config, att: Attestation, admitted: bool, now: int,
                         choice: Choice)
    requires Books(s.tracked, table, cfg)
    ensures Books(Attest(s, table, cfg, att, admitted, now, choice).tracked, table, cfg)
  {
    if Counts(s, table, att, admitted) {
      BooksAfterRecording(s, table, cfg, att, choice.removals);
    }
  }

  // ---- Votes: one message per validator and epoch, from active validators only ----

  ghost predicate VotersActive(m: Messages, table: Table) {
    forall e, v | e in m && v in m[e] :: v in Active(table)
  }

  /** No vote of m is changed in n, as long as n still has its epoch. */
  ghost predicate VotesKept(m: Messages, n: Messages) {
    forall e, v | e in m && v in m[e] && e in n :: v in n[e] && n[e][v] == m[e][v]
  }

  /** n is m with some whole epochs dropped. */
  ghost predicate EpochsDropped(m: Messages, n: Messages) {
    forall e | e in n :: e in m && n[e] == m[e]
  }

  lemma RecordingMessages(s: State, cfg: Config, att: Attestation, stake: nat, removals: seq<Hash>)
    ensures EpochsDropped(RecordMessage(s.messages, att), Recorded(s, cfg, att, stake, removals).messages)
  {
  }

  lemma RecordedMessagesAreKept(m: Messages, n: Messages, table: Table, att: Attestation)
    requires !Equivocates(m, att) && att.validator in Active(table)
    requires EpochsDropped(RecordMessage(m, att), n)
    ensures VotesKept(m, n)
    ensures VotersActive(m, table) ==> VotersActive(n, table)
  {
  }

  /** A recorded vote is never changed: a later, different vote in the same epoch is refused. */
  lemma VoteNeverChanges(s: State, table: Table, cfg: Config, att: Attestation, admitted: bool, now: int,
                         choice: Choice)
    ensures var m := Attest(s, table, cfg, att, admitted, now, choice).messages;
            VotesKept(s.messages, m) && (VotersActive(s.messages, table) ==> VotersActive(m, table))
  {
    if admitted && att.validator in Active(table) && !Equivocates(s.messages, att) {
      RecordingMessages(s, cfg, att, table[att.validator].stake, choice.removals);
      RecordedMessagesAreKept(s.messages, Attest(s, table, cfg, att, admitted, now, choice).messages, table, att);
    }
  }

  ghost function VotersFor(m: Messages, epoch: nat, h: Hash): set<Addr> {
    var votes := VotesOf(m, epoch);
    set v | v in votes && votes[v] == h
  }

  ghost function VoteStake(m: Messages, table: Table, epoch: nat, h: Hash): nat {
    Sum(VotersFor(m, epoch, h), Stake(table))
  }

  /** At most one block per epoch can hold a quorum of that epoch's recorded votes. */
  lemma OneQuorumPerEpoch(m: Messages, table: Table, epoch: nat, h1: Hash, h2: Hash)
    requires VotersActive(m, table)
    requires VoteStake(m, table, epoch, h1) >= Threshold(TotalStake(table))
    requires VoteStake(m, table, epoch, h2) >= Threshold(TotalStake(table))
    ensures h1 == h2
  {
    if h1 != h2 {
      var v1, v2 := VotersFor(m, epoch, h1), VotersFor(m, epoch, h2);
      assert v1 !! v2;
      SumUnion(v1, v2, Stake(table));
      SumSubset(v1 + v2, Active(table), Stake(table));
    }
  }

  /**
   * Any two blocks that pass the quorum check share attesters holding more than a third of all
   * stake, in whatever epochs those attestations were made.
   */
  lemma QuorumsOverlap(t: Tracked, table: Table, cfg: Config, h1: Hash, h2: Hash)
    requires Books(t, table, cfg)
    requires h1 in t.blockScores && h2 in t.blockScores
    requires t.blockScores[h1] >= Threshold(TotalStake(table))
    requires t.blockScores[h2] >= Threshold(TotalStake(table))
    ensures 3 * Sum(t.validatorAttestations[h1] * t.validatorAttestations[h2], Stake(table)) > TotalStake(table)
  {
    assert BlockOk(t, table, cfg, h1) && BlockOk(t, table, cfg, h2);
    var a1, a2 := t.validatorAttestations[h1], t.validatorAttestations[h2];
    SumOverlap(a1, a2, Stake(table));
    SumSubset(a1 + a2, Active(table), Stake(table));
  }

  // ---- Checkpoints ----

  /** More than two thirds of the stake, and no more than there is. */
  ghost predicate CheckpointOk(c: Checkpoint, total: nat) {
    && c.totalStake == total
    && 3 * c.attestingStake > 2 * c.totalStake
    && c.attestingStake <= c.totalStake
  }

  ghost predicate Justification(f: Finality, total: nat) {
    && (f.cachedTotal == 0 || f.cachedTotal == total)
    && (f.justified.Some? ==> CheckpointOk(f.justified.value, total))
  }

  /** ValidateCheckpoint: the integrity check a checkpoint has to pass. */
  predicate ValidateCheckpoint(c: Option<Checkpoint>) {
    && c.Some?
    && c.value.epoch != 0
    && c.value.blockHash != ""
    && c.value.totalStake > 0
    && c.value.attestingStake <= c.value.totalStake
  }

  /** The score check lets exactly the stakes above two thirds through, and what it justifies adds up. */
  lemma QuorumKeepsJustification(f: Finality, tallies: map<nat, map<Hash, nat>>, total: nat, cfg: Config,
                                 epoch: nat, h: Hash, score: nat, now: int, best: Hash)
    requires Justification(f, total) && score <= total
    ensures Justification(CheckQuorum(f, tallies, total, cfg, epoch, h, score, now, best), total)
  {
  }

  lemma FinalityAfterKeepsJustification(s: State, table: Table, cfg: Config, att: Attestation, now: int,
                                        tallies: map<nat, map<Hash, nat>>, best: Hash)
    requires att.validator in table && Justification(s.finality, TotalStake(table))
    requires ScoreOf(s.tracked, att.blockHash) + table[att.validator].stake <= TotalStake(table)
    ensures Justification(FinalityAfter(s, table, cfg, att, now, tallies, best), TotalStake(table))
  {
    QuorumKeepsJustification(s.finality, tallies, TotalStake(table), cfg, att.epoch, att.blockHash,
                             ScoreOf(s.tracked, att.blockHash) + table[att.validator].stake, now, best);
  }

  lemma AttestKeepsJustification(s: State, table: Table, cfg: Config, att: Attestation, admitted: bool, now: int,
                                 choice: Choice)
    requires Books(s.tracked, table, cfg) && Justification(s.finality, TotalStake(table))
    ensures Justification(Attest(s, table, cfg, att, admitted, now, choice).finality, TotalStake(table))
  {
    if Counts(s, table, att, admitted) {
      ScoreAfterNewAttester(s.tracked, table, cfg, att);
      var tallies := Recorded(s, cfg, att, table[att.validator].stake, choice.removals).tracked.epochAttestations;
      FinalityAfterKeepsJustification(s, table, cfg, att, now, tallies, choice.best);
    }
  }

  // ---- Finality ----

  ghost predicate NotBefore(later: Option<Checkpoint>, earlier: Option<Checkpoint>) {
    earlier.Some? ==> later.Some? && later.value.epoch >= earlier.value.epoch
  }

  lemma QuorumNeverGoesBack(f: Finality, tallies: map<nat, map<Hash, nat>>, activeStake: nat, cfg: Config,
                            epoch: nat, h: Hash, score: nat, now: int, best: Hash)
    ensures NotBefore(CheckQuorum(f, tallies, activeStake, cfg, epoch, h, score, now, best).finalized, f.finalized)
  {
  }

  lemma FinalityAfterNeverGoesBack(s: State, table: Table, cfg: Config, att: Attestation, now: int,
                                   tallies: map<nat, map<Hash, nat>>, best: Hash, f: Finality)
    requires att.validator in table && f == FinalityAfter(s, table, cfg, att, now, tallies, best)
    ensures NotBefore(f.finalized, s.finality.finalized)
  {
    QuorumNeverGoesBack(s.finality, tallies, TotalStake(table), cfg, att.epoch, att.blockHash,
                        ScoreOf(s.tracked, att.blockHash) + table[att.validator].stake, now, best);
  }

  lemma FinalizedEpochNeverDecreases(s: State, table: Table, cfg: Config, att: Attestation, admitted: bool, now: int,
                                     choice: Choice)
    ensures NotBefore(Attest(s, table, cfg, att, admitted, now, choice).finality.finalized, s.finality.finalized)
  {
    if Counts(s, table, att, admitted) {
      var s1 := Recorded(s, cfg, att, table[att.validator].stake, choice.removals);
      var tallies := s1.tracked.epochAttestations;
      var f := FinalityAfter(s, table, cfg, att, now, tallies, choice.best);
      AttestInTwoParts(s, table, cfg, att, now, choice, s1, f);
      FinalityAfterNeverGoesBack(s, table, cfg, att, now, tallies, choice.best, f);
    }
  }

  /** h has a larger tally than any other block: no order of iteration picks another. */
  ghost predicate IsOnlyBest(tally: map<Hash, nat>, h: Hash) {
    h in tally && forall x | x in tally && x != h :: tally[x] < tally[h]
  }

  /** The checkpoint is of this epoch and more than two thirds of the stake voted for its block in it. */
  ghost predicate HasQuorumOf(c: Option<Checkpoint>, m: Messages, table: Table, epoch: nat) {
    && c.Some? && c.value.epoch == epoch
    && VoteStake(m, table, epoch, c.value.blockHash) >= Threshold(TotalStake(table))
  }

  /** Some block of a tally that is not empty has the largest count. */
  lemma SomeBest(tally: map<Hash, nat>) returns (best: Hash)
    requires tally != map[]
    ensures IsBest(tally, best)
  {
    best :| best in tally;
    var todo := tally.Keys - {best};
    while todo != {}
      invariant best in tally && forall x | x in tally && x !in todo :: tally[x] <= tally[best]
    {
      var x :| x in todo;
      if tally[x] > tally[best] { best := x; }
      todo := todo - {x};
    }
  }

  /**
   * checkFinalization does not ask for a quorum in the epoch it finalizes. Whatever order Go iterates
   * in, what it finalizes has two thirds of that epoch's votes behind it if and only if a block with
   * that many votes has the largest tally alone.
   */
  lemma FinalizedHasQuorumIff(f: Finality, tallies: map<nat, map<Hash, nat>>, m: Messages, table: Table, cfg: Config,
                              now: int, epoch: nat)
    requires VotersActive(m, table) && EpochToFinalize(f, tallies) == Some(epoch)
    ensures (forall best | IsBest(tallies[epoch], best) ::
               HasQuorumOf(Finalize(f, tallies, TotalStake(table), cfg, now, best).finalized, m, table, epoch))
            <==> exists h :: h != "" && IsOnlyBest(tallies[epoch], h)
                             && VoteStake(m, table, epoch, h) >= Threshold(TotalStake(table))
  {
    var tally := tallies[epoch];
    forall best | IsBest(tally, best)
      ensures HasQuorumOf(Finalize(f, tallies, TotalStake(table), cfg, now, best).finalized, m, table, epoch)
              <==> best != "" && VoteStake(m, table, epoch, best) >= Threshold(TotalStake(table))
    {
    }
    if forall best | IsBest(tally, best) ::
         HasQuorumOf(Finalize(f, tallies, TotalStake(table), cfg, now, best).finalized, m, table, epoch)
    {
      var h := SomeBest(tally);
      forall x | x in tally && x != h ensures tally[x] < tally[h] {
        if tally[x] == tally[h] {
          assert IsBest(tally, x);
          OneQuorumPerEpoch(m, table, epoch, h, x);
        }
      }
      assert IsOnlyBest(tally, h);
    }
  }

  // ---- The retention window ----

  /** All tracked epochs lie within the safety retention of each other. */
  ghost predicate Window(t: Tracked) {
    forall e, f | e in t.epochAttestations && f in t.epochAttestations :: f <= e + MAX_SAFETY_RETENTION
  }

  lemma {:induction false} RemovalsShrinkTally(t: Tracked, hs: seq<Hash>)
    ensures RemoveAll(t, hs).epochAttestations.Keys <= t.epochAttestations.Keys
    decreases |hs|
  {
    if hs != [] { RemovalsShrinkTally(t, hs[..|hs| - 1]); }
  }

  lemma {:induction false} PruningShrinksTally(t: Tracked, epoch: nat, limit: nat, backing: seq<Hash>, start: nat)
    requires start <= |backing| && |View(t, epoch)| <= |backing|
    ensures PruneFrom(t, epoch, limit, backing, start).epochAttestations.Keys <= t.epochAttestations.Keys
    decreases |backing| - start
  {
    if |backing| - start > limit {
      var oldest := backing[start];
      ViewShrinks(t, epoch, oldest);
      PruningShrinksTally(RemoveTracked(t, oldest), epoch, limit, BackingAfterRemoval(t, epoch, backing, oldest),
                          start + 1);
    }
  }

  lemma CountingShrinksTally(t: Tracked, cfg: Config, att: Attestation, stake: nat)
    ensures Counted(t, cfg, att, stake).epochAttestations.Keys <= t.epochAttestations.Keys
  {
    if att.blockHash !in t.blockScores && cfg.maxBlocksPerEpoch > 0 {
      var t1 := RecordAttester(t, cfg, att, stake);
      var t2 := t1.(epochBlockOrder := t1.epochBlockOrder[att.epoch := View(t1, att.epoch) + [att.blockHash]]);
      PruningShrinksTally(t2, att.epoch, cfg.maxBlocksPerEpoch, View(t2, att.epoch), 0);
    }
  }

  /** One cleanup restores the window whatever was tracked before it. */
  lemma CleanupEstablishesWindow(s: State, cfg: Config, removals: seq<Hash>)
    ensures Window(Cleanup(s, cfg, removals).tracked)
  {
    var t := DropOldEpochs(s.tracked, CutoffOf(s, cfg));
    RemovalsShrinkTally(t, removals);
    assert forall e | e in t.epochAttestations :: e <= CurrentEpoch(s.tracked) <= e + MAX_SAFETY_RETENTION;
  }

  lemma AttestKeepsWindow(s: State, table: Table, cfg: Config, att: Attestation, admitted: bool, now: int,
                          choice: Choice)
    requires Window(s.tracked)
    ensures Window(Attest(s, table, cfg, att, admitted, now, choice).tracked)
  {
    if Counts(s, table, att, admitted) {
      var stake := table[att.validator].stake;
      CountingShrinksTally(s.tracked, cfg, att, stake);
      var counted := Counted(s.tracked, cfg, att, stake);
      var s1 := State(AddToTally(counted, att.epoch, att.blockHash, stake), RecordMessage(s.messages, att), s.finality);
      if att.epoch in counted.epochAttestations {
        assert s1.tracked.epochAttestations.Keys == counted.epochAttestations.Keys;
      } else {
        CleanupEstablishesWindow(s1, cfg, choice.removals);
      }
    }
  }

  lemma {:induction false} IntervalSize(keys: set<nat>, lo: nat, n: nat)
    requires forall k | k in keys :: lo <= k < lo + n
    ensures |keys| <= n
    decreases n
  {
    if n == 0 {
      assert keys == {};
    } else {
      var rest := keys - {lo + n - 1};
      IntervalSize(rest, lo, n - 1);
    }
  }

  /** At most 51 epochs are tracked, even if finality stalls forever. */
  lemma FewEpochsTracked(t: Tracked)
    requires Window(t)
    ensures |t.epochAttestations| <= MAX_SAFETY_RETENTION + 1
  {
    var lo := MinusOrZero(CurrentEpoch(t), MAX_SAFETY_RETENTION);
    IntervalSize(t.epochAttestations.Keys, lo, MAX_SAFETY_RETENTION + 1);
  }

  // ---- Runs ----

  datatype Event =
    | Attested(att: Attestation, admitted: bool, now: int, choice: Choice)
    | CleanedUp(removals: seq<Hash>)
    | AutoFinalized(currentEpoch: nat, finalizationEpochs: int)

  ghost function Apply(s: State, table: Table, cfg: Config, e: Event): State {
    match e
    case Attested(att, admitted, now, choice) => Attest(s, table, cfg, att, admitted, now, choice)
    case CleanedUp(removals) => Cleanup(s, cfg, removals)
    case AutoFinalized(epoch, wait) => s.(finality := AutoFinalize(s.finality, epoch, wait))
  }

  /** The event's choices are ones that Go's map iteration can make in this state. */
  ghost predicate CanHappen(s: State, table: Table, cfg: Config, e: Event) {
    match e
    case Attested(att, admitted, now, choice) => Allowed(s, table, cfg, att, admitted, now, choice)
    case CleanedUp(removals) => ListsStale(s.tracked, CutoffOf(s, cfg), removals)
    case AutoFinalized(_, _) => true
  }

  ghost predicate PossibleRun(table: Table, cfg: Config, events: seq<Event>) {
    events == [] ||
    var rest := events[..|events| - 1];
    PossibleRun(table, cfg, rest) && CanHappen(Run(table, cfg, rest), table, cfg, events[|events| - 1])
  }

  lemma PossibleRunGrows(table: Table, cfg: Config, events: seq<Event>, e: Event)
    requires PossibleRun(table, cfg, events) && CanHappen(Run(table, cfg, events), table, cfg, e)
    ensures PossibleRun(table, cfg, events + [e])
    ensures Run(table, cfg, events + [e]) == Apply(Run(table, cfg, events), table, cfg, e)
  {
    var longer := events + [e];
    assert longer[..|events|] == events;
  }

  /** UpdateFinalization is about to finalize a justified checkpoint older than the finalized one. */
  predicate GoesBack(s: State, e: Event) {
    && e.AutoFinalized? && s.finality.justified.Some? && s.finality.finalized.Some?
    && s.finality.justified.value.epoch < s.finality.finalized.value.epoch
    && SubU64(e.currentEpoch % TWO_64, s.finality.justified.value.epoch % TWO_64) >= Wait(e.finalizationEpochs)
  }

  /** The state of a new node after these events. */
  ghost function Run(table: Table, cfg: Config, events: seq<Event>): State {
    if events == [] then EMPTY else Apply(Run(table, cfg, events[..|events| - 1]), table, cfg, events[|events| - 1])
  }

  ghost predicate Inv(s: State, table: Table, cfg: Config) {
    && Books(s.tracked, table, cfg)
    && VotersActive(s.messages, table)
    && Justification(s.finality, TotalStake(table))
    && Window(s.tracked)
  }

  lemma ApplyKeepsInv(s: State, table: Table, cfg: Config, e: Event)
    requires Inv(s, table, cfg)
    ensures Inv(Apply(s, table, cfg, e), table, cfg)
    ensures NotBefore(Apply(s, table, cfg, e).finality.finalized, s.finality.finalized) <==> !GoesBack(s, e)
    ensures VotesKept(s.messages, Apply(s, table, cfg, e).messages)
  {
    match e
    case Attested(att, admitted, now, choice) =>
      BooksAfterAttest(s, table, cfg, att, admitted, now, choice);
      VoteNeverChanges(s, table, cfg, att, admitted, now, choice);
      AttestKeepsJustification(s, table, cfg, att, admitted, now, choice);
      AttestKeepsWindow(s, table, cfg, att, admitted, now, choice);
      FinalizedEpochNeverDecreases(s, table, cfg, att, admitted, now, choice);
    case CleanedUp(removals) =>
      BooksAfterCleanup(s.tracked, table, cfg, CutoffOf(s, cfg), removals);
      CleanupEstablishesWindow(s, cfg, removals);
    case AutoFinalized(_, _) =>
  }

  /** Every state a node can reach, under a fixed validator table, satisfies the invariant. */
  lemma {:induction false} RunKeepsInv(table: Table, cfg: Config, events: seq<Event>)
    ensures Inv(Run(table, cfg, events), table, cfg)
    ensures |Run(table, cfg, events).tracked.epochAttestations| <= 51
    decreases |events|
  {
    if events != [] {
      RunKeepsInv(table, cfg, events[..|events| - 1]);
      ApplyKeepsInv(Run(table, cfg, events[..|events| - 1]), table, cfg, events[|events| - 1]);
    }
    FewEpochsTracked(Run(table, cfg, events).tracked);
  }

  /** Every justified checkpoint of a run validates unless its epoch or its hash is the zero value. */
  lemma JustifiedCheckpointValidates(table: Table, cfg: Config, events: seq<Event>)
    ensures var c := Run(table, cfg, events).finality.justified;
            c.Some? ==> (ValidateCheckpoint(c) <==> c.value.epoch != 0 && c.value.blockHash != "")
                        && 3 * c.value.attestingStake > 2 * c.value.totalStake
  {
    RunKeepsInv(table, cfg, events);
  }

  /** The finalized epoch never decreases along a run, except where UpdateFinalization goes back. */
  lemma {:induction false} FinalityIsMonotone(table: Table, cfg: Config, events: seq<Event>, i: nat)
    requires i <= |events|
    requires forall j | i <= j < |events| :: !GoesBack(Run(table, cfg, events[..j]), events[j])
    ensures NotBefore(Run(table, cfg, events).finality.finalized, Run(table, cfg, events[..i]).finality.finalized)
    decreases |events|
  {
    if i == |events| {
      assert events[..i] == events;
    } else {
      var rest := events[..|events| - 1];
      forall j | i <= j < |rest| ensures !GoesBack(Run(table, cfg, rest[..j]), rest[j]) {
        assert rest[..j] == events[..j] && rest[j] == events[j];
      }
      assert rest[..i] == events[..i];
      FinalityIsMonotone(table, cfg, rest, i);
      assert !GoesBack(Run(table, cfg, events[..|rest|]), events[|rest|]);
      RunKeepsInv(table, cfg, rest);
      ApplyKeepsInv(Run(table, cfg, rest), table, cfg, events[|events| - 1]);
    }
  }

  /** While an epoch stays retained, the votes recorded in it stay what they were. */
  lemma {:induction false} VotesAreFrozen(table: Table, cfg: Config, events: seq<Event>, i: nat, epoch: nat, v: Addr)
    requires i <= |events|
    requires forall j | i <= j <= |events| :: epoch in Run(table, cfg, events[..j]).messages
    requires v in Run(table, cfg, events[..i]).messages[epoch]
    ensures epoch in Run(table, cfg, events).messages && v in Run(table, cfg, events).messages[epoch]
    ensures Run(table, cfg, events).messages[epoch][v] == Run(table, cfg, events[..i]).messages[epoch][v]
    decreases |events|
  {
    assert events[..|events|] == events;
    if i < |events| {
      var rest := events[..|events| - 1];
      forall j | i <= j <= |rest| ensures epoch in Run(table, cfg, rest[..j]).messages {
        assert rest[..j] == events[..j];
      }
      assert rest[..i] == events[..i];
      VotesAreFrozen(table, cfg, rest, i, epoch, v);
      RunKeepsInv(table, cfg, rest);
      ApplyKeepsInv(Run(table, cfg, rest), table, cfg, events[|events| - 1]);
    }
  }
}
