/** The fork choice object: its maps, and the methods that update them in place. */
module ForkChoiceEngine {
  import opened Base
  import opened StakeSums
  import opened HashOrder
  import opened BlockTree
  import opened ChainTraversal
  import opened Decay
  import opened ForkChoiceSpec
  import opened ForkTree

  class ForkChoice {
    const cfg: Config

    var blockScores: map<Hash, nat>
    var attestationsByBlock: map<Hash, seq<Attestation>>
    var validatorAttestations: map<Hash, set<Addr>>
    var epochAttestations: map<nat, map<Hash, nat>>
    var blockEpochMap: map<Hash, nat>
    var epochBlockOrder: map<nat, seq<Hash>>
    var latestMessages: map<nat, map<Addr, Hash>>
    var children: map<Hash, seq<Hash>>
    var justifiedCheckpoint: Option<Checkpoint>
    var finalizedCheckpoint: Option<Checkpoint>
    var totalActiveStake: nat
    var totalActiveStakeTime: int

    ghost function TrackedNow(): Tracked
      reads this
    {
      Tracked(blockScores, attestationsByBlock, validatorAttestations, blockEpochMap, epochAttestations,
              epochBlockOrder)
    }

    ghost function FinalityNow(): Finality
      reads this
    {
      Finality(justifiedCheckpoint, finalizedCheckpoint, totalActiveStake, totalActiveStakeTime)
    }

    ghost function Now(): State
      reads this
    {
      State(TrackedNow(), latestMessages, FinalityNow())
    }

    constructor (config: Config)
      ensures cfg == config && Now() == EMPTY && children == map[]
    {
      cfg := config;
      blockScores, attestationsByBlock, validatorAttestations := map[], map[], map[];
      epochAttestations, blockEpochMap, epochBlockOrder := map[], map[], map[];
      latestMessages, children := map[], map[];
      justifiedCheckpoint, finalizedCheckpoint := None, None;
      totalActiveStake, totalActiveStakeTime := 0, 0;
    }

    /** The cached total if it is recent and not zero, otherwise the sum over the active validators. */
    method GetTotalActiveStake(table: Table, now: int) returns (total: nat)
      modifies `totalActiveStake, `totalActiveStakeTime
      ensures total == TotalWithCache(old(FinalityNow()), TotalStake(table), cfg, now)
      ensures FinalityNow() == RefreshTotal(old(FinalityNow()), TotalStake(table), cfg, now)
    {
      if now - totalActiveStakeTime < cfg.stakeCacheTTL && totalActiveStake != 0 {
        return totalActiveStake;
      }
      total := 0;
      var todo := table.Keys;
      ghost var done: set<Addr> := {};
      while todo != {}
        invariant done + todo == table.Keys && done !! todo
        invariant total == Sum(done * Active(table), Stake(table))
      {
        var a :| a in todo;
        if table[a].active {
          SumAdd(done * Active(table), Stake(table), a);
          assert (done + {a}) * Active(table) == done * Active(table) + {a};
          total := total + table[a].stake;
        } else {
          assert (done + {a}) * Active(table) == done * Active(table);
        }
        todo, done := todo - {a}, done + {a};
      }
      assert done * Active(table) == Active(table);
      totalActiveStake, totalActiveStakeTime := total, now;
    }

    method RemoveTrackedBlock(h: Hash)
      modifies `blockScores, `attestationsByBlock, `validatorAttestations, `blockEpochMap, `epochAttestations,
               `epochBlockOrder
      ensures TrackedNow() == RemoveTracked(old(TrackedNow()), h)
    {
      if h in blockEpochMap {
        var epoch := blockEpochMap[h];
        if epoch in epochBlockOrder && epochBlockOrder[epoch] != [] {
          var filtered := FilterOut(epochBlockOrder[epoch], h);
          if filtered == [] {
            epochBlockOrder := epochBlockOrder - {epoch};
          } else {
            epochBlockOrder := epochBlockOrder[epoch := filtered];
          }
        }
        if epoch in epochAttestations {
          var blocks := epochAttestations[epoch] - {h};
          if blocks == map[] {
            epochAttestations := epochAttestations - {epoch};
          } else {
            epochAttestations := epochAttestations[epoch := blocks];
          }
        }
      }
      blockScores := blockScores - {h};
      attestationsByBlock := attestationsByBlock - {h};
      validatorAttestations := validatorAttestations - {h};
      blockEpochMap := blockEpochMap - {h};
    }

    static method FilterOut(order: seq<Hash>, h: Hash) returns (filtered: seq<Hash>)
      ensures filtered == Without(order, h)
    {
      filtered := [];
      for i := 0 to |order|
        invariant filtered + Without(order[i..], h) == Without(order, h)
      {
        if order[i] != h {
          filtered := filtered + [order[i]];
        }
      }
    }

    /** `order` is backing[start..]; the removal writes through to the array both slices share. */
    method PruneEpochBlocks(epoch: nat)
      modifies `blockScores, `attestationsByBlock, `validatorAttestations, `blockEpochMap, `epochAttestations,
               `epochBlockOrder
      ensures TrackedNow() == Prune(old(TrackedNow()), cfg, epoch)
    {
      if cfg.maxBlocksPerEpoch <= 0 {
        return;
      }
      var backing := if epoch in epochBlockOrder then epochBlockOrder[epoch] else [];
      var start := 0;
      while |backing| - start > cfg.maxBlocksPerEpoch
        invariant start <= |backing| && |View(TrackedNow(), epoch)| <= |backing|
        invariant PruneFrom(TrackedNow(), epoch, cfg.maxBlocksPerEpoch, backing, start) ==
                  Prune(old(TrackedNow()), cfg, epoch)
        decreases |backing| - start
      {
        var oldest := backing[start];
        ghost var before := TrackedNow();
        ViewShrinks(before, epoch, oldest);
        var sharesArray := oldest in blockEpochMap && blockEpochMap[oldest] == epoch
                           && epoch in epochBlockOrder && epochBlockOrder[epoch] != [];
        if sharesArray {
          var kept := FilterOut(epochBlockOrder[epoch], oldest);
          WithoutShrinks(epochBlockOrder[epoch], oldest);
          backing := kept + backing[|kept|..];
        }
        RemoveTrackedBlock(oldest);
        start := start + 1;
      }
      if start == |backing| {
        epochBlockOrder := epochBlockOrder - {epoch};
        return;
      }
      epochBlockOrder := epochBlockOrder[epoch := backing[start..]];
    }

    method GetCurrentEpoch() returns (maxEpoch: nat)
      ensures maxEpoch == CurrentEpoch(TrackedNow())
    {
      maxEpoch := 0;
      var todo := epochAttestations.Keys;
      while todo != {}
        invariant todo <= epochAttestations.Keys
        invariant forall e | e in epochAttestations && e !in todo :: e <= maxEpoch
        invariant maxEpoch == 0 || maxEpoch in epochAttestations
      {
        var epoch :| epoch in todo;
        if epoch > maxEpoch {
          maxEpoch := epoch;
        }
        todo := todo - {epoch};
      }
    }

    /** Removes the blocks of epochs below the cutoff in whatever order the map yields them. */
    method RemoveStaleBlocks(cutoff: nat) returns (ghost removals: seq<Hash>)
      modifies `blockScores, `attestationsByBlock, `validatorAttestations, `blockEpochMap, `epochAttestations,
               `epochBlockOrder
      ensures ListsStale(old(TrackedNow()), cutoff, removals)
      ensures TrackedNow() == RemoveAll(old(TrackedNow()), removals)
    {
      removals := [];
      var todo := blockScores.Keys;
      while todo != {}
        invariant todo <= old(blockScores).Keys
        invariant TrackedNow() == RemoveAll(old(TrackedNow()), removals)
        invariant Distinct(removals)
        invariant forall h | h in removals :: IsStale(old(TrackedNow()), cutoff, h) && h !in todo
        invariant forall h | IsStale(old(TrackedNow()), cutoff, h) :: h in removals || h in todo
      {
        var h :| h in todo;
        RemoveAllKeys(old(TrackedNow()), removals);
        todo := todo - {h};
        if h !in blockEpochMap || blockEpochMap[h] < cutoff {
          RemoveTrackedBlock(h);
          ghost var longer := removals + [h];
          assert longer[..|longer| - 1] == removals;
          removals := longer;
        }
      }
    }

    method DropOldTallies(cutoff: nat)
      modifies `epochAttestations, `epochBlockOrder
      ensures TrackedNow() == DropOldEpochs(old(TrackedNow()), cutoff)
    {
      var todo := epochAttestations.Keys;
      ghost var dropped: set<nat> := {};
      while todo != {}
        invariant todo <= old(epochAttestations).Keys
        invariant dropped == set e | e in old(epochAttestations) && e !in todo && e < cutoff
        invariant epochAttestations == old(epochAttestations) - dropped
        invariant epochBlockOrder == old(epochBlockOrder) - dropped
      {
        var e :| e in todo;
        todo := todo - {e};
        if e < cutoff {
          epochAttestations := epochAttestations - {e};
          epochBlockOrder := epochBlockOrder - {e};
          dropped := dropped + {e};
        }
      }
      assert dropped == DroppedEpochs(old(TrackedNow()), cutoff);
      assert epochAttestations == KeepFrom(old(epochAttestations), cutoff);
    }

    method DropOldVotes(cutoff: nat)
      modifies `latestMessages
      ensures latestMessages == DropOldMessages(old(latestMessages), cutoff)
    {
      var todo := latestMessages.Keys;
      while todo != {}
        invariant todo <= old(latestMessages).Keys
        invariant latestMessages == old(latestMessages) - (set e | e in old(latestMessages) && e !in todo && e < cutoff)
      {
        var e :| e in todo;
        todo := todo - {e};
        if e < cutoff {
          latestMessages := latestMessages - {e};
        }
      }
    }

    /** Drops the epochs below the cutoff, then their blocks. */
    method CleanupOldEpochs() returns (ghost removals: seq<Hash>)
      modifies `blockScores, `attestationsByBlock, `validatorAttestations, `blockEpochMap, `epochAttestations,
               `epochBlockOrder, `latestMessages
      ensures ListsStale(old(TrackedNow()), CutoffOf(old(Now()), cfg), removals)
      ensures Now() == Cleanup(old(Now()), cfg, removals)
    {
      var currentEpoch := GetCurrentEpoch();
      var cutoff := Cutoff(finalizedCheckpoint, cfg, currentEpoch);
      ghost var before := Now();
      DropEpochsBelow(cutoff);
      ghost var between := TrackedNow();
      removals := RemoveStaleBlocks(cutoff);
      StaleAfterDrop(before.tracked, between, cutoff, removals);
    }

    /** The tallies below the cutoff, then the votes. */
    method DropEpochsBelow(cutoff: nat)
      modifies `epochAttestations, `epochBlockOrder, `latestMessages
      ensures TrackedNow() == DropOldEpochs(old(TrackedNow()), cutoff)
      ensures latestMessages == DropOldMessages(old(latestMessages), cutoff)
    {
      DropOldTallies(cutoff);
      DropOldVotes(cutoff);
    }

    method EnsurePeriodicCheckpoint(epoch: nat, h: Hash, attesting: nat, total: nat)
      modifies `justifiedCheckpoint
      ensures FinalityNow() == PeriodicCheckpoint(old(FinalityNow()), cfg, epoch, h, attesting, total)
    {
      var interval := DEFAULT_CHECKPOINT_INTERVAL;
      if cfg.checkpointInterval > 0 {
        interval := cfg.checkpointInterval;
      }
      if epoch % interval != 0 {
        return;
      }
      justifiedCheckpoint := Some(Checkpoint(epoch, h, 0, attesting, total));
    }

    /** Any block with the largest tally: which of several depends on the order of iteration. */
    static method HeaviestBlock(tally: map<Hash, nat>) returns (best: Hash)
      requires tally != map[]
      ensures IsBest(tally, best)
    {
      var todo := tally.Keys;
      best :| best in todo;
      todo := todo - {best};
      while todo != {}
        invariant best in tally && todo <= tally.Keys
        invariant forall x | x in tally && x !in todo :: tally[x] <= tally[best]
      {
        var h :| h in todo;
        if tally[h] > tally[best] {
          best := h;
        }
        todo := todo - {h};
      }
    }

    method CheckFinalization(table: Table, now: int) returns (ghost best: Hash)
      modifies `finalizedCheckpoint,
               `totalActiveStake, `totalActiveStakeTime
      ensures FinalizeChoice(old(FinalityNow()), epochAttestations, best)
      ensures FinalityNow() == Finalize(old(FinalityNow()), epochAttestations, TotalStake(table), cfg, now, best)
    {
      best := "";
      if justifiedCheckpoint.None? {
        return;
      }
      if justifiedCheckpoint.value.epoch < 2 {
        return;
      }
      var epoch := justifiedCheckpoint.value.epoch - 2;
      if finalizedCheckpoint.Some? && finalizedCheckpoint.value.epoch >= epoch {
        return;
      }
      if epoch in epochAttestations && epochAttestations[epoch] != map[] {
        var bestBlock := HeaviestBlock(epochAttestations[epoch]);
        best := bestBlock;
        if bestBlock != "" {
          var total := GetTotalActiveStake(table, now);
          finalizedCheckpoint := Some(Checkpoint(epoch, bestBlock, now, epochAttestations[epoch][bestBlock], total));
        }
      }
    }

    method CheckJustification(table: Table, epoch: nat, h: Hash, attesting: nat, total: nat, now: int)
        returns (ghost best: Hash)
      modifies `justifiedCheckpoint, `finalizedCheckpoint,
               `totalActiveStake, `totalActiveStakeTime
      ensures JustifyChoice(old(FinalityNow()), epochAttestations, epoch, h, attesting, total, now, best)
      ensures FinalityNow() == Justify(old(FinalityNow()), epochAttestations, TotalStake(table), cfg, epoch, h,
                                       attesting, total, now, best)
    {
      best := "";
      if attesting < Threshold(total) {
        return;
      }
      if justifiedCheckpoint.Some? && justifiedCheckpoint.value.epoch >= epoch {
        return;
      }
      justifiedCheckpoint := Some(Checkpoint(epoch, h, now, attesting, total));
      best := CheckFinalization(table, now);
    }

    /** Step 7 of ProcessAttestation. */
    method CheckBlockQuorum(table: Table, epoch: nat, h: Hash, score: nat, now: int) returns (ghost best: Hash)
      modifies `justifiedCheckpoint, `finalizedCheckpoint,
               `totalActiveStake, `totalActiveStakeTime
      ensures QuorumChoice(old(FinalityNow()), epochAttestations, TotalStake(table), cfg, epoch, h, score, now, best)
      ensures FinalityNow() == CheckQuorum(old(FinalityNow()), epochAttestations, TotalStake(table), cfg, epoch, h,
                                           score, now, best)
    {
      best := "";
      var total := GetTotalActiveStake(table, now);
      if score >= Threshold(total) {
        EnsurePeriodicCheckpoint(epoch, h, score, total);
        best := CheckJustification(table, epoch, h, score, total, now);
      }
    }

    /** Steps 3 to 5 up to the order list: attester, stored attestation, score, epoch. */
    method AddAttester(att: Attestation, stake: nat) returns (score: nat)
      modifies `blockScores, `attestationsByBlock, `validatorAttestations, `blockEpochMap
      ensures score == ScoreOf(old(TrackedNow()), att.blockHash) + stake
      ensures TrackedNow() == RecordAttester(old(TrackedNow()), cfg, att, stake)
    {
      StoreAttestation(att);
      var h := att.blockHash;
      score := (if h in blockScores then blockScores[h] else 0) + stake;
      blockScores := blockScores[h := score];
      blockEpochMap := blockEpochMap[h := att.epoch];
    }

    /** Steps 3 and 4: the attester, and the attestation as long as there is room. */
    method StoreAttestation(att: Attestation)
      modifies `attestationsByBlock, `validatorAttestations
      ensures validatorAttestations == old(validatorAttestations)[att.blockHash :=
                AttestersOf(old(TrackedNow()), att.blockHash) + {att.validator}]
      ensures var stored := StoredFor(old(TrackedNow()), att.blockHash);
              attestationsByBlock == old(attestationsByBlock)[att.blockHash :=
                if |stored| < cfg.maxAttestationsPerBlock then stored + [att] else stored]
    {
      var h := att.blockHash;
      var attesters := if h in validatorAttestations then validatorAttestations[h] else {};
      validatorAttestations := validatorAttestations[h := attesters + {att.validator}];
      var stored := if h in attestationsByBlock then attestationsByBlock[h] else [];
      if |stored| < cfg.maxAttestationsPerBlock {
        stored := stored + [att];
      }
      attestationsByBlock := attestationsByBlock[h := stored];
    }

    method CountAttestation(att: Attestation, stake: nat) returns (score: nat)
      modifies `blockScores, `attestationsByBlock, `validatorAttestations, `blockEpochMap, `epochAttestations,
               `epochBlockOrder
      ensures score == ScoreOf(old(TrackedNow()), att.blockHash) + stake
      ensures TrackedNow() == Counted(old(TrackedNow()), cfg, att, stake)
    {
      var isNewBlock := att.blockHash !in blockScores;
      score := AddAttester(att, stake);
      if isNewBlock {
        epochBlockOrder := epochBlockOrder[att.epoch :=
          (if att.epoch in epochBlockOrder then epochBlockOrder[att.epoch] else []) + [att.blockHash]];
        PruneEpochBlocks(att.epoch);
      }
    }

    /** The epoch's tally grows by the stake; says whether the epoch is new. */
    method AddStake(epoch: nat, h: Hash, stake: nat) returns (created: bool)
      modifies `epochAttestations
      ensures created <==> epoch !in old(epochAttestations)
      ensures TrackedNow() == AddToTally(old(TrackedNow()), epoch, h, stake)
    {
      created := epoch !in epochAttestations;
      if created {
        epochAttestations := epochAttestations[epoch := map[]];
      }
      var tally := epochAttestations[epoch];
      var before: nat := if h in tally then tally[h] else 0;
      var after: map<Hash, nat> := tally[h := before + stake];
      epochAttestations := epochAttestations[epoch := after];
    }

    /** Step 6: the per-epoch tally, with a cleanup when the epoch is new. */
    method TallyAttestation(epoch: nat, h: Hash, stake: nat) returns (ghost removals: seq<Hash>)
      modifies `blockScores, `attestationsByBlock, `validatorAttestations, `blockEpochMap, `epochAttestations,
               `epochBlockOrder, `latestMessages
      ensures var s1 := old(Now()).(tracked := AddToTally(old(TrackedNow()), epoch, h, stake));
              if epoch in old(epochAttestations) then Now() == s1
              else ListsStale(s1.tracked, CutoffOf(s1, cfg), removals) && Now() == Cleanup(s1, cfg, removals)
    {
      removals := [];
      var created := AddStake(epoch, h, stake);
      if created {
        removals := CleanupOldEpochs();
      }
    }

    /** Steps 2 to 6 of an attestation that passes every early return. */
    method RecordAttestation(att: Attestation, stake: nat, ghost before: State)
        returns (score: nat, ghost removals: seq<Hash>)
      requires before.tracked == TrackedNow() && before.finality == FinalityNow()
      requires latestMessages == RecordMessage(before.messages, att)
      modifies `blockScores, `attestationsByBlock, `validatorAttestations, `blockEpochMap, `epochAttestations,
               `epochBlockOrder, `latestMessages
      ensures score == ScoreOf(old(TrackedNow()), att.blockHash) + stake
      ensures RecordChoice(before, cfg, att, stake, removals) && Now() == Recorded(before, cfg, att, stake, removals)
    {
      score := CountAttestation(att, stake);
      removals := TallyAttestation(att.epoch, att.blockHash, stake);
    }

    /** Step 7 for the block just attested, whose score is what `before` had plus the new stake. */
    method CheckScore(att: Attestation, table: Table, score: nat, now: int, ghost before: State)
        returns (ghost best: Hash)
      requires att.validator in table && before.finality == FinalityNow()
      requires score == ScoreOf(before.tracked, att.blockHash) + table[att.validator].stake
      modifies `justifiedCheckpoint, `finalizedCheckpoint,
               `totalActiveStake, `totalActiveStakeTime
      ensures FinalityChoice(before, table, cfg, att, now, epochAttestations, best)
      ensures FinalityNow() == FinalityAfter(before, table, cfg, att, now, epochAttestations, best)
    {
      best := CheckBlockQuorum(table, att.epoch, att.blockHash, score, now);
      FinalityAfterIs(before, table, cfg, att, now, epochAttestations, best, before.finality, TotalStake(table), score);
      FinalityChoiceIs(before, table, cfg, att, now, epochAttestations, best, before.finality, TotalStake(table),
                       score);
    }

    /** What is left of ProcessAttestation once the message is recorded and the attester is new. */
    method FinishAttestation(att: Attestation, table: Table, now: int, ghost before: State)
        returns (ghost choice: Choice)
      requires Counts(before, table, att, true)
      requires before.tracked == TrackedNow() && before.finality == FinalityNow()
      requires latestMessages == RecordMessage(before.messages, att)
      modifies `blockScores, `attestationsByBlock, `validatorAttestations, `blockEpochMap, `epochAttestations,
               `epochBlockOrder, `latestMessages, `justifiedCheckpoint, `finalizedCheckpoint,
               `totalActiveStake, `totalActiveStakeTime
      ensures Allowed(before, table, cfg, att, true, now, choice)
      ensures Now() == Attest(before, table, cfg, att, true, now, choice)
    {
      var stake := table[att.validator].stake;
      var score;
      ghost var removals;
      score, removals := RecordAttestation(att, stake, before);
      ghost var s1 := Now();
      ghost var best := CheckScore(att, table, score, now, before);
      choice := Choice(removals, best);
      CountedAttestation(before, table, cfg, att, now, choice, s1, FinalityNow());
    }

    /** One attestation does exactly what the state machine says, for some choice Go could make. */
    method ProcessAttestation(att: Attestation, admitted: bool, table: Table, now: int) returns (ghost choice: Choice)
      modifies `blockScores, `attestationsByBlock, `validatorAttestations, `blockEpochMap, `epochAttestations,
               `epochBlockOrder, `latestMessages, `justifiedCheckpoint, `finalizedCheckpoint,
               `totalActiveStake, `totalActiveStakeTime
      ensures Allowed(old(Now()), table, cfg, att, admitted, now, choice)
      ensures Now() == Attest(old(Now()), table, cfg, att, admitted, now, choice)
    {
      choice := Choice([], "");
      if !admitted {
        return;
      }
      if att.validator !in table || !table[att.validator].active {
        return;
      }
      var votes := if att.epoch in latestMessages then latestMessages[att.epoch] else map[];
      if att.validator in votes && votes[att.validator] != att.blockHash {
        return;
      }
      latestMessages := latestMessages[att.epoch := votes[att.validator := att.blockHash]];
      if att.blockHash in validatorAttestations && att.validator in validatorAttestations[att.blockHash] {
        return;
      }
      choice := FinishAttestation(att, table, now, old(Now()));
    }

    /** UpdateFinalization: promotes the justified checkpoint once it is old enough. */
    method UpdateFinalization(currentEpoch: nat, finalizationEpochs: int)
      modifies `finalizedCheckpoint
      ensures FinalityNow() == AutoFinalize(old(FinalityNow()), currentEpoch, finalizationEpochs)
    {
      var wait := if finalizationEpochs > 0 then finalizationEpochs else 2;
      if justifiedCheckpoint.Some? {
        var since := SubU64(currentEpoch % TWO_64, justifiedCheckpoint.value.epoch % TWO_64);
        if since >= wait {
          finalizedCheckpoint := justifiedCheckpoint;
        }
      }
    }

    method OnBlockAdded(blockHash: Hash, parentHash: Hash)
      modifies `children
      ensures children == old(children)[parentHash :=
                (if parentHash in old(children) then old(children)[parentHash] else []) + [blockHash]]
    {
      if parentHash !in children {
        children := children[parentHash := []];
      }
      children := children[parentHash := children[parentHash] + [blockHash]];
    }

    method HasQuorum(blockHash: Hash, table: Table, now: int) returns (r: bool)
      modifies `totalActiveStake, `totalActiveStakeTime
      ensures r <==> ScoreOf(old(TrackedNow()), blockHash) >=
                     Threshold(TotalWithCache(old(FinalityNow()), TotalStake(table), cfg, now))
      ensures FinalityNow() == RefreshTotal(old(FinalityNow()), TotalStake(table), cfg, now)
    {
      var total := GetTotalActiveStake(table, now);
      var attesting := if blockHash in blockScores then blockScores[blockHash] else 0;
      r := attesting >= Threshold(total);
    }

    // ---- The head ----

    /** The weight of one epoch's votes for root and the blocks below it. */
    method EpochStake(store: Store, table: Table, currentEpoch: nat, epoch: nat, root: Hash) returns (weight: nat)
      requires epoch in latestMessages
      ensures weight == Sum(EpochSupporters(store, table, latestMessages, currentEpoch, root, epoch,
                                            latestMessages[epoch].Keys),
                            VoteWeight(table, currentEpoch))
    {
      weight := 0;
      var votes := latestMessages[epoch];
      var todo := votes.Keys;
      ghost var done: set<Addr> := {};
      while todo != {}
        invariant done + todo == votes.Keys && done !! todo
        invariant weight == Sum(EpochSupporters(store, table, latestMessages, currentEpoch, root, epoch, done),
                                VoteWeight(table, currentEpoch))
      {
        var v :| v in todo;
        ghost var before := EpochSupporters(store, table, latestMessages, currentEpoch, root, epoch, done);
        ghost var after := EpochSupporters(store, table, latestMessages, currentEpoch, root, epoch, done + {v});
        assert (epoch, v) !in before;
        var supports := ComputeIsDescendant(store, votes[v], root, FORK_CHOICE_DEPTH);
        if epoch >= SubU64(currentEpoch, 2) && supports && v in table && table[v].active {
          var decayed := ApplyWeightDecay(table[v].stake, epoch, currentEpoch);
          assert after == before + {(epoch, v)};
          SumAdd(before, VoteWeight(table, currentEpoch), (epoch, v));
          weight := weight + decayed;
        } else {
          assert after == before;
        }
        todo, done := todo - {v}, done + {v};
      }
      assert done == votes.Keys;
    }

    /** The nested loops over epochs and votes compute the subtree weight in any order of iteration. */
    method GetSubtreeStake(store: Store, table: Table, root: Hash) returns (weight: nat)
      ensures weight == SubtreeStake(store, table, latestMessages, CurrentEpoch(TrackedNow()), root)
    {
      weight := 0;
      var currentEpoch := GetCurrentEpoch();
      var todo := latestMessages.Keys;
      ghost var done: set<nat> := {};
      while todo != {}
        invariant done + todo == latestMessages.Keys && done !! todo
        invariant weight == Sum(SupportersIn(store, table, latestMessages, currentEpoch, root, done),
                                VoteWeight(table, currentEpoch))
      {
        var epoch :| epoch in todo;
        SupportersInOneMore(store, table, latestMessages, currentEpoch, root, done, epoch);
        if epoch >= SubU64(currentEpoch, 2) {
          var more := EpochStake(store, table, currentEpoch, epoch, root);
          weight := weight + more;
        }
        todo, done := todo - {epoch}, done + {epoch};
      }
      assert SupportersIn(store, table, latestMessages, currentEpoch, root, done)
          == Supporters(store, table, latestMessages, currentEpoch, root);
    }

    method SelectBestChild(store: Store, table: Table, cs: seq<Hash>) returns (best: Hash)
      ensures best == Choose(cs, Weights(store, table, latestMessages, CurrentEpoch(TrackedNow()))).0
    {
      best := "";
      var maxWeight := 0;
      ghost var w := Weights(store, table, latestMessages, CurrentEpoch(TrackedNow()));
      for i := 0 to |cs|
        invariant (best, maxWeight) == Choose(cs[..i], w)
      {
        assert cs[..i + 1][..i] == cs[..i];
        var weight := GetSubtreeStake(store, table, cs[i]);
        if weight > maxWeight {
          maxWeight := weight;
          best := cs[i];
        } else if weight == maxWeight {
          if best == "" || Less(cs[i], best) {
            best := cs[i];
          }
        }
      }
      assert cs[..|cs|] == cs;
    }

    /** Wherever the descent ends at all, and so on every acyclic child map, it ends at the leaf the head rule names. */
    method GetHead(store: Store, table: Table) returns (head: Hash)
      requires HasHead(store, table, children, Now())
      ensures IsHead(store, table, children, Now(), head)
    {
      head := "";
      if finalizedCheckpoint.Some? {
        head := finalizedCheckpoint.value.blockHash;
      } else if justifiedCheckpoint.Some? {
        head := justifiedCheckpoint.value.blockHash;
      } else if "" in store {
        head := store[""].hash;
      }
      ghost var w := Weights(store, table, latestMessages, CurrentEpoch(TrackedNow()));
      ghost var p :| HeadPathOf(store, table, children, Now(), p);
      ghost var i := 0;
      while head in children && children[head] != []
        invariant i < |p| && p[i] == head
        decreases |p| - i
      {
        assert i < |p| - 1;
        assert Follows(children, w, p[i], p[i + 1]);
        head := SelectBestChild(store, table, children[head]);
        i := i + 1;
      }
      assert i < |p| - 1 ==> Follows(children, w, p[i], p[i + 1]);
    }

    method IsViableChain(store: Store, blockHash: Hash) returns (r: bool)
      ensures r <==> Viable(store, Now(), blockHash)
    {
      if finalizedCheckpoint.None? {
        return true;
      }
      if blockHash !in blockEpochMap {
        return false;
      }
      if blockEpochMap[blockHash] < finalizedCheckpoint.value.epoch {
        return false;
      }
      r := ComputeIsDescendant(store, blockHash, finalizedCheckpoint.value.blockHash, FORK_CHOICE_DEPTH);
    }
  }
}
