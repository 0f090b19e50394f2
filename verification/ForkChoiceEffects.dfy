/** What one step of fork choice brings about, and where it falls short of what it is meant to do. */
module ForkChoiceEffects {
  import opened Base
  import opened ForkChoiceSpec
  import opened ForkChoiceInvariants

  // ---- Removals touch nothing but what they remove ----

  /** Everything u still tracks it tracks as t did. */
  ghost predicate OnlyRemoves(t: Tracked, u: Tracked) {
    && (forall h | h in u.blockScores :: h in t.blockScores && u.blockScores[h] == t.blockScores[h])
    && (forall h | h in u.validatorAttestations ::
        h in t.validatorAttestations && u.validatorAttestations[h] == t.validatorAttestations[h])
    && (forall h | h in u.attestationsByBlock ::
        h in t.attestationsByBlock && u.attestationsByBlock[h] == t.attestationsByBlock[h])
    && (forall h | h in u.blockEpochMap :: h in t.blockEpochMap && u.blockEpochMap[h] == t.blockEpochMap[h])
  }

  lemma {:induction false} RemovalsOnlyRemove(t: Tracked, hs: seq<Hash>)
    ensures OnlyRemoves(t, RemoveAll(t, hs))
    ensures forall h | h !in hs && h in t.blockScores :: h in RemoveAll(t, hs).blockScores
    decreases |hs|
  {
    if hs != [] { RemovalsOnlyRemove(t, hs[..|hs| - 1]); }
  }

  lemma {:induction false} PruningOnlyRemoves(t: Tracked, epoch: nat, limit: nat, backing: seq<Hash>, start: nat)
    requires start <= |backing| && |View(t, epoch)| <= |backing|
    ensures OnlyRemoves(t, PruneFrom(t, epoch, limit, backing, start))
    decreases |backing| - start
  {
    if |backing| - start > limit {
      var oldest := backing[start];
      ViewShrinks(t, epoch, oldest);
      PruningOnlyRemoves(RemoveTracked(t, oldest), epoch, limit, BackingAfterRemoval(t, epoch, backing, oldest),
                         start + 1);
    }
  }

  lemma CountingOnlyRemoves(t: Tracked, cfg: Config, att: Attestation, stake: nat)
    ensures OnlyRemoves(RecordAttester(t, cfg, att, stake), Counted(t, cfg, att, stake))
  {
    if att.blockHash !in t.blockScores && cfg.maxBlocksPerEpoch > 0 {
      var t1 := RecordAttester(t, cfg, att, stake);
      var t2 := t1.(epochBlockOrder := t1.epochBlockOrder[att.epoch := View(t1, att.epoch) + [att.blockHash]]);
      PruningOnlyRemoves(t2, att.epoch, cfg.maxBlocksPerEpoch, View(t2, att.epoch), 0);
    }
  }

  lemma RecordingOnlyRemoves(s: State, cfg: Config, att: Attestation, stake: nat, removals: seq<Hash>)
    ensures OnlyRemoves(RecordAttester(s.tracked, cfg, att, stake), Recorded(s, cfg, att, stake, removals).tracked)
  {
    CountingOnlyRemoves(s.tracked, cfg, att, stake);
    var counted := Counted(s.tracked, cfg, att, stake);
    var s1 := State(AddToTally(counted, att.epoch, att.blockHash, stake), RecordMessage(s.messages, att), s.finality);
    if att.epoch !in counted.epochAttestations {
      RemovalsOnlyRemove(DropOldEpochs(s1.tracked, CutoffOf(s1, cfg)), removals);
    }
  }

  /**
   * An attestation that counts adds its validator and its stake to the block, if the block is still
   * tracked afterwards, and its vote to the epoch, if the epoch still is; one that does not count
   * changes neither the books nor the checkpoints.
   */
  lemma AttestationTakesEffect(s: State, table: Table, cfg: Config, att: Attestation, admitted: bool, now: int,
                               choice: Choice)
    ensures var t := Attest(s, table, cfg, att, admitted, now, choice);
            if Counts(s, table, att, admitted) then
              && (att.blockHash in t.tracked.blockScores ==>
                    t.tracked.blockScores[att.blockHash] ==
                        ScoreOf(s.tracked, att.blockHash) + table[att.validator].stake)
              && (att.blockHash in t.tracked.validatorAttestations ==>
                    t.tracked.validatorAttestations[att.blockHash] ==
                        AttestersOf(s.tracked, att.blockHash) + {att.validator})
              && (att.blockHash in t.tracked.blockEpochMap ==> t.tracked.blockEpochMap[att.blockHash] == att.epoch)
              && (att.epoch in t.messages ==>
                    att.validator in t.messages[att.epoch] && t.messages[att.epoch][att.validator] == att.blockHash)
            else t.tracked == s.tracked && t.finality == s.finality
  {
    if Counts(s, table, att, admitted) {
      var stake := table[att.validator].stake;
      RecordingOnlyRemoves(s, cfg, att, stake, choice.removals);
      RecordingMessages(s, cfg, att, stake, choice.removals);
      EffectOfRecording(s, cfg, att, stake, Recorded(s, cfg, att, stake, choice.removals));
    }
  }

  lemma EffectOfRecording(s: State, cfg: Config, att: Attestation, stake: nat, t: State)
    requires OnlyRemoves(RecordAttester(s.tracked, cfg, att, stake), t.tracked)
    requires EpochsDropped(RecordMessage(s.messages, att), t.messages)
    ensures att.blockHash in t.tracked.blockScores ==>
            t.tracked.blockScores[att.blockHash] == ScoreOf(s.tracked, att.blockHash) + stake
    ensures att.blockHash in t.tracked.validatorAttestations ==>
              t.tracked.validatorAttestations[att.blockHash] == AttestersOf(s.tracked, att.blockHash) + {att.validator}
    ensures att.blockHash in t.tracked.blockEpochMap ==> t.tracked.blockEpochMap[att.blockHash] == att.epoch
    ensures att.epoch in t.messages ==>
              att.validator in t.messages[att.epoch] && t.messages[att.epoch][att.validator] == att.blockHash
  {
  }

  /** A cleanup keeps every vote and every block of the epochs from its cutoff on. */
  lemma CleanupKeepsRecent(s: State, table: Table, cfg: Config, removals: seq<Hash>)
    requires Books(s.tracked, table, cfg) && ListsStale(s.tracked, CutoffOf(s, cfg), removals)
    ensures var t := Cleanup(s, cfg, removals);
            && (forall e | e in s.messages && e >= CutoffOf(s, cfg) ::
                e in t.messages && t.messages[e] == s.messages[e])
            && (forall h | h in s.tracked.blockScores ::
                  h in t.tracked.blockScores <==> s.tracked.blockEpochMap[h] >= CutoffOf(s, cfg))
            && OnlyRemoves(s.tracked, t.tracked)
  {
    var kept := DropOldEpochs(s.tracked, CutoffOf(s, cfg));
    RemovalsOnlyRemove(kept, removals);
    RemoveAllKeys(kept, removals);
  }

  // ---- Checkpoints ----

  /**
   * A checkpoint for this block and epoch is justified exactly when more than two thirds attest and it
   * is new or periodic.
   */
  lemma JustifiedIff(f: Finality, tallies: map<nat, map<Hash, nat>>, total: nat, cfg: Config, epoch: nat, h: Hash,
                     score: nat, now: int, best: Hash)
    requires Justification(f, total) && score <= total
    ensures var after := CheckQuorum(f, tallies, total, cfg, epoch, h, score, now, best).justified;
            var periodic := epoch % (if cfg.checkpointInterval > 0 then cfg.checkpointInterval else 10) == 0;
            if 3 * score > 2 * total && (f.justified.None? || f.justified.value.epoch < epoch || periodic)
            then after == Some(Checkpoint(epoch, h, if periodic then 0 else now, score, total))
            else after == f.justified
  {
    JustifyingPart(RefreshTotal(f, total, cfg, now), tallies, total, cfg, epoch, h, score, now, best);
  }

  /**
   * An attestation finalizes exactly when its block reaches the quorum in an epoch that is newer than
   * the justified one and not a periodic one, where the checkpoint would already be there, and there is
   * something new to finalize two epochs below.
   */
  lemma FinalizesIff(f: Finality, tallies: map<nat, map<Hash, nat>>, total: nat, cfg: Config, epoch: nat, h: Hash,
                     score: nat, now: int, best: Hash)
    requires Justification(f, total) && score <= total
    ensures CheckQuorum(f, tallies, total, cfg, epoch, h, score, now, best).finalized != f.finalized <==>
              && 3 * score > 2 * total
              && epoch % (if cfg.checkpointInterval > 0 then cfg.checkpointInterval else 10) != 0
              && (f.justified.Some? ==> f.justified.value.epoch < epoch)
              && epoch >= 2 && (f.finalized.Some? ==> f.finalized.value.epoch < epoch - 2)
              && epoch - 2 in tallies && best != "" && best in tallies[epoch - 2]
  {
    var f1 := RefreshTotal(f, total, cfg, now);
    if score >= Threshold(total) && epoch % Interval(cfg) != 0
        && (f.justified.Some? ==> f.justified.value.epoch < epoch) {
      var justified := f1.(justified := Some(Checkpoint(epoch, h, now, score, total)));
      assert CheckQuorum(f, tallies, total, cfg, epoch, h, score, now, best) ==
             Finalize(justified, tallies, total, cfg, now, best);
    }
  }

  /** With a checkpoint in every epoch no run of attestations and cleanups finalizes anything. */
  lemma {:induction false} IntervalOneNeverFinalizes(table: Table, cfg: Config, events: seq<Event>)
    requires Interval(cfg) == 1 && forall e | e in events :: !e.AutoFinalized?
    ensures Run(table, cfg, events).finality.finalized.None?
    decreases |events|
  {
    if events != [] {
      var rest, e := events[..|events| - 1], events[|events| - 1];
      assert events == rest + [e];
      IntervalOneNeverFinalizes(table, cfg, rest);
      RunKeepsInv(table, cfg, rest);
      if e.Attested? { PeriodicNeverFinalizes(Run(table, cfg, rest), table, cfg, e.att, e.admitted, e.now, e.choice); }
    }
  }

  lemma PeriodicNeverFinalizes(s: State, table: Table, cfg: Config, att: Attestation, admitted: bool, now: int,
                               choice: Choice)
    requires att.epoch % Interval(cfg) == 0
    requires Books(s.tracked, table, cfg) && Justification(s.finality, TotalStake(table))
    ensures Attest(s, table, cfg, att, admitted, now, choice).finality.finalized == s.finality.finalized
  {
    if Counts(s, table, att, admitted) {
      ScoreAfterNewAttester(s.tracked, table, cfg, att);
      var s1 := Recorded(s, cfg, att, table[att.validator].stake, choice.removals);
      var tallies, score := s1.tracked.epochAttestations,
          ScoreOf(s.tracked, att.blockHash) + table[att.validator].stake;
      var f := FinalityAfter(s, table, cfg, att, now, tallies, choice.best);
      AttestInTwoParts(s, table, cfg, att, now, choice, s1, f);
      FinalityAfterIs(s, table, cfg, att, now, tallies, choice.best, s.finality, TotalStake(table), score);
      FinalizesIff(s.finality, tallies, TotalStake(table), cfg, att.epoch, att.blockHash, score, now, choice.best);
    }
  }

  lemma JustifyingPart(f: Finality, tallies: map<nat, map<Hash, nat>>, total: nat, cfg: Config, epoch: nat, h: Hash,
                       score: nat, now: int, best: Hash)
    ensures var after := Justify(f, tallies, total, cfg, epoch, h, score, total, now, best).justified;
            if score >= Threshold(total) && (f.justified.None? || f.justified.value.epoch < epoch)
            then after == Some(Checkpoint(epoch, h, now, score, total)) else after == f.justified
  {
  }

  // ---- The order list of an epoch ----

  /** Removing h rewrites the order list of this epoch. */
  predicate Rewrites(t: Tracked, epoch: nat, h: Hash) {
    h in t.blockEpochMap && t.blockEpochMap[h] == epoch
  }

  /** The list written over the front of its own array by what is left of it without its first hash. */
  function Overwritten(order: seq<Hash>): (after: seq<Hash>)
    requires order != []
    ensures |after| == |order|
  {
    WithoutShrinks(order, order[0]);
    var kept := Without(order, order[0]);
    kept + order[|kept|..]
  }

  /** The order list after one round: behind its first entry, and overwritten if the removal filtered it. */
  function OrderAfterRound(t: Tracked, epoch: nat, order: seq<Hash>): seq<Hash>
    requires order != []
  {
    (if Rewrites(t, epoch, order[0]) then Overwritten(order) else order)[1..]
  }

  /** The one round of pruning that a list over the limit by one takes. */
  lemma OneRound(t: Tracked, epoch: nat, limit: nat, order: seq<Hash>)
    requires limit >= 1 && order == View(t, epoch) && |order| == limit + 1
    ensures var t1 := RemoveTracked(t, order[0]);
            PruneFrom(t, epoch, limit, order, 0) ==
            t1.(epochBlockOrder := t1.epochBlockOrder[epoch := OrderAfterRound(t, epoch, order)])
  {
    ViewShrinks(t, epoch, order[0]);
    var backing := BackingAfterRemoval(t, epoch, order, order[0]);
    assert backing == if Rewrites(t, epoch, order[0]) then Overwritten(order) else order;
    var t1 := RemoveTracked(t, order[0]);
    StopsAtLimit(t1, epoch, limit, backing);
    assert PruneFrom(t, epoch, limit, order, 0) == PruneFrom(t1, epoch, limit, backing, 1);
  }

  lemma StopsAtLimit(t: Tracked, epoch: nat, limit: nat, backing: seq<Hash>)
    requires limit >= 1 && |backing| == limit + 1 && |View(t, epoch)| <= |backing|
    ensures PruneFrom(t, epoch, limit, backing, 1) == t.(epochBlockOrder := t.epochBlockOrder[epoch := backing[1..]])
  {
  }

  /** How many entries are not the first hash. */
  function Others(order: seq<Hash>): nat
    requires order != []
  {
    |Without(order, order[0])|
  }

  /**
   * All entries but the first hash are one and the same, and its repetitions, if any, come after all
   * of these but one. A list without repetitions is like this exactly when it has at most two entries.
   */
  ghost predicate OneOther(order: seq<Hash>)
    requires order != []
  {
    && (forall i, j | 0 <= i < |order| && 0 <= j < |order| && order[i] != order[0] && order[j] != order[0] ::
          order[i] == order[j])
    && (forall i | 1 <= i < Others(order) && i < |order| :: order[i] != order[0])
  }

  lemma {:induction false} WithoutMembers(order: seq<Hash>, h: Hash)
    ensures forall x :: x in Without(order, h) <==> x in order && x != h
    ensures |Without(order, h)| <= |order|
    decreases |order|
  {
    if order != [] {
      WithoutMembers(order[1..], h);
      assert order == [order[0]] + order[1..];
    }
  }

  /** As long as h does not occur, nothing moves. */
  lemma {:induction false} WithoutPrefix(order: seq<Hash>, h: Hash, n: nat)
    requires n <= |order| && forall i | 0 <= i < n :: order[i] != h
    ensures n <= |Without(order, h)| && Without(order, h)[..n] == order[..n]
    decreases n
  {
    if n > 0 {
      WithoutPrefix(order[1..], h, n - 1);
      assert order[..n] == [order[0]] + order[1..][..n - 1];
    }
  }

  lemma WithoutFirstEntry(order: seq<Hash>)
    requires order != []
    ensures Without(order, order[0]) == Without(order[1..], order[0])
  {
  }

  /** The overwritten list is the old one behind its first entry exactly for lists with one other hash. */
  lemma OverwrittenIff(order: seq<Hash>)
    requires order != []
    ensures Overwritten(order)[1..] == order[1..] <==> OneOther(order)
  {
    var o, kept := order[0], Without(order, order[0]);
    var k := |kept|;
    WithoutMembers(order, o);
    if Overwritten(order)[1..] == order[1..] {
      SameBehindFirst(order, kept);
      RestIsConstant(order, kept);
    }
    if OneOther(order) {
      forall i | 1 <= i < |order| ensures Overwritten(order)[i] == order[i] {
        if i < k {
          assert kept[i] in kept;
          assert order[i] != o;
        }
      }
      assert forall i | 0 <= i < |order| - 1 :: Overwritten(order)[1..][i] == order[1..][i];
    }
  }

  lemma SameBehindFirst(order: seq<Hash>, kept: seq<Hash>)
    requires order != [] && kept == Without(order, order[0]) && Overwritten(order)[1..] == order[1..]
    ensures |kept| <= |order| && forall i | 1 <= i < |kept| :: kept[i] == order[i]
  {
    WithoutMembers(order, order[0]);
    forall i | 1 <= i < |kept| ensures kept[i] == order[i] {
      assert Overwritten(order)[1..][i - 1] == order[1..][i - 1];
    }
  }

  lemma KeptIsConstant(order: seq<Hash>, kept: seq<Hash>)
    requires order != [] && kept == Without(order, order[0]) && 0 < |kept| <= |order|
    requires forall i | 1 <= i < |kept| :: kept[i] == order[i] && order[i] != order[0]
    ensures forall x | x in kept :: x == kept[0]
  {
    var rest, k := order[1..], |kept|;
    WithoutFirstEntry(order);
    WithoutPrefix(rest, order[0], k - 1);
    forall i | 0 <= i < k - 1 ensures kept[i] == kept[i + 1] {
      assert kept[..k - 1][i] == rest[..k - 1][i];
    }
    AllEqual(kept);
  }

  lemma RestIsConstant(order: seq<Hash>, kept: seq<Hash>)
    requires order != [] && kept == Without(order, order[0]) && |kept| <= |order|
    requires forall i | 1 <= i < |kept| :: kept[i] == order[i]
    ensures OneOther(order)
  {
    var o, k := order[0], |kept|;
    WithoutMembers(order, o);
    forall i | 1 <= i < k ensures order[i] != o { assert kept[i] in kept; }
    if k > 0 {
      KeptIsConstant(order, kept);
      forall i | 0 <= i < |order| && order[i] != o ensures order[i] == kept[0] { assert order[i] in kept; }
    }
  }

  lemma {:induction false} AllEqual(kept: seq<Hash>)
    requires kept != [] && forall i | 0 <= i < |kept| - 1 :: kept[i] == kept[i + 1]
    ensures forall x | x in kept :: x == kept[0]
    decreases |kept|
  {
    if |kept| > 1 {
      AllEqual(kept[1..]);
      assert kept == [kept[0]] + kept[1..] && kept[1] == kept[0];
    }
  }

  /**
   * Evicting from an epoch whose list is one over the limit. The removal filters the list in place
   * while the pruning loop still holds a slice of it. What was meant, dropping just the first entry,
   * happens to the list exactly when no list is filtered, because the first entry is not tracked in
   * this epoch any more, or when the list has only one other hash. A block is evicted exactly when the
   * first entry is still tracked.
   */
  lemma EvictionIsMeantIff(t: Tracked, cfg: Config, epoch: nat)
    requires cfg.maxBlocksPerEpoch >= 1 && |View(t, epoch)| == cfg.maxBlocksPerEpoch + 1
    ensures var order := View(t, epoch);
            var u := Prune(t, cfg, epoch);
            && View(u, epoch) == OrderAfterRound(t, epoch, order)
            && (View(u, epoch) == order[1..] <==> !Rewrites(t, epoch, order[0]) || OneOther(order))
            && u.blockScores == t.blockScores - {order[0]}
            && (|u.blockScores| < |t.blockScores| <==> order[0] in t.blockScores)
  {
    var order := View(t, epoch);
    OneRound(t, epoch, cfg.maxBlocksPerEpoch, order);
    OverwrittenIff(order);
    OneFewer(t.blockScores, order[0]);
  }

  lemma OneFewer(scores: map<Hash, nat>, h: Hash)
    ensures |scores - {h}| < |scores| <==> h in scores
  {
    assert (scores - {h}).Keys == scores.Keys - {h};
    assert |scores| == |scores.Keys| && |scores - {h}| == |(scores - {h}).Keys|;
  }

  lemma WithoutFirst(order: seq<Hash>)
    requires order != [] && Distinct(order)
    ensures Without(order, order[0]) == order[1..]
  {
    WithoutFirstEntry(order);
    WithoutPrefix(order[1..], order[0], |order| - 1);
    WithoutMembers(order[1..], order[0]);
  }

  lemma OverwrittenDistinct(order: seq<Hash>)
    requires order != [] && Distinct(order)
    ensures Overwritten(order) == order[1..] + [order[|order| - 1]]
  {
    WithoutFirst(order);
  }

  /**
   * For a list without repetitions: its second entry drops out and its last one is there twice, so
   * that for every limit above one the next eviction finds a list with a repetition.
   */
  lemma EvictionSkipsABlock(order: seq<Hash>)
    requires |order| >= 2 && Distinct(order)
    ensures Overwritten(order)[1..] == order[2..] + [order[|order| - 1]]
    ensures OneOther(order) <==> |order| == 2
    ensures |order| > 2 ==> !Distinct(Overwritten(order)[1..])
  {
    OverwrittenDistinct(order);
    OverwrittenIff(order);
    var after, n := order[2..] + [order[|order| - 1]], |order|;
    assert Overwritten(order)[1..] == after;
    if n > 2 {
      assert after[0] == order[2] && order[1..][0] == order[1];
      assert after[n - 3] == order[n - 1] && after[n - 2] == order[n - 1];
    } else {
      assert after == order[1..];
    }
  }
}
