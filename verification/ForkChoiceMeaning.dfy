/** What cleanups, attestations and the stake cache do, in terms of epochs, stakes and times alone. */
module ForkChoiceMeaning {
  import opened Base
  import opened StakeSums
  import opened ForkChoiceSpec
  import opened ForkChoiceInvariants
  import opened ForkChoiceEffects

  type Tallies = map<nat, map<Hash, nat>>

  // ---- Which epochs a cleanup keeps ----

  /** The newest epoch with a tally, zero if there is none. */
  ghost predicate IsCurrent(tallies: Tallies, current: nat) {
    if tallies == map[] then current == 0 else current in tallies && forall e | e in tallies :: e <= current
  }

  /**
   * An epoch outlives a cleanup if it is at most 50 behind the current one and, with a finalized checkpoint, at most
   * two behind that, without one at most maxEpochsToKeep behind the current one.
   */
  predicate Outlives(finalized: Option<Checkpoint>, cfg: Config, current: nat, e: nat) {
    && e + 50 >= current
    && match finalized
       case Some(c) => e + 2 >= c.epoch
       case None => e + cfg.maxEpochsToKeep >= current
  }

  lemma CutoffIs(s: State, cfg: Config, current: nat, e: nat)
    requires IsCurrent(s.tracked.epochAttestations, current)
    ensures e >= CutoffOf(s, cfg) <==> Outlives(s.finality.finalized, cfg, current, e)
  {
    assert CurrentEpoch(s.tracked) == current;
  }

  /** Removing blocks whose epochs have no tally leaves the tallies alone. */
  lemma {:induction false} TalliesUntouched(t: Tracked, hs: seq<Hash>)
    requires forall h | h in hs :: h in t.blockEpochMap ==> t.blockEpochMap[h] !in t.epochAttestations
    ensures RemoveAll(t, hs).epochAttestations == t.epochAttestations
    decreases |hs|
  {
    if hs != [] {
      var rest := hs[..|hs| - 1];
      TalliesUntouched(t, rest);
      RemoveAllKeys(t, rest);
      assert hs[|hs| - 1] in hs;
    }
  }

  /** Removing blocks leaves the order lists of all other epochs alone, and brings none back. */
  lemma {:induction false} OrdersUntouched(t: Tracked, hs: seq<Hash>, e: nat)
    requires forall h | h in hs :: h in t.blockEpochMap ==> t.blockEpochMap[h] != e
    ensures View(RemoveAll(t, hs), e) == View(t, e)
    decreases |hs|
  {
    if hs != [] {
      var rest := hs[..|hs| - 1];
      OrdersUntouched(t, rest, e);
      RemoveAllKeys(t, rest);
      assert hs[|hs| - 1] in hs;
    }
  }

  lemma {:induction false} NoOrderComesBack(t: Tracked, hs: seq<Hash>, e: nat)
    requires e !in t.epochBlockOrder
    ensures e !in RemoveAll(t, hs).epochBlockOrder
    decreases |hs|
  {
    if hs != [] { NoOrderComesBack(t, hs[..|hs| - 1], e); }
  }

  /** The order lists of epochs that outlive a cleanup stay as they are, and the others' go with their tallies. */
  lemma CleanupKeepsOrders(s: State, table: Table, cfg: Config, removals: seq<Hash>, current: nat, e: nat)
    requires CanHappen(s, table, cfg, CleanedUp(removals)) && IsCurrent(s.tracked.epochAttestations, current)
    ensures var t := Cleanup(s, cfg, removals);
            if Outlives(s.finality.finalized, cfg, current, e) then View(t.tracked, e) == View(s.tracked, e)
            else e in s.tracked.epochAttestations ==> e !in t.tracked.epochBlockOrder
  {
    var cutoff := CutoffOf(s, cfg);
    var dropped := DropOldEpochs(s.tracked, cutoff);
    CutoffIs(s, cfg, current, e);
    if Outlives(s.finality.finalized, cfg, current, e) {
      forall h | h in removals ensures h in dropped.blockEpochMap ==> dropped.blockEpochMap[h] != e {
        assert IsStale(s.tracked, cutoff, h);
      }
      OrdersUntouched(dropped, removals, e);
    } else if e in s.tracked.epochAttestations {
      NoOrderComesBack(dropped, removals, e);
    }
  }

  /** The blocks of epochs that outlive the cleanup. */
  ghost predicate BlocksKept(s: State, cfg: Config, current: nat, t: Tracked) {
    && (forall h | h in s.tracked.blockScores ::
          h in t.blockScores <==> h in s.tracked.blockEpochMap
                                  && Outlives(s.finality.finalized, cfg, current, s.tracked.blockEpochMap[h]))
    && OnlyRemoves(s.tracked, t)
  }

  ghost function Outliving<V>(m: map<nat, V>, finalized: Option<Checkpoint>, cfg: Config, current: nat): map<nat, V> {
    map e | e in m && Outlives(finalized, cfg, current, e) :: m[e]
  }

  /**
   * A cleanup keeps the votes and tallies of exactly the epochs that outlive it, unchanged, and exactly the blocks
   * last attested in these epochs.
   */
  lemma CleanupKeepsExactly(s: State, table: Table, cfg: Config, removals: seq<Hash>, current: nat)
    requires CanHappen(s, table, cfg, CleanedUp(removals)) && IsCurrent(s.tracked.epochAttestations, current)
    ensures var t := Cleanup(s, cfg, removals);
            && t.messages == Outliving(s.messages, s.finality.finalized, cfg, current)
            && t.tracked.epochAttestations ==
               Outliving(s.tracked.epochAttestations, s.finality.finalized, cfg, current)
            && BlocksKept(s, cfg, current, t.tracked) && t.finality == s.finality
  {
    var cutoff, f := CutoffOf(s, cfg), s.finality.finalized;
    var dropped := DropOldEpochs(s.tracked, cutoff);
    forall e: nat ensures e >= cutoff <==> Outlives(f, cfg, current, e) { CutoffIs(s, cfg, current, e); }
    assert KeepFrom(s.messages, cutoff) == Outliving(s.messages, f, cfg, current);
    assert dropped.epochAttestations == Outliving(s.tracked.epochAttestations, f, cfg, current);
    forall h | h in removals ensures h in dropped.blockEpochMap ==>
                                       dropped.blockEpochMap[h] !in dropped.epochAttestations {
      assert IsStale(s.tracked, cutoff, h);
    }
    TalliesUntouched(dropped, removals);
    RemovalsOnlyRemove(dropped, removals);
    RemoveAllKeys(dropped, removals);
    forall h | h in s.tracked.blockScores
      ensures h in removals <==> !(h in s.tracked.blockEpochMap
                                   && Outlives(f, cfg, current, s.tracked.blockEpochMap[h]))
    {
      assert h in removals <==> IsStale(s.tracked, cutoff, h);
    }
  }

  // ---- What an attestation does ----

  /** The slashing manager lets it through, its validator is active, and it contradicts no vote of its epoch. */
  predicate Welcome(s: State, table: Table, att: Attestation, admitted: bool) {
    && admitted && att.validator in table && table[att.validator].active
    && (att.epoch in s.messages && att.validator in s.messages[att.epoch] ==>
          s.messages[att.epoch][att.validator] == att.blockHash)
  }

  /** The validator has attested the block before. */
  predicate Repeats(s: State, att: Attestation) {
    att.blockHash in s.tracked.validatorAttestations
    && att.validator in s.tracked.validatorAttestations[att.blockHash]
  }

  /**
   * An attestation that is not welcome changes nothing, and a repeated one only the votes. Any other is counted:
   * its validator joins the attesters and its stake the score of the block, unless a removal takes the block.
   */
  lemma AttestationIs(s: State, table: Table, cfg: Config, att: Attestation, admitted: bool, now: int, choice: Choice)
    ensures var t := Attest(s, table, cfg, att, admitted, now, choice);
            var h, v := att.blockHash, att.validator;
            if !Welcome(s, table, att, admitted) then t == s
            else if Repeats(s, att) then
              t == s.(messages := s.messages[att.epoch := VotesOf(s.messages, att.epoch)[v := h]])
            else
              && (h in t.tracked.blockScores ==>
                    t.tracked.blockScores[h] == ScoreOf(s.tracked, h) + table[v].stake)
              && (h in t.tracked.validatorAttestations ==>
                    t.tracked.validatorAttestations[h] == AttestersOf(s.tracked, h) + {v})
              && (h in t.tracked.attestationsByBlock ==>
                    t.tracked.attestationsByBlock[h] == StoredFor(s.tracked, h) +
                      if |StoredFor(s.tracked, h)| < cfg.maxAttestationsPerBlock then [att] else [])
              && (h in t.tracked.blockEpochMap ==> t.tracked.blockEpochMap[h] == att.epoch)
              && (att.epoch in t.messages ==> v in t.messages[att.epoch] && t.messages[att.epoch][v] == h)
  {
    assert Welcome(s, table, att, admitted) && !Repeats(s, att) <==> Counts(s, table, att, admitted);
    AttestationTakesEffect(s, table, cfg, att, admitted, now, choice);
    if Counts(s, table, att, admitted) {
      RecordingOnlyRemoves(s, cfg, att, table[att.validator].stake, choice.removals);
      assert StoredFor(s.tracked, att.blockHash) + [] == StoredFor(s.tracked, att.blockHash);
    }
  }

  function Add(tallies: Tallies, epoch: nat, h: Hash, stake: nat): Tallies {
    var tally := if epoch in tallies then tallies[epoch] else map[];
    tallies[epoch := tally[h := (if h in tally then tally[h] else 0) + stake]]
  }

  lemma AddToTallyIs(t: Tracked, epoch: nat, h: Hash, stake: nat)
    ensures AddToTally(t, epoch, h, stake).epochAttestations == Add(t.epochAttestations, epoch, h, stake)
  {
  }

  lemma CurrentAfter(tallies: Tallies, current: nat, epoch: nat, h: Hash, stake: nat)
    requires IsCurrent(tallies, current)
    ensures IsCurrent(Add(tallies, epoch, h, stake), if epoch > current then epoch else current)
  {
    var after := Add(tallies, epoch, h, stake);
    assert epoch in after && after.Keys == tallies.Keys + {epoch};
  }

  /** Without a cap, what is recorded before a cleanup. */
  lemma CountedWithoutCap(t: Tracked, cfg: Config, att: Attestation, stake: nat)
    requires cfg.maxBlocksPerEpoch <= 0
    ensures var u := Counted(t, cfg, att, stake);
            && u.epochAttestations == t.epochAttestations && u.blockScores.Keys == t.blockScores.Keys + {att.blockHash}
            && u.blockEpochMap == t.blockEpochMap[att.blockHash := att.epoch]
  {
  }

  /** t has exactly these votes and tallies, those that outlive a cleanup if one is due, and the block with them. */
  ghost predicate Holds(t: State, votes: Messages, tallies: Tallies, finalized: Option<Checkpoint>, cfg: Config,
                        due: bool, newest: nat, epoch: nat, h: Hash) {
    if due
    then t.messages == Outliving(votes, finalized, cfg, newest)
         && t.tracked.epochAttestations == Outliving(tallies, finalized, cfg, newest)
         && (h in t.tracked.blockScores <==> Outlives(finalized, cfg, newest, epoch))
    else t.messages == votes && t.tracked.epochAttestations == tallies && h in t.tracked.blockScores
  }

  /** The state between recording and cleanup. */
  lemma BeforeCleanup(s: State, cfg: Config, att: Attestation, stake: nat, s1: State)
    requires cfg.maxBlocksPerEpoch <= 0
    requires s1 == State(AddToTally(Counted(s.tracked, cfg, att, stake), att.epoch, att.blockHash, stake),
                         RecordMessage(s.messages, att), s.finality)
    ensures s1.messages == s.messages[att.epoch := VotesOf(s.messages, att.epoch)[att.validator := att.blockHash]]
    ensures s1.tracked.epochAttestations == Add(s.tracked.epochAttestations, att.epoch, att.blockHash, stake)
    ensures att.blockHash in s1.tracked.blockScores && att.blockHash in s1.tracked.blockEpochMap
    ensures s1.tracked.blockEpochMap[att.blockHash] == att.epoch
    ensures Counted(s.tracked, cfg, att, stake).epochAttestations == s.tracked.epochAttestations
  {
    CountedWithoutCap(s.tracked, cfg, att, stake);
    AddToTallyIs(Counted(s.tracked, cfg, att, stake), att.epoch, att.blockHash, stake);
  }

  lemma OutlivesIt(s1: State, table: Table, cfg: Config, removals: seq<Hash>, newest: nat, epoch: nat, h: Hash)
    requires CanHappen(s1, table, cfg, CleanedUp(removals)) && IsCurrent(s1.tracked.epochAttestations, newest)
    requires h in s1.tracked.blockScores && h in s1.tracked.blockEpochMap && s1.tracked.blockEpochMap[h] == epoch
    ensures Holds(Cleanup(s1, cfg, removals), s1.messages, s1.tracked.epochAttestations, s1.finality.finalized, cfg,
                  true, newest, epoch, h)
  {
    CleanupKeepsExactly(s1, table, cfg, removals, newest);
  }

  lemma RecordedIs(s: State, table: Table, cfg: Config, att: Attestation, stake: nat, removals: seq<Hash>, current: nat,
                   newest: nat)
    requires cfg.maxBlocksPerEpoch <= 0 && RecordChoice(s, cfg, att, stake, removals)
    requires IsCurrent(s.tracked.epochAttestations, current)
    requires newest == if att.epoch > current then att.epoch else current
    ensures Holds(Recorded(s, cfg, att, stake, removals),
                  s.messages[att.epoch := VotesOf(s.messages, att.epoch)[att.validator := att.blockHash]],
                  Add(s.tracked.epochAttestations, att.epoch, att.blockHash, stake), s.finality.finalized, cfg,
                  att.epoch !in s.tracked.epochAttestations, newest, att.epoch, att.blockHash)
  {
    var counted := Counted(s.tracked, cfg, att, stake);
    var s1 := State(AddToTally(counted, att.epoch, att.blockHash, stake), RecordMessage(s.messages, att), s.finality);
    BeforeCleanup(s, cfg, att, stake, s1);
    if att.epoch !in s.tracked.epochAttestations {
      CurrentAfter(s.tracked.epochAttestations, current, att.epoch, att.blockHash, stake);
      OutlivesIt(s1, table, cfg, removals, newest, att.epoch, att.blockHash);
    }
  }

  /**
   * Without a block cap, a counted attestation adds its stake to the tally of its epoch, and a cleanup follows exactly
   * when that epoch had no tally before: then the votes and tallies that outlive it stay, and otherwise all do.
   */
  lemma RecordingIs(s: State, table: Table, cfg: Config, att: Attestation, now: int, choice: Choice, current: nat,
                    newest: nat)
    requires cfg.maxBlocksPerEpoch <= 0 && Welcome(s, table, att, true) && !Repeats(s, att)
    requires Allowed(s, table, cfg, att, true, now, choice)
    requires IsCurrent(s.tracked.epochAttestations, current)
    requires newest == if att.epoch > current then att.epoch else current
    ensures Holds(Attest(s, table, cfg, att, true, now, choice),
                  s.messages[att.epoch := VotesOf(s.messages, att.epoch)[att.validator := att.blockHash]],
                  Add(s.tracked.epochAttestations, att.epoch, att.blockHash, table[att.validator].stake),
                  s.finality.finalized, cfg, att.epoch !in s.tracked.epochAttestations, newest, att.epoch,
                  att.blockHash)
  {
    var stake := table[att.validator].stake;
    assert Counts(s, table, att, true);
    var s1 := Recorded(s, cfg, att, stake, choice.removals);
    RecordedIs(s, table, cfg, att, stake, choice.removals, current, newest);
    AttestInTwoParts(s, table, cfg, att, now, choice, s1,
                     FinalityAfter(s, table, cfg, att, now, s1.tracked.epochAttestations, choice.best));
  }

  // ---- What is finalized ----

  /** The checkpoint is of the epoch two below, for a block with the largest tally there, at this time. */
  ghost predicate IsOfLargest(c: Option<Checkpoint>, tallies: Tallies, epoch: nat, total: nat, now: int) {
    && c.Some? && c.value.epoch + 2 == epoch && c.value.epoch in tallies
    && IsBest(tallies[c.value.epoch], c.value.blockHash)
    && c.value.attestingStake == tallies[c.value.epoch][c.value.blockHash]
    && c.value.totalStake == total && c.value.timestamp == now
  }

  lemma CheckedIsLargest(f: Finality, tallies: Tallies, total: nat, cfg: Config, epoch: nat, h: Hash, score: nat,
                         now: int, best: Hash)
    requires Justification(f, total) && score <= total
    requires QuorumChoice(f, tallies, total, cfg, epoch, h, score, now, best)
    ensures var c := CheckQuorum(f, tallies, total, cfg, epoch, h, score, now, best).finalized;
            c != f.finalized ==> IsOfLargest(c, tallies, epoch, total, now)
  {
    FinalizesIff(f, tallies, total, cfg, epoch, h, score, now, best);
    if CheckQuorum(f, tallies, total, cfg, epoch, h, score, now, best).finalized != f.finalized {
      var f1 := RefreshTotal(f, total, cfg, now);
      var justified := f1.(justified := Some(Checkpoint(epoch, h, now, score, total)));
      assert PeriodicCheckpoint(f1, cfg, epoch, h, score, total) == f1;
      assert EpochToFinalize(justified, tallies) == Some(epoch - 2);
    }
  }

  lemma FinalityAfterIsLargest(s: State, table: Table, cfg: Config, att: Attestation, now: int, tallies: Tallies,
                               best: Hash, f: Finality, total: nat, score: nat)
    requires att.validator in table && f == s.finality && total == TotalStake(table) && Justification(f, total)
    requires score == ScoreOf(s.tracked, att.blockHash) + table[att.validator].stake && score <= total
    requires FinalityChoice(s, table, cfg, att, now, tallies, best)
    ensures var c := FinalityAfter(s, table, cfg, att, now, tallies, best).finalized;
            c != f.finalized ==> IsOfLargest(c, tallies, att.epoch, total, now)
  {
    FinalityAfterIs(s, table, cfg, att, now, tallies, best, f, total, score);
    FinalityChoiceIs(s, table, cfg, att, now, tallies, best, f, total, score);
    CheckedIsLargest(f, tallies, total, cfg, att.epoch, att.blockHash, score, now, best);
  }

  /**
   * Whatever the iteration order, a block that an attestation finalizes has the largest tally of its epoch, which is
   * two below the attestation's own.
   */
  lemma FinalizedIsLargest(s: State, table: Table, cfg: Config, att: Attestation, admitted: bool, now: int,
                           choice: Choice)
    requires Books(s.tracked, table, cfg) && Justification(s.finality, TotalStake(table))
    requires Allowed(s, table, cfg, att, admitted, now, choice)
    ensures var t := Attest(s, table, cfg, att, admitted, now, choice);
            t.finality.finalized != s.finality.finalized ==>
              IsOfLargest(t.finality.finalized, t.tracked.epochAttestations, att.epoch, TotalStake(table), now)
  {
    if Counts(s, table, att, admitted) {
      var s1 := Recorded(s, cfg, att, table[att.validator].stake, choice.removals);
      var tallies := s1.tracked.epochAttestations;
      ScoreAfterNewAttester(s.tracked, table, cfg, att);
      FinalityAfterIsLargest(s, table, cfg, att, now, tallies, choice.best, s.finality, TotalStake(table),
                             ScoreOf(s.tracked, att.blockHash) + table[att.validator].stake);
      AttestInTwoParts(s, table, cfg, att, now, choice, s1,
                       FinalityAfter(s, table, cfg, att, now, tallies, choice.best));
    }
  }

  /**
   * UpdateFinalization finalizes the justified checkpoint if and only if the current epoch is at least the waiting
   * time ahead of it, two epochs unless more are configured, or behind it: the difference is unsigned.
   */
  lemma AutoFinalizesIff(f: Finality, currentEpoch: nat, finalizationEpochs: int, wait: int)
    requires currentEpoch < TWO_64 && (f.justified.Some? ==> f.justified.value.epoch < TWO_64)
    requires wait == if finalizationEpochs > 0 then finalizationEpochs else 2
    ensures var after := AutoFinalize(f, currentEpoch, finalizationEpochs);
            && after == f.(finalized := after.finalized)
            && if f.justified.Some? && (f.justified.value.epoch + wait <= currentEpoch
                                        || currentEpoch < f.justified.value.epoch <= currentEpoch + TWO_64 - wait)
               then after.finalized == f.justified
               else after.finalized == f.finalized
  {
  }

  // ---- The total ----

  /** The total is the stake of the active validators: each adds its own, and an inactive one nothing. */
  lemma TotalIs(table: Table, v: Addr, stake: nat, active: bool)
    requires v !in table
    ensures TotalStake(table[v := Validator(stake, active)]) == TotalStake(table) + if active then stake else 0
    ensures TotalStake(map[]) == 0
  {
    var larger := table[v := Validator(stake, active)];
    var none: Table := map[];
    assert Active(none) == {};
    SumCongruent(Active(table), Stake(table), Stake(larger));
    if active {
      assert Active(larger) == Active(table) + {v};
      SumAdd(Active(table), Stake(larger), v);
    } else {
      assert Active(larger) == Active(table);
    }
  }

  // ---- The cached total ----

  /** The active stake, and when it is asked for. */
  datatype Query = Query(active: nat, now: int)

  function After(cfg: Config, queries: seq<Query>): Finality {
    if queries == [] then EMPTY.finality else
      var q := queries[|queries| - 1];
      RefreshTotal(After(cfg, queries[..|queries| - 1]), q.active, cfg, q.now)
  }

  function Answer(cfg: Config, queries: seq<Query>): nat
    requires queries != []
  {
    var q := queries[|queries| - 1];
    TotalWithCache(After(cfg, queries[..|queries| - 1]), q.active, cfg, q.now)
  }

  lemma {:induction false} CacheIsFromAQuery(cfg: Config, queries: seq<Query>)
    ensures var f := After(cfg, queries);
            f.cachedTotal == 0 || exists j :: 0 <= j < |queries| && queries[j] == Query(f.cachedTotal, f.cachedAt)
    decreases |queries|
  {
    if queries != [] {
      var rest, n := queries[..|queries| - 1], |queries| - 1;
      CacheIsFromAQuery(cfg, rest);
      var f, g := After(cfg, rest), After(cfg, queries);
      if g == f && f.cachedTotal != 0 {
        var j :| 0 <= j < |rest| && rest[j] == Query(f.cachedTotal, f.cachedAt);
        assert queries[j] == rest[j];
      } else if g.cachedTotal != 0 {
        assert queries[n] == Query(g.cachedTotal, g.cachedAt);
      }
    }
  }

  /** Every answer is the active stake of this moment, or of an earlier query younger than the cache's lifetime. */
  lemma AnswerIsRecent(cfg: Config, queries: seq<Query>)
    requires queries != []
    ensures var n := |queries| - 1;
            exists j :: 0 <= j <= n && Answer(cfg, queries) == queries[j].active
                        && (j == n || queries[n].now - queries[j].now < cfg.stakeCacheTTL)
  {
    var n := |queries| - 1;
    var rest := queries[..n];
    CacheIsFromAQuery(cfg, rest);
    var f := After(cfg, rest);
    if queries[n].now - f.cachedAt < cfg.stakeCacheTTL && f.cachedTotal != 0 {
      var j :| 0 <= j < |rest| && rest[j] == Query(f.cachedTotal, f.cachedAt);
      assert queries[j] == rest[j];
    } else {
      assert Answer(cfg, queries) == queries[n].active;
    }
  }

  /** Within the lifetime of the first total, unless it is zero, every query is answered with it. */
  lemma {:induction false} AnswerIsKept(cfg: Config, queries: seq<Query>)
    requires queries != [] && queries[0].active != 0
    requires forall i | 0 < i < |queries| :: queries[i].now - queries[0].now < cfg.stakeCacheTTL
    ensures Answer(cfg, queries) == queries[0].active
    ensures After(cfg, queries) == EMPTY.finality.(cachedTotal := queries[0].active, cachedAt := queries[0].now)
    decreases |queries|
  {
    if |queries| > 1 {
      AnswerIsKept(cfg, queries[..|queries| - 1]);
    } else {
      assert queries[..0] == [];
    }
  }
}
