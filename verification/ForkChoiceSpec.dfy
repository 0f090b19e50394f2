/**
 * Fork choice as a state machine: what one attestation, one pruning and one cleanup do to the
 * maps of ForkChoice, as functions from state to state. Go's map iteration order shows up as an
 * explicit choice parameter.
 */
module ForkChoiceSpec {
  import opened Base
  import opened StakeSums

  datatype Validator = Validator(stake: nat, active: bool)

  /** The validator table that WorldStateReader gives access to. */
  type Table = map<Addr, Validator>

  datatype Attestation = Attestation(
    validator: Addr, blockHash: Hash, blockHeight: int, epoch: nat, slot: nat, timestamp: int)

  datatype Checkpoint = Checkpoint(
    epoch: nat, blockHash: Hash, timestamp: int, attestingStake: nat, totalStake: nat)

  datatype Config = Config(
    maxEpochsToKeep: nat,
    maxBlocksPerEpoch: int,
    maxAttestationsPerBlock: nat,
    stakeCacheTTL: int,
    checkpointInterval: int)

  /** The maps keyed by block, and the per-epoch maps that follow them. */
  datatype Tracked = Tracked(
    blockScores: map<Hash, nat>,
    attestationsByBlock: map<Hash, seq<Attestation>>,
    validatorAttestations: map<Hash, set<Addr>>,
    blockEpochMap: map<Hash, nat>,
    epochAttestations: map<nat, map<Hash, nat>>,
    epochBlockOrder: map<nat, seq<Hash>>)

  /** Epoch to validator to voted block. */
  type Messages = map<nat, map<Addr, Hash>>

  datatype Finality = Finality(
    justified: Option<Checkpoint>,
    finalized: Option<Checkpoint>,
    cachedTotal: nat,
    cachedAt: int)

  datatype State = State(tracked: Tracked, messages: Messages, finality: Finality)

  const EMPTY: State :=
    State(Tracked(map[], map[], map[], map[], map[], map[]), map[], Finality(None, None, 0, 0))

  /** Even if finality stalls, no more than this many epochs below the newest are kept. */
  const MAX_SAFETY_RETENTION: nat := 50
  const DEFAULT_CHECKPOINT_INTERVAL: nat := 10

  /** Where Go leaves the outcome to map iteration order. */
  datatype Choice = Choice(removals: seq<Hash>, best: Hash)

  // ---- Stake ----

  ghost function Active(table: Table): set<Addr> {
    set a | a in table && table[a].active
  }

  function Stake(table: Table): Addr -> nat {
    a => if a in table then table[a].stake else 0
  }

  ghost function TotalStake(table: Table): nat {
    Sum(Active(table), Stake(table))
  }

  /** Two thirds of the stake, rounded down, plus one. */
  function Threshold(total: nat): nat {
    total * 2 / 3 + 1
  }

  /** getTotalActiveStake when the active stake really sums to activeStake. */
  function TotalWithCache(f: Finality, activeStake: nat, cfg: Config, now: int): nat {
    if now - f.cachedAt < cfg.stakeCacheTTL && f.cachedTotal != 0 then f.cachedTotal else activeStake
  }

  function RefreshTotal(f: Finality, activeStake: nat, cfg: Config, now: int): Finality {
    if now - f.cachedAt < cfg.stakeCacheTTL && f.cachedTotal != 0 then f
    else f.(cachedTotal := activeStake, cachedAt := now)
  }

  // ---- Dropping one block ----

  function Without(order: seq<Hash>, h: Hash): seq<Hash> {
    if order == [] then []
    else (if order[0] != h then [order[0]] else []) + Without(order[1..], h)
  }

  lemma WithoutShrinks(order: seq<Hash>, h: Hash)
    ensures |Without(order, h)| <= |order|
  {
  }

  /** The block's epoch has an order list, so removing the block rewrites that list. */
  predicate Listed(t: Tracked, h: Hash) {
    h in t.blockEpochMap && t.blockEpochMap[h] in t.epochBlockOrder && t.epochBlockOrder[t.blockEpochMap[h]] != []
  }

  function OrderAfterRemoval(t: Tracked, h: Hash): map<nat, seq<Hash>> {
    if !Listed(t, h) then t.epochBlockOrder else
      var e := t.blockEpochMap[h];
      var kept := Without(t.epochBlockOrder[e], h);
      if kept == [] then t.epochBlockOrder - {e} else t.epochBlockOrder[e := kept]
  }

  function TallyAfterRemoval(t: Tracked, h: Hash): map<nat, map<Hash, nat>> {
    if h !in t.blockEpochMap || t.blockEpochMap[h] !in t.epochAttestations then t.epochAttestations else
      var e := t.blockEpochMap[h];
      var kept := t.epochAttestations[e] - {h};
      if kept == map[] then t.epochAttestations - {e} else t.epochAttestations[e := kept]
  }

  function RemoveTracked(t: Tracked, h: Hash): Tracked {
    Tracked(t.blockScores - {h}, t.attestationsByBlock - {h}, t.validatorAttestations - {h}, t.blockEpochMap - {h},
            TallyAfterRemoval(t, h), OrderAfterRemoval(t, h))
  }

  function RemoveAll(t: Tracked, hs: seq<Hash>): Tracked {
    if hs == [] then t else RemoveTracked(RemoveAll(t, hs[..|hs| - 1]), hs[|hs| - 1])
  }

  lemma {:induction false} RemoveAllKeys(t: Tracked, hs: seq<Hash>)
    ensures RemoveAll(t, hs).blockScores == t.blockScores - (set h | h in hs)
    ensures RemoveAll(t, hs).blockEpochMap == t.blockEpochMap - (set h | h in hs)
    decreases |hs|
  {
    if hs != [] {
      var rest := hs[..|hs| - 1];
      RemoveAllKeys(t, rest);
      assert (set h | h in hs) == (set h | h in rest) + {hs[|hs| - 1]};
    }
  }

  // ---- Pruning an epoch's order list ----

  /** The slice the map holds for this epoch; Go's nil when there is none. */
  function View(t: Tracked, epoch: nat): seq<Hash> {
    if epoch in t.epochBlockOrder then t.epochBlockOrder[epoch] else []
  }

  /**
   * The array behind the caller's slice after removing h. The removal filters the map's slice in
   * place, and that slice starts at the same array: the kept hashes are written over its front.
   */
  function BackingAfterRemoval(t: Tracked, epoch: nat, backing: seq<Hash>, h: Hash): (after: seq<Hash>)
    requires |View(t, epoch)| <= |backing|
    ensures |after| == |backing|
  {
    if Listed(t, h) && t.blockEpochMap[h] == epoch then
      var kept := Without(View(t, epoch), h);
      WithoutShrinks(View(t, epoch), h);
      kept + backing[|kept|..]
    else backing
  }

  lemma ViewShrinks(t: Tracked, epoch: nat, h: Hash)
    ensures |View(RemoveTracked(t, h), epoch)| <= |View(t, epoch)|
  {
    WithoutShrinks(View(t, epoch), h);
  }

  /** The pruning loop with `start` entries of the slice already dropped. */
  function PruneFrom(t: Tracked, epoch: nat, limit: nat, backing: seq<Hash>, start: nat): Tracked
    requires start <= |backing| && |View(t, epoch)| <= |backing|
    decreases |backing| - start
  {
    if |backing| - start > limit then
      var oldest := backing[start];
      ViewShrinks(t, epoch, oldest);
      PruneFrom(RemoveTracked(t, oldest), epoch, limit, BackingAfterRemoval(t, epoch, backing, oldest), start + 1)
    else if start == |backing| then t.(epochBlockOrder := t.epochBlockOrder - {epoch})
    else t.(epochBlockOrder := t.epochBlockOrder[epoch := backing[start..]])
  }

  function Prune(t: Tracked, cfg: Config, epoch: nat): Tracked {
    if cfg.maxBlocksPerEpoch <= 0 then t
    else PruneFrom(t, epoch, cfg.maxBlocksPerEpoch, View(t, epoch), 0)
  }

  // ---- Cleanup of old epochs ----

  ghost function MaxOf(keys: set<nat>): (m: nat)
    ensures forall k | k in keys :: k <= m
    ensures if keys == {} then m == 0 else m in keys
  {
    if keys == {} then 0 else
      var k :| k in keys;
      var rest := MaxOf(keys - {k});
      assert forall x | x in keys :: x == k || x in keys - {k};
      if rest > k then rest else k
  }

  ghost function CurrentEpoch(t: Tracked): nat {
    MaxOf(t.epochAttestations.Keys)
  }

  function MinusOrZero(a: nat, b: nat): nat {
    if a > b then a - b else 0
  }

  /** The oldest epoch a cleanup keeps, given the newest one tracked. */
  function Cutoff(finalized: Option<Checkpoint>, cfg: Config, currentEpoch: nat): nat {
    var wanted :=
      if finalized.Some? then MinusOrZero(finalized.value.epoch, 2)
      else MinusOrZero(currentEpoch, cfg.maxEpochsToKeep);
    var floor := MinusOrZero(currentEpoch, MAX_SAFETY_RETENTION);
    if wanted < floor then floor else wanted
  }

  function KeepFrom<V>(m: map<nat, V>, cutoff: nat): map<nat, V> {
    map e | e in m && e >= cutoff :: m[e]
  }

  /** Order lists go only with a tally that goes. */
  function DroppedEpochs(t: Tracked, cutoff: nat): set<nat> {
    set e | e in t.epochAttestations && e < cutoff
  }

  function DropOldEpochs(t: Tracked, cutoff: nat): Tracked {
    t.(epochAttestations := KeepFrom(t.epochAttestations, cutoff),
       epochBlockOrder := t.epochBlockOrder - DroppedEpochs(t, cutoff))
  }

  function DropOldMessages(m: Messages, cutoff: nat): Messages {
    KeepFrom(m, cutoff)
  }

  predicate IsStale(t: Tracked, cutoff: nat, h: Hash) {
    h in t.blockScores && (h !in t.blockEpochMap || t.blockEpochMap[h] < cutoff)
  }

  ghost predicate Distinct<T>(q: seq<T>) {
    forall i, j | 0 <= i < j < |q| :: q[i] != q[j]
  }

  /** hs lists the stale blocks in the order the map iteration happened to visit them. */
  ghost predicate ListsStale(t: Tracked, cutoff: nat, hs: seq<Hash>) {
    Distinct(hs) && forall h :: h in hs <==> IsStale(t, cutoff, h)
  }

  /** Staleness does not look at the per-epoch maps. */
  lemma StaleAfterDrop(before: Tracked, between: Tracked, cutoff: nat, removals: seq<Hash>)
    requires between == DropOldEpochs(before, cutoff) && ListsStale(between, cutoff, removals)
    ensures ListsStale(before, cutoff, removals)
  {
    assert forall h :: IsStale(before, cutoff, h) <==> IsStale(between, cutoff, h);
  }

  function CleanupTracked(t: Tracked, cutoff: nat, removals: seq<Hash>): Tracked {
    RemoveAll(DropOldEpochs(t, cutoff), removals)
  }

  ghost function CutoffOf(s: State, cfg: Config): nat {
    Cutoff(s.finality.finalized, cfg, CurrentEpoch(s.tracked))
  }

  /** CleanupOldEpochs. */
  ghost function Cleanup(s: State, cfg: Config, removals: seq<Hash>): State {
    State(CleanupTracked(s.tracked, CutoffOf(s, cfg), removals), DropOldMessages(s.messages, CutoffOf(s, cfg)),
          s.finality)
  }

  // ---- Checkpoints ----

  function Interval(cfg: Config): (n: nat)
    ensures n > 0
  {
    if cfg.checkpointInterval > 0 then cfg.checkpointInterval else DEFAULT_CHECKPOINT_INTERVAL
  }

  function PeriodicCheckpoint(f: Finality, cfg: Config, epoch: nat, h: Hash, attesting: nat, total: nat): Finality {
    if epoch % Interval(cfg) != 0 then f
    else f.(justified := Some(Checkpoint(epoch, h, 0, attesting, total)))
  }

  /** h has the largest tally; on ties Go's iteration order decides which. */
  ghost predicate IsBest(tally: map<Hash, nat>, h: Hash) {
    h in tally && forall x | x in tally :: tally[x] <= tally[h]
  }

  /** The epoch checkFinalization would finalize now, if any. */
  function EpochToFinalize(f: Finality, tallies: map<nat, map<Hash, nat>>): Option<nat> {
    if f.justified.None? || f.justified.value.epoch < 2 then None else
      var e := f.justified.value.epoch - 2;
      if f.finalized.Some? && f.finalized.value.epoch >= e then None
      else if e in tallies && tallies[e] != map[] then Some(e)
      else None
  }

  function Finalize(f: Finality, tallies: map<nat, map<Hash, nat>>, activeStake: nat, cfg: Config, now: int,
                    best: Hash): Finality {
    match EpochToFinalize(f, tallies)
    case None => f
    case Some(e) =>
      if best == "" || best !in tallies[e] then f else
        var total := TotalWithCache(f, activeStake, cfg, now);
        RefreshTotal(f, activeStake, cfg, now).(
          finalized := Some(Checkpoint(e, best, now, tallies[e][best], total)))
  }

  function Justify(f: Finality, tallies: map<nat, map<Hash, nat>>, activeStake: nat, cfg: Config,
                   epoch: nat, h: Hash, attesting: nat, total: nat, now: int, best: Hash): Finality {
    if attesting < Threshold(total) then f
    else if f.justified.Some? && f.justified.value.epoch >= epoch then f
    else Finalize(f.(justified := Some(Checkpoint(epoch, h, now, attesting, total))), tallies, activeStake, cfg, now,
                  best)
  }

  /** Step 7 of an attestation: quorum, periodic checkpoint, justification. */
  function CheckQuorum(f: Finality, tallies: map<nat, map<Hash, nat>>, activeStake: nat, cfg: Config,
                       epoch: nat, h: Hash, score: nat, now: int, best: Hash): Finality {
    var total := TotalWithCache(f, activeStake, cfg, now);
    var f1 := RefreshTotal(f, activeStake, cfg, now);
    if score < Threshold(total) then f1
    else
      Justify(PeriodicCheckpoint(f1, cfg, epoch, h, score, total),
              tallies, activeStake, cfg, epoch, h, score, total, now, best)
  }

  function Wait(finalizationEpochs: int): int {
    if finalizationEpochs > 0 then finalizationEpochs else 2
  }

  /**
   * UpdateFinalization, with a wait of two epochs when none is configured. The age is an unsigned
   * difference, and no epoch is compared with the one already finalized.
   */
  function AutoFinalize(f: Finality, currentEpoch: nat, finalizationEpochs: int): Finality {
    if f.justified.Some? && SubU64(currentEpoch % TWO_64, f.justified.value.epoch % TWO_64) >= Wait(finalizationEpochs)
    then f.(finalized := f.justified) else f
  }

  // ---- One attestation ----

  function VotesOf(m: Messages, epoch: nat): map<Addr, Hash> {
    if epoch in m then m[epoch] else map[]
  }

  function AttestersOf(t: Tracked, h: Hash): set<Addr> {
    if h in t.validatorAttestations then t.validatorAttestations[h] else {}
  }

  function ScoreOf(t: Tracked, h: Hash): nat {
    if h in t.blockScores then t.blockScores[h] else 0
  }

  function StoredFor(t: Tracked, h: Hash): seq<Attestation> {
    if h in t.attestationsByBlock then t.attestationsByBlock[h] else []
  }

  predicate Equivocates(m: Messages, att: Attestation) {
    var votes := VotesOf(m, att.epoch);
    att.validator in votes && votes[att.validator] != att.blockHash
  }

  /** Step 2: the vote is recorded as the validator's message of that epoch. */
  function RecordMessage(m: Messages, att: Attestation): Messages {
    m[att.epoch := VotesOf(m, att.epoch)[att.validator := att.blockHash]]
  }

  /** Steps 3 to 5: the attester, the stored attestation, the block's score and epoch. */
  function RecordAttester(t: Tracked, cfg: Config, att: Attestation, stake: nat): Tracked {
    var h := att.blockHash;
    var stored := StoredFor(t, h);
    t.(validatorAttestations := t.validatorAttestations[h := AttestersOf(t, h) + {att.validator}],
       attestationsByBlock := t.attestationsByBlock[h :=
         if |stored| < cfg.maxAttestationsPerBlock then stored + [att] else stored],
       blockScores := t.blockScores[h := ScoreOf(t, h) + stake],
       blockEpochMap := t.blockEpochMap[h := att.epoch])
  }

  function TrackNewBlock(t: Tracked, cfg: Config, epoch: nat, h: Hash): Tracked {
    Prune(t.(epochBlockOrder := t.epochBlockOrder[epoch := View(t, epoch) + [h]]), cfg, epoch)
  }

  function Counted(t: Tracked, cfg: Config, att: Attestation, stake: nat): Tracked {
    var t1 := RecordAttester(t, cfg, att, stake);
    if att.blockHash in t.blockScores then t1 else TrackNewBlock(t1, cfg, att.epoch, att.blockHash)
  }

  /** Step 6: the per-epoch tally. */
  function AddToTally(t: Tracked, epoch: nat, h: Hash, stake: nat): Tracked {
    var tally := if epoch in t.epochAttestations then t.epochAttestations[epoch] else map[];
    var before := if h in tally then tally[h] else 0;
    t.(epochAttestations := t.epochAttestations[epoch := tally[h := before + stake]])
  }

  /** The attestation passes every early return of ProcessAttestation. */
  ghost predicate Counts(s: State, table: Table, att: Attestation, admitted: bool) {
    && admitted
    && att.validator in Active(table)
    && !Equivocates(s.messages, att)
    && att.validator !in AttestersOf(s.tracked, att.blockHash)
  }

  /** Steps 2 to 6 of an attestation that counts. */
  ghost function Recorded(s: State, cfg: Config, att: Attestation, stake: nat, removals: seq<Hash>): State {
    var counted := Counted(s.tracked, cfg, att, stake);
    var s1 := State(AddToTally(counted, att.epoch, att.blockHash, stake), RecordMessage(s.messages, att), s.finality);
    if att.epoch in counted.epochAttestations then s1 else Cleanup(s1, cfg, removals)
  }

  ghost function FinalityAfter(s: State, table: Table, cfg: Config, att: Attestation, now: int,
                               tallies: map<nat, map<Hash, nat>>, best: Hash): Finality
    requires att.validator in table
  {
    CheckQuorum(s.finality, tallies, TotalStake(table), cfg, att.epoch, att.blockHash,
                ScoreOf(s.tracked, att.blockHash) + table[att.validator].stake, now, best)
  }

  /**
   * ProcessAttestation. `admitted` is the verdict of the slashing manager: false when it reports a
   * violation or an inactive validator.
   */
  ghost function Attest(s: State, table: Table, cfg: Config, att: Attestation, admitted: bool, now: int,
                        choice: Choice): State {
    if !admitted || att.validator !in Active(table) || Equivocates(s.messages, att) then s
    else if !Counts(s, table, att, admitted) then s.(messages := RecordMessage(s.messages, att))
    else
      var s1 := Recorded(s, cfg, att, table[att.validator].stake, choice.removals);
      State(s1.tracked, s1.messages,
            FinalityAfter(s, table, cfg, att, now, s1.tracked.epochAttestations, choice.best))
  }

  // ---- The choices Go's map iteration can make ----

  ghost predicate FinalizeChoice(f: Finality, tallies: map<nat, map<Hash, nat>>, best: Hash) {
    forall e | EpochToFinalize(f, tallies) == Some(e) :: IsBest(tallies[e], best)
  }

  ghost predicate JustifyChoice(f: Finality, tallies: map<nat, map<Hash, nat>>, epoch: nat, h: Hash, attesting: nat,
                                total: nat, now: int, best: Hash) {
    attesting >= Threshold(total) && (f.justified.Some? ==> f.justified.value.epoch < epoch) ==>
      FinalizeChoice(f.(justified := Some(Checkpoint(epoch, h, now, attesting, total))), tallies, best)
  }

  ghost predicate QuorumChoice(f: Finality, tallies: map<nat, map<Hash, nat>>, activeStake: nat, cfg: Config,
                               epoch: nat, h: Hash, score: nat, now: int, best: Hash) {
    var total := TotalWithCache(f, activeStake, cfg, now);
    var f1 := PeriodicCheckpoint(RefreshTotal(f, activeStake, cfg, now), cfg, epoch, h, score, total);
    score >= Threshold(total) ==> JustifyChoice(f1, tallies, epoch, h, score, total, now, best)
  }

  /** removals is an order in which the cleanup of this attestation, if it runs one, can visit the stale blocks. */
  ghost predicate RecordChoice(s: State, cfg: Config, att: Attestation, stake: nat, removals: seq<Hash>) {
    var counted := Counted(s.tracked, cfg, att, stake);
    var s1 := State(AddToTally(counted, att.epoch, att.blockHash, stake), RecordMessage(s.messages, att), s.finality);
    att.epoch !in counted.epochAttestations ==> ListsStale(s1.tracked, CutoffOf(s1, cfg), removals)
  }

  ghost predicate FinalityChoice(s: State, table: Table, cfg: Config, att: Attestation, now: int,
                                 tallies: map<nat, map<Hash, nat>>, best: Hash)
    requires att.validator in table
  {
    QuorumChoice(s.finality, tallies, TotalStake(table), cfg, att.epoch, att.blockHash,
                 ScoreOf(s.tracked, att.blockHash) + table[att.validator].stake, now, best)
  }

  /** choice is one that some run of the Go code can make at this attestation. */
  ghost predicate Allowed(s: State, table: Table, cfg: Config, att: Attestation, admitted: bool, now: int,
                          choice: Choice) {
    Counts(s, table, att, admitted) ==>
      var stake := table[att.validator].stake;
      && RecordChoice(s, cfg, att, stake, choice.removals)
      && FinalityChoice(s, table, cfg, att, now,
                        Recorded(s, cfg, att, stake, choice.removals).tracked.epochAttestations, choice.best)
  }

  /** FinalityAfter names its arguments. */
  lemma FinalityAfterIs(s: State, table: Table, cfg: Config, att: Attestation, now: int,
                        tallies: map<nat, map<Hash, nat>>, best: Hash,
                        f0: Finality, total: nat, score: nat)
    requires att.validator in table
    requires f0 == s.finality && total == TotalStake(table)
    requires score == ScoreOf(s.tracked, att.blockHash) + table[att.validator].stake
    ensures FinalityAfter(s, table, cfg, att, now, tallies, best) ==
            CheckQuorum(f0, tallies, total, cfg, att.epoch, att.blockHash, score, now, best)
  {
  }

  /** The effect of an attestation that counts, put together from its recording and its quorum check. */
  lemma AttestInTwoParts(s: State, table: Table, cfg: Config, att: Attestation, now: int, choice: Choice, s1: State,
                         f: Finality)
    requires Counts(s, table, att, true)
    requires s1 == Recorded(s, cfg, att, table[att.validator].stake, choice.removals)
    requires f == FinalityAfter(s, table, cfg, att, now, s1.tracked.epochAttestations, choice.best)
    ensures Attest(s, table, cfg, att, true, now, choice) == State(s1.tracked, s1.messages, f)
  {
  }

  /** Likewise for the choices it makes. */
  lemma FinalityChoiceIs(s: State, table: Table, cfg: Config, att: Attestation, now: int,
                         tallies: map<nat, map<Hash, nat>>, best: Hash,
                         f0: Finality, total: nat, score: nat)
    requires att.validator in table
    requires f0 == s.finality && total == TotalStake(table)
    requires score == ScoreOf(s.tracked, att.blockHash) + table[att.validator].stake
    ensures FinalityChoice(s, table, cfg, att, now, tallies, best) ==
            QuorumChoice(f0, tallies, total, cfg, att.epoch, att.blockHash, score, now, best)
  {
  }

  lemma AllowedInTwoParts(s: State, table: Table, cfg: Config, att: Attestation, now: int, choice: Choice, s1: State)
    requires Counts(s, table, att, true)
    requires RecordChoice(s, cfg, att, table[att.validator].stake, choice.removals)
    requires s1 == Recorded(s, cfg, att, table[att.validator].stake, choice.removals)
    requires FinalityChoice(s, table, cfg, att, now, s1.tracked.epochAttestations, choice.best)
    ensures Allowed(s, table, cfg, att, true, now, choice)
  {
  }

  /** An attestation that counts, put together from its recording and its quorum check. */
  lemma CountedAttestation(s: State, table: Table, cfg: Config, att: Attestation, now: int, choice: Choice, s1: State,
                           f: Finality)
    requires Counts(s, table, att, true)
    requires RecordChoice(s, cfg, att, table[att.validator].stake, choice.removals)
    requires s1 == Recorded(s, cfg, att, table[att.validator].stake, choice.removals)
    requires FinalityChoice(s, table, cfg, att, now, s1.tracked.epochAttestations, choice.best)
    requires f == FinalityAfter(s, table, cfg, att, now, s1.tracked.epochAttestations, choice.best)
    ensures Allowed(s, table, cfg, att, true, now, choice)
    ensures Attest(s, table, cfg, att, true, now, choice) == State(s1.tracked, s1.messages, f)
  {
    AllowedInTwoParts(s, table, cfg, att, now, choice, s1);
    AttestInTwoParts(s, table, cfg, att, now, choice, s1, f);
  }
}
