/** Subtree weights against the rule they are named after: only the latest vote of each validator. */
module LatestVotes {
  import opened Base
  import opened StakeSums
  import opened BlockTree
  import opened ChainTraversal
  import opened ForkChoiceSpec
  import opened ForkTree
  import opened EpochWrap

  /** The validator has voted again in a later epoch. */
  ghost predicate Superseded(m: Messages, e: nat, v: Addr) {
    exists later :: later in m && later > e && v in m[later]
  }

  /** The votes for a subtree under the rule: the latest one of each validator. */
  ghost function LatestSupporters(store: Store, table: Table, m: Messages, currentEpoch: nat,
                                  root: Hash): set<(nat, Addr)> {
    set vote | vote in Supporters(store, table, m, currentEpoch, root) && !Superseded(m, vote.0, vote.1)
  }

  ghost function LatestStake(store: Store, table: Table, m: Messages, currentEpoch: nat, root: Hash): nat {
    Sum(LatestSupporters(store, table, m, currentEpoch, root), VoteWeight(table, currentEpoch))
  }

  /** The rule counts nobody twice. */
  lemma LatestIsOnePerValidator(store: Store, table: Table, m: Messages, currentEpoch: nat, root: Hash, e: nat,
                                e': nat, v: Addr)
    requires (e, v) in LatestSupporters(store, table, m, currentEpoch, root)
    requires (e', v) in LatestSupporters(store, table, m, currentEpoch, root)
    ensures e == e'
  {
    assert !Superseded(m, e, v) && !Superseded(m, e', v);
  }

  /** The superseded votes that are counted all the same. */
  ghost function Stale(store: Store, table: Table, m: Messages, currentEpoch: nat, root: Hash): set<(nat, Addr)> {
    set vote | vote in Supporters(store, table, m, currentEpoch, root) && Superseded(m, vote.0, vote.1)
  }

  lemma StaleWeight(store: Store, table: Table, m: Messages, currentEpoch: nat, root: Hash)
    ensures SubtreeStake(store, table, m, currentEpoch, root) ==
            LatestStake(store, table, m, currentEpoch, root)
            + Sum(Stale(store, table, m, currentEpoch, root), VoteWeight(table, currentEpoch))
  {
    var latest := LatestSupporters(store, table, m, currentEpoch, root);
    var stale := Stale(store, table, m, currentEpoch, root);
    assert Supporters(store, table, m, currentEpoch, root) == latest + stale;
    SumUnion(latest, stale, VoteWeight(table, currentEpoch));
  }

  lemma SameWeightIff(store: Store, table: Table, m: Messages, currentEpoch: nat, root: Hash)
    ensures SubtreeStake(store, table, m, currentEpoch, root) == LatestStake(store, table, m, currentEpoch, root) <==>
            forall vote | vote in Stale(store, table, m, currentEpoch, root) ::
              VoteWeight(table, currentEpoch)(vote) == 0
  {
    StaleWeight(store, table, m, currentEpoch, root);
    WeightlessSumIff(Stale(store, table, m, currentEpoch, root), VoteWeight(table, currentEpoch));
  }

  /** An active validator's vote that passes the epoch test and carries weight, after which they have voted again. */
  ghost predicate CountsStill(table: Table, m: Messages, currentEpoch: nat, e: nat, v: Addr) {
    && e in m && v in m[e] && e >= SubU64(currentEpoch, 2) && v in Active(table)
    && VoteWeight(table, currentEpoch)((e, v)) > 0 && Superseded(m, e, v)
  }

  /**
   * Every subtree weighs what the latest votes say if and only if no superseded vote is still counted: no active
   * validator has voted in two epochs the test lets through, unless the earlier vote has decayed to nothing.
   */
  lemma LatestOnlyIff(store: Store, table: Table, m: Messages, currentEpoch: nat)
    ensures (forall root ::
               SubtreeStake(store, table, m, currentEpoch, root) == LatestStake(store, table, m, currentEpoch, root))
            <==> !exists e, v :: CountsStill(table, m, currentEpoch, e, v)
  {
    if e, v :| CountsStill(table, m, currentEpoch, e, v) {
      var root := m[e][v];
      assert Reaches(store, root, root, 0);
      assert (e, v) in Stale(store, table, m, currentEpoch, root);
      SameWeightIff(store, table, m, currentEpoch, root);
    } else {
      forall root
        ensures SubtreeStake(store, table, m, currentEpoch, root) == LatestStake(store, table, m, currentEpoch, root)
      {
        forall vote | vote in Stale(store, table, m, currentEpoch, root)
          ensures VoteWeight(table, currentEpoch)(vote) == 0
        {
          assert !CountsStill(table, m, currentEpoch, vote.0, vote.1);
        }
        SameWeightIff(store, table, m, currentEpoch, root);
      }
    }
  }

  /** The epochs whose votes one validator has counted for a subtree. */
  ghost function EpochsCounted(store: Store, table: Table, m: Messages, currentEpoch: nat, root: Hash,
                               v: Addr): set<nat> {
    set e | e in m && (e, v) in Supporters(store, table, m, currentEpoch, root)
  }

  lemma NoLarger(s: set<nat>, t: set<nat>)
    requires s <= t
    ensures |s| <= |t|
  {
    assert t == s + (t - s);
  }

  lemma ThreeEpochs(c: nat)
    requires c >= 2
    ensures |{c - 2, c - 1, c}| == 3
  {
  }

  /** From epoch two on, with no votes ahead of the current epoch, nobody weighs more than three times. */
  lemma AtMostThreeTimes(store: Store, table: Table, m: Messages, currentEpoch: nat, root: Hash, v: Addr)
    requires 2 <= currentEpoch < TWO_64 && forall e | e in m :: e <= currentEpoch
    ensures |EpochsCounted(store, table, m, currentEpoch, root, v)| <= 3
  {
    var recent: set<nat> := {currentEpoch - 2, currentEpoch - 1, currentEpoch};
    var counted := EpochsCounted(store, table, m, currentEpoch, root, v);
    forall e | e in counted ensures e in recent { PassesIff(e, currentEpoch); }
    NoLarger(counted, recent);
    ThreeEpochs(currentEpoch);
  }

  /** One validator's votes for one block in the current epoch and the two before. */
  ghost predicate Thrice(m: Messages, h: Hash, v: Addr, c: nat) {
    c >= 2 && m.Keys == {c - 2, c - 1, c} && forall e | e in m :: m[e] == map[v := h]
  }

  lemma AllSupport(store: Store, table: Table, m: Messages, h: Hash, v: Addr, c: nat)
    requires Thrice(m, h, v, c) && v in Active(table) && c < TWO_64
    ensures Supporters(store, table, m, c, h) == set e | e in m :: (e, v)
  {
    assert Reaches(store, h, h, 0);
    forall e | e in m ensures IsSupporter(store, table, m, c, h, e, v) { PassesIff(e, c); }
  }

  lemma TwoAreSuperseded(m: Messages, h: Hash, v: Addr, c: nat)
    requires Thrice(m, h, v, c)
    ensures forall e | e in m :: Superseded(m, e, v) <==> e < c
  {
    assert c in m && v in m[c];
  }

  lemma ThriceSets(store: Store, table: Table, m: Messages, h: Hash, v: Addr, c: nat)
    requires Thrice(m, h, v, c) && v in Active(table) && c < TWO_64
    ensures LatestSupporters(store, table, m, c, h) == {(c, v)}
    ensures Stale(store, table, m, c, h) == {(c - 2, v)} + {(c - 1, v)}
  {
    AllSupport(store, table, m, h, v, c);
    TwoAreSuperseded(m, h, v, c);
  }

  lemma SumOfOne(vote: (nat, Addr), w: ((nat, Addr)) -> nat)
    ensures Sum({vote}, w) == w(vote)
  {
    SumRemove({vote}, w, vote);
    assert {vote} - {vote} == {};
  }

  lemma SumOfTwo(a: (nat, Addr), b: (nat, Addr), w: ((nat, Addr)) -> nat)
    requires a != b
    ensures Sum({a} + {b}, w) == w(a) + w(b)
  {
    SumOfOne(a, w);
    SumAdd({a}, w, b);
  }

  /** And three times is what a validator weighs who votes for one block in each of three epochs. */
  lemma ThreeTimes(store: Store, table: Table, m: Messages, h: Hash, v: Addr, c: nat)
    requires Thrice(m, h, v, c) && v in Active(table) && c < TWO_64
    ensures var w := VoteWeight(table, c);
            && SubtreeStake(store, table, m, c, h) == w((c - 2, v)) + w((c - 1, v)) + w((c, v))
            && LatestStake(store, table, m, c, h) == w((c, v))
  {
    var w := VoteWeight(table, c);
    ThriceSets(store, table, m, h, v, c);
    StaleWeight(store, table, m, c, h);
    SumOfOne((c, v), w);
    SumOfTwo((c - 2, v), (c - 1, v), w);
  }

  // ---- Repeated attestations ----

  function Again(h: Hash, v: Addr, epoch: nat, now: int): Attestation {
    Attestation(v, h, 0, epoch, 0, now)
  }

  /** The votes once v has voted for h again in each of the n epochs after c. */
  function WithRepeats(m: Messages, h: Hash, v: Addr, c: nat, n: nat, now: int): Messages {
    if n == 0 then m else RecordMessage(WithRepeats(m, h, v, c, n - 1, now), Again(h, v, c + n, now))
  }

  lemma {:induction false} LaterAreFree(m: Messages, h: Hash, v: Addr, c: nat, n: nat, now: int, e: nat)
    requires e > c + n && v !in VotesOf(m, e)
    ensures v !in VotesOf(WithRepeats(m, h, v, c, n, now), e)
    decreases n
  {
    if n > 0 { LaterAreFree(m, h, v, c, n - 1, now, e); }
  }

  /** A vote of the current epoch or later adds its full stake to the block it is for. */
  lemma VoteAddsStake(store: Store, table: Table, m: Messages, c: nat, att: Attestation)
    requires 2 <= c < TWO_64 && c <= att.epoch && att.validator in Active(table)
    requires att.validator !in VotesOf(m, att.epoch)
    ensures SubtreeStake(store, table, RecordMessage(m, att), c, att.blockHash) ==
            SubtreeStake(store, table, m, c, att.blockHash) + table[att.validator].stake
  {
    var m', root, vote := RecordMessage(m, att), att.blockHash, (att.epoch, att.validator);
    var before, after := Supporters(store, table, m, c, root), Supporters(store, table, m', c, root);
    PassesIff(att.epoch, c);
    assert Reaches(store, root, root, 0);
    assert IsSupporter(store, table, m', c, root, att.epoch, att.validator);
    assert after == before + {vote};
    SumAdd(before, VoteWeight(table, c), vote);
  }

  lemma OneMoreTime(n: nat, stake: nat)
    requires n > 0
    ensures n * stake == (n - 1) * stake + stake
  {
  }

  /** One more repetition, with what the others add up to. */
  lemma RepeatWeighs(store: Store, table: Table, m: Messages, h: Hash, v: Addr, c: nat, n: nat, now: int, weight: nat)
    requires 2 <= c < TWO_64 && v in Active(table) && n > 0 && v !in VotesOf(m, c + n)
    requires SubtreeStake(store, table, WithRepeats(m, h, v, c, n - 1, now), c, h) == weight
    ensures SubtreeStake(store, table, WithRepeats(m, h, v, c, n, now), c, h) == weight + table[v].stake
  {
    LaterAreFree(m, h, v, c, n - 1, now, c + n);
    VoteAddsStake(store, table, WithRepeats(m, h, v, c, n - 1, now), c, Again(h, v, c + n, now));
  }

  lemma {:induction false} RepeatsWeigh(store: Store, table: Table, m: Messages, h: Hash, v: Addr, c: nat, n: nat,
                                        now: int, stake: nat)
    requires 2 <= c < TWO_64 && v in Active(table) && stake == table[v].stake
    requires forall e | c < e <= c + n :: v !in VotesOf(m, e)
    ensures SubtreeStake(store, table, WithRepeats(m, h, v, c, n, now), c, h) ==
            SubtreeStake(store, table, m, c, h) + n * stake
    decreases n
  {
    if n > 0 {
      RepeatsWeigh(store, table, m, h, v, c, n - 1, now, stake);
      RepeatWeighs(store, table, m, h, v, c, n, now, SubtreeStake(store, table, m, c, h) + (n - 1) * stake);
      OneMoreTime(n, stake);
    }
  }

  lemma RepeatIsOnlyRecorded(s: State, table: Table, cfg: Config, att: Attestation, now: int, choice: Choice)
    requires att.validator in Active(table) && att.validator in AttestersOf(s.tracked, att.blockHash)
    requires att.validator !in VotesOf(s.messages, att.epoch)
    ensures Allowed(s, table, cfg, att, true, now, choice)
    ensures Attest(s, table, cfg, att, true, now, choice) == s.(messages := RecordMessage(s.messages, att))
  {
  }

  /** The states that these attestations run through. */
  ghost predicate Repeats(states: seq<State>, table: Table, cfg: Config, h: Hash, v: Addr, c: nat, now: int,
                          choice: Choice) {
    && states != []
    && forall i | 0 <= i < |states| - 1 ::
         states[i + 1] == Attest(states[i], table, cfg, Again(h, v, c + i + 1, now), true, now, choice)
  }

  lemma {:induction false} RepeatsAreOnlyRecorded(states: seq<State>, s: State, table: Table, cfg: Config, h: Hash,
                                                  v: Addr, c: nat, now: int, choice: Choice, i: nat)
    requires Repeats(states, table, cfg, h, v, c, now, choice) && s == states[0] && i < |states|
    requires v in Active(table) && v in AttestersOf(s.tracked, h)
    requires forall e | c < e < c + |states| :: v !in VotesOf(s.messages, e)
    ensures states[i] == s.(messages := WithRepeats(s.messages, h, v, c, i, now))
    decreases i
  {
    if i > 0 {
      RepeatsAreOnlyRecorded(states, s, table, cfg, h, v, c, now, choice, i - 1);
      LaterAreFree(s.messages, h, v, c, i - 1, now, c + i);
      RepeatIsOnlyRecorded(states[i - 1], table, cfg, Again(h, v, c + i, now), now, choice);
      assert states[i - 1 + 1] == states[i];
    }
  }

  /**
   * Attesting a block again in later epochs leaves the books as they are, and with them the current epoch, but each
   * time it adds the validator's full stake to the weight of the block.
   */
  lemma RepeatsAddWeight(store: Store, states: seq<State>, table: Table, cfg: Config, h: Hash, v: Addr, c: nat,
                         now: int, choice: Choice, n: nat)
    requires Repeats(states, table, cfg, h, v, c, now, choice) && n == |states| - 1
    requires v in Active(table) && v in AttestersOf(states[0].tracked, h)
    requires c == CurrentEpoch(states[0].tracked) && 2 <= c && c + n < TWO_64
    requires forall e | c < e < c + |states| :: v !in VotesOf(states[0].messages, e)
    ensures states[n].tracked == states[0].tracked && states[n].finality == states[0].finality
    ensures SubtreeStake(store, table, states[n].messages, c, h) ==
            SubtreeStake(store, table, states[0].messages, c, h) + n * table[v].stake
  {
    RepeatsAreOnlyRecorded(states, states[0], table, cfg, h, v, c, now, choice, n);
    RepeatsWeigh(store, table, states[0].messages, h, v, c, n, now, table[v].stake);
  }
}
