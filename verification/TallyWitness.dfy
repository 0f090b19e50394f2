/** A run in which a tally counts one vote twice, and a minority's block is finalized with a quorum on record. */
module TallyWitness {
  import opened Base
  import opened StakeSums
  import opened ForkChoiceSpec
  import opened ForkChoiceInvariants
  import opened ForkChoiceEffects

  /** One block per epoch, checkpoints every ten epochs, no caching of the total stake. */
  const CONFIG := Config(50, 1, 5, 0, 0)

  // ---- Attestations without the stored copies ----

  function Forget(t: Tracked): Tracked {
    t.(attestationsByBlock := map[])
  }

  /** Counted, for lists of at most one entry. */
  function CountedOn(k: Tracked, att: Attestation, stake: nat): Tracked {
    var k1 := Forget(RecordAttester(k, CONFIG, att, stake));
    if att.blockHash in k.blockScores then k1 else
      var order := View(k1, att.epoch) + [att.blockHash];
      var k2 := k1.(epochBlockOrder := k1.epochBlockOrder[att.epoch := order]);
      if |order| == 1 then k2 else
        var k3 := RemoveTracked(k2, order[0]);
        k3.(epochBlockOrder := k3.epochBlockOrder[att.epoch := OrderAfterRound(k2, att.epoch, order)])
  }

  lemma RecordingForgets(t: Tracked, att: Attestation, stake: nat)
    ensures Forget(RecordAttester(t, CONFIG, att, stake)) == Forget(RecordAttester(Forget(t), CONFIG, att, stake))
  {
  }

  lemma RemovalForgets(t: Tracked, h: Hash)
    ensures Forget(RemoveTracked(t, h)) == RemoveTracked(Forget(t), h)
  {
    var none: map<Hash, seq<Attestation>> := map[];
    assert none - {h} == none;
  }

  lemma ShortListStays(t: Tracked, epoch: nat, order: seq<Hash>)
    requires |order| == 1 && epoch in t.epochBlockOrder && t.epochBlockOrder[epoch] == order
    ensures PruneFrom(t, epoch, 1, order, 0) == t
  {
    assert order[0..] == order;
    assert t.epochBlockOrder[epoch := order] == t.epochBlockOrder;
  }

  lemma EvictionForgets(t: Tracked, epoch: nat, order: seq<Hash>)
    requires |order| == 2 && order == View(t, epoch)
    ensures var k := RemoveTracked(Forget(t), order[0]);
            Forget(PruneFrom(t, epoch, 1, order, 0)) ==
            k.(epochBlockOrder := k.epochBlockOrder[epoch := OrderAfterRound(Forget(t), epoch, order)])
  {
    OneRound(t, epoch, 1, order);
    RemovalForgets(t, order[0]);
  }

  lemma CountedForgets(t: Tracked, att: Attestation, stake: nat)
    requires |View(t, att.epoch)| <= 1
    ensures Forget(Counted(t, CONFIG, att, stake)) == CountedOn(Forget(t), att, stake)
  {
    RecordingForgets(t, att, stake);
    if att.blockHash !in t.blockScores {
      var t1 := RecordAttester(t, CONFIG, att, stake);
      var order := View(t1, att.epoch) + [att.blockHash];
      var t2 := t1.(epochBlockOrder := t1.epochBlockOrder[att.epoch := order]);
      if |order| == 2 { EvictionForgets(t2, att.epoch, order); } else { ShortListStays(t2, att.epoch, order); }
    }
  }

  function TalliedOn(k: Tracked, att: Attestation, stake: nat): Tracked {
    AddToTally(CountedOn(k, att, stake), att.epoch, att.blockHash, stake)
  }

  ghost predicate Is(s: State, k: Tracked, m: Messages, f: Finality) {
    Forget(s.tracked) == k && s.messages == m && s.finality == f
  }

  /** Nothing is old enough to be cleaned up. */
  ghost predicate AllRecent(k: Tracked) {
    k.blockScores.Keys == k.blockEpochMap.Keys && forall e | e in k.epochAttestations :: e <= 50
  }

  lemma NothingStale(s1: State)
    requires s1.finality.finalized.None? && AllRecent(Forget(s1.tracked))
    ensures CutoffOf(s1, CONFIG) == 0 && ListsStale(s1.tracked, 0, []) && Cleanup(s1, CONFIG, []) == s1
  {
    assert KeepFrom(s1.tracked.epochAttestations, 0) == s1.tracked.epochAttestations;
    assert KeepFrom(s1.messages, 0) == s1.messages;
    assert DroppedEpochs(s1.tracked, 0) == {};
    assert s1.tracked.epochBlockOrder - {} == s1.tracked.epochBlockOrder;
  }

  function Vote(v: Addr, h: Hash, epoch: nat): Attestation {
    Attestation(v, h, 0, epoch, 0, 0)
  }

  function Event(att: Attestation, best: Hash): ForkChoiceInvariants.Event {
    Attested(att, true, 0, Choice([], best))
  }

  ghost predicate Counting(table: Table, k: Tracked, m: Messages, att: Attestation) {
    && att.validator in Active(table) && !Equivocates(m, att) && att.validator !in AttestersOf(k, att.blockHash)
    && |View(k, att.epoch)| <= 1
  }

  /** The state between recording and cleanup. */
  lemma TalliedForgets(s: State, k: Tracked, m: Messages, f: Finality, att: Attestation, stake: nat, s1: State)
    requires Is(s, k, m, f) && |View(k, att.epoch)| <= 1
    requires s1 == State(AddToTally(Counted(s.tracked, CONFIG, att, stake), att.epoch, att.blockHash, stake),
                         RecordMessage(s.messages, att), s.finality)
    ensures Is(s1, TalliedOn(k, att, stake), RecordMessage(m, att), f)
  {
    CountedForgets(s.tracked, att, stake);
  }

  lemma CountsOn(s: State, table: Table, k: Tracked, m: Messages, f: Finality, att: Attestation)
    requires Is(s, k, m, f) && Counting(table, k, m, att)
    ensures Counts(s, table, att, true) && ScoreOf(s.tracked, att.blockHash) == ScoreOf(k, att.blockHash)
  {
  }

  lemma VoteStep(s: State, table: Table, k: Tracked, m: Messages, f: Finality, att: Attestation, best: Hash, stake: nat,
                 k': Tracked, score: nat, f': Finality)
    requires Is(s, k, m, f) && Counting(table, k, m, att) && stake == table[att.validator].stake
    requires k' == TalliedOn(k, att, stake) && AllRecent(k') && f.finalized.None?
    requires score == ScoreOf(k, att.blockHash) + stake
    requires f' == CheckQuorum(f, k'.epochAttestations, TotalStake(table), CONFIG, att.epoch, att.blockHash, score, 0,
                               best)
    requires QuorumChoice(f, k'.epochAttestations, TotalStake(table), CONFIG, att.epoch, att.blockHash, score, 0, best)
    ensures CanHappen(s, table, CONFIG, Event(att, best))
    ensures Is(Apply(s, table, CONFIG, Event(att, best)), k', RecordMessage(m, att), f')
  {
    CountsOn(s, table, k, m, f, att);
    var counted := Counted(s.tracked, CONFIG, att, stake);
    var s1 := State(AddToTally(counted, att.epoch, att.blockHash, stake), RecordMessage(s.messages, att), s.finality);
    TalliedForgets(s, k, m, f, att, stake, s1);
    NothingStale(s1);
    var tallies := s1.tracked.epochAttestations;
    FinalityAfterIs(s, table, CONFIG, att, 0, tallies, best, f, TotalStake(table), score);
    FinalityChoiceIs(s, table, CONFIG, att, 0, tallies, best, f, TotalStake(table), score);
    RecordedIs(s, att, stake, s1);
    CountedAttestation(s, table, CONFIG, att, 0, Choice([], best), s1, f');
  }

  lemma RecordedIs(s: State, att: Attestation, stake: nat, s1: State)
    requires s1 == State(AddToTally(Counted(s.tracked, CONFIG, att, stake), att.epoch, att.blockHash, stake),
                         RecordMessage(s.messages, att), s.finality)
    requires CutoffOf(s1, CONFIG) == 0 && ListsStale(s1.tracked, 0, []) && Cleanup(s1, CONFIG, []) == s1
    ensures RecordChoice(s, CONFIG, att, stake, []) && Recorded(s, CONFIG, att, stake, []) == s1
  {
  }

  // ---- The six votes ----

  /** Three validators and three blocks. */
  datatype Names = Names(v: Addr, u: Addr, w: Addr, h: Hash, k: Hash, j: Hash)

  predicate Apart(n: Names) {
    && n.v != n.u && n.v != n.w && n.u != n.w && n.h != n.k && n.h != n.j && n.k != n.j && n.h != ""
  }

  function Stakes(n: Names): Table {
    map[n.v := Validator(40, true), n.u := Validator(10, true), n.w := Validator(50, true)]
  }

  lemma AllStake(n: Names)
    requires Apart(n)
    ensures Active(Stakes(n)) == {n.v, n.u, n.w} && TotalStake(Stakes(n)) == 100
  {
    var w := Stake(Stakes(n));
    assert Active(Stakes(n)) == {n.v} + {n.u} + {n.w};
    SumAdd({}, w, n.v);
    SumAdd({n.v}, w, n.u);
    SumAdd({n.v} + {n.u}, w, n.w);
    assert {} + {n.v} == {n.v};
  }

  const NOTHING := Tracked(map[], map[], map[], map[], map[], map[])

  /** h is attested by v in epoch 1. */
  function First(n: Names): Tracked {
    Tracked(map[n.h := 40], map[], map[n.h := {n.v}], map[n.h := 1], map[1 := map[n.h := 40]], map[1 := [n.h]])
  }

  /** And by u in epoch 2, which is now h's epoch. */
  function Second(n: Names): Tracked {
    Tracked(map[n.h := 50], map[], map[n.h := {n.v, n.u}], map[n.h := 2],
            map[1 := map[n.h := 40], 2 := map[n.h := 10]], map[1 := [n.h]])
  }

  /** w attests k in epoch 1, which evicts h and takes it out of the tally of epoch 2 only. */
  function Third(n: Names): Tracked {
    Tracked(map[n.k := 50], map[], map[n.k := {n.w}], map[n.k := 1],
            map[1 := map[n.h := 40, n.k := 50]], map[1 := [n.k]])
  }

  /** v repeats its vote: it is counted once more. */
  function Fourth(n: Names): Tracked {
    Tracked(map[n.h := 40], map[], map[n.h := {n.v}], map[n.h := 1], map[1 := map[n.h := 80]], map[1 := [n.h]])
  }

  /** w and v attest j in epoch 3. */
  function Fifth(n: Names): Tracked {
    Tracked(map[n.h := 40, n.j := 50], map[], map[n.h := {n.v}, n.j := {n.w}], map[n.h := 1, n.j := 3],
            map[1 := map[n.h := 80], 3 := map[n.j := 50]], map[1 := [n.h], 3 := [n.j]])
  }

  function Sixth(n: Names): Tracked {
    Tracked(map[n.h := 40, n.j := 90], map[], map[n.h := {n.v}, n.j := {n.w, n.v}], map[n.h := 1, n.j := 3],
            map[1 := map[n.h := 80], 3 := map[n.j := 90]], map[1 := [n.h], 3 := [n.j]])
  }

  lemma SameFields(t: Tracked, u: Tracked)
    requires t.blockScores == u.blockScores && t.validatorAttestations == u.validatorAttestations
    requires t.blockEpochMap == u.blockEpochMap && t.attestationsByBlock == u.attestationsByBlock
    requires t.epochAttestations == u.epochAttestations && t.epochBlockOrder == u.epochBlockOrder
    ensures t == u
  {
  }

  /** Sets and lists of one. */
  lemma Ones(v: Addr, h: Hash)
    ensures {} + {v} == {v} && [] + [h] == [h]
  {
  }

  lemma ToFirst(n: Names)
    ensures TalliedOn(NOTHING, Vote(n.v, n.h, 1), 40) == First(n)
  {
    Ones(n.v, n.h);
    SameFields(TalliedOn(NOTHING, Vote(n.v, n.h, 1), 40), First(n));
  }

  lemma ToSecond(n: Names)
    ensures TalliedOn(First(n), Vote(n.u, n.h, 2), 10) == Second(n)
  {
    assert {n.v} + {n.u} == {n.v, n.u};
    SameFields(TalliedOn(First(n), Vote(n.u, n.h, 2), 10), Second(n));
  }

  lemma TallyWithout(t: Tracked, h: Hash, e: nat, kept: map<Hash, nat>)
    requires h in t.blockEpochMap && t.blockEpochMap[h] == e && e in t.epochAttestations
    requires kept == t.epochAttestations[e] - {h}
    ensures TallyAfterRemoval(t, h) ==
            if kept == map[] then t.epochAttestations - {e} else t.epochAttestations[e := kept]
  {
  }

  lemma OrderWithout(t: Tracked, h: Hash, e: nat, kept: seq<Hash>)
    requires h in t.blockEpochMap && t.blockEpochMap[h] == e && View(t, e) != [] && kept == Without(View(t, e), h) != []
    ensures OrderAfterRemoval(t, h) == t.epochBlockOrder[e := kept]
  {
  }

  /** A new block on a list with one entry: recorded, listed, and the older one removed. */
  lemma CountedOverOne(k: Tracked, att: Attestation, stake: nat, older: Hash, k2: Tracked, k3: Tracked)
    requires att.blockHash !in k.blockScores && View(k, att.epoch) == [older]
    requires Forget(RecordAttester(k, CONFIG, att, stake)).(epochBlockOrder :=
               k.epochBlockOrder[att.epoch := [older, att.blockHash]]) == k2
    requires RemoveTracked(k2, older) == k3
    requires older != att.blockHash
    ensures CountedOn(k, att, stake) == k3.(epochBlockOrder := k3.epochBlockOrder[att.epoch := [att.blockHash]])
  {
    var order := [older] + [att.blockHash];
    assert order == [older, att.blockHash];
    EvictsFirst(older, att.blockHash);
    assert order[1..] == [att.blockHash];
  }

  /** h and k are listed in epoch 1, before h is evicted. */
  function BeforeThird(n: Names): Tracked {
    Tracked(map[n.h := 50, n.k := 50], map[], map[n.h := {n.v, n.u}, n.k := {n.w}], map[n.h := 2, n.k := 1],
            map[1 := map[n.h := 40], 2 := map[n.h := 10]], map[1 := [n.h, n.k]])
  }

  lemma ListThird(n: Names)
    requires Apart(n)
    ensures Forget(RecordAttester(Second(n), CONFIG, Vote(n.w, n.k, 1), 50)).(epochBlockOrder :=
              Second(n).epochBlockOrder[1 := [n.h, n.k]]) == BeforeThird(n)
  {
    Ones(n.w, n.k);
    SameFields(Forget(RecordAttester(Second(n), CONFIG, Vote(n.w, n.k, 1), 50)).(epochBlockOrder :=
                 Second(n).epochBlockOrder[1 := [n.h, n.k]]), BeforeThird(n));
  }

  lemma DropOne<V>(a: Hash, x: V, b: Hash, y: V)
    requires a != b
    ensures map[a := x, b := y] - {a} == map[b := y]
  {
  }

  lemma TallyThird(n: Names, b: Tracked)
    requires Apart(n) && b == BeforeThird(n)
    ensures TallyAfterRemoval(b, n.h) == map[1 := map[n.h := 40]] && OrderAfterRemoval(b, n.h) == b.epochBlockOrder
  {
    var kept := map[n.h := 10] - {n.h};
    assert kept == map[];
    TallyWithout(b, n.h, 2, kept);
    assert b.epochAttestations - {2} == map[1 := map[n.h := 40]];
  }

  lemma EvictThird(n: Names, t: Tracked)
    requires Apart(n)
    requires t == Third(n).(epochAttestations := map[1 := map[n.h := 40]], epochBlockOrder := map[1 := [n.h, n.k]])
    ensures RemoveTracked(BeforeThird(n), n.h) == t
  {
    TallyThird(n, BeforeThird(n));
    DropOne(n.h, 50, n.k, 50);
    DropOne(n.h, {n.v, n.u}, n.k, {n.w});
    DropOne(n.h, 2, n.k, 1);
  }

  lemma OneEntry(a: seq<Hash>, b: seq<Hash>)
    ensures (map[1 := a])[1 := b] == map[1 := b]
  {
  }

  lemma CountThird(n: Names, t: Tracked)
    requires Apart(n) && t == Third(n).(epochAttestations := map[1 := map[n.h := 40]])
    ensures CountedOn(Second(n), Vote(n.w, n.k, 1), 50) == t
  {
    var k3 := t.(epochBlockOrder := map[1 := [n.h, n.k]]);
    ListThird(n);
    EvictThird(n, k3);
    CountedOverOne(Second(n), Vote(n.w, n.k, 1), 50, n.h, BeforeThird(n), k3);
    OneEntry([n.h, n.k], [n.k]);
  }

  lemma ToThird(n: Names)
    requires Apart(n)
    ensures TalliedOn(Second(n), Vote(n.w, n.k, 1), 50) == Third(n)
  {
    CountThird(n, Third(n).(epochAttestations := map[1 := map[n.h := 40]]));
    assert (map[n.h := 40])[n.k := 50] == map[n.h := 40, n.k := 50];
    SameFields(TalliedOn(Second(n), Vote(n.w, n.k, 1), 50), Third(n));
  }

  lemma EvictsFirst(k: Hash, h: Hash)
    requires k != h
    ensures Overwritten([k] + [h])[1..] == [h]
  {
    assert Distinct([k, h]);
    OverwrittenDistinct([k, h]);
    assert [k] + [h] == [k, h];
  }

  /** k and h are listed in epoch 1, before k is evicted. */
  function BeforeFourth(n: Names): Tracked {
    Tracked(map[n.k := 50, n.h := 40], map[], map[n.k := {n.w}, n.h := {n.v}], map[n.k := 1, n.h := 1],
            map[1 := map[n.h := 40, n.k := 50]], map[1 := [n.k, n.h]])
  }

  lemma ListFourth(n: Names)
    requires Apart(n)
    ensures Forget(RecordAttester(Third(n), CONFIG, Vote(n.v, n.h, 1), 40)).(epochBlockOrder :=
              Third(n).epochBlockOrder[1 := [n.k, n.h]]) == BeforeFourth(n)
  {
    Ones(n.v, n.h);
    SameFields(Forget(RecordAttester(Third(n), CONFIG, Vote(n.v, n.h, 1), 40)).(epochBlockOrder :=
                 Third(n).epochBlockOrder[1 := [n.k, n.h]]), BeforeFourth(n));
  }

  lemma TallyFourth(n: Names, b: Tracked)
    requires Apart(n) && b == BeforeFourth(n)
    ensures TallyAfterRemoval(b, n.k) == map[1 := map[n.h := 40]] && OrderAfterRemoval(b, n.k) == map[1 := [n.h]]
  {
    var kept := map[n.h := 40, n.k := 50] - {n.k};
    assert kept == map[n.h := 40] && n.h in kept;
    TallyWithout(b, n.k, 1, kept);
    assert b.epochAttestations[1 := kept] == map[1 := map[n.h := 40]];
    assert Distinct([n.k, n.h]);
    WithoutFirst([n.k, n.h]);
    OrderWithout(b, n.k, 1, [n.h]);
    assert b.epochBlockOrder[1 := [n.h]] == map[1 := [n.h]];
  }

  lemma EvictFourth(n: Names, t: Tracked)
    requires Apart(n) && t == Fourth(n).(epochAttestations := map[1 := map[n.h := 40]])
    ensures RemoveTracked(BeforeFourth(n), n.k) == t
  {
    TallyFourth(n, BeforeFourth(n));
    DropOne(n.k, 50, n.h, 40);
    DropOne(n.k, {n.w}, n.h, {n.v});
    DropOne(n.k, 1, n.h, 1);
  }

  lemma CountFourth(n: Names, t: Tracked)
    requires Apart(n) && t == Fourth(n).(epochAttestations := map[1 := map[n.h := 40]])
    ensures CountedOn(Third(n), Vote(n.v, n.h, 1), 40) == t
  {
    ListFourth(n);
    EvictFourth(n, t);
    CountedOverOne(Third(n), Vote(n.v, n.h, 1), 40, n.k, BeforeFourth(n), t);
    assert t.epochBlockOrder[1 := [n.h]] == t.epochBlockOrder;
  }

  lemma ToFourth(n: Names)
    requires Apart(n)
    ensures TalliedOn(Third(n), Vote(n.v, n.h, 1), 40) == Fourth(n)
  {
    CountFourth(n, Fourth(n).(epochAttestations := map[1 := map[n.h := 40]]));
    assert (map[n.h := 40])[n.h := 80] == map[n.h := 80];
    SameFields(TalliedOn(Third(n), Vote(n.v, n.h, 1), 40), Fourth(n));
  }

  lemma ToFifth(n: Names)
    requires Apart(n)
    ensures TalliedOn(Fourth(n), Vote(n.w, n.j, 3), 50) == Fifth(n)
  {
    Ones(n.w, n.j);
    SameFields(TalliedOn(Fourth(n), Vote(n.w, n.j, 3), 50), Fifth(n));
  }

  lemma ToSixth(n: Names)
    requires Apart(n)
    ensures TalliedOn(Fifth(n), Vote(n.v, n.j, 3), 40) == Sixth(n)
  {
    assert {n.w} + {n.v} == {n.w, n.v};
    assert (map[n.j := 50])[n.j := 90] == map[n.j := 90];
    SameFields(TalliedOn(Fifth(n), Vote(n.v, n.j, 3), 40), Sixth(n));
  }

  // ---- The votes on record, and the checkpoints ----

  function VotesOne(n: Names): Messages { map[1 := map[n.v := n.h]] }
  function VotesTwo(n: Names): Messages { VotesOne(n)[2 := map[n.u := n.h]] }
  function VotesThree(n: Names): Messages { VotesTwo(n)[1 := map[n.v := n.h, n.w := n.k]] }
  function VotesFive(n: Names): Messages { VotesThree(n)[3 := map[n.w := n.j]] }
  function VotesSix(n: Names): Messages { VotesFive(n)[3 := map[n.w := n.j, n.v := n.j]] }

  lemma VotesFirst(n: Names)
    requires Apart(n)
    ensures RecordMessage(map[], Vote(n.v, n.h, 1)) == VotesOne(n) && !Equivocates(map[], Vote(n.v, n.h, 1))
  {
  }

  lemma VotesSecond(n: Names)
    requires Apart(n)
    ensures RecordMessage(VotesOne(n), Vote(n.u, n.h, 2)) == VotesTwo(n) && !Equivocates(VotesOne(n), Vote(n.u, n.h, 2))
  {
  }

  lemma VotesThird(n: Names)
    requires Apart(n)
    ensures RecordMessage(VotesTwo(n), Vote(n.w, n.k, 1)) == VotesThree(n)
            && !Equivocates(VotesTwo(n), Vote(n.w, n.k, 1))
  {
    assert (map[n.v := n.h])[n.w := n.k] == map[n.v := n.h, n.w := n.k];
  }

  lemma VotesFourth(n: Names)
    requires Apart(n)
    ensures RecordMessage(VotesThree(n), Vote(n.v, n.h, 1)) == VotesThree(n)
            && !Equivocates(VotesThree(n), Vote(n.v, n.h, 1))
  {
    assert (map[n.v := n.h, n.w := n.k])[n.v := n.h] == map[n.v := n.h, n.w := n.k];
  }

  lemma VotesFifth(n: Names)
    requires Apart(n)
    ensures RecordMessage(VotesThree(n), Vote(n.w, n.j, 3)) == VotesFive(n)
            && !Equivocates(VotesThree(n), Vote(n.w, n.j, 3))
  {
  }

  lemma VotesSixth(n: Names)
    requires Apart(n)
    ensures RecordMessage(VotesFive(n), Vote(n.v, n.j, 3)) == VotesSix(n)
            && !Equivocates(VotesFive(n), Vote(n.v, n.j, 3))
  {
    assert (map[n.w := n.j])[n.v := n.j] == map[n.w := n.j, n.v := n.j];
  }

  const QUIET := Finality(None, None, 100, 0)

  function Final(n: Names): Finality {
    Finality(Some(Checkpoint(3, n.j, 0, 90, 100)), Some(Checkpoint(1, n.h, 0, 80, 100)), 100, 0)
  }

  lemma QuietCheck(f: Finality, tallies: map<nat, map<Hash, nat>>, epoch: nat, b: Hash, score: nat, best: Hash)
    requires (f == QUIET || f == EMPTY.finality) && score <= 50
    ensures CheckQuorum(f, tallies, 100, CONFIG, epoch, b, score, 0, best) == QUIET
    ensures QuorumChoice(f, tallies, 100, CONFIG, epoch, b, score, 0, best)
  {
    assert Threshold(100) == 67;
  }

  lemma FinalCheck(n: Names, tallies: map<nat, map<Hash, nat>>)
    requires Apart(n) && 1 in tallies && tallies[1] == map[n.h := 80]
    ensures CheckQuorum(QUIET, tallies, 100, CONFIG, 3, n.j, 90, 0, n.h) == Final(n)
    ensures QuorumChoice(QUIET, tallies, 100, CONFIG, 3, n.j, 90, 0, n.h)
  {
    assert Threshold(100) == 67 && Interval(CONFIG) == 10;
    var justified := QUIET.(justified := Some(Checkpoint(3, n.j, 0, 90, 100)));
    assert n.h in tallies[1] && tallies[1] != map[];
    assert EpochToFinalize(justified, tallies) == Some(1) && IsBest(tallies[1], n.h);
    assert Finalize(justified, tallies, 100, CONFIG, 0, n.h) == Final(n);
  }

  // ---- The run ----

  ghost predicate IsNext(n: Names, att: Attestation, p: State, s: State) {
    CanHappen(p, Stakes(n), CONFIG, Event(att, n.h)) && s == Apply(p, Stakes(n), CONFIG, Event(att, n.h))
  }

  lemma RunGoesOn(n: Names, events: seq<ForkChoiceInvariants.Event>, att: Attestation, p: State, s: State)
    requires ByRun(n, events, p) && IsNext(n, att, p, s)
    ensures ByRun(n, events + [Event(att, n.h)], s)
  {
    PossibleRunGrows(Stakes(n), CONFIG, events, Event(att, n.h));
  }

  /** A run of these votes that the code can make comes to this state. */
  ghost predicate ByRun(n: Names, events: seq<ForkChoiceInvariants.Event>, s: State) {
    PossibleRun(Stakes(n), CONFIG, events) && Run(Stakes(n), CONFIG, events) == s
  }

  /** What one vote does to what is tracked and voted. */
  ghost predicate Adds(n: Names, att: Attestation, stake: nat, score: nat, k: Tracked, k': Tracked,
                       m: Messages, m': Messages) {
    && Counting(Stakes(n), k, m, att) && stake == Stakes(n)[att.validator].stake
    && TalliedOn(k, att, stake) == k' && AllRecent(k')
    && RecordMessage(m, att) == m' && score == ScoreOf(k, att.blockHash) + stake
  }

  /** And to the checkpoints. */
  ghost predicate Fits(n: Names, att: Attestation, stake: nat, score: nat, k: Tracked, k': Tracked,
                       m: Messages, m': Messages, f: Finality, f': Finality) {
    && Adds(n, att, stake, score, k, k', m, m') && f.finalized.None?
    && f' == CheckQuorum(f, k'.epochAttestations, 100, CONFIG, att.epoch, att.blockHash, score, 0, n.h)
    && QuorumChoice(f, k'.epochAttestations, 100, CONFIG, att.epoch, att.blockHash, score, 0, n.h)
  }

  lemma VoteFits(n: Names, s: State, att: Attestation, stake: nat, score: nat, k: Tracked, k': Tracked,
                 m: Messages, m': Messages, f: Finality, f': Finality) returns (t: State)
    requires Apart(n) && Is(s, k, m, f) && Fits(n, att, stake, score, k, k', m, m', f, f')
    ensures IsNext(n, att, s, t) && Is(t, k', m', f')
  {
    AllStake(n);
    VoteStep(s, Stakes(n), k, m, f, att, n.h, stake, k', score, f');
    t := Apply(s, Stakes(n), CONFIG, Event(att, n.h));
  }

  /** One more vote of the run. */
  lemma OneVote(n: Names, before: seq<ForkChoiceInvariants.Event>, s: State, att: Attestation, stake: nat, score: nat,
                k: Tracked, k': Tracked, m: Messages, m': Messages, f: Finality, f': Finality)
      returns (events: seq<ForkChoiceInvariants.Event>, t: State)
    requires Apart(n) && ByRun(n, before, s) && Is(s, k, m, f)
    requires Fits(n, att, stake, score, k, k', m, m', f, f')
    ensures ByRun(n, events, t) && Is(t, k', m', f')
  {
    t := VoteFits(n, s, att, stake, score, k, k', m, m', f, f');
    RunGoesOn(n, before, att, s, t);
    events := before + [Event(att, n.h)];
  }

  lemma AddsFirst(n: Names)
    requires Apart(n)
    ensures Adds(n, Vote(n.v, n.h, 1), 40, 40, NOTHING, First(n), map[], VotesOne(n))
  {
    AllStake(n);
    ToFirst(n);
    VotesFirst(n);
  }

  lemma RunFirst(n: Names) returns (events: seq<ForkChoiceInvariants.Event>, t: State)
    requires Apart(n)
    ensures ByRun(n, events, t) && Is(t, First(n), VotesOne(n), QUIET)
  {
    var before, s := [], EMPTY;
    AddsFirst(n);
    QuietCheck(EMPTY.finality, First(n).epochAttestations, 1, n.h, 40, n.h);
    events, t := OneVote(n, before, s, Vote(n.v, n.h, 1), 40, 40, NOTHING, First(n), map[], VotesOne(n),
                         EMPTY.finality, QUIET);
  }

  lemma AddsSecond(n: Names)
    requires Apart(n)
    ensures Adds(n, Vote(n.u, n.h, 2), 10, 50, First(n), Second(n), VotesOne(n), VotesTwo(n))
  {
    AllStake(n);
    ToSecond(n);
    VotesSecond(n);
  }

  lemma RunSecond(n: Names) returns (events: seq<ForkChoiceInvariants.Event>, t: State)
    requires Apart(n)
    ensures ByRun(n, events, t) && Is(t, Second(n), VotesTwo(n), QUIET)
  {
    var before, s := RunFirst(n);
    AddsSecond(n);
    QuietCheck(QUIET, Second(n).epochAttestations, 2, n.h, 50, n.h);
    events, t := OneVote(n, before, s, Vote(n.u, n.h, 2), 10, 50, First(n), Second(n), VotesOne(n),
                         VotesTwo(n), QUIET, QUIET);
  }

  lemma AddsThird(n: Names)
    requires Apart(n)
    ensures Adds(n, Vote(n.w, n.k, 1), 50, 50, Second(n), Third(n), VotesTwo(n), VotesThree(n))
  {
    AllStake(n);
    ToThird(n);
    VotesThird(n);
  }

  lemma RunThird(n: Names) returns (events: seq<ForkChoiceInvariants.Event>, t: State)
    requires Apart(n)
    ensures ByRun(n, events, t) && Is(t, Third(n), VotesThree(n), QUIET)
  {
    var before, s := RunSecond(n);
    AddsThird(n);
    QuietCheck(QUIET, Third(n).epochAttestations, 1, n.k, 50, n.h);
    events, t := OneVote(n, before, s, Vote(n.w, n.k, 1), 50, 50, Second(n), Third(n), VotesTwo(n),
                         VotesThree(n), QUIET, QUIET);
  }

  lemma AddsFourth(n: Names)
    requires Apart(n)
    ensures Adds(n, Vote(n.v, n.h, 1), 40, 40, Third(n), Fourth(n), VotesThree(n), VotesThree(n))
  {
    AllStake(n);
    ToFourth(n);
    VotesFourth(n);
  }

  lemma RunFourth(n: Names) returns (events: seq<ForkChoiceInvariants.Event>, t: State)
    requires Apart(n)
    ensures ByRun(n, events, t) && Is(t, Fourth(n), VotesThree(n), QUIET)
  {
    var before, s := RunThird(n);
    AddsFourth(n);
    QuietCheck(QUIET, Fourth(n).epochAttestations, 1, n.h, 40, n.h);
    events, t := OneVote(n, before, s, Vote(n.v, n.h, 1), 40, 40, Third(n), Fourth(n), VotesThree(n),
                         VotesThree(n), QUIET, QUIET);
  }

  lemma AddsFifth(n: Names)
    requires Apart(n)
    ensures Adds(n, Vote(n.w, n.j, 3), 50, 50, Fourth(n), Fifth(n), VotesThree(n), VotesFive(n))
  {
    AllStake(n);
    ToFifth(n);
    VotesFifth(n);
  }

  lemma RunFifth(n: Names) returns (events: seq<ForkChoiceInvariants.Event>, t: State)
    requires Apart(n)
    ensures ByRun(n, events, t) && Is(t, Fifth(n), VotesFive(n), QUIET)
  {
    var before, s := RunFourth(n);
    AddsFifth(n);
    QuietCheck(QUIET, Fifth(n).epochAttestations, 3, n.j, 50, n.h);
    events, t := OneVote(n, before, s, Vote(n.w, n.j, 3), 50, 50, Fourth(n), Fifth(n), VotesThree(n),
                         VotesFive(n), QUIET, QUIET);
  }

  lemma CountsSixth(n: Names)
    requires Apart(n)
    ensures Counting(Stakes(n), Fifth(n), VotesFive(n), Vote(n.v, n.j, 3)) && AllRecent(Sixth(n))
    ensures Stakes(n)[n.v].stake == 40 && ScoreOf(Fifth(n), n.j) == 50
  {
    AllStake(n);
    VotesSixth(n);
  }

  lemma AddsSixth(n: Names)
    requires Apart(n)
    ensures Adds(n, Vote(n.v, n.j, 3), 40, 90, Fifth(n), Sixth(n), VotesFive(n), VotesSix(n))
  {
    CountsSixth(n);
    ToSixth(n);
    VotesSixth(n);
  }

  lemma RunSixth(n: Names) returns (events: seq<ForkChoiceInvariants.Event>, t: State)
    requires Apart(n)
    ensures ByRun(n, events, t) && Is(t, Sixth(n), VotesSix(n), Final(n))
  {
    var before, s := RunFifth(n);
    AddsSixth(n);
    FinalCheck(n, Sixth(n).epochAttestations);
    events, t := OneVote(n, before, s, Vote(n.v, n.j, 3), 40, 90, Fifth(n), Sixth(n), VotesFive(n),
                         VotesSix(n), QUIET, Final(n));
  }

  lemma RealVotes(n: Names)
    requires Apart(n)
    ensures VoteStake(VotesSix(n), Stakes(n), 1, n.h) == 40
  {
    assert VotersFor(VotesSix(n), 1, n.h) == {n.v};
    SumAdd({}, Stake(Stakes(n)), n.v);
    assert {} + {n.v} == {n.v};
  }

  /**
   * A run the code can make finalizes h of epoch 1 with 80 of 100 on record, which is a quorum, while 40
   * of 100 voted for it in that epoch: v's vote is counted twice, because h left the books and not the tally.
   */
  lemma QuorumOnRecordIsNotReal(n: Names) returns (events: seq<ForkChoiceInvariants.Event>)
    requires Apart(n)
    ensures PossibleRun(Stakes(n), CONFIG, events) && 80 >= Threshold(TotalStake(Stakes(n)))
    ensures var s := Run(Stakes(n), CONFIG, events);
            && s.finality.finalized == Some(Checkpoint(1, n.h, 0, 80, 100))
            && VoteStake(s.messages, Stakes(n), 1, n.h) == 40 && AttestersOf(s.tracked, n.h) == {n.v}
  {
    AllStake(n);
    var s;
    events, s := RunSixth(n);
    RealVotes(n);
  }
}
