/**
 * The cap on blocks per epoch is none: with a cap of two, runs of attestations in one epoch track any
 * number of blocks.
 */
module CapWitness {
  import opened Base
  import opened StakeSums
  import opened ForkChoiceSpec
  import opened ForkChoiceInvariants
  import opened ForkChoiceEffects

  const CONFIG := Config(50, 2, 5, 0, 0)
  const EPOCH: nat := 1

  /** Distinct names for validators and blocks. */
  function Name(i: nat): string {
    seq(i, _ => 'x')
  }

  /** Validators 1 to n, one stake each. */
  function Validators(n: nat): Table {
    map i | 1 <= i <= n :: Name(i) := Validator(1, true)
  }

  lemma {:induction false} StakeOfAll(n: nat)
    ensures Active(Validators(n)) == set i | 1 <= i <= n :: Name(i)
    ensures TotalStake(Validators(n)) == n
  {
    var table := Validators(n);
    assert Active(table) == set i | 1 <= i <= n :: Name(i);
    NamedStake(n, n, Stake(table));
  }

  lemma {:induction false} NamedStake(k: nat, n: nat, w: Addr -> nat)
    requires k <= n && forall i | 1 <= i <= n :: w(Name(i)) == 1
    ensures Sum(set i | 1 <= i <= k :: Name(i), w) == k
    decreases k
  {
    var names := set i | 1 <= i <= k :: Name(i);
    if k == 0 {
      assert names == {};
    } else {
      var fewer := set i | 1 <= i <= k - 1 :: Name(i);
      NamedStake(k - 1, n, w);
      assert forall i | 1 <= i <= k - 1 :: |Name(i)| == i;
      assert |Name(k)| == k;
      assert Name(k) !in fewer;
      assert names == fewer + {Name(k)};
      SumAdd(fewer, w, Name(k));
    }
  }

  /** All blocks are of one epoch: its order list, and which blocks are tracked. */
  ghost predicate Part(t: Tracked, order: seq<Hash>, tracked: set<Hash>) {
    && View(t, EPOCH) == order
    && t.blockScores.Keys == tracked && t.validatorAttestations.Keys == tracked
    && t.blockEpochMap == (map h | h in tracked :: EPOCH)
    && t.epochAttestations.Keys <= {EPOCH}
  }

  /** So are all votes, and nothing is justified. */
  ghost predicate Has(s: State, n: nat, order: seq<Hash>, tracked: set<Hash>, voted: set<Addr>) {
    && Part(s.tracked, order, tracked)
    && s.messages.Keys <= {EPOCH} && VotesOf(s.messages, EPOCH).Keys == voted
    && s.finality.justified.None? && s.finality.finalized.None? && s.finality.cachedTotal in {0, n}
  }

  ghost function OrderAfter(order: seq<Hash>, tracked: set<Hash>, h: Hash): seq<Hash> {
    var longer := order + [h];
    if |longer| <= 2 then longer
    else (if longer[0] in tracked then Overwritten(longer) else longer)[1..]
  }

  ghost function TrackedAfter(order: seq<Hash>, tracked: set<Hash>, h: Hash): set<Hash> {
    if |order| < 2 then tracked + {h} else tracked + {h} - {order[0]}
  }

  function Vote(v: Addr, h: Hash): Event {
    Attested(Attestation(v, h, 0, EPOCH, 0, 0), true, 0, Choice([], ""))
  }

  lemma NewBlockRecorded(t: Tracked, att: Attestation, order: seq<Hash>, tracked: set<Hash>, t2: Tracked)
    requires Part(t, order, tracked) && att.epoch == EPOCH && att.blockHash !in tracked
    requires var t1 := RecordAttester(t, CONFIG, att, 1);
             t2 == t1.(epochBlockOrder := t1.epochBlockOrder[EPOCH := View(t1, EPOCH) + [att.blockHash]])
    ensures Part(t2, order + [att.blockHash], tracked + {att.blockHash})
  {
  }

  lemma Evicted(t: Tracked, order: seq<Hash>, tracked: set<Hash>)
    requires Part(t, order, tracked) && |order| == 3
    ensures Part(PruneFrom(t, EPOCH, 2, order, 0),
                 (if order[0] in tracked then Overwritten(order) else order)[1..], tracked - {order[0]})
  {
    OneRound(t, EPOCH, 2, order);
    var t1 := RemoveTracked(t, order[0]);
    assert t1.blockEpochMap == map h | h in tracked - {order[0]} :: EPOCH;
  }

  lemma CountedNew(t: Tracked, att: Attestation, order: seq<Hash>, tracked: set<Hash>)
    requires Part(t, order, tracked) && |order| <= 2
    requires att.epoch == EPOCH && att.blockHash !in tracked && att.blockHash !in order
    ensures Part(Counted(t, CONFIG, att, 1), OrderAfter(order, tracked, att.blockHash),
                 TrackedAfter(order, tracked, att.blockHash))
  {
    var h := att.blockHash;
    var t1 := RecordAttester(t, CONFIG, att, 1);
    var t2 := t1.(epochBlockOrder := t1.epochBlockOrder[EPOCH := View(t1, EPOCH) + [h]]);
    NewBlockRecorded(t, att, order, tracked, t2);
    if |order| == 2 {
      Evicted(t2, order + [h], tracked + {h});
    }
  }

  /** With nothing older than the one epoch a cleanup does nothing. */
  lemma NothingStale(s: State, order: seq<Hash>, tracked: set<Hash>)
    requires Part(s.tracked, order, tracked) && s.messages.Keys <= {EPOCH} && s.finality.finalized.None?
    ensures CutoffOf(s, CONFIG) == 0 && ListsStale(s.tracked, 0, []) && Cleanup(s, CONFIG, []) == s
  {
    assert KeepFrom(s.tracked.epochAttestations, 0) == s.tracked.epochAttestations;
    assert KeepFrom(s.messages, 0) == s.messages;
    assert DroppedEpochs(s.tracked, 0) == {};
    assert s.tracked.epochBlockOrder - {} == s.tracked.epochBlockOrder;
  }

  lemma NoQuorum(f: Finality, tallies: map<nat, map<Hash, nat>>, n: nat, h: Hash)
    requires n >= 2 && f.justified.None? && f.finalized.None?
    requires f.cachedTotal == 0 || f.cachedTotal == n
    ensures var g := CheckQuorum(f, tallies, n, CONFIG, EPOCH, h, 1, 0, "");
            && g.justified.None? && g.finalized.None? && g.cachedTotal in {0, n}
            && QuorumChoice(f, tallies, n, CONFIG, EPOCH, h, 1, 0, "")
  {
  }

  /** A new validator votes for a new block. */
  lemma VoteStep(s: State, n: nat, order: seq<Hash>, tracked: set<Hash>, voted: set<Addr>, v: Addr, h: Hash)
    requires n >= 2 && Has(s, n, order, tracked, voted) && |order| <= 2
    requires v in Active(Validators(n)) && v !in voted && h !in tracked && h !in order
    ensures CanHappen(s, Validators(n), CONFIG, Vote(v, h))
    ensures Has(Apply(s, Validators(n), CONFIG, Vote(v, h)), n, OrderAfter(order, tracked, h),
                TrackedAfter(order, tracked, h),
                voted + {v})
  {
    var table, att := Validators(n), Vote(v, h).att;
    StakeOfAll(n);
    assert Counts(s, table, att, true);
    var s1 := State(AddToTally(Counted(s.tracked, CONFIG, att, 1), EPOCH, h, 1), RecordMessage(s.messages, att),
                    s.finality);
    RecordedNew(s, n, order, tracked, voted, att, s1);
    NothingStale(s1, OrderAfter(order, tracked, h), TrackedAfter(order, tracked, h));
    var tallies := s1.tracked.epochAttestations;
    NoQuorum(s.finality, tallies, n, h);
    var f := CheckQuorum(s.finality, tallies, n, CONFIG, EPOCH, h, 1, 0, "");
    FinalityAfterIs(s, table, CONFIG, att, 0, tallies, "", s.finality, n, 1);
    FinalityChoiceIs(s, table, CONFIG, att, 0, tallies, "", s.finality, n, 1);
    CountedAttestation(s, table, CONFIG, att, 0, Choice([], ""), s1, f);
  }

  lemma RecordedNew(s: State, n: nat, order: seq<Hash>, tracked: set<Hash>, voted: set<Addr>, att: Attestation,
                    s1: State)
    requires Has(s, n, order, tracked, voted) && |order| <= 2
    requires att.epoch == EPOCH && att.blockHash !in tracked && att.blockHash !in order
    requires s1 == State(AddToTally(Counted(s.tracked, CONFIG, att, 1), EPOCH, att.blockHash, 1),
                         RecordMessage(s.messages, att), s.finality)
    ensures Has(s1, n, OrderAfter(order, tracked, att.blockHash), TrackedAfter(order, tracked, att.blockHash),
                voted + {att.validator})
  {
    CountedNew(s.tracked, att, order, tracked);
  }

  // ---- Three more votes, one more block ----

  function Votes(n: nat): seq<Event> {
    if n == 0 then [] else Votes(n - 1) + [Vote(Name(n), Name(n))]
  }

  ghost function Names(n: nat): set<string> {
    set i | 1 <= i <= n :: Name(i)
  }

  /** The state after the first k votes. */
  ghost function After(n: nat, k: nat): State {
    if k == 0 then EMPTY else Apply(After(n, k - 1), Validators(n), CONFIG, Vote(Name(k), Name(k)))
  }

  ghost predicate Possible(n: nat, k: nat) {
    k == 0 || (Possible(n, k - 1) && CanHappen(After(n, k - 1), Validators(n), CONFIG, Vote(Name(k), Name(k))))
  }

  lemma {:induction false} AfterIsRun(n: nat, k: nat)
    requires Possible(n, k)
    ensures PossibleRun(Validators(n), CONFIG, Votes(k)) && Run(Validators(n), CONFIG, Votes(k)) == After(n, k)
    decreases k
  {
    if k > 0 {
      AfterIsRun(n, k - 1);
      PossibleRunGrows(Validators(n), CONFIG, Votes(k - 1), Vote(Name(k), Name(k)));
    }
  }

  // ---- The lists and blocks of a run, without its states ----

  ghost function Order(k: nat): seq<Hash> {
    if k == 0 then [] else OrderAfter(Order(k - 1), Blocks(k - 1), Name(k))
  }

  ghost function Blocks(k: nat): set<Hash> {
    if k == 0 then {} else TrackedAfter(Order(k - 1), Blocks(k - 1), Name(k))
  }

  lemma NextIsNew(k: nat)
    ensures Name(k + 1) !in Names(k) && Names(k + 1) == Names(k) + {Name(k + 1)}
  {
    assert forall i | 1 <= i <= k :: |Name(i)| == i;
    assert |Name(k + 1)| == k + 1;
  }

  lemma OrderMembers(order: seq<Hash>, tracked: set<Hash>, h: Hash)
    requires |order| <= 2
    ensures |OrderAfter(order, tracked, h)| <= 2
    ensures forall x | x in OrderAfter(order, tracked, h) :: x in order + [h]
  {
    var longer := order + [h];
    if |longer| == 3 && longer[0] in tracked {
      WithoutMembers(longer, longer[0]);
      var after := Overwritten(longer);
      forall x | x in after[1..] ensures x in longer {
        assert x in after;
      }
    }
  }

  lemma {:induction false} OnlyNames(k: nat)
    ensures |Order(k)| <= 2 && Blocks(k) <= Names(k) && forall h | h in Order(k) :: h in Names(k)
    decreases k
  {
    if k > 0 {
      OnlyNames(k - 1);
      NextIsNew(k - 1);
      OrderMembers(Order(k - 1), Blocks(k - 1), Name(k));
    }
  }

  /** The run of the first k votes can happen, and has these lists and blocks. */
  lemma {:induction false} RunHasOrder(n: nat, k: nat)
    requires n >= 2 && k <= n
    ensures Possible(n, k) && Has(After(n, k), n, Order(k), Blocks(k), Names(k))
    decreases k
  {
    if k == 0 {
      assert Names(k) == {};
    } else {
      RunHasOrder(n, k - 1);
      OnlyNames(k - 1);
      NextIsNew(k - 1);
      StakeOfAll(n);
      VoteStep(After(n, k - 1), n, Order(k - 1), Blocks(k - 1), Names(k - 1), Name(k), Name(k));
    }
  }

  /** The three order lists of one turn: the oldest block goes, then the newest, then none. */
  lemma ThreeOrders(x: Hash, y: Hash, c: Hash, d: Hash, e: Hash, tracked: set<Hash>)
    requires Distinct([x, y, c, d, e]) && x in tracked && y in tracked
    requires c !in tracked && d !in tracked && e !in tracked
    ensures OrderAfter([x, y], tracked, c) == [c, c]
    ensures OrderAfter([c, c], tracked + {c} - {x}, d) == [c, d]
    ensures OrderAfter([c, d], tracked - {x} + {d}, e) == [d, e]
  {
    DistinctFive(x, y, c, d, e);
    OverwrittenDistinct([x, y, c]);
    assert [x, y] + [c] == [x, y, c] && [c, c] + [d] == [c, c, d] && [c, d] + [e] == [c, d, e];
    RepeatedFirst(c, d);
  }

  lemma ThreeBlocks(x: Hash, y: Hash, c: Hash, d: Hash, e: Hash, tracked: set<Hash>)
    requires Distinct([x, y, c, d, e]) && x in tracked && c !in tracked && d !in tracked && e !in tracked
    ensures TrackedAfter([x, y], tracked, c) == tracked + {c} - {x}
    ensures TrackedAfter([c, c], tracked + {c} - {x}, d) == tracked - {x} + {d}
    ensures TrackedAfter([c, d], tracked - {x} + {d}, e) == tracked - {x} + {d} + {e}
    ensures |tracked - {x} + {d} + {e}| == |tracked| + 1
  {
    DistinctFive(x, y, c, d, e);
    assert |tracked - {x}| == |tracked| - 1;
    assert |tracked - {x} + {d}| == |tracked|;
  }

  lemma DistinctFive(x: Hash, y: Hash, c: Hash, d: Hash, e: Hash)
    requires Distinct([x, y, c, d, e])
    ensures x != y && x != c && x != d && x != e && y != c && y != d && y != e && c != d && c != e && d != e
    ensures Distinct([x, y, c])
  {
    var q := [x, y, c, d, e];
    assert q[0] != q[1] && q[0] != q[2] && q[0] != q[3] && q[0] != q[4] && q[1] != q[2];
    assert q[1] != q[3] && q[1] != q[4] && q[2] != q[3] && q[2] != q[4] && q[3] != q[4];
  }

  lemma RepeatedFirst(c: Hash, d: Hash)
    requires c != d
    ensures Overwritten([c, c, d]) == [d, c, d]
  {
    assert [c, c, d][1..] == [c, d] && [c, d][1..] == [d] && [d][1..] == [];
    assert Without([d], c) == [d];
    assert Without([c, d], c) == [d];
    assert Without([c, c, d], c) == [d];
  }

  lemma FreshNames(k: nat)
    requires k >= 2
    ensures Distinct([Name(k - 1), Name(k), Name(k + 1), Name(k + 2), Name(k + 3)])
    ensures Name(k + 1) !in Names(k) && Name(k + 2) !in Names(k) && Name(k + 3) !in Names(k)
  {
    NextIsNew(k);
    NextIsNew(k + 1);
    NextIsNew(k + 2);
    assert forall i: nat :: |Name(i)| == i;
  }

  /** The last two blocks are on the list and tracked, with count blocks tracked in all. */
  ghost predicate Reached(k: nat, count: nat) {
    && k >= 2 && Order(k) == [Name(k - 1), Name(k)] && |Blocks(k)| == count
    && Name(k - 1) in Blocks(k) && Name(k) in Blocks(k)
  }

  lemma Turn(k: nat, count: nat)
    requires Reached(k, count)
    ensures Reached(k + 3, count + 1)
  {
    OnlyNames(k);
    FreshNames(k);
    var x, y, c, d, e, tracked := Name(k - 1), Name(k), Name(k + 1), Name(k + 2), Name(k + 3), Blocks(k);
    ThreeOrders(x, y, c, d, e, tracked);
    ThreeBlocks(x, y, c, d, e, tracked);
    assert Order(k + 1) == [c, c] && Blocks(k + 1) == tracked + {c} - {x};
    assert Order(k + 2) == [c, d] && Blocks(k + 2) == tracked - {x} + {d};
    assert Order(k + 3) == [d, e] && Blocks(k + 3) == tracked - {x} + {d} + {e};
  }

  lemma FirstTwo()
    ensures Reached(2, 2)
  {
    var x, y := Name(1), Name(2);
    assert |x| == 1 && |y| == 2;
    assert Order(0) == [] && Blocks(0) == {};
    assert Order(1) == [x] && Blocks(1) == {x};
    assert Order(2) == [x] + [y] && Blocks(2) == {x} + {y};
    assert [x] + [y] == [x, y] && |{x} + {y}| == 2;
  }

  /** Every third vote beyond the second leaves one more block tracked. */
  lemma {:induction false} Leaks(m: nat)
    ensures Reached(2 + 3 * m, 2 + m)
    decreases m
  {
    if m == 0 {
      FirstTwo();
    } else {
      Leaks(m - 1);
      Turn(2 + 3 * (m - 1), 2 + (m - 1));
    }
  }

  /** For every m there is a run the code can make that tracks 2 + m blocks of one epoch under a cap of two. */
  lemma CapIsExceeded(m: nat, n: nat)
    requires n == 2 + 3 * m
    ensures PossibleRun(Validators(n), CONFIG, Votes(n)) && CONFIG.maxBlocksPerEpoch == 2
    ensures var t := Run(Validators(n), CONFIG, Votes(n)).tracked;
            |t.blockScores| == 2 + m && forall h | h in t.blockEpochMap :: t.blockEpochMap[h] == EPOCH
  {
    Leaks(m);
    RunHasOrder(n, n);
    AfterIsRun(n, n);
    var t := After(n, n).tracked;
    assert |t.blockScores| == |t.blockScores.Keys|;
  }
}
