/** What the unsigned bound currentEpoch-2 does to subtree weights, and to the head before epoch two. */
module EpochWrap {
  import opened Base
  import opened StakeSums
  import opened HashOrder
  import opened BlockTree
  import opened ChainTraversal
  import opened ForkChoiceSpec
  import opened ForkTree

  /** The test as it is meant: the vote is at most two epochs old. */
  predicate Recent(e: nat, currentEpoch: nat) {
    e + 2 >= currentEpoch
  }

  /** Below the wrapped bound: every epoch but the very last that 64 bits can hold. */
  predicate Ordinary(e: nat, currentEpoch: nat) {
    e < TWO_64 - 2 + currentEpoch
  }

  /** An ordinary vote passes the test exactly when it is recent and epoch two has come. */
  lemma PassesIff(e: nat, currentEpoch: nat)
    requires currentEpoch < TWO_64
    ensures Ordinary(e, currentEpoch) ==>
              (e >= SubU64(currentEpoch, 2) <==> currentEpoch >= 2 && e >= currentEpoch - 2)
    ensures (e >= SubU64(currentEpoch, 2) <==> Recent(e, currentEpoch)) <==>
            currentEpoch >= 2 || !Ordinary(e, currentEpoch)
  {
    if currentEpoch >= 2 {
      assert currentEpoch + (TWO_64 - 2) == TWO_64 + (currentEpoch - 2);
    }
  }

  ghost predicate OrdinaryVotes(m: Messages, currentEpoch: nat) {
    forall e | e in m :: Ordinary(e, currentEpoch)
  }

  /** Before epoch two no subtree has any weight, whoever votes for it. */
  lemma NoWeightBeforeEpochTwo(store: Store, table: Table, m: Messages, currentEpoch: nat, root: Hash)
    requires currentEpoch < 2 && OrdinaryVotes(m, currentEpoch)
    ensures SubtreeStake(store, table, m, currentEpoch, root) == 0
  {
    forall e, v | e in m && v in m[e] ensures !IsSupporter(store, table, m, currentEpoch, root, e, v) {
      PassesIff(e, currentEpoch);
    }
    assert Supporters(store, table, m, currentEpoch, root) == {};
  }

  // ---- The weights as they are meant ----

  ghost function MeantSupporters(store: Store, table: Table, m: Messages, currentEpoch: nat,
                                 root: Hash): set<(nat, Addr)> {
    set e, v | e in m && v in m[e] && Recent(e, currentEpoch) && v in Active(table)
               && Descends(store, m[e][v], root, FORK_CHOICE_DEPTH) :: (e, v)
  }

  ghost function MeantStake(store: Store, table: Table, m: Messages, currentEpoch: nat, root: Hash): nat {
    Sum(MeantSupporters(store, table, m, currentEpoch, root), VoteWeight(table, currentEpoch))
  }

  /** A vote of an ordinary epoch, by an active validator, that would carry weight. */
  ghost predicate Weighs(table: Table, m: Messages, currentEpoch: nat, e: nat, v: Addr) {
    && e in m && v in m[e] && Ordinary(e, currentEpoch) && v in Active(table)
    && VoteWeight(table, currentEpoch)((e, v)) > 0
  }

  /** The votes that are meant to count and are not counted. */
  ghost function Missed(store: Store, table: Table, m: Messages, currentEpoch: nat, root: Hash): set<(nat, Addr)> {
    set vote | vote in MeantSupporters(store, table, m, currentEpoch, root) && Ordinary(vote.0, currentEpoch)
  }

  /** Before epoch two a subtree lacks exactly the weight of its ordinary votes. */
  lemma MissedWeight(store: Store, table: Table, m: Messages, currentEpoch: nat, root: Hash)
    requires currentEpoch < 2
    ensures MeantStake(store, table, m, currentEpoch, root) ==
            SubtreeStake(store, table, m, currentEpoch, root)
            + Sum(Missed(store, table, m, currentEpoch, root), VoteWeight(table, currentEpoch))
  {
    var counted := Supporters(store, table, m, currentEpoch, root);
    var missed := Missed(store, table, m, currentEpoch, root);
    forall e | e in m ensures e >= SubU64(currentEpoch, 2) <==> !Ordinary(e, currentEpoch) {
      PassesIff(e, currentEpoch);
    }
    assert MeantSupporters(store, table, m, currentEpoch, root) == counted + missed;
    SumUnion(counted, missed, VoteWeight(table, currentEpoch));
  }

  lemma {:induction false} WeightlessSumIff(votes: set<(nat, Addr)>, w: ((nat, Addr)) -> nat)
    ensures Sum(votes, w) == 0 <==> forall vote | vote in votes :: w(vote) == 0
    decreases votes
  {
    if vote :| vote in votes {
      SumRemove(votes, w, vote);
      WeightlessSumIff(votes - {vote}, w);
      assert forall x | x in votes :: x == vote || x in votes - {vote};
    }
  }

  lemma SupportersWhenLate(store: Store, table: Table, m: Messages, currentEpoch: nat, root: Hash)
    requires 2 <= currentEpoch < TWO_64
    ensures Supporters(store, table, m, currentEpoch, root) == MeantSupporters(store, table, m, currentEpoch, root)
  {
    forall e | e in m ensures e >= SubU64(currentEpoch, 2) <==> Recent(e, currentEpoch) { PassesIff(e, currentEpoch); }
  }

  /**
   * All weights are as meant if and only if epoch two has come, or no vote that would carry weight
   * has been cast in an ordinary epoch.
   */
  lemma WeightsAreMeantIff(store: Store, table: Table, m: Messages, currentEpoch: nat)
    requires currentEpoch < TWO_64
    ensures (forall root ::
               SubtreeStake(store, table, m, currentEpoch, root) == MeantStake(store, table, m, currentEpoch, root))
            <==> currentEpoch >= 2 || !exists e, v :: Weighs(table, m, currentEpoch, e, v)
  {
    if currentEpoch >= 2 {
      forall root { SupportersWhenLate(store, table, m, currentEpoch, root); }
    } else {
      forall root
        ensures SubtreeStake(store, table, m, currentEpoch, root) == MeantStake(store, table, m, currentEpoch, root)
                <==> forall vote | vote in Missed(store, table, m, currentEpoch, root) ::
                       VoteWeight(table, currentEpoch)(vote) == 0
      {
        MissedWeight(store, table, m, currentEpoch, root);
        WeightlessSumIff(Missed(store, table, m, currentEpoch, root), VoteWeight(table, currentEpoch));
      }
      if e, v :| Weighs(table, m, currentEpoch, e, v) {
        var root := m[e][v];
        assert Reaches(store, root, root, 0);
        assert (e, v) in Missed(store, table, m, currentEpoch, root);
        assert SubtreeStake(store, table, m, currentEpoch, root) != MeantStake(store, table, m, currentEpoch, root);
      } else {
        forall root, vote | vote in Missed(store, table, m, currentEpoch, root)
          ensures VoteWeight(table, currentEpoch)(vote) == 0
        {
          assert !Weighs(table, m, currentEpoch, vote.0, vote.1);
        }
      }
    }
  }

  // ---- The head before epoch two ----

  ghost predicate IsLowest(cs: seq<Hash>, c: Hash) {
    c in cs && forall x | x in cs :: !Less(x, c)
  }

  /** From its first block, always to the child with the lowest hash, until there is none. */
  ghost predicate LowestPath(children: Children, p: seq<Hash>) {
    && p != [] && ChildrenOf(children, p[|p| - 1]) == []
    && forall i | 0 <= i < |p| - 1 :: IsLowest(ChildrenOf(children, p[i]), p[i + 1])
  }

  lemma WeightlessChoice(children: Children, w: Hash -> nat, h: Hash, next: Hash)
    requires NoEmptyChild(children) && forall x :: w(x) == 0
    ensures Follows(children, w, h, next) <==> IsLowest(ChildrenOf(children, h), next)
  {
    var cs := ChildrenOf(children, h);
    if cs != [] {
      assert "" !in cs;
      ChooseIsHeaviest(cs, w);
      if IsLowest(cs, next) {
        HeaviestIsUnique(cs, cs, w, Choose(cs, w).0, next);
      }
    }
  }

  /**
   * Before epoch two the votes do not matter: the head is where the lowest hash at every fork leads
   * from the anchor, for every set of ordinary votes and every stake table.
   */
  lemma HeadIgnoresVotesBeforeEpochTwo(store: Store, table: Table, children: Children, s: State, head: Hash)
    requires CurrentEpoch(s.tracked) < 2 && OrdinaryVotes(s.messages, CurrentEpoch(s.tracked)) && NoEmptyChild(children)
    ensures IsHead(store, table, children, s, head) <==>
              exists p :: LowestPath(children, p) && p[0] == Anchor(s.finality, store) && p[|p| - 1] == head
  {
    var c := CurrentEpoch(s.tracked);
    var w := Weights(store, table, s.messages, c);
    forall x ensures w(x) == 0 { NoWeightBeforeEpochTwo(store, table, s.messages, c, x); }
    forall p ensures HeadPath(children, w, p) <==> LowestPath(children, p) { SamePaths(children, w, p); }
    assert forall p :: HeadPathOf(store, table, children, s, p) <==>
                       LowestPath(children, p) && p[0] == Anchor(s.finality, store);
  }

  lemma SamePaths(children: Children, w: Hash -> nat, p: seq<Hash>)
    requires NoEmptyChild(children) && forall x :: w(x) == 0
    ensures HeadPath(children, w, p) <==> LowestPath(children, p)
  {
    forall i | 0 <= i < |p| - 1
      ensures Follows(children, w, p[i], p[i + 1]) <==> IsLowest(ChildrenOf(children, p[i]), p[i + 1])
    {
      WeightlessChoice(children, w, p[i], p[i + 1]);
    }
  }
}
