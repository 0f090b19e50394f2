/** A vote for the head never moves the head. */
module HeadStability {
  import opened Base
  import opened StakeSums
  import opened BlockTree
  import opened ChainTraversal
  import opened Decay
  import opened ForkChoiceSpec
  import opened ForkTree

  /** Every block told to fork choice is in the store, under the parent it was listed below. */
  ghost predicate TreeAgrees(store: Store, children: Children) {
    forall h, c | c in ChildrenOf(children, h) :: c in store && store[c].prevHash == h
  }

  /** Walking up from the end of a child path retraces it. */
  lemma {:induction false} PathIsWalk(store: Store, children: Children, p: seq<Hash>, i: nat)
    requires TreeAgrees(store, children) && NoEmptyChild(children) && ChildPath(children, p)
    requires 0 < i < |p|
    ensures Up(store, p[|p| - 1], |p| - 1 - i) == Some(p[i])
    decreases |p| - i
  {
    if i < |p| - 1 {
      PathIsWalk(store, children, p, i + 1);
      assert p[i + 1] in ChildrenOf(children, p[i]);
      assert p[i] in ChildrenOf(children, p[i - 1]);
      UpStep(store, p[|p| - 1], |p| - 1 - (i + 1));
    }
  }

  /** Two blocks with the same parent are never on one walk. */
  lemma SiblingsAreApart(store: Store, h: Hash, i: nat, j: nat, a: Hash, b: Hash)
    requires WellFormed(store)
    requires i < j && Up(store, h, i) == Some(a) && Up(store, h, j) == Some(b)
    requires a in store && b in store
    ensures store[a].prevHash != store[b].prevHash
  {
    UpCompose(store, h, i, j - i);
    UpStep(store, h, i);
    UpStep(store, h, j);
    if store[a].prevHash == store[b].prevHash {
      WalkIsInjective(store, h, i + 1, j + 1);
    }
  }

  /** Among the children of a block on the path, only the one on the path has the path's end below it. */
  lemma OnlyThePathSupports(store: Store, children: Children, p: seq<Hash>, i: nat, x: Hash, limit: nat)
    requires WellFormed(store) && TreeAgrees(store, children) && NoEmptyChild(children) && ChildPath(children, p)
    requires i + 1 < |p| && x in ChildrenOf(children, p[i])
    requires Descends(store, p[|p| - 1], x, limit)
    ensures x == p[i + 1]
  {
    var head := p[|p| - 1];
    var k: nat :| k <= limit && Reaches(store, head, x, k);
    ReachesIsUp(store, head, x, k);
    PathIsWalk(store, children, p, i + 1);
    var j := |p| - 1 - (i + 1);
    assert p[i + 1] in ChildrenOf(children, p[i]);
    if k < j {
      SiblingsAreApart(store, head, k, j, x, p[i + 1]);
    } else if j < k {
      SiblingsAreApart(store, head, j, k, p[i + 1], x);
    }
  }

  /**
   * One new vote of an active validator, if it passes the epoch test and is for the root or a block at most a hundred
   * below it, adds its decayed stake to the weight of the subtree. Any other adds nothing.
   */
  lemma WeightAfterVote(store: Store, table: Table, m: Messages, currentEpoch: nat, att: Attestation, root: Hash)
    requires att.validator !in VotesOf(m, att.epoch)
    ensures SubtreeStake(store, table, RecordMessage(m, att), currentEpoch, root) >=
            SubtreeStake(store, table, m, currentEpoch, root)
    ensures SubtreeStake(store, table, RecordMessage(m, att), currentEpoch, root) ==
            SubtreeStake(store, table, m, currentEpoch, root) +
              if att.validator in table && table[att.validator].active && att.epoch >= SubU64(currentEpoch, 2)
                 && Descends(store, att.blockHash, root, 100)
              then Decayed(table[att.validator].stake, att.epoch, currentEpoch) else 0
  {
    var n := RecordMessage(m, att);
    var before := Supporters(store, table, m, currentEpoch, root);
    var after := Supporters(store, table, n, currentEpoch, root);
    var vote := (att.epoch, att.validator);
    forall e, v | (e, v) != vote ensures (e, v) in before <==> (e, v) in after {
    }
    assert vote !in before;
    if vote in after {
      assert after == before + {vote};
      SumAdd(before, VoteWeight(table, currentEpoch), vote);
    } else {
      assert after == before;
    }
  }

  lemma HeaviestStaysHeaviest(cs: seq<Hash>, w: Hash -> nat, w': Hash -> nat, c: Hash)
    requires IsHeaviest(cs, w, c)
    requires w'(c) >= w(c) && forall x | x in cs && x != c :: w'(x) == w(x)
    ensures IsHeaviest(cs, w', c)
  {
  }

  /** After one more vote for its last block, the head path is still a head path. */
  lemma PathSurvivesVote(store: Store, table: Table, children: Children, m: Messages, currentEpoch: nat,
                         att: Attestation, p: seq<Hash>)
    requires WellFormed(store) && TreeAgrees(store, children) && NoEmptyChild(children)
    requires att.validator !in VotesOf(m, att.epoch)
    requires HeadPath(children, Weights(store, table, m, currentEpoch), p) && att.blockHash == p[|p| - 1]
    ensures HeadPath(children, Weights(store, table, RecordMessage(m, att), currentEpoch), p)
  {
    var w, w' := Weights(store, table, m, currentEpoch), Weights(store, table, RecordMessage(m, att), currentEpoch);
    HeadPathIsChildPath(children, w, p);
    forall i | 0 <= i < |p| - 1 ensures Follows(children, w', p[i], p[i + 1]) {
      var cs := ChildrenOf(children, p[i]);
      assert Follows(children, w, p[i], p[i + 1]) && "" !in cs;
      ChooseIsHeaviest(cs, w);
      WeightAfterVote(store, table, m, currentEpoch, att, p[i + 1]);
      forall x | x in cs && x != p[i + 1] ensures w'(x) == w(x) {
        if Descends(store, att.blockHash, x, FORK_CHOICE_DEPTH) {
          OnlyThePathSupports(store, children, p, i, x, FORK_CHOICE_DEPTH);
        }
        WeightAfterVote(store, table, m, currentEpoch, att, x);
      }
      HeaviestStaysHeaviest(cs, w, w', p[i + 1]);
      ChooseIsHeaviest(cs, w');
      HeaviestIsUnique(cs, cs, w', p[i + 1], Choose(cs, w').0);
    }
  }

  /**
   * Head stability: recording one more vote for the head, with the current epoch and the anchor
   * unchanged, leaves that block the head, for every tree, vote set and stake table.
   */
  lemma HeadIsStable(store: Store, table: Table, children: Children, s: State, t: State, att: Attestation,
                     before: Hash, after: Hash)
    requires WellFormed(store) && TreeAgrees(store, children) && NoEmptyChild(children)
    requires IsHead(store, table, children, s, before) && att.blockHash == before
    requires att.validator !in VotesOf(s.messages, att.epoch)
    requires t.messages == RecordMessage(s.messages, att)
    requires CurrentEpoch(t.tracked) == CurrentEpoch(s.tracked)
             && Anchor(t.finality, store) == Anchor(s.finality, store)
    requires IsHead(store, table, children, t, after)
    ensures after == before
  {
    var p :| HeadPathOf(store, table, children, s, p) && p[|p| - 1] == before;
    PathSurvivesVote(store, table, children, s.messages, CurrentEpoch(s.tracked), att, p);
    assert HeadPathOf(store, table, children, t, p);
    assert IsHead(store, table, children, t, before);
    HeadIsUnique(store, table, children, children, t, before, after);
  }

  /** A tree that agrees with the store has no cycles, so the descent ends. */
  lemma AgreeingTreeIsAcyclic(store: Store, children: Children)
    requires WellFormed(store) && TreeAgrees(store, children) && NoEmptyChild(children)
    ensures AcyclicChildren(children)
  {
    forall p | ChildPath(children, p) && |p| >= 2 ensures p[0] != p[|p| - 1] {
      if p[0] == p[|p| - 1] {
        var last := p[|p| - 1];
        PathIsWalk(store, children, p, 1);
        assert p[1] in ChildrenOf(children, p[0]);
        assert last in ChildrenOf(children, p[|p| - 2]);
        UpStep(store, last, |p| - 2);
        WalkIsInjective(store, last, 0, |p| - 1);
      }
    }
  }

  lemma PathReachesStart(store: Store, children: Children, p: seq<Hash>)
    requires TreeAgrees(store, children) && NoEmptyChild(children) && ChildPath(children, p)
    ensures Reaches(store, p[|p| - 1], p[0], |p| - 1)
  {
    if |p| > 1 {
      PathIsWalk(store, children, p, 1);
      assert p[1] in ChildrenOf(children, p[0]);
    }
  }

  /** The end of a child path descends from its start, within a depth bound, exactly if the path keeps to the bound. */
  lemma DescendsIffShort(store: Store, children: Children, p: seq<Hash>, limit: nat)
    requires WellFormed(store) && TreeAgrees(store, children) && NoEmptyChild(children) && ChildPath(children, p)
    ensures Descends(store, p[|p| - 1], p[0], limit) <==> |p| - 1 <= limit
  {
    PathReachesStart(store, children, p);
    if |p| > 1 && Descends(store, p[|p| - 1], p[0], limit) {
      var k: nat :| k <= limit && Reaches(store, p[|p| - 1], p[0], k);
      AgreeingTreeIsAcyclic(store, children);
      var x, y := Up(store, p[|p| - 1], k - 1).value, p[1];
      PathIsWalk(store, children, p, 1);
      assert y in ChildrenOf(children, p[0]);
      if k - 1 < |p| - 2 {
        SiblingsAreApart(store, p[|p| - 1], k - 1, |p| - 2, x, y);
      }
    }
  }

  // ---- Where the head is found ----

  /** The descent from this block, always to the heaviest child, ends at that one. */
  ghost predicate LeadsTo(children: Children, w: Hash -> nat, from: Hash, to: Hash) {
    exists p :: HeadPath(children, w, p) && p[0] == from && p[|p| - 1] == to
  }

  /**
   * The head is where the descent from the finalized block leads, without one from the justified block, and with
   * neither from what the store holds under the empty hash, or from the empty hash itself.
   */
  lemma HeadIs(store: Store, table: Table, children: Children, s: State, head: Hash)
    ensures var w := Weights(store, table, s.messages, CurrentEpoch(s.tracked));
            IsHead(store, table, children, s, head) <==>
              match (s.finality.finalized, s.finality.justified)
              case (Some(c), _) => LeadsTo(children, w, c.blockHash, head)
              case (None, Some(c)) => LeadsTo(children, w, c.blockHash, head)
              case (None, None) => LeadsTo(children, w, if "" in store then store[""].hash else "", head)
  {
    var w := Weights(store, table, s.messages, CurrentEpoch(s.tracked));
    assert forall p :: HeadPathOf(store, table, children, s, p) <==>
                       HeadPath(children, w, p) && p[0] == Anchor(s.finality, store);
    if p :| HeadPathOf(store, table, children, s, p) && p[|p| - 1] == head {
      assert LeadsTo(children, w, p[0], head);
    }
  }

  lemma LeadsBelow(store: Store, children: Children, w: Hash -> nat, from: Hash, to: Hash)
    requires TreeAgrees(store, children) && NoEmptyChild(children) && LeadsTo(children, w, from, to)
    ensures DescendsFrom(store, to, from)
  {
    var p :| HeadPath(children, w, p) && p[0] == from && p[|p| - 1] == to;
    HeadPathIsChildPath(children, w, p);
    PathReachesStart(store, children, p);
  }

  /** The head descends from the finalized block, and without one from the justified block. */
  lemma HeadDescendsFromCheckpoint(store: Store, table: Table, children: Children, s: State, head: Hash)
    requires TreeAgrees(store, children) && NoEmptyChild(children) && IsHead(store, table, children, s, head)
    ensures s.finality.finalized.Some? ==> DescendsFrom(store, head, s.finality.finalized.value.blockHash)
    ensures s.finality.finalized.None? && s.finality.justified.Some? ==>
              DescendsFrom(store, head, s.finality.justified.value.blockHash)
  {
    var w := Weights(store, table, s.messages, CurrentEpoch(s.tracked));
    HeadIs(store, table, children, s, head);
    match (s.finality.finalized, s.finality.justified)
    case (Some(c), _) => LeadsBelow(store, children, w, c.blockHash, head);
    case (None, Some(c)) => LeadsBelow(store, children, w, c.blockHash, head);
    case (None, None) =>
  }
}
