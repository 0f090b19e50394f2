/** Reorganisations and finality: the chain a node follows never leaves the finalized block. */
module Reorg {
  import opened Base
  import opened BlockTree
  import opened ChainTraversal
  import opened ForkChoiceSpec
  import opened ForkChoiceEngine
  import opened ForkTree
  import opened HeadStability

  // ---- One reorganisation ----

  /** The plan an update computes: the first block above `current` that the head's bounded walk meets. */
  ghost predicate PlansReorg(store: Store, head: Hash, current: Hash, ancestor: Hash, blocks: seq<Block>) {
    && IsReorg(store, head, current, ancestor, blocks)
    && exists j: nat :: FirstShared(store, head, current, j) && Up(store, current, j) == Some(ancestor)
  }

  /** A finalized block above both heads lies at or above the block where they part. */
  lemma AncestorKeepsFinality(store: Store, finalized: Hash, head: Hash, current: Hash, ancestor: Hash, j: nat)
    requires finalized != ""
    requires Descends(store, head, finalized, FORK_CHOICE_DEPTH)
    requires DescendsFrom(store, current, finalized)
    requires FirstShared(store, head, current, j) && Up(store, current, j) == Some(ancestor)
    ensures OnChain(store, ancestor, finalized)
  {
    var h: nat :| h <= FORK_CHOICE_DEPTH && Reaches(store, head, finalized, h);
    var k: nat :| Reaches(store, current, finalized, k);
    ReachesIsUp(store, head, finalized, h);
    ReachesIsUp(store, current, finalized, k);
    assert OnWalk(store, head, MAX_DEPTH - 1, finalized);
    if k < j {
      assert SharedAt(store, head, current, k);
    }
    UpCompose(store, current, j, k - j);
  }

  /** If the current head is close enough to the finalized block, the search for the ancestor succeeds. */
  lemma SearchSucceedsInWindow(store: Store, finalized: Hash, head: Hash, current: Hash)
    requires finalized != ""
    requires Descends(store, head, finalized, FORK_CHOICE_DEPTH)
    requires Descends(store, current, finalized, MAX_DEPTH - 1)
    ensures exists j: nat :: j < MAX_DEPTH && SharedAt(store, head, current, j)
  {
    var h: nat :| h <= FORK_CHOICE_DEPTH && Reaches(store, head, finalized, h);
    var k: nat :| k <= MAX_DEPTH - 1 && Reaches(store, current, finalized, k);
    ReachesIsUp(store, head, finalized, h);
    ReachesIsUp(store, current, finalized, k);
    assert OnWalk(store, head, MAX_DEPTH - 1, finalized);
    assert SharedAt(store, head, current, k);
  }

  lemma ChainAboveIsOnChain(store: Store, h: Hash, a: Hash, x: Hash)
    requires OnChain(store, h, a) && OnChain(store, a, x)
    ensures OnChain(store, h, x)
  {
    var i: nat :| Up(store, h, i) == Some(a);
    var d: nat :| Up(store, a, d) == Some(x);
    UpCompose(store, h, i, d);
  }

  lemma DescendantHasItOnChain(store: Store, h: Hash, a: Hash)
    requires a != ""
    ensures DescendsFrom(store, h, a) <==> OnChain(store, h, a)
  {
    forall k: nat ensures Reaches(store, h, a, k) <==> Up(store, h, k) == Some(a) {
      ReachesIsUp(store, h, a, k);
    }
  }

  /**
   * Whatever an update reorganises, the blocks that leave the chain are strictly below the common
   * ancestor, the common ancestor is at or below the finalized block, and the finalized block with
   * everything above it stays.
   */
  lemma ReorgKeepsFinality(store: Store, finalized: Hash, head: Hash, current: Hash, ancestor: Hash, blocks: seq<Block>)
    requires WellFormed(store) && finalized != ""
    requires Descends(store, head, finalized, FORK_CHOICE_DEPTH)
    requires DescendsFrom(store, current, finalized)
    requires PlansReorg(store, head, current, ancestor, blocks)
    ensures DescendsFrom(store, ancestor, finalized) && DescendsFrom(store, head, finalized)
    ensures forall x | OnChain(store, finalized, x) :: OnChain(store, head, x) && OnChain(store, current, x)
    ensures forall x | OnChain(store, current, x) && !OnChain(store, head, x) ::
              StrictlyBelow(store, x, ancestor) && !OnChain(store, finalized, x)
  {
    var j: nat :| FirstShared(store, head, current, j) && Up(store, current, j) == Some(ancestor);
    AncestorKeepsFinality(store, finalized, head, current, ancestor, j);
    DescendantHasItOnChain(store, ancestor, finalized);
    DescendantHasItOnChain(store, head, finalized);
    DescendantHasItOnChain(store, current, finalized);
    assert OnChain(store, head, ancestor);
    forall x | OnChain(store, finalized, x) ensures OnChain(store, head, x) && OnChain(store, current, x) {
      ChainAboveIsOnChain(store, head, finalized, x);
      ChainAboveIsOnChain(store, current, finalized, x);
    }
    forall x | OnChain(store, current, x) && !OnChain(store, head, x) ensures StrictlyBelow(store, x, ancestor) {
      DroppedIsBelow(store, head, current, ancestor, x);
    }
  }

  ghost predicate StrictlyBelow(store: Store, x: Hash, a: Hash) {
    x != a && OnChain(store, x, a)
  }

  /** A block of the current chain that is not on the head's is below any block they share. */
  lemma DroppedIsBelow(store: Store, head: Hash, current: Hash, ancestor: Hash, x: Hash)
    requires OnChain(store, head, ancestor) && OnChain(store, current, ancestor)
    requires OnChain(store, current, x) && !OnChain(store, head, x)
    ensures StrictlyBelow(store, x, ancestor)
  {
    var i: nat :| Up(store, current, i) == Some(x);
    var j: nat :| Up(store, current, j) == Some(ancestor);
    if j <= i {
      UpCompose(store, current, j, i - j);
      ChainAboveIsOnChain(store, head, ancestor, x);
    } else {
      UpCompose(store, current, i, j - i);
    }
  }

  // ---- The update ----

  datatype Outcome =
    | NoHead
    | NotViable
    | NoCurrentBlock
    | SameHead
    | WaitingForQuorum
    | AncestorNotFound
    | NothingToApply
    | Halted
    | Reorganized(head: Hash, ancestor: Hash, blocks: seq<Block>)

  /**
   * The first of the reasons, in this order, that keeps an update with this head from reorganising, or
   * the reorganisation.
   */
  ghost predicate Decides(store: Store, s: State, table: Table, cfg: Config, now: int, head: Hash,
                          current: Option<Hash>, reorgOk: bool, outcome: Outcome) {
    if head == "" then outcome.NoHead?
    else if !Viable(store, s, head) then outcome.NotViable?
    else if current.None? then outcome.NoCurrentBlock?
    else if head == current.value then outcome.SameHead?
    else if ScoreOf(s.tracked, head) < Threshold(TotalWithCache(s.finality, TotalStake(table), cfg, now)) then
      outcome.WaitingForQuorum?
    else Moves(store, head, current.value, reorgOk, outcome)
  }

  /** The update has decided to go to `head`. */
  ghost predicate Moves(store: Store, head: Hash, current: Hash, reorgOk: bool, outcome: Outcome) {
    if forall j: nat | j < MAX_DEPTH :: !SharedAt(store, head, current, j) then outcome.AncestorNotFound?
    else if OnChain(store, current, head) then outcome.NothingToApply?
    else if !reorgOk then outcome.Halted?
    else outcome.Reorganized? && outcome.head == head && outcome.blocks != []
         && PlansReorg(store, head, current, outcome.ancestor, outcome.blocks)
  }

  class ConsensusEngine {
    const forkChoice: ForkChoice
    var store: Store
    var current: Option<Hash>

    /** The engine is given its fork choice and a world state that may hold blocks and a current one. */
    constructor (fc: ForkChoice, blocks: Store, head: Option<Hash>)
      ensures forkChoice == fc && store == blocks && current == head
    {
      forkChoice := fc;
      store, current := blocks, head;
    }

    /** Steps A to D: plan the way to the head and apply it. `reorgOk` is whether the chain accepts the blocks. */
    method MoveTo(head: Hash, reorgOk: bool) returns (outcome: Outcome)
      requires WellFormed(store) && current.Some?
      modifies `current
      ensures Moves(store, head, old(current).value, reorgOk, outcome)
      ensures current == if outcome.Reorganized? then Some(head) else old(current)
    {
      var plan := PlanReorg(store, head, current.value);
      if plan.NoCommonAncestor? {
        return AncestorNotFound;
      }
      if plan.blocks == [] {
        return NothingToApply;
      }
      if !reorgOk {
        return Halted;
      }
      outcome := Reorganized(head, plan.ancestor, plan.blocks);
      assert PlansReorg(store, head, current.value, plan.ancestor, plan.blocks);
      current := Some(head);
    }

    /** updateForkChoice. Only a performed reorganisation moves the current block. */
    method UpdateForkChoice(table: Table, now: int, reorgOk: bool) returns (outcome: Outcome, ghost head: Hash)
      requires WellFormed(store)
      requires HasHead(store, table, forkChoice.children, forkChoice.Now())
      modifies this`current, forkChoice`totalActiveStake, forkChoice`totalActiveStakeTime
      ensures IsHead(store, table, forkChoice.children, old(forkChoice.Now()), head)
      ensures Decides(store, old(forkChoice.Now()), table, forkChoice.cfg, now, head, old(current), reorgOk, outcome)
      ensures current == if outcome.Reorganized? then Some(head) else old(current)
    {
      var best := forkChoice.GetHead(store, table);
      head := best;
      if best == "" {
        return NoHead, head;
      }
      var viable := forkChoice.IsViableChain(store, best);
      if !viable {
        return NotViable, head;
      }
      if current.None? {
        return NoCurrentBlock, head;
      }
      if best == current.value {
        return SameHead, head;
      }
      var hasQuorum := forkChoice.HasQuorum(best, table, now);
      if !hasQuorum {
        return WaitingForQuorum, head;
      }
      outcome := MoveTo(best, reorgOk);
    }
  }

  /** The two walks, of at most 999 moves each, meet. */
  ghost predicate WalksMeet(store: Store, head: Hash, current: Hash) {
    exists i: nat, j: nat ::
      i < 1000 && j < 1000 && Up(store, head, i).Some? && Up(store, head, i) == Up(store, current, j)
  }

  lemma SharedIffWalksMeet(store: Store, head: Hash, current: Hash)
    ensures WalksMeet(store, head, current) <==> exists j: nat :: j < MAX_DEPTH && SharedAt(store, head, current, j)
  {
    if i: nat, j: nat :| i < 1000 && j < 1000 && Up(store, head, i).Some?
                         && Up(store, head, i) == Up(store, current, j) {
      assert OnWalk(store, head, MAX_DEPTH - 1, Up(store, current, j).value);
      assert SharedAt(store, head, current, j);
    }
    if j: nat :| j < MAX_DEPTH && SharedAt(store, head, current, j) {
      var i: nat :| i <= MAX_DEPTH - 1 && Up(store, head, i) == Some(Up(store, current, j).value);
      assert WalksMeet(store, head, current);
    }
  }

  /**
   * An update reorganises if and only if there is a head, viable and other than the current block, that more than two
   * thirds of the stake attest, the two chains meet within their walks, the head is not on the current chain already,
   * and the chain accepts the blocks.
   */
  lemma ReorganizesIff(store: Store, s: State, table: Table, cfg: Config, now: int, head: Hash, current: Option<Hash>,
                       reorgOk: bool, outcome: Outcome, total: nat)
    requires Decides(store, s, table, cfg, now, head, current, reorgOk, outcome)
    requires total == if now - s.finality.cachedAt < cfg.stakeCacheTTL && s.finality.cachedTotal != 0
                      then s.finality.cachedTotal else TotalStake(table)
    ensures outcome.Reorganized? <==>
            && head != "" && current.Some? && head != current.value
            && (match s.finality.finalized
                case None => true
                case Some(c) =>
                  && head in s.tracked.blockEpochMap && s.tracked.blockEpochMap[head] >= c.epoch
                  && Descends(store, head, c.blockHash, 100))
            && 3 * ScoreOf(s.tracked, head) > 2 * total
            && WalksMeet(store, head, current.value) && !OnChain(store, current.value, head) && reorgOk
  {
    if current.Some? { SharedIffWalksMeet(store, head, current.value); }
  }

  /** An update fails to find the common ancestor only when the node has strayed from the finalized block. */
  lemma AncestorSearchFailure(store: Store, s: State, head: Hash, current: Hash)
    requires Viable(store, s, head)
    requires Moves(store, head, current, true, AncestorNotFound)
    ensures s.finality.finalized.Some? && s.finality.finalized.value.blockHash != "" ==>
              !Descends(store, current, s.finality.finalized.value.blockHash, MAX_DEPTH - 1)
  {
    if s.finality.finalized.Some? && s.finality.finalized.value.blockHash != "" {
      var finalized := s.finality.finalized.value.blockHash;
      if Descends(store, current, finalized, MAX_DEPTH - 1) {
        SearchSucceedsInWindow(store, finalized, head, current);
      }
    }
  }

  /**
   * A head found from the finalized block is viable exactly when it is tracked, of no earlier epoch, and at most
   * FORK_CHOICE_DEPTH blocks below it: an update never moves to a head further down, whatever its votes.
   */
  lemma DeepHeadIsNotViable(store: Store, table: Table, children: Children, s: State, p: seq<Hash>, head: Hash,
                            cfg: Config, now: int, current: Option<Hash>, reorgOk: bool, outcome: Outcome)
    requires WellFormed(store) && TreeAgrees(store, children) && NoEmptyChild(children)
    requires HeadPathOf(store, table, children, s, p) && head == p[|p| - 1] && s.finality.finalized.Some?
    requires Decides(store, s, table, cfg, now, head, current, reorgOk, outcome)
    ensures Viable(store, s, head) <==>
            && head in s.tracked.blockEpochMap
            && s.tracked.blockEpochMap[head] >= s.finality.finalized.value.epoch
            && |p| - 1 <= FORK_CHOICE_DEPTH
    ensures |p| - 1 > FORK_CHOICE_DEPTH ==> outcome.NotViable?
  {
    HeadPathIsChildPath(children, Weights(store, table, s.messages, CurrentEpoch(s.tracked)), p);
    DescendsIffShort(store, children, p, FORK_CHOICE_DEPTH);
    if |p| > 1 { assert head in ChildrenOf(children, p[|p| - 2]); }
  }

  // ---- Runs under one finalized checkpoint ----

  datatype Chain = Chain(store: Store, current: Hash)

  /** What may happen to a node: blocks arrive on any branch, the head is extended, or fork choice is updated. */
  datatype ChainEvent =
    | BlocksStored
    | HeadExtended(block: Block)
    | Updated(s: State, table: Table, cfg: Config, now: int, head: Hash, reorgOk: bool, outcome: Outcome)

  /** The update decides as UpdateForkChoice does, on a fork choice state with this finalized block. */
  ghost predicate UpdateStep(finalized: Hash, c: Chain, e: ChainEvent, d: Chain)
    requires e.Updated?
  {
    && e.s.finality.finalized.Some? && e.s.finality.finalized.value.blockHash == finalized
    && Decides(c.store, e.s, e.table, e.cfg, e.now, e.head, Some(c.current), e.reorgOk, e.outcome)
    && d == Chain(c.store, if e.outcome.Reorganized? then e.head else c.current)
  }

  ghost predicate ChainStep(finalized: Hash, c: Chain, e: ChainEvent, d: Chain) {
    && WellFormed(d.store) && Extends(d.store, c.store)
    && match e
       case BlocksStored => d.current == c.current
       case HeadExtended(b) =>
         b.prevHash == c.current && b.hash in d.store && d.store[b.hash] == b && d.current == b.hash
       case Updated(_, _, _, _, _, _, _) => UpdateStep(finalized, c, e, d)
  }

  ghost predicate ChainRun(finalized: Hash, chains: seq<Chain>, events: seq<ChainEvent>) {
    && |chains| == |events| + 1
    && WellFormed(chains[0].store)
    && forall i | 0 <= i < |events| :: ChainStep(finalized, chains[i], events[i], chains[i + 1])
  }

  /**
   * What a reorganisation must not do: it parts from the old chain at or below the finalized block,
   * and every block it drops is strictly below the parting and no part of the finalized chain.
   */
  ghost predicate ReorgIsSafe(finalized: Hash, c: Chain, e: ChainEvent) {
    e.Updated? && e.outcome.Reorganized? ==>
      var ancestor := e.outcome.ancestor;
      && OnChain(c.store, c.current, ancestor) && OnChain(c.store, e.head, ancestor)
      && DescendsFrom(c.store, ancestor, finalized)
      && forall x | OnChain(c.store, c.current, x) && !OnChain(c.store, e.head, x) ::
           StrictlyBelow(c.store, x, ancestor) && !OnChain(c.store, finalized, x)
  }

  lemma OnChainMonotone(earlier: Store, later: Store, h: Hash, x: Hash)
    requires Extends(later, earlier) && OnChain(earlier, h, x)
    ensures OnChain(later, h, x)
  {
    var i: nat :| Up(earlier, h, i) == Some(x);
    UpMonotone(earlier, later, h, i);
  }

  lemma StepKeepsFinality(finalized: Hash, c: Chain, e: ChainEvent, d: Chain)
    requires WellFormed(c.store) && finalized != "" && ChainStep(finalized, c, e, d)
    requires c.current != "" && OnChain(c.store, c.current, finalized)
    ensures OnChain(d.store, d.current, finalized) && ReorgIsSafe(finalized, c, e)
  {
    OnChainMonotone(c.store, d.store, c.current, finalized);
    match e
    case BlocksStored =>
    case HeadExtended(b) =>
      var i: nat :| Up(d.store, c.current, i) == Some(finalized);
      assert Up(d.store, d.current, i + 1) == Some(finalized);
    case Updated(_, _, _, _, head, _, outcome) =>
      if outcome.Reorganized? {
        DescendantHasItOnChain(c.store, c.current, finalized);
        ReorgKeepsFinality(c.store, finalized, head, c.current, outcome.ancestor, outcome.blocks);
        DescendantHasItOnChain(c.store, head, finalized);
      }
  }

  /**
   * Safety over whole runs: while the finalized checkpoint stands, the node's head always descends
   * from it, every block that was at or above it is on the node's chain for good, and no
   * reorganisation of the run parts above it or drops any of it.
   */
  lemma {:induction false} FinalizedPrefixIsPermanent(finalized: Hash, chains: seq<Chain>, events: seq<ChainEvent>,
                                                      n: nat)
    requires finalized != "" && ChainRun(finalized, chains, events) && n < |chains|
    requires forall i | 0 <= i < |chains| :: chains[i].current != ""
    requires OnChain(chains[0].store, chains[0].current, finalized)
    ensures WellFormed(chains[n].store)
    ensures DescendsFrom(chains[n].store, chains[n].current, finalized)
    ensures forall x | OnChain(chains[0].store, finalized, x) ::
              OnChain(chains[n].store, finalized, x) && OnChain(chains[n].store, chains[n].current, x)
    ensures forall j | 0 <= j < n :: ReorgIsSafe(finalized, chains[j], events[j])
    decreases n
  {
    if n > 0 {
      FinalizedPrefixIsPermanent(finalized, chains, events, n - 1);
      assert ChainStep(finalized, chains[n - 1], events[n - 1], chains[n]);
      DescendantHasItOnChain(chains[n - 1].store, chains[n - 1].current, finalized);
      StepKeepsFinality(finalized, chains[n - 1], events[n - 1], chains[n]);
    }
    DescendantHasItOnChain(chains[n].store, chains[n].current, finalized);
    forall x | OnChain(chains[0].store, finalized, x)
      ensures OnChain(chains[n].store, finalized, x) && OnChain(chains[n].store, chains[n].current, x)
    {
      if n > 0 { OnChainMonotone(chains[n - 1].store, chains[n].store, finalized, x); }
      ChainAboveIsOnChain(chains[n].store, chains[n].current, finalized, x);
    }
  }
}
