# Thrylos proof-of-stake consensus, modelled and proved in Dafny

This project models the consensus core of Thrylos: how a node walks the block tree and reorganises,
how fork choice counts attestations, justifies, finalizes and picks a head, how misbehaviour is
detected and charged, what the adversarial simulation reports, and how a proposer packs a block.
`dafny verify dfyconfig.toml` checks all of it.

Code that changes state is modelled by classes and loops. Each such method is proved against a
function from state to state (`ForkChoiceSpec`, `Votes`, `Ledger`, ...), and the promises are proved
of that function over every run. Where Go leaves an outcome to map iteration order, the function
takes the order as an explicit choice and the results hold for every choice.

| file | what it holds |
|---|---|
| `Base`, `BlockTree`, `HashOrder` | shared types, sums over sets, walks up a block store, the order of hashes |
| `ChainTraversal`, `Reorg` | bounded walks, the ancestry cache, the reorganisation plan, safety of the finalized prefix |
| `ForkChoiceSpec`, `ForkChoice` | fork choice as a state machine, and the class that implements it |
| `ForkChoiceInvariants`, `ForkChoiceEffects`, `Tallies`, `ForkChoiceMeaning` | what every run keeps, what one step brings about, when the tallies count real votes, and what each step does in terms of epochs, stakes and times |
| `FinalityWitness`, `TallyWitness`, `CapWitness` | runs that finalize a minority's block, take finality back, count a vote twice, exceed the block cap |
| `ForkTree`, `HeadStability`, `EpochWrap`, `LatestVotes`, `Decay`, `ChainStake` | the head rule, its determinism and stability, the head before epoch two, the latest-message rule, decayed weights, the stake behind a chain |
| `SimulationSpec`, `Simulation`, `SimulationRun`, `SimulationMeaning` | the simulation's closed form, its loops, and what its report says of the configuration |
| `Votes`, `VoteWitness`, `Ledger`, `RateLimiter`, `RateWitness`, `Confirmations`, `EvidencePipeline` | slashing, from detection to penalty |
| `Packing` | transaction selection and the block checks |

## Main results

- **The finalized prefix is permanent.** However blocks arrive and whichever reorganisations an update
  performs, the node's chain keeps the finalized block and everything above it; every reorganisation of
  the run parts at or below that block and drops only blocks below the parting
  (`Reorg.FinalizedPrefixIsPermanent`). No bound on the distance to the finalized block is needed for
  this. The 999-block window only decides whether the search for the ancestor succeeds.
- **The books balance in every run.** Scores, attester sets and stored attestations agree, votes never
  change, justified checkpoints carry more than two thirds, and at most 51 epochs are tracked
  (`ForkChoiceInvariants.RunKeepsInv`).
- **A quorum on record is a quorum of votes** in every run in which no removal leaves a block behind in a tally
  (`Tallies.FinalizedQuorumIsReal`); the condition on one removal is exact (`Tallies.RemovalIsCleanIff`).
- **The head does not depend on order and does not move under a vote for it** (`ForkTree.HeadIsUnique`,
  `HeadStability.HeadIsStable`).
- **The simulation reports exactly what the arrival times say**, for every configuration, by a closed
  form that has no loops (`SimulationRun.RunAdversarialSimulation`).
- **Slashing conserves balances and charges each piece of evidence once** (`Ledger.RunIsSound`), and
  accepted votes obey both Casper FFG conditions (section 2 of "Casper the Friendly Finality Gadget",
  arXiv:1710.09437) within the window of kept votes (`Votes.AcceptedVotesObeyBothConditions`).

## Where the code does less than its comments say

The model follows the code. Each item has a lemma with the exact condition; for the rate limiter it is
the exact bound.

- A finalized checkpoint need not have two thirds of its epoch's votes behind it. The finalized block is simply
  the one with the largest tally two epochs below the justified one. It has the quorum, in whatever order Go
  iterates, if and only if a block with two thirds of the votes has the largest tally alone
  (`FinalizedHasQuorumIff`, and `MinorityIsFinalized` for a run).
- Even a quorum on record need not be real: a tally can count a vote twice, because removing a block clears only
  the tally of the epoch it was last attested in. A removal leaves the block in no tally if and only if no other
  epoch tallies it (`RemovalIsCleanIff`); a vote is counted again exactly when the block has lost its attester
  (`CountedAgainIff`); `QuorumOnRecordIsNotReal` is a run that finalizes a block with 80 of 100 on record and 40
  behind it. Where no removal leaves a block behind, a tally never exceeds the votes (`TalliesCountVotes`) and a
  quorum on record is real (`FinalizedQuorumIsReal`). Without a cap, and with every block attested in one epoch
  only, every run is like this (`OneEpochRunsAreClean`).
- An attestation at a multiple of the checkpoint interval never finalizes, because the periodic checkpoint is
  written first and then looks already justified. `FinalizesIff` says exactly which attestations finalize. With
  an interval of one none does (`IntervalOneNeverFinalizes`).
- `UpdateFinalization` subtracts epochs without a sign: it finalizes the justified checkpoint if and only if the
  current epoch is at least the waiting time ahead of it, or behind it (`AutoFinalizesIff`).
- `UpdateFinalization` can take the finalized epoch back: exactly when the justified checkpoint is
  older than the finalized one and old enough (`ApplyKeepsInv`, and `FinalityIsTakenBack` for a run).
- The lower epoch bound of subtree weights is an unsigned `currentEpoch-2`, which wraps before epoch two.
  The weights are as meant if and only if epoch two has come or no vote of an ordinary epoch carries weight
  (`WeightsAreMeantIff`). Until then each fork goes to the lowest hash whatever the votes say
  (`HeadIgnoresVotesBeforeEpochTwo`).
- The per-epoch block cap is not first-in-first-out. Removing a block filters a slice that the pruning
  loop is still reading. The list loses just its first entry if and only if that entry is no longer tracked in
  this epoch, because its epoch was overwritten or because it was removed before, or the list has one other
  hash; and a block is evicted if and only if the first entry is still tracked (`EvictionIsMeantIff`). A list
  without repetitions loses its second entry and repeats its last (`EvictionSkipsABlock`), and the repetition
  later takes the place of an eviction. So the cap is no cap: for every m there is a run that tracks 2 + m blocks
  of one epoch under a cap of two (`CapIsExceeded`).
- Subtree weights are said to use each validator's latest message. They use one message per validator and epoch.
  All subtrees weigh what the latest messages say if and only if no active validator has a superseded vote that
  passes the epoch test and has not decayed to nothing (`LatestOnlyIff`). Otherwise a validator can weigh three
  times (`ThreeTimes`), and not more as long as no vote is ahead of the current epoch (`AtMostThreeTimes`).
  Attesting a block again in a later epoch is such a vote: the books and the current epoch stay as they are, and
  each repetition adds the full stake once more (`RepeatsAddWeight`).
- Viability walks at most 100 blocks, the search for a common ancestor 999. A head more than 100 blocks below the
  finalized block is never viable, so no update moves there (`DeepHeadIsNotViable`).
- A cached "not a descendant" can go stale. It stays right for every later store exactly when the walk
  did not stop at a missing block with room, by its index, between the ancestor and the missing block's
  children (`NegativeAnswersStayCorrectIff`).
- The sibling choice depends on list order exactly when an empty hash ties for the heaviest
  (`ChoiceIgnoresOrderIff`).
- Reporting a double vote the other way round is charged again, unless both attestations are equal
  (`SwappedReportChargedAgainIff`). The same two surround votes are charged again exactly when they are
  written down in other seconds (`SameVotesChargedAgainIff`).
- Evidence is spent before the balance is written. A report of unspent evidence spends it without a charge,
  for the rest of the run, if and only if that write fails (`FailedWriteLosesEvidenceIff`).
- A surround with a vote older than the last 1000 kept ones is not noticed (`AcceptsIff`). In a run of n votes
  followed by one that surrounds the first, with working lookups and different targets, the last is accepted if
  and only if n exceeds 1000 (`SurroundIsAcceptedIff`). A second vote for a target is accepted exactly when the
  duplicate lookup fails (`DuplicateAcceptedIff`).
- Packing splits its input exactly if and only if every nonce lookup succeeds (`SplitIsExactIff`); a failed
  sender's transactions are listed twice as often as they were given (`TimesListed`). The failed lookup leaves
  nonce zero, so a transaction is both selected and excluded if and only if the lookup fails and it is taken all
  the same, its sender's nonces running on from zero (`SelectedAndExcludedIff`, and `NonceZeroIsSelected` for an
  input); the others are excluded twice.
- The simulation's default quorum is 6666 ten-thousandths of the stake, a little less than two thirds (`QuorumIs`).
  Its slot sums are unsigned: an attestation arrives after its delay, and from the other side of a partition after
  the partition, if and only if no sum wraps around (`ArrivesAsMeantIff`).
- Three reports within ten minutes are not always enough. The window is opened by the first report, which may be the
  accused's own (`OlderWindowSpoils`); within it a report is answered "ready" if and only if it brings the different
  reporters to three (`ReadyInWindowIff`).
- The rate limiter's ten an hour and fifty a day hold for hours and days that begin with a restart of the
  counter (`LimitFromARestart`). Any other hour is bounded by 20 and any other day by 100
  (`BoundedInAnyWindow`), and both are attained (`TwentyInAnHour`, `HundredInADay`).

## Model

| member | source | states |
|---|---|---|
| `ChainTraversal.ComputeIsDescendant` | consensus/pos/consensus_chain_traversal.go:92-130 | The bounded walk answers yes exactly when the ancestor is met within the depth bound, empty and missing hashes included |
| `ChainTraversal.ChainCache.constructor` | consensus/pos/consensus_chain_traversal.go:21-25 | A new cache is right about every store |
| `ChainTraversal.ChainCache.Get` | consensus/pos/consensus_chain_traversal.go:28-38 | Found exactly when both keys are present, with the stored answer |
| `ChainTraversal.ChainCache.Set` | consensus/pos/consensus_chain_traversal.go:41-49 | Only the one answer changes |
| `ChainTraversal.ChainCache.Clear` | consensus/pos/consensus_chain_traversal.go:52-56 | Nothing is remembered |
| `ChainTraversal.ChainCache.ClearAncestor` | consensus/pos/consensus_chain_traversal.go:59-63 | Only that ancestor's answers go, and a correct cache stays correct |
| `ChainTraversal.IsDescendant` | consensus/pos/consensus_chain_traversal.go:71-89 | With a cache that is right about the store, the cached test answers as the plain walk and the cache stays right |
| `ChainTraversal.PositiveAnswersStayCorrect` | consensus/pos/consensus_chain_traversal.go:71-89 | A remembered yes is right for every store that extends the one it was computed on |
| `ChainTraversal.NegativeAnswersStayCorrectIff` | consensus/pos/consensus_chain_traversal.go:71-89 | A remembered no is right for every well-formed extension if and only if its walk met no missing block for which an index is free above the ancestor's and below those of its stored children |
| `ChainTraversal.GetChainPath` | consensus/pos/consensus_chain_traversal.go:134-166 | Succeeds exactly when the ancestor is within the bound, and returns the walk up to its first meeting with the ancestor |
| `ChainTraversal.CollectAncestors` | consensus/pos/consensus_chain_traversal.go:176-196 | The set holds exactly the blocks of the bounded walk |
| `ChainTraversal.GetCommonAncestor` | consensus/pos/consensus_chain_traversal.go:170-218 | Returns the first block above the second hash that the first one's walk meets, and fails only if there is none within the bound |
| `ChainTraversal.CommonAncestorIsLowest` | consensus/pos/consensus_chain_traversal.go:170-218 | Every block the two chains share, at any depth, is at or above the block found: the depth bound never yields a higher one |
| `ChainTraversal.BelowSharedIsPrivate` | consensus/pos/consensus_chain_traversal.go:170-218 | Blocks of one walk below the shared block are on no part of the other chain |
| `ChainTraversal.PlanReorg` | consensus/pos/consensus.go:423-455 | Once an ancestor is found neither the path nor a lookup can fail; the list is parent-linked from just above the lowest common ancestor to the head and shares no block with the current chain |
| `Reorg.AncestorKeepsFinality` | consensus/pos/consensus.go:423-433 | A finalized block above both heads is at or above the common ancestor found |
| `Reorg.SearchSucceedsInWindow` | consensus/pos/consensus_chain_traversal.go:170-218 | If the current head is within 999 blocks of the finalized block and the new head is viable, the ancestor search succeeds |
| `Reorg.ReorgKeepsFinality` | consensus/pos/consensus.go:395-479 | The blocks a reorganisation drops are strictly below the common ancestor; the finalized block and all above it stay on both chains |
| `Reorg.ConsensusEngine.constructor` | consensus/pos/consensus.go:37-152 | The engine starts from the blocks and the current block of the world state it is given |
| `Reorg.ConsensusEngine.MoveTo` | consensus/pos/consensus.go:423-479 | Says for every store which of the four outcomes the move to the head has, and that only a performed one changes the current block |
| `Reorg.ConsensusEngine.UpdateForkChoice` | consensus/pos/consensus.go:395-479 | Wherever the descent ends, the outcome is decided by the unique head, its viability, the current block, the quorum and the lowest common ancestor, in that order; nothing else moves the current block |
| `Reorg.AncestorSearchFailure` | consensus/pos/consensus.go:423-428 | The search can fail only when the current block is not within 999 blocks below the finalized one |
| `Reorg.DeepHeadIsNotViable` | consensus/pos/fork_choice.go:660-700 | On trees that agree with the store, the head found from the finalized block is viable if and only if it is tracked, of no earlier epoch and at most 100 blocks below; further down the update always stops as not viable |
| `Reorg.ReorganizesIff` | consensus/pos/consensus.go:395-479 | An update reorganises if and only if there is a viable head other than the current block with more than two thirds of the stake, both chains meet within 999 moves, the head is not on the current chain, and the blocks are accepted |
| `Reorg.StepKeepsFinality` | consensus/pos/consensus.go:395-479 | Storing blocks, extending the head and updating fork choice each keep the finalized block on the chain, and a reorganisation drops only what is strictly below the parting |
| `Reorg.FinalizedPrefixIsPermanent` | consensus/pos/consensus.go:395-479 | In every run of stored blocks, extensions and updates under one finalized checkpoint, the head descends from it, every block at or above it stays on the chain, and each reorganisation parts at or below it and drops no block of it |
| `HashOrder.LessIsTotal` | consensus/pos/fork_choice.go:456-461 | The tie-break orders any two different hashes |
| `HashOrder.LessIs` | consensus/pos/fork_choice.go:456-461 | The tie-break is dictionary order: a proper prefix first, otherwise the lower byte at the first difference |
| `Decay.ApplyWeightDecay` | consensus/pos/fork_choice.go:750-775 | Computes nine tenths, rounded down, once per epoch of age up to 32, and the stake itself for votes not in the past |
| `Decay.DecayBounds` | consensus/pos/fork_choice.go:750-775 | After k rounds the result d of stake s satisfies 10^k d <= 9^k s <= 10^k d + 9 (10^k - 9^k) |
| `Decay.DecayIsMonotone` | consensus/pos/fork_choice.go:750-775 | More stake never decays to less |
| `Decay.DecayNeverGrows` | consensus/pos/fork_choice.go:750-775 | Weight never grows as the vote ages and never exceeds the stake |
| `Decay.WeightIs` | consensus/pos/fork_choice.go:750-775 | The weight is the stake times nine tenths per epoch of age, up to 32, short by less than nine; a vote not in the past keeps its stake |
| `ForkChoiceEngine.ForkChoice.constructor` | consensus/pos/fork_choice.go:76-102 | A new fork choice is in the empty state |
| `ForkChoiceEngine.ForkChoice.GetTotalActiveStake` | consensus/pos/fork_choice.go:364-385 | The cached total while it is fresh and not zero, else the sum over active validators, in any table order |
| `ForkChoiceEngine.ForkChoice.RemoveTrackedBlock` | consensus/pos/fork_choice.go:307-336 | The block leaves every per-block map, its tally and its order list; other blocks keep theirs |
| `ForkChoiceEngine.ForkChoice.PruneEpochBlocks` | consensus/pos/fork_choice.go:288-305 | The pruning loop with its shared backing array, state by state |
| `ForkChoiceEngine.ForkChoice.GetCurrentEpoch` | consensus/pos/fork_choice.go:405-413 | The largest tracked epoch, zero if there is none |
| `ForkChoiceEngine.ForkChoice.CleanupOldEpochs` | consensus/pos/finality.go:286-395 | Drops exactly the tallies, votes and blocks below the cutoff, for some visiting order of the stale blocks |
| `ForkChoiceEngine.ForkChoice.EnsurePeriodicCheckpoint` | consensus/pos/fork_choice_security.go:157-180 | At a multiple of the interval the checkpoint is justified without comparing epochs; otherwise nothing changes |
| `ForkChoiceEngine.ForkChoice.CheckFinalization` | consensus/pos/finality.go:69-133 | Finalizes a block with the largest tally two epochs below the justified one, if that epoch is newer than the finalized one and has a tally |
| `ForkChoiceEngine.ForkChoice.CheckJustification` | consensus/pos/finality.go:17-62 | Justifies a newer epoch whose stake reaches the threshold, then tries to finalize |
| `ForkChoiceEngine.ForkChoice.CheckBlockQuorum` | consensus/pos/fork_choice.go:263-285 | Quorum, periodic checkpoint and justification, in this order, for some choice among equal tallies |
| `ForkChoiceEngine.ForkChoice.AddAttester` | consensus/pos/fork_choice.go:196-232 | The attester, the stored attestation up to the limit, the score and the epoch of the block |
| `ForkChoiceEngine.ForkChoice.TallyAttestation` | consensus/pos/fork_choice.go:238-253 | The epoch's tally grows by the stake, and an epoch seen for the first time triggers a cleanup |
| `ForkChoiceEngine.ForkChoice.ProcessAttestation` | consensus/pos/fork_choice.go:117-286 | One attestation moves the whole state exactly as the state machine says, for a choice Go's map iteration can make |
| `ForkChoiceEngine.ForkChoice.UpdateFinalization` | consensus/pos/fork_choice_security.go:117-149 | The justified checkpoint becomes the finalized one once its unsigned age reaches the wait |
| `ForkChoiceEngine.ForkChoice.OnBlockAdded` | consensus/pos/fork_choice.go:555-566 | The block is appended to its parent's children and no other list changes |
| `ForkChoiceEngine.ForkChoice.HasQuorum` | consensus/pos/fork_choice.go:569-586 | True exactly when the block's score reaches two thirds, rounded down, plus one |
| `ForkChoiceEngine.ForkChoice.GetSubtreeStake` | consensus/pos/fork_choice.go:520-552 | The decayed stake of the set of recent votes, by active validators, for the root or a block below it, in any iteration order |
| `ForkChoiceEngine.ForkChoice.SelectBestChild` | consensus/pos/fork_choice.go:441-463 | Computes the choice among siblings by the weights above |
| `ForkChoiceEngine.ForkChoice.GetHead` | consensus/pos/fork_choice.go:417-468 | Wherever the descent ends at all, it ends at the leaf below the anchor to which the sibling choice leads at every fork |
| `ForkTree.AcyclicHasHead` | consensus/pos/fork_choice.go:417-468 | On every acyclic child map the descent ends, for every set of votes |
| `ForkTree.DescentIsHeaviest` | consensus/pos/fork_choice.go:433-467 | Unless an empty hash ties on the way, each block of the descent is the heaviest of its siblings with the lowest hash among equals |
| `ForkChoiceEngine.ForkChoice.IsViableChain` | consensus/pos/fork_choice.go:660-700 | True exactly when nothing is finalized, or the block is tracked, not older than the finalized epoch, and within 100 blocks below the finalized block |
| `ForkTree.ChooseIsHeaviest` | consensus/pos/fork_choice.go:441-463 | Unless the empty hash ties, the selection loop picks the heaviest child with the lowest hash among equals |
| `ForkTree.ChoiceIgnoresOrderIff` | consensus/pos/fork_choice.go:441-463 | Every ordering of the child list gives the same choice if and only if the empty hash does not tie for the heaviest |
| `ForkTree.HeadIsUnique` | consensus/pos/fork_choice.go:417-468 | Two nodes with the same children, in whatever order, have the same head |
| `HeadStability.WeightAfterVote` | consensus/pos/fork_choice.go:520-552 | One more vote adds its decayed stake to exactly the subtrees it is in within a hundred blocks, if it passes the epoch test and is an active validator's |
| `HeadStability.OnlyThePathSupports` | consensus/pos/fork_choice.go:677-700 | A vote for the head supports, among siblings, only the one on the path to the head |
| `HeadStability.HeadIsStable` | consensus/pos/fork_choice.go:417-468 | For every tree, vote set and stake table, a new vote for the head with anchor and epoch unchanged leaves the head where it is |
| `HeadStability.AgreeingTreeIsAcyclic` | consensus/pos/fork_choice.go:555-566 | Child lists that agree with a store whose indices fall along parents have no cycle, so the descent ends |
| `HeadStability.DescendsIffShort` | consensus/pos/fork_choice.go:678-700 | The end of a child path descends from its start within a depth bound if and only if the path is no longer than the bound |
| `HeadStability.HeadIs` | consensus/pos/fork_choice.go:417-476 | The head is where the descent from the finalized block leads, else from the justified one, else from genesis or the empty hash |
| `HeadStability.HeadDescendsFromCheckpoint` | consensus/pos/fork_choice.go:417-476 | On agreeing trees the head descends from the finalized block, and without one from the justified block |
| `EpochWrap.PassesIff` | consensus/pos/fork_choice.go:526-531 | A vote of an ordinary epoch passes the epoch test if and only if it is at most two epochs old and epoch two has come |
| `EpochWrap.NoWeightBeforeEpochTwo` | consensus/pos/fork_choice.go:520-552 | Before epoch two every subtree weighs nothing, whoever votes for it |
| `EpochWrap.WeightsAreMeantIff` | consensus/pos/fork_choice.go:520-552 | All weights count exactly the votes of the last two epochs if and only if epoch two has come or no ordinary vote carries weight |
| `LatestVotes.LatestOnlyIff` | consensus/pos/fork_choice.go:520-552 | All subtrees weigh what the latest vote of each validator says if and only if no active validator has a superseded vote that passes the epoch test and carries weight |
| `LatestVotes.LatestIsOnePerValidator` | consensus/pos/fork_choice.go:520-552 | Under the latest-vote rule no validator is counted twice for a subtree |
| `LatestVotes.AtMostThreeTimes` | consensus/pos/fork_choice.go:520-552 | From epoch two on, without votes ahead of the current epoch, a validator weighs at most three times in a subtree |
| `LatestVotes.ThreeTimes` | consensus/pos/fork_choice.go:520-552 | A validator who votes for one block in three epochs weighs three times, where the rule counts the last vote |
| `LatestVotes.RepeatsAddWeight` | consensus/pos/fork_choice.go:163-203 | Attesting an attested block again in n later epochs changes no books and no current epoch, and adds n times the validator's stake to the block's weight |
| `EpochWrap.HeadIgnoresVotesBeforeEpochTwo` | consensus/pos/fork_choice.go:417-468 | Before epoch two the head is where the lowest hash at every fork leads from the anchor, for every set of votes and stakes |
| `ForkChoiceInvariants.BooksAfterAttest` | consensus/pos/fork_choice.go:196-253 | After any attestation the per-block maps have the same keys, each score is the stake of the block's attesters, and the stored attestations are distinct attesters up to the limit |
| `ForkChoiceInvariants.BooksAfterPruning` | consensus/pos/fork_choice.go:288-336 | Eviction, whatever block it hits, keeps the books |
| `ForkChoiceInvariants.BooksAfterCleanup` | consensus/pos/finality.go:336-371 | A cleanup, in any order, keeps the books |
| `ForkChoiceInvariants.VoteNeverChanges` | consensus/pos/fork_choice.go:163-194 | A recorded vote keeps its block as long as its epoch is retained, and only active validators have votes |
| `ForkChoiceInvariants.OneQuorumPerEpoch` | consensus/pos/fork_choice.go:163-194 | At most one block per epoch can hold a quorum of that epoch's votes |
| `ForkChoiceInvariants.QuorumsOverlap` | consensus/pos/fork_choice.go:263-285 | Any two blocks with quorum share attesters with more than a third of all stake |
| `ForkChoiceInvariants.QuorumKeepsJustification` | consensus/pos/finality.go:17-62 | Whatever gets justified has more than two thirds of the total and no more than all of it |
| `ForkChoiceInvariants.FinalizedEpochNeverDecreases` | consensus/pos/finality.go:69-133 | No attestation lowers the finalized epoch |
| `ForkChoiceInvariants.FinalizedHasQuorumIff` | consensus/pos/finality.go:64-133 | Whatever block of largest tally is picked, it has two thirds of the stake voting for it in its epoch, if and only if a block with that much voting stake has the largest tally alone |
| `Tallies.RemovalIsCleanIff` | consensus/pos/fork_choice.go:307-336 | A removed block is in no tally afterwards if and only if no epoch other than its recorded one tallies it |
| `Tallies.CountedAgainIff` | consensus/pos/fork_choice.go:196-231 | A vote already on record is counted again if and only if its validator is not among the block's attesters |
| `Tallies.TalliesCountVotes` | consensus/pos/fork_choice.go:196-253 | In every run in which no removal leaves a block in a tally, no tally entry exceeds the stake that voted for the block in that epoch |
| `Tallies.FinalizedQuorumIsReal` | consensus/pos/finality.go:64-133 | In such a run the stake recorded in a newly finalized checkpoint voted for it, so a quorum on record is a quorum of votes |
| `Tallies.QuorumTallyIsOnlyBest` | consensus/pos/finality.go:64-133 | There a block whose tally reaches the quorum has the largest tally alone and the votes for it |
| `Tallies.OneEpochRunsAreClean` | consensus/pos/fork_choice.go:196-253 | Without a block cap, if every block is attested in one epoch only, no removal of any run leaves a block in a tally |
| `TallyWitness.QuorumOnRecordIsNotReal` | consensus/pos/finality.go:64-133 | A run that the code can make finalizes a block with 80 of 100 on record, which passes the threshold, while 40 voted for it in its epoch and one validator is known as its attester |
| `ForkChoiceInvariants.CleanupEstablishesWindow` | consensus/pos/finality.go:286-342 | After a cleanup all tracked epochs are within 50 of each other, whatever was tracked before |
| `ForkChoiceInvariants.FewEpochsTracked` | consensus/pos/finality.go:286-342 | At most 51 epochs are tracked, even if finality stalls forever |
| `ForkChoiceInvariants.ApplyKeepsInv` | consensus/pos/fork_choice.go:117-286 | Every event keeps the invariant and all votes, and lowers the finalized epoch if and only if it is an UpdateFinalization of an older justified checkpoint |
| `ForkChoiceInvariants.RunKeepsInv` | consensus/pos/fork_choice.go:117-286 | The invariant holds, with at most 51 tracked epochs, in every state a node can reach |
| `ForkChoiceInvariants.JustifiedCheckpointValidates` | consensus/pos/fork_choice_security.go:326-356 | In every run a justified checkpoint passes ValidateCheckpoint if and only if its epoch and hash are not the zero values |
| `ForkChoiceInvariants.FinalityIsMonotone` | consensus/pos/finality.go:69-133 | Between any two points of a run without such an UpdateFinalization the finalized epoch does not decrease |
| `ForkChoiceInvariants.VotesAreFrozen` | consensus/pos/fork_choice.go:163-194 | Over any stretch of a run in which an epoch is retained, its votes stay the same |
| `ForkChoiceEffects.AttestationTakesEffect` | consensus/pos/fork_choice.go:117-286 | A counted attestation adds its stake, attester, epoch and vote unless they are evicted at once; any other leaves books and checkpoints alone |
| `ForkChoiceEffects.CleanupKeepsRecent` | consensus/pos/finality.go:286-395 | A cleanup keeps every vote from its cutoff on, and exactly the blocks from its cutoff on, with their entries unchanged |
| `ForkChoiceEffects.JustifiedIff` | consensus/pos/fork_choice.go:263-285 | The block becomes the justified checkpoint, with these stakes and this time or zero, if and only if more than two thirds attest and it is newer or at a multiple of the interval, ten by default |
| `ForkChoiceEffects.FinalizesIff` | consensus/pos/fork_choice.go:263-285 | An attestation changes the finalized checkpoint if and only if more than two thirds attest, its epoch is newer than the justified one and no multiple of the interval, and the epoch two below is newer than the finalized one and has a block tallied |
| `ForkChoiceEffects.PeriodicNeverFinalizes` | consensus/pos/fork_choice.go:263-285 | No attestation at a multiple of the interval finalizes anything |
| `ForkChoiceEffects.IntervalOneNeverFinalizes` | consensus/pos/fork_choice.go:263-285 | With an interval of one no run of attestations and cleanups finalizes anything |
| `ForkChoiceMeaning.CleanupKeepsExactly` | consensus/pos/finality.go:286-366 | A cleanup keeps the votes and tallies of exactly the epochs at most 50 behind the current one and at most two behind the finalized one, or without one at most maxEpochsToKeep behind, unchanged, and exactly the blocks last attested in them |
| `ForkChoiceMeaning.CleanupKeepsOrders` | consensus/pos/finality.go:286-366 | The order lists of those epochs stay as they are, and the others' go with their tallies |
| `ForkChoiceMeaning.AttestationIs` | consensus/pos/fork_choice.go:117-240 | An attestation not admitted, of an inactive validator or against an earlier vote changes nothing, a repeated one only the votes, and any other adds its attester, its stake and, while there is room, itself to the block, unless a removal takes the block |
| `ForkChoiceMeaning.RecordingIs` | consensus/pos/fork_choice.go:228-253 | Without a block cap a counted attestation adds its stake to its epoch's tally, and a cleanup follows exactly when the epoch is new |
| `ForkChoiceMeaning.FinalizedIsLargest` | consensus/pos/finality.go:64-133 | Whatever the iteration order, a finalized block has the largest tally of the epoch two below the attestation's, and the checkpoint records that tally, the total and the time |
| `ForkChoiceMeaning.AutoFinalizesIff` | consensus/pos/fork_choice_security.go:117-149 | The justified checkpoint is finalized if and only if the current epoch is at least the waiting time, two by default, ahead of it, or behind it |
| `ForkChoiceMeaning.TotalIs` | consensus/pos/fork_choice.go:364-385 | The total is zero for no validators, and one more validator adds its stake exactly if it is active |
| `ForkChoiceMeaning.AnswerIsRecent` | consensus/pos/fork_choice.go:364-385 | Every answer is the active stake now or that of an earlier query younger than the cache's lifetime |
| `ForkChoiceMeaning.AnswerIsKept` | consensus/pos/fork_choice.go:364-385 | Within the lifetime of a first total that is not zero every query is answered with it |
| `ForkChoiceEffects.EvictionIsMeantIff` | consensus/pos/fork_choice.go:288-336 | The order list after pruning any list one over the limit; only its first entry is gone if and only if that entry is no longer tracked in this epoch or the list has one other hash; a block is evicted if and only if the first entry is still tracked |
| `ForkChoiceEffects.EvictionSkipsABlock` | consensus/pos/fork_choice.go:288-336 | A list without repetitions loses its second entry and repeats its last, so that for a limit above one the next eviction finds a repetition |
| `CapWitness.CapIsExceeded` | consensus/pos/fork_choice.go:288-336 | For every m a run that the code can make tracks 2 + m blocks of one epoch under a cap of two |
| `FinalityWitness.MinorityIsFinalized` | consensus/pos/finality.go:64-133 | A run of two attestations that the code can make finalizes a block with 1 of 100 stake behind it |
| `FinalityWitness.FinalityIsTakenBack` | consensus/pos/fork_choice_security.go:117-180 | A run of three attestations and one UpdateFinalization that the code can make takes the finalized epoch from 10 to 0 |
| `ChainStake.CalculateChainStake` | consensus/pos/fork_choice_security.go:209-240 | The decayed stake of the set of active validators that attest to a listed block, each once, with the age of the first such block |
| `ChainStake.BackerIs` | consensus/pos/fork_choice_security.go:209-240 | A validator with a stored attestation for a listed block counts exactly if active, decayed from the epoch of its first such block, or zero if that is not tracked |
| `ChainStake.OthersDoNotBack` | consensus/pos/fork_choice_security.go:209-240 | A validator without such an attestation does not count |
| `ChainStake.StakeBehindIsBounded` | consensus/pos/fork_choice_security.go:209-240 | Never more than the total active stake |
| `SimulationSpec.QuorumWithinTotal` | consensus/pos/simulation.go:344-351 | A threshold of at most one asks for no more than all the stake |
| `Simulation.PartitionGroupsForSlot` | consensus/pos/simulation.go:353-368 | The first window that covers the slot, and for every address the last group that lists it |
| `Simulation.DelayForValidator` | consensus/pos/simulation.go:370-381 | The delay of the first window for this validator and slot, zero if there is none |
| `Simulation.DeliverAt` | consensus/pos/simulation.go:166-193 | Delivering one due entry keeps every block's count equal to what has arrived and marks it final exactly when it reaches the quorum |
| `Simulation.DeliverDue` | consensus/pos/simulation.go:166-193 | The loop that deletes from the list it scans delivers every due entry once and leaves only later ones |
| `Simulation.CastVotes` | consensus/pos/simulation.go:240-287 | A new block counts exactly the attestations that arrive in its slot and queues exactly those that arrive later |
| `Simulation.Conservation` | consensus/pos/simulation.go:230-287 | A block's counted, waiting and lost validators split the stake of all validators |
| `Simulation.PendingWeightIsWaiting` | consensus/pos/simulation.go:230-287 | The weights queued for a block are the stake of the validators it waits for, none of them twice |
| `SimulationRun.BuildStakes` | consensus/pos/simulation.go:118-146 | The stake table of the active validators and their total |
| `SimulationRun.TotalIsTableStake` | consensus/pos/simulation.go:118-146 | With distinct addresses the total is the sum over the table |
| `SimulationRun.RunSlot` | consensus/pos/simulation.go:157-300 | One slot keeps every block, counter and slot result equal to what the arrivals say, and fails only without a schedule |
| `SimulationRun.ProduceBlock` | consensus/pos/simulation.go:230-300 | A produced block joins with the right count, mark and pending entries |
| `SimulationRun.UpdateSlotFinalization` | consensus/pos/simulation.go:383-390 | Only the mark of the first slot that names the block changes, and none if no slot does |
| `SimulationRun.CloseBooks` | consensus/pos/simulation.go:300-325 | Every slot result ends with the mark of its block, whatever the map order, and the unfinalized blocks are counted |
| `SimulationRun.RunAdversarialSimulation` | consensus/pos/simulation.go:110-325 | Fails exactly on the configurations it cannot run; otherwise produced plus missed is the slots, finalized plus unfinalized is produced, and each block is final from the first slot by which its arrived stake reaches the quorum |
| `SimulationMeaning.RunsIff` | consensus/pos/simulation.go:110-155 | The simulation runs if and only if there is a slot, an active validator with stake, and a schedule for every slot |
| `SimulationMeaning.StakesAre` | consensus/pos/simulation.go:133-150 | Exactly the addresses listed as active have stake, that of their last listing |
| `SimulationMeaning.TotalAdds` | consensus/pos/simulation.go:133-150 | Every active listing adds its stake to the total, repeated addresses included |
| `SimulationMeaning.QuorumIs` | consensus/pos/simulation.go:344-351 | The quorum is the threshold's share of the stake less at most a ten-thousandth and the rounding; 6666 ten-thousandths without a threshold, 6667 for one below a ten-thousandth |
| `SimulationMeaning.ArrivesAsMeantIff` | consensus/pos/simulation.go:235-268 | By windows, groups and delays in their lists: an attestation counts at slot plus delay, from the other side of a replayed partition not before its end plus one, and never if not replayed, if and only if no 64-bit sum wraps |
| `SimulationMeaning.CountedBy` | consensus/pos/simulation.go:166-194 | Who is counted by a slot: those whose delay is over and, across a partition, only once a replayed window has ended |
| `SimulationMeaning.VisibleIs` | consensus/pos/simulation.go:235-256 | A block is visible exactly to those with stake on the proposer's side of the first spanning window |
| `SimulationMeaning.SlotIs` | consensus/pos/simulation.go:196-296 | A slot is reported partitioned, withheld or producing exactly when a window spans it, it is withheld, or it is not and its proposer is listed active; with the stakes of those who see the block and are counted at once |
| `SimulationMeaning.FinalizedAtIs` | consensus/pos/simulation.go:166-316 | A produced block is marked final at u if and only if u is the first slot by which those counted for it hold the quorum |
| `SimulationMeaning.CountsAre` | consensus/pos/simulation.go:304-316 | Produced, missed, finalized and unfinalized are the numbers of slots so marked |
| `SimulationRun.ConservationAfterSlot` | consensus/pos/simulation.go:166-287 | After every slot each block's attested, pending and partition-lost stake add up to the total |
| `SimulationRun.EveryBlockBecomesFinal` | consensus/pos/simulation.go:110-325 | With a threshold of at most one, replayed partitions and deliveries due in time, every produced block is reported final |
| `Votes.VoteTracker.constructor` | consensus/pos/slashing_manager.go:120-182 | A new tracker has the jail entries and statuses loaded from storage, and no kept votes |
| `Votes.VoteTracker.IsValidatorJailed` | consensus/pos/slashing_manager.go:1108-1131 | True exactly until the release time inclusive; after it the entry is dropped and the status, slashed or not, is active again |
| `Votes.VoteTracker.ProcessVote` | consensus/pos/slashing_manager.go:389-437 | Reports jail or the first surround among the kept votes, and remembers only a clean vote, forgetting the oldest beyond 1000 |
| `Votes.VoteTracker.HandleVote` | consensus/pos/consensus.go:896-969 | The duplicate, validity, surround and save steps move the state as the state machine says; the vote table changes only on acceptance |
| `Votes.DetectionIsExact` | consensus/pos/slashing_manager.go:389-437 | Past the grace period a surround is reported if and only if a kept vote forms one, and the reported pair passes the slashing step's own check |
| `Votes.KeptIsNonSurrounding` | consensus/pos/slashing_manager.go:412-437 | The kept votes of a validator are pairwise non-surrounding and at most 1000 |
| `Votes.AcceptsIff` | consensus/pos/consensus.go:896-949 | Accepted if and only if signed, valid, saved, not a known duplicate, from a free validator, and without a surround among the last 1000 recorded votes |
| `Votes.SurroundIsPunished` | consensus/pos/consensus.go:915-935 | A noticed surround is not accepted, its validator is jailed for just the duration with the given status, and the kept votes stay |
| `Votes.JailEnds` | consensus/pos/slashing_manager.go:1108-1131 | A jail entry holds until its time; after it the validator is free, the entry gone and the status active |
| `Votes.AcceptedAgainIff` | consensus/pos/slashing_manager.go:389-411 | After a punished surround the validator's next vote, in order itself, is accepted if and only if it comes after the jail term; before that it changes nothing |
| `Votes.HandleChangesOnly` | consensus/pos/consensus.go:896-969 | A target is put on file exactly with an accepted vote, and the jail changes only by a punished surround or the end of a term |
| `Votes.DuplicateAcceptedIff` | consensus/pos/consensus.go:902-912 | A second vote for a persisted target is accepted if and only if the duplicate lookup fails |
| `Votes.RunKeepsVotesApart` | consensus/pos/slashing_manager.go:389-437 | In every run no two votes recorded within 1000 of each other surround one another |
| `Votes.AcceptedVotesAreDistinct` | consensus/pos/consensus.go:896-969 | With working lookups, accepted votes of a validator have distinct targets and sources before targets |
| `Votes.AcceptedIsRecorded` | consensus/pos/consensus.go:896-949 | Past the grace period every accepted vote is in its validator's recorded history |
| `Votes.AcceptedVotesObeyBothConditions` | consensus/pos/slashing_manager.go:389-437 | Two accepted votes of a validator never share a target, and never surround each other when recorded within the window |
| `VoteWitness.SurroundIsAcceptedIff` | consensus/pos/slashing_manager.go:389-437 | After n votes, with working lookups, a vote that surrounds the first is accepted if and only if n exceeds 1000, and all accepted targets differ |
| `Ledger.PenaltyFits` | core/math/safemath.go:591-611 | The penalty is the percentage rounded down and leaves at least the rest |
| `Ledger.ChargeIsExact` | consensus/pos/slashing_manager.go:1006-1105 | A charge takes its penalty from one validator, who ends in jail and is marked slashed exactly below the minimum stake; a failed write spends the evidence and changes nothing else, and a refused report changes nothing |
| `Ledger.ChargedIff` | consensus/pos/slashing_manager.go:576-712 | A report is charged if and only if it names one validator, for votes a surround, on evidence not spent, with a balance, a percentage up to a hundred and a write that goes through; the amount is the percentage, rounded down, of that balance |
| `Ledger.RebuiltIs` | consensus/pos/slashing_manager.go:576-649 | An attestation is written down with slot and height 32 per epoch and otherwise unchanged |
| `Ledger.RunIsSound` | consensus/pos/slashing_manager.go:576-712 | In every run starting balance is current balance plus recorded penalties, and each piece of evidence is charged at most once |
| `Ledger.RunKeepsFloor` | consensus/pos/slashing_manager.go:1006-1079 | k charges of at most p percent leave at least ((100-p)/100)^k of the start |
| `Ledger.LosesEvidenceIff` | consensus/pos/slashing_manager.go:1006-1079 | A report leaves unspent evidence spent and uncharged if and only if it could be charged and the balance write fails |
| `Ledger.FailedWriteLosesEvidenceIff` | consensus/pos/slashing_manager.go:1006-1079 | In every run, unspent evidence that is reported is spent by that report and never charged afterwards if and only if that report could be charged and its balance write fails |
| `Ledger.SwappedReportChargedAgainIff` | types/consensus.go:92-112 | The same double vote in the other order is charged again if and only if the two attestations differ |
| `Ledger.SameVotesChargedAgainIff` | consensus/pos/slashing_manager.go:606-649 | The same pair of surround votes is charged again if and only if it is written down in other seconds |
| `Ledger.PenaltyLedger.constructor` | consensus/pos/slashing_manager.go:120-182 | A new ledger has the given balances, the evidence, jail entries and statuses loaded from storage, and no records |
| `Ledger.PenaltyLedger.JailValidator` | consensus/pos/slashing_manager.go:1082-1105 | Release time and status of one validator |
| `Ledger.PenaltyLedger.ApplySlashing` | consensus/pos/slashing_manager.go:1006-1079 | Spends the evidence first, then balance, jail, status and record, or stops at a failed write |
| `Ledger.PenaltyLedger.ApplyDoubleVoteSlashing` | consensus/pos/slashing_manager.go:576-603 | Moves the ledger as the state machine says, refusing two different validators |
| `Ledger.PenaltyLedger.ApplySurroundEvidence` | consensus/pos/slashing_manager.go:651-712 | Likewise, with the outer attestation first in the evidence |
| `Ledger.PenaltyLedger.ApplySurroundVoteSlashing` | consensus/pos/slashing_manager.go:606-649 | Refuses votes of different validators and pairs that do not surround, and charges the others under the two seconds at which they are written down |
| `RateLimiter.BoundedInAnyWindow` | consensus/pos/slashing_security.go:52-96 | In any run a reporter is let through at most 20 times in any half-open hour and 100 times in any half-open day |
| `RateLimiter.LimitFromARestart` | consensus/pos/slashing_security.go:52-96 | In any run an hour that begins with a restart of the hour's counter lets at most 10 through, and a day that begins with a restart of the day's at most 50 |
| `RateLimiter.LetThroughBelowTheLimits` | consensus/pos/slashing_security.go:52-96 | A reporter whose ban, if any, is over and who was let through fewer than 10 times in the last hour and 50 in the last day is let through |
| `RateWitness.NineteenInAnHour` | consensus/pos/slashing_security.go:52-96 | A run that starts with one submission lets 19 through within an hour |
| `RateWitness.TwentyInAnHour` | consensus/pos/slashing_security.go:52-96 | A run in which the day's limit refuses the restarting submission lets 20 through within an hour |
| `RateWitness.HundredInADay` | consensus/pos/slashing_security.go:52-96 | A run in which the hour's limit refuses the restarting submission lets 100 through within a day |
| `RateLimiter.BanHolds` | consensus/pos/slashing_security.go:99-124 | Once five rejections have piled up the reporter is refused for a day, whatever happens meanwhile |
| `RateLimiter.RejectionsAreSurplus` | consensus/pos/slashing_security.go:99-124 | The rejections on record are the largest surplus of rejections over acceptances of any stretch that lasts until now |
| `RateLimiter.BanIs` | consensus/pos/slashing_security.go:99-111 | A ban lasts a day from the last rejection that brings the surplus to five or more, and there is none without such a rejection |
| `RateLimiter.RunKeepsInv` | consensus/pos/slashing_security.go:52-96 | In every run both counters of a reporter count exactly its submissions let through since their restart |
| `RateLimiter.EvidenceRateLimiter.CheckReporter` | consensus/pos/slashing_security.go:52-96 | Answers and updates one reporter as the state machine says, others untouched |
| `RateLimiter.EvidenceRateLimiter.RecordRejection` | consensus/pos/slashing_security.go:99-111 | One more rejection, and a ban from the fifth on; an unknown reporter is ignored |
| `RateLimiter.EvidenceRateLimiter.RecordAcceptance` | consensus/pos/slashing_security.go:114-124 | One rejection less, never below zero |
| `Confirmations.RunKeepsPendingOk` | consensus/pos/slashing_security.go:159-220 | Every pending entry of a run has fewer than three confirmers, none the accused, each with a real confirmation inside the entry's window |
| `Confirmations.ReadyMeansConfirmed` | consensus/pos/slashing_security.go:159-202 | Ready is answered only after three different reporters other than the accused confirmed within one ten-minute window |
| `Confirmations.ReadyIff` | consensus/pos/slashing_security.go:159-202 | Ready if and only if the window is open, the reporter is not the accused, and the distinct confirmers reach three |
| `Confirmations.ReadyInWindowIff` | consensus/pos/slashing_security.go:159-202 | From any table, within the window the first report opens and whatever else happens, a report is answered ready if and only if it brings the different reporters, the accused apart, to three |
| `Confirmations.OlderWindowSpoils` | consensus/pos/slashing_security.go:159-202 | A window opened by the accused closes on three other reporters a moment apart |
| `Confirmations.SlashingConfirmation.AddConfirmation` | consensus/pos/slashing_security.go:159-202 | Table and answer as the state machine says |
| `Confirmations.SlashingConfirmation.DropExpired` | consensus/pos/slashing_security.go:205-220 | Drops exactly the expired entries, in any order, and counts them |
| `EvidencePipeline.ProcessKeepsInv` | consensus/pos/slashing_manager.go:205-335 | One report keeps the confirmation table explained by its history and the executions apart |
| `EvidencePipeline.ExecutionIsConfirmed` | consensus/pos/slashing_manager.go:243-260 | A report is executed only if three reporters other than the accused confirmed the evidence within one window |
| `EvidencePipeline.ExecutedIff` | consensus/pos/slashing_manager.go:205-335 | A report is executed, and recorded with its time, if and only if the grace period is over, its reporter is let through, it is valid and new, two, one or six hours by kind have passed since the last execution, it completes three confirmations, and the penalty applies; a failed penalty uses it up |
| `EvidencePipeline.StandingAfter` | consensus/pos/slashing_manager.go:205-335 | An invalid report counts against its reporter and one that reaches execution cancels an earlier one; nobody else's standing changes |
| `EvidencePipeline.RunKeepsInv` | consensus/pos/slashing_manager.go:205-335 | These invariants hold in every run with a clock that does not go back |
| `EvidencePipeline.ExecutionsAreApart` | consensus/pos/slashing_security.go:245-301 | Two executions of one kind against one validator are at least the kind's cooldown apart, and never of the same report |
| `EvidencePipeline.SlashingPipeline.ProcessEvidence` | consensus/pos/slashing_manager.go:205-335 | Grace period, rate limit, validity, deduplication, cooldown, confirmation and execution, as the state machine says |
| `Packing.SafeAdd` | core/math/safemath.go:341-371 | Succeeds exactly when the sum fits 64 bits, and then returns it |
| `Packing.LookUpNonces` | consensus/pos/proposer.go:231-245 | One starting nonce per sender, and in order the transactions whose lookup fails |
| `Packing.TakeWhatFits` | consensus/pos/proposer.go:247-288 | From a nonce table that agrees with the accounts, selects what the definition without running totals chooses and lists the rest as excluded |
| `Packing.PackTransactions` | consensus/pos/proposer.go:225-288 | Selects exactly the transactions that fit after those already taken, and excludes those whose lookup fails followed by those that do not fit |
| `Packing.ChosenIsSound` | consensus/pos/proposer.go:225-288 | The chosen transactions keep within count and gas limits without overflow, pay and execute, and every sender's nonces run on without a gap |
| `Packing.ExcludedForAReason` | consensus/pos/proposer.go:246-285 | At its turn a transaction is excluded if and only if the block is full, the gas overflows or exceeds the limit, the nonce is wrong, the price too low or the execution check fails |
| `Packing.AllSelectedIff` | consensus/pos/proposer.go:225-288 | Everything is selected if and only if the count, every prefix sum of gas, the prices, the execution checks and every sender's run of nonces are within bounds |
| `Packing.SenderCount` | consensus/pos/proposer.go:264-284 | The nonces used up by a sender are as many as its selected transactions |
| `Packing.GasAdds` | consensus/pos/proposer.go:250-283 | Gas adds up, whichever way a list is cut |
| `Packing.SplitIsExactIff` | consensus/pos/proposer.go:225-288 | Selected and excluded are exactly the input if and only if every nonce lookup succeeds; otherwise they hold the failed ones once more |
| `Packing.TimesListed` | consensus/pos/proposer.go:225-288 | Every transaction is listed as often as it was given, twice as often if its sender's lookup fails |
| `Packing.SelectedAndExcludedIff` | consensus/pos/proposer.go:225-288 | A transaction given once is both selected and excluded if and only if its sender's lookup fails and it is taken, with its nonce running on from zero |
| `Packing.NonceZeroIsSelected` | consensus/pos/proposer.go:225-288 | With a failed lookup a transaction of nonce zero is selected and excluded once, one of nonce one is excluded twice |
| `Packing.CalculateTotalGas` | consensus/pos/proposer.go:374-384 | Fails exactly when some prefix sum leaves 64 bits, else the sum |
| `Packing.ValidateGasUsage` | consensus/pos/consensus.go:1339-1361 | Passes exactly when the header's gas is the wrapped sum and within the limit |
| `Packing.ProposeAndValidate` | consensus/pos/consensus.go:1272-1280 | A block built from the selection passes the validator's count and gas checks exactly when something was selected or the limits are not negative |

## Left out

- Locks: each public method is one atomic step. Two methods take a lock their caller already holds; their bodies are modelled without it.
- Nil arguments, an engine without a blockchain reference, logging and metrics, including log lines that slice short hashes.
- Signatures, VRF proofs and hashing: verdicts are parameters, and evidence digests are taken as injective.
- ReorganizeChain and its store updates: whether it succeeds is a parameter of the update.
- ValidateReorganization: a chain of independent checks, without state of its own.
- The setters UpdateJustifiedCheckpoint and UpdateFinalizedCheckpoint, and loading a checkpoint from the database: they overwrite the checkpoints from outside.
- getHeadByHighestStake: nothing calls it.
- The slashing manager's ProcessAttestation: its verdict is the `admitted` parameter of fork choice.
- Pruning of old evidence, after which its digest could be charged again.
- Downtime, block withholding and invalid-proposal penalties: their evidence digest ignores what distinguishes them.
- Changing validator tables: runs of fork choice and of the ledger are over a fixed table and configuration.
- Number parsing: stakes and balances are natural numbers; encodings the code cannot read count as zero there.
- Epoch schedules of the simulation: a parameter that may fail.
- Delay statistics, counters and the floating-point average of the simulation result.
- The simulation threshold is a real number; rounding of its binary representation is not modelled.
- Transaction priority scores are floating point: the sorted list is the input of packing.
- Persistence, rewards, governance, networking and the API: plumbing around this core.
- ForkChoiceEngine.ForkChoice.GetHead: asks that the descent ends, as it does on every acyclic child map (AcyclicHasHead); where it does not, the code runs forever.
- Reorg.ConsensusEngine.UpdateForkChoice: asks the same, since it calls GetHead.
- EvidencePipeline.SlashingPipeline.ProcessEvidence: the penalty itself is a verdict parameter here; double and surround votes are charged in Ledger.
- Votes.AcceptedVotesObeyBothConditions: says nothing of surrounds further apart than the window of kept votes, because the code accepts them (AcceptsIff, SurroundIsAcceptedIff).
