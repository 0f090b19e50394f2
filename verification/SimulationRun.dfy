/** The slots of a simulation from first to last, and what its result says. */
module SimulationRun {
  import opened Base
  import opened StakeSums
  import opened SimulationSpec
  import opened Simulation

  datatype SlotResult = SlotResult(
    slot: nat,
    produced: bool,
    withheld: bool,
    partitioned: bool,
    visibleStake: nat,
    attestedStake: nat,
    block: Option<BlockId>,
    finalizedAt: nat)

  datatype Sim = Sim(
    blocks: Blocks,
    pending: seq<Pending>,
    produced: nat,
    missed: nat,
    finalized: nat,
    results: seq<SlotResult>)

  datatype SimResult = SimResult(
    produced: nat, missed: nat, finalized: nat, unfinalized: nat, slotResults: seq<SlotResult>)

  // ---- Active validators ----

  /** Stake by address; a repeated address keeps its last stake. */
  function StakesOf(vs: seq<SimValidator>): Stakes {
    if vs == [] then map[] else
      var rest := StakesOf(vs[..|vs| - 1]);
      var v := vs[|vs| - 1];
      if v.active then rest[v.address := v.stake] else rest
  }

  function TotalOf(vs: seq<SimValidator>): nat {
    if vs == [] then 0 else
      TotalOf(vs[..|vs| - 1]) + if vs[|vs| - 1].active then vs[|vs| - 1].stake else 0
  }

  method BuildStakes(vs: seq<SimValidator>) returns (stakes: Stakes, total: nat)
    ensures stakes == StakesOf(vs) && total == TotalOf(vs)
  {
    stakes, total := map[], 0;
    for i := 0 to |vs|
      invariant stakes == StakesOf(vs[..i]) && total == TotalOf(vs[..i])
    {
      assert vs[..i + 1][..i] == vs[..i];
      if !vs[i].active {
        continue;
      }
      stakes := stakes[vs[i].address := vs[i].stake];
      total := total + vs[i].stake;
    }
    assert vs[..|vs|] == vs;
  }

  ghost predicate DistinctActive(vs: seq<SimValidator>) {
    forall i, j | 0 <= i < j < |vs| && vs[i].active && vs[j].active :: vs[i].address != vs[j].address
  }

  lemma {:induction false} StakesAreListed(vs: seq<SimValidator>, a: Addr)
    requires a in StakesOf(vs)
    ensures exists i :: 0 <= i < |vs| && vs[i].active && vs[i].address == a
    decreases |vs|
  {
    var rest := vs[..|vs| - 1];
    if !(vs[|vs| - 1].active && vs[|vs| - 1].address == a) {
      StakesAreListed(rest, a);
      var i :| 0 <= i < |rest| && rest[i].active && rest[i].address == a;
      assert vs[i] == rest[i];
    }
  }

  lemma SumOnLarger(s: set<Addr>, m: Stakes, n: Stakes)
    requires forall a | a in s :: a in m && a in n && m[a] == n[a]
    ensures Sum(s, W(m)) == Sum(s, W(n))
  {
    SumCongruent(s, W(m), W(n));
  }

  /** With distinct addresses the total is the stake in the table; otherwise it can only be more. */
  lemma {:induction false} TotalIsTableStake(vs: seq<SimValidator>)
    ensures TotalOf(vs) >= Sum(StakesOf(vs).Keys, W(StakesOf(vs)))
    ensures DistinctActive(vs) ==> TotalOf(vs) == Sum(StakesOf(vs).Keys, W(StakesOf(vs)))
    decreases |vs|
  {
    if vs != [] {
      var rest, v := vs[..|vs| - 1], vs[|vs| - 1];
      TotalIsTableStake(rest);
      var m, n := StakesOf(rest), StakesOf(vs);
      if v.active {
        var others := m.Keys - {v.address};
        assert n.Keys == others + {v.address};
        SumAdd(others, W(n), v.address);
        SumOnLarger(others, m, n);
        SumSubset(others, m.Keys, W(m));
        if DistinctActive(vs) {
          assert DistinctActive(rest);
          if v.address in m {
            StakesAreListed(rest, v.address);
          }
          assert others == m.Keys;
        }
      }
    }
  }

  // ---- One slot ----

  function IdOf(cfg: SimConfig, slot: nat): BlockId
    requires cfg.schedule(slot).Some?
  {
    BlockId(slot, cfg.schedule(slot).value)
  }

  ghost function ProducedIds(cfg: SimConfig, stakes: Stakes, t: nat): set<BlockId> {
    set s | 1 <= s <= t && Produces(cfg, stakes, s) :: IdOf(cfg, s)
  }

  /** What a slot's result says apart from finality. */
  ghost predicate SlotOk(cfg: SimConfig, stakes: Stakes, r: SlotResult, s: nat) {
    && r.slot == s
    && (r.withheld <==> s in cfg.withheld)
    && (r.partitioned <==> WindowFor(cfg.partitions, s).Some?)
    && (r.produced <==> Produces(cfg, stakes, s))
    && if r.produced then
         && r.block == Some(IdOf(cfg, s))
         && r.visibleStake == Sum(VisibleTo(cfg, stakes, IdOf(cfg, s)), W(stakes))
         && r.attestedStake == ArrivedStake(cfg, stakes, IdOf(cfg, s), s)
       else r.block == None && r.finalizedAt == 0
  }

  /** The mark set when the block is produced: its slot if the votes counted at once are a quorum. */
  ghost predicate EarlyMark(cfg: SimConfig, stakes: Stakes, quorum: nat, r: SlotResult) {
    r.block.Some? ==> r.finalizedAt == if r.attestedStake >= quorum then r.slot else 0
  }

  /** Nothing on the list is due by slot t. */
  ghost predicate AllLater(pending: seq<Pending>, t: nat) {
    forall e | e in pending :: Max(e.deliverySlot, e.id.slot + 1) > t
  }

  /** Blocks and list at the end of slot t. */
  ghost predicate Settled(cfg: SimConfig, stakes: Stakes, quorum: nat, blocks: Blocks, pending: seq<Pending>, t: nat) {
    AllOk(cfg, stakes, quorum, blocks, pending, t) && AllLater(pending, t)
  }

  ghost predicate CountsOk(cfg: SimConfig, stakes: Stakes, sim: Sim, t: nat) {
    && sim.blocks.Keys == ProducedIds(cfg, stakes, t)
    && sim.produced == |sim.blocks|
    && sim.produced + sim.missed == t
    && sim.finalized == |FinalizedIds(sim.blocks)|
  }

  ghost predicate ResultsOk(cfg: SimConfig, stakes: Stakes, quorum: nat, results: seq<SlotResult>, t: nat) {
    && |results| == t
    && forall i | 0 <= i < t :: SlotOk(cfg, stakes, results[i], i + 1) && EarlyMark(cfg, stakes, quorum, results[i])
  }

  /** What holds after t slots. */
  ghost predicate SimOk(cfg: SimConfig, stakes: Stakes, quorum: nat, sim: Sim, t: nat) {
    && Settled(cfg, stakes, quorum, sim.blocks, sim.pending, t)
    && CountsOk(cfg, stakes, sim, t)
    && ResultsOk(cfg, stakes, quorum, sim.results, t)
  }

  lemma ProducedSoFar(cfg: SimConfig, stakes: Stakes, t: nat)
    requires t > 0
    ensures Produces(cfg, stakes, t) ==> ProducedIds(cfg, stakes, t) == ProducedIds(cfg, stakes, t - 1) + {IdOf(cfg, t)}
    ensures !Produces(cfg, stakes, t) ==> ProducedIds(cfg, stakes, t) == ProducedIds(cfg, stakes, t - 1)
    ensures forall id | id in ProducedIds(cfg, stakes, t - 1) :: id.slot < t
  {
  }

  lemma NewBlockOk(cfg: SimConfig, stakes: Stakes, quorum: nat, id: BlockId, b: SimBlock, list: seq<Pending>)
    requires NewEntries(cfg, stakes, id, list, stakes.Keys)
    requires b.slot == id.slot && b.proposer == id.proposer && b.attested == ArrivedStake(cfg, stakes, id, id.slot)
    requires (b.finalized <==> b.attested >= quorum) && (b.finalized ==> b.finalizedAt == id.slot)
    ensures BlockOk(cfg, stakes, quorum, id, b, Waiting(list, id), id.slot)
  {
    assert Reaching(cfg, stakes, id) - Waiting(list, id) == Arrived(cfg, stakes, id, id.slot);
  }

  lemma WaitingOnBoth(pending: seq<Pending>, list: seq<Pending>, id: BlockId)
    ensures Waiting(pending + list, id) == Waiting(pending, id) + Waiting(list, id)
  {
    var both := pending + list;
    forall v | v in Waiting(pending, id) + Waiting(list, id) ensures v in Waiting(both, id) {
      if v in Waiting(pending, id) {
        var i :| 0 <= i < |pending| && pending[i].id == id && pending[i].validator == v;
        assert both[i] == pending[i];
      } else {
        var i :| 0 <= i < |list| && list[i].id == id && list[i].validator == v;
        assert both[|pending| + i] == list[i];
      }
    }
  }

  lemma AddBlockKeepsPending(cfg: SimConfig, stakes: Stakes, blocks: Blocks, pending: seq<Pending>, id: BlockId,
                             b: SimBlock, list: seq<Pending>)
    requires PendingOk(cfg, stakes, blocks, pending) && id !in blocks
    requires NewEntries(cfg, stakes, id, list, stakes.Keys)
    ensures PendingOk(cfg, stakes, blocks[id := b], pending + list)
  {
    var both, after := pending + list, blocks[id := b];
    forall i | 0 <= i < |both| ensures EntryOk(cfg, stakes, after, both[i]) {
      if i < |pending| { assert EntryOk(cfg, stakes, blocks, pending[i]); }
    }
    forall i, j | 0 <= i < j < |both| ensures both[i].id != both[j].id || both[i].validator != both[j].validator {
      if i < |pending| { assert EntryOk(cfg, stakes, blocks, pending[i]); }
      if j < |pending| {
        assert pending[i].id != pending[j].id || pending[i].validator != pending[j].validator;
      } else if i >= |pending| {
        var x, y := i - |pending|, j - |pending|;
        assert list[x].id != list[y].id || list[x].validator != list[y].validator;
      }
    }
  }

  lemma NobodyWaits(cfg: SimConfig, stakes: Stakes, blocks: Blocks, pending: seq<Pending>, id: BlockId)
    requires PendingOk(cfg, stakes, blocks, pending) && id !in blocks
    ensures Waiting(pending, id) == {}
  {
    assert forall i | 0 <= i < |pending| :: pending[i].id != id by {
      forall i | 0 <= i < |pending| ensures pending[i].id != id {
        assert EntryOk(cfg, stakes, blocks, pending[i]);
      }
    }
  }

  lemma AddBlockKeepsAll(cfg: SimConfig, stakes: Stakes, quorum: nat, blocks: Blocks, pending: seq<Pending>,
                         id: BlockId, b: SimBlock, list: seq<Pending>)
    requires AllOk(cfg, stakes, quorum, blocks, pending, id.slot) && id !in blocks
    requires NewEntries(cfg, stakes, id, list, stakes.Keys)
    requires BlockOk(cfg, stakes, quorum, id, b, Waiting(list, id), id.slot)
    ensures AllOk(cfg, stakes, quorum, blocks[id := b], pending + list, id.slot)
  {
    AddBlockKeepsPending(cfg, stakes, blocks, pending, id, b, list);
    var after := blocks[id := b];
    forall x | x in after ensures BlockOk(cfg, stakes, quorum, x, after[x], Waiting(pending + list, x), id.slot) {
      WaitingOnBoth(pending, list, x);
      if x == id {
        NobodyWaits(cfg, stakes, blocks, pending, id);
        assert Waiting(pending + list, id) == Waiting(list, id);
      } else {
        assert Waiting(list, x) == {};
        assert Waiting(pending + list, x) == Waiting(pending, x);
        assert BlockOk(cfg, stakes, quorum, x, blocks[x], Waiting(pending, x), id.slot);
      }
    }
  }

  lemma FinalizedWithNew(blocks: Blocks, id: BlockId, b: SimBlock)
    requires id !in blocks
    ensures |FinalizedIds(blocks[id := b])| == |FinalizedIds(blocks)| + if b.finalized then 1 else 0
    ensures |blocks[id := b]| == |blocks| + 1
  {
    var after := blocks[id := b];
    assert after.Keys == blocks.Keys + {id};
    if b.finalized {
      assert FinalizedIds(after) == FinalizedIds(blocks) + {id};
    } else {
      assert FinalizedIds(after) == FinalizedIds(blocks);
    }
  }

  lemma MissedSlotCounts(cfg: SimConfig, stakes: Stakes, sim: Sim, slot: nat, next: Sim)
    requires slot >= 1 && CountsOk(cfg, stakes, sim, slot - 1) && !Produces(cfg, stakes, slot)
    requires next.blocks.Keys == sim.blocks.Keys && next.finalized == |FinalizedIds(next.blocks)|
    requires next.produced == sim.produced && next.missed == sim.missed + 1
    ensures CountsOk(cfg, stakes, next, slot)
  {
    ProducedSoFar(cfg, stakes, slot);
    assert |next.blocks| == |next.blocks.Keys| == |sim.blocks.Keys| == |sim.blocks|;
  }

  lemma ResultsGrow(cfg: SimConfig, stakes: Stakes, quorum: nat, results: seq<SlotResult>, slot: nat, r: SlotResult)
    requires slot >= 1 && ResultsOk(cfg, stakes, quorum, results, slot - 1)
    requires SlotOk(cfg, stakes, r, slot) && EarlyMark(cfg, stakes, quorum, r)
    ensures ResultsOk(cfg, stakes, quorum, results + [r], slot)
  {
    var longer := results + [r];
    forall i | 0 <= i < slot
      ensures SlotOk(cfg, stakes, longer[i], i + 1) && EarlyMark(cfg, stakes, quorum, longer[i])
    {
      if i < slot - 1 { assert longer[i] == results[i]; }
    }
  }

  lemma AddBlockSettles(cfg: SimConfig, stakes: Stakes, quorum: nat, blocks: Blocks, pending: seq<Pending>,
                        id: BlockId, b: SimBlock, list: seq<Pending>)
    requires AllOk(cfg, stakes, quorum, blocks, pending, id.slot) && id !in blocks
    requires forall e | e in pending :: e.deliverySlot > id.slot
    requires NewEntries(cfg, stakes, id, list, stakes.Keys)
    requires b.slot == id.slot && b.proposer == id.proposer && b.attested == ArrivedStake(cfg, stakes, id, id.slot)
    requires (b.finalized <==> b.attested >= quorum) && (b.finalized ==> b.finalizedAt == id.slot)
    ensures Settled(cfg, stakes, quorum, blocks[id := b], pending + list, id.slot)
  {
    NewBlockOk(cfg, stakes, quorum, id, b, list);
    AddBlockKeepsAll(cfg, stakes, quorum, blocks, pending, id, b, list);
    forall e | e in pending + list ensures Max(e.deliverySlot, e.id.slot + 1) > id.slot {
      if e !in pending { assert e in list; }
    }
  }

  lemma ProducedSlotCounts(cfg: SimConfig, stakes: Stakes, sim: Sim, slot: nat, next: Sim, blocks: Blocks, b: SimBlock)
    requires slot >= 1 && CountsOk(cfg, stakes, sim, slot - 1) && Produces(cfg, stakes, slot)
    requires blocks.Keys == sim.blocks.Keys && next.blocks == blocks[IdOf(cfg, slot) := b]
    requires next.produced == sim.produced + 1 && next.missed == sim.missed
    requires next.finalized == |FinalizedIds(blocks)| + (if b.finalized then 1 else 0)
    ensures CountsOk(cfg, stakes, next, slot)
  {
    var id := IdOf(cfg, slot);
    ProducedSoFar(cfg, stakes, slot);
    assert id !in blocks;
    FinalizedWithNew(blocks, id, b);
    assert |blocks| == |blocks.Keys| == |sim.blocks.Keys| == |sim.blocks|;
    assert next.blocks.Keys == blocks.Keys + {id};
  }

  lemma SkippedSlotOk(cfg: SimConfig, stakes: Stakes, quorum: nat, sim: Sim, slot: nat, blocks: Blocks,
                      pending: seq<Pending>, count: nat,
                      empty: SlotResult, next: Sim)
    requires slot >= 1 && cfg.schedule(slot).Some? && !Produces(cfg, stakes, slot)
    requires CountsOk(cfg, stakes, sim, slot - 1) && ResultsOk(cfg, stakes, quorum, sim.results, slot - 1)
    requires Delivering(cfg, stakes, quorum, slot, blocks, pending, count) && blocks.Keys == sim.blocks.Keys
    requires forall e | e in pending :: e.deliverySlot > slot
    requires empty == SlotResult(slot, false, slot in cfg.withheld, WindowFor(cfg.partitions, slot).Some?, 0, 0, None,
                                 0)
    requires next == Sim(blocks, pending, sim.produced, sim.missed + 1, count, sim.results + [empty])
    ensures SimOk(cfg, stakes, quorum, next, slot)
  {
    MissedSlotCounts(cfg, stakes, sim, slot, next);
    ResultsGrow(cfg, stakes, quorum, sim.results, slot, empty);
  }

  /** One iteration of the slot loop; None when the schedule cannot be built. */
  method RunSlot(cfg: SimConfig, stakes: Stakes, quorum: nat, sim: Sim, slot: nat, ghost before: nat)
      returns (next: Option<Sim>)
    requires slot == before + 1 && SimOk(cfg, stakes, quorum, sim, before)
    ensures next.None? <==> cfg.schedule(slot).None?
    ensures next.Some? ==> SimOk(cfg, stakes, quorum, next.value, slot)
  {
    ProducedSoFar(cfg, stakes, slot);
    NextSlot(cfg, stakes, quorum, sim.blocks, sim.pending, before);
    var blocks, pending, count := DeliverDue(cfg, stakes, quorum, slot, sim.blocks, sim.pending, sim.finalized);
    var scheduled := cfg.schedule(slot);
    if scheduled.None? {
      return None;
    }
    var window, groupMap := PartitionGroupsForSlot(cfg.partitions, slot);
    var empty := SlotResult(slot, false, slot in cfg.withheld, window.Some?, 0, 0, None, 0);
    if slot in cfg.withheld || scheduled.value !in stakes {
      var skipped := Sim(blocks, pending, sim.produced, sim.missed + 1, count, sim.results + [empty]);
      SkippedSlotOk(cfg, stakes, quorum, sim, slot, blocks, pending, count, empty, skipped);
      return Some(skipped);
    }
    var after := ProduceBlock(cfg, stakes, quorum, sim, slot, blocks, pending, count, empty);
    next := Some(after);
  }

  /** The second half of a slot that yields a block. */
  method ProduceBlock(cfg: SimConfig, stakes: Stakes, quorum: nat, sim: Sim, slot: nat, blocks: Blocks,
                      pending: seq<Pending>, count: nat, empty: SlotResult)
      returns (next: Sim)
    requires slot >= 1 && Produces(cfg, stakes, slot)
    requires CountsOk(cfg, stakes, sim, slot - 1) && ResultsOk(cfg, stakes, quorum, sim.results, slot - 1)
    requires Delivering(cfg, stakes, quorum, slot, blocks, pending, count) && blocks.Keys == sim.blocks.Keys
    requires forall e | e in pending :: e.deliverySlot > slot
    requires empty == SlotResult(slot, false, slot in cfg.withheld, WindowFor(cfg.partitions, slot).Some?, 0, 0, None,
                                 0)
    ensures SimOk(cfg, stakes, quorum, next, slot)
  {
    var id := IdOf(cfg, slot);
    var attested, visible, list := CastVotes(cfg, stakes, id);
    var finalNow := attested >= quorum;
    var b := SimBlock(slot, id.proposer, attested, finalNow, if finalNow then slot else 0);
    var r := empty.(produced := true, block := Some(id), visibleStake := visible, attestedStake := attested,
                    finalizedAt := if finalNow then slot else 0);
    next := Sim(blocks[id := b], pending + list, sim.produced + 1, sim.missed,
                count + (if finalNow then 1 else 0), sim.results + [r]);
    assert id !in blocks;
    AddBlockSettles(cfg, stakes, quorum, blocks, pending, id, b, list);
    ProducedSlotCounts(cfg, stakes, sim, slot, next, blocks, b);
    ResultsGrow(cfg, stakes, quorum, sim.results, slot, r);
  }

  // ---- Closing the books ----

  /** The final mark: the first slot by which the block had its quorum, or zero if it never had. */
  ghost predicate FinalMark(cfg: SimConfig, stakes: Stakes, quorum: nat, r: SlotResult, slots: nat) {
    r.block.Some? ==>
      if ArrivedStake(cfg, stakes, r.block.value, slots) >= quorum
      then FirstQuorum(cfg, stakes, quorum, r.block.value, r.finalizedAt) && r.finalizedAt <= slots
      else r.finalizedAt == 0
  }

  /** at is the first slot result that names the block. */
  ghost predicate FirstNaming(results: seq<SlotResult>, id: BlockId, at: nat) {
    at < |results| && results[at].block == Some(id) && forall i | 0 <= i < at :: results[i].block != Some(id)
  }

  method UpdateSlotFinalization(results: seq<SlotResult>, id: BlockId, finalizedAt: nat)
      returns (updated: seq<SlotResult>)
    ensures forall at: nat | FirstNaming(results, id, at) ::
              updated == results[at := results[at].(finalizedAt := finalizedAt)]
    ensures (forall i | 0 <= i < |results| :: results[i].block != Some(id)) ==> updated == results
  {
    for i := 0 to |results|
      invariant forall j | 0 <= j < i :: results[j].block != Some(id)
    {
      if results[i].block == Some(id) {
        assert FirstNaming(results, id, i);
        return results[i := results[i].(finalizedAt := finalizedAt)];
      }
    }
    updated := results;
  }

  ghost function MarkOf(blocks: Blocks, id: BlockId): nat
    requires id in blocks
  {
    if blocks[id].finalized then blocks[id].finalizedAt else 0
  }

  /** results carries the final marks of the blocks in done and the early marks of the others. */
  ghost predicate MarksUpTo(blocks: Blocks, before: seq<SlotResult>, results: seq<SlotResult>, done: set<BlockId>) {
    && |results| == |before|
    && forall i | 0 <= i < |results| ::
         results[i] == (if before[i].block.Some? && before[i].block.value in done && before[i].block.value in blocks
                        then before[i].(finalizedAt := MarkOf(blocks, before[i].block.value)) else before[i])
  }

  /** At the end of a slot every block has counted exactly what has arrived. */
  lemma SettledBlock(cfg: SimConfig, stakes: Stakes, quorum: nat, sim: Sim, t: nat, id: BlockId)
    requires SimOk(cfg, stakes, quorum, sim, t) && id in sim.blocks
    ensures var b := sim.blocks[id];
            && b.slot == id.slot && b.attested == ArrivedStake(cfg, stakes, id, t)
            && Marked(cfg, stakes, quorum, id, b, t) && Marked(cfg, stakes, quorum, id, b, t + 1)
            && Counted(cfg, stakes, id, b, Waiting(sim.pending, id))
  {
    var waiting := Waiting(sim.pending, id);
    assert BlockOk(cfg, stakes, quorum, id, sim.blocks[id], waiting, t);
    forall v | v in waiting ensures Arrival(cfg, id, v).Some? && Arrival(cfg, id, v).value > t {
      var i :| 0 <= i < |sim.pending| && sim.pending[i].id == id && sim.pending[i].validator == v;
      assert EntryOk(cfg, stakes, sim.blocks, sim.pending[i]);
    }
    NextSlotForBlock(cfg, stakes, quorum, id, sim.blocks[id], waiting, t);
  }

  /** A block's early mark is already its final one unless it became final after its slot. */
  lemma EarlyOrLate(cfg: SimConfig, stakes: Stakes, quorum: nat, id: BlockId, b: SimBlock, t: nat)
    requires Marked(cfg, stakes, quorum, id, b, t + 1) && id.slot <= t
    ensures || (b.finalized && b.finalizedAt > id.slot)
            || (if ArrivedStake(cfg, stakes, id, id.slot) >= quorum then id.slot else 0) ==
                 (if b.finalized then b.finalizedAt else 0)
  {
  }

  lemma EarlyMarkIsFinal(cfg: SimConfig, stakes: Stakes, quorum: nat, sim: Sim, t: nat, id: BlockId)
    requires SimOk(cfg, stakes, quorum, sim, t) && id in sim.blocks
    ensures 1 <= id.slot <= t && sim.results[id.slot - 1].block == Some(id)
    ensures var b := sim.blocks[id];
            && b.slot == id.slot
            && ((b.finalized && b.finalizedAt > id.slot)
                || sim.results[id.slot - 1].finalizedAt == MarkOf(sim.blocks, id))
  {
    OwnSlotOnly(cfg, stakes, quorum, sim, t, id);
    SettledBlock(cfg, stakes, quorum, sim, t, id);
    EarlyOrLate(cfg, stakes, quorum, id, sim.blocks[id], t);
    var r := sim.results[id.slot - 1];
    assert SlotOk(cfg, stakes, r, id.slot) && EarlyMark(cfg, stakes, quorum, r);
  }

  lemma OwnSlotOnly(cfg: SimConfig, stakes: Stakes, quorum: nat, sim: Sim, t: nat, id: BlockId)
    requires SimOk(cfg, stakes, quorum, sim, t) && id in sim.blocks
    ensures 1 <= id.slot <= t && Produces(cfg, stakes, id.slot) && id == IdOf(cfg, id.slot)
    ensures sim.results[id.slot - 1].block == Some(id)
    ensures forall i | 0 <= i < |sim.results| && i != id.slot - 1 :: sim.results[i].block != Some(id)
  {
    assert id in ProducedIds(cfg, stakes, t);
    assert SlotOk(cfg, stakes, sim.results[id.slot - 1], id.slot);
    forall i | 0 <= i < |sim.results| && i != id.slot - 1 ensures sim.results[i].block != Some(id) {
      assert SlotOk(cfg, stakes, sim.results[i], i + 1);
    }
  }

  /** One block's late mark, written into the one slot result that names it. */
  method CloseBlock(blocks: Blocks, before: seq<SlotResult>, resultsBefore: seq<SlotResult>, id: BlockId,
                    ghost done: set<BlockId>, ghost at: nat)
      returns (results: seq<SlotResult>)
    requires id in blocks && id !in done && MarksUpTo(blocks, before, resultsBefore, done)
    requires at < |before| && before[at].block == Some(id)
    requires forall i | 0 <= i < |before| && i != at :: before[i].block != Some(id)
    requires (blocks[id].finalized && blocks[id].finalizedAt > blocks[id].slot)
             || before[at].finalizedAt == MarkOf(blocks, id)
    ensures MarksUpTo(blocks, before, results, done + {id})
  {
    results := resultsBefore;
    var b := blocks[id];
    if b.finalized && b.finalizedAt > b.slot {
      assert FirstNaming(results, id, at);
      results := UpdateSlotFinalization(results, id, b.finalizedAt);
    }
  }

  /** The block is named by its own slot's result and no other, with the early mark it deserves. */
  ghost predicate ReadyToClose(blocks: Blocks, results: seq<SlotResult>, id: BlockId)
    requires id in blocks
  {
    && 1 <= id.slot <= |results| && blocks[id].slot == id.slot
    && results[id.slot - 1].block == Some(id)
    && (forall i | 0 <= i < |results| && i != id.slot - 1 :: results[i].block != Some(id))
    && ((blocks[id].finalized && blocks[id].finalizedAt > id.slot)
        || results[id.slot - 1].finalizedAt == MarkOf(blocks, id))
  }

  lemma AllReadyToClose(cfg: SimConfig, stakes: Stakes, quorum: nat, sim: Sim, t: nat)
    requires SimOk(cfg, stakes, quorum, sim, t)
    ensures forall id {:trigger ReadyToClose(sim.blocks, sim.results, id)} | id in sim.blocks ::
            ReadyToClose(sim.blocks, sim.results, id)
  {
    forall id | id in sim.blocks ensures ReadyToClose(sim.blocks, sim.results, id) {
      OwnSlotOnly(cfg, stakes, quorum, sim, t, id);
      EarlyMarkIsFinal(cfg, stakes, quorum, sim, t, id);
    }
  }

  lemma CountOneMore(done: set<BlockId>, marked: set<BlockId>, id: BlockId)
    requires id !in done
    ensures |(done + {id}) - marked| == |done - marked| + if id in marked then 0 else 1
  {
    if id in marked {
      assert (done + {id}) - marked == done - marked;
    } else {
      assert (done + {id}) - marked == done - marked + {id};
    }
  }

  /** The last loop: counts the blocks without a quorum and fills in the late marks, in any order. */
  method CloseBooks(blocks: Blocks, before: seq<SlotResult>) returns (results: seq<SlotResult>, unfinalized: nat)
    requires forall id {:trigger ReadyToClose(blocks, before, id)} | id in blocks :: ReadyToClose(blocks, before, id)
    ensures unfinalized == |blocks.Keys - FinalizedIds(blocks)|
    ensures MarksUpTo(blocks, before, results, blocks.Keys)
  {
    results, unfinalized := before, 0;
    var todo := blocks.Keys;
    ghost var done: set<BlockId> := {};
    while todo != {}
      invariant done + todo == blocks.Keys && done !! todo
      invariant unfinalized == |done - FinalizedIds(blocks)|
      invariant MarksUpTo(blocks, before, results, done)
    {
      var id :| id in todo;
      assert ReadyToClose(blocks, before, id);
      results := CloseBlock(blocks, before, results, id, done, id.slot - 1);
      CountOneMore(done, FinalizedIds(blocks), id);
      if !blocks[id].finalized {
        unfinalized := unfinalized + 1;
      }
      todo, done := todo - {id}, done + {id};
    }
    assert done == blocks.Keys;
  }

  /** Every slot's result after the books are closed. */
  lemma FinalResult(cfg: SimConfig, stakes: Stakes, quorum: nat, sim: Sim, t: nat, results: seq<SlotResult>, s: nat)
    requires SimOk(cfg, stakes, quorum, sim, t) && 1 <= s <= t
    requires MarksUpTo(sim.blocks, sim.results, results, sim.blocks.Keys)
    ensures SlotOk(cfg, stakes, results[s - 1], s) && FinalMark(cfg, stakes, quorum, results[s - 1], t)
  {
    assert SlotOk(cfg, stakes, sim.results[s - 1], s);
    if Produces(cfg, stakes, s) {
      var id := IdOf(cfg, s);
      assert id in ProducedIds(cfg, stakes, t);
      SettledBlock(cfg, stakes, quorum, sim, t, id);
    }
  }

  // ---- The whole run ----

  /** The runs the simulation refuses to start or cannot finish. */
  ghost predicate Runnable(cfg: SimConfig) {
    && cfg.validators != [] && cfg.slots != 0
    && StakesOf(cfg.validators) != map[] && TotalOf(cfg.validators) != 0
    && forall s | 1 <= s <= cfg.slots :: cfg.schedule(s).Some?
  }

  ghost function QuorumOf(cfg: SimConfig): nat {
    Quorum(TotalOf(cfg.validators), Effective(cfg.threshold))
  }

  /** Everything the result reports, in terms of arrivals alone. */
  ghost predicate Reports(cfg: SimConfig, r: SimResult) {
    var stakes := StakesOf(cfg.validators);
    var produced := ProducedIds(cfg, stakes, cfg.slots);
    && r.produced == |produced|
    && r.produced + r.missed == cfg.slots
    && r.finalized + r.unfinalized == r.produced
    && r.finalized == |set id | id in produced && ArrivedStake(cfg, stakes, id, cfg.slots) >= QuorumOf(cfg)|
    && |r.slotResults| == cfg.slots
    && forall i | 0 <= i < cfg.slots ::
         SlotOk(cfg, stakes, r.slotResults[i], i + 1)
             && FinalMark(cfg, stakes, QuorumOf(cfg), r.slotResults[i], cfg.slots)
  }

  lemma FinalizedAreArrived(cfg: SimConfig, stakes: Stakes, quorum: nat, sim: Sim, t: nat)
    requires SimOk(cfg, stakes, quorum, sim, t)
    ensures FinalizedIds(sim.blocks) ==
            set id | id in ProducedIds(cfg, stakes, t) && ArrivedStake(cfg, stakes, id, t) >= quorum
  {
    forall id | id in sim.blocks ensures sim.blocks[id].finalized <==> ArrivedStake(cfg, stakes, id, t) >= quorum {
      SettledBlock(cfg, stakes, quorum, sim, t, id);
    }
  }

  lemma NothingSimulated(cfg: SimConfig, stakes: Stakes, quorum: nat)
    ensures SimOk(cfg, stakes, quorum, Sim(map[], [], 0, 0, 0, []), 0)
  {
    assert ProducedIds(cfg, stakes, 0) == {} && FinalizedIds(map[]) == {};
  }

  /** The slot loop. */
  method RunSlots(cfg: SimConfig, stakes: Stakes, quorum: nat) returns (last: Option<Sim>)
    ensures last.Some? <==> forall s | 1 <= s <= cfg.slots :: cfg.schedule(s).Some?
    ensures last.Some? ==> SimOk(cfg, stakes, quorum, last.value, cfg.slots)
  {
    var sim := Sim(map[], [], 0, 0, 0, []);
    NothingSimulated(cfg, stakes, quorum);
    ghost var done: nat := 0;
    for slot := 1 to cfg.slots + 1
      invariant done == slot - 1 && SimOk(cfg, stakes, quorum, sim, done)
      invariant forall s | 1 <= s < slot :: cfg.schedule(s).Some?
    {
      var next := RunSlot(cfg, stakes, quorum, sim, slot, done);
      if next.None? {
        return None;
      }
      sim, done := next.value, slot;
    }
    last := Some(sim);
  }

  lemma ClosedCounts(cfg: SimConfig, stakes: Stakes, quorum: nat, sim: Sim, unfinalized: nat)
    requires SimOk(cfg, stakes, quorum, sim, cfg.slots)
    requires unfinalized == |sim.blocks.Keys - FinalizedIds(sim.blocks)|
    ensures var produced := ProducedIds(cfg, stakes, cfg.slots);
            && sim.produced == |produced|
            && sim.produced + sim.missed == cfg.slots
            && sim.finalized + unfinalized == sim.produced
            && sim.finalized == |set id | id in produced && ArrivedStake(cfg, stakes, id, cfg.slots) >= quorum|
  {
    FinalizedAreArrived(cfg, stakes, quorum, sim, cfg.slots);
    assert |sim.blocks| == |sim.blocks.Keys|;
    assert sim.blocks.Keys == (sim.blocks.Keys - FinalizedIds(sim.blocks)) + FinalizedIds(sim.blocks);
  }

  lemma ClosedBooksReport(cfg: SimConfig, sim: Sim, results: seq<SlotResult>, unfinalized: nat)
    requires SimOk(cfg, StakesOf(cfg.validators), QuorumOf(cfg), sim, cfg.slots)
    requires unfinalized == |sim.blocks.Keys - FinalizedIds(sim.blocks)|
    requires MarksUpTo(sim.blocks, sim.results, results, sim.blocks.Keys)
    ensures Reports(cfg, SimResult(sim.produced, sim.missed, sim.finalized, unfinalized, results))
  {
    var stakes, quorum := StakesOf(cfg.validators), QuorumOf(cfg);
    ClosedCounts(cfg, stakes, quorum, sim, unfinalized);
    forall i | 0 <= i < cfg.slots
      ensures SlotOk(cfg, stakes, results[i], i + 1) && FinalMark(cfg, stakes, quorum, results[i], cfg.slots)
    {
      FinalResult(cfg, stakes, quorum, sim, cfg.slots, results, i + 1);
    }
  }

  /** The simulation, proved to report exactly what the arrivals say, for every configuration. */
  method RunAdversarialSimulation(cfg: SimConfig) returns (result: Option<SimResult>)
    ensures result.Some? <==> Runnable(cfg)
    ensures result.Some? ==> Reports(cfg, result.value)
  {
    if cfg.validators == [] {
      return None;
    }
    if cfg.slots == 0 {
      return None;
    }
    var stakes, total := BuildStakes(cfg.validators);
    if stakes == map[] || total == 0 {
      return None;
    }
    var quorum := Quorum(total, Effective(cfg.threshold));
    var last := RunSlots(cfg, stakes, quorum);
    if last.None? {
      return None;
    }
    var sim := last.value;
    AllReadyToClose(cfg, stakes, quorum, sim, cfg.slots);
    var slotResults, unfinalized := CloseBooks(sim.blocks, sim.results);
    ClosedBooksReport(cfg, sim, slotResults, unfinalized);
    result := Some(SimResult(sim.produced, sim.missed, sim.finalized, unfinalized, slotResults));
  }

  /** Conservation after every slot: attested, pending and lost stake of a block add up to all stake. */
  lemma ConservationAfterSlot(cfg: SimConfig, quorum: nat, sim: Sim, t: nat, id: BlockId)
    requires DistinctActive(cfg.validators)
    requires SimOk(cfg, StakesOf(cfg.validators), quorum, sim, t) && id in sim.blocks
    ensures var stakes := StakesOf(cfg.validators);
            sim.blocks[id].attested + PendingWeight(sim.pending, id) + Sum(Lost(cfg, stakes, id), W(stakes)) ==
                TotalOf(cfg.validators)
  {
    var stakes := StakesOf(cfg.validators);
    SettledBlock(cfg, stakes, quorum, sim, t, id);
    Conservation(cfg, stakes, id, sim.blocks[id], Waiting(sim.pending, id));
    forall i | 0 <= i < |sim.pending|
      ensures sim.pending[i].validator in stakes && sim.pending[i].weight == stakes[sim.pending[i].validator]
    {
      assert EntryOk(cfg, stakes, sim.blocks, sim.pending[i]);
    }
    PendingWeightIsWaiting(stakes, sim.pending, id);
    TotalIsTableStake(cfg.validators);
  }

  /** Every attestation of the block is counted at once, or delivered before the run ends. */
  ghost predicate DeliveredInTime(cfg: SimConfig, id: BlockId, v: Addr) {
    || (!CutOff(cfg, id, v) && DelayFor(cfg.delays, v, id.slot) == 0)
    || (DeliverySlot(cfg, id, v) <= cfg.slots && id.slot < cfg.slots)
  }

  lemma {:induction false} WindowIsListed(ws: seq<PartitionWindow>, slot: nat)
    requires WindowFor(ws, slot).Some?
    ensures WindowFor(ws, slot).value in ws
    decreases |ws|
  {
    if !Covers(ws[0], slot) { WindowIsListed(ws[1..], slot); }
  }

  /**
   * Liveness: with a threshold of at most one, every partition replayed and every delivery due by
   * the last slot, every produced block is reported final.
   */
  lemma EveryBlockBecomesFinal(cfg: SimConfig, r: SimResult, s: nat)
    requires DistinctActive(cfg.validators) && cfg.threshold <= 1.0
    requires forall w | w in cfg.partitions :: w.replay
    requires Reports(cfg, r) && 1 <= s <= cfg.slots && r.slotResults[s - 1].produced
    requires forall v | v in StakesOf(cfg.validators) :: DeliveredInTime(cfg, r.slotResults[s - 1].block.value, v)
    ensures 1 <= r.slotResults[s - 1].finalizedAt <= cfg.slots
  {
    var stakes := StakesOf(cfg.validators);
    var id := IdOf(cfg, s);
    assert SlotOk(cfg, stakes, r.slotResults[s - 1], s);
    forall v | v in stakes ensures Arrival(cfg, id, v).Some? && Arrival(cfg, id, v).value <= cfg.slots {
      if CutOff(cfg, id, v) { WindowIsListed(cfg.partitions, id.slot); }
    }
    assert Arrived(cfg, stakes, id, cfg.slots) == stakes.Keys;
    TotalIsTableStake(cfg.validators);
    QuorumWithinTotal(TotalOf(cfg.validators), Effective(cfg.threshold));
  }
}
