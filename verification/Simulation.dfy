/** RunAdversarialSimulation with its loops, proved to compute the closed form. */
module Simulation {
  import opened Base
  import opened StakeSums
  import opened SimulationSpec

  datatype SimBlock = SimBlock(slot: nat, proposer: Addr, attested: nat, finalized: bool, finalizedAt: nat)

  datatype Pending = Pending(id: BlockId, validator: Addr, weight: nat, deliverySlot: nat)

  type Blocks = map<BlockId, SimBlock>

  // ---- What is on its way ----

  ghost function Waiting(pending: seq<Pending>, id: BlockId): set<Addr> {
    set i | 0 <= i < |pending| && pending[i].id == id :: pending[i].validator
  }

  /** At most one attestation per validator and block is on its way. */
  ghost predicate OneEach(pending: seq<Pending>) {
    forall i, j | 0 <= i < j < |pending| ::
        pending[i].id != pending[j].id || pending[i].validator != pending[j].validator
  }

  ghost predicate EntryOk(cfg: SimConfig, stakes: Stakes, blocks: Blocks, e: Pending) {
    && e.id in blocks
    && e.validator in stakes && e.weight == stakes[e.validator]
    && Arrival(cfg, e.id, e.validator) == Some(Max(e.deliverySlot, e.id.slot + 1))
  }

  ghost predicate PendingOk(cfg: SimConfig, stakes: Stakes, blocks: Blocks, pending: seq<Pending>) {
    OneEach(pending) && forall i | 0 <= i < |pending| :: EntryOk(cfg, stakes, blocks, pending[i])
  }

  function Drop(pending: seq<Pending>, i: nat): seq<Pending>
    requires i < |pending|
  {
    pending[..i] + pending[i + 1..]
  }

  lemma DropAt(pending: seq<Pending>, i: nat, j: nat)
    requires i < |pending| && j < |pending| - 1
    ensures Drop(pending, i)[j] == if j < i then pending[j] else pending[j + 1]
  {
  }

  lemma DropKeepsPendingOk(cfg: SimConfig, stakes: Stakes, blocks: Blocks, pending: seq<Pending>, i: nat)
    requires PendingOk(cfg, stakes, blocks, pending) && i < |pending|
    ensures PendingOk(cfg, stakes, blocks, Drop(pending, i))
  {
    var rest := Drop(pending, i);
    forall j | 0 <= j < |rest| ensures EntryOk(cfg, stakes, blocks, rest[j]) {
      DropAt(pending, i, j);
    }
    forall j, k | 0 <= j < k < |rest| ensures rest[j].id != rest[k].id || rest[j].validator != rest[k].validator {
      DropAt(pending, i, j);
      DropAt(pending, i, k);
    }
  }

  /** Taking an entry off the list takes exactly that validator off that block's waiting set. */
  lemma WaitingAfterDrop(pending: seq<Pending>, i: nat, id: BlockId)
    requires OneEach(pending) && i < |pending|
    ensures Waiting(Drop(pending, i), id) ==
            if id == pending[i].id then Waiting(pending, id) - {pending[i].validator} else Waiting(pending, id)
    ensures id == pending[i].id ==> pending[i].validator in Waiting(pending, id)
  {
    var rest := Drop(pending, i);
    forall v ensures v in Waiting(rest, id) <==>
                     v in Waiting(pending, id) && !(id == pending[i].id && v == pending[i].validator) {
      if v in Waiting(rest, id) {
        var j :| 0 <= j < |rest| && rest[j].id == id && rest[j].validator == v;
        DropAt(pending, i, j);
      }
      if v in Waiting(pending, id) && !(id == pending[i].id && v == pending[i].validator) {
        var j :| 0 <= j < |pending| && pending[j].id == id && pending[j].validator == v;
        if j < i { DropAt(pending, i, j); } else { DropAt(pending, i, j - 1); }
      }
    }
  }

  // ---- The invariant of one block ----

  ghost predicate Counted(cfg: SimConfig, stakes: Stakes, id: BlockId, b: SimBlock, waiting: set<Addr>) {
    && b.slot == id.slot && b.proposer == id.proposer
    && waiting <= Reaching(cfg, stakes, id)
    && b.attested == Sum(Reaching(cfg, stakes, id) - waiting, W(stakes))
  }

  /** Nothing due before slot t is still waiting, and what is not due by slot t is. */
  ghost predicate OnTime(cfg: SimConfig, stakes: Stakes, id: BlockId, waiting: set<Addr>, t: nat) {
    forall v | v in Reaching(cfg, stakes, id) ::
      && (v in waiting ==> Arrival(cfg, id, v).value >= t)
      && (Arrival(cfg, id, v).value > t ==> v in waiting)
  }

  ghost predicate Marked(cfg: SimConfig, stakes: Stakes, quorum: nat, id: BlockId, b: SimBlock, t: nat) {
    && (b.finalized <==> b.attested >= quorum)
    && (b.finalized ==> FirstQuorum(cfg, stakes, quorum, id, b.finalizedAt) && b.finalizedAt <= t)
    && (!b.finalized ==> forall u | id.slot <= u < t :: ArrivedStake(cfg, stakes, id, u) < quorum)
  }

  ghost predicate BlockOk(cfg: SimConfig, stakes: Stakes, quorum: nat, id: BlockId, b: SimBlock, waiting: set<Addr>,
                          t: nat) {
    && Counted(cfg, stakes, id, b, waiting)
    && OnTime(cfg, stakes, id, waiting, t)
    && Marked(cfg, stakes, quorum, id, b, t)
  }

  /**
   * Conservation: a block's attested stake, the stake on its way and the stake a partition swallowed
   * add up to all stake, so no validator is ever counted twice.
   */
  lemma Conservation(cfg: SimConfig, stakes: Stakes, id: BlockId, b: SimBlock, waiting: set<Addr>)
    requires Counted(cfg, stakes, id, b, waiting)
    ensures b.attested + Sum(waiting, W(stakes)) + Sum(Lost(cfg, stakes, id), W(stakes)) == Sum(stakes.Keys, W(stakes))
  {
    var reaching, lost := Reaching(cfg, stakes, id), Lost(cfg, stakes, id);
    SumUnion(reaching - waiting, waiting, W(stakes));
    assert (reaching - waiting) + waiting == reaching;
    SumUnion(reaching, lost, W(stakes));
    assert reaching + lost == stakes.Keys;
  }

  /** The weights on the list for a block are the stakes of its waiting validators. */
  function PendingWeight(pending: seq<Pending>, id: BlockId): nat {
    if pending == [] then 0 else
      PendingWeight(pending[..|pending| - 1], id)
      + if pending[|pending| - 1].id == id then pending[|pending| - 1].weight else 0
  }

  lemma {:induction false} PendingWeightIsWaiting(stakes: Stakes, pending: seq<Pending>, id: BlockId)
    requires OneEach(pending)
    requires forall i | 0 <= i < |pending| ::
             pending[i].validator in stakes && pending[i].weight == stakes[pending[i].validator]
    ensures PendingWeight(pending, id) == Sum(Waiting(pending, id), W(stakes))
    decreases |pending|
  {
    if pending == [] {
      assert Waiting(pending, id) == {};
    } else {
      var n := |pending| - 1;
      var rest := pending[..n];
      assert Drop(pending, n) == rest;
      PendingWeightIsWaiting(stakes, rest, id);
      WaitingAfterDrop(pending, n, id);
      if pending[n].id == id {
        SumRemove(Waiting(pending, id), W(stakes), pending[n].validator);
      }
    }
  }

  // ---- Delivering one attestation ----

  function Deliver(b: SimBlock, weight: nat, quorum: nat, slot: nat): SimBlock {
    var b1 := b.(attested := b.attested + weight);
    if !b1.finalized && b1.attested >= quorum then b1.(finalized := true, finalizedAt := slot) else b1
  }

  lemma DeliverKeepsBlock(cfg: SimConfig, stakes: Stakes, quorum: nat, id: BlockId, b: SimBlock, waiting: set<Addr>,
                          t: nat, v: Addr)
    requires BlockOk(cfg, stakes, quorum, id, b, waiting, t)
    requires v in waiting && Arrival(cfg, id, v).value <= t && v in stakes && id.slot < t
    ensures BlockOk(cfg, stakes, quorum, id, Deliver(b, stakes[v], quorum, t), waiting - {v}, t)
  {
    var reaching := Reaching(cfg, stakes, id);
    var b' := Deliver(b, stakes[v], quorum, t);
    assert reaching - (waiting - {v}) == (reaching - waiting) + {v};
    SumAdd(reaching - waiting, W(stakes), v);
    assert Counted(cfg, stakes, id, b', waiting - {v});
    if b'.finalized && !b.finalized {
      assert reaching - (waiting - {v}) <= Arrived(cfg, stakes, id, t);
      SumSubset(reaching - (waiting - {v}), Arrived(cfg, stakes, id, t), W(stakes));
      assert FirstQuorum(cfg, stakes, quorum, id, t);
    }
  }

  ghost predicate AllOk(cfg: SimConfig, stakes: Stakes, quorum: nat, blocks: Blocks, pending: seq<Pending>, t: nat) {
    && PendingOk(cfg, stakes, blocks, pending)
    && forall id | id in blocks :: BlockOk(cfg, stakes, quorum, id, blocks[id], Waiting(pending, id), t)
  }

  ghost function FinalizedIds(blocks: Blocks): set<BlockId> {
    set id | id in blocks && blocks[id].finalized
  }

  lemma DeliverKeepsAll(cfg: SimConfig, stakes: Stakes, quorum: nat, blocks: Blocks, pending: seq<Pending>, t: nat,
                        i: nat)
    requires AllOk(cfg, stakes, quorum, blocks, pending, t)
    requires i < |pending| && pending[i].deliverySlot <= t && pending[i].id in blocks && pending[i].id.slot < t
    ensures var e := pending[i];
            AllOk(cfg, stakes, quorum, blocks[e.id := Deliver(blocks[e.id], e.weight, quorum, t)], Drop(pending, i), t)
  {
    var e := pending[i];
    var after := blocks[e.id := Deliver(blocks[e.id], e.weight, quorum, t)];
    assert EntryOk(cfg, stakes, blocks, e);
    assert PendingOk(cfg, stakes, after, pending) by {
      forall j | 0 <= j < |pending| ensures EntryOk(cfg, stakes, after, pending[j]) {
        assert EntryOk(cfg, stakes, blocks, pending[j]);
      }
    }
    DropKeepsPendingOk(cfg, stakes, after, pending, i);
    forall id | id in after ensures BlockOk(cfg, stakes, quorum, id, after[id], Waiting(Drop(pending, i), id), t) {
      assert BlockOk(cfg, stakes, quorum, id, blocks[id], Waiting(pending, id), t);
      WaitingAfterDrop(pending, i, id);
      if id == e.id {
        DeliverKeepsBlock(cfg, stakes, quorum, id, blocks[id], Waiting(pending, id), t, e.validator);
      }
    }
  }

  lemma FinalizedAfterDeliver(blocks: Blocks, id: BlockId, b: SimBlock)
    requires id in blocks && (blocks[id].finalized ==> b.finalized)
    ensures |FinalizedIds(blocks[id := b])| ==
            |FinalizedIds(blocks)| + if b.finalized && !blocks[id].finalized then 1 else 0
  {
    var after := blocks[id := b];
    if b.finalized && !blocks[id].finalized {
      assert FinalizedIds(after) == FinalizedIds(blocks) + {id};
    } else {
      assert FinalizedIds(after) == FinalizedIds(blocks);
    }
  }

  method DeliverEntry(before: SimBlock, weight: nat, quorum: nat, slot: nat) returns (b: SimBlock, newlyFinal: bool)
    ensures b == Deliver(before, weight, quorum, slot)
    ensures newlyFinal <==> b.finalized && !before.finalized
    ensures before.finalized ==> b.finalized
  {
    newlyFinal := false;
    b := before.(attested := before.attested + weight);
    if !b.finalized && b.attested >= quorum {
      b := b.(finalized := true, finalizedAt := slot);
      newlyFinal := true;
    }
  }

  /** What holds between two iterations of the delivery loop. */
  ghost predicate Delivering(cfg: SimConfig, stakes: Stakes, quorum: nat, slot: nat, blocks: Blocks,
                             pending: seq<Pending>, count: nat) {
    && AllOk(cfg, stakes, quorum, blocks, pending, slot)
    && (forall id | id in blocks :: id.slot < slot)
    && count == |FinalizedIds(blocks)|
  }

  method DeliverAt(cfg: SimConfig, stakes: Stakes, quorum: nat, slot: nat, blocksBefore: Blocks,
                   pendingBefore: seq<Pending>, countBefore: nat, i: nat)
      returns (blocks: Blocks, pending: seq<Pending>, count: nat)
    requires Delivering(cfg, stakes, quorum, slot, blocksBefore, pendingBefore, countBefore)
    requires i < |pendingBefore| && pendingBefore[i].deliverySlot <= slot
    ensures Delivering(cfg, stakes, quorum, slot, blocks, pending, count)
    ensures blocks.Keys == blocksBefore.Keys
    ensures |pending| == |pendingBefore| - 1 && pending[..i] == pendingBefore[..i]
  {
    var e := pendingBefore[i];
    assert EntryOk(cfg, stakes, blocksBefore, e);
    DeliverKeepsAll(cfg, stakes, quorum, blocksBefore, pendingBefore, slot, i);
    var b, newlyFinal := DeliverEntry(blocksBefore[e.id], e.weight, quorum, slot);
    FinalizedAfterDeliver(blocksBefore, e.id, b);
    count := if newlyFinal then countBefore + 1 else countBefore;
    blocks := blocksBefore[e.id := b];
    pending := Drop(pendingBefore, i);
  }

  /** The delivery loop of one slot, deleting from the list as it goes. */
  method DeliverDue(cfg: SimConfig, stakes: Stakes, quorum: nat, slot: nat, blocksBefore: Blocks,
                    pendingBefore: seq<Pending>, countBefore: nat)
      returns (blocks: Blocks, pending: seq<Pending>, count: nat)
    requires Delivering(cfg, stakes, quorum, slot, blocksBefore, pendingBefore, countBefore)
    ensures Delivering(cfg, stakes, quorum, slot, blocks, pending, count)
    ensures blocks.Keys == blocksBefore.Keys
    ensures forall e | e in pending :: e.deliverySlot > slot
  {
    blocks, pending, count := blocksBefore, pendingBefore, countBefore;
    var i := 0;
    while i < |pending|
      invariant i <= |pending|
      invariant Delivering(cfg, stakes, quorum, slot, blocks, pending, count)
      invariant blocks.Keys == blocksBefore.Keys
      invariant forall e | e in pending[..i] :: e.deliverySlot > slot
      decreases |pending| - i
    {
      if pending[i].deliverySlot > slot {
        i := i + 1;
      } else {
        blocks, pending, count := DeliverAt(cfg, stakes, quorum, slot, blocks, pending, count, i);
      }
    }
    assert pending[..i] == pending;
  }

  /** Once nothing due is left, the invariant holds for the next slot too. */
  lemma NextSlot(cfg: SimConfig, stakes: Stakes, quorum: nat, blocks: Blocks, pending: seq<Pending>, t: nat)
    requires AllOk(cfg, stakes, quorum, blocks, pending, t)
    requires forall i | 0 <= i < |pending| :: Max(pending[i].deliverySlot, pending[i].id.slot + 1) > t
    ensures AllOk(cfg, stakes, quorum, blocks, pending, t + 1)
  {
    forall id | id in blocks ensures BlockOk(cfg, stakes, quorum, id, blocks[id], Waiting(pending, id), t + 1) {
      var waiting := Waiting(pending, id);
      assert BlockOk(cfg, stakes, quorum, id, blocks[id], waiting, t);
      forall v | v in waiting ensures Arrival(cfg, id, v).Some? && Arrival(cfg, id, v).value > t {
        var i :| 0 <= i < |pending| && pending[i].id == id && pending[i].validator == v;
        assert EntryOk(cfg, stakes, blocks, pending[i]);
      }
      NextSlotForBlock(cfg, stakes, quorum, id, blocks[id], waiting, t);
    }
  }

  lemma NextSlotForBlock(cfg: SimConfig, stakes: Stakes, quorum: nat, id: BlockId, b: SimBlock, waiting: set<Addr>,
                         t: nat)
    requires BlockOk(cfg, stakes, quorum, id, b, waiting, t)
    requires forall v | v in waiting :: Arrival(cfg, id, v).Some? && Arrival(cfg, id, v).value > t
    ensures BlockOk(cfg, stakes, quorum, id, b, waiting, t + 1)
    ensures b.attested == ArrivedStake(cfg, stakes, id, t)
  {
    assert Reaching(cfg, stakes, id) - waiting == Arrived(cfg, stakes, id, t);
  }

  // ---- Producing a block ----

  method DelayForValidator(ws: seq<DelayWindow>, v: Addr, slot: nat) returns (delay: nat)
    ensures delay == DelayFor(ws, v, slot)
  {
    for i := 0 to |ws|
      invariant DelayFor(ws, v, slot) == DelayFor(ws[i..], v, slot)
    {
      if v != ws[i].validator {
        continue;
      }
      if slot < ws[i].startSlot || slot > ws[i].endSlot {
        continue;
      }
      return ws[i].delaySlots;
    }
    return 0;
  }

  function Look(groupMap: map<Addr, nat>, a: Addr): nat {
    if a in groupMap then groupMap[a] else 0
  }

  method GroupMembers(groups: seq<seq<Addr>>) returns (groupMap: map<Addr, nat>)
    ensures forall a :: Look(groupMap, a) == GroupOf(groups, a)
  {
    groupMap := map[];
    for idx := 0 to |groups|
      invariant forall a :: Look(groupMap, a) == GroupOf(groups[..idx], a)
    {
      var members := groups[idx];
      ghost var before := groupMap;
      for j := 0 to |members|
        invariant forall a :: Look(groupMap, a) == if a in members[..j] then idx else Look(before, a)
      {
        groupMap := groupMap[members[j] := idx];
      }
      assert members[..|members|] == members;
      assert groups[..idx + 1][..idx] == groups[..idx];
    }
    assert groups[..|groups|] == groups;
  }

  method PartitionGroupsForSlot(ws: seq<PartitionWindow>, slot: nat)
      returns (window: Option<PartitionWindow>, groupMap: map<Addr, nat>)
    ensures window == WindowFor(ws, slot)
    ensures window.Some? ==> forall a :: Look(groupMap, a) == GroupOf(window.value.groups, a)
  {
    groupMap := map[];
    for i := 0 to |ws|
      invariant WindowFor(ws, slot) == WindowFor(ws[i..], slot)
    {
      if slot < ws[i].startSlot || slot > ws[i].endSlot {
        continue;
      }
      groupMap := GroupMembers(ws[i].groups);
      return Some(ws[i]), groupMap;
    }
    return None, groupMap;
  }

  ghost function VisibleTo(cfg: SimConfig, stakes: Stakes, id: BlockId): set<Addr> {
    set v | v in stakes && !CutOff(cfg, id, v)
  }

  /** The entries a new block puts on the list. */
  ghost predicate NewEntries(cfg: SimConfig, stakes: Stakes, id: BlockId, list: seq<Pending>, voters: set<Addr>) {
    && OneEach(list)
    && (forall i | 0 <= i < |list| ::
          && list[i].id == id && list[i].validator in voters && list[i].validator in stakes
          && list[i].weight == stakes[list[i].validator]
          && Arrival(cfg, id, list[i].validator) == Some(Max(list[i].deliverySlot, id.slot + 1)))
    && Waiting(list, id) == set v | v in voters && Arrival(cfg, id, v).Some? && Arrival(cfg, id, v).value > id.slot
  }

  lemma OneMoreEntry(cfg: SimConfig, stakes: Stakes, id: BlockId, list: seq<Pending>, voters: set<Addr>, v: Addr,
                     d: nat)
    requires NewEntries(cfg, stakes, id, list, voters) && v in stakes && v !in voters
    requires Arrival(cfg, id, v) == Some(Max(d, id.slot + 1))
    ensures NewEntries(cfg, stakes, id, list + [Pending(id, v, stakes[v], d)], voters + {v})
  {
    var longer := list + [Pending(id, v, stakes[v], d)];
    assert Waiting(longer, id) == Waiting(list, id) + {v} by {
      forall x ensures x in Waiting(longer, id) <==> x in Waiting(list, id) || x == v {
        if x in Waiting(list, id) {
          var i :| 0 <= i < |list| && list[i].id == id && list[i].validator == x;
          assert longer[i] == list[i];
        }
        if x == v { assert longer[|list|].validator == v; }
      }
    }
  }

  lemma NoMoreEntry(cfg: SimConfig, stakes: Stakes, id: BlockId, list: seq<Pending>, voters: set<Addr>, v: Addr)
    requires NewEntries(cfg, stakes, id, list, voters)
    requires Arrival(cfg, id, v).None? || Arrival(cfg, id, v).value <= id.slot
    ensures NewEntries(cfg, stakes, id, list, voters + {v})
  {
  }

  /** One vote per active validator, in any order: counted now, put on the list, or lost. */
  method CastVotes(cfg: SimConfig, stakes: Stakes, id: BlockId)
      returns (attested: nat, visible: nat, list: seq<Pending>)
    ensures attested == ArrivedStake(cfg, stakes, id, id.slot)
    ensures visible == Sum(VisibleTo(cfg, stakes, id), W(stakes))
    ensures NewEntries(cfg, stakes, id, list, stakes.Keys)
  {
    attested, visible, list := 0, 0, [];
    var window, groupMap := PartitionGroupsForSlot(cfg.partitions, id.slot);
    var todo := stakes.Keys;
    ghost var done: set<Addr> := {};
    assert done * Arrived(cfg, stakes, id, id.slot) == {} && done * VisibleTo(cfg, stakes, id) == {};
    while todo != {}
      invariant done + todo == stakes.Keys && done !! todo
      invariant attested == Sum(done * Arrived(cfg, stakes, id, id.slot), W(stakes))
      invariant visible == Sum(done * VisibleTo(cfg, stakes, id), W(stakes))
      invariant NewEntries(cfg, stakes, id, list, done)
    {
      var v :| v in todo;
      var delay := DelayForValidator(cfg.delays, v, id.slot);
      var cut := window.Some? && Look(groupMap, v) != Look(groupMap, id.proposer);
      attested, visible, list := CastVote(cfg, stakes, id, window, delay, cut, v, done, attested, visible, list);
      todo, done := todo - {v}, done + {v};
    }
    assert done * Arrived(cfg, stakes, id, id.slot) == Arrived(cfg, stakes, id, id.slot);
    assert done * VisibleTo(cfg, stakes, id) == VisibleTo(cfg, stakes, id);
  }

  lemma SumWithOne(done: set<Addr>, part: set<Addr>, stakes: Stakes, v: Addr)
    requires v !in done && v in stakes
    ensures Sum((done + {v}) * part, W(stakes)) == Sum(done * part, W(stakes)) + if v in part then stakes[v] else 0
  {
    if v in part {
      assert (done + {v}) * part == done * part + {v};
      SumAdd(done * part, W(stakes), v);
    } else {
      assert (done + {v}) * part == done * part;
    }
  }

  /** The body of the voting loop for one validator. */
  method CastVote(cfg: SimConfig, stakes: Stakes, id: BlockId, window: Option<PartitionWindow>, delay: nat, cut: bool,
                  v: Addr,
                  ghost done: set<Addr>, attestedBefore: nat, visibleBefore: nat, listBefore: seq<Pending>)
      returns (attested: nat, visible: nat, list: seq<Pending>)
    requires v in stakes && v !in done
    requires window == WindowFor(cfg.partitions, id.slot) && delay == DelayFor(cfg.delays, v, id.slot)
             && cut == CutOff(cfg, id, v)
    requires attestedBefore == Sum(done * Arrived(cfg, stakes, id, id.slot), W(stakes))
    requires visibleBefore == Sum(done * VisibleTo(cfg, stakes, id), W(stakes))
    requires NewEntries(cfg, stakes, id, listBefore, done)
    ensures attested == Sum((done + {v}) * Arrived(cfg, stakes, id, id.slot), W(stakes))
    ensures visible == Sum((done + {v}) * VisibleTo(cfg, stakes, id), W(stakes))
    ensures NewEntries(cfg, stakes, id, list, done + {v})
  {
    attested, visible, list := attestedBefore, visibleBefore, listBefore;
    SumWithOne(done, Arrived(cfg, stakes, id, id.slot), stakes, v);
    SumWithOne(done, VisibleTo(cfg, stakes, id), stakes, v);
    var deliverySlot := AddU64(id.slot, delay);
    if cut {
      if window.value.replay {
        var healSlot := AddU64(window.value.endSlot, 1);
        if deliverySlot < healSlot {
          deliverySlot := healSlot;
        }
        OneMoreEntry(cfg, stakes, id, list, done, v, deliverySlot);
        list := list + [Pending(id, v, stakes[v], deliverySlot)];
      } else {
        NoMoreEntry(cfg, stakes, id, list, done, v);
      }
      return;
    }
    visible := visible + stakes[v];
    if delay == 0 {
      NoMoreEntry(cfg, stakes, id, list, done, v);
      attested := attested + stakes[v];
      return;
    }
    OneMoreEntry(cfg, stakes, id, list, done, v, deliverySlot);
    list := list + [Pending(id, v, stakes[v], deliverySlot)];
  }
}
