/**
 * What the adversarial simulation is meant to compute, said without its loops: when each
 * attestation of each block arrives, and when the block therefore becomes final.
 */
module SimulationSpec {
  import opened Base
  import opened StakeSums

  datatype SimValidator = SimValidator(address: Addr, stake: nat, active: bool)

  datatype PartitionWindow = PartitionWindow(startSlot: nat, endSlot: nat, groups: seq<seq<Addr>>, replay: bool)

  datatype DelayWindow = DelayWindow(validator: Addr, startSlot: nat, endSlot: nat, delaySlots: nat)

  /** schedule gives the proposer of a slot, or None where building the epoch schedule fails. */
  datatype SimConfig = SimConfig(
    validators: seq<SimValidator>,
    slots: nat,
    threshold: real,
    partitions: seq<PartitionWindow>,
    delays: seq<DelayWindow>,
    withheld: set<nat>,
    schedule: nat -> Option<Addr>)

  /** "sim-<slot>-<proposer>": one name per slot and proposer. */
  datatype BlockId = BlockId(slot: nat, proposer: Addr)

  type Stakes = map<Addr, nat>

  function W(stakes: Stakes): Addr -> nat {
    a => if a in stakes then stakes[a] else 0
  }

  // ---- Partitions and delays ----

  predicate Covers(w: PartitionWindow, slot: nat) {
    w.startSlot <= slot <= w.endSlot
  }

  /** The first window that covers the slot. */
  function WindowFor(ws: seq<PartitionWindow>, slot: nat): Option<PartitionWindow> {
    if ws == [] then None
    else if Covers(ws[0], slot) then Some(ws[0])
    else WindowFor(ws[1..], slot)
  }

  /** The last group that lists the address; an unlisted address falls into group zero. */
  function GroupOf(groups: seq<seq<Addr>>, a: Addr): nat {
    if groups == [] then 0
    else if a in groups[|groups| - 1] then |groups| - 1
    else GroupOf(groups[..|groups| - 1], a)
  }

  predicate Delays(w: DelayWindow, v: Addr, slot: nat) {
    v == w.validator && w.startSlot <= slot <= w.endSlot
  }

  function DelayFor(ws: seq<DelayWindow>, v: Addr, slot: nat): nat {
    if ws == [] then 0
    else if Delays(ws[0], v, slot) then ws[0].delaySlots
    else DelayFor(ws[1..], v, slot)
  }

  /** v and the block's proposer are on different sides of a partition in the block's slot. */
  predicate CutOff(cfg: SimConfig, id: BlockId, v: Addr) {
    var w := WindowFor(cfg.partitions, id.slot);
    w.Some? && GroupOf(w.value.groups, v) != GroupOf(w.value.groups, id.proposer)
  }

  /** The delivery slot computed when the block is produced, in unsigned arithmetic. */
  function DeliverySlot(cfg: SimConfig, id: BlockId, v: Addr): nat {
    var delayed := AddU64(id.slot, DelayFor(cfg.delays, v, id.slot));
    if CutOff(cfg, id, v) then
      var healed := AddU64(WindowFor(cfg.partitions, id.slot).value.endSlot, 1);
      if delayed < healed then healed else delayed
    else delayed
  }

  function Max(a: nat, b: nat): nat {
    if a < b then b else a
  }

  /** The slot in which v's attestation of the block is counted; None if a partition swallows it. */
  function Arrival(cfg: SimConfig, id: BlockId, v: Addr): Option<nat> {
    if CutOff(cfg, id, v) then
      if WindowFor(cfg.partitions, id.slot).value.replay then Some(Max(DeliverySlot(cfg, id, v), id.slot + 1)) else None
    else if DelayFor(cfg.delays, v, id.slot) == 0 then Some(id.slot)
    else Some(Max(DeliverySlot(cfg, id, v), id.slot + 1))
  }

  // ---- Who has been counted by when ----

  ghost function Reaching(cfg: SimConfig, stakes: Stakes, id: BlockId): set<Addr> {
    set v | v in stakes && Arrival(cfg, id, v).Some?
  }

  ghost function Lost(cfg: SimConfig, stakes: Stakes, id: BlockId): set<Addr> {
    set v | v in stakes && Arrival(cfg, id, v).None?
  }

  ghost function Arrived(cfg: SimConfig, stakes: Stakes, id: BlockId, t: nat): set<Addr> {
    set v | v in stakes && Arrival(cfg, id, v).Some? && Arrival(cfg, id, v).value <= t
  }

  ghost function ArrivedStake(cfg: SimConfig, stakes: Stakes, id: BlockId, t: nat): nat {
    Sum(Arrived(cfg, stakes, id, t), W(stakes))
  }

  /** u is the first slot by which the block has its quorum. */
  ghost predicate FirstQuorum(cfg: SimConfig, stakes: Stakes, quorum: nat, id: BlockId, u: nat) {
    && id.slot <= u
    && ArrivedStake(cfg, stakes, id, u) >= quorum
    && forall x | id.slot <= x < u :: ArrivedStake(cfg, stakes, id, x) < quorum
  }

  /** A slot yields a block unless it is withheld or its proposer is not an active validator. */
  predicate Produces(cfg: SimConfig, stakes: Stakes, slot: nat) {
    slot !in cfg.withheld && cfg.schedule(slot).Some? && cfg.schedule(slot).value in stakes
  }

  // ---- The quorum ----

  /** The threshold in ten-thousandths, truncated; 6667 where that is not positive. */
  function Scaled(threshold: real): nat {
    var scaled := (threshold * 10000.0).Floor;
    if scaled <= 0 then 6667 else scaled
  }

  function Quorum(total: nat, threshold: real): nat {
    total * Scaled(threshold) / 10000
  }

  /** The threshold in force: two thirds unless a positive one is configured. */
  function Effective(threshold: real): real {
    if threshold <= 0.0 then 2.0 / 3.0 else threshold
  }

  /** A threshold of at most one asks for at most all the stake. */
  lemma QuorumWithinTotal(total: nat, threshold: real)
    requires threshold <= 1.0
    ensures Quorum(total, threshold) <= total
  {
    assert (threshold * 10000.0).Floor <= 10000;
    assert total * Scaled(threshold) <= total * 10000;
  }
}
