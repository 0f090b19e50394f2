/** What a simulation's report says in terms of the configuration's own fields. */
module SimulationMeaning {
  import opened Base
  import opened StakeSums
  import opened SimulationSpec
  import opened Simulation
  import opened SimulationRun

  // ---- Windows, sides, delays and stakes, by position in their lists ----

  /** i is the first window of the list that spans the slot. */
  ghost predicate FirstSpanning(ws: seq<PartitionWindow>, slot: nat, i: nat) {
    && i < |ws| && ws[i].startSlot <= slot <= ws[i].endSlot
    && forall j | 0 <= j < i :: slot < ws[j].startSlot || ws[j].endSlot < slot
  }

  ghost predicate NoneSpans(ws: seq<PartitionWindow>, slot: nat) {
    forall j | 0 <= j < |ws| :: slot < ws[j].startSlot || ws[j].endSlot < slot
  }

  lemma {:induction false} WindowIs(ws: seq<PartitionWindow>, slot: nat)
    ensures forall i: nat | FirstSpanning(ws, slot, i) :: WindowFor(ws, slot) == Some(ws[i])
    ensures WindowFor(ws, slot).None? <==> NoneSpans(ws, slot)
    decreases |ws|
  {
    if ws != [] {
      var rest := ws[1..];
      WindowIs(rest, slot);
      assert forall j | 0 < j < |ws| :: ws[j] == rest[j - 1];
      if !Covers(ws[0], slot) {
        forall i: nat | FirstSpanning(ws, slot, i) ensures WindowFor(ws, slot) == Some(ws[i]) {
          assert i > 0 && FirstSpanning(rest, slot, i - 1);
        }
        if NoneSpans(rest, slot) {
          forall j | 0 <= j < |ws| ensures slot < ws[j].startSlot || ws[j].endSlot < slot {
            if j > 0 { assert ws[j] == rest[j - 1]; }
          }
        }
        if NoneSpans(ws, slot) {
          forall j | 0 <= j < |rest| ensures slot < rest[j].startSlot || rest[j].endSlot < slot {
            assert rest[j] == ws[j + 1];
          }
        }
      }
    }
  }

  /** g is the side of the partition a is on: the last group to list it, group zero if none does. */
  ghost predicate IsSide(groups: seq<seq<Addr>>, a: Addr, g: nat) {
    if exists k :: 0 <= k < |groups| && a in groups[k]
    then g < |groups| && a in groups[g] && forall k | g < k < |groups| :: a !in groups[k]
    else g == 0
  }

  lemma {:induction false} SideIs(groups: seq<seq<Addr>>, a: Addr, g: nat)
    ensures IsSide(groups, a, g) <==> g == GroupOf(groups, a)
    decreases |groups|
  {
    if groups != [] {
      var last := |groups| - 1;
      var rest := groups[..last];
      assert forall k | 0 <= k < last :: rest[k] == groups[k];
      if a in groups[last] {
        assert IsSide(groups, a, g) <==> g == last;
      } else {
        SideIs(rest, a, g);
        assert (exists k :: 0 <= k < |groups| && a in groups[k]) <==> exists k :: 0 <= k < |rest| && a in rest[k];
      }
    }
  }

  ghost predicate Slows(w: DelayWindow, v: Addr, slot: nat) {
    w.validator == v && w.startSlot <= slot <= w.endSlot
  }

  /** The delay of the first window that slows v down in the slot, zero if none does. */
  ghost predicate IsDelay(ws: seq<DelayWindow>, v: Addr, slot: nat, d: nat) {
    || (d == 0 && forall j | 0 <= j < |ws| :: !Slows(ws[j], v, slot))
    || (exists i :: 0 <= i < |ws| && Slows(ws[i], v, slot) && d == ws[i].delaySlots
                    && forall j | 0 <= j < i :: !Slows(ws[j], v, slot))
  }

  lemma {:induction false} DelayIs(ws: seq<DelayWindow>, v: Addr, slot: nat, d: nat)
    ensures IsDelay(ws, v, slot, d) <==> d == DelayFor(ws, v, slot)
    decreases |ws|
  {
    if ws != [] {
      var rest := ws[1..];
      assert forall j | 0 <= j < |rest| :: rest[j] == ws[j + 1];
      if Slows(ws[0], v, slot) {
        assert IsDelay(ws, v, slot, ws[0].delaySlots);
      } else {
        DelayIs(rest, v, slot, d);
        SameDelay(ws, rest, v, slot, d);
      }
    }
  }

  lemma SameDelay(ws: seq<DelayWindow>, rest: seq<DelayWindow>, v: Addr, slot: nat, d: nat)
    requires ws != [] && !Slows(ws[0], v, slot) && |rest| == |ws| - 1
    requires forall j | 0 <= j < |rest| :: rest[j] == ws[j + 1]
    ensures IsDelay(ws, v, slot, d) <==> IsDelay(rest, v, slot, d)
  {
    assert forall j | 1 <= j < |ws| :: ws[j] == rest[j - 1];
    if i :| 0 <= i < |ws| && Slows(ws[i], v, slot) && d == ws[i].delaySlots
            && forall j | 0 <= j < i :: !Slows(ws[j], v, slot) {
      assert rest[i - 1] == ws[i];
    }
    if i :| 0 <= i < |rest| && Slows(rest[i], v, slot) && d == rest[i].delaySlots
            && forall j | 0 <= j < i :: !Slows(rest[j], v, slot) {
      assert ws[i + 1] == rest[i];
    }
  }

  /** An address has stake exactly if it is listed as active. */
  ghost predicate IsActive(vs: seq<SimValidator>, a: Addr) {
    exists i :: 0 <= i < |vs| && vs[i].active && vs[i].address == a
  }

  /** And it has the stake of its last such listing. */
  lemma {:induction false} StakesAre(vs: seq<SimValidator>, a: Addr)
    ensures a in StakesOf(vs) <==> IsActive(vs, a)
    ensures forall i | 0 <= i < |vs| && vs[i].active && vs[i].address == a
                       && (forall j | i < j < |vs| :: !(vs[j].active && vs[j].address == a)) ::
              StakesOf(vs)[a] == vs[i].stake
    decreases |vs|
  {
    if vs != [] {
      var last := |vs| - 1;
      var rest := vs[..last];
      StakesAre(rest, a);
      assert forall j | 0 <= j < last :: rest[j] == vs[j];
      if vs[last].active && vs[last].address == a {
        assert IsActive(vs, a);
      } else {
        assert IsActive(vs, a) <==> IsActive(rest, a);
      }
    }
  }

  /** Every active listing adds its stake to the total, repeated addresses included. */
  lemma {:induction false} TotalAdds(a: seq<SimValidator>, b: seq<SimValidator>, v: SimValidator)
    ensures TotalOf(a + b) == TotalOf(a) + TotalOf(b) && TotalOf([v]) == if v.active then v.stake else 0
    decreases |b|
  {
    assert [v][..0] == [];
    if b == [] {
      assert a + b == a;
    } else {
      TotalAdds(a, b[..|b| - 1], v);
      assert (a + b)[..|a + b| - 1] == a + b[..|b| - 1];
    }
  }

  lemma {:induction false} TotalIsPositiveIff(vs: seq<SimValidator>)
    ensures TotalOf(vs) > 0 <==> exists i :: 0 <= i < |vs| && vs[i].active && vs[i].stake > 0
    ensures TotalOf(vs) > 0 ==> StakesOf(vs) != map[]
    decreases |vs|
  {
    if vs != [] {
      var rest, last := vs[..|vs| - 1], |vs| - 1;
      TotalIsPositiveIff(rest);
      assert forall i | 0 <= i < last :: rest[i] == vs[i];
      if TotalOf(rest) > 0 {
        var i :| 0 <= i < |rest| && rest[i].active && rest[i].stake > 0;
        assert vs[i] == rest[i];
      }
      if vs[last].active { assert vs[last].address in StakesOf(vs); }
    }
  }

  /** The simulation runs if and only if there is a slot, an active validator with stake, and a schedule throughout. */
  lemma RunsIff(cfg: SimConfig)
    ensures Runnable(cfg) <==>
            && cfg.slots > 0 && (forall s | 1 <= s <= cfg.slots :: cfg.schedule(s).Some?)
            && exists i :: 0 <= i < |cfg.validators| && cfg.validators[i].active && cfg.validators[i].stake > 0
  {
    TotalIsPositiveIff(cfg.validators);
  }

  // ---- When an attestation is counted ----

  /** On which side of what: the circumstances of v's attestation of a block. */
  datatype Case = Case(window: Option<PartitionWindow>, side: nat, proposerSide: nat, delay: nat)

  ghost predicate IsCase(cfg: SimConfig, id: BlockId, v: Addr, c: Case) {
    && (match c.window
        case None => NoneSpans(cfg.partitions, id.slot)
        case Some(w) =>
          && (exists i: nat :: FirstSpanning(cfg.partitions, id.slot, i) && cfg.partitions[i] == w)
          && IsSide(w.groups, v, c.side) && IsSide(w.groups, id.proposer, c.proposerSide))
    && IsDelay(cfg.delays, v, id.slot, c.delay)
  }

  predicate Apart(c: Case) {
    c.window.Some? && c.side != c.proposerSide
  }

  /** Every attestation of every block has its circumstances. */
  lemma CaseOf(cfg: SimConfig, id: BlockId, v: Addr) returns (c: Case)
    ensures IsCase(cfg, id, v, c)
  {
    var w := WindowFor(cfg.partitions, id.slot);
    DelayIs(cfg.delays, v, id.slot, DelayFor(cfg.delays, v, id.slot));
    WindowIs(cfg.partitions, id.slot);
    c := Case(w, 0, 0, DelayFor(cfg.delays, v, id.slot));
    if w.Some? {
      c := c.(side := GroupOf(w.value.groups, v), proposerSide := GroupOf(w.value.groups, id.proposer));
      SideIs(w.value.groups, v, c.side);
      SideIs(w.value.groups, id.proposer, c.proposerSide);
      var i := SpanningAt(cfg.partitions, id.slot);
    }
  }

  lemma {:induction false} SpanningAt(ws: seq<PartitionWindow>, slot: nat) returns (i: nat)
    requires WindowFor(ws, slot).Some?
    ensures FirstSpanning(ws, slot, i)
    decreases |ws|
  {
    if Covers(ws[0], slot) {
      i := 0;
    } else {
      i := SpanningAt(ws[1..], slot);
      assert forall j | 1 <= j <= i + 1 :: ws[j] == ws[1..][j - 1];
      i := i + 1;
    }
  }

  lemma CaseIs(cfg: SimConfig, id: BlockId, v: Addr, c: Case)
    requires IsCase(cfg, id, v, c)
    ensures WindowFor(cfg.partitions, id.slot) == c.window && DelayFor(cfg.delays, v, id.slot) == c.delay
    ensures CutOff(cfg, id, v) <==> Apart(c)
  {
    WindowIs(cfg.partitions, id.slot);
    DelayIs(cfg.delays, v, id.slot, c.delay);
    if c.window.Some? {
      SideIs(c.window.value.groups, v, c.side);
      SideIs(c.window.value.groups, id.proposer, c.proposerSide);
    }
  }

  /** The slot numbers are 64-bit ones, and no sum of them wraps around. */
  predicate NoWrap(id: BlockId, c: Case) {
    id.slot + c.delay < TWO_64 && (Apart(c) && c.window.value.replay ==> c.window.value.endSlot + 1 < TWO_64)
  }

  /** When the attestation is meant to be counted. */
  function MeantArrival(id: BlockId, c: Case): Option<nat> {
    if !Apart(c) then Some(id.slot + c.delay)
    else if !c.window.value.replay then None
    else if id.slot + c.delay > c.window.value.endSlot then Some(id.slot + c.delay)
    else Some(c.window.value.endSlot + 1)
  }

  /**
   * An attestation is counted after its delay, and one from the other side of a partition not before the partition
   * is over, or never if nothing is replayed: exactly as long as no sum wraps around, where there is a sum.
   */
  lemma ArrivesAsMeantIff(cfg: SimConfig, id: BlockId, v: Addr, c: Case)
    requires IsCase(cfg, id, v, c) && id.slot + 1 < TWO_64 && c.delay < TWO_64
    requires c.window.Some? ==> c.window.value.endSlot < TWO_64
    ensures Arrival(cfg, id, v) == MeantArrival(id, c) <==> NoWrap(id, c) || MeantArrival(id, c).None?
  {
    CaseIs(cfg, id, v, c);
  }

  /** Who has been counted by slot t: nobody from the other side while the partition lasts. */
  lemma CountedBy(cfg: SimConfig, id: BlockId, v: Addr, c: Case, stakes: Stakes, t: nat)
    requires IsCase(cfg, id, v, c) && NoWrap(id, c) && v in stakes
    ensures v in Arrived(cfg, stakes, id, t) <==>
            id.slot + c.delay <= t && (Apart(c) ==> c.window.value.replay && c.window.value.endSlot < t)
  {
    CaseIs(cfg, id, v, c);
  }

  /** A block is visible to everyone with stake on the proposer's side. */
  lemma VisibleIs(cfg: SimConfig, id: BlockId, v: Addr, c: Case, stakes: Stakes)
    requires IsCase(cfg, id, v, c)
    ensures v in VisibleTo(cfg, stakes, id) <==> v in stakes && !Apart(c)
  {
    CaseIs(cfg, id, v, c);
  }

  // ---- The quorum ----

  lemma Unscale(share: real, scaled: real, q: real, total: real)
    requires scaled <= 10000.0 * share <= scaled + total && 10000.0 * q <= scaled <= 10000.0 * q + 10000.0
    ensures q <= share <= q + 1.0 + total / 10000.0
  {
  }

  lemma Part(total: real, x: real)
    requires total >= 0.0 && 0.0 <= x <= 1.0
    ensures 0.0 <= total * x <= total
  {
    assert total * (1.0 - x) >= 0.0;
  }

  lemma Expand(total: real, threshold: real, k: real, slack: real)
    requires threshold * 10000.0 == k + slack
    ensures 10000.0 * (threshold * total) == total * k + total * slack
  {
    assert 10000.0 * (threshold * total) == total * (threshold * 10000.0);
  }

  /** From a floor of the scaled threshold and a floor of the scaled stake to the share itself. */
  lemma ShareIs(total: real, threshold: real, k: real, q: real)
    requires total >= 0.0 && k <= threshold * 10000.0 <= k + 1.0
    requires 10000.0 * q <= total * k <= 10000.0 * q + 10000.0
    ensures q <= threshold * total <= q + 1.0 + total / 10000.0
  {
    var slack := threshold * 10000.0 - k;
    Part(total, slack);
    Expand(total, threshold, k, slack);
    Unscale(threshold * total, total * k, q, total);
  }

  lemma FloorOfShare(total: nat, k: nat, q: nat)
    requires q == total * k / 10000
    ensures 10000 * q <= total * k < 10000 * q + 10000
    ensures 10000.0 * q as real <= total as real * k as real <= 10000.0 * q as real + 10000.0
  {
    assert (total * k) as real == total as real * k as real;
  }

  /**
   * The quorum is the threshold's share of the stake, short of it by no more than a ten-thousandth and the rounding;
   * without a threshold it is 6666 ten-thousandths, and 6667 for a threshold below one ten-thousandth.
   */
  lemma QuorumIs(total: nat, threshold: real, q: nat)
    requires q == Quorum(total, Effective(threshold))
    ensures threshold <= 0.0 ==> 10000 * q <= total * 6666 < 10000 * q + 10000
    ensures 0.0 < threshold < 0.0001 ==> 10000 * q <= total * 6667 < 10000 * q + 10000
    ensures threshold >= 0.0001 ==> q as real <= threshold * total as real <= q as real + 1.0 + total as real / 10000.0
  {
    var k := Scaled(Effective(threshold));
    FloorOfShare(total, k, q);
    if threshold <= 0.0 {
      assert (2.0 / 3.0 * 10000.0).Floor == 6666;
    } else if threshold >= 0.0001 {
      assert k == (threshold * 10000.0).Floor;
      ShareIs(total as real, threshold, k as real, q as real);
    }
  }

  // ---- The report ----

  /** A slot is reported as partitioned, withheld or producing exactly when the configuration makes it so. */
  lemma SlotIs(cfg: SimConfig, r: SimResult, s: nat)
    requires Reports(cfg, r) && 1 <= s <= cfg.slots
    ensures var x := r.slotResults[s - 1];
            && x.slot == s && (x.withheld <==> s in cfg.withheld)
            && (x.partitioned <==> !NoneSpans(cfg.partitions, s))
            && (x.produced <==> s !in cfg.withheld && cfg.schedule(s).Some?
                                && IsActive(cfg.validators, cfg.schedule(s).value))
            && (x.produced ==> x.block == Some(BlockId(s, cfg.schedule(s).value)))
            && (x.produced ==> var id, stakes := BlockId(s, cfg.schedule(s).value), StakesOf(cfg.validators);
                  && x.visibleStake == Sum(VisibleTo(cfg, stakes, id), W(stakes))
                  && x.attestedStake == Sum(Arrived(cfg, stakes, id, s), W(stakes)))
            && (!x.produced ==> x.block.None? && x.finalizedAt == 0)
  {
    assert SlotOk(cfg, StakesOf(cfg.validators), r.slotResults[s - 1], s);
    WindowIs(cfg.partitions, s);
    if cfg.schedule(s).Some? { StakesAre(cfg.validators, cfg.schedule(s).value); }
  }

  /**
   * A produced block is reported final in the first slot by which the validators counted for it, each at its own
   * time, hold the quorum, and as not final if there is none before the run ends.
   */
  lemma FinalizedAtIs(cfg: SimConfig, r: SimResult, s: nat, u: nat)
    requires Reports(cfg, r) && 1 <= s <= cfg.slots && r.slotResults[s - 1].produced && s <= u <= cfg.slots
    ensures var id, stakes := BlockId(s, cfg.schedule(s).value), StakesOf(cfg.validators);
            var q := Quorum(TotalOf(cfg.validators), Effective(cfg.threshold));
            r.slotResults[s - 1].finalizedAt == u <==>
              && Sum(Arrived(cfg, stakes, id, u), W(stakes)) >= q
              && forall t | s <= t < u :: Sum(Arrived(cfg, stakes, id, t), W(stakes)) < q
  {
    var id, stakes := BlockId(s, cfg.schedule(s).value), StakesOf(cfg.validators);
    assert SlotOk(cfg, stakes, r.slotResults[s - 1], s);
    assert FinalMark(cfg, stakes, QuorumOf(cfg), r.slotResults[s - 1], cfg.slots);
    var at := r.slotResults[s - 1].finalizedAt;
    MoreArrive(cfg, stakes, id, u, cfg.slots);
    assert ArrivedStake(cfg, stakes, id, u) == Sum(Arrived(cfg, stakes, id, u), W(stakes));
    forall t | s <= t < u && at == u ensures Sum(Arrived(cfg, stakes, id, t), W(stakes)) < QuorumOf(cfg) {
      assert ArrivedStake(cfg, stakes, id, t) < QuorumOf(cfg);
    }
    if at != u && ArrivedStake(cfg, stakes, id, u) >= QuorumOf(cfg) {
      assert s <= at < u;
      assert Sum(Arrived(cfg, stakes, id, at), W(stakes)) >= QuorumOf(cfg);
    }
  }

  lemma MoreArrive(cfg: SimConfig, stakes: Stakes, id: BlockId, t: nat, u: nat)
    requires t <= u
    ensures ArrivedStake(cfg, stakes, id, t) <= ArrivedStake(cfg, stakes, id, u)
  {
    SumSubset(Arrived(cfg, stakes, id, t), Arrived(cfg, stakes, id, u), W(stakes));
  }

  /** How many of the slots produced a block. */
  function ProducedIn(results: seq<SlotResult>): nat {
    if results == [] then 0 else
      ProducedIn(results[..|results| - 1]) + if results[|results| - 1].produced then 1 else 0
  }

  /** How many of the slots are marked with a slot of finality. */
  function FinalIn(results: seq<SlotResult>): nat {
    if results == [] then 0 else
      FinalIn(results[..|results| - 1]) + if results[|results| - 1].finalizedAt > 0 then 1 else 0
  }

  lemma MarksAre(cfg: SimConfig, r: SimResult, s: nat)
    requires Reports(cfg, r) && 1 <= s <= cfg.slots
    ensures r.slotResults[s - 1].produced <==> Produces(cfg, StakesOf(cfg.validators), s)
    ensures r.slotResults[s - 1].finalizedAt > 0 <==>
            r.slotResults[s - 1].produced
            && ArrivedStake(cfg, StakesOf(cfg.validators), IdOf(cfg, s), cfg.slots) >= QuorumOf(cfg)
  {
    assert SlotOk(cfg, StakesOf(cfg.validators), r.slotResults[s - 1], s);
    assert FinalMark(cfg, StakesOf(cfg.validators), QuorumOf(cfg), r.slotResults[s - 1], cfg.slots);
  }

  /** The blocks of the first slots that meet a condition. */
  ghost function Meeting(cfg: SimConfig, stakes: Stakes, t: nat, meets: BlockId -> bool): set<BlockId> {
    set id | id in ProducedIds(cfg, stakes, t) && meets(id)
  }

  lemma MeetingGrows(cfg: SimConfig, stakes: Stakes, t: nat, meets: BlockId -> bool)
    requires t > 0
    ensures |Meeting(cfg, stakes, t, meets)| == |Meeting(cfg, stakes, t - 1, meets)| +
              if Produces(cfg, stakes, t) && meets(IdOf(cfg, t)) then 1 else 0
  {
    ProducedSoFar(cfg, stakes, t);
    if Produces(cfg, stakes, t) && meets(IdOf(cfg, t)) {
      assert Meeting(cfg, stakes, t, meets) == Meeting(cfg, stakes, t - 1, meets) + {IdOf(cfg, t)};
    } else {
      assert Meeting(cfg, stakes, t, meets) == Meeting(cfg, stakes, t - 1, meets);
    }
  }

  lemma {:induction false} CountsUpTo(cfg: SimConfig, r: SimResult, t: nat, all: BlockId -> bool,
                                      final: BlockId -> bool)
    requires Reports(cfg, r) && t <= cfg.slots && (forall id :: all(id))
    requires forall id :: final(id) <==>
                          ArrivedStake(cfg, StakesOf(cfg.validators), id, cfg.slots) >= QuorumOf(cfg)
    ensures |Meeting(cfg, StakesOf(cfg.validators), t, all)| == ProducedIn(r.slotResults[..t])
    ensures |Meeting(cfg, StakesOf(cfg.validators), t, final)| == FinalIn(r.slotResults[..t])
    decreases t
  {
    var stakes := StakesOf(cfg.validators);
    if t == 0 {
      assert Meeting(cfg, stakes, t, all) == {} && Meeting(cfg, stakes, t, final) == {};
    } else {
      CountsUpTo(cfg, r, t - 1, all, final);
      MeetingGrows(cfg, stakes, t, all);
      MeetingGrows(cfg, stakes, t, final);
      MarksAre(cfg, r, t);
      assert r.slotResults[..t][..t - 1] == r.slotResults[..t - 1];
    }
  }

  /** The counts are those of the slots marked as producing, not producing, final and not final. */
  lemma CountsAre(cfg: SimConfig, r: SimResult)
    requires Reports(cfg, r)
    ensures r.produced == ProducedIn(r.slotResults) && r.missed == cfg.slots - r.produced
    ensures r.finalized == FinalIn(r.slotResults) && r.unfinalized == r.produced - r.finalized
  {
    var stakes, q := StakesOf(cfg.validators), QuorumOf(cfg);
    var all := (id: BlockId) => true;
    var final := (id: BlockId) => ArrivedStake(cfg, stakes, id, cfg.slots) >= q;
    CountsUpTo(cfg, r, cfg.slots, all, final);
    assert r.slotResults[..cfg.slots] == r.slotResults;
    assert Meeting(cfg, stakes, cfg.slots, all) == ProducedIds(cfg, stakes, cfg.slots);
    assert Meeting(cfg, stakes, cfg.slots, final) ==
           set id | id in ProducedIds(cfg, stakes, cfg.slots) && ArrivedStake(cfg, stakes, id, cfg.slots) >= q;
  }
}
