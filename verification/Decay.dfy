/** Exponential decay of attestation weight in integer arithmetic. */
module Decay {
  import opened Base

  const MAX_DECAY_EPOCHS: nat := 32

  /** k rounds of taking nine tenths, rounded down. */
  function Rounds(stake: nat, k: nat): nat
    decreases k
  {
    if k == 0 then stake else Rounds(stake, k - 1) * 9 / 10
  }

  function Age(attestationEpoch: nat, currentEpoch: nat): nat {
    if currentEpoch <= attestationEpoch then 0
    else if currentEpoch - attestationEpoch > MAX_DECAY_EPOCHS then MAX_DECAY_EPOCHS
    else currentEpoch - attestationEpoch
  }

  function Decayed(stake: nat, attestationEpoch: nat, currentEpoch: nat): nat {
    Rounds(stake, Age(attestationEpoch, currentEpoch))
  }

  method ApplyWeightDecay(stake: nat, attestationEpoch: nat, currentEpoch: nat) returns (decayed: nat)
    ensures decayed == Decayed(stake, attestationEpoch, currentEpoch)
  {
    if currentEpoch <= attestationEpoch {
      return stake;
    }
    var age := currentEpoch - attestationEpoch;
    decayed := stake;
    if age > MAX_DECAY_EPOCHS {
      age := MAX_DECAY_EPOCHS;
    }
    for i := 0 to age
      invariant decayed == Rounds(stake, i)
    {
      decayed := decayed * 9;
      decayed := decayed / 10;
    }
  }

  lemma {:induction false} PowOrder(k: nat)
    ensures Pow(9, k) <= Pow(10, k)
  {
    if k > 0 { PowOrder(k - 1); }
  }

  lemma PowTimes(base: nat, k: nat, x: nat)
    requires k > 0
    ensures Pow(base, k) * x == base * (Pow(base, k - 1) * x)
  {
    var p := Pow(base, k - 1);
    assert base * p * x == base * (p * x);
  }

  /** Nine times d, split at the tenths that survive the rounding; scaled by p. */
  lemma RoundSplit(d: nat, p: nat)
    ensures 10 * (p * (d * 9 / 10)) <= 9 * (p * d) <= 10 * (p * (d * 9 / 10)) + 9 * p
  {
    var kept := d * 9 / 10;
    var r := 9 * d - 10 * kept;
    assert 0 <= p * r <= p * 9;
    calc {
      9 * (p * d);
      p * (9 * d);
      p * (10 * kept + r);
      p * (10 * kept) + p * r;
      10 * (p * kept) + p * r;
    }
  }

  /** One round loses at most nine tenths of a unit to rounding. */
  lemma OneRound(d: nat, p10: nat, p9: nat, s: nat)
    requires p10 * d <= p9 * s <= p10 * d + 9 * (p10 - p9)
    ensures var kept := d * 9 / 10;
            10 * (p10 * kept) <= 9 * (p9 * s) <= 10 * (p10 * kept) + 9 * (10 * p10 - 9 * p9)
  {
    RoundSplit(d, p10);
  }

  /** How far the rounded decay can drift from stake times nine tenths to the k. */
  lemma {:induction false} DecayBounds(stake: nat, k: nat)
    ensures var d := Rounds(stake, k);
            && Pow(9, k) <= Pow(10, k)
            && Pow(10, k) * d <= Pow(9, k) * stake <= Pow(10, k) * d + 9 * (Pow(10, k) - Pow(9, k))
  {
    PowOrder(k);
    if k > 0 {
      DecayBounds(stake, k - 1);
      var p10, p9 := Pow(10, k - 1), Pow(9, k - 1);
      OneRound(Rounds(stake, k - 1), p10, p9, stake);
      PowTimes(10, k, Rounds(stake, k));
      PowTimes(9, k, stake);
    }
  }

  /**
   * A vote's weight is its stake times nine tenths for every epoch of its age, up to 32 of them, short by less than
   * nine units of rounding; a vote that is not in the past keeps its stake.
   */
  lemma WeightIs(stake: nat, attestationEpoch: nat, currentEpoch: nat, age: nat)
    requires age == if currentEpoch <= attestationEpoch then 0
                    else if currentEpoch - attestationEpoch > 32 then 32 else currentEpoch - attestationEpoch
    ensures var weight := Decayed(stake, attestationEpoch, currentEpoch);
            && Pow(10, age) * weight <= Pow(9, age) * stake <= Pow(10, age) * weight + 9 * (Pow(10, age) - Pow(9, age))
            && (age == 0 ==> weight == stake)
  {
    DecayBounds(stake, age);
  }

  /** More stake never decays to less. */
  lemma {:induction false} DecayIsMonotone(less: nat, more: nat, attestationEpoch: nat, currentEpoch: nat)
    requires less <= more
    ensures Decayed(less, attestationEpoch, currentEpoch) <= Decayed(more, attestationEpoch, currentEpoch)
  {
    RoundsAreMonotone(less, more, Age(attestationEpoch, currentEpoch));
  }

  lemma {:induction false} RoundsAreMonotone(less: nat, more: nat, k: nat)
    requires less <= more
    ensures Rounds(less, k) <= Rounds(more, k)
  {
    if k > 0 { RoundsAreMonotone(less, more, k - 1); }
  }

  lemma {:induction false} RoundsShrink(stake: nat, j: nat, k: nat)
    requires j <= k
    ensures Rounds(stake, k) <= Rounds(stake, j)
    decreases k
  {
    if j < k { RoundsShrink(stake, j, k - 1); }
  }

  /** A vote never gains weight as the chain moves on, and never weighs more than its stake. */
  lemma DecayNeverGrows(stake: nat, attestationEpoch: nat, earlier: nat, later: nat)
    requires earlier <= later
    ensures Decayed(stake, attestationEpoch, later) <= Decayed(stake, attestationEpoch, earlier) <= stake
  {
    RoundsShrink(stake, Age(attestationEpoch, earlier), Age(attestationEpoch, later));
    RoundsShrink(stake, 0, Age(attestationEpoch, earlier));
  }
}
