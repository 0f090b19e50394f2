/** The decayed stake behind a list of blocks, each validator counted once. */
module ChainStake {
  import opened Base
  import opened StakeSums
  import opened Decay
  import opened ForkChoiceSpec

  ghost predicate Attests(t: Tracked, h: Hash, v: Addr) {
    exists att :: att in StoredFor(t, h) && att.validator == v
  }

  /** v is active and has a stored attestation for some block of the list. */
  ghost predicate Backs(t: Tracked, table: Table, hashes: seq<Hash>, v: Addr) {
    v in Active(table) && exists i :: 0 <= i < |hashes| && Attests(t, hashes[i], v)
  }

  /** The epoch of the first listed block that v attests to; an untracked block counts as epoch zero. */
  ghost function FirstEpoch(t: Tracked, hashes: seq<Hash>, v: Addr): nat {
    if hashes == [] then 0
    else if Attests(t, hashes[0], v) then BlockEpoch(t, hashes[0])
    else FirstEpoch(t, hashes[1..], v)
  }

  function BlockEpoch(t: Tracked, h: Hash): nat {
    if h in t.blockEpochMap then t.blockEpochMap[h] else 0
  }

  ghost function Backers(t: Tracked, table: Table, hashes: seq<Hash>): set<Addr> {
    set v | v in Active(table) && Backs(t, table, hashes, v)
  }

  ghost function BackerWeight(t: Tracked, table: Table, hashes: seq<Hash>, currentEpoch: nat): Addr -> nat {
    v => if v in table then Decayed(table[v].stake, FirstEpoch(t, hashes, v), currentEpoch) else 0
  }

  /** Each backer counts once, with the age of its first listed block. */
  ghost function StakeBehind(t: Tracked, table: Table, hashes: seq<Hash>, currentEpoch: nat): nat {
    Sum(Backers(t, table, hashes), BackerWeight(t, table, hashes, currentEpoch))
  }

  /** The stake behind a chain never exceeds the total active stake. */
  lemma StakeBehindIsBounded(t: Tracked, table: Table, hashes: seq<Hash>, currentEpoch: nat)
    ensures StakeBehind(t, table, hashes, currentEpoch) <= TotalStake(table)
  {
    var backers := Backers(t, table, hashes);
    var w := BackerWeight(t, table, hashes, currentEpoch);
    forall v | v in backers ensures w(v) <= Stake(table)(v) {
      DecayNeverGrows(table[v].stake, FirstEpoch(t, hashes, v), currentEpoch, currentEpoch);
    }
    SumPointwiseLe(backers, w, Stake(table));
    SumSubset(backers, Active(table), Stake(table));
  }

  lemma {:induction false} FirstEpochIs(t: Tracked, hashes: seq<Hash>, v: Addr, i: nat)
    requires i < |hashes| && Attests(t, hashes[i], v)
    requires forall j | 0 <= j < i :: !Attests(t, hashes[j], v)
    ensures FirstEpoch(t, hashes, v) == BlockEpoch(t, hashes[i])
    decreases |hashes|
  {
    if i > 0 {
      assert forall j | 0 <= j < i - 1 :: hashes[1..][j] == hashes[j + 1];
      FirstEpochIs(t, hashes[1..], v, i - 1);
    }
  }

  /**
   * An active validator with a stored attestation for a listed block counts, and only such a one does: once, decayed
   * from the epoch its first such block is tracked in, or from epoch zero if it is not tracked.
   */
  lemma BackerIs(t: Tracked, table: Table, hashes: seq<Hash>, currentEpoch: nat, v: Addr, i: nat)
    requires i < |hashes| && hashes[i] in t.attestationsByBlock
    requires exists k :: 0 <= k < |t.attestationsByBlock[hashes[i]]|
                         && t.attestationsByBlock[hashes[i]][k].validator == v
    requires forall j, k | 0 <= j < i && hashes[j] in t.attestationsByBlock
                           && 0 <= k < |t.attestationsByBlock[hashes[j]]| ::
               t.attestationsByBlock[hashes[j]][k].validator != v
    ensures v in Backers(t, table, hashes) <==> v in table && table[v].active
    ensures v in table ==>
              BackerWeight(t, table, hashes, currentEpoch)(v) ==
              Decayed(table[v].stake, if hashes[i] in t.blockEpochMap then t.blockEpochMap[hashes[i]] else 0,
                      currentEpoch)
  {
    var k :| 0 <= k < |t.attestationsByBlock[hashes[i]]| && t.attestationsByBlock[hashes[i]][k].validator == v;
    assert t.attestationsByBlock[hashes[i]][k] in StoredFor(t, hashes[i]);
    assert Attests(t, hashes[i], v);
    forall j | 0 <= j < i ensures !Attests(t, hashes[j], v) {
    }
    FirstEpochIs(t, hashes, v, i);
  }

  lemma OthersDoNotBack(t: Tracked, table: Table, hashes: seq<Hash>, v: Addr)
    requires forall j, k | 0 <= j < |hashes| && hashes[j] in t.attestationsByBlock
                           && 0 <= k < |t.attestationsByBlock[hashes[j]]| ::
               t.attestationsByBlock[hashes[j]][k].validator != v
    ensures v !in Backers(t, table, hashes)
  {
    forall j | 0 <= j < |hashes| ensures !Attests(t, hashes[j], v) {
    }
  }

  /** The seen set after the blocks before i and the first j attestations of block i. */
  ghost predicate SeenIs(t: Tracked, table: Table, hashes: seq<Hash>, i: nat, j: nat, seen: set<Addr>)
    requires i <= |hashes| && j <= (if i < |hashes| then |StoredFor(t, hashes[i])| else 0)
  {
    forall v :: v in seen <==>
      v in Active(table) &&
      (Backs(t, table, hashes[..i], v)
       || (j > 0 && exists k :: 0 <= k < j && StoredFor(t, hashes[i])[k].validator == v))
  }

  /** A validator met for the first time at block i gets that block's epoch. */
  lemma FirstMeeting(t: Tracked, table: Table, hashes: seq<Hash>, i: nat, j: nat, seen: set<Addr>)
    requires i < |hashes| && j < |StoredFor(t, hashes[i])|
    requires SeenIs(t, table, hashes, i, j, seen)
    requires var v := StoredFor(t, hashes[i])[j].validator; v in Active(table) && v !in seen
    ensures FirstEpoch(t, hashes, StoredFor(t, hashes[i])[j].validator) == BlockEpoch(t, hashes[i])
  {
    var v := StoredFor(t, hashes[i])[j].validator;
    assert StoredFor(t, hashes[i])[j] in StoredFor(t, hashes[i]);
    assert Attests(t, hashes[i], v);
    assert !Backs(t, table, hashes[..i], v);
    forall k | 0 <= k < i ensures !Attests(t, hashes[k], v) {
      assert hashes[..i][k] == hashes[k];
    }
    FirstEpochIs(t, hashes, v, i);
  }

  /** Finishing a block turns its attestations into backers of the longer prefix. */
  lemma SeenAfterBlock(t: Tracked, table: Table, hashes: seq<Hash>, i: nat, seen: set<Addr>)
    requires i < |hashes| && SeenIs(t, table, hashes, i, |StoredFor(t, hashes[i])|, seen)
    ensures SeenIs(t, table, hashes, i + 1, 0, seen)
  {
    var stored := StoredFor(t, hashes[i]);
    forall v ensures Attests(t, hashes[i], v) <==> exists k :: 0 <= k < |stored| && stored[k].validator == v {
      if Attests(t, hashes[i], v) {
        var att :| att in stored && att.validator == v;
        var k :| 0 <= k < |stored| && stored[k] == att;
      }
    }
    var p, q := hashes[..i], hashes[..i + 1];
    forall v
      ensures Backs(t, table, q, v) <==> v in Active(table) && (Backs(t, table, p, v) || Attests(t, hashes[i], v))
    {
      if v in Active(table) {
        if Backs(t, table, p, v) {
          var k :| 0 <= k < |p| && Attests(t, p[k], v);
          assert q[k] == p[k];
        }
        if Attests(t, hashes[i], v) { assert q[i] == hashes[i]; }
        if Backs(t, table, q, v) {
          var k :| 0 <= k < |q| && Attests(t, q[k], v);
          if k < i { assert p[k] == q[k]; }
        }
      }
    }
  }

  lemma SeenAfterAttestation(t: Tracked, table: Table, hashes: seq<Hash>, i: nat, j: nat, seen: set<Addr>,
                             after: set<Addr>)
    requires i < |hashes| && j < |StoredFor(t, hashes[i])|
    requires SeenIs(t, table, hashes, i, j, seen)
    requires var v := StoredFor(t, hashes[i])[j].validator;
             after == if v in Active(table) then seen + {v} else seen
    ensures SeenIs(t, table, hashes, i, j + 1, after)
  {
  }

  /** The inner loop: the attestations stored for block i. */
  method CountBlock(t: Tracked, table: Table, currentEpoch: nat, hashes: seq<Hash>, i: nat, seenBefore: set<Addr>,
                    totalBefore: nat)
      returns (seen: set<Addr>, total: nat)
    requires i < |hashes| && SeenIs(t, table, hashes, i, 0, seenBefore)
    requires totalBefore == Sum(seenBefore, BackerWeight(t, table, hashes, currentEpoch))
    ensures SeenIs(t, table, hashes, i, |StoredFor(t, hashes[i])|, seen)
    ensures total == Sum(seen, BackerWeight(t, table, hashes, currentEpoch))
  {
    seen, total := seenBefore, totalBefore;
    ghost var w := BackerWeight(t, table, hashes, currentEpoch);
    var stored := StoredFor(t, hashes[i]);
    var epoch := BlockEpoch(t, hashes[i]);
    for j := 0 to |stored|
      invariant SeenIs(t, table, hashes, i, j, seen)
      invariant total == Sum(seen, w)
    {
      var v := stored[j].validator;
      ghost var after := if v in Active(table) then seen + {v} else seen;
      SeenAfterAttestation(t, table, hashes, i, j, seen, after);
      if v !in seen && v in table && table[v].active {
        FirstMeeting(t, table, hashes, i, j, seen);
        var weight := ApplyWeightDecay(table[v].stake, epoch, currentEpoch);
        SumAdd(seen, w, v);
        total := total + weight;
        seen := seen + {v};
      }
      assert seen == after;
    }
  }

  method CalculateChainStake(t: Tracked, table: Table, currentEpoch: nat, hashes: seq<Hash>) returns (total: nat)
    ensures total == StakeBehind(t, table, hashes, currentEpoch)
  {
    total := 0;
    var seen: set<Addr> := {};
    for i := 0 to |hashes|
      invariant SeenIs(t, table, hashes, i, 0, seen)
      invariant total == Sum(seen, BackerWeight(t, table, hashes, currentEpoch))
    {
      seen, total := CountBlock(t, table, currentEpoch, hashes, i, seen, total);
      SeenAfterBlock(t, table, hashes, i, seen);
    }
    assert hashes[..|hashes|] == hashes;
    assert seen == Backers(t, table, hashes);
  }
}
