/** Bounded walks over the block store: ancestor test, path, common ancestor, reorg list. */
module ChainTraversal {
  import opened Base
  import opened BlockTree

  /** Depth bound of the consensus engine's walks. */
  const MAX_DEPTH: nat := 1000

  /** Depth bound of fork choice's own ancestor test. */
  const FORK_CHOICE_DEPTH: nat := 100

  /** x is met within n moves when walking up from h. */
  ghost predicate OnWalk(store: Store, h: Hash, n: nat, x: Hash) {
    exists i: nat :: i <= n && Up(store, h, i) == Some(x)
  }

  /** x is h or any of its ancestors, at whatever depth. */
  ghost predicate OnChain(store: Store, h: Hash, x: Hash) {
    exists i: nat :: Up(store, h, i) == Some(x)
  }

  // ---- The ancestor test ----

  lemma NoFurtherReach(store: Store, b: Hash, a: Hash, i: nat)
    requires Up(store, b, i).Some?
    requires var x := Up(store, b, i).value;
             x !in store || (store[x].prevHash == "" && store[x].prevHash != a)
    ensures forall k: nat | k > i :: !Reaches(store, b, a, k)
  {
    UpStep(store, b, i);
    forall k: nat | k > i ensures !Reaches(store, b, a, k) {
      if k > i + 1 { UpEnded(store, b, i + 1, k - 1); }
    }
  }

  /** The plain walk decides descent up to its depth bound. */
  method ComputeIsDescendant(store: Store, blockHash: Hash, ancestorHash: Hash, maxDepth: nat) returns (r: bool)
    ensures r <==> Descends(store, blockHash, ancestorHash, maxDepth)
  {
    if blockHash == ancestorHash {
      assert Reaches(store, blockHash, ancestorHash, 0);
      return true;
    }
    var current := blockHash;
    for i := 0 to maxDepth
      invariant Up(store, blockHash, i) == Some(current)
      invariant forall k: nat | k <= i :: !Reaches(store, blockHash, ancestorHash, k)
    {
      if current !in store {
        NoFurtherReach(store, blockHash, ancestorHash, i);
        return false;
      }
      if store[current].prevHash == ancestorHash {
        assert Reaches(store, blockHash, ancestorHash, i + 1);
        return true;
      }
      if store[current].prevHash == "" {
        NoFurtherReach(store, blockHash, ancestorHash, i);
        return false;
      }
      UpStep(store, blockHash, i);
      current := store[current].prevHash;
    }
    return false;
  }

  // ---- The ancestry cache ----

  class ChainCache {
    var descendants: map<Hash, map<Hash, bool>>

    /** Every remembered answer is what a fresh walk of this store would say. */
    ghost predicate Sound(store: Store)
      reads this
    {
      forall a, d | a in descendants && d in descendants[a] ::
        descendants[a][d] == Descends(store, d, a, MAX_DEPTH)
    }

    constructor ()
      ensures descendants == map[]
      ensures forall store :: Sound(store)
    {
      descendants := map[];
    }

    method Get(ancestorHash: Hash, descendantHash: Hash) returns (isDescendant: bool, found: bool)
      ensures found <==> ancestorHash in descendants && descendantHash in descendants[ancestorHash]
      ensures found ==> isDescendant == descendants[ancestorHash][descendantHash]
      ensures !found ==> !isDescendant
    {
      if ancestorHash in descendants {
        if descendantHash in descendants[ancestorHash] {
          return descendants[ancestorHash][descendantHash], true;
        }
      }
      return false, false;
    }

    method Set(ancestorHash: Hash, descendantHash: Hash, isDescendant: bool)
      modifies this
      ensures descendants == old(descendants)[ancestorHash :=
                (if ancestorHash in old(descendants) then old(descendants)[ancestorHash] else map[])
                [descendantHash := isDescendant]]
    {
      if ancestorHash !in descendants {
        descendants := descendants[ancestorHash := map[]];
      }
      descendants := descendants[ancestorHash := descendants[ancestorHash][descendantHash := isDescendant]];
    }

    method Clear()
      modifies this
      ensures descendants == map[]
    {
      descendants := map[];
    }

    method ClearAncestor(ancestorHash: Hash)
      modifies this
      ensures descendants == old(descendants) - {ancestorHash}
      ensures forall store | old(Sound(store)) :: Sound(store)
    {
      descendants := descendants - {ancestorHash};
    }
  }

  /** The cached test answers exactly as the plain walk, and keeps the cache sound. */
  method IsDescendant(store: Store, cache: ChainCache, blockHash: Hash, ancestorHash: Hash) returns (r: bool)
    requires cache.Sound(store)
    modifies cache
    ensures cache.Sound(store)
    ensures r <==> Descends(store, blockHash, ancestorHash, MAX_DEPTH)
  {
    if blockHash == ancestorHash {
      assert Reaches(store, blockHash, ancestorHash, 0);
      return true;
    }
    var cached, found := cache.Get(ancestorHash, blockHash);
    if found {
      return cached;
    }
    r := ComputeIsDescendant(store, blockHash, ancestorHash, MAX_DEPTH);
    cache.Set(ancestorHash, blockHash, r);
  }

  /** The walk from b meets a missing block while it still has lookups left. */
  ghost predicate StopsAtMissingBlock(store: Store, b: Hash, limit: nat) {
    exists i: nat :: i < limit && Up(store, b, i).Some? && Up(store, b, i).value !in store
  }

  /** A remembered "yes" survives every later block. */
  lemma PositiveAnswersStayCorrect(earlier: Store, later: Store, b: Hash, a: Hash, limit: nat)
    requires Extends(later, earlier)
    requires Descends(earlier, b, a, limit)
    ensures Descends(later, b, a, limit)
  {
    var k: nat :| k <= limit && Reaches(earlier, b, a, k);
    ReachesMonotone(earlier, later, b, a, k);
  }

  /** There is room for m between a and the stored children of m: a parent's index is below its child's. */
  ghost predicate RoomFor(store: Store, m: Hash, a: Hash, index: int) {
    && (a in store ==> store[a].index < index)
    && forall c | c in store && store[c].prevHash == m :: index < store[c].index
  }

  /** The walk from b stops at a missing block that could still turn out to be a child of a. */
  ghost predicate StopsBelow(store: Store, b: Hash, a: Hash, limit: nat) {
    exists i: nat, index :: i < limit && Up(store, b, i).Some? && Up(store, b, i).value !in store
                            && RoomFor(store, Up(store, b, i).value, a, index)
  }

  /**
   * A remembered "no" is right for every later store exactly when the walk it came from did not stop
   * at a missing block with room for it below the ancestor: that very block can turn the answer around.
   */
  lemma NegativeAnswersStayCorrectIff(store: Store, b: Hash, a: Hash, limit: nat)
    requires WellFormed(store) && !Descends(store, b, a, limit)
    ensures (forall later: Store | Extends(later, store) && WellFormed(later) :: !Descends(later, b, a, limit))
            <==> !StopsBelow(store, b, a, limit)
  {
    if StopsBelow(store, b, a, limit) {
      var i: nat, index :| i < limit && Up(store, b, i).Some? && Up(store, b, i).value !in store
                           && RoomFor(store, Up(store, b, i).value, a, index);
      FillingTurnsAnswer(store, b, a, limit, i, index);
    }
    forall later: Store | Extends(later, store) && WellFormed(later) && Descends(later, b, a, limit)
      ensures StopsBelow(store, b, a, limit)
    {
      TurnedAnswerHadRoom(store, later, b, a, limit);
    }
  }

  lemma FillingTurnsAnswer(store: Store, b: Hash, a: Hash, limit: nat, i: nat, index: int)
    requires WellFormed(store) && !Descends(store, b, a, limit)
    requires i < limit && Up(store, b, i).Some? && Up(store, b, i).value !in store
    requires RoomFor(store, Up(store, b, i).value, a, index)
    ensures var m := Up(store, b, i).value;
            var later := store[m := Block(m, a, index)];
            Extends(later, store) && WellFormed(later) && Descends(later, b, a, limit)
  {
    var m := Up(store, b, i).value;
    var later := store[m := Block(m, a, index)];
    if m == a {
      if i > 0 { UpPrefix(store, b, i); UpStep(store, b, i - 1); }
      assert Reaches(store, b, a, i);
    }
    UpMonotone(store, later, b, i);
    assert Reaches(later, b, a, i + 1);
  }

  lemma TurnedAnswerHadRoom(store: Store, later: Store, b: Hash, a: Hash, limit: nat)
    requires Extends(later, store) && WellFormed(later)
    requires !Descends(store, b, a, limit) && Descends(later, b, a, limit)
    ensures StopsBelow(store, b, a, limit)
  {
    var n: nat :| n <= limit && Reaches(later, b, a, n);
    if !StopsAtMissingBlock(store, b, n) {
      CompleteWalkReflects(store, later, b, a, n, n);
    }
    var i: nat :| i < n && Up(store, b, i).Some? && Up(store, b, i).value !in store;
    var m := Up(store, b, i).value;
    UpMonotone(store, later, b, i);
    IndexAboveFalls(later, b, a, i, n);
    assert RoomFor(store, m, a, later[m].index);
  }

  /** The block a walk passes after i moves is stored and has a larger index than the ancestor it reaches later. */
  lemma IndexAboveFalls(store: Store, b: Hash, a: Hash, i: nat, n: nat)
    requires WellFormed(store) && i < n && Reaches(store, b, a, n) && Up(store, b, i).Some?
    ensures var m := Up(store, b, i).value; m in store && (a in store ==> store[a].index < store[m].index)
  {
    var m := Up(store, b, i).value;
    UpCompose(store, b, i, n - 1 - i);
    if i < n - 1 {
      var x := Up(store, b, n - 1).value;
      assert m in store;
      IndexFalls(store, m, n - 1 - i);
    }
  }

  lemma {:induction false} CompleteUpReflects(store: Store, later: Store, b: Hash, k: nat, limit: nat)
    requires Extends(later, store) && k < limit
    requires !StopsAtMissingBlock(store, b, limit)
    requires Up(later, b, k).Some?
    ensures Up(store, b, k) == Up(later, b, k) && Up(store, b, k).value in store
    decreases k
  {
    if k > 0 {
      UpPrefix(later, b, k);
      CompleteUpReflects(store, later, b, k - 1, limit);
      UpStep(later, b, k - 1);
      UpStep(store, b, k - 1);
    }
    assert Up(store, b, k).Some?;
  }

  lemma CompleteWalkReflects(store: Store, later: Store, b: Hash, a: Hash, k: nat, limit: nat)
    requires Extends(later, store) && k <= limit
    requires !StopsAtMissingBlock(store, b, limit)
    requires Reaches(later, b, a, k)
    ensures Reaches(store, b, a, k)
  {
    if k > 0 { CompleteUpReflects(store, later, b, k - 1, limit); }
  }

  // ---- Paths ----

  /** k is the length of the shortest walk from b to a. */
  ghost predicate FirstReach(store: Store, b: Hash, a: Hash, k: nat) {
    Reaches(store, b, a, k) && forall j: nat | j < k :: !Reaches(store, b, a, j)
  }

  /** Succeeds exactly when the ancestor test does, with the blocks of the shortest walk in order. */
  method GetChainPath(store: Store, blockHash: Hash, ancestorHash: Hash) returns (r: Option<seq<Hash>>)
    ensures r.Some? <==> Descends(store, blockHash, ancestorHash, MAX_DEPTH)
    ensures r.Some? ==> |r.value| >= 1 && FirstReach(store, blockHash, ancestorHash, |r.value| - 1)
    ensures r.Some? && |r.value| > 1 ==> Up(store, blockHash, |r.value| - 2).Some?
    ensures r.Some? ==> r.value == Trail(store, blockHash, |r.value| - 1) + [ancestorHash]
  {
    if blockHash == ancestorHash {
      assert Reaches(store, blockHash, ancestorHash, 0);
      return Some([blockHash]);
    }
    var path := [blockHash];
    var current := blockHash;
    for i := 0 to MAX_DEPTH
      invariant Up(store, blockHash, i) == Some(current)
      invariant path == Trail(store, blockHash, i + 1)
      invariant forall k: nat | k <= i :: !Reaches(store, blockHash, ancestorHash, k)
    {
      if current !in store {
        NoFurtherReach(store, blockHash, ancestorHash, i);
        return None;
      }
      if store[current].prevHash == ancestorHash {
        assert Reaches(store, blockHash, ancestorHash, i + 1);
        path := path + [ancestorHash];
        return Some(path);
      }
      if store[current].prevHash == "" {
        NoFurtherReach(store, blockHash, ancestorHash, i);
        return None;
      }
      UpStep(store, blockHash, i);
      path := path + [store[current].prevHash];
      current := store[current].prevHash;
    }
    return None;
  }

  // ---- Common ancestors ----

  /** The j-th block above h2 is the first one that h1's bounded walk also meets. */
  ghost predicate FirstShared(store: Store, h1: Hash, h2: Hash, j: nat) {
    && j < MAX_DEPTH
    && Up(store, h2, j).Some?
    && OnWalk(store, h1, MAX_DEPTH - 1, Up(store, h2, j).value)
    && forall i: nat | i < j :: !SharedAt(store, h1, h2, i)
  }

  ghost predicate SharedAt(store: Store, h1: Hash, h2: Hash, i: nat) {
    Up(store, h2, i).Some? && OnWalk(store, h1, MAX_DEPTH - 1, Up(store, h2, i).value)
  }

  method CollectAncestors(store: Store, h: Hash) returns (seen: set<Hash>)
    ensures forall x :: x in seen <==> OnWalk(store, h, MAX_DEPTH - 1, x)
  {
    seen := {};
    var current := h;
    for i := 0 to MAX_DEPTH
      invariant Up(store, h, i) == Some(current)
      invariant forall x :: x in seen <==> exists k: nat :: k < i && Up(store, h, k) == Some(x)
    {
      seen := seen + {current};
      UpStep(store, h, i);
      if current !in store || store[current].prevHash == "" {
        forall x ensures x in seen <==> OnWalk(store, h, MAX_DEPTH - 1, x) {
          if OnWalk(store, h, MAX_DEPTH - 1, x) {
            var k: nat :| k <= MAX_DEPTH - 1 && Up(store, h, k) == Some(x);
            if k > i { UpEnded(store, h, i + 1, k); }
          }
        }
        return;
      }
      current := store[current].prevHash;
    }
  }

  /** Finds the first block above h2 that h1's walk meets, and fails only if there is none in range. */
  method GetCommonAncestor(store: Store, h1: Hash, h2: Hash) returns (r: Option<Hash>)
    ensures r.Some? ==> exists j: nat :: FirstShared(store, h1, h2, j) && Up(store, h2, j) == r
    ensures r.None? ==> forall j: nat | j < MAX_DEPTH :: !SharedAt(store, h1, h2, j)
  {
    if h1 == h2 {
      assert Up(store, h1, 0) == Some(h1);
      assert FirstShared(store, h1, h2, 0);
      return Some(h1);
    }
    var seen := CollectAncestors(store, h1);
    var current := h2;
    for i := 0 to MAX_DEPTH
      invariant Up(store, h2, i) == Some(current)
      invariant forall j: nat | j < i :: !SharedAt(store, h1, h2, j)
    {
      if current in seen {
        assert FirstShared(store, h1, h2, i);
        return Some(current);
      }
      UpStep(store, h2, i);
      if current !in store || store[current].prevHash == "" {
        forall j: nat | j < MAX_DEPTH ensures !SharedAt(store, h1, h2, j) {
          if j > i { UpEnded(store, h2, i + 1, j); }
        }
        return None;
      }
      current := store[current].prevHash;
    }
    return None;
  }

  /** A shared block below one that lies in h1's window lies in that window too. */
  lemma LowerSharedIsInWindow(store: Store, h1: Hash, h2: Hash, i1: nat, i2: nat, j: nat)
    requires WellFormed(store)
    requires i2 <= j && SharedAt(store, h1, h2, j)
    requires Up(store, h2, i2).Some? && Up(store, h1, i1) == Up(store, h2, i2)
    ensures SharedAt(store, h1, h2, i2)
  {
    var k: nat :| k <= MAX_DEPTH - 1 && Up(store, h1, k) == Up(store, h2, j);
    UpCompose(store, h2, i2, j - i2);
    UpCompose(store, h1, i1, j - i2);
    WalkIsInjective(store, h1, k, i1 + (j - i2));
  }

  lemma NothingSharedBelow(store: Store, h1: Hash, h2: Hash, i1: nat, i2: nat, j: nat)
    requires WellFormed(store) && FirstShared(store, h1, h2, j)
    requires Up(store, h2, i2).Some? && Up(store, h1, i1) == Up(store, h2, i2)
    ensures j <= i2
  {
    assert SharedAt(store, h1, h2, j);
    if i2 < j {
      LowerSharedIsInWindow(store, h1, h2, i1, i2, j);
    }
  }

  /**
   * The block found is the lowest common ancestor: every block the two chains share, at any depth,
   * is that block or above it. The depth bound never makes the search return a higher one.
   */
  lemma CommonAncestorIsLowest(store: Store, h1: Hash, h2: Hash, j: nat, x: Hash)
    requires WellFormed(store)
    requires FirstShared(store, h1, h2, j)
    requires OnChain(store, h1, x) && OnChain(store, h2, x)
    ensures OnChain(store, Up(store, h2, j).value, x)
  {
    var i1: nat :| Up(store, h1, i1) == Some(x);
    var i2: nat :| Up(store, h2, i2) == Some(x);
    NothingSharedBelow(store, h1, h2, i1, i2, j);
    AboveIsOnChain(store, h2, j, i2, x);
  }

  lemma AboveIsOnChain(store: Store, h: Hash, j: nat, i: nat, x: Hash)
    requires j <= i && Up(store, h, i) == Some(x)
    ensures Up(store, h, j).Some? && OnChain(store, Up(store, h, j).value, x)
  {
    if j < i { UpPrefix(store, h, i); }
    UpCompose(store, h, j, i - j);
    assert Up(store, Up(store, h, j).value, i - j) == Some(x);
  }

  /** A chain does not come back: a block on the chain of the k-th one is at least k blocks up. */
  lemma ChainMovesOn(store: Store, h: Hash, k: nat, i: nat)
    requires WellFormed(store) && Up(store, h, k).Some? && Up(store, h, i).Some?
    requires OnChain(store, Up(store, h, k).value, Up(store, h, i).value)
    ensures k <= i
  {
    var d: nat :| Up(store, Up(store, h, k).value, d) == Some(Up(store, h, i).value);
    UpCompose(store, h, k, d);
    WalkIsInjective(store, h, i, k + d);
  }

  /** Blocks of h1's walk strictly below the shared block are on no part of h2's chain. */
  lemma BelowSharedIsPrivate(store: Store, h1: Hash, h2: Hash, j: nat, k: nat, i: nat)
    requires WellFormed(store)
    requires FirstShared(store, h1, h2, j)
    requires Up(store, h1, k) == Up(store, h2, j) && i < k
    ensures Up(store, h1, i).Some? && !OnChain(store, h2, Up(store, h1, i).value)
  {
    UpPrefix(store, h1, k);
    var x := Up(store, h1, i).value;
    if OnChain(store, h2, x) {
      CommonAncestorIsLowest(store, h1, h2, j, x);
      ChainMovesOn(store, h1, k, i);
    }
  }

  // ---- The list of blocks a reorganisation applies ----

  datatype ReorgPlan =
    | NoCommonAncestor
    | NoPath
    | MissingBlock
    | Plan(ancestor: Hash, blocks: seq<Block>)

  /** Oldest first: the first block sits on `ancestor`, each later one on its predecessor. */
  ghost predicate ParentLinked(ancestor: Hash, blocks: seq<Block>) {
    forall i | 0 <= i < |blocks| :: blocks[i].prevHash == (if i == 0 then ancestor else blocks[i - 1].hash)
  }

  /** What a reorganisation from `current` to `head` over the plan means on the tree. */
  ghost predicate IsReorg(store: Store, head: Hash, current: Hash, ancestor: Hash, blocks: seq<Block>) {
    && ParentLinked(ancestor, blocks)
    && (if blocks == [] then head == ancestor else blocks[|blocks| - 1].hash == head)
    && (forall b | b in blocks :: b.hash in store && store[b.hash] == b)
    && OnChain(store, current, ancestor)
    && Up(store, head, |blocks|) == Some(ancestor)
    && (forall b | b in blocks :: !OnChain(store, current, b.hash))
    && (forall x | OnChain(store, head, x) && OnChain(store, current, x) :: OnChain(store, ancestor, x))
  }

  /**
   * Steps A to C of the fork-choice update. Once a common ancestor is found neither the path nor a
   * block lookup can fail, and the list runs from just above the lowest common ancestor to the head
   * through blocks none of which is on the current chain.
   */
  method PlanReorg(store: Store, head: Hash, current: Hash) returns (plan: ReorgPlan)
    requires WellFormed(store)
    ensures plan.NoCommonAncestor? || plan.Plan?
    ensures plan.NoCommonAncestor? <==> forall j: nat | j < MAX_DEPTH :: !SharedAt(store, head, current, j)
    ensures plan.Plan? ==> IsReorg(store, head, current, plan.ancestor, plan.blocks)
    ensures plan.Plan? ==> exists j: nat ::
            FirstShared(store, head, current, j) && Up(store, current, j) == Some(plan.ancestor)
  {
    var found := GetCommonAncestor(store, head, current);
    if found.None? {
      return NoCommonAncestor;
    }
    var ancestor := found.value;
    ghost var j: nat :| FirstShared(store, head, current, j) && Up(store, current, j) == Some(ancestor);
    ghost var k: nat :| k <= MAX_DEPTH - 1 && Up(store, head, k) == Some(ancestor);
    assert SharedAt(store, head, current, j);
    AncestorIsReached(store, head, ancestor, k);
    var pathResult := GetChainPath(store, head, ancestor);
    if pathResult.None? {
      return NoPath;
    }
    var path := pathResult.value;
    FirstReachIsUnique(store, head, ancestor, |path| - 1, k);

    var blocks: seq<Block> := [];
    var i := |path| - 2;
    while i >= 0
      invariant -1 <= i <= |path| - 2
      invariant |blocks| == |path| - 2 - i
      invariant forall m | 0 <= m < |blocks| :: IsNthBlock(store, head, k - 1 - m, blocks[m])
    {
      var h := path[i];
      PathBlockIsStored(store, head, k, i);
      if h !in store {
        return MissingBlock;
      }
      blocks := blocks + [store[h]];
      i := i - 1;
    }
    ReorgListIsReorg(store, head, current, j, k, ancestor, blocks);
    plan := Plan(ancestor, blocks);
  }

  ghost predicate IsNthBlock(store: Store, h: Hash, i: int, b: Block) {
    0 <= i && Up(store, h, i).Some? && Up(store, h, i).value in store && b == store[Up(store, h, i).value]
  }

  lemma AncestorIsReached(store: Store, head: Hash, ancestor: Hash, k: nat)
    requires k <= MAX_DEPTH - 1 && Up(store, head, k) == Some(ancestor)
    ensures Reaches(store, head, ancestor, k)
    ensures Descends(store, head, ancestor, MAX_DEPTH)
  {
    if k > 0 {
      UpPrefix(store, head, k);
      UpStep(store, head, k - 1);
    }
    assert Reaches(store, head, ancestor, k);
  }

  lemma FirstReachIsUnique(store: Store, head: Hash, ancestor: Hash, n: nat, k: nat)
    requires WellFormed(store)
    requires FirstReach(store, head, ancestor, n)
    requires Up(store, head, k) == Some(ancestor) && Reaches(store, head, ancestor, k)
    ensures n == k
  {
    if ancestor == "" {
      EmptyHashIsOnlyAStart(store, head, k);
    } else {
      ReachesIsUp(store, head, ancestor, n);
      WalkIsInjective(store, head, n, k);
    }
  }

  lemma EmptyHashIsOnlyAStart(store: Store, h: Hash, k: nat)
    requires Up(store, h, k) == Some("")
    ensures k == 0
  {
    if k > 0 {
      UpPrefix(store, h, k);
      UpStep(store, h, k - 1);
    }
  }

  lemma PathBlockIsStored(store: Store, head: Hash, k: nat, i: nat)
    requires i < k && Up(store, head, k).Some?
    ensures Up(store, head, k - 1).Some?
    ensures Up(store, head, i) == Some(Trail(store, head, k)[i])
    ensures Trail(store, head, k)[i] in store
  {
    UpPrefix(store, head, k);
    TrailAt(store, head, k, i);
    UpStep(store, head, i);
  }

  lemma ReorgBlockFits(store: Store, head: Hash, current: Hash, j: nat, k: nat, i: nat, b: Block)
    requires WellFormed(store)
    requires FirstShared(store, head, current, j) && Up(store, head, k) == Up(store, current, j)
    requires i < k && IsNthBlock(store, head, i, b)
    ensures b.hash in store && store[b.hash] == b
    ensures Up(store, head, i) == Some(b.hash)
    ensures Up(store, head, i + 1) == Some(b.prevHash)
    ensures !OnChain(store, current, b.hash)
  {
    UpPrefix(store, head, k);
    UpStep(store, head, i);
    BelowSharedIsPrivate(store, head, current, j, k, i);
  }

  lemma NthBlockLinks(store: Store, head: Hash, k: nat, i: nat, b: Block)
    requires WellFormed(store) && i < k && Up(store, head, k).Some? && IsNthBlock(store, head, i, b)
    ensures Up(store, head, i) == Some(b.hash) && Up(store, head, i + 1) == Some(b.prevHash)
  {
    UpPrefix(store, head, k);
    UpStep(store, head, i);
  }

  lemma ListIsLinked(store: Store, head: Hash, k: nat, ancestor: Hash, blocks: seq<Block>)
    requires WellFormed(store) && Up(store, head, k) == Some(ancestor) && |blocks| == k
    requires forall m | 0 <= m < |blocks| :: IsNthBlock(store, head, k - 1 - m, blocks[m])
    ensures ParentLinked(ancestor, blocks)
    ensures if blocks == [] then head == ancestor else blocks[|blocks| - 1].hash == head
  {
    forall m | 0 <= m < |blocks|
      ensures blocks[m].prevHash == (if m == 0 then ancestor else blocks[m - 1].hash)
    {
      NthBlockLinks(store, head, k, k - 1 - m, blocks[m]);
      if m > 0 { NthBlockLinks(store, head, k, k - m, blocks[m - 1]); }
    }
    if blocks != [] { NthBlockLinks(store, head, k, 0, blocks[k - 1]); }
  }

  lemma ReorgListIsReorg(store: Store, head: Hash, current: Hash, j: nat, k: nat, ancestor: Hash, blocks: seq<Block>)
    requires WellFormed(store)
    requires FirstShared(store, head, current, j) && Up(store, current, j) == Some(ancestor)
    requires Up(store, head, k) == Some(ancestor) && |blocks| == k
    requires forall m | 0 <= m < |blocks| :: IsNthBlock(store, head, k - 1 - m, blocks[m])
    ensures IsReorg(store, head, current, ancestor, blocks)
  {
    forall m | 0 <= m < |blocks|
      ensures blocks[m].hash in store && store[blocks[m].hash] == blocks[m]
      ensures !OnChain(store, current, blocks[m].hash)
    {
      ReorgBlockFits(store, head, current, j, k, k - 1 - m, blocks[m]);
    }
    ListIsLinked(store, head, k, ancestor, blocks);
    forall x | OnChain(store, head, x) && OnChain(store, current, x) ensures OnChain(store, ancestor, x) {
      CommonAncestorIsLowest(store, head, current, j, x);
    }
  }
}
