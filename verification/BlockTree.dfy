/** The block store as a partial parent map, and what it means to walk it. */
module BlockTree {
  import opened Base

  datatype Block = Block(hash: Hash, prevHash: Hash, index: int)

  /** GetBlockByHash: a hash that is not a key is a block that is not found. */
  type Store = map<Hash, Block>

  /** Blocks are stored under their own hash and a parent's Index is below its child's. */
  ghost predicate WellFormed(store: Store) {
    && (forall h | h in store :: store[h].hash == h)
    && (forall h | h in store && store[h].prevHash in store ::
          store[store[h].prevHash].index < store[h].index)
  }

  /** The store only ever gains blocks. */
  ghost predicate Extends(later: Store, earlier: Store) {
    forall h | h in earlier :: h in later && later[h] == earlier[h]
  }

  /** The k-th ancestor of h; None once the walk has met a missing block or gone past genesis. */
  ghost function Up(store: Store, h: Hash, k: nat): Option<Hash>
    decreases k
  {
    if k == 0 then Some(h)
    else if h in store && store[h].prevHash != "" then Up(store, store[h].prevHash, k - 1)
    else None
  }

  /** a is exactly k parent links above b. Unlike Up, the last link may lead to the empty hash. */
  ghost predicate Reaches(store: Store, b: Hash, a: Hash, k: nat) {
    if k == 0 then b == a
    else match Up(store, b, k - 1)
      case None => false
      case Some(x) => x in store && store[x].prevHash == a
  }

  ghost predicate Descends(store: Store, b: Hash, a: Hash, limit: nat) {
    exists k: nat :: k <= limit && Reaches(store, b, a, k)
  }

  /** b is a or lies anywhere below it. */
  ghost predicate DescendsFrom(store: Store, b: Hash, a: Hash) {
    exists k: nat :: Reaches(store, b, a, k)
  }

  /** The first k blocks met when walking up from h, h itself first. */
  ghost function Trail(store: Store, h: Hash, k: nat): seq<Hash>
    requires k > 0 ==> Up(store, h, k - 1).Some?
    ensures |Trail(store, h, k)| == k
  {
    if k == 0 then [] else
      UpPrefix(store, h, k - 1);
      Trail(store, h, k - 1) + [Up(store, h, k - 1).value]
  }

  // ---- Walks compose, stay ended once ended, and never repeat a block ----

  lemma {:induction false} UpCompose(store: Store, h: Hash, i: nat, j: nat)
    requires Up(store, h, i).Some?
    ensures Up(store, h, i + j) == Up(store, Up(store, h, i).value, j)
    decreases i
  {
    if i > 0 {
      UpCompose(store, store[h].prevHash, i - 1, j);
    }
  }

  /** One more step of a walk, seen from its far end. */
  lemma UpStep(store: Store, h: Hash, k: nat)
    ensures Up(store, h, k + 1) ==
            match Up(store, h, k)
            case None => None
            case Some(x) =>
              if x in store && store[x].prevHash != "" then Some(store[x].prevHash) else None
    decreases k
  {
    if k > 0 && h in store && store[h].prevHash != "" {
      UpStep(store, store[h].prevHash, k - 1);
    }
  }

  lemma {:induction false} UpEnded(store: Store, h: Hash, i: nat, j: nat)
    requires i <= j
    requires Up(store, h, i).None?
    ensures Up(store, h, j).None?
    decreases j
  {
    if i < j {
      UpEnded(store, h, i, j - 1);
      UpStep(store, h, j - 1);
    }
  }

  lemma UpPrefix(store: Store, h: Hash, k: nat)
    requires Up(store, h, k).Some?
    ensures forall j: nat | j <= k :: Up(store, h, j).Some?
  {
    forall j: nat | j <= k ensures Up(store, h, j).Some? {
      if Up(store, h, j).None? { UpEnded(store, h, j, k); }
    }
  }

  lemma {:induction false} IndexFalls(store: Store, h: Hash, k: nat)
    requires WellFormed(store)
    requires k > 0 && Up(store, h, k).Some? && Up(store, h, k).value in store
    ensures h in store && store[Up(store, h, k).value].index < store[h].index
    decreases k
  {
    if k > 1 {
      IndexFalls(store, store[h].prevHash, k - 1);
    }
  }

  /** No walk meets the same block twice. */
  lemma {:induction false} WalkIsInjective(store: Store, h: Hash, i: nat, j: nat)
    requires WellFormed(store)
    requires Up(store, h, i).Some? && Up(store, h, i) == Up(store, h, j)
    ensures i == j
  {
    if i < j {
      UpCompose(store, h, i, j - i);
      IndexFalls(store, Up(store, h, i).value, j - i);
    } else if j < i {
      UpCompose(store, h, j, i - j);
      IndexFalls(store, Up(store, h, j).value, i - j);
    }
  }

  lemma {:induction false} TrailAt(store: Store, h: Hash, k: nat, i: nat)
    requires i < k && Up(store, h, k - 1).Some?
    ensures Up(store, h, i) == Some(Trail(store, h, k)[i])
    decreases k
  {
    if i < k - 1 {
      UpPrefix(store, h, k - 1);
      TrailAt(store, h, k - 1, i);
    }
  }

  /** For a nonempty ancestor, Reaches is just Up. */
  lemma ReachesIsUp(store: Store, b: Hash, a: Hash, k: nat)
    requires a != ""
    ensures Reaches(store, b, a, k) <==> Up(store, b, k) == Some(a)
  {
    if k > 0 { UpStep(store, b, k - 1); }
  }

  // ---- A growing store keeps every walk it already had ----

  lemma {:induction false} UpMonotone(earlier: Store, later: Store, h: Hash, k: nat)
    requires Extends(later, earlier)
    requires Up(earlier, h, k).Some?
    ensures Up(later, h, k) == Up(earlier, h, k)
    decreases k
  {
    if k > 0 { UpMonotone(earlier, later, earlier[h].prevHash, k - 1); }
  }

  lemma ReachesMonotone(earlier: Store, later: Store, b: Hash, a: Hash, k: nat)
    requires Extends(later, earlier)
    requires Reaches(earlier, b, a, k)
    ensures Reaches(later, b, a, k)
  {
    if k > 0 { UpMonotone(earlier, later, b, k - 1); }
  }
}
