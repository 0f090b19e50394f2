/** The head rule: a descent through the child lists to the heaviest subtree. */
module ForkTree {
  import opened Base
  import opened StakeSums
  import opened HashOrder
  import opened BlockTree
  import opened ChainTraversal
  import opened Decay
  import opened ForkChoiceSpec

  /** Parent hash to the hashes of its known children, in the order they were added. */
  type Children = map<Hash, seq<Hash>>

  function ChildrenOf(children: Children, h: Hash): seq<Hash> {
    if h in children then children[h] else []
  }

  // ---- The weight of a subtree ----

  /** The votes counted towards root: recent enough, from active validators, for root or a block below it. */
  ghost function Supporters(store: Store, table: Table, m: Messages, currentEpoch: nat, root: Hash): set<(nat, Addr)> {
    set e, v | e in m && v in m[e] && IsSupporter(store, table, m, currentEpoch, root, e, v) :: (e, v)
  }

  /** The comparison with currentEpoch-2 is unsigned: before epoch two it wraps and skips every vote in practice. */
  ghost predicate IsSupporter(store: Store, table: Table, m: Messages, currentEpoch: nat, root: Hash, e: nat, v: Addr)
    requires e in m && v in m[e]
  {
    && e >= SubU64(currentEpoch, 2)
    && Descends(store, m[e][v], root, FORK_CHOICE_DEPTH)
    && v in Active(table)
  }

  function VoteWeight(table: Table, currentEpoch: nat): ((nat, Addr)) -> nat {
    (vote: (nat, Addr)) => if vote.1 in table then Decayed(table[vote.1].stake, vote.0, currentEpoch) else 0
  }

  ghost function SubtreeStake(store: Store, table: Table, m: Messages, currentEpoch: nat, root: Hash): nat {
    Sum(Supporters(store, table, m, currentEpoch, root), VoteWeight(table, currentEpoch))
  }

  ghost function Weights(store: Store, table: Table, m: Messages, currentEpoch: nat): Hash -> nat {
    root => SubtreeStake(store, table, m, currentEpoch, root)
  }

  ghost function EpochSupporters(store: Store, table: Table, m: Messages, currentEpoch: nat, root: Hash, epoch: nat,
                                 voters: set<Addr>): set<(nat, Addr)>
    requires epoch in m && voters <= m[epoch].Keys
  {
    set v | v in voters && IsSupporter(store, table, m, currentEpoch, root, epoch, v) :: (epoch, v)
  }

  ghost function SupportersIn(store: Store, table: Table, m: Messages, currentEpoch: nat, root: Hash,
                              epochs: set<nat>): set<(nat, Addr)> {
    set vote | vote in Supporters(store, table, m, currentEpoch, root) && vote.0 in epochs
  }

  /** One more epoch adds exactly that epoch's supporters; none if the epoch is too old. */
  lemma SupportersInOneMore(store: Store, table: Table, m: Messages, currentEpoch: nat, root: Hash, epochs: set<nat>,
                            epoch: nat)
    requires epoch in m && epoch !in epochs
    ensures Sum(SupportersIn(store, table, m, currentEpoch, root, epochs + {epoch}), VoteWeight(table, currentEpoch))
         == Sum(SupportersIn(store, table, m, currentEpoch, root, epochs), VoteWeight(table, currentEpoch))
          + Sum(EpochSupporters(store, table, m, currentEpoch, root, epoch, m[epoch].Keys),
                VoteWeight(table, currentEpoch))
    ensures epoch < SubU64(currentEpoch, 2) ==>
            EpochSupporters(store, table, m, currentEpoch, root, epoch, m[epoch].Keys) == {}
  {
    var before := SupportersIn(store, table, m, currentEpoch, root, epochs);
    var more := EpochSupporters(store, table, m, currentEpoch, root, epoch, m[epoch].Keys);
    assert SupportersIn(store, table, m, currentEpoch, root, epochs + {epoch}) == before + more;
    SumUnion(before, more, VoteWeight(table, currentEpoch));
  }

  // ---- Choosing among siblings ----

  /** The selection loop: best child so far and its weight, starting from no child at weight zero. */
  ghost function Choose(cs: seq<Hash>, w: Hash -> nat): (Hash, nat) {
    if cs == [] then ("", 0) else
      var soFar := Choose(cs[..|cs| - 1], w);
      var c := cs[|cs| - 1];
      if w(c) > soFar.1 then (c, w(c))
      else if w(c) == soFar.1 && (soFar.0 == "" || Less(c, soFar.0)) then (c, soFar.1)
      else soFar
  }

  /** c is the heaviest of its siblings, the lowest hash among equals. */
  ghost predicate IsHeaviest(cs: seq<Hash>, w: Hash -> nat, c: Hash) {
    c in cs && forall x | x in cs :: w(x) < w(c) || (w(x) == w(c) && !Less(x, c))
  }

  lemma HeaviestIsUnique(cs: seq<Hash>, ds: seq<Hash>, w: Hash -> nat, c: Hash, d: Hash)
    requires IsHeaviest(cs, w, c) && IsHeaviest(ds, w, d)
    requires forall x :: x in cs <==> x in ds
    ensures c == d
  {
    LessIsTotal(c, d);
  }

  lemma {:induction false} ChooseIsMax(cs: seq<Hash>, w: Hash -> nat)
    requires cs != []
    ensures var (best, weight) := Choose(cs, w);
            best in cs && weight == w(best) && forall x | x in cs :: w(x) <= weight
    decreases |cs|
  {
    var rest := cs[..|cs| - 1];
    if rest != [] { ChooseIsMax(rest, w); }
    assert cs == rest + [cs[|cs| - 1]];
  }

  /** The empty hash ties with another child for the heaviest: the loop reads it as "none chosen yet". */
  ghost predicate EmptyHashTies(cs: seq<Hash>, w: Hash -> nat) {
    && "" in cs
    && (forall x | x in cs :: w(x) <= w(""))
    && exists c :: c in cs && c != "" && w(c) == w("")
  }

  lemma {:induction false} ChooseIsLeast(cs: seq<Hash>, w: Hash -> nat)
    requires cs != []
    ensures var (best, weight) := Choose(cs, w);
            ("" in cs && w("") == weight) || IsHeaviest(cs, w, best)
    decreases |cs|
  {
    ChooseIsMax(cs, w);
    var rest := cs[..|cs| - 1];
    var c := cs[|cs| - 1];
    assert cs == rest + [c];
    if rest != [] {
      ChooseIsMax(rest, w);
      ChooseIsLeast(rest, w);
      LeastStep(rest, w, c);
    } else if Less(c, c) {
      LessIsStrict(c, c);
    }
  }

  lemma LeastStep(rest: seq<Hash>, w: Hash -> nat, c: Hash)
    requires rest != []
    requires var (best, weight) := Choose(rest, w);
             && best in rest && weight == w(best) && (forall x | x in rest :: w(x) <= weight)
             && (("" in rest && w("") == weight) || IsHeaviest(rest, w, best))
    ensures var (best, weight) := Choose(rest + [c], w);
            ("" in rest + [c] && w("") == weight) || IsHeaviest(rest + [c], w, best)
  {
    var cs := rest + [c];
    assert cs[..|cs| - 1] == rest;
    var (best, weight) := Choose(rest, w);
    if w(c) == weight && best != "" && c != "" && !("" in rest && w("") == weight) {
      if Less(c, best) {
        LessIsStrict(c, best);
        forall x | x in cs ensures w(x) < w(c) || (w(x) == w(c) && !Less(x, c)) {
          if x in rest && w(x) == w(c) && Less(x, c) { LessIsTransitive(x, c, best); }
          if x == c && Less(c, c) { LessIsStrict(c, c); }
        }
      }
    } else if w(c) > weight {
      if Less(c, c) { LessIsStrict(c, c); }
    }
  }

  /** Without the ambiguous tie the loop picks the heaviest child, lowest hash first. */
  lemma ChooseIsHeaviest(cs: seq<Hash>, w: Hash -> nat)
    requires cs != [] && !EmptyHashTies(cs, w)
    ensures IsHeaviest(cs, w, Choose(cs, w).0)
  {
    ChooseIsMax(cs, w);
    ChooseIsLeast(cs, w);
    var best := Choose(cs, w).0;
    if "" in cs && w("") == w(best) {
      assert forall x | x in cs && w(x) == w(best) :: x == "";
      assert best == "";
    }
  }

  ghost predicate SamePermuted(cs: seq<Hash>, ds: seq<Hash>) {
    multiset(cs) == multiset(ds)
  }

  lemma PermutedMembers(cs: seq<Hash>, ds: seq<Hash>)
    requires SamePermuted(cs, ds)
    ensures forall x :: x in cs <==> x in ds
    ensures |cs| == |ds|
  {
    forall x ensures x in cs <==> x in ds {
      assert x in cs <==> x in multiset(cs);
      assert x in ds <==> x in multiset(ds);
    }
    assert |multiset(cs)| == |cs| && |multiset(ds)| == |ds|;
  }

  /** The choice among siblings is independent of their order exactly when the empty hash does not tie. */
  lemma ChoiceIgnoresOrderIff(cs: seq<Hash>, w: Hash -> nat)
    requires cs != []
    ensures (forall ds | SamePermuted(cs, ds) :: Choose(ds, w).0 == Choose(cs, w).0) <==> !EmptyHashTies(cs, w)
  {
    if EmptyHashTies(cs, w) {
      var first, last := EmptyFirst(cs), EmptyLast(cs);
      MovedIsPermuted(cs);
      EmptyLastWins(cs, w);
      EmptyFirstLoses(cs, w);
      assert SamePermuted(cs, first) && SamePermuted(cs, last);
      assert Choose(first, w).0 != Choose(last, w).0;
    } else {
      ChooseIsHeaviest(cs, w);
      forall ds | SamePermuted(cs, ds) ensures Choose(ds, w).0 == Choose(cs, w).0 {
        PermutedMembers(cs, ds);
        ChooseIsHeaviest(ds, w);
        HeaviestIsUnique(cs, ds, w, Choose(cs, w).0, Choose(ds, w).0);
      }
    }
  }

  ghost function Empties(cs: seq<Hash>): seq<Hash> {
    if cs == [] then [] else (if cs[0] == "" then [""] else []) + Empties(cs[1..])
  }

  ghost function EmptyFirst(cs: seq<Hash>): seq<Hash> {
    Empties(cs) + Without(cs, "")
  }

  ghost function EmptyLast(cs: seq<Hash>): seq<Hash> {
    Without(cs, "") + Empties(cs)
  }

  lemma {:induction false} MovedCounts(cs: seq<Hash>)
    ensures multiset(Empties(cs)) + multiset(Without(cs, "")) == multiset(cs)
    decreases |cs|
  {
    if cs != [] {
      MovedCounts(cs[1..]);
      assert cs == [cs[0]] + cs[1..];
      if cs[0] == "" {
        assert multiset(Empties(cs)) == multiset([cs[0]]) + multiset(Empties(cs[1..]));
      } else {
        assert multiset(Without(cs, "")) == multiset([cs[0]]) + multiset(Without(cs[1..], ""));
      }
    }
  }

  lemma {:induction false} MovedMembers(cs: seq<Hash>)
    ensures forall x :: x in Without(cs, "") <==> x in cs && x != ""
    ensures (forall i | 0 <= i < |Empties(cs)| :: Empties(cs)[i] == "") && ("" in cs ==> Empties(cs) != [])
    decreases |cs|
  {
    if cs != [] {
      MovedMembers(cs[1..]);
      assert cs == [cs[0]] + cs[1..];
    }
  }

  lemma MovedIsPermuted(cs: seq<Hash>)
    ensures SamePermuted(cs, EmptyFirst(cs)) && SamePermuted(cs, EmptyLast(cs))
  {
    MovedCounts(cs);
  }

  lemma EmptyLastWins(cs: seq<Hash>, w: Hash -> nat)
    requires EmptyHashTies(cs, w)
    ensures Choose(EmptyLast(cs), w).0 == ""
  {
    MovedMembers(cs);
    var others, empties := Without(cs, ""), Empties(cs);
    ChooseIsMax(others, w);
    AppendEmpties(others, empties, w);
  }

  lemma {:induction false} AppendEmpties(others: seq<Hash>, empties: seq<Hash>, w: Hash -> nat)
    requires others != [] && (forall i | 0 <= i < |empties| :: empties[i] == "")
    requires Choose(others, w).1 == w("")
    ensures Choose(others + empties, w).1 == w("")
    ensures empties != [] ==> Choose(others + empties, w).0 == ""
    decreases |empties|
  {
    if empties == [] {
      assert others + empties == others;
    } else {
      var rest := empties[..|empties| - 1];
      AppendEmpties(others, rest, w);
      assert (others + empties)[..|others + empties| - 1] == others + rest;
    }
  }

  lemma EmptyFirstLoses(cs: seq<Hash>, w: Hash -> nat)
    requires EmptyHashTies(cs, w)
    ensures Choose(EmptyFirst(cs), w).0 != ""
  {
    MovedMembers(cs);
    var others, empties := Without(cs, ""), Empties(cs);
    ChooseIsMax(empties, w);
    AppendOthers(empties, others, w);
  }

  lemma {:induction false} AppendOthers(empties: seq<Hash>, others: seq<Hash>, w: Hash -> nat)
    requires empties != [] && (forall x | x in others :: x != "" && w(x) <= w(""))
    requires Choose(empties, w) == ("", w(""))
    ensures Choose(empties + others, w).1 == w("")
    ensures (exists x :: x in others && w(x) == w("")) ==> Choose(empties + others, w).0 != ""
    decreases |others|
  {
    if others == [] {
      assert empties + others == empties;
    } else {
      var rest := others[..|others| - 1];
      assert others == rest + [others[|others| - 1]];
      AppendOthers(empties, rest, w);
      assert (empties + others)[..|empties + others| - 1] == empties + rest;
    }
  }

  // ---- The descent ----

  ghost predicate ChildPath(children: Children, p: seq<Hash>) {
    p != [] && forall i | 0 <= i < |p| - 1 :: p[i + 1] in ChildrenOf(children, p[i])
  }

  /** No block is below itself. */
  ghost predicate AcyclicChildren(children: Children) {
    forall p | ChildPath(children, p) && |p| >= 2 :: p[0] != p[|p| - 1]
  }

  lemma HeadPathIsChildPath(children: Children, w: Hash -> nat, p: seq<Hash>)
    requires Descent(children, w, p)
    ensures ChildPath(children, p)
  {
    forall i | 0 <= i < |p| - 1 ensures p[i + 1] in ChildrenOf(children, p[i]) {
      assert Follows(children, w, p[i], p[i + 1]);
      ChooseIsMax(ChildrenOf(children, p[i]), w);
    }
  }

  /** The last block of a path in an acyclic child map is on no earlier position. */
  lemma PathDoesNotRepeat(children: Children, p: seq<Hash>)
    requires AcyclicChildren(children) && ChildPath(children, p)
    ensures p[|p| - 1] !in p[..|p| - 1]
  {
    if p[|p| - 1] in p[..|p| - 1] {
      var i :| 0 <= i < |p| - 1 && p[i] == p[|p| - 1];
      assert ChildPath(children, p[i..]);
    }
  }

  /** IsViableChain: no finalized checkpoint yet, or a tracked block of a later epoch that descends from it. */
  ghost predicate Viable(store: Store, s: State, h: Hash) {
    s.finality.finalized.Some? ==>
      && h in s.tracked.blockEpochMap
      && s.tracked.blockEpochMap[h] >= s.finality.finalized.value.epoch
      && Descends(store, h, s.finality.finalized.value.blockHash, FORK_CHOICE_DEPTH)
  }

  /** Block hashes are digests: none of them is the empty string. */
  ghost predicate NoEmptyChild(children: Children) {
    forall h | h in children :: "" !in children[h]
  }

  /** From its first block, always to the child that the selection loop picks. */
  ghost predicate Descent(children: Children, w: Hash -> nat, p: seq<Hash>) {
    p != [] && forall i | 0 <= i < |p| - 1 :: Follows(children, w, p[i], p[i + 1])
  }

  ghost predicate Follows(children: Children, w: Hash -> nat, h: Hash, next: Hash) {
    ChildrenOf(children, h) != [] && next == Choose(ChildrenOf(children, h), w).0
  }

  /** A descent that has arrived at a block without children. */
  ghost predicate HeadPath(children: Children, w: Hash -> nat, p: seq<Hash>) {
    Descent(children, w, p) && ChildrenOf(children, p[|p| - 1]) == []
  }

  /** Unless an empty hash ties somewhere, every block of a descent is the heaviest of its siblings. */
  lemma DescentIsHeaviest(children: Children, w: Hash -> nat, p: seq<Hash>)
    requires Descent(children, w, p)
    requires forall i | 0 <= i < |p| - 1 :: !EmptyHashTies(ChildrenOf(children, p[i]), w)
    ensures forall i | 0 <= i < |p| - 1 :: IsHeaviest(ChildrenOf(children, p[i]), w, p[i + 1])
  {
    forall i | 0 <= i < |p| - 1 ensures IsHeaviest(ChildrenOf(children, p[i]), w, p[i + 1]) {
      assert Follows(children, w, p[i], p[i + 1]);
      ChooseIsHeaviest(ChildrenOf(children, p[i]), w);
    }
  }

  /** In an acyclic child map every descent can be continued to a block without children. */
  lemma {:induction false} DescentEnds(children: Children, w: Hash -> nat, p: seq<Hash>, above: set<Hash>)
    returns (q: seq<Hash>)
    requires AcyclicChildren(children) && Descent(children, w, p)
    requires above == (set h | h in p) - {p[|p| - 1]} && above <= children.Keys
    ensures HeadPath(children, w, q) && p <= q
    decreases children.Keys - above
  {
    var last := p[|p| - 1];
    var cs := ChildrenOf(children, last);
    if cs == [] {
      return p;
    }
    var next := Choose(cs, w).0;
    DescentStep(children, w, p, above);
    q := DescentEnds(children, w, p + [next], above + {last});
  }

  /** One more step of a descent reaches a block it has not visited. */
  lemma DescentStep(children: Children, w: Hash -> nat, p: seq<Hash>, above: set<Hash>)
    requires AcyclicChildren(children) && Descent(children, w, p)
    requires above == (set h | h in p) - {p[|p| - 1]} && ChildrenOf(children, p[|p| - 1]) != []
    ensures var next := Choose(ChildrenOf(children, p[|p| - 1]), w).0;
            && Descent(children, w, p + [next])
            && above + {p[|p| - 1]} == (set h | h in p + [next]) - {next}
  {
    var last := p[|p| - 1];
    var next := Choose(ChildrenOf(children, last), w).0;
    assert Follows(children, w, last, next);
    assert Descent(children, w, p + [next]);
    HeadPathIsChildPath(children, w, p + [next]);
    PathDoesNotRepeat(children, p + [next]);
    assert (p + [next])[..|p|] == p;
  }

  /** Where the descent starts: finalized, else justified, else what the store calls genesis. */
  function Anchor(f: Finality, store: Store): Hash {
    if f.finalized.Some? then f.finalized.value.blockHash
    else if f.justified.Some? then f.justified.value.blockHash
    else if "" in store then store[""].hash
    else ""
  }

  ghost predicate IsHead(store: Store, table: Table, children: Children, s: State, head: Hash) {
    exists p :: HeadPathOf(store, table, children, s, p) && p[|p| - 1] == head
  }

  ghost predicate HeadPathOf(store: Store, table: Table, children: Children, s: State, p: seq<Hash>) {
    && HeadPath(children, Weights(store, table, s.messages, CurrentEpoch(s.tracked)), p)
    && p[0] == Anchor(s.finality, store)
  }

  /** The descent from the anchor arrives somewhere. */
  ghost predicate HasHead(store: Store, table: Table, children: Children, s: State) {
    exists p :: HeadPathOf(store, table, children, s, p)
  }

  /** Every acyclic child map has a head, for every set of votes. */
  lemma AcyclicHasHead(store: Store, table: Table, children: Children, s: State)
    requires AcyclicChildren(children)
    ensures HasHead(store, table, children, s)
  {
    var w := Weights(store, table, s.messages, CurrentEpoch(s.tracked));
    var anchor := Anchor(s.finality, store);
    var q := DescentEnds(children, w, [anchor], {});
    assert HeadPathOf(store, table, children, s, q);
  }

  ghost predicate SameChildren(a: Children, b: Children) {
    forall h, x :: x in ChildrenOf(a, h) <==> x in ChildrenOf(b, h)
  }

  /** The child chosen does not depend on the list, only on its members. */
  lemma ChoicesAgree(a: Children, b: Children, w: Hash -> nat, h: Hash, next: Hash)
    requires a == b || (SameChildren(a, b) && NoEmptyChild(a))
    requires Follows(a, w, h, next)
    ensures Follows(b, w, h, next)
  {
    if a != b {
      var cs, ds := ChildrenOf(a, h), ChildrenOf(b, h);
      assert cs[0] in ds;
      assert "" !in cs && "" !in ds;
      ChooseIsHeaviest(cs, w);
      ChooseIsHeaviest(ds, w);
      HeaviestIsUnique(cs, ds, w, Choose(cs, w).0, Choose(ds, w).0);
    }
  }

  lemma {:induction false} HeadPathsAgree(a: Children, b: Children, w: Hash -> nat, p: seq<Hash>, q: seq<Hash>, n: nat)
    requires a == b || (SameChildren(a, b) && NoEmptyChild(a))
    requires HeadPath(a, w, p) && HeadPath(b, w, q) && p[0] == q[0]
    requires n < |p|
    ensures n < |q| && p[n] == q[n]
    decreases n
  {
    if n > 0 {
      HeadPathsAgree(a, b, w, p, q, n - 1);
      assert Follows(a, w, p[n - 1], p[n]);
      ChoicesAgree(a, b, w, p[n - 1], p[n]);
      assert n < |q|;
      assert Follows(b, w, q[n - 1], q[n]);
    }
  }

  /** The head depends only on which children each block has: not on list order, repetitions or map iteration. */
  lemma HeadIsUnique(store: Store, table: Table, a: Children, b: Children, s: State, h1: Hash, h2: Hash)
    requires a == b || (SameChildren(a, b) && NoEmptyChild(a))
    requires IsHead(store, table, a, s, h1) && IsHead(store, table, b, s, h2)
    ensures h1 == h2
  {
    var w := Weights(store, table, s.messages, CurrentEpoch(s.tracked));
    var p :| HeadPathOf(store, table, a, s, p) && p[|p| - 1] == h1;
    var q :| HeadPathOf(store, table, b, s, q) && q[|q| - 1] == h2;
    SameChildrenBack(a, b);
    HeadPathsAgree(a, b, w, p, q, |p| - 1);
    HeadPathsAgree(b, a, w, q, p, |q| - 1);
  }

  lemma SameChildrenBack(a: Children, b: Children)
    requires a == b || (SameChildren(a, b) && NoEmptyChild(a))
    ensures b == a || (SameChildren(b, a) && NoEmptyChild(b))
  {
    forall h | a != b && h in b ensures "" !in b[h] {
      assert "" in ChildrenOf(a, h) <==> "" in ChildrenOf(b, h);
    }
  }
}
