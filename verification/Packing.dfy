/** Packing transactions into a block, and the checks the block has to pass. */
module Packing {
  import opened Base

  const MIN_INT64: int := -0x8000_0000_0000_0000
  const MAX_INT64: int := 0x7fff_ffff_ffff_ffff

  type int64 = x: int | MIN_INT64 <= x <= MAX_INT64

  datatype Tx = Tx(sender: Addr, nonce: nat, gas: int64, gasPrice: nat, payload: int)

  /** nonceOf is None where the lookup fails; executable is the verdict of the execution check. */
  datatype Limits = Limits(
    maxTransactions: int,
    maxBlockSize: int64,
    minGasPrice: nat,
    nonceOf: Addr -> Option<nat>,
    executable: Tx -> bool)

  /** Addition that fails instead of leaving the 64-bit range. */
  function SafeAdd(a: int64, b: int64): (r: Option<int64>)
    ensures r.Some? <==> MIN_INT64 <= a + b <= MAX_INT64
    ensures r.Some? ==> r.value == a + b
  {
    if a > 0 && b > 0 && a > MAX_INT64 - b then None
    else if a < 0 && b < 0 && a < MIN_INT64 - b then None
    else Some(a + b)
  }

  function GasOf(txs: seq<Tx>): int {
    if txs == [] then 0 else GasOf(txs[..|txs| - 1]) + txs[|txs| - 1].gas
  }

  /** Every prefix sum of the gas stays in the 64-bit range. */
  ghost predicate NeverOverflows(txs: seq<Tx>) {
    forall i | 0 <= i <= |txs| :: MIN_INT64 <= GasOf(txs[..i]) <= MAX_INT64
  }

  function FromSender(txs: seq<Tx>, a: Addr): seq<Tx> {
    if txs == [] then [] else
      FromSender(txs[..|txs| - 1], a) + if txs[|txs| - 1].sender == a then [txs[|txs| - 1]] else []
  }

  /** The nonce a sender starts from; Go's zero value where the lookup fails. */
  function StartNonce(l: Limits, a: Addr): nat {
    match l.nonceOf(a)
    case Some(n) => n % TWO_64
    case None => 0
  }

  /** The sender's transactions carry consecutive nonces from the account's own, in unsigned arithmetic. */
  ghost predicate Consecutive(l: Limits, txs: seq<Tx>, a: Addr) {
    var own := FromSender(txs, a);
    forall i | 0 <= i < |own| :: own[i].nonce == (StartNonce(l, a) + i) % TWO_64
  }

  /** The transactions whose sender has no nonce: the first pass sets them aside. */
  function Failed(l: Limits, txs: seq<Tx>): seq<Tx> {
    if txs == [] then [] else
      Failed(l, txs[..|txs| - 1]) + if l.nonceOf(txs[|txs| - 1].sender).None? then [txs[|txs| - 1]] else []
  }

  function NonceNow(nonces: map<Addr, nat>, a: Addr): nat {
    if a in nonces then nonces[a] else 0
  }

  /** The first pass: one nonce per sender, and the transactions for which that fails. */
  method LookUpNonces(l: Limits, txs: seq<Tx>) returns (nonces: map<Addr, nat>, excluded: seq<Tx>)
    ensures excluded == Failed(l, txs)
    ensures forall tx | tx in txs :: NonceNow(nonces, tx.sender) == StartNonce(l, tx.sender)
  {
    nonces, excluded := map[], [];
    for i := 0 to |txs|
      invariant excluded == Failed(l, txs[..i])
      invariant forall a | a in nonces :: l.nonceOf(a).Some? && nonces[a] == StartNonce(l, a)
      invariant forall j | 0 <= j < i :: txs[j].sender in nonces || l.nonceOf(txs[j].sender).None?
    {
      assert txs[..i + 1][..i] == txs[..i];
      var a := txs[i].sender;
      if a !in nonces {
        var nonce := l.nonceOf(a);
        if nonce.None? {
          excluded := excluded + [txs[i]];
          continue;
        }
        nonces := nonces[a := nonce.value % TWO_64];
      }
    }
    assert txs[..|txs|] == txs;
  }

  // ---- What is chosen, said without running totals ----

  /** The nonce a sender has used up so far. */
  function UsedUp(l: Limits, selected: seq<Tx>, a: Addr): nat {
    (StartNonce(l, a) + |FromSender(selected, a)|) % TWO_64
  }

  /** There is room for tx after the selected ones, it is its sender's next, and it is worth executing. */
  predicate Takes(l: Limits, selected: seq<Tx>, tx: Tx) {
    && |selected| < l.maxTransactions
    && MIN_INT64 <= GasOf(selected) + tx.gas <= MAX_INT64 && GasOf(selected) + tx.gas <= l.maxBlockSize
    && tx.nonce == UsedUp(l, selected, tx.sender)
    && tx.gasPrice >= l.minGasPrice && l.executable(tx)
  }

  /** First come, first served: each transaction is taken if it can be after those taken before it. */
  function Chosen(l: Limits, txs: seq<Tx>): seq<Tx> {
    if txs == [] then [] else
      var before := Chosen(l, txs[..|txs| - 1]);
      if Takes(l, before, txs[|txs| - 1]) then before + [txs[|txs| - 1]] else before
  }

  function Refused(l: Limits, txs: seq<Tx>): seq<Tx> {
    if txs == [] then [] else
      Refused(l, txs[..|txs| - 1]) +
      if Takes(l, Chosen(l, txs[..|txs| - 1]), txs[|txs| - 1]) then [] else [txs[|txs| - 1]]
  }

  lemma ChosenStep(l: Limits, txs: seq<Tx>, i: nat)
    requires i < |txs|
    ensures var before := Chosen(l, txs[..i]);
            if Takes(l, before, txs[i])
            then Chosen(l, txs[..i + 1]) == before + [txs[i]] && Refused(l, txs[..i + 1]) == Refused(l, txs[..i])
            else Chosen(l, txs[..i + 1]) == before && Refused(l, txs[..i + 1]) == Refused(l, txs[..i]) + [txs[i]]
  {
    assert txs[..i + 1][..i] == txs[..i];
  }

  /** What a block made of these transactions has to meet. */
  ghost predicate BudgetOk(l: Limits, selected: seq<Tx>) {
    && NeverOverflows(selected)
    && (selected != [] ==> GasOf(selected) <= l.maxBlockSize && |selected| <= l.maxTransactions)
    && (forall i | 0 <= i < |selected| :: selected[i].gasPrice >= l.minGasPrice && l.executable(selected[i]))
  }

  /** The running nonces of the second pass, between two transactions. */
  ghost predicate NoncesOk(l: Limits, selected: seq<Tx>, nonces: map<Addr, nat>, senders: seq<Tx>) {
    forall tx | tx in senders :: NonceNow(nonces, tx.sender) == UsedUp(l, selected, tx.sender)
  }

  lemma GasAppends(selected: seq<Tx>, tx: Tx)
    ensures GasOf(selected + [tx]) == GasOf(selected) + tx.gas
  {
    assert (selected + [tx])[..|selected|] == selected;
  }

  lemma GasGrows(selected: seq<Tx>, tx: Tx)
    requires NeverOverflows(selected) && MIN_INT64 <= GasOf(selected) + tx.gas <= MAX_INT64
    ensures GasOf(selected + [tx]) == GasOf(selected) + tx.gas && NeverOverflows(selected + [tx])
  {
    var longer := selected + [tx];
    assert longer[..|selected|] == selected;
    forall i | 0 <= i <= |longer| ensures MIN_INT64 <= GasOf(longer[..i]) <= MAX_INT64 {
      if i <= |selected| { assert longer[..i] == selected[..i]; } else { assert longer[..i] == longer; }
    }
  }

  lemma SenderGrows(l: Limits, selected: seq<Tx>, tx: Tx)
    requires forall a :: Consecutive(l, selected, a)
    requires tx.nonce == UsedUp(l, selected, tx.sender)
    ensures forall a :: Consecutive(l, selected + [tx], a)
  {
    assert (selected + [tx])[..|selected|] == selected;
    forall a ensures Consecutive(l, selected + [tx], a) {
      assert Consecutive(l, selected, a);
    }
  }

  lemma NextNonce(start: nat, k: nat)
    ensures ((start + k) % TWO_64 + 1) % TWO_64 == (start + (k + 1)) % TWO_64
  {
  }

  lemma NoncesGrow(l: Limits, selected: seq<Tx>, nonces: map<Addr, nat>, senders: seq<Tx>, tx: Tx)
    requires NoncesOk(l, selected, nonces, senders) && tx in senders
    ensures NoncesOk(l, selected + [tx], nonces[tx.sender := (NonceNow(nonces, tx.sender) + 1) % TWO_64], senders)
  {
    assert (selected + [tx])[..|selected|] == selected;
    NextNonce(StartNonce(l, tx.sender), |FromSender(selected, tx.sender)|);
    assert NonceNow(nonces, tx.sender) == UsedUp(l, selected, tx.sender);
    assert UsedUp(l, selected + [tx], tx.sender) == (UsedUp(l, selected, tx.sender) + 1) % TWO_64;
    forall x | x in senders && x.sender != tx.sender
      ensures NonceNow(nonces, x.sender) == UsedUp(l, selected + [tx], x.sender)
    {
      assert FromSender(selected + [tx], x.sender) == FromSender(selected, x.sender);
    }
  }

  lemma TakingKeepsBudget(l: Limits, selected: seq<Tx>, tx: Tx)
    requires BudgetOk(l, selected) && Takes(l, selected, tx)
    ensures BudgetOk(l, selected + [tx])
  {
    GasGrows(selected, tx);
  }

  /**
   * A block made of the chosen transactions keeps within the limits, and every sender's nonces run on
   * without a gap.
   */
  lemma {:induction false} ChosenIsSound(l: Limits, txs: seq<Tx>)
    ensures BudgetOk(l, Chosen(l, txs)) && forall a :: Consecutive(l, Chosen(l, txs), a)
    decreases |txs|
  {
    if txs != [] {
      var before, tx := Chosen(l, txs[..|txs| - 1]), txs[|txs| - 1];
      ChosenIsSound(l, txs[..|txs| - 1]);
      if Takes(l, before, tx) {
        TakingKeepsBudget(l, before, tx);
        SenderGrows(l, before, tx);
      }
    }
  }

  lemma {:induction false} ChosenOrRefused(l: Limits, txs: seq<Tx>)
    ensures multiset(Chosen(l, txs)) + multiset(Refused(l, txs)) == multiset(txs)
    decreases |txs|
  {
    if txs != [] {
      var rest, tx := txs[..|txs| - 1], txs[|txs| - 1];
      ChosenOrRefused(l, rest);
      assert txs == rest + [tx];
    }
  }

  /** The checks one transaction has to pass, in order; the new gas total if it does. */
  method Fits(l: Limits, ghost selected: seq<Tx>, count: nat, total: int64, nonces: map<Addr, nat>, tx: Tx)
      returns (newTotal: Option<int64>)
    requires count == |selected| && total == GasOf(selected)
             && NonceNow(nonces, tx.sender) == UsedUp(l, selected, tx.sender)
    ensures newTotal.Some? <==> Takes(l, selected, tx)
    ensures newTotal.Some? ==> newTotal.value == total + tx.gas
  {
    if count >= l.maxTransactions {
      return None;
    }
    newTotal := SafeAdd(total, tx.gas);
    if newTotal.None? {
      return None;
    }
    if newTotal.value > l.maxBlockSize {
      return None;
    }
    if tx.nonce != NonceNow(nonces, tx.sender) {
      return None;
    }
    if tx.gasPrice < l.minGasPrice {
      return None;
    }
    if !l.executable(tx) {
      return None;
    }
  }

  /** The second pass: the running total and the nonce table choose just what the definition without them does. */
  method TakeWhatFits(l: Limits, txs: seq<Tx>, start: map<Addr, nat>, aside: seq<Tx>)
      returns (selected: seq<Tx>, excluded: seq<Tx>)
    requires NoncesOk(l, [], start, txs)
    ensures selected == Chosen(l, txs)
    ensures excluded == aside + Refused(l, txs)
  {
    var nonces: map<Addr, nat> := start;
    selected, excluded := [], aside;
    var total: int64 := 0;
    for i := 0 to |txs|
      invariant selected == Chosen(l, txs[..i])
      invariant excluded == aside + Refused(l, txs[..i])
      invariant total == GasOf(selected)
      invariant NoncesOk(l, selected, nonces, txs)
    {
      var tx := txs[i];
      assert NonceNow(nonces, tx.sender) == UsedUp(l, selected, tx.sender);
      var newTotal := Fits(l, selected, |selected|, total, nonces, tx);
      ChosenStep(l, txs, i);
      if newTotal.None? {
        excluded := excluded + [tx];
        continue;
      }
      GasAppends(selected, tx);
      NoncesGrow(l, selected, nonces, txs, tx);
      selected := selected + [tx];
      total := newTotal.value;
      nonces := nonces[tx.sender := (NonceNow(nonces, tx.sender) + 1) % TWO_64];
    }
    assert txs[..|txs|] == txs;
  }

  /** packTransactions. */
  method PackTransactions(l: Limits, txs: seq<Tx>) returns (selected: seq<Tx>, excluded: seq<Tx>)
    ensures selected == Chosen(l, txs)
    ensures excluded == Failed(l, txs) + Refused(l, txs)
  {
    var nonces: map<Addr, nat>;
    nonces, excluded := LookUpNonces(l, txs);
    selected, excluded := TakeWhatFits(l, txs, nonces, excluded);
  }

  /**
   * The split is exact if and only if every nonce lookup succeeds: a failed sender's transactions are listed once
   * by the first pass and once more by the second.
   */
  lemma SplitIsExactIff(l: Limits, txs: seq<Tx>)
    ensures var parts := multiset(Chosen(l, txs)) + multiset(Failed(l, txs) + Refused(l, txs));
            && parts == multiset(txs) + multiset(Failed(l, txs))
            && (parts == multiset(txs) <==> forall i | 0 <= i < |txs| :: l.nonceOf(txs[i].sender).Some?)
  {
    ChosenOrRefused(l, txs);
    FailedIsEmptyIff(l, txs);
    var failed := Failed(l, txs);
    assert |multiset(failed)| == |failed| && |multiset(txs)| == |txs|;
    if failed == [] {
      assert multiset(failed) == multiset{};
    } else {
      assert |multiset(txs) + multiset(failed)| == |txs| + |failed|;
    }
  }

  lemma {:induction false} FailedIsEmptyIff(l: Limits, txs: seq<Tx>)
    ensures Failed(l, txs) == [] <==> forall i | 0 <= i < |txs| :: l.nonceOf(txs[i].sender).Some?
    decreases |txs|
  {
    if txs != [] {
      var rest := txs[..|txs| - 1];
      FailedIsEmptyIff(l, rest);
      assert txs == rest + [txs[|txs| - 1]];
    }
  }

  lemma {:induction false} FailedCount(l: Limits, txs: seq<Tx>, tx: Tx)
    ensures multiset(Failed(l, txs))[tx] == if l.nonceOf(tx.sender).None? then multiset(txs)[tx] else 0
    decreases |txs|
  {
    if txs != [] {
      var rest, last := txs[..|txs| - 1], txs[|txs| - 1];
      FailedCount(l, rest, tx);
      assert txs == rest + [last];
    }
  }

  /** Each transaction is listed as often as it was given, or twice as often if its sender's lookup fails. */
  lemma TimesListed(l: Limits, txs: seq<Tx>, tx: Tx)
    ensures multiset(Chosen(l, txs))[tx] + multiset(Failed(l, txs) + Refused(l, txs))[tx] ==
            multiset(txs)[tx] * if l.nonceOf(tx.sender).None? then 2 else 1
  {
    ChosenOrRefused(l, txs);
    FailedCount(l, txs, tx);
    assert (multiset(Chosen(l, txs)) + multiset(Refused(l, txs)))[tx] == multiset(txs)[tx];
    assert multiset(Failed(l, txs) + Refused(l, txs)) == multiset(Failed(l, txs)) + multiset(Refused(l, txs));
  }

  /** txs[i] is given once. */
  ghost predicate Once(txs: seq<Tx>, i: nat) {
    i < |txs| && forall j | 0 <= j < |txs| && j != i :: txs[j] != txs[i]
  }

  lemma {:induction false} NotListedBefore(l: Limits, txs: seq<Tx>, i: nat, k: nat)
    requires Once(txs, i) && k <= i
    ensures txs[i] !in Chosen(l, txs[..k]) && txs[i] !in Refused(l, txs[..k])
    decreases k
  {
    if k > 0 {
      ChosenStep(l, txs, k - 1);
      NotListedBefore(l, txs, i, k - 1);
    }
  }

  lemma OthersListed(l: Limits, txs: seq<Tx>, k: nat, tx: Tx)
    requires k < |txs| && txs[k] != tx
    ensures tx in Chosen(l, txs[..k + 1]) <==> tx in Chosen(l, txs[..k])
    ensures tx in Refused(l, txs[..k + 1]) <==> tx in Refused(l, txs[..k])
  {
    ChosenStep(l, txs, k);
  }

  lemma WhenDecided(l: Limits, txs: seq<Tx>, i: nat)
    requires Once(txs, i)
    ensures txs[i] in Chosen(l, txs[..i + 1]) <==> Takes(l, Chosen(l, txs[..i]), txs[i])
    ensures txs[i] in Refused(l, txs[..i + 1]) <==> !Takes(l, Chosen(l, txs[..i]), txs[i])
  {
    ChosenStep(l, txs, i);
    NotListedBefore(l, txs, i, i);
  }

  lemma {:induction false} StaysSo(holds: nat -> bool, i: nat, k: nat)
    requires i <= k && forall j | i <= j < k :: holds(j + 1) == holds(j)
    ensures holds(k) == holds(i)
    decreases k
  {
    if k > i { StaysSo(holds, i, k - 1); assert holds(k - 1 + 1) == holds(k - 1); }
  }

  lemma StaysDecided(l: Limits, txs: seq<Tx>, i: nat)
    requires Once(txs, i)
    ensures txs[i] in Chosen(l, txs) <==> txs[i] in Chosen(l, txs[..i + 1])
    ensures txs[i] in Refused(l, txs) <==> txs[i] in Refused(l, txs[..i + 1])
  {
    var chosen := (k: nat) => k <= |txs| && txs[i] in Chosen(l, txs[..k]);
    var refused := (k: nat) => k <= |txs| && txs[i] in Refused(l, txs[..k]);
    forall k | i + 1 <= k < |txs| ensures chosen(k + 1) == chosen(k) && refused(k + 1) == refused(k) {
      OthersListed(l, txs, k, txs[i]);
    }
    StaysSo(chosen, i + 1, |txs|);
    StaysSo(refused, i + 1, |txs|);
    assert txs[..|txs|] == txs;
  }

  /**
   * A transaction given once is both selected and excluded if and only if its sender's lookup fails and it is taken
   * all the same, which the second pass does for nonces that run on from zero.
   */
  lemma SelectedAndExcludedIff(l: Limits, txs: seq<Tx>, i: nat)
    requires Once(txs, i)
    ensures var tx, before := txs[i], Chosen(l, txs[..i]);
            && (tx in Chosen(l, txs) && tx in Failed(l, txs) + Refused(l, txs) <==>
                l.nonceOf(tx.sender).None? && Takes(l, before, tx))
            && (l.nonceOf(tx.sender).None? && Takes(l, before, tx) ==>
                  tx.nonce == |FromSender(before, tx.sender)| % TWO_64)
  {
    WhenDecided(l, txs, i);
    StaysDecided(l, txs, i);
    FailedCount(l, txs, txs[i]);
    assert txs[i] in multiset(Failed(l, txs)) <==> txs[i] in Failed(l, txs);
    assert txs[i] in multiset(txs);
  }

  /** With a failed lookup, nonce zero is selected and excluded once, and nonce one is excluded twice. */
  lemma NonceZeroIsSelected(a: Addr)
    ensures var l := Limits(1, 100, 0, _ => None, _ => true);
            var zero, one := Tx(a, 0, 1, 0, 0), Tx(a, 1, 1, 0, 0);
            && Chosen(l, [zero]) == [zero] && Failed(l, [zero]) + Refused(l, [zero]) == [zero]
            && Chosen(l, [one]) == [] && Failed(l, [one]) + Refused(l, [one]) == [one, one]
  {
    var l := Limits(1, 100, 0, _ => None, _ => true);
    var zero, one := Tx(a, 0, 1, 0, 0), Tx(a, 1, 1, 0, 0);
    assert [zero][..0] == [] && [one][..0] == [];
    assert Takes(l, [], zero) && !Takes(l, [], one);
  }

  // ---- Nothing that fits is left out ----

  /** Where the sender's transactions are. */
  ghost function Positions(txs: seq<Tx>, a: Addr): set<int> {
    set i | 0 <= i < |txs| && txs[i].sender == a
  }

  /** The sender's transactions are as many as there are positions that hold one. */
  lemma {:induction false} SenderCount(txs: seq<Tx>, a: Addr)
    ensures |FromSender(txs, a)| == |Positions(txs, a)|
    decreases |txs|
  {
    if txs != [] {
      var last := |txs| - 1;
      SenderCount(txs[..last], a);
      if txs[last].sender == a {
        assert Positions(txs, a) == Positions(txs[..last], a) + {last};
      } else {
        assert Positions(txs, a) == Positions(txs[..last], a);
      }
    }
  }

  /** Gas adds up, whichever way a list is cut. */
  lemma {:induction false} GasAdds(a: seq<Tx>, b: seq<Tx>, tx: Tx)
    ensures GasOf(a + b) == GasOf(a) + GasOf(b) && GasOf([tx]) == tx.gas
    decreases |b|
  {
    assert [tx][..0] == [];
    if b == [] {
      assert a + b == a;
    } else {
      GasAdds(a, b[..|b| - 1], tx);
      assert (a + b)[..|a + b| - 1] == a + b[..|b| - 1];
    }
  }

  /** The nonce the account stands at, zero where the lookup fails. */
  function AccountNonce(l: Limits, a: Addr): nat {
    if l.nonceOf(a).Some? then l.nonceOf(a).value % TWO_64 else 0
  }

  /** What the code refuses a transaction for, in the order it looks. */
  datatype Reason = Full | Overflow | OverGasLimit | WrongNonce | LowPrice | NotExecutable

  ghost predicate Applies(l: Limits, selected: seq<Tx>, tx: Tx, r: Reason) {
    match r
    case Full => |selected| >= l.maxTransactions
    case Overflow => GasOf(selected) + tx.gas < MIN_INT64 || GasOf(selected) + tx.gas > MAX_INT64
    case OverGasLimit => GasOf(selected) + tx.gas > l.maxBlockSize
    case WrongNonce => tx.nonce != (AccountNonce(l, tx.sender) + |Positions(selected, tx.sender)|) % TWO_64
    case LowPrice => tx.gasPrice < l.minGasPrice
    case NotExecutable => !l.executable(tx)
  }

  /** At its turn a transaction is excluded if one of the six reasons applies, and selected if none does. */
  lemma ExcludedForAReason(l: Limits, txs: seq<Tx>, i: nat)
    requires i < |txs|
    ensures var selected := Chosen(l, txs[..i]);
            if exists r :: Applies(l, selected, txs[i], r)
            then Chosen(l, txs[..i + 1]) == selected && Refused(l, txs[..i + 1]) == Refused(l, txs[..i]) + [txs[i]]
            else Chosen(l, txs[..i + 1]) == selected + [txs[i]] && Refused(l, txs[..i + 1]) == Refused(l, txs[..i])
  {
    var selected := Chosen(l, txs[..i]);
    ChosenStep(l, txs, i);
    ReasonsAre(l, selected, txs[i]);
  }

  lemma ReasonsAre(l: Limits, selected: seq<Tx>, tx: Tx)
    ensures Takes(l, selected, tx) <==> !exists r :: Applies(l, selected, tx, r)
  {
    assert AccountNonce(l, tx.sender) == StartNonce(l, tx.sender);
    SenderCount(selected, tx.sender);
    if !Takes(l, selected, tx) {
      var r := if Applies(l, selected, tx, Full) then Full
               else if Applies(l, selected, tx, Overflow) then Overflow
               else if Applies(l, selected, tx, OverGasLimit) then OverGasLimit
               else if Applies(l, selected, tx, WrongNonce) then WrongNonce
               else if Applies(l, selected, tx, LowPrice) then LowPrice else NotExecutable;
      assert Applies(l, selected, tx, r);
    }
  }

  predicate GasFits(l: Limits, txs: seq<Tx>, i: nat)
    requires i <= |txs|
  {
    MIN_INT64 <= GasOf(txs[..i]) <= MAX_INT64 && GasOf(txs[..i]) <= l.maxBlockSize
  }

  /** The nonces of a sender run on from the account's. */
  ghost predicate IsSendersNext(l: Limits, txs: seq<Tx>, i: nat)
    requires i < |txs|
  {
    txs[i].nonce == (AccountNonce(l, txs[i].sender) + |Positions(txs[..i], txs[i].sender)|) % TWO_64
  }

  /** Taken together and in this order, the transactions keep every bound, and each is its sender's next. */
  ghost predicate AllFit(l: Limits, txs: seq<Tx>) {
    && (txs != [] ==> |txs| <= l.maxTransactions)
    && (forall i | 0 < i <= |txs| :: GasFits(l, txs, i))
    && (forall i | 0 <= i < |txs| :: txs[i].gasPrice >= l.minGasPrice && l.executable(txs[i]))
    && (forall i | 0 <= i < |txs| :: IsSendersNext(l, txs, i))
  }

  lemma {:induction false} ChosenIsNoLonger(l: Limits, txs: seq<Tx>)
    ensures |Chosen(l, txs)| <= |txs|
    decreases |txs|
  {
    if txs != [] { ChosenIsNoLonger(l, txs[..|txs| - 1]); }
  }

  /** The first i + 1 are all selected exactly if the first i are and the next is taken after them. */
  lemma OneMoreSelected(l: Limits, txs: seq<Tx>, i: nat, before: seq<Tx>, after: seq<Tx>)
    requires i < |txs| && before == Chosen(l, txs[..i]) && after == Chosen(l, txs[..i + 1])
    ensures after == txs[..i + 1] <==> before == txs[..i] && Takes(l, txs[..i], txs[i])
  {
    ChosenStep(l, txs, i);
    ChosenIsNoLonger(l, txs[..i]);
    assert txs[..i + 1] == txs[..i] + [txs[i]];
  }

  lemma {:induction false} HoldsThroughout(all: nat -> bool, next: nat -> bool, k: nat)
    requires all(0) && forall i | 0 <= i < k :: all(i + 1) <==> all(i) && next(i)
    ensures all(k) <==> forall i | 0 <= i < k :: next(i)
    decreases k
  {
    if k > 0 {
      HoldsThroughout(all, next, k - 1);
      assert all(k - 1 + 1) <==> all(k - 1) && next(k - 1);
    }
  }

  lemma AllSelectedInTurn(l: Limits, txs: seq<Tx>)
    ensures Chosen(l, txs) == txs <==> forall i | 0 <= i < |txs| :: Takes(l, txs[..i], txs[i])
  {
    var all := (i: nat) => i <= |txs| && Chosen(l, txs[..i]) == txs[..i];
    var next := (i: nat) => i < |txs| && Takes(l, txs[..i], txs[i]);
    forall i | 0 <= i < |txs| ensures all(i + 1) <==> all(i) && next(i) {
      OneMoreSelected(l, txs, i, Chosen(l, txs[..i]), Chosen(l, txs[..i + 1]));
    }
    HoldsThroughout(all, next, |txs|);
    assert txs[..|txs|] == txs;
    assert forall i | 0 <= i < |txs| :: next(i) <==> Takes(l, txs[..i], txs[i]);
  }

  /** What taking the i-th after all before it asks for. */
  ghost predicate FitsInTurn(l: Limits, txs: seq<Tx>, i: nat)
    requires i < |txs|
  {
    && i < l.maxTransactions && GasFits(l, txs, i + 1) && IsSendersNext(l, txs, i)
    && txs[i].gasPrice >= l.minGasPrice && l.executable(txs[i])
  }

  lemma TakenIfFits(l: Limits, txs: seq<Tx>, i: nat)
    requires i < |txs|
    ensures Takes(l, txs[..i], txs[i]) <==> FitsInTurn(l, txs, i)
  {
    assert txs[..i + 1] == txs[..i] + [txs[i]];
    GasAppends(txs[..i], txs[i]);
    assert AccountNonce(l, txs[i].sender) == StartNonce(l, txs[i].sender);
    SenderCount(txs[..i], txs[i].sender);
  }

  lemma AllFitInTurn(l: Limits, txs: seq<Tx>)
    ensures AllFit(l, txs) <==> forall i | 0 <= i < |txs| :: FitsInTurn(l, txs, i)
  {
    if forall i | 0 <= i < |txs| :: FitsInTurn(l, txs, i) {
      if txs != [] { assert FitsInTurn(l, txs, |txs| - 1); }
      forall i | 0 < i <= |txs| ensures GasFits(l, txs, i) { assert FitsInTurn(l, txs, i - 1); }
      forall i | 0 <= i < |txs|
        ensures IsSendersNext(l, txs, i) && txs[i].gasPrice >= l.minGasPrice && l.executable(txs[i])
      {
        assert FitsInTurn(l, txs, i);
      }
    }
    if AllFit(l, txs) {
      forall i | 0 <= i < |txs| ensures FitsInTurn(l, txs, i) { assert GasFits(l, txs, i + 1); }
    }
  }

  /**
   * Everything is selected if and only if, in the given order, the count, every prefix sum of the gas, the prices, the
   * execution checks and every sender's run of nonces are within bounds.
   */
  lemma AllSelectedIff(l: Limits, txs: seq<Tx>)
    ensures Chosen(l, txs) == txs <==> AllFit(l, txs)
  {
    AllSelectedInTurn(l, txs);
    AllFitInTurn(l, txs);
    forall i | 0 <= i < |txs| ensures Takes(l, txs[..i], txs[i]) <==> FitsInTurn(l, txs, i) { TakenIfFits(l, txs, i); }
  }

  // ---- The proposer's header and the validator's checks ----

  lemma InRange(txs: seq<Tx>)
    requires NeverOverflows(txs)
    ensures MIN_INT64 <= GasOf(txs) <= MAX_INT64
  {
    assert txs[..|txs|] == txs;
  }

  /** calculateTotalGas: the checked sum, which fails exactly when some prefix leaves the range. */
  method CalculateTotalGas(txs: seq<Tx>) returns (total: Option<int64>)
    ensures total.Some? <==> NeverOverflows(txs)
    ensures total.Some? ==> total.value == GasOf(txs)
  {
    var sum: int64 := 0;
    for i := 0 to |txs|
      invariant sum == GasOf(txs[..i])
      invariant forall j | 0 <= j <= i :: MIN_INT64 <= GasOf(txs[..j]) <= MAX_INT64
    {
      assert txs[..i + 1][..i] == txs[..i];
      var next := SafeAdd(sum, txs[i].gas);
      if next.None? {
        assert GasOf(txs[..i + 1]) == sum + txs[i].gas;
        return None;
      }
      sum := next.value;
    }
    assert txs[..|txs|] == txs;
    total := Some(sum);
  }

  /** Go's addition of int64 values wraps around. */
  function WrapAdd(a: int64, b: int64): int64 {
    var sum := a + b;
    if sum > MAX_INT64 then sum - TWO_64 else if sum < MIN_INT64 then sum + TWO_64 else sum
  }

  /** The 64-bit value of a sum, after any wrap-around. */
  function Wrapped(sum: int): (r: int64)
    ensures MIN_INT64 <= sum <= MAX_INT64 ==> r == sum
  {
    (sum - MIN_INT64) % TWO_64 + MIN_INT64
  }

  lemma WrapAddWraps(sum: int, b: int64)
    ensures WrapAdd(Wrapped(sum), b) == Wrapped(sum + b)
  {
  }

  /** validateGasUsage with its unchecked sum. */
  method ValidateGasUsage(txs: seq<Tx>, gasUsed: int64, maxBlockSize: int64) returns (ok: bool)
    ensures ok <==> gasUsed == Wrapped(GasOf(txs)) && gasUsed <= maxBlockSize
  {
    var total: int64 := 0;
    for i := 0 to |txs|
      invariant total == Wrapped(GasOf(txs[..i]))
    {
      assert txs[..i + 1][..i] == txs[..i];
      WrapAddWraps(GasOf(txs[..i]), txs[i].gas);
      total := WrapAdd(total, txs[i].gas);
    }
    assert txs[..|txs|] == txs;
    if gasUsed != total {
      return false;
    }
    if total > maxBlockSize {
      return false;
    }
    return true;
  }

  predicate CountAllowed(txs: seq<Tx>, maxTransactions: int) {
    |txs| <= maxTransactions
  }

  /**
   * Pack, build the header, validate: a block built from the selection passes the validator's
   * count, gas-sum and gas-limit checks exactly when the limits are not negative or something was
   * selected, for any 64-bit gas values.
   */
  method ProposeAndValidate(l: Limits, txs: seq<Tx>) returns (selected: seq<Tx>, countOk: bool, gasOk: bool)
    ensures selected == Chosen(l, txs)
    ensures countOk <==> selected != [] || l.maxTransactions >= 0
    ensures gasOk <==> selected != [] || l.maxBlockSize >= 0
  {
    var excluded;
    selected, excluded := PackTransactions(l, txs);
    ChosenIsSound(l, txs);
    var gasUsed := CalculateTotalGas(selected);
    InRange(selected);
    gasOk := ValidateGasUsage(selected, gasUsed.value, l.maxBlockSize);
    countOk := CountAllowed(selected, l.maxTransactions);
  }
}
