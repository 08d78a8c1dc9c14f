/** The per-account transaction list: a nonce-sorted map with cached upper bounds on cost and gas,
    and in strict mode no nonce gaps. */
module TxLists {
  import opened Options
  import opened Ancestry
  import opened Transactions
  import opened SortedMaps

  /** The cached caps bound what a filter may test. */
  ghost predicate CapsBound(items: Items, costcap: nat, gascap: uint64) {
    forall n <- items :: items[n].value <= costcap && items[n].gas <= gascap
  }

  /** No nonce is missing between two stored ones. */
  ghost predicate Contiguous(items: Items) {
    forall n: uint64, m: uint64, k: uint64 :: n in items && m in items && n <= k <= m ==> k in items
  }

  /** What Filter tests: the value alone against the balance, though the cap is raised by the cost. */
  predicate Exceeds(tx: Tx, costLimit: nat, gasLimit: uint64) {
    tx.value > costLimit || tx.gas > gasLimit
  }

  function Violation(costLimit: nat, gasLimit: uint64): Tx -> bool {
    (tx: Tx) => Exceeds(tx, costLimit, gasLimit)
  }

  function Beyond(nonce: uint64): Tx -> bool {
    (tx: Tx) => tx.nonce > nonce
  }

  /** The least nonce among the violations. */
  ghost predicate LowestViolation(items: Items, costLimit: nat, gasLimit: uint64, n: uint64) {
    && n in items && Exceeds(items[n], costLimit, gasLimit)
    && forall m <- items :: Exceeds(items[m], costLimit, gasLimit) ==> n <= m
  }

  lemma BeforeIsContiguous(items: Items, t: int)
    requires Contiguous(items)
    ensures Contiguous(Before(items, t)) && Contiguous(Since(items, t))
  {
  }

  lemma LowPartIsContiguous(was: Items, items: Items, taken: seq<Tx>)
    requires Contiguous(was) && TakenHigh(was, items, taken)
    ensures Contiguous(items)
  {
    TakenMembers(was, items, taken);
    forall n: uint64, m: uint64, k: uint64 | n in items && m in items && n <= k <= m ensures k in items {
      assert k in was && was[k].nonce == k;
    }
  }

  /** With nothing above either limit, the caps let Filter skip the scan. */
  lemma ShortCircuitIsSound(items: Items, costcap: nat, gascap: uint64, costLimit: nat, gasLimit: uint64)
    requires CapsBound(items, costcap, gascap) && costcap <= costLimit && gascap <= gasLimit
    ensures Spared(items, Violation(costLimit, gasLimit)) == items
    ensures Gone(items, items) == multiset{}
    ensures forall n <- items :: !Exceeds(items[n], costLimit, gasLimit)
    ensures forall n: uint64 :: !LowestViolation(items, costLimit, gasLimit, n)
  {
    assert items - items.Keys == map[];
  }

  /** The limits of a filter are caps for what it spares. */
  lemma SparedIsBound(items: Items, costLimit: nat, gasLimit: uint64)
    ensures CapsBound(Spared(items, Violation(costLimit, gasLimit)), costLimit, gasLimit)
    ensures forall n <- Spared(items, Violation(costLimit, gasLimit)) ::
      !Exceeds(items[n], costLimit, gasLimit) && Spared(items, Violation(costLimit, gasLimit))[n] == items[n]
    ensures Spared(items, Violation(costLimit, gasLimit)) == items ==>
      forall n: uint64 :: !LowestViolation(items, costLimit, gasLimit, n)
  {
  }

  method LowestNonce(txs: seq<Tx>) returns (lowest: uint64)
    ensures forall tx <- txs :: lowest <= tx.nonce
    ensures txs != [] ==> exists tx <- txs :: tx.nonce == lowest
  {
    lowest := 0xffff_ffff_ffff_ffff;
    for i := 0 to |txs|
      invariant forall tx <- txs[..i] :: lowest <= tx.nonce
      invariant lowest == 0xffff_ffff_ffff_ffff || exists tx <- txs[..i] :: tx.nonce == lowest
    {
      if lowest > txs[i].nonce {
        lowest := txs[i].nonce;
      }
      assert txs[..i + 1] == txs[..i] + [txs[i]];
      assert txs[i] in txs[..i + 1];
    }
    assert txs[..|txs|] == txs;
    assert txs != [] ==> txs[0] in txs;
  }

  class TxList {
    const strict: bool
    const txs: SortedMap
    var costcap: nat
    var gascap: uint64

    ghost predicate Valid()
      reads this, txs
    {
      txs.Valid() && CapsBound(txs.items, costcap, gascap)
    }

    constructor (strict: bool)
      ensures Valid() && fresh(txs) && txs.items == map[] && this.strict == strict && costcap == 0 && gascap == 0
    {
      this.strict := strict;
      txs := new SortedMap();
      costcap, gascap := 0, 0;
    }

    /** Add: a nonce already taken is only given up for a price higher by the bump. */
    method Add(tx: Tx, priceBump: nat) returns (ok: bool, replaced: Option<Tx>)
      requires Valid()
      modifies this, txs
      ensures Valid()
      ensures ok <==> tx.nonce !in old(txs.items) || Outbids(tx, old(txs.items)[tx.nonce], priceBump)
      ensures ok ==> txs.items == old(txs.items)[tx.nonce := tx]
      ensures ok ==> replaced == (if tx.nonce in old(txs.items) then Some(old(txs.items)[tx.nonce]) else None)
      ensures !ok ==> txs.items == old(txs.items) && replaced.None? && costcap == old(costcap) && gascap == old(gascap)
      ensures ok ==> costcap >= tx.value + tx.price * tx.gas && costcap >= old(costcap)
      ensures ok ==> costcap == old(costcap) || costcap == tx.value + tx.price * tx.gas
      ensures ok ==> gascap == if old(gascap) < tx.gas then tx.gas else old(gascap)
    {
      ok, replaced := true, None;
      if tx.nonce in txs.items {
        var prior := txs.items[tx.nonce];
        var threshold := prior.price * (100 + priceBump) / 100;
        if prior.price >= tx.price || threshold > tx.price {
          return false, None;
        }
        replaced := Some(prior);
      }
      txs.Put(tx);
      if costcap < tx.Cost() { costcap := tx.Cost(); }
      if gascap < tx.gas { gascap := tx.gas; }
    }

    /** Filter: what exceeds a limit leaves; in strict mode so does everything from the first
        violation on. */
    method Filter(costLimit: nat, gasLimit: uint64) returns (removed: seq<Tx>, invalids: seq<Tx>)
      requires Valid()
      modifies this, txs
      ensures Valid()
      ensures forall n <- txs.items :: txs.items[n].value <= costLimit && txs.items[n].gas <= gasLimit
      ensures forall tx <- removed :: tx.value > costLimit || tx.gas > gasLimit
      ensures old(costcap) <= costLimit && old(gascap) <= gasLimit ==>
        removed == [] && costcap == old(costcap) && gascap == old(gascap)
      ensures old(costcap) > costLimit || old(gascap) > gasLimit ==> costcap == costLimit && gascap == gasLimit
      ensures removed == [] ==> invalids == [] && txs.items == old(txs.items)
      ensures multiset(removed) == Gone(old(txs.items), Spared(old(txs.items), Violation(costLimit, gasLimit)))
      ensures multiset(removed) + multiset(invalids) == Gone(old(txs.items), txs.items)
      ensures !strict ==> txs.items == Spared(old(txs.items), Violation(costLimit, gasLimit)) && invalids == []
      ensures strict ==> forall n: uint64 :: LowestViolation(old(txs.items), costLimit, gasLimit, n) ==>
        txs.items == Before(old(txs.items), n)
      ensures strict && Contiguous(old(txs.items)) ==> Contiguous(txs.items)
    {
      hide Indexed, SortedView, Contiguous, Keyed, Since, Before, CapsBound, Spared, Within, LowestViolation,
        Violation, Beyond, Gone;
      ghost var was := txs.items;
      invalids := [];
      if costcap <= costLimit && gascap <= gasLimit {
        ShortCircuitIsSound(was, costcap, gascap, costLimit, gasLimit);
        return [], [];
      }
      costcap, gascap := costLimit, gasLimit;
      removed := txs.Filter(Violation(costLimit, gasLimit));
      RemovedExceed(was, txs.items, costLimit, gasLimit, removed);
      SparedIsBound(was, costLimit, gasLimit);
      if strict && |removed| > 0 {
        var lowest := LowestNonce(removed);
        LowestOfRemoved(was, txs.items, costLimit, gasLimit, removed, lowest);
        ghost var mid := txs.items;
        invalids := txs.Filter(Beyond(lowest));
        StagesAddUp(was, mid, txs.items, Violation(costLimit, gasLimit), Beyond(lowest));
        StrictLeavesPrefix(was, costLimit, gasLimit, lowest);
        BeforeIsContiguous'(was, lowest);
      }
    }

    /** Remove: in strict mode everything above the removed nonce goes with it. */
    method Remove(tx: Tx) returns (ok: bool, invalids: seq<Tx>)
      requires Valid()
      modifies this, txs
      ensures Valid() && ok == (tx.nonce in old(txs.items))
      ensures !ok ==> txs.items == old(txs.items) && invalids == []
      ensures ok && !strict ==> txs.items == old(txs.items) - {tx.nonce} && invalids == []
      ensures ok && strict ==> txs.items == Before(old(txs.items), tx.nonce)
      ensures ok && strict ==> multiset(invalids) == multiset(Since(old(txs.items), tx.nonce + 1).Values)
      ensures strict && Contiguous(old(txs.items)) ==> Contiguous(txs.items)
    {
      hide Indexed, SortedView, Contiguous, Keyed, Since, Before, CapsBound, Spared, Within;
      ghost var was := txs.items;
      ok := txs.Remove(tx.nonce);
      invalids := [];
      PartsAreWithin(was, tx.nonce, tx.nonce);
      if ok && strict {
        ghost var mid := txs.items;
        invalids := txs.Filter(Beyond(tx.nonce));
        RemoveLeavesPrefix(was, tx.nonce);
        assert mid - txs.items.Keys == Since(was, tx.nonce + 1);
        BeforeIsContiguous'(was, tx.nonce);
      }
      if ok { CapsStay(was, txs.items, costcap, gascap); }
    }

    method Forward(threshold: uint64) returns (removed: seq<Tx>)
      requires Valid()
      modifies txs
      ensures Valid() && txs.items == Since(old(txs.items), threshold)
      ensures SortedView(Before(old(txs.items), threshold), removed)
      ensures Contiguous(old(txs.items)) ==> Contiguous(txs.items)
    {
      ghost var was := txs.items;
      removed := txs.Forward(threshold);
      BeforeIsContiguous'(was, threshold);
    }

    method Cap(threshold: nat) returns (drops: seq<Tx>)
      requires Valid()
      modifies txs
      ensures Valid() && TakenHigh(old(txs.items), txs.items, drops)
      ensures |txs.items| == if |old(txs.items)| <= threshold then |old(txs.items)| else threshold
      ensures Contiguous(old(txs.items)) ==> Contiguous(txs.items)
    {
      ghost var was := txs.items;
      drops := txs.Cap(threshold);
      if Contiguous(was) { LowPartIsContiguous(was, txs.items, drops); }
    }
  }

  lemma CapsStay(was: Items, items: Items, costcap: nat, gascap: uint64)
    requires CapsBound(was, costcap, gascap) && Within(items, was)
    ensures CapsBound(items, costcap, gascap)
  {
  }

  lemma PartsAreWithin(items: Items, t: int, n: uint64)
    ensures Within(Before(items, t), items) && Within(Since(items, t), items) && Within(items - {n}, items)
  {
  }

  lemma BeforeIsContiguous'(items: Items, t: int)
    ensures Contiguous(items) ==> Contiguous(Before(items, t)) && Contiguous(Since(items, t))
  {
    if Contiguous(items) { BeforeIsContiguous(items, t); }
  }

  lemma LowestOfRemoved(was: Items, rest: Items, costLimit: nat, gasLimit: uint64, removed: seq<Tx>, lowest: uint64)
    requires Keyed(was) && rest == Spared(was, Violation(costLimit, gasLimit)) && removed != []
    requires multiset(removed) == Gone(was, rest)
    requires (forall tx <- removed :: lowest <= tx.nonce) && exists tx <- removed :: tx.nonce == lowest
    ensures LowestViolation(was, costLimit, gasLimit, lowest)
  {
    TakenMembers(was, rest, removed);
  }

  lemma RemovedExceed(was: Items, rest: Items, costLimit: nat, gasLimit: uint64, removed: seq<Tx>)
    requires Keyed(was) && rest == Spared(was, Violation(costLimit, gasLimit)) && multiset(removed) == Gone(was, rest)
    ensures forall tx <- removed :: tx.value > costLimit || tx.gas > gasLimit
  {
    TakenMembers(was, rest, removed);
  }

  lemma SparedIsWithin(items: Items, drop: Tx -> bool)
    ensures Within(Spared(items, drop), items)
  {
  }

  /** What two filters remove one after the other is what is missing in the end. */
  lemma StagesAddUp(was: Items, mid: Items, end: Items, first: Tx -> bool, second: Tx -> bool)
    requires Keyed(was) && mid == Spared(was, first) && end == Spared(mid, second)
    ensures Gone(was, mid) + Gone(mid, end) == Gone(was, end)
  {
    SparedIsWithin(was, first);
    SparedIsWithin(mid, second);
    hide Spared;
    var a, b, c := was - mid.Keys, mid - end.Keys, was - end.Keys;
    ValuesUnion(a, b, c);
    assert a.Values !! b.Values;
    UnionCounts(a.Values, b.Values);
  }

  lemma ValuesUnion(a: Items, b: Items, c: Items)
    requires Within(a, c) && Within(b, c) && forall n <- c :: n in a || n in b
    ensures c.Values == a.Values + b.Values
  {
    forall tx | tx in c.Values ensures tx in a.Values + b.Values {
      var n :| n in c && c[n] == tx;
      if n in a { assert a[n] == tx; } else { assert b[n] == tx; }
    }
    forall tx | tx in a.Values ensures tx in c.Values {
      var n :| n in a && a[n] == tx;
      assert c[n] == tx;
    }
    forall tx | tx in b.Values ensures tx in c.Values {
      var n :| n in b && b[n] == tx;
      assert c[n] == tx;
    }
  }

  lemma UnionCounts(a: set<Tx>, b: set<Tx>)
    requires a !! b
    ensures multiset(a + b) == multiset(a) + multiset(b)
  {
  }

  lemma StrictLeavesPrefix(was: Items, costLimit: nat, gasLimit: uint64, lowest: uint64)
    requires Keyed(was) && LowestViolation(was, costLimit, gasLimit, lowest)
    ensures Spared(Spared(was, Violation(costLimit, gasLimit)), Beyond(lowest)) == Before(was, lowest)
    ensures CapsBound(Before(was, lowest), costLimit, gasLimit)
    ensures forall n <- Before(was, lowest) ::
      n in was && Before(was, lowest)[n] == was[n] && !Exceeds(was[n], costLimit, gasLimit)
    ensures forall n: uint64 :: LowestViolation(was, costLimit, gasLimit, n) ==> n == lowest
  {
  }

  lemma RemoveLeavesPrefix(was: Items, nonce: uint64)
    requires Keyed(was) && nonce in was
    ensures Spared(was - {nonce}, Beyond(nonce)) == Before(was, nonce)
    ensures (was - {nonce}) - Before(was, nonce).Keys == Since(was, nonce + 1)
  {
  }

  /** Strictly more, and more by priceBump percent, rounded down to whole units. */
  predicate Outbids(tx: Tx, prior: Tx, priceBump: nat) {
    tx.price > prior.price && 100 * tx.price + 100 > prior.price * (100 + priceBump)
  }
}
