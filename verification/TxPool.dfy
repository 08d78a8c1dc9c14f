/** The transaction pool: one queue object per sender and a global lookup by hash. */
module TxPools {
  import opened Options
  import opened Ancestry
  import opened Transactions
  import opened TxQueues
  import opened FairEviction
  import opened PoolConsistency

  datatype AddResult = Added | TransactionRepeat | InsufficientFunds

  class TxPool {
    const accountSlots: nat
    const globalSlots: nat
    var queues: map<Address, TxQueue>
    var all: map<Hash, Tx>
    var locals: set<Address>

    /** The contents of the queues. */
    ghost var pending: Queues

    /** Every account has a queue object of its own, whose set, list and size agree with its contents. */
    ghost predicate Owns()
      reads `queues, `pending, queues.Values
    {
      && queues.Keys == pending.Keys
      && (forall a <- queues :: Holds(a))
      && (forall a, b :: a in queues && b in queues && a != b ==> queues[a] != queues[b])
    }

    ghost predicate Holds(a: Address)
      requires a in queues
      reads `queues, `pending, queues[a]
    {
      a in pending && queues[a].Valid() && queues[a].data == pending[a]
    }

    ghost predicate Valid()
      reads this, queues.Values
    {
      Owns() && Consistent(pending, all)
    }

    constructor (accountSlots: nat, globalSlots: nat)
      ensures Valid() && queues == map[] && pending == map[] && all == map[] && locals == {}
      ensures this.accountSlots == accountSlots && this.globalSlots == globalSlots
    {
      this.accountSlots, this.globalSlots := accountSlots, globalSlots;
      queues, pending, all, locals := map[], map[], map[], {};
    }

    // --- the queue objects ---

    function Len(a: Address): (n: int)
      requires Owns() && a in queues
      reads `queues, `pending, queues.Values
      ensures a in pending && n == |pending[a]|
    {
      assert Holds(a);
      queues[a].size
    }

    /** A copy of the transactions of one account. */
    function Get(a: Address): (txs: seq<Tx>)
      requires Owns() && a in queues
      reads `queues, `pending, queues.Values
      ensures a in pending && txs == pending[a]
    {
      assert Holds(a);
      queues[a].data
    }

    method RemoveFrom(a: Address, h: Hash)
      requires Owns() && a in queues
      modifies `pending, queues[a]
      ensures Owns() && old(a in pending) && pending == old(pending)[a := Kept(old(pending[a]), {h}, None)]
    {
      hide Kept;
      assert Holds(a);
      queues[a].Remove(h);
      pending := pending[a := queues[a].data];
      OthersStay(a);
    }

    method RemoveAllFrom(a: Address, txs: seq<Tx>)
      requires Owns() && a in queues
      modifies `pending, queues[a]
      ensures Owns() && old(a in pending) && pending == old(pending)[a := Kept(old(pending[a]), Hashes(txs), None)]
    {
      hide Kept;
      assert Holds(a);
      queues[a].RemoveTxs(txs);
      pending := pending[a := queues[a].data];
      OthersStay(a);
    }

    /** An operation on one queue object does not show in the others. */
    twostate lemma OthersStay(a: Address)
      requires old(Owns()) && queues == old(queues) && a in queues && Holds(a)
      requires old(a in pending) && pending == old(pending)[a := queues[a].data]
      requires forall b <- queues :: b != a ==> unchanged(queues[b])
      ensures Owns()
    {
      forall b | b in queues ensures Holds(b) {
        if b != a { assert old(Holds(b)); }
      }
    }

    /** The queue of an account is made when its first transaction comes. */
    method EnsureQueue(a: Address)
      requires Owns()
      modifies `queues, `pending
      ensures Owns() && a in queues && pending == old(pending)[a := if a in old(pending) then old(pending)[a] else []]
      ensures forall b <- queues :: if b in old(queues) then queues[b] == old(queues[b]) else fresh(queues[b])
    {
      if a !in queues {
        var q := new TxQueue();
        assert forall b <- queues :: Holds(b) && queues[b] != q;
        queues := queues[a := q];
        pending := pending[a := []];
        forall b | b in queues ensures Holds(b) {
          if b != a { assert old(Holds(b)); }
        }
      } else {
        assert Holds(a);
      }
    }

    method PutInto(a: Address, tx: Tx)
      requires Owns() && a in queues
      modifies `pending, queues[a]
      ensures Owns() && old(a in pending)
      ensures var txs := old(pending[a]);
        pending == old(pending)[a := if tx.hash in Hashes(txs) then txs else txs + [tx]]
    {
      assert Holds(a);
      queues[a].Put(tx.hash, tx);
      pending := pending[a := queues[a].data];
      OthersStay(a);
    }

    method DeleteQueue(a: Address)
      requires Owns()
      modifies `queues, `pending
      ensures Owns() && queues == old(queues) - {a} && pending == old(pending) - {a}
    {
      queues, pending := queues - {a}, pending - {a};
      forall b | b in queues ensures Holds(b) {
        assert old(Holds(b));
      }
    }

    // --- the pool operations ---

    /** Files a transaction under its sender unless it is already known. */
    method PromoteTx(tx: Tx) returns (added: bool)
      requires Valid() && (tx.hash in all ==> all[tx.hash] == tx)
      modifies `queues, `pending, `all, queues.Values
      ensures Valid() && forall q <- queues.Values :: q in old(queues.Values) || fresh(q)
      ensures added <==> tx.hash !in old(all)
      ensures pending == if added then Appended(old(pending), tx) else old(pending)
      ensures all == old(all)[tx.hash := tx]
    {
      hide Consistent, Owns;
      ghost var q0, all0 := pending, all;
      KnownOrNew(pending, all, tx);
      if tx.hash !in all {
        AppendKeepsConsistency(pending, all, tx);
      }
      EnsureQueue(tx.sender);
      PutInto(tx.sender, tx);
      FiledOrKnown(q0, all0, tx);
      assert pending == q0[tx.sender := pending[tx.sender]];
      if tx.hash in all {
        return false;
      }
      all := all[tx.hash := tx];
      return true;
    }

    /** add: refuses what the chain already has or what the sender cannot pay. */
    method Add(tx: Tx, local: bool, inChain: bool, balance: nat) returns (result: AddResult)
      requires Valid() && (tx.hash in all ==> all[tx.hash] == tx)
      modifies this, queues.Values
      ensures Valid()
      ensures result == if inChain then TransactionRepeat else if balance < tx.value then InsufficientFunds else Added
      ensures result.Added? && tx.hash !in old(all) ==>
        pending == Appended(old(pending), tx) && all == old(all)[tx.hash := tx]
      ensures !result.Added? || tx.hash in old(all) ==> pending == old(pending) && all == old(all)
      ensures locals == if result.Added? && local then old(locals) + {tx.sender} else old(locals)
    {
      hide Consistent;
      if inChain {
        return TransactionRepeat;
      }
      if balance < tx.value {
        return InsufficientFunds;
      }
      var _ := PromoteTx(tx);
      if local {
        locals := locals + {tx.sender};
      }
      return Added;
    }

    method RecoverTx(tx: Tx, local: bool) returns (added: bool)
      requires Valid() && (tx.hash in all ==> all[tx.hash] == tx)
      modifies this, queues.Values
      ensures Valid()
      ensures added <==> tx.hash !in old(all)
      ensures added ==> pending == Appended(old(pending), tx) && all == old(all)[tx.hash := tx]
      ensures !added ==> pending == old(pending) && all == old(all)
      ensures locals == if added && local then old(locals) + {tx.sender} else old(locals)
    {
      hide Consistent;
      if tx.hash in all {
        return false;
      }
      if local {
        locals := locals + {tx.sender};
      }
      added := PromoteTx(tx);
    }

    /** Removes one transaction everywhere; a queue left empty disappears. */
    method RemoveTx(hash: Hash)
      requires Valid()
      modifies `queues, `pending, `all, queues.Values
      ensures Valid()
      ensures all == old(all) - {hash}
      ensures hash !in old(all) ==> pending == old(pending)
      ensures hash in old(all) ==>
        var a := old(all)[hash].sender; a in old(pending) && var rest := Kept(old(pending)[a], {hash}, None);
        pending == if rest == [] then old(pending) - {a} else old(pending)[a := rest]
    {
      hide Owns;
      if hash !in all {
        return;
      }
      var a := all[hash].sender;
      assert a in queues by { AccountsMatch(); }
      ghost var q0, all0 := pending, all;
      all := all - {hash};
      RemoveFrom(a, hash);
      KeptMembers(q0[a], {hash}, None);
      KeptIsDistinct(q0[a], {hash}, None);
      RemovalKeepsConsistency(q0, all0, a, pending[a], {hash});
      if Len(a) == 0 {
        EmptyQueueMayGo(pending, all, a);
        DeleteQueue(a);
      }
    }

    lemma AccountsMatch()
      requires Owns()
      ensures queues.Keys == pending.Keys
    {
    }

    /** Drops the unpayable transactions of one queue from the queue and the lookup, walking a copy. */
    method DropUnpayable(a: Address, balance: nat)
      requires Owns() && a in queues && a in pending && DistinctHashes(pending[a])
      modifies `pending, `all, queues[a]
      ensures Owns() && old(a in pending) && pending == old(pending)[a := Kept(old(pending[a]), {}, Some(balance))]
      ensures all == old(all) - Unpaid(old(pending[a]), balance)
    {
      hide Kept, Unpaid, DistinctHashes, Owns, Swept;
      ghost var q0, all0 := pending, all;
      var txs := Get(a);
      var i := 0;
      SweepStart(txs, balance, all);
      while i < |txs|
        invariant 0 <= i <= |txs| && Owns() && a in pending && pending == q0[a := pending[a]]
        invariant Swept(txs, i, balance, pending[a], all0, all)
      {
        var tx := txs[i];
        SweepStep(txs, i, balance, pending[a], all0, all);
        if tx.value > balance {
          RemoveFrom(a, tx.hash);
          all := all - {tx.hash};
        }
        i := i + 1;
      }
      SweepEnd(txs, balance, pending[a], all0, all);
    }

    /** Demotes one account. */
    method DemoteAccount(a: Address, txs: seq<Tx>, balance: nat)
      requires Owns() && a in queues && a in pending && DistinctHashes(pending[a])
      modifies `queues, `pending, `all, queues[a]
      ensures Owns() && old(a in pending) && forall b <- queues :: b in old(queues) && queues[b] == old(queues[b])
      ensures var q := old(pending); var rest := Kept(q[a], Hashes(txs), Some(balance));
        pending == if q[a] == [] then q else if rest == [] then q - {a} else q[a := rest]
      ensures all == old(all) - Unpaid(Kept(old(pending[a]), Hashes(txs), None), balance)
    {
      hide Kept, DistinctHashes, Owns, Unpaid, Hashes;
      ghost var q0 := pending;
      if Len(a) == 0 {
        EmptyIsPaid(Hashes(txs), balance);
        return;
      }
      KeptIsDistinct(q0[a], Hashes(txs), None);
      KeptTwice(q0[a], Hashes(txs), {}, Some(balance));
      assert Hashes(txs) + {} == Hashes(txs);
      RemoveAllFrom(a, txs);
      DropUnpayable(a, balance);
      if Len(a) == 0 {
        DeleteQueue(a);
      }
    }

    /** Removes included and unpayable transactions from every account. */
    method DemoteUnexecutables(txs: seq<Tx>, balance: Address -> nat)
      requires Valid()
      modifies `queues, `pending, `all, queues.Values
      ensures Valid()
      ensures pending == Demoted(old(pending), Hashes(txs), balance)
      ensures all == Paid(old(all), Hashes(txs), balance)
    {
      ghost var q0, all0, gone := pending, all, Hashes(txs);
      AccountsMatch();
      hide Owns, Consistent, Kept, Unpaid, Demoted, Paid, PartlyDemoted, PartlyForgotten;
      PartlyAtStart(q0, all0, gone, balance);
      all := all - (set tx <- txs :: tx.hash);
      var todo := queues.Keys;
      while todo != {}
        invariant todo <= q0.Keys && Owns()
        invariant forall b <- queues :: b in old(queues) && queues[b] == old(queues[b])
        invariant pending == PartlyDemoted(q0, gone, balance, todo)
        invariant all == PartlyForgotten(all0, gone, balance, todo)
      {
        var a :| a in todo;
        AccountsMatch();
        PartlyHas(q0, gone, balance, todo, a);
        DemoteOne(q0, gone, balance, todo, a);
        ForgetOne(q0, all0, gone, balance, todo, a);
        DemoteAccount(a, txs, balance(a));
        todo := todo - {a};
      }
      DemotedIsConsistent(q0, all0, gone, balance);
    }
  }

  lemma EmptyIsPaid(gone: set<Hash>, balance: nat)
    ensures Unpaid(Kept([], gone, None), balance) == {}
  {}

  /** Putting a transaction into the queue of its sender files an unknown one and leaves a known one. */
  lemma FiledOrKnown(q: Queues, all: map<Hash, Tx>, tx: Tx)
    requires Consistent(q, all) && (tx.hash in all ==> all[tx.hash] == tx)
    ensures var before := if tx.sender in q then q[tx.sender] else [];
      q[tx.sender := if tx.hash in Hashes(before) then before else before + [tx]] ==
        if tx.hash in all then q else Appended(q, tx)
  {
    KnownOrNew(q, all, tx);
  }

  lemma MinusTwice<K, V>(m: map<K, V>, a: set<K>, b: set<K>)
    ensures m - a - b == m - (a + b)
  {}

  lemma DropMiddle(front: seq<Tx>, tx: Tx, back: seq<Tx>)
    requires DistinctHashes(front + [tx] + back)
    ensures Kept(front + [tx] + back, {tx.hash}, None) == front + back
  {
    var txs := front + [tx] + back;
    KeptWithoutOne(txs, |front|);
    assert txs[..|front|] == front && txs[|front| + 1..] == back;
  }

  /** The lookup after a demotion. */
  function Paid(all: map<Hash, Tx>, gone: set<Hash>, balance: Address -> nat): map<Hash, Tx> {
    map h | h in all && h !in gone && all[h].value <= balance(all[h].sender) :: all[h]
  }

  /** The queues after dropping gone and unpayable transactions; only queues that had
      something and lost it all disappear. */
  function Demoted(q: Queues, gone: set<Hash>, balance: Address -> nat): Queues {
    map a | a in q && (q[a] == [] || Kept(q[a], gone, Some(balance(a))) != []) :: Kept(q[a], gone, Some(balance(a)))
  }

  ghost function PartlyDemoted(q: Queues, gone: set<Hash>, balance: Address -> nat, todo: set<Address>): Queues {
    map a | a in q && (a in todo || q[a] == [] || Kept(q[a], gone, Some(balance(a))) != []) ::
      if a in todo then q[a] else Kept(q[a], gone, Some(balance(a)))
  }

  ghost function PartlyForgotten(all: map<Hash, Tx>, gone: set<Hash>, balance: Address -> nat,
                                 todo: set<Address>): map<Hash, Tx> {
    map h | h in all && h !in gone && (all[h].sender in todo || all[h].value <= balance(all[h].sender)) :: all[h]
  }

  ghost function Unpaid(txs: seq<Tx>, balance: nat): set<Hash> {
    set tx | tx in txs && tx.value > balance :: tx.hash
  }

  lemma UnpaidSnoc(txs: seq<Tx>, tx: Tx, balance: nat)
    ensures Unpaid(txs + [tx], balance) == Unpaid(txs, balance) + (if tx.value > balance then {tx.hash} else {})
  {}

  /** The sweep over a copy of the queue has come to position i. */
  ghost predicate Swept(txs: seq<Tx>, i: nat, balance: nat, rest: seq<Tx>, all0: map<Hash, Tx>, all: map<Hash, Tx>) {
    && i <= |txs| && rest == Kept(txs[..i], {}, Some(balance)) + txs[i..] && DistinctHashes(rest)
    && all == all0 - Unpaid(txs[..i], balance)
  }

  lemma SweepStart(txs: seq<Tx>, balance: nat, all: map<Hash, Tx>)
    requires DistinctHashes(txs)
    ensures Swept(txs, 0, balance, txs, all, all)
  {
    assert Unpaid(txs[..0], balance) == {};
  }

  lemma SweepStep(txs: seq<Tx>, i: nat, balance: nat, rest: seq<Tx>, all0: map<Hash, Tx>, all: map<Hash, Tx>)
    requires Swept(txs, i, balance, rest, all0, all) && i < |txs|
    ensures txs[i].value <= balance ==> Swept(txs, i + 1, balance, rest, all0, all)
    ensures txs[i].value > balance ==>
      Swept(txs, i + 1, balance, Kept(rest, {txs[i].hash}, None), all0, all - {txs[i].hash})
  {
    var tx := txs[i];
    var kept, back := Kept(txs[..i], {}, Some(balance)), txs[i + 1..];
    hide DistinctHashes;
    assert txs[..i + 1] == txs[..i] + [tx] && txs[i..] == [tx] + back;
    KeptSnoc(txs[..i], tx, {}, Some(balance));
    UnpaidSnoc(txs[..i], tx, balance);
    hide Kept, Unpaid;
    assert rest == kept + [tx] + back;
    DropMiddle(kept, tx, back);
    KeptIsDistinct(rest, {tx.hash}, None);
    MinusTwice(all0, Unpaid(txs[..i], balance), {tx.hash});
  }

  lemma SweepEnd(txs: seq<Tx>, balance: nat, rest: seq<Tx>, all0: map<Hash, Tx>, all: map<Hash, Tx>)
    requires Swept(txs, |txs|, balance, rest, all0, all)
    ensures rest == Kept(txs, {}, Some(balance)) && all == all0 - Unpaid(txs, balance)
  {
    assert txs[..|txs|] == txs && txs[|txs|..] == [];
  }

  lemma DemoteOne(q: Queues, gone: set<Hash>, balance: Address -> nat, todo: set<Address>, a: Address)
    requires a in todo && a in q
    ensures var p := PartlyDemoted(q, gone, balance, todo); var rest := Kept(q[a], gone, Some(balance(a)));
      PartlyDemoted(q, gone, balance, todo - {a}) ==
        if q[a] == [] then p else if rest == [] then p - {a} else p[a := rest]
  {}

  /** Forgetting one account's unpayable transactions. */
  lemma ForgetOne(q: Queues, all: map<Hash, Tx>, gone: set<Hash>, balance: Address -> nat, todo: set<Address>,
                  a: Address)
    requires Consistent(q, all) && a in todo && a in q
    ensures PartlyForgotten(all, gone, balance, todo - {a}) ==
      PartlyForgotten(all, gone, balance, todo) - Unpaid(Kept(q[a], gone, None), balance(a))
    ensures DistinctHashes(q[a])
  {
    var listed := Kept(q[a], gone, None);
    KeptMembers(q[a], gone, None);
    var unpaid := Unpaid(listed, balance(a));
    forall h | h in all && h !in gone
      ensures h in unpaid <==> all[h].sender == a && all[h].value > balance(a)
    {
      if h in unpaid {
        var tx :| tx in listed && tx.value > balance(a) && tx.hash == h;
        assert Filed(all, a, tx);
      }
    }
  }

  lemma PartlyAtStart(q: Queues, all: map<Hash, Tx>, gone: set<Hash>, balance: Address -> nat)
    requires Consistent(q, all)
    ensures PartlyDemoted(q, gone, balance, q.Keys) == q
    ensures PartlyForgotten(all, gone, balance, q.Keys) == all - gone
  {
  }

  /** An account still to be demoted has its old queue. */
  lemma PartlyHas(q: Queues, gone: set<Hash>, balance: Address -> nat, todo: set<Address>, a: Address)
    requires a in todo && a in q
    ensures a in PartlyDemoted(q, gone, balance, todo) && PartlyDemoted(q, gone, balance, todo)[a] == q[a]
  {
  }

  lemma DemotedIsConsistent(q: Queues, all: map<Hash, Tx>, gone: set<Hash>, balance: Address -> nat)
    requires Consistent(q, all)
    ensures PartlyDemoted(q, gone, balance, {}) == Demoted(q, gone, balance)
    ensures PartlyForgotten(all, gone, balance, {}) == Paid(all, gone, balance)
    ensures Consistent(Demoted(q, gone, balance), Paid(all, gone, balance))
  {
    var q', all' := Demoted(q, gone, balance), Paid(all, gone, balance);
    forall a | a in q'
      ensures DistinctHashes(q'[a]) && forall tx :: tx in q'[a] ==> Filed(all', a, tx)
    {
      KeptIsDistinct(q[a], gone, Some(balance(a)));
      KeptMembers(q[a], gone, Some(balance(a)));
      assert forall tx :: tx in q[a] ==> Filed(all, a, tx);
    }
    forall h | h in all' ensures all'[h].sender in q' && all'[h] in q'[all'[h].sender] {
      KeptMembers(q[all[h].sender], gone, Some(balance(all[h].sender)));
    }
  }

  /** After a demotion exactly the transactions are left that were not included and whose value is
      covered, and a queue is gone exactly when it had transactions and lost all of them. */
  lemma DemotedIsExecutable(q: Queues, gone: set<Hash>, balance: Address -> nat, a: Address, tx: Tx)
    requires a in q
    ensures a in Demoted(q, gone, balance) && tx in Demoted(q, gone, balance)[a] <==>
      tx in q[a] && tx.hash !in gone && tx.value <= balance(a)
    ensures a in Demoted(q, gone, balance) <==>
      q[a] == [] || exists u <- q[a] :: u.hash !in gone && u.value <= balance(a)
  {
    KeptMembers(q[a], gone, Some(balance(a)));
    var rest := Kept(q[a], gone, Some(balance(a)));
    if rest != [] {
      assert rest[0] in rest;
    }
  }
}
