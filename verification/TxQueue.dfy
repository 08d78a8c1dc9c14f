/** The insertion-ordered queue of one account's transactions. */
module TxQueues {
  import opened Options
  import opened Ancestry
  import opened Transactions

  ghost predicate DistinctHashes(txs: seq<Tx>) {
    forall i, j :: 0 <= i < j < |txs| ==> txs[i].hash != txs[j].hash
  }

  predicate Stays(tx: Tx, gone: set<Hash>, balance: Option<nat>) {
    tx.hash !in gone && (balance.Some? ==> tx.value <= balance.value)
  }

  /** The transactions that are not gone and whose value fits the balance, in order. */
  function Kept(txs: seq<Tx>, gone: set<Hash>, balance: Option<nat>): seq<Tx> {
    if txs == [] then []
    else
      var front, last := txs[..|txs| - 1], txs[|txs| - 1];
      if Stays(last, gone, balance) then Kept(front, gone, balance) + [last] else Kept(front, gone, balance)
  }

  lemma {:induction false} KeptMembers(txs: seq<Tx>, gone: set<Hash>, balance: Option<nat>)
    ensures forall tx :: tx in Kept(txs, gone, balance) <==>
      tx in txs && tx.hash !in gone && (balance.Some? ==> tx.value <= balance.value)
  {
    if txs != [] {
      KeptMembers(txs[..|txs| - 1], gone, balance);
      assert txs == txs[..|txs| - 1] + [txs[|txs| - 1]];
    }
  }

  lemma {:induction false} KeptIsDistinct(txs: seq<Tx>, gone: set<Hash>, balance: Option<nat>)
    requires DistinctHashes(txs)
    ensures DistinctHashes(Kept(txs, gone, balance)) && |Kept(txs, gone, balance)| <= |txs|
  {
    if txs != [] {
      var front, last := txs[..|txs| - 1], txs[|txs| - 1];
      KeptIsDistinct(front, gone, balance);
      KeptMembers(front, gone, balance);
      var r := Kept(front, gone, balance);
      assert forall i :: 0 <= i < |r| ==> r[i] in front;
    }
  }

  /** Filtering twice is filtering by both conditions. */
  lemma {:induction false} KeptTwice(txs: seq<Tx>, gone: set<Hash>, more: set<Hash>, balance: Option<nat>)
    ensures Kept(Kept(txs, gone, None), more, balance) == Kept(txs, gone + more, balance)
  {
    if txs != [] {
      var front, last := txs[..|txs| - 1], txs[|txs| - 1];
      KeptTwice(front, gone, more, balance);
      if Stays(last, gone, None) {
        KeptSnoc(Kept(front, gone, None), last, more, balance);
      }
    }
  }

  lemma KeptSnoc(txs: seq<Tx>, tx: Tx, gone: set<Hash>, balance: Option<nat>)
    ensures Kept(txs + [tx], gone, balance) ==
      Kept(txs, gone, balance) + if Stays(tx, gone, balance) then [tx] else []
  {
    assert (txs + [tx])[..|txs|] == txs;
  }

  lemma {:induction false} KeptSame(txs: seq<Tx>, gone: set<Hash>)
    requires forall tx <- txs :: tx.hash !in gone
    ensures Kept(txs, gone, None) == txs
  {
    if txs != [] {
      KeptSame(txs[..|txs| - 1], gone);
    }
  }

  /** With distinct hashes, dropping a hash removes its one occurrence. */
  lemma {:induction false} KeptWithoutOne(txs: seq<Tx>, i: nat)
    requires DistinctHashes(txs) && i < |txs|
    ensures Kept(txs, {txs[i].hash}, None) == txs[..i] + txs[i + 1..]
  {
    var front := txs[..|txs| - 1];
    if i == |txs| - 1 {
      KeptSame(front, {txs[i].hash});
    } else {
      KeptWithoutOne(front, i);
      assert front[..i] == txs[..i] && front[i + 1..] + [txs[|txs| - 1]] == txs[i + 1..];
    }
  }

  class TxQueue {
    var items: set<Hash>
    var data: seq<Tx>
    var size: int

    ghost predicate Valid()
      reads this
    {
      DistinctHashes(data) && items == Hashes(data) && size == |data|
    }

    constructor ()
      ensures Valid() && data == []
    {
      items, data, size := {}, [], 0;
    }

    method Put(h: Hash, tx: Tx)
      requires Valid() && h == tx.hash
      modifies this
      ensures Valid()
      ensures data == if h in Hashes(old(data)) then old(data) else old(data) + [tx]
    {
      if h in items {
        return;
      }
      data := data + [tx];
      items := items + {h};
      size := size + 1;
    }

    method Remove(h: Hash)
      requires Valid()
      modifies this
      ensures Valid() && data == Kept(old(data), {h}, None)
    {
      KeptIsDistinct(data, {h}, None);
      if h in items {
        items := items - {h};
        size := size - 1;
        var e := 0;
        while data[e].hash != h
          invariant 0 <= e < |data| && forall i :: 0 <= i < e ==> data[i].hash != h
          invariant exists i :: e <= i < |data| && data[i].hash == h
          decreases |data| - e
        {
          e := e + 1;
        }
        KeptWithoutOne(data, e);
        data := data[..e] + data[e + 1..];
      } else {
        KeptSame(data, {h});
      }
    }

    method RemoveTxs(txs: seq<Tx>)
      requires Valid()
      modifies this
      ensures Valid() && data == Kept(old(data), Hashes(txs), None)
    {
      KeptSame(data, Hashes(txs[..0]));
      var i := 0;
      while i < |txs|
        invariant 0 <= i <= |txs| && Valid() && data == Kept(old(data), Hashes(txs[..i]), None)
      {
        Remove(txs[i].hash);
        KeptTwice(old(data), Hashes(txs[..i]), {txs[i].hash}, None);
        assert Hashes(txs[..i + 1]) == Hashes(txs[..i]) + {txs[i].hash};
        i := i + 1;
      }
      assert txs[..i] == txs;
    }

    /** At most max transactions from the front; a non-positive max gives none. */
    method GetByCount(max: int) returns (txs: seq<Tx>, count: nat)
      requires Valid()
      ensures count == |txs| && txs <= data
      ensures count == if max <= 0 then 0 else if max < |data| then max else |data|
    {
      txs, count := [], 0;
      while count < |data| && count < max
        invariant 0 <= count <= |data| && txs == data[..count] && (count <= max || count == 0)
      {
        txs := txs + [data[count]];
        count := count + 1;
      }
    }
  }
}
