/** The pool invariant that ties the global lookup to the per-account queues. */
module PoolConsistency {
  import opened Options
  import opened Ancestry
  import opened Transactions
  import opened TxQueues
  import opened FairEviction

  /** The lookup is exactly the union of the queues, each transaction under its sender. */
  ghost predicate Consistent(q: Queues, all: map<Hash, Tx>) {
    && (forall a <- q :: DistinctHashes(q[a]))
    && (forall a, tx :: a in q && tx in q[a] ==> Filed(all, a, tx))
    && (forall h <- all :: all[h].hash == h && all[h].sender in q && all[h] in q[all[h].sender])
  }

  ghost predicate Filed(all: map<Hash, Tx>, a: Address, tx: Tx) {
    tx.sender == a && tx.hash in all && all[tx.hash] == tx
  }

  /** Removing from one queue and from the lookup the same transactions. */
  lemma RemovalKeepsConsistency(q: Queues, all: map<Hash, Tx>, a: Address, rest: seq<Tx>, gone: set<Hash>)
    requires Consistent(q, all) && a in q && DistinctHashes(rest)
    requires forall tx :: tx in rest <==> tx in q[a] && tx.hash !in gone
    requires forall h <- gone :: h in all ==> all[h].sender == a
    ensures Consistent(q[a := rest], all - gone)
  {
    forall b, tx | b in q && tx in q[a := rest][b] ensures Filed(all - gone, b, tx) {
      assert tx in q[b] && Filed(all, b, tx);
    }
  }

  function HashAt(q: Queues, p: (Address, int)): Hash {
    if p in Places(q) then q[p.0][p.1].hash else ZERO_HASH
  }

  /** The pool holds as many transactions as its queues together. */
  lemma LookupCountsQueues(q: Queues, all: map<Hash, Tx>)
    requires Consistent(q, all)
    ensures |all| == Total(q)
  {
    var f := p => HashAt(q, p);
    forall p, r | p in Places(q) && r in Places(q) && f(p) == f(r) ensures p == r {
      assert Filed(all, p.0, q[p.0][p.1]) && Filed(all, r.0, q[r.0][r.1]);
    }
    forall h | h in all ensures exists p :: p in Places(q) && f(p) == h {
      var s := q[all[h].sender];
      var i :| 0 <= i < |s| && s[i] == all[h];
      assert (all[h].sender, i) in Places(q) && f((all[h].sender, i)) == h;
    }
    forall p | p in Places(q) ensures f(p) in all {
      assert Filed(all, p.0, q[p.0][p.1]);
    }
    BijectionSize(Places(q), all.Keys, f);
  }

  lemma {:induction false} BijectionSize<S, T>(s: set<S>, t: set<T>, f: S -> T)
    requires forall x, y :: x in s && y in s && f(x) == f(y) ==> x == y
    requires forall x <- s :: f(x) in t
    requires forall y <- t :: exists x :: x in s && f(x) == y
    ensures |s| == |t|
  {
    if s != {} {
      var x :| x in s;
      BijectionSize(s - {x}, t - {f(x)}, f);
    }
  }

  /** A queue with one more transaction at its end. */
  function Appended(q: Queues, tx: Tx): Queues {
    q[tx.sender := (if tx.sender in q then q[tx.sender] else []) + [tx]]
  }

  lemma AppendKeepsConsistency(q: Queues, all: map<Hash, Tx>, tx: Tx)
    requires Consistent(q, all) && tx.hash !in all
    ensures Consistent(Appended(q, tx), all[tx.hash := tx])
  {
    var q' := Appended(q, tx);
    if tx.sender in q {
      forall u | u in q[tx.sender] ensures u.hash != tx.hash {
        assert Filed(all, tx.sender, u);
      }
    }
    forall a, u | a in q' && u in q'[a] ensures Filed(all[tx.hash := tx], a, u) {
      assert u == tx || (a in q && u in q[a] && Filed(all, a, u));
    }
  }

  lemma EmptyQueueMayGo(q: Queues, all: map<Hash, Tx>, a: Address)
    requires Consistent(q, all) && a in q && q[a] == []
    ensures Consistent(q - {a}, all)
  {}

  /** A queue has a hash exactly when the lookup knows it, and then nothing is to be filed. */
  lemma KnownOrNew(q: Queues, all: map<Hash, Tx>, tx: Tx)
    requires Consistent(q, all) && (tx.hash in all ==> all[tx.hash] == tx)
    ensures tx.hash in all <==> tx.sender in q && exists u :: u in q[tx.sender] && u.hash == tx.hash
    ensures tx.hash in all ==> all[tx.hash := tx] == all
  {
    if tx.sender in q {
      forall u: Tx | u in q[tx.sender] && u.hash == tx.hash ensures tx.hash in all {
        assert Filed(all, tx.sender, u);
      }
    }
  }
}
