/** The price heap over the pool: entries of dropped transactions stay behind as stale ones and are
    swept lazily, yet every answer must be about the live transactions only. */
module PricedLists {
  import opened Ancestry
  import opened Transactions
  import Heaps

  type Lookup = map<Hash, Tx>

  /** Cheapest first, and among equal prices the highest nonce first. */
  function Rank(tx: Tx): int {
    tx.price * TWO_64 + (TWO_64 - 1 - tx.nonce)
  }

  lemma RankIsOrder(a: Tx, b: Tx)
    ensures Rank(a) < Rank(b) <==> a.price < b.price || (a.price == b.price && a.nonce > b.nonce)
    ensures Rank(a) <= Rank(b) ==> a.price <= b.price
  {
    if a.price < b.price { assert (a.price + 1) * TWO_64 <= b.price * TWO_64; }
    if a.price > b.price { assert (b.price + 1) * TWO_64 <= a.price * TWO_64; }
  }

  ghost predicate Keyed(all: Lookup) {
    forall h <- all :: all[h].hash == h
  }

  ghost predicate AllStale(all: Lookup, stale: multiset<Tx>) {
    forall tx <- stale :: tx.hash !in all
  }

  /** The heap holds every live transaction once, and besides them only stale entries, which the
      counter counts. */
  ghost predicate Tracks(all: Lookup, items: seq<Tx>, stale: multiset<Tx>, stales: int) {
    && Keyed(all)
    && Heaps.IsHeap(items, Rank)
    && multiset(items) == multiset(all.Values) + stale
    && AllStale(all, stale)
    && stales == |stale|
  }

  /** What every history keeps, also when a dropped transaction is added again before its old entry is
      swept: every live transaction is in the heap, and an entry with a live hash is that transaction. */
  ghost predicate Covers(all: Lookup, items: seq<Tx>) {
    && Keyed(all)
    && Heaps.IsHeap(items, Rank)
    && (forall h <- all :: all[h] in items)
    && (forall tx <- items :: tx.hash in all ==> all[tx.hash] == tx)
  }

  lemma TrackingCovers(all: Lookup, items: seq<Tx>, stale: multiset<Tx>, stales: int)
    requires Tracks(all, items, stale, stales)
    ensures Covers(all, items)
  {
    hide Heaps.IsHeap;
    forall h | h in all ensures all[h] in items {
      LiveIsInHeap(all, items, stale, stales, h);
    }
    forall tx | tx in items ensures tx.hash in all ==> all[tx.hash] == tx {
      assert tx in multiset(items);
      LiveEntry(all, multiset(items), stale, tx);
    }
  }

  /** One entry leaves a bag and the part of it that held the entry. */
  lemma BagMinus(whole: multiset<Tx>, rest: multiset<Tx>, a: multiset<Tx>, b: multiset<Tx>, x: Tx)
    requires whole == rest + multiset{x} && whole == a + b && x in b
    ensures rest == a + (b - multiset{x})
  {
    forall y ensures rest[y] == (a + (b - multiset{x}))[y] {
      assert whole[y] == (rest + multiset{x})[y];
    }
  }

  /** The number of heap entries absent from the lookup. */
  function CountStale(all: Lookup, items: seq<Tx>): nat {
    if items == [] then 0 else (if items[0].hash in all then 0 else 1) + CountStale(all, items[1..])
  }

  lemma {:induction false} CountStaleIsStale(all: Lookup, items: seq<Tx>, live: multiset<Tx>, stale: multiset<Tx>)
    requires multiset(items) == live + stale && AllStale(all, stale) && forall tx <- live :: tx.hash in all
    ensures CountStale(all, items) == |stale|
  {
    if items == [] {
      assert |multiset(items)| == 0;
    } else {
      var x := items[0];
      assert items == [x] + items[1..];
      assert x in multiset(items);
      if x.hash in all {
        assert x in live;
        BagMinus(multiset(items), multiset(items[1..]), stale, live, x);
        CountStaleIsStale(all, items[1..], live - multiset{x}, stale);
      } else {
        assert x in stale;
        BagMinus(multiset(items), multiset(items[1..]), live, stale, x);
        CountStaleIsStale(all, items[1..], live, stale - multiset{x});
      }
    }
  }

  /** The counter is the number of entries absent from the lookup. */
  lemma StalesCountsAbsentees(all: Lookup, items: seq<Tx>, stale: multiset<Tx>, stales: int)
    requires Tracks(all, items, stale, stales)
    ensures stales == CountStale(all, items)
  {
    forall tx | tx in multiset(all.Values) ensures tx.hash in all {
      assert tx in all.Values;
    }
    CountStaleIsStale(all, items, multiset(all.Values), stale);
  }

  lemma {:induction false} Parts(all: Lookup, items: seq<Tx>) returns (live: multiset<Tx>, stale: multiset<Tx>)
    ensures multiset(items) == live + stale && AllStale(all, stale) && forall tx <- live :: tx.hash in all
  {
    if items == [] {
      live, stale := multiset{}, multiset{};
    } else {
      assert items == [items[0]] + items[1..];
      live, stale := Parts(all, items[1..]);
      if items[0].hash in all { live := live + multiset{items[0]}; } else { stale := stale + multiset{items[0]}; }
    }
  }

  lemma CountIgnoresOrder(all: Lookup, a: seq<Tx>, b: seq<Tx>)
    requires multiset(a) == multiset(b)
    ensures CountStale(all, a) == CountStale(all, b)
  {
    var live, stale := Parts(all, a);
    CountStaleIsStale(all, a, live, stale);
    CountStaleIsStale(all, b, live, stale);
  }

  lemma {:induction false} ReviveCount(all: Lookup, items: seq<Tx>, tx: Tx)
    requires tx.hash !in all
    ensures CountStale(all[tx.hash := tx], items) <= CountStale(all, items)
    ensures CountStale(all[tx.hash := tx], items) == CountStale(all, items) <==> forall t <- items :: t.hash != tx.hash
  {
    if items != [] {
      assert items == [items[0]] + items[1..];
      ReviveCount(all, items[1..], tx);
    }
  }

  /** The counter stays right when a transaction enters exactly if no entry of an earlier life of it
      is still in the heap. */
  lemma PutCountsRightIff(all: Lookup, items: seq<Tx>, stale: multiset<Tx>, stales: int, tx: Tx, items': seq<Tx>)
    requires Tracks(all, items, stale, stales) && tx.hash !in all && multiset(items') == multiset(items) + multiset{tx}
    ensures stales == CountStale(all[tx.hash := tx], items') <==> forall t <- stale :: t.hash != tx.hash
  {
    StalesCountsAbsentees(all, items, stale, stales);
    assert multiset([tx] + items) == multiset(items');
    CountIgnoresOrder(all[tx.hash := tx], [tx] + items, items');
    assert ([tx] + items)[1..] == items;
    ReviveCount(all, items, tx);
    forall t | t in items ensures t.hash == tx.hash ==> t in stale {
      assert t in multiset(items);
      LiveEntry(all, multiset(items), stale, t);
    }
    forall t | t in stale ensures t in items { assert t in multiset(items); }
  }

  lemma LiveEntry(all: Lookup, bag: multiset<Tx>, stale: multiset<Tx>, x: Tx)
    requires Keyed(all) && bag == multiset(all.Values) + stale && AllStale(all, stale) && x in bag
    ensures x.hash in all ==> x in all.Values && all[x.hash] == x
    ensures x.hash !in all ==> x in stale
  {
    if x.hash in all { assert x !in stale; assert x in all.Values; }
    if x.hash !in all { assert x !in all.Values; }
  }

  lemma StaleMinusOne(all: Lookup, stale: multiset<Tx>, x: Tx)
    requires AllStale(all, stale) && x in stale
    ensures AllStale(all, stale - multiset{x}) && |stale - multiset{x}| == |stale| - 1
  {
  }

  /** Every live transaction is in the heap, so a non-empty pool has a non-empty heap. */
  lemma LiveIsInHeap(all: Lookup, items: seq<Tx>, stale: multiset<Tx>, stales: int, h: Hash)
    requires Tracks(all, items, stale, stales) && h in all
    ensures all[h] in items
  {
    assert all[h] in all.Values;
    assert all[h] in multiset(items);
  }

  /** Underpriced's sweep: stale entries leave the root until it is live. */
  method SweepRoot(all: Lookup, items: seq<Tx>, ghost stale: multiset<Tx>, stales: int)
    returns (items': seq<Tx>, ghost stale': multiset<Tx>, stales': int)
    requires Covers(all, items)
    ensures Covers(all, items')
    ensures Tracks(all, items, stale, stales) ==> Tracks(all, items', stale', stales')
    ensures items' == [] <==> all == map[]
    ensures items' != [] ==> items'[0].hash in all && all[items'[0].hash] == items'[0]
  {
    hide Tracks, Heaps.IsHeap;
    items', stale', stales' := items, stale, stales;
    while items' != [] && items'[0].hash !in all
      invariant Covers(all, items')
      invariant Tracks(all, items, stale, stales) ==> Tracks(all, items', stale', stales')
      decreases |items'|
    {
      var x;
      ghost var before, bag, count := items', stale', stales';
      x, items' := Heaps.Pop(items', Rank);
      stales' := stales' - 1;
      stale' := stale' - multiset{x};
      PopKeepsCover(all, before, x, items');
      if Tracks(all, before, bag, count) {
        PopKeepsTrack(all, before, bag, count, x, items');
      }
    }
    if all != map[] {
      var h :| h in all;
      assert all[h] in items';
    }
  }

  lemma PopKeepsCover(all: Lookup, items: seq<Tx>, x: Tx, items': seq<Tx>)
    requires Covers(all, items) && x.hash !in all && Heaps.IsHeap(items', Rank)
    requires multiset(items) == multiset(items') + multiset{x}
    ensures Covers(all, items')
  {
    hide Heaps.IsHeap;
    forall h | h in all ensures all[h] in items' {
      assert all[h] in multiset(items);
    }
    forall tx | tx in items' ensures tx in items {
      assert tx in multiset(items);
    }
  }

  lemma PopKeepsTrack(all: Lookup, items: seq<Tx>, stale: multiset<Tx>, stales: int, x: Tx, items': seq<Tx>)
    requires Tracks(all, items, stale, stales) && x.hash !in all && Heaps.IsHeap(items', Rank)
    requires multiset(items) == multiset(items') + multiset{x}
    ensures Tracks(all, items', stale - multiset{x}, stales - 1)
  {
    hide Heaps.IsHeap;
    LiveEntry(all, multiset(items), stale, x);
    StaleMinusOne(all, stale, x);
    BagMinus(multiset(items), multiset(items'), multiset(all.Values), stale, x);
  }

  // --- popping the worst transactions ---

  /** The heap, the transactions set aside and those to drop are together the live ones and the
      stale entries not yet swept. */
  ghost predicate Bags(all: Lookup, items: seq<Tx>, save: seq<Tx>, drop: seq<Tx>, stale: multiset<Tx>, stales: int) {
    && Keyed(all)
    && multiset(items) + (multiset(save) + multiset(drop)) == multiset(all.Values) + stale
    && AllStale(all, stale) && stales == |stale|
  }

  /** Besides, what is to be dropped ranks no higher than what is still in the heap. */
  ghost predicate Splits(all: Lookup, items: seq<Tx>, save: seq<Tx>, drop: seq<Tx>, stale: multiset<Tx>, stales: int) {
    && Bags(all, items, save, drop, stale, stales)
    && Heaps.IsHeap(items, Rank)
    && forall x, y :: x in drop && y in items ==> Rank(x) <= Rank(y)
  }

  /** Pops the least entry and accounts for it: swept if stale, else handed over. */
  method PopNext(all: Lookup, items: seq<Tx>, ghost save: seq<Tx>, ghost drop: seq<Tx>, ghost stale: multiset<Tx>,
                 stales: int)
    returns (x: Tx, live: bool, items': seq<Tx>, ghost stale': multiset<Tx>, stales': int)
    requires Splits(all, items, save, drop, stale, stales) && items != []
    ensures |items'| < |items| && live == (x.hash in all)
    ensures live ==> Splits(all, items', save + [x], drop, stale', stales')
    ensures live ==> Splits(all, items', save, drop + [x], stale', stales')
    ensures !live ==> Splits(all, items', save, drop, stale', stales')
    ensures live ==> all[x.hash] == x && forall y <- items' :: Rank(x) <= Rank(y)
  {
    x, items' := Heaps.Pop(items, Rank);
    live := x.hash in all;
    stale', stales' := stale, stales;
    PopParts(all, items, save, drop, stale, stales, x, items');
    if !live {
      stales' := stales - 1;
      stale' := stale - multiset{x};
    }
  }

  lemma PopParts(all: Lookup, items: seq<Tx>, save: seq<Tx>, drop: seq<Tx>, stale: multiset<Tx>, stales: int, x: Tx,
                 items': seq<Tx>)
    requires Splits(all, items, save, drop, stale, stales)
    requires multiset(items) == multiset(items') + multiset{x} && Heaps.IsHeap(items', Rank)
    requires forall y <- items :: Rank(x) <= Rank(y)
    ensures forall y <- items' :: Rank(x) <= Rank(y)
    ensures x.hash in all ==> all[x.hash] == x && Splits(all, items', save + [x], drop, stale, stales)
    ensures x.hash in all ==> Splits(all, items', save, drop + [x], stale, stales)
    ensures x.hash !in all ==> Splits(all, items', save, drop, stale - multiset{x}, stales - 1)
  {
    assert forall y <- items' :: y in multiset(items);
    var whole := multiset(items) + (multiset(save) + multiset(drop));
    LiveEntry(all, whole, stale, x);
    if x.hash !in all {
      StaleMinusOne(all, stale, x);
      BagMinus(whole, multiset(items') + (multiset(save) + multiset(drop)), multiset(all.Values), stale, x);
    } else {
      assert multiset(items') + (multiset(save + [x]) + multiset(drop)) == whole;
      assert multiset(items') + (multiset(save) + multiset(drop + [x])) == whole;
    }
  }

  method PushBack(items: seq<Tx>, save: seq<Tx>) returns (items': seq<Tx>)
    requires Heaps.IsHeap(items, Rank)
    ensures Heaps.IsHeap(items', Rank) && multiset(items') == multiset(items) + multiset(save)
  {
    hide Heaps.IsHeap;
    items' := items;
    for i := 0 to |save|
      invariant Heaps.IsHeap(items', Rank) && multiset(items') == multiset(items) + multiset(save[..i])
    {
      items' := Heaps.Push(items', Rank, save[i]);
      assert save[..i + 1] == save[..i] + [save[i]];
    }
    assert save[..|save|] == save;
  }

  /** Entries that stand for live transactions. */
  ghost predicate AllLive(all: Lookup, txs: seq<Tx>) {
    forall tx <- txs :: tx.hash in all && all[tx.hash] == tx
  }

  ghost predicate Remote(local: set<Address>, txs: seq<Tx>) {
    forall tx <- txs :: tx.sender !in local
  }

  ghost predicate Known(local: set<Address>, txs: seq<Tx>) {
    forall tx <- txs :: tx.sender in local
  }

  /** Where a live transaction is while the heap is being emptied. */
  lemma LiveIsSomewhere(all: Lookup, items: seq<Tx>, save: seq<Tx>, drop: seq<Tx>, stale: multiset<Tx>, stales: int,
                        h: Hash)
    requires Bags(all, items, save, drop, stale, stales) && h in all
    ensures all[h] in items || all[h] in save || all[h] in drop
  {
    assert all[h] in all.Values;
    assert all[h] in multiset(items) + (multiset(save) + multiset(drop));
  }

  /** A live transaction is dropped at most once, and then it is no longer in the heap. */
  lemma DroppedOnce(all: Lookup, items: seq<Tx>, save: seq<Tx>, drop: seq<Tx>, stale: multiset<Tx>, stales: int, tx: Tx)
    requires Bags(all, items, save, drop, stale, stales) && AllLive(all, drop) && tx in drop
    ensures multiset(drop)[tx] == 1 && tx !in items && tx !in save
  {
    assert tx !in stale;
    assert (multiset(all.Values) + stale)[tx] == 1 by { assert tx in all.Values; }
    assert (multiset(items) + (multiset(save) + multiset(drop)))[tx] == 1;
    assert tx in multiset(drop);
    assert tx in items ==> tx in multiset(items);
    assert tx in save ==> tx in multiset(save);
  }

  ghost function Without(all: Lookup, drop: seq<Tx>): Lookup {
    map h | h in all && h !in Hashes(drop) :: all[h]
  }

  /** Once the dropped transactions leave the lookup as well, heap and counter are right again. */
  lemma ForgettingRestores(all: Lookup, items: seq<Tx>, drop: seq<Tx>, stale: multiset<Tx>, stales: int)
    requires Bags(all, items, [], drop, stale, stales) && Heaps.IsHeap(items, Rank) && AllLive(all, drop)
    ensures Tracks(Without(all, drop), items, stale, stales)
  {
    var all' := Without(all, drop);
    forall y ensures multiset(items)[y] == (multiset(all'.Values) + stale)[y] {
      assert (multiset(items) + (multiset([]) + multiset(drop)))[y] == (multiset(all.Values) + stale)[y];
      if y in drop {
        DroppedOnce(all, items, [], drop, stale, stales, y);
        assert y.hash in Hashes(drop);
        assert y !in all'.Values;
      } else {
        StaysLive(all, drop, y);
      }
    }
  }

  lemma StaysLive(all: Lookup, drop: seq<Tx>, y: Tx)
    requires Keyed(all) && AllLive(all, drop) && y !in drop
    ensures y in all.Values <==> y in Without(all, drop).Values
  {
    var all' := Without(all, drop);
    if y in all.Values {
      assert all[y.hash] == y;
      assert y.hash in all' && all'[y.hash] == y;
    }
    if y in all'.Values {
      var h :| h in all' && all'[h] == y;
      assert all[h] == y;
    }
  }

  /** The `count` worst of the live transactions that are not local, or all of them if fewer. */
  ghost predicate IsWorst(all: Lookup, local: set<Address>, count: nat, drop: seq<Tx>) {
    && AllLive(all, drop) && Remote(local, drop)
    && (forall tx <- drop :: multiset(drop)[tx] == 1)
    && |drop| <= count
    && (forall h <- all :: all[h].sender !in local && all[h] !in drop ==>
      |drop| == count && forall tx <- drop :: Rank(tx) <= Rank(all[h]))
  }

  lemma DroppedAreWorst(all: Lookup, items: seq<Tx>, save: seq<Tx>, drop: seq<Tx>, stale: multiset<Tx>, stales: int,
                        local: set<Address>, count: nat)
    requires Splits(all, items, save, drop, stale, stales) && AllLive(all, drop) && Remote(local, drop)
    requires Known(local, save)
    requires |drop| <= count && (items == [] || |drop| == count)
    ensures IsWorst(all, local, count, drop)
  {
    forall tx | tx in drop ensures multiset(drop)[tx] == 1 {
      DroppedOnce(all, items, save, drop, stale, stales, tx);
    }
    forall h | h in all && all[h].sender !in local && all[h] !in drop
      ensures |drop| == count && forall tx <- drop :: Rank(tx) <= Rank(all[h])
    {
      LiveIsSomewhere(all, items, save, drop, stale, stales, h);
    }
  }

  /** Exactly the live transactions below the threshold that are not local. */
  ghost predicate IsCheap(all: Lookup, local: set<Address>, threshold: nat, drop: seq<Tx>) {
    && AllLive(all, drop)
    && (forall tx <- drop :: multiset(drop)[tx] == 1)
    && forall h <- all :: all[h] in drop <==> all[h].sender !in local && all[h].price < threshold
  }

  lemma SplitStart(all: Lookup, items: seq<Tx>, stale: multiset<Tx>, stales: int, local: set<Address>)
    requires Tracks(all, items, stale, stales)
    ensures Splits(all, items, [], [], stale, stales) && AllLive(all, []) && Remote(local, []) && Known(local, [])
  {
  }

  /** A popped live transaction may be set aside if local, dropped if remote. */
  lemma Classify(all: Lookup, local: set<Address>, save: seq<Tx>, drop: seq<Tx>, x: Tx)
    requires AllLive(all, drop) && Remote(local, drop) && Known(local, save) && x.hash in all && all[x.hash] == x
    ensures x.sender in local ==> Known(local, save + [x])
    ensures x.sender !in local ==> AllLive(all, drop + [x]) && Remote(local, drop + [x])
  {
  }

  lemma ValuesGain(all: Lookup, tx: Tx)
    requires Keyed(all) && tx.hash !in all
    ensures Keyed(all[tx.hash := tx])
    ensures multiset(all[tx.hash := tx].Values) == multiset(all.Values) + multiset{tx}
  {
    var all' := all[tx.hash := tx];
    forall y ensures y in all'.Values <==> y in all.Values || y == tx {
      if y in all.Values { var h :| h in all && all[h] == y; assert all'[h] == y; }
      if y == tx { assert all'[tx.hash] == y; }
    }
    assert tx !in all.Values;
    assert all'.Values == all.Values + {tx};
  }

  lemma OneGoesStale(all: Lookup, items: seq<Tx>, stale: multiset<Tx>, stales: int, h: Hash)
    requires Tracks(all, items, stale, stales) && h in all
    ensures Tracks(all - {h}, items, stale + multiset{all[h]}, stales + 1) && Keyed(all - {h})
  {
    var all' := all - {h};
    assert all'[h := all[h]] == all;
    ValuesGain(all', all[h]);
  }

  lemma RebuiltTracks(all: Lookup, items: seq<Tx>)
    requires Keyed(all) && Heaps.IsHeap(items, Rank) && multiset(items) == multiset(all.Values)
    ensures Tracks(all, items, multiset{}, 0)
  {
  }

  lemma PutTracks(all: Lookup, items: seq<Tx>, stale: multiset<Tx>, stales: int, tx: Tx, items': seq<Tx>)
    requires Tracks(all, items, stale, stales) && tx.hash !in all && forall t <- stale :: t.hash != tx.hash
    requires Heaps.IsHeap(items', Rank) && multiset(items') == multiset(items) + multiset{tx}
    ensures Tracks(all[tx.hash := tx], items', stale, stales)
  {
    hide Heaps.IsHeap;
    ValuesGain(all, tx);
  }

  method ListLive(all: Lookup) returns (live: seq<Tx>)
    requires Keyed(all)
    ensures multiset(live) == multiset(all.Values)
  {
    live := [];
    var todo, done := all.Keys, map[];
    while todo != {}
      invariant todo <= all.Keys && done == map h | h in all && h !in todo :: all[h]
      invariant Keyed(done) && multiset(live) == multiset(done.Values)
    {
      var h :| h in todo;
      ValuesGain(done, all[h]);
      live := live + [all[h]];
      done := done[h := all[h]];
      todo := todo - {h};
    }
    assert done == all;
  }

  /** A live root has the least price of all live transactions. */
  lemma RootIsCheapest(all: Lookup, items: seq<Tx>)
    requires Covers(all, items) && items != []
    ensures forall h <- all :: items[0].price <= all[h].price
  {
    forall h | h in all ensures items[0].price <= all[h].price {
      var j :| 0 <= j < |items| && items[j] == all[h];
      Heaps.RootIsLeast(items, Rank, j);
      RankIsOrder(items[0], items[j]);
    }
  }

  lemma PutCovers(all: Lookup, items: seq<Tx>, tx: Tx, items': seq<Tx>)
    requires Covers(all, items) && tx.hash !in all && forall t <- items :: t.hash == tx.hash ==> t == tx
    requires Heaps.IsHeap(items', Rank) && multiset(items') == multiset(items) + multiset{tx}
    ensures Covers(all[tx.hash := tx], items')
  {
    hide Heaps.IsHeap;
    var all' := all[tx.hash := tx];
    forall h | h in all' ensures all'[h] in items' {
      if h == tx.hash {
        assert tx in multiset(items');
      } else {
        assert all[h] in multiset(items);
        assert all[h] in multiset(items');
      }
    }
    forall t | t in items' ensures t in items || t == tx {
      assert t in multiset(items');
    }
  }

  ghost predicate CheapRemote(local: set<Address>, threshold: nat, txs: seq<Tx>) {
    forall tx <- txs :: tx.sender !in local && tx.price < threshold
  }

  ghost predicate Spared(local: set<Address>, threshold: nat, txs: seq<Tx>) {
    forall tx <- txs :: tx.sender in local || tx.price >= threshold
  }

  lemma CheapStart(local: set<Address>, threshold: nat)
    ensures CheapRemote(local, threshold, []) && Spared(local, threshold, [])
  {
  }

  lemma CheapNext(all: Lookup, local: set<Address>, threshold: nat, save: seq<Tx>, drop: seq<Tx>, x: Tx)
    requires AllLive(all, drop) && CheapRemote(local, threshold, drop) && Spared(local, threshold, save)
    requires x.hash in all && all[x.hash] == x
    ensures x.sender in local || x.price >= threshold ==> Spared(local, threshold, save + [x])
    ensures x.sender !in local && x.price < threshold ==>
      AllLive(all, drop + [x]) && CheapRemote(local, threshold, drop + [x])
  {
  }

  lemma PricesFrom(items: seq<Tx>, x: Tx, threshold: nat)
    requires x.price >= threshold && forall y <- items :: Rank(x) <= Rank(y)
    ensures forall y <- items :: y.price >= threshold
  {
    forall y | y in items ensures y.price >= threshold {
      RankIsOrder(x, y);
    }
  }

  lemma DroppedAreCheap(all: Lookup, items: seq<Tx>, save: seq<Tx>, drop: seq<Tx>, stale: multiset<Tx>, stales: int,
                        local: set<Address>, threshold: nat)
    requires Splits(all, items, save, drop, stale, stales) && AllLive(all, drop)
    requires CheapRemote(local, threshold, drop) && Spared(local, threshold, save)
    requires forall y <- items :: y.price >= threshold
    ensures IsCheap(all, local, threshold, drop)
  {
    forall tx | tx in drop ensures multiset(drop)[tx] == 1 {
      DroppedOnce(all, items, save, drop, stale, stales, tx);
    }
    forall h | h in all ensures all[h] in drop <==> all[h].sender !in local && all[h].price < threshold {
      LiveIsSomewhere(all, items, save, drop, stale, stales, h);
    }
  }

  class PricedList {
    var all: Lookup
    var items: seq<Tx>
    var stales: int
    ghost var stale: multiset<Tx>

    /** Holds in every history. */
    ghost predicate Valid()
      reads this
    {
      Covers(all, items)
    }

    /** Holds as long as no dropped transaction is added again before its old entry is swept. */
    ghost predicate Exact()
      reads this
    {
      Tracks(all, items, stale, stales)
    }

    constructor ()
      ensures Valid() && Exact() && all == map[] && items == [] && stales == 0 && stale == multiset{}
    {
      all, items, stales, stale := map[], [], 0, multiset{};
    }

    /** A transaction enters the pool. Entries of an earlier life of it may still be in the heap; if
        there are none the counter stays exact. */
    method Put(tx: Tx)
      requires Valid() && tx.hash !in all && forall t <- items :: t.hash == tx.hash ==> t == tx
      modifies this
      ensures Valid() && all == old(all)[tx.hash := tx] && stale == old(stale) && stales == old(stales)
      ensures multiset(items) == multiset(old(items)) + multiset{tx} && |items| == |old(items)| + 1
      ensures old(Exact()) && (forall t <- stale :: t.hash != tx.hash) ==> Exact()
    {
      hide Tracks;
      ghost var before := items;
      items := Heaps.Push(items, Rank, tx);
      PutCovers(all, before, tx, items);
      if Tracks(all, before, stale, stales) && forall t <- stale :: t.hash != tx.hash {
        PutTracks(all, before, stale, stales, tx, items);
      }
      all := all[tx.hash := tx];
    }

    /** A transaction leaves the pool: its entry goes stale, and past a quarter the heap is rebuilt
        from the lookup, which makes the counter exact again. */
    method Remove(h: Hash)
      requires Valid() && h in all
      modifies this
      ensures Valid() && all == old(all) - {h}
      ensures old(stales) + 1 <= |old(items)| / 4 ==>
        items == old(items) && stales == old(stales) + 1 && stale == old(stale) + multiset{old(all)[h]}
      ensures old(stales) + 1 > |old(items)| / 4 ==> Exact() && stales == 0
      ensures old(Exact()) ==> Exact()
    {
      hide Heaps.IsHeap, Tracks;
      if Exact() {
        OneGoesStale(all, items, stale, stales, h);
      }
      stale := stale + multiset{all[h]};
      all := all - {h};
      stales := stales + 1;
      if stales <= |items| / 4 {
        return;
      }
      var live := ListLive(all);
      items := Heaps.Init(live, Rank);
      stales, stale := 0, multiset{};
      RebuiltTracks(all, items);
      TrackingCovers(all, items, stale, stales);
    }

    /** Underpriced: for a remote transaction and a non-empty pool, whether no live price is lower; in
        every history. */
    method Underpriced(tx: Tx, local: set<Address>) returns (r: bool)
      requires Valid()
      modifies this
      ensures Valid() && all == old(all) && (old(Exact()) ==> Exact())
      ensures tx.sender in local || all == map[] ==> !r
      ensures tx.sender !in local && all != map[] ==> (r <==> forall h <- all :: tx.price <= all[h].price)
    {
      hide Tracks, Heaps.IsHeap;
      if tx.sender in local {
        return false;
      }
      items, stale, stales := SweepRoot(all, items, stale, stales);
      if items == [] {
        return false;
      }
      RootIsCheapest(all, items);
      r := items[0].price >= tx.price;
    }

    /** Discard: pops until enough remote transactions are found; local ones go back. */
    method Discard(count: nat, local: set<Address>) returns (drop: seq<Tx>)
      requires Exact()
      modifies `items, `stales, `stale
      ensures IsWorst(all, local, count, drop)
      ensures Tracks(Without(all, drop), items, stale, stales)
    {
      hide Splits, Heaps.IsHeap, AllLive, Remote, Known;
      var save: seq<Tx> := [];
      drop := [];
      SplitStart(all, items, stale, stales, local);
      var left := count;
      while items != [] && left > 0
        invariant Splits(all, items, save, drop, stale, stales) && AllLive(all, drop) && Remote(local, drop)
        invariant Known(local, save)
        invariant |drop| + left == count
        decreases |items|
      {
        var x, live;
        x, live, items, stale, stales := PopNext(all, items, save, drop, stale, stales);
        if live {
          Classify(all, local, save, drop, x);
          if x.sender in local {
            save := save + [x];
          } else {
            drop := drop + [x];
            left := left - 1;
          }
        }
      }
      DroppedAreWorst(all, items, save, drop, stale, stales, local, count);
      Restore(save, drop);
    }

    /** Cap: pops what is below the threshold; local ones and the first at or above it go back. */
    method Cap(threshold: nat, local: set<Address>) returns (drop: seq<Tx>)
      requires Exact()
      modifies `items, `stales, `stale
      ensures IsCheap(all, local, threshold, drop)
      ensures Tracks(Without(all, drop), items, stale, stales)
    {
      hide Splits, Heaps.IsHeap, AllLive, CheapRemote, Spared;
      var save: seq<Tx> := [];
      drop := [];
      SplitStart(all, items, stale, stales, local);
      CheapStart(local, threshold);
      while items != []
        invariant Splits(all, items, save, drop, stale, stales) && AllLive(all, drop)
        invariant CheapRemote(local, threshold, drop) && Spared(local, threshold, save)
        decreases |items|
      {
        var x, live;
        x, live, items, stale, stales := PopNext(all, items, save, drop, stale, stales);
        if live {
          CheapNext(all, local, threshold, save, drop, x);
          if x.price >= threshold {
            save := save + [x];
            PricesFrom(items, x, threshold);
            break;
          }
          if x.sender in local {
            save := save + [x];
          } else {
            drop := drop + [x];
          }
        }
      }
      DroppedAreCheap(all, items, save, drop, stale, stales, local, threshold);
      Restore(save, drop);
    }

    /** The caller removes what was discarded from the lookup, without reporting it as stale. */
    method Forget(drop: seq<Tx>)
      requires Tracks(Without(all, drop), items, stale, stales)
      modifies `all
      ensures Valid() && Exact() && all == Without(old(all), drop)
    {
      TrackingCovers(Without(all, drop), items, stale, stales);
      hide Tracks, Covers;
      ghost var was := all;
      assert Without(was, []) == was;
      for i := 0 to |drop|
        invariant all == Without(was, drop[..i])
      {
        assert drop[..i + 1] == drop[..i] + [drop[i]];
        assert Hashes(drop[..i + 1]) == Hashes(drop[..i]) + {drop[i].hash};
        all := all - {drop[i].hash};
      }
      assert drop[..|drop|] == drop;
    }

    method Restore(save: seq<Tx>, ghost drop: seq<Tx>)
      requires Splits(all, items, save, drop, stale, stales) && AllLive(all, drop)
      modifies `items
      ensures Tracks(Without(all, drop), items, stale, stales)
    {
      hide Tracks, Heaps.IsHeap;
      items := PushBack(items, save);
      assert Bags(all, items, [], drop, stale, stales);
      ForgettingRestores(all, items, drop, stale, stales);
    }
  }

  function Sample(i: uint64): Tx {
    Tx(i, 0, i, 1, 0, 0)
  }

  /** The lookup holds samples below n, the first one among them, and no other hash is in the heap. */
  ghost predicate Filled(all: Lookup, items: seq<Tx>, n: nat) {
    && |items| == n
    && (n > 0 ==> 0 in all)
    && (forall h <- all :: h < n && h < TWO_64 && all[h] == Sample(h))
    && (forall tx <- items :: tx.hash < n)
  }

  lemma FilledGrows(all: Lookup, items: seq<Tx>, n: uint64, items': seq<Tx>)
    requires Filled(all, items, n) && |items'| == n + 1 && multiset(items') == multiset(items) + multiset{Sample(n)}
    ensures Filled(all[n := Sample(n)], items', n + 1)
  {
    forall tx | tx in items' ensures tx.hash < n + 1 {
      assert tx in multiset(items');
      assert tx in items || tx == Sample(n);
    }
  }

  method FiveEntries() returns (l: PricedList)
    ensures fresh(l) && l.Valid() && l.Exact() && l.stales == 0 && l.stale == multiset{} && Filled(l.all, l.items, 5)
  {
    l := new PricedList();
    hide Tracks, Covers;
    for i := 0 to 5
      invariant fresh(l) && l.Valid() && l.Exact() && l.stales == 0 && l.stale == multiset{}
      invariant Filled(l.all, l.items, i)
    {
      ghost var all, items := l.all, l.items;
      l.Put(Sample(i));
      FilledGrows(all, items, i, l.items);
    }
  }

  /** A reachable history in which the counter is wrong: five transactions enter, one leaves and
      enters again while its old entry is still in the heap. Underpriced is right all the same. */
  method AddedAgain() returns (l: PricedList)
    ensures fresh(l) && l.Valid() && l.stales != CountStale(l.all, l.items)
  {
    l := FiveEntries();
    ghost var was, listed := l.all, l.items;
    StaleIsSample(was, listed, l.stale, l.stales);
    hide Tracks, Covers, CountStale;
    l.Remove(0);
    ghost var all, items, stale, stales := l.all, l.items, l.stale, l.stales;
    assert Sample(0) in stale;
    l.Put(Sample(0));
    PutCountsRightIff(all, items, stale, stales, Sample(0), l.items);
  }

  lemma StaleIsSample(all: Lookup, items: seq<Tx>, stale: multiset<Tx>, stales: int)
    requires Tracks(all, items, stale, stales) && Filled(all, items, 5)
    ensures forall t <- items :: t.hash == 0 ==> t == Sample(0)
  {
    forall t | t in items && t.hash == 0 ensures t == Sample(0) {
      assert t in multiset(items);
      LiveEntry(all, multiset(items), stale, t);
    }
  }
}
