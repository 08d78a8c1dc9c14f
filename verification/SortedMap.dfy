/** The nonce-indexed transaction map: a hash map, a heap of its nonces and a lazily kept sorted
    slice, which together must behave like the map alone. */
module SortedMaps {
  import opened Options
  import opened Ancestry
  import opened Transactions
  import Heaps

  function NonceOf(n: uint64): int { n }

  function TxNonce(tx: Tx): int { tx.nonce }

  type Items = map<uint64, Tx>

  ghost predicate Keyed(items: Items) {
    forall n <- items :: items[n].nonce == n
  }

  /** The index is a heap holding every stored nonce exactly once. */
  ghost predicate Indexed(items: Items, index: seq<uint64>) {
    && Heaps.IsHeap(index, NonceOf)
    && multiset(index) == multiset(items.Keys)
  }

  /** Exactly the stored transactions, by rising nonce. */
  ghost predicate SortedView(items: Items, c: seq<Tx>) {
    && multiset(c) == multiset(items.Values)
    && Heaps.Ascending(c, TxNonce)
  }

  /** The part of the map from nonce t on. */
  ghost function Since(items: Items, t: int): Items {
    map n | n in items && n >= t :: items[n]
  }

  ghost function Before(items: Items, t: int): Items {
    map n | n in items && n < t :: items[n]
  }

  /** What a filter leaves in place. */
  ghost function Spared(items: Items, drop: Tx -> bool): Items {
    map n | n in items && !drop(items[n]) :: items[n]
  }

  /** The transactions of `was` that `items` no longer holds. */
  ghost function Gone(was: Items, items: Items): multiset<Tx> {
    multiset((was - items.Keys).Values)
  }

  lemma ValuesWithout(items: Items, n: uint64)
    requires Keyed(items) && n in items
    ensures Keyed(items - {n}) && (items - {n}).Values == items.Values - {items[n]}
    ensures (items - {n}).Keys == items.Keys - {n}
  {
    var rest := items - {n};
    forall tx | tx in items.Values - {items[n]} ensures tx in rest.Values {
      var m :| m in items && items[m] == tx;
      assert m in rest && rest[m] == tx;
    }
    forall tx | tx in rest.Values ensures tx in items.Values - {items[n]} {
      var m :| m in rest && rest[m] == tx;
    }
  }

  lemma SetMinusOne<T>(s: set<T>, x: T)
    requires x in s
    ensures multiset(s - {x}) == multiset(s) - multiset{x}
    ensures multiset(s) == multiset(s - {x}) + multiset{x}
  {
  }

  /** Membership in a sorted view is membership in the map. */
  lemma ViewMembers(items: Items, c: seq<Tx>, n: uint64)
    requires Keyed(items) && multiset(c) == multiset(items.Values)
    ensures n in items ==> items[n] in c
    ensures forall tx <- c :: tx.nonce in items && items[tx.nonce] == tx
  {
    if n in items {
      assert items[n] in items.Values;
      assert items[n] in multiset(c);
    }
    forall tx | tx in c ensures tx.nonce in items && items[tx.nonce] == tx {
      assert tx in multiset(c);
      var m :| m in items && items[m] == tx;
    }
  }

  lemma ViewMinusOne(items: Items, c: seq<Tx>, n: uint64, c': seq<Tx>)
    requires Keyed(items) && n in items && multiset(c) == multiset(items.Values)
    requires multiset(c) == multiset(c') + multiset{items[n]}
    ensures multiset(c') == multiset((items - {n}).Values)
  {
    ValuesWithout(items, n);
    assert items[n] in items.Values;
    SetMinusOne(items.Values, items[n]);
  }

  /** The first of the sorted transactions is the one with the least nonce. */
  lemma ViewStartsLeast(items: Items, c: seq<Tx>, n: uint64)
    requires Keyed(items) && SortedView(items, c) && n in items && forall m <- items :: n <= m
    ensures c != [] && c[0] == items[n] && SortedView(items - {n}, c[1..])
  {
    ViewMembers(items, c, n);
    assert c == [c[0]] + c[1..];
    assert c[0].nonce == n;
    ViewMinusOne(items, c, n, c[1..]);
  }

  /** The last of the sorted transactions is the one with the greatest nonce. */
  lemma ViewEndsGreatest(items: Items, c: seq<Tx>, n: uint64)
    requires Keyed(items) && SortedView(items, c) && n in items && forall m <- items :: m <= n
    ensures c != [] && c[|c| - 1] == items[n] && SortedView(items - {n}, c[..|c| - 1])
  {
    ViewMembers(items, c, n);
    assert c == c[..|c| - 1] + [c[|c| - 1]];
    assert c[|c| - 1].nonce == n;
    ViewMinusOne(items, c, n, c[..|c| - 1]);
  }

  /** There is only one such order. */
  lemma {:induction false} ViewIsUnique(items: Items, c: seq<Tx>, d: seq<Tx>)
    requires Keyed(items) && SortedView(items, c) && SortedView(items, d)
    ensures c == d
    decreases |items|
  {
    if |items| == 0 {
      assert items.Values == {};
      assert |multiset(c)| == 0 && |multiset(d)| == 0;
    } else {
      var n := Least(items);
      ViewStartsLeast(items, c, n);
      ViewStartsLeast(items, d, n);
      ValuesWithout(items, n);
      assert |items - {n}| < |items| by { assert |(items - {n}).Keys| == |items.Keys| - 1; }
      ViewIsUnique(items - {n}, c[1..], d[1..]);
    }
  }

  ghost function Least(items: Items): (n: uint64)
    requires |items| > 0
    ensures n in items && forall m <- items :: n <= m
  {
    assert items.Keys != {};
    LeastOf(items.Keys)
  }

  ghost function LeastOf(s: set<uint64>): (n: uint64)
    requires s != {}
    ensures n in s && forall m <- s :: n <= m
    decreases |s|
  {
    var x :| x in s;
    if s == {x} then x
    else
      assert s == (s - {x}) + {x};
      var y := LeastOf(s - {x}); if x < y then x else y
  }

  // --- the parts in plain terms ---

  /** A nonce is on exactly one side of a threshold, with its transaction. */
  lemma PartsMean(items: Items, t: int, n: uint64)
    ensures n in Since(items, t) <==> n in items && t <= n
    ensures n in Before(items, t) <==> n in items && n < t
    ensures n in items ==> (if n < t then Before(items, t)[n] else Since(items, t)[n]) == items[n]
  {
  }

  /** A sorted view holds each stored transaction once, by strictly rising nonce. */
  lemma ViewMeans(items: Items, c: seq<Tx>)
    requires Keyed(items) && SortedView(items, c)
    ensures forall i, j :: 0 <= i < j < |c| ==> c[i].nonce < c[j].nonce
    ensures forall n :: n in items ==> items[n] in c
    ensures forall tx <- c :: tx.nonce in items && items[tx.nonce] == tx
  {
    forall n: uint64 | n in items ensures items[n] in c { ViewMembers(items, c, n); }
    ViewMembers(items, c, 0);
    forall i, j | 0 <= i < j < |c| ensures c[i].nonce < c[j].nonce {
      assert TxNonce(c[i]) <= TxNonce(c[j]);
      if c[i].nonce == c[j].nonce {
        assert c[i] in c && c[j] in c && c[i] == c[j];
        TwiceInView(c, i, j);
      }
    }
  }

  lemma TwiceInView(c: seq<Tx>, i: nat, j: nat)
    requires i < j < |c| && c[i] == c[j]
    ensures multiset(c)[c[i]] >= 2
  {
    assert c == c[..i] + [c[i]] + c[i + 1..j] + [c[j]] + c[j + 1..];
  }

  // --- the index ---

  lemma IndexMembers(items: Items, index: seq<uint64>)
    requires multiset(index) == multiset(items.Keys)
    ensures forall n :: n in index <==> n in items
    ensures index == [] <==> items == map[]
    ensures |index| == |items|
  {
    assert |multiset(index)| == |multiset(items.Keys)|;
    forall n ensures n in index <==> n in items {
      assert n in multiset(index) <==> n in items.Keys;
    }
    if index == [] { assert items.Keys == {}; }
    if items == map[] { assert |multiset(index)| == 0; }
  }

  lemma RootIsLeast(items: Items, index: seq<uint64>)
    requires Indexed(items, index) && index != []
    ensures index[0] in items && forall m <- items :: index[0] <= m
  {
    IndexMembers(items, index);
    forall m | m in items ensures index[0] <= m {
      var j :| 0 <= j < |index| && index[j] == m;
      Heaps.RootIsLeast(index, NonceOf, j);
    }
  }

  lemma IndexMinusOne(items: Items, index: seq<uint64>, n: uint64, index': seq<uint64>)
    requires n in items && multiset(index) == multiset(items.Keys)
    requires multiset(index) == multiset(index') + multiset{n}
    ensures multiset(index') == multiset((items - {n}).Keys)
  {
    assert (items - {n}).Keys == items.Keys - {n};
    SetMinusOne(items.Keys, n);
  }

  lemma KeysGain(items: Items, tx: Tx)
    requires Keyed(items)
    ensures Keyed(items[tx.nonce := tx])
    ensures multiset(items[tx.nonce := tx].Keys) == multiset(items.Keys) +
      (if tx.nonce in items then multiset{} else multiset{tx.nonce})
  {
    var items' := items[tx.nonce := tx];
    assert items'.Keys == items.Keys + {tx.nonce};
    if tx.nonce !in items {
      SetMinusOne(items'.Keys, tx.nonce);
      assert items'.Keys - {tx.nonce} == items.Keys;
    }
  }

  // --- taking transactions out from the low end ---

  /** `taken` lists by rising nonce what `items` lacks of `was`, all below what is left. */
  ghost predicate TakenLow(was: Items, items: Items, taken: seq<Tx>) {
    && Keyed(was) && Within(items, was)
    && SortedView(was - items.Keys, taken)
    && AllBelow(taken, items)
  }

  ghost predicate AllBelow(taken: seq<Tx>, items: Items) {
    forall tx, n :: tx in taken && n in items ==> tx.nonce < n
  }

  ghost predicate AllAbove(taken: seq<Tx>, items: Items) {
    forall tx, n :: tx in taken && n in items ==> n < tx.nonce
  }

  ghost predicate Within(items: Items, was: Items) {
    forall n <- items :: n in was && was[n] == items[n]
  }

  lemma ValuesGain(was: Items, items: Items, n: uint64)
    requires Keyed(was) && Within(items, was) && n in items
    ensures Gone(was, items - {n}) == Gone(was, items) + multiset{items[n]}
  {
    var more, less := was - (items - {n}).Keys, was - items.Keys;
    assert more - {n} == less;
    ValuesWithout(more, n);
    assert more[n] in more.Values;
    SetMinusOne(more.Values, more[n]);
  }

  lemma TakeLeast(was: Items, items: Items, taken: seq<Tx>, n: uint64)
    requires TakenLow(was, items, taken) && n in items && forall m <- items :: n <= m
    ensures TakenLow(was, items - {n}, taken + [items[n]])
  {
    ValuesGain(was, items, n);
    SnocCounts(taken, items[n]);
    BelowSnoc(taken, items, n);
    AscendingSnoc(taken, items[n]);
    hide Heaps.Ascending, AllBelow, Keyed;
  }

  lemma SnocCounts(taken: seq<Tx>, tx: Tx)
    ensures multiset(taken + [tx]) == multiset(taken) + multiset{tx}
  {
  }

  lemma BelowSnoc(taken: seq<Tx>, items: Items, n: uint64)
    requires AllBelow(taken, items) && n in items && items[n].nonce == n && forall m <- items :: n <= m
    ensures AllBelow(taken + [items[n]], items - {n})
    ensures forall tx <- taken :: tx.nonce < n
  {
  }

  lemma AboveSnoc(taken: seq<Tx>, items: Items, n: uint64)
    requires AllAbove(taken, items) && n in items && items[n].nonce == n && forall m <- items :: m <= n
    ensures AllAbove(taken + [items[n]], items - {n})
    ensures forall tx <- taken :: tx.nonce > n
  {
  }

  lemma AscendingSnoc(c: seq<Tx>, tx: Tx)
    requires Heaps.Ascending(c, TxNonce) && forall t <- c :: t.nonce <= tx.nonce
    ensures Heaps.Ascending(c + [tx], TxNonce)
  {
    var d := c + [tx];
    forall i, j | 0 <= i < j < |d| ensures TxNonce(d[i]) <= TxNonce(d[j]) {
      if j == |c| { assert c[i] in c; }
    }
  }

  lemma TakeNothing(was: Items)
    requires Keyed(was)
    ensures TakenLow(was, was, [])
  {
    assert was - was.Keys == map[];
  }

  lemma TakenMembers(was: Items, items: Items, taken: seq<Tx>)
    requires Keyed(was) && Within(items, was) && multiset(taken) == Gone(was, items)
    ensures forall tx <- taken :: tx.nonce in was && tx.nonce !in items && was[tx.nonce] == tx
    ensures forall n <- was :: n in items || was[n] in taken
  {
    var gone := was - items.Keys;
    forall n | n in was && n !in items ensures was[n] in taken {
      ViewMembers(gone, taken, n);
    }
    forall tx | tx in taken ensures tx.nonce in was && tx.nonce !in items && was[tx.nonce] == tx {
      ViewMembers(gone, taken, tx.nonce);
    }
  }

  class SortedMap {
    var items: Items
    var index: seq<uint64>
    var cache: Option<seq<Tx>>

    /** The three representations agree. */
    ghost predicate Valid()
      reads this
    {
      && Keyed(items)
      && Indexed(items, index)
      && (cache.Some? ==> SortedView(items, cache.value))
    }

    constructor ()
      ensures Valid() && items == map[]
    {
      items, index, cache := map[], [], None;
    }

    method Put(tx: Tx)
      requires Valid()
      modifies this
      ensures Valid() && items == old(items)[tx.nonce := tx]
    {
      hide SortedView;
      var nonce := tx.nonce;
      if nonce !in items {
        index := Heaps.Push(index, NonceOf, nonce);
      }
      KeysGain(items, tx);
      items, cache := items[nonce := tx], None;
    }

    /** Takes the transaction with the least nonce off map and index. */
    method PopLeast(ghost was: Items, ghost taken: seq<Tx>) returns (tx: Tx)
      requires Keyed(items) && Indexed(items, index) && index != [] && TakenLow(was, items, taken)
      modifies `items, `index
      ensures Keyed(items) && Indexed(items, index) && TakenLow(was, items, taken + [tx])
      ensures tx.nonce == old(index)[0] && |items| < old(|items|)
      ensures forall c: seq<Tx> :: SortedView(old(items), c) ==> c != [] && SortedView(items, c[1..])
    {
      RootIsLeast(items, index);
      var nonce;
      ghost var before := items;
      nonce, index := Heaps.Pop(index, NonceOf);
      IndexMinusOne(items, old(index), nonce, index);
      TakeLeast(was, items, taken, nonce);
      tx := items[nonce];
      items := items - {nonce};
      hide SortedView, TakenLow, Indexed;
      assert |items| < old(|items|) by {
        assert items.Keys == before.Keys - {nonce};
        assert |items.Keys| < |before.Keys|;
      }
      forall c: seq<Tx> | SortedView(before, c) ensures c != [] && SortedView(items, c[1..]) {
        ViewStartsLeast(before, c, nonce);
      }
    }

    /** Forward: everything below the threshold leaves, by rising nonce; a cached order loses as many
        from its front. */
    method Forward(threshold: uint64) returns (removed: seq<Tx>)
      requires Valid()
      modifies this
      ensures Valid() && items == Since(old(items), threshold)
      ensures SortedView(Before(old(items), threshold), removed)
    {
      hide SortedView, Indexed;
      removed := [];
      ghost var was := items;
      TakeNothing(items);
      while NotEmpty(index) && index[0] < threshold
        invariant Keyed(items) && Indexed(items, index) && TakenLow(was, items, removed) && cache == old(cache)
        invariant forall tx <- removed :: tx.nonce < threshold
        invariant cache.Some? ==> |removed| <= |cache.value| && SortedView(items, cache.value[|removed|..])
        decreases |items|
      {
        var tx := PopLeast(was, removed);
        assert cache.Some? ==> cache.value[|removed|..][1..] == cache.value[|removed| + 1..];
        removed := removed + [tx];
      }
      if cache.Some? {
        cache := Some(cache.value[|removed|..]);
      }
      RootBounds(items, index, threshold);
      TookBefore(was, items, removed, threshold);
    }

    /** Ready: the longest unbroken run of nonces from the lowest one, if that is due. */
    method Ready(start: uint64) returns (ready: seq<Tx>)
      requires Valid()
      modifies this
      ensures Valid()
      ensures |old(items)| == 0 || Least(old(items)) > start ==> ready == [] && items == old(items)
      ensures |old(items)| > 0 && Least(old(items)) <= start ==> IsRun(old(items), Least(old(items)), ready, items)
    {
      hide SortedView, Indexed, Least, TakenLow, Keyed, IsRun;
      IndexMembers'(items, index);
      if !NotEmpty(index) || index[0] > start {
        if NotEmpty(index) { LeastIsRoot(items, index); }
        return [];
      }
      ready := [];
      ghost var was, lo := items, index[0];
      LeastIsRoot(items, index);
      TakeNothing(items);
      var next: uint64 := index[0];
      while NotEmpty(index) && index[0] == next
        invariant Keyed(items) && Indexed(items, index) && TakenLow(was, items, ready)
        invariant Numbered(lo, ready) && next == (lo + |ready|) % TWO_64
        invariant ready == [] ==> NotEmpty(index) && index[0] == lo
        decreases |items|
      {
        RunGoesOn(was, items, index, lo, ready);
        var tx := PopLeast(was, ready);
        NumberedSnoc(lo, ready, tx);
        ready := ready + [tx];
        next := (next + 1) % TWO_64;
      }
      cache := None;
      RunStops(was, items, index, lo, ready);
    }

    /** Filter: every transaction the test names leaves, in any order; only then are index and cache
        rebuilt. */
    method Filter(drop: Tx -> bool) returns (removed: seq<Tx>)
      requires Valid()
      modifies this
      ensures Valid() && items == Spared(old(items), drop)
      ensures forall n :: n in items <==> n in old(items) && !drop(old(items)[n])
      ensures multiset(removed) == Gone(old(items), items)
      ensures removed == [] <==> items == old(items)
      ensures removed == [] ==> cache == old(cache)
    {
      hide SortedView, Indexed;
      var rest;
      rest, removed := FilterItems(items, drop);
      if |removed| > 0 {
        index := Reindex(rest);
        cache := None;
        items := rest;
      }
    }

    /** Remove: deletes one nonce, wherever the index holds it. */
    method Remove(nonce: uint64) returns (ok: bool)
      requires Valid()
      modifies this
      ensures Valid() && ok == (nonce in old(items)) && items == old(items) - {nonce}
      ensures !ok ==> items == old(items) && cache == old(cache)
    {
      hide SortedView;
      ok := nonce in items;
      if ok {
        IndexMembers(items, index);
        var i := FindIndex(index, nonce);
        ghost var before := index;
        index := Heaps.Remove(index, NonceOf, i);
        IndexMinusOne(items, before, nonce, index);
        items := items - {nonce};
        cache := None;
      } else {
        assert items - {nonce} == items;
      }
    }

    /** Flatten: the sorted transactions, computed once and remembered. */
    method Flatten() returns (txs: seq<Tx>)
      requires Valid()
      modifies `cache
      ensures Valid() && SortedView(items, txs) && cache == Some(txs)
      ensures old(cache).Some? ==> cache == old(cache)
    {
      if cache.None? {
        var unsorted := ListValues(items);
        var sorted := Heaps.Sort(unsorted, TxNonce);
        cache := Some(sorted);
      }
      txs := cache.value;
    }

    /** Cap: the highest nonces above the limit leave, highest first; a cached order loses as many
        from its back. */
    method Cap(threshold: nat) returns (drops: seq<Tx>)
      requires Valid()
      modifies this
      ensures Valid()
      ensures |items| == if |old(items)| <= threshold then |old(items)| else threshold
      ensures TakenHigh(old(items), items, drops)
    {
      hide SortedView, Indexed;
      drops := [];
      HighNothing(items);
      if |items| <= threshold {
        return;
      }
      var sorted := SortIndex(items, index);
      assert cache.Some? ==> cache.value[..|cache.value|] == cache.value;
      items, drops := DropHighest(items, sorted, threshold, cache);
      index := InitIndex(items, sorted[..threshold]);
      if cache.Some? {
        cache := Some(cache.value[..|cache.value| - |drops|]);
      }
    }
  }

  ghost predicate Numbered(lo: nat, s: seq<Tx>) {
    forall i :: 0 <= i < |s| ==> s[i].nonce == lo + i
  }

  lemma NumberedSnoc(lo: nat, s: seq<Tx>, tx: Tx)
    requires Numbered(lo, s) && tx.nonce == lo + |s|
    ensures Numbered(lo, s + [tx])
  {
  }

  /** `run` is the unbroken run of `was` from nonce lo, as long as possible, and `rest` what is left. */
  ghost predicate IsRun(was: Items, lo: nat, run: seq<Tx>, rest: Items) {
    && run != [] && Numbered(lo, run)
    && SortedView(Before(was, lo + |run|), run)
    && rest == Since(was, lo + |run|)
    && (lo + |run| < TWO_64 ==> lo + |run| !in was)
  }

  /** In plain terms: position i of the run is the transaction with nonce lo + i, the nonce after the
      run is free, and exactly the nonces from there on are left. */
  lemma RunMeans(was: Items, lo: nat, run: seq<Tx>, rest: Items)
    requires Keyed(was) && IsRun(was, lo, run, rest)
    ensures run != [] && lo + |run| <= TWO_64
    ensures forall i :: 0 <= i < |run| ==> run[i].nonce == lo + i
    ensures forall tx <- run :: tx.nonce in was && was[tx.nonce] == tx
    ensures lo + |run| < TWO_64 ==> lo + |run| !in was
    ensures forall n: uint64 :: n in rest <==> n in was && lo + |run| <= n
    ensures forall n <- rest :: rest[n] == was[n]
  {
    ViewMembers(Before(was, lo + |run|), run, 0);
    assert run[|run| - 1].nonce == lo + |run| - 1;
  }

  lemma IndexMembers'(items: Items, index: seq<uint64>)
    requires Indexed(items, index)
    ensures index == [] <==> |items| == 0
  {
    IndexMembers(items, index);
  }

  lemma LeastIsRoot(items: Items, index: seq<uint64>)
    requires Indexed(items, index) && index != []
    ensures |items| > 0 && Least(items) == index[0]
  {
    IndexMembers(items, index);
    RootIsLeast(items, index);
  }

  lemma RootBounds(items: Items, index: seq<uint64>, t: int)
    requires Indexed(items, index) && (index != [] ==> index[0] >= t)
    ensures forall n <- items :: n >= t
  {
    IndexMembers(items, index);
    if index != [] { RootIsLeast(items, index); }
  }

  lemma AboveRun(was: Items, items: Items, lo: nat, run: seq<Tx>)
    requires TakenLow(was, items, run) && Numbered(lo, run) && run != []
    ensures forall n <- items :: n >= lo + |run|
    ensures lo + |run| <= TWO_64
  {
    assert run[|run| - 1] in run;
  }

  lemma RunGoesOn(was: Items, items: Items, index: seq<uint64>, lo: nat, run: seq<Tx>)
    requires TakenLow(was, items, run) && Indexed(items, index) && index != []
    requires Numbered(lo, run) && index[0] == (lo + |run|) % TWO_64
    requires run == [] ==> index[0] == lo
    ensures index[0] == lo + |run|
  {
    if run != [] {
      RootIsLeast(items, index);
      AboveRun(was, items, lo, run);
    }
  }

  lemma RunStops(was: Items, items: Items, index: seq<uint64>, lo: nat, run: seq<Tx>)
    requires TakenLow(was, items, run) && Indexed(items, index) && run != [] && Numbered(lo, run)
    requires index != [] ==> index[0] != (lo + |run|) % TWO_64
    ensures IsRun(was, lo, run, items)
  {
    hide SortedView, Keyed, TakenLow, Indexed;
    AboveRun(was, items, lo, run);
    forall tx | tx in run ensures tx.nonce < lo + |run| {
      var i :| 0 <= i < |run| && run[i] == tx;
    }
    TookBefore(was, items, run, lo + |run|);
    RootAbove(items, index, lo + |run|);
  }

  lemma RootAbove(items: Items, index: seq<uint64>, t: nat)
    requires Indexed(items, index) && (forall n <- items :: n >= t) && t <= TWO_64
    requires index != [] ==> index[0] != t % TWO_64
    ensures t < TWO_64 ==> t !in items
  {
    IndexMembers(items, index);
    if index != [] { RootIsLeast(items, index); }
  }

  predicate NotEmpty<T(==)>(s: seq<T>) { s != [] }

  lemma TookBefore(was: Items, items: Items, taken: seq<Tx>, t: int)
    requires TakenLow(was, items, taken) && forall n <- items :: n >= t
    requires forall tx <- taken :: tx.nonce < t
    ensures items == Since(was, t) && SortedView(Before(was, t), taken)
  {
    TakenMembers(was, items, taken);
    hide SortedView;
    forall n | n in was ensures n in items <==> n >= t {
      assert n !in items ==> was[n] in taken;
    }
    SplitAt(was, items, t);
  }

  lemma SplitAt(was: Items, items: Items, t: int)
    requires Within(items, was) && forall n <- was :: n in items <==> n >= t
    ensures items == Since(was, t) && was - items.Keys == Before(was, t)
  {
    var gone, low := was - items.Keys, Before(was, t);
    assert gone.Keys == low.Keys;
    assert forall n <- gone :: gone[n] == low[n];
  }

  /** The scan of Filter has decided about all but the nonces still to do. */
  ghost predicate Filtered(items: Items, drop: Tx -> bool, todo: set<uint64>, rest: Items, removed: seq<Tx>) {
    && Within(rest, items) && todo <= rest.Keys
    && multiset(removed) == Gone(items, rest)
    && (forall n <- items :: n in todo || (n in rest <==> !drop(items[n])))
    && (removed == [] ==> rest == items)
  }

  lemma FilterOut(items: Items, drop: Tx -> bool, todo: set<uint64>, rest: Items, removed: seq<Tx>, n: uint64)
    requires Keyed(items) && Filtered(items, drop, todo, rest, removed) && n in todo && drop(items[n])
    ensures Filtered(items, drop, todo - {n}, rest - {n}, removed + [items[n]])
  {
    ValuesGain(items, rest, n);
    SnocCounts(removed, items[n]);
    hide Gone, Keyed;
    WithinShrinks(rest, items, n);
    hide Within;
  }

  lemma WithinShrinks(items: Items, was: Items, n: uint64)
    requires Within(items, was)
    ensures Within(items - {n}, was)
  {
  }

  lemma FilterDone(items: Items, drop: Tx -> bool, rest: Items, removed: seq<Tx>)
    requires Keyed(items) && Filtered(items, drop, {}, rest, removed)
    ensures Keyed(rest) && rest == Spared(items, drop) && (rest == items ==> removed == [])
  {
    if rest == items {
      assert items - rest.Keys == map[];
      assert |multiset(removed)| == 0;
    }
  }

  /** The scan of Filter over the map, in arbitrary order. */
  method FilterItems(items: Items, drop: Tx -> bool) returns (rest: Items, removed: seq<Tx>)
    requires Keyed(items)
    ensures Keyed(rest) && rest == Spared(items, drop)
    ensures multiset(removed) == Gone(items, rest)
    ensures removed == [] <==> rest == items
  {
    rest, removed := items, [];
    var todo := items.Keys;
    assert items - items.Keys == map[];
    while todo != {}
      invariant todo <= items.Keys && Filtered(items, drop, todo, rest, removed)
    {
      var n :| n in todo;
      if drop(items[n]) {
        FilterOut(items, drop, todo, rest, removed, n);
        removed := removed + [items[n]];
        rest := rest - {n};
      }
      todo := todo - {n};
    }
    FilterDone(items, drop, rest, removed);
  }

  /** The index built anew from the map. */
  method Reindex(items: Items) returns (index: seq<uint64>)
    ensures Indexed(items, index)
  {
    index := [];
    var todo := items.Keys;
    while todo != {}
      invariant todo <= items.Keys && multiset(index) + multiset(todo) == multiset(items.Keys)
    {
      var n :| n in todo;
      SetMinusOne(todo, n);
      todo := todo - {n};
      index := index + [n];
    }
    index := InitIndex(items, index);
  }

  method InitIndex(items: Items, s: seq<uint64>) returns (index: seq<uint64>)
    requires multiset(s) == multiset(items.Keys)
    ensures Indexed(items, index)
  {
    index := Heaps.Init(s, NonceOf);
  }

  method FindIndex(index: seq<uint64>, nonce: uint64) returns (i: nat)
    requires nonce in index
    ensures i < |index| && index[i] == nonce
  {
    i := 0;
    while index[i] != nonce
      invariant 0 <= i < |index| && nonce !in index[..i]
      decreases |index| - i
    {
      i := i + 1;
    }
  }

  method ListValues(items: Items) returns (c: seq<Tx>)
    requires Keyed(items)
    ensures multiset(c) == multiset(items.Values)
  {
    c := [];
    var rest := items;
    assert items - items.Keys == map[];
    while rest.Keys != {}
      invariant Within(rest, items)
      invariant multiset(c) == Gone(items, rest)
      decreases |rest.Keys|
    {
      var n :| n in rest.Keys;
      ValuesGain(items, rest, n);
      c := c + [rest[n]];
      assert (rest - {n}).Keys == rest.Keys - {n};
      rest := rest - {n};
    }
    assert items - rest.Keys == items;
  }

  method SortIndex(items: Items, index: seq<uint64>) returns (sorted: seq<uint64>)
    requires Indexed(items, index)
    ensures Heaps.Ascending(sorted, NonceOf) && |sorted| == |items| && sorted[..|items|] == sorted
    ensures multiset(sorted) == multiset(items.Keys)
  {
    IndexMembers(items, index);
    sorted := Heaps.Sort(index, NonceOf);
  }

  // --- taking transactions out from the high end ---

  /** `taken` lists by falling nonce what `items` lacks of `was`, all above what is left. */
  ghost predicate TakenHigh(was: Items, items: Items, taken: seq<Tx>) {
    && Keyed(was) && Within(items, was)
    && multiset(taken) == Gone(was, items)
    && Falling(taken)
    && AllAbove(taken, items)
  }

  /** In plain terms: what is left is what was there, what was taken is not left, and everything taken
      has a higher nonce than anything left. */
  lemma HighMeans(was: Items, items: Items, taken: seq<Tx>, n: uint64)
    requires TakenHigh(was, items, taken)
    ensures n in items ==> n in was && was[n] == items[n]
    ensures n in was && n !in items ==> was[n] in taken
    ensures forall tx <- taken :: tx.nonce in was && was[tx.nonce] == tx && tx.nonce !in items
    ensures forall i, j :: 0 <= i < j < |taken| ==> taken[i].nonce > taken[j].nonce
    ensures n in items ==> forall tx <- taken :: n < tx.nonce
  {
    TakenMembers(was, items, taken);
  }

  ghost predicate Falling(s: seq<Tx>) {
    forall i, j :: 0 <= i < j < |s| ==> s[i].nonce > s[j].nonce
  }

  lemma HighNothing(was: Items)
    requires Keyed(was)
    ensures TakenHigh(was, was, [])
  {
    assert was - was.Keys == map[];
  }

  lemma TakeGreatest(was: Items, items: Items, taken: seq<Tx>, n: uint64)
    requires TakenHigh(was, items, taken) && n in items && forall m <- items :: m <= n
    ensures TakenHigh(was, items - {n}, taken + [items[n]]) && Keyed(items)
  {
    ValuesGain(was, items, n);
    SnocCounts(taken, items[n]);
    AboveSnoc(taken, items, n);
    FallingSnoc(taken, items[n]);
    hide Falling, AllAbove;
  }

  lemma FallingSnoc(c: seq<Tx>, tx: Tx)
    requires Falling(c) && forall t <- c :: t.nonce > tx.nonce
    ensures Falling(c + [tx])
  {
    var d := c + [tx];
    forall i, j | 0 <= i < j < |d| ensures d[i].nonce > d[j].nonce {
      if j == |c| { assert c[i] in c; }
    }
  }

  /** A cached order, cut by k from its back, is the order of the items. */
  ghost predicate CutView(items: Items, cache: Option<seq<Tx>>, k: nat) {
    cache.Some? ==> k <= |cache.value| && SortedView(items, cache.value[..|cache.value| - k])
  }

  lemma CutOneMore(items: Items, cache: Option<seq<Tx>>, k: nat, n: uint64)
    requires Keyed(items) && CutView(items, cache, k) && n in items && forall m <- items :: m <= n
    ensures CutView(items - {n}, cache, k + 1)
  {
    if cache.Some? {
      var c := cache.value;
      ViewEndsGreatest(items, c[..|c| - k], n);
      assert c[..|c| - k][..|c| - k - 1] == c[..|c| - (k + 1)];
    }
  }

  /** The loop of Cap over the sorted index, from its end. */
  method DropHighest(items: Items, sorted: seq<uint64>, threshold: nat, ghost cache: Option<seq<Tx>>)
    returns (rest: Items, drops: seq<Tx>)
    requires Keyed(items) && Heaps.Ascending(sorted, NonceOf) && multiset(sorted) == multiset(items.Keys)
    requires threshold < |items| == |sorted| && CutView(items, cache, 0)
    ensures Keyed(rest) && |rest| == threshold && multiset(sorted[..threshold]) == multiset(rest.Keys)
    ensures TakenHigh(items, rest, drops) && CutView(rest, cache, |drops|)
  {
    hide CutView, Heaps.Ascending, TakenHigh;
    rest, drops := items, [];
    HighNothing(items);
    var size := |items|;
    assert sorted[..size] == sorted;
    while size > threshold
      invariant threshold <= size <= |sorted| && |drops| == |sorted| - size
      invariant Keyed(rest) && multiset(sorted[..size]) == multiset(rest.Keys)
      invariant TakenHigh(items, rest, drops) && CutView(rest, cache, |drops|)
    {
      LastIsGreatest(rest, sorted, size);
      var nonce := sorted[size - 1];
      SortedMinusLast(rest, sorted, size);
      TakeGreatest(items, rest, drops, nonce);
      CutOneMore(rest, cache, |drops|, nonce);
      drops := drops + [rest[nonce]];
      rest := rest - {nonce};
      size := size - 1;
    }
    IndexMembers(rest, sorted[..threshold]);
  }

  lemma SortedMinusLast(items: Items, sorted: seq<uint64>, size: nat)
    requires 0 < size <= |sorted| && multiset(sorted[..size]) == multiset(items.Keys) && sorted[size - 1] in items
    ensures multiset(sorted[..size - 1]) == multiset((items - {sorted[size - 1]}).Keys)
  {
    assert sorted[..size] == sorted[..size - 1] + [sorted[size - 1]];
    IndexMinusOne(items, sorted[..size], sorted[size - 1], sorted[..size - 1]);
  }

  lemma LastIsGreatest(items: Items, sorted: seq<uint64>, size: nat)
    requires Heaps.Ascending(sorted, NonceOf) && 0 < size <= |sorted|
    requires multiset(sorted[..size]) == multiset(items.Keys)
    ensures sorted[size - 1] in items && forall m <- items :: m <= sorted[size - 1]
  {
    IndexMembers(items, sorted[..size]);
    assert sorted[..size][size - 1] == sorted[size - 1];
    forall m | m in items ensures m <= sorted[size - 1] {
      var j :| 0 <= j < size && sorted[..size][j] == m;
      assert NonceOf(sorted[j]) <= NonceOf(sorted[size - 1]) || j == size - 1;
    }
  }
}
