/** The header chain: a header table, a number-to-hash canonical index and a head.
    Reorganisations re-route only the part of the index that changed; ancestor queries
    trust the index instead of walking parents. */
module HeaderChains {
  import opened Options
  import opened Ancestry

  datatype WriteStatus = CanonStat | SideStat

  /** What a write to the chain means, without any shortcut. */
  datatype ChainState = ChainState(headers: Store, canonical: map<nat, Hash>, head: Header)

  datatype ChainOp =
    | Write(header: Header, coin: bool)
    | Roll(hashes: seq<Hash>)

  /** Higher numbers win, equal numbers are decided by the coin. */
  predicate Wins(header: Header, head: Header, coin: bool) {
    header.number > head.number || (header.number == head.number && coin)
  }

  /** The head left after withdrawing the listed hashes, newest last; none if the walk comes down to
      genesis and withdraws that too, where the node would use a nil header. */
  function RollbackHead(s: Store, head: Header, hashes: seq<Hash>): Option<Header>
    decreases |hashes|
  {
    if hashes == [] then Some(head)
    else
      var last, rest := hashes[|hashes| - 1], hashes[..|hashes| - 1];
      if head.hash != last then RollbackHead(s, head, rest)
      else if head.number > 0 && head.parentHash in s then RollbackHead(s, s[head.parentHash], rest)
      else None
  }

  /** One operation: a write stores the header and, if it wins, re-indexes its whole branch;
      a rollback moves the head and nothing else. */
  ghost predicate Next(st: ChainState, genesis: Hash, op: ChainOp, st': ChainState) {
    match op
    case Write(x, coin) =>
      && CanWrite(st.headers, x)
      && st'.headers == st.headers[x.hash := x]
      && WellFormed(st'.headers, genesis)
      && if Wins(x, st.head, coin) then st'.canonical == IndexOf(st'.headers, genesis, x.hash) && st'.head == x
         else st'.canonical == st.canonical && st'.head == st.head
    case Roll(hashes) =>
      && RollbackHead(st.headers, st.head, hashes).Some?
      && st' == st.(head := RollbackHead(st.headers, st.head, hashes).value)
  }

  /** The index is the branch of some stored tip, and the head is on it. */
  ghost predicate Coherent(st: ChainState, genesis: Hash, tip: Hash) {
    && WellFormed(st.headers, genesis)
    && st.head.hash in st.headers && st.headers[st.head.hash] == st.head
    && OnBranch(st.headers, genesis, st.head.hash, tip)
    && st.canonical == IndexOf(st.headers, genesis, tip)
  }

  /** The index has exactly the numbers up to top. */
  ghost predicate EndsAt(canonical: map<nat, Hash>, top: nat) {
    forall n: nat :: n in canonical <==> n <= top
  }

  /** The promise about the index, with no mention of how it is maintained: gap-free and
      parent-linked from genesis through at least the head, which it names. */
  ghost predicate GapFreeAndLinked(st: ChainState, genesis: Hash) {
    exists top: nat ::
      && st.head.number <= top
      && EndsAt(st.canonical, top)
      && st.canonical[0] == genesis
      && st.canonical[st.head.number] == st.head.hash
      && (forall n <- st.canonical :: st.canonical[n] in st.headers && st.headers[st.canonical[n]].number == n)
      && (forall n <- st.canonical :: n > 0 ==> st.headers[st.canonical[n]].parentHash == st.canonical[n - 1])
  }

  lemma CoherentIsLinked(st: ChainState, genesis: Hash, tip: Hash)
    requires Coherent(st, genesis, tip)
    ensures GapFreeAndLinked(st, genesis)
  {
    var top: nat := st.headers[tip].number;
    assert EndsAt(st.canonical, top);
    IndexIsChained(st.headers, genesis, tip, 0);
    forall n: nat | n <= top && n > 0
      ensures st.headers[st.canonical[n]].parentHash == st.canonical[n - 1]
    {
      IndexIsChained(st.headers, genesis, tip, n);
    }
  }

  /** Withdrawing headers moves the head down the indexed branch. */
  lemma {:induction false} RollbackStaysOnBranch(s: Store, genesis: Hash, tip: Hash, head: Header, hashes: seq<Hash>)
    requires WellFormed(s, genesis)
    requires head.hash in s && s[head.hash] == head && OnBranch(s, genesis, head.hash, tip)
    ensures RollbackHead(s, head, hashes).None? ==> genesis in hashes
    ensures RollbackHead(s, head, hashes).Some? ==> var r := RollbackHead(s, head, hashes).value;
      r.hash in s && s[r.hash] == r && OnBranch(s, genesis, r.hash, tip) && r.number <= head.number
    decreases |hashes|
  {
    if hashes != [] {
      var last := hashes[|hashes| - 1];
      assert Linked(s, genesis, head.hash);
      if head.hash == last && head.number > 0 {
        assert Linked(s, genesis, head.parentHash);
        IndexIsChained(s, genesis, tip, head.number);
        RollbackStaysOnBranch(s, genesis, tip, s[head.parentHash], hashes[..|hashes| - 1]);
      } else if head.hash != last {
        RollbackStaysOnBranch(s, genesis, tip, head, hashes[..|hashes| - 1]);
      }
    }
  }

  /** The head can be replaced by its parent, which is stored. */
  lemma ParentIsCoherent(st: ChainState, genesis: Hash, tip: Hash)
    requires Coherent(st, genesis, tip)
    ensures WellFormed(st.headers, genesis)
    ensures st.head.number > 0 ==>
      && Read(st.headers, st.head.parentHash, st.head.number - 1).Some?
      && Coherent(st.(head := st.headers[st.head.parentHash]), genesis, tip)
  {
    if st.head.number > 0 {
      IndexIsChained(st.headers, genesis, tip, st.head.number);
      assert Linked(st.headers, genesis, st.head.hash) && Linked(st.headers, genesis, st.head.parentHash);
    }
  }

  /** Withdrawing a stretch of one branch, ending at its head, lands exactly below it. */
  lemma {:induction false} RollbackUndoesBranch(s: Store, genesis: Hash, head: Header, hashes: seq<Hash>)
    requires WellFormed(s, genesis) && head.hash in s && s[head.hash] == head && |hashes| <= head.number
    requires forall i :: 0 <= i < |hashes| ==>
      hashes[i] == IndexOf(s, genesis, head.hash)[head.number - |hashes| + 1 + i]
    ensures RollbackHead(s, head, hashes) == Some(s[IndexOf(s, genesis, head.hash)[head.number - |hashes|]])
    decreases |hashes|
  {
    if hashes != [] {
      var k := |hashes|;
      assert hashes[k - 1] == head.hash && Linked(s, genesis, head.hash) && Linked(s, genesis, head.parentHash);
      RollbackUndoesBranch(s, genesis, s[head.parentHash], hashes[..k - 1]);
    }
  }

  lemma StepKeepsCoherence(st: ChainState, genesis: Hash, tip: Hash, op: ChainOp, st': ChainState) returns (tip': Hash)
    requires Coherent(st, genesis, tip) && Next(st, genesis, op, st')
    ensures Coherent(st', genesis, tip')
    ensures tip' == if op.Write? && Wins(op.header, st.head, op.coin) then op.header.hash else tip
  {
    match op
    case Write(x, coin) =>
      WriteKeepsBranches(st.headers, genesis, x, tip);
      tip' := if Wins(x, st.head, coin) then x.hash else tip;
    case Roll(hashes) =>
      RollbackStaysOnBranch(st.headers, genesis, tip, st.head, hashes);
      tip' := tip;
  }

  /** A run: each state follows from the one before by an allowed operation. */
  ghost predicate IsRun(states: seq<ChainState>, genesis: Hash, ops: seq<ChainOp>) {
    && |states| == |ops| + 1
    && forall i :: 0 <= i < |ops| ==> Next(states[i], genesis, ops[i], states[i + 1])
  }

  /** Every state of every run of header writes and rollbacks keeps the promise. */
  lemma {:induction false} RunsKeepIndexLinked(states: seq<ChainState>, genesis: Hash, ops: seq<ChainOp>, tip: Hash,
                                               k: nat)
    requires IsRun(states, genesis, ops) && Coherent(states[0], genesis, tip) && k < |states|
    ensures GapFreeAndLinked(states[k], genesis)
    ensures exists tip' :: Coherent(states[k], genesis, tip')
    decreases k
  {
    if k == 0 {
      CoherentIsLinked(states[0], genesis, tip);
    } else {
      RunsKeepIndexLinked(states, genesis, ops, tip, k - 1);
      var before :| Coherent(states[k - 1], genesis, before);
      var after := StepKeepsCoherence(states[k - 1], genesis, before, ops[k - 1], states[k]);
      CoherentIsLinked(states[k], genesis, after);
    }
  }

  /** After a canonical write the index ends exactly at the new head. */
  lemma CanonicalWriteEndsAtHead(st: ChainState, genesis: Hash, x: Header, coin: bool, st': ChainState)
    requires Next(st, genesis, Write(x, coin), st') && Wins(x, st.head, coin)
    ensures st'.head == x && EndsAt(st'.canonical, x.number)
    ensures forall k: nat :: k <= x.number ==> NthParent(st'.headers, x.hash, k) == Some(st'.canonical[x.number - k])
  {
    forall k: nat | k <= x.number
      ensures NthParent(st'.headers, x.hash, k) == Some(st'.canonical[x.number - k])
    {
      IndexIsAncestry(st'.headers, genesis, x.hash, k);
    }
  }

  lemma WinsInNumbers(header: Header, head: Header, coin: bool)
    ensures header.number > head.number ==> Wins(header, head, coin)
    ensures header.number < head.number ==> !Wins(header, head, coin)
    ensures header.number == head.number ==> Wins(header, head, coin) == coin
  {
  }

  /** The fork choice in plain numbers: a write never lowers the head, a higher header always becomes it,
      a lower one never does, and the coin decides between equals. */
  lemma WriteTakesHigher(st: ChainState, genesis: Hash, x: Header, coin: bool, st': ChainState)
    requires Next(st, genesis, Write(x, coin), st')
    ensures st'.head.number == if x.number > st.head.number then x.number else st.head.number
    ensures x.number > st.head.number ==> st'.head == x
    ensures x.number < st.head.number ==> st'.head == st.head && st'.canonical == st.canonical
    ensures x.number == st.head.number ==> st'.head == (if coin then x else st.head)
    ensures st'.head != x ==> st'.canonical == st.canonical
  {
  }

  /** Between two rollbacks of any run the head only rises, and it is at least as high as every header
      written there. */
  lemma {:induction false} HeadOnlyRises(states: seq<ChainState>, genesis: Hash, ops: seq<ChainOp>, j: nat, k: nat)
    requires IsRun(states, genesis, ops) && j <= k < |states|
    requires forall i :: j <= i < k ==> ops[i].Write?
    ensures states[j].head.number <= states[k].head.number
    ensures forall i :: j <= i < k ==> ops[i].header.number <= states[k].head.number
    ensures j < k ==> states[k].head == states[j].head || exists i :: j <= i < k && states[k].head == ops[i].header
    decreases k
  {
    if j < k {
      HeadOnlyRises(states, genesis, ops, j, k - 1);
      hide Wins;
      assert Next(states[k - 1], genesis, ops[k - 1], states[k]);
      WriteTakesHigher(states[k - 1], genesis, ops[k - 1].header, ops[k - 1].coin, states[k]);
    }
  }

  /** Withdrawing hashes none of which is the head leaves the head alone; withdrawing the head alone
      leads to its parent. */
  lemma RollbackOfOthers(s: Store, head: Header, hashes: seq<Hash>)
    requires head.hash !in hashes
    ensures RollbackHead(s, head, hashes) == Some(head)
    decreases |hashes|
  {
    if hashes != [] {
      RollbackOfOthers(s, head, hashes[..|hashes| - 1]);
    }
  }

  /** A read of the canonical index; a missing number reads as the zero hash. */
  function CanonicalHash(canonical: map<nat, Hash>, number: nat): Hash {
    if number in canonical then canonical[number] else ZERO_HASH
  }

  /** The k-th ancestor of a block is on the canonical index. */
  ghost predicate CanonicalAt(s: Store, canonical: map<nat, Hash>, hash: Hash, number: uint64, k: nat) {
    k <= number && NthParent(s, hash, k) == Some(CanonicalHash(canonical, number - k))
  }

  /** An ancestor walk runs out of budget before it meets the canonical index. */
  ghost predicate BudgetTooSmall(s: Store, canonical: map<nat, Hash>, hash: Hash, number: uint64, ancestor: uint64,
                                 budget: nat) {
    1 < ancestor && budget < ancestor && forall k: nat :: k <= budget ==> !CanonicalAt(s, canonical, hash, number, k)
  }

  /** The walk stays on stored blocks: the hash is not zero, and a stored block is given with its own
      number or has as many ancestors as are asked for. */
  predicate StaysAbove(s: Store, hash: Hash, number: uint64, ancestor: uint64) {
    hash != ZERO_HASH && (hash in s ==> s[hash].number == number || ancestor <= s[hash].number)
  }

  /** A parent walk that has taken `done` steps from a block and met no canonical block yet. */
  ghost predicate Walking(s: Store, canonical: map<nat, Hash>, hash: Hash, number: uint64, done: nat, h: Hash) {
    && done <= number && h != ZERO_HASH
    && NthParent(s, hash, done) == Some(h)
    && (h in s <==> hash in s)
    && (h in s ==> done <= s[hash].number && s[h].number == s[hash].number - done)
    && forall k: nat :: k < done ==> !CanonicalAt(s, canonical, hash, number, k)
  }

  lemma OneParent(s: Store, h: Hash)
    requires h in s
    ensures NthParent(s, h, 1) == Some(s[h].parentHash)
  {
    assert NthParent(s, s[h].parentHash, 0) == Some(s[h].parentHash);
  }

  lemma NoParents(s: Store, h: Hash)
    ensures NthParent(s, h, 0) == Some(h)
  {
  }

  lemma WalkOn(s: Store, genesis: Hash, canonical: map<nat, Hash>, hash: Hash, number: uint64, done: nat, h: Hash)
    requires WellFormed(s, genesis) && Walking(s, canonical, hash, number, done, h) && done < number
    requires h in s && s[h].number > 0 && CanonicalHash(canonical, number - done) != h
    ensures Walking(s, canonical, hash, number, done + 1, s[h].parentHash)
  {
    assert Linked(s, genesis, h);
    NthParentAdds(s, hash, done, 1);
  }

  /** Once a walk is on the index, the index is the walk. */
  lemma ShortcutIsAncestry(s: Store, genesis: Hash, tip: Hash, hash: Hash, number: uint64, ancestor: uint64, k: nat)
    requires WellFormed(s, genesis) && tip in s && k <= ancestor <= number
    requires CanonicalAt(s, IndexOf(s, genesis, tip), hash, number, k) && number - k <= s[tip].number
    ensures NthParent(s, hash, ancestor) == Some(IndexOf(s, genesis, tip)[number - ancestor])
  {
    var a := IndexOf(s, genesis, tip)[number - k];
    IndexPrefix(s, genesis, a, tip, number - ancestor);
    IndexIsAncestry(s, genesis, a, ancestor - k);
    NthParentAdds(s, hash, k, ancestor - k);
  }

  /** Eviction may have dropped anything, but what is cached is what is stored. */
  ghost predicate CachesCoherent(s: Store, headerCache: map<Hash, Header>, numberCache: map<Hash, uint64>) {
    && (forall h <- headerCache :: h in s && headerCache[h] == s[h])
    && (forall h <- numberCache :: h in s && numberCache[h] == s[h].number)
  }

  /** An index being re-routed: entries above low and up to high are already the branch's. */
  ghost predicate Overwritten(canonical: map<nat, Hash>, base: map<nat, Hash>, branch: map<nat, Hash>, low: nat,
                              high: nat) {
    && EndsAt(branch, high)
    && (forall n: nat :: n in canonical <==> n in base || low < n <= high)
    && (forall n <- canonical :: canonical[n] == if low < n <= high then branch[n] else base[n])
  }

  lemma OverwriteOne(canonical: map<nat, Hash>, base: map<nat, Hash>, branch: map<nat, Hash>, low: nat, high: nat)
    requires Overwritten(canonical, base, branch, low, high) && 0 < low <= high
    ensures Overwritten(canonical[low := branch[low]], base, branch, low - 1, high)
  {}

  /** Stopping at the first entry that already agrees is enough. */
  lemma FirstMatchSuffices(s: Store, genesis: Hash, canonical: map<nat, Hash>, base: map<nat, Hash>, stale: Hash,
                           hash: Hash, low: nat)
    requires WellFormed(s, genesis) && hash in s && stale in s
    requires Overwritten(canonical, base, IndexOf(s, genesis, hash), low, s[hash].number)
    requires low <= s[hash].number && low in base && base[low] == IndexOf(s, genesis, hash)[low]
    requires forall n <- base :: n <= s[stale].number && base[n] == IndexOf(s, genesis, stale)[n]
    requires forall n: nat :: n <= low ==> n in base
    ensures Overwritten(canonical, base, IndexOf(s, genesis, hash), 0, s[hash].number) && canonical[0] == genesis
  {
    forall n: nat | n <= low ensures canonical[n] == IndexOf(s, genesis, hash)[n] {
      BranchesMeet(s, genesis, hash, stale, low, n);
    }
    IndexIsChained(s, genesis, hash, 0);
  }

  lemma RerouteDone(s: Store, genesis: Hash, canonical: map<nat, Hash>, base: map<nat, Hash>, header: Header)
    requires WellFormed(s, genesis) && header.hash in s && s[header.hash] == header && header.number > 0
    requires header.parentHash in s && s[header.parentHash].number == header.number - 1
    requires Overwritten(canonical, base, IndexOf(s, genesis, header.parentHash), 0, header.number - 1)
    requires 0 in canonical && canonical[0] == genesis && forall n <- base :: n <= header.number
    ensures canonical[header.number := header.hash] == IndexOf(s, genesis, header.hash)
  {
    IndexIsChained(s, genesis, header.parentHash, 0);
  }

  class HeaderChain {
    const genesis: Hash

    // database; the hash-to-number table is written together with the headers and read through them
    var headers: Store
    var canonical: map<nat, Hash>
    var headHeaderHash: Hash

    // in memory
    var current: Header
    var headerCache: map<Hash, Header>
    var numberCache: map<Hash, uint64>

    /** The stored header whose branch the index lists; the head is on that branch. */
    ghost var tip: Hash

    ghost function State(): ChainState
      reads this
    {
      ChainState(headers, canonical, current)
    }

    ghost predicate Tables()
      reads this
    {
      WellFormed(headers, genesis) && CachesCoherent(headers, headerCache, numberCache)
    }

    ghost predicate Valid()
      reads this
    {
      && Coherent(State(), genesis, tip)
      && headHeaderHash == current.hash
      && CachesCoherent(headers, headerCache, numberCache)
    }

    constructor (g: Header)
      requires g.number == 0 && g.hash != ZERO_HASH
      ensures Valid() && genesis == g.hash && tip == g.hash
      ensures State() == ChainState(map[g.hash := g], map[0 := g.hash], g)
    {
      genesis, tip, headHeaderHash := g.hash, g.hash, g.hash;
      headers, canonical := map[g.hash := g], map[0 := g.hash];
      current, headerCache, numberCache := g, map[], map[];
    }

    method CacheHeader(header: Header)
      requires Tables() && header.hash in headers && headers[header.hash] == header
      modifies this`headerCache
      ensures Tables()
    {
      var evicted: set<Hash> := *;
      headerCache := headerCache[header.hash := header] - evicted;
    }

    method CacheNumber(hash: Hash, number: uint64)
      requires Tables() && hash in headers && headers[hash].number == number
      modifies this`numberCache
      ensures Tables()
    {
      var evicted: set<Hash> := *;
      numberCache := numberCache[hash := number] - evicted;
    }

    /** A stored number finds its header; a cache hit does not look at the number. */
    method GetHeader(hash: Hash, number: uint64) returns (header: Option<Header>)
      requires Tables()
      modifies this`headerCache
      ensures Tables()
      ensures Read(headers, hash, number).Some? ==> header == Read(headers, hash, number)
      ensures header.Some? ==> hash in headers && header.value == headers[hash] && header.value.hash == hash
    {
      if hash in headerCache {
        assert Linked(headers, genesis, hash);
        return Some(headerCache[hash]);
      }
      header := Read(headers, hash, number);
      if header.Some? {
        assert Linked(headers, genesis, hash);
        CacheHeader(header.value);
      }
    }

    method GetHeaderByHash(hash: Hash) returns (header: Option<Header>)
      requires Valid()
      modifies this`headerCache, this`numberCache
      ensures Valid()
      ensures header == if hash in headers then Some(headers[hash]) else None
      ensures header.Some? ==> header.value.hash == hash
    {
      var number: Option<uint64> := None;
      if hash in numberCache {
        number := Some(numberCache[hash]);
      } else if hash in headers {
        number := Some(headers[hash].number);
        CacheNumber(hash, headers[hash].number);
      }
      if number.None? {
        return None;
      }
      header := GetHeader(hash, number.value);
    }

    method GetHeaderByNumber(number: uint64) returns (header: Option<Header>)
      requires Valid()
      modifies this`headerCache
      ensures Valid()
      ensures header == if number in canonical then Some(headers[canonical[number]]) else None
      ensures header.Some? ==> header.value.hash == canonical[number] && header.value.number == number
    {
      var hash := CanonicalHash(canonical, number);
      if hash == ZERO_HASH {
        return None;
      }
      header := GetHeader(hash, number);
    }

    /** Deletes every canonical number above `number`, reading upwards to the first gap. */
    method DeleteAbove(number: nat, ghost top: nat)
      requires EndsAt(canonical, top) && ZERO_HASH !in canonical.Values
      modifies this`canonical
      ensures canonical == map n | n in old(canonical) && n <= number :: old(canonical)[n]
    {
      var batch: set<nat> := {};
      var i := number + 1;
      while CanonicalHash(canonical, i) != ZERO_HASH
        invariant i > number
        invariant forall n: nat :: n in batch <==> number < n < i
        invariant forall n: nat :: number < n < i ==> n in canonical
        decreases top + 1 - i
      {
        batch := batch + {i};
        i := i + 1;
      }
      canonical := canonical - batch;
    }

    /** Overwrites stale entries downwards from (hash, number) and stops at the first match.
        The index entering is the branch of `stale` as far as some number. */
    method OverwriteStale(hash: Hash, number: uint64, ghost stale: Hash, ghost top: nat)
      requires Tables() && hash in headers && headers[hash].number == number
      requires stale in headers && top <= headers[stale].number && EndsAt(canonical, top)
      requires forall n <- canonical :: canonical[n] == IndexOf(headers, genesis, stale)[n]
      modifies this`canonical, this`headerCache
      ensures Tables()
      ensures Overwritten(canonical, old(canonical), IndexOf(headers, genesis, hash), 0, number) && 0 in canonical
      ensures canonical[0] == genesis
    {
      ghost var s, base := headers, canonical;
      ghost var branch := IndexOf(s, genesis, hash);
      var headHash: Hash, headNumber: uint64 := hash, number;
      var headHeader := GetHeader(headHash, headNumber);
      IndexIsChained(s, genesis, hash, 0);
      IndexIsChained(s, genesis, stale, 0);
      while CanonicalHash(canonical, headNumber) != headHash
        invariant Tables() && headNumber <= number && headHash == branch[headNumber]
        invariant headHeader == Some(s[headHash])
        invariant Overwritten(canonical, base, branch, headNumber, number)
        decreases headNumber
      {
        IndexIsChained(s, genesis, hash, headNumber);
        OverwriteOne(canonical, base, branch, headNumber, number);
        canonical := canonical[headNumber := headHash];
        headHash := headHeader.value.parentHash;
        headNumber := headHeader.value.number - 1;
        headHeader := GetHeader(headHash, headNumber);
      }
      FirstMatchSuffices(s, genesis, canonical, base, stale, hash, headNumber);
    }

    /** Re-routes the index to a stored header. */
    method Reroute(header: Header)
      requires Tables() && header.number > 0 && Read(headers, header.hash, header.number) == Some(header)
      requires tip in headers && canonical == IndexOf(headers, genesis, tip)
      modifies this`canonical, this`headerCache
      ensures Tables()
      ensures canonical == IndexOf(headers, genesis, header.hash)
    {
      ghost var top: nat := headers[tip].number;
      assert Linked(headers, genesis, header.hash);
      DeleteAbove(header.number, top);
      ghost var base := canonical;
      OverwriteStale(header.parentHash, header.number - 1, tip, if header.number < top then header.number else top);
      RerouteDone(headers, genesis, canonical, base, header);
      canonical := canonical[header.number := header.hash];
    }

    /** Incremental re-routing yields the index a full parent walk would give. */
    method WriteHeader(header: Header, coin: bool) returns (status: WriteStatus)
      requires Valid() && CanWrite(headers, header) && header.number < TWO_64 - 1
      modifies this
      ensures Valid()
      ensures status == if Wins(header, old(current), coin) then CanonStat else SideStat
      ensures Next(old(State()), genesis, Write(header, coin), State())
      ensures tip == if status.CanonStat? then header.hash else old(tip)
      ensures header.number > old(current).number ==> status.CanonStat? && current == header
      ensures header.number < old(current).number ==>
        status.SideStat? && current == old(current) && canonical == old(canonical)
      ensures header.number == old(current).number && coin ==> status.CanonStat? && current == header
      ensures header.number == old(current).number && !coin ==>
        status.SideStat? && current == old(current) && canonical == old(canonical)
      ensures headers == old(headers)[header.hash := header]
    {
      hide Wins, IndexOf;
      WinsInNumbers(header, current, coin);
      WriteKeepsBranches(headers, genesis, header, tip);
      status := if Wins(header, current, coin) then CanonStat else SideStat;
      headers := headers[header.hash := header];
      if status.CanonStat? {
        MakeCanonical(header);
      }
      Remember(header);
    }

    /** Re-routes the index and moves the head. */
    method MakeCanonical(header: Header)
      requires Tables() && header.number > 0 && Read(headers, header.hash, header.number) == Some(header)
      requires tip in headers && canonical == IndexOf(headers, genesis, tip)
      modifies this`canonical, this`headerCache, this`headHeaderHash, this`current, this`tip
      ensures Valid() && current == header && tip == header.hash
      ensures canonical == IndexOf(headers, genesis, header.hash)
    {
      Reroute(header);
      headHeaderHash, current, tip := header.hash, header, header.hash;
    }

    /** Both caches learn a stored header. */
    method Remember(header: Header)
      requires Tables() && header.hash in headers && headers[header.hash] == header
      modifies this`headerCache, this`numberCache
      ensures Tables()
    {
      CacheHeader(header);
      CacheNumber(header.hash, header.number);
    }

    /** The header part of Rollback: only the head moves, the index keeps stale numbers above it. */
    method Rollback(chain: seq<Hash>)
      requires Valid() && RollbackHead(headers, current, chain).Some?
      modifies this
      ensures Valid() && tip == old(tip)
      ensures Next(old(State()), genesis, Roll(chain), State())
    {
      hide Coherent, IndexOf;
      ParentIsCoherent(State(), genesis, tip);
      var i := |chain|;
      assert chain[..i] == chain;
      while i > 0
        invariant 0 <= i <= |chain| && Valid() && Tables() && tip == old(tip)
        invariant headers == old(headers) && canonical == old(canonical)
        invariant RollbackHead(headers, current, chain[..i]) == RollbackHead(headers, old(current), chain)
        invariant RollbackHead(headers, current, chain[..i]).Some?
      {
        i := i - 1;
        assert chain[..i + 1][..i] == chain[..i];
        if current.hash == chain[i] {
          ParentIsCoherent(State(), genesis, tip);
          var parent := GetHeader(current.parentHash, current.number - 1);
          headHeaderHash, current := parent.value.hash, parent.value;
        }
      }
    }

    /** A non-zero answer is the true ancestor, for every number given with the hash, unless the walk is
        asked to go past genesis from a block of a lower number, or starts from the zero hash. For a
        block given with its own number a zero answer says exactly why. */
    method GetAncestor(hash: Hash, number: uint64, ancestor: uint64, maxNonCanonical: nat)
      returns (h: Hash, n: uint64, left: nat)
      requires Valid()
      modifies this`headerCache
      ensures Valid() && left <= maxNonCanonical <= left + ancestor && (ancestor == 1 ==> left == maxNonCanonical)
      ensures h != ZERO_HASH ==> ancestor <= number && n == number - ancestor
      ensures h != ZERO_HASH && hash != ZERO_HASH && hash !in headers ==>
        NthParent(headers, hash, ancestor) == Some(h)
      ensures h != ZERO_HASH && hash in headers && headers[hash].number == number ==>
        NthParent(headers, hash, ancestor) == Some(h)
      ensures h != ZERO_HASH && hash in headers && ancestor <= headers[hash].number ==>
        NthParent(headers, hash, ancestor) == Some(h)
      ensures hash == ZERO_HASH ==> (h != ZERO_HASH <==>
        2 <= ancestor <= number && number !in canonical && number - ancestor in canonical)
      ensures h != ZERO_HASH && hash in headers && headers[hash].number == number ==>
        h in headers && headers[h].number == n
      ensures ancestor > number ==> h == ZERO_HASH && n == 0
      ensures hash in headers && headers[hash].number == number && h == ZERO_HASH ==> n == 0
      ensures hash in headers && headers[hash].number == number ==>
        (h == ZERO_HASH <==>
          ancestor > number || BudgetTooSmall(headers, canonical, hash, number, ancestor, maxNonCanonical))
    {
      hide IndexOf, OnBranch, NthParent;
      left := maxNonCanonical;
      ghost var sound := StaysAbove(headers, hash, number, ancestor);
      if ancestor > number {
        return ZERO_HASH, 0, left;
      }
      if ancestor == 1 {
        var header := GetHeader(hash, number);
        if header.None? {
          return ZERO_HASH, 0, left;
        }
        assert Linked(headers, genesis, hash);
        OneParent(headers, hash);
        return header.value.parentHash, number - 1, left;
      }
      ghost var s, index := headers, canonical;
      var rest: uint64 := ancestor;
      h, n := hash, number;
      NoParents(headers, hash);
      while rest != 0
        invariant Valid() && rest <= ancestor && n == number - (ancestor - rest)
        invariant hash == ZERO_HASH ==> rest == ancestor && h == hash && n == number
        invariant sound ==> Walking(s, index, hash, number, ancestor - rest, h)
        invariant left == maxNonCanonical - (ancestor - rest)
        decreases rest
      {
        if CanonicalHash(canonical, n) == h {
          if sound {
            assert CanonicalAt(s, index, hash, number, ancestor - rest);
            ShortcutIsAncestry(s, genesis, tip, hash, number, ancestor, ancestor - rest);
          }
          n := n - rest;
          return CanonicalHash(canonical, n), n, left;
        }
        if left == 0 {
          return ZERO_HASH, 0, left;
        }
        left, rest := left - 1, rest - 1;
        var header := GetHeader(h, n);
        if header.None? {
          return ZERO_HASH, 0, left;
        }
        if sound { WalkOn(s, genesis, index, hash, number, ancestor - rest - 1, h); }
        h, n := header.value.parentHash, n - 1;
      }
    }
  }
}
