/** The block-header query of the eth protocol: which headers a peer is served. */
module HeaderQueries {
  import opened Options
  import opened Ancestry
  import opened HeaderChains

  const SOFT_RESPONSE_LIMIT := 2 * 1024 * 1024
  const EST_HEADER_RLP_SIZE := 500
  const MAX_HEADER_FETCH := 192
  const MAX_NON_CANONICAL := 100

  /** A query starts at a hash, or at a number when the hash is zero. */
  datatype Query = Query(hash: Hash, number: uint64, amount: uint64, skip: uint64, reverse: bool)

  function Wrap(n: nat): (r: uint64)
    ensures n < TWO_64 ==> r == n
    ensures TWO_64 <= n < 2 * TWO_64 ==> r == n - TWO_64
  {
    n % TWO_64
  }

  /** Go's conversion of the requested amount to a signed 64-bit count. */
  function AsInt(amount: uint64): int {
    if amount < TWO_64 / 2 then amount else amount - TWO_64
  }

  /** How many headers a query may be served at most. */
  function Limit(q: Query): nat {
    if AsInt(q.amount) <= 0 then 0
    else if AsInt(q.amount) < MAX_HEADER_FETCH then AsInt(q.amount) else MAX_HEADER_FETCH
  }

  /** In numbers: as many as asked for but no more than 192; none at all from 2^63 on. */
  lemma LimitMeans(q: Query)
    ensures q.amount < 192 ==> Limit(q) == q.amount
    ensures 192 <= q.amount < 0x8000_0000_0000_0000 ==> Limit(q) == 192
    ensures q.amount >= 0x8000_0000_0000_0000 ==> Limit(q) == 0
  {
  }

  /** b follows a in an answer by hash: exactly skip + 1 generations apart, in the asked direction. */
  ghost predicate FollowsByHash(s: Store, q: Query, a: Header, b: Header) {
    if q.reverse then NthParent(s, a.hash, q.skip + 1) == Some(b.hash)
    else NthParent(s, b.hash, q.skip + 1) == Some(a.hash)
  }

  /** b follows a in an answer by number: both canonical, numbers stepping by skip + 1 modulo 2^64. */
  ghost predicate FollowsByNumber(q: Query, a: Header, b: Header) {
    if q.reverse then b.number + Wrap(q.skip + 1) == a.number
    else b.number == Wrap(a.number + q.skip + 1)
  }

  ghost predicate Stored(s: Store, h: Header) {
    h.hash in s && s[h.hash] == h
  }

  ghost predicate OnIndex(s: Store, canonical: map<nat, Hash>, h: Header) {
    Stored(s, h) && h.number in canonical && canonical[h.number] == h.hash
  }

  /** The answer to a query, independent of how it is collected and of writes that come in between. */
  ghost predicate Answers(s: Store, q: Query, served: seq<Header>) {
    && |served| <= Limit(q)
    && (q.hash != ZERO_HASH && q.skip + 1 == TWO_64 ==> |served| <= 1)
    && (forall h <- served :: Stored(s, h))
    && if q.hash != ZERO_HASH then
         && (served != [] ==> served[0].hash == q.hash)
         && (forall i :: 0 < i < |served| ==> FollowsByHash(s, q, served[i - 1], served[i]))
       else
         && (served != [] ==> served[0].number == q.number)
         && (forall i :: 0 < i < |served| ==> FollowsByNumber(q, served[i - 1], served[i]))
  }

  ghost predicate AllCanonical(s: Store, canonical: map<nat, Hash>, served: seq<Header>) {
    forall h <- served :: OnIndex(s, canonical, h)
  }

  /** No further header could follow the last one served. */
  ghost predicate Exhausted(canonical: map<nat, Hash>, q: Query, last: Header) {
    if q.hash != ZERO_HASH then
      if q.reverse then last.number < q.skip + 1 || q.skip + 1 == TWO_64
      else last.number + q.skip + 1 >= TWO_64 || last.number + q.skip + 1 !in canonical
    else
      if q.reverse then last.number < Wrap(q.skip + 1)
      else Wrap(last.number + q.skip + 1) !in canonical
  }

  /** The first header is there when the query's origin is canonical. */
  ghost predicate CanonicalOrigin(s: Store, canonical: map<nat, Hash>, q: Query) {
    if q.hash != ZERO_HASH then q.hash in s && OnIndex(s, canonical, s[q.hash])
    else q.number in canonical
  }

  /** Some block at most `budget` generations back is on the index. */
  ghost predicate JoinsWithin(s: Store, canonical: map<nat, Hash>, h: Header, budget: nat) {
    exists k: nat :: k <= budget && CanonicalAt(s, canonical, h.hash, h.number, k)
  }

  /** A backward query by hash from a block that leaves the index by no more than 100 blocks. */
  ghost predicate NearOrigin(s: Store, canonical: map<nat, Hash>, q: Query) {
    q.hash != ZERO_HASH && q.reverse && q.hash in s && JoinsWithin(s, canonical, s[q.hash], 100)
  }

  /** An ancestor is as close to the index as the budget left allows. */
  lemma AncestorJoins(s: Store, genesis: Hash, tip: Hash, origin: Header, ancestor: uint64, hash: Hash, budget: nat,
                      left: nat)
    requires WellFormed(s, genesis) && tip in s && Stored(s, origin)
    requires JoinsWithin(s, IndexOf(s, genesis, tip), origin, budget)
    requires ancestor <= origin.number && NthParent(s, origin.hash, ancestor) == Some(hash)
    requires hash in s && s[hash].hash == hash && s[hash].number == origin.number - ancestor
    requires budget <= left + ancestor
    ensures JoinsWithin(s, IndexOf(s, genesis, tip), s[hash], left)
  {
    hide IndexOf, NthParent, CanonicalAt, WellFormed;
    var index := IndexOf(s, genesis, tip);
    var k: nat :| k <= budget && CanonicalAt(s, index, origin.hash, origin.number, k);
    if k >= ancestor {
      var j := k - ancestor;
      LaterJoin(s, index, origin, ancestor, hash, k);
      assert CanonicalAt(s, index, hash, s[hash].number, j);
    } else {
      EarlierJoin(s, genesis, tip, origin, ancestor, hash, k);
      assert CanonicalAt(s, index, hash, s[hash].number, 0);
    }
  }

  lemma LaterJoin(s: Store, index: map<nat, Hash>, origin: Header, ancestor: uint64, hash: Hash, k: nat)
    requires CanonicalAt(s, index, origin.hash, origin.number, k) && ancestor <= k
    requires NthParent(s, origin.hash, ancestor) == Some(hash) && hash in s
    requires ancestor <= origin.number && s[hash].number == origin.number - ancestor
    ensures CanonicalAt(s, index, hash, s[hash].number, k - ancestor)
  {
    hide NthParent;
    NthParentAdds(s, origin.hash, ancestor, k - ancestor);
  }

  lemma EarlierJoin(s: Store, genesis: Hash, tip: Hash, origin: Header, ancestor: uint64, hash: Hash, k: nat)
    requires WellFormed(s, genesis) && tip in s && Stored(s, origin) && k < ancestor <= origin.number
    requires CanonicalAt(s, IndexOf(s, genesis, tip), origin.hash, origin.number, k)
    requires NthParent(s, origin.hash, ancestor) == Some(hash) && hash in s
    requires s[hash].number == origin.number - ancestor
    ensures CanonicalAt(s, IndexOf(s, genesis, tip), hash, s[hash].number, 0)
  {
    hide IndexOf, NthParent;
    IndexIsAncestry(s, genesis, origin.hash, k);
    ShortcutIsAncestry(s, genesis, tip, origin.hash, origin.number, ancestor, k);
    NoParents(s, hash);
  }

  // --- answers in plain terms ---

  /** An answer by number lists the numbers at distance skip + 1, rising or falling, as long as they
      stay within 64 bits. */
  lemma {:induction false} NumbersInAnswer(s: Store, q: Query, served: seq<Header>, i: nat)
    requires q.hash == ZERO_HASH && Answers(s, q, served) && i < |served| && q.skip + 1 < TWO_64
    ensures q.reverse ==> served[i].number == q.number - i * (q.skip + 1)
    ensures !q.reverse && q.number + i * (q.skip + 1) < TWO_64 ==> served[i].number == q.number + i * (q.skip + 1)
  {
    if i > 0 {
      NumbersInAnswer(s, q, served, i - 1);
      assert FollowsByNumber(q, served[i - 1], served[i]);
      Stride(i, q.skip + 1);
    }
  }

  lemma Stride(i: nat, step: nat)
    requires i > 0
    ensures i * step == (i - 1) * step + step && 0 <= (i - 1) * step
  {
  }

  /** An answer by hash lists ancestors of the header asked for, or descendants of it, at distance
      skip + 1 from one to the next. */
  lemma {:induction false} AncestorsInAnswer(s: Store, q: Query, served: seq<Header>, i: nat)
    requires q.hash != ZERO_HASH && Answers(s, q, served) && i < |served|
    ensures q.reverse ==> NthParent(s, q.hash, i * (q.skip + 1)) == Some(served[i].hash)
    ensures !q.reverse ==> NthParent(s, served[i].hash, i * (q.skip + 1)) == Some(q.hash)
  {
    if i > 0 {
      AncestorsInAnswer(s, q, served, i - 1);
      assert FollowsByHash(s, q, served[i - 1], served[i]);
      var step := q.skip + 1;
      Stride(i, step);
      if q.reverse {
        NthParentAdds(s, q.hash, (i - 1) * step, step);
      } else {
        NthParentAdds(s, served[i].hash, step, (i - 1) * step);
      }
    }
  }

  lemma {:induction false} GenerationsCount(s: Store, genesis: Hash, h: Hash, n: nat)
    requires WellFormed(s, genesis) && s[genesis].parentHash == ZERO_HASH
    requires h in s && NthParent(s, h, n).Some? && NthParent(s, h, n).value in s
    ensures s[NthParent(s, h, n).value].number + n == s[h].number
    decreases n
  {
    if n > 0 {
      assert Linked(s, genesis, h);
      if s[h].number > 0 {
        GenerationsCount(s, genesis, s[h].parentHash, n - 1);
      }
    }
  }

  /** An exhausted answer could not have been longer: no canonical header follows its last one. Genesis
      names the zero hash as its parent. */
  lemma ExhaustedMeans(s: Store, genesis: Hash, canonical: map<nat, Hash>, q: Query, last: Header, h: Header)
    requires WellFormed(s, genesis) && s[genesis].parentHash == ZERO_HASH
    requires OnIndex(s, canonical, last) && OnIndex(s, canonical, h)
    requires Exhausted(canonical, q, last)
    ensures q.hash != ZERO_HASH ==> !FollowsByHash(s, q, last, h)
    ensures q.hash == ZERO_HASH ==> !FollowsByNumber(q, last, h)
  {
    if q.hash != ZERO_HASH && FollowsByHash(s, q, last, h) {
      if q.reverse {
        GenerationsCount(s, genesis, last.hash, q.skip + 1);
      } else {
        GenerationsCount(s, genesis, h.hash, q.skip + 1);
      }
      assert false;
    }
  }

  // --- what others do to the chain between two reads ---

  /** Headers written meanwhile; none is taken away. */
  ghost predicate Extends(s: Store, s': Store) {
    forall h <- s :: h in s' && s'[h] == s[h]
  }

  lemma {:induction false} AncestryStays(s: Store, s': Store, h: Hash, n: nat)
    requires Extends(s, s') && NthParent(s, h, n).Some?
    ensures NthParent(s', h, n) == NthParent(s, h, n)
    decreases n
  {
    if n > 0 {
      AncestryStays(s, s', s[h].parentHash, n - 1);
    }
  }

  lemma FollowsStays(s: Store, s': Store, q: Query, a: Header, b: Header)
    requires Extends(s, s') && FollowsByHash(s, q, a, b)
    ensures FollowsByHash(s', q, a, b)
  {
    AncestryStays(s, s', if q.reverse then a.hash else b.hash, q.skip + 1);
  }

  /** What has been served stays a correct answer, whatever is written. */
  lemma AnswersStay(s: Store, s': Store, q: Query, served: seq<Header>)
    requires Extends(s, s') && Answers(s, q, served)
    ensures Answers(s', q, served)
  {
    if q.hash != ZERO_HASH {
      forall i | 0 < i < |served| ensures FollowsByHash(s', q, served[i - 1], served[i]) {
        FollowsStays(s, s', q, served[i - 1], served[i]);
      }
    }
  }

  lemma PendingStays(s: Store, s': Store, q: Query, served: seq<Header>, hash: Hash, number: uint64)
    requires Extends(s, s') && Pending(s, q, served, hash, number)
    ensures Pending(s', q, served, hash, number)
  {
    if q.hash != ZERO_HASH && served != [] {
      FollowsStays(s, s', q, served[|served| - 1], s[hash]);
    }
  }

  /** Any writes and rollbacks by other goroutines; an operation that is not possible does not happen. */
  method Meanwhile(hc: HeaderChain, ops: seq<ChainOp>)
    requires hc.Valid()
    modifies hc
    ensures hc.Valid() && Extends(old(hc.headers), hc.headers)
    ensures ops == [] ==> hc.headers == old(hc.headers) && hc.canonical == old(hc.canonical)
  {
    var i := 0;
    while i < |ops|
      invariant 0 <= i <= |ops| && hc.Valid() && Extends(old(hc.headers), hc.headers)
      invariant ops == [] ==> hc.headers == old(hc.headers) && hc.canonical == old(hc.canonical)
    {
      match ops[i] {
        case Write(x, coin) =>
          if CanWrite(hc.headers, x) && x.number < TWO_64 - 1 {
            var _ := hc.WriteHeader(x, coin);
          }
        case Roll(hashes) =>
          if RollbackHead(hc.headers, hc.current, hashes).Some? {
            hc.Rollback(hashes);
          }
      }
      i := i + 1;
    }
  }

  // --- the traversal ---

  /** The advance to the parent side. */
  method StepBack(hc: HeaderChain, q: Query, origin: Header, budget: nat)
    returns (hash: Hash, number: uint64, unknown: bool, left: nat)
    requires hc.Valid() && Stored(hc.headers, origin) && q.hash != ZERO_HASH && q.reverse
    modifies hc`headerCache
    ensures hc.Valid() && left <= budget
    ensures q.skip + 1 == TWO_64 ==> unknown
    ensures !unknown ==>
      Read(hc.headers, hash, number).Some? && FollowsByHash(hc.headers, q, origin, hc.headers[hash])
    ensures OnIndex(hc.headers, hc.canonical, origin) ==>
      if unknown then Exhausted(hc.canonical, q, origin) else OnIndex(hc.headers, hc.canonical, hc.headers[hash])
    ensures JoinsWithin(hc.headers, hc.canonical, origin, budget) ==>
      if unknown then Exhausted(hc.canonical, q, origin)
      else JoinsWithin(hc.headers, hc.canonical, hc.headers[hash], left)
  {
    hide JoinsWithin;
    ghost var s := hc.headers;
    assert Linked(s, hc.genesis, origin.hash);
    hash, number, left := ZERO_HASH, 0, budget;
    var ancestor := Wrap(q.skip + 1);
    if ancestor == 0 {
      unknown := true;
    } else {
      hash, number, left := hc.GetAncestor(origin.hash, origin.number, ancestor, budget);
      unknown := hash == ZERO_HASH;
      assert !unknown ==> Linked(s, hc.genesis, hash);
      CanonicalAncestor(s, hc.genesis, hc.tip, origin.hash, ancestor);
      if JoinsWithin(s, hc.canonical, origin, budget) {
        JoinsInTime(s, hc.canonical, origin, ancestor, budget);
        if !unknown { AncestorJoins(s, hc.genesis, hc.tip, origin, ancestor, hash, budget, left); }
      }
    }
  }

  lemma JoinsInTime(s: Store, canonical: map<nat, Hash>, origin: Header, ancestor: uint64, budget: nat)
    requires JoinsWithin(s, canonical, origin, budget)
    ensures !BudgetTooSmall(s, canonical, origin.hash, origin.number, ancestor, budget)
  {
  }

  /** The advance to the child side: the canonical header further on, if the origin is its ancestor. */
  method StepForward(hc: HeaderChain, q: Query, origin: Header, budget: nat, others: seq<ChainOp>)
    returns (hash: Hash, number: uint64, unknown: bool, left: nat)
    requires hc.Valid() && Stored(hc.headers, origin) && q.hash != ZERO_HASH && !q.reverse
    modifies hc
    ensures hc.Valid() && left <= budget && Extends(old(hc.headers), hc.headers)
    ensures others == [] ==> hc.headers == old(hc.headers) && hc.canonical == old(hc.canonical)
    ensures q.skip + 1 == TWO_64 ==> unknown
    ensures !unknown ==>
      Read(hc.headers, hash, number).Some? && FollowsByHash(hc.headers, q, origin, hc.headers[hash])
    ensures others == [] && OnIndex(hc.headers, hc.canonical, origin) ==>
      if unknown then Exhausted(hc.canonical, q, origin) else OnIndex(hc.headers, hc.canonical, hc.headers[hash])
  {
    hash, number, left, unknown := ZERO_HASH, 0, budget, true;
    var next := Wrap(origin.number + q.skip + 1);
    if next > origin.number {
      var header := hc.GetHeaderByNumber(next);
      if header.Some? {
        Meanwhile(hc, others);
        unknown, left := NotDescendant(hc, q, origin, header.value, budget);
        if !unknown {
          hash, number := header.value.hash, next;
        }
      }
    }
  }

  /** Whether the header next in line is not the descendant of the origin that the query asks for. */
  method NotDescendant(hc: HeaderChain, q: Query, origin: Header, next: Header, budget: nat)
    returns (r: bool, left: nat)
    requires hc.Valid() && Stored(hc.headers, origin) && Stored(hc.headers, next)
    requires q.skip + 1 < TWO_64 && next.number == origin.number + q.skip + 1
    modifies hc`headerCache
    ensures hc.Valid() && left <= budget
    ensures !r ==> NthParent(hc.headers, next.hash, q.skip + 1) == Some(origin.hash)
    ensures OnIndex(hc.headers, hc.canonical, origin) && OnIndex(hc.headers, hc.canonical, next) ==> !r
  {
    assert Linked(hc.headers, hc.genesis, origin.hash);
    var expOldHash, _, l := hc.GetAncestor(next.hash, next.number, Wrap(q.skip + 1), budget);
    left := l;
    CanonicalAncestor(hc.headers, hc.genesis, hc.tip, next.hash, q.skip + 1);
    r := expOldHash != origin.hash;
  }

  /** One hash-based advance from a served header. */
  method AdvanceByHash(hc: HeaderChain, q: Query, origin: Header, budget: nat, others: seq<ChainOp>)
    returns (hash: Hash, number: uint64, unknown: bool, left: nat)
    requires hc.Valid() && Stored(hc.headers, origin) && q.hash != ZERO_HASH
    modifies hc
    ensures hc.Valid() && left <= budget && Extends(old(hc.headers), hc.headers)
    ensures others == [] ==> hc.headers == old(hc.headers) && hc.canonical == old(hc.canonical)
    ensures q.skip + 1 == TWO_64 ==> unknown
    ensures !unknown ==>
      Read(hc.headers, hash, number).Some? && FollowsByHash(hc.headers, q, origin, hc.headers[hash])
    ensures others == [] && OnIndex(hc.headers, hc.canonical, origin) ==>
      if unknown then Exhausted(hc.canonical, q, origin) else OnIndex(hc.headers, hc.canonical, hc.headers[hash])
    ensures others == [] && q.reverse && JoinsWithin(hc.headers, hc.canonical, origin, budget) ==>
      if unknown then Exhausted(hc.canonical, q, origin)
      else JoinsWithin(hc.headers, hc.canonical, hc.headers[hash], left)
  {
    hide FollowsByHash, OnIndex, Exhausted, Read, JoinsWithin;
    if q.reverse {
      hash, number, unknown, left := StepBack(hc, q, origin, budget);
    } else {
      hash, number, unknown, left := StepForward(hc, q, origin, budget, others);
    }
  }

  /** On the index no budget is needed, and ancestors are on the index too. */
  lemma CanonicalAncestor(s: Store, genesis: Hash, tip: Hash, hash: Hash, ancestor: uint64)
    requires WellFormed(s, genesis) && tip in s && hash in s
    ensures var index := IndexOf(s, genesis, tip);
      OnIndex(s, index, s[hash]) && ancestor <= s[hash].number ==>
        && NthParent(s, hash, ancestor) == Some(index[s[hash].number - ancestor])
        && OnIndex(s, index, s[index[s[hash].number - ancestor]])
        && forall budget: nat :: !BudgetTooSmall(s, index, hash, s[hash].number, ancestor, budget)
  {
    var index := IndexOf(s, genesis, tip);
    if OnIndex(s, index, s[hash]) && ancestor <= s[hash].number {
      var number := s[hash].number;
      assert Linked(s, genesis, hash);
      assert CanonicalAt(s, index, hash, number, 0);
      ShortcutIsAncestry(s, genesis, tip, hash, number, ancestor, 0);
      assert Linked(s, genesis, index[number - ancestor]);
    }
  }

  /** One number-based advance. */
  function NextNumber(q: Query, number: uint64): (r: Option<uint64>)
    ensures r.None? ==> q.reverse && number < Wrap(q.skip + 1)
  {
    if q.reverse then
      if number >= Wrap(q.skip + 1) then Some(number - Wrap(q.skip + 1)) else None
    else Some(Wrap(number + Wrap(q.skip + 1)))
  }

  /** What the loop knows about the next position to read. */
  ghost predicate Pending(s: Store, q: Query, served: seq<Header>, hash: Hash, number: uint64) {
    if q.hash != ZERO_HASH then
      if served == [] then hash == q.hash
      else Read(s, hash, number).Some? && FollowsByHash(s, q, served[|served| - 1], s[hash])
    else
      if served == [] then number == q.number
      else NextNumber(q, served[|served| - 1].number) == Some(number)
  }

  /** What one read at the pending position may return. */
  ghost predicate ReadBack(s: Store, q: Query, hash: Hash, number: uint64, h: Header) {
    Stored(s, h) && if q.hash != ZERO_HASH then h.hash == hash else h.number == number
  }

  lemma AnswerGrows(s: Store, q: Query, served: seq<Header>, hash: Hash, number: uint64, h: Header)
    requires Answers(s, q, served) && Pending(s, q, served, hash, number) && |served| < Limit(q)
    requires q.hash != ZERO_HASH && q.skip + 1 == TWO_64 ==> served == []
    requires ReadBack(s, q, hash, number, h)
    ensures Answers(s, q, served + [h])
  {
    if served != [] && q.hash == ZERO_HASH {
      assert FollowsByNumber(q, served[|served| - 1], h);
    }
  }

  lemma ReadBackStays(s: Store, s': Store, q: Query, hash: Hash, number: uint64, h: Header)
    requires Extends(s, s') && ReadBack(s, q, hash, number, h)
    ensures ReadBack(s', q, hash, number, h)
  {
  }

  /** Reads the header at the pending position. */
  method ReadOrigin(hc: HeaderChain, q: Query, served: seq<Header>, hash: Hash, number: uint64)
    returns (origin: Option<Header>)
    requires hc.Valid() && Pending(hc.headers, q, served, hash, number)
    modifies hc`headerCache, hc`numberCache
    ensures hc.Valid()
    ensures origin.Some? ==> ReadBack(hc.headers, q, hash, number, origin.value)
    ensures origin.Some? && q.hash == ZERO_HASH ==> OnIndex(hc.headers, hc.canonical, origin.value)
    ensures origin.None? ==>
      if q.hash != ZERO_HASH then served == [] && q.hash !in hc.headers else number !in hc.canonical
  {
    if q.hash != ZERO_HASH {
      if served == [] {
        origin := hc.GetHeaderByHash(hash);
      } else {
        origin := hc.GetHeader(hash, number);
      }
    } else {
      origin := hc.GetHeaderByNumber(number);
    }
  }

  /** The traversal stopped, or can go on. */
  ghost predicate Progress(s: Store, q: Query, served: seq<Header>, hash: Hash, number: uint64, unknown: bool) {
    && (unknown ==> served != [])
    && (!unknown ==> Pending(s, q, served, hash, number))
    && (q.hash != ZERO_HASH && q.skip + 1 == TWO_64 && served != [] ==> unknown)
  }

  /** On a chain nobody changes, a canonical start stays canonical and ends only where it must. */
  ghost predicate Steady(s: Store, canonical: map<nat, Hash>, q: Query, served: seq<Header>, hash: Hash,
                         unknown: bool) {
    && (q.hash == ZERO_HASH ==> AllCanonical(s, canonical, served))
    && (CanonicalOrigin(s, canonical, q) && served != [] ==>
          && OnIndex(s, canonical, served[|served| - 1])
          && (unknown ==> Exhausted(canonical, q, served[|served| - 1]))
          && (!unknown && q.hash != ZERO_HASH ==> hash in s && OnIndex(s, canonical, s[hash])))
  }

  /** On a chain nobody changes, a backward walk that starts near the index reaches it within its budget
      and ends only where it must. */
  ghost predicate Near(s: Store, canonical: map<nat, Hash>, q: Query, served: seq<Header>, hash: Hash,
                       unknown: bool, budget: nat) {
    NearOrigin(s, canonical, q) ==>
      if served != [] && unknown then Exhausted(canonical, q, served[|served| - 1])
      else hash in s && JoinsWithin(s, canonical, s[hash], budget)
  }

  /** Moves on from the header just served. */
  method Advance(hc: HeaderChain, q: Query, served: seq<Header>, origin: Header, number: uint64, budget: nat,
                 others: seq<ChainOp>)
    returns (hash': Hash, number': uint64, unknown: bool, left: nat)
    requires hc.Valid() && ReadBack(hc.headers, q, origin.hash, number, origin)
    modifies hc
    ensures hc.Valid() && Extends(old(hc.headers), hc.headers)
    ensures others == [] ==> hc.headers == old(hc.headers) && hc.canonical == old(hc.canonical)
    ensures Progress(hc.headers, q, served + [origin], hash', number', unknown)
    ensures others == [] && OnIndex(hc.headers, hc.canonical, origin) ==>
      && (unknown ==> Exhausted(hc.canonical, q, origin))
      && (!unknown && q.hash != ZERO_HASH ==>
        hash' in hc.headers && OnIndex(hc.headers, hc.canonical, hc.headers[hash']))
    ensures others == [] && q.hash != ZERO_HASH && q.reverse ==>
      (JoinsWithin(hc.headers, hc.canonical, origin, budget) ==>
        if unknown then Exhausted(hc.canonical, q, origin)
        else hash' in hc.headers && JoinsWithin(hc.headers, hc.canonical, hc.headers[hash'], left))
  {
    hide JoinsWithin;
    if q.hash != ZERO_HASH {
      hash', number', unknown, left := AdvanceByHash(hc, q, origin, budget, others);
    } else {
      var next := NextNumber(q, number);
      hash', unknown, left := q.hash, next.None?, budget;
      number' := if next.Some? then next.value else number;
    }
  }

  /** On a chain nobody changes, a canonical start is exhausted, or its next header is canonical. */
  lemma CanonicalGoesOn(s: Store, genesis: Hash, tip: Hash, canonical: map<nat, Hash>, q: Query,
                        served: seq<Header>, hash: Hash, number: uint64)
    requires WellFormed(s, genesis) && tip in s && canonical == IndexOf(s, genesis, tip)
    requires Progress(s, q, served, hash, number, false) && Steady(s, canonical, q, served, hash, false)
    requires CanonicalOrigin(s, canonical, q)
    ensures q.hash == ZERO_HASH && number !in canonical ==>
      served != [] && Exhausted(canonical, q, served[|served| - 1])
    ensures forall h :: ReadBack(s, q, hash, number, h) && q.hash != ZERO_HASH ==> OnIndex(s, canonical, h)
  {
    if q.hash == ZERO_HASH && served != [] {
      NumberGoesOn(canonical, q, served[|served| - 1], number);
    }
    hide Exhausted, FollowsByHash, NextNumber;
  }

  /** On a gap-free index a number that is missing is beyond its end. */
  lemma NumberGoesOn(canonical: map<nat, Hash>, q: Query, last: Header, number: uint64)
    requires q.hash == ZERO_HASH && NextNumber(q, last.number) == Some(number)
    requires forall n: nat :: n <= last.number ==> n in canonical
    ensures number !in canonical ==> Exhausted(canonical, q, last)
  {
  }

  /** Nobody else writes to the chain during the query. */
  ghost predicate Quiet(others: nat -> nat -> seq<ChainOp>) {
    forall i: nat, k: nat :: others(i)(k) == []
  }

  /** One pass of the loop: reads the pending header, if there is one, and moves on; others may write
      to the chain before every read. */
  method ServeOne(hc: HeaderChain, q: Query, served: seq<Header>, hash: Hash, number: uint64, budget: nat,
                  others: nat -> seq<ChainOp>)
    returns (origin: Option<Header>, hash': Hash, number': uint64, unknown: bool, left: nat)
    requires hc.Valid() && Answers(hc.headers, q, served) && |served| < Limit(q)
    requires Progress(hc.headers, q, served, hash, number, false)
    modifies hc
    ensures hc.Valid() && Extends(old(hc.headers), hc.headers)
    ensures origin.None? ==> Answers(hc.headers, q, served)
    ensures origin.None? && q.hash != ZERO_HASH ==> served == [] && q.hash !in old(hc.headers)
    ensures origin.Some? ==> Answers(hc.headers, q, served + [origin.value])
    ensures origin.Some? ==> Progress(hc.headers, q, served + [origin.value], hash', number', unknown)
    ensures others(0) == others(1) == others(2) == [] ==>
      && hc.headers == old(hc.headers) && hc.canonical == old(hc.canonical)
      && (Steady(hc.headers, hc.canonical, q, served, hash, false) ==>
            PassesOn(hc.headers, hc.canonical, q, served, origin, hash', unknown))
    ensures others(0) == others(1) == others(2) == [] ==>
      (Near(hc.headers, hc.canonical, q, served, hash, false, budget) ==>
        if origin.Some? then Near(hc.headers, hc.canonical, q, served + [origin.value], hash', unknown, left)
        else !NearOrigin(hc.headers, hc.canonical, q))
  {
    hide JoinsWithin, Near;
    hide Answers, Pending, Exhausted, OnIndex, Stored, CanonicalOrigin;
    hash', number', unknown, left := hash, number, false, budget;
    ghost var s, canonical := hc.headers, hc.canonical;
    Meanwhile(hc, others(0));
    AnswersStay(s, hc.headers, q, served);
    PendingStays(s, hc.headers, q, served, hash, number);
    origin := ReadOrigin(hc, q, served, hash, number);
    ghost var first := origin;
    if origin.Some? {
      AnswerGrows(hc.headers, q, served, hash, number, origin.value);
      ghost var read := hc.headers;
      Meanwhile(hc, others(1));
      ReadBackStays(read, hc.headers, q, origin.value.hash, number, origin.value);
      hash', number', unknown, left := Advance(hc, q, served, origin.value, number, budget, others(2));
      AnswersStay(read, hc.headers, q, served + [origin.value]);
    }
    if others(0) == others(1) == others(2) == [] && Steady(s, canonical, q, served, hash, false) {
      SteadyGoesOn(s, hc.genesis, hc.tip, canonical, q, served, hash, number, origin, hash', unknown);
    }
    if others(0) == others(1) == others(2) == [] && origin.Some? && Near(s, canonical, q, served, hash, false, budget) {
      NearGoesOn(s, canonical, q, served, hash, number, origin.value, hash', unknown, budget, left);
    }
  }

  lemma NearGoesOn(s: Store, canonical: map<nat, Hash>, q: Query, served: seq<Header>, hash: Hash, number: uint64,
                   origin: Header, hash': Hash, unknown: bool, budget: nat, left: nat)
    requires ReadBack(s, q, hash, number, origin) && Near(s, canonical, q, served, hash, false, budget)
    requires q.hash != ZERO_HASH && q.reverse && JoinsWithin(s, canonical, origin, budget) ==>
      if unknown then Exhausted(canonical, q, origin) else hash' in s && JoinsWithin(s, canonical, s[hash'], left)
    ensures Near(s, canonical, q, served + [origin], hash', unknown, left)
  {
    hide JoinsWithin, Exhausted;
  }

  /** A pass on a chain nobody changes: the answer stays canonical, and stops only where it must. */
  ghost predicate PassesOn(s: Store, canonical: map<nat, Hash>, q: Query, served: seq<Header>, origin: Option<Header>,
                           hash: Hash, unknown: bool) {
    if origin.Some? then Steady(s, canonical, q, served + [origin.value], hash, unknown)
    else CanonicalOrigin(s, canonical, q) ==> served != [] && Exhausted(canonical, q, served[|served| - 1])
  }

  lemma SteadyGoesOn(s: Store, genesis: Hash, tip: Hash, canonical: map<nat, Hash>, q: Query, served: seq<Header>,
                     hash: Hash, number: uint64, origin: Option<Header>, hash': Hash, unknown: bool)
    requires WellFormed(s, genesis) && tip in s && canonical == IndexOf(s, genesis, tip)
    requires Progress(s, q, served, hash, number, false) && Steady(s, canonical, q, served, hash, false)
    requires origin.Some? ==> ReadBack(s, q, hash, number, origin.value)
    requires origin.Some? && q.hash == ZERO_HASH ==> OnIndex(s, canonical, origin.value)
    requires origin.None? ==> if q.hash != ZERO_HASH then served == [] && q.hash !in s else number !in canonical
    requires origin.Some? && OnIndex(s, canonical, origin.value) ==>
      && (unknown ==> Exhausted(canonical, q, origin.value))
      && (!unknown && q.hash != ZERO_HASH ==> hash' in s && OnIndex(s, canonical, s[hash']))
    ensures PassesOn(s, canonical, q, served, origin, hash', unknown)
  {
    if CanonicalOrigin(s, canonical, q) {
      CanonicalGoesOn(s, genesis, tip, canonical, q, served, hash, number);
    }
    hide Exhausted, IndexOf, FollowsByHash, Pending;
  }

  /** The whole traversal loop, with whatever others do to the chain before each of its reads. */
  method Serve(hc: HeaderChain, q: Query, others: nat -> nat -> seq<ChainOp>) returns (served: seq<Header>)
    requires hc.Valid()
    modifies hc
    ensures hc.Valid() && Extends(old(hc.headers), hc.headers)
    ensures Answers(hc.headers, q, served)
    ensures q.hash != ZERO_HASH && q.hash in old(hc.headers) && 0 < Limit(q) ==> served != []
    ensures Quiet(others) ==> hc.headers == old(hc.headers) && hc.canonical == old(hc.canonical)
    ensures Quiet(others) && q.hash == ZERO_HASH ==> AllCanonical(hc.headers, hc.canonical, served)
    ensures Quiet(others) && CanonicalOrigin(hc.headers, hc.canonical, q) && 0 < Limit(q) ==>
      served != [] && (|served| == Limit(q) || Exhausted(hc.canonical, q, served[|served| - 1]))
    ensures Quiet(others) && NearOrigin(hc.headers, hc.canonical, q) && 0 < Limit(q) ==>
      served != [] && (|served| == Limit(q) || Exhausted(hc.canonical, q, served[|served| - 1]))
  {
    hide JoinsWithin, NearOrigin, Near;
    hide Answers, Pending, Exhausted, OnIndex, Stored, CanonicalOrigin;
    ghost var s, canonical := hc.headers, hc.canonical;
    NearStart(s, canonical, q);
    var budget: nat, bytes, unknown := MAX_NON_CANONICAL, 0, false;
    var hash, number: uint64 := q.hash, q.number;
    served := [];
    NothingServed(s, q);
    while !unknown && |served| < AsInt(q.amount) && bytes < SOFT_RESPONSE_LIMIT && |served| < MAX_HEADER_FETCH
      invariant hc.Valid() && Extends(s, hc.headers)
      invariant bytes == EST_HEADER_RLP_SIZE * |served| && |served| <= Limit(q)
      invariant Answers(hc.headers, q, served) && Progress(hc.headers, q, served, hash, number, unknown)
      invariant Quiet(others) ==>
        hc.headers == s && hc.canonical == canonical && Steady(s, canonical, q, served, hash, unknown)
      invariant Quiet(others) ==> Near(s, canonical, q, served, hash, unknown, budget)
      decreases MAX_HEADER_FETCH - |served|
    {
      var origin;
      origin, hash, number, unknown, budget := ServeOne(hc, q, served, hash, number, budget, others(|served|));
      if origin.None? {
        break;
      }
      served := served + [origin.value];
      bytes := bytes + EST_HEADER_RLP_SIZE;
    }
    if Quiet(others) && NearOrigin(s, canonical, q) {
      NearEnds(s, canonical, q, served, hash, unknown, budget);
    }
  }

  lemma NearStart(s: Store, canonical: map<nat, Hash>, q: Query)
    ensures Near(s, canonical, q, [], q.hash, false, 100)
  {
  }

  lemma NearEnds(s: Store, canonical: map<nat, Hash>, q: Query, served: seq<Header>, hash: Hash, unknown: bool,
                 budget: nat)
    requires NearOrigin(s, canonical, q) && Near(s, canonical, q, served, hash, unknown, budget)
    ensures served != [] && unknown ==> Exhausted(canonical, q, served[|served| - 1])
  {
  }

  lemma NothingServed(s: Store, q: Query)
    ensures Answers(s, q, []) && Pending(s, q, [], q.hash, q.number)
  {
  }
}
