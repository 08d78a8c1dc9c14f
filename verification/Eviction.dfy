/** The eviction loops of the transaction pool, on the queue objects and the lookup they update. */
module Evictions {
  import opened Options
  import opened Ancestry
  import opened Transactions
  import opened TxQueues
  import opened FairEviction
  import opened PoolConsistency
  import opened TxPools

  datatype Limits = Limits(locals: set<Address>, accountSlots: nat, globalSlots: nat)

  /** Sums up the queue lengths, account by account. */
  method CountPending(pool: TxPool) returns (total: nat)
    requires pool.Owns()
    ensures total == Total(pool.pending)
  {
    ghost var q := pool.pending;
    pool.AccountsMatch();
    hide Total;
    total := 0;
    var todo := pool.queues.Keys;
    NothingCounted(q);
    while todo != {}
      invariant todo <= q.Keys && total == Total(q - todo)
    {
      var a :| a in todo;
      TotalSplit(q - (todo - {a}), a);
      assert q - (todo - {a}) - {a} == q - todo;
      total := total + pool.Len(a);
      todo := todo - {a};
    }
    assert q - todo == q;
  }

  lemma NothingCounted(q: Queues)
    ensures Total(q - q.Keys) == 0
  {
    assert Places(q - q.Keys) == {};
  }

  /** The non-local accounts above their guaranteed slots, with their queue lengths. */
  method CollectSpammers(pool: TxPool, lim: Limits) returns (spammers: set<(Address, int)>)
    requires pool.Owns()
    ensures forall s :: s in spammers <==>
      s.0 in Above(pool.pending, lim.locals, lim.accountSlots) && s.1 == |pool.pending[s.0]|
  {
    ghost var q := pool.pending;
    pool.AccountsMatch();
    spammers := {};
    var todo := pool.queues.Keys;
    while todo != {}
      invariant todo <= q.Keys
      invariant forall s :: s in spammers <==>
        s.0 !in todo && s.0 in Above(q, lim.locals, lim.accountSlots) && s.1 == |q[s.0]|
    {
      var a :| a in todo;
      if a !in lim.locals && pool.Len(a) > lim.accountSlots {
        spammers := spammers + {(a, pool.Len(a))};
      }
      todo := todo - {a};
    }
  }

  /** Drops the newest transaction of one account from its queue and the lookup. */
  method DropNewest(pool: TxPool, a: Address)
    requires pool.Valid() && a in pool.queues && a in pool.pending && pool.pending[a] != []
    modifies pool`pending, pool`all, pool.queues[a]
    ensures pool.Valid()
    ensures var txs := old(pool.pending)[a];
      && pool.pending == old(pool.pending)[a := txs[..|txs| - 1]]
      && pool.all == old(pool.all) - {txs[|txs| - 1].hash}
  {
    ghost var q, all := pool.pending, pool.all;
    var txs := pool.Get(a);
    NewestMayGo(q, all, a);
    hide Consistent, Kept;
    var hash := txs[|txs| - 1].hash;
    pool.all := pool.all - {hash};
    pool.RemoveFrom(a, hash);
  }

  lemma NewestMayGo(q: Queues, all: map<Hash, Tx>, a: Address)
    requires Consistent(q, all) && a in q && q[a] != []
    ensures var txs, hash := q[a], q[a][|q[a]| - 1].hash;
      Kept(txs, {hash}, None) == txs[..|txs| - 1] && Consistent(q[a := txs[..|txs| - 1]], all - {hash})
  {
    var txs := q[a];
    var hash := txs[|txs| - 1].hash;
    KeptWithoutOne(txs, |txs| - 1);
    assert txs[..|txs| - 1] + txs[|txs|..] == txs[..|txs| - 1];
    KeptMembers(txs, {hash}, None);
    KeptIsDistinct(txs, {hash}, None);
    assert Filed(all, a, txs[|txs| - 1]);
    RemovalKeepsConsistency(q, all, a, Kept(txs, {hash}, None), {hash});
  }

  /** The queues are those at the start cut to a level that was still needed. */
  ghost predicate Trimmed(q0: Queues, lim: Limits, q: Queues, known: map<Hash, Tx>, level: nat, total: int) {
    && Consistent(q, known) && total == Total(q)
    && level >= lim.accountSlots
    && q == CutTo(q0, lim.locals, level)
    && NotTooLow(q0, lim.locals, lim.globalSlots, q, level)
  }

  /** One round over the offenders lowers the level by one. */
  method DropRound(pool: TxPool, offenders: seq<Address>, total: int, lim: Limits, ghost q0: Queues, ghost level: nat)
    returns (total': int)
    requires pool.Owns() && Trimmed(q0, lim, pool.pending, pool.all, level, total)
    requires total > lim.globalSlots && level > lim.accountSlots
    requires NoDuplicates(offenders) && forall a :: a in offenders <==> a in Above(q0, lim.locals, level - 1)
    modifies pool`pending, pool`all, pool.queues.Values
    ensures pool.Owns() && Trimmed(q0, lim, pool.pending, pool.all, level - 1, total')
  {
    hide Total, Consistent, Above, NotTooLow, CutTo, MixedCut, Take, TxPool.Owns;
    total' := total;
    MixedDone(q0, lim.locals, level, offenders);
    StillNeeded(q0, lim, level);
    var i := 0;
    while i < |offenders|
      invariant 0 <= i <= |offenders| && pool.Valid() && total' == Total(pool.pending)
      invariant pool.pending == MixedCut(q0, lim.locals, level, offenders[..i])
    {
      var a := offenders[i];
      assert a in offenders;
      MixedStep(q0, lim.locals, level, offenders, i);
      TotalUpdate(pool.pending, a, pool.pending[a][..|pool.pending[a]| - 1]);
      pool.AccountsMatch();
      DropNewest(pool, a);
      total' := total' - 1;
      i := i + 1;
    }
    assert offenders[..i] == offenders;
  }

  /** Equalises all earlier offenders down to the newest one, or until the limit is met. */
  method Equalise(pool: TxPool, offenders: seq<Address>, total: int, lim: Limits,
                  ghost q0: Queues, ghost level: nat, ghost queue: set<(Address, int)>)
    returns (total': int, ghost level': nat)
    requires pool.Owns() && Trimmed(q0, lim, pool.pending, pool.all, level, total)
    requires total > lim.globalSlots && |offenders| > 0
    requires CanEqualise(q0, lim, pool.pending, offenders[..|offenders| - 1], offenders[|offenders| - 1], level, queue)
    modifies pool`pending, pool`all, pool.queues.Values
    ensures pool.Owns() && Trimmed(q0, lim, pool.pending, pool.all, level', total')
    ensures total' > lim.globalSlots ==> level' == |q0[offenders[|offenders| - 1]]|
    ensures forall a <- offenders[..|offenders| - 1] :: a in pool.pending && |pool.pending[a]| == level'
    ensures |offenders| == 1 ==> pool.pending == old(pool.pending)
  {
    hide Total, Consistent, CutTo, NotTooLow, Above, TxPool.Owns;
    var prev := offenders[..|offenders| - 1];
    var offender := offenders[|offenders| - 1];
    RankedMember(q0, lim.locals, lim.accountSlots, prev, queue, offender);
    total', level' := total, level;
    pool.AccountsMatch();
    if |offenders| == 1 {
      level' := |q0[offender]|;
      RankedBound(q0, lim.locals, lim.accountSlots, prev, queue, level');
      assert NotTooLow(q0, lim.locals, lim.globalSlots, pool.pending, level') by {
        UncutIsNotTooLow(q0, lim.locals, lim.globalSlots, level');
      }
    } else {
      CutLength(q0, lim.locals, level, offender);
      var threshold := pool.Len(offender);
      var second := offenders[|offenders| - 2];
      assert second == prev[|prev| - 1] && second in prev;
      RankedMember(q0, lim.locals, lim.accountSlots, prev, queue, second);
      CutLength(q0, lim.locals, level, second);
      while total' > lim.globalSlots && pool.Len(second) > threshold
        invariant pool.Owns() && second in pool.queues
        invariant Trimmed(q0, lim, pool.pending, pool.all, level', total') && level' >= threshold
        invariant AtLevel(q0, prev, {}, level') && second in pool.pending && |pool.pending[second]| == level'
        decreases level'
      {
        RoundTargets(q0, lim.locals, lim.accountSlots, prev, queue, level');
        total' := DropRound(pool, prev, total', lim, q0, level');
        level' := level' - 1;
        CutLength(q0, lim.locals, level', second);
        pool.AccountsMatch();
      }
      forall a | a in prev ensures a in pool.pending && |pool.pending[a]| == level' {
        RankedMember(q0, lim.locals, lim.accountSlots, prev, queue, a);
        CutLength(q0, lim.locals, level', a);
      }
    }
  }

  /** The newest offender heads the queue of spammers; earlier ones are level with each other. */
  ghost predicate CanEqualise(q0: Queues, lim: Limits, q: Queues, prev: seq<Address>, last: Address, level: nat,
                              queue: set<(Address, int)>) {
    && Ranked(q0, lim.locals, lim.accountSlots, prev, queue) && AtLevel(q0, prev, queue, level)
    && last in q0 && (last, |q0[last]|) in queue && (forall s <- queue :: s.1 <= |q0[last]|)
    && (prev == [] ==> q == q0)
  }

  /** Reduces all offenders together to the limit or to the guaranteed slots. */
  method Reduce(pool: TxPool, offenders: seq<Address>, total: int, lim: Limits, ghost q0: Queues, ghost level: nat)
    returns (total': int, ghost level': nat)
    requires pool.Owns() && Trimmed(q0, lim, pool.pending, pool.all, level, total) && offenders != []
    requires Ranked(q0, lim.locals, lim.accountSlots, offenders, {}) && AtLevel(q0, offenders, {}, level)
    modifies pool`pending, pool`all, pool.queues.Values
    ensures pool.Owns() && Trimmed(q0, lim, pool.pending, pool.all, level', total')
    ensures total' <= lim.globalSlots || level' == lim.accountSlots
  {
    hide Total, Consistent, CutTo, NotTooLow, Above, TxPool.Owns;
    total', level' := total, level;
    var last := offenders[|offenders| - 1];
    RankedMember(q0, lim.locals, lim.accountSlots, offenders, {}, last);
    CutLength(q0, lim.locals, level, last);
    pool.AccountsMatch();
    while total' > lim.globalSlots && pool.Len(last) > lim.accountSlots
      invariant pool.Owns() && last in pool.queues && Trimmed(q0, lim, pool.pending, pool.all, level', total')
      invariant AtLevel(q0, offenders, {}, level') && last in pool.pending && |pool.pending[last]| == level'
      decreases level'
    {
      RoundTargets(q0, lim.locals, lim.accountSlots, offenders, {}, level');
      total' := DropRound(pool, offenders, total', lim, q0, level');
      level' := level' - 1;
      CutLength(q0, lim.locals, level', last);
      pool.AccountsMatch();
    }
  }

  /** promoteExecutables: over the global limit, the longest non-local queues are trimmed to a
      common level. Whatever the map order and the tie breaking, the outcome is the fair cut. */
  method PromoteExecutables(pool: TxPool) returns (ghost level: nat)
    requires pool.Valid()
    modifies pool`pending, pool`all, pool.queues.Values
    ensures pool.Valid()
    ensures IsFairCut(old(pool.pending), pool.locals, pool.accountSlots, pool.globalSlots, pool.pending, level)
  {
    hide Total, Consistent, CutTo, NotTooLow, Above, TxPool.Owns, Trimmed, Ranked, AtLevel, CanEqualise, IsFairCut;
    ghost var q := pool.pending;
    var lim := Limits(pool.locals, pool.accountSlots, pool.globalSlots);
    var total: int := CountPending(pool);
    level := Tallest(q, lim.accountSlots);
    UncutIsTrimmed(q, lim, pool.all, level, total);
    if total > lim.globalSlots {
      var spammers := CollectSpammers(pool, lim);
      var offenders: seq<Address> := [];
      StartRanked(q, lim.locals, lim.accountSlots, spammers, level);
      while total > lim.globalSlots && spammers != {}
        invariant pool.Owns() && Trimmed(q, lim, pool.pending, pool.all, level, total)
        invariant Ranked(q, lim.locals, lim.accountSlots, offenders, spammers)
        invariant total > lim.globalSlots ==> AtLevel(q, offenders, spammers, level)
        invariant offenders == [] ==> pool.pending == q
        decreases |spammers|
      {
        var spammer := PopLongest(spammers);
        ghost var queue, prev := spammers, offenders;
        OffenderJoins(q, lim, pool.pending, offenders, spammers, spammer, level);
        offenders := offenders + [spammer.0];
        spammers := spammers - {spammer};
        assert offenders[..|offenders| - 1] == prev;
        total, level := Equalise(pool, offenders, total, lim, q, level, queue);
      }
      if total > lim.globalSlots && |offenders| > 0 {
        total, level := Reduce(pool, offenders, total, lim, q, level);
      } else if total > lim.globalSlots {
        ghost var before := level;
        level := lim.accountSlots;
        RankedBound(q, lim.locals, lim.accountSlots, [], {}, level);
        UncutAtAnyLevel(q, lim, pool.all, before, level, total);
      }
    }
    TrimmedIsFair(q, lim, pool.pending, pool.all, level, total);
  }

  lemma UncutIsTrimmed(q: Queues, lim: Limits, all: map<Hash, Tx>, level: nat, total: int)
    requires Consistent(q, all) && total == Total(q) && level >= lim.accountSlots
    requires CutTo(q, lim.locals, level) == q || forall a <- q :: |q[a]| <= level
    ensures Trimmed(q, lim, q, all, level, total)
  {
    hide Total, Consistent;
    UncutIsNotTooLow(q, lim.locals, lim.globalSlots, level);
  }

  lemma UncutAtAnyLevel(q: Queues, lim: Limits, all: map<Hash, Tx>, level: nat, level': nat, total: int)
    requires Trimmed(q, lim, q, all, level, total) && level' >= lim.accountSlots && CutTo(q, lim.locals, level') == q
    ensures Trimmed(q, lim, q, all, level', total)
  {
    hide Total, Consistent, CutTo;
    UncutIsNotTooLow(q, lim.locals, lim.globalSlots, level');
  }

  lemma TrimmedIsFair(q0: Queues, lim: Limits, q: Queues, all: map<Hash, Tx>, level: nat, total: int)
    requires Trimmed(q0, lim, q, all, level, total) && (total <= lim.globalSlots || level == lim.accountSlots)
    ensures IsFairCut(q0, lim.locals, lim.accountSlots, lim.globalSlots, q, level) && Consistent(q, all)
  {
    hide Total, Consistent, NotTooLow, CutTo;
  }

  /** The next longest account joins the offenders, all of them level with each other. */
  lemma OffenderJoins(q: Queues, lim: Limits, pending: Queues, offenders: seq<Address>,
                      spammers: set<(Address, int)>, s: (Address, int), level: nat)
    requires Ranked(q, lim.locals, lim.accountSlots, offenders, spammers) && AtLevel(q, offenders, spammers, level)
    requires s in spammers && (forall t <- spammers :: t.1 <= s.1) && (offenders == [] ==> pending == q)
    ensures CanEqualise(q, lim, pending, offenders, s.0, level, spammers)
    ensures Ranked(q, lim.locals, lim.accountSlots, offenders + [s.0], spammers - {s})
    ensures s.0 in q && AtLevel(q, offenders + [s.0], spammers - {s}, |q[s.0]|)
  {
    PopKeepsRanked(q, lim.locals, lim.accountSlots, offenders, spammers, s);
    RankedAtLast(q, lim.locals, lim.accountSlots, offenders, spammers, s);
    assert (s.0, |q[s.0]|) == s;
    hide Ranked, AtLevel;
  }

  /** The priority queue pops a longest account; ties are broken arbitrarily. */
  method PopLongest(spammers: set<(Address, int)>) returns (spammer: (Address, int))
    requires spammers != {}
    ensures spammer in spammers && forall s <- spammers :: s.1 <= spammer.1
  {
    LongestExists(spammers);
    spammer :| spammer in spammers && forall s <- spammers :: s.1 <= spammer.1;
  }

  lemma UncutIsNotTooLow(q: Queues, locals: set<Address>, globalSlots: nat, level: nat)
    ensures NotTooLow(q, locals, globalSlots, q, level)
  {}

  lemma StartRanked(q: Queues, locals: set<Address>, slots: nat, spammers: set<(Address, int)>, level: nat)
    requires forall s :: s in spammers <==> s.0 in Above(q, locals, slots) && s.1 == |q[s.0]|
    requires forall a <- q :: |q[a]| <= level
    ensures Ranked(q, locals, slots, [], spammers) && AtLevel(q, [], spammers, level)
  {}

  lemma RankedMember(q: Queues, locals: set<Address>, slots: nat, offenders: seq<Address>,
                     spammers: set<(Address, int)>, a: Address)
    requires Ranked(q, locals, slots, offenders, spammers)
    requires a in offenders || exists s :: s in spammers && s.0 == a
    ensures a in q && a !in locals && |q[a]| > slots
  {}

  /** After a pop, everybody ranked is level with or on the right side of the newest offender. */
  lemma RankedAtLast(q: Queues, locals: set<Address>, slots: nat, offenders: seq<Address>,
                     spammers: set<(Address, int)>, s: (Address, int))
    requires Ranked(q, locals, slots, offenders, spammers) && s in spammers && forall t <- spammers :: t.1 <= s.1
    ensures s.0 in q && s.1 == |q[s.0]| && AtLevel(q, offenders + [s.0], spammers - {s}, |q[s.0]|)
  {}

  /** The length of the longest queue, at least n. */
  ghost function Tallest(q: Queues, n: nat): (m: nat)
    ensures m >= n && forall a <- q :: |q[a]| <= m
    decreases |q|
  {
    if q == map[] then n
    else
      var a :| a in q;
      var m := Tallest(q - {a}, n);
      assert forall b <- q :: b == a || b in q - {a};
      if |q[a]| > m then |q[a]| else m
  }

  /** Offenders and the queue of spammers share out the accounts above their slots; whoever
      is still queued is no longer than any offender was. */
  ghost predicate Ranked(q: Queues, locals: set<Address>, slots: nat, offenders: seq<Address>,
                         spammers: set<(Address, int)>) {
    && NoDuplicates(offenders)
    && (forall a <- offenders :: a in Above(q, locals, slots))
    && (forall s <- spammers :: s.0 in Above(q, locals, slots) && s.0 !in offenders && s.1 == |q[s.0]|)
    && (forall a <- Above(q, locals, slots) :: a in offenders || (a, |q[a]|) in spammers)
    && (forall a, s :: a in offenders && s in spammers ==> s.1 <= |q[a]|)
  }

  ghost predicate AtLevel(q: Queues, offenders: seq<Address>, spammers: set<(Address, int)>, level: nat) {
    && (forall a <- offenders :: a in q && |q[a]| >= level)
    && (forall s <- spammers :: s.1 <= level)
  }

  lemma LongestExists(spammers: set<(Address, int)>)
    requires spammers != {}
    ensures exists m :: m in spammers && forall s <- spammers :: s.1 <= m.1
  {
    var x :| x in spammers;
    if spammers != {x} {
      LongestExists(spammers - {x});
      var m :| m in spammers - {x} && forall s <- spammers - {x} :: s.1 <= m.1;
      assert forall s <- spammers :: s == x || s in spammers - {x};
    }
  }

  lemma PopKeepsRanked(q: Queues, locals: set<Address>, slots: nat, offenders: seq<Address>,
                       spammers: set<(Address, int)>, s: (Address, int))
    requires Ranked(q, locals, slots, offenders, spammers) && s in spammers && forall t <- spammers :: t.1 <= s.1
    ensures Ranked(q, locals, slots, offenders + [s.0], spammers - {s})
  {}

  /** With everybody ranked at or below a level, the level bites nobody. */
  lemma RankedBound(q: Queues, locals: set<Address>, slots: nat, offenders: seq<Address>,
                    spammers: set<(Address, int)>, level: nat)
    requires Ranked(q, locals, slots, offenders, spammers) && slots <= level
    requires (forall a <- offenders :: |q[a]| <= level) && forall s <- spammers :: s.1 <= level
    ensures CutTo(q, locals, level) == q
  {
    forall a | a in q && a !in locals ensures |q[a]| <= level {
      assert |q[a]| > slots ==> a in Above(q, locals, slots);
    }
  }

  /** A round at this level hits exactly the given offenders. */
  lemma RoundTargets(q: Queues, locals: set<Address>, slots: nat, offenders: seq<Address>,
                     spammers: set<(Address, int)>, level: nat)
    requires Ranked(q, locals, slots, offenders, spammers) && slots < level
    requires (forall a <- offenders :: |q[a]| >= level) && forall s <- spammers :: s.1 < level
    ensures forall a :: a in offenders <==> a in Above(q, locals, level - 1)
  {
    forall a | a in Above(q, locals, level - 1) ensures a in offenders {
      assert a in Above(q, locals, slots);
    }
  }

  lemma TakeOneLess(s: seq<Tx>, level: nat)
    requires 0 < level <= |s|
    ensures Take(s, level) != [] && Take(s, level)[..|Take(s, level)| - 1] == Take(s, level - 1)
  {
    assert s[..level][..level - 1] == s[..level - 1];
  }

  lemma VisitOne(offenders: seq<Address>, i: nat)
    requires i < |offenders| && NoDuplicates(offenders)
    ensures offenders[i] !in offenders[..i]
    ensures forall b :: b in offenders[..i + 1] <==> b in offenders[..i] || b == offenders[i]
  {
    assert offenders[..i + 1] == offenders[..i] + [offenders[i]];
  }

  lemma MixedMore(q: Queues, locals: set<Address>, level: nat, visited: seq<Address>, visited': seq<Address>,
                  a: Address)
    requires 0 < level && a in q && a !in locals && |q[a]| >= level && a !in visited
    requires forall b :: b in visited' <==> b in visited || b == a
    ensures var p := MixedCut(q, locals, level, visited);
      && a in p && p[a] != []
      && MixedCut(q, locals, level, visited') == p[a := p[a][..|p[a]| - 1]]
  {
    TakeOneLess(q[a], level);
    hide Take;
  }

  lemma MixedStep(q: Queues, locals: set<Address>, level: nat, offenders: seq<Address>, i: nat)
    requires level > 0 && i < |offenders| && NoDuplicates(offenders) && offenders[i] in Above(q, locals, level - 1)
    ensures var p, a := MixedCut(q, locals, level, offenders[..i]), offenders[i];
      && a in p && p[a] != []
      && MixedCut(q, locals, level, offenders[..i + 1]) == p[a := p[a][..|p[a]| - 1]]
  {
    VisitOne(offenders, i);
    hide MixedCut, NoDuplicates;
    MixedMore(q, locals, level, offenders[..i], offenders[..i + 1], offenders[i]);
  }

  lemma StillNeeded(q0: Queues, lim: Limits, level: nat)
    requires level > 0 && Total(CutTo(q0, lim.locals, level)) > lim.globalSlots
    ensures NotTooLow(q0, lim.locals, lim.globalSlots, CutTo(q0, lim.locals, level - 1), level - 1)
  {
    assert level - 1 + 1 == level;
  }

  lemma MixedDone(q: Queues, locals: set<Address>, level: nat, offenders: seq<Address>)
    requires level > 0 && forall a :: a in offenders <==> a in Above(q, locals, level - 1)
    ensures MixedCut(q, locals, level, offenders) == CutTo(q, locals, level - 1)
    ensures MixedCut(q, locals, level, []) == CutTo(q, locals, level)
  {}

  ghost predicate NoDuplicates(s: seq<Address>) {
    forall i, j :: 0 <= i < j < |s| ==> s[i] != s[j]
  }

  /** A round in progress: the accounts already visited are one below the level. */
  function MixedCut(q: Queues, locals: set<Address>, level: nat, visited: seq<Address>): Queues
    requires level > 0
  {
    map a | a in q :: if a in locals then q[a] else Take(q[a], if a in visited then level - 1 else level)
  }
}
