/** What a fair eviction is, with no reference to how the pool carries it out: one level for
    all non-local accounts, as high as the global limit allows. */
module FairEviction {
  import opened Options
  import opened Ancestry
  import opened Transactions

  type Queues = map<Address, seq<Tx>>

  /** The places taken in the queues. */
  function Places(q: Queues): set<(Address, int)> {
    set a, i | a in q && 0 <= i < |q[a]| :: (a, i)
  }

  /** The number of queued transactions. */
  function Total(q: Queues): nat {
    |Places(q)|
  }

  lemma {:induction false} PlacesOfOne(a: Address, n: nat)
    ensures |set i | 0 <= i < n :: (a, i)| == n
  {
    if n == 0 {
      assert (set i | 0 <= i < n :: (a, i)) == {};
    } else {
      PlacesOfOne(a, n - 1);
      assert (set i | 0 <= i < n :: (a, i)) == (set i | 0 <= i < n - 1 :: (a, i)) + {(a, n - 1)};
    }
  }

  lemma TotalSplit(q: Queues, a: Address)
    requires a in q
    ensures Total(q) == |q[a]| + Total(q - {a})
  {
    var own := set i | 0 <= i < |q[a]| :: (a, i);
    PlacesOfOne(a, |q[a]|);
    assert Places(q) == own + Places(q - {a}) && own !! Places(q - {a});
  }

  lemma TotalUpdate(q: Queues, a: Address, s: seq<Tx>)
    requires a in q
    ensures Total(q[a := s]) == Total(q) - |q[a]| + |s|
  {
    TotalSplit(q, a);
    TotalSplit(q[a := s], a);
    assert q[a := s] - {a} == q - {a};
  }

  lemma TotalMonotone(p: Queues, q: Queues)
    requires p.Keys == q.Keys && forall a <- p :: |p[a]| <= |q[a]|
    ensures Total(p) <= Total(q)
  {
    SubsetSize(Places(p), Places(q));
  }

  lemma {:induction false} SubsetSize<T>(s: set<T>, t: set<T>)
    requires s <= t
    ensures |s| <= |t|
  {
    if s != {} {
      var x :| x in s;
      SubsetSize(s - {x}, t - {x});
    }
  }

  function Take(s: seq<Tx>, n: nat): (r: seq<Tx>)
    ensures r <= s && |r| == if |s| <= n then |s| else n
  {
    if |s| <= n then s else s[..n]
  }

  /** Every non-local account is shortened from the back to at most the level. */
  function CutTo(q: Queues, locals: set<Address>, level: nat): Queues {
    map a | a in q :: if a in locals then q[a] else Take(q[a], level)
  }

  lemma CutLength(q: Queues, locals: set<Address>, level: nat, a: Address)
    requires a in q
    ensures a in CutTo(q, locals, level)
    ensures |CutTo(q, locals, level)[a]| == if a in locals || |q[a]| <= level then |q[a]| else level
  {}

  /** The accounts a level bites. */
  function Above(q: Queues, locals: set<Address>, level: nat): set<Address> {
    set a | a in q && a !in locals && |q[a]| > level
  }

  /** One level for everybody, no lower than the guaranteed slots and no lower than needed. */
  ghost predicate IsFairCut(q: Queues, locals: set<Address>, accountSlots: nat, globalSlots: nat, q': Queues,
                            level: nat) {
    && level >= accountSlots
    && q' == CutTo(q, locals, level)
    && (Total(q') <= globalSlots || level == accountSlots)
    && NotTooLow(q, locals, globalSlots, q', level)
  }

  /** Nothing was cut, or one level higher would not have been enough. */
  ghost predicate NotTooLow(q: Queues, locals: set<Address>, globalSlots: nat, q': Queues, level: nat) {
    Total(q') == Total(q) || Total(CutTo(q, locals, level + 1)) > globalSlots
  }

  lemma CutMonotone(q: Queues, locals: set<Address>, low: nat, high: nat)
    requires low <= high
    ensures Total(CutTo(q, locals, low)) <= Total(CutTo(q, locals, high))
  {
    TotalMonotone(CutTo(q, locals, low), CutTo(q, locals, high));
  }

  lemma CutWithout(q: Queues, locals: set<Address>, level: nat, a: Address)
    requires a in q
    ensures Total(CutTo(q, locals, level)) ==
      (if a in locals || |q[a]| <= level then |q[a]| else level) + Total(CutTo(q - {a}, locals, level))
  {
    TotalSplit(CutTo(q, locals, level), a);
    assert CutTo(q, locals, level) - {a} == CutTo(q - {a}, locals, level);
  }

  /** Lowering the level by one costs one transaction per account above it. */
  lemma {:induction false} LevelStep(q: Queues, locals: set<Address>, level: nat)
    ensures Total(CutTo(q, locals, level + 1)) == Total(CutTo(q, locals, level)) + |Above(q, locals, level)|
    decreases |q|
  {
    if q == map[] {
      assert CutTo(q, locals, level + 1) == map[] == CutTo(q, locals, level);
      assert Above(q, locals, level) == {};
    } else {
      var a :| a in q;
      LevelStep(q - {a}, locals, level);
      CutWithout(q, locals, level + 1, a);
      CutWithout(q, locals, level, a);
      AboveWithout(q, locals, level, a);
    }
  }

  lemma AboveWithout(q: Queues, locals: set<Address>, level: nat, a: Address)
    requires a in q
    ensures |Above(q, locals, level)| ==
      |Above(q - {a}, locals, level)| + if a !in locals && |q[a]| > level then 1 else 0
  {
    var rest := Above(q - {a}, locals, level);
    if a !in locals && |q[a]| > level {
      assert Above(q, locals, level) == rest + {a};
    } else {
      assert Above(q, locals, level) == rest;
    }
  }

  /** A level that costs nothing bites nobody. */
  lemma FreeLevel(q: Queues, locals: set<Address>, level: nat)
    requires Total(CutTo(q, locals, level)) == Total(q)
    ensures CutTo(q, locals, level) == q
  {
    LevelStep(q, locals, level);
    TotalMonotone(CutTo(q, locals, level + 1), q);
    assert Above(q, locals, level) == {};
    forall a | a in q && a !in locals ensures |q[a]| <= level {
      assert a !in Above(q, locals, level);
    }
  }

  /** A level that bites nobody leaves every higher level without effect too. */
  lemma LooseLevel(q: Queues, locals: set<Address>, low: nat, high: nat)
    requires CutTo(q, locals, low) == q && low <= high
    ensures CutTo(q, locals, high) == q
  {
    forall a | a in q && a !in locals ensures |q[a]| <= low {
      assert CutTo(q, locals, low)[a] == Take(q[a], low);
    }
  }

  /** The outcome does not depend on map order or on how ties are broken. */
  lemma FairCutIsUnique(q: Queues, locals: set<Address>, accountSlots: nat, globalSlots: nat,
                        p: Queues, level: nat, p': Queues, level': nat)
    requires IsFairCut(q, locals, accountSlots, globalSlots, p, level)
    requires IsFairCut(q, locals, accountSlots, globalSlots, p', level')
    ensures p == p'
  {
    LowerFairCut(q, locals, accountSlots, globalSlots, p, level, p', level');
    LowerFairCut(q, locals, accountSlots, globalSlots, p', level', p, level);
  }

  lemma LowerFairCut(q: Queues, locals: set<Address>, accountSlots: nat, globalSlots: nat,
                     p: Queues, level: nat, p': Queues, level': nat)
    requires IsFairCut(q, locals, accountSlots, globalSlots, p, level)
    requires IsFairCut(q, locals, accountSlots, globalSlots, p', level')
    ensures level <= level' ==> p == p'
  {
    if level < level' {
      if Total(p) == Total(q) {
        FreeLevel(q, locals, level);
        LooseLevel(q, locals, level, level');
      } else {
        CutMonotone(q, locals, level + 1, level');
        assert false;
      }
    }
  }

  /** What accounts and the pool may rely on. */
  lemma FairCutGuarantees(q: Queues, locals: set<Address>, accountSlots: nat, globalSlots: nat, q': Queues, level: nat)
    requires IsFairCut(q, locals, accountSlots, globalSlots, q', level)
    ensures q'.Keys == q.Keys && forall a <- q :: q'[a] <= q[a]
    ensures Total(q') <= globalSlots || forall a <- q' :: a !in locals ==> |q'[a]| <= accountSlots
    ensures forall a <- q :: a in locals || |q[a]| <= accountSlots ==> q'[a] == q[a]
    ensures forall a <- q :: |q[a]| >= accountSlots ==> |q'[a]| >= accountSlots
    ensures q' != q ==> Total(q') + |Above(q, locals, level)| > globalSlots
    ensures Total(q) <= globalSlots ==> q' == q
  {
    hide Total;
    LevelStep(q, locals, level);
    TotalMonotone(CutTo(q, locals, level + 1), q);
    if Total(q') == Total(q) {
      FreeLevel(q, locals, level);
    }
  }
}
