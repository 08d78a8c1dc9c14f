/** The reorganisation walk of the transaction pool's reset: which transactions of the
    abandoned branch have to be injected again. */
module PoolReset {
  import opened Options
  import opened Ancestry
  import opened Transactions

  const MAX_REORG_DEPTH := 64

  datatype Block = Block(hash: Hash, parentHash: Hash, number: uint64, txs: seq<Tx>)

  type Blocks = map<Hash, Block>

  /** Blocks are stored under their own hash, and block numbers are not exhausted. */
  ghost predicate Keyed(s: Blocks) {
    forall h <- s :: s[h].hash == h && s[h].number < TWO_64 - 1
  }

  function GetBlock(s: Blocks, hash: Hash, number: uint64): (r: Option<Block>)
    ensures r.Some? <==> hash in s && s[hash].hash == hash && s[hash].number == number
    ensures r.Some? ==> r.value == s[hash]
  {
    if hash in s && s[hash].hash == hash && s[hash].number == number then Some(s[hash]) else None
  }

  /** The stored parent; the number below genesis wraps around and is never stored. */
  function Parent(s: Blocks, b: Block): (r: Option<Block>)
    ensures r.Some? && Keyed(s) ==> b.number > 0 && r.value.number == b.number - 1
  {
    GetBlock(s, b.parentHash, if b.number == 0 then TWO_64 - 1 else b.number - 1)
  }

  /** The block numbered n on the branch ending at b, if the branch is stored that far. */
  function At(s: Blocks, b: Block, n: nat): (r: Option<Block>)
    ensures r.Some? ==> r.value.number == n <= b.number
    decreases b.number
  {
    if b.number < n then None
    else if b.number == n then Some(b)
    else match Parent(s, b)
      case None => None
      case Some(p) => if p.number < b.number then At(s, p, n) else None
  }

  /** A branch is followed by parent hashes alone: its top is b, and the block below any of its blocks
      is the stored block that one names as its parent, if it has the number below. */
  lemma {:induction false} BranchIsLinked(s: Blocks, b: Block, n: nat)
    requires Keyed(s)
    ensures At(s, b, b.number) == Some(b)
    ensures n < b.number && At(s, b, n + 1).None? ==> At(s, b, n).None?
    ensures n < b.number && At(s, b, n + 1).Some? ==>
      var up := At(s, b, n + 1).value;
      At(s, b, n) == if up.parentHash in s && s[up.parentHash].number == n then Some(s[up.parentHash]) else None
    decreases b.number
  {
    if n + 1 < b.number {
      var parent := Parent(s, b);
      if parent.Some? { BranchIsLinked(s, parent.value, n); }
    } else if n + 1 == b.number {
      var parent := Parent(s, b);
      if parent.Some? { assert At(s, parent.value, n) == Some(parent.value); }
    }
  }

  /** The two branches share their block numbered n. */
  ghost predicate Common(s: Blocks, a: Block, b: Block, n: nat) {
    At(s, a, n).Some? && At(s, b, n).Some? && At(s, a, n).value.hash == At(s, b, n).value.hash
  }

  ghost predicate HighestCommon(s: Blocks, a: Block, b: Block, n: nat) {
    Common(s, a, b, n) && forall m: nat :: m > n ==> !Common(s, a, b, m)
  }

  /** Transactions of the blocks above number n, newest block first. */
  function TxsAbove(s: Blocks, b: Block, n: nat): seq<Tx>
    decreases b.number
  {
    if b.number <= n then []
    else b.txs + match Parent(s, b)
                 case None => []
                 case Some(p) => if p.number < b.number then TxsAbove(s, p, n) else []
  }

  /** Set difference by hash, in order. */
  function TxDifference(a: seq<Tx>, b: seq<Tx>): (keep: seq<Tx>)
    ensures forall tx :: tx in keep <==> tx in a && forall u <- b :: u.hash != tx.hash
  {
    if a == [] then []
    else if exists u <- b :: u.hash == a[0].hash then TxDifference(a[1..], b)
    else [a[0]] + TxDifference(a[1..], b)
  }

  /** Each transaction is judged by itself and the order is kept. */
  lemma {:induction false} TxDifferenceSplits(a: seq<Tx>, b: seq<Tx>, u: seq<Tx>)
    ensures TxDifference(a + b, u) == TxDifference(a, u) + TxDifference(b, u)
  {
    if a == [] {
      assert a + b == b;
    } else {
      assert (a + b)[1..] == a[1..] + b;
      TxDifferenceSplits(a[1..], b, u);
    }
  }

  lemma TxDifferenceOfOne(tx: Tx, u: seq<Tx>)
    ensures TxDifference([tx], u) == if exists v <- u :: v.hash == tx.hash then [] else [tx]
  {
  }

  /** tx is in a block of the branch ending at b, above number n. */
  ghost predicate OnBranchAbove(s: Blocks, b: Block, n: nat, tx: Tx) {
    exists m: nat :: m > n && At(s, b, m).Some? && tx in At(s, b, m).value.txs
  }

  lemma {:induction false} TxsAboveAreBranchTxs(s: Blocks, b: Block, n: nat, tx: Tx)
    requires Keyed(s)
    ensures tx in TxsAbove(s, b, n) <==> OnBranchAbove(s, b, n, tx)
    decreases b.number
  {
    if b.number > n {
      assert At(s, b, b.number) == Some(b);
      var parent := Parent(s, b);
      if parent.Some? {
        var p := parent.value;
        TxsAboveAreBranchTxs(s, p, n, tx);
        assert forall m: nat :: m < b.number ==> At(s, b, m) == At(s, p, m);
      }
    }
  }

  /** tx was on the abandoned branch a above the fork and not on the adopted branch b. */
  ghost predicate OnlyAbandoned(s: Blocks, a: Block, b: Block, fork: nat, tx: Tx) {
    OnBranchAbove(s, a, fork, tx) && !exists u :: OnBranchAbove(s, b, fork, u) && u.hash == tx.hash
  }

  ghost predicate IsReinject(s: Blocks, a: Block, b: Block, fork: nat, reinject: seq<Tx>) {
    forall tx :: tx in reinject <==> OnlyAbandoned(s, a, b, fork, tx)
  }

  lemma ReinjectIsDifference(s: Blocks, a: Block, b: Block, n: nat, tx: Tx)
    requires Keyed(s)
    ensures tx in TxDifference(TxsAbove(s, a, n), TxsAbove(s, b, n)) <==> OnlyAbandoned(s, a, b, n, tx)
  {
    TxsAboveAreBranchTxs(s, a, n, tx);
    forall u ensures u in TxsAbove(s, b, n) <==> OnBranchAbove(s, b, n, u) {
      TxsAboveAreBranchTxs(s, b, n, u);
    }
  }

  /** Every branch is stored down to one genesis block. */
  ghost predicate Rooted(s: Blocks, genesis: Hash) {
    && Keyed(s)
    && (forall h {:trigger Parent(s, s[h])} :: h in s && s[h].number > 0 ==> Parent(s, s[h]).Some?)
    && (forall h <- s :: s[h].number == 0 ==> h == genesis)
  }

  lemma {:induction false} BranchReachesGenesis(s: Blocks, genesis: Hash, b: Block)
    requires Rooted(s, genesis) && b.hash in s && s[b.hash] == b
    ensures At(s, b, 0).Some? && At(s, b, 0).value.hash == genesis
    decreases b.number
  {
    if b.number > 0 {
      assert Parent(s, s[b.hash]).Some?;
      BranchReachesGenesis(s, genesis, Parent(s, b).value);
    }
  }

  /** In a rooted store two stored heads always have a highest common ancestor, so no reset is abandoned. */
  lemma RootedBranchesMeet(s: Blocks, genesis: Hash, a: Block, b: Block)
    requires Rooted(s, genesis) && a.hash in s && s[a.hash] == a && b.hash in s && s[b.hash] == b
    ensures exists n: nat :: HighestCommon(s, a, b, n)
  {
    BranchReachesGenesis(s, genesis, a);
    BranchReachesGenesis(s, genesis, b);
    var n: nat := a.number;
    while !Common(s, a, b, n)
      invariant n > 0 || Common(s, a, b, n)
      invariant forall m: nat :: m > n ==> !Common(s, a, b, m)
      decreases n
    {
      n := n - 1;
    }
    assert HighestCommon(s, a, b, n);
  }

  /** Stepping to the parent keeps the position on the branch and collects one block. */
  lemma {:induction false} StepDown(s: Blocks, top: Block, b: Block)
    requires Keyed(s) && At(s, top, b.number) == Some(b) && Parent(s, b).Some?
    ensures At(s, top, b.number - 1) == Parent(s, b)
    ensures TxsAbove(s, top, b.number - 1) == TxsAbove(s, top, b.number) + b.txs
    decreases top.number
  {
    var p := Parent(s, b).value;
    if top.number == b.number {
      assert TxsAbove(s, p, b.number - 1) == [];
    } else {
      var q := Parent(s, top).value;
      StepDown(s, q, b);
      assert TxsAbove(s, top, b.number) == top.txs + TxsAbove(s, q, b.number);
    }
  }

  /** Nothing is stored below a block without a stored parent. */
  lemma {:induction false} Unrooted(s: Blocks, top: Block, b: Block, n: nat)
    requires Keyed(s) && At(s, top, b.number) == Some(b) && Parent(s, b).None? && n < b.number
    ensures At(s, top, n).None?
    decreases top.number
  {
    if top.number > b.number {
      Unrooted(s, Parent(s, top).value, b, n);
    }
  }

  datatype Walk = Meet(number: nat, discarded: seq<Tx>, included: seq<Tx>) | NoCommonAncestor

  /** The three walks: level the old side, level the new side, then go down together. */
  method FindReorg(s: Blocks, oldHead: Block, newHead: Block) returns (walk: Walk)
    requires Keyed(s)
    ensures walk.Meet? ==>
      && HighestCommon(s, oldHead, newHead, walk.number)
      && walk.discarded == TxsAbove(s, oldHead, walk.number)
      && walk.included == TxsAbove(s, newHead, walk.number)
    ensures walk.NoCommonAncestor? ==> forall n: nat :: !Common(s, oldHead, newHead, n)
  {
    var discarded, included: seq<Tx> := [], [];
    var rem, add := oldHead, newHead;
    while rem.number > add.number
      invariant At(s, oldHead, rem.number) == Some(rem) && discarded == TxsAbove(s, oldHead, rem.number)
      invariant rem.number >= add.number || rem == oldHead
      decreases rem.number
    {
      var parent := Parent(s, rem);
      if parent.None? {
        forall n: nat | n <= add.number ensures !Common(s, oldHead, newHead, n) {
          Unrooted(s, oldHead, rem, n);
        }
        return NoCommonAncestor;
      }
      StepDown(s, oldHead, rem);
      discarded := discarded + rem.txs;
      rem := parent.value;
    }
    while add.number > rem.number
      invariant At(s, newHead, add.number) == Some(add) && included == TxsAbove(s, newHead, add.number)
      invariant add.number >= rem.number
      decreases add.number
    {
      var parent := Parent(s, add);
      if parent.None? {
        forall n: nat | n <= rem.number ensures !Common(s, oldHead, newHead, n) {
          Unrooted(s, newHead, add, n);
        }
        return NoCommonAncestor;
      }
      StepDown(s, newHead, add);
      included := included + add.txs;
      add := parent.value;
    }
    while rem.hash != add.hash
      invariant rem.number == add.number
      invariant At(s, oldHead, rem.number) == Some(rem) && discarded == TxsAbove(s, oldHead, rem.number)
      invariant At(s, newHead, add.number) == Some(add) && included == TxsAbove(s, newHead, add.number)
      invariant forall n: nat :: n > rem.number ==> !Common(s, oldHead, newHead, n)
      decreases rem.number
    {
      discarded := discarded + rem.txs;
      var parent := Parent(s, rem);
      if parent.None? {
        forall n: nat | n < rem.number ensures !Common(s, oldHead, newHead, n) {
          Unrooted(s, oldHead, rem, n);
        }
        return NoCommonAncestor;
      }
      included := included + add.txs;
      var parent' := Parent(s, add);
      if parent'.None? {
        forall n: nat | n < add.number ensures !Common(s, oldHead, newHead, n) {
          Unrooted(s, newHead, add, n);
        }
        return NoCommonAncestor;
      }
      StepDown(s, oldHead, rem);
      StepDown(s, newHead, add);
      rem, add := parent.value, parent'.value;
    }
    walk := Meet(rem.number, discarded, included);
  }

  /** What reset does before it touches the pool. */
  datatype Plan =
    | KeepState                       // the head did not change, or a branch is not stored
    | Adopt(reinject: seq<Tx>)        // install the new head's state, add these back

  /** The two heads are at most 64 blocks apart, and the new one is not simply the next block. */
  predicate NeedsWalk(oldHead: Block, newHead: Block) {
    && oldHead.hash != newHead.parentHash
    && oldHead.number <= newHead.number + 64 && newHead.number <= oldHead.number + 64
  }

  /** Exactly the abandoned transactions that the adopted branch does not contain are re-injected. */
  method PlanReset(s: Blocks, oldHead: Option<Block>, newHead: Block) returns (plan: Plan)
    requires Keyed(s)
    ensures plan == KeepState ==> oldHead.Some?
    ensures oldHead.Some? && oldHead.value.hash == newHead.hash && oldHead.value.number == newHead.number ==>
      plan == KeepState
    ensures plan == KeepState && (oldHead.value.hash != newHead.hash || oldHead.value.number != newHead.number) ==>
      NeedsWalk(oldHead.value, newHead) && forall n: nat :: !Common(s, oldHead.value, newHead, n)
    ensures plan.Adopt? && (oldHead.None? || oldHead.value.hash == newHead.parentHash) ==> plan.reinject == []
    ensures plan.Adopt? && oldHead.Some? && oldHead.value.number + 64 < newHead.number ==> plan.reinject == []
    ensures plan.Adopt? && oldHead.Some? && newHead.number + 64 < oldHead.value.number ==> plan.reinject == []
    ensures plan.Adopt? && oldHead.Some? && NeedsWalk(oldHead.value, newHead) ==>
      exists fork: nat :: HighestCommon(s, oldHead.value, newHead, fork) &&
        IsReinject(s, oldHead.value, newHead, fork, plan.reinject)
  {
    if oldHead.Some? && oldHead.value.hash == newHead.hash && oldHead.value.number == newHead.number {
      return KeepState;
    }
    var reinject := [];
    if oldHead.Some? && oldHead.value.hash != newHead.parentHash {
      var depth := if oldHead.value.number > newHead.number then oldHead.value.number - newHead.number
                   else newHead.number - oldHead.value.number;
      if depth <= MAX_REORG_DEPTH {
        var walk := FindReorg(s, oldHead.value, newHead);
        if walk.NoCommonAncestor? {
          return KeepState;
        }
        reinject := TxDifference(walk.discarded, walk.included);
        forall tx ensures tx in reinject <==> OnlyAbandoned(s, oldHead.value, newHead, walk.number, tx) {
          ReinjectIsDifference(s, oldHead.value, newHead, walk.number, tx);
        }
        assert IsReinject(s, oldHead.value, newHead, walk.number, reinject);
      }
    }
    plan := Adopt(reinject);
  }
}
