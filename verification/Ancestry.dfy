/** Hash-linked headers: the parent relation, generations and the slow parent walk
    that every shortcut of the node is measured against. */
module Ancestry {
  import opened Options

  const TWO_64 := 0x1_0000_0000_0000_0000

  /** Go's uint64; arithmetic that may wrap is written out where it happens. */
  type uint64 = n: nat | n < 0x1_0000_0000_0000_0000

  /** A 32-byte hash, as an opaque identity. */
  type Hash = nat

  const ZERO_HASH: Hash := 0

  /** A header carries its own hash; that equal hashes mean equal headers is the
      collision-freedom of the hash function. */
  datatype Header = Header(hash: Hash, parentHash: Hash, number: uint64)

  /** The header table. The database keys it by (number, hash), see Read. */
  type Store = map<Hash, Header>

  /** One genesis at number 0, and every other header next to its stored parent. */
  ghost predicate WellFormed(s: Store, genesis: Hash) {
    && genesis in s
    && s[genesis].number == 0
    && ZERO_HASH !in s
    && (forall h {:trigger Linked(s, genesis, h)} :: h in s ==> Linked(s, genesis, h))
  }

  /** A stored header: kept under its own hash, and genesis or next to its stored parent. */
  predicate Linked(s: Store, genesis: Hash, h: Hash)
    requires h in s
  {
    && s[h].hash == h
    && if s[h].number == 0 then h == genesis
       else s[h].parentHash in s && s[s[h].parentHash].number == s[h].number - 1
  }

  /** A database read by hash and number; a number that does not fit finds nothing. */
  function Read(s: Store, h: Hash, number: uint64): Option<Header> {
    if h in s && s[h].number == number then Some(s[h]) else None
  }

  /** The hash reached by following n parent links. */
  function NthParent(s: Store, h: Hash, n: nat): Option<Hash>
    decreases n
  {
    if n == 0 then Some(h)
    else if h in s then NthParent(s, s[h].parentHash, n - 1)
    else None
  }

  /** The number-to-hash index of the branch ending at h, by walking all the way down. */
  function IndexOf(s: Store, genesis: Hash, h: Hash): (index: map<nat, Hash>)
    requires WellFormed(s, genesis) && h in s
    ensures forall n: nat :: n in index <==> n <= s[h].number
    ensures forall n <- index :: index[n] in s && s[index[n]].number == n
    ensures index[s[h].number] == h
    decreases s[h].number
  {
    assert Linked(s, genesis, h);
    if s[h].number == 0 then map[0 := h]
    else IndexOf(s, genesis, s[h].parentHash)[s[h].number := h]
  }

  /** a lies on the branch ending at h. */
  ghost predicate OnBranch(s: Store, genesis: Hash, a: Hash, h: Hash)
    requires WellFormed(s, genesis)
  {
    a in s && h in s && s[a].number <= s[h].number &&
    IndexOf(s, genesis, h)[s[a].number] == a
  }

  /** The index starts at genesis and each entry is the parent of the next. */
  lemma {:induction false} IndexIsChained(s: Store, genesis: Hash, h: Hash, n: nat)
    requires WellFormed(s, genesis) && h in s && n <= s[h].number
    ensures n == 0 ==> IndexOf(s, genesis, h)[n] == genesis
    ensures n > 0 ==> s[IndexOf(s, genesis, h)[n]].parentHash == IndexOf(s, genesis, h)[n - 1]
    decreases s[h].number
  {
    assert Linked(s, genesis, h);
    if n < s[h].number {
      IndexIsChained(s, genesis, s[h].parentHash, n);
    }
  }

  /** Below any of its entries, a branch is the branch of that entry. */
  lemma {:induction false} IndexPrefix(s: Store, genesis: Hash, a: Hash, h: Hash, n: nat)
    requires WellFormed(s, genesis) && OnBranch(s, genesis, a, h) && n <= s[a].number
    ensures IndexOf(s, genesis, h)[n] == IndexOf(s, genesis, a)[n]
    decreases s[h].number
  {
    if s[a].number < s[h].number {
      assert Linked(s, genesis, h);
      IndexPrefix(s, genesis, a, s[h].parentHash, n);
    }
  }

  /** Two branches that meet at some number agree on everything below it. */
  lemma BranchesMeet(s: Store, genesis: Hash, a: Hash, b: Hash, meet: nat, n: nat)
    requires WellFormed(s, genesis) && a in s && b in s
    requires n <= meet <= s[a].number && meet <= s[b].number
    requires IndexOf(s, genesis, a)[meet] == IndexOf(s, genesis, b)[meet]
    ensures IndexOf(s, genesis, a)[n] == IndexOf(s, genesis, b)[n]
  {
    var m := IndexOf(s, genesis, a)[meet];
    IndexPrefix(s, genesis, m, a, n);
    IndexPrefix(s, genesis, m, b, n);
  }

  /** The index answers every ancestor question exactly. */
  lemma {:induction false} IndexIsAncestry(s: Store, genesis: Hash, h: Hash, k: nat)
    requires WellFormed(s, genesis) && h in s && k <= s[h].number
    ensures NthParent(s, h, k) == Some(IndexOf(s, genesis, h)[s[h].number - k])
    decreases k
  {
    if k > 0 {
      assert Linked(s, genesis, h);
      IndexIsAncestry(s, genesis, s[h].parentHash, k - 1);
    }
  }

  /** Generations add up. */
  lemma {:induction false} NthParentAdds(s: Store, h: Hash, m: nat, n: nat)
    requires NthParent(s, h, m).Some?
    ensures NthParent(s, h, m + n) == NthParent(s, NthParent(s, h, m).value, n)
    decreases m
  {
    if m > 0 {
      NthParentAdds(s, s[h].parentHash, m - 1, n);
    }
  }

  /** Writing a header whose parent is stored keeps the table well formed and no branch changes. */
  lemma WriteKeepsBranches(s: Store, genesis: Hash, x: Header, h: Hash)
    requires WellFormed(s, genesis) && CanWrite(s, x) && h in s
    ensures WellFormed(s[x.hash := x], genesis)
    ensures IndexOf(s[x.hash := x], genesis, h) == IndexOf(s, genesis, h)
    decreases s[h].number
  {
    var s' := s[x.hash := x];
    forall g | g in s' ensures Linked(s', genesis, g) {
      assert g in s ==> Linked(s, genesis, g);
    }
    if s[h].number > 0 {
      assert Linked(s, genesis, h);
      WriteKeepsBranches(s, genesis, x, s[h].parentHash);
    }
  }

  /** What the caller of a header write guarantees: a non-genesis header with a stored
      parent, and no collision with a different header of the same hash. */
  predicate CanWrite(s: Store, x: Header) {
    && x.hash != ZERO_HASH
    && x.number > 0
    && x.parentHash in s
    && s[x.parentHash].number == x.number - 1
    && (x.hash in s ==> s[x.hash] == x)
  }

  /** A new child of any stored block can be written. */
  lemma ChildCanBeWritten(s: Store, parent: Hash, hash: Hash)
    requires parent in s && s[parent].number + 1 < TWO_64 && hash != ZERO_HASH && hash !in s
    ensures CanWrite(s, Header(hash, parent, s[parent].number + 1))
  {
  }
}
