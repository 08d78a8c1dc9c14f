/** Retention of state tries on a pruning node: every block written holds a reference to its state
    root, and references older than 128 blocks are given back, lowest block first. */
module TrieGcs {
  import opened Ancestry
  import Heaps

  const TRIES_IN_MEMORY := 128

  /** A root queued for collection. Its priority is the negated block number as a signed 64-bit
      integer, so numbers stay below 2^63 and the lowest number is popped first. */
  datatype Entry = Entry(root: Hash, number: nat)

  function NumberOf(e: Entry): int { e.number }

  /** How often each root occurs in the queue. */
  ghost function RootBag(s: seq<Entry>): multiset<Hash> {
    if s == [] then multiset{} else RootBag(s[..|s| - 1]) + multiset{s[|s| - 1].root}
  }

  /** The positions whose entry carries the root. */
  ghost function Carrying(s: seq<Entry>, root: Hash): set<int> {
    set i | 0 <= i < |s| && s[i].root == root
  }

  lemma CarryingSnoc(s: seq<Entry>, e: Entry, root: Hash)
    ensures |Carrying(s + [e], root)| == |Carrying(s, root)| + (if e.root == root then 1 else 0)
  {
    assert Carrying(s + [e], root) == Carrying(s, root) + (if e.root == root then {|s|} else {});
  }

  /** A root counts once for each entry that carries it. */
  lemma {:induction false} RootBagCounts(s: seq<Entry>, root: Hash)
    ensures RootBag(s)[root] == |Carrying(s, root)|
  {
    hide Carrying;
    if s == [] {
      assert |Carrying([], root)| == 0 by { NoneCarrying(root); }
    } else {
      var front, last := s[..|s| - 1], s[|s| - 1];
      RootBagCounts(front, root);
      CarryingSnoc(front, last, root);
      assert s == front + [last];
    }
  }

  lemma NoneCarrying(root: Hash)
    ensures Carrying([], root) == {}
  {
  }

  lemma {:induction false} RootBagSplits(s: seq<Entry>, t: seq<Entry>)
    ensures RootBag(s + t) == RootBag(s) + RootBag(t)
  {
    if t == [] {
      assert s + t == s;
    } else {
      assert (s + t)[..|s + t| - 1] == s + t[..|t| - 1];
      RootBagSplits(s, t[..|t| - 1]);
    }
  }

  lemma Cancel(a: multiset<Entry>, b: multiset<Entry>, e: Entry)
    requires a + multiset{e} == b + multiset{e}
    ensures a == b
  {
    assert (a + multiset{e}) - multiset{e} == a && (b + multiset{e}) - multiset{e} == b;
  }

  lemma BagWithout(t: seq<Entry>, i: nat)
    requires i < |t|
    ensures multiset(t) == multiset(t[..i] + t[i + 1..]) + multiset{t[i]}
  {
    assert t == t[..i] + [t[i]] + t[i + 1..];
  }

  lemma RootBagWithout(t: seq<Entry>, i: nat)
    requires i < |t|
    ensures RootBag(t) == RootBag(t[..i] + t[i + 1..]) + multiset{t[i].root}
  {
    hide RootBag;
    var a, e, b := t[..i], t[i], t[i + 1..];
    assert t == a + [e] + b;
    RootBagSplits(a + [e], b);
    RootBagSplits(a, [e]);
    RootBagSplits(a, b);
    RootBagOne(e);
  }

  lemma RootBagEmpty()
    ensures RootBag([]) == multiset{}
  {
  }

  lemma RootBagOne(e: Entry)
    ensures RootBag([e]) == multiset{e.root}
  {
    assert [e][..0] == [];
  }

  /** The order of the queue does not matter for its roots. */
  lemma {:induction false} RootBagIgnoresOrder(s: seq<Entry>, t: seq<Entry>)
    requires multiset(s) == multiset(t)
    ensures RootBag(s) == RootBag(t)
  {
    if s == [] {
      assert |multiset(t)| == 0;
    } else {
      var e := s[|s| - 1];
      assert s == s[..|s| - 1] + [e];
      assert e in multiset(t);
      var i :| 0 <= i < |t| && t[i] == e;
      RootBagWithout(t, i);
      BagWithout(t, i);
      Cancel(multiset(s[..|s| - 1]), multiset(t[..i] + t[i + 1..]), e);
      RootBagIgnoresOrder(s[..|s| - 1], t[..i] + t[i + 1..]);
    }
  }

  lemma RootBagMinus(s: seq<Entry>, t: seq<Entry>, e: Entry)
    requires multiset(s) == multiset(t) + multiset{e}
    ensures RootBag(s) == RootBag(t) + multiset{e.root}
  {
    assert multiset(t + [e]) == multiset(s);
    RootBagIgnoresOrder(s, t + [e]);
    assert (t + [e])[..|t|] == t;
  }

  /** Each entry written is queued or was released, and nothing within 128 blocks of the highest
      number was released. */
  ghost predicate Ledger(queued: multiset<Entry>, written: multiset<Entry>, released: multiset<Entry>, top: nat) {
    && written == queued + released
    && (forall e <- written :: e.number <= top)
    && (forall e <- released :: e.number + 128 <= top)
  }

  lemma LedgerStep(queued: multiset<Entry>, written: multiset<Entry>, released: multiset<Entry>, top: nat,
                   e: Entry, gone: multiset<Entry>, queued': multiset<Entry>)
    requires Ledger(queued, written, released, top)
    requires queued' + gone == queued + multiset{e} && forall f <- gone :: f.number + 128 <= e.number
    ensures Ledger(queued', written + multiset{e}, released + gone, if e.number > top then e.number else top)
    ensures e in queued'
  {
    assert e in queued' + gone;
    assert written + multiset{e} == (queued + multiset{e}) + released;
    assert (queued' + gone) + released == queued' + (released + gone);
  }

  class TrieGc {
    /** Metadata references held on each root in the trie database. */
    var refs: multiset<Hash>
    var queue: seq<Entry>
    ghost var written: multiset<Entry>
    ghost var released: multiset<Entry>
    ghost var top: nat

    /** References and queue entries correspond one to one, each entry written is queued or was
        released once, and nothing within 128 blocks of the highest was released. */
    ghost predicate Valid()
      reads this
    {
      && Heaps.IsHeap(queue, NumberOf)
      && refs == RootBag(queue)
      && Ledger(multiset(queue), written, released, top)
    }

    constructor ()
      ensures Valid() && refs == multiset{} && written == multiset{} && released == multiset{} && top == 0
    {
      refs, queue, written, released, top := multiset{}, [], multiset{}, multiset{}, 0;
    }

    /** One entry is popped and its reference given back. */
    method ReleaseLowest() returns (e: Entry)
      requires Heaps.IsHeap(queue, NumberOf) && refs == RootBag(queue) && queue != []
      modifies `refs, `queue
      ensures Heaps.IsHeap(queue, NumberOf) && refs == RootBag(queue)
      ensures multiset(old(queue)) == multiset(queue) + multiset{e} && |queue| < |old(queue)|
      ensures e.root in old(refs) && refs == old(refs) - multiset{e.root}
      ensures e == old(queue)[0] && forall f <- old(queue) :: e.number <= f.number
    {
      hide Heaps.IsHeap;
      ghost var before := queue;
      e, queue := Heaps.Pop(queue, NumberOf);
      RootBagMinus(before, queue, e);
      refs := refs - multiset{e.root};
    }

    /** The garbage collection of WriteBlockWithState: afterwards exactly the entries at most
        number - 128 have left the queue. */
    method Write(root: Hash, number: nat) returns (ghost gone: multiset<Entry>)
      requires Valid() && number < 0x8000_0000_0000_0000
      modifies this
      ensures Valid() && written == old(written) + multiset{Entry(root, number)} && released == old(released) + gone
      ensures multiset(queue) + gone == multiset(old(queue)) + multiset{Entry(root, number)}
      ensures number > 128 ==> forall e <- queue :: e.number > number - 128
      ensures forall e <- gone :: e.number + 128 <= number
      ensures number <= 128 ==> gone == multiset{}
      ensures Entry(root, number) in queue && top == if number > old(top) then number else old(top)
    {
      hide Heaps.IsHeap, Ledger, RootBag;
      ghost var before := queue;
      refs := refs + multiset{root};
      queue := Heaps.Push(queue, NumberOf, Entry(root, number));
      RootBagMinus(queue, before, Entry(root, number));
      gone := multiset{};
      if number > TRIES_IN_MEMORY {
        gone := Collect(number - TRIES_IN_MEMORY);
      }
      LedgerStep(multiset(before), written, released, top, Entry(root, number), gone, multiset(queue));
      written, released := written + multiset{Entry(root, number)}, released + gone;
      top := if number > top then number else top;
    }

    /** Pops entries up to the chosen number; the first above it goes back. */
    method Collect(chosen: nat) returns (ghost gone: multiset<Entry>)
      requires Heaps.IsHeap(queue, NumberOf) && refs == RootBag(queue)
      modifies `refs, `queue
      ensures Heaps.IsHeap(queue, NumberOf) && refs == RootBag(queue)
      ensures multiset(queue) + gone == multiset(old(queue))
      ensures forall e <- queue :: e.number > chosen
      ensures forall e <- gone :: e.number <= chosen
    {
      hide Heaps.IsHeap, RootBag;
      gone := multiset{};
      while queue != []
        invariant Heaps.IsHeap(queue, NumberOf) && refs == RootBag(queue)
        invariant multiset(queue) + gone == multiset(old(queue))
        invariant forall e <- gone :: e.number <= chosen
        decreases |queue|
      {
        var e, rest := Heaps.Pop(queue, NumberOf);
        if e.number > chosen {
          ghost var before := queue;
          queue := Heaps.Push(rest, NumberOf, e);
          RootBagIgnoresOrder(before, queue);
          AllAbove(before, queue, chosen);
          break;
        }
        RootBagMinus(queue, rest, e);
        queue := rest;
        refs := refs - multiset{e.root};
        gone := gone + multiset{e};
      }
    }

    /** Stop: everything still queued is released, and no reference is left. */
    method Stop()
      requires Valid()
      modifies `refs, `queue, `released
      ensures refs == multiset{} && queue == [] && released == written
    {
      hide Heaps.IsHeap, RootBag;
      while queue != []
        invariant Heaps.IsHeap(queue, NumberOf) && refs == RootBag(queue)
        invariant written == multiset(queue) + released
        decreases |queue|
      {
        var e := ReleaseLowest();
        released := released + multiset{e};
      }
      RootBagEmpty();
    }
  }

  lemma AllAbove(s: seq<Entry>, t: seq<Entry>, chosen: nat)
    requires multiset(s) == multiset(t) && forall e <- s :: e.number > chosen
    ensures forall e <- t :: e.number > chosen
  {
    forall e | e in t ensures e.number > chosen {
      assert e in multiset(t);
    }
  }

  /** The state of every block written among the 128 numbers that end at the highest one is referenced,
      and a root is referenced exactly as often as it waits in the queue. */
  lemma RecentStatesAreHeld(gc: TrieGc, e: Entry)
    requires gc.Valid() && e in gc.written && e.number + 128 > gc.top
    ensures e in gc.queue && gc.refs[e.root] == |Carrying(gc.queue, e.root)|
    ensures e.root in gc.refs
  {
    assert e in multiset(gc.queue) && e in gc.queue;
    var i :| 0 <= i < |gc.queue| && gc.queue[i] == e;
    RootBagCounts(gc.queue, e.root);
    RootBagWithout(gc.queue, i);
  }
}
