/** The binary min-heap of container/heap over a growing slice, for any integer ranking. */
module Heaps {
  function Parent(j: nat): (p: nat)
    requires j > 0
    ensures p < j && (j == 2 * p + 1 || j == 2 * p + 2)
  {
    (j - 1) / 2
  }

  /** Element j ranks no lower than its parent. */
  predicate Edge<T>(s: seq<T>, key: T -> int, j: int)
    requires 0 < j < |s|
  {
    key(s[Parent(j)]) <= key(s[j])
  }

  /** The heap property below position lo, leaving out the edges down from `hole` and the edge up
      from `skip`. */
  ghost predicate Sound<T>(s: seq<T>, key: T -> int, lo: nat, hole: int, skip: int) {
    forall j {:trigger Edge(s, key, j)} :: 0 < j < |s| && Parent(j) >= lo && Parent(j) != hole && j != skip ==>
      Edge(s, key, j)
  }

  ghost predicate IsHeap<T>(s: seq<T>, key: T -> int) {
    Sound(s, key, 0, -1, 0)
  }

  /** The children of i rank no lower than its parent. */
  ghost predicate Grand<T>(s: seq<T>, key: T -> int, lo: nat, i: nat) {
    i > 0 && i < |s| && Parent(i) >= lo ==>
      && (2 * i + 1 < |s| ==> key(s[Parent(i)]) <= key(s[2 * i + 1]))
      && (2 * i + 2 < |s| ==> key(s[Parent(i)]) <= key(s[2 * i + 2]))
  }

  /** The root of a heap ranks lowest. */
  lemma {:induction false} RootIsLeast<T>(s: seq<T>, key: T -> int, j: nat)
    requires IsHeap(s, key) && j < |s|
    ensures key(s[0]) <= key(s[j])
  {
    if j > 0 {
      assert Edge(s, key, j);
      RootIsLeast(s, key, Parent(j));
    }
  }

  function Swap<T>(s: seq<T>, i: nat, j: nat): (t: seq<T>)
    requires i < |s| && j < |s|
    ensures |t| == |s| && multiset(t) == multiset(s)
  {
    SwapPermutes(s, i, j);
    s[i := s[j]][j := s[i]]
  }

  lemma SwapPermutes<T>(s: seq<T>, i: nat, j: nat)
    requires i < |s| && j < |s|
    ensures multiset(s[i := s[j]][j := s[i]]) == multiset(s)
  {
  }

  /** Sinking one step: the smaller child moves up into the hole. */
  lemma SinkStep<T>(s: seq<T>, key: T -> int, lo: nat, i: nat, skip: int, c: nat)
    requires i < c < |s| && Parent(c) == i && i >= lo && (skip == 0 || skip == i) && Sound(s, key, lo, i, skip)
    requires Grand(s, key, lo, i)
    requires key(s[c]) < key(s[i])
    requires 2 * i + 1 < |s| ==> key(s[c]) <= key(s[2 * i + 1])
    requires 2 * i + 2 < |s| ==> key(s[c]) <= key(s[2 * i + 2])
    ensures Sound(Swap(s, i, c), key, lo, c, 0) && Grand(Swap(s, i, c), key, lo, c)
  {
    var t := Swap(s, i, c);
    forall j | 0 < j < |t| && Parent(j) >= lo && Parent(j) != c ensures Edge(t, key, j) {
      if Parent(j) != i && j != i {
        assert Edge(s, key, j);
      }
    }
    if 2 * c + 1 < |s| { assert Edge(s, key, 2 * c + 1); }
    if 2 * c + 2 < |s| { assert Edge(s, key, 2 * c + 2); }
  }

  lemma HoleCloses<T>(s: seq<T>, key: T -> int, lo: nat, i: nat, skip: int)
    requires Sound(s, key, lo, i, skip)
    requires 2 * i + 1 < |s| ==> key(s[i]) <= key(s[2 * i + 1])
    requires 2 * i + 2 < |s| ==> key(s[i]) <= key(s[2 * i + 2])
    ensures Sound(s, key, lo, -1, skip)
  {
  }

  /** down: the element at `start` sinks below smaller children. */
  method Down<T>(s: seq<T>, key: T -> int, ghost lo: nat, start: nat) returns (t: seq<T>, moved: bool)
    requires lo <= start && Sound(s, key, lo, start, start) && Grand(s, key, lo, start)
    ensures |t| == |s| && multiset(t) == multiset(s)
    ensures !moved ==> t == s && Sound(t, key, lo, -1, start)
    ensures moved ==> Sound(t, key, lo, -1, 0)
  {
    hide Swap;
    var i := start;
    t := s;
    while true
      invariant lo <= start <= i && |t| == |s| && multiset(t) == multiset(s)
      invariant i == start ==> t == s
      invariant Sound(t, key, lo, i, if i == start then start else 0) && Grand(t, key, lo, i)
      decreases |s| - i
    {
      if 2 * i + 1 >= |t| {
        break;
      }
      var c := 2 * i + 1;
      if c + 1 < |t| && key(t[c + 1]) < key(t[c]) {
        c := c + 1;
      }
      if !(key(t[c]) < key(t[i])) {
        break;
      }
      SinkStep(t, key, lo, i, if i == start then start else 0, c);
      t := Swap(t, i, c);
      i := c;
    }
    HoleCloses(t, key, lo, i, if i == start then start else 0);
    moved := i > start;
  }

  /** Rising one step: a smaller element changes places with its parent. */
  lemma RiseStep<T>(s: seq<T>, key: T -> int, j: nat)
    requires 0 < j < |s| && Sound(s, key, 0, -1, j) && Grand(s, key, 0, j) && key(s[j]) < key(s[Parent(j)])
    ensures Sound(Swap(s, j, Parent(j)), key, 0, -1, Parent(j)) && Grand(Swap(s, j, Parent(j)), key, 0, Parent(j))
  {
    var i := Parent(j);
    var t := Swap(s, j, i);
    forall k | 0 < k < |t| && k != i ensures Edge(t, key, k) {
      if k != j { assert Edge(s, key, k); }
    }
    if i > 0 {
      assert Edge(s, key, i);
      if 2 * i + 1 < |s| && 2 * i + 1 != j { assert Edge(s, key, 2 * i + 1); }
      if 2 * i + 2 < |s| && 2 * i + 2 != j { assert Edge(s, key, 2 * i + 2); }
    }
  }

  /** up: the element at `start` rises above larger parents. */
  method Up<T>(s: seq<T>, key: T -> int, start: nat) returns (t: seq<T>)
    requires start < |s| && Sound(s, key, 0, -1, start) && Grand(s, key, 0, start)
    ensures |t| == |s| && multiset(t) == multiset(s) && IsHeap(t, key)
  {
    hide Swap;
    var j := start;
    t := s;
    while j > 0 && key(t[j]) < key(t[Parent(j)])
      invariant 0 <= j < |t| == |s| && multiset(t) == multiset(s)
      invariant Sound(t, key, 0, -1, j) && Grand(t, key, 0, j)
    {
      RiseStep(t, key, j);
      t := Swap(t, j, Parent(j));
      j := Parent(j);
    }
  }

  /** heap.Push. */
  method Push<T>(s: seq<T>, key: T -> int, x: T) returns (t: seq<T>)
    requires IsHeap(s, key)
    ensures |t| == |s| + 1 && multiset(t) == multiset(s) + multiset{x} && IsHeap(t, key)
  {
    var u := s + [x];
    forall j | 0 < j < |u| && j != |s| ensures Edge(u, key, j) {
      assert Edge(s, key, j);
    }
    t := Up(u, key, |s|);
  }

  /** heap.Init: the slice becomes a heap with the same elements. */
  method Init<T>(s: seq<T>, key: T -> int) returns (t: seq<T>)
    ensures |t| == |s| && multiset(t) == multiset(s) && IsHeap(t, key)
  {
    t := s;
    var i := |s| / 2;
    while i > 0
      invariant 0 <= i <= |s| / 2 && |t| == |s| && multiset(t) == multiset(s)
      invariant Sound(t, key, i, -1, 0)
    {
      i := i - 1;
      var moved;
      t, moved := Down(t, key, i, i);
    }
  }

  /** heap.Pop: the root leaves, the rest stays a heap. */
  method Pop<T>(s: seq<T>, key: T -> int) returns (x: T, t: seq<T>)
    requires IsHeap(s, key) && s != []
    ensures x == s[0] && |t| == |s| - 1 && multiset(s) == multiset(t) + multiset{x} && IsHeap(t, key)
    ensures forall y <- s :: key(x) <= key(y)
  {
    x := s[0];
    forall y | y in s ensures key(x) <= key(y) {
      var j :| 0 <= j < |s| && s[j] == y;
      RootIsLeast(s, key, j);
    }
    var u := Shrunk(s, 0);
    ShrunkIsSound(s, key, 0);
    var moved;
    t, moved := Down(u, key, 0, 0);
  }

  /** The slice after the last element took the place of element i. */
  function Shrunk<T>(s: seq<T>, i: nat): (t: seq<T>)
    requires i < |s|
    ensures |t| == |s| - 1 && multiset(s) == multiset(t) + multiset{s[i]}
  {
    ShrunkLosesOne(s, i);
    Swap(s, i, |s| - 1)[..|s| - 1]
  }

  lemma ShrunkLosesOne<T>(s: seq<T>, i: nat)
    requires i < |s|
    ensures multiset(s) == multiset(Swap(s, i, |s| - 1)[..|s| - 1]) + multiset{s[i]}
  {
    var t := Swap(s, i, |s| - 1);
    assert t == t[..|s| - 1] + [s[i]];
  }

  lemma ShrunkIsSound<T>(s: seq<T>, key: T -> int, i: nat)
    requires IsHeap(s, key) && i < |s|
    ensures Sound(Shrunk(s, i), key, 0, i, i) && Grand(Shrunk(s, i), key, 0, i)
  {
    var t := Shrunk(s, i);
    forall j | 0 < j < |t| && Parent(j) != i && j != i ensures Edge(t, key, j) {
      assert Edge(s, key, j);
    }
    if 0 < i < |t| {
      assert Edge(s, key, i);
      if 2 * i + 1 < |t| { assert Edge(s, key, 2 * i + 1); }
      if 2 * i + 2 < |t| { assert Edge(s, key, 2 * i + 2); }
    }
  }

  /** heap.Remove: element i leaves, whatever took its place sinks or rises. */
  method Remove<T>(s: seq<T>, key: T -> int, i: nat) returns (t: seq<T>)
    requires IsHeap(s, key) && i < |s|
    ensures |t| == |s| - 1 && multiset(s) == multiset(t) + multiset{s[i]} && IsHeap(t, key)
  {
    t := Shrunk(s, i);
    ShrunkIsSound(s, key, i);
    if i < |t| {
      var moved;
      t, moved := Down(t, key, 0, i);
      if !moved {
        t := Up(t, key, i);
      }
    }
  }

  ghost predicate Ascending<T>(s: seq<T>, key: T -> int) {
    forall i, j :: 0 <= i < j < |s| ==> key(s[i]) <= key(s[j])
  }

  /** sort.Sort: an ascending permutation. */
  method Sort<T>(s: seq<T>, key: T -> int) returns (t: seq<T>)
    ensures |t| == |s| && multiset(t) == multiset(s) && Ascending(t, key)
  {
    var rest := Init(s, key);
    t := [];
    while rest != []
      invariant IsHeap(rest, key) && Ascending(t, key)
      invariant |t| + |rest| == |s| && multiset(t) + multiset(rest) == multiset(s)
      invariant forall x, y :: x in t && y in rest ==> key(x) <= key(y)
      decreases |rest|
    {
      var x;
      ghost var before := rest;
      x, rest := Pop(rest, key);
      assert forall y :: y in rest ==> y in multiset(before);
      t := t + [x];
    }
  }
}
