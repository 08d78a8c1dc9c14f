/** Section-wise background indexing of the canonical chain. The chain may change between any two
    reads, new heads arrive while a section is processed, and finished sections are announced to
    child indexers. */
module ChainIndexers {
  import opened Options
  import opened Ancestry

  /** A run of headers that continues from the block with hash `from`, starting at number `base`. */
  ghost predicate Continues(from: Hash, base: nat, s: seq<Header>) {
    && (forall i :: 0 <= i < |s| ==> s[i].number == base + i)
    && (forall i :: 0 <= i < |s| ==> s[i].parentHash == HashBefore(from, s, i))
  }

  ghost function HashBefore(from: Hash, s: seq<Header>, i: nat): Hash
    requires i <= |s|
  {
    if i == 0 then from else s[i - 1].hash
  }

  /** The hash a section head lookup yields, zero when none is stored. */
  function HeadOf(heads: map<nat, Hash>, section: int): Hash {
    if section >= 0 && section in heads then heads[section] else ZERO_HASH
  }

  /** The index database describes one chain, linked by hashes from number 0: section i ends with
      the block whose hash is stored for i, and nothing is stored from `stored` on. */
  ghost predicate IndexOk(size: nat, stored: nat, heads: map<nat, Hash>, chain: seq<Header>) {
    && |chain| == stored * size
    && Continues(ZERO_HASH, 0, chain)
    && (forall i :: i in heads <==> 0 <= i < stored)
    && (forall i :: 0 <= i < stored ==> SectionEnds(size, heads, chain, i))
  }

  ghost predicate SectionEnds(size: nat, heads: map<nat, Hash>, chain: seq<Header>, i: nat) {
    && i in heads
    && 0 <= (i + 1) * size - 1 < |chain|
    && heads[i] == chain[(i + 1) * size - 1].hash
  }

  lemma Times(a: nat, b: nat, size: nat)
    requires a <= b
    ensures a * size <= b * size && (a + 1) * size == a * size + size
  {
  }

  /** The stored head of the last section is the hash the next section must continue from. */
  lemma LastHead(size: nat, stored: nat, heads: map<nat, Hash>, chain: seq<Header>)
    requires size > 0 && IndexOk(size, stored, heads, chain)
    ensures HeadOf(heads, stored - 1) == HashBefore(ZERO_HASH, chain, |chain|)
  {
    if stored > 0 {
      assert SectionEnds(size, heads, chain, stored - 1);
      Times(stored - 1, stored, size);
    }
  }

  /** Equal hashes mean equal headers. */
  ghost predicate CollisionFree(a: seq<Header>, b: seq<Header>) {
    forall i, j :: 0 <= i < |a| && 0 <= j < |b| && a[i].hash == b[j].hash ==> a[i] == b[j]
  }

  lemma SameHeader(a: seq<Header>, b: seq<Header>, n: nat)
    requires Continues(ZERO_HASH, 0, a) && Continues(ZERO_HASH, 0, b) && CollisionFree(a, b)
    requires n < |a| && n < |b| && a[n].hash == b[n].hash
    ensures a[n] == b[n] && (n > 0 ==> a[n - 1].hash == b[n - 1].hash)
  {
    if n > 0 {
      assert a[n].parentHash == HashBefore(ZERO_HASH, a, n) && b[n].parentHash == HashBefore(ZERO_HASH, b, n);
    }
  }

  lemma {:induction false} HashFixesPrefix(a: seq<Header>, b: seq<Header>, n: nat)
    requires Continues(ZERO_HASH, 0, a) && Continues(ZERO_HASH, 0, b) && CollisionFree(a, b)
    requires n < |a| && n < |b| && a[n].hash == b[n].hash
    ensures a[..n + 1] == b[..n + 1]
  {
    hide Continues, CollisionFree;
    SameHeader(a, b, n);
    if n > 0 {
      HashFixesPrefix(a, b, n - 1);
      assert a[..n + 1] == a[..n] + [a[n]] && b[..n + 1] == b[..n] + [b[n]];
    }
  }

  /** A section head stands for everything indexed up to it: two indexes that agree on the head of
      section i indexed the same blocks in sections 0 to i. */
  lemma SectionHeadFixesSections(size: nat, stored: nat, heads: map<nat, Hash>, chain: seq<Header>,
                                 stored': nat, heads': map<nat, Hash>, chain': seq<Header>, i: nat)
    requires size > 0 && IndexOk(size, stored, heads, chain) && IndexOk(size, stored', heads', chain')
    requires i < stored && i < stored' && heads[i] == heads'[i] && CollisionFree(chain, chain')
    ensures (i + 1) * size <= |chain| && (i + 1) * size <= |chain'|
    ensures chain[..(i + 1) * size] == chain'[..(i + 1) * size]
  {
    hide Continues, CollisionFree;
    assert SectionEnds(size, heads, chain, i) && SectionEnds(size, heads', chain', i);
    HashFixesPrefix(chain, chain', (i + 1) * size - 1);
  }

  lemma ContinueAll(from: Hash, a: seq<Header>, b: seq<Header>)
    requires Continues(from, 0, a) && Continues(HashBefore(from, a, |a|), |a|, b)
    ensures Continues(from, 0, a + b)
  {
    var c := a + b;
    forall i | 0 <= i < |c| ensures c[i].number == i && c[i].parentHash == HashBefore(from, c, i) {
      if i < |a| {
        assert a[i].parentHash == HashBefore(from, a, i);
      } else {
        assert b[i - |a|].parentHash == HashBefore(HashBefore(from, a, |a|), b, i - |a|);
      }
    }
  }

  /** Committing a section that continues the stored chain extends it. */
  lemma CommitKeepsIndex(size: nat, stored: nat, heads: map<nat, Hash>, chain: seq<Header>, s: seq<Header>)
    requires size > 0 && IndexOk(size, stored, heads, chain)
    requires |s| == size && Continues(HeadOf(heads, stored - 1), stored * size, s)
    ensures IndexOk(size, stored + 1, heads[stored := s[size - 1].hash], chain + s)
  {
    hide Continues, HashBefore, HeadOf;
    LastHead(size, stored, heads, chain);
    Times(stored, stored, size);
    ContinueAll(ZERO_HASH, chain, s);
    var heads', chain' := heads[stored := s[size - 1].hash], chain + s;
    forall i | 0 <= i < stored + 1 ensures SectionEnds(size, heads', chain', i) {
      Times(i, stored, size);
      assert i < stored ==> SectionEnds(size, heads, chain, i);
    }
  }

  /** The stored heads without those of sections from `sections` up to `stored`. */
  function HeadsBelow(heads: map<nat, Hash>, sections: nat, stored: nat): map<nat, Hash> {
    map n | n in heads && !(sections <= n < stored) :: heads[n]
  }

  /** setValidSections: heads at the end are removed one by one; a count above the stored one, as a
      commit passes it, removes none. */
  method SetValidSections(stored: nat, heads: map<nat, Hash>, sections: nat)
    returns (stored': nat, heads': map<nat, Hash>)
    ensures stored' == sections && heads' == HeadsBelow(heads, sections, stored)
    ensures sections >= stored ==> heads' == heads
  {
    var n := stored;
    heads' := heads;
    while n > sections
      invariant n <= stored && (n >= sections || n == stored)
      invariant heads' == HeadsBelow(heads, n, stored)
    {
      n := n - 1;
      heads' := heads' - {n};
    }
    stored' := sections;
  }

  /** What is left after forgetting sections from the end is the index of the shorter chain. */
  lemma ForgettingKeepsIndex(size: nat, stored: nat, heads: map<nat, Hash>, chain: seq<Header>, sections: nat)
    requires size > 0 && IndexOk(size, stored, heads, chain) && sections <= stored
    ensures sections * size <= |chain|
    ensures IndexOk(size, sections, HeadsBelow(heads, sections, stored), chain[..sections * size])
  {
    Times(sections, stored, size);
    var heads', chain' := HeadsBelow(heads, sections, stored), chain[..sections * size];
    forall i | 0 <= i < |chain'| ensures chain'[i].parentHash == HashBefore(ZERO_HASH, chain', i) {
      assert chain[i].parentHash == HashBefore(ZERO_HASH, chain, i);
    }
    forall i | 0 <= i < sections ensures SectionEnds(size, heads', chain', i) {
      assert SectionEnds(size, heads, chain, i);
      Times(i + 1, sections, size);
    }
  }

  /** What one processing run reads and is told: the canonical hash and header it sees at each
      number, at whatever moment it looks, and the answers of the backend. */
  datatype View = View(canonical: nat -> Hash, header: nat -> Option<Header>, reset: bool, process: nat -> bool,
                       commit: bool)

  /** Headers are stored under their own number. */
  ghost predicate Keyed(view: View) {
    forall n :: view.header(n).Some? ==> view.header(n).value.number == n
  }

  /** Number n passes: its block is known, its parent is the header read just before, and the
      backend accepts it. */
  ghost predicate Passes(base: nat, lastHead: Hash, view: View, n: nat) {
    && view.canonical(n) != ZERO_HASH
    && view.header(n).Some?
    && view.process(n)
    && (n <= base ==> view.header(n).value.parentHash == lastHead)
    && (n > base ==> view.header(n - 1).Some? && view.header(n).value.parentHash == view.header(n - 1).value.hash)
  }

  ghost predicate AllPass(base: nat, size: nat, lastHead: Hash, view: View) {
    forall n :: base <= n < base + size ==> Passes(base, lastHead, view, n)
  }

  /** The first k headers the run saw from base on. */
  ghost predicate Seen(base: nat, view: View, s: seq<Header>) {
    forall i :: 0 <= i < |s| ==> view.header(base + i) == Some(s[i])
  }

  lemma PassesNext(base: nat, lastHead: Hash, view: View, s: seq<Header>)
    requires Seen(base, view, s)
    ensures Passes(base, lastHead, view, base + |s|) <==>
            && view.canonical(base + |s|) != ZERO_HASH && view.header(base + |s|).Some? && view.process(base + |s|)
            && view.header(base + |s|).value.parentHash == HashBefore(lastHead, s, |s|)
  {
    if |s| > 0 {
      assert view.header(base + (|s| - 1)) == Some(s[|s| - 1]);
    }
  }

  lemma ContinueOne(from: Hash, base: nat, s: seq<Header>, h: Header)
    requires Continues(from, base, s) && h.number == base + |s| && h.parentHash == HashBefore(from, s, |s|)
    ensures Continues(from, base, s + [h])
  {
    var t := s + [h];
    forall i | 0 <= i < |t| ensures t[i].parentHash == HashBefore(from, t, i) {
      if i < |s| { assert s[i].parentHash == HashBefore(from, s, i); }
    }
  }

  /** The loop of processSection: walks the section that starts at base, insisting that every
      header's parent is the one read before. */
  method WalkSection(size: nat, base: nat, lastHead: Hash, view: View)
    returns (ok: bool, newHead: Hash, ghost segment: seq<Header>)
    requires size > 0 && Keyed(view)
    ensures |segment| <= size && Continues(lastHead, base, segment) && Seen(base, view, segment)
    ensures ok ==> |segment| == size && newHead == segment[size - 1].hash
    ensures ok <==> view.commit && AllPass(base, size, lastHead, view)
    ensures !ok ==> newHead == ZERO_HASH
  {
    hide Continues, Passes;
    segment := [];
    newHead := lastHead;
    var number := base;
    assert Continues(lastHead, base, segment) by { NothingContinues(lastHead, base); }
    while number < base + size
      invariant base <= number <= base + size && |segment| == number - base
      invariant Continues(lastHead, base, segment) && newHead == HashBefore(lastHead, segment, |segment|)
      invariant Seen(base, view, segment)
      invariant forall n :: base <= n < number ==> Passes(base, lastHead, view, n)
    {
      PassesNext(base, lastHead, view, segment);
      var hash := view.canonical(number);
      var header := view.header(number);
      if hash == ZERO_HASH || header.None? || header.value.parentHash != newHead || !view.process(number) {
        return false, ZERO_HASH, segment;
      }
      ContinueOne(lastHead, base, segment, header.value);
      segment := segment + [header.value];
      newHead := header.value.hash;
      number := number + 1;
    }
    ok := view.commit;
    if !ok { newHead := ZERO_HASH; }
  }

  lemma NothingContinues(from: Hash, base: nat)
    ensures Continues(from, base, [])
  {
  }

  /** Where the update goroutine stands between taking and releasing the indexer lock. */
  datatype Stage =
    | Idle
    | Working(section: nat, oldHead: Hash)
    | Walked(section: nat, oldHead: Hash, segment: seq<Header>)
    | Failed(section: nat, oldHead: Hash)

  /** Every number below n has `confirms` further blocks under some head already announced. */
  ghost predicate Confirmed(n: nat, confirms: nat, notified: set<nat>) {
    n == 0 || exists h :: h in notified && n + confirms <= h + 1
  }

  ghost predicate AllConfirmed(processed: set<nat>, confirms: nat, notified: set<nat>) {
    forall n <- processed :: Confirmed(n + 1, confirms, notified)
  }

  lemma ConfirmedGrows(n: nat, m: nat, confirms: nat, notified: set<nat>, notified': set<nat>)
    requires Confirmed(n, confirms, notified) && m <= n && notified <= notified'
    ensures Confirmed(m, confirms, notified')
  {
  }

  ghost function Numbers(base: nat, size: nat): (s: set<nat>)
    ensures forall n :: n in s <==> base <= n < base + size
  {
    if size == 0 then {} else Numbers(base, size - 1) + {base + size - 1}
  }

  lemma AllConfirmedGrows(processed: set<nat>, base: nat, size: nat, confirms: nat, notified: set<nat>)
    requires AllConfirmed(processed, confirms, notified) && Confirmed(base + size, confirms, notified)
    ensures AllConfirmed(processed + Numbers(base, size), confirms, notified)
  {
    forall n | n in Numbers(base, size) ensures Confirmed(n + 1, confirms, notified) {
      ConfirmedGrows(base + size, n + 1, confirms, notified, notified);
    }
  }

  lemma Quotient(span: nat, size: nat, n: nat)
    requires size > 0 && n == span / size
    ensures n * size <= span < (n + 1) * size && (n + 1) * size == n * size + size
  {
  }

  /** The number of sections a head completes, in uint64 arithmetic. */
  function SectionsAt(head: uint64, confirms: uint64, size: nat): (n: nat)
    requires size > 0
    ensures n * size + confirms <= head + 1 || n == 0
    ensures n * size < TWO_64
    ensures head < confirms ==> n == 0
    ensures head >= confirms && head + 1 - confirms < TWO_64 ==> head + 1 < (n + 1) * size + confirms
    ensures head + 1 - confirms == TWO_64 ==> n == 0
  {
    if head >= confirms then
      var span := (head + 1 - confirms) % TWO_64;
      var sections := span / size;
      Quotient(span, size, sections);
      sections
    else 0
  }

  /** A head completes exactly the sections whose last block it confirms; the largest head with no
      confirmations asked for wraps round and completes none. */
  lemma HeadCompletes(head: uint64, confirms: uint64, size: nat, k: nat)
    requires size > 0
    ensures head != 0xFFFF_FFFF_FFFF_FFFF || confirms > 0 ==>
      (k < SectionsAt(head, confirms, size) <==> (k + 1) * size - 1 + confirms <= head)
    ensures head == 0xFFFF_FFFF_FFFF_FFFF && confirms == 0 ==> SectionsAt(head, confirms, size) == 0
  {
    var n := SectionsAt(head, confirms, size);
    if k < n {
      Times(k + 1, n, size);
    } else {
      Times(n + 1, k + 1, size);
    }
  }

  ghost predicate StageOk(stage: Stage, size: nat, confirms: nat, stored: nat, known: nat, heads: map<nat, Hash>,
                          notified: set<nat>) {
    match stage
    case Idle => true
    case Working(section, oldHead) =>
      && section == stored < known && oldHead == HeadOf(heads, stored - 1)
      && Confirmed((section + 1) * size, confirms, notified)
    case Walked(section, oldHead, segment) =>
      && section == stored < known && oldHead == HeadOf(heads, stored - 1)
      && |segment| == size && Continues(oldHead, section * size, segment)
    case Failed(section, oldHead) => stored <= known
  }

  /** No wake-up is lost: an idle indexer with sections to process has a signal or a timer. */
  ghost predicate Awake(stage: Stage, stored: nat, known: nat, update: bool, timers: nat) {
    stage.Idle? && known > stored ==> update || timers > 0
  }

  class ChainIndexer {
    const size: nat
    const confirms: uint64
    var stored: nat
    var known: nat
    var cascadedHead: int
    var heads: map<nat, Hash>
    var update: bool
    var timers: nat
    var children: seq<ChainIndexer>
    ghost var chain: seq<Header>
    ghost var stage: Stage
    ghost var notified: set<nat>
    ghost var processed: set<nat>

    ghost predicate Valid()
      reads this
    {
      && size > 0
      && IndexOk(size, stored, heads, chain)
      && Confirmed(known * size, confirms, notified)
      && AllConfirmed(processed, confirms, notified)
      && StageOk(stage, size, confirms, stored, known, heads, notified)
      && known * size < TWO_64
      && Awake(stage, stored, known, update, timers)
    }

    /** Opening an index database left behind by an earlier run; a new one is the case of none
        stored. */
    constructor (size: nat, confirms: uint64, stored: nat, heads: map<nat, Hash>, ghost chain: seq<Header>)
      requires size > 0 && IndexOk(size, stored, heads, chain)
      ensures Valid() && this.size == size && this.confirms == confirms && this.stored == stored && this.heads == heads
      ensures known == 0 && children == [] && notified == {} && processed == {} && stage.Idle?
      ensures !update && timers == 0 && cascadedHead == 0
    {
      this.size, this.confirms, this.stored, this.heads, this.chain := size, confirms, stored, heads, chain;
      known, cascadedHead, update, timers, children := 0, 0, false, 0, [];
      stage, notified, processed := Idle, {}, {};
    }

    /** newHead: a reorganisation notice is ignored, a head may complete more sections. */
    method NewHead(head: uint64, reorg: bool)
      requires Valid()
      modifies `known, `update, `notified
      ensures Valid()
      ensures reorg ==> known == old(known) && update == old(update) && notified == old(notified)
      ensures !reorg ==> notified == old(notified) + {head}
      ensures !reorg ==>
        known == if SectionsAt(head, confirms, size) > old(known) then SectionsAt(head, confirms, size) else old(known)
      ensures old(known) <= known && (known == old(known) ==> update == old(update))
      ensures known > old(known) ==> update && known * size + confirms <= head + 1
      ensures !reorg && head >= confirms && head + 1 - confirms < TWO_64 ==> head + 1 < (known + 1) * size + confirms
    {
      hide IndexOk, Confirmed;
      if reorg { return; }
      notified := notified + {head};
      if head >= confirms {
        var sections := SectionsAt(head, confirms, size);
        if sections > known {
          known := sections;
          update := true;
        } else {
          Times(sections + 1, known + 1, size);
        }
      }
      HeadConfirms(head, confirms, size, old(known), known, old(notified), processed, stage, stored, heads);
    }

    /** A delayed reschedule puts the update signal back. */
    method TimerFires()
      requires Valid() && timers > 0
      modifies `timers, `update
      ensures Valid() && update && timers == old(timers) - 1
    {
      timers := timers - 1;
      update := true;
    }

    /** The update loop receives a signal and, if there is work, notes the section and its parent. */
    method Begin() returns (work: bool, section: nat, oldHead: Hash)
      requires Valid() && stage.Idle? && update
      modifies `update, `stage
      ensures Valid()
      ensures !update && (work <==> known > stored)
      ensures work ==> section == stored && oldHead == HeadOf(heads, stored - 1) && stage == Working(section, oldHead)
      ensures !work ==> stage.Idle?
    {
      hide IndexOk;
      update := false;
      work := known > stored;
      section, oldHead := stored, ZERO_HASH;
      if work {
        if section > 0 { oldHead := HeadOf(heads, section - 1); }
        Times(section + 1, known, size);
        ConfirmedGrows(known * size, (section + 1) * size, confirms, notified, notified);
        stage := Working(section, oldHead);
      }
    }

    /** processSection, run without the lock: only a backend that cannot be reset changes the index,
        by dropping all of it. */
    method ProcessSection(section: nat, oldHead: Hash, view: View) returns (ok: bool, newHead: Hash)
      requires Valid() && stage == Working(section, oldHead) && Keyed(view)
      modifies `stored, `heads, `chain, `stage, `processed
      ensures Valid()
      ensures ok ==> stage.Walked? && stage.section == section && stage.oldHead == oldHead
      ensures ok ==> newHead == stage.segment[|stage.segment| - 1].hash
      ensures ok <==> view.reset && view.commit && AllPass(section * size, size, oldHead, view)
      ensures !ok ==> stage == Failed(section, oldHead) && newHead == ZERO_HASH
      ensures view.reset ==> stored == old(stored) && heads == old(heads) && chain == old(chain)
      ensures !view.reset ==> stored == 0 && heads == map[] && chain == []
      ensures view.reset ==> processed == old(processed) + Numbers(section * size, size)
      ensures !view.reset ==> processed == old(processed)
    {
      hide IndexOk, Continues, Confirmed, AllConfirmed, Passes;
      if !view.reset {
        ForgettingKeepsIndex(size, stored, heads, chain, 0);
        stored, heads := SetValidSections(stored, heads, 0);
        chain, stage := [], Failed(section, oldHead);
        EmptyIndex(size, heads);
        return false, ZERO_HASH;
      }
      ghost var segment;
      Times(section, section, size);
      AllConfirmedGrows(processed, section * size, size, confirms, notified);
      processed := processed + Numbers(section * size, size);
      ok, newHead, segment := WalkSection(size, section * size, oldHead, view);
      stage := if ok then Walked(section, oldHead, segment) else Failed(section, oldHead);
    }

    /** The update loop takes the lock again: a processed section is committed and announced to the
        children, a failed one waits for the next head. */
    method Finish(section: nat, oldHead: Hash, newHead: Hash, ok: bool)
      requires Valid() && this !in children && forall c <- children :: c.Valid()
      requires ok ==> stage.Walked? && stage.section == section && stage.oldHead == oldHead
      requires ok ==> newHead == stage.segment[|stage.segment| - 1].hash
      requires !ok ==> stage == Failed(section, oldHead)
      modifies this, Objects(children)
      ensures Valid() && stage.Idle? && children == old(children) && notified == old(notified)
      ensures processed == old(processed)
      ensures ok ==> old(stage).Walked? && chain == old(chain) + old(stage).segment
      ensures ok ==> stored == section + 1 && known == old(known) && heads == old(heads)[section := newHead]
      ensures ok ==> cascadedHead == stored * size - 1 == |chain| - 1 && 0 <= cascadedHead < TWO_64
      ensures ok ==> forall c <- children :: c.notified == old(c.notified) + {cascadedHead}
      ensures ok ==> forall c <- children :: CaughtUp(cascadedHead, c.confirms, c.size, c.known)
      ensures !ok ==> stored == old(stored) && chain == old(chain) && heads == old(heads) && known == stored
      ensures !ok ==> forall c <- children :: c.notified == old(c.notified)
      ensures forall c <- children :: c.Valid()
    {
      hide Continues, Confirmed, AllConfirmed, SectionsAt;
      if ok && oldHead == HeadOf(heads, section - 1) {
        CommitKeepsIndex(size, stored, heads, chain, stage.segment);
        Times(section + 1, known, size);
        heads := heads[section := newHead];
        chain := chain + stage.segment;
        stored, heads := SetValidSections(stored, heads, section + 1);
        stage := Idle;
        cascadedHead := stored * size - 1;
        Announce(children, cascadedHead);
        Reschedule();
      } else {
        Times(stored, known, size);
        ConfirmedGrows(known * size, stored * size, confirms, notified, notified);
        known := stored;
        stage := Idle;
      }
    }

    /** More sections to process: try again after the throttling delay. */
    method Reschedule()
      modifies `timers
      ensures timers == if known > stored then old(timers) + 1 else old(timers)
    {
      if known > stored { timers := timers + 1; }
    }

    /** AddChildIndexer: a child added late hears of what is both stored and known. */
    method AddChild(child: ChainIndexer)
      requires Valid() && child.Valid() && child != this
      modifies `children, child
      ensures Valid() && child.Valid() && children == old(children) + [child]
      ensures stored == 0 || known == 0 ==> child.notified == old(child.notified) && child.known == old(child.known)
      ensures 0 < stored <= known ==> child.notified == old(child.notified) + {stored * size - 1}
      ensures 0 < known < stored ==> child.notified == old(child.notified) + {known * size - 1}
      ensures 0 < stored <= known ==> CaughtUp(stored * size - 1, child.confirms, child.size, child.known)
    {
      children := children + [child];
      var sections := stored;
      if known < sections { sections := known; }
      if sections > 0 {
        Times(sections, known, size);
        Times(1, sections, size);
        child.NewHead(sections * size - 1, false);
      }
    }
  }

  ghost function Objects(cs: seq<ChainIndexer>): set<object> {
    set c | c in cs
  }

  /** Every section whose last block has `confirms` blocks on top of it under this head is known. */
  ghost predicate CaughtUp(head: int, confirms: int, size: nat, known: nat) {
    head >= confirms && head + 1 - confirms < TWO_64 ==> head + 1 < (known + 1) * size + confirms
  }

  /** In particular a child that asks for no confirmations and has the parent's section size knows the
      section its parent has just finished. */
  lemma ChildKnowsParentSection(stored: nat, size: nat, known: nat)
    requires size > 0 && 0 < stored && stored * size < TWO_64 && CaughtUp(stored * size - 1, 0, size, known)
    ensures stored <= known
  {
    Times(1, stored, size);
    if known < stored {
      Times(known + 1, stored, size);
      assert false;
    }
  }

  /** What an indexer promises whenever its lock is free, in plain terms: the index is one chain of
      blocks linked by parent hashes from number 0, the stored heads are those of its sections, every
      block handed to the backend had `confirms` blocks on top of it under some announced head, and
      work that is left always has a signal or a timer. */
  lemma ValidMeans(c: ChainIndexer)
    requires c.Valid()
    ensures |c.chain| == c.stored * c.size
    ensures forall i :: 0 <= i < |c.chain| ==> c.chain[i].number == i
    ensures |c.chain| > 0 ==> c.chain[0].parentHash == ZERO_HASH
    ensures forall i, j :: 0 <= i && j == i + 1 < |c.chain| ==> c.chain[j].parentHash == c.chain[i].hash
    ensures forall i :: i in c.heads <==> 0 <= i < c.stored
    ensures forall i <- c.heads :: SectionEnds(c.size, c.heads, c.chain, i)
    ensures forall n <- c.processed :: exists h :: h in c.notified && n + c.confirms <= h
    ensures c.stage.Idle? && c.known > c.stored ==> c.update || c.timers > 0
  {
    hide StageOk;
    forall i, j | 0 <= i && j == i + 1 < |c.chain| ensures c.chain[j].parentHash == c.chain[i].hash {
      assert c.chain[j].parentHash == HashBefore(ZERO_HASH, c.chain, j);
    }
    if |c.chain| > 0 {
      assert c.chain[0].parentHash == HashBefore(ZERO_HASH, c.chain, 0);
    }
    forall n | n in c.processed ensures exists h :: h in c.notified && n + c.confirms <= h {
      assert Confirmed(n + 1, c.confirms, c.notified);
    }
  }

  /** A section is walked to its end exactly when every block of it is known and accepted, the first
      links to the head of the section before and every other one to the block before it. */
  lemma AllPassMeans(base: nat, size: nat, lastHead: Hash, view: View)
    requires size > 0
    ensures AllPass(base, size, lastHead, view) <==>
            && (forall n :: base <= n < base + size ==>
                  view.header(n).Some? && view.canonical(n) != ZERO_HASH && view.process(n))
            && view.header(base).value.parentHash == lastHead
            && (forall n, m :: base <= n && m == n + 1 < base + size ==>
                  view.header(m).value.parentHash == view.header(n).value.hash)
  {
    if AllPass(base, size, lastHead, view) {
      assert Passes(base, lastHead, view, base);
      forall n | base <= n < base + size
        ensures view.header(n).Some? && view.canonical(n) != ZERO_HASH && view.process(n)
      {
        assert Passes(base, lastHead, view, n);
      }
      forall n, m | base <= n && m == n + 1 < base + size
        ensures view.header(m).value.parentHash == view.header(n).value.hash
      {
        assert Passes(base, lastHead, view, m);
      }
    } else {
      var n :| base <= n < base + size && !Passes(base, lastHead, view, n);
      if n > base {
        var before := n - 1;
        assert base <= before && n == before + 1;
      }
    }
  }

  /** The cascade: every child is told the new head. */
  method Announce(kids: seq<ChainIndexer>, head: uint64)
    requires forall c <- kids :: c.Valid()
    modifies Objects(kids)
    ensures forall c <- kids :: c.Valid() && c.notified == old(c.notified) + {head}
    ensures forall c <- kids :: CaughtUp(head, c.confirms, c.size, c.known)
    ensures forall c <- kids :: c.stored == old(c.stored) && c.heads == old(c.heads)
    ensures forall c <- kids :: c.chain == old(c.chain) && c.children == old(c.children)
  {
    var i := 0;
    while i < |kids|
      invariant 0 <= i <= |kids|
      invariant forall c <- kids :: c.Valid()
      invariant forall j :: 0 <= j < i ==> CaughtUp(head, kids[j].confirms, kids[j].size, kids[j].known)
      invariant forall j :: 0 <= j < i ==> kids[j].notified == old(kids[j].notified) + {head}
      invariant forall c <- kids :: c.notified == old(c.notified) || c.notified == old(c.notified) + {head}
      invariant forall c <- kids :: c.stored == old(c.stored) && c.heads == old(c.heads)
      invariant forall c <- kids :: c.chain == old(c.chain) && c.children == old(c.children)
    {
      kids[i].NewHead(head, false);
      i := i + 1;
    }
  }

  lemma EmptyIndex(size: nat, heads: map<nat, Hash>)
    requires IndexOk(size, 0, heads, [])
    ensures heads == map[]
  {
  }

  lemma HeadConfirms(head: uint64, confirms: uint64, size: nat, known: nat, known': nat, notified: set<nat>,
                     processed: set<nat>, stage: Stage, stored: nat, heads: map<nat, Hash>)
    requires size > 0 && Confirmed(known * size, confirms, notified) && AllConfirmed(processed, confirms, notified)
    requires StageOk(stage, size, confirms, stored, known, heads, notified) && known <= known'
    ensures Confirmed(known * size, confirms, notified + {head}) && AllConfirmed(processed, confirms, notified + {head})
    ensures Confirmed(SectionsAt(head, confirms, size) * size, confirms, notified + {head})
    ensures StageOk(stage, size, confirms, stored, known', heads, notified + {head})
  {
    var n := SectionsAt(head, confirms, size);
    assert head in notified + {head};
    ConfirmedGrows(known * size, known * size, confirms, notified, notified + {head});
    forall m | m in processed ensures Confirmed(m + 1, confirms, notified + {head}) {
      ConfirmedGrows(m + 1, m + 1, confirms, notified, notified + {head});
    }
    if stage.Working? {
      ConfirmedGrows((stage.section + 1) * size, (stage.section + 1) * size, confirms, notified, notified + {head});
    }
  }
}
