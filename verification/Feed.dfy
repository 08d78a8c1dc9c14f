/** One-to-many event delivery: Send shrinks an active prefix of the shared case list while
    unsubscriptions interrupt it. Every choice of the select statements and every lock
    hand-over is a step of the state machine. */
module Feeds {
  type Channel = nat

  /** Case 0 of the list receives removal requests; the others send to a subscribed channel. */
  datatype Case = RemoveSub | Sub(chan: Channel, id: nat)

  const FIRST_SUB := 1

  // The case list as a sequence.

  function Find(cs: seq<Case>, ch: Channel): (index: int)
    ensures -1 <= index < |cs|
    ensures index >= 0 ==> cs[index].Sub? && cs[index].chan == ch && forall i :: 0 <= i < index ==> !IsFor(cs[i], ch)
    ensures index == -1 ==> forall i :: 0 <= i < |cs| ==> !IsFor(cs[i], ch)
  {
    if cs == [] then -1
    else if IsFor(cs[0], ch) then 0
    else var rest := Find(cs[1..], ch); if rest == -1 then -1 else rest + 1
  }

  predicate IsFor(c: Case, ch: Channel) {
    c.Sub? && c.chan == ch
  }

  function Delete(cs: seq<Case>, index: nat): seq<Case>
    requires index < |cs|
  {
    cs[..index] + cs[index + 1..]
  }

  /** Swaps the case at index with the last active one. */
  function Deactivate(cs: seq<Case>, index: nat, active: nat): seq<Case>
    requires index < active <= |cs|
  {
    cs[index := cs[active - 1]][active - 1 := cs[index]]
  }

  // The list in memory: `cases` in Send is a prefix of the same backing array as sendCases,
  // so both operations work in place.

  class CaseList {
    var backing: array<Case>
    var size: nat

    ghost predicate Valid()
      reads this
    {
      size <= backing.Length
    }

    ghost function All(): seq<Case>
      requires Valid()
      reads this, backing
    {
      backing[..size]
    }

    constructor (cs: seq<Case>)
      ensures Valid() && All() == cs && fresh(backing)
    {
      backing := new Case[|cs|](i requires 0 <= i < |cs| => cs[i]);
      size := |cs|;
    }

    method FindCase(ch: Channel) returns (index: int)
      requires Valid()
      ensures index == Find(All(), ch)
    {
      var i := 0;
      while i < size
        invariant 0 <= i <= size && forall k :: 0 <= k < i ==> !IsFor(backing[k], ch)
      {
        if IsFor(backing[i], ch) {
          return i;
        }
        i := i + 1;
      }
      return -1;
    }

    /** append(cs[:index], cs[index+1:]...): the tail moves down, nothing is reallocated. */
    method DeleteCase(index: nat)
      requires Valid() && index < size
      modifies this`size, backing
      ensures Valid() && backing == old(backing) && All() == Delete(old(All()), index)
      ensures forall k :: 0 <= k < index ==> backing[k] == old(backing[k])
    {
      var i := index;
      while i + 1 < size
        invariant Valid() && size == old(size) && index <= i < size
        invariant forall k :: 0 <= k < index || i < k < size ==> backing[k] == old(backing[k])
        invariant forall k :: index <= k < i ==> backing[k] == old(backing[k + 1])
      {
        backing[i] := backing[i + 1];
        i := i + 1;
      }
      size := size - 1;
    }

    method DeactivateCase(index: nat, active: nat)
      requires Valid() && index < active <= size
      modifies backing
      ensures All() == Deactivate(old(All()), index, active)
    {
      backing[index], backing[active - 1] := backing[active - 1], backing[index];
    }
  }

  // The protocol.

  /** The goroutine holding the send lock: none, inside the non-blocking pass at index i,
      or waiting in the select. */
  datatype Phase = Idle | Trying(i: nat) | Waiting

  datatype FeedState = FeedState(
    sendCases: seq<Case>,
    inbox: seq<Case>,
    phase: Phase,
    active: nat,                    // len(cases) while a Send is in progress
    nsent: nat,
    removers: multiset<Channel>,    // unsubscribers past the inbox check, waiting in their select
    live: multiset<Channel>,        // subscriptions whose Unsubscribe has not completed
    // history of the Send in progress, or of the last one
    roster: multiset<Case>,         // the cases present when it took the lock, with case 0
    sent: multiset<Case>,           // deliveries it made
    early: multiset<Case>,          // entries removed before it delivered to them
    late: multiset<Case>)           // entries removed after it delivered to them

  const INITIAL := FeedState([RemoveSub], [], Idle, 1, 0, multiset{}, multiset{}, multiset{RemoveSub}, multiset{},
                             multiset{}, multiset{})

  datatype Step =
    | Subscribe(chan: Channel, id: nat)
    | Unsubscribe(chan: Channel)        // the inbox check, under the mutex
    | RemoveWithLock(chan: Channel)     // no Send in progress
    | StartSend
    | TrySend(ok: bool)
    | EndPass                           // the pass is over: finished, or wait in the select
    | SelectSend(index: nat)
    | SelectRemove(chan: Channel)

  function Channels(cs: seq<Case>): multiset<Channel> {
    if cs == [] then multiset{}
    else (if cs[0].Sub? then multiset{cs[0].chan} else multiset{}) + Channels(cs[1..])
  }

  predicate Enabled(s: FeedState, step: Step) {
    match step
    case Subscribe(_, _) => true
    case Unsubscribe(ch) => s.removers[ch] < s.live[ch]     // once per subscription
    case RemoveWithLock(ch) => s.phase.Idle? && ch in s.removers
    case StartSend => s.phase.Idle?
    case TrySend(_) => s.phase.Trying? && s.phase.i < s.active <= |s.sendCases|
    case EndPass => s.phase.Trying? && s.phase.i >= s.active
    case SelectSend(k) => s.phase.Waiting? && FIRST_SUB <= k < s.active <= |s.sendCases|
    case SelectRemove(ch) => s.phase.Waiting? && ch in s.removers
  }

  /** One delivery: the case leaves the active prefix. */
  function Deliver(s: FeedState, index: nat, phase: Phase): FeedState
    requires index < s.active <= |s.sendCases|
  {
    s.(sendCases := Deactivate(s.sendCases, index, s.active), active := s.active - 1, nsent := s.nsent + 1,
       phase := phase, sent := s.sent + multiset{s.sendCases[index]})
  }

  /** One removal from sendCases. A channel that is not found would be a panic; here nothing
      happens then, and RemoverIsFound shows that it cannot be. */
  function Drop(s: FeedState, ch: Channel): FeedState {
    var index := Find(s.sendCases, ch);
    if index < 0 then s
    else
      var c := s.sendCases[index];
      var s' := s.(sendCases := Delete(s.sendCases, index), removers := s.removers - multiset{ch},
                   live := s.live - multiset{ch});
      if s.phase.Idle? then s'
      else if index < s.active then
        s'.(active := s.active - 1, early := s.early + multiset{c}, phase := Trying(FIRST_SUB))
      else s'.(late := s.late + multiset{c}, phase := Trying(FIRST_SUB))
  }

  function Apply(s: FeedState, step: Step): FeedState
    requires Enabled(s, step)
  {
    match step
    case Subscribe(ch, id) => s.(inbox := s.inbox + [Sub(ch, id)], live := s.live + multiset{ch})
    case Unsubscribe(ch) =>
      var index := Find(s.inbox, ch);
      if index != -1 then s.(inbox := Delete(s.inbox, index), live := s.live - multiset{ch})
      else s.(removers := s.removers + multiset{ch})
    case RemoveWithLock(ch) => Drop(s, ch)
    case StartSend =>
      var cs := s.sendCases + s.inbox;
      s.(sendCases := cs, inbox := [], phase := Trying(FIRST_SUB), active := |cs|, nsent := 0,
         roster := multiset(cs), sent := multiset{}, early := multiset{}, late := multiset{})
    case TrySend(ok) => if ok then Deliver(s, s.phase.i, s.phase) else s.(phase := Trying(s.phase.i + 1))
    case EndPass => s.(phase := if s.active == FIRST_SUB then Idle else Waiting)
    case SelectSend(k) => Deliver(s, k, Trying(FIRST_SUB))
    case SelectRemove(ch) => Drop(s, ch)
  }

  ghost predicate Inv(s: FeedState) {
    && Shape(s.sendCases, s.inbox, s.active, s.phase)
    && Matches(s.sendCases, s.inbox, s.live, s.removers)
    && if s.phase.Idle? then Report(s.nsent, s.roster, s.sent, s.early, s.late)
       else Accounts(s.sendCases, s.active, s.nsent, s.roster, s.sent, s.early, s.late)
  }

  ghost predicate Shape(cs: seq<Case>, inbox: seq<Case>, active: nat, phase: Phase) {
    && 1 <= active <= |cs|
    && cs[0] == RemoveSub
    && (forall i :: 1 <= i < |cs| ==> cs[i].Sub?)
    && (forall i :: 0 <= i < |inbox| ==> inbox[i].Sub?)
    && (phase.Trying? ==> phase.i >= FIRST_SUB)
    && (phase.Idle? ==> active == FIRST_SUB)
  }

  /** The lists hold exactly the live subscriptions, and whoever waits to be removed is in sendCases. */
  ghost predicate Matches(cs: seq<Case>, inbox: seq<Case>, live: multiset<Channel>, removers: multiset<Channel>) {
    Channels(cs) + Channels(inbox) == live && removers <= Channels(cs)
  }

  /** What a finished Send did: everything on its roster was delivered, except what was removed
      first; the count returned is the number of deliveries. */
  ghost predicate Report(nsent: nat, roster: multiset<Case>, sent: multiset<Case>, early: multiset<Case>,
                         late: multiset<Case>) {
    roster == multiset{RemoveSub} + sent + early && late <= sent && nsent == |sent|
  }

  /** Every entry of a Send is still to be served, served, or removed. */
  ghost predicate Accounts(cs: seq<Case>, active: nat, nsent: nat, roster: multiset<Case>, sent: multiset<Case>,
                           early: multiset<Case>, late: multiset<Case>)
    requires 1 <= active <= |cs|
  {
    && roster == multiset(cs) + early + late
    && sent == multiset(cs[active..]) + late
    && nsent == |sent|
  }

  lemma {:induction false} FoundBelow(cs: seq<Case>, ch: Channel)
    ensures ch in Channels(cs) <==> Find(cs, ch) >= 0
  {
    if cs != [] {
      FoundBelow(cs[1..], ch);
    }
  }

  function ChannelOf(c: Case): multiset<Channel> {
    if c.Sub? then multiset{c.chan} else multiset{}
  }

  lemma ConcatParts(a: seq<Case>, b: seq<Case>)
    ensures a == [] ==> a + b == b
    ensures a != [] ==> (a + b)[0] == a[0] && (a + b)[1..] == a[1..] + b
  {
  }

  lemma ChannelsHead(cs: seq<Case>)
    requires cs != []
    ensures Channels(cs) == ChannelOf(cs[0]) + Channels(cs[1..])
  {
  }

  lemma {:induction false} ChannelsConcat(a: seq<Case>, b: seq<Case>)
    ensures Channels(a + b) == Channels(a) + Channels(b)
  {
    ConcatParts(a, b);
    if a != [] {
      ChannelsConcat(a[1..], b);
      ChannelsHead(a + b);
      ChannelsHead(a);
    }
  }

  /** Deleting a case removes one occurrence of its channel. */
  lemma DeleteChannels(cs: seq<Case>, index: nat)
    requires index < |cs| && cs[index].Sub?
    ensures Channels(Delete(cs, index)) == Channels(cs) - multiset{cs[index].chan}
    ensures cs[index].chan in Channels(cs)
  {
    ChannelsWithout(cs, index);
  }

  lemma DeleteMultiset(cs: seq<Case>, i: nat)
    requires i < |cs|
    ensures multiset(cs) == multiset(Delete(cs, i)) + multiset{cs[i]}
  {
    assert cs == cs[..i] + [cs[i]] + cs[i + 1..];
  }

  lemma SameAfterDrop(a: seq<Case>, rest: multiset<Case>)
    requires a != [] && multiset(a) == rest + multiset{a[0]}
    ensures multiset(a[1..]) == rest
  {
    assert a == [a[0]] + a[1..];
    assert (rest + multiset{a[0]}) - multiset{a[0]} == rest;
  }

  lemma ChannelsWithout(cs: seq<Case>, i: nat)
    requires i < |cs|
    ensures Channels(cs) == ChannelOf(cs[i]) + Channels(Delete(cs, i))
  {
    var a, c, b := cs[..i], [cs[i]], cs[i + 1..];
    assert cs == a + (c + b);
    ChannelsConcat(a, c + b);
    ChannelsConcat(a, b);
    ChannelsHead(c + b);
    assert (c + b)[1..] == b;
  }

  lemma {:induction false} ChannelsPermuted(a: seq<Case>, b: seq<Case>)
    requires multiset(a) == multiset(b)
    ensures Channels(a) == Channels(b)
    decreases |a|
  {
    assert |a| == |multiset(a)| == |multiset(b)| == |b|;
    if a != [] {
      assert a[0] in multiset(b);
      var i :| 0 <= i < |b| && b[i] == a[0];
      DeleteMultiset(b, i);
      SameAfterDrop(a, multiset(Delete(b, i)));
      ChannelsPermuted(a[1..], Delete(b, i));
      ChannelsHead(a);
      ChannelsWithout(b, i);
    }
  }

  /** Deactivating loses nothing and adds one case to the inactive part. */
  lemma DeactivateMoves(cs: seq<Case>, index: nat, active: nat)
    requires 1 <= index < active <= |cs|
    ensures var r := Deactivate(cs, index, active);
      && r[0] == cs[0] && multiset(r) == multiset(cs)
      && multiset(r[active - 1..]) == multiset(cs[active..]) + multiset{cs[index]}
  {
    var r := Deactivate(cs, index, active);
    assert r[active - 1..] == [cs[index]] + cs[active..];
  }

  /** Deleting takes one case out of the part it is in. */
  lemma DeleteSplits(cs: seq<Case>, index: nat, active: nat)
    requires 1 <= index < |cs| && 1 <= active <= |cs|
    ensures var r := Delete(cs, index);
      && |r| == |cs| - 1 && r[0] == cs[0] && multiset(cs) == multiset(r) + multiset{cs[index]}
      && (index < active ==> r[active - 1..] == cs[active..])
      && (index >= active ==> multiset(cs[active..]) == multiset(r[active..]) + multiset{cs[index]})
  {
    var r := Delete(cs, index);
    DeleteMultiset(cs, index);
    if index >= active {
      DeleteMultiset(cs[active..], index - active);
      assert r[active..] == Delete(cs[active..], index - active);
    }
  }

  lemma DeliverKeepsInv(s: FeedState, index: nat, phase: Phase)
    requires Inv(s) && !s.phase.Idle? && FIRST_SUB <= index < s.active
    requires !phase.Idle? && (phase.Trying? ==> phase.i >= FIRST_SUB)
    ensures Inv(Deliver(s, index, phase))
  {
    hide Accounts, Matches, Report, Deactivate;
    DeactivateKeepsShape(s.sendCases, s.inbox, s.active, s.phase, index, phase);
    DeactivateKeepsMatches(s.sendCases, index, s.active, s.inbox, s.live, s.removers);
    DeactivateKeepsAccounts(s.sendCases, index, s.active, s.nsent, s.roster, s.sent, s.early, s.late);
  }

  lemma DeactivateKeepsShape(cs: seq<Case>, inbox: seq<Case>, active: nat, phase: Phase, index: nat, phase': Phase)
    requires Shape(cs, inbox, active, phase) && FIRST_SUB <= index < active
    requires !phase'.Idle? && (phase'.Trying? ==> phase'.i >= FIRST_SUB)
    ensures Shape(Deactivate(cs, index, active), inbox, active - 1, phase') && |Deactivate(cs, index, active)| == |cs|
  {}

  lemma DeactivateKeepsMatches(cs: seq<Case>, index: nat, active: nat, inbox: seq<Case>, live: multiset<Channel>,
                               removers: multiset<Channel>)
    requires 1 <= index < active <= |cs| && Matches(cs, inbox, live, removers)
    ensures Matches(Deactivate(cs, index, active), inbox, live, removers)
  {
    DeactivateMoves(cs, index, active);
    ChannelsPermuted(Deactivate(cs, index, active), cs);
  }

  lemma DeactivateKeepsAccounts(cs: seq<Case>, index: nat, active: nat,
                                nsent: nat, roster: multiset<Case>, sent: multiset<Case>, early: multiset<Case>,
                                late: multiset<Case>)
    requires 1 <= index < active <= |cs| && Accounts(cs, active, nsent, roster, sent, early, late)
    ensures Accounts(Deactivate(cs, index, active), active - 1, nsent + 1, roster, sent + multiset{cs[index]}, early,
                     late)
  {
    DeactivateMoves(cs, index, active);
    Booked(multiset(cs[active..]), multiset(Deactivate(cs, index, active)[active - 1..]), cs[index], sent, late);
  }

  lemma Booked(inactive: multiset<Case>, inactive': multiset<Case>, c: Case, sent: multiset<Case>, late: multiset<Case>)
    requires inactive' == inactive + multiset{c} && sent == inactive + late
    ensures sent + multiset{c} == inactive' + late && |sent + multiset{c}| == |sent| + 1
  {}

  /** A removal request that passed the inbox check is found in sendCases, never at -1. */
  lemma RemoverIsFound(s: FeedState, ch: Channel)
    requires Inv(s) && ch in s.removers
    ensures FIRST_SUB <= Find(s.sendCases, ch) < |s.sendCases|
  {
    hide Channels, Accounts, Report;
    FoundBelow(s.sendCases, ch);
  }

  lemma DropKeepsInv(s: FeedState, ch: Channel)
    requires Inv(s) && ch in s.removers && !s.phase.Trying?
    ensures Find(s.sendCases, ch) >= FIRST_SUB && Inv(Drop(s, ch))
  {
    hide Matches, Accounts, Report;
    RemoverIsFound(s, ch);
    hide Shape;
    DropKeepsShape(s, ch);
    DeleteKeepsMatches(s.sendCases, Find(s.sendCases, ch), s.inbox, s.live, s.removers);
    if !s.phase.Idle? {
      DropKeepsAccounts(s, ch);
    }
  }

  lemma DropKeepsShape(s: FeedState, ch: Channel)
    requires Shape(s.sendCases, s.inbox, s.active, s.phase) && FIRST_SUB <= Find(s.sendCases, ch)
    ensures 1 <= s.active <= |s.sendCases|
    ensures var s' := Drop(s, ch); Shape(s'.sendCases, s'.inbox, s'.active, s'.phase)
  {}

  lemma DeleteKeepsMatches(cs: seq<Case>, index: nat, inbox: seq<Case>, live: multiset<Channel>,
                           removers: multiset<Channel>)
    requires index < |cs| && cs[index].Sub? && Matches(cs, inbox, live, removers)
    ensures Matches(Delete(cs, index), inbox, live - multiset{cs[index].chan}, removers - multiset{cs[index].chan})
  {
    hide Channels;
    DeleteChannels(cs, index);
  }

  lemma DropKeepsAccounts(s: FeedState, ch: Channel)
    requires 1 <= s.active <= |s.sendCases| && FIRST_SUB <= Find(s.sendCases, ch) && !s.phase.Idle?
    requires Accounts(s.sendCases, s.active, s.nsent, s.roster, s.sent, s.early, s.late)
    ensures var s' := Drop(s, ch);
      1 <= s'.active <= |s'.sendCases|
        && Accounts(s'.sendCases, s'.active, s'.nsent, s'.roster, s'.sent, s'.early, s'.late)
  {
    hide Find, Delete, Accounts, Drop;
    var index, cs := Find(s.sendCases, ch), s.sendCases;
    DropFields(s, ch);
    DeleteSplits(cs, index, s.active);
    if index < s.active {
      AccountsEarly(cs, Delete(cs, index), cs[index], s.active, s.nsent, s.roster, s.sent, s.early, s.late);
    } else {
      AccountsLate(cs, Delete(cs, index), cs[index], s.active, s.nsent, s.roster, s.sent, s.early, s.late);
    }
  }

  /** The books a removal touches while a Send is under way. */
  lemma DropFields(s: FeedState, ch: Channel)
    requires FIRST_SUB <= Find(s.sendCases, ch) && !s.phase.Idle?
    ensures var s', index := Drop(s, ch), Find(s.sendCases, ch);
      && s'.sendCases == Delete(s.sendCases, index)
      && s'.nsent == s.nsent && s'.roster == s.roster && s'.sent == s.sent
      && (index < s.active ==>
        s'.active == s.active - 1 && s'.early == s.early + multiset{s.sendCases[index]} && s'.late == s.late)
      && (index >= s.active ==>
        s'.active == s.active && s'.early == s.early && s'.late == s.late + multiset{s.sendCases[index]})
  {
    hide Find, Delete;
  }

  /** An entry removed before it was served is accounted for as such. */
  lemma AccountsEarly(cs: seq<Case>, r: seq<Case>, c: Case, active: nat, nsent: nat,
                      roster: multiset<Case>, sent: multiset<Case>, early: multiset<Case>, late: multiset<Case>)
    requires 2 <= active <= |cs| && |r| == |cs| - 1 && multiset(cs) == multiset(r) + multiset{c}
    requires r[active - 1..] == cs[active..]
    requires Accounts(cs, active, nsent, roster, sent, early, late)
    ensures Accounts(r, active - 1, nsent, roster, sent, early + multiset{c}, late)
  {
    Regroup(multiset(cs), multiset(r), c, early, late);
  }

  /** An entry removed after it was served still counts as served. */
  lemma AccountsLate(cs: seq<Case>, r: seq<Case>, c: Case, active: nat, nsent: nat,
                     roster: multiset<Case>, sent: multiset<Case>, early: multiset<Case>, late: multiset<Case>)
    requires 1 <= active < |cs| && |r| == |cs| - 1
    requires multiset(cs) == multiset(r) + multiset{c} && multiset(cs[active..]) == multiset(r[active..]) + multiset{c}
    requires Accounts(cs, active, nsent, roster, sent, early, late)
    ensures Accounts(r, active, nsent, roster, sent, early, late + multiset{c})
  {
    Regroup(multiset(cs), multiset(r), c, late, early);
    Regroup(multiset(cs[active..]), multiset(r[active..]), c, late, multiset{});
  }

  lemma Regroup(all: multiset<Case>, rest: multiset<Case>, c: Case, a: multiset<Case>, b: multiset<Case>)
    requires all == rest + multiset{c}
    ensures all + a + b == rest + (a + multiset{c}) + b == all + b + a == rest + b + (a + multiset{c})
  {}

  lemma StartKeepsInv(s: FeedState)
    requires Inv(s) && s.phase.Idle?
    ensures Inv(Apply(s, StartSend))
  {
    hide Channels;
    var cs := s.sendCases + s.inbox;
    ChannelsConcat(s.sendCases, s.inbox);
    EmptyChannels();
    assert cs[|cs|..] == [];
  }

  lemma EmptyChannels()
    ensures Channels([]) == multiset{}
  {}

  lemma SubscribeKeepsInv(s: FeedState, ch: Channel, id: nat)
    requires Inv(s)
    ensures Inv(Apply(s, Subscribe(ch, id)))
  {
    hide Channels, Accounts, Report;
    ChannelsConcat(s.inbox, [Sub(ch, id)]);
    assert Channels([Sub(ch, id)]) == multiset{ch} by { ChannelsOfOne(ch, id); }
  }

  lemma ChannelsOfOne(ch: Channel, id: nat)
    ensures Channels([Sub(ch, id)]) == multiset{ch}
  {
    assert [Sub(ch, id)][1..] == [];
  }

  lemma UnsubscribeKeepsInv(s: FeedState, ch: Channel)
    requires Inv(s) && Enabled(s, Unsubscribe(ch))
    ensures Inv(Apply(s, Unsubscribe(ch)))
  {
    hide Channels, Accounts, Report;
    FoundBelow(s.inbox, ch);
    var index := Find(s.inbox, ch);
    if index != -1 {
      DeleteChannels(s.inbox, index);
    }
  }

  /** Every step keeps the invariant. */
  lemma StepKeepsInv(s: FeedState, step: Step)
    requires Inv(s) && Enabled(s, step)
    ensures Inv(Apply(s, step))
  {
    hide Channels;
    match step
    case Subscribe(ch, id) => SubscribeKeepsInv(s, ch, id);
    case Unsubscribe(ch) => UnsubscribeKeepsInv(s, ch);
    case RemoveWithLock(ch) => DropKeepsInv(s, ch);
    case StartSend => StartKeepsInv(s);
    case TrySend(ok) => if ok { DeliverKeepsInv(s, s.phase.i, s.phase); }
    case EndPass => EndPassKeepsInv(s);
    case SelectSend(k) => DeliverKeepsInv(s, k, Trying(FIRST_SUB));
    case SelectRemove(ch) => DropKeepsInv(s, ch);
  }

  lemma EndPassKeepsInv(s: FeedState)
    requires Inv(s) && Enabled(s, EndPass)
    ensures Inv(Apply(s, EndPass))
  {
    hide Channels;
    if s.active == FIRST_SUB {
      assert s.sendCases == [RemoveSub] + s.sendCases[1..];
    }
  }

  /** A run of the feed from its initial state, in any interleaving. */
  ghost predicate IsRun(states: seq<FeedState>, steps: seq<Step>) {
    && |states| == |steps| + 1
    && states[0] == INITIAL
    && forall i :: 0 <= i < |steps| ==> Enabled(states[i], steps[i]) && states[i + 1] == Apply(states[i], steps[i])
  }

  lemma {:induction false} RunsKeepInv(states: seq<FeedState>, steps: seq<Step>, k: nat)
    requires IsRun(states, steps) && k < |states|
    ensures Inv(states[k])
    decreases k
  {
    if k == 0 {
      assert Channels([RemoveSub]) == multiset{} by { assert [RemoveSub][1..] == []; }
      EmptyChannels();
    } else {
      RunsKeepInv(states, steps, k - 1);
      StepKeepsInv(states[k - 1], steps[k - 1]);
    }
  }

  /** In every run, when a Send is over each entry it found has been served exactly once unless it
      was removed first, nothing else has been served, and the result counts the deliveries. */
  lemma SendServesItsRoster(states: seq<FeedState>, steps: seq<Step>, k: nat, c: Case)
    requires IsRun(states, steps) && k < |states| && states[k].phase.Idle? && c.Sub?
    ensures var s := states[k];
      && s.nsent == |s.sent|
      && s.sent[c] + s.early[c] == s.roster[c]
      && (s.roster[c] == 1 && c !in s.early ==> s.sent[c] == 1)
  {
    RunsKeepInv(states, steps, k);
    var s := states[k];
    assert s.roster[c] == (multiset{RemoveSub} + s.sent + s.early)[c];
  }

  /** At every moment of a Send nobody has been served more often than it is listed. */
  lemma NeverServedTwice(states: seq<FeedState>, steps: seq<Step>, k: nat, c: Case)
    requires IsRun(states, steps) && k < |states|
    ensures states[k].sent[c] <= states[k].roster[c]
  {
    RunsKeepInv(states, steps, k);
    var s := states[k];
    if s.phase.Idle? {
      assert s.roster[c] == (multiset{RemoveSub} + s.sent + s.early)[c];
    } else {
      assert s.sendCases == s.sendCases[..s.active] + s.sendCases[s.active..];
      assert s.roster[c] == (multiset(s.sendCases) + s.early + s.late)[c];
    }
  }

  /** At every moment the two lists together hold exactly the live subscriptions. */
  lemma ListsHoldLiveSubscriptions(states: seq<FeedState>, steps: seq<Step>, k: nat)
    requires IsRun(states, steps) && k < |states|
    ensures Channels(states[k].sendCases) + Channels(states[k].inbox) == states[k].live
  {
    RunsKeepInv(states, steps, k);
  }

  /** A channel whose subscriptions are all gone is in neither list, so nothing is sent to it. */
  lemma NothingAfterUnsubscribe(states: seq<FeedState>, steps: seq<Step>, k: nat, ch: Channel)
    requires IsRun(states, steps) && k < |states| && ch !in states[k].live
    ensures forall c :: c in states[k].sendCases || c in states[k].inbox ==> !IsFor(c, ch)
  {
    RunsKeepInv(states, steps, k);
    var s := states[k];
    FoundBelow(s.sendCases, ch);
    FoundBelow(s.inbox, ch);
    assert ch !in Channels(s.sendCases) && ch !in Channels(s.inbox) by {
      assert s.live[ch] == (Channels(s.sendCases) + Channels(s.inbox))[ch];
    }
  }
}
