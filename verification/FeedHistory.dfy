/** What a run of the feed does, told from its steps alone: who subscribed, who was sent to, who was
    removed. The books of the model are tied to it here. */
module FeedHistories {
  import opened Feeds

  // --- subscriptions ---

  function Count(steps: seq<Step>, k: nat, p: Step -> bool): nat
    requires k <= |steps|
  {
    if k == 0 then 0 else Count(steps, k - 1, p) + (if p(steps[k - 1]) then 1 else 0)
  }

  function Subscribes(ch: Channel): Step -> bool { (x: Step) => x.Subscribe? && x.chan == ch }

  function Unsubscribes(ch: Channel): Step -> bool { (x: Step) => x.Unsubscribe? && x.chan == ch }

  predicate Removes(x: Step, ch: Channel) {
    (x.RemoveWithLock? || x.SelectRemove?) && x.chan == ch
  }

  function Removals(ch: Channel): Step -> bool { (x: Step) => Removes(x, ch) }

  /** A call of Unsubscribe either finds its channel in the inbox and is done, or waits to be served by
      one removal step. */
  lemma LiveStep(s: FeedState, step: Step, ch: Channel)
    requires Inv(s) && Enabled(s, step)
    ensures var s' := Apply(s, step);
      && s'.live[ch] + (if Unsubscribes(ch)(step) then 1 else 0) + s.removers[ch] ==
         s.live[ch] + (if Subscribes(ch)(step) then 1 else 0) + s'.removers[ch]
      && s'.removers[ch] + (if Removes(step, ch) then 1 else 0) ==
         s.removers[ch] + (if Unsubscribes(ch)(step) && Find(s.inbox, ch) == -1 then 1 else 0)
  {
    hide Inv, Find, Drop, Deliver, Channels;
    if step.RemoveWithLock? || step.SelectRemove? {
      RemovalCounts(s, step.chan);
    } else if step.TrySend? || step.SelectSend? {
      DeliveryCounts(s, step);
    } else if step.Unsubscribe? && Find(s.inbox, step.chan) != -1 {
      LiveIsListed(s, step.chan);
    }
  }

  lemma RemovalCounts(s: FeedState, ch: Channel)
    requires Inv(s) && ch in s.removers
    ensures ch in s.live
    ensures Drop(s, ch).live == s.live - multiset{ch} && Drop(s, ch).removers == s.removers - multiset{ch}
  {
    hide Channels, Accounts, Report, Shape;
    RemoverIsFound(s, ch);
    LiveIsListed(s, ch);
  }

  lemma DeliveryCounts(s: FeedState, step: Step)
    requires Enabled(s, step) && (step.TrySend? || step.SelectSend?)
    ensures Apply(s, step).live == s.live && Apply(s, step).removers == s.removers
  {
  }

  lemma LiveIsListed(s: FeedState, ch: Channel)
    requires Inv(s) && (Find(s.inbox, ch) >= 0 || ch in s.removers)
    ensures ch in s.live
  {
    FoundBelow(s.inbox, ch);
    assert s.live[ch] == (Channels(s.sendCases) + Channels(s.inbox))[ch];
  }

  /** The calls of Unsubscribe that did not find their channel in the inbox. */
  function Waited(states: seq<FeedState>, steps: seq<Step>, k: nat, ch: Channel): nat
    requires k <= |steps| <= |states|
  {
    if k == 0 then 0
    else
      Waited(states, steps, k - 1, ch)
      + (if Unsubscribes(ch)(steps[k - 1]) && Find(states[k - 1].inbox, ch) == -1 then 1 else 0)
  }

  /** In every run: the subscriptions of a channel are those made, less the calls of Unsubscribe that
      are not still waiting. */
  lemma {:induction false} LiveCounts(states: seq<FeedState>, steps: seq<Step>, k: nat, ch: Channel)
    requires IsRun(states, steps) && k < |states|
    ensures states[k].live[ch] + Count(steps, k, Unsubscribes(ch)) ==
            Count(steps, k, Subscribes(ch)) + states[k].removers[ch]
    ensures states[k].removers[ch] + Count(steps, k, Removals(ch)) == Waited(states, steps, k, ch)
    decreases k
  {
    hide Apply, Enabled, Inv;
    if k > 0 {
      LiveCounts(states, steps, k - 1, ch);
      RunsKeepInv(states, steps, k - 1);
      LiveStep(states[k - 1], steps[k - 1], ch);
    } else {
      assert states[0] == INITIAL;
    }
  }

  // --- deliveries ---

  /** The step sends to the channel of entry c. */
  predicate Delivers(s: FeedState, step: Step, c: Case) {
    || (step.TrySend? && step.ok && s.phase.Trying? && s.phase.i < |s.sendCases| && s.sendCases[s.phase.i] == c)
    || (step.SelectSend? && step.index < |s.sendCases| && s.sendCases[step.index] == c)
  }

  predicate DeliversAny(step: Step) {
    (step.TrySend? && step.ok) || step.SelectSend?
  }

  /** How often entry c was sent to in the steps from lo up to hi. */
  function Deliveries(states: seq<FeedState>, steps: seq<Step>, lo: nat, hi: nat, c: Case): nat
    requires hi <= |steps| <= |states|
    decreases hi
  {
    if hi <= lo then 0
    else Deliveries(states, steps, lo, hi - 1, c) + (if Delivers(states[hi - 1], steps[hi - 1], c) then 1 else 0)
  }

  function AllDeliveries(steps: seq<Step>, lo: nat, hi: nat): nat
    requires hi <= |steps|
    decreases hi
  {
    if hi <= lo then 0 else AllDeliveries(steps, lo, hi - 1) + (if DeliversAny(steps[hi - 1]) then 1 else 0)
  }

  function RemovalsIn(steps: seq<Step>, lo: nat, hi: nat, ch: Channel): nat
    requires hi <= |steps|
    decreases hi
  {
    if hi <= lo then 0 else RemovalsIn(steps, lo, hi - 1, ch) + (if Removes(steps[hi - 1], ch) then 1 else 0)
  }

  /** The entry is listed this often, in sendCases or in the inbox. */
  ghost function ListedTimes(s: FeedState, c: Case): nat {
    multiset(s.sendCases)[c] + multiset(s.inbox)[c]
  }

  /** Outside the start of a Send, a step moves the books by what it does and no more. */
  lemma BooksStep(s: FeedState, step: Step, c: Case)
    requires Inv(s) && Enabled(s, step) && !step.StartSend? && c.Sub?
    ensures var s' := Apply(s, step);
      && s'.roster == s.roster
      && s'.sent[c] == s.sent[c] + (if Delivers(s, step, c) then 1 else 0)
      && s'.nsent == s.nsent + (if DeliversAny(step) then 1 else 0)
      && s.early[c] <= s'.early[c] <= s.early[c] + (if Removes(step, c.chan) then 1 else 0)
  {
    hide Channels, Accounts, Report;
    if step.RemoveWithLock? || step.SelectRemove? {
      RemoverIsFound(s, step.chan);
    }
  }

  lemma StartBooks(s: FeedState, c: Case)
    requires Inv(s) && Enabled(s, StartSend) && c.Sub?
    ensures var s' := Apply(s, StartSend);
      s'.inbox == [] && s'.roster[c] == ListedTimes(s, c) && s'.sent[c] == 0 && s'.early[c] == 0 && s'.nsent == 0
  {
    assert multiset(s.sendCases + s.inbox)[c] == ListedTimes(s, c);
  }

  ghost predicate OneSend(states: seq<FeedState>, steps: seq<Step>, i: nat, k: nat) {
    && IsRun(states, steps) && i < k < |states| && steps[i].StartSend?
    && forall j :: i < j < k ==> !steps[j].StartSend?
  }

  /** In the course of a Send the books say what its steps did. */
  lemma {:induction false} BooksFollow(states: seq<FeedState>, steps: seq<Step>, i: nat, k: nat, c: Case)
    requires OneSend(states, steps, i, k) && c.Sub?
    ensures states[k].roster[c] == ListedTimes(states[i], c)
    ensures states[k].sent[c] == Deliveries(states, steps, i + 1, k, c)
    ensures states[k].nsent == AllDeliveries(steps, i + 1, k)
    ensures states[k].early[c] <= RemovalsIn(steps, i + 1, k, c.chan)
    decreases k
  {
    hide Apply, Enabled, Inv, ListedTimes;
    RunsKeepInv(states, steps, k - 1);
    assert Enabled(states[k - 1], steps[k - 1]) && states[k] == Apply(states[k - 1], steps[k - 1]);
    if k == i + 1 {
      StartBooks(states[i], c);
    } else {
      BooksFollow(states, steps, i, k - 1, c);
      BooksStep(states[k - 1], steps[k - 1], c);
    }
  }

  /** In every run, for every entry that is listed when a Send takes the lock: when the Send is over it
      was sent to at most as often as it was listed, exactly as often if none of its channel was
      removed meanwhile, and otherwise short by no more than the removals. Nothing else was sent to,
      and the result is the number of deliveries. */
  lemma SendServesWhoIsListed(states: seq<FeedState>, steps: seq<Step>, i: nat, k: nat, c: Case)
    requires OneSend(states, steps, i, k) && states[k].phase.Idle? && c.Sub?
    ensures var d, removed := Deliveries(states, steps, i + 1, k, c), RemovalsIn(steps, i + 1, k, c.chan);
      && d <= ListedTimes(states[i], c) <= d + removed
      && (removed == 0 ==> d == ListedTimes(states[i], c))
    ensures states[k].nsent == AllDeliveries(steps, i + 1, k)
  {
    BooksFollow(states, steps, i, k, c);
    SendServesItsRoster(states, steps, k, c);
  }

  /** The roster of a Send is all live subscriptions: however it is listed, each channel occurs as often
      as it was live when the Send took the lock; nothing is left in the inbox. */
  lemma RosterIsLive(states: seq<FeedState>, steps: seq<Step>, i: nat, cs: seq<Case>)
    requires IsRun(states, steps) && i < |steps| && steps[i].StartSend? && multiset(cs) == states[i + 1].roster
    ensures Channels(cs) == states[i].live && states[i + 1].live == states[i].live && states[i + 1].inbox == []
  {
    hide Channels;
    RunsKeepInv(states, steps, i);
    var s := states[i];
    ChannelsConcat(s.sendCases, s.inbox);
    ChannelsPermuted(cs, s.sendCases + s.inbox);
  }

  // --- the same for whole channels ---

  /** The step sends on channel ch. */
  predicate DeliversTo(s: FeedState, step: Step, ch: Channel) {
    || (step.TrySend? && step.ok && s.phase.Trying? && s.phase.i < |s.sendCases| && IsFor(s.sendCases[s.phase.i], ch))
    || (step.SelectSend? && step.index < |s.sendCases| && IsFor(s.sendCases[step.index], ch))
  }

  function DeliveriesTo(states: seq<FeedState>, steps: seq<Step>, lo: nat, hi: nat, ch: Channel): nat
    requires hi <= |steps| <= |states|
    decreases hi
  {
    if hi <= lo then 0
    else DeliveriesTo(states, steps, lo, hi - 1, ch) + (if DeliversTo(states[hi - 1], steps[hi - 1], ch) then 1 else 0)
  }

  /** The entries of the channel that the Send in progress has not served yet. */
  ghost function Unserved(s: FeedState, ch: Channel): nat {
    if s.active <= |s.sendCases| then Channels(s.sendCases[..s.active])[ch] else 0
  }

  lemma PrefixAfterDeliver(cs: seq<Case>, index: nat, active: nat)
    requires 1 <= index < active <= |cs|
    ensures |Deactivate(cs, index, active)| == |cs|
    ensures Channels(cs[..active]) == Channels(Deactivate(cs, index, active)[..active - 1]) + ChannelOf(cs[index])
  {
    hide Channels;
    var r, c := Deactivate(cs, index, active), cs[index];
    var front, rest := cs[..active], r[..active - 1];
    DeactivateMoves(cs, index, active);
    hide Deactivate;
    assert cs == front + cs[active..] && r == rest + r[active - 1..];
    SameBags(multiset(front), multiset(rest), multiset(cs[active..]), multiset(r[active - 1..]), multiset{c});
    ChannelsPermuted(front, rest + [c]);
    ChannelsConcat(rest, [c]);
    ChannelsOfOne(c);
  }

  lemma SameBags(a: multiset<Case>, a': multiset<Case>, b: multiset<Case>, b': multiset<Case>, c: multiset<Case>)
    requires a + b == a' + b' && b' == b + c
    ensures a == a' + c
  {
    assert a + b == (a' + c) + b;
    assert (a + b) - b == a && ((a' + c) + b) - b == a' + c;
  }

  lemma ChannelsOfOne(c: Case)
    ensures Channels([c]) == ChannelOf(c)
  {
    ChannelsHead([c]);
  }

  lemma PrefixAfterDelete(cs: seq<Case>, index: nat, active: nat)
    requires index < |cs| && active <= |cs|
    ensures index < active ==>
      Channels(cs[..active]) == Channels(Delete(cs, index)[..active - 1]) + ChannelOf(cs[index])
    ensures index >= active ==> Delete(cs, index)[..active] == cs[..active]
  {
    if index < active {
      ChannelsWithout(cs[..active], index);
      assert Delete(cs[..active], index) == Delete(cs, index)[..active - 1];
    }
  }

  lemma UnservedByDelivery(s: FeedState, step: Step, ch: Channel)
    requires Inv(s) && Enabled(s, step) && (step.TrySend? || step.SelectSend?)
    ensures Unserved(Apply(s, step), ch) + (if DeliversTo(s, step, ch) then 1 else 0) == Unserved(s, ch)
  {
    hide Channels, Accounts, Matches, Report, Deactivate;
    if step.SelectSend? || step.ok {
      var index := if step.SelectSend? then step.index else s.phase.i;
      PrefixAfterDeliver(s.sendCases, index, s.active);
      assert s.sendCases[index].Sub?;
    }
  }

  lemma UnservedByRemoval(s: FeedState, ch: Channel, gone: Channel)
    requires Inv(s) && gone in s.removers
    ensures Unserved(Drop(s, gone), ch) <= Unserved(s, ch)
    ensures Unserved(s, ch) <= Unserved(Drop(s, gone), ch) + (if gone == ch then 1 else 0)
  {
    hide Channels, Accounts, Matches, Report, Delete;
    RemoverIsFound(s, gone);
    var index := Find(s.sendCases, gone);
    PrefixAfterDelete(s.sendCases, index, s.active);
    assert ChannelOf(s.sendCases[index]) == multiset{gone};
    assert |Delete(s.sendCases, index)| == |s.sendCases| - 1 by { DeleteLength(s.sendCases, index); }
  }

  lemma DeleteLength(cs: seq<Case>, index: nat)
    requires index < |cs|
    ensures |Delete(cs, index)| == |cs| - 1
  {
  }

  /** A step that does not start a Send takes from the unserved what it delivers and what it removes. */
  lemma UnservedStep(s: FeedState, step: Step, ch: Channel)
    requires Inv(s) && Enabled(s, step) && !step.StartSend?
    ensures Unserved(Apply(s, step), ch) + (if DeliversTo(s, step, ch) then 1 else 0) <= Unserved(s, ch)
    ensures Unserved(s, ch) <= Unserved(Apply(s, step), ch) + (if DeliversTo(s, step, ch) then 1 else 0)
      + (if Removes(step, ch) then 1 else 0)
  {
    hide Inv, Drop, Deliver, Channels, Find;
    if step.TrySend? || step.SelectSend? {
      UnservedByDelivery(s, step, ch);
    } else if step.RemoveWithLock? || step.SelectRemove? {
      UnservedByRemoval(s, ch, step.chan);
    }
  }

  lemma AllUnserved(s: FeedState, ch: Channel)
    requires Inv(s) && s.phase.Idle?
    ensures Unserved(Apply(s, StartSend), ch) == s.live[ch] && Unserved(s, ch) == 0
  {
    hide Channels, Accounts, Report;
    ChannelsConcat(s.sendCases, s.inbox);
    assert (s.sendCases + s.inbox)[..|s.sendCases + s.inbox|] == s.sendCases + s.inbox;
    assert s.sendCases[..1] == [RemoveSub];
    ChannelsOfOne(RemoveSub);
  }

  lemma {:induction false} UnservedInRun(states: seq<FeedState>, steps: seq<Step>, i: nat, k: nat, ch: Channel)
    requires OneSend(states, steps, i, k)
    ensures var d, removed := DeliveriesTo(states, steps, i + 1, k, ch), RemovalsIn(steps, i + 1, k, ch);
      d + Unserved(states[k], ch) <= states[i].live[ch] <= d + Unserved(states[k], ch) + removed
    decreases k
  {
    hide Apply, Enabled, Inv, Unserved, DeliversTo, Removes;
    RunsKeepInv(states, steps, k - 1);
    assert Enabled(states[k - 1], steps[k - 1]) && states[k] == Apply(states[k - 1], steps[k - 1]);
    if k == i + 1 {
      assert states[i].phase.Idle? by { StartsIdle(states[i]); }
      AllUnserved(states[i], ch);
    } else {
      UnservedInRun(states, steps, i, k - 1, ch);
      UnservedStep(states[k - 1], steps[k - 1], ch);
    }
  }

  lemma StartsIdle(s: FeedState)
    ensures Enabled(s, StartSend) <==> s.phase.Idle?
  {
  }

  /** In every run, for every channel: a Send that is over has sent on it once for each subscription that
      was live when the Send took the lock, and short of that by no more than the removals of the
      channel in the meantime; with none it is exactly once for each. */
  lemma SendServesWhoIsLive(states: seq<FeedState>, steps: seq<Step>, i: nat, k: nat, ch: Channel)
    requires OneSend(states, steps, i, k) && states[k].phase.Idle?
    ensures var d, removed := DeliveriesTo(states, steps, i + 1, k, ch), RemovalsIn(steps, i + 1, k, ch);
      && d <= states[i].live[ch] <= d + removed
      && (removed == 0 ==> d == states[i].live[ch])
  {
    hide Inv, Unserved, DeliversTo, Removes;
    UnservedInRun(states, steps, i, k, ch);
    RunsKeepInv(states, steps, k);
    AllUnserved(states[k], ch);
  }

  // --- a Send comes to its end ---

  /** Whoever has something to do can do it: a pass can try each active case, a waiting Send can take any
      active case and any removal, and without a Send there is nothing to wait for. */
  lemma NobodyIsStuck(s: FeedState, ch: Channel, k: nat)
    requires Inv(s)
    ensures s.phase.Trying? && s.phase.i < s.active ==> Enabled(s, TrySend(true)) && Enabled(s, TrySend(false))
    ensures s.phase.Trying? && s.phase.i >= s.active ==> Enabled(s, EndPass)
    ensures s.phase.Waiting? && 1 <= k < s.active ==> Enabled(s, SelectSend(k))
    ensures s.phase.Waiting? && ch in s.removers ==> Enabled(s, SelectRemove(ch))
    ensures s.phase.Idle? ==> Enabled(s, StartSend) && (ch in s.removers ==> Enabled(s, RemoveWithLock(ch)))
  {
    hide Matches, Accounts, Report;
  }

  lemma WaitingStep(s: FeedState, step: Step)
    requires Inv(s) && Enabled(s, step) && (s.phase.Waiting? ==> s.active > 1)
    ensures Apply(s, step).phase.Waiting? ==> Apply(s, step).active > 1
  {
    hide Matches, Accounts, Report, Find, Delete, Deactivate;
    if step.RemoveWithLock? || step.SelectRemove? { RemoverIsFound(s, step.chan); }
  }

  /** In every run, a Send that waits has somebody to wait for. */
  lemma {:induction false} WaitingHasWork(states: seq<FeedState>, steps: seq<Step>, k: nat)
    requires IsRun(states, steps) && k < |states|
    ensures states[k].phase.Waiting? ==> states[k].active > 1
    decreases k
  {
    hide Apply, Enabled, Inv;
    if k > 0 {
      WaitingHasWork(states, steps, k - 1);
      RunsKeepInv(states, steps, k - 1);
      assert Enabled(states[k - 1], steps[k - 1]) && states[k] == Apply(states[k - 1], steps[k - 1]);
      WaitingStep(states[k - 1], steps[k - 1]);
    }
  }

  /** The next step of a Send whose receivers take what they are sent. */
  function Serving(s: FeedState): Step {
    if s.phase.Waiting? then SelectSend(1)
    else if s.phase.Trying? && s.phase.i < s.active then TrySend(true)
    else EndPass
  }

  lemma ServingGoesOn(s: FeedState)
    requires Inv(s) && !s.phase.Idle? && (s.phase.Waiting? ==> s.active > 1)
    ensures Enabled(s, Serving(s))
    ensures var s' := Apply(s, Serving(s));
      s'.active < s.active || (s.phase.Trying? && !s'.phase.Trying? && s'.active == s.active)
  {
    hide Matches, Accounts, Report;
  }

  /** From any state of any run in which a Send is under way it can be brought to its end by deliveries
      alone: nobody else has to act. */
  lemma {:induction false} SendCanFinish(states: seq<FeedState>, steps: seq<Step>)
    returns (states': seq<FeedState>, steps': seq<Step>)
    requires IsRun(states, steps)
    ensures IsRun(states', steps') && steps <= steps' && states <= states' && states'[|steps'|].phase.Idle?
    ensures forall j :: |steps| <= j < |steps'| ==> steps'[j] == Serving(states'[j])
    decreases states[|steps|].active, if states[|steps|].phase.Trying? then 1 else 0
  {
    hide Apply, Enabled, Inv, Serving;
    states', steps' := states, steps;
    var s := states[|steps|];
    if !s.phase.Idle? {
      RunsKeepInv(states, steps, |steps|);
      WaitingHasWork(states, steps, |steps|);
      ServingGoesOn(s);
      states', steps' := SendCanFinish(states + [Apply(s, Serving(s))], steps + [Serving(s)]);
    }
  }

  /** A pass that is over ends the Send exactly when nobody is left to serve; otherwise it waits, and
      then somebody is. */
  lemma PassEnds(s: FeedState)
    requires Inv(s) && Enabled(s, EndPass)
    ensures Apply(s, EndPass).phase.Idle? <==> forall j :: 1 <= j < s.active ==> s.sendCases[j] == RemoveSub
    ensures !Apply(s, EndPass).phase.Idle? ==>
      Apply(s, EndPass).phase.Waiting? && Enabled(Apply(s, EndPass), SelectSend(1))
  {
    if s.active > 1 { assert s.sendCases[1].Sub?; }
  }

  /** A pass tries the active cases one after the other: a failed try moves to the next, a delivery
      leaves the position to the case that takes its place. */
  lemma PassGoesOn(s: FeedState, ok: bool)
    requires Inv(s) && Enabled(s, TrySend(ok))
    ensures var s' := Apply(s, TrySend(ok));
      && s'.phase.Trying? && s'.active - s'.phase.i == s.active - s.phase.i - 1
      && (forall j :: 0 <= j < s.phase.i ==> s'.sendCases[j] == s.sendCases[j])
  {
  }
}
