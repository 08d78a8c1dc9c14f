/** Who may still be served once Stop of the event mux has begun, and after it has returned: exactly
    the subscriptions that a Post under way has yet to come to and that nobody has closed or begun to
    close for good. */
module MuxShutdowns {
  import opened Options
  import opened TypeMuxes

  /** Thread t is in a Post whose snapshot holds u at its position or later. */
  ghost predicate HasAhead(s: Mux, t: Tid, u: SubId) {
    && t in s.threads && (s.threads[t].Posting? || s.threads[t].Delivering?) && s.threads[t].slice in s.slices
    && exists k :: s.threads[t].i <= k < |s.slices[s.threads[t].slice]| && s.slices[s.threads[t].slice][k] == u
  }

  ghost predicate Ahead(s: Mux, u: SubId) {
    exists t :: HasAhead(s, t, u)
  }

  /** Stop holds the lock of the mux, or has returned: no Post can start. */
  predicate Halted(s: Mux) {
    s.stopped || s.holder.Some?
  }

  /** The event channel is closed, or a thread has locked out all deliveries to close it. */
  predicate Shut(r: Sub) {
    r.chanClosed || r.writer.Some?
  }

  ghost predicate CanBeServed(s: Mux, u: SubId) {
    u in s.subs && !Shut(s.subs[u]) && Ahead(s, u)
  }

  // --- nobody else is served ---

  /** A delivery is to a subscription that is not shut and that its Post has ahead. */
  lemma DeliveryWasAhead(s: Mux, t: Tid)
    requires Inv(s) && Enabled(s, Send(t))
    ensures HasAhead(s, t, Target(s, s.threads[t])) && !Shut(s.subs[Target(s, s.threads[t])])
  {
    var u := Target(s, s.threads[t]);
    NeverSendsOnClosed(s, t);
    assert ThreadOk(s, t) && SubOk(s, u);
  }

  /** Only deliveries count, and subscriptions do not disappear. */
  lemma OnlySendCounts(s: Mux, step: Step, u: SubId)
    requires Enabled(s, step) && u in s.subs
    ensures u in Apply(s, step).subs
    ensures step.Send? && Target(s, s.threads[step.t]) == u ==> Apply(s, step).subs[u].got == s.subs[u].got + 1
    ensures !(step.Send? && Target(s, s.threads[step.t]) == u) ==> Apply(s, step).subs[u].got == s.subs[u].got
  {
    hide Subscribed, Removed;
    if step.Subscribe? { GrowthKeepsSubs(s, step.sub, step.types, u); }
    if step.Unsubscribe? { RemovalKeepsSubs(s, step.sub); }
  }

  lemma GrowthKeepsSubs(s: Mux, v: SubId, types: set<EventType>, u: SubId)
    requires u in s.subs && v !in s.subs
    ensures u in Subscribed(s, v, types).subs && Subscribed(s, v, types).subs[u] == s.subs[u]
    ensures Subscribed(s, v, types).threads == s.threads && Subscribed(s, v, types).stopped == s.stopped
  {
  }

  lemma RemovalKeepsSubs(s: Mux, v: SubId)
    ensures Removed(s, v).subs == s.subs && Removed(s, v).threads == s.threads && Removed(s, v).stopped == s.stopped
  {
  }

  /** What is shut stays shut: the lock is only released over a closed channel. */
  lemma ShutStays(s: Mux, step: Step, u: SubId)
    requires Inv(s) && Enabled(s, step) && u in s.subs && Shut(s.subs[u])
    ensures u in Apply(s, step).subs && Shut(Apply(s, step).subs[u])
  {
    hide Subscribed, Removed, SubOk, TablesOk;
    if step.Subscribe? { GrowthKeepsSubs(s, step.sub, step.types, u); }
    if step.Unsubscribe? { RemovalKeepsSubs(s, step.sub); }
    if step.ReleaseBoth? { assert ThreadOk(s, step.t); }
  }

  /** No Post starts, and those under way only come closer to their end. */
  lemma AheadShrinks(s: Mux, step: Step, u: SubId, t: Tid)
    requires Inv(s) && Enabled(s, step) && Halted(s) && HasAhead(Apply(s, step), t, u)
    ensures HasAhead(s, t, u)
  {
    hide Inv, Subscribed, Removed;
    if step.Unsubscribe? { RemovalKeepsSubs(s, step.sub); }
    PostHoldsSlice(s, t);
    if t in s.threads && (s.threads[t].Posting? || s.threads[t].Delivering?) {
      SnapshotsAreStable(s, step, s.threads[t].slice);
    }
  }

  lemma PostHoldsSlice(s: Mux, t: Tid)
    requires Inv(s)
    ensures t in s.threads && (s.threads[t].Posting? || s.threads[t].Delivering?) ==> s.threads[t].slice in s.slices
  {
    assert t in s.threads ==> ThreadOk(s, t);
  }

  /** A subscription that cannot be served once Stop has begun receives nothing now and cannot be served
      later. */
  lemma StaysUnserved(s: Mux, step: Step, u: SubId)
    requires Inv(s) && Enabled(s, step) && Halted(s) && u in s.subs && !CanBeServed(s, u)
    ensures u in Apply(s, step).subs && Apply(s, step).subs[u].got == s.subs[u].got
    ensures !CanBeServed(Apply(s, step), u)
  {
    hide Inv, Apply, Enabled, HasAhead;
    OnlySendCounts(s, step, u);
    if step.Send? { DeliveryWasAhead(s, step.t); }
    if Shut(s.subs[u]) {
      ShutStays(s, step, u);
    } else if Ahead(Apply(s, step), u) {
      var t :| HasAhead(Apply(s, step), t, u);
      AheadShrinks(s, step, u, t);
    }
  }

  lemma HaltedStays(s: Mux, step: Step)
    requires Enabled(s, step) && Halted(s)
    ensures Halted(Apply(s, step))
  {
  }

  lemma {:induction false} UnservedForGood(states: seq<Mux>, steps: seq<Step>, j: nat, k: nat, u: SubId)
    requires IsRun(states, steps) && j <= k < |states|
    requires Halted(states[j]) && u in states[j].subs && !CanBeServed(states[j], u)
    ensures Halted(states[k]) && u in states[k].subs && !CanBeServed(states[k], u)
    ensures states[k].subs[u].got == states[j].subs[u].got
    decreases k
  {
    hide Inv, Apply, Enabled, CanBeServed, Halted;
    if j < k {
      UnservedForGood(states, steps, j, k - 1, u);
      RunsKeepInv(states, steps, k - 1);
      HaltedStays(states[k - 1], steps[k - 1]);
      StaysUnserved(states[k - 1], steps[k - 1], u);
    }
  }

  // --- whoever can be served is served in some continuation ---

  /** Only a subscription made after Stop is closed without its closing channel being closed, and no
      slice lists it. */
  ghost predicate MarkedOk(s: Mux, v: SubId) {
    v in s.subs && s.subs[v].closed && !s.subs[v].closing ==> !Listed(s, v)
  }

  ghost predicate Marked(s: Mux) {
    forall v {:trigger MarkedOk(s, v)} :: MarkedOk(s, v)
  }

  /** Who was open stays so or is marked, and who is newly listed is open. */
  ghost predicate MarksFollow(s: Mux, s': Mux) {
    forall v <- s'.subs :: s'.subs[v].closed && !s'.subs[v].closing && Listed(s', v) ==>
      v in s.subs && s.subs[v].closed && !s.subs[v].closing && Listed(s, v)
  }

  lemma FollowingKeepsMarks(s: Mux, s': Mux)
    requires Marked(s) && MarksFollow(s, s')
    ensures Marked(s')
  {
    forall v ensures MarkedOk(s', v) {
      assert MarkedOk(s, v);
    }
  }

  lemma SubscribeFollowsMarks(s: Mux, u: SubId, types: set<EventType>)
    requires TablesOk(s) && s.holder.None? && u !in s.subs
    ensures MarksFollow(s, SetSub(s, u, BORN_CLOSED)) && MarksFollow(s, Subscribed(s, u, types))
  {
    UnknownIsUnlisted(s, u);
    SameListed(s, SetSub(s, u, BORN_CLOSED));
    SubscribeTables(s, u, types);
    hide Listed, TablesOk;
  }

  lemma UnsubscribeFollowsMarks(s: Mux, t: Tid, u: SubId)
    requires TablesOk(s) && s.holder.None?
    ensures MarksFollow(s, SetPc(Removed(s, u), t, Closing(u, WantClose, Return)))
  {
    RemovedTables(s, u);
    hide Listed, TablesOk, Removed;
    SameListed(Removed(s, u), SetPc(Removed(s, u), t, Closing(u, WantClose, Return)));
  }

  lemma StepFollowsMarks(s: Mux, step: Step)
    requires TablesOk(s) && Enabled(s, step)
    ensures MarksFollow(s, Apply(s, step))
  {
    hide TablesOk, Listed;
    var s' := Apply(s, step);
    if step.Subscribe? {
      SubscribeFollowsMarks(s, step.sub, step.types);
    } else if step.Unsubscribe? {
      UnsubscribeFollowsMarks(s, step.t, step.sub);
    } else {
      hide Subscribed, Removed;
      MarksOnlySet(s, step);
      hide Apply, Enabled;
      SameListed(s, s');
    }
  }

  /** What a step closes it also marks. */
  ghost predicate MarksKept(subs: map<SubId, Sub>, subs': map<SubId, Sub>) {
    && subs'.Keys == subs.Keys
    && forall v <- subs :: subs'[v].closed && !subs'[v].closing ==> subs[v].closed && !subs[v].closing
  }

  lemma OneSubMarks(subs: map<SubId, Sub>, u: SubId, r: Sub)
    requires u in subs && (r.closed && !r.closing ==> subs[u].closed && !subs[u].closing)
    ensures MarksKept(subs, subs[u := r])
  {
  }

  /** Apart from subscribing and unsubscribing, a step leaves the slices alone and changes at most one
      subscription. */
  lemma MarksOnlySet(s: Mux, step: Step)
    requires Enabled(s, step) && !step.Subscribe? && !step.Unsubscribe?
    ensures Apply(s, step).slices == s.slices && MarksKept(s.subs, Apply(s, step).subs)
  {
    var s' := Apply(s, step);
    if step.TakeRead? || step.Send? || step.SeeClosing? {
      var u := Target(s, s.threads[step.t]);
      OneSubMarks(s.subs, u, s'.subs[u]);
    } else if step.TakeClose? || step.CheckClosed? || step.TakePost? ||
              step.CloseChan? || step.NilPost? || step.ReleaseBoth? {
      var u := s.threads[step.t].sub;
      OneSubMarks(s.subs, u, s'.subs[u]);
    } else {
      assert s'.subs == s.subs;
    }
    hide MarksKept;
  }

  lemma SameListed(s: Mux, s': Mux)
    requires s'.slices == s.slices
    ensures forall v :: Listed(s', v) <==> Listed(s, v)
  {
  }

  lemma TablesAreOk(s: Mux)
    requires Inv(s)
    ensures TablesOk(s)
  {
  }

  lemma {:induction false} RunsKeepMarks(states: seq<Mux>, steps: seq<Step>, k: nat)
    requires IsRun(states, steps) && k < |states|
    ensures Marked(states[k])
    decreases k
  {
    hide Inv, Apply, Enabled;
    if k > 0 {
      RunsKeepMarks(states, steps, k - 1);
      RunsKeepInv(states, steps, k - 1);
      assert TablesOk(states[k - 1]) by { TablesAreOk(states[k - 1]); }
      StepFollowsMarks(states[k - 1], steps[k - 1]);
      hide Marked, MarksFollow;
      FollowingKeepsMarks(states[k - 1], states[k]);
    }
  }

  /** What is not shut has its channel in place. */
  lemma NotShutIsOpen(s: Mux, u: SubId)
    requires Inv(s) && u in s.subs && !Shut(s.subs[u])
    ensures s.subs[u].postC
  {
    assert SubOk(s, u);
    if s.subs[u].closeMu.Some? {
      assert ThreadOk(s, s.subs[u].closeMu.value);
    }
  }

  function Last<T>(s: seq<T>): T
    requires s != []
  {
    s[|s| - 1]
  }

  /** A run and a later stage of it. */
  ghost predicate Continues(states: seq<Mux>, steps: seq<Step>, states': seq<Mux>, steps': seq<Step>) {
    IsRun(states', steps') && states <= states' && steps <= steps'
  }

  lemma OneMoreStep(states: seq<Mux>, steps: seq<Step>, step: Step)
    requires IsRun(states, steps) && Enabled(Last(states), step)
    ensures Continues(states, steps, states + [Apply(Last(states), step)], steps + [step])
  {
    hide Enabled, Apply;
    var states', steps' := states + [Apply(Last(states), step)], steps + [step];
    forall i | 0 <= i < |steps'|
      ensures Enabled(states'[i], steps'[i]) && states'[i + 1] == Apply(states'[i], steps'[i])
    {
      if i < |steps| { assert states'[i] == states[i] && states'[i + 1] == states[i + 1] && steps'[i] == steps[i]; }
    }
  }

  /** Position of a thread that has u ahead at index k of its snapshot. */
  ghost predicate ComesTo(s: Mux, t: Tid, k: nat, u: SubId) {
    && t in s.threads && (s.threads[t].Posting? || s.threads[t].Delivering?) && s.threads[t].slice in s.slices
    && s.threads[t].i <= k < |s.slices[s.threads[t].slice]| && s.slices[s.threads[t].slice][k] == u
    && u in s.subs && !Shut(s.subs[u])
  }

  /** A Post that is not at u yet can pass the subscription it is at; one that is at u can serve it. */
  lemma PostGoesOn(s: Mux, t: Tid, k: nat, u: SubId) returns (step: Step)
    requires Inv(s) && Marked(s) && ComesTo(s, t, k, u)
    ensures Enabled(s, step) && u in Apply(s, step).subs
    ensures var s' := Apply(s, step);
      || (s'.subs[u].got == s.subs[u].got + 1)
      || (s'.subs[u].got == s.subs[u].got && ComesTo(s', t, k, u) && Left(s', t, k) < Left(s, t, k))
  {
    var pc := s.threads[t];
    var v := s.slices[pc.slice][pc.i];
    assert v in s.slices[pc.slice] && v in s.subs;
    assert ThreadOk(s, t) && SubOk(s, v) && MarkedOk(s, v) && Listed(s, v);
    NotShutIsOpen(s, u);
    if pc.Posting? {
      step := if pc.i < k then Stale(t) else TakeRead(t);
    } else {
      step := if s.subs[v].postC then Send(t) else SeeClosing(t);
    }
  }

  /** How many steps a Post needs at most to serve index k. */
  function Left(s: Mux, t: Tid, k: nat): nat {
    if t in s.threads && (s.threads[t].Posting? || s.threads[t].Delivering?) && s.threads[t].i <= k
    then 2 * (k - s.threads[t].i) + (if s.threads[t].Posting? then 2 else 1) else 0
  }

  lemma {:induction false} ServedLater(states: seq<Mux>, steps: seq<Step>, t: Tid, k: nat, u: SubId)
    returns (states': seq<Mux>, steps': seq<Step>)
    requires IsRun(states, steps) && ComesTo(Last(states), t, k, u)
    ensures Continues(states, steps, states', steps') && u in Last(states').subs
    ensures Last(states').subs[u].got == Last(states).subs[u].got + 1
    decreases Left(Last(states), t, k)
  {
    hide Inv, Apply, Enabled, ComesTo, Marked, Left, IsRun;
    assert |states| > 0 && u in Last(states).subs by { Known(states, steps, t, k, u); }
    var n := |states| - 1;
    RunsKeepInv(states, steps, n);
    RunsKeepMarks(states, steps, n);
    var step := PostGoesOn(Last(states), t, k, u);
    OneMoreStep(states, steps, step);
    states', steps' := states + [Apply(Last(states), step)], steps + [step];
    if Last(states').subs[u].got == Last(states).subs[u].got {
      states', steps' := ServedLater(states', steps', t, k, u);
    }
  }

  lemma Known(states: seq<Mux>, steps: seq<Step>, t: Tid, k: nat, u: SubId)
    requires IsRun(states, steps) && ComesTo(Last(states), t, k, u)
    ensures |states| > 0 && u in Last(states).subs
  {
  }

  /** A continuation in which u receives something. */
  ghost predicate ServedIn(states: seq<Mux>, steps: seq<Step>, states': seq<Mux>, steps': seq<Step>, u: SubId) {
    && Continues(states, steps, states', steps') && states != []
    && u in Last(states).subs && u in Last(states').subs && Last(states').subs[u].got > Last(states).subs[u].got
  }

  /** From the moment Stop holds the lock, and for ever after it has returned, a subscription receives
      something in some continuation if and only if a Post still under way has it ahead, its channel
      is open and nobody has locked deliveries out to close it. */
  lemma ServedFromStopOnIff(states: seq<Mux>, steps: seq<Step>, u: SubId)
    requires IsRun(states, steps) && Halted(Last(states)) && u in Last(states).subs
    ensures CanBeServed(Last(states), u) <==> exists states', steps' :: ServedIn(states, steps, states', steps', u)
  {
    var s, n := Last(states), |states| - 1;
    if CanBeServed(s, u) {
      var t :| HasAhead(s, t, u);
      var k :| s.threads[t].i <= k < |s.slices[s.threads[t].slice]| && s.slices[s.threads[t].slice][k] == u;
      assert ComesTo(s, t, k, u);
      var states', steps' := ServedLater(states, steps, t, k, u);
      assert ServedIn(states, steps, states', steps', u);
    } else {
      forall states', steps' ensures !ServedIn(states, steps, states', steps', u) {
        if Continues(states, steps, states', steps') {
          assert states'[n] == s;
          UnservedForGood(states', steps', n, |states'| - 1, u);
        }
      }
    }
  }

  /** When Stop returns, the exact condition shuts out everything it found registered: what can still
      be served is off the tables, its Unsubscribe not yet done with it. */
  lemma ServedAfterStopIsUnregistered(states: seq<Mux>, steps: seq<Step>, j: nat, u: SubId)
    requires IsRun(states, steps) && j < |steps| && steps[j].StopReturn? && u in states[j].subs
    ensures CanBeServed(states[j + 1], u) ==> !Registered(states[j], u) && !states[j].subs[u].chanClosed
    ensures CanBeServed(states[j + 1], u) <==> CanBeServed(states[j], u)
  {
    RunsKeepInv(states, steps, j);
    StopReturnKeepsInv(states[j], steps[j].t);
    hide Inv;
    if Ahead(states[j], u) {
      var t :| HasAhead(states[j], t, u);
      assert HasAhead(states[j + 1], t, u);
    }
    if Ahead(states[j + 1], u) {
      var t :| HasAhead(states[j + 1], t, u);
      assert HasAhead(states[j], t, u);
    }
  }
}
