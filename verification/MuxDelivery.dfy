/** What the event mux must deliver: who is registered after any run, whom a Post has ahead when it
    starts, and that it meets each of them once before it returns. */
module MuxDeliveries {
  import opened Options
  import opened TypeMuxes
  import opened MuxShutdowns

  // --- who is registered ---

  lemma SubscribedSlices(s: Mux, u: SubId, types: set<EventType>, ty: EventType)
    requires TablesOk(s)
    ensures OldSlice(Subscribed(s, u, types), ty) == if ty in types then OldSlice(s, ty) + [u] else OldSlice(s, ty)
  {
    var s' := Subscribed(s, u, types);
    if ty in types {
      assert s'.subm[ty] == (ty, s.clock) && (ty, s.clock) in Extended(s, u, types);
    } else if ty in s.subm {
      assert s'.subm[ty] == s.subm[ty] && s.subm[ty] !in Extended(s, u, types);
    }
  }

  lemma RemovedSlices(s: Mux, u: SubId, ty: EventType)
    requires TablesOk(s)
    ensures OldSlice(Removed(s, u), ty) == Without(OldSlice(s, ty), u)
  {
    var s' := Removed(s, u);
    if ty in s.subm && Without(OldSlice(s, ty), u) != [] {
      if ty in TypesOf(s, u) {
        assert (ty, s.clock) in Shortened(s, u);
      } else {
        WithoutNothing(OldSlice(s, ty), u);
        assert s.subm[ty] !in Shortened(s, u);
      }
    }
  }

  /** The subscribers of each type, in order, after each step. */
  lemma TableStep(s: Mux, step: Step, ty: EventType)
    requires Inv(s) && Enabled(s, step)
    ensures OldSlice(Apply(s, step), ty) ==
      if step.Subscribe? && !s.stopped && ty in step.types then OldSlice(s, ty) + [step.sub]
      else if step.Unsubscribe? then Without(OldSlice(s, ty), step.sub)
      else if step.StopReturn? then []
      else OldSlice(s, ty)
    ensures Apply(s, step).stopped == (s.stopped || step.StopReturn?)
  {
    hide Inv, Subscribed, Removed, OldSlice;
    TablesAreOk(s);
    if step.Subscribe? {
      SubscribedSlices(s, step.sub, step.types, ty);
      SameSlices(s, SetSub(s, step.sub, BORN_CLOSED), ty);
      StoppedBySubscribe(s, step.sub, step.types);
    } else if step.Unsubscribe? {
      RemovedSlices(s, step.sub, ty);
      RemovalKeepsSubs(s, step.sub);
      SameSlices(Removed(s, step.sub), Apply(s, step), ty);
    } else {
      OtherStepsKeepTables(s, step);
      hide Apply, Enabled;
      SameSlices(s, Apply(s, step), ty);
    }
  }

  lemma SameSlices(s: Mux, s': Mux, ty: EventType)
    requires s'.slices == s.slices
    ensures s'.subm == s.subm ==> OldSlice(s', ty) == OldSlice(s, ty)
    ensures s'.subm == map[] ==> OldSlice(s', ty) == []
  {
  }

  lemma OtherStepsKeepTables(s: Mux, step: Step)
    requires Enabled(s, step) && !step.Subscribe? && !step.Unsubscribe?
    ensures Apply(s, step).slices == s.slices
    ensures Apply(s, step).subm == if step.StopReturn? then map[] else s.subm
    ensures Apply(s, step).stopped == (s.stopped || step.StopReturn?)
  {
  }

  lemma StoppedBySubscribe(s: Mux, u: SubId, types: set<EventType>)
    ensures Subscribed(s, u, types).stopped == s.stopped == SetSub(s, u, BORN_CLOSED).stopped
  {
  }

  /** Subscribed to ty at step i of a run and not unsubscribed before state k. */
  ghost predicate StillSubscribed(steps: seq<Step>, i: nat, k: nat, u: SubId, ty: EventType) {
    && i < k <= |steps| && steps[i].Subscribe? && steps[i].sub == u && ty in steps[i].types
    && forall x :: i < x < k && steps[x].Unsubscribe? ==> steps[x].sub != u
  }

  /** In every run that Stop has not ended, the subscribers of a type are exactly those who subscribed to
      it and whose Unsubscribe has not been called. */
  lemma {:induction false} WhoIsRegistered(states: seq<Mux>, steps: seq<Step>, k: nat, u: SubId, ty: EventType)
    requires IsRun(states, steps) && k < |states| && !states[k].stopped
    ensures u in OldSlice(states[k], ty) <==> exists i: nat :: StillSubscribed(steps, i, k, u, ty)
    decreases k
  {
    hide Inv, Apply, Enabled;
    if k > 0 {
      var s, step, n := states[k - 1], steps[k - 1], k - 1;
      RunsKeepInv(states, steps, k - 1);
      TableStep(s, step, ty);
      WhoIsRegistered(states, steps, n, u, ty);
      WithoutMembers(OldSlice(s, ty), if step.Unsubscribe? then step.sub else u);
      if i: nat :| StillSubscribed(steps, i, n, u, ty) {
        if !(step.Unsubscribe? && step.sub == u) { assert StillSubscribed(steps, i, k, u, ty); }
      }
      if step.Subscribe? && step.sub == u && ty in step.types { assert StillSubscribed(steps, n, k, u, ty); }
      if i: nat :| StillSubscribed(steps, i, k, u, ty) {
        if i < k - 1 { assert StillSubscribed(steps, i, n, u, ty); }
      }
    }
  }

  // --- whom a Post meets ---

  /** A Post that starts has the whole slice of its type ahead, from its first element on; without
      subscribers, or after Stop, it returns at once. */
  lemma PostStartsAtFirst(s: Mux, t: Tid, ty: EventType)
    requires Inv(s) && Enabled(s, Post(t, ty))
    ensures var s' := Apply(s, Post(t, ty));
      && (!s.stopped && OldSlice(s, ty) != [] ==>
            && t in s'.threads && s'.threads[t].Posting? && s'.threads[t].i == 0
            && s'.threads[t].slice in s'.slices && s'.slices[s'.threads[t].slice] == OldSlice(s, ty))
      && (s.stopped || OldSlice(s, ty) == [] ==> s' == s)
  {
    hide SubOk, ThreadOk;
    assert ty in s.subm ==> s.subm[ty] in s.slices && s.slices[s.subm[ty]] != [];
  }

  /** Every subscriber of the type is ahead of a Post that starts. */
  lemma PostHasAllAhead(s: Mux, t: Tid, ty: EventType, u: SubId)
    requires Inv(s) && Enabled(s, Post(t, ty)) && !s.stopped && u in OldSlice(s, ty)
    ensures HasAhead(Apply(s, Post(t, ty)), t, u)
  {
    PostStartsAtFirst(s, t, ty);
    hide Inv, Apply, Enabled;
    var k :| 0 <= k < |OldSlice(s, ty)| && OldSlice(s, ty)[k] == u;
  }

  /** The step with which thread t is done with the subscription it is at. */
  predicate Meets(step: Step, t: Tid) {
    (step.Stale? || step.Send? || step.SeeClosing?) && step.t == t
  }

  ghost predicate InPostOf(s: Mux, t: Tid, id: SliceId) {
    t in s.threads && (s.threads[t].Posting? || s.threads[t].Delivering?) && s.threads[t].slice == id
  }

  /** A thread in a Post moves on by one exactly with the steps that finish one subscription. */
  lemma PositionStep(s: Mux, step: Step, t: Tid, id: SliceId)
    requires Enabled(s, step) && InPostOf(s, t, id) && step != PostReturn(t)
    ensures InPostOf(Apply(s, step), t, id)
    ensures Apply(s, step).threads[t].i == s.threads[t].i + (if Meets(step, t) then 1 else 0)
  {
    hide Subscribed, Removed;
    if step.Subscribe? { ThreadsStay(s, step.sub, step.types); }
    if step.Unsubscribe? { RemovalKeepsSubs(s, step.sub); }
  }

  lemma ThreadsStay(s: Mux, u: SubId, types: set<EventType>)
    ensures Subscribed(s, u, types).threads == s.threads
  {
  }

  function Meetings(steps: seq<Step>, lo: nat, hi: nat, t: Tid): nat
    requires hi <= |steps|
    decreases hi
  {
    if hi <= lo then 0 else Meetings(steps, lo, hi - 1, t) + (if Meets(steps[hi - 1], t) then 1 else 0)
  }

  lemma {:induction false} MeetingsGrow(steps: seq<Step>, lo: nat, mid: nat, hi: nat, t: Tid)
    requires lo <= mid <= hi <= |steps|
    ensures Meetings(steps, lo, mid, t) <= Meetings(steps, lo, hi, t)
    decreases hi
  {
    if mid < hi { MeetingsGrow(steps, lo, mid, hi - 1, t); }
  }

  lemma {:induction false} MeetingNumber(steps: seq<Step>, lo: nat, hi: nat, t: Tid, q: nat) returns (x: nat)
    requires lo <= hi <= |steps| && q < Meetings(steps, lo, hi, t)
    ensures lo <= x < hi && Meets(steps[x], t) && Meetings(steps, lo, x, t) == q
    decreases hi
  {
    if Meetings(steps, lo, hi - 1, t) == q {
      x := hi - 1;
    } else {
      x := MeetingNumber(steps, lo, hi - 1, t, q);
    }
  }

  /** Thread t is in the Post it began with step j, up to state m. */
  ghost predicate OnePost(states: seq<Mux>, steps: seq<Step>, t: Tid, ty: EventType, j: nat, m: nat) {
    && IsRun(states, steps) && j < m < |states|
    && steps[j] == Post(t, ty) && !states[j].stopped && OldSlice(states[j], ty) != []
    && forall x :: j < x < m ==> steps[x] != PostReturn(t)
  }

  /** A Post goes through the slice that was registered when it began, and its position is the number of
      subscriptions it is done with. */
  lemma {:induction false} PositionCounts(states: seq<Mux>, steps: seq<Step>, t: Tid, ty: EventType, j: nat, m: nat)
    returns (id: SliceId)
    requires OnePost(states, steps, t, ty, j, m)
    ensures InPostOf(states[m], t, id) && states[m].threads[t].i == Meetings(steps, j + 1, m, t)
    ensures id in states[m].slices && states[m].slices[id] == OldSlice(states[j], ty)
    decreases m
  {
    hide Inv, Apply, Enabled, OldSlice;
    RunsKeepInv(states, steps, m - 1);
    assert Enabled(states[m - 1], steps[m - 1]) && states[m] == Apply(states[m - 1], steps[m - 1]);
    if m == j + 1 {
      PostStartsAtFirst(states[j], t, ty);
      id := states[m].threads[t].slice;
    } else {
      id := PositionCounts(states, steps, t, ty, j, m - 1);
      PositionStep(states[m - 1], steps[m - 1], t, id);
      SnapshotsAreStable(states[m - 1], steps[m - 1], id);
    }
  }

  lemma ReturnsAtEnd(s: Mux, t: Tid, id: SliceId)
    requires Enabled(s, PostReturn(t)) && InPostOf(s, t, id) && id in s.slices
    ensures s.threads[t].i >= |s.slices[id]|
  {
  }

  /** The step at x is the one with which the Post is done with element q of its snapshot. */
  ghost predicate MeetsElement(states: seq<Mux>, steps: seq<Step>, t: Tid, x: nat, q: nat) {
    && x < |steps| && x < |states| && Meets(steps[x], t) && t in states[x].threads
    && (states[x].threads[t].Posting? || states[x].threads[t].Delivering?) && states[x].threads[t].i == q
  }

  /** In every run, a Post that returns was done with each subscriber of its type exactly once: by a
      delivery, because the event is older than the subscription, or because it is being closed. */
  lemma PostMeetsEachOnce(states: seq<Mux>, steps: seq<Step>, t: Tid, ty: EventType, j: nat, m: nat, q: nat)
    returns (x: nat)
    requires OnePost(states, steps, t, ty, j, m) && m < |steps| && steps[m] == PostReturn(t)
    requires q < |OldSlice(states[j], ty)|
    ensures j < x < m && MeetsElement(states, steps, t, x, q)
    ensures forall y :: j < y < m && y != x ==> !MeetsElement(states, steps, t, y, q)
  {
    hide Inv, Apply, OldSlice, Enabled;
    var id := PositionCounts(states, steps, t, ty, j, m);
    ReturnsAtEnd(states[m], t, id);
    x := MeetingNumber(steps, j + 1, m, t, q);
    var _ := PositionCounts(states, steps, t, ty, j, x);
    forall y | j < y < m && y != x ensures !MeetsElement(states, steps, t, y, q) {
      if Meets(steps[y], t) {
        var _ := PositionCounts(states, steps, t, ty, j, y);
        MeetingsDiffer(steps, j + 1, x, y, t);
      }
    }
  }

  /** No two meetings of a Post have the same number. */
  lemma MeetingsDiffer(steps: seq<Step>, lo: nat, x: nat, y: nat, t: Tid)
    requires lo <= x < |steps| && lo <= y < |steps| && x != y && Meets(steps[x], t) && Meets(steps[y], t)
    ensures Meetings(steps, lo, x, t) != Meetings(steps, lo, y, t)
  {
    if x < y { MeetingsGrow(steps, lo, x + 1, y, t); } else { MeetingsGrow(steps, lo, y + 1, x, t); }
  }

  /** A delivery in a Post is to the element it is at, and is the only thing counted there. */
  lemma DeliveryGoesToElement(s: Mux, t: Tid, u: SubId)
    requires Inv(s) && Enabled(s, Send(t)) && u in s.subs
    ensures Apply(s, Send(t)).subs[u].got ==
      s.subs[u].got + (if s.slices[s.threads[t].slice][s.threads[t].i] == u then 1 else 0)
  {
    OnlySendCounts(s, Send(t), u);
  }
}
