/** The event mux: posting takes a snapshot of a subscriber slice and delivers outside the mux
    lock, closing a subscription must wait for deliveries and must happen once. Threads, locks and
    channel operations are steps of a state machine. */
module TypeMuxes {
  import opened Options

  type SubId = nat
  type EventType = nat
  type Tid = nat

  /** A slice is identified by its type and the moment it was allocated. */
  type SliceId = (EventType, nat)

  /** A subscription: its two locks, the flags and channels they guard, and what it received. */
  datatype Sub = Sub(
    closeMu: Option<Tid>,    // holder of closeMu
    closed: bool,
    closing: bool,           // the closing channel has been closed
    readers: set<Tid>,       // holders of postMu.RLock
    writer: Option<Tid>,     // holder of postMu.Lock
    postC: bool,             // postC is not nil
    chanClosed: bool,        // the event channel has been closed
    got: nat)                // events received

  const NEW_SUB := Sub(None, false, false, {}, None, true, false, 0)

  /** A subscription made after the mux was stopped. */
  const BORN_CLOSED := Sub(None, true, false, {}, None, true, true, 0)

  datatype Stage = WantClose | HasClose | WantPost | HasPost | ChanClosed | PostNil

  datatype Rest = Return | StopAfter(todo: seq<SubId>)

  /** Where a thread is; threads that are in no call are not listed. */
  datatype Pc =
    | Posting(slice: SliceId, i: nat)                 // about to deliver to slice[i]
    | Delivering(slice: SliceId, i: nat)              // in deliver, read lock held
    | Closing(sub: SubId, stage: Stage, rest: Rest)   // in closewait
    | StopNext(todo: seq<SubId>)                      // in Stop, mux lock held

  datatype Mux = Mux(
    holder: Option<Tid>,                // writer of mux.mutex across steps: only Stop
    stopped: bool,
    subm: map<EventType, SliceId>,
    slices: map<SliceId, seq<SubId>>,   // every slice ever allocated
    clock: nat,
    subs: map<SubId, Sub>,
    threads: map<Tid, Pc>)

  const INITIAL := Mux(None, false, map[], map[], 0, map[], map[])

  datatype Step =
    | Subscribe(sub: SubId, types: set<EventType>)
    | Post(t: Tid, typ: EventType)
    | Stale(t: Tid)                     // the event is older than the subscription
    | TakeRead(t: Tid)
    | Send(t: Tid)
    | SeeClosing(t: Tid)
    | PostReturn(t: Tid)
    | Unsubscribe(t: Tid, sub: SubId)
    | TakeClose(t: Tid)
    | CheckClosed(t: Tid)
    | TakePost(t: Tid)
    | CloseChan(t: Tid)
    | NilPost(t: Tid)
    | ReleaseBoth(t: Tid)
    | Stop(t: Tid, order: seq<SubId>)
    | StopTake(t: Tid)
    | StopReturn(t: Tid)

  predicate Registered(s: Mux, u: SubId) {
    exists ty <- s.subm :: s.subm[ty] in s.slices && u in s.slices[s.subm[ty]]
  }

  function Without(slice: seq<SubId>, u: SubId): seq<SubId> {
    if slice == [] then [] else if slice[0] == u then Without(slice[1..], u) else [slice[0]] + Without(slice[1..], u)
  }

  function OldSlice(s: Mux, ty: EventType): seq<SubId> {
    if ty in s.subm && s.subm[ty] in s.slices then s.slices[s.subm[ty]] else []
  }

  // The slices in memory: a subscriber slice is replaced by a new array, never written to.

  method AppendCopy(oldsubs: array<SubId>, u: SubId) returns (subs: array<SubId>)
    ensures fresh(subs) && subs[..] == oldsubs[..] + [u]
  {
    subs := new SubId[oldsubs.Length + 1];
    var i := 0;
    while i < oldsubs.Length
      invariant 0 <= i <= oldsubs.Length && forall k :: 0 <= k < i ==> subs[k] == oldsubs[k]
    {
      subs[i] := oldsubs[i];
      i := i + 1;
    }
    subs[oldsubs.Length] := u;
  }

  method PosDelete(slice: array<SubId>, pos: nat) returns (news: array<SubId>)
    requires pos < slice.Length && forall k :: 0 <= k < slice.Length && k != pos ==> slice[k] != slice[pos]
    ensures fresh(news) && news[..] == Without(slice[..], slice[pos])
  {
    news := new SubId[slice.Length - 1];
    var i := 0;
    while i < news.Length
      invariant 0 <= i <= news.Length
      invariant forall k :: 0 <= k < i ==> news[k] == slice[if k < pos then k else k + 1]
    {
      news[i] := slice[if i < pos then i else i + 1];
      i := i + 1;
    }
    WithoutOne(slice[..], pos);
    assert news[..] == slice[..][..pos] + slice[..][pos + 1..];
  }

  /** A subscription occurs at most once in a slice, so removing it removes one element. */
  lemma {:induction false} WithoutOne(slice: seq<SubId>, pos: nat)
    requires pos < |slice| && forall k :: 0 <= k < |slice| && k != pos ==> slice[k] != slice[pos]
    ensures Without(slice, slice[pos]) == slice[..pos] + slice[pos + 1..]
  {
    if pos == 0 {
      WithoutNothing(slice[1..], slice[0]);
    } else {
      WithoutOne(slice[1..], pos - 1);
    }
  }

  /** The slices a subscription allocates: a longer copy for each of its types. */
  function Extended(s: Mux, u: SubId, types: set<EventType>): map<SliceId, seq<SubId>> {
    map id | id in (set ty <- types :: (ty, s.clock)) :: OldSlice(s, id.0) + [u]
  }

  /** The types a subscription is registered for. */
  function TypesOf(s: Mux, u: SubId): set<EventType> {
    set ty | ty in s.subm && u in OldSlice(s, ty)
  }

  /** The slices its removal allocates: a shorter copy where somebody is left. */
  function Shortened(s: Mux, u: SubId): map<SliceId, seq<SubId>> {
    map id | id in (set ty | ty in TypesOf(s, u) && Without(OldSlice(s, ty), u) != [] :: (ty, s.clock)) ::
      Without(OldSlice(s, id.0), u)
  }

  predicate At(s: Mux, t: Tid, stage: Stage) {
    t in s.threads && s.threads[t].Closing? && s.threads[t].stage == stage && s.threads[t].sub in s.subs
  }

  /** The thread is at element i of its snapshot. */
  predicate AtElement(s: Mux, pc: Pc) {
    && (pc.Posting? || pc.Delivering?)
    && pc.slice in s.slices && pc.i < |s.slices[pc.slice]| && s.slices[pc.slice][pc.i] in s.subs
  }

  function Target(s: Mux, pc: Pc): SubId
    requires AtElement(s, pc)
  {
    s.slices[pc.slice][pc.i]
  }

  ghost predicate Enabled(s: Mux, step: Step) {
    match step
    case Subscribe(u, _) => s.holder.None? && u !in s.subs
    case Post(t, _) => s.holder.None? && t !in s.threads
    case Stale(t) => t in s.threads && s.threads[t].Posting? && AtElement(s, s.threads[t])
    case TakeRead(t) =>
      t in s.threads && s.threads[t].Posting? && AtElement(s, s.threads[t])
        && s.subs[Target(s, s.threads[t])].writer.None?
    case Send(t) =>
      t in s.threads && s.threads[t].Delivering? && AtElement(s, s.threads[t]) && s.subs[Target(s, s.threads[t])].postC
    case SeeClosing(t) =>
      t in s.threads && s.threads[t].Delivering? && AtElement(s, s.threads[t])
        && s.subs[Target(s, s.threads[t])].closing
    case PostReturn(t) =>
      t in s.threads && s.threads[t].Posting?
        && (s.threads[t].slice in s.slices ==> s.threads[t].i >= |s.slices[s.threads[t].slice]|)
    case Unsubscribe(t, u) => s.holder.None? && t !in s.threads && u in s.subs
    case TakeClose(t) => At(s, t, WantClose) && s.subs[s.threads[t].sub].closeMu.None?
    case CheckClosed(t) => At(s, t, HasClose)
    case TakePost(t) => At(s, t, WantPost) && s.subs[s.threads[t].sub].readers == {}
      && s.subs[s.threads[t].sub].writer.None?
    case CloseChan(t) => At(s, t, HasPost)
    case NilPost(t) => At(s, t, ChanClosed)
    case ReleaseBoth(t) => At(s, t, PostNil)
    case Stop(t, order) => s.holder.None? && t !in s.threads && forall u :: u in order <==> Registered(s, u)
    case StopTake(t) => t in s.threads && s.threads[t].StopNext? && s.threads[t].todo != []
    case StopReturn(t) => t in s.threads && s.threads[t].StopNext? && s.threads[t].todo == []
  }

  function SetSub(s: Mux, u: SubId, r: Sub): Mux {
    s.(subs := s.subs[u := r])
  }

  function SetPc(s: Mux, t: Tid, pc: Pc): Mux {
    s.(threads := s.threads[t := pc])
  }

  /** closewait returns to Unsubscribe's caller or to the loop in Stop. */
  function Finish(s: Mux, t: Tid, rest: Rest): Mux {
    if rest.Return? then s.(threads := s.threads - {t}) else SetPc(s, t, StopNext(rest.todo))
  }

  function Subscribed(s: Mux, u: SubId, types: set<EventType>): Mux {
    s.(subs := s.subs[u := NEW_SUB],
       slices := s.slices + Extended(s, u, types),
       subm := s.subm + map ty | ty in types :: (ty, s.clock),
       clock := s.clock + 1)
  }

  /** del: every slice with the subscription is replaced by a copy without it, or dropped. */
  function Removed(s: Mux, u: SubId): Mux {
    s.(slices := s.slices + Shortened(s, u),
       subm := map ty | ty in s.subm && Without(OldSlice(s, ty), u) != [] ::
                 if ty in TypesOf(s, u) then (ty, s.clock) else s.subm[ty],
       clock := s.clock + 1)
  }

  ghost function Apply(s: Mux, step: Step): Mux
    requires Enabled(s, step)
  {
    match step
    case Subscribe(u, types) => if s.stopped then SetSub(s, u, BORN_CLOSED) else Subscribed(s, u, types)
    case Post(t, ty) => if s.stopped || ty !in s.subm then s else SetPc(s, t, Posting(s.subm[ty], 0))
    case Stale(t) => SetPc(s, t, Posting(s.threads[t].slice, s.threads[t].i + 1))
    case TakeRead(t) =>
      var u := Target(s, s.threads[t]);
      SetPc(SetSub(s, u, s.subs[u].(readers := s.subs[u].readers + {t})), t,
            Delivering(s.threads[t].slice, s.threads[t].i))
    case Send(t) =>
      var u := Target(s, s.threads[t]);
      SetPc(SetSub(s, u, s.subs[u].(readers := s.subs[u].readers - {t}, got := s.subs[u].got + 1)), t,
            Posting(s.threads[t].slice, s.threads[t].i + 1))
    case SeeClosing(t) =>
      var u := Target(s, s.threads[t]);
      SetPc(SetSub(s, u, s.subs[u].(readers := s.subs[u].readers - {t})), t,
            Posting(s.threads[t].slice, s.threads[t].i + 1))
    case PostReturn(t) => s.(threads := s.threads - {t})
    case Unsubscribe(t, u) => SetPc(Removed(s, u), t, Closing(u, WantClose, Return))
    case TakeClose(t) =>
      var u := s.threads[t].sub;
      SetPc(SetSub(s, u, s.subs[u].(closeMu := Some(t))), t, s.threads[t].(stage := HasClose))
    case CheckClosed(t) =>
      var u := s.threads[t].sub;
      if s.subs[u].closed then Finish(SetSub(s, u, s.subs[u].(closeMu := None)), t, s.threads[t].rest)
      else SetPc(SetSub(s, u, s.subs[u].(closing := true, closed := true)), t, s.threads[t].(stage := WantPost))
    case TakePost(t) =>
      var u := s.threads[t].sub;
      SetPc(SetSub(s, u, s.subs[u].(writer := Some(t))), t, s.threads[t].(stage := HasPost))
    case CloseChan(t) =>
      var u := s.threads[t].sub;
      SetPc(SetSub(s, u, s.subs[u].(chanClosed := true)), t, s.threads[t].(stage := ChanClosed))
    case NilPost(t) =>
      var u := s.threads[t].sub;
      SetPc(SetSub(s, u, s.subs[u].(postC := false)), t, s.threads[t].(stage := PostNil))
    case ReleaseBoth(t) =>
      var u := s.threads[t].sub;
      Finish(SetSub(s, u, s.subs[u].(writer := None, closeMu := None)), t, s.threads[t].rest)
    case Stop(t, order) => SetPc(s, t, StopNext(order)).(holder := Some(t))
    case StopTake(t) =>
      var todo := s.threads[t].todo;
      SetPc(s, t, Closing(todo[0], WantClose, StopAfter(todo[1..])))
    case StopReturn(t) => s.(threads := s.threads - {t}, holder := None, stopped := true, subm := map[])
  }

  ghost predicate Listed(s: Mux, u: SubId) {
    exists id <- s.slices :: u in s.slices[id]
  }

  ghost predicate SubOk(s: Mux, u: SubId)
    requires u in s.subs
  {
    var r := s.subs[u];
    && (r.chanClosed ==> r.closed) && (r.closing ==> r.closed) && (!r.closed ==> r.postC)
    && (r.closed && r.closeMu.None? ==> r.chanClosed)
    && (r.closeMu.Some? ==> InClose(s, r.closeMu.value, u))
    && (r.writer.Some? ==> r.readers == {} && r.writer == r.closeMu && InPost(s, r.writer.value))
    && (r.chanClosed && r.postC && r.writer.None? ==> !Listed(s, u))
    && (forall t <- r.readers :: IsDelivering(s, t, u))
  }

  /** t holds closeMu of u. */
  ghost predicate InClose(s: Mux, t: Tid, u: SubId) {
    t in s.threads && s.threads[t].Closing? && s.threads[t].sub == u && !s.threads[t].stage.WantClose?
  }

  /** t holds postMu for writing. */
  ghost predicate InPost(s: Mux, t: Tid) {
    t in s.threads && s.threads[t].Closing? && s.threads[t].stage in {HasPost, ChanClosed, PostNil}
  }

  ghost predicate IsDelivering(s: Mux, t: Tid, u: SubId) {
    t in s.threads && s.threads[t].Delivering? && AtElement(s, s.threads[t]) && Target(s, s.threads[t]) == u
  }

  ghost predicate ThreadOk(s: Mux, t: Tid)
    requires t in s.threads
  {
    var pc := s.threads[t];
    match pc
    case Posting(id, i) => id in s.slices && i <= |s.slices[id]|
    case Delivering(id, i) => AtElement(s, pc) && t in s.subs[Target(s, pc)].readers
    case Closing(u, stage, rest) =>
      && u in s.subs && StageOk(s.subs[u], t, stage)
      && (rest.StopAfter? ==> s.holder == Some(t) && StopCovers(s, [u] + rest.todo))
    case StopNext(todo) => s.holder == Some(t) && StopCovers(s, todo)
  }

  ghost predicate StageOk(r: Sub, t: Tid, stage: Stage) {
    match stage
    case WantClose => true
    case HasClose => r.closeMu == Some(t) && (r.closed ==> r.chanClosed)
    case WantPost => r.closeMu == Some(t) && r.closed && !r.chanClosed && r.postC
    case HasPost => r.closeMu == r.writer == Some(t) && r.closed && !r.chanClosed && r.postC
    case ChanClosed => r.closeMu == r.writer == Some(t) && r.chanClosed && r.postC
    case PostNil => r.closeMu == r.writer == Some(t) && r.chanClosed && !r.postC
  }

  /** Whatever is registered is closed already or still on Stop's list. */
  ghost predicate StopCovers(s: Mux, todo: seq<SubId>) {
    && (forall u <- todo :: u in s.subs)
    && (forall u <- s.subs :: Registered(s, u) ==> u in todo || s.subs[u].chanClosed)
  }

  ghost predicate TablesOk(s: Mux) {
    && (forall ty <- s.subm :: s.subm[ty] in s.slices)
    && (forall id <- s.slices :: id.1 < s.clock && s.slices[id] != [])
    && (forall id <- s.slices :: forall u <- s.slices[id] :: u in s.subs)
    && (s.holder.Some? ==> InStop(s, s.holder.value))
  }

  /** t is somewhere in Stop. */
  ghost predicate InStop(s: Mux, t: Tid) {
    t in s.threads && (s.threads[t].StopNext? || (s.threads[t].Closing? && s.threads[t].rest.StopAfter?))
  }

  ghost predicate Inv(s: Mux) {
    && TablesOk(s)
    && (forall u {:trigger SubOk(s, u)} :: u in s.subs ==> SubOk(s, u))
    && (forall t {:trigger ThreadOk(s, t)} :: t in s.threads ==> ThreadOk(s, t))
  }

  /** A delivery in progress never meets a closed channel: sending cannot panic. */
  lemma NeverSendsOnClosed(s: Mux, t: Tid)
    requires Inv(s) && Enabled(s, Send(t))
    ensures !s.subs[Target(s, s.threads[t])].chanClosed
  {
    var u := Target(s, s.threads[t]);
    assert ThreadOk(s, t) && SubOk(s, u);
    assert Listed(s, u);
  }

  /** The channels of a subscription are closed at most once. */
  lemma NeverClosesTwice(s: Mux, t: Tid)
    requires Inv(s)
    ensures Enabled(s, CloseChan(t)) ==> !s.subs[s.threads[t].sub].chanClosed
    ensures Enabled(s, CheckClosed(t)) && !s.subs[s.threads[t].sub].closed ==> !s.subs[s.threads[t].sub].closing
  {
    if At(s, t, HasPost) {
      assert ThreadOk(s, t);
    } else if At(s, t, HasClose) {
      assert SubOk(s, s.threads[t].sub);
    }
  }

  /** A step that changes one thread and one subscription and no table. */
  ghost predicate Local(s: Mux, s': Mux, t: Tid, u: SubId) {
    && s'.slices == s.slices && s'.clock == s.clock && s'.subm == s.subm && s'.holder == s.holder
    && u in s.subs && s'.subs.Keys == s.subs.Keys
    && (forall v <- s.subs :: v != u ==> s'.subs[v] == s.subs[v])
    && (forall x :: x != t ==> (x in s'.threads <==> x in s.threads))
    && (forall x <- s.threads :: x != t ==> s'.threads[x] == s.threads[x])
  }

  /** The change to a subscription respects what other threads rely on. */
  ghost predicate Compatible(r: Sub, r': Sub, t: Tid) {
    && r.readers - {t} <= r'.readers
    && (r.chanClosed ==> r'.chanClosed)
    && (r.closeMu == None || r.closeMu == Some(t) ||
        (r'.closeMu == r.closeMu && r'.closed == r.closed && r'.chanClosed == r.chanClosed && r'.postC == r.postC
          && r'.writer == r.writer))
  }

  /** The one subscription a thread is busy with. */
  ghost predicate Concerns(s: Mux, t: Tid, u: SubId) {
    && t in s.threads
    && if s.threads[t].Closing? then s.threads[t].sub == u
       else AtElement(s, s.threads[t]) && Target(s, s.threads[t]) == u
  }

  lemma OtherSub(s: Mux, s': Mux, t: Tid, u: SubId, v: SubId)
    requires Inv(s) && Local(s, s', t, u) && v in s.subs && v != u
    requires Concerns(s, t, u)
    ensures SubOk(s', v)
  {
    assert SubOk(s, v);
    assert Listed(s', v) <==> Listed(s, v);
  }

  lemma OtherThread(s: Mux, s': Mux, t: Tid, u: SubId, x: Tid)
    requires Inv(s) && Local(s, s', t, u) && Compatible(s.subs[u], s'.subs[u], t) && x in s.threads && x != t
    ensures ThreadOk(s', x)
  {
    assert ThreadOk(s, x);
    assert forall v :: Registered(s', v) <==> Registered(s, v);
  }

  /** Local steps: it is enough to look at the thread and the subscription they change. */
  lemma LocalStep(s: Mux, s': Mux, t: Tid, u: SubId)
    requires Inv(s) && Local(s, s', t, u) && Compatible(s.subs[u], s'.subs[u], t)
    requires Concerns(s, t, u)
    requires SubOk(s', u) && (t in s'.threads ==> ThreadOk(s', t))
    requires s.holder == Some(t) ==> InStop(s', t)
    ensures Inv(s')
  {
    hide SubOk, ThreadOk;
    forall v | v in s'.subs ensures SubOk(s', v) {
      if v != u {
        OtherSub(s, s', t, u, v);
      }
    }
    forall x | x in s'.threads ensures ThreadOk(s', x) {
      if x != t {
        OtherThread(s, s', t, u, x);
      }
    }
  }

  lemma TakeReadKeepsInv(s: Mux, step: Step)
    requires Inv(s) && Enabled(s, step) && step.TakeRead?
    ensures Inv(Apply(s, step))
  {
    hide StopCovers;
    var s', t := Apply(s, step), step.t;
    var u := Target(s, s.threads[t]);
    assert ThreadOk(s, t) && SubOk(s, u);
    SameTables(s, s');
    assert Listed(s, u);
    LocalStep(s, s', t, u);
  }

  lemma SendKeepsInv(s: Mux, step: Step)
    requires Inv(s) && Enabled(s, step) && step.Send?
    ensures Inv(Apply(s, step))
  {
    hide StopCovers;
    var s', t := Apply(s, step), step.t;
    var u := Target(s, s.threads[t]);
    assert ThreadOk(s, t) && SubOk(s, u);
    SameTables(s, s');
    assert Listed(s, u);
    LocalStep(s, s', t, u);
  }

  lemma SeeClosingKeepsInv(s: Mux, step: Step)
    requires Inv(s) && Enabled(s, step) && step.SeeClosing?
    ensures Inv(Apply(s, step))
  {
    hide StopCovers;
    var s', t := Apply(s, step), step.t;
    var u := Target(s, s.threads[t]);
    assert ThreadOk(s, t) && SubOk(s, u);
    SameTables(s, s');
    assert Listed(s, u);
    LocalStep(s, s', t, u);
  }

  lemma SameTables(s: Mux, s': Mux)
    requires s'.slices == s.slices && s'.subm == s.subm
    ensures forall v :: Listed(s', v) <==> Listed(s, v)
    ensures forall v :: Registered(s', v) <==> Registered(s, v)
  {}

  lemma LockStepKeepsInv(s: Mux, step: Step)
    requires Inv(s) && Enabled(s, step) && (step.TakeClose? || step.TakePost?)
    ensures Inv(Apply(s, step))
  {
    var s', t := Apply(s, step), step.t;
    var u := s.threads[t].sub;
    assert ThreadOk(s, t) && SubOk(s, u);
    SameTables(s, s');
    LocalStep(s, s', t, u);
  }

  lemma MarkStepKeepsInv(s: Mux, step: Step)
    requires Inv(s) && Enabled(s, step) && step.CheckClosed? && !s.subs[s.threads[step.t].sub].closed
    ensures Inv(Apply(s, step))
  {
    var s', t := Apply(s, step), step.t;
    var u := s.threads[t].sub;
    assert ThreadOk(s, t) && SubOk(s, u);
    SameTables(s, s');
    LocalStep(s, s', t, u);
  }

  lemma ChanStepKeepsInv(s: Mux, step: Step)
    requires Inv(s) && Enabled(s, step) && (step.CloseChan? || step.NilPost?)
    ensures Inv(Apply(s, step))
  {
    var s', t := Apply(s, step), step.t;
    var u := s.threads[t].sub;
    assert ThreadOk(s, t) && SubOk(s, u);
    SameTables(s, s');
    LocalStep(s, s', t, u);
  }

  /** closewait hands back both locks and ends with the channel closed. */
  lemma ReleaseKeepsInv(s: Mux, step: Step)
    requires Inv(s) && Enabled(s, step) && step.ReleaseBoth?
    ensures Inv(Apply(s, step))
    ensures Apply(s, step).subs[s.threads[step.t].sub].chanClosed
  {
    var s', t := Apply(s, step), step.t;
    var u := s.threads[t].sub;
    assert SubOk(s, u) && ThreadOk(s, t);
    FinishStep(s, t, u, s.subs[u].(writer := None, closeMu := None));
  }

  /** When somebody else got there first, it returns only after they have finished. */
  lemma EarlyReturnKeepsInv(s: Mux, step: Step)
    requires Inv(s) && Enabled(s, step) && step.CheckClosed? && s.subs[s.threads[step.t].sub].closed
    ensures Inv(Apply(s, step))
    ensures Apply(s, step).subs[s.threads[step.t].sub].chanClosed
  {
    var s', t := Apply(s, step), step.t;
    var u := s.threads[t].sub;
    assert SubOk(s, u) && ThreadOk(s, t);
    FinishStep(s, t, u, s.subs[u].(closeMu := None));
  }

  lemma FinishStep(s: Mux, t: Tid, u: SubId, r: Sub)
    requires Inv(s) && t in s.threads && s.threads[t].Closing? && s.threads[t].sub == u && u in s.subs
    requires s.subs[u].closeMu == Some(t) && s.subs[u].closed && s.subs[u].chanClosed
    requires s.subs[u].writer == None || (s.subs[u].writer == Some(t) && !s.subs[u].postC)
    requires r == s.subs[u].(writer := None, closeMu := None)
    ensures Inv(Finish(SetSub(s, u, r), t, s.threads[t].rest))
  {
    var s' := Finish(SetSub(s, u, r), t, s.threads[t].rest);
    SameTables(s, s');
    assert SubOk(s, u) && ThreadOk(s, t);
    FinishSub(s, s', t, u);
    FinishThread(s, s', t, u);
    hide SubOk, ThreadOk, StageOk, Listed, Registered, StopCovers;
    LocalStep(s, s', t, u);
  }

  lemma FinishSub(s: Mux, s': Mux, t: Tid, u: SubId)
    requires Local(s, s', t, u) && s'.subs[u] == s.subs[u].(writer := None, closeMu := None) && SubOk(s, u)
    requires s.subs[u].closed && s.subs[u].chanClosed && (s.subs[u].writer == None || !s.subs[u].postC)
    requires t in s.threads && s.threads[t].Closing?
    ensures SubOk(s', u)
  {
    SameTables(s, s');
  }

  lemma FinishThread(s: Mux, s': Mux, t: Tid, u: SubId)
    requires Local(s, s', t, u) && t in s.threads && ThreadOk(s, t) && s.threads[t].Closing? && s.threads[t].sub == u
    requires s'.subs[u].chanClosed
    requires s.threads[t].rest.Return? ==> t !in s'.threads
    requires s.threads[t].rest.StopAfter? ==> t in s'.threads && s'.threads[t] == StopNext(s.threads[t].rest.todo)
    ensures t in s'.threads ==> ThreadOk(s', t) && InStop(s', t)
  {
    SameTables(s, s');
  }

  /** A step that changes one thread only. */
  lemma ThreadStep(s: Mux, s': Mux, t: Tid)
    requires Inv(s) && s' == s.(threads := s'.threads) && TablesOk(s')
    requires forall x :: x != t ==> (x in s'.threads <==> x in s.threads)
    requires forall x <- s.threads :: x != t ==> s'.threads[x] == s.threads[x]
    requires forall u :: u in s.subs ==> !InClose(s, t, u) && !IsDelivering(s, t, u)
    requires t in s'.threads ==> ThreadOk(s', t)
    ensures Inv(s')
  {
    forall v | v in s'.subs ensures SubOk(s', v) {
      assert SubOk(s, v);
      assert Listed(s', v) <==> Listed(s, v);
    }
    forall x | x in s'.threads ensures ThreadOk(s', x) {
      if x != t {
        assert ThreadOk(s, x);
        assert forall v :: Registered(s', v) <==> Registered(s, v);
      }
    }
  }

  lemma WalkStepKeepsInv(s: Mux, step: Step)
    requires Inv(s) && Enabled(s, step) && (step.Post? || step.Stale? || step.PostReturn? || step.StopTake?)
    ensures Inv(Apply(s, step))
  {
    var s', t := Apply(s, step), step.t;
    if t in s.threads {
      assert ThreadOk(s, t);
    }
    if step.StopTake? {
      var todo := s.threads[t].todo;
      assert [todo[0]] + todo[1..] == todo;
      assert forall v :: Registered(s', v) <==> Registered(s, v);
    }
    ThreadStep(s, s', t);
  }

  lemma StopKeepsInv(s: Mux, t: Tid, order: seq<SubId>)
    requires Inv(s) && Enabled(s, Stop(t, order))
    ensures Inv(Apply(s, Stop(t, order)))
  {
    var s' := Apply(s, Stop(t, order));
    assert forall v :: Registered(s', v) <==> Registered(s, v);
    forall v | v in s'.subs ensures SubOk(s', v) {
      assert SubOk(s, v);
      assert Listed(s', v) <==> Listed(s, v);
    }
    forall x | x in s'.threads ensures ThreadOk(s', x) {
      if x != t {
        assert ThreadOk(s, x);
      }
    }
  }

  /** When Stop returns, every subscription it found registered has its channel closed. */
  lemma StopReturnKeepsInv(s: Mux, t: Tid)
    requires Inv(s) && Enabled(s, StopReturn(t))
    ensures Inv(Apply(s, StopReturn(t)))
    ensures forall u <- s.subs :: Registered(s, u) ==> s.subs[u].chanClosed
  {
    var s' := Apply(s, StopReturn(t));
    assert ThreadOk(s, t);
    forall v | v in s'.subs ensures SubOk(s', v) {
      assert SubOk(s, v);
      assert Listed(s', v) <==> Listed(s, v);
    }
    forall x | x in s'.threads ensures ThreadOk(s', x) {
      assert ThreadOk(s, x);
    }
  }

  /** Nothing is ever written to a slice that exists: a snapshot taken by Post stays what it was. */
  lemma SnapshotsAreStable(s: Mux, step: Step, id: SliceId)
    requires Inv(s) && Enabled(s, step) && id in s.slices
    ensures id in Apply(s, step).slices && Apply(s, step).slices[id] == s.slices[id]
  {
    hide SubOk, ThreadOk, Listed, Registered;
    if step.Subscribe? { SubscribedIsStable(s, step.sub, step.types, id); }
    if step.Unsubscribe? { RemovedIsStable(s, step.sub, id); }
    hide Subscribed, Removed, TablesOk;
  }

  lemma SubscribedIsStable(s: Mux, u: SubId, types: set<EventType>, id: SliceId)
    requires TablesOk(s) && id in s.slices
    ensures id in Subscribed(s, u, types).slices && Subscribed(s, u, types).slices[id] == s.slices[id]
  {
  }

  lemma RemovedIsStable(s: Mux, u: SubId, id: SliceId)
    requires TablesOk(s) && id in s.slices
    ensures id in Removed(s, u).slices && Removed(s, u).slices[id] == s.slices[id]
  {
  }

  /** Tables that only grow by new slices, around subscriptions and threads that stay. */
  ghost predicate Grown(s: Mux, s': Mux) {
    && s'.holder == s.holder == None
    && (forall id <- s.slices :: id in s'.slices && s'.slices[id] == s.slices[id])
    && (forall u <- s.subs :: u in s'.subs && s'.subs[u] == s.subs[u])
    && (forall x <- s.threads :: x in s'.threads && s'.threads[x] == s.threads[x])
  }

  lemma GrownSub(s: Mux, s': Mux, u: SubId)
    requires Inv(s) && Grown(s, s') && u in s.subs
    requires s.subs[u].chanClosed && s.subs[u].postC && s.subs[u].writer.None? && !Listed(s, u) ==> !Listed(s', u)
    ensures SubOk(s', u)
  {
    assert SubOk(s, u);
    if Listed(s, u) {
      var id :| id in s.slices && u in s.slices[id];
      assert s'.slices[id] == s.slices[id];
    }
  }

  lemma GrownThread(s: Mux, s': Mux, x: Tid)
    requires Inv(s) && Grown(s, s') && x in s.threads
    ensures ThreadOk(s', x)
  {
    assert ThreadOk(s, x);
  }

  lemma SubscribeKeepsInv(s: Mux, u: SubId, types: set<EventType>)
    requires Inv(s) && s.holder.None? && u !in s.subs
    ensures Inv(SetSub(s, u, BORN_CLOSED)) && Inv(Subscribed(s, u, types))
  {
    UnknownIsUnlisted(s, u);
    var s1, s2 := SetSub(s, u, BORN_CLOSED), Subscribed(s, u, types);
    SameTables(s, s1);
    SubscribeTables(s, u, types);
    assert Grown(s, s1) && TablesOk(s1);
    hide SubOk, ThreadOk, TablesOk, Listed, Grown;
    forall v | v in s1.subs ensures SubOk(s1, v) && SubOk(s2, v) {
      if v != u {
        GrownSub(s, s1, v);
        GrownSub(s, s2, v);
      } else {
        NewSubOk(s1, u);
        NewSubOk(s2, u);
      }
    }
    forall x | x in s.threads ensures ThreadOk(s1, x) && ThreadOk(s2, x) {
      GrownThread(s, s1, x);
      GrownThread(s, s2, x);
    }
  }

  /** New slices hold old subscribers and perhaps the new one. */
  ghost predicate MadeOf(s: Mux, made: map<SliceId, seq<SubId>>, more: set<SubId>) {
    && (forall id <- made :: id.1 == s.clock && made[id] != [])
    && (forall id, v :: id in made && v in made[id] ==> v in more || Listed(s, v))
  }

  /** Old slices stay, new ones come, and only those subscribers are listed. */
  lemma TablesAfter(s: Mux, s': Mux, made: map<SliceId, seq<SubId>>, more: set<SubId>)
    requires TablesOk(s) && s.holder.None? && s'.holder.None? && MadeOf(s, made, more)
    requires s'.slices == s.slices + made && s'.clock == s.clock + 1
    requires s.subs.Keys <= s'.subs.Keys && more <= s'.subs.Keys
    requires forall ty <- s'.subm :: s'.subm[ty] in s'.slices
    ensures TablesOk(s')
    ensures forall id <- s.slices :: id in s'.slices && s'.slices[id] == s.slices[id]
    ensures forall v :: Listed(s', v) ==> Listed(s, v) || v in more
  {
    forall id, v | id in s'.slices && v in s'.slices[id] ensures v in more || Listed(s, v) {
      if id in made {
        assert v in made[id];
      } else {
        assert v in s.slices[id];
      }
    }
  }

  lemma OldSliceListed(s: Mux, ty: EventType, v: SubId)
    requires v in OldSlice(s, ty)
    ensures Listed(s, v)
  {}

  lemma ExtendedMadeOf(s: Mux, u: SubId, types: set<EventType>)
    ensures MadeOf(s, Extended(s, u, types), {u})
  {
    var made := Extended(s, u, types);
    forall id, v | id in made && v in made[id] ensures v == u || Listed(s, v) {
      if v != u {
        OldSliceListed(s, id.0, v);
      }
    }
  }

  lemma UnknownIsUnlisted(s: Mux, u: SubId)
    requires TablesOk(s) && u !in s.subs
    ensures !Listed(s, u)
  {}

  lemma SubscribeTables(s: Mux, u: SubId, types: set<EventType>)
    requires TablesOk(s) && s.holder.None? && u !in s.subs
    ensures var s' := Subscribed(s, u, types);
      Grown(s, s') && TablesOk(s') && forall v :: Listed(s', v) ==> Listed(s, v) || v == u
  {
    var s' := Subscribed(s, u, types);
    ExtendedMadeOf(s, u, types);
    hide OldSlice;
    TablesAfter(s, s', Extended(s, u, types), {u});
  }

  lemma NewSubOk(s: Mux, u: SubId)
    requires u in s.subs && (s.subs[u] == NEW_SUB || (s.subs[u] == BORN_CLOSED && !Listed(s, u)))
    ensures SubOk(s, u)
  {}

  lemma {:induction false} WithoutMembers(slice: seq<SubId>, u: SubId)
    ensures forall v :: v in Without(slice, u) <==> v in slice && v != u
  {
    if slice != [] {
      WithoutMembers(slice[1..], u);
    }
  }

  lemma {:induction false} WithoutNothing(slice: seq<SubId>, u: SubId)
    requires u !in slice
    ensures Without(slice, u) == slice
  {
    if slice != [] {
      WithoutNothing(slice[1..], u);
    }
  }

  lemma ShortenedMadeOf(s: Mux, u: SubId)
    ensures MadeOf(s, Shortened(s, u), {})
  {
    var made := Shortened(s, u);
    forall id, v | id in made && v in made[id] ensures Listed(s, v) {
      WithoutMembers(OldSlice(s, id.0), u);
      OldSliceListed(s, id.0, v);
    }
  }

  lemma RemovedTables(s: Mux, u: SubId)
    requires TablesOk(s) && s.holder.None?
    ensures var s' := Removed(s, u); Grown(s, s') && TablesOk(s') && forall v :: Listed(s', v) ==> Listed(s, v)
  {
    var s' := Removed(s, u);
    ShortenedMadeOf(s, u);
    TablesAfter(s, s', Shortened(s, u), {});
  }

  /** After del nobody finds the subscription under any type any more. */
  lemma RemovedIsUnregistered(s: Mux, u: SubId)
    requires TablesOk(s)
    ensures !Registered(Removed(s, u), u)
  {
    var s' := Removed(s, u);
    forall ty | ty in s'.subm ensures u !in OldSlice(s', ty) {
      WithoutMembers(OldSlice(s, ty), u);
    }
  }

  lemma UnsubscribeKeepsInv(s: Mux, t: Tid, u: SubId)
    requires Inv(s) && s.holder.None? && t !in s.threads && u in s.subs
    ensures Inv(SetPc(Removed(s, u), t, Closing(u, WantClose, Return)))
  {
    var s' := SetPc(Removed(s, u), t, Closing(u, WantClose, Return));
    RemovedTables(s, u);
    SameTables(Removed(s, u), s');
    assert Grown(s, s') && TablesOk(s') && ThreadOk(s', t);
    hide SubOk, ThreadOk, TablesOk, Listed, Grown;
    forall v | v in s'.subs ensures SubOk(s', v) {
      GrownSub(s, s', v);
    }
    forall x | x in s'.threads ensures ThreadOk(s', x) {
      if x != t {
        GrownThread(s, s', x);
      }
    }
  }

  /** Every step of every thread keeps the invariant. */
  lemma StepKeepsInv(s: Mux, step: Step)
    requires Inv(s) && Enabled(s, step)
    ensures Inv(Apply(s, step))
  {
    hide Inv;
    match step
    case Subscribe(u, types) => SubscribeKeepsInv(s, u, types);
    case Post(_, _) => WalkStepKeepsInv(s, step);
    case Stale(_) => WalkStepKeepsInv(s, step);
    case TakeRead(_) => TakeReadKeepsInv(s, step);
    case Send(_) => SendKeepsInv(s, step);
    case SeeClosing(_) => SeeClosingKeepsInv(s, step);
    case PostReturn(_) => WalkStepKeepsInv(s, step);
    case Unsubscribe(t, u) => UnsubscribeKeepsInv(s, t, u);
    case TakeClose(_) => LockStepKeepsInv(s, step);
    case CheckClosed(t) =>
      if s.subs[s.threads[t].sub].closed {
        EarlyReturnKeepsInv(s, step);
      } else {
        MarkStepKeepsInv(s, step);
      }
    case TakePost(_) => LockStepKeepsInv(s, step);
    case CloseChan(_) => ChanStepKeepsInv(s, step);
    case NilPost(_) => ChanStepKeepsInv(s, step);
    case ReleaseBoth(_) => ReleaseKeepsInv(s, step);
    case Stop(t, order) => StopKeepsInv(s, t, order);
    case StopTake(_) => WalkStepKeepsInv(s, step);
    case StopReturn(t) => StopReturnKeepsInv(s, t);
  }

  /** A closed channel stays closed and receives nothing more. */
  lemma ClosedStaysSilent(s: Mux, step: Step, u: SubId)
    requires Inv(s) && Enabled(s, step) && u in s.subs && s.subs[u].chanClosed
    ensures var s' := Apply(s, step); u in s'.subs && s'.subs[u].chanClosed && s'.subs[u].got == s.subs[u].got
  {
    hide Inv, Extended, Shortened;
    if step.Send? {
      NeverSendsOnClosed(s, step.t);
    }
  }

  ghost predicate IsRun(states: seq<Mux>, steps: seq<Step>) {
    && |states| == |steps| + 1
    && states[0] == INITIAL
    && forall i :: 0 <= i < |steps| ==> Enabled(states[i], steps[i]) && states[i + 1] == Apply(states[i], steps[i])
  }

  lemma {:induction false} RunsKeepInv(states: seq<Mux>, steps: seq<Step>, k: nat)
    requires IsRun(states, steps) && k < |states|
    ensures Inv(states[k])
    decreases k
  {
    if k > 0 {
      RunsKeepInv(states, steps, k - 1);
      StepKeepsInv(states[k - 1], steps[k - 1]);
    }
  }

  /** In no interleaving does a thread send on a closed channel or close one twice. */
  lemma RunsNeverPanic(states: seq<Mux>, steps: seq<Step>, k: nat, t: Tid)
    requires IsRun(states, steps) && k < |states|
    ensures Enabled(states[k], Send(t)) ==> !states[k].subs[Target(states[k], states[k].threads[t])].chanClosed
    ensures Enabled(states[k], CloseChan(t)) ==> !states[k].subs[states[k].threads[t].sub].chanClosed
    ensures Enabled(states[k], CheckClosed(t)) && !states[k].subs[states[k].threads[t].sub].closed ==>
      !states[k].subs[states[k].threads[t].sub].closing
  {
    RunsKeepInv(states, steps, k);
    NeverClosesTwice(states[k], t);
    if Enabled(states[k], Send(t)) {
      NeverSendsOnClosed(states[k], t);
    }
  }

  /** The step with which a call of Unsubscribe by t for u returns. */
  ghost predicate UnsubscribeReturns(s: Mux, step: Step, u: SubId) {
    && (step.ReleaseBoth? || step.CheckClosed?)
    && step.t in s.threads && s.threads[step.t].Closing? && s.threads[step.t].sub == u && s.threads[step.t].rest.Return?
    && u in s.subs && (step.CheckClosed? ==> s.subs[u].closed)
  }

  lemma {:induction false} SilentFrom(states: seq<Mux>, steps: seq<Step>, j: nat, k: nat, u: SubId)
    requires IsRun(states, steps) && j <= k < |states| && u in states[j].subs && states[j].subs[u].chanClosed
    ensures u in states[k].subs && states[k].subs[u].chanClosed && states[k].subs[u].got == states[j].subs[u].got
    decreases k
  {
    hide Inv, Apply, Enabled;
    if j < k {
      SilentFrom(states, steps, j, k - 1, u);
      RunsKeepInv(states, steps, k - 1);
      ClosedStaysSilent(states[k - 1], steps[k - 1], u);
    }
  }

  /** Once Unsubscribe has returned, its subscription receives nothing in the rest of the run. */
  lemma NothingAfterUnsubscribe(states: seq<Mux>, steps: seq<Step>, j: nat, k: nat, u: SubId)
    requires IsRun(states, steps) && j < k < |states| && UnsubscribeReturns(states[j], steps[j], u)
    ensures u in states[k].subs && states[k].subs[u].got == states[j].subs[u].got
  {
    RunsKeepInv(states, steps, j);
    if steps[j].ReleaseBoth? {
      ReleaseKeepsInv(states[j], steps[j]);
    } else {
      EarlyReturnKeepsInv(states[j], steps[j]);
    }
    SilentFrom(states, steps, j + 1, k, u);
  }

  /** Once Stop has returned, no subscription it found registered and none already closed receives
      anything in the rest of the run. */
  lemma NothingAfterStop(states: seq<Mux>, steps: seq<Step>, j: nat, k: nat, u: SubId)
    requires IsRun(states, steps) && j < k < |states| && steps[j].StopReturn?
    requires u in states[j].subs && (Registered(states[j], u) || states[j].subs[u].chanClosed)
    ensures u in states[k].subs && states[k].subs[u].got == states[j].subs[u].got
  {
    RunsKeepInv(states, steps, j);
    StopReturnKeepsInv(states[j], steps[j].t);
    SilentFrom(states, steps, j, k, u);
  }

  // A run in which a subscription is served after Stop has returned: it was taken off the tables by
  // an Unsubscribe that has not closed it yet, and a Post still holds an older snapshot.

  const LATE_STEPS := [Subscribe(0, {7}), Post(1, 7), Unsubscribe(2, 0), Stop(3, []), StopReturn(3), TakeRead(1),
                       Send(1)]

  const SNAPSHOT: SliceId := (7, 0)

  const LATE_1 := Mux(None, false, map[7 := SNAPSHOT], map[SNAPSHOT := [0]], 1, map[0 := NEW_SUB], map[])
  const LATE_2 := LATE_1.(threads := map[1 := Posting(SNAPSHOT, 0)])
  const LATE_3 := LATE_2.(subm := map[], clock := 2,
                          threads := map[1 := Posting(SNAPSHOT, 0), 2 := Closing(0, WantClose, Return)])
  const LATE_4 := LATE_3.(holder := Some(3), threads := LATE_3.threads[3 := StopNext([])])
  const LATE_5 := LATE_3.(stopped := true)
  const LATE_6 := LATE_5.(subs := map[0 := NEW_SUB.(readers := {1})],
                          threads := LATE_3.threads[1 := Delivering(SNAPSHOT, 0)])
  const LATE_7 := LATE_5.(subs := map[0 := NEW_SUB.(got := 1)], threads := LATE_3.threads[1 := Posting(SNAPSHOT, 1)])

  const LATE_STATES := [INITIAL, LATE_1, LATE_2, LATE_3, LATE_4, LATE_5, LATE_6, LATE_7]

  lemma LateSubscribe()
    ensures Enabled(INITIAL, LATE_STEPS[0]) && Apply(INITIAL, LATE_STEPS[0]) == LATE_1
    ensures Enabled(LATE_1, LATE_STEPS[1]) && Apply(LATE_1, LATE_STEPS[1]) == LATE_2
  {
    var made := Extended(INITIAL, 0, {7});
    assert OldSlice(INITIAL, 7) + [0] == [0];
    assert made == map[SNAPSHOT := [0]];
    assert INITIAL.slices + made == made;
  }

  lemma LateUnsubscribe()
    ensures Enabled(LATE_2, LATE_STEPS[2]) && Apply(LATE_2, LATE_STEPS[2]) == LATE_3
  {
    assert OldSlice(LATE_2, 7) == [0];
    assert Without([0], 0) == [];
    assert Shortened(LATE_2, 0) == map[];
    assert Removed(LATE_2, 0).subm == map[];
    assert LATE_2.slices + map[] == LATE_2.slices;
  }

  lemma LateStop()
    ensures Enabled(LATE_3, LATE_STEPS[3]) && Apply(LATE_3, LATE_STEPS[3]) == LATE_4
    ensures Enabled(LATE_4, LATE_STEPS[4]) && Apply(LATE_4, LATE_STEPS[4]) == LATE_5
  {
    assert LATE_4.threads - {3} == LATE_3.threads;
  }

  lemma LateDelivery()
    ensures Enabled(LATE_5, LATE_STEPS[5]) && Apply(LATE_5, LATE_STEPS[5]) == LATE_6
    ensures Enabled(LATE_6, LATE_STEPS[6]) && Apply(LATE_6, LATE_STEPS[6]) == LATE_7
  {
    assert {1} - {1} == {} && {} + {1} == {1};
  }

  /** Not every subscription is silent after Stop: one whose Unsubscribe is still under way may be
      served. */
  lemma StopMissesUnsubscribing()
    ensures IsRun(LATE_STATES, LATE_STEPS) && LATE_STEPS[4].StopReturn?
    ensures !Registered(LATE_STATES[4], 0) && !LATE_STATES[4].subs[0].chanClosed
    ensures LATE_STATES[5].subs[0].got == 0 && LATE_STATES[7].subs[0].got == 1
  {
    hide Apply, Enabled;
    LateSubscribe();
    LateUnsubscribe();
    LateStop();
    LateDelivery();
    forall i | 0 <= i < |LATE_STEPS|
      ensures Enabled(LATE_STATES[i], LATE_STEPS[i]) && LATE_STATES[i + 1] == Apply(LATE_STATES[i], LATE_STEPS[i])
    {
      assert i == 0 || i == 1 || i == 2 || i == 3 || i == 4 || i == 5 || i == 6;
    }
  }

  /** A snapshot a Post is walking through is the same slice for the rest of the run. */
  lemma {:induction false} SnapshotsSurvive(states: seq<Mux>, steps: seq<Step>, j: nat, k: nat, id: SliceId)
    requires IsRun(states, steps) && j <= k < |states| && id in states[j].slices
    ensures id in states[k].slices && states[k].slices[id] == states[j].slices[id]
    decreases k
  {
    if j < k {
      SnapshotsSurvive(states, steps, j, k - 1, id);
      RunsKeepInv(states, steps, k - 1);
      SnapshotsAreStable(states[k - 1], steps[k - 1], id);
    }
  }
}
