/** The LES request distributor: requests wait in creation order, each wake-up hands out as many
    as peers can take, and one signal at a time keeps the loop alive. Every method of the class is
    one critical section of the distributor lock. */
module Distributors {
  import opened Options

  type Req = nat
  type Peer = nat
  type Chan = nat

  /** What the peers answer during one scheduling round: who is registered, who would take which
      request now, and how long it would have to wait. */
  datatype Env = Env(peers: set<Peer>, accepts: (Req, Peer) -> bool, wait: (Req, Peer) -> nat)

  datatype Choice = Nothing | Pick(peer: Peer, req: Req, wait: nat)

  predicate Servable(env: Env, r: Req) {
    exists p <- env.peers :: env.accepts(r, p)
  }

  /** The first request in line that peer p would take, or -1. */
  function FirstFor(queue: seq<Req>, env: Env, p: Peer): (i: int)
    ensures -1 <= i < |queue|
    ensures i >= 0 ==> env.accepts(queue[i], p) && forall j :: 0 <= j < i ==> !env.accepts(queue[j], p)
    ensures i == -1 ==> forall j :: 0 <= j < |queue| ==> !env.accepts(queue[j], p)
  {
    if queue == [] then -1
    else if env.accepts(queue[0], p) then 0
    else var i := FirstFor(queue[1..], env, p); if i == -1 then -1 else i + 1
  }

  /** How long peer p would have to wait for the first request it takes. */
  function WaitOf(queue: seq<Req>, env: Env, p: Peer): nat
    requires FirstFor(queue, env, p) >= 0
  {
    env.wait(queue[FirstFor(queue, env, p)], p)
  }

  /** A choice respects creation order and prefers a peer that can send now. */
  ghost predicate GoodChoice(queue: seq<Req>, env: Env, c: Choice) {
    match c
    case Nothing => queue == []
    case Pick(p, r, w) =>
      && p in env.peers
      && FirstFor(queue, env, p) >= 0 && r == queue[FirstFor(queue, env, p)]
      && w == env.wait(r, p)
      && (w > 0 ==> forall o <- env.peers :: FirstFor(queue, env, o) >= 0 ==> WaitOf(queue, env, o) >= w)
  }

  /** The requests at the head that no registered peer takes. */
  ghost predicate DropsUnservable(queue: seq<Req>, env: Env, front: nat) {
    && front <= |queue|
    && (forall i :: 0 <= i < front ==> !Servable(env, queue[i]))
    && (front < |queue| ==> Servable(env, queue[front]))
  }

  /** The peers whose first request lies before elem, or is elem itself and already tried. */
  ghost function Reached(queue: seq<Req>, env: Env, elem: nat, todo: set<Peer>): set<Peer> {
    set p | p in env.peers && 0 <= FirstFor(queue, env, p)
      && (FirstFor(queue, env, p) < elem || (FirstFor(queue, env, p) == elem && p !in todo))
  }

  /** A checked peer is a candidate if it can send now, else it competes for the shortest wait. */
  ghost predicate Candidates(queue: seq<Req>, env: Env, checked: set<Peer>, ready: set<(Peer, Req)>, best: Choice) {
    && (forall p <- checked :: FirstFor(queue, env, p) >= 0)
    && (forall c <- ready :: c.0 in checked && c.1 == queue[FirstFor(queue, env, c.0)] && WaitOf(queue, env, c.0) == 0)
    && (forall p <- checked :: WaitOf(queue, env, p) == 0 ==> ready != {})
    && (best.Nothing? ==> forall p <- checked :: WaitOf(queue, env, p) == 0)
    && (best.Pick? ==>
          && best.peer in checked && best.req == queue[FirstFor(queue, env, best.peer)]
          && best.wait == WaitOf(queue, env, best.peer) && best.wait > 0
          && forall p <- checked :: WaitOf(queue, env, p) == 0 || WaitOf(queue, env, p) >= best.wait)
  }

  /** A peer that takes the request becomes a candidate or competes for the shortest wait. */
  method Consider(queue: seq<Req>, env: Env, ghost checked: set<Peer>, ready: set<(Peer, Req)>, best: Choice, p: Peer,
                  req: Req)
    returns (ready': set<(Peer, Req)>, best': Choice)
    requires Candidates(queue, env, checked, ready, best)
    requires p !in checked && FirstFor(queue, env, p) >= 0 && req == queue[FirstFor(queue, env, p)]
    ensures Candidates(queue, env, checked + {p}, ready', best')
  {
    hide FirstFor;
    ready', best' := ready, best;
    var wait := env.wait(req, p);
    assert wait == WaitOf(queue, env, p);
    if wait == 0 {
      ready' := ready + {(p, req)};
      assert (p, req) in ready';
    } else if best.Nothing? || wait < best.wait {
      best' := Pick(p, req, wait);
    }
  }

  /** One request against all peers not matched yet. */
  method ScanRequest(queue: seq<Req>, env: Env, elem: nat, checked: set<Peer>, ready: set<(Peer, Req)>, best: Choice)
    returns (canSend: bool, checked': set<Peer>, ready': set<(Peer, Req)>, best': Choice)
    requires elem < |queue| && checked == Reached(queue, env, elem, env.peers)
    requires Candidates(queue, env, checked, ready, best)
    ensures checked' == Reached(queue, env, elem + 1, env.peers)
    ensures Candidates(queue, env, checked', ready', best')
    ensures canSend <==> checked' != checked
  {
    hide FirstFor, Candidates, Reached;
    var req := queue[elem];
    canSend, checked', ready', best' := false, checked, ready, best;
    var todo := env.peers;
    while todo != {}
      invariant todo <= env.peers && checked <= checked'
      invariant checked' == Reached(queue, env, elem, todo)
      invariant Candidates(queue, env, checked', ready', best')
      invariant canSend <==> checked' != checked
    {
      var p :| p in todo;
      TryOne(queue, env, elem, todo, p);
      todo := todo - {p};
      if p !in checked && env.accepts(req, p) {
        canSend := true;
        ready', best' := Consider(queue, env, checked', ready', best', p, req);
        checked' := checked' + {p};
      }
    }
    TriedAll(queue, env, elem);
  }

  lemma TriedAll(queue: seq<Req>, env: Env, elem: nat)
    ensures Reached(queue, env, elem, {}) == Reached(queue, env, elem + 1, env.peers)
  {
  }

  /** Trying a peer adds it exactly when it takes this request and took none before. */
  lemma TryOne(queue: seq<Req>, env: Env, elem: nat, todo: set<Peer>, p: Peer)
    requires elem < |queue| && p in todo && todo <= env.peers
    ensures p !in Reached(queue, env, elem, env.peers) && env.accepts(queue[elem], p) <==>
      FirstFor(queue, env, p) == elem
    ensures FirstFor(queue, env, p) == elem ==> p !in Reached(queue, env, elem, todo)
    ensures Reached(queue, env, elem, todo - {p}) ==
            Reached(queue, env, elem, todo) + (if FirstFor(queue, env, p) == elem then {p} else {})
  {
  }

  /** While nobody is checked yet, a request finds a peer exactly when it is servable. */
  lemma ServableIsReached(queue: seq<Req>, env: Env, elem: nat)
    requires elem < |queue| && Reached(queue, env, elem, env.peers) == {}
    ensures Servable(env, queue[elem]) <==> Reached(queue, env, elem + 1, env.peers) != {}
  {
    if Servable(env, queue[elem]) {
      var p :| p in env.peers && env.accepts(queue[elem], p);
      NotBefore(queue, env, elem, p);
      assert p in Reached(queue, env, elem + 1, env.peers);
    }
    if Reached(queue, env, elem + 1, env.peers) != {} {
      var p :| p in Reached(queue, env, elem + 1, env.peers);
      NotBefore(queue, env, elem, p);
    }
  }

  lemma NotBefore(queue: seq<Req>, env: Env, elem: nat, p: Peer)
    requires elem < |queue| && Reached(queue, env, elem, env.peers) == {} && p in env.peers
    ensures FirstFor(queue, env, p) == -1 || FirstFor(queue, env, p) >= elem
  {
    assert p !in Reached(queue, env, elem, env.peers);
  }

  /** Dropping requests nobody takes does not change whom each peer serves first. */
  lemma DropKeepsFirst(queue: seq<Req>, env: Env, front: nat, p: Peer)
    requires front <= |queue| && p in env.peers
    requires forall i :: 0 <= i < front ==> !Servable(env, queue[i])
    ensures FirstFor(queue, env, p) == -1 <==> FirstFor(queue[front..], env, p) == -1
    ensures FirstFor(queue, env, p) >= 0 ==> FirstFor(queue, env, p) == front + FirstFor(queue[front..], env, p)
    ensures FirstFor(queue, env, p) >= 0 ==> WaitOf(queue, env, p) == WaitOf(queue[front..], env, p)
  {
    var i, j := FirstFor(queue, env, p), FirstFor(queue[front..], env, p);
    assert i >= 0 ==> Servable(env, queue[i]);
    if i >= 0 { assert queue[front..][i - front] == queue[i]; }
    if j >= 0 { assert queue[front..][j] == queue[front + j]; }
  }

  lemma ChoiceIsGood(queue: seq<Req>, env: Env, front: nat, checked: set<Peer>, ready: set<(Peer, Req)>, best: Choice,
                     choice: Choice)
    requires front <= |queue| && forall i :: 0 <= i < front ==> !Servable(env, queue[i])
    requires checked == Reached(queue, env, |queue|, env.peers) && (checked == {} ==> front == |queue|)
    requires Candidates(queue, env, checked, ready, best)
    requires ready == {} ==> choice == best
    requires ready != {} ==> choice.Pick? && (choice.peer, choice.req) in ready && choice.wait == 0
    ensures GoodChoice(queue[front..], env, choice)
  {
    forall p | p in env.peers
      ensures FirstFor(queue, env, p) == -1 <==> FirstFor(queue[front..], env, p) == -1
      ensures FirstFor(queue, env, p) >= 0 ==> FirstFor(queue, env, p) == front + FirstFor(queue[front..], env, p)
      ensures FirstFor(queue, env, p) >= 0 ==> WaitOf(queue, env, p) == WaitOf(queue[front..], env, p)
    {
      DropKeepsFirst(queue, env, front, p);
    }
    assert choice.Nothing? ==> checked == {};
  }

  /** nextRequest: drops what nobody takes from the head of the line and chooses a pair. */
  method NextRequest(queue: seq<Req>, env: Env) returns (front: nat, choice: Choice)
    ensures DropsUnservable(queue, env, front)
    ensures GoodChoice(queue[front..], env, choice)
  {
    var checked: set<Peer>, ready: set<(Peer, Req)>, best := {}, {}, Nothing;
    var elem := 0;
    front := 0;
    while (env.peers != {} || elem == front) && elem < |queue|
      invariant front <= elem <= |queue| && checked == Reached(queue, env, elem, env.peers)
      invariant Candidates(queue, env, checked, ready, best)
      invariant front == elem <==> checked == {}
      invariant front < elem ==> DropsUnservable(queue, env, front)
      invariant front == elem ==> forall i :: 0 <= i < front ==> !Servable(env, queue[i])
      decreases |queue| - elem
    {
      var canSend;
      canSend, checked, ready, best := ScanRequest(queue, env, elem, checked, ready, best);
      if elem == front { ServableIsReached(queue, env, elem); }
      if !canSend && elem == front {
        front := front + 1;
      }
      elem := elem + 1;
    }
    choice := best;
    if ready != {} {
      var c :| c in ready;
      choice := Pick(c.0, c.1, 0);
    }
    ChoiceIsGood(queue, env, front, checked, ready, best, choice);
  }

  // --- the queue, its channels and the wake-up signal ---

  /** A result channel: the peers sent on it so far, and whether it has been closed. */
  datatype ChanState = ChanState(carried: seq<Peer>, closed: bool)

  const EMPTY := ChanState([], false)

  predicate Settled(c: ChanState) {
    c.closed && |c.carried| <= 1
  }

  ghost predicate Ordered(queue: seq<Req>, orders: map<Req, nat>) {
    && (forall r <- queue :: r in orders)
    && forall i, j :: 0 <= i < j < |queue| ==> orders[queue[i]] < orders[queue[j]]
  }

  ghost predicate Numbered(orders: map<Req, nat>, last: nat) {
    && (forall r <- orders :: 1 <= orders[r] <= last)
    && forall r, s :: r in orders && s in orders && orders[r] == orders[s] ==> r == s
  }

  /** Exactly the queued requests hold a channel, each its own, still open and empty; every other
      channel was closed and carried at most one peer. */
  ghost predicate Held(queue: seq<Req>, sent: map<Req, Chan>, chans: map<Chan, ChanState>) {
    && (forall r :: r in queue <==> r in sent)
    && (forall r <- sent :: sent[r] in chans && chans[sent[r]] == EMPTY)
    && (forall r, s :: r in sent && s in sent && r != s ==> sent[r] != sent[s])
    && (forall c <- chans :: Settled(chans[c]) || HeldBySome(sent, c))
  }

  ghost predicate HeldBySome(sent: map<Req, Chan>, c: Chan) {
    exists r :: r in sent && sent[r] == c
  }

  /** One signal is on its way exactly when loopNextSent is set, and a waiting request implies one. */
  ghost predicate SignalPending(queue: seq<Req>, loopNextSent: bool, tokens: nat, sleepers: nat) {
    && tokens + sleepers == (if loopNextSent then 1 else 0)
    && (queue != [] ==> loopNextSent)
  }

  function PosOf(queue: seq<Req>, r: Req): (i: nat)
    requires r in queue
    ensures i < |queue| && queue[i] == r && forall j :: 0 <= j < i ==> queue[j] != r
  {
    if queue[0] == r then 0 else 1 + PosOf(queue[1..], r)
  }

  function Without(queue: seq<Req>, r: Req): seq<Req>
    requires r in queue
  {
    queue[..PosOf(queue, r)] + queue[PosOf(queue, r) + 1..]
  }

  lemma WithoutMembers(queue: seq<Req>, orders: map<Req, nat>, r: Req)
    requires Ordered(queue, orders) && r in queue
    ensures Ordered(Without(queue, r), orders)
    ensures forall s :: s in Without(queue, r) <==> s in queue && s != r
  {
    var i := PosOf(queue, r);
    var q := Without(queue, r);
    assert forall j :: 0 <= j < |q| ==> q[j] == queue[if j < i then j else j + 1];
    forall s | s in queue && s != r ensures s in q {
      var j := PosOf(queue, s);
      assert q[if j < i then j else j - 1] == s;
    }
  }

  lemma SettleOne(queue: seq<Req>, sent: map<Req, Chan>, chans: map<Chan, ChanState>, r: Req, queue': seq<Req>,
                  final: ChanState)
    requires Held(queue, sent, chans) && r in queue && Settled(final)
    requires forall s :: s in queue' <==> s in queue && s != r
    ensures Held(queue', sent - {r}, chans[sent[r] := final])
  {
    var sent', chans' := sent - {r}, chans[sent[r] := final];
    forall c | c in chans' ensures Settled(chans'[c]) || HeldBySome(sent', c) {
      if c != sent[r] && !Settled(chans[c]) {
        var s :| s in sent && sent[s] == c;
        assert s in sent';
      }
    }
  }

  lemma HeldAt(queue: seq<Req>, sent: map<Req, Chan>, chans: map<Chan, ChanState>, r: Req)
    requires Held(queue, sent, chans)
    ensures r in queue <==> r in sent
    ensures r in queue ==> sent[r] in chans && chans[sent[r]] == EMPTY
  {
  }

  lemma HoldOne(queue: seq<Req>, sent: map<Req, Chan>, chans: map<Chan, ChanState>, r: Req, queue': seq<Req>, c: Chan)
    requires Held(queue, sent, chans) && r !in queue && c !in chans
    requires forall s :: s in queue' <==> s in queue || s == r
    ensures Held(queue', sent[r := c], chans[c := EMPTY])
  {
    var sent', chans' := sent[r := c], chans[c := EMPTY];
    forall d | d in chans' ensures Settled(chans'[d]) || HeldBySome(sent', d) {
      if d == c {
        assert sent'[r] == d;
      } else if !Settled(chans[d]) {
        var s :| s in sent && sent[s] == d;
        assert sent'[s] == d;
      }
    }
  }

  /** A request queued for the first time gets an order above all others. */
  lemma NumberOne(queue: seq<Req>, orders: map<Req, nat>, last: nat, r: Req)
    requires Ordered(queue, orders) && Numbered(orders, last) && r !in orders
    ensures Ordered(queue, orders[r := last + 1]) && Numbered(orders[r := last + 1], last + 1)
    ensures forall s <- queue :: orders[s] < last + 1
  {
    assert forall s <- queue :: s != r;
  }

  /** The queue with r put in front of position k. */
  function InsertAt(queue: seq<Req>, k: nat, r: Req): seq<Req>
    requires k <= |queue|
  {
    queue[..k] + [r] + queue[k..]
  }

  lemma InsertKeepsOrder(queue: seq<Req>, orders: map<Req, nat>, k: nat, r: Req)
    requires Ordered(queue, orders) && k <= |queue| && r in orders
    requires forall i :: 0 <= i < k ==> orders[queue[i]] < orders[r]
    requires forall i :: k <= i < |queue| ==> orders[r] < orders[queue[i]]
    ensures Ordered(InsertAt(queue, k, r), orders)
    ensures forall s :: s in InsertAt(queue, k, r) <==> s in queue || s == r
  {
    var q := InsertAt(queue, k, r);
    assert q[k] == r;
    assert forall j :: 0 <= j < |q| && j != k ==> q[j] == queue[if j < k then j else j - 1];
    forall s | s in queue ensures s in q {
      var j := PosOf(queue, s);
      assert q[if j < k then j else j + 1] == s;
    }
  }

  /** queue()'s search for the place of a request: the end, or before the first later one. */
  method FindPlace(queue: seq<Req>, orders: map<Req, nat>, r: Req) returns (k: nat)
    requires Ordered(queue, orders) && r in orders
    ensures k <= |queue|
    ensures forall i :: 0 <= i < k ==> orders[queue[i]] < orders[r]
    ensures forall i :: k <= i < |queue| ==> orders[r] <= orders[queue[i]]
  {
    if queue == [] || orders[r] > orders[queue[|queue| - 1]] {
      return |queue|;
    }
    k := 0;
    while orders[queue[k]] < orders[r]
      invariant k < |queue|
      invariant forall i :: 0 <= i < k ==> orders[queue[i]] < orders[r]
      decreases |queue| - k
    {
      k := k + 1;
    }
  }

  /** One scheduling round: the line it found, how many requests it dropped from the head, and what
      it chose. */
  datatype RoundLog = RoundLog(line: seq<Req>, front: nat, choice: Choice) {
    predicate SendsNow() { choice.Pick? && choice.wait == 0 }

    /** The line it leaves behind. */
    function After(): seq<Req> {
      var rest := if front <= |line| then line[front..] else [];
      if SendsNow() && choice.req in rest then Without(rest, choice.req) else rest
    }
  }

  /** A round as nextRequest must conduct it, given the peers' answers. */
  ghost predicate GoodRound(log: RoundLog, env: Env) {
    && DropsUnservable(log.line, env, log.front)
    && GoodChoice(log.line[log.front..], env, log.choice)
  }

  /** Consecutive rounds that start from the line `was` and lead to `queue`; all but perhaps the
      last one sent something. */
  ghost predicate Traced(was: seq<Req>, envs: nat -> Env, trace: seq<RoundLog>, queue: seq<Req>) {
    if trace == [] then queue == was
    else
      var earlier, last := trace[..|trace| - 1], trace[|trace| - 1];
      && GoodRound(last, envs(|earlier|)) && queue == last.After()
      && (earlier != [] ==> earlier[|earlier| - 1].SendsNow())
      && Traced(was, envs, earlier, last.line)
  }

  lemma TraceStart(queue: seq<Req>, envs: nat -> Env)
    ensures Traced(queue, envs, [], queue)
  {
  }

  lemma TraceOne(was: seq<Req>, envs: nat -> Env, trace: seq<RoundLog>, log: RoundLog)
    requires Traced(was, envs, trace, log.line) && GoodRound(log, envs(|trace|))
    requires trace != [] ==> trace[|trace| - 1].SendsNow()
    ensures Traced(was, envs, trace + [log], log.After())
  {
    hide GoodRound, RoundLog.After;
    assert (trace + [log])[..|trace|] == trace;
  }

  /** How a round settles a request: dropped from the head unserved, or handed to the chosen peer. */
  ghost predicate LeftBy(log: RoundLog, r: Req, c: ChanState) {
    || (c == ChanState([], true) && exists i :: 0 <= i < log.front && i < |log.line| && log.line[i] == r)
    || (log.SendsNow() && log.choice.req == r && c == ChanState([log.choice.peer], true))
  }

  ghost predicate Outcome(trace: seq<RoundLog>, r: Req, c: ChanState) {
    exists k :: 0 <= k < |trace| && LeftBy(trace[k], r, c)
  }

  /** What became of the requests and channels since the line was `was`. */
  ghost predicate Accounted(was: seq<Req>, held: map<Req, Chan>, before: map<Chan, ChanState>, trace: seq<RoundLog>,
                            queue: seq<Req>, sent: map<Req, Chan>, chans: map<Chan, ChanState>)
    requires forall r <- was :: r in held
  {
    && (forall r <- queue :: r in was && r in sent && sent[r] == held[r])
    && (forall r <- was :: held[r] in chans && (r in queue || Outcome(trace, r, chans[held[r]])))
    && (forall r, s :: r in was && s in was && r != s ==> held[r] != held[s])
    && Untouched(was, held, before, chans)
  }

  /** A channel closed before is not touched again. */
  ghost predicate Untouched(was: seq<Req>, held: map<Req, Chan>, before: map<Chan, ChanState>,
                            chans: map<Chan, ChanState>)
    requires forall r <- was :: r in held
  {
    && chans.Keys == before.Keys
    && (forall r <- was :: held[r] in before && before[held[r]] == EMPTY)
    && (forall c <- before :: before[c].closed ==> chans[c] == before[c])
  }

  lemma AccountOne(was: seq<Req>, held: map<Req, Chan>, before: map<Chan, ChanState>, trace: seq<RoundLog>,
                   queue: seq<Req>, sent: map<Req, Chan>, chans: map<Chan, ChanState>, r: Req, queue': seq<Req>,
                   final: ChanState)
    requires forall s <- was :: s in held
    requires Accounted(was, held, before, trace, queue, sent, chans)
    requires r in queue && Outcome(trace, r, final)
    requires forall s :: s in queue' <==> s in queue && s != r
    ensures Accounted(was, held, before, trace, queue', sent - {r}, chans[sent[r] := final])
  {
    hide Outcome;
  }

  lemma AccountStart(queue: seq<Req>, sent: map<Req, Chan>, chans: map<Chan, ChanState>)
    requires Held(queue, sent, chans)
    ensures forall r <- queue :: r in sent
    ensures Accounted(queue, sent, chans, [], queue, sent, chans)
  {
  }

  /** What one round does to the requests it removes. */
  lemma RoundOutcomes(trace: seq<RoundLog>, log: RoundLog, env: Env)
    requires GoodRound(log, env)
    ensures log.front <= |log.line|
    ensures forall i :: 0 <= i < log.front ==> Outcome(trace + [log], log.line[i], ChanState([], true))
    ensures log.choice.Pick? ==> log.choice.req in log.line[log.front..]
    ensures log.SendsNow() ==> Outcome(trace + [log], log.choice.req, ChanState([log.choice.peer], true))
    ensures log.choice.Nothing? ==> log.line[log.front..] == []
  {
    assert (trace + [log])[|trace|] == log;
    forall i | 0 <= i < log.front ensures Outcome(trace + [log], log.line[i], ChanState([], true)) {
      assert LeftBy((trace + [log])[|trace|], log.line[i], ChanState([], true));
    }
    if log.SendsNow() {
      assert LeftBy((trace + [log])[|trace|], log.choice.req, ChanState([log.choice.peer], true));
    }
  }

  lemma AccountLonger(was: seq<Req>, held: map<Req, Chan>, before: map<Chan, ChanState>, trace: seq<RoundLog>,
                      log: RoundLog, queue: seq<Req>, sent: map<Req, Chan>, chans: map<Chan, ChanState>)
    requires forall s <- was :: s in held
    requires Accounted(was, held, before, trace, queue, sent, chans)
    ensures Accounted(was, held, before, trace + [log], queue, sent, chans)
  {
    forall r | r in was && r !in queue ensures Outcome(trace + [log], r, chans[held[r]]) {
      var k :| 0 <= k < |trace| && LeftBy(trace[k], r, chans[held[r]]);
      assert (trace + [log])[k] == trace[k];
    }
  }

  /** Nobody could send a waiting request in the last round, and its head has a taker. */
  lemma LastRoundWaits(was: seq<Req>, envs: nat -> Env, trace: seq<RoundLog>, queue: seq<Req>, p: Peer)
    requires Traced(was, envs, trace, queue) && trace != [] && !trace[|trace| - 1].SendsNow() && queue != []
    ensures Servable(envs(|trace| - 1), queue[0])
    ensures p in envs(|trace| - 1).peers && FirstFor(queue, envs(|trace| - 1), p) >= 0 ==>
      WaitOf(queue, envs(|trace| - 1), p) > 0
  {
    assert GoodRound(trace[|trace| - 1], envs(|trace| - 1));
  }

  lemma {:induction false} TracedRound(was: seq<Req>, envs: nat -> Env, trace: seq<RoundLog>, queue: seq<Req>, k: nat)
    requires Traced(was, envs, trace, queue) && k < |trace|
    ensures GoodRound(trace[k], envs(k))
    decreases |trace|
  {
    hide GoodRound, RoundLog.After;
    var earlier, last := trace[..|trace| - 1], trace[|trace| - 1];
    if k < |earlier| {
      TracedRound(was, envs, earlier, last.line, k);
    }
  }

  /** In plain terms: a request whose channel was closed empty met a round in which no registered peer
      would take it, and one that was handed out went to a registered peer that took it, without
      waiting, and took nothing that stood before it in the line. */
  lemma OutcomeMeans(was: seq<Req>, envs: nat -> Env, trace: seq<RoundLog>, queue: seq<Req>, r: Req, c: ChanState)
    returns (k: nat)
    requires Traced(was, envs, trace, queue) && Outcome(trace, r, c)
    ensures k < |trace| && r in trace[k].line && c.closed && |c.carried| <= 1
    ensures c.carried == [] ==> forall p <- envs(k).peers :: !envs(k).accepts(r, p)
    ensures c.carried != [] ==>
      var p := c.carried[0];
      p in envs(k).peers && envs(k).accepts(r, p) && envs(k).wait(r, p) == 0
    ensures c.carried != [] ==>
      exists i :: 0 <= i < |trace[k].line| && trace[k].line[i] == r &&
        forall j :: 0 <= j < i ==> !envs(k).accepts(trace[k].line[j], c.carried[0])
  {
    k :| 0 <= k < |trace| && LeftBy(trace[k], r, c);
    TracedRound(was, envs, trace, queue, k);
    var log, env := trace[k], envs(k);
    if c.carried != [] {
      var p, rest := log.choice.peer, log.line[log.front..];
      var i := FirstFor(rest, env, p);
      assert log.line[log.front + i] == r;
      forall j | 0 <= j < log.front + i ensures !env.accepts(log.line[j], p) {
        assert j < log.front ==> !Servable(env, log.line[j]);
        assert j >= log.front ==> log.line[j] == rest[j - log.front];
      }
    }
  }

  /** After the last round nothing can be sent at once: a peer would have to wait for the first request
      left that it takes. */
  lemma LastRoundLeaves(was: seq<Req>, envs: nat -> Env, trace: seq<RoundLog>, queue: seq<Req>, p: Peer, i: nat)
    requires Traced(was, envs, trace, queue) && trace != [] && !trace[|trace| - 1].SendsNow()
    requires i < |queue| && p in envs(|trace| - 1).peers && envs(|trace| - 1).accepts(queue[i], p)
    requires forall j :: 0 <= j < i ==> !envs(|trace| - 1).accepts(queue[j], p)
    ensures envs(|trace| - 1).wait(queue[i], p) > 0
  {
    hide Traced, GoodRound;
    LastRoundWaits(was, envs, trace, queue, p);
    assert FirstFor(queue, envs(|trace| - 1), p) == i;
  }

  lemma PlaceIsStrict(queue: seq<Req>, orders: map<Req, nat>, last: nat, k: nat, r: Req)
    requires Ordered(queue, orders) && Numbered(orders, last) && r in orders && r !in queue && k <= |queue|
    requires forall i :: k <= i < |queue| ==> orders[r] <= orders[queue[i]]
    ensures forall i :: k <= i < |queue| ==> orders[r] < orders[queue[i]]
    ensures (forall s <- queue :: orders[s] < orders[r]) ==> k == |queue| && InsertAt(queue, k, r) == queue + [r]
  {
    if k < |queue| { assert queue[k] in queue; }
  }

  /** Progress of the shutdown: the first n requests have had their channels closed. */
  ghost predicate ClosedUpTo(queue: seq<Req>, n: nat, held: map<Req, Chan>, before: map<Chan, ChanState>,
                             sent: map<Req, Chan>, chans: map<Chan, ChanState>) {
    && n <= |queue| && chans.Keys == before.Keys
    && (forall i :: 0 <= i < |queue| ==> queue[i] in held && held[queue[i]] in chans)
    && (forall i :: n <= i < |queue| ==> queue[i] in sent && sent[queue[i]] == held[queue[i]])
    && (forall i :: 0 <= i < n ==> chans[held[queue[i]]] == ChanState([], true) && queue[i] !in sent)
    && (forall c <- chans :: chans[c] == before[c] || (before[c] == EMPTY && chans[c] == ChanState([], true)))
  }

  lemma CloseNext(queue: seq<Req>, orders: map<Req, nat>, n: nat, held: map<Req, Chan>, before: map<Chan, ChanState>,
                  sent: map<Req, Chan>, chans: map<Chan, ChanState>)
    requires Ordered(queue, orders) && Held(queue, held, before)
    requires n < |queue| && ClosedUpTo(queue, n, held, before, sent, chans)
    ensures queue[n] in sent
    ensures ClosedUpTo(queue, n + 1, held, before, sent - {queue[n]}, chans[sent[queue[n]] := ChanState([], true)])
  {
    assert forall i :: n < i < |queue| ==> queue[i] != queue[n];
    assert before[held[queue[n]]] == EMPTY;
  }

  /** The list insertion of queue(). */
  method Place(queue: seq<Req>, orders: map<Req, nat>, ghost last: nat, r: Req) returns (k: nat, queue': seq<Req>)
    requires Ordered(queue, orders) && Numbered(orders, last) && r in orders && r !in queue
    ensures k <= |queue| && queue' == InsertAt(queue, k, r) && queue' != [] && Ordered(queue', orders)
    ensures forall s :: s in queue' <==> s in queue || s == r
    ensures (forall s <- queue :: orders[s] < orders[r]) ==> queue' == queue + [r]
  {
    hide Numbered;
    k := FindPlace(queue, orders, r);
    PlaceIsStrict(queue, orders, last, k, r);
    InsertKeepsOrder(queue, orders, k, r);
    queue' := InsertAt(queue, k, r);
  }

  class RequestDistributor {
    var queue: seq<Req>
    var orders: map<Req, nat>
    var lastOrder: nat
    var sent: map<Req, Chan>
    var chans: map<Chan, ChanState>
    var loopNextSent: bool
    var tokens: nat
    var sleepers: nat

    /** What holds whenever the lock is free, until the distributor is stopped. */
    ghost predicate Valid()
      reads this
    {
      && Lines()
      && SignalPending(queue, loopNextSent, tokens, sleepers)
    }

    ghost predicate Lines()
      reads this
    {
      && Ordered(queue, orders)
      && Numbered(orders, lastOrder)
      && Held(queue, sent, chans)
    }

    constructor ()
      ensures Valid() && queue == [] && chans == map[] && orders == map[] && lastOrder == 0 && !loopNextSent
    {
      queue, orders, lastOrder, sent, chans := [], map[], 0, map[], map[];
      loopNextSent, tokens, sleepers := false, 0, 0;
    }

    /** A request keeps the order of its first queueing. */
    method Number(r: Req)
      requires Lines() && r !in queue
      modifies `orders, `lastOrder
      ensures Lines() && r in orders
      ensures r in old(orders) ==> orders == old(orders) && lastOrder == old(lastOrder)
      ensures r !in old(orders) ==> lastOrder == old(lastOrder) + 1
      ensures r !in old(orders) ==>
        orders == old(orders)[r := old(lastOrder) + 1] && forall s <- queue :: orders[s] < orders[r]
    {
      hide Held;
      if r !in orders {
        NumberOne(queue, orders, lastOrder, r);
        lastOrder := lastOrder + 1;
        orders := orders[r := lastOrder];
      }
    }

    /** queue: a new request goes last, a resent one back to where its order puts it. */
    method Queue(r: Req, c: Chan)
      requires Valid() && r !in queue && c !in chans
      modifies this
      ensures Valid()
      ensures exists k :: 0 <= k <= old(|queue|) && queue == InsertAt(old(queue), k, r)
      ensures r in old(orders) ==> orders == old(orders)
      ensures r !in old(orders) ==> queue == old(queue) + [r] && orders == old(orders)[r := old(lastOrder) + 1]
      ensures sent == old(sent)[r := c] && chans == old(chans)[c := ChanState([], false)]
      ensures lastOrder == old(lastOrder) + (if r in old(orders) then 0 else 1)
      ensures loopNextSent && sleepers == old(sleepers)
      ensures tokens == if old(loopNextSent) then old(tokens) else old(tokens) + 1
    {
      hide Held, Ordered, Numbered, InsertAt;
      Number(r);
      var k, queue' := Place(queue, orders, lastOrder, r);
      HoldOne(queue, sent, chans, r, queue', c);
      queue := queue';
      if !loopNextSent {
        loopNextSent := true;
        tokens := tokens + 1;
      }
      sent := sent[r := c];
      chans := chans[c := EMPTY];
    }

    /** remove, after the channel has been settled: the request leaves the line. */
    method Settle(r: Req, final: ChanState)
      requires Lines() && r in queue && Settled(final)
      modifies `queue, `sent, `chans
      ensures Lines() && old(r in sent && sent[r] in chans && chans[sent[r]] == EMPTY)
      ensures queue == Without(old(queue), r) && |queue| < old(|queue|)
      ensures sent == old(sent) - {r} && chans == old(chans)[old(sent[r]) := final]
    {
      hide PosOf, Held, Numbered;
      HeldAt(queue, sent, chans, r);
      WithoutMembers(queue, orders, r);
      SettleOne(queue, sent, chans, r, Without(queue, r), final);
      chans := chans[sent[r] := final];
      sent := sent - {r};
      queue := Without(queue, r);
    }

    /** cancel: succeeds exactly on a queued request, whose channel is closed empty. */
    method Cancel(r: Req) returns (ok: bool)
      requires Valid()
      modifies `queue, `sent, `chans
      ensures Valid() && ok == (r in old(queue)) && r !in queue
      ensures !ok ==> queue == old(queue) && chans == old(chans) && sent == old(sent)
      ensures ok ==> sent == old(sent) - {r} && old(chans[sent[r]]) == ChanState([], false)
      ensures ok ==> queue == Without(old(queue), r) && chans == old(chans)[old(sent[r]) := ChanState([], true)]
    {
      ok := r in sent;
      if ok {
        WithoutMembers(queue, orders, r);
        Settle(r, ChanState([], true));
      }
    }

    /** A sleeper's time is over: it puts its signal into the channel, which never blocks. */
    method Fire()
      requires Valid() && sleepers > 0
      modifies `tokens, `sleepers
      ensures Valid() && tokens == old(tokens) + 1 <= 2 && sleepers == old(sleepers) - 1
    {
      sleepers := sleepers - 1;
      tokens := tokens + 1;
    }

    /** The head of the line, which nobody takes, is closed unserved. */
    method DropFront(front: nat, ghost was: seq<Req>, ghost held: map<Req, Chan>, ghost before: map<Chan, ChanState>,
                     ghost trace: seq<RoundLog>)
      requires Lines() && front <= |queue| && forall s <- was :: s in held
      requires Accounted(was, held, before, trace, queue, sent, chans)
      requires forall i :: 0 <= i < front ==> Outcome(trace, queue[i], ChanState([], true))
      modifies `queue, `sent, `chans
      ensures Lines() && queue == old(queue)[front..]
      ensures Accounted(was, held, before, trace, queue, sent, chans)
    {
      hide Accounted, Outcome, Held, Ordered, Numbered;
      var n := 0;
      while n < front
        invariant 0 <= n <= front && queue == old(queue)[n..]
        invariant Lines() && Accounted(was, held, before, trace, queue, sent, chans)
      {
        var r := queue[0];
        assert r == old(queue)[n];
        WithoutMembers(queue, orders, r);
        AccountOne(was, held, before, trace, queue, sent, chans, r, Without(queue, r), ChanState([], true));
        Settle(r, ChanState([], true));
        n := n + 1;
        assert queue == old(queue)[n..];
      }
    }

    /** One round of nextRequest: the unservable head goes, and a request that can be sent now is. */
    method Round(ghost was: seq<Req>, ghost held: map<Req, Chan>, ghost before: map<Chan, ChanState>,
                 ghost trace: seq<RoundLog>, env: Env)
      returns (choice: Choice, ghost log: RoundLog)
      requires Lines() && forall s <- was :: s in held
      requires Accounted(was, held, before, trace, queue, sent, chans)
      modifies `queue, `sent, `chans
      ensures log.line == old(queue) && log.choice == choice && GoodRound(log, env)
      ensures log.front <= |log.line|
      ensures log.SendsNow() ==> choice.req in log.line[log.front..] && |queue| < old(|queue|)
      ensures queue == log.After()
      ensures choice.Nothing? ==> queue == []
      ensures choice.Pick? && !log.SendsNow() ==> queue != []
      ensures Lines() && Accounted(was, held, before, trace + [log], queue, sent, chans)
    {
      hide Accounted, Outcome, Held, Ordered, Numbered, DropsUnservable, GoodChoice, Without;
      var front;
      front, choice := NextRequest(queue, env);
      log := RoundLog(queue, front, choice);
      AccountLonger(was, held, before, trace, log, queue, sent, chans);
      RoundOutcomes(trace, log, env);
      DropFront(front, was, held, before, trace + [log]);
      if choice.Pick? && choice.wait == 0 {
        WithoutMembers(queue, orders, choice.req);
        AccountOne(was, held, before, trace + [log], queue, sent, chans, choice.req, Without(queue, choice.req),
                   ChanState([choice.peer], true));
        Settle(choice.req, ChanState([choice.peer], true));
      }
    }

    /** Rounds of nextRequest until nothing can be sent at once. */
    method SendAll(envs: nat -> Env) returns (waits: bool, ghost trace: seq<RoundLog>)
      requires Lines()
      modifies `queue, `sent, `chans
      ensures Lines() && (waits <==> queue != [])
      ensures Traced(old(queue), envs, trace, queue) && trace != [] && !trace[|trace| - 1].SendsNow()
      ensures forall r <- old(queue) :: r in old(sent)
      ensures Accounted(old(queue), old(sent), old(chans), trace, queue, sent, chans)
    {
      hide Accounted, Held, Ordered, Numbered, Traced, GoodRound, RoundLog.After;
      AccountStart(queue, sent, chans);
      TraceStart(queue, envs);
      trace := [];
      var round := 0;
      while true
        invariant Lines() && round == |trace|
        invariant Traced(old(queue), envs, trace, queue) && (trace != [] ==> trace[|trace| - 1].SendsNow())
        invariant Accounted(old(queue), old(sent), old(chans), trace, queue, sent, chans)
        decreases |queue|
      {
        ghost var log;
        var choice;
        choice, log := Round(old(queue), old(sent), old(chans), trace, envs(round));
        TraceOne(old(queue), envs, trace, log);
        trace := trace + [log];
        round := round + 1;
        if !(choice.Pick? && choice.wait == 0) {
          return choice.Pick?, trace;
        }
      }
    }

    /** One signal received by the loop; if requests are left, the next one is on its way. */
    method Wake(envs: nat -> Env) returns (ghost trace: seq<RoundLog>)
      requires Valid() && tokens > 0
      modifies this
      ensures Valid() && orders == old(orders) && tokens == 0
      ensures Traced(old(queue), envs, trace, queue) && trace != [] && !trace[|trace| - 1].SendsNow()
      ensures forall r <- old(queue) :: r in old(sent)
      ensures Accounted(old(queue), old(sent), old(chans), trace, queue, sent, chans)
      ensures queue == [] <==> !loopNextSent
    {
      hide Accounted, Held, Ordered, Numbered, Traced;
      tokens := tokens - 1;
      loopNextSent := false;
      var waits;
      waits, trace := SendAll(envs);
      if waits {
        loopNextSent := true;
        sleepers := sleepers + 1;
      }
    }

    /** The stop signal: whatever still waits is closed unserved, and no channel is left open. */
    method Stop()
      requires Valid()
      modifies `sent, `chans
      ensures forall c <- chans :: Settled(chans[c])
      ensures forall c <- old(chans) :: c in chans
      ensures forall c <- old(chans) :: old(chans)[c].closed ==> chans[c] == old(chans)[c]
      ensures forall r <- old(queue) :: chans[old(sent)[r]] == ChanState([], true) && r !in sent
    {
      hide Numbered;
      var n := 0;
      ghost var held, before := sent, chans;
      while n < |queue|
        invariant 0 <= n <= |queue|
        invariant ClosedUpTo(queue, n, held, before, sent, chans)
      {
        CloseNext(queue, orders, n, held, before, sent, chans);
        var r := queue[n];
        chans := chans[sent[r] := ChanState([], true)];
        sent := sent - {r};
        n := n + 1;
      }
    }
  }

  /** What a distributor promises whenever its lock is free: requests wait in strictly rising creation
      order, each with an open empty channel of its own, every other channel was closed after at most
      one peer, at most one signal is on its way, and there is one while anything waits. */
  lemma ValidMeans(d: RequestDistributor)
    requires d.Valid()
    ensures forall i, j :: 0 <= i < j < |d.queue| ==>
      d.queue[i] in d.orders && d.queue[j] in d.orders && d.orders[d.queue[i]] < d.orders[d.queue[j]]
    ensures forall r <- d.queue :: r in d.sent && d.sent[r] in d.chans && d.chans[d.sent[r]] == ChanState([], false)
    ensures forall r, s :: r in d.queue && s in d.queue && r != s ==>
      r in d.sent && s in d.sent && d.sent[r] != d.sent[s]
    ensures forall c <- d.chans :: !d.chans[c].closed ==> exists r <- d.queue :: r in d.sent && d.sent[r] == c
    ensures forall c <- d.chans :: |d.chans[c].carried| <= 1
    ensures d.tokens + d.sleepers <= 1 && (d.queue != [] ==> d.tokens + d.sleepers == 1)
    ensures d.loopNextSent <==> d.tokens + d.sleepers == 1
  {
    hide Numbered;
    forall c | c in d.chans && !Settled(d.chans[c])
      ensures d.chans[c] == ChanState([], false) && exists r <- d.queue :: r in d.sent && d.sent[r] == c
    {
      assert HeldBySome(d.sent, c);
      var r :| r in d.sent && d.sent[r] == c;
      assert r in d.queue;
    }
  }
}
