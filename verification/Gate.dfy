/**
The `/v1` concurrency gate: a bounded number of slots and a bounded queue over one condition variable.
Everything between two releases of the condition's lock is one step, so a run is an interleaving of the
steps of many requests. `asyncio.Condition` is taken to pass a notification on when the notified waiter
leaves the wait by timeout or cancellation.
*/
module Gate {
  import opened Options

  type Request = nat

  datatype Config = Config(maxInflight: int, maxQueueSize: int)

  /** The limits after the constructor's clamping. */
  predicate Valid(c: Config) {
    c.maxInflight >= 1 && c.maxQueueSize >= 0
  }

  /** What has been done for one request. */
  datatype Log = Log(calls: nat, releases: nat, rejects: nat)

  /**
  `sleeping` waits un-notified, `notified` has been woken and not run yet, `holding` has a slot.
  `log` has an entry for every request that arrived.
  */
  datatype State = State(
    inflight: int,
    queued: int,
    sleeping: set<Request>,
    notified: set<Request>,
    holding: set<Request>,
    log: map<Request, Log>)

  const INITIAL := State(0, 0, {}, {}, {}, map[])

  /** `expired`: the request's time is up when it looks. `wake`: the waiter that `notify(1)` picks. */
  datatype Action =
    | Arrive(r: Request, expired: bool)
    | Resume(r: Request, expired: bool)
    | TimeOut(r: Request, wake: Option<Request>)
    | Cancel(r: Request, wake: Option<Request>)
    | Release(r: Request, wake: Option<Request>)

  // ---------- Steps ----------

  /** `notify(1)`: some sleeping waiter, or nobody when none sleeps. */
  predicate Picks(sleeping: set<Request>, wake: Option<Request>) {
    if sleeping == {} then wake == None else wake.Some? && wake.value in sleeping
  }

  function Notify(s: State, wake: Option<Request>): State {
    match wake
    case None => s
    case Some(w) => s.(sleeping := s.sleeping - {w}, notified := s.notified + {w})
  }

  function Clamped(n: int): int {
    if n < 0 then 0 else n
  }

  function Reject(s: State, r: Request): State
    requires r in s.log
  {
    s.(log := s.log[r := s.log[r].(rejects := s.log[r].rejects + 1)])
  }

  /** Out of the queue: the `finally` of the waiting phase. */
  function Dequeue(s: State, r: Request): State {
    s.(queued := Clamped(s.queued - 1), sleeping := s.sleeping - {r}, notified := s.notified - {r})
  }

  /** Into a slot, and on to the application. */
  function Acquire(s: State, r: Request): State
    requires r in s.log
  {
    s.(inflight := s.inflight + 1, holding := s.holding + {r}, log := s.log[r := s.log[r].(calls := s.log[r].calls + 1)])
  }

  predicate Enabled(c: Config, s: State, a: Action) {
    match a
    case Arrive(r, _) => r !in s.log
    case Resume(r, _) => r in s.notified && r in s.log
    case TimeOut(r, wake) => Leaves(s, r, wake)
    case Cancel(r, wake) => Leaves(s, r, wake)
    case Release(r, wake) => r in s.holding && r in s.log && Picks(s.sleeping, wake)
  }

  /** A waiter leaves. A notified one passes its notification on; another one may or may not cause a wake-up. */
  predicate Leaves(s: State, r: Request, wake: Option<Request>) {
    && r in s.log
    && (r in s.sleeping || r in s.notified)
    && (Picks(s.sleeping - {r}, wake) || (r in s.sleeping && wake == None))
  }

  function Apply(c: Config, s: State, a: Action): State
    requires Enabled(c, s, a)
  {
    match a
    case Arrive(r, expired) =>
      var t := s.(log := s.log[r := Log(0, 0, 0)]);
      if s.inflight < c.maxInflight then Acquire(t, r)
      else if s.queued >= c.maxQueueSize then Reject(t, r)
      else
        var u := t.(queued := s.queued + 1);
        if expired then Dequeue(Reject(u, r), r) else u.(sleeping := s.sleeping + {r})
    case Resume(r, expired) =>
      if s.inflight < c.maxInflight then Acquire(Dequeue(s, r), r)
      else if expired then Dequeue(Reject(s, r), r)
      else s.(notified := s.notified - {r}, sleeping := s.sleeping + {r})
    case TimeOut(r, wake) => Notify(Dequeue(Reject(s, r), r), wake)
    case Cancel(r, wake) => Notify(Dequeue(s, r), wake)
    case Release(r, wake) =>
      Notify(s.(inflight := Clamped(s.inflight - 1), holding := s.holding - {r},
                log := s.log[r := s.log[r].(releases := s.log[r].releases + 1)]), wake)
  }

  ghost predicate Step(c: Config, s: State, t: State) {
    exists a: Action :: Enabled(c, s, a) && t == Apply(c, s, a)
  }

  /** A run: states one step apart, from the initial one. */
  ghost predicate Run(c: Config, h: seq<State>) {
    |h| > 0 && h[0] == INITIAL && forall k :: 0 <= k < |h| - 1 ==> Step(c, h[k], h[k + 1])
  }

  // ---------- The invariant ----------

  /** The counters count. */
  predicate Counted(c: Config, s: State) {
    && s.sleeping !! s.notified && s.sleeping !! s.holding && s.notified !! s.holding
    && s.inflight == |s.holding| <= c.maxInflight
    && s.queued == |s.sleeping| + |s.notified| <= c.maxQueueSize
  }

  /** While somebody sleeps, every free slot has a notified request on its way to it. */
  predicate NoneStranded(c: Config, s: State) {
    s.sleeping != {} ==> c.maxInflight - s.inflight <= |s.notified|
  }

  /** One request: served once, or rejected once, or cancelled before either, or still on its way. */
  predicate LoggedAt(s: State, r: Request) {
    if r in s.holding then r in s.log && s.log[r] == Log(1, 0, 0)
    else if r in s.sleeping || r in s.notified then r in s.log && s.log[r] == Log(0, 0, 0)
    else r in s.log ==> s.log[r] == Log(1, 1, 0) || s.log[r] == Log(0, 0, 1) || s.log[r] == Log(0, 0, 0)
  }

  ghost predicate Logged(s: State) {
    forall r :: LoggedAt(s, r)
  }

  ghost predicate Invariant(c: Config, s: State) {
    Counted(c, s) && NoneStranded(c, s) && Logged(s)
  }

  predicate Absent(s: State, r: Request) {
    r !in s.sleeping && r !in s.notified && r !in s.holding
  }

  lemma SetMinus(s: set<Request>, r: Request)
    ensures |s - {r}| == if r in s then |s| - 1 else |s|
  {
    if r !in s { assert s - {r} == s; }
  }

  lemma DequeueCounts(c: Config, s: State, r: Request)
    requires Counted(c, s) && (r in s.sleeping || r in s.notified)
    ensures Counted(c, Dequeue(s, r)) && Absent(Dequeue(s, r), r) && Dequeue(s, r).queued == s.queued - 1
    ensures |Dequeue(s, r).notified| == if r in s.notified then |s.notified| - 1 else |s.notified|
  {
    SetMinus(s.sleeping, r);
    SetMinus(s.notified, r);
  }

  lemma AcquireCounts(c: Config, s: State, r: Request)
    requires Counted(c, s) && Absent(s, r) && r in s.log && s.inflight < c.maxInflight
    ensures Counted(c, Acquire(s, r))
  {
  }

  lemma NotifyCounts(c: Config, s: State, wake: Option<Request>)
    requires Counted(c, s) && (wake.Some? ==> wake.value in s.sleeping)
    ensures Counted(c, Notify(s, wake))
    ensures |Notify(s, wake).notified| == |s.notified| + if wake.Some? then 1 else 0
  {
    if wake.Some? {
      SetMinus(s.sleeping, wake.value);
    }
  }

  lemma ArriveKeeps(c: Config, s: State, r: Request, expired: bool)
    requires Valid(c) && Counted(c, s) && NoneStranded(c, s) && LoggedAt(s, r) && r !in s.log
    ensures var t := Apply(c, s, Arrive(r, expired)); Counted(c, t) && NoneStranded(c, t)
  {
    assert Absent(s, r);
    var t := s.(log := s.log[r := Log(0, 0, 0)]);
    if s.inflight < c.maxInflight {
      AcquireCounts(c, t, r);
    } else if s.queued < c.maxQueueSize && expired {
      assert s.sleeping - {r} == s.sleeping && s.notified - {r} == s.notified;
    }
  }

  lemma ResumeKeeps(c: Config, s: State, r: Request, expired: bool)
    requires Valid(c) && Counted(c, s) && NoneStranded(c, s) && r in s.notified && r in s.log
    ensures var t := Apply(c, s, Resume(r, expired)); Counted(c, t) && NoneStranded(c, t)
  {
    if s.inflight < c.maxInflight {
      DequeueCounts(c, s, r);
      AcquireCounts(c, Dequeue(s, r), r);
    } else if expired {
      DequeueCounts(c, Reject(s, r), r);
    } else {
      SetMinus(s.notified, r);
    }
  }

  lemma LeaveKeeps(c: Config, s: State, r: Request, wake: Option<Request>, t: State)
    requires Valid(c) && Counted(c, s) && NoneStranded(c, s) && Leaves(s, r, wake) && (t == s || t == Reject(s, r))
    ensures var u := Notify(Dequeue(t, r), wake); Counted(c, u) && NoneStranded(c, u)
  {
    DequeueCounts(c, t, r);
    NotifyCounts(c, Dequeue(t, r), wake);
  }

  lemma ReleaseKeeps(c: Config, s: State, r: Request, wake: Option<Request>)
    requires Valid(c) && Counted(c, s) && NoneStranded(c, s) && r in s.holding && r in s.log && Picks(s.sleeping, wake)
    ensures var t := Apply(c, s, Release(r, wake)); Counted(c, t) && NoneStranded(c, t)
  {
    SetMinus(s.holding, r);
    var t := s.(inflight := Clamped(s.inflight - 1), holding := s.holding - {r},
                log := s.log[r := s.log[r].(releases := s.log[r].releases + 1)]);
    NotifyCounts(c, t, wake);
  }

  lemma StepLogs(c: Config, s: State, a: Action, q: Request)
    requires Counted(c, s) && LoggedAt(s, a.r) && LoggedAt(s, q) && Enabled(c, s, a)
    ensures LoggedAt(Apply(c, s, a), q)
  {
  }

  lemma StepPreservesInvariant(c: Config, s: State, a: Action)
    requires Valid(c) && Invariant(c, s) && Enabled(c, s, a)
    ensures Invariant(c, Apply(c, s, a))
  {
    assert LoggedAt(s, a.r);
    match a {
      case Arrive(r, expired) => ArriveKeeps(c, s, r, expired);
      case Resume(r, expired) => ResumeKeeps(c, s, r, expired);
      case TimeOut(r, wake) => LeaveKeeps(c, s, r, wake, Reject(s, r));
      case Cancel(r, wake) => LeaveKeeps(c, s, r, wake, s);
      case Release(r, wake) => ReleaseKeeps(c, s, r, wake);
    }
    forall q
      ensures LoggedAt(Apply(c, s, a), q)
    {
      assert LoggedAt(s, q);
      StepLogs(c, s, a, q);
    }
  }

  lemma {:induction false} ReachableInvariant(c: Config, h: seq<State>, k: nat)
    requires Valid(c) && Run(c, h) && k < |h|
    ensures Invariant(c, h[k])
  {
    if k == 0 {
      assert forall r :: LoggedAt(INITIAL, r);
    } else {
      ReachableInvariant(c, h, k - 1);
      assert Step(c, h[k - 1], h[k - 1 + 1]);
      var a :| Enabled(c, h[k - 1], a) && h[k] == Apply(c, h[k - 1], a);
      StepPreservesInvariant(c, h[k - 1], a);
    }
  }

  /**
  Safety in every reachable state: the slots in use and the queue are counted exactly and within their
  limits, nobody sleeps beside a slot that no notified request is coming for, and the two clamps at zero
  never change a value.
  */
  lemma GateSafe(c: Config, h: seq<State>, k: nat)
    requires Valid(c) && Run(c, h) && k < |h|
    ensures h[k].inflight == |h[k].holding| <= c.maxInflight
    ensures h[k].queued == |h[k].sleeping| + |h[k].notified| <= c.maxQueueSize
    ensures h[k].sleeping != {} ==> c.maxInflight - h[k].inflight <= |h[k].notified|
    ensures h[k].holding != {} ==> Clamped(h[k].inflight - 1) == h[k].inflight - 1
    ensures h[k].sleeping + h[k].notified != {} ==> Clamped(h[k].queued - 1) == h[k].queued - 1
  {
    ReachableInvariant(c, h, k);
    var s := h[k];
    if r :| r in s.holding { SetMinus(s.holding, r); }
    if r :| r in s.sleeping + s.notified { SetMinus(s.sleeping, r); SetMinus(s.notified, r); }
  }

  /** A request that is no longer in the gate was served once and never rejected, or rejected once and never served, or cancelled. */
  lemma ServedOrRejectedOnce(c: Config, h: seq<State>, k: nat, r: Request)
    requires Valid(c) && Run(c, h) && k < |h| && r in h[k].log
    ensures var l := h[k].log[r]; l.calls + l.rejects <= 1 && l.releases <= l.calls
    ensures Absent(h[k], r) ==> h[k].log[r].releases == h[k].log[r].calls
    ensures r in h[k].holding <==> h[k].log[r].calls == 1 && h[k].log[r].releases == 0
  {
    ReachableInvariant(c, h, k);
    assert LoggedAt(h[k], r);
  }

  // ---------- Everybody gets an answer ----------

  /** A run with the steps it took. */
  ghost predicate RunBy(c: Config, h: seq<State>, steps: seq<Action>) {
    && |h| == |steps| + 1 && h[0] == INITIAL
    && forall k :: 0 <= k < |steps| ==> Enabled(c, h[k], steps[k]) && h[k + 1] == Apply(c, h[k], steps[k])
  }

  lemma RunByIsRun(c: Config, h: seq<State>, steps: seq<Action>)
    requires RunBy(c, h, steps)
    ensures Run(c, h)
  {
    forall k | 0 <= k < |h| - 1
      ensures Step(c, h[k], h[k + 1])
    {
      assert Enabled(c, h[k], steps[k]);
    }
  }

  /** The request is told 429: the queue is full, or its time is up while no slot is free. */
  predicate Refuses(c: Config, s: State, a: Action) {
    match a
    case Arrive(_, expired) => s.inflight >= c.maxInflight && (s.queued >= c.maxQueueSize || expired)
    case Resume(_, expired) => s.inflight >= c.maxInflight && expired
    case TimeOut(_, _) => true
    case _ => false
  }

  /** The request goes on to the application: it arrives, or looks again, and finds a slot free. */
  predicate Admits(c: Config, s: State, a: Action) {
    (a.Arrive? || a.Resume?) && s.inflight < c.maxInflight
  }

  function LogOf(s: State, q: Request): Log {
    if q in s.log then s.log[q] else Log(0, 0, 0)
  }

  /** What one step adds to the log of a request: its own admission, refusal or release, and nothing else. */
  lemma StepAnswers(c: Config, s: State, a: Action, q: Request)
    requires Enabled(c, s, a)
    ensures var was, now := LogOf(s, q), LogOf(Apply(c, s, a), q);
            && now.calls == was.calls + (if a.r == q && Admits(c, s, a) then 1 else 0)
            && now.rejects == was.rejects + (if a.r == q && Refuses(c, s, a) then 1 else 0)
            && now.releases == was.releases + (if a.r == q && a.Release? then 1 else 0)
  {
  }

  /** Where a step takes a request: a slot when it is admitted, the queue when it has to wait, and out otherwise. */
  lemma StepMoves(c: Config, s: State, a: Action)
    requires Invariant(c, s) && Enabled(c, s, a)
    ensures var t := Apply(c, s, a);
            && (a.r in t.holding <==> Admits(c, s, a))
            && (a.r in t.sleeping <==> (a.Arrive? || a.Resume?) && !Admits(c, s, a) && !Refuses(c, s, a))
            && a.r !in t.notified
  {
    assert LoggedAt(s, a.r);
  }

  /** `r` has left the gate without an answer. */
  predicate Unanswered(s: State, r: Request) {
    r in s.log && Absent(s, r) && s.log[r] == Log(0, 0, 0)
  }

  lemma OnlyCancelled(c: Config, s: State, a: Action, r: Request)
    requires Invariant(c, s) && Enabled(c, s, a) && Unanswered(Apply(c, s, a), r)
    ensures Unanswered(s, r) || (a.Cancel? && a.r == r)
  {
    assert LoggedAt(s, r) && LoggedAt(s, a.r);
  }

  lemma {:induction false} UnansweredWasCancelled(c: Config, h: seq<State>, steps: seq<Action>, k: nat, r: Request)
    requires Valid(c) && RunBy(c, h, steps) && k < |h| && Unanswered(h[k], r)
    ensures exists i :: 0 <= i < k && steps[i].Cancel? && steps[i].r == r
  {
    if k > 0 {
      RunByIsRun(c, h, steps);
      ReachableInvariant(c, h, k - 1);
      assert Enabled(c, h[k - 1], steps[k - 1]) && h[k - 1 + 1] == Apply(c, h[k - 1], steps[k - 1]);
      OnlyCancelled(c, h[k - 1], steps[k - 1], r);
      if Unanswered(h[k - 1], r) {
        UnansweredWasCancelled(c, h, steps, k - 1, r);
      }
    }
  }

  /** A request that arrived, is out of the gate and was not cancelled was served once, or told 429 once and never served. */
  lemma EverybodyAnswered(c: Config, h: seq<State>, steps: seq<Action>, k: nat, r: Request)
    requires Valid(c) && RunBy(c, h, steps) && k < |h| && r in h[k].log && Absent(h[k], r)
    requires forall i :: 0 <= i < k ==> !(steps[i].Cancel? && steps[i].r == r)
    ensures h[k].log[r] == Log(1, 1, 0) || h[k].log[r] == Log(0, 0, 1)
  {
    RunByIsRun(c, h, steps);
    ReachableInvariant(c, h, k);
    assert LoggedAt(h[k], r);
    if Unanswered(h[k], r) {
      UnansweredWasCancelled(c, h, steps, k, r);
    }
  }

  // ---------- Everybody gets through ----------

  /** Work left: every step that is not an arrival takes some of it away. */
  function Work(s: State): nat {
    2 * |s.sleeping| + 3 * |s.notified| + 2 * |s.holding|
  }

  lemma StepTakesWork(c: Config, s: State, a: Action)
    requires Valid(c) && Invariant(c, s) && Enabled(c, s, a) && !a.Arrive?
    ensures Work(Apply(c, s, a)) < Work(s)
  {
    assert LoggedAt(s, a.r);
    match a {
      case Resume(r, expired) =>
        SetMinus(s.notified, r);
        assert s.sleeping - {r} == s.sleeping;
      case TimeOut(r, wake) =>
        LeaveTakesWork(c, s, Reject(s, r), r, wake);
      case Cancel(r, wake) =>
        LeaveTakesWork(c, s, s, r, wake);
      case Release(r, wake) =>
        SetMinus(s.holding, r);
        if wake.Some? { SetMinus(s.sleeping, wake.value); }
    }
  }

  lemma LeaveTakesWork(c: Config, s: State, t: State, r: Request, wake: Option<Request>)
    requires Counted(c, s) && Leaves(s, r, wake) && (t == s || t == Reject(s, r))
    ensures Work(Notify(Dequeue(t, r), wake)) < Work(s)
  {
    var u := Dequeue(t, r);
    DequeueCounts(c, t, r);
    SetMinus(s.sleeping, r);
    SetMinus(s.notified, r);
    NotifyCounts(c, u, wake);
    if wake.Some? { SetMinus(u.sleeping, wake.value); }
  }

  /** States one step apart, none of the steps an arrival. */
  ghost predicate Draining(c: Config, h: seq<State>) {
    |h| > 0 && forall k :: 0 <= k < |h| - 1 ==> DrainStep(c, h[k], h[k + 1])
  }

  ghost predicate DrainStep(c: Config, s: State, t: State) {
    exists a: Action :: !a.Arrive? && Enabled(c, s, a) && t == Apply(c, s, a)
  }

  /** Without arrivals the gate takes at most `Work` steps. */
  lemma {:induction false} DrainingEnds(c: Config, h: seq<State>)
    requires Valid(c) && Draining(c, h) && Invariant(c, h[0])
    ensures |h| - 1 <= Work(h[0]) && Invariant(c, h[|h| - 1])
    ensures Work(h[|h| - 1]) + |h| - 1 <= Work(h[0])
  {
    if |h| > 1 {
      assert DrainStep(c, h[0], h[0 + 1]);
      var a: Action :| !a.Arrive? && Enabled(c, h[0], a) && h[1] == Apply(c, h[0], a);
      StepPreservesInvariant(c, h[0], a);
      StepTakesWork(c, h[0], a);
      forall k | 0 <= k < |h[1..]| - 1
        ensures DrainStep(c, h[1..][k], h[1..][k + 1])
      {
        assert DrainStep(c, h[k + 1], h[k + 1 + 1]);
      }
      DrainingEnds(c, h[1..]);
    }
  }

  /** As long as anybody is in the gate, a notified request can run on or a served one can release. */
  lemma NeverStuck(c: Config, s: State)
    requires Valid(c) && Invariant(c, s) && !(s.sleeping == {} && s.notified == {} && s.holding == {})
    ensures exists a: Action :: (a.Resume? || a.Release?) && Enabled(c, s, a)
  {
    if r :| r in s.notified {
      assert LoggedAt(s, r);
      assert Enabled(c, s, Resume(r, false));
    } else {
      var r :| r in s.holding;
      assert LoggedAt(s, r);
      var wake := if w :| w in s.sleeping then Some(w) else None;
      assert Enabled(c, s, Release(r, wake));
    }
  }

  /**
  No request waits forever: from any reachable state, arrivals stopping, every maximal run in which
  applications finish and notified requests run on ends, and ends with the gate empty.
  */
  lemma EverybodyGetsThrough(c: Config, g: seq<State>, h: seq<State>)
    requires Valid(c) && Run(c, g) && Draining(c, h) && h[0] == g[|g| - 1]
    requires forall a: Action :: (a.Resume? || a.Release?) ==> !Enabled(c, h[|h| - 1], a)
    ensures var last := h[|h| - 1]; last.sleeping == {} && last.notified == {} && last.holding == {}
    ensures |h| - 1 <= Work(h[0])
  {
    ReachableInvariant(c, g, |g| - 1);
    DrainingEnds(c, h);
    var last := h[|h| - 1];
    if !(last.sleeping == {} && last.notified == {} && last.holding == {}) {
      NeverStuck(c, last);
    }
  }

  // ---------- Without the forwarding ----------

  /** A notified waiter that leaves and takes its notification with it. */
  function LossyLeave(s: State, r: Request): State
    requires r in s.log
  {
    Dequeue(Reject(s, r), r)
  }

  /** That is harmless exactly when nobody sleeps, or more requests are notified than slots are free. */
  lemma LossyLeaveExact(c: Config, s: State, r: Request)
    requires Valid(c) && Invariant(c, s) && r in s.notified && r in s.log
    ensures NoneStranded(c, LossyLeave(s, r)) <==> s.sleeping == {} || c.maxInflight - s.inflight < |s.notified|
  {
    DequeueCounts(c, Reject(s, r), r);
    assert s.sleeping - {r} == s.sleeping;
  }

  /** And it can happen: one slot, two in the queue, one release, and the notified one times out. */
  lemma LossyLeaveStrands()
    ensures var c := Config(1, 2);
            exists h: seq<State> :: Run(c, h) && h[|h| - 1].notified == {1} && 1 in h[|h| - 1].log
                        && !NoneStranded(c, LossyLeave(h[|h| - 1], 1))
  {
    var c := Config(1, 2);
    var a0, a1, a2, a3 := Arrive(0, false), Arrive(1, false), Arrive(2, false), Release(0, Some(1));
    var s1 := Apply(c, INITIAL, a0);
    var s2 := Apply(c, s1, a1);
    var s3 := Apply(c, s2, a2);
    assert s3.sleeping == {1, 2};
    var s4 := Apply(c, s3, a3);
    assert s4.notified == {1} && s4.sleeping == {2};
    var h := [INITIAL, s1, s2, s3, s4];
    assert Step(c, h[0], h[1]) && Step(c, h[1], h[2]) && Step(c, h[2], h[3]) && Step(c, h[3], h[4]);
    assert LossyLeave(s4, 1).sleeping == {2};
    assert Run(c, h);
  }
}
