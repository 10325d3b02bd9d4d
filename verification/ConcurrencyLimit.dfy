/**
The middleware object behind the gate: its two counters and the condition's waiters, oldest first. A method
is what one request does between taking the lock and giving it back; each is a step of the protocol in
Gate.dfy, whose `notify(1)` it resolves in favour of the oldest waiter.
*/
module ConcurrencyLimit {
  import opened Options
  import opened Gate

  datatype Outcome = Slot | Waiting | QueueFull | QueueTimeout

  function Elements(s: seq<Request>): set<Request> {
    set r | r in s
  }

  predicate Distinct(s: seq<Request>) {
    forall i, j :: 0 <= i < j < |s| ==> s[i] != s[j]
  }

  function Remove(s: seq<Request>, r: Request): (t: seq<Request>)
    ensures forall q :: q in t <==> q in s && q != r
    ensures Distinct(s) ==> Distinct(t)
  {
    if s == [] then []
    else
      assert s == [s[0]] + s[1..];
      var t := Remove(s[1..], r);
      assert forall i :: 0 <= i < |t| ==> t[i] in t;
      if s[0] == r then t else [s[0]] + t
  }

  /**
  Every method asks for the protocol's invariant and says which step it is, so `StepPreservesInvariant`
  gives the invariant back to the caller.
  */
  class Middleware {
    const maxInflight: int
    const maxQueueSize: int
    var inflight: int
    var queued: int
    var waiters: seq<Request>
    ghost var notified: set<Request>
    ghost var holding: set<Request>
    ghost var log: map<Request, Log>

    ghost function View(): State
      reads this
    {
      State(inflight, queued, Elements(waiters), notified, holding, log)
    }

    function Limits(): Config {
      Config(maxInflight, maxQueueSize)
    }

    ghost predicate Valid()
      reads this
    {
      Gate.Valid(Limits()) && Distinct(waiters)
    }

    constructor (maxInflight: int, maxQueueSize: int)
      ensures Valid() && View() == INITIAL && Invariant(Limits(), View())
      ensures this.maxInflight == (if maxInflight < 1 then 1 else maxInflight)
      ensures this.maxQueueSize == (if maxQueueSize < 0 then 0 else maxQueueSize)
    {
      this.maxInflight := if maxInflight < 1 then 1 else maxInflight;
      this.maxQueueSize := if maxQueueSize < 0 then 0 else maxQueueSize;
      inflight, queued, waiters := 0, 0, [];
      notified, holding, log := {}, {}, map[];
      new;
      assert forall r :: LoggedAt(INITIAL, r);
    }

    /** The oldest waiter, whom `notify(1)` wakes. */
    function Oldest(s: seq<Request>): (wake: Option<Request>)
      ensures Picks(Elements(s), wake)
    {
      if s == [] then None
      else
        assert s[0] in Elements(s);
        Some(s[0])
    }

    method NotifyOne()
      requires Distinct(waiters)
      modifies this`waiters, this`notified
      ensures Distinct(waiters) && View() == Notify(old(View()), Oldest(old(waiters)))
      ensures if old(waiters) == [] then waiters == [] && notified == old(notified)
              else waiters == old(waiters)[1..] && notified == old(notified) + {old(waiters)[0]}
    {
      if waiters != [] {
        notified := notified + {waiters[0]};
        assert waiters == [waiters[0]] + waiters[1..];
        waiters := waiters[1..];
      }
    }

    /** `_acquire_slot` from the start to its first wait, if it gets that far. */
    method Enter(r: Request, expired: bool) returns (outcome: Outcome)
      requires Valid() && Invariant(Limits(), View()) && r !in log
      modifies this
      ensures Enabled(Limits(), old(View()), Arrive(r, expired))
      ensures Valid() && View() == Apply(Limits(), old(View()), Arrive(r, expired))
      ensures outcome == Slot <==> old(inflight) < maxInflight
      ensures outcome == QueueFull <==> old(inflight) >= maxInflight && old(queued) >= maxQueueSize
      ensures outcome == QueueTimeout <==> old(inflight) >= maxInflight && old(queued) < maxQueueSize && expired
      ensures waiters == if outcome == Waiting then old(waiters) + [r] else old(waiters)
    {
      assert LoggedAt(View(), r);
      ArriveCases(Limits(), View(), r, expired);
      if inflight >= maxInflight {
        if queued >= maxQueueSize {
          log := log[r := Log(0, 0, 1)];
          outcome := QueueFull;
        } else {
          queued := queued + 1;
          if expired {
            log := log[r := Log(0, 0, 1)];
            queued := Clamped(queued - 1);
            outcome := QueueTimeout;
          } else {
            log := log[r := Log(0, 0, 0)];
            Appended(waiters, r);
            waiters := waiters + [r];
            outcome := Waiting;
          }
        }
      } else {
        inflight := inflight + 1;
        holding := holding + {r};
        log := log[r := Log(1, 0, 0)];
        outcome := Slot;
      }
    }

    /** A notified request takes the lock again and looks. */
    method Wake(r: Request, expired: bool) returns (outcome: Outcome)
      requires Valid() && Invariant(Limits(), View()) && r in notified
      modifies this
      ensures Enabled(Limits(), old(View()), Resume(r, expired))
      ensures Valid() && View() == Apply(Limits(), old(View()), Resume(r, expired)) && outcome != QueueFull
      ensures outcome == Slot <==> old(inflight) < maxInflight
      ensures outcome == QueueTimeout <==> old(inflight) >= maxInflight && expired
      ensures waiters == if outcome == Waiting then old(waiters) + [r] else old(waiters)
    {
      assert LoggedAt(View(), r);
      ResumeCases(Limits(), View(), r, expired);
      notified := notified - {r};
      if inflight >= maxInflight {
        if expired {
          log := log[r := Log(0, 0, 1)];
          queued := Clamped(queued - 1);
          outcome := QueueTimeout;
        } else {
          Appended(waiters, r);
          waiters := waiters + [r];
          outcome := Waiting;
        }
      } else {
        queued := Clamped(queued - 1);
        inflight := inflight + 1;
        holding := holding + {r};
        log := log[r := Log(1, 0, 0)];
        outcome := Slot;
      }
    }

    /** The wait times out: the request is rejected, and a notification it had goes to the oldest waiter. */
    method GiveUp(r: Request)
      requires Valid() && Invariant(Limits(), View()) && (r in waiters || r in notified)
      modifies this
      ensures var a := TimeOut(r, if r in old(waiters) then None else Oldest(old(waiters)));
              Enabled(Limits(), old(View()), a) && View() == Apply(Limits(), old(View()), a)
      ensures Valid() && r in old(log) && r in log && log[r].rejects == old(log[r].rejects) + 1
    {
      var passOn := r !in waiters;
      TimeOutCases(Limits(), View(), r, if passOn then Oldest(waiters) else None);
      waiters := Remove(waiters, r);
      notified := notified - {r};
      log := log[r := log[r].(rejects := log[r].rejects + 1)];
      queued := Clamped(queued - 1);
      if passOn {
        RemoveAbsent(old(waiters), r);
        NotifyOne();
      }
    }

    /** The `finally` after the application: the slot is freed and the oldest waiter notified. */
    method Exit(r: Request)
      requires Valid() && Invariant(Limits(), View()) && r in holding
      modifies this
      ensures Enabled(Limits(), old(View()), Release(r, Oldest(old(waiters))))
      ensures Valid() && View() == Apply(Limits(), old(View()), Release(r, Oldest(old(waiters))))
      ensures waiters == (if old(waiters) == [] then [] else old(waiters)[1..]) && (old(waiters) != [] ==> old(waiters)[0] in notified)
    {
      assert LoggedAt(View(), r);
      inflight := Clamped(inflight - 1);
      holding := holding - {r};
      log := log[r := Log(1, 1, 0)];
      NotifyOne();
    }
  }

  lemma Appended(s: seq<Request>, r: Request)
    ensures Elements(s + [r]) == Elements(s) + {r}
    ensures Distinct(s) && r !in s ==> Distinct(s + [r])
  {
  }

  /** The four ways an arrival can go. */
  lemma ArriveCases(c: Config, s: State, r: Request, expired: bool)
    requires Gate.Valid(c) && LoggedAt(s, r) && r !in s.log
    ensures Absent(s, r)
    ensures Apply(c, s, Arrive(r, expired)) ==
            if s.inflight < c.maxInflight then
              s.(inflight := s.inflight + 1, holding := s.holding + {r}, log := s.log[r := Log(1, 0, 0)])
            else if s.queued >= c.maxQueueSize then s.(log := s.log[r := Log(0, 0, 1)])
            else if expired then s.(queued := Clamped(s.queued + 1 - 1), log := s.log[r := Log(0, 0, 1)])
            else s.(queued := s.queued + 1, sleeping := s.sleeping + {r}, log := s.log[r := Log(0, 0, 0)])
  {
    assert s.sleeping - {r} == s.sleeping && s.notified - {r} == s.notified;
    assert s.log[r := Log(0, 0, 0)][r := Log(0, 0, 1)] == s.log[r := Log(0, 0, 1)];
    assert s.log[r := Log(0, 0, 0)][r := Log(1, 0, 0)] == s.log[r := Log(1, 0, 0)];
  }

  /** A waiter that times out is rejected and leaves the queue; a notified one wakes another. */
  lemma TimeOutCases(c: Config, s: State, r: Request, wake: Option<Request>)
    requires Gate.Valid(c) && Invariant(c, s) && (r in s.sleeping || r in s.notified)
    requires if r in s.sleeping then wake == None else Picks(s.sleeping, wake)
    ensures r in s.log && Enabled(c, s, TimeOut(r, wake)) && (r !in s.sleeping ==> s.sleeping - {r} == s.sleeping)
    ensures Apply(c, s, TimeOut(r, wake)) ==
            Notify(s.(queued := Clamped(s.queued - 1), sleeping := s.sleeping - {r}, notified := s.notified - {r},
                      log := s.log[r := s.log[r].(rejects := s.log[r].rejects + 1)]), wake)
  {
    assert LoggedAt(s, r);
    if r !in s.sleeping {
      assert s.sleeping - {r} == s.sleeping;
    }
  }

  /** The three ways a wake-up can go. */
  lemma ResumeCases(c: Config, s: State, r: Request, expired: bool)
    requires Gate.Valid(c) && Invariant(c, s) && r in s.notified
    ensures Enabled(c, s, Resume(r, expired)) && r !in s.sleeping
    ensures Apply(c, s, Resume(r, expired)) ==
            var t := s.(notified := s.notified - {r});
            if s.inflight < c.maxInflight then
              t.(queued := Clamped(s.queued - 1), inflight := s.inflight + 1, holding := s.holding + {r},
                 log := s.log[r := Log(1, 0, 0)])
            else if expired then t.(queued := Clamped(s.queued - 1), log := s.log[r := Log(0, 0, 1)])
            else t.(sleeping := s.sleeping + {r})
  {
    assert LoggedAt(s, r);
    assert s.sleeping - {r} == s.sleeping;
  }

  lemma {:induction false} RemoveAbsent(s: seq<Request>, r: Request)
    requires r !in s
    ensures Remove(s, r) == s
  {
    if s != [] {
      RemoveAbsent(s[1..], r);
    }
  }
}
