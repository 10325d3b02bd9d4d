/**
The archive queue: producers put items without waiting, one consumer task writes them in batches, and
`stop` joins the queue, then cancels the consumer. A step is what one task does between two awaits. `join`
waits on an event that is set when the count of unfinished items reaches zero, and does not look at the
count again when it is resumed.
*/
module ArchiveQueue {
  datatype Kind = Archive | Audit

  datatype Item = Item(kind: Kind, payload: int)

  datatype Config = Config(maxSize: nat, batchSize: nat)

  predicate Valid(c: Config) {
    c.maxSize >= 1 && c.batchSize >= 1
  }

  /** Where the consumer is: no task, created and not run yet, in the first `get`, filling, writing, or done. */
  datatype Phase = NoTask | Created | WaitingFirst | Filling | Writing | Finished

  /** Where `stop` is: not under way, waiting in `join`, or released from it and not resumed yet. */
  datatype Stop = Idle | Joining | Released

  /**
  `unfinished` is the queue's own count of items whose `task_done` is outstanding. The rest are the books:
  the items accepted; those taken from the queue whose batch is over, of which `skipped` were not wanted,
  `lost` were in a batch that raised and `abandoned` in one that was cancelled before it was handled; and
  how many had been accepted when `join` was last released.
  */
  datatype State = State(
    running: bool,
    phase: Phase,
    stop: Stop,
    queue: seq<Item>,
    batch: seq<Item>,
    unfinished: int,
    processed: nat,
    dropped: nat,
    accepted: seq<Item>,
    taken: seq<Item>,
    skipped: nat,
    lost: nat,
    abandoned: nat,
    mark: nat)

  const INITIAL := State(false, NoTask, Idle, [], [], 0, 0, 0, [], [], 0, 0, 0, 0)

  /** What writing a batch runs into: capture switched on or off, and which writer raises. */
  datatype Outcome = Outcome(capture: bool, archiveFails: bool, auditFails: bool)

  /** `EndStop`: `stop` resumes after `join`; `w` is where a batch being written is cancelled. */
  datatype Action =
    | Start
    | BeginStop
    | EndStop(w: Outcome)
    | Enqueue(item: Item)
    | FirstTest
    | TakeFirst
    | TakeMore
    | CloseBatch
    | Write(w: Outcome)

  // ---------- Steps ----------

  function CountKind(items: seq<Item>, kind: Kind): nat {
    if items == [] then 0 else (if items[0].kind == kind then 1 else 0) + CountKind(items[1..], kind)
  }

  /** How many items of a batch are written, skipped because capture is off, and lost to a raising writer. */
  function Written(batch: seq<Item>, w: Outcome): (nat, nat, nat) {
    var archives, audits := CountKind(batch, Archive), CountKind(batch, Audit);
    if archives > 0 && w.capture && w.archiveFails then (0, 0, archives + audits)
    else
      var (done, skipped) := if w.capture then (archives, 0) else (0, archives);
      if audits > 0 && w.auditFails then (done, skipped, audits) else (done + audits, skipped, 0)
  }

  /** The body of the consumer's loop, up to the last `task_done`. */
  function Handled(s: State, w: Outcome): State {
    var (done, skipped, lost) := Written(s.batch, w);
    s.(batch := [], taken := s.taken + s.batch, unfinished := s.unfinished - |s.batch|,
       processed := s.processed + done, skipped := s.skipped + skipped, lost := s.lost + lost)
  }

  function LoopTest(s: State): Phase {
    if s.running || s.queue != [] then WaitingFirst else Finished
  }

  /** The event of `join` is set. */
  function Release(s: State): State {
    if s.unfinished == 0 && s.stop == Joining then s.(stop := Released, mark := |s.accepted|) else s
  }

  /** The consumer task is cancelled: items it was still gathering are never reported as done. */
  function Cancelled(s: State, w: Outcome): State {
    match s.phase
    case Filling => s.(phase := Finished, batch := [], taken := s.taken + s.batch, abandoned := s.abandoned + |s.batch|)
    case Writing => Handled(s, w).(phase := Finished)
    case NoTask => s
    case _ => s.(phase := Finished)
  }

  predicate Enabled(c: Config, s: State, a: Action) {
    match a
    case Start => true
    case BeginStop => s.stop == Idle
    case EndStop(_) => s.stop == Released
    case Enqueue(_) => true
    case FirstTest => s.phase == Created
    case TakeFirst => s.phase == WaitingFirst && s.queue != []
    case TakeMore => s.phase == Filling && |s.batch| < c.batchSize && s.queue != []
    case CloseBatch => s.phase == Filling
    case Write(_) => s.phase == Writing
  }

  /** `stop` up to its first wait; with nothing unfinished it does not wait, and finds the consumer idle. */
  function Stopped(s: State): State {
    var t := s.(running := false);
    if s.phase == NoTask then t
    else if s.unfinished == 0 then t.(phase := Finished)
    else t.(stop := Joining)
  }

  function Apply(c: Config, s: State, a: Action): State
    requires Enabled(c, s, a)
  {
    match a
    case Start => if s.phase == NoTask || s.phase == Finished then s.(running := true, phase := Created) else s
    case BeginStop => Stopped(s)
    case EndStop(w) => Cancelled(s, w).(stop := Idle)
    case Enqueue(item) =>
      if |s.queue| < c.maxSize then
        s.(queue := s.queue + [item], unfinished := s.unfinished + 1, accepted := s.accepted + [item])
      else s.(dropped := s.dropped + 1)
    case FirstTest => s.(phase := LoopTest(s))
    case TakeFirst => s.(phase := Filling, batch := [s.queue[0]], queue := s.queue[1..])
    case TakeMore => s.(batch := s.batch + [s.queue[0]], queue := s.queue[1..])
    case CloseBatch => s.(phase := Writing)
    case Write(w) =>
      var t := Release(Handled(s, w));
      t.(phase := LoopTest(t))
  }

  ghost predicate Step(c: Config, s: State, t: State) {
    exists a: Action :: Enabled(c, s, a) && t == Apply(c, s, a)
  }

  ghost predicate Run(c: Config, h: seq<State>) {
    |h| > 0 && h[0] == INITIAL && forall k :: 0 <= k < |h| - 1 ==> Step(c, h[k], h[k + 1])
  }

  // ---------- Conservation ----------

  predicate Books(c: Config, s: State) {
    && s.accepted == s.taken + s.batch + s.queue
    && |s.taken| == s.processed + s.skipped + s.lost + s.abandoned
    && s.unfinished == |s.queue| + |s.batch| + s.abandoned
    && |s.queue| <= c.maxSize && |s.batch| <= c.batchSize
    && (s.phase == Filling || s.phase == Writing <==> s.batch != [])
  }

  /**
  A `join` under way has something to wait for. One that was released saw everything handled, and the
  consumer is done with just that unless it was started anew.
  */
  predicate StopBooks(s: State) {
    && (s.stop != Idle ==> s.phase != NoTask)
    && (s.stop == Joining ==> s.unfinished > 0)
    && (s.stop == Released ==>
          && s.abandoned == 0 && s.mark <= |s.taken|
          && if s.phase == Finished then s.mark == |s.taken| else s.running)
  }

  predicate Invariant(c: Config, s: State) {
    Books(c, s) && StopBooks(s)
  }

  lemma {:induction false} KindsCover(items: seq<Item>)
    ensures CountKind(items, Archive) + CountKind(items, Audit) == |items|
  {
    if items != [] {
      KindsCover(items[1..]);
    }
  }

  /** Every item of a batch is written, skipped or lost; a raising archive writer takes the batch's audits with it. */
  lemma WrittenConserves(batch: seq<Item>, w: Outcome)
    ensures var (done, skipped, lost) := Written(batch, w); done + skipped + lost == |batch|
    ensures w == Outcome(true, false, false) ==> Written(batch, w).0 == |batch|
    ensures CountKind(batch, Archive) > 0 && w.capture && w.archiveFails ==> Written(batch, w) == (0, 0, |batch|)
  {
    KindsCover(batch);
  }

  // ---------- What becomes of each item ----------

  datatype Fate = Processed | Skipped | Lost

  /** The archive writer is called for the batch and raises, so the audits are not reached. */
  predicate ArchivesRaise(batch: seq<Item>, w: Outcome) {
    w.capture && w.archiveFails && exists k :: 0 <= k < |batch| && batch[k].kind == Archive
  }

  /** Audits are written whether capture is on or off; archives only when it is on. */
  predicate FateIs(batch: seq<Item>, w: Outcome, item: Item, fate: Fate) {
    match fate
    case Skipped => item.kind == Archive && !w.capture
    case Processed =>
      if item.kind == Archive then w.capture && !w.archiveFails else !w.auditFails && !ArchivesRaise(batch, w)
    case Lost =>
      if item.kind == Archive then w.capture && w.archiveFails else w.auditFails || ArchivesRaise(batch, w)
  }

  lemma OneFate(batch: seq<Item>, w: Outcome, item: Item)
    ensures exists f :: FateIs(batch, w, item, f)
    ensures forall f, g :: FateIs(batch, w, item, f) && FateIs(batch, w, item, g) ==> f == g
  {
    assert FateIs(batch, w, item, Processed) || FateIs(batch, w, item, Skipped) || FateIs(batch, w, item, Lost);
  }

  /** The items of `batch`, from position `k` on, that meet `fate`, in batch order. */
  function Meeting(batch: seq<Item>, w: Outcome, fate: Fate, k: nat): (met: seq<Item>)
    requires k <= |batch|
    decreases |batch| - k
  {
    if k == |batch| then []
    else (if FateIs(batch, w, batch[k], fate) then [batch[k]] else []) + Meeting(batch, w, fate, k + 1)
  }

  /** All items of one kind in a batch share their fate. */
  lemma {:induction false} MeetingCounts(batch: seq<Item>, w: Outcome, fate: Fate, k: nat, archives: bool, audits: bool)
    requires k <= |batch|
    requires forall i :: 0 <= i < |batch| ==> (FateIs(batch, w, batch[i], fate) <==> if batch[i].kind == Archive then archives else audits)
    ensures |Meeting(batch, w, fate, k)|
            == (if archives then CountKind(batch[k..], Archive) else 0) + (if audits then CountKind(batch[k..], Audit) else 0)
    decreases |batch| - k
  {
    if k < |batch| {
      MeetingCounts(batch, w, fate, k + 1, archives, audits);
      assert batch[k..][1..] == batch[k + 1..];
    }
  }

  lemma {:induction false} CountedIsThere(batch: seq<Item>, kind: Kind)
    ensures CountKind(batch, kind) > 0 <==> exists k :: 0 <= k < |batch| && batch[k].kind == kind
  {
    if batch != [] {
      CountedIsThere(batch[1..], kind);
      if k :| 0 <= k < |batch| && batch[k].kind == kind {
        assert k > 0 ==> batch[1..][k - 1].kind == kind;
      }
      if k :| 0 <= k < |batch[1..]| && batch[1..][k].kind == kind {
        assert batch[k + 1].kind == kind;
      }
    }
  }

  /** The counts are those of the items that are processed, skipped and lost. */
  lemma WrittenExact(batch: seq<Item>, w: Outcome)
    ensures Written(batch, w)
            == (|Meeting(batch, w, Processed, 0)|, |Meeting(batch, w, Skipped, 0)|, |Meeting(batch, w, Lost, 0)|)
  {
    CountedIsThere(batch, Archive);
    assert batch[0..] == batch;
    var raise := ArchivesRaise(batch, w);
    MeetingCounts(batch, w, Processed, 0, w.capture && !w.archiveFails, !w.auditFails && !raise);
    MeetingCounts(batch, w, Skipped, 0, !w.capture, false);
    MeetingCounts(batch, w, Lost, 0, w.capture && w.archiveFails, w.auditFails || raise);
  }

  lemma HandledBooks(c: Config, s: State, w: Outcome)
    requires Books(c, s)
    ensures var t := Handled(s, w);
            && t.accepted == t.taken + t.batch + t.queue && |t.taken| == t.processed + t.skipped + t.lost + t.abandoned
            && t.unfinished == |t.queue| + |t.batch| + t.abandoned
  {
    WrittenConserves(s.batch, w);
    assert s.taken + s.batch + s.queue == (s.taken + s.batch) + [] + s.queue;
  }

  lemma WriteKeeps(c: Config, s: State, w: Outcome)
    requires Invariant(c, s) && s.phase == Writing
    ensures Invariant(c, Apply(c, s, Write(w)))
  {
    HandledBooks(c, s, w);
  }

  lemma EndStopKeeps(c: Config, s: State, w: Outcome)
    requires Invariant(c, s) && s.stop == Released
    ensures Invariant(c, Apply(c, s, EndStop(w)))
  {
    HandledBooks(c, s, w);
    assert s.taken + s.batch + s.queue == (s.taken + s.batch) + [] + s.queue;
  }

  lemma TakeKeeps(c: Config, s: State, a: Action)
    requires Valid(c) && Invariant(c, s) && (a == TakeFirst || a == TakeMore) && Enabled(c, s, a)
    ensures Invariant(c, Apply(c, s, a))
  {
    assert s.queue == [s.queue[0]] + s.queue[1..];
    assert s.taken + s.batch + s.queue == s.taken + (s.batch + [s.queue[0]]) + s.queue[1..];
  }

  lemma EnqueueKeeps(c: Config, s: State, item: Item)
    requires Invariant(c, s)
    ensures Invariant(c, Apply(c, s, Enqueue(item)))
  {
    if |s.queue| < c.maxSize {
      Regroup(s.taken, s.batch, s.queue, item);
    }
  }

  lemma Regroup(taken: seq<Item>, batch: seq<Item>, queue: seq<Item>, item: Item)
    ensures taken + batch + (queue + [item]) == (taken + batch + queue) + [item]
  {
  }

  lemma StepPreservesInvariant(c: Config, s: State, a: Action)
    requires Valid(c) && Invariant(c, s) && Enabled(c, s, a)
    ensures Invariant(c, Apply(c, s, a))
  {
    match a
    case EndStop(w) => EndStopKeeps(c, s, w);
    case Write(w) => WriteKeeps(c, s, w);
    case TakeFirst => TakeKeeps(c, s, a);
    case TakeMore => TakeKeeps(c, s, a);
    case Enqueue(item) => EnqueueKeeps(c, s, item);
    case _ =>
  }

  lemma {:induction false} ReachableInvariant(c: Config, h: seq<State>, k: nat)
    requires Valid(c) && Run(c, h) && k < |h|
    ensures Invariant(c, h[k])
  {
    if k > 0 {
      ReachableInvariant(c, h, k - 1);
      assert Step(c, h[k - 1], h[k - 1 + 1]);
      var a: Action :| Enabled(c, h[k - 1], a) && h[k] == Apply(c, h[k - 1], a);
      StepPreservesInvariant(c, h[k - 1], a);
    }
  }

  /**
  In every reachable state the accepted items are, in order, those whose batch is over, the current batch
  and the queue; the first were processed, skipped, lost or abandoned; and the join count is the rest plus
  the abandoned ones.
  */
  lemma Conservation(c: Config, h: seq<State>, k: nat)
    requires Valid(c) && Run(c, h) && k < |h|
    ensures h[k].accepted == h[k].taken + h[k].batch + h[k].queue
    ensures |h[k].accepted| == |h[k].queue| + |h[k].batch| + h[k].processed + h[k].skipped + h[k].lost + h[k].abandoned
    ensures h[k].unfinished == |h[k].accepted| - |h[k].taken| + h[k].abandoned
    ensures |h[k].queue| <= c.maxSize && |h[k].batch| <= c.batchSize
  {
    ReachableInvariant(c, h, k);
  }

  // ---------- When stop returns ----------

  /** Every accepted item went through a batch that was written, skipped or raised. */
  predicate AllHandled(s: State) {
    s.taken == s.accepted && s.abandoned == 0
  }

  /**
  When `stop` resumes from `join`, what it may leave behind was accepted after the count reached zero. With
  the consumer not started anew it leaves an accepted item unhandled if and only if one was accepted then.
  */
  lemma StopReturnExact(c: Config, h: seq<State>, k: nat, w: Outcome)
    requires Valid(c) && Run(c, h) && k < |h| && h[k].stop == Released
    ensures var t := Apply(c, h[k], EndStop(w));
            && (!AllHandled(t) ==> |h[k].accepted| > h[k].mark)
            && (h[k].phase == Finished ==> (AllHandled(t) <==> |h[k].accepted| == h[k].mark))
  {
    ReachableInvariant(c, h, k);
    TakenIsFront(c, h[k]);
  }

  lemma TakenIsFront(c: Config, s: State)
    requires Books(c, s)
    ensures |s.taken| == |s.accepted| <==> s.taken == s.accepted
    ensures |s.taken| == |s.accepted| ==> s.batch == [] && s.queue == []
  {
    assert s.taken == s.accepted[..|s.taken|];
  }

  /** A stop that does not wait, although there is a consumer, leaves nothing behind. */
  lemma StopAtOnce(c: Config, h: seq<State>, k: nat)
    requires Valid(c) && Run(c, h) && k < |h| && h[k].stop == Idle && h[k].phase != NoTask
    ensures Apply(c, h[k], BeginStop).stop == Idle <==> AllHandled(h[k])
  {
    ReachableInvariant(c, h, k);
    TakenIsFront(c, h[k]);
  }

  /** States one step apart, none of the steps an enqueue. */
  ghost predicate QuietStep(c: Config, s: State, t: State) {
    exists a: Action :: !a.Enqueue? && Enabled(c, s, a) && t == Apply(c, s, a)
  }

  ghost predicate Quiet(c: Config, h: seq<State>) {
    |h| > 0 && forall k :: 0 <= k < |h| - 1 ==> QuietStep(c, h[k], h[k + 1])
  }

  lemma {:induction false} QuietKeeps(c: Config, h: seq<State>, k: nat)
    requires Valid(c) && Quiet(c, h) && Invariant(c, h[0]) && h[0].stop != Released && k < |h|
    ensures Invariant(c, h[k]) && h[k].accepted == h[0].accepted
    ensures h[k].stop == Released ==> h[k].mark == |h[k].accepted|
  {
    if k > 0 {
      QuietKeeps(c, h, k - 1);
      assert QuietStep(c, h[k - 1], h[k - 1 + 1]);
      QuietStepKeeps(c, h[k - 1], h[k]);
    }
  }

  lemma QuietStepKeeps(c: Config, s: State, t: State)
    requires Valid(c) && Invariant(c, s) && QuietStep(c, s, t)
    ensures Invariant(c, t) && t.accepted == s.accepted
    ensures (s.stop == Released ==> s.mark == |s.accepted|) && t.stop == Released ==> t.mark == |t.accepted|
  {
    var a: Action :| !a.Enqueue? && Enabled(c, s, a) && t == Apply(c, s, a);
    StepPreservesInvariant(c, s, a);
    QuietMark(c, s, a);
  }

  lemma QuietMark(c: Config, s: State, a: Action)
    requires Enabled(c, s, a) && !a.Enqueue?
    ensures var t := Apply(c, s, a);
            && t.accepted == s.accepted
            && (t.stop == Released ==> t.mark == |t.accepted| || (s.stop == Released && t.mark == s.mark))
  {
  }

  /** With nothing enqueued since it began, `stop` returns only when every accepted item has been handled. */
  lemma StopWaitsForAll(c: Config, g: seq<State>, h: seq<State>, w: Outcome)
    requires Valid(c) && Run(c, g) && g[|g| - 1].stop == Idle && Quiet(c, h) && h[0] == Apply(c, g[|g| - 1], BeginStop)
    requires h[|h| - 1].stop == Released
    ensures var t := Apply(c, h[|h| - 1], EndStop(w)); AllHandled(t) && t.accepted == g[|g| - 1].accepted
  {
    ReachableInvariant(c, g, |g| - 1);
    StepPreservesInvariant(c, g[|g| - 1], BeginStop);
    QuietKeeps(c, h, |h| - 1);
    TakenIsFront(c, h[|h| - 1]);
  }

  // ---------- Stop comes to an end ----------

  predicate ConsumerStep(a: Action) {
    a.FirstTest? || a.TakeFirst? || a.TakeMore? || a.CloseBatch? || a.Write?
  }

  ghost predicate ConsumerCanMove(c: Config, s: State) {
    exists a: Action :: ConsumerStep(a) && Enabled(c, s, a)
  }

  /** The consumer is idle only in its first `get`, done, or without a task. */
  lemma ConsumerIdle(c: Config, s: State)
    requires Valid(c) && Invariant(c, s)
    ensures ConsumerCanMove(c, s) <==> !(s.phase == NoTask || s.phase == Finished || (s.phase == WaitingFirst && s.queue == []))
  {
    match s.phase
    case Created => assert ConsumerStep(FirstTest) && Enabled(c, s, FirstTest);
    case WaitingFirst => assert s.queue != [] ==> ConsumerStep(TakeFirst) && Enabled(c, s, TakeFirst);
    case Filling => assert ConsumerStep(CloseBatch) && Enabled(c, s, CloseBatch);
    case Writing =>
      var w := Write(Outcome(true, false, false));
      assert ConsumerStep(w) && Enabled(c, s, w);
    case _ =>
  }

  ghost predicate DrainStep(c: Config, s: State, t: State) {
    exists a: Action :: ConsumerStep(a) && Enabled(c, s, a) && t == Apply(c, s, a)
  }

  /** States one step apart, all of the steps the consumer's. */
  ghost predicate Draining(c: Config, h: seq<State>) {
    |h| > 0 && forall k :: 0 <= k < |h| - 1 ==> DrainStep(c, h[k], h[k + 1])
  }

  /** Work left for the consumer. */
  function Work(s: State): nat {
    6 * |s.queue| + 2 * |s.batch| +
    match s.phase
    case NoTask => 0
    case Finished => 0
    case WaitingFirst => 1
    case Created => 2
    case Writing => 1
    case Filling => 2
  }

  lemma ConsumerStepTakesWork(c: Config, s: State, a: Action)
    requires Valid(c) && Invariant(c, s) && ConsumerStep(a) && Enabled(c, s, a)
    ensures Work(Apply(c, s, a)) < Work(s)
  {
  }

  /** A stop that waits for a live consumer which abandoned nothing, or that was released with nothing left. */
  predicate Stopping(s: State) {
    && !s.running && s.abandoned == 0
    && (s.stop == Released || (s.stop == Joining && s.phase != Finished))
  }

  lemma StoppingStays(c: Config, s: State, a: Action)
    requires Valid(c) && Invariant(c, s) && Stopping(s) && ConsumerStep(a) && Enabled(c, s, a)
    ensures Stopping(Apply(c, s, a)) && Apply(c, s, a).accepted == s.accepted
  {
  }

  lemma {:induction false} DrainingEnds(c: Config, h: seq<State>)
    requires Valid(c) && Draining(c, h) && Invariant(c, h[0]) && Stopping(h[0])
    ensures Invariant(c, h[|h| - 1]) && Stopping(h[|h| - 1]) && h[|h| - 1].accepted == h[0].accepted
    ensures Work(h[|h| - 1]) + |h| - 1 <= Work(h[0])
  {
    if |h| > 1 {
      assert DrainStep(c, h[0], h[0 + 1]);
      var a: Action :| ConsumerStep(a) && Enabled(c, h[0], a) && h[1] == Apply(c, h[0], a);
      StepPreservesInvariant(c, h[0], a);
      StoppingStays(c, h[0], a);
      ConsumerStepTakesWork(c, h[0], a);
      forall k | 0 <= k < |h[1..]| - 1
        ensures DrainStep(c, h[1..][k], h[1..][k + 1])
      {
        assert DrainStep(c, h[k + 1], h[k + 1 + 1]);
      }
      DrainingEnds(c, h[1..]);
    }
  }

  /**
  A stop that waits for a live consumer which abandoned nothing comes to an end when nothing is enqueued:
  the consumer moves a bounded number of times, and when it cannot move any more `join` is released, every
  item accepted before the stop is handled, and `stop` can return.
  */
  lemma StopDrains(c: Config, g: seq<State>, h: seq<State>)
    requires Valid(c) && Run(c, g) && Draining(c, h) && h[0] == g[|g| - 1] && Stopping(h[0]) && h[0].stop == Joining
    requires !ConsumerCanMove(c, h[|h| - 1])
    ensures h[|h| - 1].stop == Released && h[|h| - 1].accepted == h[0].accepted && AllHandled(h[|h| - 1])
    ensures |h| - 1 <= Work(h[0])
  {
    ReachableInvariant(c, g, |g| - 1);
    DrainingEnds(c, h);
    ConsumerIdle(c, h[|h| - 1]);
    ReleasedByConsumer(c, h);
    TakenIsFront(c, h[|h| - 1]);
  }

  /** While the consumer alone moves, what it is released with is all there was. */
  lemma {:induction false} ReleasedByConsumer(c: Config, h: seq<State>)
    requires Valid(c) && Draining(c, h) && Invariant(c, h[0]) && Stopping(h[0])
    requires h[0].stop == Joining || h[0].queue == []
    ensures h[|h| - 1].stop == Joining || h[|h| - 1].queue == []
  {
    if |h| > 1 {
      assert DrainStep(c, h[0], h[0 + 1]);
      var a: Action :| ConsumerStep(a) && Enabled(c, h[0], a) && h[1] == Apply(c, h[0], a);
      StepPreservesInvariant(c, h[0], a);
      StoppingStays(c, h[0], a);
      forall k | 0 <= k < |h[1..]| - 1
        ensures DrainStep(c, h[1..][k], h[1..][k + 1])
      {
        assert DrainStep(c, h[k + 1], h[k + 1 + 1]);
      }
      ReleasedByConsumer(c, h[1..]);
    }
  }

  // ---------- Stop that never returns ----------

  /** A `join` that nothing but a new start can release, and not even that once items were abandoned. */
  predicate Blocked(s: State) {
    s.stop == Joining && (s.phase == Finished || s.abandoned > 0)
  }

  /** A later stop, the consumer being done, is blocked if and only if an accepted item was left unhandled. */
  lemma LaterStopBlocked(c: Config, h: seq<State>, k: nat)
    requires Valid(c) && Run(c, h) && k < |h| && h[k].stop == Idle && h[k].phase == Finished
    ensures Blocked(Apply(c, h[k], BeginStop)) <==> !AllHandled(h[k])
  {
    ReachableInvariant(c, h, k);
    TakenIsFront(c, h[k]);
  }

  /** Blocked means blocked: whatever anybody does, short of a start when nothing was abandoned. */
  lemma BlockedStays(c: Config, s: State, a: Action)
    requires Valid(c) && Invariant(c, s) && Blocked(s) && Enabled(c, s, a) && (a != Start || s.abandoned > 0)
    ensures Blocked(Apply(c, s, a))
  {
    StepPreservesInvariant(c, s, a);
  }

  /**
  A consumer that was started anew while `stop` was waiting and is gathering a batch when `stop` resumes loses
  that batch: it is never written, never reported done, and every later stop is blocked.
  */
  lemma GatheringIsLost(c: Config, h: seq<State>, k: nat, w: Outcome)
    requires Valid(c) && Run(c, h) && k < |h| && h[k].stop == Released && h[k].phase == Filling
    ensures var s, t := h[k], Apply(c, h[k], EndStop(w));
            && t.processed == s.processed && t.skipped == s.skipped && t.lost == s.lost
            && t.taken == s.taken + s.batch && t.unfinished == s.unfinished > 0 && t.abandoned == |s.batch| > 0
            && Blocked(Apply(c, t, BeginStop))
  {
    ReachableInvariant(c, h, k);
  }

  /** A run in which the last item of a stop is handled, another is accepted before `stop` resumes, and `stop` returns. */
  function LateRun(a: Item, b: Item): seq<State> {
    [ INITIAL,
      State(true, Created, Idle, [], [], 0, 0, 0, [], [], 0, 0, 0, 0),
      State(true, WaitingFirst, Idle, [], [], 0, 0, 0, [], [], 0, 0, 0, 0),
      State(true, WaitingFirst, Idle, [a], [], 1, 0, 0, [a], [], 0, 0, 0, 0),
      State(true, Filling, Idle, [], [a], 1, 0, 0, [a], [], 0, 0, 0, 0),
      State(true, Writing, Idle, [], [a], 1, 0, 0, [a], [], 0, 0, 0, 0),
      State(false, Writing, Joining, [], [a], 1, 0, 0, [a], [], 0, 0, 0, 0),
      State(false, Finished, Released, [], [], 0, 1, 0, [a], [a], 0, 0, 0, 1),
      State(false, Finished, Released, [b], [], 1, 1, 0, [a, b], [a], 0, 0, 0, 1),
      State(false, Finished, Idle, [b], [], 1, 1, 0, [a, b], [a], 0, 0, 0, 1) ]
  }

  lemma StepBy(c: Config, s: State, a: Action, t: State)
    requires Enabled(c, s, a) && t == Apply(c, s, a)
    ensures Step(c, s, t)
  {
  }

  lemma LateRunBegins(a: Item, b: Item)
    ensures var c, h := Config(1, 1), LateRun(a, b);
            Step(c, h[0], h[1]) && Step(c, h[1], h[2]) && Step(c, h[2], h[3])
  {
    var c, h := Config(1, 1), LateRun(a, b);
    StepBy(c, h[0], Start, h[1]);
    StepBy(c, h[1], FirstTest, h[2]);
    StepBy(c, h[2], Enqueue(a), h[3]);
  }

  lemma LateRunGoesOn(a: Item, b: Item)
    ensures var c, h := Config(1, 1), LateRun(a, b);
            Step(c, h[3], h[4]) && Step(c, h[4], h[5]) && Step(c, h[5], h[6])
  {
    var c, h := Config(1, 1), LateRun(a, b);
    StepBy(c, h[3], TakeFirst, h[4]);
    StepBy(c, h[4], CloseBatch, h[5]);
    StepBy(c, h[5], BeginStop, h[6]);
  }

  lemma LateRunEnds(a: Item, b: Item)
    ensures var c, h := Config(1, 1), LateRun(a, b);
            Step(c, h[6], h[7]) && Step(c, h[7], h[8]) && Step(c, h[8], h[9])
  {
    var c, h, w := Config(1, 1), LateRun(a, b), Outcome(true, false, false);
    WrittenConserves([a], w);
    StepBy(c, h[6], Write(w), h[7]);
    StepBy(c, h[7], Enqueue(b), h[8]);
    StepBy(c, h[8], EndStop(w), h[9]);
  }

  /** It happens: `stop` returns without an item that was accepted, and the next `stop` is blocked. */
  lemma LateItemLeft(a: Item, b: Item)
    ensures var c, h := Config(1, 1), LateRun(a, b);
            && Run(c, h) && h[8].stop == Released && h[9].stop == Idle && h[9].accepted == [a, b] && h[9].taken == [a]
            && Blocked(Apply(c, h[9], BeginStop))
  {
    LateRunBegins(a, b);
    LateRunGoesOn(a, b);
    LateRunEnds(a, b);
  }

  /** Stopping before a consumer was started returns at once and leaves the items where they are. */
  lemma StopWithoutTask(c: Config, item: Item)
    requires Valid(c)
    ensures var s := Apply(c, Apply(c, INITIAL, Enqueue(item)), BeginStop); s.stop == Idle && !AllHandled(s)
  {
  }

  // ---------- The object ----------

  /** The queue object: each method is one step of the protocol above. */
  class Queue {
    const maxSize: nat
    const batchSize: nat
    var running: bool
    var phase: Phase
    var items: seq<Item>
    var batch: seq<Item>
    var unfinished: int
    var processed: nat
    var dropped: nat
    ghost var stop: Stop
    ghost var accepted: seq<Item>
    ghost var taken: seq<Item>
    ghost var skipped: nat
    ghost var lost: nat
    ghost var abandoned: nat
    ghost var mark: nat

    function Limits(): Config {
      Config(maxSize, batchSize)
    }

    ghost function View(): State
      reads this
    {
      State(running, phase, stop, items, batch, unfinished, processed, dropped, accepted, taken, skipped, lost, abandoned, mark)
    }

    constructor (maxSize: int, batchSize: int)
      ensures View() == INITIAL && Valid(Limits())
      ensures this.maxSize == (if maxSize < 1 then 1 else maxSize) && this.batchSize == (if batchSize < 1 then 1 else batchSize)
    {
      this.maxSize := if maxSize < 1 then 1 else maxSize;
      this.batchSize := if batchSize < 1 then 1 else batchSize;
      running, phase, items, batch, unfinished, processed, dropped := false, NoTask, [], [], 0, 0, 0;
      stop, accepted, taken, skipped, lost, abandoned, mark := Idle, [], [], 0, 0, 0, 0;
    }

    /** `start`: nothing happens while the consumer lives. */
    method StartConsumer()
      modifies this`running, this`phase
      ensures View() == Apply(Limits(), old(View()), Start)
      ensures if old(phase) == NoTask || old(phase) == Finished then running && phase == Created else View() == old(View())
    {
      if phase == NoTask || phase == Finished {
        running, phase := true, Created;
      }
    }

    /** `stop`, up to the wait in `join` or, when there is nothing to wait for, to its end. */
    method RequestStop() returns (waits: bool)
      requires stop == Idle
      modifies this`running, this`phase, this`stop
      ensures View() == Apply(Limits(), old(View()), BeginStop)
      ensures waits <==> old(phase) != NoTask && old(unfinished) != 0
    {
      running := false;
      waits := phase != NoTask && unfinished != 0;
      if waits {
        stop := Joining;
      } else if phase != NoTask {
        phase := Finished;
      }
    }

    /** `_enqueue`: true exactly when the item was accepted. */
    method Put(item: Item) returns (ok: bool)
      modifies this`items, this`unfinished, this`accepted, this`dropped
      ensures View() == Apply(Limits(), old(View()), Enqueue(item))
      ensures ok <==> accepted == old(accepted) + [item]
      ensures ok <==> |old(items)| < maxSize
      ensures if ok then items == old(items) + [item] && dropped == old(dropped) else items == old(items) && dropped == old(dropped) + 1
    {
      ok := |items| < maxSize;
      if ok {
        items, unfinished := items + [item], unfinished + 1;
        accepted := accepted + [item];
      } else {
        dropped := dropped + 1;
      }
    }

    /** The first `get` of `_next_batch`. */
    method GetFirst()
      requires phase == WaitingFirst && items != []
      modifies this`batch, this`items, this`phase
      ensures View() == Apply(Limits(), old(View()), TakeFirst) && batch + items == old(items) && |batch| == 1
    {
      batch, items, phase := [items[0]], items[1..], Filling;
    }

    /**
    The loop of `_next_batch` when nobody else runs in between: it takes what is there until the batch is
    full or the queue is empty.
    */
    method Fill()
      requires Invariant(Limits(), View()) && phase == Filling
      modifies this`batch, this`items
      ensures Invariant(Limits(), View()) && batch + items == old(batch + items)
      ensures |batch| == batchSize || items == []
    {
      while |batch| < batchSize && items != []
        invariant Invariant(Limits(), View()) && batch + items == old(batch + items)
        decreases |items|
      {
        TakeKeeps(Limits(), View(), TakeMore);
        assert items == [items[0]] + items[1..];
        batch, items := batch + [items[0]], items[1..];
      }
    }

    /** `task_done` for each item of a batch. */
    method ReportDone(n: nat)
      modifies this`unfinished
      ensures unfinished == old(unfinished) - n
    {
      for k := 0 to n
        invariant unfinished == old(unfinished) - k
      {
        unfinished := unfinished - 1;
      }
    }

    /** The two writers, in their `try`. */
    method WriteItems(w: Outcome)
      modifies this`processed, this`skipped, this`lost
      ensures var (done, s, l) := Written(batch, w);
              processed == old(processed) + done && skipped == old(skipped) + s && lost == old(lost) + l
      ensures processed == old(processed) + |Meeting(batch, w, Processed, 0)|
    {
      WrittenExact(batch, w);
      var archives, audits := CountKind(batch, Archive), CountKind(batch, Audit);
      ghost var (d, s, l) := Written(batch, w);
      skipped, lost := skipped + s, lost + l;
      if archives > 0 && w.capture {
        if w.archiveFails {
          return;
        }
        processed := processed + archives;
      }
      if audits > 0 && !w.auditFails {
        processed := processed + audits;
      }
    }

    /** Write a batch, and report every item of it as done. */
    method HandleBatch(w: Outcome)
      modifies this
      ensures View() == Handled(old(View()), w)
    {
      WriteItems(w);
      ReportDone(|batch|);
      taken, batch := taken + batch, [];
    }

    /** The consumer's loop after a batch was gathered, to the loop test. */
    method WriteBatch(w: Outcome)
      requires phase == Writing
      modifies this
      ensures View() == Apply(Limits(), old(View()), Write(w))
    {
      HandleBatch(w);
      if unfinished == 0 && stop == Joining {
        stop, mark := Released, |accepted|;
      }
      phase := if running || items != [] then WaitingFirst else Finished;
    }
  }
}
