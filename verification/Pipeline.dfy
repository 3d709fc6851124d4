/** The pipelined parallel reader as a step system: one producer, at least one worker, a bounded task channel and a
    bounded error channel that drops what does not fit. */
module Pipeline {
  import opened Bytes
  import opened Windows
  import opened Slices
  import opened ParallelPlan
  import Splitter

  /** The input, the destination's size, which byte ranges parse, the number of workers, and the batches. */
  datatype Setup = Setup(inner: bytes, room: nat, accepts: bytes -> bool, workers: nat, scan: Scan)

  datatype Task = Task(chunks: seq<Splitter.Chunk>, base: nat)

  datatype Worker = Idle | Busy(task: Task, i: nat) | Gone

  /** The producer scans, waits to send a task, has left its loop, has closed the task channel, or has returned. */
  datatype Producer = Scanning | Sending(task: Task, next: nat) | Leaving | Waiting | Returned(ok: bool)

  /** `done` is what has been sent, `queue` the task channel, `errors` the number of errors in the error channel,
      `fatal` the producer's own error; `slots` says which range each written slot was decoded from, and `failed`
      remembers that some worker has failed. */
  datatype State = State(producer: Producer, off: nat, done: seq<Splitter.Chunk>, queue: seq<Task>, closed: bool,
                         workers: seq<Worker>, errors: nat, fatal: bool, slots: map<nat, Splitter.Chunk>, failed: bool)

  ghost predicate Sound(c: Setup) {
    && c.workers > 0
    && (forall off: nat, done: seq<Splitter.Chunk> :: c.scan(off, done).Batch? ==> GoodBatch(c, off, done))
  }

  /** A batch lies between its window's start and the next one, and its elements fit the destination. */
  ghost predicate GoodBatch(c: Setup, off: nat, done: seq<Splitter.Chunk>)
    requires c.scan(off, done).Batch?
  {
    var b := c.scan(off, done);
    off < b.next <= |c.inner| && |b.chunks| <= b.next - off && |done| + |b.chunks| <= c.room
  }

  function Initial(c: Setup): State {
    State(Scanning, 0, [], [], false, seq(c.workers, _ => Idle), 0, false, map[], false)
  }

  datatype Step =
    | TakeError | LeaveLoop | Scan | Send | Close | Return
    | Take(w: nat) | Parse(w: nat) | Fail(w: nat) | Finish(w: nat) | Quit(w: nat)

  function IsBusy(s: State, w: nat): bool {
    w < |s.workers| && s.workers[w].Busy?
  }

  /** The element that worker `w` parses next. */
  function Current(s: State, w: nat): Splitter.Chunk
    requires IsBusy(s, w) && s.workers[w].i < |s.workers[w].task.chunks|
  {
    s.workers[w].task.chunks[s.workers[w].i]
  }

  ghost predicate Enabled(c: Setup, s: State, step: Step) {
    match step
    case TakeError => s.producer.Scanning? && s.off < |c.inner| && s.errors > 0
    case LeaveLoop => s.producer.Scanning? && s.off >= |c.inner|
    case Scan => s.producer.Scanning? && s.off < |c.inner| && s.errors == 0
    case Send => s.producer.Sending? && |s.queue| < 2 * c.workers
    case Close => s.producer.Leaving?
    case Return => s.producer.Waiting? && forall w | 0 <= w < |s.workers| :: s.workers[w].Gone?
    case Take(w) => w < |s.workers| && s.workers[w].Idle? && |s.queue| > 0
    case Parse(w) => IsBusy(s, w) && s.workers[w].i < |s.workers[w].task.chunks| &&
      c.accepts(Piece(c.inner, Current(s, w)))
    case Fail(w) => IsBusy(s, w) && s.workers[w].i < |s.workers[w].task.chunks| &&
      !c.accepts(Piece(c.inner, Current(s, w)))
    case Finish(w) => IsBusy(s, w) && s.workers[w].i >= |s.workers[w].task.chunks|
    case Quit(w) => w < |s.workers| && s.workers[w].Idle? && |s.queue| == 0 && s.closed
  }

  /** The producer's batch: it leaves the loop, records its error, skips a batch without elements, or has a task. */
  ghost function AfterScan(c: Setup, s: State): State {
    match c.scan(s.off, s.done)
    case Leave => s.(producer := Leaving)
    case Stop(_) => s.(producer := Leaving, fatal := true)
    case Batch(next, chunks) =>
      if |chunks| == 0 then s.(off := next) else s.(producer := Sending(Task(chunks, |s.done|), next))
  }

  ghost function Do(c: Setup, s: State, step: Step): State
    requires Enabled(c, s, step)
  {
    match step
    case TakeError => s.(producer := Leaving, fatal := true, errors := s.errors - 1)
    case LeaveLoop => s.(producer := Leaving)
    case Scan => AfterScan(c, s)
    case Send =>
      s.(producer := Scanning, off := s.producer.next, done := s.done + s.producer.task.chunks, queue :=
        s.queue + [s.producer.task])
    case Close => s.(producer := Waiting, closed := true)
    case Return =>
      s.(producer := Returned(!s.fatal && Closes(c.inner, EndOf(s.done)) && s.errors == 0))
    case Take(w) => s.(workers := s.workers[w := Busy(s.queue[0], 0)], queue := s.queue[1..])
    case Parse(w) =>
      var b := s.workers[w];
      s.(workers := s.workers[w := Busy(b.task, b.i + 1)], slots := s.slots[b.task.base + b.i := Current(s, w)])
    case Fail(w) =>
      // the send does not block: a full channel drops the error
      s.(workers := s.workers[w := Idle], errors := if s.errors < c.workers then s.errors + 1
        else s.errors, failed := true)
    case Finish(w) => s.(workers := s.workers[w := Idle])
    case Quit(w) => s.(workers := s.workers[w := Gone])
  }

  // ----- what holds in every reachable state -----

  /** A task's elements are the sent ranges at its slots. */
  predicate TaskOk(done: seq<Splitter.Chunk>, t: Task) {
    0 < |t.chunks| && t.base + |t.chunks| <= |done| && forall i | 0 <= i < |t.chunks| :: done[t.base + i] == t.chunks[i]
  }

  predicate QueueOk(done: seq<Splitter.Chunk>, queue: seq<Task>) {
    forall j | 0 <= j < |queue| :: TaskOk(done, queue[j])
  }

  predicate WorkerOk(done: seq<Splitter.Chunk>, v: Worker) {
    v.Busy? ==> TaskOk(done, v.task) && v.i <= |v.task.chunks|
  }

  predicate WorkersOk(done: seq<Splitter.Chunk>, workers: seq<Worker>) {
    forall w | 0 <= w < |workers| :: WorkerOk(done, workers[w])
  }

  /** Slot `k` is the business of this worker from now on. */
  predicate Holds(v: Worker, k: nat) {
    v.Busy? && v.task.base + v.i <= k < v.task.base + |v.task.chunks|
  }

  predicate Covers(t: Task, k: nat) {
    t.base <= k < t.base + |t.chunks|
  }

  /** Where slot `k` stands: written, or with a worker, or in the channel. */
  predicate Accounted(s: State, k: nat) {
    || k in s.slots
    || (exists w :: 0 <= w < |s.workers| && Holds(s.workers[w], k))
    || (exists j :: 0 <= j < |s.queue| && Covers(s.queue[j], k))
  }

  /** No sent element is lost while no worker has failed. */
  predicate NothingLost(s: State) {
    !s.failed ==> forall k: nat | k < |s.done| :: Accounted(s, k)
  }

  /** A written slot holds its own element, which parses. */
  ghost predicate SlotHolds(c: Setup, done: seq<Splitter.Chunk>, slots: map<nat, Splitter.Chunk>, k: nat) {
    k in slots ==> k < |done| && slots[k] == done[k] && c.accepts(Piece(c.inner, done[k]))
  }

  ghost predicate SlotsHold(c: Setup, s: State) {
    forall k: nat :: SlotHolds(c, s.done, s.slots, k)
  }

  /** The error channel has an error unless the producer took it; and only a sent element that does not parse puts one
      there. */
  ghost predicate ErrorsOk(c: Setup, s: State) {
    && (s.failed ==> s.errors > 0 || s.fatal) && (s.errors > 0 ==> s.failed)
    && (s.failed ==> exists k :: 0 <= k < |s.done| && Rejects(c, s.done, k))
  }

  ghost predicate Rejects(c: Setup, done: seq<Splitter.Chunk>, k: nat)
    requires k < |done|
  {
    !c.accepts(Piece(c.inner, done[k]))
  }

  ghost function Whole(c: Setup): Plan {
    PlanFrom(c.inner, 0, [], c.scan)
  }

  /** The producer is on the plan, or has a reason to leave it. */
  ghost predicate OnPlan(c: Setup, s: State) {
    match s.producer
    case Scanning => !s.fatal && s.off <= |c.inner| && Whole(c) == PlanFrom(c.inner, s.off, s.done, c.scan)
    case Sending(task, next) =>
      && !s.fatal && s.off < |c.inner| && c.scan(s.off, s.done) == Batch(next, task.chunks) && |task.chunks| > 0
      && task.base == |s.done| && s.off < next <= |c.inner|
      && Whole(c) == PlanFrom(c.inner, next, s.done + task.chunks, c.scan)
    case _ => if s.fatal then Whole(c).Broken? || s.failed else Whole(c) == Tail(c.inner, s.done)
  }

  /** What has been sent is a beginning of what the plan sends. */
  ghost predicate SentIsPlanned(c: Setup, s: State) {
    Whole(c).Complete? ==> s.done <= Whole(c).ranges
  }

  predicate ChannelsOk(c: Setup, s: State) {
    && |s.workers| == c.workers && |s.queue| <= 2 * c.workers
    && (s.closed <==> s.producer.Waiting? || s.producer.Returned?)
    && (forall w | 0 <= w < |s.workers| :: s.workers[w].Gone? ==> s.closed && |s.queue| == 0)
  }

  ghost predicate ResultOk(c: Setup, s: State) {
    s.producer.Returned? ==>
      && s.producer.ok == (!s.fatal && Closes(c.inner, EndOf(s.done)) && s.errors == 0)
      && forall w | 0 <= w < |s.workers| :: s.workers[w].Gone?
  }

  ghost predicate Inv(c: Setup, s: State) {
    && QueueOk(s.done, s.queue) && WorkersOk(s.done, s.workers) && NothingLost(s) && SlotsHold(c, s) && ErrorsOk(c, s)
    && OnPlan(c, s) && SentIsPlanned(c, s) && ChannelsOk(c, s) && ResultOk(c, s)
  }

  lemma {:induction false} InitialInv(c: Setup)
    requires Sound(c)
    ensures Inv(c, Initial(c))
  {
  }

  lemma {:induction false} QueueKept(c: Setup, s: State, step: Step)
    requires Inv(c, s) && Enabled(c, s, step)
    ensures var t := Do(c, s, step); QueueOk(t.done, t.queue) && WorkersOk(t.done, t.workers)
  {
    var t := Do(c, s, step);
    forall j | 0 <= j < |t.queue| ensures TaskOk(t.done, t.queue[j]) {
      if step.Take? {
        assert t.queue[j] == s.queue[j + 1];
      } else if j < |s.queue| {
        TaskStays(s.done, t.done, s.queue[j]);
      }
    }
    forall w | 0 <= w < |t.workers| ensures WorkerOk(t.done, t.workers[w]) {
      assert WorkerOk(s.done, s.workers[w]);
      if s.workers[w].Busy? {
        TaskStays(s.done, t.done, s.workers[w].task);
      }
    }
  }

  /** Sending more does not change what has been sent. */
  lemma {:induction false} TaskStays(done: seq<Splitter.Chunk>, more: seq<Splitter.Chunk>, t: Task)
    requires TaskOk(done, t) && done <= more
    ensures TaskOk(more, t)
  {
  }

  lemma {:induction false} AccountedKept(c: Setup, s: State, step: Step, k: nat)
    requires Inv(c, s) && Enabled(c, s, step) && !step.Fail? && !step.Send? && Accounted(s, k) && k < |s.done|
    ensures Accounted(Do(c, s, step), k)
  {
    var t := Do(c, s, step);
    if k in s.slots {
    } else if w :| 0 <= w < |s.workers| && Holds(s.workers[w], k) {
      assert Holds(t.workers[w], k) || k in t.slots;
    } else {
      var j :| 0 <= j < |s.queue| && Covers(s.queue[j], k);
      if step.Take? {
        if j == 0 {
          assert Holds(t.workers[step.w], k);
        } else {
          assert Covers(t.queue[j - 1], k);
        }
      } else {
        assert Covers(t.queue[j], k);
      }
    }
  }

  lemma {:induction false} NothingLostKept(c: Setup, s: State, step: Step)
    requires Inv(c, s) && Enabled(c, s, step)
    ensures NothingLost(Do(c, s, step))
  {
    var t := Do(c, s, step);
    if !t.failed {
      forall k: nat | k < |t.done| ensures Accounted(t, k) {
        if step.Send? {
          if k < |s.done| {
            SendKeeps(c, s, k);
          } else {
            assert Covers(t.queue[|s.queue|], k);
          }
        } else {
          AccountedKept(c, s, step, k);
        }
      }
    }
  }

  lemma {:induction false} SendKeeps(c: Setup, s: State, k: nat)
    requires Inv(c, s) && Enabled(c, s, Send) && Accounted(s, k)
    ensures Accounted(Do(c, s, Send), k)
  {
    var t := Do(c, s, Send);
    if k in s.slots {
    } else if w :| 0 <= w < |s.workers| && Holds(s.workers[w], k) {
      assert Holds(t.workers[w], k);
    } else {
      var j :| 0 <= j < |s.queue| && Covers(s.queue[j], k);
      assert Covers(t.queue[j], k);
    }
  }

  lemma {:induction false} SlotsKept(c: Setup, s: State, step: Step)
    requires Inv(c, s) && Enabled(c, s, step)
    ensures SlotsHold(c, Do(c, s, step))
  {
    var t := Do(c, s, step);
    forall k: nat ensures SlotHolds(c, t.done, t.slots, k) {
      assert SlotHolds(c, s.done, s.slots, k);
      if step.Parse? {
        var b := s.workers[step.w];
        assert WorkerOk(s.done, b);
        assert s.done[b.task.base + b.i] == b.task.chunks[b.i];
      }
    }
  }

  lemma {:induction false} ErrorsKept(c: Setup, s: State, step: Step)
    requires Inv(c, s) && Enabled(c, s, step) && Sound(c)
    ensures ErrorsOk(c, Do(c, s, step))
  {
    var t := Do(c, s, step);
    if step.Fail? {
      var b := s.workers[step.w];
      assert WorkerOk(s.done, b);
      assert s.done[b.task.base + b.i] == b.task.chunks[b.i];
      assert Rejects(c, t.done, b.task.base + b.i);
    } else if s.failed {
      var k :| 0 <= k < |s.done| && Rejects(c, s.done, k);
      assert t.done[k] == s.done[k] && Rejects(c, t.done, k);
    }
  }

  lemma {:induction false} PlanKept(c: Setup, s: State, step: Step)
    requires Inv(c, s) && Enabled(c, s, step) && Sound(c)
    ensures OnPlan(c, Do(c, s, step))
  {
    if step.Scan? {
      var r := c.scan(s.off, s.done);
      if r.Batch? {
        assert GoodBatch(c, s.off, s.done);
        assert s.done + [] == s.done;
      }
    }
  }

  lemma {:induction false} PlanExtends(inner: bytes, off: nat, done: seq<Splitter.Chunk>, scan: Scan)
    requires off <= |inner|
    ensures var p := PlanFrom(inner, off, done, scan); p.Complete? ==> done <= p.ranges
    decreases |inner| - off
  {
    if off < |inner| {
      var r := scan(off, done);
      if r.Batch? && off < r.next <= |inner| {
        PlanExtends(inner, r.next, done + r.chunks, scan);
      }
    }
  }

  lemma {:induction false} SentKept(c: Setup, s: State, step: Step)
    requires Inv(c, s) && Enabled(c, s, step) && Sound(c)
    ensures SentIsPlanned(c, Do(c, s, step))
  {
    if step.Send? {
      var t := Do(c, s, step);
      PlanExtends(c.inner, t.off, t.done, c.scan);
    }
  }

  lemma {:induction false} ChannelsKept(c: Setup, s: State, step: Step)
    requires Inv(c, s) && Enabled(c, s, step)
    ensures ChannelsOk(c, Do(c, s, step)) && ResultOk(c, Do(c, s, step))
  {
  }

  /** Every step keeps the invariant. */
  lemma {:induction false} InvKept(c: Setup, s: State, step: Step)
    requires Sound(c) && Inv(c, s) && Enabled(c, s, step)
    ensures Inv(c, Do(c, s, step))
  {
    QueueKept(c, s, step);
    NothingLostKept(c, s, step);
    SlotsKept(c, s, step);
    ErrorsKept(c, s, step);
    PlanKept(c, s, step);
    SentKept(c, s, step);
    ChannelsKept(c, s, step);
  }
}
