/** What every run of the parallel reader does: success and failure, slots written once, and termination. */
module PipelineTheorems {
  import opened Slices
  import opened ParallelPlan
  import opened Pipeline
  import Splitter

  // ----- results -----

  ghost predicate AllParse(c: Setup, ranges: seq<Splitter.Chunk>) {
    forall k | 0 <= k < |ranges| :: !Rejects(c, ranges, k)
  }

  /** When the reader returns, it has succeeded exactly if the producer's plan is complete and every planned element
      parses. Then slot `k` holds element `k`, and no other slot is written. */
  lemma {:induction false} SuccessIff(c: Setup, s: State)
    requires c.workers > 0 && c.room > 0 && Inv(c, s) && s.producer.Returned?
    ensures s.producer.ok <==> Whole(c).Complete? && AllParse(c, Whole(c).ranges)
    ensures s.producer.ok ==>
      && s.done == Whole(c).ranges
      && forall k: nat :: k in s.slots <==> k < |s.done|
    ensures s.producer.ok ==> forall k: nat | k in s.slots :: s.slots[k] == s.done[k]
  {
    if s.producer.ok {
      assert s.workers[0].Gone? && |s.queue| == 0;
      assert !s.failed && Whole(c) == Tail(c.inner, s.done) == Complete(s.done);
      forall k: nat ensures k in s.slots <==> k < |s.done| {
        assert SlotHolds(c, s.done, s.slots, k);
        if k < |s.done| {
          assert Accounted(s, k);
        }
      }
      forall k | 0 <= k < |s.done| ensures !Rejects(c, s.done, k) {
        assert SlotHolds(c, s.done, s.slots, k);
      }
      forall k: nat | k in s.slots ensures s.slots[k] == s.done[k] {
        assert SlotHolds(c, s.done, s.slots, k);
      }
    } else if Whole(c).Complete? && AllParse(c, Whole(c).ranges) {
      NoFailure(c, s);
    }
  }

  /** If every planned element parses, no worker ever fails. */
  lemma {:induction false} NoFailure(c: Setup, s: State)
    requires Inv(c, s) && Whole(c).Complete? && AllParse(c, Whole(c).ranges)
    ensures !s.failed && s.errors == 0
  {
    var ranges := Whole(c).ranges;
    forall k | 0 <= k < |s.done| ensures !Rejects(c, s.done, k) {
      assert s.done[k] == ranges[k] && !Rejects(c, ranges, k);
    }
  }

  // ----- every slot has one owner -----

  predicate Apart(a: Task, b: Task) {
    a.base + |a.chunks| <= b.base || b.base + |b.chunks| <= a.base
  }

  predicate WorkersApart(workers: seq<Worker>) {
    forall w, v | 0 <= w < v < |workers| :: workers[w].Busy? && workers[v].Busy? ==>
      Apart(workers[w].task, workers[v].task)
  }

  predicate QueueApart(queue: seq<Task>) {
    forall i, j | 0 <= i < j < |queue| :: Apart(queue[i], queue[j])
  }

  predicate BothApart(workers: seq<Worker>, queue: seq<Task>) {
    forall w, j | 0 <= w < |workers| && 0 <= j < |queue| :: workers[w].Busy? ==> Apart(workers[w].task, queue[j])
  }

  /** A written slot is nobody's business any more. */
  predicate Settled(s: State, k: nat) {
    && (forall w | 0 <= w < |s.workers| :: !Holds(s.workers[w], k))
    && (forall j | 0 <= j < |s.queue| :: !Covers(s.queue[j], k))
  }

  /** Tasks that are under way share no slot, and no slot is written twice. */
  predicate Exclusive(s: State) {
    && WorkersApart(s.workers) && QueueApart(s.queue) && BothApart(s.workers, s.queue)
    && forall k: nat :: k in s.slots ==> Settled(s, k)
  }

  lemma {:induction false} InitialExclusive(c: Setup)
    ensures Exclusive(Initial(c))
  {
  }

  lemma {:induction false} ApartKept(c: Setup, s: State, step: Step)
    requires Inv(c, s) && Exclusive(s) && Enabled(c, s, step)
    ensures var t := Do(c, s, step); WorkersApart(t.workers) && QueueApart(t.queue) && BothApart(t.workers, t.queue)
  {
    var t := Do(c, s, step);
    if step.Send? {
      var n := |s.queue|;
      assert forall j | 0 <= j < n :: TaskOk(s.done, s.queue[j]) && t.queue[j] == s.queue[j];
      assert forall w | 0 <= w < |s.workers| :: WorkerOk(s.done, s.workers[w]);
    }
  }

  lemma {:induction false} SettledKept(c: Setup, s: State, step: Step, k: nat)
    requires Inv(c, s) && Exclusive(s) && Enabled(c, s, step) && k in Do(c, s, step).slots
    ensures Settled(Do(c, s, step), k)
  {
    var t := Do(c, s, step);
    if k in s.slots {
      assert Settled(s, k) && SlotHolds(c, s.done, s.slots, k);
      if step.Take? {
        assert !Covers(s.queue[0], k);
      }
    } else {
      OwnSlot(c, s, step.w, k);
    }
  }

  /** The slot that a worker writes belongs to no other task. */
  lemma {:induction false} OwnSlot(c: Setup, s: State, w: nat, k: nat)
    requires Inv(c, s) && Exclusive(s) && Enabled(c, s, Parse(w)) && k == s.workers[w].task.base + s.workers[w].i
    ensures Settled(Do(c, s, Parse(w)), k)
  {
    var t := Do(c, s, Parse(w));
    forall v | 0 <= v < |t.workers| ensures !Holds(t.workers[v], k) {
      if v < w {
        assert s.workers[v].Busy? ==> Apart(s.workers[v].task, s.workers[w].task);
      } else if v > w {
        assert s.workers[v].Busy? ==> Apart(s.workers[w].task, s.workers[v].task);
      }
    }
    forall j | 0 <= j < |t.queue| ensures !Covers(t.queue[j], k) {
      assert Apart(s.workers[w].task, s.queue[j]);
    }
  }

  lemma {:induction false} ExclusiveKept(c: Setup, s: State, step: Step)
    requires Inv(c, s) && Exclusive(s) && Enabled(c, s, step)
    ensures Exclusive(Do(c, s, step))
  {
    ApartKept(c, s, step);
    forall k: nat | k in Do(c, s, step).slots ensures Settled(Do(c, s, step), k) {
      SettledKept(c, s, step, k);
    }
  }

  /** A worker writes each slot once: the slot is not written before. */
  lemma {:induction false} WrittenOnce(c: Setup, s: State, w: nat)
    requires Inv(c, s) && Exclusive(s) && Enabled(c, s, Parse(w))
    ensures s.workers[w].task.base + s.workers[w].i !in s.slots
  {
    assert Holds(s.workers[w], s.workers[w].task.base + s.workers[w].i);
  }

  // ----- runs -----

  /** How the reader begins: an empty destination is answered at once, with success and without a look at the input;
      otherwise the workers start. */
  function Begin(c: Setup): State {
    if c.room == 0 then State(Returned(true), 0, [], [], true, [], 0, false, map[], false) else Initial(c)
  }

  /** A run from the beginning. */
  ghost predicate IsRun(c: Setup, states: seq<State>, steps: seq<Step>) {
    && |states| == |steps| + 1 && states[0] == Begin(c)
    && forall i | 0 <= i < |steps| :: Taken(c, states, steps, i)
  }

  ghost predicate Taken(c: Setup, states: seq<State>, steps: seq<Step>, i: nat)
    requires i < |steps| && |states| == |steps| + 1
  {
    Enabled(c, states[i], steps[i]) && states[i + 1] == Do(c, states[i], steps[i])
  }

  /** The invariants hold in every state of every run, for every interleaving. */
  lemma {:induction false} RunsAreSafe(c: Setup, states: seq<State>, steps: seq<Step>, i: nat)
    requires Sound(c) && IsRun(c, states, steps) && i < |states|
    ensures if c.room == 0 then i == 0 else Inv(c, states[i]) && Exclusive(states[i])
  {
    if c.room == 0 {
      assert i > 0 ==> Taken(c, states, steps, 0);
    } else if i == 0 {
      InitialInv(c);
      InitialExclusive(c);
    } else {
      RunsAreSafe(c, states, steps, i - 1);
      assert Taken(c, states, steps, i - 1);
      InvKept(c, states[i - 1], steps[i - 1]);
      ExclusiveKept(c, states[i - 1], steps[i - 1]);
    }
  }

  /** Every run that returns has decided the input: with room for at least one element it succeeds exactly if the plan
      is complete and every planned element parses, and then each slot holds its own element. */
  lemma {:induction false} EveryRunDecides(c: Setup, states: seq<State>, steps: seq<Step>)
    requires Sound(c) && IsRun(c, states, steps) && states[|steps|].producer.Returned?
    ensures var s, plan := states[|steps|], Whole(c);
      && (s.producer.ok <==> c.room == 0 || (plan.Complete? && AllParse(c, plan.ranges)))
      && (s.producer.ok ==> forall k: nat :: k in s.slots <==> c.room > 0 && k < |plan.ranges|)
      && (s.producer.ok ==> forall k: nat | k in s.slots :: s.slots[k] == plan.ranges[k])
  {
    RunsAreSafe(c, states, steps, |steps|);
    if c.room > 0 {
      SuccessIff(c, states[|steps|]);
    }
  }

  // ----- every run ends -----

  /** In every reachable state in which the producer has not returned, some step can be taken. */
  lemma {:induction false} NoDeadlock(c: Setup, s: State) returns (step: Step)
    requires Sound(c) && Inv(c, s) && !s.producer.Returned?
    ensures Enabled(c, s, step)
  {
    match s.producer
    case Scanning => step := if s.off >= |c.inner| then LeaveLoop else if s.errors > 0 then TakeError else Scan;
    case Leaving => step := Close;
    case Sending(task, next) => step := if |s.queue| < 2 * c.workers then Send else WorkerStep(c, s, 0);
    case Waiting =>
      if w :| 0 <= w < |s.workers| && !s.workers[w].Gone? {
        step := WorkerStep(c, s, w);
      } else {
        step := Return;
      }
  }

  /** A worker that has not gone can move when there is a task, or when the channel is closed. */
  function WorkerStep(c: Setup, s: State, w: nat): (step: Step)
    requires w < |s.workers| && !s.workers[w].Gone? && (|s.queue| > 0 || s.closed)
    ensures Enabled(c, s, step)
  {
    var v := s.workers[w];
    if v.Busy? then
      if v.i >= |v.task.chunks| then Finish(w)
      else if c.accepts(Piece(c.inner, Current(s, w))) then Parse(w) else Fail(w)
    else if |s.queue| > 0 then Take(w) else Quit(w)
  }

  function WorkerLoad(v: Worker): nat {
    match v
    case Gone => 0
    case Idle => 1
    case Busy(task, i) => if i <= |task.chunks| then |task.chunks| - i + 2 else 2
  }

  function WorkersLoad(workers: seq<Worker>): nat {
    if |workers| == 0 then 0 else WorkersLoad(workers[..|workers| - 1]) + WorkerLoad(workers[|workers| - 1])
  }

  function QueueLoad(queue: seq<Task>): nat {
    if |queue| == 0 then 0 else QueueLoad(queue[..|queue| - 1]) + |queue[|queue| - 1].chunks| + 2
  }

  function ProducerLoad(c: Setup, s: State): nat {
    match s.producer
    case Scanning => if s.off <= |c.inner| then 5 * (|c.inner| - s.off) + 3 else 3
    case Sending(task, next) => |task.chunks| + 6 + if next <= |c.inner| then 5 * (|c.inner| - next) else 0
    case Leaving => 2
    case Waiting => 1
    case Returned(_) => 0
  }

  /** How much work a state has left. */
  function Load(c: Setup, s: State): nat {
    ProducerLoad(c, s) + QueueLoad(s.queue) + WorkersLoad(s.workers)
  }

  lemma {:induction false} WorkersLoadUpdate(workers: seq<Worker>, w: nat, v: Worker)
    requires w < |workers|
    ensures WorkersLoad(workers[w := v]) == WorkersLoad(workers) - WorkerLoad(workers[w]) + WorkerLoad(v)
    decreases |workers|
  {
    var n := |workers| - 1;
    var after := workers[w := v];
    if w == n {
      assert after[..n] == workers[..n];
    } else {
      assert after[..n] == workers[..n][w := v];
      WorkersLoadUpdate(workers[..n], w, v);
    }
  }

  lemma {:induction false} QueueLoadTail(queue: seq<Task>)
    requires |queue| > 0
    ensures QueueLoad(queue) == QueueLoad(queue[1..]) + |queue[0].chunks| + 2
    decreases |queue|
  {
    var n := |queue| - 1;
    if n > 0 {
      QueueLoadTail(queue[..n]);
      assert queue[1..][..n - 1] == queue[..n][1..];
    }
  }

  predicate IsWorkerStep(step: Step) {
    step.Take? || step.Parse? || step.Fail? || step.Finish? || step.Quit?
  }

  lemma {:induction false} ProducerFinishes(c: Setup, s: State, step: Step)
    requires Sound(c) && OnPlan(c, s) && Enabled(c, s, step) && !IsWorkerStep(step)
    ensures Load(c, Do(c, s, step)) < Load(c, s)
  {
    if step.Scan? && c.scan(s.off, s.done).Batch? {
      assert GoodBatch(c, s.off, s.done);
    } else if step.Send? {
      assert Do(c, s, step).queue[..|s.queue|] == s.queue;
    }
  }

  lemma {:induction false} WorkerFinishes(c: Setup, s: State, step: Step)
    requires Enabled(c, s, step) && IsWorkerStep(step)
    ensures Load(c, Do(c, s, step)) < Load(c, s)
  {
    var t := Do(c, s, step);
    WorkersLoadUpdate(s.workers, step.w, t.workers[step.w]);
    if step.Take? {
      QueueLoadTail(s.queue);
    }
  }

  /** Every step leaves less work, so every run ends; and by the lemma above it ends with the producer's return. */
  lemma {:induction false} StepsFinish(c: Setup, s: State, step: Step)
    requires Sound(c) && Inv(c, s) && Enabled(c, s, step)
    ensures Load(c, Do(c, s, step)) < Load(c, s)
  {
    if IsWorkerStep(step) {
      WorkerFinishes(c, s, step);
    } else {
      ProducerFinishes(c, s, step);
    }
  }

  /** No run is longer than the work it begins with. */
  lemma {:induction false} RunsAreBounded(c: Setup, states: seq<State>, steps: seq<Step>, i: nat)
    requires Sound(c) && IsRun(c, states, steps) && i < |states|
    ensures i + Load(c, states[i]) <= Load(c, Begin(c))
  {
    if i > 0 {
      RunsAreBounded(c, states, steps, i - 1);
      RunsAreSafe(c, states, steps, i);
      RunsAreSafe(c, states, steps, i - 1);
      assert Taken(c, states, steps, i - 1);
      StepsFinish(c, states[i - 1], steps[i - 1]);
    }
  }
}
