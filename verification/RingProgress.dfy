/** The parallel channel reader makes progress: a run stops only when everything that was queued has been received, or
    at an error, and then everything before the failing batch has been. */
module RingProgress {
  import opened ParallelRing

  // ----- no batch is forgotten -----

  /** Worker `w` has batch `k`. */
  predicate Has(s: State, w: nat, k: nat)
    requires w < |s.workers|
  {
    s.workers[w].Working? && s.workers[w].batch == k
  }

  /** A batch that a worker has taken is finished or being worked on. */
  ghost predicate Attended(s: State, k: nat) {
    k in s.results || exists w :: 0 <= w < |s.workers| && Has(s, w, k)
  }

  /** When the producer has ended, only its error batch, which has its result, has not become a task; and the submitter
      has stopped only at a batch that failed. */
  ghost predicate Accounted(s: State) {
    && (forall k: nat | k < s.taken :: Attended(s, k))
    && (s.producer.Ended? ==> forall k: nat | s.tasked <= k < |s.batches| :: k in s.results)
    && (s.submitter.Halted? ==> s.popped > 0 && s.popped - 1 in s.results && !s.results[s.popped - 1])
    && (s.submitter.Awaiting? ==> s.submitter.batch + 1 == s.popped)
  }

  lemma {:induction false} AttendedKept(c: Pool, s: State, step: Step, k: nat)
    requires Inv(c, s) && Accounted(s) && Enabled(c, s, step) && k < Do(c, s, step).taken
    ensures Attended(Do(c, s, step), k)
  {
    var t := Do(c, s, step);
    if step.Take? && k == s.taken {
      assert Has(t, step.w, k);
    } else if k !in s.results {
      assert Attended(s, k);
      var w :| 0 <= w < |s.workers| && Has(s, w, k);
      if k !in t.results {
        assert Has(t, w, k);
      }
    }
  }

  lemma {:induction false} AccountedKept(c: Pool, s: State, step: Step)
    requires Inv(c, s) && Accounted(s) && Enabled(c, s, step)
    ensures Accounted(Do(c, s, step))
  {
    var t := Do(c, s, step);
    forall k: nat | k < t.taken ensures Attended(t, k) {
      AttendedKept(c, s, step, k);
    }
    if step.WriteFails? || step.Finish? {
      assert WorkerOk(s, step.w);
    }
  }

  lemma {:induction false} RunAccounted(c: Pool, states: seq<State>, steps: seq<Step>, i: nat)
    requires IsRun(c, states, steps) && i < |states|
    ensures Inv(c, states[i]) && Accounted(states[i]) && |states[i].workers| == c.workers
  {
    RunsAreSafe(c, states, steps, i);
    if i > 0 {
      RunAccounted(c, states, steps, i - 1);
      assert Taken(c, states, steps, i - 1);
      AccountedKept(c, states[i - 1], steps[i - 1]);
    }
  }

  // ----- where a run can stop -----

  /** No step can be taken. */
  ghost predicate Stuck(c: Pool, s: State) {
    forall step: Step :: !Enabled(c, s, step)
  }

  /** No step can be taken unless the stream is at its end. */
  ghost predicate Waits(c: Pool, s: State) {
    forall step: Step :: !step.End? ==> !Enabled(c, s, step)
  }

  /** A worker that has a batch can go on. */
  lemma {:induction false} WorkerMoves(c: Pool, s: State, w: nat)
    requires Inv(c, s) && w < |s.workers| && s.workers[w].Working?
    ensures !Waits(c, s)
  {
    assert WorkerOk(s, w);
    assert Enabled(c, s, Step.Write(w)) || Enabled(c, s, Step.Finish(w));
  }

  /** A task that waits is taken, or a worker goes on with another one. */
  lemma {:induction false} TaskMoves(c: Pool, s: State)
    requires Inv(c, s) && |s.workers| > 0 && s.taken < s.tasked
    ensures !Waits(c, s)
  {
    if s.workers[0].Working? {
      WorkerMoves(c, s, 0);
    } else {
      assert Enabled(c, s, Step.Take(0));
    }
  }

  /** A batch whose task has not been sent is sent, or the others go on. */
  lemma {:induction false} SendMoves(c: Pool, s: State)
    requires Inv(c, s) && |s.workers| == c.workers > 0 && s.producer.Running? && s.tasked < |s.batches|
    ensures !Waits(c, s)
  {
    if s.tasked < s.taken + Depth(c) {
      assert Enabled(c, s, Step.Task);
    } else {
      TaskMoves(c, s);
    }
  }

  /** Every batch gets its result. */
  lemma {:induction false} ResultComes(c: Pool, s: State, b: nat)
    requires Inv(c, s) && Accounted(s) && |s.workers| == c.workers > 0 && b < |s.batches| && b !in s.results
    ensures !Waits(c, s)
  {
    if b < s.taken {
      assert Attended(s, b);
      var w :| 0 <= w < |s.workers| && Has(s, w, b);
      WorkerMoves(c, s, w);
    } else if s.taken < s.tasked {
      TaskMoves(c, s);
    } else {
      SendMoves(c, s);
    }
  }

  /** With room in the channel a batch is delivered to its end. */
  lemma {:induction false} DeliveryMoves(c: Pool, s: State)
    requires Inv(c, s) && s.submitter.Delivering? && s.sent < s.received + c.buffer
    ensures !Waits(c, s)
  {
    assert Enabled(c, s, Step.Deliver) || Enabled(c, s, Step.NextBatch);
  }

  /** Everything that was queued has been delivered and received. */
  predicate Complete(s: State) {
    && s.producer.Ended? && s.submitter.Ready? && s.popped == |s.batches|
    && s.received == s.sent == Found(s.batches)
  }

  /** The submitter has stopped at the first batch that failed, and all items before it have been received. */
  predicate StoppedAtError(s: State) {
    && s.submitter.Halted? && 0 < s.popped <= |s.batches|
    && s.popped - 1 in s.results && !s.results[s.popped - 1]
    && (forall k: nat | k + 1 < s.popped :: Good(s, k))
    && s.received == s.sent == s.batches[s.popped - 1].base
  }

  /** The producer waits for room in the batch queue. */
  predicate Blocked(c: Pool, s: State) {
    s.producer.Running? && s.tasked == |s.batches| == s.popped + Depth(c)
  }

  /** When no step can be taken, unless the stream is at its end: everything is received, or an error has stopped the
      submitter and everything before it is received. So the producer can always hand on its next batch, or some other
      step brings that nearer, as long as there is no error. */
  lemma {:induction false} WaitsMeansDone(c: Pool, s: State)
    requires Inv(c, s) && Accounted(s) && |s.workers| == c.workers > 0 && c.buffer > 0 && Waits(c, s)
    ensures Complete(s) || (StoppedAtError(s) && (s.producer.Ended? || Blocked(c, s)))
  {
    if s.producer.Running? {
      if s.tasked < |s.batches| {
        SendMoves(c, s);
      }
      assert !Enabled(c, s, Step.Queue(1));
    }
    assert !Enabled(c, s, Step.Receive);
    match s.submitter
    case Ready =>
      assert !Enabled(c, s, Step.Pop);
    case Awaiting(b) =>
      assert !Enabled(c, s, Step.Learn);
      ResultComes(c, s, b);
    case Delivering(b, i) =>
      DeliveryMoves(c, s);
    case Halted =>
  }

  /** In particular when no step at all can be taken. */
  lemma {:induction false} StuckMeansDone(c: Pool, s: State)
    requires Inv(c, s) && Accounted(s) && |s.workers| == c.workers > 0 && c.buffer > 0 && Stuck(c, s)
    ensures s.producer.Ended? && (Complete(s) || StoppedAtError(s))
  {
    WaitsMeansDone(c, s);
    assert !Enabled(c, s, Step.End);
  }

  /** Behind an error nobody takes batches any more: however the run goes on, the producer queues at most as many
      further ones as the batch queue holds, and the consumer receives nothing beyond what has been sent. */
  lemma {:induction false} HaltedStays(c: Pool, states: seq<State>, steps: seq<Step>, i: nat, j: nat)
    requires IsRun(c, states, steps) && i <= j < |states| && states[i].submitter.Halted?
    ensures states[j].submitter.Halted? && states[j].popped == states[i].popped && states[j].sent == states[i].sent
    ensures |states[j].batches| <= states[i].popped + Depth(c) && states[j].received <= states[i].sent
  {
    RunsAreSafe(c, states, steps, j);
    if i < j {
      HaltedStays(c, states, steps, i, j - 1);
      assert Taken(c, states, steps, j - 1);
    }
  }

  /** Every run can go on, even if the stream has no end, until everything is received, or an error has stopped the
      submitter. */
  lemma {:induction false} RunsGoOn(c: Pool, states: seq<State>, steps: seq<Step>)
    requires IsRun(c, states, steps) && c.workers > 0 && c.buffer > 0
    ensures var s := states[|steps|]; Complete(s) || StoppedAtError(s) || !Waits(c, s)
  {
    var s := states[|steps|];
    RunAccounted(c, states, steps, |steps|);
    if Waits(c, s) {
      WaitsMeansDone(c, s);
    }
  }

  // ----- what has been received when a run stops -----

  /** The number of items that the first `k` steps queue. */
  function Queued(steps: seq<Step>, k: nat): nat
    requires k <= |steps|
  {
    if k == 0 then 0 else Queued(steps, k - 1) + if steps[k - 1].Queue? then steps[k - 1].count else 0
  }

  predicate Fails(step: Step) {
    step.WriteFails? || step.QueueError?
  }

  predicate NoneFails(steps: seq<Step>) {
    forall i | 0 <= i < |steps| :: !Fails(steps[i])
  }

  lemma {:induction false} FoundIsQueued(c: Pool, states: seq<State>, steps: seq<Step>, k: nat)
    requires IsRun(c, states, steps) && k < |states|
    ensures Found(states[k].batches) == Queued(steps, k)
  {
    if k > 0 {
      FoundIsQueued(c, states, steps, k - 1);
      assert Taken(c, states, steps, k - 1);
    }
  }

  lemma {:induction false} AllGood(c: Pool, states: seq<State>, steps: seq<Step>, k: nat)
    requires IsRun(c, states, steps) && k < |states| && NoneFails(steps)
    ensures forall b | b in states[k].results :: states[k].results[b]
  {
    if k > 0 {
      AllGood(c, states, steps, k - 1);
      assert Taken(c, states, steps, k - 1) && !Fails(steps[k - 1]);
    }
  }

  /** Whatever the interleaving: when a run without errors cannot be continued, the consumer has received exactly as
      many items as were queued, which by the order of delivery are all of them. */
  lemma {:induction false} AllReceived(c: Pool, states: seq<State>, steps: seq<Step>)
    requires IsRun(c, states, steps) && c.workers > 0 && c.buffer > 0
    requires NoneFails(steps) && Stuck(c, states[|steps|])
    ensures Receipts(steps, |steps|) == Queued(steps, |steps|)
  {
    var n := |steps|;
    RunAccounted(c, states, steps, n);
    StuckMeansDone(c, states[n]);
    AllGood(c, states, steps, n);
    FoundIsQueued(c, states, steps, n);
    Counted(c, states, steps, n);
  }

  /** When a run with an error cannot be continued, the consumer has received all items, or exactly those of the batches
      in front of the first one that failed. */
  lemma {:induction false} ReceivedBeforeError(c: Pool, states: seq<State>, steps: seq<Step>) returns (b: nat)
    requires IsRun(c, states, steps) && c.workers > 0 && c.buffer > 0 && Stuck(c, states[|steps|])
    ensures var s, n := states[|steps|], Receipts(steps, |steps|);
      if b == |s.batches| then n == Queued(steps, |steps|)
      else
        && b < |s.batches| && b in s.results && !s.results[b] && n == s.batches[b].base
        && forall k: nat | k < b :: Good(s, k)
  {
    var s := states[|steps|];
    RunAccounted(c, states, steps, |steps|);
    StuckMeansDone(c, s);
    FoundIsQueued(c, states, steps, |steps|);
    Counted(c, states, steps, |steps|);
    b := if Complete(s) then |s.batches| else s.popped - 1;
  }

  // ----- every run is bounded -----

  /** How far the submitter is: three steps for each batch. */
  function Phase(s: State): int {
    match s.submitter
    case Ready => 3 * s.popped
    case Awaiting(_) => 3 * s.popped - 2
    case Delivering(_, _) => 3 * s.popped - 1
    case Halted => 3 * s.popped - 1
  }

  /** A lower bound on what has been done to reach the state, step by step. */
  function Done(s: State): int {
    |s.batches| + (if s.producer.Ended? then 1 else 0) + s.tasked + s.taken + |s.written| + |s.results| + Phase(s) +
    s.sent + s.received
  }

  lemma {:induction false} EachStepCounts(c: Pool, s: State, step: Step)
    requires Inv(c, s) && Accounted(s) && Enabled(c, s, step)
    ensures Done(s) < Done(Do(c, s, step))
  {
    var t := Do(c, s, step);
    match step
    case Write(w) =>
      assert Unwritten(s, w) && ItemOf(s, w) !in s.written;
    case WriteFails(w) =>
      assert WorkerOk(s, w);
      MoreResults(s, s.workers[w].batch, false);
    case Finish(w) =>
      assert WorkerOk(s, w);
      MoreResults(s, s.workers[w].batch, true);
    case QueueError =>
      MoreResults(s, |s.batches|, false);
    case _ =>
  }

  lemma {:induction false} MoreResults(s: State, b: nat, ok: bool)
    requires b !in s.results
    ensures |s.results[b := ok]| == |s.results| + 1
  {
    var t := s.results[b := ok];
    assert t.Keys == s.results.Keys + {b};
  }


  lemma {:induction false} AtMostBelow(a: set<nat>, n: nat)
    requires forall k | k in a :: k < n
    ensures |a| <= n
  {
    if n == 0 {
      assert a == {};
    } else {
      AtMostBelow(a - {n - 1}, n - 1);
      assert |a| <= |a - {n - 1}| + 1;
    }
  }

  /** No run is longer than what its batches and their items call for: every run in which the producer ends, ends. */
  lemma {:induction false} RunsAreBounded(c: Pool, states: seq<State>, steps: seq<Step>)
    requires IsRun(c, states, steps)
    ensures var s := states[|steps|]; |steps| <= 1 + 7 * |s.batches| + 3 * Found(s.batches)
  {
    var s := states[|steps|];
    StepsAreDone(c, states, steps, |steps|);
    RunAccounted(c, states, steps, |steps|);
    WrittenAreFound(c, s);
    AtMostBelow(s.written, Found(s.batches));
    AtMostBelow(s.results.Keys, |s.batches|);
    SentAreFound(c, s);
  }

  lemma {:induction false} StepsAreDone(c: Pool, states: seq<State>, steps: seq<Step>, k: nat)
    requires IsRun(c, states, steps) && k < |states|
    ensures k <= Done(states[k])
  {
    if k > 0 {
      StepsAreDone(c, states, steps, k - 1);
      RunAccounted(c, states, steps, k - 1);
      assert Taken(c, states, steps, k - 1);
      EachStepCounts(c, states[k - 1], steps[k - 1]);
    }
  }

  lemma {:induction false} WrittenAreFound(c: Pool, s: State)
    requires Inv(c, s)
    ensures forall j | j in s.written :: j < Found(s.batches)
  {
    StartsGrow(s.batches, s.taken, |s.batches|);
  }

  lemma {:induction false} SentAreFound(c: Pool, s: State)
    requires Inv(c, s)
    ensures s.received <= s.sent <= Found(s.batches)
  {
    if s.popped > 0 {
      BatchEnd(s.batches, s.popped - 1);
      StartsGrow(s.batches, s.popped - 1, |s.batches|);
    }
    StartsGrow(s.batches, s.popped, |s.batches|);
  }
}
