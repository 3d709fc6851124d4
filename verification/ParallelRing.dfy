/** The parallel channel reader as a step system: a producer queues batches in order and hands them to workers, the
    workers write the ring, and a submitter delivers batch after batch. */
module ParallelRing {
  import opened Rings

  /** Both arguments are at least 1; the reader raises smaller ones. */
  datatype Pool = Pool(workers: nat, buffer: nat)

  const PER_BATCH: nat := 64

  /** The capacity of the batch queue and of the task channel. */
  function Depth(c: Pool): nat {
    2 * c.workers
  }

  function Size(c: Pool): nat {
    c.buffer + (Depth(c) + 2) * PER_BATCH + 16
  }

  /** The items base, base + 1, ..., base + count - 1. */
  datatype Batch = Batch(base: nat, count: nat)

  datatype Worker = Idle | Working(batch: nat, i: nat)

  /** The submitter waits for a batch, awaits its result, delivers it, or has stopped at an error. */
  datatype Submitter = Ready | Awaiting(batch: nat) | Delivering(batch: nat, i: nat) | Halted

  datatype Producer = Running | Ended

  /** `batches` have been queued, `popped` of them taken by the submitter; `tasked` have entered the task channel,
      `taken` of them left it. `results` are the finished batches. */
  datatype State = State(producer: Producer, batches: seq<Batch>, tasked: nat, taken: nat, popped: nat,
                         workers: seq<Worker>, results: map<nat, bool>, submitter: Submitter,
                         sent: nat, received: nat, ring: map<nat, nat>, written: set<nat>)

  function Initial(c: Pool): State {
    State(Running, [], 0, 0, 0, seq(c.workers, _ => Idle), map[], Ready, 0, 0, map[], {})
  }

  /** The number of items queued so far. */
  function Found(batches: seq<Batch>): nat {
    if |batches| == 0 then 0 else batches[|batches| - 1].base + batches[|batches| - 1].count
  }

  /** How many elements a worker finds in a batch: all but the last one, because the batch's text ends before the
      terminator of that element, and the splitter stores a chunk at a terminator only. */
  function Parsed(b: Batch): nat {
    if b.count == 0 then 0 else b.count - 1
  }

  datatype Step =
    | Queue(count: nat) | Task | QueueError | End
    | Take(w: nat) | Write(w: nat) | WriteFails(w: nat) | Finish(w: nat)
    | Pop | Learn | Deliver | NextBatch | Receive

  predicate IsWorking(s: State, w: nat) {
    w < |s.workers| && s.workers[w].Working? && s.workers[w].batch < |s.batches|
  }

  function ItemOf(s: State, w: nat): nat
    requires IsWorking(s, w)
  {
    s.batches[s.workers[w].batch].base + s.workers[w].i
  }

  predicate Enabled(c: Pool, s: State, step: Step) {
    match step
    case Queue(count) =>
      s.producer.Running? && s.tasked == |s.batches| < s.popped + Depth(c) && 1 <= count <= PER_BATCH
    case Task => s.producer.Running? && s.tasked < |s.batches| && s.tasked < s.taken + Depth(c)
    case QueueError => s.producer.Running? && s.tasked == |s.batches| < s.popped + Depth(c)
    case End => s.producer.Running? && s.tasked == |s.batches|
    case Take(w) => w < |s.workers| && s.workers[w].Idle? && s.taken < s.tasked
    case Write(w) => IsWorking(s, w) && s.workers[w].i < Parsed(s.batches[s.workers[w].batch])
    case WriteFails(w) => IsWorking(s, w) && s.workers[w].i < Parsed(s.batches[s.workers[w].batch])
    case Finish(w) => IsWorking(s, w) && s.workers[w].i == Parsed(s.batches[s.workers[w].batch])
    case Pop => s.submitter.Ready? && s.popped < |s.batches|
    case Learn => s.submitter.Awaiting? && s.submitter.batch in s.results
    case Deliver =>
      && s.submitter.Delivering? && s.submitter.batch < |s.batches|
      && s.submitter.i < s.batches[s.submitter.batch].count && s.sent < s.received + c.buffer
    case NextBatch =>
      s.submitter.Delivering? && s.submitter.batch < |s.batches| && s.submitter.i == s.batches[s.submitter.batch].count
    case Receive => s.received < s.sent
  }

  function Do(c: Pool, s: State, step: Step): State
    requires Enabled(c, s, step)
  {
    match step
    case Queue(count) => s.(batches := s.batches + [Batch(Found(s.batches), count)])
    case Task => s.(tasked := s.tasked + 1)
    case QueueError =>
      // the reader's own error travels as a finished batch without items
      s.(producer := Ended, batches := s.batches + [Batch(Found(s.batches), 0)],
         results := s.results[|s.batches| := false])
    case End => s.(producer := Ended)
    case Take(w) => s.(workers := s.workers[w := Working(s.taken, 0)], taken := s.taken + 1)
    case Write(w) =>
      var v, item := s.workers[w], ItemOf(s, w);
      s.(workers := s.workers[w := Working(v.batch, v.i + 1)],
         ring := s.ring[item % Size(c) := item], written := s.written + {item})
    case WriteFails(w) =>
      var v, item := s.workers[w], ItemOf(s, w);
      s.(workers := s.workers[w := Idle], ring := s.ring - {item % Size(c)}, results := s.results[v.batch := false])
    case Finish(w) => s.(workers := s.workers[w := Idle], results := s.results[s.workers[w].batch := true])
    case Pop => s.(submitter := Awaiting(s.popped), popped := s.popped + 1)
    case Learn => s.(submitter := if s.results[s.submitter.batch] then Delivering(s.submitter.batch, 0) else Halted)
    case Deliver => s.(submitter := Delivering(s.submitter.batch, s.submitter.i + 1), sent := s.sent + 1)
    case NextBatch => s.(submitter := Ready)
    case Receive => s.(received := s.received + 1)
  }

  // ----- what holds in every reachable state -----

  /** The first item of batch `k`, or the next item to be queued. */
  function StartOf(batches: seq<Batch>, k: nat): nat {
    if k < |batches| then batches[k].base else Found(batches)
  }

  predicate Follows(batches: seq<Batch>, k: nat)
    requires k < |batches|
  {
    batches[k].count <= PER_BATCH && batches[k].base == if k == 0 then 0 else batches[k - 1].base + batches[k - 1].count
  }

  predicate Contiguous(batches: seq<Batch>) {
    forall k | 0 <= k < |batches| :: Follows(batches, k)
  }

  predicate QueuesOk(c: Pool, s: State) {
    && s.taken <= s.tasked <= |s.batches| && s.popped <= |s.batches| <= s.popped + Depth(c)
    && s.received <= s.sent <= s.received + c.buffer
    && (s.producer.Running? ==> |s.batches| <= s.tasked + 1)
  }

  /** A batch that is being worked on has no result yet, and only one worker has it. */
  predicate WorkerOk(s: State, w: nat)
    requires w < |s.workers|
  {
    s.workers[w].Working? ==>
      && s.workers[w].batch < s.taken && s.workers[w].batch !in s.results
      && s.workers[w].batch < |s.batches| && s.workers[w].i <= Parsed(s.batches[s.workers[w].batch])
  }

  predicate Distinct(s: State, w: nat, v: nat)
    requires w < |s.workers| && v < |s.workers|
  {
    s.workers[w].Working? && s.workers[v].Working? ==> s.workers[w].batch != s.workers[v].batch
  }

  predicate WorkersOk(s: State) {
    && (forall w | 0 <= w < |s.workers| :: WorkerOk(s, w))
    && (forall w, v | 0 <= w < v < |s.workers| :: Distinct(s, w, v))
  }

  /** Only taken batches have results, and the error batch at the end. */
  predicate ResultsOk(s: State) {
    forall k | k in s.results :: k < s.taken || (s.producer.Ended? && s.tasked <= k < |s.batches|)
  }

  /** Batch `k` was finished without error. */
  predicate Good(s: State, k: nat) {
    k in s.results && s.results[k]
  }

  /** The submitter has delivered all items before its batch, and in its batch those before its position. All batches
      that it has delivered, or delivers, were finished without error. */
  predicate SubmitterOk(s: State) {
    && (forall k: nat | k + 1 < s.popped :: Good(s, k))
    && match s.submitter
       case Ready => s.sent == StartOf(s.batches, s.popped) && (s.popped > 0 ==> Good(s, s.popped - 1))
       case Awaiting(b) => b + 1 == s.popped && s.sent == StartOf(s.batches, b)
       case Delivering(b, i) =>
         && b + 1 == s.popped && Good(s, b) && b < |s.batches|
         && i <= s.batches[b].count && s.sent == s.batches[b].base + i
       case Halted => s.popped > 0 && s.popped - 1 in s.results && s.sent == StartOf(s.batches, s.popped - 1)
  }

  /** The consumer has not moved on from the item. */
  predicate Live(s: State, j: nat) {
    j < Found(s.batches) && s.received <= j + 1
  }

  ghost predicate RingOk(c: Pool, s: State) {
    forall j | j in s.written && Live(s, j) :: HoldsItem(s.ring, Size(c), j)
  }

  /** What worker `w` has still to write has not been written. */
  predicate Unwritten(s: State, w: nat)
    requires w < |s.workers|
  {
    IsWorking(s, w) ==>
      forall j | j in s.written :: j < ItemOf(s, w) ||
        j >= s.batches[s.workers[w].batch].base + s.batches[s.workers[w].batch].count
  }

  predicate WrittenOk(s: State) {
    && (forall w | 0 <= w < |s.workers| :: Unwritten(s, w))
    && (forall j | j in s.written :: j < StartOf(s.batches, s.taken))
  }

  /** The first `n` items of batch `b` have been written. */
  predicate WrittenUpTo(s: State, b: nat, n: nat)
    requires b < |s.batches|
  {
    forall j | s.batches[b].base <= j < s.batches[b].base + n :: j in s.written
  }

  /** Workers have written what they have passed, and all that they find in the batches they have finished. */
  predicate WorkDone(s: State) {
    && (forall w | 0 <= w < |s.workers| :: IsWorking(s, w) ==> WrittenUpTo(s, s.workers[w].batch, s.workers[w].i))
    && (forall b | 0 <= b < |s.batches| :: Good(s, b) ==> WrittenUpTo(s, b, Parsed(s.batches[b])))
  }

  /** The item is the last one of batch `b`. */
  predicate EndsBatch(batches: seq<Batch>, b: nat, j: nat) {
    b < |batches| && j + 1 == batches[b].base + batches[b].count && batches[b].count > 0
  }

  ghost predicate IsLast(batches: seq<Batch>, j: nat) {
    exists b: nat :: EndsBatch(batches, b, j)
  }

  /** No last item is ever written, and slots hold written items only. */
  ghost predicate LastUnwritten(s: State) {
    && (forall b: nat, j | j in s.written :: !EndsBatch(s.batches, b, j))
    && (forall k | k in s.ring :: s.ring[k] in s.written)
  }

  ghost predicate Inv(c: Pool, s: State) {
    && Contiguous(s.batches) && QueuesOk(c, s) && WorkersOk(s) && ResultsOk(s) && SubmitterOk(s)
    && WrittenOk(s) && WorkDone(s) && LastUnwritten(s) && RingOk(c, s)
  }

  lemma {:induction false} StartsGrow(batches: seq<Batch>, k: nat, m: nat)
    requires Contiguous(batches) && k <= m <= |batches|
    ensures StartOf(batches, k) <= StartOf(batches, m) <= StartOf(batches, k) + (m - k) * PER_BATCH
    decreases m - k
  {
    if k < m {
      assert Follows(batches, k);
      if k + 1 < |batches| {
        assert Follows(batches, k + 1);
      }
      StartsGrow(batches, k + 1, m);
    }
  }

  /** All items that are queued and not yet left behind by the consumer fit the ring. */
  lemma {:induction false} LiveFit(c: Pool, s: State)
    requires Contiguous(s.batches) && QueuesOk(c, s) && SubmitterOk(s)
    ensures Found(s.batches) + 1 <= s.received + Size(c)
  {
    var n := |s.batches|;
    if s.popped == 0 {
      StartsGrow(s.batches, 0, n);
    } else {
      StartsGrow(s.batches, s.popped - 1, s.popped);
      StartsGrow(s.batches, s.popped - 1, n);
    }
  }

  /** A batch that is being worked on has not been delivered. */
  lemma {:induction false} WorkIsAhead(c: Pool, s: State, w: nat)
    requires Inv(c, s) && IsWorking(s, w)
    ensures s.received <= s.sent <= ItemOf(s, w)
  {
    var b := s.workers[w].batch;
    assert WorkerOk(s, w);
    assert b + 1 < s.popped ==> Good(s, b);
    if s.popped <= b {
      StartsGrow(s.batches, s.popped, b);
      assert Follows(s.batches, s.popped);
      if s.popped > 0 {
        StartsGrow(s.batches, s.popped - 1, s.popped);
      }
    }
  }

  /** A worker never writes the slot of another item that is queued, buffered, or the last one received. */
  lemma {:induction false} WriteIsSafe(c: Pool, s: State, w: nat, j: nat)
    requires Inv(c, s) && IsWorking(s, w) && s.workers[w].i < Parsed(s.batches[s.workers[w].batch])
    requires Live(s, j) && j != ItemOf(s, w)
    ensures j % Size(c) != ItemOf(s, w) % Size(c)
  {
    var item, b := ItemOf(s, w), s.workers[w].batch;
    LiveFit(c, s);
    WorkIsAhead(c, s, w);
    StartsGrow(s.batches, b + 1, |s.batches|);
    assert Follows(s.batches, b);
    if b + 1 < |s.batches| {
      assert Follows(s.batches, b + 1);
    }
    if j < item {
      SlotsDiffer(j, item, Size(c));
    } else {
      SlotsDiffer(item, j, Size(c));
    }
  }

  lemma {:induction false} RingKept(c: Pool, s: State, step: Step)
    requires Inv(c, s) && Enabled(c, s, step)
    ensures RingOk(c, Do(c, s, step))
  {
    var t := Do(c, s, step);
    StartsGrow(s.batches, s.taken, |s.batches|);
    forall j | j in t.written && Live(t, j) ensures HoldsItem(t.ring, Size(c), j) {
      if j in s.written {
        assert Live(s, j);
        if step.Write? || step.WriteFails? {
          assert Unwritten(s, step.w);
          WriteIsSafe(c, s, step.w, j);
        }
      }
    }
  }

  /** The items of a batch lie between the starts of its neighbours. */
  lemma {:induction false} BatchEnd(batches: seq<Batch>, b: nat)
    requires Contiguous(batches) && b < |batches|
    ensures batches[b].base + batches[b].count == StartOf(batches, b + 1)
  {
    assert Follows(batches, b);
    if b + 1 < |batches| {
      assert Follows(batches, b + 1);
    }
  }

  /** Batches that different workers have share no item. */
  lemma {:induction false} BatchesApart(batches: seq<Batch>, a: nat, b: nat)
    requires Contiguous(batches) && a < b < |batches|
    ensures batches[a].base + batches[a].count <= batches[b].base
  {
    BatchEnd(batches, a);
    StartsGrow(batches, a + 1, b);
  }

  lemma {:induction false} UnwrittenKept(c: Pool, s: State, step: Step, w: nat)
    requires Inv(c, s) && Enabled(c, s, step) && w < |s.workers|
    ensures Unwritten(Do(c, s, step), w)
  {
    assert Unwritten(s, w) && WorkerOk(s, w);
    if step.Write? && IsWorking(s, w) && w != step.w {
      var a, b := s.workers[w].batch, s.workers[step.w].batch;
      assert WorkerOk(s, step.w);
      if a < b {
        BatchesApart(s.batches, a, b);
      } else {
        assert Distinct(s, w, step.w) || Distinct(s, step.w, w);
        BatchesApart(s.batches, b, a);
      }
    }
  }

  lemma {:induction false} WrittenKept(c: Pool, s: State, step: Step)
    requires Inv(c, s) && Enabled(c, s, step)
    ensures WrittenOk(Do(c, s, step))
  {
    var t := Do(c, s, step);
    forall w | 0 <= w < |t.workers| ensures Unwritten(t, w) {
      UnwrittenKept(c, s, step, w);
    }
    if step.Take? {
      StartsGrow(s.batches, s.taken, s.taken + 1);
    } else if step.Write? {
      assert WorkerOk(s, step.w);
      BatchEnd(s.batches, s.workers[step.w].batch);
      StartsGrow(s.batches, s.workers[step.w].batch + 1, s.taken);
    }
  }

  lemma {:induction false} QueuesKept(c: Pool, s: State, step: Step)
    requires Inv(c, s) && Enabled(c, s, step)
    ensures var t := Do(c, s, step); Contiguous(t.batches) && QueuesOk(c, t)
  {
    var t := Do(c, s, step);
    forall k | 0 <= k < |t.batches| ensures Follows(t.batches, k) {
      if k < |s.batches| {
        assert Follows(s.batches, k);
      }
    }
  }

  /** A worker's batch gets its result from that worker only. */
  lemma {:induction false} WorkerKept(c: Pool, s: State, step: Step, w: nat)
    requires Inv(c, s) && Enabled(c, s, step) && w < |s.workers|
    ensures WorkerOk(Do(c, s, step), w)
  {
    assert WorkerOk(s, w);
    if (step.WriteFails? || step.Finish?) && w != step.w {
      assert if w < step.w then Distinct(s, w, step.w) else Distinct(s, step.w, w);
    }
  }

  lemma {:induction false} DistinctKept(c: Pool, s: State, step: Step, w: nat, v: nat)
    requires Inv(c, s) && Enabled(c, s, step) && w < v < |s.workers|
    ensures Distinct(Do(c, s, step), w, v)
  {
    assert Distinct(s, w, v) && WorkerOk(s, w) && WorkerOk(s, v);
  }

  lemma {:induction false} WorkersKept(c: Pool, s: State, step: Step)
    requires Inv(c, s) && Enabled(c, s, step)
    ensures WorkersOk(Do(c, s, step)) && |Do(c, s, step).workers| == |s.workers|
  {
    var t := Do(c, s, step);
    forall w | 0 <= w < |t.workers| ensures WorkerOk(t, w) {
      WorkerKept(c, s, step, w);
    }
    forall w, v | 0 <= w < v < |t.workers| ensures Distinct(t, w, v) {
      DistinctKept(c, s, step, w, v);
    }
  }

  lemma {:induction false} ResultsKept(c: Pool, s: State, step: Step)
    requires Inv(c, s) && Enabled(c, s, step)
    ensures ResultsOk(Do(c, s, step))
  {
    if step.WriteFails? || step.Finish? {
      assert WorkerOk(s, step.w);
    }
  }

  lemma {:induction false} SubmitterKept(c: Pool, s: State, step: Step)
    requires Inv(c, s) && Enabled(c, s, step)
    ensures SubmitterOk(Do(c, s, step))
  {
    var t := Do(c, s, step);
    if step.NextBatch? {
      BatchEnd(s.batches, s.submitter.batch);
    } else if step.WriteFails? || step.Finish? {
      assert WorkerOk(s, step.w);
    }
    forall k: nat | k + 1 < t.popped ensures Good(t, k) {
      assert Good(s, k);
    }
  }

  /** A finished batch keeps its result. */
  lemma {:induction false} GoodKept(c: Pool, s: State, step: Step, b: nat)
    requires Inv(c, s) && Enabled(c, s, step) && b < |Do(c, s, step).batches| && Good(Do(c, s, step), b)
    ensures (b < |s.batches| && Good(s, b)) || (step.Finish? && b == s.workers[step.w].batch)
  {
  }

  lemma {:induction false} WorkerDone(c: Pool, s: State, step: Step, w: nat)
    requires Inv(c, s) && Enabled(c, s, step) && w < |s.workers| && IsWorking(Do(c, s, step), w)
    ensures var t := Do(c, s, step); WrittenUpTo(t, t.workers[w].batch, t.workers[w].i)
  {
    assert WorkerOk(s, w);
    if s.workers[w].Working? {
      assert WrittenUpTo(s, s.workers[w].batch, s.workers[w].i);
    }
  }

  lemma {:induction false} BatchDone(c: Pool, s: State, step: Step, b: nat)
    requires Inv(c, s) && Enabled(c, s, step) && b < |Do(c, s, step).batches| && Good(Do(c, s, step), b)
    ensures var t := Do(c, s, step); WrittenUpTo(t, b, Parsed(t.batches[b]))
  {
    GoodKept(c, s, step, b);
    if b < |s.batches| && Good(s, b) {
      assert WrittenUpTo(s, b, Parsed(s.batches[b]));
    } else {
      assert WrittenUpTo(s, s.workers[step.w].batch, s.workers[step.w].i);
    }
  }

  lemma {:induction false} WorkDoneKept(c: Pool, s: State, step: Step)
    requires Inv(c, s) && Enabled(c, s, step)
    ensures WorkDone(Do(c, s, step))
  {
    var t := Do(c, s, step);
    forall w | 0 <= w < |t.workers| && IsWorking(t, w) ensures WrittenUpTo(t, t.workers[w].batch, t.workers[w].i) {
      WorkerDone(c, s, step, w);
    }
    forall b | 0 <= b < |t.batches| && Good(t, b) ensures WrittenUpTo(t, b, Parsed(t.batches[b])) {
      BatchDone(c, s, step, b);
    }
  }

  /** An item lies in one batch only. */
  lemma {:induction false} OneBatch(batches: seq<Batch>, a: nat, b: nat, j: nat)
    requires Contiguous(batches) && a < |batches| && b < |batches|
    requires batches[a].base <= j < batches[a].base + batches[a].count
    requires batches[b].base <= j < batches[b].base + batches[b].count
    ensures a == b
  {
    if a < b {
      BatchesApart(batches, a, b);
    } else if b < a {
      BatchesApart(batches, b, a);
    }
  }

  lemma {:induction false} LastKept(c: Pool, s: State, step: Step)
    requires Inv(c, s) && Enabled(c, s, step)
    ensures LastUnwritten(Do(c, s, step))
  {
    var t := Do(c, s, step);
    StartsGrow(s.batches, s.taken, |s.batches|);
    forall b: nat, j | j in t.written ensures !EndsBatch(t.batches, b, j) {
      if j in s.written {
        assert !EndsBatch(s.batches, b, j);
      } else if EndsBatch(t.batches, b, j) {
        OneBatch(s.batches, b, s.workers[step.w].batch, j);
      }
    }
  }

  lemma {:induction false} InitialInv(c: Pool)
    ensures Inv(c, Initial(c))
  {
  }

  /** Every step keeps the invariant, whatever the interleaving. */
  lemma {:induction false} InvKept(c: Pool, s: State, step: Step)
    requires Inv(c, s) && Enabled(c, s, step)
    ensures Inv(c, Do(c, s, step))
  {
    RingKept(c, s, step);
    WrittenKept(c, s, step);
    QueuesKept(c, s, step);
    WorkersKept(c, s, step);
    ResultsKept(c, s, step);
    SubmitterKept(c, s, step);
    WorkDoneKept(c, s, step);
    LastKept(c, s, step);
  }

  // ----- what the consumer gets -----

  /** The batch of an item that has been found. */
  lemma {:induction false} BatchOf(batches: seq<Batch>, j: nat, m: nat) returns (b: nat)
    requires Contiguous(batches) && m <= |batches| && j < StartOf(batches, m)
    ensures b < m && batches[b].base <= j < batches[b].base + batches[b].count
  {
    assert batches != [] ==> Follows(batches, 0);
    BatchEnd(batches, m - 1);
    if j >= batches[m - 1].base {
      b := m - 1;
    } else {
      b := BatchOf(batches, j, m - 1);
    }
  }

  /** An item that has been sent belongs to a batch that was finished without error. */
  lemma {:induction false} SentIsGood(c: Pool, s: State, j: nat) returns (b: nat)
    requires Inv(c, s) && j < s.sent
    ensures b < |s.batches| && s.batches[b].base <= j < s.batches[b].base + s.batches[b].count && Good(s, b)
  {
    match s.submitter
    case Ready => b := BatchOf(s.batches, j, s.popped);
    case Awaiting(k) => b := BatchOf(s.batches, j, k);
    case Delivering(k, i) =>
      if j >= s.batches[k].base {
        b := k;
      } else {
        b := BatchOf(s.batches, j, k);
      }
    case Halted => b := BatchOf(s.batches, j, s.popped - 1);
  }

  /** The item that is received next was written by a worker, and its slot still holds it, if and only if it is not the
      last one of its batch. The slot stays untouched until the consumer asks for the next item. */
  lemma {:induction false} ReceivedIff(c: Pool, s: State)
    requires Inv(c, s) && Enabled(c, s, Step.Receive)
    ensures s.received in s.written <==> !IsLast(s.batches, s.received)
    ensures HoldsItem(s.ring, Size(c), s.received) <==> !IsLast(s.batches, s.received)
    ensures Live(Do(c, s, Step.Receive), s.received)
  {
    var j := s.received;
    var b := SentIsGood(c, s, j);
    LiveFit(c, s);
    BatchEnd(s.batches, b);
    StartsGrow(s.batches, b + 1, |s.batches|);
    assert Live(s, j);
    assert WrittenUpTo(s, b, Parsed(s.batches[b]));
    if EndsBatch(s.batches, b, j) {
      assert j !in s.written;
    } else {
      NotLast(s.batches, b, j);
    }
  }

  lemma {:induction false} NotLast(batches: seq<Batch>, b: nat, j: nat)
    requires Contiguous(batches) && b < |batches| && batches[b].base <= j && j + 1 < batches[b].base + batches[b].count
    ensures !IsLast(batches, j)
  {
    forall k: nat ensures !EndsBatch(batches, k, j) {
      if EndsBatch(batches, k, j) {
        OneBatch(batches, b, k, j);
      }
    }
  }

  // ----- runs -----

  ghost predicate Taken(c: Pool, states: seq<State>, steps: seq<Step>, i: nat)
    requires i < |steps| && |states| == |steps| + 1
  {
    Enabled(c, states[i], steps[i]) && states[i + 1] == Do(c, states[i], steps[i])
  }

  ghost predicate IsRun(c: Pool, states: seq<State>, steps: seq<Step>) {
    && |states| == |steps| + 1 && states[0] == Initial(c)
    && forall i | 0 <= i < |steps| :: Taken(c, states, steps, i)
  }

  lemma {:induction false} RunsAreSafe(c: Pool, states: seq<State>, steps: seq<Step>, i: nat)
    requires IsRun(c, states, steps) && i < |states|
    ensures Inv(c, states[i])
  {
    if i == 0 {
      InitialInv(c);
    } else {
      RunsAreSafe(c, states, steps, i - 1);
      assert Taken(c, states, steps, i - 1);
      InvKept(c, states[i - 1], steps[i - 1]);
    }
  }

  /** The number of items that the first `k` steps deliver to the channel. */
  function Deliveries(steps: seq<Step>, k: nat): nat
    requires k <= |steps|
  {
    if k == 0 then 0 else Deliveries(steps, k - 1) + if steps[k - 1].Deliver? then 1 else 0
  }

  /** The number of items that the consumer receives in the first `k` steps. */
  function Receipts(steps: seq<Step>, k: nat): nat
    requires k <= |steps|
  {
    if k == 0 then 0 else Receipts(steps, k - 1) + if steps[k - 1].Receive? then 1 else 0
  }

  lemma {:induction false} Counted(c: Pool, states: seq<State>, steps: seq<Step>, k: nat)
    requires IsRun(c, states, steps) && k < |states|
    ensures states[k].sent == Deliveries(steps, k) && states[k].received == Receipts(steps, k)
  {
    if k > 0 {
      Counted(c, states, steps, k - 1);
      assert Taken(c, states, steps, k - 1);
    }
  }

  /** In every run the n-th item that is delivered, counted from 0, is item n, and it belongs to a batch that was
      finished without error. */
  lemma {:induction false} DeliveredInOrder(c: Pool, states: seq<State>, steps: seq<Step>, k: nat)
    requires IsRun(c, states, steps) && k < |steps| && steps[k].Deliver?
    ensures var s := states[k];
      && s.submitter.Delivering? && s.submitter.batch < |s.batches| && Good(s, s.submitter.batch)
      && s.batches[s.submitter.batch].base + s.submitter.i == Deliveries(steps, k)
      && s.submitter.i < s.batches[s.submitter.batch].count
  {
    RunsAreSafe(c, states, steps, k);
    Counted(c, states, steps, k);
    assert Taken(c, states, steps, k);
  }

  /** In every run the n-th item that is received is item n. Its slot holds it if and only if it is not the last item of
      its batch: the last one is handed out without ever having been written. */
  lemma {:induction false} ReceivedInOrder(c: Pool, states: seq<State>, steps: seq<Step>, k: nat)
    requires IsRun(c, states, steps) && k < |steps| && steps[k].Receive?
    ensures var s, n := states[k], Receipts(steps, k);
      && s.received == n && (HoldsItem(s.ring, Size(c), n) <==> !IsLast(s.batches, n))
      && (n in s.written <==> !IsLast(s.batches, n))
  {
    RunsAreSafe(c, states, steps, k);
    Counted(c, states, steps, k);
    assert Taken(c, states, steps, k);
    ReceivedIff(c, states[k]);
  }
}
