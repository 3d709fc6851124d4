/** The ring buffers behind the two channel readers, as step systems: items are delivered in order, and no slot is
    written while its item is queued, buffered in the channel, or the last one received. */
module Rings {

  // ----- slots -----

  lemma {:induction false} Multiple(p: int, q: int, size: int, d: int)
    requires size > 0 && q * size == p * size + d && 0 < d
    ensures size <= d
  {
    if q <= p {
      MultipleMonotone(q, p, size);
    } else {
      MultipleMonotone(p + 1, q, size);
      assert (p + 1) * size == p * size + size;
    }
  }

  lemma {:induction false} MultipleMonotone(p: int, q: int, size: int)
    requires size > 0 && p <= q
    ensures p * size <= q * size
  {
  }

  /** Items less than a ring apart have different slots. */
  lemma {:induction false} SlotsDiffer(a: nat, b: nat, size: nat)
    requires a < b < a + size
    ensures a % size != b % size
  {
    var p, q, r := a / size, b / size, a % size;
    assert a == p * size + r;
    if b % size == r {
      assert b == q * size + r;
      Multiple(p, q, size, b - a);
    }
  }

  /** The slot holds the item. */
  predicate HoldsItem(ring: map<nat, nat>, size: nat, j: nat)
    requires size > 0
  {
    j % size in ring && ring[j % size] == j
  }

  /** Items written to the ring, items sent to the channel, items received, which item each slot holds, and whether the
      producer has stopped. */
  datatype Single = Single(written: nat, sent: nat, received: nat, ring: map<nat, nat>, stopped: bool)

  /** A failing parse may leave anything in its slot; the producer then sends the error and stops. It ends when the
      stream does. */
  datatype SingleStep = Write | WriteFails | End | Send | Receive

  function RingSize(buffer: nat): nat {
    buffer + 4
  }

  predicate SingleEnabled(buffer: nat, s: Single, step: SingleStep) {
    match step
    case Write => !s.stopped && s.written == s.sent
    case WriteFails => !s.stopped && s.written == s.sent
    case End => !s.stopped && s.written == s.sent
    case Send => s.written > s.sent && s.sent - s.received < buffer
    case Receive => s.received < s.sent
  }

  function SingleDo(buffer: nat, s: Single, step: SingleStep): Single {
    match step
    case Write => s.(written := s.written + 1, ring := s.ring[s.written % RingSize(buffer) := s.written])
    case WriteFails => s.(stopped := true, ring := s.ring - {s.written % RingSize(buffer)})
    case End => s.(stopped := true)
    case Send => s.(sent := s.sent + 1)
    case Receive => s.(received := s.received + 1)
  }

  const SINGLE_START: Single := Single(0, 0, 0, map[], false)

  /** The item has been written, and the consumer has not moved on from it. */
  predicate SingleLive(s: Single, j: nat) {
    j < s.written && s.received <= j + 1
  }

  ghost predicate SingleInv(buffer: nat, s: Single) {
    && s.received <= s.sent <= s.written <= s.sent + 1 && s.sent <= s.received + buffer
    && forall j: nat :: SingleLive(s, j) ==> HoldsItem(s.ring, RingSize(buffer), j)
  }

  /** A write never hits the slot of a live item: one that waits to be sent, is buffered in the channel, or was the last
      one received. */
  lemma {:induction false} SingleWriteSafe(buffer: nat, s: Single, j: nat)
    requires SingleInv(buffer, s) && s.written == s.sent && SingleLive(s, j)
    ensures j % RingSize(buffer) != s.written % RingSize(buffer)
  {
    SlotsDiffer(j, s.written, RingSize(buffer));
  }

  /** Whatever the interleaving, every live item keeps its slot. The next item to be received is item `received`, so
      items arrive in the order 0, 1, 2, ..., and each is intact when it arrives. */
  lemma {:induction false} SingleKept(buffer: nat, s: Single, step: SingleStep)
    requires SingleInv(buffer, s) && SingleEnabled(buffer, s, step)
    ensures SingleInv(buffer, SingleDo(buffer, s, step))
    ensures step.Receive? ==>
      HoldsItem(s.ring, RingSize(buffer), s.received) && SingleLive(SingleDo(buffer, s, step), s.received)
  {
    var t, size := SingleDo(buffer, s, step), RingSize(buffer);
    forall j: nat | SingleLive(t, j) ensures HoldsItem(t.ring, size, j) {
      if j < s.written {
        assert SingleLive(s, j);
        if step.Write? || step.WriteFails? {
          SingleWriteSafe(buffer, s, j);
        }
      }
    }
    if step.Receive? {
      assert SingleLive(s, s.received);
    }
  }

  /** A run from the start. */
  predicate IsRun(buffer: nat, states: seq<Single>, steps: seq<SingleStep>) {
    && |states| == |steps| + 1 && states[0] == SINGLE_START
    && forall k | 0 <= k < |steps| :: Taken(buffer, states, steps, k)
  }

  predicate Taken(buffer: nat, states: seq<Single>, steps: seq<SingleStep>, k: nat)
    requires k < |steps| && |states| == |steps| + 1
  {
    SingleEnabled(buffer, states[k], steps[k]) && states[k + 1] == SingleDo(buffer, states[k], steps[k])
  }

  /** The invariant holds in every state of every run. */
  lemma {:induction false} RunsAreSafe(buffer: nat, states: seq<Single>, steps: seq<SingleStep>, k: nat)
    requires IsRun(buffer, states, steps) && k < |states|
    ensures SingleInv(buffer, states[k])
  {
    if k > 0 {
      RunsAreSafe(buffer, states, steps, k - 1);
      assert Taken(buffer, states, steps, k - 1);
      SingleKept(buffer, states[k - 1], steps[k - 1]);
    }
  }

  /** The number of items received in the first `k` steps. */
  function Receipts(steps: seq<SingleStep>, k: nat): nat
    requires k <= |steps|
  {
    if k == 0 then 0 else Receipts(steps, k - 1) + if steps[k - 1].Receive? then 1 else 0
  }

  /** In every run the consumer's n-th item, counted from 0, is item n, and its slot still holds it; and no write of the
      run hits the slot of a live item. */
  lemma {:induction false} DeliveredInOrder(buffer: nat, states: seq<Single>, steps: seq<SingleStep>, k: nat)
    requires IsRun(buffer, states, steps) && k < |steps|
    ensures states[k].received == Receipts(steps, k)
    ensures steps[k].Receive? ==> HoldsItem(states[k].ring, RingSize(buffer), Receipts(steps, k))
    ensures steps[k].Write? || steps[k].WriteFails? ==>
      forall j: nat | SingleLive(states[k], j) :: j % RingSize(buffer) != states[k].written % RingSize(buffer)
  {
    RunsAreSafe(buffer, states, steps, k);
    ReceivedSoFar(buffer, states, steps, k);
    assert Taken(buffer, states, steps, k);
    SingleKept(buffer, states[k], steps[k]);
    if steps[k].Write? || steps[k].WriteFails? {
      forall j: nat | SingleLive(states[k], j) ensures j % RingSize(buffer) != states[k].written % RingSize(buffer) {
        SingleWriteSafe(buffer, states[k], j);
      }
    }
  }

  lemma {:induction false} ReceivedSoFar(buffer: nat, states: seq<Single>, steps: seq<SingleStep>, k: nat)
    requires IsRun(buffer, states, steps) && k < |states|
    ensures states[k].received == Receipts(steps, k)
  {
    if k > 0 {
      ReceivedSoFar(buffer, states, steps, k - 1);
      assert Taken(buffer, states, steps, k - 1);
    }
  }

  // ----- progress -----

  /** The number of items written in the first `k` steps. */
  function Writes(steps: seq<SingleStep>, k: nat): nat
    requires k <= |steps|
  {
    if k == 0 then 0 else Writes(steps, k - 1) + if steps[k - 1].Write? then 1 else 0
  }

  lemma {:induction false} WrittenSoFar(buffer: nat, states: seq<Single>, steps: seq<SingleStep>, k: nat)
    requires IsRun(buffer, states, steps) && k < |states|
    ensures states[k].written == Writes(steps, k)
  {
    if k > 0 {
      WrittenSoFar(buffer, states, steps, k - 1);
      assert Taken(buffer, states, steps, k - 1);
    }
  }

  /** An item can be written, sent or received, or the producer has stopped and everything that was written has been
      received. The reader raises a buffer of 0 to 1. */
  lemma {:induction false} SingleMoves(buffer: nat, s: Single)
    requires SingleInv(buffer, s) && buffer > 0
    ensures || SingleEnabled(buffer, s, Write) || SingleEnabled(buffer, s, Send) || SingleEnabled(buffer, s, Receive)
            || (s.stopped && s.received == s.written)
  {
  }

  /** When a run cannot be continued, the consumer has received every item that was written. */
  lemma {:induction false} AllReceived(buffer: nat, states: seq<Single>, steps: seq<SingleStep>)
    requires IsRun(buffer, states, steps) && buffer > 0
    requires forall step :: !SingleEnabled(buffer, states[|steps|], step)
    ensures Receipts(steps, |steps|) == Writes(steps, |steps|)
  {
    var n := |steps|;
    RunsAreSafe(buffer, states, steps, n);
    ReceivedSoFar(buffer, states, steps, n);
    WrittenSoFar(buffer, states, steps, n);
    SingleMoves(buffer, states[n]);
  }
}
