/** What the reader with one processor makes of well-formed arrays, and of arrays that are cut off. */
module SingleTheorems {
  import opened Bytes
  import opened Grammar
  import opened Splitter
  import opened ArrayElements
  import opened Windows
  import opened Slices
  import opened WellFormedArrays
  import opened TolerantArrays
  import opened CutArrays
  import opened StrictArrays
  import opened ParallelPlan
  import opened CutPlans
  import opened SingleWorker
  import ParallelTheorems
  import LeadingCommas

  // ----- one batch -----

  lemma {:induction false} AloneGoes(inner: bytes, off: nat, done: seq<Chunk>, t: Turn, turn: Turning)
    requires off < |inner| && turn(off, done) == t
    ensures t.Refuse? ==> Alone(inner, off, done, turn) == Rejected(t.error)
    ensures t.Finished? ==> Alone(inner, off, done, turn) == Accepted(done)
    ensures t.Go? && off < t.off <= |inner| ==> Alone(inner, off, done, turn) == Alone(inner, t.off, t.done, turn)
  {
  }

  /** The batch that begins with element `b` and holds `n` elements, when it is full or leaves nothing open. */
  lemma {:induction false} AloneTurn(inner: bytes, off: nat, all: seq<Chunk>, b: nat, n: nat, cap: nat, room: nat,
                                     accepts: bytes -> bool)
    requires off < |inner| && HoldsFrom(inner, off, cap, all, b, n) && off == if b == 0 then 0 else all[b - 1].end
    requires Split(inner[off..], cap).depth == 0 || |Window(inner, off, cap)| == cap
    ensures AloneAt(inner, off, all[..b], cap, room, accepts) ==
      if b + n > room then Refuse(NoRoom)
      else if !AllAccepted(inner, all[b..b + n], accepts) then Refuse(BadElement)
      else Go(all[b + n - 1].end, all[..b + n])
  {
    var kept := Solid(Window(inner, off, cap));
    assert |Shift(kept, off)| == |kept| == n;
    ParallelTheorems.SameGapRule(inner, off, all[..b], kept);
    TakeJoins(all, b, n);
  }

  /** The batch that begins with element `b`: the verdict, or on to the next one. */
  lemma {:induction false} AloneStep(inner: bytes, off: nat, all: seq<Chunk>, m: nat, b: nat, n: nat, cap: nat,
                                     room: nat, accepts: bytes -> bool, turn: Turning, rest: Result)
    requires off < |inner| && HoldsFrom(inner, off, cap, all, b, n) && off == if b == 0 then 0 else all[b - 1].end
    requires Split(inner[off..], cap).depth == 0 || |Window(inner, off, cap)| == cap
    requires SingleWorker.Decides(turn, inner, cap, room, accepts)
    requires cap > 1 && Begins(b, cap) && n <= Room(b, cap) && b + n <= m <= |all| && b <= room
    requires (b + n == m || n == Room(b, cap)) && b <= FirstReject(inner, all, m, accepts)
    ensures var end := all[b + n - 1].end;
      var v, d := Verdict(inner, all, m, cap, room, accepts, rest), Alone(inner, off, all[..b], turn);
      if b + n <= room && b + n <= FirstReject(inner, all, m, accepts)
      then end <= |inner| && d == Alone(inner, end, all[..b + n], turn) else d == v
  {
    var t := AloneAt(inner, off, all[..b], cap, room, accepts);
    AloneTurn(inner, off, all, b, n, cap, room, accepts);
    RejectIn(inner, all, m, b, n, accepts);
    assert turn(off, all[..b]) == t;
    AloneGoes(inner, off, all[..b], t, turn);
    if !t.Go? {
      VerdictHere(inner, all, m, b, n, cap, room, accepts, rest);
    }
  }

  /** With nothing but the separator in front, the reader stops and answers with what it has. */
  lemma {:induction false} AloneStops(inner: bytes, off: nat, done: seq<Chunk>, cap: nat, room: nat,
                                      accepts: bytes -> bool, turn: Turning)
    requires off < |inner| && EndOf(Window(inner, off, cap)) == 0
    requires SingleWorker.Decides(turn, inner, cap, room, accepts)
    ensures Alone(inner, off, done, turn) == Accepted(done)
  {
    assert turn(off, done) == AloneAt(inner, off, done, cap, room, accepts) == Finished;
  }

  // ----- well-formed arrays -----

  lemma {:induction false} BracketWindow(inner: bytes, off: nat, cap: nat)
    requires Is(inner, off, RBRACKET) && cap > 0
    ensures Window(inner, off, cap) == [Chunk(0, 0)]
  {
    var w := inner[off..];
    assert SkipSpace(w, 0) == 0;
    RunHalted(Step(Initial(0), 0, w[0], cap), w, 1, |w|, cap);
  }

  lemma {:induction false} LaterIsBalanced(inner: bytes, off: nat, before: bytes, it: Items, end: nat, cap: nat)
    requires it.More? && StandsAt(inner, off, before, it, end) && off < |inner|
    ensures Split(inner[off..], cap).depth == 0
  {
    RestAtWindow(inner, off, before, it);
    SplitResumed(inner[off..], it, before, cap);
  }

  /** From the batch that begins with element `b`, behind the first one. */
  lemma {:induction false} AloneResume(inner: bytes, off: nat, before: bytes, it: Items, end: nat, all: seq<Chunk>,
                                       b: nat, cap: nat, room: nat, accepts: bytes -> bool, turn: Turning)
    requires StandsAt(inner, off, before, it, end) && off < |inner| && cap > 1
    requires SingleWorker.Decides(turn, inner, cap, room, accepts)
    requires 0 < b <= |all| && b <= room && RestIs(all, b, Remaining(off, before, it)) && off == all[b - 1].end
    requires (it.More? ==> Begins(b, cap)) && b <= FirstReject(inner, all, |all|, accepts)
    ensures Alone(inner, off, all[..b], turn) == Verdict(inner, all, |all|, cap, room, accepts, Accepted(all))
    decreases |all| - b
  {
    if it.End? {
      LastStop(inner, off, before, it, end, all, b, cap);
      WholeTake(all);
      BracketWindow(inner, off, cap);
      AloneStops(inner, off, all, cap, room, accepts, turn);
    } else {
      var n := Min(cap - 1, Count(it));
      var next, ws, rest := AloneNext(inner, off, before, it, end, all, b, n, cap, room, accepts, turn);
      if b + n <= room && b + n <= FirstReject(inner, all, |all|, accepts) {
        AloneResume(inner, next, ws, rest, end, all, b + n, cap, room, accepts, turn);
      }
    }
  }

  /** Through one resumed batch, or to the verdict. */
  lemma {:induction false} AloneNext(inner: bytes, off: nat, before: bytes, it: Items, end: nat, all: seq<Chunk>,
                                     b: nat, n: nat, cap: nat, room: nat, accepts: bytes -> bool, turn: Turning)
    returns (next: nat, ws: bytes, rest: Items)
    requires StandsAt(inner, off, before, it, end) && off < |inner| && cap > 1 && it.More? && Begins(b, cap)
    requires SingleWorker.Decides(turn, inner, cap, room, accepts) && n == Min(cap - 1, Count(it))
    requires 0 < b <= |all| && b <= room && RestIs(all, b, Remaining(off, before, it)) && off == all[b - 1].end
    requires b <= FirstReject(inner, all, |all|, accepts)
    ensures 0 < n && b + n <= |all| && next == all[b + n - 1].end && next < |inner|
    ensures StandsAt(inner, next, ws, rest, end) == true && RestIs(all, b + n, Remaining(next, ws, rest)) == true
    ensures rest.More? ==> Begins(b + n, cap)
    ensures Alone(inner, off, all[..b], turn) ==
      if b + n <= room && b + n <= FirstReject(inner, all, |all|, accepts) then Alone(inner, next, all[..b + n], turn)
      else Verdict(inner, all, |all|, cap, room, accepts, Accepted(all))
  {
    next, ws, rest := ResumedHolds(inner, off, before, it, end, all, b, n, cap);
    LastOfRest(all, b, n, cap, next, ws, rest);
    LaterIsBalanced(inner, off, before, it, end, cap);
    AloneStep(inner, off, all, |all|, b, n, cap, room, accepts, turn, Accepted(all));
    WindowStarts(b, n, cap);
  }

  /** Through the first batch, or to the verdict. */
  lemma {:induction false} AloneFirst(inner: bytes, p: nat, it: Items, all: seq<Chunk>, n: nat, cap: nat, room: nat,
                                      accepts: bytes -> bool, turn: Turning)
    returns (next: nat, ws: bytes, rest: Items)
    requires ArrayBody(inner, p, it) && AllSpace(inner[p + ItemsLen(it) + 1..]) && cap > 1 && it.More?
    requires SingleWorker.Decides(turn, inner, cap, room, accepts) && all == Elements(it, p, p)
    requires n == Min(cap, Count(it))
    ensures 0 < n <= |all| && next == all[n - 1].end && next < |inner|
    ensures StandsAt(inner, next, ws, rest, p + ItemsLen(it)) == true &&
      RestIs(all, n, Remaining(next, ws, rest)) == true
    ensures rest.More? ==> Begins(n, cap)
    ensures Alone(inner, 0, all[..0], turn) ==
      if n <= room && n <= FirstReject(inner, all, |all|, accepts) then Alone(inner, next, all[..n], turn)
      else Verdict(inner, all, |all|, cap, room, accepts, Accepted(all))
  {
    next, ws, rest := FirstHolds(inner, p, it, all, n, cap);
    LastOfRest(all, 0, n, cap, next, ws, rest);
    assert inner[0..] == inner;
    SplitArray(inner, p, it, cap);
    AloneStep(inner, 0, all, |all|, 0, n, cap, room, accepts, turn, Accepted(all));
    WindowStarts(0, n, cap);
  }

  /** An empty array: the batch of its bracket holds no element, and the next one begins at the bracket. */
  lemma {:induction false} AloneEmpty(inner: bytes, p: nat, cap: nat, room: nat, accepts: bytes -> bool, turn: Turning)
    requires ArrayBody(inner, p, End) && AllSpace(inner[p + 1..]) && cap > 1
    requires SingleWorker.Decides(turn, inner, cap, room, accepts)
    ensures Alone(inner, 0, [], turn) == Accepted([])
  {
    EmptyArray(inner, p, cap);
    assert inner[0..] == inner;
    SplitEmptyArray(inner, p, cap);
    var none: seq<Chunk> := [];
    var t := AloneAt(inner, 0, none, cap, room, accepts);
    assert Window(inner, 0, cap) == [Chunk(p, p)];
    assert turn(0, none) == t;
    AloneGoes(inner, 0, none, t, turn);
    if p > 0 {
      assert |Shift(Solid(Window(inner, 0, cap)), 0)| == 0;
      assert t == Go(p, none);
      BracketWindow(inner, p, cap);
      AloneStops(inner, p, none, cap, room, accepts, turn);
    }
  }

  lemma {:induction false} AloneWhole(inner: bytes, p: nat, it: Items, cap: nat, room: nat, accepts: bytes -> bool,
                                      turn: Turning)
    requires ArrayBody(inner, p, it) && AllSpace(inner[p + ItemsLen(it) + 1..]) && cap > 1
    requires SingleWorker.Decides(turn, inner, cap, room, accepts)
    ensures var all := Elements(it, p, p);
      Alone(inner, 0, [], turn) == Verdict(inner, all, |all|, cap, room, accepts, Accepted(all))
  {
    var all := Elements(it, p, p);
    WholeTake(all);
    if it.End? {
      AloneEmpty(inner, p, cap, room, accepts, turn);
    } else {
      AloneMore(inner, p, it, all, cap, room, accepts, turn);
    }
  }

  lemma {:induction false} AloneMore(inner: bytes, p: nat, it: Items, all: seq<Chunk>, cap: nat, room: nat,
                                     accepts: bytes -> bool, turn: Turning)
    requires ArrayBody(inner, p, it) && AllSpace(inner[p + ItemsLen(it) + 1..]) && cap > 1 && it.More?
    requires SingleWorker.Decides(turn, inner, cap, room, accepts) && all == Elements(it, p, p)
    ensures Alone(inner, 0, all[..0], turn) == Verdict(inner, all, |all|, cap, room, accepts, Accepted(all))
  {
    var n := Min(cap, Count(it));
    var next, before, rest := AloneFirst(inner, p, it, all, n, cap, room, accepts, turn);
    if n <= room && n <= FirstReject(inner, all, |all|, accepts) {
      AloneResume(inner, next, before, rest, p + ItemsLen(it), all, n, cap, room, accepts, turn);
    }
  }

  /** On every well-formed array it answers what the serial reader answers with a chunk buffer of one batch: all
      elements, if they parse and fit, and otherwise the same error. */
  lemma {:induction false} WellFormedAlone(raw: bytes, p: nat, it: Items, room: nat, accepts: bytes -> bool)
    requires Inside(raw).Some? && ArrayBody(Inner(raw), p, it) && AllSpace(Inner(raw)[p + ItemsLen(it) + 1..])
    requires room > 0
    ensures var inner, all := Inner(raw), Elements(it, p, p);
      AcceptAlone(raw, room, accepts) == Verdict(inner, all, |all|, BATCH, room, accepts, Accepted(all))
    ensures AcceptAlone(raw, room, accepts) == Accept(raw, BATCH, room, accepts)
  {
    AloneWhole(Inner(raw), p, it, BATCH, room, accepts, AloneTurns(Inner(raw), BATCH, room, accepts));
    WellFormedVerdict(raw, p, it, BATCH, room, accepts);
  }

  // ----- beside the pipeline -----

  /** What the two paths make of the same batch: a window without a chunk ends the reading instead of being judged, a
      batch without an element is refused unless it closes the array, and the elements are parsed at once. */
  lemma {:induction false} AloneAsPlanned(inner: bytes, off: nat, done: seq<Chunk>, cap: nat, room: nat,
                                          accepts: bytes -> bool)
    requires off < |inner| && |done| <= room
    ensures AloneAt(inner, off, done, cap, room, accepts) ==
      match ScanAt(inner, off, done, room, cap)
      case Leave => Finished
      case Stop(error) => if |Window(inner, off, cap)| == 0 then Finished else Refuse(error)
      case Batch(next, chunks) =>
        if |chunks| == 0 && !Closes(inner[off..], 0) then Refuse(Malformed)
        else if !AllAccepted(inner, chunks, accepts) then Refuse(BadElement)
        else Go(next, done + chunks)
  {
  }

  lemma {:induction false} PlanGrows(inner: bytes, off: nat, done: seq<Chunk>, scan: Scan)
    requires off <= |inner| && PlanFrom(inner, off, done, scan).Complete?
    ensures done <= PlanFrom(inner, off, done, scan).ranges
    decreases |inner| - off
  {
    if off < |inner| {
      var r := scan(off, done);
      if r.Batch? {
        PlanGrows(inner, r.next, done + r.chunks, scan);
      }
    }
  }

  lemma {:induction false} PartAccepted(inner: bytes, done: seq<Chunk>, chunks: seq<Chunk>, all: seq<Chunk>,
                                        accepts: bytes -> bool)
    requires done + chunks <= all && AllAccepted(inner, all, accepts)
    ensures AllAccepted(inner, chunks, accepts)
  {
    forall k | 0 <= k < |chunks| ensures accepts(Piece(inner, chunks[k])) {
      assert chunks[k] == (done + chunks)[|done| + k] == all[|done| + k];
    }
  }

  /** On every input: where the plan of the pipeline is complete and all its elements parse, the reader with one
      processor returns the same elements, or it refuses the input for a batch without elements. */
  lemma {:induction false} PlannedIsReadAlone(inner: bytes, off: nat, done: seq<Chunk>, room: nat,
                                              accepts: bytes -> bool, turn: Turning, scan: Scan)
    requires off <= |inner| && |done| <= room && CutPlans.Plans(scan, inner, room, BATCH)
    requires SingleWorker.Decides(turn, inner, BATCH, room, accepts) && PlanFrom(inner, off, done, scan).Complete?
    requires AllAccepted(inner, PlanFrom(inner, off, done, scan).ranges, accepts)
    ensures var a := Alone(inner, off, done, turn);
      a == Accepted(PlanFrom(inner, off, done, scan).ranges) || a == Rejected(Malformed)
    decreases |inner| - off
  {
    if off < |inner| {
      var t := AloneAt(inner, off, done, BATCH, room, accepts);
      AloneAsPlanned(inner, off, done, BATCH, room, accepts);
      AloneGoes(inner, off, done, t, turn);
      var r := ScanAt(inner, off, done, room, BATCH);
      assert scan(off, done) == r;
      if r.Batch? {
        PlanGrows(inner, r.next, done + r.chunks, scan);
        PartAccepted(inner, done, r.chunks, PlanFrom(inner, off, done, scan).ranges, accepts);
        PlannedIsReadAlone(inner, r.next, done + r.chunks, room, accepts, turn, scan);
      }
    }
  }

  // ----- cut arrays -----

  /** How many of the `m` terminated elements count: those in front of the last batch, if that is not full and finds
      open brackets, and otherwise all. */
  function Counted(m: nat, open: int, cap: nat): (k: nat)
    requires cap > 1
    ensures k <= m
  {
    if m == 0 then 0
    else
      var b := WindowStart(m - 1, cap);
      if open != 0 && m - b < Room(b, cap) then b else m
  }

  /** What the reader answers if all that count parse and fit: success, unless the last batch is refused. */
  function CutAnswer(all: seq<Chunk>, m: nat, k: nat): Result
    requires m <= |all|
  {
    if k == m then Accepted(all[..m]) else Rejected(Malformed)
  }

  /** Which batches count. */
  lemma {:induction false} CountedHere(m: nat, open: int, b: nat, n: nat, cap: nat)
    requires cap > 1 && Begins(b, cap) && b < m && n == Min(Room(b, cap), m - b)
    ensures b <= Counted(m, open, cap)
    ensures if open != 0 && n < Room(b, cap) then Counted(m, open, cap) == b && b + n == m
            else b + n <= Counted(m, open, cap) && (b + n == m ==> Counted(m, open, cap) == m)
  {
    if b + n == m {
      WindowStarts(b, n - 1, cap);
    } else {
      WindowStarts(b, n, cap);
      StartsAhead(b + n, m - 1, cap);
    }
  }

  /** A batch of terminated elements: the verdict, or on to the next one. */
  lemma {:induction false} AloneCutBatch(inner: bytes, off: nat, all: seq<Chunk>, b: nat, n: nat, open: int, cap: nat,
                                         room: nat, accepts: bytes -> bool, turn: Turning)
    requires off < |inner| && HoldsFrom(inner, off, cap, all, b, n) && off == if b == 0 then 0 else all[b - 1].end
    requires cap > 1 && Begins(b, cap) && b <= room && n == Min(Room(b, cap), |all| - 1 - b)
    requires |Window(inner, off, cap)| < cap <==> n < Room(b, cap)
    requires n < Room(b, cap) ==> Split(inner[off..], cap).depth == open
    requires SingleWorker.Decides(turn, inner, cap, room, accepts)
    requires b <= FirstReject(inner, all, Counted(|all| - 1, open, cap), accepts)
    ensures var m, next := |all| - 1, all[b + n - 1].end;
      var k := Counted(m, open, cap);
      next <= |inner| && Alone(inner, off, all[..b], turn) ==
        if b + n <= k && b + n <= room && b + n <= FirstReject(inner, all, k, accepts)
        then Alone(inner, next, all[..b + n], turn)
        else Verdict(inner, all, k, cap, room, accepts, CutAnswer(all, m, k))
  {
    var m := |all| - 1;
    var k := Counted(m, open, cap);
    CountedHere(m, open, b, n, cap);
    EndsInside(inner, off, cap, all, b, n);
    if b + n <= k {
      AloneStep(inner, off, all, k, b, n, cap, room, accepts, turn, CutAnswer(all, m, k));
    } else {
      AloneRefused(inner, off, all, b, n, cap, room, accepts, turn);
    }
  }

  lemma {:induction false} EndsInside(inner: bytes, off: nat, cap: nat, all: seq<Chunk>, b: nat, n: nat)
    requires off < |inner| && HoldsFrom(inner, off, cap, all, b, n)
    ensures all[b + n - 1].end <= |inner|
  {
  }

  /** The last batch finds open brackets. */
  lemma {:induction false} AloneRefused(inner: bytes, off: nat, all: seq<Chunk>, b: nat, n: nat, cap: nat, room: nat,
                                        accepts: bytes -> bool, turn: Turning)
    requires off < |inner| && HoldsFrom(inner, off, cap, all, b, n)
    requires Split(inner[off..], cap).depth != 0 && |Window(inner, off, cap)| < cap
    requires SingleWorker.Decides(turn, inner, cap, room, accepts)
    ensures Alone(inner, off, all[..b], turn) == Rejected(Malformed)
  {
    assert |Shift(Solid(Window(inner, off, cap)), off)| == |Solid(Window(inner, off, cap))| == n;
    assert turn(off, all[..b]) == AloneAt(inner, off, all[..b], cap, room, accepts) == Refuse(Malformed);
  }

  /** From the batch that begins with element `b`, behind the first one. */
  lemma {:induction false} AloneCutFrom(inner: bytes, full: bytes, off: nat, before: bytes, it: Items, all: seq<Chunk>,
                                        b: nat, open: int, cap: nat, room: nat, accepts: bytes -> bool, turn: Turning)
    requires CutAtElement(inner, full, off, before, it, all, b) && cap > 1 && b <= room
    requires (it.rest.More? ==> Begins(b, cap)) && SingleWorker.Decides(turn, inner, cap, room, accepts)
    requires |all| > 1 && all[|all| - 2].end < |inner| && open == Nesting(inner[all[|all| - 2].end + 1..])
    requires b <= FirstReject(inner, all, Counted(|all| - 1, open, cap), accepts)
    ensures off < |inner|
    ensures var m := |all| - 1;
      var k := Counted(m, open, cap);
      Alone(inner, off, all[..b], turn) == Verdict(inner, all, k, cap, room, accepts, CutAnswer(all, m, k))
    decreases |all| - b
  {
    CutLeft(inner, full, off, before, it, all, b);
    if it.rest.End? {
      CutChunks(inner, full, off, before, it, cap);
      OpenIsEnd(it, off + 1 + |before|, off + 1, off + 1);
      assert Window(inner, off, cap) == [Chunk(0, 0)];
      AloneStops(inner, off, all[..b], cap, room, accepts, turn);
    } else {
      var n := Min(cap - 1, |all| - 1 - b);
      var next, ws, rest := AloneCutNext(inner, full, off, before, it, all, b, n, open, cap, room, accepts, turn);
      var k := Counted(|all| - 1, open, cap);
      if b + n <= k && b + n <= room && b + n <= FirstReject(inner, all, k, accepts) {
        AloneCutFrom(inner, full, next, ws, rest, all, b + n, open, cap, room, accepts, turn);
      }
    }
  }

  /** Through one resumed batch, or to the verdict. */
  lemma {:induction false} AloneCutNext(inner: bytes, full: bytes, off: nat, before: bytes, it: Items, all: seq<Chunk>,
                                        b: nat, n: nat, open: int, cap: nat, room: nat, accepts: bytes -> bool,
                                        turn: Turning)
    returns (next: nat, ws: bytes, rest: Items)
    requires CutAtElement(inner, full, off, before, it, all, b) && cap > 1 && b <= room && it.rest.More?
    requires Begins(b, cap) && SingleWorker.Decides(turn, inner, cap, room, accepts) && n == Min(cap - 1, |all| - 1 - b)
    requires |all| > 1 && all[|all| - 2].end < |inner| && open == Nesting(inner[all[|all| - 2].end + 1..])
    requires b <= FirstReject(inner, all, Counted(|all| - 1, open, cap), accepts)
    ensures off < |inner| && 0 < n && b + n < |all| && CutAtElement(inner, full, next, ws, rest, all, b + n) == true
    ensures (rest.rest.More? ==> Begins(b + n, cap)) && next <= |inner|
    ensures var m := |all| - 1;
      var k := Counted(m, open, cap);
      Alone(inner, off, all[..b], turn) ==
      if b + n <= k && b + n <= room && b + n <= FirstReject(inner, all, k, accepts)
      then Alone(inner, next, all[..b + n], turn)
      else Verdict(inner, all, k, cap, room, accepts, CutAnswer(all, m, k))
  {
    CutLeft(inner, full, off, before, it, all, b);
    next, ws, rest := CutHolds(inner, full, off, before, it, all, b, n, cap);
    LaterBatch(inner, full, off, before, it, all, b, n, cap);
    AloneCutBatch(inner, off, all, b, n, open, cap, room, accepts, turn);
    WindowStarts(b, n, cap);
  }

  /** Through the first batch, or to the verdict. */
  lemma {:induction false} AloneCutFirst(inner: bytes, full: bytes, p: nat, it: Items, all: seq<Chunk>, n: nat,
                                         open: int, cap: nat, room: nat, accepts: bytes -> bool, turn: Turning)
    returns (next: nat, ws: bytes, rest: Items)
    requires CutFrom(inner, full, p, it) && it.rest.More? && all == Elements(it, p, p) && |all| > 1 && cap > 1
    requires LastOpen(it, p, 0) <= |inner| && open == Nesting(inner[LastOpen(it, p, 0)..])
    requires n == Min(cap, |all| - 1) && SingleWorker.Decides(turn, inner, cap, room, accepts)
    ensures inner != [] && 0 < n < |all| && CutAtElement(inner, full, next, ws, rest, all, n) == true
    ensures (rest.rest.More? ==> Begins(n, cap)) && next <= |inner|
    ensures var m := |all| - 1;
      var k := Counted(m, open, cap);
      Alone(inner, 0, all[..0], turn) ==
      if n <= k && n <= room && n <= FirstReject(inner, all, k, accepts)
      then Alone(inner, next, all[..n], turn)
      else Verdict(inner, all, k, cap, room, accepts, CutAnswer(all, m, k))
  {
    FirstBatch(inner, full, p, it, all, n, cap);
    next, ws, rest := CutFirstHolds(inner, full, p, it, all, n, cap);
    AloneCutBatch(inner, 0, all, 0, n, open, cap, room, accepts, turn);
  }

  lemma {:induction false} AloneCut(inner: bytes, full: bytes, p: nat, it: Items, cap: nat, room: nat,
                                    accepts: bytes -> bool, turn: Turning)
    requires CutFrom(inner, full, p, it) && cap > 1 && SingleWorker.Decides(turn, inner, cap, room, accepts)
    ensures Count(it) > 0 && LastOpen(it, p, 0) <= |inner|
    ensures var all, m := Elements(it, p, p), Count(it) - 1;
      var k := Counted(m, Nesting(inner[LastOpen(it, p, 0)..]), cap);
      Alone(inner, 0, [], turn) == Verdict(inner, all, k, cap, room, accepts, CutAnswer(all, m, k))
  {
    var all := Elements(it, p, p);
    OpenIsEnd(it, p, p, 0);
    WholeTake(all);
    if it.rest.More? {
      AloneCutMore(inner, full, p, it, all, Nesting(inner[LastOpen(it, p, 0)..]), cap, room, accepts, turn);
    } else if inner != [] {
      NoWindow(inner, full, p, it, cap);
      AloneStops(inner, 0, all[..0], cap, room, accepts, turn);
    }
  }

  lemma {:induction false} AloneCutMore(inner: bytes, full: bytes, p: nat, it: Items, all: seq<Chunk>, open: int,
                                        cap: nat, room: nat, accepts: bytes -> bool, turn: Turning)
    requires CutFrom(inner, full, p, it) && it.rest.More? && all == Elements(it, p, p) && |all| > 1 && cap > 1
    requires LastOpen(it, p, 0) <= |inner| && open == Nesting(inner[LastOpen(it, p, 0)..])
    requires all[|all| - 2].end < |inner| && LastOpen(it, p, 0) == all[|all| - 2].end + 1
    requires SingleWorker.Decides(turn, inner, cap, room, accepts)
    ensures var m := |all| - 1;
      var k := Counted(m, open, cap);
      Alone(inner, 0, all[..0], turn) == Verdict(inner, all, k, cap, room, accepts, CutAnswer(all, m, k))
  {
    var n := Min(cap, |all| - 1);
    var next, ws, rest := AloneCutFirst(inner, full, p, it, all, n, open, cap, room, accepts, turn);
    var k := Counted(|all| - 1, open, cap);
    if n <= k && n <= room && n <= FirstReject(inner, all, k, accepts) {
      AloneCutFrom(inner, full, next, ws, rest, all, n, open, cap, room, accepts, turn);
    }
  }

  lemma {:induction false} NoWindow(inner: bytes, full: bytes, p: nat, it: Items, cap: nat)
    requires CutFrom(inner, full, p, it) && it.rest.End? && inner != []
    ensures EndOf(Window(inner, 0, cap)) == 0
  {
    assert inner[0..] == inner;
    SplitCut(inner, full, p, it, cap);
    assert Stored([], [], cap) == [];
  }

  /** On every array that is cut off inside its last element, or in front of it: nothing says that it is not complete.
      If the terminated elements parse and fit, the reader succeeds with them, unless the rest leaves brackets open and
      the last batch is not full. */
  lemma {:induction false} CutAlone(raw: bytes, full: bytes, p: nat, it: Items, room: nat, accepts: bytes -> bool)
    requires CutArray(raw, full, p, it) && room > 0
    ensures Count(it) > 0 && LastOpen(it, p, 0) <= |Inner(raw)|
    ensures var inner, all, m := Inner(raw), Elements(it, p, p), Count(it) - 1;
      var k := Counted(m, Nesting(inner[LastOpen(it, p, 0)..]), BATCH);
      && AcceptAlone(raw, room, accepts) == Verdict(inner, all, k, BATCH, room, accepts, CutAnswer(all, m, k))
      && (AcceptAlone(raw, room, accepts).Accepted? <==>
            k == m <= room && AllAccepted(inner, Elements(it, p, p)[..m], accepts))
  {
    var inner, all, m := Inner(raw), Elements(it, p, p), Count(it) - 1;
    AloneCut(inner, full, p, it, BATCH, room, accepts, AloneTurns(inner, BATCH, room, accepts));
    var k := Counted(m, Nesting(inner[LastOpen(it, p, 0)..]), BATCH);
    if k == m {
      RejectIn(inner, all, m, 0, m, accepts);
      assert all[0..m] == all[..m];
    }
  }

  /** The smallest such input: of `[1,2` without its bracket the reader with one processor returns the first element as
      the whole array, and the producer of the pipeline refuses it. */
  lemma {:induction false} TruncatedIsAccepted(room: nat, accepts: bytes -> bool)
    requires room > 0 && accepts([0x31])
    ensures var raw := [LBRACKET, 0x31, COMMA, 0x32];
      && AcceptAlone(raw, room, accepts) == Accepted([Chunk(0, 1)])
      && PlanFrom(Inner(raw), 0, [], Scans(Inner(raw), room)).Broken?
  {
    var raw, full := [LBRACKET, 0x31, COMMA, 0x32], [0x31, COMMA, 0x32, RBRACKET];
    var it := TwoBare();
    assert SkipSpace(raw, 0) == 0;
    assert Inner(raw) == full[..3];
    OpenIsEnd(it, 0, 0, 0);
    assert LastOpen(it, 0, 0) == 2;
    CutIsPlanned(Inner(raw), full, 0, it, room);
    NothingOpen(Inner(raw)[2..]);
    CutAlone(raw, full, 0, it, room, accepts);
    assert Elements(it, 0, 0)[..1] == [Chunk(0, 1)];
    assert Piece(Inner(raw), Chunk(0, 1)) == [0x31];
  }

  lemma {:induction false} NothingOpen(t: bytes)
    requires t == [0x32]
    ensures Nesting(t) == 0
  {
  }

  /** The other way round, 1024 leading commas, which the pipeline accepts, are refused. */
  lemma {:induction false} CrowdedIsRefused(room: nat, accepts: bytes -> bool)
    requires room > 0
    ensures AcceptAlone([LBRACKET] + LeadingCommas.Crowded(), room, accepts) == Rejected(Malformed)
  {
    var inner := LeadingCommas.Crowded();
    var raw := [LBRACKET] + inner;
    assert SkipSpace(raw, 0) == 0 && raw[1..] == inner && Inner(raw) == inner && inner[0..] == inner;
    LeadingCommas.CrowdedFirst(room);
    var none: seq<Chunk> := [];
    AloneAsPlanned(inner, 0, none, BATCH, room, accepts);
    CommaDoesNotClose(inner, 0);
    var turn := AloneTurns(inner, BATCH, room, accepts);
    assert turn(0, none) == AloneAt(inner, 0, none, BATCH, room, accepts);
    AloneGoes(inner, 0, none, Refuse(Malformed), turn);
  }
}
