/** What the plan of the parallel reader says about the input. */
module ParallelTheorems {
  import opened Bytes
  import opened Grammar
  import opened Splitter
  import opened ArrayElements
  import opened Windows
  import opened Slices
  import opened SliceTheorems
  import opened WellFormedArrays
  import opened ParallelPlan
  import Pipeline

  // ----- the producer's batches are sound -----

  lemma {:induction false} AtMostOnePerByte(kept: seq<Chunk>, limit: nat)
    requires Ascending(kept, limit)
    ensures |kept| <= EndOf(kept) <= limit
    decreases |kept|
  {
    if |kept| > 0 {
      var n := |kept| - 1;
      var shorter := kept[..n];
      forall k | 0 <= k < n ensures Ascends(shorter, k, limit) {
        assert Ascends(kept, k, limit);
      }
      AtMostOnePerByte(shorter, limit);
      assert Ascends(kept, n, limit);
    }
  }

  lemma {:induction false} BatchIsSmall(inner: bytes, off: nat, done: seq<Chunk>, room: nat)
    requires off < |inner| && ScanAt(inner, off, done, room, BATCH).Batch?
    ensures var b := ScanAt(inner, off, done, room, BATCH); |b.chunks| <= b.next - off
  {
    var cs := Window(inner, off, BATCH);
    WindowTiled(inner, off, BATCH);
    AtMostOnePerByte(Solid(cs), EndOf(cs));
  }

  lemma {:induction false} ScansAreSound(c: Pipeline.Setup)
    requires c.workers > 0 && c.scan == Scans(c.inner, c.room)
    ensures Pipeline.Sound(c)
  {
    forall off: nat, done: seq<Chunk> | c.scan(off, done).Batch? ensures Pipeline.GoodBatch(c, off, done) {
      assert c.scan(off, done) == ScanAt(c.inner, off, done, c.room, BATCH);
      BatchIsSmall(c.inner, off, done, c.room);
    }
  }

  // ----- a complete plan has one comma between any two neighbours -----

  ghost predicate OneComma(inner: bytes, ranges: seq<Chunk>, k: nat)
    requires 0 < k < |ranges|
  {
    ranges[k - 1].end <= ranges[k].start <= |inner| && Separates(inner[ranges[k - 1].end..ranges[k].start], true)
  }

  ghost predicate OneCommaEach(inner: bytes, ranges: seq<Chunk>) {
    forall k | 0 < k < |ranges| :: OneComma(inner, ranges, k)
  }

  lemma {:induction false} BatchKeepsCommas(inner: bytes, off: nat, done: seq<Chunk>, room: nat)
    requires off < |inner| && ScanAt(inner, off, done, room, BATCH).Batch?
    requires OneCommaEach(inner, done) && Ascending(done, off) && EndOf(done) <= off
    ensures var b := ScanAt(inner, off, done, room, BATCH);
      OneCommaEach(inner, done + b.chunks) && Ascending(done + b.chunks, b.next) && EndOf(done + b.chunks) <= b.next
  {
    var b, cs := ScanAt(inner, off, done, room, BATCH), Window(inner, off, BATCH);
    var all := done + b.chunks;
    WindowTiled(inner, off, BATCH);
    AscendingShift(done, Solid(cs), off, EndOf(cs));
    AtMostOnePerByte(Solid(cs), EndOf(cs));
    forall k | 0 < k < |all| ensures OneComma(inner, all, k) {
      if k < |done| {
        assert OneComma(inner, done, k);
      } else {
        assert BatchGapOk(inner, off, all, k);
      }
    }
  }

  /** A complete plan's ranges are increasing and disjoint; between any two neighbours there is exactly one comma and
      whitespace; and behind the last one only the closing bracket and whitespace. */
  lemma {:induction false} CompleteMeansSeparated(inner: bytes, off: nat, done: seq<Chunk>, room: nat)
    requires off <= |inner| && OneCommaEach(inner, done) && Ascending(done, off) && EndOf(done) <= off
    ensures var p := PlanFrom(inner, off, done, Scans(inner, room));
      p.Complete? ==> OneCommaEach(inner, p.ranges) && Ascending(p.ranges, |inner|) && Closes(inner, EndOf(p.ranges))
    decreases |inner| - off
  {
    var scan := Scans(inner, room);
    AscendingWider(done, off, |inner|);
    if off < |inner| {
      var r := scan(off, done);
      assert r == ScanAt(inner, off, done, room, BATCH);
      if r.Batch? {
        BatchKeepsCommas(inner, off, done, room);
        CompleteMeansSeparated(inner, r.next, done + r.chunks, room);
      }
    }
  }

  // ----- well-formed arrays have a complete plan -----

  /** At a resumed window the producer's gap rule is the serial one. */
  lemma {:induction false} SameGapRule(inner: bytes, off: nat, done: seq<Chunk>, kept: seq<Chunk>)
    requires off < |inner| && (if done == [] then off == 0 else EndOf(done) == off)
    requires GapsOk(inner[off..], kept, done != [])
    ensures BatchGapsOk(inner, off, done, done + Shift(kept, off))
  {
    var all := done + Shift(kept, off);
    forall k | |done| <= k < |all| ensures BatchGapOk(inner, off, all, k) {
      SameGap(inner, off, done, kept, k - |done|);
    }
  }

  lemma {:induction false} SameGap(inner: bytes, off: nat, done: seq<Chunk>, kept: seq<Chunk>, i: nat)
    requires off < |inner| && (if done == [] then off == 0 else EndOf(done) == off)
    requires i < |kept| && GapOk(inner[off..], kept, i, done != [])
    ensures BatchGapOk(inner, off, done + Shift(kept, off), |done| + i)
  {
    var w, all, k := inner[off..], done + Shift(kept, off), |done| + i;
    var from, to := if i == 0 then 0 else kept[i - 1].end, kept[i].start;
    assert all[k] == Moved(kept[i], off) && (i > 0 ==> all[k - 1] == Moved(kept[i - 1], off));
    assert i == 0 && done != [] ==> all[k - 1] == done[|done| - 1];
    assert w[from..to] == inner[off + from..off + to];
  }

  lemma {:induction false} PlanGoes(inner: bytes, off: nat, done: seq<Chunk>, all: seq<Chunk>, n: nat, room: nat)
    requires off < |inner| && Holds(inner, off, BATCH, done != [], all, n)
    requires if done == [] then off == 0 else EndOf(done) == off
    requires Split(inner[off..], BATCH).depth == 0 && all[n - 1].end > off
    ensures ScanAt(inner, off, done, room, BATCH) ==
      if |done| + n <= room then Batch(all[n - 1].end, all[..n]) else Stop(NoRoom)
  {
    var cs := Window(inner, off, BATCH);
    assert |Solid(cs)| == n;
    SameGapRule(inner, off, done, Solid(cs));
    assert cs == [] ==> Solid(cs) == [];
  }

  lemma {:induction false} PlanFromGoes(inner: bytes, off: nat, done: seq<Chunk>, scan: Scan, next: nat,
                                        chunks: seq<Chunk>)
    requires off < next <= |inner| && scan(off, done) == Batch(next, chunks)
    ensures PlanFrom(inner, off, done, scan) == PlanFrom(inner, next, done + chunks, scan)
  {
  }

  lemma {:induction false} PlanStops(inner: bytes, off: nat, done: seq<Chunk>, scan: Scan, error: Error)
    requires off < |inner| && scan(off, done) == Stop(error)
    ensures PlanFrom(inner, off, done, scan) == Broken(error)
  {
  }

  /** The plan of an array whose elements are `all`: it is complete if there is a slot for each of them. */
  function Fitting(all: seq<Chunk>, room: nat): Plan {
    if |all| <= room then Complete(all) else Broken(NoRoom)
  }

  lemma {:induction false} PlanOn(inner: bytes, off: nat, i: nat, it: Items, start: nat, end: nat, done: seq<Chunk>,
                                  n: nat, room: nat)
    requires off < |inner| && IsItems(Array, it) && ItemsAt(inner, i, it) && i + ItemsLen(it) == end
    requires Is(inner, end, RBRACKET) && AllSpace(inner[end + 1..])
    requires if done == [] then off == 0 else EndOf(done) == off
    requires Holds(inner, off, BATCH, done != [], Elements(it, i, start), n) && Split(inner[off..], BATCH).depth == 0
    ensures PlanFrom(inner, off, done, Scans(inner, room)) == Fitting(done + Elements(it, i, start), room)
    decreases |inner| - off, 0
  {
    var all, scan := Elements(it, i, start), Scans(inner, room);
    var next, before, rest := DropElements(inner, i, it, start, n, end);
    var more := done + all[..n];
    HoldsAdvances(inner, off, done, all, n);
    PlanGoes(inner, off, done, all, n, room);
    assert scan(off, done) == ScanAt(inner, off, done, room, BATCH);
    if |done| + n <= room {
      PlanFromGoes(inner, off, done, scan, next, all[..n]);
      PlanResumes(inner, next, before, rest, end, more, room);
      Rejoined(done, all, n);
    } else {
      PlanStops(inner, off, done, scan, NoRoom);
    }
  }

  lemma {:induction false} HoldsAdvances(inner: bytes, off: nat, done: seq<Chunk>, all: seq<Chunk>, n: nat)
    requires off < |inner| && Holds(inner, off, BATCH, done != [], all, n)
    ensures all[n - 1].end > off && EndOf(done + all[..n]) == all[n - 1].end
  {
    assert |Solid(Window(inner, off, BATCH))| == n;
  }

  lemma {:induction false} PlanResumes(inner: bytes, off: nat, before: bytes, it: Items, end: nat, done: seq<Chunk>,
                                       room: nat)
    requires StandsAt(inner, off, before, it, end) && off < |inner| && done != [] && EndOf(done) == off
    requires |done| <= room
    ensures PlanFrom(inner, off, done, Scans(inner, room)) == Fitting(done + Remaining(off, before, it), room)
    decreases |inner| - off, 1
  {
    if it.End? {
      LastWindow(inner, off, BATCH);
      SplitAtSeparator(inner[off..], BATCH);
      LeavesAtBracket(inner, off, done, room);
      assert done + Remaining(off, before, it) == done;
    } else {
      ResumedWindow(inner, off, before, it, end, BATCH);
      ResumedDepth(inner, off, before, it, end);
      AtLeastOne(it);
      PlanOn(inner, off, off + 1 + |before|, it, off + 1, end, done, Min(BATCH - 1, Count(it)), room);
    }
  }

  lemma {:induction false} ResumedDepth(inner: bytes, off: nat, before: bytes, it: Items, end: nat)
    requires it.More? && StandsAt(inner, off, before, it, end) && off < |inner|
    ensures Split(inner[off..], BATCH).depth == 0
  {
    RestAtWindow(inner, off, before, it);
    SplitResumed(inner[off..], it, before, BATCH);
  }

  lemma {:induction false} LeavesAtBracket(inner: bytes, off: nat, done: seq<Chunk>, room: nat)
    requires Is(inner, off, RBRACKET) && AllSpace(inner[off + 1..]) && EndOf(done) == off
    ensures PlanFrom(inner, off, done, Scans(inner, room)) == Complete(done)
  {
    var w := inner[off..];
    var t := Step(Initial(0), 0, w[0], BATCH);
    assert SkipSpace(w, 0) == 0;
    RunHalted(t, w, 1, |w|, BATCH);
    assert Window(inner, off, BATCH) == [Chunk(0, 0)];
    assert Scans(inner, room)(off, done) == Leave;
    assert ClosesAt(inner, off, off);
  }

  /** A well-formed array has a complete plan, its elements in order, if it fits the destination, and otherwise the plan
      ends with the lack of room. */
  lemma {:induction false} WellFormedIsPlanned(inner: bytes, p: nat, it: Items, room: nat)
    requires ArrayBody(inner, p, it) && AllSpace(inner[p + ItemsLen(it) + 1..])
    ensures PlanFrom(inner, 0, [], Scans(inner, room)) ==
      if Count(it) <= room then Complete(Elements(it, p, p)) else Broken(NoRoom)
  {
    if it.End? {
      EmptyPlan(inner, p, room);
    } else {
      FirstWindow(inner, p, it, BATCH);
      assert inner[0..] == inner;
      SplitArray(inner, p, it, BATCH);
      AtLeastOne(it);
      PlanOn(inner, 0, p, it, p, p + ItemsLen(it), [], Min(BATCH, Count(it)), room);
      assert [] + Elements(it, p, p) == Elements(it, p, p);
    }
  }

  /** An empty array gives one empty chunk at its bracket: if that is the first byte the loop is left, and otherwise the
      batch has no element and the next window begins at the bracket. */
  lemma {:induction false} EmptyPlan(inner: bytes, p: nat, room: nat)
    requires ArrayBody(inner, p, End) && AllSpace(inner[p + 1..])
    ensures PlanFrom(inner, 0, [], Scans(inner, room)) == Complete([])
  {
    var scan := Scans(inner, room);
    EmptyArray(inner, p, BATCH);
    assert inner[0..] == inner;
    SplitEmptyArray(inner, p, BATCH);
    assert Window(inner, 0, BATCH) == [Chunk(p, p)];
    if p == 0 {
      assert scan(0, []) == Leave;
    } else {
      var none: seq<Chunk> := [];
      assert Shift(Solid(Window(inner, 0, BATCH)), 0) == none && none + none == none;
      assert scan(0, []) == Batch(p, []);
      PlanFromGoes(inner, 0, [], scan, p, []);
      SecondWindow(inner, p, room);
    }
  }

  lemma {:induction false} SecondWindow(inner: bytes, p: nat, room: nat)
    requires Is(inner, p, RBRACKET) && Closes(inner, 0)
    ensures PlanFrom(inner, p, [], Scans(inner, room)) == Complete([])
  {
    var w := inner[p..];
    var t := Step(Initial(0), 0, w[0], BATCH);
    assert SkipSpace(w, 0) == 0;
    RunHalted(t, w, 1, |w|, BATCH);
    assert Window(inner, p, BATCH) == [Chunk(0, 0)];
    assert Scans(inner, room)(p, []) == Leave;
  }
}
