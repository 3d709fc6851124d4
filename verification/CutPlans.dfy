/** What the parallel reader makes of an array that is cut off inside its last element, or in front of it. */
module CutPlans {
  import opened Bytes
  import opened Grammar
  import opened Splitter
  import opened ArrayElements
  import opened Windows
  import opened Slices
  import opened WellFormedArrays
  import opened TolerantArrays
  import opened CutArrays
  import opened StrictArrays
  import opened ParallelPlan
  import opened ParallelTheorems

  // ----- the depth at the cut -----

  /** How many brackets and braces the text opens and does not close, those in strings apart. */
  function Nesting(t: bytes): int {
    Run(Initial(0), t, 0, |t|, 1).depth
  }

  /** The same registers. */
  predicate Alike(s: State, t: State) {
    s.escaped == t.escaped && s.inString == t.inString && s.depth == t.depth && !s.halted && !t.halted
  }

  /** Over the same bytes, runs that store nothing end at the same depth. `b` is what stands at `d` in `a`. */
  lemma {:induction false} DepthAgrees(s: State, a: bytes, d: nat, cap: nat, t: State, b: bytes, j: nat, room: nat)
    requires j <= |b| && d + |b| <= |a| && (forall k | j <= k < |b| :: b[k] == a[d + k])
    requires Alike(s, t) && |s.chunks| < cap && |t.chunks| < room
    requires Run(s, a, d + j, d + |b|, cap).chunks == s.chunks
    ensures Run(t, b, j, |b|, room).depth == Run(s, a, d + j, d + |b|, cap).depth
    decreases |b| - j
  {
    if j < |b| {
      var u := Step(s, d + j, a[d + j], cap);
      RunGrows(u, a, d + j + 1, d + |b|, cap);
      DepthAgrees(u, a, d, cap, Step(t, j, b[j], room), b, j + 1, room);
    }
  }

  /** A run with room for all terminated elements arrives behind the last comma at depth 0, and stores nothing from
      there on. */
  lemma {:induction false} RunToOpen(s: State, raw: bytes, i: nat, before: bytes, it: Items, e: nat, cap: nat)
    returns (t: State)
    requires it.More? && IsItems(Array, it) && At(raw, i, before) && AllSpace(before) && ItemsAt(raw, i + |before|, it)
    requires Ready(s) && s.depth == 0 && |s.chunks| + Count(it) <= cap
    requires LastOpen(it, i + |before|, i) <= e <= i + |before| + ItemsLen(it)
    ensures Ready(t) && t.depth == 0 && |t.chunks| < cap
    ensures var m := LastOpen(it, i + |before|, i);
      m <= e <= |raw| && i <= e && Run(s, raw, i, e, cap) == Run(t, raw, m, e, cap) &&
        Run(t, raw, m, e, cap).chunks == t.chunks
    decreases it
  {
    AtLeastOne(it);
    if it.rest.End? {
      RunLast(s, raw, i, before, it, e, cap);
      t := s;
    } else {
      AtLeastOne(it.rest);
      var u, j := RunFirstOf(s, raw, i, before, it, e, cap);
      t := RunToOpen(u, raw, j + 1, it.before, it.rest, e, cap);
    }
  }

  lemma {:induction false} CutDepth(s: State, raw: bytes, i: nat, before: bytes, it: Items, e: nat, cap: nat)
    requires it.More? && IsItems(Array, it) && At(raw, i, before) && AllSpace(before) && ItemsAt(raw, i + |before|, it)
    requires Ready(s) && s.depth == 0 && |s.chunks| + Count(it) <= cap
    requires LastOpen(it, i + |before|, i) <= e <= i + |before| + ItemsLen(it)
    ensures i <= e <= |raw| && Run(s, raw, i, e, cap).depth == Nesting(raw[LastOpen(it, i + |before|, i)..e])
  {
    var m := LastOpen(it, i + |before|, i);
    var t := RunToOpen(s, raw, i, before, it, e, cap);
    DepthAgrees(t, raw, m, cap, Initial(0), raw[m..e], 0, 1);
  }

  /** The first window, if it reaches the cut. */
  lemma {:induction false} FirstDepth(inner: bytes, full: bytes, p: nat, it: Items, cap: nat)
    requires CutFrom(inner, full, p, it) && it.rest.More? && Count(it) <= cap
    ensures Split(inner, cap).depth == Nesting(inner[LastOpen(it, p, 0)..])
  {
    var n := |inner|;
    OpenAtStart(it, p);
    CutAtFirst(inner, full, p, it);
    RunSame(Initial(p), inner, full, p, n, cap);
    CutDepth(Initial(p), full, p, [], it, n, cap);
    assert full[LastOpen(it, p, 0)..n] == inner[LastOpen(it, p, 0)..];
  }

  /** A resumed window, if it reaches the cut. */
  lemma {:induction false} LaterDepth(inner: bytes, full: bytes, off: nat, before: bytes, it: Items, cap: nat)
    requires CutStands(inner, full, off, before, it) && Count(it) < cap
    ensures off < |inner|
    ensures Split(inner[off..], cap).depth == Nesting(inner[LastOpen(it, off + 1 + |before|, off + 1)..])
  {
    OpensLater(it, off + 1 + |before|, off + 1);
    AtLeastOne(it);
    var w, whole := inner[off..], full[off..];
    RestAtWindow(full, off, before, it);
    OpenShift(it, 1 + |before|, 1, off);
    assert w <= whole && w[0] == COMMA && SkipSpace(w, 0) == 0;
    RunSame(Initial(0), w, whole, 0, |w|, cap);
    ItemsFit(whole, 1 + |before|, it);
    CutDepth(Step(Initial(0), 0, COMMA, cap), whole, 1, before, it, |w|, cap);
    assert whole[LastOpen(it, 1 + |before|, 1)..|w|] == inner[LastOpen(it, off + 1 + |before|, off + 1)..];
  }

  // ----- what the producer decides -----

  /** `scan` is the decision of every batch. */
  ghost predicate Plans(scan: Scan, inner: bytes, room: nat, cap: nat) {
    forall off: nat, done: seq<Chunk> {:trigger ScanAt(inner, off, done, room, cap)} ::
      off < |inner| ==> scan(off, done) == ScanAt(inner, off, done, room, cap)
  }

  /** Why the plan of an array with `m` terminated elements breaks off, at least one, when the rest behind the last
      comma leaves `open` brackets open: the last batch, if it is not full, finds open brackets; a batch finds no slots;
      or the closing bracket is missing. */
  function CutReason(m: nat, open: int, room: nat, cap: nat): Error
    requires m > 0 && cap > 1
  {
    var b := WindowStart(m - 1, cap);
    if b > room then NoRoom
    else if open != 0 && m - b < Room(b, cap) then Malformed
    else if m > room then NoRoom
    else Unterminated
  }

  /** The batch that begins with element `b` and holds `n`: it gives the reason, unless the next one has to. */
  lemma {:induction false} ReasonHere(m: nat, open: int, b: nat, n: nat, room: nat, cap: nat)
    requires cap > 1 && Begins(b, cap) && b < m && b <= room && n == Min(Room(b, cap), m - b)
    ensures var stops := open != 0 && n < Room(b, cap);
      && (stops ==> CutReason(m, open, room, cap) == Malformed)
      && (!stops && b + n > room ==> CutReason(m, open, room, cap) == NoRoom)
      && (!stops && b + n == m <= room ==> CutReason(m, open, room, cap) == Unterminated)
  {
    if b + n == m {
      WindowStarts(b, n - 1, cap);
    } else {
      WindowStarts(b, n, cap);
      StartsAhead(b + n, m - 1, cap);
    }
  }

  /** One batch of terminated elements. */
  lemma {:induction false} CutScan(inner: bytes, off: nat, all: seq<Chunk>, b: nat, n: nat, room: nat, cap: nat)
    requires off < |inner| && HoldsFrom(inner, off, cap, all, b, n) && off == if b == 0 then 0 else all[b - 1].end
    ensures all[b + n - 1].end <= |inner| && off < all[b + n - 1].end
    ensures ScanAt(inner, off, all[..b], room, cap) ==
      if Split(inner[off..], cap).depth != 0 && |Window(inner, off, cap)| < cap then Stop(Malformed)
      else if b + n > room then Stop(NoRoom)
      else Batch(all[b + n - 1].end, all[b..b + n])
  {
    var kept := Solid(Window(inner, off, cap));
    assert |Shift(kept, off)| == |kept| == n;
    SameGapRule(inner, off, all[..b], kept);
  }

  /** The plan through one batch, or to its reason. */
  lemma {:induction false} CutBatch(inner: bytes, off: nat, all: seq<Chunk>, b: nat, n: nat, open: int, room: nat,
                                    scan: Scan, cap: nat)
    requires cap > 1 && Plans(scan, inner, room, cap)
    requires off < |inner| && HoldsFrom(inner, off, cap, all, b, n) && off == if b == 0 then 0 else all[b - 1].end
    requires Begins(b, cap) && b <= room && n == Min(Room(b, cap), |all| - 1 - b)
    requires |Window(inner, off, cap)| < cap <==> n < Room(b, cap)
    requires n < Room(b, cap) ==> Split(inner[off..], cap).depth == open
    ensures var next := all[b + n - 1].end;
      next <= |inner| && PlanFrom(inner, off, all[..b], scan) ==
        if (open != 0 && n < Room(b, cap)) || b + n > room
        then Broken(CutReason(|all| - 1, open, room, cap)) else PlanFrom(inner, next, all[..b + n], scan)
  {
    CutScan(inner, off, all, b, n, room, cap);
    assert scan(off, all[..b]) == ScanAt(inner, off, all[..b], room, cap);
    TakeJoins(all, b, n);
    CutGoesOn(inner, off, all[..b], all[b + n - 1].end, all[b..b + n], scan, open != 0 && n < Room(b, cap),
      b + n > room);
    ReasonHere(|all| - 1, open, b, n, room, cap);
  }

  lemma {:induction false} TakeJoins(all: seq<Chunk>, b: nat, n: nat)
    requires b + n <= |all|
    ensures all[..b] + all[b..b + n] == all[..b + n]
  {
  }

  lemma {:induction false} CutGoesOn(inner: bytes, off: nat, done: seq<Chunk>, next: nat, chunks: seq<Chunk>,
                                     scan: Scan, stops: bool, full: bool)
    requires off < next <= |inner|
    requires scan(off, done) == if stops then Stop(Malformed) else if full then Stop(NoRoom) else Batch(next, chunks)
    ensures PlanFrom(inner, off, done, scan) ==
      if stops then Broken(Malformed) else if full then Broken(NoRoom)
      else PlanFrom(inner, next, done + chunks, scan)
  {
  }

  /** In front of the last element the loop is left, and the closing bracket is missing. */
  lemma {:induction false} CutLeaves(inner: bytes, full: bytes, off: nat, before: bytes, it: Items, all: seq<Chunk>,
                                     b: nat, room: nat, scan: Scan, cap: nat)
    requires CutAtElement(inner, full, off, before, it, all, b) && it.rest.End? && cap > 1 &&
      Plans(scan, inner, room, cap)
    ensures off < |inner| && PlanFrom(inner, off, all[..b], scan) == Broken(Unterminated)
  {
    CutChunks(inner, full, off, before, it, cap);
    OpenIsEnd(it, off + 1 + |before|, off + 1, off + 1);
    assert Window(inner, off, cap) == [Chunk(0, 0)];
    assert scan(off, all[..b]) == ScanAt(inner, off, all[..b], room, cap) == Leave;
    CommaDoesNotClose(inner, off);
    if Closes(inner, off) {
      ClosesHere(inner, off);
    }
  }

  /** From the batch that begins with element `b`, behind the first one. */
  lemma {:induction false} CutPlanFrom(inner: bytes, full: bytes, off: nat, before: bytes, it: Items, all: seq<Chunk>,
                                       b: nat, open: int, room: nat, scan: Scan, cap: nat)
    requires cap > 1 && Plans(scan, inner, room, cap) && |all| > 1 && all[|all| - 2].end < |inner|
    requires CutAtElement(inner, full, off, before, it, all, b) && b <= room && (it.rest.More? ==> Begins(b, cap))
    requires open == Nesting(inner[all[|all| - 2].end + 1..])
    ensures off < |inner|
    ensures PlanFrom(inner, off, all[..b], scan) ==
      Broken(if b == |all| - 1 then Unterminated else CutReason(|all| - 1, open, room, cap))
    decreases |all| - b
  {
    CutLeft(inner, full, off, before, it, all, b);
    if it.rest.End? {
      CutLeaves(inner, full, off, before, it, all, b, room, scan, cap);
    } else {
      var n := Min(cap - 1, |all| - 1 - b);
      var next, ws, rest := CutPlanNext(inner, full, off, before, it, all, b, n, open, room, scan, cap);
      ReasonHere(|all| - 1, open, b, n, room, cap);
      if !(open != 0 && n < Room(b, cap)) && b + n <= room {
        CutPlanFrom(inner, full, next, ws, rest, all, b + n, open, room, scan, cap);
      }
    }
  }

  /** Through one resumed batch, or to its reason. */
  lemma {:induction false} CutPlanNext(inner: bytes, full: bytes, off: nat, before: bytes, it: Items, all: seq<Chunk>,
                                       b: nat, n: nat, open: int, room: nat, scan: Scan, cap: nat)
    returns (next: nat, ws: bytes, rest: Items)
    requires cap > 1 && Plans(scan, inner, room, cap) && |all| > 1 && all[|all| - 2].end < |inner|
    requires CutAtElement(inner, full, off, before, it, all, b) && b <= room && it.rest.More? && Begins(b, cap)
    requires open == Nesting(inner[all[|all| - 2].end + 1..])
    requires n == Min(cap - 1, |all| - 1 - b)
    ensures off < |inner| && 0 < n && b + n < |all| && CutAtElement(inner, full, next, ws, rest, all, b + n) == true
    ensures (rest.rest.More? ==> Begins(b + n, cap)) && next <= |inner|
    ensures PlanFrom(inner, off, all[..b], scan) ==
      if (open != 0 && n < Room(b, cap)) || b + n > room
      then Broken(CutReason(|all| - 1, open, room, cap)) else PlanFrom(inner, next, all[..b + n], scan)
  {
    CutLeft(inner, full, off, before, it, all, b);
    next, ws, rest := CutHolds(inner, full, off, before, it, all, b, n, cap);
    LaterBatch(inner, full, off, before, it, all, b, n, cap);
    CutBatch(inner, off, all, b, n, open, room, scan, cap);
    WindowStarts(b, n, cap);
  }

  /** What a resumed batch finds: the chunk of its comma and `n` more, and, if it is not full, the depth at the cut. */
  lemma {:induction false} LaterBatch(inner: bytes, full: bytes, off: nat, before: bytes, it: Items, all: seq<Chunk>,
                                      b: nat, n: nat, cap: nat)
    requires cap > 1
    requires CutAtElement(inner, full, off, before, it, all, b) && it.rest.More? && all[|all| - 2].end < |inner|
    requires n == Min(cap - 1, |all| - 1 - b)
    ensures off < |inner| && |Window(inner, off, cap)| == n + 1
    ensures n < cap - 1 ==> Split(inner[off..], cap).depth == Nesting(inner[all[|all| - 2].end + 1..])
  {
    CutLeft(inner, full, off, before, it, all, b);
    CutChunks(inner, full, off, before, it, cap);
    ResumedCount(it, before, n);
    if n < cap - 1 {
      LaterDepth(inner, full, off, before, it, cap);
      OpenIsEnd(it, off + 1 + |before|, off + 1, off + 1);
      LastOfBoth(all, b, Remaining(off, before, it));
    }
  }

  lemma {:induction false} LastOfBoth(all: seq<Chunk>, b: nat, rest: seq<Chunk>)
    requires RestIs(all, b, rest)
    ensures |rest| > 1 ==> rest[|rest| - 2] == all[|all| - 2]
  {
  }

  lemma {:induction false} ResumedCount(it: Items, before: bytes, n: nat)
    requires n <= Count(it)
    ensures |[Chunk(0, 0)] + Elements(it, 1 + |before|, 1)[..n]| == n + 1
  {
  }

  /** On every array that is cut off inside its last element, or in front of it, however small the destination: the plan
      breaks off, and this is the reason. */
  lemma {:induction false} CutIsPlanned(inner: bytes, full: bytes, p: nat, it: Items, room: nat)
    requires CutFrom(inner, full, p, it)
    ensures Count(it) > 0 && LastOpen(it, p, 0) <= |inner|
    ensures PlanFrom(inner, 0, [], Scans(inner, room)) ==
      Broken(if inner == [] then Unterminated else if Count(it) == 1 then Malformed
             else CutReason(Count(it) - 1, Nesting(inner[LastOpen(it, p, 0)..]), room, BATCH))
  {
    OpenIsEnd(it, p, p, 0);
    var scan := Scans(inner, room);
    assert Plans(scan, inner, room, BATCH);
    if it.rest.End? {
      CutAlonePlan(inner, full, p, it, room, scan, BATCH);
    } else {
      CutPlanFirst(inner, full, p, it, Elements(it, p, p), room, scan, BATCH);
    }
  }

  lemma {:induction false} CutAlonePlan(inner: bytes, full: bytes, p: nat, it: Items, room: nat, scan: Scan, cap: nat)
    requires Plans(scan, inner, room, cap) && cap > 1 && CutFrom(inner, full, p, it) && it.rest.End?
    ensures PlanFrom(inner, 0, [], scan) == Broken(if inner == [] then Unterminated else Malformed)
  {
    OpenIsEnd(it, p, p, 0);
    CutTail(inner, full, p, it);
    if inner != [] {
      assert inner[0..] == inner;
      SplitCut(inner, full, p, it, cap);
      assert Stored([], [], cap) == [];
      assert scan(0, []) == ScanAt(inner, 0, [], room, cap) == Stop(Malformed);
    }
  }

  lemma {:induction false} CutPlanFirst(inner: bytes, full: bytes, p: nat, it: Items, all: seq<Chunk>, room: nat,
                                        scan: Scan, cap: nat)
    requires Plans(scan, inner, room, cap) && cap > 1 && CutFrom(inner, full, p, it) && it.rest.More? &&
      all == Elements(it, p, p)
    ensures |all| > 1 && LastOpen(it, p, 0) <= |inner|
    ensures PlanFrom(inner, 0, [], scan) ==
      Broken(CutReason(|all| - 1, Nesting(inner[LastOpen(it, p, 0)..]), room, cap))
  {
    OpenIsEnd(it, p, p, 0);
    var n, open := Min(cap, |all| - 1), Nesting(inner[LastOpen(it, p, 0)..]);
    var next, ws, rest := CutPlanStart(inner, full, p, it, all, n, open, room, scan, cap);
    ReasonHere(|all| - 1, open, 0, n, room, cap);
    assert all[..0] == [];
    if !(open != 0 && n < cap) && n <= room {
      CutPlanFrom(inner, full, next, ws, rest, all, n, open, room, scan, cap);
    }
  }

  /** What the first batch finds: `n` chunks, and, if it is not full, the depth at the cut. */
  lemma {:induction false} FirstBatch(inner: bytes, full: bytes, p: nat, it: Items, all: seq<Chunk>, n: nat, cap: nat)
    requires CutFrom(inner, full, p, it) && it.rest.More? && all == Elements(it, p, p) && |all| > 1
    requires n == Min(cap, |all| - 1) && cap > 1
    ensures inner != [] && |Window(inner, 0, cap)| == n && LastOpen(it, p, 0) <= |inner|
    ensures n < cap ==> Split(inner[0..], cap).depth == Nesting(inner[LastOpen(it, p, 0)..])
  {
    CutFirstChunks(inner, full, p, it, cap);
    if n < cap {
      FirstDepth(inner, full, p, it, cap);
      assert inner[0..] == inner;
    }
  }

  /** Through the first batch, or to its reason. */
  lemma {:induction false} CutPlanStart(inner: bytes, full: bytes, p: nat, it: Items, all: seq<Chunk>, n: nat,
                                        open: int, room: nat, scan: Scan, cap: nat)
    returns (next: nat, ws: bytes, rest: Items)
    requires CutFrom(inner, full, p, it) && it.rest.More? && all == Elements(it, p, p) && |all| > 1
    requires LastOpen(it, p, 0) <= |inner| && open == Nesting(inner[LastOpen(it, p, 0)..])
    requires n == Min(cap, |all| - 1) && Plans(scan, inner, room, cap) && cap > 1
    ensures inner != [] && 0 < n < |all| && CutAtElement(inner, full, next, ws, rest, all, n) == true
    ensures (rest.rest.More? ==> Begins(n, cap)) && next <= |inner|
    ensures PlanFrom(inner, 0, all[..0], scan) ==
      if (open != 0 && n < cap) || n > room
      then Broken(CutReason(|all| - 1, open, room, cap)) else PlanFrom(inner, next, all[..n], scan)
  {
    FirstBatch(inner, full, p, it, all, n, cap);
    next, ws, rest := CutFirstHolds(inner, full, p, it, all, n, cap);
    CutBatch(inner, 0, all, 0, n, open, room, scan, cap);
  }
}
