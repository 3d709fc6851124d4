/** A doubled comma inside one window: each reader's own way of refusing or reporting it. The same comma passes the
    serial readers when it ends a window. */
module DoubledCommas {
  import opened Bytes
  import opened Splitter
  import opened Windows
  import opened Slices
  import opened WellFormedArrays
  import opened SeparatorTheorems
  import opened TolerantSlices
  import opened StrictArrays
  import opened ParallelPlan
  import ParallelTheorems
  import SingleWorker
  import SingleTheorems

  // ----- the window -----

  lemma {:induction false} DoubledChunks(n: nat, cap: nat)
    requires n > 0 && cap > n + 1
    ensures |Doubled(n)| == 2 * n + 3 && Split(Doubled(n), cap).depth == 0
    ensures Window(Doubled(n), 0, cap) == OneRanges(n) + [Chunk(2 * n, 2 * n)] + [Chunk(2 * n + 1, 2 * n + 2)]
  {
    var inner, i := Doubled(n), 2 * n;
    OnesAt(n, 0);
    assert inner[0] == 0x31 && inner[0..] == inner && SkipSpace(inner, 0) == 0;
    RunOnes(n, n, cap);
    RunSplit(Initial(0), inner, 0, i, |inner|, cap);
    assert inner[i] == COMMA && inner[i + 1] == 0x32 && inner[i + 2] == RBRACKET;
    var t := Run(Initial(0), inner, 0, i, cap);
    var u := Step(t, i, COMMA, cap);
    assert u == State(false, false, 0, i + 1, OneRanges(n) + [Chunk(i, i)], false);
    assert Step(u, i + 1, 0x32, cap) == u;
    var v := Step(u, i + 2, RBRACKET, cap);
    assert Run(t, inner, i, i + 3, cap) == Run(u, inner, i + 1, i + 3, cap) == Run(u, inner, i + 2, i + 3, cap) ==
      Run(v, inner, i + 3, i + 3, cap);
  }

  lemma {:induction false} DropMiddle(a: seq<Chunk>, e: Chunk, c: Chunk)
    requires NoneEmpty(a) && e.start == e.end && c.start != c.end
    ensures Solid(a + [e] + [c]) == a + [c]
  {
    var part, all := a + [e], a + [e] + [c];
    DropLast(a, e);
    SolidSame(all, part, |part|);
  }

  /** What is kept of the window, and the gap that is bad. */
  lemma {:induction false} DoubledKept(n: nat, cap: nat)
    requires n > 0 && cap > n + 1
    ensures |Doubled(n)| == 2 * n + 3 && Split(Doubled(n), cap).depth == 0
    ensures Solid(Window(Doubled(n), 0, cap)) == DoubledRanges(n) && EndOf(Window(Doubled(n), 0, cap)) == 2 * n + 2
    ensures forall k | 0 <= k < n :: GapOk(Doubled(n), DoubledRanges(n), k, false)
    ensures !GapOk(Doubled(n), DoubledRanges(n), n, false)
  {
    DoubledChunks(n, cap);
    DropMiddle(OneRanges(n), Chunk(2 * n, 2 * n), Chunk(2 * n + 1, 2 * n + 2));
    OnesAccepted(n, _ => true);
    forall k | 0 <= k < n ensures GapOk(Doubled(n), DoubledRanges(n), k, false) {
      assert GapOk(Doubled(n), OneRanges(n), k, false);
    }
    DoubledGap(n);
  }

  // ----- the strict reader -----

  /** If the chunk buffer has room for one more entry, the doubled comma is a bad separator, for every destination. */
  lemma {:induction false} DoubledCommaRefused(n: nat, cap: nat, room: nat, accepts: bytes -> bool)
    requires n > 0 && cap > n + 1 && room > 0
    ensures Accept([LBRACKET] + Doubled(n), cap, room, accepts) == Rejected(BadSeparator)
  {
    var raw, inner := [LBRACKET] + Doubled(n), Doubled(n);
    assert SkipSpace(raw, 0) == 0 && raw[1..] == inner && Inner(raw) == inner && inner[0..] == inner;
    DoubledKept(n, cap);
    var turn := Turns(inner, cap, room, accepts);
    assert turn(0, []) == TurnAt(inner, 0, [], cap, room, accepts) == Refuse(BadSeparator);
    DriveRefuses(inner, 0, [], BadSeparator, turn);
  }

  // ----- the parallel reader -----

  /** In the first batch of the producer too. */
  lemma {:induction false} DoubledCommaPlanned(n: nat, room: nat)
    requires 0 < n && n + 1 < BATCH
    ensures PlanFrom(Doubled(n), 0, [], Scans(Doubled(n), room)) == Broken(BadSeparator)
  {
    var none: seq<Chunk> := [];
    DoubledScan(n, none, room, BATCH);
    assert Scans(Doubled(n), room)(0, none) == ScanAt(Doubled(n), 0, none, room, BATCH);
    ParallelTheorems.PlanStops(Doubled(n), 0, none, Scans(Doubled(n), room), BadSeparator);
  }

  lemma {:induction false} DoubledScan(n: nat, none: seq<Chunk>, room: nat, cap: nat)
    requires n > 0 && cap > n + 1 && |none| == 0
    ensures |Doubled(n)| == 2 * n + 3 && ScanAt(Doubled(n), 0, none, room, cap) == Stop(BadSeparator)
  {
    var inner, kept := Doubled(n), DoubledRanges(n);
    DoubledKept(n, cap);
    Unmoved(kept);
    assert inner[0..] == inner;
    ParallelGap(inner, kept, n, none);
    ScanRefuses(inner, 0, none, kept, room, cap);
  }

  lemma {:induction false} ParallelGap(inner: bytes, kept: seq<Chunk>, k: nat, none: seq<Chunk>)
    requires 0 < k < |kept| && !GapOk(inner, kept, k, false) && |none| == 0
    ensures !BatchGapsOk(inner, 0, none, none + kept)
  {
    assert none + kept == kept;
    assert !BatchGapOk(inner, 0, kept, k);
  }

  lemma {:induction false} ScanRefuses(inner: bytes, off: nat, done: seq<Chunk>, kept: seq<Chunk>, room: nat, cap: nat)
    requires off < |inner| && kept == Shift(Solid(Window(inner, off, cap)), off)
    requires EndOf(Window(inner, off, cap)) > 0 && Split(inner[off..], cap).depth == 0
    requires !BatchGapsOk(inner, off, done, done + kept)
    ensures ScanAt(inner, off, done, room, cap) == Stop(BadSeparator)
  {
  }

  /** And for the reader with one processor. */
  lemma {:induction false} DoubledCommaAlone(n: nat, room: nat, accepts: bytes -> bool)
    requires 0 < n && n + 1 < BATCH && room > 0
    ensures SingleWorker.AcceptAlone([LBRACKET] + Doubled(n), room, accepts) == Rejected(BadSeparator)
  {
    var raw, inner := [LBRACKET] + Doubled(n), Doubled(n);
    assert SkipSpace(raw, 0) == 0 && raw[1..] == inner && Inner(raw) == inner;
    var none: seq<Chunk> := [];
    DoubledTurn(n, none, BATCH, room, accepts);
    var turn, t := SingleWorker.AloneTurns(inner, BATCH, room, accepts), Refuse(BadSeparator);
    assert turn(0, none) == SingleWorker.AloneAt(inner, 0, none, BATCH, room, accepts);
    SingleTheorems.AloneGoes(inner, 0, none, t, turn);
  }

  lemma {:induction false} DoubledTurn(n: nat, none: seq<Chunk>, cap: nat, room: nat, accepts: bytes -> bool)
    requires n > 0 && cap > n + 1 && |none| == 0
    ensures |Doubled(n)| == 2 * n + 3
    ensures SingleWorker.AloneAt(Doubled(n), 0, none, cap, room, accepts) == Refuse(BadSeparator)
  {
    var inner, kept := Doubled(n), DoubledRanges(n);
    DoubledKept(n, cap);
    Unmoved(kept);
    assert inner[0..] == inner;
    ParallelGap(inner, kept, n, none);
    AloneRefuses(inner, 0, none, kept, cap, room, accepts);
  }

  lemma {:induction false} AloneRefuses(inner: bytes, off: nat, done: seq<Chunk>, kept: seq<Chunk>, cap: nat, room: nat,
                                        accepts: bytes -> bool)
    requires off < |inner| && kept == Shift(Solid(Window(inner, off, cap)), off)
    requires EndOf(Window(inner, off, cap)) > 0 && Split(inner[off..], cap).depth == 0
    requires !BatchGapsOk(inner, off, done, done + kept)
    ensures SingleWorker.AloneAt(inner, off, done, cap, room, accepts) == Refuse(BadSeparator)
  {
  }

  // ----- the tolerant reader -----

  lemma {:induction false} OneGapIsBad(w: bytes, kept: seq<Chunk>, n: nat, m: nat)
    requires n < |kept| && m <= |kept| && !GapOk(w, kept, n, false)
    requires forall k | 0 <= k < |kept| && k != n :: GapOk(w, kept, k, false)
    ensures BadGaps(w, kept, m, false) == if n < m then [kept[n].start] else []
  {
    if m > 0 {
      OneGapIsBad(w, kept, n, m - 1);
    }
  }

  lemma {:induction false} AllTaken(inner: bytes, r: Reading, rs: seq<Chunk>, n: nat, accepts: bytes -> bool)
    requires n <= |rs| && AllAccepted(inner, rs, accepts)
    ensures Taken(inner, r, rs, n, accepts) == Reading(r.ranges + rs[..n], r.problems)
  {
    if n > 0 {
      AllTaken(inner, r, rs, n - 1, accepts);
      assert r.ranges + rs[..n - 1] + [rs[n - 1]] == r.ranges + rs[..n];
    } else {
      assert r.ranges + rs[..0] == r.ranges;
    }
  }

  /** The tolerant reader keeps all elements and reports one bad separator, at the element behind the two commas. */
  lemma {:induction false} DoubledCommaReported(n: nat, cap: nat, room: nat, accepts: bytes -> bool)
    requires n > 0 && cap > n + 1 && room > n && accepts([0x31]) && accepts([0x32])
    ensures Tolerated([LBRACKET] + Doubled(n), cap, room, accepts) ==
            Reading(DoubledRanges(n), [Problem(2 * n + 1, -1, BadSeparator)])
  {
    var raw, inner, kept, end := [LBRACKET] + Doubled(n), Doubled(n), DoubledRanges(n), 2 * n + 2;
    assert SkipSpace(raw, 0) == 0 && raw[1..] == inner && Inner(raw) == inner;
    var advance, finish := Advances(inner, cap, room, accepts), Finishes(inner, room, accepts);
    var none, goal := Reading([], []), Reading(kept, [Problem(2 * n + 1, -1, BadSeparator)]);
    DoubledMove(n, cap, room, accepts, none, goal);
    DoubledEnds(n, cap, room, accepts, goal);
    MovesDecide(inner, cap, room, accepts);
    assert advance(0, none) == MoveAt(inner, 0, none, cap, room, accepts);
    assert advance(end, goal) == MoveAt(inner, end, goal, cap, room, accepts);
    assert finish(end, goal) == FinishAt(inner, end, goal, room, accepts);
    TwoWindows(|inner|, end, none, goal, advance, finish);
  }

  lemma {:induction false} TwoWindows(size: nat, end: nat, r: Reading, goal: Reading, advance: Advance, finish: Finish)
    requires 0 < end < size && advance(0, r) == GoOn(end, end, goal) && advance(end, goal) == Ends
    requires finish(end, goal) == goal
    ensures ReadFrom(size, 0, 0, r, advance, finish) == goal
  {
    assert ReadFrom(size, end, end, goal, advance, finish) == goal;
  }

  lemma {:induction false} DoubledMove(n: nat, cap: nat, room: nat, accepts: bytes -> bool, r: Reading, goal: Reading)
    requires n > 0 && cap > n + 1 && room > n && accepts([0x31]) && accepts([0x32])
    requires |r.ranges| == |r.problems| == 0 && goal.ranges == DoubledRanges(n)
    requires goal.problems == [Problem(2 * n + 1, -1, BadSeparator)]
    ensures |Doubled(n)| == 2 * n + 3
    ensures MoveAt(Doubled(n), 0, r, cap, room, accepts) == GoOn(2 * n + 2, 2 * n + 2, goal)
  {
    var inner, kept := Doubled(n), DoubledRanges(n);
    DoubledKept(n, cap);
    Unmoved(kept);
    DoubledSeparators(n, cap, r);
    assert r.problems + goal.problems == goal.problems;
    AllParse(n, accepts);
    AllTaken(inner, Reading(r.ranges, goal.problems), kept, n + 1, accepts);
    assert r.ranges + kept[..n + 1] == kept;
  }

  lemma {:induction false} Unmoved(cs: seq<Chunk>)
    ensures Shift(cs, 0) == cs
  {
  }

  lemma {:induction false} DoubledSeparators(n: nat, cap: nat, r: Reading)
    requires n > 0 && cap > n + 1 && |r.ranges| == 0
    ensures |Doubled(n)| == 2 * n + 3 && Separators(Doubled(n), 0, r, cap) == [Problem(2 * n + 1, -1, BadSeparator)]
  {
    var inner, kept := Doubled(n), DoubledRanges(n);
    DoubledKept(n, cap);
    assert inner[0..] == inner;
    OneGapIsBad(inner, kept, n, n + 1);
  }

  lemma {:induction false} AllParse(n: nat, accepts: bytes -> bool)
    requires n > 0 && accepts([0x31]) && accepts([0x32])
    ensures AllAccepted(Doubled(n), DoubledRanges(n), accepts)
  {
    var inner, kept := Doubled(n), DoubledRanges(n);
    OnesAccepted(n, accepts);
    OnesAt(n, 0);
    forall k | 0 <= k < |kept| ensures accepts(Piece(inner, kept[k])) {
      if k < n {
        assert kept[k] == OneRanges(n)[k];
      } else {
        assert Piece(inner, kept[k]) == [0x32];
      }
    }
  }

  lemma {:induction false} DoubledEnds(n: nat, cap: nat, room: nat, accepts: bytes -> bool, r: Reading)
    requires n > 0 && cap > n + 1
    ensures |Doubled(n)| == 2 * n + 3
    ensures MoveAt(Doubled(n), 2 * n + 2, r, cap, room, accepts) == Ends
    ensures FinishAt(Doubled(n), 2 * n + 2, r, room, accepts) == r
  {
    var inner := Doubled(n);
    OnesAt(n, 0);
    assert inner[2 * n + 2] == RBRACKET && inner[2 * n + 3..] == [];
    LastWindow(inner, 2 * n + 2, cap);
  }
}
