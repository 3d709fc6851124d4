/** What the parallel reader accepts in front of the first element. */
module LeadingCommas {
  import opened Bytes
  import opened Splitter
  import opened Windows
  import opened Slices
  import opened ParallelPlan
  import opened SeparatorTheorems
  import Pipeline

  /** Behind leading whitespace the input begins with as many commas as a batch has chunks. */
  predicate ManyCommas(inner: bytes) {
    var s := SkipSpace(inner, 0);
    s + BATCH <= |inner| && forall k | s <= k < s + BATCH :: inner[k] == COMMA
  }

  /** A comma in front of everything else is a chunk without bytes. */
  lemma {:induction false} FirstEmpty(inner: bytes, cap: nat)
    requires cap > 0 && var s := SkipSpace(inner, 0); Is(inner, s, COMMA)
    ensures var s, cs := SkipSpace(inner, 0), Split(inner, cap).chunks; cs != [] && cs[0] == Chunk(s, s)
  {
    var s := SkipSpace(inner, 0);
    RunGrows(Step(Initial(s), s, inner[s], cap), inner, s + 1, |inner|, cap);
  }

  lemma {:induction false} KeptIsChunk(cs: seq<Chunk>, n: nat) returns (j: nat)
    requires n <= |cs| && SolidTo(cs, n) != []
    ensures j < n && cs[j].start != cs[j].end && SolidTo(cs, n)[0] == cs[j]
  {
    if SolidTo(cs, n - 1) != [] {
      j := KeptIsChunk(cs, n - 1);
    } else {
      j := n - 1;
    }
  }

  lemma {:induction false} NothingKept(cs: seq<Chunk>, n: nat)
    requires n <= |cs| && SolidTo(cs, n) == []
    ensures forall k | 0 <= k < n :: cs[k].start == cs[k].end
  {
    if n > 0 {
      NothingKept(cs, n - 1);
    }
  }

  /** The first kept chunk does not begin at a leading comma. */
  lemma {:induction false} KeptBehindComma(inner: bytes, cap: nat)
    requires cap > 0 && var s := SkipSpace(inner, 0); Is(inner, s, COMMA)
    requires Solid(Split(inner, cap).chunks) != []
    ensures Solid(Split(inner, cap).chunks)[0].start > SkipSpace(inner, 0)
  {
    var s, cs := SkipSpace(inner, 0), Split(inner, cap).chunks;
    FirstEmpty(inner, cap);
    var j := KeptIsChunk(cs, |cs|);
    SplitTiled(inner, cap);
    StartsGrow(inner, s, cs, j);
  }

  lemma {:induction false} StartsGrow(data: bytes, first: nat, cs: seq<Chunk>, j: nat)
    requires Tiled(data, first, cs) && j < |cs|
    ensures cs[j].start >= first + j
  {
    assert Tiles(data, first, cs, j);
    if j > 0 {
      StartsGrow(data, first, cs, j - 1);
      assert Tiles(data, first, cs, j - 1);
    }
  }

  /** If the first window holds elements, only whitespace stands before the first one. */
  lemma {:induction false} ElementsAtOnce(inner: bytes, room: nat)
    requires inner != [] && ScanAt(inner, 0, [], room, BATCH).Batch? && ScanAt(inner, 0, [], room, BATCH).chunks != []
    ensures var c := ScanAt(inner, 0, [], room, BATCH).chunks[0];
      c.start <= |inner| && AllSpace(inner[..c.start]) && !ManyCommas(inner)
  {
    var kept := Solid(Window(inner, 0, BATCH));
    var all := [] + Shift(kept, 0);
    assert inner[0..] == inner;
    assert BatchGapOk(inner, 0, all, 0);
    assert inner[0..kept[0].start] == inner[..kept[0].start];
    var s := SkipSpace(inner, 0);
    var before := inner[..kept[0].start];
    forall k | 0 <= k < |before| ensures IsSpace(inner[k]) {
      assert before[k] == inner[k];
    }
    if Is(inner, s, COMMA) {
      KeptBehindComma(inner, BATCH);
    }
  }

  lemma {:induction false} PlanStep(inner: bytes, off: nat, room: nat)
    requires off < |inner|
    ensures var r, p := ScanAt(inner, off, [], room, BATCH), PlanFrom(inner, off, [], Scans(inner, room));
      match r
      case Leave => p == Tail(inner, [])
      case Stop(error) => p == Broken(error)
      case Batch(next, chunks) =>
        p == PlanFrom(inner, next, chunks, Scans(inner, room)) && (p.Complete? ==> chunks <= p.ranges)
  {
    var r := ScanAt(inner, off, [], room, BATCH);
    assert Scans(inner, room)(off, []) == r;
    if r.Batch? {
      assert [] + r.chunks == r.chunks;
      Pipeline.PlanExtends(inner, r.next, r.chunks, Scans(inner, room));
    }
  }

  /** Behind a first window without elements, a comma stands before the first element. */
  lemma {:induction false} CommaFirst(inner: bytes, off: nat, room: nat)
    requires 0 < off <= |inner|
    ensures var p := PlanFrom(inner, off, [], Scans(inner, room));
      p.Complete? && p.ranges != [] ==>
        p.ranges[0].start <= |inner| && exists k: nat :: off <= k < p.ranges[0].start && Is(inner, k, COMMA)
    decreases |inner| - off
  {
    if off < |inner| {
      PlanStep(inner, off, room);
      var r := ScanAt(inner, off, [], room, BATCH);
      if r.Batch? && r.chunks == [] {
        CommaFirst(inner, r.next, room);
      } else if r.Batch? {
        var all := [] + r.chunks;
        assert BatchGapOk(inner, off, all, 0);
        var gap := inner[off..r.chunks[0].start];
        var j: nat :| CommaAt(gap, j);
        assert Is(inner, off + j, COMMA);
      }
    }
  }

  /** A first window without elements is a row of commas, up to the bracket or comma that ended the scan. */
  lemma {:induction false} EmptyWindow(inner: bytes)
    requires inner != [] && Window(inner, 0, BATCH) != [] && Solid(Window(inner, 0, BATCH)) == []
    ensures var cs, s := Window(inner, 0, BATCH), SkipSpace(inner, 0);
      && EndOf(cs) == s + |cs| - 1 < |inner| && Ends(inner[EndOf(cs)])
      && forall k | s <= k < EndOf(cs) :: inner[k] == COMMA
  {
    var cs, s := Window(inner, 0, BATCH), SkipSpace(inner, 0);
    assert inner[0..] == inner;
    NothingKept(cs, |cs|);
    SplitTiled(inner, BATCH);
    assert Tiles(inner, s, cs, |cs| - 1);
    EmptiesAreCommas(inner, s, cs, |cs| - 1);
  }

  /** At a window that holds nothing but an empty chunk the loop is left. */
  lemma {:induction false} LeavesHere(inner: bytes, off: nat, room: nat)
    requires off < |inner| && Window(inner, off, BATCH) == [Chunk(0, 0)]
    ensures PlanFrom(inner, off, [], Scans(inner, room)) == Tail(inner, [])
  {
    PlanStep(inner, off, room);
  }

  /** A plan that gets past a first window without elements has met as many commas as a batch has chunks. */
  lemma {:induction false} NoElementsAtFirst(inner: bytes, room: nat)
    requires inner != [] && ScanAt(inner, 0, [], room, BATCH).Batch? && ScanAt(inner, 0, [], room, BATCH).chunks == []
    requires var p := PlanFrom(inner, 0, [], Scans(inner, room)); p.Complete? && p.ranges != []
    ensures ManyCommas(inner)
  {
    var cs := Window(inner, 0, BATCH);
    var off := EndOf(cs);
    assert |Shift(Solid(cs), 0)| == |Solid(cs)|;
    PlanStep(inner, 0, room);
    EmptyWindow(inner);
    if |cs| < BATCH {
      NothingLeft(inner, BATCH);
      LeavesHere(inner, off, room);
    } else if inner[off] == RBRACKET {
      BracketWindow(inner, off);
      LeavesHere(inner, off, room);
    }
  }

  lemma {:induction false} EmptiesAreCommas(data: bytes, first: nat, cs: seq<Chunk>, n: nat)
    requires Tiled(data, first, cs) && n < |cs| && forall k | 0 <= k < |cs| :: cs[k].start == cs[k].end
    ensures cs[n].end == first + n < |data| && forall k | first <= k < first + n :: data[k] == COMMA
  {
    assert Tiles(data, first, cs, n);
    if n > 0 {
      EmptiesAreCommas(data, first, cs, n - 1);
      assert Tiles(data, first, cs, n - 1);
    }
  }

  lemma {:induction false} BracketWindow(inner: bytes, off: nat)
    requires Is(inner, off, RBRACKET)
    ensures Window(inner, off, BATCH) == [Chunk(0, 0)]
  {
    var w := inner[off..];
    assert SkipSpace(w, 0) == 0;
    RunHalted(Step(Initial(0), 0, w[0], BATCH), w, 1, |w|, BATCH);
  }

  /** When the parallel reader accepts an array with elements, only whitespace stands before the first one, unless the
      array begins with as many commas as a batch has chunks. */
  lemma {:induction false} LeadingIff(inner: bytes, room: nat)
    requires var p := PlanFrom(inner, 0, [], Scans(inner, room)); p.Complete? && p.ranges != []
    ensures var first := PlanFrom(inner, 0, [], Scans(inner, room)).ranges[0].start;
      first <= |inner| && (AllSpace(inner[..first]) <==> !ManyCommas(inner))
  {
    assert inner != [];
    var r, p := ScanAt(inner, 0, [], room, BATCH), PlanFrom(inner, 0, [], Scans(inner, room));
    PlanStep(inner, 0, room);
    if r.chunks != [] {
      ElementsAtOnce(inner, room);
      assert p.ranges[0] == r.chunks[0];
    } else {
      NoElementsAtFirst(inner, room);
      CommaFirst(inner, r.next, room);
      var k: nat :| r.next <= k < p.ranges[0].start && Is(inner, k, COMMA);
      assert inner[..p.ranges[0].start][k] == COMMA;
    }
  }

  // ----- such an array -----

  function Commas(n: nat): bytes {
    seq(n, _ => COMMA)
  }

  function Empties(n: nat): (cs: seq<Chunk>)
    ensures |cs| == n && forall k | 0 <= k < n :: cs[k] == Chunk(k, k)
  {
    seq(n, k requires 0 <= k < n => Chunk(k, k))
  }

  /** 1024 commas, an element, and the closing bracket. */
  function Crowded(): (inner: bytes)
    ensures |inner| == BATCH + 2 && inner[BATCH] == 0x31 && inner[BATCH + 1] == RBRACKET
    ensures forall k | 0 <= k < BATCH :: inner[k] == COMMA
  {
    Commas(BATCH) + [0x31, RBRACKET]
  }

  lemma {:induction false} RunCommas(inner: bytes, n: nat)
    requires n <= BATCH && n <= |inner| && forall k | 0 <= k < n :: inner[k] == COMMA
    ensures var t := Run(Initial(0), inner, 0, n, BATCH); t.chunks == Empties(n) && t.depth == 0
    ensures var t := Run(Initial(0), inner, 0, n, BATCH); n < BATCH ==>
      t == State(false, false, 0, n, Empties(n), false)
    ensures n == BATCH ==> Run(Initial(0), inner, 0, n, BATCH).halted
  {
    if n > 0 {
      RunCommas(inner, n - 1);
      RunSplit(Initial(0), inner, 0, n - 1, n, BATCH);
      var t := Run(Initial(0), inner, 0, n - 1, BATCH);
      assert Run(t, inner, n - 1, n, BATCH) == Step(t, n - 1, COMMA, BATCH);
      assert Empties(n - 1) + [Chunk(n - 1, n - 1)] == Empties(n);
    }
  }

  lemma {:induction false} EmptiesKeepNothing(n: nat, m: nat)
    requires m <= n
    ensures SolidTo(Empties(n), m) == []
  {
    if m > 0 {
      EmptiesKeepNothing(n, m - 1);
    }
  }

  lemma {:induction false} CrowdedFirst(room: nat)
    ensures ScanAt(Crowded(), 0, [], room, BATCH) == Batch(BATCH - 1, [])
  {
    var inner, s := Crowded(), Initial(0);
    assert inner[0..] == inner && SkipSpace(inner, 0) == 0;
    RunCommas(inner, BATCH);
    RunSplit(s, inner, 0, BATCH, |inner|, BATCH);
    RunHalted(Run(s, inner, 0, BATCH, BATCH), inner, BATCH, |inner|, BATCH);
    assert Window(inner, 0, BATCH) == Empties(BATCH);
    EmptiesKeepNothing(BATCH, BATCH);
    var none: seq<Chunk> := [];
    assert Shift(none, 0) == none;
  }

  lemma {:induction false} CrowdedWindow()
    ensures var cs := [Chunk(0, 0), Chunk(1, 2)];
      Window(Crowded(), BATCH - 1, BATCH) == cs && Split(Crowded()[BATCH - 1..], BATCH).depth == 0
  {
    var s, w := Initial(0), Crowded()[BATCH - 1..];
    assert w == [COMMA, 0x31, RBRACKET] && SkipSpace(w, 0) == 0;
    var t := s.(start := 1, chunks := [Chunk(0, 0)]);
    var u := t.(chunks := [Chunk(0, 0), Chunk(1, 2)], halted := true);
    assert Step(s, 0, w[0], BATCH) == t && Step(t, 1, w[1], BATCH) == t && Step(t, 2, w[2], BATCH) == u;
    assert Run(s, w, 0, 3, BATCH) == Run(t, w, 1, 3, BATCH) == Run(t, w, 2, 3, BATCH) == Run(u, w, 3, 3, BATCH);
  }

  lemma {:induction false} CrowdedGap(all: seq<Chunk>)
    requires all == [Chunk(BATCH, BATCH + 1)]
    ensures BatchGapsOk(Crowded(), BATCH - 1, [], all)
  {
    assert CommaAt(Crowded()[BATCH - 1..BATCH], 0);
    assert BatchGapOk(Crowded(), BATCH - 1, all, 0);
  }

  lemma {:induction false} CrowdedSecond(room: nat)
    requires room > 0
    ensures ScanAt(Crowded(), BATCH - 1, [], room, BATCH) == Batch(BATCH + 1, [Chunk(BATCH, BATCH + 1)])
  {
    CrowdedWindow();
    PairKept(Chunk(0, 0), Chunk(1, 2));
    var kept, all := [Chunk(1, 2)], [Chunk(BATCH, BATCH + 1)];
    assert Shift(kept, BATCH - 1) == all && [] + all == all;
    CrowdedGap(all);
  }

  lemma {:induction false} PairKept(a: Chunk, b: Chunk)
    requires a.start == a.end && b.start < b.end
    ensures Solid([a, b]) == [b]
  {
    var cs := [a, b];
    assert SolidTo(cs, 0) == [] && SolidTo(cs, 1) == [] && SolidTo(cs, 2) == [b];
  }

  lemma {:induction false} CrowdedThird(room: nat, done: seq<Chunk>)
    requires done == [Chunk(BATCH, BATCH + 1)]
    ensures PlanFrom(Crowded(), BATCH + 1, done, Scans(Crowded(), room)) == Complete(done)
  {
    var inner := Crowded();
    BracketWindow(inner, BATCH + 1);
    assert Scans(inner, room)(BATCH + 1, done) == Leave;
    assert ClosesAt(inner, BATCH + 1, BATCH + 1);
  }

  /** 1024 commas in front of the only element are accepted. */
  lemma {:induction false} CrowdedAccepted(room: nat)
    requires room > 0
    ensures PlanFrom(Crowded(), 0, [], Scans(Crowded(), room)) == Complete([Chunk(BATCH, BATCH + 1)])
    ensures ManyCommas(Crowded())
  {
    var inner, done := Crowded(), [Chunk(BATCH, BATCH + 1)];
    CrowdedFirst(room);
    CrowdedSecond(room);
    PlanStep(inner, 0, room);
    PlanStep(inner, BATCH - 1, room);
    CrowdedThird(room, done);
    assert SkipSpace(inner, 0) == 0;
  }
}
