/** What acceptance by the serial readers says about the input. */
module SliceTheorems {
  import opened Bytes
  import opened Splitter
  import opened Windows
  import opened Slices

  // ----- every byte outside the accepted ranges is accounted for -----

  /** Between `i` and `j` there is only whitespace and commas; at least one comma where one is expected. */
  ghost predicate OnlySeparators(inner: bytes, i: nat, j: nat, comma: bool) {
    && i <= j <= |inner|
    && (forall k | i <= k < j :: IsSpace(inner[k]) || inner[k] == COMMA)
    && (comma ==> exists k: nat :: i <= k < j && Is(inner, k, COMMA))
  }

  /** What stands before range `k`: whitespace before the first one, whitespace and commas before the others. */
  ghost predicate Gap(inner: bytes, ranges: seq<Chunk>, k: nat)
    requires k < |ranges|
  {
    if k == 0 then ranges[0].start <= |inner| && AllSpace(inner[..ranges[0].start])
    else OnlySeparators(inner, ranges[k - 1].end, ranges[k].start, true)
  }

  ghost predicate Gaps(inner: bytes, ranges: seq<Chunk>) {
    forall k | 0 <= k < |ranges| :: Gap(inner, ranges, k)
  }

  /** The ranges are increasing and disjoint, and all other bytes are whitespace, commas between the ranges, and the one
      closing bracket. */
  ghost predicate Covers(inner: bytes, ranges: seq<Chunk>) {
    Ascending(ranges, |inner|) && Gaps(inner, ranges) && Closes(inner, EndOf(ranges))
  }

  lemma {:induction false} SeparatesOnly(inner: bytes, off: nat, i: nat, j: nat, comma: bool)
    requires off <= |inner| && i <= j <= |inner| - off && Separates(inner[off..][i..j], comma)
    ensures OnlySeparators(inner, off + i, off + j, comma)
    ensures !comma ==> AllSpace(inner[off + i..off + j])
  {
    var gap := inner[off..][i..j];
    if comma {
      var c: nat :| CommaAt(gap, c);
      forall k | off + i <= k < off + j ensures IsSpace(inner[k]) || inner[k] == COMMA {
        var g := k - off - i;
        assert inner[k] == gap[g];
        assert g < c ==> gap[g] == gap[..c][g];
        assert g > c ==> gap[g] == gap[c + 1..][g - c - 1];
      }
      assert Is(inner, off + i + c, COMMA);
    } else {
      assert gap == inner[off + i..off + j];
      forall k | off + i <= k < off + j ensures IsSpace(inner[k]) {
        assert inner[k] == gap[k - off - i];
      }
    }
  }

  /** Commas of dropped chunks in front of a gap do not matter. */
  lemma {:induction false} CommasBefore(inner: bytes, i: nat, off: nat, j: nat)
    requires i <= off && OnlyCommas(inner, i, off) && OnlySeparators(inner, off, j, true)
    ensures OnlySeparators(inner, i, j, true)
  {
    forall k | i <= k < j ensures IsSpace(inner[k]) || inner[k] == COMMA {
      if k < off {
        assert Is(inner, k, COMMA);
      }
    }
  }

  /** What holds of the accepted ranges when the window at `off` begins. */
  ghost predicate SoFar(inner: bytes, off: nat, done: seq<Chunk>) {
    && off <= |inner| && (done == [] ==> off == 0)
    && Ascending(done, off) && EndOf(done) <= off && OnlyCommas(inner, EndOf(done), off) && Gaps(inner, done)
  }

  /** The gap before kept chunk `k` of the window. */
  lemma {:induction false} WindowGap(inner: bytes, off: nat, done: seq<Chunk>, kept: seq<Chunk>, k: nat)
    requires SoFar(inner, off, done) && GapsOk(inner[off..], kept, done != []) && k < |kept|
    ensures Gap(inner, done + Shift(kept, off), |done| + k)
  {
    var w := inner[off..];
    assert GapOk(w, kept, k, done != []);
    var from := if k == 0 then 0 else kept[k - 1].end;
    SeparatesOnly(inner, off, from, kept[k].start, done != [] || k > 0);
    if k == 0 && done != [] {
      CommasBefore(inner, EndOf(done), off, off + kept[0].start);
    }
    if k == 0 && done == [] {
      assert inner[0..kept[0].start] == inner[..kept[0].start];
    }
  }

  lemma {:induction false} WindowGaps(inner: bytes, off: nat, done: seq<Chunk>, kept: seq<Chunk>)
    requires SoFar(inner, off, done) && GapsOk(inner[off..], kept, done != [])
    ensures Gaps(inner, done + Shift(kept, off))
  {
    var next := done + Shift(kept, off);
    forall k | 0 <= k < |next| ensures Gap(inner, next, k) {
      if k < |done| {
        assert Gap(inner, done, k);
      } else {
        WindowGap(inner, off, done, kept, k - |done|);
      }
    }
  }

  lemma {:induction false} AscendingShift(done: seq<Chunk>, kept: seq<Chunk>, off: nat, limit: nat)
    requires Ascending(done, off) && EndOf(done) <= off && Ascending(kept, limit)
    ensures Ascending(done + Shift(kept, off), off + limit)
  {
    var next, end := done + Shift(kept, off), off + limit;
    forall k | 0 <= k < |next| ensures Ascends(next, k, end) {
      if k < |done| {
        assert Ascends(done, k, off);
      } else {
        assert Ascends(kept, k - |done|, limit);
      }
    }
  }

  /** A window that goes on keeps the bookkeeping. */
  lemma {:induction false} TurnKeeps(inner: bytes, off: nat, done: seq<Chunk>, cap: nat, room: nat,
                                     accepts: bytes -> bool)
    requires off < |inner| && SoFar(inner, off, done) && AllAccepted(inner, done, accepts)
    requires TurnAt(inner, off, done, cap, room, accepts).Go?
    ensures var t := TurnAt(inner, off, done, cap, room, accepts);
      SoFar(inner, t.off, t.done) && |t.done| <= room && AllAccepted(inner, t.done, accepts)
  {
    var cs := Window(inner, off, cap);
    var kept := Solid(cs);
    WindowGaps(inner, off, done, kept);
    WindowTail(inner, off, cap, kept, EndOf(cs));
    WindowTiled(inner, off, cap);
    AscendingShift(done, kept, off, EndOf(cs));
    EndShifted(done, kept, off);
    AcceptedAppend(inner, done, Shift(kept, off), accepts);
  }

  lemma {:induction false} AcceptedAppend(inner: bytes, a: seq<Chunk>, b: seq<Chunk>, accepts: bytes -> bool)
    requires AllAccepted(inner, a, accepts) && AllAccepted(inner, b, accepts)
    ensures AllAccepted(inner, a + b, accepts)
  {
  }

  lemma {:induction false} WindowTiled(inner: bytes, off: nat, cap: nat)
    requires off < |inner|
    ensures Ascending(Solid(Window(inner, off, cap)), EndOf(Window(inner, off, cap)))
  {
    var w, cs := inner[off..], Window(inner, off, cap);
    SplitTiled(w, cap);
    SolidTiled(w, SkipSpace(w, 0), cs, |cs|);
  }

  lemma {:induction false} DriveCovers(inner: bytes, off: nat, done: seq<Chunk>, cap: nat, room: nat,
                                       accepts: bytes -> bool)
    requires SoFar(inner, off, done) && |done| <= room && AllAccepted(inner, done, accepts)
    ensures var r := Drive(inner, off, done, Turns(inner, cap, room, accepts));
      r.Accepted? ==> Covers(inner, r.ranges) && AllAccepted(inner, r.ranges, accepts) && |r.ranges| <= room
    decreases |inner| - off
  {
    var turn := Turns(inner, cap, room, accepts);
    AscendingWider(done, off, |inner|);
    if off < |inner| {
      var t := TurnAt(inner, off, done, cap, room, accepts);
      assert turn(off, done) == t;
      if t.Go? {
        TurnKeeps(inner, off, done, cap, room, accepts);
        DriveCovers(inner, t.off, t.done, cap, room, accepts);
      }
    }
  }

  // ----- the opening bracket -----

  /** The array's bracket: only whitespace stands before it. */
  predicate OpensAt(raw: bytes, j: nat) {
    j < |raw| && raw[j] == LBRACKET && forall k | 0 <= k < j :: IsSpace(raw[k])
  }

  /** The reader finds the array's bracket exactly if there is one, and reads on behind it. */
  lemma {:induction false} InsideIff(raw: bytes)
    ensures Inside(raw).Some? <==> exists j: nat :: OpensAt(raw, j)
    ensures forall j: nat | OpensAt(raw, j) :: Inner(raw) == raw[j + 1..]
  {
    var i := SkipSpace(raw, 0);
    SkipSpaceBlank(raw, 0);
    forall j: nat | OpensAt(raw, j) ensures j == i {
      SkipSpaceStops(raw, 0, j);
    }
    if Inside(raw).Some? {
      assert forall k | 0 <= k < i :: raw[k] == raw[0..i][k];
      assert OpensAt(raw, i);
    }
  }

  /** No window refuses the input for a missing bracket, or stops the program. */
  lemma {:induction false} DriveErrors(inner: bytes, off: nat, done: seq<Chunk>, cap: nat, room: nat,
                                       accepts: bytes -> bool)
    requires off <= |inner|
    ensures var r := Drive(inner, off, done, Turns(inner, cap, room, accepts));
      r.Rejected? ==> r.error != NotAnArray && r.error != Panic
    decreases |inner| - off
  {
    if off < |inner| {
      var t := TurnAt(inner, off, done, cap, room, accepts);
      assert Turns(inner, cap, room, accepts)(off, done) == t;
      if t.Go? {
        DriveErrors(inner, t.off, t.done, cap, room, accepts);
      }
    }
  }

  /** An input is refused as no array exactly if it is not empty and has no bracket in front; and the program stops
      exactly if there is one and the destination is empty. */
  lemma {:induction false} NotAnArrayIff(raw: bytes, cap: nat, room: nat, accepts: bytes -> bool)
    ensures Accept(raw, cap, room, accepts) == Rejected(NotAnArray) <==>
      raw != [] && forall j: nat :: !OpensAt(raw, j)
    ensures Accept(raw, cap, room, accepts) == Rejected(Panic) <==> room == 0 && exists j: nat :: OpensAt(raw, j)
  {
    InsideIff(raw);
    DriveErrors(Inner(raw), 0, [], cap, room, accepts);
  }

  /** On every success, for every chunk buffer and destination: the input begins with a bracket, the accepted ranges are
      increasing and disjoint, each of them parses, they fit the destination, and the other bytes are whitespace, commas
      between the ranges, and one closing bracket. */
  lemma {:induction false} AcceptedMeansCovered(raw: bytes, cap: nat, room: nat, accepts: bytes -> bool)
    requires raw != [] && Accept(raw, cap, room, accepts).Accepted?
    ensures var ranges := Accept(raw, cap, room, accepts).ranges;
      && (exists j: nat :: OpensAt(raw, j) && Inner(raw) == raw[j + 1..])
      && AllAccepted(Inner(raw), ranges, accepts) && |ranges| <= room && Covers(Inner(raw), ranges)
  {
    InsideIff(raw);
    DriveCovers(Inner(raw), 0, [], cap, room, accepts);
  }
}
