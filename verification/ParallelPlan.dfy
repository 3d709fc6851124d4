/** The producer of the parallel reader: what it would send to its workers if none of them failed. */
module ParallelPlan {
  import opened Bytes
  import opened Splitter
  import opened Windows
  import opened Avx2Splitter
  import opened Slices

  /** The chunk buffer of one batch. */
  const BATCH: nat := 1024

  /** What one batch decides: leave the loop, refuse the input, or go on behind it with these elements. */
  datatype Scanned = Leave | Stop(error: Error) | Batch(next: nat, chunks: seq<Chunk>)

  /** The gap before accepted range `k` of `all`, when the window at `off` holds it: exactly one comma behind another
      element, or behind a window that held nothing. */
  ghost predicate BatchGapOk(inner: bytes, off: nat, all: seq<Chunk>, k: nat)
    requires k < |all|
  {
    var from := if k == 0 then off else all[k - 1].end;
    from <= all[k].start <= |inner| && Separates(inner[from..all[k].start], k > 0 || off > 0)
  }

  ghost predicate BatchGapsOk(inner: bytes, off: nat, done: seq<Chunk>, all: seq<Chunk>) {
    forall k | |done| <= k < |all| :: BatchGapOk(inner, off, all, k)
  }

  /** The batch at `off`, behind the accepted ranges in `done`, for a chunk buffer of `cap` entries. */
  ghost function ScanAt(inner: bytes, off: nat, done: seq<Chunk>, room: nat, cap: nat): (r: Scanned)
    requires off < |inner|
    ensures r.Batch? ==> off < r.next <= |inner| && |done| + |r.chunks| <= room
  {
    var w, cs := inner[off..], Window(inner, off, cap);
    var kept := Shift(Solid(cs), off);
    if |cs| == 0 then if Closes(w, 0) then Leave else Stop(Malformed)
    else if EndOf(cs) == 0 then Leave
    else if Split(w, cap).depth != 0 && |cs| < cap then Stop(Malformed)
    else if !BatchGapsOk(inner, off, done, done + kept) then Stop(BadSeparator)
    else if |done| + |kept| > room then Stop(NoRoom)
    else Batch(off + EndOf(cs), kept)
  }

  /** The elements of the whole array in order, or the reason to refuse it. */
  datatype Plan = Complete(ranges: seq<Chunk>) | Broken(error: Error)

  type Scan = (nat, seq<Chunk>) -> Scanned

  ghost function Scans(inner: bytes, room: nat): Scan {
    (off: nat, done: seq<Chunk>) => if off < |inner| then ScanAt(inner, off, done, room, BATCH) else Leave
  }

  ghost function Tail(inner: bytes, done: seq<Chunk>): Plan {
    if Closes(inner, EndOf(done)) then Complete(done) else Broken(Unterminated)
  }

  ghost function PlanFrom(inner: bytes, off: nat, done: seq<Chunk>, scan: Scan): Plan
    requires off <= |inner|
    decreases |inner| - off
  {
    if off == |inner| then Tail(inner, done)
    else
      match scan(off, done)
      case Leave => Tail(inner, done)
      case Stop(error) => Broken(error)
      case Batch(next, chunks) => if off < next <= |inner| then PlanFrom(inner, next, done + chunks, scan)
        else Broken(Malformed)
  }

  // ----- one batch of the producer -----

  /** Moves the chunks that are not empty to the front of the buffer, at their place in the whole input. */
  method CompactAbsolute(batch: array<Chunk>, count: nat, off: nat) returns (valid: nat)
    requires count <= batch.Length
    modifies batch
    ensures valid <= count && batch[..valid] == Shift(Solid(old(batch[..count])), off)
  {
    ghost var cs := batch[..count];
    valid := 0;
    var i := 0;
    while i < count
      invariant valid <= i <= count && |SolidTo(cs, i)| == valid
      invariant forall k | 0 <= k < valid :: batch[k] == Moved(SolidTo(cs, i)[k], off)
      invariant forall k | i <= k < count :: batch[k] == cs[k]
    {
      var c := batch[i];
      if c.start != c.end {
        batch[valid] := Chunk(c.start + off, c.end + off);
        valid := valid + 1;
      }
      i := i + 1;
    }
    assert batch[..valid] == Shift(Solid(cs), off);
  }

  /** Range `k` begins no earlier than its gap does. */
  lemma {:induction false} BatchAscends(inner: bytes, off: nat, kept: seq<Chunk>, i: nat)
    requires off < |inner| && i < |kept| && Ascending(kept, |inner| - off)
    ensures var r := Shift(kept, off);
      (if i == 0 then off else r[i - 1].end) <= r[i].start < r[i].end <= |inner|
  {
    assert Ascends(kept, i, |inner| - off);
  }

  /** Checks the separators of the batch, against the last accepted element or, when there is none, against the start of
      the window. */
  method CheckGaps(inner: bytes, off: nat, batch: array<Chunk>, valid: nat, ghost done: seq<Chunk>,
                   ghost kept: seq<Chunk>, hadElements0: bool, prevElemEnd0: nat)
    returns (ok: bool)
    requires off < |inner| && valid <= batch.Length && batch[..valid] == Shift(kept, off)
    requires Ascending(kept, |inner| - off) && EndOf(done) <= off
    requires hadElements0 == (done != []) && prevElemEnd0 == EndOf(done)
    ensures ok <==> BatchGapsOk(inner, off, done, done + Shift(kept, off))
  {
    ghost var ranges, all := Shift(kept, off), done + Shift(kept, off);
    var hadElements, prevElemEnd := hadElements0, prevElemEnd0;
    var i := 0;
    while i < valid
      invariant 0 <= i <= valid
      invariant hadElements == (done != [] || i > 0) && prevElemEnd == if i == 0 then EndOf(done) else batch[i - 1].end
      invariant forall k | |done| <= k < |done| + i :: BatchGapOk(inner, off, all, k)
    {
      var gapStart, expectComma := prevElemEnd, hadElements;
      if !hadElements && off > 0 {
        gapStart, expectComma := off, true;
      }
      BatchAscends(inner, off, kept, i);
      assert batch[i] == ranges[i] == all[|done| + i] &&
        (i > 0 ==> batch[i - 1] == ranges[i - 1] == all[|done| + i - 1]);
      assert i == 0 && done != [] ==> all[|done| - 1] == done[|done| - 1];
      ok := ValidArrayGap(inner[gapStart..batch[i].start], expectComma);
      assert ok <==> BatchGapOk(inner, off, all, |done| + i);
      if !ok {
        return;
      }
      prevElemEnd, hadElements := batch[i].end, true;
      i := i + 1;
    }
    ok := true;
  }

  /** One batch of the producer. */
  method ScanBatch(inner: bytes, off: nat, batch: array<Chunk>, room: nat, found: nat, prevElemEnd: nat,
                   ghost done: seq<Chunk>)
    returns (r: Scanned)
    requires off < |inner| && batch.Length == BATCH && EndOf(done) <= off
    requires found == |done| && prevElemEnd == EndOf(done)
    modifies batch
    ensures r == ScanAt(inner, off, done, room, BATCH)
  {
    var w := inner[off..];
    var count, maxDepth := FindArrayElementsAVX2(w, batch);
    WindowAscends(inner, off, BATCH);
    ghost var cs := batch[..count];
    if count == 0 {
      var empty := EmptyArrayRemnant(w);
      return if empty then Leave else Stop(Malformed);
    }
    var stepAdvance := batch[count - 1].end;
    if stepAdvance == 0 {
      return Leave;
    }
    var valid := CompactAbsolute(batch, count, off);
    if maxDepth != 0 && count < BATCH {
      return Stop(Malformed);
    }
    var ok := CheckGaps(inner, off, batch, valid, done, Solid(cs), found > 0, prevElemEnd);
    if !ok {
      return Stop(BadSeparator);
    }
    if found + valid > room {
      return Stop(NoRoom);
    }
    return Batch(off + stepAdvance, batch[..valid]);
  }
}
