/** The strict serial array reader: it drives the splitter over resumable windows and stops at the first defect. The
    scan of one window, which the tolerant reader shares, is here too. */
module Slices {
  import opened Wrappers
  import opened Bytes
  import opened Splitter
  import opened Windows
  import opened Avx2Splitter

  /** Why an array is refused. `Panic` is not an error value: taking the address of slot 0 of an empty destination stops
      the program. */
  datatype Error = NotAnArray | Panic | Malformed | BadSeparator | NoRoom | BadElement | Unterminated

  /** What happens to an array: the ranges of its elements, or the first reason to refuse it. */
  datatype Result = Accepted(ranges: seq<Chunk>) | Rejected(error: Error)

  /** What the strict reader returns: how many slots it filled, or the error. */
  datatype Outcome = Parsed(count: nat) | Failed(error: Error)

  datatype Problem = Problem(offset: nat, record: int, error: Error)

  // ----- what acceptance means, window by window -----

  /** The window's kept chunk `k` is separated from what stands before it. */
  ghost predicate GapOk(w: bytes, kept: seq<Chunk>, k: nat, any: bool)
    requires k < |kept|
  {
    var from := if k == 0 then 0 else kept[k - 1].end;
    from <= kept[k].start <= |w| && Separates(w[from..kept[k].start], any || k > 0)
  }

  ghost predicate GapsOk(w: bytes, kept: seq<Chunk>, any: bool) {
    forall k | 0 <= k < |kept| :: GapOk(w, kept, k, any)
  }

  function Moved(c: Chunk, off: nat): Chunk {
    Chunk(c.start + off, c.end + off)
  }

  /** Window positions as positions of the whole input. */
  function Shift(cs: seq<Chunk>, off: nat): (r: seq<Chunk>)
    ensures |r| == |cs| && forall k | 0 <= k < |cs| :: r[k] == Moved(cs[k], off)
  {
    seq(|cs|, k requires 0 <= k < |cs| => Moved(cs[k], off))
  }

  /** The bytes of a range. */
  function Piece(inner: bytes, c: Chunk): bytes {
    if c.start <= c.end <= |inner| then inner[c.start..c.end] else []
  }

  ghost predicate AllAccepted(inner: bytes, cs: seq<Chunk>, accepts: bytes -> bool) {
    forall k | 0 <= k < |cs| :: accepts(Piece(inner, cs[k]))
  }

  /** The chunks of the window at `off`. */
  ghost function Window(inner: bytes, off: nat, cap: nat): (cs: seq<Chunk>)
    requires off < |inner|
    ensures Solid(cs) != [] ==> 0 < EndOf(cs)
    ensures EndOf(cs) <= |inner| - off && |cs| <= cap
  {
    var w := inner[off..];
    var cs := Split(w, cap).chunks;
    SplitTiled(w, cap);
    SolidTiled(w, SkipSpace(w, 0), cs, |cs|);
    assert Solid(cs) != [] ==> Ascends(Solid(cs), 0, EndOf(cs));
    assert cs != [] ==> Tiles(w, SkipSpace(w, 0), cs, |cs| - 1);
    cs
  }

  ghost function Finish(inner: bytes, done: seq<Chunk>): Result {
    if Closes(inner, EndOf(done)) then Accepted(done) else Rejected(Unterminated)
  }

  /** What one window decides: stop and check the tail, refuse, or go on behind its last chunk. */
  datatype Turn = Finished | Refuse(error: Error) | Go(off: nat, done: seq<Chunk>)

  /** The window at `off`, when the ranges in `done` have been accepted before it. */
  ghost function TurnAt(inner: bytes, off: nat, done: seq<Chunk>, cap: nat, room: nat, accepts: bytes -> bool)
    : (t: Turn)
    requires off < |inner|
    ensures t.Go? ==> off < t.off <= |inner| && EndOf(t.done) <= t.off
  {
    var w, cs := inner[off..], Window(inner, off, cap);
    var kept := Solid(cs);
    var next := done + Shift(kept, off);
    if kept == [] then if Closes(w, 0) then Finished else Refuse(Malformed)
    else if !GapsOk(w, kept, done != []) then Refuse(BadSeparator)
    else if |next| > room then Refuse(NoRoom)
    else if !AllAccepted(inner, Shift(kept, off), accepts) then Refuse(BadElement)
    else
      KeptEnds(inner, off, cap);
      Go(off + EndOf(cs), next)
  }

  /** All windows from the one at `off` on, when `turn` says what each of them decides. A window that does not advance
      is refused. */
  ghost function Drive(inner: bytes, off: nat, done: seq<Chunk>, turn: (nat, seq<Chunk>) -> Turn): Result
    requires off <= |inner|
    decreases |inner| - off
  {
    if off == |inner| then Finish(inner, done)
    else
      match turn(off, done)
      case Finished => Finish(inner, done)
      case Refuse(error) => Rejected(error)
      case Go(next, more) => if off < next <= |inner| then Drive(inner, next, more, turn) else Rejected(Malformed)
  }

  ghost function Turns(inner: bytes, cap: nat, room: nat, accepts: bytes -> bool): (nat, seq<Chunk>) -> Turn {
    (off: nat, done: seq<Chunk>) => if off < |inner| then TurnAt(inner, off, done, cap, room, accepts) else Finished
  }

  /** `turn` is the decision of every window. */
  ghost predicate Decides(turn: (nat, seq<Chunk>) -> Turn, inner: bytes, cap: nat, room: nat, accepts: bytes -> bool) {
    forall off: nat, done: seq<Chunk> {:trigger TurnAt(inner, off, done, cap, room, accepts)} ::
      off < |inner| ==> turn(off, done) == TurnAt(inner, off, done, cap, room, accepts)
  }

  lemma {:induction false} TurnsDecide(inner: bytes, cap: nat, room: nat, accepts: bytes -> bool)
    ensures Decides(Turns(inner, cap, room, accepts), inner, cap, room, accepts)
  {
  }

  lemma {:induction false} KeptEnds(inner: bytes, off: nat, cap: nat)
    requires off < |inner|
    ensures EndOf(Solid(Window(inner, off, cap))) <= EndOf(Window(inner, off, cap))
  {
    var w := inner[off..];
    SplitTiled(w, cap);
    SolidTiled(w, SkipSpace(w, 0), Split(w, cap).chunks, |Split(w, cap).chunks|);
  }

  /** The position just inside the opening bracket, if the input is an array. */
  function Inside(raw: bytes): Option<nat> {
    var i := SkipSpace(raw, 0);
    if i < |raw| && raw[i] == LBRACKET then Some(i + 1) else None
  }

  /** What follows the opening bracket. */
  function Inner(raw: bytes): bytes {
    if Inside(raw).Some? then raw[Inside(raw).value..] else []
  }

  /** The outcome for an input, a chunk buffer of `cap` entries and a destination of `room` slots. Ranges are relative
      to the opening bracket. */
  ghost function Accept(raw: bytes, cap: nat, room: nat, accepts: bytes -> bool): Result {
    if raw == [] then Accepted([])
    else if Inside(raw).None? then Rejected(NotAnArray)
    else if room == 0 then Rejected(Panic)
    else Drive(Inner(raw), 0, [], Turns(Inner(raw), cap, room, accepts))
  }

  /** Slot `k` holds what range `k` decodes to. */
  ghost predicate SlotOk<T(!new)>(slots: seq<T>, inner: bytes, ranges: seq<Chunk>, decode: bytes -> T, k: nat)
    requires k < |ranges| <= |slots|
  {
    decode(Piece(inner, ranges[k])) == slots[k]
  }

  ghost predicate FilledTo<T(!new)>(slots: seq<T>, inner: bytes, ranges: seq<Chunk>, decode: bytes -> T, n: nat) {
    n <= |ranges| <= |slots| && forall k | 0 <= k < n :: SlotOk(slots, inner, ranges, decode, k)
  }

  ghost predicate Filled<T(!new)>(slots: seq<T>, inner: bytes, ranges: seq<Chunk>, decode: bytes -> T) {
    FilledTo(slots, inner, ranges, decode, |ranges|)
  }

  /** The slots from `n` on are the same. */
  ghost predicate SameFrom<T(!new)>(a: seq<T>, b: seq<T>, n: nat) {
    |a| == |b| && forall k | n <= k < |a| :: a[k] == b[k]
  }

  // ----- the loops -----

  /** Where the first `n` kept chunks begin whose gap is bad. */
  ghost function BadGaps(w: bytes, kept: seq<Chunk>, n: nat, any: bool): seq<nat>
    requires n <= |kept|
  {
    if n == 0 then []
    else
      var bad := BadGaps(w, kept, n - 1, any);
      if GapOk(w, kept, n - 1, any) then bad else bad + [kept[n - 1].start]
  }

  lemma {:induction false} BadGapsPrefix(w: bytes, a: seq<Chunk>, b: seq<Chunk>, n: nat, any: bool)
    requires a <= b && n <= |a|
    ensures BadGaps(w, a, n, any) == BadGaps(w, b, n, any)
  {
    if n > 0 {
      BadGapsPrefix(w, a, b, n - 1, any);
      assert GapOk(w, a, n - 1, any) <==> GapOk(w, b, n - 1, any);
    }
  }

  lemma {:induction false} NoBadGaps(w: bytes, kept: seq<Chunk>, n: nat, any: bool)
    requires n <= |kept|
    ensures BadGaps(w, kept, n, any) == [] <==> forall k | 0 <= k < n :: GapOk(w, kept, k, any)
  {
    if n > 0 {
      NoBadGaps(w, kept, n - 1, any);
    }
  }

  /** Moves the chunks that are not empty to the front of the buffer and checks the gap before each of them. The strict
      reader stops at the first bad gap; the tolerant one keeps the chunk and notes its position. */
  method Compact(w: bytes, buf: array<Chunk>, count: nat, any: bool, tolerant: bool)
    returns (valid: nat, prevEnd: nat, bad: seq<nat>)
    requires count <= buf.Length && Ascending(Solid(buf[..count]), |w|)
    modifies buf
    ensures bad == [] <==> GapsOk(w, Solid(old(buf[..count])), any)
    ensures bad == [] || tolerant ==>
      && valid <= count && buf[..valid] == Solid(old(buf[..count])) && prevEnd == EndOf(buf[..valid])
      && bad == BadGaps(w, buf[..valid], valid, any)
  {
    ghost var cs, kept := buf[..count], [];
    valid, prevEnd, bad := 0, 0, [];
    var i := 0;
    while i < count
      invariant |kept| == valid <= i <= count
      invariant kept == SolidTo(cs, i) && prevEnd == EndOf(kept)
      invariant forall k | 0 <= k < valid :: buf[k] == kept[k]
      invariant forall k | i <= k < count :: buf[k] == cs[k]
      invariant bad == BadGaps(w, kept, |kept|, any)
    {
      var c := buf[i];
      if c.start != c.end {
        GapStep(w, any, cs, i, kept);
        var ok := ValidArrayGap(w[(if valid == 0 then 0 else prevEnd)..c.start], any || valid > 0);
        if !ok {
          bad := bad + [c.start];
          if !tolerant {
            return;
          }
        }
        buf[valid] := c;
        kept := kept + [c];
        valid := valid + 1;
        prevEnd := c.end;
      }
      i := i + 1;
    }
    assert buf[..valid] == kept;
    NoBadGaps(w, kept, |kept|, any);
  }

  /** One more kept chunk: it stands after the ones kept before it, and its gap decides whether all are still good. */
  lemma {:induction false} GapStep(w: bytes, any: bool, cs: seq<Chunk>, i: nat, kept: seq<Chunk>)
    requires i < |cs| && Ascending(Solid(cs), |w|) && kept == SolidTo(cs, i) && cs[i].start != cs[i].end
    ensures EndOf(kept) <= cs[i].start <= |w|
    ensures GapOk(w, kept + [cs[i]], |kept|, any) <==> Separates(w[EndOf(kept)..cs[i].start], any || kept != [])
    ensures !GapOk(w, kept + [cs[i]], |kept|, any) ==> !GapsOk(w, Solid(cs), any)
    ensures BadGaps(w, kept + [cs[i]], |kept|, any) == BadGaps(w, kept, |kept|, any)
  {
    var more := kept + [cs[i]];
    SolidPrefix(cs, i + 1, |cs|);
    NewestAscends(more, Solid(cs), |w|);
    BadGapsPrefix(w, kept, more, |kept|, any);
    if !GapOk(w, more, |kept|, any) {
      GapsPrefix(w, more, Solid(cs), any);
    }
  }

  lemma {:induction false} NewestAscends(more: seq<Chunk>, all: seq<Chunk>, limit: nat)
    requires more != [] && more <= all && Ascending(all, limit)
    ensures EndOf(more[..|more| - 1]) <= more[|more| - 1].start <= limit
  {
    assert Ascends(all, |more| - 1, limit);
  }

  lemma {:induction false} GapsPrefix(w: bytes, a: seq<Chunk>, b: seq<Chunk>, any: bool)
    requires a <= b && !GapsOk(w, a, any)
    ensures !GapsOk(w, b, any)
  {
    var k :| 0 <= k < |a| && !GapOk(w, a, k, any);
    assert !GapOk(w, b, k, any);
  }

  /** One more slot is filled; the others keep what they hold. */
  lemma {:induction false} FilledStep<T(!new)>(before: seq<T>, after: seq<T>, inner: bytes, ranges: seq<Chunk>, n: nat,
                                               decode: bytes -> T)
    requires FilledTo(before, inner, ranges, decode, n) && n < |ranges|
    requires after == before[n := decode(Piece(inner, ranges[n]))]
    ensures FilledTo(after, inner, ranges, decode, n + 1)
  {
    forall k | 0 <= k < n + 1 ensures SlotOk(after, inner, ranges, decode, k) {
      if k < n {
        assert SlotOk(before, inner, ranges, decode, k);
      }
    }
  }

  /** The filled slots do not depend on ranges that come later. */
  lemma {:induction false} FilledPrefix<T(!new)>(slots: seq<T>, inner: bytes, a: seq<Chunk>, b: seq<Chunk>,
                                                 decode: bytes -> T)
    requires a <= b && |b| <= |slots|
    ensures FilledTo(slots, inner, a, decode, |a|) <==> FilledTo(slots, inner, b, decode, |a|)
  {
    forall k | 0 <= k < |a| ensures SlotOk(slots, inner, a, decode, k) <==> SlotOk(slots, inner, b, decode, k) {
    }
  }

  /** Decodes range `n` into slot `n`. */
  method StoreAt<T(!new)>(inner: bytes, start: nat, end: nat, dst: array<T>, n: nat, decode: bytes -> T,
                          ghost all: seq<Chunk>)
    requires n < |all| <= dst.Length && all[n] == Chunk(start, end) && start <= end <= |inner|
    requires FilledTo(dst[..], inner, all, decode, n)
    modifies dst
    ensures FilledTo(dst[..], inner, all, decode, n + 1) == true && SameFrom(dst[..], old(dst[..]), n + 1) == true
  {
    ghost var slots := dst[..];
    dst[n] := decode(inner[start..end]);
    FilledStep(slots, dst[..], inner, all, n, decode);
  }

  /** Parses the kept chunks into consecutive slots and stops at the first that fails. */
  method ParseStrict<T(!new)>(inner: bytes, off: nat, buf: array<Chunk>, valid: nat, dst: array<T>, total: nat,
                              accepts: bytes -> bool, decode: bytes -> T, ghost done: seq<Chunk>)
    returns (ok: bool)
    requires valid <= buf.Length && total == |done| && total + valid <= dst.Length && (buf as object) != dst
    requires off <= |inner| && Ascending(buf[..valid], |inner| - off) && Filled(dst[..], inner, done, decode)
    modifies dst
    ensures ok <==> AllAccepted(inner, Shift(buf[..valid], off), accepts)
    ensures ok ==> Filled(dst[..], inner, done + Shift(buf[..valid], off), decode)
    ensures SameFrom(dst[..], old(dst[..]), total + valid)
  {
    ghost var ranges := Shift(buf[..valid], off);
    ghost var all := done + ranges;
    FilledPrefix(dst[..], inner, done, all, decode);
    var j := 0;
    while j < valid
      invariant 0 <= j <= valid
      invariant forall k | 0 <= k < j :: accepts(Piece(inner, ranges[k]))
      invariant FilledTo(dst[..], inner, all, decode, total + j) == true
      invariant SameFrom(dst[..], old(dst[..]), total + j) == true
    {
      var absS, absE := off + buf[j].start, off + buf[j].end;
      assert Ascends(buf[..valid], j, |inner| - off) && ranges[j] == all[total + j] == Chunk(absS, absE);
      if !accepts(inner[absS..absE]) {
        return false;
      }
      StoreAt(inner, absS, absE, dst, total + j, decode, all);
      j := j + 1;
    }
    return true;
  }

  lemma {:induction false} WindowAscends(inner: bytes, off: nat, cap: nat)
    requires off < |inner|
    ensures Ascending(Solid(Window(inner, off, cap)), |inner| - off)
  {
    var w, cs := inner[off..], Window(inner, off, cap);
    SplitTiled(w, cap);
    SolidTiled(w, SkipSpace(w, 0), cs, |cs|);
    var kept, limit := Solid(cs), |inner| - off;
    forall k | 0 <= k < |kept| ensures Ascends(kept, k, limit) {
      assert Ascends(kept, k, EndOf(cs));
    }
  }

  /** One window scanned into the buffer. */
  method ScanWindow(inner: bytes, off: nat, buf: array<Chunk>) returns (count: nat)
    requires off < |inner|
    modifies buf
    ensures count <= buf.Length && buf[..count] == Window(inner, off, buf.Length)
    ensures Ascending(Solid(Window(inner, off, buf.Length)), |inner| - off)
  {
    var depth;
    count, depth := FindArrayElementsAVX2(inner[off..], buf);
    WindowAscends(inner, off, buf.Length);
  }

  /** One window scanned into the buffer, without the chunks that are empty, and with its gaps checked. */
  method ScanKept(inner: bytes, off: nat, buf: array<Chunk>, any: bool, tolerant: bool)
    returns (valid: nat, prevEnd: nat, stepAdvance: nat, bad: seq<nat>)
    requires off < |inner|
    modifies buf
    ensures var cs := Window(inner, off, buf.Length);
      && stepAdvance == EndOf(cs) && (bad == [] <==> GapsOk(inner[off..], Solid(cs), any))
      && (bad == [] || tolerant ==>
            valid <= buf.Length && buf[..valid] == Solid(cs) && prevEnd == EndOf(buf[..valid])
            && Ascending(buf[..valid], |inner| - off) && bad == BadGaps(inner[off..], buf[..valid], valid, any))
  {
    var count := ScanWindow(inner, off, buf);
    if count == 0 {
      return 0, 0, 0, [];
    }
    stepAdvance := buf[count - 1].end;
    valid, prevEnd, bad := Compact(inner[off..], buf, count, any, tolerant);
  }

  lemma {:induction false} EndShifted(done: seq<Chunk>, kept: seq<Chunk>, off: nat)
    requires kept != []
    ensures EndOf(done + Shift(kept, off)) == off + EndOf(kept)
  {
  }

  /** The elements of one window, if there is room for them. */
  method StoreStrict<T(!new)>(inner: bytes, off: nat, buf: array<Chunk>, valid: nat, dst: array<T>, total0: nat,
                              accepts: bytes -> bool, decode: bytes -> T, ghost done: seq<Chunk>)
    returns (error: Option<Error>, total: nat, ghost more: seq<Chunk>)
    requires valid <= buf.Length && (buf as object) != dst && total0 == |done|
    requires off <= |inner| && Ascending(buf[..valid], |inner| - off) && Filled(dst[..], inner, done, decode)
    modifies dst
    ensures more == done + Shift(old(buf[..valid]), off) && total == |more|
    ensures error == if total > dst.Length then Some(NoRoom)
                     else if !AllAccepted(inner, Shift(old(buf[..valid]), off), accepts) then Some(BadElement) else None
    ensures error == None ==>
      Filled(dst[..], inner, more, decode) == true && SameFrom(dst[..], old(dst[..]), total) == true
  {
    total, more := total0 + valid, done + Shift(buf[..valid], off);
    if total0 + valid > dst.Length {
      return Some(NoRoom), total, more;
    }
    var ok := ParseStrict(inner, off, buf, valid, dst, total0, accepts, decode, done);
    error := if ok then None else Some(BadElement);
  }

  /** One window of the strict reader. */
  method StrictWindow<T(!new)>(inner: bytes, off: nat, buf: array<Chunk>, dst: array<T>, total0: nat,
                               accepts: bytes -> bool, decode: bytes -> T, ghost done: seq<Chunk>)
    returns (error: Option<Error>, total: nat, prevEnd: nat, stepAdvance: nat, ghost more: seq<Chunk>)
    requires off < |inner| && (buf as object) != dst && total0 == |done|
    requires Filled(dst[..], inner, done, decode)
    modifies buf, dst
    ensures var t := TurnAt(inner, off, done, buf.Length, dst.Length, accepts);
      if error.Some? then t == Refuse(error.value)
      else if stepAdvance == 0 then t == Finished
      else t == Go(off + stepAdvance, more)
    ensures error == None ==>
      && (stepAdvance == 0 ==> more == done) && (stepAdvance > 0 ==> EndOf(more) == off + prevEnd)
      && total == |more| <= dst.Length && Filled(dst[..], inner, more, decode) == true &&
        SameFrom(dst[..], old(dst[..]), total) == true
  {
    error, total, more := None, total0, done;
    var valid, bad;
    valid, prevEnd, stepAdvance, bad := ScanKept(inner, off, buf, total > 0, false);
    if bad != [] {
      return Some(BadSeparator), 0, 0, 0, [];
    }
    if valid == 0 {
      var empty := EmptyArrayRemnant(inner[off..]);
      return if empty then None else Some(Malformed), total, 0, 0, more;
    }
    EndShifted(done, buf[..valid], off);
    error, total, more := StoreStrict(inner, off, buf, valid, dst, total, accepts, decode, done);
  }

  /** Whether a result of the strict reader is the one that the windows decide. */
  ghost predicate Agrees<T(!new)>(r: Outcome, goal: Result, before: seq<T>, after: seq<T>, inner: bytes,
                                  decode: bytes -> T) {
    && (goal.Rejected? ==> r == Failed(goal.error))
    && (goal.Accepted? ==> r == Parsed(|goal.ranges|) && SameFrom(after, before, |goal.ranges|))
    && (goal.Accepted? ==> Filled(after, inner, goal.ranges, decode))
  }

  /** The window loop of the strict reader. */
  method ReadElements<T(!new)>(inner: bytes, buf: array<Chunk>, dst: array<T>, accepts: bytes -> bool,
                               decode: bytes -> T, ghost turn: (nat, seq<Chunk>) -> Turn, ghost goal: Result)
    returns (r: Outcome)
    requires (buf as object) != dst && Decides(turn, inner, buf.Length, dst.Length, accepts)
    requires goal == Drive(inner, 0, [], turn)
    modifies buf, dst
    ensures Agrees(r, goal, old(dst[..]), dst[..], inner, decode)
  {
    var off: nat, total: nat, prevEndAbs: nat := 0, 0, 0;
    ghost var done: seq<Chunk> := [];
    while off < |inner|
      invariant off <= |inner| && prevEndAbs == EndOf(done) <= |inner| && total == |done| <= dst.Length
      invariant goal == Drive(inner, off, done, turn)
      invariant Filled(dst[..], inner, done, decode) && SameFrom(dst[..], old(dst[..]), total)
      decreases |inner| - off
    {
      var error, prevEnd, stepAdvance;
      error, total, prevEnd, stepAdvance, done := StrictWindow(inner, off, buf, dst, total, accepts, decode, done);
      if error.Some? {
        return Failed(error.value);
      }
      if stepAdvance == 0 {
        break;
      }
      prevEndAbs, off := off + prevEnd, off + stepAdvance;
    }
    var closed := ArrayTailClosed(inner, prevEndAbs);
    if !closed {
      return Failed(Unterminated);
    }
    return Parsed(total);
  }

  /** The strict reader: `capacity` chunk entries, results in the first slots of `dst`. */
  method UnmarshalSlice<T(!new)>(raw: bytes, dst: array<T>, capacity: nat, accepts: bytes -> bool, decode: bytes -> T)
    returns (r: Outcome)
    modifies dst
    ensures Agrees(r, Accept(raw, capacity, dst.Length, accepts), old(dst[..]), dst[..], Inner(raw), decode)
  {
    if |raw| == 0 {
      return Parsed(0);
    }
    var buf := new Chunk[capacity];
    var startIdx := SkipSpaceLoop(raw, 0);
    if startIdx >= |raw| || raw[startIdx] != LBRACKET {
      return Failed(NotAnArray);
    }
    if dst.Length == 0 {
      return Failed(Panic);
    }
    TurnsDecide(Inner(raw), capacity, dst.Length, accepts);
    ghost var turn, goal :=
      Turns(Inner(raw), capacity, dst.Length, accepts), Accept(raw, capacity, dst.Length, accepts);
    r := ReadElements(raw[startIdx + 1..], buf, dst, accepts, decode, turn, goal);
  }

  // ----- ranges behind ranges, and what follows the last one -----

  lemma {:induction false} AscendingSnoc(ranges: seq<Chunk>, c: Chunk, limit: nat, more: nat)
    requires Ascending(ranges, limit) && limit <= c.start < c.end <= more
    ensures Ascending(ranges + [c], more)
  {
    var all := ranges + [c];
    forall k | 0 <= k < |all| ensures Ascends(all, k, more) {
      if k < |ranges| {
        assert Ascends(ranges, k, limit);
      }
      if 0 < k == |ranges| {
        assert Ascends(ranges, k - 1, limit);
      }
    }
  }

  lemma {:induction false} AscendingWider(ranges: seq<Chunk>, limit: nat, more: nat)
    requires Ascending(ranges, limit) && limit <= more
    ensures Ascending(ranges, more)
  {
    forall k | 0 <= k < |ranges| ensures Ascends(ranges, k, more) {
      assert Ascends(ranges, k, limit);
    }
  }

  ghost predicate OnlyCommas(inner: bytes, i: nat, j: nat) {
    forall k | i <= k < j :: Is(inner, k, COMMA)
  }

  /** Behind the last kept chunk of a window come only the commas of dropped chunks. */
  lemma {:induction false} WindowTail(inner: bytes, off: nat, cap: nat, kept: seq<Chunk>, end: nat)
    requires off < |inner| && kept == Solid(Window(inner, off, cap)) != [] && end == EndOf(Window(inner, off, cap))
    ensures EndOf(kept) <= end && 0 < end <= |inner| - off
    ensures OnlyCommas(inner, off + EndOf(kept), off + end)
  {
    var w, cs := inner[off..], Window(inner, off, cap);
    SplitTiled(w, cap);
    SolidTiled(w, SkipSpace(w, 0), cs, |cs|);
    forall k | off + EndOf(kept) <= k < off + end ensures Is(inner, k, COMMA) {
      assert Is(w, k - off, COMMA);
    }
  }
}
