/** The tolerant array reader: it keeps every element that parses, and records what it had to skip. */
module TolerantSlices {
  import opened Bytes
  import opened Splitter
  import opened Windows
  import opened StrictSkip
  import opened Slices

  // ----- what it keeps and reports, window by window -----

  /** The ranges of the elements that have been kept, and the problems so far. */
  datatype Reading = Reading(ranges: seq<Chunk>, problems: seq<Problem>)

  /** After the first `n` elements of a window, when `r` was so before it: an element that parses is kept, any other is
      reported. The record is the number of elements kept so far and the position in the window, added up. */
  function Taken(inner: bytes, r: Reading, rs: seq<Chunk>, n: nat, accepts: bytes -> bool): (t: Reading)
    requires n <= |rs|
    ensures |r.ranges| <= |t.ranges| <= |r.ranges| + n
  {
    if n == 0 then r
    else
      var t := Taken(inner, r, rs, n - 1, accepts);
      if accepts(Piece(inner, rs[n - 1])) then Reading(t.ranges + [rs[n - 1]], t.problems)
      else Reading(t.ranges, t.problems + [Problem(rs[n - 1].start, |t.ranges| + (n - 1), BadElement)])
  }

  /** Bad separators as problems. */
  function GapProblems(off: nat, bad: seq<nat>): (problems: seq<Problem>)
    ensures |problems| == |bad| && forall k | 0 <= k < |bad| :: problems[k] == Problem(off + bad[k], -1, BadSeparator)
  {
    seq(|bad|, k requires 0 <= k < |bad| => Problem(off + bad[k], -1, BadSeparator))
  }

  /** What one window does: the loop ends, the destination is full, or it goes on. `from` is the end of the window's
      last element. */
  datatype Move = Ends | Full(problems: seq<Problem>) | GoOn(off: nat, from: nat, r: Reading)

  /** The problems with the separators of the window at `off`. */
  ghost function Separators(inner: bytes, off: nat, r: Reading, cap: nat): seq<Problem>
    requires off < |inner|
  {
    var kept := Solid(Window(inner, off, cap));
    GapProblems(off, BadGaps(inner[off..], kept, |kept|, r.ranges != []))
  }

  ghost function MoveAt(inner: bytes, off: nat, r: Reading, cap: nat, room: nat, accepts: bytes -> bool): Move
    requires off < |inner|
  {
    var cs := Window(inner, off, cap);
    var kept := Solid(cs);
    var rs := Shift(kept, off);
    var gaps := r.problems + Separators(inner, off, r, cap);
    if kept == [] then Ends
    else if |r.ranges| + |kept| > room then Full(gaps + [Problem(off, -1, NoRoom)])
    else
      GoOn(off + EndOf(cs), off + EndOf(kept), Taken(inner, Reading(r.ranges, gaps), rs, |rs|, accepts))
  }

  /** Where an element would begin that the splitter has not cut: behind whitespace, and a comma with more of it. */
  function TailStart(tail: bytes): (k: nat)
    ensures k <= |tail|
  {
    var k := SkipSpace(tail, 0);
    if k < |tail| && tail[k] == COMMA then SkipSpace(tail, k + 1) else k
  }

  /** The tail stage behind the last element of the last window, at `from`. */
  ghost function FinishAt(inner: bytes, from: nat, r: Reading, room: nat, accepts: bytes -> bool): Reading
    requires from <= |inner|
  {
    if Closes(inner, from) then r
    else Reading(Salvaged(inner, from, r.ranges, room, accepts), r.problems + [Problem(from, -1, Unterminated)])
  }

  /** One more element, if the rest of the input begins with a value and parses. */
  ghost function Salvaged(inner: bytes, from: nat, ranges: seq<Chunk>, room: nat, accepts: bytes -> bool): seq<Chunk>
    requires from <= |inner|
  {
    var tail := inner[from..];
    var k := TailStart(tail);
    if k < |tail| && |ranges| < room && SkipValue(tail, k).Ok? && accepts(tail[k..])
    then ranges + [Chunk(from + k, |inner|)] else ranges
  }

  type Advance = (nat, Reading) -> Move

  type Finish = (nat, Reading) -> Reading

  /** All windows from the one at `off` on. */
  ghost function ReadFrom(size: nat, off: nat, from: nat, r: Reading, advance: Advance, finish: Finish): Reading
    decreases if off < size then size - off else 0
  {
    if off >= size then finish(from, r)
    else
      match advance(off, r)
      case Ends => finish(from, r)
      case Full(problems) => Reading([], problems)
      case GoOn(next, end, more) =>
        if off < next then ReadFrom(size, next, end, more, advance, finish) else finish(end, more)
  }

  ghost function Advances(inner: bytes, cap: nat, room: nat, accepts: bytes -> bool): Advance {
    (off: nat, r: Reading) => if off < |inner| then MoveAt(inner, off, r, cap, room, accepts) else Ends
  }

  ghost function Finishes(inner: bytes, room: nat, accepts: bytes -> bool): Finish {
    (from: nat, r: Reading) => if from <= |inner| then FinishAt(inner, from, r, room, accepts) else r
  }

  /** What the tolerant reader makes of an input. */
  ghost function Tolerated(raw: bytes, cap: nat, room: nat, accepts: bytes -> bool): Reading {
    var none := Reading([], []);
    if raw == [] then none
    else if Inside(raw).None? then Reading([], [Problem(0, -1, NotAnArray)])
    else if room == 0 then Reading([], [Problem(0, -1, Panic)])
    else
      ReadFrom(|Inner(raw)|, 0, 0, none, Advances(Inner(raw), cap, room, accepts), Finishes(Inner(raw), room, accepts))
  }

  // ----- the loops -----

  /** Decodes one range into the next slot. */
  method StoreNext<T(!new)>(inner: bytes, c: Chunk, dst: array<T>, written: nat, decode: bytes -> T,
                            ghost ranges: seq<Chunk>)
    requires written == |ranges| < dst.Length && c.start <= c.end <= |inner| && Filled(dst[..], inner, ranges, decode)
    modifies dst
    ensures Filled(dst[..], inner, ranges + [c], decode) == true && SameFrom(dst[..], old(dst[..]), written + 1) == true
  {
    ghost var slots, next := dst[..], ranges + [c];
    dst[written] := decode(inner[c.start..c.end]);
    FilledPrefix(slots, inner, ranges, next, decode);
    FilledStep(slots, dst[..], inner, next, written, decode);
  }

  /** Parses the kept chunks; a damaged one is noted and skipped, and the next one takes its slot. */
  method ParseTolerant<T(!new)>(inner: bytes, off: nat, buf: array<Chunk>, valid: nat, dst: array<T>, written0: nat,
                                problems0: seq<Problem>, accepts: bytes -> bool, decode: bytes -> T,
                                ghost ranges: seq<Chunk>)
    returns (written: nat, problems: seq<Problem>, ghost more: seq<Chunk>)
    requires valid <= buf.Length && written0 == |ranges| && written0 + valid <= dst.Length && (buf as object) != dst
    requires off <= |inner| && Ascending(buf[..valid], |inner| - off) && Filled(dst[..], inner, ranges, decode)
    modifies dst
    ensures Reading(more, problems) ==
      Taken(inner, Reading(ranges, problems0), Shift(buf[..valid], off), valid, accepts)
    ensures written == |more|
    ensures Filled(dst[..], inner, more, decode) == true && SameFrom(dst[..], old(dst[..]), written) == true
  {
    ghost var rs, r := Shift(buf[..valid], off), Reading(ranges, problems0);
    var j: nat := 0;
    written, problems, more := written0, problems0, ranges;
    while j < valid
      invariant j <= valid && written == |more| <= written0 + j
      invariant Reading(more, problems) == Taken(inner, r, rs, j, accepts)
      invariant Filled(dst[..], inner, more, decode) == true && SameFrom(dst[..], old(dst[..]), written) == true
    {
      var absS, absE := off + buf[j].start, off + buf[j].end;
      assert Ascends(buf[..valid], j, |inner| - off) && rs[j] == Chunk(absS, absE);
      if accepts(inner[absS..absE]) {
        StoreNext(inner, Chunk(absS, absE), dst, written, decode, more);
        more := more + [rs[j]];
        written := written + 1;
      } else {
        problems := problems + [Problem(absS, written + j, BadElement)];
      }
      j := j + 1;
    }
  }

  /** One window. */
  method ReadWindow<T(!new)>(inner: bytes, off: nat, buf: array<Chunk>, dst: array<T>, written0: nat,
                             problems0: seq<Problem>, accepts: bytes -> bool, decode: bytes -> T,
                             ghost ranges: seq<Chunk>)
    returns (course: Move, written: nat, ghost more: seq<Chunk>)
    requires off < |inner| && (buf as object) != dst && written0 == |ranges| && Filled(dst[..], inner, ranges, decode)
    modifies buf, dst
    ensures MoveAt(inner, off, Reading(ranges, problems0), buf.Length, dst.Length, accepts) ==
      if course.GoOn? then course.(r := Reading(more, course.r.problems)) else course
    ensures course.Ends? ==> more == ranges && written == written0
    ensures !course.Full? ==> written == |more|
    ensures !course.Full? ==>
      Filled(dst[..], inner, more, decode) == true && SameFrom(dst[..], old(dst[..]), written) == true
  {
    written, more := written0, ranges;
    var valid, prevEnd, stepAdvance, bad := ScanKept(inner, off, buf, written > 0, true);
    if valid == 0 {
      return Ends, written, more;
    }
    var problems := problems0 + GapProblems(off, bad);
    if written + valid > dst.Length {
      return Full(problems + [Problem(off, -1, NoRoom)]), written, more;
    }
    written, problems, more := ParseTolerant(inner, off, buf, valid, dst, written, problems, accepts, decode, ranges);
    course := GoOn(off + stepAdvance, off + prevEnd, Reading([], problems));
  }

  method FindTailStart(tail: bytes) returns (k: nat)
    ensures k == TailStart(tail)
  {
    k := SkipSpaceLoop(tail, 0);
    if k < |tail| && tail[k] == COMMA {
      k := SkipSpaceLoop(tail, k + 1);
    }
  }

  /** Salvages one complete value that lost its terminator. */
  method Salvage<T(!new)>(inner: bytes, from: nat, dst: array<T>, written0: nat, accepts: bytes -> bool,
                          decode: bytes -> T, ghost ranges: seq<Chunk>)
    returns (written: nat, ghost more: seq<Chunk>)
    requires from <= |inner| && written0 == |ranges| <= dst.Length && Filled(dst[..], inner, ranges, decode)
    modifies dst
    ensures more == Salvaged(inner, from, ranges, dst.Length, accepts) && written == |more|
    ensures Filled(dst[..], inner, more, decode) == true && SameFrom(dst[..], old(dst[..]), written) == true
  {
    written, more := written0, ranges;
    var tail := inner[from..];
    var k := FindTailStart(tail);
    if k < |tail| && written < dst.Length {
      var skipped := SkipValueStrict(tail, k);
      if skipped.Ok? && accepts(tail[k..]) {
        ghost var c := Chunk(from + k, |inner|);
        assert tail[k..] == inner[c.start..c.end];
        StoreNext(inner, Chunk(from + k, |inner|), dst, written, decode, ranges);
        more := ranges + [c];
        written := written + 1;
      }
    }
  }

  /** The tail stage. */
  method CheckTail<T(!new)>(inner: bytes, from: nat, dst: array<T>, written0: nat, problems0: seq<Problem>,
                            accepts: bytes -> bool, decode: bytes -> T, ghost ranges: seq<Chunk>)
    returns (written: nat, problems: seq<Problem>, ghost more: seq<Chunk>)
    requires from <= |inner| && written0 == |ranges| <= dst.Length && Filled(dst[..], inner, ranges, decode)
    modifies dst
    ensures Reading(more, problems) == FinishAt(inner, from, Reading(ranges, problems0), dst.Length, accepts)
    ensures written == |more|
    ensures Filled(dst[..], inner, more, decode) == true && SameFrom(dst[..], old(dst[..]), written) == true
  {
    var closed := ArrayTailClosed(inner, from);
    if closed {
      return written0, problems0, ranges;
    }
    written, more := Salvage(inner, from, dst, written0, accepts, decode, ranges);
    problems := problems0 + [Problem(from, -1, Unterminated)];
  }

  /** The functions are the decisions of every window and of the tail stage. */
  ghost predicate DecideMoves(advance: Advance, finish: Finish, inner: bytes, cap: nat, room: nat,
                              accepts: bytes -> bool) {
    && (forall off: nat, r: Reading {:trigger MoveAt(inner, off, r, cap, room, accepts)} ::
          off < |inner| ==> advance(off, r) == MoveAt(inner, off, r, cap, room, accepts))
    && (forall from: nat, r: Reading {:trigger FinishAt(inner, from, r, room, accepts)} ::
          from <= |inner| ==> finish(from, r) == FinishAt(inner, from, r, room, accepts))
  }

  lemma {:induction false} MovesDecide(inner: bytes, cap: nat, room: nat, accepts: bytes -> bool)
    ensures DecideMoves(Advances(inner, cap, room, accepts), Finishes(inner, room, accepts), inner, cap, room, accepts)
  {
  }

  /** A window that goes on stays inside the input and the destination. */
  lemma {:induction false} MoveInside(inner: bytes, off: nat, r: Reading, cap: nat, room: nat, accepts: bytes -> bool)
    requires off < |inner| && MoveAt(inner, off, r, cap, room, accepts).GoOn?
    ensures var m := MoveAt(inner, off, r, cap, room, accepts);
      off < m.off <= |inner| && m.from <= m.off && |r.ranges| <= |m.r.ranges| <= room
  {
    KeptEnds(inner, off, cap);
  }

  /** What is kept of increasing ranges behind others is increasing. */
  lemma {:induction false} TakenAscend(inner: bytes, r: Reading, kept: seq<Chunk>, off: nat, n: nat,
                                       accepts: bytes -> bool)
    requires n <= |kept| && off <= |inner| && Ascending(kept, |inner| - off) && Ascending(r.ranges, off)
    ensures var limit := off + if n == 0 then 0 else kept[n - 1].end;
      Ascending(Taken(inner, r, Shift(kept, off), n, accepts).ranges, limit)
  {
    if n > 0 {
      TakenAscend(inner, r, kept, off, n - 1, accepts);
      assert Ascends(kept, n - 1, |inner| - off);
      var t, c := Taken(inner, r, Shift(kept, off), n - 1, accepts), Moved(kept[n - 1], off);
      var limit := off + if n == 1 then 0 else kept[n - 2].end;
      AscendingSnoc(t.ranges, c, limit, c.end);
      AscendingWider(t.ranges, limit, c.end);
    }
  }

  lemma {:induction false} FinishAscends(inner: bytes, from: nat, r: Reading, room: nat, accepts: bytes -> bool)
    requires from <= |inner| && Ascending(r.ranges, from)
    ensures Ascending(FinishAt(inner, from, r, room, accepts).ranges, |inner|)
  {
    var k := TailStart(inner[from..]);
    AscendingWider(r.ranges, from, |inner|);
    if from + k < |inner| {
      AscendingSnoc(r.ranges, Chunk(from + k, |inner|), from, |inner|);
    }
  }

  /** Whatever the input, the ranges that are kept are increasing and disjoint. */
  lemma {:induction false} KeptAscend(inner: bytes, off: nat, from: nat, r: Reading, cap: nat, room: nat,
                                      accepts: bytes -> bool)
    requires from <= off <= |inner| && Ascending(r.ranges, from)
    ensures var advance, finish := Advances(inner, cap, room, accepts), Finishes(inner, room, accepts);
      Ascending(ReadFrom(|inner|, off, from, r, advance, finish).ranges, |inner|)
    decreases |inner| - off
  {
    var advance, finish := Advances(inner, cap, room, accepts), Finishes(inner, room, accepts);
    assert finish(from, r) == FinishAt(inner, from, r, room, accepts);
    FinishAscends(inner, from, r, room, accepts);
    if off < |inner| {
      var m := MoveAt(inner, off, r, cap, room, accepts);
      assert advance(off, r) == m;
      if m.GoOn? {
        var kept := Solid(Window(inner, off, cap));
        MoveInside(inner, off, r, cap, room, accepts);
        WindowAscends(inner, off, cap);
        AscendingWider(r.ranges, from, off);
        TakenAscend(inner, Reading(r.ranges, r.problems + Separators(inner, off, r, cap)), kept, off, |kept|, accepts);
        KeptAscend(inner, m.off, m.from, m.r, cap, room, accepts);
      }
    }
  }

  /** The window loop and the tail stage. */
  method ReadHealthy<T(!new)>(inner: bytes, buf: array<Chunk>, dst: array<T>, accepts: bytes -> bool,
                              decode: bytes -> T, ghost advance: Advance, ghost finish: Finish, ghost goal: Reading)
    returns (written: nat, problems: seq<Problem>, ghost ranges: seq<Chunk>)
    requires (buf as object) != dst && DecideMoves(advance, finish, inner, buf.Length, dst.Length, accepts)
    requires goal == ReadFrom(|inner|, 0, 0, Reading([], []), advance, finish)
    modifies buf, dst
    ensures Reading(ranges, problems) == goal && written == |ranges| && Filled(dst[..], inner, ranges, decode) == true
    ensures problems == [] ==> SameFrom(dst[..], old(dst[..]), written) == true
  {
    var off: nat, from: nat := 0, 0;
    written, problems, ranges := 0, [], [];
    while off < |inner|
      invariant from <= off <= |inner| && written == |ranges| <= dst.Length
      invariant Filled(dst[..], inner, ranges, decode) == true && SameFrom(dst[..], old(dst[..]), written) == true
      invariant goal == ReadFrom(|inner|, off, from, Reading(ranges, problems), advance, finish)
      decreases |inner| - off
    {
      ghost var r := Reading(ranges, problems);
      var course;
      course, written, ranges := ReadWindow(inner, off, buf, dst, written, problems, accepts, decode, ranges);
      match course {
        case Full(all) => return 0, all, [];
        case Ends => break;
        case GoOn(next, end, now) =>
          MoveInside(inner, off, r, buf.Length, dst.Length, accepts);
          problems, from, off := now.problems, end, next;
      }
    }
    ghost var r := Reading(ranges, problems);
    assert goal == finish(from, r);
    written, problems, ranges := CheckTail(inner, from, dst, written, problems, accepts, decode, ranges);
  }

  /** The tolerant reader keeps and reports exactly what the window-by-window specification says, and slot `k` holds
      what range `k` decodes to. */
  method UnmarshalSliceTolerant<T(!new)>(raw: bytes, dst: array<T>, capacity: nat, accepts: bytes -> bool,
                                         decode: bytes -> T)
    returns (written: nat, problems: seq<Problem>, ghost ranges: seq<Chunk>)
    modifies dst
    ensures Reading(ranges, problems) == Tolerated(raw, capacity, dst.Length, accepts)
    ensures written == |ranges| && Filled(dst[..], Inner(raw), ranges, decode) == true
    ensures Ascending(ranges, |Inner(raw)|)
    ensures problems == [] ==> SameFrom(dst[..], old(dst[..]), written) == true
  {
    written, problems, ranges := 0, [], [];
    if |raw| == 0 {
      return;
    }
    var buf := new Chunk[capacity];
    var startIdx := SkipSpaceLoop(raw, 0);
    if startIdx >= |raw| || raw[startIdx] != LBRACKET {
      problems := [Problem(0, -1, NotAnArray)];
      return;
    }
    if dst.Length == 0 {
      problems := [Problem(0, -1, Panic)];
      return;
    }
    ghost var inner := Inner(raw);
    MovesDecide(inner, capacity, dst.Length, accepts);
    ghost var advance, finish := Advances(inner, capacity, dst.Length, accepts), Finishes(inner, dst.Length, accepts);
    ghost var goal := Tolerated(raw, capacity, dst.Length, accepts);
    KeptAscend(inner, 0, 0, Reading([], []), capacity, dst.Length, accepts);
    written, problems, ranges := ReadHealthy(raw[startIdx + 1..], buf, dst, accepts, decode, advance, finish, goal);
  }
}
