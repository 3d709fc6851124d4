/** The tolerant reader on well-formed arrays some of whose elements do not parse: what it keeps and everything it
    reports, and exactly when a report is wrong. */
module TolerantArrays {
  import opened Bytes
  import opened Grammar
  import opened Splitter
  import opened ArrayElements
  import opened Windows
  import opened Slices
  import opened WellFormedArrays
  import opened TolerantSlices

  // ----- what is reported -----

  /** The element with which the window of element `k` begins. The first window holds `cap` elements; each later one
      holds one less, because one entry is taken by the comma in front of it. */
  function WindowStart(k: nat, cap: nat): (b: nat)
    requires cap > 1
    ensures b <= k && (b > 0 ==> cap <= b)
  {
    if k == 0 then 0
    else
      var b := WindowStart(k - 1, cap);
      if k - b == Room(b, cap) then k else b
  }

  /** How many elements the window that begins with element `b` has room for. */
  function Room(b: nat, cap: nat): nat
    requires cap > 1
  {
    if b == 0 then cap else cap - 1
  }

  /** `b` is the first element of a window. */
  predicate Begins(b: nat, cap: nat)
    requires cap > 1
  {
    WindowStart(b, cap) == b
  }

  /** In front of element `k`, once its window has been entered. A later window whose comma stands behind nothing that
      was kept has the comma reported. */
  function Entered(r: Reading, all: seq<Chunk>, k: nat, cap: nat): Reading
    requires k < |all| && cap > 1
  {
    if k > 0 && Begins(k, cap) && r.ranges == []
    then Reading([], r.problems + [Problem(all[k].start, -1, BadSeparator)]) else r
  }

  /** What has been kept and reported after the first `n` elements. An element that does not parse is reported with the
      number of elements kept and its position in its window, added up. */
  function After(inner: bytes, all: seq<Chunk>, n: nat, cap: nat, accepts: bytes -> bool): Reading
    requires n <= |all| && cap > 1
  {
    if n == 0 then Reading([], [])
    else
      var k := n - 1;
      var r := Entered(After(inner, all, k, cap, accepts), all, k, cap);
      if accepts(Piece(inner, all[k])) then Reading(r.ranges + [all[k]], r.problems)
      else Reading(r.ranges, r.problems + [Problem(all[k].start, |r.ranges| + (k - WindowStart(k, cap)), BadElement)])
  }

  lemma {:induction false} WindowStarts(b: nat, n: nat, cap: nat)
    requires cap > 1 && Begins(b, cap) && n <= Room(b, cap)
    ensures WindowStart(b + n, cap) == if n == Room(b, cap) then b + n else b
  {
    if n > 0 {
      WindowStarts(b, n - 1, cap);
    }
  }

  // ----- one window -----

  /** Elements `b` up to `b + n` are the ranges `rs` of one window. */
  lemma {:induction false} WindowTaken(inner: bytes, all: seq<Chunk>, rs: seq<Chunk>, b: nat, n: nat, cap: nat,
                                       accepts: bytes -> bool)
    requires cap > 1 && Begins(b, cap) && 0 < n <= |rs| <= Room(b, cap) && b + |rs| <= |all| && rs == all[b..b + |rs|]
    ensures Taken(inner, Entered(After(inner, all, b, cap, accepts), all, b, cap), rs, n, accepts) ==
            After(inner, all, b + n, cap, accepts)
  {
    assert rs[n - 1] == all[b + n - 1];
    WindowStarts(b, n - 1, cap);
    if n > 1 {
      WindowTaken(inner, all, rs, b, n - 1, cap, accepts);
    }
  }

  /** A comma where none is expected is the only bad gap of a window with good ones. */
  lemma {:induction false} OneBadGap(w: bytes, kept: seq<Chunk>, n: nat)
    requires 1 <= n <= |kept| && GapsOk(w, kept, true)
    ensures BadGaps(w, kept, n, false) == [kept[0].start]
  {
    if n == 1 {
      assert GapOk(w, kept, 0, true);
      var gap := w[0..kept[0].start];
      var j: nat :| CommaAt(gap, j);
      assert !IsSpace(gap[j]);
      assert BadGaps(w, kept, 0, false) == [];
    } else {
      OneBadGap(w, kept, n - 1);
      assert GapOk(w, kept, n - 1, true);
    }
  }

  /** Only a comma behind nothing that was kept is reported. */
  lemma {:induction false} SeparatorsOf(inner: bytes, off: nat, r: Reading, cap: nat, first: bool)
    requires off < |inner| && Solid(Window(inner, off, cap)) != [] && (first ==> r.ranges == [])
    requires GapsOk(inner[off..], Solid(Window(inner, off, cap)), !first)
    ensures Separators(inner, off, r, cap) ==
      if first || r.ranges != [] then [] else [Problem(off + Solid(Window(inner, off, cap))[0].start, -1, BadSeparator)]
  {
    var w, kept := inner[off..], Solid(Window(inner, off, cap));
    if first || r.ranges != [] {
      NoBadGaps(w, kept, |kept|, r.ranges != []);
    } else {
      OneBadGap(w, kept, |kept|);
    }
  }

  lemma {:induction false} EntersSo(r: Reading, all: seq<Chunk>, b: nat, cap: nat, commas: seq<Problem>)
    requires b < |all| && cap > 1 && Begins(b, cap) && (b == 0 ==> r.ranges == [])
    requires commas == if b == 0 || r.ranges != [] then [] else [Problem(all[b].start, -1, BadSeparator)]
    ensures Entered(r, all, b, cap) == Reading(r.ranges, r.problems + commas)
  {
  }

  /** The elements from `b` on are these. */
  ghost predicate RestIs(all: seq<Chunk>, b: nat, rest: seq<Chunk>) {
    b + |rest| == |all| && forall k | 0 <= k < |rest| :: all[b + k] == rest[k]
  }

  /** The window at `off` holds the elements from `b` up to `b + n`. */
  ghost predicate HoldsFrom(inner: bytes, off: nat, cap: nat, all: seq<Chunk>, b: nat, n: nat)
    requires off < |inner|
  {
    var cs := Window(inner, off, cap);
    && 0 < n && b + n <= |all| && Shift(Solid(cs), off) == all[b..b + n] && GapsOk(inner[off..], Solid(cs), b > 0)
    && off + EndOf(cs) == all[b + n - 1].end
  }

  lemma {:induction false} HeldRanges(inner: bytes, off: nat, cap: nat, rest: seq<Chunk>, all: seq<Chunk>, b: nat,
                                      n: nat)
    requires off < |inner| && RestIs(all, b, rest) && Holds(inner, off, cap, b > 0, rest, n)
    ensures HoldsFrom(inner, off, cap, all, b, n)
  {
    assert rest[..n] == all[b..b + n];
  }

  lemma {:induction false} HeldEnds(inner: bytes, off: nat, cap: nat, all: seq<Chunk>, b: nat, n: nat)
    requires off < |inner| && HoldsFrom(inner, off, cap, all, b, n)
    ensures var kept := Solid(Window(inner, off, cap));
      |kept| == n && off + kept[0].start == all[b].start && off + EndOf(kept) == all[b + n - 1].end
  {
    var rs := Shift(Solid(Window(inner, off, cap)), off);
    assert |rs| == n && rs[0] == all[b] && rs[n - 1] == all[b + n - 1];
  }

  lemma {:induction false} MoveParts(inner: bytes, off: nat, r: Reading, cap: nat, room: nat, accepts: bytes -> bool,
                                     rs: seq<Chunk>, end: nat, entered: Reading)
    requires off < |inner| && rs == Shift(Solid(Window(inner, off, cap)), off) != [] && |r.ranges| + |rs| <= room
    requires off + EndOf(Window(inner, off, cap)) == off + EndOf(Solid(Window(inner, off, cap))) == end
    requires entered == Reading(r.ranges, r.problems + Separators(inner, off, r, cap))
    ensures MoveAt(inner, off, r, cap, room, accepts) == GoOn(end, end, Taken(inner, entered, rs, |rs|, accepts))
  {
  }

  lemma {:induction false} KeptAtMost(inner: bytes, all: seq<Chunk>, n: nat, cap: nat, accepts: bytes -> bool)
    requires n <= |all| && cap > 1
    ensures |After(inner, all, n, cap, accepts).ranges| <= n
  {
    if n > 0 {
      KeptAtMost(inner, all, n - 1, cap, accepts);
    }
  }

  /** The window that begins with element `b` and holds `n` elements. */
  lemma {:induction false} WindowMoves(inner: bytes, off: nat, all: seq<Chunk>, b: nat, n: nat, cap: nat, room: nat,
                                       accepts: bytes -> bool)
    requires off < |inner| && b < |all| && HoldsFrom(inner, off, cap, all, b, n)
    requires cap > 1 && Begins(b, cap) && n <= Room(b, cap)
    requires |After(inner, all, b, cap, accepts).ranges| + n <= room
    ensures MoveAt(inner, off, After(inner, all, b, cap, accepts), cap, room, accepts) ==
            GoOn(all[b + n - 1].end, all[b + n - 1].end, After(inner, all, b + n, cap, accepts))
  {
    var r, rs := After(inner, all, b, cap, accepts), all[b..b + n];
    HeldEnds(inner, off, cap, all, b, n);
    SeparatorsOf(inner, off, r, cap, b == 0);
    EntersSo(r, all, b, cap, Separators(inner, off, r, cap));
    MoveParts(inner, off, r, cap, room, accepts, rs, all[b + n - 1].end, Entered(r, all, b, cap));
    WindowTaken(inner, all, rs, b, n, cap, accepts);
  }

  // ----- all windows -----

  lemma {:induction false} ReadGoes(size: nat, off: nat, from: nat, r: Reading, m: Move, advance: Advance,
                                    finish: Finish)
    requires off < size && advance(off, r) == m && m.GoOn? && off < m.off
    ensures ReadFrom(size, off, from, r, advance, finish) == ReadFrom(size, m.off, m.from, m.r, advance, finish)
  {
  }

  lemma {:induction false} ReadEnds(size: nat, off: nat, from: nat, r: Reading, advance: Advance, finish: Finish)
    requires off < size && advance(off, r) == Ends
    ensures ReadFrom(size, off, from, r, advance, finish) == finish(from, r)
  {
  }

  /** The loop goes on behind the window that begins with element `b`. */
  lemma {:induction false} StepTolerant(inner: bytes, off: nat, from: nat, all: seq<Chunk>, b: nat, n: nat, cap: nat,
                                        room: nat, accepts: bytes -> bool, advance: Advance, finish: Finish)
    requires off < |inner| && b < |all| && HoldsFrom(inner, off, cap, all, b, n)
    requires cap > 1 && Begins(b, cap) && n <= Room(b, cap)
    requires |After(inner, all, b, cap, accepts).ranges| + n <= room
    requires DecideMoves(advance, finish, inner, cap, room, accepts)
    ensures var end := all[b + n - 1].end;
      ReadFrom(|inner|, off, from, After(inner, all, b, cap, accepts), advance, finish) ==
      ReadFrom(|inner|, end, end, After(inner, all, b + n, cap, accepts), advance, finish)
  {
    var r := After(inner, all, b, cap, accepts);
    WindowMoves(inner, off, all, b, n, cap, room, accepts);
    MoveInside(inner, off, r, cap, room, accepts);
    ReadGoes(|inner|, off, from, r, MoveAt(inner, off, r, cap, room, accepts), advance, finish);
  }

  /** The loop ends at the closing bracket. */
  lemma {:induction false} StopTolerant(inner: bytes, off: nat, r: Reading, cap: nat, room: nat, accepts: bytes -> bool,
                                        advance: Advance, finish: Finish)
    requires off < |inner| && Solid(Window(inner, off, cap)) == [] && Closes(inner, off)
    requires DecideMoves(advance, finish, inner, cap, room, accepts)
    ensures ReadFrom(|inner|, off, off, r, advance, finish) == r
  {
    assert advance(off, r) == MoveAt(inner, off, r, cap, room, accepts) == Ends;
    assert finish(off, r) == FinishAt(inner, off, r, room, accepts) == r;
    ReadEnds(|inner|, off, off, r, advance, finish);
  }

  lemma {:induction false} DropHeld(inner: bytes, i: nat, it: Items, start: nat, end: nat, all: seq<Chunk>, b: nat,
                                    n: nat)
    returns (off: nat, before: bytes, rest: Items)
    requires IsItems(Array, it) && ItemsAt(inner, i, it) && i + ItemsLen(it) == end
    requires Is(inner, end, RBRACKET) && AllSpace(inner[end + 1..])
    requires b < b + n <= |all| && RestIs(all, b, Elements(it, i, start))
    ensures off == all[b + n - 1].end && StandsAt(inner, off, before, rest, end)
    ensures RestIs(all, b + n, Remaining(off, before, rest))
  {
    off, before, rest := DropElements(inner, i, it, start, n, end);
    var left, more := Elements(it, i, start), Remaining(off, before, rest);
    assert all[b + n - 1] == left[n - 1];
    forall k | 0 <= k < |more| ensures all[b + n + k] == more[k] {
      assert more[k] == left[n..][k] == left[n + k];
    }
  }

  /** From the window that begins with element `b`, behind the first one. */
  lemma {:induction false} ResumeTolerant(inner: bytes, off: nat, before: bytes, it: Items, end: nat, all: seq<Chunk>,
                                          b: nat, cap: nat, room: nat, accepts: bytes -> bool, advance: Advance,
                                          finish: Finish)
    requires StandsAt(inner, off, before, it, end) && off < |inner| && cap > 1
    requires 0 < b <= |all| <= room && RestIs(all, b, Remaining(off, before, it)) && (it.More? ==> Begins(b, cap))
    requires DecideMoves(advance, finish, inner, cap, room, accepts)
    ensures ReadFrom(|inner|, off, off, After(inner, all, b, cap, accepts), advance, finish) ==
            After(inner, all, |all|, cap, accepts)
    decreases |all| - b
  {
    if it.End? {
      LastStop(inner, off, before, it, end, all, b, cap);
      StopTolerant(inner, off, After(inner, all, b, cap, accepts), cap, room, accepts, advance, finish);
    } else {
      var n := Min(cap - 1, Count(it));
      var next, ws, rest :=
        NextTolerant(inner, off, before, it, end, all, b, n, cap, room, accepts, advance, finish);
      ResumeTolerant(inner, next, ws, rest, end, all, b + n, cap, room, accepts, advance, finish);
    }
  }

  /** Through the first window. */
  lemma {:induction false} FirstTolerant(inner: bytes, p: nat, it: Items, all: seq<Chunk>, n: nat, cap: nat, room: nat,
                                         accepts: bytes -> bool, advance: Advance, finish: Finish)
    returns (next: nat, ws: bytes, rest: Items)
    requires ArrayBody(inner, p, it) && AllSpace(inner[p + ItemsLen(it) + 1..]) && cap > 1 && it.More?
    requires all == Elements(it, p, p) && n == Min(cap, Count(it)) && |all| <= room
    requires DecideMoves(advance, finish, inner, cap, room, accepts)
    ensures 0 < n <= |all| && next < |inner| && StandsAt(inner, next, ws, rest, p + ItemsLen(it)) == true
    ensures RestIs(all, n, Remaining(next, ws, rest)) == true && (rest.More? ==> Begins(n, cap))
    ensures ReadFrom(|inner|, 0, 0, After(inner, all, 0, cap, accepts), advance, finish) ==
            ReadFrom(|inner|, next, next, After(inner, all, n, cap, accepts), advance, finish)
  {
    next, ws, rest := FirstHolds(inner, p, it, all, n, cap);
    KeptAtMost(inner, all, 0, cap, accepts);
    StepTolerant(inner, 0, 0, all, 0, n, cap, room, accepts, advance, finish);
    WindowStarts(0, n, cap);
  }

  /** Through one resumed window. */
  lemma {:induction false} NextTolerant(inner: bytes, off: nat, before: bytes, it: Items, end: nat, all: seq<Chunk>,
                                        b: nat, n: nat, cap: nat, room: nat, accepts: bytes -> bool, advance: Advance,
                                        finish: Finish)
    returns (next: nat, ws: bytes, rest: Items)
    requires StandsAt(inner, off, before, it, end) && off < |inner| && cap > 1 && it.More? && Begins(b, cap)
    requires 0 < b <= |all| <= room && RestIs(all, b, Remaining(off, before, it)) && n == Min(cap - 1, Count(it))
    requires DecideMoves(advance, finish, inner, cap, room, accepts)
    ensures 0 < n && b + n <= |all| && next < |inner| && StandsAt(inner, next, ws, rest, end) == true
    ensures RestIs(all, b + n, Remaining(next, ws, rest)) == true && (rest.More? ==> Begins(b + n, cap))
    ensures ReadFrom(|inner|, off, off, After(inner, all, b, cap, accepts), advance, finish) ==
            ReadFrom(|inner|, next, next, After(inner, all, b + n, cap, accepts), advance, finish)
  {
    next, ws, rest := ResumedHolds(inner, off, before, it, end, all, b, n, cap);
    KeptAtMost(inner, all, b, cap, accepts);
    StepTolerant(inner, off, off, all, b, n, cap, room, accepts, advance, finish);
    WindowStarts(b, n, cap);
  }

  lemma {:induction false} LastStop(inner: bytes, off: nat, before: bytes, it: Items, end: nat, all: seq<Chunk>, b: nat,
                                    cap: nat)
    requires StandsAt(inner, off, before, it, end) && off < |inner| && it.End? && cap > 1
    requires b <= |all| && RestIs(all, b, Remaining(off, before, it))
    ensures b == |all| && Solid(Window(inner, off, cap)) == [] && Closes(inner, off)
  {
    LastWindow(inner, off, cap);
  }

  lemma {:induction false} FirstHolds(inner: bytes, p: nat, it: Items, all: seq<Chunk>, n: nat, cap: nat)
    returns (next: nat, ws: bytes, rest: Items)
    requires ArrayBody(inner, p, it) && AllSpace(inner[p + ItemsLen(it) + 1..]) && cap > 1 && it.More?
    requires all == Elements(it, p, p) && n == Min(cap, Count(it))
    ensures 0 < |inner| && 0 < n <= |all| && HoldsFrom(inner, 0, cap, all, 0, n) == true
    ensures next == all[n - 1].end && StandsAt(inner, next, ws, rest, p + ItemsLen(it)) == true
    ensures next < |inner| && RestIs(all, n, Remaining(next, ws, rest)) == true
    ensures rest.More? ==> n == cap
  {
    AtLeastOne(it);
    FirstWindow(inner, p, it, cap);
    HeldRanges(inner, 0, cap, all, all, 0, n);
    next, ws, rest := DropHeld(inner, p, it, p, p + ItemsLen(it), all, 0, n);
  }

  lemma {:induction false} ResumedHolds(inner: bytes, off: nat, before: bytes, it: Items, end: nat, all: seq<Chunk>,
                                        b: nat, n: nat, cap: nat)
    returns (next: nat, ws: bytes, rest: Items)
    requires StandsAt(inner, off, before, it, end) && off < |inner| && cap > 1 && it.More?
    requires 0 < b <= |all| && RestIs(all, b, Remaining(off, before, it)) && n == Min(cap - 1, Count(it))
    ensures b + n <= |all| && n > 0 && HoldsFrom(inner, off, cap, all, b, n) == true
    ensures next == all[b + n - 1].end && StandsAt(inner, next, ws, rest, end) == true
    ensures next < |inner| && RestIs(all, b + n, Remaining(next, ws, rest)) == true
    ensures rest.More? ==> n == cap - 1
  {
    AtLeastOne(it);
    ResumedWindow(inner, off, before, it, end, cap);
    HeldRanges(inner, off, cap, Remaining(off, before, it), all, b, n);
    next, ws, rest := DropHeld(inner, off + 1 + |before|, it, off + 1, end, all, b, n);
  }

  /** On every well-formed array that fits the destination, for every chunk buffer of at least two entries, the tolerant
      reader keeps exactly the elements that parse, in order, and makes exactly these reports. */
  lemma {:induction false} WellFormedTolerated(raw: bytes, p: nat, it: Items, cap: nat, room: nat,
                                               accepts: bytes -> bool)
    requires Readable(raw, p, it, cap, room)
    ensures var all := Elements(it, p, p);
      Tolerated(raw, cap, room, accepts) == After(Inner(raw), all, |all|, cap, accepts)
  {
    MovesDecide(Inner(raw), cap, room, accepts);
    ReadsWellFormed(Inner(raw), p, it, cap, room, accepts, Advances(Inner(raw), cap, room, accepts),
                    Finishes(Inner(raw), room, accepts));
  }

  lemma {:induction false} ReadsWellFormed(inner: bytes, p: nat, it: Items, cap: nat, room: nat, accepts: bytes -> bool,
                                           advance: Advance, finish: Finish)
    requires ArrayBody(inner, p, it) && AllSpace(inner[p + ItemsLen(it) + 1..]) && cap > 1 && room >= Count(it)
    requires DecideMoves(advance, finish, inner, cap, room, accepts)
    ensures var all := Elements(it, p, p);
      ReadFrom(|inner|, 0, 0, After(inner, all, 0, cap, accepts), advance, finish) ==
      After(inner, all, |all|, cap, accepts)
  {
    var all, end := Elements(it, p, p), p + ItemsLen(it);
    if it.End? {
      EmptyArray(inner, p, cap);
      StopTolerant(inner, 0, After(inner, all, 0, cap, accepts), cap, room, accepts, advance, finish);
    } else {
      var n := Min(cap, Count(it));
      var next, before, rest := FirstTolerant(inner, p, it, all, n, cap, room, accepts, advance, finish);
      ResumeTolerant(inner, next, before, rest, end, all, n, cap, room, accepts, advance, finish);
    }
  }

  // ----- what is kept, and which reports are right -----

  /** Those of the first `n` elements that parse. */
  function Survivors(inner: bytes, all: seq<Chunk>, n: nat, accepts: bytes -> bool): (kept: seq<Chunk>)
    requires n <= |all|
  {
    if n == 0 then []
    else
      var kept := Survivors(inner, all, n - 1, accepts);
      if accepts(Piece(inner, all[n - 1])) then kept + [all[n - 1]] else kept
  }

  /** The numbers of those that do not. */
  function Rejects(inner: bytes, all: seq<Chunk>, n: nat, accepts: bytes -> bool): (numbers: seq<nat>)
    requires n <= |all|
    ensures forall m | 0 <= m < |numbers| :: numbers[m] < n && !accepts(Piece(inner, all[numbers[m]]))
  {
    if n == 0 then []
    else
      var numbers := Rejects(inner, all, n - 1, accepts);
      if accepts(Piece(inner, all[n - 1])) then numbers else numbers + [n - 1]
  }

  /** The problems that are about elements. */
  function AboutElements(problems: seq<Problem>): (about: seq<Problem>) {
    if problems == [] then []
    else
      var last := problems[|problems| - 1];
      var about := AboutElements(problems[..|problems| - 1]);
      if last.error == BadElement then about + [last] else about
  }

  /** The report that the reader makes on element `k`. */
  function ReportOn(inner: bytes, all: seq<Chunk>, k: nat, cap: nat, accepts: bytes -> bool): Problem
    requires k < |all| && cap > 1
  {
    Problem(all[k].start, |Survivors(inner, all, k, accepts)| + (k - WindowStart(k, cap)), BadElement)
  }

  /** One report for each rejected element, in order. */
  ghost predicate ReportsMatch(inner: bytes, all: seq<Chunk>, numbers: seq<nat>, about: seq<Problem>, cap: nat,
                               accepts: bytes -> bool)
    requires cap > 1
  {
    && |about| == |numbers|
    && forall m | 0 <= m < |about| :: numbers[m] < |all| && about[m] == ReportOn(inner, all, numbers[m], cap, accepts)
  }

  lemma {:induction false} AboutSnoc(problems: seq<Problem>, p: Problem)
    ensures AboutElements(problems + [p]) ==
      if p.error == BadElement then AboutElements(problems) + [p] else AboutElements(problems)
  {
    assert (problems + [p])[..|problems|] == problems;
  }

  lemma {:induction false} AfterKeeps(inner: bytes, all: seq<Chunk>, n: nat, cap: nat, accepts: bytes -> bool)
    requires n <= |all| && cap > 1
    ensures After(inner, all, n, cap, accepts).ranges == Survivors(inner, all, n, accepts)
  {
    if n > 0 {
      AfterKeeps(inner, all, n - 1, cap, accepts);
    }
  }

  lemma {:induction false} EnteredAbout(r: Reading, all: seq<Chunk>, k: nat, cap: nat)
    requires k < |all| && cap > 1
    ensures AboutElements(Entered(r, all, k, cap).problems) == AboutElements(r.problems)
    ensures Entered(r, all, k, cap).ranges == r.ranges
  {
    AboutSnoc(r.problems, Problem(all[k].start, -1, BadSeparator));
  }

  /** One more element, in one step. */
  lemma {:induction false} AfterStep(inner: bytes, all: seq<Chunk>, k: nat, cap: nat, accepts: bytes -> bool)
    requires k < |all| && cap > 1
    ensures var about := AboutElements(After(inner, all, k, cap, accepts).problems);
      AboutElements(After(inner, all, k + 1, cap, accepts).problems) ==
      if accepts(Piece(inner, all[k])) then about else about + [ReportOn(inner, all, k, cap, accepts)]
  {
    var r := After(inner, all, k, cap, accepts);
    AfterKeeps(inner, all, k, cap, accepts);
    EnteredAbout(r, all, k, cap);
    AboutSnoc(Entered(r, all, k, cap).problems, ReportOn(inner, all, k, cap, accepts));
  }

  lemma {:induction false} MatchSnoc(inner: bytes, all: seq<Chunk>, numbers: seq<nat>, about: seq<Problem>, k: nat,
                                     cap: nat, accepts: bytes -> bool)
    requires k < |all| && cap > 1 && ReportsMatch(inner, all, numbers, about, cap, accepts)
    ensures ReportsMatch(inner, all, numbers + [k], about + [ReportOn(inner, all, k, cap, accepts)], cap, accepts)
  {
  }

  lemma {:induction false} RejectsStep(inner: bytes, all: seq<Chunk>, k: nat, accepts: bytes -> bool)
    requires k < |all|
    ensures Rejects(inner, all, k + 1, accepts) ==
      if accepts(Piece(inner, all[k])) then Rejects(inner, all, k, accepts) else Rejects(inner, all, k, accepts) + [k]
  {
  }

  /** Each rejected element among the first `n` is reported once, in order. */
  lemma {:induction false} AfterReports(inner: bytes, all: seq<Chunk>, n: nat, cap: nat, accepts: bytes -> bool,
                                        numbers: seq<nat>, about: seq<Problem>)
    requires n <= |all| && cap > 1 && numbers == Rejects(inner, all, n, accepts)
    requires about == AboutElements(After(inner, all, n, cap, accepts).problems)
    ensures ReportsMatch(inner, all, numbers, about, cap, accepts)
  {
    if n > 0 {
      var k := n - 1;
      var numbers0 := Rejects(inner, all, k, accepts);
      var about0 := AboutElements(After(inner, all, k, cap, accepts).problems);
      AfterReports(inner, all, k, cap, accepts, numbers0, about0);
      AfterStep(inner, all, k, cap, accepts);
      RejectsStep(inner, all, k, accepts);
      MatchSnoc(inner, all, numbers0, about0, k, cap, accepts);
    }
  }

  // ----- the comma that is blamed -----

  ghost predicate BlamesComma(problems: seq<Problem>) {
    exists m :: 0 <= m < |problems| && problems[m].error == BadSeparator
  }

  lemma {:induction false} BlameSnoc(problems: seq<Problem>, p: Problem)
    ensures BlamesComma(problems + [p]) <==> BlamesComma(problems) || p.error == BadSeparator
  {
    var all := problems + [p];
    if BlamesComma(problems) {
      var m :| 0 <= m < |problems| && problems[m].error == BadSeparator;
      assert all[m].error == BadSeparator;
    }
    assert all[|problems|] == p;
  }

  lemma {:induction false} SurvivorsGrow(inner: bytes, all: seq<Chunk>, n: nat, m: nat, accepts: bytes -> bool)
    requires n <= m <= |all|
    ensures Survivors(inner, all, m, accepts) == [] ==> Survivors(inner, all, n, accepts) == []
  {
    if n < m {
      SurvivorsGrow(inner, all, n, m - 1, accepts);
    }
  }

  /** A comma is blamed as soon as the second window is entered and the first one kept nothing. */
  lemma {:induction false} BlamedIff(inner: bytes, all: seq<Chunk>, n: nat, cap: nat, accepts: bytes -> bool)
    requires n <= |all| && cap > 1
    ensures BlamesComma(After(inner, all, n, cap, accepts).problems) <==>
            n > cap && Survivors(inner, all, cap, accepts) == []
  {
    if n > 0 {
      var k := n - 1;
      var r := After(inner, all, k, cap, accepts);
      BlamedIff(inner, all, k, cap, accepts);
      AfterKeeps(inner, all, k, cap, accepts);
      BlameSnoc(r.problems, Problem(all[k].start, -1, BadSeparator));
      BlameSnoc(Entered(r, all, k, cap).problems, ReportOn(inner, all, k, cap, accepts));
      if k == cap {
        WindowStarts(0, cap, cap);
      } else if k > cap {
        SurvivorsGrow(inner, all, cap, k, accepts);
      }
    }
  }

  // ----- the reader -----

  /** The inside of a well-formed array that nothing but whitespace follows, the chunk buffer and the destination large
      enough. */
  ghost predicate Readable(raw: bytes, p: nat, it: Items, cap: nat, room: nat) {
    && Inside(raw).Some? && ArrayBody(Inner(raw), p, it) && AllSpace(Inner(raw)[p + ItemsLen(it) + 1..])
    && cap > 1 && room > 0 && room >= Count(it)
  }

  /** The elements that parse are kept, in order, and no others; each of the others is reported once, in order, with the
      position at which it starts. */
  lemma {:induction false} HealthySurvive(raw: bytes, p: nat, it: Items, cap: nat, room: nat, accepts: bytes -> bool)
    requires Readable(raw, p, it, cap, room)
    ensures var all, t := Elements(it, p, p), Tolerated(raw, cap, room, accepts);
      var numbers, about := Rejects(Inner(raw), all, |all|, accepts), AboutElements(t.problems);
      && t.ranges == Survivors(Inner(raw), all, |all|, accepts)
      && |about| == |numbers| && forall m | 0 <= m < |about| :: about[m].offset == all[numbers[m]].start
  {
    var inner, all := Inner(raw), Elements(it, p, p);
    var about := AboutElements(After(inner, all, |all|, cap, accepts).problems);
    WellFormedTolerated(raw, p, it, cap, room, accepts);
    AfterKeeps(inner, all, |all|, cap, accepts);
    AfterReports(inner, all, |all|, cap, accepts, Rejects(inner, all, |all|, accepts), about);
  }

  /** The record of a report is the number of its element if and only if as many elements have been kept before it as
      stand in earlier windows: in the first window, if and only if nothing has been kept. */
  lemma {:induction false} RecordRightIff(raw: bytes, p: nat, it: Items, cap: nat, room: nat, accepts: bytes -> bool,
                                          m: nat)
    requires Readable(raw, p, it, cap, room)
    requires var all := Elements(it, p, p); m < |Rejects(Inner(raw), all, |all|, accepts)|
    ensures var all, t := Elements(it, p, p), Tolerated(raw, cap, room, accepts);
      var k, about := Rejects(Inner(raw), all, |all|, accepts)[m], AboutElements(t.problems);
      m < |about| && (about[m].record == k <==> |Survivors(Inner(raw), all, k, accepts)| == WindowStart(k, cap))
  {
    var inner, all := Inner(raw), Elements(it, p, p);
    var about := AboutElements(After(inner, all, |all|, cap, accepts).problems);
    WellFormedTolerated(raw, p, it, cap, room, accepts);
    AfterReports(inner, all, |all|, cap, accepts, Rejects(inner, all, |all|, accepts), about);
  }

  /** A comma of a well-formed array is reported as a bad separator if and only if the first window is followed by
      another one and none of its elements parses. */
  lemma {:induction false} CommaBlamedIff(raw: bytes, p: nat, it: Items, cap: nat, room: nat, accepts: bytes -> bool)
    requires Readable(raw, p, it, cap, room)
    ensures var all := Elements(it, p, p);
      BlamesComma(Tolerated(raw, cap, room, accepts).problems) <==>
      Count(it) > cap && Survivors(Inner(raw), all, cap, accepts) == []
  {
    WellFormedTolerated(raw, p, it, cap, room, accepts);
    BlamedIff(Inner(raw), Elements(it, p, p), Count(it), cap, accepts);
  }

  lemma {:induction false} Digit(d: byte) returns (e: Entry)
    requires 0x31 <= d <= 0x39
    ensures IsItems(Array, More(e, [], End)) && EntryText(e) == [d] && EntryLen(e) == 1
  {
    var n := Numbers.Number(false, [d], [], Numbers.NoExp);
    assert n.WellFormed() && n.Text() == [d];
    e := Entry(NoName, Num([d]), []);
  }

  /** Two digits. */
  lemma {:induction false} TwoBare() returns (it: Items)
    ensures ArrayBody([0x31, COMMA, 0x32, RBRACKET], 0, it) && ItemsLen(it) == 3
    ensures Elements(it, 0, 0) == [Chunk(0, 1), Chunk(2, 3)]
  {
    var one := Digit(0x31);
    var two := Digit(0x32);
    var second := More(two, [], End);
    it := More(one, [], second);
    ItemsAtText([0x31, COMMA, 0x32, RBRACKET], 0, it);
    TwoText(one, two);
  }

  lemma {:induction false} TwoText(one: Entry, two: Entry)
    requires EntryLen(one) == EntryLen(two) == 1
    ensures var it := More(one, [], More(two, [], End));
      ItemsText(it) == EntryText(one) + [COMMA] + EntryText(two) && Elements(it, 0, 0) == [Chunk(0, 1), Chunk(2, 3)]
  {
    assert ItemsText(More(two, [], End)) == EntryText(two) + [];
  }

  lemma {:induction false} TwoRead(inner: bytes, all: seq<Chunk>, cap: nat, accepts: bytes -> bool)
    requires |all| == 2 && cap > 1 && accepts(Piece(inner, all[0])) && !accepts(Piece(inner, all[1]))
    ensures After(inner, all, 2, cap, accepts) == Reading([all[0]], [Problem(all[1].start, 2, BadElement)])
  {
    assert WindowStart(0, cap) == 0 && WindowStart(1, cap) == 0;
    assert After(inner, all, 0, cap, accepts) == Reading([], []);
    assert After(inner, all, 1, cap, accepts) == Reading([all[0]], []);
  }

  /** The smallest wrong record: the second element is reported as the third. */
  lemma {:induction false} SecondTakenForThird(cap: nat, room: nat, accepts: bytes -> bool)
    requires cap > 1 && room > 1 && accepts([0x31]) && !accepts([0x32])
    ensures Tolerated([LBRACKET, 0x31, COMMA, 0x32, RBRACKET], cap, room, accepts) ==
            Reading([Chunk(0, 1)], [Problem(2, 2, BadElement)])
  {
    var raw, inner := [LBRACKET, 0x31, COMMA, 0x32, RBRACKET], [0x31, COMMA, 0x32, RBRACKET];
    var it := TwoBare();
    assert SkipSpace(raw, 0) == 0 && Inner(raw) == inner;
    WellFormedTolerated(raw, 0, it, cap, room, accepts);
    assert inner[0..1] == [0x31] && inner[2..3] == [0x32];
    TwoRead(inner, [Chunk(0, 1), Chunk(2, 3)], cap, accepts);
  }
}
