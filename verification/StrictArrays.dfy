/** The strict reader on well-formed arrays and on arrays that are cut off, whatever does not parse and however small
    the destination is: which error is reported. */
module StrictArrays {
  import opened Bytes
  import opened Grammar
  import opened Splitter
  import opened ArrayElements
  import opened Windows
  import opened Slices
  import opened WellFormedArrays
  import opened TolerantArrays
  import opened CutArrays

  // ----- what decides -----

  /** The number of the first of `n` elements that does not parse, or `n`. */
  function FirstReject(inner: bytes, all: seq<Chunk>, n: nat, accepts: bytes -> bool): (r: nat)
    requires n <= |all|
    ensures r <= n && (r < n ==> !accepts(Piece(inner, all[r])))
    ensures forall k | 0 <= k < r :: accepts(Piece(inner, all[k]))
  {
    if n == 0 then 0
    else
      var r := FirstReject(inner, all, n - 1, accepts);
      if r < n - 1 then r else if accepts(Piece(inner, all[n - 1])) then n else n - 1
  }

  /** What the reader answers when the windows hold the first `n` elements and it would otherwise answer `rest`: in the
      window of the first element for which there is no slot that is the error, unless an element in an earlier window
      does not parse. */
  function Verdict(inner: bytes, all: seq<Chunk>, n: nat, cap: nat, room: nat, accepts: bytes -> bool, rest: Result)
    : Result
    requires n <= |all| && cap > 1
  {
    var r := FirstReject(inner, all, n, accepts);
    if r == n <= room then rest
    else if room < n && (r == n || WindowStart(room, cap) <= WindowStart(r, cap)) then Rejected(NoRoom)
    else Rejected(BadElement)
  }

  // ----- one window -----

  lemma {:induction false} StartsAhead(b: nat, k: nat, cap: nat)
    requires cap > 1 && Begins(b, cap) && b <= k
    ensures b <= WindowStart(k, cap)
  {
    if b < k {
      StartsAhead(b, k - 1, cap);
    }
  }

  /** The window that begins with element `b` and holds `n` elements. */
  lemma {:induction false} StrictTurn(inner: bytes, off: nat, all: seq<Chunk>, b: nat, n: nat, cap: nat, room: nat,
                                      accepts: bytes -> bool)
    requires off < |inner| && HoldsFrom(inner, off, cap, all, b, n)
    ensures TurnAt(inner, off, all[..b], cap, room, accepts) ==
      if b + n > room then Refuse(NoRoom)
      else if !AllAccepted(inner, all[b..b + n], accepts) then Refuse(BadElement)
      else Go(all[b + n - 1].end, all[..b + n])
  {
    var kept := Solid(Window(inner, off, cap));
    assert |Shift(kept, off)| == |kept| == n;
    assert all[..b] + all[b..b + n] == all[..b + n];
  }

  /** Whether the first elements of a list are accepted. */
  lemma {:induction false} RejectIn(inner: bytes, all: seq<Chunk>, m: nat, b: nat, n: nat, accepts: bytes -> bool)
    requires b + n <= m <= |all| && b <= FirstReject(inner, all, m, accepts)
    ensures AllAccepted(inner, all[b..b + n], accepts) <==> b + n <= FirstReject(inner, all, m, accepts)
  {
    var r, w := FirstReject(inner, all, m, accepts), all[b..b + n];
    if b + n <= r {
      assert forall k | 0 <= k < n :: w[k] == all[b + k];
    } else {
      assert w[r - b] == all[r];
    }
  }

  /** A window that refuses gives the verdict. */
  lemma {:induction false} VerdictHere(inner: bytes, all: seq<Chunk>, m: nat, b: nat, n: nat, cap: nat, room: nat,
                                       accepts: bytes -> bool, rest: Result)
    requires cap > 1 && Begins(b, cap) && 0 < n <= Room(b, cap) && b + n <= m <= |all| && b <= room
    requires (b + n == m || n == Room(b, cap)) && b <= FirstReject(inner, all, m, accepts)
    ensures room < b + n ==> Verdict(inner, all, m, cap, room, accepts, rest) == Rejected(NoRoom)
    ensures b + n <= room && !AllAccepted(inner, all[b..b + n], accepts) ==>
      Verdict(inner, all, m, cap, room, accepts, rest) == Rejected(BadElement)
  {
    var r := FirstReject(inner, all, m, accepts);
    RejectIn(inner, all, m, b, n, accepts);
    StartsAhead(b, r, cap);
    if room < b + n {
      WindowStarts(b, room - b, cap);
    } else if r < b + n {
      WindowStarts(b, r - b, cap);
      WindowStarts(b, n, cap);
      if room < m {
        StartsLater(b, n, room, cap);
      }
    }
  }

  lemma {:induction false} StartsLater(b: nat, n: nat, k: nat, cap: nat)
    requires cap > 1 && Begins(b, cap) && 0 < n <= Room(b, cap) && b + n <= k
    ensures n == Room(b, cap) ==> b < WindowStart(k, cap)
  {
    WindowStarts(b, n, cap);
    if n == Room(b, cap) {
      StartsAhead(b + n, k, cap);
    }
  }

  /** The window that begins with element `b`: the verdict, or on to the next one. `more` is what follows. */
  lemma {:induction false} StrictStep(inner: bytes, off: nat, all: seq<Chunk>, m: nat, b: nat, n: nat, cap: nat,
                                      room: nat, accepts: bytes -> bool, turn: (nat, seq<Chunk>) -> Turn, rest: Result)
    requires off < |inner| && HoldsFrom(inner, off, cap, all, b, n) && Slices.Decides(turn, inner, cap, room, accepts)
    requires cap > 1 && Begins(b, cap) && n <= Room(b, cap) && b + n <= m <= |all| && b <= room
    requires (b + n == m || n == Room(b, cap)) && b <= FirstReject(inner, all, m, accepts)
    ensures var end := all[b + n - 1].end;
      var v, d := Verdict(inner, all, m, cap, room, accepts, rest), Drive(inner, off, all[..b], turn);
      if b + n <= room && b + n <= FirstReject(inner, all, m, accepts)
      then end <= |inner| && d == Drive(inner, end, all[..b + n], turn) else d == v
  {
    var t := TurnAt(inner, off, all[..b], cap, room, accepts);
    StrictTurn(inner, off, all, b, n, cap, room, accepts);
    RejectIn(inner, all, m, b, n, accepts);
    assert turn(off, all[..b]) == t;
    if t.Go? {
      DriveGoes(inner, off, all[..b], t.off, t.done, turn);
    } else {
      VerdictHere(inner, all, m, b, n, cap, room, accepts, rest);
      DriveRefuses(inner, off, all[..b], t.error, turn);
    }
  }

  lemma {:induction false} DriveRefuses(inner: bytes, off: nat, done: seq<Chunk>, error: Error,
                                        turn: (nat, seq<Chunk>) -> Turn)
    requires off < |inner| && turn(off, done) == Refuse(error)
    ensures Drive(inner, off, done, turn) == Rejected(error)
  {
  }

  // ----- well-formed arrays -----

  lemma {:induction false} WholeTake(all: seq<Chunk>)
    ensures all[..|all|] == all && all[..0] == []
  {
  }

  /** From the window that begins with element `b`, behind the first one. */
  lemma {:induction false} StrictResume(inner: bytes, off: nat, before: bytes, it: Items, end: nat, all: seq<Chunk>,
                                        b: nat, cap: nat, room: nat, accepts: bytes -> bool,
                                        turn: (nat, seq<Chunk>) -> Turn)
    requires StandsAt(inner, off, before, it, end) && off < |inner| && cap > 1 &&
      Slices.Decides(turn, inner, cap, room, accepts)
    requires 0 < b <= |all| && b <= room && RestIs(all, b, Remaining(off, before, it)) && off == all[b - 1].end
    requires (it.More? ==> Begins(b, cap)) && b <= FirstReject(inner, all, |all|, accepts)
    ensures Drive(inner, off, all[..b], turn) == Verdict(inner, all, |all|, cap, room, accepts, Accepted(all))
    decreases |all| - b
  {
    if it.End? {
      LastStop(inner, off, before, it, end, all, b, cap);
      StrictStop(inner, off, all, cap, room, accepts, turn);
    } else {
      var n := Min(cap - 1, Count(it));
      var next, ws, rest := StrictNext(inner, off, before, it, end, all, b, n, cap, room, accepts, turn);
      if b + n <= room && b + n <= FirstReject(inner, all, |all|, accepts) {
        StrictResume(inner, next, ws, rest, end, all, b + n, cap, room, accepts, turn);
      }
    }
  }

  /** Through one resumed window, or to the verdict. */
  lemma {:induction false} StrictNext(inner: bytes, off: nat, before: bytes, it: Items, end: nat, all: seq<Chunk>,
                                      b: nat, n: nat, cap: nat, room: nat, accepts: bytes -> bool,
                                      turn: (nat, seq<Chunk>) -> Turn)
    returns (next: nat, ws: bytes, rest: Items)
    requires StandsAt(inner, off, before, it, end) && off < |inner| && cap > 1 && it.More? && Begins(b, cap)
    requires Slices.Decides(turn, inner, cap, room, accepts) && n == Min(cap - 1, Count(it))
    requires 0 < b <= |all| && b <= room && RestIs(all, b, Remaining(off, before, it))
    requires b <= FirstReject(inner, all, |all|, accepts)
    ensures 0 < n && b + n <= |all| && next == all[b + n - 1].end && next < |inner|
    ensures StandsAt(inner, next, ws, rest, end) == true && RestIs(all, b + n, Remaining(next, ws, rest)) == true
    ensures rest.More? ==> Begins(b + n, cap)
    ensures Drive(inner, off, all[..b], turn) ==
      if b + n <= room && b + n <= FirstReject(inner, all, |all|, accepts) then Drive(inner, next, all[..b + n], turn)
      else Verdict(inner, all, |all|, cap, room, accepts, Accepted(all))
  {
    next, ws, rest := ResumedHolds(inner, off, before, it, end, all, b, n, cap);
    LastOfRest(all, b, n, cap, next, ws, rest);
    StrictStep(inner, off, all, |all|, b, n, cap, room, accepts, turn, Accepted(all));
    WindowStarts(b, n, cap);
  }

  lemma {:induction false} LastOfRest(all: seq<Chunk>, b: nat, n: nat, cap: nat, next: nat, ws: bytes, rest: Items)
    requires RestIs(all, b + n, Remaining(next, ws, rest))
    ensures rest.End? ==> b + n == |all|
  {
  }

  lemma {:induction false} StrictStop(inner: bytes, off: nat, all: seq<Chunk>, cap: nat, room: nat,
                                      accepts: bytes -> bool, turn: (nat, seq<Chunk>) -> Turn)
    requires off < |inner| && Solid(Window(inner, off, cap)) == [] && Closes(inner, off) && EndOf(all) == off
    requires Slices.Decides(turn, inner, cap, room, accepts)
    ensures Drive(inner, off, all[..|all|], turn) == Accepted(all)
  {
    WholeTake(all);
    ClosesHere(inner, off);
    assert turn(off, all) == TurnAt(inner, off, all, cap, room, accepts) == Finished;
  }

  lemma {:induction false} ClosesHere(inner: bytes, off: nat)
    requires off <= |inner| && Closes(inner, off)
    ensures Closes(inner[off..], 0)
  {
    var j: nat :| ClosesAt(inner, off, j);
    var w := inner[off..];
    assert w[0..j - off] == inner[off..j] && w[j - off + 1..] == inner[j + 1..];
    assert ClosesAt(w, 0, j - off);
  }

  /** On every well-formed array, whichever elements parse and however small the destination: all elements, if they
      parse and fit; and otherwise the lack of room, unless an element in an earlier window does not parse. */
  lemma {:induction false} WellFormedVerdict(raw: bytes, p: nat, it: Items, cap: nat, room: nat, accepts: bytes -> bool)
    requires Inside(raw).Some? && ArrayBody(Inner(raw), p, it) && AllSpace(Inner(raw)[p + ItemsLen(it) + 1..])
    requires cap > 1 && room > 0
    ensures var inner, all := Inner(raw), Elements(it, p, p);
      Accept(raw, cap, room, accepts) == Verdict(inner, all, |all|, cap, room, accepts, Accepted(all))
  {
    TurnsDecide(Inner(raw), cap, room, accepts);
    DrivesWellFormed(Inner(raw), p, it, cap, room, accepts, Turns(Inner(raw), cap, room, accepts));
  }

  lemma {:induction false} DrivesWellFormed(inner: bytes, p: nat, it: Items, cap: nat, room: nat,
                                            accepts: bytes -> bool, turn: (nat, seq<Chunk>) -> Turn)
    requires ArrayBody(inner, p, it) && AllSpace(inner[p + ItemsLen(it) + 1..]) && cap > 1
    requires Slices.Decides(turn, inner, cap, room, accepts)
    ensures var all := Elements(it, p, p);
      Drive(inner, 0, [], turn) == Verdict(inner, all, |all|, cap, room, accepts, Accepted(all))
  {
    var all := Elements(it, p, p);
    WholeTake(all);
    if it.End? {
      EmptyArray(inner, p, cap);
      StrictStop(inner, 0, all, cap, room, accepts, turn);
    } else {
      DrivesFirst(inner, p, it, all, cap, room, accepts, turn);
    }
  }

  lemma {:induction false} DrivesFirst(inner: bytes, p: nat, it: Items, all: seq<Chunk>, cap: nat, room: nat,
                                       accepts: bytes -> bool, turn: (nat, seq<Chunk>) -> Turn)
    requires ArrayBody(inner, p, it) && AllSpace(inner[p + ItemsLen(it) + 1..]) && cap > 1 && it.More?
    requires Slices.Decides(turn, inner, cap, room, accepts) && all == Elements(it, p, p)
    ensures Drive(inner, 0, all[..0], turn) == Verdict(inner, all, |all|, cap, room, accepts, Accepted(all))
  {
    var n := Min(cap, Count(it));
    var next, before, rest := StrictFirst(inner, p, it, all, n, cap, room, accepts, turn);
    if n <= room && n <= FirstReject(inner, all, |all|, accepts) {
      StrictResume(inner, next, before, rest, p + ItemsLen(it), all, n, cap, room, accepts, turn);
    }
  }

  /** Through the first window, or to the verdict. */
  lemma {:induction false} StrictFirst(inner: bytes, p: nat, it: Items, all: seq<Chunk>, n: nat, cap: nat, room: nat,
                                       accepts: bytes -> bool, turn: (nat, seq<Chunk>) -> Turn)
    returns (next: nat, ws: bytes, rest: Items)
    requires ArrayBody(inner, p, it) && AllSpace(inner[p + ItemsLen(it) + 1..]) && cap > 1 && it.More?
    requires Slices.Decides(turn, inner, cap, room, accepts) && all == Elements(it, p, p) && n == Min(cap, Count(it))
    ensures 0 < n <= |all| && next == all[n - 1].end && next < |inner|
    ensures StandsAt(inner, next, ws, rest, p + ItemsLen(it)) == true &&
      RestIs(all, n, Remaining(next, ws, rest)) == true
    ensures rest.More? ==> Begins(n, cap)
    ensures Drive(inner, 0, all[..0], turn) ==
      if n <= room && n <= FirstReject(inner, all, |all|, accepts) then Drive(inner, next, all[..n], turn)
      else Verdict(inner, all, |all|, cap, room, accepts, Accepted(all))
  {
    next, ws, rest := FirstHolds(inner, p, it, all, n, cap);
    LastOfRest(all, 0, n, cap, next, ws, rest);
    StrictStep(inner, 0, all, |all|, 0, n, cap, room, accepts, turn, Accepted(all));
    WindowStarts(0, n, cap);
  }

  // ----- cut arrays -----

  /** The error at the cut: the window that begins there holds no element, and more than a closing bracket. An input
      that ends with the opening bracket has no window. */
  function CutError(inner: bytes): Error {
    if inner == [] then Unterminated else Malformed
  }

  lemma {:induction false} CutStop(inner: bytes, off: nat, done: seq<Chunk>, cap: nat, room: nat,
                                   accepts: bytes -> bool, turn: (nat, seq<Chunk>) -> Turn)
    requires off < |inner| && Solid(Window(inner, off, cap)) == [] && !Closes(inner[off..], 0)
    requires Slices.Decides(turn, inner, cap, room, accepts)
    ensures Drive(inner, off, done, turn) == Rejected(Malformed)
  {
    assert turn(off, done) == TurnAt(inner, off, done, cap, room, accepts) == Refuse(Malformed);
    DriveRefuses(inner, off, done, Malformed, turn);
  }

  lemma {:induction false} CommaDoesNotClose(inner: bytes, off: nat)
    requires off < |inner| && inner[off] == COMMA
    ensures !Closes(inner[off..], 0)
  {
    var w := inner[off..];
    forall j: nat ensures !ClosesAt(w, 0, j) {
      if 0 < j <= |w| {
        assert w[0..j][0] == COMMA;
      }
    }
  }

  lemma {:induction false} StrictCutResume(inner: bytes, full: bytes, off: nat, before: bytes, it: Items,
                                           all: seq<Chunk>, b: nat, cap: nat, room: nat, accepts: bytes -> bool,
                                           turn: (nat, seq<Chunk>) -> Turn)
    requires CutAtElement(inner, full, off, before, it, all, b) && cap > 1 && b <= room
    requires (it.rest.More? ==> Begins(b, cap)) && Slices.Decides(turn, inner, cap, room, accepts)
    requires b <= FirstReject(inner, all, |all| - 1, accepts)
    ensures off <= |inner|
    ensures Drive(inner, off, all[..b], turn) ==
            Verdict(inner, all, |all| - 1, cap, room, accepts, Rejected(Malformed))
    decreases |all| - b
  {
    OpensLater(it, off + 1 + |before|, off + 1);
    if it.rest.End? {
      StrictCutEnds(inner, full, off, before, it, all, b, cap, room, accepts, turn);
    } else {
      var n := Min(cap - 1, Count(it) - 1);
      var next, ws, rest := StrictCutNext(inner, full, off, before, it, all, b, n, cap, room, accepts, turn);
      if b + n <= room && b + n <= FirstReject(inner, all, |all| - 1, accepts) {
        StrictCutResume(inner, full, next, ws, rest, all, b + n, cap, room, accepts, turn);
      }
    }
  }

  lemma {:induction false} StrictCutEnds(inner: bytes, full: bytes, off: nat, before: bytes, it: Items, all: seq<Chunk>,
                                         b: nat, cap: nat, room: nat, accepts: bytes -> bool,
                                         turn: (nat, seq<Chunk>) -> Turn)
    requires CutAtElement(inner, full, off, before, it, all, b) && cap > 1 && b <= room && it.rest.End?
    requires Slices.Decides(turn, inner, cap, room, accepts) && b <= FirstReject(inner, all, |all| - 1, accepts)
    ensures off <= |inner|
    ensures Drive(inner, off, all[..b], turn) ==
            Verdict(inner, all, |all| - 1, cap, room, accepts, Rejected(Malformed))
  {
    CutLastWindow(inner, full, off, before, it, cap);
    OpenIsEnd(it, off + 1 + |before|, off + 1, off + 1);
    assert |Remaining(off, before, it)| == 1;
    CommaDoesNotClose(inner, off);
    CutStop(inner, off, all[..b], cap, room, accepts, turn);
  }

  /** Through one resumed window, or to the verdict. */
  lemma {:induction false} StrictCutNext(inner: bytes, full: bytes, off: nat, before: bytes, it: Items, all: seq<Chunk>,
                                         b: nat, n: nat, cap: nat, room: nat, accepts: bytes -> bool,
                                         turn: (nat, seq<Chunk>) -> Turn)
    returns (next: nat, ws: bytes, rest: Items)
    requires CutAtElement(inner, full, off, before, it, all, b) && cap > 1 && b <= room && it.rest.More?
    requires Begins(b, cap) && Slices.Decides(turn, inner, cap, room, accepts) && n == Min(cap - 1, Count(it) - 1)
    requires b <= FirstReject(inner, all, |all| - 1, accepts)
    ensures off < |inner| && 0 < n && b + n < |all| && CutAtElement(inner, full, next, ws, rest, all, b + n) == true
    ensures (rest.rest.More? ==> Begins(b + n, cap)) && next <= |inner|
    ensures var m := |all| - 1;
      Drive(inner, off, all[..b], turn) ==
      if b + n <= room && b + n <= FirstReject(inner, all, m, accepts) then Drive(inner, next, all[..b + n], turn)
      else Verdict(inner, all, m, cap, room, accepts, Rejected(Malformed))
  {
    next, ws, rest := CutHolds(inner, full, off, before, it, all, b, n, cap);
    StrictStep(inner, off, all, |all| - 1, b, n, cap, room, accepts, turn, Rejected(Malformed));
    WindowStarts(b, n, cap);
  }

  /** On every array that is cut off inside its last element, or in front of it: it is refused, as malformed unless a
      terminated element is refused before. */
  lemma {:induction false} CutVerdict(raw: bytes, full: bytes, p: nat, it: Items, cap: nat, room: nat,
                                      accepts: bytes -> bool)
    requires CutArray(raw, full, p, it) && cap > 1 && room > 0
    ensures Count(it) > 0
    ensures var inner, all := Inner(raw), Elements(it, p, p);
      Accept(raw, cap, room, accepts) ==
      Verdict(inner, all, Count(it) - 1, cap, room, accepts, Rejected(CutError(inner)))
  {
    AtLeastOne(it);
    TurnsDecide(Inner(raw), cap, room, accepts);
    DrivesCut(Inner(raw), full, p, it, cap, room, accepts, Turns(Inner(raw), cap, room, accepts));
  }

  lemma {:induction false} DrivesCut(inner: bytes, full: bytes, p: nat, it: Items, cap: nat, room: nat,
                                     accepts: bytes -> bool, turn: (nat, seq<Chunk>) -> Turn)
    requires CutFrom(inner, full, p, it) && cap > 1 && Slices.Decides(turn, inner, cap, room, accepts)
    ensures Count(it) > 0
    ensures var all := Elements(it, p, p);
      Drive(inner, 0, [], turn) == Verdict(inner, all, Count(it) - 1, cap, room, accepts, Rejected(CutError(inner)))
  {
    var all := Elements(it, p, p);
    OpenIsEnd(it, p, p, 0);
    WholeTake(all);
    if it.rest.End? {
      DrivesAlone(inner, full, p, it, cap, room, accepts, turn);
    } else {
      DrivesCutFirst(inner, full, p, it, all, cap, room, accepts, turn);
    }
  }

  lemma {:induction false} DrivesCutFirst(inner: bytes, full: bytes, p: nat, it: Items, all: seq<Chunk>, cap: nat,
                                          room: nat, accepts: bytes -> bool, turn: (nat, seq<Chunk>) -> Turn)
    requires CutFrom(inner, full, p, it) && it.rest.More? && cap > 1 && all == Elements(it, p, p)
    requires Slices.Decides(turn, inner, cap, room, accepts)
    ensures inner != [] && |all| > 1
    ensures Drive(inner, 0, all[..0], turn) ==
            Verdict(inner, all, |all| - 1, cap, room, accepts, Rejected(Malformed))
  {
    OpenIsEnd(it, p, p, 0);
    var n := Min(cap, Count(it) - 1);
    var next, ws, rest := StrictCutFirst(inner, full, p, it, all, n, cap, room, accepts, turn);
    if n <= room && n <= FirstReject(inner, all, |all| - 1, accepts) {
      StrictCutResume(inner, full, next, ws, rest, all, n, cap, room, accepts, turn);
    }
  }

  /** Through the first window, or to the verdict. */
  lemma {:induction false} StrictCutFirst(inner: bytes, full: bytes, p: nat, it: Items, all: seq<Chunk>, n: nat,
                                          cap: nat, room: nat, accepts: bytes -> bool, turn: (nat, seq<Chunk>) -> Turn)
    returns (next: nat, ws: bytes, rest: Items)
    requires CutFrom(inner, full, p, it) && it.rest.More? && cap > 1 && all == Elements(it, p, p)
    requires Count(it) > 1 && n == Min(cap, Count(it) - 1) && Slices.Decides(turn, inner, cap, room, accepts)
    ensures inner != [] && n < |all| && CutAtElement(inner, full, next, ws, rest, all, n) == true
    ensures (rest.rest.More? ==> Begins(n, cap)) && next <= |inner|
    ensures var m := |all| - 1;
      Drive(inner, 0, all[..0], turn) ==
      if n <= room && n <= FirstReject(inner, all, m, accepts) then Drive(inner, next, all[..n], turn)
      else Verdict(inner, all, m, cap, room, accepts, Rejected(Malformed))
  {
    next, ws, rest := CutFirstHolds(inner, full, p, it, all, n, cap);
    StrictStep(inner, 0, all, |all| - 1, 0, n, cap, room, accepts, turn, Rejected(Malformed));
  }

  lemma {:induction false} DrivesAlone(inner: bytes, full: bytes, p: nat, it: Items, cap: nat, room: nat,
                                       accepts: bytes -> bool, turn: (nat, seq<Chunk>) -> Turn)
    requires CutFrom(inner, full, p, it) && it.rest.End? && cap > 1 && Slices.Decides(turn, inner, cap, room, accepts)
    ensures Drive(inner, 0, [], turn) == Rejected(CutError(inner))
  {
    CutTail(inner, full, p, it);
    OpenIsEnd(it, p, p, 0);
    if inner != [] {
      CutAlone(inner, full, p, it, cap);
      assert inner[0..] == inner;
      CutStop(inner, 0, [], cap, room, accepts, turn);
    }
  }
}
