/** The tolerant reader on well-formed arrays with any destination, however small. */
module TolerantRoom {
  import opened Bytes
  import opened Grammar
  import opened Splitter
  import opened ArrayElements
  import opened Slices
  import opened WellFormedArrays
  import opened TolerantSlices
  import opened TolerantArrays

  /** A window begins with element `k`, and there are not slots enough for all its elements, parse or not, behind those
      that have been kept. */
  predicate Tight(inner: bytes, all: seq<Chunk>, k: nat, cap: nat, room: nat, accepts: bytes -> bool)
    requires k < |all| && cap > 1
  {
    Begins(k, cap) && |Survivors(inner, all, k, accepts)| + Min(Room(k, cap), |all| - k) > room
  }

  /** `t` is the first element of the first such window; or the number of elements, if there is none. */
  ghost predicate TightFrom(inner: bytes, all: seq<Chunk>, t: nat, cap: nat, room: nat, accepts: bytes -> bool)
    requires cap > 1
  {
    && t <= |all| && (t < |all| ==> Tight(inner, all, t, cap, room, accepts))
    && forall k | 0 <= k < t :: !Tight(inner, all, k, cap, room, accepts)
  }

  /** What is made of the array then: nothing is kept, and behind the problems up to that window the lack of room is
      reported, at the end of the element in front. */
  function Reads(inner: bytes, all: seq<Chunk>, t: nat, cap: nat, accepts: bytes -> bool): Reading
    requires t <= |all| && cap > 1
  {
    var r := After(inner, all, t, cap, accepts);
    if t == |all| then r
    else
      Reading([], Entered(r, all, t, cap).problems + [Problem(if t == 0 then 0 else all[t - 1].end, -1, NoRoom)])
  }

  lemma {:induction false} TightMove(inner: bytes, off: nat, all: seq<Chunk>, b: nat, n: nat, cap: nat, room: nat,
                                     accepts: bytes -> bool)
    requires off < |inner| && b < |all| && HoldsFrom(inner, off, cap, all, b, n)
    requires cap > 1 && Begins(b, cap) && n <= Room(b, cap) && off == if b == 0 then 0 else all[b - 1].end
    requires |After(inner, all, b, cap, accepts).ranges| + n > room
    ensures var m := MoveAt(inner, off, After(inner, all, b, cap, accepts), cap, room, accepts);
      m.Full? && Reading([], m.problems) == Reads(inner, all, b, cap, accepts)
  {
    var r := After(inner, all, b, cap, accepts);
    HeldEnds(inner, off, cap, all, b, n);
    SeparatorsOf(inner, off, r, cap, b == 0);
    EntersSo(r, all, b, cap, Separators(inner, off, r, cap));
  }

  lemma {:induction false} ReadStops(size: nat, off: nat, from: nat, r: Reading, advance: Advance, finish: Finish)
    requires off < size && advance(off, r).Full?
    ensures ReadFrom(size, off, from, r, advance, finish) == Reading([], advance(off, r).problems)
  {
  }

  /** The window that begins with element `b`: the reader goes on, or stops there. */
  lemma {:induction false} RoomStep(inner: bytes, off: nat, all: seq<Chunk>, b: nat, n: nat, t: nat, cap: nat,
                                    room: nat, accepts: bytes -> bool, advance: Advance, finish: Finish)
    requires off < |inner| && b < |all| && HoldsFrom(inner, off, cap, all, b, n)
    requires cap > 1 && Begins(b, cap) && n == Min(Room(b, cap), |all| - b)
    requires off == if b == 0 then 0 else all[b - 1].end
    requires DecideMoves(advance, finish, inner, cap, room, accepts)
    requires b <= t && TightFrom(inner, all, t, cap, room, accepts)
    ensures var d := ReadFrom(|inner|, off, off, After(inner, all, b, cap, accepts), advance, finish);
      if b == t then d == Reads(inner, all, t, cap, accepts)
      else
        var end := all[b + n - 1].end;
        b + n <= t && d == ReadFrom(|inner|, end, end, After(inner, all, b + n, cap, accepts), advance, finish)
  {
    var r := After(inner, all, b, cap, accepts);
    AfterKeeps(inner, all, b, cap, accepts);
    if b == t {
      TightMove(inner, off, all, b, n, cap, room, accepts);
      assert advance(off, r) == MoveAt(inner, off, r, cap, room, accepts);
      ReadStops(|inner|, off, off, r, advance, finish);
    } else {
      assert !Tight(inner, all, b, cap, room, accepts);
      StepTolerant(inner, off, off, all, b, n, cap, room, accepts, advance, finish);
      NextWindow(inner, all, b, n, t, cap, room, accepts);
    }
  }

  /** No window begins inside another one. */
  lemma {:induction false} NextWindow(inner: bytes, all: seq<Chunk>, b: nat, n: nat, t: nat, cap: nat, room: nat,
                                      accepts: bytes -> bool)
    requires cap > 1 && b < |all| && Begins(b, cap) && n == Min(Room(b, cap), |all| - b) && b < t
    requires TightFrom(inner, all, t, cap, room, accepts)
    ensures b + n <= t
  {
    if t < b + n {
      WindowStarts(b, t - b, cap);
    }
  }

  /** From the window that begins with element `b`, behind the first one. */
  lemma {:induction false} RoomResume(inner: bytes, off: nat, before: bytes, it: Items, end: nat, all: seq<Chunk>,
                                      b: nat, t: nat, cap: nat, room: nat, accepts: bytes -> bool, advance: Advance,
                                      finish: Finish)
    requires StandsAt(inner, off, before, it, end) && off < |inner| && cap > 1
    requires 0 < b <= |all| && off == all[b - 1].end && RestIs(all, b, Remaining(off, before, it)) &&
      (it.More? ==> Begins(b, cap))
    requires DecideMoves(advance, finish, inner, cap, room, accepts)
    requires b <= t && TightFrom(inner, all, t, cap, room, accepts)
    ensures ReadFrom(|inner|, off, off, After(inner, all, b, cap, accepts), advance, finish) ==
            Reads(inner, all, t, cap, accepts)
    decreases |all| - b
  {
    if it.End? {
      LastStop(inner, off, before, it, end, all, b, cap);
      StopTolerant(inner, off, After(inner, all, b, cap, accepts), cap, room, accepts, advance, finish);
    } else {
      var n := Min(cap - 1, Count(it));
      var next, ws, rest := RoomNext(inner, off, before, it, end, all, b, n, t, cap, room, accepts, advance, finish);
      if b < t {
        RoomResume(inner, next, ws, rest, end, all, b + n, t, cap, room, accepts, advance, finish);
      }
    }
  }

  /** Through one resumed window, or to the end. */
  lemma {:induction false} RoomNext(inner: bytes, off: nat, before: bytes, it: Items, end: nat, all: seq<Chunk>, b: nat,
                                    n: nat, t: nat, cap: nat, room: nat, accepts: bytes -> bool, advance: Advance,
                                    finish: Finish)
    returns (next: nat, ws: bytes, rest: Items)
    requires StandsAt(inner, off, before, it, end) && off < |inner| && cap > 1 && it.More? && Begins(b, cap)
    requires 0 < b <= |all| && off == all[b - 1].end && RestIs(all, b, Remaining(off, before, it))
    requires n == Min(cap - 1, Count(it)) && DecideMoves(advance, finish, inner, cap, room, accepts)
    requires b <= t && TightFrom(inner, all, t, cap, room, accepts)
    ensures 0 < n && b + n <= |all| && next == all[b + n - 1].end && next < |inner|
    ensures StandsAt(inner, next, ws, rest, end) == true && RestIs(all, b + n, Remaining(next, ws, rest)) == true
    ensures rest.More? ==> Begins(b + n, cap)
    ensures var d := ReadFrom(|inner|, off, off, After(inner, all, b, cap, accepts), advance, finish);
      if b == t then d == Reads(inner, all, t, cap, accepts)
      else
        b + n <= t && d == ReadFrom(|inner|, next, next, After(inner, all, b + n, cap, accepts), advance, finish)
  {
    next, ws, rest := ResumedHolds(inner, off, before, it, end, all, b, n, cap);
    assert |Remaining(off, before, it)| == Count(it);
    RoomStep(inner, off, all, b, n, t, cap, room, accepts, advance, finish);
    WindowStarts(b, n, cap);
  }

  /** Through the first window, or to the end. */
  lemma {:induction false} RoomFirst(inner: bytes, p: nat, it: Items, all: seq<Chunk>, n: nat, t: nat, cap: nat,
                                     room: nat, accepts: bytes -> bool, advance: Advance, finish: Finish)
    returns (next: nat, ws: bytes, rest: Items)
    requires ArrayBody(inner, p, it) && AllSpace(inner[p + ItemsLen(it) + 1..]) && cap > 1 && it.More?
    requires all == Elements(it, p, p) && n == Min(cap, Count(it))
    requires DecideMoves(advance, finish, inner, cap, room, accepts) && TightFrom(inner, all, t, cap, room, accepts)
    ensures 0 < n <= |all| && next == all[n - 1].end && next < |inner|
    ensures StandsAt(inner, next, ws, rest, p + ItemsLen(it)) == true &&
      RestIs(all, n, Remaining(next, ws, rest)) == true
    ensures rest.More? ==> Begins(n, cap)
    ensures var d := ReadFrom(|inner|, 0, 0, After(inner, all, 0, cap, accepts), advance, finish);
      if 0 == t then d == Reads(inner, all, t, cap, accepts)
      else n <= t && d == ReadFrom(|inner|, next, next, After(inner, all, n, cap, accepts), advance, finish)
  {
    next, ws, rest := FirstHolds(inner, p, it, all, n, cap);
    RoomStep(inner, 0, all, 0, n, t, cap, room, accepts, advance, finish);
    WindowStarts(0, n, cap);
  }

  lemma {:induction false} ReadsWithRoom(inner: bytes, p: nat, it: Items, t: nat, cap: nat, room: nat,
                                         accepts: bytes -> bool, advance: Advance, finish: Finish)
    requires ArrayBody(inner, p, it) && AllSpace(inner[p + ItemsLen(it) + 1..]) && cap > 1
    requires DecideMoves(advance, finish, inner, cap, room, accepts)
    requires TightFrom(inner, Elements(it, p, p), t, cap, room, accepts)
    ensures var all := Elements(it, p, p);
      ReadFrom(|inner|, 0, 0, After(inner, all, 0, cap, accepts), advance, finish) == Reads(inner, all, t, cap, accepts)
  {
    var all, end := Elements(it, p, p), p + ItemsLen(it);
    if it.End? {
      EmptyArray(inner, p, cap);
      StopTolerant(inner, 0, After(inner, all, 0, cap, accepts), cap, room, accepts, advance, finish);
    } else {
      var n := Min(cap, Count(it));
      var next, before, rest := RoomFirst(inner, p, it, all, n, t, cap, room, accepts, advance, finish);
      if 0 < t {
        RoomResume(inner, next, before, rest, end, all, n, t, cap, room, accepts, advance, finish);
      }
    }
  }

  /** On every well-formed array, whichever elements parse and however small the destination: either every window finds
      slots enough, and the elements that parse are kept; or the first window that does not ends the reading, and
      nothing is kept. */
  lemma {:induction false} RoomDecides(raw: bytes, p: nat, it: Items, t: nat, cap: nat, room: nat,
                                       accepts: bytes -> bool)
    requires Inside(raw).Some? && ArrayBody(Inner(raw), p, it) && AllSpace(Inner(raw)[p + ItemsLen(it) + 1..])
    requires cap > 1 && room > 0 && TightFrom(Inner(raw), Elements(it, p, p), t, cap, room, accepts)
    ensures Tolerated(raw, cap, room, accepts) == Reads(Inner(raw), Elements(it, p, p), t, cap, accepts)
  {
    MovesDecide(Inner(raw), cap, room, accepts);
    ReadsWithRoom(Inner(raw), p, it, t, cap, room, accepts, Advances(Inner(raw), cap, room, accepts),
                  Finishes(Inner(raw), room, accepts));
  }

  /** There is one such `t`. */
  lemma {:induction false} SomeWindowIsTight(inner: bytes, all: seq<Chunk>, k: nat, cap: nat, room: nat,
                                             accepts: bytes -> bool)
    returns (t: nat)
    requires cap > 1 && k <= |all| && forall j | 0 <= j < k :: !Tight(inner, all, j, cap, room, accepts)
    ensures TightFrom(inner, all, t, cap, room, accepts)
    decreases |all| - k
  {
    if k == |all| || Tight(inner, all, k, cap, room, accepts) {
      t := k;
    } else {
      t := SomeWindowIsTight(inner, all, k + 1, cap, room, accepts);
    }
  }
}
