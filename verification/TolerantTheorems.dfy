/** The tolerant array reader reports nothing exactly where the strict one accepts, and then it is the strict one. */
module TolerantTheorems {
  import opened Bytes
  import opened Splitter
  import opened Windows
  import opened Slices
  import opened TolerantSlices

  // ----- no problem means acceptance by the strict reader -----

  /** Nothing more is reported exactly if all elements parse, and then all are kept. */
  lemma {:induction false} AllTaken(inner: bytes, r: Reading, rs: seq<Chunk>, n: nat, accepts: bytes -> bool)
    requires n <= |rs|
    ensures var t := Taken(inner, r, rs, n, accepts);
      && r.problems <= t.problems
      && (t.problems == r.problems <==> forall k | 0 <= k < n :: accepts(Piece(inner, rs[k])))
      && (t.problems == r.problems ==> t.ranges == r.ranges + rs[..n])
  {
    if n > 0 {
      AllTaken(inner, r, rs, n - 1, accepts);
      assert rs[..n] == rs[..n - 1] + [rs[n - 1]];
    }
  }

  lemma {:induction false} MoveReports(inner: bytes, off: nat, r: Reading, cap: nat, room: nat, accepts: bytes -> bool)
    requires off < |inner| && MoveAt(inner, off, r, cap, room, accepts).GoOn?
    ensures r.problems <= MoveAt(inner, off, r, cap, room, accepts).r.problems
  {
    var rs := Shift(Solid(Window(inner, off, cap)), off);
    AllTaken(inner, Reading(r.ranges, r.problems + Separators(inner, off, r, cap)), rs, |rs|, accepts);
  }

  /** Problems are never taken back. */
  lemma {:induction false} ProblemsStay(inner: bytes, off: nat, from: nat, r: Reading, cap: nat, room: nat,
                                        accepts: bytes -> bool)
    requires from <= off <= |inner|
    ensures r.problems <= ReadFrom(|inner|, off, from, r, Advances(inner, cap, room, accepts),
                                   Finishes(inner, room, accepts)).problems
    decreases |inner| - off
  {
    var advance, finish := Advances(inner, cap, room, accepts), Finishes(inner, room, accepts);
    assert finish(from, r) == FinishAt(inner, from, r, room, accepts);
    if off < |inner| {
      var m := MoveAt(inner, off, r, cap, room, accepts);
      assert advance(off, r) == m;
      if m.GoOn? {
        MoveInside(inner, off, r, cap, room, accepts);
        MoveReports(inner, off, r, cap, room, accepts);
        ProblemsStay(inner, m.off, m.from, m.r, cap, room, accepts);
      }
    }
  }

  /** One window without a problem so far. */
  lemma {:induction false} SameMove(inner: bytes, off: nat, done: seq<Chunk>, cap: nat, room: nat,
                                    accepts: bytes -> bool)
    requires off < |inner|
    ensures var m, t :=
      MoveAt(inner, off, Reading(done, []), cap, room, accepts), TurnAt(inner, off, done, cap, room, accepts);
      match m
      case Ends => t == if Closes(inner[off..], 0) then Finished else Refuse(Malformed)
      case Full(problems) => t.Refuse? && problems != []
      case GoOn(next, from, r) => if r.problems == [] then t == Go(next, r.ranges) else t.Refuse?
  {
    var kept := Solid(Window(inner, off, cap));
    var rs := Shift(kept, off);
    NoBadGaps(inner[off..], kept, |kept|, done != []);
    AllTaken(inner, Reading(done, Separators(inner, off, Reading(done, []), cap)), rs, |rs|, accepts);
    var gaps := Separators(inner, off, Reading(done, []), cap);
    assert rs[..|rs|] == rs && [] + gaps == gaps;
  }

  /** From any window on, without a problem so far. */
  lemma {:induction false} SameFromHere(inner: bytes, off: nat, done: seq<Chunk>, cap: nat, room: nat,
                                        accepts: bytes -> bool)
    requires off <= |inner| && EndOf(done) <= off && OnlyCommas(inner, EndOf(done), off)
    ensures var t := ReadFrom(|inner|, off, EndOf(done), Reading(done, []), Advances(inner, cap, room, accepts),
                              Finishes(inner, room, accepts));
      var g := Drive(inner, off, done, Turns(inner, cap, room, accepts));
      (t.problems == [] <==> g.Accepted?) && (g.Accepted? ==> t.ranges == g.ranges)
    decreases |inner| - off
  {
    var advance, finish := Advances(inner, cap, room, accepts), Finishes(inner, room, accepts);
    var turn, from, r := Turns(inner, cap, room, accepts), EndOf(done), Reading(done, []);
    assert finish(from, r) == FinishAt(inner, from, r, room, accepts);
    if off < |inner| {
      var m := MoveAt(inner, off, r, cap, room, accepts);
      assert advance(off, r) == m && turn(off, done) == TurnAt(inner, off, done, cap, room, accepts);
      SameMove(inner, off, done, cap, room, accepts);
      match m {
        case Ends => ClosesIff(inner, from, off);
        case Full(_) =>
        case GoOn(next, end, more) =>
          MoveInside(inner, off, r, cap, room, accepts);
          ProblemsStay(inner, next, end, more, cap, room, accepts);
          if more.problems == [] {
            GoesOnSame(inner, off, done, cap, room, accepts);
            SameFromHere(inner, next, more.ranges, cap, room, accepts);
          }
      }
    }
  }

  /** Behind commas of dropped chunks the array is closed only if there were none. */
  lemma {:induction false} ClosesIff(inner: bytes, p: nat, off: nat)
    requires p <= off < |inner| && OnlyCommas(inner, p, off)
    ensures Closes(inner, p) ==> p == off && Closes(inner[off..], 0)
  {
    if Closes(inner, p) {
      var j: nat :| ClosesAt(inner, p, j);
      assert p < off ==> Is(inner, p, COMMA);
      var w := inner[off..];
      assert w[0..j - off] == inner[p..j] && w[j - off + 1..] == inner[j + 1..];
      assert ClosesAt(w, 0, j - off);
    }
  }

  lemma {:induction false} GoesOnSame(inner: bytes, off: nat, done: seq<Chunk>, cap: nat, room: nat,
                                      accepts: bytes -> bool)
    requires off < |inner| && MoveAt(inner, off, Reading(done, []), cap, room, accepts).GoOn?
    requires MoveAt(inner, off, Reading(done, []), cap, room, accepts).r.problems == []
    ensures var m := MoveAt(inner, off, Reading(done, []), cap, room, accepts);
      m.from == EndOf(m.r.ranges) <= m.off && OnlyCommas(inner, m.from, m.off)
  {
    var kept, cs := Solid(Window(inner, off, cap)), Window(inner, off, cap);
    SameMove(inner, off, done, cap, room, accepts);
    EndShifted(done, kept, off);
    WindowTail(inner, off, cap, kept, EndOf(cs));
  }

  /** The tolerant reader reports no problem if and only if the strict one accepts, for the same input, destination and
      chunk buffer; and then both read the same ranges into the same slots. */
  lemma {:induction false} NoProblemIffAccepted(raw: bytes, cap: nat, room: nat, accepts: bytes -> bool)
    ensures var t, g := Tolerated(raw, cap, room, accepts), Accept(raw, cap, room, accepts);
      (t.problems == [] <==> g.Accepted?) && (g.Accepted? ==> t.ranges == g.ranges)
  {
    if raw != [] && Inside(raw).Some? && room > 0 {
      SameFromHere(Inner(raw), 0, [], cap, room, accepts);
    }
  }
}
