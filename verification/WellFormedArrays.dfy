/** The window loop on well-formed arrays: every element is parsed exactly once, whatever the chunk buffer. */
module WellFormedArrays {
  import opened Bytes
  import opened Grammar
  import opened StrictGrammar
  import opened Splitter
  import opened ArrayElements
  import opened Windows
  import opened Slices

  /** The scan stands at `off` with the elements `it` still to come: at the comma before them, or at the closing
      bracket, which nothing but whitespace follows. */
  ghost predicate StandsAt(inner: bytes, off: nat, before: bytes, it: Items, end: nat) {
    && Is(inner, end, RBRACKET) && AllSpace(inner[end + 1..])
    && if it.End? then off == end
       else
         && RestAt(inner, off, before, it) && AllSpace(before) && IsItems(Array, it)
         && off + 1 + |before| + ItemsLen(it) == end
  }

  /** The elements still to come. */
  function Remaining(off: nat, before: bytes, it: Items): seq<Chunk> {
    Elements(it, off + 1 + |before|, off + 1)
  }

  lemma {:induction false} ElementsShift(it: Items, i: nat, start: nat, d: nat)
    ensures Elements(it, i + d, start + d) == Shift(Elements(it, i, start), d)
    decreases it
  {
    if it.More? {
      var j := i + EntryLen(it.first);
      ElementsShift(it.rest, j + 1 + |it.before|, j + 1, d);
      assert j + d == i + d + EntryLen(it.first);
    }
  }

  /** A text stands at `off` in the input exactly when it stands at the front of the window. */
  lemma {:induction false} RestAtWindow(inner: bytes, off: nat, before: bytes, it: Items)
    requires off <= |inner|
    ensures RestAt(inner, off, before, it) <==> RestAt(inner[off..], 0, before, it)
  {
    var w, t := inner[off..], RestText(before, it);
    RestAtText(inner, off, before, it);
    RestAtText(w, 0, before, it);
    AtSlice(inner, off, t);
    AtSlice(w, 0, t);
    if off + |t| <= |inner| {
      assert w[0..0 + |t|] == inner[off..off + |t|];
    }
  }

  /** The scan after `n` of the elements. */
  lemma {:induction false} DropElements(raw: bytes, i: nat, it: Items, start: nat, n: nat, end: nat)
    returns (off: nat, before: bytes, rest: Items)
    requires IsItems(Array, it) && ItemsAt(raw, i, it) && i + ItemsLen(it) == end
    requires Is(raw, end, RBRACKET) && AllSpace(raw[end + 1..]) && 1 <= n <= Count(it)
    ensures off == Elements(it, i, start)[n - 1].end && StandsAt(raw, off, before, rest, end)
    ensures Elements(it, i, start)[n..] == Remaining(off, before, rest)
    decreases it
  {
    var j := i + EntryLen(it.first);
    var k := j + 1 + |it.before|;
    ItemsAtParts(raw, i, it);
    ElementsCons(it, i, start, n);
    if n == 1 {
      off, before, rest := j, it.before, it.rest;
    } else {
      off, before, rest := DropElements(raw, k, it.rest, j + 1, n - 1, end);
    }
  }

  lemma {:induction false} ElementsCons(it: Items, i: nat, start: nat, n: nat)
    requires it.More? && 1 <= n <= Count(it)
    ensures var j := i + EntryLen(it.first);
      var rest := Elements(it.rest, j + 1 + |it.before|, j + 1);
      && Elements(it, i, start)[n - 1] == (if n == 1 then Chunk(start, j) else rest[n - 2])
      && Elements(it, i, start)[n..] == rest[n - 1..]
  {
  }

  // ----- one window -----

  /** The window at the closing bracket holds one empty chunk and closes the array. */
  lemma {:induction false} LastWindow(inner: bytes, off: nat, cap: nat)
    requires Is(inner, off, RBRACKET) && AllSpace(inner[off + 1..]) && cap > 0
    ensures Solid(Window(inner, off, cap)) == [] && Closes(inner[off..], 0) && Closes(inner, off)
  {
    var w := inner[off..];
    var t := Step(Initial(0), 0, w[0], cap);
    assert SkipSpace(w, 0) == 0;
    RunHalted(t, w, 1, |w|, cap);
    var cs := Window(inner, off, cap);
    assert cs == [Chunk(0, 0)];
    assert SolidTo(cs, 1) == SolidTo(cs, 0) == [];
    assert w[1..] == inner[off + 1..];
    assert ClosesAt(w, 0, 0) && ClosesAt(inner, off, off);
  }

  /** Elements are never empty, so dropping the leading phantom is all that the filter does. */
  lemma {:induction false} SolidAll(cs: seq<Chunk>, n: nat)
    requires 1 <= n <= |cs| && cs[0].start == cs[0].end && forall k | 1 <= k < |cs| :: cs[k].start < cs[k].end
    ensures SolidTo(cs, n) == cs[1..n]
  {
    if n == 1 {
      assert SolidTo(cs, 0) == [];
    } else {
      SolidAll(cs, n - 1);
      assert cs[n - 1].start < cs[n - 1].end;
    }
  }

  ghost predicate NoneEmpty(cs: seq<Chunk>) {
    forall k | 0 <= k < |cs| :: cs[k].start < cs[k].end
  }

  lemma {:induction false} SolidEvery(cs: seq<Chunk>, n: nat)
    requires n <= |cs| && NoneEmpty(cs)
    ensures SolidTo(cs, n) == cs[..n]
  {
    if n > 0 {
      SolidEvery(cs, n - 1);
      assert cs[n - 1].start < cs[n - 1].end;
    }
  }

  lemma {:induction false} ElementsAreSolid(raw: bytes, i: nat, it: Items, start: nat)
    requires IsItems(Array, it) && ItemsAt(raw, i, it) && start <= i
    ensures NoneEmpty(Elements(it, i, start))
    decreases it
  {
    if it.More? {
      EntryFirstByte(raw, i, Array, it.first);
      var j := i + EntryLen(it.first);
      if it.rest.More? {
        ItemsAtParts(raw, i, it);
        ElementsAreSolid(raw, j + 1 + |it.before|, it.rest, j + 1);
      }
    }
  }

  /** Adjacent chunks are separated by exactly their comma. */
  lemma {:induction false} TilesAreGaps(w: bytes, first: nat, cs: seq<Chunk>, kept: seq<Chunk>, d: nat, any: bool)
    requires Tiled(w, first, cs) && d + |kept| == |cs| && kept == cs[d..]
    requires d == 0 ==> !any && first <= |w| && AllSpace(w[0..first])
    requires d == 1 ==> any && cs[0] == Chunk(0, 0)
    requires d <= 1
    ensures GapsOk(w, kept, any)
  {
    forall k | 0 <= k < |kept| ensures GapOk(w, kept, k, any) {
      assert Tiles(w, first, cs, d + k);
      if d + k > 0 {
        assert Tiles(w, first, cs, d + k - 1);
        assert CommaAt(w[kept[k].start - 1..kept[k].start], 0);
      }
    }
  }

  /** What a window must hold for the loop to go on behind its first `n` elements. */
  ghost predicate Holds(inner: bytes, off: nat, cap: nat, any: bool, elements: seq<Chunk>, n: nat)
    requires off < |inner|
  {
    var cs := Window(inner, off, cap);
    && 1 <= n <= |elements| && EndOf(cs) + off == elements[n - 1].end
    && Shift(Solid(cs), off) == elements[..n] && GapsOk(inner[off..], Solid(cs), any)
  }

  /** The first window holds the first elements. */
  lemma {:induction false} FirstWindow(inner: bytes, p: nat, it: Items, cap: nat)
    requires ArrayBody(inner, p, it) && it.More? && cap > 0
    ensures Holds(inner, 0, cap, false, Elements(it, p, p), Min(cap, Count(it)))
  {
    var w, all, n := inner[0..], Elements(it, p, p), Min(cap, Count(it));
    assert w == inner;
    SplitArray(inner, p, it, cap);
    SplitTiled(inner, cap);
    ElementsAreSolid(inner, p, it, p);
    var cs := Window(inner, 0, cap);
    assert cs == all[..n];
    SolidEvery(cs, n);
    assert cs[..n] == cs[0..] == cs;
    RestStarts(inner, p, Array, it);
    assert inner[0..p] == inner[..p];
    SkipSpaceStops(inner, 0, p);
    TilesAreGaps(w, p, cs, cs, 0, false);
    assert Shift(cs, 0) == cs;
  }

  lemma {:induction false} ResumedChunks(inner: bytes, off: nat, before: bytes, it: Items, end: nat, cap: nat)
    requires it.More? && StandsAt(inner, off, before, it, end) && cap > 1
    ensures off < |inner|
    ensures Window(inner, off, cap) == [Chunk(0, 0)] + Elements(it, 1 + |before|, 1)[..Min(cap - 1, Count(it))]
    ensures NoneEmpty(Elements(it, 1 + |before|, 1))
  {
    var w := inner[off..];
    RestAtWindow(inner, off, before, it);
    SplitResumed(w, it, before, cap);
    FirstOfStored(Elements(it, 1 + |before|, 1), cap, Min(cap - 1, Count(it)));
    ElementsAreSolid(w, 1 + |before|, it, 1);
  }

  lemma {:induction false} KeptOfResumed(cs: seq<Chunk>, all: seq<Chunk>, n: nat)
    requires 1 <= n <= |all| && cs == [Chunk(0, 0)] + all[..n] && NoneEmpty(all)
    ensures Solid(cs) == cs[1..] == all[..n]
  {
    forall k | 1 <= k < |cs| ensures cs[k].start < cs[k].end {
      assert cs[k] == all[k - 1];
    }
    SolidAll(cs, n + 1);
  }

  /** A resumed window holds its separating comma and the next elements. */
  lemma {:induction false} ResumedWindow(inner: bytes, off: nat, before: bytes, it: Items, end: nat, cap: nat)
    requires it.More? && StandsAt(inner, off, before, it, end) && cap > 1
    ensures off < |inner| && Holds(inner, off, cap, true, Remaining(off, before, it), Min(cap - 1, Count(it)))
  {
    var w, n, all := inner[off..], Min(cap - 1, Count(it)), Elements(it, 1 + |before|, 1);
    ResumedChunks(inner, off, before, it, end, cap);
    var cs := Window(inner, off, cap);
    KeptOfResumed(cs, all, n);
    SplitTiled(w, cap);
    TilesAreGaps(w, SkipSpace(w, 0), cs, all[..n], 1, true);
    ShiftedElements(it, before, off, n);
    assert EndOf(cs) == all[n - 1].end;
  }

  lemma {:induction false} ShiftedElements(it: Items, before: bytes, off: nat, n: nat)
    requires 1 <= n <= Count(it)
    ensures Shift(Elements(it, 1 + |before|, 1)[..n], off) == Remaining(off, before, it)[..n]
    ensures off + Elements(it, 1 + |before|, 1)[n - 1].end == Remaining(off, before, it)[n - 1].end
  {
    ElementsShift(it, 1 + |before|, 1, off);
  }

  lemma {:induction false} FirstOfStored(all: seq<Chunk>, cap: nat, n: nat)
    requires cap > 1 && n == Min(cap - 1, |all|)
    ensures Stored([], [Chunk(0, 0)] + all, cap) == [Chunk(0, 0)] + all[..n]
  {
    assert ([Chunk(0, 0)] + all)[..n + 1] == [Chunk(0, 0)] + all[..n];
  }

  /** From any point at which the loop stands, it accepts the remaining elements, each exactly once. */
  lemma {:induction false} Resume(inner: bytes, off: nat, before: bytes, it: Items, end: nat, done: seq<Chunk>,
                                  cap: nat, room: nat, accepts: bytes -> bool)
    requires StandsAt(inner, off, before, it, end) && off < |inner| && cap > 1
    requires done != [] && EndOf(done) == off && |done| + Count(it) <= room
    requires AllAccepted(inner, Remaining(off, before, it), accepts)
    ensures Drive(inner, off, done, Turns(inner, cap, room, accepts)) == Accepted(done + Remaining(off, before, it))
    decreases |inner| - off, 1
  {
    var all := Remaining(off, before, it);
    if it.End? {
      LastWindow(inner, off, cap);
      assert Turns(inner, cap, room, accepts)(off, done) == Finished;
      assert done + all == done;
    } else {
      ResumedWindow(inner, off, before, it, end, cap);
      AtLeastOne(it);
      GoOn(inner, off, off + 1 + |before|, it, off + 1, end, done, Min(cap - 1, Count(it)), cap, room, accepts);
    }
  }

  lemma {:induction false} AtLeastOne(it: Items)
    requires it.More?
    ensures Count(it) > 0
  {
  }

  lemma {:induction false} GoOn(inner: bytes, off: nat, i: nat, it: Items, start: nat, end: nat, done: seq<Chunk>,
                                n: nat, cap: nat, room: nat, accepts: bytes -> bool)
    requires off < |inner| && cap > 1 && IsItems(Array, it) && ItemsAt(inner, i, it) && i + ItemsLen(it) == end
    requires Is(inner, end, RBRACKET) && AllSpace(inner[end + 1..]) && |done| + Count(it) <= room
    requires Holds(inner, off, cap, done != [], Elements(it, i, start), n)
    requires AllAccepted(inner, Elements(it, i, start), accepts)
    ensures Drive(inner, off, done, Turns(inner, cap, room, accepts)) == Accepted(done + Elements(it, i, start))
    decreases |inner| - off, 0
  {
    var all := Elements(it, i, start);
    var next, before, rest := DropElements(inner, i, it, start, n, end);
    var more := done + all[..n];
    TurnGoes(inner, off, done, all, n, cap, room, accepts);
    DriveGoes(inner, off, done, next, more, Turns(inner, cap, room, accepts));
    RestAccepted(inner, all, n, accepts);
    Resume(inner, next, before, rest, end, more, cap, room, accepts);
    Rejoined(done, all, n);
  }

  lemma {:induction false} Rejoined(done: seq<Chunk>, all: seq<Chunk>, n: nat)
    requires n <= |all|
    ensures (done + all[..n]) + all[n..] == done + all
  {
  }

  lemma {:induction false} DriveGoes(inner: bytes, off: nat, done: seq<Chunk>, next: nat, more: seq<Chunk>,
                                     turn: (nat, seq<Chunk>) -> Turn)
    requires off < next <= |inner| && turn(off, done) == Go(next, more)
    ensures Drive(inner, off, done, turn) == Drive(inner, next, more, turn)
  {
  }

  lemma {:induction false} RestAccepted(inner: bytes, all: seq<Chunk>, n: nat, accepts: bytes -> bool)
    requires n <= |all| && AllAccepted(inner, all, accepts)
    ensures AllAccepted(inner, all[n..], accepts)
  {
  }

  lemma {:induction false} TurnGoes(inner: bytes, off: nat, done: seq<Chunk>, all: seq<Chunk>, n: nat, cap: nat,
                                    room: nat, accepts: bytes -> bool)
    requires off < |inner| && Holds(inner, off, cap, done != [], all, n) && |done| + |all| <= room
    requires AllAccepted(inner, all, accepts)
    ensures Turns(inner, cap, room, accepts)(off, done) == Go(all[n - 1].end, done + all[..n])
    ensures EndOf(done + all[..n]) == all[n - 1].end > off
  {
    var kept := Solid(Window(inner, off, cap));
    assert |kept| == |Shift(kept, off)| == n;
    assert AllAccepted(inner, all[..n], accepts);
    assert TurnAt(inner, off, done, cap, room, accepts) == Go(all[n - 1].end, done + all[..n]);
  }

  /** For any chunk buffer of at least two entries and a destination with room, a well-formed array whose elements all
      parse is accepted, and every element is accepted exactly once and in order. */
  lemma {:induction false} WellFormedIsAccepted(raw: bytes, p: nat, it: Items, cap: nat, room: nat,
                                                accepts: bytes -> bool)
    requires Inside(raw).Some? && ArrayBody(Inner(raw), p, it) && AllSpace(Inner(raw)[p + ItemsLen(it) + 1..])
    requires cap > 1 && room > 0 && room >= Count(it)
    requires AllAccepted(Inner(raw), Elements(it, p, p), accepts)
    ensures Accept(raw, cap, room, accepts) == Accepted(Elements(it, p, p))
  {
    var inner := Inner(raw);
    if it.End? {
      EmptyArray(inner, p, cap);
      assert Turns(inner, cap, room, accepts)(0, []) == Finished;
    } else {
      FirstWindow(inner, p, it, cap);
      AtLeastOne(it);
      GoOn(inner, 0, p, it, p, p + ItemsLen(it), [], Min(cap, Count(it)), cap, room, accepts);
      assert [] + Elements(it, p, p) == Elements(it, p, p);
    }
  }

  lemma {:induction false} EmptyArray(inner: bytes, p: nat, cap: nat)
    requires ArrayBody(inner, p, End) && AllSpace(inner[p + 1..]) && cap > 0
    ensures Solid(Window(inner, 0, cap)) == [] && Closes(inner[0..], 0) && Closes(inner, 0)
  {
    assert inner[0..] == inner;
    SplitEmptyArray(inner, p, cap);
    var cs := Window(inner, 0, cap);
    assert cs == [Chunk(p, p)];
    assert SolidTo(cs, 1) == SolidTo(cs, 0) == [];
    assert inner[0..p] == inner[..p];
    assert ClosesAt(inner, 0, p);
  }
}
