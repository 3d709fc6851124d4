/** Arrays that are cut off inside their last element, or in front of it: what the splitter finds, and what the tolerant
    reader keeps and reports. */
module CutArrays {
  import opened Bytes
  import opened Grammar
  import opened StrictGrammar
  import opened StrictSkip
  import opened Splitter
  import opened ArrayElements
  import opened Windows
  import opened Slices
  import opened WellFormedArrays
  import opened TolerantSlices
  import opened TolerantArrays

  // ----- where an array can be cut -----

  /** The elements but the last one: those whose comma is there. */
  function Terminated(it: Items, i: nat, start: nat): seq<Chunk>
    requires it.More?
  {
    if it.rest.End? then []
    else
      var j := i + EntryLen(it.first);
      [Chunk(start, j)] + Terminated(it.rest, j + 1 + |it.before|, j + 1)
  }

  /** Where the last element begins. */
  function LastStart(it: Items, i: nat): (k: nat)
    requires it.More?
    ensures i <= k
  {
    if it.rest.End? then i else LastStart(it.rest, i + EntryLen(it.first) + 1 + |it.before|)
  }

  /** The position behind the last comma; or the given one, if there is no comma. */
  function LastOpen(it: Items, i: nat, behind: nat): nat
    requires it.More?
  {
    if it.rest.End? then behind
    else
      var j := i + EntryLen(it.first);
      LastOpen(it.rest, j + 1 + |it.before|, j + 1)
  }

  /** `inner` is what is left of the complete array `full` when everything from `inner`'s end on is lost: the bracket,
      and the last element or some of it. */
  ghost predicate CutFrom(inner: bytes, full: bytes, p: nat, it: Items) {
    && it.More? && ArrayBody(full, p, it) && |full| == p + ItemsLen(it) + 1
    && inner <= full && LastOpen(it, p, 0) <= |inner| < |full|
  }

  lemma {:induction false} TerminatedIs(it: Items, i: nat, start: nat)
    requires it.More?
    ensures |Terminated(it, i, start)| == Count(it) - 1
    ensures Terminated(it, i, start) == Elements(it, i, start)[..Count(it) - 1]
    decreases it
  {
    if it.rest.More? {
      var j := i + EntryLen(it.first);
      var rest := Elements(it.rest, j + 1 + |it.before|, j + 1);
      TerminatedIs(it.rest, j + 1 + |it.before|, j + 1);
      assert Elements(it, i, start)[..Count(it) - 1] == [Chunk(start, j)] + rest[..Count(it.rest) - 1];
    }
  }

  // ----- what the splitter finds -----

  /** Nothing is stored between two states with the same chunks. */
  lemma {:induction false} NothingBetween(s: State, raw: bytes, i: nat, e: nat, end: nat, cap: nat)
    requires i <= e <= end <= |raw| && Run(s, raw, i, end, cap).chunks == s.chunks
    ensures Run(s, raw, i, e, cap).chunks == s.chunks
  {
    RunGrows(s, raw, i, e, cap);
    RunSplit(s, raw, i, e, end, cap);
    RunGrows(Run(s, raw, i, e, cap), raw, e, end, cap);
  }

  /** A run over whitespace and the last element, as far as it goes, stores nothing. */
  lemma {:induction false} RunLast(s: State, raw: bytes, i: nat, before: bytes, it: Items, e: nat, cap: nat)
    requires it.More? && it.rest.End? && IsItems(Array, it) && At(raw, i, before) && AllSpace(before)
    requires ItemsAt(raw, i + |before|, it) && Ready(s) && i <= e <= i + |before| + ItemsLen(it)
    ensures e <= |raw| && Run(s, raw, i, e, cap).chunks == s.chunks
  {
    var k := i + |before|;
    ItemsAtParts(raw, k, it);
    var end := k + EntryLen(it.first);
    RunText(s, raw, i, before, cap);
    RunEntry(s, raw, k, Array, it.first, cap);
    RunSplit(s, raw, i, k, end, cap);
    NothingBetween(s, raw, i, e, end, cap);
  }

  /** A run over the elements that stops inside the last one, or behind the last comma, stores all but that one. */
  lemma {:induction false} RunTerminated(s: State, raw: bytes, i: nat, before: bytes, it: Items, e: nat, cap: nat)
    requires it.More? && IsItems(Array, it) && At(raw, i, before) && AllSpace(before) && ItemsAt(raw, i + |before|, it)
    requires Ready(s) && s.depth == 0 && |s.chunks| <= cap
    requires LastOpen(it, i + |before|, i) <= e <= i + |before| + ItemsLen(it)
    ensures i <= e <= |raw|
    ensures Run(s, raw, i, e, cap).chunks == Stored(s.chunks, Terminated(it, i + |before|, s.start), cap)
    decreases it
  {
    if it.rest.End? {
      RunLast(s, raw, i, before, it, e, cap);
      assert s.chunks + [] == s.chunks;
    } else {
      var t, j := RunFirstOf(s, raw, i, before, it, e, cap);
      var rest := Terminated(it.rest, j + 1 + |it.before|, j + 1);
      if t.halted {
        FullStored(s.chunks, Chunk(s.start, j), rest, cap);
      } else {
        RunTerminated(t, raw, j + 1, it.before, it.rest, e, cap);
        StoredOneMore(s.chunks, Chunk(s.start, j), rest, cap);
      }
    }
  }

  /** The run to `e` by way of the comma behind the first element, at `j`. */
  lemma {:induction false} RunFirstOf(s: State, raw: bytes, i: nat, before: bytes, it: Items, e: nat, cap: nat)
    returns (t: State, j: nat)
    requires it.More? && it.rest.More? && IsItems(Array, it) && At(raw, i, before) && AllSpace(before)
    requires ItemsAt(raw, i + |before|, it) && Ready(s) && s.depth == 0 && |s.chunks| <= cap
    requires LastOpen(it, i + |before|, i) <= e <= i + |before| + ItemsLen(it)
    ensures j == i + |before| + EntryLen(it.first) && i <= j < e <= |raw| && At(raw, j + 1, it.before)
    ensures AllSpace(it.before) && ItemsAt(raw, j + 1 + |it.before|, it.rest) == true
    ensures IsItems(Array, it.rest) == true
    ensures LastOpen(it.rest, j + 1 + |it.before|, j + 1) <= e <= j + 1 + |it.before| + ItemsLen(it.rest)
    ensures if t.halted then Run(s, raw, i, e, cap) == t else Run(s, raw, i, e, cap) == Run(t, raw, j + 1, e, cap)
    ensures PastComma(s, t, j, cap) == true
  {
    j := i + |before| + EntryLen(it.first);
    FitsBehind(raw, i + |before|, it, i, e);
    t := RunOver(s, raw, i, before, it, cap);
    RunByWay(s, raw, i, j + 1, e, cap, t);
  }

  lemma {:induction false} RunByWay(s: State, raw: bytes, i: nat, m: nat, e: nat, cap: nat, t: State)
    requires i <= m <= e <= |raw| && t == Run(s, raw, i, m, cap)
    ensures Run(s, raw, i, e, cap) == if t.halted then t else Run(t, raw, m, e, cap)
  {
    RunSplit(s, raw, i, m, e, cap);
    if t.halted {
      RunHalted(t, raw, m, e, cap);
    }
  }

  /** Behind the first element and its comma. */
  lemma {:induction false} FitsBehind(raw: bytes, k: nat, it: Items, behind: nat, e: nat)
    requires it.More? && it.rest.More? && IsItems(Array, it) && ItemsAt(raw, k, it)
    requires LastOpen(it, k, behind) <= e <= k + ItemsLen(it)
    ensures var j := k + EntryLen(it.first);
      && j + 1 <= e <= |raw| && At(raw, j + 1, it.before) && AllSpace(it.before)
      && ItemsAt(raw, j + 1 + |it.before|, it.rest) == true && IsItems(Array, it.rest) == true
      && LastOpen(it.rest, j + 1 + |it.before|, j + 1) <= e <= j + 1 + |it.before| + ItemsLen(it.rest)
  {
    var j := k + EntryLen(it.first);
    OpensLater(it.rest, j + 1 + |it.before|, j + 1);
    ItemsFit(raw, k, it);
    ItemsAtParts(raw, k, it);
  }

  lemma {:induction false} ItemsFit(raw: bytes, i: nat, it: Items)
    requires IsItems(Array, it) && ItemsAt(raw, i, it)
    ensures i + ItemsLen(it) <= |raw|
    decreases it
  {
    if it.More? {
      ItemsAtParts(raw, i, it);
      if it.rest.More? {
        ItemsFit(raw, i + EntryLen(it.first) + 1 + |it.before|, it.rest);
      } else {
        EntryAtText(raw, i, it.first);
      }
    }
  }

  lemma {:induction false} OpensLater(it: Items, i: nat, behind: nat)
    requires it.More? && behind <= i
    ensures behind <= LastOpen(it, i, behind)
    decreases it
  {
    if it.rest.More? {
      var j := i + EntryLen(it.first);
      OpensLater(it.rest, j + 1 + |it.before|, j + 1);
    }
  }

  /** What the comma at `j` does to a state at depth 0. */
  ghost predicate PastComma(s: State, t: State, j: nat, cap: nat) {
    if |s.chunks| == cap then t.halted && t.chunks == s.chunks
    else
      && t.chunks == s.chunks + [Chunk(s.start, j)] && (t.halted <==> |t.chunks| == cap)
      && (!t.halted ==> Ready(t) && t.depth == 0 && t.start == j + 1)
  }

  /** Over the first element and its comma. */
  lemma {:induction false} RunOver(s: State, raw: bytes, i: nat, before: bytes, it: Items, cap: nat)
    returns (t: State)
    requires it.More? && it.rest.More? && IsItems(Array, it) && At(raw, i, before) && AllSpace(before)
    requires ItemsAt(raw, i + |before|, it) && Ready(s) && s.depth == 0 && |s.chunks| <= cap
    ensures var j := i + |before| + EntryLen(it.first);
      j < |raw| && t == Run(s, raw, i, j + 1, cap) && PastComma(s, t, j, cap) == true
  {
    var k := i + |before|;
    var j := k + EntryLen(it.first);
    ItemsAtParts(raw, k, it);
    RunText(s, raw, i, before, cap);
    RunEntry(s, raw, k, Array, it.first, cap);
    RunSplit(s, raw, i, k, j, cap);
    RunSplit(s, raw, i, j, j + 1, cap);
    t := Step(s, j, raw[j], cap);
    assert Run(t, raw, j + 1, j + 1, cap) == t;
  }

  lemma {:induction false} FullStored(before: seq<Chunk>, c: Chunk, rest: seq<Chunk>, cap: nat)
    requires |before| == cap || |before| + 1 == cap
    ensures Stored(before, [c] + rest, cap) == if |before| == cap then before else before + [c]
  {
    assert ([c] + rest)[..0] == [] && ([c] + rest)[..1] == [c];
  }

  /** The chunks of a cut array: its terminated elements, as far as there is room. */
  lemma {:induction false} SplitCut(inner: bytes, full: bytes, p: nat, it: Items, cap: nat)
    requires CutFrom(inner, full, p, it)
    ensures Split(inner, cap).chunks == Stored([], Terminated(it, p, p), cap)
    ensures p <= |inner| ==> SkipSpace(inner, 0) == p
  {
    var n := |inner|;
    OpensLater(it, p, 0);
    if n < p {
      CutInSpace(inner, full, p, it);
      assert Stored([], [], cap) == [];
    } else {
      CutAtFirst(inner, full, p, it);
      RunSame(Initial(p), inner, full, p, n, cap);
      OpenAtStart(it, p);
      RunTerminated(Initial(p), full, p, [], it, n, cap);
    }
  }

  lemma {:induction false} OpenAtStart(it: Items, p: nat)
    requires it.More?
    ensures LastOpen(it, p, p) == if it.rest.End? then p else LastOpen(it, p, 0)
    ensures it.rest.More? ==> p < LastOpen(it, p, 0)
  {
    if it.rest.More? {
      var j := p + EntryLen(it.first);
      OpensLater(it.rest, j + 1 + |it.before|, j + 1);
    }
  }

  lemma {:induction false} CutInSpace(inner: bytes, full: bytes, p: nat, it: Items)
    requires CutFrom(inner, full, p, it) && |inner| < p
    ensures it.rest.End? && AllSpace(inner) && SkipSpace(inner, 0) == |inner|
  {
    OpenAtStart(it, p);
    assert forall k | 0 <= k < |inner| :: inner[k] == full[..p][k];
    assert inner[0..|inner|] == inner;
    SkipSpaceStops(inner, 0, |inner|);
  }

  lemma {:induction false} CutAtFirst(inner: bytes, full: bytes, p: nat, it: Items)
    requires CutFrom(inner, full, p, it) && p <= |inner|
    ensures SkipSpace(inner, 0) == p && AllSpace(inner[0..p]) && (p < |inner| ==> StartsValue(inner[p]))
  {
    RestStarts(full, p, Array, it);
    assert inner[0..p] == full[..p];
    SkipSpaceStops(inner, 0, p);
  }

  /** The chunks of a window that resumes at a comma of a cut array. */
  lemma {:induction false} SplitCutResumed(w: bytes, whole: bytes, before: bytes, it: Items, cap: nat)
    requires it.More? && IsItems(Array, it) && AllSpace(before) && RestAt(whole, 0, before, it) && w <= whole
    requires LastOpen(it, 1 + |before|, 1) <= |w| <= 1 + |before| + ItemsLen(it) && cap > 0
    ensures Split(w, cap).chunks == Stored([], [Chunk(0, 0)] + Terminated(it, 1 + |before|, 1), cap)
    ensures SkipSpace(w, 0) == 0
  {
    OpensLater(it, 1 + |before|, 1);
    assert w[0] == COMMA && SkipSpace(w, 0) == 0;
    var s, n := Initial(0), |w|;
    var t := Step(s, 0, COMMA, cap);
    RunSame(s, w, whole, 0, n, cap);
    assert Split(w, cap) == Run(t, whole, 1, n, cap);
    var rest := Terminated(it, 1 + |before|, 1);
    ItemsFit(whole, 1 + |before|, it);
    if t.halted {
      RunHalted(t, whole, 1, n, cap);
      FullStored([], Chunk(0, 0), rest, cap);
    } else {
      RunTerminated(t, whole, 1, before, it, n, cap);
      StoredOneMore([], Chunk(0, 0), rest, cap);
    }
    assert [] + [Chunk(0, 0)] == [Chunk(0, 0)];
  }

  // ----- windows of a cut array -----

  lemma {:induction false} CutFirstChunks(inner: bytes, full: bytes, p: nat, it: Items, cap: nat)
    requires CutFrom(inner, full, p, it) && it.rest.More? && cap > 0
    ensures |inner| > 0 && p <= |inner| && AllSpace(inner[0..p]) && NoneEmpty(Elements(it, p, p)) == true
    ensures Count(it) > 1
    ensures Window(inner, 0, cap) == Elements(it, p, p)[..Min(cap, Count(it) - 1)]
    ensures Tiled(inner, p, Window(inner, 0, cap)) == true
  {
    assert inner[0..] == inner;
    AtLeastOne(it.rest);
    OpenAtStart(it, p);
    SplitCut(inner, full, p, it, cap);
    TerminatedIs(it, p, p);
    CutAtFirst(inner, full, p, it);
    SplitTiled(inner, cap);
    ElementsAreSolid(full, p, it, p);
    WholeStored(Terminated(it, p, p), cap);
  }

  lemma {:induction false} WholeStored(cs: seq<Chunk>, cap: nat)
    ensures Stored([], cs, cap) == cs[..Min(cap, |cs|)]
  {
  }

  /** The first window holds terminated elements. */
  lemma {:induction false} CutFirstWindow(inner: bytes, full: bytes, p: nat, it: Items, cap: nat)
    requires CutFrom(inner, full, p, it) && it.rest.More? && cap > 0
    ensures |inner| > 0 && Count(it) > 1
    ensures Holds(inner, 0, cap, false, Elements(it, p, p), Min(cap, Count(it) - 1)) == true
  {
    CutFirstChunks(inner, full, p, it, cap);
    HoldsAtFront(inner, p, cap, Elements(it, p, p), Min(cap, Count(it) - 1));
  }

  /** A window at the front that holds elements without anything between them but their commas. */
  lemma {:induction false} HoldsAtFront(inner: bytes, p: nat, cap: nat, all: seq<Chunk>, n: nat)
    requires 0 < |inner| && p <= |inner| && AllSpace(inner[0..p]) && NoneEmpty(all) && 0 < n <= |all|
    requires Window(inner, 0, cap) == all[..n] && Tiled(inner, p, Window(inner, 0, cap))
    ensures Holds(inner, 0, cap, false, all, n) == true
  {
    var cs := Window(inner, 0, cap);
    assert inner[0..] == inner;
    SolidEvery(cs, n);
    assert cs[..n] == cs[0..] == cs;
    TilesAreGaps(inner, p, cs, cs, 0, false);
    assert Shift(cs, 0) == cs;
  }

  /** What is left of the whole array at a window, and of the cut one. */
  ghost predicate CutStands(inner: bytes, full: bytes, off: nat, before: bytes, it: Items) {
    && it.More? && off < |full| && StandsAt(full, off, before, it, |full| - 1) && inner <= full
    && LastOpen(it, off + 1 + |before|, off + 1) <= |inner| < |full|
  }

  lemma {:induction false} OpenShift(it: Items, i: nat, behind: nat, d: nat)
    requires it.More?
    ensures LastOpen(it, i + d, behind + d) == LastOpen(it, i, behind) + d
    decreases it
  {
    if it.rest.More? {
      var j := i + EntryLen(it.first);
      assert j + d == i + d + EntryLen(it.first);
      OpenShift(it.rest, j + 1 + |it.before|, j + 1, d);
    }
  }

  /** The chunks of a resumed window of a cut array. */
  lemma {:induction false} CutChunks(inner: bytes, full: bytes, off: nat, before: bytes, it: Items, cap: nat)
    requires CutStands(inner, full, off, before, it) && cap > 1
    ensures off < |inner| && SkipSpace(inner[off..], 0) == 0 && inner[off] == COMMA
    ensures Window(inner, off, cap) == [Chunk(0, 0)] + Elements(it, 1 + |before|, 1)[..Min(cap - 1, Count(it) - 1)]
    ensures NoneEmpty(Elements(it, 1 + |before|, 1))
  {
    OpensLater(it, off + 1 + |before|, off + 1);
    var w, whole := inner[off..], full[off..];
    RestAtWindow(full, off, before, it);
    OpenShift(it, 1 + |before|, 1, off);
    assert w <= whole;
    SplitCutResumed(w, whole, before, it, cap);
    TerminatedIs(it, 1 + |before|, 1);
    FirstOfStored(Terminated(it, 1 + |before|, 1), cap, Min(cap - 1, Count(it) - 1));
    ElementsAreSolid(whole, 1 + |before|, it, 1);
  }

  /** A resumed window of a cut array holds its comma and terminated elements. */
  lemma {:induction false} CutNextWindow(inner: bytes, full: bytes, off: nat, before: bytes, it: Items, cap: nat)
    requires CutStands(inner, full, off, before, it) && it.rest.More? && cap > 1
    ensures off < |inner|
    ensures Holds(inner, off, cap, true, Remaining(off, before, it), Min(cap - 1, Count(it) - 1))
  {
    AtLeastOne(it.rest);
    CutChunks(inner, full, off, before, it, cap);
    var w, n, all := inner[off..], Min(cap - 1, Count(it) - 1), Elements(it, 1 + |before|, 1);
    var cs := Window(inner, off, cap);
    KeptOfResumed(cs, all, n);
    SplitTiled(w, cap);
    TilesAreGaps(w, SkipSpace(w, 0), cs, all[..n], 1, true);
    ShiftedElements(it, before, off, n);
    assert EndOf(cs) == all[n - 1].end;
  }

  /** In front of the last element the window holds nothing but its comma. */
  lemma {:induction false} CutLastWindow(inner: bytes, full: bytes, off: nat, before: bytes, it: Items, cap: nat)
    requires CutStands(inner, full, off, before, it) && it.rest.End? && cap > 1
    ensures off < |inner| && Solid(Window(inner, off, cap)) == [] && inner[off] == COMMA
  {
    CutChunks(inner, full, off, before, it, cap);
    var cs := Window(inner, off, cap);
    assert cs == [Chunk(0, 0)];
    assert SolidTo(cs, 1) == SolidTo(cs, 0) == [];
  }

  // ----- the window loop -----

  lemma {:induction false} OpenIsEnd(it: Items, i: nat, start: nat, behind: nat)
    requires it.More?
    ensures Count(it) > 0 && (it.rest.End? <==> Count(it) == 1)
    ensures LastOpen(it, i, behind) ==
            if it.rest.End? then behind else Elements(it, i, start)[Count(it) - 2].end + 1
    decreases it
  {
    AtLeastOne(it);
    if it.rest.More? {
      var j := i + EntryLen(it.first);
      OpenIsEnd(it.rest, j + 1 + |it.before|, j + 1, j + 1);
    }
  }

  /** The loop stands in front of element `b` of a cut array. */
  ghost predicate CutAtElement(inner: bytes, full: bytes, off: nat, before: bytes, it: Items, all: seq<Chunk>, b: nat) {
    && CutStands(inner, full, off, before, it) && 0 < b < |all| && off == all[b - 1].end
    && RestIs(all, b, Remaining(off, before, it))
  }

  /** Behind `n` of the elements it stands so again. */
  lemma {:induction false} CutDrops(inner: bytes, full: bytes, i: nat, it: Items, start: nat, all: seq<Chunk>, b: nat,
                                    n: nat)
    returns (off: nat, before: bytes, rest: Items)
    requires it.More? && IsItems(Array, it) && ItemsAt(full, i, it) && i + ItemsLen(it) + 1 == |full|
    requires full[|full| - 1] == RBRACKET && inner <= full && |inner| < |full|
    requires 0 < n < Count(it) && RestIs(all, b, Elements(it, i, start))
    requires LastOpen(it, i, start) <= |inner|
    ensures CutAtElement(inner, full, off, before, rest, all, b + n)
  {
    var end := |full| - 1;
    assert full[end + 1..] == [];
    off, before, rest := DropHeld(full, i, it, start, end, all, b, n);
    OpenIsEnd(it, i, start, start);
    assert |Remaining(off, before, rest)| == |all| - (b + n) > 0;
    OpenIsEnd(rest, off + 1 + |before|, off + 1, off + 1);
    LastEnds(all, b, Elements(it, i, start), b + n, Remaining(off, before, rest));
  }

  lemma {:induction false} LastEnds(all: seq<Chunk>, b: nat, left: seq<Chunk>, c: nat, more: seq<Chunk>)
    requires RestIs(all, b, left) && RestIs(all, c, more) && b < c
    ensures |left| > 1 ==> left[|left| - 2] == all[|all| - 2]
    ensures |more| > 1 ==> more[|more| - 2] == all[|all| - 2]
    ensures |more| == 1 ==> all[c - 1] == all[|all| - 2]
  {
  }

  lemma {:induction false} CutHolds(inner: bytes, full: bytes, off: nat, before: bytes, it: Items, all: seq<Chunk>,
                                    b: nat, n: nat, cap: nat)
    returns (next: nat, ws: bytes, rest: Items)
    requires CutAtElement(inner, full, off, before, it, all, b) && it.rest.More? && cap > 1
    requires n == Min(cap - 1, Count(it) - 1)
    ensures off < |inner| && b + n < |all| && n > 0 && HoldsFrom(inner, off, cap, all, b, n) == true
    ensures CutAtElement(inner, full, next, ws, rest, all, b + n) == true && (rest.rest.More? ==> n == cap - 1)
    ensures next <= |inner| && (rest.rest.End? ==> b + n == |all| - 1) && (n == cap - 1 || b + n == |all| - 1)
  {
    CutLeft(inner, full, off, before, it, all, b);
    CutHeld(inner, full, off, before, it, all, b, n, cap);
    next, ws, rest := CutDrops(inner, full, off + 1 + |before|, it, off + 1, all, b, n);
    CutLeft(inner, full, next, ws, rest, all, b + n);
  }

  lemma {:induction false} CutHeld(inner: bytes, full: bytes, off: nat, before: bytes, it: Items, all: seq<Chunk>,
                                   b: nat, n: nat, cap: nat)
    requires CutAtElement(inner, full, off, before, it, all, b) && it.rest.More? && cap > 1
    requires n == Min(cap - 1, Count(it) - 1)
    ensures off < |inner| && n > 0 && HoldsFrom(inner, off, cap, all, b, n) == true
  {
    OpenIsEnd(it, off + 1 + |before|, off + 1, off + 1);
    CutNextWindow(inner, full, off, before, it, cap);
    HeldRanges(inner, off, cap, Remaining(off, before, it), all, b, n);
  }

  /** The first window holds elements, and behind them the loop stands in front of the next one. */
  lemma {:induction false} CutFirstHolds(inner: bytes, full: bytes, p: nat, it: Items, all: seq<Chunk>, n: nat,
      cap: nat)
    returns (next: nat, ws: bytes, rest: Items)
    requires CutFrom(inner, full, p, it) && it.rest.More? && cap > 1 && all == Elements(it, p, p)
    requires |all| > 1 && n == Min(cap, |all| - 1)
    ensures inner != [] && 0 < n < |all| && HoldsFrom(inner, 0, cap, all, 0, n) == true
    ensures CutAtElement(inner, full, next, ws, rest, all, n) == true && next == all[n - 1].end <= |inner|
    ensures (rest.rest.More? ==> Begins(n, cap)) && (n == cap || n == |all| - 1)
  {
    CutFirstWindow(inner, full, p, it, cap);
    HeldRanges(inner, 0, cap, all, all, 0, n);
    OpenAtStart(it, p);
    next, ws, rest := CutDrops(inner, full, p, it, p, all, 0, n);
    CutLeft(inner, full, next, ws, rest, all, n);
    WindowStarts(0, n, cap);
  }

  /** How many elements are left. */
  lemma {:induction false} CutLeft(inner: bytes, full: bytes, off: nat, before: bytes, it: Items, all: seq<Chunk>,
                                   b: nat)
    requires CutAtElement(inner, full, off, before, it, all, b)
    ensures off < |inner| && Count(it) == |all| - b && (it.rest.End? <==> b == |all| - 1)
  {
    OpensLater(it, off + 1 + |before|, off + 1);
    OpenIsEnd(it, off + 1 + |before|, off + 1, off + 1);
    assert |Remaining(off, before, it)| == |all| - b;
  }

  /** From a window of a cut array on: all terminated elements are read, and then the tail stage is reached. */
  lemma {:induction false} CutResume(inner: bytes, full: bytes, off: nat, before: bytes, it: Items, all: seq<Chunk>,
                                     b: nat, cap: nat, room: nat, accepts: bytes -> bool, advance: Advance,
                                     finish: Finish)
    requires CutAtElement(inner, full, off, before, it, all, b) && |all| <= room && cap > 1
    requires (it.rest.More? ==> Begins(b, cap)) && DecideMoves(advance, finish, inner, cap, room, accepts)
    ensures ReadFrom(|inner|, off, off, After(inner, all, b, cap, accepts), advance, finish) ==
            finish(all[|all| - 2].end, After(inner, all, |all| - 1, cap, accepts))
    decreases |all| - b
  {
    if it.rest.End? {
      CutEnds(inner, full, off, before, it, all, b, cap, room, accepts, advance, finish);
    } else {
      var next, ws, rest :=
        CutPasses(inner, full, off, before, it, all, b, cap, room, accepts, advance, finish);
      CutResume(inner, full, next, ws, rest, all, b + Min(cap - 1, Count(it) - 1), cap, room, accepts, advance, finish);
    }
  }

  lemma {:induction false} CutEnds(inner: bytes, full: bytes, off: nat, before: bytes, it: Items, all: seq<Chunk>,
                                   b: nat, cap: nat, room: nat, accepts: bytes -> bool, advance: Advance,
                                   finish: Finish)
    requires CutAtElement(inner, full, off, before, it, all, b) && cap > 1 && it.rest.End?
    requires DecideMoves(advance, finish, inner, cap, room, accepts)
    ensures b == |all| - 1
    ensures ReadFrom(|inner|, off, off, After(inner, all, b, cap, accepts), advance, finish) ==
            finish(all[|all| - 2].end, After(inner, all, |all| - 1, cap, accepts))
  {
    CutLastWindow(inner, full, off, before, it, cap);
    OpenIsEnd(it, off + 1 + |before|, off + 1, off + 1);
    assert |Remaining(off, before, it)| == 1;
    var r := After(inner, all, b, cap, accepts);
    assert advance(off, r) == MoveAt(inner, off, r, cap, room, accepts) == Ends;
    ReadEnds(|inner|, off, off, r, advance, finish);
  }

  lemma {:induction false} CutPasses(inner: bytes, full: bytes, off: nat, before: bytes, it: Items, all: seq<Chunk>,
                                     b: nat, cap: nat, room: nat, accepts: bytes -> bool, advance: Advance,
                                     finish: Finish)
    returns (next: nat, ws: bytes, rest: Items)
    requires CutAtElement(inner, full, off, before, it, all, b) && |all| <= room && cap > 1 && it.rest.More?
    requires Begins(b, cap) && DecideMoves(advance, finish, inner, cap, room, accepts)
    ensures var n := Min(cap - 1, Count(it) - 1);
      && 0 < n && b + n < |all| && CutAtElement(inner, full, next, ws, rest, all, b + n) == true
      && (rest.rest.More? ==> Begins(b + n, cap))
      && ReadFrom(|inner|, off, off, After(inner, all, b, cap, accepts), advance, finish) ==
         ReadFrom(|inner|, next, next, After(inner, all, b + n, cap, accepts), advance, finish)
  {
    var n := Min(cap - 1, Count(it) - 1);
    next, ws, rest := CutHolds(inner, full, off, before, it, all, b, n, cap);
    KeptAtMost(inner, all, b, cap, accepts);
    StepTolerant(inner, off, off, all, b, n, cap, room, accepts, advance, finish);
    WindowStarts(b, n, cap);
  }

  /** Where the tail stage begins: at the last comma, or at the front. */
  function TailFrom(it: Items, p: nat): nat
    requires it.More?
  {
    if Count(it) < 2 then 0 else Elements(it, p, p)[Count(it) - 2].end
  }

  /** All windows of a cut array. */
  lemma {:induction false} CutReads(inner: bytes, full: bytes, p: nat, it: Items, cap: nat, room: nat,
                                    accepts: bytes -> bool, advance: Advance, finish: Finish)
    requires CutFrom(inner, full, p, it) && cap > 1 && room >= Count(it)
    requires DecideMoves(advance, finish, inner, cap, room, accepts)
    ensures Count(it) > 0
    ensures var all := Elements(it, p, p);
      ReadFrom(|inner|, 0, 0, After(inner, all, 0, cap, accepts), advance, finish) ==
      finish(TailFrom(it, p), After(inner, all, Count(it) - 1, cap, accepts))
  {
    OpenIsEnd(it, p, p, 0);
    var all, r := Elements(it, p, p), After(inner, Elements(it, p, p), 0, cap, accepts);
    if it.rest.End? {
      if 0 < |inner| {
        CutAlone(inner, full, p, it, cap);
        assert advance(0, r) == MoveAt(inner, 0, r, cap, room, accepts) == Ends;
        ReadEnds(|inner|, 0, 0, r, advance, finish);
      }
    } else {
      var next, ws, rest := CutPassesFirst(inner, full, p, it, all, cap, room, accepts, advance, finish);
      CutResume(inner, full, next, ws, rest, all, Min(cap, Count(it) - 1), cap, room, accepts, advance, finish);
    }
  }

  lemma {:induction false} CutAlone(inner: bytes, full: bytes, p: nat, it: Items, cap: nat)
    requires CutFrom(inner, full, p, it) && it.rest.End? && |inner| > 0
    ensures Solid(Window(inner, 0, cap)) == []
  {
    assert inner[0..] == inner;
    SplitCut(inner, full, p, it, cap);
    assert Stored([], [], cap) == [];
  }

  lemma {:induction false} CutPassesFirst(inner: bytes, full: bytes, p: nat, it: Items, all: seq<Chunk>, cap: nat,
                                          room: nat, accepts: bytes -> bool, advance: Advance, finish: Finish)
    returns (next: nat, ws: bytes, rest: Items)
    requires CutFrom(inner, full, p, it) && it.rest.More? && cap > 1 && all == Elements(it, p, p) && |all| <= room
    requires DecideMoves(advance, finish, inner, cap, room, accepts)
    ensures Count(it) > 1
    ensures var n := Min(cap, Count(it) - 1);
      && CutAtElement(inner, full, next, ws, rest, all, n) == true && (rest.rest.More? ==> Begins(n, cap))
      && ReadFrom(|inner|, 0, 0, After(inner, all, 0, cap, accepts), advance, finish) ==
         ReadFrom(|inner|, next, next, After(inner, all, n, cap, accepts), advance, finish)
  {
    OpenIsEnd(it, p, p, 0);
    var n := Min(cap, Count(it) - 1);
    next, ws, rest := CutFirstHolds(inner, full, p, it, all, n, cap);
    KeptAtMost(inner, all, 0, cap, accepts);
    StepTolerant(inner, 0, 0, all, 0, n, cap, room, accepts, advance, finish);
  }

  // ----- the tail -----

  /** Between the last comma and the last element there is whitespace. */
  lemma {:induction false} LastSpace(full: bytes, i: nat, it: Items, behind: nat)
    requires it.More? && IsItems(Array, it) && ItemsAt(full, i, it) && Blank(full, behind, i)
    ensures Blank(full, LastOpen(it, i, behind), LastStart(it, i)) == true
    ensures it.rest.More? ==> 0 < LastOpen(it, i, behind) && full[LastOpen(it, i, behind) - 1] == COMMA
    decreases it
  {
    if it.rest.More? {
      var j := i + EntryLen(it.first);
      SpaceBefore(full, i, it);
      LastSpace(full, j + 1 + |it.before|, it.rest, j + 1);
    }
  }

  lemma {:induction false} SpaceBefore(full: bytes, i: nat, it: Items)
    requires it.More? && it.rest.More? && IsItems(Array, it) && ItemsAt(full, i, it)
    ensures var j := i + EntryLen(it.first);
      var k := j + 1 + |it.before|;
      && k <= |full| && full[j] == COMMA && Blank(full, j + 1, k)
      && IsItems(Array, it.rest) == true && ItemsAt(full, k, it.rest) == true
  {
    ItemsAtParts(full, i, it);
    var j := i + EntryLen(it.first);
    var k := j + 1 + |it.before|;
    RestStarts(full, k, Array, it.rest);
    forall m | j + 1 <= m < k ensures IsSpace(full[m]) {
      assert full[j + 1 + (m - (j + 1))] == it.before[m - (j + 1)];
    }
  }

  /** What the tail stage finds in a cut array. */
  lemma {:induction false} CutTail(inner: bytes, full: bytes, p: nat, it: Items)
    requires CutFrom(inner, full, p, it)
    ensures var from, k := TailFrom(it, p), Min(LastStart(it, p), |inner|);
      from <= k && !Closes(inner, from) && TailStart(inner[from..]) == k - from
  {
    OpenIsEnd(it, p, p, 0);
    assert Blank(full, 0, p) by {
      assert forall m | 0 <= m < p :: full[m] == full[..p][m];
    }
    LastSpace(full, p, it, 0);
    LastStands(full, p, it);
    EntryFirstByte(full, LastStart(it, p), Array, LastEntry(it));
    var from, k := TailFrom(it, p), Min(LastStart(it, p), |inner|);
    if it.rest.End? {
      TailAlone(inner, k);
    } else {
      TailBehindComma(inner, from, k);
    }
  }

  lemma {:induction false} TailAlone(inner: bytes, k: nat)
    requires Blank(inner, 0, k) && (k < |inner| ==> StartsValue(inner[k]))
    ensures !Closes(inner, 0) && TailStart(inner[0..]) == k
  {
    assert inner[0..] == inner;
    BlankSlice(inner, 0, k);
    SkipSpaceStops(inner, 0, k);
    forall j: nat ensures !ClosesAt(inner, 0, j) {
      if ClosesAt(inner, 0, j) {
        SkipSpaceStops(inner, 0, j);
      }
    }
  }

  lemma {:induction false} TailBehindComma(inner: bytes, from: nat, k: nat)
    requires from < k <= |inner| && inner[from] == COMMA && Blank(inner, from + 1, k)
    requires k < |inner| ==> StartsValue(inner[k])
    ensures !Closes(inner, from) && TailStart(inner[from..]) == k - from
  {
    var tail := inner[from..];
    assert SkipSpace(tail, 0) == 0;
    assert tail[1..k - from] == inner[from + 1..k];
    BlankSlice(inner, from + 1, k);
    SkipSpaceStops(tail, 1, k - from);
    forall j: nat ensures !ClosesAt(inner, from, j) {
      if from < j <= |inner| {
        assert inner[from..j][0] == COMMA;
      }
    }
  }

  lemma {:induction false} ValueShift(raw: bytes, i: nat, k: nat, v: Value)
    requires i <= k <= |raw|
    ensures ValueAt(raw[i..], k - i, v) <==> ValueAt(raw, k, v)
  {
    var w, t := raw[i..], ValueText(v);
    ValueAtText(w, k - i, v);
    ValueAtText(raw, k, v);
    assert forall m | 0 <= m < |w| :: w[m] == raw[i + m];
  }

  lemma {:induction false} SkipsInWhole(raw: bytes, i: nat, k: nat)
    requires i <= k <= |raw| && SkipValue(raw[i..], k - i).Ok?
    ensures SkipValue(raw, k).Ok?
  {
    var v := SkippedIsValue(raw[i..], k - i);
    ValueShift(raw, i, k, v);
    ValueIsSkipped(raw, k, v);
  }

  lemma {:induction false} SkipsInSuffix(raw: bytes, i: nat, k: nat)
    requires i <= k <= |raw| && SkipValue(raw, k).Ok?
    ensures SkipValue(raw[i..], k - i).Ok?
  {
    var v := SkippedIsValue(raw, k);
    ValueShift(raw, i, k, v);
    ValueIsSkipped(raw[i..], k - i, v);
  }

  /** Skipping in a suffix succeeds where it does in the whole. */
  lemma {:induction false} SkipSuffix(raw: bytes, i: nat, k: nat)
    requires i <= k <= |raw|
    ensures SkipValue(raw[i..], k - i).Ok? <==> SkipValue(raw, k).Ok?
  {
    if SkipValue(raw[i..], k - i).Ok? {
      SkipsInWhole(raw, i, k);
    } else if SkipValue(raw, k).Ok? {
      SkipsInSuffix(raw, i, k);
    }
  }

  /** The value that is left at the cut is kept: it is there, it begins with a complete value, and it parses. */
  ghost predicate Saved(inner: bytes, k: nat, accepts: bytes -> bool) {
    k < |inner| && SkipValue(inner, k).Ok? && accepts(inner[k..])
  }

  lemma {:induction false} CutFinish(inner: bytes, full: bytes, p: nat, it: Items, r: Reading, room: nat,
                                     accepts: bytes -> bool)
    requires CutFrom(inner, full, p, it) && |r.ranges| < room
    ensures TailFrom(it, p) <= |inner|
    ensures var from, k := TailFrom(it, p), LastStart(it, p);
      FinishAt(inner, from, r, room, accepts) ==
      Reading(if Saved(inner, k, accepts) then r.ranges + [Chunk(k, |inner|)] else r.ranges,
              r.problems + [Problem(from, -1, Unterminated)])
  {
    var from, k := TailFrom(it, p), Min(LastStart(it, p), |inner|);
    CutTail(inner, full, p, it);
    FinishOpen(inner, from, k, r, room, accepts);
  }

  /** The tail stage of an array without its bracket, when the tail begins with a value at `k`, or not at all. */
  lemma {:induction false} FinishOpen(inner: bytes, from: nat, k: nat, r: Reading, room: nat, accepts: bytes -> bool)
    requires from <= k <= |inner| && !Closes(inner, from) && TailStart(inner[from..]) == k - from && |r.ranges| < room
    ensures FinishAt(inner, from, r, room, accepts) ==
      Reading(if Saved(inner, k, accepts) then r.ranges + [Chunk(k, |inner|)] else r.ranges,
              r.problems + [Problem(from, -1, Unterminated)])
  {
    SalvagedOpen(inner, from, k, r.ranges, room, accepts);
  }

  lemma {:induction false} SalvagedOpen(inner: bytes, from: nat, k: nat, ranges: seq<Chunk>, room: nat,
                                        accepts: bytes -> bool)
    requires from <= k <= |inner| && TailStart(inner[from..]) == k - from && |ranges| < room
    ensures Salvaged(inner, from, ranges, room, accepts) ==
      if Saved(inner, k, accepts) then ranges + [Chunk(k, |inner|)] else ranges
  {
    SkipSuffix(inner, from, k);
    TailOfTail(inner, from, k);
    SalvagedBy(inner, from, k - from, ranges, room, accepts, SkipValue(inner, k).Ok?);
  }

  lemma {:induction false} SalvagedBy(inner: bytes, from: nat, j: nat, ranges: seq<Chunk>, room: nat,
                                      accepts: bytes -> bool, ok: bool)
    requires from + j <= |inner| && TailStart(inner[from..]) == j && |ranges| < room
    requires ok == SkipValue(inner[from..], j).Ok?
    ensures Salvaged(inner, from, ranges, room, accepts) ==
      if from + j < |inner| && ok && accepts(inner[from..][j..]) then ranges + [Chunk(from + j, |inner|)] else ranges
  {
  }

  lemma {:induction false} TailOfTail(inner: bytes, from: nat, k: nat)
    requires from <= k <= |inner|
    ensures inner[from..][k - from..] == inner[k..]
  {
  }

  // ----- the reader -----

  /** The inside of an array that is cut off in its last element, or in front of it. */
  ghost predicate CutArray(raw: bytes, full: bytes, p: nat, it: Items) {
    Inside(raw).Some? && CutFrom(Inner(raw), full, p, it)
  }

  /** On every array that is cut off inside its last element, or in front of it, with any set of damaged elements: of
      the terminated elements those that parse are kept, in order, and then what is left of the last one, if it begins
      with a complete value and parses. The problems are those of the terminated elements and one more, the last: the
      array is not terminated, at the end of the last terminated element. */
  lemma {:induction false} CutTolerated(raw: bytes, full: bytes, p: nat, it: Items, cap: nat, room: nat,
                                        accepts: bytes -> bool)
    requires CutArray(raw, full, p, it) && cap > 1 && room >= Count(it)
    ensures Count(it) > 0
    ensures var inner, all, m, t := Inner(raw), Elements(it, p, p), Count(it) - 1, Tolerated(raw, cap, room, accepts);
      && t.ranges == (if Saved(inner, LastStart(it, p), accepts)
                      then Survivors(inner, all, m, accepts) + [Chunk(LastStart(it, p), |inner|)]
                      else Survivors(inner, all, m, accepts))
      && t.problems == After(inner, all, m, cap, accepts).problems + [Problem(TailFrom(it, p), -1, Unterminated)]
  {
    var inner, all, m := Inner(raw), Elements(it, p, p), Count(it) - 1;
    AtLeastOne(it);
    ToleratedTail(raw, full, p, it, cap, room, accepts);
    KeptAtMost(inner, all, m, cap, accepts);
    AfterKeeps(inner, all, m, cap, accepts);
    CutFinish(inner, full, p, it, After(inner, all, m, cap, accepts), room, accepts);
  }

  /** Behind the terminated elements the tail stage decides. */
  lemma {:induction false} ToleratedTail(raw: bytes, full: bytes, p: nat, it: Items, cap: nat, room: nat,
                                         accepts: bytes -> bool)
    requires CutArray(raw, full, p, it) && cap > 1 && room >= Count(it) > 0
    ensures TailFrom(it, p) <= |Inner(raw)|
    ensures Tolerated(raw, cap, room, accepts) ==
      FinishAt(Inner(raw), TailFrom(it, p), After(Inner(raw), Elements(it, p, p), Count(it) - 1, cap, accepts), room,
               accepts)
  {
    var inner, from := Inner(raw), TailFrom(it, p);
    var advance, finish := Advances(inner, cap, room, accepts), Finishes(inner, room, accepts);
    var r := After(inner, Elements(it, p, p), Count(it) - 1, cap, accepts);
    MovesDecide(inner, cap, room, accepts);
    CutTail(inner, full, p, it);
    CutReads(inner, full, p, it, cap, room, accepts, advance, finish);
    assert finish(from, r) == FinishAt(inner, from, r, room, accepts);
  }

  lemma {:induction false} LastStands(full: bytes, i: nat, it: Items)
    requires it.More? && IsItems(Array, it) && ItemsAt(full, i, it)
    ensures var en, k := LastEntry(it), LastStart(it, i);
      && IsName(Array, en.name) && IsValue(en.value) && AllSpace(en.after) && EntryAt(full, k, en)
      && k + EntryLen(en) == i + ItemsLen(it)
    decreases it
  {
    ItemsAtParts(full, i, it);
    if it.rest.More? {
      LastStands(full, i + EntryLen(it.first) + 1 + |it.before|, it.rest);
    }
  }

  /** A value that was cut in two, other than a number, is not taken for another one. */
  lemma {:induction false} TornIsNoValue(inner: bytes, full: bytes, k: nat, v: Value)
    requires inner <= full && k <= |inner| < k + ValueLen(v) && IsValue(v) && ValueAt(full, k, v) && !v.Num?
    ensures !SkipValue(inner, k).Ok?
  {
    if SkipValue(inner, k).Ok? {
      var u := SkippedIsValue(inner, k);
      ValueAtText(inner, k, u);
      ValueAtText(full, k, u);
      ValueFirstByte(full, k, v);
      ValueFirstByte(full, k, u);
      ValueIsSkipped(full, k, v);
      if !u.Num? {
        ValueIsSkipped(full, k, u);
      } else {
        NumberStarts(full, k, u, v);
      }
    }
  }

  lemma {:induction false} LiteralStarts(full: bytes, k: nat, v: Value)
    requires IsValue(v) && ValueAt(full, k, v) && v.Lit?
    ensures k < |full| && (full[k] == 0x74 || full[k] == 0x66 || full[k] == 0x6E)
  {
    ValueFirstByte(full, k, v);
    assert full[k + 0] == v.token[0];
  }

  /** What begins with a number's first byte is a number. */
  lemma {:induction false} NumberStarts(full: bytes, k: nat, u: Value, v: Value)
    requires IsValue(u) && IsValue(v) && ValueAt(full, k, u) && ValueAt(full, k, v) && u.Num?
    ensures v.Num?
  {
    NumberToken(u.token);
    assert full[k + 0] == u.token[0];
    if v.Lit? {
      LiteralStarts(full, k, v);
    }
  }

  /** If the last value was torn, and it is not a number, nothing is salvaged. */
  lemma {:induction false} TornIsLost(raw: bytes, full: bytes, p: nat, it: Items, cap: nat, room: nat,
                                      accepts: bytes -> bool)
    requires CutArray(raw, full, p, it) && cap > 1 && room >= Count(it)
    requires !LastEntry(it).value.Num? && |Inner(raw)| < LastStart(it, p) + ValueLen(LastEntry(it).value)
    ensures Count(it) > 0
    ensures Tolerated(raw, cap, room, accepts).ranges ==
      Survivors(Inner(raw), Elements(it, p, p), Count(it) - 1, accepts)
  {
    var inner, k := Inner(raw), LastStart(it, p);
    LastStands(full, p, it);
    if k < |inner| {
      TornIsNoValue(inner, full, k, LastEntry(it).value);
    }
    CutTolerated(raw, full, p, it, cap, room, accepts);
  }

  /** If only the closing bracket is missing, the last element is kept exactly if it parses. */
  lemma {:induction false} OnlyBracketMissing(raw: bytes, full: bytes, p: nat, it: Items, cap: nat, room: nat,
                                              accepts: bytes -> bool)
    requires CutArray(raw, full, p, it) && cap > 1 && room >= Count(it) && |Inner(raw)| + 1 == |full|
    ensures Count(it) > 0 && LastStart(it, p) < |Inner(raw)|
    ensures var inner, k, t := Inner(raw), LastStart(it, p), Tolerated(raw, cap, room, accepts);
      var others := Survivors(inner, Elements(it, p, p), Count(it) - 1, accepts);
      t.ranges == if accepts(inner[k..]) then others + [Chunk(k, |inner|)] else others
  {
    var inner, k, en := Inner(raw), LastStart(it, p), LastEntry(it);
    LastStands(full, p, it);
    EntryAtText(full, k, en);
    EntryAtText(inner, k, en);
    EntryFirstByte(inner, k, Array, en);
    LastIsSkipped(inner, k, en);
    CutTolerated(raw, full, p, it, cap, room, accepts);
  }

  lemma {:induction false} LastIsSkipped(inner: bytes, k: nat, en: Entry)
    requires IsName(Array, en.name) && IsValue(en.value) && AllSpace(en.after) && EntryAt(inner, k, en)
    requires k + EntryLen(en) == |inner|
    ensures SkipValue(inner, k).Ok?
  {
    var e := k + ValueLen(en.value);
    if e < |inner| {
      assert inner[e + 0] == en.after[0];
    }
    ValueIsSkipped(inner, k, en.value);
  }

  /** The missing bracket is reported once. */
  lemma {:induction false} ReportedOnce(inner: bytes, all: seq<Chunk>, n: nat, cap: nat, accepts: bytes -> bool)
    requires n <= |all| && cap > 1
    ensures forall q | q in After(inner, all, n, cap, accepts).problems :: q.error != Unterminated
  {
    if n > 0 {
      ReportedOnce(inner, all, n - 1, cap, accepts);
    }
  }
}
