/** Block calls on a well-formed stream, complete or cut off behind its last element: the same elements, grouped, with
    correct counts. */
module BlockTheorems {
  import opened Bytes
  import opened Windows
  import opened Grammar
  import opened ArrayElements
  import opened WellFormedArrays
  import opened StreamSpec
  import opened StreamTheorems
  import opened StreamDecoder
  import Splitter
  import Slices

  /** The text of the first `n` elements with the separators between them. */
  function BlockText(it: Items, n: nat): bytes
    requires 1 <= n <= Count(it)
    decreases it
  {
    if n == 1 then EntryText(it.first)
    else EntryText(it.first) + ([COMMA] + (it.before + BlockText(it.rest, n - 1)))
  }

  /** The elements behind the first `n`. */
  function Drop(it: Items, n: nat): Items
    requires n <= Count(it)
    decreases it
  {
    if n == 0 then it else Drop(it.rest, n - 1)
  }

  /** The whitespace behind the comma of element `n`. */
  function BeforeOf(it: Items, n: nat): bytes
    requires 1 <= n <= Count(it)
    decreases it
  {
    if n == 1 then it.before else BeforeOf(it.rest, n - 1)
  }

  lemma {:induction false} DropIsItems(it: Items, n: nat)
    requires IsItems(Array, it) && 1 <= n <= Count(it)
    ensures IsItems(Array, Drop(it, n)) && AllSpace(BeforeOf(it, n)) && Count(Drop(it, n)) == Count(it) - n
    decreases it
  {
    if n > 1 {
      DropIsItems(it.rest, n - 1);
    }
  }

  lemma {:induction false} Regroup(t: bytes, c: bytes, w: bytes, inner: bytes, left: bytes)
    ensures t + (c + (w + (inner + left))) == (t + (c + (w + inner))) + left
  {
  }

  /** A text is its first `n` elements and what is left behind them. */
  lemma {:induction false} CutText(it: Items, n: nat, tail: bytes)
    requires it.More? && 1 <= n <= Count(it)
    ensures EntryText(it.first) + Closed(it.before, it.rest, tail) ==
      BlockText(it, n) + Closed(BeforeOf(it, n), Drop(it, n), tail)
    decreases it
  {
    if n > 1 {
      CutText(it.rest, n - 1, tail);
      ClosedEnds(it.before, it.rest, tail);
      Regroup(EntryText(it.first), [COMMA], it.before, BlockText(it.rest, n - 1),
        Closed(BeforeOf(it, n), Drop(it, n), tail));
    } else {
      assert Drop(it, 1) == Drop(it.rest, 0) == it.rest;
    }
  }

  /** The splitter's chunk `n` ends where the block of `n` elements does. */
  lemma {:induction false} CutEnd(it: Items, n: nat, i: nat, start: nat)
    requires it.More? && 1 <= n <= Count(it)
    ensures Elements(it, i, start)[n - 1].end == i + |BlockText(it, n)|
    decreases it
  {
    EntryAtText([], 0, it.first);
    if n > 1 {
      var j := i + EntryLen(it.first);
      CutEnd(it.rest, n - 1, j + 1 + |it.before|, j + 1);
    }
  }

  /** The state of a decoder at the first of the elements `it`. */
  function ElementsText(it: Items, tail: bytes): bytes
    requires it.More?
  {
    EntryText(it.first) + Closed(it.before, it.rest, tail)
  }

  /** The splitter's view of those bytes. */
  lemma {:induction false} SplitElements(it: Items, tail: bytes, n: nat)
    requires it.More? && IsItems(Array, it)
    ensures var q := ElementsText(it, tail);
      AtElement(q) && Splitter.Split(q, n).chunks == Elements(it, 0, 0)[..Min(n, Count(it))]
  {
    var q, t := ElementsText(it, tail), ItemsText(it);
    assert q == t + ([RBRACKET] + tail);
    ItemsAtText(q, 0, it);
    AtSlice(q, 0, t);
    assert q[0..0 + |t|] == t && q[|t|] == RBRACKET;
    assert ArrayBody(q, 0, it);
    SplitArray(q, 0, it, n);
    ClosedEnds(it.before, it.rest, tail);
    TakesEntryText(RUNNING, q, it.first, Closed(it.before, it.rest, tail), false, []);
  }

  /** A block call at the first of the elements: it hands out as many as the splitter found, as one text, and stands
      behind them. */
  lemma {:induction false} BlockOfElements(e: Env, it: Items, tail: bytes, size: nat, n: nat, answer: Answer,
                                           count: nat, after: Env, rest: bytes)
    requires it.More? && IsItems(Array, it) &&
      BlockAt(e, ElementsText(it, tail), size, n, answer, count, after, rest) == true
    ensures 1 <= count == n <= Count(it) && n <= size && answer == Item(BlockText(it, n))
    ensures after == e.(delivered := true, afterComma := false) && rest == Closed(BeforeOf(it, n), Drop(it, n), tail)
  {
    var q, all := ElementsText(it, tail), Elements(it, 0, 0);
    SplitElements(it, tail, n);
    SplitElements(it, tail, 1);
    AtLeastOne(it);
    FirstElementEnds(it, q, tail);
    assert n <= Count(it);
    BlockIsKept(it, tail, q, n);
    CutText(it, n, tail);
    CutEnd(it, n, 0, 0);
    assert q[..|BlockText(it, n)|] == BlockText(it, n);
  }

  lemma {:induction false} FirstElementEnds(it: Items, q: bytes, tail: bytes)
    requires it.More? && IsItems(Array, it) && q == ElementsText(it, tail)
    requires Splitter.Split(q, 1).chunks == Elements(it, 0, 0)[..1]
    ensures FirstEnd(q) > 0
  {
    CutEnd(it, 1, 0, 0);
    EntryBegins(it.first);
  }

  /** All of the chunks are kept, and their gaps are good. */
  lemma {:induction false} BlockIsKept(it: Items, tail: bytes, q: bytes, n: nat)
    requires it.More? && IsItems(Array, it) && q == ElementsText(it, tail) && 1 <= n <= Count(it)
    requires AtElement(q) && Splitter.Split(q, n).chunks == Elements(it, 0, 0)[..n]
    ensures var cs := Splitter.Split(q, n).chunks; Solid(cs) == cs && Slices.GapsOk(q, cs, false)
  {
    var cs, t := Splitter.Split(q, n).chunks, ItemsText(it);
    assert q == t + ([RBRACKET] + tail);
    ItemsAtText(q, 0, it);
    AtSlice(q, 0, t);
    ElementsAreSolid(q, 0, it, 0);
    SolidEvery(cs, n);
    assert cs[..n] == cs[0..] == cs;
    SplitTiled(q, n);
    assert SkipSpace(q, 0) == 0 && q[0..0] == [];
    TilesAreGaps(q, 0, cs, cs, 0, false);
  }

  // ----- the same elements without their closing bracket -----

  lemma {:induction false} KeptEndsInside(q: bytes, cap: nat)
    requires Solid(Splitter.Split(q, cap).chunks) != []
    ensures EndOf(Solid(Splitter.Split(q, cap).chunks)) < |q|
  {
    var cs := Splitter.Split(q, cap).chunks;
    var kept := Solid(cs);
    SplitTiled(q, cap);
    SolidMembers(cs, |cs|);
    assert kept[|kept| - 1] in kept;
    var j :| 0 <= j < |cs| && cs[j] == kept[|kept| - 1];
    assert Tiles(q, SkipSpace(q, 0), cs, j);
  }

  lemma {:induction false} SplitExtends(q: bytes, p: bytes, n: nat)
    requires AtElement(q) && q <= p && |Splitter.Split(q, n).chunks| == n
    ensures Splitter.Split(p, n).chunks == Splitter.Split(q, n).chunks
  {
    Splitter.SplitPrefix(q, p, n);
    RunBounded(Splitter.Initial(SkipSpace(p, 0)), p, SkipSpace(p, 0), |p|, n);
  }

  /** A block that is handed out does not depend on the bytes behind its last element. */
  lemma {:induction false} BlockExtends(e: Env, q: bytes, more: bytes, size: nat, n: nat, answer: Answer, count: nat,
                                        after: Env, rest: bytes)
    requires AtElement(q) && FirstEnd(q) > 0 && BlockAt(e, q, size, n, answer, count, after, rest) == true
    ensures BlockAt(e, q + more, size, n, answer, count, after, rest + more) == true
    ensures answer.Item? ==> |rest| > 0
  {
    var p, kept := q + more, Solid(Splitter.Split(q, n).chunks);
    FirstEndArrived(q, more);
    SplitExtends(q, p, n);
    KeptAscend(q, n);
    GapsArrived(q, p, kept);
    if kept != [] {
      KeptEndsInside(q, n);
    }
    assert Upto(p, EndOf(kept)) == Upto(q, EndOf(kept)) && From(p, EndOf(kept)) == From(q, EndOf(kept)) + more;
  }

  lemma {:induction false} FirstOfMany(it: Items, q: bytes)
    requires it.More? && it.rest.More? && IsItems(Array, it) && q == EntryText(it.first) + RestText(it.before, it.rest)
    ensures AtElement(q) && FirstEnd(q) > 0
  {
    TakesEntryText(RUNNING, q, it.first, RestText(it.before, it.rest), false, []);
  }

  /** A block call in front of several elements of a cut stream: it never hands out the last one. */
  lemma {:induction false} BlockOfCut(e: Env, it: Items, size: nat, n: nat, answer: Answer, count: nat, after: Env,
                                      rest: bytes)
    requires it.More? && it.rest.More? && IsItems(Array, it)
    requires BlockAt(e, EntryText(it.first) + RestText(it.before, it.rest), size, n, answer, count, after, rest) == true
    ensures 1 <= count < Count(it) && count <= size && answer == Item(BlockText(it, count))
    ensures after == e.(delivered := true, afterComma := false) &&
      rest == RestText(BeforeOf(it, count), Drop(it, count))
  {
    var q := EntryText(it.first) + RestText(it.before, it.rest);
    FirstOfMany(it, q);
    BlockExtends(e, q, [RBRACKET], size, n, answer, count, after, rest);
    assert q + [RBRACKET] == ElementsText(it, []);
    BlockOfElements(e, it, [], size, n, answer, count, after, rest + [RBRACKET]);
    var left := RestText(BeforeOf(it, n), Drop(it, n));
    assert rest + [RBRACKET] == left + [RBRACKET];
    assert rest == (rest + [RBRACKET])[..|rest|] && left == (left + [RBRACKET])[..|left|];
    DropCount(it, n);
  }

  // ----- where a decoder stands in a stream -----

  /** In front of the array, or right behind an element. */
  datatype Place = Front(w: bytes, x: bytes) | Between(before: bytes)

  /** What follows the last element: the closing bracket and anything, or nothing at all. */
  datatype Ending = Bracket(tail: bytes) | Missing

  function EndText(ending: Ending): bytes {
    match ending
    case Bracket(tail) => [RBRACKET] + tail
    case Missing => []
  }

  function FlagsAt(place: Place): Env {
    if place.Front? then INITIAL else RUNNING
  }

  /** The flags when the decoder has come to the next element. */
  function FlagsOn(place: Place): Env {
    if place.Front? then INITIAL.(started := true) else RUNNING.(afterComma := true)
  }

  /** The bytes from the first of the elements `it` on. */
  function FromElements(it: Items, ending: Ending): bytes
    requires it.More?
  {
    EntryText(it.first) + (RestText(it.before, it.rest) + EndText(ending))
  }

  function TextAt(place: Place, it: Items, ending: Ending): bytes {
    match place
    case Front(w, x) => w + ([LBRACKET] + (x + (ItemsText(it) + EndText(ending))))
    case Between(before) => RestText(before, it) + EndText(ending)
  }

  predicate IsBlank(place: Place) {
    match place
    case Front(w, x) => AllSpace(w) && AllSpace(x)
    case Between(before) => AllSpace(before)
  }

  /** What a strict call meets when no element is left. */
  function AtEnd(place: Place, ending: Ending, log: seq<Fault>): Outcome {
    var e := if place.Front? then INITIAL.(started := true) else RUNNING;
    if ending.Bracket? then Outcome(EndOfStream, e.(ended := true), EndText(ending), log)
    else Outcome(Failed(Truncated), e.(truncated := true), [], log)
  }

  lemma {:induction false} EntryBegins(en: Entry)
    requires IsName(Array, en.name) && IsValue(en.value)
    ensures |EntryText(en)| > 0 && StartsValue(EntryText(en)[0])
  {
    var t := EntryText(en);
    AtSlice(t, 0, t);
    assert t[0..0 + |t|] == t;
    EntryAtText(t, 0, en);
    EntryFirstByte(t, 0, Array, en);
  }

  lemma {:induction false} ElementComesFirst(it: Items, ending: Ending)
    requires it.More? && IsItems(Array, it)
    ensures AtElement(FromElements(it, ending)) && ItemsText(it) + EndText(ending) == FromElements(it, ending)
  {
    EntryBegins(it.first);
    var t, r, z := EntryText(it.first), RestText(it.before, it.rest), EndText(ending);
    assert (t + r) + z == t + (r + z);
  }

  /** A strict call at any place comes to the next element, or to the end. */
  lemma {:induction false} SeekTo(place: Place, it: Items, ending: Ending, sees: bool, take: Take, log: seq<Fault>)
    requires IsBlank(place) && IsItems(Array, it)
    ensures Seek(FlagsAt(place), TextAt(place, it, ending), false, sees, take, log) ==
      if it.End? then AtEnd(place, ending, log) else take(FlagsOn(place), FromElements(it, ending), log)
  {
    if it.More? {
      ElementComesFirst(it, ending);
    }
    match place {
      case Front(w, x) => SeekFront(w, x, it, ending, sees, take, log);
      case Between(before) => SeekBetween(before, it, ending, sees, take, log);
    }
  }

  lemma {:induction false} PastComma(before: bytes, q: bytes, sees: bool, take: Take, log: seq<Fault>)
    requires AllSpace(before) && AtElement(q)
    ensures Seek(RUNNING, [COMMA] + (before + q), false, sees, take, log) == take(RUNNING.(afterComma := true), q, log)
  {
    var p, after := [COMMA] + (before + q), RUNNING.(afterComma := true);
    TrimNone(p);
    TrimSpaces(before, q);
    assert p[1..] == before + q;
    assert Seek(after, before + q, false, sees, take, log) == take(after, q, log);
  }

  lemma {:induction false} SeekBetween(before: bytes, it: Items, ending: Ending, sees: bool, take: Take,
                                       log: seq<Fault>)
    requires AllSpace(before) && IsItems(Array, it)
    requires it.More? ==>
      AtElement(FromElements(it, ending)) && ItemsText(it) + EndText(ending) == FromElements(it, ending)
    ensures Seek(RUNNING, TextAt(Between(before), it, ending), false, sees, take, log) ==
      if it.End? then AtEnd(Between(before), ending, log)
      else take(FlagsOn(Between(before)), FromElements(it, ending), log)
  {
    var p := TextAt(Between(before), it, ending);
    if it.End? {
      assert p == EndText(ending);
      TrimNone(p);
    } else {
      assert p == [COMMA] + (before + FromElements(it, ending));
      PastComma(before, FromElements(it, ending), sees, take, log);
    }
  }

  lemma {:induction false} SeekFront(w: bytes, x: bytes, it: Items, ending: Ending, sees: bool, take: Take,
                                     log: seq<Fault>)
    requires AllSpace(w) && AllSpace(x) && IsItems(Array, it)
    requires it.More? ==>
      AtElement(FromElements(it, ending)) && ItemsText(it) + EndText(ending) == FromElements(it, ending)
    ensures Seek(INITIAL, TextAt(Front(w, x), it, ending), false, sees, take, log) ==
      if it.End? then AtEnd(Front(w, x), ending, log) else take(FlagsOn(Front(w, x)), FromElements(it, ending), log)
  {
    var begun, inner := INITIAL.(started := true), ItemsText(it) + EndText(ending);
    var p := TextAt(Front(w, x), it, ending);
    TrimSpaces(w, [LBRACKET] + (x + inner));
    assert ([LBRACKET] + (x + inner))[1..] == x + inner;
    assert Seek(INITIAL, p, false, sees, take, log) == Seek(begun, x + inner, false, sees, take, log);
    assert it.End? ==> inner == EndText(ending);
    TrimSpaces(x, inner);
  }

  /** A strict block call at any place of a stream that is complete or cut off behind its last element. */
  lemma {:induction false} BlockInStream(place: Place, it: Items, ending: Ending, sees: bool, log: seq<Fault>,
                                         size: nat, n: nat, answer: Answer, count: nat, after: Env, rest: bytes)
    requires IsBlank(place) && IsItems(Array, it) && size > 0
    requires BlockCall(Seek(FlagsAt(place), TextAt(place, it, ending), false, sees, Marks(), log), size, n, answer,
      count, after, rest) == true
    ensures BlockAnswer(it, ending, size, answer, count)
    ensures if count == 0 then after.ended == (it.End? && ending.Bracket?) && after.truncated == ending.Missing?
            else
              || LastValue(it, ending)
              || (after == RUNNING && rest == TextAt(Between(BeforeOf(it, count)), Drop(it, count), ending))
    ensures count > 0 && LastValue(it, ending) ==> after.truncated && !after.ended && |rest| == 0
  {
    SeekTo(place, it, ending, sees, Marks(), log);
    if it.More? {
      ElementComesFirst(it, ending);
      BlockHere(FlagsOn(place), it, ending, size, n, answer, count, after, rest);
    }
  }

  /** The last element of a stream that was cut off. */
  predicate LastValue(it: Items, ending: Ending) {
    ending.Missing? && it.More? && it.rest.End?
  }

  /** What a block call answers in front of the elements `it`: a block of at least one of them, in order; the last one
      of a cut stream is a block of its own if nothing follows it, and otherwise the call fails. */
  predicate BlockAnswer(it: Items, ending: Ending, size: nat, answer: Answer, count: nat) {
    if it.End? then count == 0 && answer == if ending.Bracket? then EndOfStream else Failed(Truncated)
    else if LastValue(it, ending) && !LastBare(it) then count == 0 && answer == Failed(Truncated)
    else
      && 1 <= count <= Count(it) && count <= size && answer == Item(BlockText(it, count))
      && (ending.Missing? && it.rest.More? ==> count < Count(it))
  }

  lemma {:induction false} BlockHere(e: Env, it: Items, ending: Ending, size: nat, n: nat, answer: Answer, count: nat,
                                     after: Env, rest: bytes)
    requires it.More? && IsItems(Array, it) && !e.ended && !e.truncated && e.started && size > 0
    requires BlockAt(e, FromElements(it, ending), size, n, answer, count, after, rest) == true
    ensures BlockAnswer(it, ending, size, answer, count)
    ensures count == 0 ==> !after.ended && after.truncated && ending.Missing?
    ensures count > 0 && LastValue(it, ending) ==> after.truncated && !after.ended && |rest| == 0
    ensures count > 0 && !LastValue(it, ending) ==>
      after == e.(delivered := true, afterComma := false) &&
        rest == TextAt(Between(BeforeOf(it, count)), Drop(it, count), ending)
  {
    var q := FromElements(it, ending);
    match ending {
      case Bracket(tail) =>
        assert q == ElementsText(it, tail);
        BlockOfElements(e, it, tail, size, n, answer, count, after, rest);
      case Missing =>
        assert q == EntryText(it.first) + RestText(it.before, it.rest);
        if it.rest.More? {
          BlockOfCut(e, it, size, n, answer, count, after, rest);
        } else {
          assert q == EntryText(it.first);
          TakesLast(e, q, it.first, false, []);
        }
    }
  }

  /** A block holds every element that is complete in the bytes that have arrived, up to the limit: these are what is
      handed out and `w`, what is buffered behind it. If they do not fill the block, no room would give more. */
  lemma {:induction false} BlockHoldsAll(e: Env, q: bytes, size: nat, n: nat, answer: Answer, count: nat, after: Env,
                                         rest: bytes, w: bytes, room: nat)
    requires AtElement(q) && FirstEnd(q) > 0 && answer.Item? && w <= rest && room >= size > 0
    requires BlockAt(e, q, size, n, answer, count, after, rest) && SplitsAll(size, n, answer, w)
    ensures var cs := Splitter.Split(answer.chunk + w, size).chunks;
      count == |Solid(cs)| && (|cs| < size ==> count == |Solid(Splitter.Split(answer.chunk + w, room).chunks)|)
  {
    var b := answer.chunk + w;
    assert q == answer.chunk + rest;
    assert b <= q;
    Splitter.SplitArrived(b, q, size);
    if n < size {
      Splitter.RunMoreRoom(Splitter.Initial(SkipSpace(b, 0)), b, SkipSpace(b, 0), |b|, size, room);
    }
  }

  // ----- a producer that takes block after block -----

  /** The blocks hold the elements in order, each element in exactly one block, up to `rest`; and each count is the
      number of elements in its block. */
  ghost predicate Groups(it: Items, blocks: seq<(bytes, nat)>, rest: Items)
    decreases |blocks|
  {
    if |blocks| == 0 then rest == it
    else
      var (raw, count) := blocks[0];
      1 <= count <= Count(it) && raw == BlockText(it, count) && Groups(Drop(it, count), blocks[1..], rest)
  }

  lemma {:induction false} GroupsAppend(it: Items, blocks: seq<(bytes, nat)>, rest: Items, count: nat)
    requires Groups(it, blocks, rest) && 1 <= count <= Count(rest)
    ensures Groups(it, blocks + [(BlockText(rest, count), count)], Drop(rest, count))
    decreases |blocks|
  {
    var b := (BlockText(rest, count), count);
    var all := blocks + [b];
    if |blocks| == 0 {
      assert all == [b] && all[1..] == [];
    } else {
      assert all[1..] == blocks[1..] + [b] && all[0] == blocks[0];
      GroupsAppend(Drop(it, blocks[0].1), blocks[1..], rest, count);
    }
  }

  function Total(blocks: seq<(bytes, nat)>): nat
    decreases |blocks|
  {
    if |blocks| == 0 then 0 else blocks[0].1 + Total(blocks[1..])
  }

  lemma {:induction false} DropCount(it: Items, n: nat)
    requires n <= Count(it)
    ensures Count(Drop(it, n)) == Count(it) - n
    decreases it
  {
    if n > 0 {
      DropCount(it.rest, n - 1);
    }
  }

  /** The counts add up to the number of elements that the blocks hold. */
  lemma {:induction false} GroupsCount(it: Items, blocks: seq<(bytes, nat)>, rest: Items)
    requires Groups(it, blocks, rest)
    ensures Total(blocks) + Count(rest) == Count(it)
    decreases |blocks|
  {
    if |blocks| > 0 {
      DropCount(it, blocks[0].1);
      GroupsCount(Drop(it, blocks[0].1), blocks[1..], rest);
    }
  }

  /** What a producer cannot deliver: the last element of a cut stream, if whitespace follows it. */
  predicate Lost(rest: Items, ending: Ending) {
    rest == End || (LastValue(rest, ending) && !LastBare(rest))
  }

  predicate AtMost(blocks: seq<(bytes, nat)>, limit: nat) {
    forall k | 0 <= k < |blocks| :: blocks[k].1 <= limit
  }

  lemma {:induction false} LastIsDropped(it: Items)
    requires it.More? && it.rest.End?
    ensures Count(it) == 1 && Drop(it, 1) == End
  {
    assert Drop(it, 1) == Drop(it.rest, 0);
  }

  /** The decoder stands in front of the elements `it`; or behind the salvaged last element of a cut stream. */
  ghost predicate Stands(d: Decoder, place: Place, it: Items, ending: Ending, cut: bool)
    requires d.Valid()
    reads d, d.reader, d.buf
  {
    if cut then it == End && ending.Missing? && d.tailTruncated && !d.hasEnded
    else d.Flags() == FlagsAt(place) && d.Pending() == TextAt(place, it, ending)
  }

  /** One block: the next elements, or nothing and then the end of the stream or its truncation. */
  method TakeOne(d: Decoder, maxCount: int, ghost place: Place, ghost it: Items, ghost ending: Ending, ghost cut: bool)
    returns (last: Answer, count: nat)
    requires d.Valid() && IsBlank(place) && IsItems(Array, it) && Stands(d, place, it, ending, cut)
    modifies d, d.reader, d.buf
    ensures d.Valid() && fresh({d.buf} - old({d.buf}))
    ensures count <= 10000 && (1 <= maxCount <= 10000 ==> count <= maxCount)
    ensures count == 0 ==> last == (if ending.Bracket? then EndOfStream else Failed(Truncated)) && Lost(it, ending)
    ensures count > 0 ==>
      && count <= Count(it) && last == Item(BlockText(it, count))
      && if LastValue(it, ending) then d.tailTruncated && !d.hasEnded
         else Stands(d, Between(BeforeOf(it, count)), Drop(it, count), ending, false)
  {
    ghost var log := d.reports;
    ghost var sees, n;
    last, count, sees, n := d.NextRawBlock(maxCount);
    if !cut {
      BlockInStream(place, it, ending, sees, log, d.Limit(maxCount), n, last, count, d.Flags(), d.Pending());
    }
  }

  /** The producer's loop: however the reader cuts the bytes, it takes the elements in order, in blocks of at most the
      limit, and then meets the end of a complete stream or the truncation of a cut one. What is left then is nothing,
      or the last element of a cut stream, if whitespace follows it. */
  method TakeBlocks(d: Decoder, maxCount: int, ghost place: Place, ghost it: Items, ghost ending: Ending)
    returns (blocks: seq<(bytes, nat)>, last: Answer, ghost rest: Items)
    requires d.Valid() && IsBlank(place) && IsItems(Array, it)
    requires d.Flags() == FlagsAt(place) && d.Pending() == TextAt(place, it, ending)
    modifies d, d.reader, d.buf
    ensures last == if ending.Bracket? then EndOfStream else Failed(Truncated)
    ensures Groups(it, blocks, rest) && Lost(rest, ending) && Total(blocks) == Count(it) - Count(rest)
    ensures AtMost(blocks, 10000) && (1 <= maxCount <= 10000 ==> AtMost(blocks, maxCount))
  {
    blocks, last, rest := [], EndOfStream, it;
    ghost var at := place;
    ghost var cut := false;
    while true
      invariant d.Valid() && fresh({d.buf} - old({d.buf})) && IsBlank(at) && IsItems(Array, rest)
      invariant Stands(d, at, rest, ending, cut)
      invariant Groups(it, blocks, rest)
      invariant AtMost(blocks, 10000) && (1 <= maxCount <= 10000 ==> AtMost(blocks, maxCount))
      decreases Count(rest), if cut then 0 else 1
    {
      var count;
      last, count := TakeOne(d, maxCount, at, rest, ending, cut);
      if count == 0 {
        GroupsCount(it, blocks, rest);
        return;
      }
      GroupsAppend(it, blocks, rest, count);
      DropIsItems(rest, count);
      blocks := blocks + [(last.chunk, count)];
      if LastValue(rest, ending) {
        LastIsDropped(rest);
        cut := true;
      }
      at, rest := Between(BeforeOf(rest, count)), Drop(rest, count);
    }
  }
}
