/** Properties of whole runs of the stream decoder. Runs are runs of the outcome function that every call of the decoder
    meets, whatever its reader does. */
module StreamTheorems {
  import opened Bytes
  import opened Windows
  import Numbers
  import opened Grammar
  import opened StrictGrammar
  import opened ArrayElements
  import opened StreamSpec
  import Splitter
  import StrictSkip

  // ----- how far the answer depends on the way the bytes are cut -----

  lemma {:induction false} SameUnlessTrailing(e: Env, p: bytes, sees: bool, log: seq<Fault>, take: Take)
    requires e.started && !AtTrailingComma(e, p) && !e.ended && !e.truncated
    ensures Seek(e, p, false, sees, take, log) == Seek(e, p, false, false, take, log)
  {
    var q := Trim(p);
    if StartsWith(q, COMMA) && Misplaced(e).None? {
      var after, r := e.(afterComma := true), Trim(q[1..]);
      AgreesBehindComma(after, q[1..], sees, log, take);
    }
  }

  /** Behind a comma the strict decoder does not pass another one. */
  lemma {:induction false} AgreesBehindComma(e: Env, p: bytes, sees: bool, log: seq<Fault>, take: Take)
    requires e.started && Misplaced(e).Some?
    ensures Seek(e, p, false, sees, take, log) == Seek(e, p, false, false, take, log)
  {
  }

  /** The strict decoder's answer depends on the cuts exactly in front of a trailing comma. */
  lemma {:induction false} CutsMatterAtTrailingComma(e: Env, p: bytes, log: seq<Fault>)
    requires e.delivered ==> e.started
    ensures Next(e, p, false, true, log) == Next(e, p, false, false, log) <==> !AtTrailingComma(e, p)
  {
    var take := AsElement(false);
    if !e.ended && !e.truncated {
      if e.started {
        if AtTrailingComma(e, p) {
          TrailingDiffers(e, p, log, take);
        } else {
          SameUnlessTrailing(e, p, true, log, take);
        }
      } else {
        AgreesBeforeStart(e, p, true, log, take);
      }
    }
  }

  lemma {:induction false} TrailingDiffers(e: Env, p: bytes, log: seq<Fault>, take: Take)
    requires AtTrailingComma(e, p)
    ensures Seek(e, p, false, true, take, log).answer == Failed(TrailingComma)
    ensures Seek(e, p, false, false, take, log).answer == EndOfStream
  {
    var q, after := Trim(p), e.(afterComma := true);
    var r := Trim(q[1..]);
    TrimNone(r);
    assert Seek(e, p, false, false, take, log) == Seek(after, q[1..], false, false, take, log);
    assert Seek(after, q[1..], false, false, take, log).answer == EndOfStream;
  }

  /** In front of a trailing comma that has arrived, the strict decoder's answer is decided by how much more has: with
      the closing bracket it fails, and without it the stream ends cleanly. */
  lemma {:induction false} CutsDecide(e: Env, p: bytes, w: bytes, sees: bool, log: seq<Fault>)
    requires AtTrailingComma(e, p) && StartsWith(Trim(w), COMMA) && SeesFrom(e, p, w, sees)
    ensures Next(e, p, false, sees, log).answer == if ShowsBracket(w) then Failed(TrailingComma) else EndOfStream
  {
    TrailingDiffers(e, p, log, AsElement(false));
  }

  /** Both happen: behind an element, with a comma and the closing bracket still to come. */
  lemma {:induction false} BothCutsHappen(sees: bool, w: bytes, log: seq<Fault>)
    requires SeesFrom(RUNNING, [COMMA, RBRACKET], w, sees) && (w == [COMMA] || w == [COMMA, RBRACKET])
    ensures Next(RUNNING, [COMMA, RBRACKET], false, sees, log).answer ==
      if |w| == 2 then Failed(TrailingComma) else EndOfStream
  {
    var p: bytes := [COMMA, RBRACKET];
    TrimNone(p);
    TrimNone(w);
    assert p[1..] == [RBRACKET];
    TrimNone(p[1..]);
    assert w[1..] == if |w| == 2 then [RBRACKET] else [];
    TrimNone(w[1..]);
    CutsDecide(RUNNING, p, w, sees, log);
  }

  lemma {:induction false} AgreesBeforeStart(e: Env, p: bytes, sees: bool, log: seq<Fault>, take: Take)
    requires !e.started && !e.delivered && !e.ended && !e.truncated
    ensures Seek(e, p, false, sees, take, log) == Seek(e, p, false, false, take, log)
  {
    var q := Trim(p);
    if StartsWith(q, LBRACKET) {
      AgreesBehindComma(e.(started := true), q[1..], sees, log, take);
    }
  }

  /** The tolerant decoder answers the same whatever the cuts; only its reports can differ. */
  lemma {:induction false} TolerantCutsAgree(e: Env, p: bytes, log: seq<Fault>, also: seq<Fault>)
    ensures var a, b := Seek(e, p, true, true, AsElement(true), log), Seek(e, p, true, false, AsElement(true), also);
      a.answer == b.answer && a.env == b.env && a.pending == b.pending
    decreases |p|
  {
    var q := Trim(p);
    if |q| > 0 && (!e.started || q[0] == COMMA) {
      var after, more, others := e.(afterComma := true), Complain(e, log), Complain(e, also);
      if !e.started {
        TolerantCutsAgree(e.(started := true), q[1..], log, also);
      } else if StartsWith(Trim(q[1..]), RBRACKET) {
        TolerantCutsAgree(after, q[1..], more + [TrailingComma], others);
      } else {
        TolerantCutsAgree(after, q[1..], more, others);
      }
    }
  }

  // ----- whole runs -----

  /** A run of calls up to the first one that does not deliver an element. */
  datatype Run = Run(items: seq<bytes>, last: Outcome)

  lemma {:induction false} SeekShrinks(e: Env, p: bytes, tolerant: bool, sees: bool, log: seq<Fault>)
    ensures var o := Seek(e, p, tolerant, sees, AsElement(tolerant), log);
      |o.pending| <= |p| && (o.answer.Item? ==> |o.pending| < |p|)
    decreases |p|
  {
    var q := Trim(p);
    if |q| > 0 && (!e.started || q[0] == COMMA) {
      var after, more := e.(afterComma := true), Complain(e, log);
      if !e.started {
        SeekShrinks(e.(started := true), q[1..], tolerant, sees, log);
      } else {
        SeekShrinks(after, q[1..], tolerant, sees, more);
        SeekShrinks(after, q[1..], tolerant, sees, more + [TrailingComma]);
      }
    }
  }

  ghost function All(e: Env, p: bytes, tolerant: bool, sees: bool, log: seq<Fault>): Run
    decreases |p|
  {
    var o := Next(e, p, tolerant, sees, log);
    SeekShrinks(e, p, tolerant, sees, log);
    if o.answer.Item? then
      var r := All(o.env, o.pending, tolerant, sees, o.reports);
      Run([o.answer.chunk] + r.items, r.last)
    else Run([], o)
  }

  // ----- a complete, well-formed stream -----

  /** The element texts, each with the whitespace behind it. */
  function Texts(it: Items): seq<bytes> {
    if it.End? then [] else [EntryText(it.first)] + Texts(it.rest)
  }

  const RUNNING: Env := Env(true, false, true, false, false)

  /** An element and its separator: the decoder hands out exactly the element. */
  lemma {:induction false} TakesEntry(e: Env, p: bytes, en: Entry, j: nat, tolerant: bool, log: seq<Fault>)
    requires IsName(Array, en.name) && IsValue(en.value) && AllSpace(en.after) && EntryAt(p, 0, en)
    requires j == EntryLen(en) < |p| && Ends(p[j])
    ensures AtElement(p)
    ensures Element(e, p, tolerant, log) ==
      Outcome(Item(EntryText(en)), e.(delivered := true, afterComma := false), p[j..], log)
  {
    EntryFirstByte(p, 0, Array, en);
    var s := Splitter.Initial(0);
    RunEntry(s, p, 0, Array, en, 1);
    Splitter.RunSplit(s, p, 0, j, |p|, 1);
    var t := Splitter.Step(s, j, p[j], 1);
    Splitter.RunHalted(t, p, j + 1, |p|, 1);
    assert FirstEnd(p) == j;
    EntryAtText(p, 0, en);
    AtSlice(p, 0, EntryText(en));
    assert p[..j] == p[0..0 + j];
  }

  lemma {:induction false} TakesEntryText(e: Env, p: bytes, en: Entry, tail: bytes, tolerant: bool, log: seq<Fault>)
    requires IsName(Array, en.name) && IsValue(en.value) && AllSpace(en.after)
    requires p == EntryText(en) + tail && |tail| > 0 && Ends(tail[0])
    ensures AtElement(p)
    ensures Element(e, p, tolerant, log) ==
      Outcome(Item(EntryText(en)), e.(delivered := true, afterComma := false), tail, log)
  {
    var t := EntryText(en);
    AtSlice(p, 0, t);
    assert p[0..0 + |t|] == t && p[|t|..] == tail;
    EntryAtText(p, 0, en);
    TakesEntry(e, p, en, |t|, tolerant, log);
  }

  lemma {:induction false} TrimSpaces(w: bytes, p: bytes)
    requires AllSpace(w) && (|p| > 0 ==> !IsSpace(p[0]))
    ensures Trim(w + p) == p
  {
    var all := w + p;
    assert all[0..|w|] == w;
    SkipSpaceStops(all, 0, |w|);
    assert all[|w|..] == p;
  }

  /** What follows an element in a complete stream: its comma and the other elements, or nothing, and then the closing
      bracket. */
  function Closed(before: bytes, rest: Items, tail: bytes): bytes {
    RestText(before, rest) + ([RBRACKET] + tail)
  }

  /** A comma, whitespace, the next element and what follows it. */
  function Another(before: bytes, en: Entry, tail: bytes): bytes {
    [COMMA] + (before + (EntryText(en) + tail))
  }

  lemma {:induction false} ClosedEnds(before: bytes, rest: Items, tail: bytes)
    ensures var p := Closed(before, rest, tail); |p| > 0 && Ends(p[0])
    ensures rest.End? ==> Closed(before, rest, tail) == [RBRACKET] + tail
    ensures rest.More? ==>
      Closed(before, rest, tail) == Another(before, rest.first, Closed(rest.before, rest.rest, tail))
  {
    if rest.More? {
      var t, r := EntryText(rest.first), RestText(rest.before, rest.rest);
      assert ItemsText(rest) == t + r;
      assert [COMMA] + (before + (t + r)) + ([RBRACKET] + tail) == [COMMA] + (before + (t + (r + ([RBRACKET] + tail))));
    }
  }

  /** One call in front of the comma of the next element. */
  lemma {:induction false} NextBehindComma(before: bytes, en: Entry, tail: bytes, tolerant: bool, sees: bool,
                                           log: seq<Fault>)
    requires IsName(Array, en.name) && IsValue(en.value) && AllSpace(en.after) && AllSpace(before)
    requires |tail| > 0 && Ends(tail[0])
    ensures Next(RUNNING, Another(before, en, tail), tolerant, sees, log) ==
            Outcome(Item(EntryText(en)), RUNNING, tail, log)
  {
    var q := EntryText(en) + tail;
    var p, after := [COMMA] + (before + q), RUNNING.(afterComma := true);
    TakesEntryText(after, q, en, tail, tolerant, log);
    TrimNone(p);
    TrimSpaces(before, q);
    assert p[1..] == before + q;
    assert AsElement(tolerant)(after, q, log) == Element(after, q, tolerant, log);
    assert Seek(after, before + q, tolerant, sees, AsElement(tolerant), log) == Element(after, q, tolerant, log);
  }

  lemma {:induction false} RunRest(before: bytes, rest: Items, tail: bytes, tolerant: bool, sees: bool, log: seq<Fault>)
    requires IsItems(Array, rest) && AllSpace(before)
    ensures All(RUNNING, Closed(before, rest, tail), tolerant, sees, log) ==
            Run(Texts(rest), Outcome(EndOfStream, RUNNING.(ended := true), [RBRACKET] + tail, log))
    decreases rest
  {
    var p := Closed(before, rest, tail);
    ClosedEnds(before, rest, tail);
    if rest.End? {
      TrimNone(p);
      assert Next(RUNNING, p, tolerant, sees, log) == Outcome(EndOfStream, RUNNING.(ended := true), p, log);
    } else {
      ClosedEnds(rest.before, rest.rest, tail);
      NextBehindComma(before, rest.first, Closed(rest.before, rest.rest, tail), tolerant, sees, log);
      RunRest(rest.before, rest.rest, tail, tolerant, sees, log);
    }
  }

  /** The text of a complete stream. */
  function StreamText(w: bytes, x: bytes, it: Items, tail: bytes): bytes {
    w + ([LBRACKET] + (x + (ItemsText(it) + ([RBRACKET] + tail))))
  }

  /** A complete, well-formed stream gives its elements in order and then the end, without a report, in both modes and
      for every way of cutting it. Bytes behind the closing bracket stay unread. */
  lemma {:induction false} WellFormedStream(w: bytes, x: bytes, it: Items, tail: bytes, tolerant: bool, sees: bool)
    requires AllSpace(w) && AllSpace(x) && IsItems(Array, it)
    ensures var r := All(INITIAL, StreamText(w, x, it, tail), tolerant, sees, []);
      && r.items == Texts(it) && r.last.answer == EndOfStream && r.last.env.ended
      && r.last.pending == [RBRACKET] + tail && r.last.reports == []
  {
    var log: seq<Fault> := [];
    var begun, inner := INITIAL.(started := true), ItemsText(it) + ([RBRACKET] + tail);
    var p := StreamText(w, x, it, tail);
    TrimSpaces(w, [LBRACKET] + (x + inner));
    assert ([LBRACKET] + (x + inner))[1..] == x + inner;
    assert Next(INITIAL, p, tolerant, sees, log) == Seek(begun, x + inner, tolerant, sees, AsElement(tolerant), log);
    if it.End? {
      TrimSpaces(x, inner);
    } else {
      FirstOfStream(begun, x, it, tail, tolerant, sees, log);
      RunRest(it.before, it.rest, tail, tolerant, sees, log);
    }
  }

  lemma {:induction false} FirstOfStream(begun: Env, x: bytes, it: Items, tail: bytes, tolerant: bool, sees: bool,
                                         log: seq<Fault>)
    requires AllSpace(x) && IsItems(Array, it) && it.More? && begun == INITIAL.(started := true)
    ensures Seek(begun, x + (ItemsText(it) + ([RBRACKET] + tail)), tolerant, sees, AsElement(tolerant), log) ==
            Outcome(Item(EntryText(it.first)), RUNNING, Closed(it.before, it.rest, tail), log)
  {
    var inner, rest := ItemsText(it) + ([RBRACKET] + tail), Closed(it.before, it.rest, tail);
    assert inner == EntryText(it.first) + rest;
    ClosedEnds(it.before, it.rest, tail);
    TakesEntryText(begun, inner, it.first, rest, tolerant, log);
    TrimSpaces(x, inner);
    assert AsElement(tolerant)(begun, inner, log) == Element(begun, inner, tolerant, log);
  }

  // ----- a stream cut off behind its last element -----

  /** Nothing, not even whitespace, stands behind the last element. */
  predicate LastBare(it: Items) {
    it.More? && LastEntry(it).after == []
  }

  /** All elements but the last. */
  function AllButLast(it: Items): seq<bytes>
    requires it.More?
  {
    if it.rest.End? then [] else [EntryText(it.first)] + AllButLast(it.rest)
  }

  lemma {:induction false} TextsAreLonger(it: Items)
    requires it.More?
    ensures Texts(it) == AllButLast(it) + [EntryText(LastEntry(it))]
  {
    if it.rest.More? {
      TextsAreLonger(it.rest);
    }
  }

  /** The log after a truncation has been noticed. */
  function CutLog(tolerant: bool, log: seq<Fault>): seq<Fault> {
    if tolerant then log + [Truncated] else log
  }

  /** What a call makes of a last element that never finds its terminator: it is handed out if nothing follows it, and
      it is torn, or lost in tolerant mode, if whitespace does. */
  function LastAnswer(en: Entry, tolerant: bool): Answer {
    if en.after == [] then Item(EntryText(en)) else if tolerant then EndOfStream else Torn(EntryText(en))
  }

  /** The splitter finds no end of an element without a terminator. */
  lemma {:induction false} NeverEnds(p: bytes, en: Entry)
    requires IsName(Array, en.name) && IsValue(en.value) && AllSpace(en.after) && EntryAt(p, 0, en) &&
      |p| == EntryLen(en)
    ensures AtElement(p) && FirstEnd(p) == 0
  {
    EntryFirstByte(p, 0, Array, en);
    assert SkipSpace(p, 0) == 0;
    RunEntry(Splitter.Initial(0), p, 0, Array, en, 1);
  }

  /** The strict skipper stops behind the value. */
  lemma {:induction false} StopsBehindValue(p: bytes, en: Entry)
    requires IsName(Array, en.name) && IsValue(en.value) && AllSpace(en.after) && EntryAt(p, 0, en) &&
      |p| == EntryLen(en)
    ensures StrictSkip.SkipValue(p, 0) == StrictSkip.Ok(|p|) <==> en.after == []
  {
    var n := ValueLen(en.value);
    assert |en.after| > 0 ==> p[n] == en.after[0];
    ValueIsSkipped(p, 0, en.value);
  }

  /** A last element without a terminator. */
  lemma {:induction false} TakesLast(e: Env, p: bytes, en: Entry, tolerant: bool, log: seq<Fault>)
    requires IsName(Array, en.name) && IsValue(en.value) && AllSpace(en.after) && p == EntryText(en)
    ensures AtElement(p) && FirstEnd(p) == 0 && (StrictSkip.SkipValue(p, 0) == StrictSkip.Ok(|p|) <==> en.after == [])
    ensures Element(e, p, tolerant, log) ==
            Outcome(LastAnswer(en, tolerant), e.(truncated := true), [], CutLog(tolerant, log))
  {
    AtSlice(p, 0, p);
    assert p[0..0 + |p|] == p;
    EntryAtText(p, 0, en);
    NeverEnds(p, en);
    StopsBehindValue(p, en);
    ElementLost(e, p, tolerant, log);
  }

  /** A run over the elements `it` of a cut stream. */
  ghost predicate EndsCut(r: Run, it: Items, tolerant: bool, log: seq<Fault>)
    requires it.More?
  {
    && r.last.env.truncated && !r.last.env.ended && |r.last.pending| == 0 && r.last.reports == CutLog(tolerant, log)
    && if LastBare(it) then r.items == Texts(it) && r.last.answer == if tolerant then EndOfStream else Failed(Truncated)
       else r.items == AllButLast(it) && r.last.answer == LastAnswer(LastEntry(it), tolerant)
  }

  /** The last element of a cut stream, and the call after it. */
  lemma {:induction false} LastOfCut(e: Env, p: bytes, it: Items, tolerant: bool, sees: bool, log: seq<Fault>)
    requires it.More? && it.rest.End? && IsItems(Array, it) && p == EntryText(it.first) && e.started && !e.ended
    ensures AtElement(p)
    ensures var o := Element(e, p, tolerant, log);
      EndsCut(if o.answer.Item? then
                var r := All(o.env, o.pending, tolerant, sees, o.reports);
                Run([o.answer.chunk] + r.items, r.last)
              else Run([], o), it, tolerant, log)
  {
    TakesLast(e, p, it.first, tolerant, log);
  }

  lemma {:induction false} RunCut(before: bytes, rest: Items, tolerant: bool, sees: bool, log: seq<Fault>)
    requires IsItems(Array, rest) && AllSpace(before) && rest.More?
    ensures EndsCut(All(RUNNING, RestText(before, rest), tolerant, sees, log), rest, tolerant, log)
    decreases rest
  {
    var en, tail := rest.first, RestText(rest.before, rest.rest);
    assert RestText(before, rest) == Another(before, en, tail);
    if rest.rest.End? {
      var q, after := EntryText(en) + tail, RUNNING.(afterComma := true);
      assert q == EntryText(en);
      LastOfCut(after, q, rest, tolerant, sees, log);
      NextAnother(before, q, tolerant, sees, log);
    } else {
      NextBehindComma(before, en, tail, tolerant, sees, log);
      RunCut(rest.before, rest.rest, tolerant, sees, log);
    }
  }

  lemma {:induction false} NextAnother(before: bytes, q: bytes, tolerant: bool, sees: bool, log: seq<Fault>)
    requires AllSpace(before) && AtElement(q)
    ensures Next(RUNNING, [COMMA] + (before + q), tolerant, sees, log) ==
            Element(RUNNING.(afterComma := true), q, tolerant, log)
  {
    var p, after := [COMMA] + (before + q), RUNNING.(afterComma := true);
    TrimNone(p);
    TrimSpaces(before, q);
    assert p[1..] == before + q;
    assert AsElement(tolerant)(after, q, log) == Element(after, q, tolerant, log);
    assert Seek(after, before + q, tolerant, sees, AsElement(tolerant), log) == Element(after, q, tolerant, log);
  }

  /** The text of a stream that was cut off behind its last element and the whitespace that follows it. */
  function CutText(w: bytes, x: bytes, it: Items): bytes {
    w + ([LBRACKET] + (x + ItemsText(it)))
  }

  lemma {:induction false} CutRun(w: bytes, x: bytes, it: Items, tolerant: bool, sees: bool)
    requires AllSpace(w) && AllSpace(x) && IsItems(Array, it) && it.More?
    ensures EndsCut(All(INITIAL, CutText(w, x, it), tolerant, sees, []), it, tolerant, [])
  {
    var log: seq<Fault> := [];
    var begun, inner := INITIAL.(started := true), ItemsText(it);
    TrimSpaces(w, [LBRACKET] + (x + inner));
    assert ([LBRACKET] + (x + inner))[1..] == x + inner;
    var p := CutText(w, x, it);
    assert Next(INITIAL, p, tolerant, sees, log) == Seek(begun, x + inner, tolerant, sees, AsElement(tolerant), log);
    var tail := RestText(it.before, it.rest);
    assert inner == EntryText(it.first) + tail;
    if it.rest.End? {
      assert inner == EntryText(it.first);
      LastOfCut(begun, inner, it, tolerant, sees, log);
    } else {
      TakesEntryText(begun, inner, it.first, tail, tolerant, log);
      RunCut(it.before, it.rest, tolerant, sees, log);
    }
    TrimSpaces(x, inner);
    assert AsElement(tolerant)(begun, inner, log) == Element(begun, inner, tolerant, log);
  }

  /** A stream cut off behind its last element gives all its elements, each exactly once, and then meets the truncation
      if and only if nothing stands behind the last element. With whitespace behind it, all elements but the last are
      given; the strict decoder then answers with the torn text of the last one, and the tolerant decoder drops it. The
      tolerant decoder reports the truncation once in either case. */
  lemma {:induction false} CutStream(w: bytes, x: bytes, it: Items, tolerant: bool, sees: bool)
    requires AllSpace(w) && AllSpace(x) && IsItems(Array, it) && it.More?
    ensures var r := All(INITIAL, CutText(w, x, it), tolerant, sees, []);
      && (r.items == Texts(it) <==> LastBare(it)) && EndsCut(r, it, tolerant, [])
  {
    CutRun(w, x, it, tolerant, sees);
    TextsAreLonger(it);
  }

  /** A digit and a space. */
  lemma {:induction false} OneSpaced() returns (it: Items)
    ensures it.More? && it.rest.End? && IsItems(Array, it) && it.first.after == [0x20]
    ensures EntryText(it.first) == ItemsText(it) == [0x31, 0x20]
  {
    var n := Numbers.Number(false, [0x31], [], Numbers.NoExp);
    assert n.WellFormed() && n.Text() == [0x31];
    it := More(Entry(NoName, Num([0x31]), [0x20]), [], End);
  }

  /** The smallest stream that loses its last element: a bracket, a digit, and a space. */
  lemma {:induction false} SpaceLosesLast(tolerant: bool, sees: bool)
    ensures var r := All(INITIAL, [LBRACKET, 0x31, 0x20], tolerant, sees, []);
      r.items == [] && r.last.answer == if tolerant then EndOfStream else Torn([0x31, 0x20])
  {
    var it := OneSpaced();
    assert CutText([], [], it) == [LBRACKET, 0x31, 0x20];
    CutStream([], [], it, tolerant, sees);
  }

  // ----- the end of the stream, and what the tolerant decoder reports -----

  function Truncations(log: seq<Fault>): nat {
    multiset(log)[Truncated]
  }

  lemma {:induction false} SeekCounts(e: Env, p: bytes, tolerant: bool, sees: bool, log: seq<Fault>)
    requires !e.truncated
    ensures var o := Seek(e, p, tolerant, sees, AsElement(tolerant), log);
      Truncations(o.reports) == Truncations(log) + if tolerant && o.env.truncated then 1 else 0
    decreases |p|
  {
    var q := Trim(p);
    if |q| > 0 && (!e.started || q[0] == COMMA) {
      var after, more := e.(afterComma := true), Complain(e, log);
      if !e.started {
        SeekCounts(e.(started := true), q[1..], tolerant, sees, log);
      } else {
        SeekCounts(after, q[1..], tolerant, sees, more);
        SeekCounts(after, q[1..], tolerant, sees, more + [TrailingComma]);
      }
    }
  }

  /** The outcome of the last of a sequence of calls, the reader having decided `sees` for each of them. */
  ghost function Calls(e: Env, p: bytes, tolerant: bool, sees: seq<bool>, log: seq<Fault>): Outcome
    decreases |sees|
  {
    if |sees| == 0 then Outcome(EndOfStream, e, p, log)
    else
      var o := Next(e, p, tolerant, sees[0], log);
      if |sees| == 1 then o else Calls(o.env, o.pending, tolerant, sees[1..], o.reports)
  }

  /** The truncation sticks: however many calls follow, each of them fails with it, or ends cleanly in tolerant mode,
      and none reports anything or moves on. */
  lemma {:induction false} TruncationSticks(e: Env, p: bytes, tolerant: bool, sees: seq<bool>, log: seq<Fault>)
    requires e.truncated && !e.ended && |sees| > 0
    ensures Calls(e, p, tolerant, sees, log) == Outcome(if tolerant then EndOfStream else Failed(Truncated), e, p, log)
    decreases |sees|
  {
    if |sees| > 1 {
      TruncationSticks(e, p, tolerant, sees[1..], log);
    }
  }

  /** However many calls are made, a truncation is reported at most once. */
  lemma {:induction false} ReportedAtMostOnce(e: Env, p: bytes, tolerant: bool, sees: seq<bool>, log: seq<Fault>)
    ensures Truncations(Calls(e, p, tolerant, sees, log).reports) <= Truncations(log) + if e.truncated then 0 else 1
    decreases |sees|
  {
    if |sees| > 0 {
      var o := Next(e, p, tolerant, sees[0], log);
      if !e.ended && !e.truncated {
        SeekCounts(e, p, tolerant, sees[0], log);
      }
      if |sees| > 1 {
        ReportedAtMostOnce(o.env, o.pending, tolerant, sees[1..], o.reports);
      }
    }
  }

  // ----- a strict run that ends cleanly has seen a closed array -----

  /** What a strict call passes over: the opening bracket if it has not been read, and at most one comma, with
      whitespace. */
  ghost predicate IsGap(e: Env, gap: bytes, comma: bool) {
    exists a, b, c: bytes :: IsSpaced(e, gap, a, b, comma, c)
  }

  ghost predicate IsSpaced(e: Env, gap: bytes, a: bytes, b: bytes, comma: bool, c: bytes) {
    gap == Spaced(e, a, b, comma, c) && AllSpace(a) && AllSpace(b) && AllSpace(c)
  }

  function Spaced(e: Env, a: bytes, b: bytes, comma: bool, c: bytes): bytes {
    Opening(e, a) + (b + Comma(comma, c))
  }

  function Opening(e: Env, a: bytes): bytes {
    if e.started then [] else a + [LBRACKET]
  }

  function Comma(comma: bool, c: bytes): bytes {
    if comma then [COMMA] + c else []
  }

  /** The splitter scans the item from outside strings at depth 0 and is back there behind it. */
  ghost predicate AtElementLevel(item: bytes) {
    AtElement(item) && Splitter.Run(Splitter.Initial(0), item, 0, |item|, 1) == Splitter.Initial(0)
  }

  lemma {:induction false} BackAtLevel(s: Splitter.State, q: bytes, i: nat, end: nat)
    requires i <= |q| && !s.halted && s.chunks == []
    requires var cs := Splitter.Run(s, q, i, |q|, 1).chunks; |cs| == 1 && cs[0].end == end
    ensures i <= end < |q|
    ensures var t := Splitter.Run(s, q, i, end, 1);
      !t.escaped && !t.inString && t.depth == 0 && t.chunks == [] && !t.halted
    ensures Splitter.Run(s, q, i, end, 1).start == s.start
    decreases |q| - i
  {
    var next := Splitter.Step(s, i, q[i], 1);
    if next.halted {
      Splitter.RunHalted(next, q, i + 1, |q|, 1);
    } else {
      BackAtLevel(next, q, i + 1, end);
    }
  }

  lemma {:induction false} ItemAtLevel(e: Env, q: bytes, tolerant: bool, log: seq<Fault>)
    requires AtElement(q) && FirstEnd(q) > 0
    ensures var o := Element(e, q, tolerant, log);
      && o.answer.Item? && AtElementLevel(o.answer.chunk) && q == o.answer.chunk + o.pending
      && |o.pending| > 0 && Ends(o.pending[0]) && o.env == e.(delivered := true, afterComma := false)
  {
    var end := FirstEnd(q);
    var item, s := q[..end], Splitter.Initial(0);
    SplitTiled(q, 1);
    assert SkipSpace(q, 0) == 0;
    BackAtLevel(s, q, 0, end);
    Splitter.RunSame(s, item, q, 0, end, 1);
  }

  /** How a call that did not meet a truncation relates to the bytes it consumed. */
  ghost predicate Consumed(e: Env, p: bytes, sees: bool, o: Outcome, gap: bytes, comma: bool) {
    match o.answer
    case Item(chunk) =>
      && p == gap + (chunk + o.pending) && IsGap(e, gap, comma) && AtElementLevel(chunk)
      && |o.pending| > 0 && Ends(o.pending[0]) && o.env == RUNNING
    case EndOfStream =>
      p == gap + o.pending && IsGap(e, gap, comma) && StartsWith(o.pending, RBRACKET) && o.env.ended &&
        (comma ==> !sees)
    case _ => true
  }

  lemma {:induction false} SplitSpace(p: bytes) returns (w: bytes)
    ensures AllSpace(w) && p == w + Trim(p)
  {
    SkipSpaceBlank(p, 0);
    w := p[0..SkipSpace(p, 0)];
  }

  /** Behind a comma there is an element, or the call fails or finds the truncation. */
  lemma {:induction false} BehindComma(e: Env, p: bytes, sees: bool, log: seq<Fault>)
    requires e.started && !e.ended && !e.truncated && Misplaced(e).Some? && e.delivered &&
      !StartsWith(Trim(p), RBRACKET)
    ensures var o := Seek(e, p, false, sees, AsElement(false), log);
      match o.answer
      case Item(chunk) =>
        o.env.truncated ||
          (AtElementLevel(chunk) && Trim(p) == chunk + o.pending && |o.pending| > 0 && Ends(o.pending[0]) &&
            o.env == RUNNING)
      case EndOfStream => false
      case _ => true
  {
    var q, take := Trim(p), AsElement(false);
    if AtElement(q) {
      assert take(e, q, log) == Element(e, q, false, log);
      if FirstEnd(q) > 0 {
        ItemAtLevel(e, q, false, log);
      }
    }
  }

  lemma {:induction false} GapIsGap(e: Env, a: bytes, b: bytes, comma: bool, c: bytes)
    requires AllSpace(a) && AllSpace(b) && AllSpace(c)
    ensures IsGap(e, Spaced(e, a, b, comma, c), comma)
  {
    assert IsSpaced(e, Spaced(e, a, b, comma, c), a, b, comma, c);
  }

  lemma {:induction false} GapAndRest(b: bytes, c: bytes, r: bytes)
    ensures b + ([COMMA] + (c + r)) == ([] + (b + ([COMMA] + c))) + r
  {
  }

  /** What the call that passes a comma finds behind it. */
  lemma {:induction false} FindsBehindComma(after: Env, rest: bytes, sees: bool, log: seq<Fault>)
    requires after.started && !after.ended && !after.truncated && after.delivered && after.afterComma
    ensures var o, r := Seek(after, rest, false, sees, AsElement(false), log), Trim(rest);
      match o.answer
      case Item(chunk) =>
        o.env.truncated ||
          (AtElementLevel(chunk) && r == chunk + o.pending && |o.pending| > 0 && Ends(o.pending[0]) && o.env == RUNNING)
      case EndOfStream => StartsWith(r, RBRACKET) && o.pending == r && o.env.ended
      case _ => true
  {
    if StartsWith(Trim(rest), RBRACKET) {
      TrimNone(Trim(rest));
    } else {
      BehindComma(after, rest, sees, log);
    }
  }

  /** The call passes a comma. */
  lemma {:induction false} CommaCall(e: Env, p: bytes, b: bytes, rest: bytes, sees: bool, log: seq<Fault>)
    returns (gap: bytes)
    requires e.started && !e.ended && !e.truncated && Misplaced(e).None?
    requires Trim(p) == [COMMA] + rest && AllSpace(b) && p == b + ([COMMA] + rest)
    ensures var o := Seek(e, p, false, sees, AsElement(false), log);
      o.env.truncated || Consumed(e, p, sees, o, gap, true)
  {
    var c := SplitSpace(rest);
    var r := Trim(rest);
    gap := Spaced(e, [], b, true, c);
    GapIsGap(e, [], b, true, c);
    GapAndRest(b, c, r);
    assert p == gap + r;
    FindsBehindComma(e.(afterComma := true), rest, sees, log);
    CommaSeek(e, p, rest, sees, AsElement(false), log);
  }

  lemma {:induction false} CommaSeek(e: Env, p: bytes, rest: bytes, sees: bool, take: Take, log: seq<Fault>)
    requires e.started && Misplaced(e).None? && Trim(p) == [COMMA] + rest
    ensures var after := e.(afterComma := true);
      Seek(e, p, false, sees, take, log) ==
        if sees && StartsWith(Trim(rest), RBRACKET) then Outcome(Failed(TrailingComma), after, Trim(rest), log)
        else Seek(after, rest, false, sees, take, log)
  {
    assert Trim(p)[1..] == rest;
  }

  /** Behind the opening bracket and before any comma. */
  lemma {:induction false} StartedCall(e: Env, p: bytes, sees: bool, log: seq<Fault>) returns (gap: bytes, comma: bool)
    requires e.started && !e.ended && !e.truncated
    ensures var o := Seek(e, p, false, sees, AsElement(false), log);
      o.env.truncated || Consumed(e, p, sees, o, gap, comma)
    ensures comma ==> Misplaced(e).None?
  {
    var b := SplitSpace(p);
    var q := Trim(p);
    comma := StartsWith(q, COMMA) && Misplaced(e).None?;
    if comma {
      assert q == [COMMA] + q[1..];
      gap := CommaCall(e, p, b, q[1..], sees, log);
    } else {
      gap := Spaced(e, [], b, false, []);
      GapIsGap(e, [], b, false, []);
      assert gap == b;
      if AtElement(q) {
        assert AsElement(false)(e, q, log) == Element(e, q, false, log);
        if FirstEnd(q) > 0 {
          ItemAtLevel(e, q, false, log);
        }
      }
    }
  }

  /** Any call that does not meet a truncation and does not fail. */
  lemma {:induction false} OneCall(e: Env, p: bytes, sees: bool, log: seq<Fault>) returns (gap: bytes, comma: bool)
    requires !e.ended && !e.truncated && (e.delivered ==> e.started)
    ensures var o := Next(e, p, false, sees, log);
      o.env.truncated || Consumed(e, p, sees, o, gap, comma)
  {
    if e.started {
      gap, comma := StartedCall(e, p, sees, log);
    } else {
      var a := SplitSpace(p);
      var q, begun := Trim(p), e.(started := true);
      gap, comma := [], false;
      if StartsWith(q, LBRACKET) {
        assert q == [LBRACKET] + q[1..];
        gap := OpeningCall(e, p, a, sees, log);
      }
    }
  }

  lemma {:induction false} OpeningCall(e: Env, p: bytes, a: bytes, sees: bool, log: seq<Fault>) returns (gap: bytes)
    requires !e.started && !e.ended && !e.truncated && !e.delivered
    requires StartsWith(Trim(p), LBRACKET) && AllSpace(a) && p == a + Trim(p)
    ensures var o := Seek(e, p, false, sees, AsElement(false), log);
      o.env.truncated || Consumed(e, p, sees, o, gap, false)
  {
    var q, begun := Trim(p), e.(started := true);
    assert Seek(e, p, false, sees, AsElement(false), log) == Seek(begun, q[1..], false, sees, AsElement(false), log);
    var inner, comma := StartedCall(begun, q[1..], sees, log);
    gap := a + ([LBRACKET] + inner);
    assert q == [LBRACKET] + q[1..];
    assert forall rest :: q[1..] == inner + rest ==> p == gap + rest;
    if IsGap(begun, inner, false) {
      OpenedGap(e, a, inner);
    }
  }

  lemma {:induction false} OpenedGap(e: Env, a: bytes, inner: bytes)
    requires !e.started && AllSpace(a) && IsGap(e.(started := true), inner, false)
    ensures IsGap(e, a + ([LBRACKET] + inner), false)
  {
    var begun := e.(started := true);
    var x, b, c: bytes :| IsSpaced(begun, inner, x, b, false, c);
    assert inner == b;
    assert IsSpaced(e, a + ([LBRACKET] + inner), a, b, false, c);
  }

  /** Gaps and items in turn. */
  function Woven(gaps: seq<bytes>, items: seq<bytes>): bytes
    requires |gaps| == |items| + 1
    decreases |items|
  {
    if |items| == 0 then gaps[0] else gaps[0] + (items[0] + Woven(gaps[1..], items[1..]))
  }

  /** The decoder stands right behind an element. */
  ghost predicate Resuming(e: Env, p: bytes) {
    e == RUNNING && |p| > 0 && Ends(p[0])
  }

  /** Between two items there is exactly one comma; the last gap holds one only if the reader hid what follows. */
  ghost predicate GoodGap(e: Env, resuming: bool, gaps: seq<bytes>, k: nat, sees: bool)
    requires k < |gaps|
  {
    var before, last := if k == 0 then e else RUNNING, k == |gaps| - 1;
    || (IsGap(before, gaps[k], true) && (last ==> !sees))
    || (IsGap(before, gaps[k], false) && (last || (k == 0 && !resuming)))
  }

  ghost predicate GoodGaps(e: Env, resuming: bool, gaps: seq<bytes>, sees: bool) {
    forall k | 0 <= k < |gaps| :: GoodGap(e, resuming, gaps, k, sees)
  }

  lemma {:induction false} GapsCons(e: Env, resuming: bool, gap: bytes, comma: bool, rest: seq<bytes>, sees: bool)
    requires GoodGaps(RUNNING, true, rest, sees) && |rest| > 0 && IsGap(e, gap, comma) && (resuming ==> comma)
    ensures GoodGaps(e, resuming, [gap] + rest, sees)
  {
    var gaps := [gap] + rest;
    forall k | 0 <= k < |gaps| ensures GoodGap(e, resuming, gaps, k, sees) {
      if k > 0 {
        assert GoodGap(RUNNING, true, rest, k - 1, sees);
      }
    }
  }

  lemma {:induction false} CommaBetween(p: bytes, gap: bytes, comma: bool, chunk: bytes, tail: bytes)
    requires |p| > 0 && Ends(p[0]) && p == gap + (chunk + tail) && IsGap(RUNNING, gap, comma) && AtElement(chunk)
    ensures comma
  {
    var a, b, c: bytes :| IsSpaced(RUNNING, gap, a, b, comma, c);
    assert !comma ==> gap == b;
    assert !comma && |b| == 0 ==> p == chunk + tail;
  }

  /** The bytes are the run's gaps and items in turn, and then the closing bracket. */
  ghost predicate ClosedRun(e: Env, p: bytes, sees: bool, r: Run, gaps: seq<bytes>) {
    && |gaps| == |r.items| + 1 && p == Woven(gaps, r.items) + r.last.pending
    && StartsWith(r.last.pending, RBRACKET) && r.last.env.ended
    && (forall k | 0 <= k < |r.items| :: AtElementLevel(r.items[k])) && GoodGaps(e, Resuming(e, p), gaps, sees)
  }

  lemma {:induction false} ClosedCons(e: Env, p: bytes, sees: bool, o: Outcome, gap: bytes, comma: bool, rest: Run,
                                      gaps: seq<bytes>)
    requires o.answer.Item? && Consumed(e, p, sees, o, gap, comma) && ClosedRun(RUNNING, o.pending, sees, rest, gaps)
    ensures ClosedRun(e, p, sees, Run([o.answer.chunk] + rest.items, rest.last), [gap] + gaps)
  {
    var chunk, more, all := o.answer.chunk, [o.answer.chunk] + rest.items, [gap] + gaps;
    if Resuming(e, p) {
      CommaBetween(p, gap, comma, chunk, o.pending);
    }
    GapsCons(e, Resuming(e, p), gap, comma, gaps, sees);
    assert more[1..] == rest.items && all[1..] == gaps;
    assert Woven(all, more) == gap + (chunk + Woven(gaps, rest.items));
  }

  lemma {:induction false} ClosedNil(e: Env, p: bytes, sees: bool, o: Outcome, gap: bytes, comma: bool)
    requires o.answer.EndOfStream? && Consumed(e, p, sees, o, gap, comma)
    ensures ClosedRun(e, p, sees, Run([], o), [gap])
  {
  }

  // ----- streams that are no array -----

  /** The first byte that is not whitespace stands at `j` and does not open an array. */
  predicate OpensOther(p: bytes, j: nat) {
    j < |p| && p[j] != LBRACKET && !IsSpace(p[j]) && forall k | 0 <= k < j :: IsSpace(p[k])
  }

  lemma {:induction false} StartedIsArray(e: Env, p: bytes, tolerant: bool, sees: bool, log: seq<Fault>)
    requires e.started
    ensures Seek(e, p, tolerant, sees, AsElement(tolerant), log).answer != Failed(NotAnArray)
    decreases |p|
  {
    var q := Trim(p);
    if StartsWith(q, COMMA) {
      var after, more := e.(afterComma := true), Complain(e, log);
      StartedIsArray(after, q[1..], tolerant, sees, more);
      StartedIsArray(after, q[1..], tolerant, sees, more + [TrailingComma]);
    }
  }

  /** The first call fails for the missing bracket exactly if something else stands in front, in both modes and however
      the reader cuts the bytes. */
  lemma {:induction false} NotAnArrayIff(p: bytes, tolerant: bool, sees: bool, log: seq<Fault>)
    ensures Next(INITIAL, p, tolerant, sees, log).answer == Failed(NotAnArray) <==> exists j: nat :: OpensOther(p, j)
  {
    var i := SkipSpace(p, 0);
    SkipSpaceBlank(p, 0);
    assert forall k | 0 <= k < i :: p[k] == p[0..i][k];
    forall j: nat | OpensOther(p, j) ensures j == i {
      SkipSpaceStops(p, 0, j);
    }
    var q := Trim(p);
    if |q| > 0 && q[0] == LBRACKET {
      assert p[i] == q[0];
      StartedIsArray(INITIAL.(started := true), q[1..], tolerant, sees, log);
    } else if |q| > 0 {
      assert p[i] == q[0];
      assert OpensOther(p, i);
    }
  }

  /** When a strict run ends cleanly, the stream is an opening bracket, elements at depth 0 separated by one comma each,
      and the closing bracket at element level; nothing between them is lost or invented. Only in front of the closing
      bracket can a trailing comma have passed unseen. */
  lemma {:induction false} CleanEndMeansClosed(e: Env, p: bytes, sees: bool, log: seq<Fault>) returns (gaps: seq<bytes>)
    requires !e.ended && !e.truncated && (e.delivered ==> e.started)
    requires All(e, p, false, sees, log).last.answer == EndOfStream
    ensures ClosedRun(e, p, sees, All(e, p, false, sees, log), gaps)
    decreases |p|
  {
    var o := Next(e, p, false, sees, log);
    var gap, comma := FirstCall(e, p, sees, log);
    if o.answer.Item? {
      var rest := CleanEndMeansClosed(o.env, o.pending, sees, o.reports);
      ClosedCons(e, p, sees, o, gap, comma, All(o.env, o.pending, false, sees, o.reports), rest);
      gaps := [gap] + rest;
    } else {
      ClosedNil(e, p, sees, o, gap, comma);
      gaps := [gap];
    }
  }

  /** The first call of a strict run that ends cleanly. */
  lemma {:induction false} FirstCall(e: Env, p: bytes, sees: bool, log: seq<Fault>) returns (gap: bytes, comma: bool)
    requires !e.ended && !e.truncated && (e.delivered ==> e.started)
    requires All(e, p, false, sees, log).last.answer == EndOfStream
    ensures var o := Next(e, p, false, sees, log);
      && Consumed(e, p, sees, o, gap, comma)
      && if o.answer.Item? then
           var r := All(o.env, o.pending, false, sees, o.reports);
           && o.env == RUNNING && |o.pending| < |p| && r.last.answer == EndOfStream
           && All(e, p, false, sees, log) == Run([o.answer.chunk] + r.items, r.last)
         else o.answer.EndOfStream? && All(e, p, false, sees, log) == Run([], o)
  {
    NotCut(e, p, sees, log);
    gap, comma := OneCall(e, p, sees, log);
    SeekShrinks(e, p, false, sees, log);
  }

  lemma {:induction false} NotCut(e: Env, p: bytes, sees: bool, log: seq<Fault>)
    requires !e.ended && !e.truncated && All(e, p, false, sees, log).last.answer == EndOfStream
    ensures !Next(e, p, false, sees, log).env.truncated
  {
    var o := Next(e, p, false, sees, log);
    if o.env.truncated && o.answer.Item? {
      NotEnded(e, p, sees, log);
      TruncatedRun(o.env, o.pending, sees, o.reports);
    } else if o.answer.EndOfStream? {
      NotTruncated(e, p, sees, log);
    }
  }

  lemma {:induction false} NotEnded(e: Env, p: bytes, sees: bool, log: seq<Fault>)
    requires !e.ended && Seek(e, p, false, sees, AsElement(false), log).answer.Item?
    ensures !Seek(e, p, false, sees, AsElement(false), log).env.ended
    decreases |p|
  {
    var q := Trim(p);
    if |q| > 0 && !e.started {
      NotEnded(e.(started := true), q[1..], sees, log);
    } else if StartsWith(q, COMMA) && Misplaced(e).None? {
      NotEnded(e.(afterComma := true), q[1..], sees, log);
    }
  }

  lemma {:induction false} TruncatedRun(e: Env, p: bytes, sees: bool, log: seq<Fault>)
    requires e.truncated && !e.ended
    ensures All(e, p, false, sees, log).last.answer == Failed(Truncated)
  {
  }

  /** A strict call that ends cleanly has not met a truncation. */
  lemma {:induction false} NotTruncated(e: Env, p: bytes, sees: bool, log: seq<Fault>)
    requires !e.ended && !e.truncated && Next(e, p, false, sees, log).answer == EndOfStream
    ensures !Next(e, p, false, sees, log).env.truncated
  {
    SeekNotTruncated(e, p, sees, log);
  }

  lemma {:induction false} SeekNotTruncated(e: Env, p: bytes, sees: bool, log: seq<Fault>)
    requires !e.truncated && Seek(e, p, false, sees, AsElement(false), log).answer == EndOfStream
    ensures !Seek(e, p, false, sees, AsElement(false), log).env.truncated
    decreases |p|
  {
    var q := Trim(p);
    if |q| > 0 && !e.started {
      SeekNotTruncated(e.(started := true), q[1..], sees, log);
    } else if StartsWith(q, COMMA) && Misplaced(e).None? {
      SeekNotTruncated(e.(afterComma := true), q[1..], sees, log);
    }
  }
}
