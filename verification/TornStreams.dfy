/** Streams that are cut off inside an element, or behind a comma: what is delivered, and how the run ends. */
module TornStreams {
  import opened Bytes
  import opened Grammar
  import opened ArrayElements
  import opened StreamSpec
  import opened StreamTheorems
  import Splitter
  import Windows
  import StrictSkip
  import CutArrays

  /** What is left of an element that is cut off: nothing, or its first bytes. */
  ghost predicate LeftOf(t: bytes, en: Entry) {
    IsName(Array, en.name) && IsValue(en.value) && AllSpace(en.after) && t <= EntryText(en)
  }

  /** Behind an element: the other complete elements, a comma, whitespace, and what is left of the next element. */
  function Behind(before: bytes, rest: Items, b: bytes, t: bytes): bytes {
    RestText(before, rest) + ([COMMA] + (b + t))
  }

  /** The text of such a stream. */
  function TornText(w: bytes, x: bytes, it: Items, b: bytes, t: bytes): bytes {
    w + ([LBRACKET] + (x + if it.End? then t else ItemsText(it) + ([COMMA] + (b + t))))
  }

  /** It is a complete value, and nothing stands behind it. */
  ghost predicate WholeValue(t: bytes) {
    |t| > 0 && StrictSkip.SkipValue(t, 0) == StrictSkip.Ok(|t|)
  }

  /** The run delivers `items` and what is left of the next element if that is a whole value; then it has met the
      truncation, reported once in tolerant mode, and in strict mode a torn element comes with the error. */
  ghost predicate EndsTorn(r: Run, items: seq<bytes>, t: bytes, tolerant: bool, log: seq<Fault>) {
    && r.items == (if WholeValue(t) then items + [t] else items)
    && r.last.env.truncated && !r.last.env.ended && |r.last.pending| == 0
    && r.last.reports == CutLog(tolerant, log)
    && r.last.answer ==
       if tolerant then EndOfStream else if WholeValue(t) || |t| == 0 then Failed(Truncated) else Torn(t)
  }

  lemma {:induction false} WholeRuns(en: Entry)
    requires IsName(Array, en.name) && IsValue(en.value) && AllSpace(en.after)
    ensures var full, s := EntryText(en), Splitter.Initial(0);
      AtElement(full) && Splitter.Run(s, full, 0, |full|, 1) == s
  {
    var full := EntryText(en);
    AtSlice(full, 0, full);
    assert full[0..0 + |full|] == full;
    EntryAtText(full, 0, en);
    EntryFirstByte(full, 0, Array, en);
    RunEntry(Splitter.Initial(0), full, 0, Array, en, 1);
  }

  /** The splitter finds no end in what is left of an element. */
  lemma {:induction false} TornNeverEnds(t: bytes, en: Entry)
    requires LeftOf(t, en) && |t| > 0
    ensures AtElement(t) && FirstEnd(t) == 0
  {
    var full, s := EntryText(en), Splitter.Initial(0);
    WholeRuns(en);
    CutArrays.NothingBetween(s, full, 0, |t|, |full|, 1);
    Splitter.RunSame(s, t, full, 0, |t|, 1);
    TrimNone(t);
  }

  /** What a call, and the one after it, make of what is left of an element. */
  lemma {:induction false} TakesTorn(e: Env, t: bytes, en: Entry, tolerant: bool, sees: bool, log: seq<Fault>)
    requires LeftOf(t, en) && |t| > 0 && e.started && !e.ended
    ensures AtElement(t)
    ensures var o := Element(e, t, tolerant, log);
      EndsTorn(if o.answer.Item? then
                 var r := All(o.env, o.pending, tolerant, sees, o.reports);
                 Run([o.answer.chunk] + r.items, r.last)
               else Run([], o), [], t, tolerant, log)
  {
    TornNeverEnds(t, en);
    ElementLost(e, t, tolerant, log);
  }

  /** The call behind the last comma, when nothing is left of the next element. */
  lemma {:induction false} DrainsBehindComma(b: bytes, tolerant: bool, sees: bool, log: seq<Fault>)
    requires AllSpace(b)
    ensures EndsTorn(All(RUNNING, [COMMA] + b, tolerant, sees, log), [], [], tolerant, log)
  {
    var p, after := [COMMA] + b, RUNNING.(afterComma := true);
    TrimNone(p);
    assert p[1..] == b && b + [] == b;
    TrimSpaces(b, []);
    assert Seek(after, b, tolerant, sees, AsElement(tolerant), log) == Drained(after, [], tolerant, log);
    assert Next(RUNNING, p, tolerant, sees, log) == Drained(after, [], tolerant, log);
  }

  /** The call behind the last comma. */
  lemma {:induction false} TornBehindComma(b: bytes, t: bytes, en: Entry, tolerant: bool, sees: bool, log: seq<Fault>)
    requires AllSpace(b) && LeftOf(t, en)
    ensures EndsTorn(All(RUNNING, [COMMA] + (b + t), tolerant, sees, log), [], t, tolerant, log)
  {
    if |t| == 0 {
      assert b + t == b;
      DrainsBehindComma(b, tolerant, sees, log);
    } else {
      TakesTorn(RUNNING.(afterComma := true), t, en, tolerant, sees, log);
      NextAnother(b, t, tolerant, sees, log);
    }
  }

  lemma {:induction false} BehindMore(before: bytes, rest: Items, b: bytes, t: bytes)
    requires rest.More?
    ensures Behind(before, rest, b, t) == Another(before, rest.first, Behind(rest.before, rest.rest, b, t))
    ensures var p := Behind(rest.before, rest.rest, b, t); |p| > 0 && Windows.Ends(p[0])
  {
    var head, r := EntryText(rest.first), RestText(rest.before, rest.rest);
    var tail := [COMMA] + (b + t);
    assert ItemsText(rest) == head + r;
    assert [COMMA] + (before + (head + r)) + tail == [COMMA] + (before + (head + (r + tail)));
  }

  lemma {:induction false} RunTorn(before: bytes, rest: Items, b: bytes, t: bytes, en: Entry, tolerant: bool,
                                   sees: bool, log: seq<Fault>)
    requires IsItems(Array, rest) && AllSpace(before) && AllSpace(b) && LeftOf(t, en)
    ensures EndsTorn(All(RUNNING, Behind(before, rest, b, t), tolerant, sees, log), Texts(rest), t, tolerant, log)
    decreases rest
  {
    if rest.End? {
      assert Behind(before, rest, b, t) == [COMMA] + (b + t);
      TornBehindComma(b, t, en, tolerant, sees, log);
    } else {
      var more := Behind(rest.before, rest.rest, b, t);
      BehindMore(before, rest, b, t);
      NextBehindComma(before, rest.first, more, tolerant, sees, log);
      RunTorn(rest.before, rest.rest, b, t, en, tolerant, sees, log);
      OneMore(EntryText(rest.first), All(RUNNING, more, tolerant, sees, log), Texts(rest.rest), t, tolerant, log);
    }
  }

  lemma {:induction false} OneMore(first: bytes, r: Run, items: seq<bytes>, t: bytes, tolerant: bool, log: seq<Fault>)
    requires EndsTorn(r, items, t, tolerant, log)
    ensures EndsTorn(Run([first] + r.items, r.last), [first] + items, t, tolerant, log)
  {
    assert [first] + (items + [t]) == [first] + items + [t];
  }

  /** What stands behind the opening bracket. */
  lemma {:induction false} TornInside(x: bytes, it: Items, b: bytes, t: bytes, en: Entry, tolerant: bool, sees: bool,
                                      log: seq<Fault>)
    requires AllSpace(x) && IsItems(Array, it) && AllSpace(b) && LeftOf(t, en)
    ensures var begun, inner := INITIAL.(started := true), if it.End? then t else ItemsText(it) + ([COMMA] + (b + t));
      EndsTorn(All(begun, x + inner, tolerant, sees, log), Texts(it), t, tolerant, log)
  {
    var begun := INITIAL.(started := true);
    if it.More? {
      var tail := Behind(it.before, it.rest, b, t);
      var inner := EntryText(it.first) + tail;
      assert ItemsText(it) + ([COMMA] + (b + t)) == inner;
      BehindMore([], it, b, t);
      TakesEntryText(begun, inner, it.first, tail, tolerant, log);
      SeekOver(begun, x, inner, tolerant, sees, log);
      RunTorn(it.before, it.rest, b, t, en, tolerant, sees, log);
      OneMore(EntryText(it.first), All(RUNNING, tail, tolerant, sees, log), Texts(it.rest), t, tolerant, log);
    } else if |t| == 0 {
      TrimSpaces(x, t);
      assert Seek(begun, x + t, tolerant, sees, AsElement(tolerant), log) == Drained(begun, t, tolerant, log);
    } else {
      TakesTorn(begun, t, en, tolerant, sees, log);
      SeekOver(begun, x, t, tolerant, sees, log);
    }
  }

  lemma {:induction false} SeekOver(e: Env, x: bytes, q: bytes, tolerant: bool, sees: bool, log: seq<Fault>)
    requires AllSpace(x) && AtElement(q) && e.started && !e.ended && !e.truncated
    ensures Next(e, x + q, tolerant, sees, log) == Element(e, q, tolerant, log)
  {
    TrimSpaces(x, q);
    assert AsElement(tolerant)(e, q, log) == Element(e, q, tolerant, log);
  }

  /** On every stream that is cut off inside an element, or behind a comma, in both modes and however the reader cuts
      the bytes: all complete elements are delivered, in order, and what is left of the next one exactly if it is a
      whole value. */
  lemma {:induction false} TornStream(w: bytes, x: bytes, it: Items, b: bytes, t: bytes, en: Entry, tolerant: bool,
                                      sees: bool)
    requires AllSpace(w) && AllSpace(x) && IsItems(Array, it) && AllSpace(b) && LeftOf(t, en)
    ensures EndsTorn(All(INITIAL, TornText(w, x, it, b, t), tolerant, sees, []), Texts(it), t, tolerant, [])
  {
    var log: seq<Fault> := [];
    var begun, inner := INITIAL.(started := true), if it.End? then t else ItemsText(it) + ([COMMA] + (b + t));
    TrimSpaces(w, [LBRACKET] + (x + inner));
    assert ([LBRACKET] + (x + inner))[1..] == x + inner;
    var p := TornText(w, x, it, b, t);
    assert Next(INITIAL, p, tolerant, sees, log) == Next(begun, x + inner, tolerant, sees, log);
    TornInside(x, it, b, t, en, tolerant, sees, log);
  }
}
