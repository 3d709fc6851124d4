/** Streams with commas that do not belong there: what the tolerant decoder delivers and reports, and where the strict
    one fails, by counting the commas. */
module StrayCommas {
  import opened Bytes
  import opened Grammar
  import opened Windows
  import opened StreamSpec
  import opened StreamTheorems
  import opened StreamDecoder
  import opened StreamRuns

  // ----- elements with any number of commas around them -----

  /** Elements with the bytes in front of each, and the bytes in front of the closing bracket. */
  datatype Spread = Last(gap: bytes) | Elem(gap: bytes, first: Entry, rest: Spread)

  /** Commas and whitespace. */
  predicate IsGap(gap: bytes) {
    forall k | 0 <= k < |gap| :: gap[k] == COMMA || IsSpace(gap[k])
  }

  function Commas(gap: bytes): nat {
    if |gap| == 0 then 0 else (if gap[0] == COMMA then 1 else 0) + Commas(gap[1..])
  }

  /** Behind an element a gap begins with a comma; the last one may be empty. */
  ghost predicate IsSpread(s: Spread, delivered: bool) {
    && IsGap(s.gap)
    && match s
       case Last(gap) => delivered && gap != [] ==> gap[0] == COMMA
       case Elem(gap, en, rest) =>
         && (delivered ==> gap != [] && gap[0] == COMMA)
         && IsName(Array, en.name) && IsValue(en.value) && AllSpace(en.after) && IsSpread(rest, true)
  }

  /** The bytes behind the opening bracket, up to `tail` behind the closing one. */
  function SpreadText(s: Spread, tail: bytes): bytes {
    match s
    case Last(gap) => gap + ([RBRACKET] + tail)
    case Elem(gap, en, rest) => gap + (EntryText(en) + SpreadText(rest, tail))
  }

  function SpreadTexts(s: Spread): seq<bytes> {
    if s.Last? then [] else [EntryText(s.first)] + SpreadTexts(s.rest)
  }

  // ----- what a gap is worth -----

  /** How many commas of a gap are out of place: all of them in front of the first element, and all but one behind an
      element. */
  function Strays(gap: bytes, delivered: bool): nat {
    if !delivered then Commas(gap) else if Commas(gap) > 0 then Commas(gap) - 1 else 0
  }

  function StrayFault(delivered: bool): Fault {
    if delivered then DuplicateComma else LeadingComma
  }

  /** The reports so far, and `n` more of one kind. */
  function Repeated(log: seq<Fault>, n: nat, fault: Fault): seq<Fault> {
    if n == 0 then log else Repeated(log, n - 1, fault) + [fault]
  }

  /** All reports: one for each stray comma, in order; and one for a comma in front of the bracket, if it is seen. */
  function Reported(s: Spread, delivered: bool, sees: bool, log: seq<Fault>): seq<Fault> {
    var more := Repeated(log, Strays(s.gap, delivered), StrayFault(delivered));
    match s
    case Last(gap) => if sees && Commas(gap) > 0 then more + [TrailingComma] else more
    case Elem(_, _, rest) => Reported(rest, true, sees, more)
  }

  // ----- one gap -----

  lemma {:induction false} RepeatedFirst(log: seq<Fault>, n: nat, fault: Fault)
    ensures Repeated(log + [fault], n, fault) == Repeated(log, n + 1, fault)
  {
    if n > 0 {
      RepeatedFirst(log, n - 1, fault);
    }
  }

  /** The flags behind a gap. */
  function Behind(e: Env, gap: bytes): Env {
    if Commas(gap) > 0 then e.(afterComma := true) else e
  }

  /** How many commas of a gap the decoder finds out of place, when it has or has not passed one before. */
  function Found(gap: bytes, e: Env): nat {
    if e.delivered && e.afterComma then Commas(gap) else Strays(gap, e.delivered)
  }

  /** The bytes behind a gap: an element or the closing bracket. */
  predicate Stops(p: bytes) {
    |p| > 0 && !IsSpace(p[0]) && p[0] != COMMA
  }

  function GapLog(gap: bytes, e: Env, trails: bool, log: seq<Fault>): seq<Fault> {
    var more := Repeated(log, Found(gap, e), StrayFault(e.delivered));
    if trails && Commas(gap) > 0 then more + [TrailingComma] else more
  }

  /** Whether the bracket is the next byte behind a gap that is not whitespace. */
  lemma {:induction false} TrimGap(gap: bytes, p: bytes)
    requires IsGap(gap) && Stops(p)
    ensures StartsWith(Trim(gap + p), RBRACKET) <==> Commas(gap) == 0 && p[0] == RBRACKET
    decreases |gap|
  {
    var all := gap + p;
    if |gap| == 0 {
      assert all == p;
      TrimNone(p);
    } else if gap[0] == COMMA {
      TrimNone(all);
    } else {
      var rest := gap[1..];
      TrimOne(all);
      assert all[1..] == rest + p;
      TrimGap(rest, p);
    }
  }

  /** One comma. */
  lemma {:induction false} SeekComma(e: Env, rest: bytes, p: bytes, sees: bool, take: Take, log: seq<Fault>)
    requires e.started && IsGap(rest) && Stops(p)
    ensures var more := Complain(e, log);
      var now := if Commas(rest) == 0 && sees && p[0] == RBRACKET then more + [TrailingComma] else more;
      Seek(e, [COMMA] + (rest + p), true, sees, take, log) ==
      Seek(e.(afterComma := true), rest + p, true, sees, take, now)
  {
    var all := [COMMA] + (rest + p);
    TrimNone(all);
    assert all[1..] == rest + p;
    TrimGap(rest, p);
  }

  lemma {:induction false} SeekSpace(e: Env, c: byte, q: bytes, sees: bool, take: Take, log: seq<Fault>)
    requires IsSpace(c)
    ensures Seek(e, [c] + q, true, sees, take, log) == Seek(e, q, true, sees, take, log)
  {
    var all := [c] + q;
    TrimOne(all);
    assert all[1..] == q;
  }

  /** The tolerant decoder passes a gap and reports its stray commas. */
  lemma {:induction false} SeekGap(e: Env, gap: bytes, p: bytes, sees: bool, take: Take, log: seq<Fault>)
    requires e.started && IsGap(gap) && Stops(p)
    ensures Seek(e, gap + p, true, sees, take, log) ==
            Seek(Behind(e, gap), p, true, sees, take, GapLog(gap, e, sees && p[0] == RBRACKET, log))
    decreases |gap|
  {
    if |gap| == 0 {
      assert gap + p == p;
    } else if gap[0] == COMMA {
      var now := SeekPast(e, gap, p, sees, take, log);
      SeekGap(e.(afterComma := true), gap[1..], p, sees, take, now);
    } else {
      SeekBlank(e, gap, p, sees, take, log);
      SeekGap(e, gap[1..], p, sees, take, log);
    }
  }

  /** Past the first byte of a gap, a comma: the search goes on with the log `now`. */
  lemma {:induction false} SeekPast(e: Env, gap: bytes, p: bytes, sees: bool, take: Take, log: seq<Fault>)
    returns (now: seq<Fault>)
    requires e.started && IsGap(gap) && Stops(p) && |gap| > 0 && gap[0] == COMMA
    ensures var after, rest, trails := e.(afterComma := true), gap[1..], sees && p[0] == RBRACKET;
      && Seek(e, gap + p, true, sees, take, log) == Seek(after, rest + p, true, sees, take, now)
      && Behind(after, rest) == Behind(e, gap) && GapLog(rest, after, trails, now) == GapLog(gap, e, trails, log)
  {
    var rest, more := gap[1..], Complain(e, log);
    assert gap + p == [gap[0]] + (rest + p);
    SeekComma(e, rest, p, sees, take, log);
    CommaStep(e, gap, p, sees, log);
    now := if Commas(rest) == 0 && sees && p[0] == RBRACKET then more + [TrailingComma] else more;
  }

  /** Past whitespace. */
  lemma {:induction false} SeekBlank(e: Env, gap: bytes, p: bytes, sees: bool, take: Take, log: seq<Fault>)
    requires IsGap(gap) && |gap| > 0 && gap[0] != COMMA
    ensures var rest := gap[1..];
      && Seek(e, gap + p, true, sees, take, log) == Seek(e, rest + p, true, sees, take, log)
      && Commas(rest) == Commas(gap)
  {
    var rest := gap[1..];
    assert gap + p == [gap[0]] + (rest + p);
    SeekSpace(e, gap[0], rest + p, sees, take, log);
  }

  /** The first comma of a gap. */
  lemma {:induction false} CommaStep(e: Env, gap: bytes, p: bytes, sees: bool, log: seq<Fault>)
    requires gap != [] && gap[0] == COMMA && |p| > 0
    ensures var rest, more := gap[1..], Complain(e, log);
      var trails := sees && p[0] == RBRACKET;
      var now := if Commas(rest) == 0 && trails then more + [TrailingComma] else more;
      GapLog(rest, e.(afterComma := true), trails, now) == GapLog(gap, e, trails, log)
  {
    var rest, fault := gap[1..], StrayFault(e.delivered);
    RepeatedFirst(log, Commas(rest), fault);
  }

  // ----- the tolerant run -----

  lemma {:induction false} SpreadStops(s: Spread, tail: bytes)
    requires IsSpread(s, true)
    ensures var p := SpreadText(s, tail); |p| > 0 && Ends(p[0])
  {
  }

  /** All calls from in front of a gap. */
  lemma {:induction false} TolerantFrom(e: Env, s: Spread, tail: bytes, sees: bool, log: seq<Fault>)
    requires e.started && !e.ended && !e.truncated && !e.afterComma && IsSpread(s, e.delivered)
    ensures var r := All(e, SpreadText(s, tail), true, sees, log);
      r.items == SpreadTexts(s) && r.last.answer == EndOfStream && r.last.reports == Reported(s, e.delivered, sees, log)
    decreases s
  {
    var p, take := SpreadText(s, tail), AsElement(true);
    match s {
      case Last(gap) =>
        SeekGap(e, gap, [RBRACKET] + tail, sees, take, log);
        TrimNone([RBRACKET] + tail);
      case Elem(gap, en, rest) =>
        var q, more := EntryText(en) + SpreadText(rest, tail), GapLog(gap, e, false, log);
        SpreadStops(rest, tail);
        TakesEntryText(Behind(e, gap), q, en, SpreadText(rest, tail), true, more);
        SeekGap(e, gap, q, sees, take, log);
        TrimNone(q);
        TolerantFrom(e.(delivered := true), rest, tail, sees, more);
    }
  }

  /** A tolerant decoder on a stream whose elements have any number of commas around them: all elements, in order, and
      then the end. It reports one leading comma for each comma in front of the first element, and one duplicate comma
      for each comma beyond the first behind an element, in order; and a comma in front of the bracket if it sees
      that. */
  lemma {:induction false} TolerantSpread(w: bytes, s: Spread, tail: bytes, sees: bool, log: seq<Fault>)
    requires AllSpace(w) && IsSpread(s, false)
    ensures var r := All(INITIAL, w + ([LBRACKET] + SpreadText(s, tail)), true, sees, log);
      r.items == SpreadTexts(s) && r.last.answer == EndOfStream && r.last.reports == Reported(s, false, sees, log)
  {
    var p, begun := [LBRACKET] + SpreadText(s, tail), INITIAL.(started := true);
    TrimSpaces(w, p);
    assert p[1..] == SpreadText(s, tail);
    assert Next(INITIAL, w + p, true, sees, log) == Next(begun, SpreadText(s, tail), true, sees, log);
    TolerantFrom(begun, s, tail, sees, log);
  }

  // ----- the strict run -----

  /** The items in front of the first gap with a stray comma. */
  function StrictTexts(s: Spread, delivered: bool): seq<bytes> {
    if s.Last? || Strays(s.gap, delivered) > 0 then [] else [EntryText(s.first)] + StrictTexts(s.rest, true)
  }

  /** How the strict run ends: at the first stray comma, if there is one. */
  function StrictEnd(s: Spread, delivered: bool, sees: bool): Answer {
    if Strays(s.gap, delivered) > 0 then Failed(StrayFault(delivered))
    else if s.Elem? then StrictEnd(s.rest, true, sees)
    else if sees && Commas(s.gap) > 0 then Failed(TrailingComma)
    else EndOfStream
  }

  lemma {:induction false} StrictSpace(e: Env, c: byte, q: bytes, sees: bool, take: Take, log: seq<Fault>)
    requires IsSpace(c)
    ensures Seek(e, [c] + q, false, sees, take, log) == Seek(e, q, false, sees, take, log)
  {
    var all := [c] + q;
    TrimOne(all);
    assert all[1..] == q;
  }

  /** One comma for the strict decoder. */
  lemma {:induction false} StrictComma(e: Env, rest: bytes, p: bytes, sees: bool, take: Take, log: seq<Fault>)
    requires e.started && IsGap(rest) && Stops(p)
    ensures var o := Seek(e, [COMMA] + (rest + p), false, sees, take, log);
      if Misplaced(e).Some? then o.answer == Failed(StrayFault(e.delivered))
      else if sees && Commas(rest) == 0 && p[0] == RBRACKET then o.answer == Failed(TrailingComma)
      else o == Seek(e.(afterComma := true), rest + p, false, sees, take, log)
  {
    var all := [COMMA] + (rest + p);
    TrimNone(all);
    assert all[1..] == rest + p;
    TrimGap(rest, p);
  }

  /** The strict decoder in front of a gap. */
  lemma {:induction false} StrictGap(e: Env, gap: bytes, p: bytes, sees: bool, take: Take, log: seq<Fault>)
    requires e.started && IsGap(gap) && Stops(p)
    ensures var o := Seek(e, gap + p, false, sees, take, log);
      if Found(gap, e) > 0 then o.answer == Failed(StrayFault(e.delivered))
      else if sees && Commas(gap) > 0 && p[0] == RBRACKET then o.answer == Failed(TrailingComma)
      else o == Seek(Behind(e, gap), p, false, sees, take, log)
    decreases |gap|
  {
    if |gap| == 0 {
      assert gap + p == p;
    } else {
      var rest := gap[1..];
      assert gap + p == [gap[0]] + (rest + p);
      if gap[0] == COMMA {
        StrictComma(e, rest, p, sees, take, log);
        if Misplaced(e).None? && !(sees && Commas(rest) == 0 && p[0] == RBRACKET) {
          StrictGap(e.(afterComma := true), rest, p, sees, take, log);
        }
      } else {
        StrictSpace(e, gap[0], rest + p, sees, take, log);
        StrictGap(e, rest, p, sees, take, log);
      }
    }
  }

  lemma {:induction false} StrictFrom(e: Env, s: Spread, tail: bytes, sees: bool, log: seq<Fault>)
    requires e.started && !e.ended && !e.truncated && !e.afterComma && IsSpread(s, e.delivered)
    ensures var r := All(e, SpreadText(s, tail), false, sees, log);
      r.items == StrictTexts(s, e.delivered) && r.last.answer == StrictEnd(s, e.delivered, sees)
    decreases s
  {
    var take := AsElement(false);
    match s {
      case Last(gap) =>
        StrictGap(e, gap, [RBRACKET] + tail, sees, take, log);
        TrimNone([RBRACKET] + tail);
      case Elem(gap, en, rest) =>
        var q := EntryText(en) + SpreadText(rest, tail);
        SpreadStops(rest, tail);
        TakesEntryText(Behind(e, gap), q, en, SpreadText(rest, tail), false, log);
        StrictGap(e, gap, q, sees, take, log);
        TrimNone(q);
        StrictFrom(e.(delivered := true), rest, tail, sees, log);
    }
  }

  /** A strict decoder on such a stream: the elements in front of the first stray comma, and then its error. */
  lemma {:induction false} StrictSpread(w: bytes, s: Spread, tail: bytes, sees: bool, log: seq<Fault>)
    requires AllSpace(w) && IsSpread(s, false)
    ensures var r := All(INITIAL, w + ([LBRACKET] + SpreadText(s, tail)), false, sees, log);
      r.items == StrictTexts(s, false) && r.last.answer == StrictEnd(s, false, sees)
  {
    var p, begun := [LBRACKET] + SpreadText(s, tail), INITIAL.(started := true);
    TrimSpaces(w, p);
    assert p[1..] == SpreadText(s, tail);
    assert Next(INITIAL, w + p, false, sees, log) == Next(begun, SpreadText(s, tail), false, sees, log);
    StrictFrom(begun, s, tail, sees, log);
  }

  // ----- the decoder itself -----

  /** Draining a tolerant decoder over such a stream, however the reader cuts it: its reports are these. */
  method DrainSpread(d: Decoder, ghost w: bytes, ghost s: Spread, ghost tail: bytes)
    returns (v: Visit, ghost sees: bool)
    requires d.Valid() && d.tolerant && d.Flags() == INITIAL && d.Pending() == w + ([LBRACKET] + SpreadText(s, tail))
    requires AllSpace(w) && IsSpread(s, false)
    modifies d, d.reader, d.buf
    ensures v == AllVisits(SpreadTexts(s), EndOfStream, true, _ => true, _ => true)
    ensures d.reports == Reported(s, false, sees, old(d.reports))
  {
    ghost var log := d.reports;
    v, sees := ForEach(d, _ => true, _ => true);
    TolerantSpread(w, s, tail, sees, log);
    TolerantVisits(SpreadTexts(s), 0, Visit([], [], Drained(EndOfStream)), _ => true, _ => true);
  }
}
