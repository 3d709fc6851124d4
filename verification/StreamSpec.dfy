/** What one call of the stream decoder returns, as a function of the bytes that have not been delivered yet. Nothing in
    it depends on how the reader cuts those bytes, except one choice named `sees`. */
module StreamSpec {
  import opened Wrappers
  import opened Bytes
  import opened Splitter
  import opened Windows
  import StrictSkip
  import Slices

  /** The decoder's flags: the opening bracket was read, the closing bracket was read, an element was delivered, a comma
      was read since, and the envelope was found truncated. */
  datatype Env = Env(started: bool, ended: bool, delivered: bool, afterComma: bool, truncated: bool)

  /** What can be wrong with a stream; the tolerant decoder reports these instead of failing. */
  datatype Fault = NotAnArray | LeadingComma | DuplicateComma | TrailingComma | BadGap | Truncated

  /** The answer to one call. A fragment of a torn element comes with the truncation error. */
  datatype Answer = Item(chunk: bytes) | EndOfStream | Failed(fault: Fault) | Torn(fragment: bytes)

  /** What a call leaves behind: its answer, the flags, the undelivered bytes, and all reports made so far. */
  datatype Outcome = Outcome(answer: Answer, env: Env, pending: bytes, reports: seq<Fault>)

  const INITIAL: Env := Env(false, false, false, false, false)

  function Trim(p: bytes): (q: bytes)
    ensures |q| <= |p| && (|q| > 0 ==> !IsSpace(q[0]))
  {
    var i := SkipSpace(p, 0);
    if i == 0 then p else p[i..]
  }

  function StartsWith(q: bytes, c: byte): bool {
    |q| > 0 && q[0] == c
  }

  /** The end of the first element, if its comma or bracket is there. */
  ghost function FirstEnd(q: bytes): (end: nat)
    ensures end > 0 ==> end < |q| && Ends(q[end])
  {
    var cs := Split(q, 1).chunks;
    SplitTiled(q, 1);
    assert |cs| > 0 ==> Tiles(q, SkipSpace(q, 0), cs, 0);
    if |cs| == 0 then 0 else cs[0].end
  }

  /** The element that begins the pending bytes. One that never finds its terminator is delivered if it is exactly one
      complete value, and it leaves the envelope truncated in any case. */
  ghost function Element(e: Env, q: bytes, tolerant: bool, log: seq<Fault>): Outcome {
    var end := FirstEnd(q);
    if end > 0 then Outcome(Item(q[..end]), e.(delivered := true, afterComma := false), q[end..], log)
    else
      var answer :=
        if StrictSkip.SkipValue(q, 0) == StrictSkip.Ok(|q|) then Item(q) else if tolerant then EndOfStream else Torn(q);
      Outcome(answer, e.(truncated := true), q[|q|..], if tolerant then log + [Truncated] else log)
  }

  /** What a call does with the bytes that begin an element. */
  type Take = (Env, bytes, seq<Fault>) -> Outcome

  ghost function AsElement(tolerant: bool): Take {
    (e: Env, q: bytes, log: seq<Fault>) => Element(e, q, tolerant, log)
  }

  /** Why a comma is out of place here. */
  function Misplaced(e: Env): Option<Fault> {
    if !e.delivered then Some(LeadingComma) else if e.afterComma then Some(DuplicateComma) else None
  }

  /** The log after a comma in this place. */
  function Complain(e: Env, log: seq<Fault>): seq<Fault> {
    if Misplaced(e).Some? then log + [Misplaced(e).value] else log
  }

  /** The stream is exhausted without a closing bracket. */
  function Drained(e: Env, q: bytes, tolerant: bool, log: seq<Fault>): Outcome {
    if tolerant then Outcome(EndOfStream, e.(truncated := true), q, log + [Truncated])
    else Outcome(Failed(Truncated), e.(truncated := true), q, log)
  }

  /** Moves over whitespace, the opening bracket and commas to what decides the call. `sees` says whether the decoder
      has the byte behind a comma in its buffer when it checks for a trailing comma. */
  ghost function Seek(e: Env, p: bytes, tolerant: bool, sees: bool, take: Take, log: seq<Fault>): Outcome
    decreases |p|
  {
    var q := Trim(p);
    if |q| == 0 then Drained(e, q, tolerant, log)
    else if !e.started then
      if q[0] != LBRACKET then Outcome(Failed(NotAnArray), e, q, log)
      else Seek(e.(started := true), q[1..], tolerant, sees, take, log)
    else if q[0] == RBRACKET then Outcome(EndOfStream, e.(ended := true), q, log)
    else if q[0] != COMMA then take(e, q, log)
    else if Misplaced(e).Some? && !tolerant then Outcome(Failed(Misplaced(e).value), e, q, log)
    else
      var after, more := e.(afterComma := true), Complain(e, log);
      if !(sees && StartsWith(Trim(q[1..]), RBRACKET)) then Seek(after, q[1..], tolerant, sees, take, more)
      else if tolerant then Seek(after, q[1..], tolerant, sees, take, more + [TrailingComma])
      else Outcome(Failed(TrailingComma), after, Trim(q[1..]), more)
  }

  /** One call of the decoder. */
  ghost function Next(e: Env, p: bytes, tolerant: bool, sees: bool, log: seq<Fault>): Outcome {
    if e.ended then Outcome(EndOfStream, e, p, log)
    else if e.truncated then Outcome(if tolerant then EndOfStream else Failed(Truncated), e, p, log)
    else Seek(e, p, tolerant, sees, AsElement(tolerant), log)
  }

  lemma {:induction false} TrimOne(p: bytes)
    requires |p| > 0 && IsSpace(p[0])
    ensures Trim(p) == Trim(p[1..])
  {
    var i, rest := SkipSpace(p, 0), p[1..];
    SkipSpaceBlank(p, 0);
    assert rest[0..i - 1] == p[0..i][1..];
    SkipSpaceStops(rest, 0, i - 1);
  }

  lemma {:induction false} TrimNone(p: bytes)
    requires |p| > 0 ==> !IsSpace(p[0])
    ensures Trim(p) == p && SkipSpace(p, 0) == 0
  {
  }

  // ----- one turn of a decoder's loop -----

  /** The bytes begin an element. */
  ghost predicate AtElement(p: bytes) {
    |p| > 0 && !IsSpace(p[0]) && !Ends(p[0])
  }

  /** What a turn can do in front of an element: read or skip whitespace, take the opening bracket or miss it, find the
      stream drained, find the closing bracket, refuse a comma, pass one, or see that one trails. */
  datatype Event = Waits | Opens | MissesArray | Drains | Closes | Refuses | Passes | Trails

  /** Whether a turn answers the call. */
  datatype Move = Again | Answered(answer: Answer)

  /** What the event does to the flags, the pending bytes and the log. */
  ghost predicate Turn(event: Event, tolerant: bool, e: Env, p: bytes, log: seq<Fault>, move: Move, after: Env,
                       rest: bytes, more: seq<Fault>) {
    match event
    case Waits => move == Again && after == e && more == log && Trim(rest) == Trim(p)
    case Opens => !e.started && StartsWith(p, LBRACKET) && move == Again && after == e.(started := true) &&
      rest == p[1..] && more == log
    case MissesArray =>
      && !e.started && |p| > 0 && !IsSpace(p[0]) && p[0] != LBRACKET
      && move == Answered(Failed(NotAnArray)) && after == e && rest == p && more == log
    case Drains =>
      |p| == 0 && move.Answered? && Drained(e, p, tolerant, log) == Outcome(move.answer, after, rest, more)
    case Closes =>
      e.started && StartsWith(p, RBRACKET) && move == Answered(EndOfStream) && after == e.(ended := true) &&
        rest == p && more == log
    case _ => e.started && StartsWith(p, COMMA) && CommaTurn(event, tolerant, e, p, log, move, after, rest, more)
  }

  /** What the comma branch does. */
  ghost predicate CommaTurn(event: Event, tolerant: bool, e: Env, p: bytes, log: seq<Fault>, move: Move, after: Env,
                            rest: bytes, more: seq<Fault>)
    requires |p| > 0
  {
    if event.Refuses? then
      Misplaced(e).Some? && !tolerant && move == Answered(Failed(Misplaced(e).value)) && after == e && rest == p &&
        more == log
    else
      && (Misplaced(e).None? || tolerant) && after == e.(afterComma := true) && Trim(rest) == Trim(p[1..])
      && if event.Passes? then move == Again && more == Complain(e, log)
         else
           && event.Trails? && Trim(rest) == rest && StartsWith(rest, RBRACKET)
           && move == (if tolerant then Again else Answered(Failed(TrailingComma)))
           && more == if tolerant then Complain(e, log) + [TrailingComma] else Complain(e, log)
  }

  lemma {:induction false} PastComma(event: Event, tolerant: bool, e: Env, p: bytes, log: seq<Fault>, move: Move,
                                     after: Env, rest: bytes, more: seq<Fault>)
    requires |p| > 0 && (Misplaced(e).None? || tolerant) && after == e.(afterComma := true)
    requires Trim(rest) == Trim(p[1..])
    requires event.Passes? ==> move == Again && more == Complain(e, log)
    requires !event.Passes? ==>
      && event.Trails? && StartsWith(rest, RBRACKET) && Trim(rest) == rest
      && move == (if tolerant then Again else Answered(Failed(TrailingComma)))
      && more == if tolerant then Complain(e, log) + [TrailingComma] else Complain(e, log)
    ensures CommaTurn(event, tolerant, e, p, log, move, after, rest, more) == true
  {
  }

  lemma {:induction false} CommaIsTurn(event: Event, tolerant: bool, e: Env, p: bytes, log: seq<Fault>, move: Move,
                                       after: Env, rest: bytes, more: seq<Fault>)
    requires (event.Refuses? || event.Passes? || event.Trails?) && e.started && StartsWith(p, COMMA)
    requires CommaTurn(event, tolerant, e, p, log, move, after, rest, more) == true
    ensures Turn(event, tolerant, e, p, log, move, after, rest, more) == true
  {
  }

  lemma {:induction false} CloseIsTurn(tolerant: bool, e: Env, p: bytes, log: seq<Fault>, after: Env)
    requires e.started && StartsWith(p, RBRACKET) && after == e.(ended := true)
    ensures Turn(Closes, tolerant, e, p, log, Answered(EndOfStream), after, p, log) == true
  {
  }

  lemma {:induction false} WaitsIsTurn(tolerant: bool, e: Env, p: bytes, log: seq<Fault>, rest: bytes)
    requires Trim(rest) == Trim(p)
    ensures Turn(Waits, tolerant, e, p, log, Again, e, rest, log) == true
  {
  }

  lemma {:induction false} DrainsIsTurn(tolerant: bool, e: Env, p: bytes, log: seq<Fault>, answer: Answer, after: Env,
                                        rest: bytes, more: seq<Fault>)
    requires |p| == 0 && Drained(e, p, tolerant, log) == Outcome(answer, after, rest, more)
    ensures Turn(Drains, tolerant, e, p, log, Answered(answer), after, rest, more) == true
  {
  }

  /** Which value of the choice the event commits to. */
  ghost predicate Allows(event: Event, rest: bytes, sees: bool) {
    (event.Trails? ==> sees) && (event.Passes? && StartsWith(Trim(rest), RBRACKET) ==> !sees)
  }

  /** A turn keeps the answer that the call will give. */
  lemma {:induction false} TurnKeepsAnswer(event: Event, tolerant: bool, sees: bool, take: Take, e: Env, p: bytes,
                                           log: seq<Fault>, move: Move, after: Env, rest: bytes, more: seq<Fault>)
    requires Turn(event, tolerant, e, p, log, move, after, rest, more) && Allows(event, rest, sees)
    ensures Seek(e, p, tolerant, sees, take, log) ==
      match move
      case Again => Seek(after, rest, tolerant, sees, take, more)
      case Answered(answer) => Outcome(answer, after, rest, more)
  {
    if event.Waits? {
      SeekTrimmed(e, p, rest, tolerant, sees, take, log);
    } else {
      TrimNone(p);
      if event.Passes? || event.Trails? {
        SeekTrimmed(after, p[1..], rest, tolerant, sees, take, more);
      }
    }
  }

  /** Only what follows the whitespace matters. */
  lemma {:induction false} SeekTrimmed(e: Env, p: bytes, q: bytes, tolerant: bool, sees: bool, take: Take,
                                       log: seq<Fault>)
    requires Trim(p) == Trim(q)
    ensures Seek(e, p, tolerant, sees, take, log) == Seek(e, q, tolerant, sees, take, log)
  {
  }

  /** An element whose terminator has arrived does not depend on what arrives later. */
  lemma {:induction false} FirstEndArrived(w: bytes, rest: bytes)
    requires |w| > 0 && !IsSpace(w[0]) && FirstEnd(w) > 0
    ensures FirstEnd(w + rest) == FirstEnd(w)
  {
    SplitPrefix(w, w + rest, 1);
    SplitTiled(w + rest, 1);
  }

  lemma {:induction false} ElementLost(e: Env, q: bytes, tolerant: bool, log: seq<Fault>)
    requires |q| > 0 && FirstEnd(q) == 0
    ensures Element(e, q, tolerant, log) ==
      Outcome(if StrictSkip.SkipValue(q, 0) == StrictSkip.Ok(|q|) then Item(q) else if tolerant then EndOfStream
        else Torn(q),
              e.(truncated := true), q[|q|..], if tolerant then log + [Truncated] else log)
  {
  }

  /** The call that is in progress will have this outcome, for this value of the choice. */
  ghost predicate Leads(e: Env, p: bytes, tolerant: bool, sees: bool, take: Take, log: seq<Fault>, goal: Outcome) {
    Seek(e, p, tolerant, sees, take, log) == goal
  }

  /** The two outcomes that a call can have are still possible, or one of them is settled because nothing but the
      closing bracket follows. */
  ghost predicate OnCourse(either: bool, sees: bool, e: Env, p: bytes, tolerant: bool, take: Take, log: seq<Fault>,
                           seen: Outcome, unseen: Outcome) {
    && (either || sees ==> Leads(e, p, tolerant, true, take, log, seen))
    && (either || !sees ==> Leads(e, p, tolerant, false, take, log, unseen))
    && (!either ==> e.started && StartsWith(Trim(p), RBRACKET))
  }

  /** The event settles the choice. */
  ghost predicate Settles(event: Event, rest: bytes) {
    event.Trails? || (event.Passes? && StartsWith(Trim(rest), RBRACKET))
  }

  lemma {:induction false} StaysOnCourse(either: bool, sees: bool, e: Env, p: bytes, tolerant: bool, take: Take,
                                         log: seq<Fault>, seen: Outcome, unseen: Outcome, event: Event, move: Move,
                                         q: bytes, after: Env, rest: bytes, more: seq<Fault>)
    requires OnCourse(either, sees, e, p, tolerant, take, log, seen, unseen) && Trim(q) == Trim(p)
    requires Turn(event, tolerant, e, q, log, move, after, rest, more) == true
    ensures var settled := if Settles(event, rest) then event.Trails? else sees;
      match move
      case Again => OnCourse(either && !Settles(event, rest), settled, after, rest, tolerant, take, more, seen, unseen)
      case Answered(answer) => Outcome(answer, after, rest, more) == if settled then seen else unseen
  {
    if (either || sees) && Allows(event, rest, true) {
      SeekTrimmed(e, p, q, tolerant, true, take, log);
      TurnKeepsAnswer(event, tolerant, true, take, e, q, log, move, after, rest, more);
    }
    if (either || !sees) && Allows(event, rest, false) {
      SeekTrimmed(e, p, q, tolerant, false, take, log);
      TurnKeepsAnswer(event, tolerant, false, take, e, q, log, move, after, rest, more);
    }
    if !either && (event.Passes? || event.Trails?) {
      TrimNone(q);
      assert false;
    }
  }

  /** More bytes, or fewer blanks, make no difference. */
  lemma {:induction false} WaitsOnCourse(either: bool, sees: bool, e: Env, p: bytes, tolerant: bool, take: Take,
                                         log: seq<Fault>, seen: Outcome, unseen: Outcome, q: bytes)
    requires OnCourse(either, sees, e, p, tolerant, take, log, seen, unseen) && Trim(q) == Trim(p)
    ensures OnCourse(either, sees, e, q, tolerant, take, log, seen, unseen)
  {
    SeekTrimmed(e, p, q, tolerant, true, take, log);
    SeekTrimmed(e, p, q, tolerant, false, take, log);
  }

  /** At an element, the call's outcome is what is made of the element. */
  lemma {:induction false} ArrivesAtElement(either: bool, sees: bool, e: Env, p: bytes, tolerant: bool, take: Take,
                                            log: seq<Fault>, seen: Outcome, unseen: Outcome, q: bytes)
    requires OnCourse(either, sees, e, p, tolerant, take, log, seen, unseen) && Trim(q) == Trim(p)
    requires e.started && AtElement(q)
    ensures take(e, q, log) == if sees then seen else unseen
  {
    TrimNone(q);
    SeekTrimmed(e, p, q, tolerant, sees, take, log);
    assert Seek(e, q, tolerant, sees, take, log) == take(e, q, log);
  }

  // ----- what the buffered bytes decide -----

  /** The next bytes are a comma in a legal place and then the closing bracket. */
  predicate AtTrailingComma(e: Env, p: bytes) {
    && e.started && !e.ended && !e.truncated && Misplaced(e).None?
    && StartsWith(Trim(p), COMMA) && StartsWith(Trim(Trim(p)[1..]), RBRACKET)
  }

  /** The bytes begin with a comma and the closing bracket, whitespace apart. */
  predicate ShowsBracket(w: bytes) {
    StartsWith(Trim(w), COMMA) && StartsWith(Trim(Trim(w)[1..]), RBRACKET)
  }

  /** In front of a trailing comma that is buffered: the choice is whether the bracket is buffered too. */
  predicate SeesFrom(e: Env, p: bytes, w: bytes, sees: bool) {
    AtTrailingComma(e, p) && StartsWith(Trim(w), COMMA) ==> (sees <==> ShowsBracket(w))
  }

  /** A turn at a comma in a legal place finds that the comma trails exactly if the bracket is buffered. */
  predicate TurnSees(e: Env, w: bytes, event: Event) {
    e.started && Misplaced(e).None? && StartsWith(Trim(w), COMMA) ==>
      if ShowsBracket(w) then event.Trails? else event.Passes?
  }

  lemma {:induction false} NoCommaSeen(e: Env, w: bytes, event: Event)
    requires !StartsWith(Trim(w), COMMA)
    ensures TurnSees(e, w, event) == true
  {
  }

  lemma {:induction false} CommaSeen(e: Env, w: bytes, b: bytes, event: Event)
    requires b == Trim(w) && StartsWith(b, COMMA)
    requires e.started && Misplaced(e).None? ==>
      if StartsWith(Trim(b[1..]), RBRACKET) then event.Trails? else event.Passes?
    ensures TurnSees(e, w, event) == true
  {
  }

  /** The first turn in front of a trailing comma that is buffered settles the choice. */
  lemma {:induction false} TurnSettles(tolerant: bool, e: Env, p: bytes, q: bytes, w: bytes, log: seq<Fault>,
                                       event: Event, move: Move, after: Env, rest: bytes, more: seq<Fault>)
    requires Turn(event, tolerant, e, q, log, move, after, rest, more) == true && Trim(q) == Trim(p)
    requires TurnSees(e, w, event) && AtTrailingComma(e, p) && StartsWith(Trim(w), COMMA)
    ensures Settles(event, rest) && (event.Trails? <==> ShowsBracket(w))
  {
    TrimNone(q);
  }

  /** Once the choice is settled, later turns leave it alone. */
  lemma {:induction false} StaysSettled(tolerant: bool, sees: bool, e: Env, p: bytes, take: Take, log: seq<Fault>,
                                        seen: Outcome, unseen: Outcome, event: Event, move: Move, q: bytes, after: Env,
                                        rest: bytes, more: seq<Fault>)
    requires OnCourse(false, sees, e, p, tolerant, take, log, seen, unseen) && Trim(q) == Trim(p)
    requires Turn(event, tolerant, e, q, log, move, after, rest, more) == true
    ensures !Settles(event, rest)
  {
    if event.Passes? || event.Trails? {
      TrimNone(q);
    }
  }

  /** In front of a trailing comma that is buffered, the choice is settled. */
  predicate Decided(e: Env, p: bytes, w: bytes, either: bool, sees: bool) {
    AtTrailingComma(e, p) && StartsWith(Trim(w), COMMA) ==> !either && (sees <==> ShowsBracket(w))
  }

  lemma {:induction false} StandsDecided(e: Env, p: bytes, w: bytes, either: bool, sees: bool)
    requires |w| > 0 ==> TurnSees(e, w, Waits)
    ensures Decided(e, p, w, either, sees) == true
  {
    if |w| == 0 {
      TrimNone(w);
    }
  }

  /** What a turn settles. */
  lemma {:induction false} TurnDecides(either: bool, sees: bool, e: Env, p: bytes, tolerant: bool, take: Take,
                                       log: seq<Fault>, seen: Outcome, unseen: Outcome, event: Event, move: Move,
                                       q: bytes, after: Env, rest: bytes, more: seq<Fault>, w: bytes)
    requires OnCourse(either, sees, e, p, tolerant, take, log, seen, unseen) && Trim(q) == Trim(p)
    requires Turn(event, tolerant, e, q, log, move, after, rest, more) == true && (|w| > 0 ==> TurnSees(e, w, event))
    ensures var settles := Settles(event, rest);
      Decided(e, p, w, either && !settles, if settles then event.Trails? else sees) == true && (settles ==> either)
  {
    if !either {
      StaysSettled(tolerant, sees, e, p, take, log, seen, unseen, event, move, q, after, rest, more);
    }
    if |w| == 0 {
      TrimNone(w);
    } else if AtTrailingComma(e, p) && StartsWith(Trim(w), COMMA) {
      TurnSettles(tolerant, e, p, q, w, log, event, move, after, rest, more);
    }
  }

  /** A settled choice stays settled; an open one is settled by the first round, if that is in front of the comma. */
  lemma {:induction false} StaysDecided(e: Env, p: bytes, w: bytes, first: bool, either0: bool, sees0: bool,
                                        either: bool, sees: bool)
    requires !first ==> Decided(e, p, w, either0, sees0)
    requires first ==> Decided(e, p, w, either, sees)
    requires !either0 ==> !either && sees == sees0
    ensures Decided(e, p, w, either, sees) == true && SeesFrom(e, p, w, sees) == true
  {
  }

  // ----- blocks of elements -----

  /** Stops at the element and leaves it where it is. */
  ghost function Marks(): Take {
    (e: Env, q: bytes, log: seq<Fault>) => Outcome(Item(q), e, q, log)
  }

  /** What a block call makes of the bytes at an element, when the splitter has found `n` chunks in the bytes that have
      arrived: the elements among them as one block, or the complete last value of a truncated stream. */
  ghost predicate BlockAt(e: Env, q: bytes, size: nat, n: nat, answer: Answer, count: nat, after: Env, rest: bytes) {
    if FirstEnd(q) == 0 then
      && after == e.(truncated := true)
      && if StrictSkip.SkipValue(q, 0) == StrictSkip.Ok(|q|) then answer == Item(q) && count == 1 && |rest| == 0
         else answer == Failed(Truncated) && count == 0 && rest == q
    else
      var cs := Split(q, n).chunks;
      var kept := Solid(cs);
      && 1 <= n <= size && |cs| == n
      && if Slices.GapsOk(q, kept, false) then
           && answer == Item(Upto(q, EndOf(kept))) && count == |kept| && count > 0
           && after == e.(delivered := true, afterComma := false) && rest == From(q, EndOf(kept))
         else answer == Failed(BadGap) && count == 0 && after == e && rest == q
  }

  /** What is handed out is cut from the front of the bytes that were buffered; the rest stays. */
  predicate CutsFront(answer: Option<Answer>, left: bytes, buffered: bytes) {
    answer.Some? && answer.value.Item? ==> answer.value.chunk + left == buffered
  }

  /** A block call that hands something out has split everything that has arrived: what it hands out and `w`, what is
      still buffered behind it. */
  ghost predicate SplitsAll(size: nat, n: nat, answer: Answer, w: bytes) {
    answer.Item? ==> n == |Split(answer.chunk + w, size).chunks|
  }

  lemma {:induction false} SplitAll(size: nat, n: nat, answer: Answer, w: bytes, buffered: bytes)
    requires CutsFront(Some(answer), w, buffered)
    requires n == |Split(buffered, size).chunks|
    ensures SplitsAll(size, n, answer, w) == true
  {
  }

  /** A second comma is always an error, but which one depends on what has arrived: if it is taken for an empty element
      at the end of the stream, the envelope counts as truncated. */
  ghost predicate DoubledAt(o: Outcome, answer: Answer, count: nat, after: Env, rest: bytes) {
    && answer.Failed? && count == 0 && rest == o.pending
    && after == if answer == Failed(Truncated) then o.env.(truncated := true) else o.env
  }

  /** How a block call relates to what stops the search for an element. */
  ghost predicate BlockCall(o: Outcome, size: nat, n: nat, answer: Answer, count: nat, after: Env, rest: bytes) {
    if o.answer.Item? then BlockAt(o.env, o.answer.chunk, size, n, answer, count, after, rest)
    else if o.answer == Failed(DuplicateComma) then DoubledAt(o, answer, count, after, rest)
    else answer == o.answer && count == 0 && after == o.env && rest == o.pending
  }

  /** A block holds no more elements than the limit. */
  lemma {:induction false} BlockFits(o: Outcome, size: nat, n: nat, answer: Answer, count: nat, after: Env, rest: bytes)
    requires BlockCall(o, size, n, answer, count, after, rest) && size > 0
    ensures count <= size
  {
    if o.answer.Item? {
      var cs := Split(o.answer.chunk, n).chunks;
      SolidPrefix(cs, 0, |cs|);
    }
  }

  /** Where a block call answers: at an element, or between two commas, and then the search ends in an error. */
  lemma {:induction false} BlockAnswers(either: bool, sees: bool, e: Env, q: bytes, log: seq<Fault>, seen: Outcome,
                                        unseen: Outcome, size: nat, n: nat, answer: Answer, count: nat, after: Env,
                                        rest: bytes)
    requires OnCourse(either, sees, e, q, false, Marks(), log, seen, unseen) == true && e.started
    requires AtElement(q) || (StartsWith(q, COMMA) && e.delivered && e.afterComma)
    requires StartsWith(q, COMMA) ==> DoubledAt(Outcome(answer, e, q, log), answer, count, after, rest) == true
    requires AtElement(q) ==> BlockAt(e, q, size, n, answer, count, after, rest) == true
    ensures BlockCall(if sees then seen else unseen, size, n, answer, count, after, rest) == true
  {
    TrimNone(q);
    if AtElement(q) {
      ArrivesAtElement(either, sees, e, q, false, Marks(), log, seen, unseen, q);
    }
  }

  function Upto(q: bytes, i: nat): bytes {
    if i <= |q| then q[..i] else q
  }

  function From(q: bytes, i: nat): bytes {
    if i <= |q| then q[i..] else []
  }

  /** At an element the first chunk is the element, so something is kept. */
  lemma {:induction false} FirstIsKept(q: bytes, cap: nat)
    requires AtElement(q) && Split(q, cap).chunks != []
    ensures var cs := Split(q, cap).chunks; Solid(cs) != [] && cs[0].end > 0
  {
    var cs := Split(q, cap).chunks;
    SplitTiled(q, cap);
    assert SkipSpace(q, 0) == 0;
    assert Tiles(q, 0, cs, 0);
    assert cs[0].start != cs[0].end;
    assert SolidTo(cs, 1) != [];
    SolidPrefix(cs, 1, |cs|);
  }

  lemma {:induction false} KeptAscend(w: bytes, cap: nat)
    ensures Ascending(Solid(Split(w, cap).chunks), |w|) && EndOf(Solid(Split(w, cap).chunks)) <= |w|
  {
    var cs := Split(w, cap).chunks;
    var kept := Solid(cs);
    SplitTiled(w, cap);
    SolidTiled(w, SkipSpace(w, 0), cs, |cs|);
    assert |cs| > 0 ==> Tiles(w, SkipSpace(w, 0), cs, |cs| - 1);
    Slices.AscendingWider(kept, EndTo(cs, |cs|), |w|);
  }

  /** The gaps between chunks of the bytes that have arrived are gaps between chunks of all bytes. */
  lemma {:induction false} GapsArrived(w: bytes, p: bytes, kept: seq<Chunk>)
    requires w <= p && Ascending(kept, |w|)
    ensures Slices.GapsOk(w, kept, false) <==> Slices.GapsOk(p, kept, false)
  {
    forall k | 0 <= k < |kept| ensures Slices.GapOk(w, kept, k, false) <==> Slices.GapOk(p, kept, k, false) {
      assert Ascends(kept, k, |w|);
      var from := if k == 0 then 0 else kept[k - 1].end;
      assert w[from..kept[k].start] == p[from..kept[k].start];
    }
  }

  lemma {:induction false} SolidMembers(cs: seq<Chunk>, n: nat)
    requires n <= |cs|
    ensures forall c | c in SolidTo(cs, n) :: c in cs && c.start != c.end
  {
    if n > 0 {
      SolidMembers(cs, n - 1);
    }
  }

  /** Behind a doubled comma no chunk is acceptable. */
  lemma {:induction false} DoubledCommaGap(w: bytes, cap: nat)
    requires StartsWith(w, COMMA) && Solid(Split(w, cap).chunks) != []
    ensures !Slices.GapsOk(w, Solid(Split(w, cap).chunks), false)
  {
    var cs := Split(w, cap).chunks;
    var kept := Solid(cs);
    SplitTiled(w, cap);
    KeptAscend(w, cap);
    SolidMembers(cs, |cs|);
    assert kept[0] in kept && Ascends(kept, 0, |w|);
    var j :| 0 <= j < |cs| && cs[j] == kept[0];
    if cap > 0 {
      SplitAtSeparator(w, cap);
    }
    assert Tiles(w, 0, cs, j);
    var gap := w[0..kept[0].start];
    assert gap[0] == COMMA;
    assert !Slices.GapOk(w, kept, 0, false);
  }
}
