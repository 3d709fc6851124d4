/** Draining a stream decoder: the elements are handed to a callback until it declines, an element does not parse, or
    the stream ends. */
module StreamRuns {
  import opened Bytes
  import opened Grammar
  import opened ArrayElements
  import opened StreamSpec
  import opened StreamTheorems
  import opened StreamDecoder

  /** Two outcomes that differ in their reports only. */
  ghost predicate SameCourse(a: Outcome, b: Outcome) {
    a.answer == b.answer && a.env == b.env && a.pending == b.pending
  }

  lemma {:induction false} LogDoesNotMatter(e: Env, p: bytes, tolerant: bool, sees: bool, log: seq<Fault>,
                                            also: seq<Fault>)
    ensures SameCourse(Seek(e, p, tolerant, sees, AsElement(tolerant), log),
      Seek(e, p, tolerant, sees, AsElement(tolerant), also))
    decreases |p|
  {
    var q := Trim(p);
    if |q| > 0 && (!e.started || q[0] == COMMA) {
      var after, more, others := e.(afterComma := true), Complain(e, log), Complain(e, also);
      if !e.started {
        LogDoesNotMatter(e.(started := true), q[1..], tolerant, sees, log, also);
      } else {
        LogDoesNotMatter(after, q[1..], tolerant, sees, more, others);
        LogDoesNotMatter(after, q[1..], tolerant, sees, more + [TrailingComma], others + [TrailingComma]);
      }
    }
  }

  /** While elements come, the cuts make no difference: no comma in front of them trails. */
  lemma {:induction false} SeekSame(e: Env, p: bytes, tolerant: bool, s: bool, t: bool, log: seq<Fault>)
    requires Seek(e, p, tolerant, s, AsElement(tolerant), log).answer.Item?
    ensures Seek(e, p, tolerant, t, AsElement(tolerant), log) == Seek(e, p, tolerant, s, AsElement(tolerant), log)
    decreases |p|
  {
    var q := Trim(p);
    if |q| > 0 && !e.started {
      SeekSame(e.(started := true), q[1..], tolerant, s, t, log);
    } else if StartsWith(q, COMMA) && (tolerant || Misplaced(e).None?) {
      if StartsWith(Trim(q[1..]), RBRACKET) {
        NoItemAtBracket(e.(afterComma := true), q[1..], tolerant, s, Complain(e, log));
        NoItemAtBracket(e.(afterComma := true), q[1..], tolerant, s, Complain(e, log) + [TrailingComma]);
      }
      SeekSame(e.(afterComma := true), q[1..], tolerant, s, t, Complain(e, log));
    }
  }

  lemma {:induction false} NoItemAtBracket(e: Env, p: bytes, tolerant: bool, sees: bool, log: seq<Fault>)
    requires e.started && StartsWith(Trim(p), RBRACKET)
    ensures !Seek(e, p, tolerant, sees, AsElement(tolerant), log).answer.Item?
  {
  }

  lemma {:induction false} ItemsAgree(e: Env, p: bytes, tolerant: bool, s: bool, t: bool, log: seq<Fault>)
    requires Next(e, p, tolerant, s, log).answer.Item?
    ensures Next(e, p, tolerant, s, log) == Next(e, p, tolerant, t, log)
  {
    SeekSame(e, p, tolerant, s, t, log);
  }

  /** The reports made before a run do not change what it delivers. */
  lemma {:induction false} RunsAgree(e: Env, p: bytes, tolerant: bool, t: bool, log: seq<Fault>, also: seq<Fault>)
    ensures var a, b := All(e, p, tolerant, t, log), All(e, p, tolerant, t, also);
      a.items == b.items && a.last.answer == b.last.answer
    decreases |p|
  {
    LogDoesNotMatter(e, p, tolerant, t, log, also);
    var a, b := Next(e, p, tolerant, t, log), Next(e, p, tolerant, t, also);
    if a.answer.Item? {
      SeekShrinks(e, p, tolerant, t, log);
      RunsAgree(a.env, a.pending, tolerant, t, a.reports, b.reports);
    }
  }

  /** What has been handed out so far and what the run from here gives are the whole run, its reports included. */
  ghost predicate OnRun(r: Run, items: seq<bytes>, e: Env, p: bytes, tolerant: bool, t: bool, log: seq<Fault>) {
    var rest := All(e, p, tolerant, t, log);
    r.items == items + rest.items && r.last == rest.last
  }

  lemma {:induction false} AnotherItem(r: Run, items: seq<bytes>, e: Env, p: bytes, tolerant: bool, s: bool,
                                       log: seq<Fault>, o: Outcome, t: bool)
    requires o == Next(e, p, tolerant, s, log) && o.answer.Item? && OnRun(r, items, e, p, tolerant, t, log)
    ensures OnRun(r, items + [o.answer.chunk], o.env, o.pending, tolerant, t, o.reports) && |o.pending| < |p|
  {
    ItemsAgree(e, p, tolerant, s, t, log);
    SeekShrinks(e, p, tolerant, s, log);
  }

  lemma {:induction false} LastCall(r: Run, items: seq<bytes>, e: Env, p: bytes, tolerant: bool, s: bool,
                                    log: seq<Fault>)
    requires !Next(e, p, tolerant, s, log).answer.Item? && OnRun(r, items, e, p, tolerant, s, log)
    ensures items == r.items && Next(e, p, tolerant, s, log) == r.last
  {
  }

  /** One call: an element of both runs that are still possible, or the end of one of them. */
  method NextItem(d: Decoder, ghost seen: Run, ghost unseen: Run, ghost items: seq<bytes>)
    returns (last: Answer, ghost sees: bool)
    requires d.Valid()
    requires OnRun(seen, items, d.Flags(), d.Pending(), d.tolerant, true, d.reports) == true
    requires OnRun(unseen, items, d.Flags(), d.Pending(), d.tolerant, false, d.reports) == true
    modifies d, d.reader, d.buf
    ensures d.Valid() && fresh({d.buf} - old({d.buf})) && d.tolerant == old(d.tolerant)
    ensures last.Item? ==>
      && |d.Pending()| < |old(d.Pending())|
      && OnRun(seen, items + [last.chunk], d.Flags(), d.Pending(), d.tolerant, true, d.reports) == true
      && OnRun(unseen, items + [last.chunk], d.Flags(), d.Pending(), d.tolerant, false, d.reports) == true
    ensures !last.Item? ==> var r := if sees then seen else unseen;
      items == r.items && last == r.last.answer && d.reports == r.last.reports
  {
    ghost var e, p, log := d.Flags(), d.Pending(), d.reports;
    last, sees := d.NextChunk();
    ghost var o := Outcome(last, d.Flags(), d.Pending(), d.reports);
    if last.Item? {
      AnotherItem(seen, items, e, p, d.tolerant, sees, log, o, true);
      AnotherItem(unseen, items, e, p, d.tolerant, sees, log, o, false);
    } else {
      LastCall(if sees then seen else unseen, items, e, p, d.tolerant, sees, log);
    }
  }

  // ----- what the callback gets -----

  /** How the loop ends: with the last answer of the stream, because the callback has had enough, or at an element that
      does not parse. */
  datatype VisitEnd = Drained(last: Answer) | Declined | Damaged(chunk: bytes)

  /** What the callback got, which elements were reported as damaged, and how it ended. */
  datatype Visit = Visit(given: seq<bytes>, damaged: seq<bytes>, ending: VisitEnd)

  /** The visits from item `k` on. The callback decides by all that it has got; the strict decoder stops at an element
      that does not parse, and the tolerant one reports it. */
  function Visits(items: seq<bytes>, k: nat, so: Visit, tolerant: bool, accepts: bytes -> bool,
                  wants: seq<bytes> -> bool): Visit
    requires k <= |items|
    decreases |items| - k
  {
    if k == |items| then so
    else if !accepts(items[k]) then
      if tolerant then Visits(items, k + 1, so.(damaged := so.damaged + [items[k]]), tolerant, accepts, wants)
      else so.(ending := Damaged(items[k]))
    else
      var next := so.(given := so.given + [items[k]]);
      if wants(next.given) then Visits(items, k + 1, next, tolerant, accepts, wants) else next.(ending := Declined)
  }

  /** All visits of a run that ends with `last`. */
  function AllVisits(items: seq<bytes>, last: Answer, tolerant: bool, accepts: bytes -> bool, wants: seq<bytes> -> bool)
    : Visit
  {
    Visits(items, 0, Visit([], [], Drained(last)), tolerant, accepts, wants)
  }

  /** The items that parse, from item `k` on, behind others. */
  function Healthy(items: seq<bytes>, k: nat, so: seq<bytes>, accepts: bytes -> bool): seq<bytes>
    requires k <= |items|
    decreases |items| - k
  {
    if k == |items| then so
    else Healthy(items, k + 1, if accepts(items[k]) then so + [items[k]] else so, accepts)
  }

  /** A callback that never declines gets from a tolerant decoder all elements that parse, and the run goes on to its
      end. */
  lemma {:induction false} TolerantVisits(items: seq<bytes>, k: nat, so: Visit, accepts: bytes -> bool,
                                          wants: seq<bytes> -> bool)
    requires k <= |items| && forall given :: wants(given)
    ensures var v := Visits(items, k, so, true, accepts, wants);
      v.given == Healthy(items, k, so.given, accepts) && v.ending == so.ending
    decreases |items| - k
  {
    if k < |items| {
      var next :=
        if accepts(items[k]) then so.(given := so.given + [items[k]]) else so.(damaged := so.damaged + [items[k]]);
      TolerantVisits(items, k + 1, next, accepts, wants);
    }
  }

  /** From a strict decoder the callback gets a beginning of the items; the run goes on to its end if and only if they
      all parse and the callback declines none of them, and then it gets them all. */
  lemma {:induction false} StrictVisits(items: seq<bytes>, k: nat, so: Visit, accepts: bytes -> bool,
                                        wants: seq<bytes> -> bool)
    requires k <= |items| && so.given == items[..k] && so.ending.Drained?
    ensures var v := Visits(items, k, so, false, accepts, wants);
      && v.given <= items && v.damaged == so.damaged
      && (v.ending.Drained? <==> forall j | k <= j < |items| :: accepts(items[j]) && wants(items[..j + 1]))
      && (v.ending.Drained? ==> v.given == items && v.ending == so.ending)
      && (v.ending.Damaged? ==> |v.given| < |items| && items[|v.given|] == v.ending.chunk && !accepts(v.ending.chunk))
    decreases |items| - k
  {
    if k < |items| {
      var next := so.(given := so.given + [items[k]]);
      assert next.given == items[..k + 1];
      if accepts(items[k]) && wants(next.given) {
        StrictVisits(items, k + 1, next, accepts, wants);
      }
    }
  }

  // ----- the loop -----

  /** What has been visited so far and what the run from here gives are all visits. */
  ghost predicate OnVisit(r: Run, k: nat, given: seq<bytes>, damaged: seq<bytes>, tolerant: bool,
                          accepts: bytes -> bool, wants: seq<bytes> -> bool)
  {
    && k <= |r.items|
    && AllVisits(r.items, r.last.answer, tolerant, accepts, wants) ==
       Visits(r.items, k, Visit(given, damaged, Drained(r.last.answer)), tolerant, accepts, wants)
  }

  lemma {:induction false} VisitStep(r: Run, k: nat, given: seq<bytes>, damaged: seq<bytes>, tolerant: bool,
                                     accepts: bytes -> bool, wants: seq<bytes> -> bool)
    requires k < |r.items| && OnVisit(r, k, given, damaged, tolerant, accepts, wants)
    ensures var c := r.items[k];
      if accepts(c) then
        if wants(given + [c]) then OnVisit(r, k + 1, given + [c], damaged, tolerant, accepts, wants)
        else AllVisits(r.items, r.last.answer, tolerant, accepts, wants) == Visit(given + [c], damaged, Declined)
      else if tolerant then OnVisit(r, k + 1, given, damaged + [c], tolerant, accepts, wants)
      else AllVisits(r.items, r.last.answer, tolerant, accepts, wants) == Visit(given, damaged, Damaged(c))
  {
  }

  /** The item that has been handed out is the next one of the run. */
  lemma {:induction false} NextOfRun(r: Run, items: seq<bytes>, chunk: bytes, e: Env, p: bytes, tolerant: bool, t: bool,
                                     log: seq<Fault>)
    requires OnRun(r, items + [chunk], e, p, tolerant, t, log)
    ensures |items| < |r.items| && r.items[|items|] == chunk
  {
  }

  /** A round that ends the loop has made all visits of the run. */
  ghost predicate VisitsAll(r: Run, v: Visit, tolerant: bool, accepts: bytes -> bool, wants: seq<bytes> -> bool) {
    v == AllVisits(r.items, r.last.answer, tolerant, accepts, wants)
  }

  /** Parses one item and hands it to the callback. */
  method Offer(chunk: bytes, given0: seq<bytes>, damaged0: seq<bytes>, tolerant: bool, accepts: bytes -> bool,
               wants: seq<bytes> -> bool, ghost seen: Run, ghost unseen: Run, ghost k: nat)
    returns (done: bool, v: Visit)
    requires OnVisit(seen, k, given0, damaged0, tolerant, accepts, wants) && k < |seen.items| && seen.items[k] == chunk
    requires OnVisit(unseen, k, given0, damaged0, tolerant, accepts, wants) && k < |unseen.items|
    requires unseen.items[k] == chunk
    ensures done ==>
      !v.ending.Drained? && VisitsAll(seen, v, tolerant, accepts, wants) &&
        VisitsAll(unseen, v, tolerant, accepts, wants)
    ensures !done ==>
      && OnVisit(seen, k + 1, v.given, v.damaged, tolerant, accepts, wants)
      && OnVisit(unseen, k + 1, v.given, v.damaged, tolerant, accepts, wants)
  {
    VisitStep(seen, k, given0, damaged0, tolerant, accepts, wants);
    VisitStep(unseen, k, given0, damaged0, tolerant, accepts, wants);
    if accepts(chunk) {
      var given := given0 + [chunk];
      if !wants(given) {
        return true, Visit(given, damaged0, Declined);
      }
      return false, Visit(given, damaged0, Declined);
    }
    if tolerant {
      return false, Visit(given0, damaged0 + [chunk], Declined);
    }
    return true, Visit(given0, damaged0, Damaged(chunk));
  }

  /** Hands the elements to a callback. However the reader cuts the stream, they are those of the run that its bytes
      determine, and so are the reports of the decoder when the stream is drained. */
  method ForEach(d: Decoder, accepts: bytes -> bool, wants: seq<bytes> -> bool) returns (v: Visit, ghost sees: bool)
    requires d.Valid()
    modifies d, d.reader, d.buf
    ensures d.Valid()
    ensures var r := All(old(d.Flags()), old(d.Pending()), old(d.tolerant), sees, old(d.reports));
      && v == AllVisits(r.items, r.last.answer, old(d.tolerant), accepts, wants)
      && (v.ending.Drained? ==> d.reports == r.last.reports)
  {
    ghost var seen := All(d.Flags(), d.Pending(), d.tolerant, true, d.reports);
    ghost var unseen := All(d.Flags(), d.Pending(), d.tolerant, false, d.reports);
    v, sees := VisitRuns(d, accepts, wants, seen, unseen);
  }

  /** Both runs that are still possible go on from here. */
  ghost predicate Underway(seen: Run, unseen: Run, items: seq<bytes>, given: seq<bytes>, damaged: seq<bytes>, e: Env,
                           p: bytes, tolerant: bool, log: seq<Fault>, accepts: bytes -> bool, wants: seq<bytes> -> bool)
  {
    && OnRun(seen, items, e, p, tolerant, true, log) && OnVisit(seen, |items|, given, damaged, tolerant, accepts, wants)
    && OnRun(unseen, items, e, p, tolerant, false, log) &&
      OnVisit(unseen, |items|, given, damaged, tolerant, accepts, wants)
  }

  /** One round. */
  method VisitNext(d: Decoder, given: seq<bytes>, damaged: seq<bytes>, accepts: bytes -> bool,
                   wants: seq<bytes> -> bool, ghost items: seq<bytes>, ghost seen: Run, ghost unseen: Run)
    returns (done: bool, v: Visit, ghost sees: bool, ghost more: seq<bytes>)
    requires d.Valid()
    requires Underway(seen, unseen, items, given, damaged, d.Flags(), d.Pending(), d.tolerant, d.reports, accepts,
      wants)
    modifies d, d.reader, d.buf
    ensures d.Valid() && fresh({d.buf} - old({d.buf})) && d.tolerant == old(d.tolerant)
    ensures done ==> var r := if sees then seen else unseen;
      VisitsAll(r, v, d.tolerant, accepts, wants) == true && (v.ending.Drained? ==> d.reports == r.last.reports)
    ensures !done ==>
      && |d.Pending()| < |old(d.Pending())|
      && Underway(seen, unseen, more, v.given, v.damaged, d.Flags(), d.Pending(), d.tolerant, d.reports, accepts,
        wants) == true
  {
    var last;
    last, sees := NextItem(d, seen, unseen, items);
    if !last.Item? {
      return true, Visit(given, damaged, Drained(last)), sees, items;
    }
    NextOfRun(seen, items, last.chunk, d.Flags(), d.Pending(), d.tolerant, true, d.reports);
    NextOfRun(unseen, items, last.chunk, d.Flags(), d.Pending(), d.tolerant, false, d.reports);
    done, v := Offer(last.chunk, given, damaged, d.tolerant, accepts, wants, seen, unseen, |items|);
    more := items + [last.chunk];
  }

  method VisitRuns(d: Decoder, accepts: bytes -> bool, wants: seq<bytes> -> bool, ghost seen: Run, ghost unseen: Run)
    returns (v: Visit, ghost sees: bool)
    requires d.Valid()
    requires Underway(seen, unseen, [], [], [], d.Flags(), d.Pending(), d.tolerant, d.reports, accepts, wants)
    modifies d, d.reader, d.buf
    ensures d.Valid()
    ensures var r := if sees then seen else unseen;
      VisitsAll(r, v, old(d.tolerant), accepts, wants) && (v.ending.Drained? ==> d.reports == r.last.reports)
  {
    ghost var items: seq<bytes> := [];
    var given: seq<bytes>, damaged: seq<bytes> := [], [];
    while true
      invariant d.Valid() && fresh({d.buf} - old({d.buf}))
      invariant d.tolerant == old(d.tolerant)
      invariant Underway(seen, unseen, items, given, damaged, d.Flags(), d.Pending(), d.tolerant, d.reports, accepts,
        wants)
      decreases |d.Pending()|
    {
      var done;
      done, v, sees, items := VisitNext(d, given, damaged, accepts, wants, items, seen, unseen);
      if done {
        return;
      }
      given, damaged := v.given, v.damaged;
    }
  }

  /** On a complete, well-formed stream the visits are those of exactly the elements, in order, and then of the end, in
      both modes and however the reader cuts the bytes. */
  method ForEachElement(d: Decoder, accepts: bytes -> bool, wants: seq<bytes> -> bool, ghost w: bytes, ghost x: bytes,
                        ghost it: Items, ghost tail: bytes)
    returns (v: Visit)
    requires d.Valid() && d.Flags() == INITIAL && d.Pending() == StreamText(w, x, it, tail)
    requires AllSpace(w) && AllSpace(x) && IsItems(Array, it)
    modifies d, d.reader, d.buf
    ensures v == AllVisits(Texts(it), EndOfStream, old(d.tolerant), accepts, wants)
  {
    ghost var tolerant, sees, log := d.tolerant, false, d.reports;
    v, sees := ForEach(d, accepts, wants);
    WellFormedStream(w, x, it, tail, tolerant, sees);
    RunsAgree(INITIAL, StreamText(w, x, it, tail), tolerant, sees, log, []);
  }

  /** On a stream that was cut off behind its last element, they are those of all elements exactly if nothing follows
      the last one, and otherwise of all but the last. */
  method ForEachBeforeCut(d: Decoder, accepts: bytes -> bool, wants: seq<bytes> -> bool, ghost w: bytes, ghost x: bytes,
                          ghost it: Items)
    returns (v: Visit)
    requires d.Valid() && d.Flags() == INITIAL && d.Pending() == CutText(w, x, it)
    requires AllSpace(w) && AllSpace(x) && IsItems(Array, it) && it.More?
    modifies d, d.reader, d.buf
    ensures var last :=
        if old(d.tolerant) then EndOfStream else if LastBare(it) then Failed(Truncated)
        else Torn(EntryText(LastEntry(it)));
      v == AllVisits(if LastBare(it) then Texts(it) else AllButLast(it), last, old(d.tolerant), accepts, wants)
  {
    ghost var tolerant, sees, log := d.tolerant, false, d.reports;
    v, sees := ForEach(d, accepts, wants);
    CutStream(w, x, it, tolerant, sees);
    RunsAgree(INITIAL, CutText(w, x, it), tolerant, sees, log, []);
  }

  /** The decoder in front of a trailing comma that it has buffered: it fails if the closing bracket is buffered too,
      and otherwise the stream ends cleanly. */
  method NextAtTrailingComma(d: Decoder) returns (answer: Answer)
    requires d.Valid() && !d.tolerant && AtTrailingComma(d.Flags(), d.Pending()) &&
      StartsWith(Trim(d.Buffered()), COMMA)
    modifies d, d.reader, d.buf
    ensures answer == if old(ShowsBracket(d.Buffered())) then Failed(TrailingComma) else EndOfStream
  {
    ghost var e, p, w, log := d.Flags(), d.Pending(), d.Buffered(), d.reports;
    ghost var sees;
    answer, sees := d.NextChunk();
    CutsDecide(e, p, w, sees, log);
  }
}
