/** Runs of a strict stream decoder that mix calls for one element and calls for a block, in any order and for as long
    as one likes, also behind errors. */
module MixedRuns {
  import opened Wrappers
  import opened Bytes
  import opened Grammar
  import opened ArrayElements
  import opened StreamSpec
  import opened StreamTheorems
  import opened StreamRuns
  import opened StreamDecoder
  import opened BlockTheorems
  import opened StreamLevels

  // ----- calls and runs -----

  /** A call, with what the reader's cuts decided during it. */
  datatype Call = Element(sees: bool) | Block(size: nat, sees: bool, n: nat)

  /** What a call answers, how many elements that is, and what it leaves behind. */
  datatype Reply = Reply(answer: Answer, count: nat, env: Env, pending: bytes)

  datatype Event = Event(call: Call, reply: Reply)

  /** The reply that the decoder's contracts allow for a call in this state. */
  ghost predicate Replies(call: Call, e: Env, p: bytes, r: Reply) {
    match call
    case Element(sees) =>
      var o := Next(e, p, false, sees, []);
      r == Reply(o.answer, if o.answer.Item? then 1 else 0, o.env, o.pending)
    case Block(size, sees, n) =>
      && size > 0
      && if e.ended || e.truncated then r == Reply(if e.ended then EndOfStream else Failed(Truncated), 0, e, p)
         else BlockCall(Seek(e, p, false, sees, Marks(), []), size, n, r.answer, r.count, r.env, r.pending)
  }

  ghost predicate IsRun(e: Env, p: bytes, run: seq<Event>)
    decreases |run|
  {
    |run| > 0 ==> Replies(run[0].call, e, p, run[0].reply) && IsRun(run[0].reply.env, run[0].reply.pending, run[1..])
  }

  lemma {:induction false} MarksLog(e: Env, p: bytes, sees: bool, log: seq<Fault>)
    ensures SameCourse(Seek(e, p, false, sees, Marks(), log), Seek(e, p, false, sees, Marks(), []))
    decreases |p|
  {
    var q := Trim(p);
    if |q| > 0 && !e.started {
      MarksLog(e.(started := true), q[1..], sees, log);
    } else if StartsWith(q, COMMA) && Misplaced(e).None? {
      MarksLog(e.(afterComma := true), q[1..], sees, log);
    }
  }

  lemma {:induction false} RunAppend(e: Env, p: bytes, run: seq<Event>, ev: Event)
    requires IsRun(e, p, run)
    requires Replies(ev.call, if run == [] then e else run[|run| - 1].reply.env, if run == [] then p
      else run[|run| - 1].reply.pending,
                     ev.reply)
    ensures IsRun(e, p, run + [ev])
    decreases |run|
  {
    var all := run + [ev];
    if run == [] {
      assert all[1..] == [];
    } else {
      assert all[1..] == run[1..] + [ev];
      RunAppend(run[0].reply.env, run[0].reply.pending, run[1..], ev);
    }
  }

  /** A client that asks for single elements and for blocks as it likes: `None` stands for an element, and a number for
      a block of at most so many. Whatever the reader does, this is a run. */
  method Serve(d: Decoder, requests: seq<Option<int>>) returns (ghost run: seq<Event>)
    requires d.Valid() && !d.tolerant
    modifies d, d.reader, d.buf
    ensures d.Valid() && |run| == |requests| && IsRun(old(d.Flags()), old(d.Pending()), run)
    ensures run != [] ==> d.Flags() == run[|run| - 1].reply.env && d.Pending() == run[|run| - 1].reply.pending
  {
    run := [];
    for i := 0 to |requests|
      invariant d.Valid() && fresh({d.buf} - old({d.buf})) && !d.tolerant
      invariant |run| == i && IsRun(old(d.Flags()), old(d.Pending()), run)
      invariant d.Flags() == if run == [] then old(d.Flags()) else run[|run| - 1].reply.env
      invariant d.Pending() == if run == [] then old(d.Pending()) else run[|run| - 1].reply.pending
    {
      ghost var ev := Ask(d, requests[i]);
      RunAppend(old(d.Flags()), old(d.Pending()), run, ev);
      run := run + [ev];
    }
  }

  /** One call of the client. */
  method Ask(d: Decoder, request: Option<int>) returns (ghost ev: Event)
    requires d.Valid() && !d.tolerant
    modifies d, d.reader, d.buf
    ensures d.Valid() && fresh({d.buf} - old({d.buf})) && !d.tolerant
    ensures Replies(ev.call, old(d.Flags()), old(d.Pending()), ev.reply)
    ensures d.Flags() == ev.reply.env && d.Pending() == ev.reply.pending
  {
    ghost var e, p, log := d.Flags(), d.Pending(), d.reports;
    ghost var sees;
    if request.None? {
      var answer;
      answer, sees := d.NextChunk();
      LogDoesNotMatter(e, p, false, sees, log, []);
      ev := Event(Element(sees), Reply(answer, if answer.Item? then 1 else 0, d.Flags(), d.Pending()));
    } else {
      var answer, count;
      ghost var n;
      answer, count, sees, n := d.NextRawBlock(request.value);
      MarksLog(e, p, sees, log);
      ev := Event(Block(d.Limit(request.value), sees, n), Reply(answer, count, d.Flags(), d.Pending()));
    }
  }

  // ----- the truncation sticks, and so does the end -----

  ghost predicate AllReply(run: seq<Event>, answer: Answer) {
    forall k | 0 <= k < |run| :: run[k].reply.answer == answer && run[k].reply.count == 0
  }

  /** Once the envelope counts as truncated, every later call of either kind fails with the truncation; and once the
      closing bracket was read, every later call answers with the end. */
  lemma {:induction false} EndsStick(e: Env, p: bytes, run: seq<Event>)
    requires (e.ended || e.truncated) && IsRun(e, p, run)
    ensures AllReply(run, if e.ended then EndOfStream else Failed(Truncated))
    decreases |run|
  {
    if |run| > 0 {
      EndsStick(run[0].reply.env, run[0].reply.pending, run[1..]);
      assert forall k | 1 <= k < |run| :: run[k] == run[1..][k - 1];
    }
  }

  lemma {:induction false} RunSuffix(e: Env, p: bytes, run: seq<Event>, i: nat)
    requires IsRun(e, p, run) && i < |run|
    ensures IsRun(run[i].reply.env, run[i].reply.pending, run[i + 1..])
    ensures Replies(run[i].call, if i == 0 then e else run[i - 1].reply.env, if i == 0 then p
      else run[i - 1].reply.pending, run[i].reply)
    decreases i
  {
    if i > 0 {
      RunSuffix(run[0].reply.env, run[0].reply.pending, run[1..], i - 1);
      assert run[1..][i..] == run[i + 1..];
    }
  }

  // ----- what a stream that is complete, or cut off behind its last element, gives -----

  /** What a call of either kind answers in front of the elements `it`. A call for an element hands the torn last one of
      a cut stream out with its error. */
  predicate CallAnswer(call: Call, it: Items, ending: Ending, answer: Answer, count: nat) {
    match call
    case Element(_) =>
      if LastValue(it, ending) && !LastBare(it) then count == 0 && answer == Torn(EntryText(it.first))
      else BlockAnswer(it, ending, 1, answer, count)
    case Block(size, _, _) => BlockAnswer(it, ending, size, answer, count)
  }

  /** The run takes the elements in order, each of them once; then every call answers with the end of a complete stream,
      or with the truncation of a cut one. The last element of a cut stream is lost if whitespace follows it. */
  ghost predicate Serves(it: Items, ending: Ending, run: seq<Event>)
    decreases |run|
  {
    |run| > 0 ==>
      var r := run[0].reply;
      && CallAnswer(run[0].call, it, ending, r.answer, r.count) && r.count <= Count(it)
      && if r.count > 0 then Serves(Drop(it, r.count), ending, run[1..])
         else AllReply(run[1..], if ending.Bracket? then EndOfStream else Failed(Truncated))
  }

  /** What a call for one element makes of the elements that it has come to. */
  lemma {:induction false} ElementHere(e: Env, it: Items, ending: Ending)
    requires it.More? && IsItems(Array, it)
    ensures StreamSpec.Element(e, FromElements(it, ending), false, []) ==
      if LastValue(it, ending) then Outcome(LastAnswer(it.first, false), e.(truncated := true), [], [])
      else Outcome(Item(EntryText(it.first)), e.(delivered := true, afterComma := false),
        TextAt(Between(it.before), it.rest, ending), [])
  {
    var q, tail := FromElements(it, ending), RestText(it.before, it.rest) + EndText(ending);
    if LastValue(it, ending) {
      assert q == EntryText(it.first);
      TakesLast(e, q, it.first, false, []);
    } else {
      TakesEntryText(e, q, it.first, tail, false, []);
    }
  }

  /** A call for one element at any place of such a stream. */
  lemma {:induction false} ElementInStream(place: Place, it: Items, ending: Ending, sees: bool)
    requires IsBlank(place) && IsItems(Array, it)
    ensures Next(FlagsAt(place), TextAt(place, it, ending), false, sees, []) ==
      if it.End? then AtEnd(place, ending, [])
      else if LastValue(it, ending) then Outcome(LastAnswer(it.first, false), FlagsOn(place).(truncated := true), [],
        [])
      else Outcome(Item(EntryText(it.first)), RUNNING, TextAt(Between(it.before), it.rest, ending), [])
  {
    SeekTo(place, it, ending, sees, AsElement(false), []);
    if it.More? {
      var e, q := FlagsOn(place), FromElements(it, ending);
      assert AsElement(false)(e, q, []) == StreamSpec.Element(e, q, false, []);
      ElementHere(e, it, ending);
    }
  }

  /** A call of either kind at any place of such a stream. */
  lemma {:induction false} CallInStream(place: Place, it: Items, ending: Ending, call: Call, r: Reply)
    requires IsBlank(place) && IsItems(Array, it) && Replies(call, FlagsAt(place), TextAt(place, it, ending), r)
    ensures CallAnswer(call, it, ending, r.answer, r.count) && r.count <= Count(it)
    ensures if r.count == 0 then r.env.ended == (it.End? && ending.Bracket?) && r.env.truncated == ending.Missing?
            else
              || LastValue(it, ending)
              || (r.env == RUNNING && r.pending == TextAt(Between(BeforeOf(it, r.count)), Drop(it, r.count), ending))
    ensures r.count > 0 && LastValue(it, ending) ==> r.env.truncated && !r.env.ended
  {
    match call {
      case Element(sees) =>
        ElementInStream(place, it, ending, sees);
        assert it.More? ==>
          BlockText(it, 1) == EntryText(it.first) && BeforeOf(it, 1) == it.before && Drop(it, 1) == Drop(it.rest, 0);
      case Block(size, sees, n) =>
        BlockInStream(place, it, ending, sees, [], size, n, r.answer, r.count, r.env, r.pending);
    }
  }

  lemma {:induction false} RunServes(place: Place, it: Items, ending: Ending, run: seq<Event>)
    requires IsBlank(place) && IsItems(Array, it) && IsRun(FlagsAt(place), TextAt(place, it, ending), run)
    ensures Serves(it, ending, run)
    decreases |run|
  {
    if |run| > 0 {
      var r := run[0].reply;
      CallInStream(place, it, ending, run[0].call, r);
      if r.count == 0 || LastValue(it, ending) {
        EndsStick(r.env, r.pending, run[1..]);
        if r.count > 0 {
          LastIsDropped(it);
          NothingLeft(ending, run[1..]);
        }
      } else {
        DropIsItems(it, r.count);
        RunServes(Between(BeforeOf(it, r.count)), Drop(it, r.count), ending, run[1..]);
      }
    }
  }

  lemma {:induction false} NothingLeft(ending: Ending, run: seq<Event>)
    requires ending.Missing? && AllReply(run, Failed(Truncated))
    ensures Serves(End, ending, run)
  {
    assert forall k | 1 <= k < |run| :: run[k] == run[1..][k - 1];
  }

  /** Every run of calls of both kinds over a stream that is complete, or cut off behind its last element, takes the
      elements in order, each of them once, however the reader cuts the bytes. */
  lemma {:induction false} EveryRunServes(w: bytes, x: bytes, it: Items, ending: Ending, run: seq<Event>)
    requires AllSpace(w) && AllSpace(x) && IsItems(Array, it) && IsRun(INITIAL, TextAt(Front(w, x), it, ending), run)
    ensures Serves(it, ending, run)
  {
    RunServes(Front(w, x), it, ending, run);
  }

  /** The number of elements that a run delivers. */
  function Delivered(run: seq<Event>): nat
    decreases |run|
  {
    if |run| == 0 then 0 else run[0].reply.count + Delivered(run[1..])
  }

  lemma {:induction false} NothingDelivered(run: seq<Event>, answer: Answer)
    requires AllReply(run, answer)
    ensures Delivered(run) == 0
    decreases |run|
  {
    if |run| > 0 {
      assert forall k | 0 <= k < |run[1..]| :: run[1..][k] == run[k + 1];
      NothingDelivered(run[1..], answer);
    }
  }

  lemma {:induction false} DropKeepsLast(it: Items, n: nat)
    requires n < Count(it)
    ensures Drop(it, n).More? && LastEntry(Drop(it, n)) == LastEntry(it)
    decreases it
  {
    if n > 0 {
      DropKeepsLast(it.rest, n - 1);
    }
  }

  lemma {:induction false} DeliveredCount(it: Items, ending: Ending, run: seq<Event>)
    requires Serves(it, ending, run) && |run| > Count(it)
    ensures Delivered(run) == if ending.Missing? && it.More? && !LastBare(it) then Count(it) - 1 else Count(it)
    decreases |run|
  {
    var n := run[0].reply.count;
    if n == 0 {
      NothingDelivered(run[1..], if ending.Bracket? then EndOfStream else Failed(Truncated));
    } else {
      DropCount(it, n);
      if n < Count(it) {
        DropKeepsLast(it, n);
      }
      DeliveredCount(Drop(it, n), ending, run[1..]);
    }
  }

  /** A run with more calls than the stream has elements delivers them all if and only if the stream is complete, has no
      element, or was cut off right behind its last element. */
  lemma {:induction false} AllDeliveredIff(w: bytes, x: bytes, it: Items, ending: Ending, run: seq<Event>)
    requires AllSpace(w) && AllSpace(x) && IsItems(Array, it) && IsRun(INITIAL, TextAt(Front(w, x), it, ending), run)
    requires |run| > Count(it)
    ensures Delivered(run) == Count(it) <==> ending.Bracket? || it.End? || LastBare(it)
  {
    EveryRunServes(w, x, it, ending, run);
    DeliveredCount(it, ending, run);
  }

  /** The smallest such stream that loses its last element: whatever is called, nothing is delivered. */
  lemma {:induction false} SpaceLosesAll(run: seq<Event>)
    requires IsRun(INITIAL, [LBRACKET, 0x31, 0x20], run) && |run| > 0
    ensures run[0].reply.count == 0 && AllReply(run[1..], Failed(Truncated))
    ensures run[0].reply.answer == if run[0].call.Element? then Torn([0x31, 0x20]) else Failed(Truncated)
  {
    var it := OneSpaced();
    assert TextAt(Front([], []), it, Missing) == [LBRACKET, 0x31, 0x20];
    EveryRunServes([], [], it, Missing, run);
  }

  // ----- the end is answered only at the closing bracket -----

  /** The flags do not contradict each other, and what has been consumed fits them. */
  ghost predicate Coherent(e: Env, done: bytes, p: bytes) {
    && !(e.ended && e.truncated) && (e.ended ==> e.started && StartsWith(p, RBRACKET))
    && (!e.truncated ==> Standing(e, done))
  }

  /** What one call does to the bytes: it consumes some of them, and keeps the books. */
  ghost predicate Moves(e: Env, done: bytes, p: bytes, r: Reply, more: bytes) {
    && (r.env.truncated || p == more + r.pending) && Coherent(r.env, done + more, r.pending)
    && (r.answer == EndOfStream ==> r.env.ended)
    && (r.answer.Torn? || r.answer == Failed(Truncated) ==> r.env.truncated)
  }

  lemma {:induction false} ElementMoves(at: Env, q: bytes, done: bytes) returns (more: bytes)
    requires at.started && AtElement(q) && Standing(at, done) && !at.ended && !at.truncated
    ensures var o := StreamSpec.Element(at, q, false, []);
      Moves(at, done, q, Reply(o.answer, if o.answer.Item? then 1 else 0, o.env, o.pending), more)
  {
    more := [];
    if FirstEnd(q) > 0 {
      ItemAtLevel(at, q, false, []);
      var o := StreamSpec.Element(at, q, false, []);
      more := o.answer.chunk;
      LevelRun(more, |more|, 1);
      StandOn(at, done, more, o.env);
    }
  }

  lemma {:induction false} BlockMoves(at: Env, q: bytes, done: bytes, size: nat, n: nat, r: Reply) returns (more: bytes)
    requires at.started && AtElement(q) && Standing(at, done) && !at.ended && !at.truncated
    requires BlockAt(at, q, size, n, r.answer, r.count, r.env, r.pending) == true
    ensures Moves(at, done, q, r, more)
  {
    more := [];
    assert done + [] == done;
    if FirstEnd(q) > 0 && r.answer.Item? {
      KeptAtTop(q, n);
      more := r.answer.chunk;
      StandOn(at, done, more, r.env);
      assert q == more + r.pending;
    }
  }

  /** Joins what the search has passed and what the element's own handling has. */
  lemma {:induction false} MovesBehind(e: Env, done: bytes, p: bytes, passed: bytes, at: Env, q: bytes, r: Reply,
                                       more: bytes)
    requires p == passed + q && Moves(at, done + passed, q, r, more)
    ensures Moves(e, done, p, r, passed + more)
  {
    assert done + passed + more == done + (passed + more);
    assert passed + (more + r.pending) == (passed + more) + r.pending;
  }

  lemma {:induction false} CallMoves(call: Call, e: Env, p: bytes, r: Reply, done: bytes) returns (more: bytes)
    requires Replies(call, e, p, r) && Coherent(e, done, p)
    ensures Moves(e, done, p, r, more)
  {
    more := [];
    assert done + [] == done && [] + p == p;
    if !e.ended && !e.truncated {
      match call {
        case Element(sees) => more := ElementCall(e, p, sees, r, done);
        case Block(size, sees, n) => more := BlockCallMoves(e, p, size, sees, n, r, done);
      }
    }
  }

  lemma {:induction false} ElementCall(e: Env, p: bytes, sees: bool, r: Reply, done: bytes) returns (more: bytes)
    requires Replies(Element(sees), e, p, r) && Standing(e, done) && !e.ended && !e.truncated
    ensures Moves(e, done, p, r, more)
  {
    var passed, at, q := SeekStops(e, p, sees, AsElement(false), done);
    if at.started && AtElement(q) && Seek(e, p, false, sees, AsElement(false), []) == AsElement(false)(at, q, []) {
      assert AsElement(false)(at, q, []) == StreamSpec.Element(at, q, false, []);
      more := ElementMoves(at, q, done + passed);
      MovesBehind(e, done, p, passed, at, q, r, more);
      more := passed + more;
    } else {
      more := passed;
    }
  }

  lemma {:induction false} BlockCallMoves(e: Env, p: bytes, size: nat, sees: bool, n: nat, r: Reply, done: bytes)
    returns (more: bytes)
    requires Replies(Block(size, sees, n), e, p, r) && Standing(e, done) && !e.ended && !e.truncated
    ensures Moves(e, done, p, r, more)
  {
    var passed, at, q := SeekStops(e, p, sees, Marks(), done);
    var o := Seek(e, p, false, sees, Marks(), []);
    if at.started && AtElement(q) && o == Marks()(at, q, []) {
      assert Marks()(at, q, []) == Outcome(Item(q), at, q, []);
      more := BlockMoves(at, q, done + passed, size, n, r);
      MovesBehind(e, done, p, passed, at, q, r, more);
      more := passed + more;
    } else {
      more := passed;
    }
  }

  /** The stream is whitespace, the opening bracket, bytes that end at element level, and then the closing bracket: the
      first one at that level. */
  ghost predicate ClosedAt(stream: bytes, pending: bytes) {
    exists a, inner: bytes ::
      stream == (a + ([LBRACKET] + inner)) + pending && AllSpace(a) && AtTop(inner) && StartsWith(pending, RBRACKET)
  }

  lemma {:induction false} ClosedHere(e: Env, done: bytes, p: bytes)
    requires e.ended && Coherent(e, done, p)
    ensures ClosedAt(done + p, p) == true
  {
    var a, inner: bytes :| Opened(done, a, inner);
  }

  lemma {:induction false} RunStands(e: Env, p: bytes, run: seq<Event>, k: nat, done: bytes)
    requires IsRun(e, p, run) && Coherent(e, done, p) == true && k < |run|
    ensures run[k].reply.answer == EndOfStream ==> ClosedAt(done + p, run[k].reply.pending) == true
    ensures run[k].reply.answer.Torn? || run[k].reply.answer == Failed(Truncated) ==>
      run[k].reply.env.truncated && !run[k].reply.env.ended
    decreases |run|
  {
    var r := run[0].reply;
    var more := CallMoves(run[0].call, e, p, r, done);
    assert r.env.truncated || done + p == (done + more) + r.pending;
    if k > 0 {
      if r.env.truncated {
        EndsStick(r.env, r.pending, run[1..]);
      }
      RunStands(r.env, r.pending, run[1..], k - 1, done + more);
    } else if r.answer == EndOfStream {
      ClosedHere(r.env, done + more, r.pending);
    }
  }

  /** In every run of strict calls of both kinds, whatever went wrong before: the end is answered only at the closing
      bracket at element level. */
  lemma {:induction false} EndMeansClosed(stream: bytes, run: seq<Event>, k: nat)
    requires IsRun(INITIAL, stream, run) && k < |run| && run[k].reply.answer == EndOfStream
    ensures ClosedAt(stream, run[k].reply.pending)
  {
    assert [] + stream == stream;
    RunStands(INITIAL, stream, run, k, []);
  }

  /** In every such run, once a call has torn an element, failed with the truncation or handed out the last element of a
      cut stream, every later call fails with the truncation. */
  lemma {:induction false} TruncationSticks(stream: bytes, run: seq<Event>, i: nat, k: nat)
    requires IsRun(INITIAL, stream, run) && i < k < |run|
    requires var r := run[i].reply; r.answer.Torn? || r.answer == Failed(Truncated) || r.env.truncated
    ensures run[k].reply.answer == Failed(Truncated) && run[k].reply.count == 0
  {
    assert [] + stream == stream;
    RunStands(INITIAL, stream, run, i, []);
    StaysTruncated(INITIAL, stream, run, i, []);
    RunSuffix(INITIAL, stream, run, i);
    EndsStick(run[i].reply.env, run[i].reply.pending, run[i + 1..]);
    assert run[i + 1..][k - i - 1] == run[k];
  }

  lemma {:induction false} StaysTruncated(e: Env, p: bytes, run: seq<Event>, i: nat, done: bytes)
    requires IsRun(e, p, run) && Coherent(e, done, p) && i < |run|
    ensures !(run[i].reply.env.ended && run[i].reply.env.truncated)
    decreases |run|
  {
    var r := run[0].reply;
    var more := CallMoves(run[0].call, e, p, r, done);
    if i > 0 {
      StaysTruncated(r.env, r.pending, run[1..], i - 1, done + more);
    }
  }
}
