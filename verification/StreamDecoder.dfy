/** The stream decoder: a sliding, growing buffer in front of a reader that cuts the stream as it likes. */
module StreamDecoder {
  import opened Wrappers
  import opened Bytes
  import opened Splitter
  import opened Windows
  import opened Avx2Splitter
  import opened StrictSkip
  import Slices
  import opened StreamSpec

  /** A reader hands out its bytes in non-empty pieces of its own choice and then reports the end; the end may come
      together with the last piece. */
  class Reader {
    var rest: bytes

    constructor (stream: bytes)
      ensures rest == stream
    {
      rest := stream;
    }

    method Read(buf: array<byte>, from: nat) returns (n: nat, eof: bool)
      requires from < buf.Length
      modifies this, buf
      ensures from + n <= buf.Length && buf[from..from + n] + rest == old(rest)
      ensures buf[..from] == old(buf[..from])
      ensures n > 0 || eof
      ensures eof ==> rest == []
    {
      var most := if |rest| < buf.Length - from then |rest| else buf.Length - from;
      n :| n <= most && (most > 0 ==> n > 0);
      var i: nat := 0;
      while i < n
        invariant i <= n && buf[..from] == old(buf[..from])
        invariant forall k | 0 <= k < i :: buf[from + k] == rest[k]
        modifies buf
      {
        buf[from + i] := rest[i];
        i := i + 1;
      }
      assert buf[from..from + n] == rest[..n];
      rest := rest[n..];
      var early: bool := *;
      eof := rest == [] && (n == 0 || early);
    }
  }

  class Decoder {
    const reader: Reader
    var buf: array<byte>
    var head: nat
    var tail: nat
    var isEOF: bool
    var hasStarted: bool
    var hasEnded: bool
    var deliveredFirst: bool
    var afterComma: bool
    var tailTruncated: bool
    var tolerant: bool
    var reports: seq<Fault>

    ghost predicate Valid()
      reads this`head, this`tail, this`buf, this`isEOF, reader
    {
      head <= tail <= buf.Length && buf.Length > 0 && (isEOF ==> reader.rest == [])
    }

    /** The bytes that have arrived and not been consumed. */
    function Buffered(): bytes
      requires head <= tail <= buf.Length
      reads this`head, this`tail, this`buf, buf
    {
      buf[head..tail]
    }

    /** The bytes that have not been consumed, whether they have arrived or not. */
    ghost function Pending(): bytes
      requires Valid()
      reads this`head, this`tail, this`buf, this`isEOF, reader, buf
    {
      Buffered() + reader.rest
    }

    /** What is left to read and to consume. */
    ghost function Work(): nat
      requires Valid()
      reads this`head, this`tail, this`buf, this`isEOF, reader
    {
      tail - head + 2 * |reader.rest| + if isEOF then 0 else 1
    }

    function Limit(maxCount: int): nat {
      if maxCount <= 0 || maxCount > 10000 then 10000 else maxCount
    }

    function Flags(): Env
      reads this`hasStarted, this`hasEnded, this`deliveredFirst, this`afterComma, this`tailTruncated
    {
      Env(hasStarted, hasEnded, deliveredFirst, afterComma, tailTruncated)
    }

    constructor (r: Reader, size: nat)
      requires size > 0
      ensures Valid() && reader == r && fresh(buf) && Pending() == r.rest && Flags() == INITIAL && !tolerant &&
        reports == []
    {
      reader := r;
      buf := new byte[size];
      head, tail := 0, 0;
      isEOF, hasStarted, hasEnded, deliveredFirst, afterComma, tailTruncated :=
        false, false, false, false, false, false;
      tolerant, reports := false, [];
    }

    /** Slides what is buffered to the front and doubles a buffer that one element fills. */
    method MakeRoom()
      requires head <= tail <= buf.Length && buf.Length > 0
      modifies this`head, this`tail, this`buf, buf
      ensures head <= tail < buf.Length && Buffered() == old(Buffered()) && fresh({buf} - old({buf}))
    {
      if head > 0 {
        Slide();
      }
      if tail == buf.Length {
        Grow();
      }
    }

    /** Reads once. Either more bytes are buffered afterwards, or the end of the stream is known. */
    method Fill()
      requires Valid()
      modifies this`head, this`tail, this`buf, this`isEOF, reader, buf
      ensures Valid() && fresh({buf} - old({buf})) && Pending() == old(Pending())
      ensures if old(isEOF) then isEOF && head == old(head) && tail == old(tail) && Work() == old(Work())
        else Work() < old(Work())
      ensures head < tail || isEOF || |reader.rest| < |old(reader.rest)|
    {
      if isEOF {
        return;
      }
      MakeRoom();
      ghost var waiting, stream := buf[..tail], reader.rest;
      var n, eof := reader.Read(buf, tail);
      assert buf[..tail] == waiting;
      assert buf[..tail + n] == waiting + buf[tail..tail + n];
      assert buf[head..tail + n] == buf[..tail + n][head..] == waiting[head..] + buf[tail..tail + n];
      tail := tail + n;
      if eof {
        isEOF := true;
      }
      assert Buffered() + reader.rest == waiting[head..] + stream;
    }

    /** Moves `n` bytes from `from` to the front of the array. */
    static method CopyDown(a: array<byte>, from: nat, n: nat)
      requires from + n <= a.Length
      modifies a
      ensures a[..n] == old(a[from..from + n])
    {
      var i: nat := 0;
      while i < n
        invariant i <= n
        invariant forall k | 0 <= k < i :: a[k] == old(a[from + k])
        invariant forall k | i <= k < a.Length :: a[k] == old(a[k])
      {
        a[i] := a[from + i];
        i := i + 1;
      }
    }

    method Slide()
      requires head <= tail <= buf.Length
      modifies this`head, this`tail, buf
      ensures head == 0 && tail <= buf.Length && buf[..tail] == old(buf[head..tail])
    {
      CopyDown(buf, head, tail - head);
      head, tail := 0, tail - head;
    }

    method Grow()
      requires head == 0 && tail == buf.Length > 0
      modifies this`buf
      ensures fresh(buf) && tail < buf.Length && buf[..tail] == old(buf[..tail])
    {
      var bigger := new byte[buf.Length * 2];
      var i: nat := 0;
      while i < tail
        invariant i <= tail
        invariant forall k | 0 <= k < i :: bigger[k] == buf[k]
        modifies bigger
      {
        bigger[i] := buf[i];
        i := i + 1;
      }
      buf := bigger;
    }

    /** Skips buffered whitespace. */
    method SkipBuffered()
      requires Valid()
      modifies this`head
      ensures Valid() && Trim(Pending()) == Trim(old(Pending())) && Buffered() == Trim(old(Buffered()))
      ensures Work() < old(Work()) || (Work() == old(Work()) && head == old(head))
      ensures head < tail ==>
        !IsSpace(buf[head]) && Pending() != [] && Pending()[0] == buf[head] && Trim(Pending()) == Pending()
    {
      while head < tail && IsSpace(buf[head])
        invariant head <= tail && Trim(Pending()) == Trim(old(Pending()))
        invariant Trim(Buffered()) == Trim(old(Buffered()))
        invariant Work() < old(Work()) || (Work() == old(Work()) && head == old(head))
        modifies this`head
      {
        Consume();
      }
      assert head < tail ==> Buffered()[0] == buf[head];
      TrimNone(Buffered());
      if head < tail {
        TrimNone(Pending());
      }
    }

    /** Moves over one byte; over whitespace it makes no difference. */
    method Consume()
      requires Valid() && head < tail
      modifies this`head
      ensures head == old(head) + 1 && Valid() && old(Pending()) == [buf[old(head)]] + Pending()
      ensures Buffered() == old(Buffered())[1..]
      ensures IsSpace(buf[old(head)]) ==>
        Trim(Pending()) == Trim(old(Pending())) && Trim(Buffered()) == Trim(old(Buffered()))
    {
      ghost var before, waiting := Pending(), Buffered();
      assert buf[head..tail] == [buf[head]] + buf[head + 1..tail];
      head := head + 1;
      assert before == [buf[old(head)]] + Pending() && before[1..] == Pending();
      if IsSpace(buf[old(head)]) {
        TrimOne(before);
        TrimOne(waiting);
      }
    }

    /** Moves over one byte and the buffered whitespace behind it. */
    method StepOver()
      requires Valid() && head < tail
      modifies this`head
      ensures Valid() && Work() < old(Work()) && Trim(Pending()) == Trim(old(Pending())[1..])
      ensures Buffered() == Trim(old(Buffered())[1..])
      ensures head < tail ==> StartsWith(Pending(), buf[head]) && !IsSpace(buf[head]) && Trim(Pending()) == Pending()
    {
      ghost var p := Pending();
      Consume();
      assert Pending() == p[1..];
      SkipBuffered();
    }

    /** The decoder stands behind a comma, in front of a byte that does not end the array. */
    ghost predicate BehindComma(lenient: bool)
      requires Valid()
      reads this`head, this`tail, this`buf, this`isEOF, this`hasStarted, this`deliveredFirst, this`afterComma
      reads reader, buf
    {
      && Pending() == Trim(Pending()) && (AtElement(Pending()) || StartsWith(Pending(), COMMA))
      && hasStarted && afterComma && (lenient || deliveredFirst)
    }

    /** Looks whether the closing bracket is in sight behind a comma. */
    method Trailing(lenient: bool) returns (trails: bool)
      requires Valid() && hasStarted && afterComma && (lenient || deliveredFirst)
      requires head < tail ==> StartsWith(Pending(), buf[head]) && !IsSpace(buf[head]) && Trim(Pending()) == Pending()
      ensures trails ==> StartsWith(Pending(), RBRACKET) && Trim(Pending()) == Pending()
      ensures trails <==> StartsWith(Buffered(), RBRACKET)
      ensures !trails && head < tail ==> BehindComma(lenient) == true
    {
      trails := head < tail && buf[head] == RBRACKET;
    }

    /** Moves over a comma. */
    method SkipComma()
      requires Valid() && head < tail
      modifies this`head, this`afterComma
      ensures afterComma && Valid() && Work() < old(Work()) && Trim(Pending()) == Trim(old(Pending())[1..])
      ensures Buffered() == Trim(old(Buffered())[1..])
      ensures head < tail ==> StartsWith(Pending(), buf[head]) && !IsSpace(buf[head]) && Trim(Pending()) == Pending()
    {
      afterComma := true;
      StepOver();
    }

    /** Judges a comma by what stands before it: a strict decoder refuses it, a lenient one reports it. */
    method JudgeComma(lenient: bool, ghost e: Env, ghost log: seq<Fault>) returns (refused: Option<Fault>)
      requires Valid() && e == Flags() && log == reports
      modifies this`reports
      ensures refused == if lenient then None else Misplaced(e)
      ensures reports == if lenient then Complain(e, log) else log
    {
      var fault := Misplaced(Flags());
      if fault.Some? && lenient {
        reports := reports + [fault.value];
      }
      return if lenient then None else fault;
    }

    /** A trailing comma: a strict decoder fails, a lenient one reports it. */
    method TrailingReport(lenient: bool) returns (move: Move)
      requires Valid()
      modifies this`reports
      ensures move == if lenient then Again else Answered(Failed(TrailingComma))
      ensures reports == if lenient then old(reports) + [TrailingComma] else old(reports)
    {
      if lenient {
        reports := reports + [TrailingComma];
        return Again;
      }
      return Answered(Failed(TrailingComma));
    }

    /** Judges what stands behind a comma. */
    method JudgeTrail(lenient: bool) returns (move: Move, event: Event)
      requires Valid() && hasStarted && afterComma && (lenient || deliveredFirst)
      requires head < tail ==> StartsWith(Pending(), buf[head]) && !IsSpace(buf[head]) && Trim(Pending()) == Pending()
      modifies this`reports
      ensures event.Trails? <==> StartsWith(Buffered(), RBRACKET)
      ensures event.Passes? ==> move == Again && reports == old(reports)
      ensures !event.Passes? ==>
        && event.Trails? && StartsWith(Pending(), RBRACKET) && Trim(Pending()) == Pending()
        && move == (if lenient then Again else Answered(Failed(TrailingComma)))
        && reports == if lenient then old(reports) + [TrailingComma] else old(reports)
      ensures event.Passes? && head < tail ==> BehindComma(lenient) == true
    {
      var trails := Trailing(lenient);
      move, event := Again, Passes;
      if trails {
        event := Trails;
        move := TrailingReport(lenient);
      }
    }

    /** A comma that is not refused: the decoder moves over it and sees whether it trails. */
    method GoPast(lenient: bool) returns (move: Move, event: Event)
      requires Valid() && head < tail && hasStarted && (lenient || deliveredFirst)
      modifies this`head, this`afterComma, this`reports
      ensures Valid() && afterComma && Work() < old(Work()) && Trim(Pending()) == Trim(old(Pending())[1..])
      ensures Buffered() == Trim(old(Buffered())[1..]) && (event.Trails? <==> StartsWith(Buffered(), RBRACKET))
      ensures event.Passes? ==> move == Again && reports == old(reports)
      ensures !event.Passes? ==>
        && event.Trails? && StartsWith(Pending(), RBRACKET) && Trim(Pending()) == Pending()
        && move == (if lenient then Again else Answered(Failed(TrailingComma)))
        && reports == if lenient then old(reports) + [TrailingComma] else old(reports)
      ensures event.Passes? && head < tail ==> BehindComma(lenient)
    {
      SkipComma();
      move, event := JudgeTrail(lenient);
    }

    /** The comma branch. A lenient decoder reports what is wrong with the comma and goes on. */
    method PassComma(lenient: bool, ghost e: Env, ghost p: bytes, ghost log: seq<Fault>)
      returns (move: Move, event: Event)
      requires Valid() && head < tail && buf[head] == COMMA && hasStarted && e == Flags() && p == Pending() &&
        log == reports
      modifies this`head, this`afterComma, this`reports
      ensures Valid() && StartsWith(p, COMMA) && e.started && (event.Refuses? || event.Passes? || event.Trails?)
      ensures CommaTurn(event, lenient, e, p, log, move, Flags(), Pending(), reports) == true
      ensures move.Again? ==> Work() < old(Work())
      ensures event.Passes? && head < tail ==> BehindComma(lenient)
      ensures event.Refuses? ==> Misplaced(e).Some?
      ensures event.Trails? ==> StartsWith(Trim(old(Buffered())[1..]), RBRACKET)
      ensures event.Passes? ==> !StartsWith(Trim(old(Buffered())[1..]), RBRACKET)
    {
      assert Buffered()[0] == COMMA;
      var refused := JudgeComma(lenient, e, log);
      if refused.Some? {
        return Answered(Failed(refused.value)), Refuses;
      }
      assert reports == Complain(e, log);
      move, event := GoPast(lenient);
      PastComma(event, lenient, e, p, log, move, Flags(), Pending(), reports);
    }

    /** The end of the first buffered element, or 0. */
    method FirstChunkEnd() returns (end: nat)
      requires Valid()
      ensures end == FirstEnd(Buffered())
    {
      var chunkBuf := new Chunk[1];
      var count, depth := FindArrayElementsAVX2(Buffered(), chunkBuf);
      return if count > 0 then chunkBuf[0].end else 0;
    }

    /** Hands out the bytes up to `end` as complete elements. */
    method HandOutTo(end: nat, ghost e: Env, ghost p: bytes) returns (chunk: bytes)
      requires Valid() && e == Flags() && p == Pending() && end <= tail - head
      modifies this`head, this`deliveredFirst, this`afterComma
      ensures Valid() && chunk == Upto(p, end) && Pending() == From(p, end)
      ensures Flags() == e.(delivered := true, afterComma := false) && chunk + Buffered() == old(Buffered())
    {
      chunk := buf[head..head + end];
      assert Buffered()[..end] == chunk && Buffered()[end..] == buf[head + end..tail];
      assert p[..end] == chunk && p[end..] == Buffered()[end..] + reader.rest;
      deliveredFirst, afterComma := true, false;
      head := head + end;
    }

    /** Hands out the element that ends at `end`. */
    method Deliver(end: nat, ghost e: Env, ghost p: bytes, ghost log: seq<Fault>) returns (chunk: bytes)
      requires Valid() && head < tail && AtElement(p) && e == Flags() && p == Pending() && log == reports
      requires end == FirstEnd(Buffered()) > 0
      modifies this`head, this`deliveredFirst, this`afterComma
      ensures Valid() && Element(e, p, tolerant, log) == Outcome(Item(chunk), Flags(), Pending(), log)
    {
      assert p[0] == Buffered()[0];
      FirstEndArrived(Buffered(), reader.rest);
      chunk := HandOutTo(end, e, p);
    }

    /** Judges the bytes left at the end of the stream: one complete value is handed out, anything else is torn. */
    method JudgeRemainder(ghost e: Env, ghost p: bytes, ghost log: seq<Fault>) returns (answer: Answer)
      requires Valid() && head < tail && AtElement(p) && e == Flags() && p == Pending() && log == reports
      requires isEOF && FirstEnd(p) == 0
      modifies this`head, this`tailTruncated, this`reports
      ensures Valid() && Element(e, p, tolerant, log) == Outcome(answer, Flags(), Pending(), reports)
    {
      var frag := buf[head..tail];
      assert p == frag;
      ElementLost(e, p, tolerant, log);
      var skipped := SkipValueStrict(frag, 0);
      head, tailTruncated := tail, true;
      assert Pending() == p[|p|..];
      if tolerant {
        reports := reports + [Truncated];
      }
      if skipped == Ok(|frag|) {
        return Item(frag);
      }
      return if tolerant then EndOfStream else Torn(frag);
    }

    /** The element branch: hands out a complete element, judges what is left at the end, or reads more. */
    method TakeElement(ghost e: Env, ghost p: bytes, ghost log: seq<Fault>) returns (move: Move)
      requires Valid() && head < tail && AtElement(p) && hasStarted && e == Flags() && p == Pending() && log == reports
      modifies this`head, this`tail, this`buf, this`isEOF, this`deliveredFirst, this`afterComma, this`tailTruncated,
               this`reports, reader, buf
      ensures Valid() && fresh({buf} - old({buf}))
      ensures move.Again? ==> Flags() == e && Pending() == p && reports == log && Work() < old(Work())
      ensures move.Answered? ==> Element(e, p, tolerant, log) == Outcome(move.answer, Flags(), Pending(), reports)
    {
      var end := FirstChunkEnd();
      if end > 0 {
        var chunk := Deliver(end, e, p, log);
        return Answered(Item(chunk));
      }
      if isEOF {
        assert p == Buffered();
        var answer := JudgeRemainder(e, p, log);
        return Answered(answer);
      }
      Fill();
      return Again;
    }

    /** Reads if nothing is buffered; tells whether the stream is drained, and then reports that. */
    method Refill(lenient: bool, ghost e: Env, ghost p: bytes, ghost log: seq<Fault>) returns (drained: Option<Answer>)
      requires Valid() && e == Flags() && p == Pending() && log == reports
      modifies this`head, this`tail, this`buf, this`isEOF, this`tailTruncated, this`reports, reader, buf
      ensures Valid() && fresh({buf} - old({buf}))
      ensures drained.Some? ==>
        |p| == 0 && Drained(e, p, lenient, log) == Outcome(drained.value, Flags(), Pending(), reports)
      ensures drained.Some? ==> !drained.value.Item?
      ensures drained.None? ==> Flags() == e && Pending() == p && reports == log
      ensures old(head < tail) ==> drained.None? && Buffered() == old(Buffered())
      ensures drained.None? ==> Work() < old(Work()) || (Work() == old(Work()) && head < tail)
    {
      if head >= tail {
        Fill();
        if head >= tail && isEOF {
          tailTruncated := true;
          if lenient {
            reports := reports + [Truncated];
          }
          return Some(if lenient then EndOfStream else Failed(Truncated));
        }
      }
      return None;
    }

    /** Before anything else the opening bracket must come. */
    method OpenTurn(lenient: bool, ghost e: Env, ghost p: bytes, ghost log: seq<Fault>)
      returns (move: Move, event: Event)
      requires Valid() && e == Flags() && log == reports && head < tail && !hasStarted
      requires p == Pending() && |p| > 0 && p[0] == buf[head] && !IsSpace(p[0])
      modifies this`head, this`hasStarted
      ensures Valid() && !event.Passes?
      ensures Turn(event, lenient, e, p, log, move, Flags(), Pending(), reports) == true
      ensures move.Answered? ==> !move.answer.Item?
      ensures move.Again? ==> Work() < old(Work())
    {
      if buf[head] != LBRACKET {
        return Answered(Failed(NotAnArray)), MissesArray;
      }
      hasStarted := true;
      Consume();
      assert p == [LBRACKET] + Pending() && Pending() == p[1..];
      return Again, Opens;
    }

    /** The branches in front of an element. */
    method LeadTurn(lenient: bool, ghost e: Env, ghost p: bytes, ghost log: seq<Fault>)
      returns (move: Move, event: Event)
      requires Valid() && e == Flags() && log == reports && head < tail
      requires p == Pending() && |p| > 0 && p[0] == buf[head] && !IsSpace(p[0])
      requires !hasStarted || buf[head] == RBRACKET || buf[head] == COMMA
      modifies this`head, this`hasStarted, this`hasEnded, this`afterComma, this`reports
      ensures Valid()
      ensures Turn(event, lenient, e, p, log, move, Flags(), Pending(), reports) == true
      ensures move.Answered? ==> !move.answer.Item?
      ensures move.Again? ==> Work() < old(Work())
      ensures event.Passes? && head < tail ==> BehindComma(lenient)
      ensures old(hasStarted) && old(buf[head]) == COMMA && Misplaced(e).None? ==>
        if StartsWith(Trim(old(Buffered())[1..]), RBRACKET) then event.Trails? else event.Passes?
    {
      if !hasStarted {
        move, event := OpenTurn(lenient, e, p, log);
      } else if buf[head] == RBRACKET {
        hasEnded := true;
        move, event := Answered(EndOfStream), Closes;
        CloseIsTurn(lenient, e, p, log, Flags());
        assert Pending() == p;
      } else {
        move, event := PassComma(lenient, e, p, log);
        CommaIsTurn(event, lenient, e, p, log, move, Flags(), Pending(), reports);
      }
    }

    /** The decoder stands at a byte that is not whitespace: at an element, or it takes a turn. */
    method LeadByte(lenient: bool, ghost e: Env, ghost q: bytes, ghost log: seq<Fault>, ghost w: bytes)
      returns (stands: bool, move: Move, event: Event)
      requires Valid() && e == Flags() && log == reports && head < tail && Buffered() == Trim(w)
      requires q == Pending() && |q| > 0 && q[0] == buf[head] && !IsSpace(q[0])
      modifies this`head, this`hasStarted, this`hasEnded, this`afterComma, this`reports
      ensures Valid() && TurnSees(e, w, event) == true
      ensures stands ==>
        && AtElement(q) && e.started && Flags() == e && Pending() == q && reports == log && head < tail && event.Waits?
        && Work() == old(Work())
      ensures !stands ==> Turn(event, lenient, e, q, log, move, Flags(), Pending(), reports) == true
      ensures move.Answered? ==> !move.answer.Item?
      ensures !stands && move.Again? ==> Work() < old(Work())
      ensures event.Passes? && head < tail ==> BehindComma(lenient)
    {
      ghost var b := Buffered();
      assert b[0] == buf[head];
      if hasStarted && buf[head] != RBRACKET && buf[head] != COMMA {
        NoCommaSeen(e, w, Waits);
        return true, Again, Waits;
      }
      stands := false;
      move, event := LeadTurn(lenient, e, q, log);
      if StartsWith(b, COMMA) {
        CommaSeen(e, w, b, event);
      } else {
        NoCommaSeen(e, w, event);
      }
    }

    /** Skips the whitespace that is buffered, and takes a turn if a byte is left. */
    method LeadBuffered(lenient: bool, ghost e: Env, ghost p: bytes, ghost log: seq<Fault>, ghost w: bytes)
      returns (stands: bool, move: Move, event: Event, ghost q: bytes)
      requires Valid() && e == Flags() && p == Pending() && log == reports && w == Buffered()
      modifies this`head, this`hasStarted, this`hasEnded, this`afterComma, this`reports
      ensures Valid() && Trim(q) == Trim(p) && TurnSees(e, w, event) == true
      ensures stands ==>
        AtElement(q) && e.started && Flags() == e && Pending() == q && reports == log && head < tail && event.Waits?
      ensures !stands ==> Turn(event, lenient, e, q, log, move, Flags(), Pending(), reports) == true
      ensures move.Answered? ==> !move.answer.Item?
      ensures stands ==> Work() <= old(Work())
      ensures !stands && move.Again? ==>
        Work() < old(Work()) || (Work() == old(Work()) && head >= tail && old(head >= tail))
      ensures event.Passes? && head < tail ==> BehindComma(lenient)
    {
      SkipBuffered();
      q := Pending();
      if head >= tail {
        NoCommaSeen(e, w, Waits);
        WaitsIsTurn(lenient, e, p, log, q);
        return false, Again, Waits, p;
      }
      stands, move, event := LeadByte(lenient, e, q, log, w);
    }

    /** One round of a loop up to an element: reads if nothing is buffered, skips whitespace, and takes a turn if a byte
        is left. */
    method LeadRound(lenient: bool, ghost e: Env, ghost p: bytes, ghost log: seq<Fault>)
      returns (stands: bool, move: Move, event: Event, ghost q: bytes)
      requires Valid() && e == Flags() && p == Pending() && log == reports
      modifies this`head, this`tail, this`buf, this`isEOF, this`hasStarted, this`hasEnded, this`afterComma,
               this`tailTruncated, this`reports, reader, buf
      ensures Valid() && fresh({buf} - old({buf})) && Trim(q) == Trim(p)
      ensures stands ==> AtElement(q) && e.started && Flags() == e && Pending() == q && reports == log && head < tail
      ensures !stands ==> Turn(event, lenient, e, q, log, move, Flags(), Pending(), reports) == true
      ensures move.Answered? ==> !move.answer.Item?
      ensures stands ==> Work() <= old(Work()) && event.Waits?
      ensures !stands && move.Again? ==> Work() < old(Work())
      ensures event.Passes? && head < tail ==> BehindComma(lenient)
      ensures old(head < tail) ==> TurnSees(e, old(Buffered()), event) == true
    {
      var drained := Refill(lenient, e, p, log);
      if drained.Some? {
        DrainsIsTurn(lenient, e, p, log, drained.value, Flags(), Pending(), reports);
        return false, Answered(drained.value), Drains, p;
      }
      stands, move, event, q := LeadBuffered(lenient, e, p, log, Buffered());
    }

    /** The next element of the stream. Whatever the reader does, the outcome is the one that the undelivered bytes
        determine; the way they are cut only decides `sees`, and in front of a trailing comma that is buffered, `sees`
        says whether the closing bracket is buffered too. */
    method NextChunk() returns (answer: Answer, ghost sees: bool)
      requires Valid()
      modifies this`head, this`tail, this`buf, this`isEOF, this`hasStarted, this`hasEnded, this`deliveredFirst,
               this`afterComma, this`tailTruncated, this`reports, reader, buf
      ensures Valid() && fresh({buf} - old({buf}))
      ensures Next(old(Flags()), old(Pending()), tolerant, sees, old(reports)) ==
        Outcome(answer, Flags(), Pending(), reports)
      ensures SeesFrom(old(Flags()), old(Pending()), old(Buffered()), sees)
    {
      if hasEnded {
        return EndOfStream, false;
      }
      if tailTruncated {
        return if tolerant then EndOfStream else Failed(Truncated), false;
      }
      ghost var seen := Next(Flags(), Pending(), tolerant, true, reports);
      ghost var unseen := Next(Flags(), Pending(), tolerant, false, reports);
      answer, sees := ChunkLoop(AsElement(tolerant), seen, unseen);
    }

    /** What both loops do in front of an element: one round, and what it means for the outcomes that are still
        possible. */
    method Lead(lenient: bool, ghost take: Take, ghost either0: bool, ghost sees0: bool, ghost seen: Outcome,
                ghost unseen: Outcome)
      returns (stands: bool, passed: bool, stop: Option<Answer>, ghost either: bool, ghost sees: bool)
      requires Valid() && OnCourse(either0, sees0, Flags(), Pending(), lenient, take, reports, seen, unseen) == true
      modifies this`head, this`tail, this`buf, this`isEOF, this`hasStarted, this`hasEnded, this`afterComma,
               this`tailTruncated, this`reports, reader, buf
      ensures Valid() && fresh({buf} - old({buf}))
      ensures stop.Some? ==>
        Outcome(stop.value, Flags(), Pending(), reports) == (if sees then seen else unseen) && !stop.value.Item?
      ensures stop.None? ==> OnCourse(either, sees, Flags(), Pending(), lenient, take, reports, seen, unseen) == true
      ensures stands ==>
        stop.None? && !passed && head < tail && hasStarted && AtElement(Pending()) && Work() <= old(Work())
      ensures passed ==> stop.None? && head < tail && BehindComma(lenient)
      ensures !stands && stop.None? ==> Work() < old(Work())
      ensures Decided(old(Flags()), old(Pending()), old(Buffered()), either, sees) == true
      ensures !either0 ==> !either && sees == sees0
    {
      ghost var e, p, log, w := Flags(), Pending(), reports, Buffered();
      var move, event;
      ghost var q;
      stands, move, event, q := LeadRound(lenient, e, p, log);
      if stands {
        WaitsOnCourse(either0, sees0, e, p, lenient, take, log, seen, unseen, q);
        StandsDecided(e, p, w, either0, sees0);
        return true, false, None, either0, sees0;
      }
      StaysOnCourse(either0, sees0, e, p, lenient, take, log, seen, unseen, event, move, q, Flags(), Pending(),
        reports);
      TurnDecides(either0, sees0, e, p, lenient, take, log, seen, unseen, event, move, q, Flags(), Pending(), reports,
        w);
      ghost var settles := Settles(event, Pending());
      either, sees := either0 && !settles, if settles then event.Trails? else sees0;
      stop := if move.Answered? then Some(move.answer) else None;
      passed := move.Again? && event.Passes? && head < tail;
    }

    /** One round of the loop for one element. */
    method ChunkRound(ghost take: Take, ghost either0: bool, ghost sees0: bool, ghost seen: Outcome,
                      ghost unseen: Outcome)
      returns (stop: Option<Answer>, ghost either: bool, ghost sees: bool)
      requires Valid() && take == AsElement(tolerant)
      requires OnCourse(either0, sees0, Flags(), Pending(), tolerant, take, reports, seen, unseen) == true
      modifies this`head, this`tail, this`buf, this`isEOF, this`hasStarted, this`hasEnded, this`deliveredFirst,
               this`afterComma, this`tailTruncated, this`reports, reader, buf
      ensures Valid() && fresh({buf} - old({buf}))
      ensures stop.Some? ==> Outcome(stop.value, Flags(), Pending(), reports) == if sees then seen else unseen
      ensures stop.None? ==>
        Work() < old(Work()) &&
          OnCourse(either, sees, Flags(), Pending(), tolerant, take, reports, seen, unseen) == true
      ensures Decided(old(Flags()), old(Pending()), old(Buffered()), either, sees) == true
      ensures !either0 ==> !either && sees == sees0
    {
      var stands, passed;
      stands, passed, stop, either, sees := Lead(tolerant, take, either0, sees0, seen, unseen);
      if stands {
        ghost var e, q, log := Flags(), Pending(), reports;
        TrimNone(q);
        ArrivesAtElement(either, sees, e, q, tolerant, take, log, seen, unseen, q);
        var move := TakeElement(e, q, log);
        stop := if move.Answered? then Some(move.answer) else None;
      }
    }

    method ChunkLoop(ghost take: Take, ghost seen: Outcome, ghost unseen: Outcome)
      returns (answer: Answer, ghost sees: bool)
      requires Valid() && take == AsElement(tolerant)
      requires OnCourse(true, false, Flags(), Pending(), tolerant, take, reports, seen, unseen) == true
      modifies this`head, this`tail, this`buf, this`isEOF, this`hasStarted, this`hasEnded, this`deliveredFirst,
               this`afterComma, this`tailTruncated, this`reports, reader, buf
      ensures Valid() && fresh({buf} - old({buf}))
      ensures Outcome(answer, Flags(), Pending(), reports) == if sees then seen else unseen
      ensures SeesFrom(old(Flags()), old(Pending()), old(Buffered()), sees) == true
    {
      ghost var e, p, w := Flags(), Pending(), Buffered();
      ghost var either, first := true, true;
      sees := false;
      while true
        invariant Valid() && fresh({buf} - old({buf}))
        invariant OnCourse(either, sees, Flags(), Pending(), tolerant, take, reports, seen, unseen) == true
        invariant first ==> either && Flags() == e && Pending() == p && Buffered() == w
        invariant !first ==> Decided(e, p, w, either, sees) == true
        decreases Work()
      {
        var stop;
        ghost var either0, sees0 := either, sees;
        stop, either, sees := ChunkRound(take, either, sees, seen, unseen);
        StaysDecided(e, p, w, first, either0, sees0, either, sees);
        first := false;
        if stop.Some? {
          return stop.value, sees;
        }
      }
    }

    // ----- blocks -----

    /** Splits what is buffered; at an element the result does not depend on what arrives later. */
    method SplitBuffered(chunks: array<Chunk>, ghost p: bytes) returns (count: nat)
      requires Valid() && chunks.Length > 0 && chunks != buf as object && p == Pending() && head < tail &&
        !IsSpace(buf[head])
      modifies chunks
      ensures Valid() && p == Pending()
      ensures count <= chunks.Length && chunks[..count] == Split(Buffered(), chunks.Length).chunks
      ensures AtElement(p) && count > 0 ==> FirstEnd(p) > 0 && Split(p, count).chunks == chunks[..count]
      ensures count == 0 ==> FirstEnd(Buffered()) == 0 && !StartsWith(p, COMMA)
    {
      var w := Buffered();
      assert w[0] == buf[head] == p[0];
      var depth;
      count, depth := FindArrayElementsAVX2(w, chunks);
      SplitFirst(w, chunks.Length);
      if count > 0 && AtElement(p) {
        SplitTiled(p, count);
        SplitArrived(w, p, chunks.Length);
        SplitFirst(p, count);
        FirstIsKept(p, count);
      }
      if StartsWith(p, COMMA) {
        SplitAtSeparator(w, chunks.Length);
      }
    }

    /** With nothing to hand out the call goes on, or the stream is truncated. */
    method NothingKept() returns (answer: Option<Answer>)
      requires Valid()
      modifies this`tailTruncated
      ensures answer == if isEOF then Some(Failed(Truncated)) else None
      ensures tailTruncated == (isEOF || old(tailTruncated))
    {
      if isEOF {
        tailTruncated := true;
        return Some(Failed(Truncated));
      }
      return None;
    }

    /** Hands out the kept chunks of what was split, up to the end of the last one, if their separators are good. Behind
        a doubled comma there is nothing to hand out; at the end of the stream it is taken for a truncation. */
    method HandOut(chunks: array<Chunk>, found: nat, ghost e: Env, ghost p: bytes)
      returns (answer: Option<Answer>, count: nat)
      requires Valid() && chunks != buf as object && e == Flags() && p == Pending() && 0 < found <= chunks.Length
      requires head < tail && chunks[..found] == Split(Buffered(), chunks.Length).chunks
      requires if AtElement(p) then FirstEnd(p) > 0 && Split(p, found).chunks == chunks[..found]
        else StartsWith(p, COMMA)
      modifies this`head, this`deliveredFirst, this`afterComma, this`tailTruncated, chunks
      ensures Valid()
      ensures answer.None? ==> Flags() == e && Pending() == p && !isEOF && head == old(head)
      ensures AtElement(p) ==>
        answer.Some? && BlockAt(e, p, chunks.Length, found, answer.value, count, Flags(), Pending()) == true
      ensures answer.Some? && !AtElement(p) ==>
        DoubledAt(Outcome(answer.value, e, p, reports), answer.value, count, Flags(), Pending()) == true
      ensures CutsFront(answer, Buffered(), old(Buffered())) == true
    {
      ghost var cs := chunks[..found];
      HandOutFacts(Buffered(), reader.rest, chunks.Length, found);
      var valid, prevEnd, bad := Slices.Compact(Buffered(), chunks, found, false, false);
      if bad != [] {
        return Some(Failed(BadGap)), 0;
      }
      if valid == 0 {
        answer := NothingKept();
        return answer, 0;
      }
      var raw := HandOutTo(chunks[valid - 1].end, e, p);
      return Some(Item(raw)), valid;
    }

    /** The last value of a stream without a terminator is a block of its own if it is complete. */
    method JudgeLast(ghost e: Env, ghost p: bytes, size: nat, ghost n: nat) returns (answer: Answer, count: nat)
      requires Valid() && isEOF && head < tail && e == Flags() && p == Pending() && AtElement(p) && FirstEnd(p) == 0
      modifies this`head, this`tailTruncated
      ensures Valid() && BlockAt(e, p, size, n, answer, count, Flags(), Pending())
      ensures CutsFront(Some(answer), Buffered(), old(Buffered())) == true
    {
      var frag := buf[head..tail];
      assert p == frag;
      var skipped := SkipValueStrict(frag, 0);
      tailTruncated := true;
      if skipped == Ok(|frag|) {
        head := tail;
        return Item(frag), 1;
      }
      return Failed(Truncated), 0;
    }

    /** What the buffered bytes are good for: a block, or an error, or nothing yet. */
    method TakeBlock(size: nat, ghost e: Env, ghost p: bytes) returns (answer: Option<Answer>, count: nat, ghost n: nat)
      requires Valid() && size > 0 && head < tail && e == Flags() && p == Pending() &&
        (AtElement(p) || StartsWith(p, COMMA))
      modifies this`head, this`deliveredFirst, this`afterComma, this`tailTruncated
      ensures Valid()
      ensures answer.None? ==> Flags() == e && Pending() == p && !isEOF && Work() == old(Work())
      ensures answer.Some? && AtElement(p) ==> BlockAt(e, p, size, n, answer.value, count, Flags(), Pending()) == true
      ensures answer.Some? && !AtElement(p) ==>
        DoubledAt(Outcome(answer.value, e, p, reports), answer.value, count, Flags(), Pending()) == true
      ensures answer.Some? ==> SplitsAll(size, n, answer.value, Buffered()) == true
    {
      var chunks := new Chunk[size];
      assert buf[head] == Buffered()[0] == p[0];
      var found := SplitBuffered(chunks, p);
      n := found;
      answer, count := TakeFound(chunks, found, e, p);
    }

    /** Hands out what was found, or judges that nothing was. */
    method TakeFound(chunks: array<Chunk>, found: nat, ghost e: Env, ghost p: bytes)
      returns (answer: Option<Answer>, count: nat)
      requires Valid() && chunks != buf as object && e == Flags() && p == Pending() && found <= chunks.Length
      requires head < tail && chunks[..found] == Split(Buffered(), chunks.Length).chunks
      requires if AtElement(p) then found > 0 ==> FirstEnd(p) > 0 && Split(p, found).chunks == chunks[..found]
        else StartsWith(p, COMMA) && found > 0
      requires found == 0 ==> FirstEnd(Buffered()) == 0
      modifies this`head, this`deliveredFirst, this`afterComma, this`tailTruncated, chunks
      ensures Valid()
      ensures answer.None? ==> Flags() == e && Pending() == p && !isEOF && Work() == old(Work())
      ensures answer.Some? && AtElement(p) ==>
        BlockAt(e, p, chunks.Length, found, answer.value, count, Flags(), Pending()) == true
      ensures answer.Some? && !AtElement(p) ==>
        DoubledAt(Outcome(answer.value, e, p, reports), answer.value, count, Flags(), Pending()) == true
      ensures answer.Some? ==> SplitsAll(chunks.Length, found, answer.value, Buffered()) == true
    {
      ghost var w, size := Buffered(), chunks.Length;
      assert found == |Split(w, size).chunks|;
      if found > 0 {
        answer, count := HandOut(chunks, found, e, p);
      } else {
        answer, count := JudgeRest(chunks.Length, e, p, found);
      }
      if answer.Some? {
        SplitAll(size, found, answer.value, Buffered(), w);
      }
    }

    /** What no complete element begins is judged at the end of the stream, and otherwise more must be read. */
    method JudgeRest(size: nat, ghost e: Env, ghost p: bytes, ghost n: nat)
      returns (answer: Option<Answer>, count: nat)
      requires Valid() && head < tail && e == Flags() && p == Pending() && AtElement(p) && FirstEnd(Buffered()) == 0
      modifies this`head, this`tailTruncated
      ensures Valid()
      ensures answer.None? ==> Flags() == e && Pending() == p && !isEOF && Work() == old(Work())
      ensures answer.Some? ==> BlockAt(e, p, size, n, answer.value, count, Flags(), Pending()) == true
      ensures CutsFront(answer, Buffered(), old(Buffered())) == true
    {
      if !isEOF {
        return None, 0;
      }
      assert Buffered() == p;
      var last;
      last, count := JudgeLast(e, p, size, n);
      answer := Some(last);
    }

    /** The element stage of a block call: hands out a block, fails, or reads more. */
    method BlockStage(size: nat, ghost e: Env, ghost p: bytes)
      returns (answer: Option<Answer>, count: nat, ghost n: nat)
      requires Valid() && size > 0 && head < tail && e == Flags() && p == Pending() &&
        (AtElement(p) || StartsWith(p, COMMA))
      modifies this`head, this`tail, this`buf, this`isEOF, this`deliveredFirst, this`afterComma, this`tailTruncated,
      reader, buf
      ensures Valid() && fresh({buf} - old({buf}))
      ensures answer.None? ==> Flags() == e && Pending() == p && Work() < old(Work())
      ensures answer.Some? && AtElement(p) ==> BlockAt(e, p, size, n, answer.value, count, Flags(), Pending()) == true
      ensures answer.Some? && !AtElement(p) ==>
        DoubledAt(Outcome(answer.value, e, p, reports), answer.value, count, Flags(), Pending()) == true
      ensures answer.Some? ==> SplitsAll(size, n, answer.value, Buffered()) == true
    {
      answer, count, n := TakeBlock(size, e, p);
      if answer.None? {
        Fill();
      }
    }

    /** Several elements as one block: what the splitter finds in the bytes that have arrived, up to the limit. A limit
        of 0 or less, or above 10000, means 10000. */
    method NextRawBlock(maxCount: int) returns (answer: Answer, count: nat, ghost sees: bool, ghost n: nat)
      requires Valid()
      modifies this`head, this`tail, this`buf, this`isEOF, this`hasStarted, this`hasEnded, this`deliveredFirst,
               this`afterComma, this`tailTruncated, this`reports, reader, buf
      ensures Valid() && fresh({buf} - old({buf}))
      ensures if old(hasEnded) || old(tailTruncated) then
          && answer == (if old(hasEnded) then EndOfStream else Failed(Truncated)) && count == 0
          && Flags() == old(Flags()) && Pending() == old(Pending())
        else
          BlockCall(Seek(old(Flags()), old(Pending()), false, sees, Marks(), old(reports)), Limit(maxCount), n,
                    answer, count, Flags(), Pending()) == true
      ensures count <= 10000 && (1 <= maxCount <= 10000 ==> count <= maxCount)
      ensures SplitsAll(if 1 <= maxCount <= 10000 then maxCount else 10000, n, answer, Buffered())
      ensures SeesFrom(old(Flags()), old(Pending()), old(Buffered()), sees)
    {
      if hasEnded {
        return EndOfStream, 0, false, 0;
      }
      if tailTruncated {
        return Failed(Truncated), 0, false, 0;
      }
      ghost var seen := Seek(Flags(), Pending(), false, true, Marks(), reports);
      ghost var unseen := Seek(Flags(), Pending(), false, false, Marks(), reports);
      answer, count, sees, n := BlockLoop(Limit(maxCount), seen, unseen);
      BlockFits(if sees then seen else unseen, Limit(maxCount), n, answer, count, Flags(), Pending());
    }

    /** One round of the loop for a block. */
    method BlockRound(size: nat, ghost either0: bool, ghost sees0: bool, ghost seen: Outcome, ghost unseen: Outcome)
      returns (stop: Option<Answer>, count: nat, ghost either: bool, ghost sees: bool, ghost n: nat)
      requires Valid() && size > 0
      requires OnCourse(either0, sees0, Flags(), Pending(), false, Marks(), reports, seen, unseen) == true
      modifies this`head, this`tail, this`buf, this`isEOF, this`hasStarted, this`hasEnded, this`deliveredFirst,
               this`afterComma, this`tailTruncated, this`reports, reader, buf
      ensures Valid() && fresh({buf} - old({buf}))
      ensures stop.Some? ==>
        BlockCall(if sees then seen else unseen, size, n, stop.value, count, Flags(), Pending()) == true &&
          SplitsAll(size, n, stop.value, Buffered()) == true
      ensures stop.None? ==>
        Work() < old(Work()) &&
          OnCourse(either, sees, Flags(), Pending(), false, Marks(), reports, seen, unseen) == true
      ensures Decided(old(Flags()), old(Pending()), old(Buffered()), either, sees) == true
      ensures !either0 ==> !either && sees == sees0
    {
      var stands, passed;
      stands, passed, stop, either, sees := Lead(false, Marks(), either0, sees0, seen, unseen);
      count, n := 0, 0;
      if stands || passed {
        ghost var e, q, log := Flags(), Pending(), reports;
        stop, count, n := BlockStage(size, e, q);
        if stop.Some? {
          BlockAnswers(either, sees, e, q, log, seen, unseen, size, n, stop.value, count, Flags(), Pending());
        }
      }
    }

    method BlockLoop(size: nat, ghost seen: Outcome, ghost unseen: Outcome)
      returns (answer: Answer, count: nat, ghost sees: bool, ghost n: nat)
      requires Valid() && size > 0
      requires OnCourse(true, false, Flags(), Pending(), false, Marks(), reports, seen, unseen) == true
      modifies this`head, this`tail, this`buf, this`isEOF, this`hasStarted, this`hasEnded, this`deliveredFirst,
               this`afterComma, this`tailTruncated, this`reports, reader, buf
      ensures Valid() && fresh({buf} - old({buf}))
      ensures BlockCall(if sees then seen else unseen, size, n, answer, count, Flags(), Pending()) == true
      ensures SplitsAll(size, n, answer, Buffered()) == true
      ensures SeesFrom(old(Flags()), old(Pending()), old(Buffered()), sees) == true
    {
      ghost var e, p, w := Flags(), Pending(), Buffered();
      ghost var either, first := true, true;
      sees, n := false, 0;
      while true
        invariant Valid() && fresh({buf} - old({buf}))
        invariant OnCourse(either, sees, Flags(), Pending(), false, Marks(), reports, seen, unseen) == true
        invariant first ==> either && Flags() == e && Pending() == p && Buffered() == w
        invariant !first ==> Decided(e, p, w, either, sees) == true
        decreases Work()
      {
        var stop;
        ghost var either0, sees0 := either, sees;
        stop, count, either, sees, n := BlockRound(size, either, sees, seen, unseen);
        StaysDecided(e, p, w, first, either0, sees0, either, sees);
        first := false;
        if stop.Some? {
          return stop.value, count, sees, n;
        }
      }
    }
  }

  /** The chunks found in the bytes that have arrived, judged against all bytes. */
  lemma {:induction false} HandOutFacts(w: bytes, rest: bytes, cap: nat, found: nat)
    requires |w| > 0 && found == |Split(w, cap).chunks| > 0
    requires if AtElement(w + rest) then Split(w + rest, found).chunks == Split(w, cap).chunks
      else StartsWith(w + rest, COMMA)
    ensures var kept := Solid(Split(w, cap).chunks);
      && Ascending(kept, |w|) && EndOf(kept) <= |w|
      && (Slices.GapsOk(w, kept, false) <==> Slices.GapsOk(w + rest, kept, false))
      && (AtElement(w + rest) ==> kept != []) && (!AtElement(w + rest) && kept != [] ==> !Slices.GapsOk(w, kept, false))
  {
    var p, kept := w + rest, Solid(Split(w, cap).chunks);
    KeptAscend(w, cap);
    GapsArrived(w, p, kept);
    assert w[0] == p[0];
    if AtElement(p) {
      FirstIsKept(p, found);
    } else if kept != [] {
      DoubledCommaGap(w, cap);
    }
  }
}
