/** The parallel array reader when there is only one processor: it reads batch after batch itself, and returns what it
    has at the first batch without an element, whatever follows. */
module SingleWorker {
  import opened Wrappers
  import opened Bytes
  import opened Splitter
  import opened Windows
  import opened Avx2Splitter
  import opened Slices
  import opened ParallelPlan

  /** What it does with the batch at `off`, behind the accepted ranges in `done`. */
  ghost function AloneAt(inner: bytes, off: nat, done: seq<Chunk>, cap: nat, room: nat, accepts: bytes -> bool)
    : (t: Turn)
    requires off < |inner|
    ensures t.Go? ==> off < t.off <= |inner|
  {
    var w, cs := inner[off..], Window(inner, off, cap);
    var kept := Shift(Solid(cs), off);
    if EndOf(cs) == 0 then Finished
    else if Split(w, cap).depth != 0 && |cs| < cap then Refuse(Malformed)
    else if !BatchGapsOk(inner, off, done, done + kept) then Refuse(BadSeparator)
    else if |kept| == 0 && !Closes(w, 0) then Refuse(Malformed)
    else if |done| + |kept| > room then Refuse(NoRoom)
    else if !AllAccepted(inner, kept, accepts) then Refuse(BadElement)
    else Go(off + EndOf(cs), done + kept)
  }

  type Turning = (nat, seq<Chunk>) -> Turn

  /** All batches from the one at `off` on. Nothing looks at what follows the last element. */
  ghost function Alone(inner: bytes, off: nat, done: seq<Chunk>, turn: Turning): Result
    requires off <= |inner|
    decreases |inner| - off
  {
    if off == |inner| then Accepted(done)
    else
      match turn(off, done)
      case Finished => Accepted(done)
      case Refuse(error) => Rejected(error)
      case Go(next, more) => if off < next <= |inner| then Alone(inner, next, more, turn) else Rejected(Malformed)
  }

  ghost function AloneTurns(inner: bytes, cap: nat, room: nat, accepts: bytes -> bool): Turning {
    (off: nat, done: seq<Chunk>) => if off < |inner| then AloneAt(inner, off, done, cap, room, accepts) else Finished
  }

  /** `turn` is the decision of every batch. */
  ghost predicate Decides(turn: Turning, inner: bytes, cap: nat, room: nat, accepts: bytes -> bool) {
    forall off: nat, done: seq<Chunk> {:trigger AloneAt(inner, off, done, cap, room, accepts)} ::
      off < |inner| ==> turn(off, done) == AloneAt(inner, off, done, cap, room, accepts)
  }

  /** The outcome for an input and a destination of `room` slots. */
  ghost function AcceptAlone(raw: bytes, room: nat, accepts: bytes -> bool): Result {
    if raw == [] then Accepted([])
    else if Inside(raw).None? then Rejected(NotAnArray)
    else if room == 0 then Accepted([])
    else Alone(Inner(raw), 0, [], AloneTurns(Inner(raw), BATCH, room, accepts))
  }

  // ----- the code -----

  /** One batch. */
  method AloneBatch<T(!new)>(inner: bytes, off: nat, buf: array<Chunk>, dst: array<T>, found0: nat, prevElemEnd0: nat,
                             accepts: bytes -> bool, decode: bytes -> T, ghost done: seq<Chunk>)
    returns (error: Option<Error>, step: nat, found: nat, prevElemEnd: nat, ghost more: seq<Chunk>)
    requires off < |inner| && (buf as object) != dst && Filled(dst[..], inner, done, decode)
    requires found0 == |done| && prevElemEnd0 == EndOf(done) <= off
    modifies buf, dst
    ensures var t := AloneAt(inner, off, done, buf.Length, dst.Length, accepts);
      if error.Some? then t == Refuse(error.value) else if step == 0 then t == Finished else t == Go(off + step, more)
    ensures error.None? ==>
      && found == |more| && prevElemEnd == EndOf(more) <= off + step && (step == 0 ==> more == done)
      && Filled(dst[..], inner, more, decode) == true && SameFrom(dst[..], old(dst[..]), found) == true
  {
    error, step, found, prevElemEnd, more := None, 0, found0, prevElemEnd0, done;
    var w := inner[off..];
    var count, maxDepth := FindArrayElementsAVX2(w, buf);
    WindowAscends(inner, off, buf.Length);
    ghost var cs := buf[..count];
    if count == 0 || buf[count - 1].end == 0 {
      return;
    }
    step := buf[count - 1].end;
    var valid := CompactAbsolute(buf, count, off);
    more := done + buf[..valid];
    KeptEnds(inner, off, buf.Length);
    if maxDepth != 0 && count < buf.Length {
      error := Some(Malformed);
      return;
    }
    var ok := CheckGaps(inner, off, buf, valid, done, Solid(cs), found > 0, prevElemEnd);
    var empty := EmptyArrayRemnant(w);
    if !ok {
      error := Some(BadSeparator);
    } else if valid == 0 && !empty {
      error := Some(Malformed);
    } else if found + valid > dst.Length {
      error := Some(NoRoom);
    } else {
      error, found, prevElemEnd := StoreAlone(inner, off, buf, valid, dst, found, prevElemEnd, accepts, decode, done);
    }
  }

  /** Parses the elements of a batch into the next slots. */
  method StoreAlone<T(!new)>(inner: bytes, off: nat, buf: array<Chunk>, valid: nat, dst: array<T>, found0: nat,
                             prevElemEnd0: nat, accepts: bytes -> bool, decode: bytes -> T, ghost done: seq<Chunk>)
    returns (error: Option<Error>, found: nat, prevElemEnd: nat)
    requires off < |inner| && valid <= buf.Length && (buf as object) != dst && Filled(dst[..], inner, done, decode)
    requires buf[..valid] == Shift(Solid(Window(inner, off, buf.Length)), off)
    requires found0 == |done| && prevElemEnd0 == EndOf(done) && found0 + valid <= dst.Length
    modifies dst
    ensures error == if AllAccepted(inner, buf[..valid], accepts) then None else Some(BadElement)
    ensures error.None? ==>
      && found == found0 + valid && prevElemEnd == EndOf(done + buf[..valid])
      && Filled(dst[..], inner, done + buf[..valid], decode) == true
      && SameFrom(dst[..], old(dst[..]), found) == true
  {
    AbsoluteAscends(inner, off, buf.Length);
    AtItsPlace(buf[..valid]);
    var ok := ParseStrict(inner, 0, buf, valid, dst, found0, accepts, decode, done);
    error := if ok then None else Some(BadElement);
    found, prevElemEnd := found0 + valid, if valid > 0 then buf[valid - 1].end else prevElemEnd0;
  }

  lemma {:induction false} AtItsPlace(cs: seq<Chunk>)
    ensures Shift(cs, 0) == cs
  {
  }

  lemma {:induction false} AbsoluteAscends(inner: bytes, off: nat, cap: nat)
    requires off < |inner|
    ensures Ascending(Shift(Solid(Window(inner, off, cap)), off), |inner|)
  {
    var kept, limit := Solid(Window(inner, off, cap)), |inner| - off;
    WindowAscends(inner, off, cap);
    var r := Shift(kept, off);
    forall k | 0 <= k < |r| ensures Ascends(r, k, |inner|) {
      assert Ascends(kept, k, limit);
    }
  }

  /** The loop over the batches. */
  method ReadAlone<T(!new)>(inner: bytes, dst: array<T>, accepts: bytes -> bool, decode: bytes -> T,
                            ghost turn: Turning, ghost goal: Result)
    returns (r: Outcome)
    requires Decides(turn, inner, BATCH, dst.Length, accepts) && goal == Alone(inner, 0, [], turn)
    modifies dst
    ensures Agrees(r, goal, old(dst[..]), dst[..], inner, decode)
  {
    var buf := new Chunk[BATCH];
    var off: nat, found: nat, prevElemEnd: nat := 0, 0, 0;
    ghost var done: seq<Chunk> := [];
    while off < |inner|
      invariant off <= |inner| && prevElemEnd == EndOf(done) <= off && found == |done| <= dst.Length
      invariant goal == Alone(inner, off, done, turn)
      invariant Filled(dst[..], inner, done, decode) && SameFrom(dst[..], old(dst[..]), found)
      decreases |inner| - off
    {
      var error, step;
      assert turn(off, done) == AloneAt(inner, off, done, BATCH, dst.Length, accepts);
      error, step, found, prevElemEnd, done :=
        AloneBatch(inner, off, buf, dst, found, prevElemEnd, accepts, decode, done);
      if error.Some? {
        return Failed(error.value);
      }
      if step == 0 {
        break;
      }
      off := off + step;
    }
    return Parsed(found);
  }

  /** The reader with one processor. */
  method UnmarshalArrayAlone<T(!new)>(raw: bytes, dst: array<T>, accepts: bytes -> bool, decode: bytes -> T)
    returns (r: Outcome)
    modifies dst
    ensures Agrees(r, AcceptAlone(raw, dst.Length, accepts), old(dst[..]), dst[..], Inner(raw), decode)
  {
    if |raw| == 0 {
      return Parsed(0);
    }
    var startIdx := SkipSpaceLoop(raw, 0);
    if startIdx >= |raw| || raw[startIdx] != LBRACKET {
      return Failed(NotAnArray);
    }
    if dst.Length == 0 {
      return Parsed(0);
    }
    ghost var turn := AloneTurns(Inner(raw), BATCH, dst.Length, accepts);
    r := ReadAlone(raw[startIdx + 1..], dst, accepts, decode, turn, AcceptAlone(raw, dst.Length, accepts));
  }
}
