/** The portable splitter: what it stores and returns, exactly, and how far that is what the vector routine does. */
module ScalarSplitter {
  import opened Wrappers
  import opened Bytes
  import opened Splitter
  import opened ArrayElements

  // ----- what it returns -----

  /** A closing brace at depth 0, outside strings. */
  predicate IsStray(s: State, c: byte) {
    !s.halted && !s.escaped && !s.inString && s.depth == 0 && c == RBRACE
  }

  /** The first such brace that the reference meets, with room for `room` chunks. */
  function FirstStray(s: State, data: bytes, i: nat, room: nat): (r: Option<nat>)
    requires i <= |data|
    ensures r.Some? ==> i <= r.value < |data| && data[r.value] == RBRACE
    decreases |data| - i
  {
    if i == |data| then None
    else if IsStray(s, data[i]) then Some(i)
    else FirstStray(Step(s, i, data[i], room), data, i + 1, room)
  }

  function StrayIn(data: bytes, room: nat): (r: Option<nat>)
    ensures r.Some? ==> SkipSpace(data, 0) <= r.value < |data|
  {
    FirstStray(Initial(SkipSpace(data, 0)), data, SkipSpace(data, 0), room)
  }

  /** The scalar routine's chunks are the reference's first ones, without leading whitespace. */
  predicate TrimmedOf(data: bytes, chunks: seq<Chunk>, cs: seq<Chunk>) {
    |chunks| <= |cs| && forall k | 0 <= k < |chunks| :: TrimmedAt(data, chunks[k], cs[k])
  }

  predicate TrimmedAt(data: bytes, c: Chunk, r: Chunk) {
    r.start <= |data| && c.end == r.end && c.start == SkipSpace(data, r.start)
  }

  /** As many of the reference's chunks as there is room for. */
  predicate Stores(data: bytes, chunks: seq<Chunk>, cs: seq<Chunk>, cap: nat) {
    |chunks| == Min(cap, |cs|) && TrimmedOf(data, chunks, cs)
  }

  /** A full buffer does not stop the routine; the next comma or bracket does. So it runs as the reference does with
      room for one more chunk, up to a closing brace at depth 0, where it answers -1. */
  ghost predicate Returns(data: bytes, chunks: seq<Chunk>, depth: int, cap: nat) {
    var first, all := SkipSpace(data, 0), Split(data, cap + 1);
    match StrayIn(data, cap + 1)
    case Some(i) => depth == -1 && Stores(data, chunks, Run(Initial(first), data, first, i, cap + 1).chunks, cap)
    case None => depth == all.depth && Stores(data, chunks, all.chunks, cap)
  }

  // ----- the routine -----

  /** The reference, outside strings at `i`, and all that it will still do. */
  ghost predicate Ahead(data: bytes, i: nat, s: State, room: nat) {
    var first := SkipSpace(data, 0);
    && first <= i <= |data| && s == Run(Initial(first), data, first, i, room)
    && StrayIn(data, room) == FirstStray(s, data, i, room) && Split(data, room) == Run(s, data, i, |data|, room)
  }

  /** One byte that is no stray brace. */
  lemma {:induction false} AheadOne(data: bytes, i: nat, s: State, room: nat)
    requires Ahead(data, i, s, room) && i < |data| && !IsStray(s, data[i])
    ensures Ahead(data, i + 1, Step(s, i, data[i], room), room)
  {
    RunSplit(Initial(SkipSpace(data, 0)), data, SkipSpace(data, 0), i, i + 1, room);
  }

  /** A quiet state that has stored what the routine has stored. */
  ghost predicate Quiet(s: State, data: bytes, chunks: seq<Chunk>, depth: int, start: nat, cap: nat) {
    && TrimmedOf(data, chunks, s.chunks) && |chunks| == |s.chunks| <= cap && depth == s.depth >= 0
    && !s.halted && !s.inString && !s.escaped && s.start <= |data| && start == SkipSpace(data, s.start)
  }

  /** Nothing is stray behind the end of the run. */
  lemma {:induction false} HaltedNotStray(s: State, data: bytes, i: nat, room: nat)
    requires i <= |data| && s.halted
    ensures FirstStray(s, data, i, room) == None
    decreases |data| - i
  {
    if i < |data| {
      HaltedNotStray(s, data, i + 1, room);
    }
  }

  /** The closing quote of the string whose inside begins at `i0`, or the end of the data. */
  method SkipInside(data: bytes, i0: nat, ghost s: State, ghost room: nat) returns (i: nat, ghost t: State)
    requires Ahead(data, i0, s, room) && !s.halted && s.inString && !s.escaped
    ensures i0 <= i <= |data| && Ahead(data, i, t, room) && (i < |data| ==> data[i] == QUOTE && t == s)
    ensures t.chunks == s.chunks && t.depth == s.depth && !t.halted
  {
    i, t := i0, s;
    while i < |data|
      invariant i0 <= i <= |data| && Ahead(data, i, t, room)
      invariant if i < |data| then t == s else t.chunks == s.chunks && t.depth == s.depth && !t.halted
      decreases |data| - i
    {
      if data[i] == QUOTE {
        return;
      }
      AheadOne(data, i, s, room);
      t := Step(s, i, data[i], room);
      if data[i] == BACKSLASH && i + 1 < |data| {
        AheadOne(data, i + 1, t, room);
        t := Step(t, i + 1, data[i + 1], room);
        i := i + 2;
      } else {
        i := i + 1;
      }
    }
  }

  /** Skips a string from its opening quote at `i0`; behind the closing quote the reference is where it was. */
  method SkipString(data: bytes, i0: nat, ghost s: State, ghost room: nat) returns (i: nat, ghost t: State)
    requires Ahead(data, i0, s, room) && i0 < |data| && data[i0] == QUOTE && !s.halted && !s.inString && !s.escaped
    ensures i0 < i <= |data| + 1
    ensures i <= |data| ==> t == s && Ahead(data, i, s, room)
    ensures i > |data| ==> Ahead(data, |data|, t, room) && t.chunks == s.chunks && t.depth == s.depth
  {
    AheadOne(data, i0, s, room);
    i, t := SkipInside(data, i0 + 1, Step(s, i0, data[i0], room), room);
    if i < |data| {
      AheadOne(data, i, t, room);
      t := s;
    }
    i := i + 1;
  }

  lemma {:induction false} TrimmedSnoc(data: bytes, chunks: seq<Chunk>, cs: seq<Chunk>, c: Chunk, r: Chunk)
    requires TrimmedOf(data, chunks, cs) && |chunks| == |cs| && TrimmedAt(data, c, r)
    ensures TrimmedOf(data, chunks + [c], cs + [r])
  {
  }

  /** Whitespace behind a comma changes nothing. */
  lemma {:induction false} AheadBlank(data: bytes, i: nat, j: nat, s: State, room: nat)
    requires Ahead(data, i, s, room) && i <= j <= |data| && Blank(data, i, j) && !s.escaped && !s.inString
    ensures Ahead(data, j, s, room)
    decreases j - i
  {
    if i < j {
      AheadOne(data, i, s, room);
      AheadBlank(data, i + 1, j, s, room);
    }
  }

  /** Stores a chunk that ends at the comma at `i`, and moves over the whitespace behind it. */
  method TakeComma(data: bytes, chunks: array<Chunk>, i: nat, count: nat, start0: nat, ghost s: State)
    returns (next: nat, start: nat, ghost t: State)
    requires Ahead(data, i, s, chunks.Length + 1) && i < |data| && data[i] == COMMA && count < chunks.Length
    requires Quiet(s, data, chunks[..count], 0, start0, chunks.Length)
    modifies chunks
    ensures i < next <= |data| && Ahead(data, next, t, chunks.Length + 1)
    ensures Quiet(t, data, chunks[..count + 1], 0, start, chunks.Length)
  {
    ghost var was, room := chunks[..count], chunks.Length + 1;
    TrimmedSnoc(data, was, s.chunks, Chunk(start0, i), Chunk(s.start, i));
    chunks[count] := Chunk(start0, i);
    assert chunks[..count + 1] == was + [Chunk(start0, i)];
    AheadOne(data, i, s, room);
    t := Step(s, i, data[i], room);
    next := SkipSpaceLoop(data, i + 1);
    start := next;
    SkipSpaceBlank(data, i + 1);
    AheadBlank(data, i + 1, next, t, room);
  }

  /** At the comma or the bracket that stops the routine. */
  lemma {:induction false} StopsThere(data: bytes, i: nat, s: State, room: nat)
    requires Ahead(data, i, s, room) && i < |data| && !IsStray(s, data[i]) && Step(s, i, data[i], room).halted
    ensures StrayIn(data, room) == None && Split(data, room) == Step(s, i, data[i], room)
  {
    var t := Step(s, i, data[i], room);
    AheadOne(data, i, s, room);
    HaltedNotStray(t, data, i + 1, room);
    RunHalted(t, data, i + 1, |data|, room);
  }

  /** Stores the last chunk, which ends at the bracket at `i`, if there is room. */
  method TakeBracket(data: bytes, chunks: array<Chunk>, i: nat, count0: nat, start: nat, ghost s: State)
    returns (count: nat)
    requires Ahead(data, i, s, chunks.Length + 1) && i < |data| && data[i] == RBRACKET && count0 <= chunks.Length
    requires Quiet(s, data, chunks[..count0], 0, start, chunks.Length)
    modifies chunks
    ensures count <= chunks.Length && Returns(data, chunks[..count], 0, chunks.Length)
  {
    ghost var was := chunks[..count0];
    StopsThere(data, i, s, chunks.Length + 1);
    count := count0;
    if count < chunks.Length {
      TrimmedSnoc(data, was, s.chunks, Chunk(start, i), Chunk(s.start, i));
      chunks[count] := Chunk(start, i);
      assert chunks[..count + 1] == was + [Chunk(start, i)];
      count := count + 1;
    }
  }

  /** The portable splitter. */
  method FindArrayElementsScalar(data: bytes, chunks: array<Chunk>) returns (count: nat, depth: int)
    modifies chunks
    ensures count <= chunks.Length && Returns(data, chunks[..count], depth, chunks.Length)
  {
    var start: nat := SkipSpaceLoop(data, 0);
    var i := start;
    depth, count := 0, 0;
    ghost var s, room := Initial(start), chunks.Length + 1;
    while i < |data|
      invariant count <= chunks.Length && Ahead(data, i, s, room) == true
      invariant Quiet(s, data, chunks[..count], depth, start, chunks.Length)
    {
      var c := data[i];
      if c == QUOTE {
        ghost var t;
        i, t := SkipString(data, i, s, room);
        if i > |data| {
          return;
        }
      } else if c == COMMA && depth == 0 {
        if count >= chunks.Length {
          StopsThere(data, i, s, room);
          return count, 0;
        }
        i, start, s := TakeComma(data, chunks, i, count, start, s);
        count := count + 1;
      } else if (c == RBRACE || c == RBRACKET) && depth == 0 {
        if c == RBRACKET {
          count := TakeBracket(data, chunks, i, count, start, s);
          return count, 0;
        }
        return count, -1;
      } else {
        AheadOne(data, i, s, room);
        s := Step(s, i, c, room);
        if c == LBRACE || c == LBRACKET {
          depth := depth + 1;
        } else if c == RBRACE || c == RBRACKET {
          depth := depth - 1;
        }
        i := i + 1;
      }
    }
  }

  // ----- the two routines -----

  /** With room for one chunk less, the run stores all but the one that no longer fits. */
  lemma {:induction false} RunOneLess(s: State, data: bytes, i: nat, j: nat, cap: nat)
    requires i <= j <= |data| && !s.halted && |s.chunks| <= cap
    ensures var wide, tight := Run(s, data, i, j, cap + 1), Run(s, data, i, j, cap);
      && tight.chunks == wide.chunks[..Min(cap, |wide.chunks|)] && (|wide.chunks| < cap ==> tight == wide)
    decreases j - i
  {
    if i < j {
      var wide, tight := Step(s, i, data[i], cap + 1), Step(s, i, data[i], cap);
      RunGrows(wide, data, i + 1, j, cap + 1);
      if tight.halted {
        RunHalted(tight, data, i + 1, j, cap);
        if wide.halted {
          RunHalted(wide, data, i + 1, j, cap + 1);
        }
      } else {
        RunOneLess(wide, data, i + 1, j, cap);
      }
    }
  }

  /** Where no closing brace stands at depth 0, both routines store the same chunks, up to leading whitespace, for every
      buffer; and as long as the buffer is not full they answer the same depth. */
  lemma {:induction false} SameAsBlocks(data: bytes, chunks: seq<Chunk>, depth: int, cap: nat)
    requires Returns(data, chunks, depth, cap) && StrayIn(data, cap + 1) == None
    ensures var s := Split(data, cap);
      && |chunks| == |s.chunks| && TrimmedOf(data, chunks, s.chunks) && (|chunks| < cap ==> depth == s.depth)
  {
    var first := SkipSpace(data, 0);
    RunOneLess(Initial(first), data, first, |data|, cap);
  }

  /** Where one does, the scalar routine has stored the first ones of what the other stores. */
  lemma {:induction false} FewerThanBlocks(data: bytes, chunks: seq<Chunk>, depth: int, cap: nat)
    requires Returns(data, chunks, depth, cap)
    ensures TrimmedOf(data, chunks, Split(data, cap).chunks)
    ensures depth == -1 <==> StrayIn(data, cap + 1).Some?
  {
    var first := SkipSpace(data, 0);
    RunOneLess(Initial(first), data, first, |data|, cap);
    match StrayIn(data, cap + 1) {
      case Some(i) =>
        RunSplit(Initial(first), data, first, i, |data|, cap + 1);
        RunGrows(Run(Initial(first), data, first, i, cap + 1), data, i, |data|, cap + 1);
      case None => NotBelow(Initial(first), data, first, cap + 1);
    }
  }

  lemma {:induction false} NotBelow(s: State, data: bytes, i: nat, room: nat)
    requires i <= |data| && s.depth >= 0 && FirstStray(s, data, i, room) == None
    ensures Run(s, data, i, |data|, room).depth >= 0
    decreases |data| - i
  {
    if i < |data| {
      NotBelow(Step(s, i, data[i], room), data, i + 1, room);
    }
  }
}
