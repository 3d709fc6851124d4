/** Cutting the inside of a JSON array at its depth-0 commas: the byte-wise loop and what it means. */
module Splitter {
  import opened Bytes

  /** A half-open byte range; `end` is the position of the comma or bracket that closed the element. */
  datatype Chunk = Chunk(start: nat, end: nat)

  /** The splitter's registers: escape carry, in-string flag, signed depth, start of the current element, the chunks
      stored so far, and whether it has returned. */
  datatype State = State(escaped: bool, inString: bool, depth: int, start: nat, chunks: seq<Chunk>, halted: bool)

  function Initial(start: nat): State {
    State(false, false, 0, start, [], false)
  }

  /** Stores the chunk that ends at `i` if there is room; the splitter returns when the buffer is full. */
  function Emit(s: State, i: nat, cap: nat, last: bool): State {
    if |s.chunks| >= cap then s.(halted := true)
    else
      var chunks := s.chunks + [Chunk(s.start, i)];
      if last then s.(chunks := chunks, halted := true)
      else s.(chunks := chunks, start := i + 1, halted := |chunks| >= cap)
  }

  /** The effect of the byte `c` at position `i`. */
  function Step(s: State, i: nat, c: byte, cap: nat): State {
    if s.halted then s
    else if s.escaped then s.(escaped := false)
    else if s.inString then
      if c == QUOTE then s.(inString := false) else if c == BACKSLASH then s.(escaped := true) else s
    else if c == QUOTE then s.(inString := true)
    else if IsOpen(c) then s.(depth := s.depth + 1)
    else if c == RBRACE then s.(depth := s.depth - 1)
    else if c == RBRACKET then
      if s.depth == 0 then Emit(s, i, cap, true) else s.(depth := s.depth - 1)
    else if c == COMMA && s.depth == 0 then Emit(s, i, cap, false)
    else s
  }

  /** The splitter continued over data[i..j]. */
  function Run(s: State, data: bytes, i: nat, j: nat, cap: nat): State
    requires i <= j <= |data|
    decreases j - i
  {
    if i == j then s else Run(Step(s, i, data[i], cap), data, i + 1, j, cap)
  }

  /** The state in which the splitter leaves `data`: leading whitespace is skipped first. */
  function Split(data: bytes, cap: nat): State {
    var start := SkipSpace(data, 0);
    Run(Initial(start), data, start, |data|, cap)
  }

  lemma {:induction false} RunSplit(s: State, data: bytes, i: nat, j: nat, k: nat, cap: nat)
    requires i <= j <= k <= |data|
    ensures Run(s, data, i, k, cap) == Run(Run(s, data, i, j, cap), data, j, k, cap)
    decreases j - i
  {
    if i < j {
      RunSplit(Step(s, i, data[i], cap), data, i + 1, j, k, cap);
    }
  }

  lemma {:induction false} RunHalted(s: State, data: bytes, i: nat, j: nat, cap: nat)
    requires i <= j <= |data| && s.halted
    ensures Run(s, data, i, j, cap) == s
    decreases j - i
  {
    if i < j {
      RunHalted(s, data, i + 1, j, cap);
    }
  }

  lemma {:induction false} RunGrows(s: State, data: bytes, i: nat, j: nat, cap: nat)
    requires i <= j <= |data|
    ensures s.chunks <= Run(s, data, i, j, cap).chunks
    decreases j - i
  {
    if i < j {
      RunGrows(Step(s, i, data[i], cap), data, i + 1, j, cap);
    }
  }

  /** The splitter does not look past the bytes it is run over. */
  lemma {:induction false} RunSame(s: State, a: bytes, b: bytes, i: nat, j: nat, cap: nat)
    requires i <= j <= |a| && a <= b
    ensures Run(s, a, i, j, cap) == Run(s, b, i, j, cap)
    decreases j - i
  {
    if i < j {
      RunSame(Step(s, i, a[i], cap), a, b, i + 1, j, cap);
    }
  }

  /** A buffer with room for exactly what was found gives the same chunks. */
  lemma {:induction false} RunExactRoom(s: State, data: bytes, i: nat, j: nat, cap: nat, n: nat)
    requires i <= j <= |data| && |s.chunks| < n <= cap && !s.halted && |Run(s, data, i, j, cap).chunks| == n
    ensures Run(s, data, i, j, n).chunks == Run(s, data, i, j, cap).chunks
    decreases j - i
  {
    var wide, tight := Step(s, i, data[i], cap), Step(s, i, data[i], n);
    RunGrows(wide, data, i + 1, j, cap);
    if |wide.chunks| == n {
      RunHalted(tight, data, i + 1, j, n);
      assert wide.chunks == Run(s, data, i, j, cap).chunks;
    } else {
      if wide.halted {
        RunHalted(wide, data, i + 1, j, cap);
      }
      RunExactRoom(wide, data, i + 1, j, cap, n);
    }
  }

  /** A run that does not fill a smaller buffer is the same in it. */
  lemma {:induction false} RunLessRoom(s: State, data: bytes, i: nat, j: nat, cap: nat, less: nat)
    requires i <= j <= |data| && !s.halted && less <= cap
    requires !Run(s, data, i, j, cap).halted && |Run(s, data, i, j, cap).chunks| < less
    ensures Run(s, data, i, j, less) == Run(s, data, i, j, cap)
    decreases j - i
  {
    if i < j {
      var next := Step(s, i, data[i], cap);
      RunGrows(next, data, i + 1, j, cap);
      if next.halted {
        RunHalted(next, data, i + 1, j, cap);
      }
      RunLessRoom(next, data, i + 1, j, cap, less);
    }
  }

  /** More room makes no difference to a run that does not fill the buffer. */
  lemma {:induction false} RunMoreRoom(s: State, data: bytes, i: nat, j: nat, cap: nat, more: nat)
    requires i <= j <= |data| && cap <= more && |Run(s, data, i, j, cap).chunks| < cap
    ensures Run(s, data, i, j, more) == Run(s, data, i, j, cap)
    decreases j - i
  {
    if i < j {
      RunGrows(Step(s, i, data[i], cap), data, i + 1, j, cap);
      RunMoreRoom(Step(s, i, data[i], cap), data, i + 1, j, cap, more);
    }
  }

  /** A buffer with one entry receives the first chunk, if there is one. */
  lemma {:induction false} RunFirst(s: State, data: bytes, i: nat, j: nat, cap: nat)
    requires i <= j <= |data| && s.chunks == [] && !s.halted && cap > 0
    ensures var all, one := Run(s, data, i, j, cap).chunks, Run(s, data, i, j, 1).chunks;
      if all == [] then one == [] else one == [all[0]]
    decreases j - i
  {
    if i < j {
      var wide, tight := Step(s, i, data[i], cap), Step(s, i, data[i], 1);
      if wide.chunks == [] {
        RunFirst(wide, data, i + 1, j, cap);
      } else {
        RunGrows(wide, data, i + 1, j, cap);
        RunHalted(tight, data, i + 1, j, 1);
      }
    }
  }

  lemma {:induction false} SplitFirst(data: bytes, cap: nat)
    requires cap > 0
    ensures var all, one := Split(data, cap).chunks, Split(data, 1).chunks;
      if all == [] then one == [] else one == [all[0]]
  {
    var i := SkipSpace(data, 0);
    RunFirst(Initial(i), data, i, |data|, cap);
  }

  /** What was found in the bytes that have arrived is what a buffer of that size finds in all bytes. */
  lemma {:induction false} SplitArrived(a: bytes, b: bytes, cap: nat)
    requires a <= b && a != [] && !IsSpace(a[0])
    requires var n := |Split(a, cap).chunks|; 0 < n <= cap && |Split(b, n).chunks| <= n
    ensures Split(b, |Split(a, cap).chunks|).chunks == Split(a, cap).chunks
  {
    var n := |Split(a, cap).chunks|;
    assert SkipSpace(a, 0) == 0;
    RunExactRoom(Initial(0), a, 0, |a|, cap, n);
    SplitPrefix(a, b, n);
  }

  /** What is found in the bytes that have arrived is found in all bytes. */
  lemma {:induction false} SplitPrefix(a: bytes, b: bytes, cap: nat)
    requires a <= b && a != [] && !IsSpace(a[0])
    ensures Split(a, cap).chunks <= Split(b, cap).chunks
  {
    var s := Initial(0);
    assert SkipSpace(a, 0) == 0 && SkipSpace(b, 0) == 0;
    RunSame(s, a, b, 0, |a|, cap);
    RunSplit(s, b, 0, |a|, |b|, cap);
    RunGrows(Run(s, b, 0, |a|, cap), b, |a|, |b|, cap);
  }

  /** The byte-wise tail loop of the vector routine, entered at position `i0` in a given machine state. It stores chunks
      in place, and it jumps over an escaped byte instead of remembering it. */
  method TailLoop(data: bytes, chunks: array<Chunk>, i0: nat, carry: bool, inString0: bool, depth0: int, start0: nat,
                  count0: nat)
    returns (count: nat, depth: int)
    requires i0 <= |data| && count0 <= chunks.Length
    modifies chunks
    ensures var s := Run(State(carry, inString0, depth0, start0, old(chunks[..count0]), false),
                         data, i0, |data|, chunks.Length);
      && count == |s.chunks| <= chunks.Length && chunks[..count] == s.chunks && depth == s.depth
  {
    ghost var cap, n := chunks.Length, |data|;
    ghost var last := Run(State(carry, inString0, depth0, start0, chunks[..count0], false), data, i0, n, cap);
    var i: nat, inString, start: nat := i0, inString0, start0;
    if carry {
      i := i + 1;
    }
    count, depth := count0, depth0;
    while i < |data|
      invariant i <= n + 1 && count <= cap
      invariant i <= n ==> last == Run(State(false, inString, depth, start, chunks[..count], false), data, i, n, cap)
      invariant i == n + 1 ==> last == State(true, inString, depth, start, chunks[..count], false)
    {
      var c := data[i];
      ghost var s := State(false, inString, depth, start, chunks[..count], false);
      if inString {
        if c == QUOTE {
          inString := false;
        } else if c == BACKSLASH {
          assert last == Run(s.(escaped := true), data, i + 1, n, cap);
          i := i + 1;
        }
      } else if c == QUOTE {
        inString := true;
      } else if c == LBRACE || c == LBRACKET {
        depth := depth + 1;
      } else if c == RBRACE {
        depth := depth - 1;
      } else if c == RBRACKET {
        if depth == 0 {
          RunHalted(Step(s, i, c, cap), data, i + 1, n, cap);
          if count < chunks.Length {
            chunks[count] := Chunk(start, i);
            count := count + 1;
          }
          return;
        }
        depth := depth - 1;
      } else if c == COMMA && depth == 0 {
        if count >= chunks.Length {
          RunHalted(Step(s, i, c, cap), data, i + 1, n, cap);
          return;
        }
        chunks[count] := Chunk(start, i);
        assert chunks[..count + 1] == s.chunks + [Chunk(start, i)];
        count := count + 1;
        start := i + 1;
        if count >= chunks.Length {
          RunHalted(Step(s, i, c, cap), data, i + 1, n, cap);
          return;
        }
      }
      i := i + 1;
    }
  }
}
