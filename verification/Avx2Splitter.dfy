/** The 32-byte-block splitter, and its refinement of the byte-wise loop. */
module Avx2Splitter {
  import opened Bytes
  import opened Simd
  import opened Splitter

  // ----- what a block's masks say about a run of the byte-wise loop -----

  /** The bits a block's merged mask selects: structural bytes, quotes and backslashes, but not a byte that the previous
      block's carry has escaped. */
  ghost predicate Merges(merged: Mask, data: bytes, cx: nat, carry: bool)
    requires cx + 32 <= |data|
  {
    forall k | 0 <= k < 32 ::
      merged[k] == ((IsStructural(data[cx + k]) || IsSpecial(data[cx + k])) && !(k == 0 && carry))
  }

  /** Bytes whose merged bit is clear change nothing. */
  lemma {:induction false} RunPlain(s: State, data: bytes, cx: nat, merged: Mask, carry: bool, p: nat, r: nat, cap: nat)
    requires p <= r <= 32 && cx + 32 <= |data| && !s.escaped && (carry ==> p >= 1)
    requires Merges(merged, data, cx, carry)
    requires forall k | p <= k < r :: !merged[k]
    ensures Run(s, data, cx + p, cx + r, cap) == s
    decreases r - p
  {
    if p < r {
      assert !merged[p];
      RunPlain(s, data, cx, merged, carry, p + 1, r, cap);
    }
  }

  /** In-string flag before bit `k` of a block without backslashes. */
  function StringAt(quotes: Mask, before: bool, k: nat): bool
    requires k <= 32
  {
    Parity(quotes, k) != before
  }

  /** The prefix-XOR mask of the quotes, flipped when the block starts inside a string. */
  function InsideMask(quotes: Mask, before: bool): Mask {
    XorFlag(CarrylessProduct(quotes, AllOnes()), before)
  }

  /** The same flag, read off the mask. */
  function InsideBefore(inside: Mask, before: bool, k: nat): bool
    requires k <= 32
  {
    if k == 0 then before else inside[k - 1]
  }

  lemma {:induction false} InsideIsString(quotes: Mask, before: bool, k: nat)
    requires k <= 32
    ensures InsideBefore(InsideMask(quotes, before), before, k) == StringAt(quotes, before, k)
  {
    ProductIsPrefixXor(quotes);
  }

  /** The three masks of a block. */
  ghost predicate Describes(structs: Mask, quotes: Mask, slashes: Mask, data: bytes, cx: nat, carry: bool)
    requires cx + 32 <= |data|
  {
    && (forall k | 0 <= k < 32 :: structs[k] == (IsStructural(data[cx + k]) && !(k == 0 && carry)))
    && (forall k | 0 <= k < 32 :: quotes[k] == (data[cx + k] == QUOTE && !(k == 0 && carry)))
    && (forall k | 0 <= k < 32 :: slashes[k] == (data[cx + k] == BACKSLASH && !(k == 0 && carry)))
  }

  /** Between two structural bits outside strings, only the in-string flag changes. */
  lemma {:induction false} RunQuotes(s: State, data: bytes, cx: nat, structs: Mask, quotes: Mask, slashes: Mask,
                                     carry: bool, before: bool, p: nat, r: nat, cap: nat)
    requires p <= r <= 32 && cx + 32 <= |data| && (carry ==> p >= 1)
    requires Describes(structs, quotes, slashes, data, cx, carry) && IsZero(slashes)
    requires !s.escaped && !s.halted && s.inString == StringAt(quotes, before, p)
    requires forall k | p <= k < r && structs[k] :: StringAt(quotes, before, k + 1)
    ensures Run(s, data, cx + p, cx + r, cap) == s.(inString := StringAt(quotes, before, r))
    decreases r - p
  {
    if p < r {
      var t := Step(s, cx + p, data[cx + p], cap);
      assert structs[p] == IsStructural(data[cx + p]) && quotes[p] == (data[cx + p] == QUOTE) && !slashes[p];
      assert t == s.(inString := StringAt(quotes, before, p + 1));
      RunQuotes(t, data, cx, structs, quotes, slashes, carry, before, p + 1, r, cap);
    }
  }

  ghost predicate Matches(s: State, chunks: array<Chunk>, count: nat, depth: int)
    reads chunks
  {
    count == |s.chunks| <= chunks.Length && chunks[..count] == s.chunks && depth == s.depth
  }

  /** The registers and the chunk buffer hold the running state `s`. */
  ghost predicate Holds(s: State, carry: bool, inString: bool, depth: int, start: nat, chunks: array<Chunk>, count: nat)
    reads chunks
  {
    && Matches(s, chunks, count, depth)
    && s.escaped == carry && s.inString == inString && s.start == start && !s.halted
  }

  /** Stores the element that ends at `at`: the in-place form of Emit. */
  method Store(chunks: array<Chunk>, count0: nat, start0: nat, at: nat, last: bool, ghost s: State)
    returns (count: nat, start: nat, done: bool)
    requires Matches(s, chunks, count0, s.depth) && s.start == start0 && !s.halted
    modifies chunks
    ensures var t := Emit(s, at, chunks.Length, last);
      Matches(t, chunks, count, s.depth) && start == t.start && done == t.halted
  {
    count, start := count0, start0;
    if count >= chunks.Length {
      return count, start, true;
    }
    chunks[count] := Chunk(start, at);
    assert chunks[..count + 1] == s.chunks + [Chunk(start, at)];
    count := count + 1;
    if last {
      return count, start, true;
    }
    start := at + 1;
    done := count >= chunks.Length;
  }

  /** One structural byte outside strings. */
  method Structural(chunks: array<Chunk>, c: byte, at: nat, depth0: int, start0: nat, count0: nat, ghost s: State)
    returns (depth: int, start: nat, count: nat, done: bool, ghost t: State)
    requires IsStructural(c) && Holds(s, false, false, depth0, start0, chunks, count0)
    modifies chunks
    ensures t == Step(s, at, c, chunks.Length)
    ensures Matches(t, chunks, count, depth) && done == t.halted
    ensures !done ==> Holds(t, false, false, depth, start, chunks, count)
  {
    depth, start, count, done := depth0, start0, count0, false;
    t := Step(s, at, c, chunks.Length);
    if c == COMMA {
      if depth == 0 {
        count, start, done := Store(chunks, count, start, at, false, s);
      }
    } else if c == LBRACE || c == LBRACKET {
      depth := depth + 1;
    } else if c == RBRACE {
      depth := depth - 1;
    } else if depth == 0 {
      count, start, done := Store(chunks, count, start, at, true, s);
    } else {
      depth := depth - 1;
    }
  }

  /** The bits from `p` on that mark structural bytes outside strings. */
  ghost predicate Selects(mask: Mask, structs: Mask, inside: Mask, p: nat) {
    forall k | 0 <= k < 32 :: mask[k] <==> k >= p && structs[k] && !inside[k]
  }

  lemma {:induction false} SelectsBehind(mask: Mask, structs: Mask, inside: Mask, p: nat, r: nat)
    requires Selects(mask, structs, inside, p) && p <= r < 32 && forall k | 0 <= k < r :: !mask[k]
    ensures Selects(mask[r := false], structs, inside, r + 1)
  {
  }

  /** The run from bit `p` passes the selected bit `r`, or the end of the block when there is none. */
  lemma {:induction false} FastAdvance(s: State, data: bytes, cx: nat, structs: Mask, quotes: Mask, slashes: Mask,
                                       inside: Mask, mask: Mask, carry: bool, before: bool, p: nat, r: nat, cap: nat)
    returns (at: State)
    requires inside == InsideMask(quotes, before)
    requires p <= r <= 32 && cx + 32 <= |data| && (carry ==> p >= 1)
    requires Describes(structs, quotes, slashes, data, cx, carry) && IsZero(slashes)
    requires !s.escaped && !s.halted && s.inString == InsideBefore(inside, before, p)
    requires Selects(mask, structs, inside, p)
    requires forall k | 0 <= k < r :: !mask[k]
    requires r < 32 ==> mask[r]
    ensures at == s.(inString := InsideBefore(inside, before, r))
    ensures r == 32 ==> Run(s, data, cx + p, cx + 32, cap) == at
    ensures r < 32 ==> var t := Step(at, cx + r, data[cx + r], cap);
      && !at.inString && IsStructural(data[cx + r]) && !InsideBefore(inside, before, r + 1)
      && Run(s, data, cx + p, cx + 32, cap) == Run(t, data, cx + r + 1, cx + 32, cap)
      && (t.halted ==> Run(s, data, cx + p, cx + 32, cap) == t)
  {
    forall k | p <= k < r && structs[k] ensures StringAt(quotes, before, k + 1) {
      InsideIsString(quotes, before, k + 1);
      assert !mask[k];
    }
    InsideIsString(quotes, before, p);
    InsideIsString(quotes, before, r);
    RunQuotes(s, data, cx, structs, quotes, slashes, carry, before, p, r, cap);
    at := s.(inString := InsideBefore(inside, before, r));
    if r < 32 {
      RunSplit(s, data, cx + p, cx + r, cx + 32, cap);
      assert structs[r] && !inside[r];
      InsideIsString(quotes, before, r + 1);
      assert !quotes[r];
      var t := Step(at, cx + r, data[cx + r], cap);
      if t.halted {
        RunHalted(t, data, cx + r + 1, cx + 32, cap);
      }
    }
  }

  lemma {:induction false} CarriedBitIsNoQuote(structs: Mask, quotes: Mask, slashes: Mask, data: bytes, cx: nat,
                                               carry: bool, before: bool)
    requires cx + 32 <= |data| && Describes(structs, quotes, slashes, data, cx, carry)
    ensures carry ==> InsideBefore(InsideMask(quotes, before), before, 1) == before && !structs[0]
  {
    InsideIsString(quotes, before, 1);
    assert Parity(quotes, 1) == (Parity(quotes, 0) != quotes[0]);
  }

  /** The loop body of a block without backslashes: one selected bit. */
  method FastBit(data: bytes, chunks: array<Chunk>, cx: nat, ghost structs: Mask, ghost quotes: Mask,
                 ghost slashes: Mask, ghost inside: Mask, mask: Mask, ghost carry: bool, ghost before: bool,
                 ghost p: nat, depth0: int, start0: nat, count0: nat, ghost s0: State)
    returns (r: nat, depth: int, start: nat, count: nat, done: bool, ghost s: State)
    requires inside == InsideMask(quotes, before)
    requires p <= 32 && cx + 32 <= |data| && (carry ==> p >= 1)
    requires Describes(structs, quotes, slashes, data, cx, carry) && IsZero(slashes)
    requires Holds(s0, false, InsideBefore(inside, before, p), depth0, start0, chunks, count0)
    requires Selects(mask, structs, inside, p)
    requires !IsZero(mask)
    modifies chunks
    ensures p <= r < 32 && forall k | 0 <= k < r :: !mask[k]
    ensures Matches(s, chunks, count, depth) && done == s.halted
    ensures !done ==> Holds(s, false, InsideBefore(inside, before, r + 1), depth, start, chunks, count)
    ensures Run(s0, data, cx + p, cx + 32, chunks.Length)
         == if done then s else Run(s, data, cx + (r + 1), cx + 32, chunks.Length)
  {
    r := Lowest(mask);
    ghost var at :=
      FastAdvance(s0, data, cx, structs, quotes, slashes, inside, mask, carry, before, p, r, chunks.Length);
    depth, start, count, done, s := Structural(chunks, data[cx + r], cx + r, depth0, start0, count0, at);
  }

  /** A block without backslashes: the structural bits inside strings are masked out by the prefix XOR. */
  method FastBlock(data: bytes, chunks: array<Chunk>, cx: nat, structs: Mask, quotes: Mask, ghost slashes: Mask,
                   ghost carry: bool, inString0: bool, depth0: int, start0: nat, count0: nat, ghost s0: State)
    returns (inString: bool, depth: int, start: nat, count: nat, done: bool, ghost end: State)
    requires cx + 32 <= |data| && Holds(s0, carry, inString0, depth0, start0, chunks, count0)
    requires Describes(structs, quotes, slashes, data, cx, carry) && IsZero(slashes)
    modifies chunks
    ensures end == Run(s0, data, cx, cx + 32, chunks.Length)
    ensures Matches(end, chunks, count, depth) && done == end.halted
    ensures !done ==> Holds(end, false, inString, depth, start, chunks, count)
  {
    depth, start, count, done := depth0, start0, count0, false;
    ghost var cap := chunks.Length;
    var inside := InsideMask(quotes, inString0);
    inString := inside[31];
    var mask := AndNot(structs, inside);
    ghost var p := if carry then 1 else 0;
    ghost var s := s0.(escaped := false);
    end := Run(s0, data, cx, cx + 32, cap);
    CarriedBitIsNoQuote(structs, quotes, slashes, data, cx, carry, inString0);
    while !IsZero(mask)
      invariant p <= 32 && (carry ==> p >= 1)
      invariant Holds(s, false, InsideBefore(inside, inString0, p), depth, start, chunks, count)
      invariant end == Run(s, data, cx + p, cx + 32, cap)
      invariant Selects(mask, structs, inside, p)
      decreases 32 - p
    {
      var r;
      r, depth, start, count, done, s := FastBit(data, chunks, cx, structs, quotes, slashes, inside, mask, carry,
                                                 inString0, p, depth, start, count, s);
      if done {
        return;
      }
      SelectsBehind(mask, structs, inside, p, r);
      mask := mask[r := false];
      p := r + 1;
    }
    s := FastAdvance(s, data, cx, structs, quotes, slashes, inside, mask, carry, inString0, p, 32, cap);
  }

  /** The merged bits from `p` on. */
  ghost predicate Remains(mask: Mask, merged: Mask, p: nat) {
    forall k | 0 <= k < 32 :: mask[k] <==> k >= p && merged[k]
  }

  lemma {:induction false} RemainsBehind(mask: Mask, merged: Mask, p: nat, r: nat)
    requires Remains(mask, merged, p) && p <= r < 32 && forall k | 0 <= k < r :: !mask[k]
    ensures Remains(mask[r := false], merged, r + 1)
    ensures r < 31 ==> Remains(mask[r := false][r + 1 := false], merged, r + 2)
  {
  }

  /** The run from bit `p` reaches the merged bit `r`, or the end of the block when there is none. */
  lemma {:induction false} SlowAdvance(s: State, data: bytes, cx: nat, merged: Mask, mask: Mask, carry: bool, p: nat,
                                       r: nat, cap: nat)
    requires p <= r <= 32 && cx + 32 <= |data| && !s.escaped && (carry ==> p >= 1)
    requires Merges(merged, data, cx, carry)
    requires Remains(mask, merged, p)
    requires forall k | 0 <= k < r :: !mask[k]
    requires r < 32 ==> mask[r]
    ensures r == 32 ==> Run(s, data, cx + p, cx + 32, cap) == s
    ensures r < 32 ==> var c := data[cx + r]; var t := Step(s, cx + r, c, cap);
      && (IsStructural(c) || IsSpecial(c))
      && Run(s, data, cx + p, cx + 32, cap) == Run(t, data, cx + r + 1, cx + 32, cap)
      && (t.halted ==> Run(s, data, cx + p, cx + 32, cap) == t)
  {
    ClearUpTo(merged, mask, p, r);
    RunPlain(s, data, cx, merged, carry, p, r, cap);
    if r < 32 {
      RunSplit(s, data, cx + p, cx + r, cx + 32, cap);
      assert merged[r];
      var t := Step(s, cx + r, data[cx + r], cap);
      if t.halted {
        RunHalted(t, data, cx + r + 1, cx + 32, cap);
      }
    }
  }

  /** The next quote, backslash or structural byte. A backslash in a string takes the byte behind it out of the mask, or
      out of the next block. */
  method SlowBit(data: bytes, chunks: array<Chunk>, cx: nat, ghost merged: Mask, mask0: Mask, ghost carry0: bool,
                 ghost p0: nat, inString0: bool, depth0: int, start0: nat, count0: nat, ghost s0: State)
    returns (mask: Mask, ghost p: nat, carry: bool, inString: bool, depth: int, start: nat, count: nat, done: bool,
      ghost s: State)
    requires p0 <= 32 && cx + 32 <= |data| && (carry0 ==> p0 >= 1) && Merges(merged, data, cx, carry0)
    requires Holds(s0, false, inString0, depth0, start0, chunks, count0)
    requires Remains(mask0, merged, p0) && !IsZero(mask0)
    modifies chunks
    ensures p0 < p <= 32 && (carry ==> p == 32) && Remains(mask, merged, p)
    ensures Matches(s, chunks, count, depth) && done == s.halted
    ensures !done ==> Holds(s, carry, inString, depth, start, chunks, count)
    ensures Run(s0, data, cx + p0, cx + 32, chunks.Length) ==
      if done then s else Run(s, data, cx + p, cx + 32, chunks.Length)
  {
    carry, inString, depth, start, count, done := false, inString0, depth0, start0, count0, false;
    ghost var cap := chunks.Length;
    var r := Lowest(mask0);
    var c := data[cx + r];
    SlowAdvance(s0, data, cx, merged, mask0, carry0, p0, r, cap);
    RemainsBehind(mask0, merged, p0, r);
    mask, p, s := mask0[r := false], r + 1, Step(s0, cx + r, c, cap);
    if inString {
      if c == QUOTE {
        inString := false;
      } else if c == BACKSLASH {
        if r == 31 {
          carry := true;
        } else {
          mask, p, s := mask[r + 1 := false], r + 2, s0;
        }
      }
    } else if c == QUOTE {
      inString := true;
    } else if c != BACKSLASH {
      depth, start, count, done, s := Structural(chunks, c, cx + r, depth, start, count, s0);
    }
  }

  /** A block with backslashes: the byte-wise state machine runs over the merged bits only, and the bit after a
      backslash is dropped, or carried into the next block. */
  method SlowBlock(data: bytes, chunks: array<Chunk>, cx: nat, merged: Mask, ghost carry0: bool, inString0: bool,
                   depth0: int, start0: nat, count0: nat, ghost s0: State)
    returns (carry: bool, inString: bool, depth: int, start: nat, count: nat, done: bool, ghost end: State)
    requires cx + 32 <= |data| && Holds(s0, carry0, inString0, depth0, start0, chunks, count0)
    requires Merges(merged, data, cx, carry0)
    modifies chunks
    ensures end == Run(s0, data, cx, cx + 32, chunks.Length)
    ensures Matches(end, chunks, count, depth) && done == end.halted
    ensures !done ==> Holds(end, carry, inString, depth, start, chunks, count)
  {
    carry, inString, depth, start, count, done := false, inString0, depth0, start0, count0, false;
    ghost var cap := chunks.Length;
    var mask := merged;
    ghost var p := if carry0 then 1 else 0;
    ghost var s := s0.(escaped := false);
    end := Run(s0, data, cx, cx + 32, cap);
    while !IsZero(mask)
      invariant p <= 32 && (carry0 ==> p >= 1) && (carry ==> p == 32)
      invariant Holds(s, carry, inString, depth, start, chunks, count)
      invariant end == Run(s, data, cx + p, cx + 32, cap)
      invariant Remains(mask, merged, p)
      decreases 32 - p
    {
      mask, p, carry, inString, depth, start, count, done, s :=
        SlowBit(data, chunks, cx, merged, mask, carry0, p, inString, depth, start, count, s);
      if done {
        return;
      }
    }
    if p < 32 {
      SlowAdvance(s, data, cx, merged, mask, carry0, p, 32, cap);
    }
  }

  lemma {:induction false} ClearUpTo(merged: Mask, mask: Mask, p: nat, r: nat)
    requires p <= r <= 32
    requires Remains(mask, merged, p)
    requires forall k | 0 <= k < r :: !mask[k]
    ensures forall k | p <= k < r :: !merged[k]
  {
    forall k | p <= k < r ensures !merged[k] {
      assert !mask[k];
    }
  }

  /** The block's three masks; the bit of a byte that the previous block escaped is cleared from all of them. */
  method Masks(data: bytes, cx: nat, carry: bool) returns (structs: Mask, quotes: Mask, slashes: Mask)
    requires cx + 32 <= |data|
    ensures Describes(structs, quotes, slashes, data, cx, carry)
  {
    var v := Load(data, cx);
    structs, quotes, slashes := StructMask(v), EqualMask(v, QUOTE), EqualMask(v, BACKSLASH);
    assert forall k | 0 <= k < 32 :: v[k] == data[cx + k];
    if carry {
      structs, quotes, slashes := structs[0 := false], quotes[0 := false], slashes[0 := false];
    }
  }

  function MergedMask(structs: Mask, quotes: Mask, slashes: Mask): Mask {
    Or(Or(structs, quotes), slashes)
  }

  lemma {:induction false} MergedMaskMerges(structs: Mask, quotes: Mask, slashes: Mask, data: bytes, cx: nat,
                                            carry: bool)
    requires cx + 32 <= |data| && Describes(structs, quotes, slashes, data, cx, carry)
    ensures Merges(MergedMask(structs, quotes, slashes), data, cx, carry)
  {
  }

  method Block(data: bytes, chunks: array<Chunk>, cx: nat, carry0: bool, inString0: bool, depth0: int, start0: nat,
               count0: nat, ghost s0: State)
    returns (carry: bool, inString: bool, depth: int, start: nat, count: nat, done: bool, ghost end: State)
    requires cx + 32 <= |data| && Holds(s0, carry0, inString0, depth0, start0, chunks, count0)
    modifies chunks
    ensures end == Run(s0, data, cx, cx + 32, chunks.Length)
    ensures Matches(end, chunks, count, depth) && done == end.halted
    ensures !done ==> Holds(end, carry, inString, depth, start, chunks, count)
  {
    var structs, quotes, slashes := Masks(data, cx, carry0);
    if IsZero(slashes) {
      carry := false;
      inString, depth, start, count, done, end :=
        FastBlock(data, chunks, cx, structs, quotes, slashes, carry0, inString0, depth0, start0, count0, s0);
    } else {
      MergedMaskMerges(structs, quotes, slashes, data, cx, carry0);
      carry, inString, depth, start, count, done, end :=
        SlowBlock(data, chunks, cx, MergedMask(structs, quotes, slashes), carry0, inString0, depth0, start0, count0,
          s0);
    }
  }

  /** The whole routine. The escape carry passes from block to block and into the tail loop; a nil chunk buffer returns
      at once. */
  method FindArrayElementsAVX2(data: bytes, chunks: array?<Chunk>) returns (count: nat, depth: int)
    modifies chunks
    ensures chunks == null ==> count == 0 && depth == 0
    ensures chunks != null ==> Matches(Split(data, chunks.Length), chunks, count, depth)
  {
    var i: nat := SkipSpaceLoop(data, 0);
    if chunks == null {
      return 0, 0;
    }
    var carry, inString, start: nat, done := false, false, i, false;
    count, depth := 0, 0;
    ghost var cap, n, s := chunks.Length, |data|, Initial(i);
    while |data| - i >= 32
      invariant i <= n && Holds(s, carry, inString, depth, start, chunks, count)
      invariant Split(data, cap) == Run(s, data, i, n, cap)
    {
      RunSplit(s, data, i, i + 32, n, cap);
      carry, inString, depth, start, count, done, s :=
        Block(data, chunks, i, carry, inString, depth, start, count, s);
      if done {
        RunHalted(s, data, i + 32, n, cap);
        return;
      }
      i := i + 32;
    }
    assert s == State(carry, inString, depth, start, chunks[..count], false);
    count, depth := TailLoop(data, chunks, i, carry, inString, depth, start, count);
  }

  /** The routine's own tail loop run over the whole input, from the first non-blank byte. */
  method FindArrayElementsBytewise(data: bytes, chunks: array<Chunk>) returns (count: nat, depth: int)
    modifies chunks
    ensures Matches(Split(data, chunks.Length), chunks, count, depth)
  {
    var i := SkipSpaceLoop(data, 0);
    assert chunks[..0] == [];
    count, depth := TailLoop(data, chunks, i, false, false, 0, i, 0);
  }
}
