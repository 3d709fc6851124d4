/** One scan window over the inside of an array: the shape of what the splitter returns, the phantom chunks callers
    drop, and the gap and tail checks they add. */
module Windows {
  import opened Bytes
  import opened Splitter

  // ----- the two checks -----

  /** The bracket at `j` has only whitespace before it, from `pos` on, and behind it. */
  ghost predicate ClosesAt(inner: bytes, pos: nat, j: nat) {
    pos <= j < |inner| && inner[j] == RBRACKET && AllSpace(inner[pos..j]) && AllSpace(inner[j + 1..])
  }

  /** From `pos` on there is only whitespace around one closing bracket. */
  ghost predicate Closes(inner: bytes, pos: nat) {
    exists j: nat :: ClosesAt(inner, pos, j)
  }

  /** The comma at `j` has only whitespace around it. */
  ghost predicate CommaAt(gap: bytes, j: nat) {
    j < |gap| && gap[j] == COMMA && AllSpace(gap[..j]) && AllSpace(gap[j + 1..])
  }

  /** The bytes between two elements: whitespace, with exactly one comma in it where one is expected. */
  ghost predicate Separates(gap: bytes, comma: bool) {
    if comma then exists j: nat :: CommaAt(gap, j) else AllSpace(gap)
  }

  method ArrayTailClosed(inner: bytes, pos: nat) returns (closed: bool)
    requires pos <= |inner|
    ensures closed <==> Closes(inner, pos)
  {
    SkipSpaceBlank(inner, pos);
    var i := SkipSpaceLoop(inner, pos);
    ghost var first := i;
    forall j: nat | ClosesAt(inner, pos, j) ensures j == first {
      SkipSpaceStops(inner, pos, j);
    }
    if i >= |inner| || inner[i] != RBRACKET {
      return false;
    }
    SkipSpaceBlank(inner, i + 1);
    i := SkipSpaceLoop(inner, i + 1);
    if i == |inner| {
      assert inner[first + 1..i] == inner[first + 1..];
      assert ClosesAt(inner, pos, first);
    } else {
      assert inner[i] == inner[first + 1..][i - first - 1];
    }
    return i == |inner|;
  }

  method EmptyArrayRemnant(inner: bytes) returns (empty: bool)
    ensures empty <==> Closes(inner, 0)
  {
    empty := ArrayTailClosed(inner, 0);
  }

  method ValidArrayGap(gap: bytes, expectComma: bool) returns (valid: bool)
    ensures valid <==> Separates(gap, expectComma)
  {
    SkipSpaceBlank(gap, 0);
    var i := SkipSpaceLoop(gap, 0);
    ghost var first := i;
    assert i == |gap| ==> gap[0..i] == gap;
    assert i < |gap| ==> !IsSpace(gap[i]);
    if expectComma {
      forall j: nat | CommaAt(gap, j) ensures j == first {
        assert gap[0..j] == gap[..j];
        SkipSpaceStops(gap, 0, j);
      }
      if i >= |gap| || gap[i] != COMMA {
        return false;
      }
      SkipSpaceBlank(gap, i + 1);
      i := SkipSpaceLoop(gap, i + 1);
      assert gap[..first] == gap[0..first];
      if i == |gap| {
        assert gap[first + 1..i] == gap[first + 1..];
        assert CommaAt(gap, first);
      } else {
        assert gap[i] == gap[first + 1..][i - first - 1];
      }
    }
    return i == |gap|;
  }

  // ----- what the splitter returns -----

  ghost predicate Ends(c: byte) {
    c == COMMA || c == RBRACKET
  }

  /** Chunk `k` of a scan that began at `first`: it ends at a comma or bracket, and it begins where the byte after the
      previous chunk's end is. */
  ghost predicate Tiles(data: bytes, first: nat, cs: seq<Chunk>, k: nat)
    requires k < |cs|
  {
    && cs[k].start <= cs[k].end < |data| && Ends(data[cs[k].end])
    && cs[k].start == (if k == 0 then first else cs[k - 1].end + 1)
    && (k < |cs| - 1 ==> data[cs[k].end] == COMMA)
  }

  ghost predicate Tiled(data: bytes, first: nat, cs: seq<Chunk>) {
    forall k | 0 <= k < |cs| :: Tiles(data, first, cs, k)
  }

  /** Where the next chunk will begin. */
  function NextStart(first: nat, cs: seq<Chunk>): nat {
    if cs == [] then first else cs[|cs| - 1].end + 1
  }

  ghost predicate Tidy(s: State, data: bytes, first: nat, i: nat) {
    && Tiled(data, first, s.chunks)
    && (!s.halted ==>
        && s.start == NextStart(first, s.chunks) <= i
        && (s.chunks != [] ==> Is(data, EndOf(s.chunks), COMMA)))
  }

  lemma {:induction false} EmitTidy(s: State, data: bytes, first: nat, i: nat, cap: nat, last: bool)
    requires i < |data| && Tidy(s, data, first, i) && !s.halted && data[i] == if last then RBRACKET else COMMA
    ensures Tidy(Emit(s, i, cap, last), data, first, i + 1)
  {
    if |s.chunks| < cap {
      var n, cs := |s.chunks|, s.chunks + [Chunk(s.start, i)];
      forall k | 0 <= k < |cs| ensures Tiles(data, first, cs, k) {
        if k < n {
          assert Tiles(data, first, s.chunks, k);
        }
      }
    }
  }

  lemma {:induction false} RunTidy(s: State, data: bytes, first: nat, i: nat, j: nat, cap: nat)
    requires i <= j <= |data| && Tidy(s, data, first, i)
    ensures Tidy(Run(s, data, i, j, cap), data, first, j)
    decreases j - i
  {
    if i < j {
      if !s.halted && !s.escaped && !s.inString && (data[i] == COMMA || data[i] == RBRACKET) && s.depth == 0 {
        EmitTidy(s, data, first, i, cap, data[i] == RBRACKET);
      }
      RunTidy(Step(s, i, data[i], cap), data, first, i + 1, j, cap);
    }
  }

  /** The splitter's chunks tile the window from its first solid byte to the last separator. */
  lemma {:induction false} SplitTiled(data: bytes, cap: nat)
    ensures Tiled(data, SkipSpace(data, 0), Split(data, cap).chunks)
    ensures |Split(data, cap).chunks| <= cap
  {
    var first := SkipSpace(data, 0);
    RunTidy(Initial(first), data, first, first, |data|, cap);
    RunBounded(Initial(first), data, first, |data|, cap);
  }

  lemma {:induction false} RunBounded(s: State, data: bytes, i: nat, j: nat, cap: nat)
    requires i <= j <= |data| && |s.chunks| <= cap
    ensures |s.chunks| <= |Run(s, data, i, j, cap).chunks| <= cap
    decreases j - i
  {
    if i < j {
      RunBounded(Step(s, i, data[i], cap), data, i + 1, j, cap);
    }
  }

  /** A window that begins at a separator returns it as an empty chunk. */
  lemma {:induction false} SplitAtSeparator(data: bytes, cap: nat)
    requires data != [] && Ends(data[0]) && cap > 0
    ensures var cs := Split(data, cap).chunks; cs != [] && cs[0] == Chunk(0, 0)
  {
    var s := Initial(0);
    assert SkipSpace(data, 0) == 0;
    var t := Step(s, 0, data[0], cap);
    assert t.chunks == [Chunk(0, 0)];
    RunKeeps(t, data, 1, |data|, cap);
  }

  lemma {:induction false} RunKeeps(s: State, data: bytes, i: nat, j: nat, cap: nat)
    requires i <= j <= |data| && s.chunks != []
    ensures var cs := Run(s, data, i, j, cap).chunks; cs != [] && cs[0] == s.chunks[0]
    decreases j - i
  {
    if i < j {
      RunKeeps(Step(s, i, data[i], cap), data, i + 1, j, cap);
    }
  }

  // ----- the chunks that callers keep -----

  /** The chunks among the first `n` that are not empty. */
  function SolidTo(cs: seq<Chunk>, n: nat): (kept: seq<Chunk>)
    requires n <= |cs|
    ensures |kept| <= n
  {
    if n == 0 then []
    else if cs[n - 1].start == cs[n - 1].end then SolidTo(cs, n - 1)
    else SolidTo(cs, n - 1) + [cs[n - 1]]
  }

  function Solid(cs: seq<Chunk>): seq<Chunk> {
    SolidTo(cs, |cs|)
  }

  lemma {:induction false} SolidPrefix(cs: seq<Chunk>, n: nat, m: nat)
    requires n <= m <= |cs|
    ensures SolidTo(cs, n) <= SolidTo(cs, m)
    decreases m
  {
    if n < m {
      SolidPrefix(cs, n, m - 1);
    }
  }

  /** The last chunk's end; where the next window begins. */
  function EndOf(cs: seq<Chunk>): nat {
    if cs == [] then 0 else cs[|cs| - 1].end
  }

  /** Kept chunk `k` lies inside the window after the kept chunk before it. */
  ghost predicate Ascends(kept: seq<Chunk>, k: nat, limit: nat)
    requires k < |kept|
  {
    (if k == 0 then 0 else kept[k - 1].end) <= kept[k].start < kept[k].end <= limit
  }

  ghost predicate Ascending(kept: seq<Chunk>, limit: nat) {
    forall k | 0 <= k < |kept| :: Ascends(kept, k, limit)
  }

  function EndTo(cs: seq<Chunk>, n: nat): nat
    requires n <= |cs|
  {
    if n == 0 then 0 else cs[n - 1].end
  }

  /** After the last kept chunk come only the commas of dropped chunks, up to the end of the scan. */
  lemma {:induction false} SolidTiled(data: bytes, first: nat, cs: seq<Chunk>, n: nat)
    requires n <= |cs| && Tiled(data, first, cs)
    ensures Ascending(SolidTo(cs, n), EndTo(cs, n)) && EndOf(SolidTo(cs, n)) <= EndTo(cs, n)
    ensures SolidTo(cs, n) != [] ==> forall k | EndOf(SolidTo(cs, n)) <= k < EndTo(cs, n) :: Is(data, k, COMMA)
  {
    if n > 0 {
      SolidTiled(data, first, cs, n - 1);
      assert Tiles(data, first, cs, n - 1);
      assert n > 1 ==> Tiles(data, first, cs, n - 2);
      AscendingOneMore(SolidTo(cs, n - 1), cs[n - 1], EndTo(cs, n - 1));
    }
  }

  lemma {:induction false} AscendingOneMore(kept: seq<Chunk>, c: Chunk, limit: nat)
    requires Ascending(kept, limit) && EndOf(kept) <= limit <= c.start <= c.end
    ensures Ascending(kept, c.end) && (c.start < c.end ==> Ascending(kept + [c], c.end))
  {
    var all := kept + [c];
    forall k | 0 <= k < |kept| ensures Ascends(kept, k, c.end) && Ascends(all, k, c.end) {
      assert Ascends(kept, k, limit);
    }
  }

  // ----- the two checks in plain words -----

  /** All bytes from `i` up to `j` are whitespace, except that the one at `k` is `c`. */
  predicate OnlyByte(inner: bytes, i: nat, j: nat, k: nat, c: byte) {
    i <= k < j <= |inner| && inner[k] == c && forall m | i <= m < j && m != k :: IsSpace(inner[m])
  }

  /** A gap passes the check exactly if it is one comma and whitespace, or whitespace where no comma is expected. */
  lemma {:induction false} SeparatesIff(inner: bytes, i: nat, j: nat)
    requires i <= j <= |inner|
    ensures Separates(inner[i..j], true) <==> exists k: nat :: OnlyByte(inner, i, j, k, COMMA)
    ensures Separates(inner[i..j], false) <==> forall k | i <= k < j :: IsSpace(inner[k])
  {
    var gap := inner[i..j];
    assert forall k | i <= k < j :: inner[k] == gap[k - i];
    forall k: nat ensures CommaAt(gap, k) <==> OnlyByte(inner, i, j, i + k, COMMA) {
      if k < |gap| {
        AroundByte(inner, i, j, i + k);
      }
    }
    forall k: nat | OnlyByte(inner, i, j, k, COMMA) ensures CommaAt(gap, k - i) {
      AroundByte(inner, i, j, k);
    }
  }

  /** The tail passes the check exactly if it is one closing bracket and whitespace. */
  lemma {:induction false} ClosesIff(inner: bytes, i: nat)
    requires i <= |inner|
    ensures Closes(inner, i) <==> exists k: nat :: OnlyByte(inner, i, |inner|, k, RBRACKET)
  {
    forall k: nat ensures ClosesAt(inner, i, k) <==> OnlyByte(inner, i, |inner|, k, RBRACKET) {
      if i <= k < |inner| {
        AroundByte(inner, i, |inner|, k);
        assert inner[k + 1..|inner|] == inner[k + 1..];
      }
    }
  }

  lemma {:induction false} AroundByte(inner: bytes, i: nat, j: nat, k: nat)
    requires i <= k < j <= |inner|
    ensures AllSpace(inner[i..j][..k - i]) && AllSpace(inner[i..j][k - i + 1..]) <==>
      forall m | i <= m < j && m != k :: IsSpace(inner[m])
    ensures inner[i..j][..k - i] == inner[i..k] && inner[i..j][k - i + 1..] == inner[k + 1..j]
  {
    var a, b := inner[i..k], inner[k + 1..j];
    assert inner[i..j][..k - i] == a && inner[i..j][k - i + 1..] == b;
    assert forall m | i <= m < k :: inner[m] == a[m - i];
    assert forall m | k < m < j :: inner[m] == b[m - (k + 1)];
  }
}
