/** On a well-formed array, counting depth without looking at bracket kinds cuts exactly the elements that the strict
    grammar recognises. */
module ArrayElements {
  import opened Bytes
  import opened Simd
  import opened StringDecoder
  import opened Grammar
  import opened StrictSkip
  import opened StrictGrammar
  import opened Splitter

  // ----- values are invisible to the splitter -----

  /** Outside strings, bytes that are neither structural nor quotes change nothing. */
  lemma {:induction false} RunQuiet(s: State, raw: bytes, i: nat, j: nat, cap: nat)
    requires i <= j <= |raw| && !s.escaped && !s.inString
    requires forall k | i <= k < j :: !IsStructural(raw[k]) && raw[k] != QUOTE
    ensures Run(s, raw, i, j, cap) == s
    decreases j - i
  {
    if i < j {
      RunQuiet(s, raw, i + 1, j, cap);
    }
  }

  lemma {:induction false} RunText(s: State, raw: bytes, i: nat, t: bytes, cap: nat)
    requires At(raw, i, t) && !s.escaped && !s.inString
    requires forall k | 0 <= k < |t| :: !IsStructural(t[k]) && t[k] != QUOTE
    ensures Run(s, raw, i, i + |t|, cap) == s
  {
    forall k | i <= k < i + |t| ensures !IsStructural(raw[k]) && raw[k] != QUOTE {
      assert raw[i + (k - i)] == t[k - i];
    }
    RunQuiet(s, raw, i, i + |t|, cap);
  }

  /** Inside a string, ordinary bytes change nothing. */
  lemma {:induction false} RunInside(s: State, raw: bytes, i: nat, j: nat, cap: nat)
    requires i <= j <= |raw| && !s.halted && s.inString && !s.escaped
    requires forall k | i <= k < j :: !IsSpecial(raw[k])
    ensures Run(s, raw, i, j, cap) == s
    decreases j - i
  {
    if i < j {
      RunInside(s, raw, i + 1, j, cap);
    }
  }

  /** An escape passes through the escape flag and out of it. */
  lemma {:induction false} RunEscape(s: State, raw: bytes, i: nat, n: nat, cap: nat)
    requires 2 <= n && i + n <= |raw| && !s.halted && s.inString && !s.escaped && raw[i] == BACKSLASH
    requires forall k | i + 2 <= k < i + n :: !IsSpecial(raw[k])
    ensures Run(s, raw, i, i + n, cap) == s
  {
    var t := Step(s, i, raw[i], cap);
    assert Step(t, i + 1, raw[i + 1], cap) == s;
    assert Run(s, raw, i, i + n, cap) == Run(t, raw, i + 1, i + n, cap) == Run(s, raw, i + 2, i + n, cap);
    RunInside(s, raw, i + 2, i + n, cap);
  }

  /** A whole string body leaves the splitter inside the string. */
  lemma {:induction false} RunBody(s: State, raw: bytes, i: nat, e: nat, cap: nat)
    requires i <= e <= |raw| && IsBody(raw[i..e]) && !s.halted && s.inString && !s.escaped
    ensures Run(s, raw, i, e, cap) == s
    decreases e - i
  {
    if i < e {
      var b := raw[i..e];
      assert b[0] == raw[i];
      var n := if b[0] != BACKSLASH then 1 else if b[1] == LOWER_U then 6 else 2;
      if n == 6 {
        SliceHex(raw, i, e, 2);
      }
      assert b[n..] == raw[i + n..e];
      RunBody(s, raw, i + n, e, cap);
      RunSplit(s, raw, i, i + n, e, cap);
      if n == 1 {
        RunInside(s, raw, i, i + 1, cap);
      } else {
        RunEscape(s, raw, i, n, cap);
      }
    }
  }

  lemma {:induction false} RunString(s: State, raw: bytes, i: nat, body: bytes, cap: nat)
    requires StringAt(raw, i, body) && IsBody(body) && !s.halted && !s.inString && !s.escaped
    ensures Run(s, raw, i, i + 2 + |body|, cap) == s
  {
    var e := i + 1 + |body|;
    var t := s.(inString := true);
    AtSlice(raw, i + 1, body);
    RunBody(t, raw, i + 1, e, cap);
    assert Step(s, i, raw[i], cap) == t;
    RunSplit(t, raw, i + 1, e, e + 1, cap);
    assert Run(t, raw, e, e + 1, cap) == Step(t, e, raw[e], cap);
  }

  ghost predicate Ready(s: State) {
    !s.halted && !s.inString && !s.escaped && s.depth >= 0
  }

  lemma {:induction false} RunName(s: State, raw: bytes, i: nat, kind: Kind, n: Name, cap: nat)
    requires IsName(kind, n) && NameAt(raw, i, n) && Ready(s)
    ensures Run(s, raw, i, i + NameLen(n), cap) == s
  {
    if n.Name? {
      var k := i + (|n.key| + 2);
      var j := k + |n.beforeColon|;
      RunString(s, raw, i, n.key, cap);
      RunText(s, raw, k, n.beforeColon, cap);
      RunText(s, raw, j + 1, n.afterColon, cap);
      RunSplit(s, raw, i, k, j + 1 + |n.afterColon|, cap);
      RunSplit(s, raw, k, j, j + 1 + |n.afterColon|, cap);
    }
  }

  /** Running over a complete value changes nothing, at any depth. */
  lemma {:induction false} RunValue(s: State, raw: bytes, i: nat, v: Value, cap: nat)
    requires IsValue(v) && ValueAt(raw, i, v) && Ready(s)
    ensures i + ValueLen(v) <= |raw| && Run(s, raw, i, i + ValueLen(v), cap) == s
    decreases v
  {
    match v
    case Str(body) => RunString(s, raw, i, body, cap);
    case Num(token) =>
      NumberToken(token);
      assert forall k | 0 <= k < |token| :: IsNumberByte(token[k]);
      RunText(s, raw, i, token, cap);
    case Lit(token) => RunText(s, raw, i, token, cap);
    case Comp(kind, ws, items) => RunComposite(s, raw, i, kind, ws, items, cap);
  }

  lemma {:induction false} RunComposite(s: State, raw: bytes, i: nat, kind: Kind, ws: bytes, items: Items, cap: nat)
    requires AllSpace(ws) && IsItems(kind, items) && ValueAt(raw, i, Comp(kind, ws, items)) && Ready(s)
    ensures var e := i + 1 + |ws| + ItemsLen(items) + 1; e <= |raw| && Run(s, raw, i, e, cap) == s
    decreases items, 3
  {
    var j := i + 1 + |ws|;
    var k := j + ItemsLen(items);
    var t := s.(depth := s.depth + 1);
    assert Step(s, i, raw[i], cap) == t;
    RunText(t, raw, i + 1, ws, cap);
    RunNested(t, raw, j, kind, items, cap);
    RunSplit(t, raw, i + 1, j, k + 1, cap);
    RunSplit(t, raw, j, k, k + 1, cap);
    assert Step(t, k, raw[k], cap) == s;
    assert Run(t, raw, k, k + 1, cap) == s;
  }

  /** Below depth 0 the separators change nothing either. */
  lemma {:induction false} RunNested(s: State, raw: bytes, i: nat, kind: Kind, it: Items, cap: nat)
    requires IsItems(kind, it) && ItemsAt(raw, i, it) && Ready(s) && s.depth > 0
    ensures i + ItemsLen(it) <= |raw| && Run(s, raw, i, i + ItemsLen(it), cap) == s
    decreases it, 2
  {
    if it.More? {
      ItemsAtParts(raw, i, it);
      var j, e := i + EntryLen(it.first), i + ItemsLen(it);
      RunEntry(s, raw, i, kind, it.first, cap);
      if it.rest.More? {
        var k := j + 1 + |it.before|;
        RunText(s, raw, j + 1, it.before, cap);
        RunNested(s, raw, k, kind, it.rest, cap);
        RunSplit(s, raw, i, j, e, cap);
        RunSplit(s, raw, j + 1, k, e, cap);
        assert Step(s, j, raw[j], cap) == s;
      }
    }
  }

  lemma {:induction false} RunEntry(s: State, raw: bytes, i: nat, kind: Kind, e: Entry, cap: nat)
    requires IsName(kind, e.name) && IsValue(e.value) && AllSpace(e.after) && EntryAt(raw, i, e) && Ready(s)
    ensures i + EntryLen(e) <= |raw| && Run(s, raw, i, i + EntryLen(e), cap) == s
    decreases e, 1
  {
    var v := i + NameLen(e.name);
    var k := v + ValueLen(e.value);
    var j := k + |e.after|;
    RunName(s, raw, i, kind, e.name, cap);
    RunValue(s, raw, v, e.value, cap);
    RunText(s, raw, k, e.after, cap);
    RunSplit(s, raw, i, v, j, cap);
    RunSplit(s, raw, v, k, j, cap);
  }

  // ----- the elements of an array -----

  function Count(it: Items): nat {
    if it.End? then 0 else 1 + Count(it.rest)
  }

  /** The chunks of the elements at `i`: each ends at its separator, and the next one starts right after it. */
  function Elements(it: Items, i: nat, start: nat): (c: seq<Chunk>)
    ensures |c| == Count(it)
  {
    if it.End? then []
    else
      var j := i + EntryLen(it.first);
      [Chunk(start, j)] + Elements(it.rest, j + 1 + |it.before|, j + 1)
  }

  /** The last element. */
  function LastEntry(it: Items): Entry
    requires it.More?
  {
    if it.rest.End? then it.first else LastEntry(it.rest)
  }

  function Min(a: nat, b: nat): nat {
    if a <= b then a else b
  }

  /** What the splitter stores: as many elements as there is room for. */
  function Stored(before: seq<Chunk>, elements: seq<Chunk>, cap: nat): seq<Chunk>
    requires |before| <= cap
  {
    before + elements[..Min(cap - |before|, |elements|)]
  }

  /** A run over the elements and their closing bracket stores them in order and returns with depth 0. */
  lemma {:induction false} RunElements(s: State, raw: bytes, i: nat, it: Items, cap: nat, e: nat)
    requires it.More? && IsItems(Array, it) && ItemsAt(raw, i, it) && Is(raw, i + ItemsLen(it), RBRACKET)
    requires Ready(s) && s.depth == 0 && |s.chunks| <= cap
    requires i + ItemsLen(it) < e <= |raw|
    ensures var t := Run(s, raw, i, e, cap);
      t.halted && t.depth == 0 && t.chunks == Stored(s.chunks, Elements(it, i, s.start), cap)
    decreases it
  {
    ItemsAtParts(raw, i, it);
    var j := i + EntryLen(it.first);
    RunEntry(s, raw, i, Array, it.first, cap);
    RunSplit(s, raw, i, j, e, cap);
    var t := Step(s, j, raw[j], cap);
    assert Run(s, raw, i, e, cap) == Run(t, raw, j + 1, e, cap);
    var all := Elements(it, i, s.start);
    if t.halted {
      RunHalted(t, raw, j + 1, e, cap);
      assert all[..0] == [] && (|all| >= 1 ==> all[..1] == [all[0]]);
    } else {
      var k := j + 1 + |it.before|;
      RunText(t, raw, j + 1, it.before, cap);
      RunSplit(t, raw, j + 1, k, e, cap);
      RunElements(t, raw, k, it.rest, cap, e);
      var rest := Elements(it.rest, k, j + 1);
      StoredOneMore(s.chunks, all[0], rest, cap);
    }
  }

  lemma {:induction false} StoredOneMore(before: seq<Chunk>, c: Chunk, rest: seq<Chunk>, cap: nat)
    requires |before| < cap
    ensures Stored(before + [c], rest, cap) == Stored(before, [c] + rest, cap)
  {
    var n := Min(cap - |before| - 1, |rest|);
    assert ([c] + rest)[..n + 1] == [c] + rest[..n];
  }

  /** The inside of an array: optional whitespace, elements, the closing bracket, then anything. */
  ghost predicate ArrayBody(data: bytes, p: nat, it: Items) {
    && p <= |data| && AllSpace(data[..p])
    && IsItems(Array, it) && ItemsAt(data, p, it) && Is(data, p + ItemsLen(it), RBRACKET)
  }

  /** On every well-formed array body the splitter stores exactly the elements, in order. */
  lemma {:induction false} SplitArray(data: bytes, p: nat, it: Items, cap: nat)
    requires ArrayBody(data, p, it) && it.More?
    ensures var s := Split(data, cap);
      s.depth == 0 && s.chunks == Elements(it, p, p)[..Min(cap, Count(it))]
  {
    RestStarts(data, p, Array, it);
    assert data[0..p] == data[..p];
    SkipSpaceStops(data, 0, p);
    RunElements(Initial(p), data, p, it, cap, |data|);
    assert Stored([], Elements(it, p, p), cap) == Elements(it, p, p)[..Min(cap, Count(it))];
  }

  /** An empty array gives one empty chunk at its bracket, which every caller discards. */
  lemma {:induction false} SplitEmptyArray(data: bytes, p: nat, cap: nat)
    requires ArrayBody(data, p, End)
    ensures var s := Split(data, cap);
      s.depth == 0 && s.chunks == if cap == 0 then [] else [Chunk(p, p)]
  {
    assert data[0..p] == data[..p];
    SkipSpaceStops(data, 0, p);
    var t := Step(Initial(p), p, data[p], cap);
    RunHalted(t, data, p + 1, |data|, cap);
  }

  /** A window that resumes at a separating comma: the comma itself takes one chunk slot, and the remaining slots hold
      the next elements. */
  lemma {:induction false} SplitResumed(data: bytes, it: Items, before: bytes, cap: nat)
    requires it.More? && IsItems(Array, it) && AllSpace(before) && RestAt(data, 0, before, it)
    requires Is(data, 1 + |before| + ItemsLen(it), RBRACKET)
    ensures var s := Split(data, cap);
      s.depth == 0 && s.chunks == Stored([], [Chunk(0, 0)] + Elements(it, 1 + |before|, 1), cap)
  {
    var k, e := 1 + |before|, |data|;
    assert SkipSpace(data, 0) == 0;
    var s := Initial(0);
    var t := Step(s, 0, data[0], cap);
    assert Split(data, cap) == Run(t, data, 1, e, cap);
    var rest := Elements(it, k, 1);
    if t.halted {
      RunHalted(t, data, 1, e, cap);
      assert ([Chunk(0, 0)] + rest)[..Min(cap, |rest| + 1)] == if cap == 0 then [] else [Chunk(0, 0)];
    } else {
      RunText(t, data, 1, before, cap);
      RunSplit(t, data, 1, k, e, cap);
      RunElements(t, data, k, it, cap, e);
      StoredOneMore([], Chunk(0, 0), rest, cap);
      assert [] + [Chunk(0, 0)] == [Chunk(0, 0)];
    }
  }

  // ----- each chunk holds exactly one value -----

  /** The chunk holds one value that the strict skipper accepts, and whitespace around it. */
  ghost predicate HoldsOneValue(raw: bytes, c: Chunk) {
    && c.start < c.end <= |raw|
    && var p := SkipSpace(raw, c.start);
       p < c.end && SkipValue(raw, p).Ok? && Blank(raw, SkipValue(raw, p).end, c.end)
  }

  ghost predicate AllHoldOneValue(raw: bytes, cs: seq<Chunk>) {
    forall n | 0 <= n < |cs| :: HoldsOneValue(raw, cs[n])
  }

  lemma {:induction false} RestIsSpaced(raw: bytes, i: nat, it: Items, j: nat)
    requires it.More? && it.rest.More? && IsItems(Array, it) && ItemsAt(raw, i, it) && j == i + EntryLen(it.first)
    ensures var k := j + 1 + |it.before|;
      Blank(raw, j + 1, k) && ItemsAt(raw, k, it.rest) && i + ItemsLen(it) == k + ItemsLen(it.rest)
  {
    ItemsAtParts(raw, i, it);
    AtSlice(raw, j + 1, it.before);
    BlankSlice(raw, j + 1, j + 1 + |it.before|);
  }

  lemma {:induction false} ElementHoldsValue(raw: bytes, i: nat, it: Items, start: nat, n: nat)
    requires IsItems(Array, it) && ItemsAt(raw, i, it) && Is(raw, i + ItemsLen(it), RBRACKET)
    requires Blank(raw, start, i) && n < Count(it)
    ensures HoldsOneValue(raw, Elements(it, i, start)[n]) == true
    decreases n
  {
    var j := i + EntryLen(it.first);
    if n == 0 {
      FirstHoldsValue(raw, i, it, start, j);
    } else {
      RestIsSpaced(raw, i, it, j);
      ElementHoldsValue(raw, j + 1 + |it.before|, it.rest, j + 1, n - 1);
    }
  }

  /** Each chunk of a well-formed array holds exactly one value, with whitespace around it. */
  lemma {:induction false} ElementsHoldValues(raw: bytes, i: nat, it: Items, start: nat)
    requires IsItems(Array, it) && ItemsAt(raw, i, it) && Is(raw, i + ItemsLen(it), RBRACKET)
    requires Blank(raw, start, i)
    ensures AllHoldOneValue(raw, Elements(it, i, start))
  {
    forall n | 0 <= n < Count(it) ensures HoldsOneValue(raw, Elements(it, i, start)[n]) {
      ElementHoldsValue(raw, i, it, start, n);
    }
  }

  lemma {:induction false} FirstHoldsValue(raw: bytes, i: nat, it: Items, start: nat, j: nat)
    requires it.More? && IsItems(Array, it) && ItemsAt(raw, i, it) && Is(raw, i + ItemsLen(it), RBRACKET)
    requires Blank(raw, start, i) && j == i + EntryLen(it.first)
    ensures HoldsOneValue(raw, Chunk(start, j)) == true
  {
    var e, k := ItemsReady(raw, i, Array, it);
    EntryHoldsValue(raw, i, it.first, start, j);
  }

  lemma {:induction false} EntryHoldsValue(raw: bytes, i: nat, e: Entry, start: nat, j: nat)
    requires e.name.NoName? && IsValue(e.value) && AllSpace(e.after) && EntryAt(raw, i, e)
    requires j == i + EntryLen(e) < |raw| && (raw[j] == COMMA || raw[j] == RBRACKET)
    requires Blank(raw, start, i)
    ensures HoldsOneValue(raw, Chunk(start, j))
  {
    var k := i + ValueLen(e.value);
    ValueFirstByte(raw, i, e.value);
    BlankSlice(raw, start, i);
    SkipSpaceStops(raw, start, i);
    assert start < j;
    EntryValueSkipped(raw, i, e, k, j);
  }

  lemma {:induction false} EntryValueSkipped(raw: bytes, i: nat, e: Entry, k: nat, j: nat)
    requires e.name.NoName? && IsValue(e.value) && AllSpace(e.after) && EntryAt(raw, i, e) && i < |raw|
    requires k == i + ValueLen(e.value) && j == k + |e.after| < |raw| && (raw[j] == COMMA || raw[j] == RBRACKET)
    ensures SkipValue(raw, i) == Ok(k) && Blank(raw, k, j)
  {
    EntryReady(raw, i, Array, e, i, k, j);
    ValueIsSkipped(raw, i, e.value);
    AtSlice(raw, k, e.after);
    BlankSlice(raw, k, j);
  }
}
