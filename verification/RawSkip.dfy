/** Skipping a value without checking it, and looking up a key on top of that. On valid input the unchecked skipper,
    which counts only one kind of bracket, agrees with the strict one. */
module RawSkip {
  import opened Wrappers
  import opened Bytes
  import opened StringDecoder
  import opened Grammar
  import opened StrictSkip
  import opened StrictGrammar

  // ----- what the code computes -----

  /** The index behind the next closing quote, or the end of the data. */
  function StringEnd(raw: bytes, i: nat): (e: nat)
    ensures e <= |raw| && (i < |raw| ==> i < e)
    decreases |raw| - i
  {
    if i >= |raw| then |raw|
    else if raw[i] == BACKSLASH then StringEnd(raw, i + 2)
    else if raw[i] == QUOTE then i + 1
    else StringEnd(raw, i + 1)
  }

  /** The index behind the bracket that closes `depth` open brackets of one kind, or the end of the data. */
  function CompositeEnd(raw: bytes, i: nat, kind: Kind, depth: nat): (e: nat)
    requires depth > 0
    ensures e <= |raw| && (i < |raw| ==> i < e)
    decreases |raw| - i
  {
    if i >= |raw| then |raw|
    else if raw[i] == QUOTE then
      var e := StringEnd(raw, i + 1);
      if e <= i then |raw| else CompositeEnd(raw, e, kind, depth)
    else if raw[i] == Opening(kind) then CompositeEnd(raw, i + 1, kind, depth + 1)
    else if raw[i] == Closing(kind) then if depth == 1 then i + 1 else CompositeEnd(raw, i + 1, kind, depth - 1)
    else CompositeEnd(raw, i + 1, kind, depth)
  }

  /** The end of the value at `i`, if it is one. */
  function QuickEnd(raw: bytes, i: nat): (e: nat)
    requires i < |raw|
    ensures i <= e <= |raw|
  {
    if raw[i] == QUOTE then StringEnd(raw, i + 1)
    else if raw[i] == LBRACE then CompositeEnd(raw, i + 1, Object, 1)
    else if raw[i] == LBRACKET then CompositeEnd(raw, i + 1, Array, 1)
    else TokenEnd(raw, i)
  }

  // ----- the code -----

  method SkipStringLoop(raw: bytes, i0: nat) returns (e: nat)
    ensures e == StringEnd(raw, i0)
  {
    var i := i0;
    while i < |raw|
      invariant StringEnd(raw, i) == StringEnd(raw, i0)
      decreases |raw| - i
    {
      if raw[i] == BACKSLASH {
        i := i + 2;
      } else if raw[i] == QUOTE {
        return i + 1;
      } else {
        i := i + 1;
      }
    }
    return |raw|;
  }

  method SkipCompositeLoop(raw: bytes, start: nat, kind: Kind) returns (e: nat)
    requires start < |raw|
    ensures e == CompositeEnd(raw, start + 1, kind, 1)
  {
    var depth, i := 1, start + 1;
    while i < |raw|
      invariant depth > 0 && CompositeEnd(raw, i, kind, depth) == CompositeEnd(raw, start + 1, kind, 1)
      decreases |raw| - i
    {
      var c := raw[i];
      if c == QUOTE {
        i := SkipStringLoop(raw, i + 1);
      } else if c == Opening(kind) {
        depth, i := depth + 1, i + 1;
      } else if c == Closing(kind) {
        depth := depth - 1;
        if depth == 0 {
          return i + 1;
        }
        i := i + 1;
      } else {
        i := i + 1;
      }
    }
    return |raw|;
  }

  /** Indices outside the data give its length. Its length itself passes the guard, and reading the byte there stops the
      program: that is `None`. */
  method SkipValueUnchecked(raw: bytes, i: int) returns (end: Option<nat>)
    ensures end == if i == |raw| then None else Some(if 0 <= i < |raw| then QuickEnd(raw, i) else |raw|)
  {
    if i < 0 || i > |raw| {
      return Some(|raw|);
    }
    if i == |raw| {
      return None;
    }
    var e := SkipKind(raw, i);
    return Some(e);
  }

  /** By the kind of the first byte. */
  method SkipKind(raw: bytes, i: nat) returns (e: nat)
    requires i < |raw|
    ensures e == QuickEnd(raw, i)
  {
    if raw[i] == QUOTE {
      e := SkipStringLoop(raw, i + 1);
    } else if raw[i] == LBRACE {
      e := SkipCompositeLoop(raw, i, Object);
    } else if raw[i] == LBRACKET {
      e := SkipCompositeLoop(raw, i, Array);
    } else {
      e := i;
      while e < |raw| && !EndsToken(raw[e])
        invariant i <= e <= |raw| && TokenEnd(raw, e) == TokenEnd(raw, i)
      {
        e := e + 1;
      }
    }
  }

  // ----- agreement on valid values -----

  /** A string body ends where the grammar says. */
  lemma {:induction false} BodyEnds(raw: bytes, i: nat, e: nat)
    requires i <= e < |raw| && raw[e] == QUOTE && IsBody(raw[i..e])
    ensures StringEnd(raw, i) == e + 1
    decreases e - i
  {
    if i < e {
      var b := raw[i..e];
      assert b[0] == raw[i];
      var n := if b[0] != BACKSLASH then 1 else if b[1] == LOWER_U then 6 else 2;
      if n == 6 {
        SliceHex(raw, i, e, 2);
        assert StringEnd(raw, i) == StringEnd(raw, i + 2) == StringEnd(raw, i + 3) == StringEnd(raw, i + 4);
        assert StringEnd(raw, i + 4) == StringEnd(raw, i + 5) == StringEnd(raw, i + 6);
      }
      assert b[n..] == raw[i + n..e];
      BodyEnds(raw, i + n, e);
    }
  }

  lemma {:induction false} StringPasses(raw: bytes, i: nat, body: bytes)
    requires StringAt(raw, i, body) && IsBody(body)
    ensures StringEnd(raw, i + 1) == i + 2 + |body|
  {
    AtSlice(raw, i + 1, body);
    BodyEnds(raw, i + 1, i + 1 + |body|);
  }

  /** Bytes that are neither quotes nor brackets do not change the count. */
  predicate Quiet(c: byte) {
    c != QUOTE && c != LBRACE && c != RBRACE && c != LBRACKET && c != RBRACKET
  }

  lemma {:induction false} QuietPasses(raw: bytes, i: nat, t: bytes, kind: Kind, depth: nat)
    requires depth > 0 && At(raw, i, t) && forall k | 0 <= k < |t| :: Quiet(t[k])
    ensures CompositeEnd(raw, i, kind, depth) == CompositeEnd(raw, i + |t|, kind, depth)
    decreases |t|
  {
    if |t| > 0 {
      assert raw[i + 0] == t[0];
      var rest := t[1..];
      forall k | 0 <= k < |rest| ensures raw[i + 1 + k] == rest[k] {
        assert raw[i + (k + 1)] == t[k + 1];
      }
      QuietPasses(raw, i + 1, rest, kind, depth);
    }
  }

  lemma {:induction false} NamePasses(raw: bytes, i: nat, k: Kind, n: Name, kind: Kind, depth: nat)
    requires depth > 0 && IsName(k, n) && NameAt(raw, i, n)
    ensures CompositeEnd(raw, i, kind, depth) == CompositeEnd(raw, i + NameLen(n), kind, depth)
  {
    if n.Name? {
      var a := i + (|n.key| + 2);
      var b := a + |n.beforeColon|;
      StringPasses(raw, i, n.key);
      QuietPasses(raw, a, n.beforeColon, kind, depth);
      SeparatorPasses(raw, b, n.afterColon, kind, depth);
    }
  }

  /** A comma or colon and the whitespace behind it. */
  lemma {:induction false} SeparatorPasses(raw: bytes, j: nat, w: bytes, kind: Kind, depth: nat)
    requires depth > 0 && (Is(raw, j, COMMA) || Is(raw, j, COLON)) && At(raw, j + 1, w) && AllSpace(w)
    ensures CompositeEnd(raw, j, kind, depth) == CompositeEnd(raw, j + 1 + |w|, kind, depth)
  {
    QuietPasses(raw, j + 1, w, kind, depth);
  }

  /** A whole value, whatever its brackets, leaves the count as it was. */
  lemma {:induction false} ValuePasses(raw: bytes, i: nat, v: Value, kind: Kind, depth: nat)
    requires depth > 0 && IsValue(v) && ValueAt(raw, i, v)
    ensures i + ValueLen(v) <= |raw| &&
      CompositeEnd(raw, i, kind, depth) == CompositeEnd(raw, i + ValueLen(v), kind, depth)
    decreases v
  {
    match v
    case Str(body) => StringPasses(raw, i, body);
    case Num(token) =>
      NumberToken(token);
      assert forall k | 0 <= k < |token| :: IsNumberByte(token[k]);
      QuietPasses(raw, i, token, kind, depth);
    case Lit(token) => QuietPasses(raw, i, token, kind, depth);
    case Comp(own, ws, items) => CompositePasses(raw, i, own, ws, items, kind, depth);
  }

  lemma {:induction false} CompositePasses(raw: bytes, i: nat, own: Kind, ws: bytes, items: Items, kind: Kind,
                                           depth: nat)
    requires depth > 0 && AllSpace(ws) && IsItems(own, items) && ValueAt(raw, i, Comp(own, ws, items))
    ensures var e := i + 1 + |ws| + ItemsLen(items) + 1;
      e <= |raw| && CompositeEnd(raw, i, kind, depth) == CompositeEnd(raw, e, kind, depth)
    decreases items, 1
  {
    var inner := if own == kind then depth + 1 else depth;
    var j := i + 1 + |ws|;
    var e := j + ItemsLen(items);
    assert CompositeEnd(raw, i, kind, depth) == CompositeEnd(raw, i + 1, kind, inner);
    assert CompositeEnd(raw, e, kind, inner) == CompositeEnd(raw, e + 1, kind, depth);
    QuietPasses(raw, i + 1, ws, kind, inner);
    ItemsPass(raw, j, own, items, kind, inner);
  }

  lemma {:induction false} EntryPasses(raw: bytes, i: nat, own: Kind, en: Entry, kind: Kind, depth: nat)
    requires depth > 0 && IsName(own, en.name) && IsValue(en.value) && AllSpace(en.after) && EntryAt(raw, i, en)
    ensures CompositeEnd(raw, i, kind, depth) == CompositeEnd(raw, i + EntryLen(en), kind, depth)
    decreases en
  {
    var v := i + NameLen(en.name);
    NamePasses(raw, i, own, en.name, kind, depth);
    ValuePasses(raw, v, en.value, kind, depth);
    QuietPasses(raw, v + ValueLen(en.value), en.after, kind, depth);
  }

  lemma {:induction false} ItemsPass(raw: bytes, i: nat, own: Kind, it: Items, kind: Kind, depth: nat)
    requires depth > 0 && IsItems(own, it) && ItemsAt(raw, i, it)
    ensures CompositeEnd(raw, i, kind, depth) == CompositeEnd(raw, i + ItemsLen(it), kind, depth)
    decreases it, 0
  {
    if it.More? {
      ItemsAtParts(raw, i, it);
      var j := i + EntryLen(it.first);
      EntryPasses(raw, i, own, it.first, kind, depth);
      if it.rest.More? {
        SeparatorPasses(raw, j, it.before, kind, depth);
        ItemsPass(raw, j + 1 + |it.before|, own, it.rest, kind, depth);
      }
    }
  }

  lemma {:induction false} TokenStops(raw: bytes, i: nat, t: bytes)
    requires At(raw, i, t) && forall k | 0 <= k < |t| :: !EndsToken(t[k])
    requires i + |t| < |raw| ==> EndsToken(raw[i + |t|])
    ensures TokenEnd(raw, i) == i + |t|
    decreases |t|
  {
    if |t| > 0 {
      assert raw[i + 0] == t[0];
      var rest := t[1..];
      forall k | 0 <= k < |rest| ensures raw[i + 1 + k] == rest[k] {
        assert raw[i + (k + 1)] == t[k + 1];
      }
      TokenStops(raw, i + 1, rest);
    }
  }

  /** A number or a literal ends at the delimiter. */
  lemma {:induction false} TokenEnds(raw: bytes, i: nat, t: bytes)
    requires i < |raw| && t != [] && At(raw, i, t) && (i + |t| < |raw| ==> EndsToken(raw[i + |t|]))
    requires forall k | 0 <= k < |t| :: Quiet(t[k]) && !EndsToken(t[k])
    ensures QuickEnd(raw, i) == i + |t|
  {
    assert raw[i + 0] == t[0];
    TokenStops(raw, i, t);
  }

  lemma {:induction false} CompositeEnds(raw: bytes, i: nat, own: Kind, ws: bytes, items: Items)
    requires AllSpace(ws) && IsItems(own, items) && ValueAt(raw, i, Comp(own, ws, items)) && i < |raw|
    ensures QuickEnd(raw, i) == i + 1 + |ws| + ItemsLen(items) + 1
  {
    var j := i + 1 + |ws|;
    QuietPasses(raw, i + 1, ws, own, 1);
    ItemsPass(raw, j, own, items, own, 1);
    assert CompositeEnd(raw, j + ItemsLen(items), own, 1) == j + ItemsLen(items) + 1;
  }

  /** A valid value in front of a delimiter or the end of input: the unchecked skipper finds its end. */
  lemma {:induction false} ValueEnds(raw: bytes, i: nat, v: Value)
    requires IsValue(v) && ValueAt(raw, i, v) && i < |raw|
    requires i + ValueLen(v) < |raw| ==> EndsToken(raw[i + ValueLen(v)])
    ensures QuickEnd(raw, i) == i + ValueLen(v)
  {
    match v
    case Str(body) => StringPasses(raw, i, body);
    case Num(token) =>
      NumberToken(token);
      assert forall k | 0 <= k < |token| :: IsNumberByte(token[k]);
      TokenEnds(raw, i, token);
    case Lit(token) => TokenEnds(raw, i, token);
    case Comp(own, ws, items) => CompositeEnds(raw, i, own, ws, items);
  }

  /** Wherever the strict skipper accepts a value followed by a delimiter or the end of input, the unchecked one returns
      the same end. */
  lemma {:induction false} UncheckedAgrees(raw: bytes, i: nat)
    requires i < |raw| && SkipValue(raw, i).Ok?
    requires SkipValue(raw, i).end < |raw| ==> EndsToken(raw[SkipValue(raw, i).end])
    ensures QuickEnd(raw, i) == SkipValue(raw, i).end
  {
    var v := SkippedIsValue(raw, i);
    ValueEnds(raw, i, v);
  }

  // ----- values that are cut off -----

  lemma {:induction false} StringEndCut(raw: bytes, full: bytes, i: nat)
    requires raw <= full
    ensures StringEnd(raw, i) == if StringEnd(full, i) <= |raw| then StringEnd(full, i) else |raw|
    decreases |full| - i
  {
    if i < |raw| && raw[i] != QUOTE {
      StringEndCut(raw, full, if raw[i] == BACKSLASH then i + 2 else i + 1);
    }
  }

  lemma {:induction false} CompositeEndCut(raw: bytes, full: bytes, i: nat, kind: Kind, depth: nat)
    requires raw <= full && depth > 0
    ensures CompositeEnd(raw, i, kind, depth) ==
      if CompositeEnd(full, i, kind, depth) <= |raw| then CompositeEnd(full, i, kind, depth) else |raw|
    decreases |full| - i
  {
    if i < |raw| {
      if raw[i] == QUOTE {
        StringEndCut(raw, full, i + 1);
        CompositeEndCut(raw, full, StringEnd(full, i + 1), kind, depth);
      } else if raw[i] == Opening(kind) {
        CompositeEndCut(raw, full, i + 1, kind, depth + 1);
      } else if raw[i] != Closing(kind) {
        CompositeEndCut(raw, full, i + 1, kind, depth);
      } else if depth > 1 {
        CompositeEndCut(raw, full, i + 1, kind, depth - 1);
      }
    }
  }

  lemma {:induction false} TokenEndCut(raw: bytes, full: bytes, i: nat)
    requires raw <= full && i <= |raw|
    ensures TokenEnd(raw, i) == if TokenEnd(full, i) <= |raw| then TokenEnd(full, i) else |raw|
    decreases |raw| - i
  {
    if i < |raw| && !EndsToken(raw[i]) {
      TokenEndCut(raw, full, i + 1);
    }
  }

  /** Of a value that is cut off, everything is skipped. */
  lemma {:induction false} CutRunsOut(raw: bytes, full: bytes, i: nat)
    requires raw <= full && i < |raw| && SkipValue(full, i).Ok?
    requires SkipValue(full, i).end < |full| ==> EndsToken(full[SkipValue(full, i).end])
    ensures QuickEnd(raw, i) == if SkipValue(full, i).end <= |raw| then SkipValue(full, i).end else |raw|
  {
    UncheckedAgrees(full, i);
    StringEndCut(raw, full, i + 1);
    CompositeEndCut(raw, full, i + 1, Object, 1);
    CompositeEndCut(raw, full, i + 1, Array, 1);
    TokenEndCut(raw, full, i);
  }

  // ----- looking up a key -----

  /** Where a member's value is. */
  datatype Found = Absent | Range(start: nat, end: nat)

  /** A member's decoded name and where its value starts. */
  datatype Head = NoHead | Head(name: bytes, value: nat)

  /** Where the value starts, behind the colon that must follow the name. */
  function BehindColon(data: bytes, i: nat): (v: Option<nat>)
    requires i <= |data|
    ensures v.Some? ==> i < v.value < |data|
  {
    var k := SkipSpace(data, i);
    if k == |data| || data[k] != COLON then None
    else
      var m := SkipSpace(data, k + 1);
      if m == |data| then None else Some(m)
  }

  function HeadAt(data: bytes, i: nat): (h: Head)
    requires i <= |data|
    ensures h.Head? ==> i < h.value < |data|
  {
    var j := SkipSpace(data, i);
    if j == |data| || data[j] != QUOTE then NoHead
    else
      var d := Decode(data, j + 1);
      if d.Fault? then NoHead
      else
        var v := BehindColon(data, d.end);
        if v.None? then NoHead else Head(d.content, v.value)
  }

  /** What one turn of the walk finds: nothing more, the member, or where to go on. */
  datatype Turn = Ends | Hits(start: nat, end: nat) | GoesOn(next: nat)

  /** The member at `i`, behind the brace or a comma. */
  function TurnAt(data: bytes, i: nat, key: bytes): (t: Turn)
    requires i <= |data|
    ensures t.Hits? ==> t.start <= t.end <= |data|
    ensures t.GoesOn? ==> i < t.next <= |data|
  {
    var h := HeadAt(data, i);
    if h.NoHead? then Ends
    else
      var end := QuickEnd(data, h.value);
      if h.name == key then Hits(h.value, end)
      else
        var n := SkipSpace(data, end);
        if n == |data| || data[n] != COMMA then Ends else GoesOn(n + 1)
  }

  function Turns(data: bytes, key: bytes): nat -> Turn {
    (i: nat) => if i <= |data| then TurnAt(data, i, key) else Ends
  }

  /** The walk over the members of an object of `size` bytes. */
  function Walk(size: nat, i: nat, turn: nat -> Turn): Found
    requires i <= size
    decreases size - i
  {
    match turn(i)
    case Ends => Absent
    case Hits(start, end) => Range(start, end)
    case GoesOn(next) => if i < next <= size then Walk(size, next, turn) else Absent
  }

  method PassColon(data: bytes, i0: nat) returns (v: Option<nat>)
    requires i0 <= |data|
    ensures v == BehindColon(data, i0)
  {
    var i := SkipSpaceLoop(data, i0);
    if i >= |data| || data[i] != COLON {
      return None;
    }
    i := SkipSpaceLoop(data, i + 1);
    return if i >= |data| then None else Some(i);
  }

  /** The decoder reads from a slice; the positions are those of the data. */
  method ReadName(data: bytes, i: nat) returns (d: Decoded)
    requires i <= |data|
    ensures d == Decode(data, i)
  {
    var k := ReadJSONString(data[i..]);
    DecodeSuffix(data, i, 0);
    d := if k.Fault? then k else Text(k.content, i + k.end);
  }

  /** The name, the colon and the whitespace around them. */
  method ReadHead(data: bytes, i0: nat) returns (h: Head)
    requires i0 <= |data|
    ensures h == HeadAt(data, i0)
  {
    var i := SkipSpaceLoop(data, i0);
    if i >= |data| || data[i] == RBRACE || data[i] != QUOTE {
      return NoHead;
    }
    var k := ReadName(data, i + 1);
    if k.Fault? {
      return NoHead;
    }
    var v := PassColon(data, k.end);
    return if v.None? then NoHead else Head(k.content, v.value);
  }

  /** One member. */
  method MemberAt(data: bytes, i: nat, key: bytes) returns (t: Turn)
    requires i <= |data|
    ensures t == TurnAt(data, i, key)
  {
    var h := ReadHead(data, i);
    if h.NoHead? {
      return Ends;
    }
    var end := SkipValueUnchecked(data, h.value);
    if h.name == key {
      return Hits(h.value, end.value);
    }
    var n := SkipSpaceLoop(data, end.value);
    return if n >= |data| || data[n] != COMMA then Ends else GoesOn(n + 1);
  }

  /** The value of the first member whose decoded name is the key. */
  method FindValueTop(data: bytes, key: bytes) returns (value: bytes, found: bool)
    ensures var i := SkipSpace(data, 0);
      if i == |data| || data[i] != LBRACE then !found
      else match Walk(|data|, i + 1, Turns(data, key))
           case Absent => !found
           case Range(start, end) => found && start <= end <= |data| && value == data[start..end]
  {
    var i: nat := SkipSpaceLoop(data, 0);
    if i >= |data| || data[i] != LBRACE {
      return [], false;
    }
    value, found := FindLoop(data, i + 1, key, Turns(data, key));
  }

  method FindLoop(data: bytes, i0: nat, key: bytes, ghost turn: nat -> Turn) returns (value: bytes, found: bool)
    requires i0 <= |data| && turn == Turns(data, key)
    ensures match Walk(|data|, i0, turn)
      case Absent => !found
      case Range(start, end) => found && start <= end <= |data| && value == data[start..end]
  {
    var i := i0;
    while true
      invariant i <= |data| && Walk(|data|, i, turn) == Walk(|data|, i0, turn)
      decreases |data| - i
    {
      var t := MemberAt(data, i, key);
      assert turn(i) == t;
      match t {
        case Ends => return [], false;
        case Hits(start, end) => return data[start..end], true;
        case GoesOn(next) => i := next;
      }
    }
  }

  /** The first member whose decoded name is the key, among members that stand at `i`. */
  function FirstMember(data: bytes, i: nat, it: Items, key: bytes): (f: Found)
    decreases it
  {
    if it.End? then Absent
    else
      var v := i + NameLen(it.first.name);
      if i < |data| && Decode(data, i + 1).Text? &&
        Decode(data, i + 1).content == key then Range(v, v + ValueLen(it.first.value))
      else if it.rest.End? then Absent
      else FirstMember(data, i + EntryLen(it.first) + 1 + |it.before|, it.rest, key)
  }

  lemma {:induction false} ColonOfMember(data: bytes, a: nat, w: bytes, x: bytes, v: nat)
    requires At(data, a, w) && AllSpace(w) && Is(data, a + |w|, COLON) && At(data, a + |w| + 1, x) && AllSpace(x)
    requires v == a + |w| + 1 + |x| < |data| && !IsSpace(data[v])
    ensures BehindColon(data, a) == Some(v)
  {
    var b := a + |w|;
    AtSlice(data, a, w);
    SkipSpaceStops(data, a, b);
    AtSlice(data, b + 1, x);
    SkipSpaceStops(data, b + 1, v);
  }

  lemma {:induction false} KeyOfMember(data: bytes, i: nat, key: bytes)
    requires StringAt(data, i, key) && IsBody(key)
    ensures Decode(data, i + 1).Text? && Decode(data, i + 1).end == i + (|key| + 2)
  {
    AtSlice(data, i + 1, key);
    BodyIsDecoded(data, i + 1, i + 1 + |key|);
  }

  /** The head of a member of a valid object. */
  lemma {:induction false} HeadOfMember(data: bytes, p: nat, i: nat, n: Name, v: nat)
    requires p <= i < |data| && SkipSpace(data, p) == i && NameAt(data, i, n) && IsName(Object, n)
    requires v == i + NameLen(n) < |data| && !IsSpace(data[v])
    ensures Decode(data, i + 1).Text? && HeadAt(data, p) == Head(Decode(data, i + 1).content, v)
  {
    KeyOfMember(data, i, n.key);
    ColonOfMember(data, i + (|n.key| + 2), n.beforeColon, n.afterColon, v);
  }

  /** The value of a member, and the whitespace behind it. */
  lemma {:induction false} MemberValue(data: bytes, i: nat, en: Entry, v: nat, e: nat, j: nat)
    requires IsName(Object, en.name) && IsValue(en.value) && AllSpace(en.after) && EntryAt(data, i, en)
    requires i < |data| && j < |data| && (data[j] == COMMA || data[j] == RBRACE)
    requires v == i + NameLen(en.name) && e == v + ValueLen(en.value) && j == e + |en.after|
    ensures v < |data| && !IsSpace(data[v]) && QuickEnd(data, v) == e && e <= |data| && SkipSpace(data, e) == j
  {
    EntryReady(data, i, Object, en, v, e, j);
    ValueFirstByte(data, v, en.value);
    ValueEnds(data, v, en.value);
  }

  /** The head of the first member, the end of its value, and the separator at `j`. */
  lemma {:induction false} MemberFacts(data: bytes, p: nat, i: nat, en: Entry, v: nat, e: nat, j: nat)
    requires IsName(Object, en.name) && IsValue(en.value) && AllSpace(en.after) && EntryAt(data, i, en)
    requires p <= i < |data| && SkipSpace(data, p) == i && j < |data| && (data[j] == COMMA || data[j] == RBRACE)
    requires v == i + NameLen(en.name) && e == v + ValueLen(en.value) && j == e + |en.after|
    ensures v < |data| && Decode(data, i + 1).Text? && HeadAt(data, p) == Head(Decode(data, i + 1).content, v)
    ensures QuickEnd(data, v) == e && SkipSpace(data, e) == j
  {
    MemberValue(data, i, en, v, e, j);
    HeadOfMember(data, p, i, en.name, v);
  }

  /** The function gives what each turn finds. */
  ghost predicate AreTurns(turn: nat -> Turn, data: bytes, key: bytes) {
    forall i: nat {:trigger TurnAt(data, i, key)} :: i <= |data| ==> turn(i) == TurnAt(data, i, key)
  }

  lemma {:induction false} TurnsAre(data: bytes, key: bytes)
    ensures AreTurns(Turns(data, key), data, key)
  {
  }

  /** What the walk finds at the first member. */
  lemma {:induction false} TurnOfMember(data: bytes, p: nat, i: nat, en: Entry, v: nat, e: nat, j: nat, key: bytes,
                                        turn: nat -> Turn)
    requires IsName(Object, en.name) && IsValue(en.value) && AllSpace(en.after) && EntryAt(data, i, en)
    requires p <= i < |data| && SkipSpace(data, p) == i && j < |data| && (data[j] == COMMA || data[j] == RBRACE)
    requires v == i + NameLen(en.name) && e == v + ValueLen(en.value) && j == e + |en.after|
    requires AreTurns(turn, data, key)
    ensures Decode(data, i + 1).Text?
    ensures turn(p) == TurnFrom(data, Decode(data, i + 1).content, v, e, j, key)
  {
    MemberFacts(data, p, i, en, v, e, j);
    TurnIs(data, p, key, Decode(data, i + 1).content, v, e, j, turn);
  }

  /** What a turn gives, in terms of what it reads. */
  function TurnFrom(data: bytes, name: bytes, v: nat, e: nat, j: nat, key: bytes): Turn
    requires j < |data|
  {
    if name == key then Hits(v, e) else if data[j] == COMMA then GoesOn(j + 1) else Ends
  }

  lemma {:induction false} TurnIs(data: bytes, p: nat, key: bytes, name: bytes, v: nat, e: nat, j: nat,
                                  turn: nat -> Turn)
    requires p <= |data| && HeadAt(data, p) == Head(name, v) && v < |data| && QuickEnd(data, v) == e
    requires SkipSpace(data, e) == j < |data| && AreTurns(turn, data, key)
    ensures turn(p) == TurnFrom(data, name, v, e, j, key)
  {
    assert turn(p) == TurnAt(data, p, key);
  }

  /** On the members of a valid object the walk finds the first one whose decoded name is the key, and its value. */
  lemma {:induction false} WalkFindsFirst(data: bytes, p: nat, i: nat, it: Items, key: bytes, turn: nat -> Turn)
    requires it.More? && IsItems(Object, it) && ItemsAt(data, i, it) && Is(data, i + ItemsLen(it), RBRACE)
    requires p <= i < |data| && SkipSpace(data, p) == i && AreTurns(turn, data, key)
    ensures Walk(|data|, p, turn) == FirstMember(data, i, it, key)
    decreases it
  {
    var j, next := TurnOfFirst(data, p, i, it, key, turn);
    if it.rest.More? {
      WalkFindsFirst(data, j + 1, next, it.rest, key, turn);
      WalkGoesOn(data, p, i, it, key, j, next, turn);
    } else {
      WalkEnds(data, p, i, it, key, j, turn);
    }
  }

  /** What the walk does at the first member, and where it then stands. */
  lemma {:induction false} TurnOfFirst(data: bytes, p: nat, i: nat, it: Items, key: bytes, turn: nat -> Turn)
    returns (j: nat, next: nat)
    requires it.More? && IsItems(Object, it) && ItemsAt(data, i, it) && Is(data, i + ItemsLen(it), RBRACE)
    requires p <= i < |data| && SkipSpace(data, p) == i && AreTurns(turn, data, key)
    ensures i < j == i + EntryLen(it.first) < |data| && Decode(data, i + 1).Text?
    ensures var v := i + NameLen(it.first.name);
      turn(p) == TurnFrom(data, Decode(data, i + 1).content, v, v + ValueLen(it.first.value), j, key)
    ensures it.rest.End? ==> data[j] == RBRACE
    ensures it.rest.More? ==>
      && data[j] == COMMA && j < next == j + 1 + |it.before| < |data| && SkipSpace(data, j + 1) == next
      && IsItems(Object, it.rest) && ItemsAt(data, next, it.rest) && Is(data, next + ItemsLen(it.rest), RBRACE)
  {
    j, next := NextPlace(data, i, it);
    var v := i + NameLen(it.first.name);
    TurnOfMember(data, p, i, it.first, v, v + ValueLen(it.first.value), j, key, turn);
  }

  /** Where the first member ends, and where the next one begins. */
  lemma {:induction false} NextPlace(data: bytes, i: nat, it: Items) returns (j: nat, next: nat)
    requires it.More? && IsItems(Object, it) && ItemsAt(data, i, it) && Is(data, i + ItemsLen(it), RBRACE)
    ensures i < j == i + EntryLen(it.first) < |data| && EntryAt(data, i, it.first)
    ensures it.rest.End? ==> data[j] == RBRACE
    ensures it.rest.More? ==>
      && data[j] == COMMA && j < next == j + 1 + |it.before| < |data| && SkipSpace(data, j + 1) == next
      && ItemsAt(data, next, it.rest) && Is(data, next + ItemsLen(it.rest), RBRACE)
  {
    j, next := ItemsReady(data, i, Object, it);
    if it.rest.More? {
      RestSpaced(data, i, it, j, next);
    }
  }

  /** The walk goes past a member with another name. */
  lemma {:induction false} WalkGoesOn(data: bytes, p: nat, i: nat, it: Items, key: bytes, j: nat, next: nat,
                                      turn: nat -> Turn)
    requires it.More? && it.rest.More? && p <= i < |data| && Decode(data, i + 1).Text?
    requires i <= j == i + EntryLen(it.first) < |data| && data[j] == COMMA && next == j + 1 + |it.before|
    requires var v := i + NameLen(it.first.name);
      turn(p) == TurnFrom(data, Decode(data, i + 1).content, v, v + ValueLen(it.first.value), j, key)
    requires Walk(|data|, j + 1, turn) == FirstMember(data, next, it.rest, key)
    ensures Walk(|data|, p, turn) == FirstMember(data, i, it, key)
  {
  }

  /** The walk ends at the last member. */
  lemma {:induction false} WalkEnds(data: bytes, p: nat, i: nat, it: Items, key: bytes, j: nat, turn: nat -> Turn)
    requires it.More? && it.rest.End? && p <= i < |data| && Decode(data, i + 1).Text? && j < |data| && data[j] == RBRACE
    requires var v := i + NameLen(it.first.name);
      turn(p) == TurnFrom(data, Decode(data, i + 1).content, v, v + ValueLen(it.first.value), j, key)
    ensures Walk(|data|, p, turn) == FirstMember(data, i, it, key)
  {
  }

  lemma {:induction false} RestSpaced(data: bytes, i: nat, it: Items, j: nat, next: nat)
    requires it.More? && it.rest.More? && IsItems(Object, it) && ItemsAt(data, i, it) && j == i + EntryLen(it.first)
    requires j < next < |data| && SkipSpace(data, j + 1) == next
    ensures next == j + 1 + |it.before|
  {
    ItemsAtParts(data, i, it);
    AtSlice(data, j + 1, it.before);
    RestStarts(data, j + 1 + |it.before|, Object, it.rest);
    SkipSpaceStops(data, j + 1, j + 1 + |it.before|);
  }

  /** For every valid object, the lookup returns the value of the first member whose decoded name is the key, and fails
      if there is none. */
  lemma {:induction false} FindsFirstMember(data: bytes, p: nat, ws: bytes, items: Items, key: bytes)
    requires AllSpace(ws) && IsItems(Object, items) && ValueAt(data, p, Comp(Object, ws, items))
    requires SkipSpace(data, 0) == p
    ensures p < |data| && data[p] == LBRACE
    ensures Walk(|data|, p + 1, Turns(data, key)) == FirstMember(data, p + 1 + |ws|, items, key)
  {
    var i := p + 1 + |ws|;
    ObjectBegins(data, p, ws, items);
    if items.More? {
      TurnsAre(data, key);
      WalkFindsFirst(data, p + 1, i, items, key, Turns(data, key));
    } else {
      EmptyObject(data, p + 1, i, key);
    }
  }

  lemma {:induction false} ObjectBegins(data: bytes, p: nat, ws: bytes, items: Items)
    requires AllSpace(ws) && IsItems(Object, items) && ValueAt(data, p, Comp(Object, ws, items))
    ensures var i := p + 1 + |ws|; i < |data| && SkipSpace(data, p + 1) == i && (items.End? ==> data[i] == RBRACE)
  {
    var i := p + 1 + |ws|;
    AtSlice(data, p + 1, ws);
    if items.More? {
      RestStarts(data, i, Object, items);
    }
    SkipSpaceStops(data, p + 1, i);
  }

  lemma {:induction false} EmptyObject(data: bytes, p: nat, i: nat, key: bytes)
    requires p <= i < |data| && SkipSpace(data, p) == i && data[i] == RBRACE
    ensures Walk(|data|, p, Turns(data, key)) == Absent
  {
    assert HeadAt(data, p) == NoHead;
    assert Turns(data, key)(p) == Ends;
  }
}
