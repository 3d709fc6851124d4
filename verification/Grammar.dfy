/** The RFC 8259 value grammar (sections 2 to 7) as concrete syntax: a tree and the exact bytes it stands for. String
    bodies may hold raw control characters and arbitrary bytes, as the parser documents. */
module Grammar {
  import opened Bytes
  import opened Numbers
  import opened StringDecoder

  datatype Kind = Array | Object

  /** The name in front of an object member, with the whitespace around its colon. */
  datatype Name = NoName | Name(key: bytes, beforeColon: bytes, afterColon: bytes)

  datatype Value =
    | Str(body: bytes)
    | Num(token: bytes)
    | Lit(token: bytes)
    | Comp(kind: Kind, ws: bytes, items: Items)

  /** An array element or object member, with the whitespace after it. */
  datatype Entry = Entry(name: Name, value: Value, after: bytes)

  /** The entries of an array or object; `before` is the whitespace after the comma, if there is one. */
  datatype Items = End | More(first: Entry, before: bytes, rest: Items)

  const TRUE: bytes := [0x74, 0x72, 0x75, 0x65]
  const FALSE: bytes := [0x66, 0x61, 0x6C, 0x73, 0x65]
  const NULL: bytes := [0x6E, 0x75, 0x6C, 0x6C]

  function Opening(k: Kind): byte {
    if k == Array then LBRACKET else LBRACE
  }

  function Closing(k: Kind): byte {
    if k == Array then RBRACKET else RBRACE
  }

  function StringText(body: bytes): bytes {
    [QUOTE] + (body + [QUOTE])
  }

  function NameText(n: Name): bytes {
    if n.NoName? then [] else StringText(n.key) + (n.beforeColon + ([COLON] + n.afterColon))
  }

  function ValueText(v: Value): bytes {
    match v
    case Str(body) => StringText(body)
    case Num(token) => token
    case Lit(token) => token
    case Comp(kind, ws, items) => [Opening(kind)] + (ws + (ItemsText(items) + [Closing(kind)]))
  }

  function EntryText(e: Entry): bytes {
    NameText(e.name) + (ValueText(e.value) + e.after)
  }

  function ItemsText(it: Items): bytes
    decreases it, 1
  {
    match it
    case End => []
    case More(first, before, rest) => EntryText(first) + RestText(before, rest)
  }

  function RestText(before: bytes, rest: Items): bytes
    decreases rest, 2
  {
    if rest.End? then [] else [COMMA] + (before + ItemsText(rest))
  }

  ghost predicate IsName(kind: Kind, n: Name) {
    match n
    case NoName => kind == Array
    case Name(key, w, x) => kind == Object && IsBody(key) && AllSpace(w) && AllSpace(x)
  }

  ghost predicate IsValue(v: Value)
    decreases v
  {
    match v
    case Str(body) => IsBody(body)
    case Num(token) => IsNumber(token)
    case Lit(token) => token == TRUE || token == FALSE || token == NULL
    case Comp(kind, ws, items) => AllSpace(ws) && IsItems(kind, items)
  }

  ghost predicate IsItems(kind: Kind, it: Items)
    decreases it
  {
    match it
    case End => true
    case More(first, before, rest) =>
      && IsName(kind, first.name) && IsValue(first.value) && AllSpace(first.after)
      && AllSpace(before) && IsItems(kind, rest)
  }

  // ----- the same syntax, read off positions of an input -----

  function NameLen(n: Name): nat {
    if n.NoName? then 0 else |n.key| + 2 + |n.beforeColon| + 1 + |n.afterColon|
  }

  function ValueLen(v: Value): nat {
    match v
    case Str(body) => |body| + 2
    case Num(token) => |token|
    case Lit(token) => |token|
    case Comp(kind, ws, items) => 1 + |ws| + ItemsLen(items) + 1
  }

  function EntryLen(e: Entry): nat {
    NameLen(e.name) + ValueLen(e.value) + |e.after|
  }

  function ItemsLen(it: Items): nat
    decreases it, 1
  {
    match it
    case End => 0
    case More(first, before, rest) => EntryLen(first) + RestLen(before, rest)
  }

  function RestLen(before: bytes, rest: Items): nat
    decreases rest, 2
  {
    if rest.End? then 0 else 1 + |before| + ItemsLen(rest)
  }

  predicate StringAt(raw: bytes, i: nat, body: bytes) {
    Is(raw, i, QUOTE) && At(raw, i + 1, body) && Is(raw, i + 1 + |body|, QUOTE)
  }

  predicate NameAt(raw: bytes, i: nat, n: Name) {
    if n.NoName? then i <= |raw|
    else
      var k := i + (|n.key| + 2);
      var j := k + |n.beforeColon|;
      StringAt(raw, i, n.key) && At(raw, k, n.beforeColon) && Is(raw, j, COLON) && At(raw, j + 1, n.afterColon)
  }

  predicate ValueAt(raw: bytes, i: nat, v: Value)
    decreases v
  {
    match v
    case Str(body) => StringAt(raw, i, body)
    case Num(token) => At(raw, i, token)
    case Lit(token) => At(raw, i, token)
    case Comp(kind, ws, items) =>
      var j := i + 1 + |ws|;
      Is(raw, i, Opening(kind)) && At(raw, i + 1, ws) && ItemsAt(raw, j, items) &&
        Is(raw, j + ItemsLen(items), Closing(kind))
  }

  predicate EntryAt(raw: bytes, i: nat, e: Entry)
    decreases e
  {
    var v := i + NameLen(e.name);
    NameAt(raw, i, e.name) && ValueAt(raw, v, e.value) && At(raw, v + ValueLen(e.value), e.after)
  }

  predicate ItemsAt(raw: bytes, i: nat, it: Items)
    decreases it, 1
  {
    match it
    case End => i <= |raw|
    case More(first, before, rest) => EntryAt(raw, i, first) && RestAt(raw, i + EntryLen(first), before, rest)
  }

  predicate RestAt(raw: bytes, i: nat, before: bytes, rest: Items)
    decreases rest, 2
  {
    if rest.End? then i <= |raw|
    else Is(raw, i, COMMA) && At(raw, i + 1, before) && ItemsAt(raw, i + 1 + |before|, rest)
  }

  lemma {:induction false} StringAtText(raw: bytes, i: nat, body: bytes)
    ensures |StringText(body)| == |body| + 2
    ensures StringAt(raw, i, body) <==> At(raw, i, StringText(body))
  {
    AtSplit(raw, i, [QUOTE], body + [QUOTE]);
    AtSplit(raw, i + 1, body, [QUOTE]);
    AtByte(raw, i, QUOTE);
    AtByte(raw, i + 1 + |body|, QUOTE);
  }

  /** `w`, the byte `c`, then `x`. */
  lemma {:induction false} AtAround(raw: bytes, i: nat, w: bytes, c: byte, x: bytes, j: nat)
    requires j == i + |w|
    ensures At(raw, i, w + ([c] + x)) <==> At(raw, i, w) && Is(raw, j, c) && At(raw, j + 1, x)
  {
    AtSplit(raw, i, w, [c] + x);
    AtSplit(raw, j, [c], x);
    AtByte(raw, j, c);
  }

  lemma {:induction false} NameAtText(raw: bytes, i: nat, n: Name)
    ensures |NameText(n)| == NameLen(n)
    ensures NameAt(raw, i, n) <==> At(raw, i, NameText(n))
  {
    if n.Name? {
      var k := i + (|n.key| + 2);
      var j := k + |n.beforeColon|;
      calc {
        At(raw, i, NameText(n));
        At(raw, i, StringText(n.key) + (n.beforeColon + ([COLON] + n.afterColon)));
        { StringAtText(raw, i, n.key); NameParts(raw, i, StringText(n.key), n.beforeColon, n.afterColon, k, j); }
        At(raw, i, StringText(n.key)) && At(raw, k, n.beforeColon) && Is(raw, j, COLON) && At(raw, j + 1, n.afterColon);
        { StringAtText(raw, i, n.key); }
        NameAt(raw, i, n);
      }
    }
  }

  lemma {:induction false} NameParts(raw: bytes, i: nat, s: bytes, w: bytes, x: bytes, k: nat, j: nat)
    requires k == i + |s| && j == k + |w|
    ensures At(raw, i, s + (w + ([COLON] + x))) <==>
      At(raw, i, s) && At(raw, k, w) && Is(raw, j, COLON) && At(raw, j + 1, x)
  {
    AtSplit(raw, i, s, w + ([COLON] + x));
    AtAround(raw, k, w, COLON, x, j);
  }

  lemma {:induction false} CompositeParts(raw: bytes, i: nat, open: byte, ws: bytes, t: bytes, close: byte, j: nat,
                                          e: nat)
    requires j == i + 1 + |ws| && e == j + |t|
    ensures At(raw, i, [open] + (ws + (t + [close]))) <==>
      Is(raw, i, open) && At(raw, i + 1, ws) && At(raw, j, t) && Is(raw, e, close)
  {
    AtSplit(raw, i, [open], ws + (t + [close]));
    AtByte(raw, i, open);
    AtTail(raw, i + 1, ws, t, close, j, e);
  }

  lemma {:induction false} AtTail(raw: bytes, i: nat, ws: bytes, t: bytes, close: byte, j: nat, e: nat)
    requires j == i + |ws| && e == j + |t|
    ensures At(raw, i, ws + (t + [close])) <==> At(raw, i, ws) && At(raw, j, t) && Is(raw, e, close)
  {
    AtSplit(raw, i, ws, t + [close]);
    AtSplit(raw, j, t, [close]);
    AtByte(raw, e, close);
  }

  /** A value stands at a position exactly when its text does. */
  lemma {:induction false} ValueAtText(raw: bytes, i: nat, v: Value)
    ensures |ValueText(v)| == ValueLen(v)
    ensures ValueAt(raw, i, v) <==> At(raw, i, ValueText(v))
    decreases v
  {
    match v
    case Str(body) => StringAtText(raw, i, body);
    case Num(token) =>
    case Lit(token) =>
    case Comp(kind, ws, items) =>
      ItemsAtText(raw, i + 1 + |ws|, items);
      CompositeAtText(raw, i, kind, ws, items, i + 1 + |ws|);
  }

  lemma {:induction false} CompositeAtText(raw: bytes, i: nat, kind: Kind, ws: bytes, items: Items, j: nat)
    requires j == i + 1 + |ws| && |ItemsText(items)| == ItemsLen(items)
    requires ItemsAt(raw, j, items) <==> At(raw, j, ItemsText(items))
    ensures ValueAt(raw, i, Comp(kind, ws, items)) <==> At(raw, i, ValueText(Comp(kind, ws, items)))
  {
    var v, t, e := Comp(kind, ws, items), ItemsText(items), j + ItemsLen(items);
    calc {
      At(raw, i, ValueText(v));
      At(raw, i, [Opening(kind)] + (ws + (t + [Closing(kind)])));
      { CompositeParts(raw, i, Opening(kind), ws, t, Closing(kind), j, e); }
      Is(raw, i, Opening(kind)) && At(raw, i + 1, ws) && At(raw, j, t) && Is(raw, e, Closing(kind));
      ValueAt(raw, i, v);
    }
  }

  lemma {:induction false} EntryAtText(raw: bytes, i: nat, e: Entry)
    ensures |EntryText(e)| == EntryLen(e)
    ensures EntryAt(raw, i, e) <==> At(raw, i, EntryText(e))
    decreases e
  {
    var v := i + NameLen(e.name);
    NameAtText(raw, i, e.name);
    ValueAtText(raw, v, e.value);
    AtSplit(raw, i, NameText(e.name), ValueText(e.value) + e.after);
    AtSplit(raw, v, ValueText(e.value), e.after);
  }

  lemma {:induction false} ItemsAtText(raw: bytes, i: nat, it: Items)
    ensures |ItemsText(it)| == ItemsLen(it)
    ensures ItemsAt(raw, i, it) <==> At(raw, i, ItemsText(it))
    decreases it, 1
  {
    if it.More? {
      EntryAtText(raw, i, it.first);
      RestAtText(raw, i + EntryLen(it.first), it.before, it.rest);
      AtSplit(raw, i, EntryText(it.first), RestText(it.before, it.rest));
    }
  }

  lemma {:induction false} RestAtText(raw: bytes, i: nat, before: bytes, rest: Items)
    ensures |RestText(before, rest)| == RestLen(before, rest)
    ensures RestAt(raw, i, before, rest) <==> At(raw, i, RestText(before, rest))
    decreases rest, 2
  {
    if rest.More? {
      ItemsAtText(raw, i + 1 + |before|, rest);
      var t := ItemsText(rest);
      calc {
        At(raw, i, RestText(before, rest));
        At(raw, i, [COMMA] + (before + t));
        { AtSplit(raw, i, [COMMA], before + t); AtByte(raw, i, COMMA); }
        Is(raw, i, COMMA) && At(raw, i + 1, before + t);
        { AtSplit(raw, i + 1, before, t); }
        Is(raw, i, COMMA) && At(raw, i + 1, before) && At(raw, i + 1 + |before|, t);
        RestAt(raw, i, before, rest);
      }
    }
  }

  // ----- first bytes -----

  predicate IsNumberByte(c: byte) {
    IsDigit(c) || c == MINUS || c == PLUS || c == DOT || c == 0x65 || c == 0x45
  }

  lemma {:induction false} NumberBytes(b: bytes)
    requires Run(b).phase != Dead
    ensures forall k | 0 <= k < |b| :: IsNumberByte(b[k])
    ensures b != [] ==> IsDigit(b[0]) || b[0] == MINUS
  {
    if b != [] {
      var rest := b[..|b| - 1];
      NumberBytes(rest);
      FirstOnly(rest);
    }
  }

  lemma {:induction false} NumberToken(b: bytes)
    requires IsNumber(b)
    ensures b != [] && (IsDigit(b[0]) || b[0] == MINUS)
    ensures forall k | 0 <= k < |b| :: IsNumberByte(b[k])
  {
    AcceptsExactlyNumbers(b);
    NumberBytes(b);
  }

  /** The bytes that can begin a value. */
  predicate StartsValue(c: byte) {
    c == QUOTE || c == MINUS || c == LBRACE || c == LBRACKET || c == 0x74 || c == 0x66 || c == 0x6E || IsDigit(c)
  }

  lemma {:induction false} ValueFirstByte(raw: bytes, i: nat, v: Value)
    requires IsValue(v) && ValueAt(raw, i, v)
    ensures i < |raw| && StartsValue(raw[i]) && ValueLen(v) > 0
  {
    match v
    case Num(token) =>
      NumberToken(token);
      assert raw[i + 0] == token[0];
    case Lit(token) =>
      assert raw[i + 0] == token[0];
    case _ =>
  }

  lemma {:induction false} EntryFirstByte(raw: bytes, i: nat, kind: Kind, e: Entry)
    requires IsName(kind, e.name) && IsValue(e.value) && EntryAt(raw, i, e)
    ensures i < |raw| && StartsValue(raw[i]) && EntryLen(e) > 0
  {
    if e.name.NoName? {
      ValueFirstByte(raw, i, e.value);
    }
  }
}
