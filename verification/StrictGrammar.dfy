/** The strict skipper accepts exactly the values of the RFC 8259 grammar. */
module StrictGrammar {
  import opened Bytes
  import opened Numbers
  import opened StringDecoder
  import opened Grammar
  import opened StrictSkip

  /** A number must be followed by the end of the input or by a delimiter; every other value ends by itself. */
  predicate Delimited(raw: bytes, v: Value, end: nat) {
    v.Num? && end < |raw| ==> EndsToken(raw[end])
  }

  lemma {:induction false} SliceAt(raw: bytes, i: nat, j: nat)
    requires i <= j <= |raw|
    ensures At(raw, i, raw[i..j])
  {
    AtSlice(raw, i, raw[i..j]);
  }

  // ----- soundness -----

  lemma {:induction false} StringIsText(raw: bytes, i: nat) returns (body: bytes)
    requires i < |raw| && raw[i] == QUOTE && SkipString(raw, i).Ok?
    ensures IsBody(body) && StringAt(raw, i, body) && SkipString(raw, i).end == i + 2 + |body|
  {
    var e := SkipString(raw, i).end - 1;
    DecodedIsBody(raw, i + 1);
    body := raw[i + 1..e];
    SliceAt(raw, i + 1, e);
  }

  lemma {:induction false} NameIsText(raw: bytes, i: nat) returns (n: Name)
    requires i < |raw| && SkipName(raw, i).Ok?
    ensures n.Name? && IsName(Object, n) && NameAt(raw, i, n) && SkipName(raw, i).end == i + NameLen(n)
  {
    var key := StringIsText(raw, i);
    var k := SkipString(raw, i).end;
    var j := SkipSpace(raw, k);
    SpacesAt(raw, k);
    SpacesAt(raw, j + 1);
    n := Name(key, raw[k..j], raw[j + 1..SkipSpace(raw, j + 1)]);
  }

  /** What the whitespace scan passes over, as a text. */
  lemma {:induction false} SpacesAt(raw: bytes, i: nat)
    requires i <= |raw|
    ensures var w := raw[i..SkipSpace(raw, i)]; AllSpace(w) && At(raw, i, w) && i + |w| == SkipSpace(raw, i)
  {
    SkipSpaceBlank(raw, i);
    SliceAt(raw, i, SkipSpace(raw, i));
  }

  /** What is accepted is exactly one value of the grammar. */
  lemma {:induction false} SkippedIsValue(raw: bytes, i: nat) returns (v: Value)
    requires i <= |raw| && SkipValue(raw, i).Ok?
    ensures IsValue(v) && ValueAt(raw, i, v) && SkipValue(raw, i).end == i + ValueLen(v)
    ensures Delimited(raw, v, i + ValueLen(v))
    decreases |raw| - i, 0
  {
    var e := SkipValue(raw, i).end;
    if raw[i] == QUOTE {
      var body := StringIsText(raw, i);
      v := Str(body);
    } else if raw[i] == LBRACE {
      v := CompositeIsValue(raw, i, Object);
    } else if raw[i] == LBRACKET {
      v := CompositeIsValue(raw, i, Array);
    } else {
      SliceAt(raw, i, e);
      v := if raw[i] == 0x74 || raw[i] == 0x66 || raw[i] == 0x6E then Lit(raw[i..e]) else Num(raw[i..e]);
    }
  }

  lemma {:induction false} CompositeIsValue(raw: bytes, i: nat, kind: Kind) returns (v: Value)
    requires i < |raw| && raw[i] == Opening(kind) && SkipComposite(raw, i, kind).Ok?
    ensures v.Comp? && IsValue(v) && ValueAt(raw, i, v) && SkipComposite(raw, i, kind).end == i + ValueLen(v)
    decreases |raw| - i - 1, 4
  {
    var j := SkipSpace(raw, i + 1);
    SpacesAt(raw, i + 1);
    if raw[j] == Closing(kind) {
      v := MakeComposite(raw, i, kind, raw[i + 1..j], End);
    } else {
      var items := ItemsAreItems(raw, j, kind);
      v := MakeComposite(raw, i, kind, raw[i + 1..j], items);
    }
  }

  lemma {:induction false} MakeComposite(raw: bytes, i: nat, kind: Kind, ws: bytes, items: Items) returns (v: Value)
    requires i < |raw| && raw[i] == Opening(kind) && AllSpace(ws) && At(raw, i + 1, ws)
    requires IsItems(kind, items) && ItemsAt(raw, i + 1 + |ws|, items) &&
      Is(raw, i + 1 + |ws| + ItemsLen(items), Closing(kind))
    ensures v.Comp? && IsValue(v) && ValueAt(raw, i, v) && ValueLen(v) == 1 + |ws| + ItemsLen(items) + 1
  {
    v := Comp(kind, ws, items);
  }

  /** An entry of the grammar at `i`, up to `j`. */
  ghost predicate EntryStands(raw: bytes, i: nat, kind: Kind, entry: Entry, j: nat) {
    && IsName(kind, entry.name) && IsValue(entry.value) && AllSpace(entry.after)
    && EntryAt(raw, i, entry) && j == i + EntryLen(entry)
  }

  /** Entries of the grammar at `i`, at least one, up to their closing bracket at `e`. */
  ghost predicate ItemsStand(raw: bytes, i: nat, kind: Kind, it: Items, e: nat) {
    it.More? && IsItems(kind, it) && ItemsAt(raw, i, it) && e == i + ItemsLen(it) && Is(raw, e, Closing(kind))
  }

  lemma {:induction false} ItemsAreItems(raw: bytes, i: nat, kind: Kind) returns (it: Items)
    requires i < |raw| && SkipItems(raw, i, kind).Ok?
    ensures ItemsStand(raw, i, kind, it, SkipItems(raw, i, kind).end - 1) == true
    decreases |raw| - i, 3
  {
    var entry, j, next, ws := FirstIsEntry(raw, i, kind);
    if next == 0 {
      it := MakeLast(raw, i, entry, j, kind);
    } else {
      var rest := ItemsAreItems(raw, next, kind);
      it := MakeMore(raw, i, kind, entry, j, ws, rest, SkipItems(raw, next, kind).end - 1);
    }
  }

  /** The first entry, and where the next one begins, if there is one. */
  lemma {:induction false} FirstIsEntry(raw: bytes, i: nat, kind: Kind)
    returns (entry: Entry, j: nat, next: nat, ws: bytes)
    requires i < |raw| && SkipItems(raw, i, kind).Ok?
    ensures EntryStands(raw, i, kind, entry, j) == true && i <= j < |raw|
    ensures next == 0 ==> raw[j] == Closing(kind) && SkipItems(raw, i, kind) == Ok(j + 1)
    ensures next > 0 ==>
      && raw[j] == COMMA && next == j + 1 + |ws| < |raw| && AllSpace(ws) && At(raw, j + 1, ws)
      && SkipItems(raw, i, kind) == SkipItems(raw, next, kind)
    decreases |raw| - i, 2
  {
    var p := SkipItem(raw, i, kind);
    entry, j := ItemIsEntry(raw, i, kind, p);
    if p.Stop? {
      SkipItemsStop(raw, i, kind, p.result);
      next, ws := 0, [];
    } else {
      SkipItemsOnward(raw, i, kind, p.next);
      next, ws := p.next, raw[j + 1..p.next];
      SliceAt(raw, j + 1, next);
    }
  }

  lemma {:induction false} MakeLast(raw: bytes, i: nat, entry: Entry, j: nat, kind: Kind) returns (it: Items)
    requires j < |raw| && EntryStands(raw, i, kind, entry, j) && raw[j] == Closing(kind)
    ensures ItemsStand(raw, i, kind, it, j) == true
  {
    it := More(entry, [], End);
    assert RestAt(raw, j, [], End) && RestLen([], End) == 0;
    assert IsItems(kind, End) && IsItems(kind, it) && ItemsAt(raw, i, it) && ItemsLen(it) == EntryLen(entry);
  }

  lemma {:induction false} MakeMore(raw: bytes, i: nat, kind: Kind, entry: Entry, j: nat, ws: bytes, rest: Items,
                                    e: nat)
    returns (it: Items)
    requires EntryStands(raw, i, kind, entry, j) && Is(raw, j, COMMA) && At(raw, j + 1, ws) && AllSpace(ws)
    requires ItemsStand(raw, j + 1 + |ws|, kind, rest, e)
    ensures ItemsStand(raw, i, kind, it, e) == true
  {
    it := More(entry, ws, rest);
    assert RestAt(raw, j, ws, rest);
    assert IsItems(kind, it) && ItemsAt(raw, i, it) && ItemsLen(it) == EntryLen(entry) + 1 + |ws| + ItemsLen(rest);
  }

  lemma {:induction false} ItemIsEntry(raw: bytes, i: nat, kind: Kind, p: Progress) returns (entry: Entry, j: nat)
    requires i < |raw| && p == SkipItem(raw, i, kind) && (p.Onward? || p.result.Ok?)
    ensures IsName(kind, entry.name) && IsValue(entry.value) && AllSpace(entry.after)
    ensures EntryAt(raw, i, entry) && j == i + EntryLen(entry) < |raw|
    ensures p.Stop? ==> raw[j] == Closing(kind) && p.result == Ok(j + 1)
    ensures p.Onward? ==> raw[j] == COMMA && j < p.next <= |raw| && AllSpace(raw[j + 1..p.next])
    decreases |raw| - i, 1
  {
    var name := StartIsName(raw, i, kind);
    var v := i + NameLen(name);
    var value := SkippedIsValue(raw, v);
    var e := v + ValueLen(value);
    SkipItemParts(raw, i, kind, v, e);
    j := AfterValueParts(raw, e, kind, p);
    entry := MakeEntry(raw, i, name, value, e, j);
  }

  lemma {:induction false} MakeEntry(raw: bytes, i: nat, name: Name, value: Value, e: nat, j: nat)
    returns (entry: Entry)
    requires NameAt(raw, i, name) && ValueAt(raw, i + NameLen(name), value) && e == i + NameLen(name) + ValueLen(value)
    requires e <= j <= |raw| && At(raw, e, raw[e..j])
    ensures entry == Entry(name, value, raw[e..j]) && EntryAt(raw, i, entry) && j == i + EntryLen(entry)
  {
    entry := Entry(name, value, raw[e..j]);
  }

  lemma {:induction false} AfterValueParts(raw: bytes, e: nat, kind: Kind, p: Progress) returns (j: nat)
    requires e <= |raw| && p == AfterValue(raw, e, kind) && (p.Onward? || p.result.Ok?)
    ensures e <= j < |raw| && AllSpace(raw[e..j]) && At(raw, e, raw[e..j])
    ensures p.Stop? ==> raw[j] == Closing(kind) && p.result == Ok(j + 1)
    ensures p.Onward? ==> raw[j] == COMMA && j < p.next <= |raw| && AllSpace(raw[j + 1..p.next])
  {
    j := SkipSpace(raw, e);
    SkipSpaceBlank(raw, e);
    SliceAt(raw, e, j);
    if p.Onward? {
      SkipSpaceBlank(raw, j + 1);
    }
  }

  lemma {:induction false} StartIsName(raw: bytes, i: nat, kind: Kind) returns (name: Name)
    requires i < |raw| && SkipStart(raw, i, kind).Ok?
    ensures IsName(kind, name) && NameAt(raw, i, name) && SkipStart(raw, i, kind).end == i + NameLen(name)
  {
    if kind == Object {
      name := NameIsText(raw, i);
    } else {
      name := NoName;
    }
  }

  // ----- completeness -----

  lemma {:induction false} SpaceThen(raw: bytes, i: nat, w: bytes)
    requires At(raw, i, w) && AllSpace(w) && (i + |w| < |raw| ==> !IsSpace(raw[i + |w|]))
    ensures SkipSpace(raw, i) == i + |w|
  {
    AtSlice(raw, i, w);
    SkipSpaceStops(raw, i, i + |w|);
  }

  lemma {:induction false} StringIsSkipped(raw: bytes, i: nat, body: bytes)
    requires IsBody(body) && StringAt(raw, i, body)
    ensures SkipString(raw, i) == Ok(i + 2 + |body|)
  {
    AtSlice(raw, i + 1, body);
    BodyIsDecoded(raw, i + 1, i + 1 + |body|);
  }

  lemma {:induction false} NameIsSkipped(raw: bytes, i: nat, n: Name)
    requires n.Name? && IsName(Object, n) && NameAt(raw, i, n)
    requires i + NameLen(n) < |raw| && StartsValue(raw[i + NameLen(n)])
    ensures SkipName(raw, i) == Ok(i + NameLen(n))
  {
    var k := i + (|n.key| + 2);
    StringIsSkipped(raw, i, n.key);
    SpaceThen(raw, k, n.beforeColon);
    SpaceThen(raw, k + |n.beforeColon| + 1, n.afterColon);
  }

  lemma {:induction false} NumberIsSkipped(raw: bytes, i: nat, token: bytes)
    requires IsNumber(token) && At(raw, i, token)
    requires i + |token| < |raw| ==> EndsToken(raw[i + |token|])
    ensures i < |raw| && SkipNumber(raw, i) == Ok(i + |token|)
    ensures raw[i] == MINUS || IsDigit(raw[i])
  {
    NumberToken(token);
    assert raw[i + 0] == token[0];
    forall k | i <= k < i + |token| ensures !EndsToken(raw[k]) {
      assert raw[i + (k - i)] == token[k - i];
      assert IsNumberByte(token[k - i]);
    }
    AtSlice(raw, i, token);
    assert TokenEnd(raw, i) == i + |token|;
  }

  lemma {:induction false} LiteralIsSkipped(raw: bytes, i: nat, token: bytes)
    requires (token == TRUE || token == FALSE || token == NULL) && At(raw, i, token)
    ensures i < |raw| && ConsumeLiteral(raw, i) == Ok(i + |token|)
    ensures raw[i] == 0x74 || raw[i] == 0x66 || raw[i] == 0x6E
  {
    assert raw[i + 0] == token[0];
    AtSlice(raw, i, token);
  }

  /** Every value of the grammar is accepted, with its own end. */
  lemma {:induction false} ValueIsSkipped(raw: bytes, i: nat, v: Value)
    requires i <= |raw| && IsValue(v) && ValueAt(raw, i, v) && Delimited(raw, v, i + ValueLen(v))
    ensures SkipValue(raw, i) == Ok(i + ValueLen(v))
    decreases v
  {
    match v
    case Str(body) => StringIsSkipped(raw, i, body);
    case Num(token) => NumberIsSkipped(raw, i, token);
    case Lit(token) => LiteralIsSkipped(raw, i, token);
    case Comp(kind, ws, items) => CompositeIsSkipped(raw, i, kind, ws, items);
  }

  lemma {:induction false} CompositeIsSkipped(raw: bytes, i: nat, kind: Kind, ws: bytes, items: Items)
    requires AllSpace(ws) && IsItems(kind, items) && ValueAt(raw, i, Comp(kind, ws, items))
    ensures i < |raw| && SkipComposite(raw, i, kind) == Ok(i + 1 + |ws| + ItemsLen(items) + 1)
    decreases items, 3
  {
    var j := i + 1 + |ws|;
    if items.More? {
      RestStarts(raw, j, kind, items);
      SpaceThen(raw, i + 1, ws);
      ItemsAreSkipped(raw, j, kind, items);
    } else {
      SpaceThen(raw, i + 1, ws);
    }
  }

  /** The parts of a nonempty list of items. */
  lemma {:induction false} ItemsAtParts(raw: bytes, i: nat, it: Items)
    requires it.More? && ItemsAt(raw, i, it)
    ensures EntryAt(raw, i, it.first)
    ensures var j := i + EntryLen(it.first);
      if it.rest.End? then i + ItemsLen(it) == j
      else Is(raw, j, COMMA) && At(raw, j + 1, it.before) && ItemsAt(raw, j + 1 + |it.before|, it.rest)
           && i + ItemsLen(it) == j + 1 + |it.before| + ItemsLen(it.rest)
  {
  }

  lemma {:induction false} ItemsAreSkipped(raw: bytes, i: nat, kind: Kind, it: Items)
    requires it.More? && IsItems(kind, it) && ItemsAt(raw, i, it) && Is(raw, i + ItemsLen(it), Closing(kind))
    ensures i < |raw| && SkipItems(raw, i, kind) == Ok(i + ItemsLen(it) + 1)
    decreases it, 2
  {
    var j, k := ItemsReady(raw, i, kind, it);
    EntryIsSkipped(raw, i, kind, it.first, j);
    if it.rest.More? {
      ItemsAreSkipped(raw, k, kind, it.rest);
      AfterComma(raw, j, k, kind);
      SkipItemsOnward(raw, i, kind, k);
    } else {
      AfterLast(raw, j, kind);
      SkipItemsStop(raw, i, kind, Ok(j + 1));
    }
  }

  /** Where the first entry ends, and where the next one starts. */
  lemma {:induction false} ItemsReady(raw: bytes, i: nat, kind: Kind, it: Items) returns (j: nat, k: nat)
    requires it.More? && IsItems(kind, it) && ItemsAt(raw, i, it) && Is(raw, i + ItemsLen(it), Closing(kind))
    ensures i < j == i + EntryLen(it.first) && EntryAt(raw, i, it.first)
    ensures it.rest.End? ==> Is(raw, j, Closing(kind)) && j == i + ItemsLen(it)
    ensures it.rest.More? ==> Is(raw, j, COMMA) && j < k < |raw| && SkipSpace(raw, j + 1) == k
    ensures it.rest.More? ==> ItemsAt(raw, k, it.rest) && i + ItemsLen(it) == k + ItemsLen(it.rest)
  {
    j := i + EntryLen(it.first);
    k := j + 1 + |it.before|;
    ItemsAtParts(raw, i, it);
    EntryFirstByte(raw, i, kind, it.first);
    if it.rest.More? {
      RestStarts(raw, k, kind, it.rest);
      SpaceThen(raw, j + 1, it.before);
    }
  }

  lemma {:induction false} AfterComma(raw: bytes, j: nat, k: nat, kind: Kind)
    requires j < k < |raw| && raw[j] == COMMA && SkipSpace(raw, j + 1) == k
    ensures AfterValue(raw, j, kind) == Onward(k)
  {
    assert SkipSpace(raw, j) == j;
  }

  lemma {:induction false} AfterLast(raw: bytes, j: nat, kind: Kind)
    requires j < |raw| && raw[j] == Closing(kind)
    ensures AfterValue(raw, j, kind) == Stop(Ok(j + 1))
  {
    assert SkipSpace(raw, j) == j;
  }

  lemma {:induction false} SkipItemsOnward(raw: bytes, i: nat, kind: Kind, k: nat)
    requires i < |raw| && SkipItem(raw, i, kind) == Onward(k)
    ensures SkipItems(raw, i, kind) == SkipItems(raw, k, kind)
  {
  }

  lemma {:induction false} SkipItemsStop(raw: bytes, i: nat, kind: Kind, r: Skip)
    requires i < |raw| && SkipItem(raw, i, kind) == Stop(r)
    ensures SkipItems(raw, i, kind) == r
  {
  }

  lemma {:induction false} SkipItemParts(raw: bytes, i: nat, kind: Kind, v: nat, e: nat)
    requires i < |raw| && SkipStart(raw, i, kind) == Ok(v) && SkipValue(raw, v) == Ok(e)
    ensures SkipItem(raw, i, kind) == AfterValue(raw, e, kind)
  {
  }

  lemma {:induction false} RestStarts(raw: bytes, k: nat, kind: Kind, it: Items)
    requires it.More? && IsItems(kind, it) && ItemsAt(raw, k, it)
    ensures k < |raw| && StartsValue(raw[k])
  {
    ItemsAtParts(raw, k, it);
    EntryFirstByte(raw, k, kind, it.first);
  }

  lemma {:induction false} EntryIsSkipped(raw: bytes, i: nat, kind: Kind, e: Entry, j: nat)
    requires IsName(kind, e.name) && IsValue(e.value) && AllSpace(e.after) && EntryAt(raw, i, e)
    requires j == i + EntryLen(e) < |raw| && i < |raw| && (raw[j] == COMMA || raw[j] == Closing(kind))
    ensures SkipItem(raw, i, kind) == AfterValue(raw, j, kind)
    decreases e, 1
  {
    var v := i + NameLen(e.name);
    var k := v + ValueLen(e.value);
    EntryReady(raw, i, kind, e, v, k, j);
    ValueIsSkipped(raw, v, e.value);
    SkipItemParts(raw, i, kind, v, k);
    AfterSpace(raw, k, j, kind);
  }

  lemma {:induction false} EntryReady(raw: bytes, i: nat, kind: Kind, e: Entry, v: nat, k: nat, j: nat)
    requires IsName(kind, e.name) && IsValue(e.value) && AllSpace(e.after) && EntryAt(raw, i, e)
    requires v == i + NameLen(e.name) && k == v + ValueLen(e.value) && j == k + |e.after|
    requires i < |raw| && j < |raw| && (raw[j] == COMMA || raw[j] == Closing(kind))
    ensures SkipStart(raw, i, kind) == Ok(v) && ValueAt(raw, v, e.value) && EndsToken(raw[k]) && SkipSpace(raw, k) == j
  {
    ValueFirstByte(raw, v, e.value);
    StartIsSkipped(raw, i, kind, e.name);
    SpaceThen(raw, k, e.after);
    if e.after != [] {
      assert raw[k + 0] == e.after[0];
    }
  }

  lemma {:induction false} StartIsSkipped(raw: bytes, i: nat, kind: Kind, n: Name)
    requires i < |raw| && IsName(kind, n) && NameAt(raw, i, n)
    requires i + NameLen(n) < |raw| && StartsValue(raw[i + NameLen(n)])
    ensures SkipStart(raw, i, kind) == Ok(i + NameLen(n))
  {
    if kind == Object {
      NameIsSkipped(raw, i, n);
    }
  }

  lemma {:induction false} AfterSpace(raw: bytes, k: nat, j: nat, kind: Kind)
    requires k <= j < |raw| && SkipSpace(raw, k) == j
    ensures AfterValue(raw, k, kind) == AfterValue(raw, j, kind)
  {
    assert SkipSpace(raw, j) == j;
  }

  // ----- both together -----

  /** The strict skipper succeeds with end `j` exactly when raw[i..j] is the text of one value that the rest of the
      input does not extend. */
  lemma {:induction false} AcceptsExactlyValues(raw: bytes, i: nat, j: nat)
    requires i <= |raw|
    ensures SkipValue(raw, i) == Ok(j) <==>
      exists v: Value :: IsValue(v) && At(raw, i, ValueText(v)) && j == i + |ValueText(v)| && Delimited(raw, v, j)
  {
    if SkipValue(raw, i) == Ok(j) {
      var v := SkippedIsValue(raw, i);
      ValueAtText(raw, i, v);
    }
    if exists v: Value :: IsValue(v) && At(raw, i, ValueText(v)) && j == i + |ValueText(v)| && Delimited(raw, v, j) {
      var v: Value :| IsValue(v) && At(raw, i, ValueText(v)) && j == i + |ValueText(v)| && Delimited(raw, v, j);
      ValueAtText(raw, i, v);
      ValueIsSkipped(raw, i, v);
    }
  }
}
