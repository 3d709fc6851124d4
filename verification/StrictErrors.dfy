/** What the two errors of the strict skipper mean: an unexpected end can always be continued to a value, and a value
    that was cut off behind a separator, in a string or in a number has an unexpected end. */
module StrictErrors {
  import opened Bytes
  import opened Numbers
  import opened Strings
  import opened StringDecoder
  import opened StringEscapes
  import opened Grammar
  import opened StrictSkip
  import opened StrictGrammar

  // ----- what was read stays read -----

  lemma {:induction false} AtGrows(raw: bytes, t: bytes, i: nat, text: bytes)
    requires At(raw, i, text)
    ensures At(raw + t, i, text)
  {
  }

  /** More bytes behind the input do not change a value that has ended. */
  lemma {:induction false} ValueGrows(raw: bytes, t: bytes, i: nat)
    requires i <= |raw| && SkipValue(raw, i).Ok?
    requires SkipValue(raw, i).end < |raw| || t == [] || EndsToken(t[0])
    ensures SkipValue(raw + t, i) == SkipValue(raw, i)
  {
    var v := SkippedIsValue(raw, i);
    ValueAtText(raw, i, v);
    ValueAtText(raw + t, i, v);
    AtGrows(raw, t, i, ValueText(v));
    ValueIsSkipped(raw + t, i, v);
  }

  lemma {:induction false} SpaceGrows(raw: bytes, t: bytes, i: nat)
    requires i <= |raw| && (SkipSpace(raw, i) < |raw| || t == [] || !IsSpace(t[0]))
    ensures SkipSpace(raw + t, i) == SkipSpace(raw, i)
  {
    var j := SkipSpace(raw, i);
    SkipSpaceBlank(raw, i);
    assert (raw + t)[i..j] == raw[i..j];
    SkipSpaceStops(raw + t, i, j);
  }

  lemma {:induction false} NameGrows(raw: bytes, t: bytes, i: nat)
    requires i < |raw| && SkipName(raw, i).Ok? && (SkipName(raw, i).end < |raw| || t == [] || !IsSpace(t[0]))
    ensures SkipName(raw + t, i) == SkipName(raw, i)
  {
    assert SkipValue(raw, i) == SkipString(raw, i);
    var k := SkipString(raw, i).end;
    SpaceGrows(raw, t, k);
    ValueGrows(raw, t, i);
    assert SkipValue(raw + t, i) == SkipString(raw + t, i);
    SpaceGrows(raw, t, SkipSpace(raw, k) + 1);
  }

  lemma {:induction false} StartGrows(raw: bytes, t: bytes, i: nat, kind: Kind)
    requires i < |raw| && SkipStart(raw, i, kind).Ok?
    requires SkipStart(raw, i, kind).end < |raw| || t == [] || !IsSpace(t[0])
    ensures SkipStart(raw + t, i, kind) == SkipStart(raw, i, kind)
  {
    if kind == Object {
      NameGrows(raw, t, i);
    }
  }

  lemma {:induction false} ItemGrows(raw: bytes, t: bytes, i: nat, kind: Kind)
    requires i < |raw| && SkipItem(raw, i, kind).Onward?
    ensures SkipItem(raw + t, i, kind) == SkipItem(raw, i, kind)
  {
    var v := SkipStart(raw, i, kind).end;
    var e := SkipValue(raw, v).end;
    var j := SkipSpace(raw, e);
    StartGrows(raw, t, i, kind);
    ValueGrows(raw, t, v);
    SpaceGrows(raw, t, e);
    SpaceGrows(raw, t, j + 1);
    SkipItemParts(raw + t, i, kind, v, e);
  }

  // ----- an unexpected end can be continued -----

  lemma {:induction false} BodyJoin(a: bytes, b: bytes)
    requires IsBody(a) && IsBody(b)
    ensures IsBody(a + b)
    decreases |a|
  {
    if a == [] {
      assert a + b == b;
    } else {
      var n := if a[0] != BACKSLASH then 1 else if a[1] == LOWER_U then 6 else 2;
      BodyJoin(a[n..], b);
      BodyUnit(a, b, n);
    }
  }

  /** The first unit of a body, in front of a longer rest. */
  lemma {:induction false} BodyUnit(a: bytes, b: bytes, n: nat)
    requires a != [] && IsBody(a) && n == (if a[0] != BACKSLASH then 1 else if a[1] == LOWER_U then 6 else 2)
    requires IsBody(a[n..] + b)
    ensures IsBody(a + b)
  {
    var all := a + b;
    assert all[n..] == a[n..] + b;
    assert all[0] == a[0] && (n > 1 ==> all[1] == a[1]);
    if n == 6 {
      assert forall j | 2 <= j < 6 :: all[j] == a[j];
    }
  }

  /** A string that ends too early is closed by a quote, or by an escaped quote and a quote. */
  lemma {:induction false} CloseString(raw: bytes, i: nat) returns (t: bytes)
    requires i < |raw| && raw[i] == QUOTE && SkipString(raw, i) == Fail(UnexpectedEOF)
    ensures t != [] && SkipString(raw + t, i) == Ok(|raw + t|)
  {
    CutIff(raw, i + 1);
    if CutAt(raw, i + 1, |raw|) {
      t := [QUOTE];
      assert (raw + t)[i + 1..|raw|] == raw[i + 1..|raw|];
      BodyIsDecoded(raw + t, i + 1, |raw|);
    } else {
      t := [QUOTE, QUOTE];
      var e := |raw| - 1;
      var escaped: bytes := [BACKSLASH, QUOTE];
      assert IsBody(escaped) by {
        assert escaped[2..] == [];
      }
      BodyJoin(raw[i + 1..e], escaped);
      assert (raw + t)[i + 1..|raw| + 1] == raw[i + 1..e] + escaped;
      BodyIsDecoded(raw + t, i + 1, |raw| + 1);
    }
  }

  /** A number that ends too early is continued to a number. */
  lemma {:induction false} FinishNumber(raw: bytes, i: nat) returns (t: bytes)
    requires i < |raw| && SkipNumber(raw, i) == Fail(UnexpectedEOF)
    ensures SkipValue(raw + t, i) == Ok(|raw + t|)
  {
    var token := raw[i..TokenEnd(raw, i)];
    assert token == raw[i..];
    t :| IsNumber(token + t);
    var v := Num(token + t);
    assert forall k | 0 <= k < |token + t| :: (raw + t)[i + k] == (token + t)[k];
    ValueIsSkipped(raw + t, i, v);
  }

  /** The empty string, as a member if need be, and the closing bracket. */
  function Filler(kind: Kind): bytes {
    if kind == Array then [QUOTE, QUOTE] else [QUOTE, QUOTE, COLON, QUOTE, QUOTE]
  }

  lemma {:induction false} EmptyString(raw: bytes, i: nat)
    requires i + 2 <= |raw| && raw[i] == raw[i + 1] == QUOTE
    ensures SkipString(raw, i) == Ok(i + 2) && SkipValue(raw, i) == Ok(i + 2)
  {
    assert UnitAt(raw, i + 1) == Closed;
  }

  lemma {:induction false} ClosesItem(raw: bytes, i: nat, kind: Kind, v: nat, e: nat)
    requires i < |raw| && SkipStart(raw, i, kind) == Ok(v) && SkipValue(raw, v) == Ok(e)
    requires e < |raw| && SkipSpace(raw, e) == |raw| - 1 && raw[|raw| - 1] == Closing(kind)
    ensures SkipItem(raw, i, kind) == Stop(Ok(|raw|))
  {
    SkipItemParts(raw, i, kind, v, e);
  }

  /** One item of filler and the closing bracket. */
  lemma {:induction false} FillerItem(raw: bytes, kind: Kind)
    ensures var all := raw + Filler(kind) + [Closing(kind)]; SkipItem(all, |raw|, kind) == Stop(Ok(|all|))
  {
    var all, i := raw + Filler(kind) + [Closing(kind)], |raw|;
    EmptyString(all, i);
    var v := i;
    if kind == Object {
      v := i + 3;
      EmptyString(all, v);
      assert SkipSpace(all, i + 2) == i + 2 && SkipSpace(all, i + 3) == i + 3;
    }
    assert SkipSpace(all, v + 2) == v + 2;
    ClosesItem(all, i, kind, v, v + 2);
  }

  /** Whatever fails with an unexpected end is a beginning of something that is skipped to its end. */
  lemma {:induction false} EndCanBeContinued(raw: bytes, i: nat) returns (t: bytes)
    requires i <= |raw| && SkipValue(raw, i) == Fail(UnexpectedEOF)
    ensures SkipValue(raw + t, i) == Ok(|raw + t|)
    decreases |raw| - i, 0
  {
    if i == |raw| {
      t := [QUOTE, QUOTE];
      EmptyString(raw + t, i);
    } else if raw[i] == QUOTE {
      t := CloseString(raw, i);
    } else if raw[i] == LBRACE {
      t := ContinueComposite(raw, i, Object);
    } else if raw[i] == LBRACKET {
      t := ContinueComposite(raw, i, Array);
    } else {
      t := FinishNumber(raw, i);
    }
  }

  lemma {:induction false} ContinueComposite(raw: bytes, i: nat, kind: Kind) returns (t: bytes)
    requires i < |raw| && SkipComposite(raw, i, kind) == Fail(UnexpectedEOF)
    ensures SkipComposite(raw + t, i, kind) == Ok(|raw + t|)
    decreases |raw| - i - 1, 3
  {
    var j := SkipSpace(raw, i + 1);
    if j == |raw| {
      t := [Closing(kind)];
    } else {
      t := ContinueItems(raw, j, kind);
    }
    SpaceGrows(raw, t, i + 1);
  }

  lemma {:induction false} ContinueItems(raw: bytes, i: nat, kind: Kind) returns (t: bytes)
    requires i < |raw| && SkipItems(raw, i, kind) == Fail(UnexpectedEOF)
    ensures SkipItems(raw + t, i, kind) == Ok(|raw + t|)
    decreases |raw| - i, 2
  {
    var p := SkipItem(raw, i, kind);
    if p.Onward? {
      t := ContinueItems(raw, p.next, kind);
      ItemGrows(raw, t, i, kind);
      SkipItemsOnward(raw + t, i, kind, p.next);
    } else {
      t := ContinueItem(raw, i, kind);
    }
  }

  lemma {:induction false} ContinueItem(raw: bytes, i: nat, kind: Kind) returns (t: bytes)
    requires i < |raw| && SkipItem(raw, i, kind) == Stop(Fail(UnexpectedEOF))
    ensures SkipItems(raw + t, i, kind) == Ok(|raw + t|)
    decreases |raw| - i, 1
  {
    var n := SkipStart(raw, i, kind);
    if n.Fail? {
      t := ContinueName(raw, i);
    } else {
      var e := SkipValue(raw, n.end);
      if e.Fail? {
        var u := EndCanBeContinued(raw, n.end);
        t := CloseItem(raw, i, kind, u);
      } else {
        t := ContinueSeparator(raw, i, kind);
      }
    }
  }

  lemma {:induction false} ContinueName(raw: bytes, i: nat) returns (t: bytes)
    requires i < |raw| && SkipName(raw, i) == Fail(UnexpectedEOF)
    ensures SkipItems(raw + t, i, Object) == Ok(|raw + t|)
  {
    var u := CloseString(raw, i);
    var named := raw + u;
    t := u + [COLON, QUOTE, QUOTE, RBRACE];
    var all, k := raw + t, |named|;
    assert all == named + [COLON, QUOTE, QUOTE, RBRACE];
    assert SkipValue(named, i) == SkipString(named, i);
    ValueGrows(named, [COLON, QUOTE, QUOTE, RBRACE], i);
    assert SkipValue(all, i) == SkipString(all, i) == Ok(k);
    assert SkipSpace(all, k) == k && SkipSpace(all, k + 1) == k + 1 && SkipSpace(all, k + 3) == k + 3;
    EmptyString(all, k + 1);
    ClosesItem(all, i, Object, k + 1, k + 3);
  }

  /** The value has been completed; the bracket closes the list. */
  lemma {:induction false} CloseItem(raw: bytes, i: nat, kind: Kind, u: bytes) returns (t: bytes)
    requires i < |raw| && SkipStart(raw, i, kind).Ok? && SkipValue(raw, SkipStart(raw, i, kind).end).Fail?
    requires SkipValue(raw + u, SkipStart(raw, i, kind).end) == Ok(|raw + u|)
    ensures SkipItems(raw + t, i, kind) == Ok(|raw + t|)
  {
    var v, whole := SkipStart(raw, i, kind).end, raw + u;
    t := u + [Closing(kind)];
    var all := raw + t;
    assert all == whole + [Closing(kind)];
    ValueGrows(whole, [Closing(kind)], v);
    if v == |raw| {
      var w := SkippedIsValue(all, v);
      ValueFirstByte(all, v, w);
      assert all[v] == t[0];
    }
    StartGrows(raw, t, i, kind);
    assert SkipSpace(all, |whole|) == |whole|;
    ClosesItem(all, i, kind, v, |whole|);
  }

  lemma {:induction false} ContinueSeparator(raw: bytes, i: nat, kind: Kind) returns (t: bytes)
    requires i < |raw| && SkipStart(raw, i, kind).Ok? && SkipValue(raw, SkipStart(raw, i, kind).end).Ok?
    requires SkipItem(raw, i, kind) == Stop(Fail(UnexpectedEOF))
    ensures SkipItems(raw + t, i, kind) == Ok(|raw + t|)
  {
    var v := SkipStart(raw, i, kind).end;
    var e := SkipValue(raw, v).end;
    if SkipSpace(raw, e) == |raw| {
      t := [Closing(kind)];
      ClosesBehind(raw, i, kind, v, e, t);
    } else {
      t := Filler(kind) + [Closing(kind)];
      FillsBehind(raw, i, kind, v, e, t);
    }
  }

  lemma {:induction false} ClosesBehind(raw: bytes, i: nat, kind: Kind, v: nat, e: nat, t: bytes)
    requires i < |raw| && SkipStart(raw, i, kind) == Ok(v) && SkipValue(raw, v) == Ok(e)
    requires SkipSpace(raw, e) == |raw| && t == [Closing(kind)]
    ensures SkipItems(raw + t, i, kind) == Ok(|raw + t|)
  {
    StartGrows(raw, t, i, kind);
    ValueGrows(raw, t, v);
    SpaceGrows(raw, t, e);
    ClosesItem(raw + t, i, kind, v, e);
  }

  lemma {:induction false} FillsBehind(raw: bytes, i: nat, kind: Kind, v: nat, e: nat, t: bytes)
    requires i < |raw| && SkipStart(raw, i, kind) == Ok(v) && SkipValue(raw, v) == Ok(e)
    requires AfterValue(raw, e, kind) == Stop(Fail(UnexpectedEOF)) && SkipSpace(raw, e) < |raw|
    requires t == Filler(kind) + [Closing(kind)]
    ensures SkipItems(raw + t, i, kind) == Ok(|raw + t|)
  {
    var all, j := raw + t, SkipSpace(raw, e);
    CommaGrows(raw, i, kind, v, e, j, t);
    GoesBehindComma(all, i, kind, v, e, j, |raw|);
    assert all == raw + Filler(kind) + [Closing(kind)];
    FillerItem(raw, kind);
    SkipItemsOnward(all, i, kind, |raw|);
  }

  /** An item and its comma are skipped as before. */
  lemma {:induction false} CommaGrows(raw: bytes, i: nat, kind: Kind, v: nat, e: nat, j: nat, t: bytes)
    requires i < |raw| && SkipStart(raw, i, kind) == Ok(v) && SkipValue(raw, v) == Ok(e)
    requires SkipSpace(raw, e) == j < |raw| && SkipSpace(raw, j + 1) == |raw| && |t| > 0 && t[0] == QUOTE
    ensures var all := raw + t;
      && SkipStart(all, i, kind) == Ok(v) && SkipValue(all, v) == Ok(e)
      && SkipSpace(all, e) == j && SkipSpace(all, j + 1) == |raw| && all[j] == raw[j]
  {
    StartGrows(raw, t, i, kind);
    ValueGrows(raw, t, v);
    SpaceGrows(raw, t, e);
    SpaceGrows(raw, t, j + 1);
  }

  lemma {:induction false} GoesBehindComma(all: bytes, i: nat, kind: Kind, v: nat, e: nat, j: nat, k: nat)
    requires i < |all| && SkipStart(all, i, kind) == Ok(v) && SkipValue(all, v) == Ok(e)
    requires SkipSpace(all, e) == j < |all| && all[j] == COMMA && SkipSpace(all, j + 1) == k < |all|
    ensures SkipItem(all, i, kind) == Onward(k)
  {
    SkipItemParts(all, i, kind, v, e);
  }

  // ----- where the input was cut -----

  /** A string fails with an unexpected end exactly if it was cut off. */
  lemma {:induction false} StringEndIff(raw: bytes, i: nat)
    requires i < |raw| && raw[i] == QUOTE
    ensures SkipValue(raw, i) == Fail(UnexpectedEOF) <==>
            CutAt(raw, i + 1, |raw|) || CutAt(raw, i + 1, |raw| - 1)
  {
    CutIff(raw, i + 1);
  }

  /** A token at the end of the input that is no number, but could become one, fails so. */
  lemma {:induction false} UnfinishedNumber(raw: bytes, i: nat, c: bytes)
    requires i < |raw| && !IsNumber(raw[i..]) && IsNumber(raw[i..] + c)
    ensures SkipValue(raw, i) == Fail(UnexpectedEOF)
  {
    var t := raw[i..];
    NumberToken(t + c);
    assert forall k | 0 <= k < |t| :: t[k] == (t + c)[k];
    NoTokenEnd(raw, i);
    assert (t + c)[0] == raw[i];
    assert raw[i..|raw|] == t;
  }

  lemma {:induction false} NoTokenEnd(raw: bytes, i: nat)
    requires i <= |raw| && forall k | 0 <= k < |raw[i..]| :: IsNumberByte(raw[i..][k])
    ensures TokenEnd(raw, i) == |raw|
  {
    forall k | i <= k < |raw| ensures !EndsToken(raw[k]) {
      assert raw[k] == raw[i..][k - i];
    }
  }

  /** A literal that is not spelled out is a mismatch, at the end of the input too. */
  lemma {:induction false} LiteralMismatch(raw: bytes, i: nat)
    requires i < |raw| && (raw[i] == 0x74 || raw[i] == 0x66 || raw[i] == 0x6E)
    ensures SkipValue(raw, i).Ok? || SkipValue(raw, i) == Fail(TypeMismatch)
  {
  }

  /** Behind the opening bracket, behind an item and behind a comma. */
  datatype Cut = AfterBracket | AfterItem | AfterSeparator(spaces: bytes)

  /** The text of a composite value up to such a cut. */
  ghost predicate CutComposite(raw: bytes, i: nat, kind: Kind, ws: bytes, it: Items, cut: Cut) {
    var k := i + 1 + |ws|;
    var end := k + ItemsLen(it);
    && i < |raw| && raw[i] == (if kind == Array then LBRACKET else LBRACE)
    && At(raw, i + 1, ws) && AllSpace(ws) && IsItems(kind, it) && ItemsAt(raw, k, it)
    && match cut
       case AfterBracket => it.End? && |raw| == k
       case AfterItem => it.More? && |raw| == end
       case AfterSeparator(spaces) =>
         it.More? && Is(raw, end, COMMA) && At(raw, end + 1, spaces) && AllSpace(spaces) && |raw| == end + 1 + |spaces|
  }

  lemma {:induction false} SpaceToEnd(raw: bytes, i: nat, ws: bytes)
    requires At(raw, i, ws) && AllSpace(ws) && i + |ws| == |raw|
    ensures SkipSpace(raw, i) == |raw|
  {
    AtSlice(raw, i, ws);
    SkipSpaceStops(raw, i, |raw|);
  }

  /** A composite value that is cut off there has an unexpected end. */
  lemma {:induction false} CutCompositeEnds(raw: bytes, i: nat, kind: Kind, ws: bytes, it: Items, cut: Cut)
    requires CutComposite(raw, i, kind, ws, it, cut)
    ensures SkipValue(raw, i) == Fail(UnexpectedEOF)
  {
    var k := i + 1 + |ws|;
    if it.End? {
      SpaceToEnd(raw, i + 1, ws);
    } else {
      RestStarts(raw, k, kind, it);
      SpaceThen(raw, i + 1, ws);
      CutItemsEnd(raw, k, kind, it, cut);
    }
  }

  lemma {:induction false} CutItemsEnd(raw: bytes, i: nat, kind: Kind, it: Items, cut: Cut)
    requires it.More? && IsItems(kind, it) && ItemsAt(raw, i, it) && !cut.AfterBracket?
    requires var end := i + ItemsLen(it);
      if cut.AfterItem? then |raw| == end
      else
        && Is(raw, end, COMMA) && At(raw, end + 1, cut.spaces) && AllSpace(cut.spaces)
        && |raw| == end + 1 + |cut.spaces|
    ensures i < |raw| && SkipItems(raw, i, kind) == Fail(UnexpectedEOF)
    decreases it
  {
    RestStarts(raw, i, kind, it);
    if it.rest.More? {
      var k := NextItem(raw, i, kind, it);
      CutItemsEnd(raw, k, kind, it.rest, cut);
    } else {
      LastCut(raw, i, kind, it.first, cut);
      SkipItemsStop(raw, i, kind, Fail(UnexpectedEOF));
    }
  }

  lemma {:induction false} NextItem(raw: bytes, i: nat, kind: Kind, it: Items) returns (k: nat)
    requires it.More? && it.rest.More? && IsItems(kind, it) && ItemsAt(raw, i, it) && i < |raw|
    ensures k < |raw| && ItemsAt(raw, k, it.rest) && k + ItemsLen(it.rest) == i + ItemsLen(it)
    ensures SkipItems(raw, i, kind) == SkipItems(raw, k, kind)
  {
    var j := i + EntryLen(it.first);
    k := j + 1 + |it.before|;
    ItemsAtParts(raw, i, it);
    RestStarts(raw, k, kind, it.rest);
    SpaceThen(raw, j + 1, it.before);
    EntryIsSkipped(raw, i, kind, it.first, j);
    AfterComma(raw, j, k, kind);
    SkipItemsOnward(raw, i, kind, k);
  }

  lemma {:induction false} LastCut(raw: bytes, i: nat, kind: Kind, e: Entry, cut: Cut)
    requires IsName(kind, e.name) && IsValue(e.value) && AllSpace(e.after) && EntryAt(raw, i, e) && i < |raw|
    requires !cut.AfterBracket?
    requires var end := i + EntryLen(e);
      if cut.AfterItem? then |raw| == end
      else
        && Is(raw, end, COMMA) && At(raw, end + 1, cut.spaces) && AllSpace(cut.spaces)
        && |raw| == end + 1 + |cut.spaces|
    ensures SkipItem(raw, i, kind) == Stop(Fail(UnexpectedEOF))
  {
    var j := i + EntryLen(e);
    if cut.AfterItem? {
      LastEntryEnds(raw, i, kind, e);
    } else {
      EntryIsSkipped(raw, i, kind, e, j);
      assert SkipSpace(raw, j) == j;
      SpaceToEnd(raw, j + 1, cut.spaces);
    }
  }

  lemma {:induction false} LastEntryEnds(raw: bytes, i: nat, kind: Kind, e: Entry)
    requires IsName(kind, e.name) && IsValue(e.value) && AllSpace(e.after) && EntryAt(raw, i, e)
    requires i + EntryLen(e) == |raw| && i < |raw|
    ensures SkipItem(raw, i, kind) == Stop(Fail(UnexpectedEOF))
  {
    var v := i + NameLen(e.name);
    var k := v + ValueLen(e.value);
    ValueFirstByte(raw, v, e.value);
    StartIsSkipped(raw, i, kind, e.name);
    if e.after != [] {
      assert raw[k + 0] == e.after[0];
    }
    ValueIsSkipped(raw, v, e.value);
    SpaceToEnd(raw, k, e.after);
    SkipItemParts(raw, i, kind, v, k);
  }
}
