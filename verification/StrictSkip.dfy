/** The strict value skipper: the code's control flow, and its soundness and completeness for the grammar. */
module StrictSkip {
  import opened Bytes
  import opened Numbers
  import opened Strings
  import opened StringDecoder
  import opened Grammar

  datatype Skip = Ok(end: nat) | Fail(error: Error)

  datatype Progress = Stop(result: Skip) | Onward(next: nat)

  // ----- what the code computes -----

  /** The end of an unquoted token. */
  function TokenEnd(raw: bytes, i: nat): (j: nat)
    requires i <= |raw|
    ensures i <= j <= |raw| && (j < |raw| ==> EndsToken(raw[j]))
    ensures forall k | i <= k < j :: !EndsToken(raw[k])
    decreases |raw| - i
  {
    if i < |raw| && !EndsToken(raw[i]) then TokenEnd(raw, i + 1) else i
  }

  function ConsumeLiteral(raw: bytes, i: nat): (r: Skip)
    requires i < |raw|
    ensures r.Ok? ==> i < r.end <= |raw|
  {
    var want := if raw[i] == 0x74 then TRUE else if raw[i] == 0x66 then FALSE else if raw[i] == 0x6E then NULL else [];
    if want != [] && i + |want| <= |raw| && raw[i..i + |want|] == want then Ok(i + |want|) else Fail(TypeMismatch)
  }

  ghost function SkipNumber(raw: bytes, i: nat): (r: Skip)
    requires i < |raw|
    ensures r.Ok? ==> i < r.end <= |raw|
  {
    var j := TokenEnd(raw, i);
    var t := raw[i..j];
    if IsNumber(t) then
      NumberToken(t);
      Ok(j)
    else if j == |raw| && t != [] && exists c: bytes :: IsNumber(t + c) then Fail(UnexpectedEOF)
    else Fail(TypeMismatch)
  }

  function SkipString(raw: bytes, i: nat): (r: Skip)
    requires i < |raw| && raw[i] == QUOTE
    ensures r.Ok? ==> i + 1 < r.end <= |raw|
  {
    var d := Decode(raw, i + 1);
    if d.Text? then Ok(d.end) else Fail(d.error)
  }

  /** The name in front of an object member; the result is where its value must start. */
  function SkipName(raw: bytes, i: nat): (r: Skip)
    requires i < |raw|
    ensures r.Ok? ==> i < r.end <= |raw|
  {
    if raw[i] != QUOTE then Fail(TypeMismatch)
    else
      var k := SkipString(raw, i);
      if k.Fail? then k
      else
        var j := SkipSpace(raw, k.end);
        if j == |raw| || raw[j] != COLON then Fail(TypeMismatch) else Ok(SkipSpace(raw, j + 1))
  }

  ghost function SkipValue(raw: bytes, i: nat): (r: Skip)
    requires i <= |raw|
    ensures r.Ok? ==> i < r.end <= |raw|
    decreases |raw| - i, 0
  {
    if i == |raw| then Fail(UnexpectedEOF)
    else if raw[i] == QUOTE then SkipString(raw, i)
    else if raw[i] == LBRACE then SkipComposite(raw, i, Object)
    else if raw[i] == LBRACKET then SkipComposite(raw, i, Array)
    else if raw[i] == 0x74 || raw[i] == 0x66 || raw[i] == 0x6E then ConsumeLiteral(raw, i)
    else SkipNumber(raw, i)
  }

  ghost function SkipComposite(raw: bytes, i: nat, kind: Kind): (r: Skip)
    requires i < |raw|
    ensures r.Ok? ==> i < r.end <= |raw|
    decreases |raw| - i - 1, 3
  {
    var j := SkipSpace(raw, i + 1);
    if j == |raw| then Fail(UnexpectedEOF)
    else if raw[j] == Closing(kind) then Ok(j + 1)
    else SkipItems(raw, j, kind)
  }

  /** Where the value of the element or member at `i` starts. */
  function SkipStart(raw: bytes, i: nat, kind: Kind): (r: Skip)
    requires i < |raw|
    ensures r.Ok? ==> i <= r.end <= |raw|
  {
    if kind == Array then Ok(i) else SkipName(raw, i)
  }

  /** One element or member and the separator after it. */
  ghost function SkipItem(raw: bytes, i: nat, kind: Kind): (p: Progress)
    requires i < |raw|
    ensures p.Onward? ==> i < p.next < |raw|
    ensures p.Stop? && p.result.Ok? ==> i < p.result.end <= |raw|
    decreases |raw| - i, 1
  {
    var n := SkipStart(raw, i, kind);
    if n.Fail? then Stop(n)
    else
      var v := SkipValue(raw, n.end);
      if v.Fail? then Stop(v) else AfterValue(raw, v.end, kind)
  }

  function AfterValue(raw: bytes, i: nat, kind: Kind): (p: Progress)
    requires i <= |raw|
    ensures p.Onward? ==> i < p.next < |raw|
    ensures p.Stop? && p.result.Ok? ==> i < p.result.end <= |raw|
  {
    var j := SkipSpace(raw, i);
    if j == |raw| then Stop(Fail(UnexpectedEOF))
    else if raw[j] == COMMA then
      var k := SkipSpace(raw, j + 1);
      if k == |raw| then Stop(Fail(UnexpectedEOF)) else Onward(k)
    else if raw[j] == Closing(kind) then Stop(Ok(j + 1))
    else Stop(Fail(TypeMismatch))
  }

  /** The elements or members from `i` on, up to and including the closing bracket. */
  ghost function SkipItems(raw: bytes, i: nat, kind: Kind): (r: Skip)
    requires i < |raw|
    ensures r.Ok? ==> i < r.end <= |raw|
    decreases |raw| - i, 2
  {
    var p := SkipItem(raw, i, kind);
    if p.Stop? then p.result else SkipItems(raw, p.next, kind)
  }

  // ----- the code -----

  method SkipToken(raw: bytes, start: nat) returns (r: Skip)
    requires start < |raw|
    ensures r == SkipNumber(raw, start)
  {
    var i := start;
    while i < |raw| && !EndsToken(raw[i])
      invariant start <= i <= |raw| && TokenEnd(raw, i) == TokenEnd(raw, start)
    {
      i := i + 1;
    }
    var valid := ValidJSONNumber(raw[start..i]);
    if !valid {
      var incomplete := IncompleteNumber(raw[start..i]);
      return Fail(if i >= |raw| && incomplete then UnexpectedEOF else TypeMismatch);
    }
    r := Ok(i);
  }

  method SkipStringAt(raw: bytes, i: nat) returns (r: Skip)
    requires i < |raw| && raw[i] == QUOTE
    ensures r == SkipString(raw, i)
  {
    var d := ReadJSONString(raw[i + 1..]);
    DecodeSuffix(raw, i + 1, 0);
    r := if d.Text? then Ok(i + 1 + d.end) else Fail(d.error);
  }

  method SkipNameLoop(raw: bytes, i0: nat) returns (r: Skip)
    requires i0 < |raw|
    ensures r == SkipName(raw, i0)
  {
    if raw[i0] != QUOTE {
      return Fail(TypeMismatch);
    }
    var k := SkipStringAt(raw, i0);
    if k.Fail? {
      return k;
    }
    var i := SkipSpaceLoop(raw, k.end);
    if i >= |raw| || raw[i] != COLON {
      return Fail(TypeMismatch);
    }
    i := SkipSpaceLoop(raw, i + 1);
    r := Ok(i);
  }

  /** Reading from a suffix of the input gives the same result, at shifted positions. */
  lemma {:induction false} DecodeSuffix(raw: bytes, i: nat, k: nat)
    requires i + k <= |raw|
    ensures var d := Decode(raw[i..], k);
      Decode(raw, i + k) == if d.Text? then Text(d.content, i + d.end) else d
    decreases |raw| - i - k
  {
    var src := raw[i..];
    UnitSuffix(raw, i, k);
    if UnitAt(src, k).Piece? {
      DecodeSuffix(raw, i, UnitAt(src, k).next);
    }
  }

  lemma {:induction false} UnitSuffix(raw: bytes, i: nat, k: nat)
    requires i + k <= |raw|
    ensures var u := UnitAt(raw[i..], k);
      UnitAt(raw, i + k) == if u.Piece? then Piece(u.out, i + u.next) else u
  {
    var src := raw[i..];
    assert forall j | k <= j < |src| :: src[j] == raw[i + j];
    if k + 1 < |src| && src[k] == BACKSLASH && src[k + 1] == LOWER_U {
      HexSuffix(raw, i, k + 2);
      HexSuffix(raw, i, k + 8);
    }
  }

  lemma {:induction false} HexSuffix(raw: bytes, i: nat, k: nat)
    requires i <= |raw|
    ensures IsHex4(raw[i..], k) <==> IsHex4(raw, i + k)
    ensures IsHex4(raw[i..], k) ==> Hex4(raw[i..], k) == Hex4(raw, i + k)
  {
    var src := raw[i..];
    assert src == raw[i..|raw|];
    if i + k + 4 <= |raw| {
      SliceHex(raw, i, |raw|, k);
      if IsHex4(src, k) {
        assert HexRun(src, k, 1) == HexRun(raw, i + k, 1);
        assert HexRun(src, k, 2) == HexRun(raw, i + k, 2);
        assert HexRun(src, k, 3) == HexRun(raw, i + k, 3);
      }
    }
  }

  /** The recursive skipper: recursion for nested values, one loop per composite. */
  method SkipValueStrict(raw: bytes, i0: nat) returns (r: Skip)
    requires i0 <= |raw|
    ensures r == SkipValue(raw, i0)
    decreases |raw| - i0, 0
  {
    var i := i0;
    if i >= |raw| {
      return Fail(UnexpectedEOF);
    }
    if raw[i] == QUOTE {
      r := SkipStringAt(raw, i);
    } else if raw[i] == LBRACE {
      r := SkipCompositeStrict(raw, i, Object);
    } else if raw[i] == LBRACKET {
      r := SkipCompositeStrict(raw, i, Array);
    } else if raw[i] == 0x74 || raw[i] == 0x66 || raw[i] == 0x6E {
      r := ConsumeLiteral(raw, i);
    } else {
      r := SkipToken(raw, i);
    }
  }

  method SkipCompositeStrict(raw: bytes, i0: nat, kind: Kind) returns (r: Skip)
    requires i0 < |raw|
    ensures r == SkipComposite(raw, i0, kind)
    decreases |raw| - i0 - 1, 3
  {
    var i := SkipSpaceLoop(raw, i0 + 1);
    if i >= |raw| {
      return Fail(UnexpectedEOF);
    }
    if raw[i] == Closing(kind) {
      return Ok(i + 1);
    }
    r := SkipItemsStrict(raw, i, kind);
  }

  method SkipItemsStrict(raw: bytes, i0: nat, kind: Kind) returns (r: Skip)
    requires i0 < |raw|
    ensures r == SkipItems(raw, i0, kind)
    decreases |raw| - i0, 2
  {
    var i := i0;
    while true
      invariant i0 <= i < |raw| && SkipItems(raw, i, kind) == SkipItems(raw, i0, kind)
      decreases |raw| - i
    {
      var p := SkipItemStrict(raw, i, kind);
      if p.Stop? {
        return p.result;
      }
      i := p.next;
    }
  }

  /** The body of the composite loop. */
  method SkipItemStrict(raw: bytes, i: nat, kind: Kind) returns (p: Progress)
    requires i < |raw|
    ensures p == SkipItem(raw, i, kind)
    decreases |raw| - i, 1
  {
    var v := i;
    if kind == Object {
      var n := SkipNameLoop(raw, i);
      if n.Fail? {
        return Stop(n);
      }
      v := n.end;
    }
    var e := SkipValueStrict(raw, v);
    if e.Fail? {
      return Stop(e);
    }
    p := AfterValueStrict(raw, e.end, kind);
  }

  method AfterValueStrict(raw: bytes, i: nat, kind: Kind) returns (p: Progress)
    requires i <= |raw|
    ensures p == AfterValue(raw, i, kind)
  {
    var j := SkipSpaceLoop(raw, i);
    if j >= |raw| {
      return Stop(Fail(UnexpectedEOF));
    }
    if raw[j] == COMMA {
      j := SkipSpaceLoop(raw, j + 1);
      return if j >= |raw| then Stop(Fail(UnexpectedEOF)) else Onward(j);
    }
    p := Stop(if raw[j] == Closing(kind) then Ok(j + 1) else Fail(TypeMismatch));
  }
}
