/** Reading a JSON string whose opening quote has been consumed: RFC 8259 section 7, byte by byte. */
module StringDecoder {
  import opened Bytes
  import opened Simd
  import opened Strings

  datatype Decoded = Text(content: bytes, end: nat) | Fault(error: Error) {
    /** The same result with `prefix` decoded in front of it. */
    function After(prefix: bytes): Decoded {
      if Text? then Text(prefix + content, end) else this
    }
  }

  /** What one step of the decoder does at `i`. */
  datatype Unit = Piece(out: bytes, next: nat) | Closed | Bad(error: Error)

  const LOWER_U: byte := 0x75
  const REPLACEMENT: nat := 0xFFFD

  predicate IsSimpleEscape(e: byte) {
    e == QUOTE || e == BACKSLASH || e == 0x2F || e == 0x6E || e == 0x74 || e == 0x72 || e == 0x62 || e == 0x66
  }

  function SimpleEscape(e: byte): (c: byte)
    requires IsSimpleEscape(e)
    ensures c < 0x80
  {
    if e == 0x6E then NEWLINE
    else if e == 0x74 then TAB
    else if e == 0x72 then RETURN
    else if e == 0x62 then 0x08
    else if e == 0x66 then 0x0C
    else e
  }

  /** The escape \uXXXX, whose `u` is at i + 1: a pair of surrogates counts as one step. */
  function UnicodeUnit(src: bytes, i: nat): (u: Unit)
    requires i + 1 < |src|
    ensures u.Piece? ==> i < u.next <= |src| && |u.out| <= u.next - i
  {
    if i + 6 > |src| || !IsHex4(src, i + 2) then Bad(TypeMismatch)
    else
      var r := Hex4(src, i + 2);
      if !IsSurrogate(r) then Piece(EncodeRune(r), i + 6)
      else if i + 12 <= |src| && src[i + 6] == BACKSLASH && src[i + 7] == LOWER_U
           && IsHex4(src, i + 8) && IsPair(r, Hex4(src, i + 8)) then
        Piece(EncodeRune(Combine(r, Hex4(src, i + 8))), i + 12)
      else Piece(EncodeRune(REPLACEMENT), i + 6)
  }

  function UnitAt(src: bytes, i: nat): (u: Unit)
    requires i <= |src|
    ensures u.Piece? ==> i < u.next <= |src| && |u.out| <= u.next - i
    ensures u.Closed? <==> i < |src| && src[i] == QUOTE
  {
    if i == |src| then Bad(UnexpectedEOF)
    else if src[i] == QUOTE then Closed
    else if src[i] != BACKSLASH then Piece([src[i]], i + 1)
    else if i + 1 == |src| then Bad(UnexpectedEOF)
    else if IsSimpleEscape(src[i + 1]) then Piece([SimpleEscape(src[i + 1])], i + 2)
    else if src[i + 1] == LOWER_U then UnicodeUnit(src, i)
    else Bad(TypeMismatch)
  }

  /** The decoded string that starts at `i`, and the index after its closing quote. */
  function Decode(src: bytes, i: nat): (d: Decoded)
    requires i <= |src|
    ensures d.Text? ==> i < d.end <= |src| && src[d.end - 1] == QUOTE
    ensures d.Text? ==> |d.content| < d.end - i
    decreases |src| - i
  {
    match UnitAt(src, i)
    case Closed => Text([], i + 1)
    case Bad(e) => Fault(e)
    case Piece(out, next) => Decode(src, next).After(out)
  }

  lemma {:induction false} AfterAfter(a: bytes, b: bytes, d: Decoded)
    ensures d.After(b).After(a) == d.After(a + b)
  {
    if d.Text? {
      assert a + (b + d.content) == a + b + d.content;
    }
  }

  // ----- the decoder loop -----

  /** Decodes into a buffer whose capacity is the input length; the decoded text always fits. */
  method DecodeEscapedString(src: bytes) returns (d: Decoded)
    ensures d == Decode(src, 0)
  {
    var buf := new byte[|src|];
    var n, i := 0, 0;
    while true
      invariant n <= i <= |src|
      invariant Decode(src, 0) == Decode(src, i).After(buf[..n])
      decreases |src| - i
    {
      ghost var before := buf[..n];
      assert Text([], i + 1).After(before) == Text(before, i + 1);
      if i >= |src| {
        return Fault(UnexpectedEOF);
      }
      var c := src[i];
      var out, next;
      if c == QUOTE {
        return Text(buf[..n], i + 1);
      } else if c != BACKSLASH {
        out, next := [c], i + 1;
      } else if i + 1 >= |src| {
        return Fault(UnexpectedEOF);
      } else if IsSimpleEscape(src[i + 1]) {
        out, next := [SimpleEscape(src[i + 1])], i + 2;
      } else if src[i + 1] == LOWER_U {
        var ok;
        ok, out, next := DecodeUnicode(src, i);
        if !ok {
          return Fault(TypeMismatch);
        }
      } else {
        return Fault(TypeMismatch);
      }
      assert UnitAt(src, i) == Piece(out, next);
      AfterAfter(before, out, Decode(src, next));
      Append(buf, n, out);
      n, i := n + |out|, next;
      assert buf[..n] == before + out;
    }
  }

  method Append(buf: array<byte>, n: nat, out: bytes)
    requires n + |out| <= buf.Length
    modifies buf
    ensures buf[..n + |out|] == old(buf[..n]) + out
  {
    var k := 0;
    while k < |out|
      invariant k <= |out| && buf[..n + k] == old(buf[..n]) + out[..k]
    {
      buf[n + k] := out[k];
      k := k + 1;
    }
    assert out[..k] == out;
  }

  method DecodeUnicode(src: bytes, i0: nat) returns (ok: bool, out: bytes, next: nat)
    requires i0 + 1 < |src|
    ensures UnicodeUnit(src, i0) == if ok then Piece(out, next) else Bad(TypeMismatch)
  {
    var i := i0 + 2;
    ok, out, next := false, [], i;
    if i + 4 > |src| {
      return;
    }
    var r;
    r, ok := ParseHex4(src, i);
    if !ok {
      return;
    }
    i := i + 4;
    if IsSurrogate(r) {
      if i + 6 <= |src| && src[i] == BACKSLASH && src[i + 1] == LOWER_U {
        var r2, ok2 := ParseHex4(src, i + 2);
        if ok2 && IsPair(r, r2) {
          return true, EncodeRune(Combine(r, r2)), i + 6;
        }
      }
      r := REPLACEMENT;
    }
    out, next := EncodeRune(r), i;
  }

  lemma {:induction false} PlainPrefix(src: bytes, i: nat, j: nat)
    requires i <= j <= |src|
    requires forall k | i <= k < j :: !IsSpecial(src[k])
    ensures Decode(src, i) == Decode(src, j).After(src[i..j])
    decreases j - i
  {
    var d := Decode(src, j);
    if i < j {
      PlainPrefix(src, i + 1, j);
      AfterAfter([src[i]], src[i + 1..j], d);
      assert src[i..j] == [src[i]] + src[i + 1..j];
    } else if d.Text? {
      assert src[i..j] + d.content == d.content;
    }
  }

  /** Strings without escapes are returned as they stand; the others go through the decoder. */
  method ReadJSONString(src: bytes) returns (d: Decoded)
    ensures d == Decode(src, 0)
  {
    var idx, isEscape := FindQuoteOrEscapeAVX2(src);
    var j := FirstSpecial(src, 0);
    PlainPrefix(src, 0, j);
    if idx < 0 {
      return Fault(UnexpectedEOF);
    }
    if !isEscape {
      assert src[..idx] == src[0..idx] + [];
      return Text(src[..idx], idx + 1);
    }
    d := DecodeEscapedString(src);
  }

  // ----- the grammar of string bodies -----

  /** RFC 8259 section 7 without its ban on raw control characters, over arbitrary bytes. */
  predicate IsBody(b: bytes) {
    b == [] ||
    if b[0] == BACKSLASH then
      |b| >= 2 &&
      if b[1] == LOWER_U then |b| >= 6 && IsHex4(b, 2) && IsBody(b[6..]) else IsSimpleEscape(b[1]) && IsBody(b[2..])
    else b[0] != QUOTE && IsBody(b[1..])
  }

  lemma {:induction false} SliceHex(src: bytes, i: nat, e: nat, k: nat)
    requires i <= e <= |src| && k + 4 <= e - i
    ensures IsHex4(src[i..e], k) <==> IsHex4(src, i + k)
  {
    var b := src[i..e];
    if IsHex4(src, i + k) {
      assert forall j | k <= j < k + 4 :: b[j] == src[i + j];
    }
    if IsHex4(b, k) {
      forall j | i + k <= j < i + k + 4 ensures IsHex(src[j]) {
        assert b[j - i] == src[j];
      }
    }
  }

  /** Every body followed by a quote is read to that quote. */
  lemma {:induction false} BodyIsDecoded(src: bytes, i: nat, e: nat)
    requires i <= e < |src| && src[e] == QUOTE && IsBody(src[i..e])
    ensures Decode(src, i).Text? && Decode(src, i).end == e + 1
    decreases e - i
  {
    var b := src[i..e];
    if i < e {
      assert b[0] == src[i];
      if b[0] != BACKSLASH {
        assert b[1..] == src[i + 1..e];
        BodyIsDecoded(src, i + 1, e);
      } else {
        assert b[1] == src[i + 1];
        if b[1] == LOWER_U {
          SliceHex(src, i, e, 2);
          assert b[6..] == src[i + 6..e];
          BodyAfterUnicode(src, i, e);
          BodyIsDecoded(src, UnitAt(src, i).next, e);
        } else {
          assert b[2..] == src[i + 2..e];
          BodyIsDecoded(src, i + 2, e);
        }
      }
    }
  }

  /** A step over \uXXXX, or over a pair of them, stays inside the body. */
  lemma {:induction false} BodyAfterUnicode(src: bytes, i: nat, e: nat)
    requires i + 6 <= e < |src| && src[e] == QUOTE && src[i] == BACKSLASH && src[i + 1] == LOWER_U
    requires IsHex4(src, i + 2) && IsBody(src[i + 6..e])
    ensures UnitAt(src, i).Piece? && UnitAt(src, i).next <= e && IsBody(src[UnitAt(src, i).next..e])
  {
    if UnitAt(src, i).next == i + 12 {
      var c := src[i + 6..e];
      assert i + 6 != e;
      assert c[0] == src[i + 6] == BACKSLASH;
      assert c[1] == src[i + 7] == LOWER_U;
      assert c[6..] == src[i + 12..e];
    }
  }

  /** Whatever is read is a body and its closing quote. */
  lemma {:induction false} DecodedIsBody(src: bytes, i: nat)
    requires i <= |src| && Decode(src, i).Text?
    ensures IsBody(src[i..Decode(src, i).end - 1])
    decreases |src| - i
  {
    var e := Decode(src, i).end - 1;
    var b := src[i..e];
    match UnitAt(src, i)
    case Closed =>
    case Piece(out, next) =>
      DecodedIsBody(src, next);
      assert b[0] == src[i];
      if src[i] == BACKSLASH {
        assert b[1] == src[i + 1];
        if src[i + 1] == LOWER_U {
          SliceHex(src, i, e, 2);
          BodyBeforeUnicode(src, i, e);
          assert b[6..] == src[i + 6..e];
        } else {
          assert b[2..] == src[i + 2..e];
        }
      } else {
        assert b[1..] == src[i + 1..e];
      }
  }

  lemma {:induction false} BodyBeforeUnicode(src: bytes, i: nat, e: nat)
    requires i + 1 < |src| && src[i] == BACKSLASH && src[i + 1] == LOWER_U && UnicodeUnit(src, i).Piece?
    requires UnicodeUnit(src, i).next <= e <= |src| && IsBody(src[UnicodeUnit(src, i).next..e])
    ensures IsBody(src[i + 6..e])
  {
    if UnicodeUnit(src, i).next == i + 12 {
      var c := src[i + 6..e];
      assert c[0] == src[i + 6] && c[1] == src[i + 7];
      SliceHex(src, i + 6, e, 2);
      assert c[6..] == src[i + 12..e];
    }
  }

  // ----- UTF-8 in, UTF-8 out -----

  lemma {:induction false} Utf8DropAscii(s: bytes)
    requires s != [] && s[0] < 0x80
    ensures IsUtf8(s) <==> IsUtf8(s[1..])
  {
  }

  lemma {:induction false} Utf8DropAsciiRun(src: bytes, i: nat, j: nat, e: nat)
    requires i <= j <= e <= |src| && IsUtf8(src[i..e])
    requires forall k | i <= k < j :: src[k] < 0x80
    ensures IsUtf8(src[j..e])
    decreases j - i
  {
    if i < j {
      assert src[i..e][0] == src[i] && src[i..e][1..] == src[i + 1..e];
      Utf8DropAscii(src[i..e]);
      Utf8DropAsciiRun(src, i + 1, j, e);
    }
  }

  /** A step that is not a raw non-ASCII byte consumes ASCII and produces one well-formed character. */
  lemma {:induction false} StepIsCharacter(src: bytes, i: nat, rest: bytes)
    requires i < |src| && UnitAt(src, i).Piece? && src[i] < 0x80
    ensures forall k | i <= k < UnitAt(src, i).next :: src[k] < 0x80
    ensures CharLength(UnitAt(src, i).out + rest) == |UnitAt(src, i).out| > 0
  {
    if src[i] == BACKSLASH && src[i + 1] == LOWER_U {
      var r := Hex4(src, i + 2);
      if !IsSurrogate(r) {
        RuneRoundTrip(r, rest);
      } else if UnitAt(src, i).next == i + 12 {
        RuneRoundTrip(Combine(r, Hex4(src, i + 8)), rest);
      } else {
        RuneRoundTrip(REPLACEMENT, rest);
      }
    }
  }

  /** A raw multi-byte character is copied as it stands. */
  lemma {:induction false} RawCharacter(src: bytes, i: nat, e: nat, n: nat, rest: bytes)
    requires i < e < |src| && src[i] >= 0x80 && IsUtf8(src[i..e]) && n == CharLength(src[i..e])
    ensures 0 < n <= e - i && IsUtf8(src[i + n..e])
    ensures Decode(src, i) == Decode(src, i + n).After(src[i..i + n])
    ensures CharLength(src[i..i + n] + rest) == n
  {
    var b := src[i..e];
    assert b[0] == src[i];
    assert b[n..] == src[i + n..e];
    forall k | i <= k < i + n ensures !IsSpecial(src[k]) {
      assert b[k - i] == src[k];
    }
    PlainPrefix(src, i, i + n);
    SameCharacter(b, src[i..i + n] + rest, n);
  }

  /** One decoded character `u`, read from the `n` bytes at `i`. */
  lemma {:induction false} AsciiCharacter(src: bytes, i: nat, e: nat) returns (n: nat, u: bytes)
    requires i < e < |src| && Decode(src, i).Text? && e == Decode(src, i).end - 1 && IsUtf8(src[i..e]) && src[i] < 0x80
    ensures 0 < n <= e - i && IsUtf8(src[i + n..e]) && Decode(src, i + n).Text?
    ensures Decode(src, i) == Decode(src, i + n).After(u)
    ensures CharLength(u + Decode(src, i + n).content) == |u| > 0
  {
    var unit := UnitAt(src, i);
    StepIsCharacter(src, i, Decode(src, unit.next).content);
    Utf8DropAsciiRun(src, i, unit.next, e);
    n, u := unit.next - i, unit.out;
  }

  lemma {:induction false} OtherCharacter(src: bytes, i: nat, e: nat) returns (n: nat, u: bytes)
    requires i < e < |src| && Decode(src, i).Text? && e == Decode(src, i).end - 1 && IsUtf8(src[i..e]) && src[i] >= 0x80
    ensures 0 < n <= e - i && IsUtf8(src[i + n..e]) && Decode(src, i + n).Text?
    ensures Decode(src, i) == Decode(src, i + n).After(u)
    ensures CharLength(u + Decode(src, i + n).content) == |u| > 0
  {
    n := CharLength(src[i..e]);
    RawCharacter(src, i, e, n, []);
    u := src[i..i + n];
    RawCharacter(src, i, e, n, Decode(src, i + n).content);
  }

  /** Well-formed UTF-8 bodies decode to well-formed UTF-8. */
  lemma {:induction false} DecodePreservesUtf8(src: bytes, i: nat, e: nat)
    requires i <= e < |src| && Decode(src, i).Text? && e == Decode(src, i).end - 1
    requires IsUtf8(src[i..e])
    ensures IsUtf8(Decode(src, i).content)
    decreases e - i
  {
    if i == e {
      EndsAtOnce(src, i);
    } else {
      if src[i] < 0x80 {
        var n, u := AsciiCharacter(src, i, e);
        DecodePreservesUtf8(src, i + n, e);
        Utf8Cons(u, Decode(src, i + n).content);
      } else {
        var n, u := OtherCharacter(src, i, e);
        DecodePreservesUtf8(src, i + n, e);
        Utf8Cons(u, Decode(src, i + n).content);
      }
    }
  }

  lemma {:induction false} EndsAtOnce(src: bytes, i: nat)
    requires i <= |src| && Decode(src, i).Text? && Decode(src, i).end == i + 1
    ensures Decode(src, i).content == []
  {
  }

  lemma {:induction false} SameCharacter(s: bytes, t: bytes, n: nat)
    requires CharLength(s) == n > 0 && n <= |t| && s[..n] == t[..n]
    ensures CharLength(t) == n
  {
    assert forall k | 0 <= k < n :: s[k] == s[..n][k] && t[k] == t[..n][k];
  }
}
