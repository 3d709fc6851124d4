/** Bytes, the characters JSON gives a meaning to, and the whitespace scan every component shares. */
module Bytes {
  type byte = x: int | 0 <= x < 256
  type bytes = seq<byte>

  const SPACE: byte := 0x20
  const TAB: byte := 0x09
  const NEWLINE: byte := 0x0A
  const RETURN: byte := 0x0D
  const QUOTE: byte := 0x22
  const BACKSLASH: byte := 0x5C
  const COMMA: byte := 0x2C
  const COLON: byte := 0x3A
  const LBRACE: byte := 0x7B
  const RBRACE: byte := 0x7D
  const LBRACKET: byte := 0x5B
  const RBRACKET: byte := 0x5D

  predicate IsSpace(c: byte) {
    c == SPACE || c == TAB || c == NEWLINE || c == RETURN
  }

  predicate IsOpen(c: byte) {
    c == LBRACE || c == LBRACKET
  }

  predicate IsDigit(c: byte) {
    0x30 <= c <= 0x39
  }

  /** The bytes that end an unquoted token: structure characters and whitespace. */
  predicate EndsToken(c: byte) {
    IsSpace(c) || c == COMMA || c == COLON || c == LBRACE || c == RBRACE || c == LBRACKET || c == RBRACKET
  }

  predicate AllSpace(s: bytes) {
    forall k | 0 <= k < |s| :: IsSpace(s[k])
  }

  predicate AllDigits(s: bytes) {
    forall k | 0 <= k < |s| :: IsDigit(s[k])
  }

  /** Whitespace from `i` up to `j`. */
  predicate Blank(data: bytes, i: nat, j: nat) {
    i <= j <= |data| && forall k | i <= k < j :: IsSpace(data[k])
  }

  lemma {:induction false} BlankSlice(data: bytes, i: nat, j: nat)
    requires i <= j <= |data|
    ensures Blank(data, i, j) <==> AllSpace(data[i..j])
  {
    var w := data[i..j];
    assert forall k | i <= k < j :: data[k] == w[k - i];
  }

  /** The first index at or after `i` that does not hold whitespace, or the end of the data. */
  function SkipSpace(data: bytes, i: nat): (j: nat)
    requires i <= |data|
    ensures i <= j <= |data| && (j < |data| ==> !IsSpace(data[j]))
    decreases |data| - i
  {
    if i < |data| && IsSpace(data[i]) then SkipSpace(data, i + 1) else i
  }

  /** What the whitespace scan passes over is whitespace. */
  lemma {:induction false} SkipSpaceBlank(data: bytes, i: nat)
    requires i <= |data|
    ensures Blank(data, i, SkipSpace(data, i)) && AllSpace(data[i..SkipSpace(data, i)])
    decreases |data| - i
  {
    if i < |data| && IsSpace(data[i]) {
      SkipSpaceBlank(data, i + 1);
    }
    BlankSlice(data, i, SkipSpace(data, i));
  }

  method SkipSpaceLoop(data: bytes, start: nat) returns (i: nat)
    requires start <= |data|
    ensures i == SkipSpace(data, start)
  {
    i := start;
    while i < |data| && IsSpace(data[i])
      invariant start <= i <= |data|
      invariant SkipSpace(data, i) == SkipSpace(data, start)
    {
      i := i + 1;
    }
  }

  /** The whitespace scan stops where whitespace stops, wherever the data continues from there. */
  lemma {:induction false} SkipSpaceStops(data: bytes, i: nat, j: nat)
    requires i <= j <= |data|
    requires AllSpace(data[i..j])
    requires j < |data| ==> !IsSpace(data[j])
    ensures SkipSpace(data, i) == j
    decreases j - i
  {
    if i < j {
      assert data[i] == data[i..j][0];
      assert data[i + 1..j] == data[i..j][1..];
      SkipSpaceStops(data, i + 1, j);
    }
  }

  /** The byte `c` stands at `i`. */
  predicate Is(raw: bytes, i: nat, c: byte) {
    i < |raw| && raw[i] == c
  }

  /** The text stands in `raw` at position `i`. */
  predicate At(raw: bytes, i: nat, text: bytes) {
    i + |text| <= |raw| && forall k {:trigger text[k]} | 0 <= k < |text| :: raw[i + k] == text[k]
  }

  lemma {:induction false} AtSlice(raw: bytes, i: nat, text: bytes)
    ensures At(raw, i, text) <==> i + |text| <= |raw| && raw[i..i + |text|] == text
  {
    if i + |text| <= |raw| {
      var w := raw[i..i + |text|];
      assert forall k | 0 <= k < |text| :: w[k] == raw[i + k];
    }
  }

  lemma {:induction false} AtSplit(raw: bytes, i: nat, a: bytes, b: bytes)
    ensures At(raw, i, a + b) <==> At(raw, i, a) && At(raw, i + |a|, b)
  {
    var t := a + b;
    assert forall k | 0 <= k < |a| :: t[k] == a[k];
    assert forall k | 0 <= k < |b| :: t[|a| + k] == b[k];
    if At(raw, i, a) && At(raw, i + |a|, b) {
      forall k | 0 <= k < |t| ensures raw[i + k] == t[k] {
        if k >= |a| {
          assert raw[i + |a| + (k - |a|)] == b[k - |a|];
        }
      }
    }
  }

  lemma {:induction false} AtByte(raw: bytes, i: nat, c: byte)
    ensures At(raw, i, [c]) <==> i < |raw| && raw[i] == c
  {
    assert [c][0] == c;
  }
}
