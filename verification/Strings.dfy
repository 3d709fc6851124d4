/** JSON string bodies: grammar, decoding with surrogate pairs, and UTF-8. */
module Strings {
  import opened Bytes

  datatype Error = UnexpectedEOF | TypeMismatch

  // ----- \uXXXX -----

  predicate IsHex(c: byte) {
    IsDigit(c) || 0x61 <= c <= 0x66 || 0x41 <= c <= 0x46
  }

  function HexValue(c: byte): (v: nat)
    requires IsHex(c)
    ensures v < 16
  {
    if IsDigit(c) then c - 0x30 else if c >= 0x61 then c - 0x61 + 10 else c - 0x41 + 10
  }

  /** `n` hexadecimal digits at `i`. */
  predicate HexAt(src: bytes, i: nat, n: nat) {
    i + n <= |src| && forall j | i <= j < i + n :: IsHex(src[j])
  }

  function HexRun(src: bytes, i: nat, n: nat): (r: nat)
    requires HexAt(src, i, n)
  {
    if n == 0 then 0 else 16 * HexRun(src, i, n - 1) + HexValue(src[i + n - 1])
  }

  predicate IsHex4(src: bytes, i: nat) {
    HexAt(src, i, 4)
  }

  function Hex4(src: bytes, i: nat): (r: nat)
    requires IsHex4(src, i)
    ensures r < 0x10000
  {
    assert HexRun(src, i, 1) < 0x10;
    assert HexRun(src, i, 2) < 0x100;
    assert HexRun(src, i, 3) < 0x1000;
    HexRun(src, i, 4)
  }

  method ParseHex4(src: bytes, i: nat) returns (v: nat, ok: bool)
    requires i + 4 <= |src|
    ensures ok <==> IsHex4(src, i)
    ensures ok ==> v == Hex4(src, i)
  {
    v := 0;
    var k := i;
    while k < i + 4
      invariant i <= k <= i + 4 && HexAt(src, i, k - i) && v == HexRun(src, i, k - i)
    {
      var c := src[k];
      v := v * 16;
      if IsDigit(c) {
        v := v + (c - 0x30);
      } else if 0x61 <= c <= 0x66 {
        v := v + (c - 0x61) + 10;
      } else if 0x41 <= c <= 0x46 {
        v := v + (c - 0x41) + 10;
      } else {
        return 0, false;
      }
      k := k + 1;
    }
    ok := true;
  }

  predicate IsSurrogate(r: nat) {
    0xD800 <= r < 0xE000
  }

  /** A high and a low surrogate combine to one supplementary code point. */
  predicate IsPair(hi: nat, lo: nat) {
    0xD800 <= hi < 0xDC00 && 0xDC00 <= lo < 0xE000
  }

  function Combine(hi: nat, lo: nat): (r: nat)
    requires IsPair(hi, lo)
    ensures 0x10000 <= r < 0x110000
  {
    (hi - 0xD800) * 0x400 + (lo - 0xDC00) + 0x10000
  }

  /** The two units by which UTF-16 writes a supplementary code point: its offset from 0x10000 in base 0x400. */
  function SplitUtf16(r: nat): (nat, nat)
    requires 0x10000 <= r < 0x110000
  {
    (0xD800 + (r - 0x10000) / 0x400, 0xDC00 + (r - 0x10000) % 0x400)
  }

  /** Combining inverts UTF-16 on every supplementary code point. */
  lemma {:induction false} CombineInvertsUtf16(r: nat)
    requires 0x10000 <= r < 0x110000
    ensures var (hi, lo) := SplitUtf16(r); IsPair(hi, lo) && Combine(hi, lo) == r
  {
    var d := r - 0x10000;
    assert d == d / 0x400 * 0x400 + d % 0x400;
  }

  /** Every pair is the split of the code point it combines to. */
  lemma {:induction false} Utf16InvertsCombine(hi: nat, lo: nat)
    requires IsPair(hi, lo)
    ensures SplitUtf16(Combine(hi, lo)) == (hi, lo)
  {
    var d := Combine(hi, lo) - 0x10000;
    assert d / 0x400 == hi - 0xD800 && d % 0x400 == lo - 0xDC00;
  }

  // ----- UTF-8 (RFC 3629) -----

  predicate IsScalar(r: nat) {
    r < 0x110000 && !IsSurrogate(r)
  }

  function EncodeRune(r: nat): (u: bytes)
    requires IsScalar(r)
    ensures 1 <= |u| <= 4 && (r < 0x10000 ==> |u| <= 3)
  {
    if r < 0x80 then [r]
    else if r < 0x800 then [0xC0 + r / 0x40, 0x80 + r % 0x40]
    else if r < 0x10000 then [0xE0 + r / 0x1000, 0x80 + r / 0x40 % 0x40, 0x80 + r % 0x40]
    else [0xF0 + r / 0x40000, 0x80 + r / 0x1000 % 0x40, 0x80 + r / 0x40 % 0x40, 0x80 + r % 0x40]
  }

  predicate Tail(c: byte) {
    0x80 <= c <= 0xBF
  }

  /** The length of the well-formed character at the front of `s` (RFC 3629 section 4), or 0. */
  function CharLength(s: bytes): (n: nat)
    ensures n <= |s| && n <= 4
  {
    if s == [] then 0
    else if s[0] < 0x80 then 1
    else if 0xC2 <= s[0] <= 0xDF then
      if |s| >= 2 && Tail(s[1]) then 2 else 0
    else if 0xE0 <= s[0] <= 0xEF then
      if |s| >= 3 && Tail(s[1]) && Tail(s[2])
         && (s[0] == 0xE0 ==> s[1] >= 0xA0) && (s[0] == 0xED ==> s[1] <= 0x9F) then 3 else 0
    else if 0xF0 <= s[0] <= 0xF4 then
      if |s| >= 4 && Tail(s[1]) && Tail(s[2]) && Tail(s[3])
         && (s[0] == 0xF0 ==> s[1] >= 0x90) && (s[0] == 0xF4 ==> s[1] <= 0x8F) then 4 else 0
    else 0
  }

  predicate IsUtf8(s: bytes) {
    s == [] || (CharLength(s) > 0 && IsUtf8(s[CharLength(s)..]))
  }

  /** The code point of the character at the front of `s`. */
  function CharValue(s: bytes): nat
    requires CharLength(s) > 0
  {
    var lead: int, n := s[0], CharLength(s);
    if n == 1 then lead
    else if n == 2 then 0x40 * (lead - 0xC0) + (s[1] - 0x80)
    else if n == 3 then 0x1000 * (lead - 0xE0) + TailBits(s, 1)
    else 0x40000 * (lead - 0xF0) + 0x1000 * (s[1] as int - 0x80) + TailBits(s, 2)
  }

  /** The twelve bits that the two continuation bytes at `k` carry. */
  function TailBits(s: bytes, k: nat): int
    requires k + 1 < |s|
  {
    0x40 * (s[k] as int - 0x80) + (s[k + 1] as int - 0x80)
  }

  /** Encoding a code point gives one well-formed character, and that character denotes it. */
  lemma {:induction false} RuneRoundTrip(r: nat, rest: bytes)
    requires IsScalar(r)
    ensures CharLength(EncodeRune(r) + rest) == |EncodeRune(r)|
    ensures CharValue(EncodeRune(r) + rest) == r
  {
    var u := EncodeRune(r);
    var s := u + rest;
    assert forall k | 0 <= k < |u| :: s[k] == u[k];
    if r >= 0x10000 {
      assert r / 0x40 == r / 0x1000 * 0x40 + r / 0x40 % 0x40;
      assert r / 0x1000 == r / 0x40000 * 0x40 + r / 0x1000 % 0x40;
    } else if r >= 0x800 {
      assert r / 0x40 == r / 0x1000 * 0x40 + r / 0x40 % 0x40;
    }
  }

  /** A well-formed character in front of well-formed text. */
  lemma {:induction false} Utf8Cons(u: bytes, rest: bytes)
    requires CharLength(u + rest) == |u| > 0 && IsUtf8(rest)
    ensures IsUtf8(u + rest)
  {
    assert (u + rest)[|u|..] == rest;
  }
}
