/** What the escapes of a JSON string denote (RFC 8259 section 7), by a digit table of its own. */
module StringEscapes {
  import opened Bytes
  import opened Strings
  import opened StringDecoder

  // ----- four digits that spell a number -----

  /** The sixteen digits in order, in lower and in upper case. */
  const LOWER_DIGITS: bytes :=
    [0x30, 0x31, 0x32, 0x33, 0x34, 0x35, 0x36, 0x37, 0x38, 0x39, 0x61, 0x62, 0x63, 0x64, 0x65, 0x66]
  const UPPER_DIGITS: bytes :=
    [0x30, 0x31, 0x32, 0x33, 0x34, 0x35, 0x36, 0x37, 0x38, 0x39, 0x41, 0x42, 0x43, 0x44, 0x45, 0x46]

  /** The digit `c`, in either case, stands for `v`. */
  predicate Spells(c: byte, v: nat) {
    v < 16 && (c == LOWER_DIGITS[v] || c == UPPER_DIGITS[v])
  }

  /** At `i` stands a backslash, a `u`, and four digits that spell `r`. */
  predicate EscapeAt(src: bytes, i: nat, r: nat) {
    && i + 6 <= |src| && src[i] == 0x5C && src[i + 1] == 0x75
    && Spells(src[i + 2], r / 0x1000) && Spells(src[i + 3], r / 0x100 % 0x10)
    && Spells(src[i + 4], r / 0x10 % 0x10) && Spells(src[i + 5], r % 0x10)
  }

  /** From `i` on the string reads as the bytes `u` and then as it reads from `next` on. */
  predicate ReadsAs(src: bytes, i: nat, u: bytes, next: nat) {
    && i <= next <= |src|
    && var d, rest := Decode(src, i), Decode(src, next);
       if rest.Text? then d == Text(u + rest.content, rest.end) else d == rest
  }

  /** A byte is a digit exactly if it spells some number, and only that one. */
  lemma {:induction false} DigitSpells(c: byte, v: nat)
    requires v < 16
    ensures Spells(c, v) <==> IsHex(c) && HexValue(c) == v
  {
  }

  lemma {:induction false} SpelledHex(src: bytes, i: nat, r: nat)
    requires EscapeAt(src, i, r)
    ensures r < 0x10000 && IsHex4(src, i + 2) && Hex4(src, i + 2) == r
  {
    DigitSpells(src[i + 2], r / 0x1000);
    DigitSpells(src[i + 3], r / 0x100 % 0x10);
    DigitSpells(src[i + 4], r / 0x10 % 0x10);
    DigitSpells(src[i + 5], r % 0x10);
    HexDigits(src, i + 2);
    Positional(r);
  }

  lemma {:induction false} Positional(r: nat)
    ensures r == 0x1000 * (r / 0x1000) + 0x100 * (r / 0x100 % 0x10) + 0x10 * (r / 0x10 % 0x10) + r % 0x10
  {
    assert r / 0x100 == 0x10 * (r / 0x1000) + r / 0x100 % 0x10;
    assert r / 0x10 == 0x10 * (r / 0x100) + r / 0x10 % 0x10;
  }

  lemma {:induction false} Digits(a: nat, b: nat, c: nat, d: nat, r: nat)
    requires a < 16 && b < 16 && c < 16 && d < 16 && r == 0x1000 * a + 0x100 * b + 0x10 * c + d
    ensures r / 0x1000 == a && r / 0x100 % 0x10 == b && r / 0x10 % 0x10 == c && r % 0x10 == d
  {
    assert r / 0x10 == 0x100 * a + 0x10 * b + c;
    assert r / 0x100 == 0x10 * a + b;
  }

  lemma {:induction false} HexDigits(src: bytes, i: nat)
    requires IsHex4(src, i)
    ensures Hex4(src, i) ==
            0x1000 * HexValue(src[i]) + 0x100 * HexValue(src[i + 1]) + 0x10 * HexValue(src[i + 2]) +
            HexValue(src[i + 3])
  {
    assert HexRun(src, i, 0) == 0;
    assert HexRun(src, i, 1) == HexValue(src[i]);
    assert HexRun(src, i, 2) == 0x10 * HexValue(src[i]) + HexValue(src[i + 1]);
    assert HexRun(src, i, 3) == 0x100 * HexValue(src[i]) + 0x10 * HexValue(src[i + 1]) + HexValue(src[i + 2]);
  }

  lemma {:induction false} HexIsSpelled(src: bytes, i: nat) returns (r: nat)
    requires i + 6 <= |src| && src[i] == 0x5C && src[i + 1] == 0x75 && IsHex4(src, i + 2)
    ensures r == Hex4(src, i + 2) && EscapeAt(src, i, r)
  {
    r := Hex4(src, i + 2);
    HexDigits(src, i + 2);
    Digits(HexValue(src[i + 2]), HexValue(src[i + 3]), HexValue(src[i + 4]), HexValue(src[i + 5]), r);
    DigitSpells(src[i + 2], r / 0x1000);
    DigitSpells(src[i + 3], r / 0x100 % 0x10);
    DigitSpells(src[i + 4], r / 0x10 % 0x10);
    DigitSpells(src[i + 5], r % 0x10);
  }

  // ----- what the escapes denote -----

  /** Every code point below 0x10000 that is no surrogate, spelled in either case, is read as its character. */
  lemma {:induction false} EscapeDenotes(src: bytes, i: nat, r: nat) returns (u: bytes)
    requires EscapeAt(src, i, r) && !(0xD800 <= r < 0xE000)
    ensures ReadsAs(src, i, u, i + 6) && CharLength(u) == |u| > 0 && CharValue(u) == r
  {
    SpelledHex(src, i, r);
    u := EncodeRune(r);
    RuneRoundTrip(r, []);
    assert u + [] == u;
    assert UnitAt(src, i) == Piece(u, i + 6);
  }

  /** Every code point from 0x10000 on is read from the two escapes by which UTF-16 writes it. */
  lemma {:induction false} PairDenotes(src: bytes, i: nat, r: nat) returns (u: bytes)
    requires 0x10000 <= r < 0x110000
    requires var (hi, lo) := SplitUtf16(r); EscapeAt(src, i, hi) && EscapeAt(src, i + 6, lo)
    ensures ReadsAs(src, i, u, i + 12) && CharLength(u) == |u| > 0 && CharValue(u) == r
  {
    var (hi, lo) := SplitUtf16(r);
    SpelledHex(src, i, hi);
    SpelledHex(src, i + 6, lo);
    CombineInvertsUtf16(r);
    u := EncodeRune(r);
    RuneRoundTrip(r, []);
    assert u + [] == u;
    assert UnitAt(src, i) == Piece(u, i + 12);
  }

  /** A mate stands at `i` for the high surrogate `r`. */
  ghost predicate HasMate(src: bytes, i: nat, r: nat) {
    r < 0xDC00 && exists lo :: 0xDC00 <= lo < 0xE000 && EscapeAt(src, i, lo)
  }

  /** A surrogate without its mate is read as U+FFFD, and what follows it is read on its own. */
  lemma {:induction false} LoneSurrogate(src: bytes, i: nat, r: nat)
    requires EscapeAt(src, i, r) && 0xD800 <= r < 0xE000 && !HasMate(src, i + 6, r)
    ensures ReadsAs(src, i, [0xEF, 0xBF, 0xBD], i + 6)
  {
    SpelledHex(src, i, r);
    if i + 12 <= |src| && src[i + 6] == 0x5C && src[i + 7] == 0x75 && IsHex4(src, i + 8) {
      var lo := HexIsSpelled(src, i + 6);
      assert !IsPair(r, lo);
    }
    assert EncodeRune(REPLACEMENT) == [0xEF, 0xBF, 0xBD];
    assert UnitAt(src, i) == Piece([0xEF, 0xBF, 0xBD], i + 6);
  }

  /** The eight simple escapes and what they denote. */
  const SIMPLE: map<byte, byte> :=
    map[0x22 := 0x22, 0x5C := 0x5C, 0x2F := 0x2F, 0x62 := 0x08, 0x66 := 0x0C, 0x6E := 0x0A, 0x72 := 0x0D, 0x74 := 0x09]

  lemma {:induction false} SimpleDenotes(src: bytes, i: nat)
    requires i + 2 <= |src| && src[i] == 0x5C && src[i + 1] in SIMPLE
    ensures ReadsAs(src, i, [SIMPLE[src[i + 1]]], i + 2)
  {
    assert UnitAt(src, i) == Piece([SIMPLE[src[i + 1]]], i + 2);
  }

  /** Every other byte denotes itself. */
  lemma {:induction false} PlainDenotes(src: bytes, i: nat)
    requires i < |src| && src[i] != 0x5C && src[i] != 0x22
    ensures ReadsAs(src, i, [src[i]], i + 1)
  {
    assert UnitAt(src, i) == Piece([src[i]], i + 1);
  }

  /** Any other escape is an error, and so is one whose digits are cut off. */
  lemma {:induction false} BadEscape(src: bytes, i: nat)
    requires i + 2 <= |src| && src[i] == 0x5C && src[i + 1] !in SIMPLE && forall r :: !EscapeAt(src, i, r)
    ensures Decode(src, i) == Fault(TypeMismatch)
  {
    if i + 6 <= |src| && src[i + 1] == 0x75 && IsHex4(src, i + 2) {
      var r := HexIsSpelled(src, i);
      assert false;
    }
    assert UnitAt(src, i) == Bad(TypeMismatch);
  }

  // ----- strings that are cut off -----

  /** The bytes from `i` up to `e` are a body, and nothing follows it, or only a backslash. */
  predicate CutAt(src: bytes, i: nat, e: nat) {
    i <= e <= |src| && IsBody(src[i..e]) && (e == |src| || (e + 1 == |src| && src[e] == BACKSLASH))
  }

  /** The string ends too early exactly where a body ends without a quote, possibly behind half an escape. */
  lemma {:induction false} CutIff(src: bytes, i: nat)
    requires i <= |src|
    ensures Decode(src, i) == Fault(UnexpectedEOF) <==> CutAt(src, i, |src|) || (src != [] && CutAt(src, i, |src| - 1))
  {
    if CutAt(src, i, |src|) {
      CutEndsEarly(src, i, |src|);
    } else if src != [] && CutAt(src, i, |src| - 1) {
      CutEndsEarly(src, i, |src| - 1);
    } else if Decode(src, i) == Fault(UnexpectedEOF) {
      var e := EndsEarlyAt(src, i);
    }
  }

  lemma {:induction false} CutEndsEarly(src: bytes, i: nat, e: nat)
    requires CutAt(src, i, e)
    ensures Decode(src, i) == Fault(UnexpectedEOF)
    decreases e - i
  {
    if i < e {
      var b := src[i..e];
      assert b[0] == src[i];
      if b[0] != BACKSLASH {
        assert b[1..] == src[i + 1..e];
        CutEndsEarly(src, i + 1, e);
      } else {
        assert b[1] == src[i + 1];
        if b[1] == LOWER_U {
          CutUnicode(src, i, e);
          CutEndsEarly(src, UnitAt(src, i).next, e);
        } else {
          assert b[2..] == src[i + 2..e];
          CutEndsEarly(src, i + 2, e);
        }
      }
    }
  }

  lemma {:induction false} CutUnicode(src: bytes, i: nat, e: nat)
    requires CutAt(src, i, e) && i + 1 < e && src[i] == BACKSLASH && src[i + 1] == LOWER_U
    ensures UnitAt(src, i).Piece? && i < UnitAt(src, i).next <= e && CutAt(src, UnitAt(src, i).next, e)
  {
    BodyHead(src, i, e);
    if UnitAt(src, i).next == i + 12 {
      assert i + 6 != e;
      BodyHead(src, i + 6, e);
    }
  }

  /** A body that begins with \uXXXX. */
  lemma {:induction false} BodyHead(src: bytes, i: nat, e: nat)
    requires i + 1 < |src| && i < e <= |src| && src[i] == BACKSLASH && src[i + 1] == LOWER_U && IsBody(src[i..e])
    ensures i + 6 <= e && IsHex4(src, i + 2) && IsBody(src[i + 6..e])
  {
    var b := src[i..e];
    assert b[0] == src[i];
    assert b[1] == src[i + 1];
    SliceHex(src, i, e, 2);
    assert b[6..] == src[i + 6..e];
  }

  lemma {:induction false} EndsEarlyAt(src: bytes, i: nat) returns (e: nat)
    requires i <= |src| && Decode(src, i) == Fault(UnexpectedEOF)
    ensures CutAt(src, i, e)
    decreases |src| - i
  {
    if i == |src| || (i + 1 == |src| && src[i] == BACKSLASH) {
      e := i;
      assert src[i..e] == [];
    } else {
      var next := UnitAt(src, i).next;
      e := EndsEarlyAt(src, next);
      BodyWithUnit(src, i, next, e);
    }
  }

  lemma {:induction false} BodyWithUnit(src: bytes, i: nat, next: nat, e: nat)
    requires i < |src| && UnitAt(src, i).Piece? && UnitAt(src, i).next == next <= e <= |src| && IsBody(src[next..e])
    ensures IsBody(src[i..e])
  {
    var b := src[i..e];
    assert b[0] == src[i];
    if src[i] == BACKSLASH {
      assert b[1] == src[i + 1];
      if src[i + 1] == LOWER_U {
        SliceHex(src, i, e, 2);
        BodyBeforeUnicode(src, i, e);
        assert b[6..] == src[i + 6..e];
      } else {
        assert b[2..] == src[i + 2..e];
      }
    } else {
      assert b[1..] == src[i + 1..e];
    }
  }
}
