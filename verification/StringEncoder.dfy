/** Writing JSON strings: the escaping that every path must produce, the two scanning routines that write the quiet
    part, and the marshaller that finishes their work. */
module StringEncoder {
  import opened Bytes
  import opened Simd
  import opened Strings
  import opened StringDecoder

  const UPPER_A: byte := 0x41

  function HexDigitUpper(d: byte): byte
    requires d < 16
  {
    if d < 10 then 0x30 + d else UPPER_A + (d - 10)
  }

  /** The bytes that may not stand in a JSON string as they are. */
  predicate NeedsEscape(c: byte) {
    c == QUOTE || c == BACKSLASH || c < 0x20
  }

  function Escape(c: byte): (e: bytes)
    ensures 1 <= |e| <= 6 && (NeedsEscape(c) <==> |e| > 1)
  {
    if c == QUOTE || c == BACKSLASH then [BACKSLASH, c]
    else if c == NEWLINE then [BACKSLASH, 0x6E]
    else if c == RETURN then [BACKSLASH, 0x72]
    else if c == TAB then [BACKSLASH, 0x74]
    else if c == 0x08 then [BACKSLASH, 0x62]
    else if c == 0x0C then [BACKSLASH, 0x66]
    else if c < 0x20 then [BACKSLASH, LOWER_U, 0x30, 0x30, HexDigitUpper(c / 16), HexDigitUpper(c % 16)]
    else [c]
  }

  /** The first `n` bytes, escaped. */
  function Escaped(s: bytes, n: nat): (e: bytes)
    requires n <= |s|
    ensures |e| >= n
  {
    if n == 0 then [] else Escaped(s, n - 1) + Escape(s[n - 1])
  }

  /** The JSON form of a string. */
  function Quoted(s: bytes): bytes {
    [QUOTE] + (Escaped(s, |s|) + [QUOTE])
  }

  // ----- round trip -----

  /** Decoding one escaped byte. */
  lemma {:induction false} UnitOfEscape(src: bytes, i: nat, c: byte)
    requires At(src, i, Escape(c))
    ensures i <= |src| && UnitAt(src, i) == Piece([c], i + |Escape(c)|)
  {
    var e := Escape(c);
    assert src[i] == e[0];
    if |e| > 1 {
      assert src[i + 1] == e[1];
    }
    if |e| == 6 {
      assert src[i + 2] == e[2] && src[i + 3] == e[3] && src[i + 4] == e[4] && src[i + 5] == e[5];
      ControlHex(src, i + 2, c);
    }
  }

  lemma {:induction false} ControlHex(src: bytes, i: nat, c: byte)
    requires i + 4 <= |src| && c < 0x20 && src[i] == src[i + 1] == 0x30
    requires src[i + 2] == HexDigitUpper(c / 16) && src[i + 3] == HexDigitUpper(c % 16)
    ensures IsHex4(src, i) && Hex4(src, i) == c
  {
    assert HexRun(src, i, 1) == 16 * HexRun(src, i, 0) + HexValue(src[i]) == 0;
    assert HexRun(src, i, 2) == 16 * HexRun(src, i, 1) + HexValue(src[i + 1]) == 0;
    assert HexRun(src, i, 3) == c / 16 && HexRun(src, i, 4) == 16 * (c / 16) + c % 16;
  }

  lemma {:induction false} EscapedGrows(s: bytes, n: nat, m: nat)
    requires n <= m <= |s|
    ensures Escaped(s, n) <= Escaped(s, m)
    decreases m
  {
    if n < m {
      EscapedGrows(s, n, m - 1);
    }
  }

  lemma {:induction false} DecodesRest(src: bytes, s: bytes, n: nat, i: nat, all: bytes)
    requires n <= |s| && i == |Escaped(s, n)| && all == Escaped(s, |s|) && At(src, 0, all) && Is(src, |all|, QUOTE)
    ensures i <= |src| && Decode(src, i) == Text(s[n..], |all| + 1)
    decreases |s| - n
  {
    if n == |s| {
      assert s[n..] == [];
      DecodesEnd(src, i);
    } else {
      var j := i + |Escape(s[n])|;
      EscapeStands(src, s, n, all);
      UnitOfEscape(src, i, s[n]);
      DecodesRest(src, s, n + 1, j, all);
      DecodesOne(src, i, s, n, j, |all| + 1);
    }
  }

  lemma {:induction false} DecodesEnd(src: bytes, i: nat)
    requires Is(src, i, QUOTE)
    ensures Decode(src, i) == Text([], i + 1)
  {
  }

  lemma {:induction false} DecodesOne(src: bytes, i: nat, s: bytes, n: nat, next: nat, end: nat)
    requires n < |s| && i < next <= |src| && UnitAt(src, i) == Piece([s[n]], next) &&
      Decode(src, next) == Text(s[n + 1..], end)
    ensures Decode(src, i) == Text(s[n..], end)
  {
    assert [s[n]] + s[n + 1..] == s[n..];
  }

  lemma {:induction false} EscapeStands(src: bytes, s: bytes, n: nat, all: bytes)
    requires n < |s| && all == Escaped(s, |s|) && At(src, 0, all)
    ensures At(src, |Escaped(s, n)|, Escape(s[n]))
  {
    var e, i := Escape(s[n]), |Escaped(s, n)|;
    EscapedGrows(s, n + 1, |s|);
    var more := Escaped(s, n + 1);
    assert more == Escaped(s, n) + e && more <= all;
    forall k | 0 <= k < |e| ensures src[i + k] == e[k] {
      assert src[0 + (i + k)] == all[i + k] == more[i + k] == e[k];
    }
  }

  /** For every byte string, reading back the body of its JSON form gives the string and consumes all of it, whatever
      follows. */
  lemma {:induction false} RoundTrip(s: bytes, tail: bytes)
    ensures Decode(Escaped(s, |s|) + [QUOTE] + tail, 0) == Text(s, |Escaped(s, |s|)| + 1)
  {
    var e := Escaped(s, |s|);
    var src := e + [QUOTE] + tail;
    AtSlice(src, 0, e);
    assert src[0..|e|] == e;
    DecodesRest(src, s, 0, 0, e);
  }

  /** The JSON form is a string of the strict grammar, and it holds no raw control byte. */
  lemma {:induction false} QuotedIsStrict(s: bytes)
    ensures IsBody(Escaped(s, |s|))
    ensures forall k | 0 <= k < |Escaped(s, |s|)| :: Escaped(s, |s|)[k] >= 0x20
  {
    var e := Escaped(s, |s|);
    var src := e + [QUOTE] + [];
    RoundTrip(s, []);
    DecodedIsBody(src, 0);
    assert src[0..|e|] == e;
    NoControls(s, |s|);
  }

  lemma {:induction false} NoControls(s: bytes, n: nat)
    requires n <= |s|
    ensures forall k | 0 <= k < |Escaped(s, n)| :: Escaped(s, n)[k] >= 0x20
  {
    if n > 0 {
      NoControls(s, n - 1);
    }
  }

  // ----- the vector routine -----

  /** The buffer holds the opening quote at `len` and the first `i` bytes, escaped, up to `pos`. */
  predicate Done(b: bytes, len: nat, pos: nat, s: bytes, i: nat) {
    i <= |s| && pos == len + 1 + |Escaped(s, i)| && Is(b, len, QUOTE) && At(b, len + 1, Escaped(s, i))
  }

  predicate Plain(s: bytes, i: nat, j: nat) {
    i <= j <= |s| && forall k | i <= k < j :: !NeedsEscape(s[k])
  }

  /** The buffers agree below `pos`. */
  predicate SameBelow(a: bytes, b: bytes, pos: nat) {
    |a| == |b| && pos <= |a| && forall k | 0 <= k < pos :: a[k] == b[k]
  }

  lemma {:induction false} DoneStays(b: bytes, c: bytes, len: nat, pos: nat, s: bytes, i: nat)
    requires Done(b, len, pos, s, i) && SameBelow(b, c, pos)
    ensures Done(c, len, pos, s, i)
  {
  }

  lemma {:induction false} DoneOne(b: bytes, len: nat, pos: nat, s: bytes, i: nat)
    requires Done(b, len, pos, s, i) && i < |s| && At(b, pos, Escape(s[i]))
    ensures Done(b, len, pos + |Escape(s[i])|, s, i + 1)
  {
    AtSplit(b, len + 1, Escaped(s, i), Escape(s[i]));
  }

  /** Copied bytes that need no escape are escaped bytes. */
  lemma {:induction false} DonePlain(b: bytes, len: nat, pos: nat, s: bytes, i: nat, j: nat)
    requires Done(b, len, pos, s, i) && Plain(s, i, j) && pos + (j - i) <= |b|
    requires forall k | i <= k < j :: b[pos + (k - i)] == s[k]
    ensures Done(b, len, pos + (j - i), s, j)
    decreases j - i
  {
    if i < j {
      assert Escape(s[i]) == [s[i]] && b[pos + (i - i)] == s[i];
      AtByte(b, pos, s[i]);
      DoneOne(b, len, pos, s, i);
      DonePlain(b, len, pos + 1, s, i + 1, j);
    }
  }

  /** Copies bytes that need no escape. */
  method CopyPlain(buf: array<byte>, len: nat, pos0: nat, s: bytes, i0: nat, j: nat)
    requires Done(buf[..], len, pos0, s, i0) && Plain(s, i0, j) && pos0 + (j - i0) <= buf.Length
    modifies buf
    ensures Done(buf[..], len, pos0 + (j - i0), s, j) && SameBelow(buf[..], old(buf[..]), pos0)
  {
    var pos, i := pos0, i0;
    while i < j
      invariant i0 <= i <= j && pos == pos0 + (i - i0)
      invariant SameBelow(buf[..], old(buf[..]), pos0)
      invariant forall k | i0 <= k < i :: buf[pos0 + (k - i0)] == s[k]
    {
      buf[pos] := s[i];
      pos, i := pos + 1, i + 1;
    }
    DoneStays(old(buf[..]), buf[..], len, pos0, s, i0);
    DonePlain(buf[..], len, pos0, s, i0, j);
  }

  /** Writes a backslash and the quote or backslash it escapes. */
  method WriteEscape(buf: array<byte>, len: nat, pos: nat, s: bytes, i: nat)
    requires Done(buf[..], len, pos, s, i) && i < |s| && (s[i] == QUOTE || s[i] == BACKSLASH) && pos + 2 <= buf.Length
    modifies buf
    ensures Done(buf[..], len, pos + 2, s, i + 1) && SameBelow(buf[..], old(buf[..]), pos)
  {
    buf[pos] := BACKSLASH;
    buf[pos + 1] := s[i];
    DoneStays(old(buf[..]), buf[..], len, pos, s, i);
    assert Escape(s[i]) == [BACKSLASH, s[i]];
    DoneOne(buf[..], len, pos, s, i);
  }

  /** A byte that needs an escape makes the result longer than what is left of the string. */
  lemma {:induction false} EscapeCosts(s: bytes, i: nat, n: nat)
    requires i < n <= |s| && NeedsEscape(s[i])
    ensures |Escaped(s, n)| >= |Escaped(s, i)| + (n - i) + 1
    decreases n
  {
    if i + 1 < n {
      EscapeCosts(s, i, n - 1);
    }
  }

  /** What the routine does at a byte that needs an escape: write it, stop for lack of room, or hand a control byte to
      its caller. */
  datatype Special = Wrote | NoRoom | Control

  method AtSpecial(buf: array<byte>, len: nat, pos: nat, s: bytes, i: nat) returns (r: Special)
    requires Done(buf[..], len, pos, s, i) && i < |s| && NeedsEscape(s[i]) && pos + (|s| - i) + 1 <= buf.Length
    modifies buf
    ensures SameBelow(buf[..], old(buf[..]), pos)
    ensures r.Wrote? ==> Done(buf[..], len, pos + 2, s, i + 1) && pos + 2 + (|s| - (i + 1)) + 1 <= buf.Length
    ensures r.NoRoom? ==> len + |Quoted(s)| > buf.Length
    ensures r.Control? ==> s[i] < 0x20 && Done(buf[..], len, pos, s, i)
  {
    EscapeCosts(s, i, |s|);
    if |s| - i + 2 > buf.Length - pos {
      return NoRoom;
    }
    if s[i] == QUOTE || s[i] == BACKSLASH {
      WriteEscape(buf, len, pos, s, i);
      return Wrote;
    }
    return Control;
  }

  /** The mask of the bytes in a block that need an escape. */
  function SpecialMask(v: Lanes): (m: Mask)
    ensures forall k | 0 <= k < 32 :: m[k] <==> NeedsEscape(v[k])
  {
    Or(Or(EqualMask(v, QUOTE), EqualMask(v, BACKSLASH)), AtMostMask(v, 0x1F))
  }

  /** The first `i` bytes are written, and the rest fits without further escapes. */
  predicate Ready(b: bytes, len: nat, pos: nat, s: bytes, i: nat) {
    Done(b, len, pos, s, i) && pos + (|s| - i) + 1 <= |b|
  }

  /** How a step leaves the buffer. */
  predicate Stepped(b: bytes, len: nat, pos: nat, s: bytes, i: nat, stop: Special) {
    match stop
    case Wrote => Ready(b, len, pos, s, i)
    case NoRoom => len + |Quoted(s)| > |b|
    case Control => i < |s| && s[i] < 0x20 && Done(b, len, pos, s, i) && pos <= |b|
  }

  /** Copies the quiet bytes at the front of a block of 32. */
  method CopyQuiet(buf: array<byte>, len: nat, pos: nat, s: bytes, i: nat) returns (r: nat)
    requires i + 32 <= |s| && Ready(buf[..], len, pos, s, i)
    modifies buf
    ensures r <= 32 && (r < 32 ==> NeedsEscape(s[i + r]))
    ensures Ready(buf[..], len, pos + r, s, i + r) && SameBelow(buf[..], old(buf[..]), pos)
  {
    var mask := SpecialMask(Load(s, i));
    r := if IsZero(mask) then 32 else Lowest(mask);
    PlainBlock(s, i, mask, r);
    assert r < 32 ==> Load(s, i)[r] == s[i + r];
    CopyPlain(buf, len, pos, s, i, i + r);
  }

  /** A block of 32 bytes: copied as a whole, or up to its first special byte, which is then dealt with. */
  method AppendBlock(buf: array<byte>, len: nat, pos0: nat, s: bytes, i0: nat) returns (stop: Special, pos: nat, i: nat)
    requires i0 + 32 <= |s| && Ready(buf[..], len, pos0, s, i0)
    modifies buf
    ensures SameBelow(buf[..], old(buf[..]), pos0) && Stepped(buf[..], len, pos, s, i, stop) && (stop.Wrote? ==> i0 < i)
  {
    var r := CopyQuiet(buf, len, pos0, s, i0);
    pos, i, stop := pos0 + r, i0 + r, Wrote;
    if r < 32 {
      stop := AtSpecial(buf, len, pos, s, i);
      if stop.Wrote? {
        pos, i := pos + 2, i + 1;
      }
    }
  }

  /** One byte of the tail. */
  method AppendByte(buf: array<byte>, len: nat, pos0: nat, s: bytes, i0: nat) returns (stop: Special, pos: nat, i: nat)
    requires i0 < |s| && Ready(buf[..], len, pos0, s, i0)
    modifies buf
    ensures SameBelow(buf[..], old(buf[..]), pos0) && Stepped(buf[..], len, pos, s, i, stop) &&
      (stop.Wrote? ==> i0 < i <= |s|)
  {
    pos, i := pos0, i0;
    if !NeedsEscape(s[i]) {
      CopyPlain(buf, len, pos, s, i, i + 1);
      return Wrote, pos + 1, i + 1;
    }
    if s[i] < 0x20 {
      return Control, pos, i;
    }
    stop := AtSpecial(buf, len, pos, s, i);
    if stop.Wrote? {
      pos, i := pos + 2, i + 1;
    }
  }

  /** Writes the string with its quotes behind the first `len` bytes of the buffer and returns the new length and -1. At
      a control byte it returns what it has written and the byte's index; without room, the old length and -2. */
  method AppendStringAVX2(buf: array<byte>, len: nat, s: bytes) returns (newLen: nat, special: int)
    requires len <= buf.Length
    modifies buf
    ensures newLen <= buf.Length && SameBelow(buf[..], old(buf[..]), len)
    ensures special == -1 || special == -2 || 0 <= special < |s|
    ensures special == -1 ==> buf[..newLen] == old(buf[..len]) + Quoted(s)
    ensures special == -2 ==> newLen == len && len + |Quoted(s)| > buf.Length
    ensures special >= 0 ==> s[special] < 0x20 && Done(buf[..], len, newLen, s, special)
  {
    if len + |s| + 2 > buf.Length {
      return len, -2;
    }
    ghost var before := buf[..];
    buf[len] := QUOTE;
    var pos: nat, i: nat, stop := len + 1, 0, Wrote;
    while stop.Wrote? && i < |s|
      invariant SameBelow(buf[..], before, len) && Stepped(buf[..], len, pos, s, i, stop)
      decreases stop.Wrote?, |s| - i
    {
      if |s| - i >= 32 {
        stop, pos, i := AppendBlock(buf, len, pos, s, i);
      } else {
        stop, pos, i := AppendByte(buf, len, pos, s, i);
      }
    }
    match stop {
      case NoRoom => return len, -2;
      case Control => return pos, i;
      case Wrote =>
        ghost var quiet := buf[..];
        buf[pos] := QUOTE;
        DoneStays(quiet, buf[..], len, pos, s, |s|);
        Finished(buf[..], before, len, pos, s);
        return pos + 1, -1;
    }
  }

  lemma {:induction false} PlainBlock(s: bytes, i: nat, mask: Mask, r: nat)
    requires i + 32 <= |s| && mask == SpecialMask(Load(s, i)) && r <= 32 && forall k | 0 <= k < r :: !mask[k]
    ensures Plain(s, i, i + r)
  {
    forall k | i <= k < i + r ensures !NeedsEscape(s[k]) {
      assert Load(s, i)[k - i] == s[k] && !mask[k - i];
    }
  }

  lemma {:induction false} Finished(b: bytes, before: bytes, len: nat, pos: nat, s: bytes)
    requires Done(b, len, pos, s, |s|) && Is(b, pos, QUOTE) && SameBelow(b, before, len)
    ensures b[..pos + 1] == before[..len] + Quoted(s)
  {
    var e := Escaped(s, |s|);
    var all := before[..len] + Quoted(s);
    assert |all| == pos + 1;
    forall k | 0 <= k < pos + 1 ensures b[k] == all[k] {
      if len < k < pos {
        assert b[len + 1 + (k - len - 1)] == e[k - len - 1];
      }
    }
  }

  // ----- the scalar routine and the marshaller -----

  /** The scalar routine appends to a growing slice and stops at any byte that needs an escape. */
  method AppendStringScalar(buf: bytes, s: bytes) returns (out: bytes, special: int)
    ensures special == -1 || 0 <= special < |s|
    ensures special == -1 ==> out == buf + Quoted(s)
    ensures special >= 0 ==> NeedsEscape(s[special]) && out == (buf + [QUOTE]) + Escaped(s, special)
  {
    out, special := buf + [QUOTE], -1;
    var i := 0;
    while i < |s|
      invariant 0 <= i <= |s| && out == (buf + [QUOTE]) + Escaped(s, i)
    {
      if NeedsEscape(s[i]) {
        special := i;
        break;
      }
      out := out + [s[i]];
      i := i + 1;
    }
    if special == -1 {
      out := out + [QUOTE];
    }
  }

  /** The escape of one byte on the slow paths. */
  method EscapeByte(c: byte) returns (e: bytes)
    ensures e == Escape(c)
  {
    if c == QUOTE {
      e := [BACKSLASH, QUOTE];
    } else if c == BACKSLASH {
      e := [BACKSLASH, BACKSLASH];
    } else if c == NEWLINE {
      e := [BACKSLASH, 0x6E];
    } else if c == RETURN {
      e := [BACKSLASH, 0x72];
    } else if c == TAB {
      e := [BACKSLASH, 0x74];
    } else if c == 0x08 {
      e := [BACKSLASH, 0x62];
    } else if c == 0x0C {
      e := [BACKSLASH, 0x66];
    } else if c < 0x20 {
      e := [BACKSLASH, LOWER_U, 0x30, 0x30] + [HexDigitUpper(c / 16), HexDigitUpper(c % 16)];
    } else {
      e := [c];
    }
  }

  /** The escaping loop of the slow paths, from byte `i0` on. */
  method AppendEscapes(buf: bytes, s: bytes, i0: nat, ghost lead: bytes) returns (out: bytes)
    requires i0 <= |s| && buf == lead + Escaped(s, i0)
    ensures out == lead + (Escaped(s, |s|) + [QUOTE])
  {
    out := buf;
    var i := i0;
    while i < |s|
      invariant i0 <= i <= |s| && out == lead + Escaped(s, i)
    {
      var e := EscapeByte(s[i]);
      out := out + e;
      i := i + 1;
    }
    out := out + [QUOTE];
  }

  lemma {:induction false} Regroup(a: bytes, b: bytes, c: bytes)
    ensures (a + b) + c == a + (b + c)
  {
  }

  /** The slow path alone. */
  method AppendJSONStringGo(buf: bytes, s: bytes) returns (out: bytes)
    ensures out == buf + Quoted(s)
  {
    out := buf + [QUOTE];
    assert out + Escaped(s, 0) == out;
    ghost var lead := out;
    out := AppendEscapes(out, s, 0, lead);
    Regroup(buf, [QUOTE], Escaped(s, |s|) + [QUOTE]);
  }

  /** The quiet part: everything, or nothing, or the quote and the bytes before a special one. */
  method AppendQuiet(buf: array<byte>, len: nat, s: bytes, vector: bool) returns (out: bytes, special: int)
    requires len <= buf.Length
    modifies buf
    ensures special == -1 || special == -2 || 0 <= special < |s|
    ensures special == -1 ==> out == old(buf[..len]) + Quoted(s)
    ensures special == -2 ==> out == old(buf[..len])
    ensures special >= 0 ==> out == (old(buf[..len]) + [QUOTE]) + Escaped(s, special)
  {
    if vector {
      var newLen;
      newLen, special := AppendStringAVX2(buf, len, s);
      assert buf[..len] == old(buf[..len]);
      out := buf[..newLen];
      if special >= 0 {
        DoneText(buf[..], len, newLen, s, special);
      }
    } else {
      out, special := AppendStringScalar(buf[..len], s);
    }
  }

  /** Marshals a string behind the first `len` bytes of the buffer, with the vector routine or the scalar one. The
      result is always what the slow path alone would append. */
  method MarshalString(buf: array<byte>, len: nat, s: bytes, vector: bool) returns (out: bytes)
    requires len <= buf.Length
    modifies buf
    ensures out == old(buf[..len]) + Quoted(s)
  {
    ghost var before := buf[..len];
    var special;
    out, special := AppendQuiet(buf, len, s, vector);
    if special == -2 {
      out := AppendJSONStringGo(out, s);
    } else if special >= 0 {
      out := AppendEscapes(out, s, special, before + [QUOTE]);
      Regroup(before, [QUOTE], Escaped(s, |s|) + [QUOTE]);
    }
  }

  lemma {:induction false} DoneText(b: bytes, len: nat, pos: nat, s: bytes, i: nat)
    requires Done(b, len, pos, s, i)
    ensures pos <= |b| && b[..pos] == b[..len] + [QUOTE] + Escaped(s, i)
  {
    var e := Escaped(s, i);
    var all := b[..len] + [QUOTE] + e;
    forall k | 0 <= k < pos ensures b[k] == all[k] {
      if len < k {
        assert b[len + 1 + (k - len - 1)] == e[k - len - 1];
      }
    }
  }
}
