/** Printing and reading integers: the reciprocal that stands for division by ten, the two printers, and the parser that
    inverts them. */
module Integers {
  import opened Bytes
  import opened Numbers

  const TWO63: nat := 0x8000_0000_0000_0000
  const TWO64: nat := 0x1_0000_0000_0000_0000
  const RECIPROCAL: nat := 0xCCCC_CCCC_CCCC_CCCD

  predicate IsInt64(v: int) {
    0 - TWO63 <= v < TWO63
  }

  // ----- division by multiplication -----

  /** The high word of a 64-bit product, shifted right by three. */
  function TenthByReciprocal(x: nat): nat {
    x * RECIPROCAL / TWO64 / 8
  }

  /** For every unsigned 64-bit number this is division by ten: ten times the reciprocal is 2^67 + 2. */
  lemma {:induction false} ReciprocalDivides(x: nat)
    requires x < TWO64
    ensures TenthByReciprocal(x) == x / 10
  {
    var q, r := x / 10, x % 10;
    var low := 2 * q + r * RECIPROCAL;
    assert x * RECIPROCAL == q * 8 * TWO64 + low;
    assert low < 8 * TWO64;
    assert x * RECIPROCAL / TWO64 == q * 8 + low / TWO64;
  }

  // ----- decimal text -----

  function Decimal(n: nat): bytes {
    if n < 10 then [0x30 + n] else Decimal(n / 10) + [0x30 + n % 10]
  }

  function DecimalInt(v: int): bytes {
    if v < 0 then [MINUS] + Decimal(-v) else Decimal(v)
  }

  /** The digits in the order in which the printer finds them. */
  function LowFirst(n: nat): bytes {
    if n < 10 then [0x30 + n] else [0x30 + n % 10] + LowFirst(n / 10)
  }

  function Power10(k: nat): nat {
    if k == 0 then 1 else 10 * Power10(k - 1)
  }

  lemma {:induction false} DecimalLength(n: nat, k: nat)
    requires k > 0 && n < Power10(k)
    ensures 0 < |LowFirst(n)| <= k && |Decimal(n)| == |LowFirst(n)|
    decreases k
  {
    if n >= 10 {
      DecimalLength(n / 10, k - 1);
    }
  }

  /** A number that fits 64 bits has at most 19 digits if its sign bit is clear or it is the minimum's magnitude. */
  lemma {:induction false} AtMost19(n: nat)
    requires n <= TWO63
    ensures 0 < |LowFirst(n)| <= 19 && |Decimal(n)| == |LowFirst(n)|
  {
    assert Power10(5) == 100000;
    assert Power10(10) == 10000000000;
    assert Power10(15) == 1000000000000000;
    assert Power10(19) == 10000000000000000000;
    DecimalLength(n, 19);
  }

  /** The digits are the number, without a leading zero. */
  lemma {:induction false} DecimalIsNat(n: nat)
    ensures IsDigits(Decimal(n)) && Nat(Decimal(n)) == n
    ensures n > 0 ==> Decimal(n)[0] != 0x30
    decreases n
  {
    if n < 10 {
      OneDigit(0x30 + n);
    } else {
      var q, c := n / 10, 0x30 + n % 10;
      var d := Decimal(q);
      DecimalIsNat(q);
      NatAppend(d, c);
      assert Decimal(n) == d + [c];
    }
  }

  lemma {:induction false} OneDigit(c: byte)
    requires IsDigit(c)
    ensures IsDigits([c]) && Nat([c]) == c - 0x30
  {
    var d := [c];
    assert d[..0] == [];
  }

  // ----- the parser -----

  /** The digits of an integer: no leading zero. */
  predicate IsDigits(d: bytes) {
    d != [] && AllDigits(d) && (d[0] == 0x30 ==> |d| == 1)
  }

  predicate IsNegative(b: bytes) {
    b != [] && b[0] == MINUS
  }

  function Magnitude(b: bytes): bytes {
    if IsNegative(b) then b[1..] else b
  }

  /** The value of an integer token. */
  function IntOf(b: bytes): int {
    if IsNegative(b) then 0 - Nat(Magnitude(b)) else Nat(b)
  }

  lemma {:induction false} NatGrows(d: bytes, k: nat)
    requires AllDigits(d) && k <= |d|
    ensures Nat(d) >= Nat(d[..k])
    decreases |d|
  {
    if k < |d| {
      var n := |d| - 1;
      NatGrows(d[..n], k);
      assert d[..n][..k] == d[..k];
    } else {
      assert d[..k] == d;
    }
  }

  /** Accepts exactly the integer tokens whose value fits 64 bits, and returns that value. */
  method ParseJSONInt(b: bytes) returns (v: int, ok: bool)
    ensures ok <==> IsDigits(Magnitude(b)) && IsInt64(IntOf(b))
    ensures ok ==> v == IntOf(b)
  {
    if |b| == 0 {
      return 0, false;
    }
    var neg := b[0] == MINUS;
    var d := if neg then b[1..] else b;
    assert d == Magnitude(b);
    if |d| == 0 {
      return 0, false;
    }
    if d[0] == 0x30 {
      if |d| != 1 {
        return 0, false;
      }
      assert d[..0] == [] && Nat(d) == 0;
      return 0, true;
    }
    var u, valid := ParseDigits(d);
    if !valid {
      return 0, false;
    }
    if neg {
      if u > TWO63 {
        return 0, false;
      }
      return 0 - u, true;
    }
    if u >= TWO63 {
      return 0, false;
    }
    return u, true;
  }

  /** The digit loop, on unsigned 64-bit numbers. */
  method ParseDigits(d: bytes) returns (u: nat, ok: bool)
    ensures ok <==> AllDigits(d) && Nat(d) < TWO64
    ensures ok ==> u == Nat(d)
  {
    u := 0;
    var i := 0;
    while i < |d|
      invariant 0 <= i <= |d| && AllDigits(d[..i]) && u == Nat(d[..i]) < TWO64
    {
      var c := d[i];
      assert d[..i + 1] == d[..i] + [c];
      if c < 0x30 || c > 0x39 {
        return 0, false;
      }
      var digit := c - 0x30;
      NatAppend(d[..i], c);
      if u > (TWO64 - 1 - digit) / 10 {
        if AllDigits(d) {
          NatGrows(d, i + 1);
        }
        return 0, false;
      }
      u := u * 10 + digit;
      i := i + 1;
    }
    assert d[..i] == d;
    ok := true;
  }

  /** The parser inverts decimal text for every 64-bit integer. */
  lemma {:induction false} DecimalIsParsed(v: int)
    requires IsInt64(v)
    ensures var b := DecimalInt(v); IsDigits(Magnitude(b)) && IntOf(b) == v
  {
    var n := if v < 0 then -v else v;
    DecimalIsNat(n);
    if v < 0 {
      assert ([MINUS] + Decimal(n))[1..] == Decimal(n);
    }
  }

  /** A run of digits without a leading zero is the decimal text of its value. */
  lemma {:induction false} DigitsAreDecimal(d: bytes)
    requires IsDigits(d)
    ensures Decimal(Nat(d)) == d
    decreases |d|
  {
    var n := |d| - 1;
    var rest := d[..n];
    if n == 0 {
      assert Nat(rest) == 0;
    } else {
      DigitsAreDecimal(rest);
      DecimalIsNat(Nat(rest));
      assert Nat(d) == 10 * Nat(rest) + (d[n] - 0x30);
      PositiveNat(rest);
      assert d == rest + [d[n]];
    }
  }

  lemma {:induction false} PositiveNat(d: bytes)
    requires IsDigits(d) && d[0] != 0x30
    ensures Nat(d) > 0
    decreases |d|
  {
    if |d| > 1 {
      PositiveNat(d[..|d| - 1]);
    } else {
      assert Nat(d[..0]) == 0;
    }
  }

  /** Apart from a negative zero, every token that the parser accepts is the decimal text of its value. */
  lemma {:induction false} ParsedIsDecimal(b: bytes)
    requires IsDigits(Magnitude(b)) && !(IsNegative(b) && Nat(Magnitude(b)) == 0)
    ensures b == DecimalInt(IntOf(b))
  {
    DigitsAreDecimal(Magnitude(b));
    if IsNegative(b) {
      assert b == [MINUS] + b[1..];
    }
  }

  // ----- the printers -----

  function Reversed(s: bytes): bytes {
    if |s| == 0 then [] else Reversed(s[1..]) + [s[0]]
  }

  lemma {:induction false} ReversedIndex(s: bytes, k: nat)
    requires k < |s|
    ensures |Reversed(s)| == |s| && Reversed(s)[k] == s[|s| - 1 - k]
    decreases |s|
  {
    if |s| > 1 {
      ReversedIndex(s[1..], if k < |s| - 1 then k else 0);
    } else {
      assert s[1..] == [] && Reversed(s[1..]) == [];
    }
  }

  lemma {:induction false} LowFirstReversed(n: nat)
    ensures Reversed(LowFirst(n)) == Decimal(n)
    decreases n
  {
    var s := LowFirst(n);
    if n < 10 {
      assert s[1..] == [] && Reversed(s[1..]) == [];
    } else {
      LowFirstReversed(n / 10);
      assert s[1..] == LowFirst(n / 10);
    }
  }

  /** The reversing loop. */
  method ReverseRange(buf: array<byte>, start: nat, end: nat)
    requires start < end <= buf.Length
    modifies buf
    ensures buf[start..end] == Reversed(old(buf[start..end]))
    ensures buf[..start] == old(buf[..start])
  {
    ghost var was := buf[start..end];
    var lo: int, hi: int := start, end - 1;
    while lo < hi
      invariant start <= lo && hi < end && lo + hi == start + end - 1 && lo <= hi + 1
      invariant forall k | start <= k < end :: buf[k] == was[if lo <= k <= hi then k - start else end - 1 - k]
      invariant forall k | 0 <= k < start :: buf[k] == old(buf[k])
    {
      buf[lo], buf[hi] := buf[hi], buf[lo];
      lo, hi := lo + 1, hi - 1;
    }
    forall k | 0 <= k < end - start ensures |Reversed(was)| == end - start && Reversed(was)[k] == buf[start..end][k] {
      ReversedIndex(was, k);
    }
  }

  /** Writes the digits of a number, the last one first. The check for a full buffer inside the loop never fires: 20
      free bytes are enough for every 64-bit integer. */
  method WriteDigits(buf: array<byte>, start: nat, x0: nat) returns (pos: nat)
    requires x0 <= TWO63 && start + 19 <= buf.Length
    modifies buf
    ensures start < pos <= start + 19 && buf[start..pos] == LowFirst(x0) && buf[..start] == old(buf[..start])
  {
    AtMost19(x0);
    pos := start;
    var x: nat := x0;
    var more := true;
    while more
      invariant start <= pos <= start + 19 && x <= x0
      invariant if more then buf[start..pos] + LowFirst(x) == LowFirst(x0)
        else pos > start && buf[start..pos] == LowFirst(x0)
      invariant buf[..start] == old(buf[..start])
      decreases if more then x + 1 else 0
    {
      LowFirstNotEmpty(x);
      assert pos < buf.Length;
      ghost var written := buf[start..pos];
      ReciprocalDivides(x);
      var q := TenthByReciprocal(x);
      buf[pos] := 0x30 + (x - q * 10);
      assert buf[start..pos + 1] == written + [0x30 + x % 10];
      OneDigitLess(written, x);
      pos := pos + 1;
      more := q != 0;
      x := q;
    }
  }

  lemma {:induction false} OneDigitLess(written: bytes, x: nat)
    ensures var more := written + [0x30 + x % 10];
      written + LowFirst(x) == if x >= 10 then more + LowFirst(x / 10) else more
  {
  }

  lemma {:induction false} LowFirstNotEmpty(x: nat)
    ensures |LowFirst(x)| > 0
  {
  }

  /** Appends an integer in place if there is a buffer with 20 free bytes; otherwise nothing is written and the length
      stays, which its callers take as the sign to use the library instead. */
  method AppendIntAVX2(buf: array?<byte>, len: nat, val: int) returns (newLen: nat)
    requires IsInt64(val) && (buf != null ==> len <= buf.Length)
    modifies buf
    ensures buf == null || len + 20 > buf.Length ==> newLen == len
    ensures buf != null && len + 20 <= buf.Length ==>
      len < newLen <= len + 20 && buf[..newLen] == old(buf[..len]) + DecimalInt(val)
  {
    if buf == null {
      return len;
    }
    if len + 20 > buf.Length {
      return len;
    }
    ghost var before := buf[..len];
    if val == 0 {
      buf[len] := 0x30;
      return len + 1;
    }
    var pos, x := len, val;
    if val < 0 {
      buf[pos] := MINUS;
      pos, x := pos + 1, -val;
    }
    ghost var signed := buf[..pos];
    assert signed == before + (if val < 0 then [MINUS] else []);
    newLen := WriteDigits(buf, pos, x);
    assert buf[..pos] == signed;
    ReverseRange(buf, pos, newLen);
    LowFirstReversed(x);
    Joined(buf[..newLen], pos, before, if val < 0 then [MINUS] else [], Decimal(x));
  }

  lemma {:induction false} Joined(all: bytes, pos: nat, before: bytes, sign: bytes, digits: bytes)
    requires pos <= |all| && all[..pos] == before + sign && all[pos..] == digits
    ensures all == before + (sign + digits)
  {
    assert all == all[..pos] + all[pos..];
  }

  /** Two's complement negation of a 64-bit integer. */
  function Negated(v: int): (r: int)
    requires IsInt64(v)
    ensures IsInt64(r)
  {
    if v == 0 - TWO63 then v else -v
  }

  /** Fills the buffer with digits from the back. For the wrapped minimum, which is still negative, the loop is not
      entered and the low byte of the sum is a zero digit. */
  method FillDigits(b: array<byte>, val0: int) returns (i: nat)
    requires b.Length == 20 && (0 <= val0 < TWO63 || val0 == 0 - TWO63)
    modifies b
    ensures 1 <= i <= 19 && b[i..] == if val0 < 0 then [0x30] else Decimal(val0)
  {
    i := 19;
    var val := val0;
    if val0 >= 0 {
      AtMost19(val0);
    }
    assert b[20..] == [];
    while val >= 10
      invariant i <= 19 && (val0 < 0 ==> val == val0 && i == 19)
      invariant val0 >= 0 ==> 0 <= val && |Decimal(val)| <= i && Decimal(val) + b[i + 1..] == Decimal(val0)
      decreases val
    {
      var q := val / 10;
      ghost var tail := b[i + 1..];
      DecimalStep(val);
      b[i] := 0x30 + (val - q * 10);
      assert b[i..] == [0x30 + val % 10] + tail;
      i := i - 1;
      val := q;
    }
    ghost var tail := b[i + 1..];
    b[i] := (0x30 + val) % 256;
    assert b[i..] == [b[i]] + tail;
  }

  /** The scalar printer. Its negation wraps at the minimum. */
  method AppendIntScalar(val0: int) returns (text: bytes)
    requires IsInt64(val0)
    ensures text == ScalarText(val0)
  {
    var b := new byte[20];
    var neg := val0 < 0;
    var val := if neg then Negated(val0) else val0;
    var i := FillDigits(b, val);
    if neg {
      ghost var digits := b[i..];
      i := i - 1;
      b[i] := MINUS;
      assert b[i..] == [MINUS] + digits;
    }
    text := b[i..];
  }

  lemma {:induction false} DecimalStep(n: nat)
    requires n >= 10
    ensures Decimal(n) == Decimal(n / 10) + [0x30 + n % 10] && |Decimal(n / 10)| == |Decimal(n)| - 1 &&
      |Decimal(n / 10)| > 0
  {
    DecimalIsNat(n / 10);
  }

  /** What the scalar printer writes. */
  function ScalarText(v: int): bytes {
    if v == 0 - TWO63 then [MINUS, 0x30] else DecimalInt(v)
  }

  /** The parser inverts the scalar printer for every 64-bit integer but the minimum, whose text is a negative zero. */
  lemma {:induction false} ScalarInvertedUnlessMinimum(v: int)
    requires IsInt64(v)
    ensures var b := ScalarText(v); IsDigits(Magnitude(b)) && (IntOf(b) == v <==> v != 0 - TWO63)
  {
    DecimalIsParsed(v);
    var b: bytes := [MINUS, 0x30];
    assert b[1..] == [0x30] && [0x30][..0] == [];
    assert Nat([0x30]) == 0;
  }
}
