/** The vector operations the AVX2 routines use, on 32 byte lanes and 32-bit masks. */
module Simd {
  import opened Bytes

  type Lanes = v: bytes | |v| == 32 witness seq(32, _ => 0)
  type Mask = m: seq<bool> | |m| == 32 witness seq(32, _ => false)

  function Load(data: bytes, i: nat): Lanes
    requires i + 32 <= |data|
  {
    data[i..i + 32]
  }

  /** VPCMPEQB against a broadcast byte, then VPMOVMSKB. */
  function EqualMask(v: Lanes, c: byte): (m: Mask)
    ensures forall k | 0 <= k < 32 :: m[k] <==> v[k] == c
  {
    seq(32, k requires 0 <= k < 32 => v[k] == c)
  }

  /** VPMINUB with a broadcast byte, VPCMPEQB against the result, then VPMOVMSKB. */
  function AtMostMask(v: Lanes, c: byte): (m: Mask)
    ensures forall k | 0 <= k < 32 :: m[k] <==> v[k] <= c
  {
    seq(32, k requires 0 <= k < 32 => (if v[k] < c then v[k] else c) == v[k])
  }

  function Or(a: Mask, b: Mask): (m: Mask)
    ensures forall k | 0 <= k < 32 :: m[k] <==> a[k] || b[k]
  {
    seq(32, k requires 0 <= k < 32 => a[k] || b[k])
  }

  function AndNot(a: Mask, b: Mask): (m: Mask)
    ensures forall k | 0 <= k < 32 :: m[k] <==> a[k] && !b[k]
  {
    seq(32, k requires 0 <= k < 32 => a[k] && !b[k])
  }

  /** XOR with a flag spread over all bits, as NEG of 0 or 1 spreads it. */
  function XorFlag(a: Mask, flag: bool): (m: Mask)
    ensures forall k | 0 <= k < 32 :: m[k] <==> a[k] != flag
  {
    seq(32, k requires 0 <= k < 32 => a[k] != flag)
  }

  predicate IsZero(m: Mask) {
    forall k | 0 <= k < 32 :: !m[k]
  }

  /** BSFL: the index of the lowest set bit. */
  function Lowest(m: Mask, from: nat := 0): (k: nat)
    requires from < 32 && exists j :: from <= j < 32 && m[j]
    ensures from <= k < 32 && m[k]
    ensures forall j | from <= j < k :: !m[j]
    decreases 32 - from
  {
    if m[from] then from else Lowest(m, from + 1)
  }

  // ----- classification of structural bytes by their two nibbles -----

  const STRUCT_LO: seq<bv8> := [0, 0, 0, 0, 0, 0, 0, 0, 0, 0, 0, 0xA0, 0x04, 0xA0, 0, 0]
  const STRUCT_HI: seq<bv8> := [0, 0, 0x04, 0, 0, 0x20, 0, 0x80, 0, 0, 0, 0, 0, 0, 0, 0]

  predicate IsStructural(c: byte) {
    c == COMMA || c == LBRACE || c == RBRACE || c == LBRACKET || c == RBRACKET
  }

  /** VPAND with 0x0F in every lane. */
  function LowNibbles(v: Lanes): (r: Lanes)
    ensures forall k | 0 <= k < 32 :: r[k] == v[k] % 16
  {
    seq(32, k requires 0 <= k < 32 => v[k] % 16)
  }

  /** VPSRLW $4 seen from one lane: each pair of lanes is one little-endian 16-bit word. */
  function ShiftedLane(v: Lanes, k: nat): byte
    requires k < 32
  {
    var low: int, high: int := if k % 2 == 0 then v[k] else v[k - 1], if k % 2 == 0 then v[k + 1] else v[k];
    var word := (low + 256 * high) / 16;
    if k % 2 == 0 then word % 256 else word / 256
  }

  lemma {:induction false} ShiftedLaneHasHighNibble(v: Lanes, k: nat)
    requires k < 32
    ensures ShiftedLane(v, k) % 16 == v[k] / 16
  {
    if k % 2 == 0 {
      EvenLane(v[k], v[k + 1]);
    } else {
      OddLane(v[k - 1], v[k]);
    }
  }

  lemma {:induction false} EvenLane(low: int, high: int)
    requires 0 <= low < 256 && 0 <= high < 256
    ensures (low + 256 * high) / 16 % 256 % 16 == low / 16
  {
    assert (low + 256 * high) / 16 == low / 16 + 16 * high;
  }

  lemma {:induction false} OddLane(low: int, high: int)
    requires 0 <= low < 256 && 0 <= high < 256
    ensures (low + 256 * high) / 16 / 256 % 16 == high / 16
  {
    assert (low + 256 * high) / 16 == low / 16 + 16 * high;
    assert (low / 16 + 16 * high) / 256 == high / 16;
  }

  function ShiftWords(v: Lanes): (r: Lanes)
    ensures forall k | 0 <= k < 32 :: r[k] == ShiftedLane(v, k)
  {
    seq(32, k requires 0 <= k < 32 => ShiftedLane(v, k))
  }

  /** VPSHUFB of both nibbles through their tables, VPAND, compare with zero, VPMOVMSKB, NOT. */
  function StructMask(v: Lanes): (m: Mask)
    ensures forall k | 0 <= k < 32 :: m[k] <==> IsStructural(v[k])
  {
    var lo, hi := LowNibbles(v), LowNibbles(ShiftWords(v));
    var m := seq(32, k requires 0 <= k < 32 =>
      STRUCT_LO[lo[k]] & STRUCT_HI[hi[k]] != 0);
    assert forall k | 0 <= k < 32 :: m[k] <==> IsStructural(v[k]) by {
      forall k | 0 <= k < 32
        ensures m[k] <==> IsStructural(v[k])
      {
        ShiftedLaneHasHighNibble(v, k);
        NibblesClassify(v[k]);
      }
    }
    m
  }

  lemma {:induction false} NibblesClassify(c: byte)
    ensures STRUCT_LO[c % 16] & STRUCT_HI[c / 16] != 0 <==> IsStructural(c)
  {
  }

  // ----- prefix XOR as a carry-less product -----

  /** XOR of a[0..n). */
  function Parity(a: Mask, n: nat): bool
    requires n <= 32
  {
    if n == 0 then false else Parity(a, n - 1) != a[n - 1]
  }

  /** The first `n` terms of bit `k` of the carry-less product of `a` and `b`. */
  function ProductBit(a: Mask, b: Mask, k: nat, n: nat): bool
    requires n <= k + 1 <= 32
  {
    if n == 0 then false else ProductBit(a, b, k, n - 1) != (a[n - 1] && b[k - (n - 1)])
  }

  /** VPCLMULQDQ, the low 32 bits of the product. */
  function CarrylessProduct(a: Mask, b: Mask): (m: Mask)
    ensures forall k | 0 <= k < 32 :: m[k] == ProductBit(a, b, k, k + 1)
  {
    seq(32, k requires 0 <= k < 32 => ProductBit(a, b, k, k + 1))
  }

  function AllOnes(): (m: Mask)
    ensures forall k | 0 <= k < 32 :: m[k]
  {
    seq(32, _ => true)
  }

  lemma {:induction false} ProductBitIsParity(a: Mask, k: nat, n: nat)
    requires n <= k + 1 <= 32
    ensures ProductBit(a, AllOnes(), k, n) == Parity(a, n)
  {
    if n > 0 {
      ProductBitIsParity(a, k, n - 1);
    }
  }

  /** Multiplying by all ones without carries gives, in bit k, the XOR of bits 0 to k. */
  lemma {:induction false} ProductIsPrefixXor(a: Mask)
    ensures forall k | 0 <= k < 32 :: CarrylessProduct(a, AllOnes())[k] == Parity(a, k + 1)
  {
    forall k | 0 <= k < 32
      ensures CarrylessProduct(a, AllOnes())[k] == Parity(a, k + 1)
    {
      ProductBitIsParity(a, k, k + 1);
    }
  }

  // ----- the quote-or-escape scanner -----

  predicate IsSpecial(c: byte) {
    c == QUOTE || c == BACKSLASH
  }

  /** The first quote or backslash at or after `i`, or the end of the data. */
  function FirstSpecial(b: bytes, i: nat): (j: nat)
    requires i <= |b|
    ensures i <= j <= |b| && (j < |b| ==> IsSpecial(b[j]))
    ensures forall k | i <= k < j :: !IsSpecial(b[k])
    decreases |b| - i
  {
    if i < |b| && !IsSpecial(b[i]) then FirstSpecial(b, i + 1) else i
  }

  lemma {:induction false} FirstSpecialIs(b: bytes, j: nat)
    requires j <= |b| && (j < |b| ==> IsSpecial(b[j]))
    requires forall k | 0 <= k < j :: !IsSpecial(b[k])
    ensures FirstSpecial(b, 0) == j
  {
  }

  method FindQuoteOrEscapeAVX2(b: bytes) returns (idx: int, isEscape: bool)
    ensures var j := FirstSpecial(b, 0);
      if j == |b| then idx == -1 && !isEscape else idx == j && (isEscape <==> b[j] == BACKSLASH)
  {
    var i := 0;
    while |b| - i >= 32
      invariant i <= |b| && forall k | 0 <= k < i :: !IsSpecial(b[k])
    {
      var v := Load(b, i);
      var quotes, slashes := EqualMask(v, QUOTE), EqualMask(v, BACKSLASH);
      var hits := Or(quotes, slashes);
      assert forall k | 0 <= k < 32 :: v[k] == b[i + k];
      if !IsZero(hits) {
        var bit := Lowest(hits);
        assert forall k | i <= k < i + bit :: !IsSpecial(b[k]) by {
          forall k | i <= k < i + bit ensures !IsSpecial(b[k]) {
            assert !hits[k - i];
          }
        }
        FirstSpecialIs(b, i + bit);
        return i + bit, !quotes[bit];
      }
      assert forall k | i <= k < i + 32 :: !IsSpecial(b[k]) by {
        forall k | i <= k < i + 32 ensures !IsSpecial(b[k]) {
          assert !hits[k - i];
        }
      }
      i := i + 32;
    }
    while i < |b|
      invariant i <= |b| && forall k | 0 <= k < i :: !IsSpecial(b[k])
    {
      if b[i] == QUOTE {
        FirstSpecialIs(b, i);
        return i, false;
      } else if b[i] == BACKSLASH {
        FirstSpecialIs(b, i);
        return i, true;
      }
      i := i + 1;
    }
    FirstSpecialIs(b, i);
    return -1, false;
  }
}
