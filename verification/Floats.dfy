/** The exact float fast path: which literals it takes, and why one rounded operation suffices. */
module Floats {
  import opened Wrappers
  import opened Bytes
  import opened Numbers

  const LIMIT: nat := 0x20_0000_0000_0000 // 2^53
  const MAX_EXPONENT: int := 100000
  const MAX_POW10: int := 22

  /** Outcome of the single validating pass: digits and decimal exponent, the same for a token that the input cut off,
      or a refusal that leaves the decision to the general parser. */
  datatype FloatScan =
    | Exact(neg: bool, mant: nat, exp10: int)
    | Truncated(neg: bool, mant: nat, exp10: int)
    | Refused

  /** What the pass must answer, in terms of the grammar's own scan of the whole token. */
  function Verdict(s: Scan): FloatScan {
    var e := s.Exponent() - s.scale;
    if Accepting(s.phase) && s.mant <= LIMIT && s.exp <= MAX_EXPONENT && -MAX_POW10 <= e <= MAX_POW10 then
      Exact(s.neg, s.mant, e)
    else if Unfinished(s.phase) && s.mant <= LIMIT then
      Truncated(s.neg, s.mant, 0 - s.scale)
    else
      Refused
  }

  /** The scans for which the pass gives up before the end of the token. */
  predicate Hopeless(s: Scan) {
    s.phase == Dead || s.mant > LIMIT || (s.phase == Exponent && s.exp > MAX_EXPONENT)
  }

  lemma {:induction false} DigitsOnlyGrow(s: Scan, b: bytes, i: nat)
    requires i <= |b|
    ensures Continue(s, b, i).mant >= s.mant && Continue(s, b, i).exp >= s.exp
    decreases |b| - i
  {
    if i < |b| {
      DigitsOnlyGrow(Step(s, b[i]), b, i + 1);
    }
  }

  lemma {:induction false} DeadRefused(s: Scan, b: bytes, i: nat)
    requires i <= |b| && s.phase == Dead
    ensures Continue(s, b, i).phase == Dead
  {
    PhaseOfScan(s, b, i);
    DeadStays(b, i);
  }

  /** The integer part: the scan stops at the first byte that is not a digit, or gives up past 2^53. */
  method IntegerPart(b: bytes, start: nat, ghost s0: Scan, ghost end: Scan)
    returns (ok: bool, mant: nat, i: nat, ghost s: Scan)
    requires start < |b|
    requires s0 == INITIAL || s0 == INITIAL.(phase := Minus, neg := true)
    requires s0 == INITIAL ==> b[start] != MINUS
    requires Continue(s0, b, start) == end
    ensures !ok ==> Hopeless(end)
    ensures ok ==> start < i <= |b| && Continue(s, b, i) == end && mant <= LIMIT
    ensures ok ==> s == s0.(phase := s.phase, mant := mant)
    ensures ok ==> s.phase == Zero || (s.phase == Integer && (i < |b| ==> !IsDigit(b[i])))
  {
    i, mant, s := start, 0, s0;
    if b[i] == ZERO {
      s := Step(s, b[i]);
      i := i + 1;
    } else if IsDigit(b[i]) {
      while i < |b| && IsDigit(b[i])
        invariant start <= i <= |b| && Continue(s, b, i) == end && mant <= LIMIT
        invariant if i == start then s == s0 && mant == 0 else s == s0.(phase := Integer, mant := mant)
      {
        mant := mant * 10 + (b[i] - 0x30);
        s := Step(s, b[i]);
        i := i + 1;
        if mant > LIMIT {
          DigitsOnlyGrow(s, b, i);
          return false, mant, i, s;
        }
      }
    } else {
      DeadRefused(Step(s, b[i]), b, i + 1);
      return false, mant, i, s;
    }
    ok := true;
  }

  datatype Stage = Going | Cut | Broken

  /** The fraction part, if there is one. */
  method FractionPart(b: bytes, start: nat, mant0: nat, ghost s0: Scan, ghost end: Scan)
    returns (stage: Stage, mant: nat, exp10: int, i: nat, ghost s: Scan)
    requires start <= |b| && Continue(s0, b, start) == end && mant0 <= LIMIT
    requires s0.phase == Zero || (s0.phase == Integer && (start < |b| ==> !IsDigit(b[start])))
    requires s0.mant == mant0 && s0.scale == s0.exp == 0 && !s0.expNeg
    ensures stage == Broken ==> Hopeless(end)
    ensures stage == Cut ==> Verdict(end) == Truncated(s0.neg, mant, exp10)
    ensures stage == Going ==> start <= i <= |b| && Continue(s, b, i) == end && mant <= LIMIT && exp10 <= 0
    ensures stage == Going ==> s == s0.(phase := s.phase, mant := mant, scale := 0 - exp10)
    ensures stage == Going ==>
      (s.phase == Zero && (i < |b| ==> b[i] != DOT))
      || ((s.phase == Integer || s.phase == Fraction) &&
        (i < |b| ==> !IsDigit(b[i]) && (s.phase == Integer ==> b[i] != DOT)))
  {
    i, mant, exp10, s := start, mant0, 0, s0;
    if i < |b| && b[i] == DOT {
      s := Step(s, b[i]);
      i := i + 1;
      if i >= |b| {
        return Cut, mant, exp10, i, s;
      }
      if !IsDigit(b[i]) {
        DeadRefused(Step(s, b[i]), b, i + 1);
        return Broken, mant, exp10, i, s;
      }
      ghost var dot := i;
      while i < |b| && IsDigit(b[i])
        invariant dot <= i <= |b| && Continue(s, b, i) == end && mant <= LIMIT
        invariant i == dot ==> i < |b| && IsDigit(b[i])
        invariant exp10 == dot - i
        invariant s == s0.(phase := if i == dot then Dot else Fraction, mant := mant, scale := i - dot)
      {
        mant := mant * 10 + (b[i] - 0x30);
        s := Step(s, b[i]);
        i := i + 1;
        exp10 := exp10 - 1;
        if mant > LIMIT {
          DigitsOnlyGrow(s, b, i);
          return Broken, mant, exp10, i, s;
        }
      }
    }
    stage := Going;
  }

  /** The digits of the exponent; the scan gives up on an absurdly large one. */
  method ExponentDigits(b: bytes, start: nat, ghost s0: Scan, ghost end: Scan)
    returns (ok: bool, ev: int, i: nat, ghost s: Scan)
    requires start < |b| && IsDigit(b[start]) && Continue(s0, b, start) == end
    requires (s0.phase == ExpMark || s0.phase == ExpSign) && s0.exp == 0
    ensures !ok ==> Hopeless(end)
    ensures ok ==> i <= |b| && Continue(s, b, i) == end && (i < |b| ==> !IsDigit(b[i]))
    ensures ok ==> 0 <= ev <= MAX_EXPONENT && s == s0.(phase := Exponent, exp := ev)
  {
    i, ev, s := start, 0, s0;
    while i < |b| && IsDigit(b[i])
      invariant start <= i <= |b| && Continue(s, b, i) == end && 0 <= ev <= MAX_EXPONENT
      invariant if i == start then s == s0 && ev == 0 else s == s0.(phase := Exponent, exp := ev)
    {
      ev := ev * 10 + (b[i] - 0x30);
      s := Step(s, b[i]);
      i := i + 1;
      if ev > MAX_EXPONENT {
        DigitsOnlyGrow(s, b, i);
        PhaseOfScan(s, b, i);
        ExponentSettles(b, i);
        return false, ev, i, s;
      }
    }
    ok := true;
  }

  /** The exponent part, once its mark has been seen. `shift` is its signed value. */
  method ExponentPart(b: bytes, start: nat, ghost s0: Scan, ghost end: Scan)
    returns (stage: Stage, shift: int, i: nat, ghost s: Scan)
    requires start < |b| && (b[start] == 0x65 || b[start] == 0x45)
    requires Continue(s0, b, start) == end
    requires (s0.phase == Zero || s0.phase == Integer || s0.phase == Fraction) && s0.exp == 0 && !s0.expNeg
    ensures stage == Broken ==> Hopeless(end)
    ensures stage == Cut ==> Unfinished(end.phase) && end == s0.(phase := end.phase, expNeg := end.expNeg)
    ensures stage == Going ==> i <= |b| && Continue(s, b, i) == end && (i < |b| ==> !IsDigit(b[i]))
    ensures stage == Going ==> s == s0.(phase := Exponent, expNeg := s.expNeg, exp := s.exp)
    ensures stage == Going ==> s.exp <= MAX_EXPONENT && shift == s.Exponent()
  {
    i, shift, s := start + 1, 0, s0.(phase := ExpMark);
    assert Continue(s, b, i) == end;
    var esign := 1;
    if i < |b| && (b[i] == PLUS || b[i] == MINUS) {
      if b[i] == MINUS {
        esign := -1;
      }
      s := s.(phase := ExpSign, expNeg := b[i] == MINUS);
      i := i + 1;
    }
    assert Continue(s, b, i) == end;
    if i >= |b| {
      stage := Cut;
    } else if !IsDigit(b[i]) {
      DeadRefused(Step(s, b[i]), b, i + 1);
      stage := Broken;
    } else {
      var ok, ev;
      ok, ev, i, s := ExponentDigits(b, i, s, end);
      stage, shift := if ok then Going else Broken, esign * ev;
    }
  }

  /** The exponent and the final checks, after the significand. */
  method AfterSignificand(b: bytes, start: nat, mant: nat, fraction: int, ghost s0: Scan, ghost end: Scan)
    returns (r: FloatScan)
    requires start <= |b| && Continue(s0, b, start) == end && mant <= LIMIT
    requires fraction <= 0 && s0 == Scan(s0.phase, s0.neg, mant, 0 - fraction, false, 0)
    requires (s0.phase == Zero && (start < |b| ==> b[start] != DOT))
      || ((s0.phase == Integer || s0.phase == Fraction)
          && (start < |b| ==> !IsDigit(b[start]) && (s0.phase == Integer ==> b[start] != DOT)))
    ensures Verdict(end) == if r.Refused? then r else r.(neg := s0.neg)
  {
    var i, exp10 := start, fraction;
    ghost var s := s0;
    if i < |b| && (b[i] == 0x65 || b[i] == 0x45) {
      var stage, shift;
      stage, shift, i, s := ExponentPart(b, i, s, end);
      if stage == Cut {
        return Truncated(false, mant, exp10);
      } else if stage == Broken {
        return Refused;
      }
      exp10 := exp10 + shift;
    }
    if i != |b| {
      DeadRefused(Step(s, b[i]), b, i + 1);
      return Refused;
    }
    if exp10 > MAX_POW10 || exp10 < -MAX_POW10 {
      return Refused;
    }
    r := Exact(false, mant, exp10);
  }

  method ParseFloatFast(b: bytes) returns (r: FloatScan)
    ensures r == Verdict(Run(b))
  {
    ContinueAll(b);
    var i, neg := 0, false;
    ghost var s := INITIAL;
    if i < |b| && b[i] == MINUS {
      s := Step(s, b[i]);
      i, neg := i + 1, true;
    }
    if i >= |b| {
      return if neg then Truncated(true, 0, 0) else Refused;
    }
    var ok, mant;
    ok, mant, i, s := IntegerPart(b, i, s, Run(b));
    if !ok {
      return Refused;
    }
    var stage, exp10;
    stage, mant, exp10, i, s := FractionPart(b, i, mant, s, Run(b));
    if stage == Cut {
      return Truncated(neg, mant, exp10);
    } else if stage == Broken {
      return Refused;
    }
    r := AfterSignificand(b, i, mant, exp10, s, Run(b));
    if !r.Refused? {
      r := r.(neg := neg);
    }
  }

  // ----- meaning of an accepted token -----

  ghost predicate InEnvelope(n: Number) {
    && n.WellFormed() && n.Mantissa() <= LIMIT
    && -MAX_EXPONENT <= n.Exponent() <= MAX_EXPONENT
    && -MAX_POW10 <= n.Exponent() - |n.frac| <= MAX_POW10
  }

  /** The pass accepts exactly the number literals whose digits and exponent fit the exact envelope. */
  lemma {:induction false} AcceptsExactlyTheEnvelope(b: bytes)
    ensures Verdict(Run(b)).Exact? <==> exists n: Number :: InEnvelope(n) && n.Text() == b
    ensures forall n: Number :: n.WellFormed() && n.Text() == b && Verdict(Run(b)).Exact? ==>
      Verdict(Run(b)) == Exact(n.neg, n.Mantissa(), n.Exponent() - |n.frac|)
  {
    if Accepting(Run(b).phase) {
      var n := ReadNumber(b);
      LiteralInEnvelope(n, b);
    }
    forall n: Number | n.WellFormed() && n.Text() == b
      ensures Verdict(Run(b)).Exact? <==> InEnvelope(n)
      ensures Verdict(Run(b)).Exact? ==> Verdict(Run(b)) == Exact(n.neg, n.Mantissa(), n.Exponent() - |n.frac|)
    {
      LiteralInEnvelope(n, b);
    }
  }

  /** One literal: it is accepted if it fits the envelope, and then its own digits are what is computed. */
  lemma {:induction false} LiteralInEnvelope(n: Number, b: bytes)
    requires n.WellFormed() && n.Text() == b
    ensures Verdict(Run(b)).Exact? <==> InEnvelope(n)
    ensures Verdict(Run(b)).Exact? ==> Verdict(Run(b)) == Exact(n.neg, n.Mantissa(), n.Exponent() - |n.frac|)
  {
    RunNumber(n);
  }

  /** Every token the pass flags as cut off is one that some continuation completes. */
  lemma {:induction false} TruncatedIsExtensible(b: bytes)
    requires Verdict(Run(b)).Truncated?
    ensures b != [] && !IsNumber(b) && exists c: bytes :: IsNumber(b + c)
  {
    UnfinishedIffExtensible(b);
  }

  lemma {:induction false} ScaleAdd(x: real, y: real, e: int)
    ensures Scale(x + y, e) == Scale(x, e) + Scale(y, e)
    decreases if e < 0 then 0 - e else e
  {
    if e > 0 {
      ScaleAdd(10.0 * x, 10.0 * y, e - 1);
      assert 10.0 * (x + y) == 10.0 * x + 10.0 * y;
    } else if e < 0 {
      ScaleAdd(x / 10.0, y / 10.0, e + 1);
      assert (x + y) / 10.0 == x / 10.0 + y / 10.0;
    }
  }

  lemma {:induction false} ScaleUpOnce(x: real, e: int)
    ensures Scale(10.0 * x, e) == Scale(x, e + 1)
    decreases if e < 0 then 0 - e else e
  {
    if e < 0 {
      assert 10.0 * x / 10.0 == x == 10.0 * (x / 10.0);
      ScaleUpOnce(x / 10.0, e + 1);
    }
  }

  lemma {:induction false} ScaleScale(x: real, d: int, e: int)
    ensures Scale(Scale(x, d), e) == Scale(x, d + e)
    decreases if d < 0 then 0 - d else d
  {
    if d > 0 {
      ScaleScale(10.0 * x, d - 1, e);
      ScaleUpOnce(x, d - 1 + e);
    } else if d < 0 {
      ScaleScale(x / 10.0, d + 1, e);
      ScaleUpOnce(x / 10.0, d + e);
      assert 10.0 * (x / 10.0) == x;
    }
  }

  /** The digits with the decimal point dropped, scaled back, are the literal's significand. */
  lemma {:induction false} DropPoint(w: bytes, f: bytes)
    requires AllDigits(f)
    ensures Scale(Nat(w + f) as real, 0 - |f|) == Nat(w) as real + Scale(Nat(f) as real, 0 - |f|)
  {
    if f == [] {
      assert w + f == w;
    } else {
      var rest, c := f[..|f| - 1], f[|f| - 1];
      DropPoint(w, rest);
      assert w + f == w + rest + [c];
      NatAppend(w + rest, c);
      assert f == rest + [c];
      NatAppend(rest, c);
      var k, tenth := 0 - |rest|, (c - 0x30) as real / 10.0;
      ScaleAdd(Nat(w + rest) as real, tenth, k);
      ScaleAdd(Nat(rest) as real, tenth, k);
      assert Nat(w + f) as real / 10.0 == Nat(w + rest) as real + tenth;
      assert Nat(f) as real / 10.0 == Nat(rest) as real + tenth;
    }
  }

  /** A literal's value is its mantissa scaled by the exponent the pass reports. */
  lemma {:induction false} ValueOfDigits(n: Number)
    requires n.WellFormed()
    ensures var x := Scale(n.Mantissa() as real, n.Exponent() - |n.frac|);
      n.Value() == if n.neg then 0.0 - x else x
  {
    DropPoint(n.whole, n.frac);
    ScaleScale(n.Mantissa() as real, 0 - |n.frac|, n.Exponent());
  }

  // ----- one rounding -----

  /** `m` doubled `k` times. */
  function Doubled(m: nat, k: nat): nat
    decreases k
  {
    if k == 0 then m else Doubled(2 * m, k - 1)
  }

  /** An integer that a binary64 holds exactly: one of at most 53 bits, scaled up by a power of two. */
  ghost predicate ExactBinary64(x: real) {
    exists m: nat, k: nat :: m < LIMIT && k <= 971 && x == Doubled(m, k) as real
  }

  /** The table of powers of ten: entry `k` is 10^k = 5^k * 2^k, and 5^22 fits in 53 bits. */
  function PowerTable(k: nat): real {
    Scale(1.0, k)
  }

  function Fives(m: nat, k: nat): nat
    decreases k
  {
    if k == 0 then m else Fives(5 * m, k - 1)
  }

  lemma {:induction false} TensAreFivesAndTwos(m: nat, k: nat)
    ensures Scale(m as real, k) == Doubled(Fives(m, k), k) as real
    decreases k
  {
    if k > 0 {
      TensAreFivesAndTwos(10 * m, k - 1);
      FivesLinear(m, k - 1);
    }
  }

  lemma {:induction false} FivesLinear(m: nat, k: nat)
    ensures Fives(10 * m, k) == 2 * Fives(5 * m, k)
    decreases k
  {
    if k > 0 {
      FivesLinear(5 * m, k - 1);
    }
  }

  lemma {:induction false} FivesIncrease(m: nat, k: nat)
    ensures Fives(m, k) <= Fives(m, k + 1)
    decreases k
  {
    if k > 0 {
      FivesIncrease(5 * m, k - 1);
    } else {
      assert Fives(m, 1) == 5 * m;
    }
  }

  lemma {:induction false} FivesFit(k: nat)
    requires k <= MAX_POW10
    ensures Fives(1, k) < LIMIT
    decreases MAX_POW10 - k
  {
    if k < MAX_POW10 {
      FivesFit(k + 1);
      FivesIncrease(1, k);
    } else {
      assert Fives(1, 22) == Fives(25, 20) == Fives(625, 18) == Fives(15625, 16) == Fives(390625, 14);
      assert Fives(390625, 14) == Fives(9765625, 12) == Fives(244140625, 10) == Fives(6103515625, 8);
      assert Fives(6103515625, 8) == Fives(152587890625, 6) == Fives(3814697265625, 4);
      assert Fives(3814697265625, 4) == Fives(95367431640625, 2) == 2384185791015625;
    }
  }

  lemma {:induction false} MantissaExact(m: nat)
    requires m <= LIMIT
    ensures ExactBinary64(m as real)
  {
    if m == LIMIT {
      assert m as real == Doubled(LIMIT / 2, 1) as real;
    } else {
      assert m as real == Doubled(m, 0) as real;
    }
  }

  lemma {:induction false} PowerExact(k: nat)
    requires k <= MAX_POW10
    ensures ExactBinary64(PowerTable(k))
  {
    TensAreFivesAndTwos(1, k);
    FivesFit(k);
  }

  /** Multiplying by the table entry scales up; dividing by it scales down. */
  lemma {:induction false} ScaleByTable(x: real, k: nat)
    ensures x * PowerTable(k) == Scale(x, k)
    ensures x / PowerTable(k) == Scale(x, 0 - k)
    decreases k
  {
    if k > 0 {
      ScaleByTable(10.0 * x, k - 1);
      ScaleByTable(10.0, k - 1);
      ScaleByTable(x / 10.0, k - 1);
      MoveTen(x, PowerTable(k - 1), PowerTable(k));
    }
  }

  lemma {:induction false} MoveTen(x: real, p: real, q: real)
    requires p > 0.0 && q == 10.0 * p
    ensures 10.0 * x * p == x * q && x / 10.0 / p == x / q
  {
    var y := x / 10.0 / p;
    assert y * p == x / 10.0;
    assert y * q == 10.0 * (y * p) == x;
  }

  /** The one multiplication or division of the pass: with a power of ten as its second operand. */
  function Combine(m: real, p: real, e: int): real
    requires p > 0.0
  {
    if e >= 0 then m * p else m / p
  }

  function Operation(m: real, e: int): real {
    Combine(m, PowerTable(if e >= 0 then e else 0 - e), e)
  }

  lemma {:induction false} OperationScales(m: real, e: int)
    ensures Operation(m, e) == Scale(m, e)
  {
    if e >= 0 {
      ScaleByTable(m, e);
    } else {
      ScaleByTable(m, 0 - e);
    }
  }

  /** A rounding to binary64 as far as the argument needs it: symmetric, and exact where no rounding is needed. */
  ghost predicate IsRounding(round: real -> real) {
    (forall x: real :: round(0.0 - x) == 0.0 - round(x)) && (forall x: real :: ExactBinary64(x) ==> round(x) == x)
  }

  function Signed(neg: bool, x: real): real {
    if neg then 0.0 - x else x
  }

  lemma {:induction false} TablePositive(k: nat, round: real -> real)
    requires k <= MAX_POW10 && IsRounding(round)
    ensures round(PowerTable(k)) == PowerTable(k) > 0.0
  {
    PowerExact(k);
  }

  /** The one multiplication or division as it is carried out: on rounded operands, with a rounded result. */
  ghost function Rounded(round: real -> real, m: real, e: int): real
    requires IsRounding(round) && -MAX_POW10 <= e <= MAX_POW10
  {
    var k := if e >= 0 then e else 0 - e;
    TablePositive(k, round);
    round(Combine(round(m), round(PowerTable(k)), e))
  }

  /** The value that the pass computes from its digits and its exponent. */
  ghost function Compute(round: real -> real, r: FloatScan): real
    requires IsRounding(round) && !r.Refused? && -MAX_POW10 <= r.exp10 <= MAX_POW10
  {
    Signed(r.neg, Rounded(round, r.mant as real, r.exp10))
  }

  /** Both operands of the one operation are exact, so only its result is rounded, once. */
  lemma {:induction false} RoundedOnce(round: real -> real, mant: nat, e: int)
    requires IsRounding(round) && mant <= LIMIT && -MAX_POW10 <= e <= MAX_POW10
    ensures Rounded(round, mant as real, e) == round(Scale(mant as real, e))
  {
    var m, k := mant as real, if e >= 0 then e else 0 - e;
    MantissaExact(mant);
    TablePositive(k, round);
    OperationScales(m, e);
  }

  /** For every rounding, what the pass computes is the literal's exact value, rounded once. */
  lemma {:induction false} FastPathRoundsOnce(b: bytes, n: Number, round: real -> real)
    requires n.WellFormed() && n.Text() == b && Verdict(Run(b)).Exact? && IsRounding(round)
    ensures Compute(round, Verdict(Run(b))) == round(n.Value())
  {
    LiteralInEnvelope(n, b);
    RoundedOnce(round, n.Mantissa(), n.Exponent() - |n.frac|);
    ValueOfDigits(n);
  }

  // ----- the partial value of a token the input cut off -----

  function Tens(k: nat): nat {
    if k == 0 then 1 else 10 * Tens(k - 1)
  }

  lemma {:induction false} LeadingDigit(d: bytes)
    requires |d| > 0 && AllDigits(d) && d[0] != ZERO
    ensures Nat(d) >= Tens(|d| - 1)
  {
    if |d| > 1 {
      LeadingDigit(d[..|d| - 1]);
    } else {
      assert Nat(d) == 10 * Nat(d[..0]) + (d[0] - 0x30);
    }
  }

  lemma {:induction false} TensIncrease(j: nat, k: nat)
    requires j <= k
    ensures Tens(j) <= Tens(k)
  {
    if j < k {
      TensIncrease(j, k - 1);
    }
  }

  /** With a nonzero integer part a mantissa within 2^53 leaves room for at most 15 fraction digits. */
  lemma {:induction false} FractionBound(n: Number)
    requires n.WellFormed() && n.whole[0] != ZERO && n.Mantissa() <= LIMIT
    ensures |n.frac| <= 15
  {
    LeadingDigit(n.whole + n.frac);
    if |n.frac| >= 16 {
      TensIncrease(16, |n.whole + n.frac| - 1);
      assert Tens(16) == 10000000000000000 by {
        assert Tens(8) == 100000000;
      }
    }
  }

  /** A literal without an exponent that the input cut off behind a point, an exponent mark, or the mark's sign. */
  ghost predicate CutBehind(n: Number, b: bytes) {
    && n.WellFormed() && n.exp.NoExp?
    && ((n.frac == [] && b == n.Text() + [DOT])
        || exists m: byte, sign: bytes :: IsMark(m, sign) && b == n.Text() + [m] + sign)
  }

  predicate IsMark(m: byte, sign: bytes) {
    (m == 0x65 || m == 0x45) && (sign == [] || sign == [PLUS] || sign == [MINUS])
  }

  lemma {:induction false} CutScan(n: Number, b: bytes)
    requires CutBehind(n, b)
    ensures var s := Run(b); Unfinished(s.phase) && s.neg == n.neg && s.mant == n.Mantissa() && s.scale == |n.frac|
  {
    RunSignificand(n);
    assert n.Text() == n.Significand();
    if n.frac == [] && b == n.Text() + [DOT] {
      RunAppend(n.Text(), DOT);
    } else {
      var m: byte, sign: bytes :| IsMark(m, sign) && b == n.Text() + [m] + sign;
      RunMark(n.Text(), m, sign);
    }
  }

  /** What the pass flags as cut off is a lone minus sign or such a literal. */
  lemma {:induction false} CutForms(b: bytes)
    requires Verdict(Run(b)).Truncated?
    ensures b == [MINUS] || exists n: Number :: CutBehind(n, b) && n.Mantissa() <= LIMIT
  {
    FirstOnly(b);
    var n: Number;
    if Run(b).phase == Dot {
      n := ReadSignificand(b);
    } else if Run(b).phase == ExpMark {
      var m;
      n, m := ReadMark(b);
      assert b == n.Text() + [m] + [];
    } else if Run(b).phase == ExpSign {
      var m, sign, digits;
      n, m, sign, digits := ReadExponent(b);
      assert b == n.Text() + [m] + sign;
    }
    if b != [MINUS] {
      assert CutBehind(n, b);
      CutScan(n, b);
    }
  }

  /** The partial value of a token that was cut off. Its power of ten is read from the table by index; beyond the table
      the program stops. */
  ghost function PartialFloat(round: real -> real, r: FloatScan): Option<real>
    requires IsRounding(round) && r.Truncated?
  {
    if -MAX_POW10 <= r.exp10 <= MAX_POW10 then Some(Compute(round, r)) else None
  }

  /** For every cut-off literal within 2^53: the pass reports its digits, and the partial value is the rounded value of
      what has been read, exactly if the fraction has at most 22 digits. With a nonzero integer part it always has. */
  lemma {:induction false} PartialValueIff(n: Number, b: bytes, round: real -> real)
    requires CutBehind(n, b) && n.Mantissa() <= LIMIT && IsRounding(round)
    ensures var r := Verdict(Run(b));
      && r == Truncated(n.neg, n.Mantissa(), 0 - |n.frac|)
      && (PartialFloat(round, r).Some? <==> |n.frac| <= MAX_POW10)
      && (PartialFloat(round, r).Some? ==> PartialFloat(round, r).value == round(n.Value()))
      && (n.whole[0] != ZERO ==> PartialFloat(round, r).Some?)
  {
    CutScan(n, b);
    if n.whole[0] != ZERO {
      FractionBound(n);
    }
    if |n.frac| <= MAX_POW10 {
      PartialIsRounded(n, round);
    }
  }

  lemma {:induction false} PartialIsRounded(n: Number, round: real -> real)
    requires n.WellFormed() && n.exp.NoExp? && n.Mantissa() <= LIMIT && |n.frac| <= MAX_POW10 && IsRounding(round)
    ensures Compute(round, Truncated(n.neg, n.Mantissa(), 0 - |n.frac|)) == round(n.Value())
  {
    RoundedOnce(round, n.Mantissa(), 0 - |n.frac|);
    ValueOfDigits(n);
  }

  /** Zeros behind the point do not grow the mantissa: "0." and 23 zeros and "e" is reported as cut off with exponent
      -23, one past the table. */
  lemma {:induction false} PartialValueLeavesTable(b: bytes, zeros: bytes, round: real -> real)
    requires |zeros| == 23 && (forall k | 0 <= k < 23 :: zeros[k] == ZERO)
    requires b == [ZERO, DOT] + zeros + [0x65] && IsRounding(round)
    ensures Verdict(Run(b)) == Truncated(false, 0, -23) && PartialFloat(round, Verdict(Run(b))) == None
  {
    var n := Number(false, [ZERO], zeros, NoExp);
    assert n.Text() == [ZERO, DOT] + zeros;
    AllZeros([ZERO] + zeros);
    assert b == n.Text() + [0x65] + [];
    assert IsMark(0x65, []);
    CutScan(n, b);
  }

  lemma {:induction false} AllZeros(d: bytes)
    requires forall k | 0 <= k < |d| :: d[k] == ZERO
    ensures Nat(d) == 0
  {
    if d != [] {
      AllZeros(d[..|d| - 1]);
    }
  }
}
