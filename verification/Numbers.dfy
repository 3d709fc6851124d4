/** RFC 8259 section 6 numbers: the grammar, the scanners that recognise it, and the exact float fast path. */
module Numbers {
  import opened Bytes

  // ----- grammar: [ minus ] int [ frac ] [ exp ] -----

  datatype Exp = NoExp | Exp(mark: byte, sign: bytes, digits: bytes)

  /** A number as RFC 8259 section 6 writes it. An empty `frac` means that there is no fraction part. */
  datatype Number = Number(neg: bool, whole: bytes, frac: bytes, exp: Exp) {
    predicate WellFormed() {
      && AllDigits(whole) && |whole| > 0 && (whole[0] == ZERO ==> |whole| == 1)
      && AllDigits(frac)
      && (exp.Exp? ==>
            && (exp.mark == 0x65 || exp.mark == 0x45)
            && (exp.sign == [] || exp.sign == [PLUS] || exp.sign == [MINUS])
            && AllDigits(exp.digits) && |exp.digits| > 0)
    }

    function Head(): bytes {
      if neg then [MINUS] + whole else whole
    }

    function Significand(): bytes {
      if frac == [] then Head() else Head() + [DOT] + frac
    }

    function Text(): bytes {
      if exp.NoExp? then Significand() else Significand() + [exp.mark] + exp.sign + exp.digits
    }

    function Exponent(): int {
      if exp.NoExp? then 0 else if exp.sign == [MINUS] then 0 - Nat(exp.digits) else Nat(exp.digits)
    }

    /** The exact value the literal denotes: (whole + 0.frac) scaled by its power of ten. */
    function Value(): real {
      var magnitude := Scale(Nat(whole) as real + Scale(Nat(frac) as real, 0 - |frac|), Exponent());
      if neg then 0.0 - magnitude else magnitude
    }

    /** The integer the digits spell when the decimal point is dropped. */
    function Mantissa(): nat {
      Nat(whole + frac)
    }
  }

  const ZERO: byte := 0x30
  const MINUS: byte := 0x2D
  const PLUS: byte := 0x2B
  const DOT: byte := 0x2E

  ghost predicate IsNumber(b: bytes) {
    exists n: Number :: n.WellFormed() && n.Text() == b
  }

  /** The value of a run of decimal digits. */
  function Nat(d: bytes): nat {
    if d == [] then 0
    else if IsDigit(d[|d| - 1]) then 10 * Nat(d[..|d| - 1]) + (d[|d| - 1] - 0x30)
    else 0
  }

  /** `x` times ten to the power `e`. */
  function Scale(x: real, e: int): (r: real)
    ensures x > 0.0 ==> r > 0.0
    decreases if e < 0 then 0 - e else e
  {
    if e > 0 then Scale(10.0 * x, e - 1)
    else if e < 0 then Scale(x / 10.0, e + 1)
    else x
  }

  // ----- the one left-to-right scan every number routine performs -----

  datatype Phase = Start | Minus | Zero | Integer | Dot | Fraction | ExpMark | ExpSign | Exponent | Dead

  /** Where the grammar stands after a prefix, and the digits gathered so far. */
  datatype Scan = Scan(phase: Phase, neg: bool, mant: nat, scale: nat, expNeg: bool, exp: nat) {
    function Exponent(): int {
      if expNeg then 0 - exp else exp
    }
  }

  function NextPhase(p: Phase, c: byte): Phase {
    match p
    case Start => if c == MINUS then Minus else FirstDigit(c)
    case Minus => FirstDigit(c)
    case Zero => if c == DOT then Dot else BeforeExponent(c)
    case Integer => if IsDigit(c) then Integer else if c == DOT then Dot else BeforeExponent(c)
    case Dot => if IsDigit(c) then Fraction else Dead
    case Fraction => if IsDigit(c) then Fraction else BeforeExponent(c)
    case ExpMark => if c == PLUS || c == MINUS then ExpSign else if IsDigit(c) then Exponent else Dead
    case ExpSign => if IsDigit(c) then Exponent else Dead
    case Exponent => if IsDigit(c) then Exponent else Dead
    case Dead => Dead
  }

  function FirstDigit(c: byte): Phase {
    if c == ZERO then Zero else if IsDigit(c) then Integer else Dead
  }

  function BeforeExponent(c: byte): Phase {
    if c == 0x65 || c == 0x45 then ExpMark else Dead
  }

  function Step(s: Scan, c: byte): Scan {
    var p := NextPhase(s.phase, c);
    Scan(p,
         s.neg || p == Minus,
         if IsDigit(c) && p != Exponent && p != Dead then 10 * s.mant + (c - 0x30) else s.mant,
         if p == Fraction then s.scale + 1 else s.scale,
         s.expNeg || (p == ExpSign && c == MINUS),
         if IsDigit(c) && p == Exponent then 10 * s.exp + (c - 0x30) else s.exp)
  }

  const INITIAL := Scan(Start, false, 0, 0, false, 0)

  function Run(b: bytes): Scan {
    if b == [] then INITIAL else Step(Run(b[..|b| - 1]), b[|b| - 1])
  }

  predicate Accepting(p: Phase) {
    p == Zero || p == Integer || p == Fraction || p == Exponent
  }

  /** The phases in which the input stopped in the middle of the grammar. */
  predicate Unfinished(p: Phase) {
    p == Minus || p == Dot || p == ExpMark || p == ExpSign
  }

  // ----- the scan recognises exactly the grammar, and gathers the literal's digits -----

  lemma {:induction false} RunAppend(b: bytes, c: byte)
    ensures Run(b + [c]) == Step(Run(b), c)
  {
    assert (b + [c])[..|b|] == b;
  }

  /** The scan continued from index `i`. */
  function Continue(s: Scan, b: bytes, i: nat): Scan
    requires i <= |b|
    decreases |b| - i
  {
    if i == |b| then s else Continue(Step(s, b[i]), b, i + 1)
  }

  lemma {:induction false} ContinueRun(b: bytes, i: nat)
    requires i <= |b|
    ensures Continue(Run(b[..i]), b, i) == Run(b)
    decreases |b| - i
  {
    if i < |b| {
      assert b[..i + 1] == b[..i] + [b[i]];
      RunAppend(b[..i], b[i]);
      ContinueRun(b, i + 1);
    } else {
      assert b[..i] == b;
    }
  }

  lemma {:induction false} ContinueAll(b: bytes)
    ensures Continue(INITIAL, b, 0) == Run(b)
  {
    assert b[..0] == [];
    ContinueRun(b, 0);
  }

  /** The phase alone, continued from index `i`. */
  function PhaseFrom(p: Phase, b: bytes, i: nat): Phase
    requires i <= |b|
    decreases |b| - i
  {
    if i == |b| then p else PhaseFrom(NextPhase(p, b[i]), b, i + 1)
  }

  lemma {:induction false} PhaseOfScan(s: Scan, b: bytes, i: nat)
    requires i <= |b|
    ensures Continue(s, b, i).phase == PhaseFrom(s.phase, b, i)
    decreases |b| - i
  {
    if i < |b| {
      PhaseOfScan(Step(s, b[i]), b, i + 1);
    }
  }

  lemma {:induction false} DeadStays(b: bytes, i: nat)
    requires i <= |b|
    ensures PhaseFrom(Dead, b, i) == Dead
    decreases |b| - i
  {
    if i < |b| {
      DeadStays(b, i + 1);
    }
  }

  lemma {:induction false} PhaseOfRun(b: bytes)
    ensures PhaseFrom(Start, b, 0) == Run(b).phase
  {
    ContinueAll(b);
    PhaseOfScan(INITIAL, b, 0);
  }

  lemma {:induction false} NatAppend(d: bytes, c: byte)
    requires IsDigit(c)
    ensures Nat(d + [c]) == 10 * Nat(d) + (c - 0x30)
  {
    assert (d + [c])[..|d|] == d;
  }

  lemma {:induction false} RunInteger(a: bytes, d: bytes)
    requires |d| > 0 && AllDigits(d) && (d[0] == ZERO ==> |d| == 1)
    requires a == [] || a == [MINUS]
    ensures Run(a + d) == Scan(if d[0] == ZERO then Zero else Integer, a != [], Nat(d), 0, false, 0)
  {
    var rest, last := d[..|d| - 1], d[|d| - 1];
    RunAppend(a + rest, last);
    assert a + d == a + rest + [last];
    if rest == [] {
      assert a + rest == a;
      assert a != [] ==> Run(a) == Step(Run([]), MINUS);
      assert Nat(d) == 10 * Nat([]) + (last - 0x30);
    } else {
      RunInteger(a, rest);
    }
  }

  lemma {:induction false} RunFraction(a: bytes, w: bytes, d: bytes)
    requires Run(a).phase == Dot && Run(a).scale == 0 && |d| > 0 && AllDigits(d)
    requires Run(a).mant == Nat(w)
    ensures Run(a + d) == Run(a).(phase := Fraction, mant := Nat(w + d), scale := |d|)
  {
    var rest, last := d[..|d| - 1], d[|d| - 1];
    RunAppend(a + rest, last);
    assert a + d == a + rest + [last];
    NatAppend(w + rest, last);
    assert w + d == w + rest + [last];
    if rest == [] {
      assert a + rest == a;
      assert w + rest == w;
    } else {
      RunFraction(a, w, rest);
    }
  }

  lemma {:induction false} RunExponent(a: bytes, d: bytes)
    requires (Run(a).phase == ExpMark || Run(a).phase == ExpSign) && Run(a).exp == 0
    requires |d| > 0 && AllDigits(d)
    ensures Run(a + d) == Run(a).(phase := Exponent, exp := Nat(d))
  {
    var rest, last := d[..|d| - 1], d[|d| - 1];
    RunAppend(a + rest, last);
    assert a + d == a + rest + [last];
    if rest == [] {
      assert a + rest == a;
      assert Nat(d) == 10 * Nat([]) + (last - 0x30);
    } else {
      RunExponent(a, rest);
    }
  }

  lemma {:induction false} RunHead(n: Number)
    requires n.WellFormed()
    ensures Run(n.Head()) == Scan(if n.whole[0] == ZERO then Zero else Integer, n.neg, Nat(n.whole), 0, false, 0)
  {
    RunInteger(if n.neg then [MINUS] else [], n.whole);
    assert [] + n.whole == n.whole;
  }

  lemma {:induction false} RunPoint(a: bytes, w: bytes, f: bytes)
    requires (Run(a).phase == Zero || Run(a).phase == Integer) && Run(a).mant == Nat(w) && Run(a).scale == 0
    requires AllDigits(f) && f != []
    ensures Run(a + [DOT] + f) == Run(a).(phase := Fraction, mant := Nat(w + f), scale := |f|)
  {
    RunAppend(a, DOT);
    RunFraction(a + [DOT], w, f);
  }

  lemma {:induction false} RunSignificand(n: Number)
    requires n.WellFormed()
    ensures Run(n.Significand())
         == Scan(if n.frac != [] then Fraction else if n.whole[0] == ZERO then Zero else Integer,
                 n.neg, n.Mantissa(), |n.frac|, false, 0)
  {
    RunHead(n);
    var head := n.Head();
    if n.frac == [] {
      assert n.Significand() == head;
      assert n.whole + n.frac == n.whole;
    } else {
      RunPoint(head, n.whole, n.frac);
      assert n.Significand() == head + [DOT] + n.frac;
    }
  }

  lemma {:induction false} RunMark(a: bytes, m: byte, sign: bytes)
    requires (Run(a).phase == Zero || Run(a).phase == Integer || Run(a).phase == Fraction) && !Run(a).expNeg
    requires m == 0x65 || m == 0x45
    requires sign == [] || sign == [PLUS] || sign == [MINUS]
    ensures Run(a + [m] + sign)
         == Run(a).(phase := if sign == [] then ExpMark else ExpSign, expNeg := sign == [MINUS])
  {
    RunAppend(a, m);
    if sign == [] {
      assert a + [m] + sign == a + [m];
    } else {
      RunAppend(a + [m], sign[0]);
      assert sign == [sign[0]];
    }
  }

  lemma {:induction false} RunTail(a: bytes, e: Exp)
    requires Run(a).phase == Zero || Run(a).phase == Integer || Run(a).phase == Fraction
    requires !Run(a).expNeg && Run(a).exp == 0
    requires e.Exp? && (e.mark == 0x65 || e.mark == 0x45) && AllDigits(e.digits) && e.digits != []
    requires e.sign == [] || e.sign == [PLUS] || e.sign == [MINUS]
    ensures Run(a + [e.mark] + e.sign + e.digits)
         == Run(a).(phase := Exponent, expNeg := e.sign == [MINUS], exp := Nat(e.digits))
  {
    RunMark(a, e.mark, e.sign);
    RunExponent(a + [e.mark] + e.sign, e.digits);
  }

  /** What the scan gathers from any number literal. */
  lemma {:induction false} RunNumber(n: Number)
    requires n.WellFormed()
    ensures var s := Run(n.Text());
      && Accepting(s.phase) && s.neg == n.neg && s.scale == |n.frac|
      && s.mant == n.Mantissa()
      && s.Exponent() == n.Exponent()
  {
    RunSignificand(n);
    var a := n.Significand();
    if n.exp.NoExp? {
      assert n.Text() == a;
    } else {
      RunTail(a, n.exp);
      assert n.Text() == a + [n.exp.mark] + n.exp.sign + n.exp.digits;
    }
  }

  // One more byte read: the literal read so far grows by that byte.

  lemma {:induction false} GrowWhole(n: Number, c: byte)
    requires n.exp.NoExp? && n.frac == []
    ensures n.(whole := n.whole + [c]).Text() == n.Text() + [c]
  {
    assert n.(whole := n.whole + [c]).Head() == n.Head() + [c];
  }

  lemma {:induction false} GrowFraction(n: Number, c: byte)
    requires n.exp.NoExp?
    ensures n.(frac := n.frac + [c]).Text() == (if n.frac == [] then n.Text() + [DOT] else n.Text()) + [c]
  {
    assert n.frac == [] ==> n.frac + [c] == [c];
  }

  lemma {:induction false} GrowExponent(n: Number, m: byte, sign: bytes, digits: bytes, c: byte)
    requires n.exp.NoExp?
    ensures n.(exp := Exp(m, sign, digits + [c])).Text() == n.Text() + [m] + sign + digits + [c]
  {
    assert n.Text() == n.Significand();
  }

  lemma {:induction false} FirstOnly(b: bytes)
    ensures Run(b).phase == Start ==> b == []
    ensures Run(b).phase == Minus ==> b == [MINUS]
  {
    if Run(b).phase == Minus {
      FirstOnly(b[..|b| - 1]);
    }
  }

  /** The first digit, behind a minus sign or at the start. */
  lemma {:induction false} ReadFirst(rest: bytes, c: byte) returns (n: Number)
    requires (rest == [] || rest == [MINUS]) && IsDigit(c)
    ensures n == Number(rest != [], [c], [], NoExp) && n.WellFormed() && n.Text() == rest + [c]
  {
    n := Number(rest != [], [c], [], NoExp);
    assert n.Text() == n.Head();
  }

  /** One more digit of an integer part that does not begin with zero. */
  lemma {:induction false} ReadDigit(m: Number, c: byte) returns (n: Number)
    requires m.WellFormed() && m.exp.NoExp? && m.frac == [] && m.whole[0] != ZERO && IsDigit(c)
    ensures n.WellFormed() && n.exp.NoExp? && n.frac == [] && n.Text() == m.Text() + [c] && n.whole[0] != ZERO
  {
    GrowWhole(m, c);
    n := m.(whole := m.whole + [c]);
  }

  /** The literal that a scan inside the integer part has read. */
  lemma {:induction false} ReadWhole(b: bytes) returns (n: Number)
    requires Run(b).phase == Zero || Run(b).phase == Integer
    ensures n.WellFormed() && n.exp.NoExp? && n.frac == [] && n.Text() == b
    ensures Run(b).phase == Integer ==> n.whole[0] != ZERO
  {
    var rest, c := b[..|b| - 1], b[|b| - 1];
    assert b == rest + [c];
    if Run(rest).phase == Integer {
      n := ReadWhole(rest);
      n := ReadDigit(n, c);
    } else {
      FirstOnly(rest);
      n := ReadFirst(rest, c);
    }
  }

  lemma {:induction false} ReadFractionDigit(m: Number, c: byte) returns (n: Number)
    requires m.WellFormed() && m.exp.NoExp? && IsDigit(c)
    ensures n.WellFormed() && n.exp.NoExp? && n.frac != []
    ensures n.Text() == (if m.frac == [] then m.Text() + [DOT] else m.Text()) + [c]
  {
    GrowFraction(m, c);
    n := m.(frac := m.frac + [c]);
  }

  /** The literal that a scan inside the significand has read. */
  lemma {:induction false} ReadSignificand(b: bytes) returns (n: Number)
    requires Run(b).phase == Zero || Run(b).phase == Integer || Run(b).phase == Dot || Run(b).phase == Fraction
    ensures n.WellFormed() && n.exp.NoExp?
    ensures b == if Run(b).phase == Dot then n.Text() + [DOT] else n.Text()
    ensures n.frac != [] <==> Run(b).phase == Fraction
  {
    var rest, c := b[..|b| - 1], b[|b| - 1];
    assert b == rest + [c];
    if Run(b).phase == Zero || Run(b).phase == Integer {
      n := ReadWhole(b);
    } else if Run(b).phase == Dot {
      n := ReadWhole(rest);
    } else {
      n := ReadSignificand(rest);
      n := ReadFractionDigit(n, c);
    }
  }

  lemma {:induction false} ReadMark(b: bytes) returns (n: Number, m: byte)
    requires Run(b).phase == ExpMark
    ensures n.WellFormed() && n.exp.NoExp? && (m == 0x65 || m == 0x45) && b == n.Text() + [m]
  {
    var rest := b[..|b| - 1];
    m := b[|b| - 1];
    assert b == rest + [m];
    n := ReadSignificand(rest);
  }

  /** The literal that a scan at the exponent's sign or digits has read. */
  lemma {:induction false} ReadExponent(b: bytes) returns (n: Number, m: byte, sign: bytes, digits: bytes)
    requires Run(b).phase == ExpSign || Run(b).phase == Exponent
    ensures n.WellFormed() && n.exp.NoExp? && (m == 0x65 || m == 0x45) && AllDigits(digits)
    ensures b == n.Text() + [m] + sign + digits
    ensures sign == [PLUS] || sign == [MINUS] || (sign == [] && Run(b).phase == Exponent)
    ensures Run(b).phase == Exponent <==> digits != []
  {
    var rest, c := b[..|b| - 1], b[|b| - 1];
    assert b == rest + [c];
    if Run(rest).phase == ExpMark {
      n, m := ReadMark(rest);
      if IsDigit(c) {
        sign, digits := [], [c];
      } else {
        sign, digits := [c], [];
      }
    } else {
      n, m, sign, digits := ReadExponent(rest);
      digits := digits + [c];
    }
  }

  /** The literal that an accepting scan has read. */
  lemma {:induction false} ReadNumber(b: bytes) returns (n: Number)
    requires Accepting(Run(b).phase)
    ensures n.WellFormed() && n.Text() == b
  {
    if Run(b).phase == Exponent {
      var m, sign, digits;
      n, m, sign, digits := ReadExponent(b);
      GrowExponent(n, m, sign, digits[..|digits| - 1], digits[|digits| - 1]);
      n := n.(exp := Exp(m, sign, digits));
    } else {
      n := ReadSignificand(b);
    }
  }

  /** The scan accepts exactly the numbers of RFC 8259 section 6. */
  lemma {:induction false} AcceptsExactlyNumbers(b: bytes)
    ensures Accepting(Run(b).phase) <==> IsNumber(b)
  {
    if Accepting(Run(b).phase) {
      var n := ReadNumber(b);
    }
    if IsNumber(b) {
      var n: Number :| n.WellFormed() && n.Text() == b;
      RunNumber(n);
    }
  }

  method ValidJSONNumber(b: bytes) returns (valid: bool)
    ensures valid <==> IsNumber(b)
  {
    valid := ScanNumber(b);
    PhaseOfRun(b);
    AcceptsExactlyNumbers(b);
  }

  method ScanNumber(b: bytes) returns (valid: bool)
    ensures valid <==> Accepting(PhaseFrom(Start, b, 0))
  {
    if |b| == 0 {
      return false;
    }
    var i: nat := 0;
    ghost var p := Start;
    if b[0] == MINUS {
      i, p := i + 1, Minus;
    }
    assert PhaseFrom(p, b, i) == PhaseFrom(Start, b, 0);
    if i >= |b| {
      return false;
    }
    if b[i] == ZERO {
      i, p := i + 1, Zero;
      assert PhaseFrom(Zero, b, i) == PhaseFrom(Start, b, 0);
      if i < |b| && IsDigit(b[i]) {
        DeadStays(b, i + 1);
        return false;
      }
    } else if IsDigit(b[i]) {
      i, p := i + 1, Integer;
      while i < |b| && IsDigit(b[i])
        invariant 0 <= i <= |b|
        invariant PhaseFrom(Integer, b, i) == PhaseFrom(Start, b, 0)
      {
        i := i + 1;
      }
    } else {
      DeadStays(b, i + 1);
      return false;
    }
    valid := ScanBehindInteger(b, i, p);
  }

  /** The fraction and the exponent, behind an integer part that is complete. */
  method ScanBehindInteger(b: bytes, i0: nat, ghost p0: Phase) returns (valid: bool)
    requires i0 <= |b| && (p0 == Zero || p0 == Integer) && (i0 < |b| ==> !IsDigit(b[i0]))
    ensures valid <==> Accepting(PhaseFrom(p0, b, i0))
  {
    var i := i0;
    ghost var p := p0;
    if i < |b| && b[i] == DOT {
      i, p := i + 1, Dot;
      assert PhaseFrom(Dot, b, i) == PhaseFrom(p0, b, i0);
      if i >= |b| || !IsDigit(b[i]) {
        if i < |b| {
          DeadStays(b, i + 1);
        }
        return false;
      }
      while i < |b| && IsDigit(b[i])
        invariant 0 <= i <= |b|
        invariant p == Fraction || (p == Dot && i < |b| && IsDigit(b[i]))
        invariant PhaseFrom(p, b, i) == PhaseFrom(p0, b, i0)
      {
        i, p := i + 1, Fraction;
      }
    }
    valid := ScanExponent(b, i, p);
  }

  /** The exponent, and the end of the token. */
  method ScanExponent(b: bytes, i0: nat, ghost p0: Phase) returns (valid: bool)
    requires i0 <= |b| && (p0 == Zero || p0 == Integer || p0 == Fraction)
    requires i0 < |b| ==> !IsDigit(b[i0]) && (b[i0] == DOT ==> p0 == Fraction)
    ensures valid <==> Accepting(PhaseFrom(p0, b, i0))
  {
    var i := i0;
    ghost var p := p0;
    if i < |b| && (b[i] == 0x65 || b[i] == 0x45) {
      i, p := i + 1, ExpMark;
      assert PhaseFrom(ExpMark, b, i) == PhaseFrom(p0, b, i0);
      if i < |b| && (b[i] == PLUS || b[i] == MINUS) {
        i, p := i + 1, ExpSign;
      }
      assert PhaseFrom(p, b, i) == PhaseFrom(p0, b, i0);
      if i >= |b| || !IsDigit(b[i]) {
        if i < |b| {
          DeadStays(b, i + 1);
        }
        return false;
      }
      while i < |b| && IsDigit(b[i])
        invariant 0 <= i <= |b|
        invariant p == Exponent || ((p == ExpMark || p == ExpSign) && i < |b| && IsDigit(b[i]))
        invariant PhaseFrom(p, b, i) == PhaseFrom(p0, b, i0)
      {
        i, p := i + 1, Exponent;
      }
    }
    valid := i == |b|;
    if i < |b| {
      DeadStays(b, i + 1);
    }
  }

  // ----- tokens the input cut off -----

  lemma {:induction false} AlivePrefix(b: bytes, c: bytes)
    requires Run(b + c).phase != Dead
    ensures Run(b).phase != Dead
  {
    if c == [] {
      assert b + c == b;
    } else {
      assert b + c == b + c[..|c| - 1] + [c[|c| - 1]];
      RunAppend(b + c[..|c| - 1], c[|c| - 1]);
      AlivePrefix(b, c[..|c| - 1]);
    }
  }

  /** Stopping inside the grammar means exactly: not a number, but some continuation makes it one. */
  lemma {:induction false} UnfinishedIffExtensible(b: bytes)
    requires b != []
    ensures Unfinished(Run(b).phase) <==> !IsNumber(b) && exists c: bytes :: IsNumber(b + c)
  {
    AcceptsExactlyNumbers(b);
    if Unfinished(Run(b).phase) {
      RunAppend(b, ZERO);
      AcceptsExactlyNumbers(b + [ZERO]);
    }
    if exists c: bytes :: IsNumber(b + c) {
      var c: bytes :| IsNumber(b + c);
      AcceptsExactlyNumbers(b + c);
      AlivePrefix(b, c);
      FirstOnly(b);
    }
  }

  method IncompleteNumber(b: bytes) returns (incomplete: bool)
    ensures incomplete <==> b != [] && !IsNumber(b) && exists c: bytes :: IsNumber(b + c)
  {
    incomplete := ScanIncomplete(b);
    PhaseOfRun(b);
    if b != [] {
      UnfinishedIffExtensible(b);
    }
  }

  method ScanIncomplete(b: bytes) returns (incomplete: bool)
    ensures incomplete <==> Unfinished(PhaseFrom(Start, b, 0))
  {
    var i, signed := 0, false;
    ghost var p := Start;
    if i < |b| && b[i] == MINUS {
      i, signed, p := i + 1, true, Minus;
    }
    assert PhaseFrom(p, b, i) == PhaseFrom(Start, b, 0);
    if i == |b| {
      return signed;
    }
    var ds := i;
    while i < |b| && IsDigit(b[i])
      invariant ds <= i <= |b| && (i < |b| || i > ds)
      invariant p == if i == ds then (if signed then Minus else Start)
                     else if b[ds] != ZERO then Integer
                     else if i == ds + 1 then Zero else Dead
      invariant PhaseFrom(p, b, i) == PhaseFrom(Start, b, 0)
    {
      i, p := i + 1, NextPhase(p, b[i]);
    }
    if i == ds || (i - ds > 1 && b[ds] == ZERO) {
      if i == ds {
        DeadStays(b, i + 1);
      } else {
        DeadStays(b, i);
      }
      return false;
    }
    if i == |b| {
      return false;
    }
    if b[i] == DOT {
      i, p := i + 1, Dot;
      assert PhaseFrom(Dot, b, i) == PhaseFrom(Start, b, 0);
      var fs := i;
      while i < |b| && IsDigit(b[i])
        invariant fs <= i <= |b| && p == if i == fs then Dot else Fraction
        invariant PhaseFrom(p, b, i) == PhaseFrom(Start, b, 0)
      {
        i, p := i + 1, Fraction;
      }
      if i == fs {
        if i < |b| {
          DeadStays(b, i + 1);
        }
        return i == |b|;
      }
      if i == |b| {
        return false;
      }
    }
    if b[i] == 0x65 || b[i] == 0x45 {
      i, p := i + 1, ExpMark;
      assert PhaseFrom(ExpMark, b, i) == PhaseFrom(Start, b, 0);
      if i < |b| && (b[i] == PLUS || b[i] == MINUS) {
        i, p := i + 1, ExpSign;
      }
      assert PhaseFrom(p, b, i) == PhaseFrom(Start, b, 0);
      if i == |b| {
        return true;
      }
      ExponentSettles(b, i + 1);
      DeadStays(b, i + 1);
      return false;
    }
    DeadStays(b, i + 1);
    return false;
  }

  lemma {:induction false} ExponentSettles(b: bytes, i: nat)
    requires i <= |b|
    ensures PhaseFrom(Exponent, b, i) in {Exponent, Dead}
    decreases |b| - i
  {
    if i < |b| {
      ExponentSettles(b, i + 1);
      DeadStays(b, i + 1);
    }
  }
}
