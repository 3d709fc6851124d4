/** The index from object keys to struct fields: open addressing over four parallel arrays, for registries of more than
    16 fields, and a linear scan for smaller ones. The hash functions are arbitrary. */
module KeyIndex {
  import opened Wrappers
  import opened Bytes

  // ----- packed keys -----

  /** The little-endian number of up to eight bytes. */
  function Pack(k: bytes): nat {
    if |k| == 0 then 0 else k[0] + 256 * Pack(k[1..])
  }

  /** Given the length, the packed number determines the key. */
  lemma {:induction false} PackInjective(a: bytes, b: bytes)
    requires |a| == |b| && Pack(a) == Pack(b)
    ensures a == b
    decreases |a|
  {
    if |a| > 0 {
      var x, y := Pack(a[1..]), Pack(b[1..]);
      assert a[0] + 256 * x == b[0] + 256 * y;
      assert a[0] == b[0] && x == y;
      PackInjective(a[1..], b[1..]);
      assert a == [a[0]] + a[1..] && b == [b[0]] + b[1..];
    }
  }

  function Load8(k: bytes, i: nat): nat
    requires i < |k|
  {
    k[i]
  }

  function Load16(k: bytes, i: nat): nat
    requires i + 2 <= |k|
  {
    Load8(k, i) + 0x100 * Load8(k, i + 1)
  }

  function Load32(k: bytes, i: nat): nat
    requires i + 4 <= |k|
  {
    Load16(k, i) + 0x1_0000 * Load16(k, i + 2)
  }

  /** Keys of one to eight bytes are packed; others have the number 0. */
  function Packed(k: bytes): nat {
    if 1 <= |k| <= 8 then Pack(k) else 0
  }

  lemma {:induction false} PackUnfold(k: bytes, n: nat)
    requires n <= |k|
    ensures n == 1 ==> Pack(k) == k[0] + 0x100 * Pack(k[1..])
    ensures n == 2 ==> Pack(k) == Load16(k, 0) + 0x1_0000 * Pack(k[2..])
    ensures n == 4 ==> Pack(k) == Load32(k, 0) + 0x1_0000_0000 * Pack(k[4..])
  {
    if n >= 2 {
      assert k[1..][1..] == k[2..];
      assert Pack(k) == k[0] + 0x100 * (k[1] + 0x100 * Pack(k[2..]));
    }
    if n == 4 {
      assert k[2..][1..] == k[3..] && k[3..][1..] == k[4..];
      assert Pack(k[2..]) == k[2] + 0x100 * (k[3] + 0x100 * Pack(k[4..]));
    }
  }

  /** Packing by overlapping loads of one, two and four bytes. */
  method PackKey(k: bytes) returns (u: nat)
    ensures u == Packed(k)
  {
    u := 0;
    if |k| == 0 || |k| > 8 {
      return;
    }
    match |k| {
      case 1 =>
        PackUnfold(k, 1);
        u := k[0];
      case 2 =>
        PackUnfold(k, 2);
        u := Load16(k, 0);
      case 3 =>
        PackUnfold(k, 2);
        PackUnfold(k[2..], 1);
        u := Load16(k, 0) + 0x1_0000 * Load8(k, 2);
      case 4 =>
        PackUnfold(k, 4);
        u := Load32(k, 0);
      case 5 =>
        PackUnfold(k, 4);
        PackUnfold(k[4..], 1);
        u := Load32(k, 0) + 0x1_0000_0000 * Load8(k, 4);
      case 6 =>
        PackUnfold(k, 4);
        PackUnfold(k[4..], 2);
        u := Load32(k, 0) + 0x1_0000_0000 * Load16(k, 4);
      case 7 =>
        PackUnfold(k, 4);
        PackUnfold(k[4..], 2);
        PackUnfold(k[4..][2..], 1);
        u := Load32(k, 0) + 0x1_0000_0000 * Load16(k, 4) + 0x1_0000_0000_0000 * Load8(k, 6);
      case _ =>
        PackUnfold(k, 4);
        PackUnfold(k[4..], 4);
        u := Load32(k, 0) + 0x1_0000_0000 * Load32(k, 4);
    }
  }

  // ----- the specification: the first field with the key -----

  function FirstMatch(fields: seq<bytes>, key: bytes, from: nat := 0): (r: Option<nat>)
    requires from <= |fields|
    ensures r.Some? ==>
      from <= r.value < |fields| && fields[r.value] == key && forall i | from <= i < r.value :: fields[i] != key
    ensures r.None? ==> forall i | from <= i < |fields| :: fields[i] != key
    decreases |fields| - from
  {
    if from == |fields| then None else if fields[from] == key then Some(from) else FirstMatch(fields, key, from + 1)
  }

  lemma {:induction false} FirstMatchIs(fields: seq<bytes>, key: bytes, i: nat)
    requires i < |fields| && fields[i] == key && forall j | 0 <= j < i :: fields[j] != key
    ensures FirstMatch(fields, key) == Some(i)
  {
  }

  /** The scan of small registries compares lengths and packed numbers for short keys, and bytes for long ones. */
  method ScanFields(fields: seq<bytes>, key: bytes) returns (r: Option<nat>)
    ensures r == FirstMatch(fields, key)
  {
    var packed := PackKey(key);
    var i := 0;
    while i < |fields|
      invariant 0 <= i <= |fields| && forall j | 0 <= j < i :: fields[j] != key
    {
      var matches;
      if |key| <= 8 {
        var other := PackKey(fields[i]);
        matches := |fields[i]| == |key| && other == packed;
        if matches {
          assert Pack(fields[i]) == Pack(key);
          PackInjective(fields[i], key);
        }
      } else {
        matches := fields[i] == key;
      }
      if matches {
        FirstMatchIs(fields, key, i);
        return Some(i);
      }
      i := i + 1;
    }
    return None;
  }

  // ----- masks and probing -----

  predicate IsPowerOfTwo(n: nat) {
    n == 1 || (n > 1 && n % 2 == 0 && IsPowerOfTwo(n / 2))
  }

  /** Bitwise and. */
  function And(x: nat, y: nat): nat {
    if x == 0 || y == 0 then 0 else 2 * And(x / 2, y / 2) + (x % 2) * (y % 2)
  }

  lemma {:induction false} AndLowBit(x: nat, y: nat)
    requires x > 0 && y % 2 == 1
    ensures And(x, y) == 2 * And(x / 2, y / 2) + x % 2
  {
  }

  lemma {:induction false} MaskStep(x: nat, h: nat)
    requires x > 0 && h > 0 && And(x / 2, h - 1) == x / 2 % h
    ensures And(x, 2 * h - 1) == x % (2 * h)
  {
    AndLowBit(x, 2 * h - 1);
    assert (2 * h - 1) / 2 == h - 1;
    HalfRemainder(x, h);
  }

  /** Masking with a power of two less one is a remainder. */
  lemma {:induction false} MaskIsRemainder(x: nat, size: nat)
    requires IsPowerOfTwo(size)
    ensures And(x, size - 1) == x % size
    decreases size
  {
    if size == 1 {
      RemainderIs(x, 1, x, 0);
    } else if x == 0 {
      RemainderIs(0, size, 0, 0);
    } else {
      var h := size / 2;
      MaskIsRemainder(x / 2, h);
      MaskStep(x, h);
      assert size == 2 * h;
    }
  }

  lemma {:induction false} HalfRemainder(x: nat, h: nat)
    requires h > 0
    ensures x % (2 * h) == 2 * (x / 2 % h) + x % 2
  {
    var q, r := x / 2 / h, x / 2 % h;
    assert x / 2 == q * h + r;
    assert x == q * (2 * h) + (2 * r + x % 2);
    RemainderIs(x, 2 * h, q, 2 * r + x % 2);
  }

  lemma {:induction false} Grows(a: int, b: int, m: int)
    requires a < b && m > 0
    ensures a * m + m <= b * m
  {
    assert b * m == (b - a - 1) * m + a * m + m;
  }

  lemma {:induction false} RemainderIs(x: nat, m: nat, q: nat, r: nat)
    requires r < m && x == q * m + r
    ensures x % m == r
  {
    var p, s := x / m, x % m;
    assert x == p * m + s;
    if p < q {
      Grows(p, q, m);
    } else if q < p {
      Grows(q, p, m);
    }
  }

  /** The slot `d` steps behind `home`, round the end. */
  function Slot(home: nat, d: nat, size: nat): nat
    requires home < size && d < size
  {
    if home + d < size then home + d else home + d - size
  }

  /** Stepping to the next slot. */
  lemma {:induction false} NextSlot(home: nat, d: nat, size: nat)
    requires IsPowerOfTwo(size) && home < size && d + 1 < size
    ensures And(Slot(home, d, size) + 1, size - 1) == Slot(home, d + 1, size)
  {
    var next := Slot(home, d, size) + 1;
    MaskIsRemainder(next, size);
    RemainderIs(next, size, if next < size then 0 else 1, if next < size then next else 0);
  }

  lemma {:induction false} SlotsDiffer(home: nat, d: nat, e: nat, size: nat)
    requires home < size && d < e < size
    ensures Slot(home, d, size) != Slot(home, e, size)
  {
  }

  /** Every slot is some number of steps away. */
  lemma {:induction false} StepsTo(home: nat, slot: nat, size: nat) returns (d: nat)
    requires home < size && slot < size
    ensures d < size && Slot(home, d, size) == slot
  {
    d := if slot >= home then slot - home else slot + size - home;
  }
}
