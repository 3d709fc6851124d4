/** Whether the serial readers insist on exactly one comma between two elements: in one window they do, across windows
    only if no window ends in a dropped chunk. */
module SeparatorTheorems {
  import opened Bytes
  import opened Splitter
  import opened Windows
  import opened Slices
  import opened SliceTheorems
  import opened WellFormedArrays

  // ----- the exact condition -----

  ghost predicate HasElements(inner: bytes, off: nat, cap: nat) {
    off < |inner| && Solid(Window(inner, off, cap)) != []
  }

  /** From the window at `off` on, every window that is followed by one with elements ends in an element: its last chunk
      is not one that the reader drops. */
  ghost predicate Seamless(inner: bytes, off: nat, cap: nat)
    decreases if off < |inner| then |inner| - off else 0
  {
    HasElements(inner, off, cap) ==>
      var cs := Window(inner, off, cap);
      HasElements(inner, off + EndOf(cs), cap) ==>
        EndOf(Solid(cs)) == EndOf(cs) && Seamless(inner, off + EndOf(cs), cap)
  }

  /** Commas of dropped chunks and one more comma are not exactly one comma. */
  lemma {:induction false} CommaTwice(inner: bytes, i: nat, off: nat, j: nat)
    requires i < off <= j <= |inner| && Is(inner, i, COMMA) && Separates(inner[off..j], true)
    ensures !Separates(inner[i..j], true)
  {
    var a, b := inner[i..j], inner[off..j];
    var c: nat :| CommaAt(b, c);
    assert a[0] == COMMA && a[off - i + c] == b[c] == COMMA;
    forall k: nat | k < |a| ensures !CommaAt(a, k) {
      assert k > 0 ==> a[..k][0] == COMMA;
      assert k == 0 ==> a[1..][off - i + c - 1] == COMMA;
    }
  }

  /** The gap before the first element of a window is good as a gap of the whole input exactly if nothing was dropped in
      front of the window. */
  lemma {:induction false} FirstGap(inner: bytes, off: nat, done: seq<Chunk>, kept: seq<Chunk>)
    requires off < |inner| && SoFar(inner, off, done) && kept != [] && GapsOk(inner[off..], kept, done != [])
    ensures GapOk(inner, done + Shift(kept, off), |done|, false) <==> done != [] ==> EndOf(done) == off
  {
    var all, first := done + Shift(kept, off), kept[0].start;
    assert GapOk(inner[off..], kept, 0, done != []);
    assert inner[off..][0..first] == inner[off..off + first];
    assert all[|done|] == Moved(kept[0], off);
    if done != [] && EndOf(done) < off {
      assert Is(inner, EndOf(done), COMMA);
      CommaTwice(inner, EndOf(done), off, off + first);
    }
  }

  lemma {:induction false} WindowSeam(inner: bytes, off: nat, done: seq<Chunk>, kept: seq<Chunk>)
    requires off < |inner| && SoFar(inner, off, done) && kept != [] && GapsOk(inner[off..], kept, done != [])
    ensures GapsOk(inner, done + Shift(kept, off), false) <==>
      GapsOk(inner, done, false) && (done != [] ==> EndOf(done) == off)
  {
    var all := done + Shift(kept, off);
    forall k | 0 <= k < |done| ensures GapOk(inner, all, k, false) <==> GapOk(inner, done, k, false) {
    }
    forall k | |done| < k < |all| ensures GapOk(inner, all, k, false) {
      var i := k - |done|;
      assert GapOk(inner[off..], kept, i, done != []);
      assert inner[off..][kept[i - 1].end..kept[i].start] == inner[off + kept[i - 1].end..off + kept[i].start];
      assert all[k] == Moved(kept[i], off) && all[k - 1] == Moved(kept[i - 1], off);
    }
    FirstGap(inner, off, done, kept);
    if GapsOk(inner, all, false) {
      assert GapOk(inner, all, |done|, false);
      forall k | 0 <= k < |done| ensures GapOk(inner, done, k, false) {
        assert GapOk(inner, all, k, false);
      }
    }
  }

  lemma {:induction false} DriveSeam(inner: bytes, off: nat, done: seq<Chunk>, cap: nat, room: nat,
                                     accepts: bytes -> bool, turn: (nat, seq<Chunk>) -> Turn)
    requires SoFar(inner, off, done) && AllAccepted(inner, done, accepts)
    requires Decides(turn, inner, cap, room, accepts) && Drive(inner, off, done, turn).Accepted?
    ensures GapsOk(inner, Drive(inner, off, done, turn).ranges, false) <==>
      && GapsOk(inner, done, false)
      && (HasElements(inner, off, cap) ==> (done != [] ==> EndOf(done) == off) && Seamless(inner, off, cap))
    decreases |inner| - off
  {
    if off < |inner| {
      var t, cs := TurnAt(inner, off, done, cap, room, accepts), Window(inner, off, cap);
      assert turn(off, done) == t;
      if t.Go? {
        TurnKeeps(inner, off, done, cap, room, accepts);
        DriveSeam(inner, t.off, t.done, cap, room, accepts, turn);
        WindowSeam(inner, off, done, Solid(cs));
        EndShifted(done, Solid(cs), off);
      }
    }
  }

  /** Any two neighbouring ranges of an accepted array are separated by exactly one comma if and only if every window
      that is followed by another one with elements ends in an element. */
  lemma {:induction false} OneCommaIff(raw: bytes, cap: nat, room: nat, accepts: bytes -> bool)
    requires raw != [] && Accept(raw, cap, room, accepts).Accepted?
    ensures GapsOk(Inner(raw), Accept(raw, cap, room, accepts).ranges, false) <==> Seamless(Inner(raw), 0, cap)
  {
    TurnsDecide(Inner(raw), cap, room, accepts);
    DriveSeam(Inner(raw), 0, [], cap, room, accepts, Turns(Inner(raw), cap, room, accepts));
  }

  // ----- one window -----

  /** Right after the comma that ended the last chunk, the splitter is back at element level. */
  lemma {:induction false} LastComma(s: State, data: bytes, i: nat, j: nat, cap: nat, t: State)
    requires i <= j <= |data| && !s.halted && t == Run(s, data, i, j, cap)
    requires |s.chunks| < |t.chunks| < cap && Is(data, EndOf(t.chunks), COMMA)
    ensures var e := EndOf(t.chunks);
      i <= e < j && Run(s, data, i, e + 1, cap) == State(false, false, 0, e + 1, t.chunks, false)
    decreases j - i
  {
    var next := Step(s, i, data[i], cap);
    RunGrows(next, data, i + 1, j, cap);
    if |next.chunks| == |t.chunks| {
      assert next.chunks == t.chunks;
    } else {
      if next.halted {
        RunHalted(next, data, i + 1, j, cap);
      }
      LastComma(next, data, i + 1, j, cap, t);
    }
  }

  /** Bytes in which one scan stores nothing more store nothing in a later window either. */
  lemma {:induction false} StaysQuiet(s: State, data: bytes, i: nat, cap: nat, u: State, w: bytes, d: nat, more: nat)
    requires d <= i <= |data| && w == data[d..] && !s.halted && !u.halted
    requires s.escaped == u.escaped && s.inString == u.inString && s.depth == u.depth
    requires |s.chunks| < cap && |Run(s, data, i, |data|, cap).chunks| == |s.chunks| && |u.chunks| < more
    ensures Run(u, w, i - d, |w|, more).chunks == u.chunks
    decreases |data| - i
  {
    if i < |data| {
      var next, after := Step(s, i, data[i], cap), Step(u, i - d, w[i - d], more);
      RunGrows(next, data, i + 1, |data|, cap);
      assert next.chunks == s.chunks;
      StaysQuiet(next, data, i + 1, cap, after, w, d, more);
    }
  }

  /** When a scan did not fill its buffer, the window behind its last chunk holds nothing but a phantom. */
  lemma {:induction false} NothingLeft(inner: bytes, cap: nat)
    requires inner != [] && Window(inner, 0, cap) != [] && |Window(inner, 0, cap)| < cap
    ensures var off := EndOf(Window(inner, 0, cap));
      off < |inner| && Window(inner, off, cap) == [Chunk(0, 0)] && Solid(Window(inner, off, cap)) == []
  {
    assert inner[0..] == inner;
    var first, t := SkipSpace(inner, 0), Split(inner, cap);
    var off := EndOf(t.chunks);
    SplitTiled(inner, cap);
    assert Tiles(inner, first, t.chunks, |t.chunks| - 1);
    var w := inner[off..];
    assert SkipSpace(w, 0) == 0;
    var u := Step(Initial(0), 0, w[0], cap);
    if inner[off] == COMMA {
      LastComma(Initial(first), inner, first, |inner|, cap, t);
      var s := State(false, false, 0, off + 1, t.chunks, false);
      RunSplit(Initial(first), inner, first, off + 1, |inner|, cap);
      StaysQuiet(s, inner, off + 1, cap, u, w, off, cap);
    } else {
      RunHalted(u, w, 1, |w|, cap);
    }
    var cs := Window(inner, off, cap);
    assert cs == [Chunk(0, 0)];
    assert SolidTo(cs, 1) == SolidTo(cs, 0) == [];
  }

  /** In particular it is so if the whole array fits one scan of the chunk buffer. */
  lemma {:induction false} OneWindowOneComma(raw: bytes, cap: nat, room: nat, accepts: bytes -> bool)
    requires raw != [] && Accept(raw, cap, room, accepts).Accepted?
    requires |Split(Inner(raw), cap).chunks| < cap
    ensures GapsOk(Inner(raw), Accept(raw, cap, room, accepts).ranges, false)
  {
    var inner := Inner(raw);
    OneCommaIff(raw, cap, room, accepts);
    if inner != [] {
      assert inner[0..] == inner;
      if Window(inner, 0, cap) != [] {
        NothingLeft(inner, cap);
      }
    }
  }

  // ----- a doubled comma that is accepted, for every chunk buffer -----

  /** `n` times "1,". */
  function Ones(n: nat): bytes {
    if n == 0 then [] else Ones(n - 1) + [0x31, COMMA]
  }

  /** An array whose first window is filled by `n` elements and the first of two commas. */
  function Doubled(n: nat): bytes {
    Ones(n) + [COMMA, 0x32, RBRACKET]
  }

  /** The ranges of the ones. */
  function OneRanges(n: nat): (cs: seq<Chunk>)
    ensures |cs| == n && forall k | 0 <= k < n :: cs[k] == Chunk(2 * k, 2 * k + 1)
  {
    seq(n, k requires 0 <= k < n => Chunk(2 * k, 2 * k + 1))
  }

  lemma {:induction false} OnesAt(n: nat, k: nat)
    requires k <= n
    ensures |Ones(n)| == 2 * n && Ones(k) <= Ones(n)
    ensures k < n ==> Ones(n)[2 * k] == 0x31 && Ones(n)[2 * k + 1] == COMMA
  {
    if n > 0 {
      OnesAt(n - 1, if k < n then k else n - 1);
    }
  }

  /** The splitter behind `k` of the ones. */
  lemma {:induction false} RunOnes(n: nat, k: nat, cap: nat)
    requires k <= n < cap
    ensures |Doubled(n)| == 2 * n + 3 &&
      Run(Initial(0), Doubled(n), 0, 2 * k, cap) == State(false, false, 0, 2 * k, OneRanges(k), false)
    decreases k
  {
    var inner, s := Doubled(n), Initial(0);
    OnesAt(n, k);
    if k > 0 {
      var i, done := 2 * (k - 1), OneRanges(k - 1);
      RunOnes(n, k - 1, cap);
      OnesAt(n, k - 1);
      RunSplit(s, inner, 0, i, 2 * k, cap);
      var t := State(false, false, 0, i, done, false);
      var u := State(false, false, 0, 2 * k, done + [Chunk(i, i + 1)], false);
      assert inner[i] == 0x31 && inner[i + 1] == COMMA;
      assert Step(t, i, inner[i], cap) == t && Step(t, i + 1, inner[i + 1], cap) == u;
      assert Run(t, inner, i, 2 * k, cap) == Run(t, inner, i + 1, 2 * k, cap) == Run(u, inner, 2 * k, 2 * k, cap);
      assert OneRanges(k) == done + [Chunk(i, i + 1)];
    }
  }

  /** The first window: the ones and an empty chunk at the second comma. */
  lemma {:induction false} FirstDoubled(n: nat)
    requires n > 0
    ensures |Doubled(n)| == 2 * n + 3 && Window(Doubled(n), 0, n + 1) == OneRanges(n) + [Chunk(2 * n, 2 * n)]
  {
    var inner, cap := Doubled(n), n + 1;
    OnesAt(n, 0);
    assert inner[0] == 0x31 && inner[0..] == inner && SkipSpace(inner, 0) == 0;
    RunOnes(n, n, cap);
    RunSplit(Initial(0), inner, 0, 2 * n, |inner|, cap);
    var t := Run(Initial(0), inner, 0, 2 * n, cap);
    assert inner[2 * n] == COMMA;
    RunHalted(Step(t, 2 * n, COMMA, cap), inner, 2 * n + 1, |inner|, cap);
  }

  /** The second window begins at the second comma and holds the last element. */
  lemma {:induction false} SecondDoubled(n: nat)
    requires n > 0
    ensures |Doubled(n)| == 2 * n + 3 && Window(Doubled(n), 2 * n, n + 1) == [Chunk(0, 0), Chunk(1, 2)]
  {
    var cap, s := n + 1, Initial(0);
    OnesAt(n, 0);
    var w := Doubled(n)[2 * n..];
    assert w == [COMMA, 0x32, RBRACKET] && SkipSpace(w, 0) == 0;
    var t := Step(s, 0, w[0], cap);
    assert t == s.(start := 1, chunks := [Chunk(0, 0)]) && Step(t, 1, w[1], cap) == t;
    var u := Step(t, 2, w[2], cap);
    assert Run(s, w, 0, 3, cap) == Run(t, w, 1, 3, cap) == Run(t, w, 2, 3, cap) == Run(u, w, 3, 3, cap);
  }

  lemma {:induction false} ThirdDoubled(n: nat)
    requires n > 0
    ensures |Doubled(n)| == 2 * n + 3 && Window(Doubled(n), 2 * n + 2, n + 1) == [Chunk(0, 0)]
    ensures Closes(Doubled(n)[2 * n + 2..], 0) && ClosesAt(Doubled(n), 2 * n + 2, 2 * n + 2)
  {
    OnesAt(n, 0);
    var w := Doubled(n)[2 * n + 2..];
    assert w == [RBRACKET] && SkipSpace(w, 0) == 0;
    var u := Step(Initial(0), 0, w[0], n + 1);
    assert Run(Initial(0), w, 0, 1, n + 1) == Run(u, w, 1, 1, n + 1);
    assert ClosesAt(w, 0, 0);
  }

  lemma {:induction false} DropLast(cs: seq<Chunk>, c: Chunk)
    requires NoneEmpty(cs) && c.start == c.end
    ensures Solid(cs + [c]) == cs
  {
    var all := cs + [c];
    SolidEvery(cs, |cs|);
    SolidSame(all, cs, |cs|);
    assert cs[..|cs|] == cs;
  }

  lemma {:induction false} SolidSame(all: seq<Chunk>, cs: seq<Chunk>, n: nat)
    requires n <= |cs| && cs <= all
    ensures SolidTo(all, n) == SolidTo(cs, n)
  {
    if n > 0 {
      SolidSame(all, cs, n - 1);
    }
  }

  /** All ranges of the array. */
  function DoubledRanges(n: nat): seq<Chunk> {
    OneRanges(n) + [Chunk(2 * n + 1, 2 * n + 2)]
  }

  lemma {:induction false} OnesAccepted(n: nat, accepts: bytes -> bool)
    requires n > 0 && accepts([0x31])
    ensures AllAccepted(Doubled(n), OneRanges(n), accepts) && GapsOk(Doubled(n), OneRanges(n), false)
  {
    var inner, cs := Doubled(n), OneRanges(n);
    forall k | 0 <= k < n ensures accepts(Piece(inner, cs[k])) && GapOk(inner, cs, k, false) {
      OnesAt(n, k);
      assert Piece(inner, cs[k]) == [0x31];
      if k > 0 {
        OnesAt(n, k - 1);
        assert CommaAt(inner[2 * k - 1..2 * k], 0);
      }
    }
  }

  /** A window goes on if its kept chunks are separated, fit, and are accepted. */
  lemma {:induction false} GoesOn(inner: bytes, off: nat, done: seq<Chunk>, cap: nat, room: nat, accepts: bytes -> bool,
                                  kept: seq<Chunk>, moved: seq<Chunk>, end: nat)
    requires off < |inner| && Solid(Window(inner, off, cap)) == kept != [] && end == EndOf(Window(inner, off, cap))
    requires GapsOk(inner[off..], kept, done != []) && moved == Shift(kept, off)
    requires |done + moved| <= room && AllAccepted(inner, moved, accepts)
    ensures TurnAt(inner, off, done, cap, room, accepts) == Go(off + end, done + moved)
  {
  }

  lemma {:induction false} FirstTurn(n: nat, accepts: bytes -> bool)
    requires n > 0 && accepts([0x31])
    ensures |Doubled(n)| == 2 * n + 3
    ensures TurnAt(Doubled(n), 0, [], n + 1, n + 1, accepts) == Go(2 * n, OneRanges(n))
  {
    var inner, cs := Doubled(n), OneRanges(n);
    FirstDoubled(n);
    DropLast(cs, Chunk(2 * n, 2 * n));
    OnesAccepted(n, accepts);
    assert inner[0..] == inner && Shift(cs, 0) == cs && [] + cs == cs;
    GoesOn(inner, 0, [], n + 1, n + 1, accepts, cs, cs, 2 * n);
  }

  lemma {:induction false} SecondTurn(n: nat, accepts: bytes -> bool)
    requires n > 0 && accepts([0x32])
    ensures |Doubled(n)| == 2 * n + 3
    ensures TurnAt(Doubled(n), 2 * n, OneRanges(n), n + 1, n + 1, accepts) == Go(2 * n + 2, DoubledRanges(n))
  {
    SecondDoubled(n);
    SecondKept(n, accepts, [Chunk(0, 0), Chunk(1, 2)]);
    GoesOn(Doubled(n), 2 * n, OneRanges(n), n + 1, n + 1, accepts, [Chunk(1, 2)], [Chunk(2 * n + 1, 2 * n + 2)], 2);
  }

  lemma {:induction false} SecondKept(n: nat, accepts: bytes -> bool, cs: seq<Chunk>)
    requires n > 0 && accepts([0x32]) && cs == [Chunk(0, 0), Chunk(1, 2)] && |Doubled(n)| == 2 * n + 3
    ensures Solid(cs) == [Chunk(1, 2)] && Shift(Solid(cs), 2 * n) == [Chunk(2 * n + 1, 2 * n + 2)]
    ensures AllAccepted(Doubled(n), Shift(Solid(cs), 2 * n), accepts) && GapsOk(Doubled(n)[2 * n..], Solid(cs), true)
  {
    OnesAt(n, 0);
    SolidAll(cs, 2);
    var inner, kept := Doubled(n), [Chunk(1, 2)];
    assert cs[1..2] == kept;
    assert Piece(inner, Chunk(2 * n + 1, 2 * n + 2)) == [0x32];
    assert CommaAt(inner[2 * n..][0..1], 0);
    assert GapOk(inner[2 * n..], kept, 0, true);
  }

  lemma {:induction false} ThirdTurn(n: nat, accepts: bytes -> bool, done: seq<Chunk>)
    requires n > 0
    ensures |Doubled(n)| == 2 * n + 3 && TurnAt(Doubled(n), 2 * n + 2, done, n + 1, n + 1, accepts) == Finished
  {
    ThirdDoubled(n);
    DropLast([], Chunk(0, 0));
    assert [] + [Chunk(0, 0)] == [Chunk(0, 0)];
  }

  lemma {:induction false} DoubledDrive(n: nat, turn: (nat, seq<Chunk>) -> Turn)
    requires n > 0
    requires turn(0, []) == Go(2 * n, OneRanges(n)) && turn(2 * n, OneRanges(n)) == Go(2 * n + 2, DoubledRanges(n))
    requires turn(2 * n + 2, DoubledRanges(n)) == Finished
    ensures Drive(Doubled(n), 0, [], turn) == Accepted(DoubledRanges(n))
  {
    var inner, one, two := Doubled(n), OneRanges(n), DoubledRanges(n);
    ThirdDoubled(n);
    assert Finish(inner, two) == Accepted(two);
    assert Drive(inner, 2 * n + 2, two, turn) == Accepted(two);
    assert Drive(inner, 2 * n, one, turn) == Accepted(two);
  }

  lemma {:induction false} DoubledAccepted(n: nat, accepts: bytes -> bool)
    requires n > 0 && accepts([0x31]) && accepts([0x32])
    ensures Drive(Doubled(n), 0, [], Turns(Doubled(n), n + 1, n + 1, accepts)) == Accepted(DoubledRanges(n))
  {
    FirstTurn(n, accepts);
    SecondTurn(n, accepts);
    ThirdTurn(n, accepts, DoubledRanges(n));
    TurnsDecide(Doubled(n), n + 1, n + 1, accepts);
    DoubledDrive(n, Turns(Doubled(n), n + 1, n + 1, accepts));
  }

  /** For every chunk buffer of at least two entries there is an array with a doubled comma that is accepted: `n`
      elements, two commas and one more element, when the buffer has `n + 1` entries. */
  lemma {:induction false} DoubledCommaAccepted(n: nat, accepts: bytes -> bool)
    requires n > 0 && accepts([0x31]) && accepts([0x32])
    ensures Accept([LBRACKET] + Doubled(n), n + 1, n + 1, accepts) == Accepted(DoubledRanges(n))
    ensures !GapsOk(Doubled(n), DoubledRanges(n), false) && !Seamless(Doubled(n), 0, n + 1)
  {
    var raw, inner := [LBRACKET] + Doubled(n), Doubled(n);
    assert SkipSpace(raw, 0) == 0 && raw[1..] == inner && Inner(raw) == inner;
    DoubledAccepted(n, accepts);
    DoubledGap(n);
    OneCommaIff(raw, n + 1, n + 1, accepts);
  }

  lemma {:induction false} DoubledGap(n: nat)
    requires n > 0
    ensures !GapsOk(Doubled(n), DoubledRanges(n), false)
  {
    var inner, cs := Doubled(n), DoubledRanges(n);
    OnesAt(n, n - 1);
    assert inner[2 * n - 1] == COMMA && inner[2 * n] == COMMA;
    assert CommaAt(inner[2 * n..2 * n + 1], 0);
    CommaTwice(inner, 2 * n - 1, 2 * n, 2 * n + 1);
    assert !GapOk(inner, cs, n, false);
  }
}
