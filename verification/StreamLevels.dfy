/** At which level a strict decoder stands in the stream: what it has consumed is whitespace, the opening bracket, and
    bytes that leave all strings and brackets closed. */
module StreamLevels {
  import opened Bytes
  import opened Windows
  import opened StreamSpec
  import opened StreamTheorems
  import Splitter

  /** The splitter's state, without what it has stored. */
  function Bare(s: Splitter.State): Splitter.State {
    s.(start := 0, chunks := [])
  }

  const TOP: Splitter.State := Splitter.Initial(0)

  /** Where the splitter stands behind the first `n` bytes: in a string or not, and at which depth. It halts behind a
      closing bracket at element level. */
  function LevelAt(q: bytes, n: nat): Splitter.State
    requires n <= |q|
  {
    if n == 0 then TOP else Bare(Splitter.Step(LevelAt(q, n - 1), 0, q[n - 1], 2))
  }

  /** Outside all strings and brackets, and no closing bracket too many. */
  predicate AtTop(q: bytes) {
    LevelAt(q, |q|) == TOP
  }

  lemma {:induction false} LevelRun(q: bytes, n: nat, cap: nat)
    requires n <= |q| && !Splitter.Run(TOP, q, 0, n, cap).halted
    ensures LevelAt(q, n) == Bare(Splitter.Run(TOP, q, 0, n, cap))
  {
    if n > 0 {
      Splitter.RunSplit(TOP, q, 0, n - 1, n, cap);
      LevelRun(q, n - 1, cap);
    }
  }

  lemma {:induction false} LevelPrefix(x: bytes, y: bytes, n: nat)
    requires n <= |x|
    ensures LevelAt(x + y, n) == LevelAt(x, n)
  {
    if n > 0 {
      LevelPrefix(x, y, n - 1);
    }
  }

  lemma {:induction false} LevelJoin(x: bytes, y: bytes, n: nat)
    requires AtTop(x) && n <= |y|
    ensures LevelAt(x + y, |x| + n) == LevelAt(y, n)
  {
    if n > 0 {
      LevelJoin(x, y, n - 1);
    } else {
      LevelPrefix(x, y, |x|);
    }
  }

  lemma {:induction false} TopJoin(x: bytes, y: bytes)
    requires AtTop(x) && AtTop(y)
    ensures AtTop(x + y)
  {
    LevelJoin(x, y, |y|);
  }

  lemma {:induction false} SpaceIsTop(w: bytes, n: nat)
    requires n <= |w| && forall k | 0 <= k < n :: IsSpace(w[k]) || w[k] == COMMA
    ensures LevelAt(w, n) == TOP
  {
    if n > 0 {
      SpaceIsTop(w, n - 1);
    }
  }

  /** In front of the end of each chunk it stores, the splitter is at element level. */
  lemma {:induction false} ChunkEnds(s: Splitter.State, q: bytes, i: nat, cap: nat, k: nat)
    requires i <= |q| && !s.halted && |s.chunks| <= k < |Splitter.Run(s, q, i, |q|, cap).chunks|
    ensures var end := Splitter.Run(s, q, i, |q|, cap).chunks[k].end;
      && i <= end < |q| && Bare(Splitter.Run(s, q, i, end, cap)) == TOP
      && Splitter.Run(s, q, i, end, cap).chunks == Splitter.Run(s, q, i, |q|, cap).chunks[..k]
    decreases |q| - i
  {
    var next := Splitter.Step(s, i, q[i], cap);
    Splitter.RunGrows(next, q, i + 1, |q|, cap);
    if next.halted {
      Splitter.RunHalted(next, q, i + 1, |q|, cap);
    }
    if |next.chunks| <= k {
      ChunkEnds(next, q, i + 1, cap, k);
    }
  }

  /** The bytes up to the end of a kept chunk are at element level. */
  lemma {:induction false} KeptAtTop(q: bytes, n: nat)
    requires AtElement(q) && Solid(Splitter.Split(q, n).chunks) != []
    ensures var end := EndOf(Solid(Splitter.Split(q, n).chunks)); end <= |q| && AtTop(q[..end])
  {
    var cs := Splitter.Split(q, n).chunks;
    var kept := Solid(cs);
    SolidMembers(cs, |cs|);
    assert kept[|kept| - 1] in kept && SkipSpace(q, 0) == 0;
    var j :| 0 <= j < |cs| && cs[j] == kept[|kept| - 1];
    var end := cs[j].end;
    ChunkEnds(TOP, q, 0, n, j);
    LevelRun(q, end, n);
    assert q == q[..end] + q[end..];
    LevelPrefix(q[..end], q[end..], end);
  }

  /** What has been consumed: whitespace, and behind the opening bracket bytes that end at element level. */
  ghost predicate Standing(e: Env, done: bytes) {
    if e.started then exists a, inner: bytes :: Opened(done, a, inner) else AllSpace(done) && !e.delivered
  }

  ghost predicate Opened(done: bytes, a: bytes, inner: bytes) {
    done == a + ([LBRACKET] + inner) && AllSpace(a) && AtTop(inner)
  }

  lemma {:induction false} StandOn(e: Env, done: bytes, more: bytes, after: Env)
    requires Standing(e, done) && e.started && after.started && AtTop(more)
    ensures Standing(after, done + more)
  {
    var a, inner: bytes :| Opened(done, a, inner);
    TopJoin(inner, more);
    assert done + more == a + ([LBRACKET] + (inner + more));
    assert Opened(done + more, a, inner + more);
  }

  lemma {:induction false} StandSpaces(e: Env, done: bytes, w: bytes)
    requires Standing(e, done) && AllSpace(w)
    ensures Standing(e, done + w)
  {
    if e.started {
      SpaceIsTop(w, |w|);
      StandOn(e, done, w, e);
    }
  }

  lemma {:induction false} StandOpened(e: Env, done: bytes)
    requires Standing(e, done) && !e.started
    ensures Standing(e.(started := true), done + [LBRACKET])
  {
    assert done + [LBRACKET] == done + ([LBRACKET] + []);
    assert Opened(done + [LBRACKET], done, []);
  }

  lemma {:induction false} StandComma(e: Env, done: bytes)
    requires Standing(e, done) && e.started
    ensures Standing(e.(afterComma := true), done + [COMMA])
  {
    SpaceIsTop([COMMA], 1);
    StandOn(e, done, [COMMA], e.(afterComma := true));
  }

  /** How the search for an element ends at the bytes `q`: at an element, at the closing bracket, or with an error. */
  ghost predicate StopsAt(o: Outcome, e: Env, q: bytes, take: Take) {
    || (e.started && AtElement(q) && o == take(e, q, []))
    || (o == Outcome(EndOfStream, e.(ended := true), q, []) && e.started && StartsWith(q, RBRACKET))
    || (o.answer.Failed? && o.pending == q && o.env ==
      if o.answer == Failed(Truncated) then e.(truncated := true) else e)
  }

  /** The search ends behind the whitespace. */
  lemma {:induction false} StopsHere(e: Env, p: bytes, sees: bool, take: Take)
    requires !(StartsWith(Trim(p), LBRACKET) && !e.started)
    requires !(StartsWith(Trim(p), COMMA) && e.started && Misplaced(e).None?)
    ensures StopsAt(Seek(e, p, false, sees, take, []), e, Trim(p), take)
  {
  }

  /** The search consumes whitespace, the opening bracket and commas, and nothing else. */
  lemma {:induction false} SeekStops(e: Env, p: bytes, sees: bool, take: Take, done: bytes)
    returns (more: bytes, after: Env, q: bytes)
    requires Standing(e, done) && !e.ended && !e.truncated
    ensures p == more + q && Standing(after, done + more) && !after.ended && !after.truncated
    ensures StopsAt(Seek(e, p, false, sees, take, []), after, q, take)
    decreases |p|, 2
  {
    var r := Trim(p);
    var w := SplitSpace(p);
    StandSpaces(e, done, w);
    assert |r| > 0 ==> r == [r[0]] + r[1..];
    if StartsWith(r, LBRACKET) && !e.started {
      StandOpened(e, done + w);
      more, after, q :=
        SeekOn(e.(started := true), w, LBRACKET, r[1..], sees, take, done, Seek(e, p, false, sees, take, []));
    } else if StartsWith(r, COMMA) && e.started && Misplaced(e).None? {
      StandComma(e, done + w);
      more, after, q := CommaStops(e, p, w, r[1..], sees, take, done);
    } else {
      StopsHere(e, p, sees, take);
      more, after, q := w, e, r;
    }
  }

  /** At a comma in a legal place: it trails, or the search goes on behind it. */
  lemma {:induction false} CommaStops(e: Env, p: bytes, w: bytes, rest: bytes, sees: bool, take: Take, done: bytes)
    returns (more: bytes, after: Env, q: bytes)
    requires e.started && Misplaced(e).None? && !e.ended && !e.truncated
    requires p == w + ([COMMA] + rest) && Trim(p) == [COMMA] + rest
    requires Standing(e.(afterComma := true), done + w + [COMMA])
    ensures p == more + q && Standing(after, done + more) && !after.ended && !after.truncated
    ensures StopsAt(Seek(e, p, false, sees, take, []), after, q, take)
    decreases |p|, 1
  {
    var next := e.(afterComma := true);
    CommaSeek(e, p, rest, sees, take, []);
    if sees && StartsWith(Trim(rest), RBRACKET) {
      more, q := TrailingStops(next, p, w, rest, done);
      after := next;
    } else {
      more, after, q := SeekOn(next, w, COMMA, rest, sees, take, done, Seek(e, p, false, sees, take, []));
    }
  }

  lemma {:induction false} TrailingStops(next: Env, p: bytes, w: bytes, rest: bytes, done: bytes)
    returns (more: bytes, q: bytes)
    requires p == w + ([COMMA] + rest) && Standing(next, done + w + [COMMA])
    ensures p == more + q && Standing(next, done + more) && q == Trim(rest)
  {
    var spaces := SplitSpace(rest);
    StandSpaces(next, done + w + [COMMA], spaces);
    assert done + w + [COMMA] + spaces == done + (w + ([COMMA] + spaces));
    more, q := w + ([COMMA] + spaces), Trim(rest);
  }

  /** Goes on behind a bracket or comma. */
  lemma {:induction false} SeekOn(next: Env, w: bytes, c: byte, rest: bytes, sees: bool, take: Take, done: bytes,
                                  o: Outcome)
    returns (more: bytes, after: Env, q: bytes)
    requires !next.ended && !next.truncated && Standing(next, done + w + [c]) &&
      o == Seek(next, rest, false, sees, take, [])
    ensures w + ([c] + rest) == more + q && Standing(after, done + more) && !after.ended && !after.truncated
    ensures StopsAt(o, after, q, take)
    decreases |rest| + 1, 0
  {
    var onward;
    onward, after, q := SeekStops(next, rest, sees, take, done + w + [c]);
    more := w + ([c] + onward);
    Regrouped(done, w, [c], onward, q);
  }

  lemma {:induction false} Regrouped(done: bytes, w: bytes, c: bytes, onward: bytes, q: bytes)
    ensures done + w + c + onward == done + (w + (c + onward)) && w + (c + (onward + q)) == (w + (c + onward)) + q
  {
  }
}
