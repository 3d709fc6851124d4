/** What a worker of the parallel channel reader finds when it splits the text of its block again. */
module ChannelBlocks {
  import opened Bytes
  import opened Splitter
  import opened Windows
  import opened Avx2Splitter
  import opened StrictSkip
  import opened StreamSpec
  import opened BlockTheorems
  import opened StreamDecoder
  import opened StreamLevels
  import opened MixedRuns
  import opened Grammar
  import opened ArrayElements
  import ParallelRing
  import StreamTheorems
  import Slices
  import Numbers

  /** The ranges that a worker parses: what the splitter stores, or the whole text if it stores nothing, the batch was
      dispatched behind a truncation, and the text is one value. */
  ghost function ParsedRanges(raw: bytes, count: nat, tailTrunc: bool): seq<Chunk> {
    var cs := Split(raw, count).chunks;
    if cs == [] && raw != [] && tailTrunc && SkipValue(raw, 0) == Ok(|raw|) then [Chunk(0, |raw|)] else cs
  }

  /** The worker's split. The producer leaves `tailTrunc` false in every batch it builds. */
  method Resplit(raw: bytes, count: nat, tailTrunc: bool) returns (ranges: seq<Chunk>)
    requires count > 0
    ensures ranges == ParsedRanges(raw, count, tailTrunc)
  {
    var chunks := new Chunk[count];
    var c, depth := FindArrayElementsAVX2(raw, chunks);
    ranges := chunks[..c];
    if c == 0 && |raw| > 0 && tailTrunc {
      var skipped := SkipValueStrict(raw, 0);
      if skipped == Ok(|raw|) {
        ranges := [Chunk(0, |raw|)];
      }
    }
  }

  /** A block call's answer counts elements exactly if it hands out a block. */
  lemma {:induction false} CountsItems(o: Outcome, size: nat, n: nat, answer: Answer, count: nat, after: Env,
                                       rest: bytes)
    requires BlockCall(o, size, n, answer, count, after, rest) == true
    ensures answer.Item? <==> count > 0
  {
  }

  /** The producer asks for one block and says which step of the pool that is. The step is enabled as soon as the batch
      queue has room, so a batch never holds more elements than the ring has slots for. */
  method Produce(d: Decoder) returns (step: ParallelRing.Step, raw: bytes)
    requires d.Valid()
    modifies d`head, d`tail, d`buf, d`isEOF, d`hasStarted, d`hasEnded, d`deliveredFirst, d`afterComma,
             d`tailTruncated, d`reports, d.reader, d.buf
    ensures d.Valid() && fresh({d.buf} - old({d.buf}))
    ensures match step
      case Queue(count) => 1 <= count <= ParallelRing.PER_BATCH
      case _ => step.End? || step.QueueError?
    ensures forall c: ParallelRing.Pool, s: ParallelRing.State |
      s.producer.Running? && s.tasked == |s.batches| < s.popped + ParallelRing.Depth(c) ::
      ParallelRing.Enabled(c, s, step)
  {
    ghost var e, p, log := d.Flags(), d.Pending(), d.reports;
    var answer, count;
    ghost var sees, n;
    answer, count, sees, n := d.NextRawBlock(ParallelRing.PER_BATCH);
    if !e.ended && !e.truncated {
      CountsItems(Seek(e, p, false, sees, Marks(), log), ParallelRing.PER_BATCH, n, answer, count, d.Flags(),
        d.Pending());
    }
    raw := if answer.Item? then answer.chunk else [];
    step := match answer
      case Item(_) => ParallelRing.Queue(count)
      case EndOfStream => ParallelRing.End
      case _ => ParallelRing.QueueError;
  }

  // ----- kept chunks with good separators are consecutive -----

  /** Kept chunk `i` stands behind the chunks that give fewer kept ones. */
  lemma {:induction false} KeptIndex(cs: seq<Chunk>, a: nat, b: nat, i: nat) returns (j: nat)
    requires a <= b <= |cs| && |SolidTo(cs, a)| <= i < |SolidTo(cs, b)|
    ensures a <= j < b && cs[j] == SolidTo(cs, b)[i]
  {
    if i < |SolidTo(cs, b - 1)| {
      j := KeptIndex(cs, a, b - 1, i);
      SolidPrefix(cs, b - 1, b);
    } else {
      j := b - 1;
    }
  }

  lemma {:induction false} EndsBefore(data: bytes, first: nat, cs: seq<Chunk>, i: nat, j: nat)
    requires Tiled(data, first, cs) && i < j < |cs|
    ensures cs[i].end < cs[j].start
    decreases j
  {
    assert Tiles(data, first, cs, j);
    if i < j - 1 {
      EndsBefore(data, first, cs, i, j - 1);
      assert Tiles(data, first, cs, j - 1);
    }
  }

  lemma {:induction false} TwoCommas(gap: bytes)
    requires |gap| >= 2 && gap[0] == COMMA && gap[1] == COMMA
    ensures !Separates(gap, true)
  {
    forall k: nat ensures !CommaAt(gap, k) {
      if k == 0 {
        assert gap[1..][0] == COMMA;
      } else if k < |gap| {
        assert gap[..k][0] == COMMA;
      }
    }
  }

  /** A dropped chunk between two kept ones is a doubled comma. */
  lemma {:induction false} NoneDropped(q: bytes, cs: seq<Chunk>, k: nat, j: nat)
    requires Tiled(q, 0, cs) && 0 < k < j < |cs| && cs[k].start == cs[k].end
    ensures cs[k - 1].end <= cs[j].start <= |q| && !Separates(q[cs[k - 1].end..cs[j].start], true)
  {
    assert Tiles(q, 0, cs, k - 1) && Tiles(q, 0, cs, k) && Tiles(q, 0, cs, j);
    EndsBefore(q, 0, cs, k, j);
    TwoCommas(q[cs[k - 1].end..cs[j].start]);
  }

  lemma {:induction false} NextNotDropped(q: bytes, cs: seq<Chunk>, k: nat)
    requires Tiled(q, 0, cs) && Slices.GapsOk(q, Solid(cs), false) && 0 < k < |Solid(cs)| <= |cs|
    requires SolidTo(cs, k) == cs[..k]
    ensures cs[k].start != cs[k].end
  {
    var kept := Solid(cs);
    SolidPrefix(cs, k, |cs|);
    assert kept[k - 1] == cs[k - 1] && Slices.GapOk(q, kept, k, false);
    if cs[k].start == cs[k].end {
      var j := KeptIndex(cs, k + 1, |cs|, k);
      NoneDropped(q, cs, k, j);
    }
  }

  /** Chunks of bytes that begin with an element, with good separators between the kept ones: nothing is dropped in
      front of the last kept one. */
  lemma {:induction false} Consecutive(q: bytes, cs: seq<Chunk>, k: nat)
    requires Tiled(q, 0, cs) && Slices.GapsOk(q, Solid(cs), false) && k <= |Solid(cs)| <= |cs|
    requires cs != [] && cs[0].start < cs[0].end
    ensures SolidTo(cs, k) == cs[..k]
  {
    if k > 0 {
      Consecutive(q, cs, k - 1);
      if k > 1 {
        NextNotDropped(q, cs, k - 1);
      }
      assert cs[..k] == cs[..k - 1] + [cs[k - 1]];
    }
  }

  // ----- the text of a block, split again -----

  /** Up to the end of chunk `m`, whose terminator is left out, the splitter stores the chunks before it and no more. */
  lemma {:induction false} SplitsAgain(q: bytes, n: nat, m: nat)
    requires AtElement(q) && m < |Split(q, n).chunks| && Split(q, n).chunks[m].end > 0
    ensures var e := Split(q, n).chunks[m].end;
      e <= |q| && Split(q[..e], m + 1).chunks == Split(q, n).chunks[..m]
  {
    var e := Split(q, n).chunks[m].end;
    assert SkipSpace(q, 0) == 0;
    ChunkEnds(TOP, q, 0, n, m);
    RunBounded(TOP, q, 0, |q|, n);
    RunLessRoom(TOP, q, 0, e, n, m + 1);
    var raw := q[..e];
    assert raw[0] == q[0] && SkipSpace(raw, 0) == 0;
    RunSame(TOP, raw, q, 0, e, m + 1);
  }

  /** Whatever the stream, a worker that splits the text of a block again finds all its elements but the last one. */
  lemma {:induction false} LastIsNotFound(e: Env, q: bytes, size: nat, n: nat, answer: Answer, count: nat, after: Env,
                                          rest: bytes)
    requires AtElement(q) && BlockAt(e, q, size, n, answer, count, after, rest) == true && answer.Item?
    ensures count > 0 && |Split(answer.chunk, count).chunks| == count - 1
    ensures FirstEnd(q) > 0 ==> Split(answer.chunk, count).chunks == Solid(Split(q, n).chunks)[..count - 1]
  {
    var cs := Split(q, n).chunks;
    if FirstEnd(q) == 0 {
      if Split(q, 1).chunks != [] {
        FirstIsKept(q, 1);
      }
    } else {
      SplitTiled(q, n);
      FirstIsKept(q, n);
      assert SkipSpace(q, 0) == 0;
      BlockConsecutive(q, cs, count);
      SplitsAgain(q, n, count - 1);
    }
  }

  lemma {:induction false} BlockConsecutive(q: bytes, cs: seq<Chunk>, count: nat)
    requires Tiled(q, 0, cs) && cs != [] && cs[0].end > 0 && Slices.GapsOk(q, Solid(cs), false) &&
      count == |Solid(cs)| > 0
    requires AtElement(q)
    ensures count <= |cs| && Solid(cs) == cs[..count] && 0 < cs[count - 1].end <= |q| &&
      EndOf(Solid(cs)) == cs[count - 1].end
  {
    assert Tiles(q, 0, cs, 0) && Tiles(q, 0, cs, count - 1);
    Consecutive(q, cs, count);
    SolidPrefix(cs, count, |cs|);
  }

  // ----- in every run, and on well-formed streams -----

  /** The search that stops at an element has found one. */
  lemma {:induction false} MarkedElement(e: Env, p: bytes, sees: bool)
    requires Seek(e, p, false, sees, Marks(), []).answer.Item?
    ensures AtElement(Seek(e, p, false, sees, Marks(), []).answer.chunk)
    decreases |p|
  {
    var q := Trim(p);
    if |q| > 0 && !e.started {
      MarkedElement(e.(started := true), q[1..], sees);
    } else if StartsWith(q, COMMA) && Misplaced(e).None? {
      MarkedElement(e.(afterComma := true), q[1..], sees);
    } else if |q| > 0 && e.started && q[0] != RBRACKET && q[0] != COMMA {
      assert Marks()(e, q, []) == Outcome(Item(q), e, q, []);
    }
  }

  /** In every run of a strict decoder, whatever the stream and however the calls are mixed: of every block that is
      handed out, the worker that parses it finds all elements but the last one. */
  lemma {:induction false} EveryBlockLosesLast(e: Env, p: bytes, run: seq<MixedRuns.Event>, k: nat)
    requires IsRun(e, p, run) && k < |run| && run[k].call.Block? && run[k].reply.answer.Item?
    ensures run[k].reply.count > 0
    ensures forall base ::
      |ParsedRanges(run[k].reply.answer.chunk, run[k].reply.count, false)| ==
      ParallelRing.Parsed(ParallelRing.Batch(base, run[k].reply.count))
  {
    RunSuffix(e, p, run, k);
    var r, call := run[k].reply, run[k].call;
    var e0, p0 := if k == 0 then e else run[k - 1].reply.env, if k == 0 then p else run[k - 1].reply.pending;
    var o := Seek(e0, p0, false, call.sees, Marks(), []);
    MarkedElement(e0, p0, call.sees);
    LastIsNotFound(o.env, o.answer.chunk, call.size, call.n, r.answer, r.count, r.env, r.pending);
  }

  /** On a well-formed stream: of the text of `n` elements the worker finds the first `n - 1`. */
  lemma {:induction false} WellFormedLosesLast(it: Items, n: nat)
    requires it.More? && IsItems(Array, it) && 1 <= n <= Count(it)
    ensures ParsedRanges(BlockText(it, n), n, false) == Elements(it, 0, 0)[..n - 1]
  {
    var q := ElementsText(it, []);
    SplitElements(it, [], n);
    CutEnd(it, n, 0, 0);
    EntryBegins(it.first);
    BlockNotEmpty(it, n);
    SplitsAgain(q, n, n - 1);
    BlockTheorems.CutText(it, n, []);
    assert q[..|BlockText(it, n)|] == BlockText(it, n);
    assert Elements(it, 0, 0)[..n][..n - 1] == Elements(it, 0, 0)[..n - 1];
  }

  /** The block of a complete last value behind which nothing stands: its one element is parsed if the batch carries the
      flag of a truncation, and lost without it. */
  lemma {:induction false} SalvageNeedsFlag(en: Entry, tailTrunc: bool)
    requires IsName(Array, en.name) && IsValue(en.value) && en.after == []
    ensures ParsedRanges(EntryText(en), 1, tailTrunc) == if tailTrunc then [Chunk(0, |EntryText(en)|)] else []
  {
    var p := EntryText(en);
    StreamTheorems.TakesLast(INITIAL, p, en, false, []);
    if Split(p, 1).chunks != [] {
      FirstIsKept(p, 1);
    }
  }

  lemma {:induction false} BlockNotEmpty(it: Items, n: nat)
    requires it.More? && IsItems(Array, it) && 1 <= n <= Count(it)
    ensures |BlockText(it, n)| > 0
  {
    EntryBegins(it.first);
  }

  /** The smallest such stream: the block of `[1]` has one element, and the worker finds none in it. */
  lemma {:induction false} OneIsLost(run: seq<MixedRuns.Event>)
    requires IsRun(INITIAL, [LBRACKET, 0x31, RBRACKET], run) && |run| > 0 && run[0].call.Block?
    ensures run[0].reply.answer == Item([0x31]) && run[0].reply.count == 1 && ParsedRanges([0x31], 1, false) == []
  {
    var it := OneBare();
    assert TextAt(Front([], []), it, Bracket([])) == [LBRACKET, 0x31, RBRACKET];
    EveryRunServes([], [], it, Bracket([]), run);
    assert BlockText(it, 1) == [0x31];
    WellFormedLosesLast(it, 1);
  }

  lemma {:induction false} OneBare() returns (it: Items)
    ensures it.More? && it.rest.End? && IsItems(Array, it) && EntryText(it.first) == ItemsText(it) == [0x31]
  {
    var n := Numbers.Number(false, [0x31], [], Numbers.NoExp);
    assert n.WellFormed() && n.Text() == [0x31];
    it := More(Entry(NoName, Num([0x31]), []), [], End);
  }
}
