/** AttnDecode as a whole block: safe in every schedule, and in every schedule the
    attention its CPU twin computes. */
module AttnKernel {
  import opened BlockMachine
  import opened Schedules
  import opened Folds
  import opened Reduce
  import opened RowCode
  import opened SoftmaxSpec
  import opened SoftmaxCode
  import opened SoftmaxEpochs
  import opened AttnCode

  /** What warp w runs between its barriers. */
  function Final(a: Args, h: nat, w: nat): Segment { Tail() + OutLoop(a, h, w) }

  function AttnWarp(a: Args, h: nat, w: nat): Code {
    [ScoreLoop(a, h, w), Head(Scores, a.kvLen, w), Publish(w),
     Middle(a.exp, Scores, Scores, a.kvLen, w), Publish(w), Final(a, h, w)]
  }

  /** The block of query head h. */
  function AttnBlock(a: Args, h: nat): (code: seq<Code>)
    ensures |code| == WARPS && forall w :: 0 <= w < WARPS ==> |code[w]| == 6
  {
    seq(WARPS, w requires 0 <= w < WARPS => AttnWarp(a, h, w))
  }

  /** kvLen scores, the eight scratch cells, and the head's own slice of the output. */
  ghost function AttnCells(a: Args, h: nat): set<Cell> {
    RowSet(Scores, a.kvLen) + ScratchCells() + RowSet(OutRow(a, h), a.headDim)
  }

  ghost predicate Launched(a: Args, h: nat, s0: Block) {
    s0.mem.Keys == AttnCells(a, h) && Initial(AttnBlock(a, h), s0)
  }

  // ---- no two warps get in each other's way

  ghost function MayRead(a: Args, w: nat, e: nat): set<Cell> {
    if e == 1 then OwnSet(Scores, a.kvLen, w)
    else if e == 3 then OwnSet(Scores, a.kvLen, w) + ScratchCells()
    else if e == 5 then RowSet(Scores, a.kvLen) + ScratchCells()
    else {}
  }

  ghost function MayWrite(a: Args, h: nat, w: nat, e: nat): set<Cell> {
    if e == 0 then OwnScores(w, a.kvLen)
    else if e == 2 || e == 4 then {Scratch(w)}
    else if e == 3 then OwnSet(Scores, a.kvLen, w)
    else if e == 5 then OwnSet(OutRow(a, h), a.headDim, w)
    else {}
  }

  lemma {:induction false} PublishWithin(w: int)
    ensures Within(Publish(w), {}, {Scratch(w)})
  {
    PublishTouches(w);
  }

  lemma {:induction false} FinalWithin(a: Args, h: nat, w: nat)
    requires w < WARPS
    ensures Within(Final(a, h, w), RowSet(Scores, a.kvLen) + ScratchCells(), OwnSet(OutRow(a, h), a.headDim, w))
  {
    var R, W := RowSet(Scores, a.kvLen) + ScratchCells(), OwnSet(OutRow(a, h), a.headDim, w);
    TailWithin(W);
    OutLoopWithin(a, h, w);
    WithinWider(Tail(), ScratchCells(), W, R, W);
    WithinWider(OutLoop(a, h, w), RowSet(Scores, a.kvLen), W, R, W);
    WithinConcat(Tail(), OutLoop(a, h, w), R, W);
  }

  lemma {:induction false} WarpWithin(a: Args, h: nat, w: nat, e: nat)
    requires w < WARPS && e < 6
    ensures Within(AttnBlock(a, h)[w][e], MayRead(a, w, e), MayWrite(a, h, w, e))
  {
    if e == 0 { ScoreLoopWithin(a, h, w); }
    else if e == 1 { HeadWithin(Scores, a.kvLen, w); }
    else if e == 3 { MiddleWithin(a.exp, Scores, Scores, a.kvLen, w); }
    else if e == 5 { FinalWithin(a, h, w); }
    else { PublishWithin(w); }
  }

  lemma {:induction false} MaySeparate(a: Args, h: nat, u: nat, w: nat, e: nat)
    requires u < WARPS && w < WARPS && u != w && e < 6
    ensures MayWrite(a, h, u, e) !! MayRead(a, w, e) + MayWrite(a, h, w, e)
  {
    OwnSetsDisjoint(Scores, Scores, a.kvLen, a.kvLen, u, w);
    OwnSetsDisjoint(OutRow(a, h), OutRow(a, h), a.headDim, a.headDim, u, w);
    assert u % 8 != w % 8;
  }

  lemma {:induction false} MayInside(a: Args, h: nat, w: nat, e: nat)
    requires w < WARPS && e < 6
    ensures MayRead(a, w, e) <= AttnCells(a, h) && MayWrite(a, h, w, e) <= AttnCells(a, h)
  {
    OwnInRow(Scores, a.kvLen, w);
    OwnInRow(OutRow(a, h), a.headDim, w);
    assert OwnScores(w, a.kvLen) <= RowSet(Scores, a.kvLen) by {
      forall c | c in OwnScores(w, a.kvLen) ensures c in RowSet(Scores, a.kvLen) { assert c == CellAt(Scores, c.t); }
    }
    assert Scratch(w) in ScratchCells();
  }

  lemma {:induction false} WithinSeparates(s: Segment, t: Segment, r: set<Cell>, w: set<Cell>, r': set<Cell>,
      w': set<Cell>)
    requires Within(s, r, w) && Within(t, r', w') && w !! r' + w'
    ensures Separated(s, t)
  {}

  lemma {:induction false} AttnDisciplined(a: Args, h: nat)
    ensures Disciplined(AttnBlock(a, h), AttnCells(a, h))
  {
    var code := AttnBlock(a, h);
    forall u, w, e | 0 <= u < |code| && 0 <= w < |code| && u != w && 0 <= e < |code[0]|
      ensures Separated(code[u][e], code[w][e])
    {
      WarpWithin(a, h, u, e);
      WarpWithin(a, h, w, e);
      MaySeparate(a, h, u, w, e);
      WithinSeparates(code[u][e], code[w][e], MayRead(a, u, e), MayWrite(a, h, u, e), MayRead(a, w, e),
        MayWrite(a, h, w, e));
    }
    forall w, e | 0 <= w < |code| && 0 <= e < |code[0]| ensures Tame(code[w][e], AttnCells(a, h)) {
      WarpWithin(a, h, w, e);
      MayInside(a, h, w, e);
    }
  }

  // ---- what the block computes

  /** What taking the warps one at a time, epoch by epoch, leaves at the start of epoch e. */
  ghost function At(a: Args, h: nat, s0: Block, e: nat): (g: Global)
    requires Launched(a, h, s0) && e <= 6
    ensures |g.regs| == WARPS && g.mem.Keys == s0.mem.Keys
  {
    Epochs(AttnBlock(a, h), e, s0)
  }

  lemma {:induction false} AtIs(a: Args, h: nat, s0: Block, e: nat)
    requires Launched(a, h, s0) && e <= 6
    ensures |s0.warps| == |AttnBlock(a, h)| && At(a, h, s0, e) == Epochs(AttnBlock(a, h), e, s0)
  {}

  lemma {:induction false} AttnRows(a: Args, h: nat, s0: Block)
    requires Launched(a, h, s0)
    ensures EightWarps(AttnBlock(a, h), s0) && |AttnBlock(a, h)[0]| == 6
    ensures HasRow(Scores, a.kvLen, s0.mem) && HasRow(OutRow(a, h), a.headDim, s0.mem)
    ensures SoftmaxAt(AttnBlock(a, h), 1, a.exp, Scores, Scores, a.kvLen)
    ensures Compatible(Scores, Scores)
  {
    AttnDisciplined(a, h);
    hide Disciplined;
    var code := AttnBlock(a, h);
    forall w | 0 <= w < WARPS
      ensures code[w][1] == Head(Scores, a.kvLen, w) && code[w][2] == Publish(w)
      ensures code[w][3] == Middle(a.exp, Scores, Scores, a.kvLen, w) && code[w][4] == Publish(w)
    {}
    forall t | 0 <= t < a.kvLen
      ensures CellAt(Scores, t) in s0.mem
    {
      assert CellAt(Scores, t) in RowSet(Scores, a.kvLen);
    }
    forall t | 0 <= t < a.headDim ensures CellAt(OutRow(a, h), t) in s0.mem {
      assert CellAt(OutRow(a, h), t) in RowSet(OutRow(a, h), a.headDim);
    }
  }

  /** After the first barrier every score is there, whichever warp computed it. */
  lemma {:induction false} ScoresReady(a: Args, h: nat, s0: Block)
    requires Launched(a, h, s0)
    ensures RowIs(Scores, a.kvLen, At(a, h, s0, 1).mem, ScoreOf(a, h))
  {
    AttnRows(a, h, s0);
    forall t | 0 <= t < a.kvLen
      ensures Score(t) in At(a, h, s0, 1).mem && At(a, h, s0, 1).mem[Score(t)] == ScoreOf(a, h)(t)
    {
      OneScore(a, h, s0, t);
    }
  }

  lemma {:induction false} OneScore(a: Args, h: nat, s0: Block, t: nat)
    requires Launched(a, h, s0) && t < a.kvLen && EightWarps(AttnBlock(a, h), s0) && HasRow(Scores, a.kvLen, s0.mem)
    ensures Score(t) in At(a, h, s0, 1).mem && At(a, h, s0, 1).mem[Score(t)] == ScoreOf(a, h)(t)
  {
    var code, w := AttnBlock(a, h), t % 8;
    assert CellAt(Scores, t) in s0.mem;
    OnlyScorer(a, h, t);
    StartOf(a, h, s0, w, t);
    AtIs(a, h, s0, 0);
    AtIs(a, h, s0, 1);
    assert Disciplined(code, s0.mem.Keys);
    hide *;
    EpochOwner(code, 0, s0, w, Score(t));
  }

  lemma {:induction false} OnlyScorer(a: Args, h: nat, t: nat)
    requires t < a.kvLen
    ensures forall u :: 0 <= u < WARPS && u != t % 8 ==> Score(t) !in SegWrites(AttnBlock(a, h)[u][0])
  {
    forall u | 0 <= u < WARPS && u != t % 8 ensures Score(t) !in SegWrites(AttnBlock(a, h)[u][0]) {
      ScoreLoopWithin(a, h, u);
      assert t % 8 != u % 8;
    }
  }

  lemma {:induction false} StartOf(a: Args, h: nat, s0: Block, w: nat, t: nat)
    requires Launched(a, h, s0) && t < a.kvLen && w == t % 8 && HasRow(Scores, a.kvLen, s0.mem)
    ensures var g := At(a, h, s0, 0);
      var mem := Run(AttnBlock(a, h)[w][0], g.regs[w], g.mem).1;
      Score(t) in mem && mem[Score(t)] == ScoreOf(a, h)(t)
  {
    var g := At(a, h, s0, 0);
    assert AttnBlock(a, h)[w][0] == ScoreLoop(a, h, w) && g.mem == s0.mem;
    assert w <= t && t % 8 == w % 8;
    hide AttnBlock, ScoreLoop, ScoreOf, Launched, Epochs, At;
    RunScoreLoop(a, h, w, g.regs[w], g.mem);
  }

  /** The four softmax epochs, from the scores on. */
  lemma {:induction false} Softmaxed(a: Args, h: nat, s0: Block) returns (p: seq<real>)
    requires Launched(a, h, s0)
    ensures |p| == WARPS && Published(At(a, h, s0, 5).mem, p)
    ensures var e := ExpTerm(a.exp, ScoreOf(a, h), RowMax(ScoreOf(a, h), a.kvLen));
      && Butterfly(Add, Padded(BlockSum(), p)) == Const(Total(e, a.kvLen))
      && RowIs(Scores, a.kvLen, At(a, h, s0, 5).mem, e)
  {
    AttnRows(a, h, s0);
    ScoresReady(a, h, s0);
    AtIs(a, h, s0, 1);
    AtIs(a, h, s0, 5);
    hide *;
    p := FourEpochs(AttnBlock(a, h), s0, 1, a.exp, Scores, Scores, a.kvLen, ScoreOf(a, h));
  }

  /** In the last epoch every output dimension gets its weighted sum. */
  lemma {:induction false} OutEpoch(a: Args, h: nat, s0: Block, p: seq<real>, e: int -> real, total: real)
    requires Launched(a, h, s0) && |p| == WARPS && Published(At(a, h, s0, 5).mem, p)
    requires Butterfly(Add, Padded(BlockSum(), p)) == Const(total)
    requires RowIs(Scores, a.kvLen, At(a, h, s0, 5).mem, e)
    ensures RowIs(OutRow(a, h), a.headDim, At(a, h, s0, 6).mem, OutOf(a, h, e, Recip(total)))
  {
    AttnRows(a, h, s0);
    var code := AttnBlock(a, h);
    forall w: nat | 0 <= w < WARPS
      ensures OwnWritten(code, s0, 5, OutRow(a, h), a.headDim, OutOf(a, h, e, Recip(total)), w)
    {
      FinalWrites(a, h, s0, p, e, total, w);
    }
    RowEpoch(code, s0, 5, OutRow(a, h), a.headDim, OutOf(a, h, e, Recip(total)));
  }

  lemma {:induction false} FinalWrites(a: Args, h: nat, s0: Block, p: seq<real>, e: int -> real, total: real, w: nat)
    requires Launched(a, h, s0) && |p| == WARPS && Published(At(a, h, s0, 5).mem, p) && w < WARPS
    requires Butterfly(Add, Padded(BlockSum(), p)) == Const(total)
    requires RowIs(Scores, a.kvLen, At(a, h, s0, 5).mem, e)
    requires EightWarps(AttnBlock(a, h), s0) && HasRow(OutRow(a, h), a.headDim, s0.mem)
    ensures OwnWritten(AttnBlock(a, h), s0, 5, OutRow(a, h), a.headDim, OutOf(a, h, e, Recip(total)), w)
  {
    var g := At(a, h, s0, 5);
    FinalWithin(a, h, w);
    AtIs(a, h, s0, 5);
    assert HasRow(OutRow(a, h), a.headDim, g.mem);
    hide *;
    RunFinal(a, h, p, e, total, w, g.regs[w], g.mem);
    FinalOwn(a, h, s0, OutOf(a, h, e, Recip(total)), w);
  }

  lemma {:induction false} FinalOwn(a: Args, h: nat, s0: Block, f: int -> real, w: nat)
    requires Launched(a, h, s0) && w < WARPS && EightWarps(AttnBlock(a, h), s0)
    requires Within(Final(a, h, w), RowSet(Scores, a.kvLen) + ScratchCells(), OwnSet(OutRow(a, h), a.headDim, w))
    requires var g := At(a, h, s0, 5);
      Wrote(OutRow(a, h), a.headDim, w, 32 * w, if 32 * w < a.headDim then a.headDim else 32 * w, f, g.mem,
            Run(Final(a, h, w), g.regs[w], g.mem).1)
    ensures OwnWritten(AttnBlock(a, h), s0, 5, OutRow(a, h), a.headDim, f, w)
  {
    hide Run, Wrote, Epochs, EightWarps, OwnSet, Final;
    assert AttnBlock(a, h)[w][5] == Final(a, h, w);
  }

  lemma {:induction false} RunFinal(a: Args, h: nat, p: seq<real>, e: int -> real, total: real, w: nat, r: Regs,
      mem: Mem)
    requires |p| == WARPS && Published(mem, p) && w < WARPS && HasRow(OutRow(a, h), a.headDim, mem)
    requires Butterfly(Add, Padded(BlockSum(), p)) == Const(total)
    requires RowIs(Scores, a.kvLen, mem, e)
    ensures Wrote(OutRow(a, h), a.headDim, w, 32 * w, if 32 * w < a.headDim then a.headDim else 32 * w,
                  OutOf(a, h, e, Recip(total)), mem, Run(Final(a, h, w), r, mem).1)
  {
    RunTail(p, total, r, mem);
    RunConcat(Tail(), OutLoop(a, h, w), r, mem);
    RunOutLoop(a, h, e, Recip(total), w, 32 * w, Run(Tail(), r, mem).0, mem);
  }

  // ---- the meaning

  function Weights(exp: real -> real, x: int -> real, n: nat): int -> real { t => Weight(exp, x, n, t) }

  /** Attention of head h: the softmax-weighted average of the value vectors. */
  function Attention(a: Args, h: nat, d: int): real {
    Total(Weighted(a, h, Weights(a.exp, ScoreOf(a, h), a.kvLen), d), a.kvLen)
  }

  lemma {:induction false} OutIsAttention(a: Args, h: nat, m: real, d: int)
    requires ExpLike(a.exp) && a.kvLen > 0
    ensures var e := ExpTerm(a.exp, ScoreOf(a, h), m);
      OutOf(a, h, e, Recip(Total(e, a.kvLen)))(d) == Attention(a, h, d)
  {
    hide Mul, Total, Recip, ExpLike, KvAt, Weight;
    var x, n := ScoreOf(a, h), a.kvLen;
    var e := ExpTerm(a.exp, x, m);
    var inv := Recip(Total(e, n));
    var f, g := Weighted(a, h, e, d), Weighted(a, h, Weights(a.exp, x, n), d);
    TotalScale(f, inv, n);
    var scaled := Times(f, inv);
    forall t | 0 <= t < n ensures scaled(t) == g(t) {
      ShiftInvariant(a.exp, x, n, m, t);
      Rescale(e(t), a.v(KvAt(a, h, t, d)), inv);
    }
    TotalCongruence(scaled, g, n);
  }

  lemma {:induction false} Rescale(x: real, y: real, k: real)
    ensures Mul(Mul(x, y), k) == Mul(Mul(x, k), y)
  {}

  /** In every schedule that runs to the end, dimension d of head h is its attention. */
  lemma {:induction false} EveryScheduleAttends(a: Args, h: nat, s0: Block, run: seq<Block>, acts: seq<Act>, d: nat)
    requires ExpLike(a.exp) && a.kvLen > 0 && d < a.headDim
    requires Launched(a, h, s0) && IsRun(AttnBlock(a, h), s0, run, acts) && Finished(AttnBlock(a, h), run[|acts|])
    ensures CellAt(OutRow(a, h), d) in run[|acts|].mem && run[|acts|].mem[CellAt(OutRow(a, h), d)] == Attention(a, h, d)
  {
    var m := RowMax(ScoreOf(a, h), a.kvLen);
    AttnEnds(a, h, s0, run, acts);
    AttnResult(a, h, s0);
    OutIsAttention(a, h, m, d);
  }

  lemma {:induction false} AttnEnds(a: Args, h: nat, s0: Block, run: seq<Block>, acts: seq<Act>)
    requires Launched(a, h, s0) && IsRun(AttnBlock(a, h), s0, run, acts) && Finished(AttnBlock(a, h), run[|acts|])
    ensures run[|acts|].mem == At(a, h, s0, 6).mem
  {
    AttnDisciplined(a, h);
    OneFinalState(AttnBlock(a, h), s0, run, acts);
  }

  lemma {:induction false} AttnResult(a: Args, h: nat, s0: Block)
    requires Launched(a, h, s0)
    ensures var e := ExpTerm(a.exp, ScoreOf(a, h), RowMax(ScoreOf(a, h), a.kvLen));
      RowIs(OutRow(a, h), a.headDim, At(a, h, s0, 6).mem, OutOf(a, h, e, Recip(Total(e, a.kvLen))))
  {
    var e := ExpTerm(a.exp, ScoreOf(a, h), RowMax(ScoreOf(a, h), a.kvLen));
    var p := Softmaxed(a, h, s0);
    OutEpoch(a, h, s0, p, e, Total(e, a.kvLen));
  }

  /** No schedule of a head's block races, leaves its cells, deadlocks or runs forever. */
  lemma {:induction false} AttnIsSafe(a: Args, h: nat, s0: Block, run: seq<Block>, acts: seq<Act>)
    requires Launched(a, h, s0) && IsRun(AttnBlock(a, h), s0, run, acts)
    ensures Safe(AttnBlock(a, h), AttnCells(a, h), run, acts)
  {
    AttnDisciplined(a, h);
    DisciplinedIsSafe(AttnBlock(a, h), s0, run, acts);
  }

  /** The blocks of different heads write different cells, so the grid needs no order. */
  lemma {:induction false} HeadsDisjoint(a: Args, h: nat, g: nat)
    requires h < g
    ensures RowSet(OutRow(a, h), a.headDim) !! RowSet(OutRow(a, g), a.headDim)
  {
    assert g * a.headDim >= (h + 1) * a.headDim == h * a.headDim + a.headDim;
  }
}
