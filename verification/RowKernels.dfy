/** The Softmax and RMSNorm blocks of kernels/rows.go, out of place or in place. */
module SoftmaxKernel {
  import opened BlockMachine
  import opened Schedules
  import opened Folds
  import opened Reduce
  import opened RowCode
  import opened SoftmaxSpec
  import opened SoftmaxCode
  import opened SoftmaxEpochs

  function ByInv(): (int, real, real) -> real { (i: int, x: real, inv: real) => Mul(x, inv) }

  /** After the sum is known: dst[i] *= inv. */
  function Last(dst: Buf, n: nat, w: nat): Segment { Tail() + Loop(MapBody(ByInv(), dst, dst, n), 32 * w, n) }

  function SoftmaxWarp(exp: real -> real, src: Buf, dst: Buf, n: nat, w: nat): Code {
    [Head(src, n, w), Publish(w), Middle(exp, src, dst, n, w), Publish(w), Last(dst, n, w)]
  }

  function SoftmaxBlock(exp: real -> real, src: Buf, dst: Buf, n: nat): (code: seq<Code>)
    ensures |code| == WARPS && forall w :: 0 <= w < WARPS ==> |code[w]| == 5
  {
    seq(WARPS, w requires 0 <= w < WARPS => SoftmaxWarp(exp, src, dst, n, w))
  }

  ghost function RowCells(src: Buf, dst: Buf, n: nat): set<Cell> { RowSet(src, n) + ScratchCells() + RowSet(dst, n) }

  ghost predicate Launched(exp: real -> real, src: Buf, dst: Buf, n: nat, s0: Block) {
    s0.mem.Keys == RowCells(src, dst, n) && Initial(SoftmaxBlock(exp, src, dst, n), s0)
  }

  // ---- safety

  ghost function MayRead(src: Buf, dst: Buf, n: nat, w: int, e: int): set<Cell> {
    if e == 0 then OwnSet(src, n, w)
    else if e == 2 then OwnSet(src, n, w) + ScratchCells()
    else if e == 4 then OwnSet(dst, n, w) + ScratchCells()
    else {}
  }

  ghost function MayWrite(dst: Buf, n: nat, w: int, e: int): set<Cell> {
    if e == 1 || e == 3 then {Scratch(w)} else if e == 2 || e == 4 then OwnSet(dst, n, w) else {}
  }

  lemma {:induction false} LastWithin(dst: Buf, n: nat, w: nat)
    requires w < WARPS
    ensures Within(Last(dst, n, w), OwnSet(dst, n, w) + ScratchCells(), OwnSet(dst, n, w))
  {
    var W := OwnSet(dst, n, w);
    var loop := Loop(MapBody(ByInv(), dst, dst, n), 32 * w, n);
    TailWithin(W);
    MapLoopWithin(ByInv(), dst, dst, n, w);
    WithinWider(Tail(), ScratchCells(), W, W + ScratchCells(), W);
    WithinWider(loop, W, W, W + ScratchCells(), W);
    WithinConcat(Tail(), loop, W + ScratchCells(), W);
  }

  lemma {:induction false} WarpWithin(exp: real -> real, src: Buf, dst: Buf, n: nat, w: nat, e: nat)
    requires w < WARPS && e < 5
    ensures Within(SoftmaxBlock(exp, src, dst, n)[w][e], MayRead(src, dst, n, w, e), MayWrite(dst, n, w, e))
  {
    if e == 0 { HeadWithin(src, n, w); }
    else if e == 2 { MiddleWithin(exp, src, dst, n, w); }
    else if e == 4 { LastWithin(dst, n, w); }
    else { PublishTouches(w); }
  }

  lemma {:induction false} MaySeparate(src: Buf, dst: Buf, n: nat, u: int, w: int, e: int)
    requires u != w && Compatible(src, dst)
    ensures MayWrite(dst, n, u, e) !! MayRead(src, dst, n, w, e) + MayWrite(dst, n, w, e)
  {
    OwnSetsDisjoint(dst, dst, n, n, u, w);
    OwnSetsDisjoint(dst, src, n, n, u, w);
  }

  lemma {:induction false} MayInside(src: Buf, dst: Buf, n: nat, w: int, e: int)
    requires 0 <= w < WARPS
    ensures MayRead(src, dst, n, w, e) <= RowCells(src, dst, n) && MayWrite(dst, n, w, e) <= RowCells(src, dst, n)
  {
    OwnInRow(src, n, w);
    OwnInRow(dst, n, w);
    assert Scratch(w) in ScratchCells();
  }

  lemma {:induction false} SoftmaxDisciplined(exp: real -> real, src: Buf, dst: Buf, n: nat)
    requires Compatible(src, dst)
    ensures Disciplined(SoftmaxBlock(exp, src, dst, n), RowCells(src, dst, n))
  {
    var code := SoftmaxBlock(exp, src, dst, n);
    var rs, ws := (w, e) => MayRead(src, dst, n, w, e), (w, e) => MayWrite(dst, n, w, e);
    forall w, e | 0 <= w < WARPS && 0 <= e < |code[0]| ensures Within(code[w][e], rs(w, e), ws(w, e)) {
      WarpWithin(exp, src, dst, n, w, e);
    }
    forall w, e | 0 <= w < WARPS && 0 <= e < |code[0]|
      ensures rs(w, e) <= RowCells(src, dst, n) && ws(w, e) <= RowCells(src, dst, n)
    {
      MayInside(src, dst, n, w, e);
    }
    forall u, w, e | 0 <= u < WARPS && 0 <= w < WARPS && u != w && 0 <= e < |code[0]|
      ensures ws(u, e) !! rs(w, e) + ws(w, e)
    {
      MaySeparate(src, dst, n, u, w, e);
    }
    Discipline(code, RowCells(src, dst, n), rs, ws);
  }

  // ---- result

  /** What taking the warps one at a time, epoch by epoch, leaves at the start of epoch e. */
  ghost function At(exp: real -> real, src: Buf, dst: Buf, n: nat, s0: Block, e: nat): (g: Global)
    requires Launched(exp, src, dst, n, s0) && e <= 5
    ensures |g.regs| == WARPS && g.mem.Keys == s0.mem.Keys
  {
    Epochs(SoftmaxBlock(exp, src, dst, n), e, s0)
  }

  lemma {:induction false} AtIs(exp: real -> real, src: Buf, dst: Buf, n: nat, s0: Block, e: nat)
    requires Launched(exp, src, dst, n, s0) && e <= 5
    ensures |s0.warps| == |SoftmaxBlock(exp, src, dst, n)|
    ensures At(exp, src, dst, n, s0, e) == Epochs(SoftmaxBlock(exp, src, dst, n), e, s0)
  {}

  lemma {:induction false} SoftmaxRows(exp: real -> real, src: Buf, dst: Buf, n: nat, s0: Block)
    requires Launched(exp, src, dst, n, s0) && Compatible(src, dst)
    ensures EightWarps(SoftmaxBlock(exp, src, dst, n), s0) && |SoftmaxBlock(exp, src, dst, n)[0]| == 5
    ensures HasRow(src, n, s0.mem) && HasRow(dst, n, s0.mem)
    ensures SoftmaxAt(SoftmaxBlock(exp, src, dst, n), 0, exp, src, dst, n)
    ensures At(exp, src, dst, n, s0, 0).mem == s0.mem
  {
    SoftmaxDisciplined(exp, src, dst, n);
    hide Disciplined;
    forall t | 0 <= t < n ensures CellAt(src, t) in s0.mem && CellAt(dst, t) in s0.mem {
      assert CellAt(src, t) in RowSet(src, n) && CellAt(dst, t) in RowSet(dst, n);
    }
    SoftmaxSegments(exp, src, dst, n);
  }

  lemma {:induction false} SoftmaxSegments(exp: real -> real, src: Buf, dst: Buf, n: nat)
    ensures SoftmaxAt(SoftmaxBlock(exp, src, dst, n), 0, exp, src, dst, n)
  {
    var code := SoftmaxBlock(exp, src, dst, n);
    forall w | 0 <= w < WARPS
      ensures |code[w]| == 5 && code[w][0] == HeadOf(src, n)(w) && code[w][1] == code[w][3] == Publish(w)
      ensures code[w][2] == MiddleOf(exp, src, dst, n)(w)
    {
      WarpSegments(exp, src, dst, n, w);
    }
    hide SoftmaxBlock, HeadOf, MiddleOf, Publish;
  }

  lemma {:induction false} WarpSegments(exp: real -> real, src: Buf, dst: Buf, n: nat, w: int)
    requires 0 <= w < WARPS
    ensures var c := SoftmaxBlock(exp, src, dst, n)[w];
      && c[0] == HeadOf(src, n)(w) && c[1] == c[3] == Publish(w) && c[2] == MiddleOf(exp, src, dst, n)(w)
  {
    hide Head, Middle, Publish, Last;
  }

  lemma {:induction false} RunLast(dst: Buf, n: nat, p: seq<real>, e: int -> real, total: real, w: nat, r: Regs,
      mem: Mem)
    requires |p| == WARPS && Published(mem, p) && w < WARPS && HasRow(dst, n, mem)
    requires Butterfly(Add, Padded(BlockSum(), p)) == Const(total)
    ensures Wrote(dst, n, w, 32 * w, if 32 * w < n then n else 32 * w,
                  Mapped(ByInv(), RowOf(dst, mem), Recip(total)), mem, Run(Last(dst, n, w), r, mem).1)
  {
    RunTail(p, total, r, mem);
    RunConcat(Tail(), Loop(MapBody(ByInv(), dst, dst, n), 32 * w, n), r, mem);
    RunMapLoop(ByInv(), dst, dst, n, w, 32 * w, Recip(total), Run(Tail(), r, mem).0, mem);
  }

  lemma {:induction false} LastEpoch(exp: real -> real, src: Buf, dst: Buf, n: nat, s0: Block, p: seq<real>,
      e: int -> real, total: real)
    requires Launched(exp, src, dst, n, s0) && Compatible(src, dst) && |p| == WARPS
    requires Butterfly(Add, Padded(BlockSum(), p)) == Const(total)
    requires EightWarps(SoftmaxBlock(exp, src, dst, n), s0) && HasRow(dst, n, s0.mem)
    requires Published(At(exp, src, dst, n, s0, 4).mem, p)
    requires RowIs(dst, n, At(exp, src, dst, n, s0, 4).mem, e)
    ensures RowIs(dst, n, At(exp, src, dst, n, s0, 5).mem, Mapped(ByInv(), e, Recip(total)))
  {
    var code, g := SoftmaxBlock(exp, src, dst, n), At(exp, src, dst, n, s0, 4);
    var f := Mapped(ByInv(), RowOf(dst, g.mem), Recip(total));
    forall w: nat | 0 <= w < WARPS ensures OwnWritten(code, s0, 4, dst, n, f, w) {
      LastWrites(exp, src, dst, n, s0, p, e, total, w);
    }
    AtIs(exp, src, dst, n, s0, 5);
    hide SoftmaxBlock, Launched, Disciplined, Epochs, OwnWritten, At;
    RowEpoch(code, s0, 4, dst, n, f);
    MappedRow(dst, n, g.mem, e, Recip(total));
    RowIsCongruence(dst, n, At(exp, src, dst, n, s0, 5).mem, f, Mapped(ByInv(), e, Recip(total)));
  }

  lemma {:induction false} LastWrites(exp: real -> real, src: Buf, dst: Buf, n: nat, s0: Block, p: seq<real>,
      e: int -> real, total: real, w: nat)
    requires Launched(exp, src, dst, n, s0) && |p| == WARPS && w < WARPS
    requires Butterfly(Add, Padded(BlockSum(), p)) == Const(total)
    requires EightWarps(SoftmaxBlock(exp, src, dst, n), s0) && HasRow(dst, n, s0.mem)
    requires Published(At(exp, src, dst, n, s0, 4).mem, p)
    ensures OwnWritten(SoftmaxBlock(exp, src, dst, n), s0, 4, dst, n,
                       Mapped(ByInv(), RowOf(dst, At(exp, src, dst, n, s0, 4).mem), Recip(total)), w)
  {
    var g := At(exp, src, dst, n, s0, 4);
    LastWithin(dst, n, w);
    AtIs(exp, src, dst, n, s0, 4);
    LastIs(exp, src, dst, n, w);
    assert HasRow(dst, n, g.mem);
    hide *;
    RunLast(dst, n, p, e, total, w, g.regs[w], g.mem);
    LastOwn(exp, src, dst, n, s0, Mapped(ByInv(), RowOf(dst, g.mem), Recip(total)), w);
  }

  lemma {:induction false} LastOwn(exp: real -> real, src: Buf, dst: Buf, n: nat, s0: Block, f: int -> real, w: nat)
    requires Launched(exp, src, dst, n, s0) && w < WARPS && EightWarps(SoftmaxBlock(exp, src, dst, n), s0)
    requires Within(Last(dst, n, w), OwnSet(dst, n, w) + ScratchCells(), OwnSet(dst, n, w))
    requires var g := At(exp, src, dst, n, s0, 4);
      Wrote(dst, n, w, 32 * w, if 32 * w < n then n else 32 * w, f, g.mem, Run(Last(dst, n, w), g.regs[w], g.mem).1)
    ensures OwnWritten(SoftmaxBlock(exp, src, dst, n), s0, 4, dst, n, f, w)
  {
    LastIs(exp, src, dst, n, w);
    hide Run, Wrote, Epochs, EightWarps, OwnSet, Last, SoftmaxBlock;
  }

  lemma {:induction false} LastIs(exp: real -> real, src: Buf, dst: Buf, n: nat, w: nat)
    requires w < WARPS
    ensures SoftmaxBlock(exp, src, dst, n)[w][4] == Last(dst, n, w)
  {}

  lemma {:induction false} MappedRow(dst: Buf, n: nat, mem: Mem, e: int -> real, inv: real)
    requires RowIs(dst, n, mem, e)
    ensures forall t :: 0 <= t < n ==> Mapped(ByInv(), RowOf(dst, mem), inv)(t) == Mapped(ByInv(), e, inv)(t)
  {}

  lemma {:induction false} RowHeld(b: Buf, n: nat, mem: Mem)
    requires HasRow(b, n, mem)
    ensures RowIs(b, n, mem, RowOf(b, mem))
  {}

  /** The normalised exponentials are the softmax. */
  lemma {:induction false} SoftmaxValue(exp: real -> real, x: int -> real, n: nat, dst: Buf, mem: Mem, t: nat)
    requires ExpLike(exp) && t < n
    requires var e := ExpTerm(exp, x, RowMax(x, n)); RowIs(dst, n, mem, Mapped(ByInv(), e, Recip(Total(e, n))))
    ensures CellAt(dst, t) in mem && mem[CellAt(dst, t)] == Weight(exp, x, n, t)
  {
    hide Weight, ExpLike, Total, Mul, Recip, RowMax;
    ShiftInvariant(exp, x, n, RowMax(x, n), t);
  }

  lemma {:induction false} SoftmaxResult(exp: real -> real, src: Buf, dst: Buf, n: nat, s0: Block)
    requires Launched(exp, src, dst, n, s0) && Compatible(src, dst)
    requires EightWarps(SoftmaxBlock(exp, src, dst, n), s0)
    ensures var e := ExpTerm(exp, RowOf(src, s0.mem), RowMax(RowOf(src, s0.mem), n));
      RowIs(dst, n, At(exp, src, dst, n, s0, 5).mem, Mapped(ByInv(), e, Recip(Total(e, n))))
  {
    hide *;
    var code, x := SoftmaxBlock(exp, src, dst, n), RowOf(src, s0.mem);
    var e := ExpTerm(exp, x, RowMax(x, n));
    SoftmaxRows(exp, src, dst, n, s0);
    RowHeld(src, n, s0.mem);
    AtIs(exp, src, dst, n, s0, 0);
    AtIs(exp, src, dst, n, s0, 4);
    AtIs(exp, src, dst, n, s0, 5);
    var p := FourEpochs(code, s0, 0, exp, src, dst, n, x);
    LastEpoch(exp, src, dst, n, s0, p, e, Total(e, n));
  }

  /** In every schedule that runs to the end, dst holds the softmax of the row src held. */
  lemma {:induction false} EveryScheduleSoftmax(exp: real -> real, src: Buf, dst: Buf, n: nat, s0: Block,
      run: seq<Block>, acts: seq<Act>, t: nat)
    requires ExpLike(exp) && Compatible(src, dst) && t < n && Launched(exp, src, dst, n, s0)
    requires IsRun(SoftmaxBlock(exp, src, dst, n), s0, run, acts)
      && Finished(SoftmaxBlock(exp, src, dst, n), run[|acts|])
    ensures CellAt(dst, t) in run[|acts|].mem
    ensures run[|acts|].mem[CellAt(dst, t)] == Weight(exp, RowOf(src, s0.mem), n, t)
  {
    var code, x := SoftmaxBlock(exp, src, dst, n), RowOf(src, s0.mem);
    SoftmaxEnds(exp, src, dst, n, s0, run, acts);
    SoftmaxRows(exp, src, dst, n, s0);
    hide *;
    SoftmaxResult(exp, src, dst, n, s0);
    SoftmaxValue(exp, x, n, dst, run[|acts|].mem, t);
  }

  lemma {:induction false} SoftmaxEnds(exp: real -> real, src: Buf, dst: Buf, n: nat, s0: Block, run: seq<Block>,
      acts: seq<Act>)
    requires Compatible(src, dst) && Launched(exp, src, dst, n, s0)
    requires IsRun(SoftmaxBlock(exp, src, dst, n), s0, run, acts)
      && Finished(SoftmaxBlock(exp, src, dst, n), run[|acts|])
    ensures run[|acts|].mem == At(exp, src, dst, n, s0, 5).mem
  {
    SoftmaxDisciplined(exp, src, dst, n);
    OneFinalState(SoftmaxBlock(exp, src, dst, n), s0, run, acts);
  }

  /** No schedule of a row's block races, deadlocks or runs forever. */
  lemma {:induction false} SoftmaxIsSafe(exp: real -> real, src: Buf, dst: Buf, n: nat, s0: Block, run: seq<Block>,
      acts: seq<Act>)
    requires Compatible(src, dst) && Launched(exp, src, dst, n, s0)
    requires IsRun(SoftmaxBlock(exp, src, dst, n), s0, run, acts)
    ensures Safe(SoftmaxBlock(exp, src, dst, n), RowCells(src, dst, n), run, acts)
  {
    SoftmaxDisciplined(exp, src, dst, n);
    DisciplinedIsSafe(SoftmaxBlock(exp, src, dst, n), s0, run, acts);
  }
}

module RmsKernel {
  import opened BlockMachine
  import opened Schedules
  import opened Folds
  import opened Reduce
  import opened RowCode
  import opened SoftmaxSpec
  import opened SoftmaxCode
  import opened SoftmaxEpochs
  import Sums

  /** The weights, the epsilon and the reciprocal square root of one launch. */
  datatype Norm = Norm(weight: int -> real, eps: real, rsqrt: real -> real)

  function InvOf(k: Norm, n: nat, total: real): real { k.rsqrt(Mul(total, Recip(n as real)) + k.eps) }

  function Normed(k: Norm): (int, real, real) -> real { (i: int, x: real, inv: real) => Mul(Mul(x, inv), k.weight(i)) }

  function SetInvRms(k: Norm, n: nat): Instr {
    Alu((r: Regs) => r.(inv := seq(32, l requires 0 <= l < 32 => InvOf(k, n, r.v[l]))))
  }

  function ClearSum(): Instr { Alu((r: Regs) => r.(sum := Const(0.0))) }

  /** Up to the first barrier of blockSum. */
  function First(src: Buf, n: nat, w: nat): Segment {
    [ClearSum()] + Loop(SquareBody(src, n), 32 * w, n) + [SumToV()] + WarpReduce(Add)
  }

  /** After its second barrier. */
  function Last(k: Norm, src: Buf, dst: Buf, n: nat, w: nat): Segment {
    Collect(BlockSum()) + [SetInvRms(k, n)] + Loop(MapBody(Normed(k), src, dst, n), 32 * w, n)
  }

  function RmsBlock(k: Norm, src: Buf, dst: Buf, n: nat): (code: seq<Code>)
    ensures |code| == WARPS && forall w :: 0 <= w < WARPS ==> |code[w]| == 3
  {
    seq(WARPS, w requires 0 <= w < WARPS => [First(src, n, w), Publish(w), Last(k, src, dst, n, w)])
  }

  ghost function RowCells(src: Buf, dst: Buf, n: nat): set<Cell> { RowSet(src, n) + ScratchCells() + RowSet(dst, n) }

  ghost predicate Launched(k: Norm, src: Buf, dst: Buf, n: nat, s0: Block) {
    s0.mem.Keys == RowCells(src, dst, n) && Initial(RmsBlock(k, src, dst, n), s0)
  }

  // ---- safety

  ghost function MayRead(src: Buf, n: nat, w: int, e: int): set<Cell> {
    if e == 0 then OwnSet(src, n, w) else if e == 2 then OwnSet(src, n, w) + ScratchCells() else {}
  }

  ghost function MayWrite(dst: Buf, n: nat, w: int, e: int): set<Cell> {
    if e == 1 then {Scratch(w)} else if e == 2 then OwnSet(dst, n, w) else {}
  }

  lemma {:induction false} FirstWithin(src: Buf, n: nat, w: nat)
    requires w < WARPS
    ensures Within(First(src, n, w), OwnSet(src, n, w), {})
  {
    var R, loop := OwnSet(src, n, w), Loop(SquareBody(src, n), 32 * w, n);
    SquareLoopWithin(src, n, w);
    AluWithin(ClearSum().f, R, {});
    AluWithin(SumToV().f, R, {});
    WarpReduceWithin(Add, R, {});
    WithinConcat([ClearSum()], loop, R, {});
    WithinConcat([ClearSum()] + loop, [SumToV()], R, {});
    WithinConcat([ClearSum()] + loop + [SumToV()], WarpReduce(Add), R, {});
  }

  lemma {:induction false} LastWithin(k: Norm, src: Buf, dst: Buf, n: nat, w: nat)
    requires w < WARPS
    ensures Within(Last(k, src, dst, n, w), OwnSet(src, n, w) + ScratchCells(), OwnSet(dst, n, w))
  {
    var R, W := OwnSet(src, n, w) + ScratchCells(), OwnSet(dst, n, w);
    var loop := Loop(MapBody(Normed(k), src, dst, n), 32 * w, n);
    CollectWithin(BlockSum(), R, W);
    AluWithin(SetInvRms(k, n).f, R, W);
    MapLoopWithin(Normed(k), src, dst, n, w);
    WithinWider(loop, OwnSet(src, n, w), W, R, W);
    WithinConcat(Collect(BlockSum()), [SetInvRms(k, n)], R, W);
    WithinConcat(Collect(BlockSum()) + [SetInvRms(k, n)], loop, R, W);
  }

  lemma {:induction false} WarpWithin(k: Norm, src: Buf, dst: Buf, n: nat, w: nat, e: nat)
    requires w < WARPS && e < 3
    ensures Within(RmsBlock(k, src, dst, n)[w][e], MayRead(src, n, w, e), MayWrite(dst, n, w, e))
  {
    if e == 0 { FirstWithin(src, n, w); }
    else if e == 2 { LastWithin(k, src, dst, n, w); }
    else { PublishTouches(w); }
  }

  lemma {:induction false} RmsDisciplined(k: Norm, src: Buf, dst: Buf, n: nat)
    requires Compatible(src, dst)
    ensures Disciplined(RmsBlock(k, src, dst, n), RowCells(src, dst, n))
  {
    var code := RmsBlock(k, src, dst, n);
    var rs, ws := (w, e) => MayRead(src, n, w, e), (w, e) => MayWrite(dst, n, w, e);
    forall w, e | 0 <= w < WARPS && 0 <= e < |code[0]| ensures Within(code[w][e], rs(w, e), ws(w, e)) {
      WarpWithin(k, src, dst, n, w, e);
    }
    forall w, e | 0 <= w < WARPS && 0 <= e < |code[0]|
      ensures rs(w, e) <= RowCells(src, dst, n) && ws(w, e) <= RowCells(src, dst, n)
    {
      OwnInRow(src, n, w);
      OwnInRow(dst, n, w);
      assert Scratch(w) in ScratchCells();
    }
    forall u, w, e | 0 <= u < WARPS && 0 <= w < WARPS && u != w && 0 <= e < |code[0]|
      ensures ws(u, e) !! rs(w, e) + ws(w, e)
    {
      OwnSetsDisjoint(dst, dst, n, n, u, w);
      OwnSetsDisjoint(dst, src, n, n, u, w);
    }
    Discipline(code, RowCells(src, dst, n), rs, ws);
  }

  // ---- result

  lemma {:induction false} RunFirst(src: Buf, n: nat, w: nat, r: Regs, mem: Mem)
    requires HasRow(src, n, mem)
    ensures Run(First(src, n, w), r, mem).0.v == Butterfly(Add, SumLanes(Squares(RowOf(src, mem)), n, w))
    ensures Run(First(src, n, w), r, mem).1 == mem
  {
    var a, loop, b := [ClearSum()], Loop(SquareBody(src, n), 32 * w, n), [SumToV()];
    var r1 := r.(sum := Const(0.0));
    RunOne(ClearSum(), r, mem);
    RunConcat(a, loop, r, mem);
    RunSquareLoop(src, n, 32 * w, r1, mem);
    var r2 := Run(loop, r1, mem).0;
    assert r2.sum == SumLanes(Squares(RowOf(src, mem)), n, w);
    RunSnoc(a + loop, SumToV(), r, mem);
    RunConcat(a + loop + b, WarpReduce(Add), r, mem);
    RunWarpReduce(Add, r2.(v := r2.sum), mem);
  }

  lemma {:induction false} RunLast(k: Norm, src: Buf, dst: Buf, n: nat, p: seq<real>, total: real, w: nat, r: Regs,
      mem: Mem)
    requires |p| == WARPS && Published(mem, p) && w < WARPS && HasRow(dst, n, mem) && HasRow(src, n, mem)
      && Compatible(src, dst)
    requires Butterfly(Add, Padded(BlockSum(), p)) == Const(total)
    ensures Wrote(dst, n, w, 32 * w, if 32 * w < n then n else 32 * w,
                  Mapped(Normed(k), RowOf(src, mem), InvOf(k, n, total)), mem, Run(Last(k, src, dst, n, w), r, mem).1)
  {
    var c, loop := Collect(BlockSum()), Loop(MapBody(Normed(k), src, dst, n), 32 * w, n);
    RunCollect(BlockSum(), p, r, mem);
    RunSnoc(c, SetInvRms(k, n), r, mem);
    var r1 := Run(c + [SetInvRms(k, n)], r, mem).0;
    assert r1.inv == Const(InvOf(k, n, total));
    RunConcat(c + [SetInvRms(k, n)], loop, r, mem);
    RunMapLoop(Normed(k), src, dst, n, w, 32 * w, InvOf(k, n, total), r1, mem);
  }

  /** What taking the warps one at a time, epoch by epoch, leaves at the start of epoch e. */
  ghost function At(k: Norm, src: Buf, dst: Buf, n: nat, s0: Block, e: nat): (g: Global)
    requires Launched(k, src, dst, n, s0) && e <= 3
    ensures |g.regs| == WARPS && g.mem.Keys == s0.mem.Keys
  {
    Epochs(RmsBlock(k, src, dst, n), e, s0)
  }

  lemma {:induction false} AtIs(k: Norm, src: Buf, dst: Buf, n: nat, s0: Block, e: nat)
    requires Launched(k, src, dst, n, s0) && e <= 3
    ensures |s0.warps| == |RmsBlock(k, src, dst, n)|
    ensures At(k, src, dst, n, s0, e) == Epochs(RmsBlock(k, src, dst, n), e, s0)
  {}

  lemma {:induction false} RmsRows(k: Norm, src: Buf, dst: Buf, n: nat, s0: Block)
    requires Launched(k, src, dst, n, s0) && Compatible(src, dst)
    ensures EightWarps(RmsBlock(k, src, dst, n), s0) && |RmsBlock(k, src, dst, n)[0]| == 3
    ensures HasRow(src, n, s0.mem) && HasRow(dst, n, s0.mem)
    ensures At(k, src, dst, n, s0, 0).mem == s0.mem
  {
    RmsDisciplined(k, src, dst, n);
    hide Disciplined;
    forall t | 0 <= t < n ensures CellAt(src, t) in s0.mem && CellAt(dst, t) in s0.mem {
      assert CellAt(src, t) in RowSet(src, n) && CellAt(dst, t) in RowSet(dst, n);
    }
  }

  lemma {:induction false} RmsSegments(k: Norm, src: Buf, dst: Buf, n: nat, w: nat)
    requires w < WARPS
    ensures var c := RmsBlock(k, src, dst, n)[w];
      c[0] == First(src, n, w) && c[1] == Publish(w) && c[2] == Last(k, src, dst, n, w)
  {}

  /** The first two epochs: every warp can read the sum of squares. */
  lemma {:induction false} SquaresSummed(k: Norm, src: Buf, dst: Buf, n: nat, s0: Block) returns (p: seq<real>)
    requires Launched(k, src, dst, n, s0) && Compatible(src, dst)
    requires EightWarps(RmsBlock(k, src, dst, n), s0) && HasRow(src, n, s0.mem)
    ensures |p| == WARPS && Published(At(k, src, dst, n, s0, 2).mem, p)
    ensures Butterfly(Add, Padded(BlockSum(), p)) == Const(Total(Squares(RowOf(src, s0.mem)), n))
    ensures SameExcept(s0.mem, At(k, src, dst, n, s0, 2).mem, ScratchCells())
  {
    var code := RmsBlock(k, src, dst, n);
    var f := Squares(RowOf(src, s0.mem));
    p := SumPartials(f, n);
    SumTotal(f, n);
    forall w: nat | 0 <= w < WARPS
      ensures At(k, src, dst, n, s0, 1).regs[w].v[0] == p[w] && SegWrites(code[w][0]) == {} && code[w][1] == Publish(w)
    {
      RmsSegments(k, src, dst, n, w);
      FirstRegs(k, src, dst, n, s0, w);
      FirstWithin(src, n, w);
    }
    QuietEpoch(code, s0, 0);
    PublishEpoch(code, s0, 1, p);
  }

  lemma {:induction false} FirstRegs(k: Norm, src: Buf, dst: Buf, n: nat, s0: Block, w: nat)
    requires Launched(k, src, dst, n, s0) && w < WARPS && HasRow(src, n, s0.mem)
    ensures At(k, src, dst, n, s0, 1).regs[w].v == Butterfly(Add, SumLanes(Squares(RowOf(src, s0.mem)), n, w))
  {
    var code := RmsBlock(k, src, dst, n);
    EpochRegs(code, 0, s0, w);
    RmsSegments(k, src, dst, n, w);
    var g := At(k, src, dst, n, s0, 0);
    RunFirst(src, n, w, g.regs[w], g.mem);
  }

  lemma {:induction false} LastEpoch(k: Norm, src: Buf, dst: Buf, n: nat, s0: Block, p: seq<real>, x: int -> real,
      total: real)
    requires Launched(k, src, dst, n, s0) && Compatible(src, dst) && |p| == WARPS
    requires Butterfly(Add, Padded(BlockSum(), p)) == Const(total)
    requires EightWarps(RmsBlock(k, src, dst, n), s0) && HasRow(dst, n, s0.mem) && HasRow(src, n, s0.mem)
    requires Published(At(k, src, dst, n, s0, 2).mem, p)
    requires RowIs(src, n, At(k, src, dst, n, s0, 2).mem, x)
    ensures RowIs(dst, n, At(k, src, dst, n, s0, 3).mem, Mapped(Normed(k), x, InvOf(k, n, total)))
  {
    var code := RmsBlock(k, src, dst, n);
    var g := At(k, src, dst, n, s0, 2);
    var f := Mapped(Normed(k), RowOf(src, g.mem), InvOf(k, n, total));
    forall w: nat | 0 <= w < WARPS ensures OwnWritten(code, s0, 2, dst, n, f, w) {
      LastWrites(k, src, dst, n, s0, p, total, w);
    }
    AtIs(k, src, dst, n, s0, 3);
    hide RmsBlock, Launched, Disciplined, Epochs, OwnWritten, At;
    RowEpoch(code, s0, 2, dst, n, f);
    RowIsCongruence(dst, n, At(k, src, dst, n, s0, 3).mem, f, Mapped(Normed(k), x, InvOf(k, n, total)));
  }

  lemma {:induction false} LastWrites(k: Norm, src: Buf, dst: Buf, n: nat, s0: Block, p: seq<real>, total: real, w: nat)
    requires Launched(k, src, dst, n, s0) && Compatible(src, dst) && |p| == WARPS && w < WARPS
    requires Butterfly(Add, Padded(BlockSum(), p)) == Const(total)
    requires EightWarps(RmsBlock(k, src, dst, n), s0) && HasRow(dst, n, s0.mem) && HasRow(src, n, s0.mem)
    requires Published(At(k, src, dst, n, s0, 2).mem, p)
    ensures OwnWritten(RmsBlock(k, src, dst, n), s0, 2, dst, n,
                       Mapped(Normed(k), RowOf(src, At(k, src, dst, n, s0, 2).mem), InvOf(k, n, total)), w)
  {
    var g := At(k, src, dst, n, s0, 2);
    LastWithin(k, src, dst, n, w);
    AtIs(k, src, dst, n, s0, 2);
    assert HasRow(dst, n, g.mem) && HasRow(src, n, g.mem);
    hide *;
    RunLast(k, src, dst, n, p, total, w, g.regs[w], g.mem);
    LastOwn(k, src, dst, n, s0, Mapped(Normed(k), RowOf(src, g.mem), InvOf(k, n, total)), w);
  }

  lemma {:induction false} LastOwn(k: Norm, src: Buf, dst: Buf, n: nat, s0: Block, f: int -> real, w: nat)
    requires Launched(k, src, dst, n, s0) && w < WARPS && EightWarps(RmsBlock(k, src, dst, n), s0)
    requires Within(Last(k, src, dst, n, w), OwnSet(src, n, w) + ScratchCells(), OwnSet(dst, n, w))
    requires var g := At(k, src, dst, n, s0, 2);
      Wrote(dst, n, w, 32 * w, if 32 * w < n then n
        else 32 * w, f, g.mem, Run(Last(k, src, dst, n, w), g.regs[w], g.mem).1)
    ensures OwnWritten(RmsBlock(k, src, dst, n), s0, 2, dst, n, f, w)
  {
    RmsSegments(k, src, dst, n, w);
    hide Run, Wrote, Epochs, EightWarps, OwnSet, Last, RmsBlock;
  }

  /** x[i] / rms(x) * weight[i], the RMS over the whole row. */
  function RmsNormed(k: Norm, x: int -> real, n: nat): int -> real {
    Mapped(Normed(k), x, InvOf(k, n, Total(Squares(x), n)))
  }

  /** rsqrt(v) is the positive root of 1 / v. */
  ghost predicate RootLike(rsqrt: real -> real) {
    forall v :: v > 0.0 ==> rsqrt(v) > 0.0 && rsqrt(v) * rsqrt(v) * v == 1.0
  }

  /** Every element is multiplied with its weight and with the one positive number whose square is the
      reciprocal of the mean of the squares plus eps. */
  lemma {:induction false} NormalisedBy(k: Norm, x: int -> real, n: nat, i: int, inv: real)
    requires RootLike(k.rsqrt) && n > 0 && inv > 0.0
    requires inv * inv * (Sums.Sum(n, t => x(t) * x(t)) / n as real + k.eps) == 1.0
    ensures RmsNormed(k, x, n)(i) == x(i) * inv * k.weight(i)
  {
    var f, v := t => x(t) * x(t), Sums.Sum(n, t => x(t) * x(t)) / n as real + k.eps;
    AccumulateAdd(Squares(x), n);
    forall t | 0 <= t < n ensures f(t) == Squares(x)(t) { SquareIs(x(t)); }
    Sums.SumCongruence(n, f, Squares(x));
    MeanIs(Total(Squares(x), n), n as real);
    PositiveFactor(inv * inv, v);
    RootOnce(k.rsqrt, v, inv);
    hide Sums.Sum, Total, RootLike, Recip;
    ThreeFactors(x(i), inv, k.weight(i));
  }

  lemma {:induction false} SquareIs(a: real)
    ensures Mul(a, a) == a * a
  {}

  lemma {:induction false} MeanIs(total: real, n: real)
    requires n > 0.0
    ensures Mul(total, Recip(n)) == total / n
  {}

  lemma {:induction false} PositiveFactor(a: real, v: real)
    requires a >= 0.0 && a * v == 1.0
    ensures v > 0.0
  {}

  lemma {:induction false} ThreeFactors(a: real, b: real, c: real)
    ensures Mul(Mul(a, b), c) == a * b * c
  {}

  lemma {:induction false} RootOnce(rsqrt: real -> real, v: real, a: real)
    requires RootLike(rsqrt) && v > 0.0 && a > 0.0 && a * a * v == 1.0
    ensures rsqrt(v) == a
  {
    SameRoot(rsqrt(v), a, v);
  }

  lemma {:induction false} SameRoot(a: real, b: real, v: real)
    requires v > 0.0 && a > 0.0 && b > 0.0 && a * a * v == 1.0 && b * b * v == 1.0
    ensures a == b
  {
    assert a * a == (a * a * v) / v && b * b == (b * b * v) / v;
    assert (a - b) * (a + b) == a * a - b * b;
  }

  lemma {:induction false} RmsResult(k: Norm, src: Buf, dst: Buf, n: nat, s0: Block)
    requires Launched(k, src, dst, n, s0) && Compatible(src, dst)
    requires EightWarps(RmsBlock(k, src, dst, n), s0)
    ensures RowIs(dst, n, At(k, src, dst, n, s0, 3).mem, RmsNormed(k, RowOf(src, s0.mem), n))
  {
    var code, x := RmsBlock(k, src, dst, n), RowOf(src, s0.mem);
    RmsRows(k, src, dst, n, s0);
    assert RowIs(src, n, s0.mem, x);
    hide RowIs, Epochs, SameExcept, EightWarps, HasRow, Published, Butterfly, Launched, At;
    var p := SquaresSummed(k, src, dst, n, s0);
    RowKept(src, n, s0.mem, At(k, src, dst, n, s0, 2).mem, x);
    LastEpoch(k, src, dst, n, s0, p, x, Total(Squares(x), n));
  }

  /** In every schedule that runs to the end, dst holds the normalised row src held. */
  lemma {:induction false} EveryScheduleNormalises(k: Norm, src: Buf, dst: Buf, n: nat, s0: Block, run: seq<Block>,
      acts: seq<Act>, t: nat)
    requires Compatible(src, dst) && t < n && Launched(k, src, dst, n, s0)
    requires IsRun(RmsBlock(k, src, dst, n), s0, run, acts) && Finished(RmsBlock(k, src, dst, n), run[|acts|])
    ensures CellAt(dst, t) in run[|acts|].mem
    ensures run[|acts|].mem[CellAt(dst, t)] == RmsNormed(k, RowOf(src, s0.mem), n)(t)
  {
    var code := RmsBlock(k, src, dst, n);
    RmsRows(k, src, dst, n, s0);
    RmsResult(k, src, dst, n, s0);
    RmsDisciplined(k, src, dst, n);
    AtIs(k, src, dst, n, s0, 3);
    hide Disciplined, EightWarps, IsRun, Epochs, At;
    OneFinalState(code, s0, run, acts);
  }

  /** No schedule of a row's block races, deadlocks or runs forever. */
  lemma {:induction false} RmsIsSafe(k: Norm, src: Buf, dst: Buf, n: nat, s0: Block, run: seq<Block>, acts: seq<Act>)
    requires Compatible(src, dst) && Launched(k, src, dst, n, s0)
    requires IsRun(RmsBlock(k, src, dst, n), s0, run, acts)
    ensures Safe(RmsBlock(k, src, dst, n), RowCells(src, dst, n), run, acts)
  {
    RmsDisciplined(k, src, dst, n);
    DisciplinedIsSafe(RmsBlock(k, src, dst, n), s0, run, acts);
  }
}
