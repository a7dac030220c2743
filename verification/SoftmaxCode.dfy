/** The softmax both Softmax and AttnDecode compute in place: a block maximum, the
    exponentials, and a block sum. */
module SoftmaxCode {
  import opened BlockMachine
  import opened Folds
  import opened Reduce
  import opened RowCode
  import opened SoftmaxSpec

  /** The lowest float32, where the kernels start their maximum. */
  const LOWEST := -340282346638528859811704183484516925440.0

  function SetM(x: real): Instr { Alu((r: Regs) => r.(m := Const(x))) }

  function MToV(): Instr { Alu((r: Regs) => r.(v := r.m)) }

  function VToM(): Instr { Alu((r: Regs) => r.(m := r.v, sum := Const(0.0))) }

  function SumToV(): Instr { Alu((r: Regs) => r.(v := r.sum)) }

  function SetInv(): Instr {
    Alu((r: Regs) => r.(inv := seq(32, l requires 0 <= l < 32 => Recip(r.v[l]))))
  }

  /** Up to the first barrier of blockMax. */
  function Head(src: Buf, n: nat, w: nat): Segment {
    [SetM(LOWEST)] + Loop(MaxBody(src, n), 32 * w, n) + [MToV()] + WarpReduce(Max)
  }

  /** From the second barrier of blockMax to the first of blockSum. */
  function Middle(exp: real -> real, src: Buf, dst: Buf, n: nat, w: nat): Segment {
    Collect(BlockMax()) + [VToM()] + Loop(ExpBody(exp, src, dst, n), 32 * w, n) + [SumToV()] + WarpReduce(Add)
  }

  /** After the second barrier of blockSum. */
  function Tail(): Segment { Collect(BlockSum()) + [SetInv()] }

  // ---- what one warp computes

  function MaxLanes(x: int -> real, n: nat, w: nat): Vec {
    seq(32, l requires 0 <= l < 32 => Strided(Max, LOWEST, x, 32 * w + l, 256, n))
  }

  function SumLanes(f: int -> real, n: nat, w: nat): Vec {
    seq(32, l requires 0 <= l < 32 => Strided(Add, 0.0, f, 32 * w + l, 256, n))
  }

  lemma {:induction false} RunHead(src: Buf, n: nat, w: nat, r: Regs, mem: Mem)
    requires HasRow(src, n, mem)
    ensures Run(Head(src, n, w), r, mem).0.v == Butterfly(Max, MaxLanes(RowOf(src, mem), n, w))
    ensures Run(Head(src, n, w), r, mem).1 == mem
  {
    var a, loop, b := [SetM(LOWEST)], Loop(MaxBody(src, n), 32 * w, n), [MToV()];
    var r1 := r.(m := Const(LOWEST));
    RunOne(SetM(LOWEST), r, mem);
    RunConcat(a, loop, r, mem);
    RunMaxLoop(src, n, 32 * w, r1, mem);
    var r2 := Run(loop, r1, mem).0;
    assert r2.m == MaxLanes(RowOf(src, mem), n, w);
    RunSnoc(a + loop, MToV(), r, mem);
    RunConcat(a + loop + b, WarpReduce(Max), r, mem);
    RunWarpReduce(Max, r2.(v := r2.m), mem);
  }

  lemma {:induction false} RunMiddle(exp: real -> real, src: Buf, dst: Buf, n: nat, w: nat, partials: seq<real>,
      m: real, r: Regs, mem: Mem)
    requires w < WARPS && Compatible(src, dst) && HasRow(src, n, mem) && HasRow(dst, n, mem)
    requires |partials| == WARPS && Published(mem, partials) && Butterfly(Max, Padded(BlockMax(), partials)) == Const(m)
    ensures var f := ExpTerm(exp, RowOf(src, mem), m);
      var after := Run(Middle(exp, src, dst, n, w), r, mem);
      after.0.v == Butterfly(Add, SumLanes(f, n, w))
        && Wrote(dst, n, w, 32 * w, if 32 * w < n then n else 32 * w, f, mem, after.1)
  {
    var a, loop := Collect(BlockMax()), Loop(ExpBody(exp, src, dst, n), 32 * w, n);
    RunCollect(BlockMax(), partials, r, mem);
    RunSnoc(a, VToM(), r, mem);
    var r1 := Run(a + [VToM()], r, mem).0;
    assert r1.m == Const(m) && r1.sum == Const(0.0) && Run(a + [VToM()], r, mem).1 == mem;
    MiddleLoop(exp, src, dst, n, w, m, r1, mem);
    MiddleJoin(a + [VToM()], loop, r, mem);
  }

  lemma {:induction false} MiddleJoin(a: Segment, loop: Segment, r: Regs, mem: Mem)
    ensures Run(a + loop + [SumToV()] + WarpReduce(Add), r, mem)
         == Run(loop + [SumToV()] + WarpReduce(Add), Run(a, r, mem).0, Run(a, r, mem).1)
  {
    hide *;
    RunConcat(a, loop + [SumToV()] + WarpReduce(Add), r, mem);
    assert a + (loop + [SumToV()] + WarpReduce(Add)) == a + loop + [SumToV()] + WarpReduce(Add);
  }

  lemma {:induction false} MiddleLoop(exp: real -> real, src: Buf, dst: Buf, n: nat, w: nat, m: real, r: Regs, mem: Mem)
    requires w < WARPS && Compatible(src, dst) && HasRow(src, n, mem) && HasRow(dst, n, mem)
    requires r.m == Const(m) && r.sum == Const(0.0)
    ensures var f := ExpTerm(exp, RowOf(src, mem), m);
      var after := Run(Loop(ExpBody(exp, src, dst, n), 32 * w, n) + [SumToV()] + WarpReduce(Add), r, mem);
      after.0.v == Butterfly(Add, SumLanes(f, n, w))
        && Wrote(dst, n, w, 32 * w, if 32 * w < n then n else 32 * w, f, mem, after.1)
  {
    var loop := Loop(ExpBody(exp, src, dst, n), 32 * w, n);
    var f := ExpTerm(exp, RowOf(src, mem), m);
    RunExpLoop(exp, src, dst, n, w, 32 * w, m, r, mem);
    var r2, mem2 := Run(loop, r, mem).0, Run(loop, r, mem).1;
    assert r2.sum == SumLanes(f, n, w);
    hide Wrote, Loop, Butterfly;
    RunSnoc(loop, SumToV(), r, mem);
    RunConcat(loop + [SumToV()], WarpReduce(Add), r, mem);
    RunWarpReduce(Add, r2.(v := r2.sum), mem2);
  }

  lemma {:induction false} RunTail(partials: seq<real>, total: real, r: Regs, mem: Mem)
    requires |partials| == WARPS && Published(mem, partials) && Butterfly(Add, Padded(BlockSum(), partials))
      == Const(total)
    ensures Run(Tail(), r, mem).0.inv == Const(Recip(total)) && Run(Tail(), r, mem).1 == mem
  {
    RunCollect(BlockSum(), partials, r, mem);
    RunSnoc(Collect(BlockSum()), SetInv(), r, mem);
  }

  // ---- what a warp may touch

  lemma {:induction false} WarpReduceWithin(op: Op, rs: set<Cell>, ws: set<Cell>)
    ensures Within(WarpReduce(op), rs, ws)
  {
    WarpReduceTouches(op);
  }

  lemma {:induction false} CollectWithin(k: Reduction, rs: set<Cell>, ws: set<Cell>)
    requires ScratchCells() <= rs
    ensures Within(Collect(k), rs, ws)
  {
    CollectTouches(k);
  }

  lemma {:induction false} HeadWithin(src: Buf, n: nat, w: nat)
    requires w < WARPS
    ensures Within(Head(src, n, w), OwnSet(src, n, w), {})
  {
    var R, loop := OwnSet(src, n, w), Loop(MaxBody(src, n), 32 * w, n);
    MaxLoopWithin(src, n, w);
    AluWithin(SetM(LOWEST).f, R, {});
    AluWithin(MToV().f, R, {});
    WarpReduceWithin(Max, R, {});
    WithinConcat([SetM(LOWEST)], loop, R, {});
    WithinConcat([SetM(LOWEST)] + loop, [MToV()], R, {});
    WithinConcat([SetM(LOWEST)] + loop + [MToV()], WarpReduce(Max), R, {});
  }

  lemma {:induction false} MiddleWithin(exp: real -> real, src: Buf, dst: Buf, n: nat, w: nat)
    requires w < WARPS
    ensures Within(Middle(exp, src, dst, n, w), OwnSet(src, n, w) + ScratchCells(), OwnSet(dst, n, w))
  {
    var R, W := OwnSet(src, n, w) + ScratchCells(), OwnSet(dst, n, w);
    var a, loop := Collect(BlockMax()), Loop(ExpBody(exp, src, dst, n), 32 * w, n);
    CollectWithin(BlockMax(), R, W);
    ExpLoopWithin(exp, src, dst, n, w);
    WithinWider(loop, OwnSet(src, n, w), W, R, W);
    AluWithin(VToM().f, R, W);
    AluWithin(SumToV().f, R, W);
    WarpReduceWithin(Add, R, W);
    WithinConcat(a, [VToM()], R, W);
    WithinConcat(a + [VToM()], loop, R, W);
    WithinConcat(a + [VToM()] + loop, [SumToV()], R, W);
    WithinConcat(a + [VToM()] + loop + [SumToV()], WarpReduce(Add), R, W);
  }

  lemma {:induction false} TailWithin(ws: set<Cell>)
    ensures Within(Tail(), ScratchCells(), ws)
  {
    CollectWithin(BlockSum(), ScratchCells(), ws);
    AluWithin(SetInv().f, ScratchCells(), ws);
    WithinConcat(Collect(BlockSum()), [SetInv()], ScratchCells(), ws);
  }

  // ---- what the block computes

  /** A block reduction of strided loops is one sequential loop over the row. */
  lemma {:induction false} BlockAccumulates(k: Reduction, start: real, f: int -> real, n: nat, input: seq<Vec>)
    requires (k == BlockSum() && start == 0.0) || k == BlockMax()
    requires |input| == WARPS
    requires forall w :: 0 <= w < WARPS ==> LanesStride(k.op, start, f, n, w, input[w])
    ensures Butterfly(k.op, Padded(k, Partials(k, input))) == Const(Accumulate(k.op, start, f, n))
  {
    AddMaxReorderable();
    BlockTotal(k, input);
    FlatStrides(k.op, start, f, n, input);
    WarpAgrees(k.op, Padded(k, Partials(k, input)));
  }

  /** Lane l of warp w has run the loop of thread 32w + l. */
  ghost predicate LanesStride(op: Op, start: real, f: int -> real, n: nat, w: nat, v: Vec) {
    forall l :: 0 <= l < 32 ==> v[l] == Strided(op, start, f, 32 * w + l, 256, n)
  }

  lemma {:induction false} FlatStrides(op: Op, start: real, f: int -> real, n: nat, input: seq<Vec>)
    requires Reorderable(op) && op(start, start) == start && |input| == WARPS
    requires forall w :: 0 <= w < WARPS ==> LanesStride(op, start, f, n, w, input[w])
    ensures Fold(op, Slice(i => Flat(input, i), 0, BLOCK_SIZE)) == Accumulate(op, start, f, n)
  {
    var flat := Slice(i => Flat(input, i), 0, BLOCK_SIZE);
    forall i | 0 <= i < BLOCK_SIZE ensures flat[i] == Strided(op, start, f, i, |flat|, n) {
      assert LanesStride(op, start, f, n, i / 32, input[i / 32]);
      assert flat[i] == input[i / 32][i % 32];
    }
    StridedCovers(op, start, f, flat, n);
  }
}
