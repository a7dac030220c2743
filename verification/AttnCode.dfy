/** The code of kernels/attention.go: the scores of one head and the weighted sum of V. */
module AttnCode {
  import opened Wrappers
  import opened BlockMachine
  import opened Folds
  import opened Reduce
  import opened RowCode
  import opened SoftmaxSpec
  import opened SoftmaxCode

  /** The read-only arguments of one launch. */
  datatype Args = Args(q: int -> real, k: int -> real, v: int -> real, kvLen: nat, nKV: nat, group: nat, headDim: nat,
                       scale: real, exp: real -> real)

  function KvHead(a: Args, h: nat): nat { if a.group == 0 then 0 else h / a.group }

  function KvAt(a: Args, h: nat, t: int, d: int): int { t * (a.nKV * a.headDim) + (KvHead(a, h) * a.headDim + d) }

  /** Product d of the dot product of query head h with the key of position t. */
  function Product(a: Args, h: nat, t: int): int -> real { d => a.q(h * a.headDim + d) * a.k(KvAt(a, h, t, d)) }

  function ScoreOf(a: Args, h: nat): int -> real { t => Total(Product(a, h, t), a.headDim) * a.scale }

  // ---- scores: one warp per position

  function DotLanes(a: Args, h: nat, t: int): Vec {
    seq(32, l requires 0 <= l < 32 => Strided(Add, 0.0, Product(a, h, t), l, 32, a.headDim))
  }

  function SetDot(a: Args, h: nat, t: int): Instr { Alu((r: Regs) => r.(v := DotLanes(a, h, t))) }

  function ScaleVec(v: Vec, k: real): Vec { seq(32, l requires 0 <= l < 32 => v[l] * k) }

  function StoreScore(a: Args, t: int): Instr { Store(LaneZero(Score(t)), (r: Regs) => ScaleVec(r.v, a.scale)) }

  function ScoreBody(a: Args, h: nat, t: int): Segment { [SetDot(a, h, t)] + WarpReduce(Add) + [StoreScore(a, t)] }

  /** "for t := warp; t < kvLen; t += numWarps" */
  function ScoreLoop(a: Args, h: nat, t: int): Segment
    decreases a.kvLen - t
  {
    if t >= a.kvLen then [] else ScoreBody(a, h, t) + ScoreLoop(a, h, t + 8)
  }

  ghost function OwnScores(t: int, n: nat): set<Cell> { set u | t <= u < n && u % 8 == t % 8 :: Score(u) }

  lemma {:induction false} ScoreBodyWithin(a: Args, h: nat, t: nat)
    requires t < a.kvLen
    ensures Within(ScoreBody(a, h, t), {}, {Score(t)})
  {
    AluWithin(SetDot(a, h, t).f, {}, {Score(t)});
    WarpReduceWithin(Add, {}, {Score(t)});
    WithinConcat([SetDot(a, h, t)], WarpReduce(Add), {}, {Score(t)});
    StoreScoreWithin(a, t);
    WithinConcat([SetDot(a, h, t)] + WarpReduce(Add), [StoreScore(a, t)], {}, {Score(t)});
  }

  lemma {:induction false} StoreScoreWithin(a: Args, t: nat)
    ensures Within([StoreScore(a, t)], {}, {Score(t)})
  {
    SegOne(StoreScore(a, t));
    assert forall l :: 0 < l < 32 ==> LaneZero(Score(t))[l] == None;
  }

  lemma {:induction false} ScoreLoopWithin(a: Args, h: nat, t: nat)
    ensures Within(ScoreLoop(a, h, t), {}, OwnScores(t, a.kvLen))
    decreases a.kvLen - t
  {
    var W := OwnScores(t, a.kvLen);
    if t < a.kvLen {
      ScoreBodyWithin(a, h, t);
      ScoreLoopWithin(a, h, t + 8);
      assert Score(t) in W;
      assert (t + 8) % 8 == t % 8;
      WithinWider(ScoreBody(a, h, t), {}, {Score(t)}, {}, W);
      WithinWider(ScoreLoop(a, h, t + 8), {}, OwnScores(t + 8, a.kvLen), {}, W);
      WithinConcat(ScoreBody(a, h, t), ScoreLoop(a, h, t + 8), {}, W);
    }
  }

  lemma {:induction false} DotTotal(a: Args, h: nat, t: int)
    ensures Butterfly(Add, DotLanes(a, h, t)) == Const(Total(Product(a, h, t), a.headDim))
  {
    AddMaxReorderable();
    WarpTotal(Add, DotLanes(a, h, t));
    StridedCovers(Add, 0.0, Product(a, h, t), DotLanes(a, h, t), a.headDim);
  }

  lemma {:induction false} RunScoreBody(a: Args, h: nat, t: nat, r: Regs, mem: Mem)
    requires Score(t) in mem
    ensures var mem' := Run(ScoreBody(a, h, t), r, mem).1;
      mem'.Keys == mem.Keys && mem'[Score(t)] == ScoreOf(a, h)(t)
  {
    var dot := Total(Product(a, h, t), a.headDim);
    RunDot(a, h, t, r, mem);
    hide *;
    ScoreBodyIs(a, h, t, r, mem);
    RunStoreScore(a, t, r.(v := Const(dot)), mem);
    ScoreIs(a, h, t);
  }

  lemma {:induction false} ScoreIs(a: Args, h: nat, t: int)
    ensures ScoreOf(a, h)(t) == Const(Total(Product(a, h, t), a.headDim))[0] * a.scale
  {}

  lemma {:induction false} ScoreBodyIs(a: Args, h: nat, t: nat, r: Regs, mem: Mem)
    ensures Run(ScoreBody(a, h, t), r, mem)
         == Exec(StoreScore(a, t), Run([SetDot(a, h, t)] + WarpReduce(Add), r, mem).0,
           Run([SetDot(a, h, t)] + WarpReduce(Add), r, mem).1)
  {
    RunSnoc([SetDot(a, h, t)] + WarpReduce(Add), StoreScore(a, t), r, mem);
  }

  lemma {:induction false} RunDot(a: Args, h: nat, t: nat, r: Regs, mem: Mem)
    ensures Run([SetDot(a, h, t)] + WarpReduce(Add), r, mem)
      == (r.(v := Const(Total(Product(a, h, t), a.headDim))), mem)
  {
    RunOne(SetDot(a, h, t), r, mem);
    DotTotal(a, h, t);
    hide Total, Butterfly, DotLanes;
    RunConcat([SetDot(a, h, t)], WarpReduce(Add), r, mem);
    RunWarpReduce(Add, r.(v := DotLanes(a, h, t)), mem);
  }

  lemma {:induction false} RunStoreScore(a: Args, t: nat, r: Regs, mem: Mem)
    requires Score(t) in mem
    ensures var mem' := Exec(StoreScore(a, t), r, mem).1;
      mem'.Keys == mem.Keys && mem'[Score(t)] == r.v[0] * a.scale
  {
    var i := StoreScore(a, t);
    ScatterFrame(i.at, i.get(r), mem, 32);
    ScatterAt(i.at, i.get(r), mem, 32, 0);
  }

  /** The scores a warp leaves behind. */
  ghost predicate Scored(a: Args, h: nat, t: int, mem: Mem) {
    forall u :: t <= u < a.kvLen && u % 8 == t % 8 ==> Score(u) in mem && mem[Score(u)] == ScoreOf(a, h)(u)
  }

  lemma {:induction false} RunScoreLoop(a: Args, h: nat, t: nat, r: Regs, mem: Mem)
    requires HasRow(Scores, a.kvLen, mem)
    ensures Scored(a, h, t, Run(ScoreLoop(a, h, t), r, mem).1)
    decreases a.kvLen - t
  {
    hide ScoreOf, ScoreBody, Run, Within;
    if t < a.kvLen {
      assert CellAt(Scores, t) in mem;
      RunScoreBody(a, h, t, r, mem);
      var mid := Run(ScoreBody(a, h, t), r, mem);
      RunScoreLoop(a, h, t + 8, mid.0, mid.1);
      RunConcat(ScoreBody(a, h, t), ScoreLoop(a, h, t + 8), r, mem);
      ScoreLoopWithin(a, h, t + 8);
      RunFrame(ScoreLoop(a, h, t + 8), mid.0, mid.1);
      ScoredNext(a, h, t, Run(ScoreLoop(a, h, t + 8), mid.0, mid.1).1);
    }
  }

  lemma {:induction false} ScoredNext(a: Args, h: nat, t: nat, mem: Mem)
    requires Score(t) in mem && mem[Score(t)] == ScoreOf(a, h)(t) && Scored(a, h, t + 8, mem)
    ensures Scored(a, h, t, mem)
  {
    forall u | t <= u < a.kvLen && u % 8 == t % 8 && u != t ensures t + 8 <= u && u % 8 == (t + 8) % 8 {}
  }

  // ---- out: one thread per dimension

  function Weighted(a: Args, h: nat, e: int -> real, d: int): int -> real { t => Mul(e(t), a.v(KvAt(a, h, t, d))) }

  function ZeroAcc(): Instr { Alu((r: Regs) => r.(acc := Const(0.0))) }

  /** The lanes of the loop over dimensions that are still active all read the same score. */
  function Broadcast(c: Cell, d: int, n: int): (at: Mask)
    ensures forall l :: 0 <= l < 32 ==> at[l] == (if d + l < n then Some(c) else None)
  {
    seq(32, l => if d + l < n then Some(c) else None)
  }

  function AddWeighted(a: Args, h: nat, t: int, d: int, acc: Vec, x: Vec): Vec {
    seq(32, l requires 0 <= l < 32 =>
      if d + l < a.headDim then acc[l] + x[l] * a.v(KvAt(a, h, t, d + l)) else acc[l])
  }

  function LoadScore(a: Args, h: nat, d: int, t: int): Instr {
    Load(Broadcast(Score(t), d, a.headDim), (r: Regs, x: Vec) => r.(acc := AddWeighted(a, h, t, d, r.acc, x)))
  }

  /** "for t := 0; t < kvLen; t++" */
  function AccLoop(a: Args, h: nat, d: int, n: nat): Segment {
    if n == 0 then [] else AccLoop(a, h, d, n - 1) + [LoadScore(a, h, d, n - 1)]
  }

  function MulVec(x: Vec, y: Vec): Vec { seq(32, l requires 0 <= l < 32 => x[l] * y[l]) }

  function OutRow(a: Args, h: nat): Buf { Output(h * a.headDim) }

  function StoreOut(a: Args, h: nat, d: int): Instr {
    Store(Lanes(OutRow(a, h), d, a.headDim), (r: Regs) => MulVec(r.acc, r.inv))
  }

  function OutBody(a: Args, h: nat): int -> Segment {
    d => [ZeroAcc()] + AccLoop(a, h, d, a.kvLen) + [StoreOut(a, h, d)]
  }

  function OutLoop(a: Args, h: nat, w: nat): Segment { Loop(OutBody(a, h), 32 * w, a.headDim) }

  lemma {:induction false} LoadScoreWithin(a: Args, h: nat, d: int, t: int, ws: set<Cell>)
    requires 0 <= t < a.kvLen
    ensures Within([LoadScore(a, h, d, t)], RowSet(Scores, a.kvLen), ws)
  {
    SegOne(LoadScore(a, h, d, t));
    assert CellAt(Scores, t) in RowSet(Scores, a.kvLen);
  }

  lemma {:induction false} AccLoopWithin(a: Args, h: nat, d: int, n: nat, ws: set<Cell>)
    requires n <= a.kvLen
    ensures Within(AccLoop(a, h, d, n), RowSet(Scores, a.kvLen), ws)
  {
    if n > 0 {
      AccLoopWithin(a, h, d, n - 1, ws);
      LoadScoreWithin(a, h, d, n - 1, ws);
      WithinConcat(AccLoop(a, h, d, n - 1), [LoadScore(a, h, d, n - 1)], RowSet(Scores, a.kvLen), ws);
    }
  }

  lemma {:induction false} OutBodyWithin(a: Args, h: nat, d: nat, w: nat)
    requires w < WARPS && d % 256 == 32 * w
    ensures Within(OutBody(a, h)(d), RowSet(Scores, a.kvLen), OwnSet(OutRow(a, h), a.headDim, w))
  {
    var R, W := RowSet(Scores, a.kvLen), OwnSet(OutRow(a, h), a.headDim, w);
    AluWithin(ZeroAcc().f, R, W);
    AccLoopWithin(a, h, d, a.kvLen, W);
    StoreWithin(StoreOut(a, h, d), OutRow(a, h), a.headDim, d, w);
    WithinWider([StoreOut(a, h, d)], {}, W, R, W);
    WithinConcat([ZeroAcc()], AccLoop(a, h, d, a.kvLen), R, W);
    WithinConcat([ZeroAcc()] + AccLoop(a, h, d, a.kvLen), [StoreOut(a, h, d)], R, W);
  }

  lemma {:induction false} OutLoopWithin(a: Args, h: nat, w: nat)
    requires w < WARPS
    ensures Within(OutLoop(a, h, w), RowSet(Scores, a.kvLen), OwnSet(OutRow(a, h), a.headDim, w))
  {
    var R, W := RowSet(Scores, a.kvLen), OwnSet(OutRow(a, h), a.headDim, w);
    forall u | u >= 0 && u % 256 == 32 * w ensures Within(OutBody(a, h)(u), R, W) { OutBodyWithin(a, h, u, w); }
    LoopWithin(OutBody(a, h), 32 * w, a.headDim, w, R, W);
  }

  ghost predicate Accumulated(a: Args, h: nat, e: int -> real, d: int, n: nat, r: Regs, r': Regs) {
    r' == r.(acc := r'.acc)
    && forall l :: 0 <= l < 32 && d + l < a.headDim ==> r'.acc[l] == Total(Weighted(a, h, e, d + l), n)
  }

  lemma {:induction false} RunAccLoop(a: Args, h: nat, e: int -> real, d: int, n: nat, r: Regs, mem: Mem)
    requires n <= a.kvLen && HasRow(Scores, a.kvLen, mem) && r.acc == Const(0.0)
    requires forall t :: 0 <= t < a.kvLen ==> RowOf(Scores, mem)(t) == e(t)
    ensures Run(AccLoop(a, h, d, n), r, mem).1 == mem
    ensures Accumulated(a, h, e, d, n, r, Run(AccLoop(a, h, d, n), r, mem).0)
  {
    if n == 0 {
      assert AccLoop(a, h, d, 0) == [];
    } else {
      RunAccLoop(a, h, e, d, n - 1, r, mem);
      RunSnoc(AccLoop(a, h, d, n - 1), LoadScore(a, h, d, n - 1), r, mem);
      AccRound(a, h, e, d, n - 1, r, Run(AccLoop(a, h, d, n - 1), r, mem).0, mem);
    }
  }

  lemma {:induction false} AccRound(a: Args, h: nat, e: int -> real, d: int, t: nat, r0: Regs, r: Regs, mem: Mem)
    requires t < a.kvLen && HasRow(Scores, a.kvLen, mem) && RowOf(Scores, mem)(t) == e(t)
    requires Accumulated(a, h, e, d, t, r0, r)
    ensures Accumulated(a, h, e, d, t + 1, r0, Exec(LoadScore(a, h, d, t), r, mem).0)
  {
    var at := Broadcast(Score(t), d, a.headDim);
    var x := Gather(at, mem);
    assert CellAt(Scores, t) in mem;
    var r' := Exec(LoadScore(a, h, d, t), r, mem).0;
    assert r'.acc == AddWeighted(a, h, t, d, r.acc, x);
    forall l | 0 <= l < 32 && d + l < a.headDim ensures r'.acc[l] == Total(Weighted(a, h, e, d + l), t + 1) {
      assert at[l] == Some(Score(t)) && x[l] == e(t);
      assert Total(Weighted(a, h, e, d + l), t + 1)
        == Add(Total(Weighted(a, h, e, d + l), t), Weighted(a, h, e, d + l)(t));
    }
  }

  /** Dimension d of the output: the weighted sum of V, scaled once at the end. */
  function OutOf(a: Args, h: nat, e: int -> real, inv: real): int -> real {
    d => Mul(Total(Weighted(a, h, e, d), a.kvLen), inv)
  }

  ghost predicate OutReady(a: Args, h: nat, e: int -> real, inv: real, r: Regs, mem: Mem) {
    && HasRow(Scores, a.kvLen, mem) && HasRow(OutRow(a, h), a.headDim, mem) && r.inv == Const(inv)
    && forall t :: 0 <= t < a.kvLen ==> RowOf(Scores, mem)(t) == e(t)
  }

  lemma {:induction false} RunOutBody(a: Args, h: nat, e: int -> real, inv: real, w: nat, d: nat, r: Regs, mem: Mem)
    requires w < WARPS && d % 256 == 32 * w && OutReady(a, h, e, inv, r, mem)
    ensures var after := Run(OutBody(a, h)(d), r, mem);
      Wrote(OutRow(a, h), a.headDim, w, d, d + 256, OutOf(a, h, e, inv), mem, after.1) && after.0.inv == r.inv
  {
    var r1 := r.(acc := Const(0.0));
    var loop := AccLoop(a, h, d, a.kvLen);
    RunOne(ZeroAcc(), r, mem);
    RunConcat([ZeroAcc()], loop, r, mem);
    RunAccLoop(a, h, e, d, a.kvLen, r1, mem);
    RunSnoc([ZeroAcc()] + loop, StoreOut(a, h, d), r, mem);
    StoreOutWrote(a, h, e, inv, w, d, Run(loop, r1, mem).0, mem);
  }

  lemma {:induction false} StoreOutWrote(a: Args, h: nat, e: int -> real, inv: real, w: nat, d: nat, r: Regs, mem: Mem)
    requires w < WARPS && d % 256 == 32 * w && HasRow(OutRow(a, h), a.headDim, mem) && r.inv == Const(inv)
    requires forall l :: 0 <= l < 32 && d + l < a.headDim ==> r.acc[l] == Total(Weighted(a, h, e, d + l), a.kvLen)
    ensures var after := Exec(StoreOut(a, h, d), r, mem);
      Wrote(OutRow(a, h), a.headDim, w, d, d + 256, OutOf(a, h, e, inv), mem, after.1) && after.0 == r
  {
    StoreWrote(StoreOut(a, h, d), OutRow(a, h), a.headDim, w, d, OutOf(a, h, e, inv), r, mem);
  }

  /** Scores are not output cells, so the rounds before leave them alone. */
  lemma {:induction false} StillReady(a: Args, h: nat, e: int -> real, inv: real, w: nat, d: nat, r: Regs, mem: Mem,
      r': Regs, mem': Mem)
    requires OutReady(a, h, e, inv, r, mem) && r'.inv == r.inv
    requires Wrote(OutRow(a, h), a.headDim, w, d, d + 256, OutOf(a, h, e, inv), mem, mem')
    ensures OutReady(a, h, e, inv, r', mem')
  {
    forall t | 0 <= t < a.kvLen ensures RowOf(Scores, mem')(t) == e(t) {
      assert CellAt(Scores, t) in mem && CellAt(Scores, t) !in OwnSet(OutRow(a, h), a.headDim, w);
    }
  }

  lemma {:induction false} RunOutLoop(a: Args, h: nat, e: int -> real, inv: real, w: nat, d: nat, r: Regs, mem: Mem)
    requires w < WARPS && d % 256 == 32 * w && OutReady(a, h, e, inv, r, mem)
    ensures Wrote(OutRow(a, h), a.headDim, w, d, if d < a.headDim then a.headDim else d, OutOf(a, h, e, inv), mem,
                  Run(Loop(OutBody(a, h), d, a.headDim), r, mem).1)
    decreases a.headDim - d
  {
    if d < a.headDim {
      RunOutBody(a, h, e, inv, w, d, r, mem);
      var mid := Run(OutBody(a, h)(d), r, mem);
      StillReady(a, h, e, inv, w, d, r, mem, mid.0, mid.1);
      NextFirst(w, d);
      RunOutLoop(a, h, e, inv, w, d + 256, mid.0, mid.1);
      RunConcat(OutBody(a, h)(d), Loop(OutBody(a, h), d + 256, a.headDim), r, mem);
      ExpMems(OutRow(a, h), a.headDim, w, d, OutOf(a, h, e, inv), OutOf(a, h, e, inv), mem, mid.1,
              Run(Loop(OutBody(a, h), d + 256, a.headDim), mid.0, mid.1).1);
    }
  }
}
