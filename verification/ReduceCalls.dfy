/** Any sequence of blockSum and blockMax calls on one scratch array, as a whole
    block runs it. */
module ReduceCalls {
  import opened Wrappers
  import opened BlockMachine
  import opened Runs
  import opened Schedules
  import opened Folds
  import opened Reduce
  import opened Arith

  datatype Call = Call(k: Reduction, input: seq<Vec>)

  ghost predicate ValidCalls(calls: seq<Call>) {
    forall c :: 0 <= c < |calls| ==> |calls[c].input| == WARPS && Commutative(calls[c].k.op)
  }

  function SetInput(x: Vec): Instr { Alu((r: Regs) => r.(v := x)) }

  function Append(): Instr { Alu((r: Regs) => r.(log := r.log + [r.v])) }

  /** Up to the first barrier of a call. */
  function Ask(c: Call, w: int): Segment
    requires |c.input| == WARPS && 0 <= w < WARPS
  {
    [SetInput(c.input[w])] + WarpReduce(c.k.op)
  }

  /** From its second barrier on; the result is kept in the log. */
  function Answer(c: Call): Segment { Collect(c.k) + [Append()] }

  /** Between the second barrier of call c-1 and the first barrier of call c. */
  function Middle(calls: seq<Call>, w: int, c: nat): Segment
    requires 0 <= w < WARPS && c <= |calls|
    requires forall i :: 0 <= i < |calls| ==> |calls[i].input| == WARPS
  {
    (if c > 0 then Answer(calls[c - 1]) else []) + (if c < |calls| then Ask(calls[c], w) else [])
  }

  function Piece(calls: seq<Call>, w: int, e: nat): Segment
    requires 0 <= w < WARPS && e <= 2 * |calls|
    requires forall c :: 0 <= c < |calls| ==> |calls[c].input| == WARPS
  {
    if e % 2 == 1 then Publish(w) else Middle(calls, w, e / 2)
  }

  function CallsCode(calls: seq<Call>): (code: seq<Code>)
    requires forall c :: 0 <= c < |calls| ==> |calls[c].input| == WARPS
    ensures |code| == WARPS && forall w :: 0 <= w < WARPS ==> |code[w]| == 2 * |calls| + 1
  {
    seq(WARPS, w requires 0 <= w < WARPS =>
      seq(2 * |calls| + 1, e requires 0 <= e <= 2 * |calls| => Piece(calls, w, e)))
  }

  function Results(calls: seq<Call>, n: nat): seq<Vec>
    requires n <= |calls| && forall c :: 0 <= c < |calls| ==> |calls[c].input| == WARPS
    ensures |Results(calls, n)| == n
  {
    seq(n, c requires 0 <= c < n => Const(BlockResult(calls[c].k, calls[c].input)))
  }

  ghost predicate Started(s0: Block) {
    && |s0.warps| == WARPS && s0.mem.Keys == ScratchCells()
    && forall w :: 0 <= w < WARPS ==> s0.warps[w].epoch == 0 && s0.warps[w].pc == 0 && s0.warps[w].regs.log == []
  }

  lemma {:induction false} AnswerTouches(c: Call)
    ensures Tame(Answer(c), ScratchCells()) && SegWrites(Answer(c)) == {}
  {
    CollectTouches(c.k);
    SegOne(Append());
    SegConcat(Collect(c.k), [Append()]);
  }

  lemma {:induction false} AskTouches(c: Call, w: int)
    requires |c.input| == WARPS && 0 <= w < WARPS
    ensures Tame(Ask(c, w), ScratchCells()) && SegWrites(Ask(c, w)) == {}
  {
    WarpReduceTouches(c.k.op);
    SegOne(SetInput(c.input[w]));
    SegConcat([SetInput(c.input[w])], WarpReduce(c.k.op));
  }

  lemma {:induction false} MiddleTouches(calls: seq<Call>, w: int, c: nat)
    requires ValidCalls(calls) && 0 <= w < WARPS && c <= |calls|
    ensures Tame(Middle(calls, w, c), ScratchCells()) && SegWrites(Middle(calls, w, c)) == {}
  {
    if c > 0 { AnswerTouches(calls[c - 1]); }
    if c < |calls| { AskTouches(calls[c], w); }
    hide Answer, Ask;
    SegConcat(if c > 0 then Answer(calls[c - 1]) else [], if c < |calls| then Ask(calls[c], w) else []);
  }

  lemma {:induction false} PieceTouches(calls: seq<Call>, w: int, e: nat)
    requires ValidCalls(calls) && 0 <= w < WARPS && e <= 2 * |calls|
    ensures Tame(Piece(calls, w, e), ScratchCells())
    ensures SegWrites(Piece(calls, w, e)) == (if e % 2 == 1 then {Scratch(w)} else {})
    ensures e % 2 == 1 ==> SegReads(Piece(calls, w, e)) == {}
  {
    if e % 2 == 1 { PublishTouches(w); } else { MiddleTouches(calls, w, e / 2); }
  }

  lemma {:induction false} CallsDisciplined(calls: seq<Call>)
    requires ValidCalls(calls)
    ensures Disciplined(CallsCode(calls), ScratchCells())
  {
    var code := CallsCode(calls);
    forall u, w, e | 0 <= u < |code| && 0 <= w < |code| && u != w && 0 <= e < |code[0]|
      ensures Separated(code[u][e], code[w][e])
    {
      PieceTouches(calls, u, e);
      PieceTouches(calls, w, e);
    }
    forall w, e | 0 <= w < |code| && 0 <= e < |code[0]| ensures Tame(code[w][e], ScratchCells()) {
      PieceTouches(calls, w, e);
    }
  }

  lemma {:induction false} ResultsGrow(calls: seq<Call>, c: nat)
    requires ValidCalls(calls) && c < |calls|
    ensures Results(calls, c + 1) == Results(calls, c) + [Const(BlockResult(calls[c].k, calls[c].input))]
  {
    hide BlockResult, Const, ValidCalls;
  }

  lemma {:induction false} RunMiddle(calls: seq<Call>, w: int, c: nat, r: Regs, mem: Mem)
    requires ValidCalls(calls) && 0 <= w < WARPS && c <= |calls| && Holds(calls, c, r, mem)
    ensures Run(Middle(calls, w, c), r, mem).0.log == Results(calls, c)
    ensures c < |calls| ==> Run(Middle(calls, w, c), r, mem).0.v == Butterfly(calls[c].k.op, calls[c].input[w])
  {
    var a := if c > 0 then Answer(calls[c - 1]) else [];
    var b := if c < |calls| then Ask(calls[c], w) else [];
    assert Middle(calls, w, c) == a + b;
    RunConcat(a, b, r, mem);
    if c > 0 { AnswerLogs(calls, c, r, mem); } else { RunNothing(r, mem); }
    if c < |calls| {
      hide *;
      AskKeeps(calls, c, w, Run(a, r, mem).0, Run(a, r, mem).1);
    } else {
      RunNothing(Run(a, r, mem).0, Run(a, r, mem).1);
    }
  }

  lemma {:induction false} RunNothing(r: Regs, mem: Mem)
    ensures Run([], r, mem) == (r, mem)
  {}

  lemma {:induction false} AnswerLogs(calls: seq<Call>, c: nat, r: Regs, mem: Mem)
    requires ValidCalls(calls) && 0 < c <= |calls| && Holds(calls, c, r, mem)
    ensures Run(Answer(calls[c - 1]), r, mem).0.log == Results(calls, c)
  {
    HoldsMeans(calls, c, r, mem);
    hide *;
    RunAnswer(calls[c - 1], r, mem);
    ResultsGrow(calls, c - 1);
  }

  lemma {:induction false} HoldsMeans(calls: seq<Call>, c: nat, r: Regs, mem: Mem)
    requires ValidCalls(calls) && 0 < c <= |calls| && Holds(calls, c, r, mem)
    ensures |calls[c - 1].input| == WARPS && Commutative(calls[c - 1].k.op) && r.log == Results(calls, c - 1)
    ensures Published(mem, Partials(calls[c - 1].k, calls[c - 1].input))
  {
    hide Results, Published, Partials;
  }

  lemma {:induction false} AskKeeps(calls: seq<Call>, c: nat, w: int, r: Regs, mem: Mem)
    requires ValidCalls(calls) && c < |calls| && 0 <= w < WARPS
    ensures |calls[c].input| == WARPS
    ensures var r' := Run(Ask(calls[c], w), r, mem).0;
      r'.log == r.log && r'.v == Butterfly(calls[c].k.op, calls[c].input[w])
  {
    RunAsk(calls[c], w, r, mem);
  }

  lemma {:induction false} RunAnswer(c: Call, r: Regs, mem: Mem)
    requires |c.input| == WARPS && Commutative(c.k.op) && Published(mem, Partials(c.k, c.input))
    ensures Run(Answer(c), r, mem).0.log == r.log + [Const(BlockResult(c.k, c.input))]
  {
    var p := Partials(c.k, c.input);
    RunCollect(c.k, p, r, mem);
    RunSnoc(Collect(c.k), Append(), r, mem);
    WarpAgrees(c.k.op, Padded(c.k, p));
  }

  lemma {:induction false} RunAsk(c: Call, w: int, r: Regs, mem: Mem)
    requires |c.input| == WARPS && 0 <= w < WARPS
    ensures Run(Ask(c, w), r, mem) == (r.(v := Butterfly(c.k.op, c.input[w])), mem)
  {
    RunOne(SetInput(c.input[w]), r, mem);
    RunConcat([SetInput(c.input[w])], WarpReduce(c.k.op), r, mem);
    RunWarpReduce(c.k.op, r.(v := c.input[w]), mem);
  }

  /** A warp about to read the result of call c-1: it knows the results before that one,
      and the partial results of that call are in the scratch. */
  ghost predicate Holds(calls: seq<Call>, c: nat, r: Regs, mem: Mem)
    requires ValidCalls(calls) && c <= |calls|
  {
    if c == 0 then r.log == []
    else r.log == Results(calls, c - 1) && Published(mem, Partials(calls[c - 1].k, calls[c - 1].input))
  }

  ghost predicate AtCall(calls: seq<Call>, g: Global, c: nat)
    requires ValidCalls(calls) && c <= |calls|
  {
    |g.regs| == WARPS && forall w :: 0 <= w < WARPS ==> Holds(calls, c, g.regs[w], g.mem)
  }

  /** What taking the warps one at a time, epoch by epoch, leaves at the start of epoch e. */
  ghost function CallsAt(calls: seq<Call>, s0: Block, e: nat): (g: Global)
    requires ValidCalls(calls) && Started(s0) && e <= 2 * |calls| + 1
    ensures |g.regs| == WARPS && g.mem.Keys == s0.mem.Keys
  {
    Epochs(CallsCode(calls), e, s0)
  }

  lemma {:induction false} CallsStart(calls: seq<Call>, s0: Block, w: nat)
    requires ValidCalls(calls) && Started(s0) && w < WARPS
    ensures CallsAt(calls, s0, 0).regs[w] == s0.warps[w].regs
  {}

  lemma {:induction false} CallsFinish(calls: seq<Call>, s0: Block, run: seq<Block>, acts: seq<Act>, w: nat)
    requires ValidCalls(calls) && Started(s0) && IsRun(CallsCode(calls), s0, run, acts) && w < WARPS
    requires Finished(CallsCode(calls), run[|acts|])
    ensures run[|acts|].warps[w].regs == CallsAt(calls, s0, 2 * |calls| + 1).regs[w]
  {
    CallsDisciplined(calls);
    OneFinalState(CallsCode(calls), s0, run, acts);
  }

  lemma {:induction false} BeforeCalls(calls: seq<Call>, s0: Block)
    requires ValidCalls(calls) && Started(s0)
    ensures AtCall(calls, CallsAt(calls, s0, 0), 0)
  {
    hide CallsAt;
    forall w | 0 <= w < WARPS ensures CallsAt(calls, s0, 0).regs[w].log == [] { CallsStart(calls, s0, w); }
  }

  lemma {:induction false} CallByCall(calls: seq<Call>, s0: Block, c: nat)
    requires ValidCalls(calls) && Started(s0) && c <= |calls|
    ensures AtCall(calls, CallsAt(calls, s0, 2 * c), c)
  {
    hide *;
    if c == 0 {
      BeforeCalls(calls, s0);
    } else {
      CallByCall(calls, s0, c - 1);
      OneCall(calls, s0, c - 1, 2 * c - 2);
    }
  }

  lemma {:induction false} OneCall(calls: seq<Call>, s0: Block, c: nat, e: nat)
    requires ValidCalls(calls) && Started(s0) && c < |calls| && e == 2 * c && AtCall(calls, CallsAt(calls, s0, e), c)
    ensures AtCall(calls, CallsAt(calls, s0, e + 2), c + 1)
  {
    CallAsks(calls, s0, c, e);
    CallPublishes(calls, s0, c, e + 1);
  }

  lemma {:induction false} MiddleStep(calls: seq<Call>, s0: Block, c: nat, e: nat, w: nat)
    requires ValidCalls(calls) && Started(s0) && c <= |calls| && e == 2 * c && w < WARPS
    ensures CallsAt(calls, s0, e + 1).regs[w]
      == Run(Middle(calls, w, c), CallsAt(calls, s0, e).regs[w], CallsAt(calls, s0, e).mem).0
  {
    EpochRegs(CallsCode(calls), e, s0, w);
    MiddleAt(calls, w, c);
  }

  lemma {:induction false} MiddleAt(calls: seq<Call>, w: nat, c: nat)
    requires ValidCalls(calls) && c <= |calls| && w < WARPS
    ensures CallsCode(calls)[w][2 * c] == Middle(calls, w, c)
  {
    Parity(c);
    PieceAt(calls, w, 2 * c);
  }

  lemma {:induction false} PieceAt(calls: seq<Call>, w: nat, e: nat)
    requires ValidCalls(calls) && e <= 2 * |calls| && w < WARPS
    ensures CallsCode(calls)[w][e] == Piece(calls, w, e)
  {}

  /** Warp w holds its partial result of call c and the results of the calls before. */
  ghost predicate Asked(calls: seq<Call>, c: nat, w: nat, r: Regs)
    requires ValidCalls(calls) && c < |calls| && w < WARPS
  {
    r.log == Results(calls, c) && r.v[0] == Partials(calls[c].k, calls[c].input)[w]
  }

  ghost predicate AllAsked(calls: seq<Call>, c: nat, g: Global)
    requires ValidCalls(calls) && c < |calls|
  {
    |g.regs| == WARPS && forall w :: 0 <= w < WARPS ==> Asked(calls, c, w, g.regs[w])
  }

  lemma {:induction false} CallAsks(calls: seq<Call>, s0: Block, c: nat, e: nat)
    requires ValidCalls(calls) && Started(s0) && c < |calls| && e == 2 * c
    requires AtCall(calls, CallsAt(calls, s0, e), c)
    ensures AllAsked(calls, c, CallsAt(calls, s0, e + 1))
  {
    var g, g' := CallsAt(calls, s0, e), CallsAt(calls, s0, e + 1);
    forall w | 0 <= w < WARPS ensures Asked(calls, c, w, g'.regs[w]) {
      MiddleStep(calls, s0, c, e, w);
      RunMiddle(calls, w, c, g.regs[w], g.mem);
    }
  }

  /** Warp w has put its partial result into its scratch cell. */
  ghost predicate Passed(g: Global, g': Global, w: nat)
    requires |g.regs| == |g'.regs| == WARPS && w < WARPS
  {
    g'.regs[w] == g.regs[w] && Scratch(w) in g'.mem && g'.mem[Scratch(w)] == g.regs[w].v[0]
  }

  lemma {:induction false} PublishStep(calls: seq<Call>, s0: Block, c: nat, e: nat, w: nat)
    requires ValidCalls(calls) && Started(s0) && c < |calls| && e == 2 * c + 1 && w < WARPS
    ensures Passed(CallsAt(calls, s0, e), CallsAt(calls, s0, e + 1), w)
  {
    var code := CallsCode(calls);
    var g := CallsAt(calls, s0, e);
    CallsDisciplined(calls);
    EpochRegs(code, e, s0, w);
    PublishAt(calls, w, c);
    assert Scratch(w) in ScratchCells();
    RunPublish(w, g.regs[w], g.mem);
    PublishTouches(w);
    EpochCell(code, e, s0, w, Scratch(w));
  }

  lemma {:induction false} PublishAt(calls: seq<Call>, w: nat, c: nat)
    requires ValidCalls(calls) && c < |calls| && w < WARPS
    ensures CallsCode(calls)[w][2 * c + 1] == Publish(w)
  {
    Parity(c);
    PieceAt(calls, w, 2 * c + 1);
  }

  lemma {:induction false} CallPublishes(calls: seq<Call>, s0: Block, c: nat, e: nat)
    requires ValidCalls(calls) && Started(s0) && c < |calls| && e == 2 * c + 1
    requires AllAsked(calls, c, CallsAt(calls, s0, e))
    ensures AtCall(calls, CallsAt(calls, s0, e + 1), c + 1)
  {
    var g, g' := CallsAt(calls, s0, e), CallsAt(calls, s0, e + 1);
    forall w | 0 <= w < WARPS ensures Passed(g, g', w) {
      PublishStep(calls, s0, c, e, w);
    }
    AllPassed(calls, c, g, g');
  }

  lemma {:induction false} AllPassed(calls: seq<Call>, c: nat, g: Global, g': Global)
    requires ValidCalls(calls) && c < |calls| && AllAsked(calls, c, g) && |g'.regs| == WARPS
    requires forall w :: 0 <= w < WARPS ==> Passed(g, g', w)
    ensures AtCall(calls, g', c + 1)
  {
    forall w | 0 <= w < WARPS
      ensures Scratch(w) in g'.mem && g'.mem[Scratch(w)] == Partials(calls[c].k, calls[c].input)[w]
      ensures g'.regs[w].log == Results(calls, c)
    {
      assert Passed(g, g', w) && Asked(calls, c, w, g.regs[w]);
    }
  }

  /** Whatever the schedule, after any sequence of block reductions every thread holds, for
      every call, the one value of that call. Only commutativity is used, so the threads
      agree on rounded sums as well. */
  lemma {:induction false} EveryThreadAgrees(calls: seq<Call>, s0: Block, run: seq<Block>, acts: seq<Act>)
    requires ValidCalls(calls) && Started(s0) && IsRun(CallsCode(calls), s0, run, acts)
    requires Finished(CallsCode(calls), run[|acts|])
    ensures forall w :: 0 <= w < WARPS ==> run[|acts|].warps[w].regs.log == Results(calls, |calls|)
  {
    CallByCall(calls, s0, |calls|);
    forall w | 0 <= w < WARPS ensures run[|acts|].warps[w].regs.log == Results(calls, |calls|) {
      CallsFinish(calls, s0, run, acts, w);
      LastAnswer(calls, s0, w);
    }
  }

  lemma {:induction false} LastAnswer(calls: seq<Call>, s0: Block, w: nat)
    requires ValidCalls(calls) && Started(s0) && w < WARPS
    requires AtCall(calls, CallsAt(calls, s0, 2 * |calls|), |calls|)
    ensures CallsAt(calls, s0, 2 * |calls| + 1).regs[w].log == Results(calls, |calls|)
  {
    var g := CallsAt(calls, s0, 2 * |calls|);
    MiddleStep(calls, s0, |calls|, 2 * |calls|, w);
    RunMiddle(calls, w, |calls|, g.regs[w], g.mem);
  }

  /** For blockSum and blockMax that value is the total, or the maximum, of the 256 inputs
      of that very call. */
  lemma {:induction false} EveryThreadGetsTheTotal(calls: seq<Call>, s0: Block, run: seq<Block>, acts: seq<Act>,
      c: nat, w: nat, l: nat)
    requires c < |calls| && w < WARPS && l < LANES
    requires forall i :: 0 <= i < |calls| ==>
      |calls[i].input| == WARPS && (calls[i].k == BlockSum() || calls[i].k == BlockMax())
    requires Started(s0) && IsRun(CallsCode(calls), s0, run, acts) && Finished(CallsCode(calls), run[|acts|])
    ensures |run[|acts|].warps[w].regs.log| == |calls|
    ensures run[|acts|].warps[w].regs.log[c][l]
         == Fold(calls[c].k.op, Slice(i => Flat(calls[c].input, i), 0, BLOCK_SIZE))
  {
    AddMaxReorderable();
    EveryThreadAgrees(calls, s0, run, acts);
    ResultIsTotal(calls, c, l);
  }

  lemma {:induction false} ResultIsTotal(calls: seq<Call>, c: nat, l: nat)
    requires ValidCalls(calls) && c < |calls| && l < LANES
    requires calls[c].k == BlockSum() || calls[c].k == BlockMax()
    ensures Results(calls, |calls|)[c][l] == Fold(calls[c].k.op, Slice(i => Flat(calls[c].input, i), 0, BLOCK_SIZE))
  {
    BlockTotal(calls[c].k, calls[c].input);
    assert Results(calls, |calls|)[c] == Const(BlockResult(calls[c].k, calls[c].input));
  }

  /** And no schedule of the calls races, deadlocks or runs forever. */
  lemma {:induction false} CallsAreSafe(calls: seq<Call>, s0: Block, run: seq<Block>, acts: seq<Act>)
    requires ValidCalls(calls) && Started(s0) && IsRun(CallsCode(calls), s0, run, acts)
    ensures Safe(CallsCode(calls), ScratchCells(), run, acts)
  {
    CallsDisciplined(calls);
    DisciplinedIsSafe(CallsCode(calls), s0, run, acts);
  }

  // ---- without the first barrier

  /** Two calls, the second without its first barrier: a warp may publish its part of b while
      another still collects the parts of a. */
  function Unguarded(a: Call, b: Call, w: int): Segment
    requires |b.input| == WARPS && 0 <= w < WARPS
  {
    Answer(a) + Ask(b, w) + Publish(w)
  }

  function RacyCode(a: Call, b: Call): (code: seq<Code>)
    requires |a.input| == |b.input| == WARPS
    ensures |code| == WARPS && forall w :: 0 <= w < WARPS ==> |code[w]| == 4
  {
    seq(WARPS, w requires 0 <= w < WARPS => [Ask(a, w), Publish(w), Unguarded(a, b, w), Answer(b)])
  }

  /** The last instruction of an unguarded segment stores to the warp's own cell, and the second
      loads the cells of all warps. */
  lemma {:induction false} UnguardedEnds(a: Call, b: Call, u: nat, w: nat)
    requires |b.input| == WARPS && u < WARPS && w < WARPS
    ensures |Unguarded(a, b, u)| >= 2 && |Unguarded(a, b, w)| >= 2
    ensures Conflict(Unguarded(a, b, u)[|Unguarded(a, b, u)| - 1], Unguarded(a, b, w)[1])
  {
    var x, y := Unguarded(a, b, u)[|Unguarded(a, b, u)| - 1], Unguarded(a, b, w)[1];
    SecondLoads(a, b, w);
    assert x == Publish(u)[0];
    hide Ask, Answer, Unguarded;
    assert LaneZero(Scratch(u))[0] == Some(Scratch(u)) && Scratch(u) in Writes(x);
    assert FirstLanes()[u] == Some(Scratch(u)) && Scratch(u) in Reads(y);
  }

  lemma {:induction false} SecondLoads(a: Call, b: Call, w: nat)
    requires |b.input| == WARPS && w < WARPS
    ensures |Unguarded(a, b, w)| >= 2 && Unguarded(a, b, w)[1] == LoadV(FirstLanes())
  {
    hide Ask, Publish, WarpReduce;
    assert Collect(a.k)[1] == LoadV(FirstLanes());
    assert Answer(a)[1] == Collect(a.k)[1];
  }

  /** The first barrier of a reduction is needed: without it, for any two calls and any two
      warps, some schedule has the fast warp's store race with the slow warp's load. */
  lemma {:induction false} FirstBarrierNeeded(a: Call, b: Call, u: nat, w: nat, s0: Block)
    returns (run: seq<Block>, acts: seq<Act>, i: nat, j: nat)
    requires |a.input| == |b.input| == WARPS && u < WARPS && w < WARPS && u != w && Initial(RacyCode(a, b), s0)
    ensures IsRun(RacyCode(a, b), s0, run, acts) && i < j < |acts| && Race(RacyCode(a, b), run, acts, i, j)
  {
    var code := RacyCode(a, b);
    var p, q := Unguarded(a, b, u), Unguarded(a, b, w);
    assert code[u][2] == p && code[w][2] == q;
    UnguardedEnds(a, b, u, w);
    hide RacyCode, Unguarded, Conflict;
    run, acts := ReachEpoch(code, s0, 2);
    var r1, a1 := RunWarp(code, s0, run, acts, u, 2, |p|);
    i := |a1| - 1;
    assert a1[i] == Step(u) && r1[i].warps[u].epoch == 2 && r1[i].warps[u].pc == |p| - 1;
    run, acts := RunWarp(code, s0, r1, a1, w, 2, 2);
    j := |acts| - 1;
    assert acts[j] == Step(w) && run[j].warps[w].epoch == 2 && run[j].warps[w].pc == 1;
    assert run[i] == r1[i] && acts[i] == a1[i] by { ExtendsAt(r1, a1, run, acts, i); }
    forall k | i <= k < j ensures acts[k] != Sync {
      if k < |a1| { ExtendsAt(r1, a1, run, acts, k); }
    }
    RaceOf(code, run, acts, i, j, u, w);
  }

  lemma {:induction false} ExtendsAt(run: seq<Block>, acts: seq<Act>, run': seq<Block>, acts': seq<Act>, k: nat)
    requires |run| == |acts| + 1 && Extends(run, acts, run', acts') && k < |acts|
    ensures k < |acts'| && k < |run'| && run'[k] == run[k] && acts'[k] == acts[k]
  {
    assert run'[k] == run'[..|run|][k] && acts'[k] == acts'[..|acts|][k];
  }

  /** Two steps of different warps without a barrier in between, whose instructions conflict. */
  lemma {:induction false} RaceOf(code: seq<Code>, run: seq<Block>, acts: seq<Act>, i: nat, j: nat, u: nat, w: nat)
    requires |run| == |acts| + 1 && i < j < |acts| && forall k :: 0 <= k < |run| ==> |run[k].warps| == |code|
    requires acts[i] == Step(u) && acts[j] == Step(w) && u != w && forall k :: i <= k < j ==> acts[k] != Sync
    requires Enabled(code, run[i], Step(u)) && Enabled(code, run[j], Step(w))
    requires Conflict(Fetch(code, run[i], u), Fetch(code, run[j], w))
    ensures Race(code, run, acts, i, j)
  {
    hide Conflict, Enabled, Fetch;
    assert Sync !in acts[i..j];
  }
}
