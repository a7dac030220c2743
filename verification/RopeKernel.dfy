/** RoPE of kernels/rows.go: one block per row, whose threads stride over the pairs of all
    heads as one flat list and rotate them in place. */
module RopeKernel {
  import opened Wrappers
  import opened BlockMachine
  import opened Schedules
  import opened RowCode
  import opened RopeSpec
  import opened Arith

  /** A launch for one row: its position and number of heads. */
  datatype Row = Row(r: Rope, p: int, nHeads: nat) {
    function Pairs(): nat { nHeads * Half(r) }

    function Width(): nat { nHeads * r.headDim }
  }

  /** The first element of pair i of the flat list: pair i % half of head i / half. */
  function PairStart(r: Rope, i: int): int {
    if Half(r) == 0 then 0 else i / Half(r) * r.headDim + 2 * (i % Half(r))
  }

  function PairAngle(k: Row, i: int): real { if Half(k.r) == 0 then 0.0 else Theta(k.r, k.p, i % Half(k.r)) }

  function PairCell(r: Rope, i: int, b: int): Cell { X(PairStart(r, i) + b) }

  function PairLane(k: Row, i: int, b: int): Option<Cell> { if i < k.Pairs() then Some(PairCell(k.r, i, b)) else None }

  /** Element b of the pairs of the warp whose first lane is at pair t. */
  function PairLanes(k: Row, t: int, b: int): (at: Mask)
    ensures forall l :: 0 <= l < 32 ==> at[l] == PairLane(k, t + l, b)
  {
    PairLaneCells(k, t, b)
  }

  function PairLaneCells(k: Row, t: int, b: int): (at: seq<Option<Cell>>)
    ensures |at| == 32 && forall l :: 0 <= l < 32 ==> at[l] == PairLane(k, t + l, b)
  {
    seq(32, l requires 0 <= l < 32 => PairLane(k, t + l, b))
  }

  function TurnPair(k: Row, i: int, b: int, x0: real, x1: real): real {
    var theta := PairAngle(k, i);
    if b == 0 then First(k.r.cos(theta), k.r.sin(theta), x0, x1) else Second(k.r.cos(theta), k.r.sin(theta), x0, x1)
  }

  function TurnVec(k: Row, t: int, b: int, x0: Vec, x1: Vec): Vec {
    seq(32, l requires 0 <= l < 32 => TurnPair(k, t + l, b, x0[l], x1[l]))
  }

  function LoadPair(k: Row, t: int, b: int): Instr {
    Load(PairLanes(k, t, b), (r: Regs, x: Vec) => if b == 0 then r.(v := x) else r.(acc := x))
  }

  function StorePair(k: Row, t: int, b: int): Instr {
    Store(PairLanes(k, t, b), (r: Regs) => TurnVec(k, t, b, r.v, r.acc))
  }

  /** One round: both elements are read before either is written. */
  function Body(k: Row): int -> Segment {
    t => [LoadPair(k, t, 0)] + [LoadPair(k, t, 1)] + [StorePair(k, t, 0)] + [StorePair(k, t, 1)]
  }

  function RopeBlock(k: Row): (code: seq<Code>)
    ensures |code| == WARPS && forall w :: 0 <= w < WARPS ==> |code[w]| == 1
  {
    seq(WARPS, w requires 0 <= w < WARPS => [Loop(Body(k), 32 * w, k.Pairs())])
  }

  ghost predicate Launched(k: Row, s0: Block) {
    s0.mem.Keys == RowSet(Input, k.Width()) && Initial(RopeBlock(k), s0)
  }

  // ---- pairs do not overlap

  /** The pair an element of the row belongs to. */
  function PairOf(r: Rope, c: int): int
    requires r.headDim > 0
  {
    c / r.headDim * Half(r) + c % r.headDim / 2
  }

  lemma {:induction false} PairOfStart(k: Row, i: nat, b: int)
    requires i < k.Pairs() && 0 <= b <= 1
    ensures Half(k.r) > 0 && PairOf(k.r, PairStart(k.r, i) + b) == i
    ensures 0 <= PairStart(k.r, i) + b < k.Width()
  {
    var half, n := Half(k.r), k.r.headDim;
    assert half > 0;
    var h, j := i / half, i % half;
    assert i == h * half + j;
    QuotientBelow(i, half, k.nHeads);
    DivModUnique(h, 2 * j + b, n, h * n + 2 * j + b);
    InTable(h, 2 * j + b, k.nHeads, n);
  }

  ghost function OwnPairs(k: Row, w: int): set<Cell> {
    set i, b | 0 <= i < k.Pairs() && 0 <= b <= 1 && Owner(w, i) :: PairCell(k.r, i, b)
  }

  lemma {:induction false} OwnPairsDisjoint(k: Row, u: int, w: int)
    requires u != w
    ensures OwnPairs(k, u) !! OwnPairs(k, w)
  {
    forall c | c in OwnPairs(k, u) ensures c !in OwnPairs(k, w) {
      var i, b :| 0 <= i < k.Pairs() && 0 <= b <= 1 && Owner(u, i) && c == PairCell(k.r, i, b);
      PairOfStart(k, i, b);
      forall j, d | 0 <= j < k.Pairs() && 0 <= d <= 1 && Owner(w, j)
        ensures c != PairCell(k.r, j, d)
      {
        PairOfStart(k, j, d);
      }
    }
  }

  lemma {:induction false} PairInRow(k: Row, i: nat, b: int)
    requires i < k.Pairs() && 0 <= b <= 1
    ensures PairCell(k.r, i, b) in RowSet(Input, k.Width())
  {
    PairOfStart(k, i, b);
    hide PairStart, PairOf, Half;
    assert CellAt(Input, PairStart(k.r, i) + b) in RowSet(Input, k.Width());
  }

  lemma {:induction false} OwnPairsInRow(k: Row, w: int)
    ensures OwnPairs(k, w) <= RowSet(Input, k.Width())
  {
    hide RowSet, PairCell, Owner;
    forall c | c in OwnPairs(k, w) ensures c in RowSet(Input, k.Width()) {
      var i, b :| 0 <= i < k.Pairs() && 0 <= b <= 1 && Owner(w, i) && c == PairCell(k.r, i, b);
      PairInRow(k, i, b);
    }
  }

  /** Distinct pairs, or distinct elements of one, are distinct cells. */
  lemma {:induction false} PairCellsDistinct(k: Row, i: nat, b: int, j: nat, d: int)
    requires i < k.Pairs() && j < k.Pairs() && 0 <= b <= 1 && 0 <= d <= 1 && (i != j || b != d)
    ensures PairCell(k.r, i, b) != PairCell(k.r, j, d)
  {
    PairOfStart(k, i, b);
    PairOfStart(k, j, d);
  }

  lemma {:induction false} LanesAreOwn(k: Row, w: int, t: nat, b: int)
    requires 0 <= w < WARPS && t % 256 == 32 * w && 0 <= b <= 1
    ensures Cells(PairLanes(k, t, b)) <= OwnPairs(k, w) && DistinctCells(PairLanes(k, t, b))
  {
    var at := PairLanes(k, t, b);
    forall c | c in Cells(at) ensures c in OwnPairs(k, w) {
      var l :| 0 <= l < 32 && at[l].Some? && at[l].value == c;
      assert at[l] == PairLane(k, t + l, b);
      FirstLane(w, t, t + l);
    }
    forall l, m | 0 <= l < m < 32 && at[l].Some? ensures at[l] != at[m] {
      assert at[l] == PairLane(k, t + l, b) && at[m] == PairLane(k, t + m, b);
      if t + m < k.Pairs() { PairCellsDistinct(k, t + l, b, t + m, b); }
    }
  }

  // ---- safety

  lemma {:induction false} OneWithin(i: Instr, k: Row, w: int, t: nat, b: int)
    requires 0 <= w < WARPS && t % 256 == 32 * w && 0 <= b <= 1
    requires i == LoadPair(k, t, b) || i == StorePair(k, t, b)
    ensures Within([i], OwnPairs(k, w), OwnPairs(k, w))
  {
    LanesAreOwn(k, w, t, b);
    SegOne(i);
    hide OwnPairs, PairLanes, DistinctCells, Cells;
  }

  lemma {:induction false} BodyWithin(k: Row, w: int, t: nat)
    requires 0 <= w < WARPS && t % 256 == 32 * w
    ensures Within(Body(k)(t), OwnPairs(k, w), OwnPairs(k, w))
  {
    var own, a, b, c, d := OwnPairs(k, w), [LoadPair(k, t, 0)], [LoadPair(k, t, 1)], [StorePair(k, t, 0)],
      [StorePair(k, t, 1)];
    hide Within, LoadPair, StorePair, OwnPairs;
    OneWithin(a[0], k, w, t, 0);
    OneWithin(b[0], k, w, t, 1);
    OneWithin(c[0], k, w, t, 0);
    OneWithin(d[0], k, w, t, 1);
    WithinConcat(a, b, own, own);
    WithinConcat(a + b, c, own, own);
    WithinConcat(a + b + c, d, own, own);
  }

  lemma {:induction false} WarpWithin(k: Row, w: nat)
    requires w < WARPS
    ensures Within(RopeBlock(k)[w][0], OwnPairs(k, w), OwnPairs(k, w))
  {
    hide Within, Body, OwnPairs;
    forall u | u >= 0 && u % 256 == 32 * w
      ensures Within(Body(k)(u), OwnPairs(k, w), OwnPairs(k, w))
    {
      BodyWithin(k, w, u);
    }
    LoopWithin(Body(k), 32 * w, k.Pairs(), w, OwnPairs(k, w), OwnPairs(k, w));
  }

  lemma {:induction false} RopeDisciplined(k: Row)
    ensures Disciplined(RopeBlock(k), RowSet(Input, k.Width()))
  {
    var code := RopeBlock(k);
    var own := (w, e) => OwnPairs(k, w);
    hide OwnPairs, RowSet, Within, Disciplined, RopeBlock;
    forall w, e | 0 <= w < WARPS && 0 <= e < |code[0]| ensures Within(code[w][e], own(w, e), own(w, e)) {
      WarpWithin(k, w);
    }
    forall w, e | 0 <= w < WARPS && 0 <= e < |code[0]|
      ensures own(w, e) <= RowSet(Input, k.Width())
    {
      OwnPairsInRow(k, w);
    }
    forall u, w, e | 0 <= u < WARPS && 0 <= w < WARPS && u != w && 0 <= e < |code[0]|
      ensures own(u, e) !! own(w, e) + own(w, e)
    {
      OwnPairsDisjoint(k, u, w);
    }
    Discipline(code, RowSet(Input, k.Width()), own, own);
  }

  /** No schedule races, deadlocks or runs forever. */
  lemma {:induction false} RopeIsSafe(k: Row, s0: Block, run: seq<Block>, acts: seq<Act>)
    requires Launched(k, s0) && IsRun(RopeBlock(k), s0, run, acts)
    ensures Safe(RopeBlock(k), RowSet(Input, k.Width()), run, acts)
  {
    RopeDisciplined(k);
    DisciplinedIsSafe(RopeBlock(k), s0, run, acts);
  }

  // ---- result

  predicate HasPairs(k: Row, mem: Mem) {
    forall i, b :: 0 <= i < k.Pairs() && 0 <= b <= 1 ==> PairCell(k.r, i, b) in mem
  }

  /** The memory after a round for pairs [from, to) of warp w. */
  ghost predicate Turned(k: Row, w: int, from: int, to: int, mem: Mem, mem': Mem) {
    && mem'.Keys == mem.Keys && HasPairs(k, mem)
    && (forall i, b :: 0 <= i < k.Pairs() && 0 <= b <= 1 ==>
         mem'[PairCell(k.r, i, b)] == PairValue(k, mem, i, b, from <= i < to && Owner(w, i)))
  }

  function PairValue(k: Row, mem: Mem, i: int, b: int, turned: bool): real
    requires HasPairs(k, mem) && 0 <= i < k.Pairs() && 0 <= b <= 1
  {
    if turned then TurnPair(k, i, b, mem[PairCell(k.r, i, 0)], mem[PairCell(k.r, i, 1)]) else mem[PairCell(k.r, i, b)]
  }

  /** What a store to element b leaves in element d of pair i. */
  lemma {:induction false} StoredPair(k: Row, w: int, t: nat, b: int, r: Regs, mem: Mem, i: nat, d: int)
    requires 0 <= w < WARPS && t % 256 == 32 * w && 0 <= b <= 1 && 0 <= d <= 1 && i < k.Pairs() && HasPairs(k, mem)
    ensures var mem' := Exec(StorePair(k, t, b), r, mem).1;
      && mem'.Keys == mem.Keys && HasPairs(k, mem')
      && (d == b && t <= i < t + 32 ==> mem'[PairCell(k.r, i, d)] == TurnPair(k, i, b, r.v[i - t], r.acc[i - t]))
      && (!(d == b && t <= i < t + 32) ==> mem'[PairCell(k.r, i, d)] == mem[PairCell(k.r, i, d)])
  {
    var s := StorePair(k, t, b);
    ExecFrame(s, r, mem);
    LanesAreOwn(k, w, t, b);
    if d == b && t <= i < t + 32 {
      assert s.at[i - t] == Some(PairCell(k.r, i, d));
      ScatterAt(s.at, s.get(r), mem, 32, i - t);
    } else {
      NotStored(k, t, b, i, d);
    }
  }

  lemma {:induction false} NotStored(k: Row, t: nat, b: int, i: nat, d: int)
    requires 0 <= b <= 1 && 0 <= d <= 1 && i < k.Pairs() && !(d == b && t <= i < t + 32)
    ensures PairCell(k.r, i, d) !in Cells(PairLanes(k, t, b))
  {
    forall l | 0 <= l < 32 ensures PairLanes(k, t, b)[l] != Some(PairCell(k.r, i, d)) {
      assert PairLanes(k, t, b)[l] == PairLane(k, t + l, b);
      if t + l < k.Pairs() { PairCellsDistinct(k, i, d, t + l, b); }
    }
  }

  /** The registers after the two loads. */
  function Loaded(k: Row, t: int, r: Regs, mem: Mem): Regs {
    r.(v := Gather(PairLanes(k, t, 0), mem), acc := Gather(PairLanes(k, t, 1), mem))
  }

  lemma {:induction false} RunBody(k: Row, t: int, r: Regs, mem: Mem)
    ensures var r' := Loaded(k, t, r, mem);
      Run(Body(k)(t), r, mem).1 == Exec(StorePair(k, t, 1), r', Exec(StorePair(k, t, 0), r', mem).1).1
  {
    var a, b, c, d := [LoadPair(k, t, 0)], [LoadPair(k, t, 1)], [StorePair(k, t, 0)], [StorePair(k, t, 1)];
    RunOne(a[0], r, mem);
    RunConcat(a, b, r, mem);
    RunOne(b[0], Run(a, r, mem).0, mem);
    var r' := Loaded(k, t, r, mem);
    assert Run(a + b, r, mem) == (r', mem);
    RunConcat(a + b, c, r, mem);
    RunOne(c[0], r', mem);
    RunConcat(a + b + c, d, r, mem);
    RunOne(d[0], r', Exec(c[0], r', mem).1);
  }

  lemma {:induction false} LoadedLane(k: Row, t: nat, r: Regs, mem: Mem, i: nat)
    requires HasPairs(k, mem) && i < k.Pairs() && t <= i < t + 32
    ensures Loaded(k, t, r, mem).v[i - t] == mem[PairCell(k.r, i, 0)]
    ensures Loaded(k, t, r, mem).acc[i - t] == mem[PairCell(k.r, i, 1)]
  {
    assert PairLanes(k, t, 0)[i - t] == PairLane(k, i, 0) && PairLanes(k, t, 1)[i - t] == PairLane(k, i, 1);
    assert PairCell(k.r, i, 0) in mem && PairCell(k.r, i, 1) in mem;
  }

  lemma {:induction false} BodyPair(k: Row, w: int, t: nat, r: Regs, mem: Mem, i: nat, b: int)
    requires 0 <= w < WARPS && t % 256 == 32 * w && HasPairs(k, mem) && i < k.Pairs() && 0 <= b <= 1
    ensures Run(Body(k)(t), r, mem).1.Keys == mem.Keys && PairCell(k.r, i, b) in mem
    ensures Run(Body(k)(t), r, mem).1[PairCell(k.r, i, b)] == PairValue(k, mem, i, b, t <= i < t + 256 && Owner(w, i))
  {
    RunBody(k, t, r, mem);
    hide Body, Run, StorePair, TurnPair, Exec, Loaded, PairStart, PairCell;
    var r' := Loaded(k, t, r, mem);
    var m1 := Exec(StorePair(k, t, 0), r', mem).1;
    StoredPair(k, w, t, 0, r', mem, i, b);
    StoredPair(k, w, t, 1, r', m1, i, b);
    if t <= i < t + 256 { FirstLane(w, t, i); }
    if t <= i < t + 32 { LoadedLane(k, t, r, mem, i); }
  }

  lemma {:induction false} BodyTurns(k: Row, w: int, t: nat, r: Regs, mem: Mem)
    requires 0 <= w < WARPS && t % 256 == 32 * w && HasPairs(k, mem)
    ensures Turned(k, w, t, t + 256, mem, Run(Body(k)(t), r, mem).1)
  {
    hide Body, Run, TurnPair, PairStart, PairValue, PairCell;
    RunKeepsDomain(Body(k)(t), r, mem);
    forall i, b | 0 <= i < k.Pairs() && 0 <= b <= 1
      ensures Run(Body(k)(t), r, mem).1[PairCell(k.r, i, b)] == PairValue(k, mem, i, b, t <= i < t + 256 && Owner(w, i))
    {
      BodyPair(k, w, t, r, mem, i, b);
    }
  }

  lemma {:induction false} TurnedThen(k: Row, w: int, a: int, b: int, c: int, m0: Mem, m1: Mem, m2: Mem)
    requires a <= b <= c && Turned(k, w, a, b, m0, m1) && Turned(k, w, b, c, m1, m2)
    ensures Turned(k, w, a, c, m0, m2)
  {
    hide TurnPair, PairStart, PairCell;
  }

  lemma {:induction false} NoneTurned(k: Row, w: int, t: int, mem: Mem)
    requires HasPairs(k, mem)
    ensures Turned(k, w, t, t, mem, mem)
  {}

  /** The loop turns every pair of its warp from t on, once. */
  lemma {:induction false} RunLoop(k: Row, w: int, t: nat, r: Regs, mem: Mem)
    requires 0 <= w < WARPS && t % 256 == 32 * w && HasPairs(k, mem)
    ensures Turned(k, w, t, if t < k.Pairs() then k.Pairs() else t, mem, Run(Loop(Body(k), t, k.Pairs()), r, mem).1)
    decreases k.Pairs() - t
  {
    var n := k.Pairs();
    if t >= n {
      assert Run([], r, mem) == (r, mem);
      NoneTurned(k, w, t, mem);
    } else {
      LoopStep(k, t, r, mem);
      var (r1, m1) := Run(Body(k)(t), r, mem);
      hide Turned, Run, Body, Loop, HasPairs;
      NextFirst(w, t);
      BodyTurns(k, w, t, r, mem);
      TurnedHas(k, w, t, t + 256, mem, m1);
      RunLoop(k, w, t + 256, r1, m1);
      var m2 := Run(Loop(Body(k), t + 256, n), r1, m1).1;
      TurnedThen(k, w, t, t + 256, if t + 256 < n then n else t + 256, mem, m1, m2);
      TurnedClip(k, w, t, if t + 256 < n then n else t + 256, mem, m2);
    }
  }

  lemma {:induction false} LoopStep(k: Row, t: nat, r: Regs, mem: Mem)
    requires t < k.Pairs()
    ensures var x := Run(Body(k)(t), r, mem);
      Run(Loop(Body(k), t, k.Pairs()), r, mem) == Run(Loop(Body(k), t + 256, k.Pairs()), x.0, x.1)
  {
    RunConcat(Body(k)(t), Loop(Body(k), t + 256, k.Pairs()), r, mem);
  }

  lemma {:induction false} TurnedHas(k: Row, w: int, a: int, b: int, mem: Mem, mem': Mem)
    requires Turned(k, w, a, b, mem, mem')
    ensures HasPairs(k, mem')
  {}

  lemma {:induction false} TurnedClip(k: Row, w: int, a: int, b: int, mem: Mem, mem': Mem)
    requires Turned(k, w, a, b, mem, mem') && b >= k.Pairs()
    ensures Turned(k, w, a, k.Pairs(), mem, mem')
  {}

  lemma {:induction false} RowHasPairs(k: Row, mem: Mem)
    requires mem.Keys == RowSet(Input, k.Width())
    ensures HasPairs(k, mem)
  {
    forall i, b | 0 <= i < k.Pairs() && 0 <= b <= 1 ensures PairCell(k.r, i, b) in mem { PairInRow(k, i, b); }
  }

  /** Element c of the row lies in its pair, or is the last of an odd head. */
  lemma {:induction false} ElementOfPair(k: Row, c: nat)
    requires c < k.Width()
    ensures k.r.headDim > 0
    ensures var d, i := c % k.r.headDim, PairOf(k.r, c);
      d / 2 < Half(k.r) ==> 0 <= i < k.Pairs() && PairStart(k.r, i) + d % 2 == c && i % Half(k.r) == d / 2
  {
    WidthPositive(k, c);
    var h, d := c / k.r.headDim, c % k.r.headDim;
    if d / 2 < Half(k.r) {
      SplitElement(c, k.r.headDim, Half(k.r), k.nHeads);
      StartOfPair(k.r, h, d);
    }
  }

  lemma {:induction false} WidthPositive(k: Row, c: nat)
    requires c < k.Width()
    ensures k.r.headDim > 0
  {}

  /** Element c of a table of n columns is element d = c % n of row h = c / n. */
  lemma {:induction false} SplitElement(c: nat, n: nat, half: nat, rows: nat)
    requires n > 0 && c < rows * n && c % n / 2 < half
    ensures var h, d := c / n, c % n;
      var i := h * half + d / 2;
      c == h * n + d && 0 <= i < rows * half && i / half == h && i % half == d / 2
  {
    var h, d := c / n, c % n;
    QuotientBelow(c, n, rows);
    DivModUnique(h, d / 2, half, h * half + d / 2);
    InTable(h, d / 2, rows, half);
  }

  lemma {:induction false} StartOfPair(r: Rope, h: nat, d: nat)
    requires d / 2 < Half(r) && (h * Half(r) + d / 2) / Half(r) == h && (h * Half(r) + d / 2) % Half(r) == d / 2
    ensures PairStart(r, h * Half(r) + d / 2) + d % 2 == h * r.headDim + d
  {}

  lemma {:induction false} EpochZero(code: seq<Code>, s0: Block)
    requires |s0.warps| == |code|
    ensures Epochs(code, 0, s0).mem == s0.mem && |Epochs(code, 0, s0).regs| == |code|
  {}

  lemma {:induction false} Launches(k: Row, s0: Block)
    requires Launched(k, s0)
    ensures |s0.warps| == |RopeBlock(k)| && HasPairs(k, s0.mem) && s0.mem.Keys == RowSet(Input, k.Width())
    ensures |RopeBlock(k)| == WARPS && |RopeBlock(k)[0]| == 1
  {
    RowHasPairs(k, s0.mem);
  }

  lemma {:induction false} OnlyOwnersWrite(k: Row, w: nat, c: Cell)
    requires w < WARPS && c !in OwnPairs(k, w)
    ensures c !in SegWrites(RopeBlock(k)[w][0])
  {
    WarpWithin(k, w);
    hide OwnPairs, RopeBlock;
  }

  lemma {:induction false} OwnPair(k: Row, i: nat, b: int)
    requires i < k.Pairs() && 0 <= b <= 1
    ensures PairCell(k.r, i, b) in OwnPairs(k, i % 256 / 32) && 0 <= i % 256 / 32 < WARPS
  {
    assert Owner(i % 256 / 32, i);
    hide PairCell, Owner;
  }

  /** What the block's one epoch leaves in a pair's cell. */
  lemma {:induction false} EpochPair(k: Row, s0: Block, i: nat, b: int)
    requires Launched(k, s0) && i < k.Pairs() && 0 <= b <= 1
    ensures |s0.warps| == |RopeBlock(k)| && HasPairs(k, s0.mem)
    ensures Epochs(RopeBlock(k), 1, s0).mem[PairCell(k.r, i, b)] == PairValue(k, s0.mem, i, b, true)
  {
    var code, w, c := RopeBlock(k), i % 256 / 32, PairCell(k.r, i, b);
    var seg := Loop(Body(k), 32 * w, k.Pairs());
    assert w < WARPS && code[w][0] == seg && Owner(w, i) && 32 * w <= i && 32 * w % 256 == 32 * w;
    hide *;
    Launches(k, s0);
    PairInRow(k, i, b);
    OwnPair(k, i, b);
    RopeDisciplined(k);
    forall u: nat | u < WARPS && u != w ensures c !in SegWrites(code[u][0]) {
      OwnPairsDisjoint(k, w, u);
      OnlyOwnersWrite(k, u, c);
    }
    EpochZero(code, s0);
    EpochOwner(code, 0, s0, w, c);
    var r := Epochs(code, 0, s0).regs[w];
    RunLoop(k, w, 32 * w, r, s0.mem);
    TurnedAt(k, w, 32 * w, s0.mem, Run(seg, r, s0.mem).1, i, b);
  }

  lemma {:induction false} TurnedAt(k: Row, w: int, from: nat, mem: Mem, mem': Mem, i: nat, b: int)
    requires Turned(k, w, from, if from < k.Pairs() then k.Pairs() else from, mem, mem')
    requires from <= i < k.Pairs() && Owner(w, i) && 0 <= b <= 1 && PairCell(k.r, i, b) in mem'
    ensures HasPairs(k, mem) && mem'[PairCell(k.r, i, b)] == PairValue(k, mem, i, b, true)
  {}

  /** An element in no pair is kept. */
  lemma {:induction false} EpochRest(k: Row, s0: Block, c: nat)
    requires Launched(k, s0) && c < k.Width() && k.r.headDim > 0 && c % k.r.headDim / 2 >= Half(k.r)
    ensures |s0.warps| == |RopeBlock(k)| && X(c) in s0.mem
    ensures Epochs(RopeBlock(k), 1, s0).mem[X(c)] == s0.mem[X(c)]
  {
    var code := RopeBlock(k);
    Launches(k, s0);
    assert X(c) == CellAt(Input, c);
    hide RopeBlock, Epochs, Launched, OwnPairs;
    RopeDisciplined(k);
    hide Disciplined;
    forall u: nat | u < WARPS ensures X(c) !in SegWrites(code[u][0]) {
      RestUnowned(k, c, u);
      OnlyOwnersWrite(k, u, X(c));
    }
    EpochZero(code, s0);
    EpochKeeps(code, 0, s0, X(c));
  }

  lemma {:induction false} RestUnowned(k: Row, c: nat, w: int)
    requires c < k.Width() && k.r.headDim > 0 && c % k.r.headDim / 2 >= Half(k.r)
    ensures X(c) !in OwnPairs(k, w)
  {
    forall i, b | 0 <= i < k.Pairs() && 0 <= b <= 1 ensures X(c) != PairCell(k.r, i, b) { PairRest(k, i, b); }
  }

  lemma {:induction false} PairRest(k: Row, i: nat, b: int)
    requires i < k.Pairs() && 0 <= b <= 1
    ensures k.r.headDim > 0 && (PairStart(k.r, i) + b) % k.r.headDim / 2 < Half(k.r)
  {
    var half, n := Half(k.r), k.r.headDim;
    var h, j := i / half, i % half;
    DivModUnique(h, 2 * j + b, n, h * n + 2 * j + b);
  }

  /** A turned pair's element is the rotated row's. */
  lemma {:induction false} PairMeaning(k: Row, mem: Mem, c: nat)
    requires HasPairs(k, mem) && c < k.Width() && k.r.headDim > 0 && c % k.r.headDim / 2 < Half(k.r)
    ensures var i, b := PairOf(k.r, c), c % k.r.headDim % 2;
      && 0 <= i < k.Pairs() && X(c) == PairCell(k.r, i, b)
      && PairValue(k, mem, i, b, true) == Rotated(k.r, k.p, RowOf(Input, mem))(c)
  {
    ElementOfPair(k, c);
    var d, i := c % k.r.headDim, PairOf(k.r, c);
    assert PairCell(k.r, i, 0) in mem && PairCell(k.r, i, 1) in mem;
    hide PairStart, PairOf, Theta, First, Second, HasPairs;
    var x := RowOf(Input, mem);
    assert x(PairStart(k.r, i)) == mem[PairCell(k.r, i, 0)] && x(PairStart(k.r, i) + 1) == mem[PairCell(k.r, i, 1)];
    assert Rotated(k.r, k.p, x)(c) == RotatedAt(k.r, k.p, x, c, d);
  }

  /** In every schedule that runs to the end, the row has been rotated in place: exactly what
      the nested loops of package cpu leave. */
  lemma {:induction false} EveryScheduleRotates(k: Row, s0: Block, run: seq<Block>, acts: seq<Act>, c: nat)
    requires Launched(k, s0) && IsRun(RopeBlock(k), s0, run, acts) && Finished(RopeBlock(k), run[|acts|])
      && c < k.Width()
    ensures X(c) in run[|acts|].mem && run[|acts|].mem[X(c)] == Rotated(k.r, k.p, RowOf(Input, s0.mem))(c)
  {
    var code := RopeBlock(k);
    assert Initial(code, s0);
    assert X(c) == CellAt(Input, c);
    assert c % k.r.headDim / 2 >= Half(k.r) ==>
      Rotated(k.r, k.p, RowOf(Input, s0.mem))(c) == RowOf(Input, s0.mem)(c) by {
      ElementOfPair(k, c);
    }
    Launches(k, s0);
    ElementOfPair(k, c);
    hide RopeBlock, Epochs, Launched, IsRun, Finished, Rotated, PairValue, Initial, PairOf, PairStart, PairCell, Half;
    RopeDisciplined(k);
    hide Disciplined;
    OneFinalState(code, s0, run, acts);
    if c % k.r.headDim / 2 < Half(k.r) {
      PairMeaning(k, s0.mem, c);
      EpochPair(k, s0, PairOf(k.r, c), c % k.r.headDim % 2);
    } else {
      EpochRest(k, s0, c);
    }
  }
}
