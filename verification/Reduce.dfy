/** The reductions of kernels/reduce.go: the shuffle butterfly inside a warp and
    the exchange through shared memory between the warps of a block. */
module Reduce {
  import opened Wrappers
  import opened Arith
  import opened BlockMachine
  import opened Folds

  /** The lane that differs from lane l in the bit d. */
  function Partner(l: int, d: int): int
    requires d > 0
  {
    if (l / d) % 2 == 0 then l + d else l - d
  }

  predicate Distance(d: int) { d == 16 || d == 8 || d == 4 || d == 2 || d == 1 }

  lemma {:induction false} PartnerInWarp(l: int, d: int)
    requires 0 <= l < 32 && Distance(d)
    ensures 0 <= Partner(l, d) < 32 && Partner(Partner(l, d), d) == l
  {
    PartnerHalves(l, d);
    PartnerHalves(Partner(l, d), d);
    hide Partner, Distance;
  }

  function Const(x: real): Vec { seq(32, _ => x) }

  /** One step of warpSum / warpMax: every lane combines with its partner. */
  function Shuffle(op: Op, v: Vec, d: int): Vec
    requires Distance(d)
  {
    seq(32, l requires 0 <= l < 32 => PartnerInWarp(l, d); op(v[l], v[Partner(l, d)]))
  }

  /** The shuffle loop "for d := d; d > 0; d >>= 1". */
  function ShuffleFrom(op: Op, v: Vec, d: int): Vec
    requires d == 0 || Distance(d)
    decreases d
  {
    if d == 0 then v else ShuffleFrom(op, Shuffle(op, v, d), d / 2)
  }

  /** warpSum and warpMax: what the lanes hold after the whole loop. */
  function Butterfly(op: Op, v: Vec): Vec { ShuffleFrom(op, v, 16) }

  ghost predicate Periodic(v: Vec, d: int)
    requires d > 0
  {
    forall l :: 0 <= l < 32 ==> v[l] == v[l % d]
  }

  ghost predicate Halved(l: int, d: int)
    requires d > 0
  {
    var j := l % d;
    (l % (2 * d) == j && Partner(l, d) == l + d && (l + d) % (2 * d) == j + d)
    || (l % (2 * d) == j + d && Partner(l, d) == l - d && (l - d) % (2 * d) == j)
  }

  lemma {:induction false} PartnerHalves(l: int, d: int)
    requires 0 <= l < 32 && Distance(d)
    ensures 0 <= l % d < d && (l % d) % d == l % d && Halved(l, d) && 0 <= Partner(l, d) < 32
  {
    if d == 16 { Halved16(l); } else if d == 8 { Halved8(l); } else if d == 4 { Halved4(l); }
    else if d == 2 { Halved2(l); } else { Halved1(l); }
  }

  lemma {:induction false} Halved16(l: int)
    requires 0 <= l < 32
    ensures (l % 16) % 16 == l % 16 && Halved(l, 16) && 0 <= Partner(l, 16) < 32
  {
    if l % 32 < 16 {
      assert l / 16 == 2 * (l / 32) && l % 16 == l % 32;
    } else {
      assert l / 16 == 2 * (l / 32) + 1 && l % 16 == l % 32 - 16;
    }
  }

  lemma {:induction false} Halved8(l: int)
    requires 0 <= l < 32
    ensures (l % 8) % 8 == l % 8 && Halved(l, 8) && 0 <= Partner(l, 8) < 32
  {
    if l % 16 < 8 {
      assert l / 8 == 2 * (l / 16) && l % 8 == l % 16;
    } else {
      assert l / 8 == 2 * (l / 16) + 1 && l % 8 == l % 16 - 8;
    }
  }

  lemma {:induction false} Halved4(l: int)
    requires 0 <= l < 32
    ensures (l % 4) % 4 == l % 4 && Halved(l, 4) && 0 <= Partner(l, 4) < 32
  {
    if l % 8 < 4 {
      assert l / 4 == 2 * (l / 8) && l % 4 == l % 8;
    } else {
      assert l / 4 == 2 * (l / 8) + 1 && l % 4 == l % 8 - 4;
    }
  }

  lemma {:induction false} Halved2(l: int)
    requires 0 <= l < 32
    ensures (l % 2) % 2 == l % 2 && Halved(l, 2) && 0 <= Partner(l, 2) < 32
  {
    if l % 4 < 2 {
      assert l / 2 == 2 * (l / 4) && l % 2 == l % 4;
    } else {
      assert l / 2 == 2 * (l / 4) + 1 && l % 2 == l % 4 - 2;
    }
  }

  lemma {:induction false} Halved1(l: int)
    requires 0 <= l < 32
    ensures (l % 1) % 1 == l % 1 && Halved(l, 1) && 0 <= Partner(l, 1) < 32
  {
    if l % 2 < 1 {
      assert l / 1 == 2 * (l / 2) && l % 1 == l % 2;
    } else {
      assert l / 1 == 2 * (l / 2) + 1 && l % 1 == l % 2 - 1;
    }
  }

  lemma {:induction false} ShuffleLane(op: Op, v: Vec, d: int, l: int)
    requires Commutative(op) && Distance(d) && Periodic(v, 2 * d) && 0 <= l < 32
    ensures 0 <= l % d < d && Shuffle(op, v, d)[l] == op(v[l % d], v[l % d + d])
  {
    PartnerInWarp(l, d);
    PartnerHalves(l, d);
    Comm(op, v[l % d], v[l % d + d]);
    var p := Partner(l, d);
    assert v[l] == v[l % (2 * d)] && v[p] == v[p % (2 * d)];
  }

  lemma {:induction false} ShuffleHalves(op: Op, v: Vec, d: int)
    requires Commutative(op) && Distance(d) && Periodic(v, 2 * d)
    ensures Periodic(Shuffle(op, v, d), d)
    ensures forall j :: 0 <= j < d ==> Shuffle(op, v, d)[j] == op(v[j], v[j + d])
  {
    SmallDistance(d);
    hide *;
    forall l | 0 <= l < 32 ensures 0 <= l % d < 32 && Shuffle(op, v, d)[l] == Shuffle(op, v, d)[l % d] {
      ShuffleSame(op, v, d, l);
    }
    IsPeriodic(Shuffle(op, v, d), d);
    forall j | 0 <= j < d ensures Shuffle(op, v, d)[j] == op(v[j], v[j + d]) { ShuffleFirst(op, v, d, j); }
  }

  lemma {:induction false} ShuffleSame(op: Op, v: Vec, d: int, l: int)
    requires Commutative(op) && Distance(d) && Periodic(v, 2 * d) && 0 <= l < 32
    ensures 0 <= l % d < 32 && Shuffle(op, v, d)[l] == Shuffle(op, v, d)[l % d]
  {
    hide *;
    SmallDistance(d);
    PartnerHalves(l, d);
    ShuffleLane(op, v, d, l);
    ShuffleLane(op, v, d, l % d);
  }

  lemma {:induction false} ShuffleFirst(op: Op, v: Vec, d: int, j: int)
    requires Commutative(op) && Distance(d) && Periodic(v, 2 * d) && 0 <= j < d
    ensures d <= 16 && Shuffle(op, v, d)[j] == op(v[j], v[j + d])
  {
    hide *;
    SmallDistance(d);
    DivModUnique(0, j, d, j);
    ShuffleLane(op, v, d, j);
  }

  lemma {:induction false} SmallDistance(d: int)
    requires Distance(d)
    ensures 0 < d <= 16
  {}

  lemma {:induction false} IsPeriodic(v: Vec, d: int)
    requires d > 0 && forall l :: 0 <= l < 32 ==> 0 <= l % d < 32 && v[l] == v[l % d]
    ensures Periodic(v, d)
  {}

  lemma {:induction false} ShuffleFold(op: Op, v: Vec, d: int)
    requires Reorderable(op) && Distance(d) && Periodic(v, 2 * d)
    ensures Periodic(Shuffle(op, v, d), d)
    ensures Fold(op, Shuffle(op, v, d)[..d]) == Fold(op, v[..2 * d])
  {
    ShuffleHalves(op, v, d);
    FoldPairs(op, v[..d], v[d..2 * d], Shuffle(op, v, d)[..d]);
    FoldConcat(op, v[..d], v[d..2 * d]);
    assert v[..d] + v[d..2 * d] == v[..2 * d];
  }

  lemma {:induction false} ShuffleFromAgrees(op: Op, v: Vec, d: int)
    requires Commutative(op) && Distance(d) && Periodic(v, 2 * d)
    ensures ShuffleFrom(op, v, d) == Const(ShuffleFrom(op, v, d)[0])
    decreases d
  {
    ShuffleHalves(op, v, d);
    if d > 1 {
      ShuffleFromAgrees(op, Shuffle(op, v, d), d / 2);
    } else {
      var x := Shuffle(op, v, 1);
      assert ShuffleFrom(op, v, 1) == ShuffleFrom(op, x, 0) == x;
      forall l | 0 <= l < 32 ensures x[l] == x[0] { assert l % 1 == 0; }
    }
  }

  lemma {:induction false} ShuffleFromTotal(op: Op, v: Vec, d: int)
    requires Reorderable(op) && Distance(d) && Periodic(v, 2 * d)
    ensures ShuffleFrom(op, v, d)[0] == Fold(op, v[..2 * d])
    decreases d
  {
    ShuffleFold(op, v, d);
    if d > 1 {
      ShuffleFromTotal(op, Shuffle(op, v, d), d / 2);
    } else {
      var x := Shuffle(op, v, 1);
      assert ShuffleFrom(op, v, 1) == ShuffleFrom(op, x, 0) == x;
    }
  }

  lemma {:induction false} WholeWarp(v: Vec)
    ensures Periodic(v, 32) && v[..32] == v
  {}

  /** Commutativity alone makes every lane end with the identical value, so the lanes of a
      warp agree on a rounded sum as well. */
  lemma {:induction false} WarpAgrees(op: Op, v: Vec)
    requires Commutative(op)
    ensures Butterfly(op, v) == Const(Butterfly(op, v)[0])
  {
    WholeWarp(v);
    ShuffleFromAgrees(op, v, 16);
  }

  /** With associativity too that value is the reduction of the 32 lanes. */
  lemma {:induction false} WarpTotal(op: Op, v: Vec)
    requires Reorderable(op)
    ensures Butterfly(op, v) == Const(Fold(op, v))
  {
    WholeWarp(v);
    ShuffleFromAgrees(op, v, 16);
    ShuffleFromTotal(op, v, 16);
  }

  // ---- across warps

  /** blockSum fills the lanes past the last warp with 0, blockMax with warp 0's value. */
  datatype Reduction = Reduction(op: Op, zeroFill: bool)

  function BlockSum(): Reduction { Reduction(Add, true) }

  function BlockMax(): Reduction { Reduction(Max, false) }

  /** What lanes 0..31 hold after reading the eight partial results. */
  function Padded(k: Reduction, partials: seq<real>): Vec
    requires |partials| == WARPS
  {
    seq(32, l requires 0 <= l < 32 =>
      if l < WARPS then partials[l] else if k.zeroFill then 0.0 else partials[0])
  }

  function Partials(k: Reduction, input: seq<Vec>): (p: seq<real>)
    requires |input| == WARPS
    ensures |p| == WARPS
  {
    seq(WARPS, w requires 0 <= w < WARPS => Butterfly(k.op, input[w])[0])
  }

  /** The value every thread of the block gets. */
  function BlockResult(k: Reduction, input: seq<Vec>): real
    requires |input| == WARPS
  {
    Butterfly(k.op, Padded(k, Partials(k, input)))[0]
  }

  /** Filling the spare lanes does not change the result. */
  ghost predicate Absorbs(k: Reduction, partials: seq<real>)
    requires |partials| == WARPS
  {
    var fill := Padded(k, partials)[31];
    k.op(fill, fill) == fill && k.op(partials[0], fill) == partials[0]
  }

  lemma {:induction false} FoldAbsorbs(op: Op, p: seq<real>, fill: real)
    requires Reorderable(op) && |p| > 0 && op(p[0], fill) == p[0]
    ensures op(Fold(op, p), fill) == Fold(op, p)
  {
    FoldUpdate(op, p, 0, fill);
    assert p[0 := p[0]] == p;
  }

  lemma {:induction false} PaddedTotal(k: Reduction, p: seq<real>)
    requires |p| == WARPS && Reorderable(k.op) && Absorbs(k, p)
    ensures Fold(k.op, Padded(k, p)) == Fold(k.op, p)
  {
    var v := Padded(k, p);
    var fill := v[31];
    assert v[..8] == p && v == v[..8] + v[8..];
    forall i | 0 <= i < 24 ensures v[8..][i] == fill { assert v[8..][i] == v[8 + i]; }
    FoldConcat(k.op, v[..8], v[8..]);
    FoldConstant(k.op, v[8..], fill);
    FoldAbsorbs(k.op, p, fill);
  }

  /** All 256 inputs of a block in thread order. */
  function Flat(input: seq<Vec>, i: int): real
    requires |input| == WARPS
  {
    if 0 <= i < BLOCK_SIZE then input[i / 32][i % 32] else 0.0
  }

  lemma {:induction false} SumMaxAbsorb(k: Reduction, p: seq<real>)
    requires |p| == WARPS && (k == BlockSum() || k == BlockMax())
    ensures Absorbs(k, p)
  {}

  lemma {:induction false} WarpSlice(input: seq<Vec>, w: int)
    requires |input| == WARPS && 0 <= w < WARPS
    ensures Slice(i => Flat(input, i), w * 32, 32) == input[w]
  {
    forall l | 0 <= l < 32 ensures Flat(input, w * 32 + l) == input[w][l] {
      assert (w * 32 + l) / 32 == w && (w * 32 + l) % 32 == l;
    }
  }

  /** The block reduction is the reduction of all 256 threads' inputs. */
  lemma {:induction false} BlockTotal(k: Reduction, input: seq<Vec>)
    requires |input| == WARPS && (k == BlockSum() || k == BlockMax())
    ensures BlockResult(k, input) == Fold(k.op, Slice(i => Flat(input, i), 0, BLOCK_SIZE))
  {
    AddMaxReorderable();
    SumMaxAbsorb(k, Partials(k, input));
    ReorderedTotal(k, input);
  }

  lemma {:induction false} ReorderedTotal(k: Reduction, input: seq<Vec>)
    requires |input| == WARPS && Reorderable(k.op) && Absorbs(k, Partials(k, input))
    ensures BlockResult(k, input) == Fold(k.op, Slice(i => Flat(input, i), 0, BLOCK_SIZE))
  {
    var p := Partials(k, input);
    WarpTotal(k.op, Padded(k, p));
    PaddedTotal(k, p);
    PartialSlices(k, input);
    FoldGroups(k.op, i => Flat(input, i), p, 32);
  }

  lemma {:induction false} PartialSlices(k: Reduction, input: seq<Vec>)
    requires |input| == WARPS && Reorderable(k.op)
    ensures forall w :: 0 <= w < WARPS ==> Partials(k, input)[w] == Fold(k.op, Slice(i => Flat(input, i), w * 32, 32))
  {
    var p, f := Partials(k, input), i => Flat(input, i);
    forall w | 0 <= w < WARPS ensures p[w] == Fold(k.op, Slice(f, w * 32, 32)) {
      WarpTotal(k.op, input[w]);
      WarpSlice(input, w);
    }
  }

  // ---- as code

  function ShuffleInstr(op: Op, d: int): Instr
    requires Distance(d)
  {
    Alu((r: Regs) => r.(v := Shuffle(op, r.v, d)))
  }

  /** warpSum / warpMax on register v. */
  function WarpReduce(op: Op): Segment { ShuffleCode(op, 16) }

  function ShuffleCode(op: Op, d: int): Segment
    requires d == 0 || Distance(d)
    decreases d
  {
    if d == 0 then [] else [ShuffleInstr(op, d)] + ShuffleCode(op, d / 2)
  }

  function LaneZero(c: Cell): Mask { seq(32, l => if l == 0 then Some(c) else None) }

  function FirstLanes(): Mask { seq(32, l => if l < WARPS then Some(Scratch(l)) else None) }

  function AllLanes(c: Cell): Mask { seq(32, _ => Some(c)) }

  function Select(at: Mask, x: Vec, prev: Vec): Vec {
    seq(32, l requires 0 <= l < 32 => if at[l].Some? then x[l] else prev[l])
  }

  function LoadV(at: Mask): Instr { Load(at, (r: Regs, x: Vec) => r.(v := Select(at, x, r.v))) }

  function SetV(x: real): Instr { Alu((r: Regs) => r.(v := Const(x))) }

  /** "if lane == 0 { s[warp] = v }" */
  function Publish(w: int): Segment { [Store(LaneZero(Scratch(w)), (r: Regs) => r.v)] }

  /** The reads after the second barrier and the last butterfly. */
  function Collect(k: Reduction): Segment {
    [if k.zeroFill then SetV(0.0) else LoadV(AllLanes(Scratch(0)))] + [LoadV(FirstLanes())] + WarpReduce(k.op)
  }

  lemma {:induction false} RunSnoc(s: Segment, i: Instr, r: Regs, mem: Mem)
    ensures Run(s + [i], r, mem) == Exec(i, Run(s, r, mem).0, Run(s, r, mem).1)
  {
    RunConcat(s, [i], r, mem);
    RunOne(i, Run(s, r, mem).0, Run(s, r, mem).1);
  }

  lemma {:induction false} RunShuffleCode(op: Op, d: int, r: Regs, mem: Mem)
    requires d == 0 || Distance(d)
    ensures Run(ShuffleCode(op, d), r, mem) == (r.(v := ShuffleFrom(op, r.v, d)), mem)
    decreases d
  {
    if d > 0 {
      RunConcat([ShuffleInstr(op, d)], ShuffleCode(op, d / 2), r, mem);
      RunOne(ShuffleInstr(op, d), r, mem);
      RunShuffleCode(op, d / 2, r.(v := Shuffle(op, r.v, d)), mem);
    }
  }

  lemma {:induction false} RunWarpReduce(op: Op, r: Regs, mem: Mem)
    ensures Run(WarpReduce(op), r, mem) == (r.(v := Butterfly(op, r.v)), mem)
  {
    RunShuffleCode(op, 16, r, mem);
  }

  ghost predicate Published(mem: Mem, partials: seq<real>)
    requires |partials| == WARPS
  {
    forall w :: 0 <= w < WARPS ==> Scratch(w) in mem && mem[Scratch(w)] == partials[w]
  }

  lemma {:induction false} RunCollect(k: Reduction, partials: seq<real>, r: Regs, mem: Mem)
    requires |partials| == WARPS && Published(mem, partials)
    ensures Run(Collect(k), r, mem) == (r.(v := Butterfly(k.op, Padded(k, partials))), mem)
  {
    var first := if k.zeroFill then SetV(0.0) else LoadV(AllLanes(Scratch(0)));
    var two := [first] + [LoadV(FirstLanes())];
    RunOne(first, r, mem);
    RunSnoc([first], LoadV(FirstLanes()), r, mem);
    RunConcat(two, WarpReduce(k.op), r, mem);
    RunWarpReduce(k.op, Run(two, r, mem).0, mem);
    assert Run(two, r, mem).0.v == Padded(k, partials);
    assert Run(two, r, mem).0 == r.(v := Padded(k, partials));
  }

  lemma {:induction false} RunPublish(w: int, r: Regs, mem: Mem)
    requires Scratch(w) in mem
    ensures Run(Publish(w), r, mem).0 == r
    ensures Run(Publish(w), r, mem).1.Keys == mem.Keys && Run(Publish(w), r, mem).1[Scratch(w)] == r.v[0]
  {
    var i := Store(LaneZero(Scratch(w)), (r: Regs) => r.v);
    assert Publish(w) == [i] by {
      assert Publish(w)[0] == i;
    }
    RunOne(i, r, mem);
    ScatterFrame(i.at, i.get(r), mem, 32);
    ScatterAt(i.at, i.get(r), mem, 32, 0);
  }

  ghost function ScratchCells(): set<Cell> { set w | 0 <= w < WARPS :: Scratch(w) }

  lemma {:induction false} ShuffleCodeTouches(op: Op, d: int)
    requires d == 0 || Distance(d)
    ensures SegReads(ShuffleCode(op, d)) == {} && SegWrites(ShuffleCode(op, d)) == {}
    ensures forall i :: 0 <= i < |ShuffleCode(op, d)| ==> OneLanePerCell(ShuffleCode(op, d)[i])
    decreases d
  {
    if d > 0 {
      ShuffleCodeTouches(op, d / 2);
      SegOne(ShuffleInstr(op, d));
      SegConcat([ShuffleInstr(op, d)], ShuffleCode(op, d / 2));
    }
  }

  lemma {:induction false} WarpReduceTouches(op: Op)
    ensures SegReads(WarpReduce(op)) == {} && SegWrites(WarpReduce(op)) == {}
    ensures forall i :: 0 <= i < |WarpReduce(op)| ==> OneLanePerCell(WarpReduce(op)[i])
  {
    ShuffleCodeTouches(op, 16);
  }

  lemma {:induction false} CollectTouches(k: Reduction)
    ensures SegReads(Collect(k)) == ScratchCells() && SegWrites(Collect(k)) == {}
    ensures forall i :: 0 <= i < |Collect(k)| ==> OneLanePerCell(Collect(k)[i])
  {
    WarpReduceTouches(k.op);
    var first := if k.zeroFill then SetV(0.0) else LoadV(AllLanes(Scratch(0)));
    SegOne(first);
    SegOne(LoadV(FirstLanes()));
    SegConcat([first], [LoadV(FirstLanes())]);
    SegConcat([first] + [LoadV(FirstLanes())], WarpReduce(k.op));
    forall c | c in ScratchCells() ensures c in Cells(FirstLanes()) {
      assert FirstLanes()[c.i] == Some(c);
    }
    assert Reads(first) <= ScratchCells();
  }

  lemma {:induction false} PublishTouches(w: int)
    ensures SegReads(Publish(w)) == {} && SegWrites(Publish(w)) == {Scratch(w)}
    ensures forall i :: 0 <= i < |Publish(w)| ==> OneLanePerCell(Publish(w)[i])
  {
    SegOne(Publish(w)[0]);
    assert LaneZero(Scratch(w))[0] == Some(Scratch(w));
    assert Cells(LaneZero(Scratch(w))) == {Scratch(w)};
  }
}
