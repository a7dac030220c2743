/** The loops the row kernels are made of: every thread strides over a row by the
    block size, reading and writing only the elements it owns. */
module RowCode {
  import opened Wrappers
  import opened BlockMachine
  import opened Folds
  import opened Reduce
  import opened Arith
  import opened SoftmaxSpec

  /** Where a row lives: the attention scores, an input row, or a row of the output buffer. */
  datatype Buf = Scores | Input | Output(base: int)

  function CellAt(b: Buf, t: int): Cell {
    match b
    case Scores => Score(t)
    case Input => X(t)
    case Output(base) => Out(base + t)
  }

  /** Element t belongs to warp w: the warp of thread t mod 256. */
  predicate Owner(w: int, t: int) { (t % 256) / 32 == w }

  ghost function OwnSet(b: Buf, n: nat, w: int): set<Cell> {
    set t | 0 <= t < n && Owner(w, t) :: CellAt(b, t)
  }

  ghost function RowSet(b: Buf, n: nat): set<Cell> { set t | 0 <= t < n :: CellAt(b, t) }

  lemma {:induction false} OwnSetsDisjoint(b: Buf, c: Buf, n: nat, m: nat, u: int, w: int)
    requires u != w
    requires b == c || !(b.Output? && c.Output?)
    ensures OwnSet(b, n, u) !! OwnSet(c, m, w)
  {}

  lemma {:induction false} OwnInRow(b: Buf, n: nat, w: int)
    ensures OwnSet(b, n, w) <= RowSet(b, n)
  {}

  /** The cells of the lanes of a warp whose first lane is at element t. */
  function Lanes(b: Buf, t: int, n: int): (at: Mask)
    ensures forall l :: 0 <= l < 32 ==> at[l] == LaneCell(b, t + l, n)
  {
    LaneCells(b, t, n)
  }

  function LaneCells(b: Buf, t: int, n: int): (at: seq<Option<Cell>>)
    ensures |at| == 32 && forall l :: 0 <= l < 32 ==> at[l] == LaneCell(b, t + l, n)
  {
    seq(32, l requires 0 <= l < 32 => LaneCell(b, t + l, n))
  }

  function LaneCell(b: Buf, t: int, n: int): Option<Cell> { if t < n then Some(CellAt(b, t)) else None }

  /** "for t := tid; t < n; t += BlockSize", as the warp with first element t runs it. */
  function Loop(body: int -> Segment, t: int, n: int): Segment
    decreases n - t
  {
    if t >= n then [] else body(t) + Loop(body, t + 256, n)
  }

  /** Among 256 consecutive elements the warp owns just the first 32. */
  lemma {:induction false} FirstLane(w: int, t: int, u: int)
    requires 0 <= w < WARPS && t % 256 == 32 * w && t <= u < t + 256
    ensures Owner(w, u) <==> u < t + 32
  {
    var q, d := t / 256, u - t;
    if 32 * w + d < 256 {
      DivModUnique(q, 32 * w + d, 256, u);
    } else {
      DivModUnique(q + 1, 32 * w + d - 256, 256, u);
    }
  }

  lemma {:induction false} NextFirst(w: int, t: int)
    requires t % 256 == 32 * w
    ensures (t + 256) % 256 == 32 * w
  {}

  lemma {:induction false} LanesOwned(b: Buf, w: int, t: int, n: nat)
    requires 0 <= w < WARPS && t >= 0 && t % 256 == 32 * w
    ensures Cells(Lanes(b, t, n)) <= OwnSet(b, n, w) && DistinctCells(Lanes(b, t, n))
  {
    forall c | c in Cells(Lanes(b, t, n)) ensures c in OwnSet(b, n, w) {
      var l :| 0 <= l < 32 && Lanes(b, t, n)[l] == Some(c);
      FirstLane(w, t, t + l);
      assert c == CellAt(b, t + l);
    }
  }

  /** What a segment may read and write. */
  ghost predicate Within(seg: Segment, rs: set<Cell>, ws: set<Cell>) {
    && SegReads(seg) <= rs && SegWrites(seg) <= ws
    && forall i :: 0 <= i < |seg| ==> OneLanePerCell(seg[i])
  }

  lemma {:induction false} WithinConcat(a: Segment, b: Segment, rs: set<Cell>, ws: set<Cell>)
    requires Within(a, rs, ws) && Within(b, rs, ws)
    ensures Within(a + b, rs, ws)
  {
    SegConcat(a, b);
  }

  lemma {:induction false} WithinWider(seg: Segment, r: set<Cell>, w: set<Cell>, r': set<Cell>, w': set<Cell>)
    requires Within(seg, r, w) && r <= r' && w <= w'
    ensures Within(seg, r', w')
  {}

  lemma {:induction false} AluWithin(f: Regs -> Regs, r: set<Cell>, w: set<Cell>)
    ensures Within([Alu(f)], r, w)
  {
    SegOne(Alu(f));
  }

  lemma {:induction false} LoopWithin(body: int -> Segment, t: int, n: nat, w: int, rs: set<Cell>, ws: set<Cell>)
    requires 0 <= w < WARPS && t >= 0 && t % 256 == 32 * w
    requires forall u :: u >= 0 && u % 256 == 32 * w ==> Within(body(u), rs, ws)
    ensures Within(Loop(body, t, n), rs, ws)
    decreases n - t
  {
    if t < n {
      NextFirst(w, t);
      LoopWithin(body, t + 256, n, w, rs, ws);
      WithinConcat(body(t), Loop(body, t + 256, n), rs, ws);
    }
  }

  // ---- m = max(m, x[t])

  function Active(t: int, n: int, x: Vec, prev: Vec): Vec {
    seq(32, l requires 0 <= l < 32 => if t + l < n then x[l] else prev[l])
  }

  function MapVec(op: Op, a: Vec, b: Vec): Vec { seq(32, l requires 0 <= l < 32 => op(a[l], b[l])) }

  function LoadMax(src: Buf, n: int, t: int): Instr {
    Load(Lanes(src, t, n), (r: Regs, x: Vec) => r.(m := Active(t, n, MapVec(Max, r.m, x), r.m)))
  }

  function MaxBody(src: Buf, n: int): int -> Segment { t => [LoadMax(src, n, t)] }

  /** The elements of a row as a memory holds them. */
  function RowOf(b: Buf, mem: Mem): int -> real { t => if CellAt(b, t) in mem then mem[CellAt(b, t)] else 0.0 }

  ghost predicate HasRow(b: Buf, n: nat, mem: Mem) { forall t :: 0 <= t < n ==> CellAt(b, t) in mem }

  lemma {:induction false} MaxLoopWithin(src: Buf, n: nat, w: int)
    requires 0 <= w < WARPS
    ensures Within(Loop(MaxBody(src, n), 32 * w, n), OwnSet(src, n, w), {})
  {
    forall u | u >= 0 && u % 256 == 32 * w ensures Within(MaxBody(src, n)(u), OwnSet(src, n, w), {}) {
      LanesOwned(src, w, u, n);
      SegOne(LoadMax(src, n, u));
    }
    LoopWithin(MaxBody(src, n), 32 * w, n, w, OwnSet(src, n, w), {});
  }

  lemma {:induction false} RunMaxLoop(src: Buf, n: nat, t: nat, r: Regs, mem: Mem)
    requires HasRow(src, n, mem)
    ensures Run(Loop(MaxBody(src, n), t, n), r, mem).1 == mem
    ensures Run(Loop(MaxBody(src, n), t, n), r, mem).0.m == LanesFrom(Max, r.m, RowOf(src, mem), t, n)
    decreases n - t
  {
    if t < n {
      var i := LoadMax(src, n, t);
      var r' := Exec(i, r, mem).0;
      RunConcat([i], Loop(MaxBody(src, n), t + 256, n), r, mem);
      RunOne(i, r, mem);
      RunMaxLoop(src, n, t + 256, r', mem);
      MaxRound(src, n, t, r, mem);
      assert forall l :: 0 <= l < 32 ==> MaxLane(src, n, t, r, mem, r', l);
      LanesAdvance(Max, r.m, r'.m, RowOf(src, mem), t, n);
    }
  }

  /** Each lane's loop from element t on. */
  function LanesFrom(op: Op, acc: Vec, x: int -> real, t: nat, n: nat): Vec {
    seq(32, l requires 0 <= l < 32 => Strided(op, acc[l], x, t + l, 256, n))
  }

  lemma {:induction false} LanesAdvance(op: Op, acc: Vec, acc': Vec, x: int -> real, t: nat, n: nat)
    requires forall l :: 0 <= l < 32 ==> acc'[l] == (if t + l < n then op(acc[l], x(t + l)) else acc[l])
    ensures LanesFrom(op, acc', x, t + 256, n) == LanesFrom(op, acc, x, t, n)
  {}

  ghost predicate MaxLane(src: Buf, n: nat, t: nat, r: Regs, mem: Mem, r': Regs, l: int)
    requires 0 <= l < 32
  {
    r'.m[l] == if t + l < n then Max(r.m[l], RowOf(src, mem)(t + l)) else r.m[l]
  }

  lemma {:induction false} MaxRound(src: Buf, n: nat, t: nat, r: Regs, mem: Mem)
    requires HasRow(src, n, mem) && t < n
    ensures forall l :: 0 <= l < 32 ==> MaxLane(src, n, t, r, mem, Exec(LoadMax(src, n, t), r, mem).0, l)
  {
    var x := Gather(Lanes(src, t, n), mem);
    forall l | 0 <= l < 32 && t + l < n ensures x[l] == RowOf(src, mem)(t + l) {
      assert Lanes(src, t, n)[l] == Some(CellAt(src, t + l));
    }
    assert Exec(LoadMax(src, n, t), r, mem).0.m == Active(t, n, MapVec(Max, r.m, x), r.m);
  }

  // ---- e = exp(x[t] - m); y[t] = e; sum += e

  function ExpOf(exp: real -> real, x: Vec, m: Vec): Vec { seq(32, l requires 0 <= l < 32 => exp(x[l] - m[l])) }

  function LoadExp(exp: real -> real, src: Buf, n: int, t: int): Instr {
    Load(Lanes(src, t, n), (r: Regs, x: Vec) =>
      r.(acc := ExpOf(exp, x, r.m), sum := Active(t, n, MapVec(Add, r.sum, ExpOf(exp, x, r.m)), r.sum)))
  }

  function StoreAcc(dst: Buf, n: int, t: int): Instr { Store(Lanes(dst, t, n), (r: Regs) => r.acc) }

  function ExpBody(exp: real -> real, src: Buf, dst: Buf, n: int): int -> Segment {
    t => [LoadExp(exp, src, n, t)] + [StoreAcc(dst, n, t)]
  }

  lemma {:induction false} StoreWithin(i: Instr, b: Buf, n: nat, t: int, w: int)
    requires 0 <= w < WARPS && t >= 0 && t % 256 == 32 * w
    requires i.Store? && i.at == Lanes(b, t, n)
    ensures Within([i], {}, OwnSet(b, n, w))
  {
    LanesOwned(b, w, t, n);
    SegOne(i);
  }

  lemma {:induction false} LoadWithin(i: Instr, b: Buf, n: nat, t: int, w: int)
    requires 0 <= w < WARPS && t >= 0 && t % 256 == 32 * w
    requires i.Load? && i.at == Lanes(b, t, n)
    ensures Within([i], OwnSet(b, n, w), {})
  {
    LanesOwned(b, w, t, n);
    SegOne(i);
  }

  lemma {:induction false} ExpLoopWithin(exp: real -> real, src: Buf, dst: Buf, n: nat, w: int)
    requires 0 <= w < WARPS
    ensures Within(Loop(ExpBody(exp, src, dst, n), 32 * w, n), OwnSet(src, n, w), OwnSet(dst, n, w))
  {
    var body, R, W := ExpBody(exp, src, dst, n), OwnSet(src, n, w), OwnSet(dst, n, w);
    forall u | u >= 0 && u % 256 == 32 * w ensures Within(body(u), R, W) {
      LoadWithin(LoadExp(exp, src, n, u), src, n, u, w);
      StoreWithin(StoreAcc(dst, n, u), dst, n, u, w);
      WithinWider([LoadExp(exp, src, n, u)], R, {}, R, W);
      WithinWider([StoreAcc(dst, n, u)], {}, W, R, W);
      WithinConcat([LoadExp(exp, src, n, u)], [StoreAcc(dst, n, u)], R, W);
    }
    LoopWithin(body, 32 * w, n, w, R, W);
  }

  /** A warp's store to its lanes of a row. */
  lemma {:induction false} StoreLanes(i: Instr, b: Buf, n: nat, t: int, w: int, r: Regs, mem: Mem)
    requires 0 <= w < WARPS && t >= 0 && t % 256 == 32 * w && HasRow(b, n, mem)
    requires i.Store? && i.at == Lanes(b, t, n)
    ensures Exec(i, r, mem).0 == r && Exec(i, r, mem).1.Keys == mem.Keys
    ensures forall l :: 0 <= l < 32 && t + l < n ==> Exec(i, r, mem).1[CellAt(b, t + l)] == i.get(r)[l]
    ensures forall c :: c in mem && c !in OwnSet(b, n, w) ==> Exec(i, r, mem).1[c] == mem[c]
    ensures forall u :: 0 <= u < n && !(t <= u < t + 32) ==> Exec(i, r, mem).1[CellAt(b, u)] == mem[CellAt(b, u)]
  {
    LanesOwned(b, w, t, n);
    ExecFrame(i, r, mem);
    forall l | 0 <= l < 32 && t + l < n ensures Exec(i, r, mem).1[CellAt(b, t + l)] == i.get(r)[l] {
      assert Lanes(b, t, n)[l] == Some(CellAt(b, t + l));
      ScatterAt(i.at, i.get(r), mem, 32, l);
    }
    forall u | 0 <= u < n && !(t <= u < t + 32) ensures CellAt(b, u) !in Cells(i.at) {}
  }

  ghost predicate Compatible(src: Buf, dst: Buf) { src == dst || !(src.Output? && dst.Output?) }

  /** The memory after some rounds of a loop that writes val(u) to the elements u in
      [from, to) that warp w owns. */
  ghost predicate Wrote(dst: Buf, n: nat, w: int, from: int, to: int, val: int -> real, mem: Mem, mem': Mem) {
    && mem'.Keys == mem.Keys
    && (forall u :: 0 <= u < n ==> CellAt(dst, u) in mem')
    && (forall u :: from <= u < to && 0 <= u < n && Owner(w, u) ==> mem'[CellAt(dst, u)] == val(u))
    && (forall u :: 0 <= u < n && !(from <= u < to && Owner(w, u)) ==> mem'[CellAt(dst, u)] == mem[CellAt(dst, u)])
    && (forall c :: c in mem && c !in OwnSet(dst, n, w) ==> mem'[c] == mem[c])
  }

  lemma {:induction false} StoreWrote(i: Instr, dst: Buf, n: nat, w: int, t: int, val: int -> real, r: Regs, mem: Mem)
    requires 0 <= w < WARPS && t >= 0 && t % 256 == 32 * w && HasRow(dst, n, mem)
    requires i.Store? && i.at == Lanes(dst, t, n)
    requires forall l :: 0 <= l < 32 && t + l < n ==> i.get(r)[l] == val(t + l)
    ensures Exec(i, r, mem).0 == r && Wrote(dst, n, w, t, t + 256, val, mem, Exec(i, r, mem).1)
  {
    StoreLanes(i, dst, n, t, w, r, mem);
    forall u | t <= u < t + 256 ensures Owner(w, u) <==> u < t + 32 { FirstLane(w, t, u); }
    var mem' := Exec(i, r, mem).1;
    forall u | t <= u < t + 256 && 0 <= u < n && Owner(w, u) ensures mem'[CellAt(dst, u)] == val(u) {
      var l := u - t;
      assert mem'[CellAt(dst, t + l)] == i.get(r)[l];
    }
  }

  /** What a round wrote does not disturb the elements later rounds read. */
  lemma {:induction false} WroteRow(src: Buf, dst: Buf, n: nat, w: int, a: int, b: int, val: int -> real, m0: Mem,
      m1: Mem, u: int)
    requires Compatible(src, dst) && HasRow(src, n, m0) && Wrote(dst, n, w, a, b, val, m0, m1) && b <= u < n && 0 <= u
    ensures RowOf(src, m1)(u) == RowOf(src, m0)(u)
  {
    if src != dst { assert CellAt(src, u) !in OwnSet(dst, n, w); }
  }

  /** One round of the exp loop. */
  lemma {:induction false} ExpRound(exp: real -> real, src: Buf, dst: Buf, n: nat, w: int, t: int, m: real, r: Regs,
      mem: Mem)
    requires 0 <= w < WARPS && t >= 0 && t % 256 == 32 * w
    requires HasRow(src, n, mem) && HasRow(dst, n, mem) && r.m == Const(m)
    ensures Run(ExpBody(exp, src, dst, n)(t), r, mem).0 == Exec(LoadExp(exp, src, n, t), r, mem).0
    ensures Wrote(dst, n, w, t, t + 256, ExpTerm(exp, RowOf(src, mem), m), mem,
      Run(ExpBody(exp, src, dst, n)(t), r, mem).1)
  {
    var load, store := LoadExp(exp, src, n, t), StoreAcc(dst, n, t);
    var r' := Exec(load, r, mem).0;
    assert ExpBody(exp, src, dst, n)(t) == [load] + [store] && Exec(load, r, mem).1 == mem;
    assert store.Store? && store.at == Lanes(dst, t, n) && store.get(r') == r'.acc;
    hide *;
    RunConcat([load], [store], r, mem);
    RunOne(load, r, mem);
    RunOne(store, r', mem);
    var f := ExpTerm(exp, RowOf(src, mem), m);
    forall l | 0 <= l < 32 && t + l < n ensures r'.acc[l] == f(t + l) { LoadedExp(exp, src, n, t, m, r, mem, l); }
    StoreWrote(store, dst, n, w, t, f, r', mem);
  }

  lemma {:induction false} LoadedExp(exp: real -> real, src: Buf, n: nat, t: nat, m: real, r: Regs, mem: Mem, l: nat)
    requires HasRow(src, n, mem) && r.m == Const(m) && l < 32 && t + l < n
    ensures Exec(LoadExp(exp, src, n, t), r, mem).0.acc[l] == ExpTerm(exp, RowOf(src, mem), m)(t + l)
  {
    assert Lanes(src, t, n)[l] == LaneCell(src, t + l, n);
  }

  /** The registers after the rounds of an exp loop from element t on: lane l has added f over its elements. */
  ghost predicate Summed(f: int -> real, t: int, n: nat, r: Regs, r': Regs)
    requires t >= 0
  {
    r' == r.(acc := r'.acc, sum := r'.sum)
    && forall l :: 0 <= l < 32 ==> r'.sum[l] == Strided(Add, r.sum[l], f, t + l, 256, n)
  }

  ghost predicate SummedOnce(f: int -> real, t: int, n: nat, r: Regs, r': Regs) {
    r' == r.(acc := r'.acc, sum := r'.sum)
    && forall l :: 0 <= l < 32 ==> r'.sum[l] == (if t + l < n then r.sum[l] + f(t + l) else r.sum[l])
  }

  lemma {:induction false} LoadExpRegs(exp: real -> real, src: Buf, n: nat, t: nat, m: real, r: Regs, mem: Mem)
    requires HasRow(src, n, mem) && r.m == Const(m)
    ensures SummedOnce(ExpTerm(exp, RowOf(src, mem), m), t, n, r, Exec(LoadExp(exp, src, n, t), r, mem).0)
  {
    var x := Gather(Lanes(src, t, n), mem);
    var f := ExpTerm(exp, RowOf(src, mem), m);
    var r' := Exec(LoadExp(exp, src, n, t), r, mem).0;
    assert r'.sum == Active(t, n, MapVec(Add, r.sum, ExpOf(exp, x, r.m)), r.sum);
    forall l | 0 <= l < 32 ensures r'.sum[l] == if t + l < n then r.sum[l] + f(t + l) else r.sum[l] {
      if t + l < n {
        assert Lanes(src, t, n)[l] == Some(CellAt(src, t + l));
        assert x[l] == RowOf(src, mem)(t + l);
        assert MapVec(Add, r.sum, ExpOf(exp, x, r.m))[l] == Add(r.sum[l], exp(x[l] - m));
      }
    }
  }

  lemma {:induction false} SummedThen(f: int -> real, g: int -> real, n: nat, t: nat, r0: Regs, r1: Regs, r2: Regs)
    requires t < n && forall u :: t + 256 <= u < n ==> f(u) == g(u)
    requires SummedOnce(f, t, n, r0, r1) && Summed(g, t + 256, n, r1, r2)
    ensures Summed(f, t, n, r0, r2)
  {
    forall l | 0 <= l < 32 ensures r2.sum[l] == Strided(Add, r0.sum[l], f, t + l, 256, n) {
      StridedCongruence(Add, r1.sum[l], g, f, t + 256 + l, 256, n);
    }
  }

  lemma {:induction false} RunExpLoop(exp: real -> real, src: Buf, dst: Buf, n: nat, w: int, t: nat, m: real, r: Regs,
      mem: Mem)
    requires 0 <= w < WARPS && t % 256 == 32 * w && Compatible(src, dst)
    requires HasRow(src, n, mem) && HasRow(dst, n, mem) && r.m == Const(m)
    ensures Summed(ExpTerm(exp, RowOf(src, mem), m), t, n, r, Run(Loop(ExpBody(exp, src, dst, n), t, n), r, mem).0)
    ensures Wrote(dst, n, w, t, if t < n then n else t, ExpTerm(exp, RowOf(src, mem), m), mem,
                  Run(Loop(ExpBody(exp, src, dst, n), t, n), r, mem).1)
    decreases n - t
  {
    if t < n {
      ExpLoopStep(exp, src, dst, n, w, t, m, r, mem);
      var mid := Run(ExpBody(exp, src, dst, n)(t), r, mem);
      NextFirst(w, t);
      RunExpLoop(exp, src, dst, n, w, t + 256, m, mid.0, mid.1);
      var after := Run(Loop(ExpBody(exp, src, dst, n), t + 256, n), mid.0, mid.1);
      var f, g := ExpTerm(exp, RowOf(src, mem), m), ExpTerm(exp, RowOf(src, mid.1), m);
      SummedThen(f, g, n, t, r, mid.0, after.0);
      ExpMems(dst, n, w, t, f, g, mem, mid.1, after.1);
    }
  }

  lemma {:induction false} ExpLoopStep(exp: real -> real, src: Buf, dst: Buf, n: nat, w: int, t: nat, m: real, r: Regs,
      mem: Mem)
    requires 0 <= w < WARPS && t % 256 == 32 * w && Compatible(src, dst) && t < n
    requires HasRow(src, n, mem) && HasRow(dst, n, mem) && r.m == Const(m)
    ensures var mid := Run(ExpBody(exp, src, dst, n)(t), r, mem);
      && Run(Loop(ExpBody(exp, src, dst, n), t, n), r, mem)
        == Run(Loop(ExpBody(exp, src, dst, n), t + 256, n), mid.0, mid.1)
      && SummedOnce(ExpTerm(exp, RowOf(src, mem), m), t, n, r, mid.0)
      && Wrote(dst, n, w, t, t + 256, ExpTerm(exp, RowOf(src, mem), m), mem, mid.1)
      && HasRow(src, n, mid.1)
      && forall u :: t + 256 <= u < n ==> ExpTerm(exp, RowOf(src, mem), m)(u) == ExpTerm(exp, RowOf(src, mid.1), m)(u)
  {
    var body, f := ExpBody(exp, src, dst, n), ExpTerm(exp, RowOf(src, mem), m);
    var mid := Run(body(t), r, mem);
    RunConcat(body(t), Loop(body, t + 256, n), r, mem);
    ExpRound(exp, src, dst, n, w, t, m, r, mem);
    LoadExpRegs(exp, src, n, t, m, r, mem);
    forall u | t + 256 <= u < n ensures f(u) == ExpTerm(exp, RowOf(src, mid.1), m)(u) {
      WroteRow(src, dst, n, w, t, t + 256, f, mem, mid.1, u);
    }
  }

  lemma {:induction false} ExpMems(dst: Buf, n: nat, w: int, t: nat, f: int -> real, g: int -> real, m0: Mem, m1: Mem,
      m2: Mem)
    requires t < n && forall u :: t + 256 <= u < n ==> f(u) == g(u)
    requires Wrote(dst, n, w, t, t + 256, f, m0, m1)
    requires Wrote(dst, n, w, t + 256, if t + 256 < n then n else t + 256, g, m1, m2)
    ensures Wrote(dst, n, w, t, n, f, m0, m2)
  {}

  // ---- y[i] = g(i, x[i], inv)

  function MapOf(g: (int, real, real) -> real, t: int, x: Vec, inv: Vec): Vec {
    seq(32, l requires 0 <= l < 32 => g(t + l, x[l], inv[l]))
  }

  function LoadMap(g: (int, real, real) -> real, src: Buf, n: int, t: int): Instr {
    Load(Lanes(src, t, n), (r: Regs, x: Vec) => r.(acc := MapOf(g, t, x, r.inv)))
  }

  function MapBody(g: (int, real, real) -> real, src: Buf, dst: Buf, n: int): int -> Segment {
    t => [LoadMap(g, src, n, t)] + [StoreAcc(dst, n, t)]
  }

  function Mapped(g: (int, real, real) -> real, x: int -> real, inv: real): int -> real { i => g(i, x(i), inv) }

  lemma {:induction false} MapLoopWithin(g: (int, real, real) -> real, src: Buf, dst: Buf, n: nat, w: int)
    requires 0 <= w < WARPS
    ensures Within(Loop(MapBody(g, src, dst, n), 32 * w, n), OwnSet(src, n, w), OwnSet(dst, n, w))
  {
    var body, R, W := MapBody(g, src, dst, n), OwnSet(src, n, w), OwnSet(dst, n, w);
    forall u | u >= 0 && u % 256 == 32 * w ensures Within(body(u), R, W) {
      LoadWithin(LoadMap(g, src, n, u), src, n, u, w);
      StoreWithin(StoreAcc(dst, n, u), dst, n, u, w);
      WithinWider([LoadMap(g, src, n, u)], R, {}, R, W);
      WithinWider([StoreAcc(dst, n, u)], {}, W, R, W);
      WithinConcat([LoadMap(g, src, n, u)], [StoreAcc(dst, n, u)], R, W);
    }
    LoopWithin(body, 32 * w, n, w, R, W);
  }

  lemma {:induction false} MapRound(g: (int, real, real) -> real, src: Buf, dst: Buf, n: nat, w: int, t: int,
      inv: real, r: Regs, mem: Mem)
    requires 0 <= w < WARPS && t >= 0 && t % 256 == 32 * w
    requires HasRow(src, n, mem) && HasRow(dst, n, mem) && r.inv == Const(inv)
    ensures Run(MapBody(g, src, dst, n)(t), r, mem).0.inv == r.inv
    ensures Wrote(dst, n, w, t, t + 256, Mapped(g, RowOf(src, mem), inv), mem,
      Run(MapBody(g, src, dst, n)(t), r, mem).1)
  {
    var load, store := LoadMap(g, src, n, t), StoreAcc(dst, n, t);
    RunConcat([load], [store], r, mem);
    RunOne(load, r, mem);
    var r' := Exec(load, r, mem).0;
    RunOne(store, r', mem);
    LoadMapRegs(g, src, n, t, inv, r, mem);
    hide Wrote, Exec, LoadMap;
    StoreWrote(store, dst, n, w, t, Mapped(g, RowOf(src, mem), inv), r', mem);
  }

  lemma {:induction false} LoadMapRegs(g: (int, real, real) -> real, src: Buf, n: nat, t: nat, inv: real, r: Regs,
      mem: Mem)
    requires HasRow(src, n, mem) && r.inv == Const(inv)
    ensures var after := Exec(LoadMap(g, src, n, t), r, mem);
      && after.1 == mem && after.0.inv == r.inv
      && forall l :: 0 <= l < 32 && t + l < n ==> after.0.acc[l] == Mapped(g, RowOf(src, mem), inv)(t + l)
  {
    forall l | 0 <= l < 32 && t + l < n
      ensures Exec(LoadMap(g, src, n, t), r, mem).0.acc[l] == Mapped(g, RowOf(src, mem), inv)(t + l)
    {
      assert Lanes(src, t, n)[l] == Some(CellAt(src, t + l));
    }
  }

  lemma {:induction false} RunMapLoop(g: (int, real, real) -> real, src: Buf, dst: Buf, n: nat, w: int, t: nat,
      inv: real, r: Regs, mem: Mem)
    requires 0 <= w < WARPS && t % 256 == 32 * w && Compatible(src, dst)
    requires HasRow(src, n, mem) && HasRow(dst, n, mem) && r.inv == Const(inv)
    ensures Wrote(dst, n, w, t, if t < n then n else t, Mapped(g, RowOf(src, mem), inv), mem,
                  Run(Loop(MapBody(g, src, dst, n), t, n), r, mem).1)
    decreases n - t
  {
    if t < n {
      var body, f := MapBody(g, src, dst, n), Mapped(g, RowOf(src, mem), inv);
      MapRound(g, src, dst, n, w, t, inv, r, mem);
      var mid := Run(body(t), r, mem);
      RunConcat(body(t), Loop(body, t + 256, n), r, mem);
      NextFirst(w, t);
      WroteHas(src, dst, n, w, t, f, mem, mid.1);
      RunMapLoop(g, src, dst, n, w, t + 256, inv, mid.0, mid.1);
      var f' := Mapped(g, RowOf(src, mid.1), inv);
      forall u | t + 256 <= u < n ensures f(u) == f'(u) { WroteRow(src, dst, n, w, t, t + 256, f, mem, mid.1, u); }
      ExpMems(dst, n, w, t, f, f', mem, mid.1, Run(Loop(body, t + 256, n), mid.0, mid.1).1);
    }
  }

  lemma {:induction false} WroteHas(src: Buf, dst: Buf, n: nat, w: int, t: int, f: int -> real, mem: Mem, mem': Mem)
    requires HasRow(src, n, mem) && Wrote(dst, n, w, t, t + 256, f, mem, mem')
    ensures HasRow(src, n, mem') && HasRow(dst, n, mem')
  {}

  // ---- ss += x[i] * x[i]

  function Squares(x: int -> real): int -> real { t => Mul(x(t), x(t)) }

  function SquareVec(x: Vec): Vec { seq(32, l requires 0 <= l < 32 => Mul(x[l], x[l])) }

  function LoadSquares(src: Buf, n: int, t: int): Instr {
    Load(Lanes(src, t, n), (r: Regs, x: Vec) => r.(sum := Active(t, n, MapVec(Add, r.sum, SquareVec(x)), r.sum)))
  }

  function SquareBody(src: Buf, n: int): int -> Segment { t => [LoadSquares(src, n, t)] }

  lemma {:induction false} SquareLoopWithin(src: Buf, n: nat, w: int)
    requires 0 <= w < WARPS
    ensures Within(Loop(SquareBody(src, n), 32 * w, n), OwnSet(src, n, w), {})
  {
    forall u | u >= 0 && u % 256 == 32 * w ensures Within(SquareBody(src, n)(u), OwnSet(src, n, w), {}) {
      LanesOwned(src, w, u, n);
      SegOne(LoadSquares(src, n, u));
    }
    LoopWithin(SquareBody(src, n), 32 * w, n, w, OwnSet(src, n, w), {});
  }

  ghost predicate SquareLane(src: Buf, n: nat, t: nat, r: Regs, mem: Mem, r': Regs, l: int)
    requires 0 <= l < 32
  {
    r'.sum[l] == if t + l < n then Add(r.sum[l], Squares(RowOf(src, mem))(t + l)) else r.sum[l]
  }

  lemma {:induction false} SquareRound(src: Buf, n: nat, t: nat, r: Regs, mem: Mem)
    requires HasRow(src, n, mem) && t < n
    ensures forall l :: 0 <= l < 32 ==> SquareLane(src, n, t, r, mem, Exec(LoadSquares(src, n, t), r, mem).0, l)
  {
    var x := Gather(Lanes(src, t, n), mem);
    forall l | 0 <= l < 32 && t + l < n ensures x[l] == RowOf(src, mem)(t + l) {
      assert Lanes(src, t, n)[l] == Some(CellAt(src, t + l));
    }
    assert Exec(LoadSquares(src, n, t), r, mem).0.sum == Active(t, n, MapVec(Add, r.sum, SquareVec(x)), r.sum);
  }

  lemma {:induction false} RunSquareLoop(src: Buf, n: nat, t: nat, r: Regs, mem: Mem)
    requires HasRow(src, n, mem)
    ensures Run(Loop(SquareBody(src, n), t, n), r, mem).1 == mem
    ensures Run(Loop(SquareBody(src, n), t, n), r, mem).0.sum == LanesFrom(Add, r.sum, Squares(RowOf(src, mem)), t, n)
    decreases n - t
  {
    if t < n {
      var i := LoadSquares(src, n, t);
      var r' := Exec(i, r, mem).0;
      RunConcat([i], Loop(SquareBody(src, n), t + 256, n), r, mem);
      RunOne(i, r, mem);
      RunSquareLoop(src, n, t + 256, r', mem);
      SquareRound(src, n, t, r, mem);
      forall l | 0 <= l < 32
        ensures r'.sum[l] == (if t + l < n then Add(r.sum[l], Squares(RowOf(src, mem))(t + l)) else r.sum[l])
      {
        assert SquareLane(src, n, t, r, mem, r', l);
      }
      LanesAdvance(Add, r.sum, r'.sum, Squares(RowOf(src, mem)), t, n);
    }
  }

  // ---- a block of warps that respect each other's cells

  /** Code is disciplined when the cells its segments may touch are separate. */
  lemma {:induction false} Discipline(code: seq<Code>, cells: set<Cell>, rs: (int, int) -> set<Cell>,
      ws: (int, int) -> set<Cell>)
    requires |code| == WARPS && |code[0]| > 0
    requires forall w :: 0 <= w < WARPS ==> |code[w]| == |code[0]|
    requires forall w, e :: 0 <= w < WARPS && 0 <= e < |code[0]| ==> Within(code[w][e], rs(w, e), ws(w, e))
    requires forall w, e :: 0 <= w < WARPS && 0 <= e < |code[0]| ==> rs(w, e) <= cells && ws(w, e) <= cells
    requires forall u, w, e :: 0 <= u < WARPS && 0 <= w < WARPS && u != w && 0 <= e < |code[0]| ==>
      ws(u, e) !! rs(w, e) + ws(w, e)
    ensures Disciplined(code, cells)
  {
    forall u, w, e | 0 <= u < |code| && 0 <= w < |code| && u != w && 0 <= e < |code[0]|
      ensures Separated(code[u][e], code[w][e])
    {
      assert Within(code[u][e], rs(u, e), ws(u, e)) && Within(code[w][e], rs(w, e), ws(w, e));
      assert ws(u, e) !! rs(w, e) + ws(w, e);
    }
    forall w, e | 0 <= w < |code| && 0 <= e < |code[0]| ensures Tame(code[w][e], cells) {
      assert Within(code[w][e], rs(w, e), ws(w, e));
      assert rs(w, e) <= cells && ws(w, e) <= cells;
    }
  }
}
