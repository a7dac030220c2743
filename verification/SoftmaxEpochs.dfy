/** The four epochs of a softmax, for any block whose code contains them. */
module SoftmaxEpochs {
  import opened BlockMachine
  import opened Schedules
  import opened Folds
  import opened Reduce
  import opened RowCode
  import opened SoftmaxSpec
  import opened SoftmaxCode

  ghost predicate EightWarps(code: seq<Code>, s0: Block) {
    && |code| == WARPS && |s0.warps| == WARPS && Disciplined(code, s0.mem.Keys) && ScratchCells() <= s0.mem.Keys
    && forall w :: 0 <= w < WARPS ==> |code[w]| == |code[0]|
  }

  /** Every warp runs seg(w) in epoch e. */
  ghost predicate InEpochAll(code: seq<Code>, e: nat, seg: int -> Segment) {
    |code| == WARPS && forall w :: 0 <= w < WARPS ==> e < |code[w]| && code[w][e] == seg(w)
  }

  ghost predicate RowIs(b: Buf, n: nat, mem: Mem, x: int -> real) {
    forall t :: 0 <= t < n ==> CellAt(b, t) in mem && mem[CellAt(b, t)] == x(t)
  }

  /** Lane 0 of warp w holds partial result p[w]. */
  ghost predicate Hold(g: Global, p: seq<real>) {
    |p| == |g.regs| == WARPS && forall w :: 0 <= w < WARPS ==> g.regs[w].v[0] == p[w]
  }

  ghost predicate SameExcept(a: Mem, b: Mem, cells: set<Cell>) {
    a.Keys == b.Keys && forall c :: c in a && c !in cells ==> a[c] == b[c]
  }

  /** An epoch in which every warp publishes its partial result. */
  lemma {:induction false} PublishEpoch(code: seq<Code>, s0: Block, e: nat, p: seq<real>)
    requires EightWarps(code, s0) && e < |code[0]| && InEpochAll(code, e, Publish) && Hold(Epochs(code, e, s0), p)
    ensures Published(Epochs(code, e + 1, s0).mem, p)
    ensures SameExcept(Epochs(code, e, s0).mem, Epochs(code, e + 1, s0).mem, ScratchCells())
  {
    var g, g' := Epochs(code, e, s0), Epochs(code, e + 1, s0);
    forall w | 0 <= w < WARPS ensures Scratch(w) in g'.mem && g'.mem[Scratch(w)] == p[w] {
      assert Scratch(w) in ScratchCells() && code[w][e] == Publish(w);
      RunPublish(w, g.regs[w], g.mem);
      PublishTouches(w);
      EpochCell(code, e, s0, w, Scratch(w));
    }
    forall c | c in g.mem && c !in ScratchCells() ensures g.mem[c] == g'.mem[c] {
      forall w | 0 <= w < WARPS ensures c !in SegWrites(code[w][e]) {
        assert code[w][e] == Publish(w) && Scratch(w) in ScratchCells();
        PublishTouches(w);
      }
      EpochKeeps(code, e, s0, c);
    }
  }

  lemma {:induction false} EightCodes(code: seq<Code>, s0: Block, e: nat)
    requires EightWarps(code, s0) && e < |code[0]|
    ensures Disciplined(code, s0.mem.Keys) && |s0.warps| == |code| == WARPS && forall w :: 0 <= w < |code| ==>
      e < |code[w]|
  {
    hide Disciplined;
  }

  /** An epoch in which no warp writes. */
  lemma {:induction false} QuietEpoch(code: seq<Code>, s0: Block, e: nat)
    requires EightWarps(code, s0) && e < |code[0]|
    requires forall w :: 0 <= w < WARPS ==> SegWrites(code[w][e]) == {}
    ensures Epochs(code, e + 1, s0).mem == Epochs(code, e, s0).mem
  {
    EightCodes(code, s0, e);
    hide *;
    forall c | c in s0.mem ensures Epochs(code, e + 1, s0).mem[c] == Epochs(code, e, s0).mem[c] {
      EpochKeeps(code, e, s0, c);
    }
    SameMem(s0.mem.Keys, Epochs(code, e + 1, s0).mem, Epochs(code, e, s0).mem);
  }

  lemma {:induction false} SameMem(cells: set<Cell>, a: Mem, b: Mem)
    requires a.Keys == b.Keys == cells && forall c :: c in cells ==> a[c] == b[c]
    ensures a == b
  {}

  function HeadOf(src: Buf, n: nat): int -> Segment { w => if w >= 0 then Head(src, n, w) else [] }

  function MiddleOf(exp: real -> real, src: Buf, dst: Buf, n: nat): int -> Segment {
    w => if w >= 0 then Middle(exp, src, dst, n, w) else []
  }

  function MaxPartials(x: int -> real, n: nat): seq<real> {
    seq(WARPS, w requires 0 <= w < WARPS => Butterfly(Max, MaxLanes(x, n, w))[0])
  }

  function SumPartials(f: int -> real, n: nat): seq<real> {
    seq(WARPS, w requires 0 <= w < WARPS => Butterfly(Add, SumLanes(f, n, w))[0])
  }

  function RowMax(x: int -> real, n: nat): real { Accumulate(Max, LOWEST, x, n) }

  lemma {:induction false} MaxTotal(x: int -> real, n: nat)
    ensures |MaxPartials(x, n)| == WARPS
    ensures Butterfly(Max, Padded(BlockMax(), MaxPartials(x, n))) == Const(RowMax(x, n))
  {
    var input: seq<Vec> := seq(WARPS, w requires 0 <= w < WARPS => MaxLanes(x, n, w));
    forall w | 0 <= w < WARPS ensures LanesStride(Max, LOWEST, x, n, w, input[w]) {}
    BlockAccumulates(BlockMax(), LOWEST, x, n, input);
    assert Partials(BlockMax(), input) == MaxPartials(x, n);
  }

  lemma {:induction false} SumTotal(f: int -> real, n: nat)
    ensures |SumPartials(f, n)| == WARPS
    ensures Butterfly(Add, Padded(BlockSum(), SumPartials(f, n))) == Const(Total(f, n))
  {
    var input: seq<Vec> := seq(WARPS, w requires 0 <= w < WARPS => SumLanes(f, n, w));
    forall w | 0 <= w < WARPS ensures LanesStride(Add, 0.0, f, n, w, input[w]) {}
    BlockAccumulates(BlockSum(), 0.0, f, n, input);
    assert Partials(BlockSum(), input) == SumPartials(f, n);
  }

  lemma {:induction false} HeadEpoch(code: seq<Code>, s0: Block, e: nat, src: Buf, n: nat, x: int -> real)
    returns (p: seq<real>)
    requires EightWarps(code, s0) && e < |code[0]| && InEpochAll(code, e, HeadOf(src, n)) && HasRow(src, n, s0.mem)
    requires RowIs(src, n, Epochs(code, e, s0).mem, x)
    ensures Hold(Epochs(code, e + 1, s0), p) && |p| == WARPS
    ensures Butterfly(Max, Padded(BlockMax(), p)) == Const(RowMax(x, n))
    ensures Epochs(code, e + 1, s0).mem == Epochs(code, e, s0).mem
  {
    var g, g' := Epochs(code, e, s0), Epochs(code, e + 1, s0);
    p := MaxOf(src, n, g.mem, x);
    forall w | 0 <= w < WARPS ensures g'.regs[w].v[0] == p[w] && SegWrites(code[w][e]) == {} {
      assert code[w][e] == Head(src, n, w);
      EpochRegs(code, e, s0, w);
      RunHead(src, n, w, g.regs[w], g.mem);
      HeadWithin(src, n, w);
    }
    QuietEpoch(code, s0, e);
  }

  /** An epoch in which every warp writes f to the elements of a row it owns, and nothing else. */
  ghost predicate RowWritten(code: seq<Code>, s0: Block, e: nat, dst: Buf, n: nat, f: int -> real)
    requires EightWarps(code, s0) && e < |code[0]|
  {
    forall w :: 0 <= w < WARPS ==> OwnWritten(code, s0, e, dst, n, f, w)
  }

  ghost predicate OwnWritten(code: seq<Code>, s0: Block, e: nat, dst: Buf, n: nat, f: int -> real, w: nat)
    requires EightWarps(code, s0) && e < |code[0]| && w < WARPS
  {
    var g := Epochs(code, e, s0);
    && SegWrites(code[w][e]) <= OwnSet(dst, n, w)
    && Wrote(dst, n, w, 32 * w, if 32 * w < n then n else 32 * w, f, g.mem, Run(code[w][e], g.regs[w], g.mem).1)
  }

  lemma {:induction false} RowOwner(code: seq<Code>, s0: Block, e: nat, dst: Buf, n: nat, f: int -> real, u: nat,
      z: nat)
    requires EightWarps(code, s0) && e < |code[0]| && RowWritten(code, s0, e, dst, n, f)
    requires u < n && z < WARPS && !Owner(z, u)
    ensures CellAt(dst, u) !in SegWrites(code[z][e])
  {
    hide Disciplined, Wrote;
    assert OwnWritten(code, s0, e, dst, n, f, z);
  }

  lemma {:induction false} RowCell(code: seq<Code>, s0: Block, e: nat, dst: Buf, n: nat, f: int -> real, u: nat)
    requires EightWarps(code, s0) && e < |code[0]| && HasRow(dst, n, s0.mem) && RowWritten(code, s0, e, dst, n, f)
      && u < n
    ensures CellAt(dst, u) in Epochs(code, e + 1, s0).mem && Epochs(code, e + 1, s0).mem[CellAt(dst, u)] == f(u)
  {
    hide Disciplined, Epochs, Run;
    var w := (u % 256) / 32;
    assert 32 * w <= u && Owner(w, u);
    forall z | 0 <= z < WARPS && z != w ensures CellAt(dst, u) !in SegWrites(code[z][e]) {
      RowOwner(code, s0, e, dst, n, f, u, z);
    }
    EpochOwner(code, e, s0, w, CellAt(dst, u));
    assert OwnWritten(code, s0, e, dst, n, f, w);
  }

  lemma {:induction false} RowEpoch(code: seq<Code>, s0: Block, e: nat, dst: Buf, n: nat, f: int -> real)
    requires EightWarps(code, s0) && e < |code[0]| && HasRow(dst, n, s0.mem) && RowWritten(code, s0, e, dst, n, f)
    ensures RowIs(dst, n, Epochs(code, e + 1, s0).mem, f)
    ensures SameExcept(Epochs(code, e, s0).mem, Epochs(code, e + 1, s0).mem, RowSet(dst, n))
  {
    var g, g' := Epochs(code, e, s0), Epochs(code, e + 1, s0);
    forall u | 0 <= u < n ensures CellAt(dst, u) in g'.mem && g'.mem[CellAt(dst, u)] == f(u) {
      RowCell(code, s0, e, dst, n, f, u);
    }
    forall c | c in g.mem && c !in RowSet(dst, n) ensures g.mem[c] == g'.mem[c] {
      forall w | 0 <= w < WARPS ensures c !in SegWrites(code[w][e]) {
        assert OwnWritten(code, s0, e, dst, n, f, w);
        OwnInRow(dst, n, w);
      }
      EpochKeeps(code, e, s0, c);
    }
  }

  lemma {:induction false} MiddleEpoch(code: seq<Code>, s0: Block, e: nat, exp: real -> real, src: Buf, dst: Buf,
      n: nat, x: int -> real, q: seq<real>, m: real)
    returns (p: seq<real>)
    requires EightWarps(code, s0) && e < |code[0]| && InEpochAll(code, e, MiddleOf(exp, src, dst, n))
    requires Compatible(src, dst) && HasRow(src, n, s0.mem) && HasRow(dst, n, s0.mem)
    requires RowIs(src, n, Epochs(code, e, s0).mem, x)
    requires |q| == WARPS && Published(Epochs(code, e, s0).mem, q) && Butterfly(Max, Padded(BlockMax(), q)) == Const(m)
    ensures Hold(Epochs(code, e + 1, s0), p) && |p| == WARPS
    ensures Butterfly(Add, Padded(BlockSum(), p)) == Const(Total(ExpTerm(exp, x, m), n))
    ensures RowIs(dst, n, Epochs(code, e + 1, s0).mem, ExpTerm(exp, x, m))
    ensures SameExcept(Epochs(code, e, s0).mem, Epochs(code, e + 1, s0).mem, RowSet(dst, n))
  {
    var g, g' := Epochs(code, e, s0), Epochs(code, e + 1, s0);
    var f := ExpTerm(exp, RowOf(src, g.mem), m);
    p := SumOf(exp, src, n, g.mem, x, m);
    ExpTermOf(exp, src, n, g.mem, x, m);
    EightCodes(code, s0, e);
    hide *;
    forall w: nat | w < WARPS ensures OwnWritten(code, s0, e, dst, n, f, w) && g'.regs[w].v[0] == p[w] {
      MiddleWarp(code, s0, e, exp, src, dst, n, q, m, w);
    }
    AllWritten(code, s0, e, dst, n, f);
    AllHold(g', p);
    RowEpoch(code, s0, e, dst, n, f);
    RowIsCongruence(dst, n, g'.mem, f, ExpTerm(exp, x, m));
  }

  lemma {:induction false} AllWritten(code: seq<Code>, s0: Block, e: nat, dst: Buf, n: nat, f: int -> real)
    requires EightWarps(code, s0) && e < |code[0]|
    requires forall w: nat :: w < WARPS ==> OwnWritten(code, s0, e, dst, n, f, w)
    ensures RowWritten(code, s0, e, dst, n, f)
  {
    hide OwnWritten, EightWarps;
  }

  lemma {:induction false} AllHold(g: Global, p: seq<real>)
    requires |p| == |g.regs| == WARPS && forall w: nat :: w < WARPS ==> g.regs[w].v[0] == p[w]
    ensures Hold(g, p)
  {}

  /** What the middle epoch does to one warp. */
  lemma {:induction false} MiddleWarp(code: seq<Code>, s0: Block, e: nat, exp: real -> real, src: Buf, dst: Buf, n: nat,
      q: seq<real>, m: real, w: nat)
    requires EightWarps(code, s0) && e < |code[0]| && InEpochAll(code, e, MiddleOf(exp, src, dst, n)) && w < WARPS
    requires Compatible(src, dst) && HasRow(src, n, s0.mem) && HasRow(dst, n, s0.mem)
    requires |q| == WARPS && Published(Epochs(code, e, s0).mem, q) && Butterfly(Max, Padded(BlockMax(), q)) == Const(m)
    ensures var f := ExpTerm(exp, RowOf(src, Epochs(code, e, s0).mem), m);
      && OwnWritten(code, s0, e, dst, n, f, w)
      && Epochs(code, e + 1, s0).regs[w].v[0] == SumPartials(f, n)[w]
  {
    var g := Epochs(code, e, s0);
    EightCodes(code, s0, e);
    MiddleCode(code, e, exp, src, dst, n, w);
    RowThere(src, n, s0.mem, g.mem);
    RowThere(dst, n, s0.mem, g.mem);
    hide *;
    MiddleWithin(exp, src, dst, n, w);
    EpochRegs(code, e, s0, w);
    RunMiddle(exp, src, dst, n, w, q, m, g.regs[w], g.mem);
    MiddleSum(exp, src, n, g.mem, m, w);
    OwnWrote(code, s0, e, OwnSet(src, n, w) + ScratchCells(), dst, n, ExpTerm(exp, RowOf(src, g.mem), m), w);
  }

  lemma {:induction false} MiddleCode(code: seq<Code>, e: nat, exp: real -> real, src: Buf, dst: Buf, n: nat, w: nat)
    requires InEpochAll(code, e, MiddleOf(exp, src, dst, n)) && w < WARPS
    ensures |code| == WARPS && e < |code[w]| && code[w][e] == Middle(exp, src, dst, n, w)
  {
    hide Middle;
  }

  lemma {:induction false} RowThere(b: Buf, n: nat, m: Mem, m': Mem)
    requires HasRow(b, n, m) && m.Keys == m'.Keys
    ensures HasRow(b, n, m')
  {}

  lemma {:induction false} MiddleSum(exp: real -> real, src: Buf, n: nat, mem: Mem, m: real, w: nat)
    requires w < WARPS
    ensures var f := ExpTerm(exp, RowOf(src, mem), m); SumPartials(f, n)[w] == Butterfly(Add, SumLanes(f, n, w))[0]
  {
    hide Butterfly, SumLanes, ExpTerm;
  }

  lemma {:induction false} OwnWrote(code: seq<Code>, s0: Block, e: nat, rs: set<Cell>, dst: Buf, n: nat,
      f: int -> real, w: nat)
    requires EightWarps(code, s0) && e < |code[0]| && w < WARPS && Within(code[w][e], rs, OwnSet(dst, n, w))
    requires var g := Epochs(code, e, s0);
      Wrote(dst, n, w, 32 * w, if 32 * w < n then n else 32 * w, f, g.mem, Run(code[w][e], g.regs[w], g.mem).1)
    ensures OwnWritten(code, s0, e, dst, n, f, w)
  {
    hide Wrote, OwnSet, Run;
  }

  ghost predicate SoftmaxAt(code: seq<Code>, e: nat, exp: real -> real, src: Buf, dst: Buf, n: nat) {
    && InEpochAll(code, e, HeadOf(src, n)) && InEpochAll(code, e + 1, Publish)
    && InEpochAll(code, e + 2, MiddleOf(exp, src, dst, n)) && InEpochAll(code, e + 3, Publish)
  }

  lemma {:induction false} SameTwice(a: Mem, b: Mem, c: Mem, s: set<Cell>, t: set<Cell>)
    requires SameExcept(a, b, s) && SameExcept(b, c, t)
    ensures SameExcept(a, c, s + t)
  {}

  /** Publishing partial results leaves rows alone. */
  lemma {:induction false} RowKept(b: Buf, n: nat, m0: Mem, m1: Mem, x: int -> real)
    requires RowIs(b, n, m0, x) && SameExcept(m0, m1, ScratchCells())
    ensures RowIs(b, n, m1, x)
  {
    forall t | 0 <= t < n ensures CellAt(b, t) in m1 && m1[CellAt(b, t)] == x(t) {
      assert CellAt(b, t) !in ScratchCells();
    }
  }

  lemma {:induction false} ExpTermOf(exp: real -> real, b: Buf, n: nat, mem: Mem, x: int -> real, m: real)
    requires RowIs(b, n, mem, x)
    ensures forall t :: 0 <= t < n ==> RowOf(b, mem)(t) == x(t)
    ensures forall t :: 0 <= t < n ==> ExpTerm(exp, RowOf(b, mem), m)(t) == ExpTerm(exp, x, m)(t)
  {}

  lemma {:induction false} RowIsCongruence(b: Buf, n: nat, mem: Mem, f: int -> real, g: int -> real)
    requires RowIs(b, n, mem, f) && forall t :: 0 <= t < n ==> f(t) == g(t)
    ensures RowIs(b, n, mem, g)
  {}

  lemma {:induction false} MaxOf(src: Buf, n: nat, mem: Mem, x: int -> real) returns (p: seq<real>)
    requires RowIs(src, n, mem, x)
    ensures p == MaxPartials(RowOf(src, mem), n) && |p| == WARPS
    ensures Butterfly(Max, Padded(BlockMax(), p)) == Const(RowMax(x, n))
  {
    var x0 := RowOf(src, mem);
    p := MaxPartials(x0, n);
    MaxTotal(x0, n);
    AccumulateCongruence(Max, LOWEST, x0, x, n);
  }

  lemma {:induction false} SumOf(exp: real -> real, src: Buf, n: nat, mem: Mem, x: int -> real, m: real)
      returns (p: seq<real>)
    requires RowIs(src, n, mem, x)
    ensures p == SumPartials(ExpTerm(exp, RowOf(src, mem), m), n) && |p| == WARPS
    ensures Butterfly(Add, Padded(BlockSum(), p)) == Const(Total(ExpTerm(exp, x, m), n))
  {
    var f := ExpTerm(exp, RowOf(src, mem), m);
    p := SumPartials(f, n);
    SumTotal(f, n);
    ExpTermOf(exp, src, n, mem, x, m);
    AccumulateCongruence(Add, 0.0, f, ExpTerm(exp, x, m), n);
  }

  /** The first two epochs: every warp can read the row's maximum. */
  lemma {:induction false} MaxEpochs(code: seq<Code>, s0: Block, e: nat, src: Buf, n: nat, x: int -> real)
    returns (p: seq<real>)
    requires EightWarps(code, s0) && e + 1 < |code[0]| && HasRow(src, n, s0.mem)
    requires InEpochAll(code, e, HeadOf(src, n)) && InEpochAll(code, e + 1, Publish)
    requires RowIs(src, n, Epochs(code, e, s0).mem, x)
    ensures |p| == WARPS && Published(Epochs(code, e + 2, s0).mem, p)
    ensures Butterfly(Max, Padded(BlockMax(), p)) == Const(RowMax(x, n))
    ensures SameExcept(Epochs(code, e, s0).mem, Epochs(code, e + 2, s0).mem, ScratchCells())
    ensures RowIs(src, n, Epochs(code, e + 2, s0).mem, x)
  {
    CodeLengths(code, s0, e + 2);
    hide *;
    p := HeadEpoch(code, s0, e, src, n, x);
    PublishEpoch(code, s0, e + 1, p);
    PublishKeepsRow(code, s0, e + 1, src, n, x);
  }

  lemma {:induction false} PublishKeepsRow(code: seq<Code>, s0: Block, e: nat, b: Buf, n: nat, x: int -> real)
    requires |code| == |s0.warps| && forall w :: 0 <= w < |code| ==> e < |code[w]|
    requires RowIs(b, n, Epochs(code, e, s0).mem, x)
    requires SameExcept(Epochs(code, e, s0).mem, Epochs(code, e + 1, s0).mem, ScratchCells())
    ensures RowIs(b, n, Epochs(code, e + 1, s0).mem, x)
  {
    RowKept(b, n, Epochs(code, e, s0).mem, Epochs(code, e + 1, s0).mem, x);
  }

  lemma {:induction false} TwoEpochs(code: seq<Code>, s0: Block, e: nat, f: nat, g: nat, s: set<Cell>, t: set<Cell>,
      u: set<Cell>)
    requires |code| == |s0.warps| && forall w :: 0 <= w < |code| ==> e <= |code[w]| && f <= |code[w]| && g <= |code[w]|
    requires SameExcept(Epochs(code, e, s0).mem, Epochs(code, f, s0).mem, s)
    requires SameExcept(Epochs(code, f, s0).mem, Epochs(code, g, s0).mem, t)
    requires s + t <= u
    ensures SameExcept(Epochs(code, e, s0).mem, Epochs(code, g, s0).mem, u)
  {
    SameTwice(Epochs(code, e, s0).mem, Epochs(code, f, s0).mem, Epochs(code, g, s0).mem, s, t);
  }

  /** The last two: dst holds the exponentials and every warp can read their total. */
  lemma {:induction false} SumEpochs(code: seq<Code>, s0: Block, e: nat, exp: real -> real, src: Buf, dst: Buf, n: nat,
      x: int -> real, q: seq<real>, m: real)
    returns (p: seq<real>)
    requires EightWarps(code, s0) && e + 1 < |code[0]| && Compatible(src, dst) && HasRow(src, n, s0.mem)
      && HasRow(dst, n, s0.mem)
    requires InEpochAll(code, e, MiddleOf(exp, src, dst, n)) && InEpochAll(code, e + 1, Publish)
    requires RowIs(src, n, Epochs(code, e, s0).mem, x)
    requires |q| == WARPS && Published(Epochs(code, e, s0).mem, q) && Butterfly(Max, Padded(BlockMax(), q)) == Const(m)
    ensures |p| == WARPS && Published(Epochs(code, e + 2, s0).mem, p)
    ensures Butterfly(Add, Padded(BlockSum(), p)) == Const(Total(ExpTerm(exp, x, m), n))
    ensures RowIs(dst, n, Epochs(code, e + 2, s0).mem, ExpTerm(exp, x, m))
    ensures SameExcept(Epochs(code, e, s0).mem, Epochs(code, e + 2, s0).mem, RowSet(dst, n) + ScratchCells())
  {
    CodeLengths(code, s0, e + 2);
    hide *;
    p := MiddleEpoch(code, s0, e, exp, src, dst, n, x, q, m);
    PublishEpoch(code, s0, e + 1, p);
    PublishKeepsRow(code, s0, e + 1, dst, n, ExpTerm(exp, x, m));
    TwoEpochs(code, s0, e, e + 1, e + 2, RowSet(dst, n), ScratchCells(), RowSet(dst, n) + ScratchCells());
  }

  lemma {:induction false} CodeLengths(code: seq<Code>, s0: Block, e: nat)
    requires EightWarps(code, s0) && e <= |code[0]|
    ensures |code| == |s0.warps| && forall w :: 0 <= w < |code| ==> e <= |code[w]|
  {}

  /** After the four epochs dst holds the exponentials of src, shifted by its maximum, and
      the scratch holds partial results of their total. */
  lemma {:induction false} FourEpochs(code: seq<Code>, s0: Block, e: nat, exp: real -> real, src: Buf, dst: Buf,
      n: nat, x: int -> real)
    returns (p: seq<real>)
    requires EightWarps(code, s0) && e + 3 < |code[0]| && SoftmaxAt(code, e, exp, src, dst, n)
    requires Compatible(src, dst) && HasRow(dst, n, s0.mem) && HasRow(src, n, s0.mem)
    requires RowIs(src, n, Epochs(code, e, s0).mem, x)
    ensures |p| == WARPS && Published(Epochs(code, e + 4, s0).mem, p)
    ensures Butterfly(Add, Padded(BlockSum(), p)) == Const(Total(ExpTerm(exp, x, RowMax(x, n)), n))
    ensures RowIs(dst, n, Epochs(code, e + 4, s0).mem, ExpTerm(exp, x, RowMax(x, n)))
    ensures SameExcept(Epochs(code, e, s0).mem, Epochs(code, e + 4, s0).mem, RowSet(dst, n) + ScratchCells())
  {
    CodeLengths(code, s0, e + 4);
    assert InEpochAll(code, e, HeadOf(src, n)) && InEpochAll(code, e + 1, Publish);
    assert InEpochAll(code, e + 2, MiddleOf(exp, src, dst, n)) && InEpochAll(code, e + 3, Publish);
    hide *;
    var q := MaxEpochs(code, s0, e, src, n, x);
    p := SumEpochs(code, s0, e + 2, exp, src, dst, n, x, q, RowMax(x, n));
    TwoEpochs(code, s0, e, e + 2, e + 4, ScratchCells(), RowSet(dst, n) + ScratchCells(), RowSet(dst, n)
      + ScratchCells());
  }
}
