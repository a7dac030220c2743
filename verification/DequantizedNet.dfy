/** The network a quantized file describes: matrices and embedding are the decoded tables, norms
    and rotation those of the kernels. Its steps are what the CPU backend and the GPU kernels
    compute, and so are the logits of Forward. */
module DequantizedNet {
  import opened BlockMachine
  import opened Quant
  import opened QuantHost
  import opened RowCode
  import opened SoftmaxSpec
  import opened Transformer
  import opened Folds
  import Cpu
  import Decoder
  import QuantKernels
  import RmsKernel
  import RopeCpu
  import RopeKernel
  import RopeSpec

  /** A quantized tensor: its rows are as long as the vector they are multiplied with. */
  datatype Table = Table(f: Format, data: seq<bv8>)

  datatype Weights = Weights(half: Half, embd: Table, mats: MatId -> Table, norms: NormId -> int -> real,
    eps: real, rsqrt: real -> real, sqrt: real -> real, rope: RopeSpec.Rope, exp: real -> real)

  function NormOf(w: Weights, id: NormId): RmsKernel.Norm { RmsKernel.Norm(w.norms(id), w.eps, w.rsqrt) }

  /** Element i of row r of a table with n columns. */
  function TableElem(w: Weights, t: Table, n: nat, r: int, i: int): real {
    RowElem(t.f, w.half, At(t.data), r * RowBytes(t.f, n), i)
  }

  /** Row r of a table times v. */
  function TableDot(w: Weights, t: Table, v: Vector, r: int): real {
    RowDot(t.f, w.half, At(t.data), r * RowBytes(t.f, |v|), |v|, Floats(v), 0)
  }

  function NetOf(c: Config, w: Weights): Net {
    Net((token: int, i: int) => TableElem(w, w.embd, c.dim, token, i),
        (id: NormId, v: Vector, i: int) => RmsKernel.RmsNormed(NormOf(w, id), Floats(v), |v|)(i),
        (id: MatId, v: Vector, i: int) => TableDot(w, w.mats(id), v, i),
        (heads: nat, p: int, v: Vector, i: int) => RopeSpec.Rotated(w.rope, p, Floats(v))(i),
        (gate: real, up: real) => Mul(Cpu.Silu(w.exp, gate), up), w.exp, Recip(w.sqrt(c.headDim as real)))
  }

  /** The table has rows rows of n whole blocks each. */
  predicate Holds(t: Table, rows: nat, n: nat) { n % BlockSize(t.f) == 0 && rows * RowBytes(t.f, n) <= |t.data| }

  // ---- the CPU backend computes the steps of this network

  method Embedding(c: Config, w: Weights, token: nat, out: array<real>)
    requires Holds(w.embd, token + 1, c.dim) && out.Length == c.dim
    modifies out
    ensures out[..] == Embed(c, NetOf(c, w), token)
  {
    hide RowElem;
    var res := QuantHost.Row(w.embd.f, w.half, w.embd.data, c.dim, token, out);
    assert res.Ok?;
  }

  method MatVec(c: Config, w: Weights, id: MatId, x: seq<real>, y: array<real>)
    requires Holds(w.mats(id), y.Length, |x|)
    modifies y
    ensures y[..] == Mat(NetOf(c, w), id, y.Length, x)
  {
    hide RowDot, RowBytes;
    var t := w.mats(id);
    var res := MatVecQ(t.f, w.half, t.data, x, y, y.Length, |x|, 1);
    RowsAreMat(c, w, id, x, y[..]);
  }

  lemma {:induction false} RowsAreMat(c: Config, w: Weights, id: MatId, x: seq<real>, y: seq<real>)
    requires forall b, r :: 0 <= b < 1 && 0 <= r < |y| ==>
      Multiplied(w.mats(id).f, w.half, w.mats(id).data, x, y, |y|, |x|, b, r)
    ensures y == Mat(NetOf(c, w), id, |y|, x)
  {
    hide RowDot, RowBytes;
    var t := w.mats(id);
    forall r | 0 <= r < |y| ensures y[r] == TableDot(w, t, x, r) {
      assert Multiplied(t.f, w.half, t.data, x, y, |y|, |x|, 0, r);
      assert Place(0, |y|, r) == r && Place(0, |x|, 0) == 0;
    }
  }

  method Normalise(c: Config, w: Weights, id: NormId, x: array<real>, out: array<real>)
    requires x.Length == out.Length == c.dim
    modifies out
    ensures out[..] == Norm(c, NetOf(c, w), id, old(x[..]))
  {
    ghost var v := x[..];
    Cpu.RMSNorm(NormOf(w, id), x, out, 1, c.dim);
    WholeRow(v, c.dim);
    WholeRow(out[..], c.dim);
    hide RmsKernel.RmsNormed;
    assert Cpu.RowAt(out[..], 0, c.dim) == Cpu.RmsOf(NormOf(w, id), Cpu.RowAt(v, 0, c.dim));
  }

  lemma {:induction false} WholeRow(s: seq<real>, n: nat)
    requires |s| == n
    ensures Cpu.RowAt(s, 0, n) == s
  {}

  method Rotate(c: Config, w: Weights, heads: nat, p: int, x: array<real>)
    requires w.rope.headDim == c.headDim && x.Length == heads * c.headDim
    modifies x
    ensures x[..] == Rope(NetOf(c, w), heads, p, old(x[..]))
  {
    ghost var v := x[..];
    var pos := new int[1](_ => p);
    RopeCpu.Rope(w.rope, x, pos, 1, heads);
    TurnedIs(c, w, heads, pos[..], v, x[..]);
  }

  lemma {:induction false} TurnedIs(c: Config, w: Weights, heads: nat, pos: seq<int>, v: seq<real>, x: seq<real>)
    requires |x| == |v| == heads * w.rope.headDim && |pos| == 1
    requires RopeCpu.RowTurned(w.rope, pos, v, x, |v|, 0)
    ensures x == Rope(NetOf(c, w), heads, pos[0], v)
  {
    hide RopeSpec.Rotated;
    forall i | 0 <= i < |v| ensures x[i] == RopeSpec.Rotated(w.rope, pos[0], Floats(v))(i) {
      assert x[0 * |v| + i] == RopeSpec.Rotated(w.rope, pos[0], RopeCpu.RowAt(v, 0, |v|))(i);
      RopeCpu.RotatedCongruence(w.rope, pos[0], RopeCpu.RowAt(v, 0, |v|), Floats(v), i, heads);
    }
  }

  method Activate(c: Config, w: Weights, gate: array<real>, up: array<real>, act: array<real>)
    requires ExpLike(w.exp) && gate.Length == up.Length == act.Length
    modifies act
    ensures act[..] == SiluMul(NetOf(c, w), old(gate[..]), old(up[..]))
  {
    ghost var g, u := gate[..], up[..];
    Cpu.SiluMul(w.exp, gate, up, act);
    hide Cpu.Silu, Mul;
    assert act[..] == SiluMul(NetOf(c, w), g, u);
  }

  /** The activation is g / (1 + e^-g) * u, and the square of the attention scale is one over headDim. */
  lemma {:induction false} ActivationAndScale(c: Config, w: Weights, g: real, u: real)
    requires ExpLike(w.exp)
    ensures NetOf(c, w).silu(g, u) * (1.0 + w.exp(-g)) == g * u
    ensures var root := w.sqrt(c.headDim as real);
      c.headDim > 0 && root * root == c.headDim as real ==>
        NetOf(c, w).scale * NetOf(c, w).scale * c.headDim as real == 1.0
  {
    Cpu.SiluIs(w.exp, g);
    TimesUp(Cpu.Silu(w.exp, g), u, 1.0 + w.exp(-g), g);
    var root := w.sqrt(c.headDim as real);
    if c.headDim > 0 && root * root == c.headDim as real { SquareOfReciprocal(root, c.headDim as real); }
  }

  lemma {:induction false} TimesUp(s: real, u: real, d: real, g: real)
    requires s * d == g
    ensures Mul(s, u) * d == g * u
  {}

  lemma {:induction false} SquareOfReciprocal(root: real, n: real)
    requires root * root == n && n > 0.0
    ensures Recip(root) * Recip(root) * n == 1.0
  {
    assert root != 0.0 && (1.0 / root) * root == 1.0;
  }

  // ---- and so do the kernels

  /** gpu.MatVecQ for one vector, whatever order the warps run in. */
  method LaunchMat(c: Config, w: Weights, id: MatId, x: seq<real>, y: array<real>, order: seq<QuantKernels.WarpId>)
    requires Holds(w.mats(id), y.Length, |x|) && QuantKernels.IsLaunch(order, y.Length, 1)
    modifies y
    ensures y[..] == Mat(NetOf(c, w), id, y.Length, x)
  {
    hide RowDot, RowBytes, QuantKernels.IsLaunch;
    var t := w.mats(id);
    QuantKernels.Launch(t.f, w.half, t.data, x, y, y.Length, |x|, 1, order);
    RowsAreMat(c, w, id, x, y[..]);
  }

  /** The norm's kernel: whatever the schedule, the row ends as this network's norm of it. */
  lemma {:induction false} KernelNormalises(c: Config, w: Weights, id: NormId, src: Buf, dst: Buf, s0: Block,
      run: seq<Block>, acts: seq<Act>, v: Vector, t: nat)
    requires Compatible(src, dst) && |v| == c.dim && t < c.dim && Holding(src, s0.mem, v)
    requires RmsKernel.Launched(NormOf(w, id), src, dst, c.dim, s0)
    requires IsRun(RmsKernel.RmsBlock(NormOf(w, id), src, dst, c.dim), s0, run, acts)
    requires Finished(RmsKernel.RmsBlock(NormOf(w, id), src, dst, c.dim), run[|acts|])
    ensures CellAt(dst, t) in run[|acts|].mem
    ensures run[|acts|].mem[CellAt(dst, t)] == Norm(c, NetOf(c, w), id, v)[t]
  {
    RmsKernel.EveryScheduleNormalises(NormOf(w, id), src, dst, c.dim, s0, run, acts, t);
    hide IsRun, Finished, RmsKernel.Launched, RmsKernel.RmsBlock;
    SameNorm(NormOf(w, id), RowOf(src, s0.mem), Floats(v), c.dim, t);
  }

  /** The row in buffer b is v. */
  ghost predicate Holding(b: Buf, mem: Mem, v: Vector) { forall i :: 0 <= i < |v| ==> RowOf(b, mem)(i) == v[i] }

  lemma {:induction false} SameNorm(k: RmsKernel.Norm, x: int -> real, y: int -> real, n: nat, t: nat)
    requires t < n && forall i :: 0 <= i < n ==> x(i) == y(i)
    ensures RmsKernel.RmsNormed(k, x, n)(t) == RmsKernel.RmsNormed(k, y, n)(t)
  {
    TotalCongruence(Squares(x), Squares(y), n);
    hide Total;
  }

  lemma {:induction false} KernelRotates(c: Config, w: Weights, heads: nat, p: int, s0: Block,
      run: seq<Block>, acts: seq<Act>, v: Vector, i: nat)
    requires |v| == heads * w.rope.headDim && i < |v| && Holding(Input, s0.mem, v)
    requires var k := RopeKernel.Row(w.rope, p, heads);
      && RopeKernel.Launched(k, s0) && IsRun(RopeKernel.RopeBlock(k), s0, run, acts)
      && Finished(RopeKernel.RopeBlock(k), run[|acts|])
    ensures X(i) in run[|acts|].mem && run[|acts|].mem[X(i)] == Rope(NetOf(c, w), heads, p, v)[i]
  {
    RopeKernel.EveryScheduleRotates(RopeKernel.Row(w.rope, p, heads), s0, run, acts, i);
    RopeCpu.RotatedCongruence(w.rope, p, RowOf(Input, s0.mem), Floats(v), i, heads);
    hide IsRun, Finished, RopeKernel.Launched, RopeKernel.RopeBlock, RopeSpec.Rotated;
  }

  // ---- Forward over this network

  /** A new model that is given tokens one by one ends with the logits of the decoded weights. */
  method Prefill(c: Config, w: Weights, tokens: seq<int>) returns (m: Decoder.Model, r: Decoder.Outcome)
    requires c.Valid() && |tokens| > 0
    ensures m.Valid() && m.c == c && m.net == NetOf(c, w)
    ensures r == Decoder.Ok ==> m.CacheHolds(tokens) && m.hostLogits[..] == Logits(c, NetOf(c, w), tokens)
  {
    hide NetOf, Logits;
    m := new Decoder.Model(c, NetOf(c, w));
    m.EmptyHistory();
    for i := 0 to |tokens|
      invariant m.CacheHolds(tokens[..i]) && (i > 0 ==> m.hostLogits[..] == Logits(c, m.net, tokens[..i]))
    {
      r := Decoder.ForwardNext(m, tokens[i], i, tokens[..i]);
      if r != Decoder.Ok { return; }
      assert tokens[..i] + [tokens[i]] == tokens[..i + 1];
    }
    assert tokens[..|tokens|] == tokens;
    return m, Decoder.Ok;
  }
}
