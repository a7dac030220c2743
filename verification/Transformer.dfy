/** A causal transformer without a cache: every layer is computed for every position
    of the whole token sequence. The weights, norms and activations are abstract;
    attention is the one of AttnKernel. */
module Transformer {
  import Cpu
  import AttnKernel
  import AttnCode
  import SoftmaxSpec

  type Vector = seq<real>

  datatype Config = Config(layers: nat, dim: nat, ffn: nat, heads: nat, kvHeads: nat, headDim: nat, vocab: nat,
      maxLen: nat) {
    /** What ConfigFrom checks before a model is loaded. */
    predicate Valid() { kvHeads > 0 && heads % kvHeads == 0 }

    function KvDim(): nat { kvHeads * headDim }

    function QDim(): nat { heads * headDim }
  }

  datatype NormId = AttnNorm(l: nat) | FfnNorm(l: nat) | OutNorm

  datatype MatId = Wq(l: nat) | Wk(l: nat) | Wv(l: nat) | Wo(l: nat) | Gate(l: nat) | Up(l: nat) | Down(l: nat) | Head

  /** The weights as functions: element i of each kernel's result. */
  datatype Net = Net(
    embed: (int, int) -> real,                  // token, i
    norm: (NormId, Vector, int) -> real,
    mat: (MatId, Vector, int) -> real,
    rope: (nat, int, Vector, int) -> real,      // heads, position, vector, i
    silu: (real, real) -> real,
    exp: real -> real,
    scale: real)

  // ---- one kernel call each

  function Embed(c: Config, net: Net, token: int): Vector { seq(c.dim, i => net.embed(token, i)) }

  function Norm(c: Config, net: Net, id: NormId, v: Vector): Vector { seq(c.dim, i => net.norm(id, v, i)) }

  function Mat(net: Net, id: MatId, rows: nat, v: Vector): Vector { seq(rows, i => net.mat(id, v, i)) }

  function Rope(net: Net, heads: nat, pos: int, v: Vector): Vector { seq(|v|, i => net.rope(heads, pos, v, i)) }

  function AddVec(a: Vector, b: Vector): Vector
    requires |a| <= |b|
  {
    seq(|a|, i requires 0 <= i < |a| => a[i] + b[i])
  }

  function SiluMul(net: Net, gate: Vector, up: Vector): Vector
    requires |gate| <= |up|
  {
    seq(|gate|, i requires 0 <= i < |gate| => net.silu(gate[i], up[i]))
  }

  /** AttnDecode of q over the first n rows of the caches k and v. */
  function Attend(c: Config, net: Net, q: Vector, k: Vector, v: Vector, n: nat): Vector
    requires c.Valid()
  {
    if c.headDim == 0 then [] else
      var a := Cpu.ArgsOf(q, k, v, n, c.heads, c.kvHeads, c.headDim, net.scale, net.exp);
      seq(c.QDim(), i => AttnKernel.Attention(a, if i < 0 then 0 else i / c.headDim, i % c.headDim))
  }

  // ---- one layer for one position

  function Normed(c: Config, net: Net, l: nat, x: Vector): Vector { Norm(c, net, AttnNorm(l), x) }

  function Query(c: Config, net: Net, l: nat, pos: nat, x: Vector): Vector {
    Rope(net, c.heads, pos, Mat(net, Wq(l), c.QDim(), Normed(c, net, l, x)))
  }

  function Key(c: Config, net: Net, l: nat, pos: nat, x: Vector): Vector {
    Rope(net, c.kvHeads, pos, Mat(net, Wk(l), c.KvDim(), Normed(c, net, l, x)))
  }

  function Value(c: Config, net: Net, l: nat, x: Vector): Vector {
    Mat(net, Wv(l), c.KvDim(), Normed(c, net, l, x))
  }

  /** The feed-forward half of a layer. */
  function FeedForward(c: Config, net: Net, l: nat, x: Vector): Vector
    requires |x| == c.dim
  {
    var xn := Norm(c, net, FfnNorm(l), x);
    var act := SiluMul(net, Mat(net, Gate(l), c.ffn, xn), Mat(net, Up(l), c.ffn, xn));
    AddVec(x, Mat(net, Down(l), c.dim, act))
  }

  /** The attention half, given the keys and values of all positions up to this one. */
  function Attention(c: Config, net: Net, l: nat, pos: nat, x: Vector, k: Vector, v: Vector): Vector
    requires c.Valid() && |x| == c.dim
  {
    var attn := Attend(c, net, Query(c, net, l, pos, x), k, v, pos + 1);
    AddVec(x, Mat(net, Wo(l), c.dim, attn))
  }

  // ---- all positions at once

  function Flat(rows: seq<Vector>): Vector {
    if rows == [] then [] else Flat(rows[..|rows| - 1]) + rows[|rows| - 1]
  }

  function Keys(c: Config, net: Net, l: nat, h: seq<Vector>): seq<Vector> {
    seq(|h|, i requires 0 <= i < |h| => Key(c, net, l, i, h[i]))
  }

  function Values(c: Config, net: Net, l: nat, h: seq<Vector>): seq<Vector> {
    seq(|h|, i requires 0 <= i < |h| => Value(c, net, l, h[i]))
  }

  predicate Sized(h: seq<Vector>, n: nat) { forall i :: 0 <= i < |h| ==> |h[i]| == n }

  /** Position i attends to positions 0..i. */
  function LayerAt(c: Config, net: Net, l: nat, h: seq<Vector>, i: nat): (r: Vector)
    requires c.Valid() && Sized(h, c.dim) && i < |h|
    ensures |r| == c.dim
  {
    var k, v := Flat(Keys(c, net, l, h)[..i + 1]), Flat(Values(c, net, l, h)[..i + 1]);
    FeedForward(c, net, l, Attention(c, net, l, i, h[i], k, v))
  }

  /** The hidden state of every position before layer l. */
  function Hidden(c: Config, net: Net, l: nat, tokens: seq<int>): (h: seq<Vector>)
    requires c.Valid()
    ensures |h| == |tokens| && Sized(h, c.dim)
  {
    if l == 0 then seq(|tokens|, i requires 0 <= i < |tokens| => Embed(c, net, tokens[i]))
    else
      var h := Hidden(c, net, l - 1, tokens);
      seq(|tokens|, i requires 0 <= i < |tokens| => LayerAt(c, net, l - 1, h, i))
  }

  /** The logits after the last token. */
  function Logits(c: Config, net: Net, tokens: seq<int>): Vector
    requires c.Valid() && |tokens| > 0
  {
    Mat(net, Head, c.vocab, Norm(c, net, OutNorm, Hidden(c, net, c.layers, tokens)[|tokens| - 1]))
  }

  /** What the key cache of layer l should hold after tokens. */
  function KeyRows(c: Config, net: Net, l: nat, tokens: seq<int>): seq<Vector>
    requires c.Valid()
  {
    Keys(c, net, l, Hidden(c, net, l, tokens))
  }

  function ValueRows(c: Config, net: Net, l: nat, tokens: seq<int>): seq<Vector>
    requires c.Valid()
  {
    Values(c, net, l, Hidden(c, net, l, tokens))
  }

  // ---- causality

  lemma {:induction false} LayerAtPrefix(c: Config, net: Net, l: nat, h: seq<Vector>, n: nat, i: nat)
    requires c.Valid() && Sized(h, c.dim) && i < n <= |h|
    ensures LayerAt(c, net, l, h[..n], i) == LayerAt(c, net, l, h, i)
  {
    assert Keys(c, net, l, h[..n])[..i + 1] == Keys(c, net, l, h)[..i + 1];
    assert Values(c, net, l, h[..n])[..i + 1] == Values(c, net, l, h)[..i + 1];
  }

  /** What happens at a position does not depend on later tokens. */
  lemma {:induction false} Causal(c: Config, net: Net, l: nat, tokens: seq<int>, n: nat)
    requires c.Valid() && n <= |tokens|
    ensures Hidden(c, net, l, tokens[..n]) == Hidden(c, net, l, tokens)[..n]
  {
    hide LayerAt, Embed;
    if l > 0 {
      Causal(c, net, l - 1, tokens, n);
      var h := Hidden(c, net, l - 1, tokens);
      forall i | 0 <= i < n ensures Hidden(c, net, l, tokens[..n])[i] == Hidden(c, net, l, tokens)[i] {
        LayerAtPrefix(c, net, l - 1, h, n, i);
      }
    }
  }

  lemma {:induction false} RowsCausal(c: Config, net: Net, l: nat, tokens: seq<int>, n: nat)
    requires c.Valid() && n <= |tokens|
    ensures KeyRows(c, net, l, tokens[..n]) == KeyRows(c, net, l, tokens)[..n]
    ensures ValueRows(c, net, l, tokens[..n]) == ValueRows(c, net, l, tokens)[..n]
  {
    Causal(c, net, l, tokens, n);
  }

  // ---- rows of the caches

  lemma {:induction false} FlatLength(rows: seq<Vector>, m: nat)
    requires Sized(rows, m)
    ensures |Flat(rows)| == |rows| * m
  {
    if rows != [] {
      FlatLength(rows[..|rows| - 1], m);
      assert |rows| * m == (|rows| - 1) * m + m;
    }
  }

  lemma {:induction false} FlatNext(rows: seq<Vector>, n: nat)
    requires n < |rows|
    ensures Flat(rows[..n + 1]) == Flat(rows[..n]) + rows[n]
  {
    assert rows[..n + 1][..n] == rows[..n];
  }

  lemma {:induction false} FlatPrefix(rows: seq<Vector>, n: nat, m: nat)
    requires Sized(rows, m) && n <= |rows|
    ensures |Flat(rows)| == |rows| * m && n * m <= |rows| * m && Flat(rows)[..n * m] == Flat(rows[..n])
    decreases |rows| - n
  {
    FlatLength(rows, m);
    FlatLength(rows[..n], m);
    if n == |rows| {
      assert rows[..n] == rows;
    } else {
      FlatPrefix(rows, n + 1, m);
      FlatNext(rows, n);
      assert (n + 1) * m == n * m + m;
      assert Flat(rows)[..n * m] == Flat(rows)[..(n + 1) * m][..n * m];
    }
  }

  // ---- attention reads no further than its last row

  /** Attention over n rows is the same for caches that agree on those rows. */
  lemma {:induction false} AttendPrefix(c: Config, net: Net, q: Vector, k: Vector, v: Vector, k': Vector, v': Vector,
      n: nat)
    requires c.Valid() && n * c.KvDim() <= |k| && n * c.KvDim() <= |v| && n * c.KvDim() <= |k'| && n * c.KvDim() <= |v'|
    requires k[..n * c.KvDim()] == k'[..n * c.KvDim()] && v[..n * c.KvDim()] == v'[..n * c.KvDim()]
    ensures Attend(c, net, q, k, v, n) == Attend(c, net, q, k', v', n)
  {
    if c.headDim > 0 {
      var a := Cpu.ArgsOf(q, k, v, n, c.heads, c.kvHeads, c.headDim, net.scale, net.exp);
      var b := Cpu.ArgsOf(q, k', v', n, c.heads, c.kvHeads, c.headDim, net.scale, net.exp);
      forall i | 0 <= i < c.QDim()
        ensures AttnKernel.Attention(a, i / c.headDim, i % c.headDim)
          == AttnKernel.Attention(b, i / c.headDim, i % c.headDim)
      {
        assert i == i / c.headDim * c.headDim + i % c.headDim;
        Cpu.MulLess(i / c.headDim, c.heads, c.headDim);
        AttentionPrefix(a, b, c.heads, i / c.headDim, i % c.headDim);
      }
    }
  }

  /** Two launches that agree on everything a head may read. */
  ghost predicate SameRows(a: AttnCode.Args, b: AttnCode.Args) {
    && b == a.(k := b.k, v := b.v)
    && forall i :: 0 <= i < a.kvLen * (a.nKV * a.headDim) ==> a.k(i) == b.k(i) && a.v(i) == b.v(i)
  }

  lemma {:induction false} SameElement(a: AttnCode.Args, b: AttnCode.Args, nHeads: nat, h: nat, t: nat, d: nat)
    requires SameRows(a, b) && a.nKV > 0 && nHeads % a.nKV == 0 && a.group == nHeads / a.nKV
    requires h < nHeads && t < a.kvLen && d < a.headDim
    ensures AttnCode.KvAt(b, h, t, d) == AttnCode.KvAt(a, h, t, d)
    ensures a.k(AttnCode.KvAt(a, h, t, d)) == b.k(AttnCode.KvAt(a, h, t, d))
    ensures a.v(AttnCode.KvAt(a, h, t, d)) == b.v(AttnCode.KvAt(a, h, t, d))
  {
    Cpu.KvInside(a, nHeads, h, t, d);
  }

  lemma {:induction false} AttentionPrefix(a: AttnCode.Args, b: AttnCode.Args, nHeads: nat, h: nat, d: nat)
    requires SameRows(a, b) && a.nKV > 0 && nHeads % a.nKV == 0 && a.group == nHeads / a.nKV && h < nHeads
      && d < a.headDim
    ensures AttnKernel.Attention(a, h, d) == AttnKernel.Attention(b, h, d)
  {
    var x, y := AttnCode.ScoreOf(a, h), AttnCode.ScoreOf(b, h);
    forall t | 0 <= t < a.kvLen ensures x(t) == y(t) { ScorePrefix(a, b, nHeads, h, t); }
    SoftmaxSpec.TotalCongruence(SoftmaxSpec.Exps(a.exp, x), SoftmaxSpec.Exps(a.exp, y), a.kvLen);
    var e, f := AttnKernel.Weights(a.exp, x, a.kvLen), AttnKernel.Weights(a.exp, y, a.kvLen);
    forall t | 0 <= t < a.kvLen ensures AttnCode.Weighted(a, h, e, d)(t) == AttnCode.Weighted(b, h, f, d)(t) {
      SameElement(a, b, nHeads, h, t, d);
    }
    SoftmaxSpec.TotalCongruence(AttnCode.Weighted(a, h, e, d), AttnCode.Weighted(b, h, f, d), a.kvLen);
  }

  lemma {:induction false} ScorePrefix(a: AttnCode.Args, b: AttnCode.Args, nHeads: nat, h: nat, t: nat)
    requires SameRows(a, b) && a.nKV > 0 && nHeads % a.nKV == 0 && a.group == nHeads / a.nKV && h < nHeads
      && t < a.kvLen
    ensures AttnCode.ScoreOf(a, h)(t) == AttnCode.ScoreOf(b, h)(t)
  {
    forall d | 0 <= d < a.headDim ensures AttnCode.Product(a, h, t)(d) == AttnCode.Product(b, h, t)(d) {
      SameElement(a, b, nHeads, h, t, d);
    }
    SoftmaxSpec.TotalCongruence(AttnCode.Product(a, h, t), AttnCode.Product(b, h, t), a.headDim);
  }
}
