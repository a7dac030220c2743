/** Attention of one query over one head's keys and values, written out on rows. For every query
    head this is what AttnDecode computes, on the CPU and in every schedule of the kernel, with the
    rows of the KV head that the query head's group shares. */
module SingleHead {
  import opened BlockMachine
  import opened Folds
  import opened RowCode
  import opened SoftmaxSpec
  import opened AttnCode
  import opened AttnKernel

  type Row = seq<real>

  function SumOf(a: Row): real { if a == [] then 0.0 else SumOf(a[..|a| - 1]) + a[|a| - 1] }

  function Dot(a: Row, b: Row): real
    requires |a| == |b|
  {
    if a == [] then 0.0 else Dot(a[..|a| - 1], b[..|b| - 1]) + a[|a| - 1] * b[|b| - 1]
  }

  /** w is the softmax of s: positive weights that add up to one, in proportion to the exponentials. */
  ghost predicate IsSoftmax(exp: real -> real, s: Row, w: Row) {
    && |w| == |s| && SumOf(w) == 1.0
    && (forall t :: 0 <= t < |w| ==> w[t] > 0.0)
    && forall t, u :: 0 <= t < |w| && 0 <= u < |w| ==> w[t] * exp(s[u]) == w[u] * exp(s[t])
  }

  predicate Rows(rows: seq<Row>, n: nat) { forall t :: 0 <= t < |rows| ==> |rows[t]| == n }

  /** The scaled dot products of a query with every key. */
  function Scores(scale: real, q: Row, keys: seq<Row>): Row
    requires Rows(keys, |q|)
  {
    seq(|keys|, t requires 0 <= t < |keys| => Dot(q, keys[t]) * scale)
  }

  function Column(rows: seq<Row>, n: nat, d: nat): (c: Row)
    requires Rows(rows, n) && d < n
    ensures |c| == |rows|
  {
    seq(|rows|, t requires 0 <= t < |rows| => rows[t][d])
  }

  /** out is the average of the values, weighted by the softmax of the scores. */
  ghost predicate Attends(exp: real -> real, scale: real, q: Row, keys: seq<Row>, values: seq<Row>, out: Row) {
    && Rows(keys, |q|) && Rows(values, |q|) && |keys| == |values| && |out| == |q|
    && exists w :: IsSoftmax(exp, Scores(scale, q, keys), w) && Averages(w, values, out)
  }

  /** Every element of out is the weighted sum of a column of the values. */
  ghost predicate Averages(w: Row, values: seq<Row>, out: Row)
    requires Rows(values, |out|) && |w| == |values|
  {
    forall d :: 0 <= d < |out| ==> out[d] == Dot(w, Column(values, |out|, d))
  }

  // ---- softmax is the only such list of weights

  lemma {:induction false} SoftmaxExactly(exp: real -> real, s: Row, w: Row)
    requires ExpLike(exp)
    ensures IsSoftmax(exp, s, w)
      <==> |w| == |s| > 0 && forall t :: 0 <= t < |s| ==> w[t] == Weight(exp, Floats(s), |s|, t)
  {
    if IsSoftmax(exp, s, w) {
      NotEmpty(exp, s, w);
      forall t | 0 <= t < |s| ensures w[t] == Weight(exp, Floats(s), |s|, t) { Proportional(exp, s, w, t); }
    }
    if |w| == |s| > 0 && forall t :: 0 <= t < |s| ==> w[t] == Weight(exp, Floats(s), |s|, t) {
      WeightsAreSoftmax(exp, s, w);
    }
  }

  lemma {:induction false} NotEmpty(exp: real -> real, s: Row, w: Row)
    requires IsSoftmax(exp, s, w)
    ensures |s| > 0
  {}

  /** Adding up the proportions to one weight gives that weight. */
  lemma {:induction false} Proportional(exp: real -> real, s: Row, w: Row, t: nat)
    requires ExpLike(exp) && IsSoftmax(exp, s, w) && t < |s|
    ensures w[t] == Weight(exp, Floats(s), |s|, t)
  {
    var e := Exps(exp, Floats(s));
    SumIsTotal(w);
    TotalScale(e, w[t], |s|);
    TotalScale(Floats(w), exp(s[t]), |s|);
    forall u | 0 <= u < |s| ensures Times(e, w[t])(u) == Times(Floats(w), exp(s[t]))(u) {
      Share(exp, s, w, t, u);
    }
    TotalCongruence(Times(e, w[t]), Times(Floats(w), exp(s[t])), |s|);
    ExpsPositive(exp, Floats(s));
    TotalPositive(e, |s|);
    hide *;
    OneShare(w[t], exp(s[t]), Total(e, |s|), Total(Floats(w), |s|));
    WeightIs(exp, s, t);
  }

  lemma {:induction false} Share(exp: real -> real, s: Row, w: Row, t: nat, u: nat)
    requires IsSoftmax(exp, s, w) && t < |s| && u < |s|
    ensures Mul(exp(s[u]), w[t]) == Mul(w[u], exp(s[t]))
  {
    assert w[t] * exp(s[u]) == w[u] * exp(s[t]);
  }

  lemma {:induction false} OneShare(w: real, e: real, total: real, one: real)
    requires total > 0.0 && one == 1.0 && Mul(total, w) == Mul(one, e)
    ensures w == Mul(e, Recip(total))
  {
    assert e * (1.0 / total) == total * w * (1.0 / total) == w;
  }

  lemma {:induction false} WeightIs(exp: real -> real, s: Row, t: nat)
    requires t < |s|
    ensures Weight(exp, Floats(s), |s|, t) == Mul(exp(s[t]), Recip(Total(Exps(exp, Floats(s)), |s|)))
  {}

  lemma {:induction false} WeightsAreSoftmax(exp: real -> real, s: Row, w: Row)
    requires ExpLike(exp) && |w| == |s| > 0 && forall t :: 0 <= t < |s| ==> w[t] == Weight(exp, Floats(s), |s|, t)
    ensures IsSoftmax(exp, s, w)
  {
    var x, n := Floats(s), |s|;
    WeightsAddUp(exp, x, n);
    SumIsTotal(w);
    TotalCongruence(Floats(w), t => Weight(exp, x, n, t), n);
    hide Weight, Mul, Recip, Total, ExpLike;
    forall t, u | 0 <= t < n && 0 <= u < n ensures w[t] * exp(s[u]) == w[u] * exp(s[t]) { Shared(exp, s, w, t, u); }
  }

  lemma {:induction false} Shared(exp: real -> real, s: Row, w: Row, t: nat, u: nat)
    requires t < |s| && u < |s| && |w| == |s|
    requires w[t] == Weight(exp, Floats(s), |s|, t) && w[u] == Weight(exp, Floats(s), |s|, u)
    ensures w[t] * exp(s[u]) == w[u] * exp(s[t])
  {
    WeightIs(exp, s, t);
    WeightIs(exp, s, u);
    Swap(exp(s[t]), exp(s[u]), Recip(Total(Exps(exp, Floats(s)), |s|)));
  }

  lemma {:induction false} Swap(a: real, b: real, k: real)
    ensures Mul(a, k) * b == Mul(b, k) * a
  {}

  // ---- sums of rows

  lemma {:induction false} SumIsTotal(a: Row)
    ensures SumOf(a) == Total(Floats(a), |a|)
  {
    if a != [] {
      SumIsTotal(a[..|a| - 1]);
      TotalCongruence(Floats(a[..|a| - 1]), Floats(a), |a| - 1);
    }
  }

  lemma {:induction false} DotIsTotal(a: Row, b: Row, f: int -> real)
    requires |a| == |b| && forall i :: 0 <= i < |a| ==> f(i) == Mul(a[i], b[i])
    ensures Dot(a, b) == Total(f, |a|)
  {
    if a != [] { DotIsTotal(a[..|a| - 1], b[..|b| - 1], f); }
  }

  // ---- the heads of a launch

  /** The n elements from at on. */
  function Stretch(f: int -> real, at: int, n: nat): Row { seq(n, d => f(at + d)) }

  /** Rows 0..n of a cache, cut down to the dim columns from first on. */
  function Cut(cache: int -> real, width: nat, first: int, n: nat, dim: nat): seq<Row> {
    seq(n, t => Stretch(cache, t * width + first, dim))
  }

  /** Head h of a launch: its own stretch of q. */
  function QueryOf(a: Args, h: nat): (q: Row)
    ensures |q| == a.headDim
  {
    Stretch(a.q, h * a.headDim, a.headDim)
  }

  /** Columns (h / group) * headDim and on of a cache. */
  function RowsOf(a: Args, h: nat, cache: int -> real): (rows: seq<Row>)
    requires a.group > 0
    ensures |rows| == a.kvLen && Rows(rows, a.headDim)
  {
    Cut(cache, a.nKV * a.headDim, (h / a.group) * a.headDim, a.kvLen, a.headDim)
  }

  /** out is head h of the launch, with the KV head that its group shares. */
  ghost predicate HeadAttends(a: Args, h: nat, out: Row)
    requires a.group > 0
  {
    Attends(a.exp, a.scale, QueryOf(a, h), RowsOf(a, h, a.k), RowsOf(a, h, a.v), out)
  }

  lemma {:induction false} QueryElement(a: Args, h: nat, d: nat)
    requires d < a.headDim
    ensures QueryOf(a, h)[d] == a.q(h * a.headDim + d)
  {}

  lemma {:induction false} RowElement(a: Args, h: nat, cache: int -> real, t: nat, d: nat)
    requires a.group > 0 && t < a.kvLen && d < a.headDim
    ensures RowsOf(a, h, cache)[t][d] == cache(KvAt(a, h, t, d))
  {
    var at := t * (a.nKV * a.headDim) + (h / a.group) * a.headDim;
    assert RowsOf(a, h, cache)[t][d] == cache(at + d);
    assert KvAt(a, h, t, d) == at + d;
  }

  lemma {:induction false} ProductIs(a: Args, h: nat, t: nat, d: nat)
    requires a.group > 0 && t < a.kvLen && d < a.headDim
    ensures Product(a, h, t)(d) == Mul(QueryOf(a, h)[d], RowsOf(a, h, a.k)[t][d])
  {
    QueryElement(a, h, d);
    RowElement(a, h, a.k, t, d);
    hide QueryOf, RowsOf, KvAt;
  }

  lemma {:induction false} ScoreIsDot(a: Args, h: nat, t: nat)
    requires a.group > 0 && t < a.kvLen
    ensures ScoreOf(a, h)(t) == Dot(QueryOf(a, h), RowsOf(a, h, a.k)[t]) * a.scale
  {
    hide QueryOf, RowsOf, KvAt, Product, Dot, Mul, Total;
    var q, k := QueryOf(a, h), RowsOf(a, h, a.k)[t];
    forall d | 0 <= d < a.headDim ensures Product(a, h, t)(d) == Mul(q[d], k[d]) { ProductIs(a, h, t, d); }
    DotIsTotal(q, k, Product(a, h, t));
  }

  function LaunchWeights(a: Args, h: nat): (w: Row)
    ensures |w| == a.kvLen
  {
    seq(a.kvLen, t => Weight(a.exp, ScoreOf(a, h), a.kvLen, t))
  }

  lemma {:induction false} LaunchScores(a: Args, h: nat)
    requires a.group > 0
    ensures var s := Scores(a.scale, QueryOf(a, h), RowsOf(a, h, a.k));
      |s| == a.kvLen && forall t :: 0 <= t < a.kvLen ==> s[t] == ScoreOf(a, h)(t)
  {
    hide QueryOf, RowsOf, ScoreOf, Dot;
    forall t | 0 <= t < a.kvLen
      ensures ScoreOf(a, h)(t) == Dot(QueryOf(a, h), RowsOf(a, h, a.k)[t]) * a.scale
    {
      ScoreIsDot(a, h, t);
    }
  }

  lemma {:induction false} LaunchSoftmax(a: Args, h: nat)
    requires ExpLike(a.exp) && a.kvLen > 0 && a.group > 0
    ensures IsSoftmax(a.exp, Scores(a.scale, QueryOf(a, h), RowsOf(a, h, a.k)), LaunchWeights(a, h))
  {
    LaunchScores(a, h);
    WeightsOf(a.exp, Scores(a.scale, QueryOf(a, h), RowsOf(a, h, a.k)), ScoreOf(a, h), LaunchWeights(a, h));
    hide IsSoftmax, ScoreOf, ExpLike, Total, Dot, QueryOf, RowsOf, Weight, Scores;
  }

  lemma {:induction false} WeightsOf(exp: real -> real, s: Row, x: int -> real, w: Row)
    requires ExpLike(exp) && |w| == |s| > 0 && forall t :: 0 <= t < |s| ==> s[t] == x(t)
    requires forall t :: 0 <= t < |s| ==> w[t] == Weight(exp, x, |s|, t)
    ensures IsSoftmax(exp, s, w)
  {
    TotalCongruence(Exps(exp, Floats(s)), Exps(exp, x), |s|);
    hide IsSoftmax, Total, Mul, Recip, ExpLike;
    WeightsAreSoftmax(exp, s, w);
  }

  lemma {:induction false} LaunchAverage(a: Args, h: nat, d: nat)
    requires a.group > 0 && d < a.headDim
    ensures Attention(a, h, d) == Dot(LaunchWeights(a, h), Column(RowsOf(a, h, a.v), a.headDim, d))
  {
    var e, w, c := Weights(a.exp, ScoreOf(a, h), a.kvLen), LaunchWeights(a, h), Column(RowsOf(a, h, a.v), a.headDim, d);
    hide ScoreOf, Weight, Total, Dot, RowsOf, KvAt, Mul;
    forall t | 0 <= t < a.kvLen ensures Weighted(a, h, e, d)(t) == Mul(w[t], c[t]) { RowElement(a, h, a.v, t, d); }
    DotIsTotal(w, c, Weighted(a, h, e, d));
  }

  /** Head h of a launch is the attention of its query over the KV head its group shares. */
  lemma {:induction false} LaunchAttends(a: Args, h: nat, out: Row)
    requires ExpLike(a.exp) && a.kvLen > 0 && a.group > 0
    requires |out| == a.headDim && forall d :: 0 <= d < a.headDim ==> out[d] == Attention(a, h, d)
    ensures HeadAttends(a, h, out)
  {
    hide Attention, QueryOf, RowsOf, ExpLike, Dot, IsSoftmax, LaunchWeights, Scores, Column;
    LaunchSoftmax(a, h);
    forall d | 0 <= d < a.headDim
      ensures out[d] == Dot(LaunchWeights(a, h), Column(RowsOf(a, h, a.v), a.headDim, d))
    {
      LaunchAverage(a, h, d);
    }
    assert Averages(LaunchWeights(a, h), RowsOf(a, h, a.v), out);
  }

  /** In every schedule of the kernel that runs to the end, the output of head h is that attention. */
  lemma {:induction false} EveryScheduleAttendsHead(a: Args, h: nat, s0: Block, run: seq<Block>, acts: seq<Act>)
    requires ExpLike(a.exp) && a.kvLen > 0 && a.group > 0
    requires Launched(a, h, s0) && IsRun(AttnBlock(a, h), s0, run, acts) && Finished(AttnBlock(a, h), run[|acts|])
    ensures HeadAttends(a, h, Stretch(RowOf(OutRow(a, h), run[|acts|].mem), 0, a.headDim))
  {
    var out := Stretch(RowOf(OutRow(a, h), run[|acts|].mem), 0, a.headDim);
    hide HeadAttends, Attention, Launched, AttnBlock, IsRun, Finished;
    forall d | 0 <= d < a.headDim ensures out[d] == Attention(a, h, d) {
      EveryScheduleAttends(a, h, s0, run, acts, d);
    }
    LaunchAttends(a, h, out);
  }

  // ---- what attention says about the output

  /** There is only one such output. */
  lemma {:induction false} AttendsOnce(exp: real -> real, scale: real, q: Row, keys: seq<Row>, values: seq<Row>,
      out: Row, out': Row)
    requires ExpLike(exp)
    requires Attends(exp, scale, q, keys, values, out) && Attends(exp, scale, q, keys, values, out')
    ensures out == out'
  {
    var s := Scores(scale, q, keys);
    hide IsSoftmax, ExpLike, Dot;
    var w :| IsSoftmax(exp, s, w) && Averages(w, values, out);
    var w' :| IsSoftmax(exp, s, w') && Averages(w', values, out');
    SoftmaxExactly(exp, s, w);
    SoftmaxExactly(exp, s, w');
    assert w == w';
  }

  /** With a single position the output is its value. */
  lemma {:induction false} OnePosition(exp: real -> real, scale: real, q: Row, keys: seq<Row>, values: seq<Row>,
      out: Row)
    requires Attends(exp, scale, q, keys, values, out) && |values| == 1
    ensures out == values[0]
  {
    var w :| IsSoftmax(exp, Scores(scale, q, keys), w) && Averages(w, values, out);
    OneTerm(w);
    forall d | 0 <= d < |out| ensures out[d] == values[0][d] { OneProduct(w, Column(values, |out|, d)); }
  }

  lemma {:induction false} OneTerm(w: Row)
    requires |w| == 1
    ensures SumOf(w) == w[0]
  {
    assert w[..0] == [];
  }

  lemma {:induction false} OneProduct(w: Row, c: Row)
    requires |w| == |c| == 1
    ensures Dot(w, c) == w[0] * c[0]
  {
    assert w[..0] == [] && c[..0] == [];
  }
}
