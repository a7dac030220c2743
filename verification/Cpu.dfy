/** The sequential twins of package backend/cpu, proved against the functions the
    kernels are proved against. */
module Cpu {
  import opened Wrappers
  import opened Folds
  import opened SoftmaxSpec
  import opened Arith
  import AttnCode
  import AttnKernel
  import RmsKernel
  import RowCode
  import opened SingleHead

  /** Row r of a table with rows of n floats. */
  function RowAt(s: seq<real>, r: nat, n: nat): seq<real> {
    if 0 <= r * n && r * n + n <= |s| then s[r * n..r * n + n] else []
  }

  /** softmax of one row. */
  function SoftmaxOf(exp: real -> real, row: seq<real>): (out: seq<real>)
    ensures |out| == |row|
  {
    seq(|row|, i requires 0 <= i < |row| => Weight(exp, Floats(row), |row|, i))
  }

  /** One row divided by its RMS and scaled. */
  function RmsOf(k: RmsKernel.Norm, row: seq<real>): seq<real> {
    seq(|row|, i requires 0 <= i < |row| => RmsKernel.RmsNormed(k, Floats(row), |row|)(i))
  }

  /** The first rows of out are g of those of x. */
  ghost predicate RowsDone(g: seq<real> -> seq<real>, x: seq<real>, out: seq<real>, n: nat, rows: nat) {
    forall r :: 0 <= r < rows ==> RowAt(out, r, n) == g(RowAt(x, r, n))
  }

  /** Doing row r leaves the rows before it done. */
  lemma {:induction false} RowsStep(g: seq<real> -> seq<real>, x: seq<real>, before: seq<real>, after: seq<real>,
      n: nat, r: nat)
    requires |before| == |after| && r * n + n <= |after| && r * n + n <= |x|
    requires RowsDone(g, x, before, n, r) && before[..r * n] == after[..r * n]
    requires after[r * n..r * n + n] == g(x[r * n..r * n + n])
    ensures RowsDone(g, x, after, n, r + 1)
  {
    assert 0 <= r * n;
    forall q | 0 <= q < r ensures RowAt(after, q, n) == g(RowAt(x, q, n)) {
      RowInTable(q, r, n);
      assert after[q * n..q * n + n] == after[..r * n][q * n..q * n + n];
      assert before[q * n..q * n + n] == before[..r * n][q * n..q * n + n];
    }
  }

  /** max(m, v) where m starts at minus infinity. */
  function MaxInf(m: Option<real>, v: real): Option<real> { if m.Some? then Some(Max(m.value, v)) else Some(v) }

  lemma {:induction false} TotalNone(f: int -> real)
    ensures Total(f, 0) == 0.0
  {}

  lemma {:induction false} TotalNext(f: int -> real, i: nat)
    ensures Total(f, i + 1) == Total(f, i) + f(i)
  {}

  /** One iteration of the loop over rows. */
  method SoftmaxRow(exp: real -> real, x: array<real>, out: array<real>, base: nat, n: nat)
    requires ExpLike(exp) && base + n <= x.Length && base + n <= out.Length
    modifies out
    ensures out[base..base + n] == SoftmaxOf(exp, old(x[base..base + n]))
    ensures out[..base] == old(out[..base]) && out[base + n..] == old(out[base + n..])
  {
    hide Mul, Total, Recip, Weight, ExpLike, Max, SoftmaxOf;
    ghost var row := x[base..base + n];
    ghost var xs := Floats(row);
    var m: Option<real> := None;
    for i := 0 to n
      invariant i > 0 ==> m.Some?
      invariant x[base..base + n] == row && out[..] == old(out[..])
    {
      m := MaxInf(m, x[base + i]);
    }
    if n == 0 { return; }
    assert m.Some?;
    var top := m.value;
    ghost var f := ExpTerm(exp, xs, top);
    var sum := 0.0;
    TotalNone(f);
    for i := 0 to n
      invariant sum == Total(f, i)
      invariant forall j :: 0 <= j < i ==> out[base + j] == f(j)
      invariant forall j :: i <= j < n ==> x[base + j] == row[j]
      invariant forall k :: 0 <= k < out.Length && !(base <= k < base + i) ==> out[k] == old(out[k])
    {
      var e := exp(x[base + i] - top);
      out[base + i] := e;
      TotalNext(f, i);
      sum := sum + e;
    }
    var inv := Recip(sum);
    for i := 0 to n
      invariant forall j :: 0 <= j < i ==> out[base + j] == Mul(f(j), inv)
      invariant forall j :: i <= j < n ==> out[base + j] == f(j)
      invariant forall k :: 0 <= k < out.Length && !(base <= k < base + n) ==> out[k] == old(out[k])
    {
      out[base + i] := Mul(out[base + i], inv);
    }
    forall i | 0 <= i < n ensures out[base + i] == SoftmaxOf(exp, row)[i] { SoftmaxValue(exp, row, top, i); }
    assert out[base..base + n] == SoftmaxOf(exp, row);
  }

  lemma {:induction false} SoftmaxValue(exp: real -> real, row: seq<real>, top: real, i: nat)
    requires ExpLike(exp) && i < |row|
    ensures var f := ExpTerm(exp, Floats(row), top);
      SoftmaxOf(exp, row)[i] == Mul(f(i), Recip(Total(f, |row|)))
  {
    ShiftInvariant(exp, Floats(row), |row|, top, i);
    hide Mul, Total, Recip, Weight, ExpLike;
  }

  /** cpu.Softmax: every row of out is the softmax of that row of x, in place or not. */
  method Softmax(exp: real -> real, x: array<real>, out: array<real>, rows: nat, n: nat)
    requires ExpLike(exp) && rows * n <= x.Length && rows * n <= out.Length
    modifies out
    ensures RowsDone(row => SoftmaxOf(exp, row), old(x[..]), out[..], n, rows)
    ensures out[rows * n..] == old(out[rows * n..])
  {
    hide SoftmaxOf, RowAt, ExpLike;
    ghost var g, x0 := row => SoftmaxOf(exp, row), x[..];
    for r := 0 to rows
      invariant 0 <= r * n <= rows * n
      invariant RowsDone(g, x0, out[..], n, r)
      invariant out[r * n..] == old(out[r * n..])
      invariant x != out ==> x[..] == x0
    {
      RowInTable(r, rows, n);
      ghost var before := out[..];
      assert x[r * n..r * n + n] == x0[r * n..r * n + n] by { SameRow(x[..], x0, r * n, n, x == out); }
      SoftmaxRow(exp, x, out, r * n, n);
      RowsStep(g, x0, before, out[..], n, r);
      RestKept(before, out[..], old(out[..]), r * n, n);
    }
  }

  /** The rows not yet done still hold the input. */
  lemma {:induction false} SameRow(now: seq<real>, was: seq<real>, base: nat, n: nat, inPlace: bool)
    requires |now| == |was| && base + n <= |was|
    requires if inPlace then now[base..] == was[base..] else now == was
    ensures now[base..base + n] == was[base..base + n]
  {
    assert now[base..base + n] == now[base..][..n] && was[base..base + n] == was[base..][..n];
  }

  lemma {:induction false} RmsValue(k: RmsKernel.Norm, x: int -> real, n: nat, i: int)
    ensures RmsKernel.RmsNormed(k, x, n)(i)
      == Mul(Mul(x(i), RmsKernel.InvOf(k, n, Total(RowCode.Squares(x), n))), k.weight(i))
  {}

  lemma {:induction false} RestKept(before: seq<real>, after: seq<real>, was: seq<real>, base: nat, n: nat)
    requires |before| == |after| == |was| && base + n <= |was|
    requires before[base..] == was[base..] && after[base + n..] == before[base + n..]
    ensures after[base + n..] == was[base + n..]
  {
    assert before[base + n..] == before[base..][n..] && was[base + n..] == was[base..][n..];
  }

  /** One row of cpu.RMSNorm. */
  method RmsRow(k: RmsKernel.Norm, x: array<real>, out: array<real>, base: nat, n: nat)
    requires base + n <= x.Length && base + n <= out.Length
    modifies out
    ensures out[base..base + n] == RmsOf(k, old(x[base..base + n]))
    ensures out[..base] == old(out[..base]) && out[base + n..] == old(out[base + n..])
  {
    hide Mul, Total, Recip;
    ghost var row := x[base..base + n];
    ghost var xs := Floats(row);
    ghost var f := RowCode.Squares(xs);
    var ss := 0.0;
    TotalNone(f);
    for i := 0 to n
      invariant ss == Total(f, i)
      invariant x[base..base + n] == row && out[..] == old(out[..])
    {
      assert x[base + i] == x[base..base + n][i] == xs(i);
      TotalNext(f, i);
      ss := ss + Mul(x[base + i], x[base + i]);
    }
    var inv := k.rsqrt(Mul(ss, Recip(n as real)) + k.eps);
    assert inv == RmsKernel.InvOf(k, n, Total(f, n));
    for i := 0 to n
      invariant forall j :: 0 <= j < i ==> out[base + j] == Mul(Mul(xs(j), inv), k.weight(j))
      invariant forall j :: i <= j < n ==> x[base + j] == row[j]
      invariant forall j :: 0 <= j < out.Length && !(base <= j < base + i) ==> out[j] == old(out[j])
    {
      out[base + i] := Mul(Mul(x[base + i], inv), k.weight(i));
    }
    forall i | 0 <= i < n ensures out[base + i] == RmsOf(k, row)[i] { RmsValue(k, xs, n, i); }
  }

  /** cpu.RMSNorm: every row of out is the normalised row of x, in place or not. */
  method RMSNorm(k: RmsKernel.Norm, x: array<real>, out: array<real>, rows: nat, n: nat)
    requires rows * n <= x.Length && rows * n <= out.Length
    modifies out
    ensures RowsDone(row => RmsOf(k, row), old(x[..]), out[..], n, rows)
    ensures out[rows * n..] == old(out[rows * n..])
  {
    hide RmsOf, RowAt;
    ghost var g, x0 := row => RmsOf(k, row), x[..];
    for r := 0 to rows
      invariant 0 <= r * n <= rows * n
      invariant RowsDone(g, x0, out[..], n, r)
      invariant out[r * n..] == old(out[r * n..])
      invariant x != out ==> x[..] == x0
    {
      RowInTable(r, rows, n);
      ghost var before := out[..];
      assert x[r * n..r * n + n] == x0[r * n..r * n + n] by { SameRow(x[..], x0, r * n, n, x == out); }
      RmsRow(k, x, out, r * n, n);
      RowsStep(g, x0, before, out[..], n, r);
      RestKept(before, out[..], old(out[..]), r * n, n);
    }
  }

  // ---- the activation

  /** g / (1 + e^-g) */
  function Silu(exp: real -> real, g: real): real { Mul(g, Recip(1.0 + exp(-g))) }

  lemma {:induction false} SiluIs(exp: real -> real, g: real)
    requires ExpLike(exp)
    ensures Silu(exp, g) * (1.0 + exp(-g)) == g
  {
    Positive(exp, -g);
    Undivided(g, 1.0 + exp(-g));
  }

  lemma {:induction false} Undivided(g: real, d: real)
    requires d > 0.0
    ensures Mul(g, Recip(d)) * d == g && g / d == Mul(g, Recip(d))
  {
    assert (1.0 / d) * d == 1.0;
  }

  /** cpu.SiluMul: element i times 1 + e^-gate[i] is gate[i] * up[i]. */
  method SiluMul(exp: real -> real, gate: array<real>, up: array<real>, out: array<real>)
    requires ExpLike(exp) && gate.Length <= up.Length && gate.Length <= out.Length
    modifies out
    ensures forall i :: 0 <= i < gate.Length ==> out[i] == Mul(Silu(exp, old(gate[i])), old(up[i]))
    ensures forall i :: 0 <= i < gate.Length ==>
      Silu(exp, old(gate[i])) * (1.0 + exp(-old(gate[i]))) == old(gate[i])
    ensures out[gate.Length..] == old(out[gate.Length..])
  {
    hide Mul, Silu;
    for i := 0 to gate.Length
      invariant forall j :: 0 <= j < i ==> out[j] == Mul(Silu(exp, old(gate[j])), old(up[j]))
      invariant forall j :: i <= j < gate.Length ==> gate[j] == old(gate[j]) && up[j] == old(up[j])
      invariant out[gate.Length..] == old(out[gate.Length..])
    {
      var g := gate[i];
      SiluQuotient(exp, g);
      out[i] := Mul(g / (1.0 + exp(-g)), up[i]);
    }
    forall i | 0 <= i < gate.Length ensures Silu(exp, old(gate[i])) * (1.0 + exp(-old(gate[i]))) == old(gate[i]) {
      SiluIs(exp, old(gate[i]));
    }
  }

  lemma {:induction false} SiluQuotient(exp: real -> real, g: real)
    requires ExpLike(exp)
    ensures 1.0 + exp(-g) > 1.0 && g / (1.0 + exp(-g)) == Silu(exp, g)
  {
    Positive(exp, -g);
    Undivided(g, 1.0 + exp(-g));
  }

  // ---- attention

  /** AttnDecode divides by neither zero KV heads nor an empty group, and finds a KV head for
      every query head. */
  ghost predicate HeadsServed(nHeads: nat, nKV: nat) {
    nKV > 0 && forall h :: 0 <= h < nHeads ==> HeadServed(nHeads, nKV, h)
  }

  predicate HeadServed(nHeads: nat, nKV: nat, h: nat)
    requires nKV > 0
  {
    nHeads / nKV > 0 && h / (nHeads / nKV) < nKV
  }

  /** That is so exactly when KV heads divide query heads. */
  lemma {:induction false} KvHeadsExist(nHeads: nat, nKV: nat)
    ensures HeadsServed(nHeads, nKV) <==> nKV > 0 && nHeads % nKV == 0
  {
    if nKV > 0 {
      var group := nHeads / nKV;
      assert nHeads == group * nKV + nHeads % nKV;
      if nHeads % nKV == 0 {
        forall h | 0 <= h < nHeads ensures HeadServed(nHeads, nKV, h) {
          GroupPositive(nHeads, nKV);
          Quotient(h, group, nKV);
        }
      } else {
        if group > 0 { QuotientAtLeast(nHeads - 1, group, nKV); }
        assert !HeadServed(nHeads, nKV, nHeads - 1);
      }
    }
  }

  /** With three query heads and two KV heads, head 2 has none. */
  lemma {:induction false} ThreeOverTwo()
    ensures !HeadsServed(3, 2) && !HeadServed(3, 2, 2)
  {
    KvHeadsExist(3, 2);
  }

  lemma {:induction false} MulLess(a: int, b: int, g: int)
    requires g > 0 && a * g < b * g
    ensures a < b
  {}

  lemma {:induction false} Quotient(h: nat, g: nat, n: nat)
    requires g > 0 && h < g * n
    ensures h / g < n
  {
    assert h == (h / g) * g + h % g;
    MulLess(h / g, n, g);
  }

  lemma {:induction false} QuotientAtLeast(h: nat, g: nat, n: nat)
    requires g > 0 && h >= g * n
    ensures h / g >= n
  {
    assert h == (h / g) * g + h % g && n * g < (h / g + 1) * g;
    MulLess(n, h / g + 1, g);
  }

  lemma {:induction false} GroupPositive(nHeads: nat, nKV: nat)
    requires nKV > 0 && nHeads % nKV == 0 && nHeads > 0
    ensures nHeads / nKV > 0 && nHeads == (nHeads / nKV) * nKV
  {
    MulLess(0, nHeads / nKV, nKV);
  }

  function ArgsOf(q: seq<real>, k: seq<real>, v: seq<real>, kvLen: nat, nHeads: nat, nKV: nat, headDim: nat,
      scale: real, exp: real -> real): AttnCode.Args
    requires nKV > 0
  {
    AttnCode.Args(Floats(q), Floats(k), Floats(v), kvLen, nKV, nHeads / nKV, headDim, scale, exp)
  }

  /** Every element of the caches a head reads is inside them. */
  lemma {:induction false} KvInside(a: AttnCode.Args, nHeads: nat, h: nat, t: nat, d: nat)
    requires a.nKV > 0 && nHeads % a.nKV == 0 && a.group == nHeads / a.nKV && h < nHeads && t < a.kvLen && d < a.headDim
    ensures 0 <= AttnCode.KvAt(a, h, t, d) < a.kvLen * (a.nKV * a.headDim)
  {
    GroupPositive(nHeads, a.nKV);
    Quotient(h, a.group, a.nKV);
    var kvh := AttnCode.KvHead(a, h);
    InTable(kvh, d, a.nKV, a.headDim);
    InTable(t, kvh * a.headDim + d, a.kvLen, a.nKV * a.headDim);
  }

  /** The dot product of query head h and the key of position t. */
  method Dot(ghost a: AttnCode.Args, q: array<real>, k: array<real>, nHeads: nat, nKV: nat, headDim: nat, h: nat,
      t: nat)
    returns (dot: real)
    requires a.q == Floats(q[..]) && a.k == Floats(k[..]) && a.nKV == nKV && a.headDim == headDim
    requires nKV > 0 && nHeads % nKV == 0 && a.group == nHeads / nKV && h < nHeads && t < a.kvLen
    requires nHeads * headDim <= q.Length && a.kvLen * (nKV * headDim) <= k.Length
    ensures dot == Total(AttnCode.Product(a, h, t), headDim)
  {
    dot := 0.0;
    for d := 0 to headDim
      invariant dot == Total(AttnCode.Product(a, h, t), d)
    {
      InTable(h, d, nHeads, headDim);
      KvInside(a, nHeads, h, t, d);
      GroupPositive(nHeads, nKV);
      TotalNext(AttnCode.Product(a, h, t), d);
      dot := dot + q[h * headDim + d] * k[t * (nKV * headDim) + (h / (nHeads / nKV) * headDim + d)];
    }
  }

  /** The weighted sum of dimension d of V. */
  method WeightedSum(ghost a: AttnCode.Args, ghost e: int -> real, scores: array<real>, v: array<real>, nHeads: nat,
      nKV: nat, headDim: nat, h: nat, d: nat)
    returns (acc: real)
    requires a.v == Floats(v[..]) && a.nKV == nKV && a.headDim == headDim
    requires nKV > 0 && nHeads % nKV == 0 && a.group == nHeads / nKV && h < nHeads && d < headDim
    requires a.kvLen == scores.Length && a.kvLen * (nKV * headDim) <= v.Length
    requires forall t :: 0 <= t < scores.Length ==> scores[t] == e(t)
    ensures acc == Total(AttnCode.Weighted(a, h, e, d), a.kvLen)
  {
    acc := 0.0;
    for t := 0 to scores.Length
      invariant acc == Total(AttnCode.Weighted(a, h, e, d), t)
    {
      KvInside(a, nHeads, h, t, d);
      GroupPositive(nHeads, nKV);
      TotalNext(AttnCode.Weighted(a, h, e, d), t);
      acc := acc + Mul(scores[t], v[t * (nKV * headDim) + (h / (nHeads / nKV) * headDim + d)]);
    }
  }

  ghost predicate Attended(a: AttnCode.Args, out: seq<real>, h: nat, d: nat) {
    0 <= h * a.headDim + d < |out| && out[h * a.headDim + d] == AttnKernel.Attention(a, h, d)
  }

  lemma {:induction false} SoftmaxedScores(exp: real -> real, raw: seq<real>, done: seq<real>, x: int -> real)
    requires |done| == |raw| && done[0..|raw|] == SoftmaxOf(exp, raw[0..|raw|])
    requires forall t :: 0 <= t < |raw| ==> raw[t] == x(t)
    ensures forall t :: 0 <= t < |raw| ==> done[t] == AttnKernel.Weights(exp, x, |raw|)(t)
  {
    assert raw[0..|raw|] == raw && done[0..|raw|] == done;
    TotalCongruence(Exps(exp, Floats(raw)), Exps(exp, x), |raw|);
    hide Mul, Total, Recip;
  }

  /** One head of cpu.AttnDecode. */
  method AttnHead(ghost a: AttnCode.Args, exp: real -> real, q: array<real>, k: array<real>, v: array<real>,
      out: array<real>, scores: array<real>,
                  nHeads: nat, nKV: nat, headDim: nat, scale: real, h: nat)
    requires ExpLike(exp) && nKV > 0 && nHeads % nKV == 0 && h < nHeads
    requires a == ArgsOf(q[..], k[..], v[..], scores.Length, nHeads, nKV, headDim, scale, exp)
    requires nHeads * headDim <= q.Length && nHeads * headDim <= out.Length
    requires scores.Length * (nKV * headDim) <= k.Length && scores.Length * (nKV * headDim) <= v.Length
    requires out != q && out != k && out != v && scores != q && scores != k && scores != v && scores != out
    modifies out, scores
    ensures forall d :: 0 <= d < headDim ==> Attended(a, out[..], h, d)
    ensures forall j :: 0 <= j < out.Length && !(h * headDim <= j < h * headDim + headDim) ==> out[j] == old(out[j])
  {
    hide Total, Mul, ExpLike, AttnKernel.Attention;
    ghost var x := AttnCode.ScoreOf(a, h);
    for t := 0 to scores.Length
      invariant forall u :: 0 <= u < t ==> scores[u] == x(u)
      invariant out[..] == old(out[..])
    {
      var dot := Dot(a, q, k, nHeads, nKV, headDim, h, t);
      scores[t] := dot * scale;
    }
    ghost var raw := scores[..];
    SoftmaxRow(exp, scores, scores, 0, scores.Length);
    SoftmaxedScores(exp, raw, scores[..], x);
    WeightedRow(a, v, out, scores, nHeads, nKV, headDim, h);
  }

  /** The loop over output dimensions. */
  method WeightedRow(ghost a: AttnCode.Args, v: array<real>, out: array<real>, scores: array<real>,
                     nHeads: nat, nKV: nat, headDim: nat, h: nat)
    requires a.v == Floats(v[..]) && a.nKV == nKV && a.headDim == headDim
    requires nKV > 0 && nHeads % nKV == 0 && a.group == nHeads / nKV && h < nHeads
    requires a.kvLen == scores.Length && a.kvLen * (nKV * headDim) <= v.Length && nHeads * headDim <= out.Length
    requires forall t :: 0 <= t < scores.Length ==>
      scores[t] == AttnKernel.Weights(a.exp, AttnCode.ScoreOf(a, h), a.kvLen)(t)
    requires out != v && scores != out
    modifies out
    ensures forall d :: 0 <= d < headDim ==> Attended(a, out[..], h, d)
    ensures forall j :: 0 <= j < out.Length && !(h * headDim <= j < h * headDim + headDim) ==> out[j] == old(out[j])
  {
    hide AttnKernel.Weights, AttnCode.ScoreOf, AttnCode.Weighted, Total;
    ghost var e := AttnKernel.Weights(a.exp, AttnCode.ScoreOf(a, h), a.kvLen);
    RowInTable(h, nHeads, headDim);
    var base := h * headDim;
    for d := 0 to headDim
      invariant forall c :: 0 <= c < d ==> out[base + c] == AttnKernel.Attention(a, h, c)
      invariant forall j :: 0 <= j < out.Length && !(base <= j < base + headDim) ==> out[j] == old(out[j])
    {
      var acc := WeightedSum(a, e, scores, v, nHeads, nKV, headDim, h, d);
      out[base + d] := acc;
    }
  }

  /** Head h of out attends with its own stretch of q over the rows of both caches, cut down to the
      columns of KV head h / (nHeads / nKV). */
  ghost predicate HeadDone(exp: real -> real, scale: real, q: seq<real>, k: seq<real>, v: seq<real>, out: seq<real>,
      kvLen: nat, nHeads: nat, nKV: nat, headDim: nat, h: nat)
    requires nKV > 0 && nHeads / nKV > 0
  {
    var width, first := nKV * headDim, (h / (nHeads / nKV)) * headDim;
    Attends(exp, scale, Stretch(Floats(q), h * headDim, headDim), Cut(Floats(k), width, first, kvLen, headDim),
      Cut(Floats(v), width, first, kvLen, headDim), Stretch(Floats(out), h * headDim, headDim))
  }

  lemma {:induction false} HeadIsDone(exp: real -> real, scale: real, q: seq<real>, k: seq<real>, v: seq<real>,
      out: seq<real>, kvLen: nat, nHeads: nat, nKV: nat, headDim: nat, h: nat)
    requires ExpLike(exp) && nKV > 0 && nHeads / nKV > 0 && kvLen > 0
    requires forall d :: 0 <= d < headDim ==>
      Attended(ArgsOf(q, k, v, kvLen, nHeads, nKV, headDim, scale, exp), out, h, d)
    ensures HeadDone(exp, scale, q, k, v, out, kvLen, nHeads, nKV, headDim, h)
  {
    var a := ArgsOf(q, k, v, kvLen, nHeads, nKV, headDim, scale, exp);
    var row := Stretch(Floats(out), h * headDim, headDim);
    hide ExpLike, AttnKernel.Attention, Attends;
    forall d | 0 <= d < headDim ensures row[d] == AttnKernel.Attention(a, h, d) { assert Attended(a, out, h, d); }
    LaunchAttends(a, h, row);
  }

  ghost predicate HeadsDone(exp: real -> real, scale: real, q: seq<real>, k: seq<real>, v: seq<real>, out: seq<real>,
      kvLen: nat, nHeads: nat, nKV: nat, headDim: nat)
    requires nKV > 0 && nHeads % nKV == 0
  {
    nHeads > 0 ==>
      && nHeads / nKV > 0
      && forall h :: 0 <= h < nHeads ==> HeadDone(exp, scale, q, k, v, out, kvLen, nHeads, nKV, headDim, h)
  }

  lemma {:induction false} AllHeadsDone(exp: real -> real, scale: real, q: seq<real>, k: seq<real>, v: seq<real>,
      out: seq<real>, kvLen: nat, nHeads: nat, nKV: nat, headDim: nat)
    requires ExpLike(exp) && nKV > 0 && nHeads % nKV == 0 && kvLen > 0
    requires forall h, d :: 0 <= h < nHeads && 0 <= d < headDim ==>
      Attended(ArgsOf(q, k, v, kvLen, nHeads, nKV, headDim, scale, exp), out, h, d)
    ensures HeadsDone(exp, scale, q, k, v, out, kvLen, nHeads, nKV, headDim)
  {
    hide ExpLike, Attended, HeadDone;
    if nHeads > 0 {
      GroupPositive(nHeads, nKV);
      forall h | 0 <= h < nHeads
        ensures HeadDone(exp, scale, q, k, v, out, kvLen, nHeads, nKV, headDim, h)
      {
        HeadIsDone(exp, scale, q, k, v, out, kvLen, nHeads, nKV, headDim, h);
      }
    }
  }

  /** With one cached position the output of every head is its KV head's value. */
  lemma {:induction false} OneCachedPosition(exp: real -> real, scale: real, q: seq<real>, k: seq<real>, v: seq<real>,
      out: seq<real>, nHeads: nat, nKV: nat, headDim: nat, h: nat, d: nat)
    requires nKV > 0 && nHeads / nKV > 0 && d < headDim
    requires HeadDone(exp, scale, q, k, v, out, 1, nHeads, nKV, headDim, h)
    ensures Floats(out)(h * headDim + d) == Floats(v)((h / (nHeads / nKV)) * headDim + d)
  {
    var width, first := nKV * headDim, (h / (nHeads / nKV)) * headDim;
    var row, values := Stretch(Floats(out), h * headDim, headDim), Cut(Floats(v), width, first, 1, headDim);
    OnePosition(exp, scale, Stretch(Floats(q), h * headDim, headDim), Cut(Floats(k), width, first, 1, headDim), values,
      row);
    assert row[d] == values[0][d];
  }

  /** cpu.AttnDecode: every dimension of every head is its attention, the very function
      every finished schedule of the kernel leaves there, and that is attention over the KV head
      of the query head's group. */
  method AttnDecode(exp: real -> real, q: array<real>, k: array<real>, v: array<real>, out: array<real>,
                    kvLen: nat, nHeads: nat, nKV: nat, headDim: nat, scale: real)
    requires ExpLike(exp) && nKV > 0 && nHeads % nKV == 0
    requires nHeads * headDim <= q.Length && nHeads * headDim <= out.Length
    requires kvLen * (nKV * headDim) <= k.Length && kvLen * (nKV * headDim) <= v.Length
    requires out != q && out != k && out != v
    modifies out
    ensures forall h, d :: 0 <= h < nHeads && 0 <= d < headDim ==>
      Attended(ArgsOf(old(q[..]), old(k[..]), old(v[..]), kvLen, nHeads, nKV, headDim, scale, exp), out[..], h, d)
    ensures kvLen > 0 ==>
      HeadsDone(exp, scale, old(q[..]), old(k[..]), old(v[..]), out[..], kvLen, nHeads, nKV, headDim)
  {
    ghost var a := ArgsOf(q[..], k[..], v[..], kvLen, nHeads, nKV, headDim, scale, exp);
    var scores := new real[kvLen];
    for h := 0 to nHeads
      invariant forall g, d :: 0 <= g < h && 0 <= d < headDim ==> Attended(a, out[..], g, d)
    {
      ghost var before := out[..];
      AttnHead(a, exp, q, k, v, out, scores, nHeads, nKV, headDim, scale, h);
      forall g, d | 0 <= g < h + 1 && 0 <= d < headDim ensures Attended(a, out[..], g, d) {
        if g < h {
          InTable(g, d, h, headDim);
          assert Attended(a, before, g, d);
          assert out[..][g * headDim + d] == before[g * headDim + d];
        }
      }
    }
    if kvLen > 0 { AllHeadsDone(exp, scale, q[..], k[..], v[..], out[..], kvLen, nHeads, nKV, headDim); }
  }
}
