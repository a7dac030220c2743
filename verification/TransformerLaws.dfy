/** What the logits do not depend on, and which changes of the weights they do not see. */
module TransformerLaws {
  import opened Transformer
  import AttnKernel

  /** Networks that differ in their matrices only, and only in those that drop names. */
  ghost predicate SameBut(a: Net, b: Net, drop: MatId -> bool) {
    b == a.(mat := b.mat) && forall id, v, i :: !drop(id) ==> b.mat(id, v, i) == a.mat(id, v, i)
  }

  /** The layers below n of two networks agree. */
  ghost predicate LayersAgree(c: Config, a: Net, b: Net, n: nat)
    requires c.Valid()
  {
    forall l: nat, h: seq<Vector>, i: nat :: l < n && Sized(h, c.dim) && i < |h| ==>
      LayerAt(c, a, l, h, i) == LayerAt(c, b, l, h, i)
  }

  lemma {:induction false} SameHidden(c: Config, a: Net, b: Net, n: nat, tokens: seq<int>)
    requires c.Valid() && a.embed == b.embed && LayersAgree(c, a, b, n)
    ensures Hidden(c, a, n, tokens) == Hidden(c, b, n, tokens)
  {
    hide LayerAt;
    if n > 0 {
      var l := n - 1;
      SameHidden(c, a, b, l, tokens);
      var h := Hidden(c, a, l, tokens);
      forall i: nat | i < |tokens| ensures LayerAt(c, a, l, h, i) == LayerAt(c, b, l, h, i) {}
    }
  }

  lemma {:induction false} SameMat(a: Net, b: Net, id: MatId, n: nat, v: Vector)
    requires forall i :: b.mat(id, v, i) == a.mat(id, v, i)
    ensures Mat(b, id, n, v) == Mat(a, id, n, v)
  {}

  /** The attention half uses the query, key, value and output matrices only. */
  lemma {:induction false} SameAttention(c: Config, a: Net, b: Net, drop: MatId -> bool, l: nat, pos: nat, x: Vector,
      k: Vector, v: Vector)
    requires c.Valid() && |x| == c.dim && SameBut(a, b, drop) && !drop(Wq(l)) && !drop(Wo(l))
    ensures Attention(c, a, l, pos, x, k, v) == Attention(c, b, l, pos, x, k, v)
  {
    hide Attend;
    SameMat(a, b, Wq(l), c.QDim(), Normed(c, a, l, x));
    assert Normed(c, b, l, x) == Normed(c, a, l, x) && Query(c, b, l, pos, x) == Query(c, a, l, pos, x);
    SameAttend(c, a, b, Query(c, a, l, pos, x), k, v, pos + 1);
    SameMat(a, b, Wo(l), c.dim, Attend(c, a, Query(c, a, l, pos, x), k, v, pos + 1));
  }

  lemma {:induction false} SameAttend(c: Config, a: Net, b: Net, q: Vector, k: Vector, v: Vector, n: nat)
    requires c.Valid() && b.exp == a.exp && b.scale == a.scale
    ensures Attend(c, b, q, k, v, n) == Attend(c, a, q, k, v, n)
  {
    hide AttnKernel.Attention;
  }

  lemma {:induction false} SameRows(c: Config, a: Net, b: Net, drop: MatId -> bool, l: nat, h: seq<Vector>)
    requires c.Valid() && SameBut(a, b, drop) && !drop(Wk(l)) && !drop(Wv(l))
    ensures Keys(c, a, l, h) == Keys(c, b, l, h) && Values(c, a, l, h) == Values(c, b, l, h)
  {
    forall i | 0 <= i < |h| ensures Key(c, a, l, i, h[i]) == Key(c, b, l, i, h[i]) {
      SameMat(a, b, Wk(l), c.KvDim(), Normed(c, a, l, h[i]));
      assert Normed(c, b, l, h[i]) == Normed(c, a, l, h[i]);
    }
    forall i | 0 <= i < |h| ensures Value(c, a, l, h[i]) == Value(c, b, l, h[i]) {
      SameMat(a, b, Wv(l), c.KvDim(), Normed(c, a, l, h[i]));
      assert Normed(c, b, l, h[i]) == Normed(c, a, l, h[i]);
    }
  }

  predicate FeedMat(id: MatId) { id.Gate? || id.Up? || id.Down? }

  lemma {:induction false} SameLayer(c: Config, a: Net, b: Net, l: nat, h: seq<Vector>, i: nat)
    requires c.Valid() && SameBut(a, b, FeedMat) && Sized(h, c.dim) && i < |h|
    requires forall x: Vector :: |x| == c.dim ==> FeedForward(c, a, l, x) == FeedForward(c, b, l, x)
    ensures LayerAt(c, a, l, h, i) == LayerAt(c, b, l, h, i)
  {
    hide FeedForward, Flat, Attend;
    var k, v := Flat(Keys(c, a, l, h)[..i + 1]), Flat(Values(c, a, l, h)[..i + 1]);
    SameRows(c, a, b, FeedMat, l, h);
    SameAttention(c, a, b, FeedMat, l, i, h[i], k, v);
    assert |Attention(c, a, l, i, h[i], k, v)| == c.dim;
  }

  /** Networks with the same attention matrices have the same logits if their feed-forward halves agree. */
  lemma {:induction false} SameLogits(c: Config, a: Net, b: Net, tokens: seq<int>)
    requires c.Valid() && |tokens| > 0 && SameBut(a, b, FeedMat)
    requires forall l: nat, x: Vector :: l < c.layers && |x| == c.dim ==>
      FeedForward(c, a, l, x) == FeedForward(c, b, l, x)
    ensures Logits(c, a, tokens) == Logits(c, b, tokens)
  {
    hide FeedForward, Hidden, LayerAt;
    forall l: nat, h: seq<Vector>, i: nat | l < c.layers && Sized(h, c.dim) && i < |h|
      ensures LayerAt(c, a, l, h, i) == LayerAt(c, b, l, h, i)
    {
      SameLayer(c, a, b, l, h, i);
    }
    SameHidden(c, a, b, c.layers, tokens);
    var x := Hidden(c, a, c.layers, tokens)[|tokens| - 1];
    assert Norm(c, a, OutNorm, x) == Norm(c, b, OutNorm, x);
    SameMat(a, b, Head, c.vocab, Norm(c, a, OutNorm, x));
  }

  ghost predicate IgnoresSecond(silu: (real, real) -> real) { forall g, u, u' :: silu(g, u) == silu(g, u') }

  ghost predicate IgnoresFirst(silu: (real, real) -> real) { forall g, g', u :: silu(g, u) == silu(g', u) }

  ghost predicate Linear(silu: (real, real) -> real, k: real) { forall g, u :: silu(g, k * u) == k * silu(g, u) }

  lemma {:induction false} SecondIgnoredAt(silu: (real, real) -> real, g: real, u: real, u': real)
    requires IgnoresSecond(silu)
    ensures silu(g, u) == silu(g, u')
  {}

  lemma {:induction false} FirstIgnoredAt(silu: (real, real) -> real, g: real, g': real, u: real)
    requires IgnoresFirst(silu)
    ensures silu(g, u) == silu(g', u)
  {}

  lemma {:induction false} LinearAt(silu: (real, real) -> real, k: real, g: real, u: real)
    requires Linear(silu, k)
    ensures silu(g, k * u) == k * silu(g, u)
  {}

  lemma {:induction false} SecondIgnored(a: Net, b: Net, gate: Vector, up: Vector, up': Vector)
    requires |gate| <= |up| == |up'| && b.silu == a.silu && IgnoresSecond(a.silu)
    ensures SiluMul(a, gate, up) == SiluMul(b, gate, up')
  {
    forall i | 0 <= i < |gate| ensures SiluMul(a, gate, up)[i] == SiluMul(b, gate, up')[i] {
      SecondIgnoredAt(a.silu, gate[i], up[i], up'[i]);
    }
  }

  lemma {:induction false} FirstIgnored(a: Net, b: Net, gate: Vector, gate': Vector, up: Vector)
    requires |gate| == |gate'| <= |up| && b.silu == a.silu && IgnoresFirst(a.silu)
    ensures SiluMul(a, gate, up) == SiluMul(b, gate', up)
  {
    forall i | 0 <= i < |gate| ensures SiluMul(a, gate, up)[i] == SiluMul(b, gate', up)[i] {
      FirstIgnoredAt(a.silu, gate[i], gate'[i], up[i]);
    }
  }

  /** An activation that ignores its second argument does not see the Up matrices. */
  lemma {:induction false} UpIsSecond(c: Config, a: Net, b: Net, tokens: seq<int>)
    requires c.Valid() && |tokens| > 0 && SameBut(a, b, (id: MatId) => id.Up?)
    requires IgnoresSecond(a.silu)
    ensures Logits(c, a, tokens) == Logits(c, b, tokens)
  {
    forall l: nat, x: Vector | l < c.layers && |x| == c.dim
      ensures FeedForward(c, a, l, x) == FeedForward(c, b, l, x)
    {
      var xn := Norm(c, a, FfnNorm(l), x);
      assert xn == Norm(c, b, FfnNorm(l), x);
      SameMat(a, b, Gate(l), c.ffn, xn);
      var act := SiluMul(a, Mat(a, Gate(l), c.ffn, xn), Mat(a, Up(l), c.ffn, xn));
      SecondIgnored(a, b, Mat(a, Gate(l), c.ffn, xn), Mat(a, Up(l), c.ffn, xn), Mat(b, Up(l), c.ffn, xn));
      SameMat(a, b, Down(l), c.dim, act);
    }
    SameLogits(c, a, b, tokens);
  }

  /** One that ignores its first argument does not see the Gate matrices. */
  lemma {:induction false} GateIsFirst(c: Config, a: Net, b: Net, tokens: seq<int>)
    requires c.Valid() && |tokens| > 0 && SameBut(a, b, (id: MatId) => id.Gate?)
    requires IgnoresFirst(a.silu)
    ensures Logits(c, a, tokens) == Logits(c, b, tokens)
  {
    forall l: nat, x: Vector | l < c.layers && |x| == c.dim
      ensures FeedForward(c, a, l, x) == FeedForward(c, b, l, x)
    {
      var xn := Norm(c, a, FfnNorm(l), x);
      assert xn == Norm(c, b, FfnNorm(l), x);
      SameMat(a, b, Up(l), c.ffn, xn);
      var act := SiluMul(a, Mat(a, Gate(l), c.ffn, xn), Mat(a, Up(l), c.ffn, xn));
      FirstIgnored(a, b, Mat(a, Gate(l), c.ffn, xn), Mat(b, Gate(l), c.ffn, xn), Mat(a, Up(l), c.ffn, xn));
      SameMat(a, b, Down(l), c.dim, act);
    }
    SameLogits(c, a, b, tokens);
  }

  function Scaled(k: real, v: Vector): Vector { seq(|v|, i requires 0 <= i < |v| => k * v[i]) }

  /** b has k times the Up matrices of a and takes the factor out again in front of the Down matrices. */
  ghost predicate FactorMoved(a: Net, b: Net, k: real) {
    && SameBut(a, b, (id: MatId) => id.Up? || id.Down?)
    && (forall l: nat, v, i :: b.mat(Up(l), v, i) == k * a.mat(Up(l), v, i))
    && forall l: nat, v, i :: b.mat(Down(l), Scaled(k, v), i) == a.mat(Down(l), v, i)
  }

  /** With an activation that is linear in its second argument, as g * sigmoid(g) * u is, a factor may be moved
      from the Down matrices into the Up matrices. */
  lemma {:induction false} FactorMoves(c: Config, a: Net, b: Net, k: real, tokens: seq<int>)
    requires c.Valid() && |tokens| > 0 && FactorMoved(a, b, k)
    requires Linear(a.silu, k)
    ensures Logits(c, a, tokens) == Logits(c, b, tokens)
  {
    forall l: nat, x: Vector | l < c.layers && |x| == c.dim
      ensures FeedForward(c, a, l, x) == FeedForward(c, b, l, x)
    {
      FactorFeeds(c, a, b, k, l, x);
    }
    SameLogits(c, a, b, tokens);
  }

  lemma {:induction false} FactorFeeds(c: Config, a: Net, b: Net, k: real, l: nat, x: Vector)
    requires |x| == c.dim && FactorMoved(a, b, k) && Linear(a.silu, k)
    ensures FeedForward(c, a, l, x) == FeedForward(c, b, l, x)
  {
    var xn := Norm(c, a, FfnNorm(l), x);
    assert xn == Norm(c, b, FfnNorm(l), x);
    SameMat(a, b, Gate(l), c.ffn, xn);
    var gate, up := Mat(a, Gate(l), c.ffn, xn), Mat(a, Up(l), c.ffn, xn);
    var act := SiluMul(a, gate, up);
    assert Mat(b, Up(l), c.ffn, xn) == Scaled(k, up) by { UpScaled(a, b, k, l, c.ffn, xn); }
    SiluScaled(a, b, k, gate, up);
    assert Mat(b, Down(l), c.dim, Scaled(k, act)) == Mat(a, Down(l), c.dim, act);
  }

  lemma {:induction false} UpScaled(a: Net, b: Net, k: real, l: nat, n: nat, v: Vector)
    requires FactorMoved(a, b, k)
    ensures Mat(b, Up(l), n, v) == Scaled(k, Mat(a, Up(l), n, v))
  {
    forall i | 0 <= i < n ensures Mat(b, Up(l), n, v)[i] == Scaled(k, Mat(a, Up(l), n, v))[i] {
      assert b.mat(Up(l), v, i) == k * a.mat(Up(l), v, i);
    }
  }

  lemma {:induction false} SiluScaled(a: Net, b: Net, k: real, gate: Vector, up: Vector)
    requires |gate| <= |up| && b.silu == a.silu && Linear(a.silu, k)
    ensures SiluMul(b, gate, Scaled(k, up)) == Scaled(k, SiluMul(a, gate, up))
  {
    hide Linear;
    var x, y := SiluMul(b, gate, Scaled(k, up)), Scaled(k, SiluMul(a, gate, up));
    forall i | 0 <= i < |gate| ensures x[i] == y[i] {
      var g: real, u: real, ku: real := gate[i], up[i], Scaled(k, up)[i];
      LinearAt(a.silu, k, g, u);
      assert ku == k * u;
      assert x[i] == a.silu(g, ku) && SiluMul(a, gate, up)[i] == a.silu(g, u);
    }
  }

  ghost predicate Zero(net: Net, id: MatId) { forall v, i :: net.mat(id, v, i) == 0.0 }

  /** A layer whose Wo and Down are zero passes every position on unchanged. */
  lemma {:induction false} Residual(c: Config, net: Net, l: nat, h: seq<Vector>, i: nat)
    requires c.Valid() && Sized(h, c.dim) && i < |h| && Zero(net, Wo(l)) && Zero(net, Down(l))
    ensures LayerAt(c, net, l, h, i) == h[i]
  {
    var k, v := Flat(Keys(c, net, l, h)[..i + 1]), Flat(Values(c, net, l, h)[..i + 1]);
    hide Attend, Flat;
    assert Attention(c, net, l, i, h[i], k, v) == h[i];
    assert FeedForward(c, net, l, h[i]) == h[i];
  }

  /** With Wo zero a layer is its feed-forward half, with Down zero its attention half. */
  lemma {:induction false} Halves(c: Config, net: Net, l: nat, h: seq<Vector>, i: nat)
    requires c.Valid() && Sized(h, c.dim) && i < |h|
    ensures Zero(net, Wo(l)) ==> LayerAt(c, net, l, h, i) == FeedForward(c, net, l, h[i])
    ensures var k, v := Flat(Keys(c, net, l, h)[..i + 1]), Flat(Values(c, net, l, h)[..i + 1]);
      Zero(net, Down(l)) ==> LayerAt(c, net, l, h, i) == Attention(c, net, l, i, h[i], k, v)
  {
    var k, v := Flat(Keys(c, net, l, h)[..i + 1]), Flat(Values(c, net, l, h)[..i + 1]);
    hide Attend, Flat;
    if Zero(net, Wo(l)) { assert Attention(c, net, l, i, h[i], k, v) == h[i]; }
    if Zero(net, Down(l)) {
      var x := Attention(c, net, l, i, h[i], k, v);
      assert FeedForward(c, net, l, x) == x;
    }
  }

  /** Networks that differ in one norm only. */
  ghost predicate SameButNorm(a: Net, b: Net, id: NormId) {
    b == a.(norm := b.norm) && forall m, v, i :: m != id ==> b.norm(m, v, i) == a.norm(m, v, i)
  }

  lemma {:induction false} SameNorm(c: Config, a: Net, b: Net, id: NormId, v: Vector)
    requires forall i :: b.norm(id, v, i) == a.norm(id, v, i)
    ensures Norm(c, b, id, v) == Norm(c, a, id, v)
  {}

  /** With Wo zero, and so no attention to speak of, a layer does not see its first norm. */
  lemma {:induction false} FirstNormFeedsAttention(c: Config, a: Net, b: Net, l: nat, h: seq<Vector>, i: nat)
    requires c.Valid() && Sized(h, c.dim) && i < |h| && SameButNorm(a, b, AttnNorm(l)) && Zero(a, Wo(l))
    ensures LayerAt(c, a, l, h, i) == LayerAt(c, b, l, h, i)
  {
    Halves(c, a, l, h, i);
    Halves(c, b, l, h, i);
    SameNorm(c, a, b, FfnNorm(l), h[i]);
    hide LayerAt;
  }

  /** The keys and values of a layer do not see its second norm. */
  lemma {:induction false} SecondNormFeedsForward(c: Config, a: Net, b: Net, l: nat, tokens: seq<int>)
    requires c.Valid() && SameButNorm(a, b, FfnNorm(l))
    ensures KeyRows(c, a, l, tokens) == KeyRows(c, b, l, tokens)
    ensures ValueRows(c, a, l, tokens) == ValueRows(c, b, l, tokens)
  {
    hide LayerAt, Hidden;
    forall m: nat, h: seq<Vector>, i: nat | m < l && Sized(h, c.dim) && i < |h|
      ensures LayerAt(c, a, m, h, i) == LayerAt(c, b, m, h, i)
    {
      LowerLayer(c, a, b, l, m, h, i);
    }
    SameHidden(c, a, b, l, tokens);
    SameRowsOf(c, a, b, l, l, Hidden(c, a, l, tokens));
  }

  lemma {:induction false} SameRowsOf(c: Config, a: Net, b: Net, l: nat, m: nat, h: seq<Vector>)
    requires c.Valid() && SameButNorm(a, b, FfnNorm(l))
    ensures Keys(c, a, m, h) == Keys(c, b, m, h) && Values(c, a, m, h) == Values(c, b, m, h)
  {
    forall i | 0 <= i < |h| ensures Key(c, a, m, i, h[i]) == Key(c, b, m, i, h[i]) {
      SameNorm(c, a, b, AttnNorm(m), h[i]);
    }
    forall i | 0 <= i < |h| ensures Value(c, a, m, h[i]) == Value(c, b, m, h[i]) {
      SameNorm(c, a, b, AttnNorm(m), h[i]);
    }
  }

  lemma {:induction false} LowerLayer(c: Config, a: Net, b: Net, l: nat, m: nat, h: seq<Vector>, i: nat)
    requires c.Valid() && SameButNorm(a, b, FfnNorm(l)) && m < l && Sized(h, c.dim) && i < |h|
    ensures LayerAt(c, a, m, h, i) == LayerAt(c, b, m, h, i)
  {
    SameRowsOf(c, a, b, l, m, h);
    var k, v := Flat(Keys(c, a, m, h)[..i + 1]), Flat(Values(c, a, m, h)[..i + 1]);
    SameNorm(c, a, b, AttnNorm(m), h[i]);
    hide Attend, Flat;
    assert Query(c, a, m, i, h[i]) == Query(c, b, m, i, h[i]);
    SameAttend(c, a, b, Query(c, a, m, i, h[i]), k, v, i + 1);
    var x := Attention(c, a, m, i, h[i], k, v);
    assert x == Attention(c, b, m, i, h[i], k, v);
    SameNorm(c, a, b, FfnNorm(m), x);
    assert FeedForward(c, a, m, x) == FeedForward(c, b, m, x);
  }
}
