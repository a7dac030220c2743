/** What the layers of the transformer compute, stated without them: a forward pass is any collection of
    vectors that satisfies the equations of a grouped-query transformer element by element, and there is
    exactly one, the one whose logits Forward returns. */
module ForwardPass {
  import opened Arith
  import opened Folds
  import opened SoftmaxSpec
  import opened Transformer
  import opened SingleHead
  import AttnKernel
  import Cpu

  /** The vectors of one layer for one position. */
  datatype Step = Step(xn: Vector, wq: Vector, q: Vector, wk: Vector, k: Vector, v: Vector, attn: Vector, mid: Vector,
    mn: Vector, act: Vector)

  /** v has n elements, those of f. */
  ghost predicate Is(v: Vector, n: nat, f: int -> real) { |v| == n && forall i :: 0 <= i < n ==> v[i] == f(i) }

  /** v is a plus what f adds. */
  ghost predicate IsSum(v: Vector, a: Vector, f: int -> real) {
    |v| == |a| && forall i :: 0 <= i < |v| ==> v[i] == a[i] + f(i)
  }

  /** The columns of one head. */
  function HeadRows(rows: seq<Vector>, at: int, n: nat): seq<Vector> {
    seq(|rows|, t requires 0 <= t < |rows| => Stretch(Floats(rows[t]), at, n))
  }

  /** Query head h attends with KV head h / (heads / kvHeads) of every row. */
  ghost predicate HeadIs(c: Config, net: Net, q: Vector, ks: seq<Vector>, vs: seq<Vector>, attn: Vector, h: nat)
    requires c.Valid() && c.heads / c.kvHeads > 0
  {
    var n, at := c.headDim, (h / (c.heads / c.kvHeads)) * c.headDim;
    Attends(net.exp, net.scale, Stretch(Floats(q), h * n, n), HeadRows(ks, at, n), HeadRows(vs, at, n),
      Stretch(Floats(attn), h * n, n))
  }

  ghost predicate HeadsAre(c: Config, net: Net, q: Vector, ks: seq<Vector>, vs: seq<Vector>, attn: Vector)
    requires c.Valid()
  {
    && |attn| == c.heads * c.headDim
    && (c.heads > 0 ==>
      && c.heads / c.kvHeads > 0
      && forall h :: 0 <= h < c.heads ==> HeadIs(c, net, q, ks, vs, attn, h))
  }

  /** Layer l takes x at position pos to y; ks and vs are the keys and values of the positions up to pos. */
  ghost predicate LayerIs(c: Config, net: Net, l: nat, pos: nat, x: Vector, ks: seq<Vector>, vs: seq<Vector>, s: Step,
      y: Vector)
    requires c.Valid()
  {
    && Is(s.xn, c.dim, i => net.norm(AttnNorm(l), x, i))
    && Is(s.wq, c.heads * c.headDim, i => net.mat(Wq(l), s.xn, i))
    && Is(s.q, c.heads * c.headDim, i => net.rope(c.heads, pos, s.wq, i))
    && Is(s.wk, c.kvHeads * c.headDim, i => net.mat(Wk(l), s.xn, i))
    && Is(s.k, c.kvHeads * c.headDim, i => net.rope(c.kvHeads, pos, s.wk, i))
    && Is(s.v, c.kvHeads * c.headDim, i => net.mat(Wv(l), s.xn, i))
    && HeadsAre(c, net, s.q, ks, vs, s.attn)
    && IsSum(s.mid, x, i => net.mat(Wo(l), s.attn, i))
    && Is(s.mn, c.dim, i => net.norm(FfnNorm(l), s.mid, i))
    && Is(s.act, c.ffn, i => net.silu(net.mat(Gate(l), s.mn, i), net.mat(Up(l), s.mn, i)))
    && IsSum(y, s.mid, i => net.mat(Down(l), s.act, i))
  }

  function KeysOf(steps: seq<Step>): seq<Vector> { seq(|steps|, i requires 0 <= i < |steps| => steps[i].k) }

  function ValuesOf(steps: seq<Step>): seq<Vector> { seq(|steps|, i requires 0 <= i < |steps| => steps[i].v) }

  /** All positions before and after every layer, and the steps in between. */
  datatype Pass = Pass(states: seq<seq<Vector>>, steps: seq<seq<Step>>, last: Vector, logits: Vector)

  ghost predicate Shaped(c: Config, n: nat, p: Pass) {
    && |p.states| == c.layers + 1 && |p.steps| == c.layers
    && (forall l :: 0 <= l <= c.layers ==> |p.states[l]| == n)
    && forall l :: 0 <= l < c.layers ==> |p.steps[l]| == n
  }

  ghost predicate IsPass(c: Config, net: Net, tokens: seq<int>, p: Pass)
    requires c.Valid() && |tokens| > 0
  {
    && Shaped(c, |tokens|, p)
    && (forall i :: 0 <= i < |tokens| ==> Is(p.states[0][i], c.dim, j => net.embed(tokens[i], j)))
    && (forall l, i :: 0 <= l < c.layers && 0 <= i < |tokens| ==> StepIs(c, net, p, l, i))
    && Is(p.last, c.dim, j => net.norm(OutNorm, p.states[c.layers][|tokens| - 1], j))
    && Is(p.logits, c.vocab, j => net.mat(Head, p.last, j))
  }

  /** Position i attends to the positions up to i. */
  ghost predicate StepIs(c: Config, net: Net, p: Pass, l: nat, i: nat)
    requires c.Valid() && l < |p.steps| < |p.states| && i < |p.steps[l]| == |p.states[l]| == |p.states[l + 1]|
  {
    LayerIs(c, net, l, i, p.states[l][i], KeysOf(p.steps[l][..i + 1]), ValuesOf(p.steps[l][..i + 1]), p.steps[l][i],
      p.states[l + 1][i])
  }

  // ---- the attention of the transformer, head by head

  lemma {:induction false} FlatAt(rows: seq<Vector>, m: nat, t: nat, d: nat)
    requires Sized(rows, m) && t < |rows| && d < m
    ensures 0 <= t * m + d < |Flat(rows)| && Flat(rows)[t * m + d] == rows[t][d]
  {
    FlatLength(rows[..t], m);
    FlatNext(rows, t);
    FlatPrefix(rows, t + 1, m);
    InTable(t, d, t + 1, m);
    assert Flat(rows)[t * m + d] == Flat(rows)[..(t + 1) * m][t * m + d];
  }

  lemma {:induction false} CutIsHeadRows(rows: seq<Vector>, m: nat, at: nat, n: nat)
    requires Sized(rows, m) && at + n <= m
    ensures Cut(Floats(Flat(rows)), m, at, |rows|, n) == HeadRows(rows, at, n)
  {
    var a, b := Cut(Floats(Flat(rows)), m, at, |rows|, n), HeadRows(rows, at, n);
    forall t | 0 <= t < |rows| ensures a[t] == b[t] {
      forall d | 0 <= d < n ensures a[t][d] == b[t][d] { FlatAt(rows, m, t, at + d); }
    }
  }

  lemma {:induction false} AttendHeads(c: Config, net: Net, q: Vector, ks: seq<Vector>, vs: seq<Vector>)
    requires c.Valid() && ExpLike(net.exp) && |ks| == |vs| > 0 && Sized(ks, c.KvDim()) && Sized(vs, c.KvDim())
    ensures HeadsAre(c, net, q, ks, vs, Attend(c, net, q, Flat(ks), Flat(vs), |ks|))
  {
    var attn := Attend(c, net, q, Flat(ks), Flat(vs), |ks|);
    AttendLength(c, net, q, Flat(ks), Flat(vs), |ks|);
    if c.heads > 0 {
      Cpu.GroupPositive(c.heads, c.kvHeads);
      hide Attend, HeadIs, ExpLike;
      forall h | 0 <= h < c.heads ensures HeadIs(c, net, q, ks, vs, attn, h) {
        AttendHead(c, net, q, ks, vs, h);
      }
    }
  }

  lemma {:induction false} AttendLength(c: Config, net: Net, q: Vector, k: Vector, v: Vector, n: nat)
    requires c.Valid()
    ensures |Attend(c, net, q, k, v, n)| == c.heads * c.headDim
  {}

  lemma {:induction false} AttendHead(c: Config, net: Net, q: Vector, ks: seq<Vector>, vs: seq<Vector>, h: nat)
    requires c.Valid() && c.heads / c.kvHeads > 0 && ExpLike(net.exp) && h < c.heads
    requires |ks| == |vs| > 0 && Sized(ks, c.KvDim()) && Sized(vs, c.KvDim())
    ensures HeadIs(c, net, q, ks, vs, Attend(c, net, q, Flat(ks), Flat(vs), |ks|), h)
  {
    var k, v, n := Flat(ks), Flat(vs), |ks|;
    var attn := Attend(c, net, q, k, v, n);
    forall d | 0 <= d < c.headDim
      ensures Cpu.Attended(Cpu.ArgsOf(q, k, v, n, c.heads, c.kvHeads, c.headDim, net.scale, net.exp), attn, h, d)
    {
      AttendedAt(c, net, q, k, v, n, h, d);
    }
    hide *;
    Cpu.HeadIsDone(net.exp, net.scale, q, k, v, attn, n, c.heads, c.kvHeads, c.headDim, h);
    DoneIs(c, net, q, ks, vs, attn, h);
  }

  lemma {:induction false} AttendedAt(c: Config, net: Net, q: Vector, k: Vector, v: Vector, n: nat, h: nat, d: nat)
    requires c.Valid() && h < c.heads && d < c.headDim
    ensures Cpu.Attended(Cpu.ArgsOf(q, k, v, n, c.heads, c.kvHeads, c.headDim, net.scale, net.exp),
      Attend(c, net, q, k, v, n), h, d)
  {
    InTable(h, d, c.heads, c.headDim);
    DivModUnique(h, d, c.headDim, h * c.headDim + d);
    hide AttnKernel.Attention;
  }

  lemma {:induction false} DoneIs(c: Config, net: Net, q: Vector, ks: seq<Vector>, vs: seq<Vector>, attn: Vector,
      h: nat)
    requires c.Valid() && c.heads / c.kvHeads > 0 && h < c.heads && |ks| == |vs| && Sized(ks, c.KvDim())
      && Sized(vs, c.KvDim())
    requires Cpu.HeadDone(net.exp, net.scale, q, Flat(ks), Flat(vs), attn, |ks|, c.heads, c.kvHeads, c.headDim, h)
    ensures HeadIs(c, net, q, ks, vs, attn, h)
  {
    HeadColumns(c, h);
    hide Attends, Cut, HeadRows, Stretch, Flat;
    CutIsHeadRows(ks, c.KvDim(), (h / (c.heads / c.kvHeads)) * c.headDim, c.headDim);
    CutIsHeadRows(vs, c.KvDim(), (h / (c.heads / c.kvHeads)) * c.headDim, c.headDim);
  }

  lemma {:induction false} HeadColumns(c: Config, h: nat)
    requires c.Valid() && c.heads / c.kvHeads > 0 && h < c.heads
    ensures 0 <= (h / (c.heads / c.kvHeads)) * c.headDim <= c.KvDim() - c.headDim
  {
    Cpu.GroupPositive(c.heads, c.kvHeads);
    Cpu.Quotient(h, c.heads / c.kvHeads, c.kvHeads);
    RowInTable(h / (c.heads / c.kvHeads), c.kvHeads, c.headDim);
  }

  /** No other vector satisfies the equations of the heads. */
  lemma {:induction false} HeadsOnce(c: Config, net: Net, q: Vector, ks: seq<Vector>, vs: seq<Vector>, a: Vector,
      b: Vector)
    requires c.Valid() && ExpLike(net.exp) && HeadsAre(c, net, q, ks, vs, a) && HeadsAre(c, net, q, ks, vs, b)
    ensures a == b
  {
    var n := c.headDim;
    hide HeadIs, ExpLike;
    forall i | 0 <= i < |a| ensures a[i] == b[i] {
      var h, d := i / n, i % n;
      QuotientBelow(i, n, c.heads);
      HeadOnce(c, net, q, ks, vs, a, b, h);
      assert Stretch(Floats(a), h * n, n)[d] == Stretch(Floats(b), h * n, n)[d];
      assert i == h * n + d;
    }
  }

  lemma {:induction false} HeadOnce(c: Config, net: Net, q: Vector, ks: seq<Vector>, vs: seq<Vector>, a: Vector,
      b: Vector, h: nat)
    requires c.Valid() && c.heads / c.kvHeads > 0 && ExpLike(net.exp)
    requires HeadIs(c, net, q, ks, vs, a, h) && HeadIs(c, net, q, ks, vs, b, h)
    ensures Stretch(Floats(a), h * c.headDim, c.headDim) == Stretch(Floats(b), h * c.headDim, c.headDim)
  {
    var n, at := c.headDim, (h / (c.heads / c.kvHeads)) * c.headDim;
    hide Attends, ExpLike, Stretch, HeadRows;
    AttendsOnce(net.exp, net.scale, Stretch(Floats(q), h * n, n), HeadRows(ks, at, n), HeadRows(vs, at, n),
      Stretch(Floats(a), h * n, n), Stretch(Floats(b), h * n, n));
  }

  // ---- one layer

  /** The step the transformer takes. */
  function StepOf(c: Config, net: Net, l: nat, pos: nat, x: Vector, k: Vector, v: Vector): Step
    requires c.Valid() && |x| == c.dim
  {
    var xn := Normed(c, net, l, x);
    var q := Query(c, net, l, pos, x);
    var attn := Attend(c, net, q, k, v, pos + 1);
    var mid := AddVec(x, Mat(net, Wo(l), c.dim, attn));
    var mn := Norm(c, net, FfnNorm(l), mid);
    Step(xn, Mat(net, Wq(l), c.QDim(), xn), q, Mat(net, Wk(l), c.KvDim(), xn), Key(c, net, l, pos, x),
      Value(c, net, l, x), attn, mid, mn, SiluMul(net, Mat(net, Gate(l), c.ffn, mn), Mat(net, Up(l), c.ffn, mn)))
  }

  /** That step satisfies the equations of a layer. */
  lemma {:induction false} StepOfIs(c: Config, net: Net, l: nat, pos: nat, x: Vector, ks: seq<Vector>, vs: seq<Vector>)
    requires c.Valid() && ExpLike(net.exp) && |x| == c.dim && |ks| == |vs| == pos + 1
    requires Sized(ks, c.KvDim()) && Sized(vs, c.KvDim())
    ensures LayerIs(c, net, l, pos, x, ks, vs, StepOf(c, net, l, pos, x, Flat(ks), Flat(vs)),
      Transformer.FeedForward(c, net, l, Transformer.Attention(c, net, l, pos, x, Flat(ks), Flat(vs))))
  {
    AttendHeads(c, net, Query(c, net, l, pos, x), ks, vs);
    hide HeadsAre, Attend, ExpLike, Flat;
  }

  /** Keys and values of a position depend on its own vector only. */
  lemma {:induction false} KeyOnce(c: Config, net: Net, l: nat, pos: nat, x: Vector, ks: seq<Vector>, vs: seq<Vector>,
      s: Step, y: Vector)
    requires c.Valid() && LayerIs(c, net, l, pos, x, ks, vs, s, y)
    ensures s.xn == Normed(c, net, l, x) && s.q == Query(c, net, l, pos, x)
    ensures s.k == Key(c, net, l, pos, x) && s.v == Value(c, net, l, x)
  {
    hide HeadsAre;
    assert s.wq == Mat(net, Wq(l), c.QDim(), s.xn);
    assert s.wk == Mat(net, Wk(l), c.KvDim(), s.xn);
  }

  /** A layer takes a position to one vector only, the transformer's. */
  lemma {:induction false} LayerOnce(c: Config, net: Net, l: nat, pos: nat, x: Vector, ks: seq<Vector>, vs: seq<Vector>,
      s: Step, y: Vector)
    requires c.Valid() && ExpLike(net.exp) && |x| == c.dim && |ks| == |vs| == pos + 1
    requires Sized(ks, c.KvDim()) && Sized(vs, c.KvDim())
    requires LayerIs(c, net, l, pos, x, ks, vs, s, y)
    ensures y == Transformer.FeedForward(c, net, l, Transformer.Attention(c, net, l, pos, x, Flat(ks), Flat(vs)))
  {
    KeyOnce(c, net, l, pos, x, ks, vs, s, y);
    AttendHeads(c, net, s.q, ks, vs);
    hide HeadsAre, Attend, ExpLike, Flat;
    HeadsOnce(c, net, s.q, ks, vs, s.attn, Attend(c, net, s.q, Flat(ks), Flat(vs), pos + 1));
    assert s.mid == AddVec(x, Mat(net, Wo(l), c.dim, s.attn));
    FeedForwardOnce(c, net, l, s, y);
  }

  lemma {:induction false} FeedForwardOnce(c: Config, net: Net, l: nat, s: Step, y: Vector)
    requires |s.mid| == c.dim && Is(s.mn, c.dim, i => net.norm(FfnNorm(l), s.mid, i))
    requires Is(s.act, c.ffn, i => net.silu(net.mat(Gate(l), s.mn, i), net.mat(Up(l), s.mn, i)))
    requires IsSum(y, s.mid, i => net.mat(Down(l), s.act, i))
    ensures y == Transformer.FeedForward(c, net, l, s.mid)
  {
    assert s.mn == Norm(c, net, FfnNorm(l), s.mid);
    assert s.act == SiluMul(net, Mat(net, Gate(l), c.ffn, s.mn), Mat(net, Up(l), c.ffn, s.mn));
  }

  // ---- a whole pass

  lemma {:induction false} StatesOnce(c: Config, net: Net, tokens: seq<int>, p: Pass, l: nat)
    requires c.Valid() && |tokens| > 0 && ExpLike(net.exp) && IsPass(c, net, tokens, p) && l <= c.layers
    ensures p.states[l] == Hidden(c, net, l, tokens)
  {
    hide LayerAt, ExpLike, StepIs;
    if l == 0 {
      forall i | 0 <= i < |tokens| ensures p.states[0][i] == Embed(c, net, tokens[i]) {}
    } else {
      StatesOnce(c, net, tokens, p, l - 1);
      var m, h := l - 1, Hidden(c, net, l - 1, tokens);
      forall i | 0 <= i < |tokens| ensures p.states[l][i] == LayerAt(c, net, m, h, i) {
        assert forall j :: 0 <= j <= i ==> StepIs(c, net, p, m, j);
        StateOnce(c, net, p, m, h, i);
      }
    }
  }

  lemma {:induction false} StateOnce(c: Config, net: Net, p: Pass, l: nat, h: seq<Vector>, i: nat)
    requires c.Valid() && ExpLike(net.exp) && Sized(h, c.dim) && i < |h|
    requires l < |p.steps| < |p.states| && |p.steps[l]| == |p.states[l]| == |p.states[l + 1]| && p.states[l] == h
    requires forall j :: 0 <= j <= i ==> StepIs(c, net, p, l, j)
    ensures p.states[l + 1][i] == LayerAt(c, net, l, h, i)
  {
    var ks, vs := Keys(c, net, l, h)[..i + 1], Values(c, net, l, h)[..i + 1];
    hide LayerIs, ExpLike, Flat, Transformer.FeedForward, Transformer.Attention;
    forall j | 0 <= j <= i ensures p.steps[l][j].k == ks[j] && p.steps[l][j].v == vs[j] {
      assert StepIs(c, net, p, l, j);
      KeyOnce(c, net, l, j, h[j], KeysOf(p.steps[l][..j + 1]), ValuesOf(p.steps[l][..j + 1]), p.steps[l][j],
        p.states[l + 1][j]);
    }
    assert KeysOf(p.steps[l][..i + 1]) == ks && ValuesOf(p.steps[l][..i + 1]) == vs;
    assert StepIs(c, net, p, l, i);
    LayerOnce(c, net, l, i, h[i], ks, vs, p.steps[l][i], p.states[l + 1][i]);
  }

  /** The pass the transformer makes. */
  function StepsOf(c: Config, net: Net, l: nat, h: seq<Vector>): seq<Step>
    requires c.Valid() && Sized(h, c.dim)
  {
    seq(|h|, i requires 0 <= i < |h| =>
      StepOf(c, net, l, i, h[i], Flat(Keys(c, net, l, h)[..i + 1]), Flat(Values(c, net, l, h)[..i + 1])))
  }

  function PassOf(c: Config, net: Net, tokens: seq<int>): Pass
    requires c.Valid() && |tokens| > 0
  {
    var last := Norm(c, net, OutNorm, Hidden(c, net, c.layers, tokens)[|tokens| - 1]);
    Pass(seq(c.layers + 1, l requires 0 <= l <= c.layers => Hidden(c, net, l, tokens)),
      seq(c.layers, l requires 0 <= l < c.layers => StepsOf(c, net, l, Hidden(c, net, l, tokens))),
      last, Mat(net, Head, c.vocab, last))
  }

  lemma {:induction false} PassOfIs(c: Config, net: Net, tokens: seq<int>)
    requires c.Valid() && |tokens| > 0 && ExpLike(net.exp)
    ensures IsPass(c, net, tokens, PassOf(c, net, tokens))
  {
    PassParts(c, net, tokens);
    PassStarts(c, net, tokens);
    PassSteps(c, net, tokens);
    PassEnds(c, net, tokens);
    hide Hidden, StepIs, PassOf, StepsOf, Is, ExpLike, Mat, Norm, Logits;
  }

  lemma {:induction false} PassStarts(c: Config, net: Net, tokens: seq<int>)
    requires c.Valid() && |tokens| > 0
    ensures var p := PassOf(c, net, tokens);
      forall i :: 0 <= i < |tokens| ==> Is(p.states[0][i], c.dim, j => net.embed(tokens[i], j))
  {
    PassParts(c, net, tokens);
    Embedded(c, net, tokens);
    hide Hidden, PassOf;
  }

  lemma {:induction false} PassSteps(c: Config, net: Net, tokens: seq<int>)
    requires c.Valid() && |tokens| > 0 && ExpLike(net.exp) && Shaped(c, |tokens|, PassOf(c, net, tokens))
    ensures forall l, i :: 0 <= l < c.layers && 0 <= i < |tokens| ==> StepIs(c, net, PassOf(c, net, tokens), l, i)
  {
    PassParts(c, net, tokens);
    hide Hidden, StepIs, PassOf, StepsOf, ExpLike, Is, Logits;
    forall l, i | 0 <= l < c.layers && 0 <= i < |tokens| ensures StepIs(c, net, PassOf(c, net, tokens), l, i) {
      HiddenNext(c, net, l, tokens, i);
      StepTaken(c, net, PassOf(c, net, tokens), l, Hidden(c, net, l, tokens), i);
    }
  }

  lemma {:induction false} PassEnds(c: Config, net: Net, tokens: seq<int>)
    requires c.Valid() && |tokens| > 0 && Shaped(c, |tokens|, PassOf(c, net, tokens))
    ensures var p := PassOf(c, net, tokens);
      && Is(p.last, c.dim, j => net.norm(OutNorm, p.states[c.layers][|tokens| - 1], j))
      && Is(p.logits, c.vocab, j => net.mat(Head, p.last, j))
  {
    PassParts(c, net, tokens);
    hide Hidden, StepsOf, PassOf, Logits;
  }

  lemma {:induction false} PassParts(c: Config, net: Net, tokens: seq<int>)
    requires c.Valid() && |tokens| > 0
    ensures var p := PassOf(c, net, tokens);
      && Shaped(c, |tokens|, p)
      && (forall l :: 0 <= l <= c.layers ==> p.states[l] == Hidden(c, net, l, tokens))
      && (forall l :: 0 <= l < c.layers ==> p.steps[l] == StepsOf(c, net, l, Hidden(c, net, l, tokens)))
      && p.last == Norm(c, net, OutNorm, Hidden(c, net, c.layers, tokens)[|tokens| - 1])
      && p.logits == Mat(net, Head, c.vocab, p.last) == Logits(c, net, tokens)
  {
    hide Hidden, StepsOf;
    forall l | 0 <= l < c.layers
      ensures |StepsOf(c, net, l, Hidden(c, net, l, tokens))| == |tokens|
    {
      StepsLength(c, net, l, Hidden(c, net, l, tokens));
    }
  }

  lemma {:induction false} StepsLength(c: Config, net: Net, l: nat, h: seq<Vector>)
    requires c.Valid() && Sized(h, c.dim)
    ensures |StepsOf(c, net, l, h)| == |h|
  {}

  lemma {:induction false} Embedded(c: Config, net: Net, tokens: seq<int>)
    requires c.Valid()
    ensures forall i :: 0 <= i < |tokens| ==> Hidden(c, net, 0, tokens)[i] == Embed(c, net, tokens[i])
  {}

  lemma {:induction false} HiddenNext(c: Config, net: Net, l: nat, tokens: seq<int>, i: nat)
    requires c.Valid() && i < |tokens|
    ensures Hidden(c, net, l + 1, tokens)[i] == LayerAt(c, net, l, Hidden(c, net, l, tokens), i)
  {
    hide LayerAt;
  }

  lemma {:induction false} StepTaken(c: Config, net: Net, p: Pass, l: nat, h: seq<Vector>, i: nat)
    requires c.Valid() && ExpLike(net.exp) && Sized(h, c.dim) && i < |h|
    requires l < |p.steps| < |p.states| && p.states[l] == h && p.steps[l] == StepsOf(c, net, l, h)
    requires |p.states[l + 1]| == |h| && p.states[l + 1][i] == LayerAt(c, net, l, h, i)
    ensures StepIs(c, net, p, l, i)
  {
    var ks, vs := Keys(c, net, l, h)[..i + 1], Values(c, net, l, h)[..i + 1];
    hide LayerIs, ExpLike, Flat, Transformer.FeedForward, Transformer.Attention, Attend;
    assert KeysOf(p.steps[l][..i + 1]) == ks && ValuesOf(p.steps[l][..i + 1]) == vs;
    RowsSized(c, net, l, h, i);
    StepOfIs(c, net, l, i, h[i], ks, vs);
  }

  lemma {:induction false} RowsSized(c: Config, net: Net, l: nat, h: seq<Vector>, i: nat)
    requires c.Valid() && i < |h|
    ensures Sized(Keys(c, net, l, h)[..i + 1], c.KvDim()) && Sized(Values(c, net, l, h)[..i + 1], c.KvDim())
  {}

  /** Logits are those of a forward pass, and of every forward pass. */
  lemma {:induction false} LogitsExactly(c: Config, net: Net, tokens: seq<int>, logits: Vector)
    requires c.Valid() && |tokens| > 0 && ExpLike(net.exp)
    ensures logits == Logits(c, net, tokens) <==> exists p :: IsPass(c, net, tokens, p) && p.logits == logits
  {
    hide Hidden, ExpLike, StepIs;
    PassOfIs(c, net, tokens);
    assert PassOf(c, net, tokens).logits == Logits(c, net, tokens);
    forall p | IsPass(c, net, tokens, p) ensures p.logits == Logits(c, net, tokens) {
      StatesOnce(c, net, tokens, p, c.layers);
      assert p.last == Norm(c, net, OutNorm, Hidden(c, net, c.layers, tokens)[|tokens| - 1]);
    }
  }
}
