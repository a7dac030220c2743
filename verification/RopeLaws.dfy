/** Attention sees positions only through their differences: moving the query and every
    cached key by the same number of positions changes nothing. */
module RopeLaws {
  import opened Arith
  import opened Folds
  import opened RopeSpec
  import opened AttnCode
  import opened SoftmaxSpec
  import AttnKernel
  import Cpu

  /** The key cache k with row t rotated by position pos(t). */
  function RopedKeys(r: Rope, width: nat, k: int -> real, pos: int -> int): int -> real {
    i => if width == 0 then k(i) else Rotated(r, pos(i / width), KeyRow(k, width, i / width))(i % width)
  }

  function KeyRow(k: int -> real, width: nat, t: int): int -> real { c => k(t * width + c) }

  /** The launch with a query at position qpos and the key of row t at position kpos(t). */
  function Roped(r: Rope, a: Args, qpos: int, kpos: int -> int): Args {
    a.(q := Rotated(r, qpos, a.q), k := RopedKeys(r, a.nKV * a.headDim, a.k, kpos))
  }

  function Moved(pos: int -> int, s: int): int -> int { t => pos(t) + s }

  /** Query head h has a KV head. */
  predicate HeadFits(r: Rope, a: Args, h: nat) { r.headDim == a.headDim && KvHead(a, h) < a.nKV }

  lemma {:induction false} GroupedHeadFits(r: Rope, a: Args, nHeads: nat, h: nat)
    requires r.headDim == a.headDim && a.nKV > 0 && nHeads % a.nKV == 0 && a.group == nHeads / a.nKV && h < nHeads
    ensures HeadFits(r, a, h)
  {
    Cpu.GroupPositive(nHeads, a.nKV);
    Cpu.Quotient(h, a.group, a.nKV);
  }

  /** The rotated key element that the dot product reads. */
  lemma {:induction false} KeyElement(r: Rope, a: Args, h: nat, t: nat, d: nat, kpos: int -> int)
    requires HeadFits(r, a, h) && d < a.headDim
    ensures RopedKeys(r, a.nKV * a.headDim, a.k, kpos)(KvAt(a, h, t, d))
      == Rotated(r, kpos(t), KeyRow(a.k, a.nKV * a.headDim, t))(KvHead(a, h) * a.headDim + d)
  {
    hide Rotated;
    InTable(KvHead(a, h), d, a.nKV, a.headDim);
    DivModUnique(t, KvHead(a, h) * a.headDim + d, a.nKV * a.headDim, KvAt(a, h, t, d));
  }

  /** x' holds the pair at i of x turned by the angle of pair j at position p. */
  predicate PairTurned(r: Rope, p: int, j: int, x: int -> real, x': int -> real, i: int) {
    var a := Theta(r, p, j);
    x'(i) == First(r.cos(a), r.sin(a), x(i), x(i + 1)) && x'(i + 1) == Second(r.cos(a), r.sin(a), x(i), x(i + 1))
  }

  /** b holds the query head and the key row t of a, turned to positions qp and kp. */
  ghost predicate TurnedBy(r: Rope, a: Args, b: Args, h: nat, t: nat, qp: int, kp: int) {
    && b == a.(q := b.q, k := b.k)
    && (forall j :: 0 <= j < Half(r) ==> QueryPair(r, a, b, h, qp, j) && KeyPair(r, a, b, h, t, kp, j))
    && (a.headDim % 2 == 1 ==> SameLast(a, b, h, t))
  }

  predicate QueryPair(r: Rope, a: Args, b: Args, h: nat, qp: int, j: int) {
    PairTurned(r, qp, j, a.q, b.q, h * a.headDim + 2 * j)
  }

  predicate KeyPair(r: Rope, a: Args, b: Args, h: nat, t: nat, kp: int, j: int) {
    PairTurned(r, kp, j, a.k, b.k, KvAt(a, h, t, 2 * j))
  }

  predicate SameLast(a: Args, b: Args, h: nat, t: nat) {
    var d := a.headDim - 1;
    b.q(h * a.headDim + d) == a.q(h * a.headDim + d) && b.k(KvAt(a, h, t, d)) == a.k(KvAt(a, h, t, d))
  }

  lemma {:induction false} QueryPairTurned(r: Rope, a: Args, h: nat, qpos: int, kpos: int -> int, j: nat)
    requires HeadFits(r, a, h) && j < Half(r)
    ensures QueryPair(r, a, Roped(r, a, qpos, kpos), h, qpos, j)
  {
    hide Theta, First, Second, Rotated, RopedKeys;
    PairAt(r, qpos, a.q, h, j);
  }

  lemma {:induction false} KeyPairTurned(r: Rope, a: Args, h: nat, t: nat, qpos: int, kpos: int -> int, j: nat)
    requires HeadFits(r, a, h) && j < Half(r)
    ensures KeyPair(r, a, Roped(r, a, qpos, kpos), h, t, kpos(t), j)
  {
    hide Theta, First, Second, Rotated, RopedKeys, KvHead;
    var y, l := KeyRow(a.k, a.nKV * a.headDim, t), KvHead(a, h) * a.headDim + 2 * j;
    KeyElement(r, a, h, t, 2 * j, kpos);
    KeyElement(r, a, h, t, 2 * j + 1, kpos);
    PairAt(r, kpos(t), y, KvHead(a, h), j);
    assert y(l) == a.k(KvAt(a, h, t, 2 * j)) && y(l + 1) == a.k(KvAt(a, h, t, 2 * j) + 1);
  }

  lemma {:induction false} LastKept(r: Rope, a: Args, h: nat, t: nat, qpos: int, kpos: int -> int)
    requires HeadFits(r, a, h) && a.headDim % 2 == 1
    ensures SameLast(a, Roped(r, a, qpos, kpos), h, t)
  {
    hide Rotated, RopedKeys, KvHead;
    var y, l := KeyRow(a.k, a.nKV * a.headDim, t), KvHead(a, h) * a.headDim + (a.headDim - 1);
    KeyElement(r, a, h, t, a.headDim - 1, kpos);
    LastStays(r, qpos, a.q, h);
    LastStays(r, kpos(t), y, KvHead(a, h));
    assert y(l) == a.k(KvAt(a, h, t, a.headDim - 1));
  }

  lemma {:induction false} RopedTurns(r: Rope, a: Args, h: nat, t: nat, qpos: int, kpos: int -> int)
    requires HeadFits(r, a, h)
    ensures TurnedBy(r, a, Roped(r, a, qpos, kpos), h, t, qpos, kpos(t))
  {
    hide QueryPair, KeyPair, SameLast, HeadFits;
    var b := Roped(r, a, qpos, kpos);
    SameShape(r, a, qpos, kpos);
    hide Roped;
    forall j | 0 <= j < Half(r) ensures QueryPair(r, a, b, h, qpos, j) && KeyPair(r, a, b, h, t, kpos(t), j) {
      QueryPairTurned(r, a, h, qpos, kpos, j);
      KeyPairTurned(r, a, h, t, qpos, kpos, j);
    }
    if a.headDim % 2 == 1 { LastKept(r, a, h, t, qpos, kpos); }
  }

  lemma {:induction false} SameShape(r: Rope, a: Args, qpos: int, kpos: int -> int)
    ensures var b := Roped(r, a, qpos, kpos); b == a.(q := b.q, k := b.k)
  {}

  lemma {:induction false} SameKvAt(a: Args, b: Args, h: nat, t: nat, d: int)
    requires b == a.(q := b.q, k := b.k)
    ensures KvAt(b, h, t, d) == KvAt(a, h, t, d) && KvAt(a, h, t, d) == KvAt(a, h, t, d - 1) + 1
  {}

  /** Terms 2*j and 2*j + 1 of the dot product. */
  function PairTerms(b: Args, h: nat, t: nat, j: int): real { Product(b, h, t)(2 * j) + Product(b, h, t)(2 * j + 1) }

  lemma {:induction false} PairTermsAre(r: Rope, a: Args, b: Args, h: nat, t: nat, j: int, qp: int, kp: int)
    requires b == a.(q := b.q, k := b.k) && QueryPair(r, a, b, h, qp, j) && KeyPair(r, a, b, h, t, kp, j)
    ensures var k, l := h * a.headDim + 2 * j, KvAt(a, h, t, 2 * j);
      PairTerms(b, h, t, j) == TurnedDot(r, Theta(r, qp, j), Theta(r, kp, j), a.q(k), a.q(k + 1), a.k(l), a.k(l + 1))
  {
    SameKvAt(a, b, h, t, 2 * j);
    SameKvAt(a, b, h, t, 2 * j + 1);
    hide Theta, First, Second, KvAt;
  }

  lemma {:induction false} PairTermsShift(r: Rope, a: Args, b: Args, c: Args, h: nat, t: nat, j: int, qp: int, kp: int,
      s: int)
    requires TrigLaws(r) && 0 <= j < Half(r) && TurnedBy(r, a, b, h, t, qp + s, kp + s)
      && TurnedBy(r, a, c, h, t, qp, kp)
    ensures PairTerms(b, h, t, j) == PairTerms(c, h, t, j)
  {
    hide PairTerms, TurnedDot, Theta, KvAt, QueryPair, KeyPair, TrigLaws;
    var k, l := h * a.headDim + 2 * j, KvAt(a, h, t, 2 * j);
    PairTermsAre(r, a, b, h, t, j, qp + s, kp + s);
    PairTermsAre(r, a, c, h, t, j, qp, kp);
    PairDot(r, qp, kp, s, j, a.q(k), a.q(k + 1), a.k(l), a.k(l + 1));
  }

  lemma {:induction false} LastTerm(r: Rope, a: Args, b: Args, h: nat, t: nat, qp: int, kp: int)
    requires a.headDim % 2 == 1 && TurnedBy(r, a, b, h, t, qp, kp)
    ensures Product(b, h, t)(a.headDim - 1) == Product(a, h, t)(a.headDim - 1)
  {
    SameKvAt(a, b, h, t, a.headDim - 1);
    hide QueryPair, KeyPair, KvAt;
  }

  /** No score changes. */
  lemma {:induction false} ScoreShift(r: Rope, a: Args, b: Args, c: Args, h: nat, t: nat, qp: int, kp: int, s: int)
    requires TrigLaws(r) && r.headDim == a.headDim
    requires TurnedBy(r, a, b, h, t, qp + s, kp + s) && TurnedBy(r, a, c, h, t, qp, kp)
    ensures ScoreOf(b, h)(t) == ScoreOf(c, h)(t)
  {
    hide PairTerms, Product, QueryPair, KeyPair, SameLast, TrigLaws;
    forall j | 0 <= j < a.headDim / 2 ensures PairTerms(b, h, t, j) == PairTerms(c, h, t, j) {
      PairTermsShift(r, a, b, c, h, t, j, qp, kp, s);
    }
    if a.headDim % 2 == 1 {
      LastTerm(r, a, b, h, t, qp + s, kp + s);
      LastTerm(r, a, c, h, t, qp, kp);
    }
    SameTotal(b, c, h, t);
  }

  lemma {:induction false} SameTotal(b: Args, c: Args, h: nat, t: nat)
    requires c == b.(q := c.q, k := c.k)
    requires forall j :: 0 <= j < b.headDim / 2 ==> PairTerms(b, h, t, j) == PairTerms(c, h, t, j)
    requires b.headDim % 2 == 1 ==> Product(b, h, t)(b.headDim - 1) == Product(c, h, t)(b.headDim - 1)
    ensures ScoreOf(b, h)(t) == ScoreOf(c, h)(t)
  {
    hide Product;
    var f, g := Product(b, h, t), Product(c, h, t);
    forall j | 0 <= j < b.headDim / 2 ensures f(2 * j) + f(2 * j + 1) == g(2 * j) + g(2 * j + 1) {
      assert PairTerms(b, h, t, j) == PairTerms(c, h, t, j);
    }
    PairwiseTotal(f, g, b.headDim);
  }

  /** No output of a head that has a KV head changes. */
  lemma {:induction false} HeadShift(r: Rope, a: Args, h: nat, d: nat, qpos: int, kpos: int -> int, s: int)
    requires TrigLaws(r) && HeadFits(r, a, h)
    ensures AttnKernel.Attention(Roped(r, a, qpos + s, Moved(kpos, s)), h, d)
      == AttnKernel.Attention(Roped(r, a, qpos, kpos), h, d)
  {
    hide *;
    var b, c := Roped(r, a, qpos + s, Moved(kpos, s)), Roped(r, a, qpos, kpos);
    SameShape(r, a, qpos + s, Moved(kpos, s));
    SameShape(r, a, qpos, kpos);
    SameDim(r, a, h);
    forall t: int | 0 <= t < a.kvLen ensures ScoreOf(b, h)(t) == ScoreOf(c, h)(t) {
      RopedTurns(r, a, h, t, qpos + s, Moved(kpos, s));
      RopedTurns(r, a, h, t, qpos, kpos);
      MovedAt(kpos, s, t);
      ScoreShift(r, a, b, c, h, t, qpos, kpos(t), s);
    }
    SameScores(b, c, h, d);
  }

  /** No output of a grouped-query layer changes: the model's head counts give every head a KV head. */
  lemma {:induction false} AttentionShift(r: Rope, a: Args, nHeads: nat, qpos: int, kpos: int -> int, s: int)
    requires TrigLaws(r) && r.headDim == a.headDim
    requires a.nKV > 0 && nHeads % a.nKV == 0 && a.group == nHeads / a.nKV
    ensures forall h: nat, d: nat | h < nHeads ::
      AttnKernel.Attention(Roped(r, a, qpos + s, Moved(kpos, s)), h, d)
        == AttnKernel.Attention(Roped(r, a, qpos, kpos), h, d)
  {
    hide *;
    forall h: nat, d: nat | h < nHeads
      ensures AttnKernel.Attention(Roped(r, a, qpos + s, Moved(kpos, s)), h, d)
        == AttnKernel.Attention(Roped(r, a, qpos, kpos), h, d)
    {
      GroupedHeadFits(r, a, nHeads, h);
      HeadShift(r, a, h, d, qpos, kpos, s);
    }
  }

  lemma {:induction false} MovedAt(pos: int -> int, s: int, t: int)
    ensures Moved(pos, s)(t) == pos(t) + s
  {}

  lemma {:induction false} SameDim(r: Rope, a: Args, h: nat)
    requires HeadFits(r, a, h)
    ensures r.headDim == a.headDim
  {}

  lemma {:induction false} SameScores(b: Args, c: Args, h: nat, d: nat)
    requires c == b.(q := c.q, k := c.k)
    requires forall t: int :: 0 <= t < b.kvLen ==> ScoreOf(b, h)(t) == ScoreOf(c, h)(t)
    ensures AttnKernel.Attention(b, h, d) == AttnKernel.Attention(c, h, d)
  {
    hide ScoreOf, Total, Mul;
    var x, y := ScoreOf(b, h), ScoreOf(c, h);
    forall t | 0 <= t < b.kvLen ensures Exps(b.exp, x)(t) == Exps(c.exp, y)(t) {}
    TotalCongruence(Exps(b.exp, x), Exps(c.exp, y), b.kvLen);
    var e, f := AttnKernel.Weights(b.exp, x, b.kvLen), AttnKernel.Weights(c.exp, y, c.kvLen);
    forall t | 0 <= t < b.kvLen ensures Weighted(b, h, e, d)(t) == Weighted(c, h, f, d)(t) {
      assert KvAt(b, h, t, d) == KvAt(c, h, t, d);
    }
    TotalCongruence(Weighted(b, h, e, d), Weighted(c, h, f, d), b.kvLen);
  }
}
