/** What softmax and attention mean, and why shifting by the maximum does not matter. */
module SoftmaxSpec {
  import opened Folds

  /** The laws of the exponential the kernels rely on. */
  ghost predicate ExpLike(exp: real -> real) {
    (forall x :: exp(x) > 0.0) && forall a, b :: exp(a + b) == exp(a) * exp(b)
  }

  function ExpTerm(exp: real -> real, x: int -> real, m: real): int -> real { t => exp(x(t) - m) }

  function Exps(exp: real -> real, x: int -> real): int -> real { t => exp(x(t)) }

  function Recip(x: real): real { if x == 0.0 then 0.0 else 1.0 / x }

  function Total(f: int -> real, n: nat): real { Accumulate(Add, 0.0, f, n) }

  /** Element t of softmax(x). */
  function Weight(exp: real -> real, x: int -> real, n: nat, t: int): real {
    Mul(exp(x(t)), Recip(Total(Exps(exp, x), n)))
  }

  lemma {:induction false} TotalCongruence(f: int -> real, g: int -> real, n: nat)
    requires forall t :: 0 <= t < n ==> f(t) == g(t)
    ensures Total(f, n) == Total(g, n)
  {
    AccumulateCongruence(Add, 0.0, f, g, n);
  }

  lemma {:induction false} TotalPositive(f: int -> real, n: nat)
    requires n > 0 && forall t :: f(t) > 0.0
    ensures Total(f, n) > 0.0
  {
    if n == 1 {
      assert Total(f, 1) == Add(Total(f, 0), f(0));
    } else {
      TotalPositive(f, n - 1);
      assert Total(f, n) == Add(Total(f, n - 1), f(n - 1));
    }
  }

  function Times(f: int -> real, k: real): int -> real { t => Mul(f(t), k) }

  lemma {:induction false} TotalScale(f: int -> real, k: real, n: nat)
    ensures Total(Times(f, k), n) == Mul(Total(f, n), k)
  {
    if n > 0 {
      TotalScale(f, k, n - 1);
      Distribute(Total(f, n - 1), f(n - 1), k);
    }
  }

  lemma {:induction false} Distribute(a: real, b: real, k: real)
    ensures (a + b) * k == a * k + b * k
  {}

  lemma {:induction false} Cancel(a: real, b: real, k: real)
    requires b != 0.0 && k != 0.0
    ensures Mul(Mul(a, k), Recip(Mul(b, k))) == Mul(a, Recip(b))
  {
    assert b * k != 0.0 && (a * k) * (1.0 / (b * k)) == a * (1.0 / b);
  }

  /** The weights do not depend on the shift m, which only keeps exp from overflowing. */
  lemma {:induction false} ShiftInvariant(exp: real -> real, x: int -> real, n: nat, m: real, t: int)
    requires ExpLike(exp) && 0 <= t < n
    ensures Mul(exp(x(t) - m), Recip(Total(ExpTerm(exp, x, m), n))) == Weight(exp, x, n, t)
  {
    hide Mul, ExpLike, Recip, Total;
    var f, g, k := Exps(exp, x), ExpTerm(exp, x, m), exp(-m);
    var h := Times(f, k);
    forall u | 0 <= u < n ensures g(u) == h(u) { Shifted(exp, x(u), m); }
    TotalCongruence(g, h, n);
    TotalScale(f, k, n);
    ExpsPositive(exp, x);
    TotalPositive(f, n);
    Shifted(exp, x(t), m);
    Cancel(f(t), Total(f, n), k);
  }

  lemma {:induction false} Positive(exp: real -> real, a: real)
    requires ExpLike(exp)
    ensures exp(a) > 0.0
  {}

  lemma {:induction false} ExpsPositive(exp: real -> real, x: int -> real)
    requires ExpLike(exp)
    ensures forall t :: Exps(exp, x)(t) > 0.0
  {
    forall t ensures Exps(exp, x)(t) > 0.0 { Positive(exp, x(t)); }
  }

  lemma {:induction false} Shifted(exp: real -> real, a: real, m: real)
    requires ExpLike(exp)
    ensures exp(a - m) == Mul(exp(a), exp(-m)) && exp(-m) > 0.0
  {
    assert exp(a + -m) == exp(a) * exp(-m) && a + -m == a - m;
  }

  /** Softmax weights are positive and add up to one. */
  lemma {:induction false} WeightsAddUp(exp: real -> real, x: int -> real, n: nat)
    requires ExpLike(exp) && n > 0
    ensures forall t :: 0 <= t < n ==> Weight(exp, x, n, t) > 0.0
    ensures Total(t => Weight(exp, x, n, t), n) == 1.0
  {
    hide Mul, Recip;
    var f, g := Exps(exp, x), t => Weight(exp, x, n, t);
    var k := Recip(Total(f, n));
    ExpsPositive(exp, x);
    TotalPositive(f, n);
    TotalScale(f, k, n);
    var h := Times(f, k);
    forall t | 0 <= t < n ensures g(t) == h(t) { assert g(t) == Weight(exp, x, n, t); }
    TotalCongruence(g, h, n);
    Inverse(Total(f, n));
    forall t | 0 <= t < n ensures Weight(exp, x, n, t) > 0.0 { PositiveProduct(f(t), k); }
  }

  lemma {:induction false} Inverse(a: real)
    requires a > 0.0
    ensures Recip(a) > 0.0 && Mul(a, Recip(a)) == 1.0
  {}

  lemma {:induction false} PositiveProduct(a: real, b: real)
    requires a > 0.0 && b > 0.0
    ensures Mul(a, b) > 0.0
  {}
}
