/** Finite sums over exact reals: the meaning of the accumulation loops of the
    kernels and of their CPU twins. */
module Sums {

  /** f(0) + ... + f(n-1), added in that order. */
  function Sum(n: nat, f: int -> real): real {
    if n == 0 then 0.0 else Sum(n - 1, f) + f(n - 1)
  }

  lemma {:induction false} SumNext(n: nat, f: int -> real)
    ensures Sum(n + 1, f) == Sum(n, f) + f(n)
  {}

  lemma {:induction false} SumCongruence(n: nat, f: int -> real, g: int -> real)
    requires forall i :: 0 <= i < n ==> f(i) == g(i)
    ensures Sum(n, f) == Sum(n, g)
  {
    if n > 0 { SumCongruence(n - 1, f, g); }
  }

  lemma {:induction false} SumAdd(n: nat, f: int -> real, g: int -> real, h: int -> real)
    requires forall i :: 0 <= i < n ==> h(i) == f(i) + g(i)
    ensures Sum(n, h) == Sum(n, f) + Sum(n, g)
  {
    if n > 0 { SumAdd(n - 1, f, g, h); }
  }

  function Shifted(f: int -> real, from: int): int -> real { i => f(from + i) }

  lemma {:induction false} SumSplit(a: nat, b: nat, f: int -> real)
    ensures Sum(a + b, f) == Sum(a, f) + Sum(b, Shifted(f, a))
  {
    if b > 0 {
      SumSplit(a, b - 1, f);
      assert Sum(a + b, f) == Sum(a + (b - 1), f) + Shifted(f, a)(b - 1);
    }
  }

  function Groups(f: int -> real, size: nat): int -> real { i => Sum(size, Shifted(f, i * size)) }

  /** A sum over a*b terms is a sum of a groups of b. */
  lemma {:induction false} SumGroups(a: nat, b: nat, f: int -> real)
    ensures Sum(a * b, f) == Sum(a, Groups(f, b))
  {
    if a > 0 {
      SumGroups(a - 1, b, f);
      assert a * b == (a - 1) * b + b;
      SumSplit((a - 1) * b, b, f);
      assert Groups(f, b)(a - 1) == Sum(b, Shifted(f, (a - 1) * b));
    }
  }

  function Row(f: (int, int) -> real, i: int): int -> real { j => f(i, j) }

  function RowSums(f: (int, int) -> real, b: nat): int -> real { i => Sum(b, Row(f, i)) }

  lemma {:induction false} RowSumsAt(f: (int, int) -> real, b: nat, i: int)
    ensures RowSums(f, b)(i) == Sum(b, Row(f, i))
  {}

  function Flip(f: (int, int) -> real): (int, int) -> real { (j, i) => f(i, j) }

  lemma {:induction false} SumNone(n: nat, f: int -> real)
    requires forall i :: 0 <= i < n ==> f(i) == 0.0
    ensures Sum(n, f) == 0.0
  {
    if n > 0 { SumNone(n - 1, f); }
  }

  /** The order of two nested sums does not matter. */
  lemma {:induction false} SumSwap(a: nat, b: nat, f: (int, int) -> real)
    ensures Sum(a, RowSums(f, b)) == Sum(b, RowSums(Flip(f), a))
  {
    if a == 0 {
      SumNone(b, RowSums(Flip(f), 0));
    } else {
      SumSwap(a - 1, b, f);
      forall j | 0 <= j < b ensures RowSums(Flip(f), a)(j) == RowSums(Flip(f), a - 1)(j) + Row(f, a - 1)(j) {
        SumNext(a - 1, Row(Flip(f), j));
      }
      SumAdd(b, RowSums(Flip(f), a - 1), Row(f, a - 1), RowSums(Flip(f), a));
      SumNext(a - 1, RowSums(f, b));
    }
  }
}
