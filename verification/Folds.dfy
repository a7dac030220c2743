/** Folds of an arbitrary binary operation, and what reordering them needs:
    sums and maxima are the two instances the kernels use. */
module Folds {
  import opened Arith
  import Sums

  type Op = (real, real) -> real

  ghost predicate Commutative(op: Op) { forall a, b :: op(a, b) == op(b, a) }

  ghost predicate Associative(op: Op) { forall a, b, c :: op(op(a, b), c) == op(a, op(b, c)) }

  ghost predicate Reorderable(op: Op) { Commutative(op) && Associative(op) }

  function Add(a: real, b: real): real { a + b }

  function Max(a: real, b: real): real { if a < b then b else a }

  function Mul(a: real, b: real): real { a * b }

  lemma {:induction false} AddMaxReorderable()
    ensures Reorderable(Add) && Reorderable(Max)
  {}

  lemma {:induction false} Assoc(op: Op, a: real, b: real, c: real)
    requires Associative(op)
    ensures op(op(a, b), c) == op(a, op(b, c))
  {}

  lemma {:induction false} Comm(op: Op, a: real, b: real)
    requires Commutative(op)
    ensures op(a, b) == op(b, a)
  {}

  /** (x y)(a b) == (x a)(y b) */
  lemma {:induction false} Interchange(op: Op, x: real, y: real, a: real, b: real)
    requires Reorderable(op)
    ensures op(op(x, y), op(a, b)) == op(op(x, a), op(y, b))
  {
    Assoc(op, x, y, op(a, b));
    Assoc(op, y, a, b);
    Comm(op, y, a);
    Assoc(op, a, y, b);
    Assoc(op, x, a, op(y, b));
  }

  function Fold(op: Op, xs: seq<real>): real
    requires |xs| > 0
  {
    if |xs| == 1 then xs[0] else op(Fold(op, xs[..|xs| - 1]), xs[|xs| - 1])
  }

  /** start, f(0), ..., f(n-1) combined in that order: a sequential accumulation loop. */
  function Accumulate(op: Op, start: real, f: int -> real, n: nat): real {
    if n == 0 then start else op(Accumulate(op, start, f, n - 1), f(n - 1))
  }

  /** One thread's loop "for i := first; i < n; i += step". */
  function Strided(op: Op, acc: real, f: int -> real, i: nat, step: nat, n: nat): real
    requires step > 0
    decreases n - i
  {
    if i >= n then acc else Strided(op, op(acc, f(i)), f, i + step, step, n)
  }

  lemma {:induction false} FoldConcat(op: Op, a: seq<real>, b: seq<real>)
    requires Associative(op) && |a| > 0 && |b| > 0
    ensures Fold(op, a + b) == op(Fold(op, a), Fold(op, b))
  {
    if |b| == 1 {
      assert (a + b)[..|a + b| - 1] == a;
    } else {
      FoldConcat(op, a, b[..|b| - 1]);
      assert (a + b)[..|a + b| - 1] == a + b[..|b| - 1];
      Assoc(op, Fold(op, a), Fold(op, b[..|b| - 1]), b[|b| - 1]);
    }
  }

  /** Folding pairwise combinations of two vectors is combining their folds. */
  lemma {:induction false} FoldPairs(op: Op, a: seq<real>, b: seq<real>, c: seq<real>)
    requires Reorderable(op) && |a| == |b| == |c| > 0
    requires forall i :: 0 <= i < |c| ==> c[i] == op(a[i], b[i])
    ensures Fold(op, c) == op(Fold(op, a), Fold(op, b))
  {
    var n := |a| - 1;
    if n > 0 {
      FoldPairs(op, a[..n], b[..n], c[..n]);
      var x, y := Fold(op, a[..n]), Fold(op, b[..n]);
      Interchange(op, x, y, a[n], b[n]);
    }
  }

  /** Changing one entry of a vector by x changes its fold by x. */
  lemma {:induction false} FoldUpdate(op: Op, a: seq<real>, k: nat, x: real)
    requires Reorderable(op) && k < |a|
    ensures Fold(op, a[k := op(a[k], x)]) == op(Fold(op, a), x)
  {
    var n := |a| - 1;
    var b := a[k := op(a[k], x)];
    if n > 0 {
      if k == n {
        assert b[..n] == a[..n];
        Assoc(op, Fold(op, a[..n]), a[n], x);
      } else {
        FoldUpdate(op, a[..n], k, x);
        assert b[..n] == a[..n][k := op(a[k], x)];
        var y := Fold(op, a[..n]);
        Assoc(op, y, x, a[n]);
        Comm(op, x, a[n]);
        Assoc(op, y, a[n], x);
      }
    }
  }

  lemma {:induction false} FoldConstant(op: Op, a: seq<real>, e: real)
    requires |a| > 0 && op(e, e) == e && forall i :: 0 <= i < |a| ==> a[i] == e
    ensures Fold(op, a) == e
  {
    if |a| > 1 { FoldConstant(op, a[..|a| - 1], e); }
  }

  lemma {:induction false} StridedGrows(op: Op, acc: real, f: int -> real, i: nat, step: nat, n: nat)
    requires step > 0
    ensures Strided(op, acc, f, i, step, n + 1)
         == if i <= n && (n - i) % step == 0 then op(Strided(op, acc, f, i, step, n), f(n))
            else Strided(op, acc, f, i, step, n)
    decreases n + 1 - i
  {
    if i < n {
      StridedGrows(op, op(acc, f(i)), f, i + step, step, n);
      if i + step <= n {
        assert (n - i) % step == (n - i - step) % step by { ModShift(n - i, step); }
      } else {
        assert (n - i) % step == n - i;
      }
    }
  }

  function LanesAt(op: Op, e: real, f: int -> real, step: nat, n: nat): seq<real>
    requires step > 0
  {
    seq(step, i requires 0 <= i < step => Strided(op, e, f, i, step, n))
  }

  lemma {:induction false} LanesStep(op: Op, e: real, f: int -> real, step: nat, n: nat)
    requires step > 0
    ensures var k := n % step;
      LanesAt(op, e, f, step, n + 1) == LanesAt(op, e, f, step, n)[k := op(LanesAt(op, e, f, step, n)[k], f(n))]
  {
    forall i | 0 <= i < step
      ensures LanesAt(op, e, f, step, n + 1)[i]
           == if i == n % step then op(LanesAt(op, e, f, step, n)[i], f(n)) else LanesAt(op, e, f, step, n)[i]
    {
      StridedGrows(op, e, f, i, step, n);
      Residue(i, step, n);
    }
  }

  lemma {:induction false} LanesCover(op: Op, e: real, f: int -> real, step: nat, n: nat)
    requires Reorderable(op) && op(e, e) == e && step > 0
    ensures Fold(op, LanesAt(op, e, f, step, n)) == Accumulate(op, e, f, n)
  {
    if n == 0 {
      FoldConstant(op, LanesAt(op, e, f, step, 0), e);
    } else {
      LanesCover(op, e, f, step, n - 1);
      LanesStep(op, e, f, step, n - 1);
      FoldUpdate(op, LanesAt(op, e, f, step, n - 1), (n - 1) % step, f(n - 1));
    }
  }

  /** The strided loops of all threads together visit every index once: folding the
      threads' results is one sequential loop over all of them. */
  lemma {:induction false} StridedCovers(op: Op, e: real, f: int -> real, threads: seq<real>, n: nat)
    requires Reorderable(op) && op(e, e) == e && |threads| > 0
    requires forall i :: 0 <= i < |threads| ==> threads[i] == Strided(op, e, f, i, |threads|, n)
    ensures Fold(op, threads) == Accumulate(op, e, f, n)
  {
    LanesCover(op, e, f, |threads|, n);
    assert threads == LanesAt(op, e, f, |threads|, n);
  }

  lemma {:induction false} StridedCongruence(op: Op, acc: real, f: int -> real, g: int -> real, i: nat, step: nat,
      n: nat)
    requires step > 0 && forall j :: i <= j < n ==> f(j) == g(j)
    ensures Strided(op, acc, f, i, step, n) == Strided(op, acc, g, i, step, n)
    decreases n - i
  {
    if i < n { StridedCongruence(op, op(acc, f(i)), f, g, i + step, step, n); }
  }

  lemma {:induction false} AccumulateCongruence(op: Op, e: real, f: int -> real, g: int -> real, n: nat)
    requires forall i :: 0 <= i < n ==> f(i) == g(i)
    ensures Accumulate(op, e, f, n) == Accumulate(op, e, g, n)
  {
    if n > 0 { AccumulateCongruence(op, e, f, g, n - 1); }
  }

  lemma {:induction false} AccumulateAdd(f: int -> real, n: nat)
    ensures Accumulate(Add, 0.0, f, n) == Sums.Sum(n, f)
  {
    if n > 0 { AccumulateAdd(f, n - 1); }
  }

  /** The floats of a slice. */
  function Floats(s: seq<real>): int -> real { i => if 0 <= i < |s| then s[i] else 0.0 }

  function Slice(f: int -> real, from: int, len: nat): (s: seq<real>) {
    seq(len, i requires 0 <= i < len => f(from + i))
  }

  /** Folding equal-sized groups and then their results is folding everything. */
  lemma {:induction false} FoldGroups(op: Op, f: int -> real, groups: seq<real>, size: nat)
    requires Associative(op) && size > 0 && |groups| > 0 && |groups| * size > 0
    requires forall g :: 0 <= g < |groups| ==> groups[g] == Fold(op, Slice(f, g * size, size))
    ensures Fold(op, groups) == Fold(op, Slice(f, 0, |groups| * size))
  {
    var n := |groups| - 1;
    if n == 0 {
      assert |groups| * size == size;
    } else {
      hide *;
      RowInTable(n, n + 1, size);
      RowInTable(0, n, size);
      FoldGroups(op, f, groups[..n], size);
      FoldConcat(op, Slice(f, 0, n * size), Slice(f, n * size, size));
      SliceConcat(f, n * size, size);
      FoldLast(op, groups);
    }
  }

  lemma {:induction false} FoldLast(op: Op, xs: seq<real>)
    requires |xs| > 1
    ensures Fold(op, xs) == op(Fold(op, xs[..|xs| - 1]), xs[|xs| - 1])
  {}

  lemma {:induction false} SliceConcat(f: int -> real, a: nat, b: nat)
    ensures Slice(f, 0, a) + Slice(f, a, b) == Slice(f, 0, a + b) && |Slice(f, 0, a)| == a && |Slice(f, a, b)| == b
  {}

  /** The running maximum is an upper bound that is attained. */
  lemma {:induction false} AccumulateMax(start: real, f: int -> real, n: nat)
    ensures var m := Accumulate(Max, start, f, n);
            && start <= m && (forall i :: 0 <= i < n ==> f(i) <= m)
            && (m == start || exists i :: 0 <= i < n && f(i) == m)
  {
    if n > 0 { 
      AccumulateMax(start, f, n - 1);
      assert Accumulate(Max, start, f, n) == Max(Accumulate(Max, start, f, n - 1), f(n - 1));
    }
  }
}
