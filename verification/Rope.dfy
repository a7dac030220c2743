/** Rotary position embedding: what it does to one row, the CPU loop, and why only
    relative positions matter to attention. */
module RopeSpec {
  import opened Wrappers
  import opened Arith
  import opened Folds

  /** power(b, x) is b^x; freq is nil or the frequency factors. */
  datatype Rope = Rope(headDim: nat, base: real, power: (real, real) -> real, freq: Option<int -> real>,
      sin: real -> real, cos: real -> real) {
    /** How far pair j turns per position, before the factors. */
    function Pow(j: int): real { power(base, Div(-2.0 * j as real, headDim as real)) }
  }

  /** sin and cos of sums, and the unit circle. */
  ghost predicate TrigLaws(r: Rope) {
    && (forall a, b :: r.cos(a + b) == r.cos(a) * r.cos(b) - r.sin(a) * r.sin(b))
    && (forall a, b :: r.sin(a + b) == r.sin(a) * r.cos(b) + r.cos(a) * r.sin(b))
    && forall a :: r.sin(a) * r.sin(a) + r.cos(a) * r.cos(a) == 1.0
  }

  function Div(a: real, b: real): real { if b == 0.0 then 0.0 else a / b }

  function Theta(r: Rope, p: int, j: int): real {
    var theta := p as real * r.Pow(j);
    if r.freq.Some? then Div(theta, r.freq.value(j)) else theta
  }

  function First(c: real, s: real, x0: real, x1: real): real { x0 * c - x1 * s }

  function Second(c: real, s: real, x0: real, x1: real): real { x0 * s + x1 * c }

  function Half(r: Rope): nat { r.headDim / 2 }

  /** Element i of the row x after rotation by position p: pair j of every head turns by
      Theta(p, j), and the last element of an odd head stays. */
  function Rotated(r: Rope, p: int, x: int -> real): int -> real {
    i => if r.headDim == 0 then x(i) else RotatedAt(r, p, x, i, i % r.headDim)
  }

  function RotatedAt(r: Rope, p: int, x: int -> real, i: int, d: int): real {
    var a := Theta(r, p, d / 2);
    if d / 2 >= Half(r) then x(i)
    else if d % 2 == 0 then First(r.cos(a), r.sin(a), x(i), x(i + 1))
    else Second(r.cos(a), r.sin(a), x(i - 1), x(i))
  }

  /** A model without factors rotates like one whose factors are all one. */
  lemma {:induction false} NoFactorsAreOnes(r: Rope, p: int, x: int -> real, i: int)
    requires r.freq.None?
    ensures Rotated(r, p, x)(i) == Rotated(r.(freq := Some(_ => 1.0)), p, x)(i)
  {
    var ones := r.(freq := Some(_ => 1.0));
    if r.headDim > 0 {
      var j := i % r.headDim / 2;
      assert Div(p as real * r.Pow(j), ones.freq.value(j)) == p as real * r.Pow(j);
      assert Theta(r, p, j) == Theta(ones, p, j);
      hide Theta;
      assert RotatedAt(r, p, x, i, i % r.headDim) == RotatedAt(ones, p, x, i, i % r.headDim);
    }
  }

  // ---- the angles

  /** The factor of pair j, one without factors. */
  function Factor(r: Rope, j: int): real { if r.freq.None? then 1.0 else r.freq.value(j) }

  /** Pair j of a head turns, from its first element towards its second, by the angle a whose product with
      the pair's factor is p * base^(-2j/headDim). */
  lemma {:induction false} TurnsByAngle(r: Rope, p: int, x: int -> real, h: int, j: int, a: real)
    requires 0 <= j < r.headDim / 2 && Factor(r, j) != 0.0
    requires a * Factor(r, j) == p as real * r.power(r.base, -2.0 * j as real / r.headDim as real)
    ensures var k := h * r.headDim + 2 * j;
      && Rotated(r, p, x)(k) == x(k) * r.cos(a) - x(k + 1) * r.sin(a)
      && Rotated(r, p, x)(k + 1) == x(k) * r.sin(a) + x(k + 1) * r.cos(a)
  {
    AngleIs(r, p, j, a);
    PairAt(r, p, x, h, j);
    hide Rotated, Theta;
  }

  lemma {:induction false} AngleIs(r: Rope, p: int, j: int, a: real)
    requires 0 <= j < r.headDim / 2 && Factor(r, j) != 0.0
    requires a * Factor(r, j) == p as real * r.power(r.base, -2.0 * j as real / r.headDim as real)
    ensures Theta(r, p, j) == a
  {
    if r.freq.Some? { Quotient(p as real * r.Pow(j), r.freq.value(j), a); }
  }

  lemma {:induction false} Quotient(t: real, f: real, a: real)
    requires f != 0.0 && a * f == t
    ensures Div(t, f) == a
  {}

  /** A quarter turn takes (x0, x1) to (-x1, x0). */
  lemma {:induction false} QuarterTurn(r: Rope, p: int, x: int -> real, h: int, j: int, a: real)
    requires 0 <= j < r.headDim / 2 && Factor(r, j) != 0.0 && r.cos(a) == 0.0 && r.sin(a) == 1.0
    requires a * Factor(r, j) == p as real * r.power(r.base, -2.0 * j as real / r.headDim as real)
    ensures var k := h * r.headDim + 2 * j; Rotated(r, p, x)(k) == -x(k + 1) && Rotated(r, p, x)(k + 1) == x(k)
  {
    TurnsByAngle(r, p, x, h, j, a);
    hide Rotated;
  }

  /** A row rotated at position k * p with k times the factors is the row rotated at position p. */
  lemma {:induction false} FactorsSlowDown(r: Rope, slow: Rope, k: int, p: int, x: int -> real, i: int)
    requires k != 0 && slow == r.(freq := slow.freq) && slow.freq.Some?
    requires forall j :: 0 <= j < r.headDim / 2 ==>
      Factor(r, j) != 0.0 && slow.freq.value(j) == k as real * Factor(r, j)
    ensures Rotated(slow, k * p, x)(i) == Rotated(r, p, x)(i)
  {
    if r.headDim > 0 {
      var j := i % r.headDim / 2;
      if j < Half(r) { SlowAngle(r, slow, k, p, j); }
      hide Theta, First, Second;
      assert RotatedAt(slow, k * p, x, i, i % r.headDim) == RotatedAt(r, p, x, i, i % r.headDim);
    }
  }

  lemma {:induction false} SlowAngle(r: Rope, slow: Rope, k: int, p: int, j: int)
    requires k != 0 && slow == r.(freq := slow.freq) && slow.freq.Some? && Factor(r, j) != 0.0
    requires slow.freq.value(j) == k as real * Factor(r, j)
    ensures Theta(slow, k * p, j) == Theta(r, p, j)
  {
    var w, f := r.Pow(j), Factor(r, j);
    assert slow.Pow(j) == w && (k * p) as real == k as real * p as real;
    CancelFactor(p as real * w, k as real, f);
    assert (k * p) as real * w == k as real * (p as real * w);
  }

  lemma {:induction false} CancelFactor(t: real, k: real, f: real)
    requires k != 0.0 && f != 0.0
    ensures Div(k * t, k * f) == Div(t, f) && Div(t, 1.0) == t
  {
    assert k * f != 0.0;
    assert k * t == (t / f) * (k * f);
  }

  // ---- only relative positions matter

  lemma {:induction false} ThetaAdds(r: Rope, p: int, s: int, j: int)
    ensures Theta(r, p + s, j) == Theta(r, p, j) + Theta(r, s, j)
  {
    var w := r.Pow(j);
    assert (p + s) as real * w == p as real * w + s as real * w;
    if r.freq.Some? { DivAdds(p as real * w, s as real * w, r.freq.value(j)); }
  }

  lemma {:induction false} DivAdds(a: real, b: real, f: real)
    ensures Div(a + b, f) == Div(a, f) + Div(b, f)
  {}

  /** Turning two vectors by one more angle keeps their product. */
  lemma {:induction false} TurnKeepsDot(c: real, s: real, x0: real, x1: real, y0: real, y1: real)
    requires s * s + c * c == 1.0
    ensures First(c, s, x0, x1) * First(c, s, y0, y1) + Second(c, s, x0, x1) * Second(c, s, y0, y1) == x0 * y0 + x1 * y1
  {
    var q := x0 * y0 + x1 * y1;
    assert First(c, s, x0, x1) * First(c, s, y0, y1)
      == (x0 * y0) * (c * c) - (x0 * y1 + x1 * y0) * (c * s) + (x1 * y1) * (s * s);
    assert Second(c, s, x0, x1) * Second(c, s, y0, y1)
      == (x0 * y0) * (s * s) + (x0 * y1 + x1 * y0) * (c * s) + (x1 * y1) * (c * c);
    assert q * (s * s + c * c) == q;
    assert q * (s * s + c * c) == (x0 * y0) * (s * s) + (x0 * y0) * (c * c) + (x1 * y1) * (s * s) + (x1 * y1) * (c * c);
  }

  /** Turning by a sum is turning twice. */
  lemma {:induction false} TurnTwice(r: Rope, a: real, b: real, x0: real, x1: real)
    requires TrigLaws(r)
    ensures First(r.cos(a + b), r.sin(a + b), x0, x1)
      == First(r.cos(b), r.sin(b), First(r.cos(a), r.sin(a), x0, x1), Second(r.cos(a), r.sin(a), x0, x1))
    ensures Second(r.cos(a + b), r.sin(a + b), x0, x1)
      == Second(r.cos(b), r.sin(b), First(r.cos(a), r.sin(a), x0, x1), Second(r.cos(a), r.sin(a), x0, x1))
  {
    var ca, sa, cb, sb := r.cos(a), r.sin(a), r.cos(b), r.sin(b);
    assert r.cos(a + b) == ca * cb - sa * sb && r.sin(a + b) == sa * cb + ca * sb;
    hide TrigLaws;
    Expand(ca, sa, cb, sb, x0, x1);
  }

  lemma {:induction false} Expand(ca: real, sa: real, cb: real, sb: real, x0: real, x1: real)
    ensures First(ca * cb - sa * sb, sa * cb + ca * sb, x0, x1)
      == First(cb, sb, First(ca, sa, x0, x1), Second(ca, sa, x0, x1))
    ensures Second(ca * cb - sa * sb, sa * cb + ca * sb, x0, x1)
      == Second(cb, sb, First(ca, sa, x0, x1), Second(ca, sa, x0, x1))
  {
    assert x0 * (ca * cb - sa * sb) == x0 * ca * cb - x0 * sa * sb;
    assert x1 * (sa * cb + ca * sb) == x1 * sa * cb + x1 * ca * sb;
    assert x0 * (sa * cb + ca * sb) == x0 * sa * cb + x0 * ca * sb;
    assert x1 * (ca * cb - sa * sb) == x1 * ca * cb - x1 * sa * sb;
    assert (x0 * ca - x1 * sa) * cb == x0 * ca * cb - x1 * sa * cb;
    assert (x0 * sa + x1 * ca) * sb == x0 * sa * sb + x1 * ca * sb;
    assert (x0 * ca - x1 * sa) * sb == x0 * ca * sb - x1 * sa * sb;
    assert (x0 * sa + x1 * ca) * cb == x0 * sa * cb + x1 * ca * cb;
  }

  lemma {:induction false} PairDot(r: Rope, p: int, t: int, s: int, j: int, x0: real, x1: real, y0: real, y1: real)
    requires TrigLaws(r)
    ensures TurnedDot(r, Theta(r, p + s, j), Theta(r, t + s, j), x0, x1, y0, y1)
      == TurnedDot(r, Theta(r, p, j), Theta(r, t, j), x0, x1, y0, y1)
  {
    hide *;
    ThetaAdds(r, p, s, j);
    ThetaAdds(r, t, s, j);
    BothTurned(r, Theta(r, p, j), Theta(r, t, j), Theta(r, s, j), x0, x1, y0, y1);
  }

  lemma {:induction false} BothTurned(r: Rope, a: real, b: real, d: real, x0: real, x1: real, y0: real, y1: real)
    requires TrigLaws(r)
    ensures TurnedDot(r, a + d, b + d, x0, x1, y0, y1) == TurnedDot(r, a, b, x0, x1, y0, y1)
  {
    hide First, Second, TrigLaws;
    TurnTwice(r, a, d, x0, x1);
    TurnTwice(r, b, d, y0, y1);
    Unit(r, d);
    TurnKeepsDot(r.cos(d), r.sin(d), First(r.cos(a), r.sin(a), x0, x1), Second(r.cos(a), r.sin(a), x0, x1),
                 First(r.cos(b), r.sin(b), y0, y1), Second(r.cos(b), r.sin(b), y0, y1));
  }

  lemma {:induction false} Unit(r: Rope, a: real)
    requires TrigLaws(r)
    ensures r.sin(a) * r.sin(a) + r.cos(a) * r.cos(a) == 1.0
  {}

  /** The product of pair x turned by a with pair y turned by b. */
  function TurnedDot(r: Rope, a: real, b: real, x0: real, x1: real, y0: real, y1: real): real {
    First(r.cos(a), r.sin(a), x0, x1) * First(r.cos(b), r.sin(b), y0, y1)
    + Second(r.cos(a), r.sin(a), x0, x1) * Second(r.cos(b), r.sin(b), y0, y1)
  }

  /** Sums whose pairs agree, and whose last odd term agrees, agree. */
  lemma {:induction false} PairwiseTotal(f: int -> real, g: int -> real, n: nat)
    requires forall j :: 0 <= j < n / 2 ==> f(2 * j) + f(2 * j + 1) == g(2 * j) + g(2 * j + 1)
    requires n % 2 == 1 ==> f(n - 1) == g(n - 1)
    ensures Accumulate(Add, 0.0, f, n) == Accumulate(Add, 0.0, g, n)
    decreases n
  {
    if n % 2 == 1 {
      PairwiseTotal(f, g, n - 1);
    } else if n > 0 {
      PairwiseTotal(f, g, n - 2);
      var j := n / 2 - 1;
      assert f(2 * j) + f(2 * j + 1) == g(2 * j) + g(2 * j + 1);
      TwoMore(f, n - 2);
      TwoMore(g, n - 2);
    }
  }

  lemma {:induction false} TwoMore(f: int -> real, n: nat)
    ensures Accumulate(Add, 0.0, f, n + 2) == Accumulate(Add, 0.0, f, n) + (f(n) + f(n + 1))
  {
    assert Accumulate(Add, 0.0, f, n + 2) == Accumulate(Add, 0.0, f, n + 1) + f(n + 1);
  }

  /** The elements of pair j of the head at base, rotated. */
  lemma {:induction false} PairAt(r: Rope, p: int, x: int -> real, h: int, j: int)
    requires 0 <= j < Half(r)
    ensures var a, k := Theta(r, p, j), h * r.headDim + 2 * j;
      && Rotated(r, p, x)(k) == First(r.cos(a), r.sin(a), x(k), x(k + 1))
      && Rotated(r, p, x)(k + 1) == Second(r.cos(a), r.sin(a), x(k), x(k + 1))
  {
    hide Theta, First, Second;
    DivModUnique(h, 2 * j, r.headDim, h * r.headDim + 2 * j);
    DivModUnique(h, 2 * j + 1, r.headDim, h * r.headDim + 2 * j + 1);
  }

  lemma {:induction false} LastStays(r: Rope, p: int, x: int -> real, h: int)
    requires r.headDim % 2 == 1
    ensures Rotated(r, p, x)(h * r.headDim + (r.headDim - 1)) == x(h * r.headDim + (r.headDim - 1))
  {
    DivModUnique(h, r.headDim - 1, r.headDim, h * r.headDim + (r.headDim - 1));
  }
}

/** RoPE of package cpu: three nested loops that rotate the pairs in place. */
module RopeCpu {
  import opened Arith
  import opened RopeSpec
  import Folds

  /** The first b elements of the row at base have been rotated, and nothing else changed. */
  ghost predicate RotatedUpTo(r: Rope, p: int, was: seq<real>, now: seq<real>, base: nat, b: nat) {
    |now| == |was| && forall i :: 0 <= i < |was| ==> now[i] == Expected(r, p, was, base, b, i)
  }

  function Expected(r: Rope, p: int, was: seq<real>, base: nat, b: nat, i: int): real {
    if base <= i < base + b then Rotated(r, p, RowOf(was, base))(i - base) else Folds.Floats(was)(i)
  }

  /** The row that starts at base. */
  function RowOf(s: seq<real>, base: nat): int -> real { i => Folds.Floats(s)(base + i) }

  lemma {:induction false} PairTurned(r: Rope, p: int, was: seq<real>, now: seq<real>, base: nat, h: nat, j: nat)
    requires j < Half(r) && base + h * r.headDim + 2 * j + 1 < |was|
    requires RotatedUpTo(r, p, was, now, base, h * r.headDim + 2 * j)
    ensures var k, a := base + h * r.headDim + 2 * j, Theta(r, p, j);
      RotatedUpTo(r, p, was, now[k := First(r.cos(a), r.sin(a), now[k], now[k + 1])]
                             [k + 1 := Second(r.cos(a), r.sin(a), now[k], now[k + 1])], base, h * r.headDim + 2 * j + 2)
  {
    var b := h * r.headDim + 2 * j;
    var k := base + b;
    hide Rotated, First, Second, Theta;
    PairAt(r, p, RowOf(was, base), h, j);
    assert now[k] == Expected(r, p, was, base, b, k) && now[k + 1] == Expected(r, p, was, base, b, k + 1);
  }

  lemma {:induction false} HeadEnds(r: Rope, p: int, was: seq<real>, now: seq<real>, base: nat, h: nat)
    requires base + (h + 1) * r.headDim <= |was|
    requires RotatedUpTo(r, p, was, now, base, h * r.headDim + 2 * Half(r))
    ensures RotatedUpTo(r, p, was, now, base, (h + 1) * r.headDim)
  {
    var b := h * r.headDim + 2 * Half(r);
    assert (h + 1) * r.headDim == h * r.headDim + r.headDim;
    if r.headDim % 2 == 1 {
      LastStays(r, p, RowOf(was, base), h);
      assert now[base + b] == Expected(r, p, was, base, b, base + b);
    }
    hide Rotated;
  }

  lemma {:induction false} PairInside(h: nat, nHeads: nat, headDim: nat, j: nat)
    requires h < nHeads && j < headDim / 2
    ensures 0 <= h * headDim && h * headDim + 2 * j + 1 < nHeads * headDim
  {
    InTable(h, 2 * j + 1, nHeads, headDim);
  }

  method RopeRow(r: Rope, x: array<real>, p: int, base: nat, nHeads: nat)
    requires base + nHeads * r.headDim <= x.Length
    modifies x
    ensures RotatedUpTo(r, p, old(x[..]), x[..], base, nHeads * r.headDim)
  {
    hide RotatedUpTo, First, Second, Theta;
    ghost var was := x[..];
    NothingYet(r, p, was, base);
    for h := 0 to nHeads
      invariant RotatedUpTo(r, p, was, x[..], base, h * r.headDim)
    {
      RowInTable(h, nHeads, r.headDim);
      for j := 0 to r.headDim / 2
        invariant RotatedUpTo(r, p, was, x[..], base, h * r.headDim + 2 * j)
      {
        PairInside(h, nHeads, r.headDim, j);
        PairTurned(r, p, was, x[..], base, h, j);
        var k, theta := base + h * r.headDim + 2 * j, Theta(r, p, j);
        var s, c := r.sin(theta), r.cos(theta);
        var x0, x1 := x[k], x[k + 1];
        ghost var now := x[..];
        x[k] := First(c, s, x0, x1);
        x[k + 1] := Second(c, s, x0, x1);
        assert x[..] == now[k := First(c, s, x0, x1)][k + 1 := Second(c, s, x0, x1)];
      }
      HeadEnds(r, p, was, x[..], base, h);
    }
  }

  lemma {:induction false} NothingYet(r: Rope, p: int, was: seq<real>, base: nat)
    ensures RotatedUpTo(r, p, was, was, base, 0)
  {}

  /** Row i is the rotation by pos[i] of what it was. */
  ghost predicate RowTurned(r: Rope, pos: seq<int>, was: seq<real>, now: seq<real>, width: nat, i: int)
    requires |now| == |was| && 0 <= i < |pos|
  {
    forall c :: 0 <= c < width ==>
      0 <= i * width + c < |was| && now[i * width + c] == Rotated(r, pos[i], RowAt(was, i, width))(c)
  }

  function RowAt(s: seq<real>, i: int, width: nat): int -> real { c => Folds.Floats(s)(i * width + c) }

  /** RoPE: every row is rotated by its own position, in place. */
  method Rope(r: Rope, x: array<real>, pos: array<int>, rows: nat, nHeads: nat)
    requires rows * (nHeads * r.headDim) <= x.Length && rows <= pos.Length
    modifies x
    ensures forall i :: 0 <= i < rows ==> RowTurned(r, pos[..], old(x[..]), x[..], nHeads * r.headDim, i)
    ensures x[rows * (nHeads * r.headDim)..] == old(x[rows * (nHeads * r.headDim)..])
  {
    hide RotatedUpTo, RowTurned;
    ghost var was, ps, width := x[..], pos[..], nHeads * r.headDim;
    for i := 0 to rows
      invariant pos[..] == ps
      invariant forall k :: 0 <= k < i ==> RowTurned(r, ps, was, x[..], width, k)
      invariant |x[..]| == |was| && Untouched(was, x[..], i * width)
    {
      RowInTable(i, rows, width);
      ghost var now := x[..];
      RopeRow(r, x, pos[i], i * (nHeads * r.headDim), nHeads);
      RowDone(r, ps, was, now, x[..], nHeads, width, i);
    }
    assert x[rows * width..] == was[rows * width..];
  }

  ghost predicate Untouched(was: seq<real>, now: seq<real>, from: nat) {
    |was| == |now| && forall k :: from <= k < |was| ==> now[k] == was[k]
  }

  lemma {:induction false} RowDone(r: Rope, pos: seq<int>, was: seq<real>, now: seq<real>, next: seq<real>,
      nHeads: nat, width: nat, i: nat)
    requires width == nHeads * r.headDim && i < |pos| && (i + 1) * width <= |was| && Untouched(was, now, i * width)
    requires RotatedUpTo(r, pos[i], now, next, i * width, width)
    requires forall k :: 0 <= k < i ==> RowTurned(r, pos, was, now, width, k)
    ensures |next| == |was| && Untouched(was, next, (i + 1) * width)
    ensures forall k :: 0 <= k < i + 1 ==> RowTurned(r, pos, was, next, width, k)
  {
    RowInTable(i, i + 1, width);
    forall k | 0 <= k < i + 1 ensures RowTurned(r, pos, was, next, width, k) {
      if k < i { EarlierRow(r, pos, was, now, next, width, i, k); } else {
        ThisRow(r, pos, was, now, next, nHeads, width, i);
      }
    }
    assert forall k :: (i + 1) * width <= k < |was| ==> next[k] == Expected(r, pos[i], now, i * width, width, k);
  }

  lemma {:induction false} EarlierRow(r: Rope, pos: seq<int>, was: seq<real>, now: seq<real>, next: seq<real>,
      width: nat, i: nat, k: nat)
    requires k < i < |pos| && (i + 1) * width <= |was| && |now| == |was|
      && RotatedUpTo(r, pos[i], now, next, i * width, width)
    requires RowTurned(r, pos, was, now, width, k)
    ensures |next| == |was| && RowTurned(r, pos, was, next, width, k)
  {
    RowInTable(k, i, width);
    hide Rotated;
    forall c | 0 <= c < width
      ensures 0 <= k * width + c < |was| && next[k * width + c] == Rotated(r, pos[k], RowAt(was, k, width))(c)
    {
      assert next[k * width + c] == Expected(r, pos[i], now, i * width, width, k * width + c);
    }
  }

  lemma {:induction false} ThisRow(r: Rope, pos: seq<int>, was: seq<real>, now: seq<real>, next: seq<real>,
      nHeads: nat, width: nat, i: nat)
    requires width == nHeads * r.headDim && i < |pos| && (i + 1) * width <= |was| && Untouched(was, now, i * width)
    requires RotatedUpTo(r, pos[i], now, next, i * width, width)
    ensures |next| == |was| && RowTurned(r, pos, was, next, width, i)
  {
    RowInTable(i, i + 1, width);
    hide Rotated;
    var x, y := RowOf(now, i * width), RowAt(was, i, width);
    forall c | 0 <= c < width ensures x(c) == y(c) {
      var k := i * width + c;
      assert now[k] == was[k] && x(c) == Folds.Floats(now)(k) && y(c) == Folds.Floats(was)(k);
    }
    forall c | 0 <= c < width
      ensures 0 <= i * width + c < |was| && next[i * width + c] == Rotated(r, pos[i], RowAt(was, i, width))(c)
    {
      assert next[i * width + c] == Expected(r, pos[i], now, i * width, width, i * width + c);
      RotatedCongruence(r, pos[i], x, y, c, nHeads);
    }
  }

  /** Rotation looks no further than the row. */
  lemma {:induction false} RotatedCongruence(r: Rope, p: int, x: int -> real, y: int -> real, c: nat, nHeads: nat)
    requires c < nHeads * r.headDim && forall i :: 0 <= i < nHeads * r.headDim ==> x(i) == y(i)
    ensures Rotated(r, p, x)(c) == Rotated(r, p, y)(c)
  {
    var n := r.headDim;
    if n > 0 {
      QuotientBelow(c, n, nHeads);
      CongruenceAt(r, p, x, y, c / n, c % n, nHeads);
    }
  }

  lemma {:induction false} CongruenceAt(r: Rope, p: int, x: int -> real, y: int -> real, h: nat, d: nat, nHeads: nat)
    requires h < nHeads && d < r.headDim && forall i :: 0 <= i < nHeads * r.headDim ==> x(i) == y(i)
    ensures Rotated(r, p, x)(h * r.headDim + d) == Rotated(r, p, y)(h * r.headDim + d)
  {
    var j := d / 2;
    InTable(h, d, nHeads, r.headDim);
    if j < Half(r) {
      PairInside(h, nHeads, r.headDim, j);
      hide Rotated, Theta, First, Second;
      PairAt(r, p, x, h, j);
      PairAt(r, p, y, h, j);
    } else {
      hide Rotated, Theta, First, Second;
      LastStays(r, p, x, h);
      LastStays(r, p, y, h);
    }
  }
}
