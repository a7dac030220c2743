/** The dequantizing matrix-vector kernels of kernels/quantmv.go: what one lane adds
    up, and why the lanes of a warp add up to the dot product of the decoded row. */
module QuantKernels {
  import opened Wrappers
  import opened Quant
  import opened QuantHost
  import opened Folds
  import opened Arith
  import opened Sums
  import opened BlockMachine
  import opened Reduce

  /** Element e of the block at p times its x; the block's x start at xo. */
  function Term(f: Format, half: Half, w: ByteMap, p: int, x: int -> real, xo: int): int -> real {
    e => Mul(Elem(f, half, w, p, e), x(xo + e))
  }

  /** The dot product of one block. */
  function BlockDot(f: Format, half: Half, w: ByteMap, p: int, x: int -> real, xo: int): real {
    Sum(BlockSize(f), Term(f, half, w, p, x, xo))
  }

  /** Block blk of the row at wr. */
  function DotOf(f: Format, half: Half, w: ByteMap, wr: int, x: int -> real, xb: int): int -> real {
    blk => BlockDot(f, half, w, wr + blk * BlockBytes(f), x, xb + blk * BlockSize(f))
  }

  lemma {:induction false} MulSplit(a: real, b: real, c: real)
    ensures Mul(a, b + c) == Mul(a, b) + Mul(a, c) && Mul(b + c, a) == Mul(b, a) + Mul(c, a)
    ensures Mul(b - c, a) == Mul(b, a) - Mul(c, a)
    ensures Mul(Mul(a, b), c) == Mul(a, Mul(b, c)) && Mul(a, 0.0) == 0.0
  {}

  // ---- what a lane is responsible for

  /** What one lane of MatVecQ4K adds for one block. */
  function Group4K(half: Half, w: ByteMap, p: int, x: int -> real, xo: int, lane: int): real {
    Groups(Term(Q4_K, half, w, p, x, xo), 8)(lane)
  }

  /** A half block as four rows of 32 lanes. */
  function Grid(u: int -> real): (int, int) -> real { (k, lane) => u(k * 32 + lane) }

  /** What lane does in half c: t(c*128 + k*32 + lane) for k = 0..3. */
  function Four(t: int -> real): (int, int) -> real { (c, lane) => RowSums(Flip(Grid(Shifted(t, c * 128))), 4)(lane) }

  /** What one lane of MatVecQ6K adds for one block. */
  function Part6(half: Half, w: ByteMap, p: int, x: int -> real, xo: int, lane: int): real {
    RowSums(Flip(Four(Term(Q6_K, half, w, p, x, xo))), 2)(lane)
  }

  /** What a lane adds for the block at p; in MatVecQ4_0 a lane takes whole blocks instead. */
  function LanePart(f: Format, half: Half, w: ByteMap, p: int, x: int -> real, xo: int, lane: int): real {
    match f
    case Q4_0 => 0.0
    case Q4_K => Group4K(half, w, p, x, xo, lane)
    case Q6_K => Part6(half, w, p, x, xo, lane)
  }

  /** What a lane adds for each block of the row at wr. */
  function LaneParts(f: Format, half: Half, w: ByteMap, wr: int, x: int -> real, xb: int, lane: int): int -> real {
    blk => LanePart(f, half, w, wr + blk * BlockBytes(f), x, xb + blk * BlockSize(f), lane)
  }

  // ---- Q4_0: each lane takes whole blocks

  function Pair40(w: ByteMap, p: int, x: int -> real, xo: int): int -> real {
    j => Mul((U8(Lo(w(p + 2 + j))) - 8) as real, x(xo + j)) + Mul((U8(Hi(w(p + 2 + j))) - 8) as real, x(xo + j + 16))
  }

  /** The first n pairs of nibbles add up to both halves of the block. */
  lemma {:induction false} Pairs40(half: Half, w: ByteMap, p: int, x: int -> real, xo: int, n: nat)
    requires n <= 16
    ensures var t := Term(Q4_0, half, w, p, x, xo);
      Mul(HalfAt(half, w, p), Sum(n, Pair40(w, p, x, xo))) == Sum(n, t) + Sum(n, Shifted(t, 16))
  {
    var t, d, f := Term(Q4_0, half, w, p, x, xo), HalfAt(half, w, p), Pair40(w, p, x, xo);
    if n == 0 {
      MulSplit(d, 0.0, 0.0);
    } else {
      Pairs40(half, w, p, x, xo, n - 1);
      Pair40Is(half, w, p, x, xo, n - 1);
      hide *;
      MulSplit(d, Sum(n - 1, f), f(n - 1));
      SumNext(n - 1, f);
      SumNext(n - 1, t);
      SumNext(n - 1, Shifted(t, 16));
    }
  }

  lemma {:induction false} Pair40Is(half: Half, w: ByteMap, p: int, x: int -> real, xo: int, j: int)
    requires 0 <= j < 16
    ensures var t := Term(Q4_0, half, w, p, x, xo);
      Mul(HalfAt(half, w, p), Pair40(w, p, x, xo)(j)) == t(j) + Shifted(t, 16)(j)
  {
    hide Mul, U8, Lo, Hi;
    var d, a, b := HalfAt(half, w, p), (U8(Lo(w(p + 2 + j))) - 8) as real, (U8(Hi(w(p + 2 + j))) - 8) as real;
    MulSplit(d, Mul(a, x(xo + j)), Mul(b, x(xo + j + 16)));
    MulSplit(d, a, x(xo + j));
    MulSplit(d, b, x(xo + j + 16));
    assert xo + (16 + j) == xo + j + 16;
    assert Elem40(half, w, p, 16 + j) == Mul(d, b);
  }

  lemma {:induction false} Block40(half: Half, w: ByteMap, p: int, x: int -> real, xo: int)
    ensures Mul(HalfAt(half, w, p), Sum(16, Pair40(w, p, x, xo))) == BlockDot(Q4_0, half, w, p, x, xo)
  {
    hide Mul, Term, Pair40, Sum;
    var t := Term(Q4_0, half, w, p, x, xo);
    Pairs40(half, w, p, x, xo, 16);
    SumSplit(16, 16, t);
  }

  /** The loop of one lane of MatVecQ4_0 over the row at byte wr. */
  method LaneQ4_0(half: Half, w: seq<bv8>, x: seq<real>, wr: nat, xb: nat, nb: nat, lane: nat) returns (acc: real)
    requires lane < 32 && wr + nb * 18 <= |w| && xb + nb * 32 <= |x|
    ensures acc == Strided(Add, 0.0, DotOf(Q4_0, half, At(w), wr, Floats(x), xb), lane, 32, nb)
  {
    hide Mul, DotOf, Sum, Pair40;
    ghost var ws, xs := At(w), Floats(x);
    ghost var f := DotOf(Q4_0, half, ws, wr, xs, xb);
    var blk := lane;
    acc := 0.0;
    while blk < nb
      invariant Strided(Add, acc, f, blk, 32, nb) == Strided(Add, 0.0, f, lane, 32, nb)
    {
      RowInTable(blk, nb, 18);
      RowInTable(blk, nb, 32);
      var p, xo := wr + blk * 18, xb + blk * 32;
      var s := Nibbles(w, x, p, xo);
      Block40(half, ws, p, xs, xo);
      DotAt(Q4_0, half, ws, wr, xs, xb, blk);
      acc := acc + Mul(half(w[p], w[p + 1]), s);
      blk := blk + 32;
    }
  }

  lemma {:induction false} DotAt(f: Format, half: Half, w: ByteMap, wr: int, x: int -> real, xb: int, blk: int)
    ensures DotOf(f, half, w, wr, x, xb)(blk)
      == BlockDot(f, half, w, wr + blk * BlockBytes(f), x, xb + blk * BlockSize(f))
  {}

  /** The loop over the 16 nibble bytes of a block. */
  method Nibbles(w: seq<bv8>, x: seq<real>, p: nat, xo: nat) returns (s: real)
    requires p + 18 <= |w| && xo + 32 <= |x|
    ensures s == Sum(16, Pair40(At(w), p, Floats(x), xo))
  {
    hide Mul, U8;
    ghost var f := Pair40(At(w), p, Floats(x), xo);
    s := 0.0;
    for j := 0 to 16
      invariant s == Sum(j, f)
    {
      var q := w[p + 2 + j];
      var a, b := Mul((U8(q & 0xF) - 8) as real, x[xo + j]), Mul((U8(q >> 4) - 8) as real, x[xo + j + 16]);
      assert f(j) == a + b by { PairAt(w, x, p, xo, j); }
      SumNext(j, f);
      s := s + (a + b);
    }
  }

  lemma {:induction false} PairAt(w: seq<bv8>, x: seq<real>, p: nat, xo: nat, j: nat)
    requires j < 16 && p + 18 <= |w| && xo + 32 <= |x|
    ensures Pair40(At(w), p, Floats(x), xo)(j)
         == Mul((U8(w[p + 2 + j] & 0xF) - 8) as real, x[xo + j])
           + Mul((U8(w[p + 2 + j] >> 4) - 8) as real, x[xo + j + 16])
  {
    hide Mul, U8;
    assert At(w)(p + 2 + j) == w[p + 2 + j] && xo + j + 16 < |x|;
    assert Floats(x)(xo + j) == x[xo + j] && Floats(x)(xo + j + 16) == x[xo + j + 16];
  }

  // ---- Q4_K: eight consecutive elements of every block per lane

  /** Sum of q*x over the lane's eight elements, and of x. */
  function GroupQ(w: ByteMap, p: int, x: int -> real, xo: int, lane: int): int -> real {
    i => Mul(U8(Nibble4K(w, p, 8 * lane + i)) as real, x(xo + (8 * lane + i)))
  }

  function GroupX(x: int -> real, xo: int, lane: int): int -> real { i => x(xo + (8 * lane + i)) }

  /** Eight elements share a scale and an offset, so both factor out of the sum. */
  lemma {:induction false} Factored(half: Half, w: ByteMap, p: int, x: int -> real, xo: int, lane: int, n: nat)
    requires 0 <= lane < 32 && n <= 8
    ensures Mul(Scale(half, w, p, lane / 4), Sum(n, GroupQ(w, p, x, xo, lane)))
      - Mul(Offset(half, w, p, lane / 4), Sum(n, GroupX(x, xo, lane)))
         == Sum(n, Shifted(Term(Q4_K, half, w, p, x, xo), lane * 8))
  {
    hide *;
    var a, b := Scale(half, w, p, lane / 4), Offset(half, w, p, lane / 4);
    var q, s, t := GroupQ(w, p, x, xo, lane), GroupX(x, xo, lane), Shifted(Term(Q4_K, half, w, p, x, xo), lane * 8);
    if n == 0 {
      NoTerms(a, b, q, s, t);
    } else {
      Factored(half, w, p, x, xo, lane, n - 1);
      FactoredTerm(half, w, p, x, xo, lane, n - 1);
      OneMore(a, b, q, s, t, n - 1);
    }
  }

  lemma {:induction false} NoTerms(a: real, b: real, q: int -> real, s: int -> real, t: int -> real)
    ensures Mul(a, Sum(0, q)) - Mul(b, Sum(0, s)) == Sum(0, t)
  {}

  lemma {:induction false} OneMore(a: real, b: real, q: int -> real, s: int -> real, t: int -> real, n: nat)
    requires Mul(a, Sum(n, q)) - Mul(b, Sum(n, s)) == Sum(n, t)
    requires Mul(a, q(n)) - Mul(b, s(n)) == t(n)
    ensures Mul(a, Sum(n + 1, q)) - Mul(b, Sum(n + 1, s)) == Sum(n + 1, t)
  {
    hide *;
    SumNext(n, q);
    SumNext(n, s);
    SumNext(n, t);
    MulSplit(a, Sum(n, q), q(n));
    MulSplit(b, Sum(n, s), s(n));
  }

  lemma {:induction false} FactoredTerm(half: Half, w: ByteMap, p: int, x: int -> real, xo: int, lane: int, i: int)
    requires 0 <= lane < 32 && 0 <= i < 8
    ensures Mul(Scale(half, w, p, lane / 4), GroupQ(w, p, x, xo, lane)(i))
      - Mul(Offset(half, w, p, lane / 4), GroupX(x, xo, lane)(i))
         == Shifted(Term(Q4_K, half, w, p, x, xo), lane * 8)(i)
  {
    var e := 8 * lane + i;
    assert e / 32 == lane / 4;
    hide Mul, Scale, Offset, Nibble4K, U8;
    var a, b, q := Scale(half, w, p, lane / 4), Offset(half, w, p, lane / 4), U8(Nibble4K(w, p, e)) as real;
    MulSplit(x(xo + e), Mul(a, q), b);
    MulSplit(a, q, x(xo + e));
  }

  /** The kernel's chunk, sub and shift pick the very nibble. */
  lemma {:induction false} LaneNibble(w: ByteMap, p: int, lane: int, i: int)
    requires 0 <= lane < 32 && 0 <= i < 8
    ensures var chunk, sub := lane / 8, lane % 8;
      Nibble4K(w, p, 8 * lane + i)
        == (w(p + 16 + chunk * 32 + sub % 4 * 8 + i) >> (if sub / 4 == 0 then 0 else 4)) & 0xF
  {
    var e, chunk, sub := 8 * lane + i, lane / 8, lane % 8;
    LaneIndex(lane, i);
    hide Lo, Hi;
    assert Nibble4K(w, p, e) == (if sub / 4 == 0 then Lo(w(p + 16 + chunk * 32 + sub % 4 * 8 + i))
                                 else Hi(w(p + 16 + chunk * 32 + sub % 4 * 8 + i)));
    HighNibble(w(p + 16 + chunk * 32 + sub % 4 * 8 + i));
  }

  lemma {:induction false} LaneIndex(lane: int, i: int)
    requires 0 <= lane < 32 && 0 <= i < 8
    ensures var e, chunk, sub := 8 * lane + i, lane / 8, lane % 8;
      && e / 64 == chunk && e / 32 % 2 == sub / 4 && e % 32 == sub % 4 * 8 + i
      && 0 <= chunk < 4 && 0 <= sub < 8 && 0 <= sub / 4 < 2 && 0 <= sub % 4 < 4
  {}

  lemma {:induction false} HighNibble(b: bv8)
    ensures (b >> 4) & 0xF == Hi(b) && (b >> 0) & 0xF == Lo(b)
  {}

  function ScaleAt(w: seq<bv8>, s: nat, j: nat): (r: bv8)
    requires j < 8 && s + 12 <= |w|
    ensures r == ScaleBits(At(w), s, j)
  {
    if j < 4 then w[s + j] & 63 else (w[s + j + 4] & 0xF) | ((w[s + j - 4] >> 6) << 4)
  }

  function MinAt(w: seq<bv8>, s: nat, j: nat): (r: bv8)
    requires j < 8 && s + 12 <= |w|
    ensures r == MinBits(At(w), s, j)
  {
    if j < 4 then w[s + j + 4] & 63 else (w[s + j + 4] >> 4) | ((w[s + j] >> 6) << 4)
  }

  /** The inner loop: sum of q*x and sum of x over the lane's eight elements. */
  lemma {:induction false} EightTerm(w: seq<bv8>, x: seq<real>, p: nat, xo: nat, lane: nat, i: nat)
    requires lane < 32 && i < 8 && p + 144 <= |w| && xo + 256 <= |x|
    ensures var at, xv := p + 16 + lane / 8 * 32 + lane % 8 % 4 * 8 + i, x[xo + (8 * lane + i)];
      && 0 <= at < |w| && GroupX(Floats(x), xo, lane)(i) == xv
      && GroupQ(At(w), p, Floats(x), xo, lane)(i)
        == Mul(U8((w[at] >> (if lane % 8 / 4 == 0 then 0 else 4)) & 0xF) as real, xv)
  {
    LaneIndex(lane, i);
    LaneNibble(At(w), p, lane, i);
    hide Mul, U8, Nibble4K;
  }

  method Eight(w: seq<bv8>, x: seq<real>, p: nat, xo: nat, lane: nat) returns (sq: real, sx: real)
    requires lane < 32 && p + 144 <= |w| && xo + 256 <= |x|
    ensures sq == Sum(8, GroupQ(At(w), p, Floats(x), xo, lane)) && sx == Sum(8, GroupX(Floats(x), xo, lane))
  {
    hide Mul, U8, Nibble4K, GroupQ, GroupX;
    ghost var f, g := GroupQ(At(w), p, Floats(x), xo, lane), GroupX(Floats(x), xo, lane);
    LaneIndex(lane, 0);
    var chunk, sub := lane / 8, lane % 8;
    var shift: bv8 := if sub / 4 == 0 then 0 else 4;
    var qo := p + 16 + chunk * 32 + sub % 4 * 8;
    sq, sx := 0.0, 0.0;
    for i := 0 to 8
      invariant sq == Sum(i, f) && sx == Sum(i, g)
    {
      EightTerm(w, x, p, xo, lane, i);
      var xv := x[xo + (8 * lane + i)];
      sq := sq + Mul(U8((w[qo + i] >> shift) & 0xF) as real, xv);
      sx := sx + xv;
    }
  }

  /** The loop of one lane of MatVecQ4K. */
  method LaneQ4K(half: Half, w: seq<bv8>, x: seq<real>, wr: nat, xb: nat, nb: nat, lane: nat) returns (acc: real)
    requires lane < 32 && wr + nb * 144 <= |w| && xb + nb * 256 <= |x|
    ensures acc == Sum(nb, LaneParts(Q4_K, half, At(w), wr, Floats(x), xb, lane))
  {
    hide Mul, U8, Group4K, GroupQ, GroupX, ScaleBits, MinBits;
    ghost var ws, xs := At(w), Floats(x);
    ghost var f := LaneParts(Q4_K, half, ws, wr, xs, xb, lane);
    var j := lane / 8 * 2 + lane % 8 / 4;
    assert j == lane / 4;
    acc := 0.0;
    for blk := 0 to nb
      invariant acc == Sum(blk, f)
    {
      RowInTable(blk, nb, 144);
      RowInTable(blk, nb, 256);
      var p, xo := wr + blk * 144, xb + blk * 256;
      var sq, sx := Eight(w, x, p, xo, lane);
      GroupIs(half, ws, p, xs, xo, lane, sq, sx);
      acc := acc + (Mul(Mul(half(w[p], w[p + 1]), U8(ScaleAt(w, p + 4, j)) as real), sq)
                    - Mul(Mul(half(w[p + 2], w[p + 3]), U8(MinAt(w, p + 4, j)) as real), sx));
    }
  }

  lemma {:induction false} GroupIs(half: Half, w: ByteMap, p: int, x: int -> real, xo: int, lane: int, sq: real,
      sx: real)
    requires 0 <= lane < 32 && sq == Sum(8, GroupQ(w, p, x, xo, lane)) && sx == Sum(8, GroupX(x, xo, lane))
    ensures Group4K(half, w, p, x, xo, lane)
         == Mul(Mul(HalfAt(half, w, p), U8(ScaleBits(w, p + 4, lane / 4)) as real), sq)
            - Mul(Mul(HalfAt(half, w, p + 2), U8(MinBits(w, p + 4, lane / 4)) as real), sx)
  {
    Factored(half, w, p, x, xo, lane, 8);
  }

  // ---- Q6_K: elements l, l+32, l+64, l+96 of both halves per lane

  /** Lanes and strides cover a 256-element block once. */
  lemma {:induction false} StridesCover(t: int -> real)
    ensures Sum(32, RowSums(Flip(Four(t)), 2)) == Sum(256, t)
  {
    hide Sum, Four;
    SumGroups(2, 128, t);
    SumSwap(2, 32, Four(t));
    forall c | 0 <= c < 2 ensures RowSums(Four(t), 32)(c) == Groups(t, 128)(c) { HalfCovered(t, c); }
    SumCongruence(2, RowSums(Four(t), 32), Groups(t, 128));
  }

  lemma {:induction false} HalfCovered(t: int -> real, c: int)
    ensures RowSums(Four(t), 32)(c) == Groups(t, 128)(c)
  {
    hide Sum;
    var u := Shifted(t, c * 128);
    SumGroups(4, 32, u);
    SumSwap(4, 32, Grid(u));
    forall k | 0 <= k < 4 ensures RowSums(Grid(u), 32)(k) == Groups(u, 32)(k) {
      SumCongruence(32, Sums.Row(Grid(u), k), Shifted(u, k * 32));
    }
    SumCongruence(4, RowSums(Grid(u), 32), Groups(u, 32));
    SumCongruence(32, Sums.Row(Four(t), c), RowSums(Flip(Grid(u)), 4));
  }

  function Quad(w: ByteMap, p: int, x: int -> real, xo: int, c: int, lane: int, k: int): real {
    Mul(Mul(Scale6K(w, p, c, lane, k) as real, (U8(Bits6K(w, p, c, lane, k)) - 32) as real),
      x(xo + c * 128 + lane + 32 * k))
  }

  function Quads(w: ByteMap, p: int, x: int -> real, xo: int, c: int, lane: int): real {
    Quad(w, p, x, xo, c, lane, 0) + Quad(w, p, x, xo, c, lane, 1) + Quad(w, p, x, xo, c, lane, 2)
      + Quad(w, p, x, xo, c, lane, 3)
  }

  lemma {:induction false} QuadIs(half: Half, w: ByteMap, p: int, x: int -> real, xo: int, c: int, lane: int, k: int)
    requires 0 <= c < 2 && 0 <= lane < 32 && 0 <= k < 4
    ensures Mul(HalfAt(half, w, p + 208), Quad(w, p, x, xo, c, lane, k))
      == Term(Q6_K, half, w, p, x, xo)(c * 128 + (k * 32 + lane))
  {
    hide Mul, Scale6K, Bits6K;
    var e := c * 128 + (k * 32 + lane);
    Place6K(c, lane, k);
    assert e == 128 * c + 32 * k + lane;
    var d, s, q := HalfAt(half, w, p + 208), Scale6K(w, p, c, lane, k) as real,
      (U8(Bits6K(w, p, c, lane, k)) - 32) as real;
    assert xo + e == xo + c * 128 + lane + 32 * k;
    MulSplit(d, Mul(s, q), x(xo + e));
    MulSplit(d, s, q);
  }

  lemma {:induction false} FourIs(t: int -> real, c: int, lane: int)
    ensures Four(t)(c, lane) == Sum(4, Sums.Row(Flip(Grid(Shifted(t, c * 128))), lane))
  {
    hide RowSums, Sum;
    RowSumsAt(Flip(Grid(Shifted(t, c * 128))), 4, lane);
  }

  lemma {:induction false} FourAt(t: int -> real, c: int, lane: int, k: int)
    ensures Sums.Row(Flip(Grid(Shifted(t, c * 128))), lane)(k) == t(c * 128 + (k * 32 + lane))
  {}

  lemma {:induction false} QuadsAre(half: Half, w: ByteMap, p: int, x: int -> real, xo: int, c: int, lane: int)
    requires 0 <= c < 2 && 0 <= lane < 32
    ensures Mul(HalfAt(half, w, p + 208), Quads(w, p, x, xo, c, lane)) == Four(Term(Q6_K, half, w, p, x, xo))(c, lane)
  {
    hide Mul, Quad, Term, Sum, Grid, Flip, Shifted, Sums.Row;
    var d, t := HalfAt(half, w, p + 208), Term(Q6_K, half, w, p, x, xo);
    var f := Sums.Row(Flip(Grid(Shifted(t, c * 128))), lane);
    FourIs(t, c, lane);
    FourAt(t, c, lane, 0);
    FourAt(t, c, lane, 1);
    FourAt(t, c, lane, 2);
    FourAt(t, c, lane, 3);
    QuadIs(half, w, p, x, xo, c, lane, 0);
    QuadIs(half, w, p, x, xo, c, lane, 1);
    QuadIs(half, w, p, x, xo, c, lane, 2);
    QuadIs(half, w, p, x, xo, c, lane, 3);
    FourTerms(f);
    var a, b := Quad(w, p, x, xo, c, lane, 0), Quad(w, p, x, xo, c, lane, 1);
    var g, h := Quad(w, p, x, xo, c, lane, 2), Quad(w, p, x, xo, c, lane, 3);
    MulSplit(d, a, b);
    MulSplit(d, a + b, g);
    MulSplit(d, a + b + g, h);
  }

  lemma {:induction false} FourTerms(f: int -> real)
    ensures Sum(4, f) == f(0) + f(1) + f(2) + f(3) && Sum(2, f) == f(0) + f(1)
  {
    SumNext(3, f);
    SumNext(2, f);
    SumNext(1, f);
    SumNext(0, f);
  }

  /** The kernel subtracts 32 after the conversion to float, so nothing can wrap. */
  lemma {:induction false} SixBitQuant(w: ByteMap, p: int, c: int, l: int, k: int)
    requires 0 <= k < 4
    ensures I8(Bits6K(w, p, c, l, k)) == U8(Bits6K(w, p, c, l, k))
  {
    SixBits(w(p + c * 64 + l + (if k % 2 == 1 then 32 else 0)), w(p + 128 + c * 32 + l), k);
    SmallAsInt(Bits6K(w, p, c, l, k));
  }

  /** q1..q4 of the kernel. */
  method LaneQuants(w: seq<bv8>, p: nat, c: nat, lane: nat) returns (q1: real, q2: real, q3: real, q4: real)
    requires c < 2 && lane < 32 && p + 210 <= |w|
    ensures q1 == (U8(Bits6K(At(w), p, c, lane, 0)) - 32) as real
      && q2 == (U8(Bits6K(At(w), p, c, lane, 1)) - 32) as real
    ensures q3 == (U8(Bits6K(At(w), p, c, lane, 2)) - 32) as real
      && q4 == (U8(Bits6K(At(w), p, c, lane, 3)) - 32) as real
  {
    SixBitQuant(At(w), p, c, lane, 0);
    SixBitQuant(At(w), p, c, lane, 1);
    SixBitQuant(At(w), p, c, lane, 2);
    SixBitQuant(At(w), p, c, lane, 3);
    hide I8, U8;
    var ql, h := p + c * 64 + lane, w[p + 128 + c * 32 + lane];
    q1 := I8((w[ql] & 0xF) | ((h & 3) << 4)) as real - 32.0;
    q2 := I8((w[ql + 32] & 0xF) | (((h >> 2) & 3) << 4)) as real - 32.0;
    q3 := I8((w[ql] >> 4) | (((h >> 4) & 3) << 4)) as real - 32.0;
    q4 := I8((w[ql + 32] >> 4) | (((h >> 6) & 3) << 4)) as real - 32.0;
  }

  /** The body of the loop over halves. */
  method FourOf(w: seq<bv8>, x: seq<real>, p: nat, xo: nat, c: nat, lane: nat) returns (s: real)
    requires c < 2 && lane < 32 && p + 210 <= |w| && xo + 256 <= |x|
    ensures s == Quads(At(w), p, Floats(x), xo, c, lane)
  {
    hide Mul, U8, I8, Bits6K;
    var q1, q2, q3, q4 := LaneQuants(w, p, c, lane);
    var sc := p + 192 + c * 8 + lane / 16;
    var o := xo + c * 128 + lane;
    s := Mul(Mul(I8(w[sc]) as real, q1), x[o]) + Mul(Mul(I8(w[sc + 2]) as real, q2), x[o + 32])
         + Mul(Mul(I8(w[sc + 4]) as real, q3), x[o + 64]) + Mul(Mul(I8(w[sc + 6]) as real, q4), x[o + 96]);
  }

  /** The loop of one lane of MatVecQ6K. */
  method LaneQ6K(half: Half, w: seq<bv8>, x: seq<real>, wr: nat, xb: nat, nb: nat, lane: nat) returns (acc: real)
    requires lane < 32 && wr + nb * 210 <= |w| && xb + nb * 256 <= |x|
    ensures acc == Sum(nb, LaneParts(Q6_K, half, At(w), wr, Floats(x), xb, lane))
  {
    hide Mul, U8, Part6, Quads;
    ghost var ws, xs := At(w), Floats(x);
    ghost var f := LaneParts(Q6_K, half, ws, wr, xs, xb, lane);
    acc := 0.0;
    for blk := 0 to nb
      invariant acc == Sum(blk, f)
    {
      RowInTable(blk, nb, 210);
      RowInTable(blk, nb, 256);
      var p, xo := wr + blk * 210, xb + blk * 256;
      var s := 0.0;
      for c := 0 to 2
        invariant s == (if c == 0 then 0.0 else Quads(ws, p, xs, xo, 0, lane))
          + (if c == 2 then Quads(ws, p, xs, xo, 1, lane) else 0.0)
      {
        var q := FourOf(w, x, p, xo, c, lane);
        s := s + q;
      }
      PartIs(half, ws, p, xs, xo, lane);
      acc := acc + Mul(half(w[p + 208], w[p + 209]), s);
    }
  }

  lemma {:induction false} PartIs(half: Half, w: ByteMap, p: int, x: int -> real, xo: int, lane: int)
    requires 0 <= lane < 32
    ensures Mul(HalfAt(half, w, p + 208), Quads(w, p, x, xo, 0, lane) + Quads(w, p, x, xo, 1, lane))
      == Part6(half, w, p, x, xo, lane)
  {
    hide Mul, Quads, Sum, Four, Term;
    var t := Term(Q6_K, half, w, p, x, xo);
    QuadsAre(half, w, p, x, xo, 0, lane);
    QuadsAre(half, w, p, x, xo, 1, lane);
    FourTerms(Sums.Row(Flip(Four(t)), lane));
    MulSplit(HalfAt(half, w, p + 208), Quads(w, p, x, xo, 0, lane), Quads(w, p, x, xo, 1, lane));
  }

  // ---- a warp: the lanes' sums, then the butterfly

  /** A fold of additions is a sum. */
  lemma {:induction false} FoldSum(v: seq<real>)
    requires |v| > 0
    ensures Fold(Add, v) == Sum(|v|, Floats(v))
  {
    var n := |v| - 1;
    SumNext(n, Floats(v));
    if n == 0 {
      assert Sum(0, Floats(v)) == 0.0;
    } else {
      FoldSum(v[..n]);
      SumCongruence(n, Floats(v[..n]), Floats(v));
    }
  }

  /** What lane adds for block blk, as a table. */
  function LaneTable(f: Format, half: Half, w: ByteMap, wr: int, x: int -> real, xb: int): (int, int) -> real {
    (lane, blk) => LanePart(f, half, w, wr + blk * BlockBytes(f), x, xb + blk * BlockSize(f), lane)
  }

  lemma {:induction false} LaneAt(f: Format, half: Half, w: ByteMap, wr: int, x: int -> real, xb: int, blk: int,
      lane: int)
    ensures Sums.Row(Flip(LaneTable(f, half, w, wr, x, xb)), blk)(lane)
         == LanePart(f, half, w, wr + blk * BlockBytes(f), x, xb + blk * BlockSize(f), lane)
    ensures Sums.Row(LaneTable(f, half, w, wr, x, xb), lane)(blk) == LaneParts(f, half, w, wr, x, xb, lane)(blk)
  {
    hide LanePart;
  }

  lemma {:induction false} LanesCover4K(half: Half, w: ByteMap, p: int, x: int -> real, xo: int, col: int -> real)
    requires forall lane :: 0 <= lane < 32 ==> col(lane) == Group4K(half, w, p, x, xo, lane)
    ensures Sum(32, col) == BlockDot(Q4_K, half, w, p, x, xo)
  {
    hide Sum, Term, Groups;
    var t := Term(Q4_K, half, w, p, x, xo);
    SumGroups(32, 8, t);
    SumCongruence(32, col, Groups(t, 8));
  }

  lemma {:induction false} LanesCover6K(half: Half, w: ByteMap, p: int, x: int -> real, xo: int, col: int -> real)
    requires forall lane :: 0 <= lane < 32 ==> col(lane) == Part6(half, w, p, x, xo, lane)
    ensures Sum(32, col) == BlockDot(Q6_K, half, w, p, x, xo)
  {
    hide Sum, Term, RowSums, Four;
    var t := Term(Q6_K, half, w, p, x, xo);
    StridesCover(t);
    SumCongruence(32, col, RowSums(Flip(Four(t)), 2));
  }

  /** The lanes of a warp cover each block exactly once. */
  lemma {:induction false} LanesCover(f: Format, half: Half, w: ByteMap, wr: int, x: int -> real, xb: int, blk: int)
    requires f != Q4_0
    ensures Sum(32, Sums.Row(Flip(LaneTable(f, half, w, wr, x, xb)), blk)) == DotOf(f, half, w, wr, x, xb)(blk)
  {
    hide Sum, LaneTable, BlockDot, Group4K, Part6;
    var p, xo := wr + blk * BlockBytes(f), xb + blk * BlockSize(f);
    var col := Sums.Row(Flip(LaneTable(f, half, w, wr, x, xb)), blk);
    forall lane | 0 <= lane < 32
      ensures col(lane) == (if f.Q4_K? then Group4K(half, w, p, x, xo, lane) else Part6(half, w, p, x, xo, lane))
    {
      LaneAt(f, half, w, wr, x, xb, blk, lane);
    }
    if f.Q4_K? {
      LanesCover4K(half, w, p, x, xo, col);
    } else {
      LanesCover6K(half, w, p, x, xo, col);
    }
    DotAt(f, half, w, wr, x, xb, blk);
  }

  /** The value lane l holds before the butterfly. */
  function LaneSum(f: Format, half: Half, w: ByteMap, wr: int, x: int -> real, xb: int, nb: nat, lane: nat): real {
    if f.Q4_0? then Strided(Add, 0.0, DotOf(f, half, w, wr, x, xb), lane, 32, nb)
    else Sum(nb, Sums.Row(LaneTable(f, half, w, wr, x, xb), lane))
  }

  /** The warp's total is the sum of the blocks' dot products. */
  lemma {:induction false} WarpDots(f: Format, half: Half, w: ByteMap, wr: int, x: int -> real, xb: int, nb: nat,
      v: Vec)
    requires forall l :: 0 <= l < 32 ==> v[l] == LaneSum(f, half, w, wr, x, xb, nb, l)
    ensures Butterfly(Add, v) == Const(Sum(nb, DotOf(f, half, w, wr, x, xb)))
  {
    hide Sum, LaneTable;
    var dots := DotOf(f, half, w, wr, x, xb);
    AddMaxReorderable();
    WarpTotal(Add, v);
    if f.Q4_0? {
      StridedCovers(Add, 0.0, dots, v, nb);
      AccumulateAdd(dots, nb);
    } else {
      var table := LaneTable(f, half, w, wr, x, xb);
      FoldSum(v);
      SumCongruence(32, Floats(v), RowSums(table, nb));
      SumSwap(32, nb, table);
      forall blk | 0 <= blk < nb ensures RowSums(Flip(table), 32)(blk) == dots(blk) {
        LanesCover(f, half, w, wr, x, xb, blk);
      }
      SumCongruence(nb, RowSums(Flip(table), 32), dots);
    }
  }

  /** The blocks' dot products add up to the dot product of the decoded row. */
  lemma {:induction false} BlocksAreRow(f: Format, half: Half, w: ByteMap, wr: int, x: int -> real, xb: int, cols: nat)
    requires cols % BlockSize(f) == 0
    ensures Sum(cols / BlockSize(f), DotOf(f, half, w, wr, x, xb)) == RowDot(f, half, w, wr, cols, x, xb)
  {
    hide Sum, Elem;
    var m, nb := BlockSize(f), cols / BlockSize(f);
    var g := Products(f, half, w, wr, x, xb);
    assert cols == nb * m;
    SumGroups(nb, m, g);
    forall blk | 0 <= blk < nb ensures Groups(g, m)(blk) == DotOf(f, half, w, wr, x, xb)(blk) {
      BlockIsGroup(f, half, w, wr, x, xb, blk);
    }
    SumCongruence(nb, Groups(g, m), DotOf(f, half, w, wr, x, xb));
  }

  lemma {:induction false} BlockIsGroup(f: Format, half: Half, w: ByteMap, wr: int, x: int -> real, xb: int, blk: int)
    ensures Groups(Products(f, half, w, wr, x, xb), BlockSize(f))(blk) == DotOf(f, half, w, wr, x, xb)(blk)
  {
    hide Sum, Elem, Mul;
    var m := BlockSize(f);
    var a, b := Shifted(Products(f, half, w, wr, x, xb), blk * m),
      Term(f, half, w, wr + blk * BlockBytes(f), x, xb + blk * m);
    forall e | 0 <= e < m ensures a(e) == b(e) {
      DivModUnique(blk, e, m, blk * m + e);
      assert xb + (blk * m + e) == xb + blk * m + e;
    }
    SumCongruence(m, a, b);
  }

  /** One lane's loop, whichever kernel. */
  method Lane(f: Format, half: Half, w: seq<bv8>, x: seq<real>, wr: nat, xb: nat, nb: nat, lane: nat)
      returns (acc: real)
    requires lane < 32 && wr + nb * BlockBytes(f) <= |w| && xb + nb * BlockSize(f) <= |x|
    ensures acc == LaneSum(f, half, At(w), wr, Floats(x), xb, nb, lane)
  {
    hide Sum, LaneParts, LaneTable, DotOf;
    ghost var ws, xs := At(w), Floats(x);
    match f {
      case Q4_0 => acc := LaneQ4_0(half, w, x, wr, xb, nb, lane);
      case Q4_K =>
        acc := LaneQ4K(half, w, x, wr, xb, nb, lane);
        TableRow(f, half, ws, wr, xs, xb, nb, lane);
      case Q6_K =>
        acc := LaneQ6K(half, w, x, wr, xb, nb, lane);
        TableRow(f, half, ws, wr, xs, xb, nb, lane);
    }
  }

  lemma {:induction false} TableRow(f: Format, half: Half, w: ByteMap, wr: int, x: int -> real, xb: int, nb: nat,
      lane: int)
    ensures Sum(nb, LaneParts(f, half, w, wr, x, xb, lane)) == Sum(nb, Sums.Row(LaneTable(f, half, w, wr, x, xb), lane))
  {
    hide Sum, LaneTable, LaneParts;
    forall blk | 0 <= blk < nb
      ensures LaneParts(f, half, w, wr, x, xb, lane)(blk) == Sums.Row(LaneTable(f, half, w, wr, x, xb), lane)(blk)
    {
      LaneAt(f, half, w, wr, x, xb, blk, lane);
    }
    SumCongruence(nb, LaneParts(f, half, w, wr, x, xb, lane), Sums.Row(LaneTable(f, half, w, wr, x, xb), lane));
  }

  // ---- the grid: one warp per row, batch blocks in y

  /** ceil(rows / 8) blocks of eight warps. */
  function GridX(rows: nat): nat { (rows + 7) / 8 }

  /** The row of a warp. */
  function RowNo(bx: nat, warp: nat): nat { bx * 8 + warp }

  /** Every row below rows belongs to exactly one warp of the grid. */
  lemma {:induction false} GridCovers(rows: nat, r: nat)
    requires r < rows
    ensures r / 8 < GridX(rows) && r % 8 < 8 && RowNo(r / 8, r % 8) == r
    ensures forall bx, warp :: 0 <= bx && 0 <= warp < 8 && RowNo(bx, warp) == r ==> bx == r / 8 && warp == r % 8
  {}

  /** And fewer than eight warps of a batch have no row. */
  lemma {:induction false} GridTight(rows: nat)
    ensures rows <= GridX(rows) * 8 < rows + 8
  {}

  /** Whole blocks per row, and buffers that hold the table, the vectors and the products. */
  predicate Shapes(f: Format, w: nat, x: nat, y: nat, rows: nat, cols: nat, batch: nat) {
    cols % BlockSize(f) == 0 && rows * RowBytes(f, cols) <= w && batch * cols <= x && batch * rows <= y
  }

  /** One warp of the launch: row bx*8+warp of vector b, or nothing past the last row. */
  method Warp(f: Format, half: Half, w: seq<bv8>, x: seq<real>, y: array<real>, rows: nat, cols: nat, batch: nat,
      bx: nat, warp: nat, b: nat)
    requires warp < 8 && b < batch && Shapes(f, |w|, |x|, y.Length, rows, cols, batch)
    modifies y
    ensures var r := RowNo(bx, warp);
      if r >= rows then y[..] == old(y[..])
      else Place(b, rows, r) < y.Length
           && y[..] == old(y[..])[Place(b, rows, r) := RowDot(f, half, At(w), RowBase(f, cols, r), cols, Floats(x),
             Place(b, cols, 0))]
  {
    hide Sum, RowDot, RowBytes, Place, RowBase, DotOf, BlockBytes, BlockSize;
    var r := RowNo(bx, warp);
    if r >= rows { return; }
    WarpFits(f, rows, cols, batch, r, b);
    PlaceInside(b, batch, rows, r);
    var wr, xb := RowBase(f, cols, r), Place(b, cols, 0);
    var acc := Lanes(f, half, w, x, wr, xb, cols / BlockSize(f));
    BlocksAreRow(f, half, At(w), wr, Floats(x), xb, cols);
    y[Place(b, rows, r)] := acc;
  }

  /** A warp stays inside its row of w and its vector of x. */
  lemma {:induction false} WarpFits(f: Format, rows: nat, cols: nat, batch: nat, r: nat, b: nat)
    requires r < rows && b < batch && cols % BlockSize(f) == 0
    ensures RowBase(f, cols, r) + cols / BlockSize(f) * BlockBytes(f) <= rows * RowBytes(f, cols)
    ensures Place(b, cols, 0) + cols / BlockSize(f) * BlockSize(f) <= batch * cols
  {
    RowInTable(r, rows, RowBytes(f, cols));
    VectorInside(b, batch, cols);
    assert cols / BlockSize(f) * BlockSize(f) == cols;
  }

  /** The 32 lanes in lockstep, then warpSum; lane 0 holds the total. */
  method Lanes(f: Format, half: Half, w: seq<bv8>, x: seq<real>, wr: nat, xb: nat, nb: nat) returns (acc: real)
    requires wr + nb * BlockBytes(f) <= |w| && xb + nb * BlockSize(f) <= |x|
    ensures acc == Sum(nb, DotOf(f, half, At(w), wr, Floats(x), xb))
  {
    hide Sum, LaneSum, DotOf;
    var lanes := new real[32];
    for l := 0 to 32
      invariant forall k :: 0 <= k < l ==> lanes[k] == LaneSum(f, half, At(w), wr, Floats(x), xb, nb, k)
    {
      var s := Lane(f, half, w, x, wr, xb, nb, l);
      lanes[l] := s;
    }
    var v: Vec := lanes[..];
    WarpDots(f, half, At(w), wr, Floats(x), xb, nb, v);
    acc := Butterfly(Add, v)[0];
  }

  datatype WarpId = WarpId(bx: nat, warp: nat, b: nat)

  /** The warps of a launch, in any order, each once. */
  ghost predicate IsLaunch(order: seq<WarpId>, rows: nat, batch: nat) {
    && (forall i :: 0 <= i < |order| ==> order[i].bx < GridX(rows) && order[i].warp < 8 && order[i].b < batch)
    && (forall i, j :: 0 <= i < j < |order| ==> order[i] != order[j])
    && forall bx, warp, b :: 0 <= bx < GridX(rows) && 0 <= warp < 8 && 0 <= b < batch ==> WarpId(bx, warp, b) in order
  }

  /** The place a warp writes, if it writes. */
  function Target(id: WarpId, rows: nat): Option<nat> {
    if RowNo(id.bx, id.warp) < rows then Some(Place(id.b, rows, RowNo(id.bx, id.warp))) else None
  }

  lemma {:induction false} TargetsDiffer(order: seq<WarpId>, rows: nat, batch: nat, i: nat, j: nat)
    requires IsLaunch(order, rows, batch) && i < |order| && j < |order| && i != j && Target(order[i], rows).Some?
    ensures Target(order[i], rows) != Target(order[j], rows)
  {
    if Target(order[i], rows) == Target(order[j], rows) {
      PlaceUnique(order[i].b, order[j].b, rows, RowNo(order[i].bx, order[i].warp), RowNo(order[j].bx, order[j].warp));
    }
  }

  /** Each y[b][r] is written by exactly one warp of the launch, so the order is free. */
  lemma {:induction false} WrittenOnce(order: seq<WarpId>, rows: nat, batch: nat, b: nat, r: nat)
    requires IsLaunch(order, rows, batch) && b < batch && r < rows
    ensures exists i :: 0 <= i < |order| && Target(order[i], rows) == Some(Place(b, rows, r))
    ensures forall i, j | 0 <= i < |order| && 0 <= j < |order| && i != j ::
      Target(order[i], rows) == Some(Place(b, rows, r)) ==> Target(order[j], rows) != Some(Place(b, rows, r))
  {
    GridCovers(rows, r);
    var id := WarpId(r / 8, r % 8, b);
    assert id in order;
    var k :| 0 <= k < |order| && order[k] == id;
    assert Target(order[k], rows) == Some(Place(b, rows, r));
    forall i, j | 0 <= i < |order| && 0 <= j < |order| && i != j && Target(order[i], rows).Some?
      ensures Target(order[i], rows) != Target(order[j], rows)
    {
      TargetsDiffer(order, rows, batch, i, j);
    }
  }

  /** gpu.MatVecQ's launch: whatever order the warps run in, y is W x for every vector,
      the same y that cpu.MatVecQ computes. */
  method Launch(f: Format, half: Half, w: seq<bv8>, x: seq<real>, y: array<real>, rows: nat, cols: nat, batch: nat,
      order: seq<WarpId>)
    requires IsLaunch(order, rows, batch) && Shapes(f, |w|, |x|, y.Length, rows, cols, batch)
    modifies y
    ensures forall b, r :: 0 <= b < batch && 0 <= r < rows ==> Multiplied(f, half, w, x, y[..], rows, cols, b, r)
    ensures forall i: nat :: batch * rows <= i < y.Length ==> y[i] == old(y[i])
  {
    hide RowDot, Place, RowBytes, Multiplied;
    ghost var y0 := y[..];
    for n := 0 to |order|
      invariant DoneSoFar(f, half, w, x, y[..], rows, cols, order, n)
      invariant |y[..]| == |y0| && y[batch * rows..] == y0[batch * rows..]
    {
      var id := order[n];
      ghost var before := y[..];
      Warp(f, half, w, x, y, rows, cols, batch, id.bx, id.warp, id.b);
      OneMoreWarp(f, half, w, x, before, y[..], rows, cols, batch, order, n);
    }
    forall b, r | 0 <= b < batch && 0 <= r < rows ensures Multiplied(f, half, w, x, y[..], rows, cols, b, r) {
      GridCovers(rows, r);
      var id := WarpId(r / 8, r % 8, b);
      assert id in order;
      var k :| 0 <= k < |order| && order[k] == id;
      assert WarpDone(f, half, w, x, y[..], rows, cols, order[k]);
    }
  }

  ghost predicate WarpDone(f: Format, half: Half, w: seq<bv8>, x: seq<real>, y: seq<real>, rows: nat, cols: nat,
      id: WarpId) {
    RowNo(id.bx, id.warp) < rows ==> Multiplied(f, half, w, x, y, rows, cols, id.b, RowNo(id.bx, id.warp))
  }

  ghost predicate DoneSoFar(f: Format, half: Half, w: seq<bv8>, x: seq<real>, y: seq<real>, rows: nat, cols: nat,
      order: seq<WarpId>, n: nat)
    requires n <= |order|
  {
    forall i :: 0 <= i < n ==> WarpDone(f, half, w, x, y, rows, cols, order[i])
  }

  lemma {:induction false} OneMoreWarp(f: Format, half: Half, w: seq<bv8>, x: seq<real>, a: seq<real>, b: seq<real>,
                                       rows: nat, cols: nat, batch: nat, order: seq<WarpId>, n: nat)
    requires IsLaunch(order, rows, batch) && n < |order| && batch * rows <= |a|
    requires DoneSoFar(f, half, w, x, a, rows, cols, order, n)
    requires var id, r := order[n], RowNo(order[n].bx, order[n].warp);
      if r >= rows then b == a
      else Place(id.b, rows, r) < |a|
           && b == a[Place(id.b, rows, r) := RowDot(f, half, At(w), RowBase(f, cols, r), cols, Floats(x),
             Place(id.b, cols, 0))]
    ensures DoneSoFar(f, half, w, x, b, rows, cols, order, n + 1) && |b| == |a|
      && b[batch * rows..] == a[batch * rows..]
  {
    hide RowDot, Place, RowBase;
    var id, r := order[n], RowNo(order[n].bx, order[n].warp);
    if r < rows { PlaceInside(id.b, batch, rows, r); }
    forall i | 0 <= i < n ensures WarpDone(f, half, w, x, b, rows, cols, order[i]) {
      var q := RowNo(order[i].bx, order[i].warp);
      assert WarpDone(f, half, w, x, a, rows, cols, order[i]);
      if r < rows { TargetsDiffer(order, rows, batch, n, i); }
    }
  }
}
