/** What the binary16 conversions promise: rounding to nearest with overflow from 65520,
    order kept, exact widening, and narrowing that undoes it. */
module HalfLaws {
  import opened Arith
  import opened Half

  /** 65520, halfway from the largest half to 2^16. */
  function Overflow(): nat { 65520 * Pow2(149) }

  lemma {:induction false} LargestHalves()
    ensures Units16(0x7BFF) == 65504 * Pow2(149) && Units16(INF16) == 65536 * Pow2(149)
  {
    hide Pow2;
    Pow2Values();
    Pow2Sum(5, 149);
    Pow2Sum(6, 149);
    assert Pow2(5) == 32 && Pow2(6) == 64 by { SmallPowers(); }
    Assoc(2047, 32, Pow2(149));
    Assoc(1024, 64, Pow2(149));
  }

  /** 1.0 is 0x3F800000 as a float32 and 0x3C00 as a half, and 2^-24 is the smallest half. */
  lemma {:induction false} OneAndTiny()
    ensures Value32(0x3F80_0000) == Pow2(149) && Value16(0x3C00) == Pow2(149) && From(0x3F80_0000) == 0x3C00
    ensures Value16(0xBC00) == 0 - Pow2(149) && Value16(1) == Pow2(125)
  {
    hide Pow2;
    Pow2Values();
    Pow2Sum(23, 126);
    Pow2Sum(10, 139);
  }

  lemma {:induction false} SmallPowers()
    ensures Pow2(5) == 32 && Pow2(6) == 64
  {}

  lemma {:induction false} HalvesNotBelow(j: nat, k: nat)
    requires j <= k
    ensures Units16(j) <= Units16(k)
  {
    if j < k { HalvesOrdered(j, k); }
  }

  /** From gives infinity exactly from 65520 in magnitude. */
  lemma {:induction false} OverflowsExactly(a: nat)
    requires a <= INF32
    ensures FromBits(a) == INF16 <==> Units32(a) >= Overflow()
    ensures FromBits(a) <= INF16
  {
    BitsFit(a);
    LargestHalves();
    hide *;
    if a < 143 * 0x80_0000 {
      MagNearest(a);
      NearestOverflows(Units32(a), FromBits(a));
    } else {
      HugeIsInfinite(a);
    }
  }

  lemma {:induction false} BitsFit(a: nat)
    requires a <= INF32
    ensures FromBits(a) <= INF16
  {
    hide FromMag;
    FromMagFits(a / 0x80_0000 - 127, a % 0x80_0000);
  }

  lemma {:induction false} NearestOverflows(u: nat, k: nat)
    requires Nearest(u, k) && k <= INF16
    requires Units16(0x7BFF) == 65504 * Pow2(149) && Units16(INF16) == 65536 * Pow2(149)
    ensures k == INF16 <==> u >= Overflow()
  {
    hide Pow2, Units16;
    if k == INF16 {
      assert Beats(k, 0x7BFF, u);
    } else {
      assert Beats(k, INF16, u);
      if k < 0x7BFF { HalvesOrdered(k, 0x7BFF); }
    }
  }

  lemma {:induction false} HugeIsInfinite(a: nat)
    requires 143 * 0x80_0000 <= a <= INF32
    ensures FromBits(a) == INF16 && Units32(a) >= Overflow()
  {
    var e, f := a / 0x80_0000, a % 0x80_0000;
    assert e >= 143 && (e >= 255 ==> f == 0);
    HugeUnits(e, f);
    hide Pow2, Shifted, Overflow;
  }

  lemma {:induction false} HugeUnits(e: nat, f: nat)
    requires e >= 143
    ensures (0x80_0000 + f) * Pow2(e - 1 + 0) >= Overflow()
  {
    hide Pow2;
    Pow2Values();
    Pow2Grows(142, e - 1);
    Pow2Sum(16, 126);
    Pow2Sum(23, 126);
    Products(0x80_0000 + f, Pow2(e - 1), Pow2(142), Pow2(126), Pow2(149));
  }

  lemma {:induction false} Products(f: nat, p: nat, q: nat, c: nat, r: nat)
    requires f >= 0x80_0000 && p >= q && q == 0x1_0000 * c && r == 0x80_0000 * c
    ensures f * p >= 65520 * r
  {
    MulSplit(0x80_0000, f - 0x80_0000, p);
    assert (f - 0x80_0000) * p >= 0;
  }

  /** A float32 of no larger magnitude gives a half of no larger magnitude. */
  lemma {:induction false} MagMonotone(a: nat, b: nat)
    requires a <= b <= INF32
    ensures FromBits(a) <= FromBits(b)
  {
    hide *;
    BitsFit(a);
    if b < 143 * 0x80_0000 {
      MagNearest(a);
      MagNearest(b);
      FloatsNotBelow(a, b);
      NearestMonotone(Units32(a), Units32(b), FromBits(a), FromBits(b));
    } else {
      HugeIsInfinite(b);
    }
  }

  lemma {:induction false} FloatsNotBelow(a: nat, b: nat)
    requires a <= b
    ensures Units32(a) <= Units32(b)
  {
    if a < b { FloatsOrdered(a, b); }
  }

  lemma {:induction false} NearestMonotone(u: nat, v: nat, j: nat, k: nat)
    requires Nearest(u, j) && Nearest(v, k)
    ensures u <= v ==> j <= k
  {
    hide Units16;
    if k < j {
      HalvesOrdered(k, j);
      assert Beats(j, k, u) && Beats(k, j, v);
      if k + 1 < j {
        HalvesOrdered(k, k + 1);
        HalvesOrdered(k + 1, j);
        assert Beats(k, k + 1, v);
      }
    }
  }

  /** The nearest half is unique. */
  lemma {:induction false} NearestUnique(u: nat, j: nat, k: nat)
    requires Nearest(u, j) && Nearest(u, k)
    ensures j == k
  {
    hide *;
    NearestMonotone(u, u, j, k);
    NearestMonotone(u, u, k, j);
  }

  lemma {:induction false} FromOf(b: Bits32)
    requires !Nan32(b)
    ensures Mag16(From(b)) == FromBits(Mag32(b)) && !Nan16(From(b))
  {
    hide FromMag;
    assert b % 0x8000_0000 / 0x80_0000 == b / 0x80_0000 % 256;
    BitsFit(Mag32(b));
  }

  /** From returns a NaN exactly for a NaN. */
  lemma {:induction false} NanKept(b: Bits32)
    ensures Nan16(From(b)) <==> Nan32(b)
  {
    if Nan32(b) {
      assert b / 0x80_0000 % 256 == 255 && b % 0x80_0000 != 0;
    } else {
      FromOf(b);
    }
    hide Shifted, Pow2;
  }

  /** From rounds every float32 but NaN: infinity exactly from 65520 in magnitude, otherwise
      the nearest half, ties to even, with the sign of the operand. */
  lemma {:induction false} RoundsCorrectly(b: Bits32)
    requires !Nan32(b)
    ensures Negative16(From(b)) <==> Negative32(b)
    ensures Mag16(From(b)) == INF16 <==> Units32(Mag32(b)) >= Overflow()
    ensures Mag16(From(b)) < INF16 ==> Nearest(Units32(Mag32(b)), Mag16(From(b)))
  {
    assert Negative16(From(b)) <==> Negative32(b);
    var a := Mag32(b);
    assert a <= INF32;
    hide *;
    FromOf(b);
    OverflowsExactly(a);
    BitsFit(a);
    if a < 143 * 0x80_0000 { MagNearest(a); } else { HugeIsInfinite(a); }
  }

  /** From keeps order, infinities included. */
  lemma {:induction false} Monotone(x: Bits32, y: Bits32)
    requires !Nan32(x) && !Nan32(y) && Value32(x) <= Value32(y)
    ensures Value16(From(x)) <= Value16(From(y))
  {
    var a, b := Mag32(x), Mag32(y);
    assert a <= INF32 && b <= INF32;
    hide From, Units32, Units16, FromBits, Mag32, Mag16;
    FromOf(x);
    FromOf(y);
    UnitsMonotone(a, b);
    UnitsMonotone(b, a);
    SignedMonotone(Negative32(x), Units32(a), Units16(FromBits(a)), Negative32(y), Units32(b), Units16(FromBits(b)));
  }

  lemma {:induction false} SignedMonotone(nx: bool, ux: nat, vx: nat, ny: bool, uy: nat, vy: nat)
    requires ux <= uy ==> vx <= vy
    requires uy <= ux ==> vy <= vx
    requires (ux == 0 ==> vx == 0) && (uy == 0 ==> vy == 0)
    requires Signed(nx, ux) <= Signed(ny, uy)
    ensures Signed(nx, vx) <= Signed(ny, vy)
  {}

  lemma {:induction false} UnitsMonotone(a: nat, b: nat)
    requires a <= INF32 && b <= INF32
    ensures Units32(a) <= Units32(b) ==> Units16(FromBits(a)) <= Units16(FromBits(b))
    ensures Units32(a) == 0 ==> Units16(FromBits(a)) == 0
  {
    ZeroStays();
    hide *;
    OrderedBits(a, b);
    OrderedBits(a, 0);
    if a <= b {
      MagMonotone(a, b);
      HalvesNotBelow(FromBits(a), FromBits(b));
    }
  }

  lemma {:induction false} OrderedBits(a: nat, b: nat)
    ensures Units32(a) <= Units32(b) <==> a <= b
  {
    hide Units32;
    if a < b { FloatsOrdered(a, b); }
    if b < a { FloatsOrdered(b, a); }
  }

  lemma {:induction false} ZeroStays()
    ensures Units32(0) == 0 && Units16(0) == 0 && FromBits(0) == 0
  {}

  lemma {:induction false} ZeroValues()
    ensures Units32(0) == Units16(0)
  {}

  /** How far From is off below the overflow threshold: half a unit in the last place for
      results in the normal range, 2^-25 below. */
  lemma {:induction false} ErrorBound(b: Bits32)
    requires !Nan32(b) && Units32(Mag32(b)) < Overflow()
    ensures var err, u := Dist(Value16(From(b)), Value32(b)), Units32(Mag32(b));
      err <= Pow2(124) || 2048 * err <= u
  {
    RoundsCorrectly(b);
    FromOf(b);
    var u, k := Units32(Mag32(b)), Mag16(From(b));
    assert Dist(Value16(From(b)), Value32(b)) == Dist(Units16(k), u);
    hide *;
    NearestError(u, k);
  }

  lemma {:induction false} NearestError(u: nat, k: nat)
    requires Nearest(u, k)
    ensures Dist(Units16(k), u) <= Pow2(124) || 2048 * Dist(Units16(k), u) <= u
  {
    ZeroStays();
    hide *;
    if Units16(k) <= u {
      CutAtMostHalf(u, k);
      GapSmall(k);
      HalfGap(Gap(k), Units16(k), Dist(Units16(k), u), u, Pow2(124));
    } else if k > 0 {
      AddedAtMostHalf(u, k - 1);
      GapSmall(k - 1);
      HalfGap(Gap(k - 1), Units16(k - 1), Dist(Units16(k), u), u, Pow2(124));
    }
  }

  lemma {:induction false} CutAtMostHalf(u: nat, k: nat)
    requires Nearest(u, k) && Units16(k) <= u
    ensures 2 * Dist(Units16(k), u) <= Gap(k)
  {
    hide Units16, Gap;
    assert Beats(k, k + 1, u);
    hide Nearest;
    NextHalf(k);
  }

  lemma {:induction false} AddedAtMostHalf(u: nat, j: nat)
    requires Nearest(u, j + 1) && u < Units16(j + 1)
    ensures 2 * Dist(Units16(j + 1), u) <= Gap(j) && Units16(j) <= u
  {
    hide Units16, Gap;
    assert Beats(j + 1, j, u);
    hide Nearest;
    NextHalf(j);
  }

  lemma {:induction false} HalfGap(g: nat, low: nat, err: nat, u: nat, q: nat)
    requires (g == 2 * q || 1024 * g <= low) && low <= u && 2 * err <= g
    ensures err <= q || 2048 * err <= u
  {}

  /** A gap is the smallest one, 2^-24, or at most a 1024th of the half below it. */
  lemma {:induction false} GapSmall(k: nat)
    ensures Gap(k) == 2 * Pow2(124) || 1024 * Gap(k) <= Units16(k)
  {
    if k < 1024 {
      PowerNext(124);
    } else {
      var e, f := k / 1024, k % 1024;
      hide Pow2;
      MulSplit(1024, f, Pow2(e + 124));
      assert f * Pow2(e + 124) >= 0;
    }
  }

  lemma {:induction false} PowerNext(n: nat)
    ensures Pow2(n + 1) == 2 * Pow2(n)
  {}

  // ---- widening

  /** What Float32 promises: sign and value kept exactly, infinity to infinity, a NaN to the
      NaN with the same payload. */
  predicate Widened(h: Bits16, b: Bits32) {
    && (Negative32(b) <==> Negative16(h))
    && (if Nan16(h) then Mag32(b) == INF32 + Mag16(h) % 1024 * 0x2000
        else if Mag16(h) == INF16 then Mag32(b) == INF32
        else Mag32(b) < INF32 && Units32(Mag32(b)) == Units16(Mag16(h)))
  }

  /** The promise leaves one result. */
  lemma {:induction false} WidenedUnique(h: Bits16, b: Bits32, c: Bits32)
    requires Widened(h, b) && Widened(h, c)
    ensures b == c
  {
    hide Units32, Units16;
    OrderedBits(Mag32(b), Mag32(c));
    OrderedBits(Mag32(c), Mag32(b));
  }

  lemma {:induction false} WidenNormal(exp: nat, mant: nat)
    requires 0 < exp && mant < 1024
    ensures Units32((exp + 112) * 0x80_0000 + mant * 0x2000) == Units16(exp * 1024 + mant)
  {
    hide Pow2;
    DivModUnique(exp + 112, mant * 0x2000, 0x80_0000, (exp + 112) * 0x80_0000 + mant * 0x2000);
    DivModUnique(exp, mant, 1024, exp * 1024 + mant);
    Pow2Values();
    Pow2Sum(13, exp + 111);
    Assoc(1024 + mant, 0x2000, Pow2(exp + 111));
  }

  lemma {:induction false} WidenSubnormal(mant: nat, n: nat, shifted: nat)
    requires mant < 1024 && n <= 10 && shifted == mant * Pow2(n) && 1024 <= shifted < 2048
    ensures Units32((113 - n) * 0x80_0000 + shifted % 1024 * 0x2000) == Units16(mant)
  {
    var f := shifted % 1024 * 0x2000;
    assert shifted == 1024 + shifted % 1024;
    SubnormalHalf(mant);
    hide Pow2;
    DivModUnique(113 - n, f, 0x80_0000, (113 - n) * 0x80_0000 + f);
    Pow2Values();
    Pow2Sum(13, 112 - n);
    Pow2Sum(n, 125 - n);
    Assoc(shifted, 0x2000, Pow2(112 - n));
    Assoc(mant, Pow2(n), Pow2(125 - n));
  }

  lemma {:induction false} ShiftedOnce(mant: nat, n: nat)
    requires mant > 0
    ensures mant * Pow2(n) * 2 == mant * Pow2(n + 1)
    ensures mant * Pow2(n) < 1024 ==> n < 10
    ensures mant * Pow2(0) == mant
  {
    PowerNext(n);
    Assoc(mant, Pow2(n), 2);
    MulAtLeast(mant, Pow2(n));
    if n >= 10 { Pow2Values(); Pow2Grows(10, n); }
  }

  /** The bits a, with the sign of h in front. */
  lemma {:induction false} Joined(h: Bits16, sign: nat, a: nat)
    requires sign == (if h >= 0x8000 then 0x8000_0000 else 0) && a <= INF32
    requires if Mag16(h) == INF16 then a == INF32 else a < INF32 && Units32(a) == Units16(Mag16(h))
    requires !Nan16(h)
    ensures Widened(h, sign + a)
  {
    hide Units32, Units16;
    assert Mag32(sign + a) == a;
  }

  lemma {:induction false} JoinedNan(h: Bits16, sign: nat)
    requires sign == (if h >= 0x8000 then 0x8000_0000 else 0) && Nan16(h)
    ensures Widened(h, sign + INF32 + h % 1024 * 0x2000)
  {
    hide Units32, Units16;
    var m := Mag16(h);
    assert m % 1024 == h % 1024;
    var a := INF32 + h % 1024 * 0x2000;
    assert Mag32(sign + a) == a;
  }

  lemma {:induction false} Fields(h: Bits16)
    ensures Mag16(h) == h / 1024 % 32 * 1024 + h % 1024
    ensures Nan16(h) <==> h / 1024 % 32 == 31 && h % 1024 != 0
    ensures Mag16(h) == INF16 <==> h / 1024 % 32 == 31 && h % 1024 == 0
  {}

  /** Float32: a subnormal half is normalised by shifting its fraction up. */
  method Float32(h: Bits16) returns (b: Bits32)
    ensures Widened(h, b)
  {
    Fields(h);
    hide Pow2, Scaled, Units32, Units16, Widened, Mag16, Nan16;
    var sign := if h >= 0x8000 then 0x8000_0000 else 0;
    var exp, mant := h / 1024 % 32, h % 1024;
    if exp == 0 {
      if mant == 0 {
        ZeroValues();
        Joined(h, sign, 0);
        return sign;
      }
      var e, m0 := 113, mant;
      ghost var n := 0;
      ShiftedOnce(m0, 0);
      while mant / 0x400 % 2 == 0
        invariant 0 <= n <= 10 && e == 113 - n && 0 < mant < 0x800 && mant == m0 * Pow2(n)
        decreases 0x800 - mant
      {
        ShiftedOnce(m0, n);
        mant := mant * 2;
        e := e - 1;
        n := n + 1;
      }
      WidenSubnormal(m0, n, mant);
      mant := mant % 0x400;
      Joined(h, sign, e * 0x80_0000 + mant * 0x2000);
      b := sign + e * 0x80_0000 + mant * 0x2000;
    } else if exp == 31 {
      if mant == 0 { Joined(h, sign, INF32); } else { JoinedNan(h, sign); }
      b := sign + INF32 + mant * 0x2000;
    } else {
      WidenNormal(exp, mant);
      Joined(h, sign, (exp + 112) * 0x80_0000 + mant * 0x2000);
      b := sign + (exp + 112) * 0x80_0000 + mant * 0x2000;
    }
  }

  /** Narrowing a widened half gives it back. */
  lemma {:induction false} NarrowingUndoesWidening(h: Bits16, b: Bits32)
    requires Widened(h, b)
    ensures !Nan16(h) ==> From(b) == h
    ensures Nan16(h) ==> Nan16(From(b))
  {
    WidenedNan(h, b);
    NanKept(b);
    hide From, Widened, FromBits, Nan16, Nan32;
    if !Nan16(h) {
      FromOf(b);
      WidenedBack(h, b, Mag32(b), Mag16(h));
      SameBits(From(b), h);
    }
  }

  lemma {:induction false} WidenedNan(h: Bits16, b: Bits32)
    requires Widened(h, b)
    ensures (Nan32(b) <==> Nan16(h)) && (Negative16(From(b)) <==> Negative16(h))
  {
    assert Negative16(From(b)) <==> Negative32(b);
    hide From, Units32, Units16;
    assert Nan16(h) ==> Mag16(h) % 1024 > 0;
  }

  lemma {:induction false} SameBits(g: Bits16, h: Bits16)
    requires (Negative16(g) <==> Negative16(h)) && Mag16(g) == Mag16(h)
    ensures g == h
  {}

  lemma {:induction false} WidenedBack(h: Bits16, b: Bits32, a: nat, m: nat)
    requires Widened(h, b) && !Nan16(h) && a == Mag32(b) && m == Mag16(h)
    ensures FromBits(a) == m
  {
    hide Units32, Units16, Pow2, Nearest, FromMag;
    LargestHalves();
    if m == INF16 {
      HugeIsInfinite(a);
    } else {
      HalvesNotBelow(m, 0x7BFF);
      OverflowsExactly(a);
      if a < 143 * 0x80_0000 {
        MagNearest(a);
        ExactIsNearest(m);
        NearestUnique(Units32(a), FromBits(a), m);
      } else {
        HugeIsInfinite(a);
      }
    }
  }

  lemma {:induction false} ExactIsNearest(k: nat)
    ensures Nearest(Units16(k), k)
  {
    forall j: nat | j != k ensures Beats(k, j, Units16(k)) {
      hide Units16;
      if j < k { HalvesOrdered(j, k); } else { HalvesOrdered(k, j); }
    }
  }

  // ---- slices

  /** ToFloat32; the source demands len(dst) >= len(src). */
  method ToFloat32(dst: array<Bits32>, src: array<Bits16>)
    requires dst.Length >= src.Length
    modifies dst
    ensures forall i :: 0 <= i < src.Length ==> Widened(src[i], dst[i])
    ensures src[..] == old(src[..]) && dst[src.Length..] == old(dst[src.Length..])
  {
    hide Widened;
    for i := 0 to src.Length
      invariant forall j :: 0 <= j < i ==> Widened(src[j], dst[j])
      invariant src[..] == old(src[..]) && dst[src.Length..] == old(dst[src.Length..])
    {
      var b := Float32(src[i]);
      dst[i] := b;
    }
  }

  /** FromFloat32 */
  method FromFloat32(dst: array<Bits16>, src: array<Bits32>)
    requires dst.Length >= src.Length
    modifies dst
    ensures forall i :: 0 <= i < src.Length ==> dst[i] == From(src[i])
    ensures src[..] == old(src[..]) && dst[src.Length..] == old(dst[src.Length..])
  {
    hide From;
    for i := 0 to src.Length
      invariant forall j :: 0 <= j < i ==> dst[j] == From(src[j])
      invariant src[..] == old(src[..]) && dst[src.Length..] == old(dst[src.Length..])
    {
      dst[i] := From(src[i]);
    }
  }

  /** Converting a slice of halves up and down again. */
  lemma {:induction false} SliceRoundTrip(hs: seq<Bits16>, bs: seq<Bits32>, back: seq<Bits16>)
    requires |hs| == |bs| == |back|
    requires forall i :: 0 <= i < |hs| ==> Widened(hs[i], bs[i])
    requires forall i :: 0 <= i < |hs| ==> back[i] == From(bs[i])
    requires forall i :: 0 <= i < |hs| ==> !Nan16(hs[i])
    ensures back == hs
  {
    hide Widened, From, Nan16;
    forall i | 0 <= i < |hs| ensures back[i] == hs[i] { NarrowingUndoesWidening(hs[i], bs[i]); }
  }
}
