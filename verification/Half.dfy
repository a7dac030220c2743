/** The binary16 conversions of package f16. A float32 is its 32 bits as a number, a half
    its 16 bits; shifts and masks are quotients and remainders by powers of two. Values are
    whole multiples of 2^-149, the smallest float32 (IEEE 754-2019, sections 3.4 and 4.3.1). */
module Half {
  import opened Arith

  type Bits32 = x: int | 0 <= x < 0x1_0000_0000

  type Bits16 = x: int | 0 <= x < 0x1_0000

  function Pow2(n: nat): (p: nat)
    ensures p > 0
  {
    if n == 0 then 1 else 2 * Pow2(n - 1)
  }

  lemma {:induction false} Pow2Sum(a: nat, b: nat)
    ensures Pow2(a + b) == Pow2(a) * Pow2(b)
  {
    if a > 0 {
      Pow2Sum(a - 1, b);
      assert Pow2(a + b) == 2 * Pow2(a - 1 + b);
      assert 2 * (Pow2(a - 1) * Pow2(b)) == 2 * Pow2(a - 1) * Pow2(b);
    }
  }

  lemma {:induction false} Pow2Grows(a: nat, b: nat)
    requires a <= b
    ensures Pow2(a) <= Pow2(b)
  {
    if a < b { Pow2Grows(a, b - 1); }
  }

  lemma {:induction false} Pow2Values()
    ensures Pow2(10) == 1024 && Pow2(13) == 0x2000 && Pow2(14) == 0x4000 && Pow2(16) == 0x1_0000
    ensures Pow2(23) == 0x80_0000 && Pow2(24) == 0x100_0000
  {
    assert Pow2(5) == 32 && Pow2(10) == 1024 && Pow2(15) == 32768 && Pow2(20) == 1048576;
  }

  lemma {:induction false} Assoc(a: int, b: int, p: int)
    ensures a * b * p == a * (b * p)
  {}

  lemma {:induction false} Less(a: nat, b: nat, c: nat)
    requires a < b && c > 0
    ensures a * c < b * c
  {
    MulSplit(a, b - a, c);
    MulAtLeast(b - a, c);
  }

  // ---- values

  const INF32: nat := 0x7F80_0000
  const INF16: nat := 0x7C00

  /** The value of exponent field e and fraction f where the fraction has m values and the
      subnormals count in steps of 2^s. */
  function Scaled(e: nat, f: nat, m: nat, s: nat): nat {
    if e == 0 then f * Pow2(s) else (m + f) * Pow2(e - 1 + s)
  }

  /** The magnitude of a finite float32 with magnitude bits a; the bits of infinity stand for
      the next power of two. */
  function Units32(a: nat): nat { Scaled(a / 0x80_0000, a % 0x80_0000, 0x80_0000, 0) }

  /** The same for a half with magnitude bits k. */
  function Units16(k: nat): nat { Scaled(k / 1024, k % 1024, 1024, 125) }

  function Mag32(b: Bits32): nat { b % 0x8000_0000 }

  function Mag16(h: Bits16): nat { h % 0x8000 }

  predicate Negative32(b: Bits32) { b >= 0x8000_0000 }

  predicate Negative16(h: Bits16) { h >= 0x8000 }

  predicate Nan32(b: Bits32) { Mag32(b) > INF32 }

  predicate Nan16(h: Bits16) { Mag16(h) > INF16 }

  function Signed(negative: bool, u: nat): int { if negative then 0 - u else u }

  function Value32(b: Bits32): int { Signed(Negative32(b), Units32(Mag32(b))) }

  function Value16(h: Bits16): int { Signed(Negative16(h), Units16(Mag16(h))) }

  // ---- From

  /** m is rounded up when the part cut off is more than half, or half and m is odd. */
  predicate RoundsUp(m: nat, rem: nat, halfway: nat) { rem > halfway || (rem == halfway && m % 2 == 1) }

  /** full without its low bits, which count p to one kept bit. */
  function Shifted(full: nat, p: nat, halfway: nat): nat
    requires p > 0
  {
    if RoundsUp(full / p, full % p, halfway) then full / p + 1 else full / p
  }

  /** The magnitude bits From returns; exp is the unbiased exponent. */
  function FromMag(exp: int, mant: nat): nat {
    if exp >= 128 then (if mant != 0 then 0x7E00 else INF16)
    else if exp > 15 then INF16
    else if exp >= -14 then (exp + 15) * 1024 + Shifted(mant, 0x2000, 0x1000)
    else if exp >= -25 then Shifted(mant + 0x80_0000, Pow2(-exp - 1), Pow2(-exp - 2))
    else 0
  }

  lemma {:induction false} ShiftedAtMost(full: nat, p: nat, halfway: nat, m: nat)
    requires p > 0 && full < m * p
    ensures full / p < m && Shifted(full, p, halfway) <= m
  {
    QuotientBelow(full, p, m);
  }

  /** Rounding up past the fraction carries into the exponent, at most into infinity. */
  lemma {:induction false} FromMagFits(exp: int, mant: nat)
    requires exp <= 128 && mant < 0x80_0000
    ensures FromMag(exp, mant) <= 0x7E00
    ensures exp < 128 || mant == 0 ==> FromMag(exp, mant) <= INF16
  {
    if -14 <= exp <= 15 {
      ShiftedAtMost(mant, 0x2000, 0x1000, 1024);
    } else if -25 <= exp < -14 {
      SubnormalFits(exp, mant);
    }
    hide Pow2, Shifted;
  }

  lemma {:induction false} SubnormalFits(exp: int, mant: nat)
    requires -25 <= exp < -14 && mant < 0x80_0000
    ensures (mant + 0x80_0000) / Pow2(-exp - 1) < 1024
    ensures Shifted(mant + 0x80_0000, Pow2(-exp - 1), Pow2(-exp - 2)) <= 1024
  {
    hide *;
    Pow2Values();
    Pow2Grows(14, -exp - 1);
    ShiftedAtMost(mant + 0x80_0000, Pow2(-exp - 1), Pow2(-exp - 2), 1024);
  }

  /** From */
  function From(b: Bits32): (h: Bits16)
    ensures Negative16(h) <==> Negative32(b)
    ensures Mag16(h) == FromMag(b / 0x80_0000 % 256 - 127, b % 0x80_0000)
  {
    var sign := b / 0x1_0000 / 0x8000 * 0x8000;
    var exp := b / 0x80_0000 % 256 - 127;
    var mant := b % 0x80_0000;
    FromMagFits(exp, mant);
    sign + FromMag(exp, mant)
  }

  // ---- magnitudes in order

  lemma {:induction false} NextScaled(k: nat, m: nat, s: nat)
    requires m > 0
    ensures Scaled((k + 1) / m, (k + 1) % m, m, s)
      == Scaled(k / m, k % m, m, s) + Pow2((if k < m then 1 else k / m) - 1 + s)
  {
    var e, f := k / m, k % m;
    assert k == e * m + f;
    QuotientBelow(k, m, 1);
    if f < m - 1 {
      DivModUnique(e, f + 1, m, k + 1);
      if e == 0 { MulSplit(f, 1, Pow2(s)); } else { MulSplit(m + f, 1, Pow2(e - 1 + s)); }
    } else {
      MulSplit(e, 1, m);
      DivModUnique(e + 1, 0, m, k + 1);
      if e == 0 { MulSplit(f, 1, Pow2(s)); } else { Carried(m, Pow2(e - 1 + s)); }
    }
  }

  lemma {:induction false} Carried(m: nat, p: nat)
    requires m > 0
    ensures m * (2 * p) == (m + (m - 1)) * p + p
  {
    Assoc(m, 2, p);
    MulSplit(m + (m - 1), 1, p);
  }

  /** The distance from half k to the next. */
  function Gap(k: nat): (g: nat)
    ensures g > 0
  {
    Pow2((if k < 1024 then 1 else k / 1024) + 124)
  }

  lemma {:induction false} NextHalf(k: nat)
    ensures Units16(k + 1) == Units16(k) + Gap(k)
  {
    NextScaled(k, 1024, 125);
    hide Scaled, Pow2;
  }

  lemma {:induction false} HalvesOrdered(j: nat, k: nat)
    requires j < k
    ensures Units16(j) < Units16(k)
  {
    NextHalf(k - 1);
    if j < k - 1 { HalvesOrdered(j, k - 1); }
    hide Units16, Gap;
  }

  lemma {:induction false} FloatsOrdered(a: nat, b: nat)
    requires a < b
    ensures Units32(a) < Units32(b)
  {
    NextScaled(b - 1, 0x80_0000, 0);
    if a < b - 1 { FloatsOrdered(a, b - 1); }
    hide Scaled, Pow2;
  }

  // ---- rounding to nearest

  function Dist(a: int, b: int): nat { if a < b then b - a else a - b }

  /** Half k is no farther from u than half j, and at equal distance k is even. */
  predicate Beats(k: nat, j: nat, u: nat) {
    Dist(Units16(k), u) <= Dist(Units16(j), u) && (Dist(Units16(k), u) == Dist(Units16(j), u) ==> k % 2 == 0)
  }

  /** k is the half nearest to u, ties to even; 0x7C00 and up stand for 2^16 and beyond. */
  ghost predicate Nearest(u: nat, k: nat) { forall j: nat :: j != k ==> Beats(k, j, u) }

  lemma {:induction false} NearestBelow(u: nat, k: nat, d: nat)
    requires u == Units16(k) + d && 2 * d <= Gap(k) && (2 * d == Gap(k) ==> k % 2 == 0)
    ensures Nearest(u, k)
  {
    forall j: nat | j != k ensures Beats(k, j, u) { LowerBeats(u, k, d, j); }
  }

  lemma {:induction false} LowerBeats(u: nat, k: nat, d: nat, j: nat)
    requires u == Units16(k) + d && 2 * d <= Gap(k) && (2 * d == Gap(k) ==> k % 2 == 0) && j != k
    ensures Beats(k, j, u)
  {
    hide Units16, Gap;
    NextHalf(k);
    if j < k { HalvesOrdered(j, k); } else if j > k + 1 { HalvesOrdered(k + 1, j); }
  }

  lemma {:induction false} NearestAbove(u: nat, k: nat, d: nat)
    requires u == Units16(k) + d && d < Gap(k) <= 2 * d && (2 * d == Gap(k) ==> k % 2 == 1)
    ensures Nearest(u, k + 1)
  {
    var r := k + 1;
    forall j: nat | j != r ensures Beats(r, j, u) { UpperBeats(u, k, d, j); }
  }

  lemma {:induction false} UpperBeats(u: nat, k: nat, d: nat, j: nat)
    requires u == Units16(k) + d && d < Gap(k) <= 2 * d && (2 * d == Gap(k) ==> k % 2 == 1) && j != k + 1
    ensures Beats(k + 1, j, u)
  {
    hide Units16, Gap;
    NextHalf(k);
    if j < k { HalvesOrdered(j, k); } else if j > k { HalvesOrdered(k + 1, j); }
  }

  /** u lies rem parts of size c above half k, and the gap above k has 2*w such parts. */
  lemma {:induction false} RoundedIsNearest(u: nat, k: nat, m: nat, rem: nat, w: nat, c: nat)
    requires c > 0 && rem < 2 * w && k % 2 == m % 2 && u == Units16(k) + rem * c && Gap(k) == 2 * w * c
    ensures Nearest(u, if RoundsUp(m, rem, w) then k + 1 else k)
  {
    hide Units16, Gap, Nearest;
    Between(rem, w, c);
    if RoundsUp(m, rem, w) { NearestAbove(u, k, rem * c); } else { NearestBelow(u, k, rem * c); }
  }

  lemma {:induction false} Between(rem: nat, w: nat, c: nat)
    requires c > 0 && rem < 2 * w
    ensures 0 <= rem * c < 2 * w * c
    ensures rem < w ==> 2 * (rem * c) < 2 * w * c
    ensures rem == w ==> 2 * (rem * c) == 2 * w * c
    ensures rem > w ==> 2 * (rem * c) > 2 * w * c
  {
    Less(rem, 2 * w, c);
    Assoc(2, rem, c);
    if rem < w { Less(2 * rem, 2 * w, c); }
    if rem > w { Less(2 * w, 2 * rem, c); }
  }

  lemma {:induction false} NormalNearest(exp: int, mant: nat)
    requires -14 <= exp <= 15 && mant < 0x80_0000
    ensures Nearest((0x80_0000 + mant) * Pow2(exp + 126), FromMag(exp, mant))
  {
    var m, k0 := mant / 0x2000, (exp + 15) * 1024;
    assert FromMag(exp, mant) == k0 + Shifted(mant, 0x2000, 0x1000);
    NormalHalf(exp, m);
    hide *;
    Pow2Values();
    Pow2Sum(13, exp + 126);
    NormalRounded(mant, k0, Pow2(exp + 126), Pow2(exp + 139));
  }

  lemma {:induction false} NormalRounded(mant: nat, k0: nat, c: nat, p: nat)
    requires mant < 0x80_0000 && c > 0 && p == 0x2000 * c && k0 % 2 == 0
    requires Units16(k0 + mant / 0x2000) == (1024 + mant / 0x2000) * p && Gap(k0 + mant / 0x2000) == p
    ensures Nearest((0x80_0000 + mant) * c, k0 + Shifted(mant, 0x2000, 0x1000))
  {
    var m, rem := mant / 0x2000, mant % 0x2000;
    hide Nearest, RoundsUp, Units16, Gap;
    EvenPlus(k0, m);
    NormalParts(mant, m, rem, c, p);
    RoundedIsNearest((0x80_0000 + mant) * c, k0 + m, m, rem, 0x1000, c);
  }

  lemma {:induction false} NormalHalf(exp: int, m: nat)
    requires exp >= -14 && m < 1024
    ensures var k := (exp + 15) * 1024 + m;
      && Units16(k) == (1024 + m) * Pow2(exp + 139) && Gap(k) == Pow2(exp + 139) && (exp + 15) * 1024 % 2 == 0
  {
    hide Pow2;
    DivModUnique(exp + 15, m, 1024, (exp + 15) * 1024 + m);
  }

  lemma {:induction false} EvenPlus(k: nat, m: nat)
    requires k % 2 == 0
    ensures (k + m) % 2 == m % 2
  {}

  lemma {:induction false} NormalParts(mant: nat, m: nat, rem: nat, c: nat, p: nat)
    requires mant == m * 0x2000 + rem && p == 0x2000 * c
    ensures (0x80_0000 + mant) * c == (1024 + m) * p + rem * c && p == 2 * 0x1000 * c
  {
    MulSplit((1024 + m) * 0x2000, rem, c);
    Assoc(1024 + m, 0x2000, c);
  }

  lemma {:induction false} SubnormalNearest(exp: int, mant: nat)
    requires -25 <= exp < -14 && mant < 0x80_0000
    ensures Nearest((0x80_0000 + mant) * Pow2(exp + 126), FromMag(exp, mant))
  {
    var full, p, w, c := 0x80_0000 + mant, Pow2(-exp - 1), Pow2(-exp - 2), Pow2(exp + 126);
    var m := full / p;
    assert p == 2 * w;
    assert FromMag(exp, mant) == Shifted(full, p, w);
    hide *;
    SubnormalFits(exp, mant);
    SubnormalHalf(m);
    Pow2Sum(-exp - 1, exp + 126);
    SubnormalRounded(full, p, w, c, m, Pow2(125), full * c);
  }

  lemma {:induction false} SubnormalHalf(m: nat)
    requires m < 1024
    ensures Units16(m) == m * Pow2(125) && Gap(m) == Pow2(125)
  {
    hide Pow2;
    DivModUnique(0, m, 1024, m);
  }

  lemma {:induction false} SubnormalRounded(full: nat, p: nat, w: nat, c: nat, m: nat, g: nat, u: nat)
    requires p > 0 && c > 0 && p == 2 * w && m == full / p && g == p * c && u == full * c
    requires Units16(m) == m * g && Gap(m) == g
    ensures Nearest(u, Shifted(full, p, w))
  {
    var rem := full % p;
    assert full == m * p + rem;
    hide Nearest, RoundsUp, Units16, Gap;
    MulSplit(m * p, rem, c);
    Assoc(m, p, c);
    RoundedIsNearest(u, m, m, rem, w, c);
  }

  /** Below 2^-25 everything rounds to zero. */
  lemma {:induction false} TinyNearest(e: nat, mant: nat)
    requires e <= 101 && mant < 0x80_0000
    ensures Nearest(Scaled(e, mant, 0x80_0000, 0), 0)
  {
    hide *;
    SubnormalHalf(0);
    assert Pow2(125) == 2 * Pow2(124) by { Pow2Sum(1, 124); ShowTwo(); }
    TinyUnits(e, mant);
    NearestBelow(Scaled(e, mant, 0x80_0000, 0), 0, Scaled(e, mant, 0x80_0000, 0));
  }

  lemma {:induction false} ShowTwo()
    ensures Pow2(1) == 2
  {
    assert Pow2(0) == 1;
  }

  lemma {:induction false} TinyUnits(e: nat, mant: nat)
    requires e <= 101 && mant < 0x80_0000
    ensures Scaled(e, mant, 0x80_0000, 0) < Pow2(124)
  {
    hide Pow2;
    Pow2Values();
    var n := if e == 0 then 1 else e;
    Less(if e == 0 then mant else 0x80_0000 + mant, Pow2(24), Pow2(n - 1));
    Pow2Sum(24, n - 1);
    Pow2Grows(24 + (n - 1), 124);
  }

  /** The finite float32 with magnitude bits a. */
  function FromBits(a: nat): nat { FromMag(a / 0x80_0000 - 127, a % 0x80_0000) }

  /** Up to 2^16 From rounds to nearest, ties to even. */
  lemma {:induction false} MagNearest(a: nat)
    requires a < 143 * 0x80_0000
    ensures Nearest(Units32(a), FromBits(a))
  {
    var e, mant := a / 0x80_0000, a % 0x80_0000;
    if e >= 113 {
      NormalNearest(e - 127, mant);
    } else if e >= 102 {
      SubnormalNearest(e - 127, mant);
    } else {
      TinyNearest(e, mant);
    }
    hide Pow2, Nearest, Shifted;
  }
}
