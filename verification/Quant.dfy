/** The block-quantized formats of package quant: which weight every element of a
    block stands for, and the loops that decode them. Bytes are bit vectors; half
    is the value of a binary16 given its two bytes. */
module Quant {
  import opened Folds

  type Half = (bv8, bv8) -> real
  type ByteMap = int -> bv8

  datatype Format = Q4_0 | Q4_K | Q6_K

  function BlockSize(f: Format): (n: nat) ensures n > 0 { if f.Q4_0? then 32 else 256 }

  function BlockBytes(f: Format): nat { match f case Q4_0 => 18 case Q4_K => 144 case Q6_K => 210 }

  function RowBytes(f: Format, n: nat): nat { n / BlockSize(f) * BlockBytes(f) }

  function U8(b: bv8): int { b as int }

  /** A byte read as int8. */
  function I8(b: bv8): int { if b < 128 then b as int else b as int - 256 }

  /** int8 arithmetic wraps. */
  function Wrap8(x: int): int { (x + 128) % 256 - 128 }

  function Lo(b: bv8): bv8 { b & 0xF }

  function Hi(b: bv8): bv8 { b >> 4 }

  function HalfAt(half: Half, w: ByteMap, p: int): real { half(w(p), w(p + 1)) }

  // ---- Q4_0: d * (q - 8)

  function Elem40(half: Half, w: ByteMap, p: int, e: int): real {
    Mul(HalfAt(half, w, p), ((if e < 16 then U8(Lo(w(p + 2 + e))) else U8(Hi(w(p + 2 + (e - 16))))) - 8) as real)
  }

  // ---- Q4_K: d * sc * q - dmin * m, with a 6-bit sc and m for each 32 elements

  function Six(a: bv8): bv8 { a & 63 }

  /** A nibble below the top two bits of another byte. */
  function Join(nibble: bv8, top: bv8): bv8 { nibble | ((top >> 6) << 4) }

  function ScaleBits(w: ByteMap, s: int, j: int): bv8 {
    if j < 4 then Six(w(s + j)) else Join(Lo(w(s + j + 4)), w(s + j - 4))
  }

  function MinBits(w: ByteMap, s: int, j: int): bv8 {
    if j < 4 then Six(w(s + j + 4)) else Join(Hi(w(s + j + 4)), w(s + j))
  }

  function Scale(half: Half, w: ByteMap, p: int, j: int): real {
    Mul(HalfAt(half, w, p), U8(ScaleBits(w, p + 4, j)) as real)
  }

  function Offset(half: Half, w: ByteMap, p: int, j: int): real {
    Mul(HalfAt(half, w, p + 2), U8(MinBits(w, p + 4, j)) as real)
  }

  function Nibble4K(w: ByteMap, p: int, e: int): bv8 {
    var b := w(p + 16 + e / 64 * 32 + e % 32);
    if e / 32 % 2 == 0 then Lo(b) else Hi(b)
  }

  function Elem4K(half: Half, w: ByteMap, p: int, e: int): real {
    Mul(Scale(half, w, p, e / 32), U8(Nibble4K(w, p, e)) as real) - Offset(half, w, p, e / 32)
  }

  // ---- Q6_K: d * sc * (q - 32), q split over a nibble of ql and two bits of qh

  function Shift(k: int): bv8 { if k == 0 then 0 else if k == 1 then 2 else if k == 2 then 4 else 6 }

  /** A nibble below the two bits of h at s. */
  function Widen(nibble: bv8, h: bv8, s: bv8): bv8
    requires s <= 6
  {
    nibble | (((h >> s) & 3) << 4)
  }

  /** Quant k (0..3, the source's q1..q4) of lane l in half c. */
  function Bits6K(w: ByteMap, p: int, c: int, l: int, k: int): bv8 {
    var b := w(p + c * 64 + l + (if k % 2 == 1 then 32 else 0));
    Widen(if k < 2 then Lo(b) else Hi(b), w(p + 128 + c * 32 + l), Shift(k))
  }

  function Scale6K(w: ByteMap, p: int, c: int, l: int, k: int): int { I8(w(p + 192 + c * 8 + l / 16 + 2 * k)) }

  function Part6K(half: Half, w: ByteMap, p: int, c: int, l: int, k: int): real {
    Mul(Mul(HalfAt(half, w, p + 208), Scale6K(w, p, c, l, k) as real), (U8(Bits6K(w, p, c, l, k)) - 32) as real)
  }

  function Elem6K(half: Half, w: ByteMap, p: int, e: int): real {
    Part6K(half, w, p, e / 128, e % 128 % 32, e % 128 / 32)
  }

  // ---- any format

  /** Element e of the block at byte p. */
  function Elem(f: Format, half: Half, w: ByteMap, p: int, e: int): real {
    match f
    case Q4_0 => Elem40(half, w, p, e)
    case Q4_K => Elem4K(half, w, p, e)
    case Q6_K => Elem6K(half, w, p, e)
  }

  /** Element c of the row at byte p. */
  function RowElem(f: Format, half: Half, w: ByteMap, p: int, c: int): real {
    Elem(f, half, w, p + c / BlockSize(f) * BlockBytes(f), c % BlockSize(f))
  }

  // ---- bit facts

  lemma {:induction false} SixBits(a: bv8, h: bv8, k: int)
    requires 0 <= k < 4
    ensures Widen(Lo(a), h, Shift(k)) < 64 && Widen(Hi(a), h, Shift(k)) < 64
  {}

  lemma {:induction false} SmallAsInt(b: bv8)
    requires b < 64
    ensures 0 <= U8(b) < 64 && I8(b) == U8(b)
  {}

  /** Subtracting 32 from a 6-bit quant stays in range, so the int8 arithmetic is exact. */
  lemma {:induction false} NoWrap(w: ByteMap, p: int, c: int, l: int, k: int)
    requires 0 <= k < 4
    ensures Wrap8(I8(Bits6K(w, p, c, l, k)) - 32) == U8(Bits6K(w, p, c, l, k)) - 32
  {
    var b := w(p + c * 64 + l + (if k % 2 == 1 then 32 else 0));
    SixBits(b, w(p + 128 + c * 32 + l), k);
    SmallAsInt(Bits6K(w, p, c, l, k));
  }

  /** How ggml lays eight 6-bit scales and mins into twelve bytes: six bits of each of the first
      four, whose spare two bits take the top of the last four, and then the nibbles of those. */
  predicate Packed(w: ByteMap, s: int, scales: seq<bv8>, mins: seq<bv8>) {
    && |scales| == |mins| == 8 && (forall j :: 0 <= j < 8 ==> scales[j] < 64 && mins[j] < 64)
    && forall i :: 0 <= i < 4 ==>
      PackedThree(w(s + i), w(s + i + 4), w(s + i + 8), scales[i], mins[i], scales[i + 4], mins[i + 4])
  }

  predicate PackedThree(a: bv8, b: bv8, c: bv8, sc0: bv8, m0: bv8, sc4: bv8, m4: bv8) {
    a == sc0 | ((sc4 >> 4) << 6) && b == m0 | ((m4 >> 4) << 6) && c == (sc4 & 0xF) | ((m4 & 0xF) << 4)
  }

  /** Unpacking undoes packing, and packing undoes unpacking: the bytes hold given scales and
      mins exactly when these are the ones read from them. */
  lemma {:induction false} PackedExactly(w: ByteMap, s: int, scales: seq<bv8>, mins: seq<bv8>)
    requires |scales| == |mins| == 8
    ensures Packed(w, s, scales, mins) <==> forall j :: 0 <= j < 8 ==>
      scales[j] == ScaleBits(w, s, j) && mins[j] == MinBits(w, s, j)
  {
    if Packed(w, s, scales, mins) { PackedReads(w, s, scales, mins); }
    if AllReadBack(w, s, scales, mins) { ReadsPacked(w, s, scales, mins); }
  }

  /** Packing and then reading, four bytes at a time. */
  lemma {:induction false} PackedReads(w: ByteMap, s: int, scales: seq<bv8>, mins: seq<bv8>)
    requires Packed(w, s, scales, mins)
    ensures AllReadBack(w, s, scales, mins)
  {
    hide ReadBack;
    forall j | 0 <= j < 8 ensures ReadBack(w, s, scales, mins, j) {
      var i := if j < 4 then j else j - 4;
      FourOf(w, s, scales, mins, i);
      FourExactly(w, s, scales, mins, i);
    }
    AllOf(w, s, scales, mins);
  }

  lemma {:induction false} FourOf(w: ByteMap, s: int, scales: seq<bv8>, mins: seq<bv8>, i: int)
    requires Packed(w, s, scales, mins) && 0 <= i < 4
    ensures PackedFour(w, s, scales, mins, i)
  {
    hide PackedThree;
  }

  lemma {:induction false} AllOf(w: ByteMap, s: int, scales: seq<bv8>, mins: seq<bv8>)
    requires |scales| == |mins| == 8 && forall j :: 0 <= j < 8 ==> ReadBack(w, s, scales, mins, j)
    ensures AllReadBack(w, s, scales, mins)
  {
    hide ScaleBits, MinBits;
    forall j | 0 <= j < 8 ensures scales[j] == ScaleBits(w, s, j) && mins[j] == MinBits(w, s, j) {
      assert ReadBack(w, s, scales, mins, j);
    }
  }

  /** Reading and then packing. */
  lemma {:induction false} ReadsPacked(w: ByteMap, s: int, scales: seq<bv8>, mins: seq<bv8>)
    requires |scales| == |mins| == 8 && AllReadBack(w, s, scales, mins)
    ensures Packed(w, s, scales, mins)
  {
    hide PackedThree, ScaleBits, MinBits;
    forall i | 0 <= i < 4 ensures PackedFour(w, s, scales, mins, i) {
      OneOf(w, s, scales, mins, i);
      OneOf(w, s, scales, mins, i + 4);
      FourExactly(w, s, scales, mins, i);
    }
    PackedOf(w, s, scales, mins);
  }

  lemma {:induction false} OneOf(w: ByteMap, s: int, scales: seq<bv8>, mins: seq<bv8>, j: int)
    requires |scales| == |mins| == 8 && AllReadBack(w, s, scales, mins) && 0 <= j < 8
    ensures ReadBack(w, s, scales, mins, j)
  {
    hide ScaleBits, MinBits;
  }

  lemma {:induction false} PackedOf(w: ByteMap, s: int, scales: seq<bv8>, mins: seq<bv8>)
    requires |scales| == |mins| == 8 && forall i :: 0 <= i < 4 ==> PackedFour(w, s, scales, mins, i)
    ensures Packed(w, s, scales, mins)
  {
    hide PackedThree;
    forall j | 0 <= j < 8 ensures scales[j] < 64 && mins[j] < 64 {
      assert PackedFour(w, s, scales, mins, if j < 4 then j else j - 4);
    }
    forall i | 0 <= i < 4
      ensures PackedThree(w(s + i), w(s + i + 4), w(s + i + 8), scales[i], mins[i], scales[i + 4], mins[i + 4])
    {
      assert PackedFour(w, s, scales, mins, i);
    }
  }

  /** The scales and mins are those read from the bytes. */
  predicate AllReadBack(w: ByteMap, s: int, scales: seq<bv8>, mins: seq<bv8>)
    requires |scales| == |mins| == 8
  {
    forall j :: 0 <= j < 8 ==> scales[j] == ScaleBits(w, s, j) && mins[j] == MinBits(w, s, j)
  }

  predicate ReadBack(w: ByteMap, s: int, scales: seq<bv8>, mins: seq<bv8>, j: int)
    requires |scales| == |mins| == 8 && 0 <= j < 8
  {
    scales[j] == ScaleBits(w, s, j) && mins[j] == MinBits(w, s, j)
  }

  predicate PackedFour(w: ByteMap, s: int, scales: seq<bv8>, mins: seq<bv8>, i: int)
    requires |scales| == |mins| == 8 && 0 <= i < 4
  {
    && scales[i] < 64 && mins[i] < 64 && scales[i + 4] < 64 && mins[i + 4] < 64
    && PackedThree(w(s + i), w(s + i + 4), w(s + i + 8), scales[i], mins[i], scales[i + 4], mins[i + 4])
  }

  lemma {:induction false} FourExactly(w: ByteMap, s: int, scales: seq<bv8>, mins: seq<bv8>, i: int)
    requires |scales| == |mins| == 8 && 0 <= i < 4
    ensures PackedFour(w, s, scales, mins, i) <==>
      ReadBack(w, s, scales, mins, i) && ReadBack(w, s, scales, mins, i + 4)
  {
    assert s + (i + 4) + 4 == s + i + 8 && s + (i + 4) - 4 == s + i && s + (i + 4) == s + i + 4;
    hide PackedThree, Six, Join, Lo, Hi;
    ThreeExactly(w(s + i), w(s + i + 4), w(s + i + 8), scales[i], mins[i], scales[i + 4], mins[i + 4]);
  }

  lemma {:induction false} ThreeExactly(a: bv8, b: bv8, c: bv8, sc0: bv8, m0: bv8, sc4: bv8, m4: bv8)
    ensures sc0 < 64 && m0 < 64 && sc4 < 64 && m4 < 64 && PackedThree(a, b, c, sc0, m0, sc4, m4)
      <==> sc0 == Six(a) && m0 == Six(b) && sc4 == Join(Lo(c), a) && m4 == Join(Hi(c), b)
  {
    if sc0 < 64 && m0 < 64 && sc4 < 64 && m4 < 64 && PackedThree(a, b, c, sc0, m0, sc4, m4) {
      UnpackedBits(a, b, c, sc0, m0, sc4, m4);
    }
    if sc0 == Six(a) && m0 == Six(b) && sc4 == Join(Lo(c), a) && m4 == Join(Hi(c), b) { PackedBits(a, b, c); }
    hide PackedThree, Six, Join, Lo, Hi;
  }

  lemma {:induction false} UnpackedBits(a: bv8, b: bv8, c: bv8, sc0: bv8, m0: bv8, sc4: bv8, m4: bv8)
    requires sc0 < 64 && m0 < 64 && sc4 < 64 && m4 < 64 && PackedThree(a, b, c, sc0, m0, sc4, m4)
    ensures sc0 == Six(a) && m0 == Six(b) && sc4 == Join(Lo(c), a) && m4 == Join(Hi(c), b)
  {}

  lemma {:induction false} PackedBits(a: bv8, b: bv8, c: bv8)
    ensures Six(a) < 64 && Six(b) < 64 && Join(Lo(c), a) < 64 && Join(Hi(c), b) < 64
    ensures PackedThree(a, b, c, Six(a), Six(b), Join(Lo(c), a), Join(Hi(c), b))
  {}

  /** The twelve packed bytes hold eight scales and eight mins and nothing else. */
  lemma {:induction false} PackingLosesNothing(v: ByteMap, w: ByteMap, s: int)
    requires forall j :: 0 <= j < 8 ==> ScaleBits(v, s, j) == ScaleBits(w, s, j) && MinBits(v, s, j) == MinBits(w, s, j)
    ensures forall i :: s <= i < s + 12 ==> v(i) == w(i)
  {
    SameThree(v, w, s, 0);
    SameThree(v, w, s, 1);
    SameThree(v, w, s, 2);
    SameThree(v, w, s, 3);
  }

  lemma {:induction false} SameThree(v: ByteMap, w: ByteMap, s: int, i: int)
    requires 0 <= i < 4
    requires forall j :: 0 <= j < 8 ==> ScaleBits(v, s, j) == ScaleBits(w, s, j) && MinBits(v, s, j) == MinBits(w, s, j)
    ensures v(s + i) == w(s + i) && v(s + i + 4) == w(s + i + 4) && v(s + i + 8) == w(s + i + 8)
  {
    hide Six, Join, Lo, Hi;
    assert ScaleBits(v, s, i) == ScaleBits(w, s, i) && MinBits(v, s, i) == MinBits(w, s, i);
    assert ScaleBits(v, s, i + 4) == ScaleBits(w, s, i + 4) && MinBits(v, s, i + 4) == MinBits(w, s, i + 4);
    assert s + (i + 4) + 4 == s + i + 8 && s + (i + 4) - 4 == s + i && s + (i + 4) == s + i + 4;
    Repacked(v(s + i), v(s + i + 4), v(s + i + 8), w(s + i), w(s + i + 4), w(s + i + 8));
  }

  lemma {:induction false} Repacked(a: bv8, b: bv8, c: bv8, x: bv8, y: bv8, z: bv8)
    requires Six(a) == Six(x) && Six(b) == Six(y)
    requires Join(Lo(c), a) == Join(Lo(z), x)
    requires Join(Hi(c), b) == Join(Hi(z), y)
    ensures a == x && b == y && c == z
  {}
}
