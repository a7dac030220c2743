/** The block formats in the writing direction: which bytes hold given scales and quants, and that
    decoding them yields scale times quant. Bytes are put together here from the numbers they hold,
    and signed bytes are known only by their value modulo 256. */
module QuantPacking {
  import opened Folds
  import opened Quant

  /** What a block stands for. */
  datatype Block =
    | Block40(d: real, quants: seq<bv8>)
    | Block4K(d: real, dmin: real, scales: seq<bv8>, mins: seq<bv8>, quants: seq<bv8>)
    | Block6K(d: real, signed: seq<int>, quants: seq<bv8>)

  function FormatOf(b: Block): Format { match b case Block40(_, _) => Q4_0 case Block4K(_, _, _, _, _) => Q4_K
    case Block6K(_, _, _) => Q6_K }

  // ---- putting bytes together

  function Pair(lo: bv8, hi: bv8): bv8 { lo | (hi << 4) }

  function Low(q: bv8): bv8 { q & 0xF }

  function Top(q: bv8): bv8 { q >> 4 }

  function FourTops(t0: bv8, t1: bv8, t2: bv8, t3: bv8): bv8 { t0 | (t1 << 2) | (t2 << 4) | (t3 << 6) }

  /** As many quants as elements, four bits wide or six. */
  predicate Quants(q: seq<bv8>, n: nat, limit: bv8) { |q| == n && forall e :: 0 <= e < n ==> q[e] < limit }

  /** The scale of a block, a little-endian binary16. */
  predicate HalfIs(half: Half, w: ByteMap, p: int, d: real) { half(w(p), w(p + 1)) == d }

  // ---- Q4_0: the scale, then quants 0..16 in the low nibbles and 16..32 in the high ones

  predicate Packed40(half: Half, w: ByteMap, p: int, d: real, q: seq<bv8>) {
    && Quants(q, 32, 16) && HalfIs(half, w, p, d)
    && forall j :: 0 <= j < 16 ==> w(p + 2 + j) == Pair(q[j], q[j + 16])
  }

  // ---- Q4_K: two scales, twelve bytes of 6-bit scales and mins, and for every 64 elements 32 bytes
  //      with the first half in the low nibbles

  predicate Packed4K(half: Half, w: ByteMap, p: int, d: real, dmin: real, scales: seq<bv8>, mins: seq<bv8>,
      q: seq<bv8>) {
    && Quants(q, 256, 16) && HalfIs(half, w, p, d) && HalfIs(half, w, p + 2, dmin) && Packed(w, p + 4, scales, mins)
    && forall c, l :: 0 <= c < 4 && 0 <= l < 32 ==> Pair4K(w, p, q, c, l)
  }

  predicate Pair4K(w: ByteMap, p: int, q: seq<bv8>, c: int, l: int)
    requires |q| == 256 && 0 <= c < 4 && 0 <= l < 32
  {
    w(p + 16 + 32 * c + l) == Pair(q[64 * c + l], q[64 * c + 32 + l])
  }

  // ---- Q6_K: for every 128 elements 64 bytes of low nibbles and 32 bytes with the top two bits of
  //      four quants; sixteen int8 scales; the scale of the block

  predicate Nibbles(w: ByteMap, p: int, q: seq<bv8>, c: int, l: int)
    requires |q| == 256 && 0 <= c < 2 && 0 <= l < 32
  {
    && w(p + 64 * c + l) == Pair(Low(q[128 * c + l]), Low(q[128 * c + 64 + l]))
    && w(p + 64 * c + 32 + l) == Pair(Low(q[128 * c + 32 + l]), Low(q[128 * c + 96 + l]))
  }

  predicate Tops(w: ByteMap, p: int, q: seq<bv8>, c: int, l: int)
    requires |q| == 256 && 0 <= c < 2 && 0 <= l < 32
  {
    w(p + 128 + 32 * c + l)
      == FourTops(Top(q[128 * c + l]), Top(q[128 * c + 32 + l]), Top(q[128 * c + 64 + l]), Top(q[128 * c + 96 + l]))
  }

  /** A byte holds a signed number if they are congruent modulo 256. */
  predicate Holds8(b: bv8, s: int) { -128 <= s < 128 && (s - b as int) % 256 == 0 }

  predicate Packed6K(half: Half, w: ByteMap, p: int, d: real, signed: seq<int>, q: seq<bv8>) {
    && Quants(q, 256, 64) && HalfIs(half, w, p + 208, d)
    && |signed| == 16 && (forall j :: 0 <= j < 16 ==> Holds8(w(p + 192 + j), signed[j]))
    && forall c, l :: 0 <= c < 2 && 0 <= l < 32 ==> Nibbles(w, p, q, c, l) && Tops(w, p, q, c, l)
  }

  // ---- any format

  predicate PackedBlock(half: Half, w: ByteMap, p: int, b: Block) {
    match b
    case Block40(d, q) => Packed40(half, w, p, d, q)
    case Block4K(d, dmin, scales, mins, q) => Packed4K(half, w, p, d, dmin, scales, mins, q)
    case Block6K(d, signed, q) => Packed6K(half, w, p, d, signed, q)
  }

  /** Whether the parts of a block have the sizes and ranges of its format. */
  predicate Whole(b: Block) {
    match b
    case Block40(_, q) => Quants(q, 32, 16)
    case Block4K(_, _, scales, mins, q) => |scales| == 8 && |mins| == 8 && Quants(q, 256, 16)
    case Block6K(_, signed, q) => |signed| == 16 && Quants(q, 256, 64)
  }

  /** The weights a block stands for. */
  function WeightAt(b: Block, e: nat): real
    requires Whole(b) && e < BlockSize(FormatOf(b))
  {
    match b
    case Block40(d, q) => Weight40(d, q[e] as int)
    case Block4K(d, dmin, scales, mins, q) => Weight4K(d, dmin, scales[e / 32] as int, mins[e / 32] as int, q[e] as int)
    case Block6K(d, signed, q) => Weight6K(d, signed[e / 16], q[e] as int)
  }

  function Weight40(d: real, q: int): real { d * (q - 8) as real }

  function Weight4K(d: real, dmin: real, scale: int, m: int, q: int): real {
    d * scale as real * q as real - dmin * m as real
  }

  function Weight6K(d: real, scale: int, q: int): real { d * scale as real * (q - 32) as real }

  lemma {:induction false} TwoNibbles(b: bv8, lo: bv8, hi: bv8)
    requires lo < 16 && hi < 16
    ensures b == Pair(lo, hi) <==> Lo(b) == lo && Hi(b) == hi
  {}

  lemma {:induction false} Decodes40(half: Half, w: ByteMap, p: int, d: real, q: seq<bv8>, e: nat)
    requires Packed40(half, w, p, d, q) && e < 32
    ensures Elem40(half, w, p, e) == Weight40(d, q[e] as int)
  {
    var j := if e < 16 then e else e - 16;
    hide Pair, Lo, Hi;
    assert w(p + 2 + j) == Pair(q[j], q[j + 16]);
    TwoNibbles(w(p + 2 + j), q[j], q[j + 16]);
  }

  lemma {:induction false} Nibbles4K(w: ByteMap, p: int, q: seq<bv8>, c: int, l: int)
    requires Quants(q, 256, 16) && 0 <= c < 4 && 0 <= l < 32
    ensures Pair4K(w, p, q, c, l)
      <==> Nibble4K(w, p, 64 * c + l) == q[64 * c + l] && Nibble4K(w, p, 64 * c + 32 + l) == q[64 * c + 32 + l]
  {
    TwoNibbles(w(p + 16 + 32 * c + l), q[64 * c + l], q[64 * c + 32 + l]);
    hide Lo, Hi;
    assert (64 * c + l) / 64 == c && (64 * c + 32 + l) / 64 == c && (64 * c + l) % 32 == l == (64 * c + 32 + l) % 32;
    assert (64 * c + l) / 32 % 2 == 0 && (64 * c + 32 + l) / 32 % 2 == 1;
  }

  lemma {:induction false} Nibble4KIs(w: ByteMap, p: int, q: seq<bv8>, e: nat)
    requires Quants(q, 256, 16) && e < 256
    requires forall c, l :: 0 <= c < 4 && 0 <= l < 32 ==> Pair4K(w, p, q, c, l)
    ensures Nibble4K(w, p, e) == q[e]
  {
    var c, l := e / 64, e % 32;
    assert 0 <= c < 4 && e == if e / 32 % 2 == 0 then 64 * c + l else 64 * c + 32 + l;
    hide Nibble4K, Pair4K;
    assert Pair4K(w, p, q, c, l);
    Nibbles4K(w, p, q, c, l);
  }

  lemma {:induction false} Packed4KReads(half: Half, w: ByteMap, p: int, d: real, dmin: real, scales: seq<bv8>,
      mins: seq<bv8>, q: seq<bv8>, e: nat)
    requires Packed4K(half, w, p, d, dmin, scales, mins, q) && e < 256
    ensures |scales| == |mins| == 8 && |q| == 256 && HalfAt(half, w, p) == d && HalfAt(half, w, p + 2) == dmin
    ensures scales[e / 32] == ScaleBits(w, p + 4, e / 32) && mins[e / 32] == MinBits(w, p + 4, e / 32)
    ensures Nibble4K(w, p, e) == q[e]
  {
    hide Nibble4K, Pair4K, ScaleBits, MinBits, PackedThree;
    Nibble4KIs(w, p, q, e);
    PackedExactly(w, p + 4, scales, mins);
    assert 0 <= e / 32 < 8;
  }

  lemma {:induction false} Decodes4K(half: Half, w: ByteMap, p: int, d: real, dmin: real, scales: seq<bv8>,
      mins: seq<bv8>, q: seq<bv8>, e: nat)
    requires Packed4K(half, w, p, d, dmin, scales, mins, q) && e < 256
    ensures |scales| == 8 && |mins| == 8 && |q| == 256
    ensures Elem4K(half, w, p, e) == Weight4K(d, dmin, scales[e / 32] as int, mins[e / 32] as int, q[e] as int)
  {
    hide *;
    Packed4KReads(half, w, p, d, dmin, scales, mins, q, e);
    Elem4KIs(half, w, p, e);
  }

  lemma {:induction false} Elem4KIs(half: Half, w: ByteMap, p: int, e: int)
    ensures Elem4K(half, w, p, e)
      == Weight4K(HalfAt(half, w, p), HalfAt(half, w, p + 2), ScaleBits(w, p + 4, e / 32) as int,
      MinBits(w, p + 4, e / 32) as int, Nibble4K(w, p, e) as int)
  {
    hide HalfAt, ScaleBits, MinBits, Nibble4K, Mul, Weight4K;
    Times4K(HalfAt(half, w, p), HalfAt(half, w, p + 2), ScaleBits(w, p + 4, e / 32) as int,
      MinBits(w, p + 4, e / 32) as int, Nibble4K(w, p, e) as int);
  }

  lemma {:induction false} Times4K(d: real, dmin: real, scale: int, m: int, q: int)
    ensures Mul(Mul(d, scale as real), q as real) - Mul(dmin, m as real) == Weight4K(d, dmin, scale, m, q)
  {}

  /** Bits s and s + 1. */
  function Two(h: bv8, s: bv8): bv8
    requires s <= 6
  {
    (h >> s) & 3
  }

  lemma {:induction false} TwoOfFour(h: bv8, t0: bv8, t1: bv8, t2: bv8, t3: bv8)
    requires t0 < 4 && t1 < 4 && t2 < 4 && t3 < 4
    ensures h == FourTops(t0, t1, t2, t3) <==> Two(h, 0) == t0 && Two(h, 2) == t1 && Two(h, 4) == t2 && Two(h, 6) == t3
  {}

  lemma {:induction false} WidenIs(nibble: bv8, h: bv8, s: bv8, q: bv8)
    requires nibble < 16 && s <= 6 && q < 64
    ensures Widen(nibble, h, s) == q <==> nibble == Low(q) && Two(h, s) == Top(q)
  {}

  lemma {:induction false} SmallParts(a: bv8, q: bv8)
    requires q < 64
    ensures Lo(a) < 16 && Hi(a) < 16 && Low(q) < 16 && Top(q) < 4
  {}

  /** Two bytes of nibbles and one of top bits hold four quants exactly when these are read from them. */
  lemma {:induction false} FourSixes(a: bv8, b: bv8, h: bv8, q0: bv8, q1: bv8, q2: bv8, q3: bv8)
    requires q0 < 64 && q1 < 64 && q2 < 64 && q3 < 64
    ensures a == Pair(Low(q0), Low(q2)) && b == Pair(Low(q1), Low(q3))
      && h == FourTops(Top(q0), Top(q1), Top(q2), Top(q3))
      <==> Widen(Lo(a), h, 0) == q0 && Widen(Lo(b), h, 2) == q1 && Widen(Hi(a), h, 4) == q2 && Widen(Hi(b), h, 6) == q3
  {
    hide *;
    SmallParts(a, q0);
    SmallParts(b, q1);
    SmallParts(a, q2);
    SmallParts(b, q3);
    WidenIs(Lo(a), h, 0, q0);
    WidenIs(Lo(b), h, 2, q1);
    WidenIs(Hi(a), h, 4, q2);
    WidenIs(Hi(b), h, 6, q3);
    TwoNibbles(a, Low(q0), Low(q2));
    TwoNibbles(b, Low(q1), Low(q3));
    TwoOfFour(h, Top(q0), Top(q1), Top(q2), Top(q3));
  }

  lemma {:induction false} Bits6KAre(w: ByteMap, p: int, q: seq<bv8>, c: int, l: int)
    requires Quants(q, 256, 64) && 0 <= c < 2 && 0 <= l < 32
    ensures Nibbles(w, p, q, c, l) && Tops(w, p, q, c, l)
      <==> forall k :: 0 <= k < 4 ==> Bits6K(w, p, c, l, k) == q[128 * c + 32 * k + l]
  {
    hide Pair, Low, Top, FourTops, Bits6K, Widen, Lo, Hi;
    FourSixes(w(p + 64 * c + l), w(p + 64 * c + 32 + l), w(p + 128 + 32 * c + l), q[128 * c + l], q[128 * c + 32 + l],
      q[128 * c + 64 + l], q[128 * c + 96 + l]);
    FourBits6K(w, p, c, l);
  }

  lemma {:induction false} FourBits6K(w: ByteMap, p: int, c: int, l: int)
    ensures var a, b, h := w(p + 64 * c + l), w(p + 64 * c + 32 + l), w(p + 128 + 32 * c + l);
      && Bits6K(w, p, c, l, 0) == Widen(Lo(a), h, 0) && Bits6K(w, p, c, l, 1) == Widen(Lo(b), h, 2)
      && Bits6K(w, p, c, l, 2) == Widen(Hi(a), h, 4) && Bits6K(w, p, c, l, 3) == Widen(Hi(b), h, 6)
  {
    assert p + c * 64 + l + 0 == p + 64 * c + l && p + c * 64 + l + 32 == p + 64 * c + 32 + l;
    hide Widen, Lo, Hi;
  }

  lemma {:induction false} SignedByte(b: bv8, s: int)
    ensures Holds8(b, s) <==> s == I8(b)
  {
    var u := b as int;
    assert 0 <= u < 256;
    if Holds8(b, s) { Congruent(s, I8(b)); }
  }

  lemma {:induction false} Congruent(a: int, b: int)
    requires -128 <= a < 128 && -128 <= b < 128 && (a - b) % 256 == 0
    ensures a == b
  {}

  lemma {:induction false} Quants6KAre(half: Half, w: ByteMap, p: int, d: real, signed: seq<int>, q: seq<bv8>, e: nat)
    requires Packed6K(half, w, p, d, signed, q) && e < 256
    ensures |signed| == 16 && |q| == 256 && HalfAt(half, w, p + 208) == d
    ensures Scale6K(w, p, e / 128, e % 128 % 32, e % 128 / 32) == signed[e / 16]
    ensures Bits6K(w, p, e / 128, e % 128 % 32, e % 128 / 32) == q[e]
  {
    var c, k, l := e / 128, e % 128 / 32, e % 128 % 32;
    assert e == 128 * c + 32 * k + l && e / 16 == c * 8 + l / 16 + 2 * k;
    hide Bits6K, Nibbles, Tops, I8, Holds8;
    Bits6KAre(w, p, q, c, l);
    assert Holds8(w(p + 192 + e / 16), signed[e / 16]);
    SignedByte(w(p + 192 + e / 16), signed[e / 16]);
  }

  lemma {:induction false} Decodes6K(half: Half, w: ByteMap, p: int, d: real, signed: seq<int>, q: seq<bv8>, e: nat)
    requires Packed6K(half, w, p, d, signed, q) && e < 256
    ensures |signed| == 16 && |q| == 256
    ensures Elem6K(half, w, p, e) == Weight6K(d, signed[e / 16], q[e] as int)
  {
    hide *;
    Quants6KAre(half, w, p, d, signed, q, e);
    Elem6KIs(half, w, p, e);
  }

  lemma {:induction false} Elem6KIs(half: Half, w: ByteMap, p: int, e: int)
    ensures var c, k, l := e / 128, e % 128 / 32, e % 128 % 32;
      Elem6K(half, w, p, e) == Weight6K(HalfAt(half, w, p + 208), Scale6K(w, p, c, l, k),
        Bits6K(w, p, c, l, k) as int)
  {
    hide HalfAt, Scale6K, Bits6K;
  }

  /** Decoding the bytes of a block yields its weights. */
  lemma {:induction false} DecodesPacked(half: Half, w: ByteMap, p: int, b: Block, e: nat)
    requires PackedBlock(half, w, p, b) && e < BlockSize(FormatOf(b))
    ensures Whole(b) && Elem(FormatOf(b), half, w, p, e) == WeightAt(b, e)
  {
    PackedWhole(half, w, p, b);
    hide Packed40, Packed4K, Packed6K, Elem40, Elem4K, Elem6K, Weight40, Weight4K, Weight6K;
    match b
    case Block40(d, q) => Decodes40(half, w, p, d, q, e);
    case Block4K(d, dmin, scales, mins, q) => Decodes4K(half, w, p, d, dmin, scales, mins, q, e);
    case Block6K(d, signed, q) => Decodes6K(half, w, p, d, signed, q, e);
  }

  lemma {:induction false} PackedWhole(half: Half, w: ByteMap, p: int, b: Block)
    requires PackedBlock(half, w, p, b)
    ensures Whole(b)
  {
    hide Pair4K, Nibbles, Tops, Holds8, PackedThree;
  }

  // ---- every block of bytes is the packing of exactly one block

  function Nibble40(w: ByteMap, p: int, e: int): bv8 {
    if e < 16 then Lo(w(p + 2 + e)) else Hi(w(p + 2 + (e - 16)))
  }

  /** What the bytes at p stand for. */
  function BlockOf(f: Format, half: Half, w: ByteMap, p: int): Block {
    match f
    case Q4_0 => Block40(HalfAt(half, w, p), seq(32, e => Nibble40(w, p, e)))
    case Q4_K => Block4K(HalfAt(half, w, p), HalfAt(half, w, p + 2), seq(8, j => ScaleBits(w, p + 4, j)),
      seq(8, j => MinBits(w, p + 4, j)), seq(256, e => Nibble4K(w, p, e)))
    case Q6_K => Block6K(HalfAt(half, w, p + 208), seq(16, j => I8(w(p + 192 + j))),
      seq(256, e => Bits6K(w, p, e / 128, e % 128 % 32, e % 128 / 32)))
  }

  /** Bytes are the packing of that block and of no other. */
  lemma {:induction false} PackedBlockExactly(half: Half, w: ByteMap, p: int, b: Block)
    ensures PackedBlock(half, w, p, b) <==> b == BlockOf(FormatOf(b), half, w, p)
  {
    hide Packed40, Packed4K, Packed6K, ScaleBits, MinBits, Nibble40, Nibble4K, Bits6K, I8;
    match b
    case Block40(d, q) => Exactly40(half, w, p, d, q);
    case Block4K(d, dmin, scales, mins, q) => Exactly4K(half, w, p, d, dmin, scales, mins, q);
    case Block6K(d, signed, q) => Exactly6K(half, w, p, d, signed, q);
  }

  lemma {:induction false} Exactly40(half: Half, w: ByteMap, p: int, d: real, q: seq<bv8>)
    ensures Packed40(half, w, p, d, q) <==> Block40(d, q) == BlockOf(Q4_0, half, w, p)
  {
    var n := seq(32, e => Nibble40(w, p, e));
    hide Pair, Lo, Hi;
    if Packed40(half, w, p, d, q) {
      forall e | 0 <= e < 32 ensures q[e] == n[e] {
        var j := if e < 16 then e else e - 16;
        assert w(p + 2 + j) == Pair(q[j], q[j + 16]);
        TwoNibbles(w(p + 2 + j), q[j], q[j + 16]);
      }
    }
    if q == n {
      forall e | 0 <= e < 32 ensures q[e] < 16 { NibbleSmall(w(p + 2 + (if e < 16 then e else e - 16))); }
      forall j | 0 <= j < 16 ensures w(p + 2 + j) == Pair(q[j], q[j + 16]) {
        assert q[j] == Lo(w(p + 2 + j)) && q[j + 16] == Hi(w(p + 2 + j));
        TwoNibbles(w(p + 2 + j), q[j], q[j + 16]);
      }
    }
  }

  lemma {:induction false} NibbleSmall(b: bv8)
    ensures Lo(b) < 16 && Hi(b) < 16
  {}

  lemma {:induction false} Exactly4K(half: Half, w: ByteMap, p: int, d: real, dmin: real, scales: seq<bv8>,
      mins: seq<bv8>, q: seq<bv8>)
    ensures Packed4K(half, w, p, d, dmin, scales, mins, q)
      <==> Block4K(d, dmin, scales, mins, q) == BlockOf(Q4_K, half, w, p)
  {
    hide Pair4K, Nibble4K, ScaleBits, MinBits, PackedThree;
    Nibbles4KExactly(w, p, q);
    if |scales| == 8 && |mins| == 8 { PackedExactly(w, p + 4, scales, mins); }
    hide Packed;
  }

  lemma {:induction false} Nibbles4KExactly(w: ByteMap, p: int, q: seq<bv8>)
    ensures Quants(q, 256, 16) && (forall c, l :: 0 <= c < 4 && 0 <= l < 32 ==> Pair4K(w, p, q, c, l))
      <==> q == seq(256, e => Nibble4K(w, p, e))
  {
    hide Pair4K, Nibble4K;
    if Quants(q, 256, 16) && forall c, l :: 0 <= c < 4 && 0 <= l < 32 ==> Pair4K(w, p, q, c, l) {
      forall e | 0 <= e < 256 ensures q[e] == Nibble4K(w, p, e) { Nibble4KIs(w, p, q, e); }
    }
    if q == seq(256, e => Nibble4K(w, p, e)) {
      forall e | 0 <= e < 256 ensures q[e] < 16 { Nibble4KSmall(w, p, e); }
      forall c, l | 0 <= c < 4 && 0 <= l < 32 ensures Pair4K(w, p, q, c, l) { Nibbles4K(w, p, q, c, l); }
    }
  }

  lemma {:induction false} Nibble4KSmall(w: ByteMap, p: int, e: int)
    ensures Nibble4K(w, p, e) < 16
  {
    NibbleSmall(w(p + 16 + e / 64 * 32 + e % 32));
    hide Lo, Hi;
  }

  lemma {:induction false} Exactly6K(half: Half, w: ByteMap, p: int, d: real, signed: seq<int>, q: seq<bv8>)
    ensures Packed6K(half, w, p, d, signed, q) <==> Block6K(d, signed, q) == BlockOf(Q6_K, half, w, p)
  {
    hide Nibbles, Tops, Holds8, I8, Bits6K;
    forall j | 0 <= j < 16 && |signed| == 16
      ensures Holds8(w(p + 192 + j), signed[j]) <==> signed[j] == I8(w(p + 192 + j))
    {
      SignedByte(w(p + 192 + j), signed[j]);
    }
    Quants6KExactly(w, p, q);
  }

  lemma {:induction false} Quants6KExactly(w: ByteMap, p: int, q: seq<bv8>)
    ensures Quants(q, 256, 64)
      && (forall c, l :: 0 <= c < 2 && 0 <= l < 32 ==> Nibbles(w, p, q, c, l) && Tops(w, p, q, c, l))
      <==> q == seq(256, e => Bits6K(w, p, e / 128, e % 128 % 32, e % 128 / 32))
  {
    hide Nibbles, Tops, Bits6K;
    if Quants(q, 256, 64)
      && forall c, l :: 0 <= c < 2 && 0 <= l < 32 ==> Nibbles(w, p, q, c, l) && Tops(w, p, q, c, l)
    {
      forall e | 0 <= e < 256 ensures q[e] == Bits6K(w, p, e / 128, e % 128 % 32, e % 128 / 32) {
        var c, k, l := e / 128, e % 128 / 32, e % 128 % 32;
        assert e == 128 * c + 32 * k + l;
        Bits6KAre(w, p, q, c, l);
      }
    }
    if q == seq(256, e => Bits6K(w, p, e / 128, e % 128 % 32, e % 128 / 32)) {
      forall e | 0 <= e < 256 ensures q[e] < 64 { Bits6KSmall(w, p, e / 128, e % 128 % 32, e % 128 / 32); }
      forall c, l | 0 <= c < 2 && 0 <= l < 32 ensures Nibbles(w, p, q, c, l) && Tops(w, p, q, c, l) {
        forall k | 0 <= k < 4 ensures Bits6K(w, p, c, l, k) == q[128 * c + 32 * k + l] { Place6K(c, k, l); }
        Bits6KAre(w, p, q, c, l);
      }
    }
  }

  lemma {:induction false} Place6K(c: int, k: int, l: int)
    requires 0 <= c < 2 && 0 <= k < 4 && 0 <= l < 32
    ensures var e := 128 * c + 32 * k + l; 0 <= e < 256 && e / 128 == c && e % 128 / 32 == k && e % 128 % 32 == l
  {}

  lemma {:induction false} Bits6KSmall(w: ByteMap, p: int, c: int, l: int, k: int)
    requires 0 <= k < 4
    ensures Bits6K(w, p, c, l, k) < 64
  {
    SixBits(w(p + c * 64 + l + (if k % 2 == 1 then 32 else 0)), w(p + 128 + c * 32 + l), k);
    hide Widen, Lo, Hi;
  }
}

/** Tables of packed blocks: what Dequantize and the products make of them. */
module PackedTables {
  import opened Arith
  import opened Quant
  import opened QuantHost
  import opened QuantPacking
  import Folds
  import Sums

  /** Blocks of one format, one after the other from byte p on. */
  ghost predicate PackedRow(f: Format, half: Half, w: ByteMap, p: int, blocks: seq<Block>) {
    forall i :: 0 <= i < |blocks| ==> FormatOf(blocks[i]) == f && PackedBlock(half, w, p + i * BlockBytes(f), blocks[i])
  }

  ghost predicate WholeBlocks(f: Format, blocks: seq<Block>) {
    forall i :: 0 <= i < |blocks| ==> FormatOf(blocks[i]) == f && Whole(blocks[i])
  }

  /** Element c of blocks laid end to end. */
  ghost function ElemOf(f: Format, blocks: seq<Block>, c: nat): real
    requires WholeBlocks(f, blocks)
  {
    var n := BlockSize(f);
    if c / n < |blocks| then WeightAt(blocks[c / n], c % n) else 0.0
  }

  lemma {:induction false} PackedRowWhole(f: Format, half: Half, w: ByteMap, p: int, blocks: seq<Block>)
    requires PackedRow(f, half, w, p, blocks)
    ensures WholeBlocks(f, blocks)
  {
    hide PackedBlock, Whole;
    forall i | 0 <= i < |blocks| ensures FormatOf(blocks[i]) == f && Whole(blocks[i]) {
      PackedWhole(half, w, p + i * BlockBytes(f), blocks[i]);
    }
  }

  lemma {:induction false} RowElemIs(f: Format, half: Half, w: ByteMap, p: int, blocks: seq<Block>, c: nat)
    requires PackedRow(f, half, w, p, blocks) && c / BlockSize(f) < |blocks|
    ensures WholeBlocks(f, blocks) && RowElem(f, half, w, p, c) == ElemOf(f, blocks, c)
  {
    PackedRowWhole(f, half, w, p, blocks);
    hide PackedBlock, Whole, WeightAt, Elem;
    var i := c / BlockSize(f);
    assert FormatOf(blocks[i]) == f;
    DecodesPacked(half, w, p + i * BlockBytes(f), blocks[i], c % BlockSize(f));
  }

  /** A row decoded from packed blocks holds their weights. */
  lemma {:induction false} DecodedRowHolds(f: Format, half: Half, w: ByteMap, p: int, blocks: seq<Block>,
      out: seq<real>, n: nat)
    requires PackedRow(f, half, w, p, blocks) && n == |blocks| * BlockSize(f) && RowDecoded(f, half, w, p, out, n)
    ensures WholeBlocks(f, blocks) && n <= |out| && forall c :: 0 <= c < n ==> out[c] == ElemOf(f, blocks, c)
  {
    PackedRowWhole(f, half, w, p, blocks);
    hide PackedRow, ElemOf, RowElem;
    forall c | 0 <= c < n ensures out[c] == ElemOf(f, blocks, c) {
      QuotientBelow(c, BlockSize(f), |blocks|);
      RowElemIs(f, half, w, p, blocks, c);
    }
  }

  ghost function Terms(f: Format, blocks: seq<Block>, x: seq<real>, xo: int): int -> real
    requires WholeBlocks(f, blocks)
  {
    c => if 0 <= c && 0 <= xo + c < |x| then ElemOf(f, blocks, c) * x[xo + c] else 0.0
  }

  /** The product with a row of packed blocks: y[b][r] is the sum of weights times x[b]. */
  lemma {:induction false} ProductOfPacked(f: Format, half: Half, w: seq<bv8>, x: seq<real>, y: seq<real>, rows: nat,
      cols: nat, b: nat, r: nat, blocks: seq<Block>)
    requires cols == |blocks| * BlockSize(f) && b * cols + cols <= |x| && 0 <= b * cols && 0 <= b * rows
    requires PackedRow(f, half, At(w), r * (|blocks| * BlockBytes(f)), blocks)
    requires Multiplied(f, half, w, x, y, rows, cols, b, r)
    ensures WholeBlocks(f, blocks) && b * rows + r < |y|
    ensures y[b * rows + r] == Sums.Sum(cols, Terms(f, blocks, x, b * cols))
  {
    var p := r * (|blocks| * BlockBytes(f));
    RowStart(f, r, cols, |blocks|);
    MultipliedMeans(f, half, w, x, y, rows, cols, b, r, p);
    hide *;
    SumOfTerms(f, half, At(w), p, blocks, x, b * cols, cols);
  }

  lemma {:induction false} MultipliedMeans(f: Format, half: Half, w: seq<bv8>, x: seq<real>, y: seq<real>, rows: nat,
      cols: nat, b: nat, r: nat, p: int)
    requires Multiplied(f, half, w, x, y, rows, cols, b, r) && p == RowBase(f, cols, r)
    ensures 0 <= b * rows + r < |y|
    ensures y[b * rows + r] == Sums.Sum(cols, Products(f, half, At(w), p, Folds.Floats(x), b * cols))
  {
    hide RowBase, Products, Sums.Sum;
  }

  lemma {:induction false} SumOfTerms(f: Format, half: Half, w: ByteMap, p: int, blocks: seq<Block>, x: seq<real>,
      xo: int, n: nat)
    requires PackedRow(f, half, w, p, blocks) && n == |blocks| * BlockSize(f) && 0 <= xo && xo + n <= |x|
    ensures WholeBlocks(f, blocks)
    ensures Sums.Sum(n, Products(f, half, w, p, Folds.Floats(x), xo)) == Sums.Sum(n, Terms(f, blocks, x, xo))
  {
    PackedRowWhole(f, half, w, p, blocks);
    hide *;
    var g, h := Products(f, half, w, p, Folds.Floats(x), xo), Terms(f, blocks, x, xo);
    forall c: nat | c < n ensures g(c) == h(c) {
      QuotientBelow(c, BlockSize(f), |blocks|);
      TermIs(f, half, w, p, blocks, x, xo, c);
    }
    Sums.SumCongruence(n, g, h);
  }

  lemma {:induction false} RowStart(f: Format, r: nat, cols: nat, n: nat)
    requires cols == n * BlockSize(f)
    ensures RowBase(f, cols, r) == r * (n * BlockBytes(f))
  {
    DivModUnique(n, 0, BlockSize(f), cols);
  }

  lemma {:induction false} TermIs(f: Format, half: Half, w: ByteMap, p: int, blocks: seq<Block>, x: seq<real>, xo: int,
      c: nat)
    requires PackedRow(f, half, w, p, blocks) && c / BlockSize(f) < |blocks| && 0 <= xo + c < |x|
    ensures WholeBlocks(f, blocks)
    ensures Products(f, half, w, p, Folds.Floats(x), xo)(c) == Terms(f, blocks, x, xo)(c)
  {
    hide PackedRow, ElemOf, RowElem, WholeBlocks;
    RowElemIs(f, half, w, p, blocks, c);
  }
}
