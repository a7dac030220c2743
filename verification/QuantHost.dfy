/** The decoding loops of package quant and cpu.MatVecQ, over arrays. */
module QuantHost {
  import opened Quant
  import opened Folds
  import Sums
  import opened Arith

  datatype Result = Ok | Err(reason: string)

  function At(s: seq<bv8>): ByteMap { i => if 0 <= i < |s| then s[i] else 0 }

  /** out[o..o+n] holds elements 0..n of the block at byte p. */
  ghost predicate Decoded(f: Format, half: Half, w: ByteMap, p: int, out: seq<real>, o: int, n: int) {
    0 <= o && o + n <= |out| && forall e :: 0 <= e < n ==> out[o + e] == Elem(f, half, w, p, e)
  }

  ghost predicate Kept(a: seq<real>, b: seq<real>, o: int, n: int) {
    |a| == |b| && forall i :: 0 <= i < |a| && !(o <= i < o + n) ==> a[i] == b[i]
  }

  /** One block of Q4_0. */
  method DequantQ4_0(half: Half, data: seq<bv8>, p: nat, out: array<real>, o: nat)
    requires p + 18 <= |data| && o + 32 <= out.Length
    modifies out
    ensures Decoded(Q4_0, half, At(data), p, out[..], o, 32)
    ensures Kept(out[..], old(out[..]), o, 32)
  {
    hide Mul;
    ghost var w := At(data);
    var d := half(data[p], data[p + 1]);
    assert d == HalfAt(half, w, p);
    for j := 0 to 16
      invariant forall e :: 0 <= e < j ==> out[o + e] == Elem40(half, w, p, e)
      invariant forall e :: 16 <= e < 16 + j ==> out[o + e] == Elem40(half, w, p, e)
      invariant Kept(out[..], old(out[..]), o, 32)
    {
      var q := data[p + 2 + j];
      assert q == w(p + 2 + j);
      var lo, hi := Mul(d, (U8(q & 0xF) - 8) as real), Mul(d, (U8(q >> 4) - 8) as real);
      Place40(half, w, p, j);
      out[o + j] := lo;
      out[o + j + 16] := hi;
      assert out[o + (16 + j)] == hi;
    }
  }

  lemma {:induction false} Place40(half: Half, w: ByteMap, p: int, j: int)
    requires 0 <= j < 16
    ensures Elem40(half, w, p, j) == Mul(HalfAt(half, w, p), (U8(w(p + 2 + j) & 0xF) - 8) as real)
    ensures Elem40(half, w, p, 16 + j) == Mul(HalfAt(half, w, p), (U8(w(p + 2 + j) >> 4) - 8) as real)
  {}

  lemma {:induction false} Place4K(half: Half, w: ByteMap, p: int, chunk: int, l: int)
    requires 0 <= chunk < 4 && 0 <= l < 32
    ensures Elem4K(half, w, p, 64 * chunk + l)
         == Mul(Scale(half, w, p, 2 * chunk), U8(w(p + 16 + chunk * 32 + l) & 0xF) as real)
           - Offset(half, w, p, 2 * chunk)
    ensures Elem4K(half, w, p, 64 * chunk + 32 + l)
         == Mul(Scale(half, w, p, 2 * chunk + 1), U8(w(p + 16 + chunk * 32 + l) >> 4) as real)
           - Offset(half, w, p, 2 * chunk + 1)
  {
    hide Mul, Scale, Offset, U8;
    var e, g := 64 * chunk + l, 64 * chunk + 32 + l;
    assert e / 32 == 2 * chunk && e / 64 == chunk && e % 32 == l;
    assert g / 32 == 2 * chunk + 1 && g / 64 == chunk && g % 32 == l;
  }

  /** One block of Q4_K. */
  method DequantQ4K(half: Half, data: seq<bv8>, p: nat, out: array<real>, o: nat)
    requires p + 144 <= |data| && o + 256 <= out.Length
    modifies out
    ensures Decoded(Q4_K, half, At(data), p, out[..], o, 256)
    ensures Kept(out[..], old(out[..]), o, 256)
  {
    hide Mul, Elem4K, ScaleBits, MinBits, Packed;
    ghost var w := At(data);
    var d, dmin := half(data[p], data[p + 1]), half(data[p + 2], data[p + 3]);
    assert d == HalfAt(half, w, p) && dmin == HalfAt(half, w, p + 2);
    for chunk := 0 to 4
      invariant forall e :: 0 <= e < 64 * chunk ==> out[o + e] == Elem4K(half, w, p, e)
      invariant Kept(out[..], old(out[..]), o, 256)
    {
      var sc1, m1 := ScaleMin(data, p + 4, 2 * chunk);
      Determined(w, p + 4, 2 * chunk, sc1, m1);
      var sc2, m2 := ScaleMin(data, p + 4, 2 * chunk + 1);
      Determined(w, p + 4, 2 * chunk + 1, sc2, m2);
      var d1, min1 := Mul(d, U8(sc1) as real), Mul(dmin, U8(m1) as real);
      var d2, min2 := Mul(d, U8(sc2) as real), Mul(dmin, U8(m2) as real);
      for l := 0 to 32
        invariant forall e :: 0 <= e < 64 * chunk + l ==> out[o + e] == Elem4K(half, w, p, e)
        invariant forall e :: 64 * chunk + 32 <= e < 64 * chunk + 32 + l ==> out[o + e] == Elem4K(half, w, p, e)
        invariant Kept(out[..], old(out[..]), o, 256)
      {
        var q := data[p + 16 + chunk * 32 + l];
        assert q == w(p + 16 + chunk * 32 + l);
        Place4K(half, w, p, chunk, l);
        var y0, y1 := Mul(d1, U8(q & 0xF) as real) - min1, Mul(d2, U8(q >> 4) as real) - min2;
        out[o + (chunk * 64 + l)] := y0;
        out[o + (chunk * 64 + 32 + l)] := y1;
      }
    }
  }

  function Scales(w: ByteMap, s: int): seq<bv8> { seq(8, j => ScaleBits(w, s, j)) }

  function Mins(w: ByteMap, s: int): seq<bv8> { seq(8, j => MinBits(w, s, j)) }

  /** Any twelve bytes are packed scales and mins. */
  lemma {:induction false} AlwaysPacked(w: ByteMap, s: int)
    ensures Packed(w, s, Scales(w, s), Mins(w, s))
  {
    PackedExactly(w, s, Scales(w, s), Mins(w, s));
    hide ScaleBits, MinBits, Packed;
  }

  /** ScaleMinQ4K: scale and min j of those that were packed. */
  method ScaleMin(data: seq<bv8>, s: nat, j: nat) returns (sc: bv8, m: bv8)
    requires j < 8 && s + 12 <= |data|
    ensures sc < 64 && m < 64
    ensures forall scales, mins :: Packed(At(data), s, scales, mins) ==> sc == scales[j] && m == mins[j]
  {
    ghost var w := At(data);
    if j < 4 {
      sc, m := data[s + j] & 63, data[s + j + 4] & 63;
    } else {
      sc := (data[s + j + 4] & 0xF) | ((data[s + j - 4] >> 6) << 4);
      m := (data[s + j + 4] >> 4) | ((data[s + j] >> 6) << 4);
    }
    assert sc == ScaleBits(w, s, j) && m == MinBits(w, s, j);
    hide ScaleBits, MinBits, Packed;
    forall scales, mins | Packed(w, s, scales, mins)
      ensures sc == scales[j] && m == mins[j]
    {
      Unpacked(w, s, scales, mins, j);
    }
    AlwaysPacked(w, s);
    SixBitsEach(w, s, j);
  }

  /** There is only one such pair of numbers. */
  lemma {:induction false} Determined(w: ByteMap, s: int, j: int, sc: bv8, m: bv8)
    requires 0 <= j < 8 && forall scales, mins :: Packed(w, s, scales, mins) ==> sc == scales[j] && m == mins[j]
    ensures sc == ScaleBits(w, s, j) && m == MinBits(w, s, j)
  {
    hide ScaleBits, MinBits;
    AlwaysPacked(w, s);
  }

  lemma {:induction false} Unpacked(w: ByteMap, s: int, scales: seq<bv8>, mins: seq<bv8>, j: int)
    requires Packed(w, s, scales, mins) && 0 <= j < 8
    ensures scales[j] == ScaleBits(w, s, j) && mins[j] == MinBits(w, s, j)
  {
    PackedExactly(w, s, scales, mins);
    hide ScaleBits, MinBits;
  }

  lemma {:induction false} SixBitsEach(w: ByteMap, s: int, j: int)
    requires Packed(w, s, Scales(w, s), Mins(w, s)) && 0 <= j < 8
    ensures ScaleBits(w, s, j) < 64 && MinBits(w, s, j) < 64
  {
    assert Scales(w, s)[j] < 64 && Mins(w, s)[j] < 64;
    hide ScaleBits, MinBits;
  }

  lemma {:induction false} Place6K(c: int, l: int, k: int)
    requires 0 <= c < 2 && 0 <= l < 32 && 0 <= k < 4
    ensures var e := 128 * c + 32 * k + l; e / 128 == c && e % 128 % 32 == l && e % 128 / 32 == k
  {
    DivModUnique(c, 32 * k + l, 128, 128 * c + 32 * k + l);
    DivModUnique(k, l, 32, 32 * k + l);
  }

  /** The four quants of lane l in half c, as the source computes them. */
  lemma {:induction false} BitsAre(w: ByteMap, p: int, c: int, l: int)
    ensures var a, b, h := w(p + c * 64 + l), w(p + c * 64 + l + 32), w(p + 128 + c * 32 + l);
      && Bits6K(w, p, c, l, 0) == (a & 0xF) | (((h >> 0) & 3) << 4)
      && Bits6K(w, p, c, l, 1) == (b & 0xF) | (((h >> 2) & 3) << 4)
      && Bits6K(w, p, c, l, 2) == (a >> 4) | (((h >> 4) & 3) << 4)
      && Bits6K(w, p, c, l, 3) == (b >> 4) | (((h >> 6) & 3) << 4)
  {}

  method Quants6K(data: seq<bv8>, p: nat, c: nat, l: nat) returns (q1: int, q2: int, q3: int, q4: int)
    requires c < 2 && l < 32 && p + 210 <= |data|
    ensures var w := At(data);
      && q1 == U8(Bits6K(w, p, c, l, 0)) - 32 && q2 == U8(Bits6K(w, p, c, l, 1)) - 32
      && q3 == U8(Bits6K(w, p, c, l, 2)) - 32 && q4 == U8(Bits6K(w, p, c, l, 3)) - 32
  {
    ghost var w := At(data);
    var a, b, h := data[p + c * 64 + l], data[p + c * 64 + l + 32], data[p + 128 + c * 32 + l];
    BitsAre(w, p, c, l);
    NoWrap(w, p, c, l, 0);
    NoWrap(w, p, c, l, 1);
    NoWrap(w, p, c, l, 2);
    NoWrap(w, p, c, l, 3);
    hide Bits6K, U8, I8, Wrap8;
    q1 := Wrap8(I8((a & 0xF) | (((h >> 0) & 3) << 4)) - 32);
    q2 := Wrap8(I8((b & 0xF) | (((h >> 2) & 3) << 4)) - 32);
    q3 := Wrap8(I8((a >> 4) | (((h >> 4) & 3) << 4)) - 32);
    q4 := Wrap8(I8((b >> 4) | (((h >> 6) & 3) << 4)) - 32);
  }

  /** Lanes 0..n of half c are decoded. */
  ghost predicate Half6K(half: Half, w: ByteMap, p: int, out: seq<real>, y: int, c: int, n: int) {
    forall k, l :: 0 <= k < 4 && 0 <= l < n ==> Lane6K(half, w, p, out, y, c, l, k)
  }

  ghost predicate Lane6K(half: Half, w: ByteMap, p: int, out: seq<real>, y: int, c: int, l: int, k: int) {
    0 <= y + 32 * k + l < |out| && out[y + 32 * k + l] == Part6K(half, w, p, c, l, k)
  }

  /** One block of Q6_K. */
  method DequantQ6K(half: Half, data: seq<bv8>, p: nat, out: array<real>, o: nat)
    requires p + 210 <= |data| && o + 256 <= out.Length
    modifies out
    ensures Decoded(Q6_K, half, At(data), p, out[..], o, 256)
    ensures Kept(out[..], old(out[..]), o, 256)
  {
    hide Mul, Bits6K, U8, I8, Elem6K, Decoded, Half6K;
    ghost var w := At(data);
    var d := half(data[p + 208], data[p + 209]);
    assert d == HalfAt(half, w, p + 208);
    for c := 0 to 2
      invariant forall b :: 0 <= b < c ==> Half6K(half, w, p, out[..], o + 128 * b, b, 32)
      invariant Kept(out[..], old(out[..]), o, 256)
    {
      NoLanes(half, w, p, out[..], o + 128 * c, c);
      for l := 0 to 32
        invariant forall b :: 0 <= b < c ==> Half6K(half, w, p, out[..], o + 128 * b, b, 32)
        invariant Half6K(half, w, p, out[..], o + 128 * c, c, l)
        invariant Kept(out[..], old(out[..]), o, 256)
      {
        ghost var before := out[..];
        var i := l / 16;
        var q1, q2, q3, q4 := Quants6K(data, p, c, l);
        var s := p + 192 + c * 8 + i;
        var y := o + 128 * c;
        out[y + l] := Mul(Mul(d, I8(data[s]) as real), q1 as real);
        out[y + 32 + l] := Mul(Mul(d, I8(data[s + 2]) as real), q2 as real);
        out[y + 64 + l] := Mul(Mul(d, I8(data[s + 4]) as real), q3 as real);
        out[y + 96 + l] := Mul(Mul(d, I8(data[s + 6]) as real), q4 as real);
        FourLanes(half, w, p, before, out[..], o, c, l);
      }
    }
    WholeBlock6K(half, w, p, out[..], o);
  }

  lemma {:induction false} NoLanes(half: Half, w: ByteMap, p: int, out: seq<real>, y: int, c: int)
    ensures Half6K(half, w, p, out, y, c, 0)
  {}

  lemma {:induction false} WholeBlock6K(half: Half, w: ByteMap, p: int, out: seq<real>, o: int)
    requires 0 <= o && o + 256 <= |out| && forall b :: 0 <= b < 2 ==> Half6K(half, w, p, out, o + 128 * b, b, 32)
    ensures Decoded(Q6_K, half, w, p, out, o, 256)
  {
    hide Elem6K, Half6K;
    forall e | 0 <= e < 256 ensures out[o + e] == Elem6K(half, w, p, e) {
      assert Half6K(half, w, p, out, o + 128 * (e / 128), e / 128, 32);
      Decode6K(half, w, p, out, o, e);
    }
  }

  lemma {:induction false} Decode6K(half: Half, w: ByteMap, p: int, out: seq<real>, o: int, e: int)
    requires 0 <= e < 256 && Half6K(half, w, p, out, o + 128 * (e / 128), e / 128, 32)
    ensures 0 <= o + e < |out| && out[o + e] == Elem6K(half, w, p, e)
  {
    hide Part6K;
    var c, k, l := e / 128, e % 128 / 32, e % 128 % 32;
    assert e == 128 * c + (32 * k + l) && 0 <= k < 4 && 0 <= l < 32;
    assert Lane6K(half, w, p, out, o + 128 * c, c, l, k);
  }

  /** Decoding lane l of half c leaves what was decoded before. */
  lemma {:induction false} FourLanes(half: Half, w: ByteMap, p: int, a: seq<real>, b: seq<real>, o: int, c: int, l: int)
    requires 0 <= c < 2 && 0 <= l < 32 && |a| == |b| && 0 <= o && o + 256 <= |a|
    requires forall i :: 0 <= i < c ==> Half6K(half, w, p, a, o + 128 * i, i, 32)
    requires Half6K(half, w, p, a, o + 128 * c, c, l)
    requires var y := o + 128 * c;
      && Lane6K(half, w, p, b, y, c, l, 0) && Lane6K(half, w, p, b, y, c, l, 1)
      && Lane6K(half, w, p, b, y, c, l, 2) && Lane6K(half, w, p, b, y, c, l, 3)
      && forall i :: 0 <= i < |a| && i != y + l && i != y + 32 + l && i != y + 64 + l && i != y + 96 + l ==>
        a[i] == b[i]
    ensures forall i :: 0 <= i < c ==> Half6K(half, w, p, b, o + 128 * i, i, 32)
    ensures Half6K(half, w, p, b, o + 128 * c, c, l + 1)
  {
    hide Part6K;
    forall i | 0 <= i < c ensures Half6K(half, w, p, b, o + 128 * i, i, 32) {
      var y := o + 128 * i;
      assert Half6K(half, w, p, a, o + 128 * i, i, 32);
      forall k, m | 0 <= k < 4 && 0 <= m < 32 ensures Lane6K(half, w, p, b, y, i, m, k) {
        assert Lane6K(half, w, p, a, y, i, m, k);
      }
    }
    var y := o + 128 * c;
    forall k, m | 0 <= k < 4 && 0 <= m < l + 1 ensures Lane6K(half, w, p, b, y, c, m, k) {
      if m < l { assert Lane6K(half, w, p, a, y, c, m, k); }
    }
  }

  // ---- rows

  /** The first n elements of out hold the decoded row at byte p. */
  ghost predicate RowDecoded(f: Format, half: Half, w: ByteMap, p: int, out: seq<real>, n: int) {
    n <= |out| && forall c :: 0 <= c < n ==> out[c] == RowElem(f, half, w, p, c)
  }

  lemma {:induction false} BlockFits(f: Format, n: nat, b: nat)
    requires n % BlockSize(f) == 0 && b < n / BlockSize(f)
    ensures b * BlockSize(f) + BlockSize(f) <= n && (b + 1) * BlockSize(f) == b * BlockSize(f) + BlockSize(f)
    ensures b * BlockBytes(f) + BlockBytes(f) <= RowBytes(f, n)
  {
    var q, m, k := n / BlockSize(f), BlockSize(f), BlockBytes(f);
    assert n == q * m;
    MulAtLeast(q - b, m);
    MulAtLeast(q - b, k);
    assert q * m == b * m + (q - b) * m && q * k == b * k + (q - b) * k;
  }

  /** Decoding block b after the blocks before it. */
  lemma {:induction false} BlockJoins(f: Format, half: Half, w: ByteMap, p: int, a: seq<real>, b: seq<real>, k: nat)
    requires RowDecoded(f, half, w, p, a, k * BlockSize(f)) && Kept(b, a, k * BlockSize(f), BlockSize(f))
    requires Decoded(f, half, w, p + k * BlockBytes(f), b, k * BlockSize(f), BlockSize(f))
    ensures RowDecoded(f, half, w, p, b, k * BlockSize(f) + BlockSize(f))
  {
    var m := BlockSize(f);
    forall c | 0 <= c < k * m + m ensures b[c] == RowElem(f, half, w, p, c) {
      if c >= k * m {
        DivModUnique(k, c - k * m, m, c);
        assert b[k * m + (c - k * m)] == Elem(f, half, w, p + k * BlockBytes(f), c - k * m);
      }
    }
  }

  /** Dequantize of out[:n], for the three formats the kernels read. */
  method Dequantize(f: Format, half: Half, data: seq<bv8>, out: array<real>, n: nat) returns (r: Result)
    requires n <= out.Length
    modifies out
    ensures r.Ok? <==> n % BlockSize(f) == 0 && |data| >= RowBytes(f, n)
    ensures r.Ok? ==> RowDecoded(f, half, At(data), 0, out[..], n)
    ensures if r.Ok? then out[n..] == old(out[n..]) else out[..] == old(out[..])
  {
    if n % BlockSize(f) != 0 { return Err("not a multiple of the block"); }
    if |data| < RowBytes(f, n) { return Err("too few bytes"); }
    for b := 0 to n / BlockSize(f)
      invariant RowDecoded(f, half, At(data), 0, out[..], b * BlockSize(f))
      invariant out[n..] == old(out[n..])
    {
      BlockFits(f, n, b);
      ghost var before := out[..];
      match f {
        case Q4_0 => DequantQ4_0(half, data, b * 18, out, b * 32);
        case Q4_K => DequantQ4K(half, data, b * 144, out, b * 256);
        case Q6_K => DequantQ6K(half, data, b * 210, out, b * 256);
      }
      BlockJoins(f, half, At(data), 0, before, out[..], b);
    }
    assert n / BlockSize(f) * BlockSize(f) == n;
    return Ok;
  }

  /** An element depends on the bytes of its block only. */
  lemma {:induction false} ElemShift(f: Format, half: Half, v: ByteMap, w: ByteMap, p: int, q: int, e: int)
    requires 0 <= e < BlockSize(f)
    requires forall i :: p <= i < p + BlockBytes(f) ==> v(i) == w(i - p + q)
    ensures Elem(f, half, v, p, e) == Elem(f, half, w, q, e)
  {
    hide Mul;
    match f
    case Q4_0 =>
    case Q4_K => Shift4K(half, v, w, p, q, e);
    case Q6_K => Shift6K(half, v, w, p, q, e / 128, e % 128 % 32, e % 128 / 32);
  }

  lemma {:induction false} Shift4K(half: Half, v: ByteMap, w: ByteMap, p: int, q: int, e: int)
    requires 0 <= e < 256 && forall i :: p <= i < p + 144 ==> v(i) == w(i - p + q)
    ensures Elem4K(half, v, p, e) == Elem4K(half, w, q, e)
  {
    hide Mul, U8;
    var j, b := e / 32, 16 + e / 64 * 32 + e % 32;
    assert 0 <= j < 8 && 16 <= b < 144;
    assert v(p + b) == w(q + b) && v(p) == w(q) && v(p + 1) == w(q + 1) && v(p + 2) == w(q + 2) && v(p + 3) == w(q + 3);
    assert v(p + 4 + j) == w(q + 4 + j) && v(p + 4 + j + 4) == w(q + 4 + j + 4);
    assert j >= 4 ==> v(p + 4 + j - 4) == w(q + 4 + j - 4);
    assert ScaleBits(v, p + 4, j) == ScaleBits(w, q + 4, j) && MinBits(v, p + 4, j) == MinBits(w, q + 4, j);
    assert Nibble4K(v, p, e) == Nibble4K(w, q, e);
  }

  lemma {:induction false} Shift6K(half: Half, v: ByteMap, w: ByteMap, p: int, q: int, c: int, l: int, k: int)
    requires 0 <= c < 2 && 0 <= l < 32 && 0 <= k < 4 && forall i :: p <= i < p + 210 ==> v(i) == w(i - p + q)
    ensures Part6K(half, v, p, c, l, k) == Part6K(half, w, q, c, l, k)
  {
    hide Mul, U8, I8, Widen;
    var b := c * 64 + l + (if k % 2 == 1 then 32 else 0);
    var s := 192 + c * 8 + l / 16 + 2 * k;
    assert v(p + b) == w(q + b) && v(p + 128 + c * 32 + l) == w(q + 128 + c * 32 + l);
    assert v(p + s) == w(q + s) && v(p + 208) == w(q + 208) && v(p + 209) == w(q + 209);
  }

  lemma {:induction false} RowShift(f: Format, half: Half, data: seq<bv8>, base: nat, n: nat, c: nat)
    requires base + RowBytes(f, n) <= |data| && n % BlockSize(f) == 0 && c < n
    ensures RowElem(f, half, At(data[base..base + RowBytes(f, n)]), 0, c) == RowElem(f, half, At(data), base, c)
  {
    hide Elem;
    var row, m := data[base..base + RowBytes(f, n)], BlockSize(f);
    var b := c / m;
    assert b < n / m by { assert n == n / m * m && c == b * m + c % m; DivLess(b, n / m, m); }
    BlockFits(f, n, b);
    var p := b * BlockBytes(f);
    assert 0 <= p && p + BlockBytes(f) <= |row|;
    ElemShift(f, half, At(row), At(data), p, base + p, c % m);
  }

  lemma {:induction false} DivLess(a: int, b: int, m: int)
    requires m > 0 && a * m < b * m
    ensures a < b
  {}

  /** Row r of a table of quantized rows. */
  method Row(f: Format, half: Half, data: seq<bv8>, cols: nat, r: nat, out: array<real>) returns (res: Result)
    requires cols <= out.Length && (r + 1) * RowBytes(f, cols) <= |data|
    modifies out
    ensures res.Ok? <==> cols % BlockSize(f) == 0
    ensures res.Ok? ==> RowDecoded(f, half, At(data), r * RowBytes(f, cols), out[..], cols)
  {
    hide RowDecoded, RowElem, RowBytes;
    var rb := RowBytes(f, cols);
    var base := r * rb;
    assert 0 <= base && (r + 1) * rb == base + rb;
    res := Dequantize(f, half, data[base..base + rb], out, cols);
    if res.Ok? { RowOfTable(f, half, data, base, cols, out[..]); }
  }

  lemma {:induction false} RowOfTable(f: Format, half: Half, data: seq<bv8>, base: nat, n: nat, out: seq<real>)
    requires base + RowBytes(f, n) <= |data| && n % BlockSize(f) == 0
    requires RowDecoded(f, half, At(data[base..base + RowBytes(f, n)]), 0, out, n)
    ensures RowDecoded(f, half, At(data), base, out, n)
  {
    hide RowElem;
    forall c | 0 <= c < n ensures out[c] == RowElem(f, half, At(data), base, c) { RowShift(f, half, data, base, n, c); }
  }

  // ---- y = W x

  function Products(f: Format, half: Half, w: ByteMap, p: int, x: int -> real, xo: int): int -> real {
    c => Mul(RowElem(f, half, w, p, c), x(xo + c))
  }

  /** Dequantize the row at byte p, then take its dot product with the x from xo on. */
  function RowDot(f: Format, half: Half, w: ByteMap, p: int, cols: nat, x: int -> real, xo: int): real {
    Sums.Sum(cols, Products(f, half, w, p, x, xo))
  }

  /** The first byte of row r. */
  function RowBase(f: Format, cols: nat, r: nat): nat { r * RowBytes(f, cols) }

  /** Where y[b][r] lives. */
  function Place(b: nat, rows: nat, r: nat): nat { b * rows + r }

  lemma {:induction false} PlaceInside(b: nat, batch: nat, rows: nat, r: nat)
    requires b < batch && r < rows
    ensures Place(b, rows, r) < batch * rows
  {
    InTable(b, r, batch, rows);
  }

  /** No two products share a place. */
  lemma {:induction false} PlaceUnique(b: nat, c: nat, rows: nat, r: nat, q: nat)
    requires r < rows && q < rows && Place(b, rows, r) == Place(c, rows, q)
    ensures b == c && r == q
  {
    MulUnique(b, r, c, q, rows);
  }

  /** y[b][r] is the product of row r with vector b. */
  ghost predicate Multiplied(f: Format, half: Half, w: seq<bv8>, x: seq<real>, y: seq<real>, rows: nat, cols: nat,
      b: nat, r: nat) {
    Place(b, rows, r) < |y|
    && y[Place(b, rows, r)] == RowDot(f, half, At(w), RowBase(f, cols, r), cols, Floats(x), Place(b, cols, 0))
  }

  method DotRow(f: Format, half: Half, w: seq<bv8>, row: array<real>, x: seq<real>, p: nat, xo: nat, cols: nat)
      returns (acc: real)
    requires RowDecoded(f, half, At(w), p, row[..], cols) && xo + cols <= |x|
    ensures acc == RowDot(f, half, At(w), p, cols, Floats(x), xo)
  {
    hide RowElem;
    acc := 0.0;
    for c := 0 to cols
      invariant acc == Sums.Sum(c, Products(f, half, At(w), p, Floats(x), xo))
    {
      acc := acc + Mul(row[c], x[xo + c]);
    }
  }

  /** cpu.MatVecQ: dequantize each row once and multiply it with every vector. */
  method MatVecQ(f: Format, half: Half, w: seq<bv8>, x: seq<real>, y: array<real>, rows: nat, cols: nat, batch: nat)
      returns (res: Result)
    requires rows * RowBytes(f, cols) <= |w| && batch * cols <= |x| && batch * rows <= y.Length
    modifies y
    ensures res.Ok? <==> rows == 0 || cols % BlockSize(f) == 0
    ensures res.Ok? ==> forall b, r :: 0 <= b < batch && 0 <= r < rows ==>
      Multiplied(f, half, w, x, y[..], rows, cols, b, r)
    ensures forall i :: batch * rows <= i < y.Length ==> y[i] == old(y[i])
  {
    hide RowDot, RowDecoded, Multiplied, Place, RowBytes;
    ghost var y0 := y[..];
    var row := new real[cols];
    for r := 0 to rows
      invariant RowsMultiplied(f, half, w, x, y[..], rows, cols, batch, r)
      invariant |y[..]| == |y0| && y[batch * rows..] == y0[batch * rows..]
      invariant r == 0 || cols % BlockSize(f) == 0
    {
      RowInTable(r, rows, RowBytes(f, cols));
      var e := Row(f, half, w, cols, r, row);
      if e.Err? { return e; }
      ghost var before := y[..];
      OneRow(f, half, w, x, y, row, rows, cols, batch, r);
      RowsGrow(f, half, w, x, before, y[..], rows, cols, batch, r);
    }
    return Ok;
  }

  ghost predicate RowMultiplied(f: Format, half: Half, w: seq<bv8>, x: seq<real>, y: seq<real>, rows: nat, cols: nat,
      n: nat, r: nat) {
    forall a :: 0 <= a < n ==> Multiplied(f, half, w, x, y, rows, cols, a, r)
  }

  ghost predicate RowsMultiplied(f: Format, half: Half, w: seq<bv8>, x: seq<real>, y: seq<real>, rows: nat, cols: nat,
      batch: nat, n: nat) {
    forall b, r :: 0 <= b < batch && 0 <= r < n ==> Multiplied(f, half, w, x, y, rows, cols, b, r)
  }

  /** Only the places of row r, for the first n vectors, differ. */
  ghost predicate OnlyRow(a: seq<real>, b: seq<real>, rows: nat, n: nat, r: nat) {
    |a| == |b| && forall i :: 0 <= i < |a| && (forall k :: 0 <= k < n ==> i != Place(k, rows, r)) ==> a[i] == b[i]
  }

  /** The loop over the vectors of the batch for one decoded row. */
  method OneRow(f: Format, half: Half, w: seq<bv8>, x: seq<real>, y: array<real>, row: array<real>, rows: nat,
      cols: nat, batch: nat, r: nat)
    requires RowDecoded(f, half, At(w), RowBase(f, cols, r), row[..], cols)
    requires r < rows && batch * cols <= |x| && batch * rows <= y.Length && row != y
    modifies y
    ensures RowMultiplied(f, half, w, x, y[..], rows, cols, batch, r)
    ensures OnlyRow(old(y[..]), y[..], rows, batch, r)
    ensures y[batch * rows..] == old(y[batch * rows..])
  {
    hide RowDot, RowDecoded, Multiplied, Place, RowBase, OnlyRow, RowMultiplied;
    ghost var y0 := y[..];
    OnlyNone(y0, rows, r);
    RowNone(f, half, w, x, y0, rows, cols, r);
    for b := 0 to batch
      invariant RowMultiplied(f, half, w, x, y[..], rows, cols, b, r)
      invariant OnlyRow(y0, y[..], rows, b, r) && |y[..]| == |y0|
      invariant y[batch * rows..] == y0[batch * rows..]
      invariant row[..] == old(row[..])
    {
      VectorInside(b, batch, cols);
      PlaceInside(b, batch, rows, r);
      var acc := DotRow(f, half, w, row, x, RowBase(f, cols, r), Place(b, cols, 0), cols);
      ghost var before := y[..];
      y[Place(b, rows, r)] := acc;
      RowGrows(f, half, w, x, before, y[..], rows, cols, b, r);
      OnlyGrows(y0, before, y[..], rows, b, r, acc);
    }
  }

  lemma {:induction false} VectorInside(b: nat, batch: nat, cols: nat)
    requires b < batch
    ensures Place(b, cols, 0) + cols <= batch * cols
  {
    RowInTable(b, batch, cols);
  }

  lemma {:induction false} OnlyNone(a: seq<real>, rows: nat, r: nat)
    ensures OnlyRow(a, a, rows, 0, r)
  {}

  lemma {:induction false} RowNone(f: Format, half: Half, w: seq<bv8>, x: seq<real>, y: seq<real>, rows: nat,
      cols: nat, r: nat)
    ensures RowMultiplied(f, half, w, x, y, rows, cols, 0, r)
  {}

  lemma {:induction false} OnlyGrows(y0: seq<real>, a: seq<real>, b: seq<real>, rows: nat, n: nat, r: nat, v: real)
    requires OnlyRow(y0, a, rows, n, r) && Place(n, rows, r) < |a| && b == a[Place(n, rows, r) := v]
    ensures OnlyRow(y0, b, rows, n + 1, r)
  {
    hide Place;
  }

  lemma {:induction false} RowGrows(f: Format, half: Half, w: seq<bv8>, x: seq<real>, a: seq<real>, b: seq<real>,
      rows: nat, cols: nat, n: nat, r: nat)
    requires r < rows && Place(n, rows, r) < |a| && RowMultiplied(f, half, w, x, a, rows, cols, n, r)
    requires b == a[Place(n, rows, r) := RowDot(f, half, At(w), RowBase(f, cols, r), cols, Floats(x),
      Place(n, cols, 0))]
    ensures RowMultiplied(f, half, w, x, b, rows, cols, n + 1, r)
  {
    hide RowDot, Place, RowBase;
    forall i | 0 <= i < n ensures Multiplied(f, half, w, x, b, rows, cols, i, r) {
      assert Multiplied(f, half, w, x, a, rows, cols, i, r);
      if Place(i, rows, r) == Place(n, rows, r) { PlaceUnique(i, n, rows, r, r); }
    }
  }

  lemma {:induction false} RowsGrow(f: Format, half: Half, w: seq<bv8>, x: seq<real>, a: seq<real>, b: seq<real>,
      rows: nat, cols: nat, batch: nat, n: nat)
    requires n < rows && RowsMultiplied(f, half, w, x, a, rows, cols, batch, n)
    requires OnlyRow(a, b, rows, batch, n) && RowMultiplied(f, half, w, x, b, rows, cols, batch, n)
    ensures RowsMultiplied(f, half, w, x, b, rows, cols, batch, n + 1)
  {
    hide RowDot, Place, RowBase;
    forall i, r | 0 <= i < batch && 0 <= r < n ensures Multiplied(f, half, w, x, b, rows, cols, i, r) {
      assert Multiplied(f, half, w, x, a, rows, cols, i, r);
      forall k | 0 <= k < batch ensures Place(i, rows, r) != Place(k, rows, n) {
        if Place(i, rows, r) == Place(k, rows, n) { PlaceUnique(i, k, rows, r, n); }
      }
    }
  }
}
