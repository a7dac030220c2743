/** UTF-8 as Go decodes it: section 3 of RFC 3629, with a byte that starts no valid
    sequence read as U+FFFD of width one. */
module Utf8 {
  import opened Wrappers

  const RUNE_ERROR := 0xFFFD

  /** A decoded rune and the bytes it took. */
  datatype Rune = Rune(value: int, width: nat)

  predicate Tail(b: int) { 0x80 <= b <= 0xBF }

  /** utf8.RuneStart */
  predicate RuneStart(b: int) { !Tail(b) }

  /** The length a first byte announces, 1 for a byte that starts nothing longer. */
  function Announced(b: int): (n: nat)
    ensures 1 <= n <= 4
  {
    if 0xC2 <= b <= 0xDF then 2 else if 0xE0 <= b <= 0xEF then 3 else if 0xF0 <= b <= 0xF4 then 4 else 1
  }

  /** The second bytes that may follow a first byte: no overlong forms, no surrogates,
      nothing above U+10FFFF. */
  predicate SecondOk(b0: int, b1: int) {
    (if b0 == 0xE0 then 0xA0 else if b0 == 0xF0 then 0x90 else 0x80) <= b1
      <= (if b0 == 0xED then 0x9F else if b0 == 0xF4 then 0x8F else 0xBF)
  }

  /** s starts with a whole sequence of the announced length. */
  predicate Complete(s: Bytes)
    requires |s| > 0
  {
    var n := Announced(s[0]);
    && n <= |s|
    && (n > 1 ==> SecondOk(s[0], s[1]))
    && (n > 2 ==> Tail(s[2]))
    && (n > 3 ==> Tail(s[3]))
  }

  /** A byte without its marker bits. */
  function Bits(b: int, marker: int): int { b - marker }

  /** utf8.DecodeRune */
  function DecodeRune(s: Bytes): (r: Rune)
    ensures s == [] ==> r.width == 0
    ensures |s| > 0 ==> 1 <= r.width <= 4 && r.width <= |s|
    ensures |s| > 0 ==> (r.value < 0x80 <==> s[0] < 0x80)
    ensures |s| > 0 && s[0] < 0x80 ==> r == Rune(s[0], 1)
    ensures r.value >= 0
  {
    if s == [] then Rune(RUNE_ERROR, 0)
    else
      var n := Announced(s[0]);
      if s[0] < 0x80 then Rune(s[0], 1)
      else if n == 1 || !Complete(s) then Rune(RUNE_ERROR, 1)
      else if n == 2 then Rune(Bits(s[0], 0xC0) * 64 + Bits(s[1], 0x80), 2)
      else if n == 3 then Rune(Bits(s[0], 0xE0) * 4096 + Bits(s[1], 0x80) * 64 + Bits(s[2], 0x80), 3)
      else Rune(Bits(s[0], 0xF0) * 262144 + Bits(s[1], 0x80) * 4096 + Bits(s[2], 0x80) * 64 + Bits(s[3], 0x80), 4)
  }

  /** The runes "for range" visits. */
  function Runes(s: Bytes): seq<Rune> {
    if s == [] then [] else
      var r := DecodeRune(s);
      [r] + Runes(s[r.width..])
  }

  function Width(rs: seq<Rune>): nat { if rs == [] then 0 else Width(rs[..|rs| - 1]) + rs[|rs| - 1].width }

  predicate Scalar(r: int) { 0 <= r < 0xD800 || 0xE000 <= r <= 0x10FFFF }

  /** utf8.AppendRune; a value that is no scalar is written as U+FFFD. */
  function EncodeRune(v: int): (s: Bytes)
    ensures 1 <= |s| <= 4
  {
    var r := if Scalar(v) then v else RUNE_ERROR;
    if r < 0x80 then [r]
    else if r < 0x800 then [0xC0 + r / 64, 0x80 + r % 64]
    else if r < 0x10000 then [0xE0 + r / 4096, 0x80 + r / 64 % 64, 0x80 + r % 64]
    else [0xF0 + r / 262144, 0x80 + r / 4096 % 64, 0x80 + r / 64 % 64, 0x80 + r % 64]
  }

  function EncodeAll(vs: seq<int>): Bytes { if vs == [] then [] else EncodeRune(vs[0]) + EncodeAll(vs[1..]) }

  function Values(rs: seq<Rune>): seq<int> { seq(|rs|, i requires 0 <= i < |rs| => rs[i].value) }

  // ---- decoding undoes encoding

  lemma {:induction false} Digits3(r: int)
    requires 0 <= r
    ensures r == r / 4096 * 4096 + r / 64 % 64 * 64 + r % 64
  {
    assert r / 64 / 64 == r / 4096;
  }

  lemma {:induction false} Digits4(r: int)
    requires 0 <= r
    ensures r == r / 262144 * 262144 + r / 4096 % 64 * 4096 + r / 64 % 64 * 64 + r % 64
  {
    Digits3(r);
    assert r / 4096 / 64 == r / 262144;
  }

  lemma {:induction false} DecodeEncoded(v: int, rest: Bytes)
    requires Scalar(v)
    ensures DecodeRune(EncodeRune(v) + rest) == Rune(v, |EncodeRune(v)|)
  {
    var s := EncodeRune(v) + rest;
    if v >= 0x10000 {
      Digits4(v);
      FourBytes(v, v / 262144, v / 4096 % 64, v / 64 % 64, v % 64, s);
    } else if v >= 0x800 {
      Digits3(v);
      ThreeBytes(v, v / 4096, v / 64 % 64, v % 64, s);
    } else if v >= 0x80 {
      assert s[0] == 0xC0 + v / 64 && s[1] == 0x80 + v % 64;
    }
  }

  lemma {:induction false} ThreeBytes(v: int, a: int, b: int, c: int, s: Bytes)
    requires Scalar(v) && 0x800 <= v < 0x10000 && v == a * 4096 + b * 64 + c && 0 <= a < 16 && 0 <= b < 64
      && 0 <= c < 64
    requires |s| >= 3 && s[0] == 0xE0 + a && s[1] == 0x80 + b && s[2] == 0x80 + c
    ensures DecodeRune(s) == Rune(v, 3)
  {}

  lemma {:induction false} FourBytes(v: int, a: int, b: int, c: int, d: int, s: Bytes)
    requires 0x10000 <= v <= 0x10FFFF && v == a * 262144 + b * 4096 + c * 64 + d
    requires 0 <= a < 8 && 0 <= b < 64 && 0 <= c < 64 && 0 <= d < 64
    requires |s| >= 4 && s[0] == 0xF0 + a && s[1] == 0x80 + b && s[2] == 0x80 + c && s[3] == 0x80 + d
    ensures DecodeRune(s) == Rune(v, 4)
  {}

  /** The bytes of the first and the last scalar of every length. */
  lemma {:induction false} EncodedBounds()
    ensures EncodeRune(0x7F) == [0x7F] && EncodeRune(0x80) == [0xC2, 0x80] && EncodeRune(0x7FF) == [0xDF, 0xBF]
    ensures EncodeRune(0x800) == [0xE0, 0xA0, 0x80] && EncodeRune(0xD7FF) == [0xED, 0x9F, 0xBF]
    ensures EncodeRune(0xE000) == [0xEE, 0x80, 0x80] && EncodeRune(0xFFFF) == [0xEF, 0xBF, 0xBF]
    ensures EncodeRune(0x10000) == [0xF0, 0x90, 0x80, 0x80] && EncodeRune(0x10FFFF) == [0xF4, 0x8F, 0xBF, 0xBF]
    ensures forall v :: v < 0 || 0xD800 <= v < 0xE000 || v > 0x10FFFF ==> EncodeRune(v) == [0xEF, 0xBF, 0xBD]
  {}

  /** Decoding takes the scalar whose encoding the bytes start with, and one byte as U+FFFD where there is
      none. */
  lemma {:induction false} DecodeExactly(s: Bytes)
    requires s != []
    ensures forall v :: Scalar(v) && EncodeRune(v) <= s ==> DecodeRune(s) == Rune(v, |EncodeRune(v)|)
    ensures DecodeRune(s) == Rune(RUNE_ERROR, 1)
      || (Scalar(DecodeRune(s).value) && EncodeRune(DecodeRune(s).value) == s[..DecodeRune(s).width])
  {
    forall v | Scalar(v) && EncodeRune(v) <= s ensures DecodeRune(s) == Rune(v, |EncodeRune(v)|) {
      DecodeEncoded(v, s[|EncodeRune(v)|..]);
      assert s == EncodeRune(v) + s[|EncodeRune(v)|..];
    }
    if DecodeRune(s) != Rune(RUNE_ERROR, 1) { EncodeDecoded(s); }
  }

  lemma {:induction false} EncodeDecoded(s: Bytes)
    requires s != [] && DecodeRune(s) != Rune(RUNE_ERROR, 1)
    ensures var r := DecodeRune(s); Scalar(r.value) && EncodeRune(r.value) == s[..r.width]
  {
    var r := DecodeRune(s);
    if r.width == 3 {
      Encoded3(r.value, s[0] - 0xE0, s[1] - 0x80, s[2] - 0x80);
    } else if r.width == 4 {
      Encoded4(r.value, s[0] - 0xF0, s[1] - 0x80, s[2] - 0x80, s[3] - 0x80);
    }
  }

  lemma {:induction false} Encoded3(v: int, a: int, b: int, c: int)
    requires v == a * 4096 + b * 64 + c && 0 <= a < 16 && 0 <= b < 64 && 0 <= c < 64
    ensures v / 4096 == a && v / 64 % 64 == b && v % 64 == c
  {}

  lemma {:induction false} Encoded4(v: int, a: int, b: int, c: int, d: int)
    requires v == a * 262144 + b * 4096 + c * 64 + d && 0 <= a < 8 && 0 <= b < 64 && 0 <= c < 64 && 0 <= d < 64
    ensures v / 262144 == a && v / 4096 % 64 == b && v / 64 % 64 == c && v % 64 == d
  {
    var w := a * 4096 + b * 64 + c;
    assert v == w * 64 + d;
    Encoded3(w, a, b, c);
    assert v / 64 == w && v / 4096 == w / 64 && v / 262144 == w / 4096;
  }

  /** A string written rune by rune is read back rune by rune. */
  lemma {:induction false} RunesOfEncoded(vs: seq<int>)
    requires forall i :: 0 <= i < |vs| ==> Scalar(vs[i])
    ensures Values(Runes(EncodeAll(vs))) == vs
  {
    if vs != [] {
      var rest := EncodeAll(vs[1..]);
      DecodeEncoded(vs[0], rest);
      RunesOfEncoded(vs[1..]);
      assert (EncodeRune(vs[0]) + rest)[|EncodeRune(vs[0])|..] == rest;
    }
  }

  // ---- positions in bytes and in runes

  lemma {:induction false} WidthConcat(a: seq<Rune>, b: seq<Rune>)
    ensures Width(a + b) == Width(a) + Width(b)
  {
    if b == [] {
      assert a + b == a;
    } else {
      WidthConcat(a, b[..|b| - 1]);
      assert (a + b)[..|a + b| - 1] == a + b[..|b| - 1];
    }
  }

  lemma {:induction false} WidthOne(r: Rune)
    ensures Width([r]) == r.width
  {
    assert [r][..0] == [];
  }

  lemma {:induction false} RunesWidth(s: Bytes)
    ensures Width(Runes(s)) == |s|
    decreases |s|
  {
    if s != [] {
      var r := DecodeRune(s);
      RunesWidth(s[r.width..]);
      WidthConcat([r], Runes(s[r.width..]));
      WidthOne(r);
    }
  }

  /** Skipping the bytes of the first n runes skips n runes. */
  lemma {:induction false} RunesAfter(s: Bytes, n: nat)
    requires n <= |Runes(s)|
    ensures Width(Runes(s)[..n]) <= |s| && Runes(s[Width(Runes(s)[..n])..]) == Runes(s)[n..]
    decreases n
  {
    if n > 0 { RunesSome(s); }
    hide *;
    if n == 0 {
      RunesAfterNone(s);
    } else {
      var r := DecodeRune(s);
      RunesFirst(s);
      var t := s[r.width..];
      RunesAfter(t, n - 1);
      var k := Width(Runes(t)[..n - 1]);
      TakeDrop(r, Runes(t), n);
      WidthConcat([r], Runes(t)[..n - 1]);
      WidthOne(r);
      DropDrop(s, r.width, k);
    }
  }

  lemma {:induction false} RunesSome(s: Bytes)
    requires |Runes(s)| > 0
    ensures s != []
  {}

  lemma {:induction false} RunesAfterNone(s: Bytes)
    ensures Width(Runes(s)[..0]) == 0 && s[0..] == s && Runes(s)[0..] == Runes(s)
  {
    assert Runes(s)[..0] == [];
  }

  lemma {:induction false} TakeDrop(r: Rune, rs: seq<Rune>, n: nat)
    requires 0 < n <= |rs| + 1
    ensures ([r] + rs)[..n] == [r] + rs[..n - 1] && ([r] + rs)[n..] == rs[n - 1..]
  {}

  lemma {:induction false} DropDrop(s: Bytes, a: nat, b: nat)
    requires a + b <= |s|
    ensures s[a..][b..] == s[a + b..]
  {}

  lemma {:induction false} RunesFirst(s: Bytes)
    requires s != []
    ensures 1 <= DecodeRune(s).width <= |s| && Runes(s) == [DecodeRune(s)] + Runes(s[DecodeRune(s).width..])
  {}
}
