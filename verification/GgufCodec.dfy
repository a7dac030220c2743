/** The binary form of GGUF metadata: little-endian integers, strings and nested typed
    values, as the writer puts them down and the reader takes them up. */
module GgufCodec {
  import opened Wrappers
  import opened Arith

  // ---- little-endian integers

  function Pow256(k: nat): (p: nat)
    ensures p > 0
  {
    if k == 0 then 1 else 256 * Pow256(k - 1)
  }

  function LE(k: nat, v: nat): (b: Bytes)
    ensures |b| == k
  {
    if k == 0 then [] else [v % 256] + LE(k - 1, v / 256)
  }

  function UnLE(b: Bytes): (v: nat)
    ensures v < Pow256(|b|)
  {
    if b == [] then 0 else b[0] + 256 * UnLE(b[1..])
  }

  lemma {:induction false} UnLEofLE(k: nat, v: nat)
    requires v < Pow256(k)
    ensures UnLE(LE(k, v)) == v
  {
    if k > 0 {
      UnLEofLE(k - 1, v / 256);
      assert LE(k, v)[1..] == LE(k - 1, v / 256);
    }
  }

  lemma {:induction false} LEofUnLE(b: Bytes)
    ensures LE(|b|, UnLE(b)) == b
  {
    if b != [] {
      LEofUnLE(b[1..]);
      var v := UnLE(b);
      assert v % 256 == b[0] && v / 256 == UnLE(b[1..]);
    }
  }

  // ---- values

  /** A metadata value; floats are kept as their bits. Unknown is a Value of a type code past the
      last the package knows, with the integer Uint64 finds in it. */
  datatype Value =
    | UInt(size: nat, n: nat)
    | SInt(size: nat, i: int)
    | Float(size: nat, bits: nat)
    | Bool(b: bool)
    | Str(s: Bytes)
    | Arr(elem: nat, vs: seq<Value>)
    | Unknown(past: nat, n: nat)

  const BOOL := 7
  const STRING := 8
  const ARRAY := 9
  const CODES := 13

  /** The ValueType of a value. */
  function Code(v: Value): nat {
    match v
    case UInt(size, _) => if size == 1 then 0 else if size == 2 then 2 else if size == 4 then 4 else 10
    case SInt(size, _) => if size == 1 then 1 else if size == 2 then 3 else if size == 4 then 5 else 11
    case Float(size, _) => if size == 4 then 6 else 12
    case Bool(_) => BOOL
    case Str(_) => STRING
    case Arr(_, _) => ARRAY
    case Unknown(past, _) => CODES + past
  }

  /** The number of bytes of a fixed-size type, 0 for the others. */
  function FixedSize(code: nat): (k: nat)
    ensures k == 0 || k == 1 || k == 2 || k == 4 || k == 8
  {
    if code == 0 || code == 1 then 1
    else if code == 2 || code == 3 then 2
    else if code == 4 || code == 5 || code == 6 then 4
    else if code == 10 || code == 11 || code == 12 then 8
    else 0
  }

  /** Two's complement in k bytes. */
  function Unsigned(k: nat, i: int): nat { i % Pow256(k) }

  function Signed(k: nat, n: nat): int { if 2 * n < Pow256(k) then n else n - Pow256(k) }

  /** The value of a fixed-size type with the given bits. */
  function Fixed(code: nat, n: nat): (v: Value)
    requires FixedSize(code) > 0
  {
    var k := FixedSize(code);
    if code == 6 || code == 12 then Float(k, n)
    else if code == 0 || code == 2 || code == 4 || code == 10 then UInt(k, n)
    else SInt(k, Signed(k, n))
  }

  predicate WellTyped(v: Value) {
    match v
    case UInt(size, n) => (size == 1 || size == 2 || size == 4 || size == 8) && n < Pow256(size)
    case SInt(size, i) => (size == 1 || size == 2 || size == 4 || size == 8) && 0 <= 2 * i + Pow256(size)
      && 2 * i < Pow256(size)
    case Float(size, bits) => (size == 4 || size == 8) && bits < Pow256(size)
    case Bool(_) => true
    case Str(s) => |s| < Pow256(8)
    case Arr(elem, vs) => elem < Pow256(4) && |vs| < Pow256(8) && forall i :: 0 <= i < |vs| ==>
      Code(vs[i]) == elem && WellTyped(vs[i])
    case Unknown(_, _) => false
  }

  /** countWriter.typed, which writes nothing for an unknown type. */
  function Enc(v: Value): Bytes {
    match v
    case UInt(size, n) => LE(size, n)
    case SInt(size, i) => LE(size, Unsigned(size, i))
    case Float(size, bits) => LE(size, bits)
    case Bool(b) => [if b then 1 else 0]
    case Str(s) => LE(8, |s|) + s
    case Arr(elem, vs) => LE(4, elem) + LE(8, |vs|) + EncAll(vs)
    case Unknown(_, _) => []
  }

  function EncAll(vs: seq<Value>): Bytes { if vs == [] then [] else Enc(vs[0]) + EncAll(vs[1..]) }

  // ---- the reader

  /** Its position, and whether it has recorded an error. */
  datatype Rd = Rd(pos: nat, err: bool)

  predicate After(a: Rd, b: Rd, n: nat) { a.pos <= b.pos <= n && (a.err ==> b.err && a.pos == b.pos) }

  /** need(n), then the next n bytes. */
  function Take(buf: Bytes, r: Rd, n: nat): (p: (Bytes, Rd))
    requires r.pos <= |buf|
    ensures After(r, p.1, |buf|) && (!p.1.err ==> |p.0| == n && p.1.pos == r.pos + n)
  {
    if r.err || r.pos + n > |buf| then ([], Rd(r.pos, true))
    else (buf[r.pos..r.pos + n], Rd(r.pos + n, false))
  }

  function RdUint(k: nat, buf: Bytes, r: Rd): (p: (nat, Rd))
    requires r.pos <= |buf|
    ensures After(r, p.1, |buf|) && p.0 < Pow256(k) && (!p.1.err ==> p.1.pos == r.pos + k) && (p.1.err ==> p.0 == 0)
  {
    var t := Take(buf, r, k);
    if t.1.err then (0, t.1) else (UnLE(t.0), t.1)
  }

  function RdStr(buf: Bytes, r: Rd): (p: (Bytes, Rd))
    requires r.pos <= |buf|
    ensures After(r, p.1, |buf|) && (!p.1.err ==> p.1.pos > r.pos)
  {
    var n := RdUint(8, buf, r);
    if n.0 > |buf| then ([], Rd(n.1.pos, true)) else Take(buf, n.1, n.0)
  }

  /** reader.typed; None when it returns an error of its own. */
  function RdTyped(buf: Bytes, r: Rd, code: nat): (p: (Option<Value>, Rd))
    requires r.pos <= |buf|
    ensures After(r, p.1, |buf|)
    decreases |buf| - r.pos, 0, 0
  {
    if FixedSize(code) > 0 then
      var n := RdUint(FixedSize(code), buf, r);
      (Some(Fixed(code, n.0)), n.1)
    else if code == BOOL then
      var n := RdUint(1, buf, r);
      (Some(Bool(n.0 != 0)), n.1)
    else if code == STRING then
      var s := RdStr(buf, r);
      (Some(Str(s.0)), s.1)
    else if code == ARRAY then
      var elem := RdUint(4, buf, r);
      var n := RdUint(8, buf, elem.1);
      if n.0 > |buf| then (None, n.1)
      else if n.1.err then (Some(Arr(elem.0, [])), n.1)
      else
        var es := RdElems(buf, n.1, elem.0, n.0);
        (if es.0.Some? then Some(Arr(elem.0, es.0.value)) else None, es.1)
    else (None, r)
  }

  /** The loop over the elements; it stops at the first error. */
  function RdElems(buf: Bytes, r: Rd, elem: nat, n: nat): (p: (Option<seq<Value>>, Rd))
    requires r.pos <= |buf|
    ensures After(r, p.1, |buf|)
    decreases |buf| - r.pos, 1, n
  {
    if n == 0 || r.err then (Some([]), r)
    else
      var e := RdTyped(buf, r, elem);
      if e.0.None? then (None, e.1)
      else
        var es := RdElems(buf, e.1, elem, n - 1);
        (if es.0.Some? then Some([e.0.value] + es.0.value) else None, es.1)
  }

  /** reader.value: None on any error. */
  function RdValue(buf: Bytes, r: Rd): (p: (Option<Value>, Rd))
    requires r.pos <= |buf|
    ensures After(r, p.1, |buf|)
  {
    var t := RdUint(4, buf, r);
    var v := RdTyped(buf, t.1, t.0);
    if v.1.err then (None, v.1) else v
  }

  // ---- reading what was written

  /** b is what buf holds from position pos on. */
  predicate Holds(buf: Bytes, pos: nat, b: Bytes) { pos + |b| <= |buf| && buf[pos..pos + |b|] == b }

  lemma {:induction false} HoldsSplit(buf: Bytes, pos: nat, a: Bytes, b: Bytes)
    requires Holds(buf, pos, a + b)
    ensures Holds(buf, pos, a) && Holds(buf, pos + |a|, b)
  {
    assert buf[pos..pos + |a|] == buf[pos..pos + |a + b|][..|a|];
    assert buf[pos + |a|..pos + |a| + |b|] == buf[pos..pos + |a + b|][|a|..];
  }

  lemma {:induction false} UintBack(k: nat, v: nat, buf: Bytes, pos: nat)
    requires v < Pow256(k) && Holds(buf, pos, LE(k, v))
    ensures RdUint(k, buf, Rd(pos, false)) == (v, Rd(pos + k, false))
  {
    UnLEofLE(k, v);
  }

  lemma {:induction false} StrBack(s: Bytes, buf: Bytes, pos: nat)
    requires |s| < Pow256(8) && Holds(buf, pos, LE(8, |s|) + s)
    ensures RdStr(buf, Rd(pos, false)) == (s, Rd(pos + 8 + |s|, false))
  {
    HoldsSplit(buf, pos, LE(8, |s|), s);
    UintBack(8, |s|, buf, pos);
  }

  lemma {:induction false} SignedUnsigned(k: nat, i: int)
    requires 0 <= 2 * i + Pow256(k) && 2 * i < Pow256(k)
    ensures Unsigned(k, i) < Pow256(k) && Signed(k, Unsigned(k, i)) == i
  {
    var p := Pow256(k);
    if i >= 0 { DivModUnique(0, i, p, i); } else { DivModUnique(-1, i + p, p, i); }
    hide Pow256;
  }

  /** Values take up room, so an array is no longer than the file. */
  lemma {:induction false} EncLength(vs: seq<Value>)
    requires forall i :: 0 <= i < |vs| ==> WellTyped(vs[i])
    ensures |EncAll(vs)| >= |vs|
  {
    if vs != [] {
      assert WellTyped(vs[0]) && |Enc(vs[0])| >= 1;
      assert forall i :: 0 <= i < |vs[1..]| ==> vs[1..][i] == vs[i + 1];
      EncLength(vs[1..]);
    }
  }

  lemma {:induction false} FixedBack(v: Value, buf: Bytes, pos: nat)
    requires WellTyped(v) && FixedSize(Code(v)) > 0 && Holds(buf, pos, Enc(v))
    ensures RdTyped(buf, Rd(pos, false), Code(v)) == (Some(v), Rd(pos + |Enc(v)|, false))
  {
    match v
    case UInt(size, n) => UintBack(size, n, buf, pos);
    case SInt(size, i) =>
      SignedUnsigned(size, i);
      UintBack(size, Unsigned(size, i), buf, pos);
    case Float(size, bits) => UintBack(size, bits, buf, pos);
  }

  /** typed reads back every well-typed value, however deeply nested. */
  lemma {:induction false} TypedBack(v: Value, buf: Bytes, pos: nat)
    requires WellTyped(v) && Holds(buf, pos, Enc(v))
    ensures RdTyped(buf, Rd(pos, false), Code(v)) == (Some(v), Rd(pos + |Enc(v)|, false))
    decreases v, 3, 0
  {
    match v
    case Bool(b) =>
      assert buf[pos..pos + 1] == Enc(v) && UnLE([if b then 1 else 0]) == if b then 1 else 0;
    case Str(s) => StrBack(s, buf, pos);
    case Arr(_, _) => ArrBack(v, buf, pos);
    case _ => FixedBack(v, buf, pos);
  }

  lemma {:induction false} ArrBack(v: Value, buf: Bytes, pos: nat)
    requires v.Arr? && WellTyped(v) && Holds(buf, pos, Enc(v))
    ensures RdTyped(buf, Rd(pos, false), ARRAY) == (Some(v), Rd(pos + |Enc(v)|, false))
    decreases v, 2, 0
  {
    hide LE, UnLE, Pow256, RdUint, RdElems;
    var elem, vs := v.elem, v.vs;
    HoldsSplit(buf, pos, LE(4, elem) + LE(8, |vs|), EncAll(vs));
    HoldsSplit(buf, pos, LE(4, elem), LE(8, |vs|));
    UintBack(4, elem, buf, pos);
    UintBack(8, |vs|, buf, pos + 4);
    EncLength(vs);
    assert vs[0..] == vs;
    ElemsBack(v, elem, vs, 0, buf, pos + 12);
    assert |Enc(v)| == 12 + |EncAll(vs)|;
  }

  lemma {:induction false} ElemTyped(elem: nat, vs: seq<Value>, i: nat)
    requires WellTyped(Arr(elem, vs)) && i <= |vs|
    ensures i < |vs| ==> WellTyped(vs[i]) && Code(vs[i]) == elem
  {}

  lemma {:induction false} ElemsBack(v: Value, elem: nat, vs: seq<Value>, i: nat, buf: Bytes, pos: nat)
    requires WellTyped(v) && v == Arr(elem, vs) && i <= |vs| && Holds(buf, pos, EncAll(vs[i..]))
    ensures RdElems(buf, Rd(pos, false), elem, |vs| - i) == (Some(vs[i..]), Rd(pos + |EncAll(vs[i..])|, false))
    decreases v, 1, |vs| - i
  {
    hide Enc, WellTyped, RdTyped;
    assert i < |vs| ==> WellTyped(vs[i]) && Code(vs[i]) == elem by { ElemTyped(elem, vs, i); }
    if i < |vs| {
      assert vs[i..][0] == vs[i] && vs[i..][1..] == vs[i + 1..];
      HoldsSplit(buf, pos, Enc(vs[i]), EncAll(vs[i + 1..]));
      TypedBack(vs[i], buf, pos);
      ElemsBack(v, elem, vs, i + 1, buf, pos + |Enc(vs[i])|);
      assert vs[i..] == [vs[i]] + vs[i + 1..];
    }
  }

  lemma {:induction false} ValueBack(v: Value, buf: Bytes, pos: nat)
    requires WellTyped(v) && Holds(buf, pos, LE(4, Code(v)) + Enc(v))
    ensures RdValue(buf, Rd(pos, false)) == (Some(v), Rd(pos + 4 + |Enc(v)|, false))
  {
    HoldsSplit(buf, pos, LE(4, Code(v)), Enc(v));
    assert Code(v) < Pow256(4) by { assert Pow256(1) == 256 && Pow256(2) == 65536 && Pow256(3) == 16777216; }
    UintBack(4, Code(v), buf, pos);
    TypedBack(v, buf, pos + 4);
  }

  // ---- writing what was read

  /** Every boolean the reader meets is 0 or 1. */
  ghost predicate PlainBools(buf: Bytes, r: Rd, code: nat)
    requires r.pos <= |buf|
    decreases |buf| - r.pos, 0, 0
  {
    if code == BOOL then RdUint(1, buf, r).0 <= 1
    else if code == ARRAY then
      var elem := RdUint(4, buf, r);
      var n := RdUint(8, buf, elem.1);
      n.0 <= |buf| && !n.1.err ==> PlainElems(buf, n.1, elem.0, n.0)
    else true
  }

  ghost predicate PlainElems(buf: Bytes, r: Rd, elem: nat, n: nat)
    requires r.pos <= |buf|
    decreases |buf| - r.pos, 1, n
  {
    n > 0 && !r.err ==> PlainBools(buf, r, elem) && PlainElems(buf, RdTyped(buf, r, elem).1, elem, n - 1)
  }

  lemma {:induction false} TakeIs(buf: Bytes, r: Rd, n: nat)
    requires r.pos <= |buf| && !Take(buf, r, n).1.err
    ensures Take(buf, r, n).0 == buf[r.pos..r.pos + n]
  {}

  lemma {:induction false} UintIs(k: nat, buf: Bytes, r: Rd)
    requires r.pos <= |buf| && !RdUint(k, buf, r).1.err
    ensures r.pos + k <= |buf| && LE(k, RdUint(k, buf, r).0) == buf[r.pos..r.pos + k]
  {
    LEofUnLE(buf[r.pos..r.pos + k]);
  }

  lemma {:induction false} UnsignedSigned(k: nat, n: nat)
    requires n < Pow256(k)
    ensures Unsigned(k, Signed(k, n)) == n && 0 <= 2 * Signed(k, n) + Pow256(k) && 2 * Signed(k, n) < Pow256(k)
  {
    var p := Pow256(k);
    if 2 * n < p { DivModUnique(0, n, p, n); } else { DivModUnique(-1, n, p, n - p); }
    hide Pow256;
  }

  lemma {:induction false} FixedEnc(code: nat, n: nat)
    requires FixedSize(code) > 0 && n < Pow256(FixedSize(code))
    ensures Enc(Fixed(code, n)) == LE(FixedSize(code), n) && WellTyped(Fixed(code, n)) && Code(Fixed(code, n)) == code
  {
    hide Pow256, LE, Unsigned, Signed;
    UnsignedSigned(FixedSize(code), n);
  }

  lemma {:induction false} Pieces(buf: Bytes, a: nat, b: nat, c: nat)
    requires a <= b <= c <= |buf|
    ensures buf[a..b] + buf[b..c] == buf[a..c]
  {}

  /** Whatever the reader accepts, writing it again gives the bytes it came from. */
  lemma {:induction false} Reencodes(buf: Bytes, r: Rd, code: nat)
    requires r.pos <= |buf| && |buf| < Pow256(8) && PlainBools(buf, r, code)
    requires var p := RdTyped(buf, r, code); p.0.Some? && !p.1.err
    ensures var p := RdTyped(buf, r, code);
      Enc(p.0.value) == buf[r.pos..p.1.pos] && WellTyped(p.0.value) && Code(p.0.value) == code
    decreases |buf| - r.pos, 0, 1
  {
    var p := RdTyped(buf, r, code);
    if FixedSize(code) > 0 {
      UintIs(FixedSize(code), buf, r);
      FixedEnc(code, RdUint(FixedSize(code), buf, r).0);
    } else if code == BOOL {
      UintIs(1, buf, r);
      var n := RdUint(1, buf, r).0;
      assert LE(1, n) == [n];
    } else if code == STRING {
      var n := RdUint(8, buf, r);
      UintIs(8, buf, r);
      TakeIs(buf, n.1, n.0);
      Pieces(buf, r.pos, r.pos + 8, p.1.pos);
    } else {
      ReencodesArr(buf, r);
    }
  }

  lemma {:induction false} ReencodesArr(buf: Bytes, r: Rd)
    requires r.pos <= |buf| && |buf| < Pow256(8) && PlainBools(buf, r, ARRAY)
    requires var p := RdTyped(buf, r, ARRAY); p.0.Some? && !p.1.err
    ensures var p := RdTyped(buf, r, ARRAY);
      Enc(p.0.value) == buf[r.pos..p.1.pos] && WellTyped(p.0.value) && p.0.value.Arr?
    decreases |buf| - r.pos, 0, 0
  {
    hide LE, UnLE, Pow256, RdUint, RdElems;
    var p := RdTyped(buf, r, ARRAY);
    var elem := RdUint(4, buf, r);
    var n := RdUint(8, buf, elem.1);
    UintIs(4, buf, r);
    UintIs(8, buf, elem.1);
    ReencodesElems(buf, n.1, elem.0, n.0);
    Pieces(buf, r.pos, r.pos + 4, r.pos + 12);
    Pieces(buf, r.pos, r.pos + 12, p.1.pos);
  }

  lemma {:induction false} ReencodesElems(buf: Bytes, r: Rd, elem: nat, n: nat)
    requires r.pos <= |buf| && |buf| < Pow256(8) && PlainElems(buf, r, elem, n)
    requires var p := RdElems(buf, r, elem, n); p.0.Some? && !p.1.err
    ensures var p := RdElems(buf, r, elem, n);
      && EncAll(p.0.value) == buf[r.pos..p.1.pos] && |p.0.value| == n
      && forall i :: 0 <= i < n ==> WellTyped(p.0.value[i]) && Code(p.0.value[i]) == elem
    decreases |buf| - r.pos, 1, n
  {
    if n > 0 {
      var e := RdTyped(buf, r, elem);
      Reencodes(buf, r, elem);
      ReencodesElems(buf, e.1, elem, n - 1);
      var p := RdElems(buf, r, elem, n);
      var rest := RdElems(buf, e.1, elem, n - 1).0.value;
      assert p.0.value[0] == e.0.value && p.0.value[1..] == rest;
      Pieces(buf, r.pos, e.1.pos, p.1.pos);
    }
  }

  // ---- what the reader yields

  /** Every value the reader gives out is of the type it was asked for, all the way down. */
  lemma {:induction false} TypedYields(buf: Bytes, r: Rd, code: nat)
    requires r.pos <= |buf| && RdTyped(buf, r, code).0.Some? && !RdTyped(buf, r, code).1.err
    ensures WellTyped(RdTyped(buf, r, code).0.value) && Code(RdTyped(buf, r, code).0.value) == code
    decreases |buf| - r.pos, 0, 1
  {
    if FixedSize(code) > 0 {
      FixedEnc(code, RdUint(FixedSize(code), buf, r).0);
    } else if code == ARRAY {
      ArrYields(buf, r);
    } else {
      hide Pow256;
    }
  }

  lemma {:induction false} ArrYields(buf: Bytes, r: Rd)
    requires r.pos <= |buf| && RdTyped(buf, r, ARRAY).0.Some? && !RdTyped(buf, r, ARRAY).1.err
    ensures WellTyped(RdTyped(buf, r, ARRAY).0.value) && Code(RdTyped(buf, r, ARRAY).0.value) == ARRAY
    decreases |buf| - r.pos, 0, 0
  {
    hide Pow256, RdUint, RdElems;
    var elem := RdUint(4, buf, r);
    var n := RdUint(8, buf, elem.1);
    ElemsYield(buf, n.1, elem.0, n.0);
  }

  lemma {:induction false} ElemsYield(buf: Bytes, r: Rd, elem: nat, n: nat)
    requires r.pos <= |buf| && RdElems(buf, r, elem, n).0.Some? && !RdElems(buf, r, elem, n).1.err
    ensures var vs := RdElems(buf, r, elem, n).0.value;
      |vs| == n && forall i :: 0 <= i < n ==> WellTyped(vs[i]) && Code(vs[i]) == elem
    decreases |buf| - r.pos, 1, n
  {
    hide RdTyped, WellTyped, Code;
    if n > 0 {
      TypedYields(buf, r, elem);
      ElemsYield(buf, RdTyped(buf, r, elem).1, elem, n - 1);
    }
  }

  // ---- reading a truncated buffer

  /** Reading a prefix gives what the whole gives, or records an error. */
  lemma {:induction false} UintPrefix(k: nat, buf: Bytes, m: nat, r: Rd)
    requires m <= |buf| && r.pos <= m
    ensures RdUint(k, buf[..m], r) == RdUint(k, buf, r) || RdUint(k, buf[..m], r).1.err
  {
    if !RdUint(k, buf[..m], r).1.err {
      assert buf[..m][r.pos..r.pos + k] == buf[r.pos..r.pos + k];
    }
  }

  lemma {:induction false} StrPrefix(buf: Bytes, m: nat, r: Rd)
    requires m <= |buf| && r.pos <= m
    ensures RdStr(buf[..m], r) == RdStr(buf, r) || RdStr(buf[..m], r).1.err
  {
    UintPrefix(8, buf, m, r);
    var n := RdUint(8, buf[..m], r);
    if !RdStr(buf[..m], r).1.err {
      assert buf[..m][n.1.pos..n.1.pos + n.0] == buf[n.1.pos..n.1.pos + n.0];
    }
  }

  lemma {:induction false} TypedPrefix(buf: Bytes, m: nat, r: Rd, code: nat)
    requires m <= |buf| && r.pos <= m
    ensures var p := RdTyped(buf[..m], r, code); p == RdTyped(buf, r, code) || p.1.err || p.0.None?
    decreases m - r.pos, 0, 0
  {
    if FixedSize(code) > 0 {
      UintPrefix(FixedSize(code), buf, m, r);
    } else if code == BOOL {
      UintPrefix(1, buf, m, r);
    } else if code == STRING {
      StrPrefix(buf, m, r);
    } else if code == ARRAY {
      UintPrefix(4, buf, m, r);
      var elem := RdUint(4, buf[..m], r);
      UintPrefix(8, buf, m, elem.1);
      var n := RdUint(8, buf[..m], elem.1);
      if n.0 <= m && !n.1.err { ElemsPrefix(buf, m, n.1, elem.0, n.0); }
    }
  }

  lemma {:induction false} ElemsPrefix(buf: Bytes, m: nat, r: Rd, elem: nat, n: nat)
    requires m <= |buf| && r.pos <= m
    ensures var p := RdElems(buf[..m], r, elem, n); p == RdElems(buf, r, elem, n) || p.1.err || p.0.None?
    decreases m - r.pos, 1, n
  {
    if n > 0 && !r.err {
      TypedPrefix(buf, m, r, elem);
      var e := RdTyped(buf[..m], r, elem);
      if e.0.Some? { ElemsPrefix(buf, m, e.1, elem, n - 1); }
    }
  }

  lemma {:induction false} ValuePrefix(buf: Bytes, m: nat, r: Rd)
    requires m <= |buf| && r.pos <= m
    ensures RdValue(buf[..m], r) == RdValue(buf, r) || RdValue(buf[..m], r).0.None?
  {
    UintPrefix(4, buf, m, r);
    var t := RdUint(4, buf[..m], r);
    TypedPrefix(buf, m, t.1, t.0);
  }
}
