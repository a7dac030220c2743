/** A whole GGUF file: what the writer puts where, and what Parse makes of it. */
module GgufFile {
  import opened Wrappers
  import opened Arith
  import opened GgufCodec

  // ---- alignment

  /** x &^ m, bit by bit. */
  function AndNot(x: nat, m: nat): nat {
    if x == 0 then 0 else 2 * AndNot(x / 2, m / 2) + (if x % 2 == 1 && m % 2 == 0 then 1 else 0)
  }

  /** x & y, bit by bit. */
  function And(x: nat, y: nat): nat {
    if x == 0 then 0 else 2 * And(x / 2, y / 2) + (if x % 2 == 1 && y % 2 == 1 then 1 else 0)
  }

  predicate PowerOfTwo(a: nat) { a == 1 || (a > 0 && a % 2 == 0 && PowerOfTwo(a / 2)) }

  /** alignUp, where nothing overflows 64 bits. */
  function AlignUp(x: nat, a: nat): nat
    requires a > 0
  {
    AndNot(x + a - 1, a - 1)
  }

  lemma {:induction false} AndSelf(x: nat)
    ensures And(x, x) == x
  {
    if x > 0 { AndSelf(x / 2); }
  }

  /** The test a & (a-1) != 0 tells powers of two from the rest. */
  lemma {:induction false} PowerTest(a: nat)
    requires a > 0
    ensures And(a, a - 1) == 0 <==> PowerOfTwo(a)
  {
    if a % 2 == 0 {
      assert (a - 1) / 2 == a / 2 - 1;
      PowerTest(a / 2);
    } else {
      assert (a - 1) / 2 == a / 2;
      AndSelf(a / 2);
      assert And(a, a - 1) == 2 * And(a / 2, a / 2);
    }
  }

  /** The largest multiple of a up to y. */
  function RoundDown(y: nat, a: nat): int
    requires a > 0
  {
    y - y % a
  }

  lemma {:induction false} AndNotLow(y: nat, a: nat)
    requires PowerOfTwo(a)
    ensures AndNot(y, a - 1) == RoundDown(y, a)
    decreases a
  {
    if a == 1 {
      AndNotZero(y);
    } else {
      AndNotLow(y / 2, a / 2);
      AndNotStep(y, a / 2);
      Halves(y, a / 2);
      hide *;
      assert a == 2 * (a / 2);
    }
  }

  lemma {:induction false} AndNotStep(y: nat, b: nat)
    requires b > 0
    ensures AndNot(y, 2 * b - 1) == 2 * AndNot(y / 2, b - 1)
  {
    assert (2 * b - 1) / 2 == b - 1 && (2 * b - 1) % 2 == 1;
  }

  lemma {:induction false} Halves(y: nat, b: nat)
    requires b > 0
    ensures RoundDown(y, 2 * b) == 2 * RoundDown(y / 2, b)
  {
    HalfMod(y, b);
  }

  lemma {:induction false} HalfMod(y: nat, b: nat)
    requires b > 0
    ensures y % (2 * b) == 2 * (y / 2 % b) + y % 2
  {
    var q, r := y / 2 / b, y / 2 % b;
    assert y == 2 * (y / 2) + y % 2 && y / 2 == q * b + r;
    assert q * (2 * b) == 2 * (q * b);
    DivModUnique(q, 2 * r + y % 2, 2 * b, y);
  }

  lemma {:induction false} AndNotZero(y: nat)
    ensures AndNot(y, 0) == y
  {
    if y > 0 { AndNotZero(y / 2); }
  }

  /** alignUp gives the least multiple of a that is at least x. */
  lemma {:induction false} AlignUpIs(x: nat, a: nat)
    requires PowerOfTwo(a)
    ensures x <= AlignUp(x, a) < x + a && AlignUp(x, a) % a == 0
    ensures x % a == 0 ==> AlignUp(x, a) == x
  {
    AndNotLow(x + a - 1, a);
    RoundUp(x, a);
  }

  lemma {:induction false} RoundUp(x: nat, a: nat)
    requires a > 0
    ensures var y := x + a - 1;
      var z := y - y % a;
      x <= z < x + a && z % a == 0 && (x % a == 0 ==> z == x)
  {
    var y := x + a - 1;
    var q, r := y / a, y % a;
    assert y == q * a + r;
    DivModUnique(q, 0, a, y - r);
    if x % a == 0 {
      var p := x / a;
      assert x == p * a;
      DivModUnique(p, a - 1, a, y);
    }
  }

  // ---- tensor types

  /** Elements and bytes per block; (0, 0) for a type the package does not know. */
  function TypeInfo(t: nat): (p: (nat, nat))
    ensures p.0 > 0 <==> p.1 > 0
  {
    if t == 0 || t == 26 then (1, 4)
    else if t == 1 || t == 30 || t == 25 then (1, 2)
    else if t == 28 || t == 27 then (1, 8)
    else if t == 24 then (1, 1)
    else if t == 2 || t == 20 then (32, 18)
    else if t == 3 then (32, 20)
    else if t == 6 then (32, 22)
    else if t == 7 then (32, 24)
    else if t == 8 then (32, 34)
    else if t == 9 then (32, 36)
    else if t == 10 then (256, 84)
    else if t == 11 || t == 21 then (256, 110)
    else if t == 12 then (256, 144)
    else if t == 13 then (256, 176)
    else if t == 14 then (256, 210)
    else if t == 15 then (256, 292)
    else if t == 16 then (256, 66)
    else if t == 17 then (256, 74)
    else if t == 18 then (256, 98)
    else if t == 19 then (256, 50)
    else if t == 22 then (256, 82)
    else if t == 23 then (256, 136)
    else if t == 29 then (256, 56)
    else (0, 0)
  }

  predicate Known(t: nat) { TypeInfo(t).0 > 0 }

  function NumElems(dims: seq<nat>): nat { if dims == [] then 1 else NumElems(dims[..|dims| - 1]) * dims[|dims| - 1] }

  function Times(a: nat, b: nat): nat { a * b }

  function Over(a: nat, b: nat): nat
    requires b > 0
  {
    a / b
  }

  /** Type.RowBytes */
  function RowBytes(t: nat, n: nat): nat
    requires Known(t)
  {
    Times(Over(n, TypeInfo(t).0), TypeInfo(t).1)
  }

  /** TensorInfo.Bytes; the inner dimension is Dims[0]. */
  function TensorBytes(dims: seq<nat>, t: nat): nat
    requires Known(t) && (|dims| > 0 ==> dims[0] > 0)
  {
    if dims == [] then 0 else Times(RowBytes(t, dims[0]), Over(NumElems(dims), dims[0]))
  }

  datatype Tensor = Tensor(name: Bytes, dims: seq<nat>, typ: nat, offset: nat)

  // ---- Parse

  const MAGIC := 0x46554747
  /** general.alignment */
  const KEY_ALIGNMENT: Bytes :=
    [103, 101, 110, 101, 114, 97, 108, 46, 97, 108, 105, 103, 110, 109, 101, 110, 116]

  datatype File = File(version: nat, alignment: nat, keys: seq<Bytes>, kv: map<Bytes, Value>, tensors: seq<Tensor>,
      dataOffset: nat)

  /** Panics where the source divides by a zero inner dimension. */
  datatype Parsed = Ok(f: File) | Err | Panics

  /** Value.Uint64 */
  function Uint64(v: Value): nat {
    match v
    case UInt(_, n) => n
    case SInt(_, i) => Unsigned(8, i)
    case Bool(b) => if b then 1 else 0
    case Unknown(_, n) => n
    case _ => 0
  }

  /** The alignment a file with this metadata has: the key cut to 32 bits, or 32. */
  function AlignmentOf(kv: map<Bytes, Value>): nat {
    if KEY_ALIGNMENT in kv then Uint64(kv[KEY_ALIGNMENT]) % 0x1_0000_0000 else 32
  }

  type Entry = (Bytes, Value)

  function RdKVs(buf: Bytes, r: Rd, n: nat): (p: (Option<seq<Entry>>, Rd))
    requires r.pos <= |buf|
    ensures After(r, p.1, |buf|)
    decreases n
  {
    if n == 0 then (Some([]), r)
    else
      var key := RdStr(buf, r);
      var v := RdValue(buf, key.1);
      if v.0.None? then (None, v.1)
      else
        var rest := RdKVs(buf, v.1, n - 1);
        (if rest.0.Some? then Some([(key.0, v.0.value)] + rest.0.value) else None, rest.1)
  }

  function RdDims(buf: Bytes, r: Rd, n: nat): (p: (seq<nat>, Rd))
    requires r.pos <= |buf|
    ensures After(r, p.1, |buf|) && |p.0| == n
    decreases n
  {
    if n == 0 then ([], r)
    else
      var d := RdUint(8, buf, r);
      var rest := RdDims(buf, d.1, n - 1);
      ([d.0] + rest.0, rest.1)
  }

  /** One tensor info; None on any error. */
  function RdTensor(buf: Bytes, r: Rd): (p: (Option<Tensor>, Rd))
    requires r.pos <= |buf|
    ensures After(r, p.1, |buf|) && (p.0.Some? ==> !p.1.err && Known(p.0.value.typ) && |p.0.value.dims| <= 4)
  {
    var name := RdStr(buf, r);
    var nd := RdUint(4, buf, name.1);
    if nd.0 > 4 then (None, nd.1)
    else
      var dims := RdDims(buf, nd.1, nd.0);
      var typ := RdUint(4, buf, dims.1);
      var off := RdUint(8, buf, typ.1);
      if off.1.err || !Known(typ.0) then (None, off.1)
      else (Some(Tensor(name.0, dims.0, typ.0, off.0)), off.1)
  }

  function RdTensors(buf: Bytes, r: Rd, n: nat, seen: set<Bytes>): (p: (Option<seq<Tensor>>, Rd))
    requires r.pos <= |buf|
    ensures After(r, p.1, |buf|)
    ensures p.0.Some? ==> (n == 0 ==> p.1 == r) && forall i :: 0 <= i < |p.0.value| ==> Known(p.0.value[i].typ)
    decreases n
  {
    if n == 0 then (Some([]), r)
    else
      var t := RdTensor(buf, r);
      if t.0.None? || t.0.value.name in seen then (None, t.1)
      else
        var rest := RdTensors(buf, t.1, n - 1, seen + {t.0.value.name});
        (if rest.0.Some? then Some([t.0.value] + rest.0.value) else None, rest.1)
  }

  function KeysOf(es: seq<Entry>): seq<Bytes> { seq(|es|, i requires 0 <= i < |es| => es[i].0) }

  /** A key that occurs twice keeps its last value. */
  function MapOf(es: seq<Entry>): map<Bytes, Value> {
    if es == [] then map[] else MapOf(es[..|es| - 1])[es[|es| - 1].0 := es[|es| - 1].1]
  }

  /** The data of every tensor lies aligned and inside a file of the given size. */
  function Check(ts: seq<Tensor>, i: nat, dataOffset: nat, alignment: nat, size: nat): (p: Parsed)
    requires i <= |ts| && alignment > 0 && forall j :: 0 <= j < |ts| ==> Known(ts[j].typ)
    ensures !p.Ok? || p.f == File(0, 0, [], map[], [], 0)
    decreases |ts| - i
  {
    if i == |ts| then Ok(File(0, 0, [], map[], [], 0))
    else if |ts[i].dims| > 0 && ts[i].dims[0] == 0 then Panics
    else if ts[i].offset % alignment != 0
      || dataOffset + ts[i].offset + TensorBytes(ts[i].dims, ts[i].typ) > size then Err
    else Check(ts, i + 1, dataOffset, alignment, size)
  }

  /** The header: everything before the data. */
  datatype Header = Header(version: nat, alignment: nat, es: seq<Entry>, tensors: seq<Tensor>, end: nat)

  function ParseHeader(data: Bytes): (h: Option<Header>)
    ensures h.Some? ==> h.value.alignment > 0 && PowerOfTwo(h.value.alignment) && h.value.end <= |data|
    ensures h.Some? ==> forall j :: 0 <= j < |h.value.tensors| ==> Known(h.value.tensors[j].typ)
  {
    var m := RdUint(4, data, Rd(0, false));
    var version := RdUint(4, data, m.1);
    var nT := RdUint(8, data, version.1);
    var nKV := RdUint(8, data, nT.1);
    if m.0 != MAGIC || version.0 < 2 || version.0 > 3 || nKV.1.err || nKV.0 > |data| || nT.0 > |data| then None
    else
      var kvs := RdKVs(data, nKV.1, nKV.0);
      if kvs.0.None? then None
      else
        var alignment := AlignmentOf(MapOf(kvs.0.value));
        if alignment == 0 || And(alignment, alignment - 1) != 0 then None
        else
          PowerTest(alignment);
          var ts := RdTensors(data, kvs.1, nT.0, {});
          if ts.0.None? || ts.1.err then None
          else Some(Header(version.0, alignment, kvs.0.value, ts.0.value, ts.1.pos))
  }

  function ParseOf(data: Bytes): (p: Parsed) {
    var h := ParseHeader(data);
    if h.None? then Err
    else
      var Header(version, alignment, es, ts, end) := h.value;
      var dataOffset := AlignUp(end, alignment);
      var c := Check(ts, 0, dataOffset, alignment, |data|);
      if c.Ok? then Ok(File(version, alignment, KeysOf(es), MapOf(es), ts, dataOffset)) else c
  }

  /** TensorInfo.Data */
  function DataOf(data: Bytes, f: File, i: nat): Bytes
    requires i < |f.tensors| && Known(f.tensors[i].typ) && (|f.tensors[i].dims| > 0 ==> f.tensors[i].dims[0] > 0)
  {
    var at := f.dataOffset + f.tensors[i].offset;
    var n := TensorBytes(f.tensors[i].dims, f.tensors[i].typ);
    if at + n <= |data| then data[at..at + n] else []
  }

  // ---- truncation

  lemma {:induction false} KVsPrefix(buf: Bytes, m: nat, r: Rd, n: nat)
    requires m <= |buf| && r.pos <= m
    ensures RdKVs(buf[..m], r, n) == RdKVs(buf, r, n) || RdKVs(buf[..m], r, n).0.None?
    decreases n
  {
    hide RdStr, RdValue;
    if n > 0 {
      StrPrefix(buf, m, r);
      var key := RdStr(buf[..m], r);
      ValuePrefix(buf, m, key.1);
      var v := RdValue(buf[..m], key.1);
      ErrStays(buf[..m], key.1);
      if v.0.Some? { KVsPrefix(buf, m, v.1, n - 1); }
    }
  }

  /** Once the reader has an error, no value comes out. */
  lemma {:induction false} ErrStays(buf: Bytes, r: Rd)
    requires r.pos <= |buf|
    ensures r.err ==> RdValue(buf, r).0.None?
  {}

  lemma {:induction false} DimsPrefix(buf: Bytes, m: nat, r: Rd, n: nat)
    requires m <= |buf| && r.pos <= m
    ensures RdDims(buf[..m], r, n) == RdDims(buf, r, n) || RdDims(buf[..m], r, n).1.err
    decreases n
  {
    if n > 0 {
      UintPrefix(8, buf, m, r);
      DimsPrefix(buf, m, RdUint(8, buf[..m], r).1, n - 1);
    }
  }

  lemma {:induction false} TensorPrefix(buf: Bytes, m: nat, r: Rd)
    requires m <= |buf| && r.pos <= m
    ensures RdTensor(buf[..m], r) == RdTensor(buf, r) || RdTensor(buf[..m], r).0.None?
  {
    hide RdStr, RdUint, RdDims;
    StrPrefix(buf, m, r);
    var name := RdStr(buf[..m], r);
    UintPrefix(4, buf, m, name.1);
    var nd := RdUint(4, buf[..m], name.1);
    DimsPrefix(buf, m, nd.1, nd.0);
    var dims := RdDims(buf[..m], nd.1, nd.0);
    UintPrefix(4, buf, m, dims.1);
    var typ := RdUint(4, buf[..m], dims.1);
    UintPrefix(8, buf, m, typ.1);
  }

  lemma {:induction false} TensorsPrefix(buf: Bytes, m: nat, r: Rd, n: nat, seen: set<Bytes>)
    requires m <= |buf| && r.pos <= m
    ensures RdTensors(buf[..m], r, n, seen) == RdTensors(buf, r, n, seen) || RdTensors(buf[..m], r, n, seen).0.None?
    decreases n
  {
    hide RdTensor;
    if n > 0 {
      TensorPrefix(buf, m, r);
      var t := RdTensor(buf[..m], r);
      if t.0.Some? && t.0.value.name !in seen { TensorsPrefix(buf, m, t.1, n - 1, seen + {t.0.value.name}); }
    }
  }

  lemma {:induction false} HeaderPrefix(data: Bytes, m: nat)
    requires m <= |data|
    ensures ParseHeader(data[..m]) == ParseHeader(data) || ParseHeader(data[..m]).None?
  {
    hide RdUint, RdKVs, RdTensors, MapOf, And, AlignmentOf;
    var r0, part := Rd(0, false), data[..m];
    UintPrefix(4, data, m, r0);
    var a := RdUint(4, part, r0);
    UintPrefix(4, data, m, a.1);
    var b := RdUint(4, part, a.1);
    UintPrefix(8, data, m, b.1);
    var c := RdUint(8, part, b.1);
    UintPrefix(8, data, m, c.1);
    var d := RdUint(8, part, c.1);
    KVsPrefix(data, m, d.1, d.0);
    var kvs := RdKVs(part, d.1, d.0);
    TensorsPrefix(data, m, kvs.1, c.0, {});
  }

  lemma {:induction false} CheckFails(ts: seq<Tensor>, i: nat, j: nat, dataOffset: nat, alignment: nat, size: nat,
      full: nat)
    requires i <= j < |ts| && alignment > 0 && size <= full && forall k :: 0 <= k < |ts| ==> Known(ts[k].typ)
    requires Check(ts, i, dataOffset, alignment, full).Ok?
    ensures |ts[j].dims| > 0 ==> ts[j].dims[0] > 0
    ensures dataOffset + ts[j].offset + TensorBytes(ts[j].dims, ts[j].typ) > size ==>
      Check(ts, i, dataOffset, alignment, size) == Err
    decreases j - i
  {
    if i < j { CheckFails(ts, i + 1, j, dataOffset, alignment, size, full); }
  }

  /** A file cut off before some tensor's data end is never accepted. */
  lemma {:induction false} TruncationRejected(data: Bytes, m: nat, i: nat)
    requires ParseOf(data).Ok? && i < |ParseOf(data).f.tensors| && m <= |data|
    ensures var f := ParseOf(data).f;
      && Known(f.tensors[i].typ) && (|f.tensors[i].dims| > 0 ==> f.tensors[i].dims[0] > 0)
      && (m < f.dataOffset + f.tensors[i].offset + TensorBytes(f.tensors[i].dims, f.tensors[i].typ) ==>
        ParseOf(data[..m]) == Err)
  {
    HeaderPrefix(data, m);
    var h := ParseHeader(data).value;
    CheckFails(h.tensors, 0, i, AlignUp(h.end, h.alignment), h.alignment, m, |data|);
    hide ParseHeader, AlignUp, Check, TensorBytes;
  }
}
