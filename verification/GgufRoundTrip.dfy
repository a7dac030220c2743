/** The bytes the writer produces, and that Parse takes them back to the same file. */
module GgufRoundTrip {
  import opened Wrappers
  import opened Arith
  import opened GgufCodec
  import opened GgufFile

  /** A tensor as it was added. */
  datatype Added = Added(name: Bytes, dims: seq<nat>, typ: nat, data: Bytes)

  /** The writer's state. */
  datatype Content = Content(keys: seq<Bytes>, kv: map<Bytes, Value>, tensors: seq<Added>, alignment: nat)

  /** What every Set and every successful AddTensor keeps. */
  ghost predicate Consistent(w: Content) {
    && (forall i, j :: 0 <= i < j < |w.keys| ==> w.keys[i] != w.keys[j])
    && (forall k :: k in w.kv <==> k in w.keys)
    && w.alignment == AlignmentOf(w.kv)
  }

  /** The bytes that the dimensions, taken as they are, announce. */
  ghost predicate Fitting(t: Added) {
    && Known(t.typ) && t.dims != [] && t.dims[0] > 0
    && |t.data| == TensorBytes(t.dims, t.typ)
  }

  // ---- layout

  function Zeros(n: nat): (b: Bytes)
    ensures |b| == n
  {
    seq(n, i => 0)
  }

  /** The padding after n bytes. */
  function PadLength(n: nat, a: nat): (k: nat)
    requires a > 0
    ensures k < a
  {
    if n % a == 0 then 0 else a - n % a
  }

  /** The offset WriteTo assigns to tensor i. */
  function OffsetOf(ts: seq<Added>, a: nat, i: nat): nat
    requires a > 0 && i <= |ts|
  {
    if i == 0 then 0 else AlignUp(OffsetOf(ts, a, i - 1) + |ts[i - 1].data|, a)
  }

  function EncKV(k: Bytes, v: Value): Bytes { LE(8, |k|) + k + (LE(4, Code(v)) + Enc(v)) }

  function EncKVs(keys: seq<Bytes>, kv: map<Bytes, Value>): Bytes
    requires forall k :: k in keys ==> k in kv
  {
    if keys == [] then [] else EncKV(keys[0], kv[keys[0]]) + EncKVs(keys[1..], kv)
  }

  function EncDims(dims: seq<nat>): Bytes { if dims == [] then [] else LE(8, dims[0]) + EncDims(dims[1..]) }

  function EncInfo(t: Added, off: nat): Bytes {
    LE(8, |t.name|) + t.name + (LE(4, |t.dims|) + (EncDims(t.dims) + (LE(4, t.typ) + LE(8, off))))
  }

  function EncInfos(ts: seq<Added>, a: nat, i: nat): Bytes
    requires a > 0 && i <= |ts|
    decreases |ts| - i
  {
    if i == |ts| then [] else EncInfo(ts[i], OffsetOf(ts, a, i)) + EncInfos(ts, a, i + 1)
  }

  function EncHeader(w: Content): Bytes
    requires w.alignment > 0 && forall k :: k in w.keys ==> k in w.kv
  {
    LE(4, MAGIC) + (LE(4, 3) + (LE(8, |w.tensors|)
      + (LE(8, |w.keys|) + (EncKVs(w.keys, w.kv) + EncInfos(w.tensors, w.alignment, 0)))))
  }

  /** The data of the first n tensors, each padded to the alignment. */
  function EncData(ts: seq<Added>, a: nat, n: nat): Bytes
    requires a > 0 && n <= |ts|
  {
    if n == 0 then [] else
      EncData(ts, a, n - 1) + ts[n - 1].data + Zeros(PadLength(|ts[n - 1].data|, a))
  }

  function FileBytes(w: Content): Bytes
    requires w.alignment > 0 && forall k :: k in w.keys ==> k in w.kv
  {
    var h := EncHeader(w);
    h + Zeros(PadLength(|h|, w.alignment)) + EncData(w.tensors, w.alignment, |w.tensors|)
  }

  // ---- offsets

  lemma {:induction false} PadIs(n: nat, a: nat)
    requires PowerOfTwo(a)
    ensures n + PadLength(n, a) == AlignUp(n, a)
  {
    AlignUpIs(n, a);
    Unaligned(n, a, AlignUp(n, a));
  }

  /** There is one multiple of a in any a consecutive numbers. */
  lemma {:induction false} Unaligned(n: nat, a: nat, z: nat)
    requires a > 0 && n <= z < n + a && z % a == 0
    ensures z == n + PadLength(n, a)
  {
    var q, r, p := n / a, n % a, z / a;
    assert n == q * a + r && z == p * a + 0;
    if r == 0 {
      MulUnique(p, 0, q, z - n, a);
    } else {
      assert z - n + r < 2 * a;
      if z - n + r < a { MulUnique(p, 0, q, z - n + r, a); }
      else { assert (q + 1) * a == q * a + a; MulUnique(p, 0, q + 1, z - n + r - a, a); }
    }
  }

  lemma {:induction false} AlignedSum(x: nat, n: nat, a: nat)
    requires PowerOfTwo(a) && Aligned(x, a)
    ensures AlignUp(x + n, a) == x + AlignUp(n, a)
  {
    hide AlignUp, PadLength;
    AlignUpIs(x + n, a);
    AlignUpIs(n, a);
    Multiples(x, AlignUp(n, a), a);
    Unaligned(x + n, a, x + AlignUp(n, a));
    Unaligned(x + n, a, AlignUp(x + n, a));
  }

  lemma {:induction false} Multiples(x: nat, y: nat, a: nat)
    requires a > 0 && x % a == 0 && y % a == 0
    ensures (x + y) % a == 0
  {
    var p, q := x / a, y / a;
    assert x == p * a && y == q * a && x + y == (p + q) * a + 0;
    DivModUnique(p + q, 0, a, x + y);
  }

  predicate Aligned(x: nat, a: nat) { a > 0 && x % a == 0 }

  lemma {:induction false} AlignedUp(x: nat, a: nat)
    requires PowerOfTwo(a)
    ensures Aligned(AlignUp(x, a), a) && Aligned(0, a)
  {
    AlignUpIs(x, a);
    hide AlignUp;
  }

  lemma {:induction false} OffsetAligned(ts: seq<Added>, a: nat, i: nat)
    requires PowerOfTwo(a) && i <= |ts|
    ensures Aligned(OffsetOf(ts, a, i), a)
  {
    assert a > 0;
    hide Aligned, AlignUp, PowerOfTwo;
    if i > 0 { AlignedUp(OffsetOf(ts, a, i - 1) + |ts[i - 1].data|, a); } else { AlignedUp(0, a); }
  }

  /** The data section puts every tensor where its offset says. */
  lemma {:induction false} DataLength(ts: seq<Added>, a: nat, n: nat)
    requires PowerOfTwo(a) && n <= |ts|
    ensures |EncData(ts, a, n)| == OffsetOf(ts, a, n)
  {
    if n > 0 {
      DataLength(ts, a, n - 1);
      OffsetAligned(ts, a, n - 1);
      PadIs(|ts[n - 1].data|, a);
      AlignedSum(OffsetOf(ts, a, n - 1), |ts[n - 1].data|, a);
      hide AlignUp, PadLength, Zeros;
    }
  }

  lemma {:induction false} DataAt(ts: seq<Added>, a: nat, n: nat, i: nat)
    requires PowerOfTwo(a) && i < n <= |ts|
    ensures Holds(EncData(ts, a, n), OffsetOf(ts, a, i), ts[i].data)
  {
    DataLength(ts, a, n - 1);
    var before, last, pad := EncData(ts, a, n - 1), ts[n - 1].data, Zeros(PadLength(|ts[n - 1].data|, a));
    if i < n - 1 {
      DataAt(ts, a, n - 1, i);
      HoldsMore(before, last + pad, OffsetOf(ts, a, i), ts[i].data);
      assert before + last + pad == before + (last + pad);
    } else {
      assert (before + last + pad)[|before|..|before| + |last|] == last;
    }
  }

  lemma {:induction false} HoldsMore(x: Bytes, y: Bytes, pos: nat, b: Bytes)
    requires Holds(x, pos, b)
    ensures Holds(x + y, pos, b)
  {
    assert (x + y)[pos..pos + |b|] == x[pos..pos + |b|];
  }

  // ---- what Parse needs of the content

  /** Sizes fit their fields, no dimension is negative, and the layout has an alignment. */
  ghost predicate Encodable(w: Content) {
    && Consistent(w) && w.alignment > 0
    && (forall i :: 0 <= i < |w.tensors| ==> Fitting(w.tensors[i]) && DimsFit(w.tensors[i]))
    && |FileBytes(w)| < Pow256(8)
  }

  /** No array holds a value of another type than it announces, and no type is unknown. */
  ghost predicate AllTyped(kv: map<Bytes, Value>) { forall k :: k in kv ==> WellTyped(kv[k]) }

  ghost predicate Representable(w: Content) { Encodable(w) && AllTyped(w.kv) }

  ghost predicate DimsFit(t: Added) { |t.dims| < Pow256(4) && forall j :: 0 <= j < |t.dims| ==> t.dims[j] < Pow256(8) }

  /** What Parse asks beyond that: an alignment that is a power of two, at most four dimensions,
      and names that differ. Neither Set nor AddTensor sees to any of it. */
  ghost predicate Acceptable(w: Content) {
    && PowerOfTwo(w.alignment)
    && (forall i :: 0 <= i < |w.tensors| ==> |w.tensors[i].dims| <= 4)
    && forall i, j :: 0 <= i < j < |w.tensors| ==> w.tensors[i].name != w.tensors[j].name
  }

  ghost predicate Writable(w: Content) { Representable(w) && Acceptable(w) }

  /** At most four dimensions, each of which fits 64 bits. */
  ghost predicate Small(t: Added) { |t.dims| <= 4 && forall j :: 0 <= j < |t.dims| ==> t.dims[j] < Pow256(8) }

  function EntriesOf(keys: seq<Bytes>, kv: map<Bytes, Value>): seq<Entry>
    requires forall k :: k in keys ==> k in kv
  {
    seq(|keys|, i requires 0 <= i < |keys| => (keys[i], kv[keys[i]]))
  }

  function InfosOf(ts: seq<Added>, a: nat, i: nat): (r: seq<Tensor>)
    requires a > 0 && i <= |ts|
    ensures |r| == |ts| - i
    decreases |ts| - i
  {
    if i == |ts| then [] else [Tensor(ts[i].name, ts[i].dims, ts[i].typ, OffsetOf(ts, a, i))] + InfosOf(ts, a, i + 1)
  }

  // ---- reading the header back

  lemma {:induction false} KVsBack(keys: seq<Bytes>, kv: map<Bytes, Value>, buf: Bytes, pos: nat)
    requires (forall k :: k in keys ==> k in kv && WellTyped(kv[k])) && |buf| < Pow256(8)
    requires Holds(buf, pos, EncKVs(keys, kv))
    ensures RdKVs(buf, Rd(pos, false), |keys|) == (Some(EntriesOf(keys, kv)), Rd(pos + |EncKVs(keys, kv)|, false))
    ensures |EncKVs(keys, kv)| >= |keys|
    decreases |keys|
  {
    hide *;
    if keys != [] {
      var k, rest := keys[0], keys[1..];
      var v := kv[k];
      KVsStep(keys, kv, buf, pos);
      var r0, r1 := Rd(pos + 8 + |k|, false), Rd(pos + |EncKV(k, v)|, false);
      KVBack(k, v, buf, pos);
      KVsBack(rest, kv, buf, r1.pos);
      KVsNext(buf, Rd(pos, false), |keys|, k, r0, v, r1, EntriesOf(rest, kv), Rd(pos + |EncKVs(keys, kv)|, false));
    } else {
      HoldsInside(buf, pos, EncKVs(keys, kv));
      NoKVs(kv, buf, Rd(pos, false));
    }
  }

  lemma {:induction false} KVsStep(keys: seq<Bytes>, kv: map<Bytes, Value>, buf: Bytes, pos: nat)
    requires keys != [] && (forall k :: k in keys ==> k in kv) && Holds(buf, pos, EncKVs(keys, kv))
    ensures var k, rest := keys[0], keys[1..];
      && (forall k :: k in rest ==> k in keys)
      && pos + 8 + |k| <= |buf|
      && Holds(buf, pos, EncKV(k, kv[k])) && Holds(buf, pos + |EncKV(k, kv[k])|, EncKVs(rest, kv))
      && |EncKVs(keys, kv)| == |EncKV(k, kv[k])| + |EncKVs(rest, kv)| && pos + |EncKVs(keys, kv)| <= |buf|
      && EntriesOf(keys, kv) == [(k, kv[k])] + EntriesOf(rest, kv)
  {
    assert |EncKV(keys[0], kv[keys[0]])| >= 8 + |keys[0]|;
    HoldsSplit(buf, pos, EncKV(keys[0], kv[keys[0]]), EncKVs(keys[1..], kv));
    hide EncKV;
  }

  lemma {:induction false} NoKVs(kv: map<Bytes, Value>, buf: Bytes, r: Rd)
    requires r.pos <= |buf|
    ensures RdKVs(buf, r, 0) == (Some([]), r) && EncKVs([], kv) == [] && EntriesOf([], kv) == []
  {}

  /** One more entry ahead of the rest. */
  lemma {:induction false} KVsNext(buf: Bytes, r: Rd, n: nat, k: Bytes, r0: Rd, v: Value, r1: Rd, rest: seq<Entry>,
      r2: Rd)
    requires r.pos <= |buf| && r0.pos <= |buf| && r1.pos <= |buf| && n > 0
    requires RdStr(buf, r) == (k, r0) && RdValue(buf, r0) == (Some(v), r1) && RdKVs(buf, r1, n - 1) == (Some(rest), r2)
    ensures RdKVs(buf, r, n) == (Some([(k, v)] + rest), r2)
  {
    hide RdStr, RdValue;
  }

  lemma {:induction false} KVBack(k: Bytes, v: Value, buf: Bytes, pos: nat)
    requires WellTyped(v) && |buf| < Pow256(8) && Holds(buf, pos, EncKV(k, v))
    ensures RdStr(buf, Rd(pos, false)) == (k, Rd(pos + 8 + |k|, false))
    ensures RdValue(buf, Rd(pos + 8 + |k|, false)) == (Some(v), Rd(pos + |EncKV(k, v)|, false))
    ensures |EncKV(k, v)| >= 1
  {
    hide RdStr, RdValue, Enc, Code, LE, WellTyped, Pow256;
    HoldsSplit(buf, pos, LE(8, |k|) + k, LE(4, Code(v)) + Enc(v));
    StrBack(k, buf, pos);
    ValueBack(v, buf, pos + 8 + |k|);
  }

  lemma {:induction false} DimsBack(dims: seq<nat>, buf: Bytes, pos: nat)
    requires (forall j :: 0 <= j < |dims| ==> dims[j] < Pow256(8)) && Holds(buf, pos, EncDims(dims))
    ensures RdDims(buf, Rd(pos, false), |dims|) == (dims, Rd(pos + |EncDims(dims)|, false))
    decreases |dims|
  {
    hide *;
    HoldsInside(buf, pos, EncDims(dims));
    if dims != [] {
      DimsStep(dims, buf, pos);
      UintBack(8, dims[0], buf, pos);
      forall j | 0 <= j < |dims[1..]| ensures dims[1..][j] < Pow256(8) { assert dims[1..][j] == dims[j + 1]; }
      DimsBack(dims[1..], buf, pos + 8);
      DimsNext(buf, Rd(pos, false), |dims|, dims[0], Rd(pos + 8, false), dims[1..], Rd(pos + |EncDims(dims)|, false));
    } else {
      NoDims(buf, Rd(pos, false));
    }
  }

  lemma {:induction false} DimsStep(dims: seq<nat>, buf: Bytes, pos: nat)
    requires dims != [] && Holds(buf, pos, EncDims(dims))
    ensures Holds(buf, pos, LE(8, dims[0])) && Holds(buf, pos + 8, EncDims(dims[1..])) && pos + 8 <= |buf|
    ensures |EncDims(dims)| == 8 + |EncDims(dims[1..])| && [dims[0]] + dims[1..] == dims
  {
    HoldsSplit(buf, pos, LE(8, dims[0]), EncDims(dims[1..]));
    hide LE;
  }

  lemma {:induction false} DimsNext(buf: Bytes, r: Rd, n: nat, d: nat, r1: Rd, rest: seq<nat>, r2: Rd)
    requires r.pos <= |buf| && r1.pos <= |buf| && n > 0
    requires RdUint(8, buf, r) == (d, r1) && RdDims(buf, r1, n - 1) == (rest, r2)
    ensures RdDims(buf, r, n) == ([d] + rest, r2)
  {
    hide RdUint;
  }

  lemma {:induction false} NoDims(buf: Bytes, r: Rd)
    requires r.pos <= |buf|
    ensures RdDims(buf, r, 0) == ([], r) && EncDims([]) == []
  {}

  lemma {:induction false} TypeFits(t: nat)
    requires Known(t)
    ensures t < Pow256(4) && 4 < Pow256(4)
  {
    assert Pow256(1) == 256 && Pow256(2) == 65536 && Pow256(3) == 16777216 && Pow256(4) == 0x1_0000_0000;
    assert t <= 30 && t < 0x1_0000_0000;
  }

  lemma {:induction false} InfoBack(t: Added, off: nat, buf: Bytes, pos: nat)
    requires Known(t.typ) && Small(t) && off < Pow256(8) && |buf| < Pow256(8) && Holds(buf, pos, EncInfo(t, off))
    ensures RdTensor(buf, Rd(pos, false))
      == (Some(Tensor(t.name, t.dims, t.typ, off)), Rd(pos + |EncInfo(t, off)|, false))
    ensures |EncInfo(t, off)| >= 1
  {
    hide *;
    TypeFits(t.typ);
    SmallDims(t);
    NameFits(t, off, buf, pos);
    SplitInfo(t, off, buf, pos);
    InfoReads(t, off, buf, pos, pos + 8 + |t.name|, pos + 12 + |t.name| + |EncDims(t.dims)|);
  }

  lemma {:induction false} InfoReads(t: Added, off: nat, buf: Bytes, pos: nat, p1: nat, p3: nat)
    requires Known(t.typ) && t.typ < Pow256(4) && |t.name| < Pow256(8) && off < Pow256(8) && 4 < Pow256(4)
    requires |t.dims| <= 4 && forall j :: 0 <= j < |t.dims| ==> t.dims[j] < Pow256(8)
    requires p1 == pos + 8 + |t.name| && p3 == p1 + 4 + |EncDims(t.dims)| && p3 + 12 <= |buf|
    requires Holds(buf, pos, LE(8, |t.name|) + t.name) && Holds(buf, p1, LE(4, |t.dims|))
    requires Holds(buf, p1 + 4, EncDims(t.dims)) && Holds(buf, p3, LE(4, t.typ)) && Holds(buf, p3 + 4, LE(8, off))
    ensures RdTensor(buf, Rd(pos, false)) == (Some(Tensor(t.name, t.dims, t.typ, off)), Rd(p3 + 12, false))
  {
    hide *;
    StrBack(t.name, buf, pos);
    UintBack(4, |t.dims|, buf, p1);
    DimsBack(t.dims, buf, p1 + 4);
    UintBack(4, t.typ, buf, p3);
    UintBack(8, off, buf, p3 + 4);
    TensorFrom(t, off, buf, Rd(pos, false), Rd(p1, false), Rd(p1 + 4, false), Rd(p3, false), Rd(p3 + 4, false),
      Rd(p3 + 12, false));
  }

  lemma {:induction false} SmallDims(t: Added)
    requires Small(t)
    ensures |t.dims| <= 4 && forall j :: 0 <= j < |t.dims| ==> t.dims[j] < Pow256(8)
  {
    hide Pow256;
  }

  lemma {:induction false} NameFits(t: Added, off: nat, buf: Bytes, pos: nat)
    requires |buf| < Pow256(8) && Holds(buf, pos, EncInfo(t, off))
    ensures |t.name| < Pow256(8)
  {
    hide Pow256, LE;
  }

  /** The five parts of a tensor info. */
  lemma {:induction false} SplitInfo(t: Added, off: nat, buf: Bytes, pos: nat)
    requires Holds(buf, pos, EncInfo(t, off))
    ensures var p1 := pos + 8 + |t.name|;
      var p3 := p1 + 4 + |EncDims(t.dims)|;
      && Holds(buf, pos, LE(8, |t.name|) + t.name) && Holds(buf, p1, LE(4, |t.dims|))
      && Holds(buf, p1 + 4, EncDims(t.dims)) && Holds(buf, p3, LE(4, t.typ)) && Holds(buf, p3 + 4, LE(8, off))
      && pos + |EncInfo(t, off)| == p3 + 12 <= |buf|
  {
    hide LE, EncDims;
    var a, b, c, d := LE(8, |t.name|) + t.name, LE(4, |t.dims|), EncDims(t.dims), LE(4, t.typ);
    HoldsInside(buf, pos, EncInfo(t, off));
    hide Holds;
    HoldsSplit(buf, pos, a, b + (c + (d + LE(8, off))));
    HoldsSplit(buf, pos + |a|, b, c + (d + LE(8, off)));
    HoldsSplit(buf, pos + |a| + 4, c, d + LE(8, off));
    HoldsSplit(buf, pos + |a| + 4 + |c|, d, LE(8, off));
  }

  lemma {:induction false} TensorFrom(t: Added, off: nat, buf: Bytes, r0: Rd, r1: Rd, r2: Rd, r3: Rd, r4: Rd, r5: Rd)
    requires r0.pos <= |buf| && r1.pos <= |buf| && r2.pos <= |buf| && r3.pos <= |buf| && r4.pos <= |buf| && !r5.err
    requires RdStr(buf, r0) == (t.name, r1) && RdUint(4, buf, r1) == (|t.dims|, r2) && |t.dims| <= 4
    requires RdDims(buf, r2, |t.dims|) == (t.dims, r3)
    requires RdUint(4, buf, r3) == (t.typ, r4) && RdUint(8, buf, r4) == (off, r5) && Known(t.typ)
    ensures RdTensor(buf, r0) == (Some(Tensor(t.name, t.dims, t.typ, off)), r5)
  {
    hide RdStr, RdUint, RdDims, Known;
  }

  ghost function NamesBefore(ts: seq<Added>, i: nat): set<Bytes>
    requires i <= |ts|
  {
    set j | 0 <= j < i :: ts[j].name
  }

  lemma {:induction false} InfosBack(ts: seq<Added>, a: nat, i: nat, buf: Bytes, pos: nat)
    requires a > 0 && i <= |ts| && |buf| < Pow256(8) && Holds(buf, pos, EncInfos(ts, a, i))
    requires forall j :: 0 <= j < |ts| ==> Known(ts[j].typ) && Small(ts[j]) && OffsetOf(ts, a, j) < Pow256(8)
    requires forall j, k :: 0 <= j < k < |ts| ==> ts[j].name != ts[k].name
    ensures RdTensors(buf, Rd(pos, false), |ts| - i, NamesBefore(ts, i))
         == (Some(InfosOf(ts, a, i)), Rd(pos + |EncInfos(ts, a, i)|, false))
    ensures |EncInfos(ts, a, i)| >= |ts| - i
    decreases |ts| - i
  {
    hide *;
    if i < |ts| {
      var off := OffsetOf(ts, a, i);
      var t := Tensor(ts[i].name, ts[i].dims, ts[i].typ, off);
      var r1, r2 := Rd(pos + |EncInfo(ts[i], off)|, false), Rd(pos + |EncInfos(ts, a, i)|, false);
      InfosStep(ts, a, i, buf, pos);
      InfoBack(ts[i], off, buf, pos);
      InfosBack(ts, a, i + 1, buf, r1.pos);
      NewName(ts, i);
      TensorsNext(buf, Rd(pos, false), |ts| - i, NamesBefore(ts, i), t, r1, InfosOf(ts, a, i + 1), r2);
    } else {
      HoldsInside(buf, pos, EncInfos(ts, a, i));
      NoInfos(ts, a, buf, Rd(pos, false), NamesBefore(ts, i));
    }
  }

  lemma {:induction false} InfosStep(ts: seq<Added>, a: nat, i: nat, buf: Bytes, pos: nat)
    requires a > 0 && i < |ts| && Holds(buf, pos, EncInfos(ts, a, i))
    ensures var off := OffsetOf(ts, a, i);
      && Holds(buf, pos, EncInfo(ts[i], off)) && Holds(buf, pos + |EncInfo(ts[i], off)|, EncInfos(ts, a, i + 1))
      && |EncInfos(ts, a, i)| == |EncInfo(ts[i], off)| + |EncInfos(ts, a, i + 1)| && pos + |EncInfos(ts, a, i)| <= |buf|
      && InfosOf(ts, a, i) == [Tensor(ts[i].name, ts[i].dims, ts[i].typ, off)] + InfosOf(ts, a, i + 1)
  {
    HoldsSplit(buf, pos, EncInfo(ts[i], OffsetOf(ts, a, i)), EncInfos(ts, a, i + 1));
    hide EncInfo, OffsetOf;
  }

  lemma {:induction false} NewName(ts: seq<Added>, i: nat)
    requires i < |ts| && forall j, k :: 0 <= j < k < |ts| ==> ts[j].name != ts[k].name
    ensures NamesBefore(ts, i + 1) == NamesBefore(ts, i) + {ts[i].name} && ts[i].name !in NamesBefore(ts, i)
  {}

  lemma {:induction false} NoInfos(ts: seq<Added>, a: nat, buf: Bytes, r: Rd, seen: set<Bytes>)
    requires a > 0 && r.pos <= |buf|
    ensures RdTensors(buf, r, 0, seen) == (Some([]), r)
    ensures InfosOf(ts, a, |ts|) == [] && EncInfos(ts, a, |ts|) == []
  {}

  /** One more tensor info ahead of the rest. */
  lemma {:induction false} TensorsNext(buf: Bytes, r: Rd, n: nat, seen: set<Bytes>, t: Tensor, r1: Rd,
      rest: seq<Tensor>, r2: Rd)
    requires r.pos <= |buf| && n > 0 && RdTensor(buf, r) == (Some(t), r1) && t.name !in seen && r1.pos <= |buf|
    requires RdTensors(buf, r1, n - 1, seen + {t.name}) == (Some(rest), r2)
    ensures RdTensors(buf, r, n, seen) == (Some([t] + rest), r2)
  {
    hide RdTensor;
  }

  lemma {:induction false} InfosAt(ts: seq<Added>, a: nat, i: nat, j: nat)
    requires a > 0 && i <= j < |ts|
    ensures InfosOf(ts, a, i)[j - i] == Tensor(ts[j].name, ts[j].dims, ts[j].typ, OffsetOf(ts, a, j))
    decreases j - i
  {
    if i < j { InfosAt(ts, a, i + 1, j); }
  }

  /** The map the reader builds from distinct keys is the writer's. */
  lemma {:induction false} MapBack(keys: seq<Bytes>, kv: map<Bytes, Value>, n: nat)
    requires (forall k :: k in keys ==> k in kv) && n <= |keys|
    requires forall i, j :: 0 <= i < j < |keys| ==> keys[i] != keys[j]
    ensures forall k :: k in MapOf(EntriesOf(keys, kv)[..n]) <==> k in keys[..n]
    ensures forall k :: k in keys[..n] ==> MapOf(EntriesOf(keys, kv)[..n])[k] == kv[k]
  {
    if n > 0 {
      MapBack(keys, kv, n - 1);
      var k := keys[n - 1];
      assert EntriesOf(keys, kv)[..n][..n - 1] == EntriesOf(keys, kv)[..n - 1];
      assert keys[..n] == keys[..n - 1] + [k];
      assert MapOf(EntriesOf(keys, kv)[..n]) == MapOf(EntriesOf(keys, kv)[..n - 1])[k := kv[k]];
    }
  }

  lemma {:induction false} WholeMapBack(w: Content)
    requires Consistent(w)
    ensures MapOf(EntriesOf(w.keys, w.kv)) == w.kv && KeysOf(EntriesOf(w.keys, w.kv)) == w.keys
  {
    MapBack(w.keys, w.kv, |w.keys|);
    assert EntriesOf(w.keys, w.kv)[..|w.keys|] == EntriesOf(w.keys, w.kv) && w.keys[..|w.keys|] == w.keys;
  }

  lemma {:induction false} HeaderHolds(w: Content)
    requires w.alignment > 0 && forall k :: k in w.keys ==> k in w.kv
    ensures Holds(FileBytes(w), 0, EncHeader(w))
  {
    var h := EncHeader(w);
    assert FileBytes(w)[0..|h|] == h;
  }

  /** Offsets are smaller than the file. */
  lemma {:induction false} OffsetsFit(w: Content, i: nat)
    requires PowerOfTwo(w.alignment) && (forall k :: k in w.keys ==> k in w.kv) && |FileBytes(w)| < Pow256(8)
    requires i <= |w.tensors|
    ensures OffsetOf(w.tensors, w.alignment, i) < Pow256(8)
  {
    DataLength(w.tensors, w.alignment, |w.tensors|);
    OffsetMonotone(w.tensors, w.alignment, i, |w.tensors|);
  }

  lemma {:induction false} OffsetMonotone(ts: seq<Added>, a: nat, i: nat, j: nat)
    requires PowerOfTwo(a) && i <= j <= |ts|
    ensures OffsetOf(ts, a, i) <= OffsetOf(ts, a, j)
    ensures i < j ==> OffsetOf(ts, a, i) + |ts[i].data| <= OffsetOf(ts, a, j)
    decreases j - i
  {
    if i < j {
      OffsetMonotone(ts, a, i, j - 1);
      AlignUpIs(OffsetOf(ts, a, j - 1) + |ts[j - 1].data|, a);
    }
  }

  lemma {:induction false} CountsBack(w: Content, buf: Bytes)
    requires w.alignment > 0 && (forall k :: k in w.keys ==> k in w.kv) && Holds(buf, 0, EncHeader(w))
    requires |w.tensors| < Pow256(8) && |w.keys| < Pow256(8)
    ensures RdUint(4, buf, Rd(0, false)) == (MAGIC, Rd(4, false)) && RdUint(4, buf, Rd(4, false)) == (3, Rd(8, false))
    ensures RdUint(8, buf, Rd(8, false)) == (|w.tensors|, Rd(16, false))
    ensures RdUint(8, buf, Rd(16, false)) == (|w.keys|, Rd(24, false))
    ensures Holds(buf, 24, EncKVs(w.keys, w.kv))
    ensures Holds(buf, 24 + |EncKVs(w.keys, w.kv)|, EncInfos(w.tensors, w.alignment, 0))
    ensures |EncHeader(w)| == 24 + |EncKVs(w.keys, w.kv)| + |EncInfos(w.tensors, w.alignment, 0)|
  {
    SplitHeader(w, buf);
    MagicFits();
    hide *;
    UintBack(4, MAGIC, buf, 0);
    UintBack(4, 3, buf, 4);
    UintBack(8, |w.tensors|, buf, 8);
    UintBack(8, |w.keys|, buf, 16);
  }

  lemma {:induction false} MagicFits()
    ensures MAGIC < Pow256(4) && 3 < Pow256(4)
  {
    Pow4();
  }

  lemma {:induction false} Pow4()
    ensures Pow256(4) == 0x1_0000_0000
  {
    assert Pow256(1) == 256 && Pow256(2) == 65536 && Pow256(3) == 16777216;
  }

  lemma {:induction false} SplitHeader(w: Content, buf: Bytes)
    requires w.alignment > 0 && (forall k :: k in w.keys ==> k in w.kv) && Holds(buf, 0, EncHeader(w))
    ensures Holds(buf, 0, LE(4, MAGIC)) && Holds(buf, 4, LE(4, 3))
    ensures Holds(buf, 8, LE(8, |w.tensors|)) && Holds(buf, 16, LE(8, |w.keys|))
    ensures Holds(buf, 24, EncKVs(w.keys, w.kv))
    ensures Holds(buf, 24 + |EncKVs(w.keys, w.kv)|, EncInfos(w.tensors, w.alignment, 0))
    ensures |EncHeader(w)| == 24 + |EncKVs(w.keys, w.kv)| + |EncInfos(w.tensors, w.alignment, 0)|
  {
    hide LE, EncKVs, EncInfos, Holds;
    var kvs, infos := EncKVs(w.keys, w.kv), EncInfos(w.tensors, w.alignment, 0);
    var c := LE(8, |w.keys|) + (kvs + infos);
    var b := LE(8, |w.tensors|) + c;
    HoldsSplit(buf, 0, LE(4, MAGIC), LE(4, 3) + b);
    HoldsSplit(buf, 4, LE(4, 3), b);
    HoldsSplit(buf, 8, LE(8, |w.tensors|), c);
    HoldsSplit(buf, 16, LE(8, |w.keys|), kvs + infos);
    HoldsSplit(buf, 24, kvs, infos);
  }

  lemma {:induction false} HeaderBack(w: Content)
    requires Writable(w)
    ensures ParseHeader(FileBytes(w)) == Some(Header(3, w.alignment, EntriesOf(w.keys, w.kv),
                                                     InfosOf(w.tensors, w.alignment, 0), |EncHeader(w)|))
  {
    hide *;
    WritableFacts(w);
    var buf, a := FileBytes(w), w.alignment;
    FrontBack(w);
    HeaderHolds(w);
    forall j | 0 <= j < |w.tensors| ensures OffsetOf(w.tensors, a, j) < Pow256(8) { OffsetsFit(w, j); }
    InfosBack(w.tensors, a, 0, buf, 24 + |EncKVs(w.keys, w.kv)|);
    WholeMapBack(w);
    HeaderLength(w);
    HoldsInside(buf, 0, EncHeader(w));
    var r1 := Rd(24 + |EncKVs(w.keys, w.kv)|, false);
    HeaderFrom(buf, |w.tensors|, |w.keys|, EntriesOf(w.keys, w.kv), r1, InfosOf(w.tensors, a, 0),
      Rd(|EncHeader(w)|, false));
  }

  lemma {:induction false} HeaderLength(w: Content)
    requires w.alignment > 0 && forall k :: k in w.keys ==> k in w.kv
    ensures |EncHeader(w)| == 24 + |EncKVs(w.keys, w.kv)| + |EncInfos(w.tensors, w.alignment, 0)|
  {
    hide EncKVs, EncInfos;
  }

  /** Every count and every entry of the metadata reads back, whatever Parse makes of the rest. */
  lemma {:induction false} FrontBack(w: Content)
    requires Representable(w)
    ensures var buf := FileBytes(w);
      var end := 24 + |EncKVs(w.keys, w.kv)|;
      && |w.tensors| <= |buf| && |w.keys| <= |buf| && 24 <= |buf| && end <= |buf|
      && RdUint(4, buf, Rd(0, false)) == (MAGIC, Rd(4, false)) && RdUint(4, buf, Rd(4, false)) == (3, Rd(8, false))
      && RdUint(8, buf, Rd(8, false)) == (|w.tensors|, Rd(16, false))
      && RdUint(8, buf, Rd(16, false)) == (|w.keys|, Rd(24, false))
      && RdKVs(buf, Rd(24, false), |w.keys|) == (Some(EntriesOf(w.keys, w.kv)), Rd(end, false))
      && Holds(buf, end, EncInfos(w.tensors, w.alignment, 0))
  {
    hide *;
    RepresentableFacts(w);
    var buf := FileBytes(w);
    HeaderHolds(w);
    HeaderCounts(w);
    CountsBack(w, buf);
    KVsBack(w.keys, w.kv, buf, 24);
    HoldsInside(buf, 24, EncKVs(w.keys, w.kv));
  }

  lemma {:induction false} RepresentableFacts(w: Content)
    requires Representable(w)
    ensures Consistent(w) && w.alignment > 0 && w.alignment == AlignmentOf(w.kv)
    ensures forall k :: k in w.keys ==> k in w.kv && WellTyped(w.kv[k])
    ensures forall i :: 0 <= i < |w.tensors| ==> Known(w.tensors[i].typ) && DimsFit(w.tensors[i])
    ensures |FileBytes(w)| < Pow256(8) && NamesBefore(w.tensors, 0) == {}
  {
    forall i | 0 <= i < |w.tensors| ensures Known(w.tensors[i].typ) { assert Fitting(w.tensors[i]); }
    hide FileBytes, Pow256, WellTyped, DimsFit, AlignmentOf;
  }

  lemma {:induction false} HoldsInside(buf: Bytes, pos: nat, b: Bytes)
    requires Holds(buf, pos, b)
    ensures pos + |b| <= |buf|
  {}

  lemma {:induction false} WritableFacts(w: Content)
    requires Writable(w)
    ensures Representable(w) && Consistent(w) && PowerOfTwo(w.alignment) && w.alignment > 0
      && w.alignment == AlignmentOf(w.kv)
    ensures forall k :: k in w.keys ==> k in w.kv && WellTyped(w.kv[k])
    ensures forall i :: 0 <= i < |w.tensors| ==> Known(w.tensors[i].typ) && Small(w.tensors[i])
    ensures forall i, j :: 0 <= i < j < |w.tensors| ==> w.tensors[i].name != w.tensors[j].name
    ensures |FileBytes(w)| < Pow256(8) && NamesBefore(w.tensors, 0) == {}
  {
    RepresentableFacts(w);
    hide FileBytes, Pow256, WellTyped, AlignmentOf, Consistent, NamesBefore;
  }

  /** A header whose parts read back. */
  lemma {:induction false} HeaderFrom(buf: Bytes, nT: nat, nKV: nat, es: seq<Entry>, r1: Rd, ts: seq<Tensor>, r2: Rd)
    requires 24 <= |buf| && r1.pos <= |buf| && nT <= |buf| && nKV <= |buf| && !r1.err && !r2.err
    requires RdUint(4, buf, Rd(0, false)) == (MAGIC, Rd(4, false)) && RdUint(4, buf, Rd(4, false)) == (3, Rd(8, false))
    requires RdUint(8, buf, Rd(8, false)) == (nT, Rd(16, false))
      && RdUint(8, buf, Rd(16, false)) == (nKV, Rd(24, false))
    requires RdKVs(buf, Rd(24, false), nKV) == (Some(es), r1)
    requires PowerOfTwo(AlignmentOf(MapOf(es)))
    requires RdTensors(buf, r1, nT, {}) == (Some(ts), r2)
    ensures ParseHeader(buf) == Some(Header(3, AlignmentOf(MapOf(es)), es, ts, r2.pos))
  {
    PowerTest(AlignmentOf(MapOf(es)));
    hide RdUint, RdKVs, RdTensors, MapOf, And, AlignmentOf;
  }

  /** The counts fit 64 bits because the file does. */
  lemma {:induction false} HeaderCounts(w: Content)
    requires w.alignment > 0 && (forall k :: k in w.keys ==> k in w.kv && WellTyped(w.kv[k]))
      && |FileBytes(w)| < Pow256(8)
    ensures |w.tensors| <= |FileBytes(w)| && |w.keys| <= |FileBytes(w)|
  {
    KVsLength(w.keys, w.kv);
    InfosLength(w.tensors, w.alignment, 0);
    hide LE, EncKVs, EncInfos;
  }

  lemma {:induction false} KVsLength(keys: seq<Bytes>, kv: map<Bytes, Value>)
    requires forall k :: k in keys ==> k in kv
    ensures |EncKVs(keys, kv)| >= |keys|
  {
    if keys != [] { KVsLength(keys[1..], kv); }
  }

  lemma {:induction false} InfosLength(ts: seq<Added>, a: nat, i: nat)
    requires a > 0 && i <= |ts|
    ensures |EncInfos(ts, a, i)| >= |ts| - i
    decreases |ts| - i
  {
    if i < |ts| { InfosLength(ts, a, i + 1); }
  }

  // ---- the data

  lemma {:induction false} CheckPasses(w: Content, i: nat, dataOffset: nat, size: nat)
    requires Writable(w) && i <= |w.tensors|
    requires dataOffset + OffsetOf(w.tensors, w.alignment, |w.tensors|) <= size
    ensures forall j :: 0 <= j < |w.tensors| ==> Known(InfosOf(w.tensors, w.alignment, 0)[j].typ)
    ensures Check(InfosOf(w.tensors, w.alignment, 0), i, dataOffset, w.alignment, size).Ok?
    decreases |w.tensors| - i
  {
    hide *;
    WritableFacts(w);
    var ts, a := w.tensors, w.alignment;
    var infos := InfosOf(ts, a, 0);
    forall j | 0 <= j < |ts| ensures Known(infos[j].typ) { InfosAt(ts, a, 0, j); }
    if i < |ts| {
      InfosAt(ts, a, 0, i);
      OffsetAligned(ts, a, i);
      AlignedMeans(OffsetOf(ts, a, i), a);
      OffsetMonotone(ts, a, i, |ts|);
      WritableTensor(w, i);
      FittingSize(ts[i]);
      CheckPasses(w, i + 1, dataOffset, size);
      CheckNext(infos, i, dataOffset, a, size);
    } else {
      CheckDone(infos, i, dataOffset, a, size);
    }
  }

  lemma {:induction false} AlignedMeans(x: nat, a: nat)
    requires Aligned(x, a)
    ensures a > 0 && x % a == 0
  {}

  lemma {:induction false} FittingSize(t: Added)
    requires Fitting(t)
    ensures Known(t.typ) && |t.dims| > 0 && t.dims[0] > 0 && |t.data| == TensorBytes(t.dims, t.typ)
  {}

  lemma {:induction false} CheckNext(ts: seq<Tensor>, i: nat, dataOffset: nat, a: nat, size: nat)
    requires i < |ts| && a > 0 && (forall j :: 0 <= j < |ts| ==> Known(ts[j].typ)) && |ts[i].dims| > 0
      && ts[i].dims[0] > 0
    requires ts[i].offset % a == 0 && dataOffset + ts[i].offset + TensorBytes(ts[i].dims, ts[i].typ) <= size
    requires Check(ts, i + 1, dataOffset, a, size).Ok?
    ensures Check(ts, i, dataOffset, a, size).Ok?
  {
    hide TensorBytes, TypeInfo;
  }

  lemma {:induction false} CheckDone(ts: seq<Tensor>, i: nat, dataOffset: nat, a: nat, size: nat)
    requires i == |ts| && a > 0 && forall j :: 0 <= j < |ts| ==> Known(ts[j].typ)
    ensures Check(ts, i, dataOffset, a, size).Ok?
  {}

  /** Where the data of the file starts. */
  lemma {:induction false} DataStart(w: Content)
    requires Writable(w)
    ensures var d := AlignUp(|EncHeader(w)|, w.alignment);
      && d + OffsetOf(w.tensors, w.alignment, |w.tensors|) == |FileBytes(w)|
      && forall i :: 0 <= i < |w.tensors| ==>
        Holds(FileBytes(w), d + OffsetOf(w.tensors, w.alignment, i), w.tensors[i].data)
  {
    hide *;
    WritableFacts(w);
    var h, a := EncHeader(w), w.alignment;
    PadIs(|h|, a);
    DataLength(w.tensors, a, |w.tensors|);
    FileIs(w);
    var front, data := h + Zeros(PadLength(|h|, a)), EncData(w.tensors, a, |w.tensors|);
    forall i | 0 <= i < |w.tensors|
      ensures Holds(FileBytes(w), AlignUp(|h|, a) + OffsetOf(w.tensors, a, i), w.tensors[i].data)
    {
      DataAt(w.tensors, a, |w.tensors|, i);
      HoldsBehind(front, data, OffsetOf(w.tensors, a, i), w.tensors[i].data);
    }
  }

  lemma {:induction false} FileIs(w: Content)
    requires w.alignment > 0 && forall k :: k in w.keys ==> k in w.kv
    ensures var h := EncHeader(w);
      FileBytes(w) == (h + Zeros(PadLength(|h|, w.alignment))) + EncData(w.tensors, w.alignment, |w.tensors|)
  {}

  lemma {:induction false} HoldsBehind(x: Bytes, y: Bytes, pos: nat, b: Bytes)
    requires Holds(y, pos, b)
    ensures Holds(x + y, |x| + pos, b)
  {
    assert (x + y)[|x| + pos..|x| + pos + |b|] == y[pos..pos + |b|];
  }

  /** What was written is read back: keys in order, every nested value, the alignment, every
      tensor's name, dimensions, type and exact bytes. */
  lemma {:induction false} ParseUndoesWrite(w: Content)
    requires Writable(w)
    ensures var p := ParseOf(FileBytes(w));
      p.Ok? && p.f.version == 3 && p.f.keys == w.keys && p.f.kv == w.kv && p.f.alignment == w.alignment
      && |p.f.tensors| == |w.tensors|
      && forall i :: 0 <= i < |w.tensors| ==> SameTensor(FileBytes(w), p.f, i, w.tensors[i])
  {
    hide *;
    WritableFacts(w);
    var buf, a := FileBytes(w), w.alignment;
    var h, infos := EncHeader(w), InfosOf(w.tensors, a, 0);
    HeaderBack(w);
    DataStart(w);
    WholeMapBack(w);
    CheckPasses(w, 0, AlignUp(|h|, a), |buf|);
    ParseFrom(buf, Header(3, a, EntriesOf(w.keys, w.kv), infos, |h|));
    var f := File(3, a, w.keys, w.kv, infos, AlignUp(|h|, a));
    forall i | 0 <= i < |w.tensors| ensures SameTensor(buf, f, i, w.tensors[i]) {
      InfosAt(w.tensors, a, 0, i);
      WritableTensor(w, i);
      TensorFound(buf, f, i, w.tensors[i], OffsetOf(w.tensors, a, i));
    }
  }

  lemma {:induction false} ParseFrom(buf: Bytes, h: Header)
    requires ParseHeader(buf) == Some(h) && h.alignment > 0
    requires forall j :: 0 <= j < |h.tensors| ==> Known(h.tensors[j].typ)
    requires Check(h.tensors, 0, AlignUp(h.end, h.alignment), h.alignment, |buf|).Ok?
    ensures ParseOf(buf)
         == Ok(File(h.version, h.alignment, KeysOf(h.es), MapOf(h.es), h.tensors, AlignUp(h.end, h.alignment)))
  {
    hide ParseHeader, Check, AlignUp, MapOf, KeysOf;
  }

  lemma {:induction false} TensorFound(buf: Bytes, f: File, i: nat, t: Added, off: nat)
    requires i < |f.tensors| && f.tensors[i] == Tensor(t.name, t.dims, t.typ, off) && Fitting(t)
    requires Holds(buf, f.dataOffset + off, t.data)
    ensures SameTensor(buf, f, i, t)
  {
    hide TensorBytes, TypeInfo;
  }

  lemma {:induction false} WritableTensor(w: Content, i: nat)
    requires Writable(w) && i < |w.tensors|
    ensures Fitting(w.tensors[i]) && w.tensors[i].dims[0] > 0
  {}

  // ---- which files Parse accepts

  /** Tensor info i is one Parse refuses: too many dimensions, or a name that was there before. */
  ghost predicate BadInfo(ts: seq<Added>, i: nat) {
    i < |ts| && (|ts[i].dims| > 4 || ts[i].name in NamesBefore(ts, i))
  }

  /** The infos before the first bad one read back, and it stops the reader. */
  lemma {:induction false} InfosStop(ts: seq<Added>, a: nat, i: nat, b: nat, buf: Bytes, pos: nat)
    requires a > 0 && i <= b && BadInfo(ts, b) && |buf| < Pow256(8) && Holds(buf, pos, EncInfos(ts, a, i))
    requires forall j :: 0 <= j < |ts| ==> Known(ts[j].typ) && DimsFit(ts[j]) && OffsetOf(ts, a, j) < Pow256(8)
    requires forall j :: 0 <= j < b ==> !BadInfo(ts, j)
    ensures pos <= |buf| && RdTensors(buf, Rd(pos, false), |ts| - i, NamesBefore(ts, i)).0.None?
    decreases b - i
  {
    hide *;
    StopFacts(ts, i, b);
    var off := OffsetOf(ts, a, i);
    var r1 := Rd(pos + |EncInfo(ts[i], off)|, false);
    var t := Tensor(ts[i].name, ts[i].dims, ts[i].typ, off);
    InfosStep(ts, a, i, buf, pos);
    HoldsInside(buf, pos, EncInfos(ts, a, i));
    if |ts[i].dims| > 4 {
      ManyDims(ts[i], off, buf, pos);
      StopHere(buf, Rd(pos, false), |ts| - i, NamesBefore(ts, i));
    } else {
      InfoBack(ts[i], off, buf, pos);
      if i == b {
        StopHere(buf, Rd(pos, false), |ts| - i, NamesBefore(ts, i));
      } else {
        InfosStop(ts, a, i + 1, b, buf, r1.pos);
        StopLater(buf, Rd(pos, false), |ts| - i, NamesBefore(ts, i), t, r1);
      }
    }
  }

  lemma {:induction false} StopFacts(ts: seq<Added>, i: nat, b: nat)
    requires i <= b && BadInfo(ts, b) && (forall j :: 0 <= j < |ts| ==> DimsFit(ts[j])) && forall j :: 0 <= j < b ==>
      !BadInfo(ts, j)
    ensures i <= b < |ts| && (|ts[i].dims| <= 4 ==> Small(ts[i]))
    ensures i < b ==> |ts[i].dims| <= 4 && ts[i].name !in NamesBefore(ts, i)
    ensures i == b ==> |ts[i].dims| > 4 || ts[i].name in NamesBefore(ts, i)
    ensures NamesBefore(ts, i + 1) == NamesBefore(ts, i) + {ts[i].name}
  {
    assert DimsFit(ts[i]) && (i < b ==> !BadInfo(ts, i));
  }

  lemma {:induction false} StopHere(buf: Bytes, r: Rd, n: nat, seen: set<Bytes>)
    requires r.pos <= |buf| && n > 0 && (RdTensor(buf, r).0.None? || RdTensor(buf, r).0.value.name in seen)
    ensures RdTensors(buf, r, n, seen).0.None?
  {
    hide RdTensor;
  }

  lemma {:induction false} StopLater(buf: Bytes, r: Rd, n: nat, seen: set<Bytes>, t: Tensor, r1: Rd)
    requires r.pos <= |buf| && r1.pos <= |buf| && n > 0 && RdTensor(buf, r) == (Some(t), r1)
    requires RdTensors(buf, r1, n - 1, seen + {t.name}).0.None?
    ensures RdTensors(buf, r, n, seen).0.None?
  {
    hide RdTensor;
  }

  lemma {:induction false} ManyDims(t: Added, off: nat, buf: Bytes, pos: nat)
    requires DimsFit(t) && |t.dims| > 4 && |buf| < Pow256(8) && Holds(buf, pos, EncInfo(t, off))
    ensures pos <= |buf| && RdTensor(buf, Rd(pos, false)).0.None?
  {
    var a, b, c := LE(8, |t.name|) + t.name, LE(4, |t.dims|), EncDims(t.dims) + (LE(4, t.typ) + LE(8, off));
    HoldsSplit(buf, pos, a, b + c);
    HoldsSplit(buf, pos + |a|, b, c);
    hide Pow256, RdStr, RdUint, RdDims, LE;
    StrBack(t.name, buf, pos);
    UintBack(4, |t.dims|, buf, pos + |a|);
  }

  /** If any info is bad, there is a first one. */
  lemma {:induction false} FirstBad(ts: seq<Added>, n: nat)
    requires n <= |ts|
    ensures (forall j :: 0 <= j < n ==> !BadInfo(ts, j))
      || exists b: nat :: BadInfo(ts, b) && forall j :: 0 <= j < b ==> !BadInfo(ts, j)
  {
    if n > 0 {
      FirstBad(ts, n - 1);
      if BadInfo(ts, n - 1) && forall j :: 0 <= j < n - 1 ==> !BadInfo(ts, j) { assert BadInfo(ts, n - 1); }
    }
  }

  lemma {:induction false} NoneBad(w: Content)
    requires PowerOfTwo(w.alignment) && forall j :: 0 <= j < |w.tensors| ==> !BadInfo(w.tensors, j)
    ensures Acceptable(w)
  {
    forall i | 0 <= i < |w.tensors| ensures |w.tensors[i].dims| <= 4 { assert !BadInfo(w.tensors, i); }
    forall i, j | 0 <= i < j < |w.tensors| ensures w.tensors[i].name != w.tensors[j].name {
      assert !BadInfo(w.tensors, j) && w.tensors[i].name in NamesBefore(w.tensors, j);
    }
  }

  lemma {:induction false} BadAlignment(buf: Bytes, nT: nat, nKV: nat, es: seq<Entry>, r1: Rd)
    requires 24 <= |buf| && r1.pos <= |buf| && nT <= |buf| && nKV <= |buf| && !r1.err
    requires RdUint(4, buf, Rd(0, false)) == (MAGIC, Rd(4, false)) && RdUint(4, buf, Rd(4, false)) == (3, Rd(8, false))
    requires RdUint(8, buf, Rd(8, false)) == (nT, Rd(16, false))
      && RdUint(8, buf, Rd(16, false)) == (nKV, Rd(24, false))
    requires RdKVs(buf, Rd(24, false), nKV) == (Some(es), r1)
    requires AlignmentOf(MapOf(es)) > 0
    requires !PowerOfTwo(AlignmentOf(MapOf(es))) || RdTensors(buf, r1, nT, {}).0.None?
    ensures ParseOf(buf) == Err
  {
    PowerTest(AlignmentOf(MapOf(es)));
    hide RdUint, RdKVs, RdTensors, MapOf, And, AlignmentOf;
  }

  /** Parse accepts a written file exactly when its alignment is a power of two, no tensor has
      more than four dimensions and no two have one name; otherwise it reports an error. */
  lemma {:induction false} ParsesExactly(w: Content)
    requires Representable(w)
    ensures ParseOf(FileBytes(w)).Ok? <==> Acceptable(w)
    ensures !Acceptable(w) ==> ParseOf(FileBytes(w)) == Err
  {
    hide *;
    if Acceptable(w) {
      BothMakeWritable(w);
      ParseUndoesWrite(w);
    } else {
      RepresentableFacts(w);
      var buf, a := FileBytes(w), w.alignment;
      FrontBack(w);
      WholeMapBack(w);
      var end := 24 + |EncKVs(w.keys, w.kv)|;
      if PowerOfTwo(a) {
        FirstBad(w.tensors, |w.tensors|);
        SomeBad(w);
        var b: nat :| BadInfo(w.tensors, b) && forall j :: 0 <= j < b ==> !BadInfo(w.tensors, j);
        forall j | 0 <= j < |w.tensors| ensures OffsetOf(w.tensors, a, j) < Pow256(8) { OffsetsFit(w, j); }
        InfosStop(w.tensors, a, 0, b, buf, end);
      }
      BadAlignment(buf, |w.tensors|, |w.keys|, EntriesOf(w.keys, w.kv), Rd(end, false));
    }
  }

  lemma {:induction false} BothMakeWritable(w: Content)
    requires Representable(w) && Acceptable(w)
    ensures Writable(w)
  {}

  lemma {:induction false} SomeBad(w: Content)
    requires PowerOfTwo(w.alignment) && !Acceptable(w)
    ensures !(forall j :: 0 <= j < |w.tensors| ==> !BadInfo(w.tensors, j))
  {
    if forall j :: 0 <= j < |w.tensors| ==> !BadInfo(w.tensors, j) { NoneBad(w); }
  }

  // ---- which files come back

  /** p is w: its keys in order, its values, its alignment and its tensors with their bytes. */
  ghost predicate GivesBack(w: Content, p: Parsed)
    requires w.alignment > 0 && forall k :: k in w.keys ==> k in w.kv
  {
    && p.Ok? && p.f.keys == w.keys && p.f.kv == w.kv && p.f.alignment == w.alignment && |p.f.tensors| == |w.tensors|
    && forall i :: 0 <= i < |w.tensors| ==> SameTensor(FileBytes(w), p.f, i, w.tensors[i])
  }

  lemma {:induction false} KVsYield(buf: Bytes, r: Rd, n: nat)
    requires r.pos <= |buf| && RdKVs(buf, r, n).0.Some?
    ensures var es := RdKVs(buf, r, n).0.value; forall i :: 0 <= i < |es| ==> WellTyped(es[i].1)
    decreases n
  {
    hide RdStr, RdValue, WellTyped;
    if n > 0 {
      var key := RdStr(buf, r);
      ValueYields(buf, key.1);
      KVsYield(buf, RdValue(buf, key.1).1, n - 1);
    }
  }

  lemma {:induction false} ValueYields(buf: Bytes, r: Rd)
    requires r.pos <= |buf|
    ensures RdValue(buf, r).0.Some? ==> WellTyped(RdValue(buf, r).0.value)
  {
    hide RdTyped, WellTyped, Code;
    if RdValue(buf, r).0.Some? {
      var t := RdUint(4, buf, r);
      TypedYields(buf, t.1, t.0);
    }
  }

  lemma {:induction false} MapYields(es: seq<Entry>)
    requires forall i :: 0 <= i < |es| ==> WellTyped(es[i].1)
    ensures AllTyped(MapOf(es))
  {
    hide WellTyped;
    if es != [] { MapYields(es[..|es| - 1]); }
  }

  /** Whatever the bytes, the metadata of a parsed file are well typed. */
  lemma {:induction false} ParseYields(data: Bytes)
    requires ParseOf(data).Ok?
    ensures AllTyped(ParseOf(data).f.kv)
  {
    var nKV := Counts(data);
    var es := ParseHeader(data).value.es;
    hide RdUint, RdKVs, RdTensors, MapOf, KeysOf, Check, AlignUp, ParseHeader, AllTyped, WellTyped;
    KVsYield(data, nKV.1, nKV.0);
    MapYields(es);
  }

  /** The number of metadata entries, and where they start. */
  ghost function Counts(data: Bytes): (p: (nat, Rd))
    ensures p.1.pos <= |data|
    ensures ParseHeader(data).Some? ==> RdKVs(data, p.1, p.0).0 == Some(ParseHeader(data).value.es)
  {
    hide RdUint, RdKVs, RdTensors, MapOf, And, AlignmentOf;
    var m := RdUint(4, data, Rd(0, false));
    var version := RdUint(4, data, m.1);
    var nT := RdUint(8, data, version.1);
    RdUint(8, data, nT.1)
  }

  /** A written file comes back exactly when Parse accepts its layout and no value is at odds
      with its type. */
  lemma {:induction false} RoundTripExactly(w: Content)
    requires Encodable(w)
    ensures GivesBack(w, ParseOf(FileBytes(w))) <==> Acceptable(w) && AllTyped(w.kv)
  {
    hide *;
    EncodableFacts(w);
    if AllTyped(w.kv) {
      BothMakeRepresentable(w);
      ParsesExactly(w);
      if Acceptable(w) {
        BothMakeWritable(w);
        ParseUndoesWrite(w);
        BackMeans(w);
      } else {
        NotBack(w);
      }
    } else {
      if ParseOf(FileBytes(w)).Ok? { ParseYields(FileBytes(w)); }
      NotBack(w);
    }
  }

  lemma {:induction false} EncodableFacts(w: Content)
    requires Encodable(w)
    ensures w.alignment > 0 && forall k :: k in w.keys ==> k in w.kv
  {}

  lemma {:induction false} BothMakeRepresentable(w: Content)
    requires Encodable(w) && AllTyped(w.kv)
    ensures Representable(w)
  {}

  lemma {:induction false} BackMeans(w: Content)
    requires w.alignment > 0 && forall k :: k in w.keys ==> k in w.kv
    requires var p := ParseOf(FileBytes(w));
      && p.Ok? && p.f.keys == w.keys && p.f.kv == w.kv && p.f.alignment == w.alignment && |p.f.tensors| == |w.tensors|
      && forall i :: 0 <= i < |w.tensors| ==> SameTensor(FileBytes(w), p.f, i, w.tensors[i])
    ensures GivesBack(w, ParseOf(FileBytes(w)))
  {
    hide FileBytes, ParseOf, SameTensor;
  }

  lemma {:induction false} NotBack(w: Content)
    requires w.alignment > 0 && forall k :: k in w.keys ==> k in w.kv
    requires !ParseOf(FileBytes(w)).Ok? || ParseOf(FileBytes(w)).f.kv != w.kv
    ensures !GivesBack(w, ParseOf(FileBytes(w)))
  {
    hide FileBytes, ParseOf, SameTensor;
  }

  /** Key k with an array of the byte 1 and the string ab. */
  function Mixed(): (w: Content)
    ensures w.alignment > 0 && forall k :: k in w.keys ==> k in w.kv
  {
    Content([[107]], map[[107] := Arr(0, [UInt(1, 1), Str([97, 98])])], [], 32)
  }

  lemma {:induction false} MixedArrayLost()
    ensures !GivesBack(Mixed(), ParseOf(FileBytes(Mixed())))
  {
    assert !WellTyped(Mixed().kv[[107]]) by { assert Code(Mixed().kv[[107]].vs[1]) == STRING; }
    hide FileBytes, ParseOf, SameTensor;
    if ParseOf(FileBytes(Mixed())).Ok? { ParseYields(FileBytes(Mixed())); }
  }

  ghost predicate SameTensor(data: Bytes, f: File, i: nat, t: Added) {
    && i < |f.tensors| && f.tensors[i].name == t.name && f.tensors[i].dims == t.dims && f.tensors[i].typ == t.typ
    && Known(t.typ) && (|t.dims| > 0 ==> t.dims[0] > 0) && DataOf(data, f, i) == t.data
  }
}
