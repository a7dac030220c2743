/** The single writes WriteTo makes, in order, and that together they are the file. */
module GgufChunks {
  import opened Wrappers
  import opened GgufCodec
  import opened GgufFile
  import opened GgufRoundTrip
  import opened Buffered

  /** The writer knows the type of the value and of every value inside it. */
  predicate Storable(v: Value) {
    match v
    case Unknown(_, _) => false
    case Arr(_, vs) => forall i :: 0 <= i < |vs| ==> Storable(vs[i])
    case _ => true
  }

  // ---- values

  /** A string, as its length and its bytes. */
  function StrChunks(s: Bytes): seq<Chunk> { [Put(LE(8, |s|)), Put(s)] }

  function ValueChunks(v: Value): seq<Chunk> {
    match v
    case UInt(size, n) => [Put(LE(size, n))]
    case SInt(size, i) => [Put(LE(size, Unsigned(size, i)))]
    case Float(size, bits) => [Put(LE(size, bits))]
    case Bool(b) => [Put([if b then 1 else 0])]
    case Str(s) => StrChunks(s)
    case Arr(elem, vs) => [Put(LE(4, elem)), Put(LE(8, |vs|))] + ElemChunks(vs, |vs|)
    case Unknown(_, _) => [Unwritable]
  }

  function ElemChunks(vs: seq<Value>, n: nat): seq<Chunk>
    requires n <= |vs|
    decreases vs, n
  {
    if n == 0 then [] else ElemChunks(vs, n - 1) + ValueChunks(vs[n - 1])
  }

  lemma {:induction false} WritesConcat(a: seq<Chunk>, b: seq<Chunk>)
    ensures Writes(a + b) <==> Writes(a) && Writes(b)
    ensures Joined(a + b) == Joined(a) + Joined(b)
  {
    JoinedConcat(a, b);
    hide Joined;
    if Writes(a + b) {
      forall i | 0 <= i < |a| ensures a[i].Put? { assert (a + b)[i] == a[i]; }
      forall i | 0 <= i < |b| ensures b[i].Put? { assert (a + b)[|a| + i] == b[i]; }
    }
  }

  lemma {:induction false} WritesOne(b: Bytes)
    ensures Joined([Put(b)]) == b && Writes([Put(b)])
  {
    JoinedOne(Put(b));
    hide Joined;
  }

  lemma {:induction false} TwoPuts(a: Bytes, b: Bytes)
    ensures Joined([Put(a)]) == a && Joined([Put(a), Put(b)]) == a + b && Writes([Put(a), Put(b)])
  {
    assert [Put(a), Put(b)] == [Put(a)] + [Put(b)];
    JoinedConcat([Put(a)], [Put(b)]);
    JoinedOne(Put(a));
    JoinedOne(Put(b));
  }

  /** The writes of a value are its encoding, and all are made unless its type is unknown. */
  lemma {:induction false} ValueWritten(v: Value)
    ensures Joined(ValueChunks(v)) == Enc(v) && (Writes(ValueChunks(v)) <==> Storable(v))
    decreases v, 1, 0
  {
    match v
    case Arr(_, _) => ArrWritten(v);
    case Str(s) => TwoPuts(LE(8, |s|), s);
    case Unknown(_, _) => JoinedOne(Unwritable);
    case _ =>
      assert |ValueChunks(v)| == 1;
      JoinedOne(ValueChunks(v)[0]);
  }

  lemma {:induction false} ArrWritten(v: Value)
    requires v.Arr?
    ensures Joined(ValueChunks(v)) == Enc(v) && (Writes(ValueChunks(v)) <==> Storable(v))
    decreases v, 0, |v.vs| + 1
  {
    var vs := v.vs;
    var front := [Put(LE(4, v.elem)), Put(LE(8, |vs|))];
    TwoPuts(LE(4, v.elem), LE(8, |vs|));
    WritesConcat(front, ElemChunks(vs, |vs|));
    ElemsWritten(v, vs, |vs|);
    assert vs[..|vs|] == vs;
    hide Joined, Writes, LE, EncAll, ElemChunks;
  }

  lemma {:induction false} ElemsWritten(v: Value, vs: seq<Value>, n: nat)
    requires v.Arr? && v.vs == vs && n <= |vs|
    ensures Joined(ElemChunks(vs, n)) == EncAll(vs[..n])
    ensures Writes(ElemChunks(vs, n)) <==> forall i :: 0 <= i < n ==> Storable(vs[i])
    decreases v, 0, n
  {
    hide Enc, ValueChunks, Writes, Joined, Storable;
    if n > 0 {
      ElemsWritten(v, vs, n - 1);
      ValueWritten(vs[n - 1]);
      WritesConcat(ElemChunks(vs, n - 1), ValueChunks(vs[n - 1]));
      EncAllNext(vs, n - 1);
    } else {
      NothingWritten();
      assert vs[..0] == [];
    }
  }

  lemma {:induction false} NothingWritten()
    ensures Joined([]) == [] && Writes([]) && EncAll([]) == []
  {}

  lemma {:induction false} EncAllConcat(a: seq<Value>, b: seq<Value>)
    ensures EncAll(a + b) == EncAll(a) + EncAll(b)
  {
    hide *;
    if a == [] {
      assert a + b == b;
      EncAllNone();
    } else {
      EncAllConcat(a[1..], b);
      assert (a + b)[1..] == a[1..] + b;
      EncAllFirst(a);
      EncAllFirst(a + b);
      assert Enc(a[0]) + (EncAll(a[1..]) + EncAll(b)) == Enc(a[0]) + EncAll(a[1..]) + EncAll(b);
    }
  }

  lemma {:induction false} EncAllNone()
    ensures EncAll([]) == [] && forall b: Bytes :: [] + b == b
  {}

  lemma {:induction false} EncAllFirst(vs: seq<Value>)
    requires vs != []
    ensures EncAll(vs) == Enc(vs[0]) + EncAll(vs[1..])
  {
    hide Enc;
  }

  lemma {:induction false} EncAllNext(vs: seq<Value>, i: nat)
    requires i < |vs|
    ensures EncAll(vs[..i + 1]) == EncAll(vs[..i]) + Enc(vs[i])
  {
    assert vs[..i + 1] == vs[..i] + [vs[i]];
    EncAllConcat(vs[..i], [vs[i]]);
    assert [vs[i]][1..] == [];
  }

  // ---- metadata

  function KVChunks(k: Bytes, v: Value): seq<Chunk> { StrChunks(k) + ([Put(LE(4, Code(v)))] + ValueChunks(v)) }

  function KVsChunks(keys: seq<Bytes>, kv: map<Bytes, Value>, n: nat): seq<Chunk>
    requires (forall k :: k in keys ==> k in kv) && n <= |keys|
  {
    if n == 0 then [] else KVsChunks(keys, kv, n - 1) + KVChunks(keys[n - 1], kv[keys[n - 1]])
  }

  lemma {:induction false} KVWritten(k: Bytes, v: Value)
    ensures Joined(KVChunks(k, v)) == EncKV(k, v) && (Writes(KVChunks(k, v)) <==> Storable(v))
  {
    var code := [Put(LE(4, Code(v)))];
    TwoPuts(LE(8, |k|), k);
    hide *;
    ValueWritten(v);
    WritesOne(LE(4, Code(v)));
    WritesConcat(code, ValueChunks(v));
    KVIsChunks(k, v);
    WritesConcat(StrChunks(k), code + ValueChunks(v));
  }

  lemma {:induction false} KVIsChunks(k: Bytes, v: Value)
    ensures KVChunks(k, v) == StrChunks(k) + ([Put(LE(4, Code(v)))] + ValueChunks(v))
    ensures EncKV(k, v) == LE(8, |k|) + k + (LE(4, Code(v)) + Enc(v)) && StrChunks(k) == [Put(LE(8, |k|)), Put(k)]
  {
    hide LE, Code, ValueChunks, Enc;
  }

  lemma {:induction false} KVsWritten(keys: seq<Bytes>, kv: map<Bytes, Value>, n: nat)
    requires (forall k :: k in keys ==> k in kv) && n <= |keys|
    ensures Joined(KVsChunks(keys, kv, n)) == EncKVs(keys[..n], kv)
    ensures Writes(KVsChunks(keys, kv, n)) <==> forall k :: k in keys[..n] ==> Storable(kv[k])
  {
    hide Joined, Writes, KVChunks, EncKV, Storable;
    if n > 0 {
      KVsWritten(keys, kv, n - 1);
      KVWritten(keys[n - 1], kv[keys[n - 1]]);
      WritesConcat(KVsChunks(keys, kv, n - 1), KVChunks(keys[n - 1], kv[keys[n - 1]]));
      KVsNextKey(keys, kv, n - 1);
      assert keys[..n] == keys[..n - 1] + [keys[n - 1]];
    } else {
      NothingWritten();
      assert keys[..0] == [];
    }
  }

  lemma {:induction false} KVsNextKey(keys: seq<Bytes>, kv: map<Bytes, Value>, i: nat)
    requires (forall k :: k in keys ==> k in kv) && i < |keys|
    ensures EncKVs(keys[..i + 1], kv) == EncKVs(keys[..i], kv) + EncKV(keys[i], kv[keys[i]])
  {
    hide EncKV;
    if i == 0 {
      assert keys[..1][1..] == [] && keys[..0] == [];
    } else {
      KVsNextKey(keys[1..], kv, i - 1);
      assert keys[..i + 1][1..] == keys[1..][..i] && keys[..i][1..] == keys[1..][..i - 1];
    }
  }

  // ---- tensor infos

  function DimChunks(dims: seq<nat>, n: nat): seq<Chunk>
    requires n <= |dims|
  {
    if n == 0 then [] else DimChunks(dims, n - 1) + [Put(LE(8, dims[n - 1]))]
  }

  function InfoChunks(t: Added, off: nat): seq<Chunk> {
    StrChunks(t.name) + ([Put(LE(4, |t.dims|))] + (DimChunks(t.dims, |t.dims|) + [Put(LE(4, t.typ)), Put(LE(8, off))]))
  }

  function InfosChunks(ts: seq<Added>, a: nat, n: nat): seq<Chunk>
    requires a > 0 && n <= |ts|
  {
    if n == 0 then [] else InfosChunks(ts, a, n - 1) + InfoChunks(ts[n - 1], OffsetOf(ts, a, n - 1))
  }

  lemma {:induction false} DimsWritten(dims: seq<nat>, n: nat)
    requires n <= |dims|
    ensures Joined(DimChunks(dims, n)) == EncDims(dims[..n]) && Writes(DimChunks(dims, n))
  {
    hide Joined, LE;
    if n > 0 {
      DimsWritten(dims, n - 1);
      JoinedConcat(DimChunks(dims, n - 1), [Put(LE(8, dims[n - 1]))]);
      JoinedOne(Put(LE(8, dims[n - 1])));
      DimsNextDim(dims, n - 1);
    } else {
      NothingWritten();
      assert dims[..0] == [];
    }
  }

  lemma {:induction false} DimsNextDim(dims: seq<nat>, i: nat)
    requires i < |dims|
    ensures EncDims(dims[..i + 1]) == EncDims(dims[..i]) + LE(8, dims[i])
  {
    hide LE;
    if i == 0 {
      assert dims[..1][1..] == [] && dims[..0] == [];
    } else {
      DimsNextDim(dims[1..], i - 1);
      assert dims[..i + 1][1..] == dims[1..][..i] && dims[..i][1..] == dims[1..][..i - 1];
    }
  }

  lemma {:induction false} InfoWritten(t: Added, off: nat)
    ensures Joined(InfoChunks(t, off)) == EncInfo(t, off) && Writes(InfoChunks(t, off))
  {
    var count, dims, last := [Put(LE(4, |t.dims|))], DimChunks(t.dims, |t.dims|), [Put(LE(4, t.typ)), Put(LE(8, off))];
    InfoIsChunks(t, off);
    assert t.dims[..|t.dims|] == t.dims;
    hide *;
    TwoPuts(LE(8, |t.name|), t.name);
    TwoPuts(LE(4, t.typ), LE(8, off));
    WritesOne(LE(4, |t.dims|));
    DimsWritten(t.dims, |t.dims|);
    WritesConcat(dims, last);
    WritesConcat(count, dims + last);
    WritesConcat(StrChunks(t.name), count + (dims + last));
  }

  lemma {:induction false} InfoIsChunks(t: Added, off: nat)
    ensures var count, last := [Put(LE(4, |t.dims|))], [Put(LE(4, t.typ)), Put(LE(8, off))];
      && InfoChunks(t, off) == StrChunks(t.name) + (count + (DimChunks(t.dims, |t.dims|) + last))
      && StrChunks(t.name) == [Put(LE(8, |t.name|)), Put(t.name)]
      && EncInfo(t, off)
        == LE(8, |t.name|) + t.name + (LE(4, |t.dims|) + (EncDims(t.dims) + (LE(4, t.typ) + LE(8, off))))
  {
    hide LE, EncDims, DimChunks;
  }

  lemma {:induction false} InfosWritten(ts: seq<Added>, a: nat, n: nat)
    requires a > 0 && n <= |ts|
    ensures Joined(InfosChunks(ts, a, n)) + EncInfos(ts, a, n) == EncInfos(ts, a, 0) && Writes(InfosChunks(ts, a, n))
  {
    hide Joined, Writes, InfoChunks, EncInfo, OffsetOf;
    if n > 0 {
      var off := OffsetOf(ts, a, n - 1);
      InfosWritten(ts, a, n - 1);
      InfoWritten(ts[n - 1], off);
      WritesConcat(InfosChunks(ts, a, n - 1), InfoChunks(ts[n - 1], off));
      assert Joined(InfosChunks(ts, a, n - 1)) + (EncInfo(ts[n - 1], off) + EncInfos(ts, a, n))
          == Joined(InfosChunks(ts, a, n - 1)) + EncInfo(ts[n - 1], off) + EncInfos(ts, a, n);
    } else {
      NothingWritten();
      assert [] + EncInfos(ts, a, 0) == EncInfos(ts, a, 0);
    }
  }

  // ---- the file

  function CountChunks(w: Content): seq<Chunk> {
    [Put(LE(4, MAGIC)), Put(LE(4, 3))] + [Put(LE(8, |w.tensors|)), Put(LE(8, |w.keys|))]
  }

  function HeaderChunks(w: Content): seq<Chunk>
    requires w.alignment > 0 && forall k :: k in w.keys ==> k in w.kv
  {
    CountChunks(w) + (KVsChunks(w.keys, w.kv, |w.keys|) + InfosChunks(w.tensors, w.alignment, |w.tensors|))
  }

  /** pad writes its zeros one by one. */
  function ZeroChunks(k: nat): seq<Chunk> { if k == 0 then [] else ZeroChunks(k - 1) + [Put([0])] }

  function DataChunks(ts: seq<Added>, a: nat, n: nat): seq<Chunk>
    requires a > 0 && n <= |ts|
  {
    if n == 0 then []
    else DataChunks(ts, a, n - 1) + ([Put(ts[n - 1].data)] + ZeroChunks(PadLength(|ts[n - 1].data|, a)))
  }

  function FileChunks(w: Content): seq<Chunk>
    requires w.alignment > 0 && forall k :: k in w.keys ==> k in w.kv
  {
    HeaderChunks(w) + (ZeroChunks(PadLength(|EncHeader(w)|, w.alignment))
      + DataChunks(w.tensors, w.alignment, |w.tensors|))
  }

  lemma {:induction false} CountsWritten(w: Content)
    ensures Joined(CountChunks(w)) == LE(4, MAGIC) + LE(4, 3) + LE(8, |w.tensors|) + LE(8, |w.keys|)
      && Writes(CountChunks(w))
  {
    TwoPuts(LE(4, MAGIC), LE(4, 3));
    TwoPuts(LE(8, |w.tensors|), LE(8, |w.keys|));
    hide Joined, LE;
    WritesConcat([Put(LE(4, MAGIC)), Put(LE(4, 3))], [Put(LE(8, |w.tensors|)), Put(LE(8, |w.keys|))]);
  }

  lemma {:induction false} HeaderWritten(w: Content)
    requires w.alignment > 0 && forall k :: k in w.keys ==> k in w.kv
    ensures Joined(HeaderChunks(w)) == EncHeader(w)
    ensures Writes(HeaderChunks(w)) <==> forall k :: k in w.keys ==> Storable(w.kv[k])
  {
    CountsWritten(w);
    KVsWritten(w.keys, w.kv, |w.keys|);
    InfosWritten(w.tensors, w.alignment, |w.tensors|);
    assert w.keys[..|w.keys|] == w.keys;
    var kvs, infos := KVsChunks(w.keys, w.kv, |w.keys|), InfosChunks(w.tensors, w.alignment, |w.tensors|);
    LastInfos(w.tensors, w.alignment);
    HeaderIs(w);
    hide Joined, Writes, LE, EncKVs, EncInfos, KVsChunks, InfosChunks, CountChunks, Storable, EncHeader;
    WritesConcat(kvs, infos);
    WritesConcat(CountChunks(w), kvs + infos);
  }

  lemma {:induction false} LastInfos(ts: seq<Added>, a: nat)
    requires a > 0
    ensures EncInfos(ts, a, |ts|) == [] && forall b: Bytes :: b + [] == b
  {}

  lemma {:induction false} HeaderIs(w: Content)
    requires w.alignment > 0 && forall k :: k in w.keys ==> k in w.kv
    ensures EncHeader(w) == LE(4, MAGIC) + LE(4, 3) + LE(8, |w.tensors|) + LE(8, |w.keys|)
                            + (EncKVs(w.keys, w.kv) + EncInfos(w.tensors, w.alignment, 0))
  {
    hide LE, EncKVs, EncInfos;
  }

  lemma {:induction false} ZerosWritten(k: nat)
    ensures Joined(ZeroChunks(k)) == Zeros(k) && Writes(ZeroChunks(k))
  {
    hide Joined, Writes, Zeros;
    if k > 0 {
      ZerosWritten(k - 1);
      WritesConcat(ZeroChunks(k - 1), [Put([0])]);
      WritesOne([0]);
      MoreZeros(k - 1);
    } else {
      NothingWritten();
      NoZeros();
    }
  }

  lemma {:induction false} MoreZeros(k: nat)
    ensures Zeros(k + 1) == Zeros(k) + [0]
  {}

  lemma {:induction false} NoZeros()
    ensures Zeros(0) == []
  {}

  lemma {:induction false} DataWritten(ts: seq<Added>, a: nat, n: nat)
    requires a > 0 && n <= |ts|
    ensures Joined(DataChunks(ts, a, n)) == EncData(ts, a, n) && Writes(DataChunks(ts, a, n))
  {
    hide Joined, Writes, PadLength, Zeros;
    if n > 0 {
      var data := ts[n - 1].data;
      var zeros := ZeroChunks(PadLength(|data|, a));
      DataWritten(ts, a, n - 1);
      ZerosWritten(PadLength(|data|, a));
      WritesOne(data);
      WritesConcat([Put(data)], zeros);
      WritesConcat(DataChunks(ts, a, n - 1), [Put(data)] + zeros);
    } else {
      NothingWritten();
    }
  }

  lemma {:induction false} FileIsChunks(w: Content)
    requires w.alignment > 0 && forall k :: k in w.keys ==> k in w.kv
    ensures var z, d := ZeroChunks(PadLength(|EncHeader(w)|, w.alignment)),
      DataChunks(w.tensors, w.alignment, |w.tensors|);
      FileChunks(w) == HeaderChunks(w) + (z + d)
  {}

  /** The writes are the file, and all of them are made unless a value has an unknown type. */
  lemma {:induction false} FileWritten(w: Content)
    requires w.alignment > 0 && forall k :: k in w.keys ==> k in w.kv
    ensures Joined(FileChunks(w)) == FileBytes(w)
    ensures Writes(FileChunks(w)) <==> forall k :: k in w.keys ==> Storable(w.kv[k])
  {
    var pad, data := PadLength(|EncHeader(w)|, w.alignment), DataChunks(w.tensors, w.alignment, |w.tensors|);
    hide *;
    FileIsChunks(w);
    FileIs(w);
    HeaderWritten(w);
    ZerosWritten(pad);
    DataWritten(w.tensors, w.alignment, |w.tensors|);
    ThreeParts(HeaderChunks(w), ZeroChunks(pad), data);
  }

  lemma {:induction false} ThreeParts(a: seq<Chunk>, b: seq<Chunk>, c: seq<Chunk>)
    ensures Joined(a + (b + c)) == (Joined(a) + Joined(b)) + Joined(c)
    ensures Writes(a + (b + c)) <==> Writes(a) && Writes(b) && Writes(c)
  {
    hide *;
    WritesConcat(a, b + c);
    WritesConcat(b, c);
    assert Joined(a) + (Joined(b) + Joined(c)) == (Joined(a) + Joined(b)) + Joined(c);
  }
}
