/** The bytes of a GGUF file written out, without the functions that produce them. */
module GgufLayout {
  import opened Wrappers
  import opened Arith
  import opened GgufCodec
  import opened GgufFile
  import opened GgufRoundTrip
  import Quant

  /** Byte i of an integer is its digit i to base 256, the lowest first. */
  lemma {:induction false} LittleEndian(k: nat, v: nat, i: nat)
    requires i < k
    ensures LE(k, v)[i] == v / Pow256(i) % 256
  {
    if i > 0 {
      LittleEndian(k - 1, v / 256, i - 1);
      DivTwice(v, Pow256(i - 1));
    }
  }

  lemma {:induction false} DivTwice(v: nat, b: nat)
    requires b > 0
    ensures v / 256 / b == v / (256 * b)
  {
    var q, r := v / 256 / b, v / 256 % b;
    assert v / 256 == q * b + r;
    assert q * (256 * b) == 256 * (q * b);
    DivModUnique(q, 256 * r + v % 256, 256 * b, v);
  }

  /** An integer below 256 is its byte and zeros. */
  function Small(k: nat, v: Byte): Bytes
    requires k > 0
  {
    [v] + Zeros(k - 1)
  }

  lemma {:induction false} LEZero(k: nat)
    ensures LE(k, 0) == Zeros(k)
  {
    if k > 0 { LEZero(k - 1); }
  }

  lemma {:induction false} LESmall(k: nat, v: Byte)
    requires k > 0
    ensures LE(k, v) == Small(k, v)
  {
    LEZero(k - 1);
  }

  /** The codes of the value types, in the order of the format. */
  lemma {:induction false} TypeCodes(n: nat, i: int, b: bool, s: Bytes, elem: nat, vs: seq<Value>, j: nat)
    requires j < 13
    ensures Code([UInt(1, n), SInt(1, i), UInt(2, n), SInt(2, i), UInt(4, n), SInt(4, i), Float(4, n), Bool(b), Str(s),
      Arr(elem, vs), UInt(8, n), SInt(8, i), Float(8, n)][j]) == j
  {}

  /** Negative integers are written in two's complement. */
  lemma {:induction false} MinusTwo()
    ensures Enc(SInt(1, -2)) == [0xFE] && Enc(SInt(2, -2)) == [0xFE, 0xFF]
  {
    assert Pow256(1) == 256 && Pow256(2) == 65536;
    assert LE(2, 65534)[1..] == LE(1, 255);
  }

  /** The block sizes that Parse assumes for Q4_0, Q4_K and Q6_K are those that decoding takes. */
  lemma {:induction false} BlocksAgree(n: nat)
    ensures TypeInfo(2) == (Quant.BlockSize(Quant.Q4_0), Quant.BlockBytes(Quant.Q4_0))
    ensures TypeInfo(12) == (Quant.BlockSize(Quant.Q4_K), Quant.BlockBytes(Quant.Q4_K))
    ensures TypeInfo(14) == (Quant.BlockSize(Quant.Q6_K), Quant.BlockBytes(Quant.Q6_K))
    ensures RowBytes(2, n) == Quant.RowBytes(Quant.Q4_0, n) && RowBytes(12, n) == Quant.RowBytes(Quant.Q4_K, n)
    ensures RowBytes(14, n) == Quant.RowBytes(Quant.Q6_K, n)
    ensures TensorBytes([512, 3], 12) == 2 * 144 * 3
  {
    assert [512 as nat, 3][..1] == [512] && [512 as nat][..0] == [];
    assert NumElems([512]) == 512 && NumElems([512, 3]) == 1536;
  }

  /** The key "a" with the uint32 0x01020304, and one Q4_0 block named "t". */
  function Sample(data: Bytes): Content {
    Content([[0x61]], map[[0x61] := UInt(4, 0x01020304)], [Added([0x74], [32], 2, data)], 32)
  }

  /** "GGUF", version 3, one tensor, one key; the key and its value; the tensor's name, dimensions, type and
      offset; and behind these 74 bytes, from byte 96 on, its data, padded to 32 bytes. */
  lemma {:induction false} SampleFile(data: Bytes)
    requires |data| == 18
    ensures FileBytes(Sample(data)) == [0x47, 0x47, 0x55, 0x46] + Small(4, 3) + Small(8, 1) + Small(8, 1)
      + (Small(8, 1) + [0x61] + Small(4, 4) + [4, 3, 2, 1])
      + (Small(8, 1) + [0x74] + Small(4, 1) + Small(8, 32) + Small(4, 2) + Zeros(8))
      + Zeros(22) + (data + Zeros(14))
  {
    SampleHeader(data);
    SampleData(data);
    hide EncHeader, EncData, Small, Zeros;
  }

  lemma {:induction false} SampleHeader(data: Bytes)
    ensures EncHeader(Sample(data)) == [0x47, 0x47, 0x55, 0x46] + Small(4, 3) + Small(8, 1) + Small(8, 1)
      + (Small(8, 1) + [0x61] + Small(4, 4) + [4, 3, 2, 1])
      + (Small(8, 1) + [0x74] + Small(4, 1) + Small(8, 32) + Small(4, 2) + Zeros(8))
    ensures |EncHeader(Sample(data))| == 74
  {
    var w := Sample(data);
    SampleKV(w.kv);
    SampleInfo(w.tensors);
    Magic();
    LESmall(4, 3);
    LESmall(8, 1);
    var kvs, infos := EncKVs(w.keys, w.kv), EncInfos(w.tensors, 32, 0);
    assert |kvs| == 17 && |infos| == 33;
    hide LE, EncKVs, EncInfos, Small, Zeros;
    assert EncHeader(w) == LE(4, MAGIC) + (LE(4, 3) + (LE(8, 1) + (LE(8, 1) + (kvs + infos))));
    Regroup([0x47, 0x47, 0x55, 0x46], Small(4, 3), Small(8, 1), Small(8, 1), kvs, infos);
  }

  lemma {:induction false} Regroup(a: Bytes, b: Bytes, c: Bytes, d: Bytes, e: Bytes, f: Bytes)
    ensures a + (b + (c + (d + (e + f)))) == a + b + c + d + e + f
    ensures |a + b + c + d + e + f| == |a| + |b| + |c| + |d| + |e| + |f|
  {}

  lemma {:induction false} Magic()
    ensures LE(4, MAGIC) == [0x47, 0x47, 0x55, 0x46] && LE(4, 0x01020304) == [4, 3, 2, 1]
  {
    assert LE(2, 0x4655) == [0x55, 0x46] && LE(2, 0x0102) == [2, 1];
    assert LE(4, MAGIC)[2..] == LE(2, 0x4655) && LE(4, 0x01020304)[2..] == LE(2, 0x0102);
  }

  lemma {:induction false} SampleKV(kv: map<Bytes, Value>)
    requires [0x61] in kv && kv[[0x61]] == UInt(4, 0x01020304)
    ensures EncKVs([[0x61]], kv) == Small(8, 1) + [0x61] + Small(4, 4) + [4, 3, 2, 1]
  {
    Magic();
    LESmall(8, 1);
    LESmall(4, 4);
    hide LE, Small;
    var keys: seq<Bytes> := [[0x61]];
    assert keys[1..] == [];
    assert EncKVs(keys[1..], kv) == [];
    assert EncKVs(keys, kv) == EncKV(keys[0], kv[keys[0]]) + EncKVs(keys[1..], kv);
    assert EncKV([0x61], UInt(4, 0x01020304)) == LE(8, 1) + [0x61] + (LE(4, 4) + LE(4, 0x01020304));
  }

  lemma {:induction false} SampleInfo(ts: seq<Added>)
    requires |ts| == 1 && ts[0].name == [0x74] && ts[0].dims == [32] && ts[0].typ == 2
    ensures EncInfos(ts, 32, 0) == Small(8, 1) + [0x74] + Small(4, 1) + Small(8, 32) + Small(4, 2) + Zeros(8)
  {
    LESmall(8, 1);
    LESmall(4, 1);
    LESmall(8, 32);
    LESmall(4, 2);
    LEZero(8);
    hide LE, Small, Zeros;
    OneDim(ts[0].dims);
    assert EncInfos(ts, 32, 1) == [];
    assert EncInfos(ts, 32, 0) == EncInfo(ts[0], 0) + EncInfos(ts, 32, 1);
    hide EncInfos, EncDims;
    assert EncInfo(ts[0], 0) == LE(8, 1) + [0x74] + (LE(4, 1) + (LE(8, 32) + (LE(4, 2) + LE(8, 0))));
  }

  lemma {:induction false} OneDim(dims: seq<nat>)
    requires |dims| == 1
    ensures EncDims(dims) == LE(8, dims[0])
  {
    hide LE;
    assert EncDims(dims) == LE(8, dims[0]) + EncDims(dims[1..]) && EncDims(dims[1..]) == [];
  }

  lemma {:induction false} SampleData(data: Bytes)
    requires |data| == 18
    ensures var ts := Sample(data).tensors; EncData(ts, 32, |ts|) == data + Zeros(14)
  {
    var ts := Sample(data).tensors;
    hide Zeros;
    assert EncData(ts, 32, 0) == [];
    assert EncData(ts, 32, 1) == EncData(ts, 32, 0) + data + Zeros(PadLength(18, 32));
  }

  /** Without general.alignment the alignment is 32. */
  lemma {:induction false} SampleConsistent(data: Bytes)
    ensures Consistent(Sample(data))
    ensures |KEY_ALIGNMENT| == 17
    ensures forall i :: 0 <= i < 17 ==> KEY_ALIGNMENT[i] == "general.alignment"[i] as int
  {
    assert |[0x61 as Byte]| != |KEY_ALIGNMENT|;
  }

  /** Whatever Parse accepts starts with "GGUF" and has version 2 or 3. */
  lemma {:induction false} AcceptedStart(data: Bytes)
    requires ParseOf(data) != Err
    ensures |data| >= 8 && data[..4] == [0x47, 0x47, 0x55, 0x46]
    ensures data[4..8] == Small(4, 2) || data[4..8] == Small(4, 3)
  {
    hide *;
    StartIs(data);
    FourBytes(data[..4], MAGIC);
    Magic();
    if UnLE(data[4..8]) == 2 { FourBytes(data[4..8], 2); } else { FourBytes(data[4..8], 3); }
    LESmall(4, 2);
    LESmall(4, 3);
  }

  lemma {:induction false} FourBytes(b: Bytes, v: nat)
    requires |b| == 4 && UnLE(b) == v
    ensures b == LE(4, v)
  {
    hide LE, UnLE;
    LEofUnLE(b);
  }

  lemma {:induction false} StartIs(data: Bytes)
    requires ParseOf(data) != Err
    ensures |data| >= 8 && UnLE(data[..4]) == MAGIC && 2 <= UnLE(data[4..8]) <= 3
  {
    assert ParseHeader(data).Some?;
    hide RdKVs, RdTensors, UnLE, And, AlignmentOf, MapOf, Check;
    var m := RdUint(4, data, Rd(0, false));
    var version := RdUint(4, data, m.1);
    assert m.0 == MAGIC && 2 <= version.0 <= 3;
    assert m.0 == UnLE(data[0..4]) && m.1 == Rd(4, false) && version.0 == UnLE(data[4..8]);
    assert data[0..4] == data[..4];
  }
}
