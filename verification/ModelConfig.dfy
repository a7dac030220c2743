/** ConfigFrom: the hyper-parameters read from the metadata, and what loading checks. */
module ModelConfig {
  import opened Wrappers
  import opened Arith
  import opened GgufCodec
  import GgufFile
  import Transformer
  import Cpu

  /** Go's int holds whatever the conversions leave, negative numbers included. */
  datatype Hyper = Hyper(layers: int, dim: int, ffn: int, heads: int, kvHeads: int, headDim: int, vocab: int,
      ctxLen: int)

  datatype Loaded = Loaded(c: Hyper) | Rejected(reason: string) | Panics

  type Meta = map<string, Value>

  /** 64-bit int arithmetic wraps: the only quotient that does not fit is 2^63. */
  function Wrap64(a: int): int { Signed(8, Unsigned(8, a)) }

  predicate IsInt(v: Value) { v.UInt? || v.SInt? }

  /** int(f.Uint(key, uint64(fallback))) */
  function IntOf(meta: Meta, key: string, fallback: int): int {
    if key in meta && IsInt(meta[key]) then Signed(8, GgufFile.Uint64(meta[key])) else fallback
  }

  function Heads(meta: Meta): int { IntOf(meta, "llama.attention.head_count", 0) }

  function KvHeads(meta: Meta): int { IntOf(meta, "llama.attention.head_count_kv", Heads(meta)) }

  predicate Complete(meta: Meta) {
    && IntOf(meta, "llama.block_count", 0) != 0 && IntOf(meta, "llama.embedding_length", 0) != 0
    && IntOf(meta, "llama.feed_forward_length", 0) != 0 && Heads(meta) != 0
  }

  predicate Divides(meta: Meta) { KvHeads(meta) != 0 && Rem(Heads(meta), KvHeads(meta)) == 0 }

  /** embd holds the dimensions of token_embd.weight, innermost first, if the file has it. Two
      panics come before anything rejects the file: the remainder by a head_count_kv of zero,
      and the row count of a token_embd.weight without dimensions. */
  function ConfigFrom(arch: string, meta: Meta, embd: Option<seq<nat>>): (r: Loaded)
    ensures r.Panics? <==>
      arch == "llama" && Complete(meta) && (KvHeads(meta) == 0 || (Divides(meta) && embd == Some([])))
    ensures r.Loaded? <==> arch == "llama" && Complete(meta) && Divides(meta) && embd.Some? && embd.value != []
    ensures r.Loaded? ==> r.c.heads != 0 && r.c.kvHeads != 0 && r.c.heads == Quo(r.c.heads, r.c.kvHeads) * r.c.kvHeads
  {
    var layers, dim, ffn := IntOf(meta, "llama.block_count", 0), IntOf(meta, "llama.embedding_length", 0),
      IntOf(meta, "llama.feed_forward_length", 0);
    var heads := IntOf(meta, "llama.attention.head_count", 0);
    var kvHeads := IntOf(meta, "llama.attention.head_count_kv", heads);
    if arch != "llama" then Rejected("architecture")
    else if layers == 0 || dim == 0 || ffn == 0 || heads == 0 then Rejected("incomplete metadata")
    else
      var headDim := IntOf(meta, "llama.attention.key_length", Wrap64(Quo(dim, heads)));
      if kvHeads == 0 then Panics
      else if Rem(heads, kvHeads) != 0 then Rejected("heads not a multiple of KV heads")
      else if embd.None? then Rejected("no token_embd.weight")
      else if embd.value == [] then Panics
      else
        QuoRem(heads, kvHeads);
        var vocab, ctxLen := Signed(8, embd.value[|embd.value| - 1]), IntOf(meta, "llama.context_length", 2048);
        Loaded(Hyper(layers, dim, ffn, heads, kvHeads, headDim, vocab, ctxLen))
  }

  /** Every query head h has the KV head h / (heads / kvHeads). */
  ghost predicate HeadsExist(c: Hyper)
    requires c.kvHeads != 0
  {
    var group := Quo(c.heads, c.kvHeads);
    c.heads <= 0 || (group != 0 && forall h :: 0 <= h < c.heads ==> 0 <= Quo(h, group) < c.kvHeads)
  }

  /** A loaded model has query heads and every one has its KV head, exactly when both counts are
      positive, which loading does not check. */
  lemma {:induction false} LoadedHeadsExist(arch: string, meta: Meta, embd: Option<seq<nat>>)
    requires ConfigFrom(arch, meta, embd).Loaded?
    ensures var c := ConfigFrom(arch, meta, embd).c;
      c.kvHeads != 0 && (c.heads > 0 && HeadsExist(c) <==> c.heads > 0 && c.kvHeads > 0)
  {
    var c := ConfigFrom(arch, meta, embd).c;
    hide ConfigFrom;
    if c.heads > 0 {
      FirstHead(c);
      if c.kvHeads > 0 { PositiveHeads(c); }
    }
  }

  lemma {:induction false} FirstHead(c: Hyper)
    requires c.heads > 0 && c.kvHeads != 0
    ensures HeadsExist(c) ==> c.kvHeads > 0
  {
    if HeadsExist(c) { assert Quo(0, Quo(c.heads, c.kvHeads)) >= 0; }
  }

  lemma {:induction false} PositiveHeads(c: Hyper)
    requires c.heads > 0 && c.kvHeads > 0 && c.heads == Quo(c.heads, c.kvHeads) * c.kvHeads
    ensures HeadsExist(c) && c.heads % c.kvHeads == 0
  {
    var group := Quo(c.heads, c.kvHeads);
    DivModUnique(group, 0, c.kvHeads, c.heads);
    Cpu.KvHeadsExist(c.heads, c.kvHeads);
    hide Quo;
    assert Cpu.HeadServed(c.heads, c.kvHeads, 0);
    forall h | 0 <= h < c.heads ensures 0 <= Quo(h, group) < c.kvHeads {
      assert Cpu.HeadServed(c.heads, c.kvHeads, h);
      QuoPositive(h, group);
    }
  }

  /** With positive counts a loaded model is one the decoder can run. */
  lemma {:induction false} LoadedIsUsable(arch: string, meta: Meta, embd: Option<seq<nat>>, maxLen: nat)
    requires ConfigFrom(arch, meta, embd).Loaded?
    requires var c := ConfigFrom(arch, meta, embd).c;
      c.layers > 0 && c.dim > 0 && c.ffn > 0 && c.heads > 0 && c.kvHeads > 0 && c.headDim >= 0 && c.vocab >= 0
    ensures var c := ConfigFrom(arch, meta, embd).c;
      Transformer.Config(c.layers, c.dim, c.ffn, c.heads, c.kvHeads, c.headDim, c.vocab, maxLen).Valid()
  {
    var c := ConfigFrom(arch, meta, embd).c;
    hide ConfigFrom;
    PositiveHeads(c);
  }

  // ---- metadata the reader accepts

  /** One layer of dimension 8 and FFN 8 with two heads, and the given head_count_kv. */
  function Example(kvHeads: Value): Meta {
    map["llama.block_count" := UInt(4, 1), "llama.embedding_length" := UInt(4, 8),
      "llama.feed_forward_length" := UInt(4, 8),
        "llama.attention.head_count" := UInt(4, 2), "llama.attention.head_count_kv" := kvHeads]
  }

  lemma {:induction false} ExampleHeads(kvHeads: Value)
    requires IsInt(kvHeads)
    ensures Complete(Example(kvHeads)) && Heads(Example(kvHeads)) == 2
    ensures KvHeads(Example(kvHeads)) == Signed(8, GgufFile.Uint64(kvHeads))
  {
    Small64();
    hide Signed;
  }

  lemma {:induction false} Small64()
    ensures forall n: nat :: n < 256 ==> Signed(8, n) == n
    ensures Signed(8, Unsigned(8, -1)) == -1
  {
    assert Pow256(8) == 256 * Pow256(7) && Pow256(7) == 256 * Pow256(6);
    hide Pow256;
    DivModUnique(-1, Pow256(8) - 1, Pow256(8), -1);
  }

  /** Three layers of dimension 24 and FFN 5 with six heads. */
  function Plain(): Meta {
    map["llama.block_count" := UInt(4, 3), "llama.embedding_length" := UInt(4, 24),
      "llama.feed_forward_length" := UInt(4, 5), "llama.attention.head_count" := UInt(4, 6)]
  }

  /** Without further keys there is a KV head for every head and the head dimension is the quotient; otherwise
      both are those of the metadata. The vocabulary is the outer dimension of the embedding. */
  lemma {:induction false} LoadedValues()
    ensures ConfigFrom("llama", Plain(), Some([24, 100])) == Loaded(Hyper(3, 24, 5, 6, 6, 4, 100, 2048))
    ensures ConfigFrom("llama", Plain()["llama.attention.head_count_kv" := UInt(4, 2)], Some([24, 100]))
      == Loaded(Hyper(3, 24, 5, 6, 2, 4, 100, 2048))
    ensures ConfigFrom("llama", Plain()["llama.attention.key_length" := UInt(4, 7)], Some([24, 100]))
      == Loaded(Hyper(3, 24, 5, 6, 6, 7, 100, 2048))
  {
    Small64();
    QuoPositive(24, 6);
    QuoPositive(6, 6);
    QuoPositive(6, 2);
    SmallWrap();
    hide Signed, Quo, Rem, Wrap64;
  }

  lemma {:induction false} SmallWrap()
    ensures Wrap64(4) == 4
  {
    Small64();
    assert Pow256(8) > 4 by { assert Pow256(8) == 256 * Pow256(7); }
    hide Signed, Pow256;
  }

  /** A head_count_kv of zero panics. */
  lemma {:induction false} ZeroKvHeadsPanic()
    ensures ConfigFrom("llama", Example(UInt(4, 0)), Some([8, 16])).Panics?
  {
    ExampleHeads(UInt(4, 0));
    Small64();
    hide Example, Signed;
  }

  /** A token_embd.weight without dimensions panics. */
  lemma {:induction false} ScalarEmbeddingPanics()
    ensures ConfigFrom("llama", Example(UInt(4, 1)), Some([])).Panics?
  {
    ExampleHeads(UInt(4, 1));
    Small64();
    hide Example, Signed;
  }

  /** A head_count_kv of -1 in a signed field loads, and query head 0 has no KV head. */
  lemma {:induction false} NegativeKvHeadsLoad()
    ensures var r := ConfigFrom("llama", Example(SInt(4, -1)), Some([8, 16]));
      r.Loaded? && r.c.kvHeads == -1 && r.c.heads == 2 && !HeadsExist(r.c)
  {
    ExampleHeads(SInt(4, -1));
    Small64();
    hide Example, Signed, Unsigned;
    var r := ConfigFrom("llama", Example(SInt(4, -1)), Some([8, 16]));
    LoadedHeadsExist("llama", Example(SInt(4, -1)), Some([8, 16]));
  }
}
