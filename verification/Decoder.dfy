/** Model.Forward over device buffers and a KV cache, any step of which may fail, and
    the generation loop that feeds it. */
module Decoder {
  import opened Transformer
  import opened Arith

  datatype Outcome = Ok | BadPosition | BadToken | Device

  /** A kernel that fails leaves anything in its destination. */
  method Scramble(dst: array<real>)
    modifies dst
  {
    for i := 0 to dst.Length { dst[i] := *; }
  }

  /** s with v written over the |v| elements from at on. */
  function Splice(s: Vector, at: nat, v: Vector): Vector
    requires at + |v| <= |s|
  {
    s[..at] + v + s[at + |v|..]
  }

  predicate OnlyRow(a: Vector, b: Vector, at: nat, n: nat) {
    |a| == |b| && at + n <= |a| && a[..at] == b[..at] && a[at + n..] == b[at + n..]
  }

  ghost predicate NewCaches(ks: seq<array<real>>, vs: seq<array<real>>, n: int) {
    && |ks| == |vs|
    && (forall i :: 0 <= i < |ks| ==> ks[i].Length == vs[i].Length == n)
    && (forall i, j :: 0 <= i < |ks| && 0 <= j < |ks| ==> ks[i] != vs[j])
    && forall i, j :: 0 <= i < j < |ks| ==> ks[i] != ks[j] && vs[i] != vs[j]
  }

  /** The loop over the layers in load. */
  method AllocCaches(layers: nat, n: nat) returns (ks: seq<array<real>>, vs: seq<array<real>>)
    ensures |ks| == layers && NewCaches(ks, vs, n)
    ensures forall i :: 0 <= i < layers ==> fresh(ks[i]) && fresh(vs[i])
  {
    ks, vs := [], [];
    for l := 0 to layers
      invariant |ks| == |vs| == l && NewCaches(ks, vs, n)
      invariant forall i :: 0 <= i < l ==> fresh(ks[i]) && fresh(vs[i])
    {
      var k := new real[n];
      var v := new real[n];
      ks, vs := ks + [k], vs + [v];
    }
  }

  class Model {
    const c: Config
    const net: Net
    const x: array<real>
    const xn: array<real>
    const q: array<real>
    const kv: array<real>          // holds K, then V
    const attn: array<real>
    const o: array<real>
    const gate: array<real>
    const up: array<real>
    const act: array<real>
    const logits: array<real>
    const hostRow: array<real>
    const hostLogits: array<real>
    const kcache: seq<array<real>>
    const vcache: seq<array<real>>
    var pos: int                   // the one-element device buffer

    ghost predicate Distinct()
      requires |kcache| == |vcache| == c.layers
    {
      && x !in {xn, q, kv, attn, o, gate, up, act, logits, hostRow, hostLogits}
      && xn !in {q, kv, attn, o, gate, up, act, logits, hostRow, hostLogits}
      && q !in {kv, attn, o, gate, up, act, logits, hostRow, hostLogits}
      && kv !in {attn, o, gate, up, act, logits, hostRow, hostLogits}
      && attn !in {o, gate, up, act, logits, hostRow, hostLogits}
      && o !in {gate, up, act, logits, hostRow, hostLogits}
      && gate !in {up, act, logits, hostRow, hostLogits}
      && up !in {act, logits, hostRow, hostLogits}
      && act !in {logits, hostRow, hostLogits}
      && logits !in {hostRow, hostLogits} && hostRow != hostLogits
      && (forall l, m :: 0 <= l < c.layers && 0 <= m < c.layers ==> kcache[l] != vcache[m])
      && (forall l, m :: 0 <= l < m < c.layers ==> kcache[l] != kcache[m] && vcache[l] != vcache[m])
      && (forall l :: 0 <= l < c.layers ==> kcache[l] !in Work() && vcache[l] !in Work())
    }

    ghost function Work(): set<array<real>> { {x, xn, q, kv, attn, o, gate, up, act, logits, hostRow, hostLogits} }

    ghost predicate Valid() {
      && c.Valid() && |kcache| == |vcache| == c.layers
      && x.Length == xn.Length == o.Length == hostRow.Length == c.dim
      && q.Length == attn.Length == c.QDim() && kv.Length == c.KvDim()
      && gate.Length == up.Length == act.Length == c.ffn
      && logits.Length == hostLogits.Length == c.vocab
      && (forall l :: 0 <= l < c.layers ==> kcache[l].Length == vcache[l].Length == c.maxLen * c.KvDim())
      && Distinct()
    }

    ghost function Caches(): set<array<real>> { (set a | a in kcache) + (set a | a in vcache) }

    /** The caches of layer l hold the keys and values the cacheless transformer gives tokens. */
    ghost predicate LayerHolds(l: nat, tokens: seq<int>)
      requires Valid() && l < c.layers
      reads kcache[l], vcache[l]
    {
      CacheIs(c, net, l, tokens, kcache[l][..], vcache[l][..])
    }

    ghost predicate CacheHolds(tokens: seq<int>)
      requires Valid()
      reads Caches()
    {
      |tokens| <= c.maxLen && forall l :: 0 <= l < c.layers ==> LayerHolds(l, tokens)
    }

    /** The buffers load allocates: one of each for all layers, and two caches per layer. */
    constructor (c: Config, net: Net)
      requires c.Valid()
      ensures Valid() && this.c == c && this.net == net
      ensures fresh(Work()) && fresh(Caches())
    {
      hide Config.KvDim, Config.QDim, Config.Valid;
      var ks, vs := AllocCaches(c.layers, c.maxLen * c.KvDim());
      this.c, this.net, kcache, vcache, pos := c, net, ks, vs, 0;
      x, xn, o, hostRow := new real[c.dim], new real[c.dim], new real[c.dim], new real[c.dim];
      q, attn, kv := new real[c.QDim()], new real[c.QDim()], new real[c.KvDim()];
      gate, up, act := new real[c.ffn], new real[c.ffn], new real[c.ffn];
      logits, hostLogits := new real[c.vocab], new real[c.vocab];
    }

    // ---- kernels

    method RunNorm(id: NormId, src: array<real>, dst: array<real>) returns (ok: bool)
      requires dst.Length == c.dim
      modifies dst
      ensures ok ==> dst[..] == Norm(c, net, id, old(src[..]))
    {
      var v := src[..];
      ok := *;
      if !ok { Scramble(dst); return; }
      forall i | 0 <= i < dst.Length { dst[i] := net.norm(id, v, i); }
    }

    method RunMat(id: MatId, src: array<real>, dst: array<real>) returns (ok: bool)
      modifies dst
      ensures ok ==> dst[..] == Mat(net, id, dst.Length, old(src[..]))
    {
      var v := src[..];
      ok := *;
      if !ok { Scramble(dst); return; }
      forall i | 0 <= i < dst.Length { dst[i] := net.mat(id, v, i); }
    }

    /** In place, at the position in the device buffer. */
    method RunRope(heads: nat, buf: array<real>) returns (ok: bool)
      modifies buf
      ensures ok ==> buf[..] == Rope(net, heads, pos, old(buf[..]))
    {
      var v := buf[..];
      ok := *;
      if !ok { Scramble(buf); return; }
      forall i | 0 <= i < buf.Length { buf[i] := net.rope(heads, pos, v, i); }
    }

    method RunAdd(a: array<real>, b: array<real>, dst: array<real>) returns (ok: bool)
      requires a.Length == b.Length == dst.Length
      modifies dst
      ensures ok ==> dst[..] == AddVec(old(a[..]), old(b[..]))
    {
      ok := *;
      if !ok { Scramble(dst); return; }
      forall i | 0 <= i < dst.Length { dst[i] := a[i] + b[i]; }
    }

    method RunSilu() returns (ok: bool)
      requires Valid()
      modifies act
      ensures ok ==> act[..] == SiluMul(net, gate[..], up[..])
    {
      ok := *;
      if !ok { Scramble(act); return; }
      forall i | 0 <= i < act.Length { act[i] := net.silu(gate[i], up[i]); }
    }

    method RunAttn(l: nat, n: nat) returns (ok: bool)
      requires Valid() && l < c.layers
      modifies attn
      ensures ok ==> attn[..] == Attend(c, net, q[..], kcache[l][..], vcache[l][..], n)
    {
      hide Attend;
      ghost var q0, k0, v0 := q[..], kcache[l][..], vcache[l][..];
      var r := Attend(c, net, q[..], kcache[l][..], vcache[l][..], n);
      AttendLength(c, net, q[..], kcache[l][..], vcache[l][..], n);
      ok := *;
      if !ok { Scramble(attn); return; }
      forall i | 0 <= i < attn.Length { attn[i] := r[i]; }
      assert attn[..] == r && q[..] == q0 && kcache[l][..] == k0 && vcache[l][..] == v0;
    }

    /** kv into row p of a cache; a copy that fails spoils that row at most. */
    method CopyRow(cache: array<real>, p: nat) returns (ok: bool)
      requires Valid() && p < c.maxLen && cache.Length == c.maxLen * c.KvDim() && cache != kv
      modifies cache
      ensures 0 <= p * c.KvDim() && OnlyRow(old(cache[..]), cache[..], p * c.KvDim(), c.KvDim())
      ensures ok ==> cache[..] == Splice(old(cache[..]), p * c.KvDim(), kv[..])
    {
      RowInTable(p, c.maxLen, c.KvDim());
      var at, n := p * c.KvDim(), c.KvDim();
      ok := *;
      ghost var before := cache[..];
      forall i | 0 <= i < n { cache[at + i] := if ok then kv[i] else 0.0; }
      if !ok {
        for i := 0 to n
          invariant OnlyRow(before, cache[..], at, n)
        {
          cache[at + i] := *;
        }
      }
    }

    // ---- one layer

    /** The first eight steps: queries, and this position's row of both caches. */
    method Project(l: nat, p: nat) returns (ok: bool)
      requires Valid() && l < c.layers && p < c.maxLen && pos == p
      modifies xn, q, kv, kcache[l], vcache[l]
      ensures 0 <= p * c.KvDim()
      ensures OnlyRow(old(kcache[l][..]), kcache[l][..], p * c.KvDim(), c.KvDim())
      ensures OnlyRow(old(vcache[l][..]), vcache[l][..], p * c.KvDim(), c.KvDim())
      ensures ok ==> q[..] == Query(c, net, l, p, x[..])
      ensures ok ==> kcache[l][..] == Splice(old(kcache[l][..]), p * c.KvDim(), Key(c, net, l, p, x[..]))
      ensures ok ==> vcache[l][..] == Splice(old(vcache[l][..]), p * c.KvDim(), Value(c, net, l, x[..]))
    {
      RowInTable(p, c.maxLen, c.KvDim());
      ok := RunNorm(AttnNorm(l), x, xn);
      if !ok { return; }
      ok := RunMat(Wq(l), xn, q);
      if !ok { return; }
      ok := RunMat(Wk(l), xn, kv);
      if !ok { return; }
      ok := RunRope(c.heads, q);
      if !ok { return; }
      ok := RunRope(c.kvHeads, kv);
      if !ok { return; }
      assert kv[..] == Key(c, net, l, p, x[..]);
      ok := CopyRow(kcache[l], p);
      if !ok { return; }
      ok := RunMat(Wv(l), xn, kv);
      if !ok { return; }
      ok := CopyRow(vcache[l], p);
    }

    /** Attention over the first p+1 rows, and the residual. */
    method Mix(l: nat, p: nat) returns (ok: bool)
      requires Valid() && l < c.layers
      modifies attn, o, x
      ensures ok ==> x[..] == AddVec(old(x[..]),
        Mat(net, Wo(l), c.dim, Attend(c, net, q[..], kcache[l][..], vcache[l][..], p + 1)))
    {
      ok := RunAttn(l, p + 1);
      if !ok { return; }
      ok := RunMat(Wo(l), attn, o);
      if !ok { return; }
      ok := RunAdd(x, o, x);
    }

    /** The feed-forward half. */
    method Feed(l: nat) returns (ok: bool)
      requires Valid()
      modifies xn, gate, up, act, o, x
      ensures ok ==> x[..] == FeedForward(c, net, l, old(x[..]))
    {
      ok := RunNorm(FfnNorm(l), x, xn);
      if !ok { return; }
      ok := RunMat(Gate(l), xn, gate);
      if !ok { return; }
      ok := RunMat(Up(l), xn, up);
      if !ok { return; }
      ok := RunSilu();
      if !ok { return; }
      ok := RunMat(Down(l), act, o);
      if !ok { return; }
      ok := RunAdd(x, o, x);
    }

    method Layer(l: nat, p: nat) returns (ok: bool)
      requires Valid() && l < c.layers && p < c.maxLen && pos == p
      modifies x, xn, q, kv, attn, o, gate, up, act, kcache[l], vcache[l]
      ensures 0 <= p * c.KvDim()
      ensures OnlyRow(old(kcache[l][..]), kcache[l][..], p * c.KvDim(), c.KvDim())
      ensures OnlyRow(old(vcache[l][..]), vcache[l][..], p * c.KvDim(), c.KvDim())
      ensures ok ==> kcache[l][..] == Splice(old(kcache[l][..]), p * c.KvDim(), Key(c, net, l, p, old(x[..])))
      ensures ok ==> vcache[l][..] == Splice(old(vcache[l][..]), p * c.KvDim(), Value(c, net, l, old(x[..])))
      ensures ok ==> x[..] == FeedForward(c, net, l, Attention(c, net, l, p, old(x[..]), kcache[l][..], vcache[l][..]))
    {
      ok := Project(l, p);
      if !ok { return; }
      ok := Mix(l, p);
      if !ok { return; }
      ok := Feed(l);
    }

    // ---- Forward

    /** Everything before the layers: the embedding row and the position. */
    method Begin(token: int, p: nat) returns (ok: bool)
      requires Valid()
      modifies hostRow, x, this`pos
      ensures ok ==> x[..] == Embed(c, net, token) && pos == p
    {
      ok := *;
      if !ok { Scramble(hostRow); return; }
      forall i | 0 <= i < hostRow.Length { hostRow[i] := net.embed(token, i); }
      ok := *;
      if !ok { Scramble(x); return; }
      forall i | 0 <= i < x.Length { x[i] := hostRow[i]; }
      ok := *;
      if !ok { pos := *; return; }
      pos := p;
    }

    /** Everything after them. */
    method Finish() returns (ok: bool)
      requires Valid()
      modifies xn, logits, hostLogits
      ensures ok ==> hostLogits[..] == Mat(net, Head, c.vocab, Norm(c, net, OutNorm, x[..]))
    {
      ghost var x0 := x[..];
      ok := RunNorm(OutNorm, x, xn);
      if !ok { return; }
      ok := RunMat(Head, xn, logits);
      if !ok { return; }
      ghost var want := logits[..];
      ok := *;
      if !ok { Scramble(hostLogits); return; }
      forall i | 0 <= i < hostLogits.Length { hostLogits[i] := logits[i]; }
      assert hostLogits[..] == logits[..] == want && x[..] == x0;
    }

    /** One decode step. If the cache holds a history of at least p tokens, the logits are
        those of the cacheless transformer on the first p of them and the new one; rows
        from p on do not matter, and a call that fails leaves the first p rows alone. */
    method Forward(token: int, p: int, ghost history: seq<int>) returns (r: Outcome)
      requires Valid() && CacheHolds(history)
      modifies this`pos, Work(), Caches()
      ensures r == BadPosition <==> !(0 <= p < c.maxLen)
      ensures r == BadToken <==> 0 <= p < c.maxLen && !(0 <= token < c.vocab)
      ensures r == BadPosition || r == BadToken ==> CacheHolds(history)
      ensures 0 <= p <= |history| && p < c.maxLen ==> CacheHolds(history[..p])
      ensures r == Ok && p <= |history| ==> CacheHolds(history[..p] + [token])
      ensures r == Ok && p <= |history| ==> hostLogits[..] == Logits(c, net, history[..p] + [token])
    {
      hide LayerHolds, CacheIs, Hidden, Logits;
      if p < 0 || p >= c.maxLen { return BadPosition; }
      ghost var prefix := if p <= |history| then history[..p] else [];
      ghost var n := if p <= |history| then p else 0;
      Rewind(history, n);
      if token < 0 || token >= c.vocab { return BadToken; }
      if p <= |history| { EmbedIs(c, net, prefix, token); }
      var ok := Begin(token, p);
      assert CacheHolds(prefix);
      if !ok { return Device; }
      ok := RunLayers(p, prefix, prefix + [token], p <= |history|);
      if !ok { return Device; }
      ok := Finish();
      if !ok { return Device; }
      if p <= |history| { LogitsAre(c, net, prefix + [token]); }
      return Ok;
    }

    /** The loop over the layers; s is prefix and the new token when the position is known. */
    method RunLayers(p: nat, ghost prefix: seq<int>, ghost s: seq<int>, ghost known: bool) returns (ok: bool)
      requires Valid() && p < c.maxLen && pos == p && CacheHolds(prefix) && |prefix| <= p
      requires known ==> |s| == p + 1 && s[..p] == prefix && x[..] == Hidden(c, net, 0, s)[p]
      modifies {x, xn, q, kv, attn, o, gate, up, act}, Caches()
      ensures CacheHolds(prefix)
      ensures ok && known ==> CacheHolds(s) && x[..] == Hidden(c, net, c.layers, s)[p]
    {
      hide CacheIs, Hidden, Logits, FeedForward, Attention, Key, Value, Splice, OnlyRow, Config.KvDim;
      for l := 0 to c.layers
        invariant forall m :: 0 <= m < c.layers ==> LayerHolds(m, prefix)
        invariant known ==> x[..] == Hidden(c, net, l, s)[p]
        invariant known ==> forall m :: 0 <= m < l ==> LayerHolds(m, s)
      {
        ghost var x0, k0, v0 := x[..], kcache[l][..], vcache[l][..];
        assert LayerHolds(l, prefix);
        ok := Layer(l, p);
        SameBefore(c, net, l, prefix, k0, v0, kcache[l][..], vcache[l][..], p);
        if !ok { return; }
        if known { LayerStep(c, net, l, s, x0, k0, v0, kcache[l][..], vcache[l][..], x[..]); }
      }
      ok := true;
    }

    /** A cache that holds tokens holds every prefix of them. */
    lemma {:induction false} Rewind(tokens: seq<int>, n: nat)
      requires Valid() && CacheHolds(tokens) && n <= |tokens|
      ensures CacheHolds(tokens[..n])
    {
      forall l | 0 <= l < c.layers ensures LayerHolds(l, tokens[..n]) {
        assert LayerHolds(l, tokens);
        CachePrefix(c, net, l, tokens, n, kcache[l][..], vcache[l][..]);
      }
    }

    /** Nothing is asked of the initial contents of the cache. */
    lemma {:induction false} EmptyHistory()
      requires Valid()
      ensures CacheHolds([])
    {
      forall l | 0 <= l < c.layers ensures LayerHolds(l, []) {
        assert KeyRows(c, net, l, []) == [] && ValueRows(c, net, l, []) == [];
      }
    }
  }

  lemma {:induction false} LogitsAre(c: Config, net: Net, tokens: seq<int>)
    requires c.Valid() && |tokens| > 0
    ensures Logits(c, net, tokens)
      == Mat(net, Head, c.vocab, Norm(c, net, OutNorm, Hidden(c, net, c.layers, tokens)[|tokens| - 1]))
  {
    hide Hidden;
  }

  lemma {:induction false} EmbedIs(c: Config, net: Net, prefix: seq<int>, token: int)
    requires c.Valid()
    ensures Hidden(c, net, 0, prefix + [token])[|prefix|] == Embed(c, net, token)
  {}

  ghost predicate CacheIs(c: Config, net: Net, l: nat, tokens: seq<int>, k: Vector, v: Vector)
    requires c.Valid()
  {
    var n := |tokens| * c.KvDim();
    0 <= n <= |k| && n <= |v| && k[..n] == Flat(KeyRows(c, net, l, tokens))
      && v[..n] == Flat(ValueRows(c, net, l, tokens))
  }

  lemma {:induction false} RowsSized(c: Config, net: Net, l: nat, tokens: seq<int>)
    requires c.Valid()
    ensures Sized(KeyRows(c, net, l, tokens), c.KvDim()) && Sized(ValueRows(c, net, l, tokens), c.KvDim())
    ensures |KeyRows(c, net, l, tokens)| == |ValueRows(c, net, l, tokens)| == |tokens|
  {}

  lemma {:induction false} TakeTake(s: Vector, t: Vector, i: nat, m: nat)
    requires i <= m <= |s| && m <= |t| && s[..m] == t[..m]
    ensures s[..m][..i] == s[..i] == t[..i]
  {
    assert s[..m][..i] == s[..i] && t[..m][..i] == t[..i];
  }

  lemma {:induction false} MulMonotone(a: nat, b: nat, m: nat)
    requires a <= b
    ensures 0 <= a * m <= b * m
  {
    assert b * m == a * m + (b - a) * m && (b - a) * m >= 0 && a * m >= 0;
  }

  lemma {:induction false} CachePrefix(c: Config, net: Net, l: nat, tokens: seq<int>, n: nat, k: Vector, v: Vector)
    requires c.Valid() && CacheIs(c, net, l, tokens, k, v) && n <= |tokens|
    ensures CacheIs(c, net, l, tokens[..n], k, v)
  {
    hide KeyRows, ValueRows, Flat, Sized;
    var d, ks, vs := c.KvDim(), KeyRows(c, net, l, tokens), ValueRows(c, net, l, tokens);
    RowsSized(c, net, l, tokens);
    RowsCausal(c, net, l, tokens, n);
    FlatPrefix(ks, n, d);
    FlatPrefix(vs, n, d);
    MulMonotone(n, |tokens|, d);
    TakeTake(k, k, n * d, |tokens| * d);
    TakeTake(v, v, n * d, |tokens| * d);
  }

  /** Writing row p on leaves what the cache holds about p tokens or fewer. */
  lemma {:induction false} SameBefore(c: Config, net: Net, l: nat, tokens: seq<int>, k0: Vector, v0: Vector, k: Vector,
      v: Vector, p: nat)
    requires c.Valid() && CacheIs(c, net, l, tokens, k0, v0) && |tokens| <= p && 0 <= p * c.KvDim()
    requires OnlyRow(k0, k, p * c.KvDim(), c.KvDim()) && OnlyRow(v0, v, p * c.KvDim(), c.KvDim())
    ensures CacheIs(c, net, l, tokens, k, v)
  {
    hide KeyRows, ValueRows, Flat;
    var d := c.KvDim();
    MulMonotone(|tokens|, p, d);
    TakeTake(k0, k, |tokens| * d, p * d);
    TakeTake(v0, v, |tokens| * d, p * d);
  }

  lemma {:induction false} AttendLength(c: Config, net: Net, q: Vector, k: Vector, v: Vector, n: nat)
    requires c.Valid()
    ensures |Attend(c, net, q, k, v, n)| == c.QDim()
  {}

  lemma {:induction false} SplicedRow(a: Vector, at: nat, row: Vector)
    requires at + |row| <= |a|
    ensures |Splice(a, at, row)| == |a| && Splice(a, at, row)[..at + |row|] == a[..at] + row
  {}

  /** One cached layer step for the last of the tokens is the cacheless layer. */
  lemma {:induction false} LayerStep(c: Config, net: Net, l: nat, tokens: seq<int>, x0: Vector, k0: Vector, v0: Vector,
      k: Vector, v: Vector, x: Vector)
    requires c.Valid() && |tokens| > 0
    requires var p := |tokens| - 1;
      && x0 == Hidden(c, net, l, tokens)[p] && CacheIs(c, net, l, tokens[..p], k0, v0)
      && 0 <= p * c.KvDim() && p * c.KvDim() + c.KvDim() <= |k0| && p * c.KvDim() + c.KvDim() <= |v0|
      && k == Splice(k0, p * c.KvDim(), Key(c, net, l, p, x0)) && v == Splice(v0, p * c.KvDim(), Value(c, net, l, x0))
      && x == FeedForward(c, net, l, Attention(c, net, l, p, x0, k, v))
    ensures CacheIs(c, net, l, tokens, k, v) && x == Hidden(c, net, l + 1, tokens)[|tokens| - 1]
  {
    RowAdded(c, net, l, tokens, x0, k0, v0, k, v);
    LayerIs(c, net, l, tokens, x0, k, v);
  }

  lemma {:induction false} RowAdded(c: Config, net: Net, l: nat, tokens: seq<int>, x0: Vector, k0: Vector, v0: Vector,
      k: Vector, v: Vector)
    requires c.Valid() && |tokens| > 0
    requires var p := |tokens| - 1;
      && x0 == Hidden(c, net, l, tokens)[p] && CacheIs(c, net, l, tokens[..p], k0, v0)
      && 0 <= p * c.KvDim() && p * c.KvDim() + c.KvDim() <= |k0| && p * c.KvDim() + c.KvDim() <= |v0|
      && k == Splice(k0, p * c.KvDim(), Key(c, net, l, p, x0)) && v == Splice(v0, p * c.KvDim(), Value(c, net, l, x0))
    ensures CacheIs(c, net, l, tokens, k, v)
  {
    var p, m := |tokens| - 1, c.KvDim();
    var ks, vs := KeyRows(c, net, l, tokens), ValueRows(c, net, l, tokens);
    LastRows(c, net, l, tokens, x0);
    CacheMeans(c, net, l, tokens[..p], k0, v0);
    RowInTable(p, |tokens|, m);
    hide *;
    RowsCausal(c, net, l, tokens, p);
    AddedFlat(ks, p, m, k0, k);
    AddedFlat(vs, p, m, v0, v);
    CacheMade(c, net, l, tokens, k, v);
  }

  lemma {:induction false} LastRows(c: Config, net: Net, l: nat, tokens: seq<int>, x0: Vector)
    requires c.Valid() && |tokens| > 0 && x0 == Hidden(c, net, l, tokens)[|tokens| - 1]
    ensures var p, ks, vs := |tokens| - 1, KeyRows(c, net, l, tokens), ValueRows(c, net, l, tokens);
      && |ks| == |vs| == |tokens| && Sized(ks, c.KvDim()) && Sized(vs, c.KvDim())
      && ks[p] == Key(c, net, l, p, x0) && vs[p] == Value(c, net, l, x0) && |ks[p]| == |vs[p]| == c.KvDim()
  {
    RowsSized(c, net, l, tokens);
    hide Key, Value, Hidden, Sized;
    assert Sized(KeyRows(c, net, l, tokens), c.KvDim()) && Sized(ValueRows(c, net, l, tokens), c.KvDim());
    SizedAt(KeyRows(c, net, l, tokens), |tokens| - 1, c.KvDim());
    SizedAt(ValueRows(c, net, l, tokens), |tokens| - 1, c.KvDim());
  }

  lemma {:induction false} SizedAt(h: seq<Vector>, i: nat, n: nat)
    requires Sized(h, n) && i < |h|
    ensures |h[i]| == n
  {}

  lemma {:induction false} CacheMeans(c: Config, net: Net, l: nat, tokens: seq<int>, k: Vector, v: Vector)
    requires c.Valid() && CacheIs(c, net, l, tokens, k, v)
    ensures var n := |tokens| * c.KvDim();
      && 0 <= n <= |k| && n <= |v|
      && k[..n] == Flat(KeyRows(c, net, l, tokens)) && v[..n] == Flat(ValueRows(c, net, l, tokens))
  {}

  lemma {:induction false} CacheMade(c: Config, net: Net, l: nat, tokens: seq<int>, k: Vector, v: Vector)
    requires c.Valid()
    requires var n := |tokens| * c.KvDim();
      && 0 <= n <= |k| && n <= |v|
      && k[..n] == Flat(KeyRows(c, net, l, tokens)) && v[..n] == Flat(ValueRows(c, net, l, tokens))
    ensures CacheIs(c, net, l, tokens, k, v)
  {}

  /** Row p spliced in behind the first p rows. */
  lemma {:induction false} AddedFlat(rows: seq<Vector>, p: nat, m: nat, a: Vector, b: Vector)
    requires |rows| == p + 1 && |rows[p]| == m && 0 <= p * m && p * m + m <= |a| && b == Splice(a, p * m, rows[p])
    requires a[..p * m] == Flat(rows[..p])
    ensures p * m + m <= |b| && b[..p * m + m] == Flat(rows)
  {
    FlatNext(rows, p);
    assert rows[..p + 1] == rows;
    hide Flat;
    SplicedRow(a, p * m, rows[p]);
  }

  lemma {:induction false} LayerIs(c: Config, net: Net, l: nat, tokens: seq<int>, x0: Vector, k: Vector, v: Vector)
    requires c.Valid() && |tokens| > 0 && CacheIs(c, net, l, tokens, k, v)
    requires x0 == Hidden(c, net, l, tokens)[|tokens| - 1]
    ensures FeedForward(c, net, l, Attention(c, net, l, |tokens| - 1, x0, k, v))
      == Hidden(c, net, l + 1, tokens)[|tokens| - 1]
  {
    var p, h := |tokens| - 1, Hidden(c, net, l, tokens);
    var ks, vs := Keys(c, net, l, h), Values(c, net, l, h);
    RowsSized(c, net, l, tokens);
    FlatLength(ks, c.KvDim());
    FlatLength(vs, c.KvDim());
    assert ks[..p + 1] == ks && vs[..p + 1] == vs;
    AttendPrefix(c, net, Query(c, net, l, p, x0), k, v, Flat(ks), Flat(vs), p + 1);
    assert Hidden(c, net, l + 1, tokens)[p] == LayerAt(c, net, l, h, p);
  }

  // ---- greedy sampling

  /** The first of the largest of the first n logits, or 0 when there are none. */
  function ArgmaxOf(s: Vector, n: nat): nat
    requires n <= |s|
  {
    if n <= 1 then 0
    else
      var best := ArgmaxOf(s, n - 1);
      if best < |s| && s[n - 1] > s[best] then n - 1 else best
  }

  lemma {:induction false} ArgmaxIsFirst(s: Vector, n: nat)
    requires 0 < n <= |s|
    ensures ArgmaxOf(s, n) < n
    ensures forall i :: 0 <= i < n ==> s[i] <= s[ArgmaxOf(s, n)]
    ensures forall i :: 0 <= i < ArgmaxOf(s, n) ==> s[i] < s[ArgmaxOf(s, n)]
  {
    if n > 1 { ArgmaxIsFirst(s, n - 1); }
  }

  method Argmax(logits: array<real>) returns (best: nat)
    ensures best == ArgmaxOf(logits[..], logits.Length)
    ensures logits.Length > 0 ==> best < logits.Length
    ensures forall i :: 0 <= i < logits.Length ==> logits[i] <= logits[best]
    ensures forall i :: 0 <= i < best ==> logits[i] < logits[best]
  {
    best := 0;
    for i := 0 to logits.Length
      invariant best == ArgmaxOf(logits[..], i) && (logits.Length > 0 ==> best < logits.Length)
    {
      if i > 0 { ArgmaxIsFirst(logits[..], i); }
      if logits[i] > logits[best] { best := i; }
    }
    if logits.Length > 0 { ArgmaxIsFirst(logits[..], logits.Length); }
  }

  /** Greedy decoding with the cacheless transformer: up to n tokens after tokens. */
  function Greedy(c: Config, net: Net, tokens: seq<int>, n: nat, stop: set<int>): seq<int>
    requires c.Valid() && |tokens| > 0
    decreases n
  {
    if n == 0 then [] else
      var next := ArgmaxOf(Logits(c, net, tokens), c.vocab);
      if next in stop then [] else [next] + Greedy(c, net, tokens + [next], n - 1, stop)
  }

  datatype RunResult = Finished | Refused | Failed(outcome: Outcome)

  /** Forward at the position after the history. */
  method ForwardNext(m: Model, token: int, p: int, ghost history: seq<int>) returns (r: Outcome)
    requires m.Valid() && m.CacheHolds(history) && p == |history|
    modifies m`pos, m.Work(), m.Caches()
    ensures r == BadPosition <==> p >= m.c.maxLen
    ensures r == BadToken <==> p < m.c.maxLen && !(0 <= token < m.c.vocab)
    ensures r == Ok ==> m.CacheHolds(history + [token]) && m.hostLogits[..] == Logits(m.c, m.net, history + [token])
  {
    hide Logits, Model.CacheHolds, Model.Distinct;
    assert history[..p] == history;
    r := m.Forward(token, p, history);
  }

  /** run's two loops. Whatever the flags, positions are only ever out of range when the
      prompt alone is longer than the cache, and the output is the greedy decoding of the
      cacheless transformer, or a prefix of it when a device call failed. */
  method Generate(m: Model, ids: seq<int>, n: int, stop: set<int>) returns (r: RunResult, out: seq<int>)
    requires m.Valid() && |ids| > 0
    modifies m`pos, m.Work(), m.Caches()
    ensures var budget := if n <= 0 then m.c.maxLen - |ids| else n;
      && (r == Refused <==> |ids| + budget > m.c.maxLen || budget == 0)
      && (r == Finished ==> out == if budget < 0 then [] else Greedy(m.c, m.net, ids, budget, stop))
      && (budget >= 0 ==> out <= Greedy(m.c, m.net, ids, budget, stop))
    ensures r == Failed(BadPosition) ==> |ids| > m.c.maxLen
    ensures r == Failed(BadToken) ==> exists i :: 0 <= i < |ids| && !(0 <= ids[i] < m.c.vocab)
    ensures r != Failed(Ok)
  {
    hide Logits, Greedy, Model.CacheHolds, Model.Distinct;
    out := [];
    var budget := n;
    if budget <= 0 { budget := m.c.maxLen - |ids|; }
    if |ids| + budget > m.c.maxLen || budget == 0 { return Refused, out; }
    m.EmptyHistory();
    for i := 0 to |ids|
      invariant m.CacheHolds(ids[..i])
      invariant i > 0 ==> m.hostLogits[..] == Logits(m.c, m.net, ids[..i]) && m.c.vocab > 0
    {
      var e := ForwardNext(m, ids[i], i, ids[..i]);
      if e != Ok { return Failed(e), out; }
      assert ids[..i] + [ids[i]] == ids[..i + 1];
    }
    assert ids[..|ids|] == ids;
    r, out := GenerateLoop(m, ids, budget, stop);
  }

  /** The loop "for pos := len(ids); generated < n; pos++". */
  method GenerateLoop(m: Model, ids: seq<int>, n: int, stop: set<int>) returns (r: RunResult, out: seq<int>)
    requires m.Valid() && |ids| > 0 && |ids| + n <= m.c.maxLen && m.c.vocab > 0
    requires m.CacheHolds(ids) && m.hostLogits[..] == Logits(m.c, m.net, ids)
    modifies m`pos, m.Work(), m.Caches()
    ensures r == Finished || r == Failed(Device)
    ensures r == Finished ==> out == if n < 0 then [] else Greedy(m.c, m.net, ids, n, stop)
    ensures n >= 0 ==> out <= Greedy(m.c, m.net, ids, n, stop)
  {
    hide Logits, Greedy, Decoding, Model.CacheHolds, Model.Distinct;
    out := [];
    var generated, pos := 0, |ids|;
    ghost var total := if n < 0 then 0 else n;
    DecodingStart(m.c, m.net, ids, total, stop);
    GreedyDone(m.c, m.net, ids, stop);
    while generated < n
      invariant generated == |out| <= total && pos == |ids| + |out| && Decoding(m.c, m.net, ids, total, stop, out)
      invariant m.CacheHolds(ids + out) && m.hostLogits[..] == Logits(m.c, m.net, ids + out)
    {
      var next := Argmax(m.hostLogits);
      if next in stop {
        DecodingStops(m.c, m.net, ids, total, stop, out);
        break;
      }
      DecodingGoesOn(m.c, m.net, ids, total, stop, out, next);
      generated := generated + 1;
      ghost var history := ids + out;
      out := out + [next];
      var e := ForwardNext(m, next, pos, history);
      if e != Ok {
        DecodingPrefix(m.c, m.net, ids, total, stop, out);
        return Failed(e), out;
      }
      pos := pos + 1;
    }
    if generated == total { DecodingDone(m.c, m.net, ids, total, stop, out); }
    r := Finished;
  }

  /** What has been put out and what greedy decoding still has to add make up all of it. */
  ghost predicate Decoding(c: Config, net: Net, ids: seq<int>, n: nat, stop: set<int>, out: seq<int>)
    requires c.Valid() && |ids| > 0
  {
    |out| <= n && Greedy(c, net, ids, n, stop) == out + Greedy(c, net, ids + out, n - |out|, stop)
  }

  lemma {:induction false} DecodingStart(c: Config, net: Net, ids: seq<int>, n: nat, stop: set<int>)
    requires c.Valid() && |ids| > 0
    ensures Decoding(c, net, ids, n, stop, []) && ids + [] == ids
  {
    hide Greedy;
    var all := Greedy(c, net, ids, n, stop);
    assert ids + [] == ids && [] + all == all;
  }

  lemma {:induction false} DecodingPrefix(c: Config, net: Net, ids: seq<int>, n: nat, stop: set<int>, out: seq<int>)
    requires c.Valid() && |ids| > 0 && Decoding(c, net, ids, n, stop, out)
    ensures out <= Greedy(c, net, ids, n, stop)
  {
    hide Greedy;
  }

  /** A stop token ends the output. */
  lemma {:induction false} DecodingStops(c: Config, net: Net, ids: seq<int>, n: nat, stop: set<int>, out: seq<int>)
    requires c.Valid() && |ids| > 0 && |out| < n && Decoding(c, net, ids, n, stop, out)
    requires ArgmaxOf(Logits(c, net, ids + out), c.vocab) in stop
    ensures Greedy(c, net, ids, n, stop) == out
  {
    GreedyNext(c, net, ids + out, n - |out|, stop);
    hide Greedy, Logits;
  }

  /** Any other goes on with it. */
  lemma {:induction false} DecodingGoesOn(c: Config, net: Net, ids: seq<int>, n: nat, stop: set<int>, out: seq<int>,
      next: int)
    requires c.Valid() && |ids| > 0 && |out| < n && Decoding(c, net, ids, n, stop, out)
    requires next == ArgmaxOf(Logits(c, net, ids + out), c.vocab) && next !in stop
    ensures Decoding(c, net, ids, n, stop, out + [next]) && ids + out + [next] == ids + (out + [next])
  {
    hide *;
    var rest := Greedy(c, net, ids + out + [next], n - |out| - 1, stop);
    DecodingUnfolds(c, net, ids, n, stop, out, next);
    OneMore(ids, out, next, rest);
    DecodingMade(c, net, ids, n, stop, out + [next], ids + out + [next], rest);
  }

  lemma {:induction false} DecodingUnfolds(c: Config, net: Net, ids: seq<int>, n: nat, stop: set<int>, out: seq<int>,
      next: int)
    requires c.Valid() && |ids| > 0 && |out| < n && Decoding(c, net, ids, n, stop, out)
    requires next == ArgmaxOf(Logits(c, net, ids + out), c.vocab) && next !in stop
    ensures Greedy(c, net, ids, n, stop) == out + ([next] + Greedy(c, net, ids + out + [next], n - |out| - 1, stop))
  {
    GreedyNext(c, net, ids + out, n - |out|, stop);
    hide Greedy, Logits;
  }

  lemma {:induction false} DecodingMade(c: Config, net: Net, ids: seq<int>, n: nat, stop: set<int>, out: seq<int>,
      tokens: seq<int>, rest: seq<int>)
    requires c.Valid() && |ids| > 0 && |out| <= n && tokens == ids + out
      && rest == Greedy(c, net, tokens, n - |out|, stop)
    requires Greedy(c, net, ids, n, stop) == out + rest
    ensures Decoding(c, net, ids, n, stop, out)
  {
    hide Greedy;
  }

  lemma {:induction false} DecodingDone(c: Config, net: Net, ids: seq<int>, n: nat, stop: set<int>, out: seq<int>)
    requires c.Valid() && |ids| > 0 && |out| == n && Decoding(c, net, ids, n, stop, out)
    ensures out == Greedy(c, net, ids, n, stop)
  {
    GreedyDone(c, net, ids + out, stop);
    hide Greedy;
  }

  lemma {:induction false} GreedyNext(c: Config, net: Net, tokens: seq<int>, n: nat, stop: set<int>)
    requires c.Valid() && |tokens| > 0 && n > 0
    ensures var next := ArgmaxOf(Logits(c, net, tokens), c.vocab);
      Greedy(c, net, tokens, n, stop) == if next in stop then []
        else [next] + Greedy(c, net, tokens + [next], n - 1, stop)
  {
    hide Logits;
  }

  lemma {:induction false} GreedyDone(c: Config, net: Net, tokens: seq<int>, stop: set<int>)
    requires c.Valid() && |tokens| > 0
    ensures Greedy(c, net, tokens, 0, stop) == []
  {}

  // ---- what greedy decoding is

  /** The first token with the largest logit after tokens. */
  ghost predicate Chosen(c: Config, net: Net, tokens: seq<int>, t: int)
    requires c.Valid() && |tokens| > 0
  {
    var s := Logits(c, net, tokens);
    && 0 <= t < |s|
    && (forall i :: 0 <= i < |s| ==> s[i] <= s[t])
    && forall i :: 0 <= i < t ==> s[i] < s[t]
  }

  lemma {:induction false} ChosenIs(c: Config, net: Net, tokens: seq<int>, t: int)
    requires c.Valid() && |tokens| > 0 && c.vocab > 0
    ensures Chosen(c, net, tokens, t) <==> t == ArgmaxOf(Logits(c, net, tokens), c.vocab)
  {
    var s := Logits(c, net, tokens);
    assert |s| == c.vocab;
    ArgmaxIsFirst(s, c.vocab);
    hide Logits, ArgmaxOf;
  }

  /** out continues tokens by chosen tokens, none of them a stop, and ends after n of them or where a stop
      is chosen. */
  ghost predicate Continues(c: Config, net: Net, tokens: seq<int>, n: nat, stop: set<int>, out: seq<int>)
    requires c.Valid() && |tokens| > 0
  {
    && |out| <= n
    && (forall i :: 0 <= i < |out| ==> Chosen(c, net, tokens + out[..i], out[i]) && out[i] !in stop)
    && (|out| < n ==> exists t :: t in stop && Chosen(c, net, tokens + out, t))
  }

  /** A continuation is a chosen token and a continuation after it. */
  lemma {:induction false} ContinuesNext(c: Config, net: Net, tokens: seq<int>, n: nat, stop: set<int>, out: seq<int>)
    requires c.Valid() && |tokens| > 0 && n > 0 && out != [] && Chosen(c, net, tokens, out[0])
    ensures Continues(c, net, tokens, n, stop, out)
      <==> out[0] !in stop && Continues(c, net, tokens + [out[0]], n - 1, stop, out[1..])
  {
    hide Chosen;
    var more, rest := tokens + [out[0]], out[1..];
    assert tokens + out[..0] == tokens && more + rest == tokens + out;
    forall i | 0 <= i < |rest| ensures more + rest[..i] == tokens + out[..i + 1] && rest[i] == out[i + 1] {}
  }

  /** out starts with next and goes on with rest, or ends because next is a stop. */
  predicate Cons(out: seq<int>, next: int, stop: set<int>, goesOn: bool) {
    if out == [] then next in stop else out[0] == next && next !in stop && goesOn
  }

  lemma {:induction false} NothingContinues(c: Config, net: Net, tokens: seq<int>, n: nat, stop: set<int>)
    requires c.Valid() && |tokens| > 0 && c.vocab > 0
    ensures Continues(c, net, tokens, n, stop, []) <==> n == 0 || ArgmaxOf(Logits(c, net, tokens), c.vocab) in stop
  {
    var next := ArgmaxOf(Logits(c, net, tokens), c.vocab);
    ChosenIs(c, net, tokens, next);
    hide Chosen, Logits, ArgmaxOf;
    assert tokens + [] == tokens;
    forall t | Chosen(c, net, tokens, t) ensures t == next { ChosenIs(c, net, tokens, t); }
  }

  lemma {:induction false} NoneContinues(c: Config, net: Net, tokens: seq<int>, stop: set<int>, out: seq<int>)
    requires c.Valid() && |tokens| > 0 && c.vocab > 0
    ensures Continues(c, net, tokens, 0, stop, out) <==> out == []
  {
    NothingContinues(c, net, tokens, 0, stop);
    hide Chosen;
  }

  lemma {:induction false} ChosenInRange(c: Config, net: Net, tokens: seq<int>)
    requires c.Valid() && |tokens| > 0
    ensures |Logits(c, net, tokens)| == c.vocab
  {}

  lemma {:induction false} ContinuesCons(c: Config, net: Net, tokens: seq<int>, n: nat, stop: set<int>, out: seq<int>)
    requires c.Valid() && |tokens| > 0 && c.vocab > 0 && n > 0
    ensures var next := ArgmaxOf(Logits(c, net, tokens), c.vocab);
      Continues(c, net, tokens, n, stop, out)
      <==> Cons(out, next, stop, out != [] && Continues(c, net, tokens + [next], n - 1, stop, out[1..]))
  {
    if out == [] {
      NothingContinues(c, net, tokens, n, stop);
    } else {
      ChosenIs(c, net, tokens, out[0]);
      if Chosen(c, net, tokens, out[0]) {
        ContinuesNext(c, net, tokens, n, stop, out);
      } else {
        assert tokens + out[..0] == tokens;
      }
    }
    hide Chosen, Logits, ArgmaxOf;
  }

  predicate IsGreedy(c: Config, net: Net, tokens: seq<int>, n: nat, stop: set<int>, out: seq<int>)
    requires c.Valid() && |tokens| > 0
  {
    out == Greedy(c, net, tokens, n, stop)
  }

  lemma {:induction false} GreedyCons(c: Config, net: Net, tokens: seq<int>, n: nat, stop: set<int>, out: seq<int>)
    requires c.Valid() && |tokens| > 0 && n > 0
    ensures var next := ArgmaxOf(Logits(c, net, tokens), c.vocab);
      IsGreedy(c, net, tokens, n, stop, out)
      <==> Cons(out, next, stop, out != [] && IsGreedy(c, net, tokens + [next], n - 1, stop, out[1..]))
  {
    var next := ArgmaxOf(Logits(c, net, tokens), c.vocab);
    GreedyNext(c, net, tokens, n, stop);
    hide Greedy, Logits, ArgmaxOf;
    var rest := Greedy(c, net, tokens + [next], n - 1, stop);
    if out != [] { assert out == [out[0]] + out[1..]; }
    assert ([next] + rest)[0] == next && ([next] + rest)[1..] == rest;
  }

  lemma {:induction false} ContinuesGreedily(c: Config, net: Net, tokens: seq<int>, n: nat, stop: set<int>,
      out: seq<int>)
    requires c.Valid() && |tokens| > 0 && c.vocab > 0
    ensures Continues(c, net, tokens, n, stop, out) <==> IsGreedy(c, net, tokens, n, stop, out)
    decreases n
  {
    if n == 0 {
      NoneContinues(c, net, tokens, stop, out);
      GreedyDone(c, net, tokens, stop);
      hide Greedy, Continues;
    } else {
      ChosenInRange(c, net, tokens);
      hide *;
      var next := ArgmaxOf(Logits(c, net, tokens), c.vocab);
      ContinuesCons(c, net, tokens, n, stop, out);
      GreedyCons(c, net, tokens, n, stop, out);
      if out != [] { ContinuesGreedily(c, net, tokens + [next], n - 1, stop, out[1..]); }
    }
  }

  /** Greedy decoding is the only such continuation. */
  lemma {:induction false} GreedyExactly(c: Config, net: Net, tokens: seq<int>, n: nat, stop: set<int>, out: seq<int>)
    requires c.Valid() && |tokens| > 0 && c.vocab > 0
    ensures Continues(c, net, tokens, n, stop, out) <==> out == Greedy(c, net, tokens, n, stop)
  {
    ContinuesGreedily(c, net, tokens, n, stop, out);
    hide Continues, Greedy;
  }

  lemma {:induction false} OneMore(ids: seq<int>, out: seq<int>, next: int, rest: seq<int>)
    ensures ids + out + [next] == ids + (out + [next]) && out + [next] + rest == out + ([next] + rest)
  {}
}
