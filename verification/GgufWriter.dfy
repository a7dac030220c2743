/** The Writer and its counting output. */
module GgufWriter {
  import opened Wrappers
  import opened Buffered
  import opened GgufCodec
  import opened GgufFile
  import opened GgufRoundTrip
  import opened GgufChunks
  import opened Arith

  /** countWriter */
  class CountWriter {
    var w: Out
    var n: nat
    var err: bool

    ghost predicate Valid() reads this { Sane(w) && (w.failed ==> err) }

    ghost function State(): Sink reads this { Sink(w, n, err) }

    constructor (capacity: nat)
      ensures Valid() && State() == Start(capacity)
    {
      w, n, err := Out(capacity, [], [], false), 0, false;
    }

    method Raw(b: Bytes)
      requires Valid()
      modifies this
      ensures Valid() && State() == FeedAll(old(State()), [Put(b)])
      ensures !err ==> n == old(n) + |b|
    {
      FeedOne(State(), Put(b));
      if err { return; }
      var r := Write(w, b);
      w, n, err := r.0, n + r.1, r.0.failed;
    }

    method U(k: nat, v: nat)
      requires Valid()
      modifies this
      ensures Valid() && State() == FeedAll(old(State()), [Put(LE(k, v))])
    {
      Raw(LE(k, v));
    }

    method Str(s: Bytes)
      requires Valid()
      modifies this
      ensures Valid() && State() == FeedAll(old(State()), StrChunks(s))
    {
      ghost var s0 := State();
      U(8, |s|);
      Raw(s);
      FeedConcat(s0, [Put(LE(8, |s|))], [Put(s)]);
      assert [Put(LE(8, |s|))] + [Put(s)] == StrChunks(s);
    }

    method FlushRest()
      requires Valid()
      modifies this
      ensures Valid() && w == Flush(old(w)) && n == old(n) && err == w.failed
    {
      w := Flush(w);
      err := w.failed;
    }

    /** The loop writes zeros until the count is aligned. After an error the count no longer
        moves, so with an unaligned count it never ends; then spins is returned instead. */
    method Pad(align: nat) returns (spins: bool)
      requires Valid() && align > 0
      modifies this
      ensures Valid() && State() == FeedAll(old(State()), ZeroChunks(PadLength(old(n), align)))
      ensures (spins <==> err && n % align != 0) && (!spins ==> n % align == 0)
    {
      hide FeedAll, PadLength;
      ghost var s0, total := State(), PadLength(n, align);
      ghost var k: nat := 0;
      NoneFed(s0);
      while n % align != 0
        invariant Valid() && k <= total && State() == FeedAll(s0, ZeroChunks(k))
        invariant !err ==> total - k == PadLength(n, align)
        decreases total - k, !err
      {
        if err {
          MoreFed(s0, k, total);
          return true;
        }
        PadNext(n, align);
        Raw([0]);
        FeedConcat(s0, ZeroChunks(k), [Put([0])]);
        k := k + 1;
      }
      PadDone(n, align);
      if err { MoreFed(s0, k, total); }
      return false;
    }

    method PutValue(v: Value)
      requires Valid()
      modifies this
      ensures Valid() && State() == FeedAll(old(State()), [Put(LE(4, Code(v)))] + ValueChunks(v))
    {
      ghost var s0 := State();
      U(4, Code(v));
      Typed(v);
      FeedConcat(s0, [Put(LE(4, Code(v)))], ValueChunks(v));
    }

    method Typed(v: Value)
      requires Valid()
      modifies this
      ensures Valid() && State() == FeedAll(old(State()), ValueChunks(v))
      decreases v
    {
      ghost var s0 := State();
      match v
      case UInt(size, x) => U(size, x);
      case SInt(size, i) => U(size, Unsigned(size, i));
      case Float(size, bits) => U(size, bits);
      case Bool(b) => Raw([if b then 1 else 0]);
      case Str(s) => Str(s);
      case Arr(elem, vs) =>
        hide FeedAll, ValueChunks;
        U(4, elem);
        U(8, |vs|);
        FeedConcat(s0, [Put(LE(4, elem))], [Put(LE(8, |vs|))]);
        ghost var front := [Put(LE(4, elem))] + [Put(LE(8, |vs|))];
        ghost var s1 := State();
        NoneFed(s1);
        for i := 0 to |vs|
          invariant Valid() && State() == FeedAll(s1, ElemChunks(vs, i))
        {
          Typed(vs[i]);
          FeedConcat(s1, ElemChunks(vs, i), ValueChunks(vs[i]));
        }
        FeedConcat(s0, front, ElemChunks(vs, |vs|));
        ArrChunks(elem, vs);
      case Unknown(_, _) =>
        FeedOne(s0, Unwritable);
        err := true;
    }
  }

  lemma {:induction false} ArrChunks(elem: nat, vs: seq<Value>)
    ensures ValueChunks(Arr(elem, vs)) == [Put(LE(4, elem))] + [Put(LE(8, |vs|))] + ElemChunks(vs, |vs|)
  {}

  lemma {:induction false} NoneFed(s: Sink)
    requires Sane(s.o)
    ensures FeedAll(s, []) == s
  {}

  /** After an error more zeros change nothing. */
  lemma {:induction false} MoreFed(s: Sink, k: nat, total: nat)
    requires Sane(s.o) && k <= total && FeedAll(s, ZeroChunks(k)).err
    ensures FeedAll(s, ZeroChunks(total)) == FeedAll(s, ZeroChunks(k))
    decreases total - k
  {
    hide FeedAll;
    if k < total {
      FeedConcat(s, ZeroChunks(k), [Put([0])]);
      MoreFed(s, k + 1, total);
    }
  }

  lemma {:induction false} PadDone(n: nat, a: nat)
    requires a > 0 && n % a == 0
    ensures PadLength(n, a) == 0
  {}

  /** One zero brings the count one step closer to alignment. */
  lemma {:induction false} PadNext(n: nat, a: nat)
    requires a > 0 && n % a != 0
    ensures PadLength(n, a) == 1 + PadLength(n + 1, a)
  {
    var q, r := n / a, n % a;
    assert n + 1 == q * a + (r + 1);
    if r + 1 == a {
      assert (q + 1) * a == q * a + a;
      DivModUnique(q + 1, 0, a, n + 1);
    } else {
      DivModUnique(q, r + 1, a, n + 1);
    }
  }

  // ---- shapes

  function Reverse(s: seq<nat>): (r: seq<nat>)
    ensures |r| == |s| && forall i :: 0 <= i < |s| ==> r[i] == s[|s| - 1 - i]
  {
    if s == [] then [] else Reverse(s[1..]) + [s[0]]
  }

  lemma {:induction false} ElemsConcat(a: seq<nat>, b: seq<nat>)
    ensures NumElems(a + b) == NumElems(a) * NumElems(b)
  {
    if b == [] {
      assert a + b == a;
    } else {
      var c := b[..|b| - 1];
      ElemsConcat(a, c);
      assert (a + b)[..|a + b| - 1] == a + c;
      assert NumElems(a) * NumElems(c) * b[|b| - 1] == NumElems(a) * (NumElems(c) * b[|b| - 1]);
    }
  }

  /** Reversing the dimensions keeps the number of elements. */
  lemma {:induction false} ElemsReverse(s: seq<nat>)
    ensures NumElems(Reverse(s)) == NumElems(s)
  {
    if s != [] {
      ElemsReverse(s[1..]);
      ElemsConcat(Reverse(s[1..]), [s[0]]);
      ElemsConcat([s[0]], s[1..]);
      assert [s[0]] + s[1..] == s;
      ElemsOne(s[0]);
    }
  }

  lemma {:induction false} ElemsOne(d: nat)
    ensures NumElems([d]) == d
  {
    assert [d][..0] == [];
    assert NumElems([d]) == NumElems([]) * d;
  }

  function Product(shape: seq<int>): int {
    if shape == [] then 1 else Product(shape[..|shape| - 1]) * shape[|shape| - 1]
  }

  lemma {:induction false} NoProduct(shape: seq<int>)
    ensures Product(shape[..0]) == 1
  {}

  lemma {:induction false} NextProduct(shape: seq<int>, i: nat)
    requires i < |shape|
    ensures Product(shape[..i + 1]) == Product(shape[..i]) * shape[i]
  {
    assert shape[..i + 1][..i] == shape[..i];
  }

  /** The dimensions as they are stored: unsigned, so a negative one wraps. */
  function Words(shape: seq<int>): (ds: seq<nat>)
    ensures |ds| == |shape| && forall i :: 0 <= i < |shape| ==> ds[i] == Unsigned(8, shape[i])
  {
    seq(|shape|, i requires 0 <= i < |shape| => Unsigned(8, shape[i]))
  }

  /** A known type, whole blocks in the inner dimension, and exactly the bytes of the shape, in
      Go's signed arithmetic where nothing overflows. */
  predicate Accepts(shape: seq<int>, typ: nat, size: nat) {
    Known(typ) && shape != [] && shape[|shape| - 1] != 0 && (
      var inner := shape[|shape| - 1];
      Rem(inner, TypeInfo(typ).0) == 0 && size == ShapeBytes(inner, TypeInfo(typ), Product(shape)))
  }

  /** Type.RowBytes of the inner dimension, times the number of rows. */
  function ShapeBytes(inner: int, info: (nat, nat), n: int): int
    requires inner != 0 && info.0 > 0
  {
    Quo(inner, info.0) * info.1 * Quo(n, inner)
  }

  predicate InRange(shape: seq<int>) { forall i :: 0 <= i < |shape| ==> 0 <= shape[i] < Pow256(8) }

  lemma {:induction false} WordsAre(shape: seq<int>)
    requires InRange(shape)
    ensures Words(shape) == shape && Product(shape) == NumElems(Words(shape))
  {
    hide Pow256, NumElems, Product;
    forall i | 0 <= i < |shape| ensures Words(shape)[i] == shape[i] { DivModUnique(0, shape[i], Pow256(8), shape[i]); }
    ProductIs(Words(shape));
  }

  lemma {:induction false} ProductIs(ds: seq<nat>)
    ensures Product(ds) == NumElems(ds)
  {
    if ds != [] { ProductIs(ds[..|ds| - 1]); }
  }

  /** An accepted tensor without negative dimensions has the bytes its stored dimensions announce. */
  lemma {:induction false} AcceptedFits(name: Bytes, shape: seq<int>, typ: nat, data: Bytes)
    requires Accepts(shape, typ, |data|) && InRange(shape)
    ensures Fitting(Added(name, Reverse(Words(shape)), typ, data))
  {
    var ds, inner := Words(shape), shape[|shape| - 1];
    hide NumElems, Product, Pow256, Quo, Rem, TypeInfo;
    WordsAre(shape);
    ElemsReverse(ds);
    assert Reverse(ds)[0] == inner;
    BytesAre(inner, typ, Product(shape));
    hide *;
    IsFitting(name, Reverse(ds), typ, data);
  }

  lemma {:induction false} IsFitting(name: Bytes, dims: seq<nat>, typ: nat, data: Bytes)
    requires Known(typ) && dims != [] && dims[0] > 0
    requires |data| == Times(RowBytes(typ, dims[0]), Over(NumElems(dims), dims[0]))
    ensures Fitting(Added(name, dims, typ, data))
  {
    hide TypeInfo, NumElems;
  }

  lemma {:induction false} BytesAre(inner: nat, typ: nat, n: nat)
    requires inner > 0 && Known(typ)
    ensures ShapeBytes(inner, TypeInfo(typ), n) == Times(RowBytes(typ, inner), Over(n, inner))
  {
    QuoPositive(inner, TypeInfo(typ).0);
    QuoPositive(n, inner);
    hide Quo, TypeInfo;
  }

  datatype AddResult = Stored | Refused | DividesByZero

  datatype WriteResult = Written | Failed | Spins | PadsToZero

  // ---- how writing ends

  /** The layout needs an alignment, and every key a value. */
  predicate Located(w: Content) { w.alignment > 0 && forall k :: k in w.keys ==> k in w.kv }

  lemma {:induction false} IsLocated(w: Content)
    requires Consistent(w) && w.alignment > 0
    ensures Located(w)
  {}

  /** The end of writing w to an output that takes cap bytes: it never returns if the first error
      leaves an unaligned count, and succeeds if there is room for the file and every value has a
      known type. Without an error all of the file has been counted and sent. */
  ghost predicate Ended(w: Content, cap: nat, r: WriteResult, n: nat, taken: Bytes) {
    && Located(w) &&
    var file, chunks := FileBytes(w), FileChunks(w);
    var stop := StopOf(chunks, cap);
    && (r == Spins <==> !stop.Never? && stop.n % w.alignment != 0)
    && (r == Written <==> |file| <= cap && forall k :: k in w.keys ==> Storable(w.kv[k]))
    && r != PadsToZero && n == (if stop.Never? then |file| else stop.n)
    && Sent(chunks, cap) <= |file| && taken == file[..Sent(chunks, cap)]
  }

  // ---- the writer

  class Writer {
    var keys: seq<Bytes>
    var kv: map<Bytes, Value>
    var tensors: seq<Added>
    var alignment: nat

    ghost function Contents(): Content reads this { Content(keys, kv, tensors, alignment) }

    ghost predicate Valid() reads this { Consistent(Contents()) }

    constructor ()
      ensures Valid() && Contents() == Content([], map[], [], 32)
    {
      keys, kv, tensors, alignment := [], map[], [], 32;
    }

    /** A new key goes last; a repeated key keeps its place and takes the new value. */
    method Set(key: Bytes, v: Value)
      requires Valid()
      modifies this
      ensures Valid() && kv == old(kv)[key := v] && tensors == old(tensors)
      ensures keys == if key in old(kv) then old(keys) else old(keys) + [key]
      ensures alignment == if key == KEY_ALIGNMENT then Uint64(v) % 0x1_0000_0000 else old(alignment)
    {
      if key !in kv { keys := keys + [key]; }
      kv := kv[key := v];
      if key == KEY_ALIGNMENT { alignment := Uint64(v) % 0x1_0000_0000; }
    }

    /** Row-major shape, so the innermost dimension comes last; the source divides by it. */
    method AddTensor(name: Bytes, shape: seq<int>, typ: nat, data: Bytes) returns (r: AddResult)
      requires Valid()
      modifies this
      ensures Valid() && keys == old(keys) && kv == old(kv) && alignment == old(alignment)
      ensures r == Stored <==> Accepts(shape, typ, |data|)
      ensures r == DividesByZero <==> Known(typ) && shape != [] && shape[|shape| - 1] == 0
      ensures tensors == if r == Stored then old(tensors) + [Added(name, Reverse(Words(shape)), typ, data)]
        else old(tensors)
    {
      hide Unsigned, Product, TypeInfo, ShapeBytes;
      if !Known(typ) { return Refused; }
      var dims := new nat[|shape|];
      var n := 1;
      NoProduct(shape);
      for i := 0 to |shape|
        invariant n == Product(shape[..i])
        invariant forall j :: 0 <= j < i ==> dims[|shape| - 1 - j] == Words(shape)[j]
        modifies dims
      {
        dims[|shape| - 1 - i] := Unsigned(8, shape[i]);
        n := n * shape[i];
        NextProduct(shape, i);
      }
      if |shape| == 0 { return Refused; }
      assert shape[..|shape|] == shape;
      var inner := shape[|shape| - 1];
      if Rem(inner, TypeInfo(typ).0) != 0 { return Refused; }
      if inner == 0 { return DividesByZero; }
      if |data| != ShapeBytes(inner, TypeInfo(typ), n) { return Refused; }
      assert dims[..] == Reverse(Words(shape));
      tensors := tensors + [Added(name, dims[..], typ, data)];
      return Stored;
    }

    /** WriteTo to an output that takes capacity bytes and then fails. It never returns exactly when
        the first error leaves an unaligned count, and pad divides by an alignment of zero, of which
        nothing more is said. */
    method WriteTo(capacity: nat) returns (c: CountWriter, r: WriteResult)
      requires Valid()
      ensures fresh(c) && (r == PadsToZero <==> alignment == 0)
      ensures alignment > 0 ==> Ended(Contents(), capacity, r, c.n, c.w.taken)
    {
      c := new CountWriter(capacity);
      if alignment == 0 { return c, PadsToZero; }
      hide FileChunks, FeedAll, Flush, Ended, Consistent, Located;
      ghost var w := Contents();
      IsLocated(w);
      Outcome(w, capacity);
      var spins := PutFile(c);
      if spins { return c, Spins; }
      if !c.err { c.FlushRest(); }
      return c, if c.err then Failed else Written;
    }

    /** Everything up to the last flush. */
    method PutFile(c: CountWriter) returns (spins: bool)
      requires Valid() && alignment > 0 && c.Valid() && c.n == 0 && c.State() == Start(c.w.cap)
      modifies c
      ensures c.Valid() && c.State() == FeedAll(old(c.State()), FileChunks(Contents()))
      ensures spins <==> c.err && c.n % alignment != 0
    {
      ghost var w := Contents();
      ghost var s0, h := c.State(), HeaderChunks(w);
      ghost var z, d := ZeroChunks(PadLength(|EncHeader(w)|, alignment)), DataChunks(tensors, alignment, |tensors|);
      FileIsChunks(w);
      hide *;
      var offsets := Offsets();
      PutHeader(c, offsets);
      ghost var s1 := c.State();
      spins := c.Pad(alignment);
      HeaderPadded(w, s0.o.cap, s1);
      ghost var s2 := c.State();
      FeedConcat(s0, h, z + d);
      FeedConcat(s1, z, d);
      if spins {
        NothingFed(s2, d);
      } else {
        spins := PutData(c);
      }
    }

    /** The loop that assigns the data offsets. */
    method Offsets() returns (offsets: seq<nat>)
      requires alignment > 0
      ensures |offsets| == |tensors| && forall j :: 0 <= j < |tensors| ==> offsets[j] == OffsetOf(tensors, alignment, j)
    {
      hide AlignUp;
      offsets := [];
      var off := 0;
      for i := 0 to |tensors|
        invariant |offsets| == i && off == OffsetOf(tensors, alignment, i)
        invariant forall j :: 0 <= j < i ==> offsets[j] == OffsetOf(tensors, alignment, j)
      {
        offsets := offsets + [off];
        off := AlignUp(off + |tensors[i].data|, alignment);
      }
    }

    method PutHeader(c: CountWriter, offsets: seq<nat>)
      requires Valid() && alignment > 0 && c.Valid() && |offsets| == |tensors|
      requires forall j :: 0 <= j < |tensors| ==> offsets[j] == OffsetOf(tensors, alignment, j)
      modifies c
      ensures c.Valid() && c.State() == FeedAll(old(c.State()), HeaderChunks(Contents()))
    {
      ghost var s0 := c.State();
      ghost var a, b := [Put(LE(4, MAGIC)), Put(LE(4, 3))], [Put(LE(8, |tensors|)), Put(LE(8, |keys|))];
      ghost var kvs, infos := KVsChunks(keys, kv, |keys|), InfosChunks(tensors, alignment, |tensors|);
      HeaderIsChunks(Contents());
      hide *;
      Put2(c, 4, MAGIC, 4, 3);
      Put2(c, 8, |tensors|, 8, |keys|);
      FeedConcat(s0, a, b);
      ghost var s1 := c.State();
      PutKVs(c);
      PutInfos(c, offsets);
      FeedConcat(s1, kvs, infos);
      FeedConcat(s0, a + b, kvs + infos);
    }

    /** Two integers, one after the other. */
    method Put2(c: CountWriter, k: nat, x: nat, l: nat, y: nat)
      requires c.Valid()
      modifies c
      ensures c.Valid() && c.State() == FeedAll(old(c.State()), [Put(LE(k, x)), Put(LE(l, y))])
    {
      ghost var s0 := c.State();
      c.U(k, x);
      c.U(l, y);
      FeedConcat(s0, [Put(LE(k, x))], [Put(LE(l, y))]);
      assert [Put(LE(k, x))] + [Put(LE(l, y))] == [Put(LE(k, x)), Put(LE(l, y))];
    }

    method PutKVs(c: CountWriter)
      requires Valid() && c.Valid()
      modifies c
      ensures c.Valid() && c.State() == FeedAll(old(c.State()), KVsChunks(keys, kv, |keys|))
    {
      hide FeedAll, KVChunks;
      ghost var s0 := c.State();
      NoneFed(s0);
      for i := 0 to |keys|
        invariant c.Valid() && c.State() == FeedAll(s0, KVsChunks(keys, kv, i))
      {
        PutKV(c, keys[i], kv[keys[i]]);
        FeedConcat(s0, KVsChunks(keys, kv, i), KVChunks(keys[i], kv[keys[i]]));
      }
    }

    method PutKV(c: CountWriter, k: Bytes, v: Value)
      requires c.Valid()
      modifies c
      ensures c.Valid() && c.State() == FeedAll(old(c.State()), KVChunks(k, v))
    {
      hide FeedAll, ValueChunks, StrChunks;
      ghost var s0 := c.State();
      c.Str(k);
      c.PutValue(v);
      FeedConcat(s0, StrChunks(k), [Put(LE(4, Code(v)))] + ValueChunks(v));
    }

    method PutInfos(c: CountWriter, offsets: seq<nat>)
      requires alignment > 0 && c.Valid() && |offsets| == |tensors|
      requires forall j :: 0 <= j < |tensors| ==> offsets[j] == OffsetOf(tensors, alignment, j)
      modifies c
      ensures c.Valid() && c.State() == FeedAll(old(c.State()), InfosChunks(tensors, alignment, |tensors|))
    {
      hide FeedAll, InfoChunks, OffsetOf;
      ghost var s0 := c.State();
      NoneFed(s0);
      for i := 0 to |tensors|
        invariant c.Valid() && c.State() == FeedAll(s0, InfosChunks(tensors, alignment, i))
      {
        PutInfo(c, tensors[i], offsets[i]);
        FeedConcat(s0, InfosChunks(tensors, alignment, i), InfoChunks(tensors[i], offsets[i]));
      }
    }

    method PutInfo(c: CountWriter, t: Added, off: nat)
      requires c.Valid()
      modifies c
      ensures c.Valid() && c.State() == FeedAll(old(c.State()), InfoChunks(t, off))
    {
      ghost var name, count, dims := StrChunks(t.name), [Put(LE(4, |t.dims|))], DimChunks(t.dims, |t.dims|);
      ghost var last := [Put(LE(4, t.typ)), Put(LE(8, off))];
      InfoIsChunks(t, off);
      hide *;
      ghost var s0 := c.State();
      c.Str(t.name);
      ghost var s1 := c.State();
      c.U(4, |t.dims|);
      ghost var s2 := c.State();
      PutDims(c, t.dims);
      Put2(c, 4, t.typ, 8, off);
      FeedConcat(s2, dims, last);
      FeedConcat(s1, count, dims + last);
      FeedConcat(s0, name, count + (dims + last));
    }

    method PutDims(c: CountWriter, dims: seq<nat>)
      requires c.Valid()
      modifies c
      ensures c.Valid() && c.State() == FeedAll(old(c.State()), DimChunks(dims, |dims|))
    {
      hide FeedAll, LE;
      ghost var s0 := c.State();
      NoneFed(s0);
      for j := 0 to |dims|
        invariant c.Valid() && c.State() == FeedAll(s0, DimChunks(dims, j))
      {
        c.U(8, dims[j]);
        FeedConcat(s0, DimChunks(dims, j), [Put(LE(8, dims[j]))]);
      }
    }

    /** The data section; the count is aligned when it starts. */
    method PutData(c: CountWriter) returns (spins: bool)
      requires alignment > 0 && c.Valid() && c.n % alignment == 0
      modifies c
      ensures c.Valid() && c.State() == FeedAll(old(c.State()), DataChunks(tensors, alignment, |tensors|))
      ensures (spins <==> c.err && c.n % alignment != 0)
    {
      hide FeedAll, PadLength;
      ghost var s0 := c.State();
      NoneFed(s0);
      for i := 0 to |tensors|
        invariant c.Valid() && c.State() == FeedAll(s0, DataChunks(tensors, alignment, i)) && c.n % alignment == 0
      {
        ghost var s1, data := c.State(), tensors[i].data;
        c.Raw(tensors[i].data);
        ghost var s2 := c.State();
        spins := c.Pad(alignment);
        PaddedData(s1, s2, data, alignment);
        FeedConcat(s0, DataChunks(tensors, alignment, i), [Put(data)] + ZeroChunks(PadLength(|data|, alignment)));
        if spins {
          MoreData(s0, tensors, alignment, i + 1);
          return true;
        }
      }
      return false;
    }
  }

  /** What the writes of the file leave, and what the last flush makes of it. */
  lemma {:induction false} Outcome(w: Content, cap: nat)
    requires Located(w)
    ensures var s := FeedAll(Start(cap), FileChunks(w));
      && (s.err ==> Ended(w, cap, if s.n % w.alignment != 0 then Spins else Failed, s.n, s.o.taken))
      && (!s.err ==> Ended(w, cap, if Flush(s.o).failed then Failed else Written, s.n, Flush(s.o).taken))
  {
    hide FileBytes, FileChunks, FeedAll, StopOf, Sent, Storable, Joined, Flush, Writes;
    FileWritten(w);
    CountedExactly(FileChunks(w), cap);
  }

  lemma {:induction false} HeaderIsChunks(w: Content)
    requires w.alignment > 0 && forall k :: k in w.keys ==> k in w.kv
    ensures var a, b := [Put(LE(4, MAGIC)), Put(LE(4, 3))], [Put(LE(8, |w.tensors|)), Put(LE(8, |w.keys|))];
      HeaderChunks(w) == a + b + (KVsChunks(w.keys, w.kv, |w.keys|) + InfosChunks(w.tensors, w.alignment, |w.tensors|))
  {}

  /** The padding that the count after the header asks for is that of the header, or has no effect. */
  lemma {:induction false} HeaderPadded(w: Content, cap: nat, s: Sink)
    requires w.alignment > 0 && (forall k :: k in w.keys ==> k in w.kv) && s == FeedAll(Start(cap), HeaderChunks(w))
    ensures FeedAll(s, ZeroChunks(PadLength(s.n, w.alignment)))
      == FeedAll(s, ZeroChunks(PadLength(|EncHeader(w)|, w.alignment)))
  {
    CountedExactly(HeaderChunks(w), cap);
    HeaderWritten(w);
    hide *;
    if s.err {
      NothingFed(s, ZeroChunks(PadLength(s.n, w.alignment)));
      NothingFed(s, ZeroChunks(PadLength(|EncHeader(w)|, w.alignment)));
    }
  }

  lemma {:induction false} NothingFed(s: Sink, cs: seq<Chunk>)
    requires Sane(s.o) && s.err
    ensures FeedAll(s, cs) == s
  {}

  lemma {:induction false} PaddedData(s1: Sink, s2: Sink, data: Bytes, a: nat)
    requires a > 0 && s1.n % a == 0 && Sane(s1.o) && s2 == FeedAll(s1, [Put(data)])
      && (!s2.err ==> s2.n == s1.n + |data|)
    ensures FeedAll(s2, ZeroChunks(PadLength(s2.n, a))) == FeedAll(s1, [Put(data)] + ZeroChunks(PadLength(|data|, a)))
  {
    FeedConcat(s1, [Put(data)], ZeroChunks(PadLength(|data|, a)));
    PadShift(s1.n, |data|, a);
    hide *;
    if s2.err {
      NothingFed(s2, ZeroChunks(PadLength(s2.n, a)));
      NothingFed(s2, ZeroChunks(PadLength(|data|, a)));
    }
  }

  /** After an error the rest of the data changes nothing. */
  lemma {:induction false} MoreData(s: Sink, ts: seq<Added>, a: nat, i: nat)
    requires a > 0 && i <= |ts| && Sane(s.o) && FeedAll(s, DataChunks(ts, a, i)).err
    ensures FeedAll(s, DataChunks(ts, a, |ts|)) == FeedAll(s, DataChunks(ts, a, i))
    decreases |ts| - i
  {
    hide FeedAll, PadLength;
    if i < |ts| {
      FeedConcat(s, DataChunks(ts, a, i), [Put(ts[i].data)] + ZeroChunks(PadLength(|ts[i].data|, a)));
      MoreData(s, ts, a, i + 1);
    }
  }

  lemma {:induction false} PadShift(x: nat, n: nat, a: nat)
    requires a > 0 && x % a == 0
    ensures PadLength(x + n, a) == PadLength(n, a)
  {
    var p, q, r := x / a, n / a, n % a;
    assert x == p * a && n == q * a + r && x + n == (p + q) * a + r;
    DivModUnique(p + q, r, a, x + n);
  }

  // ---- writers that go wrong

  /** One float32 tensor t of 2048 zeros: 57 bytes of header, 7 of padding and 8192 of data. */
  function Big(): (w: Content)
    ensures Located(w)
  {
    Content([], map[], [Added([116], [2048], 0, Zeros(8192))], 32)
  }

  function BigHeader(): seq<Chunk> { HeaderChunks(Big()) + ZeroChunks(7) }

  lemma {:induction false} BigInfo()
    ensures |EncHeader(Big())| == 57
  {
    var ts := Big().tensors;
    HeaderLength(Big());
    assert EncInfos(ts, 32, 1) == [] && |EncDims([2048][1..])| == 0;
    assert |EncDims(ts[0].dims)| == 8;
    assert |EncInfo(ts[0], 0)| == 33;
    hide EncHeader, EncInfo, EncDims, LE, Zeros;
    assert EncInfos(ts, 32, 0) == EncInfo(ts[0], OffsetOf(ts, 32, 0)) + EncInfos(ts, 32, 1);
    assert EncKVs(Big().keys, Big().kv) == [];
  }

  lemma {:induction false} BigChunks()
    ensures FileChunks(Big()) == BigHeader() + [Put(Zeros(8192))]
  {
    BigInfo();
    hide HeaderChunks, EncHeader, Zeros;
    var ts := Big().tensors;
    assert DataChunks(ts, 32, 0) == [] && ZeroChunks(0) == [] && PadLength(8192, 32) == 0 && PadLength(57, 32) == 7;
    assert DataChunks(ts, 32, 1) == [Put(Zeros(8192))];
  }

  lemma {:induction false} BigFirst()
    ensures BigHeader() != [] && BigHeader()[0] == Put(LE(4, MAGIC))
  {
    hide LE, KVsChunks, InfosChunks, ZeroChunks;
  }

  lemma {:induction false} BigIs()
    ensures Big().alignment == 32 && Big().keys == [] && BigHeader() == HeaderChunks(Big()) + ZeroChunks(7)
  {}

  lemma {:induction false} BigJoined()
    ensures Writes(BigHeader()) && |Joined(BigHeader())| == 64 && |FileBytes(Big())| == 8256
    ensures Writes(FileChunks(Big())) && |Joined(FileChunks(Big()))| == 8256
    ensures BigHeader() != [] && BigHeader()[0] == Put(LE(4, MAGIC))
  {
    BigFirst();
    BigIs();
    BigChunks();
    BigInfo();
    hide *;
    HeaderWritten(Big());
    FileWritten(Big());
    ZerosWritten(7);
    WritesConcat(HeaderChunks(Big()), ZeroChunks(7));
    WritesOne(Zeros(8192));
    WritesConcat(BigHeader(), [Put(Zeros(8192))]);
  }

  /** The buffer fills with 4096 bytes, an aligned count; the other 4160 go to the output directly. */
  lemma {:induction false} BigStops()
    ensures StopOf(FileChunks(Big()), 5) == WriteFails(4096)
    ensures StopOf(FileChunks(Big()), 4101) == WriteFails(4101)
  {
    BigChunks();
    BigJoined();
    hide Big, BigHeader, FileChunks, FileBytes, Zeros, ZeroChunks, Joined, LE, HeaderChunks;
    var cs, first := FileChunks(Big()), [Put(LE(4, MAGIC))];
    assert cs == first + cs[1..];
    FirstEnd(cs);
    assert NextOf(cs, 0) == Full(4096);
    LastStretch(BigHeader(), Zeros(8192), 4096, 4101);
  }

  lemma {:induction false} FirstEnd(cs: seq<Chunk>)
    requires Writes(cs) && cs != [] && |cs[0].b| == 4 && |Joined(cs)| > 0
    ensures EndOf(cs, 0) == 4
  {
    assert cs == [cs[0]] + cs[1..];
    WritesConcat([cs[0]], cs[1..]);
    WritesOne(cs[0].b);
    EndEarly([cs[0]], cs[1..], 0);
    assert [cs[0]][..0] == [];
  }

  method WriteBig(capacity: nat) returns (c: CountWriter, r: WriteResult)
    ensures Ended(Big(), capacity, r, c.n, c.w.taken)
  {
    hide FileChunks, Ended, Accepts, Consistent;
    var w := new Writer();
    BigAccepted();
    var added := w.AddTensor([116], [2048], 0, Zeros(8192));
    assert Reverse([2048]) == [2048] && w.Contents() == Big();
    c, r := w.WriteTo(capacity);
  }

  lemma {:induction false} BigAccepted()
    ensures Accepts([2048], 0, |Zeros(8192)|)
  {
    ElemsOne(2048);
  }

  /** On an output that takes five bytes it is the first full buffer that fails, and WriteTo
      returns the error; on one that takes 4101 it is the direct write, and pad never returns. */
  method ShortOutput() returns (five: WriteResult, more: WriteResult)
    ensures five == Failed && more == Spins
  {
    hide *;
    var c, d;
    c, five := WriteBig(5);
    d, more := WriteBig(4101);
    BigEnds(five, c.n, c.w.taken, more, d.n, d.w.taken);
  }

  lemma {:induction false} BigEnds(r: WriteResult, n: nat, taken: Bytes, r': WriteResult, n': nat, taken': Bytes)
    requires Ended(Big(), 5, r, n, taken) && Ended(Big(), 4101, r', n', taken')
    ensures r == Failed && r' == Spins
  {
    hide FileChunks, FileBytes, StopOf, Sent, Zeros;
    BigStops();
    BigJoined();
  }

  /** A file that fits into the buffer ends on any output. */
  lemma {:induction false} SmallFileEnds(w: Content, cap: nat, r: WriteResult, n: nat, taken: Bytes)
    requires Ended(w, cap, r, n, taken) && |FileBytes(w)| <= SIZE && forall k :: k in w.keys ==> Storable(w.kv[k])
    ensures r != Spins
  {
    hide FileChunks, FileBytes, StopOf, Storable;
    FileWritten(w);
    SmallNeverStops(FileChunks(w), cap);
  }

  // ---- a value of an unknown type

  /** Key k with a value of type code 13. */
  function Odd(): (w: Content)
    ensures Located(w)
  {
    Content([[107]], map[[107] := Unknown(0, 0)], [], 32)
  }

  lemma {:induction false} OddStops(cap: nat)
    ensures StopOf(FileChunks(Odd()), cap) == UnknownType(37)
  {
    var front := CountChunks(Odd()) + (StrChunks([107]) + [Put(LE(4, 13))]);
    OddChunks();
    OddJoined();
    hide *;
    StopsThere(front, FileChunks(Odd()), cap);
  }

  lemma {:induction false} StopsThere(front: seq<Chunk>, cs: seq<Chunk>, cap: nat)
    requires Writes(front) && |Joined(front)| <= SIZE && front + [Unwritable] <= cs
    ensures StopOf(cs, cap) == UnknownType(|Joined(front)|)
  {
    hide Joined, Before, FailsAt;
    BeforeIs(front, cs[|front| + 1..]);
    assert front + [Unwritable] + cs[|front| + 1..] == cs;
    StaysPut(front, 0, cap);
  }

  lemma {:induction false} OddJoined()
    ensures var front := CountChunks(Odd()) + (StrChunks([107]) + [Put(LE(4, 13))]);
      Writes(front) && |Joined(front)| == 37
  {
    CountsWritten(Odd());
    TwoPuts(LE(8, 1), [107]);
    WritesOne(LE(4, 13));
    hide Joined, LE, Writes, CountChunks;
    WritesConcat(StrChunks([107]), [Put(LE(4, 13))]);
    WritesConcat(CountChunks(Odd()), StrChunks([107]) + [Put(LE(4, 13))]);
  }

  lemma {:induction false} OddChunks()
    ensures var front := CountChunks(Odd()) + (StrChunks([107]) + [Put(LE(4, 13))]);
      front + [Unwritable] <= FileChunks(Odd())
  {
    var w := Odd();
    hide LE, CountChunks, StrChunks, EncHeader;
    assert ValueChunks(Unknown(0, 0)) == [Unwritable] && Code(Unknown(0, 0)) == 13;
    var kv := StrChunks([107]) + ([Put(LE(4, 13))] + [Unwritable]);
    assert KVsChunks(w.keys, w.kv, 0) == [] && KVsChunks(w.keys, w.kv, 1) == kv;
    assert InfosChunks(w.tensors, 32, 0) == [];
    assert HeaderChunks(w) == CountChunks(w) + kv;
  }

  /** With such a value pad never returns, however much room the output has. */
  method UnknownValue(capacity: nat) returns (r: WriteResult)
    ensures r == Spins
  {
    OddStops(capacity);
    hide FileChunks, FileBytes, StopOf, Consistent, Sent, Storable;
    var w := new Writer();
    w.Set([107], Unknown(0, 0));
    assert w.Contents() == Odd();
    var c;
    c, r := w.WriteTo(capacity);
  }

  // ---- arguments nothing checks

  /** general.alignment set to zero: pad divides by it. */
  method ZeroAlignment(capacity: nat) returns (r: WriteResult)
    ensures r == PadsToZero
  {
    hide Ended, Consistent, KEY_ALIGNMENT;
    var w := new Writer();
    w.Set(KEY_ALIGNMENT, UInt(4, 0));
    var c;
    c, r := w.WriteTo(capacity);
  }

  /** A float32 tensor without elements: AddTensor divides by its dimension. */
  method ZeroInner() returns (r: AddResult)
    ensures r == DividesByZero
  {
    hide Consistent;
    var w := new Writer();
    r := w.AddTensor([116], [0], 0, []);
  }

  /** Two negative dimensions multiply to eight elements: AddTensor stores them, wrapped. */
  method NegativeDims() returns (w: Writer, r: AddResult)
    ensures r == Stored && |w.tensors| == 1 && w.tensors[0].dims == [Unsigned(8, -4), Unsigned(8, -2)]
  {
    NegativeAccepted();
    hide Consistent, Unsigned, Accepts;
    w := new Writer();
    r := w.AddTensor([116], [-2, -4], 0, Zeros(32));
  }

  lemma {:induction false} NegativeAccepted()
    ensures Accepts([-2, -4], 0, |Zeros(32)|)
  {
    assert [-2, -4][..1] == [-2] && [-2][..0] == [];
    assert Product([-2]) == -2 && Product([-2, -4]) == 8;
  }
}
