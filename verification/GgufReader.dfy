/** The reader over a file in memory, and Parse. */
module GgufReader {
  import opened Wrappers
  import opened GgufCodec
  import opened GgufFile
  import opened GgufRoundTrip
  import opened GgufWriter
  import opened GgufChunks
  import opened Buffered

  class Reader {
    const buf: Bytes
    var pos: nat
    var err: bool

    ghost predicate Valid() reads this { pos <= |buf| }

    ghost function State(): Rd reads this { Rd(pos, err) }

    constructor (data: Bytes)
      ensures Valid() && buf == data && State() == Rd(0, false)
    {
      buf := data;
      pos := 0;
      err := false;
    }

    method Need(n: nat) returns (ok: bool)
      requires Valid()
      modifies this`err
      ensures ok <==> !old(err) && pos + n <= |buf|
      ensures err == !ok
    {
      if err { return false; }
      if pos + n > |buf| {
        err := true;
        return false;
      }
      return true;
    }

    /** u8, u16, u32, u64 */
    method U(k: nat) returns (v: nat)
      requires Valid()
      modifies this
      ensures Valid() && (v, State()) == RdUint(k, buf, old(State()))
    {
      var ok := Need(k);
      if !ok { return 0; }
      v := UnLE(buf[pos..pos + k]);
      pos := pos + k;
    }

    method String() returns (s: Bytes)
      requires Valid()
      modifies this
      ensures Valid() && (s, State()) == RdStr(buf, old(State()))
    {
      var n := U(8);
      if n > |buf| {
        err := true;
        return [];
      }
      var ok := Need(n);
      if !ok { return []; }
      s := buf[pos..pos + n];
      pos := pos + n;
    }

    method Value() returns (v: Option<Value>)
      requires Valid()
      modifies this
      ensures Valid() && (v, State()) == RdValue(buf, old(State()))
    {
      var t := U(4);
      v := Typed(t);
      if err { v := None; }
    }

    method Typed(code: nat) returns (v: Option<Value>)
      requires Valid()
      modifies this
      ensures Valid() && (v, State()) == RdTyped(buf, old(State()), code)
      decreases |buf| - pos
    {
      if FixedSize(code) > 0 {
        var n := U(FixedSize(code));
        return Some(Fixed(code, n));
      }
      if code == BOOL {
        var n := U(1);
        return Some(Bool(n != 0));
      }
      if code == STRING {
        var s := String();
        return Some(Str(s));
      }
      if code != ARRAY { return None; }
      var elem := U(4);
      var n := U(8);
      if n > |buf| { return None; }
      var a: seq<Value> := [];
      ghost var start := State();
      NoElemsYet(buf, start, elem, n);
      var i := 0;
      while i < n && !err
        invariant i <= n && Valid() && (old(pos) < pos || err)
        invariant RdElems(buf, start, elem, n) == MoreElems(a, RdElems(buf, State(), elem, n - i))
        decreases n - i
      {
        ghost var before := State();
        var e := Typed(elem);
        OneElem(buf, before, elem, n - i, a);
        if e.None? { return None; }
        a := a + [e.value];
        i := i + 1;
      }
      NoElems(buf, State(), elem, n - i);
      assert a + [] == a;
      return Some(Arr(elem, a));
    }
  }

  /** What the rest of the loop adds to the elements already read. */
  ghost function MoreElems(a: seq<Value>, p: (Option<seq<Value>>, Rd)): (Option<seq<Value>>, Rd) {
    (if p.0.Some? then Some(a + p.0.value) else None, p.1)
  }

  lemma {:induction false} OneElem(buf: Bytes, r: Rd, elem: nat, n: nat, a: seq<Value>)
    requires r.pos <= |buf| && !r.err && n > 0
    ensures var e := RdTyped(buf, r, elem);
      MoreElems(a, RdElems(buf, r, elem, n))
        == (if e.0.None? then (None, e.1) else MoreElems(a + [e.0.value], RdElems(buf, e.1, elem, n - 1)))
  {
    hide RdTyped;
    var e := RdTyped(buf, r, elem);
    if e.0.Some? {
      var es := RdElems(buf, e.1, elem, n - 1);
      if es.0.Some? { assert a + ([e.0.value] + es.0.value) == a + [e.0.value] + es.0.value; }
    }
  }

  lemma {:induction false} NoElemsYet(buf: Bytes, r: Rd, elem: nat, n: nat)
    requires r.pos <= |buf|
    ensures RdElems(buf, r, elem, n) == MoreElems([], RdElems(buf, r, elem, n))
  {
    var p := RdElems(buf, r, elem, n);
    if p.0.Some? { assert [] + p.0.value == p.0.value; }
  }

  lemma {:induction false} NoElems(buf: Bytes, r: Rd, elem: nat, n: nat)
    requires r.pos <= |buf| && (n == 0 || r.err)
    ensures RdElems(buf, r, elem, n) == (Some([]), r)
  {}

  // ---- Parse

  ghost function MoreKVs(es: seq<Entry>, p: (Option<seq<Entry>>, Rd)): (Option<seq<Entry>>, Rd) {
    (if p.0.Some? then Some(es + p.0.value) else None, p.1)
  }

  ghost function MoreTensors(ts: seq<Tensor>, p: (Option<seq<Tensor>>, Rd)): (Option<seq<Tensor>>, Rd) {
    (if p.0.Some? then Some(ts + p.0.value) else None, p.1)
  }

  lemma {:induction false} OneKV(buf: Bytes, r: Rd, n: nat, es: seq<Entry>)
    requires r.pos <= |buf| && n > 0
    ensures var key := RdStr(buf, r);
      var v := RdValue(buf, key.1);
      MoreKVs(es, RdKVs(buf, r, n))
        == (if v.0.None? then (None, v.1) else MoreKVs(es + [(key.0, v.0.value)], RdKVs(buf, v.1, n - 1)))
  {
    hide RdStr, RdValue;
    var key := RdStr(buf, r);
    var v := RdValue(buf, key.1);
    if v.0.Some? {
      var rest := RdKVs(buf, v.1, n - 1);
      if rest.0.Some? { assert es + ([(key.0, v.0.value)] + rest.0.value) == es + [(key.0, v.0.value)] + rest.0.value; }
    }
  }

  lemma {:induction false} OneTensor(buf: Bytes, r: Rd, n: nat, seen: set<Bytes>, ts: seq<Tensor>)
    requires r.pos <= |buf| && n > 0
    ensures var t := RdTensor(buf, r);
      MoreTensors(ts, RdTensors(buf, r, n, seen))
      == (if t.0.None? || t.0.value.name in seen then (None, t.1)
          else MoreTensors(ts + [t.0.value], RdTensors(buf, t.1, n - 1, seen + {t.0.value.name})))
  {
    hide RdTensor;
    var t := RdTensor(buf, r);
    if t.0.Some? && t.0.value.name !in seen {
      var rest := RdTensors(buf, t.1, n - 1, seen + {t.0.value.name});
      if rest.0.Some? { assert ts + ([t.0.value] + rest.0.value) == ts + [t.0.value] + rest.0.value; }
    }
  }

  lemma {:induction false} MapNext(es: seq<Entry>, e: Entry)
    ensures MapOf(es + [e]) == MapOf(es)[e.0 := e.1] && KeysOf(es + [e]) == KeysOf(es) + [e.0]
  {
    assert (es + [e])[..|es|] == es;
  }

  /** The loop over the metadata; None on any error. */
  method ReadKVs(r: Reader, n: nat) returns (keys: seq<Bytes>, kv: map<Bytes, Value>, ok: bool, ghost es: seq<Entry>)
    requires r.Valid()
    modifies r
    ensures r.Valid() && (if ok then Some(es) else None, r.State()) == RdKVs(r.buf, old(r.State()), n)
    ensures ok ==> keys == KeysOf(es) && kv == MapOf(es)
  {
    hide RdKVs, RdStr, RdValue, MapOf, KeysOf;
    keys, kv, es := [], map[], [];
    ghost var start := r.State();
    NoneYet(r.buf, start, n);
    for i := 0 to n
      invariant r.Valid() && keys == KeysOf(es) && kv == MapOf(es)
      invariant RdKVs(r.buf, start, n) == MoreKVs(es, RdKVs(r.buf, r.State(), n - i))
    {
      ghost var before := r.State();
      var key := r.String();
      var v := r.Value();
      OneKV(r.buf, before, n - i, es);
      if v.None? { return keys, kv, false, es; }
      MapNext(es, (key, v.value));
      keys, kv, es := keys + [key], kv[key := v.value], es + [(key, v.value)];
    }
    NoKVs(map[], r.buf, r.State());
    assert es + [] == es;
    return keys, kv, true, es;
  }

  lemma {:induction false} NoneYet(buf: Bytes, r: Rd, n: nat)
    requires r.pos <= |buf|
    ensures RdKVs(buf, r, n) == MoreKVs([], RdKVs(buf, r, n)) && MapOf([]) == map[] && KeysOf([]) == []
    ensures RdTensors(buf, r, n, {}) == MoreTensors([], RdTensors(buf, r, n, {}))
  {
    var p, q := RdKVs(buf, r, n), RdTensors(buf, r, n, {});
    if p.0.Some? { assert [] + p.0.value == p.0.value; }
    if q.0.Some? { assert [] + q.0.value == q.0.value; }
  }

  method ReadTensor(r: Reader) returns (t: Option<Tensor>)
    requires r.Valid()
    modifies r
    ensures r.Valid() && (t, r.State()) == RdTensor(r.buf, old(r.State()))
  {
    hide RdStr, RdUint;
    var name := r.String();
    var nd := r.U(4);
    if nd > 4 { return None; }
    var dims: seq<nat> := [];
    ghost var start := r.State();
    assert [] + RdDims(r.buf, start, nd).0 == RdDims(r.buf, start, nd).0;
    for j := 0 to nd
      invariant r.Valid() && RdDims(r.buf, start, nd) == MoreDims(dims, RdDims(r.buf, r.State(), nd - j))
    {
      ghost var before := r.State();
      var d := r.U(8);
      OneDim(r.buf, before, nd - j, dims);
      dims := dims + [d];
    }
    NoDims(r.buf, r.State());
    assert dims + [] == dims;
    var typ := r.U(4);
    var off := r.U(8);
    if r.err || !Known(typ) { return None; }
    return Some(Tensor(name, dims, typ, off));
  }

  ghost function MoreDims(ds: seq<nat>, p: (seq<nat>, Rd)): (seq<nat>, Rd) { (ds + p.0, p.1) }

  lemma {:induction false} OneDim(buf: Bytes, r: Rd, n: nat, ds: seq<nat>)
    requires r.pos <= |buf| && n > 0
    ensures var d := RdUint(8, buf, r); MoreDims(ds, RdDims(buf, r, n)) == MoreDims(ds + [d.0], RdDims(buf, d.1, n - 1))
  {
    hide RdUint;
    var d := RdUint(8, buf, r);
    assert ds + ([d.0] + RdDims(buf, d.1, n - 1).0) == ds + [d.0] + RdDims(buf, d.1, n - 1).0;
  }

  /** The loop over the tensor infos, with byName as the set of names seen. */
  method ReadTensors(r: Reader, n: nat) returns (ts: seq<Tensor>, ok: bool)
    requires r.Valid()
    modifies r
    ensures r.Valid() && (if ok then Some(ts) else None, r.State()) == RdTensors(r.buf, old(r.State()), n, {})
  {
    hide RdTensor, RdTensors, Remaining, Known;
    ts := [];
    var byName: set<Bytes> := {};
    ghost var start := r.State();
    AllRemaining(r.buf, start, n);
    for i := 0 to n
      invariant r.Valid() && Remaining(r.buf, start, n, ts, r.State(), n - i, byName)
    {
      ghost var before := r.State();
      var t := ReadTensor(r);
      NextTensor(r.buf, start, n, ts, before, n - i, byName);
      if t.None? { return ts, false; }
      if t.value.name in byName { return ts, false; }
      byName := byName + {t.value.name};
      ts := ts + [t.value];
    }
    NoneRemaining(r.buf, start, n, ts, r.State(), byName);
    return ts, true;
  }

  /** What the loop has read and what remains make up all of it. */
  ghost predicate Remaining(buf: Bytes, start: Rd, all: nat, ts: seq<Tensor>, r: Rd, n: nat, seen: set<Bytes>) {
    && start.pos <= |buf| && r.pos <= |buf|
    && RdTensors(buf, start, all, {}) == MoreTensors(ts, RdTensors(buf, r, n, seen))
  }

  lemma {:induction false} NextTensor(buf: Bytes, start: Rd, all: nat, ts: seq<Tensor>, r: Rd, n: nat, seen: set<Bytes>)
    requires Remaining(buf, start, all, ts, r, n, seen) && n > 0
    ensures var t := RdTensor(buf, r);
      if t.0.None? || t.0.value.name in seen then RdTensors(buf, start, all, {}) == (None, t.1)
      else Remaining(buf, start, all, ts + [t.0.value], t.1, n - 1, seen + {t.0.value.name})
  {
    hide RdTensor, RdTensors, MoreTensors;
    OneTensor(buf, r, n, seen, ts);
  }

  lemma {:induction false} AllRemaining(buf: Bytes, r: Rd, n: nat)
    requires r.pos <= |buf|
    ensures Remaining(buf, r, n, [], r, n, {})
  {
    hide RdTensors, RdKVs;
    NoneYet(buf, r, n);
  }

  lemma {:induction false} NoneRemaining(buf: Bytes, start: Rd, all: nat, ts: seq<Tensor>, r: Rd, seen: set<Bytes>)
    requires Remaining(buf, start, all, ts, r, 0, seen)
    ensures RdTensors(buf, start, all, {}) == (Some(ts), r)
  {
    AllTensors(ts, buf, r, seen);
    hide RdTensors, MoreTensors;
  }

  lemma {:induction false} AllTensors(ts: seq<Tensor>, buf: Bytes, r: Rd, seen: set<Bytes>)
    requires r.pos <= |buf|
    ensures MoreTensors(ts, RdTensors(buf, r, 0, seen)) == (Some(ts), r)
  {
    assert ts + [] == ts;
  }

  /** Parse */
  method Parse(data: Bytes) returns (p: Parsed)
    ensures p == ParseOf(data)
  {
    hide RdUint, RdKVs, RdTensors, MapOf, KeysOf, And, AlignmentOf, Check, AlignUp;
    var r := new Reader(data);
    var m := r.U(4);
    if m != MAGIC { return Err; }
    var version := r.U(4);
    if version < 2 || version > 3 { return Err; }
    var nT := r.U(8);
    var nKV := r.U(8);
    if r.err || nKV > |data| || nT > |data| { return Err; }
    var keys, kv, ok, es := ReadKVs(r, nKV);
    if !ok { return Err; }
    var alignment := AlignmentOf(kv);
    if alignment == 0 || And(alignment, alignment - 1) != 0 { return Err; }
    var ts;
    ts, ok := ReadTensors(r, nT);
    if !ok || r.err { return Err; }
    var dataOffset := AlignUp(r.pos, alignment);
    var bad := CheckAll(ts, dataOffset, alignment, |data|);
    if bad.Ok? { return Ok(File(version, alignment, keys, kv, ts, dataOffset)); }
    return bad;
  }

  /** The loop over the tensors' data. */
  method CheckAll(ts: seq<Tensor>, dataOffset: nat, alignment: nat, size: nat) returns (p: Parsed)
    requires alignment > 0 && forall j :: 0 <= j < |ts| ==> Known(ts[j].typ)
    ensures p == Check(ts, 0, dataOffset, alignment, size)
  {
    for i := 0 to |ts|
      invariant Check(ts, 0, dataOffset, alignment, size) == Check(ts, i, dataOffset, alignment, size)
    {
      var t := ts[i];
      if |t.dims| > 0 && t.dims[0] == 0 { return Panics; }
      if t.offset % alignment != 0 || dataOffset + t.offset + TensorBytes(t.dims, t.typ) > size { return Err; }
    }
    return Ok(File(0, 0, [], map[], [], 0));
  }

  // ---- writing a file and parsing it

  /** What was Set and added is written if the output has room and every type is known, and then
      Parse gives it back exactly if it accepts the layout and every value is well typed. */
  method WriteThenParse(w: Writer, capacity: nat) returns (written: bool, p: Parsed)
    requires w.Valid() && Encodable(w.Contents())
    ensures written <==> |FileBytes(w.Contents())| <= capacity && forall k :: k in w.keys ==> Storable(w.kv[k])
    ensures written ==> (GivesBack(w.Contents(), p) <==> Acceptable(w.Contents()) && AllTyped(w.kv))
  {
    RoundTripExactly(w.Contents());
    hide FileBytes, ParseOf, GivesBack, Acceptable, AllTyped, Consistent, Storable, Ended;
    var c, r := w.WriteTo(capacity);
    if r == Written { WrittenWhole(w.Contents(), capacity, c.n, c.w.taken); }
    EndedWritten(w.Contents(), capacity, r, c.n, c.w.taken);
    p := Parse(c.w.taken);
    return r == Written, p;
  }

  lemma {:induction false} EndedWritten(w: Content, cap: nat, r: WriteResult, n: nat, taken: Bytes)
    requires Ended(w, cap, r, n, taken)
    ensures Located(w) && (r == Written <==> |FileBytes(w)| <= cap && forall k :: k in w.keys ==> Storable(w.kv[k]))
  {
    hide FileBytes, FileChunks, StopOf, Sent, Storable;
  }

  lemma {:induction false} WrittenWhole(w: Content, cap: nat, n: nat, taken: Bytes)
    requires Ended(w, cap, Written, n, taken)
    ensures Located(w) && taken == FileBytes(w)
  {
    hide FileBytes, FileChunks, StopOf, Storable, Joined;
    FileWritten(w);
    assert FileBytes(w)[..|FileBytes(w)|] == FileBytes(w);
  }
}
