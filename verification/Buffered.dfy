/** What the GGUF writer's count sees of a buffered output that fails: bufio.Writer with its
    4096 bytes over an output that takes a given number of bytes, and countWriter on top. */
module Buffered {
  import opened Wrappers

  const SIZE := 4096

  // ---- bufio.Writer

  /** The output takes cap bytes in all and then fails; taken are those it has, waiting those
      still in the buffer. */
  datatype Out = Out(cap: nat, taken: Bytes, waiting: Bytes, failed: bool)

  predicate Sane(o: Out) { |o.waiting| <= SIZE && |o.taken| <= o.cap }

  /** The output's own Write. */
  function Hand(o: Out, p: Bytes): (r: (Out, nat))
    requires |o.taken| <= o.cap
    ensures r.1 <= |p| && |r.0.taken| <= r.0.cap == o.cap && r.0.waiting == o.waiting
    ensures r.0.taken == o.taken + p[..r.1] && (r.0.failed <==> o.failed || r.1 < |p|)
  {
    var m := if |p| <= o.cap - |o.taken| then |p| else o.cap - |o.taken|;
    (Out(o.cap, o.taken + p[..m], o.waiting, o.failed || m < |p|), m)
  }

  function Flush(o: Out): (r: Out)
    requires Sane(o)
    ensures Sane(r) && r.cap == o.cap && (!r.failed ==> r.waiting == [])
  {
    if o.failed || o.waiting == [] then o
    else
      var h := Hand(o, o.waiting);
      h.0.(waiting := o.waiting[h.1..])
  }

  /** Write: a large write into an empty buffer goes straight to the output; otherwise the
      buffer is filled and flushed until the rest fits. It says how many bytes it took. */
  function Write(o: Out, p: Bytes): (r: (Out, nat))
    requires Sane(o)
    ensures Sane(r.0) && r.0.cap == o.cap && r.1 <= |p| && (if o.failed then r.0.failed else r.0.failed || r.1 == |p|)
    decreases !o.failed, |p|, |o.waiting|
  {
    if o.failed then (o, 0)
    else if |p| <= SIZE - |o.waiting| then (o.(waiting := o.waiting + p), |p|)
    else
      var h := if o.waiting == [] then Hand(o, p) else Fill(o, p);
      var rest := Write(h.0, p[h.1..]);
      (rest.0, h.1 + rest.1)
  }

  /** What fits into the buffer goes there, and all of it to the output. */
  function Fill(o: Out, p: Bytes): (r: (Out, nat))
    requires Sane(o) && |p| > SIZE - |o.waiting|
    ensures Sane(r.0) && r.0.cap == o.cap && r.1 == SIZE - |o.waiting| && (!r.0.failed ==> r.0.waiting == [])
    ensures o.failed ==> r.0.failed
  {
    var m := SIZE - |o.waiting|;
    (Flush(o.(waiting := o.waiting + p[..m])), m)
  }

  // ---- countWriter

  /** A write, or a value of a type the writer does not know. */
  datatype Chunk = Put(b: Bytes) | Unwritable

  datatype Sink = Sink(o: Out, n: nat, err: bool)

  function Start(cap: nat): (s: Sink)
    ensures Sane(s.o)
  {
    Sink(Out(cap, [], [], false), 0, false)
  }

  function Feed(s: Sink, c: Chunk): (r: Sink)
    requires Sane(s.o)
    ensures Sane(r.o) && (s.err ==> r == s)
      && (!r.err && (s.o.failed ==> s.err) ==> c.Put? && r.n == s.n + |c.b| && !r.o.failed)
  {
    match c
    case Unwritable => s.(err := true)
    case Put(b) => if s.err then s else var w := Write(s.o, b); Sink(w.0, s.n + w.1, w.0.failed)
  }

  /** After all of cs, one after the other. */
  function FeedAll(s: Sink, cs: seq<Chunk>): (r: Sink)
    requires Sane(s.o)
    ensures Sane(r.o) && (s.err ==> r == s)
  {
    if cs == [] then s else Feed(FeedAll(s, cs[..|cs| - 1]), cs[|cs| - 1])
  }

  lemma {:induction false} FeedConcat(s: Sink, a: seq<Chunk>, b: seq<Chunk>)
    requires Sane(s.o)
    ensures FeedAll(s, a + b) == FeedAll(FeedAll(s, a), b)
  {
    if b == [] {
      assert a + b == a;
    } else {
      var c := b[..|b| - 1];
      FeedConcat(s, a, c);
      assert (a + b)[..|a + b| - 1] == a + c && (a + b)[|a + b| - 1] == b[|b| - 1];
    }
  }

  lemma {:induction false} FeedOne(s: Sink, c: Chunk)
    requires Sane(s.o)
    ensures FeedAll(s, [c]) == Feed(s, c) && FeedAll(s, []) == s
  {
    assert [c][..0] == [];
  }

  // ---- what was written

  function BytesOf(c: Chunk): Bytes { if c.Put? then c.b else [] }

  /** The bytes of all writes. */
  function Joined(cs: seq<Chunk>): Bytes {
    if cs == [] then [] else Joined(cs[..|cs| - 1]) + BytesOf(cs[|cs| - 1])
  }

  lemma {:induction false} JoinedConcat(a: seq<Chunk>, b: seq<Chunk>)
    ensures Joined(a + b) == Joined(a) + Joined(b)
  {
    hide *;
    if b == [] {
      assert a + b == a;
      JoinedNone(Joined(a));
    } else {
      var c := b[..|b| - 1];
      JoinedConcat(a, c);
      JoinedLast(b);
      JoinedLast(a + b);
      assert (a + b)[..|a + b| - 1] == a + c && (a + b)[|a + b| - 1] == b[|b| - 1];
      assert Joined(a) + (Joined(c) + BytesOf(b[|b| - 1])) == Joined(a) + Joined(c) + BytesOf(b[|b| - 1]);
    }
  }

  lemma {:induction false} JoinedNone(front: Bytes)
    ensures front + Joined([]) == front
  {}

  lemma {:induction false} JoinedLast(cs: seq<Chunk>)
    requires cs != []
    ensures Joined(cs) == Joined(cs[..|cs| - 1]) + BytesOf(cs[|cs| - 1])
  {}

  lemma {:induction false} JoinedOne(c: Chunk)
    ensures Joined([c]) == (if c.Put? then c.b else []) && Joined([]) == []
  {
    assert [c][..0] == [];
  }

  predicate Writes(cs: seq<Chunk>) { forall i :: 0 <= i < |cs| ==> cs[i].Put? }

  // ---- where the output comes to fail

  /** Where the write that holds byte d ends. */
  function EndOf(ws: seq<Chunk>, d: nat): (e: nat)
    requires Writes(ws) && d < |Joined(ws)|
    ensures d < e <= |Joined(ws)|
  {
    var front := ws[..|ws| - 1];
    if d < |Joined(front)| then EndOf(front, d) else |Joined(ws)|
  }

  /** How the bytes from d on reach the output. */
  datatype Next = Stay | Full(to: nat) | Direct(to: nat)

  /** If the output has the first d bytes: the rest of their write goes to it directly when that
      is longer than the buffer, and otherwise a buffer full when there is more than that. */
  function NextOf(ws: seq<Chunk>, d: nat): (x: Next)
    requires Writes(ws) && d <= |Joined(ws)|
    ensures !x.Stay? ==> d < x.to <= |Joined(ws)|
  {
    if |Joined(ws)| - d <= SIZE then Stay
    else if EndOf(ws, d) - d > SIZE then Direct(EndOf(ws, d))
    else Full(d + SIZE)
  }

  /** How many bytes of the writes have been handed to an output that has the first d. */
  function Handed(ws: seq<Chunk>, d: nat): (h: nat)
    requires Writes(ws) && d <= |Joined(ws)|
    ensures d <= h <= |Joined(ws)| && NextOf(ws, h).Stay?
    decreases |Joined(ws)| - d
  {
    var x := NextOf(ws, d);
    if x.Stay? then d else Handed(ws, x.to)
  }

  /** The count at the first write that fails, if one does: a full buffer has been counted in
      full, a direct write as far as the output took it. */
  function FailsAt(ws: seq<Chunk>, cap: nat, d: nat): (n: Option<nat>)
    requires Writes(ws) && d <= |Joined(ws)|
    ensures |Joined(ws)| <= cap ==> n.None?
    ensures n.Some? ==> d <= cap ==> cap <= n.value <= |Joined(ws)|
    decreases |Joined(ws)| - d
  {
    var x := NextOf(ws, d);
    if x.Stay? then None
    else if x.to <= cap then FailsAt(ws, cap, x.to)
    else Some(if x.Full? then x.to else cap)
  }

  // ---- the buffer's cases

  lemma {:induction false} WriteFits(o: Out, p: Bytes)
    requires Sane(o) && !o.failed && |p| <= SIZE - |o.waiting|
    ensures Write(o, p) == (o.(waiting := o.waiting + p), |p|)
  {}

  lemma {:induction false} WriteDirect(o: Out, p: Bytes)
    requires Sane(o) && !o.failed && o.waiting == [] && |p| > SIZE
    ensures var w := Write(o, p); var m := o.cap - |o.taken|;
      w == if |p| <= m then (Out(o.cap, o.taken + p, [], false), |p|) else (Out(o.cap, o.taken + p[..m], [], true), m)
  {
    var h := Hand(o, p);
    if h.0.failed {
      assert Write(h.0, p[h.1..]) == (h.0, 0);
    } else {
      assert p[..h.1] == p;
      WriteFits(h.0, p[h.1..]);
    }
  }

  lemma {:induction false} WriteFull(o: Out, p: Bytes)
    requires Sane(o) && !o.failed && o.waiting != [] && |p| > SIZE - |o.waiting|
    ensures var m, all := SIZE - |o.waiting|, o.taken + o.waiting + p;
      if |o.taken| + SIZE <= o.cap then
        var rest := Write(Out(o.cap, all[..|o.taken| + SIZE], [], false), p[m..]);
        Write(o, p) == (rest.0, m + rest.1)
      else
        var w := Write(o, p);
        w.0.failed && w.0.taken == all[..o.cap] && w.1 == m
  {
    var m, all := SIZE - |o.waiting|, o.taken + o.waiting + p;
    var full := o.(waiting := o.waiting + p[..m]);
    assert all[..|o.taken| + SIZE] == o.taken + full.waiting;
    var f := Fill(o, p);
    if |o.taken| + SIZE <= o.cap {
      assert full.waiting[..SIZE] == full.waiting;
      assert f.0 == Out(o.cap, o.taken + full.waiting, [], false);
    } else {
      assert f.0.failed && f.0.taken == o.taken + full.waiting[..o.cap - |o.taken|];
      assert Write(f.0, p[m..]) == (f.0, 0);
    }
  }

  // ---- one more write

  /** What has been handed over, and where it failed, stays so. */
  lemma {:induction false} HandedMore(ws: seq<Chunk>, b: Bytes, d: nat)
    requires Writes(ws) && d <= |Joined(ws)|
    ensures var more := ws + [Put(b)];
      Writes(more) && |Joined(more)| == |Joined(ws)| + |b| && Handed(more, d) == Handed(more, Handed(ws, d))
    decreases |Joined(ws)| - d
  {
    JoinedMore(ws, b);
    NextMore(ws, b, d);
    var x := NextOf(ws, d);
    hide NextOf, Joined;
    if !x.Stay? { HandedMore(ws, b, x.to); }
  }

  lemma {:induction false} FailsMore(ws: seq<Chunk>, b: Bytes, cap: nat, d: nat)
    requires Writes(ws) && d <= |Joined(ws)|
    ensures var more, f := ws + [Put(b)], FailsAt(ws, cap, d);
      && Writes(more) && |Joined(more)| == |Joined(ws)| + |b|
      && FailsAt(more, cap, d) == if f.Some? then f else FailsAt(more, cap, Handed(ws, d))
    decreases |Joined(ws)| - d
  {
    JoinedMore(ws, b);
    NextMore(ws, b, d);
    var x := NextOf(ws, d);
    hide NextOf, Joined;
    if !x.Stay? && x.to <= cap { FailsMore(ws, b, cap, x.to); }
  }

  lemma {:induction false} JoinedMore(ws: seq<Chunk>, b: Bytes)
    ensures Joined(ws + [Put(b)]) == Joined(ws) + b && (Writes(ws) ==> Writes(ws + [Put(b)]))
  {
    assert (ws + [Put(b)])[..|ws|] == ws;
  }

  lemma {:induction false} NextMore(ws: seq<Chunk>, b: Bytes, d: nat)
    requires Writes(ws) && d <= |Joined(ws)|
    ensures var more := ws + [Put(b)];
      && Writes(more) && d <= |Joined(more)|
      && (!NextOf(ws, d).Stay? ==> NextOf(more, d) == NextOf(ws, d))
  {
    JoinedMore(ws, b);
    assert (ws + [Put(b)])[..|ws|] == ws;
  }

  /** From a position inside the last write: the rest of it stays or goes directly. */
  lemma {:induction false} LastStretch(ws: seq<Chunk>, b: Bytes, d: nat, cap: nat)
    requires Writes(ws) && |Joined(ws)| <= d <= |Joined(ws)| + |b|
    ensures var more, total := ws + [Put(b)], |Joined(ws)| + |b|;
      && Writes(more) && |Joined(more)| == total
      && Handed(more, d) == (if total - d <= SIZE then d else total)
      && FailsAt(more, cap, d) == if total - d <= SIZE || total <= cap then None else Some(cap)
  {
    JoinedMore(ws, b);
    var more, total := ws + [Put(b)], |Joined(ws)| + |b|;
    assert more[..|more| - 1] == ws;
    assert NextOf(more, total) == Stay;
    assert total - d > SIZE ==> NextOf(more, d) == Direct(total);
    hide NextOf, Joined;
  }

  /** With a buffer that does not fill a whole stretch, the next write fills it. */
  lemma {:induction false} NextFull(ws: seq<Chunk>, b: Bytes, d: nat)
    requires Writes(ws) && d < |Joined(ws)| && NextOf(ws, d).Stay? && |Joined(ws)| + |b| - d > SIZE
    ensures Writes(ws + [Put(b)]) && d <= |Joined(ws + [Put(b)])| && NextOf(ws + [Put(b)], d) == Full(d + SIZE)
  {
    JoinedMore(ws, b);
    assert (ws + [Put(b)])[..|ws|] == ws;
  }

  lemma {:induction false} StaysPut(ws: seq<Chunk>, d: nat, cap: nat)
    requires Writes(ws) && d <= |Joined(ws)| <= d + SIZE
    ensures Handed(ws, d) == d && FailsAt(ws, cap, d) == None
  {}

  lemma {:induction false} GoesOn(ws: seq<Chunk>, d: nat, cap: nat)
    requires Writes(ws) && d <= |Joined(ws)| && NextOf(ws, d) == Full(d + SIZE)
    ensures Handed(ws, d) == Handed(ws, d + SIZE)
    ensures FailsAt(ws, cap, d) == if d + SIZE <= cap then FailsAt(ws, cap, d + SIZE) else Some(d + SIZE)
  {}

  // ---- the count

  /** All bytes have been counted, the first h of them handed over and no write has failed; or
      one has, at the count f, and the output has its fill. */
  ghost predicate Agrees(s: Sink, all: Bytes, f: Option<nat>, h: nat, cap: nat) {
    && Sane(s.o) && s.o.cap == cap && s.err == s.o.failed == f.Some? && h <= |all|
    && (f.None? ==> s.n == |all| && s.o.taken == all[..h] && s.o.waiting == all[h..])
    && (f.Some? ==> cap <= |all| && s.n == f.value && s.o.taken == all[..cap])
  }

  /** The sink after the writes ws is as the positions say. */
  ghost predicate Stands(s: Sink, ws: seq<Chunk>, cap: nat)
    requires Writes(ws)
  {
    Agrees(s, Joined(ws), FailsAt(ws, cap, 0), Handed(ws, 0), cap)
  }

  lemma {:induction false} StandsStart(cap: nat)
    ensures Writes([]) && Stands(Start(cap), [], cap)
  {}

  lemma {:induction false} AgreesFits(s: Sink, all: Bytes, h: nat, b: Bytes, cap: nat)
    requires Agrees(s, all, None, h, cap) && |b| <= SIZE - |s.o.waiting|
    ensures Agrees(Feed(s, Put(b)), all + b, None, h, cap)
  {
    WriteFits(s.o, b);
    assert (all + b)[..h] == all[..h] && (all + b)[h..] == all[h..] + b;
    hide Write;
  }

  /** A write into an empty buffer. */
  lemma {:induction false} AgreesDirect(s: Sink, all: Bytes, b: Bytes, cap: nat)
    requires Agrees(s, all, None, |all|, cap) && |b| > SIZE
    ensures var total := |all| + |b|;
      Agrees(Feed(s, Put(b)), all + b, if total <= cap then None else Some(cap), total, cap)
  {
    WriteDirect(s.o, b);
    assert s.o.waiting == [] && s.o.taken == all;
    assert (all + b)[..|all| + |b|] == all + b;
    if |all| + |b| > cap { assert (all + b)[..cap] == all + b[..cap - |all|]; }
    hide Write;
  }

  /** A write that fills the buffer and leaves a rest, which fits or goes directly. */
  lemma {:induction false} AgreesFull(s: Sink, all: Bytes, h: nat, b: Bytes, cap: nat)
    requires Agrees(s, all, None, h, cap) && h < |all| && |all| + |b| - h > SIZE
    ensures var x, total := h + SIZE, |all| + |b|;
      var f := if x > cap then Some(x) else if total - x <= SIZE || total <= cap then None else Some(cap);
      Agrees(Feed(s, Put(b)), all + b, f, if total - x <= SIZE then x else total, cap)
  {
    var x, m, whole := h + SIZE, SIZE - |s.o.waiting|, all + b;
    assert all[..h] + all[h..] == all;
    WriteFull(s.o, b);
    hide Write;
    if x <= cap {
      assert whole == whole[..x] + b[m..];
      RestAfter(whole, x, b[m..], cap);
    }
  }

  /** The rest of a write behind a buffer that has just been flushed. */
  lemma {:induction false} RestAfter(whole: Bytes, x: nat, rest: Bytes, cap: nat)
    requires x <= cap && x <= |whole| && whole[x..] == rest
    ensures var w := Write(Out(cap, whole[..x], [], false), rest);
      if |rest| <= SIZE then w == (Out(cap, whole[..x], rest, false), |rest|)
      else if |whole| <= cap then w == (Out(cap, whole, [], false), |rest|)
      else w == (Out(cap, whole[..cap], [], true), cap - x)
  {
    var o := Out(cap, whole[..x], [], false);
    assert whole[..x] + rest == whole;
    if |rest| <= SIZE {
      assert o.waiting + rest == rest;
      WriteFits(o, rest);
    } else {
      WriteDirect(o, rest);
      if |whole| > cap { assert whole[..cap] == whole[..x] + rest[..cap - x]; }
    }
  }

  /** One more write. */
  lemma {:induction false} StandsNext(s: Sink, ws: seq<Chunk>, b: Bytes, cap: nat)
    requires Writes(ws) && Stands(s, ws, cap)
    ensures Writes(ws + [Put(b)]) && Stands(Feed(s, Put(b)), ws + [Put(b)], cap)
  {
    var all, f, h, more := Joined(ws), FailsAt(ws, cap, 0), Handed(ws, 0), ws + [Put(b)];
    hide *;
    JoinedMore(ws, b);
    FailsMore(ws, b, cap, 0);
    HandedMore(ws, b, 0);
    StandsMeans(s, ws, cap);
    if s.err {
      AgreesFailed(s, all, f, h, b, Handed(more, 0), cap);
    } else if |b| <= SIZE - |s.o.waiting| {
      StaysPut(more, h, cap);
      AgreesFits(s, all, h, b, cap);
    } else if h == |all| {
      LastStretch(ws, b, h, cap);
      AgreesDirect(s, all, b, cap);
    } else {
      NextFull(ws, b, h);
      GoesOn(more, h, cap);
      LastStretch(ws, b, h + SIZE, cap);
      AgreesFull(s, all, h, b, cap);
    }
    StandsMade(Feed(s, Put(b)), more, cap);
  }

  lemma {:induction false} StandsMeans(s: Sink, ws: seq<Chunk>, cap: nat)
    requires Writes(ws) && Stands(s, ws, cap)
    ensures Sane(s.o) && Handed(ws, 0) <= |Joined(ws)| && (s.err <==> FailsAt(ws, cap, 0).Some?)
    ensures Agrees(s, Joined(ws), FailsAt(ws, cap, 0), Handed(ws, 0), cap)
    ensures !s.err ==> |s.o.waiting| == |Joined(ws)| - Handed(ws, 0) <= SIZE && NextOf(ws, Handed(ws, 0)).Stay?
  {
    hide Writes, Joined, Handed, FailsAt, NextOf;
  }

  lemma {:induction false} StandsMade(s: Sink, ws: seq<Chunk>, cap: nat)
    requires Writes(ws) && Agrees(s, Joined(ws), FailsAt(ws, cap, 0), Handed(ws, 0), cap)
    ensures Stands(s, ws, cap)
  {}

  lemma {:induction false} AgreesFailed(s: Sink, all: Bytes, f: Option<nat>, h: nat, b: Bytes, h': nat, cap: nat)
    requires Agrees(s, all, f, h, cap) && f.Some? && h' <= |all| + |b|
    ensures Agrees(Feed(s, Put(b)), all + b, f, h', cap)
  {
    assert (all + b)[..cap] == all[..cap];
  }

  /** After any writes. */
  lemma {:induction false} StandsAfter(ws: seq<Chunk>, cap: nat)
    requires Writes(ws)
    ensures Stands(FeedAll(Start(cap), ws), ws, cap)
  {
    if ws == [] {
      StandsStart(cap);
    } else {
      var front, last := ws[..|ws| - 1], ws[|ws| - 1];
      StandsAfter(front, cap);
      StandsNext(FeedAll(Start(cap), front), front, last.b, cap);
      assert front + [Put(last.b)] == ws;
      hide Stands;
    }
  }

  // ---- where counting stops

  /** The writes before the first value that cannot be written. */
  function Before(cs: seq<Chunk>): (ws: seq<Chunk>)
    ensures Writes(ws) && |ws| <= |cs| && ws == cs[..|ws|] && (ws == cs <==> Writes(cs))
    ensures |ws| < |cs| ==> cs[|ws|].Unwritable?
  {
    if cs == [] then []
    else
      var front := Before(cs[..|cs| - 1]);
      if front == cs[..|cs| - 1] && cs[|cs| - 1].Put? then cs else front
  }

  /** The first error and the count it leaves, if there is one before the last flush. */
  datatype Stop = Never | WriteFails(n: nat) | UnknownType(n: nat)

  function StopOf(cs: seq<Chunk>, cap: nat): (stop: Stop)
    ensures |Joined(cs)| <= cap ==> !stop.WriteFails?
    ensures (Writes(cs) ==> !stop.UnknownType?) && (stop.Never? ==> Writes(cs))
  {
    var ws := Before(cs);
    JoinedPrefix(cs, |ws|);
    var f := FailsAt(ws, cap, 0);
    if f.Some? then WriteFails(f.value)
    else if ws == cs then Never
    else UnknownType(|Joined(ws)|)
  }

  lemma {:induction false} JoinedPrefix(cs: seq<Chunk>, k: nat)
    requires k <= |cs|
    ensures Joined(cs[..k]) <= Joined(cs)
  {
    assert cs == cs[..k] + cs[k..];
    JoinedConcat(cs[..k], cs[k..]);
  }

  /** How many bytes the output has when the writer is done with it. */
  function Sent(cs: seq<Chunk>, cap: nat): (n: nat)
    ensures n <= |Joined(cs)|
  {
    JoinedPrefix(cs, |Before(cs)|);
    var total := |Joined(cs)|;
    if StopOf(cs, cap).UnknownType? then Handed(Before(cs), 0) else if cap < total then cap else total
  }

  /** The sink after all of cs: the first error, the count and the output, from the sizes of the
      writes alone. */
  lemma {:induction false} CountedExactly(cs: seq<Chunk>, cap: nat)
    ensures var s, stop := FeedAll(Start(cap), cs), StopOf(cs, cap);
      && (s.err <==> !stop.Never?)
      && s.n == (if stop.Never? then |Joined(cs)| else stop.n)
      && (s.err ==> s.o.taken == Joined(cs)[..Sent(cs, cap)])
      && (!s.err ==> var o := Flush(s.o); o.taken == Joined(cs)[..Sent(cs, cap)] && (o.failed <==> cap < |Joined(cs)|))
  {
    var ws := Before(cs);
    StandsAfter(ws, cap);
    JoinedPrefix(cs, |ws|);
    var s, all := FeedAll(Start(cap), ws), Joined(cs);
    if ws == cs {
      hide Before, FeedAll, Joined, Writes, FailsAt, Handed;
      if !s.err { FlushRest(s.o, all, cap); }
    } else {
      Stays(cs, |ws|, cap);
      hide Before, FeedAll, Joined, Writes, FailsAt, Handed;
      var h := if s.err then cap else Handed(ws, 0);
      assert Joined(ws)[..h] == all[..h];
    }
  }

  lemma {:induction false} FlushRest(o: Out, all: Bytes, cap: nat)
    requires Sane(o) && !o.failed && o.cap == cap && o.taken + o.waiting == all
    ensures var f := Flush(o); f.taken == all[..if cap < |all| then cap else |all|] && (f.failed <==> cap < |all|)
  {
    if o.waiting != [] {
      var h := Hand(o, o.waiting);
      assert o.taken + o.waiting[..h.1] == all[..|o.taken| + h.1];
    }
  }

  /** Nothing is counted from a value on that cannot be written. */
  lemma {:induction false} Stays(cs: seq<Chunk>, k: nat, cap: nat)
    requires k < |cs| && cs[k].Unwritable?
    ensures FeedAll(Start(cap), cs) == FeedAll(Start(cap), cs[..k]).(err := true)
  {
    FeedConcat(Start(cap), cs[..k], cs[k..]);
    FeedConcat(FeedAll(Start(cap), cs[..k]), [cs[k]], cs[k + 1..]);
    FeedOne(FeedAll(Start(cap), cs[..k]), cs[k]);
    assert cs == cs[..k] + cs[k..] && cs[k..] == [cs[k]] + cs[k + 1..];
  }

  /** What fits into the buffer never fails before the last flush. */
  lemma {:induction false} SmallNeverStops(cs: seq<Chunk>, cap: nat)
    requires Writes(cs) && |Joined(cs)| <= SIZE
    ensures StopOf(cs, cap) == Never
  {
    StaysPut(cs, 0, cap);
  }

  // ---- positions in longer lists

  lemma {:induction false} EndEarly(a: seq<Chunk>, b: seq<Chunk>, d: nat)
    requires Writes(a) && Writes(a + b) && d < |Joined(a)|
    ensures d < |Joined(a + b)| && EndOf(a + b, d) == EndOf(a, d)
  {
    JoinedConcat(a, b);
    if b == [] {
      assert a + b == a;
    } else {
      var c := b[..|b| - 1];
      assert (a + b)[..|a + b| - 1] == a + c;
      EndEarly(a, c, d);
    }
  }

  lemma {:induction false} BeforeIs(a: seq<Chunk>, b: seq<Chunk>)
    requires Writes(a)
    ensures Before(a + [Unwritable] + b) == a
  {
    var cs := a + [Unwritable] + b;
    if b == [] {
      assert cs[..|cs| - 1] == a;
    } else {
      var c := b[..|b| - 1];
      BeforeIs(a, c);
      assert cs[..|cs| - 1] == a + [Unwritable] + c;
    }
  }
}
