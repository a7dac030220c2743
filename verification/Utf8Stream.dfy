/** The writer that prints token bytes as they come, holding back the bytes of a character
    that is not whole yet (section 3 of RFC 3629). */
module Utf8Stream {
  import opened Wrappers
  import opened Utf8

  /** utf8.FullRune: more bytes cannot change how the first rune is decoded. */
  predicate FullRune(s: Bytes) {
    s != [] &&
    var n := Announced(s[0]);
    n <= |s| || (|s| > 1 && !SecondOk(s[0], s[1])) || (|s| > 2 && !Tail(s[2]))
  }

  /** The beginning of a character that more bytes can still complete. */
  predicate Partial(s: Bytes) { s != [] && !FullRune(s) }

  /** The number of bytes held back: k counts bytes from the end. */
  function HeldFrom(s: Bytes, k: nat): nat
    requires k > 0
    decreases 5 - k
  {
    if k > 4 || k > |s| then 0
    else if RuneStart(s[|s| - k]) then if FullRune(s[|s| - k..]) then 0 else k
    else HeldFrom(s, k + 1)
  }

  function Held(s: Bytes): nat { HeldFrom(s, 1) }

  /** The last k bytes, and no other number of them, are a partial character; k is 0 when
      no suffix is. */
  ghost predicate SplitsAt(s: Bytes, k: nat) {
    && k <= |s|
    && (k > 0 ==> Partial(s[|s| - k..]))
    && forall i :: 0 <= i < |s| && i != |s| - k ==> !Partial(s[i..])
  }

  /** Partial are exactly the proper beginnings of an encoded scalar. */
  lemma {:induction false} PartialExactly(s: Bytes)
    ensures Partial(s) <==> s != [] && exists v :: Scalar(v) && s < EncodeRune(v)
  {
    if Partial(s) { PartialCompletes(s); }
    forall v | s != [] && Scalar(v) && s < EncodeRune(v) ensures Partial(s) { PrefixIsPartial(s, v); }
  }

  lemma {:induction false} PrefixIsPartial(s: Bytes, v: int)
    requires s != [] && Scalar(v) && s < EncodeRune(v)
    ensures Partial(s)
  {
    var e := EncodeRune(v);
    DecodeEncoded(v, []);
    assert e + [] == e;
    CompleteOf(e, v);
    hide EncodeRune, DecodeRune;
  }

  lemma {:induction false} CompleteOf(e: Bytes, v: int)
    requires |e| > 1 && DecodeRune(e) == Rune(v, |e|)
    ensures Announced(e[0]) == |e| && Complete(e)
  {}

  /** The least bytes that complete s. */
  lemma {:induction false} PartialCompletes(s: Bytes)
    requires Partial(s)
    ensures exists v :: Scalar(v) && s < EncodeRune(v)
  {
    var n := Announced(s[0]);
    var second: Byte := if s[0] == 0xE0 then 0xA0 else if s[0] == 0xF0 then 0x90 else 0x80;
    var fill: Bytes := [s[0], second, 0x80, 0x80];
    var e := s + fill[|s|..n];
    var r := DecodeRune(e);
    assert |e| == n && e[0] == s[0] && Complete(e) && r.width == n;
    EncodeDecoded(e);
    assert e[..n] == e && s < e;
    assert Scalar(r.value) && s < EncodeRune(r.value);
  }

  lemma {:induction false} PartialShape(s: Bytes)
    ensures Partial(s) ==> |s| <= 3 && s[0] >= 0xC2 && forall i :: 0 < i < |s| ==> !RuneStart(s[i])
  {}

  /** No suffix longer than k - 1 bytes is partial when those bytes start no rune. */
  lemma {:induction false} HeldFromSplits(s: Bytes, k: nat)
    requires 0 < k <= 5 && k - 1 <= |s|
    requires forall i :: |s| - k < i < |s| ==> !RuneStart(s[i])
    ensures SplitsAt(s, HeldFrom(s, k))
    decreases 5 - k
  {
    if k <= 4 && k <= |s| && !RuneStart(s[|s| - k]) {
      HeldFromSplits(s, k + 1);
    } else {
      forall i | 0 <= i < |s| && i != |s| - k ensures !Partial(s[i..]) { OtherSuffix(s, k, i); }
      if k > 4 || k > |s| { forall i | 0 <= i < |s| ensures !Partial(s[i..]) { OtherSuffix(s, k, i); } }
    }
  }

  lemma {:induction false} OtherSuffix(s: Bytes, k: nat, i: nat)
    requires 0 < k <= 5 && i < |s| && (i == |s| - k ==> k == 5)
    requires forall j :: |s| - k < j < |s| ==> 0 <= j && !RuneStart(s[j])
    requires k <= 4 && k <= |s| ==> RuneStart(s[|s| - k])
    ensures !Partial(s[i..])
  {
    var t := s[i..];
    PartialShape(t);
    assert t[0] == s[i];
    if k <= 4 && i < |s| - k { assert t[|s| - k - i] == s[|s| - k]; }
  }

  /** The scan finds the one partial suffix. */
  lemma {:induction false} HeldSplits(s: Bytes)
    ensures SplitsAt(s, Held(s)) && Held(s) <= 3
  {
    HeldFromSplits(s, 1);
    if Held(s) > 0 {
      PartialShape(s[|s| - Held(s)..]);
    }
  }

  lemma {:induction false} SplitUnique(s: Bytes, j: nat, k: nat)
    requires SplitsAt(s, j) && SplitsAt(s, k)
    ensures j == k
  {
    if j > 0 { assert Partial(s[|s| - j..]); }
    if k > 0 { assert Partial(s[|s| - k..]); }
  }

  /** What has been printed after s has come in, and what waits. */
  function Emitted(s: Bytes): Bytes {
    HeldSplits(s);
    s[..|s| - Held(s)]
  }

  function Pending(s: Bytes): Bytes {
    HeldSplits(s);
    s[|s| - Held(s)..]
  }

  lemma {:induction false} HeldStep(s: Bytes, k: nat)
    requires k > 0
    ensures k > 4 || k > |s| ==> HeldFrom(s, k) == 0
    ensures k <= 4 && k <= |s| && RuneStart(s[|s| - k]) ==> HeldFrom(s, k) == if FullRune(s[|s| - k..]) then 0 else k
    ensures k <= 4 && k <= |s| && !RuneStart(s[|s| - k]) ==> HeldFrom(s, k) == HeldFrom(s, k + 1)
  {}

  lemma {:induction false} SplitParts(s: Bytes)
    ensures Emitted(s) == s[..|s| - Held(s)] && Pending(s) == s[|s| - Held(s)..] && Held(s) <= 3 && Held(s) <= |s|
    ensures Emitted(s) + Pending(s) == s && Held(s) == HeldFrom(s, 1)
    ensures Pending(s) != [] ==> Partial(Pending(s))
    ensures s == [] ==> Pending(s) == [] && Emitted(s) == []
  {
    HeldSplits(s);
  }

  // ---- chunks do not matter

  lemma {:induction false} PrefixPartial(s: Bytes, n: nat)
    requires Partial(s) && 0 < n <= |s|
    ensures Partial(s[..n])
  {}

  /** Writing p when s has come in splits the bytes where writing s + p at once does. */
  lemma {:induction false} ChunksDoNotMatter(s: Bytes, p: Bytes)
    ensures Pending(Pending(s) + p) == Pending(s + p)
    ensures Emitted(s) + Emitted(Pending(s) + p) == Emitted(s + p)
  {
    var t := Pending(s) + p;
    hide *;
    SplitParts(s);
    SplitParts(t);
    SplitParts(s + p);
    SeqAssoc(Emitted(s), Pending(s), p);
    HeldSplits(t);
    HeldSplits(s + p);
    forall i | 0 <= i < |Emitted(s)| ensures !Partial((Emitted(s) + t)[i..]) { EmittedSettled(s, p, i); }
    JoinedSplits(Emitted(s), t, Held(t));
    SplitUnique(s + p, Held(t), Held(s + p));
    SameSplit(Emitted(s), t, Held(t));
  }

  lemma {:induction false} SameSplit(e: Bytes, t: Bytes, k: nat)
    requires k <= |t|
    ensures t[|t| - k..] == (e + t)[|e + t| - k..] && e + t[..|t| - k] == (e + t)[..|e + t| - k]
  {}

  lemma {:induction false} JoinedSplits(e: Bytes, t: Bytes, k: nat)
    requires SplitsAt(t, k)
    requires forall i :: 0 <= i < |e| ==> !Partial((e + t)[i..])
    ensures SplitsAt(e + t, k)
  {
    var w := e + t;
    hide Partial;
    SameSplit(e, t, k);
    forall i | 0 <= i < |w| && i != |w| - k ensures !Partial(w[i..]) {
      if i >= |e| { DropPast(e, t, i); }
    }
  }

  lemma {:induction false} DropPast(e: Bytes, t: Bytes, i: nat)
    requires |e| <= i <= |e + t|
    ensures (e + t)[i..] == t[i - |e|..]
  {}

  lemma {:induction false} SeqAssoc(a: Bytes, b: Bytes, c: Bytes)
    ensures a + b + c == a + (b + c)
  {}

  lemma {:induction false} EmittedSettled(s: Bytes, p: Bytes, i: nat)
    requires i < |Emitted(s)|
    ensures !Partial((s + p)[i..])
  {
    HeldSplits(s);
    assert !Partial(s[i..]);
    var t := (s + p)[i..];
    assert t[..|s| - i] == s[i..];
    if Partial(t) { PrefixPartial(t, |s| - i); }
  }

  // ---- characters stay whole

  /** Once a rune is full, or the next byte starts another, more bytes do not change it. */
  lemma {:induction false} Decoded(a: Bytes, c: Bytes)
    requires a != [] && (FullRune(a) || (c != [] && RuneStart(c[0])))
    ensures DecodeRune(a + c) == DecodeRune(a)
  {
    var s := a + c;
    assert s[0] == a[0] && (|a| > 1 ==> s[1] == a[1]) && (|a| > 2 ==> s[2] == a[2]) && (|a| > 3 ==> s[3] == a[3]);
    if c != [] { assert s[|a|] == c[0]; }
  }

  lemma {:induction false} RunesJoin(a: Bytes, c: Bytes)
    requires forall i :: 0 <= i < |a| ==> DecodeRune(a[i..] + c) == DecodeRune(a[i..])
    ensures Runes(a + c) == Runes(a) + Runes(c)
    decreases |a|
  {
    if a == [] {
      assert a + c == c;
    } else {
      assert a[0..] == a;
      var w := DecodeRune(a).width;
      var b := a[w..];
      assert (a + c)[w..] == b + c;
      forall i | 0 <= i < |b| ensures DecodeRune(b[i..] + c) == DecodeRune(b[i..]) { assert b[i..] == a[w + i..]; }
      RunesJoin(b, c);
    }
  }

  /** The split never cuts a rune, whatever follows, valid UTF-8 or not: the whole text has
      the runes of the emitted part and then those of the rest. */
  lemma {:induction false} NeverCutsARune(s: Bytes, rest: Bytes)
    ensures Runes(s + rest) == Runes(Emitted(s)) + Runes(Pending(s) + rest)
  {
    var e, c := Emitted(s), Pending(s) + rest;
    SplitParts(s);
    hide *;
    SeqAssoc(e, Pending(s), rest);
    forall i | 0 <= i < |e| ensures DecodeRune(e[i..] + c) == DecodeRune(e[i..]) { SettledRune(s, rest, i); }
    RunesJoin(e, c);
  }

  lemma {:induction false} SettledRune(s: Bytes, rest: Bytes, i: nat)
    requires i < |Emitted(s)|
    ensures DecodeRune(Emitted(s)[i..] + (Pending(s) + rest)) == DecodeRune(Emitted(s)[i..])
  {
    EmittedSettled(s, [], i);
    assert s + [] == s;
    SplitParts(s);
    if Pending(s) != [] { PendingStarts(s); }
    hide Emitted, Pending, DecodeRune, FullRune, RuneStart, Held, HeldFrom;
    if Pending(s) == [] { assert s == Emitted(s); }
    Decoded(Emitted(s)[i..], Pending(s) + rest);
  }

  lemma {:induction false} PendingStarts(s: Bytes)
    requires Pending(s) != []
    ensures RuneStart(Pending(s)[0])
  {
    HeldSplits(s);
    PartialShape(Pending(s));
  }

  predicate Valid(rs: seq<Rune>) { forall i :: 0 <= i < |rs| ==> rs[i] != Rune(RUNE_ERROR, 1) }

  /** e is made of whole characters of the text, and fewer bytes of the first n are left than
      the next character has. */
  ghost predicate WholeCharacters(whole: Bytes, n: nat, e: Bytes) {
    && |e| <= n <= |whole| && e == whole[..|e|]
    && Runes(whole) == Runes(e) + Runes(whole[|e|..]) && Valid(Runes(e))
    && n - |e| <= 3 && (n > |e| ==> n < |e| + DecodeRune(whole[|e|..]).width)
  }

  /** For a prefix of valid UTF-8, what is printed is valid UTF-8, made of whole characters of
      the text, and fewer bytes are held back than the next character has. */
  lemma {:induction false} EndsOnCharacter(whole: Bytes, n: nat)
    requires n <= |whole| && Valid(Runes(whole))
    ensures WholeCharacters(whole, n, Emitted(whole[..n]))
  {
    var s, rest := whole[..n], whole[n..];
    var e, q := Emitted(s), Pending(s);
    SplitParts(s);
    hide DecodeRune, Runes, Emitted, Pending, Held, HeldFrom, Partial, Valid;
    SplitWhole(whole, n, e, q);
    NeverCutsARune(s, rest);
    ValidParts(Runes(e), Runes(q + rest));
    if q != [] { PartialWidth(q, rest); }
  }

  lemma {:induction false} SplitWhole(whole: Bytes, n: nat, e: Bytes, q: Bytes)
    requires n <= |whole| && whole[..n] == e + q
    ensures whole == whole[..n] + whole[n..] && e == whole[..|e|] && whole[|e|..] == q + whole[n..] && |e| + |q| == n
  {
    assert whole == e + q + whole[n..];
  }

  lemma {:induction false} ValidParts(a: seq<Rune>, b: seq<Rune>)
    requires Valid(a + b)
    ensures Valid(a) && Valid(b)
  {
    forall i | 0 <= i < |a| ensures a[i] == (a + b)[i] {}
    forall i | 0 <= i < |b| ensures b[i] == (a + b)[|a| + i] {}
  }

  lemma {:induction false} PartialWidth(q: Bytes, rest: Bytes)
    requires Partial(q) && Valid(Runes(q + rest))
    ensures |q| < DecodeRune(q + rest).width
  {
    RunesFirst(q + rest);
    assert Runes(q + rest)[0] == DecodeRune(q + rest);
    assert (q + rest)[0] == q[0];
  }

  // ---- Flush

  const REPLACEMENT: Bytes := [0xEF, 0xBF, 0xBD]

  /** strings.ToValidUTF8 with U+FFFD: every run of invalid bytes becomes one. */
  function Repair(s: Bytes, invalid: bool): Bytes
    decreases |s|
  {
    if s == [] then [] else
      var r := DecodeRune(s);
      if s[0] >= 0x80 && r.width == 1 then (if invalid then [] else REPLACEMENT) + Repair(s[1..], true)
      else s[..r.width] + Repair(s[r.width..], false)
  }

  lemma {:induction false} TailsVanish(s: Bytes)
    requires forall i :: 0 <= i < |s| ==> Tail(s[i])
    ensures Repair(s, true) == []
    decreases |s|
  {
    if s != [] { TailsVanish(s[1..]); }
  }

  lemma {:induction false} PartialRepaired(s: Bytes)
    requires Partial(s)
    ensures Repair(s, false) == REPLACEMENT
  {
    PartialShape(s);
    TailsVanish(s[1..]);
  }

  // ---- the writer

  /** The scan in Write: where the trailing partial character starts. */
  method HoldBack(s: Bytes) returns (keep: nat)
    ensures SplitsAt(s, keep) && keep == Held(s) && keep <= 3 && keep <= |s|
  {
    hide HeldFrom, FullRune, RuneStart, Partial;
    HeldSplits(s);
    keep := 0;
    var i := |s| - 1;
    while i >= 0 && i >= |s| - 4
      invariant keep == 0 && i < |s| && |s| - 5 <= i && -1 <= i
      invariant Held(s) == HeldFrom(s, |s| - i)
      decreases i
    {
      HeldStep(s, |s| - i);
      if RuneStart(s[i]) {
        if !FullRune(s[i..]) { keep := |s| - i; }
        return;
      }
      i := i - 1;
    }
    HeldStep(s, |s| - i);
  }

  lemma {:induction false} WriteStep(flushed: Bytes, fed: Bytes, p: Bytes, keep: nat)
    requires keep == Held(Pending(fed) + p) && keep <= |Pending(fed) + p|
    ensures var t := Pending(fed) + p;
      && flushed + Emitted(fed) + t[..|t| - keep] == flushed + Emitted(fed + p)
      && t[|t| - keep..] == Pending(fed + p) && keep <= 3
      && flushed + Emitted(fed) + t[..|t| - keep] + t[|t| - keep..] == flushed + Emitted(fed) + Pending(fed) + p
  {
    var t := Pending(fed) + p;
    ChunksDoNotMatter(fed, p);
    SplitParts(t);
    hide *;
    SeqAssoc(flushed, Emitted(fed), Emitted(t));
    SeqAssoc(flushed + Emitted(fed), Emitted(t), Pending(t));
    SeqAssoc(flushed + Emitted(fed), Pending(fed), p);
  }

  /** utf8Writer, with the bytes it has sent to standard output; fed is what has come in since
      the last Flush, and flushed what had been printed by then. */
  class Writer {
    var pending: Bytes
    var printed: Bytes
    ghost var fed: Bytes
    ghost var flushed: Bytes

    /** Whatever the chunks were, their concatenation decides. */
    ghost predicate Valid()
      reads this
    {
      pending == Pending(fed) && printed == flushed + Emitted(fed)
    }

    constructor ()
      ensures Valid() && fed == [] && flushed == []
    {
      hide Pending, Emitted;
      SplitParts([]);
      pending, printed, fed, flushed := [], [], [], [];
    }

    method Write(p: Bytes)
      requires Valid()
      modifies this
      ensures Valid() && fed == old(fed) + p && flushed == old(flushed)
      ensures printed + pending == old(printed + pending) + p && |pending| <= 3
    {
      hide SplitsAt, Held, Emitted, Pending;
      pending := pending + p;
      var keep := HoldBack(pending);
      WriteStep(flushed, fed, p, keep);
      printed := printed + pending[..|pending| - keep];
      pending := pending[|pending| - keep..];
      fed := fed + p;
    }

    method Flush()
      requires Valid()
      modifies this
      ensures Valid() && fed == [] && pending == []
      ensures printed == old(printed) + (if old(pending) == [] then [] else REPLACEMENT)
    {
      hide Held, HeldFrom, FullRune, RuneStart, Pending, Emitted, Partial, Repair;
      SplitParts(fed);
      SplitParts([]);
      if |pending| > 0 {
        PartialRepaired(pending);
        printed := printed + Repair(pending, false);
        pending := [];
      }
      fed, flushed := [], printed;
    }
  }
}
