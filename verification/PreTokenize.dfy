/** matchAt, spanRunes and PreTokenize over bytes. */
module PreTokenize {
  import opened Wrappers
  import opened Utf8
  import opened Regex
  import opened PreTokenizer

  /** Byte position of rune n. */
  function Offset(s: Bytes, n: nat): (k: nat)
    requires n <= |Runes(s)|
    ensures k <= |s|
  {
    RunesAfter(s, n);
    Width(Runes(s)[..n])
  }

  lemma {:induction false} OffsetNext(s: Bytes, n: nat)
    requires n < |Runes(s)|
    ensures Offset(s, n + 1) == Offset(s, n) + Runes(s)[n].width
    ensures Offset(s, n) < |s| && Runes(s)[n] == DecodeRune(s[Offset(s, n)..])
  {
    var rs := Runes(s);
    assert rs[..n + 1] == rs[..n] + [rs[n]];
    WidthConcat(rs[..n], [rs[n]]);
    WidthOne(rs[n]);
    RunesAfter(s, n);
    var t := s[Offset(s, n)..];
    assert Runes(t)[0] == rs[n] && t != [];
    RunesFirst(t);
  }

  lemma {:induction false} OffsetEnds(s: Bytes)
    ensures Offset(s, 0) == 0 && Offset(s, |Runes(s)|) == |s|
  {
    RunesWidth(s);
    assert Runes(s)[..|Runes(s)|] == Runes(s) && Runes(s)[..0] == [];
  }

  lemma {:induction false} OffsetMonotone(s: Bytes, m: nat, n: nat)
    requires m <= n <= |Runes(s)|
    ensures Offset(s, m) + (n - m) <= Offset(s, n)
  {
    if m < n {
      OffsetMonotone(s, m, n - 1);
      OffsetNext(s, n - 1);
    }
  }

  /** An offset that is not past all runes is inside the text. */
  lemma {:induction false} OffsetInside(s: Bytes, n: nat)
    requires n <= |Runes(s)|
    ensures n < |Runes(s)| <==> Offset(s, n) < |s|
  {
    OffsetEnds(s);
    if n < |Runes(s)| { OffsetNext(s, n); }
  }

  lemma {:induction false} SpanShift(p: int -> bool, v: seq<int>, i: nat)
    requires i <= |v|
    ensures Span(p, v[i..], 0) == Span(p, v, i)
  {
    SpanFrom(p, v, i, 0);
  }

  lemma {:induction false} SpanFrom(p: int -> bool, v: seq<int>, i: nat, j: nat)
    requires i + j <= |v|
    ensures Span(p, v[i..], j) == Span(p, v, i + j)
    decreases |v| - j
  {
    if i + j < |v| && p(v[i + j]) { SpanFrom(p, v, i, j + 1); }
  }

  /** The runes from rune n on are those of the text from its offset on. */
  lemma {:induction false} ValuesAfter(s: Bytes, n: nat)
    requires n <= |Runes(s)|
    ensures Runes(s[Offset(s, n)..]) == Runes(s)[n..] && Values(Runes(s[Offset(s, n)..])) == Values(Runes(s))[n..]
  {
    RunesAfter(s, n);
  }

  lemma {:induction false} OffsetAfter(s: Bytes, m: nat, n: nat)
    requires m + n <= |Runes(s)|
    ensures n <= |Runes(s[Offset(s, m)..])| && Offset(s, m + n) == Offset(s, m) + Offset(s[Offset(s, m)..], n)
  {
    RunesAfter(s, m);
    var rs := Runes(s);
    assert rs[..m + n] == rs[..m] + rs[m..][..n];
    WidthConcat(rs[..m], rs[m..][..n]);
  }

  /** spanRunes */
  method SpanRunes(s: Bytes, p: int -> bool) returns (n: nat)
    ensures n == Offset(s, Span(p, Values(Runes(s)), 0))
  {
    ghost var v := Values(Runes(s));
    ghost var k := 0;
    OffsetEnds(s);
    n := 0;
    while n < |s|
      invariant k <= |v| && n == Offset(s, k) && Span(p, v, 0) == k + Span(p, v, k)
      decreases |s| - n
    {
      OffsetInside(s, k);
      OffsetNext(s, k);
      var r := DecodeRune(s[n..]);
      if !p(r.value) { break; }
      n := n + r.width;
      k := k + 1;
    }
    OffsetInside(s, k);
  }

  lemma {:induction false} RunesDecoded(s: Bytes)
    ensures Decoded(Runes(s))
  {
    forall i | 0 <= i < |Runes(s)|
      ensures Runes(s)[i].width >= 1 && (Runes(s)[i].value < 0x80 ==> Runes(s)[i].width == 1)
    {
      OffsetNext(s, i);
    }
  }

  /** spanRunes from rune k on. */
  method SpanAt(s: Bytes, p: int -> bool, ghost k: nat, at: nat) returns (n: nat)
    requires k <= |Runes(s)| && at == Offset(s, k)
    ensures at + n == Offset(s, k + Span(p, Values(Runes(s)), k))
  {
    ghost var v := Values(Runes(s));
    n := SpanRunes(s[at..], p);
    ValuesAfter(s, k);
    SpanShift(p, v, k);
    OffsetAfter(s, k, Span(p, v, k));
  }

  // ---- the contraction suffixes

  /** strings.ToLower of a byte string, as far as ASCII goes. */
  function LowerAll(s: Bytes): (t: Bytes)
    ensures |t| == |s| && forall i :: 0 <= i < |s| ==> t[i] == Lower(s[i])
  {
    if s == [] then [] else [LowerByte(s[0])] + LowerAll(s[1..])
  }

  function LowerByte(b: Byte): (c: Byte)
    ensures c == Lower(b)
  {
    if 0x41 <= b <= 0x5A then b + 32 else b
  }

  const SUFFIXES: seq<Bytes> := [[0x73], [0x74], [0x72, 0x65], [0x76, 0x65], [0x6D], [0x6C, 0x6C], [0x64]]

  /** The bytes and the runes after an apostrophe show the same ASCII letters. */
  lemma {:induction false} SecondByte(s: Bytes)
    requires |s| > 0 && s[0] < 0x80
    ensures var v := Values(Runes(s));
      && |v| > 0 && v[0] == s[0] && (|v| > 1 <==> |s| > 1)
      && (|s| > 1 ==> (v[1] < 0x80 <==> s[1] < 0x80) && (s[1] < 0x80 ==> v[1] == s[1] && (|v| > 2 <==> |s| > 2)))
      && (|s| > 2 && s[1] < 0x80 ==> (v[2] < 0x80 <==> s[2] < 0x80) && (s[2] < 0x80 ==> v[2] == s[2]))
  {
    RunesFirst(s);
    var t := s[1..];
    if |t| > 0 {
      RunesFirst(t);
      if t[0] < 0x80 && |t| > 1 { RunesFirst(t[1..]); }
    }
  }

  /** rest is the one or two bytes after the first, lowered; v the runes of the text. */
  ghost predicate SameLetters(rest: Bytes, v: seq<int>) {
    && |rest| <= 2 && (|rest| > 0 <==> |v| > 1)
    && (|rest| > 0 ==> (Lower(v[1]) < 0x80 <==> rest[0] < 0x80) && (rest[0] < 0x80 ==>
      Lower(v[1]) == rest[0] && (|rest| > 1 <==> |v| > 2)))
    && (|rest| > 1 && rest[0] < 0x80 ==>
      (Lower(v[2]) < 0x80 <==> rest[1] < 0x80) && (rest[1] < 0x80 ==> Lower(v[2]) == rest[1]))
  }

  /** The first suffix in the list that fits decides. */
  lemma {:induction false} SuffixFound(rest: Bytes, v: seq<int>, i: nat)
    requires SameLetters(rest, v) && i <= |SUFFIXES| && forall j :: 0 <= j < i ==> !(SUFFIXES[j] <= rest)
    requires i < |SUFFIXES| ==> SUFFIXES[i] <= rest
    ensures Suffix(v) == (if i < |SUFFIXES| then |SUFFIXES[i]| else 0)
  {
    forall j | 0 <= j < 7 ensures j < i ==> !Fits(rest, j) { assert SUFFIXES[j] <= rest <==> Fits(rest, j); }
    assert i < 7 ==> Fits(rest, i);
    assert 0 < i ==> !Fits(rest, 0);
    assert 1 < i ==> !Fits(rest, 1);
    assert 2 < i ==> !Fits(rest, 2);
    assert 3 < i ==> !Fits(rest, 3);
    assert 4 < i ==> !Fits(rest, 4);
    assert 5 < i ==> !Fits(rest, 5);
    assert 6 < i ==> !Fits(rest, 6);
  }

  ghost predicate Fits(rest: Bytes, j: nat)
    requires j < 7
  {
    && |rest| >= |SUFFIXES[j]| && rest[0] == SUFFIXES[j][0] && (|SUFFIXES[j]| == 2 ==> rest[1] == SUFFIXES[j][1])
  }

  /** The loop over the suffixes: how many bytes, hence runes, of one follow the apostrophe. */
  method SuffixAt(s: Bytes) returns (n: nat)
    requires |s| > 0 && s[0] < 0x80
    ensures n == Suffix(Values(Runes(s)))
  {
    SecondByte(s);
    var rest := LowerAll(s[1..if |s| < 3 then |s| else 3]);
    for i := 0 to |SUFFIXES|
      invariant forall j :: 0 <= j < i ==> !(SUFFIXES[j] <= rest)
    {
      if SUFFIXES[i] <= rest {
        SuffixFound(rest, Values(Runes(s)), i);
        return |SUFFIXES[i]|;
      }
    }
    SuffixFound(rest, Values(Runes(s)), |SUFFIXES|);
    return 0;
  }

  // ---- whitespace

  /** A byte below 0x80 is a rune of its own. */
  lemma {:induction false} AsciiByte(s: Bytes, j: nat) returns (i: nat)
    requires j < |s| && s[j] < 0x80
    ensures i < |Runes(s)| && Offset(s, i) == j && Runes(s)[i] == Rune(s[j], 1)
    decreases |s|
  {
    var r := DecodeRune(s);
    RunesFirst(s);
    OffsetEnds(s);
    if j == 0 {
      i := 0;
    } else {
      FirstRuneBytes(s, j);
      var t := s[r.width..];
      assert t[j - r.width] == s[j];
      var k := AsciiByte(t, j - r.width);
      OffsetNext(s, 0);
      OffsetAfter(s, 1, k);
      i := k + 1;
    }
  }

  /** The bytes of a rune after its first are not ASCII. */
  lemma {:induction false} FirstRuneBytes(s: Bytes, j: nat)
    requires 0 < j < |s| && s[j] < 0x80
    ensures j >= DecodeRune(s).width
  {}

  /** strings.LastIndexAny(ws, "\r\n") */
  method LastNewline(ws: Bytes) returns (k: int)
    ensures -1 <= k < |ws| && (k >= 0 ==> ws[k] == CR || ws[k] == LF)
    ensures forall j :: k < j < |ws| ==> ws[j] != CR && ws[j] != LF
  {
    k := |ws| - 1;
    while k >= 0
      invariant -1 <= k < |ws| && forall j :: k < j < |ws| ==> ws[j] != CR && ws[j] != LF
    {
      if ws[k] == CR || ws[k] == LF { return; }
      k := k - 1;
    }
  }

  /** The last newline byte of the first n runes is the last newline rune. */
  lemma {:induction false} LastNewlineRune(s: Bytes, n: nat, k: int)
    requires n <= |Runes(s)| && -1 <= k < Offset(s, n) && (k >= 0 ==> s[k] == CR || s[k] == LF)
    requires forall j :: k < j < Offset(s, n) ==> s[j] != CR && s[j] != LF
    ensures var m := LastLine(Values(Runes(s)), n);
      if k >= 0 then m > 0 && k + 1 == Offset(s, m) else m == 0
  {
    var m := LastLine(Values(Runes(s)), n);
    if m > 0 { NewlineByte(s, n); }
    if k >= 0 {
      var i := AsciiByte(s, k);
      NewlineRune(s, n, i);
      OffsetMonotone(s, i, m - 1);
    }
  }

  lemma {:induction false} NewlineByte(s: Bytes, n: nat)
    requires n <= |Runes(s)| && LastLine(Values(Runes(s)), n) > 0
    ensures var m := LastLine(Values(Runes(s)), n);
      var j := Offset(s, m - 1);
      Offset(s, m) == j + 1 && j < Offset(s, n) && j < |s| && (s[j] == CR || s[j] == LF)
  {
    var v := Values(Runes(s));
    var m := LastLine(v, n);
    OffsetNext(s, m - 1);
    OffsetMonotone(s, m, n);
    RunesDecoded(s);
    assert s[Offset(s, m - 1)..][0] == s[Offset(s, m - 1)] == v[m - 1];
  }

  lemma {:induction false} NewlineRune(s: Bytes, n: nat, i: nat)
    requires n <= |Runes(s)| && i < |Runes(s)| && Offset(s, i) < Offset(s, n) && Newline()(Runes(s)[i].value)
    ensures i < LastLine(Values(Runes(s)), n)
  {
    if i >= n { OffsetMonotone(s, n, i); }
    assert Newline()(Values(Runes(s))[i]);
  }

  /** utf8.DecodeLastRuneInString, its width. */
  method LastWidth(s: Bytes) returns (w: nat)
    requires |s| > 0
    ensures forall p {:trigger s[p..]} | 0 <= p < |s| && DecodeRune(s[p..]).width == |s| - p ::
      p + 1 < |s| || s[p] < 0x80 ==> w == |s| - p
  {
    var end := |s|;
    var start := end - 1;
    if s[start] < 0x80 {
      forall p | 0 <= p < |s| && DecodeRune(s[p..]).width == |s| - p ensures p == start { LastIsAscii(s, p); }
      return 1;
    }
    var lim := if end < 4 then 0 else end - 4;
    start := start - 1;
    while start >= lim && !RuneStart(s[start])
      invariant lim - 1 <= start < end - 1
      invariant forall j :: start < j < end - 1 ==> !RuneStart(s[j])
    {
      start := start - 1;
    }
    if start < 0 { start := 0; }
    var size := DecodeRune(s[start..]).width;
    forall p | 0 <= p && p + 1 < |s| && DecodeRune(s[p..]).width == |s| - p ensures p == start { LongRune(s, p); }
    return if start + size != end then 1 else size;
  }

  lemma {:induction false} LastIsAscii(s: Bytes, p: nat)
    requires p < |s| && s[|s| - 1] < 0x80 && DecodeRune(s[p..]).width == |s| - p
    ensures p == |s| - 1
  {
    if p < |s| - 1 {
      assert s[p..][|s| - 1 - p] == s[|s| - 1];
      FirstRuneBytes(s[p..], |s| - 1 - p);
    }
  }

  /** A rune of several bytes: a starter, then continuation bytes, four at most. */
  lemma {:induction false} LongRune(s: Bytes, p: nat)
    requires p + 1 < |s| && DecodeRune(s[p..]).width == |s| - p
    ensures RuneStart(s[p]) && |s| - p <= 4 && s[|s| - 1] >= 0x80
    ensures forall j :: p < j < |s| ==> !RuneStart(s[j])
  {
    var t := s[p..];
    assert forall j :: p < j < |s| ==> s[j] == t[j - p];
  }

  lemma {:induction false} LastOfRun(s: Bytes, n: nat)
    requires 0 < n <= |Runes(s)| && Runes(s)[n - 1].value != RUNE_ERROR
    ensures var ws, p := s[..Offset(s, n)], Offset(s, n - 1);
      && p < |ws| && DecodeRune(ws[p..]).width == |ws| - p == Runes(s)[n - 1].width && (p + 1 < |ws| || ws[p] < 0x80)
  {
    OffsetNext(s, n - 1);
    var p, w := Offset(s, n - 1), Runes(s)[n - 1].width;
    assert s[..Offset(s, n)][p..] == s[p..][..w];
    WholeRune(s[p..]);
  }

  /** A valid rune is decoded from its own bytes alone. */
  lemma {:induction false} WholeRune(s: Bytes)
    requires |s| > 0 && DecodeRune(s).value != RUNE_ERROR
    ensures var w := DecodeRune(s).width; DecodeRune(s[..w]) == DecodeRune(s) && (w == 1 ==> s[0] < 0x80)
  {}

  /** The whitespace part of matchAt. */
  method BlankAt(cls: Classes, s: Bytes) returns (n: nat)
    requires |s| > 0 && cls.Good() && |Runes(s)| > 0 && cls.space(Runes(s)[0].value)
    ensures n == Offset(s, Blank(cls, Runes(s)))
  {
    ghost var k := Span(cls.space, Values(Runes(s)), 0);
    n := SpanRunes(s, cls.space);
    var ws := s[..n];
    var line := LastNewline(ws);
    LastNewlineRune(s, k, line);
    BlankCases(cls, s);
    hide Blank, Runes, DecodeRune, Offset, Span, LastLine;
    if line >= 0 { return line + 1; }
    if n < |s| && n > 1 {
      SpaceBefore(cls, s);
      var wl := LastWidth(ws);
      return n - wl;
    }
  }

  /** The cases of Blank, by bytes. */
  lemma {:induction false} BlankCases(cls: Classes, s: Bytes)
    requires |Runes(s)| > 0 && cls.space(Runes(s)[0].value)
    ensures var v := Values(Runes(s)); var k := Span(cls.space, v, 0);
      && k <= |Runes(s)| && LastLine(v, k) <= k
      && Blank(cls, Runes(s)) == (if LastLine(v, k) > 0 then LastLine(v, k)
                                  else if Offset(s, k) < |s| && Offset(s, k) > 1 then k - 1 else k)
  {
    OffsetInside(s, Span(cls.space, Values(Runes(s)), 0));
    hide Runes, DecodeRune;
  }

  /** The last rune of the spaces, as LastWidth finds it. */
  lemma {:induction false} SpaceBefore(cls: Classes, s: Bytes)
    requires cls.Good() && |Runes(s)| > 0 && cls.space(Runes(s)[0].value)
    ensures var k := Span(cls.space, Values(Runes(s)), 0);
      && 0 < k <= |Runes(s)| && 0 <= Offset(s, k - 1) < Offset(s, k)
      && (var ws, p := s[..Offset(s, k)], Offset(s, k - 1);
          DecodeRune(ws[p..]).width == |ws| - p && (p + 1 < |ws| || ws[p] < 0x80))
  {
    var v := Values(Runes(s));
    SpanRun(cls.space, v, 0);
    var k := Span(cls.space, v, 0);
    assert k > 0 && cls.space(v[k - 1]);
    assert Runes(s)[k - 1].value != RUNE_ERROR;
    hide Runes, DecodeRune, Offset;
    LastOfRun(s, k);
    OffsetNext(s, k - 1);
  }

  /** The loop over at most three numbers. */
  method DigitsAt(cls: Classes, s: Bytes) returns (n: nat)
    requires |s| > 0
    ensures n == Offset(s, Digits(cls, Values(Runes(s))))
  {
    ghost var v := Values(Runes(s));
    var count := 0;
    n := 0;
    OffsetEnds(s);
    while n < |s| && count < 3
      invariant count <= 3 && count <= |v| && n == Offset(s, count)
      invariant forall i :: 0 <= i < count ==> cls.number(v[i])
    {
      OffsetInside(s, count);
      OffsetNext(s, count);
      var r := DecodeRune(s[n..]);
      if !cls.number(r.value) { break; }
      n := n + r.width;
      count := count + 1;
    }
    OffsetInside(s, count);
    DigitsAre(cls, v, count);
  }

  lemma {:induction false} DigitsAre(cls: Classes, v: seq<int>, n: nat)
    requires n <= |v| && n <= 3 && (forall i :: 0 <= i < n ==> cls.number(v[i]))
    requires n == 3 || n == |v| || !cls.number(v[n])
    ensures Digits(cls, v) == n
  {
    assert n > 0 ==> cls.number(v[0]);
    assert n > 1 ==> cls.number(v[1]);
    assert n > 2 ==> cls.number(v[2]);
  }

  /** matchAt */
  method MatchAt(cls: Classes, s: Bytes) returns (n: nat)
    requires |s| > 0 && cls.Good()
    ensures |Runes(s)| > 0 && n == Offset(s, Match(cls, Runes(s)))
  {
    hide Runes, Offset, Suffix, Digits, Blank, Span, DecodeRune;
    RunesFirst(s);
    ghost var v := Values(Runes(s));
    OffsetEnds(s);
    OffsetNext(s, 0);
    var r0 := DecodeRune(s);
    assert v[0] == r0.value;
    if r0.value == APOSTROPHE {
      var m := SuffixAt(s);
      if m > 0 {
        SuffixBytes(s);
        return 1 + m;
      }
    }
    var letters := SpanAt(s, cls.letter, 1, r0.width);
    LettersFound(s, cls);
    if cls.letter(r0.value) { return r0.width + letters; }
    if r0.value != CR && r0.value != LF && !cls.number(r0.value) {
      if letters > 0 { return r0.width + letters; }
    }
    if cls.number(r0.value) {
      n := DigitsAt(cls, s);
      return;
    }
    var start := if r0.value == SPACE then 1 else 0;
    var puncts := SpanAt(s, Punct(cls), start, start);
    ghost var k := start + Span(Punct(cls), v, start);
    OffsetMonotone(s, start, k);
    if puncts > 0 {
      var lines := SpanAt(s, Newline(), k, start + puncts);
      return start + puncts + lines;
    }
    if cls.space(r0.value) {
      n := BlankAt(cls, s);
      return;
    }
    return r0.width;
  }

  lemma {:induction false} LettersFound(s: Bytes, cls: Classes)
    requires |Runes(s)| > 0
    ensures var n := Span(cls.letter, Values(Runes(s)), 1); n > 0 <==> Offset(s, 1 + n) > Offset(s, 1)
  {
    OffsetMonotone(s, 1, 1 + Span(cls.letter, Values(Runes(s)), 1));
  }

  /** A contraction is ASCII, so its runes are its bytes. */
  lemma {:induction false} SuffixBytes(s: Bytes)
    requires |Runes(s)| > 0 && Runes(s)[0].value == APOSTROPHE
    ensures Offset(s, 1 + Suffix(Values(Runes(s)))) == 1 + Suffix(Values(Runes(s)))
  {
    var v := Values(Runes(s));
    RunesDecoded(s);
    OffsetEnds(s);
    OffsetNext(s, 0);
    if Suffix(v) > 0 { OffsetNext(s, 1); }
    if Suffix(v) > 1 { OffsetNext(s, 2); }
  }

  // ---- the loop

  function Join(ps: seq<Bytes>): Bytes { if ps == [] then [] else Join(ps[..|ps| - 1]) + ps[|ps| - 1] }

  /** Pieces, or the position where the source appends empty pieces forever. */
  datatype Split = Pieces(ps: seq<Bytes>) | Spins(at: nat)

  /** No rune of the text is a whitespace rune of several bytes followed by a rune that is
      neither space nor letter. */
  ghost predicate Progresses(cls: Classes, text: Bytes) {
    forall i :: 0 <= i < |Runes(text)| ==> !Stuck(cls, Runes(text)[i..])
  }

  /** A no-break space before an exclamation mark: PreTokenize never ends, whatever the classes
      say about the rest. */
  lemma {:induction false} NoBreakSpace(cls: Classes)
    requires cls.Good() && cls.space(0xA0) && !cls.space(0x21) && !cls.letter(0x21)
    ensures !Progresses(cls, [0xC2, 0xA0, 0x21])
  {
    var text, rest: Bytes := [0xC2, 0xA0, 0x21], [0x21];
    assert text[2..] == rest && rest[1..] == [];
    assert DecodeRune(text) == Rune(0xA0, 2) && DecodeRune(rest) == Rune(0x21, 1);
    assert Runes(rest) == [Rune(0x21, 1)] + Runes([]) && Runes([]) == [];
    assert Runes(text) == [Rune(0xA0, 2)] + Runes(rest);
    assert Runes(text)[0..] == Runes(text);
    assert Stuck(cls, Runes(text)[0..]);
  }

  /** No match runs past a stuck position, so the loop cannot miss one. */
  lemma {:induction false} NeverSkips(cls: Classes, rs: seq<Rune>, e: nat)
    requires cls.Good() && Decoded(rs) && 0 < e < |rs| && Stuck(cls, rs[e..])
    ensures Match(cls, rs) <= e
  {
    var v := Values(rs);
    assert v[e] == rs[e].value && v[e] >= 0x80 && cls.space(v[e]) && !cls.letter(v[e]) && !cls.number(v[e]);
    assert e + 1 < |v| && !cls.space(v[e + 1]);
    SpanStops(cls.letter, v, 1, e);
    var start := if v[0] == SPACE then 1 else 0;
    SpanStops(Punct(cls), v, start, e);
    var k := start + Span(Punct(cls), v, start);
    SpanStops(Newline(), v, k, e);
    SuffixStops(cls, v, e);
    if cls.number(v[0]) { DigitsStop(cls, v, e); }
    if cls.space(v[0]) { BlankStops(cls, rs, e); }
    hide Suffix, Digits, Blank, Span, Newline, Punct;
  }

  /** A run ends at the first rune that does not belong. */
  lemma {:induction false} SpanStops(p: int -> bool, v: seq<int>, i: nat, e: nat)
    requires i <= e < |v| && !p(v[e])
    ensures i + Span(p, v, i) <= e
    decreases e - i
  {
    if i < e && p(v[i]) { SpanStops(p, v, i + 1, e); }
  }

  lemma {:induction false} SuffixStops(cls: Classes, v: seq<int>, e: nat)
    requires 0 < e < |v| && v[e] >= 0x80
    ensures Suffix(v) > 0 ==> 1 + Suffix(v) <= e
  {}

  lemma {:induction false} DigitsStop(cls: Classes, v: seq<int>, e: nat)
    requires 0 < e < |v| && !cls.number(v[e])
    ensures Digits(cls, v) <= e
  {}

  lemma {:induction false} BlankStops(cls: Classes, rs: seq<Rune>, e: nat)
    requires 0 < e && e + 1 < |rs| && cls.Good() && Decoded(rs) && cls.space(rs[0].value)
    requires rs[e].value >= 0x80 && cls.space(rs[e].value) && !cls.space(rs[e + 1].value)
    ensures Blank(cls, rs) <= e
  {
    var v := Values(rs);
    var n := Span(cls.space, v, 0);
    SpanStops(cls.space, v, 0, e + 1);
    SpanRun(cls.space, v, 0);
    BlankIs(cls, rs);
    assert !Newline()(v[e]);
  }

  lemma {:induction false} StuckAt(cls: Classes, text: Bytes, k: nat)
    requires cls.Good() && k < |Runes(text)|
    ensures Match(cls, Runes(text)[k..]) == 0 <==> Stuck(cls, Runes(text)[k..])
  {
    RunesDecoded(text);
    MatcherIsExpression(cls, Runes(text)[k..]);
  }

  lemma {:induction false} NoneSkipped(cls: Classes, text: Bytes, k: nat, e: nat)
    requires cls.Good() && k < e < |Runes(text)| && Stuck(cls, Runes(text)[e..])
    ensures k + Match(cls, Runes(text)[k..]) <= e
  {
    RunesDecoded(text);
    assert Runes(text)[k..][e - k..] == Runes(text)[e..];
    NeverSkips(cls, Runes(text)[k..], e - k);
  }

  /** The loop has cut k runes off the text, i bytes, into out. */
  ghost predicate Cutting(cls: Classes, text: Bytes, out: seq<Bytes>, i: nat, k: nat) {
    && k <= |Runes(text)| && i == Offset(text, k) && i <= |text| && Join(out) == text[..i]
    && (forall j :: 0 <= j < |out| ==> out[j] != [])
    && out + ByExpression(cls, text[i..]) == ByExpression(cls, text)
    && forall e :: 0 <= e < k ==> !Stuck(cls, Runes(text)[e..])
  }

  lemma {:induction false} CutNothing(cls: Classes, text: Bytes)
    ensures Cutting(cls, text, [], 0, 0)
  {
    OffsetEnds(text);
    assert text[0..] == text;
    hide ByExpression;
  }

  lemma {:induction false} CutPiece(cls: Classes, text: Bytes, out: seq<Bytes>, i: nat, k: nat, n: nat)
    requires cls.Good() && Cutting(cls, text, out, i, k) && i < |text| && |Runes(text[i..])| > 0
    requires n == Offset(text[i..], Match(cls, Runes(text[i..])))
    requires n > 0
    ensures i + n <= |text| && Cutting(cls, text, out + [text[i..i + n]], i + n, k + Match(cls, Runes(text[i..])))
  {
    hide *;
    CutFacts(cls, text, out, i, k, n);
    var m := Match(cls, Runes(text[i..]));
    CutNext(cls, out, text, i, n);
    CutRunes(cls, text, k, i, n, m);
    JoinOne(out, text[i..i + n], text, i, n);
    CutDone(cls, text, out, i, k, n, m);
  }

  lemma {:induction false} CutFacts(cls: Classes, text: Bytes, out: seq<Bytes>, i: nat, k: nat, n: nat)
    requires cls.Good() && Cutting(cls, text, out, i, k) && i < |text| && |Runes(text[i..])| > 0
    requires n == Offset(text[i..], Match(cls, Runes(text[i..])))
    ensures k < |Runes(text)| && i == Offset(text, k) && Join(out) == text[..i]
    ensures Runes(text[i..]) == Runes(text)[k..]
    ensures out + ByExpression(cls, text[i..]) == ByExpression(cls, text)
    ensures n == 0 <==> Stuck(cls, Runes(text[i..]))
    ensures n == 0 ==> !Progresses(cls, text)
  {
    hide Match, Stuck, ByExpression;
    OffsetInside(text, k);
    ValuesAfter(text, k);
    StuckAt(cls, text, k);
    OffsetEnds(text[i..]);
    OffsetMonotone(text[i..], 0, Match(cls, Runes(text[i..])));
    hide Offset, Runes, Join;
  }

  lemma {:induction false} CutRunes(cls: Classes, text: Bytes, k: nat, i: nat, n: nat, m: nat)
    requires cls.Good() && k < |Runes(text)| && i == Offset(text, k) && i <= |text|
    requires |Runes(text[i..])| > 0 && m == Match(cls, Runes(text[i..])) && n == Offset(text[i..], m) && n > 0
    requires !Stuck(cls, Runes(text)[k..])
    ensures k + m <= |Runes(text)| && i + n == Offset(text, k + m)
    ensures forall e :: k <= e < k + m ==> !Stuck(cls, Runes(text)[e..])
  {
    hide Match, Stuck;
    ValuesAfter(text, k);
    OffsetAfter(text, k, m);
    forall e | k <= e < k + m ensures !Stuck(cls, Runes(text)[e..]) {
      if e > k && Stuck(cls, Runes(text)[e..]) { NoneSkipped(cls, text, k, e); }
    }
  }

  lemma {:induction false} CutDone(cls: Classes, text: Bytes, out: seq<Bytes>, i: nat, k: nat, n: nat, m: nat)
    requires Cutting(cls, text, out, i, k) && i + n <= |text| && n > 0
    requires k + m <= |Runes(text)| && i + n == Offset(text, k + m)
    requires forall e :: k <= e < k + m ==> !Stuck(cls, Runes(text)[e..])
    requires Join(out + [text[i..i + n]]) == text[..i + n]
    requires out + [text[i..i + n]] + ByExpression(cls, text[i + n..]) == ByExpression(cls, text)
    ensures Cutting(cls, text, out + [text[i..i + n]], i + n, k + m)
  {
    hide Stuck, ByExpression, Join, Offset;
  }

  /** PreTokenize: it ends exactly on the texts that progress, and then its pieces are the
      expression's matches, are nonempty and join to the text; otherwise it spins. */
  method PreTokenize(cls: Classes, text: Bytes) returns (r: Split)
    requires cls.Good()
    ensures r.Pieces? <==> Progresses(cls, text)
    ensures r.Pieces? ==> r.ps == ByExpression(cls, text)
    ensures r.Pieces? ==> Join(r.ps) == text && forall i :: 0 <= i < |r.ps| ==> r.ps[i] != []
    ensures r.Spins? ==> r.at < |text| && Stuck(cls, Runes(text[r.at..]))
  {
    hide Match, Stuck, ByExpression, Cutting, Progresses, Offset, Runes, Join;
    var out: seq<Bytes> := [];
    var i: nat := 0;
    ghost var k: nat := 0;
    CutNothing(cls, text);
    while i < |text|
      invariant Cutting(cls, text, out, i, k)
      decreases |text| - i
    {
      var n := MatchAt(cls, text[i..]);
      CutFacts(cls, text, out, i, k, n);
      if n == 0 { return Spins(i); }
      CutPiece(cls, text, out, i, k, n);
      k := k + Match(cls, Runes(text[i..]));
      out := out + [text[i..i + n]];
      i := i + n;
    }
    AllCut(cls, text, out, i, k);
    return Pieces(out);
  }

  lemma {:induction false} AllCut(cls: Classes, text: Bytes, out: seq<Bytes>, i: nat, k: nat)
    requires Cutting(cls, text, out, i, k) && i >= |text|
    ensures Progresses(cls, text) && out == ByExpression(cls, text) && Join(out) == text
    ensures forall j :: 0 <= j < |out| ==> out[j] != []
  {
    OffsetInside(text, k);
    assert text[i..] == [] && text[..i] == text;
    NothingLeft(cls);
    hide Stuck, ByExpression;
  }

  /** Cutting off the expression's first match again and again. */
  ghost function ByExpression(cls: Classes, text: Bytes): seq<Bytes>
    decreases |text|
  {
    if text == [] then [] else
      var first := First(Llama(cls), Values(Runes(text)), 0);
      var m := if first.Some? && first.value <= |Runes(text)| then Offset(text, first.value) else 0;
      if m == 0 then [] else [text[..m]] + ByExpression(cls, text[m..])
  }

  lemma {:induction false} NothingLeft(cls: Classes)
    ensures ByExpression(cls, []) == []
  {}

  lemma {:induction false} CutOne(cls: Classes, text: Bytes, n: nat)
    requires cls.Good() && text != [] && |Runes(text)| > 0 && !Stuck(cls, Runes(text))
    requires n > 0 && n == Offset(text, Match(cls, Runes(text)))
    ensures n <= |text| && ByExpression(cls, text) == [text[..n]] + ByExpression(cls, text[n..])
  {
    RunesDecoded(text);
    MatcherIsExpression(cls, Runes(text));
    hide Match, Stuck, First, Llama;
  }

  lemma {:induction false} CutNext(cls: Classes, out: seq<Bytes>, text: Bytes, i: nat, n: nat)
    requires cls.Good() && i < |text| && |Runes(text[i..])| > 0 && !Stuck(cls, Runes(text[i..]))
    requires n > 0 && n == Offset(text[i..], Match(cls, Runes(text[i..])))
    requires out + ByExpression(cls, text[i..]) == ByExpression(cls, text)
    ensures i + n <= |text| && out + [text[i..i + n]] + ByExpression(cls, text[i + n..]) == ByExpression(cls, text)
  {
    hide Match, Stuck, Offset, Runes, ByExpression;
    var rest := text[i..];
    CutOne(cls, rest, n);
    assert rest[..n] == text[i..i + n] && rest[n..] == text[i + n..];
    Append(out, text[i..i + n], ByExpression(cls, text[i + n..]));
  }

  lemma {:induction false} Append(a: seq<Bytes>, b: Bytes, c: seq<Bytes>)
    ensures a + ([b] + c) == a + [b] + c
  {}

  lemma {:induction false} JoinOne(out: seq<Bytes>, piece: Bytes, text: Bytes, i: nat, n: nat)
    requires i + n <= |text| && Join(out) == text[..i] && piece == text[i..i + n]
    ensures Join(out + [piece]) == text[..i + n]
  {
    assert (out + [piece])[..|out|] == out;
  }
}
