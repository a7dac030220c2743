/** What the regular expression takes first, as plain conditions on the text: no class of characters, run or
    alternative is named here but by what its runes are. */
module Pieces {
  import opened Wrappers
  import opened Regex
  import opened PreTokenizer

  /** Positions i..j are the longest run of p that starts at i. */
  ghost predicate Run(p: int -> bool, v: seq<int>, i: nat, j: int) {
    && i <= j <= |v|
    && (forall m :: i <= m < j ==> p(v[m]))
    && (j < |v| ==> !p(v[j]))
  }

  function Other(cls: Classes): int -> bool { r => !cls.letter(r) && !cls.number(r) && !cls.space(r) }

  function Line(): int -> bool { r => r == 13 || r == 10 }

  /** 's, 't, 'm, 'd, and 're, 've, 'll, in either case. */
  predicate Short(v: seq<int>) {
    |v| > 1 && v[0] == 39 && (Either(v[1], 's') || Either(v[1], 't') || Either(v[1], 'm') || Either(v[1], 'd'))
  }

  predicate Long(v: seq<int>) {
    |v| > 2 && v[0] == 39 && (Both(v, 'r', 'e') || Both(v, 'v', 'e') || Both(v, 'l', 'l'))
  }

  /** Letters, or letters behind one rune that is neither letter nor number nor line end. */
  predicate Wordlike(cls: Classes, v: seq<int>)
    requires |v| > 0
  {
    cls.letter(v[0])
    || (!cls.number(v[0]) && v[0] != 13 && v[0] != 10 && |v| > 1 && cls.letter(v[1]))
  }

  /** At most three numbers. */
  ghost predicate UpToThree(p: int -> bool, v: seq<int>, k: int) {
    && 1 <= k <= 3 && k <= |v|
    && (forall m :: 0 <= m < k ==> p(v[m]))
    && (k < 3 && k < |v| ==> !p(v[k]))
  }

  /** Whitespace of n runes: up to its last line end; else all of it at the end of the text or when it is one
      rune; else all but the last. */
  ghost predicate Whitespace(v: seq<int>, n: nat, k: int)
    requires n <= |v|
  {
    if exists j :: 0 <= j < n && Line()(v[j])
    then 0 < k <= n && Line()(v[k - 1]) && forall j :: k <= j < n ==> !Line()(v[j])
    else k == if n < |v| && n > 1 then n - 1 else n
  }

  ghost predicate IsPiece(cls: Classes, v: seq<int>, k: int)
    requires |v| > 0
  {
    var s := if v[0] == 32 then 1 else 0;
    if Short(v) then k == 2
    else if Long(v) then k == 3
    else if Wordlike(cls, v) then Run(cls.letter, v, 1, k)
    else if cls.number(v[0]) then UpToThree(cls.number, v, k)
    else if s < |v| && Other(cls)(v[s]) then exists m: nat :: Run(Other(cls), v, s, m) && Run(Line(), v, m, k)
    else exists n: nat :: Run(cls.space, v, 0, n) && Whitespace(v, n, k)
  }

  lemma {:induction false} RunIsSpan(p: int -> bool, v: seq<int>, i: nat, j: int)
    requires i <= |v|
    ensures Run(p, v, i, j) <==> j == i + Span(p, v, i)
    decreases |v| - i
  {
    SpanRun(p, v, i);
    var e := i + Span(p, v, i);
    hide Span;
    assert i <= j < e ==> p(v[j]);
    assert e < |v| ==> !p(v[e]);
  }

  lemma {:induction false} SameSpan(p: int -> bool, q: int -> bool, v: seq<int>, i: nat)
    requires i <= |v| && forall m :: i <= m < |v| ==> p(v[m]) == q(v[m])
    ensures Span(p, v, i) == Span(q, v, i)
    decreases |v| - i
  {
    if i < |v| && p(v[i]) { SameSpan(p, q, v, i + 1); }
  }

  lemma {:induction false} ThreeIsDigits(cls: Classes, v: seq<int>, k: int)
    requires |v| > 0 && cls.number(v[0])
    ensures UpToThree(cls.number, v, k) <==> k == Digits(cls, v)
  {}

  lemma {:induction false} WhitespaceIs(v: seq<int>, n: nat, k: int)
    requires n <= |v|
    ensures Whitespace(v, n, k)
      <==> k == if LastLine(v, n) > 0 then LastLine(v, n) else if n < |v| && n > 1 then n - 1 else n
  {
    var e := LastLine(v, n);
    assert forall r :: Line()(r) == Newline()(r);
    hide LastLine;
    if e > 0 { assert Line()(v[e - 1]); }
  }

  /** The expression takes the first k runes exactly when the conditions say so. */
  lemma {:induction false} PieceExactly(cls: Classes, v: seq<int>, k: nat)
    requires |v| > 0 && cls.Good()
    ensures First(Llama(cls), v, 0) == Some(k) <==> IsPiece(cls, v, k)
  {
    FirstIsChoice(cls, v);
    PieceIsChoice(cls, v, k);
    hide *;
  }

  lemma {:induction false} PieceIsChoice(cls: Classes, v: seq<int>, k: nat)
    requires |v| > 0 && cls.Good()
    ensures IsPiece(cls, v, k) <==> k == Choice(cls, v)
  {
    SuffixIs(v);
    RunIsSpan(cls.letter, v, 1, k);
    if cls.number(v[0]) { ThreeIsDigits(cls, v, k); }
    PunctPiece(cls, v, k);
    SpacePiece(cls, v, k);
    SpanPositive(cls.letter, v, 1);
    hide Span, Suffix, Digits, LastLine, Run, UpToThree, Whitespace;
  }

  lemma {:induction false} PunctPiece(cls: Classes, v: seq<int>, k: int)
    requires |v| > 0
    ensures var s := if v[0] == 32 then 1 else 0;
      var n := Span(Punct(cls), v, s);
      && (n > 0 <==> s < |v| && Other(cls)(v[s]))
      && ((exists m: nat :: Run(Other(cls), v, s, m) && Run(Line(), v, m, k)) <==>
        k == s + n + Span(Newline(), v, s + n))
  {
    var s := if v[0] == 32 then 1 else 0;
    var n := Span(Punct(cls), v, s);
    SameSpan(Punct(cls), Other(cls), v, s);
    SpanPositive(Punct(cls), v, s);
    SameSpan(Newline(), Line(), v, s + n);
    RunIsSpan(Other(cls), v, s, s + n);
    RunIsSpan(Line(), v, s + n, k);
    hide Span, Run;
    forall m: nat | Run(Other(cls), v, s, m) ensures m == s + n { RunIsSpan(Other(cls), v, s, m); }
  }

  lemma {:induction false} SpacePiece(cls: Classes, v: seq<int>, k: int)
    ensures var n := Span(cls.space, v, 0);
      (exists n: nat :: Run(cls.space, v, 0, n) && Whitespace(v, n, k))
      <==> k == if LastLine(v, n) > 0 then LastLine(v, n) else if n < |v| && n > 1 then n - 1 else n
  {
    var n := Span(cls.space, v, 0);
    RunIsSpan(cls.space, v, 0, n);
    WhitespaceIs(v, n, k);
    hide Span, Run, LastLine, Whitespace;
    forall m: nat | Run(cls.space, v, 0, m) ensures m == n { RunIsSpan(cls.space, v, 0, m); }
  }
}
