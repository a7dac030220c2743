/** The hand-written matcher of the llama-bpe pre-tokenizer against the regular
    expression it stands for:

    (?i:'s|'t|'re|'ve|'m|'ll|'d)|[^\r\n\p{L}\p{N}]?\p{L}+|\p{N}{1,3}|
     ?[^\s\p{L}\p{N}]+[\r\n]*|\s*[\r\n]+|\s+(?!\S)|\s+ */
module PreTokenizer {
  import opened Wrappers
  import opened Utf8
  import opened Regex

  /** The Unicode tables the matcher consults. */
  datatype Classes = Classes(letter: int -> bool, number: int -> bool, space: int -> bool) {
    ghost predicate Good() {
      && (forall r :: !(letter(r) && number(r)) && !(letter(r) && space(r)) && !(number(r) && space(r)))
      && space(SPACE) && space(CR) && space(LF) && !space(RUNE_ERROR)
    }
  }

  const SPACE := 0x20
  const CR := 0x0D
  const LF := 0x0A
  const APOSTROPHE := 0x27

  function Newline(): int -> bool { r => r == CR || r == LF }

  function Punct(cls: Classes): int -> bool { r => !cls.space(r) && !cls.letter(r) && !cls.number(r) }

  /** [^\r\n\p{L}\p{N}] */
  function Opener(cls: Classes): int -> bool { r => r != CR && r != LF && !cls.letter(r) && !cls.number(r) }

  function NonSpace(cls: Classes): int -> bool { r => !cls.space(r) }

  function Lower(r: int): int { if 0x41 <= r <= 0x5A then r + 32 else r }

  /** A character, in either case. */
  function Folded(c: int): int -> bool { r => Lower(r) == c }

  function Exactly(c: int): int -> bool { r => r == c }

  // ---- the expression

  function Letter1(c: char): Re { Set(Folded(c as int)) }

  function Letter2(c: char, d: char): Re { Then(Set(Folded(c as int)), Set(Folded(d as int))) }

  function Suffixes(): Re {
    Or(Letter1('s'), Or(Letter1('t'),
      Or(Letter2('r', 'e'), Or(Letter2('v', 'e'), Or(Letter1('m'), Or(Letter2('l', 'l'), Letter1('d')))))))
  }

  function Contractions(): Re { Then(Set(Exactly(APOSTROPHE)), Suffixes()) }

  function Words(cls: Classes): Re { Then(Maybe(Set(Opener(cls))), Plus(Set(cls.letter))) }

  function Numbers(cls: Classes): Re { Then(Set(cls.number), Maybe(Then(Set(cls.number), Maybe(Set(cls.number))))) }

  function Puncts(cls: Classes): Re {
    Then(Maybe(Set(Exactly(SPACE))), Then(Plus(Set(Punct(cls))), Many(Set(Newline()))))
  }

  function Lines(cls: Classes): Re { Then(Many(Set(cls.space)), Plus(Set(Newline()))) }

  function Indents(cls: Classes): Re { Then(Plus(Set(cls.space)), NotBefore(NonSpace(cls))) }

  function Llama(cls: Classes): Re {
    Or(Contractions(), Or(Words(cls),
      Or(Numbers(cls), Or(Puncts(cls), Or(Lines(cls), Or(Indents(cls), Plus(Set(cls.space))))))))
  }

  // ---- the matcher, in runes

  /** How many runes of a contraction follow the apostrophe. */
  function Suffix(v: seq<int>): (n: nat)
    ensures n <= 2 && n < |v| + 1
  {
    if |v| < 2 then 0 else
      var a := Lower(v[1]);
      var b := if |v| > 2 then Lower(v[2]) else -1;
      if a == 's' as int || a == 't' as int then 1
      else if (a == 'r' as int || a == 'v' as int) && b == 'e' as int then 2
      else if a == 'm' as int then 1
      else if a == 'l' as int && b == 'l' as int then 2
      else if a == 'd' as int then 1 else 0
  }

  /** The letter c, given in lower case, or the same letter in upper case. */
  predicate Either(r: int, c: char) { r == c as int || r == c as int - 32 }

  predicate Both(v: seq<int>, c: char, d: char)
    requires |v| > 2
  {
    Either(v[1], c) && Either(v[2], d)
  }

  /** After an apostrophe 's, 't, 'm and 'd are one rune, 're, 've and 'll two, in either case. */
  lemma {:induction false} SuffixIs(v: seq<int>)
    ensures Suffix(v) == 1 <==>
      |v| > 1 && (Either(v[1], 's') || Either(v[1], 't') || Either(v[1], 'm') || Either(v[1], 'd'))
    ensures Suffix(v) == 2 <==> |v| > 2 && (Both(v, 'r', 'e') || Both(v, 'v', 'e') || Both(v, 'l', 'l'))
  {}

  /** One past the last newline among the first n runes, or 0. */
  function LastLine(v: seq<int>, n: nat): (k: nat)
    requires n <= |v|
    ensures k <= n && (k > 0 ==> Newline()(v[k - 1]))
    ensures forall i :: k <= i < n ==> !Newline()(v[i])
  {
    if n == 0 then 0 else if Newline()(v[n - 1]) then n else LastLine(v, n - 1)
  }

  function Digits(cls: Classes, v: seq<int>): (n: nat)
    ensures n <= 3 && n <= |v|
  {
    if |v| > 0 && cls.number(v[0]) then
      if |v| > 1 && cls.number(v[1]) then (if |v| > 2 && cls.number(v[2]) then 3 else 2) else 1
    else 0
  }

  /** The whitespace alternatives, as the matcher folds them into one. */
  function Blank(cls: Classes, rs: seq<Rune>): (n: nat)
    requires |rs| > 0 && cls.space(rs[0].value)
    ensures n <= |rs|
  {
    var v := Values(rs);
    var n := Span(cls.space, v, 0);
    if LastLine(v, n) > 0 then LastLine(v, n)
    else if n < |rs| && Width(rs[..n]) > 1 then n - 1
    else n
  }

  /** How many runes the matcher takes. */
  function Match(cls: Classes, rs: seq<Rune>): (n: nat)
    requires |rs| > 0
    ensures n <= |rs|
  {
    var v := Values(rs);
    var letters := Span(cls.letter, v, 1);
    var start := if v[0] == SPACE then 1 else 0;
    var puncts := Span(Punct(cls), v, start);
    if v[0] == APOSTROPHE && Suffix(v) > 0 then 1 + Suffix(v)
    else if cls.letter(v[0]) then 1 + letters
    else if Opener(cls)(v[0]) && letters > 0 then 1 + letters
    else if cls.number(v[0]) then Digits(cls, v)
    else if puncts > 0 then start + puncts + Span(Newline(), v, start + puncts)
    else if cls.space(v[0]) then Blank(cls, rs)
    else 1
  }

  /** Runes as DecodeRune delivers them: only values of 0x80 and more take several bytes. */
  ghost predicate Decoded(rs: seq<Rune>) {
    forall i :: 0 <= i < |rs| ==> rs[i].width >= 1 && (rs[i].value < 0x80 ==> rs[i].width == 1)
  }

  /** Where the matcher departs from the expression: a whitespace rune of several bytes that
      is followed by a rune that is neither space nor letter. The source compares a byte
      count with 1 where the expression means one rune. */
  predicate Stuck(cls: Classes, rs: seq<Rune>) {
    && |rs| > 1 && cls.space(rs[0].value) && rs[0].width > 1
    && !cls.space(rs[1].value) && !cls.letter(rs[1].value)
  }

  // ---- each alternative

  lemma {:induction false} FirstSet(p: int -> bool, v: seq<int>, i: nat)
    requires i <= |v|
    ensures First(Set(p), v, i) == (if i < |v| && p(v[i]) then Some(i + 1) else None)
  {}

  lemma {:induction false} FirstSuffixes(v: seq<int>)
    requires |v| > 0
    ensures First(Suffixes(), v, 1) == (if Suffix(v) > 0 then Some(1 + Suffix(v)) else None)
  {
    var r6 := Or(Letter2('l', 'l'), Letter1('d'));
    var r5 := Or(Letter1('m'), r6);
    var r4 := Or(Letter2('v', 'e'), r5);
    var r3 := Or(Letter2('r', 'e'), r4);
    var r2 := Or(Letter1('t'), r3);
    assert Suffixes() == Or(Letter1('s'), r2);
    hide Ends, First, Letter1, Letter2, Suffixes;
    FirstOr(Letter2('l', 'l'), Letter1('d'), v, 1);
    FirstOr(Letter1('m'), r6, v, 1);
    FirstOr(Letter2('v', 'e'), r5, v, 1);
    FirstOr(Letter2('r', 'e'), r4, v, 1);
    FirstOr(Letter1('t'), r3, v, 1);
    FirstOr(Letter1('s'), r2, v, 1);
    First1('s', v);
    First1('t', v);
    First2('r', 'e', v);
    First2('v', 'e', v);
    First1('m', v);
    First2('l', 'l', v);
    First1('d', v);
  }

  lemma {:induction false} First1(c: char, v: seq<int>)
    requires |v| > 0
    ensures First(Letter1(c), v, 1) == (if |v| > 1 && Lower(v[1]) == c as int then Some(2) else None)
  {
    var p := Folded(c as int);
    FirstSet(p, v, 1);
    hide Ends, First;
    assert Letter1(c) == Set(p);
    assert |v| > 1 ==> (p(v[1]) <==> Lower(v[1]) == c as int);
    assert First(Set(p), v, 1) == (if |v| > 1 && p(v[1]) then Some(2) else None);
  }

  lemma {:induction false} First2(c: char, d: char, v: seq<int>)
    requires |v| > 0
    ensures First(Letter2(c, d), v, 1)
         == (if |v| > 2 && Lower(v[1]) == c as int && Lower(v[2]) == d as int then Some(3) else None)
  {
    FirstSetThen(Folded(c as int), Set(Folded(d as int)), v, 1);
    if |v| > 1 { FirstSet(Folded(d as int), v, 2); }
  }

  lemma {:induction false} FirstContractions(v: seq<int>)
    requires |v| > 0
    ensures First(Contractions(), v, 0) == (if v[0] == APOSTROPHE && Suffix(v) > 0 then Some(1 + Suffix(v)) else None)
  {
    FirstSetThen(Exactly(APOSTROPHE), Suffixes(), v, 0);
    FirstSuffixes(v);
  }

  lemma {:induction false} FirstWords(cls: Classes, v: seq<int>)
    requires |v| > 0 && cls.Good()
    ensures First(Words(cls), v, 0)
         == (if cls.letter(v[0]) || (Opener(cls)(v[0])
           && Span(cls.letter, v, 1) > 0) then Some(1 + Span(cls.letter, v, 1)) else None)
  {
    FirstMaybeThen(Opener(cls), Plus(Set(cls.letter)), v, 0);
    FirstPlus(cls.letter, v, 0);
    FirstPlus(cls.letter, v, 1);
  }

  lemma {:induction false} FirstNumbers(cls: Classes, v: seq<int>)
    requires |v| > 0
    ensures First(Numbers(cls), v, 0) == (if cls.number(v[0]) then Some(Digits(cls, v)) else None)
  {
    var p := cls.number;
    var one, two := Maybe(Set(p)), Maybe(Then(Set(p), Maybe(Set(p))));
    FirstSetThen(p, two, v, 0);
    FirstMaybe(Then(Set(p), one), v, 1);
    FirstSetThen(p, one, v, 1);
    if |v| > 1 {
      FirstMaybe(Set(p), v, 2);
      FirstSet(p, v, 2);
    }
    hide Ends, First;
  }

  lemma {:induction false} FirstMaybe(a: Re, v: seq<int>, i: nat)
    requires i <= |v|
    ensures First(Maybe(a), v, i) == (if First(a, v, i).Some? then First(a, v, i) else Some(i))
  {}

  lemma {:induction false} FirstMany(p: int -> bool, v: seq<int>, i: nat)
    requires i <= |v|
    ensures First(Many(Set(p)), v, i) == Some(i + Span(p, v, i))
  {
    EndsMany(p, v, i);
  }

  /** [^\s\p{L}\p{N}]+[\r\n]* from i on. */
  lemma {:induction false} FirstRun(cls: Classes, v: seq<int>, i: nat)
    requires i <= |v|
    ensures var n := Span(Punct(cls), v, i);
      First(Then(Plus(Set(Punct(cls))), Many(Set(Newline()))), v, i)
         == (if n > 0 then Some(i + n + Span(Newline(), v, i + n)) else None)
  {
    hide *;
    var p, re := Punct(cls), Many(Set(Newline()));
    var n := Span(p, v, i);
    FirstThen(Plus(Set(p)), re, v, i);
    EndsPlus(p, v, i);
    SpanPositive(p, v, i);
    if n > 0 {
      FirstMany(Newline(), v, i + n);
      FirstDown(i + n, i + 1, re, v, i + n);
    } else {
      FirstOfNone(re, v);
    }
  }

  lemma {:induction false} SpanPositive(p: int -> bool, v: seq<int>, i: nat)
    requires i <= |v|
    ensures Span(p, v, i) > 0 <==> i < |v| && p(v[i])
  {}

  lemma {:induction false} FirstOfNone(re: Re, v: seq<int>)
    ensures FirstOf([], re, v) == None
  {}

  lemma {:induction false} FirstPuncts(cls: Classes, v: seq<int>)
    requires |v| > 0 && cls.Good()
    ensures var start := if v[0] == SPACE then 1 else 0;
      var n := Span(Punct(cls), v, start);
      First(Puncts(cls), v, 0) == (if n > 0 then Some(start + n + Span(Newline(), v, start + n)) else None)
  {
    var re := Then(Plus(Set(Punct(cls))), Many(Set(Newline())));
    FirstMaybeThen(Exactly(SPACE), re, v, 0);
    FirstRun(cls, v, 0);
    FirstRun(cls, v, 1);
  }

  /** \s*[\r\n]+ ends just past the last newline of the run of whitespace. */
  lemma {:induction false} FirstLines(cls: Classes, v: seq<int>)
    requires |v| > 0 && cls.Good()
    ensures var k := LastLine(v, Span(cls.space, v, 0));
      First(Lines(cls), v, 0) == (if k > 0 then Some(k) else None)
  {
    var n, re := Span(cls.space, v, 0), Plus(Set(Newline()));
    var k := LastLine(v, n);
    FirstThen(Many(Set(cls.space)), re, v, 0);
    EndsMany(cls.space, v, 0);
    NoLineAfter(cls, v);
    if k > 0 { LineEnds(cls, v, k); }
    hide First, Ends, Span, FirstOf, LastLine, Down, Plus;
    if k > 0 {
      FirstDown(n, 0, re, v, k - 1);
    } else {
      FirstDownNone(n, 0, re, v);
    }
  }

  lemma {:induction false} NoLineAfter(cls: Classes, v: seq<int>)
    requires |v| > 0 && cls.Good()
    ensures var n := Span(cls.space, v, 0);
      forall j :: LastLine(v, n) <= j <= n ==> First(Plus(Set(Newline())), v, j).None?
  {
    var n := Span(cls.space, v, 0);
    SpanRun(cls.space, v, 0);
    hide First, Ends, Span;
    forall j | LastLine(v, n) <= j <= n ensures First(Plus(Set(Newline())), v, j).None? {
      FirstPlus(Newline(), v, j);
    }
  }

  lemma {:induction false} LineEnds(cls: Classes, v: seq<int>, k: nat)
    requires |v| > 0 && cls.Good() && 0 < k == LastLine(v, Span(cls.space, v, 0))
    ensures First(Plus(Set(Newline())), v, k - 1) == Some(k)
  {
    SpanRun(cls.space, v, 0);
    FirstPlus(Newline(), v, k - 1);
    assert k < |v| ==> !Newline()(v[k]);
    hide First, Ends;
  }

  /** \s+(?!\S): the whole run at the end of the text, else all but its last rune. */
  lemma {:induction false} FirstIndents(cls: Classes, v: seq<int>)
    requires |v| > 0
    ensures var n := Span(cls.space, v, 0);
      First(Indents(cls), v, 0) == (if n == |v| then Some(n) else if n > 1 then Some(n - 1) else None)
  {
    SpanRun(cls.space, v, 0);
    var n, re := Span(cls.space, v, 0), NotBefore(NonSpace(cls));
    FirstThen(Plus(Set(cls.space)), re, v, 0);
    EndsPlus(cls.space, v, 0);
    if n > 0 {
      forall j | 1 <= j <= n ensures First(re, v, j) == (if j < n || n == |v| then Some(j) else None) {}
      if n == |v| {
        FirstDown(n, 1, re, v, n);
      } else if n > 1 {
        FirstDown(n, 1, re, v, n - 1);
      } else {
        FirstDownNone(1, 1, re, v);
      }
    }
  }

  /** The three whitespace alternatives together. */
  lemma {:induction false} FirstBlanks(cls: Classes, v: seq<int>)
    requires |v| > 0 && cls.Good()
    ensures var n := Span(cls.space, v, 0);
      First(Or(Lines(cls), Or(Indents(cls), Plus(Set(cls.space)))), v, 0)
         == (if LastLine(v, n) > 0 then Some(LastLine(v, n))
             else if n == 0 then None
             else if n < |v| && n > 1 then Some(n - 1) else Some(n))
  {
    FirstOr(Lines(cls), Or(Indents(cls), Plus(Set(cls.space))), v, 0);
    FirstOr(Indents(cls), Plus(Set(cls.space)), v, 0);
    FirstLines(cls, v);
    FirstIndents(cls, v);
    FirstPlus(cls.space, v, 0);
    hide Lines, Indents, First, Ends;
  }

  // ---- the whole expression

  lemma {:induction false} FirstLlama(cls: Classes, v: seq<int>)
    requires |v| > 0 && cls.Good()
    ensures First(Llama(cls), v, 0)
         == (if First(Contractions(), v, 0).Some? then First(Contractions(), v, 0)
             else if First(Words(cls), v, 0).Some? then First(Words(cls), v, 0)
             else if First(Numbers(cls), v, 0).Some? then First(Numbers(cls), v, 0)
             else if First(Puncts(cls), v, 0).Some? then First(Puncts(cls), v, 0)
             else First(Or(Lines(cls), Or(Indents(cls), Plus(Set(cls.space)))), v, 0))
  {
    var r4 := Or(Lines(cls), Or(Indents(cls), Plus(Set(cls.space))));
    var r3 := Or(Puncts(cls), r4);
    var r2 := Or(Numbers(cls), r3);
    var r1 := Or(Words(cls), r2);
    hide Contractions, Words, Numbers, Puncts, Lines, Indents, Plus, First, Ends;
    FirstOr(Contractions(), r1, v, 0);
    FirstOr(Words(cls), r2, v, 0);
    FirstOr(Numbers(cls), r3, v, 0);
    FirstOr(Puncts(cls), r4, v, 0);
  }

  lemma {:induction false} BlankWidth(rs: seq<Rune>, n: nat)
    requires Decoded(rs) && n <= |rs|
    ensures n <= Width(rs[..n])
  {
    if n > 0 {
      BlankWidth(rs, n - 1);
      assert rs[..n][..n - 1] == rs[..n - 1];
    }
  }

  /** The alternatives in order, as conditions on the text. */
  ghost function Choice(cls: Classes, v: seq<int>): nat
    requires |v| > 0
  {
    var letters := Span(cls.letter, v, 1);
    var start := if v[0] == SPACE then 1 else 0;
    var puncts := Span(Punct(cls), v, start);
    var n := Span(cls.space, v, 0);
    if v[0] == APOSTROPHE && Suffix(v) > 0 then 1 + Suffix(v)
    else if cls.letter(v[0]) || (Opener(cls)(v[0]) && letters > 0) then 1 + letters
    else if cls.number(v[0]) then Digits(cls, v)
    else if puncts > 0 then start + puncts + Span(Newline(), v, start + puncts)
    else if LastLine(v, n) > 0 then LastLine(v, n)
    else if n < |v| && n > 1 then n - 1 else n
  }

  lemma {:induction false} FirstIsChoice(cls: Classes, v: seq<int>)
    requires |v| > 0 && cls.Good()
    ensures First(Llama(cls), v, 0) == Some(Choice(cls, v))
  {
    FirstLlama(cls, v);
    FirstContractions(v);
    FirstWords(cls, v);
    FirstNumbers(cls, v);
    FirstPuncts(cls, v);
    FirstBlanks(cls, v);
    if !cls.letter(v[0]) && !cls.number(v[0]) && !cls.space(v[0]) { SomePunct(cls, v); }
    hide First, Contractions, Words, Numbers, Puncts, Lines, Indents, Plus, Llama, Suffix, Span, LastLine, Digits;
  }

  /** A rune of no other class starts a run of punctuation. */
  lemma {:induction false} SomePunct(cls: Classes, v: seq<int>)
    requires |v| > 0 && cls.Good() && !cls.letter(v[0]) && !cls.number(v[0]) && !cls.space(v[0])
    ensures v[0] != SPACE && Span(Punct(cls), v, 0) > 0
  {}

  lemma {:induction false} MatchIsChoice(cls: Classes, rs: seq<Rune>)
    requires |rs| > 0 && cls.Good() && Decoded(rs)
    ensures Match(cls, rs) == (if Stuck(cls, rs) then 0 else Choice(cls, Values(rs)))
    ensures Choice(cls, Values(rs)) > 0 && (Stuck(cls, rs) ==> Choice(cls, Values(rs)) == 1)
  {
    var v := Values(rs);
    if cls.space(v[0]) {
      BlankIs(cls, rs);
      hide Blank;
    } else {
      assert v[0] != SPACE;
    }
  }

  /** The matcher takes exactly what the expression matches first, except where it is stuck:
      there the expression takes the lone whitespace rune and the matcher takes nothing. */
  lemma {:induction false} MatcherIsExpression(cls: Classes, rs: seq<Rune>)
    requires |rs| > 0 && cls.Good() && Decoded(rs)
    ensures First(Llama(cls), Values(rs), 0) == Some(if Stuck(cls, rs) then 1 else Match(cls, rs))
    ensures Match(cls, rs) == 0 <==> Stuck(cls, rs)
  {
    assert |Values(rs)| > 0;
    hide *;
    FirstIsChoice(cls, Values(rs));
    MatchIsChoice(cls, rs);
  }

  lemma {:induction false} BlankIs(cls: Classes, rs: seq<Rune>)
    requires |rs| > 0 && cls.Good() && Decoded(rs) && cls.space(rs[0].value)
    ensures var v := Values(rs);
      var n := Span(cls.space, v, 0);
      Blank(cls, rs) == (if LastLine(v, n) > 0 then LastLine(v, n)
                         else if n < |v| && n > 1 then n - 1
                         else if n < |v| && rs[0].width > 1 then 0 else n)
  {
    var n := Span(cls.space, Values(rs), 0);
    if n == 1 {
      assert rs[..1] == [rs[0]];
      WidthOne(rs[0]);
    } else {
      BlankWidth(rs, n);
    }
  }
}
