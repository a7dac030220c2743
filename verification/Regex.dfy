/** Regular expressions with ordered choice, greedy repetition, backtracking and
    negative lookahead: the ends of all matches, best first. */
module Regex {
  import opened Wrappers

  datatype Re =
    | Set(p: int -> bool)
    | Then(a: Re, b: Re)
    | Or(a: Re, b: Re)
    | Maybe(a: Re)               // a?
    | Many(a: Re)                // a*
    | NotBefore(p: int -> bool)  // (?!p)

  function Plus(a: Re): Re { Then(a, Many(a)) }

  ghost predicate Between(js: seq<nat>, lo: nat, hi: nat) { forall k :: 0 <= k < |js| ==> lo <= js[k] <= hi }

  /** Where matches of re that start at i may end, in order of preference. */
  ghost function Ends(re: Re, s: seq<int>, i: nat): (js: seq<nat>)
    requires i <= |s|
    ensures Between(js, i, |s|)
    decreases re, |s| - i, 1, 0
  {
    match re
    case Set(p) => if i < |s| && p(s[i]) then [i + 1] else []
    case Then(a, b) => Follow(Ends(a, s, i), b, s, i)
    case Or(a, b) => Ends(a, s, i) + Ends(b, s, i)
    case Maybe(a) => Ends(a, s, i) + [i]
    case Many(a) => Again(Ends(a, s, i), re, s, i) + [i]
    case NotBefore(p) => if i < |s| && p(s[i]) then [] else [i]
  }

  /** Matches of re from each of the positions js in turn. */
  ghost function Follow(js: seq<nat>, re: Re, s: seq<int>, i: nat): (ks: seq<nat>)
    requires i <= |s| && Between(js, i, |s|)
    ensures Between(ks, i, |s|)
    decreases re, |s| + 1, 0, |js|
  {
    if js == [] then [] else
      assert i <= js[0] <= |s|;
      assert forall k :: 0 <= k < |js[1..]| ==> js[1..][k] == js[k + 1];
      Ends(re, s, js[0]) + Follow(js[1..], re, s, i)
  }

  /** The repetitions of a loop that make progress. */
  ghost function Again(js: seq<nat>, re: Re, s: seq<int>, i: nat): (ks: seq<nat>)
    requires i <= |s| && Between(js, i, |s|)
    ensures Between(ks, i, |s|)
    decreases re, |s| - i, 0, |js|
  {
    if js == [] then [] else
      assert forall k :: 0 <= k < |js[1..]| ==> js[1..][k] == js[k + 1];
      (if js[0] > i then Ends(re, s, js[0]) else []) + Again(js[1..], re, s, i)
  }

  /** The match the engine reports. */
  ghost function First(re: Re, s: seq<int>, i: nat): Option<nat>
    requires i <= |s|
  {
    var js := Ends(re, s, i);
    if js == [] then None else Some(js[0])
  }

  ghost function FirstOf(js: seq<nat>, re: Re, s: seq<int>): Option<nat>
    requires Between(js, 0, |s|)
  {
    if js == [] then None else
      assert forall k :: 0 <= k < |js[1..]| ==> js[1..][k] == js[k + 1];
      if First(re, s, js[0]).Some? then First(re, s, js[0]) else FirstOf(js[1..], re, s)
  }

  // ---- the first match of compound expressions

  lemma {:induction false} FirstFollow(js: seq<nat>, re: Re, s: seq<int>, i: nat)
    requires i <= |s| && Between(js, i, |s|)
    ensures (if Follow(js, re, s, i) == [] then None else Some(Follow(js, re, s, i)[0])) == FirstOf(js, re, s)
  {
    if js != [] {
      assert forall k :: 0 <= k < |js[1..]| ==> js[1..][k] == js[k + 1];
      FirstFollow(js[1..], re, s, i);
    }
  }

  lemma {:induction false} FirstThen(a: Re, b: Re, s: seq<int>, i: nat)
    requires i <= |s|
    ensures First(Then(a, b), s, i) == FirstOf(Ends(a, s, i), b, s)
  {
    FirstFollow(Ends(a, s, i), b, s, i);
  }

  lemma {:induction false} FirstOfOne(k: nat, re: Re, s: seq<int>)
    requires k <= |s|
    ensures FirstOf([k], re, s) == First(re, s, k)
  {
    assert [k][1..] == [];
    assert FirstOf([], re, s) == None;
  }

  lemma {:induction false} FirstOr(a: Re, b: Re, s: seq<int>, i: nat)
    requires i <= |s|
    ensures First(Or(a, b), s, i) == (if First(a, s, i).Some? then First(a, s, i) else First(b, s, i))
  {}

  /** One character, then b. */
  lemma {:induction false} FirstSetThen(p: int -> bool, b: Re, s: seq<int>, i: nat)
    requires i <= |s|
    ensures First(Then(Set(p), b), s, i) == (if i < |s| && p(s[i]) then First(b, s, i + 1) else None)
  {
    FirstThen(Set(p), b, s, i);
    if i < |s| && p(s[i]) {
      assert Ends(Set(p), s, i)[1..] == [];
    }
  }

  /** An optional character, then b: with it if that leads to a match, else without. */
  lemma {:induction false} FirstMaybeThen(p: int -> bool, b: Re, s: seq<int>, i: nat)
    requires i <= |s|
    ensures First(Then(Maybe(Set(p)), b), s, i)
         == (if i < |s| && p(s[i]) && First(b, s, i + 1).Some? then First(b, s, i + 1) else First(b, s, i))
  {
    FirstThen(Maybe(Set(p)), b, s, i);
    var js := Ends(Maybe(Set(p)), s, i);
    if i < |s| && p(s[i]) {
      assert js == [i + 1, i] && js[1..] == [i];
    } else {
      assert js == [i];
    }
    FirstOfOne(i, b, s);
  }

  // ---- repeated characters

  /** How many characters from i on satisfy p. */
  function Span(p: int -> bool, s: seq<int>, i: nat): (n: nat)
    requires i <= |s|
    ensures i + n <= |s|
    decreases |s| - i
  {
    if i < |s| && p(s[i]) then 1 + Span(p, s, i + 1) else 0
  }

  /** It is the longest such run. */
  lemma {:induction false} SpanRun(p: int -> bool, s: seq<int>, i: nat)
    requires i <= |s|
    ensures forall k :: i <= k < i + Span(p, s, i) ==> p(s[k])
    ensures i + Span(p, s, i) < |s| ==> !p(s[i + Span(p, s, i)])
    decreases |s| - i
  {
    if i < |s| && p(s[i]) { SpanRun(p, s, i + 1); }
  }

  /** hi, hi-1, ..., lo */
  function Down(hi: nat, lo: nat): (js: seq<nat>)
    requires lo <= hi
    ensures |js| == hi - lo + 1 && forall k :: 0 <= k < |js| ==> js[k] == hi - k
    decreases hi
  {
    if hi == lo then [lo] else [hi] + Down(hi - 1, lo)
  }

  lemma {:induction false} DownLast(hi: nat, lo: nat)
    requires lo < hi
    ensures Down(hi, lo) == Down(hi, lo + 1) + [lo]
  {}

  /** Greedy repetition of a character class offers the longest run first. */
  lemma {:induction false} EndsMany(p: int -> bool, s: seq<int>, i: nat)
    requires i <= |s|
    ensures Ends(Many(Set(p)), s, i) == Down(i + Span(p, s, i), i)
    decreases |s| - i
  {
    if i < |s| && p(s[i]) {
      EndsMany(p, s, i + 1);
      var js := Ends(Set(p), s, i);
      assert js == [i + 1] && js[1..] == [];
      assert Again(js[1..], Many(Set(p)), s, i) == [];
      assert Again(js, Many(Set(p)), s, i) == Ends(Many(Set(p)), s, i + 1);
      DownLast(i + Span(p, s, i), i);
    } else {
      assert Again([], Many(Set(p)), s, i) == [];
    }
  }

  lemma {:induction false} EndsPlus(p: int -> bool, s: seq<int>, i: nat)
    requires i <= |s|
    ensures Ends(Plus(Set(p)), s, i) == (if i < |s| && p(s[i]) then Down(i + Span(p, s, i), i + 1) else [])
  {
    if i < |s| && p(s[i]) {
      EndsMany(p, s, i + 1);
      var js := Ends(Set(p), s, i);
      assert js == [i + 1] && js[1..] == [];
      assert Follow(js[1..], Many(Set(p)), s, i) == [];
      assert Follow(js, Many(Set(p)), s, i) == Ends(Many(Set(p)), s, i + 1);
    }
  }

  lemma {:induction false} FirstPlus(p: int -> bool, s: seq<int>, i: nat)
    requires i <= |s|
    ensures First(Plus(Set(p)), s, i) == (if i < |s| && p(s[i]) then Some(i + Span(p, s, i)) else None)
  {
    EndsPlus(p, s, i);
  }

  /** Backtracking through a run: the rightmost position from which re matches. */
  lemma {:induction false} FirstDown(hi: nat, lo: nat, re: Re, s: seq<int>, at: nat)
    requires lo <= at <= hi <= |s| && First(re, s, at).Some?
    requires forall k :: at < k <= hi ==> First(re, s, k).None?
    ensures FirstOf(Down(hi, lo), re, s) == First(re, s, at)
    decreases hi
  {
    hide First;
    if at < hi {
      FirstDown(hi - 1, lo, re, s, at);
      assert Down(hi, lo)[1..] == Down(hi - 1, lo);
    }
  }

  lemma {:induction false} FirstDownNone(hi: nat, lo: nat, re: Re, s: seq<int>)
    requires lo <= hi <= |s| && forall k :: lo <= k <= hi ==> First(re, s, k).None?
    ensures FirstOf(Down(hi, lo), re, s) == None
    decreases hi
  {
    hide First;
    if lo < hi {
      FirstDownNone(hi - 1, lo, re, s);
      assert Down(hi, lo)[1..] == Down(hi - 1, lo);
    } else {
      assert Down(hi, lo)[1..] == [];
    }
  }
}
