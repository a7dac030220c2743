/** The byte alphabet, Encode and Decode. */
module Tokenizer {
  import opened Wrappers
  import opened Utf8
  import opened BytePairs
  import PreTokenizer
  import PreTokenize

  // ---- GPT-2's printable alphabet

  predicate Printable(b: int) { 0x21 <= b <= 0x7E || 0xA1 <= b <= 0xAC || 0xAE <= b <= 0xFF }

  /** How many bytes below b are moved. */
  function Moved(b: nat): nat { if b == 0 then 0 else Moved(b - 1) + if Printable(b - 1) then 0 else 1 }

  /** The character that stands for byte b. */
  function Alpha(b: Byte): int { if Printable(b) then b else 256 + Moved(b) }

  lemma {:induction false} MovedGrows(a: nat, b: nat)
    requires a < b
    ensures Moved(a) + (if Printable(a) then 0 else 1) <= Moved(b) <= Moved(a) + (b - a)
  {
    if a + 1 < b { MovedGrows(a, b - 1); }
  }

  /** Different bytes get different characters, all of them scalars of at most two bytes. */
  lemma {:induction false} AlphaInjective(a: Byte, b: Byte)
    ensures Alpha(a) == Alpha(b) ==> a == b
    ensures Scalar(Alpha(a)) && Alpha(a) < 0x200
  {
    if a < b { MovedGrows(a, b); } else if b < a { MovedGrows(b, a); }
    if a > 0 { MovedGrows(0, a); }
  }

  lemma {:induction false} MovedBelow(b: nat)
    requires b <= 256
    ensures Moved(b) == if b <= 0x21 then b else if b <= 0x7F then 0x21 else if b <= 0xA1 then b - 0x5E
      else if b <= 0xAD then 0x43 else 0x44
  {
    if b > 0 { MovedBelow(b - 1); }
  }

  /** The visible characters of Latin-1 stand for themselves. The blanks and controls of ASCII start at
      U+0100, those from 0x7F on follow at U+0121, and the soft hyphen comes last. */
  lemma {:induction false} AlphaIs(b: Byte)
    ensures 0x21 <= b <= 0x7E || 0xA1 <= b <= 0xAC || 0xAE <= b <= 0xFF ==> Alpha(b) == b
    ensures b <= 0x20 ==> Alpha(b) == 0x100 + b
    ensures 0x7F <= b <= 0xA0 ==> Alpha(b) == 0x121 + (b - 0x7F)
    ensures b == 0xAD ==> Alpha(b) == 0x143
  {
    MovedBelow(b);
  }

  /** init: both tables, each the inverse of the other. */
  method InitTables() returns (byteToRune: array<int>, runeToByte: map<int, Byte>)
    ensures byteToRune.Length == 256 && fresh(byteToRune)
    ensures forall b: Byte :: byteToRune[b] == Alpha(b)
    ensures forall b: Byte :: 0x21 <= b <= 0x7E || 0xA1 <= b <= 0xAC || 0xAE <= b <= 0xFF ==> byteToRune[b] == b
    ensures forall b: Byte :: b <= 0x20 ==> byteToRune[b] == 0x100 + b
    ensures forall b: Byte :: 0x7F <= b <= 0xA0 ==> byteToRune[b] == 0x121 + (b - 0x7F)
    ensures byteToRune[0xAD] == 0x143
    ensures IsInverse(runeToByte)
    ensures forall b: Byte :: byteToRune[b] in runeToByte && runeToByte[byteToRune[b]] == b
  {
    hide Alpha, Moved, Printable;
    NothingMoved();
    byteToRune := new int[256];
    runeToByte := map[];
    var n := 0;
    for b := 0 to 256
      invariant n == Moved(b)
      invariant forall c: Byte :: c < b ==> byteToRune[c] == Alpha(c)
      invariant forall c: Byte :: c < b ==> Alpha(c) in runeToByte && runeToByte[Alpha(c)] == c
      invariant forall r :: r in runeToByte ==> runeToByte[r] < b && Alpha(runeToByte[r]) == r
    {
      NextAlpha(b);
      if Printable(b) {
        byteToRune[b] := b;
      } else {
        byteToRune[b] := 256 + n;
        n := n + 1;
      }
      runeToByte := runeToByte[byteToRune[b] := b];
    }
    TableIs(byteToRune[..]);
  }

  lemma {:induction false} NothingMoved()
    ensures Moved(0) == 0
  {}

  lemma {:induction false} NextAlpha(b: Byte)
    ensures Alpha(b) == if Printable(b) then b else 256 + Moved(b)
    ensures Moved(b + 1) == Moved(b) + if Printable(b) then 0 else 1
    ensures forall c: Byte :: c < b ==> Alpha(c) != Alpha(b)
  {
    forall c: Byte | c < b ensures Alpha(c) != Alpha(b) { AlphaInjective(c, b); }
  }

  lemma {:induction false} TableIs(t: seq<int>)
    requires |t| == 256 && forall b: Byte :: t[b] == Alpha(b)
    ensures forall b: Byte :: 0x21 <= b <= 0x7E || 0xA1 <= b <= 0xAC || 0xAE <= b <= 0xFF ==> t[b] == b
    ensures forall b: Byte :: b <= 0x20 ==> t[b] == 0x100 + b
    ensures forall b: Byte :: 0x7F <= b <= 0xA0 ==> t[b] == 0x121 + (b - 0x7F)
    ensures t[0xAD] == 0x143
  {
    hide Alpha;
    forall b: Byte { AlphaIs(b); }
  }

  /** runeToByte undoes byteToRune, and knows no other rune. */
  ghost predicate IsInverse(t: map<int, Byte>) {
    && (forall b: Byte :: Alpha(b) in t && t[Alpha(b)] == b)
    && forall r :: r in t ==> Alpha(t[r]) == r
  }

  function Word(piece: Bytes): Sym { seq(|piece|, i requires 0 <= i < |piece| => Alpha(piece[i])) }

  // ---- tokens back to bytes

  /** The bytes a rune of a token stands for. */
  function RuneBytes(t: map<int, Byte>, r: int): Bytes { if r in t then [t[r]] else EncodeRune(r) }

  function TokenBytes(t: map<int, Byte>, s: Sym): Bytes {
    if s == [] then [] else RuneBytes(t, s[0]) + TokenBytes(t, s[1..])
  }

  lemma {:induction false} TokenBytesConcat(t: map<int, Byte>, a: Sym, b: Sym)
    ensures TokenBytes(t, a + b) == TokenBytes(t, a) + TokenBytes(t, b)
  {
    hide *;
    if a == [] {
      assert a + b == b;
      NoTokenBytes(t, TokenBytes(t, b));
    } else {
      TokenBytesConcat(t, a[1..], b);
      FirstTokenBytes(t, a);
      FirstTokenBytes(t, a + b);
      assert (a + b)[1..] == a[1..] + b;
      assert RuneBytes(t, a[0]) + (TokenBytes(t, a[1..]) + TokenBytes(t, b))
          == RuneBytes(t, a[0]) + TokenBytes(t, a[1..]) + TokenBytes(t, b);
    }
  }

  lemma {:induction false} NoTokenBytes(t: map<int, Byte>, rest: Bytes)
    ensures TokenBytes(t, []) + rest == rest
  {}

  lemma {:induction false} FirstTokenBytes(t: map<int, Byte>, s: Sym)
    requires s != []
    ensures TokenBytes(t, s) == RuneBytes(t, s[0]) + TokenBytes(t, s[1..])
  {
    hide RuneBytes;
  }

  /** Mapping a piece to the alphabet and back. */
  lemma {:induction false} WordBytes(t: map<int, Byte>, piece: Bytes)
    requires IsInverse(t)
    ensures TokenBytes(t, Word(piece)) == piece
  {
    if piece != [] {
      WordBytes(t, piece[1..]);
      assert Word(piece)[1..] == Word(piece[1..]);
    }
  }

  const CONTROL := 3

  class Tokenizer {
    const runeToByte: map<int, Byte>
    const tokens: seq<Sym>
    const types: seq<int>
    const ids: map<Sym, nat>
    const merges: Merges

    ghost predicate Valid() {
      && IsInverse(runeToByte)
      && (forall s :: s in ids ==> ids[s] < |tokens| && tokens[ids[s]] == s)
      && forall i :: 0 <= i < |tokens| ==> tokens[i] in ids
    }

    /** FromGGUF: of two tokens with the same text the later one gets the id, and of two equal merges the
        later one the rank. */
    constructor (tokens: seq<Sym>, types: seq<int>, list: seq<Pair>)
      ensures Valid() && this.tokens == tokens && this.types == types && merges == MergeMap(list)
      ensures forall s :: s in ids ==> forall i :: ids[s] < i < |tokens| ==> tokens[i] != s
      ensures forall p :: p in merges ==> merges[p] < |list| && list[merges[p]] == p
      ensures forall k :: 0 <= k < |list| ==> list[k] in merges && k <= merges[list[k]]
    {
      var table, inverse := InitTables();
      var m: map<Sym, nat> := map[];
      for i := 0 to |tokens|
        invariant forall s :: s in m ==> m[s] < i && tokens[m[s]] == s && forall j :: m[s] < j < i ==> tokens[j] != s
        invariant forall j :: 0 <= j < i ==> tokens[j] in m
      {
        m := m[tokens[i] := i];
      }
      runeToByte := inverse;
      this.tokens := tokens;
      this.types := types;
      ids := m;
      merges := MergeMap(list);
      forall k | 0 <= k < |list|
        ensures list[k] in MergeMap(list) && k <= MergeMap(list)[list[k]]
      {
        LastRank(list, k);
      }
    }

    predicate IsControl(id: nat) { id < |types| && types[id] == CONTROL }

    /** What one id adds to the text. */
    function IdBytes(id: nat): Bytes {
      if id >= |tokens| || IsControl(id) then [] else TokenBytes(runeToByte, tokens[id])
    }

    function DecodeOf(list: seq<nat>): Bytes
      decreases |list|
    {
      if list == [] then [] else DecodeOf(list[..|list| - 1]) + IdBytes(list[|list| - 1])
    }

    /** appendToken */
    method AppendToken(b: Bytes, id: nat) returns (r: Bytes)
      ensures r == b + IdBytes(id)
      ensures r == b + if id >= |tokens| || (id < |types| && types[id] == 3) then []
        else TokenBytes(runeToByte, tokens[id])
    {
      r := b;
      if id >= |tokens| || IsControl(id) { return; }
      var s := tokens[id];
      for i := 0 to |s|
        invariant r == b + TokenBytes(runeToByte, s[..i])
      {
        assert s[..i + 1] == s[..i] + [s[i]];
        TokenBytesConcat(runeToByte, s[..i], [s[i]]);
        assert TokenBytes(runeToByte, [s[i]]) == RuneBytes(runeToByte, s[i]);
        if s[i] in runeToByte { r := r + [runeToByte[s[i]]]; } else { r := r + EncodeRune(s[i]); }
      }
      assert s[..|s|] == s;
    }

    method Decode(list: seq<nat>) returns (r: Bytes)
      ensures r == DecodeOf(list)
    {
      r := [];
      for i := 0 to |list|
        invariant r == DecodeOf(list[..i])
      {
        r := AppendToken(r, list[i]);
        assert list[..i + 1][..i] == list[..i];
      }
      assert list[..|list|] == list;
    }

    /** The vocabulary has every single character and every merge result, none of them control. */
    ghost predicate Complete() {
      && (forall b: Byte :: Known([Alpha(b)]))
      && forall p :: p in merges ==> Known(p.0 + p.1)
    }

    ghost predicate Known(s: Sym) { s in ids && !IsControl(ids[s]) }

    /** Every symbol bpe makes is in a complete vocabulary. */
    lemma {:induction false} ReducedKnown(syms: seq<Sym>)
      requires Complete() && forall i :: 0 <= i < |syms| ==> Known(syms[i])
      ensures forall i :: 0 <= i < |Reduced(merges, syms)| ==> Known(Reduced(merges, syms)[i])
      decreases |syms|
    {
      var at := Best(merges, syms, Places(syms));
      if at >= 0 {
        var t := MergeAt(syms, at);
        assert (syms[at], syms[at + 1]) in merges;
        forall i | 0 <= i < |t| ensures Known(t[i]) {
          if i > at { assert t[i] == syms[i + 1]; }
        }
        ReducedKnown(t);
      }
    }

    /** The id of a symbol; one that is in no vocabulary gets that of the character of byte 0. */
    function IdOf(s: Sym): nat {
      if s in ids then ids[s] else if [Alpha(0)] in ids then ids[[Alpha(0)]] else 0
    }

    function IdsOf(syms: seq<Sym>): seq<nat> { seq(|syms|, i requires 0 <= i < |syms| => IdOf(syms[i])) }

    /** The ids of a piece: those of the symbols its characters merge to. */
    function PieceIds(piece: Bytes): seq<nat> { IdsOf(Reduced(merges, Singles(Word(piece)))) }

    function TextIds(pieces: seq<Bytes>): seq<nat> {
      if pieces == [] then [] else TextIds(pieces[..|pieces| - 1]) + PieceIds(pieces[|pieces| - 1])
    }

    /** Without merges a piece has the ids of its characters. */
    lemma {:induction false} NoMerges(piece: Bytes)
      requires merges == map[]
      ensures |PieceIds(piece)| == |piece|
      ensures forall i :: 0 <= i < |piece| ==> PieceIds(piece)[i] == IdOf([Alpha(piece[i])])
    {
      var syms := Singles(Word(piece));
      if Best(merges, syms, Places(syms)) >= 0 { assert false; }
    }

    /** A vocabulary of the characters of byte 0, of the space and of "a": " ab" is 1, 2 and, for the unknown
        "b", the character of byte 0; 1 and 2 decode to " a". */
    lemma {:induction false} SpaceAndLetters()
      requires Valid() && tokens == [[0x100], [0x120], [0x61]] && types == [] && merges == map[]
      ensures PieceIds([0x20, 0x61, 0x62]) == [1, 2, 0]
      ensures DecodeOf([1, 2]) == [0x20, 0x61]
    {
      ThreeIds();
      ThreeCharacters();
      NoMerges([0x20, 0x61, 0x62]);
      hide Alpha, IdOf, PieceIds, DecodeOf, IdBytes, TokenBytes, Valid;
      assert PieceIds([0x20, 0x61, 0x62]) == [1, 2, 0];
      TwoDecoded();
    }

    lemma {:induction false} ThreeCharacters()
      ensures Alpha(0x20) == 0x120 && Alpha(0x61) == 0x61 && Alpha(0x62) == 0x62 && Alpha(0) == 0x100
    {
      AlphaIs(0x20);
      AlphaIs(0);
    }

    lemma {:induction false} TwoDecoded()
      requires Valid() && tokens == [[0x100], [0x120], [0x61]] && types == []
      ensures DecodeOf([1, 2]) == [0x20, 0x61]
    {
      DecodeNone();
      DecodeNext([], 1);
      DecodeNext([1], 2);
      OneCharacter(1, 0x20);
      OneCharacter(2, 0x61);
      hide DecodeOf, IdBytes;
      assert [] + [1] == [1] && [1] + [2] == [1, 2];
    }

    lemma {:induction false} OneCharacter(id: nat, b: Byte)
      requires Valid() && types == [] && id < |tokens| && |tokens[id]| == 1
      requires tokens[id][0] == if b == 0x20 then 0x120 else 0x61
      requires b == 0x20 || b == 0x61
      ensures IdBytes(id) == [b]
    {
      ThreeCharacters();
      assert tokens[id] == [Alpha(b)] && Alpha(b) in runeToByte && runeToByte[Alpha(b)] == b;
      assert TokenBytes(runeToByte, [Alpha(b)]) == RuneBytes(runeToByte, Alpha(b)) + TokenBytes(runeToByte, []);
    }

    lemma {:induction false} ThreeIds()
      requires Valid() && tokens == [[0x100], [0x120], [0x61]]
      ensures IdOf([0x120]) == 1 && IdOf([0x61]) == 2 && IdOf([0x62]) == 0
    {
      assert tokens[0] in ids && tokens[1] in ids && tokens[2] in ids;
      assert [0x100] != [0x120] && [0x100] != [0x61] && [0x120] != [0x61] by {
        assert [0x100][0] != [0x120][0] && [0x100][0] != [0x61][0] && [0x120][0] != [0x61][0];
      }
    }

    /** Encode; None where PreTokenize never ends. */
    method Encode(cls: PreTokenizer.Classes, text: Bytes) returns (r: Option<seq<nat>>)
      requires Valid() && cls.Good()
      ensures r.Some? <==> PreTokenize.Progresses(cls, text)
      ensures r.Some? ==> r.value == TextIds(PreTokenize.ByExpression(cls, text))
      ensures r.Some? && Complete() ==> DecodeOf(r.value) == text
    {
      var table, inverse := InitTables();
      var split := PreTokenize.PreTokenize(cls, text);
      if split.Spins? { return None; }
      var out := EncodePieces(table, split.ps);
      return Some(out);
    }

    /** The loop over the pieces. */
    method EncodePieces(table: array<int>, pieces: seq<Bytes>) returns (out: seq<nat>)
      requires Valid() && table.Length == 256 && forall b: Byte :: table[b] == Alpha(b)
      ensures out == TextIds(pieces) && (Complete() ==> DecodeOf(out) == PreTokenize.Join(pieces))
    {
      hide Complete, DecodeOf, Valid, PieceIds;
      out := [];
      DecodeNone();
      for n := 0 to |pieces|
        invariant out == TextIds(pieces[..n]) && (Complete() ==> DecodeOf(out) == PreTokenize.Join(pieces[..n]))
      {
        var word := WordOf(table, pieces[n]);
        var more := EncodeWord(word, pieces[n]);
        DecodeTwo(out, more);
        out := out + more;
        assert pieces[..n + 1][..n] == pieces[..n];
      }
      assert pieces[..|pieces|] == pieces;
    }

    lemma {:induction false} DecodeNone()
      ensures DecodeOf([]) == []
    {}

    /** The loop over the bytes of a piece. */
    static method WordOf(table: array<int>, piece: Bytes) returns (word: Sym)
      requires table.Length == 256 && forall b: Byte :: table[b] == Alpha(b)
      ensures word == Word(piece)
    {
      word := [];
      for i := 0 to |piece|
        invariant word == Word(piece[..i])
      {
        word := word + [table[piece[i]]];
        assert piece[..i + 1] == piece[..i] + [piece[i]];
      }
      assert piece[..|piece|] == piece;
    }

    /** The symbols of one piece and their ids. */
    method EncodeWord(word: Sym, ghost piece: Bytes) returns (out: seq<nat>)
      requires Valid() && word == Word(piece)
      ensures out == PieceIds(piece) && (Complete() ==> DecodeOf(out) == piece)
    {
      hide Complete, DecodeOf, Reduced, TokenBytes, Concat, Word, Singles, IdsOf, Valid;
      FirstCharacter();
      var syms := Bpe(merges, word);
      if Complete() { WordKnown(piece); }
      out := [];
      NoIds();
      for i := 0 to |syms|
        invariant out == IdsOf(syms[..i]) && (Complete() ==> DecodeOf(out) == TokenBytes(runeToByte, Concat(syms[..i])))
      {
        var id := if syms[i] in ids then ids[syms[i]] else if [256] in ids then ids[[256]] else 0;
        NextId(syms, i, id);
        if Complete() { NextBytes(out, syms, i); }
        out := out + [id];
      }
      assert syms[..|syms|] == syms;
      PieceBytes(piece);
    }

    lemma {:induction false} NoIds()
      ensures IdsOf([]) == [] && DecodeOf([]) == TokenBytes(runeToByte, Concat([])) == []
    {}

    lemma {:induction false} NextId(syms: seq<Sym>, i: nat, id: nat)
      requires i < |syms| && id == IdOf(syms[i])
      ensures IdsOf(syms[..i + 1]) == IdsOf(syms[..i]) + [id]
    {}

    lemma {:induction false} PieceBytes(piece: Bytes)
      requires Valid()
      ensures TokenBytes(runeToByte, Word(piece)) == piece
    {
      WordBytes(runeToByte, piece);
    }

    /** One more known symbol decodes to its bytes. */
    lemma {:induction false} NextBytes(out: seq<nat>, syms: seq<Sym>, i: nat)
      requires Valid() && i < |syms| && Known(syms[i]) && DecodeOf(out) == TokenBytes(runeToByte, Concat(syms[..i]))
      ensures DecodeOf(out + [IdOf(syms[i])]) == TokenBytes(runeToByte, Concat(syms[..i + 1]))
    {
      KnownId(syms[i]);
      ConcatTwo(syms[..i], [syms[i]]);
      assert syms[..i + 1] == syms[..i] + [syms[i]];
      assert Concat([syms[i]]) == syms[i];
      TokenBytesConcat(runeToByte, Concat(syms[..i]), syms[i]);
      DecodeNext(out, IdOf(syms[i]));
    }

    lemma {:induction false} FirstCharacter()
      ensures Alpha(0) == 256
    {}

    lemma {:induction false} KnownId(s: Sym)
      requires Valid()
      ensures Known(s) ==> s in ids && IdBytes(ids[s]) == TokenBytes(runeToByte, s)
    {}

    lemma {:induction false} WordKnown(piece: Bytes)
      requires Valid() && Complete()
      ensures forall i :: 0 <= i < |Reduced(merges, Singles(Word(piece)))| ==>
        Known(Reduced(merges, Singles(Word(piece)))[i])
    {
      forall i | 0 <= i < |piece| ensures Known(Singles(Word(piece))[i]) {
        assert Singles(Word(piece))[i] == [Alpha(piece[i])];
      }
      ReducedKnown(Singles(Word(piece)));
    }

    lemma {:induction false} DecodeNext(a: seq<nat>, id: nat)
      ensures DecodeOf(a + [id]) == DecodeOf(a) + IdBytes(id)
    {
      assert (a + [id])[..|a|] == a;
      hide IdBytes;
    }

    lemma {:induction false} DecodeTwo(a: seq<nat>, b: seq<nat>)
      ensures DecodeOf(a + b) == DecodeOf(a) + DecodeOf(b)
      decreases |b|
    {
      hide *;
      if b == [] {
        DecodeNone();
        assert a + b == a;
      } else {
        var c, id := b[..|b| - 1], b[|b| - 1];
        DecodeTwo(a, c);
        DecodeNext(a + c, id);
        DecodeNext(c, id);
        assert b == c + [id] && a + b == (a + c) + [id];
        assert DecodeOf(a) + (DecodeOf(c) + IdBytes(id)) == DecodeOf(a) + DecodeOf(c) + IdBytes(id);
      }
    }

    /** Decode after Encode, for every text that pre-tokenization gets through, valid UTF-8 or not. */
    method RoundTrip(cls: PreTokenizer.Classes, text: Bytes) returns (back: Option<Bytes>)
      requires Valid() && cls.Good() && Complete()
      ensures back == if PreTokenize.Progresses(cls, text) then Some(text) else None
    {
      var r := Encode(cls, text);
      if r.None? { return None; }
      var b := Decode(r.value);
      return Some(b);
    }
  }
}
