/** The greedy, rank-driven merging of tokenizer.bpe, and when it is the same as
    replaying the merge list once. */
module BytePairs {

  /** A string, as its runes. */
  type Sym = seq<int>

  type Pair = (Sym, Sym)

  type Merges = map<Pair, nat>

  function Concat(syms: seq<Sym>): Sym { if syms == [] then [] else syms[0] + Concat(syms[1..]) }

  function Singles(word: Sym): (syms: seq<Sym>) { seq(|word|, i requires 0 <= i < |word| => [word[i]]) }

  predicate NonEmpty(syms: seq<Sym>) { forall i :: 0 <= i < |syms| ==> syms[i] != [] }

  /** Two neighbours that some merge joins. */
  predicate Mergeable(m: Merges, syms: seq<Sym>, i: nat) { i + 1 < |syms| && (syms[i], syms[i + 1]) in m }

  function RankAt(m: Merges, syms: seq<Sym>, i: nat): nat
    requires Mergeable(m, syms, i)
  {
    m[(syms[i], syms[i + 1])]
  }

  function MergeAt(syms: seq<Sym>, i: nat): seq<Sym>
    requires i + 1 < |syms|
  {
    syms[..i] + [syms[i] + syms[i + 1]] + syms[i + 2..]
  }

  /** The leftmost of the lowest-ranked pairs among the first n places, or -1. */
  function Best(m: Merges, syms: seq<Sym>, n: nat): (at: int)
    requires n < |syms| || n == 0
    ensures -1 <= at < n && (at >= 0 ==> Mergeable(m, syms, at))
  {
    if n == 0 then -1 else
      var at := Best(m, syms, n - 1);
      if Mergeable(m, syms, n - 1) && (at < 0 || RankAt(m, syms, n - 1) < RankAt(m, syms, at)) then n - 1 else at
  }

  lemma {:induction false} BestIsLeast(m: Merges, syms: seq<Sym>, n: nat)
    requires n < |syms| || n == 0
    ensures var at := Best(m, syms, n);
      forall i :: 0 <= i < n && Mergeable(m, syms, i) ==>
        at >= 0 && RankAt(m, syms, at) <= RankAt(m, syms, i) && (i < at ==> RankAt(m, syms, at) < RankAt(m, syms, i))
  {
    if n > 0 { BestIsLeast(m, syms, n - 1); }
  }

  function Places(syms: seq<Sym>): (n: nat)
    ensures n < |syms| || n == 0
  {
    if syms == [] then 0 else |syms| - 1
  }

  /** Merge the best pair until none is left. */
  function Reduced(m: Merges, syms: seq<Sym>): seq<Sym>
    decreases |syms|
  {
    var at := Best(m, syms, Places(syms));
    if at < 0 then syms else Reduced(m, MergeAt(syms, at))
  }

  /** bpe */
  method Bpe(m: Merges, word: Sym) returns (syms: seq<Sym>)
    ensures syms == Reduced(m, Singles(word))
    ensures Concat(syms) == word
    ensures forall i :: 0 <= i < |syms| ==> !Mergeable(m, syms, i)
  {
    syms := Singles(word);
    ConcatSingles(word);
    while |syms| > 1
      invariant Reduced(m, syms) == Reduced(m, Singles(word)) && Concat(syms) == word
      decreases |syms|
    {
      var best: int, at: int := -1, -1;
      for i: nat := 0 to |syms| - 1
        invariant at == Best(m, syms, i) && best == if at < 0 then -1 else RankAt(m, syms, at)
      {
        if (syms[i], syms[i + 1]) in m && (best < 0 || m[(syms[i], syms[i + 1])] < best) {
          best, at := m[(syms[i], syms[i + 1])], i;
        }
      }
      if best < 0 { break; }
      ConcatMerge(syms, at);
      syms := syms[at := syms[at] + syms[at + 1]];
      syms := syms[..at + 1] + syms[at + 2..];
    }
    BestIsLeast(m, syms, Places(syms));
  }

  lemma {:induction false} ConcatSingles(word: Sym)
    ensures Concat(Singles(word)) == word
  {
    if word != [] {
      ConcatSingles(word[1..]);
      assert Singles(word)[1..] == Singles(word[1..]);
    }
  }

  lemma {:induction false} ConcatTwo(a: seq<Sym>, b: seq<Sym>)
    ensures Concat(a + b) == Concat(a) + Concat(b)
  {
    if a == [] {
      assert a + b == b;
    } else {
      ConcatTwo(a[1..], b);
      assert (a + b)[1..] == a[1..] + b;
    }
  }

  /** Merging neighbours keeps the string. */
  lemma {:induction false} ConcatMerge(syms: seq<Sym>, i: nat)
    requires i + 1 < |syms|
    ensures Concat(MergeAt(syms, i)) == Concat(syms)
    ensures MergeAt(syms, i) == syms[i := syms[i] + syms[i + 1]][..i + 1] + syms[i + 2..]
  {
    var a, x, y, b := syms[..i], syms[i], syms[i + 1], syms[i + 2..];
    assert syms == a + ([x, y] + b);
    ConcatTwo(a, [x, y] + b);
    assert ([x, y] + b)[1..] == [y] + b && ([y] + b)[1..] == b;
    assert MergeAt(syms, i) == a + ([x + y] + b);
    ConcatTwo(a, [x + y] + b);
    assert ([x + y] + b)[1..] == b;
  }

  // ---- the merge list

  /** FromGGUF numbers the merges; a repeated pair keeps its last number. */
  function MergeMap(list: seq<Pair>): (m: Merges)
    ensures forall p :: p in m ==> m[p] < |list| && list[m[p]] == p
  {
    if list == [] then map[] else MergeMap(list[..|list| - 1])[list[|list| - 1] := |list| - 1]
  }

  /** Every merge has a rank, of repeated merges the last one's. */
  lemma {:induction false} LastRank(list: seq<Pair>, k: nat)
    requires k < |list|
    ensures list[k] in MergeMap(list) && k <= MergeMap(list)[list[k]]
  {
    var n := |list| - 1;
    if k < n { LastRank(list[..n], k); }
  }

  /** Whatever makes a part comes before whatever uses it. */
  ghost predicate PartsFirst(m: Merges) {
    forall p, q :: p in m && q in m && (q.0 + q.1 == p.0 || q.0 + q.1 == p.1) ==> m[q] < m[p]
  }

  /** Every mergeable pair has rank k or more. */
  ghost predicate AllFrom(m: Merges, syms: seq<Sym>, k: nat) {
    forall i :: 0 <= i < |syms| && Mergeable(m, syms, i) ==> RankAt(m, syms, i) >= k
  }

  /** Merging the pair at i leaves only pairs that were there before, and pairs with the new part. */
  lemma {:induction false} PairsAfter(m: Merges, syms: seq<Sym>, i: nat, j: nat)
    requires PartsFirst(m) && Mergeable(m, syms, i) && Mergeable(m, MergeAt(syms, i), j)
    ensures RankAt(m, MergeAt(syms, i), j) > RankAt(m, syms, i)
      || (j < i && Mergeable(m, syms, j) && RankAt(m, MergeAt(syms, i), j) == RankAt(m, syms, j))
      || (j > i && Mergeable(m, syms, j + 1) && RankAt(m, MergeAt(syms, i), j) == RankAt(m, syms, j + 1))
  {
    var t := MergeAt(syms, i);
    var p, q := (t[j], t[j + 1]), (syms[i], syms[i + 1]);
    assert t[i] == q.0 + q.1;
    if j == i || j + 1 == i {
      assert m[q] < m[p];
    }
  }

  /** The ranks bpe applies, in order. */
  function Applied(m: Merges, syms: seq<Sym>): seq<nat>
    decreases |syms|
  {
    var at := Best(m, syms, Places(syms));
    if at < 0 then [] else [RankAt(m, syms, at)] + Applied(m, MergeAt(syms, at))
  }

  lemma {:induction false} AppliedFrom(m: Merges, syms: seq<Sym>, k: nat)
    requires PartsFirst(m) && AllFrom(m, syms, k)
    ensures forall i :: 0 <= i < |Applied(m, syms)| ==> Applied(m, syms)[i] >= k
    ensures forall i, j :: 0 <= i < j < |Applied(m, syms)| ==> Applied(m, syms)[i] <= Applied(m, syms)[j]
    decreases |syms|
  {
    var at := Best(m, syms, Places(syms));
    if at >= 0 {
      var r := RankAt(m, syms, at);
      MergeKeepsFrom(m, syms);
      AppliedFrom(m, MergeAt(syms, at), r);
    }
  }

  /** After a greedy step every rank is at least the one just applied. */
  lemma {:induction false} MergeKeepsFrom(m: Merges, syms: seq<Sym>)
    requires PartsFirst(m) && Best(m, syms, Places(syms)) >= 0
    ensures var at := Best(m, syms, Places(syms));
      AllFrom(m, MergeAt(syms, at), RankAt(m, syms, at))
  {
    var at := Best(m, syms, Places(syms));
    BestIsLeast(m, syms, Places(syms));
    forall j | 0 <= j < |MergeAt(syms, at)| && Mergeable(m, MergeAt(syms, at), j)
      ensures RankAt(m, MergeAt(syms, at), j) >= RankAt(m, syms, at)
    {
      PairsAfter(m, syms, at, j);
    }
  }

  // ---- when the ranks never decrease

  predicate Ascends(r: seq<nat>) { forall i, j :: 0 <= i < j < |r| ==> r[i] <= r[j] }

  /** The result of every merge is itself built with ranks that never decrease. */
  ghost predicate Ordered(m: Merges) { forall p :: p in m ==> Ascends(Applied(m, Singles(p.0 + p.1))) }

  /** One step of bpe; nothing when no pair is left. */
  function Step(m: Merges, syms: seq<Sym>): seq<Sym> {
    var at := Best(m, syms, Places(syms));
    if at < 0 then syms else MergeAt(syms, at)
  }

  function Run(m: Merges, syms: seq<Sym>, n: nat): seq<Sym>
    decreases n
  {
    if n == 0 then syms else Run(m, Step(m, syms), n - 1)
  }

  lemma {:induction false} RunLast(m: Merges, syms: seq<Sym>, n: nat)
    ensures Run(m, syms, n + 1) == Step(m, Run(m, syms, n))
    decreases n
  {
    hide Step;
    if n > 0 { RunLast(m, Step(m, syms), n - 1); }
  }

  /** After n steps the rest of the ranks are still to come. */
  lemma {:induction false} AppliedRun(m: Merges, syms: seq<Sym>, n: nat)
    requires n <= |Applied(m, syms)|
    ensures Applied(m, Run(m, syms, n)) == Applied(m, syms)[n..]
    ensures Reduced(m, Run(m, syms, n)) == Reduced(m, syms)
    decreases n
  {
    if n > 0 {
      assert Applied(m, syms)[1..] == Applied(m, Step(m, syms));
      AppliedRun(m, Step(m, syms), n - 1);
    }
  }

  lemma {:induction false} NextRank(m: Merges, syms: seq<Sym>, n: nat)
    requires n < |Applied(m, syms)|
    ensures var t := Run(m, syms, n);
      var at := Best(m, t, Places(t));
      at >= 0 && RankAt(m, t, at) == Applied(m, syms)[n] && Run(m, syms, n + 1) == MergeAt(t, at)
  {
    AppliedRun(m, syms, n);
    RunLast(m, syms, n);
    assert Applied(m, syms)[n..][0] == Applied(m, syms)[n];
  }

  lemma {:induction false} RunConcat(m: Merges, syms: seq<Sym>, n: nat)
    ensures Concat(Run(m, syms, n)) == Concat(syms)
    decreases n
  {
    if n > 0 {
      var at := Best(m, syms, Places(syms));
      if at >= 0 { ConcatMerge(syms, at); }
      RunConcat(m, Step(m, syms), n - 1);
    }
  }

  lemma {:induction false} BestUnique(m: Merges, syms: seq<Sym>, at: nat)
    requires Mergeable(m, syms, at)
    requires forall i :: 0 <= i < |syms| && Mergeable(m, syms, i) ==>
      RankAt(m, syms, at) <= RankAt(m, syms, i) && (i < at ==> RankAt(m, syms, at) < RankAt(m, syms, i))
    ensures Best(m, syms, Places(syms)) == at
  {
    BestIsLeast(m, syms, Places(syms));
  }

  /** The best pair of all is the best of any stretch that holds it. */
  lemma {:induction false} BestOfSlice(m: Merges, u: seq<Sym>, a: nat, b: nat)
    requires a <= Best(m, u, Places(u)) && Best(m, u, Places(u)) + 1 < b <= |u|
    ensures var i := Best(m, u, Places(u));
      && Best(m, u[a..b], Places(u[a..b])) == i - a && RankAt(m, u[a..b], i - a) == RankAt(m, u, i)
  {
    var i, v := Best(m, u, Places(u)), u[a..b];
    BestIsLeast(m, u, Places(u));
    forall j | 0 <= j < |v| && Mergeable(m, v, j)
      ensures RankAt(m, v, i - a) <= RankAt(m, v, j) && (j < i - a ==> RankAt(m, v, i - a) < RankAt(m, v, j))
    {
      assert Mergeable(m, u, j + a);
    }
    BestUnique(m, v, i - a);
  }

  /** Merging is local: the symbols a to b after n steps come from a stretch of the symbols at
      the start, and k steps on that stretch alone lead to them, with ranks that never decrease
      and never pass the last one. If step n made one of them, its rank is the last of the k. */
  lemma {:induction false} Local(m: Merges, syms: seq<Sym>, n: nat, a: nat, b: nat) returns (a0: nat, b0: nat, k: nat)
    requires n <= |Applied(m, syms)| && Ascends(Applied(m, syms)[..n]) && a <= b <= |Run(m, syms, n)|
    ensures a0 <= b0 <= |syms| && k <= n && Built(m, syms[a0..b0], k, Run(m, syms, n)[a..b])
    ensures k > 0 ==> Applied(m, syms[a0..b0])[k - 1] <= Applied(m, syms)[n - 1]
    ensures n > 0 && Made(m, syms, n, a, b) ==> k > 0 && Applied(m, syms[a0..b0])[k - 1] == Applied(m, syms)[n - 1]
    decreases n
  {
    hide *;
    if n == 0 {
      a0, b0, k := a, b, 0;
      BuiltNone(m, syms, a, b);
    } else {
      var u := Run(m, syms, n - 1);
      var i := Best(m, u, Places(u));
      NextRank(m, syms, n - 1);
      AscendsLess(Applied(m, syms), n);
      MadeIs(m, syms, n, a, b);
      MergeLength(u, i);
      if i < a {
        SliceAfter(u, i, a, b);
        a0, b0, k := Local(m, syms, n - 1, a + 1, b + 1);
      } else if i >= b {
        SliceBefore(u, i, a, b);
        a0, b0, k := Local(m, syms, n - 1, a, b);
      } else {
        a0, b0, k := Local(m, syms, n - 1, a, b + 1);
        SliceStep(m, u, a, b);
        BuiltMore(m, syms[a0..b0], k, u[a..b + 1], Applied(m, syms)[n - 1]);
        k := k + 1;
      }
    }
  }

  lemma {:induction false} BuiltNone(m: Merges, syms: seq<Sym>, a: nat, b: nat)
    requires a <= b <= |Run(m, syms, 0)|
    ensures b <= |syms| && Built(m, syms[a..b], 0, Run(m, syms, 0)[a..b])
  {
    hide Applied;
  }

  lemma {:induction false} MadeIs(m: Merges, syms: seq<Sym>, n: nat, a: nat, b: nat)
    requires n > 0
    ensures var u := Run(m, syms, n - 1); Made(m, syms, n, a, b) <==> a <= Best(m, u, Places(u)) < b
  {}

  /** k steps with ranks that never decrease lead from s to t. */
  ghost predicate Built(m: Merges, s: seq<Sym>, k: nat, t: seq<Sym>) {
    k <= |Applied(m, s)| && Ascends(Applied(m, s)[..k]) && Run(m, s, k) == t
  }

  /** Step n put its new symbol between a and b. */
  ghost predicate Made(m: Merges, syms: seq<Sym>, n: nat, a: nat, b: nat)
    requires n > 0
  {
    var u := Run(m, syms, n - 1);
    a <= Best(m, u, Places(u)) < b
  }

  lemma {:induction false} AscendsLess(r: seq<nat>, n: nat)
    requires 0 < n <= |r| && Ascends(r[..n])
    ensures Ascends(r[..n - 1]) && (n > 1 ==> r[n - 2] <= r[n - 1])
  {
    forall i, j | 0 <= i < j < n - 1 ensures r[i] <= r[j] { assert r[..n][i] <= r[..n][j]; }
    if n > 1 { assert r[..n][n - 2] <= r[..n][n - 1]; }
  }

  lemma {:induction false} AscendsMore(r: seq<nat>, k: nat)
    requires k < |r| && Ascends(r[..k]) && (k > 0 ==> r[k - 1] <= r[k])
    ensures Ascends(r[..k + 1])
  {
    forall i, j | 0 <= i < j < k + 1 ensures r[i] <= r[j] {
      if j < k { assert r[..k][i] <= r[..k][j]; } else if i < k - 1 { assert r[..k][i] <= r[..k][k - 1]; }
    }
  }

  lemma {:induction false} MergeLength(u: seq<Sym>, i: nat)
    requires i + 1 < |u|
    ensures |MergeAt(u, i)| == |u| - 1
  {}

  lemma {:induction false} SliceAfter(u: seq<Sym>, i: nat, a: nat, b: nat)
    requires i < a <= b < |u|
    ensures MergeAt(u, i)[a..b] == u[a + 1..b + 1]
  {}

  lemma {:induction false} SliceBefore(u: seq<Sym>, i: nat, a: nat, b: nat)
    requires a <= b <= i < |u| - 1
    ensures MergeAt(u, i)[a..b] == u[a..b]
  {}

  lemma {:induction false} SliceAround(u: seq<Sym>, i: nat, a: nat, b: nat)
    requires a <= i < b < |u|
    ensures |u[a..b + 1]| == b + 1 - a && MergeAt(u[a..b + 1], i - a) == MergeAt(u, i)[a..b]
  {
    var v := u[a..b + 1];
    assert v[..i - a] == u[a..i] && v[i - a + 2..] == u[i + 2..b + 1];
    assert MergeAt(u, i)[a..i] == u[a..i] && MergeAt(u, i)[i + 1..b] == u[i + 2..b + 1];
  }

  /** The stretch takes the step the whole takes. */
  lemma {:induction false} SliceStep(m: Merges, u: seq<Sym>, a: nat, b: nat)
    requires a <= b < |u| && a <= Best(m, u, Places(u)) < b
    ensures var i, v := Best(m, u, Places(u)), u[a..b + 1];
      && Best(m, v, Places(v)) == i - a && RankAt(m, v, i - a) == RankAt(m, u, i)
      && MergeAt(v, i - a) == MergeAt(u, i)[a..b]
  {
    BestInside(m, u);
    hide *;
    SliceAround(u, Best(m, u, Places(u)), a, b);
    BestOfSlice(m, u, a, b + 1);
  }

  lemma {:induction false} BestInside(m: Merges, u: seq<Sym>)
    ensures Best(m, u, Places(u)) >= 0 ==> Best(m, u, Places(u)) + 1 < |u|
  {
    BestIsLeast(m, u, Places(u));
  }

  lemma {:induction false} BuiltMore(m: Merges, s: seq<Sym>, k: nat, v: seq<Sym>, rank: nat)
    requires Built(m, s, k, v) && (k > 0 ==> Applied(m, s)[k - 1] <= rank)
    requires Best(m, v, Places(v)) >= 0 && RankAt(m, v, Best(m, v, Places(v))) == rank
    ensures Built(m, s, k + 1, MergeAt(v, Best(m, v, Places(v)))) && Applied(m, s)[k] == rank
  {
    AppliedRun(m, s, k);
    assert |Applied(m, v)| > 0 && Applied(m, v)[0] == rank && Applied(m, s)[k..] == Applied(m, v);
    hide Best, RankAt, Mergeable, Ascends;
    assert Applied(m, s)[k] == Applied(m, s)[k..][0];
    AscendsMore(Applied(m, s), k);
    RunLast(m, s, k);
  }

  /** A word whose ranks first decrease at step n shows a merge whose own result is built with
      a decrease, at its very last step. */
  lemma {:induction false} DropShows(m: Merges, word: Sym, n: nat) returns (p: Pair, k: nat)
    requires FirstDrop(Applied(m, Singles(word)), n)
    ensures p in m && LastStepDrops(m, p, k)
  {
    hide *;
    DropFacts(Applied(m, Singles(word)), n);
    SinglesLength(word);
    var syms := Singles(word);
    var t, u := Run(m, syms, n), Run(m, syms, n - 1);
    var at := Best(m, t, Places(t));
    NextRank(m, syms, n);
    NextRank(m, syms, n - 1);
    PairRanks(m, t, at);
    p := (t[at], t[at + 1]);
    NewPart(m, u, at);
    MadeIs(m, syms, n, at, at + 2);
    var a0, b0;
    a0, b0, k := Local(m, syms, n, at, at + 2);
    StretchIsWord(m, word, a0, b0, k, t, at);
    LastPair(m, Singles(p.0 + p.1), k, p);
    LastDrops(m, p, k);
  }

  lemma {:induction false} DropFacts(r: seq<nat>, n: nat)
    requires FirstDrop(r, n)
    ensures 0 < n < |r| && Ascends(r[..n]) && r[n] < r[n - 1]
  {}

  lemma {:induction false} SinglesLength(word: Sym)
    ensures |Singles(word)| == |word|
  {}

  lemma {:induction false} PairRanks(m: Merges, t: seq<Sym>, at: nat)
    requires Mergeable(m, t, at)
    ensures (t[at], t[at + 1]) in m && RankAt(m, t, at) == m[(t[at], t[at + 1])]
    ensures at + 2 <= |t|
  {}

  /** The stretch that became the pair at at is the text of the pair. */
  lemma {:induction false} StretchIsWord(m: Merges, word: Sym, a0: nat, b0: nat, k: nat, t: seq<Sym>, at: nat)
    requires a0 <= b0 <= |word| && at + 2 <= |t| && Built(m, Singles(word)[a0..b0], k, t[at..at + 2])
    ensures Singles(word)[a0..b0] == Singles(t[at] + t[at + 1]) && t[at..at + 2] == [t[at], t[at + 1]]
  {
    var w, p := word[a0..b0], (t[at], t[at + 1]);
    assert Singles(w) == Singles(word)[a0..b0];
    hide Applied, Ascends, Singles, Concat;
    RunConcat(m, Singles(w), k);
    ConcatSingles(w);
    assert t[at..at + 2] == [p.0, p.1];
    ConcatPair(p);
  }

  lemma {:induction false} LastDrops(m: Merges, p: Pair, k: nat)
    requires p in m && k > 0 && Built(m, Singles(p.0 + p.1), k, [p.0, p.1])
    requires var r := Applied(m, Singles(p.0 + p.1)); r == r[..k] + [m[p]] && m[p] < r[k - 1]
    ensures LastStepDrops(m, p, k)
  {
    hide Run, Ascends;
  }

  /** r never decreases before position n, where it does. */
  predicate FirstDrop(r: seq<nat>, n: nat) { 0 < n < |r| && Ascends(r[..n]) && r[n] < r[n - 1] }

  /** Merge p is the last step on the word of its own result, and of lower rank than the one before. */
  ghost predicate LastStepDrops(m: Merges, p: Pair, k: nat) {
    var s := Singles(p.0 + p.1);
    p in m && 0 < k && Built(m, s, k, [p.0, p.1]) && Applied(m, s) == Applied(m, s)[..k] + [m[p]]
      && m[p] < Applied(m, s)[k - 1]
  }

  lemma {:induction false} ConcatPair(p: Pair)
    ensures Concat([p.0, p.1]) == p.0 + p.1
  {
    var two, one := [p.0, p.1], [p.1];
    assert two[1..] == one && one[1..] == [] && p.1 + [] == p.1;
    assert Concat(one) == one[0] + Concat(one[1..]) && Concat(two) == two[0] + Concat(two[1..]);
  }

  /** A pair that ranks lower than the step before it has a part that step made. */
  lemma {:induction false} NewPart(m: Merges, u: seq<Sym>, at: nat)
    requires Best(m, u, Places(u)) >= 0
    requires var t := MergeAt(u, Best(m, u, Places(u)));
      Mergeable(m, t, at) && RankAt(m, t, at) < RankAt(m, u, Best(m, u, Places(u)))
    ensures at <= Best(m, u, Places(u)) < at + 2
  {
    BestIsLeast(m, u, Places(u));
    PairKept(m, u, Best(m, u, Places(u)), at);
    hide MergeAt;
  }

  /** A pair that does not touch the new symbol was there before. */
  lemma {:induction false} PairKept(m: Merges, u: seq<Sym>, i: nat, at: nat)
    requires i + 1 < |u| && Mergeable(m, MergeAt(u, i), at)
    ensures at + 1 < i ==> Mergeable(m, u, at) && RankAt(m, u, at) == RankAt(m, MergeAt(u, i), at)
    ensures at > i ==> Mergeable(m, u, at + 1) && RankAt(m, u, at + 1) == RankAt(m, MergeAt(u, i), at)
  {
    var t := MergeAt(u, i);
    if at + 1 < i { assert t[at] == u[at] && t[at + 1] == u[at + 1]; }
    if at > i { assert t[at] == u[at + 1] && t[at + 1] == u[at + 2]; }
  }

  lemma {:induction false} LastPair(m: Merges, s: seq<Sym>, k: nat, p: Pair)
    requires Built(m, s, k, [p.0, p.1]) && p in m
    ensures Applied(m, s) == Applied(m, s)[..k] + [m[p]] && Reduced(m, s) == [p.0 + p.1]
  {
    var two, one := [p.0, p.1], [p.0 + p.1];
    AppliedRun(m, s, k);
    assert Mergeable(m, two, 0);
    BestUnique(m, two, 0);
    assert MergeAt(two, 0) == one;
    assert Best(m, one, 0) == -1;
    assert Applied(m, one) == [] && Applied(m, two) == [m[p]] && Reduced(m, one) == one;
  }

  lemma {:induction false} DropExists(r: seq<nat>, n: nat)
    requires n <= |r| && Ascends(r[..n])
    ensures !Ascends(r) ==> exists k :: FirstDrop(r, k)
    decreases |r| - n
  {
    if n == |r| {
      assert r[..n] == r;
    } else if n > 0 && r[n] < r[n - 1] {
      assert FirstDrop(r, n);
    } else {
      AscendsMore(r, n);
      DropExists(r, n + 1);
    }
  }

  /** Only a merge whose own result is built with a decrease can make any word's ranks decrease. */
  lemma {:induction false} DropFromList(m: Merges, word: Sym)
    ensures !Ascends(Applied(m, Singles(word))) ==> exists p, k :: p in m && LastStepDrops(m, p, k)
  {
    var r := Applied(m, Singles(word));
    assert r[..0] == [];
    DropExists(r, 0);
    if !Ascends(r) {
      var n :| FirstDrop(r, n);
      var p, k := DropShows(m, word, n);
    }
  }

  lemma {:induction false} DropIsDrop(m: Merges, p: Pair, k: nat)
    requires LastStepDrops(m, p, k)
    ensures !Ascends(Applied(m, Singles(p.0 + p.1)))
  {
    var r := Applied(m, Singles(p.0 + p.1));
    assert r[k] == m[p] && r[k] < r[k - 1];
  }

  /** For every word the ranks never decrease, exactly when they do not for the result of any
      merge in the list. */
  lemma {:induction false} RanksNeverDecrease(m: Merges)
    ensures (forall word: Sym :: Ascends(Applied(m, Singles(word)))) <==> Ordered(m)
  {
    hide Applied, Ascends, LastStepDrops;
    forall word: Sym ensures Ordered(m) ==> Ascends(Applied(m, Singles(word))) {
      DropFromList(m, word);
      if !Ascends(Applied(m, Singles(word))) {
        var p, k :| p in m && LastStepDrops(m, p, k);
        DropIsDrop(m, p, k);
      }
    }
  }

  /** It is enough that whatever makes a part is listed before whatever uses it. */
  lemma {:induction false} PartsFirstSuffices(m: Merges)
    requires PartsFirst(m)
    ensures Ordered(m)
  {
    forall p | p in m ensures Ascends(Applied(m, Singles(p.0 + p.1))) { AppliedFrom(m, Singles(p.0 + p.1), 0); }
  }

  /** But it is not necessary: a merge that no word can apply does not disturb the order. */
  lemma {:induction false} PartsFirstNotNeeded()
    ensures var m := map[([], [97]) := 0]; !PartsFirst(m) && Ordered(m)
  {
    var p: Pair := ([], [97]);
    var m: Merges := map[p := 0];
    assert p in m && p.0 + p.1 == p.1;
    assert Singles(p.0 + p.1) == [[97]];
    assert Applied(m, [[97]]) == [];
  }

  // ---- replaying the list

  /** One merge swept over the symbols from left to right. */
  function Sweep(p: Pair, syms: seq<Sym>): seq<Sym> {
    if |syms| < 2 then syms
    else if (syms[0], syms[1]) == p then [p.0 + p.1] + Sweep(p, syms[2..])
    else [syms[0]] + Sweep(p, syms[1..])
  }

  /** The merges from number k on, each swept once; a pair that appears again later is left
      to its later number. */
  function Replay(list: seq<Pair>, k: nat, syms: seq<Sym>): seq<Sym>
    decreases |list| - k
  {
    if k >= |list| then syms
    else
      LastRank(list, k);
      Replay(list, k + 1, if MergeMap(list)[list[k]] == k then Sweep(list[k], syms) else syms)
  }

  predicate Occurs(p: Pair, syms: seq<Sym>, i: nat) { i + 1 < |syms| && (syms[i], syms[i + 1]) == p }

  lemma {:induction false} SweepNothing(p: Pair, syms: seq<Sym>)
    requires forall i :: 0 <= i < |syms| ==> !Occurs(p, syms, i)
    ensures Sweep(p, syms) == syms
  {
    if |syms| >= 2 {
      assert !Occurs(p, syms, 0);
      forall i | 0 <= i < |syms[1..]| ensures !Occurs(p, syms[1..], i) { assert !Occurs(p, syms, i + 1); }
      SweepNothing(p, syms[1..]);
    }
  }

  /** Up to the first occurrence a sweep copies. */
  lemma {:induction false} SweepFirst(p: Pair, syms: seq<Sym>, i: nat)
    requires i <= |syms| && forall j :: 0 <= j < i ==> !Occurs(p, syms, j)
    ensures Sweep(p, syms) == syms[..i] + Sweep(p, syms[i..])
  {
    hide Sweep, Occurs;
    if i == 0 {
      assert syms[0..] == syms;
    } else {
      forall j | 0 <= j < i - 1 ensures !Occurs(p, syms[1..], j) {
        OccursNext(p, syms, j);
        assert !Occurs(p, syms, j + 1);
      }
      SweepFirst(p, syms[1..], i - 1);
      assert !Occurs(p, syms, 0);
      SweepSkips(p, syms);
      Prepended(syms, i, Sweep(p, syms[i..]));
    }
  }

  lemma {:induction false} OccursNext(p: Pair, syms: seq<Sym>, j: nat)
    requires syms != []
    ensures Occurs(p, syms[1..], j) == Occurs(p, syms, j + 1)
  {}

  lemma {:induction false} Prepended(syms: seq<Sym>, i: nat, rest: seq<Sym>)
    requires 0 < i <= |syms|
    ensures [syms[0]] + (syms[1..][..i - 1] + rest) == syms[..i] + rest && syms[1..][i - 1..] == syms[i..]
  {}

  lemma {:induction false} SweepSkips(p: Pair, syms: seq<Sym>)
    requires |syms| > 0 && !Occurs(p, syms, 0)
    ensures Sweep(p, syms) == [syms[0]] + Sweep(p, syms[1..])
  {
    if |syms| == 1 { assert syms == [syms[0]] + syms[1..]; }
  }

  lemma {:induction false} SweepHere(p: Pair, syms: seq<Sym>)
    requires Occurs(p, syms, 0)
    ensures Sweep(p, syms) == [p.0 + p.1] + Sweep(p, syms[2..])
  {}

  /** Merging the leftmost occurrence first does not change what the sweep gives. */
  lemma {:induction false} SweepAfterFirst(p: Pair, syms: seq<Sym>, i: nat)
    requires p.0 != [] && p.1 != [] && Occurs(p, syms, i) && forall j :: 0 <= j < i ==> !Occurs(p, syms, j)
    ensures Sweep(p, MergeAt(syms, i)) == Sweep(p, syms)
  {
    hide Sweep;
    var t, ab := MergeAt(syms, i), p.0 + p.1;
    var rest := syms[i + 2..];
    SweepFirst(p, syms, i);
    SweepHere(p, syms[i..]);
    assert syms[i..][2..] == rest;
    NewPartDiffers(p);
    forall j | 0 <= j < i + 1 ensures !Occurs(p, t, j) {
      if j + 1 < i { assert !Occurs(p, syms, j); }
    }
    SweepFirst(p, t, i + 1);
    assert t[..i + 1] == syms[..i] + [ab] && t[i + 1..] == rest;
  }

  lemma {:induction false} NewPartDiffers(p: Pair)
    requires p.0 != [] && p.1 != []
    ensures p.0 + p.1 != p.0 && p.0 + p.1 != p.1
  {
    assert |p.0 + p.1| == |p.0| + |p.1|;
  }

  /** No pair ranks k or more. */
  ghost predicate NoneFrom(m: Merges, t: seq<Sym>, k: nat) {
    forall i :: 0 <= i < |t| && Mergeable(m, t, i) ==> RankAt(m, t, i) < k
  }

  lemma {:induction false} OccursRanks(m: Merges, p: Pair, t: seq<Sym>, i: nat)
    requires p in m
    ensures Occurs(p, t, i) ==> Mergeable(m, t, i) && RankAt(m, t, i) == m[p]
  {}

  /** Nothing is left to replay when every pair's number has passed. */
  lemma {:induction false} ReplayNothing(list: seq<Pair>, k: nat, t: seq<Sym>)
    requires NoneFrom(MergeMap(list), t, k)
    ensures Replay(list, k, t) == t
    decreases |list| - k
  {
    hide MergeMap, Sweep;
    if k < |list| {
      LastRank(list, k);
      if MergeMap(list)[list[k]] == k {
        forall i | 0 <= i < |t| ensures !Occurs(list[k], t, i) { OccursRanks(MergeMap(list), list[k], t, i); }
        SweepNothing(list[k], t);
      }
      ReplayNothing(list, k + 1, t);
    }
  }

  lemma {:induction false} LeftmostOccurs(list: seq<Pair>, syms: seq<Sym>, k: nat, at: nat)
    requires var m := MergeMap(list);
      && NonEmpty(syms) && AllFrom(m, syms, k) && k < |list| && list[k] in m && m[list[k]] == k
      && at == Best(m, syms, Places(syms)) && RankAt(m, syms, at) == k
    ensures list[k].0 != [] && list[k].1 != [] && Occurs(list[k], syms, at)
    ensures forall j :: 0 <= j < at ==> !Occurs(list[k], syms, j)
    ensures NonEmpty(MergeAt(syms, at))
  {
    var m := MergeMap(list);
    BestIsLeast(m, syms, Places(syms));
    assert list[m[(syms[at], syms[at + 1])]] == (syms[at], syms[at + 1]);
    forall j | 0 <= j < at ensures !Occurs(list[k], syms, j) {
      if Occurs(list[k], syms, j) { assert Mergeable(m, syms, j); }
    }
  }

  /** When the next n steps' ranks never decrease, start at k or more, and leave no pair that
      ranks as high as the last of them, replaying from number k on takes just those steps. */
  lemma {:induction false} ReplayRun(list: seq<Pair>, k: nat, syms: seq<Sym>, n: nat)
    requires var m := MergeMap(list);
      && n <= |Applied(m, syms)| && Ascends(Applied(m, syms)[..n]) && NonEmpty(syms)
      && (n > 0 ==> AllFrom(m, syms, k)) && NoneFrom(m, Run(m, syms, n), if n > 0 then Applied(m, syms)[n - 1] else k)
    ensures Replay(list, k, syms) == Run(MergeMap(list), syms, n)
    decreases |list| - k, n
  {
    hide *;
    var m := MergeMap(list);
    if n == 0 {
      RunNone(m, syms);
      ReplayNothing(list, k, syms);
    } else {
      FirstStep(list, k, syms, n);
      LastRank(list, k);
      ReplayNumber(list, k, syms);
      if m[list[k]] != k {
        SkipRepeated(list, k, syms);
        ReplayRun(list, k + 1, syms, n);
      } else if Applied(m, syms)[0] > k {
        NextNumber(list, k, syms);
        ReplayRun(list, k + 1, syms, n);
      } else {
        SameNumber(list, k, syms, n);
        ReplayNumber(list, k, Step(m, syms));
        ReplayRun(list, k, Step(m, syms), n - 1);
      }
    }
  }

  lemma {:induction false} RunNone(m: Merges, syms: seq<Sym>)
    ensures Run(m, syms, 0) == syms
  {}

  lemma {:induction false} ReplayNumber(list: seq<Pair>, k: nat, syms: seq<Sym>)
    requires k < |list| && list[k] in MergeMap(list)
    ensures Replay(list, k, syms)
      == Replay(list, k + 1, if MergeMap(list)[list[k]] == k then Sweep(list[k], syms) else syms)
  {
    hide MergeMap, Sweep;
  }

  /** The first rank is a number of the list, and at least k. */
  lemma {:induction false} FirstStep(list: seq<Pair>, k: nat, syms: seq<Sym>, n: nat)
    requires var m := MergeMap(list); 0 < n <= |Applied(m, syms)| && AllFrom(m, syms, k)
    ensures var m := MergeMap(list);
      && k <= Applied(m, syms)[0] < |list| && Best(m, syms, Places(syms)) >= 0
      && Applied(m, syms)[0] == RankAt(m, syms, Best(m, syms, Places(syms)))
  {
    var m := MergeMap(list);
    var at := Best(m, syms, Places(syms));
    assert (syms[at], syms[at + 1]) in m;
  }

  /** No pair ranks k: its sweep does nothing. */
  lemma {:induction false} NextNumber(list: seq<Pair>, k: nat, syms: seq<Sym>)
    requires var m := MergeMap(list);
      && AllFrom(m, syms, k) && k < |list| && list[k] in m && m[list[k]] == k
      && Best(m, syms, Places(syms)) >= 0 && RankAt(m, syms, Best(m, syms, Places(syms))) > k
    ensures AllFrom(MergeMap(list), syms, k + 1) && Sweep(list[k], syms) == syms
  {
    var m := MergeMap(list);
    BestIsLeast(m, syms, Places(syms));
    forall i | 0 <= i < |syms| ensures !Occurs(list[k], syms, i) {
      if Occurs(list[k], syms, i) { assert Mergeable(m, syms, i); }
    }
    SweepNothing(list[k], syms);
  }

  /** The best pair ranks k: merging it first does not change what its sweep gives. */
  lemma {:induction false} SameNumber(list: seq<Pair>, k: nat, syms: seq<Sym>, n: nat)
    requires var m := MergeMap(list);
      && 0 < n <= |Applied(m, syms)| && Ascends(Applied(m, syms)[..n]) && NonEmpty(syms) && AllFrom(m, syms, k)
      && NoneFrom(m, Run(m, syms, n), Applied(m, syms)[n - 1])
      && k < |list| && list[k] in m && m[list[k]] == k && Applied(m, syms)[0] == k
    ensures var m := MergeMap(list);
      var t := Step(m, syms);
      && n - 1 <= |Applied(m, t)| && Ascends(Applied(m, t)[..n - 1]) && NonEmpty(t) && (n > 1 ==> AllFrom(m, t, k))
      && Run(m, t, n - 1) == Run(m, syms, n)
      && NoneFrom(m, Run(m, t, n - 1), if n > 1 then Applied(m, t)[n - 2] else k)
      && Sweep(list[k], t) == Sweep(list[k], syms)
  {
    var m, p := MergeMap(list), list[k];
    var at := Best(m, syms, Places(syms));
    var t, r := MergeAt(syms, at), Applied(m, syms);
    LeftmostOccurs(list, syms, k, at);
    SweepAfterFirst(p, syms, at);
    assert Applied(m, t) == r[1..];
    forall i, j | 0 <= i < j < n - 1 ensures r[1..][i] <= r[1..][j] { assert r[..n][i + 1] <= r[..n][j + 1]; }
    if n > 1 {
      assert r[..n][0] <= r[..n][1] && r[1..][n - 2] == r[n - 1];
      BestIsLeast(m, t, Places(t));
    }
  }

  /** A number whose pair has a later number is nobody's rank. */
  lemma {:induction false} SkipRepeated(list: seq<Pair>, k: nat, syms: seq<Sym>)
    requires k < |list| && AllFrom(MergeMap(list), syms, k) && list[k] in MergeMap(list) && MergeMap(list)[list[k]] != k
    ensures AllFrom(MergeMap(list), syms, k + 1)
  {
    var m := MergeMap(list);
    forall i | 0 <= i < |syms| && Mergeable(m, syms, i) ensures RankAt(m, syms, i) >= k + 1 {
      assert list[m[(syms[i], syms[i + 1])]] == (syms[i], syms[i + 1]);
    }
  }

  /** One pass over the merge list gives what the greedy loop gives on every word whose ranks
      never decrease. */
  lemma {:induction false} GreedyIsReplay(list: seq<Pair>, word: Sym)
    requires Ascends(Applied(MergeMap(list), Singles(word)))
    ensures Reduced(MergeMap(list), Singles(word)) == Replay(list, 0, Singles(word))
  {
    var m, s := MergeMap(list), Singles(word);
    var n := |Applied(m, s)|;
    assert Applied(m, s)[..n] == Applied(m, s);
    AppliedRun(m, s, n);
    RunEnds(m, s);
    hide MergeMap, Applied, Ascends, Run, Reduced;
    ReplayRun(list, 0, s, n);
  }

  lemma {:induction false} RunEnds(m: Merges, s: seq<Sym>)
    ensures var t := Run(m, s, |Applied(m, s)|); t == Reduced(m, s) && forall k: nat :: NoneFrom(m, t, k)
  {
    var t := Run(m, s, |Applied(m, s)|);
    AppliedRun(m, s, |Applied(m, s)|);
    assert Applied(m, t) == [];
    BestIsLeast(m, t, Places(t));
  }

  /** Where a merge's own result is built with a last step of lower rank, one pass over the
      list misses that step. */
  lemma {:induction false} ReplayMisses(list: seq<Pair>, p: Pair, k: nat)
    requires LastStepDrops(MergeMap(list), p, k)
    ensures Reduced(MergeMap(list), Singles(p.0 + p.1)) == [p.0 + p.1]
    ensures Replay(list, 0, Singles(p.0 + p.1)) == [p.0, p.1]
  {
    var m, s := MergeMap(list), Singles(p.0 + p.1);
    LastPair(m, s, k, p);
    forall i | 0 <= i < 2 && Mergeable(m, [p.0, p.1], i)
      ensures RankAt(m, [p.0, p.1], i) < Applied(m, s)[k - 1]
    {
      assert i == 0;
    }
    hide MergeMap, Applied, Ascends, Run, Reduced;
    ReplayRun(list, 0, s, k);
  }

  /** The greedy loop is one pass over the merge list for every word, exactly when the result of
      every merge is built with ranks that never decrease. */
  lemma {:induction false} ReplayExactly(list: seq<Pair>)
    ensures (forall word: Sym :: Reduced(MergeMap(list), Singles(word)) == Replay(list, 0, Singles(word)))
      <==> Ordered(MergeMap(list))
  {
    var m := MergeMap(list);
    RanksNeverDecrease(m);
    hide MergeMap, Applied, Ascends, Reduced, Replay, LastStepDrops;
    if Ordered(m) {
      forall word: Sym
        ensures Reduced(m, Singles(word)) == Replay(list, 0, Singles(word))
      {
        GreedyIsReplay(list, word);
      }
    } else {
      var p :| p in m && !Ascends(Applied(m, Singles(p.0 + p.1)));
      DropFromList(m, p.0 + p.1);
      var q, k :| q in m && LastStepDrops(m, q, k);
      ReplayMisses(list, q, k);
      assert [q.0 + q.1] != [q.0, q.1];
    }
  }

  // ---- why the order of the list matters

  const A: Sym := [97]
  const B: Sym := [98]
  const C: Sym := [99]
  const AB: Sym := [97, 98]
  const ABC: Sym := [97, 98, 99]

  /** "ab c" before "a b" */
  const UNORDERED: seq<Pair> := [(AB, C), (A, B)]

  lemma {:induction false} UnorderedMap()
    ensures MergeMap(UNORDERED) == map[(AB, C) := 0, (A, B) := 1]
  {
    assert UNORDERED[..1] == [(AB, C)] && [(AB, C)][..0] == [];
    assert MergeMap([(AB, C)]) == map[(AB, C) := 0];
  }

  lemma {:induction false} GreedyJoins(m: Merges)
    requires m == map[(AB, C) := 0, (A, B) := 1]
    ensures Applied(m, [A, B, C]) == [1, 0] && Reduced(m, [A, B, C]) == [ABC]
  {
    var s0, s1, s2 := [A, B, C], [AB, C], [ABC];
    assert A != B && A != AB && B != C && A + B == AB && AB + C == ABC;
    assert (A, B) in m && (AB, C) in m && (B, C) !in m;
    assert Mergeable(m, s0, 0) && !Mergeable(m, s0, 1) && Mergeable(m, s1, 0);
    assert Best(m, s0, 0) == -1 && Best(m, s1, 0) == -1;
    assert Best(m, s0, 1) == 0 && Best(m, s0, 2) == 0;
    assert MergeAt(s0, 0) == s1 && MergeAt(s1, 0) == s2;
    assert Best(m, s1, 1) == 0;
    assert Best(m, s2, 0) == -1;
    assert Applied(m, s2) == [] && Applied(m, s1) == [0];
    assert Reduced(m, s2) == s2 && Reduced(m, s1) == s2;
  }

  lemma {:induction false} ReplayStops()
    ensures Replay(UNORDERED, 0, [A, B, C]) == [AB, C]
  {
    UnorderedMap();
    var s0, s1 := [A, B, C], [AB, C];
    forall i | 0 <= i < |s0| ensures !Occurs((AB, C), s0, i) { assert i == 0 || i == 1 || i == 2; }
    SweepNothing((AB, C), s0);
    SweepHere((A, B), s0);
    assert s0[2..] == [C] && Sweep((A, B), [C]) == [C] && A + B == AB;
    assert Replay(UNORDERED, 2, s1) == s1;
    assert Replay(UNORDERED, 1, s0) == s1;
  }

  /** Without that order of the list the ranks can decrease and the replay can fall short:
      with "ab c" before "a b", bpe joins all of "abc" but one pass over the list does not. */
  lemma {:induction false} OrderMatters()
    ensures !Ordered(MergeMap(UNORDERED))
    ensures Applied(MergeMap(UNORDERED), Singles(ABC)) == [1, 0]
    ensures Reduced(MergeMap(UNORDERED), Singles(ABC)) == [ABC] && Replay(UNORDERED, 0, Singles(ABC)) == [AB, C]
  {
    UnorderedMap();
    var m := MergeMap(UNORDERED);
    assert Singles(ABC) == [A, B, C];
    GreedyJoins(m);
    ReplayStops();
    assert (AB, C) in m && AB + C == ABC;
    assert Applied(m, Singles(ABC))[0] > Applied(m, Singles(ABC))[1];
  }
}
