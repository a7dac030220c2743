/** Schedules exist: any prefix of a run can be continued warp by warp, so the statements about
    all runs and all finished runs are about something. */
module Runs {
  import opened BlockMachine

  /** Warps that meet the same barriers. */
  ghost predicate SameBarriers(code: seq<Code>) {
    |code| > 0 && |code[0]| > 0 && forall w :: 0 <= w < |code| ==> |code[w]| == |code[0]|
  }

  /** Every warp is about to start epoch e. */
  ghost predicate AtEpoch(code: seq<Code>, s: Block, e: nat) {
    |s.warps| == |code| && forall w :: 0 <= w < |code| ==> s.warps[w].epoch == e && s.warps[w].pc == 0
  }

  /** The first n warps have reached the end of segment e; the others are about to start it. */
  ghost predicate SomeThrough(code: seq<Code>, s: Block, e: nat, n: nat)
    requires SameBarriers(code) && e < |code[0]|
  {
    && |s.warps| == |code|
    && forall w :: 0 <= w < |code| ==> s.warps[w].epoch == e && s.warps[w].pc == if w < n then |code[w][e]| else 0
  }

  ghost predicate Extends(run: seq<Block>, acts: seq<Act>, run': seq<Block>, acts': seq<Act>) {
    |run| <= |run'| && run'[..|run|] == run && |acts| <= |acts'| && acts'[..|acts|] == acts
  }

  lemma {:induction false} Extend(code: seq<Code>, s0: Block, run: seq<Block>, acts: seq<Act>, a: Act)
    requires IsRun(code, s0, run, acts) && Enabled(code, run[|acts|], a)
    ensures IsRun(code, s0, run + [Do(code, run[|acts|], a)], acts + [a])
  {
    var run', acts' := run + [Do(code, run[|acts|], a)], acts + [a];
    forall i | 0 <= i < |acts'| ensures Next(code, run'[i], acts'[i], run'[i + 1]) {
      if i < |acts| { assert Next(code, run[i], acts[i], run[i + 1]); }
    }
  }

  /** Warp w goes on alone until instruction n of its segment. */
  lemma {:induction false} RunWarp(code: seq<Code>, s0: Block, run: seq<Block>, acts: seq<Act>, w: nat, e: nat, n: nat)
    returns (run': seq<Block>, acts': seq<Act>)
    requires IsRun(code, s0, run, acts) && w < |code| && e < |code[w]| && n <= |code[w][e]|
    requires run[|acts|].warps[w].epoch == e && run[|acts|].warps[w].pc <= n
    ensures IsRun(code, s0, run', acts') && Extends(run, acts, run', acts')
    ensures |acts'| == |acts| + (n - run[|acts|].warps[w].pc)
    ensures forall i :: |acts| <= i < |acts'| ==>
      acts'[i] == Step(w) && run'[i].warps[w].epoch == e
        && run'[i].warps[w].pc == run[|acts|].warps[w].pc + (i - |acts|)
    ensures run'[|acts'|].warps[w].epoch == e && run'[|acts'|].warps[w].pc == n
    ensures forall u :: 0 <= u < |code| && u != w ==> run'[|acts'|].warps[u] == run[|acts|].warps[u]
    decreases n - run[|acts|].warps[w].pc
  {
    var s := run[|acts|];
    if s.warps[w].pc == n {
      run', acts' := run, acts;
    } else {
      Extend(code, s0, run, acts, Step(w));
      var r1, a1 := run + [Do(code, s, Step(w))], acts + [Step(w)];
      hide IsRun, Do, Enabled;
      StepMoves(code, s, w, e);
      run', acts' := RunWarp(code, s0, r1, a1, w, e, n);
      assert run'[..|run|] == run'[..|r1|][..|run|] && acts'[..|acts|] == acts'[..|a1|][..|acts|];
      assert run'[|acts|] == run'[..|r1|][|acts|] && acts'[|acts|] == acts'[..|a1|][|acts|];
    }
  }

  lemma {:induction false} StepMoves(code: seq<Code>, s: Block, w: nat, e: nat)
    requires |s.warps| == |code| && w < |code| && e < |code[w]| && s.warps[w].epoch == e && s.warps[w].pc < |code[w][e]|
    ensures Enabled(code, s, Step(w))
    ensures var t := Do(code, s, Step(w));
      && |t.warps| == |code| && t.warps[w].epoch == e && t.warps[w].pc == s.warps[w].pc + 1
      && forall u :: 0 <= u < |code| && u != w ==> t.warps[u] == s.warps[u]
  {}

  /** The warps run through segment e one after the other. */
  lemma {:induction false} RunSegment(code: seq<Code>, s0: Block, run: seq<Block>, acts: seq<Act>, e: nat, n: nat)
    returns (run': seq<Block>, acts': seq<Act>)
    requires SameBarriers(code) && IsRun(code, s0, run, acts) && e < |code[0]| && n <= |code|
    requires SomeThrough(code, run[|acts|], e, n)
    ensures IsRun(code, s0, run', acts') && SomeThrough(code, run'[|acts'|], e, |code|)
    decreases |code| - n
  {
    if n == |code| {
      run', acts' := run, acts;
    } else {
      var r1, a1 := RunWarp(code, s0, run, acts, n, e, |code[n][e]|);
      hide IsRun;
      run', acts' := RunSegment(code, s0, r1, a1, e, n + 1);
    }
  }

  lemma {:induction false} SyncMoves(code: seq<Code>, s: Block, e: nat)
    requires SameBarriers(code) && e + 1 < |code[0]| && SomeThrough(code, s, e, |code|)
    ensures Enabled(code, s, Sync) && AtEpoch(code, Do(code, s, Sync), e + 1)
  {}

  /** Some schedule gets every warp to the start of epoch e. */
  lemma {:induction false} ReachEpoch(code: seq<Code>, s0: Block, e: nat) returns (run: seq<Block>, acts: seq<Act>)
    requires SameBarriers(code) && Initial(code, s0) && e < |code[0]|
    ensures IsRun(code, s0, run, acts) && AtEpoch(code, run[|acts|], e)
  {
    if e == 0 {
      run, acts := [s0], [];
    } else {
      run, acts := ReachEpoch(code, s0, e - 1);
      AboutToStart(code, run[|acts|], e - 1);
      run, acts := RunSegment(code, s0, run, acts, e - 1, 0);
      SyncMoves(code, run[|acts|], e - 1);
      Extend(code, s0, run, acts, Sync);
      run, acts := run + [Do(code, run[|acts|], Sync)], acts + [Sync];
    }
  }

  lemma {:induction false} AboutToStart(code: seq<Code>, s: Block, e: nat)
    requires SameBarriers(code) && e < |code[0]| && AtEpoch(code, s, e)
    ensures SomeThrough(code, s, e, 0)
  {}

  /** Some schedule runs to the end. */
  lemma {:induction false} SomeRunFinishes(code: seq<Code>, s0: Block) returns (run: seq<Block>, acts: seq<Act>)
    requires SameBarriers(code) && Initial(code, s0)
    ensures IsRun(code, s0, run, acts) && Finished(code, run[|acts|])
  {
    var e := |code[0]| - 1;
    run, acts := ReachEpoch(code, s0, e);
    AboutToStart(code, run[|acts|], e);
    run, acts := RunSegment(code, s0, run, acts, e, 0);
  }
}
